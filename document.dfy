/**
 * The parts of a Talend job document (`*.item` XML) that the migrator
 * reads. XML parsing and XPath evaluation are not modelled: a parsed
 * document is given as this value, an unparseable one as `None`.
 */
module Document {
  import opened Wrappers

  /** An `elementParameter` element: its `name` and (possibly absent) `value` attribute. */
  datatype Param = Param(name: string, value: Option<string>)

  /**
   * A `node` element: its `componentName` attribute (absent on malformed
   * nodes), its `elementParameter` children in document order, and its
   * serialised XML text (what `etree.tostring` returns for it).
   */
  datatype ComponentNode = ComponentNode(componentName: Option<string>, params: seq<Param>, serialized: string)

  /** A `connection` element with its `source` and `target` attributes. */
  datatype Connection = Connection(source: Option<string>, target: Option<string>)

  /** A parsed job document: its `node`s and `connection`s in document order. */
  datatype JobDocument = JobDocument(nodes: seq<ComponentNode>, connections: seq<Connection>)

  /** The file system plus the XML parser: a path to its parsed document, `None` when parsing fails. */
  type Loader = string -> Option<JobDocument>
}
