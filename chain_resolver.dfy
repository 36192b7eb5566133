/**
 * `MigrationEngine._process_xml_chain`: turns one job document into the
 * body of a `WITH` clause. Components are visited in topological order of
 * the job's own connection graph (document order of their `UNIQUE_NAME`s
 * when that graph has a cycle); inputs become `source`/`var` references,
 * outputs are skipped, and everything else is rewritten by the inference
 * oracle. Every exception the Python code would raise inside its `try`
 * becomes `None` here.
 */
module ChainResolver {
  import opened Wrappers
  import opened Strings
  import opened Document
  import opened Graphs
  import opened Agent

  /** One entry of `cte_list`: the component id it defines and its text. */
  datatype Cte = Cte(name: string, text: string)

  /** The loop state: `cte_list` and `prev_cte`. */
  datatype ChainState = ChainState(ctes: seq<Cte>, prev: string)

  const Dual := "dual"
  const Start := ChainState([], Dual)

  function Names(ctes: seq<Cte>): (r: seq<string>)
    ensures |r| == |ctes| && forall i :: 0 <= i < |ctes| ==> r[i] == ctes[i].name
  {
    seq(|ctes|, i requires 0 <= i < |ctes| => ctes[i].name)
  }

  function Texts(ctes: seq<Cte>): (r: seq<string>)
    ensures |r| == |ctes| && forall i :: 0 <= i < |ctes| ==> r[i] == ctes[i].text
  {
    seq(|ctes|, i requires 0 <= i < |ctes| => ctes[i].text)
  }

  // ---------------------------------------------------------------------
  // The job's own connection graph

  /** `if src and tgt`: both attributes present and non-empty. */
  predicate Usable(c: Connection)
  {
    c.source.Some? && c.target.Some? && c.source.value != "" && c.target.value != ""
  }

  function UsableEdges(conns: seq<Connection>): set<Edge>
  {
    set c | c in conns && Usable(c) :: (c.source.value, c.target.value)
  }

  lemma UsableEdgesSnoc(init: seq<Connection>, c: Connection)
    ensures UsableEdges(init + [c]) == UsableEdges(init) + (if Usable(c) then {(c.source.value, c.target.value)} else {})
  {
    var conns := init + [c];
    assert forall x :: x in conns <==> x in init || x == c;
  }

  /** `internal_graph`: one edge per usable connection. */
  function IntraJobGraph(conns: seq<Connection>): (g: Graph)
    ensures WellFormed(g)
    ensures g.edges == UsableEdges(conns)
    decreases |conns|
  {
    if |conns| == 0 then EmptyGraph
    else
      var init := conns[..|conns| - 1];
      var c := conns[|conns| - 1];
      var g := IntraJobGraph(init);
      assert conns == init + [c];
      UsableEdgesSnoc(init, c);
      if Usable(c) then WithEdge(g, c.source.value, c.target.value) else g
  }

  /** `v` is the source or the target of some edge. */
  predicate IsEndpoint(v: string, edges: set<Edge>)
  {
    exists e :: e in edges && (v == e.0 || v == e.1)
  }

  /**
   * The vertices of `internal_graph` are exactly the endpoints of its
   * edges: a component without a usable connection is not in it.
   */
  lemma {:induction false} IntraJobGraphVertices(conns: seq<Connection>)
    ensures forall v :: v in IntraJobGraph(conns).vertices <==> IsEndpoint(v, IntraJobGraph(conns).edges)
    decreases |conns|
  {
    if |conns| > 0 {
      var init := conns[..|conns| - 1];
      var c := conns[|conns| - 1];
      IntraJobGraphVertices(init);
      var g := IntraJobGraph(init);
      var r := IntraJobGraph(conns);
      if Usable(c) {
        var u, w := c.source.value, c.target.value;
        assert r.edges == g.edges + {(u, w)};
        assert forall x :: x in r.vertices <==> x in g.vertices || x == u || x == w;
        forall v | v in r.vertices ensures IsEndpoint(v, r.edges) {
          if v in g.vertices {
            assert IsEndpoint(v, g.edges);
            var e :| e in g.edges && (v == e.0 || v == e.1);
            assert e in r.edges;
          } else {
            assert (u, w) in r.edges;
          }
        }
        forall v | IsEndpoint(v, r.edges) ensures v in r.vertices {
          var e :| e in r.edges && (v == e.0 || v == e.1);
          if e != (u, w) {
            assert IsEndpoint(v, g.edges);
          }
        }
      } else {
        assert r == g;
      }
    }
  }

  // ---------------------------------------------------------------------
  // Visit order

  /** The values of the `UNIQUE_NAME` parameters among `params` that have one. */
  function UniqueNamesOf(params: seq<Param>): seq<string>
  {
    if |params| == 0 then []
    else
      var here := if params[0].name == "UNIQUE_NAME" && params[0].value.Some? then [params[0].value.value] else [];
      here + UniqueNamesOf(params[1..])
  }

  /** The fallback order: every component node's `UNIQUE_NAME` value, in document order. */
  function UniqueNames(nodes: seq<ComponentNode>): seq<string>
  {
    if |nodes| == 0 then [] else UniqueNamesOf(nodes[0].params) + UniqueNames(nodes[1..])
  }

  /** `comps`: the topological order, or the fallback when the graph has a cycle. */
  function VisitOrder(d: JobDocument): seq<string>
  {
    match TopologicalSort(IntraJobGraph(d.connections))
    case Some(o) => o
    case None => UniqueNames(d.nodes)
  }

  /**
   * Components are visited in a topological order of the connection graph
   * whenever one exists; only when none exists (a cycle) does the visit
   * fall back to document order.
   */
  lemma VisitOrderSpec(d: JobDocument)
    ensures var g := IntraJobGraph(d.connections);
      (exists o :: IsTopologicalOrder(o, g)) ==> IsTopologicalOrder(VisitOrder(d), g)
    ensures var g := IntraJobGraph(d.connections);
      (forall o :: !IsTopologicalOrder(o, g)) ==> VisitOrder(d) == UniqueNames(d.nodes)
  {
    TopologicalSortCorrect(IntraJobGraph(d.connections));
  }

  // ---------------------------------------------------------------------
  // Node lookup

  /** The first `UNIQUE_NAME` value of a node (`u_name[0]`). */
  function FirstUniqueName(n: ComponentNode): Option<string>
  {
    var u := UniqueNamesOf(n.params);
    if |u| > 0 then Some(u[0]) else None
  }

  /** The first node whose first `UNIQUE_NAME` value is `id`. */
  function LookupNode(nodes: seq<ComponentNode>, id: string): (r: Option<ComponentNode>)
    ensures r.None? ==> forall n :: n in nodes ==> FirstUniqueName(n) != Some(id)
    ensures r.Some? ==> FirstUniqueName(r.value) == Some(id)
    ensures r.Some? ==> exists k :: (0 <= k < |nodes| && nodes[k] == r.value &&
                                     forall j :: 0 <= j < k ==> FirstUniqueName(nodes[j]) != Some(id))
  {
    if |nodes| == 0 then None
    else if FirstUniqueName(nodes[0]) == Some(id) then Some(nodes[0])
    else
      var r := LookupNode(nodes[1..], id);
      assert r.Some? ==> exists k :: (0 <= k < |nodes| && nodes[k] == r.value &&
                                      forall j :: 0 <= j < k ==> FirstUniqueName(nodes[j]) != Some(id)) by {
        if r.Some? {
          var k :| 0 <= k < |nodes| - 1 && nodes[1..][k] == r.value &&
            (forall j :: 0 <= j < k ==> FirstUniqueName(nodes[1..][j]) != Some(id));
          assert nodes[k + 1] == r.value;
          forall j | 0 <= j < k + 1 ensures FirstUniqueName(nodes[j]) != Some(id) {
            if j > 0 { assert nodes[j] == nodes[1..][j - 1]; }
          }
        }
      }
      r
  }

  /** The node search loop. */
  method FindNode(nodes: seq<ComponentNode>, id: string) returns (node: Option<ComponentNode>)
    ensures node == LookupNode(nodes, id)
  {
    node := None;
    var i := 0;
    while i < |nodes|
      invariant 0 <= i <= |nodes|
      invariant LookupNode(nodes, id) == LookupNode(nodes[i..], id)
    {
      assert nodes[i..][1..] == nodes[i + 1..];
      var uName := UniqueNamesOf(nodes[i].params);
      if |uName| > 0 && uName[0] == id {
        node := Some(nodes[i]);
        break;
      }
      i := i + 1;
    }
  }

  // ---------------------------------------------------------------------
  // Input components

  /** The `value` of the first `TABLE` or `FILENAME` parameter (`None` when there is none or it has no value). */
  function TableParamValue(params: seq<Param>): Option<string>
  {
    if |params| == 0 then None
    else if params[0].name == "TABLE" || params[0].name == "FILENAME" then params[0].value
    else TableParamValue(params[1..])
  }

  /** The parameter search loop of the input branch. */
  method FindTableParam(params: seq<Param>) returns (rawVal: Option<string>)
    ensures rawVal == TableParamValue(params)
  {
    rawVal := None;
    var i := 0;
    while i < |params|
      invariant 0 <= i <= |params|
      invariant TableParamValue(params) == TableParamValue(params[i..])
    {
      assert params[i..][1..] == params[i + 1..];
      if params[i].name == "TABLE" || params[i].name == "FILENAME" {
        rawVal := params[i].value;
        break;
      }
      i := i + 1;
    }
  }

  /** A runtime-variable reference: `context.x` or `globalMap.get(...)`. */
  predicate IsRuntimeVariable(raw: string)
  {
    Contains(raw, "context.") || Contains(raw, "globalMap.get")
  }

  /** The dbt variable named by a runtime reference: its last dotted field, without quotes or `)`. */
  function VarName(raw: string): (r: string)
    ensures '.' !in r && '"' !in r && ')' !in r
  {
    var last := AfterLast(raw, '.');
    var noQuote := Replace(last, "\"", "");
    ReplaceCharGone(last, '"', "", '.');
    ReplaceCharGone(noQuote, ')', "", '.');
    ReplaceCharGone(noQuote, ')', "", '"');
    Replace(noQuote, ")", "")
  }

  /**
   * The raw table name: without quotes, backslashes as slashes, and for a
   * path the file name without its extension.
   */
  function TableName(raw: string): (r: string)
    ensures '"' !in r && '\\' !in r && '/' !in r
  {
    var noQuote := Replace(raw, "\"", "");
    var clean := CleanPath(raw);
    ReplaceCharGone(raw, '"', "", '\\');
    ReplaceCharGone(noQuote, '\\', "/", '"');
    ReplaceCharGone(noQuote, '\\', "/", '\\');
    if '/' in clean then
      var b := Basename(clean);
      var t := StripExtension(b);
      assert forall i :: 0 <= i < |t| ==> t[i] == b[i];
      assert forall ch :: ch in b ==> ch in clean;
      t
    else clean
  }

  /** The quote removal and slash conversion of `TableName`. */
  function CleanPath(raw: string): string
  {
    Replace(Replace(raw, "\"", ""), "\\", "/")
  }

  /**
   * `source_ref` for an input component with the given `TABLE`/`FILENAME`
   * value: a dbt source in the `raw` schema, or a dbt variable for a runtime
   * reference; a missing or empty value falls back to `src_<id>`.
   */
  function SourceRef(id: string, raw: Option<string>): (r: string)
    ensures StartsWith(r, "{{ source('raw', '") || StartsWith(r, "{{ var('")
    ensures EndsWith(r, "') }}")
    ensures raw.None? || raw == Some("") ==> r == "{{ source('raw', 'src_" + id + "') }}"
  {
    if raw.None? || raw.value == "" then "{{ source('raw', 'src_" + id + "') }}"
    else if IsRuntimeVariable(raw.value) then "{{ var('" + VarName(raw.value) + "', 'default_" + id + "') }}"
    else "{{ source('raw', '" + TableName(raw.value) + "') }}"
  }

  /** A plain table name, free of quotes, slashes and runtime references, is used as it is. */
  lemma PlainTableKept(id: string, name: string)
    requires name != "" && !IsRuntimeVariable(name)
    requires '"' !in name && '\\' !in name && '/' !in name
    ensures SourceRef(id, Some(name)) == "{{ source('raw', '" + name + "') }}"
  {
    CharNotContained(name, '"');
    assert ['"'] == "\"";
    ReplaceAbsent(name, "\"", "");
    CharNotContained(name, '\\');
    ReplaceAbsent(name, "\\", "/");
  }

  /** A quoted plain table name loses its quotes and is used as it is. */
  lemma QuotedTableKept(id: string, name: string)
    requires name != "" && !IsRuntimeVariable(name)
    requires '"' !in name && '\\' !in name && '/' !in name
    ensures SourceRef(id, Some("\"" + name + "\"")) == "{{ source('raw', '" + name + "') }}"
  {
    var raw := ['"'] + name + ['"'];
    assert "\"" + name + "\"" == raw;
    WrappedNotContained('"', name, "context.");
    WrappedNotContained('"', name, "globalMap.get");
    UnwrapChar('"', name);
    assert ['"'] == "\"";
    ReplaceCharAbsent(name, '\\', "/");
  }

  /** Cleaning a text and a file name after it cleans each on its own. */
  lemma CleanPathConcat(a: string, b: string)
    ensures CleanPath(a + b) == CleanPath(a) + CleanPath(b)
  {
    ReplaceCharConcat(a, b, '"', "");
    ReplaceCharConcat(Replace(a, "\"", ""), Replace(b, "\"", ""), '\\', "/");
  }

  /** Either separator after a directory becomes a slash. */
  lemma CleanSeparator(dir: string, sep: char)
    requires sep == '/' || sep == '\\'
    ensures CleanPath(dir + [sep]) == CleanPath(dir) + "/"
  {
    CleanPathConcat(dir, [sep]);
    assert [sep][1..] == [];
    assert Replace([sep], "\"", "") == [sep];
  }

  /** A dotted file name keeps its stem and its extension's characters other than `"`. */
  lemma CleanFile(stem: string, ext: string)
    requires '"' !in stem && '\\' !in stem && '.' !in stem
    requires '\\' !in ext
    ensures CleanPath(stem + "." + ext) == stem + "." + Replace(ext, "\"", "")
  {
    var pre := stem + ".";
    ReplaceCharConcat(pre, ext, '"', "");
    ReplaceCharAbsent(pre, '"', "");
    var ext1 := Replace(ext, "\"", "");
    ReplaceCharGone(ext, '"', "", '\\');
    ReplaceCharConcat(pre, ext1, '\\', "/");
    ReplaceCharAbsent(pre, '\\', "/");
    ReplaceCharAbsent(ext1, '\\', "/");
  }

  /** The file name of a cleaned path, without its extension, is the stem. */
  lemma StemOfPath(dir: string, stem: string, ext: string)
    requires stem != "" && '/' !in stem && '.' !in stem && '/' !in ext && '.' !in ext
    ensures '/' in dir + "/" + stem + "." + ext
    ensures StripExtension(Basename(dir + "/" + stem + "." + ext)) == stem
  {
    var file := stem + "." + ext;
    assert dir + "/" + stem + "." + ext == (dir + "/") + file;
    assert ((dir + "/") + file)[|dir|] == '/';
    assert '/' !in file;
    AfterLastAfter(dir + "/", file, '/');
    StripDottedExtension(stem, ext);
  }

  /** Cleaning `<dir><sep><stem>.<ext>` cleans the directory and drops the extension's quotes. */
  lemma CleanedPath(dir: string, sep: char, stem: string, ext: string)
    requires sep == '/' || sep == '\\'
    requires '"' !in stem && '\\' !in stem && '.' !in stem && '\\' !in ext
    ensures CleanPath(dir + [sep] + stem + "." + ext) == CleanPath(dir) + "/" + stem + "." + Replace(ext, "\"", "")
  {
    assert dir + [sep] + stem + "." + ext == (dir + [sep]) + (stem + "." + ext);
    CleanPathConcat(dir + [sep], stem + "." + ext);
    CleanSeparator(dir, sep);
    CleanFile(stem, ext);
  }

  /**
   * A path, with either separator and possibly quoted, names the table by
   * its file name without the extension.
   */
  lemma PathTableName(dir: string, sep: char, stem: string, ext: string)
    requires sep == '/' || sep == '\\'
    requires stem != "" && '/' !in stem && '\\' !in stem && '"' !in stem && '.' !in stem
    requires '/' !in ext && '\\' !in ext && '.' !in ext
    ensures TableName(dir + [sep] + stem + "." + ext) == stem
  {
    var ext1 := Replace(ext, "\"", "");
    CleanedPath(dir, sep, stem, ext);
    ReplaceCharGone(ext, '"', "", '/');
    ReplaceCharGone(ext, '"', "", '.');
    StemOfPath(CleanPath(dir), stem, ext1);
  }

  /** A `context.<name>` reference becomes the dbt variable `<name>`, defaulting to `default_<id>`. */
  lemma ContextVariable(id: string, name: string)
    requires '.' !in name && '"' !in name && ')' !in name
    ensures SourceRef(id, Some("context." + name)) == "{{ var('" + name + "', 'default_" + id + "') }}"
  {
    var raw := "context." + name;
    assert raw[..|"context."|] == "context.";
    assert Contains(raw, "context.");
    AfterLastAfter("context.", name, '.');
    CharNotContained(name, '"');
    assert ['"'] == "\"";
    ReplaceAbsent(name, "\"", "");
    CharNotContained(name, ')');
    ReplaceAbsent(name, ")", "");
  }

  function InputBlock(id: string, params: seq<Param>): Cte
  {
    Cte(id, id + " AS ( SELECT * FROM " + SourceRef(id, TableParamValue(params)) + " )")
  }

  // ---------------------------------------------------------------------
  // Transformations

  /** `sql.strip().rstrip(';')`: an infix of the oracle's SQL that neither starts with blank space nor ends with `;`. */
  function CleanSql(sql: string): (r: string)
    ensures Contains(sql, r)
    ensures r == [] || (!IsSpace(r[0]) && r[|r| - 1] != ';')
  {
    CleanSqlInfix(sql);
    RStripChar(Strip(sql), ';')
  }

  lemma CleanSqlInfix(sql: string)
    ensures var r := RStripChar(Strip(sql), ';');
      Contains(sql, r) && (r == [] || (!IsSpace(r[0]) && r[|r| - 1] != ';'))
  {
    var l := LStripBy(sql, IsSpace);
    var s := RStripBy(l, IsSpace);
    var r := RStripChar(s, ';');
    EndsWithContains(sql, l);
    ContainsSlice(l, 0, |s|);
    assert l[0..|s|] == s;
    ContainsSlice(s, 0, |r|);
    assert s[0..|r|] == r;
    ContainsTransitive(l, s, r);
    ContainsTransitive(sql, l, r);
    if r != [] {
      assert r[0] == s[0] == l[0];
      assert !((ch => ch == ';')(r[|r| - 1]));
    }
  }

  /**
   * `strip().rstrip(';')` removes exactly the blank space around the SQL
   * and the run of `;` that ends it, and nothing of the statement itself.
   */
  lemma CleanSqlExact(w1: string, core: string, semis: string, w2: string)
    requires forall i :: 0 <= i < |w1| ==> IsSpace(w1[i])
    requires forall i :: 0 <= i < |w2| ==> IsSpace(w2[i])
    requires forall i :: 0 <= i < |semis| ==> semis[i] == ';'
    requires core != [] && !IsSpace(core[0]) && !IsSpace(core[|core| - 1]) && core[|core| - 1] != ';'
    ensures CleanSql(w1 + core + semis + w2) == core
  {
    assert w1 + core + semis + w2 == w1 + (core + semis) + w2;
    assert !IsSpace(';');
    assert (core + semis)[0] == core[0];
    assert (core + semis)[|core + semis| - 1] == if semis == [] then core[|core| - 1] else ';';
    StripExact(w1, core + semis, w2);
    RStripCharExact(core, semis, ';');
  }

  function TransformBlock(id: string, sql: string): Cte
  {
    Cte(id, id + " AS (\n " + CleanSql(sql) + " \n)")
  }

  // ---------------------------------------------------------------------
  // The walk

  /** `st'` is `st` with one more block, named `id`, which is now `prev_cte`. */
  predicate Grows(st: ChainState, st': ChainState, id: string)
  {
    |st'.ctes| == |st.ctes| + 1 && st'.ctes[..|st.ctes|] == st.ctes && st'.ctes[|st.ctes|].name == id && st'.prev == id
  }

  /** `cte_list.append(b)` followed by `prev_cte = id`, for the block `b` of component `id`. */
  function Append(st: ChainState, id: string, b: Cte): (r: ChainState)
    requires b.name == id
    ensures Grows(st, r, id) && r.ctes[|st.ctes|] == b
  {
    var ctes := st.ctes + [b];
    assert ctes[..|st.ctes|] == st.ctes;
    ChainState(ctes, id)
  }

  /**
   * One iteration of the component loop. `None` is an exception: a node
   * without `componentName`, a reply that is not an object, or a
   * `SUCCESS` reply whose `sql_logic` is missing or not a string.
   */
  function Visit(nodes: seq<ComponentNode>, oracle: Oracle, st: ChainState, id: string): (r: Option<ChainState>)
    ensures r.Some? ==> r.value == st || Grows(st, r.value, id)
    ensures LookupNode(nodes, id).None? ==> r == Some(st)
    ensures LookupNode(nodes, id).Some? && LookupNode(nodes, id).value.componentName.None? ==> r.None?
    ensures LookupNode(nodes, id).Some? && LookupNode(nodes, id).value.componentName.Some? ==>
      var n := LookupNode(nodes, id).value;
      var ct := n.componentName.value;
      !Contains(ct, "Input") && oracle(PromptFor(ct, n.serialized, st.prev)).Raised? ==> r == Some(st)
  {
    match LookupNode(nodes, id)
    case None => Some(st)
    case Some(node) =>
      match node.componentName
      case None => None
      case Some(ct) =>
        if Contains(ct, "Input") then Some(Append(st, id, InputBlock(id, node.params)))
        else if Contains(ct, "Output") then Some(st)
        else
          match ConvertComponent(oracle, ct, node.serialized, st.prev)
          case NotAnObject => None
          case Reply(status, sqlLogic) =>
            if status != Some("SUCCESS") then Some(st)
            else if sqlLogic.Text? then Some(Append(st, id, TransformBlock(id, sqlLogic.sql)))
            else None
  }

  /**
   * How a component found by its id changes the state: a type containing
   * "Input" adds its source block even when it also contains "Output"; any
   * other type containing "Output" changes nothing; a transformation
   * changes nothing unless the oracle answers `SUCCESS`, appends the block
   * of the returned SQL when it does, and raises on a reply that is not an
   * object or a `SUCCESS` without SQL text.
   */
  lemma ComponentKinds(nodes: seq<ComponentNode>, oracle: Oracle, st: ChainState, id: string)
    requires LookupNode(nodes, id).Some? && LookupNode(nodes, id).value.componentName.Some?
    ensures var n := LookupNode(nodes, id).value;
      var ct := n.componentName.value;
      && (Contains(ct, "Input") ==> Visit(nodes, oracle, st, id) == Some(ChainState(st.ctes + [InputBlock(id, n.params)], id)))
      && (!Contains(ct, "Input") && Contains(ct, "Output") ==> Visit(nodes, oracle, st, id) == Some(st))
      && (!Contains(ct, "Input") && !Contains(ct, "Output") ==>
        var reply := ConvertComponent(oracle, ct, n.serialized, st.prev);
        && (reply.Reply? && reply.status != Some("SUCCESS") ==> Visit(nodes, oracle, st, id) == Some(st))
        && (reply.Reply? && reply.status == Some("SUCCESS") && reply.sqlLogic.Text? ==>
              Visit(nodes, oracle, st, id) == Some(ChainState(st.ctes + [TransformBlock(id, reply.sqlLogic.sql)], id)))
        && (reply.NotAnObject? || (reply.status == Some("SUCCESS") && !reply.sqlLogic.Text?) ==> Visit(nodes, oracle, st, id).None?))
  {
  }

  /** The component loop over `ids`, starting from `st`. */
  function Walk(nodes: seq<ComponentNode>, oracle: Oracle, st: ChainState, ids: seq<string>): Option<ChainState>
    decreases |ids|
  {
    if |ids| == 0 then Some(st)
    else
      match Visit(nodes, oracle, st, ids[0])
      case None => None
      case Some(next) => Walk(nodes, oracle, next, ids[1..])
  }

  /** The loop state after visiting every component of the document. */
  function Resolve(d: JobDocument, oracle: Oracle): Option<ChainState>
  {
    Walk(d.nodes, oracle, Start, VisitOrder(d))
  }

  function Terminal(prev: string): string
  {
    ",\nfinal_cte AS ( SELECT * FROM " + prev + " )"
  }

  /** The value `_process_xml_chain` returns for a document (`None` when it could not be parsed). */
  function Chain(doc: Option<JobDocument>, oracle: Oracle): Option<string>
  {
    match doc
    case None => None
    case Some(d) =>
      match Resolve(d, oracle)
      case None => None
      case Some(st) => if |st.ctes| == 0 then None else Some(Join(Texts(st.ctes), ",\n") + Terminal(st.prev))
  }

  /** The connection loop: builds `internal_graph` from the document's connections. */
  method BuildInternalGraph(conns: seq<Connection>) returns (g: DiGraph)
    ensures fresh(g) && g.Valid() && g.View() == IntraJobGraph(conns)
  {
    g := new DiGraph();
    var i := 0;
    while i < |conns|
      invariant 0 <= i <= |conns|
      invariant g.Valid() && g.View() == IntraJobGraph(conns[..i])
    {
      assert conns[..i + 1][..i] == conns[..i];
      var conn := conns[i];
      var src, tgt := conn.source, conn.target;
      if src.Some? && tgt.Some? && src.value != "" && tgt.value != "" {
        g.AddEdge(src.value, tgt.value);
      }
      i := i + 1;
    }
    assert conns[..i] == conns;
  }

  /** The body of the component loop for `comp_id`; `ok` is false where the Python code raises. */
  method VisitComponent(nodes: seq<ComponentNode>, oracle: Oracle, compId: string, cteList: seq<Cte>, prevCte: string)
    returns (ok: bool, cteList': seq<Cte>, prevCte': string)
    ensures Visit(nodes, oracle, ChainState(cteList, prevCte), compId)
      == if ok then Some(ChainState(cteList', prevCte')) else None
  {
    ok, cteList', prevCte' := true, cteList, prevCte;
    var node := FindNode(nodes, compId);
    if node.None? {
      return;
    }
    var compType := node.value.componentName;
    if compType.None? {
      return false, cteList, prevCte;
    }
    if Contains(compType.value, "Input") {
      var rawVal := FindTableParam(node.value.params);
      var sourceRef := SourceRef(compId, rawVal);
      return true, cteList + [Cte(compId, compId + " AS ( SELECT * FROM " + sourceRef + " )")], compId;
    }
    if Contains(compType.value, "Output") {
      return;
    }
    var result := ConvertComponent(oracle, compType.value, node.value.serialized, prevCte);
    if result.NotAnObject? {
      return false, cteList, prevCte;
    }
    if result.status == Some("SUCCESS") {
      if !result.sqlLogic.Text? {
        return false, cteList, prevCte;
      }
      var cleanSql := CleanSql(result.sqlLogic.sql);
      cteList' := cteList + [Cte(compId, compId + " AS (\n " + cleanSql + " \n)")];
      prevCte' := compId;
    }
  }

  /** The component loop, from an empty `cte_list` and `prev_cte = "dual"`; `None` where the Python code raises. */
  method VisitComponents(nodes: seq<ComponentNode>, oracle: Oracle, comps: seq<string>) returns (r: Option<ChainState>)
    ensures r == Walk(nodes, oracle, Start, comps)
  {
    var cteList: seq<Cte> := [];
    var prevCte := Dual;
    var k := 0;
    while k < |comps|
      invariant 0 <= k <= |comps|
      invariant Walk(nodes, oracle, Start, comps) == Walk(nodes, oracle, ChainState(cteList, prevCte), comps[k..])
    {
      assert comps[k..][0] == comps[k] && comps[k..][1..] == comps[k + 1..];
      var ok;
      ok, cteList, prevCte := VisitComponent(nodes, oracle, comps[k], cteList, prevCte);
      if !ok {
        return None;
      }
      k := k + 1;
    }
    return Some(ChainState(cteList, prevCte));
  }

  /** `MigrationEngine._process_xml_chain` */
  method ProcessXmlChain(filepath: string, load: Loader, oracle: Oracle) returns (sql: Option<string>)
    ensures sql == Chain(load(filepath), oracle)
  {
    var tree := load(filepath);
    if tree.None? {
      return None;
    }
    var d := tree.value;
    var internalGraph := BuildInternalGraph(d.connections);
    var sorted := TopologicalSort(internalGraph.View());
    var comps := if sorted.Some? then sorted.value else UniqueNames(d.nodes);
    var st := VisitComponents(d.nodes, oracle, comps);
    if st.None? || |st.value.ctes| == 0 {
      return None;
    }
    return Some(Join(Texts(st.value.ctes), ",\n") + Terminal(st.value.prev));
  }

  // ---------------------------------------------------------------------
  // Properties of the chain

  /** `prev_cte` names the last block, or is "dual" while there is none. */
  predicate PrevIsLast(st: ChainState)
  {
    st.prev == if |st.ctes| == 0 then Dual else st.ctes[|st.ctes| - 1].name
  }

  /**
   * The walk only appends to `cte_list`; the blocks it appends are named
   * after components in visit order (a subsequence of `ids`); and
   * `prev_cte` keeps naming the last block.
   */
  lemma {:induction false} WalkSpec(nodes: seq<ComponentNode>, oracle: Oracle, st: ChainState, ids: seq<string>)
    requires Walk(nodes, oracle, st, ids).Some?
    ensures var fin := Walk(nodes, oracle, st, ids).value;
      |st.ctes| <= |fin.ctes| && fin.ctes[..|st.ctes|] == st.ctes
      && IsSubseq(Names(fin.ctes[|st.ctes|..]), ids)
      && (PrevIsLast(st) ==> PrevIsLast(fin))
    decreases |ids|
  {
    if |ids| > 0 {
      var next := Visit(nodes, oracle, st, ids[0]).value;
      WalkSpec(nodes, oracle, next, ids[1..]);
      var fin := Walk(nodes, oracle, st, ids).value;
      assert fin == Walk(nodes, oracle, next, ids[1..]).value;
      var added := Names(fin.ctes[|st.ctes|..]);
      if next != st {
        assert Grows(st, next, ids[0]);
        assert fin.ctes[..|next.ctes|] == next.ctes;
        assert fin.ctes[..|st.ctes|] == next.ctes[..|st.ctes|];
        assert added[0] == fin.ctes[|st.ctes|].name == next.ctes[|st.ctes|].name;
        assert added[1..] == Names(fin.ctes[|next.ctes|..]);
      }
    }
  }

  /**
   * When a chain is produced, `final_cte` selects from the last block, and
   * the blocks follow the visit order.
   */
  lemma ChainSelectsLastBlock(d: JobDocument, oracle: Oracle)
    requires Chain(Some(d), oracle).Some?
    ensures Resolve(d, oracle).Some?
    ensures var ctes := Resolve(d, oracle).value.ctes;
      |ctes| > 0
      && Chain(Some(d), oracle) == Some(Join(Texts(ctes), ",\n") + Terminal(ctes[|ctes| - 1].name))
      && IsSubseq(Names(ctes), VisitOrder(d))
  {
    WalkSpec(d.nodes, oracle, Start, VisitOrder(d));
    var ctes := Resolve(d, oracle).value.ctes;
    assert ctes[0..] == ctes;
  }

  /**
   * With an acyclic connection graph, a block never precedes a block it
   * depends on, and only components with a usable connection get a block.
   */
  lemma ChainFollowsDataFlow(d: JobDocument, oracle: Oracle)
    requires Resolve(d, oracle).Some?
    requires TopologicalSort(IntraJobGraph(d.connections)).Some?
    ensures var g := IntraJobGraph(d.connections);
      var names := Names(Resolve(d, oracle).value.ctes);
      RespectsEdges(names, g.edges) && forall i :: 0 <= i < |names| ==> IsEndpoint(names[i], g.edges)
  {
    var g := IntraJobGraph(d.connections);
    var o := VisitOrder(d);
    var ctes := Resolve(d, oracle).value.ctes;
    var names := Names(ctes);
    TopologicalSortCorrect(g);
    WalkSpec(d.nodes, oracle, Start, o);
    assert ctes[0..] == ctes;
    SubseqRespects(names, o, g.edges);
    IntraJobGraphVertices(d.connections);
    forall i | 0 <= i < |names| ensures IsEndpoint(names[i], g.edges) {
      SubseqMembers(names, o, names[i]);
      assert names[i] in multiset(o);
    }
  }

  /** Without a usable connection, `internal_graph` is empty. */
  lemma {:induction false} NoUsableConnectionEmptyGraph(conns: seq<Connection>)
    requires forall c :: c in conns ==> !Usable(c)
    ensures IntraJobGraph(conns) == EmptyGraph
    decreases |conns|
  {
    if |conns| > 0 {
      var init := conns[..|conns| - 1];
      assert forall c :: c in init ==> c in conns;
      NoUsableConnectionEmptyGraph(init);
    }
  }

  /** A job without a usable connection yields no chain, whatever its components. */
  lemma NoUsableConnectionNoChain(d: JobDocument, oracle: Oracle)
    requires forall c :: c in d.connections ==> !Usable(c)
    ensures Chain(Some(d), oracle).None?
  {
    NoUsableConnectionEmptyGraph(d.connections);
    assert TopologicalSort(IntraJobGraph(d.connections)) == Some([]);
    assert Resolve(d, oracle) == Some(Start);
  }

  /** A component in the visit order whose node has no `componentName` aborts the whole chain. */
  lemma {:induction false} NamelessComponentAborts(nodes: seq<ComponentNode>, oracle: Oracle, st: ChainState, ids: seq<string>, k: nat)
    requires k < |ids|
    requires LookupNode(nodes, ids[k]).Some? && LookupNode(nodes, ids[k]).value.componentName.None?
    ensures Walk(nodes, oracle, st, ids).None?
    decreases k
  {
    if k > 0 && Visit(nodes, oracle, st, ids[0]).Some? {
      assert ids[1..][k - 1] == ids[k];
      NamelessComponentAborts(nodes, oracle, Visit(nodes, oracle, st, ids[0]).value, ids[1..], k - 1);
    }
  }

  /** The same, for a whole document. */
  lemma NamelessComponentAbortsChain(d: JobDocument, oracle: Oracle, k: nat)
    requires k < |VisitOrder(d)|
    requires LookupNode(d.nodes, VisitOrder(d)[k]).Some? && LookupNode(d.nodes, VisitOrder(d)[k]).value.componentName.None?
    ensures Chain(Some(d), oracle).None?
  {
    NamelessComponentAborts(d.nodes, oracle, Start, VisitOrder(d), k);
  }
}
