/**
 * `SouravAgent.convert_component`: one call of the inference oracle for one
 * component. The oracle itself (the prompt template sent to a local model,
 * the model, and `json.loads` of its answer) is a parameter: it either
 * answers with a decoded JSON value or raises.
 */
module Agent {
  import opened Wrappers
  import KnowledgeBase

  /** The values bound into the prompt template. */
  datatype Prompt = Prompt(compType: string, prevCte: string, ragContext: string, xmlInput: string)

  /** The `sql_logic` member of a reply: missing, a string, or some other JSON value. */
  datatype SqlField = Absent | Text(sql: string) | NotText

  /**
   * A decoded reply. `status` is `None` when the member is missing or is not
   * a string (either way it differs from "SUCCESS"); `NotAnObject` is a
   * decoded value that is not a JSON object, on which `.get` fails.
   */
  datatype Reply = Reply(status: Option<string>, sqlLogic: SqlField) | NotAnObject

  /** What the oracle does with a prompt: answer, or raise (transport or JSON decoding error). */
  datatype Outcome = Answered(reply: Reply) | Raised(message: string)

  type Oracle = Prompt -> Outcome

  /** The prompt for one component: its kind, the previous CTE, the knowledge context and the node's XML. */
  function PromptFor(compType: string, xml: string, prevCte: string): (p: Prompt)
    ensures p.ragContext == KnowledgeBase.Context(compType, xml)
    ensures p.compType == compType && p.prevCte == prevCte && p.xmlInput == xml
  {
    Prompt(compType, prevCte, KnowledgeBase.Context(compType, xml), xml)
  }

  /**
   * `convert_component`: the oracle's decoded answer, or an `ERROR` reply
   * when it raises. A `SUCCESS` status only ever comes from the oracle.
   */
  function ConvertComponent(oracle: Oracle, compType: string, xml: string, prevCte: string): (r: Reply)
    ensures oracle(PromptFor(compType, xml, prevCte)).Raised? ==> r == Reply(Some("ERROR"), Absent)
    ensures r.Reply? && r.status == Some("SUCCESS") ==> oracle(PromptFor(compType, xml, prevCte)) == Answered(r)
    ensures oracle(PromptFor(compType, xml, prevCte)).Answered? ==> r == oracle(PromptFor(compType, xml, prevCte)).reply
  {
    match oracle(PromptFor(compType, xml, prevCte))
    case Answered(reply) => reply
    case Raised(_) => Reply(Some("ERROR"), Absent)
  }
}
