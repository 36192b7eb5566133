/**
 * `TemporalGenerator`: writes a Temporal workflow that runs one `dbt_run`
 * activity per vertex of the project graph, in the graph's vertex order.
 */
module TemporalGenerator {
  import opened Wrappers
  import opened Strings
  import opened Graphs

  /** The fixed module text: imports, the two activities and the workflow's opening lines. */
  const Header: string := "\nimport asyncio\nfrom datetime import timedelta\nfrom temporalio import workflow, activity\n\n@activity.defn\nasync def dbt_run(model: str) -> str:\n    print(f\"[ACTIVITY] Running dbt: {model}\")\n    return \"OK\"\n\n@activity.defn\nasync def file_scan(path: str) -> list[str]:\n    print(f\"[ACTIVITY] Scanning path: {path}\")\n    return [\"file1\", \"file2\"]\n\n@workflow.defn\nclass MasterWorkflow:\n    @workflow.run\n    async def run(self) -> str:\n        print(\"[WORKFLOW] Start Migration\")\n"
  const ActivityOpen: string := "\n        await workflow.execute_activity(dbt_run, \""
  const ActivityClose: string := "\"" + ", start_to_close_timeout=timedelta(minutes=5))\n"
  const Footer: string := "\n        return \"Done\"\n"

  /** One call statement per name: `open + name + close`. */
  function Calls(vs: seq<string>, open: string, close: string): string
  {
    if |vs| == 0 then "" else open + vs[0] + close + Calls(vs[1..], open, close)
  }

  /** The activity statements, one per model. */
  function Activities(vs: seq<string>): string
  {
    Calls(vs, ActivityOpen, ActivityClose)
  }

  /** The text of `workflow.py` for the given vertices. */
  function WorkflowSource(vs: seq<string>): string
  {
    Header + Activities(vs) + Footer
  }

  lemma {:induction false} CallsSnoc(vs: seq<string>, v: string, open: string, close: string)
    ensures Calls(vs + [v], open, close) == Calls(vs, open, close) + (open + v + close)
  {
    if |vs| > 0 {
      assert (vs + [v])[1..] == vs[1..] + [v];
      CallsSnoc(vs[1..], v, open, close);
    }
  }

  /** Reads back the names of a run of call statements followed by `footer`. */
  function ParseCalls(s: string, open: string, close: string, footer: string): Option<seq<string>>
    decreases |s|
  {
    if s == footer then Some([])
    else if |open| > 0 && StartsWith(s, open) then
      var rest := s[|open|..];
      var name := TakeUntil(rest, '"');
      var after := rest[|name|..];
      if StartsWith(after, close) then
        match ParseCalls(after[|close|..], open, close, footer)
        case None => None
        case Some(names) => Some([name] + names)
      else None
    else None
  }

  /** The models a workflow file runs, in order. */
  function ScheduledModels(content: string): Option<seq<string>>
  {
    if StartsWith(content, Header) then ParseCalls(content[|Header|..], ActivityOpen, ActivityClose, Footer) else None
  }

  lemma {:induction false} ParseCallsRoundTrip(vs: seq<string>, open: string, close: string, footer: string)
    requires |open| > |footer| && |close| > 0 && close[0] == '"'
    requires forall v :: v in vs ==> '"' !in v
    ensures ParseCalls(Calls(vs, open, close) + footer, open, close, footer) == Some(vs)
  {
    if |vs| > 0 {
      var v := vs[0];
      var tail := Calls(vs[1..], open, close) + footer;
      var s := Calls(vs, open, close) + footer;
      assert s == open + (v + (close + tail));
      assert s[|open|..] == v + (close + tail);
      TakeUntilPrefix(v, close + tail, '"');
      assert (v + (close + tail))[|v|..] == close + tail;
      assert (close + tail)[|close|..] == tail;
      ParseCallsRoundTrip(vs[1..], open, close, footer);
      assert [v] + vs[1..] == vs;
    }
  }

  /**
   * The generated workflow runs exactly the given vertices, in their order,
   * provided no vertex name contains a double quote.
   */
  lemma WorkflowRoundTrip(vs: seq<string>)
    requires forall v :: v in vs ==> '"' !in v
    ensures ScheduledModels(WorkflowSource(vs)) == Some(vs)
  {
    assert |ActivityOpen| > |Footer| && ActivityClose[0] == '"';
    ParseCallsRoundTrip(vs, ActivityOpen, ActivityClose, Footer);
    assert WorkflowSource(vs)[|Header|..] == Activities(vs) + Footer;
  }

  /** The loop of `generate`: one call statement appended per name, in order. */
  method AppendCalls(start: string, nodes: seq<string>, open: string, close: string) returns (content: string)
    ensures content == start + Calls(nodes, open, close)
  {
    content := start;
    var i := 0;
    while i < |nodes|
      invariant 0 <= i <= |nodes|
      invariant content == start + Calls(nodes[..i], open, close)
    {
      CallsSnoc(nodes[..i], nodes[i], open, close);
      assert nodes[..i + 1] == nodes[..i] + [nodes[i]];
      content := content + (open + nodes[i] + close);
      i := i + 1;
    }
    assert nodes[..i] == nodes;
  }

  /** The generator object: the graph it reads and the directory it writes to. */
  class TemporalGenerator {
    const graph: DiGraph
    const outDir: string

    constructor (graph: DiGraph, outDir: string)
      ensures this.graph == graph && this.outDir == outDir
    {
      this.graph := graph;
      this.outDir := outDir;
    }

    /** `generate`, returning the text it writes to `workflow.py`. */
    method Generate() returns (content: string)
      ensures content == WorkflowSource(graph.vertices)
    {
      content := AppendCalls(Header, graph.vertices, ActivityOpen, ActivityClose);
      content := content + Footer;
    }
  }
}
