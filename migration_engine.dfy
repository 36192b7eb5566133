/**
 * `MigrationEngine`: builds the project graph, writes the Temporal workflow,
 * and turns every job of the graph into a dbt model (a standard job) or a
 * dbt macro (a joblet), each from the CTE chain of its job file.
 *
 * The dbt project directory is the root of every output path: a model is
 * written to `models/<name>.sql`, a macro to `macros/<name>.sql`.
 */
module MigrationEngine {
  import opened Wrappers
  import opened Strings
  import opened Document
  import opened Graphs
  import opened Agent
  import opened ChainResolver
  import opened GraphBuilder
  import opened TemporalGenerator

  // ---------------------------------------------------------------------
  // The two output formats

  const NewLine := "\n"
  const ModelHead := "-- Migrated Job: "
  const ModelWith := "WITH \n"
  const ModelTail := "\n\nSELECT * FROM final_cte"
  const MacroHead := "{% macro "
  const MacroNameEnd := "(" + ") %}\n"
  const MacroTail := "\n{% endmacro %}"

  /** The text of `models/<name>.sql`: a comment naming the job, then the chain and the final select. */
  function ModelFile(name: string, chain: string): string
  {
    ModelHead + name + NewLine + ModelWith + chain + ModelTail
  }

  /** The text of `macros/<name>.sql`: the chain wrapped in a macro named after the joblet. */
  function MacroFile(name: string, chain: string): string
  {
    MacroHead + name + MacroNameEnd + chain + MacroTail
  }

  /** The text between `open` and `close`, when `s` is framed by them. */
  function Unwrap(s: string, open: string, close: string): (r: Option<string>)
    ensures r.Some? ==> s == open + r.value + close
  {
    if |open| + |close| <= |s| && StartsWith(s, open) && EndsWith(s, close) then
      var mid := s[|open|..|s| - |close|];
      assert s == s[..|open|] + mid + s[|s| - |close|..];
      Some(mid)
    else None
  }

  lemma UnwrapWrap(open: string, mid: string, close: string)
    ensures Unwrap(open + mid + close, open, close) == Some(mid)
  {
    var s := open + mid + close;
    assert s[..|open|] == open;
    assert s[|s| - |close|..] == close;
    assert s[|open|..|s| - |close|] == mid;
  }

  /** Reads the job name and the chain back from a model file. */
  function ModelParts(content: string): Option<(string, string)>
  {
    match Unwrap(content, ModelHead, ModelTail)
    case None => None
    case Some(mid) =>
      var name := TakeUntil(mid, '\n');
      var rest := mid[|name|..];
      if StartsWith(rest, NewLine + ModelWith) then Some((name, rest[|NewLine + ModelWith|..])) else None
  }

  /** Reads the macro name and the chain back from a macro file. */
  function MacroParts(content: string): Option<(string, string)>
  {
    match Unwrap(content, MacroHead, MacroTail)
    case None => None
    case Some(mid) =>
      var name := TakeUntil(mid, '(');
      var rest := mid[|name|..];
      if StartsWith(rest, MacroNameEnd) then Some((name, rest[|MacroNameEnd|..])) else None
  }

  /**
   * A name followed by `sep` and framed by `head` and `tail` reads back as
   * the name and the text after `sep`, when the name holds no `sep[0]`.
   */
  lemma {:induction false} FramedNameRoundTrip(head: string, name: string, sep: string, body: string, tail: string)
    requires |sep| > 0 && sep[0] !in name
    ensures var mid := TakeUntil(Unwrap(head + name + sep + body + tail, head, tail).value, sep[0]);
      && Unwrap(head + name + sep + body + tail, head, tail) == Some(name + (sep + body))
      && mid == name
      && (name + (sep + body))[|mid|..] == sep + body
  {
    var after := sep + body;
    assert head + name + sep + body + tail == head + (name + after) + tail;
    UnwrapWrap(head, name + after, tail);
    TakeUntilPrefix(name, after, sep[0]);
    assert (name + after)[|name|..] == after;
  }

  /** A model file names its job and holds the chain unchanged, for a job name on one line. */
  lemma ModelFileRoundTrip(name: string, chain: string)
    requires '\n' !in name
    ensures ModelParts(ModelFile(name, chain)) == Some((name, chain))
  {
    var sep := NewLine + ModelWith;
    assert sep[0] == '\n';
    assert ModelFile(name, chain) == ModelHead + name + sep + chain + ModelTail;
    FramedNameRoundTrip(ModelHead, name, sep, chain, ModelTail);
    assert (sep + chain)[|sep|..] == chain;
  }

  /** A macro file is named after the joblet and holds the chain unchanged, for a name without `(`. */
  lemma MacroFileRoundTrip(name: string, chain: string)
    requires '(' !in name
    ensures MacroParts(MacroFile(name, chain)) == Some((name, chain))
  {
    assert MacroNameEnd[0] == '(';
    FramedNameRoundTrip(MacroHead, name, MacroNameEnd, chain, MacroTail);
    assert (MacroNameEnd + chain)[|MacroNameEnd|..] == chain;
  }

  // ---------------------------------------------------------------------
  // Converting one job

  /** A file written into the dbt project. */
  datatype Output = Output(path: string, content: string)

  /** What a conversion task reports, and the file it writes, if any. */
  datatype TaskResult = TaskResult(message: string, written: Option<Output>)

  /** Python truthiness of the value `_process_xml_chain` returns. */
  predicate Truthy(sql: Option<string>)
  {
    sql.Some? && sql.value != ""
  }

  function ModelPath(name: string): string
  {
    "models/" + name + ".sql"
  }

  function MacroPath(name: string): string
  {
    "macros/" + name + ".sql"
  }

  /**
   * `_convert_job_chain` once the chain is known: a model file whose name,
   * header and body give back the job and the chain, or a skip.
   */
  function JobResult(name: string, sql: Option<string>): (r: TaskResult)
    ensures r.written.Some? <==> Truthy(sql)
    ensures r.message == (if Truthy(sql) then "Converted Job: " else "Skipped Job: ") + name
    ensures r.written.Some? ==> r.written.value.path == ModelPath(name)
    ensures r.written.Some? && '\n' !in name ==> ModelParts(r.written.value.content) == Some((name, sql.value))
  {
    if Truthy(sql) then
      var content := ModelFile(name, sql.value);
      assert '\n' !in name ==> ModelParts(content) == Some((name, sql.value)) by {
        if '\n' !in name {
          ModelFileRoundTrip(name, sql.value);
        }
      }
      TaskResult("Converted Job: " + name, Some(Output(ModelPath(name), content)))
    else TaskResult("Skipped Job: " + name, None)
  }

  /** `_convert_joblet` once the chain is known: a macro file that gives back the joblet and the chain, or a skip. */
  function JobletResult(name: string, sql: Option<string>): (r: TaskResult)
    ensures r.written.Some? <==> Truthy(sql)
    ensures r.message == (if Truthy(sql) then "Converted Joblet: " else "Skipped Joblet: ") + name
    ensures r.written.Some? ==> r.written.value.path == MacroPath(name)
    ensures r.written.Some? && '(' !in name ==> MacroParts(r.written.value.content) == Some((name, sql.value))
  {
    if Truthy(sql) then
      var content := MacroFile(name, sql.value);
      assert '(' !in name ==> MacroParts(content) == Some((name, sql.value)) by {
        if '(' !in name {
          MacroFileRoundTrip(name, sql.value);
        }
      }
      TaskResult("Converted Joblet: " + name, Some(Output(MacroPath(name), content)))
    else TaskResult("Skipped Joblet: " + name, None)
  }

  /** A chain, when there is one, is never the empty text, so a file is written exactly when there is a chain. */
  lemma ChainTruthy(doc: Option<JobDocument>, oracle: Oracle)
    ensures Truthy(Chain(doc, oracle)) <==> Chain(doc, oracle).Some?
  {
    if Chain(doc, oracle).Some? {
      var st := Resolve(doc.value, oracle).value;
      var t := Terminal(st.prev);
      assert t[0] == ',';
      assert Chain(doc, oracle).value == Join(Texts(st.ctes), ",\n") + t;
    }
  }

  /** `_convert_job_chain` */
  method ConvertJobChain(name: string, filepath: string, load: Loader, oracle: Oracle) returns (r: TaskResult)
    ensures r == JobResult(name, Chain(load(filepath), oracle))
    ensures r.written.Some? <==> Chain(load(filepath), oracle).Some?
  {
    var sql := ProcessXmlChain(filepath, load, oracle);
    ChainTruthy(load(filepath), oracle);
    if sql.Some? && sql.value != "" {
      return TaskResult("Converted Job: " + name, Some(Output(ModelPath(name), ModelFile(name, sql.value))));
    }
    return TaskResult("Skipped Job: " + name, None);
  }

  /** `_convert_joblet` */
  method ConvertJoblet(name: string, filepath: string, load: Loader, oracle: Oracle) returns (r: TaskResult)
    ensures r == JobletResult(name, Chain(load(filepath), oracle))
    ensures r.written.Some? <==> Chain(load(filepath), oracle).Some?
  {
    var sql := ProcessXmlChain(filepath, load, oracle);
    ChainTruthy(load(filepath), oracle);
    if sql.Some? && sql.value != "" {
      return TaskResult("Converted Joblet: " + name, Some(Output(MacroPath(name), MacroFile(name, sql.value))));
    }
    return TaskResult("Skipped Joblet: " + name, None);
  }

  // ---------------------------------------------------------------------
  // Dispatching the graph's vertices

  /** A conversion submitted to the thread pool. */
  datatype Task = ModelTask(name: string, filepath: string) | MacroTask(name: string, filepath: string)

  /** `node_data.get('type') == 'orchestration'`: the vertex is passed over. */
  predicate IsOrchestration(a: Attrs)
  {
    "type" in a && a["type"] == Orchestration
  }

  /** A vertex that is converted: not an orchestration job, and with a file to read. */
  predicate Convertible(a: Attrs)
  {
    !IsOrchestration(a) && "filepath" in a
  }

  /** The task of a vertex: a macro for a joblet, a model for anything else (a missing `type` included). */
  function TaskFor(v: string, a: Attrs): (t: Task)
    requires "filepath" in a
    ensures t.name == v && t.filepath == a["filepath"]
    ensures t.MacroTask? <==> "type" in a && a["type"] == Joblet
  {
    if "type" in a && a["type"] == Joblet then MacroTask(v, a["filepath"]) else ModelTask(v, a["filepath"])
  }

  /** The tasks submitted before the loop ends, and whether it ended by raising `KeyError`. */
  datatype Dispatched = Dispatched(tasks: seq<Task>, raised: bool)

  /**
   * The dispatch loop as written: `node_data['filepath']` is read for every
   * vertex that is not an orchestration job, and a vertex without one
   * raises `KeyError` out of the loop.
   */
  function DispatchAsWritten(vs: seq<string>, attrs: map<string, Attrs>): (r: Dispatched)
    requires forall v :: v in vs ==> v in attrs
    ensures |r.tasks| <= |vs|
    ensures forall t :: t in r.tasks ==> t.name in vs && Convertible(attrs[t.name]) && t.filepath == attrs[t.name]["filepath"]
    decreases |vs|
  {
    if |vs| == 0 then Dispatched([], false)
    else
      var a := attrs[vs[0]];
      if IsOrchestration(a) then DispatchAsWritten(vs[1..], attrs)
      else if "filepath" !in a then Dispatched([], true)
      else
        var rest := DispatchAsWritten(vs[1..], attrs);
        Dispatched([TaskFor(vs[0], a)] + rest.tasks, rest.raised)
  }

  /** The dispatch loop as intended: a vertex without a file to convert is passed over. */
  function Dispatch(vs: seq<string>, attrs: map<string, Attrs>): (tasks: seq<Task>)
    requires forall v :: v in vs ==> v in attrs
    ensures |tasks| <= |vs|
    ensures forall t :: t in tasks ==> t.name in vs && Convertible(attrs[t.name]) && t.filepath == attrs[t.name]["filepath"]
    decreases |vs|
  {
    if |vs| == 0 then []
    else
      var a := attrs[vs[0]];
      if Convertible(a) then [TaskFor(vs[0], a)] + Dispatch(vs[1..], attrs) else Dispatch(vs[1..], attrs)
  }

  /** Every task comes from a convertible vertex, and every convertible vertex gets its task. */
  lemma {:induction false} DispatchSpec(vs: seq<string>, attrs: map<string, Attrs>)
    requires forall v :: v in vs ==> v in attrs
    ensures forall t :: t in Dispatch(vs, attrs) <==>
      (exists i :: 0 <= i < |vs| && Convertible(attrs[vs[i]]) && t == TaskFor(vs[i], attrs[vs[i]]))
    decreases |vs|
  {
    if |vs| > 0 {
      DispatchSpec(vs[1..], attrs);
      forall t ensures t in Dispatch(vs, attrs) <==>
        (exists i :: 0 <= i < |vs| && Convertible(attrs[vs[i]]) && t == TaskFor(vs[i], attrs[vs[i]]))
      {
        if exists i :: 0 <= i < |vs| && Convertible(attrs[vs[i]]) && t == TaskFor(vs[i], attrs[vs[i]]) {
          var i :| 0 <= i < |vs| && Convertible(attrs[vs[i]]) && t == TaskFor(vs[i], attrs[vs[i]]);
          if i > 0 {
            assert vs[1..][i - 1] == vs[i];
          }
        }
        if t in Dispatch(vs[1..], attrs) {
          var i :| 0 <= i < |vs[1..]| && Convertible(attrs[vs[1..][i]]) && t == TaskFor(vs[1..][i], attrs[vs[1..][i]]);
          assert vs[1..][i] == vs[i + 1];
        }
      }
    }
  }

  /** Dispatching two runs of vertices one after the other. */
  lemma {:induction false} DispatchAppend(xs: seq<string>, ys: seq<string>, attrs: map<string, Attrs>)
    requires forall v :: v in xs + ys ==> v in attrs
    ensures Dispatch(xs + ys, attrs) == Dispatch(xs, attrs) + Dispatch(ys, attrs)
    decreases |xs|
  {
    if |xs| > 0 {
      assert (xs + ys)[0] == xs[0];
      assert (xs + ys)[1..] == xs[1..] + ys;
      DispatchAppend(xs[1..], ys, attrs);
    } else {
      assert xs + ys == ys;
    }
  }

  /** The loop as written raises exactly when some vertex to convert has no file. */
  lemma {:induction false} AsWrittenRaises(vs: seq<string>, attrs: map<string, Attrs>)
    requires forall v :: v in vs ==> v in attrs
    ensures DispatchAsWritten(vs, attrs).raised <==>
      exists i :: 0 <= i < |vs| && !IsOrchestration(attrs[vs[i]]) && "filepath" !in attrs[vs[i]]
    decreases |vs|
  {
    if |vs| > 0 {
      AsWrittenRaises(vs[1..], attrs);
      if exists i :: 0 <= i < |vs[1..]| && !IsOrchestration(attrs[vs[1..][i]]) && "filepath" !in attrs[vs[1..][i]] {
        var i :| 0 <= i < |vs[1..]| && !IsOrchestration(attrs[vs[1..][i]]) && "filepath" !in attrs[vs[1..][i]];
        assert vs[1..][i] == vs[i + 1];
      }
      if exists i :: 0 <= i < |vs| && !IsOrchestration(attrs[vs[i]]) && "filepath" !in attrs[vs[i]] {
        var i :| 0 <= i < |vs| && !IsOrchestration(attrs[vs[i]]) && "filepath" !in attrs[vs[i]];
        if i > 0 {
          assert vs[1..][i - 1] == vs[i];
        }
      }
    }
  }

  /**
   * The tasks the loop as written submits are the first ones the intended
   * loop submits, and all of them when it does not raise.
   */
  lemma {:induction false} AsWrittenPrefix(vs: seq<string>, attrs: map<string, Attrs>)
    requires forall v :: v in vs ==> v in attrs
    ensures var r := DispatchAsWritten(vs, attrs);
      |r.tasks| <= |Dispatch(vs, attrs)| && Dispatch(vs, attrs)[..|r.tasks|] == r.tasks
      && (!r.raised ==> r.tasks == Dispatch(vs, attrs))
    decreases |vs|
  {
    if |vs| > 0 {
      AsWrittenPrefix(vs[1..], attrs);
      var a := attrs[vs[0]];
      if Convertible(a) {
        var rest := DispatchAsWritten(vs[1..], attrs);
        var d := Dispatch(vs[1..], attrs);
        assert ([TaskFor(vs[0], a)] + d)[..1 + |rest.tasks|] == [TaskFor(vs[0], a)] + d[..|rest.tasks|];
      }
    }
  }

  /** `_generate_dbt_assets_parallel` on a graph in which every job to convert has a file: as written and intended agree. */
  lemma AsWrittenAgrees(vs: seq<string>, attrs: map<string, Attrs>)
    requires forall v :: v in vs ==> v in attrs
    requires forall v :: v in vs && !IsOrchestration(attrs[v]) ==> "filepath" in attrs[v]
    ensures DispatchAsWritten(vs, attrs) == Dispatched(Dispatch(vs, attrs), false)
  {
    AsWrittenRaises(vs, attrs);
    AsWrittenPrefix(vs, attrs);
  }

  /**
   * A job `A` that runs a job `B` through `tRunJob`, where no file defines
   * `B`: the graph holds `B` with no attributes, and the loop as written
   * submits `A` and then raises, so no vertex after `B` is converted.
   */
  lemma DispatchCounterexample()
    ensures var attrs := map["A" := map["filepath" := "A.item", "type" := Standard], "B" := map[]];
      && DispatchAsWritten(["A", "B"], attrs) == Dispatched([ModelTask("A", "A.item")], true)
      && Dispatch(["A", "B"], attrs) == [ModelTask("A", "A.item")]
  {
    var attrs := map["A" := map["filepath" := "A.item", "type" := Standard], "B" := map[]];
    var vs := ["A", "B"];
    assert vs[1..] == ["B"];
    assert ["B"][1..] == [];
    assert !IsOrchestration(attrs["A"]) by {
      assert Standard[0] != Orchestration[0];
    }
    assert TaskFor("A", attrs["A"]) == ModelTask("A", "A.item") by {
      assert Standard[0] != Joblet[0];
    }
  }

  /** Some parsed job runs `v` through `tRunJob`, and no parsed file defines `v`. */
  predicate RunButUndefined(es: seq<Option<Entry>>, v: string)
  {
    (exists i :: 0 <= i < |es| && Runs(es[i], v))
    && (forall i :: 0 <= i < |es| && es[i].Some? ==> es[i].value.job != v)
  }

  /**
   * On a graph built from the project's files, the loop as written raises
   * only when some parsed job runs, through `tRunJob`, a job that no
   * parsed file defines.
   */
  lemma BuiltGraphRaisesOnUndefinedRunJob(files: seq<string>, load: Loader)
    ensures var g := BuildSpec(EmptyGraph, files, load);
      var es := Entries(files, load);
      (forall v :: v in g.vertices ==> v in g.attrs)
      && (DispatchAsWritten(g.vertices, g.attrs).raised ==>
        exists v :: RunButUndefined(es, v))
  {
    var g := BuildSpec(EmptyGraph, files, load);
    var es := Entries(files, load);
    BuildWellFormed(EmptyGraph, es);
    EntriesOfFilesTyped(files, load);
    if DispatchAsWritten(g.vertices, g.attrs).raised {
      AsWrittenRaises(g.vertices, g.attrs);
      var k :| 0 <= k < |g.vertices| && !IsOrchestration(g.attrs[g.vertices[k]]) && "filepath" !in g.attrs[g.vertices[k]];
      var v := g.vertices[k];
      assert Dangling(g, v);
      BuildDanglingRun(es);
      BuildDanglingUndefined(es);
      assert RunButUndefined(es, v);
    }
  }

  // ---------------------------------------------------------------------
  // Running the conversions

  /** The result of one task. */
  function Perform(t: Task, load: Loader, oracle: Oracle): TaskResult
  {
    match t
    case ModelTask(name, fp) => JobResult(name, Chain(load(fp), oracle))
    case MacroTask(name, fp) => JobletResult(name, Chain(load(fp), oracle))
  }

  /** The results of the tasks, in the order they were submitted. */
  function Performed(ts: seq<Task>, load: Loader, oracle: Oracle): (rs: seq<TaskResult>)
    ensures |rs| == |ts| && forall i :: 0 <= i < |ts| ==> rs[i] == Perform(ts[i], load, oracle)
  {
    seq(|ts|, i requires 0 <= i < |ts| => Perform(ts[i], load, oracle))
  }

  /** The dispatch of one vertex and the task it submits, if any. */
  method ConvertVertex(job: string, nodeData: Attrs, load: Loader, oracle: Oracle) returns (r: Option<TaskResult>)
    ensures r.Some? <==> Convertible(nodeData)
    ensures r.Some? ==> r.value == Perform(TaskFor(job, nodeData), load, oracle)
  {
    if IsOrchestration(nodeData) || "filepath" !in nodeData {
      return None;
    }
    var result;
    if "type" in nodeData && nodeData["type"] == Joblet {
      result := ConvertJoblet(job, nodeData["filepath"], load, oracle);
    } else {
      result := ConvertJobChain(job, nodeData["filepath"], load, oracle);
    }
    return Some(result);
  }

  /** Dispatching one more vertex adds at most its own result. */
  lemma PerformedSnoc(vs: seq<string>, v: string, attrs: map<string, Attrs>, load: Loader, oracle: Oracle)
    requires forall u :: u in vs + [v] ==> u in attrs
    ensures Performed(Dispatch(vs + [v], attrs), load, oracle) ==
      Performed(Dispatch(vs, attrs), load, oracle) +
      (if Convertible(attrs[v]) then [Perform(TaskFor(v, attrs[v]), load, oracle)] else [])
  {
    DispatchAppend(vs, [v], attrs);
    assert [v][1..] == [];
  }

  /** The dispatch loop of `_generate_dbt_assets_parallel`, over the vertices `nodes` and their attributes. */
  method ConvertAll(nodes: seq<string>, attrs: map<string, Attrs>, load: Loader, oracle: Oracle) returns (results: seq<TaskResult>)
    requires forall v :: v in nodes ==> v in attrs
    ensures results == Performed(Dispatch(nodes, attrs), load, oracle)
  {
    results := [];
    var i := 0;
    while i < |nodes|
      invariant 0 <= i <= |nodes|
      invariant results == Performed(Dispatch(nodes[..i], attrs), load, oracle)
    {
      var job := nodes[i];
      assert nodes[..i + 1] == nodes[..i] + [job];
      PerformedSnoc(nodes[..i], job, attrs, load, oracle);
      var r := ConvertVertex(job, attrs[job], load, oracle);
      if r.Some? {
        results := results + [r.value];
      }
      i := i + 1;
    }
    assert nodes[..i] == nodes;
  }

  /** `_generate_dbt_assets_parallel` with the intended dispatch: the results of every convertible vertex, in vertex order. */
  method GenerateDbtAssets(graph: DiGraph, load: Loader, oracle: Oracle) returns (results: seq<TaskResult>)
    requires graph.Valid()
    ensures forall v :: v in graph.vertices ==> v in graph.attrs
    ensures results == Performed(Dispatch(graph.vertices, graph.attrs), load, oracle)
  {
    results := ConvertAll(graph.vertices, graph.attrs, load, oracle);
  }

  /** Where the workflow is written, relative to the project's base directory. */
  const TemporalOutputDir := "output/temporal_workflows"

  /** The engine: the project graph builder it owns. */
  class Engine {
    const graphBuilder: ProjectGraph

    constructor ()
      ensures fresh(graphBuilder) && fresh(graphBuilder.graph)
      ensures graphBuilder.graph.Valid() && graphBuilder.graph.View() == EmptyGraph
    {
      graphBuilder := new ProjectGraph();
    }

    /**
     * `run`: builds the graph from the job files, writes the workflow
     * running every vertex, then converts every convertible vertex.
     */
    method Run(files: seq<string>, load: Loader, oracle: Oracle) returns (workflow: string, results: seq<TaskResult>)
      requires graphBuilder.graph.Valid()
      modifies graphBuilder.graph
      ensures graphBuilder.graph.Valid()
      ensures graphBuilder.graph.View() == BuildSpec(old(graphBuilder.graph.View()), files, load)
      ensures workflow == WorkflowSource(graphBuilder.graph.vertices)
      ensures results == Performed(Dispatch(graphBuilder.graph.vertices, graphBuilder.graph.attrs), load, oracle)
    {
      var graph := graphBuilder.Build(files, load);
      var generator := new TemporalGenerator(graph, TemporalOutputDir);
      workflow := generator.Generate();
      results := GenerateDbtAssets(graph, load, oracle);
    }
  }
}
