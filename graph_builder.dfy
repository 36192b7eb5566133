/**
 * `ProjectGraph`: the project-level dependency graph. Each parsed job file
 * becomes a vertex named after the file, carrying its path and its type;
 * each `tRunJob` component adds an edge to the job it runs.
 */
module GraphBuilder {
  import opened Wrappers
  import opened Strings
  import opened Document
  import opened Graphs

  const Orchestration := "orchestration"
  const Joblet := "joblet"
  const Standard := "standard"

  /**
   * `os.path.basename(filepath).replace("_0.1.item", "")`: a name without
   * directories, and a file name without the version suffix is kept whole.
   */
  function JobName(filepath: string): (r: string)
    ensures '/' !in r
    ensures !Contains(Basename(filepath), "_0.1.item") ==> r == Basename(filepath)
  {
    var b := Basename(filepath);
    ReplaceChars(b, "_0.1.item", "", '/');
    assert '/' !in "_0.1.item";
    assert !Contains(b, "_0.1.item") ==> Replace(b, "_0.1.item", "") == b by {
      if !Contains(b, "_0.1.item") { ReplaceAbsent(b, "_0.1.item", ""); }
    }
    Replace(b, "_0.1.item", "")
  }

  /**
   * The job of a file `<dir>/<name>_0.1.item` is `<name>`, for any name
   * that holds no `/` and does not itself contain the version suffix.
   */
  lemma JobNameOfItem(dir: string, name: string)
    requires |dir| > 0 && dir[|dir| - 1] == '/' && '/' !in name && !Contains(name, "_0.1.item")
    ensures JobName(dir + name + "_0.1.item") == name
  {
    var suffix := "_0.1.item";
    assert suffix[1..] == "0.1.item";
    BasenameWithoutSuffix(dir, name, suffix);
  }

  /** Some component's `componentName` mentions `Loop` or `FileList`. */
  predicate HasLoopComponent(doc: JobDocument)
  {
    exists n :: n in doc.nodes && n.componentName.Some?
      && (Contains(n.componentName.value, "Loop") || Contains(n.componentName.value, "FileList"))
  }

  /** The `type` attribute: a loop makes an orchestration job, else a `joblets` path makes a joblet. */
  function JobType(filepath: string, doc: JobDocument): (t: string)
    ensures t == Orchestration <==> HasLoopComponent(doc)
    ensures t == Joblet <==> !HasLoopComponent(doc) && Contains(LowerAscii(filepath), "joblets")
    ensures t == Orchestration || t == Joblet || t == Standard
  {
    if HasLoopComponent(doc) then Orchestration
    else if Contains(LowerAscii(filepath), "joblets") then Joblet
    else Standard
  }

  function JobAttrs(filepath: string, doc: JobDocument): Attrs
  {
    map["filepath" := filepath, "type" := JobType(filepath, doc)]
  }

  /** `node.find("elementParameter[@name='PROCESS:PROCESS_TYPE_PROCESS']")`: the first such parameter. */
  function ProcessParam(params: seq<Param>): (r: Option<Param>)
    ensures r.Some? ==> r.value in params && r.value.name == "PROCESS:PROCESS_TYPE_PROCESS"
    ensures r.None? ==> forall p :: p in params ==> p.name != "PROCESS:PROCESS_TYPE_PROCESS"
  {
    if |params| == 0 then None
    else if params[0].name == "PROCESS:PROCESS_TYPE_PROCESS" then Some(params[0])
    else ProcessParam(params[1..])
  }

  /**
   * The jobs the `tRunJob` components of `nodes` run, in document order, up
   * to the first one whose process parameter has no value (adding an edge
   * to `None` raises, which ends the file's analysis).
   */
  function RunJobTargets(nodes: seq<ComponentNode>): seq<string>
  {
    if |nodes| == 0 then []
    else
      var p := ProcessParam(nodes[0].params);
      if nodes[0].componentName == Some("tRunJob") && p.Some? then
        if p.value.value.None? then [] else [p.value.value.value] + RunJobTargets(nodes[1..])
      else RunJobTargets(nodes[1..])
  }

  /** One edge from `job` to each target. */
  function TargetEdges(job: string, targets: seq<string>): set<Edge>
  {
    set t | t in targets :: (job, t)
  }

  /** The dependency loop of `_analyze_file`, from graph `g`. */
  function AddRunJobEdges(g: Graph, job: string, nodes: seq<ComponentNode>): (r: Graph)
    decreases |nodes|
  {
    if |nodes| == 0 then g
    else
      var p := ProcessParam(nodes[0].params);
      if nodes[0].componentName == Some("tRunJob") && p.Some? then
        if p.value.value.None? then g
        else AddRunJobEdges(WithEdge(g, job, p.value.value.value), job, nodes[1..])
      else AddRunJobEdges(g, job, nodes[1..])
  }

  /**
   * The dependency loop adds exactly one edge from `job` per target, creates
   * only target vertices (with no attributes), and leaves every existing
   * vertex's attributes alone.
   */
  lemma {:induction false} AddRunJobEdgesSpec(g: Graph, job: string, nodes: seq<ComponentNode>)
    requires job in g.vertices && job in g.attrs
    ensures var r := AddRunJobEdges(g, job, nodes);
      && (WellFormed(g) ==> WellFormed(r))
      && (forall v :: v in r.vertices <==> v in g.vertices || v in RunJobTargets(nodes))
      && r.edges == g.edges + TargetEdges(job, RunJobTargets(nodes))
      && (forall v :: v in g.attrs ==> v in r.attrs && r.attrs[v] == g.attrs[v])
      && (forall v :: v in r.attrs && v !in g.attrs ==> r.attrs[v] == map[] && v in RunJobTargets(nodes))
    decreases |nodes|
  {
    if |nodes| > 0 {
      var p := ProcessParam(nodes[0].params);
      if nodes[0].componentName == Some("tRunJob") && p.Some? && p.value.value.Some? {
        var t := p.value.value.value;
        var g' := WithEdge(g, job, t);
        WithEdgeKeepsAttrs(g, job, t);
        AddRunJobEdgesSpec(g', job, nodes[1..]);
        var ts := RunJobTargets(nodes);
        assert ts == [t] + RunJobTargets(nodes[1..]);
        assert TargetEdges(job, ts) == {(job, t)} + TargetEdges(job, RunJobTargets(nodes[1..]));
        var r := AddRunJobEdges(g, job, nodes);
        assert r == AddRunJobEdges(g', job, nodes[1..]);
        forall v | v in r.attrs && v !in g.attrs ensures r.attrs[v] == map[] && v in ts {
          if v in g'.attrs {
            assert v == job || v == t;
          }
        }
      } else if !(nodes[0].componentName == Some("tRunJob") && p.Some?) {
        AddRunJobEdgesSpec(g, job, nodes[1..]);
      }
    }
  }

  /** What analysing one parsed file records: its job's name and attributes, and its components. */
  datatype Entry = Entry(job: string, attrs: Attrs, nodes: seq<ComponentNode>)

  /** The entry of one file; `None` when it cannot be parsed. */
  function FileEntry(filepath: string, load: Loader): (e: Option<Entry>)
    ensures e.Some? <==> load(filepath).Some?
    ensures e.Some? ==> e.value.job == JobName(filepath) && e.value.nodes == load(filepath).value.nodes
    ensures e.Some? ==> "filepath" in e.value.attrs && e.value.attrs["filepath"] == filepath && "type" in e.value.attrs
  {
    match load(filepath)
    case None => None
    case Some(doc) => Some(Entry(JobName(filepath), JobAttrs(filepath, doc), doc.nodes))
  }

  /** `add_node(job, **attrs)`, then the dependency loop; nothing for an unparseable file. */
  function Record(g: Graph, e: Option<Entry>): Graph
  {
    match e
    case None => g
    case Some(en) => AddRunJobEdges(WithNode(g, en.job, en.attrs), en.job, en.nodes)
  }

  /** `_analyze_file` on graph `g` (an unparseable file leaves it unchanged). */
  function AnalyzeSpec(g: Graph, filepath: string, load: Loader): Graph
  {
    Record(g, FileEntry(filepath, load))
  }

  /** Every entry in turn. */
  function BuildFrom(g: Graph, es: seq<Option<Entry>>): Graph
  {
    if |es| == 0 then g else Record(BuildFrom(g, es[..|es| - 1]), es[|es| - 1])
  }

  function Entries(files: seq<string>, load: Loader): (es: seq<Option<Entry>>)
    ensures |es| == |files| && forall i :: 0 <= i < |files| ==> es[i] == FileEntry(files[i], load)
  {
    seq(|files|, i requires 0 <= i < |files| => FileEntry(files[i], load))
  }

  /** `build`: every file in turn. */
  function BuildSpec(g: Graph, files: seq<string>, load: Loader): Graph
  {
    BuildFrom(g, Entries(files, load))
  }

  /** The entry records job `v` or a `tRunJob` call of `v`. */
  predicate Mentions(e: Option<Entry>, v: string)
  {
    e.Some? && (v == e.value.job || v in RunJobTargets(e.value.nodes))
  }

  /** The entry's job calls `v` through `tRunJob`. */
  predicate Runs(e: Option<Entry>, v: string)
  {
    e.Some? && v in RunJobTargets(e.value.nodes)
  }

  /** Recording a job keeps the graph well formed and adds the job and the jobs it runs as vertices. */
  lemma RecordVertices(g: Graph, e: Option<Entry>)
    ensures WellFormed(g) ==> WellFormed(Record(g, e))
    ensures forall v :: v in Record(g, e).vertices <==> (v in g.vertices || Mentions(e, v))
  {
    if e.Some? {
      AddRunJobEdgesSpec(WithNode(g, e.value.job, e.value.attrs), e.value.job, e.value.nodes);
    }
  }

  /**
   * Recording a job merges its attributes into the job's, keeps every other
   * vertex's attributes, and any vertex it creates besides the job is a job
   * it runs, with no attributes.
   */
  lemma RecordAttrs(g: Graph, e: Option<Entry>)
    requires e.Some?
    ensures var r := Record(g, e);
      var job := e.value.job;
      && job in r.attrs
      && r.attrs[job] == (if job in g.attrs then g.attrs[job] else map[]) + e.value.attrs
      && (forall v :: v in g.attrs && v != job ==> v in r.attrs && r.attrs[v] == g.attrs[v])
      && (forall v :: v in r.attrs && v !in g.attrs && v != job ==> r.attrs[v] == map[] && Runs(e, v))
  {
    var job := e.value.job;
    var g1 := WithNode(g, job, e.value.attrs);
    AddRunJobEdgesSpec(g1, job, e.value.nodes);
    var r := Record(g, e);
    forall v | v in r.attrs && v !in g.attrs && v != job
      ensures v in RunJobTargets(e.value.nodes)
    {
      assert v !in g1.attrs;
    }
  }

  /** A build keeps the graph well formed. */
  lemma {:induction false} BuildWellFormed(g: Graph, es: seq<Option<Entry>>)
    requires WellFormed(g)
    ensures WellFormed(BuildFrom(g, es))
    decreases |es|
  {
    if |es| > 0 {
      BuildWellFormed(g, es[..|es| - 1]);
      RecordVertices(BuildFrom(g, es[..|es| - 1]), es[|es| - 1]);
    }
  }

  /** The vertices of a build are exactly the parsed jobs and the jobs they run. */
  lemma {:induction false} BuildVertices(es: seq<Option<Entry>>)
    ensures forall v :: v in BuildFrom(EmptyGraph, es).vertices <==> exists i :: 0 <= i < |es| && Mentions(es[i], v)
    decreases |es|
  {
    if |es| > 0 {
      var init := es[..|es| - 1];
      var last := |es| - 1;
      BuildVertices(init);
      RecordVertices(BuildFrom(EmptyGraph, init), es[last]);
      assert forall i :: 0 <= i < last ==> es[i] == init[i];
      forall v | v in BuildFrom(EmptyGraph, es).vertices ensures exists i :: 0 <= i < |es| && Mentions(es[i], v) {
        if !Mentions(es[last], v) {
          var i :| 0 <= i < |init| && Mentions(init[i], v);
          assert Mentions(es[i], v);
        }
      }
    }
  }

  /** Every entry's attributes hold a `filepath` and a `type`. */
  predicate EntriesTyped(es: seq<Option<Entry>>)
  {
    forall i :: 0 <= i < |es| && es[i].Some? ==> "filepath" in es[i].value.attrs && "type" in es[i].value.attrs
  }

  /** After a build, every parsed job has a `filepath` and a `type`. */
  lemma {:induction false} BuildRecordsJobs(es: seq<Option<Entry>>)
    requires EntriesTyped(es)
    ensures var g := BuildFrom(EmptyGraph, es);
      forall i :: 0 <= i < |es| && es[i].Some? ==>
        (es[i].value.job in g.attrs && "filepath" in g.attrs[es[i].value.job] && "type" in g.attrs[es[i].value.job])
    decreases |es|
  {
    if |es| > 0 {
      var init := es[..|es| - 1];
      var last := |es| - 1;
      assert forall i :: 0 <= i < last ==> es[i] == init[i];
      BuildRecordsJobs(init);
      if es[last].Some? {
        RecordAttrs(BuildFrom(EmptyGraph, init), es[last]);
      }
    }
  }

  /** `v` has an attribute dictionary without `filepath`. */
  predicate Dangling(g: Graph, v: string)
  {
    v in g.attrs && "filepath" !in g.attrs[v]
  }

  /** A vertex without `filepath` after recording a job had none before, or is a job that job runs. */
  lemma RecordDangling(g: Graph, e: Option<Entry>)
    requires e.Some? ==> "filepath" in e.value.attrs
    ensures forall v :: Dangling(Record(g, e), v) ==>
      (Mentions(e, v) ==> v != e.value.job) && (Dangling(g, v) || (v !in g.attrs && Runs(e, v)))
  {
    if e.Some? {
      RecordAttrs(g, e);
    }
  }

  /** After a build, a vertex without a `filepath` is a job that some parsed file runs through `tRunJob`. */
  lemma {:induction false} BuildDanglingRun(es: seq<Option<Entry>>)
    requires EntriesTyped(es)
    ensures forall v :: Dangling(BuildFrom(EmptyGraph, es), v) ==> exists i :: 0 <= i < |es| && Runs(es[i], v)
    decreases |es|
  {
    if |es| > 0 {
      var init := es[..|es| - 1];
      var last := |es| - 1;
      assert forall i :: 0 <= i < last ==> es[i] == init[i];
      BuildDanglingRun(init);
      var g0 := BuildFrom(EmptyGraph, init);
      RecordDangling(g0, es[last]);
      var g := BuildFrom(EmptyGraph, es);
      forall v | Dangling(g, v) ensures exists i :: 0 <= i < |es| && Runs(es[i], v) {
        if !Runs(es[last], v) {
          assert Dangling(g0, v);
          var i :| 0 <= i < |init| && Runs(init[i], v);
          assert Runs(es[i], v);
        }
      }
    }
  }

  /** After a build, a vertex without a `filepath` is a job that no parsed file defines. */
  lemma {:induction false} BuildDanglingUndefined(es: seq<Option<Entry>>)
    requires EntriesTyped(es)
    ensures forall v, i :: Dangling(BuildFrom(EmptyGraph, es), v) && 0 <= i < |es| && es[i].Some? ==> es[i].value.job != v
    decreases |es|
  {
    if |es| > 0 {
      var init := es[..|es| - 1];
      var last := |es| - 1;
      assert forall i :: 0 <= i < last ==> es[i] == init[i];
      BuildDanglingUndefined(init);
      BuildRecordsJobs(init);
      var g0 := BuildFrom(EmptyGraph, init);
      RecordDangling(g0, es[last]);
      forall v, i | Dangling(BuildFrom(EmptyGraph, es), v) && 0 <= i < |es| && es[i].Some? ensures es[i].value.job != v {
        if i < last {
          assert es[i] == init[i];
          if Dangling(g0, v) {
            assert init[i].value.job != v;
          } else {
            assert init[i].value.job in g0.attrs;
          }
        } else {
          assert Mentions(es[last], es[last].value.job);
        }
      }
    }
  }

  /** The file entries of a build all carry a `filepath` and a `type`. */
  lemma EntriesOfFilesTyped(files: seq<string>, load: Loader)
    ensures EntriesTyped(Entries(files, load))
  {
  }

  /** `ProjectGraph`, holding the networkx graph it builds in place. */
  class ProjectGraph {
    var graph: DiGraph

    constructor ()
      ensures fresh(graph) && graph.Valid() && graph.View() == EmptyGraph
    {
      graph := new DiGraph();
    }

    /** `_analyze_file` */
    method AnalyzeFile(filepath: string, load: Loader)
      requires graph.Valid()
      modifies graph
      ensures graph.Valid() && graph.View() == AnalyzeSpec(old(graph.View()), filepath, load)
    {
      var jobName := JobName(filepath);
      var tree := load(filepath);
      if tree.None? {
        return;
      }
      var doc := tree.value;
      graph.AddNode(jobName, JobAttrs(filepath, doc));
      var i := 0;
      while i < |doc.nodes|
        invariant 0 <= i <= |doc.nodes|
        invariant graph.Valid()
        invariant AnalyzeSpec(old(graph.View()), filepath, load) == AddRunJobEdges(graph.View(), jobName, doc.nodes[i..])
      {
        var node := doc.nodes[i];
        assert doc.nodes[i..][0] == node && doc.nodes[i..][1..] == doc.nodes[i + 1..];
        if node.componentName == Some("tRunJob") {
          var param := ProcessParam(node.params);
          if param.Some? {
            if param.value.value.None? {
              return;
            }
            graph.AddEdge(jobName, param.value.value.value);
          }
        }
        i := i + 1;
      }
    }

    /** `build`: analyses every file and returns the graph object itself. */
    method Build(files: seq<string>, load: Loader) returns (g: DiGraph)
      requires graph.Valid()
      modifies graph
      ensures g == graph && graph.Valid() && graph.View() == BuildSpec(old(graph.View()), files, load)
    {
      var i := 0;
      while i < |files|
        invariant 0 <= i <= |files|
        invariant graph.Valid() && graph.View() == BuildSpec(old(graph.View()), files[..i], load)
      {
        assert Entries(files[..i + 1], load)[..i] == Entries(files[..i], load);
        AnalyzeFile(files[i], load);
        i := i + 1;
      }
      assert files[..i] == files;
      g := graph;
    }
  }
}
