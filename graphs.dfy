/**
 * Directed graphs as the migrator uses them from networkx: vertices keep
 * their insertion order, each vertex has an attribute dictionary, and a
 * topological sort either succeeds or reports that the graph is cyclic.
 */
module Graphs {
  import opened Wrappers
  import opened Strings

  type Edge = (string, string)
  type Attrs = map<string, string>

  datatype Graph = Graph(vertices: seq<string>, attrs: map<string, Attrs>, edges: set<Edge>)

  /** Vertex names are unique, every vertex has an attribute dictionary, edges join vertices. */
  ghost predicate WellFormed(g: Graph)
  {
    && NoDup(g.vertices)
    && (forall v :: v in g.attrs <==> v in g.vertices)
    && (forall e :: e in g.edges ==> e.0 in g.vertices && e.1 in g.vertices)
  }

  const EmptyGraph := Graph([], map[], {})

  /** `add_node(n, **a)`: a new name is appended; an existing one keeps its place and has its attributes updated. */
  function WithNode(g: Graph, n: string, a: Attrs): (r: Graph)
    ensures WellFormed(g) ==> WellFormed(r)
    ensures r.vertices == if n in g.vertices then g.vertices else g.vertices + [n]
    ensures r.attrs == g.attrs[n := (if n in g.attrs then g.attrs[n] else map[]) + a]
    ensures r.edges == g.edges
  {
    var vs := if n in g.vertices then g.vertices else g.vertices + [n];
    Graph(vs, g.attrs[n := (if n in g.attrs then g.attrs[n] else map[]) + a], g.edges)
  }

  /** `add_edge(u, v)`: creates missing endpoints with no attributes, then the edge. */
  function WithEdge(g: Graph, u: string, v: string): (r: Graph)
    ensures WellFormed(g) ==> WellFormed(r)
    ensures u in r.vertices && v in r.vertices
    ensures forall x :: x in r.vertices <==> x in g.vertices || x == u || x == v
    ensures r.edges == g.edges + {(u, v)}
  {
    var vs1 := if u in g.vertices then g.vertices else g.vertices + [u];
    var vs2 := if v in vs1 then vs1 else vs1 + [v];
    var at1 := if u in g.attrs then g.attrs else g.attrs[u := map[]];
    var at2 := if v in at1 then at1 else at1[v := map[]];
    Graph(vs2, at2, g.edges + {(u, v)})
  }

  /** `add_edge` keeps the existing vertices in their order. */
  lemma WithEdgeKeepsOrder(g: Graph, u: string, v: string)
    ensures var r := WithEdge(g, u, v);
      |g.vertices| <= |r.vertices| && r.vertices[..|g.vertices|] == g.vertices
  {
    var r := WithEdge(g, u, v);
    var vs1 := if u in g.vertices then g.vertices else g.vertices + [u];
    assert r.vertices[..|vs1|] == vs1 && vs1[..|g.vertices|] == g.vertices;
  }

  /** `add_edge` keeps existing attributes; endpoints it creates have none. */
  lemma WithEdgeKeepsAttrs(g: Graph, u: string, v: string)
    ensures var r := WithEdge(g, u, v);
      && (forall x :: x in g.attrs ==> x in r.attrs && r.attrs[x] == g.attrs[x])
      && (forall x :: x in r.attrs && x !in g.attrs ==> r.attrs[x] == map[] && (x == u || x == v))
  {
  }

  /** Every predecessor of `v` has already left `rem`. */
  predicate Ready(v: string, rem: seq<string>, edges: set<Edge>)
  {
    forall e :: e in edges && e.1 == v ==> e.0 !in rem
  }

  /** The first index at or after `from` whose vertex is ready. */
  function FirstReady(rem: seq<string>, edges: set<Edge>, from: nat): (r: Option<nat>)
    requires from <= |rem|
    ensures r.Some? ==> from <= r.value < |rem| && Ready(rem[r.value], rem, edges)
    ensures r.None? ==> forall i :: from <= i < |rem| ==> !Ready(rem[i], rem, edges)
    decreases |rem| - from
  {
    if from == |rem| then None
    else if Ready(rem[from], rem, edges) then Some(from)
    else FirstReady(rem, edges, from + 1)
  }

  /** Kahn's algorithm: repeatedly emit the first vertex all of whose predecessors were emitted. */
  function Kahn(rem: seq<string>, edges: set<Edge>): Option<seq<string>>
    decreases |rem|
  {
    if |rem| == 0 then Some([])
    else match FirstReady(rem, edges, 0)
      case None => None
      case Some(i) =>
        match Kahn(rem[..i] + rem[i + 1..], edges)
        case None => None
        case Some(rest) => Some([rem[i]] + rest)
  }

  /** For every edge u -> v between members of `o`, u comes first. */
  predicate RespectsEdges(o: seq<string>, edges: set<Edge>)
  {
    forall i, j :: 0 <= i < |o| && 0 <= j < |o| && (o[i], o[j]) in edges ==> i < j
  }

  /** `o` lists the vertices of `g` (a permutation) and respects every edge. */
  predicate IsTopologicalOrder(o: seq<string>, g: Graph)
  {
    multiset(o) == multiset(g.vertices) && RespectsEdges(o, g.edges)
  }

  /** Dropping the first element keeps the edges respected. */
  lemma RespectsTail(o: seq<string>, edges: set<Edge>)
    requires |o| > 0 && RespectsEdges(o, edges)
    ensures RespectsEdges(o[1..], edges)
  {
    var t := o[1..];
    forall i, j | 0 <= i < |t| && 0 <= j < |t| && (t[i], t[j]) in edges ensures i < j {
      assert t[i] == o[i + 1] && t[j] == o[j + 1];
    }
  }

  /** An order obtained by deleting elements from an order that respects the edges respects them too. */
  lemma {:induction false} SubseqRespects(xs: seq<string>, ys: seq<string>, edges: set<Edge>)
    requires IsSubseq(xs, ys) && RespectsEdges(ys, edges)
    ensures RespectsEdges(xs, edges)
    decreases |ys|
  {
    if |xs| > 0 {
      RespectsTail(ys, edges);
      if xs[0] == ys[0] && IsSubseq(xs[1..], ys[1..]) {
        SubseqRespects(xs[1..], ys[1..], edges);
        forall j | 0 < j < |xs| ensures (xs[j], xs[0]) !in edges {
          assert xs[j] in xs[1..];
          SubseqMembers(xs[1..], ys[1..], xs[j]);
          var q :| 0 <= q < |ys| - 1 && ys[1..][q] == xs[j];
          assert ys[q + 1] == xs[j];
        }
        assert (xs[0], xs[0]) !in edges by {
          assert (ys[0], ys[0]) in edges ==> 0 < 0;
        }
        forall i, j | 0 <= i < |xs| && 0 <= j < |xs| && (xs[i], xs[j]) in edges ensures i < j {
          if i > 0 && j > 0 {
            assert xs[i] == xs[1..][i - 1] && xs[j] == xs[1..][j - 1];
          }
        }
      } else {
        SubseqRespects(xs, ys[1..], edges);
      }
    }
  }

  /** `nx.topological_sort`, with `None` standing for the `NetworkXUnfeasible` it raises on a cycle. */
  function TopologicalSort(g: Graph): Option<seq<string>>
  {
    Kahn(g.vertices, g.edges)
  }

  lemma {:induction false} KahnSound(rem: seq<string>, edges: set<Edge>)
    requires Kahn(rem, edges).Some?
    ensures multiset(Kahn(rem, edges).value) == multiset(rem)
    ensures RespectsEdges(Kahn(rem, edges).value, edges)
    decreases |rem|
  {
    if |rem| > 0 {
      var i := FirstReady(rem, edges, 0).value;
      var rem' := rem[..i] + rem[i + 1..];
      KahnSound(rem', edges);
      var rest := Kahn(rem', edges).value;
      var o := [rem[i]] + rest;
      assert rem == rem[..i] + [rem[i]] + rem[i + 1..];
      assert multiset(o) == multiset(rem);
      forall a | 0 <= a < |o| ensures (o[a], rem[i]) !in edges {
        assert o[a] in multiset(rem);
      }
      forall a, b | 0 <= a < |o| && 0 <= b < |o| && (o[a], o[b]) in edges ensures a < b {
        if a > 0 && b > 0 {
          assert (rest[a - 1], rest[b - 1]) in edges;
        }
      }
    }
  }

  /** Dropping one element of an order keeps it respecting the edges. */
  lemma RemovePreservesRespect(o: seq<string>, p: nat, edges: set<Edge>)
    requires p < |o|
    ensures RespectsEdges(o, edges) ==> RespectsEdges(o[..p] + o[p + 1..], edges)
  {
    var o' := o[..p] + o[p + 1..];
    if RespectsEdges(o, edges) {
      forall i, j | 0 <= i < |o'| && 0 <= j < |o'| && (o'[i], o'[j]) in edges ensures i < j {
        var i' := if i < p then i else i + 1;
        var j' := if j < p then j else j + 1;
        assert o'[i] == o[i'] && o'[j] == o[j'];
      }
    }
  }

  /** When no vertex is ready, no order of the remaining vertices respects the edges. */
  lemma StuckHasNoOrder(rem: seq<string>, edges: set<Edge>, o: seq<string>)
    requires |rem| > 0 && FirstReady(rem, edges, 0).None?
    requires multiset(o) == multiset(rem)
    ensures !RespectsEdges(o, edges)
  {
    assert rem[0] in multiset(rem);
    var v := o[0];
    assert v in multiset(rem);
    var i :| 0 <= i < |rem| && rem[i] == v;
    assert !Ready(rem[i], rem, edges);
    var e :| e in edges && e.1 == v && e.0 in rem;
    assert e.0 in multiset(o);
    var k :| 0 <= k < |o| && o[k] == e.0;
    assert (o[k], o[0]) in edges;
  }

  /** Removing the element at `p` removes one occurrence of it from the multiset. */
  lemma MultisetRemove(s: seq<string>, p: nat)
    requires p < |s|
    ensures multiset(s[..p] + s[p + 1..]) == multiset(s) - multiset{s[p]}
  {
    assert s == s[..p] + [s[p]] + s[p + 1..];
    assert multiset(s) == multiset(s[..p]) + multiset{s[p]} + multiset(s[p + 1..]);
  }

  /** An order of all of `rem` would give, minus `rem[i]`, an order of the rest. */
  lemma RemoveReady(rem: seq<string>, i: nat, edges: set<Edge>, o: seq<string>)
    requires i < |rem| && multiset(o) == multiset(rem)
    requires forall o' :: multiset(o') == multiset(rem[..i] + rem[i + 1..]) ==> !RespectsEdges(o', edges)
    ensures !RespectsEdges(o, edges)
  {
    assert rem[i] in multiset(rem);
    var p :| 0 <= p < |o| && o[p] == rem[i];
    MultisetRemove(o, p);
    MultisetRemove(rem, i);
    var o' := o[..p] + o[p + 1..];
    assert multiset(o') == multiset(rem[..i] + rem[i + 1..]);
    RemovePreservesRespect(o, p, edges);
  }

  lemma {:induction false} KahnComplete(rem: seq<string>, edges: set<Edge>)
    requires Kahn(rem, edges).None?
    ensures forall o :: multiset(o) == multiset(rem) ==> !RespectsEdges(o, edges)
    decreases |rem|
  {
    match FirstReady(rem, edges, 0)
    case None =>
      forall o | multiset(o) == multiset(rem) ensures !RespectsEdges(o, edges) {
        StuckHasNoOrder(rem, edges, o);
      }
    case Some(i) =>
      KahnComplete(rem[..i] + rem[i + 1..], edges);
      forall o | multiset(o) == multiset(rem) ensures !RespectsEdges(o, edges) {
        RemoveReady(rem, i, edges, o);
      }
  }

  /**
   * The sort succeeds exactly on graphs that have a topological order
   * (the acyclic ones), and what it returns is one.
   */
  lemma TopologicalSortCorrect(g: Graph)
    ensures TopologicalSort(g).Some? ==> IsTopologicalOrder(TopologicalSort(g).value, g)
    ensures TopologicalSort(g).None? ==> forall o :: !IsTopologicalOrder(o, g)
  {
    if TopologicalSort(g).Some? {
      KahnSound(g.vertices, g.edges);
    } else {
      KahnComplete(g.vertices, g.edges);
    }
  }

  /** A graph with a self-loop has no topological order, so the sort fails on it. */
  lemma SelfLoopIsCyclic(g: Graph, v: string)
    requires (v, v) in g.edges && v in g.vertices
    ensures TopologicalSort(g).None?
  {
    forall o | multiset(o) == multiset(g.vertices) ensures !RespectsEdges(o, g.edges) {
      assert v in multiset(o);
      var k :| 0 <= k < |o| && o[k] == v;
      assert (o[k], o[k]) in g.edges;
    }
    TopologicalSortCorrect(g);
  }

  /** A networkx `DiGraph` object, updated in place by `add_node` and `add_edge`. */
  class DiGraph {
    var vertices: seq<string>
    var attrs: map<string, Attrs>
    var edges: set<Edge>

    function View(): Graph
      reads this
    {
      Graph(vertices, attrs, edges)
    }

    ghost predicate Valid()
      reads this
    {
      WellFormed(View())
    }

    constructor ()
      ensures Valid() && View() == EmptyGraph
    {
      vertices, attrs, edges := [], map[], {};
    }

    method AddNode(n: string, a: Attrs)
      requires Valid()
      modifies this
      ensures Valid() && View() == WithNode(old(View()), n, a)
    {
      var g := WithNode(View(), n, a);
      vertices, attrs, edges := g.vertices, g.attrs, g.edges;
    }

    method AddEdge(u: string, v: string)
      requires Valid()
      modifies this
      ensures Valid() && View() == WithEdge(old(View()), u, v)
    {
      var g := WithEdge(View(), u, v);
      vertices, attrs, edges := g.vertices, g.attrs, g.edges;
    }
  }
}
