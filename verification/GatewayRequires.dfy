/**
  The gateway kinds every template snippet depends on: dependency edges between
  snippets, and a depth-first closure whose calls share one visited set.
 */
module GatewayRequires {

  type Name = string
  type Kind = string

  /** What the scan of one snippet's body found. */
  datatype Snippet = Snippet(
    resources: set<Kind>,      // resources.<kind>
    imports: set<Name>,        // import "other"
    renders: set<Name>,        // render "other" without a default clause
    registers: seq<Name>,      // file names it registers, in order
    mentions: set<Name>)       // registered file names that occur in its body

  /** The merged configuration: snippet names in order, and their scanned bodies. */
  datatype Config = Config(order: seq<Name>, bodies: map<Name, Snippet>)

  ghost predicate WellFormed(c: Config) {
    && (forall n :: n in c.order <==> n in c.bodies)
    && (forall i, j :: 0 <= i < j < |c.order| ==> c.order[i] != c.order[j])
  }

  datatype Graph = Graph(direct: map<Name, set<Kind>>, edges: map<Name, set<Name>>) {
    function Direct(n: Name): set<Kind> { if n in direct then direct[n] else {} }
    function Edges(n: Name): set<Name> { if n in edges then edges[n] else {} }
  }

  // ----- edges

  /** Among the first `bound` snippets, `producer` is the last to register `file`. */
  ghost predicate ProducedLastBefore(c: Config, file: Name, producer: Name, bound: int)
    requires WellFormed(c) && bound <= |c.order|
  {
    exists i :: 0 <= i < bound && c.order[i] == producer && file in c.bodies[c.order[i]].registers
      && forall j :: i < j < bound ==> file !in c.bodies[c.order[j]].registers
  }

  ghost predicate LastProducer(c: Config, file: Name, producer: Name)
    requires WellFormed(c)
  {
    ProducedLastBefore(c, file, producer, |c.order|)
  }

  /** Snippet n depends on d: by import, by a render of a known snippet, or by a file d registers. */
  ghost predicate DependsOn(c: Config, n: Name, d: Name)
    requires WellFormed(c) && n in c.bodies
  {
    || d in c.bodies[n].imports
    || (d in c.bodies[n].renders && d in c.bodies)
    || (d != n && exists file :: LastProducer(c, file, d) && file in c.bodies[n].mentions)
  }

  function RegisterAll(by_: map<Name, Name>, files: seq<Name>, name: Name): map<Name, Name> {
    by_ + map file | file in files :: name
  }

  lemma ProducedNow(c: Config, file: Name, producer: Name, i: nat)
    requires WellFormed(c) && i < |c.order|
    ensures ProducedLastBefore(c, file, producer, i + 1) <==>
      if file in c.bodies[c.order[i]].registers then producer == c.order[i]
      else ProducedLastBefore(c, file, producer, i)
  {
  }

  predicate Registered(by_: map<Name, Name>, file: Name, producer: Name) { file in by_ && by_[file] == producer }

  ghost predicate RegistersFirst(c: Config, by_: map<Name, Name>, bound: int)
    requires WellFormed(c) && bound <= |c.order|
  {
    forall file, producer :: Registered(by_, file, producer) <==> ProducedLastBefore(c, file, producer, bound)
  }

  lemma RegistersOneMore(c: Config, by_: map<Name, Name>, i: nat)
    requires WellFormed(c) && i < |c.order| && RegistersFirst(c, by_, i)
    ensures RegistersFirst(c, RegisterAll(by_, c.bodies[c.order[i]].registers, c.order[i]), i + 1)
  {
    var after := RegisterAll(by_, c.bodies[c.order[i]].registers, c.order[i]);
    forall file, producer ensures Registered(after, file, producer) <==> ProducedLastBefore(c, file, producer, i + 1) {
      ProducedNow(c, file, producer, i);
    }
  }

  /** Which snippet registers each literal file name; a later one wins. */
  method RegisteredBy(c: Config) returns (by_: map<Name, Name>)
    requires WellFormed(c)
    ensures forall file, producer :: Registered(by_, file, producer) <==> LastProducer(c, file, producer)
  {
    by_ := map[];
    for i := 0 to |c.order|
      invariant RegistersFirst(c, by_, i)
    {
      var name := c.order[i];
      var files := c.bodies[name].registers;
      RegistersOneMore(c, by_, i);
      by_ := RegisterFiles(by_, files, name);
    }
  }

  lemma RegisterOneMore(start: map<Name, Name>, files: seq<Name>, file: Name, name: Name)
    ensures RegisterAll(start, files + [file], name) == RegisterAll(start, files, name)[file := name]
  {
    var a, b := RegisterAll(start, files + [file], name), RegisterAll(start, files, name)[file := name];
    assert forall x :: x in files + [file] <==> x in files || x == file;
    assert a.Keys == b.Keys;
    assert forall x :: x in a ==> a[x] == b[x];
  }

  method RegisterFiles(start: map<Name, Name>, files: seq<Name>, name: Name) returns (by_: map<Name, Name>)
    ensures by_ == RegisterAll(start, files, name)
  {
    by_ := start;
    for k := 0 to |files|
      invariant by_ == RegisterAll(start, files[..k], name)
    {
      RegisterOneMore(start, files[..k], files[k], name);
      assert files[..k + 1] == files[..k] + [files[k]];
      by_ := by_[files[k] := name];
    }
    assert files[..|files|] == files;
  }

  /** The graph whose edges are exactly the dependencies. */
  method BuildGraph(c: Config, gatewayKinds: set<Kind>) returns (g: Graph)
    requires WellFormed(c)
    ensures g.direct.Keys == g.edges.Keys == c.bodies.Keys
    ensures forall n :: n in c.bodies ==> g.direct[n] == c.bodies[n].resources * gatewayKinds
    ensures forall n, d :: n in c.bodies ==> (d in g.edges[n] <==> DependsOn(c, n, d))
  {
    var by_ := RegisteredBy(c);
    var direct: map<Name, set<Kind>>, edges: map<Name, set<Name>> := map[], map[];
    for i := 0 to |c.order|
      invariant forall n :: n in direct <==> n in c.order[..i]
      invariant forall n :: n in edges <==> n in c.order[..i]
      invariant forall n :: n in direct ==> direct[n] == c.bodies[n].resources * gatewayKinds
      invariant forall n, d :: n in edges ==> (d in edges[n] <==> DependsOn(c, n, d))
    {
      var name := c.order[i];
      assert c.order[..i + 1] == c.order[..i] + [name];
      var body := c.bodies[name];
      var producers := set file | file in by_ && by_[file] != name && file in body.mentions :: by_[file];
      var deps := body.imports + (set r | r in body.renders && r in c.bodies) + producers;
      forall d ensures d in deps <==> DependsOn(c, name, d) {
        if d != name && exists file :: LastProducer(c, file, d) && file in body.mentions {
          var file :| LastProducer(c, file, d) && file in body.mentions;
          assert Registered(by_, file, d);
        }
        if d in producers {
          var file :| file in by_ && by_[file] != name && file in body.mentions && by_[file] == d;
          assert Registered(by_, file, d);
        }
      }
      direct := direct[name := body.resources * gatewayKinds];
      edges := edges[name := deps];
    }
    assert c.order[..|c.order|] == c.order;
    g := Graph(direct, edges);
  }

  // ----- reachability

  ghost predicate IsPath(g: Graph, p: seq<Name>) {
    p != [] && forall i :: 0 <= i < |p| - 1 ==> p[i + 1] in g.Edges(p[i])
  }

  /** `d` can be reached from `n` along dependency edges. */
  ghost predicate Reaches(g: Graph, n: Name, d: Name) {
    exists p :: IsPath(g, p) && p[0] == n && p[|p| - 1] == d
  }

  lemma ReachesSelf(g: Graph, n: Name)
    ensures Reaches(g, n, n)
  {
    assert IsPath(g, [n]);
  }

  lemma ReachesThrough(g: Graph, n: Name, m: Name, d: Name)
    requires m in g.Edges(n) && Reaches(g, m, d)
    ensures Reaches(g, n, d)
  {
    var p :| IsPath(g, p) && p[0] == m && p[|p| - 1] == d;
    var q := [n] + p;
    assert IsPath(g, q) && q[0] == n && q[|q| - 1] == d;
  }

  lemma {:induction false} ClosedSetContainsPath(g: Graph, closed: set<Name>, p: seq<Name>)
    requires IsPath(g, p) && p[0] in closed && forall n :: n in closed ==> g.Edges(n) <= closed
    ensures p[|p| - 1] in closed
    decreases |p|
  {
    if |p| > 1 {
      var q := p[1..];
      assert p[0 + 1] in g.Edges(p[0]);
      forall i | 0 <= i < |q| - 1 ensures q[i + 1] in g.Edges(q[i]) {
        assert p[(i + 1) + 1] in g.Edges(p[i + 1]);
      }
      ClosedSetContainsPath(g, closed, q);
    }
  }

  /** All names a traversal can meet. */
  ghost function Nodes(g: Graph): set<Name> {
    g.edges.Keys + (set n, d | n in g.edges && d in g.edges[n] :: d)
  }

  // ----- the closure

  /** What a call visited: everything new is reachable, has only visited successors, and contributed its kinds. */
  ghost predicate Visited(g: Graph, name: Name, before: set<Name>, after: set<Name>, out: set<Kind>) {
    && before <= after && name in after
    && (forall n :: n in after - before ==> Reaches(g, name, n) && g.Edges(n) <= after)
    && out == KindsOf(g, after - before)
  }

  ghost function KindsOf(g: Graph, names: set<Name>): set<Kind> {
    set n, kind | n in names && kind in g.Direct(n) :: kind
  }

  /**
    The depth-first closure. It adds to the shared visited set and returns the
    kinds of what it added.
   */
  method Close(g: Graph, name: Name, before: set<Name>) returns (out: set<Kind>, after: set<Name>)
    ensures Visited(g, name, before, after, out)
    ensures Within(g, name, before, after)
    decreases |(Nodes(g) + {name}) - before|, 1
  {
    if name in before {
      ReachesSelf(g, name);
      return {}, before;
    }
    VisitingStarts(g, name, before);
    after := before + {name};
    out := g.Direct(name);
    var todo := g.Edges(name);
    while todo != {}
      invariant todo <= g.Edges(name) && g.Edges(name) - todo <= after
      invariant Within(g, name, before, after) && Visiting(g, name, before, after, out)
      decreases todo
    {
      var d :| d in todo;
      FewerLeft(g, name, d, before, after);
      ghost var middle, had := after, out;
      var more;
      more, after := Close(g, d, after);
      VisitingGrows(g, name, d, before, middle, had, after, more);
      WithinGrows(g, name, d, before, middle, after);
      out := out + more;
      todo := todo - {d};
    }
  }

  /** A call that still has successors to visit. */
  ghost predicate Visiting(g: Graph, name: Name, before: set<Name>, after: set<Name>, out: set<Kind>) {
    && before <= after && name in after && name !in before
    && (forall n :: n in after - before ==> Reaches(g, name, n) && (n != name ==> g.Edges(n) <= after))
    && out == KindsOf(g, after - before)
  }

  /** Only names of the graph are added. */
  ghost predicate Within(g: Graph, name: Name, before: set<Name>, after: set<Name>) {
    forall n :: n in after ==> n in before || n in Nodes(g) || n == name
  }

  lemma WithinGrows(g: Graph, name: Name, d: Name, before: set<Name>, middle: set<Name>, after: set<Name>)
    requires d in Nodes(g) && Within(g, name, before, middle) && Within(g, d, middle, after)
    ensures Within(g, name, before, after)
  {
  }

  lemma VisitingStarts(g: Graph, name: Name, before: set<Name>)
    requires name !in before
    ensures Visiting(g, name, before, before + {name}, g.Direct(name)) && Within(g, name, before, before + {name})
  {
    ReachesSelf(g, name);
    assert before + {name} - before == {name};
    assert KindsOf(g, {name}) == g.Direct(name);
  }

  lemma VisitingGrows(g: Graph, name: Name, d: Name, before: set<Name>, middle: set<Name>, had: set<Kind>,
                      after: set<Name>, more: set<Kind>)
    requires d in g.Edges(name) && Visiting(g, name, before, middle, had) && Visited(g, d, middle, after, more)
    ensures Visiting(g, name, before, after, had + more)
  {
    forall n | n in after - middle ensures Reaches(g, name, n) {
      ReachesThrough(g, name, d, n);
    }
    assert after - before == (middle - before) + (after - middle);
    KindsOfUnion(g, middle - before, after - middle);
  }

  lemma KindsOfUnion(g: Graph, a: set<Name>, b: set<Name>)
    ensures KindsOf(g, a + b) == KindsOf(g, a) + KindsOf(g, b)
  {
  }

  /** Below a fresh name fewer names are left to visit. */
  lemma FewerLeft(g: Graph, name: Name, d: Name, before: set<Name>, after: set<Name>)
    requires d in g.Edges(name) && name !in before && name in after && before <= after
    ensures d in Nodes(g) && |(Nodes(g) + {d}) - after| < |(Nodes(g) + {name}) - before|
  {
    assert Nodes(g) + {d} == Nodes(g);
    assert name in (Nodes(g) + {name}) - before;
    SmallerSet((Nodes(g) + {d}) - after, (Nodes(g) + {name}) - before);
  }

  lemma SmallerSet(a: set<Name>, b: set<Name>)
    requires a < b
    ensures |a| < |b|
  {
    assert !(b <= a);
    var extra :| extra in b && extra !in a;
    var rest := b - {extra};
    assert a <= rest;
    assert |rest| == |b| - 1;
    SubsetSize(a, rest);
  }

  lemma {:induction false} SubsetSize(a: set<Name>, b: set<Name>)
    requires a <= b
    ensures |a| <= |b|
    decreases a
  {
    if a != {} {
      var x :| x in a;
      SubsetSize(a - {x}, b - {x});
    }
  }

  /**
    From an empty visited set the closure is exactly the kinds of every snippet
    reachable from `name`, cycles included.
   */
  method Requirements(g: Graph, name: Name) returns (kinds: set<Kind>)
    ensures forall kind :: kind in kinds <==> exists n :: Reaches(g, name, n) && kind in g.Direct(n)
  {
    var visited;
    kinds, visited := Close(g, name, {});
    forall n | Reaches(g, name, n) ensures n in visited {
      var p :| IsPath(g, p) && p[0] == name && p[|p| - 1] == n;
      ClosedSetContainsPath(g, visited, p);
    }
    assert visited - {} == visited;
  }

  // ----- what the whole run says about the configuration

  /** Each name of the path depends on the next. */
  ghost predicate IsChain(c: Config, p: seq<Name>)
    requires WellFormed(c)
  {
    p != [] && forall i :: 0 <= i < |p| - 1 ==> p[i] in c.bodies && DependsOn(c, p[i], p[i + 1])
  }

  /** A chain of dependencies leads from `name` to a snippet that uses this gateway kind. */
  ghost predicate Needs(c: Config, gatewayKinds: set<Kind>, name: Name, kind: Kind)
    requires WellFormed(c)
  {
    exists p :: IsChain(c, p) && p[0] == name && Uses(c, gatewayKinds, p[|p| - 1], kind)
  }

  ghost predicate Uses(c: Config, gatewayKinds: set<Kind>, name: Name, kind: Kind) {
    name in c.bodies && kind in c.bodies[name].resources && kind in gatewayKinds
  }

  ghost predicate GraphOf(g: Graph, c: Config, gatewayKinds: set<Kind>)
    requires WellFormed(c)
  {
    && g.direct.Keys == g.edges.Keys == c.bodies.Keys
    && (forall n :: n in c.bodies ==> g.direct[n] == c.bodies[n].resources * gatewayKinds)
    && (forall n, d :: n in c.bodies ==> (d in g.edges[n] <==> DependsOn(c, n, d)))
  }

  lemma ChainsArePaths(g: Graph, c: Config, gatewayKinds: set<Kind>, p: seq<Name>)
    requires WellFormed(c) && GraphOf(g, c, gatewayKinds)
    ensures IsChain(c, p) <==> IsPath(g, p)
  {
    if IsPath(g, p) {
      forall i | 0 <= i < |p| - 1 ensures p[i] in c.bodies && DependsOn(c, p[i], p[i + 1]) {
        assert p[i + 1] in g.Edges(p[i]);
      }
    }
  }

  lemma NeedsReached(g: Graph, c: Config, gatewayKinds: set<Kind>, name: Name, kind: Kind)
    requires WellFormed(c) && GraphOf(g, c, gatewayKinds)
    ensures Needs(c, gatewayKinds, name, kind) <==> exists n :: Reaches(g, name, n) && kind in g.Direct(n)
  {
    if Needs(c, gatewayKinds, name, kind) {
      var p :| IsChain(c, p) && p[0] == name && Uses(c, gatewayKinds, p[|p| - 1], kind);
      ChainsArePaths(g, c, gatewayKinds, p);
      assert Reaches(g, name, p[|p| - 1]) && kind in g.Direct(p[|p| - 1]);
    }
    if n :| Reaches(g, name, n) && kind in g.Direct(n) {
      var p :| IsPath(g, p) && p[0] == name && p[|p| - 1] == n;
      ChainsArePaths(g, c, gatewayKinds, p);
      assert Uses(c, gatewayKinds, n, kind);
    }
  }

  /** The kinds of every snippet: exactly those that a chain of dependencies leads to. */
  method AllRequirements(c: Config, gatewayKinds: set<Kind>) returns (required: map<Name, set<Kind>>)
    requires WellFormed(c)
    ensures required.Keys == c.bodies.Keys
    ensures forall n, kind :: n in c.bodies ==> (kind in required[n] <==> Needs(c, gatewayKinds, n, kind))
  {
    var g := BuildGraph(c, gatewayKinds);
    required := map[];
    for i := 0 to |c.order|
      invariant forall n :: n in required <==> n in c.order[..i]
      invariant forall n, kind :: n in required ==> (kind in required[n] <==> Needs(c, gatewayKinds, n, kind))
    {
      var name := c.order[i];
      assert c.order[..i + 1] == c.order[..i] + [name];
      var kinds := Requirements(g, name);
      forall kind ensures kind in kinds <==> Needs(c, gatewayKinds, name, kind) {
        NeedsReached(g, c, gatewayKinds, name, kind);
      }
      required := required[name := kinds];
    }
    assert c.order[..|c.order|] == c.order;
  }

  /** The kinds a snippet requires, by reachability. */
  ghost predicate RequiresKind(g: Graph, n: Name, kind: Kind) {
    exists m :: Reaches(g, n, m) && kind in g.Direct(m)
  }

  /** A snippet survives when none of the kinds it requires is unserved. */
  ghost predicate Survives(g: Graph, unserved: set<Kind>, n: Name) {
    forall kind :: kind in unserved ==> !RequiresKind(g, n, kind)
  }

  /** Whatever kinds a cluster does not serve, what survives depends only on what survives. */
  lemma SurvivorsAreClosed(g: Graph, unserved: set<Kind>, n: Name, d: Name)
    requires Survives(g, unserved, n) && d in g.Edges(n)
    ensures Survives(g, unserved, d)
  {
    forall kind | kind in unserved ensures !RequiresKind(g, d, kind) {
      if RequiresKind(g, d, kind) {
        var m :| Reaches(g, d, m) && kind in g.Direct(m);
        ReachesThrough(g, n, d, m);
        assert RequiresKind(g, n, kind);
      }
    }
  }
}
