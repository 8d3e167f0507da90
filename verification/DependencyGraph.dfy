/** Feature dependencies: configuration checks and depth-first detection of cycles of required edges,
    for any number of nodes and any edge list. */
module DependencyGraph {
  import opened Common

  datatype Relation = Required | Optional | Conflicts
  datatype Edge = Edge(from: nat, to: nat, relation: Relation)
  datatype Color = White | Grey | Black
  datatype Error = MissingRequiredDependency | ConflictingFeatures | DependencyCycle

  ghost predicate Needs(edges: seq<Edge>, u: nat, v: nat) {
    Edge(u, v, Required) in edges
  }

  ghost predicate Within(edges: seq<Edge>, n: nat) {
    forall e <- edges :: e.from < n && e.to < n
  }

  /** Each node of the walk needs the next. */
  ghost predicate Walk(edges: seq<Edge>, p: seq<nat>) {
    forall i :: 0 <= i < |p| - 1 ==> Needs(edges, p[i], p[i + 1])
  }

  ghost predicate IsCycle(edges: seq<Edge>, p: seq<nat>) {
    |p| >= 2 && Walk(edges, p) && p[0] == p[|p| - 1]
  }

  ghost predicate HasCycle(edges: seq<Edge>) {
    exists p :: IsCycle(edges, p)
  }

  /** No node twice, and every node after all the nodes it needs. */
  ghost predicate BootOrder(edges: seq<Edge>, order: seq<nat>) {
    && (forall i, j :: 0 <= i < j < |order| ==> order[i] != order[j])
    && (forall i, v :: 0 <= i < |order| && Needs(edges, order[i], v) ==> v in order[..i])
  }

  ghost predicate Blackened(colors: seq<Color>, order: seq<nat>) {
    forall u: nat :: u in order <==> u < |colors| && colors[u] == Black
  }

  ghost function Whites(colors: seq<Color>): set<nat> {
    set u: nat | u < |colors| && colors[u] == White
  }

  // ---- a boot order leaves no room for a cycle ----------------------------------------------

  /** Along a walk the position in the order goes down. */
  lemma {:induction false} WalkDescends(edges: seq<Edge>, order: seq<nat>, p: seq<nat>, a: nat)
    requires BootOrder(edges, order) && Walk(edges, p) && |p| >= 2
    requires a < |order| && order[a] == p[0]
    ensures p[|p| - 1] in order[..a]
    decreases |p|
  {
    assert Needs(edges, p[0], p[1]);
    assert p[1] in order[..a];
    if |p| > 2 {
      var b :| 0 <= b < a && order[b] == p[1];
      var rest := p[1..];
      forall i | 0 <= i < |rest| - 1 ensures Needs(edges, rest[i], rest[i + 1]) {
        assert Needs(edges, p[i + 1], p[i + 2]);
      }
      WalkDescends(edges, order, rest, b);
    }
  }

  /** If every node that needs something is placed, there is no cycle. */
  lemma BootOrderMeansAcyclic(edges: seq<Edge>, order: seq<nat>)
    requires BootOrder(edges, order) && forall e <- edges :: e.from in order
    ensures !HasCycle(edges)
  {
    forall p | IsCycle(edges, p) ensures false {
      assert Needs(edges, p[0], p[1]);
      var a :| 0 <= a < |order| && order[a] == p[0];
      WalkDescends(edges, order, p, a);
    }
  }

  /** A node met again on the path closes a cycle. */
  lemma PathCloses(edges: seq<Edge>, path: seq<nat>, node: nat)
    requires Walk(edges, path + [node]) && node in path
    ensures HasCycle(edges)
  {
    var i :| 0 <= i < |path| && path[i] == node;
    var p := path[i..] + [node];
    forall k | 0 <= k < |p| - 1 ensures Needs(edges, p[k], p[k + 1]) {
      assert Needs(edges, (path + [node])[i + k], (path + [node])[i + k + 1]);
    }
    assert IsCycle(edges, p);
  }

  lemma ExtendWalk(edges: seq<Edge>, p: seq<nat>, v: nat)
    requires p != [] && Walk(edges, p) && Needs(edges, p[|p| - 1], v)
    ensures Walk(edges, p + [v])
  {}

  /** Placing a node whose needs are all placed. */
  lemma PlaceNode(edges: seq<Edge>, order: seq<nat>, node: nat)
    requires BootOrder(edges, order) && node !in order
    requires forall v :: Needs(edges, node, v) ==> v in order
    ensures BootOrder(edges, order + [node])
  {
    var o := order + [node];
    forall i, v | 0 <= i < |o| && Needs(edges, o[i], v) ensures v in o[..i] {
      assert o[..i] == order[..i];
      if i == |order| { assert order[..i] == order; }
    }
  }

  // ---- the search ---------------------------------------------------------------------------

  /** `path` is the chain of grey nodes that led here, `order` the nodes in the order they turned
      black. The measure is the number of white nodes. */
  method Visit(node: nat, edges: seq<Edge>, colors: array<Color>, ghost path: seq<nat>, ghost order: seq<nat>)
      returns (ok: bool, ghost order': seq<nat>)
    requires Within(edges, colors.Length) && node < colors.Length
    requires Walk(edges, path + [node])
    requires forall u :: 0 <= u < colors.Length ==> (colors[u] == Grey <==> u in path)
    requires BootOrder(edges, order) && Blackened(colors[..], order)
    modifies colors
    ensures !ok ==> HasCycle(edges)
    ensures ok ==> colors[node] == Black
    ensures ok ==> forall u :: 0 <= u < colors.Length ==> (colors[u] == Grey <==> u in path)
    ensures ok ==> forall u :: 0 <= u < colors.Length && old(colors[u]) == Black ==> colors[u] == Black
    ensures ok ==> BootOrder(edges, order') && Blackened(colors[..], order')
    decreases |Whites(colors[..])|
  {
    order' := order;
    if colors[node] == Grey {
      PathCloses(edges, path, node);
      return false, order;
    }
    if colors[node] == Black { return true, order; }
    ghost var before := Whites(colors[..]);
    colors[node] := Grey;
    ghost var grey := path + [node];
    assert Whites(colors[..]) <= before - {node};
    for i := 0 to |edges|
      invariant forall u :: 0 <= u < colors.Length ==> (colors[u] == Grey <==> u in grey)
      invariant forall u :: 0 <= u < colors.Length && old(colors[u]) == Black ==> colors[u] == Black
      invariant BootOrder(edges, order') && Blackened(colors[..], order')
      invariant Whites(colors[..]) <= before - {node}
      invariant forall j :: 0 <= j < i && edges[j].from == node && edges[j].relation == Required ==>
                              colors[edges[j].to] == Black
    {
      if edges[i].relation != Required || edges[i].from != node { continue; }
      assert edges[i] in edges;
      assert Needs(edges, node, edges[i].to);
      ExtendWalk(edges, grey, edges[i].to);
      FewerWhites(colors[..], before, node);
      ghost var now := colors[..];
      ok, order' := Visit(edges[i].to, edges, colors, grey, order');
      if !ok { return; }
      assert Whites(colors[..]) <= Whites(now);
    }
    forall v | Needs(edges, node, v) ensures v in order' {
      var j :| 0 <= j < |edges| && edges[j] == Edge(node, v, Required);
    }
    PlaceNode(edges, order', node);
    colors[node] := Black;
    order' := order' + [node];
    ok := true;
  }

  lemma FewerWhites(colors: seq<Color>, before: set<nat>, node: nat)
    requires node in before && Whites(colors) <= before - {node}
    ensures |Whites(colors)| < |before|
  {
    SubsetSize(Whites(colors), before - {node});
  }

  lemma {:induction false} SubsetSize(a: set<nat>, b: set<nat>)
    requires a <= b
    ensures |a| <= |b|
    decreases |a|
  {
    if a != {} {
      var x :| x in a;
      SubsetSize(a - {x}, b - {x});
    }
  }

  /** Succeeds exactly when the required edges have no directed cycle, and then the order in which the
      nodes turned black is a boot order of all of them. */
  method DetectCycles(n: nat, edges: seq<Edge>) returns (acyclic: bool, ghost order: seq<nat>)
    requires Within(edges, n)
    ensures acyclic <==> !HasCycle(edges)
    ensures acyclic ==> BootOrder(edges, order) && forall u: nat :: u in order <==> u < n
  {
    var colors := new Color[n](_ => White);
    order := [];
    for i := 0 to n
      invariant forall u :: 0 <= u < n ==> colors[u] != Grey
      invariant forall u :: 0 <= u < i ==> colors[u] == Black
      invariant BootOrder(edges, order) && Blackened(colors[..], order)
    {
      if colors[i] == White {
        acyclic, order := Visit(i, edges, colors, [], order);
        if !acyclic { return; }
      }
    }
    BootOrderMeansAcyclic(edges, order);
    acyclic := true;
  }

  // ---- configuration checks -----------------------------------------------------------------

  function EdgeError(enabled: set<nat>, e: Edge): Option<Error> {
    match e.relation
    case Required => if e.from in enabled && e.to !in enabled then Some(MissingRequiredDependency) else None
    case Conflicts => if e.from in enabled && e.to in enabled then Some(ConflictingFeatures) else None
    case Optional => None
  }

  /** A feature is enabled without one that it requires. */
  ghost predicate Misses(enabled: set<nat>, e: Edge) {
    e.relation == Required && e.from in enabled && e.to !in enabled
  }

  /** Two conflicting features are enabled. */
  ghost predicate Clashes(enabled: set<nat>, e: Edge) {
    e.relation == Conflicts && e.from in enabled && e.to in enabled
  }

  /** The first edge that is violated. */
  ghost predicate FirstOffence(enabled: set<nat>, edges: seq<Edge>, i: int) {
    && 0 <= i < |edges| && (Misses(enabled, edges[i]) || Clashes(enabled, edges[i]))
    && forall j :: 0 <= j < i ==> !Misses(enabled, edges[j]) && !Clashes(enabled, edges[j])
  }

  /** An enabled configuration that can be booted. */
  ghost predicate Consistent(enabled: set<nat>, edges: seq<Edge>) {
    && (forall u, v :: u in enabled && Needs(edges, u, v) ==> v in enabled)
    && (forall e <- edges :: e.relation == Conflicts ==> !(e.from in enabled && e.to in enabled))
  }

  /** Accepts exactly the consistent configurations over an acyclic graph. A refusal carries the error
      of the first offending edge, or the cycle if no edge offends. On acceptance the enabled
      features can be booted in the returned order: everything a feature needs is enabled and comes
      before it. */
  method Validate(n: nat, enabled: set<nat>, edges: seq<Edge>) returns (error: Option<Error>, ghost order: seq<nat>)
    requires Within(edges, n) && forall u <- enabled :: u < n
    ensures error.None? <==> Consistent(enabled, edges) && !HasCycle(edges)
    ensures error == Some(DependencyCycle) <==> Consistent(enabled, edges) && HasCycle(edges)
    ensures error == Some(MissingRequiredDependency) <==>
              exists i :: FirstOffence(enabled, edges, i) && Misses(enabled, edges[i])
    ensures error == Some(ConflictingFeatures) <==>
              exists i :: FirstOffence(enabled, edges, i) && Clashes(enabled, edges[i])
    ensures error.None? ==> BootOrder(edges, order) && forall u <- enabled :: u in order
  {
    order := [];
    for i := 0 to |edges|
      invariant forall j :: 0 <= j < i ==> EdgeError(enabled, edges[j]).None?
    {
      error := EdgeError(enabled, edges[i]);
      if error.Some? {
        Offends(enabled, edges, i);
        FirstIsUnique(enabled, edges, i);
        return;
      }
    }
    forall u, v | u in enabled && Needs(edges, u, v) ensures v in enabled {
      var j :| 0 <= j < |edges| && edges[j] == Edge(u, v, Required);
      assert EdgeError(enabled, edges[j]).None?;
    }
    forall e <- edges | e.relation == Conflicts ensures !(e.from in enabled && e.to in enabled) {
      var j :| 0 <= j < |edges| && edges[j] == e;
      assert EdgeError(enabled, edges[j]).None?;
    }
    assert forall i :: !FirstOffence(enabled, edges, i);
    var acyclic;
    acyclic, order := DetectCycles(n, edges);
    error := if acyclic then None else Some(DependencyCycle);
  }

  lemma FirstIsUnique(enabled: set<nat>, edges: seq<Edge>, i: nat)
    requires FirstOffence(enabled, edges, i)
    ensures forall k :: FirstOffence(enabled, edges, k) ==> k == i
  {
  }

  lemma Offends(enabled: set<nat>, edges: seq<Edge>, i: nat)
    requires i < |edges| && EdgeError(enabled, edges[i]).Some?
    ensures !Consistent(enabled, edges)
  {
    assert edges[i] in edges;
    if edges[i].relation == Required { assert Needs(edges, edges[i].from, edges[i].to); }
  }
}
