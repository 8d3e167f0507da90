/** Rendezvous placement: replicas are the healthy nodes of highest score, ties broken by index. The
    score is any function, so equal scores are part of every result. */
module Placement {
  import opened Common

  type Score = (Bytes, Bytes) -> nat

  datatype Node = Node(id: Bytes, healthy: bool)

  datatype Error = ClusterFull | DuplicateNode | UnknownNode | NoHealthyNodes | InvalidReplicationFactor

  /** The scores of the nodes for one key. */
  function Scores(nodes: seq<Node>, score: Score, key: Bytes): seq<nat> {
    seq<nat>(|nodes|, i requires 0 <= i < |nodes| => score(key, nodes[i].id))
  }

  function Healthy(nodes: seq<Node>): set<nat> {
    set i: nat | i < |nodes| && nodes[i].healthy
  }

  /** a is preferred to b. */
  predicate Beats(sc: seq<nat>, a: nat, b: nat)
    requires a < |sc| && b < |sc|
  {
    sc[a] > sc[b] || (sc[a] == sc[b] && a < b)
  }

  ghost predicate IsBest(sc: seq<nat>, among: set<nat>, b: nat)
    requires forall i <- among :: i < |sc|
  {
    b in among && forall i <- among :: i == b || Beats(sc, b, i)
  }

  lemma {:induction false} BestExists(sc: seq<nat>, among: set<nat>)
    requires among != {} && forall i <- among :: i < |sc|
    ensures exists b :: IsBest(sc, among, b)
    decreases |among|
  {
    var x :| x in among;
    var rest := among - {x};
    if rest == {} {
      assert among == {x};
      assert IsBest(sc, among, x);
    } else {
      BestExists(sc, rest);
      var b :| IsBest(sc, rest, b);
      var best := if Beats(sc, x, b) then x else b;
      forall i <- among ensures i == best || Beats(sc, best, i) {
        assert i != x ==> i in rest;
      }
      assert IsBest(sc, among, best);
    }
  }

  ghost function Best(sc: seq<nat>, among: set<nat>): (b: nat)
    requires among != {} && forall i <- among :: i < |sc|
    ensures IsBest(sc, among, b)
  {
    BestExists(sc, among);
    var b :| IsBest(sc, among, b);
    b
  }

  /** The first k of the set in order of preference. */
  ghost function Top(sc: seq<nat>, among: set<nat>, k: nat): (r: seq<nat>)
    requires forall i <- among :: i < |sc|
    decreases k
  {
    if k == 0 || among == {} then []
    else
      var b := Best(sc, among);
      [b] + Top(sc, among - {b}, k - 1)
  }

  // ---- what Top means -----------------------------------------------------------------------

  ghost predicate Ranked(sc: seq<nat>, r: seq<nat>)
    requires forall i :: 0 <= i < |r| ==> r[i] < |sc|
  {
    forall i, j :: 0 <= i < j < |r| ==> Beats(sc, r[i], r[j])
  }

  /** Top-k, said without recursion: members of the set in strict order of preference, every member
      left out is beaten by every member chosen, and k are chosen unless the set is smaller. */
  ghost predicate IsTop(sc: seq<nat>, among: set<nat>, k: nat, r: seq<nat>)
    requires forall i <- among :: i < |sc|
  {
    && (forall i :: 0 <= i < |r| ==> r[i] in among)
    && Ranked(sc, r)
    && (forall x <- among, y <- r :: x !in r ==> Beats(sc, y, x))
    && |r| == (if k <= |among| then k else |among|)
  }

  lemma {:induction false} TopIsTop(sc: seq<nat>, among: set<nat>, k: nat)
    requires forall i <- among :: i < |sc|
    ensures IsTop(sc, among, k, Top(sc, among, k))
    decreases k
  {
    if k > 0 && among != {} {
      var b := Best(sc, among);
      var rest := among - {b};
      TopIsTop(sc, rest, k - 1);
      var t := Top(sc, rest, k - 1);
      var r := [b] + t;
      assert |among| == |rest| + 1;
      forall x <- among, y <- r | x !in r ensures Beats(sc, y, x) {
        assert x != b && x in rest && x !in t;
        assert y == b || y in t;
      }
      assert Ranked(sc, r);
    }
  }

  /** The next factor appends one node at most. */
  lemma {:induction false} NextFactor(sc: seq<nat>, among: set<nat>, k: nat)
    requires forall i <- among :: i < |sc|
    ensures Top(sc, among, k) <= Top(sc, among, k + 1)
    ensures |Top(sc, among, k + 1)| <= |Top(sc, among, k)| + 1
    decreases k
  {
    if k > 0 && among != {} {
      NextFactor(sc, among - {Best(sc, among)}, k - 1);
    }
  }

  /** A smaller factor gives a prefix, shorter by the difference at most. */
  lemma {:induction false} SmallerFactor(sc: seq<nat>, among: set<nat>, j: nat, k: nat)
    requires (forall i <- among :: i < |sc|) && j <= k
    ensures Top(sc, among, j) <= Top(sc, among, k)
    ensures |Top(sc, among, k)| <= |Top(sc, among, j)| + (k - j)
    decreases k
  {
    if j < k {
      SmallerFactor(sc, among, j, k - 1);
      NextFactor(sc, among, k - 1);
    }
  }

  function Without(r: seq<nat>, x: nat): seq<nat> {
    if r == [] then [] else if r[0] == x then r[1..] else [r[0]] + Without(r[1..], x)
  }

  lemma BestWithout(sc: seq<nat>, among: set<nat>, x: nat)
    requires forall i <- among :: i < |sc|
    requires among != {} && x != Best(sc, among)
    ensures among - {x} != {} && Best(sc, among - {x}) == Best(sc, among)
  {
    assert Best(sc, among) in among - {x};
    var b, c := Best(sc, among), Best(sc, among - {x});
    assert IsBest(sc, among, b) && IsBest(sc, among - {x}, c);
  }

  /** Removing a node that was not chosen changes nothing; removing one that was keeps the others in
      order and appends at most one. */
  lemma {:induction false} RemoveOne(sc: seq<nat>, among: set<nat>, k: nat, x: nat)
    requires forall i <- among :: i < |sc|
    ensures var before, after := Top(sc, among, k), Top(sc, among - {x}, k);
            && (x !in before ==> after == before)
            && (x in before ==> Without(before, x) <= after && |after| <= |before|)
    decreases k
  {
    if k > 0 && among != {} {
      var b := Best(sc, among);
      if b == x {
        NextFactor(sc, among - {x}, k - 1);
      } else {
        BestWithout(sc, among, x);
        RemoveOne(sc, among - {b}, k - 1, x);
        assert among - {x} - {b} == among - {b} - {x};
      }
    } else if among == {} {
      assert among - {x} == {};
    }
  }

  lemma {:induction false} WithoutShorter(r: seq<nat>, x: nat)
    requires x in r
    ensures |Without(r, x)| == |r| - 1
    decreases |r|
  {
    if r[0] != x { WithoutShorter(r[1..], x); }
  }

  // ---- the same membership gives the same replicas ------------------------------------------

  ghost predicate Within(s: set<nat>, n: nat) {
    forall i <- s :: i < n
  }

  /** The ids of the chosen nodes, in order. */
  function Ids(nodes: seq<Node>, r: seq<nat>): seq<Bytes> {
    if r == [] then [] else (if r[0] < |nodes| then [nodes[r[0]].id] else []) + Ids(nodes, r[1..])
  }

  ghost function IdSet(nodes: seq<Node>, s: set<nat>): set<Bytes> {
    set i | i in s && i < |nodes| :: nodes[i].id
  }

  ghost predicate DistinctIds(nodes: seq<Node>, s: set<nat>)
    requires Within(s, |nodes|)
  {
    forall i <- s, j <- s :: nodes[i].id == nodes[j].id ==> i == j
  }

  /** No replica has the score of another member, chosen or not. */
  ghost predicate Untied(nodes: seq<Node>, s: set<nat>, score: Score, key: Bytes, k: nat)
    requires Within(s, |nodes|)
  {
    var sc := Scores(nodes, score, key);
    forall i <- Top(sc, s, k), j <- s :: j < |sc| && i < |sc| && sc[i] == sc[j] ==> i == j
  }

  /** The same members, each listed once, perhaps in another order. */
  ghost predicate SameMembers(a: seq<Node>, sa: set<nat>, b: seq<Node>, sb: set<nat>) {
    && Within(sa, |a|) && Within(sb, |b|) && DistinctIds(a, sa) && DistinctIds(b, sb)
    && IdSet(a, sa) == IdSet(b, sb)
  }

  lemma DropMember(a: seq<Node>, s: set<nat>, x: nat)
    requires Within(s, |a|) && DistinctIds(a, s) && x in s
    ensures IdSet(a, s - {x}) == IdSet(a, s) - {a[x].id}
  {
    forall id ensures id in IdSet(a, s - {x}) <==> id in IdSet(a, s) && id != a[x].id {
      if id in IdSet(a, s) && id != a[x].id {
        var i :| i in s && i < |a| && a[i].id == id;
        assert i in s - {x};
      }
    }
  }

  lemma SomeMember(b: seq<Node>, s: set<nat>)
    requires Within(s, |b|)
    ensures s != {} ==> IdSet(b, s) != {}
  {
    if s != {} {
      var j :| j in s;
      assert b[j].id in IdSet(b, s);
    }
  }

  lemma SameBest(a: seq<Node>, sa: set<nat>, b: seq<Node>, sb: set<nat>, score: Score, key: Bytes)
    requires SameMembers(a, sa, b, sb) && sa != {}
    requires var sca := Scores(a, score, key);
             forall j <- sa :: sca[Best(sca, sa)] == sca[j] ==> Best(sca, sa) == j
    ensures sb != {}
    ensures a[Best(Scores(a, score, key), sa)].id == b[Best(Scores(b, score, key), sb)].id
  {
    var sca, scb := Scores(a, score, key), Scores(b, score, key);
    var x := Best(sca, sa);
    assert a[x].id in IdSet(b, sb);
    var j :| j in sb && j < |b| && b[j].id == a[x].id;
    var y := Best(scb, sb);
    assert b[y].id in IdSet(a, sa);
    var i :| i in sa && i < |a| && a[i].id == b[y].id;
    assert sca[i] == scb[y] && sca[x] == scb[j];
  }

  /** Untied replicas: the first is untied, and so are the others among the rest. */
  lemma UntiedRest(a: seq<Node>, sa: set<nat>, score: Score, key: Bytes, k: nat, x: nat)
    requires Within(sa, |a|) && sa != {} && k > 0 && Untied(a, sa, score, key, k)
    requires x == Best(Scores(a, score, key), sa)
    ensures forall j <- sa :: Scores(a, score, key)[x] == Scores(a, score, key)[j] ==> x == j
    ensures Untied(a, sa - {x}, score, key, k - 1)
  {
    var sc := Scores(a, score, key);
    var rest := Top(sc, sa - {x}, k - 1);
    assert Top(sc, sa, k) == [x] + rest;
    assert x in Top(sc, sa, k) && forall i <- rest :: i in Top(sc, sa, k);
  }

  /** If no replica is tied, the replica ids depend on the membership alone, not on the order in which the nodes
      were registered. */
  lemma {:induction false} OrderOfRegistrationIsIrrelevant(
      a: seq<Node>, sa: set<nat>, b: seq<Node>, sb: set<nat>, score: Score, key: Bytes, k: nat)
    requires SameMembers(a, sa, b, sb) && Untied(a, sa, score, key, k)
    ensures Ids(a, Top(Scores(a, score, key), sa, k)) == Ids(b, Top(Scores(b, score, key), sb, k))
    decreases k
  {
    SomeMember(b, sb);
    if sa != {} && k > 0 {
      var x := Best(Scores(a, score, key), sa);
      UntiedRest(a, sa, score, key, k, x);
      SameBest(a, sa, b, sb, score, key);
      var y := Best(Scores(b, score, key), sb);
      DropMember(a, sa, x);
      DropMember(b, sb, y);
      OrderOfRegistrationIsIrrelevant(a, sa - {x}, b, sb - {y}, score, key, k - 1);
      IdsCons(a, x, Top(Scores(a, score, key), sa - {x}, k - 1));
      IdsCons(b, y, Top(Scores(b, score, key), sb - {y}, k - 1));
    }
  }

  function Swapped(nodes: seq<Node>, i: nat, j: nat): (r: seq<Node>)
    requires i < |nodes| && j < |nodes|
    ensures |r| == |nodes| && r[i] == nodes[j] && r[j] == nodes[i]
    ensures forall x :: 0 <= x < |nodes| && x != i && x != j ==> r[x] == nodes[x]
  {
    nodes[i := nodes[j]][j := nodes[i]]
  }

  function Partner(i: nat, j: nat, x: nat): nat {
    if x == i then j else if x == j then i else x
  }

  lemma SwappedAt(a: seq<Node>, i: nat, j: nat, x: nat)
    requires i < |a| && j < |a| && x < |a|
    ensures Swapped(a, i, j)[x] == a[Partner(i, j, x)] && Swapped(a, i, j)[Partner(i, j, x)] == a[x]
  {
  }

  lemma SwappedIds(a: seq<Node>, b: seq<Node>, s: set<nat>, i: nat, j: nat, id: Bytes)
    requires Within(s, |a|) && i in s && j in s && b == Swapped(a, i, j)
    ensures id in IdSet(a, s) <==> id in IdSet(b, s)
  {
    if id in IdSet(a, s) {
      var x :| x in s && x < |a| && a[x].id == id;
      SwappedAt(a, i, j, x);
      assert Partner(i, j, x) in s;
    }
    if id in IdSet(b, s) {
      var x :| x in s && x < |b| && b[x].id == id;
      SwappedAt(a, i, j, x);
      assert Partner(i, j, x) in s;
    }
  }

  lemma SwappedMembers(a: seq<Node>, b: seq<Node>, s: set<nat>, i: nat, j: nat)
    requires Within(s, |a|) && DistinctIds(a, s) && i in s && j in s && b == Swapped(a, i, j)
    ensures SameMembers(a, s, b, s)
  {
    forall id ensures id in IdSet(a, s) <==> id in IdSet(b, s) { SwappedIds(a, b, s, i, j, id); }
    forall x <- s, y <- s | b[x].id == b[y].id ensures x == y {
      SwappedAt(a, i, j, x);
      SwappedAt(a, i, j, y);
      assert Partner(i, j, x) in s && Partner(i, j, y) in s;
    }
  }

  lemma {:induction false} IdsDiffer(a: seq<Node>, b: seq<Node>, r: seq<nat>, i: nat)
    requires i in r && |a| == |b| && i < |a| && a[i].id != b[i].id && forall x <- r :: x < |a|
    ensures Ids(a, r) != Ids(b, r)
    decreases |r|
  {
    var x, rest := r[0], r[1..];
    assert r == [x] + rest && x in r && forall y <- rest :: y in r;
    IdsCons(a, x, rest);
    IdsCons(b, x, rest);
    if x == i {
      assert Ids(a, r)[0] != Ids(b, r)[0];
    } else {
      IdsDiffer(a, b, rest, i);
      assert Ids(a, r)[1..] == Ids(a, rest) && Ids(b, r)[1..] == Ids(b, rest);
    }
  }

  /** A replica tied with another member: registering the two the other way round changes the replica ids. */
  lemma TieMatters(a: seq<Node>, s: set<nat>, score: Score, key: Bytes, k: nat, i: nat, j: nat)
    requires Within(s, |a|) && DistinctIds(a, s) && i in Top(Scores(a, score, key), s, k) && j in s && i in s && i != j
    requires Scores(a, score, key)[i] == Scores(a, score, key)[j]
    ensures SameMembers(a, s, Swapped(a, i, j), s)
    ensures var b := Swapped(a, i, j);
            Ids(a, Top(Scores(a, score, key), s, k)) != Ids(b, Top(Scores(b, score, key), s, k))
  {
    var b, sc := Swapped(a, i, j), Scores(a, score, key);
    SwappedMembers(a, b, s, i, j);
    assert Scores(b, score, key) == sc;
    TopIsTop(sc, s, k);
    var r := Top(sc, s, k);
    assert forall x <- r :: x in s;
    IdsDiffer(a, b, r, i);
  }

  /** The order of registration is irrelevant exactly when no replica is tied. */
  lemma RegistrationOrder(a: seq<Node>, s: set<nat>, score: Score, key: Bytes, k: nat)
    requires Within(s, |a|) && DistinctIds(a, s)
    ensures (forall b, t :: SameMembers(a, s, b, t) ==>
               Ids(a, Top(Scores(a, score, key), s, k)) == Ids(b, Top(Scores(b, score, key), t, k)))
            <==> Untied(a, s, score, key, k)
  {
    var sc := Scores(a, score, key);
    if Untied(a, s, score, key, k) {
      forall b, t | SameMembers(a, s, b, t)
        ensures Ids(a, Top(sc, s, k)) == Ids(b, Top(Scores(b, score, key), t, k))
      {
        OrderOfRegistrationIsIrrelevant(a, s, b, t, score, key, k);
      }
    } else {
      var i, j :| i in Top(sc, s, k) && j in s && j < |sc| && i < |sc| && sc[i] == sc[j] && i != j;
      TopIsTop(sc, s, k);
      TieMatters(a, s, score, key, k, i, j);
    }
  }

  lemma IdsCons(nodes: seq<Node>, x: nat, r: seq<nat>)
    requires x < |nodes|
    ensures Ids(nodes, [x] + r) == [nodes[x].id] + Ids(nodes, r)
  {
    assert ([x] + r)[1..] == r;
  }

  // ---- failover and recovery of one node ----------------------------------------------------

  function Mark(nodes: seq<Node>, i: nat, healthy: bool): seq<Node>
    requires i < |nodes|
  {
    nodes[i := nodes[i].(healthy := healthy)]
  }

  ghost function Replicas(nodes: seq<Node>, score: Score, key: Bytes, k: nat): seq<nat> {
    Top(Scores(nodes, score, key), Healthy(nodes), k)
  }

  lemma MarkedHealthy(nodes: seq<Node>, i: nat, score: Score, key: Bytes)
    requires i < |nodes|
    ensures Scores(Mark(nodes, i, false), score, key) == Scores(nodes, score, key)
    ensures Healthy(Mark(nodes, i, false)) == Healthy(nodes) - {i}
  {}

  /** Marking one node unhealthy: if it was no replica nothing moves; if it was, the others keep their
      order and at most one node joins at the end. */
  lemma MinimalDisruption(nodes: seq<Node>, i: nat, score: Score, key: Bytes, k: nat)
    requires i < |nodes|
    ensures var before, after := Replicas(nodes, score, key, k), Replicas(Mark(nodes, i, false), score, key, k);
            && (i !in before ==> after == before)
            && (i in before ==>
                  && i !in after
                  && |Without(before, i)| == |before| - 1
                  && (after == Without(before, i) || exists x :: after == Without(before, i) + [x]))
  {
    var sc, h := Scores(nodes, score, key), Healthy(nodes);
    MarkedHealthy(nodes, i, score, key);
    RemoveOne(sc, h, k, i);
    var before, after := Top(sc, h, k), Top(sc, h - {i}, k);
    if i in before {
      WithoutShorter(before, i);
      TopIsTop(sc, h - {i}, k);
      OneLonger(Without(before, i), after);
    }
  }

  lemma OneLonger(a: seq<nat>, b: seq<nat>)
    requires a <= b && |b| <= |a| + 1
    ensures b == a || exists x :: b == a + [x]
  {
    if |b| == |a| + 1 { assert b == a + [b[|a|]]; }
  }

  /** The replicas, said of scores and positions: healthy nodes, by falling score and at equal scores by rising
      position, no healthy node left out that comes before a chosen one, and `factor` of them unless fewer are
      healthy. */
  lemma ReplicasExactly(nodes: seq<Node>, score: Score, key: Bytes, factor: nat, r: seq<nat>)
    requires r == Replicas(nodes, score, key, factor)
    ensures forall i :: 0 <= i < |r| ==> r[i] < |nodes| && nodes[r[i]].healthy
    ensures forall i, j :: 0 <= i < j < |r| ==>
              var a, b := score(key, nodes[r[i]].id), score(key, nodes[r[j]].id);
              a > b || (a == b && r[i] < r[j])
    ensures forall i, y: nat :: 0 <= i < |r| && y < |nodes| && nodes[y].healthy && y !in r ==>
              var a, b := score(key, nodes[r[i]].id), score(key, nodes[y].id);
              a > b || (a == b && r[i] < y)
    ensures var healthy := set i: nat | i < |nodes| && nodes[i].healthy;
            |r| == if factor <= |healthy| then factor else |healthy|
  {
    var sc, h := Scores(nodes, score, key), Healthy(nodes);
    TopIsTop(sc, h, factor);
    assert Ranked(sc, r);
    forall i, j | 0 <= i < j < |r|
      ensures var a, b := score(key, nodes[r[i]].id), score(key, nodes[r[j]].id); a > b || (a == b && r[i] < r[j])
    {
      assert Beats(sc, r[i], r[j]);
    }
    forall i, y: nat | 0 <= i < |r| && y < |nodes| && nodes[y].healthy && y !in r
      ensures var a, b := score(key, nodes[r[i]].id), score(key, nodes[y].id); a > b || (a == b && r[i] < y)
    {
      assert y in h && Beats(sc, r[i], y);
    }
  }

  // ---- the cluster as it runs ---------------------------------------------------------------

  ghost function Elements(r: seq<nat>): set<nat> {
    set x | x in r
  }

  /** One more round of the outer loop picks the best of what is left. */
  lemma {:induction false} NextPick(sc: seq<nat>, among: set<nat>, k: nat)
    requires forall i <- among :: i < |sc|
    requires among - Elements(Top(sc, among, k)) != {}
    ensures Top(sc, among, k + 1) == Top(sc, among, k) + [Best(sc, among - Elements(Top(sc, among, k)))]
    decreases k
  {
    if k == 0 {
      assert among - Elements([]) == among;
      var b := Best(sc, among);
      assert Top(sc, among - {b}, 0) == [];
    } else {
      var b := Best(sc, among);
      var t := Top(sc, among - {b}, k - 1);
      assert Elements([b] + t) == {b} + Elements(t);
      assert among - Elements([b] + t) == among - {b} - Elements(t);
      NextPick(sc, among - {b}, k - 1);
    }
  }

  lemma {:induction false} NoMorePicks(sc: seq<nat>, among: set<nat>, k: nat, more: nat)
    requires forall i <- among :: i < |sc|
    requires among - Elements(Top(sc, among, k)) == {} && k <= more
    ensures Top(sc, among, more) == Top(sc, among, k)
    decreases k
  {
    if k == 0 {
      assert among - Elements([]) == among;
    } else if among != {} {
      var b := Best(sc, among);
      var t := Top(sc, among - {b}, k - 1);
      assert Elements([b] + t) == {b} + Elements(t);
      assert among - Elements([b] + t) == among - {b} - Elements(t);
      NoMorePicks(sc, among - {b}, k - 1, more - 1);
    }
  }

  class Cluster {
    const maxNodes: nat
    const score: Score
    const nodes: array<Node>
    var len: nat

    ghost predicate Valid()
      reads this, nodes
    {
      && nodes.Length == maxNodes && len <= maxNodes
      && forall i, j :: 0 <= i < j < len ==> nodes[i].id != nodes[j].id
    }

    ghost function Members(): seq<Node>
      requires Valid()
      reads this, nodes
    {
      nodes[..len]
    }

    /** No two members share an id, so what is said of distinct members holds of the cluster's own. */
    lemma MembersAreDistinct()
      requires Valid()
      ensures Within(Healthy(Members()), |Members()|) && DistinctIds(Members(), Healthy(Members()))
    {
    }

    constructor (maxNodes: nat, score: Score)
      ensures Valid() && Members() == [] && this.maxNodes == maxNodes && this.score == score && fresh(nodes)
    {
      this.maxNodes := maxNodes;
      this.score := score;
      nodes := new Node[maxNodes](_ => Node([], false));
      len := 0;
    }

    method Find(id: Bytes) returns (index: int)
      requires Valid()
      ensures index == -1 <==> forall i :: 0 <= i < len ==> nodes[i].id != id
      ensures index != -1 ==> 0 <= index < len && nodes[index].id == id
      ensures index != -1 ==> forall i :: 0 <= i < index ==> nodes[i].id != id
    {
      for i := 0 to len
        invariant forall j :: 0 <= j < i ==> nodes[j].id != id
      {
        if nodes[i].id == id { return i; }
      }
      index := -1;
    }

    method Register(node: Node) returns (r: Result<nat, Error>)
      requires Valid()
      modifies this, nodes
      ensures Valid()
      ensures var dup := exists i :: 0 <= i < old(len) && old(nodes[i]).id == node.id;
              r == if dup then Err(DuplicateNode) else if old(len) >= maxNodes then Err(ClusterFull) else Ok(old(len))
      ensures Members() == if r.Ok? then old(Members()) + [node] else old(Members())
    {
      var at := Find(node.id);
      if at != -1 { return Err(DuplicateNode); }
      if len >= maxNodes { return Err(ClusterFull); }
      nodes[len] := node;
      len := len + 1;
      r := Ok(len - 1);
    }

    method SetHealthy(id: Bytes, healthy: bool) returns (r: Result<nat, Error>)
      requires Valid()
      modifies nodes
      ensures Valid()
      ensures r.Err? ==> r.error == UnknownNode && Members() == old(Members()) && forall n <- Members() :: n.id != id
      ensures r.Ok? ==> r.value < len && old(nodes[r.value]).id == id
      ensures r.Ok? ==> r.value < len && Members() == Mark(old(Members()), r.value, healthy)
      ensures r.Ok? ==> Members() == old(Members())[r.value := Node(id, healthy)]
    {
      var at := Find(id);
      if at == -1 { return Err(UnknownNode); }
      nodes[at] := nodes[at].(healthy := healthy);
      r := Ok(at);
    }

    /** The healthy node of highest score among those not chosen yet, the first one on a tie. */
    method PickBest(key: Bytes, chosen: seq<nat>) returns (best: int)
      requires Valid()
      ensures var left := Healthy(Members()) - Elements(chosen);
              var sc := Scores(Members(), score, key);
              && (best == -1 <==> left == {})
              && (best != -1 ==> 0 <= best && left != {} && best == Best(sc, left))
    {
      best := -1;
      var bestScore := 0;
      ghost var sc := Scores(Members(), score, key);
      ghost var left := Healthy(Members()) - Elements(chosen);
      for i := 0 to len
        invariant best == -1 ==> forall j <- left :: i <= j
        invariant best != -1 ==> 0 <= best < i && best in left && bestScore == sc[best]
        invariant best != -1 ==> forall j <- left :: j < i && j != best ==> Beats(sc, best, j)
      {
        if !nodes[i].healthy || i in chosen { continue; }
        var candidate := score(key, nodes[i].id);
        if best == -1 || candidate > bestScore {
          best, bestScore := i, candidate;
        }
      }
      if best != -1 { BestUnique(sc, left, best); }
    }

    method ReplicasFor(key: Bytes, factor: nat) returns (r: Result<seq<nat>, Error>)
      requires Valid()
      ensures var h := Healthy(Members());
              r == if factor == 0 || factor > maxNodes then Err(InvalidReplicationFactor)
                   else if h == {} then Err(NoHealthyNodes)
                   else Ok(Replicas(Members(), score, key, factor))
    {
      if factor == 0 || factor > maxNodes { return Err(InvalidReplicationFactor); }
      var chosen: seq<nat> := [];
      ghost var sc := Scores(Members(), score, key);
      ghost var h := Healthy(Members());
      while |chosen| < factor
        invariant |chosen| <= factor
        invariant chosen == Top(sc, h, |chosen|)
        invariant chosen != [] ==> h != {}
        decreases factor - |chosen|
      {
        var best := PickBest(key, chosen);
        if best == -1 {
          NoMorePicks(sc, h, |chosen|, factor);
          if |chosen| == 0 { assert Elements(chosen) == {}; return Err(NoHealthyNodes); }
          return Ok(chosen);
        }
        NextPick(sc, h, |chosen|);
        chosen := chosen + [best];
      }
      r := Ok(chosen);
    }
  }

  lemma BestUnique(sc: seq<nat>, among: set<nat>, b: nat)
    requires (forall i <- among :: i < |sc|) && IsBest(sc, among, b)
    ensures among != {} && Best(sc, among) == b
  {
    assert IsBest(sc, among, Best(sc, among));
  }
}
