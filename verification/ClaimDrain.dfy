/** No event is lost or handed out twice: once every lease has been requeued, claiming until nothing is
    left returns each unsettled event once, in order. */
module ClaimDrain {
  import opened KeyOrder
  import opened ControlStore
  import opened LeaseSafety

  datatype Call = Call(worker: Text, nowMs: int, untilMs: int)

  /** The tables after the calls; a call that finds nothing changes nothing. */
  function After(t: Tables, calls: seq<Call>): Tables {
    if calls == [] then t
    else
      var p := After(t, calls[..|calls| - 1]);
      var c := calls[|calls| - 1];
      if FreeRanks(p) == {} then p else ClaimRow(p, c.worker, c.nowMs, c.untilMs)
  }

  lemma RankInjective(a: Text, x: Row, b: Text, y: Row)
    ensures Rank(a, x) == Rank(b, y) ==> a == b
  {
    assert Rank(a, x)[1..] == a && Rank(b, y)[1..] == b;
  }

  lemma ClaimRemovesLeast(t: Tables, c: Call)
    requires FreeRanks(t) != {}
    ensures FreeRanks(ClaimRow(t, c.worker, c.nowMs, c.untilMs)) == FreeRanks(t) - {Least(FreeRanks(t))}
  {
    var id := Candidate(t);
    var t' := ClaimRow(t, c.worker, c.nowMs, c.untilMs);
    forall x <- t.events ensures t'.events[x].envelope == t.events[x].envelope {}
    forall k ensures k in FreeRanks(t') <==> k in FreeRanks(t) && k != Least(FreeRanks(t)) {
      if k in FreeRanks(t') {
        var x :| x in t'.events && t'.events[x].state.Free() && Rank(x, t'.events[x]) == k;
        assert Rank(x, t.events[x]) == k;
        RankInjective(x, t.events[x], id, t.events[id]);
      }
      if k in FreeRanks(t) && k != Least(FreeRanks(t)) {
        var x :| x in t.events && t.events[x].state.Free() && Rank(x, t.events[x]) == k;
        assert t'.events[x] == t.events[x];
      }
    }
  }

  /** After n calls the first n of the waiting events are gone from the queue. */
  lemma {:induction false} QueueAfter(t: Tables, calls: seq<Call>)
    requires |calls| <= |FreeRanks(t)|
    ensures Sorted(FreeRanks(After(t, calls))) == Sorted(FreeRanks(t))[|calls|..]
    decreases |calls|
  {
    if calls != [] {
      var n := |calls| - 1;
      QueueAfter(t, calls[..n]);
      var p := After(t, calls[..n]);
      assert |Sorted(FreeRanks(p))| == |FreeRanks(t)| - n;
      assert FreeRanks(p) != {};
      ClaimRemovesLeast(p, calls[n]);
      SortedTail(FreeRanks(p));
      assert Sorted(FreeRanks(t))[n..][1..] == Sorted(FreeRanks(t))[n + 1..];
    }
  }

  lemma SortedTail(ks: set<Key>)
    requires ks != {}
    ensures Sorted(ks - {Least(ks)}) == Sorted(ks)[1..] && Sorted(ks)[0] == Least(ks)
  {}

  /** Call number n claims the n-th waiting event. */
  lemma NextClaim(t: Tables, calls: seq<Call>)
    requires |calls| < |FreeRanks(t)|
    ensures FreeRanks(After(t, calls)) != {}
    ensures Rank(Candidate(After(t, calls)), After(t, calls).events[Candidate(After(t, calls))])
         == Sorted(FreeRanks(t))[|calls|]
  {
    QueueAfter(t, calls);
    var p := After(t, calls);
    assert |Sorted(FreeRanks(p))| > 0;
    SortedTail(FreeRanks(p));
  }

  ghost predicate AllRunOut(t: Tables, nowMs: int) {
    forall id <- t.events :: t.events[id].leaseUntilMs.Some? ==> t.events[id].leaseUntilMs.value <= nowMs
  }

  /** Requeueing past every lease leaves waiting exactly the events that are not settled. */
  lemma RequeueFreesUnsettled(s: System, nowMs: int, id: Text)
    requires Inv(s) && AllRunOut(s.tables, nowMs) && id in s.tables.events
    ensures var t := RequeueAll(s.tables, nowMs);
            && id in t.events
            && (t.events[id].state.Free() <==> !s.tables.events[id].state.Settled())
            && (Rank(id, t.events[id]) in FreeRanks(t) <==> !s.tables.events[id].state.Settled())
  {
    assert RowOk(s, id);
    var t := RequeueAll(s.tables, nowMs);
    var k := Rank(id, t.events[id]);
    if k in FreeRanks(t) {
      var x :| x in t.events && t.events[x].state.Free() && Rank(x, t.events[x]) == k;
      RankInjective(x, t.events[x], id, t.events[id]);
    }
  }

  /** Claims keep the rank of every row. */
  lemma {:induction false} RanksStay(t: Tables, calls: seq<Call>, id: Text)
    requires id in t.events
    ensures id in After(t, calls).events && Rank(id, After(t, calls).events[id]) == Rank(id, t.events[id])
    decreases |calls|
  {
    if calls != [] { RanksStay(t, calls[..|calls| - 1], id); }
  }

  lemma {:induction false} EventsStay(t: Tables, calls: seq<Call>)
    ensures After(t, calls).events.Keys == t.events.Keys
    decreases |calls|
  {
    if calls != [] { EventsStay(t, calls[..|calls| - 1]); }
  }

  /** In every reachable state: requeue past every lease, then claim. Each unsettled event is returned
      by exactly one of the calls, no settled event by any, the order is creation time then id, and
      when the calls are as many as the waiting events nothing is available any more. */
  lemma EveryUnsettledEventOnce(
      clock: int, steps: seq<Timed>, e: System, nowMs: int, t: Tables, calls: seq<Call>, id: Text)
    requires e == Run(Opened(clock), steps) && AllRunOut(e.tables, nowMs) && t == RequeueAll(e.tables, nowMs)
    requires |calls| == |FreeRanks(t)| && id in e.tables.events
    ensures !e.tables.events[id].state.Settled() <==> exists n :: 0 <= n < |calls| && ClaimsAt(t, calls, n, id)
    ensures forall m, n :: 0 <= m < |calls| && 0 <= n < |calls|
                           && ClaimsAt(t, calls, m, id) && ClaimsAt(t, calls, n, id)
                           ==> m == n
    ensures forall m, n, other :: 0 <= m < n < |calls| && ClaimsAt(t, calls, m, id) && ClaimsAt(t, calls, n, other)
                                  ==> other in e.tables.events && Earlier(e.tables, id, other)
    ensures FreeRanks(After(t, calls)) == {}
  {
    OpenedOk(clock);
    RunKeepsInv(Opened(clock), steps);
    RequeueFreesUnsettled(e, nowMs, id);
    ClaimedIffWaiting(t, calls, id);
    NothingLeft(t, calls);
    OnceInOrder(e.tables, nowMs, t, calls, id);
  }

  lemma OnceInOrder(before: Tables, nowMs: int, t: Tables, calls: seq<Call>, id: Text)
    requires t == RequeueAll(before, nowMs) && |calls| == |FreeRanks(t)| && id in before.events
    ensures forall m, n :: 0 <= m < |calls| && 0 <= n < |calls|
                           && ClaimsAt(t, calls, m, id) && ClaimsAt(t, calls, n, id)
                           ==> m == n
    ensures forall m, n, other :: 0 <= m < n < |calls| && ClaimsAt(t, calls, m, id) && ClaimsAt(t, calls, n, other)
                                  ==> other in before.events && Earlier(before, id, other)
  {
    forall m, n | 0 <= m < |calls| && 0 <= n < |calls| && ClaimsAt(t, calls, m, id) && ClaimsAt(t, calls, n, id)
      ensures m == n
    {
      ClaimedOnce(t, calls, m, n, id);
    }
    forall m, n, other | 0 <= m < n < |calls| && ClaimsAt(t, calls, m, id) && ClaimsAt(t, calls, n, other)
      ensures other in before.events && Earlier(before, id, other)
    {
      ClaimedInOrder(t, calls, m, n, id, other);
    }
  }

  /** Created before the other event, or at the same time with the smaller id. */
  ghost predicate Earlier(t: Tables, id: Text, other: Text)
    requires id in t.events && other in t.events
  {
    var a, b := t.events[id].envelope.createdAtMs, t.events[other].envelope.createdAtMs;
    a < b || (a == b && Less(id, other))
  }

  lemma ClaimedInOrder(t: Tables, calls: seq<Call>, m: nat, n: nat, id: Text, other: Text)
    requires |calls| == |FreeRanks(t)| && m < n < |calls|
    requires ClaimsAt(t, calls, m, id) && ClaimsAt(t, calls, n, other)
    ensures id in t.events && other in t.events && Earlier(t, id, other)
  {
    EventsStay(t, calls[..m]);
    EventsStay(t, calls[..n]);
    ClaimsExactly(t, calls, m, id);
    ClaimsExactly(t, calls, n, other);
    RankOrder(id, t.events[id], other, t.events[other]);
  }

  lemma NothingLeft(t: Tables, calls: seq<Call>)
    requires |calls| == |FreeRanks(t)|
    ensures FreeRanks(After(t, calls)) == {}
  {
    QueueAfter(t, calls);
    assert |Sorted(FreeRanks(After(t, calls)))| == 0;
  }

  lemma ClaimedIffWaiting(t: Tables, calls: seq<Call>, id: Text)
    requires |calls| == |FreeRanks(t)| && id in t.events
    ensures Rank(id, t.events[id]) in FreeRanks(t) <==> exists n :: 0 <= n < |calls| && ClaimsAt(t, calls, n, id)
  {
    var k := Rank(id, t.events[id]);
    if k in FreeRanks(t) {
      assert k in Sorted(FreeRanks(t));
      var n :| 0 <= n < |calls| && Sorted(FreeRanks(t))[n] == k;
      ClaimsExactly(t, calls, n, id);
    }
    if n :| 0 <= n < |calls| && ClaimsAt(t, calls, n, id) {
      ClaimsExactly(t, calls, n, id);
    }
  }

  ghost predicate ClaimsAt(t: Tables, calls: seq<Call>, n: nat, id: Text)
    requires n < |calls|
  {
    FreeRanks(After(t, calls[..n])) != {} && Candidate(After(t, calls[..n])) == id
  }

  lemma ClaimsExactly(t: Tables, calls: seq<Call>, n: nat, id: Text)
    requires |calls| == |FreeRanks(t)| && n < |calls| && id in t.events
    ensures ClaimsAt(t, calls, n, id) <==> Sorted(FreeRanks(t))[n] == Rank(id, t.events[id])
    ensures Sorted(FreeRanks(t))[n] in FreeRanks(t)
  {
    NextClaim(t, calls[..n]);
    RanksStay(t, calls[..n], id);
    var p := After(t, calls[..n]);
    var c := Candidate(p);
    if Sorted(FreeRanks(t))[n] == Rank(id, t.events[id]) { RankInjective(c, p.events[c], id, p.events[id]); }
  }

  lemma ClaimedOnce(t: Tables, calls: seq<Call>, m: nat, n: nat, id: Text)
    requires |calls| == |FreeRanks(t)| && m < |calls| && n < |calls|
    requires ClaimsAt(t, calls, m, id) && ClaimsAt(t, calls, n, id)
    ensures m == n
  {
    EventsStay(t, calls[..m]);
    ClaimsExactly(t, calls, m, id);
    ClaimsExactly(t, calls, n, id);
    var s := Sorted(FreeRanks(t));
    if m != n {
      assert Less(s[if m < n then m else n], s[if m < n then n else m]);
      LessIrreflexive(s[m]);
    }
  }
}
