/** What an acknowledgement is worth later: when the key it was sent for is still settled in a coordinator that
    has recovered, read off the records of the journal. */
module AckHistory {
  import opened Common
  import opened SettlementProjection
  import opened SettlementJournal
  import opened DurableSettlement

  /** The record is the last one of its event. */
  ghost predicate Latest(rs: seq<Record>, l: int) {
    0 <= l < |rs| && forall k :: l < k < |rs| ==> rs[k].eventId != rs[l].eventId
  }

  /** The key of the last record of some event, which is settled. */
  ghost predicate SettledLast(rs: seq<Record>, key: Bytes) {
    exists l :: Latest(rs, l) && rs[l].idempotencyKey == key && rs[l].state.Settled()
  }

  lemma {:induction false} LatestOf(rs: seq<Record>, i: nat) returns (l: nat)
    requires i < |rs|
    ensures i <= l && Latest(rs, l) && rs[l].eventId == rs[i].eventId
    decreases |rs|
  {
    var n := |rs| - 1;
    if rs[n].eventId == rs[i].eventId {
      l := n;
    } else {
      l := LatestOf(rs[..n], i);
      LatestLonger(rs, l);
    }
  }

  /** One more record takes the place of the last one of its event and leaves the others. */
  lemma LatestLonger(rs: seq<Record>, l: nat)
    requires rs != [] && l < |rs| - 1
    ensures Latest(rs, l) <==> Latest(rs[..|rs| - 1], l) && rs[|rs| - 1].eventId != rs[l].eventId
  {
    var init := rs[..|rs| - 1];
    assert init[l] == rs[l];
    if Latest(rs, l) {
      assert rs[|rs| - 1].eventId != rs[l].eventId;
      forall k | l < k < |init| ensures init[k].eventId != init[l].eventId { assert init[k] == rs[k]; }
    }
    if Latest(init, l) && rs[|rs| - 1].eventId != rs[l].eventId {
      forall k | l < k < |rs| ensures rs[k].eventId != rs[l].eventId {
        if k < |init| { assert init[k] == rs[k]; }
      }
    }
  }

  lemma AppliedEntries(p: Projection, r: Record, q: Projection, e: Record)
    requires Distinct(p) && Apply(p, r) == Ok(q)
    ensures e in q.entries <==> e == r || (e in p.entries && e.eventId != r.eventId)
  {
    match FindEvent(p.entries, r.eventId) {
      case None =>
      case Some(i) =>
        assert q.entries[i] == r;
        if e in p.entries && e.eventId != r.eventId {
          var j :| 0 <= j < |p.entries| && p.entries[j] == e;
          assert q.entries[j] == e;
        }
    }
  }

  /** The projection holds exactly the last record of each event. */
  lemma {:induction false} EntriesAreLatest(rs: seq<Record>, e: Record)
    requires ApplyAll(EMPTY, rs).Ok?
    ensures e in ApplyAll(EMPTY, rs).value.entries <==> exists l :: Latest(rs, l) && rs[l] == e
    decreases |rs|
  {
    if rs != [] {
      var n := |rs| - 1;
      var init := rs[..n];
      RunKeepsDistinct(init);
      EntriesAreLatest(init, e);
      AppliedEntries(ApplyAll(EMPTY, init).value, rs[n], ApplyAll(EMPTY, rs).value, e);
      LatestWithLast(rs, init, n, e);
    }
  }

  lemma LatestWithLast(rs: seq<Record>, init: seq<Record>, n: nat, e: Record)
    requires rs != [] && n == |rs| - 1 && init == rs[..n]
    ensures (exists l :: Latest(rs, l) && rs[l] == e)
            <==> e == rs[n] || (e.eventId != rs[n].eventId && exists l :: Latest(init, l) && init[l] == e)
  {
    assert Latest(rs, n);
    if l :| Latest(rs, l) && rs[l] == e {
      if l < n {
        LatestLonger(rs, l);
        assert init[l] == e;
      }
    }
    if e.eventId != rs[n].eventId && exists l :: Latest(init, l) && init[l] == e {
      var l :| Latest(init, l) && init[l] == e;
      LatestLonger(rs, l);
      assert rs[l] == e;
    }
  }

  /** A key is settled in the projection exactly when the last record of some event settles it. */
  lemma SettledIsSettledLast(rs: seq<Record>, key: Bytes)
    requires ApplyAll(EMPTY, rs).Ok?
    ensures IsSettled(ApplyAll(EMPTY, rs).value, key) <==> SettledLast(rs, key)
  {
    var p := ApplyAll(EMPTY, rs).value;
    RunKeepsDistinct(rs);
    if IsSettled(p, key) {
      var e := p.entries[FindKey(p.entries, key).value];
      assert e in p.entries;
      EntriesAreLatest(rs, e);
      var l :| Latest(rs, l) && rs[l] == e;
      assert rs[l].idempotencyKey == key && rs[l].state.Settled();
    }
    if SettledLast(rs, key) {
      var l :| Latest(rs, l) && rs[l].idempotencyKey == key && rs[l].state.Settled();
      EntriesAreLatest(rs, rs[l]);
      var i :| 0 <= i < |p.entries| && p.entries[i] == rs[l];
      SearchIsLookup(p, i);
    }
  }

  /** Once a record of an event is settled, every later one of that event is settled the same way. */
  lemma {:induction false} SettledEventStays(rs: seq<Record>, i: nat, l: nat)
    requires ApplyAll(EMPTY, rs).Ok? && i <= l < |rs| && rs[i].state.Settled() && rs[l].eventId == rs[i].eventId
    ensures rs[l].state == rs[i].state
    decreases |rs|
  {
    var n := |rs| - 1;
    var init := rs[..n];
    if l < n {
      SettledEventStays(init, i, l);
    } else if i < n {
      var k := LatestOf(init, i);
      SettledEventStays(init, i, k);
      NextRecordAllowed(rs, init, n, k);
    }
  }

  lemma NextRecordAllowed(rs: seq<Record>, init: seq<Record>, n: nat, k: nat)
    requires ApplyAll(EMPTY, rs).Ok? && rs != [] && n == |rs| - 1 && init == rs[..n]
    requires Latest(init, k) && init[k].eventId == rs[n].eventId
    ensures Allowed(init[k].state, rs[n].state)
  {
    var p := ApplyAll(EMPTY, init).value;
    RunKeepsDistinct(init);
    EntriesAreLatest(init, init[k]);
    var i :| 0 <= i < |p.entries| && p.entries[i] == init[k];
    SearchIsLookup(p, i);
    assert Validate(p, rs[n]).None?;
  }

  /** In every run, an acknowledged key has a settled record in the journal, and the last record of that record's
      event is settled too. A ready coordinator reports the key settled if that last record still carries it, and
      otherwise if and only if the last record of another event settles it. */
  lemma AckedKeyLater(j: Journal, steps: seq<Step>, e: Node, key: Bytes) returns (i: nat, l: nat)
    requires Lawful(j.codec) && AdmissibleRun(j, NEW_NODE, steps) && e == Run(j, NEW_NODE, steps)
    requires key in e.acked && e.mem.Ready()
    ensures i < |e.log| && BacksAck(j, e, key, i)
    ensures i <= l && Latest(e.log, l) && e.log[l].eventId == e.log[i].eventId && e.log[l].state.Settled()
    ensures e.log[l].idempotencyKey == key ==> IsSettled(e.mem.projection, key)
    ensures IsSettled(e.mem.projection, key) <==> SettledLast(e.log, key)
  {
    NewNodeOk(j);
    RunKeepsInv(j, NEW_NODE, steps);
    AckedKeysAreDurable(j, steps, e, key);
    i :| 0 <= i < |e.log| && BacksAck(j, e, key, i);
    l := LatestOf(e.log, i);
    SettledEventStays(e.log, i, l);
    SettledIsSettledLast(e.log, key);
  }

  /** So in a run where each event keeps its key every acknowledged key is settled in every ready coordinator. */
  lemma AckedKeyStaysSettled(j: Journal, steps: seq<Step>, e: Node, key: Bytes)
    requires Lawful(j.codec) && AdmissibleRun(j, NEW_NODE, steps) && e == Run(j, NEW_NODE, steps)
    requires key in e.acked && e.mem.Ready() && KeepsKeys(e.log)
    ensures IsSettled(e.mem.projection, key)
  {
    var i, l := AckedKeyLater(j, steps, e, key);
    if i < l { assert e.log[i].idempotencyKey == e.log[l].idempotencyKey; }
  }
}
