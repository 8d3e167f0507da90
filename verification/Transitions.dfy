/** Which snapshots the recovery projection accepts, said of the sequence of snapshots alone: a sequence is accepted
    exactly when its numbers rise, no key is taken from another event, and every event keeps three rules. */
module Transitions {
  import opened Common
  import opened SettlementProjection
  import opened SettlementJournal
  import opened DurableSettlement
  import opened AckHistory

  // ---- the three rules ----------------------------------------------------------------------

  /** A later snapshot of the same event. */
  ghost predicate Follows(rs: seq<Record>, i: int, k: int) {
    0 <= i < k < |rs| && rs[k].eventId == rs[i].eventId
  }

  /** Received and settled events were leased after they were last published or expired. */
  ghost predicate LeasedBetween(rs: seq<Record>, i: int, k: int)
    requires Follows(rs, i, k)
  {
    rs[i].state in {Published, Expired} && rs[k].state in {Received, SettledOk, SettledError} ==>
      exists j :: Follows(rs, i, j) && j < k && rs[j].state == Leased
  }

  /** No event returns to Published. */
  ghost predicate NoReturn(rs: seq<Record>, i: int, k: int)
    requires Follows(rs, i, k)
  {
    rs[k].state == Published ==> rs[i].state == Published
  }

  /** Nothing but the same settled state follows a settled one, so in particular no Expired snapshot. */
  ghost predicate SettledForGood(rs: seq<Record>, i: int, k: int)
    requires Follows(rs, i, k)
  {
    rs[i].state in {SettledOk, SettledError} ==> rs[k].state == rs[i].state
  }

  ghost predicate Keeps(rs: seq<Record>, i: int, k: int)
    requires Follows(rs, i, k)
  {
    LeasedBetween(rs, i, k) && NoReturn(rs, i, k) && SettledForGood(rs, i, k)
  }

  /** The rules hold of every two snapshots of one event. */
  ghost predicate Orderly(rs: seq<Record>) {
    forall i, k :: Follows(rs, i, k) ==> Keeps(rs, i, k)
  }

  // ---- every accepted sequence keeps them ---------------------------------------------------

  lemma FollowsInPrefix(rs: seq<Record>, init: seq<Record>, i: int, k: int)
    requires init <= rs && k < |init|
    ensures Follows(init, i, k) <==> Follows(rs, i, k)
    ensures Follows(rs, i, k) ==> (Keeps(init, i, k) <==> Keeps(rs, i, k))
  {
    if Follows(rs, i, k) {
      if j :| Follows(rs, i, j) && j < k && rs[j].state == Leased { assert Follows(init, i, j) && init[j] == rs[j]; }
      if j :| Follows(init, i, j) && j < k && init[j].state == Leased { assert Follows(rs, i, j) && init[j] == rs[j]; }
    }
  }

  /** The step from the last snapshot of the event to the next one, with the rules before it, gives the rules after. */
  lemma NextKeeps(rs: seq<Record>, i: nat, l: nat, n: nat)
    requires Follows(rs, l, n) && i <= l && rs[l].eventId == rs[i].eventId && Allowed(rs[l].state, rs[n].state)
    requires i < l ==> Follows(rs, i, l) && Keeps(rs, i, l)
    ensures Follows(rs, i, n) && Keeps(rs, i, n)
  {
    if rs[i].state in {Published, Expired} && rs[n].state in {Received, SettledOk, SettledError} {
      if rs[l].state == Leased {
        assert Follows(rs, i, l);
      } else {
        var j :| Follows(rs, i, j) && j < l && rs[j].state == Leased;
        assert j < n;
      }
    }
  }

  lemma {:induction false} AcceptedIsOrderly(rs: seq<Record>)
    requires ApplyAll(EMPTY, rs).Ok?
    ensures Orderly(rs)
    decreases |rs|
  {
    if rs != [] {
      var n := |rs| - 1;
      var init := rs[..n];
      AcceptedIsOrderly(init);
      forall i, k | Follows(rs, i, k) ensures Keeps(rs, i, k) {
        if k < n {
          FollowsInPrefix(rs, init, i, k);
        } else {
          LastKeeps(rs, init, n, i);
        }
      }
    }
  }

  lemma LastKeeps(rs: seq<Record>, init: seq<Record>, n: nat, i: nat)
    requires rs != [] && n == |rs| - 1 && init == rs[..n] && ApplyAll(EMPTY, rs).Ok? && Orderly(init)
    requires Follows(rs, i, n)
    ensures Keeps(rs, i, n)
  {
    var l := LatestOf(init, i);
    NextRecordAllowed(rs, init, n, l);
    FollowsInPrefix(rs, init, i, l);
    NextKeeps(rs, i, l, n);
  }

  // ---- the verdict on one more snapshot -----------------------------------------------------

  /** The sequence number is above all earlier ones, and not zero. */
  ghost predicate Fresh(rs: seq<Record>, r: Record) {
    r.sequence > 0 && forall x <- rs :: x.sequence < r.sequence
  }

  /** The last snapshot of another event carries the key. */
  ghost predicate KeyTaken(rs: seq<Record>, r: Record) {
    exists l :: Latest(rs, l) && rs[l].idempotencyKey == r.idempotencyKey && rs[l].eventId != r.eventId
  }

  /** The snapshot would break a rule with snapshot i of its event. */
  ghost predicate BreaksWith(rs: seq<Record>, r: Record, i: int) {
    && 0 <= i < |rs| && rs[i].eventId == r.eventId
    && (|| (rs[i].state in {SettledOk, SettledError} && r.state != rs[i].state)
        || (r.state == Published && rs[i].state != Published)
        || (&& rs[i].state in {Published, Expired} && r.state in {Received, SettledOk, SettledError}
            && forall j :: Follows(rs, i, j) ==> rs[j].state != Leased))
  }

  ghost predicate Breaks(rs: seq<Record>, r: Record) {
    exists i :: BreaksWith(rs, r, i)
  }

  /** Breaking a rule is the same as leaving the table of transitions at the last snapshot of the event. */
  lemma BreaksAtLast(rs: seq<Record>, r: Record, l: nat)
    requires Orderly(rs) && Latest(rs, l) && rs[l].eventId == r.eventId
    ensures Breaks(rs, r) <==> !Allowed(rs[l].state, r.state)
  {
    if Breaks(rs, r) {
      var i :| BreaksWith(rs, r, i);
      if i != l { assert Follows(rs, i, l) && Keeps(rs, i, l); }
    }
    if !Allowed(rs[l].state, r.state) {
      assert BreaksWith(rs, r, l);
    }
  }

  lemma {:induction false} LastSequenceIsHighest(rs: seq<Record>, r: Record)
    requires ApplyAll(EMPTY, rs).Ok?
    ensures Fresh(rs, r) <==> r.sequence > ApplyAll(EMPTY, rs).value.lastSequence
    decreases |rs|
  {
    if rs != [] {
      var n := |rs| - 1;
      LastSequenceIsHighest(rs[..n], rs[n]);
      LastSequenceIsHighest(rs[..n], r);
      assert rs == rs[..n] + [rs[n]];
      assert ApplyAll(EMPTY, rs).value.lastSequence == rs[n].sequence;
    }
  }

  lemma TakenIsFound(rs: seq<Record>, p: Projection, r: Record)
    requires ApplyAll(EMPTY, rs) == Ok(p)
    ensures var k := FindKey(p.entries, r.idempotencyKey);
            KeyTaken(rs, r) <==> k.Some? && p.entries[k.value].eventId != r.eventId
  {
    RunKeepsDistinct(rs);
    var k := FindKey(p.entries, r.idempotencyKey);
    if KeyTaken(rs, r) {
      var l :| Latest(rs, l) && rs[l].idempotencyKey == r.idempotencyKey && rs[l].eventId != r.eventId;
      EntriesAreLatest(rs, rs[l]);
      var i :| 0 <= i < |p.entries| && p.entries[i] == rs[l];
      SearchIsLookup(p, i);
    }
    if k.Some? && p.entries[k.value].eventId != r.eventId {
      assert p.entries[k.value] in p.entries;
      EntriesAreLatest(rs, p.entries[k.value]);
    }
  }

  lemma BrokenIsFound(rs: seq<Record>, p: Projection, r: Record)
    requires ApplyAll(EMPTY, rs) == Ok(p)
    ensures var e := FindEvent(p.entries, r.eventId);
            Breaks(rs, r) <==> e.Some? && !Allowed(p.entries[e.value].state, r.state)
  {
    RunKeepsDistinct(rs);
    AcceptedIsOrderly(rs);
    var e := FindEvent(p.entries, r.eventId);
    if e.Some? {
      assert p.entries[e.value] in p.entries;
      EntriesAreLatest(rs, p.entries[e.value]);
      var l :| Latest(rs, l) && rs[l] == p.entries[e.value];
      BreaksAtLast(rs, r, l);
    } else if Breaks(rs, r) {
      var i :| BreaksWith(rs, r, i);
      var l := LatestOf(rs, i);
      EntriesAreLatest(rs, rs[l]);
    }
  }

  /** After every accepted sequence, the verdict on one more snapshot: a number that is not above all earlier ones is
      a regression, then a key held by another event is a conflict, then a broken rule is an invalid transition, and
      every other snapshot is accepted. */
  lemma VerdictExactly(rs: seq<Record>, p: Projection, r: Record)
    requires ApplyAll(EMPTY, rs) == Ok(p)
    ensures Validate(p, r) == if !Fresh(rs, r) then Some(SequenceRegression)
                              else if KeyTaken(rs, r) then Some(IdempotencyConflict)
                              else if Breaks(rs, r) then Some(InvalidTransition)
                              else None
  {
    LastSequenceIsHighest(rs, r);
    TakenIsFound(rs, p, r);
    BrokenIsFound(rs, p, r);
  }

  // ---- the accepted sequences ---------------------------------------------------------------

  ghost predicate Rising(rs: seq<Record>) {
    && (forall i :: 0 <= i < |rs| ==> rs[i].sequence > 0)
    && (forall i, k :: 0 <= i < k < |rs| ==> rs[i].sequence < rs[k].sequence)
  }

  /** A key passes to another event only after its event has moved on to another snapshot. */
  ghost predicate KeysFree(rs: seq<Record>) {
    forall i, k :: 0 <= i < k < |rs| && SameKeyElsewhere(rs[i], rs[k]) ==> exists j :: Follows(rs, i, j) && j < k
  }

  /** Two events, one key. */
  ghost predicate SameKeyElsewhere(a: Record, b: Record) {
    a.idempotencyKey == b.idempotencyKey && a.eventId != b.eventId
  }

  /** A sequence of snapshots is accepted if and only if its numbers rise from above zero, keys are free when taken,
      and every event keeps the three rules. */
  lemma {:induction false} AcceptedExactly(rs: seq<Record>)
    ensures ApplyAll(EMPTY, rs).Ok? <==> Rising(rs) && KeysFree(rs) && Orderly(rs)
    decreases |rs|
  {
    if rs != [] {
      var n := |rs| - 1;
      var init, r := rs[..n], rs[n];
      AcceptedExactly(init);
      RisingWithLast(rs, init, n);
      KeysFreeWithLast(rs, init, n);
      OrderlyWithLast(rs, init, n);
      if ApplyAll(EMPTY, init).Ok? {
        VerdictExactly(init, ApplyAll(EMPTY, init).value, r);
      }
    }
  }

  lemma RisingWithLast(rs: seq<Record>, init: seq<Record>, n: nat)
    requires rs != [] && n == |rs| - 1 && init == rs[..n]
    ensures Rising(rs) <==> Rising(init) && Fresh(init, rs[n])
  {
    if Rising(rs) {
      forall x <- init ensures x.sequence < rs[n].sequence {
        var i :| 0 <= i < |init| && init[i] == x;
        assert rs[i] == x;
      }
    }
    if Rising(init) && Fresh(init, rs[n]) {
      forall i, k | 0 <= i < k < |rs| ensures rs[i].sequence < rs[k].sequence {
        assert init[i] in init;
      }
    }
  }

  lemma NoneAfterLatest(rs: seq<Record>, init: seq<Record>, n: nat, l: nat)
    requires rs != [] && n == |rs| - 1 && init == rs[..n] && Latest(init, l)
    ensures forall j :: Follows(rs, l, j) ==> j >= n
  {
    forall j | l < j < n ensures !Follows(rs, l, j) { assert init[j].eventId != init[l].eventId; }
  }

  lemma KeysFreeWithLast(rs: seq<Record>, init: seq<Record>, n: nat)
    requires rs != [] && n == |rs| - 1 && init == rs[..n]
    ensures KeysFree(rs) <==> KeysFree(init) && !KeyTaken(init, rs[n])
  {
    if KeysFree(rs) {
      forall i, k | 0 <= i < k < n && SameKeyElsewhere(init[i], init[k])
        ensures exists j :: Follows(init, i, j) && j < k
      {
        assert rs[i] == init[i] && rs[k] == init[k];
        var j :| Follows(rs, i, j) && j < k;
        assert Follows(init, i, j);
      }
      if KeyTaken(init, rs[n]) {
        var l :| Latest(init, l) && init[l].idempotencyKey == rs[n].idempotencyKey && init[l].eventId != rs[n].eventId;
        NoneAfterLatest(rs, init, n, l);
      }
    }
    if KeysFree(init) && !KeyTaken(init, rs[n]) {
      forall i, k | 0 <= i < k < |rs| && SameKeyElsewhere(rs[i], rs[k])
        ensures exists j :: Follows(rs, i, j) && j < k
      {
        if k < n {
          assert rs[i] == init[i] && rs[k] == init[k];
          var j :| Follows(init, i, j) && j < k;
          assert Follows(rs, i, j);
        } else {
          assert !Latest(init, i);
          var j :| i < j < |init| && init[j].eventId == init[i].eventId;
          assert Follows(rs, i, j);
        }
      }
    }
  }

  lemma OrderlyWithLast(rs: seq<Record>, init: seq<Record>, n: nat)
    requires rs != [] && n == |rs| - 1 && init == rs[..n]
    ensures Orderly(rs) <==> Orderly(init) && !Breaks(init, rs[n])
  {
    forall i, k | k < n ensures Follows(rs, i, k) ==> Follows(init, i, k) && (Keeps(rs, i, k) <==> Keeps(init, i, k)) {
      FollowsInPrefix(rs, init, i, k);
    }
    forall i ensures BreaksWith(init, rs[n], i) <==> Follows(rs, i, n) && !Keeps(rs, i, n) {
      BreaksAsLast(rs, init, n, i);
    }
    if Orderly(rs) {
      forall i, k | Follows(init, i, k) ensures Keeps(init, i, k) { FollowsInPrefix(rs, init, i, k); }
    }
  }

  lemma BreaksAsLast(rs: seq<Record>, init: seq<Record>, n: nat, i: int)
    requires rs != [] && n == |rs| - 1 && init == rs[..n]
    ensures BreaksWith(init, rs[n], i) <==> Follows(rs, i, n) && !Keeps(rs, i, n)
  {
    if Follows(rs, i, n) {
      forall j | j < n ensures Follows(init, i, j) <==> Follows(rs, i, j) { FollowsInPrefix(rs, init, i, j); }
      if j :| Follows(rs, i, j) && j < n && rs[j].state == Leased { assert Follows(init, i, j) && init[j] == rs[j]; }
    }
  }

  // ---- when a snapshot is persisted ---------------------------------------------------------

  /** Nothing in the record itself keeps it out of the journal. */
  ghost predicate Complete(r: Record) {
    && r.eventId != [] && r.canonicalEvent != [] && r.idempotencyKey != []
    && (r.state in {Leased, Received} ==> r.leaseOwner.Some?)
    && (r.state in {SettledOk, SettledError} ==> r.leaseOwner.None?)
  }

  /** In every run, a ready coordinator persists a snapshot, and so acknowledges a settled one, exactly when its key is
      not held by another event, it breaks no rule with the records of the journal, the record is complete and fits,
      nothing fails, and a sequence number is left. */
  lemma PersistedExactly(j: Journal, steps: seq<Step>, e: Node, snapshot: Record, r: Record, fault: Fault)
    requires Lawful(j.codec) && AdmissibleRun(j, NEW_NODE, steps) && e == Run(j, NEW_NODE, steps)
    requires e.mem.Ready() && r == snapshot.(sequence := e.mem.nextSequence)
    ensures PersistRecord(j, e.file, e.mem, snapshot, fault).2 == Replied <==>
              && !KeyTaken(e.log, r) && !Breaks(e.log, r) && Complete(r)
              && |j.codec.encode(r)| <= j.maxRecordBytes && |e.file| + |Line(j, r)| <= j.maxBytes
              && fault == NoFault && r.sequence < 0xFFFF_FFFF_FFFF_FFFF
  {
    NewNodeOk(j);
    RunKeepsInv(j, NEW_NODE, steps);
    VerdictExactly(e.log, e.mem.projection, r);
    LastSequenceIsHighest(e.log, r);
    AppendRefusedExactly(j, |e.file|, r);
    assert |Line(j, r)| == |Hex(j.codec.checksum(j.codec.encode(r)))| + 1 + |j.codec.encode(r)| + 1;
  }
}
