/** A broker whose every changed record is journalled as a snapshot: the recovery projection accepts
    each snapshot and always shows the broker's own records. */
module BrokerJournal {
  import opened Common
  import opened CanonicalEvent
  import opened WireCodec
  import opened SettlementProjection
  import opened SettlementJournal
  import opened MemoryBroker

  function Snapshot(d: Delivery, sequence: nat): Record {
    Record(sequence, d.envelope.id, d.envelope.name, d.envelope.idempotencyKey, [], d.envelope.payload, d.state,
           if d.lease.Some? then Some(d.lease.value.owner) else None,
           if d.lease.Some? then d.lease.value.untilMs else 0,
           if d.lease.Some? then d.lease.value.attempt else 0,
           0, d.envelope.createdAtMs, 0, d.envelope.correlationId, d.envelope.causationId)
  }

  /** The broker and the snapshots journalled so far, numbered from 1. */
  datatype Node = Node(records: seq<Delivery>, journal: seq<Record>)

  const START := Node([], [])

  datatype Step =
    | DoPublish(envelope: Envelope)
    | DoClaim(worker: Bytes, nowMs: nat, leaseMs: nat)
    | DoReceive(slot: nat, worker: Bytes)
    | DoSettle(slot: nat, worker: Bytes, outcome: EventState)
    | DoReap(nowMs: nat)

  function Writes(rs: seq<Delivery>, capacity: nat, step: Step): seq<Write> {
    match step
    case DoPublish(e) => Publish(rs, capacity, e).writes
    case DoClaim(worker, nowMs, leaseMs) => Claim(rs, worker, nowMs, leaseMs).writes
    case DoReceive(slot, worker) => MarkReceived(rs, slot, worker).writes
    case DoSettle(slot, worker, outcome) => Settle(rs, slot, worker, outcome).writes
    case DoReap(nowMs) => ReapWrites(rs, nowMs)
  }

  function Log(n: Node, w: Write): Node {
    Node(Put(n.records, w), n.journal + [Snapshot(w.delivery, |n.journal| + 1)])
  }

  function LogAll(n: Node, ws: seq<Write>): Node {
    if ws == [] then n else Log(LogAll(n, ws[..|ws| - 1]), ws[|ws| - 1])
  }

  function Run(capacity: nat, steps: seq<Step>): Node {
    if steps == [] then START
    else
      var n := Run(capacity, steps[..|steps| - 1]);
      LogAll(n, Writes(n.records, capacity, steps[|steps| - 1]))
  }

  // ---- the invariant ------------------------------------------------------------------------

  ghost predicate Sound(e: Envelope) {
    e.id != [] && e.name != [] && e.idempotencyKey != []
  }

  /** A record is leased exactly while it shows a lease that has not been settled. */
  ghost predicate Shaped(d: Delivery) {
    && Sound(d.envelope)
    && (Held(d) ==> d.lease.Some?)
    && (d.state == Published || d.state.Settled() ==> d.lease.None?)
  }

  ghost predicate Orderly(rs: seq<Delivery>) {
    && (forall i :: 0 <= i < |rs| ==> Shaped(rs[i]))
    && (forall i, j :: 0 <= i < j < |rs| ==> rs[i].envelope.id != rs[j].envelope.id)
    && (forall i, j :: 0 <= i < j < |rs| ==> rs[i].envelope.idempotencyKey != rs[j].envelope.idempotencyKey)
  }

  /** The projection's entries are the broker's records, in slot order, apart from their numbers. */
  ghost predicate Mirrors(p: Projection, rs: seq<Delivery>) {
    && |p.entries| == |rs|
    && forall i :: 0 <= i < |rs| ==> p.entries[i] == Snapshot(rs[i], p.entries[i].sequence)
  }

  ghost predicate Inv(n: Node) {
    && Orderly(n.records)
    && (forall r <- n.journal :: CheckRecord(r).None?)
    && ApplyAll(EMPTY, n.journal).Ok?
    && ApplyAll(EMPTY, n.journal).value.lastSequence == |n.journal|
    && Mirrors(ApplyAll(EMPTY, n.journal).value, n.records)
  }

  /** A write of a held record to a state the projection allows next, or of a new record. */
  ghost predicate Proper(rs: seq<Delivery>, w: Write) {
    && Shaped(w.delivery)
    && if w.slot < |rs| then
         w.delivery.envelope == rs[w.slot].envelope && SettlementProjection.Allowed(rs[w.slot].state, w.delivery.state)
       else
         && (forall i :: 0 <= i < |rs| ==> rs[i].envelope.id != w.delivery.envelope.id)
         && (forall i :: 0 <= i < |rs| ==> rs[i].envelope.idempotencyKey != w.delivery.envelope.idempotencyKey)
  }

  lemma SlotIsEntry(p: Projection, rs: seq<Delivery>, i: nat)
    requires Orderly(rs) && Mirrors(p, rs) && i < |rs|
    ensures FindEvent(p.entries, rs[i].envelope.id) == Some(i)
    ensures FindKey(p.entries, rs[i].envelope.idempotencyKey) == Some(i)
  {
    assert p.entries[i].eventId == rs[i].envelope.id && p.entries[i].idempotencyKey == rs[i].envelope.idempotencyKey;
    forall j | 0 <= j < |rs| && j != i
      ensures p.entries[j].eventId != rs[i].envelope.id && p.entries[j].idempotencyKey != rs[i].envelope.idempotencyKey
    {
      assert p.entries[j].eventId == rs[j].envelope.id;
    }
  }

  lemma ProperWriteApplies(p: Projection, rs: seq<Delivery>, w: Write, sequence: nat)
    requires Orderly(rs) && Mirrors(p, rs) && Proper(rs, w) && p.lastSequence < sequence
    ensures var q := Apply(p, Snapshot(w.delivery, sequence));
            q.Ok? && q.value.lastSequence == sequence && Mirrors(q.value, Put(rs, w))
  {
    if w.slot < |rs| {
      SlotIsEntry(p, rs, w.slot);
    } else {
      forall j | 0 <= j < |rs|
        ensures p.entries[j].eventId == rs[j].envelope.id
        ensures p.entries[j].idempotencyKey == rs[j].envelope.idempotencyKey
      {
      }
    }
  }

  lemma ProperKeepsOrderly(rs: seq<Delivery>, w: Write)
    requires Orderly(rs) && Proper(rs, w)
    ensures Orderly(Put(rs, w))
  {
  }

  lemma LogKeepsInv(n: Node, w: Write)
    requires Inv(n) && Proper(n.records, w)
    ensures Inv(Log(n, w))
  {
    var r := Snapshot(w.delivery, |n.journal| + 1);
    ProperWriteApplies(ApplyAll(EMPTY, n.journal).value, n.records, w, |n.journal| + 1);
    ProperKeepsOrderly(n.records, w);
    assert (n.journal + [r])[..|n.journal|] == n.journal;
  }

  // ---- every operation writes properly ------------------------------------------------------

  /** The envelope may be published: its id is not that of a record with another key. */
  ghost predicate Publishable(rs: seq<Delivery>, e: Envelope) {
    && Sound(e)
    && forall i :: 0 <= i < |rs| && rs[i].envelope.id == e.id ==> rs[i].envelope.idempotencyKey == e.idempotencyKey
  }

  lemma OneWriteIsProper(rs: seq<Delivery>, capacity: nat, step: Step)
    requires Orderly(rs) && !step.DoReap?
    requires step.DoPublish? ==> Publishable(rs, step.envelope)
    ensures var ws := Writes(rs, capacity, step);
            ws == [] || (|ws| == 1 && Proper(rs, ws[0]))
  {
  }

  lemma {:induction false} LogAllRecords(n: Node, ws: seq<Write>)
    ensures LogAll(n, ws).records == PutAll(n.records, ws)
    decreases |ws|
  {
    if ws != [] { LogAllRecords(n, ws[..|ws| - 1]); }
  }

  lemma LapsedWriteIsProper(rs: seq<Delivery>, i: nat, nowMs: nat)
    requires Orderly(rs) && i < |rs| && Lapsed(rs[i], nowMs)
    ensures Proper(rs, Write(i, ReapOne(rs[i], nowMs)))
  {
    assert Shaped(rs[i]);
  }

  /** Writing back the lapsed records among the first k is reaping those. */
  lemma {:induction false} ReapKeepsInv(n: Node, k: nat, nowMs: nat)
    requires Inv(n) && k <= |n.records|
    ensures Inv(LogAll(n, ReapWrites(n.records[..k], nowMs)))
    ensures LogAll(n, ReapWrites(n.records[..k], nowMs)).records == Reaped(n.records[..k], nowMs) + n.records[k..]
    decreases k
  {
    var rs := n.records;
    if k > 0 {
      var ws := ReapWrites(rs[..k - 1], nowMs);
      ReapKeepsInv(n, k - 1, nowMs);
      ReapWritesNext(rs, k - 1, nowMs);
      ReapOneMore(n, LogAll(n, ws), ws, k - 1, nowMs);
    }
  }

  lemma ReapOneMore(n: Node, m: Node, ws: seq<Write>, k: nat, nowMs: nat)
    requires k < |n.records| && m == LogAll(n, ws) && Inv(m)
    requires m.records == Reaped(n.records[..k], nowMs) + n.records[k..]
    ensures var d := n.records[k];
            var next := LogAll(n, ws + if Lapsed(d, nowMs) then [Write(k, ReapOne(d, nowMs))] else []);
            Inv(next) && next.records == Reaped(n.records[..k + 1], nowMs) + n.records[k + 1..]
  {
    var d := n.records[k];
    ReapNextSlot(n.records, k, nowMs, m.records);
    if Lapsed(d, nowMs) {
      var w := Write(k, ReapOne(d, nowMs));
      LapsedWriteIsProper(m.records, k, nowMs);
      LogKeepsInv(m, w);
      LogLast(n, ws, w);
    } else {
      assert ws + [] == ws;
    }
  }

  lemma LogLast(n: Node, ws: seq<Write>, w: Write)
    ensures LogAll(n, ws + [w]) == Log(LogAll(n, ws), w)
  {
    assert (ws + [w])[..|ws|] == ws;
  }

  lemma StepKeepsInv(n: Node, capacity: nat, step: Step)
    requires Inv(n) && (step.DoPublish? ==> Publishable(n.records, step.envelope))
    ensures Inv(LogAll(n, Writes(n.records, capacity, step)))
  {
    var ws := Writes(n.records, capacity, step);
    if step.DoReap? {
      assert n.records[..|n.records|] == n.records;
      ReapKeepsInv(n, |n.records|, step.nowMs);
    } else {
      OneWriteIsProper(n.records, capacity, step);
      if ws != [] {
        LogKeepsInv(n, ws[0]);
        assert ws[..0] == [];
        assert LogAll(n, ws) == Log(n, ws[0]);
      }
    }
  }

  // ---- runs ---------------------------------------------------------------------------------

  /** Published envelopes are sound and one event id stands for one idempotency key. */
  ghost predicate Consistent(steps: seq<Step>) {
    && (forall i :: 0 <= i < |steps| && steps[i].DoPublish? ==> Sound(steps[i].envelope))
    && (forall i, j :: 0 <= i < j < |steps| && steps[i].DoPublish? && steps[j].DoPublish?
                       && steps[i].envelope.id == steps[j].envelope.id
                       ==> steps[i].envelope.idempotencyKey == steps[j].envelope.idempotencyKey)
  }

  ghost predicate WasPublished(steps: seq<Step>, e: Envelope) {
    exists i :: 0 <= i < |steps| && steps[i] == DoPublish(e)
  }

  lemma {:induction false} LogAllSources(n: Node, ws: seq<Write>, d: Delivery)
    requires d in LogAll(n, ws).records
    ensures d in n.records || exists w <- ws :: w.delivery == d
    decreases |ws|
  {
    if ws != [] {
      var init, last := ws[..|ws| - 1], ws[|ws| - 1];
      if d != last.delivery {
        LogAllSources(n, init, d);
      }
    }
  }

  lemma {:induction false} ReapSources(rs: seq<Delivery>, nowMs: nat, w: Write)
    requires w in ReapWrites(rs, nowMs)
    ensures exists d <- rs :: d.envelope == w.delivery.envelope
    decreases |rs|
  {
    var n := |rs| - 1;
    if w in ReapWrites(rs[..n], nowMs) {
      ReapSources(rs[..n], nowMs, w);
    } else {
      assert rs[n] in rs;
    }
  }

  lemma WriteSources(rs: seq<Delivery>, capacity: nat, step: Step, w: Write)
    requires w in Writes(rs, capacity, step)
    ensures step == DoPublish(w.delivery.envelope) || exists d <- rs :: d.envelope == w.delivery.envelope
  {
    if step.DoReap? {
      ReapSources(rs, step.nowMs, w);
    } else if !step.DoPublish? {
      assert rs[w.slot] in rs;
    }
  }

  lemma {:induction false} RecordsWerePublished(capacity: nat, steps: seq<Step>, d: Delivery)
    requires d in Run(capacity, steps).records
    ensures WasPublished(steps, d.envelope)
    decreases |steps|
  {
    var k := |steps| - 1;
    var init := steps[..k];
    var n := Run(capacity, init);
    var ws := Writes(n.records, capacity, steps[k]);
    LogAllSources(n, ws, d);
    var c := d;
    if d !in n.records {
      var w :| w in ws && w.delivery == d;
      WriteSources(n.records, capacity, steps[k], w);
      if steps[k] == DoPublish(d.envelope) { return; }
      c :| c in n.records && c.envelope == d.envelope;
    }
    RecordsWerePublished(capacity, init, c);
    var i :| 0 <= i < |init| && init[i] == DoPublish(c.envelope);
    assert steps[i] == init[i];
  }

  lemma ConsistentMeansPublishable(capacity: nat, steps: seq<Step>, k: nat)
    requires Consistent(steps) && k < |steps| && steps[k].DoPublish?
    ensures Publishable(Run(capacity, steps[..k]).records, steps[k].envelope)
  {
    var rs := Run(capacity, steps[..k]).records;
    var e := steps[k].envelope;
    forall i | 0 <= i < |rs| && rs[i].envelope.id == e.id
      ensures rs[i].envelope.idempotencyKey == e.idempotencyKey
    {
      RecordsWerePublished(capacity, steps[..k], rs[i]);
      var j :| 0 <= j < k && steps[..k][j] == DoPublish(rs[i].envelope);
      assert steps[j] == steps[..k][j];
    }
  }

  /** The entry tells the same of the event as the broker's record. */
  ghost predicate Tells(e: Record, d: Delivery) {
    && e.eventId == d.envelope.id && e.canonicalEvent == d.envelope.name && e.payload == d.envelope.payload
    && e.idempotencyKey == d.envelope.idempotencyKey && e.state == d.state && e.createdAtMs == d.envelope.createdAtMs
    && e.correlationId == d.envelope.correlationId && e.causationId == d.envelope.causationId
    && (d.lease.None? ==> e.leaseOwner.None?)
    && (d.lease.Some? ==>
          && e.leaseOwner == Some(d.lease.value.owner) && e.leaseDeadlineMs == d.lease.value.untilMs
          && e.attempt == d.lease.value.attempt)
  }

  /** In every run the projection accepts every snapshot and shows the broker's records. */
  lemma ProjectionMirrorsBroker(capacity: nat, steps: seq<Step>)
    requires Consistent(steps)
    ensures var n := Run(capacity, steps);
            var p := ApplyAll(EMPTY, n.journal);
            && p.Ok? && (forall r <- n.journal :: CheckRecord(r).None?)
            && |p.value.entries| == |n.records|
            && forall i :: 0 <= i < |n.records| ==> Tells(p.value.entries[i], n.records[i])
  {
    RunKeepsInv(capacity, steps);
  }

  lemma {:induction false} RunKeepsInv(capacity: nat, steps: seq<Step>)
    requires Consistent(steps)
    ensures Inv(Run(capacity, steps))
    decreases |steps|
  {
    if steps != [] {
      var k := |steps| - 1;
      var init := steps[..k];
      assert Consistent(init);
      RunKeepsInv(capacity, init);
      if steps[k].DoPublish? { ConsistentMeansPublishable(capacity, steps, k); }
      StepKeepsInv(Run(capacity, init), capacity, steps[k]);
    }
  }

  /** The condition on ids is exact: the projection follows a broker through the publication of a new
      record if and only if no record of another key has its id. */
  lemma MirrorNeedsOwnId(n: Node, capacity: nat, e: Envelope)
    requires Inv(n) && Sound(e) && |n.records| < capacity && FindSlot(n.records, e.idempotencyKey).None?
    ensures var m := LogAll(n, Publish(n.records, capacity, e).writes);
            var p := ApplyAll(EMPTY, m.journal);
            (p.Ok? && Mirrors(p.value, m.records)) <==> Publishable(n.records, e)
  {
    var w := Write(|n.records|, Delivery(e, Published, None));
    assert [] + [w] == [w];
    LogLast(n, [], w);
    if Publishable(n.records, e) {
      LogKeepsInv(n, w);
    } else {
      var i :| 0 <= i < |n.records| && n.records[i].envelope.id == e.id;
      TakenIdIsOverwritten(ApplyAll(EMPTY, n.journal).value, n.records, i, Snapshot(w.delivery, |n.journal| + 1));
      assert Log(n, w).journal[..|n.journal|] == n.journal;
    }
  }

  lemma TakenIdIsOverwritten(p: Projection, rs: seq<Delivery>, i: nat, r: Record)
    requires Orderly(rs) && Mirrors(p, rs) && i < |rs| && rs[i].envelope.id == r.eventId
    ensures Apply(p, r).Ok? ==> |Apply(p, r).value.entries| == |rs|
  {
    SlotIsEntry(p, rs, i);
  }

  // ---- leases -------------------------------------------------------------------------------

  /** Worker and end of lease of each successful claim of a slot, in order. */
  function ClaimsOf(capacity: nat, steps: seq<Step>, slot: nat): seq<(Bytes, nat)> {
    if steps == [] then []
    else
      var init, last := steps[..|steps| - 1], steps[|steps| - 1];
      ClaimsOf(capacity, init, slot)
      + if last.DoClaim? && Claim(Run(capacity, init).records, last.worker, last.nowMs, last.leaseMs).result == Ok(slot)
        then [(last.worker, last.nowMs + last.leaseMs)] else []
  }

  /** A lease is that of the last claim and its attempt counts the claims; without a lease the record was
      never claimed, or it is settled. */
  ghost predicate LeaseOk(d: Delivery, claims: seq<(Bytes, nat)>) {
    if d.lease.Some? then
      claims != [] && d.lease.value == Lease(claims[|claims| - 1].0, claims[|claims| - 1].1, |claims|)
    else
      (d.state == Published && claims == []) || (d.state.Settled() && claims != [])
  }

  ghost predicate SlotOk(rs: seq<Delivery>, slot: nat, claims: seq<(Bytes, nat)>) {
    if slot < |rs| then LeaseOk(rs[slot], claims) else claims == []
  }

  lemma StepKeepsSlot(rs: seq<Delivery>, capacity: nat, step: Step, slot: nat, claims: seq<(Bytes, nat)>)
    requires SlotOk(rs, slot, claims)
    ensures var more := if step.DoClaim? && Claim(rs, step.worker, step.nowMs, step.leaseMs).result == Ok(slot)
                        then [(step.worker, step.nowMs + step.leaseMs)] else [];
            SlotOk(PutAll(rs, Writes(rs, capacity, step)), slot, claims + more)
  {
    var ws := Writes(rs, capacity, step);
    assert claims + [] == claims;
    if step.DoReap? {
      ReapIsItsWrites(rs, step.nowMs);
    } else if ws != [] {
      assert ws == [ws[0]];
      PutOne(rs, ws[0]);
    }
  }

  /** In every run a record's lease belongs to the worker of its last claim, ends when that claim said, and
      numbers the claims of the record. */
  lemma {:induction false} LeaseIsLastClaim(capacity: nat, steps: seq<Step>, slot: nat)
    ensures SlotOk(Run(capacity, steps).records, slot, ClaimsOf(capacity, steps, slot))
    decreases |steps|
  {
    if steps != [] {
      var init, last := steps[..|steps| - 1], steps[|steps| - 1];
      var n := Run(capacity, init);
      LeaseIsLastClaim(capacity, init, slot);
      StepKeepsSlot(n.records, capacity, last, slot, ClaimsOf(capacity, init, slot));
      LogAllRecords(n, Writes(n.records, capacity, last));
    }
  }

  // ---- claimable means free after a reap ----------------------------------------------------

  lemma SlotClaimable(p: Projection, rs: seq<Delivery>, i: nat, nowMs: nat)
    requires Orderly(rs) && Mirrors(p, rs) && i < |rs|
    ensures IsClaimable(p, rs[i].envelope.id, nowMs) <==> Free(ReapOne(rs[i], nowMs))
  {
    SlotIsEntry(p, rs, i);
    assert Shaped(rs[i]);
    assert p.entries[i] == Snapshot(rs[i], p.entries[i].sequence);
  }

  lemma UnknownIsNotClaimable(p: Projection, rs: seq<Delivery>, id: Bytes, nowMs: nat)
    requires Mirrors(p, rs) && forall i :: 0 <= i < |rs| ==> rs[i].envelope.id != id
    ensures !IsClaimable(p, id, nowMs)
  {
    forall j | 0 <= j < |rs|
      ensures p.entries[j].eventId != id
    {
      assert p.entries[j] == Snapshot(rs[j], p.entries[j].sequence);
    }
  }

  /** The projection calls an event claimable exactly when reaping now would leave its record free. */
  lemma ClaimableIsFreeAfterReap(p: Projection, rs: seq<Delivery>, id: Bytes, nowMs: nat)
    requires Orderly(rs) && Mirrors(p, rs)
    ensures IsClaimable(p, id, nowMs)
            <==> exists i :: 0 <= i < |rs| && rs[i].envelope.id == id && Free(Reaped(rs, nowMs)[i])
  {
    if i :| 0 <= i < |rs| && rs[i].envelope.id == id {
      SlotClaimable(p, rs, i, nowMs);
      assert Reaped(rs, nowMs)[i] == ReapOne(rs[i], nowMs);
    } else {
      UnknownIsNotClaimable(p, rs, id, nowMs);
    }
  }

  /** So a broker that reaps and then claims serves the first record the projection calls claimable,
      and has nothing to serve exactly when the projection calls none claimable. */
  lemma ClaimServesFirstClaimable(p: Projection, rs: seq<Delivery>, worker: Bytes, nowMs: nat, leaseMs: nat)
    requires Orderly(rs) && Mirrors(p, rs)
    ensures var c := Claim(Reaped(rs, nowMs), worker, nowMs, leaseMs).result;
            if c.Ok? then
              && c.value < |rs| && IsClaimable(p, rs[c.value].envelope.id, nowMs)
              && forall j :: 0 <= j < c.value ==> !IsClaimable(p, rs[j].envelope.id, nowMs)
            else
              c.error == NothingAvailable && forall id :: !IsClaimable(p, id, nowMs)
  {
    forall i | 0 <= i < |rs|
      ensures IsClaimable(p, rs[i].envelope.id, nowMs) <==> Free(Reaped(rs, nowMs)[i])
    {
      SlotClaimable(p, rs, i, nowMs);
    }
    forall id
      ensures IsClaimable(p, id, nowMs) ==> exists i :: 0 <= i < |rs| && rs[i].envelope.id == id
    {
      if forall i :: 0 <= i < |rs| ==> rs[i].envelope.id != id { UnknownIsNotClaimable(p, rs, id, nowMs); }
    }
  }
}
