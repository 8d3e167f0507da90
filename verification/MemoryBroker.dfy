/** The bounded in-memory broker. Each operation is described by the records it writes, one slot at a
    time, and by what it reports. */
module MemoryBroker {
  import opened Common
  import opened CanonicalEvent
  import opened WireCodec
  import opened SettlementProjection

  datatype Lease = Lease(owner: Bytes, untilMs: nat, attempt: nat)

  datatype Delivery = Delivery(envelope: Envelope, state: State, lease: Option<Lease>)

  datatype DeliveryError = QueueFull | NothingAvailable | NoSuchRecord | NotLeaseOwner | BadTransition

  /** A record put into a slot; the slot after the last one is a new one. */
  datatype Write = Write(slot: nat, delivery: Delivery)

  datatype Effect = Effect(writes: seq<Write>, result: Result<nat, DeliveryError>)

  predicate Free(d: Delivery) { d.state == Published || d.state == Expired }

  predicate Held(d: Delivery) { d.state == Leased || d.state == Received }

  predicate OwnedBy(d: Delivery, worker: Bytes) { d.lease.Some? && d.lease.value.owner == worker }

  // ---- the operations -----------------------------------------------------------------------

  /** The slot whose envelope has the key. */
  function FindSlot(rs: seq<Delivery>, key: Bytes): (r: Option<nat>)
    ensures r.Some? ==> r.value < |rs| && rs[r.value].envelope.idempotencyKey == key
    ensures r.Some? ==> forall i :: 0 <= i < r.value ==> rs[i].envelope.idempotencyKey != key
    ensures r.None? <==> forall i :: 0 <= i < |rs| ==> rs[i].envelope.idempotencyKey != key
  {
    if rs == [] then None
    else if rs[0].envelope.idempotencyKey == key then Some(0)
    else match FindSlot(rs[1..], key) case None => None case Some(i) => Some(i + 1)
  }

  /** The first slot a worker may claim. */
  function FirstFree(rs: seq<Delivery>): (r: Option<nat>)
    ensures r.Some? ==> r.value < |rs| && Free(rs[r.value])
    ensures r.Some? ==> forall i :: 0 <= i < r.value ==> !Free(rs[i])
    ensures r.None? <==> forall i :: 0 <= i < |rs| ==> !Free(rs[i])
  {
    if rs == [] then None
    else if Free(rs[0]) then Some(0)
    else match FirstFree(rs[1..]) case None => None case Some(i) => Some(i + 1)
  }

  function Publish(rs: seq<Delivery>, capacity: nat, e: Envelope): Effect {
    match FindSlot(rs, e.idempotencyKey)
    case Some(i) => Effect([], Ok(i))
    case None =>
      if |rs| >= capacity then Effect([], Err(QueueFull))
      else Effect([Write(|rs|, Delivery(e, Published, None))], Ok(|rs|))
  }

  function Claimed(d: Delivery, worker: Bytes, nowMs: nat, leaseMs: nat): Delivery {
    var attempt := if d.lease.Some? then d.lease.value.attempt + 1 else 1;
    d.(state := Leased, lease := Some(Lease(worker, nowMs + leaseMs, attempt)))
  }

  function Claim(rs: seq<Delivery>, worker: Bytes, nowMs: nat, leaseMs: nat): Effect {
    match FirstFree(rs)
    case None => Effect([], Err(NothingAvailable))
    case Some(i) => Effect([Write(i, Claimed(rs[i], worker, nowMs, leaseMs))], Ok(i))
  }

  function MarkReceived(rs: seq<Delivery>, slot: nat, worker: Bytes): Effect {
    if slot >= |rs| then Effect([], Err(NoSuchRecord))
    else if !OwnedBy(rs[slot], worker) then Effect([], Err(NotLeaseOwner))
    else if rs[slot].state != Leased then Effect([], Err(BadTransition))
    else Effect([Write(slot, rs[slot].(state := Received))], Ok(slot))
  }

  function Settle(rs: seq<Delivery>, slot: nat, worker: Bytes, outcome: EventState): Effect {
    if slot >= |rs| then Effect([], Err(NoSuchRecord))
    else if !OwnedBy(rs[slot], worker) then Effect([], Err(NotLeaseOwner))
    else if !Held(rs[slot]) || outcome == Request then Effect([], Err(BadTransition))
    else
      var state := if outcome == OkState then SettledOk else SettledError;
      Effect([Write(slot, rs[slot].(state := state, lease := None))], Ok(slot))
  }

  /** A lease held past its end. */
  predicate Lapsed(d: Delivery, nowMs: nat) {
    Held(d) && d.lease.Some? && nowMs >= d.lease.value.untilMs
  }

  function ReapOne(d: Delivery, nowMs: nat): Delivery {
    if Lapsed(d, nowMs) then d.(state := Expired) else d
  }

  function Reaped(rs: seq<Delivery>, nowMs: nat): (r: seq<Delivery>)
    ensures |r| == |rs|
    ensures forall i :: 0 <= i < |rs| ==> r[i] == ReapOne(rs[i], nowMs)
  {
    seq(|rs|, i requires 0 <= i < |rs| => ReapOne(rs[i], nowMs))
  }

  /** The records that reaping changes, in slot order. */
  function ReapWrites(rs: seq<Delivery>, nowMs: nat): seq<Write> {
    if rs == [] then []
    else
      var n := |rs| - 1;
      ReapWrites(rs[..n], nowMs) + if Lapsed(rs[n], nowMs) then [Write(n, ReapOne(rs[n], nowMs))] else []
  }

  function Put(rs: seq<Delivery>, w: Write): seq<Delivery> {
    if w.slot < |rs| then rs[w.slot := w.delivery] else rs + [w.delivery]
  }

  function PutAll(rs: seq<Delivery>, ws: seq<Write>): seq<Delivery> {
    if ws == [] then rs else Put(PutAll(rs, ws[..|ws| - 1]), ws[|ws| - 1])
  }

  lemma PutOne(rs: seq<Delivery>, w: Write)
    ensures PutAll(rs, [w]) == Put(rs, w)
  {
    assert [w][..0] == [];
    assert PutAll(rs, []) == rs;
  }

  lemma PutLast(rs: seq<Delivery>, ws: seq<Write>, w: Write)
    ensures PutAll(rs, ws + [w]) == Put(PutAll(rs, ws), w)
  {
    assert (ws + [w])[..|ws|] == ws;
  }

  lemma ReapNextSlot(rs: seq<Delivery>, k: nat, nowMs: nat, partway: seq<Delivery>)
    requires k < |rs| && partway == Reaped(rs[..k], nowMs) + rs[k..]
    ensures |partway| == |rs| && partway[k] == rs[k]
    ensures (if Lapsed(rs[k], nowMs) then partway[k := ReapOne(rs[k], nowMs)] else partway)
            == Reaped(rs[..k + 1], nowMs) + rs[k + 1..]
  {
    assert rs[..k + 1][..k] == rs[..k];
  }

  lemma ReapWritesNext(rs: seq<Delivery>, k: nat, nowMs: nat)
    requires k < |rs|
    ensures ReapWrites(rs[..k + 1], nowMs)
            == ReapWrites(rs[..k], nowMs) + if Lapsed(rs[k], nowMs) then [Write(k, ReapOne(rs[k], nowMs))] else []
  {
    assert rs[..k + 1][..k] == rs[..k];
  }

  /** Writing back the lapsed records among the first k reaps those. */
  lemma {:induction false} ReapInParts(rs: seq<Delivery>, k: nat, nowMs: nat)
    requires k <= |rs|
    ensures PutAll(rs, ReapWrites(rs[..k], nowMs)) == Reaped(rs[..k], nowMs) + rs[k..]
  {
    if k > 0 {
      ReapInParts(rs, k - 1, nowMs);
      ReapWritesNext(rs, k - 1, nowMs);
      var ws := ReapWrites(rs[..k - 1], nowMs);
      ReapNextSlot(rs, k - 1, nowMs, PutAll(rs, ws));
      if Lapsed(rs[k - 1], nowMs) {
        PutLast(rs, ws, Write(k - 1, ReapOne(rs[k - 1], nowMs)));
      } else {
        assert ws + [] == ws;
      }
    }
  }

  /** The changed records, written back, are the reaped ones. */
  lemma ReapIsItsWrites(rs: seq<Delivery>, nowMs: nat)
    ensures PutAll(rs, ReapWrites(rs, nowMs)) == Reaped(rs, nowMs)
  {
    ReapInParts(rs, |rs|, nowMs);
    assert rs[..|rs|] == rs;
  }

  // ---- the broker as it runs ----------------------------------------------------------------

  class Broker {
    var records: array<Option<Delivery>>
    var len: nat

    ghost predicate Valid()
      reads this, records
    {
      len <= records.Length && forall i :: 0 <= i < len ==> records[i].Some?
    }

    ghost function Contents(): (rs: seq<Delivery>)
      requires Valid()
      reads this, records
      ensures |rs| == len && forall i :: 0 <= i < len ==> records[i] == Some(rs[i])
    {
      seq(len, i requires 0 <= i < len && Valid() reads this, records => records[i].value)
    }

    constructor (capacity: nat)
      ensures Valid() && fresh(records) && records.Length == capacity && Contents() == []
    {
      records := new Option<Delivery>[capacity](_ => None);
      len := 0;
    }

    method FindByIdempotencyKey(key: Bytes) returns (r: Option<nat>)
      requires Valid()
      ensures r == FindSlot(Contents(), key)
    {
      for i := 0 to len
        invariant forall j :: 0 <= j < i ==> Contents()[j].envelope.idempotencyKey != key
      {
        if records[i].value.envelope.idempotencyKey == key { return Some(i); }
      }
      r := None;
    }

    method PublishEnvelope(e: Envelope) returns (r: Result<nat, DeliveryError>)
      requires Valid()
      modifies this, records
      ensures Valid() && records == old(records)
      ensures var f := Publish(old(Contents()), records.Length, e);
              r == f.result && Contents() == PutAll(old(Contents()), f.writes)
      ensures r.Ok? ==> r.value < len && Contents()[r.value].envelope.idempotencyKey == e.idempotencyKey
      ensures if exists d <- old(Contents()) :: d.envelope.idempotencyKey == e.idempotencyKey
              then r.Ok? && Contents() == old(Contents())
              else if old(len) >= records.Length then r == Err(QueueFull) && Contents() == old(Contents())
              else r == Ok(old(len)) && Contents() == old(Contents()) + [Delivery(e, Published, None)]
    {
      var existing := FindByIdempotencyKey(e.idempotencyKey);
      assert existing.Some? ==> Contents()[existing.value] in Contents();
      if existing.Some? { return Ok(existing.value); }
      if len >= records.Length { return Err(QueueFull); }
      PutOne(Contents(), Write(len, Delivery(e, Published, None)));
      assert forall d <- Contents() :: d.envelope.idempotencyKey != e.idempotencyKey;
      var slot := len;
      records[slot] := Some(Delivery(e, Published, None));
      len := len + 1;
      r := Ok(slot);
    }

    /** Overwrite one slot. */
    method SetSlot(slot: nat, d: Delivery)
      requires Valid() && slot < len
      modifies records
      ensures Valid() && Contents() == PutAll(old(Contents()), [Write(slot, d)])
      ensures Contents() == old(Contents())[slot := d]
    {
      PutOne(Contents(), Write(slot, d));
      records[slot] := Some(d);
    }

    method ClaimNext(worker: Bytes, nowMs: nat, leaseMs: nat) returns (r: Result<nat, DeliveryError>)
      requires Valid()
      modifies records
      ensures Valid()
      ensures var f := Claim(old(Contents()), worker, nowMs, leaseMs);
              r == f.result && Contents() == PutAll(old(Contents()), f.writes)
      ensures r.Err? ==> && r.error == NothingAvailable && Contents() == old(Contents())
                         && forall d <- old(Contents()) :: d.state !in {Published, Expired}
      ensures r.Ok? ==>
                var i, before := r.value, old(Contents());
                && i < |before| && before[i].state in {Published, Expired}
                && (forall j :: 0 <= j < i ==> before[j].state !in {Published, Expired})
                && var attempt := if before[i].lease.Some? then before[i].lease.value.attempt + 1 else 1;
                   Contents() == before[i := Delivery(before[i].envelope, Leased,
                                                      Some(Lease(worker, nowMs + leaseMs, attempt)))]
    {
      for i := 0 to len
        invariant Valid() && Contents() == old(Contents())
        invariant forall j :: 0 <= j < i ==> !Free(Contents()[j])
      {
        var d := records[i].value;
        if d.state == Published || d.state == Expired {
          SetSlot(i, Claimed(d, worker, nowMs, leaseMs));
          return Ok(i);
        }
      }
      r := Err(NothingAvailable);
    }

    method Receive(slot: nat, worker: Bytes) returns (r: Result<nat, DeliveryError>)
      requires Valid()
      modifies records
      ensures Valid()
      ensures var f := MarkReceived(old(Contents()), slot, worker);
              r == f.result && Contents() == PutAll(old(Contents()), f.writes)
      ensures if slot >= old(len) then r == Err(NoSuchRecord) && Contents() == old(Contents())
              else
                var d := old(Contents())[slot];
                if d.lease.None? || d.lease.value.owner != worker
                then r == Err(NotLeaseOwner) && Contents() == old(Contents())
                else if d.state != Leased
                then r == Err(BadTransition) && Contents() == old(Contents())
                else r == Ok(slot) && Contents() == old(Contents())[slot := Delivery(d.envelope, Received, d.lease)]
    {
      if slot >= len { return Err(NoSuchRecord); }
      var d := records[slot].value;
      if d.lease.None? || d.lease.value.owner != worker { return Err(NotLeaseOwner); }
      if d.state != Leased { return Err(BadTransition); }
      SetSlot(slot, d.(state := Received));
      r := Ok(slot);
    }

    method SettleSlot(slot: nat, worker: Bytes, outcome: EventState) returns (r: Result<nat, DeliveryError>)
      requires Valid()
      modifies records
      ensures Valid()
      ensures var f := Settle(old(Contents()), slot, worker, outcome);
              r == f.result && Contents() == PutAll(old(Contents()), f.writes)
      ensures if slot >= old(len) then r == Err(NoSuchRecord) && Contents() == old(Contents())
              else
                var d := old(Contents())[slot];
                if d.lease.None? || d.lease.value.owner != worker
                then r == Err(NotLeaseOwner) && Contents() == old(Contents())
                else if d.state !in {Leased, Received} || outcome == Request
                then r == Err(BadTransition) && Contents() == old(Contents())
                else r == Ok(slot) && Contents() == old(Contents())[slot := Delivery(
                       d.envelope, if outcome == OkState then SettledOk else SettledError, None)]
    {
      if slot >= len { return Err(NoSuchRecord); }
      var d := records[slot].value;
      if d.lease.None? || d.lease.value.owner != worker { return Err(NotLeaseOwner); }
      if d.state != Leased && d.state != Received { return Err(BadTransition); }
      match outcome
      case Request => return Err(BadTransition);
      case OkState =>
        SetSlot(slot, d.(state := SettledOk, lease := None));
        return Ok(slot);
      case ErrorState =>
        SetSlot(slot, d.(state := SettledError, lease := None));
        return Ok(slot);
    }

    method ReapExpired(nowMs: nat)
      requires Valid()
      modifies records
      ensures Valid() && Contents() == Reaped(old(Contents()), nowMs)
      ensures forall i :: 0 <= i < len ==>
                var d := old(Contents())[i];
                Contents()[i] == if d.state in {Leased, Received} && d.lease.Some? && d.lease.value.untilMs <= nowMs
                                 then Delivery(d.envelope, Expired, d.lease) else d
    {
      ghost var before := Contents();
      for i := 0 to len
        invariant Valid()
        invariant forall j :: 0 <= j < i ==> Contents()[j] == ReapOne(before[j], nowMs)
        invariant forall j :: i <= j < len ==> Contents()[j] == before[j]
      {
        var d := records[i].value;
        if (d.state == Leased || d.state == Received) && d.lease.Some? && nowMs >= d.lease.value.untilMs {
          records[i] := Some(d.(state := Expired));
        }
      }
    }
  }
}
