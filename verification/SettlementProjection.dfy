/** The recovery projection: one current record per event, searched linearly, and the rules that
    decide which snapshot may follow which. */
module SettlementProjection {

  import opened Common

  datatype State = Published | Leased | Received | SettledOk | SettledError | Expired {
    predicate Settled() { SettledOk? || SettledError? }
  }

  datatype Record = Record(
    sequence: nat, eventId: Bytes, canonicalEvent: Bytes, idempotencyKey: Bytes,
    payloadReference: Bytes, payload: Bytes, state: State, leaseOwner: Option<Bytes>,
    leaseDeadlineMs: nat, attempt: nat, fencingGeneration: nat, createdAtMs: nat, updatedAtMs: nat,
    correlationId: Bytes, causationId: Bytes)

  datatype Error =
    | InvalidRecord | InvalidTransition | InvalidChecksum | ChecksumMismatch | RecordTooLarge | JournalFull
    | InvalidJson | SequenceRegression | IdempotencyConflict

  datatype Projection = Projection(entries: seq<Record>, lastSequence: nat)

  const EMPTY := Projection([], 0)

  predicate Allowed(from: State, to: State) {
    match from
    case Published => to in {Published, Leased, Expired}
    case Leased => to in {Leased, Received, SettledOk, SettledError, Expired}
    case Received => to in {Received, Leased, SettledOk, SettledError, Expired}
    case Expired => to in {Expired, Leased}
    case SettledOk | SettledError => to == from
  }

  /** The first entry with the key, as the linear search finds it. */
  function FindKey(entries: seq<Record>, key: Bytes): (r: Option<nat>)
    ensures r.Some? ==> r.value < |entries| && entries[r.value].idempotencyKey == key
    ensures r.None? <==> forall i :: 0 <= i < |entries| ==> entries[i].idempotencyKey != key
    ensures r.Some? ==> forall i :: 0 <= i < r.value ==> entries[i].idempotencyKey != key
  {
    if entries == [] then None
    else if entries[0].idempotencyKey == key then Some(0)
    else match FindKey(entries[1..], key) case None => None case Some(i) => Some(i + 1)
  }

  function FindEvent(entries: seq<Record>, id: Bytes): (r: Option<nat>)
    ensures r.Some? ==> r.value < |entries| && entries[r.value].eventId == id
    ensures r.None? <==> forall i :: 0 <= i < |entries| ==> entries[i].eventId != id
    ensures r.Some? ==> forall i :: 0 <= i < r.value ==> entries[i].eventId != id
  {
    if entries == [] then None
    else if entries[0].eventId == id then Some(0)
    else match FindEvent(entries[1..], id) case None => None case Some(i) => Some(i + 1)
  }

  function Validate(p: Projection, r: Record): Option<Error> {
    if r.sequence <= p.lastSequence then Some(SequenceRegression)
    else
      var k := FindKey(p.entries, r.idempotencyKey);
      if k.Some? && p.entries[k.value].eventId != r.eventId then Some(IdempotencyConflict)
      else
        var e := FindEvent(p.entries, r.eventId);
        if e.Some? && !Allowed(p.entries[e.value].state, r.state) then Some(InvalidTransition) else None
  }

  function Apply(p: Projection, r: Record): Result<Projection, Error> {
    match Validate(p, r)
    case Some(e) => Err(e)
    case None =>
      match FindEvent(p.entries, r.eventId)
      case Some(i) => Ok(Projection(p.entries[i := r], r.sequence))
      case None => Ok(Projection(p.entries + [r], r.sequence))
  }

  function ApplyAll(p: Projection, rs: seq<Record>): Result<Projection, Error> {
    if rs == [] then Ok(p)
    else
      match ApplyAll(p, rs[..|rs| - 1])
      case Err(e) => Err(e)
      case Ok(q) => Apply(q, rs[|rs| - 1])
  }

  predicate IsSettled(p: Projection, key: Bytes) {
    var i := FindKey(p.entries, key);
    i.Some? && p.entries[i.value].state.Settled()
  }

  predicate IsClaimable(p: Projection, id: Bytes, nowMs: nat) {
    var i := FindEvent(p.entries, id);
    i.Some? &&
    match p.entries[i.value].state
    case Published | Expired => true
    case Leased | Received => p.entries[i.value].leaseDeadlineMs <= nowMs
    case SettledOk | SettledError => false
  }

  // ---- what every run of the projection keeps -----------------------------------------------

  ghost predicate Distinct(p: Projection) {
    && (forall i, j :: 0 <= i < j < |p.entries| ==> p.entries[i].eventId != p.entries[j].eventId)
    && (forall i, j :: 0 <= i < j < |p.entries| ==> p.entries[i].idempotencyKey != p.entries[j].idempotencyKey)
  }

  lemma ApplyKeepsDistinct(p: Projection, r: Record)
    requires Distinct(p) && Apply(p, r).Ok?
    ensures Distinct(Apply(p, r).value)
  {
    var q := Apply(p, r).value;
    var k := FindKey(p.entries, r.idempotencyKey);
    match FindEvent(p.entries, r.eventId)
    case None =>
      assert k.None?;
    case Some(i) =>
      forall j | 0 <= j < |p.entries| && j != i
        ensures q.entries[j].idempotencyKey != r.idempotencyKey
      {
        if k.Some? {
          assert p.entries[k.value].eventId == p.entries[i].eventId;
        }
      }
  }

  /** In every run from an empty projection event ids are distinct and so are idempotency keys. */
  lemma {:induction false} RunKeepsDistinct(rs: seq<Record>)
    requires ApplyAll(EMPTY, rs).Ok?
    ensures Distinct(ApplyAll(EMPTY, rs).value)
    decreases |rs|
  {
    if rs != [] {
      RunKeepsDistinct(rs[..|rs| - 1]);
      ApplyKeepsDistinct(ApplyAll(EMPTY, rs[..|rs| - 1]).value, rs[|rs| - 1]);
    }
  }

  /** With distinct entries the linear search answers like a map. */
  lemma SearchIsLookup(p: Projection, i: nat)
    requires Distinct(p) && i < |p.entries|
    ensures FindEvent(p.entries, p.entries[i].eventId) == Some(i)
    ensures FindKey(p.entries, p.entries[i].idempotencyKey) == Some(i)
  {}

  /** After a snapshot is applied its event has exactly that record, and every other event the
      record it had. */
  lemma ApplyIsUpdate(p: Projection, r: Record, id: Bytes)
    requires Distinct(p) && Apply(p, r).Ok?
    ensures Current(Apply(p, r).value, id) == if id == r.eventId then Some(r) else Current(p, id)
  {
    var q := Apply(p, r).value;
    ApplyKeepsDistinct(p, r);
    var f := FindEvent(p.entries, id);
    if id == r.eventId {
      var i := if f.Some? then f.value else |p.entries|;
      assert q.entries[i] == r;
      SearchIsLookup(q, i);
    } else if f.Some? {
      assert q.entries[f.value] == p.entries[f.value];
      SearchIsLookup(q, f.value);
    }
  }

  function Current(p: Projection, id: Bytes): Option<Record> {
    match FindEvent(p.entries, id)
    case None => None
    case Some(i) => Some(p.entries[i])
  }

  lemma SettledStays(p: Projection, r: Record, id: Bytes)
    requires Distinct(p) && Apply(p, r).Ok? && Current(p, id).Some? && Current(p, id).value.state.Settled()
    ensures Distinct(Apply(p, r).value)
    ensures var c := Current(Apply(p, r).value, id);
            c.Some? && c.value.state == Current(p, id).value.state
  {
    ApplyKeepsDistinct(p, r);
    ApplyIsUpdate(p, r, id);
  }

  /** A settled event never changes state again, in any further run. */
  lemma {:induction false} SettledIsFinal(p: Projection, rs: seq<Record>, id: Bytes)
    requires Distinct(p) && Current(p, id).Some? && Current(p, id).value.state.Settled()
    requires ApplyAll(p, rs).Ok?
    ensures Distinct(ApplyAll(p, rs).value)
    ensures var c := Current(ApplyAll(p, rs).value, id);
            c.Some? && c.value.state == Current(p, id).value.state
    decreases |rs|
  {
    if rs != [] {
      var n := |rs| - 1;
      SettledIsFinal(p, rs[..n], id);
      SettledStays(ApplyAll(p, rs[..n]).value, rs[n], id);
    }
  }

  /** A settled key stays settled under one more snapshot unless that snapshot gives the key's
      event another key: exactly then the key is forgotten. */
  lemma SettledKeyStays(p: Projection, r: Record, key: Bytes)
    requires Distinct(p) && IsSettled(p, key) && Apply(p, r).Ok?
    ensures var owner := p.entries[FindKey(p.entries, key).value].eventId;
            IsSettled(Apply(p, r).value, key) <==> (r.eventId == owner ==> r.idempotencyKey == key)
  {
    var q := Apply(p, r).value;
    ApplyKeepsDistinct(p, r);
    var i := FindKey(p.entries, key).value;
    SearchIsLookup(p, i);
    if r.eventId == p.entries[i].eventId {
      assert q.entries == p.entries[i := r];
      if r.idempotencyKey == key { SearchIsLookup(q, i); }
    } else {
      assert q.entries[i] == p.entries[i];
      SearchIsLookup(q, i);
    }
  }

  /** The failing side is always within reach: whatever the projection and whatever other key is unused, there is
      a snapshot that the projection accepts and that makes it forget the settled key. */
  lemma SettledKeyForgotten(p: Projection, key: Bytes, unused: Bytes) returns (r: Record)
    requires Distinct(p) && IsSettled(p, key) && unused != key && FindKey(p.entries, unused).None?
    ensures Apply(p, r).Ok? && r.idempotencyKey == unused && !IsSettled(Apply(p, r).value, key)
  {
    var i := FindKey(p.entries, key).value;
    r := p.entries[i].(sequence := p.lastSequence + 1, idempotencyKey := unused);
    SearchIsLookup(p, i);
    SettledKeyStays(p, r, key);
  }

  /** Every snapshot of an event carries the same idempotency key. */
  ghost predicate KeepsKeys(rs: seq<Record>) {
    forall i, j :: 0 <= i < j < |rs| && rs[i].eventId == rs[j].eventId ==> rs[i].idempotencyKey == rs[j].idempotencyKey
  }

  /** Every entry is a snapshot that was applied. */
  lemma {:induction false} EntriesComeFromRun(rs: seq<Record>)
    requires ApplyAll(EMPTY, rs).Ok?
    ensures forall e <- ApplyAll(EMPTY, rs).value.entries :: e in rs
    decreases |rs|
  {
    if rs != [] {
      var n := |rs| - 1;
      EntriesComeFromRun(rs[..n]);
      var q := ApplyAll(EMPTY, rs[..n]).value;
      assert rs == rs[..n] + [rs[n]];
      assert forall e <- q.entries :: e in rs;
    }
  }

  /** The event that holds a key in the projection had that key in the run. */
  lemma OwnerKeepsKey(rs: seq<Record>, key: Bytes)
    requires rs != [] && KeepsKeys(rs) && ApplyAll(EMPTY, rs[..|rs| - 1]).Ok?
    requires FindKey(ApplyAll(EMPTY, rs[..|rs| - 1]).value.entries, key).Some?
    ensures var p := ApplyAll(EMPTY, rs[..|rs| - 1]).value;
            var r := rs[|rs| - 1];
            r.eventId == p.entries[FindKey(p.entries, key).value].eventId ==> r.idempotencyKey == key
  {
    var init := rs[..|rs| - 1];
    EntriesComeFromRun(init);
    var p := ApplyAll(EMPTY, init).value;
    var e := p.entries[FindKey(p.entries, key).value];
    assert e in init;
    var i :| 0 <= i < |init| && init[i] == e;
    assert rs[i] == e;
  }

  /** In a run where each event keeps its key, a key that is settled at some point is settled ever
      after. */
  lemma {:induction false} SettledKeyIsFinal(rs: seq<Record>, before: seq<Record>, key: Bytes)
    requires before <= rs && KeepsKeys(rs) && ApplyAll(EMPTY, rs).Ok?
    requires ApplyAll(EMPTY, before).Ok? && IsSettled(ApplyAll(EMPTY, before).value, key)
    ensures IsSettled(ApplyAll(EMPTY, rs).value, key)
    decreases |rs|
  {
    if before != rs {
      var init := AllButLast(rs, before);
      KeepsKeysPrefix(rs, |init|);
      SettledKeyIsFinal(init, before, key);
      SettledOnce(rs, init, key);
    }
  }

  lemma AllButLast(rs: seq<Record>, before: seq<Record>) returns (init: seq<Record>)
    requires before < rs
    ensures init == rs[..|rs| - 1] && before <= init && |init| < |rs|
  {
    init := rs[..|rs| - 1];
  }

  lemma SettledOnce(rs: seq<Record>, init: seq<Record>, key: Bytes)
    requires rs != [] && init == rs[..|rs| - 1] && KeepsKeys(rs) && ApplyAll(EMPTY, rs).Ok?
    requires ApplyAll(EMPTY, init).Ok? && IsSettled(ApplyAll(EMPTY, init).value, key)
    ensures IsSettled(ApplyAll(EMPTY, rs).value, key)
  {
    RunKeepsDistinct(init);
    OwnerKeepsKey(rs, key);
    SettledKeyStays(ApplyAll(EMPTY, init).value, rs[|rs| - 1], key);
  }

  lemma KeepsKeysPrefix(rs: seq<Record>, n: nat)
    requires n <= |rs| && KeepsKeys(rs)
    ensures KeepsKeys(rs[..n])
  {}

  /** The imperative projection. */
  class RecoveryProjection {
    var entries: seq<Record>
    var lastSequence: nat

    ghost function Value(): Projection
      reads this
    {
      Projection(entries, lastSequence)
    }

    constructor ()
      ensures Value() == EMPTY
    {
      entries, lastSequence := [], 0;
    }

    method FindByIdempotencyKey(key: Bytes) returns (r: Option<nat>)
      ensures r == FindKey(entries, key)
    {
      for i := 0 to |entries|
        invariant forall j :: 0 <= j < i ==> entries[j].idempotencyKey != key
      {
        if entries[i].idempotencyKey == key { return Some(i); }
      }
      r := None;
    }

    method FindByEventId(id: Bytes) returns (r: Option<nat>)
      ensures r == FindEvent(entries, id)
    {
      for i := 0 to |entries|
        invariant forall j :: 0 <= j < i ==> entries[j].eventId != id
      {
        if entries[i].eventId == id { return Some(i); }
      }
      r := None;
    }

    method ValidateRecord(r: Record) returns (e: Option<Error>)
      ensures e == Validate(Value(), r)
    {
      if r.sequence <= lastSequence { return Some(SequenceRegression); }
      var k := FindByIdempotencyKey(r.idempotencyKey);
      if k.Some? && entries[k.value].eventId != r.eventId { return Some(IdempotencyConflict); }
      var i := FindByEventId(r.eventId);
      if i.Some? && !Allowed(entries[i.value].state, r.state) { return Some(InvalidTransition); }
      e := None;
    }

    method ApplyRecord(r: Record) returns (e: Option<Error>)
      modifies this
      ensures e == Validate(old(Value()), r)
      ensures Value() == if e.None? then Apply(old(Value()), r).value else old(Value())
    {
      e := ValidateRecord(r);
      if e.Some? { return; }
      var i := FindByEventId(r.eventId);
      match i {
        case Some(at) => entries := entries[at := r];
        case None => entries := entries + [r];
      }
      lastSequence := r.sequence;
    }

    method Settled(key: Bytes) returns (b: bool)
      ensures b == IsSettled(Value(), key)
      ensures b <==> exists i :: 0 <= i < |entries| && entries[i].idempotencyKey == key
                       && entries[i].state in {SettledOk, SettledError}
                       && forall j :: 0 <= j < i ==> entries[j].idempotencyKey != key
    {
      var i := FindByIdempotencyKey(key);
      b := i.Some? && entries[i.value].state.Settled();
    }

    method Claimable(id: Bytes, nowMs: nat) returns (b: bool)
      ensures b == IsClaimable(Value(), id, nowMs)
      ensures b <==> exists i :: 0 <= i < |entries| && entries[i].eventId == id
                       && (|| entries[i].state in {Published, Expired}
                           || (entries[i].state in {Leased, Received} && entries[i].leaseDeadlineMs <= nowMs))
                       && forall j :: 0 <= j < i ==> entries[j].eventId != id
    {
      var i := FindByEventId(id);
      if i.None? { return false; }
      match entries[i.value].state
      case Published | Expired => b := true;
      case Leased | Received => b := entries[i.value].leaseDeadlineMs <= nowMs;
      case SettledOk | SettledError => b := false;
    }
  }
}
