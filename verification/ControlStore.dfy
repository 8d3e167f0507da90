/** The control store: every statement, and the settle transaction, is one step on a table of event
    rows and a table of settlements. The clock is an argument of each step. */
module ControlStore {
  import opened Common
  import opened KeyOrder

  type Text = seq<int>

  datatype DeliveryState = Published | Leased | Received | SettledOk | SettledError | Expired {
    predicate Settled() { SettledOk? || SettledError? }
    predicate Free() { Published? || Expired? }
    predicate Held() { Leased? || Received? }
  }

  datatype Envelope = Envelope(id: Text, idempotencyKey: Text, event: Text, createdAtMs: int, valid: bool)

  datatype Row = Row(
    envelope: Envelope, state: DeliveryState, owner: Option<Text>, leaseUntilMs: Option<int>,
    attempt: nat, token: nat, updatedAtMs: int)

  datatype Kind = ReceivedFrame | OkFrame | ErrorFrame | LeaseExpiredFrame

  datatype Frame = Frame(kind: Kind, eventId: Text, workerId: Text, token: nat, atMs: int, evidence: Text) {
    predicate Valid() { eventId != [] && workerId != [] && token != 0 }
  }

  datatype Settlement = Settlement(kind: Kind, workerId: Text, token: nat, atMs: int, evidence: Text)

  datatype Tables = Tables(events: map<Text, Row>, settlements: map<Text, Settlement>)

  const EMPTY := Tables(map[], map[])

  datatype Failure = InvalidRequest | DuplicateId | NothingAvailable | StaleLease | InvalidTransition

  // ---- the statements -----------------------------------------------------------------------

  /** The event that already has the idempotency key. */
  function ByKey(t: Tables, key: Text): set<Text> {
    set id | id in t.events && t.events[id].envelope.idempotencyKey == key
  }

  /** A publish of a known key changes nothing; a new key with a known id violates the primary key. */
  function PublishRow(t: Tables, env: Envelope, nowMs: int): Tables {
    if env.valid && ByKey(t, env.idempotencyKey) == {} && env.id !in t.events
    then t.(events := t.events[env.id := Row(env, Published, None, None, 0, 0, nowMs)])
    else t
  }

  /** Claims are ordered by creation time, then id. */
  function Rank(id: Text, row: Row): Key {
    [row.envelope.createdAtMs] + id
  }

  function FreeRanks(t: Tables): set<Key> {
    set id | id in t.events && t.events[id].state.Free() :: Rank(id, t.events[id])
  }

  lemma RankOrder(a: Text, x: Row, b: Text, y: Row)
    ensures Less(Rank(a, x), Rank(b, y))
            <==> x.envelope.createdAtMs < y.envelope.createdAtMs
                 || (x.envelope.createdAtMs == y.envelope.createdAtMs && Less(a, b))
    ensures Rank(a, x) == Rank(b, y) <==> a == b && x.envelope.createdAtMs == y.envelope.createdAtMs
  {
    assert Rank(a, x)[1..] == a && Rank(b, y)[1..] == b;
  }

  /** The id of the row that the claim statement picks: a free row, created before every other free row, or at the
      same time with the smaller id. */
  function Candidate(t: Tables): (id: Text)
    requires FreeRanks(t) != {}
    ensures id in t.events && t.events[id].state.Free()
    ensures Rank(id, t.events[id]) == Least(FreeRanks(t))
    ensures forall o <- t.events :: t.events[o].state.Free() && o != id ==>
              var at, other := t.events[id].envelope.createdAtMs, t.events[o].envelope.createdAtMs;
              at < other || (at == other && Less(id, o))
  {
    var id := Least(FreeRanks(t))[1..];
    assert forall o <- t.events :: t.events[o].state.Free() && o != id ==>
             var at, other := t.events[id].envelope.createdAtMs, t.events[o].envelope.createdAtMs;
             at < other || (at == other && Less(id, o))
    by { LeastRank(t, id); }
    id
  }

  lemma LeastRank(t: Tables, id: Text)
    requires FreeRanks(t) != {} && id == Least(FreeRanks(t))[1..]
    ensures id in t.events && t.events[id].state.Free() && Rank(id, t.events[id]) == Least(FreeRanks(t))
    ensures forall o <- t.events :: t.events[o].state.Free() && o != id ==>
              var at, other := t.events[id].envelope.createdAtMs, t.events[o].envelope.createdAtMs;
              at < other || (at == other && Less(id, o))
  {
    var x :| x in t.events && t.events[x].state.Free() && Rank(x, t.events[x]) == Least(FreeRanks(t));
    assert Rank(x, t.events[x])[1..] == x;
    forall o <- t.events | t.events[o].state.Free() && o != id
      ensures var at, other := t.events[id].envelope.createdAtMs, t.events[o].envelope.createdAtMs;
              at < other || (at == other && Less(id, o))
    {
      assert Rank(o, t.events[o]) in FreeRanks(t);
      RankOrder(id, t.events[id], o, t.events[o]);
    }
  }

  function Lease(row: Row, worker: Text, nowMs: int, untilMs: int): Row {
    row.(state := Leased, owner := Some(worker), leaseUntilMs := Some(untilMs), attempt := row.attempt + 1,
         token := row.token + 1, updatedAtMs := nowMs)
  }

  function ClaimRow(t: Tables, worker: Text, nowMs: int, untilMs: int): Tables
    requires FreeRanks(t) != {}
  {
    var id := Candidate(t);
    t.(events := t.events[id := Lease(t.events[id], worker, nowMs, untilMs)])
  }

  /** The frame names the current owner and token of a lease that has not run out. */
  predicate Holds(t: Tables, f: Frame, nowMs: int) {
    && f.eventId in t.events
    && t.events[f.eventId].owner == Some(f.workerId)
    && t.events[f.eventId].token == f.token
    && t.events[f.eventId].leaseUntilMs.Some? && t.events[f.eventId].leaseUntilMs.value > nowMs
  }

  predicate MayReceive(t: Tables, f: Frame, nowMs: int) {
    f.kind == ReceivedFrame && f.Valid() && Holds(t, f, nowMs) && t.events[f.eventId].state == Leased
  }

  function ReceiveRow(t: Tables, f: Frame, nowMs: int): Tables {
    if MayReceive(t, f, nowMs)
    then t.(events := t.events[f.eventId := t.events[f.eventId].(state := Received, updatedAtMs := nowMs)])
    else t
  }

  predicate MaySettle(t: Tables, f: Frame, nowMs: int) {
    (f.kind == OkFrame || f.kind == ErrorFrame) && f.Valid() && Holds(t, f, nowMs) && t.events[f.eventId].state.Held()
  }

  function Target(kind: Kind): DeliveryState {
    if kind == ErrorFrame then SettledError else SettledOk
  }

  /** The settlement insert does nothing if the event has one. */
  function SettleRow(t: Tables, f: Frame, nowMs: int): Tables {
    if MaySettle(t, f, nowMs)
    then
      var row := t.events[f.eventId].(
        state := Target(f.kind), owner := None, leaseUntilMs := None, updatedAtMs := nowMs);
      Tables(t.events[f.eventId := row],
             if f.eventId in t.settlements then t.settlements
             else t.settlements[f.eventId := Settlement(f.kind, f.workerId, f.token, f.atMs, f.evidence)])
    else t
  }

  predicate RunOut(row: Row, nowMs: int) {
    row.state.Held() && row.leaseUntilMs.Some? && row.leaseUntilMs.value <= nowMs
  }

  function Requeue(row: Row, nowMs: int): Row {
    if RunOut(row, nowMs)
    then row.(state := Expired, owner := None, leaseUntilMs := None, updatedAtMs := nowMs)
    else row
  }

  function RequeueAll(t: Tables, nowMs: int): Tables {
    t.(events := map id | id in t.events :: Requeue(t.events[id], nowMs))
  }

  // ---- runs ---------------------------------------------------------------------------------

  /** A lease as granted: window [fromMs, untilMs). */
  datatype Grant = Grant(eventId: Text, worker: Text, token: nat, fromMs: int, untilMs: int)

  /** The tables and the history: every grant, and every receive and settle that succeeded. */
  datatype System = System(
    tables: Tables, grants: seq<Grant>, receives: seq<Frame>, settles: seq<Frame>, clock: int)

  datatype Step =
    | Publish(env: Envelope)
    | Claim(worker: Text, leaseNs: int)
    | MarkReceived(frame: Frame)
    | Settle(frame: Frame)
    | RequeueExpired

  /** A positive lease duration in whole milliseconds. */
  function LeaseMs(leaseNs: int): int {
    leaseNs / 1_000_000
  }

  predicate MayClaim(t: Tables, worker: Text, leaseNs: int) {
    worker != [] && leaseNs > 0 && FreeRanks(t) != {}
  }

  function Do(s: System, step: Step, nowMs: int): System {
    var t := s.tables;
    var s := s.(clock := nowMs);
    match step
    case Publish(env) => s.(tables := PublishRow(t, env, nowMs))
    case Claim(worker, leaseNs) =>
      if MayClaim(t, worker, leaseNs)
      then
        var id := Candidate(t);
        var untilMs := nowMs + LeaseMs(leaseNs);
        s.(tables := ClaimRow(t, worker, nowMs, untilMs),
           grants := s.grants + [Grant(id, worker, t.events[id].token + 1, nowMs, untilMs)])
      else s
    case MarkReceived(f) =>
      s.(tables := ReceiveRow(t, f, nowMs),
         receives := if MayReceive(t, f, nowMs) then s.receives + [f] else s.receives)
    case Settle(f) =>
      s.(tables := SettleRow(t, f, nowMs), settles := if MaySettle(t, f, nowMs) then s.settles + [f] else s.settles)
    case RequeueExpired => s.(tables := RequeueAll(t, nowMs))
  }

  type Timed = (Step, int)

  function Run(s: System, steps: seq<Timed>): System {
    if steps == [] then s
    else
      var last := steps[|steps| - 1];
      Do(Run(s, steps[..|steps| - 1]), last.0, last.1)
  }

  /** The clock never goes back. */
  predicate Forward(start: int, steps: seq<Timed>) {
    && (forall i :: 0 <= i < |steps| ==> start <= steps[i].1)
    && (forall i, j :: 0 <= i < j < |steps| ==> steps[i].1 <= steps[j].1)
  }

  function Opened(clock: int): System {
    System(EMPTY, [], [], [], clock)
  }
}
