/** The control store's methods as they run, and what publishing a known key returns. */
module ControlDb {
  import opened Common
  import opened KeyOrder
  import opened ControlStore
  import opened LeaseSafety

  // ---- publishing is idempotent in every run ------------------------------------------------

  /** Rows are never removed and never change their envelope. */
  lemma {:induction false} EnvelopeStays(s: System, steps: seq<Timed>, id: Text)
    requires id in s.tables.events
    ensures id in Run(s, steps).tables.events
    ensures Run(s, steps).tables.events[id].envelope == s.tables.events[id].envelope
    decreases |steps|
  {
    if steps != [] {
      var init, last := steps[..|steps| - 1], steps[|steps| - 1];
      EnvelopeStays(s, init, id);
      StepKeepsEnvelope(Run(s, init), last.0, last.1, id);
    }
  }

  lemma StepKeepsEnvelope(s: System, step: Step, nowMs: int, id: Text)
    requires id in s.tables.events
    ensures id in Do(s, step, nowMs).tables.events
    ensures Do(s, step, nowMs).tables.events[id].envelope == s.tables.events[id].envelope
  {}

  lemma {:induction false} RunConcat(s: System, a: seq<Timed>, b: seq<Timed>)
    ensures Run(s, a + b) == Run(Run(s, a), b)
    decreases |b|
  {
    if b == [] {
      assert a + b == a;
    } else {
      assert (a + b)[..|a + b| - 1] == a + b[..|b| - 1];
      RunConcat(s, a, b[..|b| - 1]);
    }
  }

  /** Once an envelope is stored, publishing its key again, at any later time and with any content,
      changes no table and finds exactly the envelope that was stored first. */
  lemma RepublishReturnsFirst(clock: int, before: seq<Timed>, after: seq<Timed>, id: Text, env: Envelope, nowMs: int)
    requires id in Run(Opened(clock), before).tables.events
    requires env.idempotencyKey == Run(Opened(clock), before).tables.events[id].envelope.idempotencyKey
    ensures var first := Run(Opened(clock), before).tables.events[id].envelope;
            var t := Run(Opened(clock), before + after).tables;
            && PublishRow(t, env, nowMs) == t
            && ByKey(t, env.idempotencyKey) == {id}
            && id in t.events && t.events[id].envelope == first
  {
    var s := Run(Opened(clock), before);
    RunConcat(Opened(clock), before, after);
    EnvelopeStays(s, after, id);
    OpenedOk(clock);
    RunKeepsInv(Opened(clock), before + after);
    var t := Run(s, after).tables;
    assert KeysUnique(t);
    assert id in ByKey(t, env.idempotencyKey);
  }

  // ---- the store as it runs -----------------------------------------------------------------

  class Store {
    var events: map<Text, Row>
    var settlements: map<Text, Settlement>

    ghost function Value(): Tables
      reads this
    {
      Tables(events, settlements)
    }

    constructor ()
      ensures Value() == EMPTY
    {
      events, settlements := map[], map[];
    }

    method Publish(env: Envelope, nowMs: int) returns (stored: Option<Envelope>, created: bool)
      modifies this`events
      ensures Value() == PublishRow(old(Value()), env, nowMs)
      ensures created <==> Value() != old(Value())
      ensures created <==> env.valid && env.id !in old(events)
                           && forall o <- old(events) :: old(events)[o].envelope.idempotencyKey != env.idempotencyKey
      ensures created ==> stored == Some(env)
                          && events == old(events)[env.id := Row(env, Published, None, None, 0, 0, nowMs)]
      ensures !created && env.valid && stored.Some? ==>
                exists o <- old(events) ::
                  && old(events)[o].envelope.idempotencyKey == env.idempotencyKey
                  && stored == Some(old(events)[o].envelope)
      ensures stored.None? <==>
                !env.valid || (env.id in old(events)
                  && forall o <- old(events) :: old(events)[o].envelope.idempotencyKey != env.idempotencyKey)
    {
      if !env.valid { return None, false; }
      var known := set id | id in events && events[id].envelope.idempotencyKey == env.idempotencyKey;
      assert forall o <- events :: events[o].envelope.idempotencyKey == env.idempotencyKey ==> o in known;
      if known != {} {
        var id :| id in known;
        return Some(events[id].envelope), false;
      }
      if env.id in events { return None, false; }
      events := events[env.id := Row(env, Published, None, None, 0, 0, nowMs)];
      return Some(env), true;
    }

    /** The claimed id and its token, or nothing. The claimed row was free and comes, by creation time and then by
        id, before every other free row. */
    method Claim(worker: Text, leaseNs: int, nowMs: int) returns (claimed: Option<(Text, nat)>, error: Option<Failure>)
      modifies this`events
      ensures MayClaim(old(Value()), worker, leaseNs) ==>
                && Value() == ClaimRow(old(Value()), worker, nowMs, nowMs + LeaseMs(leaseNs))
                && var id := Candidate(old(Value()));
                   claimed == Some((id, old(events)[id].token + 1)) && error.None?
      ensures !MayClaim(old(Value()), worker, leaseNs) ==>
                && Value() == old(Value()) && claimed.None?
                && error == Some(if worker == [] || leaseNs <= 0 then InvalidRequest else NothingAvailable)
      ensures claimed.Some? <==> worker != [] && leaseNs > 0
                                 && exists o <- old(events) :: old(events)[o].state in {Published, Expired}
      ensures claimed.Some? ==>
                var (id, token) := claimed.value;
                && id in old(events) && old(events)[id].state in {Published, Expired}
                && token == old(events)[id].token + 1
                && (forall o <- old(events) :: o != id && old(events)[o].state in {Published, Expired} ==>
                      var at, other := old(events)[id].envelope.createdAtMs, old(events)[o].envelope.createdAtMs;
                      at < other || (at == other && Less(id, o)))
                && id in events && events[id].leaseUntilMs.Some?
                && (var untilMs := events[id].leaseUntilMs.value;
                    && 1_000_000 * (untilMs - nowMs) <= leaseNs < 1_000_000 * (untilMs - nowMs + 1)
                    && events == old(events)[id := Row(old(events)[id].envelope, Leased, Some(worker), Some(untilMs),
                                                       old(events)[id].attempt + 1, token, nowMs)])
    {
      if worker == [] || leaseNs <= 0 { return None, Some(InvalidRequest); }
      var untilMs := nowMs + leaseNs / 1_000_000;
      var free := set id | id in events && events[id].state.Free() :: Rank(id, events[id]);
      assert free == FreeRanks(Value());
      if free == {} {
        assert forall o <- events :: events[o].state.Free() ==> Rank(o, events[o]) in free;
        return None, Some(NothingAvailable);
      }
      var id := Least(free)[1..];
      assert id == Candidate(Value());
      var row := events[id];
      events := events[id := row.(state := Leased, owner := Some(worker), leaseUntilMs := Some(untilMs),
                                  attempt := row.attempt + 1, token := row.token + 1, updatedAtMs := nowMs)];
      return Some((id, row.token + 1)), None;
    }

    method MarkReceived(f: Frame, nowMs: int) returns (error: Option<Failure>)
      modifies this`events
      ensures Value() == ReceiveRow(old(Value()), f, nowMs)
      ensures error.None? <==> MayReceive(old(Value()), f, nowMs)
      ensures error.None? <==>
                && f.kind == ReceivedFrame && f.eventId != [] && f.workerId != [] && f.token != 0
                && f.eventId in old(events)
                && var row := old(events)[f.eventId];
                   && row.state == Leased && row.owner == Some(f.workerId) && row.token == f.token
                   && row.leaseUntilMs.Some? && nowMs < row.leaseUntilMs.value
      ensures error.None? ==>
                events == old(events)[f.eventId := old(events)[f.eventId].(state := Received, updatedAtMs := nowMs)]
      ensures error.Some? ==> events == old(events)
      ensures error == Some(InvalidTransition) <==> f.kind != ReceivedFrame
      ensures error == Some(InvalidRequest) <==>
                f.kind == ReceivedFrame && (f.eventId == [] || f.workerId == [] || f.token == 0)
      ensures error.Some? ==> error.value in {InvalidTransition, InvalidRequest, StaleLease}
    {
      if f.kind != ReceivedFrame { return Some(InvalidTransition); }
      if !f.Valid() { return Some(InvalidRequest); }
      if f.eventId !in events { return Some(StaleLease); }
      var row := events[f.eventId];
      if row.owner != Some(f.workerId) || row.token != f.token || row.state != Leased
         || row.leaseUntilMs.None? || row.leaseUntilMs.value <= nowMs {
        return Some(StaleLease);
      }
      events := events[f.eventId := row.(state := Received, updatedAtMs := nowMs)];
      error := None;
    }

    method Settle(f: Frame, nowMs: int) returns (error: Option<Failure>)
      modifies this
      ensures Value() == SettleRow(old(Value()), f, nowMs)
      ensures error.None? <==> MaySettle(old(Value()), f, nowMs)
      ensures error.None? <==>
                && f.kind in {OkFrame, ErrorFrame} && f.eventId != [] && f.workerId != [] && f.token != 0
                && f.eventId in old(events)
                && var row := old(events)[f.eventId];
                   && row.state in {Leased, Received} && row.owner == Some(f.workerId) && row.token == f.token
                   && row.leaseUntilMs.Some? && nowMs < row.leaseUntilMs.value
      ensures error.None? ==>
                && events == old(events)[f.eventId := old(events)[f.eventId].(
                     state := if f.kind == OkFrame then SettledOk else SettledError,
                     owner := None, leaseUntilMs := None, updatedAtMs := nowMs)]
                && settlements.Keys == old(settlements).Keys + {f.eventId}
                && (forall o <- old(settlements) :: settlements[o] == old(settlements)[o])
                && (f.eventId !in old(settlements) ==>
                      settlements[f.eventId] == Settlement(f.kind, f.workerId, f.token, f.atMs, f.evidence))
      ensures error.Some? ==> events == old(events) && settlements == old(settlements)
      ensures error == Some(InvalidTransition) <==> f.kind !in {OkFrame, ErrorFrame}
      ensures error == Some(InvalidRequest) <==>
                f.kind in {OkFrame, ErrorFrame} && (f.eventId == [] || f.workerId == [] || f.token == 0)
      ensures error.Some? ==> error.value in {InvalidTransition, InvalidRequest, StaleLease}
    {
      if f.kind != OkFrame && f.kind != ErrorFrame { return Some(InvalidTransition); }
      if !f.Valid() { return Some(InvalidRequest); }
      var target := if f.kind == ErrorFrame then SettledError else SettledOk;
      if f.eventId !in events { return Some(StaleLease); }
      var row := events[f.eventId];
      if row.owner != Some(f.workerId) || row.token != f.token || !row.state.Held()
         || row.leaseUntilMs.None? || row.leaseUntilMs.value <= nowMs {
        return Some(StaleLease);
      }
      events := events[f.eventId := row.(state := target, owner := None, leaseUntilMs := None, updatedAtMs := nowMs)];
      if f.eventId !in settlements {
        settlements := settlements[f.eventId := Settlement(f.kind, f.workerId, f.token, f.atMs, f.evidence)];
      }
      error := None;
    }

    method RequeueExpired(nowMs: int) returns (count: nat)
      modifies this`events
      ensures Value() == RequeueAll(old(Value()), nowMs)
      ensures var late := set id | id in old(events) && old(events)[id].state in {Leased, Received}
                                   && old(events)[id].leaseUntilMs.Some? && old(events)[id].leaseUntilMs.value <= nowMs;
              && count == |late| && events.Keys == old(events).Keys
              && forall id <- events :: events[id] ==
                   if id !in late then old(events)[id]
                   else old(events)[id].(state := Expired, owner := None, leaseUntilMs := None, updatedAtMs := nowMs)
    {
      var late := set id | id in events && RunOut(events[id], nowMs);
      events := map id | id in events :: Requeue(events[id], nowMs);
      assert late == set id | id in old(events) && old(events)[id].state in {Leased, Received}
                              && old(events)[id].leaseUntilMs.Some? && old(events)[id].leaseUntilMs.value <= nowMs;
      count := |late|;
    }
  }
}
