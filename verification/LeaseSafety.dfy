/** Leases, fencing tokens and settlements over every run of the control store. */
module LeaseSafety {
  import opened Common
  import opened ControlStore

  function CountGrants(grants: seq<Grant>, id: Text): nat {
    if grants == [] then 0
    else CountGrants(grants[..|grants| - 1], id) + (if grants[|grants| - 1].eventId == id then 1 else 0)
  }

  function CountSettles(settles: seq<Frame>, id: Text): nat {
    if settles == [] then 0
    else CountSettles(settles[..|settles| - 1], id) + (if settles[|settles| - 1].eventId == id then 1 else 0)
  }

  lemma CountMore(grants: seq<Grant>, g: Grant, id: Text)
    ensures CountGrants(grants + [g], id) == CountGrants(grants, id) + (if g.eventId == id then 1 else 0)
  {
    assert (grants + [g])[..|grants|] == grants;
  }

  lemma CountMoreSettles(settles: seq<Frame>, f: Frame, id: Text)
    ensures CountSettles(settles + [f], id) == CountSettles(settles, id) + (if f.eventId == id then 1 else 0)
  {
    assert (settles + [f])[..|settles|] == settles;
  }

  // ---- the invariant ------------------------------------------------------------------------

  /** Columns that go together. */
  ghost predicate Shape(row: Row, id: Text) {
    && row.envelope.id == id
    && (row.state.Held() <==> row.owner.Some?)
    && (row.state.Held() <==> row.leaseUntilMs.Some?)
    && row.attempt == row.token
  }

  ghost predicate TokensOk(row: Row, id: Text, grants: seq<Grant>) {
    && row.token == CountGrants(grants, id)
    && (forall i :: 0 <= i < |grants| && grants[i].eventId == id ==> 1 <= grants[i].token <= row.token)
    && (row.token > 0 ==> Issued(grants, id, row.token))
  }

  /** Some grant of the event carries the token. */
  ghost predicate Issued(grants: seq<Grant>, id: Text, token: nat) {
    exists i :: 0 <= i < |grants| && grants[i].eventId == id && grants[i].token == token
  }

  lemma IssuedBefore(grants: seq<Grant>, g: Grant, id: Text, token: nat)
    ensures Issued(grants, id, token) ==> Issued(grants + [g], id, token)
    ensures g.eventId == id && g.token == token ==> Issued(grants + [g], id, token)
  {
    var more := grants + [g];
    assert more[|grants|] == g;
    if Issued(grants, id, token) {
      var i :| 0 <= i < |grants| && grants[i].eventId == id && grants[i].token == token;
      assert more[i] == grants[i];
    }
  }

  ghost predicate SettlementOk(row: Row, id: Text, settlements: map<Text, Settlement>, settles: seq<Frame>) {
    && (row.state.Settled() <==> id in settlements)
    && (id in settlements ==>
          && settlements[id].kind in {OkFrame, ErrorFrame}
          && row.state == Target(settlements[id].kind)
          && settlements[id].token == row.token > 0)
    && CountSettles(settles, id) == (if row.state.Settled() then 1 else 0)
  }

  ghost predicate RowOk(s: System, id: Text)
    requires id in s.tables.events
  {
    var row := s.tables.events[id];
    Shape(row, id) && TokensOk(row, id, s.grants) && SettlementOk(row, id, s.tables.settlements, s.settles)
  }

  /** An id that was never published has no history. */
  ghost predicate AbsentOk(s: System, id: Text) {
    id !in s.tables.settlements && CountGrants(s.grants, id) == 0 && CountSettles(s.settles, id) == 0
  }

  ghost predicate KeysUnique(t: Tables) {
    forall a <- t.events, b <- t.events ::
      t.events[a].envelope.idempotencyKey == t.events[b].envelope.idempotencyKey ==> a == b
  }

  ghost predicate Inv(s: System) {
    && (forall id <- s.tables.events :: RowOk(s, id))
    && (forall id :: id !in s.tables.events ==> AbsentOk(s, id))
    && (forall g <- s.grants :: g.eventId in s.tables.events)
    && KeysUnique(s.tables)
  }

  // ---- each step ----------------------------------------------------------------------------

  /** A row that keeps its token and its settlement, with no new grant and no new settle. */
  lemma QuietRow(s: System, s': System, id: Text)
    requires id in s.tables.events && id in s'.tables.events && RowOk(s, id)
    requires s'.grants == s.grants && s'.settles == s.settles && s'.tables.settlements == s.tables.settlements
    requires var row, row' := s.tables.events[id], s'.tables.events[id];
             && Shape(row', id) && row'.token == row.token
             && (row'.state.Settled() <==> row.state.Settled())
             && (row.state.Settled() ==> row'.state == row.state)
    ensures RowOk(s', id)
  {
  }

  /** Replacing one row, with no new grant and no new settle. */
  lemma UpdateKeepsInv(s: System, s': System, id: Text, row: Row)
    requires Inv(s) && id in s.tables.events
    requires s'.tables == s.tables.(events := s.tables.events[id := row])
    requires s'.grants == s.grants && s'.settles == s.settles
    requires Shape(row, id) && row.token == s.tables.events[id].token && row.envelope == s.tables.events[id].envelope
    requires row.state.Settled() <==> s.tables.events[id].state.Settled()
    requires row.state.Settled() ==> row.state == s.tables.events[id].state
    ensures Inv(s')
  {
    assert RowOk(s, id);
    forall x <- s'.tables.events ensures RowOk(s', x) { assert RowOk(s, x); }
    forall x | x !in s'.tables.events ensures AbsentOk(s', x) { assert AbsentOk(s, x); }
  }

  lemma PublishedRow(s: System, s': System, env: Envelope, nowMs: int, id: Text)
    requires AbsentOk(s, env.id) && env.id !in s.tables.events
    requires s'.tables.events == s.tables.events[env.id := Row(env, Published, None, None, 0, 0, nowMs)]
    requires s'.tables.settlements == s.tables.settlements && s'.grants == s.grants && s'.settles == s.settles
    requires id in s'.tables.events && (id != env.id ==> RowOk(s, id))
    ensures RowOk(s', id)
  {
    if id == env.id { NoGrants(s.grants, env.id); }
  }

  lemma PublishKeepsInv(s: System, env: Envelope, nowMs: int)
    requires Inv(s)
    ensures Inv(Do(s, Publish(env), nowMs))
  {
    var s' := Do(s, Publish(env), nowMs);
    if s'.tables == s.tables {
      SameTables(s, s');
    } else {
      assert forall x <- s.tables.events :: x !in ByKey(s.tables, env.idempotencyKey);
      assert AbsentOk(s, env.id);
      forall x <- s'.tables.events ensures RowOk(s', x) {
        if x != env.id { assert RowOk(s, x); }
        PublishedRow(s, s', env, nowMs, x);
      }
      forall x | x !in s'.tables.events ensures AbsentOk(s', x) { assert AbsentOk(s, x); }
    }
  }

  lemma {:induction false} NoGrants(grants: seq<Grant>, id: Text)
    requires CountGrants(grants, id) == 0
    ensures forall i :: 0 <= i < |grants| ==> grants[i].eventId != id
    decreases |grants|
  {
    if grants != [] { NoGrants(grants[..|grants| - 1], id); }
  }

  lemma SameTables(s: System, s': System)
    requires Inv(s) && s'.tables == s.tables && s'.grants == s.grants && s'.settles == s.settles
    ensures Inv(s')
  {
    forall x <- s'.tables.events ensures RowOk(s', x) { assert RowOk(s, x); }
    forall x | x !in s'.tables.events ensures AbsentOk(s', x) { assert AbsentOk(s, x); }
  }

  lemma ClaimedRow(s: System, s': System, worker: Text, leaseNs: int, nowMs: int, g: Grant, id: Text)
    requires MayClaim(s.tables, worker, leaseNs)
    requires s' == Do(s, Claim(worker, leaseNs), nowMs) && s'.grants == s.grants + [g]
    requires id in s.tables.events && RowOk(s, id)
    ensures id in s'.tables.events && RowOk(s', id)
  {
    CountMore(s.grants, g, id);
    IssuedBefore(s.grants, g, id, s'.tables.events[id].token);
  }

  lemma ClaimKeepsInv(s: System, worker: Text, leaseNs: int, nowMs: int)
    requires Inv(s)
    ensures Inv(Do(s, Claim(worker, leaseNs), nowMs))
  {
    var s' := Do(s, Claim(worker, leaseNs), nowMs);
    if MayClaim(s.tables, worker, leaseNs) {
      var g := s'.grants[|s.grants|];
      forall x <- s'.tables.events ensures RowOk(s', x) {
        assert RowOk(s, x);
        ClaimedRow(s, s', worker, leaseNs, nowMs, g, x);
      }
      forall x | x !in s'.tables.events ensures AbsentOk(s', x) {
        assert AbsentOk(s, x);
        CountMore(s.grants, g, x);
      }
    } else {
      SameTables(s, s');
    }
  }

  lemma ReceiveKeepsInv(s: System, f: Frame, nowMs: int)
    requires Inv(s)
    ensures Inv(Do(s, MarkReceived(f), nowMs))
  {
    var s' := Do(s, MarkReceived(f), nowMs);
    if MayReceive(s.tables, f, nowMs) {
      assert RowOk(s, f.eventId);
      UpdateKeepsInv(s, s', f.eventId, s'.tables.events[f.eventId]);
    } else {
      SameTables(s, s');
    }
  }

  lemma SettleKeepsInv(s: System, f: Frame, nowMs: int)
    requires Inv(s)
    ensures Inv(Do(s, Settle(f), nowMs))
    ensures MaySettle(s.tables, f, nowMs) ==> f.eventId !in s.tables.settlements
  {
    var s' := Do(s, Settle(f), nowMs);
    if MaySettle(s.tables, f, nowMs) {
      assert RowOk(s, f.eventId);
      forall x <- s'.tables.events ensures RowOk(s', x) {
        assert RowOk(s, x);
        CountMoreSettles(s.settles, f, x);
      }
      forall x | x !in s'.tables.events ensures AbsentOk(s', x) {
        assert AbsentOk(s, x);
        CountMoreSettles(s.settles, f, x);
      }
    } else {
      SameTables(s, s');
    }
  }

  lemma RequeueRow(s: System, s': System, nowMs: int, id: Text)
    requires id in s.tables.events && RowOk(s, id) && s' == Do(s, RequeueExpired, nowMs)
    ensures RowOk(s', id)
  {
    assert s'.tables.events[id] == Requeue(s.tables.events[id], nowMs);
    QuietRow(s, s', id);
  }

  lemma RequeueKeepsKeys(t: Tables, nowMs: int)
    requires KeysUnique(t)
    ensures KeysUnique(RequeueAll(t, nowMs)) && RequeueAll(t, nowMs).events.Keys == t.events.Keys
  {
  }

  lemma RequeueKeepsInv(s: System, nowMs: int)
    requires Inv(s)
    ensures Inv(Do(s, RequeueExpired, nowMs))
  {
    var s' := Do(s, RequeueExpired, nowMs);
    RequeueKeepsKeys(s.tables, nowMs);
    forall x <- s'.tables.events ensures RowOk(s', x) {
      assert RowOk(s, x);
      RequeueRow(s, s', nowMs, x);
    }
    forall x | x !in s'.tables.events ensures AbsentOk(s', x) { assert AbsentOk(s, x); }
  }

  lemma StepKeepsInv(s: System, step: Step, nowMs: int)
    requires Inv(s)
    ensures Inv(Do(s, step, nowMs))
  {
    match step
    case Publish(env) => PublishKeepsInv(s, env, nowMs);
    case Claim(worker, leaseNs) => ClaimKeepsInv(s, worker, leaseNs, nowMs);
    case MarkReceived(f) => ReceiveKeepsInv(s, f, nowMs);
    case Settle(f) => SettleKeepsInv(s, f, nowMs);
    case RequeueExpired => RequeueKeepsInv(s, nowMs);
  }

  lemma {:induction false} RunKeepsInv(s: System, steps: seq<Timed>)
    requires Inv(s)
    ensures Inv(Run(s, steps))
    decreases |steps|
  {
    if steps != [] {
      RunKeepsInv(s, steps[..|steps| - 1]);
      StepKeepsInv(Run(s, steps[..|steps| - 1]), steps[|steps| - 1].0, steps[|steps| - 1].1);
    }
  }

  lemma OpenedOk(clock: int)
    ensures Inv(Opened(clock))
  {}

  // ---- theorems that need no clock ----------------------------------------------------------

  /** In every run a published event has a settlements row exactly when it is settled, of the kind that
      settles so, with the largest token ever issued for the event; at most one settle ever succeeded; and
      attempt, token and the number of claims are one number. */
  lemma SettlementMatchesState(clock: int, steps: seq<Timed>, e: System, id: Text)
    requires e == Run(Opened(clock), steps) && id in e.tables.events
    ensures var row := e.tables.events[id];
            && (row.state.Settled() <==> id in e.tables.settlements)
            && (id in e.tables.settlements ==>
                  && (e.tables.settlements[id].kind == OkFrame <==> row.state == SettledOk)
                  && (e.tables.settlements[id].kind == ErrorFrame <==> row.state == SettledError)
                  && e.tables.settlements[id].token == row.token
                  && (exists g <- e.grants :: g.eventId == id && g.token == row.token)
                  && (forall g <- e.grants :: g.eventId == id ==> g.token <= row.token))
            && CountSettles(e.settles, id) == (if row.state.Settled() then 1 else 0)
            && row.attempt == row.token == CountGrants(e.grants, id)
  {
    OpenedOk(clock);
    RunKeepsInv(Opened(clock), steps);
    assert RowOk(e, id);
    if id in e.tables.settlements {
      var i :| 0 <= i < |e.grants| && e.grants[i].eventId == id && e.grants[i].token == e.tables.events[id].token;
      assert e.grants[i] in e.grants;
    }
  }

  /** No settle that passes its guard finds a settlement in its way. */
  lemma SettleNeverDropped(clock: int, steps: seq<Timed>, f: Frame, nowMs: int)
    ensures var e := Run(Opened(clock), steps);
            MaySettle(e.tables, f, nowMs) ==>
              var t := SettleRow(e.tables, f, nowMs);
              f.eventId in t.settlements &&
              t.settlements[f.eventId] == Settlement(f.kind, f.workerId, f.token, f.atMs, f.evidence)
  {
    OpenedOk(clock);
    RunKeepsInv(Opened(clock), steps);
    SettleKeepsInv(Run(Opened(clock), steps), f, nowMs);
  }

  /** Once a later token has been granted, a frame with an older one is refused, at any clock. */
  lemma OlderTokenIsFenced(clock: int, steps: seq<Timed>, e: System, g: Grant, f: Frame, nowMs: int)
    requires e == Run(Opened(clock), steps)
    requires g in e.grants && g.eventId == f.eventId && f.token < g.token
    ensures !MayReceive(e.tables, f, nowMs) && !MaySettle(e.tables, f, nowMs)
  {
    OpenedOk(clock);
    RunKeepsInv(Opened(clock), steps);
    assert RowOk(e, f.eventId);
  }

  // ---- theorems that need a clock that does not go back -------------------------------------

  /** Every lease but the current one is over. */
  ghost predicate Over(s: System, g: Grant)
    requires g.eventId in s.tables.events
  {
    var row := s.tables.events[g.eventId];
    && g.fromMs <= s.clock
    && (row.state.Free() ==> g.untilMs <= s.clock)
    && (row.state.Held() && g.token < row.token ==> g.untilMs <= s.clock)
    && (row.state.Held() && g.token == row.token ==> row.leaseUntilMs == Some(g.untilMs) && row.owner == Some(g.worker))
  }

  ghost predicate Apart(a: Grant, b: Grant) {
    a.eventId == b.eventId ==> a.token < b.token && a.untilMs <= b.fromMs
  }

  ghost predicate TimeInv(s: System) {
    && Inv(s)
    && (forall g <- s.grants :: Over(s, g))
    && (forall i, j :: 0 <= i < j < |s.grants| ==> Apart(s.grants[i], s.grants[j]))
  }

  /** What a step other than a claim may do to a row's lease: keep it, end it with the row settled, or
      free the row once the lease has run out. */
  lemma LeaseAfterQuietStep(s: System, step: Step, nowMs: int, id: Text)
    requires !step.Claim? && id in s.tables.events && Shape(s.tables.events[id], id)
    ensures id in Do(s, step, nowMs).tables.events
    ensures var row, row' := s.tables.events[id], Do(s, step, nowMs).tables.events[id];
            && row'.token == row.token
            && (row'.state.Held() ==>
                  row.state.Held() && row'.leaseUntilMs == row.leaseUntilMs && row'.owner == row.owner)
            && (row'.state.Free() ==> row.state.Free() || (row.leaseUntilMs.Some? && row.leaseUntilMs.value <= nowMs))
  {
  }

  lemma QuietStepKeepsTime(s: System, step: Step, nowMs: int)
    requires TimeInv(s) && s.clock <= nowMs && !step.Claim?
    ensures TimeInv(Do(s, step, nowMs))
  {
    var s' := Do(s, step, nowMs);
    StepKeepsInv(s, step, nowMs);
    forall g <- s'.grants ensures Over(s', g) {
      assert Over(s, g) && RowOk(s, g.eventId);
      LeaseAfterQuietStep(s, step, nowMs, g.eventId);
    }
  }

  /** Before a claim every lease of the claimed event is over; afterwards those of others still are. */
  lemma ClaimSeparates(s: System, id: Text, row: Row, g: Grant, s': System, last: Grant)
    requires g.eventId in s.tables.events && Over(s, g) && RowOk(s, g.eventId)
    requires g in s.grants && s.clock <= s'.clock
    requires id in s.tables.events && s.tables.events[id].state.Free()
    requires s'.tables.events == s.tables.events[id := row] && row.state == Leased
    requires row.token == s.tables.events[id].token + 1
    requires last == Grant(id, last.worker, row.token, s'.clock, last.untilMs)
    ensures Over(s', g) && Apart(g, last)
  {
    if g.eventId == id {
      var i :| 0 <= i < |s.grants| && s.grants[i] == g;
      assert g.token <= s.tables.events[id].token;
    }
  }

  /** What a claim that finds a free row changes. */
  ghost predicate Claims(s: System, s': System, id: Text, row: Row, last: Grant) {
    && id in s.tables.events && s.tables.events[id].state.Free()
    && s'.tables.events == s.tables.events[id := row] && row.state == Leased
    && row.token == s.tables.events[id].token + 1 && row.leaseUntilMs == Some(last.untilMs)
    && row.owner == Some(last.worker)
    && last == Grant(id, last.worker, row.token, s'.clock, last.untilMs) && s'.grants == s.grants + [last]
  }

  lemma ClaimDoes(s: System, s': System, worker: Text, leaseNs: int, nowMs: int, id: Text)
    requires MayClaim(s.tables, worker, leaseNs)
    requires s' == Do(s, Claim(worker, leaseNs), nowMs) && id == Candidate(s.tables)
    ensures id in s'.tables.events && |s'.grants| == |s.grants| + 1 && s'.clock == nowMs
    ensures Claims(s, s', id, s'.tables.events[id], s'.grants[|s.grants|])
  {
  }

  lemma ClaimsKeepTime(s: System, s': System, id: Text, row: Row, last: Grant)
    requires TimeInv(s) && Inv(s') && s.clock <= s'.clock && Claims(s, s', id, row, last)
    ensures TimeInv(s')
  {
    forall g <- s.grants ensures g.eventId in s'.tables.events && Over(s', g) && Apart(g, last) {
      assert RowOk(s, g.eventId);
      ClaimSeparates(s, id, row, g, s', last);
    }
    ExtendGrants(s, s', last);
  }

  lemma ClaimKeepsTime(s: System, worker: Text, leaseNs: int, nowMs: int)
    requires TimeInv(s) && s.clock <= nowMs
    ensures TimeInv(Do(s, Claim(worker, leaseNs), nowMs))
  {
    var s' := Do(s, Claim(worker, leaseNs), nowMs);
    StepKeepsInv(s, Claim(worker, leaseNs), nowMs);
    if MayClaim(s.tables, worker, leaseNs) {
      var id := Candidate(s.tables);
      ClaimDoes(s, s', worker, leaseNs, nowMs, id);
      ClaimsKeepTime(s, s', id, s'.tables.events[id], s'.grants[|s.grants|]);
    } else {
      LaterKeepsTime(s, s');
    }
  }

  lemma LaterKeepsTime(s: System, s': System)
    requires TimeInv(s) && Inv(s') && s'.tables == s.tables && s'.grants == s.grants && s.clock <= s'.clock
    ensures TimeInv(s')
  {
    forall g <- s'.grants ensures Over(s', g) { assert Over(s, g); }
  }

  lemma ExtendGrants(s: System, s': System, last: Grant)
    requires TimeInv(s) && Inv(s') && s'.grants == s.grants + [last]
    requires forall g <- s.grants :: g.eventId in s'.tables.events && Over(s', g) && Apart(g, last)
    requires last.eventId in s'.tables.events && Over(s', last)
    ensures TimeInv(s')
  {
    forall i, j | 0 <= i < j < |s'.grants| ensures Apart(s'.grants[i], s'.grants[j]) {
      if j < |s.grants| { assert Apart(s.grants[i], s.grants[j]); }
      else { assert s.grants[i] in s.grants; }
    }
  }

  lemma {:induction false} RunKeepsTime(s: System, steps: seq<Timed>)
    requires TimeInv(s) && Forward(s.clock, steps)
    ensures TimeInv(Run(s, steps))
    ensures steps != [] ==> Run(s, steps).clock == steps[|steps| - 1].1
    ensures steps == [] ==> Run(s, steps) == s
    decreases |steps|
  {
    if steps != [] {
      var init, last := steps[..|steps| - 1], steps[|steps| - 1];
      RunKeepsTime(s, init);
      var p := Run(s, init);
      assert p.clock <= last.1 by {
        if init != [] { assert steps[|init| - 1].1 <= steps[|init|].1; }
      }
      match last.0 {
        case Claim(worker, leaseNs) => ClaimKeepsTime(p, worker, leaseNs, last.1);
        case _ => QuietStepKeepsTime(p, last.0, last.1);
      }
    }
  }

  predicate Active(g: Grant, atMs: int) {
    g.fromMs <= atMs < g.untilMs
  }

  /** Windows granted for one event are disjoint and in token order: two of its leases are never
      active at the same time, and the earlier one is not active any more. */
  lemma LeaseWindowsDisjoint(clock: int, steps: seq<Timed>, e: System, i: nat, j: nat)
    requires Forward(clock, steps) && e == Run(Opened(clock), steps)
    requires i < j < |e.grants| && e.grants[i].eventId == e.grants[j].eventId
    ensures e.grants[i].token < e.grants[j].token
    ensures forall at: int :: !(Active(e.grants[i], at) && Active(e.grants[j], at))
    ensures e.grants[i].untilMs <= e.clock
  {
    OpenedOk(clock);
    RunKeepsTime(Opened(clock), steps);
    assert Apart(e.grants[i], e.grants[j]);
    assert e.grants[j] in e.grants;
    assert Over(e, e.grants[j]);
  }
}
