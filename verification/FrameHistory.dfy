/** When a receive or settle frame succeeds, read off the history of grants, receives and settles alone. */
module FrameHistory {
  import opened ControlStore
  import opened LeaseSafety

  /** The last grant of the event. */
  ghost predicate LastGrant(grants: seq<Grant>, i: int, id: Text) {
    && 0 <= i < |grants| && grants[i].eventId == id
    && forall k :: i < k < |grants| ==> grants[k].eventId != id
  }

  /** The last grant of the frame's event has its token and its worker, and the time lies in its window. */
  ghost predicate WithinLastGrant(grants: seq<Grant>, f: Frame, nowMs: int) {
    exists i :: LastGrant(grants, i, f.eventId) && grants[i].token == f.token && grants[i].worker == f.workerId
                && grants[i].fromMs <= nowMs < grants[i].untilMs
  }

  /** Some frame of the list is of the event. */
  ghost predicate Names(frames: seq<Frame>, id: Text) {
    exists i :: 0 <= i < |frames| && frames[i].eventId == id
  }

  /** Some frame of the list is of the event and carries the token. */
  ghost predicate NamesToken(frames: seq<Frame>, id: Text, token: nat) {
    exists i :: 0 <= i < |frames| && frames[i].eventId == id && frames[i].token == token
  }

  lemma {:induction false} CountedMeansNamed(settles: seq<Frame>, id: Text)
    ensures CountSettles(settles, id) > 0 <==> Names(settles, id)
    decreases |settles|
  {
    if settles != [] {
      var n := |settles| - 1;
      CountedMeansNamed(settles[..n], id);
      if Names(settles[..n], id) {
        var i :| 0 <= i < n && settles[..n][i].eventId == id;
        assert settles[i].eventId == id;
      }
      if i :| 0 <= i < |settles| && settles[i].eventId == id {
        if i < n { assert settles[..n][i].eventId == id; }
      }
    }
  }

  // ---- receives -----------------------------------------------------------------------------

  /** A received row was received under its own token, and a leased one was not. */
  ghost predicate ReceivesOk(row: Row, id: Text, receives: seq<Frame>) {
    && (forall i :: 0 <= i < |receives| && receives[i].eventId == id ==> receives[i].token <= row.token)
    && (row.state == Received ==> NamesToken(receives, id, row.token))
    && (row.state == Leased ==> !NamesToken(receives, id, row.token))
  }

  ghost predicate ReceiveInv(s: System) {
    && (forall id <- s.tables.events :: ReceivesOk(s.tables.events[id], id, s.receives))
    && (forall f <- s.receives :: f.eventId in s.tables.events)
  }

  lemma NamedBefore(frames: seq<Frame>, f: Frame, id: Text, token: nat)
    ensures NamesToken(frames + [f], id, token)
            <==> NamesToken(frames, id, token) || (f.eventId == id && f.token == token)
  {
    var more := frames + [f];
    assert more[|frames|] == f;
    if NamesToken(frames, id, token) {
      var i :| 0 <= i < |frames| && frames[i].eventId == id && frames[i].token == token;
      assert more[i] == frames[i];
    }
  }

  lemma ReceiveKeepsReceives(s: System, f: Frame, nowMs: int)
    requires ReceiveInv(s)
    ensures ReceiveInv(Do(s, MarkReceived(f), nowMs))
  {
    var s' := Do(s, MarkReceived(f), nowMs);
    if MayReceive(s.tables, f, nowMs) {
      forall id <- s'.tables.events ensures ReceivesOk(s'.tables.events[id], id, s'.receives) {
        assert ReceivesOk(s.tables.events[id], id, s.receives);
        NamedBefore(s.receives, f, id, s'.tables.events[id].token);
      }
    }
  }

  lemma ClaimKeepsReceives(s: System, worker: Text, leaseNs: int, nowMs: int)
    requires ReceiveInv(s)
    ensures ReceiveInv(Do(s, Claim(worker, leaseNs), nowMs))
  {
    var s' := Do(s, Claim(worker, leaseNs), nowMs);
    forall id <- s'.tables.events ensures ReceivesOk(s'.tables.events[id], id, s'.receives) {
      assert ReceivesOk(s.tables.events[id], id, s.receives);
    }
  }

  lemma QuietStepKeepsReceives(s: System, step: Step, nowMs: int)
    requires ReceiveInv(s) && (step.Publish? || step.Settle? || step.RequeueExpired?)
    ensures ReceiveInv(Do(s, step, nowMs))
  {
    var s' := Do(s, step, nowMs);
    forall id <- s'.tables.events ensures ReceivesOk(s'.tables.events[id], id, s'.receives) {
      if id in s.tables.events { assert ReceivesOk(s.tables.events[id], id, s.receives); }
    }
  }

  lemma {:induction false} RunKeepsReceives(s: System, steps: seq<Timed>)
    requires ReceiveInv(s)
    ensures ReceiveInv(Run(s, steps))
    decreases |steps|
  {
    if steps != [] {
      var n := |steps| - 1;
      RunKeepsReceives(s, steps[..n]);
      var p := Run(s, steps[..n]);
      match steps[n].0
      case MarkReceived(f) => ReceiveKeepsReceives(p, f, steps[n].1);
      case Claim(worker, leaseNs) => ClaimKeepsReceives(p, worker, leaseNs, steps[n].1);
      case _ => QuietStepKeepsReceives(p, steps[n].0, steps[n].1);
    }
  }

  // ---- the last grant -----------------------------------------------------------------------

  /** The row's token was granted last. */
  lemma TokenIsLastGrant(s: System, id: Text) returns (i: nat)
    requires TimeInv(s) && id in s.tables.events && s.tables.events[id].token > 0
    ensures LastGrant(s.grants, i, id) && s.grants[i].token == s.tables.events[id].token
  {
    assert RowOk(s, id);
    i :| 0 <= i < |s.grants| && s.grants[i].eventId == id && s.grants[i].token == s.tables.events[id].token;
    forall k | i < k < |s.grants| ensures s.grants[k].eventId != id {
      assert Apart(s.grants[i], s.grants[k]);
    }
  }

  lemma LastGrantIsOne(grants: seq<Grant>, i: int, j: int, id: Text)
    requires LastGrant(grants, i, id) && LastGrant(grants, j, id)
    ensures i == j
  {
  }

  lemma LastGrantIsToken(s: System, i: int, id: Text)
    requires TimeInv(s) && LastGrant(s.grants, i, id)
    ensures id in s.tables.events && s.grants[i].token == s.tables.events[id].token > 0
    ensures s.grants[i] in s.grants
  {
    assert s.grants[i] in s.grants;
    assert RowOk(s, id);
    var j := TokenIsLastGrant(s, id);
    LastGrantIsOne(s.grants, i, j, id);
  }

  // ---- frames -------------------------------------------------------------------------------

  /** The frame holds its lease exactly when the last grant says so and the event is not settled. */
  lemma HoldsExactly(s: System, f: Frame, nowMs: int)
    requires TimeInv(s) && s.clock <= nowMs && f.token != 0
    ensures (Holds(s.tables, f, nowMs) && s.tables.events[f.eventId].state.Held())
            <==> WithinLastGrant(s.grants, f, nowMs) && !Names(s.settles, f.eventId)
  {
    CountedMeansNamed(s.settles, f.eventId);
    if f.eventId in s.tables.events { assert RowOk(s, f.eventId); }
    if Holds(s.tables, f, nowMs) && s.tables.events[f.eventId].state.Held() {
      var i := TokenIsLastGrant(s, f.eventId);
      assert s.grants[i] in s.grants && Over(s, s.grants[i]);
    }
    if WithinLastGrant(s.grants, f, nowMs) && !Names(s.settles, f.eventId) {
      var i :| LastGrant(s.grants, i, f.eventId) && s.grants[i].token == f.token && s.grants[i].worker == f.workerId
               && s.grants[i].fromMs <= nowMs < s.grants[i].untilMs;
      LastGrantIsToken(s, i, f.eventId);
      assert Over(s, s.grants[i]);
    }
  }

  /** In every run with a clock that does not go back, a settle frame succeeds if and only if it is a settle frame
      with all its fields, the last grant of its event has its token and its worker, the time lies in that grant's
      window, and the event was never settled. */
  lemma SettleSucceedsExactly(clock: int, steps: seq<Timed>, e: System, f: Frame, nowMs: int)
    requires Forward(clock, steps) && e == Run(Opened(clock), steps) && e.clock <= nowMs
    ensures MaySettle(e.tables, f, nowMs)
            <==> && (f.kind == OkFrame || f.kind == ErrorFrame)
                 && f.eventId != [] && f.workerId != [] && f.token != 0
                 && WithinLastGrant(e.grants, f, nowMs) && !Names(e.settles, f.eventId)
  {
    OpenedOk(clock);
    RunKeepsTime(Opened(clock), steps);
    if f.token != 0 { HoldsExactly(e, f, nowMs); }
  }

  /** And a receive frame if and only if, besides, it is a receive frame and none was received under that token. */
  lemma ReceiveSucceedsExactly(clock: int, steps: seq<Timed>, e: System, f: Frame, nowMs: int)
    requires Forward(clock, steps) && e == Run(Opened(clock), steps) && e.clock <= nowMs
    ensures MayReceive(e.tables, f, nowMs)
            <==> && f.kind == ReceivedFrame && f.eventId != [] && f.workerId != [] && f.token != 0
                 && WithinLastGrant(e.grants, f, nowMs) && !Names(e.settles, f.eventId)
                 && !NamesToken(e.receives, f.eventId, f.token)
  {
    OpenedOk(clock);
    RunKeepsTime(Opened(clock), steps);
    RunKeepsReceives(Opened(clock), steps);
    if f.token != 0 { HoldsExactly(e, f, nowMs); }
    if f.eventId in e.tables.events { assert ReceivesOk(e.tables.events[f.eventId], f.eventId, e.receives); }
  }

  // ---- where grants come from ---------------------------------------------------------------

  /** The grant is that of a claim step: its worker, its time, and its duration in whole milliseconds. */
  ghost predicate GrantedBy(g: Grant, step: Timed) {
    && step.0.Claim? && g.worker == step.0.worker && g.fromMs == step.1
    && 1_000_000 * (g.untilMs - g.fromMs) <= step.0.leaseNs < 1_000_000 * (g.untilMs - g.fromMs + 1)
  }

  /** Every grant is that of a claim of the run. */
  lemma {:induction false} GrantsComeFromClaims(clock: int, steps: seq<Timed>, i: nat) returns (k: nat)
    requires i < |Run(Opened(clock), steps).grants|
    ensures k < |steps| && GrantedBy(Run(Opened(clock), steps).grants[i], steps[k])
    decreases |steps|
  {
    var n := |steps| - 1;
    var p := Run(Opened(clock), steps[..n]);
    if i < |p.grants| {
      k := GrantsComeFromClaims(clock, steps[..n], i);
      assert steps[..n][k] == steps[k];
    } else {
      k := n;
    }
  }
}
