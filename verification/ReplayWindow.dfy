/** The bounded nonce window against the unbounded log of everything it ever accepted.

    The window forgets: reaping drops expired entries and a full window overwrites its oldest one.
    None of that shows in its answers as long as the clock does not run backwards. */
module ReplayWindow {
  import opened Common

  datatype Entry = Entry(nonce: Bytes, expires: nat)

  datatype Answer = Accepted | ReplayDetected | TableFull

  datatype Op =
    | Accept(nonce: Bytes, now: nat, ttl: nat)
    | Reap(now: nat)

  // ---- the window on values -----------------------------------------------------------------

  predicate Seen(w: seq<Entry>, nonce: Bytes, now: nat) {
    exists e <- w :: now < e.expires && e.nonce == nonce
  }

  function Live(w: seq<Entry>, now: nat): seq<Entry> {
    if w == [] then []
    else
      var front, last := w[..|w| - 1], w[|w| - 1];
      if now < last.expires then Live(front, now) + [last] else Live(front, now)
  }

  /** The first of the entries that expire soonest. */
  function Oldest(w: seq<Entry>): (i: nat)
    requires w != []
    ensures i < |w|
    ensures forall j :: 0 <= j < |w| ==> w[i].expires <= w[j].expires
    ensures forall j :: 0 <= j < i ==> w[i].expires < w[j].expires
  {
    if |w| == 1 then 0
    else
      var i := Oldest(w[..|w| - 1]);
      if w[|w| - 1].expires < w[i].expires then |w| - 1 else i
  }

  function AcceptIn(w: seq<Entry>, capacity: nat, nonce: Bytes, now: nat, ttl: nat): (seq<Entry>, Answer)
    requires 1 <= capacity
  {
    var entry := Entry(nonce, now + ttl);
    if Seen(w, nonce, now) then (w, ReplayDetected)
    else if |w| < capacity then (w + [entry], Accepted)
    else
      var i := Oldest(w);
      if now >= w[i].expires then (w[i := entry], Accepted) else (w, TableFull)
  }

  // ---- the log ------------------------------------------------------------------------------

  /** What the log says: a replay is a nonce with an acceptance that has not expired; otherwise the
      table is full when `capacity` acceptances have not. */
  function LogAnswer(log: seq<Entry>, capacity: nat, nonce: Bytes, now: nat): Answer {
    if Seen(log, nonce, now) then ReplayDetected
    else if |Live(log, now)| >= capacity then TableFull
    else Accepted
  }

  /** The positions of the acceptances that have not expired. */
  ghost function Unexpired(log: seq<Entry>, now: nat): set<nat> {
    set i: nat | i < |log| && now < log[i].expires
  }

  lemma {:induction false} LiveIsUnexpired(log: seq<Entry>, now: nat)
    ensures |Live(log, now)| == |Unexpired(log, now)|
  {
    if log != [] {
      var n := |log| - 1;
      LiveIsUnexpired(log[..n], now);
      if now < log[n].expires {
        assert Unexpired(log, now) == Unexpired(log[..n], now) + {n};
      } else {
        assert Unexpired(log, now) == Unexpired(log[..n], now);
      }
    }
  }

  /** A nonce with an acceptance that has not expired is a replay; of the others one is accepted exactly if fewer than
      `capacity` acceptances have not expired, and then it is logged to expire after its time to live. */
  lemma LogAnswerExactly(log: seq<Entry>, capacity: nat, nonce: Bytes, now: nat, ttl: nat)
    ensures var answer := LogAnswer(log, capacity, nonce, now);
            var replay := exists i :: 0 <= i < |log| && log[i].nonce == nonce && now < log[i].expires;
            && (answer == ReplayDetected <==> replay)
            && (answer == Accepted <==> !replay && |Unexpired(log, now)| < capacity)
            && LogNext(log, capacity, nonce, now, ttl)
               == if answer == Accepted then log + [Entry(nonce, now + ttl)] else log
  {
    LiveIsUnexpired(log, now);
    assert Seen(log, nonce, now) <==> exists i :: 0 <= i < |log| && log[i].nonce == nonce && now < log[i].expires;
  }

  function LogNext(log: seq<Entry>, capacity: nat, nonce: Bytes, now: nat, ttl: nat): seq<Entry> {
    if LogAnswer(log, capacity, nonce, now).Accepted? then log + [Entry(nonce, now + ttl)] else log
  }

  // ---- runs ---------------------------------------------------------------------------------

  predicate Ascending(ops: seq<Op>, clock: nat) {
    ops == [] || (clock <= ops[0].now && Ascending(ops[1..], ops[0].now))
  }

  /** The window after a run, and the answers of the run's accept calls. */
  function Run(w: seq<Entry>, capacity: nat, ops: seq<Op>): (seq<Entry>, seq<Answer>)
    requires 1 <= capacity
    decreases |ops|
  {
    if ops == [] then (w, [])
    else
      match ops[0]
      case Reap(now) => Run(Live(w, now), capacity, ops[1..])
      case Accept(nonce, now, ttl) =>
        var (next, answer) := AcceptIn(w, capacity, nonce, now, ttl);
        var (end, more) := Run(next, capacity, ops[1..]);
        (end, [answer] + more)
  }

  /** The same calls answered from the log alone; a reap means nothing to it. */
  function LogRun(log: seq<Entry>, capacity: nat, ops: seq<Op>): (seq<Entry>, seq<Answer>)
    decreases |ops|
  {
    if ops == [] then (log, [])
    else
      match ops[0]
      case Reap(_) => LogRun(log, capacity, ops[1..])
      case Accept(nonce, now, ttl) =>
        var (end, more) := LogRun(LogNext(log, capacity, nonce, now, ttl), capacity, ops[1..]);
        (end, [LogAnswer(log, capacity, nonce, now)] + more)
  }

  // ---- the window agrees with the log -------------------------------------------------------

  /** The two hold the same entries, as many times, among those alive after `clock`. */
  ghost predicate Agree(w: seq<Entry>, log: seq<Entry>, clock: nat) {
    forall e: Entry :: clock < e.expires ==> multiset(w)[e] == multiset(log)[e]
  }

  lemma {:induction false} LiveCounts(w: seq<Entry>, now: nat, e: Entry)
    ensures multiset(Live(w, now))[e] == if now < e.expires then multiset(w)[e] else 0
  {
    if w != [] {
      LiveCounts(w[..|w| - 1], now, e);
      assert w == w[..|w| - 1] + [w[|w| - 1]];
    }
  }

  lemma {:induction false} LiveAtMost(w: seq<Entry>, now: nat)
    ensures |Live(w, now)| <= |w|
    ensures |Live(w, now)| == |w| <==> forall i :: 0 <= i < |w| ==> now < w[i].expires
  {
    if w != [] {
      LiveAtMost(w[..|w| - 1], now);
      var front := w[..|w| - 1];
      assert forall i :: 0 <= i < |front| ==> front[i] == w[i];
    }
  }

  lemma AgreeOnSeen(w: seq<Entry>, log: seq<Entry>, clock: nat, nonce: Bytes, now: nat)
    requires Agree(w, log, clock) && clock <= now
    ensures Seen(w, nonce, now) == Seen(log, nonce, now)
  {
    if Seen(w, nonce, now) {
      var e :| e in w && now < e.expires && e.nonce == nonce;
      assert e in multiset(w) && multiset(log)[e] > 0;
    }
    if Seen(log, nonce, now) {
      var e :| e in log && now < e.expires && e.nonce == nonce;
      assert e in multiset(log) && multiset(w)[e] > 0;
    }
  }

  lemma AgreeOnLive(w: seq<Entry>, log: seq<Entry>, clock: nat, now: nat)
    requires Agree(w, log, clock) && clock <= now
    ensures |Live(w, now)| == |Live(log, now)|
  {
    var a, b := multiset(Live(w, now)), multiset(Live(log, now));
    forall e: Entry
      ensures a[e] == b[e]
    {
      LiveCounts(w, now, e);
      LiveCounts(log, now, e);
    }
    assert a == b;
    assert |a| == |Live(w, now)| && |b| == |Live(log, now)|;
  }

  /** An accept answers as the log does and keeps the two in agreement. */
  lemma AcceptRefines(w: seq<Entry>, log: seq<Entry>, capacity: nat, clock: nat, nonce: Bytes, now: nat, ttl: nat)
    requires 1 <= capacity && |w| <= capacity && Agree(w, log, clock) && clock <= now
    ensures AcceptIn(w, capacity, nonce, now, ttl).1 == LogAnswer(log, capacity, nonce, now)
    ensures |AcceptIn(w, capacity, nonce, now, ttl).0| <= capacity
    ensures Agree(AcceptIn(w, capacity, nonce, now, ttl).0, LogNext(log, capacity, nonce, now, ttl), now)
  {
    AgreeOnSeen(w, log, clock, nonce, now);
    AgreeOnLive(w, log, clock, now);
    LiveAtMost(w, now);
    if |w| == capacity {
      Overwrite(w, Oldest(w), Entry(nonce, now + ttl));
    }
  }

  lemma Overwrite(w: seq<Entry>, i: nat, entry: Entry)
    requires i < |w|
    ensures multiset(w[i := entry]) == multiset(w) - multiset{w[i]} + multiset{entry}
  {
  }

  lemma ReapRefines(w: seq<Entry>, log: seq<Entry>, clock: nat, now: nat)
    requires Agree(w, log, clock) && clock <= now
    ensures Agree(Live(w, now), log, now) && |Live(w, now)| <= |w|
  {
    LiveAtMost(w, now);
    forall e: Entry | now < e.expires
      ensures multiset(Live(w, now))[e] == multiset(log)[e]
    {
      LiveCounts(w, now, e);
    }
  }

  /** Every run of a bounded window gives the answers the unbounded log gives. */
  lemma {:induction false} RunRefinesLog(w: seq<Entry>, log: seq<Entry>, capacity: nat, clock: nat, ops: seq<Op>)
    requires 1 <= capacity && |w| <= capacity && Agree(w, log, clock) && Ascending(ops, clock)
    ensures Run(w, capacity, ops).1 == LogRun(log, capacity, ops).1
    decreases |ops|
  {
    if ops != [] {
      match ops[0] {
        case Reap(now) =>
          ReapRefines(w, log, clock, now);
          RunRefinesLog(Live(w, now), log, capacity, now, ops[1..]);
        case Accept(nonce, now, ttl) =>
          AcceptRefines(w, log, capacity, clock, nonce, now, ttl);
          RunRefinesLog(AcceptIn(w, capacity, nonce, now, ttl).0, LogNext(log, capacity, nonce, now, ttl),
                        capacity, now, ops[1..]);
      }
    }
  }

  // ---- what follows from the log ------------------------------------------------------------

  function WithoutReaps(ops: seq<Op>): seq<Op> {
    if ops == [] then []
    else (if ops[0].Reap? then [] else [ops[0]]) + WithoutReaps(ops[1..])
  }

  lemma {:induction false} WithoutReapsFacts(log: seq<Entry>, capacity: nat, clock: nat, ops: seq<Op>)
    requires Ascending(ops, clock)
    ensures Ascending(WithoutReaps(ops), clock)
    ensures LogRun(log, capacity, WithoutReaps(ops)) == LogRun(log, capacity, ops)
    decreases |ops|
  {
    if ops != [] {
      var rest := WithoutReaps(ops[1..]);
      match ops[0] {
        case Reap(now) =>
          WithoutReapsFacts(log, capacity, now, ops[1..]);
          assert WithoutReaps(ops) == rest;
          EarlierClock(rest, clock, now);
        case Accept(nonce, now, ttl) =>
          WithoutReapsFacts(LogNext(log, capacity, nonce, now, ttl), capacity, now, ops[1..]);
          assert WithoutReaps(ops)[1..] == rest;
      }
    }
  }

  lemma EarlierClock(ops: seq<Op>, earlier: nat, clock: nat)
    requires Ascending(ops, clock) && earlier <= clock
    ensures Ascending(ops, earlier)
  {
  }

  /** Leaving out every reap of a run changes no answer. */
  lemma ReapIsUnobservable(capacity: nat, clock: nat, ops: seq<Op>)
    requires 1 <= capacity && Ascending(ops, clock)
    ensures Run([], capacity, WithoutReaps(ops)).1 == Run([], capacity, ops).1
  {
    WithoutReapsFacts([], capacity, clock, ops);
    RunRefinesLog([], [], capacity, clock, ops);
    RunRefinesLog([], [], capacity, clock, WithoutReaps(ops));
  }

  lemma {:induction false} LogOnlyGrows(log: seq<Entry>, capacity: nat, ops: seq<Op>)
    ensures log <= LogRun(log, capacity, ops).0
    decreases |ops|
  {
    if ops != [] {
      match ops[0] {
        case Reap(now) => LogOnlyGrows(log, capacity, ops[1..]);
        case Accept(nonce, now, ttl) => LogOnlyGrows(LogNext(log, capacity, nonce, now, ttl), capacity, ops[1..]);
      }
    }
  }

  lemma {:induction false} RunAgrees(w: seq<Entry>, log: seq<Entry>, capacity: nat, clock: nat, ops: seq<Op>, end: nat)
    requires 1 <= capacity && |w| <= capacity && Agree(w, log, clock)
    requires Ascending(ops, clock) && clock <= end && forall op <- ops :: op.now <= end
    ensures |Run(w, capacity, ops).0| <= capacity
    ensures Agree(Run(w, capacity, ops).0, LogRun(log, capacity, ops).0, end)
    decreases |ops|
  {
    if ops != [] {
      assert ops[0] in ops;
      match ops[0] {
        case Reap(now) =>
          ReapRefines(w, log, clock, now);
          RunAgrees(Live(w, now), log, capacity, now, ops[1..], end);
        case Accept(nonce, now, ttl) =>
          AcceptRefines(w, log, capacity, clock, nonce, now, ttl);
          RunAgrees(AcceptIn(w, capacity, nonce, now, ttl).0, LogNext(log, capacity, nonce, now, ttl),
                    capacity, now, ops[1..], end);
      }
    }
  }

  /** Once a nonce is accepted, every later attempt before it expires is refused as a replay, however
      many nonces are accepted, reaped or overwritten in between. */
  lemma AcceptedOncePerWindow(w: seq<Entry>, log: seq<Entry>, capacity: nat, clock: nat, nonce: Bytes, now: nat,
                              ttl: nat, between: seq<Op>, again: nat, ttl2: nat)
    requires 1 <= capacity && |w| <= capacity && Agree(w, log, clock) && clock <= now
    requires AcceptIn(w, capacity, nonce, now, ttl).1.Accepted?
    requires Ascending(between, now) && now <= again && forall op <- between :: op.now <= again
    requires again < now + ttl
    ensures var w1 := AcceptIn(w, capacity, nonce, now, ttl).0;
            var w2 := Run(w1, capacity, between).0;
            AcceptIn(w2, capacity, nonce, again, ttl2) == (w2, ReplayDetected)
  {
    AcceptRefines(w, log, capacity, clock, nonce, now, ttl);
    var w1, log1 := AcceptIn(w, capacity, nonce, now, ttl).0, LogNext(log, capacity, nonce, now, ttl);
    RunAgrees(w1, log1, capacity, now, between, again);
    LogOnlyGrows(log1, capacity, between);
    var w2, log2 := Run(w1, capacity, between).0, LogRun(log1, capacity, between).0;
    assert log2[|log1| - 1] == Entry(nonce, now + ttl);
    assert log2[|log1| - 1] in log2;
    AgreeOnSeen(w2, log2, again, nonce, again);
  }

  // ---- how far the clock may go back --------------------------------------------------------

  /** No call's clock lies `bound` or more behind an earlier call's. */
  ghost predicate JumpsBelow(ops: seq<Op>, bound: int) {
    forall i, j :: 0 <= i < j < |ops| ==> ops[i].now - ops[j].now < bound
  }

  lemma {:induction false} NoJumpsAscend(ops: seq<Op>, clock: nat)
    requires JumpsBelow(ops, 1) && (ops != [] ==> clock <= ops[0].now)
    ensures Ascending(ops, clock)
    decreases |ops|
  {
    if ops != [] {
      assert JumpsBelow(ops[1..], 1) by {
        forall i, j | 0 <= i < j < |ops| - 1 ensures ops[1..][i].now - ops[1..][j].now < 1 {
          assert ops[1..][i] == ops[i + 1] && ops[1..][j] == ops[j + 1];
        }
      }
      if |ops| > 1 { assert ops[1..][0] == ops[1]; }
      NoJumpsAscend(ops[1..], ops[0].now);
    }
  }

  /** Accept a nonce, reap when it has expired, and offer it again at the time of the first call. */
  function Forgetful(nonce: Bytes, t: nat, ttl: nat): seq<Op> {
    [Accept(nonce, t, ttl)] + ReapAndOffer(nonce, t, ttl)
  }

  function ReapAndOffer(nonce: Bytes, t: nat, ttl: nat): seq<Op> {
    [Reap(t + ttl)] + Offer(nonce, t, ttl)
  }

  function Offer(nonce: Bytes, t: nat, ttl: nat): seq<Op> {
    [Accept(nonce, t, ttl)] + []
  }

  /** A reap at a later time makes a call at an earlier time take a nonce whose acceptance has not expired. */
  lemma {:induction false} BackwardClockForgets(capacity: nat, nonce: Bytes, t: nat, ttl: nat)
    requires 1 <= capacity && 1 <= ttl
    ensures Run([], capacity, Forgetful(nonce, t, ttl)).1 == [Accepted] + [Accepted]
    ensures LogRun([], capacity, Forgetful(nonce, t, ttl)).1 == [Accepted] + [ReplayDetected]
  {
    var e := Entry(nonce, t + ttl);
    FirstEntry(capacity, nonce, t, ttl, e);
    OfferAnswers(capacity, nonce, t, ttl, e);
    RunFirst([], capacity, Accept(nonce, t, ttl), ReapAndOffer(nonce, t, ttl));
    RunFirst([e], capacity, Reap(t + ttl), Offer(nonce, t, ttl));
    LogFirst([], capacity, Accept(nonce, t, ttl), ReapAndOffer(nonce, t, ttl));
    LogFirst([e], capacity, Reap(t + ttl), Offer(nonce, t, ttl));
  }

  lemma FirstEntry(capacity: nat, nonce: Bytes, t: nat, ttl: nat, e: Entry)
    requires 1 <= capacity && 1 <= ttl && e == Entry(nonce, t + ttl)
    ensures AcceptIn([], capacity, nonce, t, ttl) == ([e], Accepted)
    ensures LogAnswer([], capacity, nonce, t) == Accepted && LogNext([], capacity, nonce, t, ttl) == [e]
    ensures LogAnswer([e], capacity, nonce, t) == ReplayDetected && Live([e], t + ttl) == []
  {
    assert [] + [e] == [e] && e in [e] && [e][..0] == [];
  }

  lemma {:induction false} OfferAnswers(capacity: nat, nonce: Bytes, t: nat, ttl: nat, e: Entry)
    requires 1 <= capacity && 1 <= ttl && e == Entry(nonce, t + ttl)
    ensures Run([], capacity, Offer(nonce, t, ttl)).1 == [Accepted]
    ensures LogRun([e], capacity, Offer(nonce, t, ttl)).1 == [ReplayDetected]
  {
    FirstEntry(capacity, nonce, t, ttl, e);
    RunFirst([], capacity, Accept(nonce, t, ttl), []);
    LogFirst([e], capacity, Accept(nonce, t, ttl), []);
    assert Run([e], capacity, []).1 == [];
    assert LogRun(LogNext([e], capacity, nonce, t, ttl), capacity, []).1 == [];
  }

  lemma {:induction false} RunFirst(w: seq<Entry>, capacity: nat, op: Op, rest: seq<Op>)
    requires 1 <= capacity
    ensures op.Reap? ==> Run(w, capacity, [op] + rest).1 == Run(Live(w, op.now), capacity, rest).1
    ensures op.Accept? ==>
              var (next, answer) := AcceptIn(w, capacity, op.nonce, op.now, op.ttl);
              Run(w, capacity, [op] + rest).1 == [answer] + Run(next, capacity, rest).1
  {
    assert ([op] + rest)[1..] == rest;
  }

  lemma {:induction false} LogFirst(log: seq<Entry>, capacity: nat, op: Op, rest: seq<Op>)
    ensures op.Reap? ==> LogRun(log, capacity, [op] + rest).1 == LogRun(log, capacity, rest).1
    ensures op.Accept? ==>
              LogRun(log, capacity, [op] + rest).1
              == [LogAnswer(log, capacity, op.nonce, op.now)]
                 + LogRun(LogNext(log, capacity, op.nonce, op.now, op.ttl), capacity, rest).1
  {
    assert ([op] + rest)[1..] == rest;
  }

  /** The window answers as the log does in every run whose clock jumps back by less than the bound, if and only
      if that means it does not jump back at all. */
  lemma SafeClock(capacity: nat, bound: int)
    requires 1 <= capacity
    ensures (forall ops :: JumpsBelow(ops, bound) ==> Run([], capacity, ops).1 == LogRun([], capacity, ops).1)
            <==> bound <= 1
  {
    if bound <= 1 {
      forall ops | JumpsBelow(ops, bound)
        ensures Run([], capacity, ops).1 == LogRun([], capacity, ops).1
      {
        NoJumpsAscend(ops, 0);
        RunRefinesLog([], [], capacity, 0, ops);
      }
    } else {
      BackwardClockForgets(capacity, [], 0, 1);
      assert ([Accepted] + [Accepted])[1] != ([Accepted] + [ReplayDetected])[1];
      assert JumpsBelow(Forgetful([], 0, 1), bound);
    }
  }

  // ---- the window as it runs ----------------------------------------------------------------

  class Window {
    var entries: array<Entry>
    var len: nat
    ghost var log: seq<Entry>
    ghost var clock: nat

    ghost predicate Valid()
      reads this, entries
    {
      1 <= entries.Length && len <= entries.Length && Agree(entries[..len], log, clock)
    }

    constructor (capacity: nat)
      requires 1 <= capacity
      ensures Valid() && fresh(entries) && entries.Length == capacity && log == [] && clock == 0
    {
      entries := new Entry[capacity](_ => Entry([], 0));
      len := 0;
      log := [];
      clock := 0;
    }

    method Accept(nonce: Bytes, now: nat, ttl: nat) returns (answer: Answer)
      requires Valid() && clock <= now
      modifies this, entries
      ensures Valid() && entries == old(entries) && clock == now
      ensures answer == LogAnswer(old(log), entries.Length, nonce, now)
      ensures log == LogNext(old(log), entries.Length, nonce, now, ttl)
      ensures (entries[..len], answer) == AcceptIn(old(entries[..len]), entries.Length, nonce, now, ttl)
    {
      ghost var w := entries[..len];
      AcceptRefines(w, log, entries.Length, clock, nonce, now, ttl);
      answer := Store(nonce, now, ttl);
      log := LogNext(log, entries.Length, nonce, now, ttl);
      clock := now;
    }

    method Store(nonce: Bytes, now: nat, ttl: nat) returns (answer: Answer)
      requires 1 <= entries.Length && len <= entries.Length
      modifies this`len, entries
      ensures len <= entries.Length
      ensures (entries[..len], answer) == AcceptIn(old(entries[..len]), entries.Length, nonce, now, ttl)
    {
      ghost var w := entries[..len];
      for i := 0 to len
        invariant forall j :: 0 <= j < i ==> now >= w[j].expires || w[j].nonce != nonce
      {
        if now < entries[i].expires && entries[i].nonce == nonce {
          assert w[i] in w;
          return ReplayDetected;
        }
      }
      assert !Seen(w, nonce, now);
      if len < entries.Length {
        entries[len] := Entry(nonce, now + ttl);
        len := len + 1;
        assert entries[..len] == w + [Entry(nonce, now + ttl)];
        return Accepted;
      }
      var oldest := 0;
      assert w[..1] == [w[0]];
      for i := 1 to len
        invariant oldest == Oldest(w[..i])
      {
        assert w[..i + 1][..i] == w[..i];
        if entries[i].expires < entries[oldest].expires { oldest := i; }
      }
      assert w[..len] == w;
      if now >= entries[oldest].expires {
        entries[oldest] := Entry(nonce, now + ttl);
        return Accepted;
      }
      return TableFull;
    }

    method Reap(now: nat)
      requires Valid() && clock <= now
      modifies this, entries
      ensures Valid() && entries == old(entries) && log == old(log) && clock == now
      ensures entries[..len] == Live(old(entries[..len]), now)
    {
      ReapRefines(entries[..len], log, clock, now);
      Compact(now);
      clock := now;
    }

    method Compact(now: nat)
      requires len <= entries.Length
      modifies this`len, entries
      ensures len <= entries.Length
      ensures entries[..len] == Live(old(entries[..len]), now)
    {
      ghost var w := entries[..len];
      var write := 0;
      for i := 0 to len
        invariant write <= i && len == |w|
        invariant entries[..write] == Live(w[..i], now)
        invariant forall k :: i <= k < len ==> entries[k] == w[k]
      {
        assert w[..i + 1][..i] == w[..i];
        if now < entries[i].expires {
          entries[write] := entries[i];
          write := write + 1;
        }
      }
      assert w[..len] == w;
      len := write;
    }
  }
}
