/** What the lock table promises over whole runs: reaping is invisible, a held lock stays held until
    its lease ends, and a fencing generation that is over stays over until the counter wraps. */
module LockFencing {
  import opened Common
  import opened LockTable

  // ---- reaping is invisible -----------------------------------------------------------------

  /** The two tables differ at most in whether locks that have expired by `clock` are still marked
      active. */
  ghost predicate Alike(a: Table, b: Table, clock: nat) {
    && a.next == b.next && |a.locks| == |b.locks|
    && forall i :: 0 <= i < |a.locks| ==> AlikeLock(a.locks[i], b.locks[i], clock)
  }

  ghost predicate AlikeLock(a: Lock, b: Lock, clock: nat) {
    a.(active := b.active) == b && (a.active != b.active ==> clock >= a.expires)
  }

  /** The clock of a call; release takes none. */
  function Clock(op: Op, clock: nat): nat {
    if op.Release? then clock else op.now
  }

  predicate Ascending(ops: seq<Op>, clock: nat) {
    ops == [] || (clock <= Clock(ops[0], clock) && Ascending(ops[1..], Clock(ops[0], clock)))
  }

  /** The answers of a run's acquire, renew and validate calls. */
  function Answers(t: Table, capacity: nat, ops: seq<Op>): seq<Answer>
    decreases |ops|
  {
    if ops == [] then []
    else
      var (next, answer) := Do(t, capacity, ops[0]);
      (if ops[0].Reap? || ops[0].Release? then [] else [answer]) + Answers(next, capacity, ops[1..])
  }

  function WithoutReaps(ops: seq<Op>): seq<Op> {
    if ops == [] then []
    else (if ops[0].Reap? then [] else [ops[0]]) + WithoutReaps(ops[1..])
  }

  lemma AlikeFind(a: Table, b: Table, clock: nat, key: Bytes)
    requires Alike(a, b, clock)
    ensures Find(a.locks, key) == Find(b.locks, key)
    ensures Find(a.locks, key).Some? ==>
              AlikeLock(a.locks[Find(a.locks, key).value], b.locks[Find(a.locks, key).value], clock)
  {
    forall i | 0 <= i < |a.locks|
      ensures a.locks[i].key == b.locks[i].key
    {
      assert AlikeLock(a.locks[i], b.locks[i], clock);
    }
  }

  lemma AcquireAlike(a: Table, b: Table, capacity: nat, clock: nat, op: Op)
    requires Alike(a, b, clock) && op.Acquire? && clock <= op.now
    ensures Do(a, capacity, op).1 == Do(b, capacity, op).1
    ensures Alike(Do(a, capacity, op).0, Do(b, capacity, op).0, op.now)
  {
    AlikeFind(a, b, clock, op.key);
  }

  lemma RenewAlike(a: Table, b: Table, capacity: nat, clock: nat, op: Op)
    requires Alike(a, b, clock) && op.Renew? && clock <= op.now
    ensures Do(a, capacity, op).1 == Do(b, capacity, op).1
    ensures Alike(Do(a, capacity, op).0, Do(b, capacity, op).0, op.now)
  {
    AlikeFind(a, b, clock, op.key);
  }

  lemma ReleaseAlike(a: Table, b: Table, capacity: nat, clock: nat, op: Op)
    requires Alike(a, b, clock) && op.Release?
    ensures Alike(Do(a, capacity, op).0, Do(b, capacity, op).0, clock)
  {
    AlikeFind(a, b, clock, op.key);
  }

  /** Tables that differ only in expired locks answer alike and stay alike. */
  lemma StepAlike(a: Table, b: Table, capacity: nat, clock: nat, op: Op)
    requires Alike(a, b, clock) && clock <= Clock(op, clock) && !op.Reap?
    ensures !op.Release? ==> Do(a, capacity, op).1 == Do(b, capacity, op).1
    ensures Alike(Do(a, capacity, op).0, Do(b, capacity, op).0, Clock(op, clock))
  {
    match op
    case Acquire(_, _, _, _) => AcquireAlike(a, b, capacity, clock, op);
    case Renew(_, _, _, _) => RenewAlike(a, b, capacity, clock, op);
    case Release(_, _) => ReleaseAlike(a, b, capacity, clock, op);
    case ValidateFence(key, _, _, _) => AlikeFind(a, b, clock, key);
  }

  lemma ReapAlike(a: Table, b: Table, clock: nat, now: nat)
    requires Alike(a, b, clock) && clock <= now
    ensures Alike(a.(locks := Reaped(a.locks, now)), b, now)
  {
  }

  /** Where release may tell: exactly on a lock that one table holds active and the other does not,
      and such a lock has expired. */
  lemma ReleaseTellsOnlyExpired(a: Table, b: Table, clock: nat, key: Bytes, owner: Bytes)
    requires Alike(a, b, clock)
    ensures TryRelease(a, key, owner).1 != TryRelease(b, key, owner).1
            <==> exists i :: Find(a.locks, key) == Some(i) && a.locks[i].active != b.locks[i].active
    ensures TryRelease(a, key, owner).1 != TryRelease(b, key, owner).1
            ==> clock >= a.locks[Find(a.locks, key).value].expires
  {
    AlikeFind(a, b, clock, key);
  }

  lemma {:induction false} RunsAlike(a: Table, b: Table, capacity: nat, clock: nat, ops: seq<Op>)
    requires Alike(a, b, clock) && Ascending(ops, clock)
    ensures Answers(a, capacity, ops) == Answers(b, capacity, WithoutReaps(ops))
    decreases |ops|
  {
    if ops != [] {
      var op := ops[0];
      var rest := WithoutReaps(ops[1..]);
      if op.Reap? {
        ReapAlike(a, b, clock, op.now);
        RunsAlike(Do(a, capacity, op).0, b, capacity, op.now, ops[1..]);
        assert WithoutReaps(ops) == rest;
      } else {
        StepAlike(a, b, capacity, clock, op);
        RunsAlike(Do(a, capacity, op).0, Do(b, capacity, op).0, capacity, Clock(op, clock), ops[1..]);
        assert WithoutReaps(ops) == [op] + rest && WithoutReaps(ops)[1..] == rest;
      }
    }
  }

  /** Reaping never changes what acquire, renew or validate answer later in the run. */
  lemma ReapIsUnobservable(t: Table, capacity: nat, clock: nat, ops: seq<Op>)
    requires Ascending(ops, clock)
    ensures Answers(t, capacity, ops) == Answers(t, capacity, WithoutReaps(ops))
  {
    RunsAlike(t, t, capacity, clock, ops);
  }

  // ---- a lock is held while its lease lasts -------------------------------------------------

  ghost predicate HeldBy(t: Table, key: Bytes, owner: Bytes, generation: nat, expires: nat) {
    var i := Find(t.locks, key);
    i.Some? && t.locks[i.value] == Lock(key, owner, expires, generation, true)
  }

  /** A grant holds the lock to the end of its lease, and a renewal to the end of the new one. */
  lemma GrantHolds(t: Table, capacity: nat, key: Bytes, owner: Bytes, now: nat, ttl: nat)
    requires TryAcquire(t, capacity, key, owner, now, ttl).1.Granted?
    ensures HeldBy(TryAcquire(t, capacity, key, owner, now, ttl).0, key, owner, t.next, now + ttl)
  {
    var after := TryAcquire(t, capacity, key, owner, now, ttl).0.locks;
    var i := if Find(t.locks, key).Some? then Find(t.locks, key).value else |t.locks|;
    FoundAt(after, key, i);
  }

  lemma RenewHolds(t: Table, key: Bytes, owner: Bytes, generation: nat, expires: nat, now: nat, ttl: nat)
    requires HeldBy(t, key, owner, generation, expires)
    ensures var (after, answer) := TryRenew(t, key, owner, now, ttl);
            if now < expires then answer == Done && HeldBy(after, key, owner, generation, now + ttl)
            else answer == Refused(LeaseExpired) && after == t
  {
    var i := Find(t.locks, key).value;
    if now < expires { FoundAt(TryRenew(t, key, owner, now, ttl).0.locks, key, i); }
  }

  /** While a lock is held nobody is granted it, and once its lease is over anybody is. */
  lemma HeldExcludes(t: Table, capacity: nat, key: Bytes, owner: Bytes, generation: nat, expires: nat, other: Bytes,
                     now: nat, ttl: nat)
    requires HeldBy(t, key, owner, generation, expires)
    ensures var (after, answer) := TryAcquire(t, capacity, key, other, now, ttl);
            if now < expires then answer == Refused(AlreadyLocked) && after == t
            else answer == Granted(t.next) && HeldBy(after, key, other, t.next, now + ttl)
  {
    if now >= expires { GrantHolds(t, capacity, key, other, now, ttl); }
  }

  /** The operation leaves alone a lock that it may not touch. */
  lemma SlotStays(t: Table, capacity: nat, op: Op, i: nat)
    requires i < |t.locks| && Find(t.locks, t.locks[i].key) == Some(i) && t.locks[i].active
    requires op.Acquire? || op.Reap? ==> op.now < t.locks[i].expires
    requires op.Release? || op.Renew? ==> op.key != t.locks[i].key || op.owner != t.locks[i].owner
    ensures |Do(t, capacity, op).0.locks| >= |t.locks| && Do(t, capacity, op).0.locks[i] == t.locks[i]
  {
  }

  lemma KeysStay(t: Table, capacity: nat, op: Op, j: nat)
    requires j < |t.locks|
    ensures |Do(t, capacity, op).0.locks| >= |t.locks| && Do(t, capacity, op).0.locks[j].key == t.locks[j].key
  {
  }

  lemma StepKeepsHeld(t: Table, capacity: nat, op: Op, key: Bytes, owner: Bytes, generation: nat, expires: nat)
    requires HeldBy(t, key, owner, generation, expires)
    requires op != Release(key, owner) && !(op.Renew? && op.key == key && op.owner == owner)
    requires op.Release? || op.now < expires
    ensures HeldBy(Do(t, capacity, op).0, key, owner, generation, expires)
  {
    var i := Find(t.locks, key).value;
    SlotStays(t, capacity, op, i);
    var after := Do(t, capacity, op).0.locks;
    forall j | 0 <= j < i
      ensures after[j].key != key
    {
      KeysStay(t, capacity, op, j);
    }
    FoundAt(after, key, i);
  }

  lemma FoundAt(ls: seq<Lock>, key: Bytes, i: nat)
    requires i < |ls| && ls[i].key == key && forall j :: 0 <= j < i ==> ls[j].key != key
    ensures Find(ls, key) == Some(i)
  {
  }

  /** Nothing that others do before the lease ends takes the lock from its owner. */
  lemma {:induction false} HeldWhileLeased(t: Table, capacity: nat, ops: seq<Op>, key: Bytes, owner: Bytes,
                                           generation: nat, expires: nat)
    requires HeldBy(t, key, owner, generation, expires)
    requires forall op <- ops :: op != Release(key, owner) && !(op.Renew? && op.key == key && op.owner == owner)
    requires forall op <- ops :: op.Release? || op.now < expires
    ensures forall now: nat :: Holds(Run(t, capacity, ops), key, owner, generation, now) <==> now < expires
    decreases |ops|
  {
    if ops != [] {
      assert ops[0] in ops;
      StepKeepsHeld(t, capacity, ops[0], key, owner, generation, expires);
      HeldWhileLeased(Do(t, capacity, ops[0]).0, capacity, ops[1..], key, owner, generation, expires);
    }
  }

  /** The fence of a held lock passes its owner, with its generation, before the end of the lease, and nobody else. */
  lemma FenceIsExact(t: Table, key: Bytes, owner: Bytes, generation: nat, expires: nat)
    requires HeldBy(t, key, owner, generation, expires)
    ensures forall o, g: nat, now: nat :: Holds(t, key, o, g, now) <==> o == owner && g == generation && now < expires
  {
  }

  /** Nobody but the owner renews a held lock. */
  lemma RenewIsTheOwners(t: Table, key: Bytes, owner: Bytes, generation: nat, expires: nat, other: Bytes, now: nat,
                         ttl: nat)
    requires HeldBy(t, key, owner, generation, expires) && other != owner
    ensures TryRenew(t, key, other, now, ttl) == (t, Refused(if now < expires then NotOwner else LeaseExpired))
  {
  }

  // ---- a released lock is free --------------------------------------------------------------

  /** The lock of the key, if the table has one. */
  function LockOf(t: Table, key: Bytes): Option<Lock> {
    match Find(t.locks, key)
    case None => None
    case Some(i) => Some(t.locks[i])
  }

  /** Nobody holds the key: no fence passes at any clock. */
  ghost predicate Free(t: Table, key: Bytes) {
    forall o, g: nat, now: nat :: !Holds(t, key, o, g, now)
  }

  /** One write to a key's lock leaves the locks of the other keys alone. */
  lemma OtherLocksStay(t: Table, key: Bytes, i: nat, lock: Lock, other: Bytes)
    requires Find(t.locks, key) == Some(i) && lock.key == key && other != key
    ensures LockOf(t.(locks := t.locks[i := lock]), other) == LockOf(t, other)
  {
    var f := Find(t.locks, other);
    if f.Some? { FoundAt(t.locks[i := lock], other, f.value); }
  }

  /** The owner's release succeeds at any time, also after the lease has run out. Then nobody passes the fence on the
      key, anybody is granted it at any clock, also before the old lease would have ended, and no other key's lock has
      changed. */
  lemma ReleaseFrees(t: Table, capacity: nat, key: Bytes, owner: Bytes, generation: nat, expires: nat)
    requires HeldBy(t, key, owner, generation, expires)
    ensures var (after, answer) := TryRelease(t, key, owner);
            && answer == Done && after.next == t.next && Free(after, key)
            && (forall other, now: nat, ttl: nat ::
                  TryAcquire(after, capacity, key, other, now, ttl).1 == Granted(t.next))
            && (forall o :: o != key ==> LockOf(after, o) == LockOf(t, o))
  {
    var after, i := TryRelease(t, key, owner).0, Find(t.locks, key).value;
    FoundAt(after.locks, key, i);
    forall o | o != key ensures LockOf(after, o) == LockOf(t, o) {
      OtherLocksStay(t, key, i, t.locks[i].(active := false), o);
    }
  }

  /** A release by anybody else is refused and changes nothing. */
  lemma ReleaseIsTheOwners(t: Table, key: Bytes, owner: Bytes, generation: nat, expires: nat, other: Bytes)
    requires HeldBy(t, key, owner, generation, expires) && other != owner
    ensures TryRelease(t, key, other) == (t, Refused(NotOwner))
  {
  }

  /** A lock that the table does not mark active can be neither renewed nor released. */
  lemma InactiveIsRefused(t: Table, key: Bytes, owner: Bytes, now: nat, ttl: nat)
    requires LockOf(t, key).Some? && !LockOf(t, key).value.active
    ensures TryRelease(t, key, owner) == (t, Refused(UnknownLock))
    ensures TryRenew(t, key, owner, now, ttl) == (t, Refused(LeaseExpired))
  {
  }

  /** A key without a lock: renewing and releasing are refused, and acquiring fails exactly in a full table. */
  lemma UnknownKey(t: Table, capacity: nat, key: Bytes, owner: Bytes, now: nat, ttl: nat)
    requires forall i :: 0 <= i < |t.locks| ==> t.locks[i].key != key
    ensures TryRelease(t, key, owner) == (t, Refused(UnknownLock))
    ensures TryRenew(t, key, owner, now, ttl) == (t, Refused(UnknownLock))
    ensures Free(t, key)
    ensures var (after, answer) := TryAcquire(t, capacity, key, owner, now, ttl);
            if |t.locks| >= capacity then after == t && answer == Refused(TableFull)
            else answer == Granted(t.next) && HeldBy(after, key, owner, t.next, now + ttl)
  {
    if |t.locks| < capacity { GrantHolds(t, capacity, key, owner, now, ttl); }
  }

  /** A released key: its lock is not active. */
  ghost predicate Released(t: Table, key: Bytes) {
    LockOf(t, key).Some? && !LockOf(t, key).value.active
  }

  lemma StepKeepsReleased(t: Table, capacity: nat, op: Op, key: Bytes)
    requires Released(t, key) && !(op.Acquire? && op.key == key)
    ensures Released(Do(t, capacity, op).0, key)
  {
    var i := Find(t.locks, key).value;
    var after := Do(t, capacity, op).0.locks;
    forall j | 0 <= j <= i
      ensures j < |after| && after[j].key == t.locks[j].key
    {
      KeysStay(t, capacity, op, j);
    }
    FoundAt(after, key, i);
  }

  /** After its owner's release the key stays free in every run until somebody acquires it again. */
  lemma FreeUntilAcquired(t: Table, capacity: nat, key: Bytes, owner: Bytes, generation: nat, expires: nat,
                          ops: seq<Op>)
    requires HeldBy(t, key, owner, generation, expires)
    requires forall op <- ops :: !(op.Acquire? && op.key == key)
    ensures Free(Run(t, capacity, [Release(key, owner)] + ops), key)
  {
    var after := TryRelease(t, key, owner).0;
    FoundAt(after.locks, key, Find(t.locks, key).value);
    var all := [Release(key, owner)] + ops;
    assert all[0] == Release(key, owner) && all[1..] == ops;
    StaysReleased(after, capacity, ops, key);
  }

  lemma {:induction false} StaysReleased(t: Table, capacity: nat, ops: seq<Op>, key: Bytes)
    requires Released(t, key) && forall op <- ops :: !(op.Acquire? && op.key == key)
    ensures Free(Run(t, capacity, ops), key)
    decreases |ops|
  {
    if ops != [] {
      assert ops[0] in ops;
      StepKeepsReleased(t, capacity, ops[0], key);
      StaysReleased(Do(t, capacity, ops[0]).0, capacity, ops[1..], key);
    }
  }

  // ---- generations --------------------------------------------------------------------------

  lemma CounterMoves(t: Table, capacity: nat, op: Op)
    ensures Do(t, capacity, op).0.next == if Do(t, capacity, op).1.Granted? then NextGeneration(t.next) else t.next
  {
  }

  lemma NextIs(g: nat)
    requires 1 <= g <= GENERATIONS
    ensures NextGeneration(g) == if g == GENERATIONS then 1 else g + 1
  {
  }

  /** The generation n grants after this one. */
  function Advance(g: nat, n: nat): nat
    requires 1 <= g
  {
    1 + (g - 1 + n) % GENERATIONS
  }

  lemma CounterStep(g: nat, n: nat)
    requires 1 <= g <= GENERATIONS
    ensures 1 <= NextGeneration(g) <= GENERATIONS
    ensures Advance(NextGeneration(g), n) == Advance(g, 1 + n)
  {
  }

  /** The counter after any run, wrap-around included. */
  lemma {:induction false} CounterAfter(t: Table, capacity: nat, ops: seq<Op>)
    requires 1 <= t.next <= GENERATIONS
    ensures Run(t, capacity, ops).next == Advance(t.next, Grants(t, capacity, ops))
    decreases |ops|
  {
    if ops != [] {
      var (next, answer) := Do(t, capacity, ops[0]);
      CounterMoves(t, capacity, ops[0]);
      var more := Grants(next, capacity, ops[1..]);
      if answer.Granted? { CounterStep(t.next, more); }
      CounterAfter(next, capacity, ops[1..]);
    }
  }

  /** The table after n grants, n no more than there are generations: keys and generations are
      distinct, and the generations are among the first n. */
  ghost predicate Inv(t: Table, n: nat) {
    && n <= GENERATIONS && t.next == (if n == GENERATIONS then 1 else n + 1)
    && (forall i :: 0 <= i < |t.locks| ==> 1 <= t.locks[i].generation <= n)
    && (forall i, j :: 0 <= i < j < |t.locks| ==> t.locks[i].key != t.locks[j].key)
  }

  function One(answer: Answer): nat { if answer.Granted? then 1 else 0 }

  lemma GrantKeepsInv(t: Table, n: nat, capacity: nat, op: Op)
    requires Inv(t, n) && n < GENERATIONS && op.Acquire? && Do(t, capacity, op).1.Granted?
    ensures Inv(Do(t, capacity, op).0, n + 1) && Do(t, capacity, op).1.generation == n + 1
  {
    NextIs(t.next);
  }

  lemma OtherKeepsInv(t: Table, n: nat, capacity: nat, op: Op)
    requires Inv(t, n) && !Do(t, capacity, op).1.Granted?
    ensures Inv(Do(t, capacity, op).0, n)
  {
  }

  lemma StepKeepsInv(t: Table, n: nat, capacity: nat, op: Op)
    requires Inv(t, n) && n + One(Do(t, capacity, op).1) <= GENERATIONS
    ensures Inv(Do(t, capacity, op).0, n + One(Do(t, capacity, op).1))
    ensures Do(t, capacity, op).1.Granted? ==> Do(t, capacity, op).1.generation == n + 1
  {
    if Do(t, capacity, op).1.Granted? { GrantKeepsInv(t, n, capacity, op); } else { OtherKeepsInv(t, n, capacity, op); }
  }

  lemma {:induction false} RunKeepsInv(t: Table, n: nat, capacity: nat, ops: seq<Op>)
    requires Inv(t, n) && n + Grants(t, capacity, ops) <= GENERATIONS
    ensures Inv(Run(t, capacity, ops), n + Grants(t, capacity, ops))
    decreases |ops|
  {
    if ops != [] {
      StepKeepsInv(t, n, capacity, ops[0]);
      RunKeepsInv(Do(t, capacity, ops[0]).0, n + One(Do(t, capacity, ops[0]).1), capacity, ops[1..]);
    }
  }

  /** Every lock with the generation is on the given key. */
  ghost predicate OnlyOn(t: Table, generation: nat, key: Bytes) {
    forall i :: 0 <= i < |t.locks| && t.locks[i].generation == generation ==> t.locks[i].key == key
  }

  /** No active lock has the generation. */
  ghost predicate Over(t: Table, generation: nat) {
    forall i :: 0 <= i < |t.locks| && t.locks[i].generation == generation ==> !t.locks[i].active
  }

  lemma StepKeepsOver(t: Table, n: nat, capacity: nat, op: Op, g: nat)
    requires Inv(t, n) && g <= n && n + One(Do(t, capacity, op).1) <= GENERATIONS
    ensures Over(t, g) ==> Over(Do(t, capacity, op).0, g)
    ensures forall key :: OnlyOn(t, g, key) ==> OnlyOn(Do(t, capacity, op).0, g, key)
  {
  }

  lemma {:induction false} RunKeepsOver(t: Table, n: nat, capacity: nat, ops: seq<Op>, g: nat)
    requires Inv(t, n) && g <= n && n + Grants(t, capacity, ops) <= GENERATIONS
    ensures Over(t, g) ==> Over(Run(t, capacity, ops), g)
    ensures forall key :: OnlyOn(t, g, key) ==> OnlyOn(Run(t, capacity, ops), g, key)
    decreases |ops|
  {
    if ops != [] {
      StepKeepsInv(t, n, capacity, ops[0]);
      StepKeepsOver(t, n, capacity, ops[0], g);
      RunKeepsOver(Do(t, capacity, ops[0]).0, n + One(Do(t, capacity, ops[0]).1), capacity, ops[1..], g);
    }
  }

  /** A new grant on the key, or its release, ends every earlier generation of that key. */
  lemma EndsGeneration(t: Table, n: nat, capacity: nat, op: Op, g: nat)
    requires Inv(t, n) && g <= n && n + One(Do(t, capacity, op).1) <= GENERATIONS
    requires (op.Acquire? && Do(t, capacity, op).1.Granted?) || (op.Release? && Do(t, capacity, op).1.Done?)
    requires OnlyOn(t, g, op.key)
    ensures Over(Do(t, capacity, op).0, g)
  {
  }

  // ---- a retired generation -----------------------------------------------------------------

  /** A run in which a lock is granted and later its key is granted again or released. */
  datatype Story = Story(before: seq<Op>, grant: Op, between: seq<Op>, end: Op, after: seq<Op>)

  function T0(capacity: nat, s: Story): Table { Run(START, capacity, s.before) }
  function T1(capacity: nat, s: Story): Table { Do(T0(capacity, s), capacity, s.grant).0 }
  function T2(capacity: nat, s: Story): Table { Run(T1(capacity, s), capacity, s.between) }
  function T3(capacity: nat, s: Story): Table { Do(T2(capacity, s), capacity, s.end).0 }
  function T4(capacity: nat, s: Story): Table { Run(T3(capacity, s), capacity, s.after) }

  ghost predicate Retires(capacity: nat, s: Story) {
    && s.grant.Acquire? && Do(T0(capacity, s), capacity, s.grant).1.Granted?
    && (s.end.Acquire? || s.end.Release?) && s.end.key == s.grant.key
    && (s.end.Acquire? ==> Do(T2(capacity, s), capacity, s.end).1.Granted?)
    && (s.end.Release? ==> Do(T2(capacity, s), capacity, s.end).1.Done?)
  }

  function Budget(capacity: nat, s: Story): nat {
    Grants(START, capacity, s.before) + 1 + Grants(T1(capacity, s), capacity, s.between)
    + One(Do(T2(capacity, s), capacity, s.end).1) + Grants(T3(capacity, s), capacity, s.after)
  }

  /** Somebody, on some key, at some time, passes the fence with the retired generation. */
  ghost predicate Revived(capacity: nat, s: Story)
    requires Retires(capacity, s)
  {
    var g := Do(T0(capacity, s), capacity, s.grant).1.generation;
    exists key, owner, now :: Holds(T4(capacity, s), key, owner, g, now)
  }

  /** After the grant its generation is on that key only, and stays so. */
  lemma GrantedOnce(capacity: nat, s: Story, n0: nat, n2: nat)
    requires Retires(capacity, s) && n0 == Grants(START, capacity, s.before)
    requires n2 == n0 + 1 + Grants(T1(capacity, s), capacity, s.between) && n2 <= GENERATIONS
    ensures Do(T0(capacity, s), capacity, s.grant).1 == Granted(n0 + 1)
    ensures Inv(T2(capacity, s), n2) && OnlyOn(T2(capacity, s), n0 + 1, s.grant.key)
  {
    RunKeepsInv(START, 0, capacity, s.before);
    StepKeepsInv(T0(capacity, s), n0, capacity, s.grant);
    GrantIsOnlyOn(T0(capacity, s), n0, capacity, s.grant);
    RunKeepsInv(T1(capacity, s), n0 + 1, capacity, s.between);
    RunKeepsOver(T1(capacity, s), n0 + 1, capacity, s.between, n0 + 1);
  }

  /** A generation that was superseded or released never passes the fence again, whatever the clocks,
      as long as no more locks are granted than there are generations. */
  lemma RetiredStaysRetired(capacity: nat, s: Story)
    requires Retires(capacity, s) && Budget(capacity, s) <= GENERATIONS
    ensures !Revived(capacity, s)
  {
    var n0 := Grants(START, capacity, s.before);
    var n2 := n0 + 1 + Grants(T1(capacity, s), capacity, s.between);
    var last := One(Do(T2(capacity, s), capacity, s.end).1);
    GrantedOnce(capacity, s, n0, n2);
    EndsGeneration(T2(capacity, s), n2, capacity, s.end, n0 + 1);
    StepKeepsInv(T2(capacity, s), n2, capacity, s.end);
    RunKeepsOver(T3(capacity, s), n2 + last, capacity, s.after, n0 + 1);
  }

  lemma GrantIsOnlyOn(t: Table, n: nat, capacity: nat, op: Op)
    requires Inv(t, n) && n < GENERATIONS && op.Acquire? && Do(t, capacity, op).1.Granted?
    ensures OnlyOn(Do(t, capacity, op).0, n + 1, op.key)
  {
  }

  // ---- the wrap -----------------------------------------------------------------------------

  const KEY: Bytes := [107]
  const FIRST: Bytes := [1]
  const OTHER: Bytes := [2]

  const BRIEF := Acquire(KEY, OTHER, 1, 0)

  function Copies(n: nat): seq<Op> {
    if n == 0 then [] else [BRIEF] + Copies(n - 1)
  }

  /** The key is the only one and its lock has run out by time 1. */
  ghost predicate RunOut(t: Table) {
    |t.locks| == 1 && t.locks[0].key == KEY && t.locks[0].expires <= 1 && 1 <= t.next <= GENERATIONS
  }

  lemma BriefGrant(t: Table, capacity: nat)
    requires RunOut(t)
    ensures RunOut(Do(t, capacity, BRIEF).0) && Do(t, capacity, BRIEF).1 == Granted(t.next)
  {
    assert Find(t.locks, KEY) == Some(0);
    NextIs(t.next);
  }

  lemma {:induction false} ManyGrants(t: Table, capacity: nat, n: nat)
    requires RunOut(t)
    ensures RunOut(Run(t, capacity, Copies(n))) && Grants(t, capacity, Copies(n)) == n
    decreases n
  {
    if n > 0 {
      BriefGrant(t, capacity);
      assert Copies(n)[0] == BRIEF && Copies(n)[1..] == Copies(n - 1);
      ManyGrants(Do(t, capacity, BRIEF).0, capacity, n - 1);
    }
  }

  lemma {:induction false} RunAppend(t: Table, capacity: nat, ops: seq<Op>, op: Op)
    ensures Run(t, capacity, ops + [op]) == Do(Run(t, capacity, ops), capacity, op).0
    ensures Grants(t, capacity, ops + [op])
            == Grants(t, capacity, ops) + One(Do(Run(t, capacity, ops), capacity, op).1)
    decreases |ops|
  {
    if ops == [] {
      assert ops + [op] == [op] && [op][1..] == [];
      assert Run(Do(t, capacity, op).0, capacity, []) == Do(t, capacity, op).0;
    } else {
      assert (ops + [op])[0] == ops[0] && (ops + [op])[1..] == ops[1..] + [op];
      RunAppend(Do(t, capacity, ops[0]).0, capacity, ops[1..], op);
    }
  }

  const LAST := Acquire(KEY, FIRST, 1, 9)

  /** The first worker's lock lapses, the other worker takes the key once per remaining generation, and
      the first worker's next grant has the generation of its first one. */
  function Wrap(): Story {
    Story([], Acquire(KEY, FIRST, 0, 1), [], BRIEF, Copies(GENERATIONS - 2) + [LAST])
  }

  lemma WrapBegins(capacity: nat)
    requires 1 <= capacity
    ensures Do(T0(capacity, Wrap()), capacity, Wrap().grant).1 == Granted(1)
    ensures T2(capacity, Wrap()) == T1(capacity, Wrap())
    ensures RunOut(T1(capacity, Wrap())) && T1(capacity, Wrap()).next == 2
  {
    assert Find(START.locks, KEY).None?;
  }

  lemma WrapEnds(t: Table, capacity: nat, n: nat)
    requires RunOut(t) && t.next == 3 && n == GENERATIONS - 2
    ensures var ops := Copies(n) + [LAST];
            Grants(t, capacity, ops) == n + 1 && Holds(Run(t, capacity, ops), KEY, FIRST, 1, 5)
  {
    ManyGrants(t, capacity, n);
    CounterAfter(t, capacity, Copies(n));
    RunAppend(t, capacity, Copies(n), LAST);
    var u := Run(t, capacity, Copies(n));
    assert u.next == 1;
    assert Find(u.locks, KEY) == Some(0);
  }

  lemma WrapRevives(capacity: nat)
    requires 1 <= capacity
    ensures Retires(capacity, Wrap()) && Budget(capacity, Wrap()) == GENERATIONS + 1 && Revived(capacity, Wrap())
  {
    WrapBegins(capacity);
    BriefGrant(T1(capacity, Wrap()), capacity);
    assert NextGeneration(2) == 3;
    CounterMoves(T1(capacity, Wrap()), capacity, BRIEF);
    WrapEnds(T3(capacity, Wrap()), capacity, GENERATIONS - 2);
    assert Holds(T4(capacity, Wrap()), KEY, FIRST, 1, 5);
  }

  /** How many grants the fence survives: exactly as many as there are generations. */
  lemma FenceBudget(capacity: nat, grants: nat)
    requires 1 <= capacity
    ensures (forall s :: Retires(capacity, s) && Budget(capacity, s) <= grants ==> !Revived(capacity, s))
            <==> grants <= GENERATIONS
  {
    if grants <= GENERATIONS {
      forall s | Retires(capacity, s) && Budget(capacity, s) <= grants
        ensures !Revived(capacity, s)
      {
        RetiredStaysRetired(capacity, s);
      }
    } else {
      WrapRevives(capacity);
    }
  }
}
