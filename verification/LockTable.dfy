/** The lease lock table: one lock per key, expiry by the caller's clock, and a generation number per
    grant that storage adapters check to turn stale workers away. */
module LockTable {
  import opened Common

  const U64: nat := 0x1_0000_0000_0000_0000

  /** How many different generations there are: 0 is never used. */
  const GENERATIONS: nat := U64 - 1

  datatype Lock = Lock(key: Bytes, owner: Bytes, expires: nat, generation: nat, active: bool)

  datatype LockError = TableFull | AlreadyLocked | NotOwner | UnknownLock | LeaseExpired

  datatype Table = Table(locks: seq<Lock>, next: nat)

  const START := Table([], 1)

  datatype Op =
    | Acquire(key: Bytes, owner: Bytes, now: nat, ttl: nat)
    | Renew(key: Bytes, owner: Bytes, now: nat, ttl: nat)
    | Release(key: Bytes, owner: Bytes)
    | ValidateFence(key: Bytes, owner: Bytes, generation: nat, now: nat)
    | Reap(now: nat)

  datatype Answer = Granted(generation: nat) | Done | Refused(error: LockError) | Fence(holds: bool)

  function Find(ls: seq<Lock>, key: Bytes): (r: Option<nat>)
    ensures r.Some? ==> r.value < |ls| && ls[r.value].key == key
    ensures r.Some? ==> forall i :: 0 <= i < r.value ==> ls[i].key != key
    ensures r.None? <==> forall i :: 0 <= i < |ls| ==> ls[i].key != key
  {
    if ls == [] then None
    else if ls[0].key == key then Some(0)
    else match Find(ls[1..], key) case None => None case Some(i) => Some(i + 1)
  }

  /** The generation after this one: 64-bit wrap-around that steps over 0. */
  function NextGeneration(g: nat): nat {
    if (g + 1) % U64 == 0 then 1 else (g + 1) % U64
  }

  predicate Live(l: Lock, now: nat) { l.active && now < l.expires }

  function TryAcquire(t: Table, capacity: nat, key: Bytes, owner: Bytes, now: nat, ttl: nat): (Table, Answer) {
    var taken := Lock(key, owner, now + ttl, t.next, true);
    match Find(t.locks, key)
    case Some(i) =>
      if Live(t.locks[i], now) then (t, Refused(AlreadyLocked))
      else (Table(t.locks[i := taken], NextGeneration(t.next)), Granted(t.next))
    case None =>
      if |t.locks| >= capacity then (t, Refused(TableFull))
      else (Table(t.locks + [taken], NextGeneration(t.next)), Granted(t.next))
  }

  function TryRenew(t: Table, key: Bytes, owner: Bytes, now: nat, ttl: nat): (Table, Answer) {
    match Find(t.locks, key)
    case None => (t, Refused(UnknownLock))
    case Some(i) =>
      if !Live(t.locks[i], now) then (t, Refused(LeaseExpired))
      else if t.locks[i].owner != owner then (t, Refused(NotOwner))
      else (t.(locks := t.locks[i := t.locks[i].(expires := now + ttl)]), Done)
  }

  function TryRelease(t: Table, key: Bytes, owner: Bytes): (Table, Answer) {
    match Find(t.locks, key)
    case None => (t, Refused(UnknownLock))
    case Some(i) =>
      if !t.locks[i].active then (t, Refused(UnknownLock))
      else if t.locks[i].owner != owner then (t, Refused(NotOwner))
      else (t.(locks := t.locks[i := t.locks[i].(active := false)]), Done)
  }

  predicate Holds(t: Table, key: Bytes, owner: Bytes, generation: nat, now: nat) {
    var i := Find(t.locks, key);
    i.Some? &&
    var l := t.locks[i.value];
    Live(l, now) && l.generation == generation && l.owner == owner
  }

  function ReapOne(l: Lock, now: nat): Lock {
    if l.active && now >= l.expires then l.(active := false) else l
  }

  function Reaped(ls: seq<Lock>, now: nat): (r: seq<Lock>)
    ensures |r| == |ls|
    ensures forall i :: 0 <= i < |ls| ==> r[i] == ReapOne(ls[i], now)
  {
    if ls == [] then [] else Reaped(ls[..|ls| - 1], now) + [ReapOne(ls[|ls| - 1], now)]
  }

  function Do(t: Table, capacity: nat, op: Op): (Table, Answer) {
    match op
    case Acquire(key, owner, now, ttl) => TryAcquire(t, capacity, key, owner, now, ttl)
    case Renew(key, owner, now, ttl) => TryRenew(t, key, owner, now, ttl)
    case Release(key, owner) => TryRelease(t, key, owner)
    case ValidateFence(key, owner, generation, now) => (t, Fence(Holds(t, key, owner, generation, now)))
    case Reap(now) => (t.(locks := Reaped(t.locks, now)), Done)
  }

  function Run(t: Table, capacity: nat, ops: seq<Op>): Table
    decreases |ops|
  {
    if ops == [] then t else Run(Do(t, capacity, ops[0]).0, capacity, ops[1..])
  }

  /** How many locks a run grants. */
  function Grants(t: Table, capacity: nat, ops: seq<Op>): nat
    decreases |ops|
  {
    if ops == [] then 0
    else
      var (next, answer) := Do(t, capacity, ops[0]);
      (if answer.Granted? then 1 else 0) + Grants(next, capacity, ops[1..])
  }

  // ---- the table as it runs -----------------------------------------------------------------

  class LeaseLocks {
    var locks: array<Lock>
    var len: nat
    var nextGeneration: nat

    ghost predicate Valid()
      reads this
    {
      len <= locks.Length
    }

    ghost function Value(): Table
      requires Valid()
      reads this, locks
    {
      Table(locks[..len], nextGeneration)
    }

    constructor (capacity: nat)
      ensures Valid() && fresh(locks) && locks.Length == capacity && Value() == START
    {
      locks := new Lock[capacity](_ => Lock([], [], 0, 0, false));
      len := 0;
      nextGeneration := 1;
    }

    method FindIndex(key: Bytes) returns (r: Option<nat>)
      requires Valid()
      ensures r == Find(locks[..len], key)
    {
      for i := 0 to len
        invariant forall j :: 0 <= j < i ==> locks[j].key != key
      {
        if locks[i].key == key { return Some(i); }
      }
      r := None;
    }

    method TakeGeneration() returns (g: nat)
      modifies this`nextGeneration
      ensures g == old(nextGeneration) && nextGeneration == NextGeneration(g)
    {
      g := nextGeneration;
      nextGeneration := (nextGeneration + 1) % U64;
      if nextGeneration == 0 { nextGeneration := 1; }
    }

    method AcquireLock(key: Bytes, owner: Bytes, now: nat, ttl: nat) returns (r: Answer)
      requires Valid()
      modifies this, locks
      ensures Valid() && locks == old(locks)
      ensures (Value(), r) == TryAcquire(old(Value()), locks.Length, key, owner, now, ttl)
    {
      ghost var before := locks[..len];
      var found := FindIndex(key);
      if found.Some? {
        var i := found.value;
        if locks[i].active && now < locks[i].expires { return Refused(AlreadyLocked); }
        var g := TakeGeneration();
        locks[i] := Lock(locks[i].key, owner, now + ttl, g, true);
        assert locks[..len] == before[i := locks[i]];
        return Granted(g);
      }
      if len >= locks.Length { return Refused(TableFull); }
      var g := TakeGeneration();
      locks[len] := Lock(key, owner, now + ttl, g, true);
      len := len + 1;
      assert locks[..len] == before + [Lock(key, owner, now + ttl, g, true)];
      return Granted(g);
    }

    method RenewLock(key: Bytes, owner: Bytes, now: nat, ttl: nat) returns (r: Answer)
      requires Valid()
      modifies locks
      ensures (Value(), r) == TryRenew(old(Value()), key, owner, now, ttl)
    {
      ghost var before := locks[..len];
      var found := FindIndex(key);
      if found.None? { return Refused(UnknownLock); }
      var i := found.value;
      if !locks[i].active || now >= locks[i].expires { return Refused(LeaseExpired); }
      if locks[i].owner != owner { return Refused(NotOwner); }
      locks[i] := locks[i].(expires := now + ttl);
      assert locks[..len] == before[i := locks[i]];
      r := Done;
    }

    method ReleaseLock(key: Bytes, owner: Bytes) returns (r: Answer)
      requires Valid()
      modifies locks
      ensures (Value(), r) == TryRelease(old(Value()), key, owner)
    {
      ghost var before := locks[..len];
      var found := FindIndex(key);
      if found.None? { return Refused(UnknownLock); }
      var i := found.value;
      if !locks[i].active { return Refused(UnknownLock); }
      if locks[i].owner != owner { return Refused(NotOwner); }
      locks[i] := locks[i].(active := false);
      assert locks[..len] == before[i := locks[i]];
      r := Done;
    }

    method Validate(key: Bytes, owner: Bytes, generation: nat, now: nat) returns (holds: bool)
      requires Valid()
      ensures holds == Holds(Value(), key, owner, generation, now)
    {
      var found := FindIndex(key);
      if found.None? { return false; }
      var l := locks[found.value];
      holds := l.active && now < l.expires && l.generation == generation && l.owner == owner;
    }

    method ReapExpired(now: nat)
      requires Valid()
      modifies locks
      ensures Value() == old(Value()).(locks := Reaped(old(Value()).locks, now))
      ensures forall i :: 0 <= i < len ==>
                var l := old(locks[i]);
                locks[i] == if l.active && l.expires <= now
                            then Lock(l.key, l.owner, l.expires, l.generation, false) else l
    {
      ghost var before := locks[..len];
      for i := 0 to len
        invariant forall j :: 0 <= j < i ==> locks[j] == ReapOne(before[j], now)
        invariant forall j :: i <= j < len ==> locks[j] == before[j]
      {
        if locks[i].active && now >= locks[i].expires {
          locks[i] := locks[i].(active := false);
        }
      }
    }
  }
}
