/** How many calls a backfill takes when nothing else runs, and the one case in which it never ends. */
module BackfillProgress {
  import opened KeyOrder
  import opened ShardMigration

  function StepWith(d: Disk, id: Name, b: Batch): Disk
    requires Known(d, id)
  {
    SaveCheckpoint(ImportInto(d, id, b.documents), id, b)
  }

  /** One whole BackfillStep call on a row in backfill. */
  function BackfillStep(d: Disk, id: Name, limit: int): Disk
    requires Known(d, id)
  {
    var m := d.rows[id];
    StepWith(d, id, ExportBatch(d.stores[m.source], m, m.checkpoint, Limit(limit)))
  }

  /** One call; on a row that has left backfill it changes nothing. */
  function Call(id: Name, limit: int): Disk -> Disk {
    (p: Disk) => if Known(p, id) && p.rows[id].phase == Backfill then BackfillStep(p, id, limit) else p
  }

  function Repeat(step: Disk -> Disk, d: Disk, calls: nat): Disk {
    if calls == 0 then d else step(Repeat(step, d, calls - 1))
  }

  /** The state after a number of calls. */
  function After(d: Disk, id: Name, limit: int, calls: nat): Disk {
    Repeat(Call(id, limit), d, calls)
  }

  lemma {:induction false} Stay(step: Disk -> Disk, d: Disk, calls: nat, holds: Disk -> bool)
    requires holds(d) && forall p :: holds(p) ==> holds(step(p))
    ensures holds(Repeat(step, d, calls))
  {
    if calls > 0 { Stay(step, d, calls - 1, holds); }
  }

  ghost function RangeKeys(d: Disk, m: Migration): set<Key>
    requires m.source in d.stores
  {
    Eligible(d.stores[m.source], m, [])
  }

  ghost predicate Started(d: Disk, id: Name) {
    && Known(d, id)
    && d.rows[id].source != d.rows[id].destination
    && d.rows[id].phase == Backfill && d.rows[id].checkpoint == []
  }

  /** With one document per batch and an empty key in the range, the saved checkpoint is the empty
      key, which the next export reads as no checkpoint. */
  ghost predicate Stuck(d: Disk, id: Name, limit: int)
    requires Started(d, id)
  {
    Limit(limit) == 1 && [] in RangeKeys(d, d.rows[id])
  }

  /** s lists the source keys of the range in order. */
  ghost predicate Listing(d: Disk, id: Name, s: seq<Key>)
    requires Started(d, id)
  {
    s == Sorted(RangeKeys(d, d.rows[id]))
  }

  /** The first `offset` of the keys s have been copied and the checkpoint says so. */
  ghost predicate CopiedTo(d: Disk, d': Disk, id: Name, s: seq<Key>, offset: nat)
    requires Started(d, id)
  {
    var m := d.rows[id];
    && offset <= |s|
    && d'.rows == d.rows[id := m.(checkpoint := if offset == 0 then [] else s[offset - 1])]
    && d'.stores.Keys == d.stores.Keys
    && d'.stores[m.source] == d.stores[m.source]
    && forall i :: 0 <= i < offset ==> s[i] in d'.stores[m.destination]
  }

  ghost predicate Carries(b: Batch, keys: seq<Key>, limit: nat) {
    && |b.documents| == |keys|
    && (forall i :: 0 <= i < |keys| ==> b.documents[i].key == keys[i])
    && b.next == (if keys == [] then [] else keys[|keys| - 1])
    && b.done == (|keys| < limit)
  }

  lemma ExportCarries(st: Store, m: Migration, after: Key, limit: nat)
    ensures Carries(ExportBatch(st, m, after, limit), Take(Sorted(Eligible(st, m, after)), limit), limit)
  {
    KeysCarried(st, Take(Sorted(Eligible(st, m, after)), limit), limit);
  }

  lemma KeysCarried(st: Store, keys: seq<Key>, limit: nat)
    requires forall k <- keys :: k in st
    ensures var next := if keys == [] then [] else keys[|keys| - 1];
            Carries(Batch(Documents(st, keys), next, |keys| < limit), keys, limit)
  {
  }

  lemma EligibleIgnoresPhase(st: Store, m: Migration, m': Migration, after: Key)
    requires m' == m.(phase := m'.phase, checkpoint := m'.checkpoint)
    ensures Eligible(st, m', after) == Eligible(st, m, after)
  {}

  /** Only the first key of a sorted list can be empty. */
  lemma EmptyKeyIsFirst(s: seq<Key>, i: nat)
    requires Ascending(s) && 0 < i < |s|
    ensures s[i] != []
  {
    assert Less(s[0], s[i]);
  }

  /** The keys behind the checkpoint are the rest of the list. */
  lemma RestOfListing(ks: set<Key>, s: seq<Key>, rest: set<Key>, offset: nat)
    requires s == Sorted(ks) && 0 < offset <= |s| && rest == set k | k in ks && Less(s[offset - 1], k)
    ensures Sorted(rest) == s[offset..]
  {
    SortedAbove(ks, rest, offset - 1);
  }

  lemma CheckpointIsKey(d: Disk, id: Name, limit: int, s: seq<Key>, offset: nat)
    requires Started(d, id) && Listing(d, id, s) && !Stuck(d, id, limit) && 0 < offset <= |s|
    requires offset == 1 ==> Limit(limit) == 1
    ensures s[offset - 1] != []
  {
    if offset > 1 { EmptyKeyIsFirst(s, offset - 1); }
    assert s[offset - 1] in RangeKeys(d, d.rows[id]);
  }

  /** What the export query selects when the first `offset` keys are behind the checkpoint. */
  lemma NextEligible(d: Disk, id: Name, limit: int, s: seq<Key>, offset: nat, m': Migration)
    requires Started(d, id) && Listing(d, id, s) && offset <= |s|
    requires m' == d.rows[id].(checkpoint := if offset == 0 then [] else s[offset - 1])
    requires offset > 0 ==> !Stuck(d, id, limit) && (offset == 1 ==> Limit(limit) == 1)
    ensures Sorted(Eligible(d.stores[m'.source], m', m'.checkpoint)) == s[offset..]
  {
    var m := d.rows[id];
    var st := d.stores[m.source];
    EligibleIgnoresPhase(st, m, m', m'.checkpoint);
    if offset > 0 {
      CheckpointIsKey(d, id, limit, s, offset);
      RestOfListing(RangeKeys(d, m), s, Eligible(st, m, m'.checkpoint), offset);
    }
  }

  /** What a call exports when the first `offset` keys are behind the checkpoint. */
  lemma NextExport(d: Disk, d': Disk, id: Name, limit: int, s: seq<Key>, offset: nat) returns (b: Batch)
    requires Started(d, id) && Listing(d, id, s)
    requires CopiedTo(d, d', id, s, offset)
    requires offset > 0 ==> !Stuck(d, id, limit) && (offset == 1 ==> Limit(limit) == 1)
    ensures Known(d', id) && StepWith(d', id, b) == BackfillStep(d', id, limit)
    ensures Carries(b, Take(s[offset..], Limit(limit)), Limit(limit))
  {
    var m' := d'.rows[id];
    var st := d.stores[m'.source];
    NextEligible(d, id, limit, s, offset, m');
    ExportCarries(st, m', m'.checkpoint, Limit(limit));
    b := ExportBatch(st, m', m'.checkpoint, Limit(limit));
  }

  lemma ImportedDisk(d: Disk, d': Disk, id: Name, docs: seq<Document>, s: seq<Key>, offset: nat)
    requires Started(d, id) && CopiedTo(d, d', id, s, offset) && Known(d', id)
    ensures CopiedTo(d, ImportInto(d', id, docs), id, s, offset)
    ensures forall i :: 0 <= i < |docs| ==> docs[i].key in ImportInto(d', id, docs).stores[d.rows[id].destination]
  {
    forall i | 0 <= i < |docs| ensures docs[i].key in ImportInto(d', id, docs).stores[d.rows[id].destination] {
      assert docs[i] in docs;
    }
  }

  lemma TakeSlice(s: seq<Key>, offset: nat, n: nat)
    requires offset + n <= |s|
    ensures Take(s[offset..], n) == s[offset..offset + n]
  {}

  /** A full batch moves the checkpoint up by one batch. */
  lemma FullBatch(d: Disk, d': Disk, e: Disk, id: Name, b: Batch, s: seq<Key>, offset: nat, n: nat, next: nat)
    requires Started(d, id) && CopiedTo(d, d', id, s, offset) && Known(d', id)
    requires 0 < n && next == offset + n && next <= |s| && Carries(b, Take(s[offset..], n), n)
    requires e == StepWith(d', id, b)
    ensures CopiedTo(d, e, id, s, next)
  {
    TakeSlice(s, offset, n);
    ImportedDisk(d, d', id, b.documents, s, offset);
    var d1 := ImportInto(d', id, b.documents);
    forall i | offset <= i < offset + n ensures s[i] in d1.stores[d.rows[id].destination] {
      assert b.documents[i - offset].key == s[i];
    }
    assert b.next == s[offset + n - 1];
  }

  /** A short batch ends the backfill with every document copied. */
  lemma LastBatch(d: Disk, d': Disk, id: Name, b: Batch, s: seq<Key>, offset: nat, n: nat)
    requires Started(d, id) && CopiedTo(d, d', id, s, offset) && Known(d', id)
    requires |s| < offset + n && Carries(b, s[offset..], n)
    ensures var e := StepWith(d', id, b);
            var m := d.rows[id];
            && id in e.rows && e.rows[id].phase == Verify
            && m.destination in e.stores && forall k <- s :: k in e.stores[m.destination]
  {
    ImportedDisk(d, d', id, b.documents, s, offset);
    var d1 := ImportInto(d', id, b.documents);
    forall k <- s ensures k in d1.stores[d.rows[id].destination] {
      var i :| 0 <= i < |s| && s[i] == k;
      if i >= offset { assert b.documents[i - offset].key == s[i]; }
    }
  }

  ghost predicate Finished(d: Disk, e: Disk, id: Name, s: seq<Key>)
    requires Started(d, id)
  {
    && id in e.rows && e.rows[id].phase == Verify
    && d.rows[id].destination in e.stores
    && forall k <- s :: k in e.stores[d.rows[id].destination]
  }

  /** A call from a state with `offset` documents copied, when a full batch remains. */
  lemma FullCall(d: Disk, d': Disk, e: Disk, id: Name, limit: int, s: seq<Key>, offset: nat, next: nat)
    requires Started(d, id) && Listing(d, id, s)
    requires CopiedTo(d, d', id, s, offset) && next == offset + Limit(limit) && next <= |s|
    requires offset > 0 ==> !Stuck(d, id, limit) && (offset == 1 ==> Limit(limit) == 1)
    requires Known(d', id) && e == BackfillStep(d', id, limit)
    ensures CopiedTo(d, e, id, s, next)
  {
    var b := NextExport(d, d', id, limit, s, offset);
    FullBatch(d, d', e, id, b, s, offset, Limit(limit), next);
  }

  /** A call when less than a full batch remains. */
  lemma LastCall(d: Disk, d': Disk, id: Name, limit: int, s: seq<Key>, offset: nat)
    requires Started(d, id) && Listing(d, id, s)
    requires CopiedTo(d, d', id, s, offset) && |s| < offset + Limit(limit)
    requires offset > 0 ==> !Stuck(d, id, limit) && (offset == 1 ==> Limit(limit) == 1)
    ensures Known(d', id) && Finished(d, BackfillStep(d', id, limit), id, s)
  {
    var b := NextExport(d, d', id, limit, s, offset);
    LastBatch(d, d', id, b, s, offset, Limit(limit));
  }

  /** The documents copied by a number of full batches. */
  function Offset(calls: nat, n: nat): nat {
    if calls == 0 then 0 else Offset(calls - 1, n) + n
  }

  lemma {:induction false} OffsetIsProduct(calls: nat, n: nat)
    ensures Offset(calls, n) == calls * n
  {
    if calls > 0 { OffsetIsProduct(calls - 1, n); }
  }

  lemma OffsetOne(calls: nat, n: nat)
    requires n > 0 && Offset(calls, n) == 1
    ensures n == 1
  {
    OffsetIsProduct(calls, n);
    assert calls >= 1;
    assert calls * n >= n;
  }

  lemma NothingCopied(d: Disk, id: Name, s: seq<Key>)
    requires Started(d, id)
    ensures CopiedTo(d, d, id, s, 0)
  {
    assert d.rows[id := d.rows[id].(checkpoint := [])] == d.rows;
  }

  lemma NextCall(d: Disk, p: Disk, q: Disk, id: Name, limit: int, s: seq<Key>, offset: nat, next: nat)
    requires Started(d, id) && Listing(d, id, s) && next == offset + Limit(limit) && next <= |s|
    requires offset > 0 ==> !Stuck(d, id, limit) && (offset == 1 ==> Limit(limit) == 1)
    requires CopiedTo(d, p, id, s, offset) && q == Call(id, limit)(p)
    ensures CopiedTo(d, q, id, s, next)
  {
    FullCall(d, p, q, id, limit, s, offset, next);
  }

  /** Every call but the last copies one full batch and moves the checkpoint to its last key. */
  lemma {:induction false} CheckpointAfter(d: Disk, id: Name, limit: int, calls: nat, s: seq<Key>, offset: nat, e: Disk)
    requires Started(d, id) && !Stuck(d, id, limit) && Listing(d, id, s)
    requires offset == Offset(calls, Limit(limit)) && offset <= |s| && e == After(d, id, limit, calls)
    ensures CopiedTo(d, e, id, s, offset)
    decreases calls
  {
    if calls == 0 {
      NothingCopied(d, id, s);
    } else {
      var before := Offset(calls - 1, Limit(limit));
      var p := After(d, id, limit, calls - 1);
      CheckpointAfter(d, id, limit, calls - 1, s, before, p);
      if before == 1 { OffsetOne(calls - 1, Limit(limit)); }
      NextCall(d, p, e, id, limit, s, before, offset);
    }
  }

  lemma {:induction false} OffsetGrows(a: nat, b: nat, n: nat)
    requires a <= b
    ensures Offset(a, n) <= Offset(b, n)
    decreases b
  {
    if a < b { OffsetGrows(a, b - 1, n); }
  }

  lemma FullBatches(n: nat, limit: nat)
    requires limit > 0
    ensures Offset(n / limit, limit) <= n < Offset(n / limit, limit) + limit
  {
    OffsetIsProduct(n / limit, limit);
  }

  lemma CallsFit(n: nat, limit: nat, calls: nat)
    requires limit > 0
    ensures calls <= n / limit ==> Offset(calls, limit) <= n
    ensures calls == n / limit ==> n < Offset(calls, limit) + limit
  {
    FullBatches(n, limit);
    if calls <= n / limit { OffsetGrows(calls, n / limit, limit); }
  }

  /** Unless it is stuck, a backfill of n documents reaches Verify at call n / limit + 1 and not
      before, with every source document of the range in the destination. */
  lemma BackfillEndsExactly(d: Disk, id: Name, limit: int, calls: nat)
    requires Started(d, id) && !Stuck(d, id, limit)
    requires calls <= |RangeKeys(d, d.rows[id])| / (if limit <= 0 then 500 else limit) + 1
    ensures var s := Sorted(RangeKeys(d, d.rows[id]));
            var e := After(d, id, limit, calls);
            if calls == |s| / (if limit <= 0 then 500 else limit) + 1 then Finished(d, e, id, s)
            else id in e.rows && e.rows[id].phase == Backfill
  {
    var s := Sorted(RangeKeys(d, d.rows[id]));
    var full := if calls == |s| / Limit(limit) + 1 then calls - 1 else calls;
    CallsFit(|s|, Limit(limit), full);
    var p, offset := After(d, id, limit, full), Offset(full, Limit(limit));
    CheckpointAfter(d, id, limit, full, s, offset, p);
    if full < calls {
      if offset == 1 { OffsetOne(full, Limit(limit)); }
      LastCall(d, p, id, limit, s, offset);
      assert After(d, id, limit, full + 1) == Call(id, limit)(p);
    }
  }

  /** The checkpoint rises with every call but the last. */
  lemma CheckpointRises(d: Disk, id: Name, limit: int, calls: nat)
    requires Started(d, id) && !Stuck(d, id, limit)
    requires calls < |RangeKeys(d, d.rows[id])| / Limit(limit)
    ensures var p, q := After(d, id, limit, calls), After(d, id, limit, calls + 1);
            id in p.rows && id in q.rows && Less(p.rows[id].checkpoint, q.rows[id].checkpoint)
  {
    var s := Sorted(RangeKeys(d, d.rows[id]));
    var l := Limit(limit);
    CallsFit(|s|, l, calls);
    CallsFit(|s|, l, calls + 1);
    CheckpointAfter(d, id, limit, calls, s, Offset(calls, l), After(d, id, limit, calls));
    CheckpointAfter(d, id, limit, calls + 1, s, Offset(calls + 1, l), After(d, id, limit, calls + 1));
    SortedRises(d, id, limit, s, Offset(calls, l));
  }

  lemma SortedRises(d: Disk, id: Name, limit: int, s: seq<Key>, offset: nat)
    requires Started(d, id) && !Stuck(d, id, limit) && Listing(d, id, s)
    requires offset + Limit(limit) <= |s|
    ensures Less(if offset == 0 then [] else s[offset - 1], s[offset + Limit(limit) - 1])
  {
    var j := offset + Limit(limit) - 1;
    if offset == 0 {
      assert s[j] in RangeKeys(d, d.rows[id]);
      if j > 0 { EmptyKeyIsFirst(s, j); }
    }
  }

  /** In the stuck case no number of calls reaches Verify: the checkpoint never leaves the start. */
  lemma StuckForever(d: Disk, id: Name, limit: int, calls: nat)
    requires Started(d, id) && Stuck(d, id, limit)
    ensures var e := After(d, id, limit, calls);
            id in e.rows && e.rows[id].phase == Backfill && e.rows[id].checkpoint == []
  {
    var s := Sorted(RangeKeys(d, d.rows[id]));
    NeverMoves(d, id, limit, calls, s);
  }

  /** A checkpoint at the empty key is no checkpoint. */
  lemma AtEmptyKey(d: Disk, p: Disk, id: Name, s: seq<Key>)
    requires Started(d, id) && s != [] && s[0] == [] && CopiedTo(d, p, id, s, 1)
    ensures CopiedTo(d, p, id, s, 0)
  {
  }

  lemma NeverMoves(d: Disk, id: Name, limit: int, calls: nat, s: seq<Key>)
    requires Started(d, id) && Stuck(d, id, limit) && Listing(d, id, s)
    ensures CopiedTo(d, After(d, id, limit, calls), id, s, 0)
  {
    var atStart := (p: Disk) => CopiedTo(d, p, id, s, 0);
    NothingCopied(d, id, s);
    EmptyKeyLeads(s);
    forall p | atStart(p)
      ensures atStart(Call(id, limit)(p))
    {
      NextCall(d, p, Call(id, limit)(p), id, limit, s, 0, 1);
      AtEmptyKey(d, Call(id, limit)(p), id, s);
    }
    Stay(Call(id, limit), d, calls, atStart);
  }

  lemma EmptyKeyLeads(s: seq<Key>)
    requires Ascending(s) && [] in s
    ensures s[0] == []
  {
    var i :| 0 <= i < |s| && s[i] == [];
    if i > 0 { EmptyKeyIsFirst(s, i); }
  }
}
