/** The coordinator and the SQL backend as they run: guarded updates of the migration table, the
    export and import loops, and write routing. Each method is tied to the operation on the durable
    state that the safety theorems are about. */
module ShardCoordinator {
  import opened KeyOrder
  import opened ShardMigration
  import opened BackfillProgress

  datatype Outcome = Done | Failed

  /** The keys of the range above the checkpoint, where an empty checkpoint is none. */
  ghost function Remaining(st: Store, m: Migration, after: Key): set<Key> {
    set k | k in st && !Less(k, m.start) && Less(k, m.end) && (after == [] || Less(after, k))
  }

  /** The batch holds the first of the remaining documents, in key order and as many as fit, ends with the last key it
      holds, and says whether there was room for more. */
  ghost predicate FirstOf(st: Store, remaining: set<Key>, limit: nat, b: Batch) {
    var docs := b.documents;
    && |docs| == (if |remaining| < limit then |remaining| else limit)
    && (forall i, j :: 0 <= i < j < |docs| ==> Less(docs[i].key, docs[j].key))
    && (forall d <- docs :: d.key in remaining && d.key in st && d.data == st[d.key])
    && (forall d <- docs, k <- remaining :: Less(d.key, k) || exists e <- docs :: e.key == k)
    && b.next == (if docs == [] then [] else docs[|docs| - 1].key)
    && b.done == (|remaining| < limit)
  }

  /** The rows of one export query turned into a batch: the first documents that remain, in key order. */
  method ExportRange(st: Store, m: Migration, after: Key, limit: nat) returns (batch: Batch)
    ensures batch == ExportBatch(st, m, after, limit)
    ensures FirstOf(st, Remaining(st, m, after), limit, batch)
  {
    var rows := Take(Sorted(Eligible(st, m, after)), limit);
    batch := Collect(st, rows, limit);
    ExportIsFirst(st, m, after, limit);
  }

  /** The row loop. */
  method Collect(st: Store, rows: seq<Key>, limit: nat) returns (batch: Batch)
    requires forall k <- rows :: k in st
    ensures batch == Batch(Documents(st, rows), if rows == [] then [] else rows[|rows| - 1], |rows| < limit)
  {
    var documents: seq<Document>, next: Key := [], [];
    for i := 0 to |rows|
      invariant |documents| == i
      invariant forall j :: 0 <= j < i ==> rows[j] in st && documents[j] == Document(rows[j], st[rows[j]])
      invariant next == (if i == 0 then [] else rows[i - 1])
    {
      assert rows[i] in rows;
      documents := documents + [Document(rows[i], st[rows[i]])];
      next := rows[i];
    }
    assert documents == Documents(st, rows);
    batch := Batch(documents, next, |documents| < limit);
  }

  lemma ExportIsFirst(st: Store, m: Migration, after: Key, limit: nat)
    ensures FirstOf(st, Remaining(st, m, after), limit, ExportBatch(st, m, after, limit))
  {
    assert Remaining(st, m, after) == Eligible(st, m, after);
    var all := Sorted(Eligible(st, m, after));
    FirstOnes(st, Take(all, limit), all, limit, ExportBatch(st, m, after, limit).documents);
  }

  lemma FirstOnes(st: Store, rows: seq<Key>, all: seq<Key>, limit: nat, docs: seq<Document>)
    requires Ascending(all) && rows == Take(all, limit) && (forall k <- rows :: k in st) && docs == Documents(st, rows)
    ensures forall i, j :: 0 <= i < j < |docs| ==> Less(docs[i].key, docs[j].key)
    ensures forall d <- docs :: d.key in all && d.key in st && d.data == st[d.key]
    ensures forall d <- docs, k <- all :: Less(d.key, k) || exists e <- docs :: e.key == k
  {
    forall d <- docs ensures d.key in all && d.key in st && d.data == st[d.key] {
      var i :| 0 <= i < |docs| && docs[i] == d;
      assert rows[i] in rows;
    }
    forall d <- docs, k <- all ensures Less(d.key, k) || exists e <- docs :: e.key == k {
      var i :| 0 <= i < |docs| && docs[i] == d;
      var j :| 0 <= j < |all| && all[j] == k;
      if j < |docs| { assert docs[j].key == k && docs[j] in docs; } else { assert Less(all[i], all[j]); }
    }
  }

  /** The keys of the store and of the documents; existing values stay, and of several documents of a new key the first
      is taken. */
  ghost predicate AddedTo(st: Store, docs: seq<Document>, r: Store) {
    && (forall k :: k in r <==> k in st || Has(docs, |docs|, k))
    && (forall k <- st :: k in r && r[k] == st[k])
    && (forall i :: 0 <= i < |docs| && docs[i].key !in st && !Has(docs, i, docs[i].key)
          ==> docs[i].key in r && r[docs[i].key] == docs[i].data)
  }

  /** One of the first n documents has the key. */
  ghost predicate Has(docs: seq<Document>, n: nat, k: Key)
    requires n <= |docs|
  {
    exists j :: 0 <= j < n && docs[j].key == k
  }

  lemma HasInLonger(docs: seq<Document>, d: Document, n: nat, k: Key)
    requires n <= |docs|
    ensures Has(docs + [d], n, k) <==> Has(docs, n, k)
    ensures Has(docs + [d], |docs| + 1, k) <==> Has(docs, |docs|, k) || d.key == k
  {
    var all := docs + [d];
    assert all[|docs|] == d;
    assert forall j :: 0 <= j < |docs| ==> all[j] == docs[j];
    if Has(docs, n, k) { var j :| 0 <= j < n && docs[j].key == k; assert all[j].key == k; }
    if Has(docs, |docs|, k) { var j :| 0 <= j < |docs| && docs[j].key == k; assert all[j].key == k; }
    if Has(all, |docs| + 1, k) && d.key != k { var j :| 0 <= j <= |docs| && all[j].key == k; assert docs[j].key == k; }
  }

  /** One transaction of inserts; a row whose key exists is left alone. */
  method ImportRows(st: Store, docs: seq<Document>) returns (r: Store)
    ensures r == ImportDocs(st, docs)
    ensures AddedTo(st, docs, r)
  {
    r := st;
    for i := 0 to |docs|
      invariant r == ImportDocs(st, docs[..i])
    {
      assert docs[..i + 1][..i] == docs[..i];
      if docs[i].key !in r { r := r[docs[i].key := docs[i].data]; }
    }
    assert docs[..|docs|] == docs;
    ImportAdds(st, docs);
  }

  lemma {:induction false} ImportAdds(st: Store, docs: seq<Document>)
    ensures AddedTo(st, docs, ImportDocs(st, docs))
    decreases |docs|
  {
    if docs != [] {
      var n := |docs| - 1;
      ImportAdds(st, docs[..n]);
      assert docs == docs[..n] + [docs[n]];
      OneMoreAdded(st, docs[..n], ImportDocs(st, docs[..n]), docs[n]);
    }
  }

  lemma OneMoreAdded(st: Store, docs: seq<Document>, r: Store, d: Document)
    requires AddedTo(st, docs, r)
    ensures AddedTo(st, docs + [d], if d.key in r then r else r[d.key := d.data])
  {
    var all, r' := docs + [d], if d.key in r then r else r[d.key := d.data];
    forall k ensures k in r' <==> k in st || Has(all, |all|, k) {
      HasInLonger(docs, d, |docs|, k);
    }
    forall i | 0 <= i < |all| && all[i].key !in st && !Has(all, i, all[i].key)
      ensures all[i].key in r' && r'[all[i].key] == all[i].data
    {
      HasInLonger(docs, d, i, all[i].key);
    }
  }

  /** One call copied the batch: the first of what remained above the checkpoint, with the checkpoint moved to its last
      key, and the row moved on to verify if there was room for more. */
  ghost predicate Copied(d: Disk, d': Disk, id: Name, size: nat, b: Batch)
    requires Known(d, id)
  {
    var m := d.rows[id];
    && FirstOf(d.stores[m.source], Remaining(d.stores[m.source], m, m.checkpoint), size, b)
    && d'.rows == d.rows[id := m.(phase := if b.done then Verify else Backfill, checkpoint := b.next)]
    && d'.stores.Keys == d.stores.Keys && (forall n <- d.stores :: n != m.destination ==> d'.stores[n] == d.stores[n])
    && AddedTo(d.stores[m.destination], b.documents, d'.stores[m.destination])
  }

  lemma StepCopies(d: Disk, id: Name, limit: int, size: nat) returns (b: Batch)
    requires Known(d, id) && d.rows[id].phase == Backfill && size == if limit <= 0 then 500 else limit
    ensures Copied(d, BackfillStep(d, id, limit), id, size, b)
  {
    var m := d.rows[id];
    b := ExportBatch(d.stores[m.source], m, m.checkpoint, size);
    ExportIsFirst(d.stores[m.source], m, m.checkpoint, size);
    ImportAdds(d.stores[m.destination], b.documents);
  }

  lemma RangeCount(st: Store, m: Migration)
    ensures |Restrict(st, m)| == |Remaining(st, m, [])|
  {
    assert Restrict(st, m).Keys == Remaining(st, m, []);
  }

  /** Backend n lost exactly its keys of the range, and the others are the same. */
  ghost predicate EmptiedOnly(before: map<Name, Store>, after: map<Name, Store>, n: Name, m: Migration) {
    && after.Keys == before.Keys && n in before
    && (forall o <- before :: o != n ==> after[o] == before[o])
    && (forall k :: k in after[n] <==> k in before[n] && (Less(k, m.start) || !Less(k, m.end)))
    && (forall k <- after[n] :: after[n][k] == before[n][k])
  }

  class Coordinator {
    var rows: map<Name, Migration>
    var stores: map<Name, Store>

    ghost function State(): Disk
      reads this
    {
      Disk(rows, stores)
    }

    constructor ()
      ensures State() == Disk(map[], map[])
    {
      rows, stores := map[], map[];
    }

    method Register(id: Name, contents: Store) returns (r: Outcome)
      modifies this
      ensures r == Done <==> id != "" && id !in old(stores)
      ensures State() == if r == Done then Disk(old(rows), old(stores)[id := contents]) else old(State())
    {
      if id == "" || id in stores { return Failed; }
      stores := stores[id := contents];
      r := Done;
    }

    method Create(id: Name, m: Migration) returns (r: Outcome)
      modifies this
      ensures State() == CreateRow(old(State()), id, m)
      ensures r == Done <==> && id != "" && m.source != "" && m.destination != "" && m.source != m.destination
                             && m.source in old(stores) && m.destination in old(stores) && id !in old(rows)
      ensures r == Failed ==> State() == old(State())
      ensures r == Done ==> && stores == old(stores)
                            && rows == old(rows)[id := Migration(m.source, m.destination, m.start, m.end, Planned, [])]
    {
      if id == "" || m.source == "" || m.destination == "" || m.source == m.destination { return Failed; }
      if m.source !in stores || m.destination !in stores { return Failed; }
      if id in rows { return Failed; }
      rows := rows[id := m.(phase := Planned, checkpoint := [])];
      r := Done;
    }

    method SetState(id: Name, from: set<Phase>, to: Phase, checkpoint: Key) returns (r: Outcome)
      modifies this`rows
      ensures State() == SetPhase(old(State()), id, from, to, checkpoint)
      ensures r == Done <==> id in old(rows) && old(rows)[id].phase in from
      ensures r == Failed ==> rows == old(rows)
      ensures r == Done ==>
                var m := old(rows)[id];
                rows == old(rows)[id := Migration(m.source, m.destination, m.start, m.end, to, checkpoint)]
    {
      if id !in rows || rows[id].phase !in from { return Failed; }
      rows := rows[id := rows[id].(phase := to, checkpoint := checkpoint)];
      r := Done;
    }

    /** Copies one batch; true when the backfill is over. */
    method BackfillOnce(id: Name, limit: int) returns (r: Outcome, over: bool)
      modifies this
      ensures r == Done <==> Known(old(State()), id) && old(rows)[id].phase == Backfill
      ensures r == Failed ==> State() == old(State())
      ensures r == Done ==> State() == BackfillStep(old(State()), id, limit)
      ensures r == Done && limit > 0 ==> exists b :: Copied(old(State()), State(), id, limit, b)
      ensures r == Done && limit <= 0 ==> exists b :: Copied(old(State()), State(), id, 500, b)
      ensures r == Done ==> id in rows && over == (rows[id].phase == Verify)
    {
      over := false;
      var size := if limit <= 0 then 500 else limit;
      if id !in rows || rows[id].phase != Backfill { return Failed, false; }
      var m := rows[id];
      if m.source !in stores || m.destination !in stores { return Failed, false; }
      var batch := ExportRange(stores[m.source], m, m.checkpoint, size);
      if |batch.documents| > 0 {
        var imported := ImportRows(stores[m.destination], batch.documents);
        stores := stores[m.destination := imported];
      }
      assert State() == ImportInto(old(State()), id, batch.documents);
      ghost var copied := StepCopies(old(State()), id, limit, size);
      if batch.done {
        r := SetState(id, {Backfill}, Verify, batch.next);
        over := true;
      } else {
        rows := rows[id := rows[id].(checkpoint := batch.next)];
        r := Done;
      }
    }

    method VerifyCutover(id: Name) returns (r: Outcome)
      modifies this
      ensures State() == VerifyRow(old(State()), id)
      ensures r == Done <==>
                && id in old(rows) && old(rows)[id].phase == Verify
                && old(rows)[id].source in old(stores) && old(rows)[id].destination in old(stores)
                && |Remaining(old(stores)[old(rows)[id].source], old(rows)[id], [])|
                   == |Remaining(old(stores)[old(rows)[id].destination], old(rows)[id], [])|
      ensures stores == old(stores)
      ensures rows == if r == Done then old(rows)[id := old(rows)[id].(phase := Cutover)] else old(rows)
    {
      if id !in rows || rows[id].phase != Verify { return Failed; }
      var m := rows[id];
      if m.source !in stores || m.destination !in stores { return Failed; }
      var a := |Restrict(stores[m.source], m)|;
      var b := |Restrict(stores[m.destination], m)|;
      RangeCount(stores[m.source], m);
      RangeCount(stores[m.destination], m);
      if a != b { return Failed; }
      r := SetState(id, {Verify}, Cutover, m.checkpoint);
    }

    method CompleteMigration(id: Name, deleteSource: bool) returns (r: Outcome)
      modifies this
      ensures State() == CompleteRow(old(State()), id, deleteSource)
      ensures r == Done <==> id in old(rows) && old(rows)[id].phase == Cutover
                             && (deleteSource ==> old(rows)[id].source in old(stores))
      ensures rows == if r == Done then old(rows)[id := old(rows)[id].(phase := Complete)] else old(rows)
      ensures r == Failed || !deleteSource ==> stores == old(stores)
      ensures r == Done && deleteSource ==> EmptiedOnly(old(stores), stores, old(rows)[id].source, old(rows)[id])
    {
      if id !in rows || rows[id].phase != Cutover { return Failed; }
      var m := rows[id];
      if deleteSource && m.source !in stores { return Failed; }
      if deleteSource { stores := stores[m.source := WithoutRange(stores[m.source], m)]; }
      r := SetState(id, {Cutover}, Complete, m.checkpoint);
    }

    /** The delete comes before the guarded update, so it also runs on a row that is already
        rolled back; the update then reports the failure. */
    method RollbackMigration(id: Name) returns (r: Outcome)
      modifies this
      ensures State() == RollbackRow(old(State()), id)
      ensures r == Done <==> id in old(rows) && old(rows)[id].destination in old(stores)
                             && old(rows)[id].phase in {Planned, DualWrite, Backfill, Verify}
      ensures rows == if r == Done then old(rows)[id := old(rows)[id].(phase := RolledBack)] else old(rows)
      ensures if id in old(rows) && old(rows)[id].phase !in {Cutover, Complete}
                 && old(rows)[id].destination in old(stores)
              then EmptiedOnly(old(stores), stores, old(rows)[id].destination, old(rows)[id])
              else stores == old(stores)
    {
      if id !in rows || rows[id].phase.Cutover? || rows[id].phase.Complete? { return Failed; }
      var m := rows[id];
      if m.destination !in stores { return Failed; }
      stores := stores[m.destination := WithoutRange(stores[m.destination], m)];
      r := SetState(id, {Planned, DualWrite, Backfill, Verify}, RolledBack, m.checkpoint);
    }

    /** The backends that a write to the key goes to. */
    method TargetsForWrite(key: Key) returns (targets: set<Name>)
      ensures targets == Targets(rows, key)
      ensures forall n :: n in targets <==>
                exists id <- rows ::
                  && !Less(key, rows[id].start) && Less(key, rows[id].end)
                  && (|| (n == rows[id].source && rows[id].phase in {Planned, DualWrite, Backfill, Verify})
                      || (n == rows[id].destination
                          && rows[id].phase in {DualWrite, Backfill, Verify, Cutover, Complete}))
    {
      targets := {};
      var pending := rows.Keys;
      ghost var scanned: map<Name, Migration> := map[];
      while pending != {}
        invariant pending <= rows.Keys
        invariant forall r :: r in scanned <==> r in rows && r !in pending
        invariant forall r <- scanned :: scanned[r] == rows[r]
        invariant targets == Targets(scanned, key)
        decreases pending
      {
        var id :| id in pending;
        var m := rows[id];
        pending := pending - {id};
        OneMoreRow(scanned, id, m, key);
        scanned := scanned[id := m];
        if !Less(key, m.start) && Less(key, m.end) {
          targets := targets + m.Targets();
        }
      }
      assert scanned == rows;
      RoutedExactly(rows, key);
    }
  }

  /** Routing by range and phase: to the source before the cutover, to the destination from dual write on, and nowhere
      once the row is rolled back. */
  lemma RoutedExactly(rows: map<Name, Migration>, key: Key)
    ensures forall n :: n in Targets(rows, key) <==>
              exists id <- rows ::
                && !Less(key, rows[id].start) && Less(key, rows[id].end)
                && (|| (n == rows[id].source && rows[id].phase in {Planned, DualWrite, Backfill, Verify})
                    || (n == rows[id].destination
                        && rows[id].phase in {DualWrite, Backfill, Verify, Cutover, Complete}))
  {
    forall n | n in Targets(rows, key)
      ensures exists id <- rows :: rows[id].Covers(key) && n in rows[id].Targets()
    {}
    forall id <- rows, n | rows[id].Covers(key) && n in rows[id].Targets() ensures n in Targets(rows, key) {}
  }

  lemma OneMoreRow(rows: map<Name, Migration>, id: Name, m: Migration, key: Key)
    requires id !in rows
    ensures Targets(rows[id := m], key) == Targets(rows, key) + (if m.Covers(key) then m.Targets() else {})
  {
    forall n ensures n in Targets(rows[id := m], key)
                <==> n in Targets(rows, key) || (m.Covers(key) && n in m.Targets())
    {
      if n in Targets(rows, key) {
        var r :| r in rows && rows[r].Covers(key) && n in rows[r].Targets();
        assert rows[id := m][r] == rows[r];
      }
      if m.Covers(key) && n in m.Targets() { assert rows[id := m][id] == m; }
    }
  }
}
