/** Safety of one migration over every run: any number of backfill workers and Verify calls, stopped or
    overtaken between any two of their statements, with writes routed in between. */
module ShardSafety {
  import opened KeyOrder
  import opened ShardMigration

  // ---- from worlds to views -----------------------------------------------------------------

  ghost predicate SameAt(a: Store, b: Store, k: Key) {
    (k in a <==> k in b) && (k in a ==> a[k] == b[k])
  }

  lemma RestrictCongruent(a: Store, b: Store, m: Migration)
    requires forall k :: m.Covers(k) ==> SameAt(a, b, k)
    ensures Restrict(a, m) == Restrict(b, m)
  {
    forall k ensures SameAt(Restrict(a, m), Restrict(b, m), k) {
      if m.Covers(k) { assert SameAt(a, b, k); }
    }
  }

  /** Only phase and checkpoint differ. */
  ghost predicate SameRange(m: Migration, m': Migration) {
    m' == m.(phase := m'.phase, checkpoint := m'.checkpoint)
  }

  lemma CoversSame(m: Migration, m': Migration)
    requires SameRange(m, m')
    ensures forall k :: m.Covers(k) == m'.Covers(k)
    ensures forall st: Store :: Restrict(st, m) == Restrict(st, m')
  {
    forall k ensures m.Covers(k) == m'.Covers(k) {}
  }

  lemma LookSame(w: World, w': World, m: Migration, m': Migration)
    requires SameRange(m, m')
    requires w'.disk.stores == w.disk.stores && w'.written == w.written
    requires m.source in w.disk.stores && m.destination in w.disk.stores
    ensures Look(w', m') == Look(w, m)
  {
    CoversSame(m, m');
  }

  /** Nothing outside the range of m differs between the two worlds. */
  ghost predicate SameOutside(w: World, w': World, m: Migration) {
    && w'.disk.stores.Keys == w.disk.stores.Keys
    && (forall n, k :: n in w.disk.stores && !m.Covers(k) ==> SameAt(w.disk.stores[n], w'.disk.stores[n], k))
    && (forall k :: !m.Covers(k) ==> SameAt(w.written, w'.written, k))
  }

  lemma OthersUnchanged(w: World, w': World, m: Migration, other: Migration)
    requires SameOutside(w, w', m) && Disjoint(other, m)
    requires other.source in w.disk.stores && other.destination in w.disk.stores
    ensures Look(w', other) == Look(w, other)
  {
    forall n | n in {other.source, other.destination}
      ensures Restrict(w.disk.stores[n], other) == Restrict(w'.disk.stores[n], other)
    {
      RestrictCongruent(w.disk.stores[n], w'.disk.stores[n], other);
    }
    RestrictCongruent(w.written, w'.written, other);
  }

  /** Same rows and backends, with calls of known rows. */
  ghost predicate RowsKept(w: World, w': World) {
    && w'.disk.rows.Keys == w.disk.rows.Keys && w'.disk.stores.Keys == w.disk.stores.Keys
    && (forall r <- w.disk.rows :: SameRange(w.disk.rows[r], w'.disk.rows[r]))
    && (forall j <- w'.jobs :: JobOf(w.disk.rows, w'.jobs[j]))
    && (forall c <- w'.checks :: w'.checks[c].id in w.disk.rows)
    && (forall c <- w'.admins :: w'.admins[c].id in w.disk.rows)
  }

  lemma KeptIsWellFormed(w: World, w': World)
    requires WellFormed(w) && RowsKept(w, w')
    ensures WellFormed(w')
  {
    forall a <- w'.disk.rows, b <- w'.disk.rows | a != b ensures Disjoint(w'.disk.rows[a], w'.disk.rows[b]) {
      assert Disjoint(w.disk.rows[a], w.disk.rows[b]);
      CoversSame(w.disk.rows[a], w'.disk.rows[a]);
      CoversSame(w.disk.rows[b], w'.disk.rows[b]);
    }
    forall j <- w'.jobs ensures JobOf(w'.disk.rows, w'.jobs[j]) {
      assert JobOf(w.disk.rows, w'.jobs[j]);
      CoversSame(w.disk.rows[w'.jobs[j].id], w'.disk.rows[w'.jobs[j].id]);
    }
    forall a <- w'.disk.rows ensures Known(w'.disk, a) && w'.disk.rows[a].source != w'.disk.rows[a].destination {
      assert Known(w.disk, a);
    }
  }

  ghost predicate DiskKept(d: Disk, d': Disk) {
    && d'.rows.Keys == d.rows.Keys && d'.stores.Keys == d.stores.Keys
    && forall r <- d.rows :: SameRange(d.rows[r], d'.rows[r])
  }

  lemma SetPhaseKeepsDisk(d: Disk, id: Name, from: set<Phase>, to: Phase, checkpoint: Key)
    ensures DiskKept(d, SetPhase(d, id, from, to, checkpoint))
  {
  }

  lemma ExportKeepsRows(w: World, worker: nat, limit: int)
    requires CallsKnown(w)
    ensures RowsKept(w, DoExport(w, worker, limit))
  {
    var w' := DoExport(w, worker, limit);
    if worker in w.jobs && w.jobs[worker].Loaded? && Known(w.disk, w.jobs[worker].id) {
      var m := w.disk.rows[w.jobs[worker].id];
      ExportFacts(w.disk.stores[m.source], m, w.jobs[worker].checkpoint, Limit(limit));
      assert JobOf(w.disk.rows, w'.jobs[worker]);
    }
  }

  lemma LoadKeepsRows(w: World, worker: nat, id: Name)
    requires CallsKnown(w)
    ensures RowsKept(w, DoLoad(w, worker, id))
  {
  }

  lemma ImportKeepsRows(w: World, worker: nat)
    requires CallsKnown(w)
    ensures RowsKept(w, DoImport(w, worker))
  {
  }

  lemma RollbackDeleteKeepsRows(w: World, call: nat)
    requires CallsKnown(w)
    ensures RowsKept(w, DoRollbackDelete(w, call))
  {
  }

  lemma CompleteDeleteKeepsRows(w: World, call: nat)
    requires CallsKnown(w)
    ensures RowsKept(w, DoCompleteDelete(w, call))
  {
  }

  lemma RollbackFinishKeepsRows(w: World, call: nat)
    requires CallsKnown(w)
    ensures RowsKept(w, DoRollbackFinish(w, call))
  {
    if call in w.admins && w.admins[call].RollingBack? {
      var admin := w.admins[call];
      SetPhaseKeepsDisk(w.disk, admin.id, {Planned, DualWrite, Backfill, Verify}, RolledBack, admin.checkpoint);
    }
  }

  lemma CompleteFinishKeepsRows(w: World, call: nat)
    requires CallsKnown(w)
    ensures RowsKept(w, DoCompleteFinish(w, call))
  {
    if call in w.admins && w.admins[call].Completing? {
      SetPhaseKeepsDisk(w.disk, w.admins[call].id, {Cutover}, Complete, w.admins[call].checkpoint);
    }
  }

  lemma WriteKeepsRows(w: World, key: Key, doc: Doc)
    requires CallsKnown(w)
    ensures RowsKept(w, DoWrite(w, key, doc))
  {
  }

  /** A step that leaves the tables alone and starts or ends calls of known rows. */
  lemma CallsKeepRows(w: World, w': World)
    requires CallsKnown(w) && w'.disk == w.disk
    requires forall j <- w'.jobs :: j in w.jobs && w'.jobs[j] == w.jobs[j]
    requires forall c <- w'.checks :: w'.checks[c].id in w.disk.rows
    requires forall c <- w'.admins :: w'.admins[c].id in w.disk.rows
    ensures RowsKept(w, w')
  {
  }

  lemma AdminStepKeepsRows(w: World, step: Step)
    requires CallsKnown(w)
    requires step.CompleteIt? || step.CompleteTest? || step.CompleteDelete? || step.CompleteFinish? || step.Rollback?
             || step.RollbackTest? || step.RollbackDelete? || step.RollbackFinish?
    ensures RowsKept(w, Apply(w, step))
  {
    match step
    case CompleteIt(id, deleteSource) => CompleteKeepsRows(w, id, deleteSource);
    case Rollback(id) => RollbackKeepsRows(w, id);
    case CompleteDelete(call) => CompleteDeleteKeepsRows(w, call);
    case CompleteFinish(call) => CompleteFinishKeepsRows(w, call);
    case RollbackDelete(call) => RollbackDeleteKeepsRows(w, call);
    case RollbackFinish(call) => RollbackFinishKeepsRows(w, call);
    case _ => AdminReadsKeepRows(w, step);
  }

  lemma WorkerStepKeepsRows(w: World, step: Step)
    requires CallsKnown(w) && (step.Load? || step.Export? || step.Import? || step.Save?)
    ensures RowsKept(w, Apply(w, step))
  {
    match step
    case Load(worker, id) => LoadKeepsRows(w, worker, id);
    case Export(worker, limit) => ExportKeepsRows(w, worker, limit);
    case Import(worker) => ImportKeepsRows(w, worker);
    case Save(worker) => SaveKeepsRows(w, worker);
  }

  lemma StepKeepsRows(w: World, step: Step)
    requires CallsKnown(w) && !step.Create?
    ensures RowsKept(w, Apply(w, step))
  {
    if step.Load? || step.Export? || step.Import? || step.Save? {
      WorkerStepKeepsRows(w, step);
    } else if step.VerifyStart? || step.CountSource? || step.CountDestination? {
      VerifyReadsKeepRows(w, step);
    } else if step.WorkerCrash? || step.VerifyCrash? || step.AdminCrash? {
      StopsKeepRows(w, step);
    } else {
      match step
      case EnableDualWrite(id) => SetPhaseKeepsDisk(w.disk, id, {Planned}, DualWrite, []);
      case BeginBackfill(id) => SetPhaseKeepsDisk(w.disk, id, {DualWrite}, Backfill, []);
      case Commit(call) => CommitKeepsRows(w, call);
      case Write(key, doc) => WriteKeepsRows(w, key, doc);
      case _ => AdminStepKeepsRows(w, step);
    }
  }

  lemma VerifyReadsKeepRows(w: World, step: Step)
    requires CallsKnown(w) && (step.VerifyStart? || step.CountSource? || step.CountDestination?)
    ensures RowsKept(w, Apply(w, step))
  {
    CallsKeepRows(w, Apply(w, step));
  }

  lemma AdminReadsKeepRows(w: World, step: Step)
    requires CallsKnown(w) && (step.CompleteTest? || step.RollbackTest?)
    ensures RowsKept(w, Apply(w, step))
  {
    CallsKeepRows(w, Apply(w, step));
  }

  lemma StopsKeepRows(w: World, step: Step)
    requires CallsKnown(w) && (step.WorkerCrash? || step.VerifyCrash? || step.AdminCrash?)
    ensures RowsKept(w, Apply(w, step))
  {
    CallsKeepRows(w, Apply(w, step));
  }

  lemma SaveKeepsRows(w: World, worker: nat)
    requires CallsKnown(w)
    ensures RowsKept(w, DoSave(w, worker))
  {
    if worker in w.jobs && w.jobs[worker].Imported? {
      var job := w.jobs[worker];
      SetPhaseKeepsDisk(w.disk, job.id, {Backfill}, if job.batch.done then Verify else Backfill, job.batch.next);
    }
  }

  lemma CommitKeepsRows(w: World, call: nat)
    requires CallsKnown(w)
    ensures RowsKept(w, DoCommit(w, call))
  {
    if call in w.checks && w.checks[call].Matched? {
      SetPhaseKeepsDisk(w.disk, w.checks[call].id, {Verify}, Cutover, w.checks[call].checkpoint);
    }
  }

  lemma DiskKeepsRows(w: World, d: Disk)
    requires CallsKnown(w) && DiskKept(w.disk, d)
    ensures RowsKept(w, w.(disk := d))
  {
  }

  lemma CompleteKeepsDisk(d: Disk, id: Name, deleteSource: bool)
    ensures DiskKept(d, CompleteRow(d, id, deleteSource))
  {
  }

  lemma CompleteKeepsRows(w: World, id: Name, deleteSource: bool)
    requires CallsKnown(w)
    ensures RowsKept(w, w.(disk := CompleteRow(w.disk, id, deleteSource)))
  {
    CompleteKeepsDisk(w.disk, id, deleteSource);
    DiskKeepsRows(w, CompleteRow(w.disk, id, deleteSource));
  }

  lemma RollbackKeepsDisk(d: Disk, id: Name)
    ensures DiskKept(d, RollbackRow(d, id))
  {
  }

  lemma RollbackKeepsRows(w: World, id: Name)
    requires CallsKnown(w)
    ensures RowsKept(w, w.(disk := RollbackRow(w.disk, id)))
  {
    RollbackKeepsDisk(w.disk, id);
    DiskKeepsRows(w, RollbackRow(w.disk, id));
  }

  /** A migration that a step does not touch stays safe. */
  lemma OtherSafe(w: World, w': World, id: Name)
    requires Known(w.disk, id) && Known(w'.disk, id) && w'.disk.rows[id] == w.disk.rows[id]
    requires Look(w', w'.disk.rows[id]) == Look(w, w.disk.rows[id])
    requires id in w'.interrupted <==> id in w.interrupted
    requires forall j <- w'.jobs :: w'.jobs[j].id == id ==> j in w.jobs && w.jobs[j] == w'.jobs[j]
    requires forall c <- w'.checks :: w'.checks[c].id == id ==> c in w.checks && w.checks[c] == w'.checks[c]
    requires forall c <- w'.admins :: w'.admins[c].id == id ==> c in w.admins && w.admins[c] == w'.admins[c]
    requires Safe(w, id)
    ensures Safe(w', id)
  {
  }

  /** A step that changes calls only, each to one that is as it should be. */
  lemma CallsSafe(w: World, w': World, id: Name, m: Migration, v: View, whole: bool)
    requires Known(w.disk, id) && m == w.disk.rows[id] && v == Look(w, m)
    requires whole == (id !in w.interrupted) && Safe(w, id)
    requires w'.disk == w.disk && w'.written == w.written && w'.interrupted == w.interrupted
    requires forall j <- w'.jobs :: w'.jobs[j].id == id ==>
               (j in w.jobs && w.jobs[j] == w'.jobs[j]) || JobOk(m, v, w'.jobs[j], whole)
    requires forall c <- w'.checks :: w'.checks[c].id == id ==>
               (c in w.checks && w.checks[c] == w'.checks[c]) || CheckOk(m, v, w'.checks[c])
    requires forall c <- w'.admins :: w'.admins[c].id == id ==>
               (c in w.admins && w.admins[c] == w'.admins[c]) || AdminOk(m, w'.admins[c])
    ensures Safe(w', id)
  {
    assert Look(w', m) == v;
  }

  /** A step that changes the row's phase or checkpoint and leaves the backends alone. */
  lemma PhaseSafe(w: World, w': World, id: Name, m': Migration, v: View, whole: bool)
    requires Known(w.disk, id) && v == Look(w, w.disk.rows[id]) && SameRange(w.disk.rows[id], m')
    requires w'.disk.stores == w.disk.stores && w'.written == w.written && whole == (id !in w'.interrupted)
    requires Known(w'.disk, id) && w'.disk.rows[id] == m' && RowOk(m', v, whole)
    requires forall j <- w'.jobs :: w'.jobs[j].id == id ==> JobOk(m', v, w'.jobs[j], whole)
    requires forall c <- w'.checks :: w'.checks[c].id == id ==> CheckOk(m', v, w'.checks[c])
    requires forall c <- w'.admins :: w'.admins[c].id == id ==> AdminOk(m', w'.admins[c])
    ensures Safe(w', id)
  {
    LookSame(w, w', w.disk.rows[id], m');
  }

  /** A step inside the range of another row. */
  lemma OtherRange(w: World, w': World, r: Name, m: Migration, id: Name)
    requires WellFormed(w) && id in w.disk.rows && r in w.disk.rows && r != id && SameRange(w.disk.rows[r], m)
    requires SameOutside(w, w', m)
    ensures Known(w.disk, id) && Look(w', w.disk.rows[id]) == Look(w, w.disk.rows[id])
  {
    CoversSame(w.disk.rows[r], m);
    assert Disjoint(w.disk.rows[id], w.disk.rows[r]);
    OthersUnchanged(w, w', m, w.disk.rows[id]);
  }

  // ---- what each step does to one view ------------------------------------------------------

  lemma SubMapOfEqualSize(a: Store, b: Store)
    requires SubMap(a, b) && |a| == |b|
    ensures a == b
  {
    assert a.Keys <= b.Keys;
    assert |b.Keys - a.Keys| == |b.Keys| - |a.Keys|;
    assert a.Keys == b.Keys;
  }

  ghost predicate Wanted(b: Batch, after: Key, k: Key) {
    (after == [] || Less(after, k)) && (b.done || (b.next != [] && AtMost(k, b.next)))
  }

  lemma AscendingDistinct(s: seq<Key>)
    requires Ascending(s)
    ensures forall i, j :: 0 <= i < j < |s| ==> s[i] != s[j]
  {
    forall i, j | 0 <= i < j < |s| ensures s[i] != s[j] {
      assert Less(s[i], s[j]);
      LessIrreflexive(s[i]);
    }
  }

  /** An exported batch holds current documents and skips no key up to its end. */
  lemma ExportFacts(st: Store, m: Migration, after: Key, limit: nat)
    requires limit > 0
    ensures var b := ExportBatch(st, m, after, limit);
            && DistinctKeys(b.documents)
            && (forall d <- b.documents :: m.Covers(d.key) && d.key in st && st[d.key] == d.data)
            && (forall k <- st :: m.Covers(k) && Wanted(b, after, k) ==> InBatch(b, k))
  {
    var s := Sorted(Eligible(st, m, after));
    var keys := Take(s, limit);
    var b := ExportBatch(st, m, after, limit);
    assert DistinctKeys(b.documents) by { AscendingDistinct(keys); }
    forall d <- b.documents ensures m.Covers(d.key) && d.key in st && st[d.key] == d.data {
      var i :| 0 <= i < |b.documents| && b.documents[i] == d;
      assert keys[i] in s;
    }
    forall k <- st | m.Covers(k) && Wanted(b, after, k) ensures InBatch(b, k) {
      assert k in Eligible(st, m, after);
      var i :| 0 <= i < |s| && s[i] == k;
      if i >= |keys| {
        assert Less(s[limit - 1], s[i]);
        LessIrreflexive(k);
        if Less(k, b.next) { LessTransitive(k, b.next, k); }
      }
      assert b.documents[i].key == k;
    }
  }

  lemma ExportedJobOk(m: Migration, v: View, st: Store, job: Job, limit: nat, whole: bool)
    requires limit > 0 && job.Loaded? && v.src == Restrict(st, m)
    requires RowOk(m, v, whole) && JobOk(m, v, job, whole)
    ensures JobOk(m, v, Exported(job.id, job.checkpoint, ExportBatch(st, m, job.checkpoint, limit)), whole)
  {
    ExportFacts(st, m, job.checkpoint, limit);
    var b := ExportBatch(st, m, job.checkpoint, limit);
    forall d <- b.documents ensures DocOk(m, v, d) {
      assert m.Covers(d.key) && d.key in st && st[d.key] == d.data;
    }
    if whole && (m.phase == Backfill || m.phase == Verify) {
      forall k <- v.src | b.done || (b.next != [] && AtMost(k, b.next)) ensures k in v.dst || InBatch(b, k) {
        LessTotal(job.checkpoint, k);
        if job.checkpoint == [] || Less(job.checkpoint, k) { assert Wanted(b, job.checkpoint, k); }
      }
      assert BatchReaches(v, b, true);
    }
  }

  /** v' is v after importing docs into the destination. */
  ghost predicate ImportedView(v: View, v': View, docs: seq<Document>) {
    && v'.src == v.src && v'.written == v.written
    && (forall k <- v.dst :: k in v'.dst && v'.dst[k] == v.dst[k])
    && (forall k <- v'.dst :: k in v.dst || Document(k, v'.dst[k]) in docs)
    && (forall d <- docs :: d.key in v'.dst)
  }

  lemma ImportRowOk(m: Migration, v: View, v': View, docs: seq<Document>, whole: bool)
    requires RowOk(m, v, whole) && m.phase != Planned && m.phase != DualWrite
    requires forall d <- docs :: DocOk(m, v, d)
    requires ImportedView(v, v', docs)
    ensures RowOk(m, v', whole)
  {
    forall k <- v'.dst
      ensures (m.phase == Backfill || m.phase == Verify) ==> k in v.src && v'.dst[k] == v.src[k]
      ensures (m.phase == Cutover || m.phase == Complete) ==> k in v.dst
    {
      if k !in v.dst { assert DocOk(m, v, Document(k, v'.dst[k])); }
    }
    if m.phase == Cutover || m.phase == Complete {
      assert v'.dst == v.dst;
    }
  }

  /** A job stays good when the destination only grows. */
  lemma GrowJobOk(m: Migration, v: View, v': View, job: Job, whole: bool)
    requires JobOk(m, v, job, whole)
    requires v'.src == v.src && forall k <- v.dst :: k in v'.dst
    ensures JobOk(m, v', job, whole)
  {
    if job.Exported? {
      forall d <- job.batch.documents ensures DocOk(m, v', d) { assert DocOk(m, v, d); }
    }
  }

  /** A job stays good under a change of phase that keeps the keys in flight. */
  lemma PhaseJobOk(m: Migration, m': Migration, v: View, v': View, job: Job, whole: bool)
    requires SameRange(m, m') && JobOk(m, v, job, whole)
    requires m'.phase == RolledBack
             || (m'.phase in {Cutover, Complete} && v'.dst == v.dst
                 && (m.phase in {Cutover, Complete} || (m.phase == Verify && v.src == v.dst)))
             || (m'.phase in {Backfill, Verify} && m.phase == Backfill && v' == v)
    ensures JobOk(m', v', job, whole)
  {
    CoversSame(m, m');
    if job.Exported? {
      forall d <- job.batch.documents ensures DocOk(m', v', d) { assert DocOk(m, v, d); }
    }
  }

  ghost predicate WrittenView(m: Migration, v: View, v': View, k: Key, doc: Doc) {
    && m.Covers(k)
    && v'.written == v.written[k := doc]
    && v'.src == (if m.source in m.Targets() then v.src[k := doc] else v.src)
    && v'.dst == (if m.destination in m.Targets() then v.dst[k := doc] else v.dst)
  }

  lemma WriteRowOk(m: Migration, v: View, v': View, k: Key, doc: Doc, whole: bool)
    requires RowOk(m, v, whole) && m.phase != RolledBack && m.source != m.destination
    requires WrittenView(m, v, v', k, doc)
    ensures RowOk(m, v', whole)
  {}

  lemma WriteJobOk(m: Migration, v: View, v': View, k: Key, doc: Doc, job: Job, whole: bool)
    requires JobOk(m, v, job, whole) && m.phase != RolledBack && m.source != m.destination
    requires WrittenView(m, v, v', k, doc)
    ensures JobOk(m, v', job, whole)
  {
    if job.Exported? {
      forall d <- job.batch.documents ensures DocOk(m, v', d) { assert DocOk(m, v, d); }
    }
  }

  // ---- each step keeps a migration safe ------------------------------------------------------

  lemma NewRowKeepsWellFormed(w: World, w': World, id: Name, m: Migration)
    requires WellFormed(w) && id !in w.disk.rows && w'.disk.rows == w.disk.rows[id := m]
    requires w'.disk.stores == w.disk.stores && w'.jobs == w.jobs && w'.checks == w.checks && w'.admins == w.admins
    requires m.source in w.disk.stores && m.destination in w.disk.stores && m.source != m.destination
    requires forall r <- w.disk.rows :: Disjoint(w.disk.rows[r], m) && Disjoint(m, w.disk.rows[r])
    ensures WellFormed(w')
  {
    forall a <- w'.disk.rows, b <- w'.disk.rows | a != b ensures Disjoint(w'.disk.rows[a], w'.disk.rows[b]) {
      if a != id && b != id { assert Disjoint(w.disk.rows[a], w.disk.rows[b]); }
    }
    forall j <- w'.jobs ensures JobOf(w'.disk.rows, w'.jobs[j]) {
      assert JobOf(w.disk.rows, w.jobs[j]);
    }
    forall a <- w'.disk.rows ensures Known(w'.disk, a) && w'.disk.rows[a].source != w'.disk.rows[a].destination {
      if a != id { assert Known(w.disk, a); }
    }
  }

  lemma NewRowView(w: World, w': World, m: Migration, m': Migration)
    requires SameRange(m, m') && w'.disk.stores == w.disk.stores
    requires m.source in w.disk.stores && m.destination in w.disk.stores
    requires w'.written == WithoutRange(w.written, m) + Restrict(w.disk.stores[m.source], m)
    requires Restrict(w.disk.stores[m.destination], m) == map[]
    ensures Look(w', m').src == Look(w', m').written && Look(w', m').dst == map[]
  {
    CoversSame(m, m');
    assert Restrict(w'.written, m) == Restrict(w.disk.stores[m.source], m);
  }

  /** The rows that a new row's range does not touch see what they saw. */
  lemma NewRowElsewhere(w: World, w': World, m: Migration, other: Migration)
    requires w'.disk.stores == w.disk.stores && m.source in w.disk.stores
    requires w'.written == WithoutRange(w.written, m) + Restrict(w.disk.stores[m.source], m)
    requires other.source in w.disk.stores && other.destination in w.disk.stores && Disjoint(other, m)
    ensures Look(w', other) == Look(w, other)
  {
    RestrictCongruent(w.written, w'.written, other);
  }

  lemma CreateKeepsInv(w: World, r: Name, m: Migration, id: Name)
    requires Inv(w, id) && Admissible(w, Create(r, m))
    ensures Inv(DoCreate(w, r, m), id)
  {
    var w' := DoCreate(w, r, m);
    if w' != w {
      var m' := m.(phase := Planned, checkpoint := []);
      CoversSame(m, m');
      assert forall o <- w.disk.rows :: Disjoint(w.disk.rows[o], m') && Disjoint(m', w.disk.rows[o]);
      NewRowKeepsWellFormed(w, w', r, m');
      if id == r {
        NewRowView(w, w', m, m');
      } else if id in w.disk.rows {
        assert Known(w.disk, id);
        NewRowElsewhere(w, w', m, w.disk.rows[id]);
        OtherSafe(w, w', id);
      }
    }
  }

  /** Entering dual write or backfill, which no call is in progress for. */
  lemma AdvanceKeepsSafe(w: World, w': World, r: Name, from: Phase, to: Phase, id: Name)
    requires Known(w.disk, id) && Safe(w, id)
    requires (from == Planned && to == DualWrite) || (from == DualWrite && to == Backfill)
    requires w' == w.(disk := SetPhase(w.disk, r, {from}, to, []))
    ensures Safe(w', id)
  {
    LookSame(w, w', w.disk.rows[id], w'.disk.rows[id]);
    if r != id || w.disk.rows[id].phase != from { OtherSafe(w, w', id); }
  }

  lemma LoadKeepsSafe(w: World, worker: nat, r: Name, id: Name)
    requires Known(w.disk, id) && Safe(w, id)
    ensures Safe(DoLoad(w, worker, r), id)
  {
    var m, whole := w.disk.rows[id], id !in w.interrupted;
    CallsSafe(w, DoLoad(w, worker, r), id, m, Look(w, m), whole);
  }

  lemma ExportKeepsSafe(w: World, worker: nat, limit: int, id: Name)
    requires Known(w.disk, id) && Safe(w, id)
    ensures Safe(DoExport(w, worker, limit), id)
  {
    var m, w' := w.disk.rows[id], DoExport(w, worker, limit);
    if worker in w.jobs && w.jobs[worker].Loaded? && w.jobs[worker].id == id {
      var b := ExportBatch(w.disk.stores[m.source], m, w.jobs[worker].checkpoint, Limit(limit));
      OwnExport(w, worker, limit, id, m, Look(w, m), b);
    } else {
      CallsSafe(w, w', id, m, Look(w, m), id !in w.interrupted);
    }
  }

  lemma OwnExport(w: World, worker: nat, limit: int, id: Name, m: Migration, v: View, b: Batch)
    requires Known(w.disk, id) && Safe(w, id) && m == w.disk.rows[id] && v == Look(w, m)
    requires worker in w.jobs && w.jobs[worker].Loaded? && w.jobs[worker].id == id
    requires b == ExportBatch(w.disk.stores[m.source], m, w.jobs[worker].checkpoint, Limit(limit))
    ensures Safe(DoExport(w, worker, limit), id)
  {
    var job, whole := w.jobs[worker], id !in w.interrupted;
    assert JobOk(m, v, job, whole);
    ExportedJobOk(m, v, w.disk.stores[m.source], job, Limit(limit), whole);
    NewJobSafe(w, worker, Exported(id, job.checkpoint, b), id, m, v, whole);
  }

  lemma NewJobSafe(w: World, worker: nat, job: Job, id: Name, m: Migration, v: View, whole: bool)
    requires Known(w.disk, id) && Safe(w, id) && m == w.disk.rows[id]
    requires v == Look(w, m) && whole == (id !in w.interrupted)
    requires job.id == id && JobOk(m, v, job, whole)
    ensures Safe(w.(jobs := w.jobs[worker := job]), id)
  {
    CallsSafe(w, w.(jobs := w.jobs[worker := job]), id, m, v, whole);
  }

  lemma ImportIntoView(w: World, id: Name, docs: seq<Document>)
    requires Known(w.disk, id) && w.disk.rows[id].source != w.disk.rows[id].destination
    requires forall d <- docs :: w.disk.rows[id].Covers(d.key)
    ensures var m := w.disk.rows[id];
            var w' := w.(disk := ImportInto(w.disk, id, docs));
            ImportedView(Look(w, m), Look(w', m), docs) && SameOutside(w, w', m)
  {
    var m := w.disk.rows[id];
    var w' := w.(disk := ImportInto(w.disk, id, docs));
    var st := w.disk.stores[m.destination];
    var r := ImportDocs(st, docs);
    assert forall k <- r :: k in st || m.Covers(Document(k, r[k]).key);
  }

  /** Importing keeps a migration safe even if writes landed since the batch was exported. */
  lemma ImportKeepsSafe(w: World, w': World, worker: nat, id: Name)
    requires WellFormed(w) && id in w.disk.rows && Safe(w, id) && w' == DoImport(w, worker)
    ensures Safe(w', id)
  {
    if worker in w.jobs && w.jobs[worker].Exported? {
      var job := w.jobs[worker];
      if job.id == id { OwnImport(w, w', worker, id); } else { OtherImport(w, w', worker, id); }
    }
  }

  /** Equal contents stay equal under an import, which can add nothing. */
  lemma ImportCheckOk(m: Migration, v: View, v': View, docs: seq<Document>, check: Check, whole: bool)
    requires CheckOk(m, v, check) && RowOk(m, v, whole)
    requires (forall d <- docs :: DocOk(m, v, d)) && ImportedView(v, v', docs)
    ensures CheckOk(m, v', check)
  {
    if check.Matched? && m.phase == Verify {
      assert forall k <- v'.dst :: k in v.dst || DocOk(m, v, Document(k, v'.dst[k]));
      assert v'.dst == v.dst;
    }
  }

  lemma OwnImport(w: World, w': World, worker: nat, id: Name)
    requires WellFormed(w) && id in w.disk.rows && Safe(w, id) && w' == DoImport(w, worker)
    requires worker in w.jobs && w.jobs[worker].Exported? && w.jobs[worker].id == id
    ensures Safe(w', id)
  {
    var job, m, whole := w.jobs[worker], w.disk.rows[id], id !in w.interrupted;
    var docs, v, v' := job.batch.documents, Look(w, m), Look(w', m);
    assert JobOk(m, v, job, whole);
    assert JobOf(w.disk.rows, job);
    ImportIntoView(w, id, docs);
    ImportRowOk(m, v, v', docs, whole);
    forall j <- w'.jobs | w'.jobs[j].id == id ensures JobOk(m, v', w'.jobs[j], whole) {
      if j == worker {
        GrowJobOk(m, v, v', job, whole);
        ImportedJobOk(m, v', job, whole);
      } else {
        GrowJobOk(m, v, v', w.jobs[j], whole);
      }
    }
    forall c <- w'.checks | w'.checks[c].id == id ensures CheckOk(m, v', w'.checks[c]) {
      ImportCheckOk(m, v, v', docs, w.checks[c], whole);
    }
  }

  lemma OtherImport(w: World, w': World, worker: nat, id: Name)
    requires WellFormed(w) && id in w.disk.rows && Safe(w, id) && w' == DoImport(w, worker)
    requires worker in w.jobs && w.jobs[worker].Exported? && w.jobs[worker].id != id
    ensures Safe(w', id)
  {
    var job := w.jobs[worker];
    assert JobOf(w.disk.rows, job);
    ImportIntoView(w, job.id, job.batch.documents);
    OtherRange(w, w', job.id, w.disk.rows[job.id], id);
    OtherSafe(w, w', id);
  }

  lemma ImportedJobOk(m: Migration, v: View, job: Job, whole: bool)
    requires job.Exported? && JobOk(m, v, job, whole)
    requires forall d <- job.batch.documents :: d.key in v.dst
    ensures JobOk(m, v, Imported(job.id, job.batch), whole)
  {
    forall k | InBatch(job.batch, k) ensures k in v.dst {
      var i :| 0 <= i < |job.batch.documents| && job.batch.documents[i].key == k;
      assert job.batch.documents[i] in job.batch.documents;
    }
  }

  lemma SaveKeepsSafe(w: World, w': World, worker: nat, id: Name)
    requires Known(w.disk, id) && Safe(w, id) && w' == DoSave(w, worker)
    ensures id in w'.disk.rows && Known(w'.disk, id) && Safe(w', id)
  {
    var m, whole := w.disk.rows[id], id !in w.interrupted;
    var v := Look(w, m);
    if worker in w.jobs && w.jobs[worker].Imported? && w.jobs[worker].id == id && m.phase == Backfill {
      var b := w.jobs[worker].batch;
      OwnSave(w, w', worker, id, m, m.(phase := if b.done then Verify else Backfill, checkpoint := b.next), v, whole);
    } else {
      PhaseSafe(w, w', id, m, v, whole);
    }
  }

  lemma OwnSave(w: World, w': World, worker: nat, id: Name, m: Migration, m': Migration, v: View, whole: bool)
    requires Known(w.disk, id) && Safe(w, id) && m == w.disk.rows[id]
    requires v == Look(w, m) && whole == (id !in w.interrupted)
    requires worker in w.jobs && w.jobs[worker].Imported? && w.jobs[worker].id == id && m.phase == Backfill
    requires var b := w.jobs[worker].batch;
             m' == m.(phase := if b.done then Verify else Backfill, checkpoint := b.next)
    requires w' == w.(disk := w.disk.(rows := w.disk.rows[id := m']), jobs := w.jobs - {worker})
    ensures Known(w'.disk, id) && Safe(w', id)
  {
    assert JobOk(m, v, w.jobs[worker], whole);
    SavedRowOk(m, m', v, w.jobs[worker], whole);
    forall j <- w'.jobs | w'.jobs[j].id == id ensures JobOk(m', v, w'.jobs[j], whole) {
      PhaseJobOk(m, m', v, v, w.jobs[j], whole);
    }
    PhaseSafe(w, w', id, m', v, whole);
  }

  lemma SavedRowOk(m: Migration, m': Migration, v: View, job: Job, whole: bool)
    requires job.Imported? && m.phase == Backfill && RowOk(m, v, whole) && JobOk(m, v, job, whole)
    requires m' == m.(phase := if job.batch.done then Verify else Backfill, checkpoint := job.batch.next)
    ensures RowOk(m', v, whole)
  {}

  lemma DropKeepsSafe(w: World, w': World, id: Name)
    requires Known(w.disk, id) && Safe(w, id)
    requires w' == w.(jobs := w'.jobs, checks := w'.checks, admins := w'.admins)
    requires forall j <- w'.jobs :: j in w.jobs && w'.jobs[j] == w.jobs[j]
    requires forall c <- w'.checks :: c in w.checks && w'.checks[c] == w.checks[c]
    requires forall c <- w'.admins :: c in w.admins && w'.admins[c] == w.admins[c]
    ensures Safe(w', id)
  {
    LookSame(w, w', w.disk.rows[id], w.disk.rows[id]);
    OtherSafe(w, w', id);
  }

  // ---- verification -------------------------------------------------------------------------

  lemma StartKeepsSafe(w: World, call: nat, r: Name, id: Name)
    requires Known(w.disk, id) && Safe(w, id)
    ensures Safe(DoVerifyStart(w, call, r), id)
  {
    var m := w.disk.rows[id];
    CallsSafe(w, DoVerifyStart(w, call, r), id, m, Look(w, m), id !in w.interrupted);
  }

  lemma CountSourceKeepsSafe(w: World, call: nat, id: Name)
    requires Known(w.disk, id) && Safe(w, id)
    ensures Safe(DoCountSource(w, call), id)
  {
    var m := w.disk.rows[id];
    CallsSafe(w, DoCountSource(w, call), id, m, Look(w, m), id !in w.interrupted);
  }

  /** Until cutover a safe destination is a sub-map of the source, so equal sizes mean equal contents. */
  lemma SizesDecide(w: World, id: Name, m: Migration, v: View)
    requires Known(w.disk, id) && Safe(w, id) && m == w.disk.rows[id] && v == Look(w, m) && m.phase == Verify
    ensures |v.src| == |v.dst| <==> v.src == v.dst
    ensures id !in w.interrupted ==> v.src == v.dst
  {
    if |v.src| == |v.dst| { SubMapOfEqualSize(v.dst, v.src); }
    if id !in w.interrupted { assert v.dst.Keys == v.src.Keys; }
  }

  lemma NewCheckSafe(w: World, call: nat, check: Check, id: Name, m: Migration, v: View)
    requires Known(w.disk, id) && Safe(w, id) && m == w.disk.rows[id] && v == Look(w, m)
    requires check.id == id && CheckOk(m, v, check)
    ensures Safe(w.(checks := w.checks[call := check]), id)
  {
    CallsSafe(w, w.(checks := w.checks[call := check]), id, m, v, id !in w.interrupted);
  }

  /** A count that does not spoil the migration lets a call through only on equal contents. */
  lemma CountKeepsSafe(w: World, call: nat, id: Name)
    requires Known(w.disk, id) && Safe(w, id) && !Spoils(w, CountDestination(call), id)
    ensures Safe(DoCountDestination(w, call), id)
  {
    var m := w.disk.rows[id];
    var v := Look(w, m);
    if call in w.checks && w.checks[call].Counted? && w.checks[call].id == id && |v.dst| == |w.checks[call].keys| {
      MatchIsSafe(w, call, id, m, v);
      NewCheckSafe(w, call, Matched(id, w.checks[call].checkpoint), id, m, v);
    } else {
      OtherCount(w, call, id, m, v);
    }
  }

  lemma OtherCount(w: World, call: nat, id: Name, m: Migration, v: View)
    requires Known(w.disk, id) && Safe(w, id) && m == w.disk.rows[id] && v == Look(w, m)
    requires call in w.checks && w.checks[call].Counted? && w.checks[call].id == id ==>
               |v.dst| != |w.checks[call].keys|
    ensures Safe(DoCountDestination(w, call), id)
  {
    if call in w.checks && w.checks[call].Counted? && Known(w.disk, w.checks[call].id) {
      var check := w.checks[call];
      var o := w.disk.rows[check.id];
      if CountRange(w.disk, o.destination, o) == |check.keys| {
        ForeignCheckSafe(w, call, Matched(check.id, check.checkpoint), id);
      } else {
        DropKeepsSafe(w, w.(checks := w.checks - {call}), id);
      }
    }
  }

  lemma ForeignCheckSafe(w: World, call: nat, check: Check, id: Name)
    requires Known(w.disk, id) && Safe(w, id) && check.id != id
    ensures Safe(w.(checks := w.checks[call := check]), id)
  {
    var m := w.disk.rows[id];
    CallsSafe(w, w.(checks := w.checks[call := check]), id, m, Look(w, m), id !in w.interrupted);
  }

  lemma MatchIsSafe(w: World, call: nat, id: Name, m: Migration, v: View)
    requires Known(w.disk, id) && Safe(w, id) && m == w.disk.rows[id] && v == Look(w, m)
    requires call in w.checks && w.checks[call].Counted? && w.checks[call].id == id && |v.dst| == |w.checks[call].keys|
    requires !Spoils(w, CountDestination(call), id)
    ensures CheckOk(m, v, Matched(id, w.checks[call].checkpoint))
  {
    assert CheckOk(m, v, w.checks[call]);
    if m.phase == Verify { SizesDecide(w, id, m, v); }
  }

  lemma CommitKeepsSafe(w: World, w': World, call: nat, id: Name)
    requires Known(w.disk, id) && Safe(w, id) && w' == DoCommit(w, call)
    ensures id in w'.disk.rows && Known(w'.disk, id) && Safe(w', id)
  {
    var m, whole := w.disk.rows[id], id !in w.interrupted;
    if call in w.checks && w.checks[call].Matched? && w.checks[call].id == id && m.phase == Verify {
      OwnCommit(w, w', call, id, m, w'.disk.rows[id], Look(w, m), whole);
    } else {
      OtherFinish(w, w', id, m);
    }
  }

  lemma OwnCommit(w: World, w': World, call: nat, id: Name, m: Migration, m': Migration, v: View, whole: bool)
    requires Known(w.disk, id) && Safe(w, id) && m == w.disk.rows[id]
    requires v == Look(w, m) && whole == (id !in w.interrupted)
    requires call in w.checks && w.checks[call].Matched? && w.checks[call].id == id && m.phase == Verify
    requires m' == m.(phase := Cutover, checkpoint := m'.checkpoint)
    requires Known(w'.disk, id) && w'.disk.rows[id] == m' && w'.disk.stores == w.disk.stores && w'.written == w.written
    requires w'.jobs == w.jobs && w'.admins == w.admins && w'.interrupted == w.interrupted
    requires forall c <- w'.checks :: c in w.checks && w.checks[c] == w'.checks[c]
    ensures Safe(w', id)
  {
    assert CheckOk(m, v, w.checks[call]);
    forall j <- w'.jobs | w'.jobs[j].id == id ensures JobOk(m', v, w'.jobs[j], whole) {
      PhaseJobOk(m, m', v, v, w.jobs[j], whole);
    }
    PhaseSafe(w, w', id, m', v, whole);
  }

  // ---- completion and rollback --------------------------------------------------------------

  lemma DeletedView(w: World, n: Name, m: Migration)
    requires n in w.disk.stores && m.source in w.disk.stores && m.destination in w.disk.stores
    requires m.source != m.destination
    ensures var w' := w.(disk := DeleteFrom(w.disk, n, m));
            && SameOutside(w, w', m)
            && (n == m.source ==> Look(w', m) == Look(w, m).(src := map[]))
            && (n == m.destination ==> Look(w', m) == Look(w, m).(dst := map[]))
  {}

  /** A range deleted for another row, which may also move on. */
  lemma OtherDelete(w: World, w': World, r: Name, n: Name, id: Name)
    requires WellFormed(w) && id in w.disk.rows && r in w.disk.rows && r != id && Safe(w, id)
    requires n in w.disk.stores && w'.disk.stores == DeleteFrom(w.disk, n, w.disk.rows[r]).stores
    requires id in w'.disk.rows && w'.disk.rows[id] == w.disk.rows[id]
    requires w'.written == w.written && w'.jobs == w.jobs && w'.checks == w.checks
    requires forall c <- w'.admins :: w'.admins[c].id == id ==> c in w.admins && w.admins[c] == w'.admins[c]
    requires id in w'.interrupted <==> id in w.interrupted
    ensures Known(w'.disk, id) && Safe(w', id)
  {
    var m, own := w.disk.rows[r], w.disk.rows[id];
    assert Known(w.disk, r) && Known(w.disk, id);
    var w1 := w.(disk := DeleteFrom(w.disk, n, m));
    DeletedView(w, n, m);
    OtherRange(w, w1, r, m, id);
    LookSame(w1, w', own, own);
    OtherSafe(w, w', id);
  }

  /** After cutover the source range may go at any time. */
  lemma OwnEmptySource(w: World, w': World, id: Name, m: Migration, v: View, v': View)
    requires Known(w.disk, id) && Safe(w, id) && m == w.disk.rows[id] && v == Look(w, m)
    requires m.phase == Cutover || m.phase == Complete
    requires w' == w.(disk := w'.disk, admins := w'.admins) && w'.disk.rows == w.disk.rows && Known(w'.disk, id)
    requires v' == Look(w', m) && v' == v.(src := map[])
    ensures Safe(w', id)
  {
    var whole := id !in w.interrupted;
    forall j <- w'.jobs | w'.jobs[j].id == id ensures JobOk(m, v', w'.jobs[j], whole) {
      PhaseJobOk(m, m, v, v', w.jobs[j], whole);
    }
  }

  lemma EmptySourceKeepsSafe(w: World, w': World, r: Name, id: Name)
    requires WellFormed(w) && id in w.disk.rows && Safe(w, id) && r in w.disk.rows && w.disk.rows[r].phase == Cutover
    requires w' == w.(disk := EmptySource(w.disk, r))
    ensures Safe(w', id)
  {
    var m := w.disk.rows[r];
    assert Known(w.disk, r);
    if r == id {
      DeletedView(w, m.source, m);
      OwnEmptySource(w, w', id, m, Look(w, m), Look(w', m));
    } else {
      OtherDelete(w, w', r, m.source, id);
    }
  }

  lemma CompleteDeleteKeepsSafe(w: World, w': World, call: nat, id: Name)
    requires WellFormed(w) && id in w.disk.rows && Safe(w, id) && w' == DoCompleteDelete(w, call)
    ensures Known(w'.disk, id) && Safe(w', id)
  {
    assert Known(w.disk, id);
    if call in w.admins && w.admins[call].ToComplete? {
      var r := w.admins[call].id;
      var m := w.disk.rows[r];
      assert Known(w.disk, r);
      if r == id {
        assert AdminOk(m, w.admins[call]);
        SourceEmptied(w, w', call, m);
        OwnEmptySource(w, w', id, m, Look(w, m), Look(w', m));
      } else {
        OtherDelete(w, w', r, m.source, id);
      }
    }
  }

  lemma SourceEmptied(w: World, w': World, call: nat, m: Migration)
    requires call in w.admins && w.admins[call].ToComplete? && Known(w.disk, w.admins[call].id)
    requires m == w.disk.rows[w.admins[call].id] && m.source != m.destination && w' == DoCompleteDelete(w, call)
    ensures Known(w'.disk, w.admins[call].id) && w'.disk.rows == w.disk.rows && Look(w', m) == Look(w, m).(src := map[])
  {
    DeletedView(w, m.source, m);
    LookSame(w.(disk := DeleteFrom(w.disk, m.source, m)), w', m, m);
  }

  /** Marking a row complete. */
  lemma MarkCompleteKeepsSafe(w: World, w': World, r: Name, checkpoint: Key, id: Name)
    requires Known(w.disk, id) && Safe(w, id)
    requires w'.disk == SetPhase(w.disk, r, {Cutover}, Complete, checkpoint)
    requires w' == w.(disk := w'.disk, admins := w'.admins)
    requires forall c <- w'.admins :: c in w.admins && w.admins[c] == w'.admins[c]
    ensures Safe(w', id)
  {
    var m, m', whole := w.disk.rows[id], w'.disk.rows[id], id !in w.interrupted;
    var v := Look(w, m);
    LookSame(w, w', m, m');
    if r == id && m.phase == Cutover {
      forall j <- w'.jobs | w'.jobs[j].id == id ensures JobOk(m', v, w'.jobs[j], whole) {
        PhaseJobOk(m, m', v, v, w.jobs[j], whole);
      }
      PhaseSafe(w, w', id, m', v, whole);
    } else {
      OtherSafe(w, w', id);
    }
  }

  lemma CompleteKeepsSafe(w: World, w': World, r: Name, deleteSource: bool, id: Name)
    requires WellFormed(w) && id in w.disk.rows && Safe(w, id)
    requires w' == w.(disk := CompleteRow(w.disk, r, deleteSource))
    ensures Safe(w', id)
  {
    if r in w.disk.rows && w.disk.rows[r].phase == Cutover {
      var w1 := if deleteSource then w.(disk := EmptySource(w.disk, r)) else w;
      assert Known(w.disk, r);
      EmptySourceKeepsSafe(w, w.(disk := EmptySource(w.disk, r)), r, id);
      MarkCompleteKeepsSafe(w1, w', r, w.disk.rows[r].checkpoint, id);
    }
  }

  lemma CompleteFinishKeepsSafe(w: World, w': World, call: nat, id: Name)
    requires Known(w.disk, id) && Safe(w, id) && w' == DoCompleteFinish(w, call)
    ensures Known(w'.disk, id) && Safe(w', id)
  {
    if call in w.admins && w.admins[call].Completing? {
      MarkCompleteKeepsSafe(w, w', w.admins[call].id, w.admins[call].checkpoint, id);
    }
  }

  lemma CompleteTestKeepsSafe(w: World, call: nat, r: Name, deleteSource: bool, id: Name)
    requires Known(w.disk, id) && Safe(w, id)
    ensures Safe(DoCompleteTest(w, call, r, deleteSource), id)
  {
    var m := w.disk.rows[id];
    CallsSafe(w, DoCompleteTest(w, call, r, deleteSource), id, m, Look(w, m), id !in w.interrupted);
  }

  lemma RollbackTestKeepsSafe(w: World, call: nat, r: Name, id: Name)
    requires Known(w.disk, id) && Safe(w, id)
    ensures Safe(DoRollbackTest(w, call, r), id)
  {
    var m := w.disk.rows[id];
    CallsSafe(w, DoRollbackTest(w, call, r), id, m, Look(w, m), id !in w.interrupted);
  }

  /** A rollback that nothing disturbs ends every claim on the destination. */
  lemma RollbackKeepsSafe(w: World, w': World, r: Name, id: Name)
    requires WellFormed(w) && id in w.disk.rows && Safe(w, id)
    requires w'.disk == RollbackRow(w.disk, r) && w' == w.(disk := w'.disk)
    ensures Known(w'.disk, id) && Safe(w', id)
  {
    assert Known(w.disk, id);
    if r in w.disk.rows && !w.disk.rows[r].phase.Cutover? && !w.disk.rows[r].phase.Complete? {
      assert Known(w.disk, r);
      RollbackRowIs(w.disk, r, w'.disk);
      if r == id {
        OwnRollback(w, w', id, w.disk.rows[id]);
      } else {
        OtherDelete(w, w', r, w.disk.rows[r].destination, id);
      }
    } else {
      RollbackRefused(w.disk, r);
    }
  }

  lemma RollbackRefused(d: Disk, r: Name)
    requires r in d.rows ==> d.rows[r].phase.Cutover? || d.rows[r].phase.Complete?
    ensures RollbackRow(d, r) == d
  {
  }

  lemma RollbackRowIs(d: Disk, r: Name, d': Disk)
    requires Known(d, r) && !d.rows[r].phase.Cutover? && !d.rows[r].phase.Complete? && d' == RollbackRow(d, r)
    ensures d'.rows == d.rows[r := d.rows[r].(phase := RolledBack)]
    ensures d'.stores == DeleteFrom(d, d.rows[r].destination, d.rows[r]).stores
  {
    assert d.rows[r].phase == RolledBack ==> d.rows[r := d.rows[r]] == d.rows;
  }

  lemma OwnRollback(w: World, w': World, id: Name, m: Migration)
    requires Known(w.disk, id) && Safe(w, id) && m == w.disk.rows[id] && m.source != m.destination
    requires !m.phase.Cutover? && !m.phase.Complete?
    requires w' == w.(disk := w'.disk) && w'.disk.rows == w.disk.rows[id := m.(phase := RolledBack)]
    requires w'.disk.stores == DeleteFrom(w.disk, m.destination, m).stores
    ensures Known(w'.disk, id) && Safe(w', id)
  {
    var m' := m.(phase := RolledBack);
    var w1 := w.(disk := DeleteFrom(w.disk, m.destination, m));
    DeletedView(w, m.destination, m);
    LookSame(w1, w', m, m');
    var v, v', whole := Look(w, m), Look(w', m'), id !in w.interrupted;
    forall j <- w'.jobs | w'.jobs[j].id == id ensures JobOk(m', v', w'.jobs[j], whole) {
      PhaseJobOk(m, m', v, v', w.jobs[j], whole);
    }
  }

  /** The last statement of a rollback that was disturbed. */
  lemma RollbackFinishKeepsSafe(w: World, w': World, call: nat, id: Name)
    requires Known(w.disk, id) && Safe(w, id) && w' == DoRollbackFinish(w, call)
    ensures Known(w'.disk, id) && Safe(w', id)
  {
    var m, whole := w.disk.rows[id], id !in w.interrupted;
    if call in w.admins && w.admins[call].RollingBack? && w.admins[call].id == id
       && m.phase in {Planned, DualWrite, Backfill, Verify} {
      OwnRollbackFinish(w, w', id, m, w'.disk.rows[id], Look(w, m), whole);
    } else {
      OtherFinish(w, w', id, m);
    }
  }

  /** A phase changed in another row, or no phase at all. */
  lemma OtherFinish(w: World, w': World, id: Name, m: Migration)
    requires Known(w.disk, id) && Safe(w, id) && m == w.disk.rows[id]
    requires id in w'.disk.rows && w'.disk.rows[id] == m && w'.disk.stores == w.disk.stores && w'.written == w.written
    requires w'.jobs == w.jobs && w'.interrupted == w.interrupted
    requires forall c <- w'.checks :: c in w.checks && w.checks[c] == w'.checks[c]
    requires forall c <- w'.admins :: c in w.admins && w.admins[c] == w'.admins[c]
    ensures Known(w'.disk, id) && Safe(w', id)
  {
    PhaseSafe(w, w', id, m, Look(w, m), id !in w.interrupted);
  }

  lemma OwnRollbackFinish(w: World, w': World, id: Name, m: Migration, m': Migration, v: View, whole: bool)
    requires Known(w.disk, id) && Safe(w, id) && m == w.disk.rows[id]
    requires v == Look(w, m) && whole == (id !in w.interrupted)
    requires m.phase in {Planned, DualWrite, Backfill, Verify}
    requires m' == m.(phase := RolledBack, checkpoint := m'.checkpoint)
    requires Known(w'.disk, id) && w'.disk.rows[id] == m' && w'.disk.stores == w.disk.stores && w'.written == w.written
    requires w'.jobs == w.jobs && w'.checks == w.checks && w'.interrupted == w.interrupted
    requires forall c <- w'.admins :: c in w.admins && w.admins[c] == w'.admins[c]
    ensures Safe(w', id)
  {
    forall j <- w'.jobs | w'.jobs[j].id == id ensures JobOk(m', v, w'.jobs[j], whole) {
      PhaseJobOk(m, m', v, v, w.jobs[j], whole);
    }
    PhaseSafe(w, w', id, m', v, whole);
  }

  lemma EmptiedRowOk(m: Migration, v: View, v': View, whole: bool)
    requires RowOk(m, v, whole) && !m.phase.Cutover? && !m.phase.Complete? && v' == v.(dst := map[])
    ensures RowOk(m, v', false)
  {
  }

  lemma EmptiedJobOk(m: Migration, v: View, v': View, job: Job, whole: bool)
    requires JobOk(m, v, job, whole) && v'.src == v.src
    requires job.Exported? && (m.phase == Backfill || m.phase == Verify) ==>
               forall d <- job.batch.documents :: d.key in v.src && v.src[d.key] == d.data
    requires m.phase != Cutover && m.phase != Complete
    ensures JobOk(m, v', job, false)
  {
    if job.Exported? {
      forall d <- job.batch.documents ensures DocOk(m, v', d) { assert DocOk(m, v, d); }
    }
  }

  /** Documents in flight are current in the view if none is stale. */
  lemma CurrentInView(w: World, id: Name, m: Migration, v: View, j: nat, d: Document)
    requires Known(w.disk, id) && m == w.disk.rows[id] && v == Look(w, m) && !Stale(w, id)
    requires j in w.jobs && w.jobs[j].Exported? && w.jobs[j].id == id && d in w.jobs[j].batch.documents
    requires m.Covers(d.key)
    ensures d.key in v.src && v.src[d.key] == d.data
  {
    assert !StaleIn(w, id, j, d);
  }

  /** The deletion of a rollback, whatever has happened since the rollback looked at the phase. */
  lemma RollbackDeleteKeepsSafe(w: World, w': World, call: nat, id: Name)
    requires WellFormed(w) && id in w.disk.rows && Safe(w, id)
    requires w' == DoRollbackDelete(w, call) && !Spoils(w, RollbackDelete(call), id)
    ensures Known(w'.disk, id) && Safe(w', id)
  {
    assert Known(w.disk, id);
    if call in w.admins && w.admins[call].ToRollBack? {
      var r := w.admins[call].id;
      assert Known(w.disk, r);
      if r == id {
        OwnRollbackDelete(w, w', call, id, w.disk.rows[id]);
      } else {
        OtherRollbackDelete(w, w', call, r, id);
      }
    } else {
      assert w' == w;
    }
  }

  lemma OtherRollbackDelete(w: World, w': World, call: nat, r: Name, id: Name)
    requires WellFormed(w) && id in w.disk.rows && r in w.disk.rows && r != id && Safe(w, id)
    requires call in w.admins && w.admins[call].ToRollBack? && w.admins[call].id == r && w' == DoRollbackDelete(w, call)
    ensures Known(w'.disk, id) && Safe(w', id)
  {
    assert Known(w.disk, r) && Known(w.disk, id);
    OtherDelete(w, w', r, w.disk.rows[r].destination, id);
  }

  lemma OwnRollbackDelete(w: World, w': World, call: nat, id: Name, m: Migration)
    requires CallsKnown(w) && Known(w.disk, id) && Safe(w, id) && m == w.disk.rows[id] && m.source != m.destination
    requires call in w.admins && w.admins[call].ToRollBack? && w.admins[call].id == id
    requires w' == DoRollbackDelete(w, call) && !Spoils(w, RollbackDelete(call), id)
    ensures Known(w'.disk, id) && Safe(w', id)
  {
    assert !EmptyingHurts(w, id);
    EmptiedView(w, w', call, id, m);
    if m.phase.Cutover? || m.phase.Complete? {
      EmptiedNothing(w, w', id, m, Look(w, m));
    } else {
      OwnEmptied(w, w', id, m, Look(w, m), Look(w', m));
    }
  }

  lemma EmptiedView(w: World, w': World, call: nat, id: Name, m: Migration)
    requires call in w.admins && w.admins[call].ToRollBack? && w.admins[call].id == id
    requires Known(w.disk, id) && m == w.disk.rows[id] && w' == DoRollbackDelete(w, call) && m.source != m.destination
    ensures Known(w'.disk, id) && w'.disk.rows == w.disk.rows && Look(w', m) == Look(w, m).(dst := map[])
  {
    DeletedView(w, m.destination, m);
    LookSame(w.(disk := DeleteFrom(w.disk, m.destination, m)), w', m, m);
  }

  /** After cutover the deletion does no harm only if there is nothing to delete. */
  lemma EmptiedNothing(w: World, w': World, id: Name, m: Migration, v: View)
    requires Known(w.disk, id) && Safe(w, id) && m == w.disk.rows[id] && v == Look(w, m)
    requires (m.phase == Cutover || m.phase == Complete) && CountRange(w.disk, m.destination, m) == 0
    requires Known(w'.disk, id) && w'.disk.rows == w.disk.rows && Look(w', m) == v.(dst := map[])
    requires w'.jobs == w.jobs && w'.checks == w.checks
    requires forall c <- w'.admins :: w'.admins[c].id == id ==>
               w'.admins[c].RollingBack? || (c in w.admins && w.admins[c] == w'.admins[c])
    ensures Safe(w', id)
  {
    assert |v.dst| == 0 && v.(dst := map[]) == v;
    forall j <- w'.jobs | w'.jobs[j].id == id ensures JobOk(m, v, w'.jobs[j], id !in w'.interrupted) {
      assert JobOk(m, v, w.jobs[j], id !in w.interrupted);
    }
  }

  lemma EmptiedJob(w: World, id: Name, m: Migration, v: View, v': View, j: nat, whole: bool)
    requires Known(w.disk, id) && m == w.disk.rows[id] && v == Look(w, m) && v' == v.(dst := map[])
    requires !m.phase.Cutover? && !m.phase.Complete? && (Copying(w, id) ==> !Stale(w, id))
    requires j in w.jobs && w.jobs[j].id == id && JobOf(w.disk.rows, w.jobs[j]) && JobOk(m, v, w.jobs[j], whole)
    ensures JobOk(m, v', w.jobs[j], false)
  {
    var job := w.jobs[j];
    if job.Exported? && Copying(w, id) {
      forall d <- job.batch.documents ensures d.key in v.src && v.src[d.key] == d.data {
        CurrentInView(w, id, m, v, j, d);
      }
    }
    EmptiedJobOk(m, v, v', job, whole);
  }

  lemma EmptiedCheck(w: World, id: Name, m: Migration, v: View, v': View, c: nat)
    requires Known(w.disk, id) && m == w.disk.rows[id] && v == Look(w, m) && v' == v.(dst := map[])
    requires m.phase == Verify && Deciding(w, id) ==> CountRange(w.disk, m.source, m) == 0
    requires c in w.checks && w.checks[c].id == id && CheckOk(m, v, w.checks[c])
    ensures CheckOk(m, v', w.checks[c])
  {
    if w.checks[c].Matched? && m.phase == Verify { assert Deciding(w, id) && |v.src| == 0; }
  }

  lemma OwnEmptied(w: World, w': World, id: Name, m: Migration, v: View, v': View)
    requires CallsKnown(w) && Known(w.disk, id) && Safe(w, id) && m == w.disk.rows[id] && v == Look(w, m)
    requires !m.phase.Cutover? && !m.phase.Complete? && !EmptyingHurts(w, id)
    requires Known(w'.disk, id) && w'.disk.rows == w.disk.rows && v' == Look(w', m) && v' == v.(dst := map[])
    requires w'.jobs == w.jobs && w'.checks == w.checks && (Begun(m.phase) ==> id in w'.interrupted)
    requires forall c <- w'.admins :: w'.admins[c].id == id ==>
               w'.admins[c].RollingBack? || (c in w.admins && w.admins[c] == w'.admins[c])
    ensures Safe(w', id)
  {
    var whole := id !in w.interrupted;
    EmptiedRowOk(m, v, v', whole);
    forall j <- w'.jobs | w'.jobs[j].id == id ensures JobOk(m, v', w'.jobs[j], false) {
      assert JobOf(w.disk.rows, w.jobs[j]);
      EmptiedJob(w, id, m, v, v', j, whole);
    }
    forall c <- w'.checks | w'.checks[c].id == id ensures CheckOk(m, v', w'.checks[c]) {
      EmptiedCheck(w, id, m, v, v', c);
    }
  }

  // ---- writes -------------------------------------------------------------------------------

  /** Disjoint ranges leave one row, at most, to route a key. */
  lemma TargetsOfCovered(w: World, id: Name, k: Key)
    requires WellFormed(w) && id in w.disk.rows && w.disk.rows[id].Covers(k)
    ensures Targets(w.disk.rows, k) == w.disk.rows[id].Targets()
  {
    var rows := w.disk.rows;
    forall r <- rows ensures rows[r].Covers(k) ==> r == id {
      assert r != id ==> Disjoint(rows[r], rows[id]);
    }
  }

  lemma UpsertView(w: World, w': World, m: Migration, k: Key, doc: Doc)
    requires m.source in w.disk.stores && m.destination in w.disk.stores && m.Covers(k)
    requires w'.disk.stores == Upsert(w.disk.stores, m.Targets(), k, doc) && w'.written == w.written[k := doc]
    ensures SameOutside(w, w', m) && WrittenView(m, Look(w, m), Look(w', m), k, doc)
  {
    forall n <- w.disk.stores
      ensures (forall o :: !m.Covers(o) ==> SameAt(w.disk.stores[n], w'.disk.stores[n], o))
      ensures Restrict(w'.disk.stores[n], m)
           == (if n in m.Targets() then Restrict(w.disk.stores[n], m)[k := doc] else Restrict(w.disk.stores[n], m))
    {
      RestrictUpdate(w.disk.stores[n], m, k, doc);
    }
    RestrictUpdate(w.written, m, k, doc);
  }

  lemma RestrictUpdate(st: Store, m: Migration, k: Key, doc: Doc)
    requires m.Covers(k)
    ensures Restrict(st[k := doc], m) == Restrict(st, m)[k := doc]
    ensures forall o :: !m.Covers(o) ==> SameAt(st, st[k := doc], o)
  {}

  lemma WriteCheckOk(m: Migration, v: View, v': View, k: Key, doc: Doc, check: Check)
    requires CheckOk(m, v, check) && WrittenView(m, v, v', k, doc) && m.phase != RolledBack && m.source != m.destination
    ensures CheckOk(m, v', check)
  {
  }

  /** A write that row `id` routes. */
  lemma OwnWrite(w: World, w': World, id: Name, k: Key, doc: Doc)
    requires WellFormed(w) && id in w.disk.rows && Safe(w, id)
    requires w.disk.rows[id].Covers(k) && w.disk.rows[id].phase != RolledBack
    requires w'.disk.stores == Upsert(w.disk.stores, w.disk.rows[id].Targets(), k, doc)
    requires w'.written == w.written[k := doc] && w' == w.(disk := w'.disk, written := w'.written)
    requires w'.disk.rows == w.disk.rows
    ensures Safe(w', id)
  {
    var m, whole := w.disk.rows[id], id !in w.interrupted;
    assert Known(w.disk, id);
    UpsertView(w, w', m, k, doc);
    var v, v' := Look(w, m), Look(w', m);
    WriteRowOk(m, v, v', k, doc, whole);
    forall j <- w'.jobs | w'.jobs[j].id == id ensures JobOk(m, v', w'.jobs[j], whole) {
      WriteJobOk(m, v, v', k, doc, w.jobs[j], whole);
    }
    forall c <- w'.checks | w'.checks[c].id == id ensures CheckOk(m, v', w'.checks[c]) {
      WriteCheckOk(m, v, v', k, doc, w.checks[c]);
    }
  }

  lemma WriteKeepsSafe(w: World, w': World, k: Key, doc: Doc, id: Name)
    requires WellFormed(w) && id in w.disk.rows && Safe(w, id) && w' == DoWrite(w, k, doc)
    ensures Safe(w', id)
  {
    var targets := Targets(w.disk.rows, k);
    if targets != {} {
      var n :| n in targets;
      var r :| r in w.disk.rows && w.disk.rows[r].Covers(k) && n in w.disk.rows[r].Targets();
      assert Known(w.disk, r);
      TargetsOfCovered(w, r, k);
      if r == id {
        OwnWrite(w, w', id, k, doc);
      } else {
        OtherWrite(w, w', r, k, doc, id);
      }
    }
  }

  /** A write that another row routes. */
  lemma OtherWrite(w: World, w': World, r: Name, k: Key, doc: Doc, id: Name)
    requires WellFormed(w) && id in w.disk.rows && r in w.disk.rows && r != id && Safe(w, id)
    requires w.disk.rows[r].Covers(k) && w'.disk.stores == Upsert(w.disk.stores, w.disk.rows[r].Targets(), k, doc)
    requires w'.written == w.written[k := doc] && w' == w.(disk := w'.disk, written := w'.written)
    requires w'.disk.rows == w.disk.rows
    ensures Known(w'.disk, id) && Safe(w', id)
  {
    assert Known(w.disk, r) && Known(w.disk, id);
    UpsertView(w, w', w.disk.rows[r], k, doc);
    OtherRange(w, w', r, w.disk.rows[r], id);
    OtherSafe(w, w', id);
  }

  // ---- every step, every run ----------------------------------------------------------------

  // One lemma per kind of step.

  lemma StopIsSafe(w: World, w': World, step: Step, id: Name)
    requires Known(w.disk, id) && Safe(w, id) && w' == Apply(w, step)
    requires step.WorkerCrash? || step.VerifyCrash? || step.AdminCrash?
    ensures Known(w'.disk, id) && Safe(w', id)
  {
    DropKeepsSafe(w, w', id);
  }

  lemma LoadIsSafe(w: World, w': World, step: Step, id: Name)
    requires Known(w.disk, id) && Safe(w, id) && w' == Apply(w, step) && step.Load?
    ensures Known(w'.disk, id) && Safe(w', id)
  {
    LoadKeepsSafe(w, step.worker, step.id, id);
  }

  lemma ExportIsSafe(w: World, w': World, step: Step, id: Name)
    requires Known(w.disk, id) && Safe(w, id) && w' == Apply(w, step) && step.Export?
    ensures Known(w'.disk, id) && Safe(w', id)
  {
    ExportKeepsSafe(w, step.worker, step.limit, id);
  }

  lemma ImportIsSafe(w: World, w': World, step: Step, id: Name)
    requires WellFormed(w) && id in w.disk.rows && Safe(w, id) && w' == Apply(w, step) && step.Import?
    ensures Known(w'.disk, id) && Safe(w', id)
  {
    ImportKeepsSafe(w, w', step.worker, id);
  }

  lemma SaveIsSafe(w: World, w': World, step: Step, id: Name)
    requires Known(w.disk, id) && Safe(w, id) && w' == Apply(w, step) && step.Save?
    ensures Known(w'.disk, id) && Safe(w', id)
  {
    SaveKeepsSafe(w, w', step.worker, id);
  }

  lemma StartIsSafe(w: World, w': World, step: Step, id: Name)
    requires Known(w.disk, id) && Safe(w, id) && w' == Apply(w, step) && step.VerifyStart?
    ensures Known(w'.disk, id) && Safe(w', id)
  {
    StartKeepsSafe(w, step.call, step.id, id);
  }

  lemma CountSourceIsSafe(w: World, w': World, step: Step, id: Name)
    requires Known(w.disk, id) && Safe(w, id) && w' == Apply(w, step) && step.CountSource?
    ensures Known(w'.disk, id) && Safe(w', id)
  {
    CountSourceKeepsSafe(w, step.call, id);
  }

  lemma CountIsSafe(w: World, w': World, step: Step, id: Name)
    requires Known(w.disk, id) && Safe(w, id) && w' == Apply(w, step) && step.CountDestination? && !Spoils(w, step, id)
    ensures Known(w'.disk, id) && Safe(w', id)
  {
    CountKeepsSafe(w, step.call, id);
  }

  lemma CommitIsSafe(w: World, w': World, step: Step, id: Name)
    requires Known(w.disk, id) && Safe(w, id) && w' == Apply(w, step) && step.Commit?
    ensures Known(w'.disk, id) && Safe(w', id)
  {
    CommitKeepsSafe(w, w', step.call, id);
  }

  lemma DualWriteIsSafe(w: World, w': World, step: Step, id: Name)
    requires Known(w.disk, id) && Safe(w, id) && w' == Apply(w, step) && step.EnableDualWrite?
    ensures Known(w'.disk, id) && Safe(w', id)
  {
    AdvanceKeepsSafe(w, w', step.id, Planned, DualWrite, id);
  }

  lemma BackfillIsSafe(w: World, w': World, step: Step, id: Name)
    requires Known(w.disk, id) && Safe(w, id) && w' == Apply(w, step) && step.BeginBackfill?
    ensures Known(w'.disk, id) && Safe(w', id)
  {
    AdvanceKeepsSafe(w, w', step.id, DualWrite, Backfill, id);
  }

  lemma CompleteIsSafe(w: World, w': World, step: Step, id: Name)
    requires WellFormed(w) && id in w.disk.rows && Safe(w, id) && w' == Apply(w, step) && step.CompleteIt?
    ensures Known(w'.disk, id) && Safe(w', id)
  {
    CompleteKeepsSafe(w, w', step.id, step.deleteSource, id);
  }

  lemma CompleteTestIsSafe(w: World, w': World, step: Step, id: Name)
    requires Known(w.disk, id) && Safe(w, id) && w' == Apply(w, step) && step.CompleteTest?
    ensures Known(w'.disk, id) && Safe(w', id)
  {
    CompleteTestKeepsSafe(w, step.call, step.id, step.deleteSource, id);
  }

  lemma CompleteDeleteIsSafe(w: World, w': World, step: Step, id: Name)
    requires WellFormed(w) && id in w.disk.rows && Safe(w, id) && w' == Apply(w, step) && step.CompleteDelete?
    ensures Known(w'.disk, id) && Safe(w', id)
  {
    CompleteDeleteKeepsSafe(w, w', step.call, id);
  }

  lemma CompleteFinishIsSafe(w: World, w': World, step: Step, id: Name)
    requires Known(w.disk, id) && Safe(w, id) && w' == Apply(w, step) && step.CompleteFinish?
    ensures Known(w'.disk, id) && Safe(w', id)
  {
    CompleteFinishKeepsSafe(w, w', step.call, id);
  }

  lemma RollbackIsSafe(w: World, w': World, step: Step, id: Name)
    requires WellFormed(w) && id in w.disk.rows && Safe(w, id) && w' == Apply(w, step) && step.Rollback?
    ensures Known(w'.disk, id) && Safe(w', id)
  {
    RollbackKeepsSafe(w, w', step.id, id);
  }

  lemma RollbackTestIsSafe(w: World, w': World, step: Step, id: Name)
    requires Known(w.disk, id) && Safe(w, id) && w' == Apply(w, step) && step.RollbackTest?
    ensures Known(w'.disk, id) && Safe(w', id)
  {
    RollbackTestKeepsSafe(w, step.call, step.id, id);
  }

  lemma RollbackDeleteIsSafe(w: World, w': World, step: Step, id: Name)
    requires WellFormed(w) && id in w.disk.rows && Safe(w, id)
    requires w' == Apply(w, step) && step.RollbackDelete? && !Spoils(w, step, id)
    ensures Known(w'.disk, id) && Safe(w', id)
  {
    RollbackDeleteKeepsSafe(w, w', step.call, id);
  }

  lemma RollbackFinishIsSafe(w: World, w': World, step: Step, id: Name)
    requires Known(w.disk, id) && Safe(w, id) && w' == Apply(w, step) && step.RollbackFinish?
    ensures Known(w'.disk, id) && Safe(w', id)
  {
    RollbackFinishKeepsSafe(w, w', step.call, id);
  }

  lemma WriteIsSafe(w: World, w': World, step: Step, id: Name)
    requires WellFormed(w) && id in w.disk.rows && Safe(w, id) && w' == Apply(w, step) && step.Write?
    ensures Known(w'.disk, id) && Safe(w', id)
  {
    WriteKeepsSafe(w, w', step.key, step.doc, id);
  }

  lemma WorkerStepIsSafe(w: World, w': World, step: Step, id: Name)
    requires WellFormed(w) && id in w.disk.rows && Safe(w, id) && w' == Apply(w, step) && !Spoils(w, step, id)
    requires step.Load? || step.Export? || step.Import? || step.Save?
    ensures Known(w'.disk, id) && Safe(w', id)
  {
    assert Known(w.disk, id);
    if step.Load? {
      LoadIsSafe(w, w', step, id);
    } else if step.Export? {
      ExportIsSafe(w, w', step, id);
    } else if step.Import? {
      ImportIsSafe(w, w', step, id);
    } else {
      SaveIsSafe(w, w', step, id);
    }
  }

  lemma VerifyStepIsSafe(w: World, w': World, step: Step, id: Name)
    requires WellFormed(w) && id in w.disk.rows && Safe(w, id) && w' == Apply(w, step) && !Spoils(w, step, id)
    requires step.VerifyStart? || step.CountSource? || step.CountDestination? || step.Commit?
    ensures Known(w'.disk, id) && Safe(w', id)
  {
    assert Known(w.disk, id);
    if step.VerifyStart? {
      StartIsSafe(w, w', step, id);
    } else if step.CountSource? {
      CountSourceIsSafe(w, w', step, id);
    } else if step.CountDestination? {
      CountIsSafe(w, w', step, id);
    } else {
      CommitIsSafe(w, w', step, id);
    }
  }

  lemma CompleteStepIsSafe(w: World, w': World, step: Step, id: Name)
    requires WellFormed(w) && id in w.disk.rows && Safe(w, id) && w' == Apply(w, step) && !Spoils(w, step, id)
    requires step.CompleteIt? || step.CompleteTest? || step.CompleteDelete? || step.CompleteFinish?
    ensures Known(w'.disk, id) && Safe(w', id)
  {
    assert Known(w.disk, id);
    if step.CompleteIt? {
      CompleteIsSafe(w, w', step, id);
    } else if step.CompleteTest? {
      CompleteTestIsSafe(w, w', step, id);
    } else if step.CompleteDelete? {
      CompleteDeleteIsSafe(w, w', step, id);
    } else {
      CompleteFinishIsSafe(w, w', step, id);
    }
  }

  lemma RollbackStepIsSafe(w: World, w': World, step: Step, id: Name)
    requires WellFormed(w) && id in w.disk.rows && Safe(w, id) && w' == Apply(w, step) && !Spoils(w, step, id)
    requires step.Rollback? || step.RollbackTest? || step.RollbackDelete? || step.RollbackFinish?
    ensures Known(w'.disk, id) && Safe(w', id)
  {
    assert Known(w.disk, id);
    if step.Rollback? {
      RollbackIsSafe(w, w', step, id);
    } else if step.RollbackTest? {
      RollbackTestIsSafe(w, w', step, id);
    } else if step.RollbackDelete? {
      RollbackDeleteIsSafe(w, w', step, id);
    } else {
      RollbackFinishIsSafe(w, w', step, id);
    }
  }

  lemma StepKeepsSafe(w: World, w': World, step: Step, id: Name)
    requires WellFormed(w) && id in w.disk.rows && Safe(w, id) && !step.Create?
    requires w' == Apply(w, step) && !Spoils(w, step, id)
    ensures Known(w'.disk, id) && Safe(w', id)
  {
    assert Known(w.disk, id);
    if step.Load? || step.Export? || step.Import? || step.Save? {
      WorkerStepIsSafe(w, w', step, id);
    } else if step.VerifyStart? || step.CountSource? || step.CountDestination? || step.Commit? {
      VerifyStepIsSafe(w, w', step, id);
    } else if step.CompleteIt? || step.CompleteTest? || step.CompleteDelete? || step.CompleteFinish? {
      CompleteStepIsSafe(w, w', step, id);
    } else if step.Rollback? || step.RollbackTest? || step.RollbackDelete? || step.RollbackFinish? {
      RollbackStepIsSafe(w, w', step, id);
    } else if step.EnableDualWrite? {
      DualWriteIsSafe(w, w', step, id);
    } else if step.BeginBackfill? {
      BackfillIsSafe(w, w', step, id);
    } else if step.Write? {
      WriteIsSafe(w, w', step, id);
    } else {
      StopIsSafe(w, w', step, id);
    }
  }

  /** Every admissible step that does not spoil a migration keeps its invariant. */
  lemma StepKeepsInv(w: World, step: Step, id: Name)
    requires Inv(w, id) && Admissible(w, step) && !Spoils(w, step, id)
    ensures Inv(Apply(w, step), id)
  {
    if step.Create? {
      CreateKeepsInv(w, step.id, step.m, id);
    } else {
      StepKeepsRows(w, step);
      KeptIsWellFormed(w, Apply(w, step));
      if id in w.disk.rows { StepKeepsSafe(w, Apply(w, step), step, id); }
    }
  }

  lemma {:induction false} RunKeepsInv(w: World, steps: seq<Step>, id: Name)
    requires Inv(w, id) && CarefulRun(w, steps, id)
    ensures Inv(Run(w, steps), id)
    decreases |steps|
  {
    if steps != [] {
      StepKeepsInv(w, steps[0], id);
      RunKeepsInv(Apply(w, steps[0]), steps[1..], id);
    }
  }

  lemma SafeMeansAuthority(w: World, id: Name)
    requires Known(w.disk, id) && Safe(w, id)
    ensures AuthorityOk(w, id)
  {
  }
}
