/** What a rollback leaves behind: when the two backends of a rolled-back row stay as they are in every run. */
module RolledBackRow {
  import opened KeyOrder
  import opened ShardMigration
  import opened ShardSafety
  import opened ShardAuthority
  import Race = RollbackRace

  /** A rolled-back row whose destination has no key of the range. */
  ghost predicate RolledOut(w: World, id: Name) {
    && Known(w.disk, id) && w.disk.rows[id].phase == RolledBack
    && forall k <- w.disk.stores[w.disk.rows[id].destination] :: !w.disk.rows[id].Covers(k)
  }

  /** The row is the same, the destination still has no key of its range, and the source is the same there. */
  ghost predicate Untouched(w: World, e: World, id: Name)
    requires Known(w.disk, id)
  {
    var m := w.disk.rows[id];
    && Known(e.disk, id) && e.disk.rows[id] == m
    && forall k :: !Less(k, m.start) && Less(k, m.end) ==>
         && k !in e.disk.stores[m.destination]
         && SameAt(w.disk.stores[m.source], e.disk.stores[m.source], k)
  }

  /** A worker that has nothing left to copy: it holds no document, and it would find none. */
  ghost predicate Idle(m: Migration, src: Store, job: Job) {
    && (job.Loaded? ==> forall k <- src :: m.Covers(k) ==> job.checkpoint != [] && !Less(job.checkpoint, k))
    && (job.Exported? ==> job.batch.documents == [])
  }

  /** No worker of the row has anything to copy, and no completion of it is about to delete a document. */
  ghost predicate Quiet(w: World, id: Name)
    requires Known(w.disk, id)
  {
    var m := w.disk.rows[id];
    var src := w.disk.stores[m.source];
    && (forall j <- w.jobs :: w.jobs[j].id == id ==> Idle(m, src, w.jobs[j]))
    && (forall c <- w.admins :: w.admins[c].ToComplete? && w.admins[c].id == id ==> forall k <- src :: !m.Covers(k))
  }

  // ---- a quiet row stays as it is -----------------------------------------------------------

  /** The same on the row's view of the backends. */
  ghost predicate Asleep(w: World, id: Name, m: Migration, src: Store) {
    && WellFormed(w) && id in w.disk.rows && w.disk.rows[id] == m && m.phase == RolledBack
    && Known(w.disk, id) && Look(w, m).src == src && Look(w, m).dst == map[]
    && (forall j <- w.jobs :: w.jobs[j].id == id ==> Idle(m, src, w.jobs[j]))
    && (forall c <- w.admins :: w.admins[c].ToComplete? && w.admins[c].id == id ==> src == map[])
  }

  lemma IdleInRange(m: Migration, st: Store, job: Job)
    ensures Idle(m, st, job) <==> Idle(m, Restrict(st, m), job)
  {
    var src := Restrict(st, m);
    forall k ensures k in src <==> k in st && m.Covers(k) {}
  }

  lemma QuietSleeps(w: World, id: Name, m: Migration)
    requires WellFormed(w) && RolledOut(w, id) && m == w.disk.rows[id]
    ensures Quiet(w, id) <==> Asleep(w, id, m, Look(w, m).src)
  {
    var st := w.disk.stores[m.source];
    var src := Restrict(st, m);
    assert Look(w, m).dst == map[];
    forall j <- w.jobs ensures Idle(m, st, w.jobs[j]) <==> Idle(m, src, w.jobs[j]) { IdleInRange(m, st, w.jobs[j]); }
    assert (forall k <- st :: !m.Covers(k)) <==> src == map[] by {
      forall k <- st ensures m.Covers(k) ==> k in src {}
    }
  }

  /** A rolled-back row is never updated again. */
  lemma RolledBackIsFinal(w: World, step: Step, id: Name)
    requires id in w.disk.rows && w.disk.rows[id].phase == RolledBack
    ensures id in Apply(w, step).disk.rows && Apply(w, step).disk.rows[id] == w.disk.rows[id]
  {
    match step
    case Create(r, m) =>
    case EnableDualWrite(r) =>
    case BeginBackfill(r) =>
    case Save(worker) =>
    case Commit(call) =>
    case CompleteIt(r, deleteSource) =>
    case CompleteFinish(call) =>
    case Rollback(r) =>
    case RollbackFinish(call) =>
    case _ => RowsUntouched(w, step);
  }

  /** A step that only the row's own calls could make harmful, and does not. */
  lemma SleepsOn(w: World, w': World, id: Name, m: Migration, src: Store)
    requires Asleep(w, id, m, src) && WellFormed(w') && id in w'.disk.rows && w'.disk.rows[id] == m
    requires w'.disk.stores.Keys == w.disk.stores.Keys && Look(w', m).src == src && Look(w', m).dst == map[]
    requires NoNewWork(w, w', id, m, src)
    ensures Asleep(w', id, m, src)
  {
  }

  /** The calls that a step may have started for the row have nothing to copy and nothing to delete. */
  ghost predicate NoNewWork(w: World, w': World, id: Name, m: Migration, src: Store) {
    && (forall j <- w'.jobs :: w'.jobs[j].id == id ==>
          (j in w.jobs && w.jobs[j] == w'.jobs[j]) || Idle(m, src, w'.jobs[j]))
    && (forall c <- w'.admins :: w'.admins[c].ToComplete? && w'.admins[c].id == id ==>
          c in w.admins && w.admins[c] == w'.admins[c])
  }

  lemma NothingExported(w: World, worker: nat, limit: int, id: Name, m: Migration, src: Store)
    requires Asleep(w, id, m, src)
    ensures NoNewWork(w, DoExport(w, worker, limit), id, m, src)
  {
    if worker in w.jobs && w.jobs[worker].Loaded? && w.jobs[worker].id == id {
      var st, job := w.disk.stores[m.source], w.jobs[worker];
      assert Idle(m, src, job);
      NothingToExport(st, m, job, Limit(limit));
      var batch := ExportBatch(st, m, job.checkpoint, Limit(limit));
      NewJobIsIdle(w, worker, Exported(id, job.checkpoint, batch), id, m, src);
    }
  }

  lemma NewJobIsIdle(w: World, worker: nat, job: Job, id: Name, m: Migration, src: Store)
    requires Idle(m, src, job)
    ensures NoNewWork(w, w.(jobs := w.jobs[worker := job]), id, m, src)
  {
  }

  lemma NothingToExport(st: Store, m: Migration, job: Job, limit: nat)
    requires job.Loaded? && Idle(m, Restrict(st, m), job)
    ensures ExportBatch(st, m, job.checkpoint, limit).documents == []
  {
    IdleInRange(m, st, job);
    assert Eligible(st, m, job.checkpoint) == {};
  }

  /** The other steps start no worker with documents and no completion. */
  lemma NoWorkerStarted(w: World, w': World, step: Step, id: Name)
    requires id in w.disk.rows && w.disk.rows[id].phase == RolledBack && w' == Apply(w, step) && !step.Export?
    ensures forall j <- w'.jobs :: w'.jobs[j].id == id ==>
              (j in w.jobs && w.jobs[j] == w'.jobs[j]) || w'.jobs[j].Imported?
  {
  }

  lemma NoCompletionStarted(w: World, w': World, step: Step)
    requires w' == Apply(w, step) && !step.CompleteTest?
    ensures forall c <- w'.admins :: w'.admins[c].ToComplete? ==> c in w.admins && w.admins[c] == w'.admins[c]
  {
  }

  lemma NoCompletion(w: World, call: nat, r: Name, deleteSource: bool, id: Name, m: Migration, src: Store)
    requires Asleep(w, id, m, src)
    ensures NoNewWork(w, DoCompleteTest(w, call, r, deleteSource), id, m, src)
  {
  }

  lemma StepStartsNothing(w: World, step: Step, id: Name, m: Migration, src: Store)
    requires Asleep(w, id, m, src)
    ensures NoNewWork(w, Apply(w, step), id, m, src)
  {
    match step
    case Export(worker, limit) => NothingExported(w, worker, limit, id, m, src);
    case CompleteTest(call, r, deleteSource) => NoCompletion(w, call, r, deleteSource, id, m, src);
    case _ => OthersStartNothing(w, Apply(w, step), step, id, m, src);
  }

  lemma OthersStartNothing(w: World, w': World, step: Step, id: Name, m: Migration, src: Store)
    requires Asleep(w, id, m, src) && w' == Apply(w, step) && !step.Export? && !step.CompleteTest?
    ensures NoNewWork(w, w', id, m, src)
  {
    NoWorkerStarted(w, w', step, id);
    NoCompletionStarted(w, w', step);
  }

  /** The steps that write to a backend leave the row's range of both backends alone. */
  lemma ImportLeaves(w: World, w': World, worker: nat, id: Name, m: Migration, src: Store)
    requires Asleep(w, id, m, src) && w' == DoImport(w, worker)
    ensures w'.disk.stores.Keys == w.disk.stores.Keys && Look(w', m).src == src && Look(w', m).dst == map[]
  {
    if worker in w.jobs && w.jobs[worker].Exported? {
      var job := w.jobs[worker];
      assert JobOf(w.disk.rows, job) && Known(w.disk, job.id);
      if job.id == id {
        assert Idle(m, src, job);
      } else {
        ImportIntoView(w, job.id, job.batch.documents);
        OtherRange(w, w', job.id, w.disk.rows[job.id], id);
      }
    }
  }

  lemma DeleteLeaves(w: World, w': World, r: Name, n: Name, id: Name, m: Migration, src: Store)
    requires Asleep(w, id, m, src) && r in w.disk.rows && n in w.disk.stores
    requires w'.disk.stores == DeleteFrom(w.disk, n, w.disk.rows[r]).stores && w'.written == w.written
    requires r == id ==> n == m.destination || (n == m.source && src == map[])
    ensures w'.disk.stores.Keys == w.disk.stores.Keys && Look(w', m).src == src && Look(w', m).dst == map[]
  {
    assert Known(w.disk, r);
    var w1 := w.(disk := DeleteFrom(w.disk, n, w.disk.rows[r]));
    DeletedView(w, n, w.disk.rows[r]);
    if r != id { OtherRange(w, w1, r, w.disk.rows[r], id); }
    LookSame(w1, w', m, m);
  }

  lemma CompleteDeleteLeaves(w: World, w': World, call: nat, id: Name, m: Migration, src: Store)
    requires Asleep(w, id, m, src) && w' == DoCompleteDelete(w, call)
    ensures w'.disk.stores.Keys == w.disk.stores.Keys && Look(w', m).src == src && Look(w', m).dst == map[]
  {
    if call in w.admins && w.admins[call].ToComplete? {
      var r := w.admins[call].id;
      assert Known(w.disk, r);
      DeleteLeaves(w, w', r, w.disk.rows[r].source, id, m, src);
    }
  }

  lemma RollbackDeleteLeaves(w: World, w': World, call: nat, id: Name, m: Migration, src: Store)
    requires Asleep(w, id, m, src) && w' == DoRollbackDelete(w, call)
    ensures w'.disk.stores.Keys == w.disk.stores.Keys && Look(w', m).src == src && Look(w', m).dst == map[]
  {
    if call in w.admins && w.admins[call].ToRollBack? {
      var r := w.admins[call].id;
      assert Known(w.disk, r);
      DeleteLeaves(w, w', r, w.disk.rows[r].destination, id, m, src);
    }
  }

  lemma RollbackLeaves(w: World, w': World, r: Name, id: Name, m: Migration, src: Store)
    requires Asleep(w, id, m, src) && w'.disk == RollbackRow(w.disk, r) && w'.written == w.written
    ensures w'.disk.stores.Keys == w.disk.stores.Keys && Look(w', m).src == src && Look(w', m).dst == map[]
  {
    if r in w.disk.rows && !w.disk.rows[r].phase.Cutover? && !w.disk.rows[r].phase.Complete? {
      assert Known(w.disk, r);
      RollbackRowIs(w.disk, r, w'.disk);
      DeleteLeaves(w, w', r, w.disk.rows[r].destination, id, m, src);
    } else {
      RollbackRefused(w.disk, r);
    }
  }

  lemma CompleteLeaves(w: World, w': World, r: Name, deleteSource: bool, id: Name, m: Migration, src: Store)
    requires Asleep(w, id, m, src) && w'.disk == CompleteRow(w.disk, r, deleteSource) && w'.written == w.written
    ensures w'.disk.stores.Keys == w.disk.stores.Keys && Look(w', m).src == src && Look(w', m).dst == map[]
  {
    if r in w.disk.rows && w.disk.rows[r].phase == Cutover && deleteSource {
      assert Known(w.disk, r);
      DeleteLeaves(w, w', r, w.disk.rows[r].source, id, m, src);
    }
  }

  /** A write to a key of the range is routed nowhere, and one to another key changes nothing there. */
  lemma WriteLeaves(w: World, w': World, key: Key, doc: Doc, id: Name, m: Migration, src: Store)
    requires Asleep(w, id, m, src) && w' == DoWrite(w, key, doc)
    ensures w'.disk.stores.Keys == w.disk.stores.Keys && Look(w', m).src == src && Look(w', m).dst == map[]
  {
    if m.Covers(key) {
      RoutedNowhere(w, key, doc, id);
    } else {
      UpsertElsewhere(w.disk.stores, Targets(w.disk.rows, key), key, doc, m, m.source);
      UpsertElsewhere(w.disk.stores, Targets(w.disk.rows, key), key, doc, m, m.destination);
    }
  }

  lemma RoutedNowhere(w: World, key: Key, doc: Doc, id: Name)
    requires WellFormed(w) && id in w.disk.rows && w.disk.rows[id].phase == RolledBack && w.disk.rows[id].Covers(key)
    ensures DoWrite(w, key, doc) == w
  {
    TargetsOfCovered(w, id, key);
  }

  lemma UpsertElsewhere(stores: map<Name, Store>, targets: set<Name>, key: Key, doc: Doc, m: Migration, n: Name)
    requires n in stores && !m.Covers(key)
    ensures Restrict(Upsert(stores, targets, key, doc)[n], m) == Restrict(stores[n], m)
  {
    RestrictCongruent(Upsert(stores, targets, key, doc)[n], stores[n], m);
  }

  lemma StoresUntouched(w: World, step: Step)
    requires !step.Import? && !step.CompleteIt? && !step.CompleteDelete? && !step.Rollback? && !step.RollbackDelete?
             && !step.Write?
    ensures Apply(w, step).disk.stores == w.disk.stores
  {
  }

  lemma StepLeaves(w: World, w': World, step: Step, id: Name, m: Migration, src: Store)
    requires Asleep(w, id, m, src) && w' == Apply(w, step)
    ensures w'.disk.stores.Keys == w.disk.stores.Keys && Look(w', m).src == src && Look(w', m).dst == map[]
  {
    match step
    case Import(worker) => ImportLeaves(w, w', worker, id, m, src);
    case CompleteIt(r, deleteSource) => CompleteLeaves(w, w', r, deleteSource, id, m, src);
    case CompleteDelete(call) => CompleteDeleteLeaves(w, w', call, id, m, src);
    case Rollback(r) => RollbackLeaves(w, w', r, id, m, src);
    case RollbackDelete(call) => RollbackDeleteLeaves(w, w', call, id, m, src);
    case Write(key, doc) => WriteLeaves(w, w', key, doc, id, m, src);
    case _ => StoresUntouched(w, step);
  }

  lemma CreateKeepsWellFormed(w: World, r: Name, m: Migration)
    requires WellFormed(w) && Admissible(w, Create(r, m))
    ensures WellFormed(DoCreate(w, r, m))
  {
    var w' := DoCreate(w, r, m);
    if w' != w {
      var m' := m.(phase := Planned, checkpoint := []);
      CoversSame(m, m');
      assert forall o <- w.disk.rows :: Disjoint(w.disk.rows[o], m') && Disjoint(m', w.disk.rows[o]);
      NewRowKeepsWellFormed(w, w', r, m');
    }
  }

  lemma StepKeepsAsleep(w: World, w': World, step: Step, id: Name, m: Migration, src: Store)
    requires Asleep(w, id, m, src) && Admissible(w, step) && w' == Apply(w, step)
    ensures Asleep(w', id, m, src)
  {
    if step.Create? {
      CreateKeepsWellFormed(w, step.id, step.m);
    } else {
      StepKeepsRows(w, step);
      KeptIsWellFormed(w, w');
    }
    RolledBackIsFinal(w, step, id);
    StepLeaves(w, w', step, id, m, src);
    StepStartsNothing(w, step, id, m, src);
    SleepsOn(w, w', id, m, src);
  }

  lemma {:induction false} RunKeepsAsleep(w: World, steps: seq<Step>, id: Name, m: Migration, src: Store)
    requires Asleep(w, id, m, src) && AdmissibleRun(w, steps)
    ensures Asleep(Run(w, steps), id, m, src)
    decreases |steps|
  {
    if steps != [] {
      StepKeepsAsleep(w, Apply(w, steps[0]), steps[0], id, m, src);
      RunKeepsAsleep(Apply(w, steps[0]), steps[1..], id, m, src);
    }
  }

  lemma AsleepMeansUntouched(w: World, e: World, id: Name, m: Migration)
    requires RolledOut(w, id) && m == w.disk.rows[id] && Asleep(e, id, m, Look(w, m).src)
    ensures Untouched(w, e, id)
  {
    var a, b, d := w.disk.stores[m.source], e.disk.stores[m.source], e.disk.stores[m.destination];
    forall k | m.Covers(k) ensures k !in d && SameAt(a, b, k) {
      InRange(a, m, k);
      InRange(b, m, k);
      InRange(d, m, k);
    }
  }

  lemma InRange(st: Store, m: Migration, k: Key)
    requires m.Covers(k)
    ensures SameAt(st, Restrict(st, m), k)
  {
  }

  /** No run, whatever it writes, copies, deletes or creates elsewhere, touches a quiet rolled-back row. */
  lemma QuietStaysUntouched(w: World, steps: seq<Step>, id: Name)
    requires WellFormed(w) && RolledOut(w, id) && Quiet(w, id) && AdmissibleRun(w, steps)
    ensures Untouched(w, Run(w, steps), id)
  {
    var m := w.disk.rows[id];
    QuietSleeps(w, id, m);
    RunKeepsAsleep(w, steps, id, m, Look(w, m).src);
    AsleepMeansUntouched(w, Run(w, steps), id, m);
  }

  // ---- a row that is not quiet is touched ---------------------------------------------------

  /** Some run puts a key of the range into the destination, changes the source there, or changes the row. */
  ghost predicate CanTouch(w: World, id: Name)
    requires Known(w.disk, id)
  {
    exists steps :: AdmissibleRun(w, steps) && !Untouched(w, Run(w, steps), id)
  }

  lemma OneStep(w: World, step: Step)
    requires Admissible(w, step)
    ensures AdmissibleRun(w, [step]) && Run(w, [step]) == Apply(w, step)
  {
    assert [step][1..] == [];
    assert AdmissibleRun(Apply(w, step), []) && Run(Apply(w, step), []) == Apply(w, step);
  }

  lemma TwoSteps(w: World, a: Step, b: Step)
    requires Admissible(w, a) && Admissible(Apply(w, a), b)
    ensures AdmissibleRun(w, [a, b]) && Run(w, [a, b]) == Apply(Apply(w, a), b)
  {
    assert [a, b][1..] == [b];
    OneStep(Apply(w, a), b);
  }

  /** A batch exported before the rollback still reaches the destination. */
  lemma ExportedTouches(w: World, w': World, id: Name, j: nat, m: Migration)
    requires WellFormed(w) && RolledOut(w, id) && m == w.disk.rows[id] && w' == Apply(w, Import(j))
    requires j in w.jobs && w.jobs[j].id == id && w.jobs[j].Exported? && w.jobs[j].batch.documents != []
    ensures !Untouched(w, w', id)
  {
    var docs := w.jobs[j].batch.documents;
    assert JobOf(w.disk.rows, w.jobs[j]) && docs[0] in docs;
    Reached(w.disk.stores[m.destination], docs);
    assert m.Covers(docs[0].key) && docs[0].key in w'.disk.stores[m.destination];
  }

  lemma Reached(st: Store, docs: seq<Document>)
    requires docs != []
    ensures docs[0].key in ImportDocs(st, docs)
  {
    assert docs[0] in docs;
  }

  /** So does what a worker that was loaded before the rollback exports after it. */
  lemma LoadedTouches(w: World, w1: World, w2: World, id: Name, j: nat, m: Migration)
    requires WellFormed(w) && RolledOut(w, id) && m == w.disk.rows[id]
    requires j in w.jobs && w.jobs[j].id == id && w.jobs[j].Loaded?
    requires !Idle(m, w.disk.stores[m.source], w.jobs[j])
    requires w1 == Apply(w, Export(j, 1)) && w2 == Apply(w1, Import(j))
    ensures !Untouched(w, w2, id)
  {
    SomethingToExport(w.disk.stores[m.source], m, w.jobs[j]);
    ExportKeepsRows(w, j, 1);
    KeptIsWellFormed(w, w1);
    ExportedTouches(w1, w2, id, j, m);
    SameDisk(w, w1, w2, id);
  }

  lemma SameDisk(w: World, w1: World, e: World, id: Name)
    requires Known(w.disk, id) && w1.disk == w.disk
    ensures Untouched(w1, e, id) == Untouched(w, e, id)
  {
  }

  lemma SomethingToExport(st: Store, m: Migration, job: Job)
    requires job.Loaded? && !Idle(m, st, job)
    ensures ExportBatch(st, m, job.checkpoint, Limit(1)).documents != []
  {
    var k :| k in st && m.Covers(k) && (job.checkpoint == [] || Less(job.checkpoint, k));
    assert k in Eligible(st, m, job.checkpoint);
  }

  lemma CompletionTouches(w: World, w': World, id: Name, c: nat, m: Migration, k: Key)
    requires RolledOut(w, id) && c in w.admins && w.admins[c].ToComplete? && w.admins[c].id == id
    requires m == w.disk.rows[id] && k in w.disk.stores[m.source] && m.Covers(k)
    requires w' == Apply(w, CompleteDelete(c))
    ensures !Untouched(w, w', id)
  {
    assert w'.disk.stores[m.source] == WithoutRange(w.disk.stores[m.source], m);
    assert !SameAt(w.disk.stores[m.source], w'.disk.stores[m.source], k);
  }

  lemma TouchedByOne(w: World, step: Step, id: Name)
    requires Known(w.disk, id) && Admissible(w, step) && !Untouched(w, Apply(w, step), id)
    ensures CanTouch(w, id)
  {
    OneStep(w, step);
  }

  lemma TouchedByTwo(w: World, w1: World, a: Step, b: Step, id: Name)
    requires Known(w.disk, id) && Admissible(w, a) && w1 == Apply(w, a) && Admissible(w1, b)
    requires !Untouched(w, Apply(w1, b), id)
    ensures CanTouch(w, id)
  {
    TwoSteps(w, a, b);
  }

  /** Why: the run that touches a row one of whose workers has something to copy. */
  lemma BusyTouches(w: World, id: Name, m: Migration, j: nat)
    requires WellFormed(w) && RolledOut(w, id) && m == w.disk.rows[id]
    requires j in w.jobs && w.jobs[j].id == id && !Idle(m, w.disk.stores[m.source], w.jobs[j])
    ensures CanTouch(w, id)
  {
    if w.jobs[j].Loaded? {
      var w1 := Apply(w, Export(j, 1));
      LoadedTouches(w, w1, Apply(w1, Import(j)), id, j, m);
      TouchedByTwo(w, w1, Export(j, 1), Import(j), id);
    } else {
      ExportedTouches(w, Apply(w, Import(j)), id, j, m);
      TouchedByOne(w, Import(j), id);
    }
  }

  lemma NoisyTouches(w: World, id: Name, m: Migration, st: Store)
    requires WellFormed(w) && RolledOut(w, id) && m == w.disk.rows[id] && st == w.disk.stores[m.source]
    requires !Quiet(w, id)
    ensures CanTouch(w, id)
  {
    if busy: nat :| busy in w.jobs && w.jobs[busy].id == id && !Idle(m, st, w.jobs[busy]) {
      BusyTouches(w, id, m, busy);
    } else {
      var c :| c in w.admins && w.admins[c].ToComplete? && w.admins[c].id == id && !forall k <- st :: !m.Covers(k);
      var k :| k in st && m.Covers(k);
      CompletionTouches(w, Apply(w, CompleteDelete(c)), id, c, m, k);
      TouchedByOne(w, CompleteDelete(c), id);
    }
  }

  /** The exact condition: no run touches the two backends of a rolled-back row if and only if the row is quiet. That no
      exported batch is in flight is not enough, because a worker that was loaded before the rollback exports and
      imports without looking at the phase again. */
  lemma RolledBackExactly(w: World, id: Name)
    requires WellFormed(w) && RolledOut(w, id)
    ensures Quiet(w, id) <==> !CanTouch(w, id)
  {
    if !Quiet(w, id) {
      NoisyTouches(w, id, w.disk.rows[id], w.disk.stores[w.disk.rows[id].source]);
    } else if CanTouch(w, id) {
      var steps :| AdmissibleRun(w, steps) && !Untouched(w, Run(w, steps), id);
      QuietStaysUntouched(w, steps, id);
    }
  }

  /** A run from an empty table reaches such a row: its destination is empty, no exported batch is in flight, and the
      worker that was loaded before the rollback then copies the document into the destination. */
  lemma LateCopyIsReachable(doc: Doc)
    ensures exists w :: && Race.Reaches(Race.Start(doc), w) && RolledOut(w, "m")
                        && (forall j <- w.jobs :: !w.jobs[j].Exported?) && CanTouch(w, "m")
  {
    ReachLate(doc);
    LateCopyTouches(doc);
  }

  /** A worker was loaded, and then the migration was rolled back. */
  function Late(doc: Doc): World {
    Race.At(RolledBack, map[Race.KEY := doc], map[], map[0 := Loaded("m", [])], map[], {})
  }

  lemma ReachLate(doc: Doc)
    ensures Race.Reaches(Race.Start(doc), Late(doc))
  {
    var src, w := map[Race.KEY := doc], Late(doc);
    var empty := Race.At(Backfill, src, map[], map[], map[], {});
    var loaded := Race.At(Backfill, src, map[], map[0 := Loaded("m", [])], map[], {});
    Race.WorkerLoaded(src);
    RolledBackEmpty(src, map[0 := Loaded("m", [])]);
    Race.ReachesSelf(w);
    Race.ReachesBefore(loaded, Rollback("m"), w, w);
    Race.ReachesBefore(empty, Load(0, "m"), loaded, w);
    Race.ReachBackfill(doc, w);
  }

  lemma RolledBackEmpty(src: Store, jobs: Race.Jobs)
    ensures Apply(Race.At(Backfill, src, map[], jobs, map[], {}), Rollback("m"))
         == Race.At(RolledBack, src, map[], jobs, map[], {})
  {
    var d := Race.At(Backfill, src, map[], jobs, map[], {}).disk;
    RollbackRowIs(d, "m", RollbackRow(d, "m"));
    assert RollbackRow(d, "m").stores == map["src" := src, "dst" := map[]];
    assert RollbackRow(d, "m").rows == map["m" := Race.Row(RolledBack)];
  }

  lemma LateCopyTouches(doc: Doc)
    ensures RolledOut(Late(doc), "m") && CanTouch(Late(doc), "m")
    ensures forall j <- Late(doc).jobs :: !Late(doc).jobs[j].Exported?
  {
    var w, m := Late(doc), Race.Row(RolledBack);
    Race.Covered(RolledBack);
    assert Race.KEY in w.disk.stores["src"] && !Idle(m, w.disk.stores["src"], w.jobs[0]);
    BusyTouches(w, "m", m, 0);
  }
}
