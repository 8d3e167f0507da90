/** The two kinds of step that spoil a migration really do: after each of them, and after no other, a run is
    possible that spoils nothing more and ends with the authoritative backend wrong. */
module ShardLimits {
  import opened KeyOrder
  import opened ShardMigration
  import opened ShardSafety
  import opened ShardAuthority

  ghost predicate Fails(w: World, id: Name) {
    Known(w.disk, id) && !AuthorityOk(w, id)
  }

  /** Some careful run from here ends with the wrong values. */
  ghost predicate CanFail(w: World, id: Name) {
    exists steps :: CarefulRun(w, steps, id) && Fails(Run(w, steps), id)
  }

  lemma FailsNow(w: World, id: Name)
    requires Fails(w, id)
    ensures CanFail(w, id)
  {
    assert CarefulRun(w, [], id) && Run(w, []) == w;
  }

  lemma FailsLater(w: World, step: Step, id: Name)
    requires !step.Create? && !Spoils(w, step, id) && CanFail(Apply(w, step), id)
    ensures CanFail(w, id)
  {
    var w' := Apply(w, step);
    var steps :| CarefulRun(w', steps, id) && Fails(Run(w', steps), id);
    var more := [step] + steps;
    assert more[0] == step && more[1..] == steps;
    assert CarefulRun(w, more, id) && Run(w, more) == Run(w', steps);
  }

  /** The row has been cut over to a destination that holds the document, which was since replaced. */
  ghost predicate Serves(w: World, id: Name, d: Document) {
    && Known(w.disk, id) && w.disk.rows[id].phase == Cutover && w.disk.rows[id].Covers(d.key)
    && var dst := w.disk.stores[w.disk.rows[id].destination];
       d.key in dst && dst[d.key] == d.data && d.key in w.written && w.written[d.key] != d.data
  }

  /** Some careful run from here ends with the document being served. */
  ghost predicate CanServe(w: World, id: Name, d: Document) {
    exists steps :: CarefulRun(w, steps, id) && Serves(Run(w, steps), id, d)
  }

  lemma ServingIsFailing(w: World, id: Name, d: Document)
    requires Serves(w, id, d)
    ensures Fails(w, id)
  {
    var v := Look(w, w.disk.rows[id]);
    assert d.key in v.dst && v.dst[d.key] == d.data && v.written[d.key] != d.data;
  }

  lemma CanServeCanFail(w: World, id: Name, d: Document)
    requires CanServe(w, id, d)
    ensures CanFail(w, id)
  {
    var steps :| CarefulRun(w, steps, id) && Serves(Run(w, steps), id, d);
    ServingIsFailing(Run(w, steps), id, d);
  }

  lemma ServesNow(w: World, id: Name, d: Document)
    requires Serves(w, id, d)
    ensures CanServe(w, id, d)
  {
    assert CarefulRun(w, [], id) && Run(w, []) == w;
  }

  lemma ServesLater(w: World, step: Step, id: Name, d: Document)
    requires !step.Create? && !Spoils(w, step, id) && CanServe(Apply(w, step), id, d)
    ensures CanServe(w, id, d)
  {
    var w' := Apply(w, step);
    var steps :| CarefulRun(w', steps, id) && Serves(Run(w', steps), id, d);
    var more := [step] + steps;
    assert more[0] == step && more[1..] == steps;
    assert CarefulRun(w, more, id) && Run(w, more) == Run(w', steps);
  }

  // One lemma per kind of step on the way there.

  lemma LoadServes(w: World, worker: nat, r: Name, id: Name, d: Document)
    requires CanServe(DoLoad(w, worker, r), id, d)
    ensures CanServe(w, id, d)
  {
    ServesLater(w, Load(worker, r), id, d);
  }

  lemma ExportServes(w: World, worker: nat, limit: int, id: Name, d: Document)
    requires CanServe(DoExport(w, worker, limit), id, d)
    ensures CanServe(w, id, d)
  {
    ServesLater(w, Export(worker, limit), id, d);
  }

  lemma ImportServes(w: World, worker: nat, id: Name, d: Document)
    requires CanServe(DoImport(w, worker), id, d)
    ensures CanServe(w, id, d)
  {
    ServesLater(w, Import(worker), id, d);
  }

  lemma SaveServes(w: World, worker: nat, id: Name, d: Document)
    requires CanServe(DoSave(w, worker), id, d)
    ensures CanServe(w, id, d)
  {
    ServesLater(w, Save(worker), id, d);
  }

  lemma StartServes(w: World, call: nat, r: Name, id: Name, d: Document)
    requires CanServe(DoVerifyStart(w, call, r), id, d)
    ensures CanServe(w, id, d)
  {
    ServesLater(w, VerifyStart(call, r), id, d);
  }

  lemma CountSourceServes(w: World, call: nat, id: Name, d: Document)
    requires CanServe(DoCountSource(w, call), id, d)
    ensures CanServe(w, id, d)
  {
    ServesLater(w, CountSource(call), id, d);
  }

  lemma CountServes(w: World, call: nat, id: Name, d: Document)
    requires !Spoils(w, CountDestination(call), id) && CanServe(DoCountDestination(w, call), id, d)
    ensures CanServe(w, id, d)
  {
    ServesLater(w, CountDestination(call), id, d);
  }

  lemma CommitServes(w: World, call: nat, id: Name, d: Document)
    requires CanServe(DoCommit(w, call), id, d)
    ensures CanServe(w, id, d)
  {
    ServesLater(w, Commit(call), id, d);
  }

  lemma WriteServes(w: World, key: Key, doc: Doc, id: Name, d: Document)
    requires CanServe(DoWrite(w, key, doc), id, d)
    ensures CanServe(w, id, d)
  {
    ServesLater(w, Write(key, doc), id, d);
  }

  lemma SafeCannotFail(w: World, id: Name)
    requires Inv(w, id)
    ensures !CanFail(w, id)
  {
    forall steps | CarefulRun(w, steps, id)
      ensures !Fails(Run(w, steps), id)
    {
      RunKeepsInv(w, steps, id);
      if Known(Run(w, steps).disk, id) { SafeMeansAuthority(Run(w, steps), id); }
    }
  }

  // ---- a Verify call let through on unequal contents ----------------------------------------

  lemma CommitFails(w: World, call: nat, id: Name, m: Migration, v: View)
    requires Known(w.disk, id) && m == w.disk.rows[id] && m.phase == Verify && v == Look(w, m) && v.dst != v.written
    requires call in w.checks && w.checks[call].Matched? && w.checks[call].id == id
    ensures CanFail(w, id)
  {
    var w' := DoCommit(w, call);
    LookSame(w, w', m, w'.disk.rows[id]);
    FailsNow(w', id);
    CutoverFails(w, call, id);
  }

  lemma CutoverFails(w: World, call: nat, id: Name)
    requires CanFail(DoCommit(w, call), id)
    ensures CanFail(w, id)
  {
    FailsLater(w, Commit(call), id);
  }

  lemma SpoiltCountFails(w: World, call: nat, id: Name)
    requires Inv(w, id) && id in w.disk.rows && Spoils(w, CountDestination(call), id)
    ensures CanFail(DoCountDestination(w, call), id)
  {
    var m := w.disk.rows[id];
    assert Known(w.disk, id);
    VerifyPassesExactly(w, call, id);
    var w' := DoCountDestination(w, call);
    LookSame(w, w', m, m);
    CommitFails(w', call, id, m, Look(w, m));
  }

  // ---- a destination emptied when it is wanted ----------------------------------------------

  /** The call is a rollback of the migration, about to delete. */
  ghost predicate Deletes(w: World, call: nat, id: Name) {
    call in w.admins && w.admins[call].ToRollBack? && w.admins[call].id == id
  }

  lemma EmptiedWhileDeciding(w: World, call: nat, id: Name, m: Migration, check: nat)
    requires Inv(w, id) && id in w.disk.rows && m == w.disk.rows[id] && m.phase == Verify && Deletes(w, call, id)
    requires check in w.checks && w.checks[check].Matched? && w.checks[check].id == id
    requires CountRange(w.disk, m.source, m) != 0
    ensures CanFail(DoRollbackDelete(w, call), id)
  {
    assert Known(w.disk, id);
    var w' := DoRollbackDelete(w, call);
    EmptiedView(w, w', call, id, m);
    assert |Look(w, m).src| != 0 && Look(w, m).src == Look(w, m).written;
    CommitFails(w', check, id, m, Look(w', m));
  }

  /** A rollback that looked at the phase before cutover and deletes after it empties the authority. */
  lemma EmptiedAfterCutover(w: World, call: nat, id: Name, m: Migration)
    requires Inv(w, id) && id in w.disk.rows && m == w.disk.rows[id] && Deletes(w, call, id)
    requires (m.phase == Cutover || m.phase == Complete) && CountRange(w.disk, m.destination, m) != 0
    ensures Fails(DoRollbackDelete(w, call), id)
  {
    assert Known(w.disk, id);
    EmptiedView(w, DoRollbackDelete(w, call), call, id, m);
    assert |Look(w, m).dst| != 0 && Look(w, m).dst == Look(w, m).written;
  }

  // ---- a stale document in flight -----------------------------------------------------------

  /** The destination holds a replaced document and no key that the source does not have. */
  ghost predicate Trap(w: World, id: Name, d: Document) {
    && WellFormed(w) && id in w.disk.rows && Copying(w, id)
    && var v := Look(w, w.disk.rows[id]);
       TrapView(v, d)
  }

  ghost predicate TrapView(v: View, d: Document) {
    && v.src == v.written && v.dst.Keys <= v.src.Keys
    && d.key in v.dst && v.dst[d.key] == d.data && v.src[d.key] != d.data
  }

  lemma WriteKeepsWellFormed(w: World, key: Key, doc: Doc)
    requires WellFormed(w)
    ensures WellFormed(DoWrite(w, key, doc))
  {
    WriteKeepsRows(w, key, doc);
    KeptIsWellFormed(w, DoWrite(w, key, doc));
  }

  /** Writing what the source has to one more key brings it to the destination and changes nothing else. */
  lemma FillView(w: World, w': World, id: Name, x: Key, m: Migration, v: View)
    requires WellFormed(w) && id in w.disk.rows && Copying(w, id) && m == w.disk.rows[id] && v == Look(w, m)
    requires x in v.src && v.src == v.written && w' == DoWrite(w, x, v.src[x])
    ensures w'.disk.rows == w.disk.rows && Known(w'.disk, id) && Look(w', m) == v.(dst := v.dst[x := v.src[x]])
  {
    TargetsOfCovered(w, id, x);
    assert m.source in m.Targets() && m.destination in m.Targets();
    UpsertView(w, w', m, x, v.src[x]);
    SameAgain(v.src, x);
  }

  lemma SameAgain(st: Store, x: Key)
    requires x in st
    ensures st[x := st[x]] == st
  {
  }

  lemma FillOne(w: World, w': World, id: Name, d: Document, x: Key, m: Migration, v: View, v': View)
    requires Trap(w, id, d) && m == w.disk.rows[id] && v == Look(w, m) && x in v.src && x !in v.dst
    requires w' == DoWrite(w, x, v.src[x]) && v' == v.(dst := v.dst[x := v.src[x]])
    ensures Trap(w', id, d) && w'.disk.rows[id] == m && Look(w', m) == v'
  {
    FillView(w, w', id, x, m, v);
    WriteKeepsWellFormed(w, x, v.src[x]);
  }

  lemma OneFewer(v: View, v': View, x: Key)
    requires x in v.src && v' == v.(dst := v.dst[x := v.src[x]])
    ensures v'.src.Keys - v'.dst.Keys == v.src.Keys - v.dst.Keys - {x}
  {
  }

  lemma {:induction false} FilledTrapServes(w: World, id: Name, d: Document, m: Migration, v: View, missing: set<Key>)
    requires Trap(w, id, d) && m == w.disk.rows[id] && v == Look(w, m) && missing == v.src.Keys - v.dst.Keys
    ensures CanServe(w, id, d)
    decreases |missing|
  {
    if missing == {} {
      FullTrapServes(w, id, d, v);
    } else {
      var x :| x in missing;
      var w' := DoWrite(w, x, v.src[x]);
      var v' := v.(dst := v.dst[x := v.src[x]]);
      FillOne(w, w', id, d, x, m, v, v');
      OneFewer(v, v', x);
      FilledTrapServes(w', id, d, m, v', missing - {x});
      WriteServes(w, x, v.src[x], id, d);
    }
  }

  /** With every key there the counts agree, and the row can be taken through verification. */
  lemma FullTrapServes(w: World, id: Name, d: Document, v: View)
    requires Trap(w, id, d) && v == Look(w, w.disk.rows[id]) && v.src.Keys <= v.dst.Keys
    ensures CanServe(w, id, d)
  {
    var m := w.disk.rows[id];
    if m.phase == Verify {
      VerifyTrapServes(w, id, d, m, v);
    } else {
      BackfillTrapServes(w, id, d, m, v);
    }
  }

  lemma MatchedTrapServes(w: World, id: Name, d: Document, m: Migration, v: View)
    requires Known(w.disk, id) && m == w.disk.rows[id] && v == Look(w, m) && m.phase == Verify && TrapView(v, d)
    requires 0 in w.checks && w.checks[0].Matched? && w.checks[0].id == id
    ensures CanServe(w, id, d)
  {
    var w' := DoCommit(w, 0);
    CoversSame(m, w'.disk.rows[id]);
    ServesNow(w', id, d);
    CommitServes(w, 0, id, d);
  }

  lemma CountedTrapServes(w: World, id: Name, d: Document, m: Migration, v: View)
    requires Known(w.disk, id) && m == w.disk.rows[id] && v == Look(w, m) && m.phase == Verify && TrapView(v, d)
    requires |v.src| == |v.dst|
    requires 0 in w.checks && w.checks[0].Counted? && w.checks[0].id == id && |w.checks[0].keys| == |v.src|
    ensures CanServe(w, id, d)
  {
    var w' := DoCountDestination(w, 0);
    LookSame(w, w', m, m);
    MatchedTrapServes(w', id, d, m, v);
    CountServes(w, 0, id, d);
  }

  lemma AskedTrapServes(w: World, id: Name, d: Document, m: Migration, v: View)
    requires Known(w.disk, id) && m == w.disk.rows[id] && v == Look(w, m) && m.phase == Verify && TrapView(v, d)
    requires |v.src| == |v.dst| && 0 in w.checks && w.checks[0].Asked? && w.checks[0].id == id
    ensures CanServe(w, id, d)
  {
    var w' := DoCountSource(w, 0);
    LookSame(w, w', m, m);
    assert |v.src.Keys| == |v.src|;
    CountedTrapServes(w', id, d, m, v);
    CountSourceServes(w, 0, id, d);
  }

  lemma VerifyTrapServes(w: World, id: Name, d: Document, m: Migration, v: View)
    requires Known(w.disk, id) && m == w.disk.rows[id] && v == Look(w, m) && m.phase == Verify
    requires TrapView(v, d) && v.src.Keys <= v.dst.Keys
    ensures CanServe(w, id, d)
  {
    assert v.src.Keys == v.dst.Keys && |v.src.Keys| == |v.src| && |v.dst.Keys| == |v.dst|;
    var w' := DoVerifyStart(w, 0, id);
    LookSame(w, w', m, m);
    AskedTrapServes(w', id, d, m, v);
    StartServes(w, 0, id, id, d);
  }

  /** A limit above the number of keys makes the next batch the last. */
  lemma LargeExportIsLast(st: Store, m: Migration, after: Key)
    ensures ExportBatch(st, m, after, |Restrict(st, m)| + 1).done
  {
    var keys := Eligible(st, m, after);
    assert keys <= Restrict(st, m).Keys;
    SubsetSize(keys, Restrict(st, m).Keys);
    assert |Restrict(st, m).Keys| == |Restrict(st, m)|;
  }

  lemma LargeExport(st: Store, m: Migration, after: Key, range: Store)
    requires range == Restrict(st, m)
    ensures var b := ExportBatch(st, m, after, |range| + 1);
            b.done && forall d <- b.documents :: d.key in range
  {
    LargeExportIsLast(st, m, after);
    ExportFacts(st, m, after, |range| + 1);
  }

  lemma SubsetSize(a: set<Key>, b: set<Key>)
    requires a <= b
    ensures |a| <= |b|
  {
    assert |b - a| == |b| - |a|;
  }

  lemma BackfillTrapServes(w: World, id: Name, d: Document, m: Migration, v: View)
    requires Known(w.disk, id) && m == w.disk.rows[id] && v == Look(w, m)
    requires m.phase == Backfill && m.source != m.destination
    requires TrapView(v, d) && v.src.Keys <= v.dst.Keys
    ensures CanServe(w, id, d)
  {
    var limit := |v.src| + 1;
    var w1 := DoLoad(w, 0, id);
    var w2 := DoExport(w1, 0, limit);
    LookSame(w, w2, m, m);
    LargeExport(w.disk.stores[m.source], m, m.checkpoint, v.src);
    LastBatchServes(w2, id, d, m, v);
    ExportServes(w1, 0, limit, id, d);
    LoadServes(w, 0, id, id, d);
  }

  lemma LastBatchServes(w: World, id: Name, d: Document, m: Migration, v: View)
    requires Known(w.disk, id) && m == w.disk.rows[id] && v == Look(w, m)
    requires m.phase == Backfill && m.source != m.destination
    requires TrapView(v, d) && v.src.Keys <= v.dst.Keys
    requires 0 in w.jobs && w.jobs[0].Exported? && w.jobs[0].id == id && w.jobs[0].batch.done
    requires forall x <- w.jobs[0].batch.documents :: x.key in v.src
    ensures CanServe(w, id, d)
  {
    var w1 := DoImport(w, 0);
    var docs := w.jobs[0].batch.documents;
    ImportIntoView(w, id, docs);
    NothingNew(v, Look(w1, m), docs);
    LastSaveServes(w1, id, d, m, v);
    ImportServes(w, 0, id, d);
  }

  lemma LastSaveServes(w: World, id: Name, d: Document, m: Migration, v: View)
    requires Known(w.disk, id) && m == w.disk.rows[id] && v == Look(w, m)
    requires v.src.Keys <= v.dst.Keys && m.phase == Backfill
    requires 0 in w.jobs && w.jobs[0].Imported? && w.jobs[0].id == id && w.jobs[0].batch.done && TrapView(v, d)
    ensures CanServe(w, id, d)
  {
    var w' := DoSave(w, 0);
    var m' := w'.disk.rows[id];
    LookSame(w, w', m, m');
    VerifyTrapServes(w', id, d, m', v);
    SaveServes(w, 0, id, d);
  }

  lemma NothingNew(v: View, v': View, docs: seq<Document>)
    requires ImportedView(v, v', docs) && v.src.Keys <= v.dst.Keys && forall d <- docs :: d.key in v.src
    ensures v' == v
  {
    assert forall k <- v'.dst :: k in v.dst || Document(k, v'.dst[k]) in docs;
    assert v'.dst == v.dst;
  }

  lemma DeleteAndImportKeepWellFormed(w: World, w1: World, w2: World, call: nat, j: nat)
    requires WellFormed(w) && w1 == DoRollbackDelete(w, call) && w2 == DoImport(w1, j)
    ensures WellFormed(w2)
  {
    RollbackDeleteKeepsRows(w, call);
    KeptIsWellFormed(w, w1);
    ImportKeepsRows(w1, j);
    KeptIsWellFormed(w1, w2);
  }

  /** What the destination holds after it was emptied and a batch imported. */
  lemma EmptiedThenImported(w: World, w1: World, w2: World, call: nat, id: Name, j: nat, m: Migration)
    requires Known(w.disk, id) && Deletes(w, call, id) && m == w.disk.rows[id] && m.source != m.destination
    requires j in w.jobs && w.jobs[j].Exported? && w.jobs[j].id == id && JobOf(w.disk.rows, w.jobs[j])
    requires w1 == DoRollbackDelete(w, call) && w2 == DoImport(w1, j)
    ensures Known(w2.disk, id) && w2.disk.rows == w.disk.rows
    ensures ImportedView(Look(w, m).(dst := map[]), Look(w2, m), w.jobs[j].batch.documents)
  {
    EmptiedView(w, w1, call, id, m);
    ImportIntoView(w1, id, w.jobs[j].batch.documents);
  }

  /** Emptying the destination and then importing a stale document sets the trap. */
  lemma StaleImportTraps(w: World, w1: World, w2: World, call: nat, id: Name, j: nat, d: Document, m: Migration,
                         v: View)
    requires Inv(w, id) && id in w.disk.rows && Copying(w, id) && m == w.disk.rows[id] && v == Look(w, m)
    requires Deletes(w, call, id) && StaleIn(w, id, j, d) && w1 == DoRollbackDelete(w, call) && w2 == DoImport(w1, j)
    ensures Trap(w2, id, d) && w2.disk.rows[id] == m
  {
    DeleteAndImportKeepWellFormed(w, w1, w2, call, j);
    StaleImportView(w, w1, w2, call, id, j, d, m, v);
  }

  lemma StaleImportView(w: World, w1: World, w2: World, call: nat, id: Name, j: nat, d: Document, m: Migration, v: View)
    requires Known(w.disk, id) && Safe(w, id) && Copying(w, id) && m == w.disk.rows[id] && v == Look(w, m)
    requires m.source != m.destination && StaleIn(w, id, j, d) && JobOf(w.disk.rows, w.jobs[j]) && Deletes(w, call, id)
    requires w1 == DoRollbackDelete(w, call) && w2 == DoImport(w1, j)
    ensures w2.disk.rows == w.disk.rows && Known(w2.disk, id) && TrapView(Look(w2, m), d)
  {
    assert JobOk(m, v, w.jobs[j], id !in w.interrupted);
    EmptiedThenImported(w, w1, w2, call, id, j, m);
    StaleInView(w, id, j, d, m, v);
    TrapViewSet(m, v, Look(w2, m), w.jobs[j].batch.documents, d);
  }

  lemma StaleInView(w: World, id: Name, j: nat, d: Document, m: Migration, v: View)
    requires Known(w.disk, id) && Copying(w, id) && m == w.disk.rows[id] && v == Look(w, m)
    requires StaleIn(w, id, j, d) && JobOk(m, v, w.jobs[j], id !in w.interrupted)
    ensures d.key in v.src && v.src[d.key] != d.data
  {
    assert DocOk(m, v, d);
  }

  lemma TrapViewSet(m: Migration, v: View, v2: View, docs: seq<Document>, d: Document)
    requires v.src == v.written && ImportedView(v.(dst := map[]), v2, docs) && DistinctKeys(docs)
    requires (m.phase == Backfill || m.phase == Verify) && (forall x <- docs :: DocOk(m, v, x))
    requires d in docs && d.key in v.src && v.src[d.key] != d.data
    ensures TrapView(v2, d)
  {
    forall x <- v2.dst ensures x in v2.src && Document(x, v2.dst[x]) in docs {
      assert DocOk(m, v, Document(x, v2.dst[x]));
    }
    SameDocument(docs, d, Document(d.key, v2.dst[d.key]));
  }

  lemma SameDocument(docs: seq<Document>, d: Document, e: Document)
    requires DistinctKeys(docs) && d in docs && e in docs && d.key == e.key
    ensures d == e
  {
    var i :| 0 <= i < |docs| && docs[i] == d;
    var j :| 0 <= j < |docs| && docs[j] == e;
    assert i == j;
  }

  /** Emptying the destination while a stale document is in flight: import it, write the other keys, finish the
      backfill, verify, and the stale document is served. */
  lemma StaleBatchServed(w: World, call: nat, id: Name, j: nat, d: Document)
    requires Inv(w, id) && id in w.disk.rows && Copying(w, id) && Deletes(w, call, id) && StaleIn(w, id, j, d)
    ensures CanServe(DoRollbackDelete(w, call), id, d)
  {
    var m := w.disk.rows[id];
    assert Known(w.disk, id);
    var w1 := DoRollbackDelete(w, call);
    var w2 := DoImport(w1, j);
    StaleImportTraps(w, w1, w2, call, id, j, d, m, Look(w, m));
    var v := Look(w2, m);
    FilledTrapServes(w2, id, d, m, v, v.src.Keys - v.dst.Keys);
    ImportServes(w1, j, id, d);
  }

  // ---- the exact condition ------------------------------------------------------------------

  lemma HurtfulDeletionFails(w: World, call: nat, id: Name, m: Migration)
    requires Inv(w, id) && id in w.disk.rows && m == w.disk.rows[id] && Deletes(w, call, id)
    requires Known(w.disk, id) && EmptyingHurts(w, id)
    ensures CanFail(DoRollbackDelete(w, call), id)
  {
    if m.phase == Cutover || m.phase == Complete {
      EmptiedAfterCutover(w, call, id, m);
      FailsNow(DoRollbackDelete(w, call), id);
    } else if Stale(w, id) {
      var j, d :| StaleIn(w, id, j, d);
      StaleBatchServed(w, call, id, j, d);
      CanServeCanFail(DoRollbackDelete(w, call), id, d);
    } else {
      var c :| c in w.checks && w.checks[c] == Matched(id, w.checks[c].checkpoint);
      EmptiedWhileDeciding(w, call, id, m, c);
    }
  }

  /** From any state that every careful run reaches, a step spoils the migration if and only if some careful
      run after it ends with the authoritative backend wrong. */
  lemma SpoilsExactly(w: World, step: Step, id: Name)
    requires Inv(w, id) && id in w.disk.rows && Admissible(w, step)
    ensures Spoils(w, step, id) <==> CanFail(Apply(w, step), id)
  {
    if !Spoils(w, step, id) {
      StepKeepsInv(w, step, id);
      SafeCannotFail(Apply(w, step), id);
    } else if step.CountDestination? {
      SpoiltCountFails(w, step.call, id);
    } else {
      HurtfulDeletionFails(w, step.call, id, w.disk.rows[id]);
    }
  }
}
