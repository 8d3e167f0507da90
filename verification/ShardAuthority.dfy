/** What the migration promises over whole runs. */
module ShardAuthority {
  import opened KeyOrder
  import opened ShardMigration
  import opened ShardSafety
  import opened BackfillProgress

  lemma FreshIsSafe(w: World, id: Name)
    requires Fresh(w)
    ensures Inv(w, id)
  {
  }

  // ---- migrations whose copying was never interrupted ---------------------------------------

  lemma InterruptedGrows(w: World, step: Step)
    ensures w.interrupted <= Apply(w, step).interrupted
  {
  }

  lemma {:induction false} InterruptedStays(w: World, steps: seq<Step>, id: Name)
    requires id in w.interrupted
    ensures id in Run(w, steps).interrupted
    decreases |steps|
  {
    if steps != [] {
      InterruptedGrows(w, steps[0]);
      InterruptedStays(Apply(w, steps[0]), steps[1..], id);
    }
  }

  /** Counts can mislead only after an interruption. */
  lemma WholeIsNotSpoilt(w: World, step: Step, id: Name)
    requires Inv(w, id) && id !in w.interrupted && id !in Apply(w, step).interrupted
    ensures !Spoils(w, step, id)
  {
    if Known(w.disk, id) && w.disk.rows[id].phase == Verify {
      SizesDecide(w, id, w.disk.rows[id], Look(w, w.disk.rows[id]));
    }
  }

  /** No step of any run spoils a migration whose copying is never interrupted. */
  lemma {:induction false} UninterruptedIsCareful(w: World, steps: seq<Step>, id: Name)
    requires Inv(w, id) && AdmissibleRun(w, steps) && id !in Run(w, steps).interrupted
    ensures CarefulRun(w, steps, id)
    decreases |steps|
  {
    if id in w.interrupted { InterruptedStays(w, steps, id); }
    if steps != [] {
      var w1 := Apply(w, steps[0]);
      if id in w1.interrupted { InterruptedStays(w1, steps[1..], id); }
      WholeIsNotSpoilt(w, steps[0], id);
      StepKeepsInv(w, steps[0], id);
      UninterruptedIsCareful(w1, steps[1..], id);
    }
  }

  // ---- authority ----------------------------------------------------------------------------

  /** In every run that does not spoil the migration the authoritative backend maps each key of the range
      to its last written value, and holds no other key of the range. */
  lemma AuthorityHoldsLastWrites(w: World, steps: seq<Step>, e: World, id: Name, k: Key)
    requires Fresh(w) && CarefulRun(w, steps, id) && e == Run(w, steps)
    requires id in e.disk.rows && e.disk.rows[id].Covers(k)
    ensures var n := e.disk.rows[id].Authority();
            n in e.disk.stores && SameAt(e.disk.stores[n], e.written, k)
  {
    FreshIsSafe(w, id);
    RunKeepsInv(w, steps, id);
    AuthorityAt(e, id, k);
  }

  lemma AuthorityAt(e: World, id: Name, k: Key)
    requires Inv(e, id) && id in e.disk.rows && e.disk.rows[id].Covers(k)
    ensures var n := e.disk.rows[id].Authority();
            n in e.disk.stores && SameAt(e.disk.stores[n], e.written, k)
  {
    var m := e.disk.rows[id];
    assert Known(e.disk, id);
    SafeMeansAuthority(e, id);
    var st := e.disk.stores[m.Authority()];
    assert Restrict(st, m) == Restrict(e.written, m);
    assert SameAt(Restrict(st, m), st, k) && SameAt(Restrict(e.written, m), e.written, k);
  }

  /** The same in every admissible run whatsoever, for a migration whose copying was never interrupted. */
  lemma UninterruptedAuthority(w: World, steps: seq<Step>, e: World, id: Name, k: Key)
    requires Fresh(w) && AdmissibleRun(w, steps) && e == Run(w, steps) && id !in e.interrupted
    requires id in e.disk.rows && e.disk.rows[id].Covers(k)
    ensures var n := e.disk.rows[id].Authority();
            n in e.disk.stores && SameAt(e.disk.stores[n], e.written, k)
  {
    FreshIsSafe(w, id);
    UninterruptedIsCareful(w, steps, id);
    AuthorityHoldsLastWrites(w, steps, e, id, k);
  }

  // ---- cutover ------------------------------------------------------------------------------

  lemma RowsUntouched(w: World, step: Step)
    requires step.Load? || step.Export? || step.Import? || step.WorkerCrash? || step.VerifyStart? || step.CountSource?
             || step.CountDestination? || step.VerifyCrash? || step.CompleteTest? || step.CompleteDelete?
             || step.RollbackTest? || step.RollbackDelete? || step.AdminCrash? || step.Write?
    ensures Apply(w, step).disk.rows == w.disk.rows
  {
  }

  lemma RowsAdvance(w: World, step: Step, id: Name)
    requires id in w.disk.rows && id in Apply(w, step).disk.rows && w.disk.rows[id].phase != Cutover
    requires step.Create? || step.EnableDualWrite? || step.BeginBackfill? || step.Save? || step.CompleteIt?
             || step.CompleteFinish? || step.Rollback? || step.RollbackFinish?
    ensures Apply(w, step).disk.rows[id].phase != Cutover
  {
  }

  /** The last statement of a Verify call whose counts agreed. */
  ghost predicate Enters(w: World, step: Step, id: Name) {
    step.Commit? && step.call in w.checks && w.checks[step.call].Matched? && w.checks[step.call].id == id
  }

  /** A row moves into cutover by that statement, found in the verify phase, and by nothing else. */
  lemma OnlyCommitCutsOver(w: World, step: Step, id: Name)
    requires id in w.disk.rows && w.disk.rows[id].phase != Cutover
    ensures (id in Apply(w, step).disk.rows && Apply(w, step).disk.rows[id].phase == Cutover)
            <==> (Enters(w, step, id) && w.disk.rows[id].phase == Verify)
  {
    var w' := Apply(w, step);
    if step.Create? || step.EnableDualWrite? || step.BeginBackfill? || step.Save? || step.CompleteIt?
       || step.CompleteFinish? || step.Rollback? || step.RollbackFinish? {
      if id in w'.disk.rows { RowsAdvance(w, step, id); }
    } else if !step.Commit? {
      RowsUntouched(w, step);
    }
  }

  /** In every run that does not spoil the migration, the step into cutover is the last statement of a Verify call
      and finds source and destination equal on the range, whatever was written since the call counted them. */
  lemma CutoverOnlyWhenEqual(w: World, steps: seq<Step>, e: World, step: Step, id: Name)
    requires Fresh(w) && CarefulRun(w, steps, id) && e == Run(w, steps)
    requires id in e.disk.rows && e.disk.rows[id].phase != Cutover
    requires id in Apply(e, step).disk.rows && Apply(e, step).disk.rows[id].phase == Cutover
    ensures Known(e.disk, id) && Enters(e, step, id)
    ensures var m := e.disk.rows[id];
            Restrict(e.disk.stores[m.source], m) == Restrict(e.disk.stores[m.destination], m)
  {
    FreshIsSafe(w, id);
    RunKeepsInv(w, steps, id);
    OnlyCommitCutsOver(e, step, id);
    EqualWhenMatched(e, step.call, id);
  }

  lemma EqualWhenMatched(w: World, call: nat, id: Name)
    requires Inv(w, id) && id in w.disk.rows && w.disk.rows[id].phase == Verify
    requires call in w.checks && w.checks[call].Matched? && w.checks[call].id == id
    ensures Known(w.disk, id) && Look(w, w.disk.rows[id]).src == Look(w, w.disk.rows[id]).dst
  {
    assert CheckOk(w.disk.rows[id], Look(w, w.disk.rows[id]), w.checks[call]);
  }

  /** When a Verify call passes. Of a migration whose copying was never interrupted: if and only if the source
      has gained no key of the range since the call counted it, so that a write of a new key between the counts
      fails the call although the backends are equal. Of an interrupted one: if and only if as many keys have
      reached the destination by now as the source had then. */
  lemma VerifyPassesExactly(w: World, call: nat, id: Name)
    requires Inv(w, id) && id in w.disk.rows && w.disk.rows[id].phase == Verify
    requires call in w.checks && w.checks[call].Counted? && w.checks[call].id == id
    ensures Known(w.disk, id)
    ensures var v, after := Look(w, w.disk.rows[id]), DoCountDestination(w, call);
            var passes := call in after.checks && after.checks[call].Matched?;
            && w.checks[call].keys <= v.src.Keys
            && (id !in w.interrupted ==> v.src == v.dst && (passes <==> v.src.Keys == w.checks[call].keys))
            && (passes <==> |v.dst| == |w.checks[call].keys|)
            && (Spoils(w, CountDestination(call), id) <==> passes && v.src != v.dst)
  {
    var m := w.disk.rows[id];
    assert Known(w.disk, id);
    var v := Look(w, m);
    assert CheckOk(m, v, w.checks[call]);
    SizesDecide(w, id, m, v);
    SameSize(w.checks[call].keys, v.src.Keys);
  }

  lemma SameSize(a: set<Key>, b: set<Key>)
    requires a <= b
    ensures |a| == |b| <==> a == b
  {
    if |a| == |b| {
      assert |b - a| == |b| - |a|;
      assert b - a == {};
    }
  }

  /** A Verify call that nothing disturbs, statement by statement. */
  lemma VerifyCallIsItsSteps(w: World, call: nat, id: Name)
    requires Known(w.disk, id)
    ensures var w1 := DoVerifyStart(w.(checks := map[]), call, id);
            DoCommit(DoCountDestination(DoCountSource(w1, call), call), call).disk == VerifyRow(w.disk, id)
  {
    var m := w.disk.rows[id];
    assert |Restrict(w.disk.stores[m.source], m).Keys| == CountRange(w.disk, m.source, m);
  }

  /** A Rollback call that nothing disturbs, statement by statement. */
  lemma RollbackCallIsItsSteps(w: World, call: nat, id: Name)
    requires Known(w.disk, id)
    ensures var w1 := DoRollbackTest(w.(admins := map[]), call, id);
            DoRollbackFinish(DoRollbackDelete(w1, call), call).disk == RollbackRow(w.disk, id)
  {
  }

  /** A Complete call that nothing disturbs, statement by statement. */
  lemma CompleteCallIsItsSteps(w: World, call: nat, id: Name, deleteSource: bool)
    requires Known(w.disk, id)
    ensures var w1 := DoCompleteTest(w.(admins := map[]), call, id, deleteSource);
            DoCompleteFinish(DoCompleteDelete(w1, call), call).disk == CompleteRow(w.disk, id, deleteSource)
  {
  }

  /** A backfill call that nothing disturbs, statement by statement. */
  lemma BackfillCallIsItsSteps(w: World, worker: nat, id: Name, limit: int)
    requires Known(w.disk, id)
    ensures var w1 := DoLoad(w.(jobs := map[]), worker, id);
            var after := DoSave(DoImport(DoExport(w1, worker, limit), worker), worker).disk;
            after == if w.disk.rows[id].phase == Backfill then BackfillStep(w.disk, id, limit) else w.disk
  {
  }

  /** The phases that a row moves between, each by its own statement and by no other: planned to dual write to backfill
      on command; to verify by a backfill worker's last save; to cutover by a Verify call whose counts agreed; to
      complete by a Complete call; and from before the cutover to rolled back by a Rollback call. */
  ghost predicate Moves(w: World, step: Step, id: Name, from: Phase, to: Phase) {
    match to
    case Planned => false
    case DualWrite => from == Planned && step == EnableDualWrite(id)
    case Backfill => from == DualWrite && step == BeginBackfill(id)
    case Verify =>
      && from == Backfill && step.Save? && step.worker in w.jobs && w.jobs[step.worker].Imported?
      && w.jobs[step.worker].id == id && w.jobs[step.worker].batch.done
    case Cutover => from == Verify && Enters(w, step, id)
    case Complete =>
      && from == Cutover
      && (|| (step.CompleteIt? && step.id == id)
          || (step.CompleteFinish? && step.call in w.admins && w.admins[step.call].Completing?
              && w.admins[step.call].id == id))
    case RolledBack =>
      && from in {Planned, DualWrite, Backfill, Verify}
      && (|| (step.Rollback? && step.id == id)
          || (step.RollbackFinish? && step.call in w.admins && w.admins[step.call].RollingBack?
              && w.admins[step.call].id == id))
  }

  lemma CommandMoves(w: World, w': World, step: Step, id: Name, to: Phase)
    requires Known(w.disk, id) && w.disk.rows[id].phase != to && w' == Apply(w, step)
    requires (step.Create? || step.EnableDualWrite? || step.BeginBackfill?)
    ensures id in w'.disk.rows && (w'.disk.rows[id].phase == to <==> Moves(w, step, id, w.disk.rows[id].phase, to))
  {
  }

  lemma SaveMoves(w: World, w': World, step: Step, id: Name, to: Phase)
    requires Known(w.disk, id) && w.disk.rows[id].phase != to && w' == Apply(w, step)
    requires step.Save?
    ensures id in w'.disk.rows && (w'.disk.rows[id].phase == to <==> Moves(w, step, id, w.disk.rows[id].phase, to))
  {
  }

  lemma CommitMoves(w: World, w': World, step: Step, id: Name, to: Phase)
    requires Known(w.disk, id) && w.disk.rows[id].phase != to && w' == Apply(w, step)
    requires step.Commit?
    ensures id in w'.disk.rows && (w'.disk.rows[id].phase == to <==> Moves(w, step, id, w.disk.rows[id].phase, to))
  {
  }

  lemma CompleteMoves(w: World, w': World, step: Step, id: Name, to: Phase)
    requires Known(w.disk, id) && w.disk.rows[id].phase != to && w' == Apply(w, step)
    requires (step.CompleteIt? || step.CompleteFinish?)
    ensures id in w'.disk.rows && (w'.disk.rows[id].phase == to <==> Moves(w, step, id, w.disk.rows[id].phase, to))
  {
  }

  lemma RollbackMoves(w: World, w': World, step: Step, id: Name, to: Phase)
    requires Known(w.disk, id) && w.disk.rows[id].phase != to && w' == Apply(w, step)
    requires (step.Rollback? || step.RollbackFinish?)
    ensures id in w'.disk.rows && (w'.disk.rows[id].phase == to <==> Moves(w, step, id, w.disk.rows[id].phase, to))
  {
  }

  lemma PhaseMovesExactly(w: World, w': World, step: Step, id: Name, to: Phase)
    requires Known(w.disk, id) && w.disk.rows[id].phase != to && w' == Apply(w, step)
    ensures id in w'.disk.rows && (w'.disk.rows[id].phase == to <==> Moves(w, step, id, w.disk.rows[id].phase, to))
  {
    if step.Create? || step.EnableDualWrite? || step.BeginBackfill? {
      CommandMoves(w, w', step, id, to);
    } else if step.Save? {
      SaveMoves(w, w', step, id, to);
    } else if step.Commit? {
      CommitMoves(w, w', step, id, to);
    } else if step.CompleteIt? || step.CompleteFinish? {
      CompleteMoves(w, w', step, id, to);
    } else if step.Rollback? || step.RollbackFinish? {
      RollbackMoves(w, w', step, id, to);
    } else {
      RowsUntouched(w, step);
    }
  }

  // ---- completion ---------------------------------------------------------------------------

  /** A whole Complete call, or the deletion of one that something disturbed. */
  ghost predicate Completes(w: World, step: Step, id: Name) {
    || (step.CompleteIt? && step.id == id)
    || (&& step.CompleteDelete? && step.call in w.admins
        && w.admins[step.call].ToComplete? && w.admins[step.call].id == id)
  }

  /** Completing, with or without deleting the source range, all at once or statement by statement, loses no
      document: the destination still holds exactly the last written values, and a deletion leaves nothing of the
      range in the source. */
  lemma CompleteLosesNothing(w: World, steps: seq<Step>, e: World, id: Name, step: Step, k: Key)
    requires Fresh(w) && CarefulRun(w, steps, id) && e == Run(w, steps)
    requires id in e.disk.rows && e.disk.rows[id].Covers(k) && Completes(e, step, id)
    requires step.CompleteIt? ==> e.disk.rows[id].phase == Cutover
    ensures var e' := Apply(e, step);
            var m := e.disk.rows[id];
            && m.source in e'.disk.stores && m.destination in e'.disk.stores
            && SameAt(e'.disk.stores[m.destination], e.written, k) && e'.written == e.written
            && (step != CompleteIt(id, false) ==> k !in e'.disk.stores[m.source])
  {
    FreshIsSafe(w, id);
    RunKeepsInv(w, steps, id);
    CompletionIsSafe(e, Apply(e, step), step, id, e.disk.rows[id], k);
  }

  lemma CompletionIsSafe(e: World, e': World, step: Step, id: Name, m: Migration, k: Key)
    requires Inv(e, id) && id in e.disk.rows && m == e.disk.rows[id] && m.Covers(k)
    requires Completes(e, step, id) && (step.CompleteIt? ==> m.phase == Cutover) && e' == Apply(e, step)
    ensures m.source in e'.disk.stores && m.destination in e'.disk.stores && e'.written == e.written
    ensures SameAt(e'.disk.stores[m.destination], e.written, k)
    ensures step != CompleteIt(id, false) ==> k !in e'.disk.stores[m.source]
  {
    AuthorityAt(e, id, k);
    assert Known(e.disk, id);
    if step.CompleteDelete? { assert AdminOk(m, e.admins[step.call]); }
    CompletionEffect(e, e', step, id, m, k);
  }

  lemma CompletionEffect(e: World, e': World, step: Step, id: Name, m: Migration, k: Key)
    requires Known(e.disk, id) && m == e.disk.rows[id] && m.source != m.destination && m.Covers(k)
    requires Completes(e, step, id) && (step.CompleteIt? ==> m.phase == Cutover) && e' == Apply(e, step)
    ensures m.source in e'.disk.stores && m.destination in e'.disk.stores && e'.written == e.written
    ensures e'.disk.stores[m.destination] == e.disk.stores[m.destination]
    ensures step != CompleteIt(id, false) ==> k !in e'.disk.stores[m.source]
  {
    CompletedStores(e.disk, id, k);
  }

  lemma CompletedStores(d: Disk, id: Name, k: Key)
    requires Known(d, id) && d.rows[id].source != d.rows[id].destination && d.rows[id].Covers(k)
    ensures var m := d.rows[id];
            var d' := DeleteFrom(d, m.source, m);
            && d'.stores.Keys == d.stores.Keys && k !in d'.stores[m.source]
            && d'.stores[m.destination] == d.stores[m.destination]
            && (m.phase == Cutover ==> CompleteRow(d, id, false).stores == d.stores)
            && (m.phase == Cutover ==> CompleteRow(d, id, true).stores == d'.stores)
  {
  }
}
