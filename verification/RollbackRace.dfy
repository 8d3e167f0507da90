/** Runs that come to grief, reached from an empty table: a rollback overtaken while a stale document is in
    flight, one overtaken by the cutover itself, a Verify call misled by a key written between its counts, and one
    that fails on equal backends. */
module RollbackRace {
  import opened KeyOrder
  import opened ShardMigration
  import opened ShardSafety
  import opened ShardAuthority
  import opened ShardLimits

  const KEY: Key := [0]
  const OTHER: Key := [1]
  const PLAN := Migration("src", "dst", [], [2], Planned, [])

  type Jobs = map<nat, Job>
  type Checks = map<nat, Check>

  function Start(doc: Doc): World {
    World(Disk(map[], map["src" := map[KEY := doc], "dst" := map[]]), map[], map[], map[], map[], {})
  }

  function Row(phase: Phase): Migration {
    PLAN.(phase := phase, checkpoint := if phase == Verify || phase == Cutover then KEY else [])
  }

  /** The one migration in the given phase, with everything written there being in the source. */
  function At(phase: Phase, src: Store, dst: Store, jobs: Jobs, checks: Checks, interrupted: set<Name>): World {
    World(Disk(map["m" := Row(phase)], map["src" := src, "dst" := dst]), jobs, checks, map[], src, interrupted)
  }

  lemma Covered(phase: Phase)
    ensures Row(phase).Covers(KEY) && Row(phase).Covers(OTHER) && PLAN.Covers(KEY)
  {
  }

  // ---- reaching a state ---------------------------------------------------------------------

  /** Some careful run leads from w to e. */
  ghost predicate Reaches(w: World, e: World) {
    exists steps :: CarefulRun(w, steps, "m") && Run(w, steps) == e
  }

  lemma ReachesSelf(w: World)
    ensures Reaches(w, w)
  {
    assert CarefulRun(w, [], "m") && Run(w, []) == w;
  }

  lemma ReachesBefore(w: World, step: Step, w': World, e: World)
    requires Admissible(w, step) && !Spoils(w, step, "m") && w' == Apply(w, step) && Reaches(w', e)
    ensures Reaches(w, e)
  {
    var steps :| CarefulRun(w', steps, "m") && Run(w', steps) == e;
    var more := [step] + steps;
    assert more[0] == step && more[1..] == steps;
    assert CarefulRun(w, more, "m") && Run(w, more) == e;
  }

  lemma ReachesThrough(w: World, mid: World, e: World)
    requires Reaches(w, mid) && Reaches(mid, e)
    ensures Reaches(w, e)
  {
    var steps :| CarefulRun(w, steps, "m") && Run(w, steps) == mid;
    ReachesAlong(w, steps, mid, e);
  }

  lemma {:induction false} ReachesAlong(w: World, steps: seq<Step>, mid: World, e: World)
    requires CarefulRun(w, steps, "m") && Run(w, steps) == mid && Reaches(mid, e)
    ensures Reaches(w, e)
    decreases |steps|
  {
    if steps != [] {
      ReachesAlong(Apply(w, steps[0]), steps[1..], mid, e);
      ReachesBefore(w, steps[0], Apply(w, steps[0]), e);
    }
  }

  // ---- the steps ----------------------------------------------------------------------------

  function Batch1(doc: Doc): Batch {
    Batch([Document(KEY, doc)], KEY, true)
  }

  lemma Created(doc: Doc)
    ensures Apply(Start(doc), Create("m", PLAN)) == At(Planned, map[KEY := doc], map[], map[], map[], {})
    ensures Admissible(Start(doc), Create("m", PLAN))
  {
    Covered(Planned);
    assert Restrict(map[KEY := doc], PLAN) == map[KEY := doc];
  }

  lemma Enabled(src: Store)
    ensures Apply(At(Planned, src, map[], map[], map[], {}), EnableDualWrite("m"))
         == At(DualWrite, src, map[], map[], map[], {})
  {
  }

  lemma Begun(src: Store)
    ensures Apply(At(DualWrite, src, map[], map[], map[], {}), BeginBackfill("m"))
         == At(Backfill, src, map[], map[], map[], {})
  {
  }

  lemma WorkerLoaded(src: Store)
    ensures Apply(At(Backfill, src, map[], map[], map[], {}), Load(0, "m"))
         == At(Backfill, src, map[], map[0 := Loaded("m", [])], map[], {})
  {
  }

  lemma OneKeyExport(doc: Doc)
    ensures ExportBatch(map[KEY := doc], Row(Backfill), [], 500) == Batch1(doc)
  {
    Covered(Backfill);
    var st := map[KEY := doc];
    assert Eligible(st, Row(Backfill), []) == {KEY};
    AscendingUnique([KEY], {KEY});
    assert Documents(st, [KEY]) == [Document(KEY, doc)];
  }

  lemma WorkerExported(doc: Doc)
    ensures Apply(At(Backfill, map[KEY := doc], map[], map[0 := Loaded("m", [])], map[], {}), Export(0, 500))
         == At(Backfill, map[KEY := doc], map[], map[0 := Exported("m", [], Batch1(doc))], map[], {})
  {
    OneKeyExport(doc);
  }

  lemma WorkerImported(doc: Doc)
    ensures Apply(At(Backfill, map[KEY := doc], map[], map[0 := Exported("m", [], Batch1(doc))], map[], {}), Import(0))
         == At(Backfill, map[KEY := doc], map[KEY := doc], map[0 := Imported("m", Batch1(doc))], map[], {})
  {
    var docs := [Document(KEY, doc)];
    assert docs[..0] == [];
    assert ImportDocs(map[], docs) == map[KEY := doc];
  }

  lemma WorkerSaved(doc: Doc)
    ensures Apply(At(Backfill, map[KEY := doc], map[KEY := doc], map[0 := Imported("m", Batch1(doc))], map[], {}),
                  Save(0))
         == At(Verify, map[KEY := doc], map[KEY := doc], map[], map[], {})
  {
  }

  lemma BothTargets(phase: Phase, k: Key)
    requires (phase == Backfill || phase == Verify) && (k == KEY || k == OTHER)
    ensures Targets(map["m" := Row(phase)], k) == {"src", "dst"}
  {
    Covered(phase);
    var rows := map["m" := Row(phase)];
    assert Row(phase).Targets() == {"src", "dst"};
    forall n <- Row(phase).Targets() ensures n in Targets(rows, k) { assert "m" in rows; }
  }

  lemma Upserted(src: Store, dst: Store, k: Key, doc: Doc)
    ensures Upsert(map["src" := src, "dst" := dst], {"src", "dst"}, k, doc)
         == map["src" := src[k := doc], "dst" := dst[k := doc]]
  {
  }

  lemma Written(phase: Phase, src: Store, dst: Store, jobs: Jobs, checks: Checks, interrupted: set<Name>, k: Key,
                doc: Doc)
    requires (phase == Backfill || phase == Verify) && (k == KEY || k == OTHER)
    ensures Apply(At(phase, src, dst, jobs, checks, interrupted), Write(k, doc))
         == At(phase, src[k := doc], dst[k := doc], jobs, checks, interrupted)
  {
    BothTargets(phase, k);
    Upserted(src, dst, k, doc);
  }

  // ---- a backfill under way, and one that is over -------------------------------------------

  lemma ReachBackfill(doc: Doc, e: World)
    requires Reaches(At(Backfill, map[KEY := doc], map[], map[], map[], {}), e)
    ensures Reaches(Start(doc), e)
  {
    var src := map[KEY := doc];
    Created(doc);
    Enabled(src);
    Begun(src);
    var planned, dual := At(Planned, src, map[], map[], map[], {}), At(DualWrite, src, map[], map[], map[], {});
    ReachesBefore(dual, BeginBackfill("m"), At(Backfill, src, map[], map[], map[], {}), e);
    ReachesBefore(planned, EnableDualWrite("m"), dual, e);
    ReachesBefore(Start(doc), Create("m", PLAN), At(Planned, src, map[], map[], map[], {}), e);
  }

  lemma ReachExported(doc: Doc, e: World)
    requires Reaches(At(Backfill, map[KEY := doc], map[], map[0 := Exported("m", [], Batch1(doc))], map[], {}), e)
    ensures Reaches(Start(doc), e)
  {
    var src := map[KEY := doc];
    WorkerLoaded(src);
    WorkerExported(doc);
    var loaded := At(Backfill, src, map[], map[0 := Loaded("m", [])], map[], {});
    var exported := At(Backfill, src, map[], map[0 := Exported("m", [], Batch1(doc))], map[], {});
    ReachesBefore(loaded, Export(0, 500), exported, e);
    ReachesBefore(At(Backfill, src, map[], map[], map[], {}), Load(0, "m"), loaded, e);
    ReachBackfill(doc, e);
  }

  lemma ReachVerify(doc: Doc)
    ensures Reaches(Start(doc), At(Verify, map[KEY := doc], map[KEY := doc], map[], map[], {}))
  {
    var src := map[KEY := doc];
    var e := At(Verify, src, src, map[], map[], {});
    var imported := At(Backfill, src, src, map[0 := Imported("m", Batch1(doc))], map[], {});
    WorkerImported(doc);
    WorkerSaved(doc);
    ReachesSelf(e);
    ReachesBefore(imported, Save(0), e, e);
    var exported := At(Backfill, src, map[], map[0 := Exported("m", [], Batch1(doc))], map[], {});
    ReachesBefore(exported, Import(0), imported, e);
    ReachExported(doc, e);
  }

  // ---- a rollback overtaken while a stale document is in flight -----------------------------

  /** A rollback has looked at the phase and is about to delete. */
  function Tested(w: World, checkpoint: Key): World {
    w.(admins := map[0 := ToRollBack("m", checkpoint)])
  }

  lemma RollbackTested(phase: Phase, src: Store, dst: Store, jobs: Jobs)
    requires phase == Backfill || phase == Verify
    ensures var w := At(phase, src, dst, jobs, map[], {});
            Apply(w, RollbackTest(0, "m")) == Tested(w, Row(phase).checkpoint)
  {
  }

  /** A write has replaced the document in flight. */
  function Overtaken(stale: Doc, latest: Doc): World {
    At(Backfill, map[KEY := latest], map[KEY := latest], map[0 := Exported("m", [], Batch1(stale))], map[], {})
  }

  lemma ReachOvertaken(stale: Doc, latest: Doc, e: World)
    requires Reaches(Overtaken(stale, latest), e)
    ensures Reaches(Start(stale), e)
  {
    var exported := At(Backfill, map[KEY := stale], map[], map[0 := Exported("m", [], Batch1(stale))], map[], {});
    Written(Backfill, map[KEY := stale], map[], exported.jobs, map[], {}, KEY, latest);
    assert map[KEY := stale][KEY := latest] == map[KEY := latest];
    ReachesBefore(exported, Write(KEY, latest), Overtaken(stale, latest), e);
    ReachExported(stale, e);
  }

  /** For any two different values a careful run leads to a state in which the deletion of a rollback spoils the
      migration, and from there a careful run leads to the older value being served. */
  lemma InterruptedRollbackServesStaleData(stale: Doc, latest: Doc)
    requires stale != latest
    ensures var e := Tested(Overtaken(stale, latest), []);
            && Reaches(Start(stale), e) && Spoils(e, RollbackDelete(0), "m")
            && CanServe(Apply(e, RollbackDelete(0)), "m", Document(KEY, stale))
  {
    var w := Overtaken(stale, latest);
    var e := Tested(w, []);
    RollbackTested(Backfill, map[KEY := latest], map[KEY := latest], w.jobs);
    ReachesSelf(e);
    ReachesBefore(w, RollbackTest(0, "m"), e, e);
    ReachOvertaken(stale, latest, e);
    ReachedIsSafe(stale, e);
    assert StaleIn(e, "m", 0, Document(KEY, stale));
    StaleBatchServed(e, 0, "m", 0, Document(KEY, stale));
  }

  lemma ReachedIsSafe(doc: Doc, e: World)
    requires Reaches(Start(doc), e)
    ensures Inv(e, "m")
  {
    var steps :| CarefulRun(Start(doc), steps, "m") && Run(Start(doc), steps) == e;
    FreshIsSafe(Start(doc), "m");
    RunKeepsInv(Start(doc), steps, "m");
  }

  // ---- a key written between the two counts -------------------------------------------------

  /** The backfill is over and the backends are equal. */
  function Equal(a: Doc): World {
    At(Verify, map[KEY := a], map[KEY := a], map[], map[], {})
  }

  const COUNTED: Checks := map[0 := Counted("m", KEY, {KEY})]

  /** A Verify call counts the source, and then a new key is written. */
  function Disturb(w: World, b: Doc): World {
    Apply(Apply(Apply(w, VerifyStart(0, "m")), CountSource(0)), Write(OTHER, b))
  }

  lemma Asking(src: Store, dst: Store, interrupted: set<Name>)
    ensures Apply(At(Verify, src, dst, map[], map[], interrupted), VerifyStart(0, "m"))
         == At(Verify, src, dst, map[], map[0 := Asked("m", KEY)], interrupted)
  {
  }

  lemma Counting(a: Doc, dst: Store, interrupted: set<Name>)
    ensures Apply(At(Verify, map[KEY := a], dst, map[], map[0 := Asked("m", KEY)], interrupted), CountSource(0))
         == At(Verify, map[KEY := a], dst, map[], COUNTED, interrupted)
  {
    Covered(Verify);
    assert Restrict(map[KEY := a], Row(Verify)).Keys == {KEY};
  }

  lemma Disturbed(a: Doc, b: Doc, dst: Store, interrupted: set<Name>)
    ensures Disturb(At(Verify, map[KEY := a], dst, map[], map[], interrupted), b)
         == At(Verify, map[KEY := a][OTHER := b], dst[OTHER := b], map[], COUNTED, interrupted)
  {
    Asking(map[KEY := a], dst, interrupted);
    Counting(a, dst, interrupted);
    Written(Verify, map[KEY := a], dst, map[], COUNTED, interrupted, OTHER, b);
  }

  function Both(a: Doc, b: Doc): Store {
    map[KEY := a][OTHER := b]
  }

  lemma Sizes(a: Doc, b: Doc, phase: Phase)
    ensures Restrict(Both(a, b), Row(phase)) == Both(a, b) && |Both(a, b)| == 2
    ensures Restrict(map[OTHER := b], Row(phase)) == map[OTHER := b]
  {
    Covered(phase);
    assert KEY != OTHER;
  }

  lemma CountDisagrees(a: Doc, b: Doc)
    ensures Apply(At(Verify, Both(a, b), Both(a, b), map[], COUNTED, {}), CountDestination(0))
         == At(Verify, Both(a, b), Both(a, b), map[], map[], {})
  {
    Sizes(a, b, Verify);
  }

  /** A key written between the counts fails the call although the backends are equal. */
  lemma NewKeyFailsVerify(a: Doc, b: Doc)
    ensures Reaches(Start(a), Equal(a))
    ensures Disturb(Equal(a), b) == At(Verify, Both(a, b), Both(a, b), map[], COUNTED, {})
    ensures Apply(Disturb(Equal(a), b), CountDestination(0)) == At(Verify, Both(a, b), Both(a, b), map[], map[], {})
  {
    ReachVerify(a);
    Disturbed(a, b, map[KEY := a], {});
    CountDisagrees(a, b);
  }

  /** A Verify call that counted one key in the source finds one in the destination, not the same one. */
  function Misled(a: Doc, b: Doc, checks: Checks): World {
    At(Verify, Both(a, b), map[OTHER := b], map[], checks, {"m"})
  }

  /** A rollback that stops after its deletion. */
  function Interrupt(w: World): World {
    Apply(Apply(Apply(w, RollbackTest(0, "m")), RollbackDelete(0)), AdminCrash(0))
  }

  /** The destination is empty and the rollback has not gone on. */
  function HalfWay(a: Doc): World {
    At(Verify, map[KEY := a], map[], map[], map[], {"m"}).(admins := map[0 := RollingBack("m", KEY)])
  }

  lemma Emptied(a: Doc, phase: Phase)
    ensures DeleteFrom(Disk(map["m" := Row(phase)], map["src" := map[KEY := a], "dst" := map[KEY := a]]),
                       "dst", Row(phase))
         == Disk(map["m" := Row(phase)], map["src" := map[KEY := a], "dst" := map[]])
  {
    Covered(phase);
    assert WithoutRange(map[KEY := a], Row(phase)) == map[];
  }

  lemma Deleted(a: Doc)
    ensures Apply(Tested(Equal(a), KEY), RollbackDelete(0)) == HalfWay(a)
  {
    Emptied(a, Verify);
  }

  lemma DeletionIsHarmless(a: Doc)
    ensures !Spoils(Tested(Equal(a), KEY), RollbackDelete(0), "m")
  {
  }

  lemma Stopped(a: Doc)
    ensures Apply(HalfWay(a), AdminCrash(0)) == At(Verify, map[KEY := a], map[], map[], map[], {"m"})
  {
    assert HalfWay(a).admins - {0} == map[];
  }

  lemma Interrupted(a: Doc)
    ensures Interrupt(Equal(a)) == At(Verify, map[KEY := a], map[], map[], map[], {"m"})
    ensures !Spoils(Apply(Equal(a), RollbackTest(0, "m")), RollbackDelete(0), "m")
  {
    RollbackTested(Verify, map[KEY := a], map[KEY := a], map[]);
    Deleted(a);
    DeletionIsHarmless(a);
    Stopped(a);
  }

  lemma CountMisleads(a: Doc, b: Doc)
    ensures Spoils(Misled(a, b, COUNTED), CountDestination(0), "m")
    ensures Apply(Misled(a, b, COUNTED), CountDestination(0)) == Misled(a, b, map[0 := Matched("m", KEY)])
  {
    Sizes(a, b, Verify);
    assert |map[OTHER := b]| == 1 && |{KEY}| == 1;
  }

  lemma CutOver(a: Doc, b: Doc)
    ensures Apply(Misled(a, b, map[0 := Matched("m", KEY)]), Commit(0))
         == At(Cutover, Both(a, b), map[OTHER := b], map[], map[], {"m"})
  {
  }

  /** After a rollback that stopped half way, with nothing in flight, the new key makes the counts agree: the
      call enters cutover with the old key lost. */
  lemma InterruptedVerifyLosesKey(a: Doc, b: Doc)
    ensures Reaches(Start(a), Equal(a))
    ensures !Spoils(Apply(Equal(a), RollbackTest(0, "m")), RollbackDelete(0), "m")
    ensures Disturb(Interrupt(Equal(a)), b) == Misled(a, b, COUNTED)
    ensures Spoils(Misled(a, b, COUNTED), CountDestination(0), "m")
    ensures Apply(Apply(Misled(a, b, COUNTED), CountDestination(0)), Commit(0))
         == At(Cutover, Both(a, b), map[OTHER := b], map[], map[], {"m"})
    ensures KEY in Both(a, b) && KEY !in map[OTHER := b]
  {
    ReachVerify(a);
    Interrupted(a);
    Disturbed(a, b, map[], {"m"});
    assert map[][OTHER := b] == map[OTHER := b];
    CountMisleads(a, b);
    CutOver(a, b);
  }

  // ---- a rollback overtaken by the cutover --------------------------------------------------

  /** The backends are equal and the rollback waits to delete. */
  function Waiting(phase: Phase, a: Doc, checks: Checks): World {
    Tested(At(phase, map[KEY := a], map[KEY := a], map[], checks, {}), KEY)
  }

  lemma StartOvertakes(a: Doc)
    ensures Apply(Waiting(Verify, a, map[]), VerifyStart(0, "m")) == Waiting(Verify, a, map[0 := Asked("m", KEY)])
  {
  }

  lemma SourceOvertakes(a: Doc)
    ensures Apply(Waiting(Verify, a, map[0 := Asked("m", KEY)]), CountSource(0)) == Waiting(Verify, a, COUNTED)
  {
    Covered(Verify);
    assert Restrict(map[KEY := a], Row(Verify)).Keys == {KEY};
  }

  lemma OneKey(a: Doc, phase: Phase)
    ensures Restrict(map[KEY := a], Row(phase)) == map[KEY := a] && |map[KEY := a]| == 1 && |{KEY}| == 1
  {
    Covered(phase);
  }

  lemma CountOvertakes(a: Doc)
    ensures Apply(Waiting(Verify, a, COUNTED), CountDestination(0)) == Waiting(Verify, a, map[0 := Matched("m", KEY)])
  {
    OneKey(a, Verify);
  }

  lemma CountIsHarmless(a: Doc)
    ensures !Spoils(Waiting(Verify, a, COUNTED), CountDestination(0), "m")
  {
    OneKey(a, Verify);
  }

  lemma CommitOvertakes(a: Doc)
    ensures Apply(Waiting(Verify, a, map[0 := Matched("m", KEY)]), Commit(0)) == Waiting(Cutover, a, map[])
  {
  }

  lemma ReachWaiting(a: Doc, e: World)
    requires Reaches(Waiting(Verify, a, map[]), e)
    ensures Reaches(Start(a), e)
  {
    RollbackTested(Verify, map[KEY := a], map[KEY := a], map[]);
    ReachesBefore(Equal(a), RollbackTest(0, "m"), Waiting(Verify, a, map[]), e);
    ReachVerify(a);
    ReachesThrough(Start(a), Equal(a), e);
  }

  /** A rollback looks at the phase, a Verify call takes the row through cutover, and the rollback deletes: the
      authority is empty although a key was written. */
  lemma RollbackAfterCutoverLosesAll(a: Doc)
    ensures Reaches(Start(a), Waiting(Cutover, a, map[]))
    ensures Spoils(Waiting(Cutover, a, map[]), RollbackDelete(0), "m")
    ensures var e := Apply(Waiting(Cutover, a, map[]), RollbackDelete(0));
            && e.disk.rows["m"].phase == Cutover && e.disk.stores["dst"] == map[] && e.written == map[KEY := a]
  {
    var e := Waiting(Cutover, a, map[]);
    StartOvertakes(a);
    SourceOvertakes(a);
    CountOvertakes(a);
    CountIsHarmless(a);
    CommitOvertakes(a);
    ReachesSelf(e);
    ReachesBefore(Waiting(Verify, a, map[0 := Matched("m", KEY)]), Commit(0), e, e);
    ReachesBefore(Waiting(Verify, a, COUNTED), CountDestination(0), Waiting(Verify, a, map[0 := Matched("m", KEY)]), e);
    ReachesBefore(Waiting(Verify, a, map[0 := Asked("m", KEY)]), CountSource(0), Waiting(Verify, a, COUNTED), e);
    ReachesBefore(Waiting(Verify, a, map[]), VerifyStart(0, "m"), Waiting(Verify, a, map[0 := Asked("m", KEY)]), e);
    ReachWaiting(a, e);
    EmptiesAuthority(a);
  }

  lemma EmptiesAuthority(a: Doc)
    ensures Spoils(Waiting(Cutover, a, map[]), RollbackDelete(0), "m")
    ensures Apply(Waiting(Cutover, a, map[]), RollbackDelete(0)).disk
         == Disk(map["m" := Row(Cutover)], map["src" := map[KEY := a], "dst" := map[]])
  {
    OneKey(a, Cutover);
    Emptied(a, Cutover);
  }
}
