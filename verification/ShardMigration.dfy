/** Online shard migration: the migration row, the two backends, and every step that the runtime
    takes on them. Keys are byte strings, documents are opaque, and a backend is a map. */
module ShardMigration {
  import opened KeyOrder

  type Name = string
  type Doc = seq<int>
  type Store = map<Key, Doc>

  datatype Phase = Planned | DualWrite | Backfill | Verify | Cutover | Complete | RolledBack

  datatype Migration = Migration(
    source: Name, destination: Name, start: Key, end: Key, phase: Phase, checkpoint: Key)
  {
    predicate Covers(k: Key) { !Less(k, start) && Less(k, end) }

    /** The backends that a write to a covered key is routed to. */
    function Targets(): set<Name> {
      match phase
      case Planned => {source}
      case DualWrite | Backfill | Verify => {source, destination}
      case Cutover | Complete => {destination}
      case RolledBack => {}
    }

    /** The backend that answers for the range. */
    function Authority(): Name {
      if phase.Cutover? || phase.Complete? then destination else source
    }
  }

  datatype Document = Document(key: Key, data: Doc)
  datatype Batch = Batch(documents: seq<Document>, next: Key, done: bool)

  /** The durable part: the migration table and the backends. */
  datatype Disk = Disk(rows: map<Name, Migration>, stores: map<Name, Store>)

  // ---- backend operations -------------------------------------------------------------------

  function Restrict(st: Store, m: Migration): Store {
    map k | k in st && m.Covers(k) :: st[k]
  }

  function WithoutRange(st: Store, m: Migration): Store {
    map k | k in st && !m.Covers(k) :: st[k]
  }

  /** The keys that the export query selects; an empty `after` is no filter at all. */
  function Eligible(st: Store, m: Migration, after: Key): set<Key> {
    set k | k in st && m.Covers(k) && (after == [] || Less(after, k))
  }

  function Take(s: seq<Key>, n: nat): (r: seq<Key>)
    ensures forall k <- r :: k in s
  {
    if |s| <= n then s else s[..n]
  }

  function Documents(st: Store, keys: seq<Key>): seq<Document>
    requires forall k <- keys :: k in st
  {
    seq(|keys|, i requires 0 <= i < |keys| => Document(keys[i], st[keys[i]]))
  }

  function ExportBatch(st: Store, m: Migration, after: Key, limit: nat): Batch {
    var keys := Take(Sorted(Eligible(st, m, after)), limit);
    Batch(Documents(st, keys), if keys == [] then [] else keys[|keys| - 1], |keys| < limit)
  }

  /** Row-by-row insert that keeps an existing row. */
  function ImportDocs(st: Store, docs: seq<Document>): (r: Store)
    ensures forall k <- st :: k in r && r[k] == st[k]
    ensures forall k <- r :: k in st || Document(k, r[k]) in docs
    ensures forall d <- docs :: d.key in r
  {
    if docs == [] then st
    else
      var n := |docs| - 1;
      var before := ImportDocs(st, docs[..n]);
      assert docs == docs[..n] + [docs[n]];
      if docs[n].key in before then before else before[docs[n].key := docs[n].data]
  }

  // ---- coordinator operations on the durable state ------------------------------------------

  function SetPhase(d: Disk, id: Name, from: set<Phase>, to: Phase, checkpoint: Key): Disk {
    if id in d.rows && d.rows[id].phase in from
    then d.(rows := d.rows[id := d.rows[id].(phase := to, checkpoint := checkpoint)])
    else d
  }

  function Targets(rows: map<Name, Migration>, k: Key): set<Name> {
    set id, n | id in rows && rows[id].Covers(k) && n in rows[id].Targets() :: n
  }

  function Upsert(stores: map<Name, Store>, targets: set<Name>, k: Key, doc: Doc): map<Name, Store> {
    map n | n in stores :: if n in targets then stores[n][k := doc] else stores[n]
  }

  /** A row whose two backends are registered. */
  predicate Known(d: Disk, id: Name) {
    id in d.rows && d.rows[id].source in d.stores && d.rows[id].destination in d.stores
  }

  function CreateRow(d: Disk, id: Name, m: Migration): Disk {
    if id != "" && m.source != "" && m.destination != "" && m.source != m.destination
       && m.source in d.stores && m.destination in d.stores && id !in d.rows
    then d.(rows := d.rows[id := m.(phase := Planned, checkpoint := [])])
    else d
  }

  function ImportInto(d: Disk, id: Name, docs: seq<Document>): Disk
    requires Known(d, id)
  {
    var n := d.rows[id].destination;
    d.(stores := d.stores[n := ImportDocs(d.stores[n], docs)])
  }

  function SaveCheckpoint(d: Disk, id: Name, batch: Batch): Disk {
    if batch.done then SetPhase(d, id, {Backfill}, Verify, batch.next)
    else SetPhase(d, id, {Backfill}, Backfill, batch.next)
  }

  function DeleteFrom(d: Disk, n: Name, m: Migration): Disk
    requires n in d.stores
  {
    d.(stores := d.stores[n := WithoutRange(d.stores[n], m)])
  }

  function CountRange(d: Disk, n: Name, m: Migration): nat
    requires n in d.stores
  {
    |Restrict(d.stores[n], m)|
  }

  /** A whole Verify call that nothing disturbs. */
  function VerifyRow(d: Disk, id: Name): Disk {
    if Known(d, id) && d.rows[id].phase == Verify
       && CountRange(d, d.rows[id].source, d.rows[id]) == CountRange(d, d.rows[id].destination, d.rows[id])
    then SetPhase(d, id, {Verify}, Cutover, d.rows[id].checkpoint)
    else d
  }

  /** What Complete deletes. */
  function EmptySource(d: Disk, id: Name): Disk {
    if id in d.rows && d.rows[id].phase == Cutover && d.rows[id].source in d.stores
    then DeleteFrom(d, d.rows[id].source, d.rows[id])
    else d
  }

  /** A whole Complete call that nothing disturbs. */
  function CompleteRow(d: Disk, id: Name, deleteSource: bool): Disk {
    if id in d.rows && d.rows[id].phase == Cutover && (deleteSource ==> d.rows[id].source in d.stores)
    then SetPhase(if deleteSource then EmptySource(d, id) else d, id, {Cutover}, Complete, d.rows[id].checkpoint)
    else d
  }

  /** What Rollback deletes. */
  function EmptyDestination(d: Disk, id: Name): Disk {
    if id in d.rows && !d.rows[id].phase.Cutover? && !d.rows[id].phase.Complete? && d.rows[id].destination in d.stores
    then DeleteFrom(d, d.rows[id].destination, d.rows[id])
    else d
  }

  /** A whole Rollback call that nothing disturbs. */
  function RollbackRow(d: Disk, id: Name): Disk {
    if id in d.rows && d.rows[id].destination in d.stores
    then SetPhase(EmptyDestination(d, id), id, {Planned, DualWrite, Backfill, Verify}, RolledBack,
                  d.rows[id].checkpoint)
    else d
  }

  // ---- runs ---------------------------------------------------------------------------------

  /** What one backfill worker holds in memory between its reads and writes. */
  datatype Job =
    | Loaded(id: Name, checkpoint: Key)
    | Exported(id: Name, checkpoint: Key, batch: Batch)
    | Imported(id: Name, batch: Batch)

  /** What one Verify call holds in memory between its statements. Of the keys it counted in the source the
      call itself knows only how many they are. */
  datatype Check =
    | Asked(id: Name, checkpoint: Key)
    | Counted(id: Name, checkpoint: Key, keys: set<Key>)
    | Matched(id: Name, checkpoint: Key)

  /** What one Rollback or Complete call holds in memory between its statements. */
  datatype Admin =
    | ToRollBack(id: Name, checkpoint: Key)
    | RollingBack(id: Name, checkpoint: Key)
    | ToComplete(id: Name, checkpoint: Key)
    | Completing(id: Name, checkpoint: Key)

  /** The whole system. `written` records the last value written to each covered key, and `interrupted`
      the migrations whose destination a disturbed rollback emptied after the copying had begun. */
  datatype World = World(
    disk: Disk, jobs: map<nat, Job>, checks: map<nat, Check>, admins: map<nat, Admin>, written: Store,
    interrupted: set<Name>)

  datatype Step =
    | Create(id: Name, m: Migration)
    | EnableDualWrite(id: Name)
    | BeginBackfill(id: Name)
    | Load(worker: nat, id: Name)
    | Export(worker: nat, limit: int)
    | Import(worker: nat)
    | Save(worker: nat)
    | WorkerCrash(worker: nat)
    | VerifyStart(call: nat, id: Name)
    | CountSource(call: nat)
    | CountDestination(call: nat)
    | Commit(call: nat)
    | VerifyCrash(call: nat)
    | CompleteIt(id: Name, deleteSource: bool)
    | CompleteTest(call: nat, id: Name, deleteSource: bool)
    | CompleteDelete(call: nat)
    | CompleteFinish(call: nat)
    | Rollback(id: Name)
    | RollbackTest(call: nat, id: Name)
    | RollbackDelete(call: nat)
    | RollbackFinish(call: nat)
    | AdminCrash(call: nat)
    | Write(key: Key, doc: Doc)

  function Limit(limit: int): nat {
    if limit <= 0 then 500 else limit
  }

  /** The backfill has begun and the migration was not rolled back. */
  predicate Begun(phase: Phase) {
    phase in {Backfill, Verify, Cutover, Complete}
  }

  /** The migration is between the start of its backfill and its cutover. */
  predicate Copying(w: World, id: Name) {
    Known(w.disk, id) && (w.disk.rows[id].phase == Backfill || w.disk.rows[id].phase == Verify)
  }

  /** A new row also starts the record of what is written in its range. */
  function DoCreate(w: World, id: Name, m: Migration): World {
    var disk := CreateRow(w.disk, id, m);
    if disk == w.disk then w
    else if m.source in disk.stores
    then w.(disk := disk, written := WithoutRange(w.written, m) + Restrict(disk.stores[m.source], m))
    else w
  }

  function DoLoad(w: World, worker: nat, id: Name): World {
    if Known(w.disk, id) && w.disk.rows[id].phase == Backfill
    then w.(jobs := w.jobs[worker := Loaded(id, w.disk.rows[id].checkpoint)])
    else w
  }

  function DoExport(w: World, worker: nat, limit: int): World {
    if worker in w.jobs && w.jobs[worker].Loaded? && Known(w.disk, w.jobs[worker].id)
    then
      var job := w.jobs[worker];
      var m := w.disk.rows[job.id];
      var batch := ExportBatch(w.disk.stores[m.source], m, job.checkpoint, Limit(limit));
      w.(jobs := w.jobs[worker := Exported(job.id, job.checkpoint, batch)])
    else w
  }

  function DoImport(w: World, worker: nat): World {
    if worker in w.jobs && w.jobs[worker].Exported? && Known(w.disk, w.jobs[worker].id)
    then
      var job := w.jobs[worker];
      w.(disk := ImportInto(w.disk, job.id, job.batch.documents),
         jobs := w.jobs[worker := Imported(job.id, job.batch)])
    else w
  }

  function DoSave(w: World, worker: nat): World {
    if worker in w.jobs && w.jobs[worker].Imported?
    then w.(disk := SaveCheckpoint(w.disk, w.jobs[worker].id, w.jobs[worker].batch), jobs := w.jobs - {worker})
    else w
  }

  function DoVerifyStart(w: World, call: nat, id: Name): World {
    if Known(w.disk, id) && w.disk.rows[id].phase == Verify
    then w.(checks := w.checks[call := Asked(id, w.disk.rows[id].checkpoint)])
    else w
  }

  function DoCountSource(w: World, call: nat): World {
    if call in w.checks && w.checks[call].Asked? && Known(w.disk, w.checks[call].id)
    then
      var check := w.checks[call];
      var m := w.disk.rows[check.id];
      w.(checks := w.checks[call := Counted(check.id, check.checkpoint, Restrict(w.disk.stores[m.source], m).Keys)])
    else w
  }

  function DoCountDestination(w: World, call: nat): World {
    if call in w.checks && w.checks[call].Counted? && Known(w.disk, w.checks[call].id)
    then
      var check := w.checks[call];
      var m := w.disk.rows[check.id];
      if CountRange(w.disk, m.destination, m) == |check.keys|
      then w.(checks := w.checks[call := Matched(check.id, check.checkpoint)])
      else w.(checks := w.checks - {call})
    else w
  }

  function DoCommit(w: World, call: nat): World {
    if call in w.checks && w.checks[call].Matched?
    then w.(disk := SetPhase(w.disk, w.checks[call].id, {Verify}, Cutover, w.checks[call].checkpoint),
            checks := w.checks - {call})
    else w
  }

  function DoCompleteTest(w: World, call: nat, id: Name, deleteSource: bool): World {
    if id in w.disk.rows && w.disk.rows[id].phase == Cutover
       && (deleteSource ==> w.disk.rows[id].source in w.disk.stores)
    then
      var cp := w.disk.rows[id].checkpoint;
      w.(admins := w.admins[call := if deleteSource then ToComplete(id, cp) else Completing(id, cp)])
    else w
  }

  function DoCompleteDelete(w: World, call: nat): World {
    if call in w.admins && w.admins[call].ToComplete? && Known(w.disk, w.admins[call].id)
    then
      var admin := w.admins[call];
      var m := w.disk.rows[admin.id];
      w.(disk := DeleteFrom(w.disk, m.source, m), admins := w.admins[call := Completing(admin.id, admin.checkpoint)])
    else w
  }

  function DoCompleteFinish(w: World, call: nat): World {
    if call in w.admins && w.admins[call].Completing?
    then w.(disk := SetPhase(w.disk, w.admins[call].id, {Cutover}, Complete, w.admins[call].checkpoint),
            admins := w.admins - {call})
    else w
  }

  function DoRollbackTest(w: World, call: nat, id: Name): World {
    if id in w.disk.rows && !w.disk.rows[id].phase.Cutover? && !w.disk.rows[id].phase.Complete?
       && w.disk.rows[id].destination in w.disk.stores
    then w.(admins := w.admins[call := ToRollBack(id, w.disk.rows[id].checkpoint)])
    else w
  }

  /** The deletion does not look at the phase again. */
  function DoRollbackDelete(w: World, call: nat): World {
    if call in w.admins && w.admins[call].ToRollBack? && Known(w.disk, w.admins[call].id)
    then
      var admin := w.admins[call];
      var m := w.disk.rows[admin.id];
      w.(disk := DeleteFrom(w.disk, m.destination, m),
         admins := w.admins[call := RollingBack(admin.id, admin.checkpoint)],
         interrupted := if Begun(m.phase) then w.interrupted + {admin.id} else w.interrupted)
    else w
  }

  function DoRollbackFinish(w: World, call: nat): World {
    if call in w.admins && w.admins[call].RollingBack?
    then w.(disk := SetPhase(w.disk, w.admins[call].id, {Planned, DualWrite, Backfill, Verify}, RolledBack,
                             w.admins[call].checkpoint),
            admins := w.admins - {call})
    else w
  }

  function DoWrite(w: World, key: Key, doc: Doc): World {
    var targets := Targets(w.disk.rows, key);
    if targets == {} then w
    else w.(disk := w.disk.(stores := Upsert(w.disk.stores, targets, key, doc)), written := w.written[key := doc])
  }

  function Apply(w: World, step: Step): World {
    match step
    case Create(id, m) => DoCreate(w, id, m)
    case EnableDualWrite(id) => w.(disk := SetPhase(w.disk, id, {Planned}, DualWrite, []))
    case BeginBackfill(id) => w.(disk := SetPhase(w.disk, id, {DualWrite}, Backfill, []))
    case Load(worker, id) => DoLoad(w, worker, id)
    case Export(worker, limit) => DoExport(w, worker, limit)
    case Import(worker) => DoImport(w, worker)
    case Save(worker) => DoSave(w, worker)
    case WorkerCrash(worker) => w.(jobs := w.jobs - {worker})
    case VerifyStart(call, id) => DoVerifyStart(w, call, id)
    case CountSource(call) => DoCountSource(w, call)
    case CountDestination(call) => DoCountDestination(w, call)
    case Commit(call) => DoCommit(w, call)
    case VerifyCrash(call) => w.(checks := w.checks - {call})
    case CompleteIt(id, deleteSource) => w.(disk := CompleteRow(w.disk, id, deleteSource))
    case CompleteTest(call, id, deleteSource) => DoCompleteTest(w, call, id, deleteSource)
    case CompleteDelete(call) => DoCompleteDelete(w, call)
    case CompleteFinish(call) => DoCompleteFinish(w, call)
    case Rollback(id) => w.(disk := RollbackRow(w.disk, id))
    case RollbackTest(call, id) => DoRollbackTest(w, call, id)
    case RollbackDelete(call) => DoRollbackDelete(w, call)
    case RollbackFinish(call) => DoRollbackFinish(w, call)
    case AdminCrash(call) => w.(admins := w.admins - {call})
    case Write(key, doc) => DoWrite(w, key, doc)
  }

  function Run(w: World, steps: seq<Step>): World
    decreases |steps|
  {
    if steps == [] then w else Run(Apply(w, steps[0]), steps[1..])
  }

  ghost predicate Disjoint(a: Migration, b: Migration) {
    forall k :: a.Covers(k) ==> !b.Covers(k)
  }

  /** What the operator guarantees of a new migration: its range is no other row's, and its destination
      has no key there. */
  ghost predicate Admissible(w: World, step: Step) {
    step.Create? ==>
      && (forall r <- w.disk.rows :: Disjoint(w.disk.rows[r], step.m) && Disjoint(step.m, w.disk.rows[r]))
      && (step.m.destination in w.disk.stores ==> Restrict(w.disk.stores[step.m.destination], step.m) == map[])
  }

  /** A batch in flight holds a document that the source has since replaced. */
  ghost predicate Stale(w: World, id: Name)
    requires Known(w.disk, id)
  {
    exists j, d :: StaleIn(w, id, j, d)
  }

  ghost predicate StaleIn(w: World, id: Name, j: nat, d: Document)
    requires Known(w.disk, id)
  {
    && j in w.jobs && w.jobs[j].Exported? && w.jobs[j].id == id && d in w.jobs[j].batch.documents
    && var src := w.disk.stores[w.disk.rows[id].source];
       d.key !in src || src[d.key] != d.data
  }

  /** A Verify call has found the counts equal and not yet entered cutover. */
  ghost predicate Deciding(w: World, id: Name) {
    exists c <- w.checks :: w.checks[c] == Matched(id, w.checks[c].checkpoint)
  }

  /** Emptying the destination now does harm: a document in flight is stale, or a Verify call is about to enter
      cutover on documents about to be deleted, or the destination is the authority and holds something. */
  ghost predicate EmptyingHurts(w: World, id: Name)
    requires Known(w.disk, id)
  {
    var m := w.disk.rows[id];
    match m.phase
    case Backfill => Stale(w, id)
    case Verify => Stale(w, id) || (Deciding(w, id) && CountRange(w.disk, m.source, m) != 0)
    case Cutover | Complete => CountRange(w.disk, m.destination, m) != 0
    case Planned | DualWrite | RolledBack => false
  }

  /** The two kinds of step that a migration does not survive: the deletion of a rollback when it does harm, and
      a count of the destination that agrees with an earlier count of the source although the source has a
      different number of keys by now. */
  ghost predicate Spoils(w: World, step: Step, id: Name) {
    Known(w.disk, id) &&
    var m := w.disk.rows[id];
    match step
    case RollbackDelete(call) =>
      call in w.admins && w.admins[call].ToRollBack? && w.admins[call].id == id && EmptyingHurts(w, id)
    case CountDestination(call) =>
      && m.phase == Verify && call in w.checks && w.checks[call].Counted? && w.checks[call].id == id
      && CountRange(w.disk, m.destination, m) == |w.checks[call].keys| != CountRange(w.disk, m.source, m)
    case _ => false
  }

  ghost predicate AdmissibleRun(w: World, steps: seq<Step>)
    decreases |steps|
  {
    steps == [] || (Admissible(w, steps[0]) && AdmissibleRun(Apply(w, steps[0]), steps[1..]))
  }

  /** An admissible run no step of which spoils the migration. */
  ghost predicate CarefulRun(w: World, steps: seq<Step>, id: Name)
    decreases |steps|
  {
    steps == [] ||
    (Admissible(w, steps[0]) && !Spoils(w, steps[0], id) && CarefulRun(Apply(w, steps[0]), steps[1..], id))
  }

  ghost predicate Fresh(w: World) {
    w.disk.rows == map[] && w.jobs == map[] && w.checks == map[] && w.admins == map[] && w.interrupted == {}
  }

  // ---- the invariant ------------------------------------------------------------------------

  /** What a migration sees: its range of the two backends and of the written values. */
  datatype View = View(src: Store, dst: Store, written: Store)

  function Look(w: World, m: Migration): View
    requires m.source in w.disk.stores && m.destination in w.disk.stores
  {
    View(Restrict(w.disk.stores[m.source], m), Restrict(w.disk.stores[m.destination], m), Restrict(w.written, m))
  }

  ghost predicate SubMap(a: Store, b: Store) {
    forall k <- a :: k in b && a[k] == b[k]
  }

  /** Every source key up to the checkpoint has reached the destination. */
  ghost predicate CopiedUpTo(v: View, checkpoint: Key) {
    checkpoint != [] ==> forall k <- v.src :: AtMost(k, checkpoint) ==> k in v.dst
  }

  ghost predicate RowOk(m: Migration, v: View, whole: bool) {
    match m.phase
    case Planned => v.src == v.written && v.dst == map[]
    case DualWrite => v.src == v.written && SubMap(v.dst, v.src)
    case Backfill => v.src == v.written && SubMap(v.dst, v.src) && (whole ==> CopiedUpTo(v, m.checkpoint))
    case Verify => v.src == v.written && SubMap(v.dst, v.src) && (whole ==> v.src.Keys <= v.dst.Keys)
    case Cutover | Complete => v.dst == v.written && v.src.Keys <= v.dst.Keys
    case RolledBack => v.src == v.written
  }

  /** An exported document is still current, or the destination already has its key. */
  ghost predicate DocOk(m: Migration, v: View, d: Document) {
    && m.Covers(d.key)
    && (m.phase == Backfill || m.phase == Verify ==>
          d.key in v.src && (v.src[d.key] == d.data || d.key in v.dst))
    && (m.phase == Cutover || m.phase == Complete ==> d.key in v.dst)
  }

  ghost predicate InBatch(b: Batch, k: Key) {
    exists i :: 0 <= i < |b.documents| && b.documents[i].key == k
  }

  /** Saving the batch's checkpoint would not skip a key that is neither copied nor in flight. */
  ghost predicate BatchReaches(v: View, b: Batch, inFlight: bool) {
    forall k <- v.src :: (b.done || (b.next != [] && AtMost(k, b.next))) ==> k in v.dst || (inFlight && InBatch(b, k))
  }

  /** No key twice. */
  ghost predicate DistinctKeys(docs: seq<Document>) {
    forall i, j :: 0 <= i < j < |docs| ==> docs[i].key != docs[j].key
  }

  ghost predicate JobOk(m: Migration, v: View, job: Job, whole: bool) {
    && m.phase != Planned && m.phase != DualWrite
    && (job.Exported? ==> DistinctKeys(job.batch.documents) && forall d <- job.batch.documents :: DocOk(m, v, d))
    && (whole && (m.phase == Backfill || m.phase == Verify) ==>
          match job
          case Loaded(_, cp) => CopiedUpTo(v, cp)
          case Exported(_, cp, b) => BatchReaches(v, b, true)
          case Imported(_, b) => BatchReaches(v, b, false))
  }

  /** A Verify call belongs to a row that has left backfill; the keys it counted are still in the source; and
      if it is about to enter cutover, it has seen equal contents, which are still equal. */
  ghost predicate CheckOk(m: Migration, v: View, check: Check) {
    && m.phase in {Verify, Cutover, Complete, RolledBack}
    && (check.Counted? && m.phase == Verify ==> check.keys <= v.src.Keys)
    && (check.Matched? && m.phase == Verify ==> v.src == v.dst)
  }

  /** A Complete call belongs to a row that has been cut over. */
  ghost predicate AdminOk(m: Migration, admin: Admin) {
    admin.ToComplete? || admin.Completing? ==> m.phase == Cutover || m.phase == Complete
  }

  /** A call of a known row, with documents of its range. */
  ghost predicate JobOf(rows: map<Name, Migration>, job: Job) {
    job.id in rows && (job.Exported? ==> forall d <- job.batch.documents :: rows[job.id].Covers(d.key))
  }

  ghost predicate CallsKnown(w: World) {
    && (forall j <- w.jobs :: JobOf(w.disk.rows, w.jobs[j]))
    && (forall c <- w.checks :: w.checks[c].id in w.disk.rows)
    && (forall c <- w.admins :: w.admins[c].id in w.disk.rows)
  }

  /** Every row has two registered backends, no key is covered twice, and calls are of known rows. */
  ghost predicate WellFormed(w: World) {
    && (forall id <- w.disk.rows :: Known(w.disk, id) && w.disk.rows[id].source != w.disk.rows[id].destination)
    && (forall a <- w.disk.rows, b <- w.disk.rows :: a != b ==> Disjoint(w.disk.rows[a], w.disk.rows[b]))
    && CallsKnown(w)
  }

  /** The migration's row, and every call of it in progress, is as it should be. */
  ghost predicate Safe(w: World, id: Name)
    requires Known(w.disk, id)
  {
    var m, whole := w.disk.rows[id], id !in w.interrupted;
    var v := Look(w, m);
    && RowOk(m, v, whole)
    && (forall j <- w.jobs :: w.jobs[j].id == id ==> JobOk(m, v, w.jobs[j], whole))
    && (forall c <- w.checks :: w.checks[c].id == id ==> CheckOk(m, v, w.checks[c]))
    && (forall c <- w.admins :: w.admins[c].id == id ==> AdminOk(m, w.admins[c]))
  }

  ghost predicate Inv(w: World, id: Name) {
    WellFormed(w) && (id in w.disk.rows ==> Safe(w, id))
  }

  /** The backend that answers for the range holds exactly the last written values. */
  ghost predicate AuthorityOk(w: World, id: Name)
    requires Known(w.disk, id)
  {
    var m := w.disk.rows[id];
    var v := Look(w, m);
    (if m.phase.Cutover? || m.phase.Complete? then v.dst else v.src) == v.written
  }
}
