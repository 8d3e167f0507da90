/** The settlement coordinator: replay before anything else, journal before memory, memory before the
    acknowledgement, over runs with crashes, torn writes and failed allocations. */
module DurableSettlement {
  import opened Common
  import opened SettlementProjection
  import opened SettlementJournal

  const MAX_U64: nat := 0xFFFF_FFFF_FFFF_FFFF

  /** What the process holds in memory. */
  datatype Memory = Memory(projection: Projection, nextSequence: nat, recovered: bool, poisoned: bool) {
    predicate Ready() { recovered && !poisoned }
  }

  const COLD := Memory(EMPTY, 1, false, false)

  /** What can go wrong inside persist, besides a crash. */
  datatype Fault =
    | NoFault
    | AppendFails(written: nat) // the write or the sync reports an error after some bytes reached the file
    | ApplyFails                // the projection cannot allocate after the append

  datatype Reply = Replied | NotReady | Rejected(error: Error) | IoError | OutOfMemory | SequenceExhausted

  function RecoverMemory(j: Journal, file: Bytes, m: Memory): Memory {
    if m.recovered || m.poisoned then m
    else
      match ReplayFrom(Parser(j), file, 0, m.projection, 0)
      case Failed(partial, _) => m.(projection := partial, poisoned := true)
      case Replayed(p, _) =>
        if p.lastSequence >= MAX_U64 then m.(projection := p)
        else m.(projection := p, nextSequence := p.lastSequence + 1, recovered := true)
  }

  function Clip(n: nat, limit: nat): nat {
    if n <= limit then n else limit
  }

  /** persist: new memory, new file, reply. The record's sequence is always the coordinator's own. */
  function PersistRecord(j: Journal, file: Bytes, m: Memory, snapshot: Record, fault: Fault): (Memory, Bytes, Reply) {
    var r := snapshot.(sequence := m.nextSequence);
    if !m.Ready() then (m, file, NotReady)
    else if Validate(m.projection, r).Some? then (m, file, Rejected(Validate(m.projection, r).value))
    else if CheckAppend(j, |file|, r).Some? then (m.(poisoned := true), file, Rejected(CheckAppend(j, |file|, r).value))
    else
      var line := Line(j, r);
      match fault
      case AppendFails(n) => (m.(poisoned := true), file + line[..Clip(n, |line|)], IoError)
      case ApplyFails => (m.(poisoned := true), file + line, OutOfMemory)
      case NoFault =>
        var p := Apply(m.projection, r).value;
        if m.nextSequence >= MAX_U64 then (m.(projection := p, poisoned := true), file + line, SequenceExhausted)
        else (m.(projection := p, nextSequence := m.nextSequence + 1), file + line, Replied)
  }

  /** A ready coordinator persists a snapshot exactly when the projection and the journal accept it under the next
      sequence number, nothing fails, and a number is left. A snapshot that the projection refuses changes nothing;
      every later failure poisons the coordinator, and memory is never ahead of the file. */
  lemma PersistExactly(j: Journal, file: Bytes, m: Memory, snapshot: Record, fault: Fault, m': Memory, file': Bytes,
                       reply: Reply)
    requires (m', file', reply) == PersistRecord(j, file, m, snapshot, fault)
    ensures var r, last := snapshot.(sequence := m.nextSequence), m.nextSequence >= 0xFFFF_FFFF_FFFF_FFFF;
            var ready := m.recovered && !m.poisoned;
            var taken := ready && Validate(m.projection, r).None? && CheckAppend(j, |file|, r).None?;
            && (reply == NotReady <==> !ready)
            && (reply == Replied <==> taken && fault == NoFault && !last)
            && (reply == SequenceExhausted <==> taken && fault == NoFault && last)
            && (reply == IoError <==> taken && fault.AppendFails?)
            && (reply == OutOfMemory <==> taken && fault.ApplyFails?)
            && (ready && !taken ==>
                  reply == Rejected(if Validate(m.projection, r).Some? then Validate(m.projection, r).value
                                    else CheckAppend(j, |file|, r).value))
    ensures var r := snapshot.(sequence := m.nextSequence);
            && (reply in {Replied, SequenceExhausted} ==> Apply(m.projection, r) == Ok(m'.projection))
            && (reply !in {Replied, SequenceExhausted} ==> m'.projection == m.projection)
            && m'.nextSequence == (if reply == Replied then m.nextSequence + 1 else m.nextSequence)
            && m'.recovered == m.recovered
            && (m'.poisoned <==> m.poisoned || (m.recovered && Validate(m.projection, r).None? && reply != Replied))
    ensures var line := Line(j, snapshot.(sequence := m.nextSequence));
            && (reply in {Replied, SequenceExhausted, OutOfMemory} ==> file' == file + line)
            && (reply == IoError ==> exists n :: 0 <= n <= |line| && file' == file + line[..n])
            && (reply == NotReady || reply.Rejected? ==> file' == file)
  {
  }

  // ---- runs ---------------------------------------------------------------------------------

  /** File, memory, and the history: the records whose whole line was written and the keys whose
      acknowledgement was sent. */
  datatype Node = Node(file: Bytes, mem: Memory, log: seq<Record>, acked: seq<Bytes>)

  datatype Step =
    | Recover
    | Persist(snapshot: Record, fault: Fault)
    | Commit(snapshot: Record, fault: Fault, ackSent: bool)
    | AckIfSettled(key: Bytes, ackSent: bool)
    | CrashInPersist(snapshot: Record, written: nat)
    | Restart

  predicate Appends(j: Journal, n: Node, snapshot: Record) {
    var r := snapshot.(sequence := n.mem.nextSequence);
    n.mem.Ready() && Validate(n.mem.projection, r).None? && CheckAppend(j, |n.file|, r).None?
  }

  function PersistStep(j: Journal, n: Node, snapshot: Record, fault: Fault): Node {
    var (m, f, _) := PersistRecord(j, n.file, n.mem, snapshot, fault);
    var r := snapshot.(sequence := n.mem.nextSequence);
    var whole := Appends(j, n, snapshot) && |f| == |n.file| + |Line(j, r)|;
    n.(file := f, mem := m, log := if whole then n.log + [r] else n.log)
  }

  function Do(j: Journal, n: Node, step: Step): Node {
    match step
    case Recover => n.(mem := RecoverMemory(j, n.file, n.mem))
    case Persist(snapshot, fault) => PersistStep(j, n, snapshot, fault)
    case Commit(snapshot, fault, ackSent) =>
      if !snapshot.state.Settled() then n
      else
        var n' := PersistStep(j, n, snapshot, fault);
        if PersistRecord(j, n.file, n.mem, snapshot, fault).2 == Replied && ackSent
        then n'.(acked := n'.acked + [snapshot.idempotencyKey])
        else n'
    case AckIfSettled(key, ackSent) =>
      if n.mem.Ready() && IsSettled(n.mem.projection, key) && ackSent
      then n.(acked := n.acked + [key])
      else n
    case CrashInPersist(snapshot, written) => PersistStep(j, n, snapshot, AppendFails(written)).(mem := COLD)
    case Restart => n.(mem := COLD)
  }

  function Run(j: Journal, n: Node, steps: seq<Step>): Node {
    if steps == [] then n else Do(j, Run(j, n, steps[..|steps| - 1]), steps[|steps| - 1])
  }

  const NEW_NODE := Node([], COLD, [], [])

  predicate CleanTail(file: Bytes) {
    file == [] || file[|file| - 1] == LF
  }

  /** No append behind an unfinished line. */
  predicate Admissible(n: Node, step: Step) {
    (step.Persist? || step.Commit? || step.CrashInPersist?) && n.mem.Ready() ==> CleanTail(n.file)
  }

  predicate AdmissibleRun(j: Journal, n: Node, steps: seq<Step>) {
    forall i :: 0 <= i < |steps| ==> Admissible(Run(j, n, steps[..i]), steps[i])
  }

  // ---- the invariant ------------------------------------------------------------------------

  /** The file is the lines of the log and perhaps the start of one more. */
  ghost predicate FileOk(j: Journal, n: Node) {
    && (forall r <- n.log :: Storable(j, r))
    && ApplyAll(EMPTY, n.log).Ok?
    && Lines(j, n.log) <= n.file && NoNewlineFrom(n.file, |Lines(j, n.log)|)
  }

  ghost predicate MemoryOk(n: Node)
    requires ApplyAll(EMPTY, n.log).Ok?
  {
    && (!n.mem.recovered && !n.mem.poisoned ==> n.mem.projection == EMPTY || n.mem.projection.lastSequence >= MAX_U64)
    && (n.mem.Ready() ==>
          && n.mem.projection == ApplyAll(EMPTY, n.log).value
          && n.mem.nextSequence == n.mem.projection.lastSequence + 1 <= MAX_U64)
  }

  /** A record of the log that settles the key. */
  ghost predicate SettledInLog(log: seq<Record>, key: Bytes) {
    exists i :: 0 <= i < |log| && log[i].idempotencyKey == key && log[i].state.Settled()
  }

  ghost predicate Inv(j: Journal, n: Node) {
    && FileOk(j, n)
    && MemoryOk(n)
    && forall key <- n.acked :: SettledInLog(n.log, key)
  }

  lemma CleanFileIsLog(j: Journal, n: Node)
    requires FileOk(j, n) && CleanTail(n.file)
    ensures n.file == Lines(j, n.log)
  {
    assert |Lines(j, n.log)| >= |n.file|;
  }

  /** Part of a line behind the log keeps the file readable; the whole line extends the log. */
  lemma AppendPart(j: Journal, n: Node, r: Record, written: nat)
    requires Lawful(j.codec) && FileOk(j, n) && n.file == Lines(j, n.log)
    requires Storable(j, r) && Apply(ApplyAll(EMPTY, n.log).value, r).Ok? && written <= |Line(j, r)|
    ensures FileOk(j, n.(file := n.file + Line(j, r)[..written],
                         log := if written == |Line(j, r)| then n.log + [r] else n.log))
    ensures ApplyAll(EMPTY, n.log + [r]) == Apply(ApplyAll(EMPTY, n.log).value, r)
  {
    var line := Line(j, r);
    assert (n.log + [r])[..|n.log|] == n.log;
    if written == |line| {
      assert line[..written] == line;
      assert Lines(j, n.log + [r]) == Lines(j, n.log) + line;
    } else {
      PartHasNoNewline(j, n.file, r, written);
    }
  }

  lemma SettledInLonger(log: seq<Record>, r: Record, key: Bytes)
    requires SettledInLog(log, key)
    ensures SettledInLog(log + [r], key)
  {
    var i :| 0 <= i < |log| && log[i].idempotencyKey == key && log[i].state.Settled();
    assert (log + [r])[i] == log[i];
  }

  /** How many bytes of the line the fault lets through. */
  function Through(fault: Fault, line: Bytes): nat {
    if fault.AppendFails? then Clip(fault.written, |line|) else |line|
  }

  /** What an append leaves in the file and in the log. */
  lemma PersistWrites(j: Journal, n: Node, snapshot: Record, fault: Fault, r: Record, line: Bytes)
    requires Appends(j, n, snapshot) && r == snapshot.(sequence := n.mem.nextSequence) && line == Line(j, r)
    ensures var n' := PersistStep(j, n, snapshot, fault);
            && Through(fault, line) <= |line| && n'.acked == n.acked
            && n'.file == n.file + line[..Through(fault, line)]
            && n'.log == (if Through(fault, line) == |line| then n.log + [r] else n.log)
  {
    assert line[..|line|] == line;
  }

  lemma SameFileOk(j: Journal, a: Node, b: Node)
    requires FileOk(j, a) && b.file == a.file && b.log == a.log
    ensures FileOk(j, b)
  {
  }

  /** A memory that is still ready has seen the whole line. */
  lemma PersistMemory(j: Journal, n: Node, snapshot: Record, fault: Fault, r: Record, n': Node)
    requires ApplyAll(EMPTY, n.log).Ok? && MemoryOk(n) && Appends(j, n, snapshot)
    requires r == snapshot.(sequence := n.mem.nextSequence) && n' == PersistStep(j, n, snapshot, fault)
    requires ApplyAll(EMPTY, n.log + [r]) == Apply(ApplyAll(EMPTY, n.log).value, r) && ApplyAll(EMPTY, n'.log).Ok?
    requires fault.NoFault? ==> n'.log == n.log + [r]
    ensures MemoryOk(n')
  {
  }

  lemma PersistKeepsInv(j: Journal, n: Node, snapshot: Record, fault: Fault)
    requires Lawful(j.codec) && Inv(j, n) && (n.mem.Ready() ==> CleanTail(n.file))
    ensures Inv(j, PersistStep(j, n, snapshot, fault))
    ensures PersistRecord(j, n.file, n.mem, snapshot, fault).2 == Replied ==>
              PersistStep(j, n, snapshot, fault).log == n.log + [snapshot.(sequence := n.mem.nextSequence)]
    ensures Appends(j, n, snapshot) ==> PersistStep(j, n, snapshot, fault).log[..|n.log|] == n.log
  {
    var n' := PersistStep(j, n, snapshot, fault);
    if Appends(j, n, snapshot) {
      var r := snapshot.(sequence := n.mem.nextSequence);
      var line := Line(j, r);
      PersistWrites(j, n, snapshot, fault, r, line);
      CleanFileIsLog(j, n);
      AppendPart(j, n, r, Through(fault, line));
      SameFileOk(j, n.(file := n.file + line[..Through(fault, line)],
                       log := if Through(fault, line) == |line| then n.log + [r] else n.log), n');
      PersistMemory(j, n, snapshot, fault, r, n');
      AckedInLonger(n, r);
    } else {
      SameFileOk(j, n, n');
    }
  }

  lemma AckedInLonger(n: Node, r: Record)
    requires forall key <- n.acked :: SettledInLog(n.log, key)
    ensures forall key <- n.acked :: SettledInLog(n.log + [r], key)
  {
    forall key <- n.acked ensures SettledInLog(n.log + [r], key) { SettledInLonger(n.log, r, key); }
  }

  /** A file that keeps the invariant replays to its log. */
  lemma FileReplays(j: Journal, n: Node)
    requires Lawful(j.codec) && FileOk(j, n)
    ensures ReplayFile(j, n.file) == Replayed(ApplyAll(EMPTY, n.log).value, |n.log|)
  {
    ReplayIgnoresTail(j, n.log, n.file);
  }

  lemma RecoverKeepsInv(j: Journal, n: Node)
    requires Lawful(j.codec) && Inv(j, n)
    ensures Inv(j, Do(j, n, Recover))
  {
    FileReplays(j, n);
  }

  lemma AckKeepsInv(j: Journal, n: Node, key: Bytes, ackSent: bool)
    requires Inv(j, n)
    ensures Inv(j, Do(j, n, AckIfSettled(key, ackSent)))
  {
    if n.mem.Ready() && IsSettled(n.mem.projection, key) && ackSent {
      EntriesComeFromRun(n.log);
      var e := n.mem.projection.entries[FindKey(n.mem.projection.entries, key).value];
      assert e in n.log;
      var i :| 0 <= i < |n.log| && n.log[i] == e;
      assert SettledInLog(n.log, key);
    }
  }

  lemma CommitKeepsInv(j: Journal, n: Node, snapshot: Record, fault: Fault, ackSent: bool)
    requires Lawful(j.codec) && Inv(j, n) && (n.mem.Ready() ==> CleanTail(n.file))
    ensures Inv(j, Do(j, n, Commit(snapshot, fault, ackSent)))
  {
    if snapshot.state.Settled() {
      PersistKeepsInv(j, n, snapshot, fault);
      var n' := PersistStep(j, n, snapshot, fault);
      if PersistRecord(j, n.file, n.mem, snapshot, fault).2 == Replied {
        assert n'.log[|n.log|] == snapshot.(sequence := n.mem.nextSequence);
        assert SettledInLog(n'.log, snapshot.idempotencyKey);
      }
    }
  }

  lemma StepKeepsInv(j: Journal, n: Node, step: Step)
    requires Lawful(j.codec) && Inv(j, n) && Admissible(n, step)
    ensures Inv(j, Do(j, n, step))
  {
    match step
    case Recover => RecoverKeepsInv(j, n);
    case Persist(snapshot, fault) => PersistKeepsInv(j, n, snapshot, fault);
    case Commit(snapshot, fault, ackSent) => CommitKeepsInv(j, n, snapshot, fault, ackSent);
    case AckIfSettled(key, ackSent) => AckKeepsInv(j, n, key, ackSent);
    case CrashInPersist(snapshot, written) => PersistKeepsInv(j, n, snapshot, AppendFails(written));
    case Restart =>
  }

  lemma {:induction false} RunKeepsInv(j: Journal, n: Node, steps: seq<Step>)
    requires Lawful(j.codec) && Inv(j, n) && AdmissibleRun(j, n, steps)
    ensures Inv(j, Run(j, n, steps))
    decreases |steps|
  {
    if steps != [] {
      var k := |steps| - 1;
      var init := steps[..k];
      forall i | 0 <= i < k ensures Admissible(Run(j, n, init[..i]), init[i]) {
        assert init[..i] == steps[..i];
        assert Admissible(Run(j, n, steps[..i]), steps[i]);
      }
      RunKeepsInv(j, n, init);
      assert Admissible(Run(j, n, steps[..k]), steps[k]);
      StepKeepsInv(j, Run(j, n, init), steps[k]);
    }
  }

  lemma NewNodeOk(j: Journal)
    ensures Inv(j, NEW_NODE)
  {}

  // ---- the theorems -------------------------------------------------------------------------

  /** Whenever the coordinator is recovered and not poisoned, its projection is exactly what
      replaying the file gives. */
  lemma ReadyMeansReplayed(j: Journal, steps: seq<Step>)
    requires Lawful(j.codec) && AdmissibleRun(j, NEW_NODE, steps)
    ensures var e := Run(j, NEW_NODE, steps);
            e.mem.Ready() ==>
              && ReplayFile(j, e.file) == Replayed(e.mem.projection, |e.log|)
              && e.mem.nextSequence == e.mem.projection.lastSequence + 1
  {
    NewNodeOk(j);
    RunKeepsInv(j, NEW_NODE, steps);
    FileReplays(j, Run(j, NEW_NODE, steps));
  }

  /** A crash anywhere inside persist: recovery from the file succeeds and gives the projection from
      before the record or, exactly when the whole line was written, the one after it. */
  lemma CrashRecovers(j: Journal, steps: seq<Step>, e: Node, snapshot: Record, written: nat)
    requires Lawful(j.codec) && AdmissibleRun(j, NEW_NODE, steps) && e == Run(j, NEW_NODE, steps)
    requires CleanTail(e.file) && Appends(j, e, snapshot)
    ensures var r := snapshot.(sequence := e.mem.nextSequence);
            var c := Do(j, e, CrashInPersist(snapshot, written));
            var p := if written >= |Line(j, r)| then Apply(e.mem.projection, r).value else e.mem.projection;
            var m := RecoverMemory(j, c.file, COLD);
            && ReplayFile(j, c.file).Replayed? && ReplayFile(j, c.file).projection == p
            && !m.poisoned && m.projection == p
            && (m.recovered <==> p.lastSequence < MAX_U64)
  {
    NewNodeOk(j);
    RunKeepsInv(j, NEW_NODE, steps);
    CrashedFileReplays(j, e, snapshot, written);
  }

  lemma CrashedFileReplays(j: Journal, n: Node, snapshot: Record, written: nat)
    requires Lawful(j.codec) && Inv(j, n) && CleanTail(n.file) && Appends(j, n, snapshot)
    ensures var r := snapshot.(sequence := n.mem.nextSequence);
            var o := ReplayFile(j, Do(j, n, CrashInPersist(snapshot, written)).file);
            && o.Replayed?
            && o.projection == if written >= |Line(j, r)| then Apply(n.mem.projection, r).value else n.mem.projection
  {
    var r := snapshot.(sequence := n.mem.nextSequence);
    CrashedFile(j, n, snapshot, written);
    CleanFileIsLog(j, n);
    assert (n.log + [r])[..|n.log|] == n.log;
    TornAppend(j, n.log, r, Clip(written, |Line(j, r)|));
  }

  lemma CrashedFile(j: Journal, n: Node, snapshot: Record, written: nat)
    requires Appends(j, n, snapshot)
    ensures var line := Line(j, snapshot.(sequence := n.mem.nextSequence));
            Do(j, n, CrashInPersist(snapshot, written)).file == n.file + line[..Clip(written, |line|)]
  {}

  /** Every acknowledgement sent so far is backed by a settled record of its key whose complete line
      is in the file. As this holds after every prefix of a run, the record was there when the
      acknowledgement was sent. */
  lemma AckedKeysAreDurable(j: Journal, steps: seq<Step>, e: Node, key: Bytes)
    requires Lawful(j.codec) && AdmissibleRun(j, NEW_NODE, steps) && e == Run(j, NEW_NODE, steps)
    requires key in e.acked
    ensures exists i :: 0 <= i < |e.log| && BacksAck(j, e, key, i)
  {
    NewNodeOk(j);
    RunKeepsInv(j, NEW_NODE, steps);
    BackingLine(j, e, key);
  }

  /** Record i of the log settles the key and its whole line is in the file. */
  ghost predicate BacksAck(j: Journal, n: Node, key: Bytes, i: nat)
    requires i < |n.log|
  {
    && n.log[i].idempotencyKey == key && n.log[i].state.Settled()
    && Lines(j, n.log[..i]) + Line(j, n.log[i]) <= n.file
  }

  lemma BackingLine(j: Journal, n: Node, key: Bytes)
    requires Inv(j, n) && key in n.acked
    ensures exists i :: 0 <= i < |n.log| && BacksAck(j, n, key, i)
  {
    assert SettledInLog(n.log, key);
    var i :| 0 <= i < |n.log| && n.log[i].idempotencyKey == key && n.log[i].state.Settled();
    LineInFile(j, n.log, n.file, i);
    assert BacksAck(j, n, key, i);
  }

  lemma LineInFile(j: Journal, log: seq<Record>, file: Bytes, i: nat)
    requires i < |log| && Lines(j, log) <= file
    ensures Lines(j, log[..i]) + Line(j, log[i]) <= file
  {
    LinesPrefix(j, log, i + 1);
    assert log[..i + 1][..i] == log[..i];
    assert Lines(j, log[..i + 1]) == Lines(j, log[..i]) + Line(j, log[i]);
  }

  lemma {:induction false} LinesPrefix(j: Journal, rs: seq<Record>, n: nat)
    requires n <= |rs|
    ensures Lines(j, rs[..n]) <= Lines(j, rs)
    decreases |rs|
  {
    if n < |rs| {
      assert rs[..|rs| - 1][..n] == rs[..n];
      LinesPrefix(j, rs[..|rs| - 1], n);
    } else {
      assert rs[..n] == rs;
    }
  }

  // ---- the coordinator as it runs -----------------------------------------------------------

  /** The journal file: append writes a whole line at the end, replay walks it with a cursor. */
  class JournalFile {
    const journal: Journal
    var bytes: Bytes

    constructor (journal: Journal)
      ensures this.journal == journal && bytes == []
    {
      this.journal := journal;
      bytes := [];
    }

    /** `fault` is what the file system does to the write: it may fail with any part of the line written. */
    method Append(r: Record, fault: Fault) returns (failure: Option<Reply>)
      modifies this
      ensures var refused, line := CheckAppend(journal, |old(bytes)|, r), Line(journal, r);
              if refused.Some? then failure == Some(Rejected(refused.value)) && bytes == old(bytes)
              else if fault.AppendFails? then
                failure == Some(IoError) && bytes == old(bytes) + line[..Clip(fault.written, |line|)]
              else failure == None && bytes == old(bytes) + line
    {
      var e := CheckRecord(r);
      if e.Some? { return Some(Rejected(e.value)); }
      var json := journal.codec.encode(r);
      if |json| > journal.maxRecordBytes { return Some(Rejected(RecordTooLarge)); }
      var line := Hex(journal.codec.checksum(json)) + [TAB] + json + [LF];
      if |bytes| > journal.maxBytes || |line| > journal.maxBytes - |bytes| { return Some(Rejected(JournalFull)); }
      match fault
      case AppendFails(written) =>
        bytes := bytes + line[..Clip(written, |line|)];
        failure := Some(IoError);
      case _ =>
        bytes := bytes + line;
        failure := None;
    }

    /** One visit of the replay: parse a line and apply its record. */
    method VisitLine(parse: LineParser, p: RecoveryProjection, line: Bytes) returns (e: Option<Error>)
      modifies p
      ensures e == Failure(ApplyLine(parse, old(p.Value()), line))
      ensures p.Value() == if e.None? then ApplyLine(parse, old(p.Value()), line).value else old(p.Value())
    {
      var parsed := parse(line);
      if parsed.Err? { return Some(parsed.error); }
      e := p.ApplyRecord(parsed.value);
    }

    method Replay(parse: LineParser, p: RecoveryProjection) returns (count: nat, e: Option<Error>)
      modifies p
      ensures var o := ReplayFrom(parse, bytes, 0, old(p.Value()), 0);
              && (e.None? <==> o.Replayed?)
              && (o.Replayed? ==> p.Value() == o.projection && count == o.count)
              && (o.Failed? ==> p.Value() == o.partial && e == Some(o.error))
    {
      var file := bytes;
      count := 0;
      var start := 0;
      while start < |file|
        invariant start <= |file|
        invariant ReplayFrom(parse, file, 0, old(p.Value()), 0) == ReplayFrom(parse, file, start, p.Value(), count)
        decreases |file| - start
      {
        var end := FindFrom(file, start, LF);
        if end.None? { return count, None; }
        e := VisitLine(parse, p, file[start..end.value]);
        if e.Some? { return; }
        start := end.value + 1;
        count := count + 1;
      }
      e := None;
    }
  }

  function Failure<T>(r: Result<T, Error>): Option<Error> {
    match r case Ok(_) => None case Err(e) => Some(e)
  }

  class Coordinator {
    const store: JournalFile
    const projection: RecoveryProjection
    var nextSequence: nat
    var recovered: bool
    var poisoned: bool

    ghost function Value(): Memory
      reads this, projection
    {
      Memory(projection.Value(), nextSequence, recovered, poisoned)
    }

    constructor (store: JournalFile)
      ensures this.store == store && Value() == COLD && fresh(projection)
    {
      this.store := store;
      projection := new RecoveryProjection();
      nextSequence, recovered, poisoned := 1, false, false;
    }

    method RecoverProjection() returns (ok: bool)
      modifies this, projection
      ensures Value() == RecoverMemory(store.journal, store.bytes, old(Value()))
      ensures ok <==> !old(recovered) && Value().Ready()
      ensures var o := ReplayFrom(Parser(store.journal), store.bytes, 0, old(projection.Value()), 0);
              && (ok <==> && !old(recovered) && !old(poisoned) && o.Replayed?
                          && o.projection.lastSequence < 0xFFFF_FFFF_FFFF_FFFF)
              && (poisoned <==> old(poisoned) || (!old(recovered) && o.Failed?))
              && projection.Value() == (if old(recovered) || old(poisoned) then old(projection.Value())
                                        else if o.Failed? then o.partial else o.projection)
              && nextSequence == (if ok then o.projection.lastSequence + 1 else old(nextSequence))
      ensures recovered == (old(recovered) || ok)
    {
      if recovered || poisoned { return false; }
      var count, e := store.Replay(Parser(store.journal), projection);
      if e.Some? { poisoned := true; return false; }
      if projection.lastSequence >= MAX_U64 { return false; }
      nextSequence := projection.lastSequence + 1;
      recovered := true;
      ok := true;
    }

    /** Validate, append, apply, advance, with whatever fault the environment chooses. */
    method PersistSnapshot(snapshot: Record, fault: Fault) returns (reply: Reply)
      modifies this, projection, store
      ensures (Value(), store.bytes, reply)
           == PersistRecord(store.journal, old(store.bytes), old(Value()), snapshot, fault)
    {
      if poisoned || !recovered { return NotReady; }
      var r := snapshot.(sequence := nextSequence);
      var e := projection.ValidateRecord(r);
      if e.Some? { return Rejected(e.value); }
      var failure := store.Append(r, fault);
      if failure.Some? { poisoned := true; return failure.value; }
      if fault.ApplyFails? { poisoned := true; return OutOfMemory; }
      e := projection.ApplyRecord(r);
      if nextSequence >= MAX_U64 { poisoned := true; return SequenceExhausted; }
      nextSequence := nextSequence + 1;
      reply := Replied;
    }

    /** True when the caller may send the acknowledgement. */
    method CommitSettlement(snapshot: Record, fault: Fault) returns (ack: bool)
      modifies this, projection, store
      ensures ack ==> store.bytes == old(store.bytes) + Line(store.journal, snapshot.(sequence := old(nextSequence)))
      ensures var p := PersistRecord(store.journal, old(store.bytes), old(Value()), snapshot, fault);
              (Value(), store.bytes) ==
              if snapshot.state.Settled() then (p.0, p.1) else (old(Value()), old(store.bytes))
      ensures ack <==> snapshot.state.Settled()
                       && PersistRecord(store.journal, old(store.bytes), old(Value()), snapshot, fault).2 == Replied
    {
      if !snapshot.state.Settled() { return false; }
      var reply := PersistSnapshot(snapshot, fault);
      ack := reply == Replied;
    }

    method MayAckRedelivery(key: Bytes) returns (ack: bool)
      ensures ack <==> Value().Ready() && IsSettled(projection.Value(), key)
    {
      if poisoned || !recovered { return false; }
      ack := projection.Settled(key);
    }
  }
}
