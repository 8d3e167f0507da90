/** What becomes of a record that is appended behind the unfinished line of an earlier crash. */
module TornTail {
  import opened Common
  import opened SettlementProjection
  import opened SettlementJournal
  import opened DurableSettlement

  /** The checksum text that a record's line starts with. */
  function Digits(j: Journal, r: Record): Bytes {
    Hex(j.codec.checksum(j.codec.encode(r)))
  }

  /** The start of the lost line that is JSON, and the whole new line's text behind it. */
  function JoinedJson(j: Journal, lost: Record, written: nat, r: Record): Bytes
    requires |Digits(j, lost)| < written <= |Body(j, lost)|
  {
    j.codec.encode(lost)[..written - |Digits(j, lost)| - 1] + Body(j, r)
  }

  /** The first `written` bytes of the lost line and the new line read, together, as one line that passes the
      length and checksum tests. Cut inside the checksum, the bytes left must be worth nothing. */
  ghost predicate Passes(j: Journal, lost: Record, written: nat, r: Record)
    requires written <= |Body(j, lost)|
  {
    var sum := j.codec.checksum(j.codec.encode(lost));
    if written <= |Digits(j, lost)| then written == 0 || sum == 0
    else
      var text := JoinedJson(j, lost, written, r);
      |text| <= j.maxRecordBytes && j.codec.checksum(text) == sum
  }

  /** They read as the new record. */
  ghost predicate ReadsAsNew(j: Journal, lost: Record, written: nat, r: Record)
    requires written <= |Body(j, lost)|
  {
    && Passes(j, lost, written, r)
    && (written > |Digits(j, lost)| ==> j.codec.decode(JoinedJson(j, lost, written, r)) == Some(r))
  }

  // ---- one line -----------------------------------------------------------------------------

  lemma TornHasNoNewline(j: Journal, lost: Record, written: nat, torn: Bytes)
    requires Lawful(j.codec) && Storable(j, lost) && written < |Line(j, lost)| && torn == Line(j, lost)[..written]
    ensures LF !in torn && written <= |Body(j, lost)| && torn == Body(j, lost)[..written]
  {
    LineParses(j, lost);
    assert torn == Body(j, lost)[..written];
  }

  /** Cut inside the checksum: the joined line reads as the new record if the digits left are worth nothing, and
      otherwise as nothing. */
  lemma TornInChecksum(j: Journal, lost: Record, written: nat, torn: Bytes, r: Record)
    requires Lawful(j.codec) && Storable(j, r) && written <= |Digits(j, lost)| && torn == Body(j, lost)[..written]
    ensures ParseLine(j, torn + Body(j, r)).Ok? <==> written == 0 || j.codec.checksum(j.codec.encode(lost)) == 0
    ensures ParseLine(j, torn + Body(j, r)).Ok? ==> ParseLine(j, torn + Body(j, r)) == Ok(r)
  {
    var n := j.codec.checksum(j.codec.encode(lost));
    assert torn == Hex(n)[..written];
    HexPart(n, written);
    HexHasNoSeparator(torn);
    JoinedDigits(j, torn, r);
  }

  lemma SplitAtTab(line: Bytes, h: Bytes, json: Bytes)
    requires TAB !in h && line == h + ([TAB] + json)
    ensures FindFrom(line, 0, TAB) == Some(|h|) && line[..|h|] == h && line[|h| + 1..] == json
  {
    assert h + [TAB] <= line;
    FirstAfter(h, TAB, line);
  }

  lemma JoinedDigits(j: Journal, torn: Bytes, r: Record)
    requires Lawful(j.codec) && Storable(j, r) && HexValue(torn).Some? && TAB !in torn
    ensures var o := ParseLine(j, torn + Body(j, r));
            (o.Ok? <==> HexValue(torn).value == 0) && (o.Ok? ==> o == Ok(r))
  {
    var h, json := Digits(j, r), j.codec.encode(r);
    HexRoundTrip(j.codec.checksum(json));
    HexJoin(torn, h);
    JoinedFront(torn, h, json);
    Verdict(j, torn + Body(j, r), torn + h, r);
  }

  lemma JoinedFront(torn: Bytes, h: Bytes, json: Bytes)
    ensures torn + (h + [TAB] + json) == (torn + h) + ([TAB] + json)
  {
  }

  /** A record's JSON behind some checksum text reads as the record exactly when the text is its checksum. */
  lemma Verdict(j: Journal, line: Bytes, h: Bytes, r: Record)
    requires Lawful(j.codec) && Storable(j, r) && h != [] && TAB !in h && HexValue(h).Some?
    requires line == h + ([TAB] + j.codec.encode(r))
    ensures var o := ParseLine(j, line);
            (o.Ok? <==> HexValue(h).value == j.codec.checksum(j.codec.encode(r))) && (o.Ok? ==> o == Ok(r))
  {
    SplitAtTab(line, h, j.codec.encode(r));
  }

  /** Cut behind the checksum: the joined line is held against the lost record's checksum. */
  lemma TornInJson(j: Journal, lost: Record, written: nat, torn: Bytes, r: Record)
    requires Lawful(j.codec) && Storable(j, r)
    requires |Digits(j, lost)| < written <= |Body(j, lost)| && torn == Body(j, lost)[..written]
    ensures ParseLine(j, torn + Body(j, r)) == Ok(r) <==> ReadsAsNew(j, lost, written, r)
    ensures !Passes(j, lost, written, r) ==> ParseLine(j, torn + Body(j, r)).Err?
  {
    var h, json := Digits(j, lost), j.codec.encode(lost);
    JoinedPart(h, json, written, Body(j, r));
    SplitAtTab(torn + Body(j, r), h, JoinedJson(j, lost, written, r));
    HexRoundTrip(j.codec.checksum(json));
  }

  lemma JoinedPart(h: Bytes, json: Bytes, k: nat, more: Bytes)
    requires |h| < k <= |h + [TAB] + json|
    ensures (h + [TAB] + json)[..k] + more == h + ([TAB] + (json[..k - |h| - 1] + more))
  {
    assert (h + [TAB] + json)[..k] == h + ([TAB] + json[..k - |h| - 1]);
  }

  /** The joined line reads as the new record under exactly this condition. */
  lemma JoinedReads(j: Journal, lost: Record, written: nat, torn: Bytes, r: Record)
    requires Lawful(j.codec) && Storable(j, r) && written <= |Body(j, lost)| && torn == Body(j, lost)[..written]
    ensures ParseLine(j, torn + Body(j, r)) == Ok(r) <==> ReadsAsNew(j, lost, written, r)
    ensures !Passes(j, lost, written, r) ==> ParseLine(j, torn + Body(j, r)).Err?
  {
    if written <= |Digits(j, lost)| {
      TornInChecksum(j, lost, written, torn, r);
    } else {
      TornInJson(j, lost, written, torn, r);
    }
  }

  // ---- the whole journal --------------------------------------------------------------------

  /** A line that does not parse stops the replay with the records before it applied. */
  lemma BadLineStops(parse: LineParser, j: Journal, rs: seq<Record>, body: Bytes, bytes: Bytes)
    requires Reads(parse, j, rs) && ApplyAll(EMPTY, rs).Ok?
    requires LF !in body && parse(body).Err? && Lines(j, rs) + (body + [LF]) <= bytes
    ensures ReplayFrom(parse, bytes, 0, EMPTY, 0) == Failed(ApplyAll(EMPTY, rs).value, parse(body).error)
  {
    BadLineAt(parse, bytes, Lines(j, rs), body, ApplyAll(EMPTY, rs).value, |rs|);
    ReplayLines(parse, j, rs, bytes);
  }

  lemma BadLineAt(parse: LineParser, bytes: Bytes, front: Bytes, body: Bytes, p: Projection, count: nat)
    requires LF !in body && parse(body).Err? && front + (body + [LF]) <= bytes
    ensures front <= bytes && ReplayFrom(parse, bytes, |front|, p, count) == Failed(p, parse(body).error)
  {
    LineAt(front, body, bytes);
    ReplayLine(parse, bytes, |front|, body, p, count);
  }

  /** Behind a torn line with which it does not pass, the next line is unreadable, whatever follows: replay fails
      from then on with only the earlier records applied. */
  lemma AppendAfterTornTail(j: Journal, rs: seq<Record>, lost: Record, written: nat, torn: Bytes, r: Record,
                            bytes: Bytes)
    requires Lawful(j.codec) && Storable(j, r) && Storable(j, lost)
    requires forall x <- rs :: Storable(j, x)
    requires ApplyAll(EMPTY, rs).Ok?
    requires written <= |Body(j, lost)| && torn == Line(j, lost)[..written] && !Passes(j, lost, written, r)
    requires Lines(j, rs) + ((torn + Body(j, r)) + [LF]) <= bytes
    ensures ReplayFile(j, Lines(j, rs) + torn) == Replayed(ApplyAll(EMPTY, rs).value, |rs|)
    ensures ReplayFile(j, bytes).Failed? && ReplayFile(j, bytes).partial == ApplyAll(EMPTY, rs).value
  {
    var front := Lines(j, rs);
    TornHasNoNewline(j, lost, written, torn);
    LineParses(j, r);
    JoinedReads(j, lost, written, torn, r);
    TailWithoutNewline(front, torn);
    ReplayIgnoresTail(j, rs, front + torn);
    ParserReads(j, rs);
    BadLineStops(Parser(j), j, rs, torn + Body(j, r), bytes);
  }

  lemma ReplayOneMore(parse: LineParser, j: Journal, rs: seq<Record>, body: Bytes, p: Projection, bytes: Bytes)
    requires Reads(parse, j, rs) && ApplyAll(EMPTY, rs) == Ok(p) && LF !in body && bytes == Lines(j, rs) + (body + [LF])
    ensures ReplayFrom(parse, bytes, 0, EMPTY, 0) == match ApplyLine(parse, p, body)
                                                     case Err(e) => Failed(p, e)
                                                     case Ok(q) => Replayed(q, |rs| + 1)
  {
    var front := Lines(j, rs);
    ReplayLines(parse, j, rs, bytes);
    LineAt(front, body, bytes);
    ReplayLine(parse, bytes, |front|, body, p, |rs|);
    assert |front| + |body| + 1 == |bytes|;
  }

  lemma {:induction false} SequencesBounded(rs: seq<Record>)
    requires ApplyAll(EMPTY, rs).Ok?
    ensures forall e <- ApplyAll(EMPTY, rs).value.entries :: e.sequence <= ApplyAll(EMPTY, rs).value.lastSequence
    decreases |rs|
  {
    if rs != [] { SequencesBounded(rs[..|rs| - 1]); }
  }

  /** Different records leave different projections. */
  lemma ApplyTells(p: Projection, r: Record, x: Record)
    requires forall e <- p.entries :: e.sequence <= p.lastSequence
    requires Apply(p, r).Ok? && Apply(p, x).Ok? && Apply(p, r) == Apply(p, x)
    ensures r == x
  {
    var q := Apply(p, r).value;
    assert r in q.entries by {
      var f := FindEvent(p.entries, r.eventId);
      assert q.entries[if f.Some? then f.value else |p.entries|] == r;
    }
    assert forall e <- q.entries :: e == x || e in p.entries;
  }

  /** Appending behind a torn line: the record is there on replay exactly when the joined line reads as it, and
      when it does not pass, replay fails. */
  lemma ReplayJoined(j: Journal, rs: seq<Record>, p: Projection, lost: Record, written: nat, torn: Bytes,
                     r: Record, bytes: Bytes)
    requires Lawful(j.codec) && Storable(j, r) && Storable(j, lost)
    requires (forall x <- rs :: Storable(j, x)) && ApplyAll(EMPTY, rs) == Ok(p) && Apply(p, r).Ok?
    requires written <= |Body(j, lost)| && torn == Line(j, lost)[..written]
    requires bytes == Lines(j, rs) + ((torn + Body(j, r)) + [LF])
    ensures ReplayFile(j, bytes) == Replayed(Apply(p, r).value, |rs| + 1) <==> ReadsAsNew(j, lost, written, r)
    ensures !Passes(j, lost, written, r) ==> ReplayFile(j, bytes).Failed?
  {
    TornHasNoNewline(j, lost, written, torn);
    LineParses(j, r);
    JoinedReads(j, lost, written, torn, r);
    ParserReads(j, rs);
    ReplayOneMore(Parser(j), j, rs, torn + Body(j, r), p, bytes);
    var o := ParseLine(j, torn + Body(j, r));
    if o.Ok? && Apply(p, o.value).Ok? && Apply(p, o.value) == Apply(p, r) {
      SequencesBounded(rs);
      ApplyTells(p, o.value, r);
    }
  }

  // ---- the coordinator ----------------------------------------------------------------------

  /** A coordinator that recovered over a torn line is ready and takes a settlement, acknowledges it, and has it
      in memory. The journal gives it back exactly when the joined line reads as it. */
  lemma TornCommit(j: Journal, n: Node, lost: Record, written: nat, snapshot: Record, r: Record, n': Node)
    requires Lawful(j.codec) && Inv(j, n) && Storable(j, lost) && written <= |Body(j, lost)|
    requires n.file == Lines(j, n.log) + Line(j, lost)[..written]
    requires snapshot.state.Settled() && Appends(j, n, snapshot) && n.mem.nextSequence < MAX_U64
    requires r == snapshot.(sequence := n.mem.nextSequence) && n' == Do(j, n, Commit(snapshot, NoFault, true))
    ensures n'.acked == n.acked + [snapshot.idempotencyKey] && n'.mem.Ready()
    ensures ReplayFile(j, n'.file) == Replayed(n'.mem.projection, |n.log| + 1) <==> ReadsAsNew(j, lost, written, r)
    ensures !Passes(j, lost, written, r) ==> RecoverMemory(j, n'.file, COLD).poisoned
  {
    CommittedNode(j, n, snapshot, r, n');
    TornReplay(j, n, lost, written, r, n'.file);
  }

  lemma CommittedNode(j: Journal, n: Node, snapshot: Record, r: Record, n': Node)
    requires snapshot.state.Settled() && Appends(j, n, snapshot) && n.mem.nextSequence < MAX_U64
    requires r == snapshot.(sequence := n.mem.nextSequence) && n' == Do(j, n, Commit(snapshot, NoFault, true))
    ensures n'.file == n.file + Line(j, r) && n'.acked == n.acked + [snapshot.idempotencyKey] && n'.mem.Ready()
    ensures Apply(n.mem.projection, r) == Ok(n'.mem.projection) && Storable(j, r)
  {
  }

  lemma TornReplay(j: Journal, n: Node, lost: Record, written: nat, r: Record, file: Bytes)
    requires Lawful(j.codec) && Inv(j, n) && n.mem.Ready() && Storable(j, lost) && written <= |Body(j, lost)|
    requires n.file == Lines(j, n.log) + Line(j, lost)[..written] && file == n.file + Line(j, r)
    requires Storable(j, r) && Apply(n.mem.projection, r).Ok?
    ensures var q := Apply(n.mem.projection, r).value;
            ReplayFile(j, file) == Replayed(q, |n.log| + 1) <==> ReadsAsNew(j, lost, written, r)
    ensures !Passes(j, lost, written, r) ==> ReplayFile(j, file).Failed?
  {
    var torn := Line(j, lost)[..written];
    Joined(Lines(j, n.log), torn, Body(j, r));
    ReplayJoined(j, n.log, n.mem.projection, lost, written, torn, r, file);
  }

  /** Such a coordinator is what every crash inside an append leads to. */
  lemma CrashLeavesTorn(j: Journal, e: Node, snapshot: Record, written: nat, lost: Record, c: Node, n: Node)
    requires Lawful(j.codec) && Inv(j, e) && CleanTail(e.file) && Appends(j, e, snapshot)
    requires lost == snapshot.(sequence := e.mem.nextSequence) && written <= |Body(j, lost)|
    requires c == Do(j, e, CrashInPersist(snapshot, written)) && n == Do(j, c, Recover)
    ensures Inv(j, n) && n.mem.Ready() && Storable(j, lost) && n.log == e.log
    ensures n.file == Lines(j, n.log) + Line(j, lost)[..written]
  {
    PersistKeepsInv(j, e, snapshot, AppendFails(written));
    CleanFileIsLog(j, e);
    CrashedNode(j, e, snapshot, written, lost, c);
    RecoverKeepsInv(j, c);
    FileReplays(j, c);
  }

  lemma CrashedNode(j: Journal, e: Node, snapshot: Record, written: nat, lost: Record, c: Node)
    requires Appends(j, e, snapshot) && lost == snapshot.(sequence := e.mem.nextSequence) && written <= |Body(j, lost)|
    requires c == Do(j, e, CrashInPersist(snapshot, written))
    ensures c.mem == COLD && c.log == e.log && c.file == e.file + Line(j, lost)[..written] && c.acked == e.acked
  {
    PersistWrites(j, e, snapshot, AppendFails(written), lost, Line(j, lost));
  }

  lemma Joined(front: Bytes, torn: Bytes, body: Bytes)
    ensures (front + torn) + (body + [LF]) == front + ((torn + body) + [LF])
  {
  }

  // ---- hexadecimal --------------------------------------------------------------------------

  lemma {:induction false} HexHasNoSeparator(s: Bytes)
    requires HexValue(s).Some?
    ensures LF !in s && TAB !in s
    decreases |s|
  {
    if s != [] {
      HexHasNoSeparator(s[..|s| - 1]);
      assert s == s[..|s| - 1] + [s[|s| - 1]];
    }
  }

  /** The first digits of a number are worth something unless there are none or the number is zero. */
  lemma {:induction false} HexPart(n: nat, k: nat)
    requires k <= |Hex(n)|
    ensures HexValue(Hex(n)[..k]).Some?
    ensures HexValue(Hex(n)[..k]).value == 0 <==> k == 0 || n == 0
    decreases n
  {
    if k == |Hex(n)| {
      assert Hex(n)[..k] == Hex(n);
      HexRoundTrip(n);
    } else if n >= 16 {
      assert Hex(n)[..k] == Hex(n / 16)[..k];
      HexPart(n / 16, k);
    }
  }

  /** Digits put in front leave a number as it is if they are worth nothing, and make it larger if not. */
  lemma {:induction false} HexJoin(a: Bytes, b: Bytes)
    requires HexValue(a).Some? && HexValue(b).Some?
    ensures HexValue(a + b).Some?
    ensures HexValue(a).value == 0 ==> HexValue(a + b).value == HexValue(b).value
    ensures HexValue(a).value > 0 ==> HexValue(a + b).value > HexValue(b).value
    decreases |b|
  {
    if b == [] {
      assert a + b == a;
    } else {
      var n := |b| - 1;
      assert (a + b)[..|a + b| - 1] == a + b[..n];
      HexJoin(a, b[..n]);
    }
  }
}
