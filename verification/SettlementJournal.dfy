/** The append-only journal: one checksummed line per record, and a replay that reads complete lines
    and ignores what follows the last newline. */
module SettlementJournal {
  import opened Common
  import opened Arithmetic
  import opened SettlementProjection

  const LF: Byte := 10
  const TAB: Byte := 9
  const U32: nat := 0x1_0000_0000

  /** JSON and the checksum are parameters: every result holds for any lawful pair. */
  datatype Codec = Codec(encode: Record -> Bytes, decode: Bytes -> Option<Record>, checksum: Bytes -> nat)

  ghost predicate Lawful(c: Codec) {
    && (forall r :: c.decode(c.encode(r)) == Some(r) && c.encode(r) != [] && LF !in c.encode(r))
    && (forall b :: c.checksum(b) < U32)
  }

  datatype Journal = Journal(codec: Codec, maxBytes: nat, maxRecordBytes: nat)

  // ---- hexadecimal checksum text ------------------------------------------------------------

  function Digit(n: nat): Byte
    requires n < 16
  {
    if n < 10 then 48 + n else 87 + n
  }

  function DigitValue(b: Byte): Option<nat> {
    if 48 <= b <= 57 then Some(b - 48)
    else if 97 <= b <= 102 then Some(b - 87)
    else if 65 <= b <= 70 then Some(b - 55)
    else None
  }

  function Hex(n: nat): (s: Bytes)
    ensures s != []
    ensures forall b <- s :: b != LF && b != TAB
  {
    if n < 16 then [Digit(n)] else Hex(n / 16) + [Digit(n % 16)]
  }

  function HexValue(s: Bytes): Option<nat> {
    if s == [] then Some(0)
    else
      var d := DigitValue(s[|s| - 1]);
      var v := HexValue(s[..|s| - 1]);
      if v.None? || d.None? then None else Some(v.value * 16 + d.value)
  }

  /** An unsigned 32-bit hexadecimal number, or nothing. */
  function ParseHex(s: Bytes): Option<nat> {
    if s == [] then None
    else match HexValue(s)
         case None => None
         case Some(v) => if v < U32 then Some(v) else None
  }

  lemma {:induction false} HexRoundTrip(n: nat)
    ensures HexValue(Hex(n)) == Some(n)
  {
    if n >= 16 {
      HexRoundTrip(n / 16);
      assert Hex(n)[..|Hex(n)| - 1] == Hex(n / 16);
    }
  }

  function Pow16(w: nat): (p: nat)
    ensures p > 0
  {
    if w == 0 then 1 else 16 * Pow16(w - 1)
  }

  /** The checksum is written in lower-case hexadecimal, most significant digit first: the digit that stands i places
      from the end counts 16 to the power i. */
  lemma {:induction false} HexDigits(n: nat, i: nat)
    requires i < |Hex(n)|
    ensures var d := n / Pow16(i) % 16;
            Hex(n)[|Hex(n)| - 1 - i] == if d < 10 then '0' as int + d else 'a' as int + (d - 10)
    decreases n
  {
    if i > 0 {
      HexDigits(n / 16, i - 1);
      DivideTwice(n, 16, Pow16(i - 1));
    }
  }

  /** There are no leading zeros. */
  lemma {:induction false} HexIsShort(n: nat)
    ensures n > 0 ==> Hex(n)[0] != '0' as int
    ensures n == 0 ==> Hex(n) == ['0' as int]
  {
    if n >= 16 { HexIsShort(n / 16); }
  }

  /** Digits are read in either case. */
  lemma DigitsRead(b: Byte, v: nat)
    ensures DigitValue(b) == Some(v) <==>
              || (v < 10 && b == '0' as int + v)
              || (10 <= v < 16 && (b == 'a' as int + (v - 10) || b == 'A' as int + (v - 10)))
  {
  }

  // ---- lines --------------------------------------------------------------------------------

  predicate Leasing(s: State) { s == Leased || s == Received }

  /** The checks that append and replay both make on a record. */
  function CheckRecord(r: Record): Option<Error> {
    if r.eventId == [] || r.canonicalEvent == [] || r.idempotencyKey == [] then Some(InvalidRecord)
    else if r.state.Settled() && r.leaseOwner.Some? then Some(InvalidTransition)
    else if Leasing(r.state) && r.leaseOwner.None? then Some(InvalidRecord)
    else None
  }

  function Body(j: Journal, r: Record): Bytes {
    Hex(j.codec.checksum(j.codec.encode(r))) + [TAB] + j.codec.encode(r)
  }

  function Line(j: Journal, r: Record): Bytes {
    Body(j, r) + [LF]
  }

  function Lines(j: Journal, rs: seq<Record>): Bytes {
    if rs == [] then [] else Lines(j, rs[..|rs| - 1]) + Line(j, rs[|rs| - 1])
  }

  /** What append decides before it writes, for a file of the given length. */
  function CheckAppend(j: Journal, size: nat, r: Record): Option<Error> {
    if CheckRecord(r).Some? then CheckRecord(r)
    else if |j.codec.encode(r)| > j.maxRecordBytes then Some(RecordTooLarge)
    else if size > j.maxBytes || |Line(j, r)| > j.maxBytes - size then Some(JournalFull)
    else None
  }

  /** What append refuses: a record without an id, a name or a key, or held without an owner; a settled record with one;
      then a record that is too large; then a line that does not fit into what is left of the file. */
  lemma AppendRefusedExactly(j: Journal, size: nat, r: Record)
    ensures var e := CheckAppend(j, size, r);
            var nameless := r.eventId == [] || r.canonicalEvent == [] || r.idempotencyKey == [];
            var unowned := r.state in {Leased, Received} && r.leaseOwner.None?;
            var owned := r.state in {SettledOk, SettledError} && r.leaseOwner.Some?;
            var json := j.codec.encode(r);
            && (e == Some(InvalidRecord) <==> nameless || unowned)
            && (e == Some(InvalidTransition) <==> !nameless && owned)
            && (e == Some(RecordTooLarge) <==> !nameless && !unowned && !owned && |json| > j.maxRecordBytes)
            && (e.None? <==> && !nameless && !unowned && !owned && |json| <= j.maxRecordBytes
                             && size + |Hex(j.codec.checksum(json))| + 1 + |json| + 1 <= j.maxBytes)
            && (e.Some? ==> e.value in {InvalidRecord, InvalidTransition, RecordTooLarge, JournalFull})
  {
  }

  /** The first b at or after start. */
  function FindFrom(s: Bytes, start: nat, b: Byte): (r: Option<nat>)
    requires start <= |s|
    ensures r.Some? ==> start <= r.value < |s| && s[r.value] == b && forall i :: start <= i < r.value ==> s[i] != b
    ensures r.None? ==> forall i :: start <= i < |s| ==> s[i] != b
    decreases |s| - start
  {
    if start == |s| then None
    else if s[start] == b then Some(start)
    else FindFrom(s, start + 1, b)
  }

  function ParseLine(j: Journal, line: Bytes): Result<Record, Error> {
    match FindFrom(line, 0, TAB)
    case None => Err(InvalidRecord)
    case Some(tab) =>
      var json := line[tab + 1..];
      match ParseHex(line[..tab])
      case None => Err(InvalidChecksum)
      case Some(expected) =>
        if |json| == 0 || |json| > j.maxRecordBytes then Err(RecordTooLarge)
        else if j.codec.checksum(json) != expected then Err(ChecksumMismatch)
        else
          match j.codec.decode(json)
          case None => Err(InvalidJson)
          case Some(r) => match CheckRecord(r) case Some(e) => Err(e) case None => Ok(r)
  }

  datatype Replay = Replayed(projection: Projection, count: nat) | Failed(partial: Projection, error: Error)

  type LineParser = Bytes -> Result<Record, Error>

  function Parser(j: Journal): LineParser {
    line => ParseLine(j, line)
  }

  function ApplyLine(parse: LineParser, p: Projection, line: Bytes): (r: Result<Projection, Error>)
    ensures r.Ok? ==> r.value.lastSequence > p.lastSequence
  {
    match parse(line)
    case Err(e) => Err(e)
    case Ok(r) => Apply(p, r)
  }

  /** Complete lines are parsed and applied in order from the cursor on; the first error stops the
      replay, and what follows the last newline is ignored. */
  function ReplayFrom(parse: LineParser, bytes: Bytes, start: nat, p: Projection, count: nat): (r: Replay)
    requires start <= |bytes|
    ensures r.Replayed? ==> r.projection.lastSequence >= p.lastSequence && r.count >= count
    decreases |bytes| - start
  {
    match FindFrom(bytes, start, LF)
    case None => Replayed(p, count)
    case Some(end) =>
      match ApplyLine(parse, p, bytes[start..end])
      case Err(e) => Failed(p, e)
      case Ok(q) => ReplayFrom(parse, bytes, end + 1, q, count + 1)
  }

  function ReplayFile(j: Journal, bytes: Bytes): Replay {
    ReplayFrom(Parser(j), bytes, 0, EMPTY, 0)
  }

  // ---- what a written line reads back as ----------------------------------------------------

  ghost predicate Storable(j: Journal, r: Record) {
    CheckRecord(r).None? && |j.codec.encode(r)| <= j.maxRecordBytes
  }

  lemma FirstAfter(front: Bytes, b: Byte, s: Bytes)
    requires b !in front && front + [b] <= s
    ensures FindFrom(s, 0, b) == Some(|front|)
  {
    var t := front + [b];
    assert s[|front|] == t[|front|];
    forall i | 0 <= i < |front| ensures s[i] != b { assert s[i] == t[i] == front[i]; }
  }

  /** A line is its text up to the first tab and what follows: a line without a tab is no record, then the text must be
      a number, the rest must have a length within bounds, that number as its checksum, and a record inside. */
  lemma LineVerdict(j: Journal, h: Bytes, json: Bytes)
    requires TAB !in h
    ensures ParseLine(j, h) == Err(InvalidRecord)
    ensures ParseLine(j, h + [TAB] + json) ==
              if ParseHex(h).None? then Err(InvalidChecksum)
              else if json == [] || |json| > j.maxRecordBytes then Err(RecordTooLarge)
              else if j.codec.checksum(json) != ParseHex(h).value then Err(ChecksumMismatch)
              else match j.codec.decode(json)
                   case None => Err(InvalidJson)
                   case Some(r) => if CheckRecord(r).Some? then Err(CheckRecord(r).value) else Ok(r)
  {
    var line := h + [TAB] + json;
    FirstAfter(h, TAB, line);
    assert line[..|h|] == h && line[|h| + 1..] == json;
  }

  lemma LineParses(j: Journal, r: Record)
    requires Lawful(j.codec) && Storable(j, r)
    ensures ParseLine(j, Body(j, r)) == Ok(r)
    ensures LF !in Body(j, r)
  {
    var json := j.codec.encode(r);
    var c := j.codec.checksum(json);
    var h := Hex(c);
    var line := Body(j, r);
    assert c < U32;
    FirstAfter(h, TAB, line);
    HexRoundTrip(c);
    assert line[..|h|] == h && line[|h| + 1..] == json;
    assert j.codec.decode(json) == Some(r);
  }

  /** Reading a line that ends in the first newline after the cursor. */
  lemma ReplayLine(parse: LineParser, bytes: Bytes, start: nat, body: Bytes, p: Projection, count: nat)
    requires LF !in body && start + |body| < |bytes|
    requires bytes[start..start + |body|] == body && bytes[start + |body|] == LF
    ensures ReplayFrom(parse, bytes, start, p, count)
         == match ApplyLine(parse, p, body)
            case Err(e) => Failed(p, e)
            case Ok(q) => ReplayFrom(parse, bytes, start + |body| + 1, q, count + 1)
  {
    forall i | start <= i < start + |body| ensures bytes[i] != LF { assert body[i - start] == bytes[i]; }
    assert FindFrom(bytes, start, LF) == Some(start + |body|);
  }

  /** The parser reads back every line of these records. */
  ghost predicate Reads(parse: LineParser, j: Journal, rs: seq<Record>) {
    forall r <- rs :: LF !in Body(j, r) && parse(Body(j, r)) == Ok(r)
  }

  lemma ParserReads(j: Journal, rs: seq<Record>)
    requires Lawful(j.codec) && forall r <- rs :: Storable(j, r)
    ensures Reads(Parser(j), j, rs)
  {
    forall r <- rs ensures LF !in Body(j, r) && Parser(j)(Body(j, r)) == Ok(r) { LineParses(j, r); }
  }

  /** The written lines at the front of a file replay to exactly the written records. */
  lemma {:induction false} ReplayLines(parse: LineParser, j: Journal, rs: seq<Record>, bytes: Bytes)
    requires Reads(parse, j, rs) && ApplyAll(EMPTY, rs).Ok? && Lines(j, rs) <= bytes
    ensures ReplayFrom(parse, bytes, 0, EMPTY, 0)
         == ReplayFrom(parse, bytes, |Lines(j, rs)|, ApplyAll(EMPTY, rs).value, |rs|)
    decreases |rs|
  {
    if rs != [] {
      var n := |rs| - 1;
      var front := Lines(j, rs[..n]);
      ReadsPart(parse, j, rs, n);
      var p := ApplyAll(EMPTY, rs[..n]).value;
      assert Lines(j, rs) == front + (Body(j, rs[n]) + [LF]) && ApplyAll(EMPTY, rs) == Apply(p, rs[n]);
      ReplayRecord(parse, bytes, front, Body(j, rs[n]), rs[n], p, n);
      ReplayLines(parse, j, rs[..n], bytes);
    } else {
      assert |Lines(j, rs)| == 0;
    }
  }

  lemma ReadsPart(parse: LineParser, j: Journal, rs: seq<Record>, n: nat)
    requires Reads(parse, j, rs) && n < |rs|
    ensures Reads(parse, j, rs[..n]) && LF !in Body(j, rs[n]) && parse(Body(j, rs[n])) == Ok(rs[n])
  {
    assert rs[n] in rs && forall r <- rs[..n] :: r in rs;
  }

  lemma ReplayRecord(parse: LineParser, bytes: Bytes, front: Bytes, body: Bytes, r: Record, p: Projection, count: nat)
    requires front + (body + [LF]) <= bytes && LF !in body
    requires parse(body) == Ok(r) && Apply(p, r).Ok?
    ensures front <= bytes
    ensures ReplayFrom(parse, bytes, |front|, p, count)
         == ReplayFrom(parse, bytes, |front + (body + [LF])|, Apply(p, r).value, count + 1)
  {
    LineAt(front, body, bytes);
    ReplayLine(parse, bytes, |front|, body, p, count);
  }

  lemma LineAt(front: Bytes, body: Bytes, bytes: Bytes)
    requires front + (body + [LF]) <= bytes
    ensures front <= bytes && |front| + |body| < |bytes|
    ensures bytes[|front|..|front| + |body|] == body && bytes[|front| + |body|] == LF
  {
    var s := front + (body + [LF]);
    assert s == bytes[..|s|];
    assert bytes[|front|..|front| + |body|] == s[|front|..|front| + |body|] == body;
    assert s[|front| + |body|] == LF;
  }

  ghost predicate NoNewlineFrom(bytes: Bytes, start: nat) {
    forall i :: start <= i < |bytes| ==> bytes[i] != LF
  }

  lemma ReplayIgnoresTail(j: Journal, rs: seq<Record>, bytes: Bytes)
    requires Lawful(j.codec) && Lines(j, rs) <= bytes && NoNewlineFrom(bytes, |Lines(j, rs)|)
    requires forall r <- rs :: Storable(j, r)
    requires ApplyAll(EMPTY, rs).Ok?
    ensures ReplayFile(j, bytes) == Replayed(ApplyAll(EMPTY, rs).value, |rs|)
  {
    ParserReads(j, rs);
    ReplayLines(Parser(j), j, rs, bytes);
  }

  lemma TailWithoutNewline(front: Bytes, tail: Bytes)
    requires LF !in tail
    ensures NoNewlineFrom(front + tail, |front|)
  {
    forall i | |front| <= i < |front + tail| ensures (front + tail)[i] != LF {
      assert (front + tail)[i] == tail[i - |front|];
    }
  }

  lemma PartHasNoNewline(j: Journal, front: Bytes, r: Record, written: nat)
    requires Lawful(j.codec) && Storable(j, r) && written < |Line(j, r)|
    ensures NoNewlineFrom(front + Line(j, r)[..written], |front|)
  {
    LineParses(j, r);
    assert Line(j, r)[..written] == Body(j, r)[..written];
    TailWithoutNewline(front, Line(j, r)[..written]);
  }

  /** A crash during an append leaves a prefix of the line: the record is there exactly when the
      whole line is, and otherwise the file replays as before the append. */
  lemma TornAppend(j: Journal, rs: seq<Record>, r: Record, written: nat)
    requires Lawful(j.codec) && Storable(j, r)
    requires forall x <- rs :: Storable(j, x)
    requires ApplyAll(EMPTY, rs + [r]).Ok?
    requires written <= |Line(j, r)|
    ensures ApplyAll(EMPTY, rs).Ok?
    ensures ReplayFile(j, Lines(j, rs) + Line(j, r)[..written])
         == if written == |Line(j, r)| then Replayed(ApplyAll(EMPTY, rs + [r]).value, |rs| + 1)
            else Replayed(ApplyAll(EMPTY, rs).value, |rs|)
  {
    var line := Line(j, r);
    assert (rs + [r])[..|rs|] == rs;
    if written == |line| {
      assert line[..written] == line;
      assert Lines(j, rs + [r]) == Lines(j, rs) + line;
      ReplayIgnoresTail(j, rs + [r], Lines(j, rs) + line);
    } else {
      PartHasNoNewline(j, Lines(j, rs), r, written);
      ReplayIgnoresTail(j, rs, Lines(j, rs) + line[..written]);
    }
  }
}
