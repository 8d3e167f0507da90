/** The binary envelope: a 40-byte big-endian header, then seven length-prefixed fields. */
module WireCodec {
  import opened Common
  import opened Arithmetic
  import opened CanonicalEvent

  const MAGIC: nat := 0x55424951
  const VERSION: nat := 1
  const HEADER: nat := 40

  datatype WireError =
    | BufferTooSmall | InvalidMagic | UnsupportedVersion | InvalidFrame | StateDisagrees | FieldTooLarge
    | BadName(error: NameError)

  datatype Envelope = Envelope(
    id: Bytes, name: Bytes, state: EventState, correlationId: Bytes, causationId: Bytes,
    idempotencyKey: Bytes, schemaId: Bytes, payload: Bytes, guarantee: Guarantee, createdAtMs: nat)

  // ---- big-endian integers ------------------------------------------------------------------

  function Pow256(w: nat): (p: nat)
    ensures p > 0
  {
    if w == 0 then 1 else 256 * Pow256(w - 1)
  }

  function BE(w: nat, v: nat): (s: Bytes)
    ensures |s| == w
  {
    if w == 0 then [] else BE(w - 1, v / 256) + [v % 256]
  }

  function Value(s: Bytes): nat {
    if s == [] then 0 else Value(s[..|s| - 1]) * 256 + s[|s| - 1]
  }

  lemma {:induction false} ValueOfBE(w: nat, v: nat)
    requires v < Pow256(w)
    ensures Value(BE(w, v)) == v
  {
    if w > 0 {
      ValueOfBE(w - 1, v / 256);
      assert BE(w, v)[..w - 1] == BE(w - 1, v / 256);
    }
  }

  lemma {:induction false} BEOfValue(s: Bytes)
    ensures Value(s) < Pow256(|s|)
    ensures BE(|s|, Value(s)) == s
    decreases |s|
  {
    if s != [] {
      var init := s[..|s| - 1];
      BEOfValue(init);
      assert Value(s) / 256 == Value(init) && Value(s) % 256 == s[|s| - 1];
      assert s == init + [s[|s| - 1]];
    }
  }

  /** The byte that counts 256 to the power `place`. */
  function ByteAt(v: nat, place: nat): Byte {
    v / Pow256(place) % 256
  }

  /** The most significant byte comes first. */
  lemma {:induction false} BigEndian(w: nat, v: nat, i: nat)
    requires i < w
    ensures BE(w, v)[i] == ByteAt(v, w - 1 - i)
  {
    if i < w - 1 {
      BigEndian(w - 1, v / 256, i);
      DivideTwice(v, 256, Pow256(w - 2 - i));
    }
  }

  // ---- lists of integers and of fields ------------------------------------------------------

  function Total(ws: seq<nat>): nat {
    if ws == [] then 0 else Total(ws[..|ws| - 1]) + ws[|ws| - 1]
  }

  function EncodeInts(ws: seq<nat>, vs: seq<nat>): (s: Bytes)
    requires |ws| == |vs|
    ensures |s| == Total(ws)
  {
    if ws == [] then []
    else EncodeInts(ws[..|ws| - 1], vs[..|ws| - 1]) + BE(ws[|ws| - 1], vs[|ws| - 1])
  }

  function DecodeInts(ws: seq<nat>, s: Bytes): (vs: seq<nat>)
    requires |s| == Total(ws)
    ensures |vs| == |ws|
    decreases |ws|
  {
    if ws == [] then []
    else
      var init := ws[..|ws| - 1];
      DecodeInts(init, s[..Total(init)]) + [Value(s[Total(init)..])]
  }

  /** Every value fits its width. */
  ghost predicate Fit(ws: seq<nat>, vs: seq<nat>) {
    |ws| == |vs| && forall i :: 0 <= i < |ws| ==> vs[i] < Pow256(ws[i])
  }

  lemma {:induction false} IntsRoundTrip(ws: seq<nat>, vs: seq<nat>)
    requires Fit(ws, vs)
    ensures DecodeInts(ws, EncodeInts(ws, vs)) == vs
    decreases |ws|
  {
    if ws != [] {
      var n := |ws| - 1;
      IntsRoundTrip(ws[..n], vs[..n]);
      var s := EncodeInts(ws, vs);
      assert s[..Total(ws[..n])] == EncodeInts(ws[..n], vs[..n]);
      assert s[Total(ws[..n])..] == BE(ws[n], vs[n]);
      ValueOfBE(ws[n], vs[n]);
      assert vs == vs[..n] + [vs[n]];
    }
  }

  lemma {:induction false} IntsMore(ws: seq<nat>, vs: seq<nat>, w: nat, v: nat)
    requires |ws| == |vs|
    ensures EncodeInts(ws + [w], vs + [v]) == EncodeInts(ws, vs) + BE(w, v)
  {
    assert (ws + [w])[..|ws|] == ws && (vs + [v])[..|ws|] == vs;
  }

  lemma {:induction false} BytesRoundTrip(ws: seq<nat>, s: Bytes)
    requires |s| == Total(ws)
    ensures Fit(ws, DecodeInts(ws, s))
    ensures EncodeInts(ws, DecodeInts(ws, s)) == s
    decreases |ws|
  {
    if ws != [] {
      var init := ws[..|ws| - 1];
      var head, tail := s[..Total(init)], s[Total(init)..];
      BytesRoundTrip(init, head);
      DecodeLast(ws, s, init, head, tail);
      LastValue(init, DecodeInts(init, head), head, ws[|ws| - 1], tail);
    }
  }

  lemma {:induction false} DecodeLast(ws: seq<nat>, s: Bytes, init: seq<nat>, head: Bytes, tail: Bytes)
    requires ws != [] && |s| == Total(ws) && init == ws[..|ws| - 1]
    requires head == s[..Total(init)] && tail == s[Total(init)..]
    ensures DecodeInts(ws, s) == DecodeInts(init, head) + [Value(tail)]
    ensures ws == init + [ws[|ws| - 1]] && s == head + tail && |tail| == ws[|ws| - 1]
  {
  }

  lemma {:induction false} LastValue(init: seq<nat>, vs: seq<nat>, head: Bytes, w: nat, tail: Bytes)
    requires Fit(init, vs) && EncodeInts(init, vs) == head && |tail| == w
    ensures Fit(init + [w], vs + [Value(tail)]) && EncodeInts(init + [w], vs + [Value(tail)]) == head + tail
  {
    BEOfValue(tail);
    LastInt(init, vs, head, w, Value(tail), tail);
  }

  lemma {:induction false} LastInt(init: seq<nat>, vs: seq<nat>, head: Bytes, w: nat, v: nat, tail: Bytes)
    requires Fit(init, vs) && EncodeInts(init, vs) == head && v < Pow256(w) && tail == BE(w, v)
    ensures Fit(init + [w], vs + [v]) && EncodeInts(init + [w], vs + [v]) == head + tail
  {
    IntsMore(init, vs, w, v);
  }

  function Concat(parts: seq<Bytes>): Bytes {
    if parts == [] then [] else Concat(parts[..|parts| - 1]) + parts[|parts| - 1]
  }

  function Lengths(parts: seq<Bytes>): seq<nat> {
    seq<nat>(|parts|, i requires 0 <= i < |parts| => |parts[i]|)
  }

  function Split(lens: seq<nat>, s: Bytes): (parts: seq<Bytes>)
    requires |s| == Total(lens)
    ensures |parts| == |lens|
    decreases |lens|
  {
    if lens == [] then []
    else
      var k := Total(lens[..|lens| - 1]);
      Split(lens[..|lens| - 1], s[..k]) + [s[k..]]
  }

  lemma {:induction false} ConcatLength(parts: seq<Bytes>)
    ensures |Concat(parts)| == Total(Lengths(parts))
    decreases |parts|
  {
    if parts != [] {
      ConcatLength(parts[..|parts| - 1]);
      assert Lengths(parts)[..|parts| - 1] == Lengths(parts[..|parts| - 1]);
    }
  }

  lemma {:induction false} SplitConcat(parts: seq<Bytes>)
    ensures |Concat(parts)| == Total(Lengths(parts)) && Split(Lengths(parts), Concat(parts)) == parts
    decreases |parts|
  {
    ConcatLength(parts);
    if parts != [] {
      var n := |parts| - 1;
      SplitConcat(parts[..n]);
      assert Lengths(parts)[..n] == Lengths(parts[..n]);
      assert Concat(parts)[..|Concat(parts[..n])|] == Concat(parts[..n]);
      assert Concat(parts)[|Concat(parts[..n])|..] == parts[n];
      assert parts == parts[..n] + [parts[n]];
    }
  }

  lemma {:induction false} ConcatSplit(lens: seq<nat>, s: Bytes)
    requires |s| == Total(lens)
    ensures Concat(Split(lens, s)) == s && Lengths(Split(lens, s)) == lens
    decreases |lens|
  {
    if lens != [] {
      var n := |lens| - 1;
      var k := Total(lens[..n]);
      ConcatSplit(lens[..n], s[..k]);
      var parts := Split(lens, s);
      assert parts[..n] == Split(lens[..n], s[..k]);
      assert s == s[..k] + s[k..];
      assert lens == lens[..n] + [lens[n]];
      forall i | 0 <= i < |lens| ensures Lengths(parts)[i] == lens[i] {
        if i < n { assert Lengths(parts[..n])[i] == lens[..n][i]; }
      }
    }
  }

  // ---- the frame ----------------------------------------------------------------------------

  const WIDTHS: seq<nat> := [4, 2, 1, 1, 8, 2, 2, 2, 2, 2, 2, 4, 8]

  lemma TotalMore(ws: seq<nat>, w: nat)
    ensures Total(ws + [w]) == Total(ws) + w
  {
    assert (ws + [w])[..|ws|] == ws;
  }

  /** Where each header field starts, and the end. */
  const OFFSETS: seq<nat> := [0, 4, 6, 7, 8, 16, 18, 20, 22, 24, 26, 28, 32, 40]

  lemma {:induction false} FieldOffset(i: nat)
    requires i <= 13
    ensures Total(WIDTHS[..i]) == OFFSETS[i]
  {
    if i > 0 {
      FieldOffset(i - 1);
      TotalMore(WIDTHS[..i - 1], WIDTHS[i - 1]);
      assert WIDTHS[..i] == WIDTHS[..i - 1] + [WIDTHS[i - 1]];
    }
  }

  lemma HeaderIs40()
    ensures Total(WIDTHS) == HEADER
  {
    FieldOffset(13);
    assert WIDTHS[..13] == WIDTHS;
  }

  function StateCode(s: EventState): nat {
    match s case Request => 0 case OkState => 1 case ErrorState => 2
  }

  function GuaranteeCode(g: Guarantee): nat {
    match g case BestEffort => 0 case AtReceipt => 1 case AtProcessing => 2
  }

  function DecodeState(n: nat): Option<EventState> {
    if n == 0 then Some(Request) else if n == 1 then Some(OkState) else if n == 2 then Some(ErrorState) else None
  }

  function DecodeGuarantee(n: nat): Option<Guarantee> {
    if n == 0 then Some(BestEffort) else if n == 1 then Some(AtReceipt) else if n == 2 then Some(AtProcessing) else None
  }

  function Parts(e: Envelope): seq<Bytes> {
    [e.id, e.name, e.correlationId, e.causationId, e.idempotencyKey, e.schemaId, e.payload]
  }

  function HeaderValues(e: Envelope): seq<nat> {
    [MAGIC, VERSION, StateCode(e.state), GuaranteeCode(e.guarantee), e.createdAtMs,
     |e.id|, |e.name|, |e.correlationId|, |e.causationId|, |e.idempotencyKey|, |e.schemaId|, |e.payload|, 0]
  }

  function EncodeFrame(e: Envelope): Bytes {
    EncodeInts(WIDTHS, HeaderValues(e)) + Concat(Parts(e))
  }

  /** Magic, version, state, guarantee, total length, fields, name, and the name's state, in this order. */
  function DecodeBody(v: seq<nat>, body: Bytes): Result<Envelope, WireError>
    requires |v| == 13
  {
    if v[0] != MAGIC then Err(InvalidMagic)
    else if v[1] != VERSION then Err(UnsupportedVersion)
    else
      match DecodeState(v[2])
      case None => Err(StateDisagrees)
      case Some(state) =>
        match DecodeGuarantee(v[3])
        case None => Err(InvalidFrame)
        case Some(guarantee) =>
          if Total(v[5..12]) != |body| then Err(InvalidFrame)
          else
            var p := Split(v[5..12], body);
            match ParseName(p[1])
            case Err(e) => Err(BadName(e))
            case Ok(named) =>
              if named != state then Err(StateDisagrees)
              else Ok(Envelope(p[0], p[1], state, p[2], p[3], p[4], p[5], p[6], guarantee, v[4]))
  }

  function DecodeFrame(frame: Bytes): Result<Envelope, WireError> {
    if |frame| < HEADER then Err(InvalidFrame)
    else
      HeaderIs40();
      DecodeBody(DecodeInts(WIDTHS, frame[..HEADER]), frame[HEADER..])
  }

  /** Within the length limits, with a 64-bit time and a name that carries the state. */
  ghost predicate Sendable(e: Envelope) {
    && |e.id| < 0x1_0000 && |e.name| < 0x1_0000 && |e.correlationId| < 0x1_0000 && |e.causationId| < 0x1_0000
    && |e.idempotencyKey| < 0x1_0000 && |e.schemaId| < 0x1_0000 && |e.payload| < 0x1_0000_0000
    && e.createdAtMs < 0x1_0000_0000_0000_0000
    && ParseName(e.name) == Ok(e.state)
  }

  // ---- the layout ---------------------------------------------------------------------------

  /** The bytes are the number in big-endian order. */
  ghost predicate ReadsAs(bytes: Bytes, v: nat) {
    forall i :: 0 <= i < |bytes| ==> bytes[i] == ByteAt(v, |bytes| - 1 - i)
  }

  /** Integer i of a list stands behind the widths before it. */
  lemma {:induction false} IntAt(ws: seq<nat>, vs: seq<nat>, i: nat)
    requires |ws| == |vs| && i < |ws|
    ensures Total(ws[..i]) + ws[i] <= Total(ws)
    ensures EncodeInts(ws, vs)[Total(ws[..i])..Total(ws[..i]) + ws[i]] == BE(ws[i], vs[i])
    decreases |ws|
  {
    var n := |ws| - 1;
    var front, last := EncodeInts(ws[..n], vs[..n]), BE(ws[n], vs[n]);
    assert EncodeInts(ws, vs) == front + last;
    if i < n {
      IntAt(ws[..n], vs[..n], i);
      assert ws[..n][..i] == ws[..i];
      SliceOfFront(front, last, Total(ws[..i]), Total(ws[..i]) + ws[i]);
    } else {
      assert (front + last)[|front|..|front| + |last|] == last;
    }
  }

  lemma {:induction false} HeaderField(e: Envelope, i: nat)
    requires i < 13
    ensures |EncodeFrame(e)| >= 40 && OFFSETS[i] + WIDTHS[i] <= 40
    ensures EncodeFrame(e)[OFFSETS[i]..OFFSETS[i] + WIDTHS[i]] == BE(WIDTHS[i], HeaderValues(e)[i])
  {
    HeaderIs40();
    FieldOffset(i);
    IntAt(WIDTHS, HeaderValues(e), i);
    SliceOfFront(EncodeInts(WIDTHS, HeaderValues(e)), Concat(Parts(e)), OFFSETS[i], OFFSETS[i] + WIDTHS[i]);
  }

  lemma SliceOfFront(a: Bytes, b: Bytes, from: nat, to: nat)
    requires from <= to <= |a|
    ensures (a + b)[from..to] == a[from..to]
  {
  }

  /** Header field i of the frame holds the number. */
  ghost predicate FieldIs(f: Bytes, i: nat, v: nat)
    requires |f| >= 40 && i < 13
  {
    OFFSETS[i] + WIDTHS[i] <= 40 && f[OFFSETS[i]..OFFSETS[i] + WIDTHS[i]] == BE(WIDTHS[i], v)
  }

  lemma {:induction false} HeaderIs(e: Envelope)
    ensures |EncodeFrame(e)| >= 40
    ensures forall i: nat :: i < 13 ==> FieldIs(EncodeFrame(e), i, HeaderValues(e)[i])
  {
    HeaderField(e, 0);
    forall i: nat | i < 13 ensures FieldIs(EncodeFrame(e), i, HeaderValues(e)[i]) { HeaderField(e, i); }
  }

  lemma {:induction false} FieldBytes(f: Bytes, i: nat, at: nat, w: nat, v: nat)
    requires |f| >= 40 && i < 13 && FieldIs(f, i, v) && at == OFFSETS[i] && w == WIDTHS[i]
    ensures f[at..at + w] == BE(w, v)
  {
  }

  lemma {:induction false} FieldReads(f: Bytes, i: nat, at: nat, w: nat, v: nat)
    requires |f| >= 40 && i < 13 && FieldIs(f, i, v) && at == OFFSETS[i] && w == WIDTHS[i]
    ensures ReadsAs(f[at..at + w], v)
  {
    forall k | 0 <= k < w ensures BE(w, v)[k] == ByteAt(v, w - 1 - k) { BigEndian(w, v, k); }
  }

  lemma {:induction false} PartsJoined(e: Envelope)
    ensures Concat(Parts(e))
            == e.id + e.name + e.correlationId + e.causationId + e.idempotencyKey + e.schemaId + e.payload
  {
    var p := Parts(e);
    assert p[..1] == [] + [e.id] && p[..2] == p[..1] + [e.name] && p[..3] == p[..2] + [e.correlationId];
    assert p[..4] == p[..3] + [e.causationId] && p[..5] == p[..4] + [e.idempotencyKey];
    assert p[..6] == p[..5] + [e.schemaId] && p == p[..6] + [e.payload];
    ConcatMore([], e.id);
    ConcatMore(p[..1], e.name);
    ConcatMore(p[..2], e.correlationId);
    ConcatMore(p[..3], e.causationId);
    ConcatMore(p[..4], e.idempotencyKey);
    ConcatMore(p[..5], e.schemaId);
    ConcatMore(p[..6], e.payload);
  }

  lemma {:induction false} ConcatMore(parts: seq<Bytes>, part: Bytes)
    ensures Concat(parts + [part]) == Concat(parts) + part
  {
    assert (parts + [part])[..|parts|] == parts;
  }

  lemma {:induction false} MagicBytes(b: Bytes)
    requires b == BE(4, 0x55424951)
    ensures b == [0x55, 0x42, 0x49, 0x51]
  {
    assert BE(0, 0) == [];
    assert BE(1, 0x55) == [0x55];
    assert BE(2, 0x5542) == [0x55, 0x42];
    assert BE(3, 0x554249) == [0x55, 0x42, 0x49];
  }

  lemma {:induction false} SmallInts(v: Byte)
    ensures BE(1, v) == [v] && BE(2, v) == [0, v]
  {
    assert BE(1, v) == BE(0, 0) + [v];
    assert BE(2, v) == BE(1, 0) + [v];
    assert BE(1, 0) == [0];
  }

  lemma {:induction false} ZeroBytes(b: Bytes)
    requires b == BE(8, 0)
    ensures b == [0, 0, 0, 0, 0, 0, 0, 0]
  {
    forall i | 0 <= i < 8 ensures b[i] == 0 { BigEndian(8, 0, i); }
  }

  /** Where everything stands in a frame: the letters UBIQ, version 1, one byte each for the state and the guarantee,
      the time in 8 bytes, six lengths in 2 bytes each, the payload's length in 4, 8 zero bytes, and the fields in
      order. */
  lemma {:induction false} FrameLayout(e: Envelope)
    ensures var f := EncodeFrame(e);
            && |f| >= 40 && f[0..4] == [0x55, 0x42, 0x49, 0x51] && f[4..6] == [0, 1]
            && f[6] == (if e.state == Request then 0 else if e.state == OkState then 1 else 2)
            && f[7] == (if e.guarantee == BestEffort then 0 else if e.guarantee == AtReceipt then 1 else 2)
            && ReadsAs(f[8..16], e.createdAtMs) && ReadsAs(f[16..18], |e.id|) && ReadsAs(f[18..20], |e.name|)
            && ReadsAs(f[20..22], |e.correlationId|) && ReadsAs(f[22..24], |e.causationId|)
            && ReadsAs(f[24..26], |e.idempotencyKey|) && ReadsAs(f[26..28], |e.schemaId|)
            && ReadsAs(f[28..32], |e.payload|) && f[32..40] == [0, 0, 0, 0, 0, 0, 0, 0]
            && f[40..] == e.id + e.name + e.correlationId + e.causationId + e.idempotencyKey + e.schemaId + e.payload
  {
    HeaderIs(e);
    HeaderStart(e, EncodeFrame(e));
    HeaderLengths(e, EncodeFrame(e));
    HeaderEnd(e, EncodeFrame(e));
    PartsJoined(e);
    HeaderIs40();
    assert EncodeFrame(e)[40..] == Concat(Parts(e));
  }

  lemma {:induction false} HeaderStart(e: Envelope, f: Bytes)
    requires |f| >= 40 && forall i: nat :: i < 13 ==> FieldIs(f, i, HeaderValues(e)[i])
    ensures f[0..4] == [0x55, 0x42, 0x49, 0x51] && f[4..6] == [0, 1]
    ensures f[6] == if e.state == Request then 0 else if e.state == OkState then 1 else 2
    ensures f[7] == if e.guarantee == BestEffort then 0 else if e.guarantee == AtReceipt then 1 else 2
  {
    var h := HeaderValues(e);
    FieldBytes(f, 0, 0, 4, h[0]);
    MagicBytes(f[0..4]);
    FieldBytes(f, 1, 4, 2, h[1]);
    VersionBytes(f[4..6]);
    FieldBytes(f, 2, 6, 1, h[2]);
    OneByte(f, 6, h[2]);
    FieldBytes(f, 3, 7, 1, h[3]);
    OneByte(f, 7, h[3]);
  }

  lemma {:induction false} VersionBytes(b: Bytes)
    requires b == BE(2, 1)
    ensures b == [0, 1]
  {
    SmallInts(1);
  }

  lemma {:induction false} OneByte(frame: Bytes, at: nat, v: Byte)
    requires at < |frame| && frame[at..at + 1] == BE(1, v)
    ensures frame[at] == v
  {
    SmallInts(v);
    assert frame[at] == frame[at..at + 1][0];
  }

  lemma {:induction false} HeaderEnd(e: Envelope, f: Bytes)
    requires |f| >= 40 && forall i: nat :: i < 13 ==> FieldIs(f, i, HeaderValues(e)[i])
    ensures f[32..40] == [0, 0, 0, 0, 0, 0, 0, 0]
  {
    FieldBytes(f, 12, 32, 8, HeaderValues(e)[12]);
    ZeroBytes(f[32..40]);
  }

  lemma {:induction false} HeaderLengths(e: Envelope, f: Bytes)
    requires |f| >= 40 && forall i: nat :: i < 13 ==> FieldIs(f, i, HeaderValues(e)[i])
    ensures ReadsAs(f[8..16], e.createdAtMs) && ReadsAs(f[16..18], |e.id|) && ReadsAs(f[18..20], |e.name|)
    ensures ReadsAs(f[20..22], |e.correlationId|) && ReadsAs(f[22..24], |e.causationId|)
    ensures ReadsAs(f[24..26], |e.idempotencyKey|) && ReadsAs(f[26..28], |e.schemaId|)
    ensures ReadsAs(f[28..32], |e.payload|)
  {
    FieldReads(f, 4, 8, 8, HeaderValues(e)[4]);
    FieldReads(f, 5, 16, 2, HeaderValues(e)[5]);
    FieldReads(f, 6, 18, 2, HeaderValues(e)[6]);
    FieldReads(f, 7, 20, 2, HeaderValues(e)[7]);
    FieldReads(f, 8, 22, 2, HeaderValues(e)[8]);
    FieldReads(f, 9, 24, 2, HeaderValues(e)[9]);
    FieldReads(f, 10, 26, 2, HeaderValues(e)[10]);
    FieldReads(f, 11, 28, 4, HeaderValues(e)[11]);
  }

  // ---- round trips --------------------------------------------------------------------------

  lemma Powers()
    ensures Pow256(1) == 0x100 && Pow256(2) == 0x1_0000 && Pow256(4) == 0x1_0000_0000
    ensures Pow256(8) == 0x1_0000_0000_0000_0000
  {
    assert Pow256(3) == 256 * Pow256(2);
    assert Pow256(5) == 256 * Pow256(4);
    assert Pow256(7) == 256 * Pow256(6);
  }

  lemma HeaderFits(e: Envelope)
    requires Sendable(e)
    ensures Fit(WIDTHS, HeaderValues(e))
  {
    Powers();
  }

  lemma PartLengths(e: Envelope)
    ensures Lengths(Parts(e)) == HeaderValues(e)[5..12]
  {}

  /** Decoding undoes encoding for exactly the sendable envelopes. */
  lemma DecodeEncode(e: Envelope)
    ensures DecodeFrame(EncodeFrame(e)) == Ok(e) <==> Sendable(e)
  {
    if Sendable(e) {
      var v := FrameSplits(e);
      FrameDecodes(e, EncodeFrame(e), v);
    }
    if DecodeFrame(EncodeFrame(e)) == Ok(e) { AcceptedIsSendable(EncodeFrame(e)); }
  }

  /** The header values and fields that a frame of e must split into. */
  ghost predicate SplitsInto(f: Bytes, v: seq<nat>, e: Envelope) {
    && |f| >= HEADER == Total(WIDTHS) && DecodeInts(WIDTHS, f[..HEADER]) == v
    && |v| == 13 && v[0] == MAGIC && v[1] == VERSION && v[4] == e.createdAtMs
    && v[2] == StateCode(e.state) && v[3] == GuaranteeCode(e.guarantee)
    && |f[HEADER..]| == Total(v[5..12]) && Split(v[5..12], f[HEADER..]) == Parts(e)
  }

  lemma FrameDecodes(e: Envelope, f: Bytes, v: seq<nat>)
    requires SplitsInto(f, v, e) && ParseName(e.name) == Ok(e.state)
    ensures DecodeFrame(f) == Ok(e)
  {
    assert Split(v[5..12], f[HEADER..])[1] == e.name;
  }

  lemma FrameSplits(e: Envelope) returns (v: seq<nat>)
    requires Sendable(e)
    ensures SplitsInto(EncodeFrame(e), v, e)
  {
    v := HeaderValues(e);
    HeaderFits(e);
    FrameWithHeader(e, v, EncodeFrame(e));
  }

  /** A header that differs from the envelope's in the reserved bytes at most. */
  lemma FrameWithHeader(e: Envelope, v: seq<nat>, frame: Bytes)
    requires Fit(WIDTHS, v) && v[12 := 0] == HeaderValues(e) && frame == EncodeInts(WIDTHS, v) + Concat(Parts(e))
    ensures SplitsInto(frame, v, e)
  {
    HeaderIs40();
    IntsRoundTrip(WIDTHS, v);
    FrameParts(EncodeInts(WIDTHS, v), Concat(Parts(e)), frame);
    SplitConcat(Parts(e));
    PartLengths(e);
    SameLengths(v, HeaderValues(e));
  }

  lemma FrameParts(head: Bytes, body: Bytes, frame: Bytes)
    requires |head| == HEADER && frame == head + body
    ensures frame[..HEADER] == head && frame[HEADER..] == body
  {
  }

  lemma SameLengths(v: seq<nat>, h: seq<nat>)
    requires |v| == 13 && h == v[12 := 0]
    ensures v[5..12] == h[5..12] && forall i :: 0 <= i < 12 ==> v[i] == h[i]
  {
  }

  /** The eight reserved bytes. */
  function Reserved(frame: Bytes): nat
    requires |frame| >= HEADER
  {
    HeaderIs40();
    DecodeInts(WIDTHS, frame[..HEADER])[12]
  }

  /** What an accepted body tells of its envelope. */
  lemma AcceptedBody(v: seq<nat>, body: Bytes, e: Envelope)
    requires |v| == 13 && DecodeBody(v, body) == Ok(e)
    ensures Concat(Parts(e)) == body && Lengths(Parts(e)) == v[5..12] && ParseName(e.name) == Ok(e.state)
    ensures v[0] == MAGIC && v[1] == VERSION && v[4] == e.createdAtMs
    ensures DecodeState(v[2]) == Some(e.state) && DecodeGuarantee(v[3]) == Some(e.guarantee)
  {
    ConcatSplit(v[5..12], body);
    assert Parts(e) == Split(v[5..12], body);
  }

  /** What an accepted frame decodes to could have been sent, and its header fields are the envelope's,
      the reserved one aside. */
  lemma AcceptedIsSendable(frame: Bytes)
    requires DecodeFrame(frame).Ok?
    ensures var e := DecodeFrame(frame).value;
            && Sendable(e) && Concat(Parts(e)) == frame[HEADER..]
            && Total(WIDTHS) == HEADER && HeaderValues(e) == DecodeInts(WIDTHS, frame[..HEADER])[12 := 0]
  {
    HeaderIs40();
    var v := DecodeInts(WIDTHS, frame[..HEADER]);
    var e := DecodeFrame(frame).value;
    BytesRoundTrip(WIDTHS, frame[..HEADER]);
    AcceptedBody(v, frame[HEADER..], e);
    HeaderIsEnvelopes(v, e);
  }

  lemma HeaderIsEnvelopes(v: seq<nat>, e: Envelope)
    requires Fit(WIDTHS, v) && Lengths(Parts(e)) == v[5..12] && ParseName(e.name) == Ok(e.state)
    requires v[0] == MAGIC && v[1] == VERSION && v[4] == e.createdAtMs
    requires DecodeState(v[2]) == Some(e.state) && DecodeGuarantee(v[3]) == Some(e.guarantee)
    ensures Sendable(e) && HeaderValues(e) == v[12 := 0]
  {
    PartLengths(e);
    SameHeader(e, v);
    Powers();
    SendableFromHeader(e, v[12 := 0]);
  }

  lemma {:induction false} HeaderSlice(frame: Bytes, v: seq<nat>, i: nat)
    requires |frame| >= HEADER == Total(WIDTHS) && v == DecodeInts(WIDTHS, frame[..HEADER]) && i < 13
    ensures v[i] < Pow256(WIDTHS[i])
    ensures OFFSETS[i] + WIDTHS[i] <= 40 && frame[OFFSETS[i]..OFFSETS[i] + WIDTHS[i]] == BE(WIDTHS[i], v[i])
  {
    BytesRoundTrip(WIDTHS, frame[..HEADER]);
    FieldOffset(i);
    IntAt(WIDTHS, v, i);
    SliceOfFront(frame[..HEADER], frame[HEADER..], OFFSETS[i], OFFSETS[i] + WIDTHS[i]);
    assert frame == frame[..HEADER] + frame[HEADER..];
  }

  lemma SameInt(w: nat, a: nat, b: nat)
    requires a < Pow256(w) && b < Pow256(w) && BE(w, a) == BE(w, b)
    ensures a == b
  {
    ValueOfBE(w, a);
    ValueOfBE(w, b);
  }

  lemma {:induction false} MagicRead(frame: Bytes, v: seq<nat>)
    requires |frame| >= HEADER == Total(WIDTHS) && v == DecodeInts(WIDTHS, frame[..HEADER])
    ensures v[0] == MAGIC <==> frame[0..4] == [0x55, 0x42, 0x49, 0x51]
  {
    HeaderSlice(frame, v, 0);
    MagicBytes(BE(4, MAGIC));
    Powers();
    if frame[0..4] == [0x55, 0x42, 0x49, 0x51] { SameInt(4, v[0], MAGIC); }
  }

  lemma {:induction false} VersionRead(frame: Bytes, v: seq<nat>)
    requires |frame| >= HEADER == Total(WIDTHS) && v == DecodeInts(WIDTHS, frame[..HEADER])
    ensures v[1] == VERSION <==> frame[4..6] == [0, 1]
  {
    HeaderSlice(frame, v, 1);
    SmallInts(1);
    Powers();
    if frame[4..6] == [0, 1] { SameInt(2, v[1], 1); }
  }

  lemma {:induction false} CodesRead(frame: Bytes, v: seq<nat>)
    requires |frame| >= HEADER == Total(WIDTHS) && v == DecodeInts(WIDTHS, frame[..HEADER])
    ensures v[2] == frame[6] && v[3] == frame[7]
  {
    HeaderSlice(frame, v, 2);
    HeaderSlice(frame, v, 3);
    Powers();
    SmallInts(v[2]);
    SmallInts(v[3]);
    assert frame[6] == frame[6..7][0] && frame[7] == frame[7..8][0];
  }

  /** What the decoder finds wrong with a header, in its order: too short, not the letters UBIQ, not version 1, no code
      of a state, no code of a guarantee. */
  lemma RefusedHeaders(frame: Bytes)
    ensures |frame| < 40 ==> DecodeFrame(frame) == Err(InvalidFrame)
    ensures |frame| >= 40 ==>
              if frame[0..4] != [0x55, 0x42, 0x49, 0x51] then DecodeFrame(frame) == Err(InvalidMagic)
              else if frame[4..6] != [0, 1] then DecodeFrame(frame) == Err(UnsupportedVersion)
              else if frame[6] > 2 then DecodeFrame(frame) == Err(StateDisagrees)
              else frame[7] > 2 ==> DecodeFrame(frame) == Err(InvalidFrame)
  {
    HeaderIs40();
    if |frame| >= 40 {
      var v := DecodeInts(WIDTHS, frame[..HEADER]);
      MagicRead(frame, v);
      VersionRead(frame, v);
      CodesRead(frame, v);
    }
  }

  /** The second field starts where the first ends. */
  lemma {:induction false} SecondPart(lens: seq<nat>, body: Bytes)
    requires |lens| >= 2 && |body| == Total(lens)
    ensures lens[0] + lens[1] <= |body| && Split(lens, body)[1] == body[lens[0]..lens[0] + lens[1]]
    decreases |lens|
  {
    var n := |lens| - 1;
    var k := Total(lens[..n]);
    if n >= 2 {
      SecondPart(lens[..n], body[..k]);
    } else {
      assert lens[..1][..0] == [];
      assert Total(lens[..1]) == Total(lens[..1][..0]) + lens[0];
    }
  }

  /** The lengths that a header announces. */
  function Announced(frame: Bytes): (lens: seq<nat>)
    requires |frame| >= 40
    ensures |lens| == 7
  {
    [Value(frame[16..18]), Value(frame[18..20]), Value(frame[20..22]), Value(frame[22..24]), Value(frame[24..26]),
     Value(frame[26..28]), Value(frame[28..32])]
  }

  lemma {:induction false} LengthRead(frame: Bytes, v: seq<nat>, i: nat)
    requires |frame| >= HEADER == Total(WIDTHS) && v == DecodeInts(WIDTHS, frame[..HEADER]) && 5 <= i < 12
    ensures Announced(frame)[i - 5] == v[i]
  {
    HeaderSlice(frame, v, i);
    ValueOfBE(WIDTHS[i], v[i]);
  }

  lemma {:induction false} LengthsRead(frame: Bytes, v: seq<nat>)
    requires |frame| >= HEADER == Total(WIDTHS) && v == DecodeInts(WIDTHS, frame[..HEADER])
    ensures v[5..12] == Announced(frame)
  {
    forall i | 5 <= i < 12 ensures Announced(frame)[i - 5] == v[i] { LengthRead(frame, v, i); }
  }

  /** What the decoder makes of a good header and a body. */
  lemma {:induction false} BodyVerdict(v: seq<nat>, lens: seq<nat>, body: Bytes)
    requires |v| == 13 && v[0] == MAGIC && v[1] == VERSION && v[2] <= 2 && v[3] <= 2 && v[5..12] == lens
    ensures if Total(lens) != |body| then DecodeBody(v, body) == Err(InvalidFrame)
            else
              && lens[0] + lens[1] <= |body|
              && match ParseName(body[lens[0]..lens[0] + lens[1]])
                 case Err(e) => DecodeBody(v, body) == Err(BadName(e))
                 case Ok(s) =>
                   if v[2] != (if s == Request then 0 else if s == OkState then 1 else 2)
                   then DecodeBody(v, body) == Err(StateDisagrees)
                   else DecodeBody(v, body).Ok?
  {
    if Total(lens) == |body| { SecondPart(lens, body); }
  }

  /** The verdict on a frame whose header announces the lengths. */
  ghost predicate Verdict(frame: Bytes, lens: seq<nat>)
    requires |frame| >= 40 && |lens| == 7
  {
    if Total(lens) != |frame| - 40 then DecodeFrame(frame) == Err(InvalidFrame)
    else
      && 40 + lens[0] + lens[1] <= |frame|
      && match ParseName(frame[40 + lens[0]..40 + lens[0] + lens[1]])
         case Err(e) => DecodeFrame(frame) == Err(BadName(e))
         case Ok(s) =>
           if frame[6] != (if s == Request then 0 else if s == OkState then 1 else 2)
           then DecodeFrame(frame) == Err(StateDisagrees)
           else DecodeFrame(frame).Ok?
  }

  /** Behind a good header: the announced lengths must add up to the rest of the frame, the name must parse, and its
      state must be the header's. */
  lemma {:induction false} RefusedBodies(frame: Bytes)
    requires |frame| >= 40 && frame[0..4] == [0x55, 0x42, 0x49, 0x51] && frame[4..6] == [0, 1]
    requires frame[6] <= 2 && frame[7] <= 2
    ensures Verdict(frame, Announced(frame))
  {
    var v := HeaderOf(frame);
    VerdictOf(frame, v, Announced(frame));
  }

  lemma {:induction false} VerdictOf(frame: Bytes, v: seq<nat>, lens: seq<nat>)
    requires |frame| >= 40 && |v| == 13 && DecodeFrame(frame) == DecodeBody(v, frame[HEADER..]) && v[5..12] == lens
    requires v[0] == MAGIC && v[1] == VERSION && v[2] == frame[6] <= 2 && v[3] == frame[7] <= 2
    ensures Verdict(frame, lens)
  {
    BodyVerdict(v, lens, frame[HEADER..]);
    if Total(lens) == |frame| - 40 { NameInFrame(frame, lens); }
  }

  lemma {:induction false} HeaderOf(frame: Bytes) returns (v: seq<nat>)
    requires |frame| >= 40 && frame[0..4] == [0x55, 0x42, 0x49, 0x51] && frame[4..6] == [0, 1]
    ensures |v| == 13 && DecodeFrame(frame) == DecodeBody(v, frame[HEADER..]) && v[5..12] == Announced(frame)
    ensures v[0] == MAGIC && v[1] == VERSION && v[2] == frame[6] && v[3] == frame[7]
  {
    HeaderIs40();
    v := DecodeInts(WIDTHS, frame[..HEADER]);
    GoodHeaderReads(frame, v);
  }

  lemma {:induction false} GoodHeaderReads(frame: Bytes, v: seq<nat>)
    requires |frame| >= HEADER == Total(WIDTHS) && v == DecodeInts(WIDTHS, frame[..HEADER])
    requires frame[0..4] == [0x55, 0x42, 0x49, 0x51] && frame[4..6] == [0, 1]
    ensures v[0] == MAGIC && v[1] == VERSION && v[2] == frame[6] && v[3] == frame[7] && v[5..12] == Announced(frame)
  {
    MagicRead(frame, v);
    VersionRead(frame, v);
    CodesRead(frame, v);
    LengthsRead(frame, v);
  }

  lemma NameInFrame(frame: Bytes, lens: seq<nat>)
    requires |frame| >= 40 && |lens| == 7 && Total(lens) == |frame| - 40
    ensures lens[0] + lens[1] <= |frame[HEADER..]| && 40 + lens[0] + lens[1] <= |frame|
    ensures frame[HEADER..][lens[0]..lens[0] + lens[1]] == frame[40 + lens[0]..40 + lens[0] + lens[1]]
  {
    SecondPart(lens, frame[HEADER..]);
  }

  /** An accepted frame is the encoding of what it decodes to exactly when its reserved bytes are zero. */
  lemma EncodeDecode(frame: Bytes)
    requires DecodeFrame(frame).Ok?
    ensures Sendable(DecodeFrame(frame).value)
    ensures EncodeFrame(DecodeFrame(frame).value) == frame <==> Reserved(frame) == 0
  {
    AcceptedIsSendable(frame);
    var e := DecodeFrame(frame).value;
    var v := DecodeInts(WIDTHS, frame[..HEADER]);
    var head := EncodeInts(WIDTHS, HeaderValues(e));
    BytesRoundTrip(WIDTHS, frame[..HEADER]);
    HeaderFits(e);
    IntsRoundTrip(WIDTHS, HeaderValues(e));
    SameHead(head, Concat(Parts(e)), frame);
    if v[12] == 0 { assert v[12 := 0] == v; }
  }

  /** Every sendable envelope has, for each non-zero value of the reserved bytes, a frame that is accepted for it
      and is not its encoding. */
  lemma ReservedIsIgnored(e: Envelope, reserved: nat) returns (frame: Bytes)
    requires Sendable(e) && 0 < reserved < 0x1_0000_0000_0000_0000
    ensures DecodeFrame(frame) == Ok(e) && Reserved(frame) == reserved && EncodeFrame(e) != frame
  {
    var v := HeaderValues(e)[12 := reserved];
    frame := EncodeInts(WIDTHS, v) + Concat(Parts(e));
    HeaderFits(e);
    Powers();
    FrameWithHeader(e, v, frame);
    FrameDecodes(e, frame, v);
    EncodeDecode(frame);
  }

  lemma SameHead(head: Bytes, body: Bytes, frame: Bytes)
    requires |head| == HEADER && |frame| >= HEADER && body == frame[HEADER..]
    ensures head + body == frame <==> head == frame[..HEADER]
  {
    assert frame == frame[..HEADER] + frame[HEADER..];
    assert (head + body)[..HEADER] == head;
  }

  lemma SameHeader(e: Envelope, v: seq<nat>)
    requires |v| == 13 && v[0] == MAGIC && v[1] == VERSION && v[4] == e.createdAtMs
    requires DecodeState(v[2]) == Some(e.state) && DecodeGuarantee(v[3]) == Some(e.guarantee)
    requires HeaderValues(e)[5..12] == v[5..12]
    ensures HeaderValues(e) == v[12 := 0]
  {
    forall i | 5 <= i < 12 ensures HeaderValues(e)[i] == v[i] {
      assert HeaderValues(e)[5..12][i - 5] == v[5..12][i - 5];
    }
  }

  lemma SendableFromHeader(e: Envelope, v: seq<nat>)
    requires HeaderValues(e) == v && Fit(WIDTHS, v) && ParseName(e.name) == Ok(e.state)
    ensures Sendable(e)
  {
    Powers();
    var h := HeaderValues(e);
    assert h[4] == e.createdAtMs && h[5] == |e.id| && h[6] == |e.name| && h[7] == |e.correlationId|;
    assert h[8] == |e.causationId| && h[9] == |e.idempotencyKey| && h[10] == |e.schemaId| && h[11] == |e.payload|;
    assert forall i :: 0 <= i < 13 ==> v[i] < Pow256(WIDTHS[i]);
    assert v[5] < Pow256(WIDTHS[5]) && v[6] < Pow256(WIDTHS[6]) && v[7] < Pow256(WIDTHS[7]) && v[8] < Pow256(WIDTHS[8]);
    assert v[9] < Pow256(WIDTHS[9]) && v[10] < Pow256(WIDTHS[10]) && v[11] < Pow256(WIDTHS[11]);
    assert v[4] < Pow256(WIDTHS[4]);
  }

  /** The header fixes the length: no accepted frame is a proper prefix of another. */
  lemma PrefixFree(f: Bytes, g: Bytes)
    requires DecodeFrame(f).Ok? && DecodeFrame(g).Ok? && f <= g
    ensures f == g
  {
    HeaderIs40();
    assert f[..HEADER] == g[..HEADER];
  }
}
