/** Encoding into a caller's buffer and decoding from a frame, cursor step by cursor step. */
module WireBuffer {
  import opened Common
  import opened CanonicalEvent
  import opened WireCodec

  // ---- writing ------------------------------------------------------------------------------

  /** Writes v as w big-endian bytes at the cursor. */
  method PutInt(out: array<Byte>, cursor: nat, w: nat, v: nat) returns (next: nat)
    requires cursor + w <= out.Length
    modifies out
    ensures next == cursor + w
    ensures out[..next] == old(out[..cursor]) + BE(w, v) && out[next..] == old(out[next..])
  {
    var i, rest := w, v;
    while i > 0
      invariant 0 <= i <= w
      invariant BE(w, v) == BE(i, rest) + out[cursor + i..cursor + w]
      invariant out[..cursor] == old(out[..cursor]) && out[cursor + w..] == old(out[cursor + w..])
    {
      i := i - 1;
      ghost var done := out[cursor + i + 1..cursor + w];
      out[cursor + i] := rest % 256;
      assert out[cursor + i..cursor + w] == [rest % 256] + done;
      rest := rest / 256;
    }
    next := cursor + w;
    assert out[..next] == out[..cursor] + out[cursor..next];
  }

  method CopyField(out: array<Byte>, cursor: nat, value: Bytes) returns (next: nat)
    requires cursor + |value| <= out.Length
    modifies out
    ensures next == cursor + |value|
    ensures out[..next] == old(out[..cursor]) + value && out[next..] == old(out[next..])
  {
    for i := 0 to |value|
      invariant out[..cursor] == old(out[..cursor])
      invariant out[cursor..cursor + i] == value[..i]
      invariant out[cursor + |value|..] == old(out[cursor + |value|..])
    {
      out[cursor + i] := value[i];
      assert out[cursor..cursor + i + 1] == out[cursor..cursor + i] + [value[i]];
    }
    next := cursor + |value|;
    assert out[..next] == out[..cursor] + out[cursor..next];
  }

  /** The thirteen header fields in write order, one putInt each. */
  method EncodeHeader(e: Envelope, out: array<Byte>)
    requires HEADER <= out.Length
    modifies out
    ensures out[..HEADER] == EncodeInts(WIDTHS, HeaderValues(e))
    ensures out[HEADER..] == old(out[HEADER..])
  {
    var values := HeaderValues(e);
    var cursor := 0;
    assert out[..0] == EncodeInts(WIDTHS[..0], values[..0]);
    for i := 0 to 13
      invariant cursor == Total(WIDTHS[..i]) <= HEADER
      invariant out[..cursor] == EncodeInts(WIDTHS[..i], values[..i])
      invariant out[HEADER..] == old(out[HEADER..])
    {
      NextField(values, i);
      ghost var before := out[..];
      cursor := PutInt(out, cursor, WIDTHS[i], values[i]);
      SameTail(out[..], before, cursor, HEADER);
    }
    HeaderIs40();
    assert WIDTHS[..13] == WIDTHS && values[..13] == values;
  }

  lemma NextField(values: seq<nat>, i: nat)
    requires |values| == 13 && i < 13
    ensures EncodeInts(WIDTHS[..i + 1], values[..i + 1])
         == EncodeInts(WIDTHS[..i], values[..i]) + BE(WIDTHS[i], values[i])
    ensures Total(WIDTHS[..i + 1]) == Total(WIDTHS[..i]) + WIDTHS[i] <= HEADER
  {
    FieldOffset(i + 1);
    NextInt(WIDTHS, values, i);
  }

  lemma NextInt(ws: seq<nat>, values: seq<nat>, i: nat)
    requires |ws| == |values| && i < |ws|
    ensures EncodeInts(ws[..i + 1], values[..i + 1]) == EncodeInts(ws[..i], values[..i]) + BE(ws[i], values[i])
    ensures Total(ws[..i + 1]) == Total(ws[..i]) + ws[i]
  {
    assert ws[..i + 1] == ws[..i] + [ws[i]] && values[..i + 1] == values[..i] + [values[i]];
    IntsMore(ws[..i], values[..i], ws[i], values[i]);
    TotalMore(ws[..i], ws[i]);
  }

  lemma SameTail(a: Bytes, b: Bytes, from: nat, later: nat)
    requires |a| == |b| && from <= later <= |a| && a[from..] == b[from..]
    ensures a[later..] == b[later..]
  {
    assert a[later..] == a[from..][later - from..];
    assert b[later..] == b[from..][later - from..];
  }

  function TooLarge(e: Envelope): bool {
    || |e.id| > 0xFFFF || |e.name| > 0xFFFF || |e.correlationId| > 0xFFFF || |e.causationId| > 0xFFFF
    || |e.idempotencyKey| > 0xFFFF || |e.schemaId| > 0xFFFF || |e.payload| > 0xFFFF_FFFF
  }

  /** Encodes into the buffer; nothing is written on an error, and nothing behind the frame ever. */
  method Encode(e: Envelope, out: array<Byte>) returns (r: Result<nat, WireError>)
    modifies out
    ensures r == Err(FieldTooLarge) <==>
              || |e.id| > 0xFFFF || |e.name| > 0xFFFF || |e.correlationId| > 0xFFFF || |e.causationId| > 0xFFFF
              || |e.idempotencyKey| > 0xFFFF || |e.schemaId| > 0xFFFF || |e.payload| > 0xFFFF_FFFF
    ensures r == if TooLarge(e) then Err(FieldTooLarge)
                 else if out.Length < |EncodeFrame(e)| then Err(BufferTooSmall)
                 else Ok(|EncodeFrame(e)|)
    ensures r.Ok? ==> out[..r.value] == EncodeFrame(e) && out[r.value..] == old(out[r.value..])
    ensures r.Err? ==> out[..] == old(out[..])
  {
    if |e.id| > 0xFFFF || |e.name| > 0xFFFF || |e.correlationId| > 0xFFFF || |e.causationId| > 0xFFFF
       || |e.idempotencyKey| > 0xFFFF || |e.schemaId| > 0xFFFF || |e.payload| > 0xFFFF_FFFF {
      return Err(FieldTooLarge);
    }
    FrameLength(e);
    var required := HEADER + |e.id| + |e.name| + |e.correlationId| + |e.causationId| + |e.idempotencyKey|
                    + |e.schemaId| + |e.payload|;
    if out.Length < required { return Err(BufferTooSmall); }
    ghost var all := out[..];
    EncodeHeader(e, out);
    SameTail(out[..], all, HEADER, required);
    var cursor := EncodeFields(out, HEADER, Parts(e));
    r := Ok(cursor);
  }

  /** Copies the fields one behind the other. */
  method EncodeFields(out: array<Byte>, start: nat, parts: seq<Bytes>) returns (cursor: nat)
    requires start + |Concat(parts)| <= out.Length
    modifies out
    ensures cursor == start + |Concat(parts)|
    ensures out[..cursor] == old(out[..start]) + Concat(parts)
    ensures out[cursor..] == old(out[cursor..])
  {
    ghost var end := start + |Concat(parts)|;
    ghost var head, all := out[..start], out[..];
    cursor := start;
    for i := 0 to |parts|
      invariant cursor == start + |Concat(parts[..i])| <= end
      invariant out[..cursor] == head + Concat(parts[..i])
      invariant out[end..] == all[end..]
    {
      assert parts[..i + 1] == parts[..i] + [parts[i]];
      ConcatMore(parts[..i], parts[i]);
      ConcatPrefix(parts, i + 1);
      ghost var before := out[..];
      cursor := CopyField(out, cursor, parts[i]);
      SameTail(out[..], before, cursor, end);
    }
    assert parts[..|parts|] == parts;
  }

  lemma {:induction false} ConcatPrefix(parts: seq<Bytes>, n: nat)
    requires n <= |parts|
    ensures |Concat(parts[..n])| <= |Concat(parts)|
    decreases |parts|
  {
    if n < |parts| {
      assert parts[..|parts| - 1][..n] == parts[..n];
      ConcatPrefix(parts[..|parts| - 1], n);
    } else {
      assert parts[..n] == parts;
    }
  }

  lemma FrameLength(e: Envelope)
    ensures |EncodeFrame(e)| == HEADER + |Concat(Parts(e))|
    ensures |Concat(Parts(e))| == |e.id| + |e.name| + |e.correlationId| + |e.causationId| + |e.idempotencyKey|
                                  + |e.schemaId| + |e.payload|
  {
    HeaderIs40();
    PartsJoined(e);
  }

  // ---- reading ------------------------------------------------------------------------------

  method TakeInt(frame: Bytes, cursor: nat, w: nat) returns (v: nat)
    requires cursor + w <= |frame|
    ensures v == Value(frame[cursor..cursor + w])
  {
    v := 0;
    for i := 0 to w
      invariant v == Value(frame[cursor..cursor + i])
    {
      assert frame[cursor..cursor + i + 1][..i] == frame[cursor..cursor + i];
      v := v * 256 + frame[cursor + i];
    }
  }

  /** Reading integers is splitting by widths and evaluating. */
  lemma {:induction false} IntsAreSplit(ws: seq<nat>, s: Bytes, i: nat)
    requires |s| == Total(ws) && i < |ws|
    ensures DecodeInts(ws, s)[i] == Value(Split(ws, s)[i])
    decreases |ws|
  {
    var n := |ws| - 1;
    if i < n { IntsAreSplit(ws[..n], s[..Total(ws[..n])], i); }
  }

  /** The header values, read in order with a cursor. */
  method DecodeHeader(frame: Bytes) returns (values: seq<nat>)
    requires |frame| >= HEADER
    ensures Total(WIDTHS) == HEADER && values == DecodeInts(WIDTHS, frame[..HEADER])
  {
    HeaderIs40();
    values := [];
    var cursor := 0;
    ghost var all := DecodeInts(WIDTHS, frame[..HEADER]);
    for i := 0 to 13
      invariant cursor == Total(WIDTHS[..i])
      invariant values == all[..i]
    {
      IntsAreSplit(WIDTHS, frame[..HEADER], i);
      SplitAt(WIDTHS, frame[..HEADER], i);
      assert frame[..HEADER][cursor..cursor + WIDTHS[i]] == frame[cursor..cursor + WIDTHS[i]];
      var v := TakeInt(frame, cursor, WIDTHS[i]);
      values := values + [v];
      cursor := cursor + WIDTHS[i];
      assert all[..i + 1] == all[..i] + [all[i]];
    }
    assert all[..13] == all;
  }

  lemma {:induction false} SplitAt(lens: seq<nat>, s: Bytes, i: nat)
    requires |s| == Total(lens) && i < |lens|
    ensures Total(lens[..i + 1]) == Total(lens[..i]) + lens[i] <= |s|
    ensures Split(lens, s)[i] == s[Total(lens[..i])..Total(lens[..i + 1])]
    decreases |lens|
  {
    var n := |lens| - 1;
    var k := Total(lens[..n]);
    assert lens[..i + 1][..i] == lens[..i];
    if i < n {
      SplitAt(lens[..n], s[..k], i);
      assert lens[..n][..i] == lens[..i] && lens[..n][..i + 1] == lens[..i + 1];
      assert s[..k][Total(lens[..i])..Total(lens[..i + 1])] == s[Total(lens[..i])..Total(lens[..i + 1])];
    } else {
      assert lens[..i + 1] == lens;
    }
  }

  /** The fields, each a slice of the frame. */
  method TakeFields(body: Bytes, lens: seq<nat>) returns (parts: seq<Bytes>)
    requires |body| == Total(lens)
    ensures parts == Split(lens, body)
  {
    parts := [];
    var cursor := 0;
    ghost var all := Split(lens, body);
    for i := 0 to |lens|
      invariant cursor == Total(lens[..i])
      invariant parts == all[..i]
    {
      SplitAt(lens, body, i);
      parts := parts + [body[cursor..cursor + lens[i]]];
      cursor := cursor + lens[i];
      assert all[..i + 1] == all[..i] + [all[i]];
    }
    assert all[..|lens|] == all;
  }

  method Decode(frame: Bytes) returns (r: Result<Envelope, WireError>)
    ensures r == DecodeFrame(frame)
  {
    if |frame| < HEADER { return Err(InvalidFrame); }
    var v := DecodeHeader(frame);
    if v[0] != MAGIC { return Err(InvalidMagic); }
    if v[1] != VERSION { return Err(UnsupportedVersion); }
    var state := DecodeState(v[2]);
    if state.None? { return Err(StateDisagrees); }
    var guarantee := DecodeGuarantee(v[3]);
    if guarantee.None? { return Err(InvalidFrame); }
    var body := frame[HEADER..];
    var lens := v[5..12];
    if Total(lens) != |body| { return Err(InvalidFrame); }
    var p := TakeFields(body, lens);
    var named := Parse(p[1]);
    if named.Err? { return Err(BadName(named.error)); }
    if named.value != state.value { return Err(StateDisagrees); }
    r := Ok(Envelope(p[0], p[1], state.value, p[2], p[3], p[4], p[5], p[6], guarantee.value, v[4]));
  }
}
