/** Canonical event names: dotted segments of letters, digits, '_' and '-', of which the last is the
    state. */
module CanonicalEvent {
  import opened Common

  datatype EventState = Request | OkState | ErrorState
  datatype NameError = EmptyEventName | InvalidCanonicalName | InvalidState
  datatype Guarantee = BestEffort | AtReceipt | AtProcessing

  const DOT: Byte := 46

  predicate Alphanumeric(b: Byte) {
    48 <= b <= 57 || 65 <= b <= 90 || 97 <= b <= 122
  }

  predicate Allowed(b: Byte) {
    Alphanumeric(b) || b == DOT || b == 95 || b == 45
  }

  function Text(s: EventState): Bytes {
    match s
    case Request => [114, 101, 113, 117, 101, 115, 116]
    case OkState => [111, 107]
    case ErrorState => [101, 114, 114, 111, 114]
  }

  function Dots(name: Bytes): nat {
    if name == [] then 0 else Dots(name[..|name| - 1]) + (if name[|name| - 1] == DOT then 1 else 0)
  }

  function LastDot(name: Bytes): (r: Option<nat>)
    ensures r.Some? ==> r.value < |name| && name[r.value] == DOT && forall i :: r.value < i < |name| ==> name[i] != DOT
    ensures r.None? ==> forall i :: 0 <= i < |name| ==> name[i] != DOT
  {
    if name == [] then None
    else if name[|name| - 1] == DOT then Some(|name| - 1)
    else LastDot(name[..|name| - 1])
  }

  function StateOf(text: Bytes): Option<EventState> {
    if text == Text(Request) then Some(Request)
    else if text == Text(OkState) then Some(OkState)
    else if text == Text(ErrorState) then Some(ErrorState)
    else None
  }

  /** What the source's parser decides, check by check. */
  function ParseName(name: Bytes): Result<EventState, NameError> {
    if name == [] then Err(EmptyEventName)
    else if exists b <- name :: !Allowed(b) then Err(InvalidCanonicalName)
    else if Dots(name) + 1 < 3 then Err(InvalidCanonicalName)
    else
      match LastDot(name)
      case None => Err(InvalidCanonicalName)
      case Some(d) =>
        if d == 0 || d + 1 >= |name| then Err(InvalidCanonicalName)
        else match StateOf(name[d + 1..]) case Some(s) => Ok(s) case None => Err(InvalidState)
  }

  method Parse(name: Bytes) returns (r: Result<EventState, NameError>)
    ensures r == ParseName(name)
  {
    if |name| == 0 { return Err(EmptyEventName); }
    var segments := 1;
    for i := 0 to |name|
      invariant segments == 1 + Dots(name[..i])
      invariant forall k :: 0 <= k < i ==> Allowed(name[k])
    {
      assert name[..i + 1][..i] == name[..i];
      if name[i] == DOT { segments := segments + 1; }
      if !(Alphanumeric(name[i]) || name[i] == DOT || name[i] == 95 || name[i] == 45) {
        assert name[i] in name && !Allowed(name[i]);
        return Err(InvalidCanonicalName);
      }
    }
    assert name[..|name|] == name;
    if segments < 3 { return Err(InvalidCanonicalName); }
    var d := LastDot(name);
    if d.None? { return Err(InvalidCanonicalName); }
    if d.value == 0 || d.value + 1 >= |name| { return Err(InvalidCanonicalName); }
    var s := StateOf(name[d.value + 1..]);
    r := if s.Some? then Ok(s.value) else Err(InvalidState);
  }

  // ---- which names are accepted -------------------------------------------------------------

  lemma {:induction false} NoDots(name: Bytes)
    requires forall i :: 0 <= i < |name| ==> name[i] != DOT
    ensures Dots(name) == 0
    decreases |name|
  {
    if name != [] { NoDots(name[..|name| - 1]); }
  }

  lemma {:induction false} DotsConcat(a: Bytes, b: Bytes)
    ensures Dots(a + b) == Dots(a) + Dots(b)
    decreases |b|
  {
    if b == [] {
      assert a + b == a;
    } else {
      assert (a + b)[..|a + b| - 1] == a + b[..|b| - 1];
      DotsConcat(a, b[..|b| - 1]);
    }
  }

  /** A prefix with a dot of its own, a dot, and the text of the state. */
  ghost predicate Shaped(name: Bytes, prefix: Bytes, s: EventState) {
    name == prefix + [DOT] + Text(s) && Dots(prefix) >= 1
  }

  /** The bytes are the characters of the word. */
  ghost predicate Spells(text: Bytes, word: string) {
    |text| == |word| && forall i :: 0 <= i < |word| ==> text[i] == word[i] as int
  }

  /** The bytes are the word that names the state. */
  ghost predicate Names(text: Bytes, s: EventState) {
    match s
    case Request => Spells(text, "request")
    case OkState => Spells(text, "ok")
    case ErrorState => Spells(text, "error")
  }

  lemma TextNames(text: Bytes, s: EventState)
    ensures text == Text(s) <==> Names(text, s)
  {
    assert Names(Text(s), s);
  }

  ghost predicate NameByte(b: Byte) {
    || '0' as int <= b <= '9' as int || 'A' as int <= b <= 'Z' as int || 'a' as int <= b <= 'z' as int
    || b == '.' as int || b == '_' as int || b == '-' as int
  }

  /** The name has a dot at d and one before it. */
  ghost predicate DotAfterDot(name: Bytes, e: int, d: int) {
    0 <= e < d < |name| && name[e] == '.' as int && name[d] == '.' as int
  }

  /** A name is accepted with a state exactly when it consists of letters, digits, dots, '_' and '-', has a dot and
      later another one, and the word of the state follows the later one. */
  lemma AcceptedNames(name: Bytes, s: EventState)
    ensures ParseName(name) == Ok(s) <==>
              && (forall b <- name :: NameByte(b))
              && exists e, d :: && DotAfterDot(name, e, d)
                                && Spells(name[d + 1..], if s == Request then "request"
                                                         else if s == OkState then "ok" else "error")
  {
    if ParseName(name) == Ok(s) {
      var e, d := AcceptedDots(name, s);
      assert DotAfterDot(name, e, d);
    }
    if e, d :| && (forall b <- name :: NameByte(b)) && DotAfterDot(name, e, d)
               && Spells(name[d + 1..], if s == Request then "request" else if s == OkState then "ok" else "error") {
      DottedIsAccepted(name, e, d, s);
    }
  }

  lemma AcceptedDots(name: Bytes, s: EventState) returns (e: nat, d: nat)
    requires ParseName(name) == Ok(s)
    ensures DotAfterDot(name, e, d) && Names(name[d + 1..], s)
  {
    AcceptedIsShaped(name, s);
    d := LastDot(name).value;
    e := SomeDot(name[..d]);
    TextNames(name[d + 1..], s);
  }

  lemma SomeDot(name: Bytes) returns (e: nat)
    requires Dots(name) >= 1
    ensures e < |name| && name[e] == DOT
  {
    if forall i :: 0 <= i < |name| ==> name[i] != DOT { NoDots(name); }
    e :| 0 <= e < |name| && name[e] == DOT;
  }

  lemma DottedIsAccepted(name: Bytes, e: nat, d: nat, s: EventState)
    requires (forall b <- name :: NameByte(b)) && DotAfterDot(name, e, d) && Names(name[d + 1..], s)
    ensures ParseName(name) == Ok(s)
  {
    TextNames(name[d + 1..], s);
    HasDot(name[..d], e);
    assert name == name[..d] + [DOT] + Text(s);
    ShapedIsAccepted(name, name[..d], s);
  }

  lemma {:induction false} HasDot(name: Bytes, i: nat)
    requires i < |name| && name[i] == DOT
    ensures Dots(name) >= 1
    decreases |name|
  {
    if i < |name| - 1 { HasDot(name[..|name| - 1], i); }
  }

  /** None of the three words. */
  ghost predicate NoState(text: Bytes) {
    !Spells(text, "request") && !Spells(text, "ok") && !Spells(text, "error")
  }

  /** The last segment starts after the dot at d. */
  ghost predicate LastSegment(name: Bytes, d: int) {
    0 <= d && d + 1 < |name| && forall i :: d < i < |name| ==> name[i] != '.' as int
  }

  /** The empty name has an error of its own; a name of allowed bytes with two dots, whose last segment is not empty
      and none of the three words, is an invalid state. Every other refused name is not canonical. */
  lemma RefusedNames(name: Bytes)
    ensures ParseName(name) == Err(EmptyEventName) <==> name == []
    ensures ParseName(name) == Err(InvalidState) <==>
              && (forall b <- name :: NameByte(b))
              && exists e, d :: DotAfterDot(name, e, d) && LastSegment(name, d) && NoState(name[d + 1..])
  {
    if ParseName(name) == Err(InvalidState) { InvalidStateShape(name); }
    if e, d :| && (forall b <- name :: NameByte(b)) && DotAfterDot(name, e, d) && LastSegment(name, d)
               && NoState(name[d + 1..]) {
      InvalidStateAt(name, e, d);
    }
  }

  lemma NoWordNoState(text: Bytes)
    ensures StateOf(text).None? <==> NoState(text)
  {
    TextNames(text, Request);
    TextNames(text, OkState);
    TextNames(text, ErrorState);
  }

  lemma InvalidStateShape(name: Bytes)
    requires ParseName(name) == Err(InvalidState)
    ensures forall b <- name :: NameByte(b)
    ensures exists e, d :: DotAfterDot(name, e, d) && LastSegment(name, d) && NoState(name[d + 1..])
  {
    var d := LastDot(name).value;
    DotsAround(name, d);
    var e := SomeDot(name[..d]);
    assert DotAfterDot(name, e, d);
    NoWordNoState(name[d + 1..]);
  }

  lemma InvalidStateAt(name: Bytes, e: nat, d: nat)
    requires (forall b <- name :: NameByte(b)) && DotAfterDot(name, e, d) && LastSegment(name, d)
    requires NoState(name[d + 1..])
    ensures ParseName(name) == Err(InvalidState)
  {
    assert name == name[..d] + [DOT] + name[d + 1..];
    LastDotAt(name[..d], name[d + 1..]);
    DotsAround(name, d);
    HasDot(name[..d], e);
    NoWordNoState(name[d + 1..]);
  }

  /** The last dot splits the dots of a name. */
  lemma DotsAround(name: Bytes, d: nat)
    requires d < |name| && name[d] == DOT && forall i :: d < i < |name| ==> name[i] != DOT
    ensures Dots(name) == Dots(name[..d]) + 1
  {
    assert name == name[..d] + [DOT] + name[d + 1..];
    DotsConcat(name[..d] + [DOT], name[d + 1..]);
    assert (name[..d] + [DOT])[..d] == name[..d];
    NoDots(name[d + 1..]);
  }

  lemma AcceptedIsShaped(name: Bytes, s: EventState)
    requires ParseName(name) == Ok(s)
    ensures Shaped(name, name[..LastDot(name).value], s)
  {
    var prefix := name[..LastDot(name).value];
    assert name == prefix + [DOT] + Text(s);
    SplitDots(prefix, s);
  }

  lemma ShapedIsAccepted(name: Bytes, prefix: Bytes, s: EventState)
    requires (forall b <- name :: Allowed(b)) && Shaped(name, prefix, s)
    ensures ParseName(name) == Ok(s)
  {
    SplitDots(prefix, s);
    LastDotBefore(prefix, s);
    assert name[|prefix| + 1..] == Text(s);
  }

  lemma LastDotBefore(prefix: Bytes, s: EventState)
    ensures LastDot(prefix + [DOT] + Text(s)) == Some(|prefix|)
  {
    TextHasNoDot(s);
    LastDotAt(prefix, Text(s));
  }

  lemma TextHasNoDot(s: EventState)
    ensures forall i :: 0 <= i < |Text(s)| ==> Text(s)[i] != DOT
  {}

  lemma {:induction false} LastDotAt(prefix: Bytes, text: Bytes)
    requires forall i :: 0 <= i < |text| ==> text[i] != DOT
    ensures LastDot(prefix + [DOT] + text) == Some(|prefix|)
    decreases |text|
  {
    var name := prefix + [DOT] + text;
    if text == [] {
      assert name[|name| - 1] == DOT;
    } else {
      assert name[|name| - 1] == text[|text| - 1];
      assert name[..|name| - 1] == prefix + [DOT] + text[..|text| - 1];
      LastDotAt(prefix, text[..|text| - 1]);
    }
  }

  lemma SplitDots(prefix: Bytes, s: EventState)
    ensures Dots(prefix + [DOT] + Text(s)) == Dots(prefix) + 1
  {
    DotsConcat(prefix + [DOT], Text(s));
    assert (prefix + [DOT])[..|prefix|] == prefix;
    TextHasNoDot(s);
    NoDots(Text(s));
  }
}
