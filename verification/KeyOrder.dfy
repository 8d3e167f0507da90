/** Bytewise (lexicographic) order on keys, and the sorted list of a finite set of keys.

    A key is a sequence of integers. A byte string is the sequence of its bytes, and the pair
    (created_at_ms, id) that orders claims is the sequence that starts with the time and goes on
    with the bytes of the id, so that one order serves every ORDER BY of the runtime. */
module KeyOrder {

  type Key = seq<int>

  predicate Less(a: Key, b: Key)
    decreases |a|
  {
    b != [] && (a == [] || a[0] < b[0] || (a[0] == b[0] && Less(a[1..], b[1..])))
  }

  predicate AtMost(a: Key, b: Key) {
    a == b || Less(a, b)
  }

  /** The keys agree before position i, and there a comes to its end or has the smaller element. */
  ghost predicate DiffersAt(a: Key, b: Key, i: int) {
    && 0 <= i <= |a| && i < |b| && (forall j :: 0 <= j < i ==> a[j] == b[j])
    && (i == |a| || a[i] < b[i])
  }

  /** The order is decided at the first difference, and a prefix comes first. */
  lemma {:induction false} LessIsLexicographic(a: Key, b: Key)
    ensures Less(a, b) <==> exists i :: DiffersAt(a, b, i)
    decreases |a|
  {
    if a == [] || b == [] || a[0] != b[0] {
      if Less(a, b) { assert DiffersAt(a, b, 0); }
    } else {
      LessIsLexicographic(a[1..], b[1..]);
      if Less(a, b) {
        var i :| DiffersAt(a[1..], b[1..], i);
        assert DiffersAt(a, b, i + 1) by {
          forall j | 0 <= j < i + 1 ensures a[j] == b[j] {
            if j > 0 { assert a[1..][j - 1] == b[1..][j - 1]; }
          }
        }
      }
      if i :| DiffersAt(a, b, i) {
        assert DiffersAt(a[1..], b[1..], i - 1);
      }
    }
  }

  lemma {:induction false} LessIrreflexive(a: Key)
    ensures !Less(a, a)
    decreases |a|
  {
    if a != [] { LessIrreflexive(a[1..]); }
  }

  lemma {:induction false} LessTransitive(a: Key, b: Key, c: Key)
    requires Less(a, b) && Less(b, c)
    ensures Less(a, c)
    decreases |a|
  {
    if a != [] && a[0] == b[0] && b[0] == c[0] {
      LessTransitive(a[1..], b[1..], c[1..]);
    }
  }

  lemma {:induction false} LessTotal(a: Key, b: Key)
    ensures a == b || Less(a, b) || Less(b, a)
    decreases |a|
  {
    if a != [] && b != [] && a[0] == b[0] {
      LessTotal(a[1..], b[1..]);
      if a[1..] == b[1..] {
        assert a == [a[0]] + a[1..] && b == [b[0]] + b[1..];
      }
    }
  }

  predicate IsLeast(m: Key, ks: set<Key>) {
    m in ks && forall k <- ks :: AtMost(m, k)
  }

  lemma {:induction false} LeastExists(ks: set<Key>)
    requires ks != {}
    ensures exists m :: IsLeast(m, ks)
  {
    var k :| k in ks;
    var rest := ks - {k};
    if rest == {} {
      assert ks == {k};
      assert IsLeast(k, ks);
    } else {
      LeastExists(rest);
      var m :| IsLeast(m, rest);
      LessTotal(k, m);
      var least := if Less(k, m) then k else m;
      forall x <- ks ensures AtMost(least, x) {
        if x != k {
          assert x in rest;
          if Less(k, m) && Less(m, x) { LessTransitive(k, m, x); }
        }
      }
      assert IsLeast(least, ks);
    }
  }

  lemma LeastUnique(m: Key, n: Key, ks: set<Key>)
    requires IsLeast(m, ks) && IsLeast(n, ks)
    ensures m == n
  {
    if m != n { LessTransitive(m, n, m); LessIrreflexive(m); }
  }

  /** The first key of a non-empty set. */
  function Least(ks: set<Key>): (m: Key)
    requires ks != {}
    ensures IsLeast(m, ks)
  {
    LeastExists(ks);
    assert forall m, n | IsLeast(m, ks) && IsLeast(n, ks) :: m == n by {
      forall m, n | IsLeast(m, ks) && IsLeast(n, ks) ensures m == n { LeastUnique(m, n, ks); }
    }
    var m :| m in ks && IsLeast(m, ks);
    m
  }

  ghost predicate Ascending(s: seq<Key>) {
    forall i, j :: 0 <= i < j < |s| ==> Less(s[i], s[j])
  }

  /** The keys of a set in ascending order, each once. */
  function Sorted(ks: set<Key>): (s: seq<Key>)
    ensures Ascending(s)
    ensures |s| == |ks|
    ensures forall k :: k in s <==> k in ks
    decreases |ks|
  {
    if ks == {} then []
    else
      var m := Least(ks);
      var rest := Sorted(ks - {m});
      assert forall k <- rest :: Less(m, k);
      [m] + rest
  }

  /** An ascending list is determined by its elements. */
  lemma {:induction false} AscendingUnique(s: seq<Key>, ks: set<Key>)
    requires Ascending(s)
    requires forall k :: k in s <==> k in ks
    ensures s == Sorted(ks)
    decreases |s|
  {
    if s == [] {
      assert ks == {};
    } else {
      assert s[0] in ks;
      var m := Least(ks);
      LeastIsFirst(s, ks);
      var rest := ks - {m};
      assert Ascending(s[1..]);
      forall k ensures k in s[1..] <==> k in rest {
        if k in s[1..] {
          var i :| 0 <= i < |s| - 1 && s[1..][i] == k;
          assert Less(s[0], s[i + 1]);
          LessIrreflexive(s[0]);
        }
      }
      AscendingUnique(s[1..], rest);
      assert s == [s[0]] + s[1..];
    }
  }

  lemma LeastIsFirst(s: seq<Key>, ks: set<Key>)
    requires Ascending(s) && s != []
    requires forall k :: k in s <==> k in ks
    ensures ks != {} && Least(ks) == s[0]
  {
    assert s[0] in ks;
    var m := Least(ks);
    var i :| 0 <= i < |s| && s[i] == m;
    if i > 0 {
      assert Less(s[0], m) && AtMost(m, s[0]);
      LessIrreflexive(m);
      if m != s[0] { LessTransitive(s[0], m, s[0]); LessIrreflexive(s[0]); }
    }
  }

  /** Keys above the j-th one: the rest of the sorted list. */
  lemma {:induction false} SortedAbove(ks: set<Key>, above: set<Key>, j: nat)
    requires j < |ks|
    requires forall k :: k in above <==> k in ks && Less(Sorted(ks)[j], k)
    ensures Sorted(above) == Sorted(ks)[j + 1..]
  {
    var s := Sorted(ks);
    var t := s[j + 1..];
    assert Ascending(t);
    forall k ensures k in t <==> k in above {
      if k in t {
        var i :| 0 <= i < |t| && t[i] == k;
        assert Less(s[j], s[i + j + 1]);
      }
      if k in above {
        var i :| 0 <= i < |s| && s[i] == k;
        LessIrreflexive(s[j]);
        if i < j { LessTransitive(s[j], s[i], s[j]); }
        assert t[i - j - 1] == k;
      }
    }
    AscendingUnique(t, above);
  }
}
