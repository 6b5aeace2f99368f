/**
 * JavaScript string semantics the engine relies on: strings are sequences of
 * UTF-16 code units, `length` counts code units, and the default
 * `Array.prototype.sort` orders strings by comparing code units.
 */
module JsStrings {

  /** The UTF-16 code units of one character. */
  function Utf16Units(c: char): (r: seq<int>)
    ensures |r| == (if (c as int) < 0x10000 then 1 else 2)
  {
    var v := c as int;
    if v < 0x10000 then [v]
    else [0xD800 + (v - 0x10000) / 0x400, 0xDC00 + (v - 0x10000) % 0x400]
  }

  /** `s.length` in JavaScript. */
  function Utf16Length(s: string): (n: nat)
    ensures |s| <= n <= 2 * |s|
  {
    if s == [] then 0 else |Utf16Units(s[0])| + Utf16Length(s[1..])
  }

  /**
   * The position of a character in code-unit order: characters below the
   * surrogate block come first, then the supplementary characters (whose
   * first unit is a surrogate), then U+E000 to U+FFFF.
   */
  function Utf16Rank(c: char): int
  {
    var v := c as int;
    if v < 0xD800 then v
    else if v >= 0x10000 then v - 0x10000 + 0xD800
    else v + 0x100000
  }

  /** Strict lexicographic order on code-unit sequences. */
  predicate UnitsBefore(a: seq<int>, b: seq<int>)
  {
    a != b && (a == [] || (b != [] && (a[0] < b[0] || (a[0] == b[0] && UnitsBefore(a[1..], b[1..])))))
  }

  /** Comparing ranks is comparing the characters' UTF-16 code units. */
  lemma RankOrdersCodeUnits(c: char, d: char)
    requires c != d
    ensures Utf16Rank(c) < Utf16Rank(d) <==> UnitsBefore(Utf16Units(c), Utf16Units(d))
  {
    var v, w := c as int, d as int;
    var u, x := Utf16Units(c), Utf16Units(d);
    if v >= 0x10000 && w >= 0x10000 {
      var p, q := v - 0x10000, w - 0x10000;
      assert p == 0x400 * (p / 0x400) + p % 0x400;
      assert q == 0x400 * (q / 0x400) + q % 0x400;
      assert u[1..] == [u[1]] && x[1..] == [x[1]];
      if p / 0x400 == q / 0x400 {
        assert UnitsBefore(u[1..], x[1..]) <==> u[1] < x[1];
      }
    } else if v >= 0x10000 || w >= 0x10000 {
      assert (v - 0x10000) / 0x400 < 0x400;
      assert (w - 0x10000) / 0x400 < 0x400;
    }
  }

  /** The UTF-16 code units of a string, in order. */
  function Utf16Of(s: string): seq<int>
  {
    if s == [] then [] else Utf16Units(s[0]) + Utf16Of(s[1..])
  }

  /** `length` counts exactly the string's code units. */
  lemma {:induction false} Utf16LengthCountsUnits(s: string)
    ensures Utf16Length(s) == |Utf16Of(s)|
  {
    if s != [] {
      Utf16LengthCountsUnits(s[1..]);
    }
  }

  /** A common prefix does not change the order. */
  lemma {:induction false} UnitsBeforeSharedPrefix(p: seq<int>, x: seq<int>, y: seq<int>)
    ensures UnitsBefore(p + x, p + y) <==> UnitsBefore(x, y)
  {
    if p != [] {
      assert (p + x)[1..] == p[1..] + x && (p + y)[1..] == p[1..] + y;
      assert p + x == p + y ==> x == (p + x)[|p|..] == (p + y)[|p|..] == y;
      assert (p + x)[0] == (p + y)[0];
      UnitsBeforeSharedPrefix(p[1..], x, y);
    } else {
      assert p + x == x && p + y == y;
    }
  }

  /** The units of two distinct characters differ within the shorter, so what follows does not matter. */
  lemma DistinctUnitsDecide(c: char, d: char, x: seq<int>, y: seq<int>)
    requires c != d
    ensures UnitsBefore(Utf16Units(c) + x, Utf16Units(d) + y) <==> UnitsBefore(Utf16Units(c), Utf16Units(d))
  {
    var u, w := Utf16Units(c), Utf16Units(d);
    var v, z := c as int, d as int;
    if u[0] == w[0] {
      assert v >= 0x10000 && z >= 0x10000;
      var p, q := v - 0x10000, z - 0x10000;
      assert p == 0x400 * (p / 0x400) + p % 0x400;
      assert q == 0x400 * (q / 0x400) + q % 0x400;
      assert u[1] != w[1];
      assert (u + x)[1..] == [u[1]] + x && (w + y)[1..] == [w[1]] + y;
      assert u[1..] == [u[1]] && w[1..] == [w[1]];
    }
  }

  /** `a` sorts at or before `b` under the default sort order. */
  predicate Below(a: string, b: string)
  {
    if a == [] then true
    else if b == [] then false
    else if a[0] == b[0] then Below(a[1..], b[1..])
    else Utf16Rank(a[0]) < Utf16Rank(b[0])
  }

  lemma {:induction false} BelowReflexive(a: string)
    ensures Below(a, a)
  {
    if a != [] {
      BelowReflexive(a[1..]);
    }
  }

  lemma {:induction false} BelowAntisymmetric(a: string, b: string)
    requires Below(a, b) && Below(b, a)
    ensures a == b
  {
    if a != [] && b != [] {
      BelowAntisymmetric(a[1..], b[1..]);
      assert a == [a[0]] + a[1..] && b == [b[0]] + b[1..];
    }
  }

  lemma {:induction false} BelowTransitive(a: string, b: string, c: string)
    requires Below(a, b) && Below(b, c)
    ensures Below(a, c)
  {
    if a != [] && b != [] && c != [] && a[0] == b[0] && b[0] == c[0] {
      BelowTransitive(a[1..], b[1..], c[1..]);
    }
  }

  lemma {:induction false} BelowTotal(a: string, b: string)
    ensures Below(a, b) || Below(b, a)
  {
    if a != [] && b != [] && a[0] == b[0] {
      BelowTotal(a[1..], b[1..]);
    }
  }

  /**
   * The default sort order on whole strings is the order of their UTF-16
   * code units: `a` sorts at or before `b` exactly when it is `b` or its
   * units come first.
   */
  lemma {:induction false} BelowIsCodeUnitOrder(a: string, b: string)
    ensures Below(a, b) <==> a == b || UnitsBefore(Utf16Of(a), Utf16Of(b))
  {
    if a != [] && b != [] {
      if a[0] == b[0] {
        BelowIsCodeUnitOrder(a[1..], b[1..]);
        UnitsBeforeSharedPrefix(Utf16Units(a[0]), Utf16Of(a[1..]), Utf16Of(b[1..]));
        assert a == [a[0]] + a[1..] && b == [b[0]] + b[1..];
      } else {
        RankOrdersCodeUnits(a[0], b[0]);
        DistinctUnitsDecide(a[0], b[0], Utf16Of(a[1..]), Utf16Of(b[1..]));
      }
    }
  }

  predicate Sorted(s: seq<string>)
  {
    forall i, j :: 0 <= i < j < |s| ==> Below(s[i], s[j])
  }

  /** Places `x` before the first element it sorts at or before. */
  function Insert(x: string, s: seq<string>): seq<string>
  {
    if s == [] then [x]
    else if Below(x, s[0]) then [x] + s
    else [s[0]] + Insert(x, s[1..])
  }

  /** The default `Array.prototype.sort` applied to an array of strings. */
  function SortKeys(s: seq<string>): seq<string>
  {
    if s == [] then [] else Insert(s[0], SortKeys(s[1..]))
  }

  /** Inserting into a sorted sequence keeps it sorted and adds exactly `x`. */
  lemma {:induction false} InsertSorts(x: string, s: seq<string>)
    requires Sorted(s)
    ensures Sorted(Insert(x, s))
    ensures multiset(Insert(x, s)) == multiset(s) + multiset{x}
  {
    if s == [] {
    } else if Below(x, s[0]) {
      forall j | 0 <= j < |s|
        ensures Below(x, s[j])
      {
        if j > 0 { BelowTransitive(x, s[0], s[j]); }
      }
      assert s == [s[0]] + s[1..];
    } else {
      SortedTail(s);
      InsertSorts(x, s[1..]);
      var tail := Insert(x, s[1..]);
      assert s == [s[0]] + s[1..];
      BelowTotal(x, s[0]);
      forall k | 0 <= k < |tail|
        ensures Below(s[0], tail[k])
      {
        var y := tail[k];
        assert y in multiset(tail);
        if y != x {
          assert y in multiset(s[1..]);
          var j :| 0 <= j < |s[1..]| && s[1..][j] == y;
          assert s[j + 1] == y;
        }
      }
    }
  }

  /** The sorted array is in ascending order and holds the same strings. */
  lemma {:induction false} SortKeysSorts(s: seq<string>)
    ensures Sorted(SortKeys(s))
    ensures multiset(SortKeys(s)) == multiset(s)
  {
    if s != [] {
      SortKeysSorts(s[1..]);
      InsertSorts(s[0], SortKeys(s[1..]));
      assert s == [s[0]] + s[1..];
    }
  }

  lemma SortedTail(s: seq<string>)
    requires Sorted(s) && s != []
    ensures Sorted(s[1..])
  {
    forall i, j | 0 <= i < j < |s| - 1 ensures Below(s[1..][i], s[1..][j]) {
      assert s[1..][i] == s[i + 1] && s[1..][j] == s[j + 1];
    }
  }

  lemma SortedHeadIsLeast(s: seq<string>, x: string)
    requires Sorted(s) && x in multiset(s)
    ensures Below(s[0], x)
  {
    var i :| 0 <= i < |s| && s[i] == x;
    if i == 0 {
      BelowReflexive(x);
    }
  }

  lemma MultisetTail(s: seq<string>)
    requires s != []
    ensures multiset(s[1..]) == multiset(s) - multiset{s[0]}
  {
    assert s == [s[0]] + s[1..];
  }

  /** Two sorted arrangements of the same strings are the same sequence. */
  lemma {:induction false} SortedPermutationsAgree(a: seq<string>, b: seq<string>)
    requires Sorted(a) && Sorted(b)
    requires multiset(a) == multiset(b)
    ensures a == b
    decreases |a|
  {
    if a == [] {
      assert |multiset(b)| == 0;
    } else {
      SortedHeadsAgree(a, b);
      SortedPermutationsAgree(a[1..], b[1..]);
      assert a == [a[0]] + a[1..] && b == [b[0]] + b[1..];
    }
  }

  /** Two sorted arrangements of the same non-empty strings start alike, and their tails are again such arrangements. */
  lemma SortedHeadsAgree(a: seq<string>, b: seq<string>)
    requires Sorted(a) && Sorted(b) && a != []
    requires multiset(a) == multiset(b)
    ensures b != [] && a[0] == b[0]
    ensures Sorted(a[1..]) && Sorted(b[1..]) && multiset(a[1..]) == multiset(b[1..])
  {
    assert a[0] in multiset(a);
    assert b != [];
    assert b[0] in multiset(b);
    SortedHeadIsLeast(b, a[0]);
    SortedHeadIsLeast(a, b[0]);
    BelowAntisymmetric(a[0], b[0]);
    MultisetTail(a);
    MultisetTail(b);
    SortedTail(a);
    SortedTail(b);
  }

  /** The sorted order does not depend on the order the keys were enumerated in. */
  lemma SortIgnoresEnumerationOrder(a: seq<string>, b: seq<string>)
    requires multiset(a) == multiset(b)
    ensures SortKeys(a) == SortKeys(b)
  {
    SortKeysSorts(a);
    SortKeysSorts(b);
    SortedPermutationsAgree(SortKeys(a), SortKeys(b));
  }

  /** Some listing of the keys of a set, each once, in an unspecified order. */
  ghost function Enumeration(keys: set<string>): seq<string>
    decreases |keys|
  {
    if keys == {} then [] else var k :| k in keys; [k] + Enumeration(keys - {k})
  }

  lemma {:induction false} EnumerationListsKeys(keys: set<string>)
    ensures multiset(Enumeration(keys)) == multiset(keys)
    decreases |keys|
  {
    if keys != {} {
      var k :| k in keys && Enumeration(keys) == [k] + Enumeration(keys - {k});
      EnumerationListsKeys(keys - {k});
      assert keys == (keys - {k}) + {k};
    }
  }

  /**
   * The keys of a set in ascending order, each exactly once: what `keys.sort()`
   * yields for any enumeration of the set.
   */
  ghost function SortedKeys(keys: set<string>): seq<string>
  {
    SortKeys(Enumeration(keys))
  }

  /** The sorted keys are sorted and list the set. */
  lemma SortedKeysListKeys(keys: set<string>)
    ensures Sorted(SortedKeys(keys))
    ensures multiset(SortedKeys(keys)) == multiset(keys)
  {
    EnumerationListsKeys(keys);
    SortKeysSorts(Enumeration(keys));
  }

  lemma RepeatedElementCountsTwice(r: seq<string>, i: nat, j: nat)
    requires i < j < |r| && r[i] == r[j]
    ensures multiset(r)[r[i]] >= 2
  {
    assert r == r[..j] + [r[j]] + r[j + 1..];
    assert r[..j][i] == r[i];
    assert r[i] in multiset(r[..j]);
  }

  /** The sorted keys list each key of the set exactly once, in strictly ascending order. */
  lemma SortedKeysExactlyOnce(keys: set<string>)
    ensures |SortedKeys(keys)| == |keys|
    ensures forall k :: k in SortedKeys(keys) <==> k in keys
    ensures forall i, j :: 0 <= i < j < |SortedKeys(keys)| ==>
              SortedKeys(keys)[i] != SortedKeys(keys)[j] && Below(SortedKeys(keys)[i], SortedKeys(keys)[j])
  {
    var r := SortedKeys(keys);
    SortedKeysListKeys(keys);
    assert |multiset(r)| == |multiset(keys)|;
    forall k ensures k in r <==> k in keys {
      assert k in r <==> k in multiset(r);
    }
    forall i, j | 0 <= i < j < |r| ensures r[i] != r[j] {
      if r[i] == r[j] {
        RepeatedElementCountsTwice(r, i, j);
      }
    }
  }

  /** Sorting any enumeration of a key set gives its sorted keys. */
  lemma SortKeysOfEnumeration(e: seq<string>, keys: set<string>)
    requires multiset(e) == multiset(keys)
    ensures SortKeys(e) == SortedKeys(keys)
  {
    EnumerationListsKeys(keys);
    SortIgnoresEnumerationOrder(e, Enumeration(keys));
  }
}
