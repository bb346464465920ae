/**
 * The lexicographic order on strings that Collections.sort uses for the
 * vocabulary and the tag set, and the sorted, duplicate-free list of the keys
 * of a frequency table.
 */
module Ordering {

  /**
   * The UTF-16 code units of a character (String.compareTo compares these):
   * one unit for the Basic Multilingual Plane, else a high and a low surrogate.
   */
  function Units(c: char): (r: seq<int>)
    ensures |r| == 1 || |r| == 2
  {
    var v := c as int;
    if v < 0x10000 then [v]
    else [0xD800 + (v - 0x10000) / 0x400, 0xDC00 + (v - 0x10000) % 0x400]
  }

  /** Lexicographic "less than" on unit sequences, a proper prefix first. */
  predicate UnitsLess(x: seq<int>, y: seq<int>)
    decreases |x|
  {
    if |x| == 0 then |y| > 0
    else if |y| == 0 then false
    else if x[0] == y[0] then UnitsLess(x[1..], y[1..])
    else x[0] < y[0]
  }

  /**
   * A character's place in the code-unit order. A Basic Multilingual Plane
   * character ranks by its unit, scaled to leave room below the next unit.
   * A supplementary character ranks by its high surrogate, so all of them
   * sort between U+D7FF and U+E000, in code-point order among themselves.
   */
  function UnitRank(c: char): int {
    var v := c as int;
    if v < 0x10000 then v * 0x10000 else 0xD800 * 0x10000 + (v - 0x10000)
  }

  /** Comparing (w / 0x400, w % 0x400) lexicographically compares w. */
  lemma DivModOrder(w1: int, w2: int)
    requires 0 <= w1 && 0 <= w2
    ensures w1 < w2 <==> w1 / 0x400 < w2 / 0x400 || (w1 / 0x400 == w2 / 0x400 && w1 % 0x400 < w2 % 0x400)
  {
    assert w1 == 0x400 * (w1 / 0x400) + w1 % 0x400;
    assert w2 == 0x400 * (w2 / 0x400) + w2 % 0x400;
  }

  /** Ranks compare exactly as the UTF-16 encodings do. */
  lemma UnitRankOrder(a: char, b: char)
    ensures UnitRank(a) < UnitRank(b) <==> UnitsLess(Units(a), Units(b))
  {
    var va, vb := a as int, b as int;
    if va >= 0x10000 && vb >= 0x10000 {
      var wa, wb := va - 0x10000, vb - 0x10000;
      DivModOrder(wa, wb);
      var x, y := Units(a), Units(b);
      assert x == [0xD800 + wa / 0x400, 0xDC00 + wa % 0x400];
      assert y == [0xD800 + wb / 0x400, 0xDC00 + wb % 0x400];
      assert x[1..] == [0xDC00 + wa % 0x400] && y[1..] == [0xDC00 + wb % 0x400];
      assert UnitsLess(x[1..][1..], y[1..][1..]) == false;
    }
  }

  /** A supplementary character sorts before U+FF21, though its code point is larger. */
  lemma SupplementaryBeforeHighBmp()
    ensures UnitRank('\U{1F600}') < UnitRank('\U{FF21}')
    ensures '\U{1F600}' as int > '\U{FF21}' as int
  {
  }

  /**
   * Lexicographic "strictly less than" on strings (String.compareTo < 0):
   * the first differing character decides by its UTF-16 code units, and a
   * proper prefix comes first.
   */
  predicate LexLess(a: string, b: string)
    decreases |a|
  {
    if |a| == 0 then |b| > 0
    else if |b| == 0 then false
    else if a[0] == b[0] then LexLess(a[1..], b[1..])
    else UnitRank(a[0]) < UnitRank(b[0])
  }

  /** The UTF-16 encoding of a string. */
  function Encode(s: string): seq<int>
    decreases |s|
  {
    if |s| == 0 then [] else Units(s[0]) + Encode(s[1..])
  }

  /** x and y differ at a position both of them have. */
  predicate Diverge(x: seq<int>, y: seq<int>)
    decreases |x|
  {
    |x| > 0 && |y| > 0 && (x[0] != y[0] || Diverge(x[1..], y[1..]))
  }

  /** Two different characters have diverging encodings. */
  lemma UnitsDiverge(a: char, b: char)
    requires a != b
    ensures Diverge(Units(a), Units(b))
  {
    var va, vb := a as int, b as int;
    if va >= 0x10000 && vb >= 0x10000 {
      var wa, wb := va - 0x10000, vb - 0x10000;
      assert wa == 0x400 * (wa / 0x400) + wa % 0x400;
      assert wb == 0x400 * (wb / 0x400) + wb % 0x400;
      assert Units(a)[1..] == [0xDC00 + wa % 0x400] && Units(b)[1..] == [0xDC00 + wb % 0x400];
    }
  }

  /** Once two sequences diverge, what follows them does not matter. */
  lemma {:induction false} DivergeAppend(x: seq<int>, y: seq<int>, p: seq<int>, q: seq<int>)
    requires Diverge(x, y)
    ensures UnitsLess(x + p, y + q) == UnitsLess(x, y)
    decreases |x|
  {
    assert (x + p)[0] == x[0] && (y + q)[0] == y[0];
    if x[0] == y[0] {
      assert (x + p)[1..] == x[1..] + p && (y + q)[1..] == y[1..] + q;
      DivergeAppend(x[1..], y[1..], p, q);
    }
  }

  /** A common prefix does not matter either. */
  lemma {:induction false} CommonPrefix(u: seq<int>, p: seq<int>, q: seq<int>)
    ensures UnitsLess(u + p, u + q) == UnitsLess(p, q)
    decreases |u|
  {
    if |u| > 0 {
      assert (u + p)[1..] == u[1..] + p && (u + q)[1..] == u[1..] + q;
      CommonPrefix(u[1..], p, q);
    } else {
      assert u + p == p && u + q == q;
    }
  }

  /** LexLess is exactly the comparison of the strings' UTF-16 encodings. */
  lemma {:induction false} LexLessEncode(a: string, b: string)
    ensures LexLess(a, b) <==> UnitsLess(Encode(a), Encode(b))
    decreases |a|
  {
    if |a| > 0 && |b| > 0 {
      if a[0] == b[0] {
        CommonPrefix(Units(a[0]), Encode(a[1..]), Encode(b[1..]));
        LexLessEncode(a[1..], b[1..]);
      } else {
        UnitsDiverge(a[0], b[0]);
        DivergeAppend(Units(a[0]), Units(b[0]), Encode(a[1..]), Encode(b[1..]));
        UnitRankOrder(a[0], b[0]);
      }
    } else if |a| > 0 {
      assert Encode(b) == [];
    } else if |b| > 0 {
      assert Encode(a) == [];
    }
  }

  lemma {:induction false} LexIrreflexive(a: string)
    ensures !LexLess(a, a)
    decreases |a|
  {
    if |a| > 0 {
      LexIrreflexive(a[1..]);
    }
  }

  lemma {:induction false} LexTransitive(a: string, b: string, c: string)
    requires LexLess(a, b) && LexLess(b, c)
    ensures LexLess(a, c)
    decreases |a|
  {
    if |a| > 0 && a[0] == b[0] && b[0] == c[0] {
      LexTransitive(a[1..], b[1..], c[1..]);
    }
  }

  lemma {:induction false} LexTotal(a: string, b: string)
    requires a != b
    ensures LexLess(a, b) || LexLess(b, a)
    decreases |a|
  {
    if |a| > 0 && |b| > 0 && a[0] == b[0] {
      assert a == [a[0]] + a[1..] && b == [b[0]] + b[1..];
      LexTotal(a[1..], b[1..]);
    }
  }

  lemma LexAsymmetric(a: string, b: string)
    requires LexLess(a, b)
    ensures !LexLess(b, a)
  {
    if LexLess(b, a) {
      LexTransitive(a, b, a);
      LexIrreflexive(a);
    }
  }

  /** Every element is strictly below the ones after it. */
  predicate StrictlySorted(s: seq<string>) {
    forall i, j :: 0 <= i < j < |s| ==> LexLess(s[i], s[j])
  }

  /** A strictly sorted sequence holds no element twice. */
  lemma StrictlySortedDistinct(s: seq<string>)
    requires StrictlySorted(s)
    ensures forall i, j :: 0 <= i < |s| && 0 <= j < |s| && i != j ==> s[i] != s[j]
  {
    forall i, j | 0 <= i < |s| && 0 <= j < |s| && i != j
      ensures s[i] != s[j]
    {
      if i < j {
        if s[i] == s[j] { LexIrreflexive(s[i]); }
      } else {
        if s[i] == s[j] { LexIrreflexive(s[i]); }
      }
    }
  }

  /** `m` lies below every other element of `keys`. */
  predicate IsLeast(m: string, keys: set<string>) {
    m in keys && forall x :: x in keys && x != m ==> LexLess(m, x)
  }

  lemma {:induction false} LeastExists(keys: set<string>)
    requires keys != {}
    ensures exists m :: IsLeast(m, keys)
    decreases |keys|
  {
    var y :| y in keys;
    var rest := keys - {y};
    if rest == {} {
      assert keys == {y};
      assert IsLeast(y, keys);
    } else {
      LeastExists(rest);
      var m :| IsLeast(m, rest);
      if LexLess(m, y) {
        assert IsLeast(m, keys);
      } else {
        LexTotal(m, y);
        forall x | x in keys && x != y
          ensures LexLess(y, x)
        {
          if x != m { LexTransitive(y, m, x); }
        }
        assert IsLeast(y, keys);
      }
    }
  }

  /**
   * The keys in ascending lexicographic order: what
   * `new ArrayList(keySet())` followed by `Collections.sort` yields.
   */
  ghost function SortedKeys(keys: set<string>): (r: seq<string>)
    ensures StrictlySorted(r)
    ensures forall x :: x in r <==> x in keys
    ensures |r| == |keys|
    decreases |keys|
  {
    if keys == {} then []
    else
      LeastExists(keys);
      var m :| IsLeast(m, keys);
      var tail := SortedKeys(keys - {m});
      forall j | 0 <= j < |tail|
        ensures LexLess(m, tail[j])
      {
        assert tail[j] in keys - {m};
      }
      [m] + tail
  }

  lemma HeadIsMember(s: seq<string>)
    ensures |s| > 0 ==> s[0] in s
  {
  }

  /** Two strictly sorted sequences with the same elements are equal. */
  lemma {:induction false} SortedUnique(a: seq<string>, b: seq<string>)
    requires StrictlySorted(a) && StrictlySorted(b)
    requires forall x :: x in a <==> x in b
    ensures a == b
    decreases |a|
  {
    if |a| == 0 {
      HeadIsMember(b);
    } else {
      assert a[0] in b;
      assert |b| > 0;
      if a[0] != b[0] {
        assert b[0] in a;
        var i :| 0 <= i < |a| && a[i] == b[0];
        var j :| 0 <= j < |b| && b[j] == a[0];
        assert LexLess(a[0], b[0]) by {
          assert i > 0;
        }
        assert LexLess(b[0], a[0]) by {
          assert j > 0;
        }
        LexAsymmetric(a[0], b[0]);
      }
      forall x
        ensures x in a[1..] <==> x in b[1..]
      {
        StrictlySortedDistinct(a);
        StrictlySortedDistinct(b);
        if x in a[1..] {
          var i :| 1 <= i < |a| && a[i] == x;
          assert x != a[0] && x in a && x in b;
          var j :| 0 <= j < |b| && b[j] == x;
          assert j != 0;
          assert b[1..][j - 1] == x;
        }
        if x in b[1..] {
          var j :| 1 <= j < |b| && b[j] == x;
          assert x != b[0] && x in b && x in a;
          var i :| 0 <= i < |a| && a[i] == x;
          assert i != 0;
          assert a[1..][i - 1] == x;
        }
      }
      SortedUnique(a[1..], b[1..]);
      assert a == [a[0]] + a[1..] && b == [b[0]] + b[1..];
    }
  }

  /**
   * Builds the sorted key list by inserting the keys one at a time, each at
   * the first position whose element is not below it.
   */
  method SortKeys(keys: set<string>) returns (sorted: seq<string>)
    ensures sorted == SortedKeys(keys)
  {
    sorted := [];
    var rest := keys;
    while rest != {}
      invariant StrictlySorted(sorted)
      invariant forall x :: x in sorted <==> x in keys && x !in rest
      invariant rest <= keys
      decreases |rest|
    {
      var x :| x in rest;
      var i := 0;
      while i < |sorted| && LexLess(sorted[i], x)
        invariant 0 <= i <= |sorted|
        invariant forall k :: 0 <= k < i ==> LexLess(sorted[k], x)
      {
        i := i + 1;
      }
      if i < |sorted| {
        assert sorted[i] != x;
        LexTotal(sorted[i], x);
        forall k | i <= k < |sorted|
          ensures LexLess(x, sorted[k])
        {
          if k > i { LexTransitive(x, sorted[i], sorted[k]); }
        }
      }
      sorted := sorted[..i] + [x] + sorted[i..];
      rest := rest - {x};
    }
    SortedUnique(sorted, SortedKeys(keys));
  }
}
