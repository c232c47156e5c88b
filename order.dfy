/**
 * The orders the pipeline sorts by. Strings compare as Python compares `str`
 * values: lexicographically by code point, a proper prefix first. Group keys
 * (pandas `groupby` with its default `sort=True`) come out in ascending order
 * without repetition; `UniqueSorted` and `UniqueSortedInts` build that key list.
 */
module Order {

  // ---------------------------------------------------------------------------
  // Lexicographic order on strings
  // ---------------------------------------------------------------------------

  /** `a` sorts strictly before `b`. */
  predicate Less(a: string, b: string)
    decreases |a|
  {
    |b| > 0 && (|a| == 0 || a[0] < b[0] || (a[0] == b[0] && Less(a[1..], b[1..])))
  }

  lemma {:induction false} LessIrreflexive(a: string)
    ensures !Less(a, a)
    decreases |a|
  {
    if |a| > 0 {
      LessIrreflexive(a[1..]);
    }
  }

  lemma {:induction false} LessAsymmetric(a: string, b: string)
    requires Less(a, b)
    ensures !Less(b, a)
    decreases |a|
  {
    if |a| > 0 && a[0] == b[0] {
      LessAsymmetric(a[1..], b[1..]);
    }
  }

  lemma {:induction false} LessTransitive(a: string, b: string, c: string)
    requires Less(a, b) && Less(b, c)
    ensures Less(a, c)
    decreases |a|
  {
    if |a| > 0 && a[0] == b[0] && b[0] == c[0] {
      LessTransitive(a[1..], b[1..], c[1..]);
    }
  }

  /** Any two different strings are ordered one way or the other. */
  lemma {:induction false} LessTotal(a: string, b: string)
    ensures a == b || Less(a, b) || Less(b, a)
    decreases |a|
  {
    if |a| > 0 && |b| > 0 && a[0] == b[0] {
      LessTotal(a[1..], b[1..]);
      if a[1..] == b[1..] {
        assert a == [a[0]] + a[1..] && b == [b[0]] + b[1..];
      }
    }
  }

  // ---------------------------------------------------------------------------
  // Sorted lists of distinct keys
  // ---------------------------------------------------------------------------

  predicate StrictlyAscending(s: seq<string>) {
    forall i, j :: 0 <= i < j < |s| ==> Less(s[i], s[j])
  }

  /** Adds `x` to an ascending key list unless it is there already. */
  function InsertUnique(x: string, s: seq<string>): (r: seq<string>)
    requires StrictlyAscending(s)
    ensures StrictlyAscending(r)
    ensures forall y :: y in r <==> y == x || y in s
    ensures |r| <= |s| + 1
    decreases |s|
  {
    if s == [] then [x]
    else if x == s[0] then s
    else if Less(x, s[0]) then
      assert forall j :: 0 <= j < |s| ==> Less(x, s[j]) by {
        forall j | 0 <= j < |s| ensures Less(x, s[j]) {
          if j > 0 { LessTransitive(x, s[0], s[j]); }
        }
      }
      [x] + s
    else
      var t := InsertUnique(x, s[1..]);
      LessTotal(x, s[0]);
      assert forall y :: y in s[1..] ==> Less(s[0], y);
      [s[0]] + t
  }

  /** The distinct strings of `s` in ascending order. */
  function UniqueSorted(s: seq<string>): (r: seq<string>)
    ensures StrictlyAscending(r)
    ensures forall y :: y in r <==> y in s
    ensures |r| <= |s|
  {
    if s == [] then [] else InsertUnique(s[|s| - 1], UniqueSorted(s[..|s| - 1]))
  }

  /** Strictly ascending keys are pairwise different. */
  lemma AscendingDistinct(s: seq<string>, i: int, j: int)
    requires StrictlyAscending(s)
    requires 0 <= i < |s| && 0 <= j < |s| && i != j
    ensures s[i] != s[j]
  {
    if i < j { LessIrreflexive(s[i]); } else { LessIrreflexive(s[j]); }
  }

  /** A strictly ascending list is determined by its elements. */
  lemma {:induction false} AscendingUnique(a: seq<string>, b: seq<string>)
    requires StrictlyAscending(a) && StrictlyAscending(b)
    requires forall y :: y in a <==> y in b
    ensures a == b
    decreases |a|
  {
    if a != [] || b != [] {
      AscendingHeads(a, b);
      AscendingTails(a, b);
      AscendingUnique(a[1..], b[1..]);
      assert a == [a[0]] + a[1..] && b == [b[0]] + b[1..];
    }
  }

  /** Two ascending lists with the same elements start with the same (least) element. */
  lemma AscendingHeads(a: seq<string>, b: seq<string>)
    requires StrictlyAscending(a) && StrictlyAscending(b)
    requires forall y :: y in a <==> y in b
    requires a != [] || b != []
    ensures a != [] && b != [] && a[0] == b[0]
  {
    var x := if a != [] then a[0] else b[0];
    assert x in a && x in b;
    assert a[0] in b && b[0] in a;
    var j :| 0 <= j < |b| && b[j] == a[0];
    var i :| 0 <= i < |a| && a[i] == b[0];
    if 0 < i && 0 < j {
      LessAsymmetric(a[0], b[0]);
    }
  }

  /** Removing that common first element leaves lists with the same elements. */
  lemma AscendingTails(a: seq<string>, b: seq<string>)
    requires StrictlyAscending(a) && StrictlyAscending(b)
    requires forall y :: y in a <==> y in b
    requires a != [] && b != [] && a[0] == b[0]
    ensures forall y :: y in a[1..] <==> y in b[1..]
  {
    forall y ensures y in a[1..] <==> y in b[1..] {
      assert y in a <==> y == a[0] || y in a[1..] by {
        assert a == [a[0]] + a[1..];
      }
      assert y in b <==> y == b[0] || y in b[1..] by {
        assert b == [b[0]] + b[1..];
      }
      if y in a[1..] {
        var k :| 1 <= k < |a| && a[k] == y;
        assert Less(a[0], y);
        LessIrreflexive(y);
      }
      if y in b[1..] {
        var k :| 1 <= k < |b| && b[k] == y;
        assert Less(b[0], y);
        LessIrreflexive(y);
      }
    }
  }

  predicate StrictlyAscendingInts(s: seq<int>) {
    forall i, j :: 0 <= i < j < |s| ==> s[i] < s[j]
  }

  /** Adds `x` to an ascending list of integers unless it is there already. */
  function InsertUniqueInt(x: int, s: seq<int>): (r: seq<int>)
    requires StrictlyAscendingInts(s)
    ensures StrictlyAscendingInts(r)
    ensures forall y :: y in r <==> y == x || y in s
  {
    if s == [] then [x]
    else if x == s[0] then s
    else if x < s[0] then [x] + s
    else
      var t := InsertUniqueInt(x, s[1..]);
      assert forall y :: y in s[1..] ==> s[0] < y;
      assert forall k :: 0 <= k < |t| ==> s[0] < t[k] by {
        forall k | 0 <= k < |t| ensures s[0] < t[k] { assert t[k] in t; }
      }
      [s[0]] + t
  }

  /** The distinct integers of `s` in ascending order. */
  function UniqueSortedInts(s: seq<int>): (r: seq<int>)
    ensures StrictlyAscendingInts(r)
    ensures forall y :: y in r <==> y in s
  {
    if s == [] then [] else InsertUniqueInt(s[|s| - 1], UniqueSortedInts(s[..|s| - 1]))
  }
}
