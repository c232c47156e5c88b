/**
 * Counting, the shape every aggregate of the pipeline reduces to: `groupby(key).size()`
 * is, for each distinct key, the number of rows carrying it. The central fact is
 * `CountsPartition`: summing those counts over the distinct keys gives back the
 * number of rows.
 */
module Tally {

  /** How many times `x` occurs in `s`. */
  function Count<T(==)>(s: seq<T>, x: T): (n: nat)
    ensures n <= |s|
    ensures n == 0 <==> x !in s
  {
    if s == [] then 0 else (if s[0] == x then 1 else 0) + Count(s[1..], x)
  }

  /** `Count` is the multiplicity of `x` in the multiset of `s`. */
  lemma {:induction false} CountIsMultiplicity<T>(s: seq<T>, x: T)
    ensures Count(s, x) == multiset(s)[x]
  {
    if s != [] {
      CountIsMultiplicity(s[1..], x);
      assert s == [s[0]] + s[1..];
    }
  }

  predicate NoDuplicates<T(==)>(s: seq<T>) {
    forall i, j :: 0 <= i < j < |s| ==> s[i] != s[j]
  }

  /** A key listed once among distinct keys is counted once. */
  lemma {:induction false} CountDistinctMember<T>(keys: seq<T>, x: T)
    requires NoDuplicates(keys) && x in keys
    ensures Count(keys, x) == 1
  {
    if keys[0] != x {
      CountDistinctMember(keys[1..], x);
    } else {
      assert x !in keys[1..];
    }
  }

  /** The total of the counts of `keys` in `s`. */
  function SumCounts<T(==)>(keys: seq<T>, s: seq<T>): nat {
    if keys == [] then 0 else Count(s, keys[0]) + SumCounts(keys[1..], s)
  }

  lemma {:induction false} SumCountsEmpty<T>(keys: seq<T>)
    ensures SumCounts(keys, []) == 0
  {
    if keys != [] {
      SumCountsEmpty(keys[1..]);
    }
  }

  /** One more row adds one to the count of its key, however many keys are summed. */
  lemma {:induction false} SumCountsCons<T>(keys: seq<T>, a: T, t: seq<T>)
    ensures SumCounts(keys, [a] + t) == Count(keys, a) + SumCounts(keys, t)
  {
    if keys != [] {
      assert ([a] + t)[1..] == t;
      SumCountsCons(keys[1..], a, t);
    }
  }

  /**
   * Conservation: when every row's key is among the distinct keys, the counts of
   * the keys add up to the number of rows.
   */
  lemma {:induction false} CountsPartition<T>(keys: seq<T>, s: seq<T>)
    requires NoDuplicates(keys)
    requires forall x :: x in s ==> x in keys
    ensures SumCounts(keys, s) == |s|
  {
    if s == [] {
      SumCountsEmpty(keys);
    } else {
      assert s == [s[0]] + s[1..];
      SumCountsCons(keys, s[0], s[1..]);
      CountDistinctMember(keys, s[0]);
      CountsPartition(keys, s[1..]);
    }
  }

  /** One row of a `groupby(...).size()` table. */
  datatype Tallied<K> = Tallied(key: K, count: nat)

  /** For each key, in the order given, the number of rows of `s` carrying it. */
  function Tallies<K(==)>(keys: seq<K>, s: seq<K>): (r: seq<Tallied<K>>)
    ensures |r| == |keys|
    ensures forall j :: 0 <= j < |r| ==> r[j].key == keys[j] && r[j].count == Count(s, keys[j])
  {
    if keys == [] then [] else [Tallied(keys[0], Count(s, keys[0]))] + Tallies(keys[1..], s)
  }

  /** The sum of the counts of a tally table. */
  function Total<K>(r: seq<Tallied<K>>): nat {
    if r == [] then 0 else r[0].count + Total(r[1..])
  }

  /** The counts of a tally table over distinct keys that cover every row add up to the number of rows. */
  lemma {:induction false} TalliesTotal<K>(keys: seq<K>, s: seq<K>)
    requires NoDuplicates(keys)
    requires forall x :: x in s ==> x in keys
    ensures Total(Tallies(keys, s)) == |s|
  {
    TalliesSum(keys, s);
    CountsPartition(keys, s);
  }

  lemma {:induction false} TalliesSum<K>(keys: seq<K>, s: seq<K>)
    ensures Total(Tallies(keys, s)) == SumCounts(keys, s)
  {
    if keys != [] {
      TalliesSum(keys[1..], s);
      assert Tallies(keys, s)[1..] == Tallies(keys[1..], s);
    }
  }

  /** The counts of `keys` in `s`, in the order of `keys`. */
  function CountsOf<K(==)>(keys: seq<K>, s: seq<K>): (r: seq<nat>)
    ensures |r| == |keys|
    ensures forall j :: 0 <= j < |r| ==> r[j] == Count(s, keys[j])
  {
    if keys == [] then [] else [Count(s, keys[0])] + CountsOf(keys[1..], s)
  }

  function Sum(xs: seq<nat>): nat {
    if xs == [] then 0 else xs[0] + Sum(xs[1..])
  }

  lemma {:induction false} SumCountsOf<K>(keys: seq<K>, s: seq<K>)
    ensures Sum(CountsOf(keys, s)) == SumCounts(keys, s)
  {
    if keys != [] {
      SumCountsOf(keys[1..], s);
      assert CountsOf(keys, s)[1..] == CountsOf(keys[1..], s);
    }
  }

  /** The distinct elements of `s`, in order of first appearance (pandas `nunique` counts them). */
  function Distinct<T(==, !new)>(s: seq<T>): (r: seq<T>)
    ensures NoDuplicates(r)
    ensures forall x :: x in r <==> x in s
    ensures |r| <= |s|
  {
    if s == [] then []
    else
      var r := Distinct(s[..|s| - 1]);
      assert forall x :: x in s <==> x in s[..|s| - 1] || x == s[|s| - 1] by {
        assert s == s[..|s| - 1] + [s[|s| - 1]];
      }
      if s[|s| - 1] in r then r else r + [s[|s| - 1]]
  }
}
