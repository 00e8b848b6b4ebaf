/**
 * Counting labels in a column: occurrence counts, the distinct values of a column in
 * order of first appearance (pandas `unique`), and the most frequent value (pandas `mode`).
 */
module Tally {
  import opened Strings

  /** Number of occurrences of x in s. */
  function Count<T(==)>(s: seq<T>, x: T): nat
  {
    multiset(s)[x]
  }

  lemma CountBounds<T>(s: seq<T>, x: T)
    ensures Count(s, x) <= |s|
    ensures x in s <==> Count(s, x) > 0
  {
    assert |multiset(s)| == |s|;
    CountAtMostSize(multiset(s), x);
  }

  lemma CountAtMostSize<T>(m: multiset<T>, x: T)
    ensures m[x] <= |m|
  {
    var rest := m[x := 0];
    assert m == rest + multiset{}[x := m[x]];
  }

  /** Two different values together occur at most as often as the sequence is long. */
  lemma {:induction false} CountTwo<T>(s: seq<T>, a: T, b: T)
    requires a != b
    ensures Count(s, a) + Count(s, b) <= |s|
  {
    if |s| > 0 {
      CountTwo(s[1..], a, b);
      assert s == [s[0]] + s[1..];
    }
  }

  /** A sequence made of x alone counts x at every position and nothing else. */
  lemma CountUniform<T>(s: seq<T>, x: T, y: T)
    requires forall i :: 0 <= i < |s| ==> s[i] == x
    ensures Count(s, x) == |s|
    ensures y != x ==> Count(s, y) == 0
  {
    assert multiset(s) == multiset{}[x := |s|] by {
      UniformMultiset(s, x);
    }
  }

  lemma {:induction false} UniformMultiset<T>(s: seq<T>, x: T)
    requires forall i :: 0 <= i < |s| ==> s[i] == x
    ensures multiset(s) == multiset{}[x := |s|]
  {
    if |s| > 0 {
      UniformMultiset(s[1..], x);
      assert s == [x] + s[1..];
    }
  }

  predicate NoDups<T(==)>(s: seq<T>)
  {
    forall i, j :: 0 <= i < j < |s| ==> s[i] != s[j]
  }

  /** Position of the first occurrence of x in s. */
  function IndexOf<T(==)>(s: seq<T>, x: T): (k: nat)
    requires x in s
    ensures k < |s| && s[k] == x && x !in s[..k]
  {
    if s[0] == x then 0 else 1 + IndexOf(s[1..], x)
  }

  /** The distinct values of s, each once, in order of first appearance (pandas `unique`). */
  function Distinct<T(==,!new)>(s: seq<T>): (d: seq<T>)
    ensures NoDups(d)
    ensures forall x :: x in d <==> x in s
  {
    if |s| == 0 then []
    else
      var d := Distinct(s[..|s| - 1]);
      assert s == s[..|s| - 1] + [s[|s| - 1]];
      if s[|s| - 1] in d then d else d + [s[|s| - 1]]
  }

  /** Dropping the last element of a list without duplicates leaves one without it. */
  lemma NoDupsInit<T>(s: seq<T>)
    requires NoDups(s) && |s| > 0
    ensures NoDups(s[..|s| - 1]) && s[|s| - 1] !in s[..|s| - 1]
  {
    var init := s[..|s| - 1];
    forall k | 0 <= k < |init| ensures init[k] != s[|s| - 1] {
      assert init[k] == s[k];
    }
  }

  lemma IndexOfPrefix<T>(s: seq<T>, t: seq<T>, x: T)
    requires x in s
    ensures x in s + t && IndexOf(s + t, x) == IndexOf(s, x)
  {
    var k, k' := IndexOf(s, x), IndexOf(s + t, x);
    assert (s + t)[k] == x;
    assert k' <= k;
  }

  /** Distinct lists values in the order in which they first occur in s. */
  lemma {:induction false} DistinctFirstAppearance<T(!new)>(s: seq<T>, i: nat, j: nat)
    requires i < j < |Distinct(s)|
    ensures IndexOf(s, Distinct(s)[i]) < IndexOf(s, Distinct(s)[j])
  {
    var n := |s|;
    var p, last := s[..n - 1], s[n - 1];
    var dp := Distinct(p);
    assert s == p + [last];
    var d := Distinct(s);
    assert d[i] in p by {
      if last in dp {
      } else {
        assert d == dp + [last] && i < |dp|;
      }
    }
    IndexOfPrefix(p, [last], d[i]);
    if d[j] in p {
      IndexOfPrefix(p, [last], d[j]);
      if last in dp {
        DistinctFirstAppearance(p, i, j);
      } else {
        assert d == dp + [last];
        DistinctFirstAppearance(p, i, j);
      }
    } else {
      assert d[j] == last;
      var k := IndexOf(s, last);
    }
  }

  /** Number of occurrences in s of each value of keys, summed. */
  function SumCounts<T(==)>(keys: seq<T>, s: seq<T>): nat
  {
    if |keys| == 0 then 0 else Count(s, keys[0]) + SumCounts(keys[1..], s)
  }

  lemma {:induction false} SumCountsSnoc<T>(keys: seq<T>, s: seq<T>, x: T)
    ensures SumCounts(keys, s + [x]) == SumCounts(keys, s) + Count(keys, x)
  {
    if |keys| > 0 {
      SumCountsSnoc(keys[1..], s, x);
      assert keys == [keys[0]] + keys[1..];
    }
  }

  lemma {:induction false} CountInNoDups<T>(keys: seq<T>, x: T)
    requires NoDups(keys) && x in keys
    ensures Count(keys, x) == 1
  {
    assert keys == [keys[0]] + keys[1..];
    if keys[0] == x {
      assert x !in keys[1..];
    } else {
      CountInNoDups(keys[1..], x);
    }
  }

  /** Counting every value of a column once counts every row once. */
  lemma {:induction false} SumCountsOfAllKeys<T>(keys: seq<T>, s: seq<T>)
    requires NoDups(keys)
    requires forall x :: x in s ==> x in keys
    ensures SumCounts(keys, s) == |s|
  {
    if |s| == 0 {
      SumCountsEmpty(keys, s);
    } else {
      var p, last := s[..|s| - 1], s[|s| - 1];
      assert s == p + [last];
      SumCountsOfAllKeys(keys, p);
      SumCountsSnoc(keys, p, last);
      CountInNoDups(keys, last);
    }
  }

  lemma {:induction false} SumCountsEmpty<T>(keys: seq<T>, s: seq<T>)
    requires |s| == 0
    ensures SumCounts(keys, s) == 0
  {
    if |keys| > 0 {
      SumCountsEmpty(keys[1..], s);
    }
  }

  /** m occurs in s at least as often as any value, and is the least in string order of those that tie. */
  predicate IsLeastMode(s: seq<string>, m: string)
  {
    && m in s
    && (forall x :: x in s ==> Count(s, x) <= Count(s, m))
    && (forall x :: x in s && Count(s, x) == Count(s, m) ==> LexLe(m, x))
  }

  /** At most one label is the least mode, so `mode()[0]` is determined by the column. */
  lemma LeastModeUnique(s: seq<string>, a: string, b: string)
    requires IsLeastMode(s, a) && IsLeastMode(s, b)
    ensures a == b
  {
    assert Count(s, a) == Count(s, b);
    LexLeAntisymmetric(a, b);
  }

  /**
   * The most frequent value of s; among equally frequent values the least in Python's
   * string order, since pandas returns the modes sorted and the source takes the first.
   */
  function Mode(s: seq<string>): (m: string)
    requires |s| > 0
    ensures IsLeastMode(s, m)
  {
    assert s[0] in Distinct(s);
    BestOf(Distinct(s), s)
  }

  /** The candidate with the highest count in s, ties going to the least string. */
  function BestOf(cands: seq<string>, s: seq<string>): (m: string)
    requires |cands| > 0
    ensures m in cands
    ensures forall x :: x in cands ==>
      Count(s, x) < Count(s, m) || (Count(s, x) == Count(s, m) && LexLe(m, x))
  {
    if |cands| == 1 then
      LexLeTotal(cands[0], cands[0]);
      cands[0]
    else
      var b := BestOf(cands[1..], s);
      var c := cands[0];
      LexLeTotal(c, b);
      LexLeTotal(c, c);
      LexLeTotal(b, b);
      if Count(s, c) > Count(s, b) || (Count(s, c) == Count(s, b) && LexLe(c, b)) then
        assert forall x :: x in cands[1..] && Count(s, x) == Count(s, c) ==> LexLe(c, x) by {
          forall x | x in cands[1..] && Count(s, x) == Count(s, c)
            ensures LexLe(c, x)
          {
            LexLeTransitive(c, b, x);
          }
        }
        c
      else
        b
  }
}
