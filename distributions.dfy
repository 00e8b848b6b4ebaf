/** `compute_distributions`: the share of each label in a column, as a percentage. */
module Distributions {
  import opened Tally
  import opened Corpus

  /** A label -> percentage table (a pandas Series indexed by label). */
  type Distribution = map<string, real>

  /** `value_counts(normalize=True) * 100` for one label: its count over the column length, times 100. */
  function Share(labels: seq<string>, l: string): real
    requires |labels| > 0
  {
    (Count(labels, l) as real / |labels| as real) * 100.0
  }

  /** `value_counts(normalize=True) * 100` of a column: only observed labels are keys, none is rounded. */
  function ValueCounts(labels: seq<string>): (d: Distribution)
    ensures d.Keys == set l | l in labels
    ensures |labels| == 0 ==> d == map[]
    ensures forall l :: l in d ==> 0.0 < d[l] <= 100.0
  {
    forall l | l in labels ensures 0.0 < Share(labels, l) <= 100.0 {
      ShareBounds(labels, l);
    }
    map l | l in labels :: Share(labels, l)
  }

  /** An observed label has a share in (0, 100]. */
  lemma ShareBounds(labels: seq<string>, l: string)
    requires l in labels
    ensures 0.0 < Share(labels, l) <= 100.0
  {
    CountBounds(labels, l);
    UnitFraction(Count(labels, l) as real, |labels| as real);
  }

  lemma UnitFraction(c: real, n: real)
    requires 0.0 < c <= n
    ensures 0.0 < (c / n) * 100.0 <= 100.0
  {
    var x := c / n;
    assert x * n == c;
    assert (x - 1.0) * n <= 0.0;
    assert 0.0 < x <= 1.0;
  }

  /** `compute_distributions`: the sentiment and the emotion distributions of the table. */
  function ComputeDistributions(t: Table): (r: (Distribution, Distribution))
    ensures r.0.Keys == (set d | d in t.docs :: d.sentiment)
    ensures r.1.Keys == (set d | d in t.docs :: d.emotion)
    ensures forall l :: l in r.0 ==> r.0[l] == Share(Sentiments(t.docs), l)
    ensures forall l :: l in r.1 ==> r.1[l] == Share(Emotions(t.docs), l)
  {
    var s, e := Sentiments(t.docs), Emotions(t.docs);
    assert forall l :: l in s <==> exists d :: d in t.docs && d.sentiment == l by {
      forall l ensures l in s <==> exists d :: d in t.docs && d.sentiment == l {
        if l in s {
          var i :| 0 <= i < |s| && s[i] == l;
          assert t.docs[i] in t.docs;
        }
        if exists d :: d in t.docs && d.sentiment == l {
          var d :| d in t.docs && d.sentiment == l;
          var i :| 0 <= i < |t.docs| && t.docs[i] == d;
          assert s[i] == l;
        }
      }
    }
    assert forall l :: l in e <==> exists d :: d in t.docs && d.emotion == l by {
      forall l ensures l in e <==> exists d :: d in t.docs && d.emotion == l {
        if l in e {
          var i :| 0 <= i < |e| && e[i] == l;
          assert t.docs[i] in t.docs;
        }
        if exists d :: d in t.docs && d.emotion == l {
          var d :| d in t.docs && d.emotion == l;
          var i :| 0 <= i < |t.docs| && t.docs[i] == d;
          assert e[i] == l;
        }
      }
    }
    (ValueCounts(s), ValueCounts(e))
  }

  /** The sum of the values of d at keys (each key counted as often as it is listed). */
  function Total(d: Distribution, keys: seq<string>): real
    requires forall k :: k in keys ==> k in d
  {
    if |keys| == 0 then 0.0 else d[keys[0]] + Total(d, keys[1..])
  }

  lemma {:induction false} TotalOfShares(labels: seq<string>, keys: seq<string>)
    requires |labels| > 0
    requires forall k :: k in keys ==> k in labels
    ensures Total(ValueCounts(labels), keys) == (SumCounts(keys, labels) as real / |labels| as real) * 100.0
  {
    if |keys| > 0 {
      TotalOfShares(labels, keys[1..]);
      var n := |labels| as real;
      var a, b := Count(labels, keys[0]) as real, SumCounts(keys[1..], labels) as real;
      assert ValueCounts(labels)[keys[0]] == (a / n) * 100.0;
      ScaledSum(a, b, n);
    }
  }

  lemma WholeIsHundred(n: real)
    requires n > 0.0
    ensures (n / n) * 100.0 == 100.0
  {
  }

  lemma ScaledSum(a: real, b: real, n: real)
    requires n > 0.0
    ensures (a / n) * 100.0 + (b / n) * 100.0 == ((a + b) / n) * 100.0
  {
  }

  /** Taken over every observed label once, the percentages add up to exactly 100. */
  lemma DistributionSumsTo100(labels: seq<string>)
    requires |labels| > 0
    ensures Total(ValueCounts(labels), Distinct(labels)) == 100.0
  {
    var keys := Distinct(labels);
    TotalOfShares(labels, keys);
    SumCountsOfAllKeys(keys, labels);
    WholeIsHundred(SumCounts(keys, labels) as real);
  }
}
