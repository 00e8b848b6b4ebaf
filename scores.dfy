/** `mood_score` and `volatility_index`: one-number summaries of the two distributions. */
module Scores {
  import opened Rounding
  import opened Distributions

  /** `Series.get(k, 0)`: a label that was never observed counts as 0 percent. */
  function Get(d: Distribution, k: string): real
  {
    if k in d then d[k] else 0.0
  }

  /** The emotions whose average share is held against the mood. */
  const NEGATIVE_EMOTIONS: seq<string> := ["anger", "disgust", "fear", "sadness"]

  /** The average of the four negative-emotion shares, absent ones counted as 0. */
  function EmotionPenalty(emotionPct: Distribution): (r: real)
    ensures (forall e :: e in NEGATIVE_EMOTIONS ==> 0.0 <= Get(emotionPct, e) <= 100.0) ==> 0.0 <= r <= 100.0
    ensures (forall e :: e in NEGATIVE_EMOTIONS ==> Get(emotionPct, e) == 0.0) ==> r == 0.0
  {
    assert forall e :: e in NEGATIVE_EMOTIONS <==> e in {"anger", "disgust", "fear", "sadness"};
    (Get(emotionPct, "anger") + Get(emotionPct, "disgust")
      + Get(emotionPct, "fear") + Get(emotionPct, "sadness")) / 4.0
  }

  /** `50 + (positive - negative - 0.3 * penalty) / 2`, before clamping. */
  function RawMood(sentimentPct: Distribution, emotionPct: Distribution): real
  {
    50.0 + (Get(sentimentPct, "POSITIVE") - Get(sentimentPct, "NEGATIVE")
            - EmotionPenalty(emotionPct) * 0.3) / 2.0
  }

  /** `max(lo, min(hi, x))`: x itself inside [lo, hi], otherwise the nearer bound. */
  function Clamp(x: real, lo: real, hi: real): (r: real)
    ensures lo <= hi ==> lo <= r <= hi
    ensures lo <= x <= hi ==> r == x
    ensures x < lo <= hi ==> r == lo
    ensures lo <= hi < x ==> r == hi
  {
    if hi < x then (if lo < hi then hi else lo)
    else if lo < x then x
    else lo
  }

  /** The mood before `round(_, 1)`. */
  function UnroundedMood(sentimentPct: Distribution, emotionPct: Distribution): (r: real)
    ensures 0.0 <= r <= 100.0
    ensures 0.0 <= RawMood(sentimentPct, emotionPct) <= 100.0 ==> r == RawMood(sentimentPct, emotionPct)
    ensures RawMood(sentimentPct, emotionPct) < 0.0 ==> r == 0.0
    ensures 100.0 < RawMood(sentimentPct, emotionPct) ==> r == 100.0
  {
    Clamp(RawMood(sentimentPct, emotionPct), 0.0, 100.0)
  }

  /** `mood_score`: a 0..100 health score, rounded to one decimal. */
  function MoodScore(sentimentPct: Distribution, emotionPct: Distribution): (r: real)
    ensures 0.0 <= r <= 100.0
    ensures -0.05 <= r - UnroundedMood(sentimentPct, emotionPct) <= 0.05
  {
    var u := UnroundedMood(sentimentPct, emotionPct);
    Round1Within(u, 0, 1000);
    Round1(u)
  }

  /** A higher POSITIVE share never lowers the mood. */
  lemma MoodMonotoneInPositive(sentimentPct: Distribution, emotionPct: Distribution, p: real, q: real)
    requires p <= q
    ensures MoodScore(sentimentPct["POSITIVE" := p], emotionPct) <= MoodScore(sentimentPct["POSITIVE" := q], emotionPct)
  {
    Round1Monotone(UnroundedMood(sentimentPct["POSITIVE" := p], emotionPct),
                   UnroundedMood(sentimentPct["POSITIVE" := q], emotionPct));
  }

  /** A higher NEGATIVE share never raises the mood. */
  lemma MoodAntitoneInNegative(sentimentPct: Distribution, emotionPct: Distribution, p: real, q: real)
    requires p <= q
    ensures MoodScore(sentimentPct["NEGATIVE" := q], emotionPct) <= MoodScore(sentimentPct["NEGATIVE" := p], emotionPct)
  {
    Round1Monotone(UnroundedMood(sentimentPct["NEGATIVE" := q], emotionPct),
                   UnroundedMood(sentimentPct["NEGATIVE" := p], emotionPct));
  }

  /** A higher share of anger, disgust, fear or sadness never raises the mood. */
  lemma MoodAntitoneInNegativeEmotion(sentimentPct: Distribution, emotionPct: Distribution, e: string, p: real, q: real)
    requires e in NEGATIVE_EMOTIONS
    requires p <= q
    ensures MoodScore(sentimentPct, emotionPct[e := q]) <= MoodScore(sentimentPct, emotionPct[e := p])
  {
    Round1Monotone(UnroundedMood(sentimentPct, emotionPct[e := q]),
                   UnroundedMood(sentimentPct, emotionPct[e := p]));
  }

  /** An absent label and a label at 0 percent give the same mood. */
  lemma MoodAbsentIsZero(sentimentPct: Distribution, emotionPct: Distribution, k: string)
    ensures k !in sentimentPct ==> MoodScore(sentimentPct[k := 0.0], emotionPct) == MoodScore(sentimentPct, emotionPct)
    ensures k !in emotionPct ==> MoodScore(sentimentPct, emotionPct[k := 0.0]) == MoodScore(sentimentPct, emotionPct)
  {
    if k !in sentimentPct {
      assert RawMood(sentimentPct[k := 0.0], emotionPct) == RawMood(sentimentPct, emotionPct);
    }
    if k !in emotionPct {
      assert EmotionPenalty(emotionPct[k := 0.0]) == EmotionPenalty(emotionPct);
    }
  }

  /** With no POSITIVE or NEGATIVE share and no negative emotion the mood is exactly 50. */
  lemma NeutralMoodIsFifty(sentimentPct: Distribution, emotionPct: Distribution)
    requires Get(sentimentPct, "POSITIVE") == 0.0 && Get(sentimentPct, "NEGATIVE") == 0.0
    requires forall e :: e in NEGATIVE_EMOTIONS ==> Get(emotionPct, e) == 0.0
    ensures MoodScore(sentimentPct, emotionPct) == 50.0
  {
    assert EmotionPenalty(emotionPct) == 0.0 by {
      assert forall i :: 0 <= i < 4 ==> Get(emotionPct, NEGATIVE_EMOTIONS[i]) == 0.0;
    }
    Round1OfTenths(500);
  }

  /** The largest value of a non-empty distribution (`Series.max`). */
  function MaxValue(d: Distribution): (r: real)
    requires d != map[]
    ensures r in d.Values && forall k :: k in d ==> d[k] <= r
  {
    ExtremaExist(d);
    assert forall k :: k in d ==> d[k] in d.Values;
    var r :| r in d.Values && forall v :: v in d.Values ==> v <= r; r
  }

  /** The smallest value of a non-empty distribution (`Series.min`). */
  function MinValue(d: Distribution): (r: real)
    requires d != map[]
    ensures r in d.Values && forall k :: k in d ==> r <= d[k]
  {
    ExtremaExist(d);
    assert forall k :: k in d ==> d[k] in d.Values;
    var r :| r in d.Values && forall v :: v in d.Values ==> r <= v; r
  }

  lemma {:induction false} ExtremaExist(d: Distribution)
    requires d != map[]
    ensures exists k :: k in d && forall j :: j in d ==> d[j] <= d[k]
    ensures exists k :: k in d && forall j :: j in d ==> d[k] <= d[j]
  {
    assert d.Keys != {};
    var k :| k in d.Keys;
    var rest := d - {k};
    if rest != map[] {
      ExtremaExist(rest);
      var hi :| hi in rest && forall j :: j in rest ==> rest[j] <= rest[hi];
      var lo :| lo in rest && forall j :: j in rest ==> rest[lo] <= rest[j];
      var hi' := if d[k] <= d[hi] then hi else k;
      var lo' := if d[lo] <= d[k] then lo else k;
      forall j | j in d ensures d[j] <= d[hi'] && d[lo'] <= d[j] {
        if j != k {
          assert j in rest;
        }
      }
    } else {
      forall j | j in d ensures j == k {
        assert j in rest.Keys + {k};
      }
    }
  }

  /** `100 * (1 - (max - min) / 100)` before rounding; 0 for an empty distribution. */
  function UnroundedVolatility(emotionPct: Distribution): real
  {
    if emotionPct == map[] then 0.0
    else 100.0 * (1.0 - (MaxValue(emotionPct) - MinValue(emotionPct)) / 100.0)
  }

  /** `volatility_index`. */
  function Volatility(emotionPct: Distribution): (r: real)
    ensures emotionPct == map[] ==> r == 0.0
    ensures -0.05 <= r - UnroundedVolatility(emotionPct) <= 0.05
  {
    if emotionPct == map[] then 0.0
    else Round1(UnroundedVolatility(emotionPct))
  }

  predicate IsPercentages(d: Distribution)
  {
    forall k :: k in d ==> 0.0 <= d[k] <= 100.0
  }

  /**
   * On percentages the volatility is 100 minus the spread between the largest and the
   * smallest share, and stays within [0, 100].
   */
  lemma VolatilityOfPercentages(emotionPct: Distribution)
    requires emotionPct != map[] && IsPercentages(emotionPct)
    ensures UnroundedVolatility(emotionPct) == 100.0 - (MaxValue(emotionPct) - MinValue(emotionPct))
    ensures 0.0 <= Volatility(emotionPct) <= 100.0
  {
    var u := UnroundedVolatility(emotionPct);
    assert 0.0 <= u <= 100.0;
    Round1Within(u, 0, 1000);
  }

  /** When every emotion has the same share (one emotion alone included) the volatility is 100. */
  lemma EvenEmotionsAreFullyVolatile(emotionPct: Distribution)
    requires emotionPct != map[]
    requires forall j, k :: j in emotionPct && k in emotionPct ==> emotionPct[j] == emotionPct[k]
    ensures Volatility(emotionPct) == 100.0
  {
    var hi, lo := MaxValue(emotionPct), MinValue(emotionPct);
    var j :| j in emotionPct && emotionPct[j] == hi;
    var k :| k in emotionPct && emotionPct[k] == lo;
    assert hi == lo;
    Round1OfTenths(1000);
  }

  /** A table whose rows all carry the same emotion scores volatility 100, not 0. */
  lemma SingleEmotionVolatility(labels: seq<string>)
    requires |labels| > 0
    requires forall i :: 0 <= i < |labels| ==> labels[i] == labels[0]
    ensures Volatility(ValueCounts(labels)) == 100.0
  {
    var d := ValueCounts(labels);
    assert labels[0] in labels;
    assert d.Keys == {labels[0]};
    EvenEmotionsAreFullyVolatile(d);
  }
}
