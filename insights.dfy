/**
 * `get_insights`: a fixed rule set that turns the results into three or four statements,
 * kept here as structured values rather than formatted markdown.
 */
module Insights {
  import opened Wrappers
  import opened Corpus
  import opened Distributions
  import opened Scores
  import opened Narratives

  datatype MoodTier = HighlyPositive | ModeratelyPositive | MixedSentiment | NegativeMood

  datatype Insight =
    | MoodLevel(tier: MoodTier, mood: real)
    | StrongEmotion(emotion: string, strength: real)
    | DiverseEmotions
    | SampleSize(texts: nat)
    | TopNarrative(narrative: string, mentions: nat, sentimentScore: real)

  /**
   * `get_insights`. The sentiment distribution is a parameter of the source function that
   * its body never reads; it is kept for the signature.
   */
  method GetInsights(t: Table, sentimentPct: Distribution, emotionPct: Distribution, mood: real,
                     narratives: Option<seq<Summary>>)
    returns (insights: seq<Insight>)
    ensures |insights| == if narratives.Some? && |narratives.value| > 0 then 4 else 3
    ensures insights[0].MoodLevel? && insights[0].mood == mood
    ensures insights[0].tier == HighlyPositive <==> 70.0 <= mood
    ensures insights[0].tier == ModeratelyPositive <==> 50.0 <= mood < 70.0
    ensures insights[0].tier == MixedSentiment <==> 30.0 <= mood < 50.0
    ensures insights[0].tier == NegativeMood <==> mood < 30.0
    ensures insights[1].StrongEmotion? <==> emotionPct != map[] && MaxValue(emotionPct) > 40.0
    ensures insights[1].StrongEmotion? ==>
      && insights[1].emotion in emotionPct
      && insights[1].strength == emotionPct[insights[1].emotion] == MaxValue(emotionPct)
    ensures !insights[1].StrongEmotion? ==> insights[1] == DiverseEmotions
    ensures insights[2] == SampleSize(|t.docs|)
    ensures |insights| == 4 ==>
      insights[3] == TopNarrative(narratives.value[0].narrative, narratives.value[0].documentCount,
                                  narratives.value[0].sentimentScore)
    ensures |insights| == 4 && SortedByCountDesc(narratives.value) ==>
      forall s :: s in narratives.value ==> s.documentCount <= insights[3].mentions
  {
    insights := [];

    if mood >= 70.0 {
      insights := insights + [MoodLevel(HighlyPositive, mood)];
    } else if mood >= 50.0 {
      insights := insights + [MoodLevel(ModeratelyPositive, mood)];
    } else if mood >= 30.0 {
      insights := insights + [MoodLevel(MixedSentiment, mood)];
    } else {
      insights := insights + [MoodLevel(NegativeMood, mood)];
    }

    var dominantEmotion: string;
    var emotionStrength: real;
    if emotionPct == map[] {
      dominantEmotion, emotionStrength := "neutral", 0.0;
    } else {
      emotionStrength := MaxValue(emotionPct);
      // `idxmax`: a label with the largest share; which one among equal shares is not fixed
      dominantEmotion :| dominantEmotion in emotionPct && emotionPct[dominantEmotion] == emotionStrength;
    }

    if emotionStrength > 40.0 {
      insights := insights + [StrongEmotion(dominantEmotion, emotionStrength)];
    } else {
      insights := insights + [DiverseEmotions];
    }

    insights := insights + [SampleSize(|t.docs|)];

    if narratives.Some? && |narratives.value| > 0 {
      var top := narratives.value[0];
      insights := insights + [TopNarrative(top.narrative, top.documentCount, top.sentimentScore)];
      assert SortedByCountDesc(narratives.value) ==>
        forall s :: s in narratives.value ==> s.documentCount <= top.documentCount;
    }
  }
}
