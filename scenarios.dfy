/** Worked examples: small tables whose results the formulas determine exactly. */
module Scenarios {
  import opened Wrappers
  import opened Tally
  import opened Rounding
  import opened Corpus
  import opened Distributions
  import opened Scores
  import opened Narratives

  function FourDocs(): seq<Doc>
  {
    [Doc("POSITIVE", "joy", 0), Doc("POSITIVE", "joy", 0),
     Doc("NEGATIVE", "anger", 0), Doc("NEUTRAL", "neutral", 0)]
  }

  /** A column holding label a twice and labels b and c once each has shares 50/25/25. */
  lemma HalfQuarterQuarter(labels: seq<string>, a: string, b: string, c: string)
    requires a != b && b != c && a != c
    requires multiset(labels) == multiset{a, a, b, c}
    ensures ValueCounts(labels) == map[a := 50.0, b := 25.0, c := 25.0]
  {
    assert |labels| == |multiset(labels)| == 4;
    assert Count(labels, a) == 2 && Count(labels, b) == 1 && Count(labels, c) == 1;
    forall l ensures l in labels <==> l in {a, b, c} {
      assert l in labels <==> l in multiset(labels);
    }
    var d := ValueCounts(labels);
    assert d.Keys == {a, b, c};
    assert d[a] == 50.0 && d[b] == 25.0 && d[c] == 25.0;
  }

  lemma FourSentimentShares()
    ensures ValueCounts(Sentiments(FourDocs())) == map["POSITIVE" := 50.0, "NEGATIVE" := 25.0, "NEUTRAL" := 25.0]
  {
    var labels := Sentiments(FourDocs());
    assert labels == ["POSITIVE", "POSITIVE", "NEGATIVE", "NEUTRAL"];
    HalfQuarterQuarter(labels, "POSITIVE", "NEGATIVE", "NEUTRAL");
  }

  lemma FourEmotionShares()
    ensures ValueCounts(Emotions(FourDocs())) == map["joy" := 50.0, "anger" := 25.0, "neutral" := 25.0]
  {
    var labels := Emotions(FourDocs());
    assert labels == ["joy", "joy", "anger", "neutral"];
    HalfQuarterQuarter(labels, "joy", "anger", "neutral");
  }

  lemma FourDocumentMood()
    ensures UnroundedMood(map["POSITIVE" := 50.0, "NEGATIVE" := 25.0, "NEUTRAL" := 25.0],
                          map["joy" := 50.0, "anger" := 25.0, "neutral" := 25.0]) == 61.5625
    ensures MoodScore(map["POSITIVE" := 50.0, "NEGATIVE" := 25.0, "NEUTRAL" := 25.0],
                      map["joy" := 50.0, "anger" := 25.0, "neutral" := 25.0]) == 61.6
  {
    var sp := map["POSITIVE" := 50.0, "NEGATIVE" := 25.0, "NEUTRAL" := 25.0];
    var ep := map["joy" := 50.0, "anger" := 25.0, "neutral" := 25.0];
    assert EmotionPenalty(ep) == 6.25;
    assert RawMood(sp, ep) == 61.5625;
    assert (61.5625 * 10.0).Floor == 615;
  }

  lemma FourDocumentVolatility()
    ensures Volatility(map["joy" := 50.0, "anger" := 25.0, "neutral" := 25.0]) == 75.0
  {
    var ep := map["joy" := 50.0, "anger" := 25.0, "neutral" := 25.0];
    var hi, lo := MaxValue(ep), MinValue(ep);
    assert forall v :: v in ep.Values ==> v <= 50.0 && 25.0 <= v;
    assert ep["joy"] <= hi && lo <= ep["anger"];
    Round1OfTenths(750);
  }

  /**
   * Sentiments [POSITIVE, POSITIVE, NEGATIVE, NEUTRAL] and emotions [joy, joy, anger, neutral]:
   * shares 50/25/25, a mood of 61.5625 before rounding and 61.6 after, and a volatility of 75.
   */
  lemma FourDocumentScenario()
    ensures ComputeDistributions(Table(FourDocs(), false)).0
      == map["POSITIVE" := 50.0, "NEGATIVE" := 25.0, "NEUTRAL" := 25.0]
    ensures ComputeDistributions(Table(FourDocs(), false)).1
      == map["joy" := 50.0, "anger" := 25.0, "neutral" := 25.0]
    ensures UnroundedMood(ComputeDistributions(Table(FourDocs(), false)).0,
                          ComputeDistributions(Table(FourDocs(), false)).1) == 61.5625
    ensures MoodScore(ComputeDistributions(Table(FourDocs(), false)).0,
                      ComputeDistributions(Table(FourDocs(), false)).1) == 61.6
    ensures Volatility(ComputeDistributions(Table(FourDocs(), false)).1) == 75.0
  {
    FourSentimentShares();
    FourEmotionShares();
    FourDocumentMood();
    FourDocumentVolatility();
  }

  function TenDocs(): seq<Doc>
  {
    [Doc("POSITIVE", "joy", 0), Doc("POSITIVE", "joy", 0), Doc("POSITIVE", "joy", 0),
     Doc("POSITIVE", "joy", 0), Doc("POSITIVE", "joy", 0),
     Doc("NEGATIVE", "anger", 1), Doc("NEGATIVE", "anger", 1), Doc("NEGATIVE", "anger", 1),
     Doc("NEGATIVE", "anger", 1), Doc("NEGATIVE", "anger", 1)]
  }

  lemma TenDocsTopicCounts()
    ensures Count(Topics(TenDocs()), 0) == 5 && Count(Topics(TenDocs()), 1) == 5
  {
    var a, b := [0, 0, 0, 0, 0], [1, 1, 1, 1, 1];
    assert Topics(TenDocs()) == a + b;
    CountUniform(a, 0, 1);
    CountUniform(b, 1, 0);
    assert multiset(a + b) == multiset(a) + multiset(b);
  }

  lemma TenDocsTopicSizes()
    ensures |OfTopic(TenDocs(), 0)| == 5 && |OfTopic(TenDocs(), 1)| == 5
  {
    TenDocsTopicCounts();
    OfTopicSize(TenDocs(), 0);
    OfTopicSize(TenDocs(), 1);
  }

  lemma TenDocsUnanimous()
    ensures forall d :: d in OfTopic(TenDocs(), 0) ==> d.sentiment == POSITIVE
    ensures forall d :: d in OfTopic(TenDocs(), 1) ==> d.sentiment == NEGATIVE
  {
    var docs := TenDocs();
    assert forall d :: d in docs ==> (d.topic == 0 ==> d.sentiment == POSITIVE) && (d.topic == 1 ==> d.sentiment == NEGATIVE);
  }

  lemma TwoRowSummaries(docs: seq<Doc>, a: InfoRow, b: InfoRow)
    ensures Summaries(docs, [a, b]) == SummaryOf(docs, a) + SummaryOf(docs, b)
  {
    assert [a, b][..1] == [a];
    assert [a][..0] == [];
    assert Summaries(docs, [a]) == Summaries(docs, []) + SummaryOf(docs, a);
  }

  /**
   * Ten rows split 5/5 between topic 0 (all POSITIVE) and topic 1 (all NEGATIVE): two
   * narratives of 5 documents each, scoring +100 and -100.
   */
  lemma TwoTopicScenario()
    ensures |Summaries(TenDocs(), [InfoRow(0, None), InfoRow(1, None)])| == 2
    ensures Summaries(TenDocs(), [InfoRow(0, None), InfoRow(1, None)])[0].documentCount == 5
    ensures Summaries(TenDocs(), [InfoRow(0, None), InfoRow(1, None)])[0].sentimentScore == 100.0
    ensures Summaries(TenDocs(), [InfoRow(0, None), InfoRow(1, None)])[1].documentCount == 5
    ensures Summaries(TenDocs(), [InfoRow(0, None), InfoRow(1, None)])[1].sentimentScore == -100.0
  {
    var docs := TenDocs();
    TenDocsTopicSizes();
    TenDocsUnanimous();
    TwoRowSummaries(docs, InfoRow(0, None), InfoRow(1, None));
    UnanimousPositiveScores(InfoRow(0, None), OfTopic(docs, 0));
    UnanimousNegativeScores(InfoRow(1, None), OfTopic(docs, 1));
  }
}
