/**
 * `detect_narratives`: one summary per topic of the topic-info table that has documents,
 * with its volume, its net sentiment and its most frequent emotion, largest topics first.
 */
module Narratives {
  import opened Wrappers
  import opened Tally
  import opened Strings
  import opened Rounding
  import opened Corpus
  import opened Distributions

  /** A row of the topic-info table: the topic id and, if the table has a "Name" column, its name. */
  datatype InfoRow = InfoRow(topic: int, name: Option<string>)

  /** One narrative: a row of the frame `detect_narratives` returns. */
  datatype Summary = Summary(
    topicId: int,
    narrative: string,
    documentCount: nat,
    sentimentScore: real,
    dominantEmotion: string,
    positivePct: real,
    negativePct: real)

  function PositiveCount(docs: seq<Doc>): nat
  {
    Count(Sentiments(docs), POSITIVE)
  }

  function NegativeCount(docs: seq<Doc>): nat
  {
    Count(Sentiments(docs), NEGATIVE)
  }

  /** `(pos_count - neg_count) / total * 100`, before rounding. */
  function NetSentimentPct(docs: seq<Doc>): real
    requires |docs| > 0
  {
    ((PositiveCount(docs) - NegativeCount(docs)) as real / |docs| as real) * 100.0
  }

  /** `pos_count / total * 100`, before rounding: the POSITIVE share of the sentiment column. */
  function PositivePct(docs: seq<Doc>): real
    requires |docs| > 0
  {
    Share(Sentiments(docs), POSITIVE)
  }

  /** `neg_count / total * 100`, before rounding: the NEGATIVE share of the sentiment column. */
  function NegativePct(docs: seq<Doc>): real
    requires |docs| > 0
  {
    Share(Sentiments(docs), NEGATIVE)
  }

  /** `row.get("Name", f"Topic {topic_id}")`: the row's name, else "Topic " and the id in decimal. */
  function TopicName(row: InfoRow): (r: string)
    ensures row.name.Some? ==> r == row.name.value
    ensures row.name.None? ==> |r| > 6 && r[..6] == "Topic " && r[6..] == IntToString(row.topic)
    ensures row.name.None? ==> IntValue(r[6..]) == row.topic
  {
    match row.name
    case Some(n) => n
    case None =>
      var id := IntToString(row.topic);
      assert ("Topic " + id)[6..] == id;
      "Topic " + id
  }

  /** The summary of one topic, from the rows of the table that carry it. */
  function Summarize(row: InfoRow, topicDocs: seq<Doc>): Summary
    requires |topicDocs| > 0
  {
    Summary(row.topic, TopicName(row), |topicDocs|,
            Round1(NetSentimentPct(topicDocs)),
            Mode(Emotions(topicDocs)),
            Round1(PositivePct(topicDocs)),
            Round1(NegativePct(topicDocs)))
  }

  /** What one info row contributes: nothing for the outlier topic or a topic without documents. */
  function SummaryOf(docs: seq<Doc>, row: InfoRow): seq<Summary>
  {
    if row.topic == OUTLIER || |OfTopic(docs, row.topic)| == 0 then []
    else [Summarize(row, OfTopic(docs, row.topic))]
  }

  /** The unsorted list the loop builds over the info rows. */
  function Summaries(docs: seq<Doc>, rows: seq<InfoRow>): seq<Summary>
  {
    if |rows| == 0 then []
    else Summaries(docs, rows[..|rows| - 1]) + SummaryOf(docs, rows[|rows| - 1])
  }

  predicate SortedByCountDesc(s: seq<Summary>)
  {
    forall i, j :: 0 <= i < j < |s| ==> s[i].documentCount >= s[j].documentCount
  }

  /** Inserts x into a list sorted by descending count, after the entries with the same count. */
  function InsertByCount(s: seq<Summary>, x: Summary): seq<Summary>
  {
    if |s| == 0 then [x]
    else if s[0].documentCount < x.documentCount then [x] + s
    else [s[0]] + InsertByCount(s[1..], x)
  }

  /** Insertion adds exactly x. */
  lemma {:induction false} InsertByCountPermutes(s: seq<Summary>, x: Summary)
    ensures multiset(InsertByCount(s, x)) == multiset(s) + multiset{x}
  {
    if |s| > 0 && s[0].documentCount >= x.documentCount {
      InsertByCountPermutes(s[1..], x);
      assert s == [s[0]] + s[1..];
    }
  }

  /** Insertion into a sorted list keeps it sorted. */
  lemma {:induction false} InsertByCountSorted(s: seq<Summary>, x: Summary)
    requires SortedByCountDesc(s)
    ensures SortedByCountDesc(InsertByCount(s, x))
  {
    if |s| > 0 && s[0].documentCount >= x.documentCount {
      var rest := InsertByCount(s[1..], x);
      InsertByCountSorted(s[1..], x);
      InsertByCountPermutes(s[1..], x);
      var r := [s[0]] + rest;
      forall i, j | 0 <= i < j < |r| ensures r[i].documentCount >= r[j].documentCount {
        if i == 0 {
          var y := rest[j - 1];
          assert y in multiset(rest);
          if y != x {
            assert y in multiset(s[1..]);
            var k :| 0 <= k < |s[1..]| && s[1..][k] == y;
            assert s[k + 1] == y;
          }
        } else {
          assert r[i] == rest[i - 1] && r[j] == rest[j - 1];
        }
      }
    }
  }

  /** `sort_values("document_count", ascending=False)`: a permutation with the largest counts first. */
  method SortByCountDesc(rows: seq<Summary>) returns (sorted: seq<Summary>)
    ensures SortedByCountDesc(sorted)
    ensures multiset(sorted) == multiset(rows)
  {
    sorted := [];
    for i := 0 to |rows|
      invariant SortedByCountDesc(sorted)
      invariant multiset(sorted) == multiset(rows[..i])
    {
      InsertByCountSorted(sorted, rows[i]);
      InsertByCountPermutes(sorted, rows[i]);
      sorted := InsertByCount(sorted, rows[i]);
      assert rows[..i + 1] == rows[..i] + [rows[i]];
    }
    assert rows[..|rows|] == rows;
  }

  /** The loop over the topic-info rows. */
  method CollectSummaries(docs: seq<Doc>, rows: seq<InfoRow>) returns (narratives: seq<Summary>)
    ensures narratives == Summaries(docs, rows)
  {
    narratives := [];
    for i := 0 to |rows|
      invariant narratives == Summaries(docs, rows[..i])
    {
      assert rows[..i + 1][..i] == rows[..i];
      var topicId := rows[i].topic;
      if topicId == OUTLIER {
        continue;
      }
      var topicDocs := OfTopic(docs, topicId);
      if |topicDocs| == 0 {
        continue;
      }
      narratives := narratives + [Summarize(rows[i], topicDocs)];
    }
    assert rows[..|rows|] == rows;
  }

  /**
   * `detect_narratives`: absent without a topic column or a topic-info table; otherwise the
   * summaries of the info rows, largest document count first.
   */
  method DetectNarratives(t: Table, info: Option<seq<InfoRow>>) returns (r: Option<seq<Summary>>)
    ensures r.None? <==> !t.hasTopic || info.None?
    ensures r.Some? ==> SortedByCountDesc(r.value)
    ensures r.Some? ==> multiset(r.value) == multiset(Summaries(t.docs, info.value))
  {
    if !t.hasTopic || info.None? {
      return None;
    }
    var narratives := CollectSummaries(t.docs, info.value);
    var sorted := SortByCountDesc(narratives);
    return Some(sorted);
  }

  /** The frame `detect_narratives` hands back as written, or the exception it raises. */
  datatype Frame = Rows(rows: seq<Summary>) | KeyError(column: string)

  /**
   * `detect_narratives` as written: when no info row yields a summary, `pd.DataFrame([])` has
   * no "document_count" column and `sort_values` on it raises KeyError.
   */
  method DetectNarrativesAsWritten(t: Table, info: Option<seq<InfoRow>>) returns (r: Option<Frame>)
    ensures r.None? <==> !t.hasTopic || info.None?
    ensures r.Some? ==> (r.value.KeyError? <==> Summaries(t.docs, info.value) == [])
    ensures r.Some? && r.value.Rows? ==>
      SortedByCountDesc(r.value.rows) && multiset(r.value.rows) == multiset(Summaries(t.docs, info.value))
  {
    if !t.hasTopic || info.None? {
      return None;
    }
    var narratives := CollectSummaries(t.docs, info.value);
    if |narratives| == 0 {
      return Some(KeyError("document_count"));
    }
    var sorted := SortByCountDesc(narratives);
    return Some(Rows(sorted));
  }

  /** Every summary comes from an info row of a real topic that has documents. */
  lemma {:induction false} SummariesOrigin(docs: seq<Doc>, rows: seq<InfoRow>)
    ensures forall s :: s in Summaries(docs, rows) ==>
      && s.topicId != OUTLIER
      && |OfTopic(docs, s.topicId)| > 0
      && exists row :: row in rows && row.topic == s.topicId && s == Summarize(row, OfTopic(docs, s.topicId))
  {
    if |rows| > 0 {
      var p, last := rows[..|rows| - 1], rows[|rows| - 1];
      SummariesOrigin(docs, p);
      assert rows == p + [last];
    }
  }

  /** Every info row of a topic other than the outlier topic that has rows yields its summary. */
  lemma {:induction false} SummariesComplete(docs: seq<Doc>, rows: seq<InfoRow>, row: InfoRow)
    requires row in rows && row.topic != OUTLIER && |OfTopic(docs, row.topic)| > 0
    ensures Summarize(row, OfTopic(docs, row.topic)) in Summaries(docs, rows)
  {
    var p, last := rows[..|rows| - 1], rows[|rows| - 1];
    assert rows == p + [last];
    if row != last {
      SummariesComplete(docs, p, row);
    }
  }

  /**
   * A topic-info table whose only topic is the outlier topic (the topic model clustered
   * nothing) yields no summaries, which is the input on which the code as written raises.
   */
  lemma OutliersOnlyYieldNoSummaries(docs: seq<Doc>, name: Option<string>)
    ensures Summaries(docs, [InfoRow(OUTLIER, name)]) == []
  {
    assert [InfoRow(OUTLIER, name)][..0] == [];
  }

  /** Summary counts: never the outlier topic, never empty, and exactly the topic's rows. */
  lemma NarrativeCounts(docs: seq<Doc>, rows: seq<InfoRow>, s: Summary)
    requires s in Summaries(docs, rows)
    ensures s.topicId != OUTLIER
    ensures s.documentCount > 0
    ensures s.documentCount == Count(Topics(docs), s.topicId)
    ensures exists row :: row in rows && row.topic == s.topicId
  {
    SummariesOrigin(docs, rows);
    OfTopicSize(docs, s.topicId);
  }

  /**
   * Before rounding the net sentiment is the positive share minus the negative share and lies
   * in [-100, 100], and the two shares add up to at most 100; after rounding every score stays
   * in its range.
   */
  lemma SummarizeScores(row: InfoRow, topicDocs: seq<Doc>)
    requires |topicDocs| > 0
    ensures NetSentimentPct(topicDocs) == PositivePct(topicDocs) - NegativePct(topicDocs)
    ensures -100.0 <= NetSentimentPct(topicDocs) <= 100.0
    ensures 0.0 <= PositivePct(topicDocs) && 0.0 <= NegativePct(topicDocs)
    ensures PositivePct(topicDocs) + NegativePct(topicDocs) <= 100.0
    ensures -100.0 <= Summarize(row, topicDocs).sentimentScore <= 100.0
    ensures 0.0 <= Summarize(row, topicDocs).positivePct <= 100.0
    ensures 0.0 <= Summarize(row, topicDocs).negativePct <= 100.0
  {
    var n := |topicDocs| as real;
    var p, q := PositiveCount(topicDocs) as real, NegativeCount(topicDocs) as real;
    CountTwo(Sentiments(topicDocs), POSITIVE, NEGATIVE);
    assert p + q <= n;
    ShareArithmetic(p, q, n);
    Round1Within(NetSentimentPct(topicDocs), -1000, 1000);
    Round1Within(PositivePct(topicDocs), 0, 1000);
    Round1Within(NegativePct(topicDocs), 0, 1000);
  }

  lemma ShareArithmetic(p: real, q: real, n: real)
    requires 0.0 <= p && 0.0 <= q && p + q <= n && 0.0 < n
    ensures ((p - q) / n) * 100.0 == (p / n) * 100.0 - (q / n) * 100.0
    ensures 0.0 <= (p / n) * 100.0 && 0.0 <= (q / n) * 100.0
    ensures (p / n) * 100.0 + (q / n) * 100.0 <= 100.0
  {
    var x, y := p / n, q / n;
    assert x * n == p && y * n == q;
    assert (x - y) * n == x * n - y * n == p - q;
    QuotientOf(p - q, n, x - y);
    assert 0.0 <= x && 0.0 <= y;
    assert (x + y) * n == p + q;
    assert (x + y - 1.0) * n <= 0.0;
  }

  lemma QuotientOf(a: real, n: real, z: real)
    requires n > 0.0 && z * n == a
    ensures a / n == z
  {
  }

  /** A topic whose rows are all POSITIVE scores +100, with every row positive and none negative. */
  lemma UnanimousPositiveScores(row: InfoRow, topicDocs: seq<Doc>)
    requires |topicDocs| > 0
    requires forall d :: d in topicDocs ==> d.sentiment == POSITIVE
    ensures Summarize(row, topicDocs).sentimentScore == 100.0
    ensures Summarize(row, topicDocs).positivePct == 100.0
    ensures Summarize(row, topicDocs).negativePct == 0.0
  {
    UniformSentiments(topicDocs, POSITIVE, NEGATIVE);
    FullShares(|topicDocs|);
    Round1OfTenths(1000);
    Round1OfTenths(0);
  }

  /** A topic whose rows are all NEGATIVE scores -100, with every row negative and none positive. */
  lemma UnanimousNegativeScores(row: InfoRow, topicDocs: seq<Doc>)
    requires |topicDocs| > 0
    requires forall d :: d in topicDocs ==> d.sentiment == NEGATIVE
    ensures Summarize(row, topicDocs).sentimentScore == -100.0
    ensures Summarize(row, topicDocs).positivePct == 0.0
    ensures Summarize(row, topicDocs).negativePct == 100.0
  {
    UniformSentiments(topicDocs, NEGATIVE, POSITIVE);
    FullShares(|topicDocs|);
    Round1OfTenths(1000);
    Round1OfTenths(-1000);
    Round1OfTenths(0);
  }

  /** When every row carries sentiment `x`, all of them count for `x` and none for any other `y`. */
  lemma UniformSentiments(docs: seq<Doc>, x: string, y: string)
    requires x != y
    requires forall d :: d in docs ==> d.sentiment == x
    ensures Count(Sentiments(docs), x) == |docs|
    ensures Count(Sentiments(docs), y) == 0
  {
    var labels := Sentiments(docs);
    forall i | 0 <= i < |labels| ensures labels[i] == x {
      assert docs[i] in docs;
    }
    CountUniform(labels, x, y);
  }

  lemma FullShares(k: nat)
    requires k > 0
    ensures (k as real / k as real) * 100.0 == 1000 as real / 10.0
    ensures ((0 - k) as real / k as real) * 100.0 == -1000 as real / 10.0
    ensures (0 as real / k as real) * 100.0 == 0 as real / 10.0
  {
  }

  /** The scores of every narrative lie in their ranges. */
  lemma NarrativeScores(docs: seq<Doc>, rows: seq<InfoRow>, s: Summary)
    requires s in Summaries(docs, rows)
    ensures -100.0 <= s.sentimentScore <= 100.0
    ensures 0.0 <= s.positivePct <= 100.0 && 0.0 <= s.negativePct <= 100.0
    ensures |OfTopic(docs, s.topicId)| > 0
    ensures s.sentimentScore == Round1(PositivePct(OfTopic(docs, s.topicId)) - NegativePct(OfTopic(docs, s.topicId)))
  {
    SummariesOrigin(docs, rows);
    var row :| row in rows && row.topic == s.topicId && s == Summarize(row, OfTopic(docs, s.topicId));
    SummarizeScores(row, OfTopic(docs, s.topicId));
  }

  /**
   * The dominant emotion of a narrative occurs among its topic's rows at least as often as
   * any other emotion, and is the least in string order among those that tie.
   */
  lemma NarrativeDominantEmotion(docs: seq<Doc>, rows: seq<InfoRow>, s: Summary)
    requires s in Summaries(docs, rows)
    ensures IsLeastMode(Emotions(OfTopic(docs, s.topicId)), s.dominantEmotion)
  {
    SummariesOrigin(docs, rows);
  }
}
