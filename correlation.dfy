/**
 * `topic_emotion_correlation`: for every topic except the outlier topic, the share of
 * each emotion among that topic's rows, one entry per (topic, emotion) pair.
 */
module Correlation {
  import opened Wrappers
  import opened Tally
  import opened Rounding
  import opened Corpus
  import opened Distributions

  /** One row of the correlation table. */
  datatype Entry = Entry(topic: int, emotion: string, percentage: real)

  /** The emotion distribution of the rows of topic t, unrounded. */
  function TopicEmotionPct(docs: seq<Doc>, t: int): Distribution
  {
    ValueCounts(Emotions(OfTopic(docs, t)))
  }

  /** The keys of topic t's distribution are exactly the emotions of the table's rows with topic t. */
  lemma TopicEmotionPctKeys(docs: seq<Doc>, t: int)
    ensures forall e :: e in TopicEmotionPct(docs, t) <==> exists d :: d in docs && d.topic == t && d.emotion == e
  {
    forall e ensures e in TopicEmotionPct(docs, t) <==> exists d :: d in docs && d.topic == t && d.emotion == e {
      EmotionsOfTopic(docs, t, e);
    }
  }

  /** The emotions of topic t's rows, each once, in order of first appearance. */
  function TopicEmotions(docs: seq<Doc>, t: int): (es: seq<string>)
    ensures NoDups(es)
    ensures forall e :: e in es <==> e in TopicEmotionPct(docs, t)
  {
    Distinct(Emotions(OfTopic(docs, t)))
  }

  /** The entries the inner loop appends for topic t, one per emotion in es, from its distribution pct. */
  function EntriesFor(t: int, pct: Distribution, es: seq<string>): seq<Entry>
    requires forall e :: e in es ==> e in pct
  {
    if |es| == 0 then []
    else
      var e := es[|es| - 1];
      EntriesFor(t, pct, es[..|es| - 1]) + [Entry(t, e, Round1(pct[e]))]
  }

  /** What the outer loop appends for topic id t: nothing for the outlier topic. */
  function TopicBlock(docs: seq<Doc>, t: int): seq<Entry>
  {
    if t == OUTLIER then [] else EntriesFor(t, TopicEmotionPct(docs, t), TopicEmotions(docs, t))
  }

  /** The entries the outer loop has appended after visiting the topic ids ts. */
  function Entries(docs: seq<Doc>, ts: seq<int>): seq<Entry>
  {
    if |ts| == 0 then []
    else Entries(docs, ts[..|ts| - 1]) + TopicBlock(docs, ts[|ts| - 1])
  }

  /** The whole correlation table: the loop over `df["topic"].unique()`. */
  function CorrelationEntries(docs: seq<Doc>): seq<Entry>
  {
    Entries(docs, Distinct(Topics(docs)))
  }

  /** `topic_emotion_correlation`: absent without a topic column, otherwise the table above. */
  method TopicEmotionCorrelation(t: Table) returns (r: Option<seq<Entry>>)
    ensures r.None? <==> !t.hasTopic
    ensures r.Some? ==> r.value == CorrelationEntries(t.docs)
  {
    if !t.hasTopic {
      return None;
    }
    var data := CollectEntries(t.docs, Distinct(Topics(t.docs)));
    return Some(data);
  }

  /** The outer loop over the topic ids, skipping the outlier topic. */
  method CollectEntries(docs: seq<Doc>, topics: seq<int>) returns (data: seq<Entry>)
    ensures data == Entries(docs, topics)
  {
    data := [];
    for i := 0 to |topics|
      invariant data == Entries(docs, topics[..i])
    {
      var id := topics[i];
      EntriesStep(docs, topics, i);
      if id == OUTLIER {
        continue;
      }
      data := AppendTopic(data, docs, id);
    }
    assert topics[..|topics|] == topics;
  }

  /** One pass of the outer loop for a topic other than the outlier topic. */
  method AppendTopic(data: seq<Entry>, docs: seq<Doc>, id: int) returns (r: seq<Entry>)
    requires id != OUTLIER
    ensures r == data + TopicBlock(docs, id)
  {
    var dist := TopicEmotionPct(docs, id);
    var emotions := TopicEmotions(docs, id);
    r := AppendTopicEntries(data, id, dist, emotions);
  }

  /** The inner loop: one entry per emotion of the topic, with its share rounded to one decimal. */
  method AppendTopicEntries(data: seq<Entry>, id: int, dist: Distribution, emotions: seq<string>)
    returns (r: seq<Entry>)
    requires forall e :: e in emotions ==> e in dist
    ensures r == data + EntriesFor(id, dist, emotions)
  {
    r := data;
    for j := 0 to |emotions|
      invariant r == data + EntriesFor(id, dist, emotions[..j])
    {
      EntriesForSnoc(id, dist, emotions[..j], emotions[j]);
      assert emotions[..j + 1] == emotions[..j] + [emotions[j]];
      r := r + [Entry(id, emotions[j], Round1(dist[emotions[j]]))];
    }
    assert emotions[..|emotions|] == emotions;
  }

  lemma EntriesStep(docs: seq<Doc>, ts: seq<int>, i: nat)
    requires i < |ts|
    ensures Entries(docs, ts[..i + 1]) == Entries(docs, ts[..i]) + TopicBlock(docs, ts[i])
    ensures ts[i] == OUTLIER ==> Entries(docs, ts[..i + 1]) == Entries(docs, ts[..i])
  {
    assert ts[..i + 1][..i] == ts[..i];
  }

  lemma EntriesForSnoc(t: int, pct: Distribution, es: seq<string>, e: string)
    requires forall x :: x in es ==> x in pct
    requires e in pct
    ensures EntriesFor(t, pct, es + [e]) == EntriesFor(t, pct, es) + [Entry(t, e, Round1(pct[e]))]
  {
    assert (es + [e])[..|es|] == es;
  }

  /** EntriesFor holds, in order, one entry per listed emotion with its rounded share. */
  lemma {:induction false} EntriesForFacts(t: int, pct: Distribution, es: seq<string>)
    requires forall e :: e in es ==> e in pct
    ensures |EntriesFor(t, pct, es)| == |es|
    ensures forall i :: 0 <= i < |es| ==> EntriesFor(t, pct, es)[i] == Entry(t, es[i], Round1(pct[es[i]]))
  {
    if |es| > 0 {
      EntriesForFacts(t, pct, es[..|es| - 1]);
    }
  }

  /** Every entry of topic t's block is about t, and the outlier topic has no block. */
  lemma TopicBlockTopics(docs: seq<Doc>, t: int)
    ensures t == OUTLIER ==> TopicBlock(docs, t) == []
    ensures forall k :: 0 <= k < |TopicBlock(docs, t)| ==> TopicBlock(docs, t)[k].topic == t
  {
    if t != OUTLIER {
      EntriesForFacts(t, TopicEmotionPct(docs, t), TopicEmotions(docs, t));
    }
  }

  /** No emotion has two entries in topic t's block. */
  lemma TopicBlockDistinct(docs: seq<Doc>, t: int)
    ensures forall k, l :: 0 <= k < l < |TopicBlock(docs, t)| ==>
      TopicBlock(docs, t)[k].emotion != TopicBlock(docs, t)[l].emotion
  {
    if t != OUTLIER {
      EntriesForFacts(t, TopicEmotionPct(docs, t), TopicEmotions(docs, t));
    }
  }

  /** Each entry of topic t's block names an emotion of the topic and its rounded share. */
  lemma TopicBlockShares(docs: seq<Doc>, t: int)
    ensures forall x :: x in TopicBlock(docs, t) ==>
      && x.topic == t
      && x.emotion in TopicEmotionPct(docs, t)
      && x.percentage == Round1(TopicEmotionPct(docs, t)[x.emotion])
  {
    if t != OUTLIER {
      EntriesForFacts(t, TopicEmotionPct(docs, t), TopicEmotions(docs, t));
    }
  }

  /** Every emotion of a topic other than the outlier topic has its entry in the topic's block. */
  lemma TopicBlockComplete(docs: seq<Doc>, t: int, e: string)
    requires t != OUTLIER && e in TopicEmotionPct(docs, t)
    ensures Entry(t, e, Round1(TopicEmotionPct(docs, t)[e])) in TopicBlock(docs, t)
  {
    var es := TopicEmotions(docs, t);
    EntriesForFacts(t, TopicEmotionPct(docs, t), es);
    var k := IndexOf(es, e);
    assert TopicBlock(docs, t)[k] == Entry(t, e, Round1(TopicEmotionPct(docs, t)[e]));
  }

  /** Every entry is about one of the visited topic ids, never the outlier topic. */
  lemma {:induction false} EntriesTopics(docs: seq<Doc>, ts: seq<int>)
    ensures forall x :: x in Entries(docs, ts) ==> x.topic != OUTLIER && x.topic in ts
  {
    if |ts| > 0 {
      var p, t := ts[..|ts| - 1], ts[|ts| - 1];
      EntriesTopics(docs, p);
      TopicBlockTopics(docs, t);
      assert ts == p + [t];
    }
  }

  /** Every entry names an emotion present in its topic and that emotion's rounded share. */
  lemma {:induction false} EntriesShares(docs: seq<Doc>, ts: seq<int>)
    ensures forall x :: x in Entries(docs, ts) ==>
      && x.emotion in TopicEmotionPct(docs, x.topic)
      && x.percentage == Round1(TopicEmotionPct(docs, x.topic)[x.emotion])
  {
    if |ts| > 0 {
      var p, t := ts[..|ts| - 1], ts[|ts| - 1];
      EntriesShares(docs, p);
      TopicBlockShares(docs, t);
    }
  }

  /** Every emotion of every listed topic other than the outlier topic has its entry. */
  lemma {:induction false} EntriesComplete(docs: seq<Doc>, ts: seq<int>, t: int, e: string)
    requires t in ts && t != OUTLIER
    requires e in TopicEmotionPct(docs, t)
    ensures Entry(t, e, Round1(TopicEmotionPct(docs, t)[e])) in Entries(docs, ts)
  {
    var p, last := ts[..|ts| - 1], ts[|ts| - 1];
    assert ts == p + [last];
    if t == last {
      TopicBlockComplete(docs, t, e);
    } else {
      EntriesComplete(docs, p, t, e);
    }
  }

  /** No (topic, emotion) pair occurs twice in s. */
  predicate PairsUnique(s: seq<Entry>)
  {
    forall i, j :: 0 <= i < j < |s| ==> s[i].topic != s[j].topic || s[i].emotion != s[j].emotion
  }

  /** The topics of s all occur in ts, and s lists them in the order of ts. */
  predicate GroupedBy(s: seq<Entry>, ts: seq<int>)
  {
    && (forall i :: 0 <= i < |s| ==> s[i].topic in ts)
    && (forall i, j :: 0 <= i <= j < |s| && s[i].topic in ts && s[j].topic in ts ==>
          IndexOf(ts, s[i].topic) <= IndexOf(ts, s[j].topic))
  }

  /** A block of one new topic t with distinct emotions keeps a table free of repeated pairs. */
  lemma AppendBlockUnique(front: seq<Entry>, blk: seq<Entry>, t: int)
    requires PairsUnique(front)
    requires forall i :: 0 <= i < |front| ==> front[i].topic != t
    requires forall k :: 0 <= k < |blk| ==> blk[k].topic == t
    requires forall k, l :: 0 <= k < l < |blk| ==> blk[k].emotion != blk[l].emotion
    ensures PairsUnique(front + blk)
  {
    var s := front + blk;
    forall i, j | 0 <= i < j < |s| ensures s[i].topic != s[j].topic || s[i].emotion != s[j].emotion {
      if j < |front| {
        assert s[i] == front[i] && s[j] == front[j];
      } else if i < |front| {
        assert s[i] == front[i] && s[j] == blk[j - |front|];
      } else {
        assert s[i] == blk[i - |front|] && s[j] == blk[j - |front|];
      }
    }
  }

  /** A block of the next topic t, after the blocks of the topics p, keeps the grouping. */
  lemma AppendBlockGrouped(front: seq<Entry>, blk: seq<Entry>, p: seq<int>, t: int)
    requires GroupedBy(front, p)
    requires t !in p
    requires forall k :: 0 <= k < |blk| ==> blk[k].topic == t
    ensures GroupedBy(front + blk, p + [t])
  {
    var s, ts := front + blk, p + [t];
    assert IndexOf(ts, t) == |p| by {
      assert ts[|p|] == t && t !in ts[..|p|];
    }
    forall i | 0 <= i < |s| ensures s[i].topic in ts {
      if i < |front| {
        assert s[i] == front[i];
      } else {
        assert s[i] == blk[i - |front|];
      }
    }
    forall i, j | 0 <= i <= j < |s| && s[i].topic in ts && s[j].topic in ts
      ensures IndexOf(ts, s[i].topic) <= IndexOf(ts, s[j].topic)
    {
      if j < |front| {
        assert s[i] == front[i] && s[j] == front[j];
        IndexOfPrefix(p, [t], s[i].topic);
        IndexOfPrefix(p, [t], s[j].topic);
      } else if i < |front| {
        assert s[i] == front[i] && s[j] == blk[j - |front|];
        IndexOfPrefix(p, [t], s[i].topic);
      } else {
        assert s[i] == blk[i - |front|] && s[j] == blk[j - |front|];
      }
    }
  }

  /** Entries appear grouped by topic, the groups in the order of ts. */
  lemma {:induction false} EntriesGrouped(docs: seq<Doc>, ts: seq<int>)
    requires NoDups(ts)
    ensures GroupedBy(Entries(docs, ts), ts)
  {
    if |ts| > 0 {
      var p, t := ts[..|ts| - 1], ts[|ts| - 1];
      assert ts == p + [t];
      NoDupsInit(ts);
      EntriesGrouped(docs, p);
      TopicBlockTopics(docs, t);
      AppendBlockGrouped(Entries(docs, p), TopicBlock(docs, t), p, t);
    }
  }

  /** No (topic, emotion) pair has two entries. */
  lemma {:induction false} EntriesUnique(docs: seq<Doc>, ts: seq<int>)
    requires NoDups(ts)
    ensures PairsUnique(Entries(docs, ts))
  {
    if |ts| > 0 {
      var p, t := ts[..|ts| - 1], ts[|ts| - 1];
      assert ts == p + [t];
      NoDupsInit(ts);
      var front := Entries(docs, p);
      EntriesUnique(docs, p);
      EntriesTopics(docs, p);
      forall i | 0 <= i < |front| ensures front[i].topic != t {
        assert front[i] in front;
      }
      TopicBlockTopics(docs, t);
      TopicBlockDistinct(docs, t);
      AppendBlockUnique(front, TopicBlock(docs, t), t);
    }
  }

  /**
   * Each entry of the correlation table names a topic of the table other than the outlier
   * topic, an emotion present among that topic's rows, and that emotion's rounded share.
   */
  lemma CorrelationSound(docs: seq<Doc>)
    ensures forall x :: x in CorrelationEntries(docs) ==>
      && x.topic != OUTLIER
      && x.topic in Topics(docs)
      && x.emotion in Emotions(OfTopic(docs, x.topic))
      && x.percentage == Round1(TopicEmotionPct(docs, x.topic)[x.emotion])
  {
    EntriesTopics(docs, Distinct(Topics(docs)));
    EntriesShares(docs, Distinct(Topics(docs)));
  }

  /** Every emotion present in every topic other than the outlier topic has its entry. */
  lemma CorrelationComplete(docs: seq<Doc>, t: int, e: string)
    requires t in Topics(docs) && t != OUTLIER
    requires e in Emotions(OfTopic(docs, t))
    ensures Entry(t, e, Round1(TopicEmotionPct(docs, t)[e])) in CorrelationEntries(docs)
  {
    EntriesComplete(docs, Distinct(Topics(docs)), t, e);
  }

  /** No (topic, emotion) pair has two entries in the correlation table. */
  lemma CorrelationUnique(docs: seq<Doc>, i: nat, j: nat)
    requires i < j < |CorrelationEntries(docs)|
    ensures CorrelationEntries(docs)[i].topic != CorrelationEntries(docs)[j].topic
         || CorrelationEntries(docs)[i].emotion != CorrelationEntries(docs)[j].emotion
  {
    EntriesUnique(docs, Distinct(Topics(docs)));
  }

  /** The entries are grouped by topic, in order of each topic's first appearance in the table. */
  lemma CorrelationGrouped(docs: seq<Doc>, i: nat, j: nat)
    requires i <= j < |CorrelationEntries(docs)|
    ensures CorrelationEntries(docs)[i].topic in Topics(docs) && CorrelationEntries(docs)[j].topic in Topics(docs)
    ensures IndexOf(Topics(docs), CorrelationEntries(docs)[i].topic)
         <= IndexOf(Topics(docs), CorrelationEntries(docs)[j].topic)
  {
    var ts := Distinct(Topics(docs));
    var rows := CorrelationEntries(docs);
    EntriesGrouped(docs, ts);
    var x, y := rows[i].topic, rows[j].topic;
    var a, b := IndexOf(ts, x), IndexOf(ts, y);
    if a < b {
      DistinctFirstAppearance(Topics(docs), a, b);
    }
  }

  /** For each topic of the table, the shares behind its entries add up to exactly 100. */
  lemma TopicSharesSumTo100(docs: seq<Doc>, t: int)
    requires t in Topics(docs)
    ensures Total(TopicEmotionPct(docs, t), TopicEmotions(docs, t)) == 100.0
  {
    var k :| 0 <= k < |docs| && docs[k].topic == t;
    assert docs[k] in OfTopic(docs, t);
    DistributionSumsTo100(Emotions(OfTopic(docs, t)));
  }
}
