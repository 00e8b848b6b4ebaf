/**
 * The per-document label table the analytics read: one row per text with the labels the
 * external classifiers gave it, and an optional "topic" column filled by topic modelling.
 */
module Corpus {
  import opened Tally

  /** One row of the table. `topic` is meaningful only when the table has a topic column. */
  datatype Doc = Doc(sentiment: string, emotion: string, topic: int)

  /** The table: its rows, and whether the "topic" column exists at all. */
  datatype Table = Table(docs: seq<Doc>, hasTopic: bool)

  const POSITIVE: string := "POSITIVE"
  const NEGATIVE: string := "NEGATIVE"
  /** The topic id the topic model gives to documents it could not cluster. */
  const OUTLIER: int := -1

  /** The "sentiment" column. */
  function Sentiments(docs: seq<Doc>): seq<string>
  {
    seq(|docs|, i requires 0 <= i < |docs| => docs[i].sentiment)
  }

  /** The "emotion" column. */
  function Emotions(docs: seq<Doc>): seq<string>
  {
    seq(|docs|, i requires 0 <= i < |docs| => docs[i].emotion)
  }

  /** The "topic" column. */
  function Topics(docs: seq<Doc>): seq<int>
  {
    seq(|docs|, i requires 0 <= i < |docs| => docs[i].topic)
  }

  /** The rows whose topic is t, in table order (`df[df["topic"] == t]`). */
  function OfTopic(docs: seq<Doc>, t: int): (r: seq<Doc>)
    ensures forall d :: d in r <==> d in docs && d.topic == t
  {
    if |docs| == 0 then []
    else
      var last := docs[|docs| - 1];
      assert docs == docs[..|docs| - 1] + [last];
      OfTopic(docs[..|docs| - 1], t) + if last.topic == t then [last] else []
  }

  /** The rows of topic t are exactly as many as the occurrences of t in the topic column. */
  lemma {:induction false} OfTopicSize(docs: seq<Doc>, t: int)
    ensures |OfTopic(docs, t)| == Count(Topics(docs), t)
  {
    if |docs| > 0 {
      var p := docs[..|docs| - 1];
      OfTopicSize(p, t);
      assert Topics(docs) == Topics(p) + [docs[|docs| - 1].topic];
    }
  }

  /** Each row of topic t appears in the selection exactly as often as in the table; other rows never. */
  lemma {:induction false} OfTopicMultiset(docs: seq<Doc>, t: int)
    ensures forall d :: multiset(OfTopic(docs, t))[d] == if d.topic == t then multiset(docs)[d] else 0
  {
    if |docs| > 0 {
      var p := docs[..|docs| - 1];
      OfTopicMultiset(p, t);
      assert docs == p + [docs[|docs| - 1]];
    }
  }

  /** A label occurs among the rows of topic t exactly when some row of topic t carries it. */
  lemma EmotionsOfTopic(docs: seq<Doc>, t: int, e: string)
    ensures e in Emotions(OfTopic(docs, t)) <==> exists d :: d in docs && d.topic == t && d.emotion == e
  {
    var r := OfTopic(docs, t);
    if e in Emotions(r) {
      var i :| 0 <= i < |r| && Emotions(r)[i] == e;
      assert r[i] in r;
    }
    if exists d :: d in docs && d.topic == t && d.emotion == e {
      var d :| d in docs && d.topic == t && d.emotion == e;
      var i :| 0 <= i < |r| && r[i] == d;
      assert Emotions(r)[i] == e;
    }
  }
}
