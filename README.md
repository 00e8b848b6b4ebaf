# Social-listening analytics core, in Dafny

This project models the aggregation and scoring layer of a social-listening dashboard
(`analytics.py`). That layer receives a table of per-document labels and turns it into
corpus-level results:

- each document has a sentiment (`POSITIVE`, `NEGATIVE`, `NEUTRAL`, ...), an emotion
  (`joy`, `anger`, ...) and, when topic modelling ran, a topic id, with `-1` for outliers;
- from that table it computes:
  - the sentiment and emotion distributions (`compute_distributions`);
  - a 0-100 mood score (`mood_score`);
  - an emotional volatility index (`volatility_index`);
  - a per-topic emotion breakdown (`topic_emotion_correlation`);
  - one narrative summary per topic, largest first (`detect_narratives`);
  - three or four headline insights (`get_insights`).

Modules, one file each:

- `Wrappers`: `Option`.
- `Strings`: Python's code-point string order and integer-to-decimal formatting.
- `Tally`: counting, `unique`, `mode`.
- `Rounding`: `round(x, 1)`.
- `Corpus`: the document table.
- `Distributions`: `value_counts(normalize=True) * 100` and `compute_distributions`.
- `Scores`: `mood_score` and `volatility_index`.
- `Correlation`: `topic_emotion_correlation`.
- `Narratives`: `detect_narratives`.
- `Insights`: `get_insights`.
- `Scenarios`: worked examples with exact results.

Modelling choices:

- **Tables and percentages.**
  - A table is `Table(docs, hasTopic)`, where `hasTopic` says whether the frame has a `topic` column.
  - Percentages are exact `real`s, so "sums to 100" holds exactly.
  - A distribution is a `map<string, real>` holding only the labels that occur.
- **Pure functions and loops.**
  - `compute_distributions`, `mood_score` and `volatility_index` are pure functions.
  - `topic_emotion_correlation` and `detect_narratives` build their lists in loops. They are methods with the same loops, `continue`s and appends.
  - `CollectEntries` is proved equal to the specification function `Entries`. `CollectSummaries` is proved equal to `Summaries`, and `DetectNarratives` returns a sorted permutation of that list.
  - The properties are proved as lemmas about those specification functions.
  - `get_insights` has no loop: its list comes from an if/elif chain. `GetInsights` is a method without a loop whose `ensures` state each insight's rule directly.
- **Rounding.** Python's `round(x, 1)` is `Rounding.Round1`: round-half-even to one decimal on exact reals.
- **pandas behaviour.**
  - `mode()[0]` yields the smallest of the most frequent labels, because pandas returns modes sorted.
  - `unique()` yields first-appearance order.

## Model

| member | source | states |
|---|---|---|
| Distributions.Share | analytics.py:7-8 | no contract of its own: one label's count/total*100; its range is stated by ShareBounds and its sum over all labels by DistributionSumsTo100 |
| Distributions.ValueCounts | analytics.py:7-8 | the keys are exactly the observed labels; an empty column gives an empty map; every value lies in (0, 100] |
| Distributions.ShareBounds | analytics.py:7-8 | an observed label's share, count/total*100, lies in (0, 100] |
| Distributions.ComputeDistributions | analytics.py:5-9 | the sentiment map's keys are exactly the sentiments present, the emotion map's keys exactly the emotions present; each value is count/total*100, unrounded |
| Distributions.TotalOfShares | analytics.py:7-8 | the shares of any list of observed labels add up to (sum of their counts)/total*100 |
| Distributions.DistributionSumsTo100 | analytics.py:7-8 | over each observed label once, the percentages add up to exactly 100 |
| Rounding.Round1 | analytics.py:27 | `round(x, 1)` moves its argument by at most 0.05 and yields a whole number of tenths |
| Rounding.Round1Monotone | analytics.py:27 | rounding to one decimal preserves order |
| Rounding.Round1OfTenths | analytics.py:27 | a value that already has one decimal is unchanged by rounding |
| Rounding.Round1Within | analytics.py:96-99 | rounding keeps a value inside any range whose ends have one decimal |
| Scores.UnroundedMood | analytics.py:13-25 | the clamped score lies in [0, 100]; it equals 50 + (positive - negative - 0.3*penalty)/2 inside the range, and 0 or 100 outside it |
| Scores.Get | analytics.py:13-18 | no contract of its own: `Series.get(k, 0)`; MoodAbsentIsZero states that an absent key and a 0 entry score the same |
| Scores.EmotionPenalty | analytics.py:17-18 | the penalty lies in [0, 100] when the four negative-emotion shares do, and is 0 when all four are absent or 0 |
| Scores.RawMood | analytics.py:20-25 | no contract of its own: the unclamped score; its meaning is stated by Scores.UnroundedMood and the Scores.Mood* lemmas |
| Scores.Clamp | analytics.py:25 | `max(lo, min(hi, x))` lies in [lo, hi], is x inside that range and the nearer bound outside it |
| Scores.MoodScore | analytics.py:11-27 | the mood score lies in [0, 100] and within 0.05 of the unrounded score |
| Scores.MoodMonotoneInPositive | analytics.py:13-25 | raising the POSITIVE share never lowers the mood score |
| Scores.MoodAntitoneInNegative | analytics.py:13-25 | raising the NEGATIVE share never raises the mood score |
| Scores.MoodAntitoneInNegativeEmotion | analytics.py:16-25 | raising the share of anger, disgust, fear or sadness never raises the mood score |
| Scores.MoodAbsentIsZero | analytics.py:13-18 | an absent key scores exactly as that key present with share 0 |
| Scores.NeutralMoodIsFifty | analytics.py:11-27 | with POSITIVE and NEGATIVE absent or 0 and no negative emotion, the mood score is exactly 50 |
| Scores.MaxValue | analytics.py:35 | `max()` of a non-empty distribution is one of its values and bounds all of them from above |
| Scores.MinValue | analytics.py:35 | `min()` of a non-empty distribution is one of its values and bounds all of them from below |
| Scores.ExtremaExist | analytics.py:35 | every non-empty distribution has a key with the largest value and one with the smallest |
| Scores.Volatility | analytics.py:29-38 | an empty distribution has volatility 0; otherwise the result is within 0.05 of 100*(1 - (max - min)/100) |
| Scores.UnroundedVolatility | analytics.py:31-36 | no contract of its own: 0 on an empty map, else 100*(1 - (max - min)/100); see Scores.VolatilityOfPercentages |
| Scores.VolatilityOfPercentages | analytics.py:35-38 | for percentage values the unrounded index is 100 - (max - min), and the rounded index lies in [0, 100] |
| Scores.EvenEmotionsAreFullyVolatile | analytics.py:35-38 | when all emotion shares are equal the volatility is exactly 100 |
| Scores.SingleEmotionVolatility | analytics.py:29-38 | a corpus with a single emotion has volatility 100, not 0 |
| Corpus.OfTopic | analytics.py:51 | the rows selected by `df["topic"] == t` are exactly the table's rows with topic t |
| Corpus.OfTopicMultiset | analytics.py:51 | the selection is a sub-multiset of the table: each row with topic t occurs in it exactly as often as in the table, and no other row occurs |
| Corpus.OfTopicSize | analytics.py:75 | the number of selected rows is the number of times t occurs in the topic column |
| Corpus.EmotionsOfTopic | analytics.py:51-52 | an emotion occurs among topic t's rows iff some row of the table has topic t and that emotion |
| Tally.CountBounds | analytics.py:83-85 | a label's count is at most the column length, and positive iff the label occurs |
| Tally.CountTwo | analytics.py:83-85 | the counts of two different labels add up to at most the column length |
| Tally.Distinct | analytics.py:47 | `unique()` lists every value of the column, each exactly once, and nothing else |
| Tally.DistinctFirstAppearance | analytics.py:47 | `unique()` lists values in the order of their first occurrence |
| Tally.SumCountsOfAllKeys | analytics.py:7-8 | the counts of the distinct labels of a column add up to its length |
| Tally.Mode | analytics.py:90 | `mode()[0]` occurs in the column, no label is more frequent, and among equally frequent labels it is the smallest |
| Tally.BestOf | analytics.py:90 | scanning candidates keeps one of maximal count that is the smallest of those tied with it |
| Tally.LeastModeUnique | analytics.py:90 | at most one label is the least mode of a column, so `mode()[0]` is determined by the column |
| Strings.LexLeTotal | analytics.py:90 | Python string comparison is total |
| Strings.LexLeTransitive | analytics.py:90 | Python string comparison is transitive |
| Strings.LexLeAntisymmetric | analytics.py:90 | Python string comparison is antisymmetric |
| Strings.NatToString | analytics.py:80 | a non-negative id formats as a non-empty string of decimal digits that denotes it, with no leading zero; 0 formats as exactly "0" |
| Strings.IntToString | analytics.py:80 | an id formats as a non-empty numeral that denotes it: a minus sign exactly when it is negative, then only digits, with no leading zero; 0 formats as exactly "0" |
| Correlation.TopicEmotions | analytics.py:52-54 | the inner loop visits every emotion of the topic's distribution exactly once |
| Correlation.TopicEmotionPct | analytics.py:51-52 | no contract of its own: `value_counts` of topic t's emotions; see Correlation.TopicEmotionPctKeys, Correlation.TopicBlockShares, Correlation.TopicSharesSumTo100 |
| Correlation.TopicEmotionPctKeys | analytics.py:51-52 | the keys of topic t's distribution are exactly the emotions of the rows with topic t |
| Correlation.EntriesFor | analytics.py:54-59 | no contract of its own: the entries the inner loop appends for one topic; EntriesForFacts states their number and contents |
| Correlation.TopicBlock | analytics.py:48-59 | no contract of its own: what one outer pass appends, nothing for -1; see TopicBlockTopics, TopicBlockDistinct, TopicBlockShares and TopicBlockComplete |
| Correlation.Entries | analytics.py:47-59 | no contract of its own: the list after visiting a prefix of the topic ids; CollectEntries is proved equal to it, and EntriesTopics, EntriesShares, EntriesComplete, EntriesGrouped and EntriesUnique state its meaning |
| Correlation.TopicEmotionCorrelation | analytics.py:40-61 | no result (`None`) iff the table has no topic column; otherwise exactly the entry list `CorrelationEntries` |
| Correlation.CollectEntries | analytics.py:45-59 | the outer loop over the distinct topic ids, skipping -1, builds exactly `Entries` |
| Correlation.AppendTopic | analytics.py:51-59 | one pass of the outer loop appends exactly the topic's block of entries |
| Correlation.AppendTopicEntries | analytics.py:54-59 | the inner loop appends one entry per emotion, with its share rounded to one decimal |
| Correlation.EntriesForFacts | analytics.py:54-59 | the i-th appended entry is (topic, i-th emotion, that emotion's rounded share) |
| Correlation.TopicBlockTopics | analytics.py:48-59 | the outlier topic appends nothing; every entry a topic appends carries that topic |
| Correlation.TopicBlockDistinct | analytics.py:54-59 | no emotion is appended twice for one topic |
| Correlation.TopicBlockShares | analytics.py:52-58 | each appended entry names an emotion of the topic and that emotion's rounded share |
| Correlation.TopicBlockComplete | analytics.py:52-58 | every emotion of a topic other than -1 gets an entry |
| Correlation.EntriesTopics | analytics.py:47-59 | every entry is about a visited topic id, never -1 |
| Correlation.EntriesShares | analytics.py:52-58 | every entry names an emotion present in its topic and that emotion's rounded share |
| Correlation.EntriesComplete | analytics.py:47-59 | every emotion of every visited topic other than -1 has its entry |
| Correlation.AppendBlockUnique | analytics.py:54-59 | appending the block of a new topic keeps (topic, emotion) pairs unique |
| Correlation.AppendBlockGrouped | analytics.py:47-59 | appending the block of the next topic keeps entries grouped in topic order |
| Correlation.EntriesGrouped | analytics.py:47-59 | entries appear grouped by topic, in the order the topics are visited |
| Correlation.EntriesUnique | analytics.py:47-59 | no (topic, emotion) pair has two entries |
| Correlation.CorrelationSound | analytics.py:47-59 | each entry's topic occurs in the table and is not -1; its emotion occurs among that topic's rows; its percentage is that emotion's rounded share |
| Correlation.CorrelationComplete | analytics.py:47-59 | every emotion of every topic other than -1 has an entry |
| Correlation.CorrelationUnique | analytics.py:47-59 | no (topic, emotion) pair appears twice |
| Correlation.CorrelationGrouped | analytics.py:47-59 | entries are grouped by topic, in order of each topic's first appearance in the table |
| Correlation.TopicSharesSumTo100 | analytics.py:52 | for each topic of the table, the unrounded shares behind its entries add up to exactly 100 |
| Narratives.InsertByCountPermutes | analytics.py:102 | inserting a summary into the sorted prefix adds exactly that summary |
| Narratives.InsertByCountSorted | analytics.py:102 | inserting into a list sorted by descending count keeps it sorted |
| Narratives.SortByCountDesc | analytics.py:102 | `sort_values("document_count", ascending=False)` yields a permutation of its input sorted by descending count |
| Narratives.CollectSummaries | analytics.py:68-100 | the loop over topic-info rows, skipping -1 and topics without rows, builds exactly `Summaries` |
| Narratives.DetectNarratives | analytics.py:63-102 | no result iff there is no topic column or no topic info; otherwise a permutation of the summaries sorted by descending document count (an empty list when there are none) |
| Narratives.DetectNarrativesAsWritten | analytics.py:63-102 | the function as written: no result in the same cases; a KeyError exactly when no summary was built; otherwise sorted and a permutation of the summaries |
| Narratives.OutliersOnlyYieldNoSummaries | analytics.py:70-73 | a topic-info table holding only the outlier topic yields no summaries, the input on which the code as written raises |
| Narratives.SummariesOrigin | analytics.py:70-100 | every summary comes from an info row of a non-outlier topic with rows, and is that topic's summary |
| Narratives.SummariesComplete | analytics.py:70-100 | every info row of a topic other than -1 that has rows yields that topic's summary |
| Narratives.SummaryOf | analytics.py:71-100 | no contract of its own: what one info row contributes, nothing for -1 or a topic without rows; see SummariesOrigin and SummariesComplete |
| Narratives.Summaries | analytics.py:68-100 | no contract of its own: the list the loop builds; CollectSummaries is proved equal to it, and SummariesOrigin, SummariesComplete and NarrativeCounts state its meaning |
| Narratives.PositiveCount | analytics.py:83 | no contract of its own: the number of POSITIVE rows of the topic; see SummarizeScores |
| Narratives.NegativeCount | analytics.py:84 | no contract of its own: the number of NEGATIVE rows of the topic; see SummarizeScores |
| Narratives.NetSentimentPct | analytics.py:87 | no contract of its own: (pos_count - neg_count)/total*100 before rounding; SummarizeScores proves it equals PositivePct - NegativePct and lies in [-100, 100] |
| Narratives.PositivePct | analytics.py:98 | no contract of its own: the POSITIVE share of the topic's sentiment column (`Distributions.Share`); SummarizeScores bounds it |
| Narratives.NegativePct | analytics.py:99 | no contract of its own: the NEGATIVE share of the topic's sentiment column (`Distributions.Share`); SummarizeScores bounds it |
| Narratives.TopicName | analytics.py:80 | the row's Name when it has one, otherwise exactly "Topic " followed by the decimal numeral of the topic id (`IntToString`), which denotes that id |
| Narratives.Summarize | analytics.py:83-100 | no contract of its own: the per-topic record; see Narratives.SummarizeScores, Narratives.NarrativeCounts, Narratives.NarrativeDominantEmotion |
| Narratives.NarrativeCounts | analytics.py:70-95 | no summary has topic -1 or document_count 0; document_count is the number of rows with that topic id, and the id comes from the topic info |
| Narratives.SummarizeScores | analytics.py:83-99 | before rounding, sentiment_score = positive_pct - negative_pct and lies in [-100, 100]; the two shares are non-negative and add up to at most 100; after rounding each value stays in its range |
| Narratives.NarrativeScores | analytics.py:83-99 | every narrative's scores lie in their ranges, and its sentiment_score is the rounded difference of its topic's positive and negative shares |
| Narratives.UnanimousPositiveScores | analytics.py:83-99 | a topic whose rows are all POSITIVE scores +100, with 100% positive and 0% negative |
| Narratives.UnanimousNegativeScores | analytics.py:83-99 | a topic whose rows are all NEGATIVE scores -100, with 0% positive and 100% negative |
| Narratives.NarrativeDominantEmotion | analytics.py:90 | dominant_emotion occurs among the topic's rows, has maximal count, and is the smallest of the labels tied with it |
| Insights.GetInsights | analytics.py:104-136 | 4 insights when narratives are present and non-empty, otherwise 3; the mood tier holds iff its threshold (>=70, >=50, >=30, below) does; the strong-emotion insight appears iff the largest share exceeds 40, naming a label with that share, and the diverse statement otherwise; the sample size is the number of rows; the fourth insight is the first narrative, which has the largest count when the list is sorted |
| Scenarios.HalfQuarterQuarter | analytics.py:7-8 | a column with one label twice and two others once has shares 50/25/25 |
| Scenarios.FourDocumentScenario | analytics.py:5-38 | sentiments [POSITIVE, POSITIVE, NEGATIVE, NEUTRAL] with emotions [joy, joy, anger, neutral] give shares 50/25/25, a mood of 61.5625 (61.6 rounded) and a volatility of 75 |
| Scenarios.TwoTopicScenario | analytics.py:68-100 | five all-POSITIVE rows of topic 0 and five all-NEGATIVE rows of topic 1 give two narratives of 5 documents, scoring +100 and -100 |

## Left out

- **Other modules.** `app.py` (the page script, upload and session state), `ui_components.py` (charts, rendering, CSV export) and `nlp_engine.py` (the sentiment, emotion and topic models) are not part of this model. The model's input table stands in for their output: labels are arbitrary strings, and topic ids are integers with -1 for outliers.
- **Floating point.** Percentages are exact rationals, so IEEE rounding errors in the shares and in `round(x, 1)` are not modelled.
  - `Rounding.Round1` rounds the exact value half to even.
  - The correlation percentages (analytics.py:58) are Python floats, since `Series.items()` yields Python scalars. Built-in `round` rounds the stored binary value correctly, which can differ near halves: 0.15 is stored just below 0.15, so Python gives 0.1 where the model gives 0.2.
  - The mood, volatility and narrative values (analytics.py:27, 38, 96-99) are numpy floats. numpy's `round` scales by 10 and rounds half to even, so for 0.15 it gives 0.2, as the model does; the scaling itself can still introduce float error.
- **The text column.** The document text is not read by this layer, so a `Doc` has no text field.
- **Order of emotions within a topic.** `value_counts` lists a topic's emotions by descending count, with the order among ties not promised. `Correlation.EntriesFor` lists them in order of first appearance.
  - The properties proved (soundness, completeness, uniqueness, grouping by topic, shares summing to 100) do not depend on that order.
  - Order by descending count within a topic is not stated.
- **Narrative order among equal counts.** `Narratives.SortByCountDesc` is a stable insertion sort, but its contract promises only "sorted by descending count and a permutation". pandas' default sort is not stable, so the order of narratives with equal counts is not promised.
- **Insights.GetInsights, choice of emotion.** `idxmax` on tied shares picks a label by pandas' internal order. The model picks any label with the largest share, and the contract says only that.
- **Insights.GetInsights, text.** The markdown text, emoji, `.title()` capitalisation and number formatting (`:.1f`, `:,`, `:+.0f`) are replaced by structured `Insight` values carrying the same data.
- **Insights.GetInsights, unused input.** The `sentiment_pct` argument is accepted and, as in the source, never read.
- **Dead branches.** The `if total > 0 else 0` fallbacks and the `"neutral"` fallback for `mode` in `detect_narratives` are unreachable, because topics without rows are skipped first. The model computes the live branch only.
- **Missing "Name" column.** `row.get("Name", ...)` returns a NaN name when the column exists with a missing cell. The model has only the two cases "name present" and "no name", the latter formatted as `Topic <id>`.
- **Frame columns.** The `DataFrame` results are sequences of records. Column dtypes and the pandas index are not modelled.

## Findings

| source | as written | input that shows it | evidently intended | confidence | as-written member | corrected member |
|---|---|---|---|---|---|---|
| analytics.py:102 | when no topic-info row produces a summary, `pd.DataFrame([])` has no `document_count` column and `sort_values("document_count")` raises KeyError | a table with a topic column and a topic-info table whose only row is topic -1 (everything clustered as outliers) | an empty narrative list: the caller's `len(narratives) > 0` check at analytics.py:132 expects one | not executed | Narratives.DetectNarrativesAsWritten (with Narratives.OutliersOnlyYieldNoSummaries) | Narratives.DetectNarratives |
