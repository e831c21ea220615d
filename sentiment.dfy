/** The FinBERT scoring adapter shared by Sentiment_Analysis/reddit_sentiment_analyzer.py
    and Sentiment_Analysis/stockwits_sentiment_analyzer.py, which hold the same
    three functions: `infer_batch` feeds the texts to the classifier in
    consecutive slices, `to_row` turns one text's label scores into
    probabilities, a predicted label, a confidence and a signed score, and
    `summarize` reduces one symbol's rows. The classifier (`pipe`) is a
    function parameter. Probabilities are `real`; rounding is left out. */
module Sentiment {
  import opened Wrappers
  import Text

  /** One entry `{"label": ..., "score": ...}` of the classifier's output. */
  datatype LabelScore = LabelScore(name: string, score: real)

  /** The classifier's output for one text. */
  type Scores = seq<LabelScore>

  const DEFAULT_BATCH_SIZE := 64

  // ---------------------------------------------------------------------
  // infer_batch

  function Flatten<T>(xss: seq<seq<T>>): seq<T> {
    if xss == [] then [] else xss[0] + Flatten(xss[1..])
  }

  function MinNat(a: nat, b: nat): nat {
    if a <= b then a else b
  }

  /** The slices `texts[i:i+b]` for `i` in `range(0, len(texts), b)`. */
  function Chunks(texts: seq<string>, b: nat): (cs: seq<seq<string>>)
    requires b > 0
    ensures Flatten(cs) == texts
    ensures forall i :: 0 <= i < |cs| ==> 0 < |cs[i]| <= b
    ensures forall i :: 0 <= i < |cs| - 1 ==> |cs[i]| == b
    decreases |texts|
  {
    if texts == [] then []
    else
      var k := MinNat(b, |texts|);
      var rest := Chunks(texts[k..], b);
      var cs := [texts[..k]] + rest;
      assert cs[1..] == rest;
      assert texts[..k] + texts[k..] == texts;
      assert forall i :: 0 < i < |cs| ==> cs[i] == rest[i - 1];
      cs
  }

  /** There are `ceil(len(texts) / b)` slices. */
  lemma {:induction false} ChunksCount(texts: seq<string>, b: nat)
    requires b > 0
    ensures |Chunks(texts, b)| * b >= |texts| > (|Chunks(texts, b)| - 1) * b
    decreases |texts|
  {
    if texts != [] {
      var k := MinNat(b, |texts|);
      ChunksCount(texts[k..], b);
      var n := |Chunks(texts[k..], b)|;
      assert |Chunks(texts, b)| == n + 1;
      assert (n + 1) * b == n * b + b;
    }
  }

  /** The classifier's outputs for the chunks, concatenated in order
      (`out.extend(pipe(chunk))`). */
  function ScoreChunks(pipe: seq<string> -> seq<Scores>, cs: seq<seq<string>>): seq<Scores> {
    if cs == [] then [] else pipe(cs[0]) + ScoreChunks(pipe, cs[1..])
  }

  /** One step of the batching loop: the slice at `i` followed by the rest. */
  lemma ChunksStep(pipe: seq<string> -> seq<Scores>, texts: seq<string>, i: nat, b: nat)
    requires b > 0 && i < |texts|
    ensures ScoreChunks(pipe, Chunks(texts[i..], b))
            == pipe(texts[i..MinNat(i + b, |texts|)]) + ScoreChunks(pipe, Chunks(texts[MinNat(i + b, |texts|)..], b))
  {
    var rest := texts[i..];
    var stop := MinNat(i + b, |texts|);
    assert rest[..MinNat(b, |rest|)] == texts[i..stop];
    assert rest[MinNat(b, |rest|)..] == texts[stop..];
    var cs := Chunks(texts[i..], b);
    assert cs[0] == texts[i..stop];
    assert cs[1..] == Chunks(texts[stop..], b);
  }

  /** `infer_batch(texts, batch_size)`: a step of 0 makes `range` raise
      (None here), a negative step gives an empty range and so `[]`, and a
      positive one the outputs of `pipe` on consecutive slices of that size,
      in order. An empty list makes no call at all. */
  method InferBatch(pipe: seq<string> -> seq<Scores>, texts: seq<string>, batchSize: int)
    returns (out: Option<seq<Scores>>)
    ensures batchSize == 0 ==> out == None
    ensures batchSize < 0 ==> out == Some([])
    ensures batchSize > 0 ==> out == Some(ScoreChunks(pipe, Chunks(texts, batchSize)))
  {
    if batchSize == 0 {
      return None;
    }
    var scores: seq<Scores> := [];
    if batchSize < 0 {
      return Some(scores);
    }
    var i := 0;
    while i < |texts|
      invariant 0 <= i
      invariant scores + ScoreChunks(pipe, Chunks(texts[MinNat(i, |texts|)..], batchSize))
                == ScoreChunks(pipe, Chunks(texts, batchSize))
      decreases |texts| - i
    {
      var stop := MinNat(i + batchSize, |texts|);
      ChunksStep(pipe, texts, i, batchSize);
      scores := scores + pipe(texts[i..stop]);
      i := i + batchSize;
      assert MinNat(i, |texts|) == stop;
    }
    assert texts[MinNat(i, |texts|)..] == [];
    assert ScoreChunks(pipe, Chunks([], batchSize)) == [];
    assert scores + [] == scores;
    out := Some(scores);
  }

  /** A classifier that scores each text on its own. */
  function MapScore(score: string -> Scores, texts: seq<string>): (r: seq<Scores>)
    ensures |r| == |texts|
    ensures forall i :: 0 <= i < |texts| ==> r[i] == score(texts[i])
  {
    seq(|texts|, i requires 0 <= i < |texts| => score(texts[i]))
  }

  lemma {:induction false} ScoreChunksElementwise(pipe: seq<string> -> seq<Scores>, score: string -> Scores,
                                                  cs: seq<seq<string>>)
    requires forall xs :: pipe(xs) == MapScore(score, xs)
    ensures ScoreChunks(pipe, cs) == MapScore(score, Flatten(cs))
  {
    if cs != [] {
      ScoreChunksElementwise(pipe, score, cs[1..]);
      assert MapScore(score, cs[0] + Flatten(cs[1..])) == MapScore(score, cs[0]) + MapScore(score, Flatten(cs[1..]));
    }
  }

  /** For a classifier that scores each text on its own, batching changes
      nothing: the result is the classifier mapped over the texts, one output
      per text in input order, whatever the positive batch size. */
  lemma BatchSizeInvariant(pipe: seq<string> -> seq<Scores>, score: string -> Scores,
                           texts: seq<string>, batchSize: nat)
    requires batchSize > 0
    requires forall xs :: pipe(xs) == MapScore(score, xs)
    ensures ScoreChunks(pipe, Chunks(texts, batchSize)) == MapScore(score, texts)
  {
    ScoreChunksElementwise(pipe, score, Chunks(texts, batchSize));
  }

  // ---------------------------------------------------------------------
  // to_row

  /** The dict `{d["label"].lower(): d["score"] for d in score_list}` as a list
      in insertion order: a repeated label keeps its first position and takes
      its last score. */
  type ScoreMap = seq<(string, real)>

  predicate DistinctKeys(m: ScoreMap) {
    forall i, j :: 0 <= i < j < |m| ==> m[i].0 != m[j].0
  }

  /** Where key `k` sits in `m`, or `|m|` when it is absent. */
  function KeyIndex(m: ScoreMap, k: string): (i: nat)
    ensures i <= |m|
    ensures i < |m| ==> m[i].0 == k
    ensures forall t :: 0 <= t < i ==> m[t].0 != k
  {
    if m == [] then 0
    else if m[0].0 == k then 0
    else
      var i := KeyIndex(m[1..], k);
      assert forall t :: 0 < t <= i ==> m[t] == m[1..][t - 1];
      1 + i
  }

  /** `m[k] = v` on a dict: an existing key takes the new value in place, a
      new key goes last. */
  function Put(m: ScoreMap, k: string, v: real): (r: ScoreMap)
    requires DistinctKeys(m)
    ensures DistinctKeys(r)
    ensures (exists i :: 0 <= i < |m| && m[i].0 == k) ==> |r| == |m| && forall i :: 0 <= i < |m| ==> r[i].0 == m[i].0
    ensures (forall i :: 0 <= i < |m| ==> m[i].0 != k) ==> r == m + [(k, v)]
    ensures forall i :: 0 <= i < |r| ==> r[i] == (k, v) || r[i] in m
  {
    var i := KeyIndex(m, k);
    if i < |m| then m[i := (k, v)] else m + [(k, v)]
  }

  lemma PutCons(m: ScoreMap, k: string, v: real)
    requires DistinctKeys(m) && m != [] && m[0].0 != k
    ensures DistinctKeys(m[1..])
    ensures Put(m, k, v) == [m[0]] + Put(m[1..], k, v)
  {
    var i := KeyIndex(m[1..], k);
    assert KeyIndex(m, k) == 1 + i;
    if i < |m| - 1 {
      assert m[i + 1 := (k, v)] == [m[0]] + m[1..][i := (k, v)];
    } else {
      assert m + [(k, v)] == [m[0]] + (m[1..] + [(k, v)]);
    }
  }

  /** The value of key `k`, if present. */
  function Lookup(m: ScoreMap, k: string): (r: Option<real>)
    ensures r.Some? <==> exists i :: 0 <= i < |m| && m[i].0 == k
    ensures r.Some? ==> exists i :: 0 <= i < |m| && m[i] == (k, r.value)
  {
    if m == [] then None
    else if m[0].0 == k then Some(m[0].1)
    else
      var r := Lookup(m[1..], k);
      assert forall i :: 0 <= i < |m| - 1 ==> m[1..][i] == m[i + 1];
      r
  }

  lemma {:induction false} LookupPut(m: ScoreMap, k: string, v: real, k': string)
    requires DistinctKeys(m)
    ensures Lookup(Put(m, k, v), k') == if k' == k then Some(v) else Lookup(m, k')
  {
    if m != [] && m[0].0 != k {
      PutCons(m, k, v);
      LookupPut(m[1..], k, v, k');
    }
  }

  function BuildScoreMap(scores: Scores): (m: ScoreMap)
    ensures DistinctKeys(m)
  {
    if scores == [] then []
    else
      var last := scores[|scores| - 1];
      Put(BuildScoreMap(scores[..|scores| - 1]), Text.Lower(last.name), last.score)
  }

  /** The score of the last entry whose lower-cased label is `k`: what the
      dict comprehension leaves under `k`. */
  function LastScore(scores: Scores, k: string): (r: Option<real>)
    ensures r.Some? <==> exists j :: 0 <= j < |scores| && Text.Lower(scores[j].name) == k
  {
    if scores == [] then None
    else if Text.Lower(scores[|scores| - 1].name) == k then Some(scores[|scores| - 1].score)
    else
      var r := LastScore(scores[..|scores| - 1], k);
      assert forall j :: 0 <= j < |scores| - 1 ==> scores[..|scores| - 1][j] == scores[j];
      r
  }

  /** The dict holds, for each lower-cased label, the last score given for it. */
  lemma {:induction false} BuildScoreMapLookup(scores: Scores, k: string)
    ensures Lookup(BuildScoreMap(scores), k) == LastScore(scores, k)
  {
    if scores != [] {
      var last := scores[|scores| - 1];
      BuildScoreMapLookup(scores[..|scores| - 1], k);
      LookupPut(BuildScoreMap(scores[..|scores| - 1]), Text.Lower(last.name), last.score, k);
    }
  }

  /** The position of the first entry whose lower-cased label is `k`, or
      `|scores|` when there is none. */
  function FirstIndex(scores: Scores, k: string): (j: nat)
    ensures j <= |scores|
    ensures j < |scores| ==> Text.Lower(scores[j].name) == k
    ensures forall i :: 0 <= i < j ==> Text.Lower(scores[i].name) != k
  {
    if scores == [] then 0
    else if Text.Lower(scores[0].name) == k then 0
    else 1 + FirstIndex(scores[1..], k)
  }

  lemma {:induction false} FirstIndexPrefix(scores: Scores, x: LabelScore, k: string)
    requires FirstIndex(scores, k) < |scores|
    ensures FirstIndex(scores + [x], k) == FirstIndex(scores, k)
  {
    if Text.Lower(scores[0].name) != k {
      assert (scores + [x])[1..] == scores[1..] + [x];
      FirstIndexPrefix(scores[1..], x, k);
    }
  }

  /** Every key of the dict is the lower-cased label of some entry. */
  lemma KeyAppears(scores: Scores, i: nat)
    requires i < |BuildScoreMap(scores)|
    ensures FirstIndex(scores, BuildScoreMap(scores)[i].0) < |scores|
  {
    var key := BuildScoreMap(scores)[i].0;
    BuildScoreMapLookup(scores, key);
    var j :| 0 <= j < |scores| && Text.Lower(scores[j].name) == key;
  }

  /** Appending an entry keeps the first-appearance order of existing keys. */
  lemma OldKeysKeepOrder(prefix: Scores, last: LabelScore, i: nat, j: nat)
    requires i < j < |BuildScoreMap(prefix)|
    requires FirstIndex(prefix, BuildScoreMap(prefix)[i].0) < FirstIndex(prefix, BuildScoreMap(prefix)[j].0)
    ensures FirstIndex(prefix + [last], BuildScoreMap(prefix)[i].0)
            < FirstIndex(prefix + [last], BuildScoreMap(prefix)[j].0)
  {
    KeyAppears(prefix, i);
    KeyAppears(prefix, j);
    FirstIndexPrefix(prefix, last, BuildScoreMap(prefix)[i].0);
    FirstIndexPrefix(prefix, last, BuildScoreMap(prefix)[j].0);
  }

  /** A label new to the dict first appears after every existing key. */
  lemma NewKeyComesLast(prefix: Scores, last: LabelScore, i: nat)
    requires i < |BuildScoreMap(prefix)|
    requires forall t :: 0 <= t < |BuildScoreMap(prefix)| ==> BuildScoreMap(prefix)[t].0 != Text.Lower(last.name)
    ensures FirstIndex(prefix + [last], BuildScoreMap(prefix)[i].0) < FirstIndex(prefix + [last], Text.Lower(last.name))
  {
    var k := Text.Lower(last.name);
    var scores := prefix + [last];
    KeyAppears(prefix, i);
    FirstIndexPrefix(prefix, last, BuildScoreMap(prefix)[i].0);
    assert FirstIndex(prefix, k) == |prefix| by {
      if FirstIndex(prefix, k) < |prefix| {
        BuildScoreMapLookup(prefix, k);
      }
    }
    forall t | 0 <= t < |prefix| ensures Text.Lower(scores[t].name) != k {
      assert scores[t] == prefix[t];
    }
  }

  /** Setting a key keeps every existing key in its place. */
  lemma PutKeepsKeyAt(m: ScoreMap, k: string, v: real, i: nat)
    requires DistinctKeys(m) && i < |m|
    ensures i < |Put(m, k, v)| && Put(m, k, v)[i].0 == m[i].0
  {
  }

  /** Setting a key grows the dict only when the key is new, and then at the end. */
  lemma PutGrows(m: ScoreMap, k: string, v: real)
    requires DistinctKeys(m) && |Put(m, k, v)| > |m|
    ensures forall t :: 0 <= t < |m| ==> m[t].0 != k
    ensures Put(m, k, v)[|m|].0 == k
  {
  }

  lemma BuildScoreMapSnoc(scores: Scores)
    requires scores != []
    ensures var prefix := scores[..|scores| - 1];
      var last := scores[|scores| - 1];
      scores == prefix + [last]
      && BuildScoreMap(scores) == Put(BuildScoreMap(prefix), Text.Lower(last.name), last.score)
  {
  }

  /** The dict's keys come in the order of their first appearance. */
  lemma {:induction false} BuildScoreMapOrder(scores: Scores, i: nat, j: nat)
    requires i < j < |BuildScoreMap(scores)|
    ensures FirstIndex(scores, BuildScoreMap(scores)[i].0) < FirstIndex(scores, BuildScoreMap(scores)[j].0)
  {
    var prefix := scores[..|scores| - 1];
    var last := scores[|scores| - 1];
    var k := Text.Lower(last.name);
    var m0 := BuildScoreMap(prefix);
    BuildScoreMapSnoc(scores);
    PutKeepsKeyAt(m0, k, last.score, i);
    if j < |m0| {
      PutKeepsKeyAt(m0, k, last.score, j);
      BuildScoreMapOrder(prefix, i, j);
      OldKeysKeepOrder(prefix, last, i, j);
    } else {
      PutGrows(m0, k, last.score);
      NewKeyComesLast(prefix, last, i);
    }
  }

  /** The index `max(m, key=m.get)` picks: the first key with the largest
      score. */
  function ArgMax(m: ScoreMap): (k: nat)
    requires |m| > 0
    ensures k < |m|
    ensures forall i :: 0 <= i < |m| ==> m[i].1 <= m[k].1
    ensures forall i :: 0 <= i < k ==> m[i].1 < m[k].1
  {
    if |m| == 1 then 0
    else
      var j := ArgMax(m[..|m| - 1]);
      assert forall i :: 0 <= i < |m| - 1 ==> m[..|m| - 1][i] == m[i];
      if m[|m| - 1].1 > m[j].1 then |m| - 1 else j
  }

  /** One text's numeric columns. */
  datatype ScoreRow = ScoreRow(
    probPositive: real,
    probNegative: real,
    probNeutral: real,
    predLabel: string,
    confidence: real,
    sentimentSigned: real)

  /** What makes `to_row` raise: `max` of an empty dict, or a missing class. */
  datatype RowError = NoScores | MissingLabel(missing: string)

  /** `to_row(score_list)`. It fails exactly when there are no scores or one of
      the three classes is absent. Otherwise the predicted label is a
      lower-cased label of the list whose (last) score is the confidence and
      is at least every label's score, ties going to the label that appears
      first; the three probabilities are copied through, and the signed score
      is `p_pos - p_neg`, within [-1, 1] when both are probabilities. */
  function ToRow(scores: Scores): (r: Result<ScoreRow, RowError>)
    ensures scores == [] ==> r == Failure(NoScores)
    ensures r.Success? <==> scores != [] && LastScore(scores, "positive").Some?
                            && LastScore(scores, "negative").Some? && LastScore(scores, "neutral").Some?
    ensures r.Success? ==> RowFits(scores, r.value)
  {
    var m := BuildScoreMap(scores);
    BuildScoreMapLookup(scores, "positive");
    BuildScoreMapLookup(scores, "negative");
    BuildScoreMapLookup(scores, "neutral");
    if m == [] then
      assert scores == [];
      Failure(NoScores)
    else
      var k := ArgMax(m);
      var predLabel := m[k].0;
      var conf := m[k].1;
      var pos := Lookup(m, "positive");
      var neg := Lookup(m, "negative");
      var neu := Lookup(m, "neutral");
      if pos.None? then Failure(MissingLabel("positive"))
      else if neg.None? then Failure(MissingLabel("negative"))
      else if neu.None? then Failure(MissingLabel("neutral"))
      else
        ToRowFits(scores, k);
        Success(ScoreRow(pos.value, neg.value, neu.value, predLabel, conf, pos.value - neg.value))
  }

  /** What `to_row` promises of the row it builds from `scores`: the three
      probabilities are the labels' last scores; the signed sentiment is
      positive minus negative, within [-1, 1] when both are probabilities;
      the predicted label carries the confidence as its score, no label
      scores higher, and among equal scores the label seen first wins. */
  ghost predicate RowFits(scores: Scores, row: ScoreRow) {
    && Some(row.probPositive) == LastScore(scores, "positive")
    && Some(row.probNegative) == LastScore(scores, "negative")
    && Some(row.probNeutral) == LastScore(scores, "neutral")
    && row.sentimentSigned == row.probPositive - row.probNegative
    && (0.0 <= row.probPositive <= 1.0 && 0.0 <= row.probNegative <= 1.0 ==>
          -1.0 <= row.sentimentSigned <= 1.0)
    && LastScore(scores, row.predLabel) == Some(row.confidence)
    && (forall j, c :: 0 <= j < |scores| && LastScore(scores, Text.Lower(scores[j].name)) == Some(c) ==>
          c <= row.confidence)
    && (forall j :: 0 <= j < |scores| && LastScore(scores, Text.Lower(scores[j].name)) == Some(row.confidence) ==>
          FirstIndex(scores, row.predLabel) <= j)
  }

  lemma ToRowFits(scores: Scores, k: nat)
    requires BuildScoreMap(scores) != [] && k == ArgMax(BuildScoreMap(scores))
    requires LastScore(scores, "positive").Some? && LastScore(scores, "negative").Some?
    requires LastScore(scores, "neutral").Some?
    ensures var m := BuildScoreMap(scores);
      var pos := LastScore(scores, "positive").value;
      var neg := LastScore(scores, "negative").value;
      var neu := LastScore(scores, "neutral").value;
      RowFits(scores, ScoreRow(pos, neg, neu, m[k].0, m[k].1, pos - neg))
  {
    var m := BuildScoreMap(scores);
    ToRowChoice(scores, k);
    BuildScoreMapLookup(scores, m[k].0);
    LookupAt(m, k);
  }

  /** In a dict with distinct keys, looking up the key at `k` finds its value. */
  lemma {:induction false} LookupAt(m: ScoreMap, k: nat)
    requires DistinctKeys(m) && k < |m|
    ensures Lookup(m, m[k].0) == Some(m[k].1)
  {
    if k > 0 {
      assert DistinctKeys(m[1..]);
      LookupAt(m[1..], k - 1);
    }
  }

  /** The argmax of the dict, read back on the score list. */
  lemma {:induction false} ToRowChoice(scores: Scores, k: nat)
    requires BuildScoreMap(scores) != [] && k == ArgMax(BuildScoreMap(scores))
    ensures var m := BuildScoreMap(scores);
      && (forall j, c :: 0 <= j < |scores| && LastScore(scores, Text.Lower(scores[j].name)) == Some(c) ==> c <= m[k].1)
      && (forall j :: 0 <= j < |scores| && LastScore(scores, Text.Lower(scores[j].name)) == Some(m[k].1) ==>
            FirstIndex(scores, m[k].0) <= j)
  {
    var m := BuildScoreMap(scores);
    forall j, c | 0 <= j < |scores| && LastScore(scores, Text.Lower(scores[j].name)) == Some(c)
      ensures c <= m[k].1
      ensures c == m[k].1 ==> FirstIndex(scores, m[k].0) <= j
    {
      var key := Text.Lower(scores[j].name);
      BuildScoreMapLookup(scores, key);
      var i :| 0 <= i < |m| && m[i] == (key, c);
      if c == m[k].1 && i != k {
        assert k < i;
        BuildScoreMapOrder(scores, k, i);
      }
    }
  }

  // ---------------------------------------------------------------------
  // summarize

  /** One symbol's summary row, before rounding. */
  datatype Summary = Summary(
    messages: nat,
    posShare: real,
    negShare: real,
    neuShare: real,
    probPosMean: real,
    probNegMean: real,
    probNeuMean: real,
    sentimentMean: real,
    sentimentTotal: real,
    confidenceMean: real)

  function CountLabel(rows: seq<ScoreRow>, tag: string): (c: nat)
    ensures c <= |rows|
  {
    if rows == [] then 0
    else (if rows[0].predLabel == tag then 1 else 0) + CountLabel(rows[1..], tag)
  }

  function Sum(xs: seq<real>): real {
    if xs == [] then 0.0 else xs[0] + Sum(xs[1..])
  }

  lemma {:induction false} SumBounds(xs: seq<real>, lo: real, hi: real)
    requires forall i :: 0 <= i < |xs| ==> lo <= xs[i] <= hi
    ensures |xs| as real * lo <= Sum(xs) <= |xs| as real * hi
  {
    if xs != [] {
      SumBounds(xs[1..], lo, hi);
      assert |xs| as real * lo == (|xs| - 1) as real * lo + lo;
      assert |xs| as real * hi == (|xs| - 1) as real * hi + hi;
    }
  }

  /** `m` is the mean of the non-empty column `xs`: times the count, it is
      the column's sum. */
  predicate IsMean(m: real, xs: seq<real>) {
    |xs| > 0 && m * |xs| as real == Sum(xs)
  }

  /** A column mean (pandas `mean`) of a non-empty column. */
  function Mean(xs: seq<real>): (m: real)
    requires |xs| > 0
    ensures IsMean(m, xs)
  {
    Sum(xs) / |xs| as real
  }

  /** A mean lies between any lower and upper bound of its column. */
  lemma MeanBetween(xs: seq<real>, lo: real, hi: real)
    requires |xs| > 0
    requires forall i :: 0 <= i < |xs| ==> lo <= xs[i] <= hi
    ensures lo <= Mean(xs) <= hi
  {
    var n := |xs| as real;
    var m := Mean(xs);
    SumBounds(xs, lo, hi);
    assert (m - lo) * n >= 0.0;
    assert (hi - m) * n >= 0.0;
  }

  function ProbPositive(rows: seq<ScoreRow>): (xs: seq<real>)
    ensures |xs| == |rows| && forall i :: 0 <= i < |rows| ==> xs[i] == rows[i].probPositive
  {
    seq(|rows|, i requires 0 <= i < |rows| => rows[i].probPositive)
  }

  function ProbNegative(rows: seq<ScoreRow>): (xs: seq<real>)
    ensures |xs| == |rows| && forall i :: 0 <= i < |rows| ==> xs[i] == rows[i].probNegative
  {
    seq(|rows|, i requires 0 <= i < |rows| => rows[i].probNegative)
  }

  function ProbNeutral(rows: seq<ScoreRow>): (xs: seq<real>)
    ensures |xs| == |rows| && forall i :: 0 <= i < |rows| ==> xs[i] == rows[i].probNeutral
  {
    seq(|rows|, i requires 0 <= i < |rows| => rows[i].probNeutral)
  }

  function Signed(rows: seq<ScoreRow>): (xs: seq<real>)
    ensures |xs| == |rows| && forall i :: 0 <= i < |rows| ==> xs[i] == rows[i].sentimentSigned
  {
    seq(|rows|, i requires 0 <= i < |rows| => rows[i].sentimentSigned)
  }

  function Confidence(rows: seq<ScoreRow>): (xs: seq<real>)
    ensures |xs| == |rows| && forall i :: 0 <= i < |rows| ==> xs[i] == rows[i].confidence
  {
    seq(|rows|, i requires 0 <= i < |rows| => rows[i].confidence)
  }

  /** `summarize(group)` of a non-empty group: label shares in [0, 1] are the
      fractions of rows with each predicted label; each probability column and
      the confidence column has its mean (times the count, the column's sum);
      the sentiment total is the sum of the signed scores and the mean is that
      sum over the count. */
  function Summarize(group: seq<ScoreRow>): (s: Summary)
    requires |group| > 0
    ensures s.messages == |group|
    ensures 0.0 <= s.posShare <= 1.0 && 0.0 <= s.negShare <= 1.0 && 0.0 <= s.neuShare <= 1.0
    ensures s.posShare == CountLabel(group, "positive") as real / |group| as real
    ensures s.negShare == CountLabel(group, "negative") as real / |group| as real
    ensures s.neuShare == CountLabel(group, "neutral") as real / |group| as real
    ensures s.sentimentTotal == Sum(Signed(group))
    ensures s.sentimentMean == s.sentimentTotal / |group| as real
    ensures IsMean(s.probPosMean, ProbPositive(group)) && IsMean(s.probNegMean, ProbNegative(group))
    ensures IsMean(s.probNeuMean, ProbNeutral(group)) && IsMean(s.confidenceMean, Confidence(group))
  {
    Summary(
      |group|,
      Share(CountLabel(group, "positive"), |group|),
      Share(CountLabel(group, "negative"), |group|),
      Share(CountLabel(group, "neutral"), |group|),
      Mean(ProbPositive(group)),
      Mean(ProbNegative(group)),
      Mean(ProbNeutral(group)),
      Mean(Signed(group)),
      Sum(Signed(group)),
      Mean(Confidence(group)))
  }

  /** `(group["pred_label"] == label).mean()`: a fraction of the group. */
  function Share(count: nat, n: nat): (s: real)
    requires 0 < n && count <= n
    ensures 0.0 <= s <= 1.0
    ensures s == count as real / n as real
  {
    count as real / n as real
  }

  predicate KnownLabels(group: seq<ScoreRow>) {
    forall i :: 0 <= i < |group| ==> group[i].predLabel in {"positive", "negative", "neutral"}
  }

  lemma {:induction false} LabelCountsPartition(group: seq<ScoreRow>)
    requires KnownLabels(group)
    ensures CountLabel(group, "positive") + CountLabel(group, "negative") + CountLabel(group, "neutral") == |group|
  {
    if group != [] {
      LabelCountsPartition(group[1..]);
    }
  }

  lemma SplitFraction(a: real, b: real, c: real, n: real)
    requires n > 0.0 && a + b + c == n
    ensures a / n + b / n + c / n == 1.0
  {
    assert a / n + b / n + c / n == (a + b + c) / n;
  }

  /** When every predicted label is one of the three classes the shares add
      up to 1. */
  lemma SharesSumToOne(group: seq<ScoreRow>)
    requires |group| > 0 && KnownLabels(group)
    ensures var s := Summarize(group); s.posShare + s.negShare + s.neuShare == 1.0
  {
    var n := |group| as real;
    var a := CountLabel(group, "positive") as real;
    var b := CountLabel(group, "negative") as real;
    var c := CountLabel(group, "neutral") as real;
    LabelCountsPartition(group);
    SplitFraction(a, b, c, n);
  }

  /** Each mean lies between the smallest and largest value of its column. */
  lemma MeansWithinRange(group: seq<ScoreRow>, lo: real, hi: real)
    requires |group| > 0
    requires forall i :: 0 <= i < |group| ==>
               && lo <= group[i].probPositive <= hi && lo <= group[i].probNegative <= hi
               && lo <= group[i].probNeutral <= hi && lo <= group[i].confidence <= hi
    ensures var s := Summarize(group);
      && lo <= s.probPosMean <= hi && lo <= s.probNegMean <= hi
      && lo <= s.probNeuMean <= hi && lo <= s.confidenceMean <= hi
  {
    MeanBetween(ProbPositive(group), lo, hi);
    MeanBetween(ProbNegative(group), lo, hi);
    MeanBetween(ProbNeutral(group), lo, hi);
    MeanBetween(Confidence(group), lo, hi);
  }

  // ---------------------------------------------------------------------
  // groupby(SYMBOL_COL, dropna=False).apply(summarize)

  /** A scored message: its symbol cell (None when empty) and its row. */
  datatype Scored = Scored(symbol: Option<string>, row: ScoreRow)

  function PresentSymbols(records: seq<Scored>): (r: seq<string>)
    ensures forall s :: s in r <==> exists i :: 0 <= i < |records| && records[i].symbol == Some(s)
  {
    if records == [] then []
    else
      var rest := PresentSymbols(records[1..]);
      assert forall i :: 0 <= i < |records| - 1 ==> records[1..][i] == records[i + 1];
      if records[0].symbol.Some? then [records[0].symbol.value] + rest else rest
  }

  /** The group keys in pandas' order: the symbols ascending, then the
      missing symbol when some row has none. */
  function GroupKeys(records: seq<Scored>): (keys: seq<Option<string>>)
    ensures forall k :: k in keys <==> exists i :: 0 <= i < |records| && records[i].symbol == k
    ensures forall i, j :: 0 <= i < j < |keys| ==> keys[i] != keys[j]
  {
    var present := Text.SortedDistinct(PresentSymbols(records));
    var some := seq(|present|, i requires 0 <= i < |present| => Some(present[i]));
    forall i, j | 0 <= i < j < |some| ensures some[i] != some[j] {
      Text.StrictlySortedDistinct(present, i, j);
    }
    forall k ensures k in some <==> k.Some? && k.value in present {
      if k.Some? && k.value in present {
        var i :| 0 <= i < |present| && present[i] == k.value;
        assert some[i] == k;
      }
    }
    if exists i :: 0 <= i < |records| && records[i].symbol.None? then some + [None] else some
  }

  /** The rows of the records whose symbol cell is `key`. */
  function GroupOf(records: seq<Scored>, key: Option<string>): (g: seq<ScoreRow>)
    ensures (|g| > 0) <==> exists i :: 0 <= i < |records| && records[i].symbol == key
    ensures |g| <= |records|
  {
    if records == [] then []
    else
      var rest := GroupOf(records[1..], key);
      assert forall i :: 0 <= i < |records| - 1 ==> records[1..][i] == records[i + 1];
      if records[0].symbol == key then [records[0].row] + rest else rest
  }

  /** One summary per key, in the order of the keys. */
  function SummarizeKeys(records: seq<Scored>, keys: seq<Option<string>>): (table: seq<(Option<string>, Summary)>)
    requires forall k :: k in keys ==> exists i :: 0 <= i < |records| && records[i].symbol == k
    ensures |table| == |keys|
    ensures forall j :: 0 <= j < |keys| ==> table[j].0 == keys[j]
    ensures forall j :: 0 <= j < |keys| ==>
              (|GroupOf(records, keys[j])| > 0 && table[j].1 == Summarize(GroupOf(records, keys[j])))
  {
    forall j | 0 <= j < |keys| ensures |GroupOf(records, keys[j])| > 0 {
      assert keys[j] in keys;
    }
    seq(|keys|, j requires 0 <= j < |keys| =>
      assert keys[j] in keys;
      (keys[j], Summarize(GroupOf(records, keys[j]))))
  }

  /** The summary table: exactly one row per distinct symbol value, the
      missing symbol included, each summarising exactly that symbol's rows. */
  function SummaryBySymbol(records: seq<Scored>): (table: seq<(Option<string>, Summary)>)
    ensures forall i :: 0 <= i < |records| ==> exists j :: 0 <= j < |table| && table[j].0 == records[i].symbol
    ensures forall i, j :: 0 <= i < j < |table| ==> table[i].0 != table[j].0
    ensures forall j :: 0 <= j < |table| ==>
              (|GroupOf(records, table[j].0)| > 0 && table[j].1 == Summarize(GroupOf(records, table[j].0)))
  {
    var keys := GroupKeys(records);
    var table := SummarizeKeys(records, keys);
    forall i | 0 <= i < |records|
      ensures exists j :: 0 <= j < |table| && table[j].0 == records[i].symbol
    {
      assert records[i].symbol in keys;
      var j :| 0 <= j < |keys| && keys[j] == records[i].symbol;
      assert table[j].0 == records[i].symbol;
    }
    table
  }

  // ---------------------------------------------------------------------
  // Text columns

  /** Reddit's `combined_text`: the title and the body joined by one space,
      a missing cell read as "" (lines 32-35). */
  function CombinedText(title: Option<string>, text: Option<string>): (r: string)
    ensures |r| == |title.GetOr("")| + 1 + |text.GetOr("")|
    ensures r[..|title.GetOr("")|] == title.GetOr("")
    ensures r[|title.GetOr("")|] == ' '
    ensures r[|title.GetOr("")| + 1..] == text.GetOr("")
  {
    title.GetOr("") + " " + text.GetOr("")
  }

  /** Stocktwits' message column as written: `astype(str)` turns a missing
      cell into the text "nan" before `fillna("")` can see it. */
  function MessageTextAsWritten(cell: Option<string>): (r: string)
    ensures cell.Some? ==> r == cell.value
  {
    match cell
    case Some(s) => s
    case None => "nan"
  }

  /** The evidently intended message column: a missing cell is "". */
  function MessageText(cell: Option<string>): (r: string)
    ensures cell.None? ==> r == ""
    ensures cell.Some? ==> r == cell.value
  {
    cell.GetOr("")
  }

  /** A missing Stocktwits message is scored as the word "nan". */
  lemma MissingMessageBecomesNan()
    ensures MessageTextAsWritten(None) == "nan" != MessageText(None)
  {
  }

  /** The texts the Stocktwits analyzer scores: one per message, a missing
      message read as "", never as "nan". */
  function StocktwitsTexts(cells: seq<Option<string>>): (texts: seq<string>)
    ensures |texts| == |cells|
    ensures forall i :: 0 <= i < |cells| ==> texts[i] == MessageText(cells[i])
    ensures forall i :: 0 <= i < |cells| && cells[i].None? ==> texts[i] == ""
  {
    seq(|cells|, i requires 0 <= i < |cells| => MessageText(cells[i]))
  }
}
