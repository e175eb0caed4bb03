/** Candidate answer spans of the extractive question-answering model
    (`QuestionAnsweringModel.evaluate_async` and `_compute_metrics`): the model's start and end
    logits for each token, and each token's character offsets in the article, are inputs. */
module SpanExtraction {
  import opened Wrappers
  import PyStr

  /** The characters `[start, end)` of the context that a token covers; `None` for a token
      outside the context (question, special and padding tokens after masking). */
  type Offset = Option<(nat, nat)>

  /** One tokenized window of an article with the model's output for it. `startIndexes` and
      `endIndexes` are the `n_best` top-scoring token indices that `np.argsort` selected, as
      `TopIndexes` describes them; the properties below hold for any in-range index lists. */
  datatype Feature = Feature(
    startLogits: seq<real>,
    endLogits: seq<real>,
    offsets: seq<Offset>,
    startIndexes: seq<nat>,
    endIndexes: seq<nat>)

  /** What `np.argsort(logits)[-1 : -n - 1 : -1]` yields: the distinct indices of the `n` largest
      logits (all of them when there are fewer), highest logit first; no index left out has a
      larger logit than one taken. The order among equal logits is not specified. */
  ghost predicate TopIndexes(logits: seq<real>, n: nat, idx: seq<nat>)
  {
    && |idx| == (if |logits| < n then |logits| else n)
    && (forall k :: 0 <= k < |idx| ==> idx[k] < |logits|)
    && (forall j, k :: 0 <= j < k < |idx| ==> idx[j] != idx[k] && logits[idx[k]] <= logits[idx[j]])
    && (forall i, k :: 0 <= i < |logits| && 0 <= k < |idx| && i !in idx ==> logits[i] <= logits[idx[k]])
  }

  /** A candidate answer: a piece of the context and the sum of its two logits. */
  datatype Candidate = Candidate(text: string, score: real)

  /** The tokenizer gives one logit of each kind and one offset per token, and `argsort` yields
      token indices. */
  predicate WellFormed(f: Feature)
  {
    && |f.startLogits| == |f.offsets|
    && |f.endLogits| == |f.offsets|
    && (forall i :: 0 <= i < |f.startIndexes| ==> f.startIndexes[i] < |f.offsets|)
    && (forall j :: 0 <= j < |f.endIndexes| ==> f.endIndexes[j] < |f.offsets|)
  }

  /** What the source demands of an emitted span: both offsets present, the end token not
      before the start token, the text is the context between the two offsets and no longer
      than `maxLen`, and the score is the sum of the start and end logits. */
  ghost predicate IsSpan(context: string, f: Feature, s: nat, e: nat, maxLen: nat, c: Candidate)
  {
    && s < |f.offsets| && e < |f.offsets| && s < |f.startLogits| && e < |f.endLogits|
    && f.offsets[s].Some?
    && f.offsets[e].Some?
    && s <= e
    && c.text == PyStr.Slice(context, f.offsets[s].value.0, f.offsets[e].value.1)
    && |c.text| <= maxLen
    && c.score == f.startLogits[s] + f.endLogits[e]
  }

  /** The checks of one (start, end) pair of the double loop (an index outside the feature,
      which `argsort` never yields, gives no candidate). */
  function PairCandidate(context: string, f: Feature, s: nat, e: nat, maxLen: nat): (r: Option<Candidate>)
    ensures forall c :: r == Some(c) <==> IsSpan(context, f, s, e, maxLen, c)
  {
    if !(s < |f.offsets| && e < |f.offsets| && s < |f.startLogits| && e < |f.endLogits|) then None
    else if f.offsets[s].None? || f.offsets[e].None? then None
    else if e < s then None
    else
      var text := PyStr.Slice(context, f.offsets[s].value.0, f.offsets[e].value.1);
      if |text| > maxLen then None
      else Some(Candidate(text, f.startLogits[s] + f.endLogits[e]))
  }

  function OptionToSeq<T>(o: Option<T>): seq<T>
  {
    if o.Some? then [o.value] else []
  }

  /** The candidates of start index `s` against the end indexes `ends`, in order. */
  function RowCandidates(context: string, f: Feature, s: nat, ends: seq<nat>, maxLen: nat): seq<Candidate>
  {
    if ends == [] then []
    else
      RowCandidates(context, f, s, ends[..|ends| - 1], maxLen)
      + OptionToSeq(PairCandidate(context, f, s, ends[|ends| - 1], maxLen))
  }

  /** The candidates of the start indexes `starts` against all end indexes of `f`. */
  function GridCandidates(context: string, f: Feature, starts: seq<nat>, maxLen: nat): seq<Candidate>
  {
    if starts == [] then []
    else
      GridCandidates(context, f, starts[..|starts| - 1], maxLen)
      + RowCandidates(context, f, starts[|starts| - 1], f.endIndexes, maxLen)
  }

  /** All candidates of one article, feature after feature: the `answers` list. */
  function Candidates(context: string, features: seq<Feature>, maxLen: nat): seq<Candidate>
  {
    if features == [] then []
    else
      var f := features[|features| - 1];
      Candidates(context, features[..|features| - 1], maxLen)
      + GridCandidates(context, f, f.startIndexes, maxLen)
  }

  /** Lines 448-472 (and 326-350): every start index is paired with every end index, feature
      after feature, and each pair that passes the checks appends one candidate. */
  method CollectCandidates(context: string, features: seq<Feature>, maxLen: nat)
    returns (answers: seq<Candidate>)
    requires forall k :: 0 <= k < |features| ==> WellFormed(features[k])
    ensures answers == Candidates(context, features, maxLen)
    ensures forall c :: c in answers <==> IsCandidateOf(context, features, maxLen, c)
  {
    answers := [];
    for k := 0 to |features|
      invariant answers == Candidates(context, features[..k], maxLen)
    {
      var more := CollectFeature(context, features[k], maxLen);
      answers := answers + more;
      assert features[..k + 1][..k] == features[..k];
    }
    assert features[..|features|] == features;
    CandidatesAreExactlySpans(context, features, maxLen);
  }

  /** The two inner loops, over the start and end indexes of one feature. */
  method CollectFeature(context: string, f: Feature, maxLen: nat) returns (answers: seq<Candidate>)
    requires WellFormed(f)
    ensures answers == GridCandidates(context, f, f.startIndexes, maxLen)
  {
    answers := [];
    for i := 0 to |f.startIndexes|
      invariant answers == GridCandidates(context, f, f.startIndexes[..i], maxLen)
    {
      var row := CollectRow(context, f, f.startIndexes[i], maxLen);
      answers := answers + row;
      assert f.startIndexes[..i + 1][..i] == f.startIndexes[..i];
    }
    assert f.startIndexes[..|f.startIndexes|] == f.startIndexes;
  }

  /** The innermost loop: one start index against every end index. */
  method CollectRow(context: string, f: Feature, s: nat, maxLen: nat) returns (row: seq<Candidate>)
    requires WellFormed(f) && s < |f.offsets|
    ensures row == RowCandidates(context, f, s, f.endIndexes, maxLen)
  {
    row := [];
    for j := 0 to |f.endIndexes|
      invariant row == RowCandidates(context, f, s, f.endIndexes[..j], maxLen)
    {
      var found := PairCandidate(context, f, s, f.endIndexes[j], maxLen);
      if found.Some? {
        row := row + [found.value];
      }
      assert f.endIndexes[..j + 1][..j] == f.endIndexes[..j];
    }
    assert f.endIndexes[..|f.endIndexes|] == f.endIndexes;
  }

  /** `c` is the candidate of start index `s` and one of the end indexes `ends`. */
  ghost predicate InRow(context: string, f: Feature, s: nat, ends: seq<nat>, maxLen: nat, c: Candidate)
  {
    exists j :: 0 <= j < |ends| && IsSpan(context, f, s, ends[j], maxLen, c)
  }

  /** `c` is the candidate of one of the start indexes `starts` and an end index of `f`. */
  ghost predicate InGrid(context: string, f: Feature, starts: seq<nat>, maxLen: nat, c: Candidate)
  {
    exists i :: 0 <= i < |starts| && InRow(context, f, starts[i], f.endIndexes, maxLen, c)
  }

  /** `c` is the candidate of some (start, end) pair of some feature. */
  ghost predicate IsCandidateOf(context: string, features: seq<Feature>, maxLen: nat, c: Candidate)
  {
    exists k :: 0 <= k < |features| && InGrid(context, features[k], features[k].startIndexes, maxLen, c)
  }

  lemma {:induction false} RowCandidateIsSpan(context: string, f: Feature, s: nat, ends: seq<nat>, maxLen: nat, c: Candidate)
    requires c in RowCandidates(context, f, s, ends, maxLen)
    ensures InRow(context, f, s, ends, maxLen, c)
  {
    var init := ends[..|ends| - 1];
    var last := ends[|ends| - 1];
    var pick := PairCandidate(context, f, s, last, maxLen);
    assert RowCandidates(context, f, s, ends, maxLen) == RowCandidates(context, f, s, init, maxLen) + OptionToSeq(pick);
    if c in RowCandidates(context, f, s, init, maxLen) {
      RowCandidateIsSpan(context, f, s, init, maxLen, c);
      var j :| 0 <= j < |init| && IsSpan(context, f, s, init[j], maxLen, c);
      assert ends[j] == init[j];
    } else {
      assert pick == Some(c);
      assert IsSpan(context, f, s, ends[|ends| - 1], maxLen, c);
    }
  }

  lemma {:induction false} SpanIsRowCandidate(context: string, f: Feature, s: nat, ends: seq<nat>, maxLen: nat, c: Candidate, j: nat)
    requires j < |ends| && IsSpan(context, f, s, ends[j], maxLen, c)
    ensures c in RowCandidates(context, f, s, ends, maxLen)
  {
    var init := ends[..|ends| - 1];
    var last := ends[|ends| - 1];
    var pick := PairCandidate(context, f, s, last, maxLen);
    assert RowCandidates(context, f, s, ends, maxLen) == RowCandidates(context, f, s, init, maxLen) + OptionToSeq(pick);
    if j < |init| {
      assert init[j] == ends[j];
      SpanIsRowCandidate(context, f, s, init, maxLen, c, j);
    } else {
      assert pick == Some(c);
    }
  }

  lemma RowCandidatesAreSpans(context: string, f: Feature, s: nat, ends: seq<nat>, maxLen: nat, c: Candidate)
    ensures c in RowCandidates(context, f, s, ends, maxLen) <==> InRow(context, f, s, ends, maxLen, c)
  {
    if c in RowCandidates(context, f, s, ends, maxLen) {
      RowCandidateIsSpan(context, f, s, ends, maxLen, c);
    }
    if InRow(context, f, s, ends, maxLen, c) {
      var j :| 0 <= j < |ends| && IsSpan(context, f, s, ends[j], maxLen, c);
      SpanIsRowCandidate(context, f, s, ends, maxLen, c, j);
    }
  }

  lemma {:induction false} GridCandidateIsSpan(context: string, f: Feature, starts: seq<nat>, maxLen: nat, c: Candidate)
    requires c in GridCandidates(context, f, starts, maxLen)
    ensures InGrid(context, f, starts, maxLen, c)
  {
    var init := starts[..|starts| - 1];
    var last := starts[|starts| - 1];
    assert GridCandidates(context, f, starts, maxLen)
        == GridCandidates(context, f, init, maxLen) + RowCandidates(context, f, last, f.endIndexes, maxLen);
    if c in GridCandidates(context, f, init, maxLen) {
      GridCandidateIsSpan(context, f, init, maxLen, c);
      var i :| 0 <= i < |init| && InRow(context, f, init[i], f.endIndexes, maxLen, c);
      assert starts[i] == init[i];
    } else {
      RowCandidatesAreSpans(context, f, last, f.endIndexes, maxLen, c);
      assert InRow(context, f, starts[|starts| - 1], f.endIndexes, maxLen, c);
    }
  }

  lemma {:induction false} SpanIsGridCandidate(context: string, f: Feature, starts: seq<nat>, maxLen: nat, c: Candidate, i: nat)
    requires i < |starts| && InRow(context, f, starts[i], f.endIndexes, maxLen, c)
    ensures c in GridCandidates(context, f, starts, maxLen)
    decreases |starts|
  {
    var init := starts[..|starts| - 1];
    var last := starts[|starts| - 1];
    var front := GridCandidates(context, f, init, maxLen);
    var row := RowCandidates(context, f, last, f.endIndexes, maxLen);
    assert GridCandidates(context, f, starts, maxLen) == front + row;
    if i < |init| {
      assert init[i] == starts[i];
      SpanIsGridCandidate(context, f, init, maxLen, c, i);
      InAppend(front, row, c);
    } else {
      RowCandidatesAreSpans(context, f, last, f.endIndexes, maxLen, c);
      InAppend(front, row, c);
    }
  }

  lemma InAppend<T>(a: seq<T>, b: seq<T>, x: T)
    ensures x in a + b <==> x in a || x in b
  {
  }

  lemma GridCandidatesAreSpans(context: string, f: Feature, starts: seq<nat>, maxLen: nat, c: Candidate)
    ensures c in GridCandidates(context, f, starts, maxLen) <==> InGrid(context, f, starts, maxLen, c)
  {
    if c in GridCandidates(context, f, starts, maxLen) {
      GridCandidateIsSpan(context, f, starts, maxLen, c);
    }
    if InGrid(context, f, starts, maxLen, c) {
      var i :| 0 <= i < |starts| && InRow(context, f, starts[i], f.endIndexes, maxLen, c);
      SpanIsGridCandidate(context, f, starts, maxLen, c, i);
    }
  }

  lemma {:induction false} CandidateIsSpanOf(context: string, features: seq<Feature>, maxLen: nat, c: Candidate)
    requires c in Candidates(context, features, maxLen)
    ensures IsCandidateOf(context, features, maxLen, c)
  {
    var init := features[..|features| - 1];
    var f := features[|features| - 1];
    assert Candidates(context, features, maxLen)
        == Candidates(context, init, maxLen) + GridCandidates(context, f, f.startIndexes, maxLen);
    if c in Candidates(context, init, maxLen) {
      CandidateIsSpanOf(context, init, maxLen, c);
      var k :| 0 <= k < |init| && InGrid(context, init[k], init[k].startIndexes, maxLen, c);
      assert features[k] == init[k];
    } else {
      GridCandidatesAreSpans(context, f, f.startIndexes, maxLen, c);
      assert InGrid(context, features[|features| - 1], features[|features| - 1].startIndexes, maxLen, c);
    }
  }

  lemma {:induction false} SpanIsCandidateOf(context: string, features: seq<Feature>, maxLen: nat, c: Candidate, k: nat)
    requires k < |features| && InGrid(context, features[k], features[k].startIndexes, maxLen, c)
    ensures c in Candidates(context, features, maxLen)
    decreases |features|
  {
    var init := features[..|features| - 1];
    var f := features[|features| - 1];
    var front := Candidates(context, init, maxLen);
    var grid := GridCandidates(context, f, f.startIndexes, maxLen);
    assert Candidates(context, features, maxLen) == front + grid;
    if k < |init| {
      assert init[k] == features[k];
      SpanIsCandidateOf(context, init, maxLen, c, k);
    } else {
      assert features[k] == f;
      GridCandidatesAreSpans(context, f, f.startIndexes, maxLen, c);
    }
    InAppend(front, grid, c);
  }

  /** Span validity and completeness: the candidates of an article are exactly the candidates
      of the (start, end) index pairs that pass every check. */
  lemma CandidatesAreExactlySpans(context: string, features: seq<Feature>, maxLen: nat)
    ensures forall c :: c in Candidates(context, features, maxLen) <==> IsCandidateOf(context, features, maxLen, c)
  {
    forall c
      ensures c in Candidates(context, features, maxLen) <==> IsCandidateOf(context, features, maxLen, c)
    {
      if c in Candidates(context, features, maxLen) {
        CandidateIsSpanOf(context, features, maxLen, c);
      }
      if IsCandidateOf(context, features, maxLen, c) {
        var k :| 0 <= k < |features| && InGrid(context, features[k], features[k].startIndexes, maxLen, c);
        SpanIsCandidateOf(context, features, maxLen, c, k);
      }
    }
  }

  /** Lines 231-235 and 412-416: the offset of a token whose sequence id is not 1 (a token that
      does not belong to the context) becomes `None`. */
  function MaskOffsets(sequenceIds: seq<Option<nat>>, offsets: seq<(nat, nat)>): (r: seq<Offset>)
    requires |sequenceIds| == |offsets|
    ensures |r| == |offsets|
    ensures forall k :: 0 <= k < |r| ==> (r[k].Some? <==> sequenceIds[k] == Some(1))
    ensures forall k :: 0 <= k < |r| && r[k].Some? ==> r[k].value == offsets[k]
  {
    seq(|offsets|, k requires 0 <= k < |offsets| => if sequenceIds[k] == Some(1) then Some(offsets[k]) else None)
  }

  /** After masking, a span starts and ends on context tokens, and its text is the context
      between the tokenizer's own offsets of those two tokens. */
  lemma MaskedSpanLiesInContext(context: string, f: Feature, sequenceIds: seq<Option<nat>>,
                                raw: seq<(nat, nat)>, s: nat, e: nat, maxLen: nat, c: Candidate)
    requires |sequenceIds| == |raw| && f.offsets == MaskOffsets(sequenceIds, raw)
    requires IsSpan(context, f, s, e, maxLen, c)
    ensures sequenceIds[s] == Some(1) && sequenceIds[e] == Some(1)
    ensures c.text == PyStr.Slice(context, raw[s].0, raw[e].1)
  {
  }

  /** Lines 352-359: the prediction is the text of the first candidate with the highest score,
      or the empty string when there is no candidate. */
  method BestAnswer(answers: seq<Candidate>) returns (prediction: string)
    ensures answers == [] ==> prediction == ""
    ensures answers != [] ==> exists b :: 0 <= b < |answers| && IsFirstBest(answers, b) && prediction == answers[b].text
  {
    if |answers| == 0 {
      return "";
    }
    var best := 0;
    for k := 1 to |answers|
      invariant 0 <= best < k
      invariant forall j :: 0 <= j < k ==> answers[j].score <= answers[best].score
      invariant forall j :: 0 <= j < best ==> answers[j].score < answers[best].score
    {
      if answers[k].score > answers[best].score {
        best := k;
      }
    }
    prediction := answers[best].text;
  }

  /** `answers[b]` has the highest score, and every earlier candidate a strictly lower one (as
      Python's `max` returns the first maximal element). */
  ghost predicate IsFirstBest(answers: seq<Candidate>, b: nat)
    requires b < |answers|
  {
    && (forall j :: 0 <= j < |answers| ==> answers[j].score <= answers[b].score)
    && (forall j :: 0 <= j < b ==> answers[j].score < answers[b].score)
  }
}
