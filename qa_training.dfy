/** Preprocessing of the training data in `train_async`: one training entry per answer
    (lines 96-121) and the token labels of an answer inside a tokenized window (lines 175-205). */
module Training {
  import opened Wrappers

  // ---------------------------------------------------------------------------------------
  // Token labels (lines 183-205)
  // ---------------------------------------------------------------------------------------

  /** The context window (first and last token of the first run of sequence id 1) and the
      labelled start and end token of the answer. */
  datatype TrainingLabels = TrainingLabels(contextStart: nat, contextEnd: nat, startPosition: nat, endPosition: nat)

  /** `cs..ce` is the first run of tokens whose sequence id is 1, and a token follows it. */
  ghost predicate IsContextWindow(sequenceIds: seq<Option<nat>>, cs: nat, ce: nat)
  {
    && cs <= ce && ce + 1 < |sequenceIds|
    && (forall k :: 0 <= k < cs ==> sequenceIds[k] != Some(1))
    && (forall k :: cs <= k <= ce ==> sequenceIds[k] == Some(1))
    && sequenceIds[ce + 1] != Some(1)
  }

  /** Python raises `IndexError` when the scans at lines 184-189 run off the end: when there is
      no token of the context, or the context runs to the last token. */
  ghost predicate ScanFails(sequenceIds: seq<Option<nat>>)
  {
    forall k :: 0 <= k < |sequenceIds| && sequenceIds[k] == Some(1) ==>
      forall j :: k <= j < |sequenceIds| ==> sequenceIds[j] == Some(1)
  }

  /** The labels of one tokenized window, for the answer at characters `startChar..endChar`. */
  method LabelAnswer(sequenceIds: seq<Option<nat>>, offsets: seq<(nat, nat)>, startChar: nat, endChar: nat)
    returns (r: Result<TrainingLabels>)
    requires |offsets| == |sequenceIds|
    ensures r.Failure? <==> ScanFails(sequenceIds)
    ensures r.Success? ==> IsContextWindow(sequenceIds, r.value.contextStart, r.value.contextEnd)
    ensures r.Success? ==> Labelled(offsets, startChar, endChar, r.value)
  {
    var idx := 0;
    while idx < |sequenceIds| && sequenceIds[idx] != Some(1)
      invariant 0 <= idx <= |sequenceIds|
      invariant forall k :: 0 <= k < idx ==> sequenceIds[k] != Some(1)
    {
      idx := idx + 1;
    }
    if idx == |sequenceIds| {
      return Failure(IndexOutOfRange);
    }
    var contextStart := idx;
    while idx < |sequenceIds| && sequenceIds[idx] == Some(1)
      invariant contextStart <= idx <= |sequenceIds|
      invariant forall k :: contextStart <= k < idx ==> sequenceIds[k] == Some(1)
    {
      idx := idx + 1;
    }
    if idx == |sequenceIds| {
      assert ScanFails(sequenceIds);
      return Failure(IndexOutOfRange);
    }
    var contextEnd := idx - 1;
    assert !ScanFails(sequenceIds) by {
      assert sequenceIds[contextStart] == Some(1) && sequenceIds[idx] != Some(1);
    }
    if offsets[contextStart].0 > startChar || offsets[contextEnd].1 < endChar {
      return Success(TrainingLabels(contextStart, contextEnd, 0, 0));
    }
    idx := contextStart;
    while idx <= contextEnd && offsets[idx].0 <= startChar
      invariant contextStart <= idx <= contextEnd + 1
      invariant forall k :: contextStart <= k < idx ==> offsets[k].0 <= startChar
    {
      idx := idx + 1;
    }
    var startPosition := idx - 1;
    var j: int := contextEnd;
    while j >= contextStart && offsets[j].1 >= endChar
      invariant contextStart - 1 <= j <= contextEnd
      invariant forall k :: j < k <= contextEnd ==> offsets[k].1 >= endChar
    {
      j := j - 1;
    }
    var endPosition := j + 1;
    r := Success(TrainingLabels(contextStart, contextEnd, startPosition, endPosition));
  }

  /** Lines 192-205: an answer outside the window is labelled (0, 0); otherwise the start is the
      last token of the window, scanning forward, that starts at or before `startChar`, and the
      end the first token, scanning backward, that ends at or after `endChar`. */
  ghost predicate Labelled(offsets: seq<(nat, nat)>, startChar: nat, endChar: nat, l: TrainingLabels)
  {
    var cs := l.contextStart;
    var ce := l.contextEnd;
    cs <= ce < |offsets|
    && if offsets[cs].0 > startChar || offsets[ce].1 < endChar then
         l.startPosition == 0 && l.endPosition == 0
       else
         && cs <= l.startPosition <= ce
         && (forall k :: cs <= k <= l.startPosition ==> offsets[k].0 <= startChar)
         && (l.startPosition == ce || offsets[l.startPosition + 1].0 > startChar)
         && cs <= l.endPosition <= ce
         && (forall k :: l.endPosition <= k <= ce ==> offsets[k].1 >= endChar)
         && (l.endPosition == cs || offsets[l.endPosition - 1].1 < endChar)
  }

  /** The context window, when there is one, is determined by the sequence ids. */
  lemma ContextWindowIsUnique(sequenceIds: seq<Option<nat>>, cs: nat, ce: nat, cs': nat, ce': nat)
    requires IsContextWindow(sequenceIds, cs, ce) && IsContextWindow(sequenceIds, cs', ce')
    ensures cs == cs' && ce == ce'
  {
    assert sequenceIds[cs] == Some(1) && sequenceIds[cs'] == Some(1);
    assert sequenceIds[ce + 1] != Some(1) && sequenceIds[ce' + 1] != Some(1);
  }

  // ---------------------------------------------------------------------------------------
  // Flattening (lines 96-121)
  // ---------------------------------------------------------------------------------------

  datatype Answer = Answer(text: string, answerStart: int)
  datatype SquadQA = SquadQA(id: string, question: string, answers: seq<Answer>, isImpossible: bool)
  datatype Paragraph = Paragraph(context: string, qas: seq<SquadQA>)
  datatype SquadEntry = SquadEntry(title: string, paragraphs: seq<Paragraph>)

  function Digit(d: nat): char
    requires d < 10
  {
    "0123456789"[d]
  }

  /** `f"{n}"`: the decimal digits of `n`. */
  function NatToString(n: nat): (s: string)
    ensures |s| >= 1
    ensures n < 10 <==> |s| == 1
  {
    if n < 10 then [Digit(n)] else NatToString(n / 10) + [Digit(n % 10)]
  }

  lemma {:induction false} NatToStringInjective(a: nat, b: nat)
    requires NatToString(a) == NatToString(b)
    ensures a == b
  {
    if a >= 10 && b >= 10 {
      var sa := NatToString(a);
      assert sa[..|sa| - 1] == NatToString(a / 10);
      assert NatToString(b)[..|sa| - 1] == NatToString(b / 10);
      NatToStringInjective(a / 10, b / 10);
      assert Digit(a % 10) == Digit(b % 10);
    }
  }

  /** The training entry built for answer `idx` of `qa` (lines 106-118). */
  function SingleAnswerEntry(title: string, context: string, qa: SquadQA, idx: nat): SquadEntry
    requires idx < |qa.answers|
  {
    var newQA := SquadQA(qa.id + "-" + NatToString(idx), qa.question, [qa.answers[idx]], qa.isImpossible);
    SquadEntry(title, [Paragraph(context, [newQA])])
  }

  /** The entries of the first `n` answers of `qa`: one per answer, in order. */
  function FlattenQA(title: string, context: string, qa: SquadQA, n: nat): seq<SquadEntry>
    requires n <= |qa.answers|
  {
    if n == 0 then [] else FlattenQA(title, context, qa, n - 1) + [SingleAnswerEntry(title, context, qa, n - 1)]
  }

  lemma {:induction false} FlattenQAIsAnswers(title: string, context: string, qa: SquadQA, n: nat)
    requires n <= |qa.answers|
    ensures |FlattenQA(title, context, qa, n)| == n
    ensures forall k :: 0 <= k < n ==> FlattenQA(title, context, qa, n)[k] == SingleAnswerEntry(title, context, qa, k)
  {
    if n > 0 {
      FlattenQAIsAnswers(title, context, qa, n - 1);
    }
  }

  function FlattenParagraph(title: string, p: Paragraph, n: nat): seq<SquadEntry>
    requires n <= |p.qas|
  {
    if n == 0 then []
    else FlattenParagraph(title, p, n - 1) + FlattenQA(title, p.context, p.qas[n - 1], |p.qas[n - 1].answers|)
  }

  function FlattenEntry(e: SquadEntry, n: nat): seq<SquadEntry>
    requires n <= |e.paragraphs|
  {
    if n == 0 then []
    else FlattenEntry(e, n - 1) + FlattenParagraph(e.title, e.paragraphs[n - 1], |e.paragraphs[n - 1].qas|)
  }

  /** The flattened training data: the entries of every answer, in input order. */
  function FlattenSpec(entries: seq<SquadEntry>): seq<SquadEntry>
  {
    if entries == [] then []
    else
      var e := entries[|entries| - 1];
      FlattenSpec(entries[..|entries| - 1]) + FlattenEntry(e, |e.paragraphs|)
  }

  /** Lines 96-121: the four nested loops appending one entry per answer; the inner loops are
      `AppendEntry` (over the paragraphs of an entry) and `AppendParagraph` (over the questions
      of a paragraph and their answers). */
  method Flatten(entries: seq<SquadEntry>) returns (trainData: seq<SquadEntry>)
    ensures trainData == FlattenSpec(entries)
  {
    trainData := [];
    for i := 0 to |entries|
      invariant trainData == FlattenSpec(entries[..i])
    {
      trainData := AppendEntry(trainData, entries[i]);
      assert entries[..i + 1][..i] == entries[..i];
    }
    assert entries[..|entries|] == entries;
  }

  /** Lines 98-121 for one entry: the entries of all its answers are appended. */
  method AppendEntry(trainData: seq<SquadEntry>, entry: SquadEntry) returns (trainData': seq<SquadEntry>)
    ensures trainData' == trainData + FlattenEntry(entry, |entry.paragraphs|)
  {
    trainData' := trainData;
    for pi := 0 to |entry.paragraphs|
      invariant trainData' == trainData + FlattenEntry(entry, pi)
    {
      ghost var done := FlattenEntry(entry, pi);
      ghost var added := FlattenParagraph(entry.title, entry.paragraphs[pi], |entry.paragraphs[pi].qas|);
      trainData' := AppendParagraph(trainData', entry.title, entry.paragraphs[pi]);
      assert FlattenEntry(entry, pi + 1) == done + added;
      assert trainData' == trainData + (done + added);
    }
  }

  /** Lines 100-121 for one paragraph: the entries of its questions' answers are appended. */
  method AppendParagraph(trainData: seq<SquadEntry>, title: string, para: Paragraph)
    returns (trainData': seq<SquadEntry>)
    ensures trainData' == trainData + FlattenParagraph(title, para, |para.qas|)
  {
    trainData' := trainData;
    for qi := 0 to |para.qas|
      invariant trainData' == trainData + FlattenParagraph(title, para, qi)
    {
      var qa := para.qas[qi];
      ghost var beforeQA := trainData';
      ghost var done := FlattenParagraph(title, para, qi);
      for idx := 0 to |qa.answers|
        invariant trainData' == beforeQA + FlattenQA(title, para.context, qa, idx)
      {
        var newQA := SquadQA(qa.id + "-" + NatToString(idx), qa.question, [qa.answers[idx]], qa.isImpossible);
        var newEntry := SquadEntry(title, [Paragraph(para.context, [newQA])]);
        ghost var prefix := FlattenQA(title, para.context, qa, idx);
        assert FlattenQA(title, para.context, qa, idx + 1) == prefix + [newEntry];
        trainData' := trainData' + [newEntry];
        assert trainData' == beforeQA + (prefix + [newEntry]);
      }
      ghost var added := FlattenQA(title, para.context, qa, |qa.answers|);
      assert FlattenParagraph(title, para, qi + 1) == done + added;
      assert trainData' == trainData + (done + added);
    }
  }

  function AnswerCount(qas: seq<SquadQA>): nat
  {
    if qas == [] then 0 else AnswerCount(qas[..|qas| - 1]) + |qas[|qas| - 1].answers|
  }

  function ParagraphAnswerCount(ps: seq<Paragraph>): nat
  {
    if ps == [] then 0 else ParagraphAnswerCount(ps[..|ps| - 1]) + AnswerCount(ps[|ps| - 1].qas)
  }

  /** The number of answers in the raw training data. */
  function TotalAnswers(entries: seq<SquadEntry>): nat
  {
    if entries == [] then 0
    else TotalAnswers(entries[..|entries| - 1]) + ParagraphAnswerCount(entries[|entries| - 1].paragraphs)
  }

  lemma {:induction false} FlattenParagraphLength(title: string, p: Paragraph, n: nat)
    requires n <= |p.qas|
    ensures |FlattenParagraph(title, p, n)| == AnswerCount(p.qas[..n])
  {
    if n > 0 {
      FlattenParagraphLength(title, p, n - 1);
      FlattenQAIsAnswers(title, p.context, p.qas[n - 1], |p.qas[n - 1].answers|);
      assert p.qas[..n][..n - 1] == p.qas[..n - 1];
    }
  }

  lemma {:induction false} FlattenEntryLength(e: SquadEntry, n: nat)
    requires n <= |e.paragraphs|
    ensures |FlattenEntry(e, n)| == ParagraphAnswerCount(e.paragraphs[..n])
  {
    if n > 0 {
      var p := e.paragraphs[n - 1];
      FlattenEntryLength(e, n - 1);
      FlattenParagraphLength(e.title, p, |p.qas|);
      assert p.qas[..|p.qas|] == p.qas;
      assert e.paragraphs[..n][..n - 1] == e.paragraphs[..n - 1];
    }
  }

  /** Flattening produces exactly one training entry per answer. */
  lemma {:induction false} FlattenLength(entries: seq<SquadEntry>)
    ensures |FlattenSpec(entries)| == TotalAnswers(entries)
  {
    if entries != [] {
      var e := entries[|entries| - 1];
      FlattenLength(entries[..|entries| - 1]);
      FlattenEntryLength(e, |e.paragraphs|);
      assert e.paragraphs[..|e.paragraphs|] == e.paragraphs;
    }
  }

  /** The entry built for one answer holds that answer alone, with the question, context and
      title copied and the id suffixed with the answer's index. */
  lemma SingleAnswerEntryFacts(title: string, context: string, qa: SquadQA, k: nat)
    requires k < |qa.answers|
    ensures var x := SingleAnswerEntry(title, context, qa, k);
            && x.title == title
            && |x.paragraphs| == 1 && x.paragraphs[0].context == context
            && |x.paragraphs[0].qas| == 1
            && x.paragraphs[0].qas[0].id == qa.id + "-" + NatToString(k)
            && x.paragraphs[0].qas[0].question == qa.question
            && x.paragraphs[0].qas[0].answers == [qa.answers[k]]
  {
  }

  /** The ids given to the answers of one question are pairwise distinct. */
  lemma SingleAnswerIdsDistinct(qa: SquadQA, k1: nat, k2: nat)
    requires k1 != k2
    ensures qa.id + "-" + NatToString(k1) != qa.id + "-" + NatToString(k2)
  {
    var p := qa.id + "-";
    if NatToString(k1) != NatToString(k2) {
      assert (p + NatToString(k1))[|p|..] == NatToString(k1);
      assert (p + NatToString(k2))[|p|..] == NatToString(k2);
    } else {
      NatToStringInjective(k1, k2);
    }
  }

  /** A training entry with one paragraph, holding one question with one answer. */
  predicate HoldsOneAnswer(x: SquadEntry)
  {
    |x.paragraphs| == 1 && |x.paragraphs[0].qas| == 1 && |x.paragraphs[0].qas[0].answers| == 1
  }

  lemma {:induction false} FlattenParagraphHoldsOneAnswer(title: string, p: Paragraph, n: nat)
    requires n <= |p.qas|
    ensures forall x :: x in FlattenParagraph(title, p, n) ==> HoldsOneAnswer(x)
  {
    if n > 0 {
      FlattenParagraphHoldsOneAnswer(title, p, n - 1);
      var qa := p.qas[n - 1];
      FlattenQAIsAnswers(title, p.context, qa, |qa.answers|);
    }
  }

  lemma {:induction false} FlattenEntryHoldsOneAnswer(e: SquadEntry, n: nat)
    requires n <= |e.paragraphs|
    ensures forall x :: x in FlattenEntry(e, n) ==> HoldsOneAnswer(x)
  {
    if n > 0 {
      FlattenEntryHoldsOneAnswer(e, n - 1);
      FlattenParagraphHoldsOneAnswer(e.title, e.paragraphs[n - 1], |e.paragraphs[n - 1].qas|);
    }
  }

  /** Every flattened training entry holds exactly one question with exactly one answer. */
  lemma {:induction false} FlattenHoldsOneAnswer(entries: seq<SquadEntry>)
    ensures forall x :: x in FlattenSpec(entries) ==> HoldsOneAnswer(x)
  {
    if entries != [] {
      var e := entries[|entries| - 1];
      FlattenHoldsOneAnswer(entries[..|entries| - 1]);
      FlattenEntryHoldsOneAnswer(e, |e.paragraphs|);
    }
  }
}
