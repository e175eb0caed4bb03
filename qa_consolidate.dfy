/** The consolidation at the end of `evaluate_async` (lines 494-526): a relative score threshold,
    a stable sort by score, and the removal of answers contained in a better-scoring one. */
module Consolidation {
  import opened Aggregation
  import StableSort
  import PyStr

  /** Line 499: an answer must reach 60% of the best score to be kept. */
  function Threshold(maxValue: real): real
  {
    maxValue * 0.6
  }

  /** `max(val['score'] for val in predicted_answers.values())`. */
  function MaxScore(t: seq<Entry>): (m: real)
    requires |t| > 0
    ensures exists i :: 0 <= i < |t| && t[i].1.score == m
    ensures forall i :: 0 <= i < |t| ==> t[i].1.score <= m
  {
    if |t| == 1 then t[0].1.score
    else
      var rest := MaxScore(t[1..]);
      assert forall i :: 1 <= i < |t| ==> t[i] == t[1..][i - 1];
      if t[0].1.score > rest then t[0].1.score else rest
  }

  /** Line 502: the entries whose score reaches the threshold, in their order. */
  function AboveThreshold(t: seq<Entry>, threshold: real): (r: seq<Entry>)
    ensures forall e :: e in r <==> e in t && e.1.score >= threshold
  {
    if t == [] then []
    else (if t[0].1.score >= threshold then [t[0]] else []) + AboveThreshold(t[1..], threshold)
  }

  /** `existing` rules `e` out: its text contains `e`'s text and it scores strictly higher. */
  predicate Dominates(existing: Entry, e: Entry)
  {
    PyStr.Contains(existing.0, e.0) && existing.1.score > e.1.score
  }

  predicate Dominated(e: Entry, accepted: seq<Entry>)
  {
    exists o | o in accepted :: Dominates(o, e)
  }

  /** One iteration of the loop of lines 511-524: a dominated entry is dropped, any other one is
      appended. */
  function Step(accepted: seq<Entry>, e: Entry): seq<Entry>
  {
    if Dominated(e, accepted) then accepted else accepted + [e]
  }

  /** The answers the loop of lines 511-524 accepts from the sorted list `s`. */
  function Resolve(s: seq<Entry>): seq<Entry>
  {
    if s == [] then [] else Step(Resolve(s[..|s| - 1]), s[|s| - 1])
  }

  /** Lines 496-505: the answers reaching the threshold, sorted by score, highest first. */
  function Ranked(t: seq<Entry>): seq<Entry>
    requires t != []
  {
    StableSort.SortDesc(AboveThreshold(t, Threshold(MaxScore(t))), EntryScore)
  }

  /** What `evaluate_async` returns for the aggregated answers `t`. */
  function ConsolidateSpec(t: seq<Entry>): seq<Entry>
  {
    if t == [] then [] else Resolve(Ranked(t))
  }

  /** Lines 509-524 over the answers `sorted` in non-increasing score order. The `elif` branch,
      which deletes an accepted answer that the new one contains and outscores, can never be
      taken: every accepted answer scores at least as high as the new one. */
  method ResolveContainment(sorted: seq<Entry>) returns (final: seq<Entry>)
    requires StableSort.SortedDesc(sorted, EntryScore)
    ensures final == Resolve(sorted)
  {
    final := [];
    for k := 0 to |sorted|
      invariant final == Resolve(sorted[..k])
      invariant forall i, j :: 0 <= i < |final| && k <= j < |sorted| ==> EntryScore(final[i]) >= EntryScore(sorted[j])
    {
      var key := sorted[k].0;
      var value := sorted[k].1;
      var shouldAdd := true;
      var m := 0;
      while m < |final|
        invariant 0 <= m <= |final|
        invariant shouldAdd ==> forall i :: 0 <= i < m ==> !Dominates(final[i], sorted[k])
        invariant !shouldAdd ==> Dominated(sorted[k], final)
        decreases |final| - m, shouldAdd
      {
        var existingKey := final[m].0;
        var existing := final[m].1;
        if PyStr.Contains(existingKey, key) && existing.score > value.score {
          shouldAdd := false;
          assert final[m] in final;
          break;
        } else if PyStr.Contains(key, existingKey) && value.score > existing.score {
          assert false;
        }
        m := m + 1;
      }
      assert sorted[..k + 1][..k] == sorted[..k];
      assert Resolve(sorted[..k + 1]) == Step(final, sorted[k]);
      if shouldAdd {
        forall o | o in final ensures !Dominates(o, sorted[k]) {
          var i :| 0 <= i < |final| && final[i] == o;
        }
        final := final + [sorted[k]];
      }
    }
    assert sorted[..|sorted|] == sorted;
  }

  /** Lines 494-528. */
  method Consolidate(predicted: seq<Entry>) returns (final: seq<Entry>)
    ensures final == ConsolidateSpec(predicted)
  {
    if |predicted| == 0 {
      return predicted;
    }
    var maxValue := MaxScore(predicted);
    var threshold := Threshold(maxValue);
    var filtered := AboveThreshold(predicted, threshold);
    var sortedFiltered := StableSort.SortDesc(filtered, EntryScore);
    StableSort.SortDescFacts(filtered, EntryScore);
    final := ResolveContainment(sortedFiltered);
  }

  lemma {:induction false} ResolveFromInput(s: seq<Entry>)
    ensures forall e :: e in Resolve(s) ==> e in s
  {
    if s != [] {
      ResolveFromInput(s[..|s| - 1]);
      assert s == s[..|s| - 1] + [s[|s| - 1]];
    }
  }

  /** Earlier answers are never removed. */
  lemma ResolvePrefix(s: seq<Entry>, e: Entry)
    ensures forall o :: o in Resolve(s) ==> o in Resolve(s + [e])
  {
    assert (s + [e])[..|s|] == s;
  }

  /** The accepted answers keep the non-increasing score order of the input. */
  lemma {:induction false} ResolveIsSorted(s: seq<Entry>)
    requires StableSort.SortedDesc(s, EntryScore)
    ensures StableSort.SortedDesc(Resolve(s), EntryScore)
  {
    if s != [] {
      var init := s[..|s| - 1];
      var last := s[|s| - 1];
      assert StableSort.SortedDesc(init, EntryScore);
      ResolveIsSorted(init);
      ResolveFromInput(init);
      var r := Resolve(init);
      forall o | o in r ensures o.1.score >= last.1.score {
        var j :| 0 <= j < |init| && init[j] == o;
        assert s[j] == o;
      }
    }
  }

  /** An accepted answer is not ruled out by any other accepted answer. */
  lemma {:induction false} AcceptedIsUndominated(s: seq<Entry>, e: Entry)
    requires StableSort.SortedDesc(s, EntryScore)
    requires e in Resolve(s)
    ensures !Dominated(e, Resolve(s))
  {
    var init := s[..|s| - 1];
    var last := s[|s| - 1];
    var r := Resolve(init);
    assert StableSort.SortedDesc(init, EntryScore);
    if e in r {
      AcceptedIsUndominated(init, e);
      ResolveFromInput(init);
      var j :| 0 <= j < |init| && init[j] == e;
      assert s[j] == e;
      assert !Dominates(last, e);
    } else {
      assert e == last && !Dominated(last, r);
      assert !Dominates(last, last);
    }
  }

  /** An input answer that was dropped is ruled out by an accepted answer. */
  lemma {:induction false} DroppedIsDominated(s: seq<Entry>, e: Entry)
    requires e in s && e !in Resolve(s)
    ensures Dominated(e, Resolve(s))
  {
    var init := s[..|s| - 1];
    var last := s[|s| - 1];
    assert s == init + [last];
    ResolvePrefix(init, last);
    if e in init && e !in Resolve(init) {
      DroppedIsDominated(init, e);
      var o :| o in Resolve(init) && Dominates(o, e);
      assert o in Resolve(s);
    } else if e !in init {
      assert e == last && Dominated(last, Resolve(init));
      var o :| o in Resolve(init) && Dominates(o, e);
      assert o in Resolve(s);
    }
  }

  /** Lines 511-524: an answer of the sorted list is kept exactly when no kept answer contains
      its text with a strictly higher score. */
  lemma ResolveKeepsExactlyUndominated(s: seq<Entry>, e: Entry)
    requires StableSort.SortedDesc(s, EntryScore)
    requires e in s
    ensures e in Resolve(s) <==> !Dominated(e, Resolve(s))
  {
    if e in Resolve(s) {
      AcceptedIsUndominated(s, e);
    } else {
      DroppedIsDominated(s, e);
    }
  }

  /** A sorted list none of whose answers is ruled out by an earlier one is accepted whole. */
  lemma {:induction false} ResolveOfUndominated(s: seq<Entry>)
    requires forall k :: 0 <= k < |s| ==> !Dominated(s[k], s[..k])
    ensures Resolve(s) == s
  {
    if s != [] {
      var init := s[..|s| - 1];
      forall k | 0 <= k < |init| ensures !Dominated(init[k], init[..k]) {
        assert init[..k] == s[..k];
      }
      ResolveOfUndominated(init);
      assert s == init + [s[|s| - 1]];
    }
  }

  /** Resolving the accepted answers again changes nothing. */
  lemma ResolveIdempotent(s: seq<Entry>)
    requires StableSort.SortedDesc(s, EntryScore)
    ensures Resolve(Resolve(s)) == Resolve(s)
  {
    var r := Resolve(s);
    forall k | 0 <= k < |r| ensures !Dominated(r[k], r[..k]) {
      AcceptedIsUndominated(s, r[k]);
      forall o | o in r[..k] ensures !Dominates(o, r[k]) {
        assert o in r;
      }
    }
    ResolveOfUndominated(r);
  }

  /** The ranked answers are sorted and are exactly the answers reaching the threshold. */
  lemma RankedFacts(t: seq<Entry>)
    requires t != []
    ensures StableSort.SortedDesc(Ranked(t), EntryScore)
    ensures forall e :: e in Ranked(t) <==> e in t && e.1.score >= Threshold(MaxScore(t))
  {
    var f := AboveThreshold(t, Threshold(MaxScore(t)));
    StableSort.SortDescFacts(f, EntryScore);
    forall e ensures e in Ranked(t) <==> e in f {
      assert e in Ranked(t) <==> e in multiset(Ranked(t));
    }
  }

  /** The consolidated answers come from the aggregated ones and reach 60% of the best score. */
  lemma ConsolidateFromInput(t: seq<Entry>)
    requires t != []
    ensures forall e :: e in ConsolidateSpec(t) ==> e in t && e.1.score >= Threshold(MaxScore(t))
  {
    RankedFacts(t);
    ResolveFromInput(Ranked(t));
  }

  /** The consolidated answers are in non-increasing score order. */
  lemma ConsolidateIsSorted(t: seq<Entry>)
    ensures StableSort.SortedDesc(ConsolidateSpec(t), EntryScore)
  {
    if t != [] {
      RankedFacts(t);
      ResolveIsSorted(Ranked(t));
    }
  }

  /** An answer reaching the threshold is kept exactly when no kept answer contains its text with
      a strictly higher score. */
  lemma ConsolidateKeepsExactlyUndominated(t: seq<Entry>, e: Entry)
    requires t != [] && e in t && e.1.score >= Threshold(MaxScore(t))
    ensures e in ConsolidateSpec(t) <==> !Dominated(e, ConsolidateSpec(t))
  {
    RankedFacts(t);
    ResolveKeepsExactlyUndominated(Ranked(t), e);
  }

  /** When the best score is not negative, the best-scoring answer is always kept, first. */
  lemma BestAnswerIsKept(t: seq<Entry>)
    requires t != [] && MaxScore(t) >= 0.0
    ensures ConsolidateSpec(t) != [] && ConsolidateSpec(t)[0].1.score == MaxScore(t)
  {
    RankedStartsWithBest(t);
    FirstIsAccepted(Ranked(t));
  }

  /** The ranked answers start with a best-scoring one. */
  lemma RankedStartsWithBest(t: seq<Entry>)
    requires t != [] && MaxScore(t) >= 0.0
    ensures Ranked(t) != [] && Ranked(t)[0].1.score == MaxScore(t)
  {
    var i :| 0 <= i < |t| && t[i].1.score == MaxScore(t);
    BestIsRanked(t, i);
    RankedFirstIsHighest(t, t[i]);
    RankedFirstIsBounded(t);
  }

  /** A best-scoring answer reaches the threshold of a non-negative best score. */
  lemma BestIsRanked(t: seq<Entry>, i: nat)
    requires i < |t| && t[i].1.score == MaxScore(t) && MaxScore(t) >= 0.0
    ensures t[i] in Ranked(t)
  {
    assert t[i] in t && t[i].1.score >= Threshold(MaxScore(t));
    RankedFacts(t);
  }

  lemma RankedFirstIsHighest(t: seq<Entry>, e: Entry)
    requires t != [] && e in Ranked(t)
    ensures Ranked(t)[0].1.score >= e.1.score
  {
    RankedFacts(t);
    FirstOfSortedIsHighest(Ranked(t), e);
  }

  lemma RankedFirstIsBounded(t: seq<Entry>)
    requires t != [] && Ranked(t) != []
    ensures Ranked(t)[0].1.score <= MaxScore(t)
  {
    var r := Ranked(t);
    RankedFacts(t);
    assert r[0] in r;
    BoundedByMax(t, r[0]);
  }

  /** No answer of a sorted list scores higher than its first. */
  lemma FirstOfSortedIsHighest(s: seq<Entry>, e: Entry)
    requires StableSort.SortedDesc(s, EntryScore) && e in s
    ensures s[0].1.score >= e.1.score
  {
    var j :| 0 <= j < |s| && s[j] == e;
    assert EntryScore(s[0]) >= EntryScore(s[j]);
  }

  /** No answer scores higher than the best score. */
  lemma BoundedByMax(t: seq<Entry>, e: Entry)
    requires e in t
    ensures e.1.score <= MaxScore(t)
  {
    var j :| 0 <= j < |t| && t[j] == e;
  }

  /** A score some answer has and none exceeds is the best score. */
  lemma MaxScoreIs(t: seq<Entry>, k: nat, v: real)
    requires k < |t| && t[k].1.score == v && forall e :: e in t ==> e.1.score <= v
    ensures MaxScore(t) == v
  {
    var i :| 0 <= i < |t| && t[i].1.score == MaxScore(t);
    assert t[i] in t;
  }

  lemma {:induction false} FirstIsAccepted(s: seq<Entry>)
    requires s != []
    ensures Resolve(s) != [] && Resolve(s)[0] == s[0]
  {
    if |s| == 1 {
      assert Resolve(s) == Step([], s[0]);
    } else {
      FirstIsAccepted(s[..|s| - 1]);
    }
  }

  lemma {:induction false} AboveThresholdOfNone(t: seq<Entry>, threshold: real)
    requires forall i :: 0 <= i < |t| ==> t[i].1.score < threshold
    ensures AboveThreshold(t, threshold) == []
  {
    if t != [] {
      AboveThresholdOfNone(t[1..], threshold);
    }
  }

  /** A negative best score lies below its own 60% threshold, so nothing is kept. */
  lemma NegativeBestKeepsNothing(t: seq<Entry>)
    requires t != [] && MaxScore(t) < 0.0
    ensures ConsolidateSpec(t) == []
  {
    AboveThresholdOfNone(t, Threshold(MaxScore(t)));
  }

  lemma {:induction false} AboveThresholdOfAll(t: seq<Entry>, threshold: real)
    requires forall i :: 0 <= i < |t| ==> t[i].1.score >= threshold
    ensures AboveThreshold(t, threshold) == t
  {
    if t != [] {
      AboveThresholdOfAll(t[1..], threshold);
      assert t == [t[0]] + t[1..];
    }
  }

  /** The consolidated answers keep the best score of the answers they come from. */
  lemma ConsolidateKeepsMax(t: seq<Entry>)
    requires t != [] && MaxScore(t) >= 0.0
    ensures ConsolidateSpec(t) != [] && MaxScore(ConsolidateSpec(t)) == MaxScore(t)
  {
    var o := ConsolidateSpec(t);
    ConsolidateFromInput(t);
    BestAnswerIsKept(t);
    forall e | e in o
      ensures e.1.score <= MaxScore(t)
    {
      BoundedByMax(t, e);
    }
    MaxScoreIs(o, 0, MaxScore(t));
  }

  lemma ConsolidatedPassThreshold(t: seq<Entry>)
    requires t != [] && MaxScore(t) >= 0.0
    ensures ConsolidateSpec(t) != []
    ensures AboveThreshold(ConsolidateSpec(t), Threshold(MaxScore(ConsolidateSpec(t)))) == ConsolidateSpec(t)
  {
    var o := ConsolidateSpec(t);
    ConsolidateKeepsMax(t);
    var threshold := Threshold(MaxScore(t));
    ConsolidateFromInput(t);
    OnlyAboveThreshold(o, threshold);
    AboveThresholdOfAll(o, threshold);
  }

  /** The consolidated answers all reach their own threshold and are sorted, so ranking them
      again gives them back. */
  lemma RankedOfConsolidated(t: seq<Entry>)
    requires t != [] && MaxScore(t) >= 0.0
    ensures ConsolidateSpec(t) != [] && Ranked(ConsolidateSpec(t)) == ConsolidateSpec(t)
  {
    var o := ConsolidateSpec(t);
    ConsolidatedPassThreshold(t);
    ConsolidateIsSorted(t);
    StableSort.SortDescOfSorted(o, EntryScore);
  }

  /** Consolidating the consolidated answers again changes nothing. */
  lemma ConsolidateIdempotent(t: seq<Entry>)
    ensures ConsolidateSpec(ConsolidateSpec(t)) == ConsolidateSpec(t)
  {
    if t != [] && MaxScore(t) >= 0.0 {
      RankedOfConsolidated(t);
      RankedFacts(t);
      ResolveIdempotent(Ranked(t));
    } else if t != [] {
      NegativeBestKeepsNothing(t);
    }
  }

  lemma OnlyAboveThreshold(o: seq<Entry>, threshold: real)
    requires forall e :: e in o ==> e.1.score >= threshold
    ensures forall i :: 0 <= i < |o| ==> o[i].1.score >= threshold
  {
    assert forall i :: 0 <= i < |o| ==> o[i] in o;
  }

  lemma MaxOfLeading(a: Entry, rest: seq<Entry>)
    requires forall e :: e in rest ==> e.1.score <= a.1.score
    ensures MaxScore([a] + rest) == a.1.score
  {
    var t := [a] + rest;
    var i :| 0 <= i < |t| && t[i].1.score == MaxScore(t);
    if i > 0 {
      assert t[i] in rest;
    }
  }

  lemma ThresholdOfPair(a: Entry, b: Entry, rest: seq<Entry>, th: real)
    requires a.1.score >= th && b.1.score >= th
    requires forall e :: e in rest ==> e.1.score < th
    ensures AboveThreshold([a, b] + rest, th) == [a, b]
  {
    var t := [a, b] + rest;
    assert t[1..] == [b] + rest && ([b] + rest)[1..] == rest;
    assert forall i :: 0 <= i < |rest| ==> rest[i] in rest;
    AboveThresholdOfNone(rest, th);
  }

  lemma RankedOfPair(a: Entry, b: Entry, rest: seq<Entry>)
    requires a.1.score >= b.1.score && b.1.score >= Threshold(a.1.score)
    requires forall e :: e in rest ==> e.1.score < Threshold(a.1.score)
    requires forall e :: e in rest ==> e.1.score <= a.1.score
    ensures Ranked([a, b] + rest) == [a, b]
  {
    var t := [a, b] + rest;
    assert t == [a] + ([b] + rest);
    MaxOfLeading(a, [b] + rest);
    ThresholdOfPair(a, b, rest, Threshold(MaxScore(t)));
    assert StableSort.SortedDesc([a, b], EntryScore);
    StableSort.SortDescOfSorted([a, b], EntryScore);
  }

  /** Two answers, already in order, that both reach the threshold are resolved as they stand. */
  lemma ConsolidatePair(a: Entry, b: Entry, rest: seq<Entry>)
    requires a.1.score >= b.1.score && b.1.score >= Threshold(a.1.score)
    requires forall e :: e in rest ==> e.1.score < Threshold(a.1.score)
    requires forall e :: e in rest ==> e.1.score <= a.1.score
    ensures ConsolidateSpec([a, b] + rest) == Step([a], b)
  {
    RankedOfPair(a, b, rest);
    ResolveOfPair(a, b);
  }

  lemma ResolveOfPair(a: Entry, b: Entry)
    ensures Resolve([a, b]) == Step([a], b)
  {
    assert [a, b][..1] == [a];
    assert [a][..0] == [];
    assert Resolve([a]) == Step([], a);
  }

  /** The aggregated answers "obesity" 10.0, "severe obesity" 9.0 and "smoking" 2.0: the
      threshold 6.0 drops "smoking", and "severe obesity" is kept beside "obesity", because the
      accepted "obesity" does not contain it and the new answer does not outscore it. */
  lemma ObesityExample()
    ensures var obesity := ("obesity", AggregatedAnswer(10.0, {"a1"}));
            var severe := ("severe obesity", AggregatedAnswer(9.0, {"a2"}));
            var smoking := ("smoking", AggregatedAnswer(2.0, {"a3"}));
            ConsolidateSpec([obesity, severe, smoking]) == [obesity, severe]
  {
    var obesity := ("obesity", AggregatedAnswer(10.0, {"a1"}));
    var severe := ("severe obesity", AggregatedAnswer(9.0, {"a2"}));
    var smoking := ("smoking", AggregatedAnswer(2.0, {"a3"}));
    ConsolidatePair(obesity, severe, [smoking]);
    assert [obesity, severe] + [smoking] == [obesity, severe, smoking];
    assert !Dominates(obesity, severe);
  }

  /** A lower-scoring answer contained in an accepted one is dropped. */
  lemma ContainedAnswerIsDropped()
    ensures var severe := ("severe obesity", AggregatedAnswer(10.0, {"a1"}));
            var obesity := ("obesity", AggregatedAnswer(9.0, {"a2"}));
            ConsolidateSpec([severe, obesity]) == [severe]
  {
    var severe := ("severe obesity", AggregatedAnswer(10.0, {"a1"}));
    var obesity := ("obesity", AggregatedAnswer(9.0, {"a2"}));
    ConsolidatePair(severe, obesity, []);
    assert [severe, obesity] + [] == [severe, obesity];
    assert PyStr.OccursAt(severe.0, obesity.0, 7);
    assert Dominates(severe, obesity);
  }
}
