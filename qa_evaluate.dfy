/** The article loop of `evaluate_async` (lines 437-528): candidates are extracted from each
    article, folded into the answers dictionary, and the dictionary is consolidated. */
module Evaluation {
  import opened SpanExtraction
  import opened Aggregation
  import opened Consolidation
  import StableSort
  import PyStr

  /** An article that was fetched, with the model's output for each of its tokenized windows. */
  datatype Article = Article(id: string, context: string, features: seq<Feature>)

  predicate ArticleWellFormed(a: Article)
  {
    forall k :: 0 <= k < |a.features| ==> WellFormed(a.features[k])
  }

  /** The candidates of each article, as the span search extracts them. */
  function Evidence(articles: seq<Article>, maxLen: nat): (r: seq<ArticleEvidence>)
    ensures |r| == |articles|
  {
    if articles == [] then []
    else
      var a := articles[|articles| - 1];
      Evidence(articles[..|articles| - 1], maxLen) + [ArticleEvidence(a.id, Candidates(a.context, a.features, maxLen))]
  }

  /** What `evaluate_async` returns for the fetched articles. */
  function EvaluateSpec(articles: seq<Article>, maxLen: nat): seq<Entry>
  {
    ConsolidateSpec(Fold([], AllContributions(Evidence(articles, maxLen))))
  }

  method EvaluateAnswers(articles: seq<Article>, maxLen: nat) returns (final: seq<Entry>)
    requires forall i :: 0 <= i < |articles| ==> ArticleWellFormed(articles[i])
    ensures final == EvaluateSpec(articles, maxLen)
  {
    var predicted: seq<Entry> := [];
    for i := 0 to |articles|
      invariant predicted == Fold([], AllContributions(Evidence(articles[..i], maxLen)))
    {
      var answers := CollectCandidates(articles[i].context, articles[i].features, maxLen);
      ghost var done := AllContributions(Evidence(articles[..i], maxLen));
      ghost var added := Contributions(articles[i].id, TopK(answers));
      predicted := AggregateArticle(predicted, articles[i].id, answers);
      FoldAppend([], done, added);
      assert articles[..i + 1][..i] == articles[..i];
      ghost var ev := Evidence(articles[..i + 1], maxLen);
      assert ev[..i] == Evidence(articles[..i], maxLen);
      assert AllContributions(ev) == done + added;
    }
    assert articles[..|articles|] == articles;
    final := Consolidate(predicted);
  }

  /** Every answer returned is lower case, comes unchanged from the aggregated dictionary, and
      reaches 60% of its best score; the answers are in non-increasing score order. */
  lemma EvaluateFacts(articles: seq<Article>, maxLen: nat)
    ensures var t := Fold([], AllContributions(Evidence(articles, maxLen)));
            forall e :: e in EvaluateSpec(articles, maxLen) ==> e in t && e.1.score >= Threshold(MaxScore(t)) && PyStr.IsLower(e.0)
    ensures StableSort.SortedDesc(EvaluateSpec(articles, maxLen), EntryScore)
  {
    var t := Fold([], AllContributions(Evidence(articles, maxLen)));
    ConsolidateIsSorted(t);
    if t != [] {
      ConsolidateFromInput(t);
      KeysAreLowerCase(Evidence(articles, maxLen));
      forall e | e in EvaluateSpec(articles, maxLen) ensures PyStr.IsLower(e.0) {
        var i :| 0 <= i < |t| && t[i] == e;
      }
    }
  }

  /** The best aggregated answer always survives: every aggregated score reaches the floor of
      1.0, so the best score is positive, and the answers returned start with one that has it.
      With nothing aggregated, nothing is returned. */
  lemma BestAggregatedAnswerIsReturned(articles: seq<Article>, maxLen: nat)
    ensures var t := Fold([], AllContributions(Evidence(articles, maxLen)));
            && (t == [] ==> EvaluateSpec(articles, maxLen) == [])
            && (t != [] ==> MaxScore(t) >= ScoreFloor
                            && EvaluateSpec(articles, maxLen) != []
                            && EvaluateSpec(articles, maxLen)[0].1.score == MaxScore(t))
  {
    var t := Fold([], AllContributions(Evidence(articles, maxLen)));
    if t != [] {
      AggregatedScoresReachFloor(Evidence(articles, maxLen));
      var i :| 0 <= i < |t| && t[i].1.score == MaxScore(t);
      assert t[i] in t;
      BestAnswerIsKept(t);
    }
  }

  /** With no fetched article, nothing is returned. */
  lemma EvaluateOfNothing(maxLen: nat)
    ensures EvaluateSpec([], maxLen) == []
  {
  }
}
