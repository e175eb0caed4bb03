/** Per-article selection of candidates and their aggregation across articles into the
    `predicted_answers` dictionary of `evaluate_async` (lines 474-491). The dictionary is an
    insertion-ordered sequence of (key, value) entries, as Python's `dict` is. */
module Aggregation {
  import opened Wrappers
  import opened SpanExtraction
  import StableSort
  import PyStr

  /** `max_answers`: the number of best candidates of one article that are considered. */
  const MaxAnswers: nat := 10

  /** The absolute floor below which a candidate contributes nothing. */
  const ScoreFloor: real := 1.0

  /** The value stored under one answer text: the best score seen and the supporting articles. */
  datatype AggregatedAnswer = AggregatedAnswer(score: real, articleIds: set<string>)

  type Entry = (string, AggregatedAnswer)

  /** One surviving candidate of one article, with its lower-cased text as key. */
  datatype Contribution = Contribution(key: string, score: real, article: string)

  function CandidateScore(c: Candidate): real
  {
    c.score
  }

  function EntryScore(e: Entry): real
  {
    e.1.score
  }

  /** Lines 477-478: sort by score, highest first (stable), and keep the first ten. */
  function TopK(answers: seq<Candidate>): seq<Candidate>
  {
    var sorted := StableSort.SortDesc(answers, CandidateScore);
    StableSort.SortDescFacts(answers, CandidateScore);
    sorted[..if |sorted| < MaxAnswers then |sorted| else MaxAnswers]
  }

  /** The contributions of an article's candidates `top`, in order: a candidate below the floor
      is skipped (line 483). */
  function Contributions(id: string, top: seq<Candidate>): seq<Contribution>
  {
    if top == [] then []
    else
      var c := top[|top| - 1];
      Contributions(id, top[..|top| - 1])
      + if c.score < ScoreFloor then [] else [Contribution(PyStr.Lower(c.text), c.score, id)]
  }

  /** The position of `key` in the table, if it is there (the dictionary lookup). */
  function Find(table: seq<Entry>, key: string): (r: Option<nat>)
    ensures r.Some? ==> r.value < |table| && table[r.value].0 == key
    ensures r.None? ==> forall i :: 0 <= i < |table| ==> table[i].0 != key
  {
    if table == [] then None
    else if table[0].0 == key then Some(0)
    else match Find(table[1..], key)
      case None => None
      case Some(i) => Some(i + 1)
  }

  /** Lines 486-491: raise the stored score to the new one if it is higher and add the article,
      or insert a new entry at the end. */
  function Absorb(table: seq<Entry>, c: Contribution): seq<Entry>
  {
    match Find(table, c.key)
    case Some(i) =>
      var prev := table[i].1;
      var score := if c.score > prev.score then c.score else prev.score;
      table[i := (c.key, AggregatedAnswer(score, prev.articleIds + {c.article}))]
    case None => table + [(c.key, AggregatedAnswer(c.score, {c.article}))]
  }

  /** The table after absorbing `cs` in order. */
  function Fold(table: seq<Entry>, cs: seq<Contribution>): seq<Entry>
  {
    if cs == [] then table else Absorb(Fold(table, cs[..|cs| - 1]), cs[|cs| - 1])
  }

  /** The per-article evidence: its id and the candidates extracted from it. */
  datatype ArticleEvidence = ArticleEvidence(id: string, answers: seq<Candidate>)

  /** The contributions of all articles, article after article. */
  function AllContributions(articles: seq<ArticleEvidence>): seq<Contribution>
  {
    if articles == [] then []
    else
      var a := articles[|articles| - 1];
      AllContributions(articles[..|articles| - 1]) + Contributions(a.id, TopK(a.answers))
  }

  /** Lines 474-491 for one article: its ten best candidates are folded into the table. */
  method AggregateArticle(table: seq<Entry>, exampleId: string, answers: seq<Candidate>)
    returns (table': seq<Entry>)
    ensures table' == Fold(table, Contributions(exampleId, TopK(answers)))
  {
    table' := table;
    if |answers| > 0 {
      var top := TopK(answers);
      for j := 0 to |top|
        invariant table' == Fold(table, Contributions(exampleId, top[..j]))
      {
        var text := PyStr.Lower(top[j].text);
        var score := top[j].score;
        ghost var done := Contributions(exampleId, top[..j]);
        ContributionsSnoc(exampleId, top, j);
        if score < ScoreFloor {
          assert done + [] == done;
          continue;
        }
        ghost var before := table';
        ghost var c := Contribution(text, score, exampleId);
        assert Contributions(exampleId, top[..j + 1]) == done + [c];
        FoldSnoc(table, done, c);
        var at := Find(table', text);
        if at.Some? {
          var prev := table'[at.value].1;
          if score > prev.score {
            table' := table'[at.value := (text, AggregatedAnswer(score, prev.articleIds))];
          }
          table' := table'[at.value := (text, AggregatedAnswer(table'[at.value].1.score, prev.articleIds + {exampleId}))];
        } else {
          table' := table' + [(text, AggregatedAnswer(score, {exampleId}))];
          assert table' == Absorb(before, c);
        }
        assert table' == Absorb(before, c);
      }
      assert top[..|top|] == top;
    }
  }

  lemma ContributionsSnoc(id: string, top: seq<Candidate>, j: nat)
    requires j < |top|
    ensures Contributions(id, top[..j + 1])
            == Contributions(id, top[..j])
               + if top[j].score < ScoreFloor then [] else [Contribution(PyStr.Lower(top[j].text), top[j].score, id)]
  {
    assert top[..j + 1][..j] == top[..j];
  }

  lemma FoldSnoc(table: seq<Entry>, cs: seq<Contribution>, c: Contribution)
    ensures Fold(table, cs + [c]) == Absorb(Fold(table, cs), c)
  {
    assert (cs + [c])[..|cs|] == cs;
  }

  /** The whole aggregation loop over the articles, starting from an empty dictionary. */
  method Aggregate(articles: seq<ArticleEvidence>) returns (table: seq<Entry>)
    ensures table == Fold([], AllContributions(articles))
  {
    table := [];
    for a := 0 to |articles|
      invariant table == Fold([], AllContributions(articles[..a]))
    {
      table := AggregateArticle(table, articles[a].id, articles[a].answers);
      assert articles[..a + 1][..a] == articles[..a];
      FoldAppend([], AllContributions(articles[..a]), Contributions(articles[a].id, TopK(articles[a].answers)));
    }
    assert articles[..|articles|] == articles;
  }

  lemma {:induction false} FoldAppend(table: seq<Entry>, xs: seq<Contribution>, ys: seq<Contribution>)
    ensures Fold(table, xs + ys) == Fold(Fold(table, xs), ys)
  {
    if ys == [] {
      assert xs + ys == xs;
    } else {
      assert (xs + ys)[..|xs + ys| - 1] == xs + ys[..|ys| - 1];
      FoldAppend(table, xs, ys[..|ys| - 1]);
    }
  }

  ghost predicate DistinctKeys(table: seq<Entry>)
  {
    forall i, j :: 0 <= i < j < |table| ==> table[i].0 != table[j].0
  }

  /** The table holds one entry per key of `cs`; each entry's score is the largest score of the
      contributions with that key, and its article ids are exactly their articles. */
  ghost predicate Summarizes(table: seq<Entry>, cs: seq<Contribution>)
  {
    && DistinctKeys(table)
    && (forall c :: c in cs ==> exists i :: 0 <= i < |table| && table[i].0 == c.key)
    && (forall i :: 0 <= i < |table| ==> IsBest(table[i], cs))
  }

  ghost predicate IsBest(e: Entry, cs: seq<Contribution>)
  {
    && (exists c :: c in cs && c.key == e.0 && c.score == e.1.score)
    && (forall c :: c in cs && c.key == e.0 ==> c.score <= e.1.score)
    && e.1.articleIds == ArticlesOf(cs, e.0)
  }

  ghost function ArticlesOf(cs: seq<Contribution>, key: string): set<string>
  {
    set c | c in cs && c.key == key :: c.article
  }

  lemma ArticlesOfSnoc(cs: seq<Contribution>, x: Contribution, key: string)
    ensures ArticlesOf(cs + [x], key) == ArticlesOf(cs, key) + (if x.key == key then {x.article} else {})
  {
    var l := ArticlesOf(cs + [x], key);
    var r := ArticlesOf(cs, key) + (if x.key == key then {x.article} else {});
    forall a | a in l ensures a in r {
      var c :| c in cs + [x] && c.key == key && c.article == a;
      if c != x { assert c in cs; }
    }
  }

  /** An entry whose key differs from the new contribution's is unaffected by it. */
  lemma OtherEntryStaysBest(e: Entry, cs: seq<Contribution>, x: Contribution)
    requires IsBest(e, cs) && e.0 != x.key
    ensures IsBest(e, cs + [x])
  {
    ArticlesOfSnoc(cs, x, e.0);
    var c :| c in cs && c.key == e.0 && c.score == e.1.score;
    assert c in cs + [x];
  }

  lemma FoundEntryBecomesBest(table: seq<Entry>, cs: seq<Contribution>, x: Contribution, k: nat)
    requires DistinctKeys(table) && k < |table| && table[k].0 == x.key && IsBest(table[k], cs)
    ensures IsBest(Absorb(table, x)[k], cs + [x])
  {
    FindsTheKey(table, x.key, k);
    MergedEntryIsBest(table[k], cs, x, Absorb(table, x)[k]);
  }

  /** With distinct keys, `Find` returns the one entry of the key. */
  lemma FindsTheKey(table: seq<Entry>, key: string, k: nat)
    requires DistinctKeys(table) && k < |table| && table[k].0 == key
    ensures Find(table, key) == Some(k)
  {
  }

  /** The entry of the new contribution's key, with the larger score and the article added. */
  lemma MergedEntryIsBest(e: Entry, cs: seq<Contribution>, x: Contribution, merged: Entry)
    requires IsBest(e, cs) && e.0 == x.key
    requires merged == (x.key, AggregatedAnswer(if x.score > e.1.score then x.score else e.1.score, e.1.articleIds + {x.article}))
    ensures IsBest(merged, cs + [x])
  {
    ArticlesOfSnoc(cs, x, x.key);
    var c :| c in cs && c.key == e.0 && c.score == e.1.score;
    assert c in cs + [x] && x in cs + [x];
    forall d | d in cs + [x] && d.key == x.key
      ensures d.score <= if x.score > e.1.score then x.score else e.1.score
    {
      if d != x {
        assert d in cs;
      }
    }
  }

  lemma NewEntryIsBest(table: seq<Entry>, cs: seq<Contribution>, x: Contribution)
    requires Summarizes(table, cs) && Find(table, x.key).None?
    ensures IsBest((x.key, AggregatedAnswer(x.score, {x.article})), cs + [x])
  {
    ArticlesOfSnoc(cs, x, x.key);
    assert forall c :: c in cs ==> c.key != x.key;
    assert ArticlesOf(cs, x.key) == {};
    assert forall c :: c in cs + [x] && c.key == x.key ==> c == x;
    assert x in cs + [x];
  }

  lemma AbsorbCoversKeys(table: seq<Entry>, cs: seq<Contribution>, x: Contribution)
    requires Summarizes(table, cs)
    ensures forall c :: c in cs + [x] ==> exists i :: 0 <= i < |Absorb(table, x)| && Absorb(table, x)[i].0 == c.key
  {
    var t' := Absorb(table, x);
    assert |t'| >= |table|;
    forall i | 0 <= i < |table| ensures t'[i].0 == table[i].0 { }
    forall c | c in cs + [x] ensures exists i :: 0 <= i < |t'| && t'[i].0 == c.key {
      if c in cs {
        var i :| 0 <= i < |table| && table[i].0 == c.key;
        assert t'[i].0 == c.key;
      } else {
        match Find(table, x.key)
        case Some(k) => assert t'[k].0 == c.key;
        case None => assert t'[|table|].0 == c.key;
      }
    }
  }

  lemma AbsorbKeepsKeysDistinct(table: seq<Entry>, x: Contribution)
    requires DistinctKeys(table)
    ensures DistinctKeys(Absorb(table, x))
  {
  }

  lemma AbsorbKeepsEntryBest(table: seq<Entry>, cs: seq<Contribution>, x: Contribution, i: nat)
    requires Summarizes(table, cs) && i < |Absorb(table, x)|
    ensures IsBest(Absorb(table, x)[i], cs + [x])
  {
    if i < |table| && table[i].0 != x.key {
      assert Absorb(table, x)[i] == table[i];
      OtherEntryStaysBest(table[i], cs, x);
    } else if i < |table| {
      assert IsBest(table[i], cs);
      FoundEntryBecomesBest(table, cs, x, i);
    } else {
      NewEntryIsBest(table, cs, x);
    }
  }

  lemma AbsorbSummarizes(table: seq<Entry>, cs: seq<Contribution>, x: Contribution)
    requires Summarizes(table, cs)
    ensures Summarizes(Absorb(table, x), cs + [x])
  {
    AbsorbKeepsKeysDistinct(table, x);
    AbsorbCoversKeys(table, cs, x);
    forall i | 0 <= i < |Absorb(table, x)| ensures IsBest(Absorb(table, x)[i], cs + [x]) {
      AbsorbKeepsEntryBest(table, cs, x, i);
    }
  }

  /** A non-empty list is its front and its last element. */
  lemma InitAndLast<T>(s: seq<T>)
    requires s != []
    ensures s[..|s| - 1] + [s[|s| - 1]] == s
  {
  }

  /** Lines 480-491: after the fold, the keys are distinct, every surviving candidate's key is
      present, and each key's score is the maximal score and its article ids exactly the
      articles among the candidates with that key. */
  lemma {:induction false} FoldSummarizes(cs: seq<Contribution>)
    ensures Summarizes(Fold([], cs), cs)
  {
    if cs != [] {
      var init := cs[..|cs| - 1];
      InitAndLast(cs);
      FoldSummarizes(init);
      AbsorbSummarizes(Fold([], init), init, cs[|cs| - 1]);
    }
  }

  lemma {:induction false} FoldKeysComeFromContributions(cs: seq<Contribution>)
    ensures forall i :: 0 <= i < |Fold([], cs)| ==> exists c :: c in cs && c.key == Fold([], cs)[i].0
  {
    var t := Fold([], cs);
    FoldSummarizes(cs);
    assert forall i :: 0 <= i < |t| ==> IsBest(t[i], cs);
    forall i | 0 <= i < |t| ensures exists c :: c in cs && c.key == t[i].0 {
      var c :| c in cs && c.key == t[i].0 && c.score == t[i].1.score;
    }
  }

  /** Every contribution is a candidate of its article's top ten with score at least 1.0, keyed
      by its lower-cased text; conversely every such candidate contributes. */
  lemma {:induction false} ContributionsAreSurvivors(id: string, top: seq<Candidate>, c: Contribution)
    ensures c in Contributions(id, top)
            <==> exists x :: x in top && x.score >= ScoreFloor && c == Contribution(PyStr.Lower(x.text), x.score, id)
  {
    if top != [] {
      var init := top[..|top| - 1];
      var last := top[|top| - 1];
      ContributionsAreSurvivors(id, init, c);
      assert top == init + [last];
      if exists x :: x in top && x.score >= ScoreFloor && c == Contribution(PyStr.Lower(x.text), x.score, id) {
        var x :| x in top && x.score >= ScoreFloor && c == Contribution(PyStr.Lower(x.text), x.score, id);
        if x != last { assert x in init; }
      }
    }
  }

  /** Every contribution of every article reaches the floor. */
  lemma {:induction false} ContributionsReachFloor(articles: seq<ArticleEvidence>)
    ensures forall c :: c in AllContributions(articles) ==> c.score >= ScoreFloor
  {
    if articles != [] {
      var a := articles[|articles| - 1];
      ContributionsReachFloor(articles[..|articles| - 1]);
      forall c | c in Contributions(a.id, TopK(a.answers))
        ensures c.score >= ScoreFloor
      {
        ContributionsAreSurvivors(a.id, TopK(a.answers), c);
      }
    }
  }

  /** Every score of the aggregated table reaches the floor: it is the score of some
      contribution. */
  lemma AggregatedScoresReachFloor(articles: seq<ArticleEvidence>)
    ensures forall e :: e in Fold([], AllContributions(articles)) ==> e.1.score >= ScoreFloor
  {
    var cs := AllContributions(articles);
    var t := Fold([], cs);
    ContributionsReachFloor(articles);
    FoldSummarizes(cs);
    forall e | e in t
      ensures e.1.score >= ScoreFloor
    {
      var i :| 0 <= i < |t| && t[i] == e;
      BestReachesFloor(t[i], cs);
    }
  }

  /** The score of an entry is the score of one of its contributions. */
  lemma BestReachesFloor(e: Entry, cs: seq<Contribution>)
    requires IsBest(e, cs) && forall c :: c in cs ==> c.score >= ScoreFloor
    ensures e.1.score >= ScoreFloor
  {
    var c :| c in cs && c.key == e.0 && c.score == e.1.score;
  }

  /** Every key of the aggregated table is lower case. */
  lemma {:induction false} KeysAreLowerCase(articles: seq<ArticleEvidence>)
    ensures forall i :: 0 <= i < |Fold([], AllContributions(articles))| ==> PyStr.IsLower(Fold([], AllContributions(articles))[i].0)
  {
    var cs := AllContributions(articles);
    ContributionKeysAreLowerCase(articles);
    FoldKeysComeFromContributions(cs);
  }

  lemma {:induction false} ContributionKeysAreLowerCase(articles: seq<ArticleEvidence>)
    ensures forall c :: c in AllContributions(articles) ==> PyStr.IsLower(c.key)
  {
    if articles != [] {
      var a := articles[|articles| - 1];
      ContributionKeysAreLowerCase(articles[..|articles| - 1]);
      forall c | c in Contributions(a.id, TopK(a.answers)) ensures PyStr.IsLower(c.key) {
        ContributionsAreSurvivors(a.id, TopK(a.answers), c);
        var x :| x in TopK(a.answers) && x.score >= ScoreFloor && c == Contribution(PyStr.Lower(x.text), x.score, a.id);
        PyStr.LowerIsLower(x.text);
      }
    }
  }

  /** Lines 477-478: at most ten candidates are kept, they are in non-increasing score order,
      they are candidates of the article, and no candidate left out scores higher than one
      kept. */
  lemma TopKIsBest(answers: seq<Candidate>)
    ensures |TopK(answers)| == if |answers| < MaxAnswers then |answers| else MaxAnswers
    ensures StableSort.SortedDesc(TopK(answers), CandidateScore)
    ensures multiset(TopK(answers)) <= multiset(answers)
    ensures forall x, y :: x in TopK(answers) && y in multiset(answers) - multiset(TopK(answers)) ==> x.score >= y.score
  {
    var sorted := StableSort.SortDesc(answers, CandidateScore);
    StableSort.SortDescFacts(answers, CandidateScore);
    var n := if |sorted| < MaxAnswers then |sorted| else MaxAnswers;
    assert sorted == sorted[..n] + sorted[n..];
    assert multiset(sorted) == multiset(sorted[..n]) + multiset(sorted[n..]);
    forall x, y | x in TopK(answers) && y in multiset(answers) - multiset(TopK(answers))
      ensures x.score >= y.score
    {
      assert y in multiset(sorted[n..]);
      var i :| 0 <= i < n && sorted[i] == x;
      var j :| 0 <= j < |sorted[n..]| && sorted[n..][j] == y;
      assert sorted[n + j] == y;
    }
  }

  /** An empty list of articles aggregates to an empty dictionary. */
  lemma AggregateOfNothing()
    ensures Fold([], AllContributions([])) == []
  {
  }

  lemma TopKOfOne(c: Candidate)
    ensures TopK([c]) == [c]
  {
    assert [c][1..] == [];
    assert StableSort.SortDesc([c], CandidateScore) == StableSort.Insert(c, [], CandidateScore);
    assert [c][..1] == [c];
  }

  /** An article with a single candidate contributes it exactly when it reaches the floor. */
  lemma ContributionsOfOne(id: string, c: Candidate)
    ensures Contributions(id, TopK([c]))
            == if c.score < ScoreFloor then [] else [Contribution(PyStr.Lower(c.text), c.score, id)]
  {
    TopKOfOne(c);
    assert [c][..0] == [];
  }

  lemma LowerHypertension()
    ensures PyStr.Lower("Hypertension") == "hypertension"
    ensures PyStr.Lower("hypertension") == "hypertension"
  {
  }

  lemma AllContributionsOfTwo(a: ArticleEvidence, b: ArticleEvidence)
    ensures AllContributions([a, b])
            == Contributions(a.id, TopK(a.answers)) + Contributions(b.id, TopK(b.answers))
  {
    assert [a, b][..1] == [a];
    assert [a][..0] == [];
    var ca := Contributions(a.id, TopK(a.answers));
    assert [] + ca == ca;
    assert AllContributions([a]) == ca;
  }

  /** Absorbing two contributions with the same key keeps one entry. */
  lemma FoldOfSameKey(x: Contribution, y: Contribution)
    requires x.key == y.key
    ensures Fold([], [x, y])
            == [(x.key, AggregatedAnswer(if y.score > x.score then y.score else x.score, {x.article, y.article}))]
  {
    FoldSnoc([], [x], y);
    FoldSnoc([], [], x);
    assert [] + [x] == [x] && [x] + [y] == [x, y];
    var t := [(x.key, AggregatedAnswer(x.score, {x.article}))];
    assert Fold([], [x]) == t;
    assert Find(t, y.key) == Some(0);
    assert {x.article} + {y.article} == {x.article, y.article};
    assert Absorb(t, y)
           == [(x.key, AggregatedAnswer(if y.score > x.score then y.score else x.score, {x.article, y.article}))];
  }

  lemma HypertensionContributions(a1: ArticleEvidence, a2: ArticleEvidence)
    requires a1 == ArticleEvidence("art1", [Candidate("hypertension", 5.0)])
    requires a2 == ArticleEvidence("art2", [Candidate("Hypertension", 3.0)])
    ensures AllContributions([a1, a2])
            == [Contribution("hypertension", 5.0, "art1"), Contribution("hypertension", 3.0, "art2")]
  {
    LowerHypertension();
    ContributionsOfOne(a1.id, a1.answers[0]);
    ContributionsOfOne(a2.id, a2.answers[0]);
    AllContributionsOfTwo(a1, a2);
  }

  /** Two articles answering "hypertension" (5.0) and "Hypertension" (3.0) aggregate into one
      lower-cased entry with the higher score and both articles. */
  lemma HypertensionExample()
    ensures var articles := [ArticleEvidence("art1", [Candidate("hypertension", 5.0)]),
                             ArticleEvidence("art2", [Candidate("Hypertension", 3.0)])];
            Fold([], AllContributions(articles)) == [("hypertension", AggregatedAnswer(5.0, {"art1", "art2"}))]
  {
    var a1 := ArticleEvidence("art1", [Candidate("hypertension", 5.0)]);
    var a2 := ArticleEvidence("art2", [Candidate("Hypertension", 3.0)]);
    HypertensionContributions(a1, a2);
    FoldOfSameKey(Contribution("hypertension", 5.0, "art1"), Contribution("hypertension", 3.0, "art2"));
  }

  /** A candidate scoring below 1.0 contributes nothing, even when it ranks first. */
  lemma BelowFloorExample()
    ensures Fold([], AllContributions([ArticleEvidence("art1", [Candidate("asthma", 0.9)])])) == []
  {
    var a := ArticleEvidence("art1", [Candidate("asthma", 0.9)]);
    ContributionsOfOne(a.id, a.answers[0]);
    assert [a][..0] == [];
  }
}
