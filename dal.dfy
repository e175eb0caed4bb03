/** The in-memory logic of the data-access layer (`dal/dal.go`): the merge behind
    `GetClassificationItems`, the counts of `GetStatistics`, the disease converters and the
    question rebuild of `UpdateQA`. What Mongo returns is given as sequences of records; the
    counts Mongo computes are parameters. */
module Dal {
  import opened Wrappers
  import opened Utils
  import opened GoStrings
  import GraphModel

  // ----- The stored records (`dal/models.go`) -----

  datatype Article = Article(id: string, text: string)

  datatype DiseaseDBLinks = DiseaseDBLinks(icd10: Slice<string>, icd11: Slice<string>, mesh: Slice<string>)

  datatype Disease = Disease(
    id: string,
    names: Slice<string>,
    dbLinks: Option<DiseaseDBLinks>,
    category: string,
    description: string)

  datatype Answer = Answer(answerStart: int, text: string)

  datatype Question = Question(id: string, text: string, answers: Slice<Answer>)

  datatype QA = QA(id: string, disease: Option<Disease>, article: Option<Article>, questions: Slice<Question>)

  /** A stored classification item; its label is a plain integer, of which 0 and 1 are named. */
  datatype ClassificationItem = ClassificationItem(id: string, classification: int, article: Option<Article>)

  const Negative := 0
  const Positive := 1

  // ----- The disease converters -----

  /** `convertDiseaseToGql`: every field is copied; the links object only when there is one. */
  function DiseaseToGql(d: Disease): (g: GraphModel.Disease)
    ensures g.id == d.id && g.names == d.names && g.category == d.category && g.description == d.description
    ensures g.dbLinks.None? <==> d.dbLinks.None?
  {
    GraphModel.Disease(
      d.id,
      d.names,
      if d.dbLinks.Some? then Some(GraphModel.DiseaseDBLinks(d.dbLinks.value.icd10, d.dbLinks.value.icd11, d.dbLinks.value.mesh)) else None,
      d.category,
      d.description)
  }

  /** `convertDiseaseToDB`, the converse. */
  function DiseaseToDB(g: GraphModel.Disease): (d: Disease)
    ensures d.id == g.id && d.names == g.names && d.category == g.category && d.description == g.description
    ensures d.dbLinks.None? <==> g.dbLinks.None?
  {
    Disease(
      g.id,
      g.names,
      if g.dbLinks.Some? then Some(DiseaseDBLinks(g.dbLinks.value.icd10, g.dbLinks.value.icd11, g.dbLinks.value.mesh)) else None,
      g.category,
      g.description)
  }

  /** A stored disease goes to the API and back unchanged, a missing links object included. */
  lemma DiseaseRoundTrip(d: Disease)
    ensures DiseaseToDB(DiseaseToGql(d)) == d
  {
  }

  /** And an API disease goes to the store and back unchanged. */
  lemma GqlDiseaseRoundTrip(g: GraphModel.Disease)
    ensures DiseaseToGql(DiseaseToDB(g)) == g
  {
  }

  // ----- GetClassificationItems -----

  /** The article id an item is keyed by; a nil article, which Go panics on, has none. */
  function ArticleId(c: ClassificationItem): string
  {
    if c.article.Some? then c.article.value.id else ""
  }

  /** The positive item the first loop builds for a QA, keyed by its article's id. */
  function Proposed(qa: QA): ClassificationItem
  {
    ClassificationItem(if qa.article.Some? then qa.article.value.id else "", Positive, qa.article)
  }

  /** The positive item of each QA, in order. */
  function Proposals(qas: seq<QA>): (ps: seq<ClassificationItem>)
    ensures |ps| == |qas|
    ensures forall k :: 0 <= k < |qas| ==> ps[k] == Proposed(qas[k])
  {
    seq(|qas|, k requires 0 <= k < |qas| => Proposed(qas[k]))
  }

  /** All the items the two loops look at, in order: one per QA, then the stored items. */
  function Candidates(qas: seq<QA>, items: seq<ClassificationItem>): (cands: seq<ClassificationItem>)
    ensures |cands| == |qas| + |items|
  {
    Proposals(qas) + items
  }

  /** `convertClassificationItemToGql`, for an item whose article is set. */
  function ItemToGql(c: ClassificationItem): GraphModel.ClassificationItem
    requires c.article.Some?
  {
    GraphModel.ClassificationItem(c.id, GraphModel.Article(c.article.value.id, c.article.value.text), c.classification)
  }

  /** The set of article ids seen and the items emitted so far, in order. */
  datatype Merged = Merged(seen: set<string>, emitted: seq<GraphModel.ClassificationItem>)

  /** Where the merge starts: nothing seen, nothing emitted. */
  const Empty := Merged({}, [])

  /** One candidate merged: an item whose article id was seen is skipped; a nil article
      panics. */
  function MergeStep(m: Merged, c: ClassificationItem): Result<Merged>
  {
    if c.article.None? then Failure(NilDereference)
    else if c.article.value.id in m.seen then Success(m)
    else Success(Merged(m.seen + {c.article.value.id}, m.emitted + [ItemToGql(c)]))
  }

  /** The merge from `start` after the first `n` candidates; the first panic ends it. */
  function MergeFrom(start: Merged, cands: seq<ClassificationItem>, n: nat): Result<Merged>
    requires n <= |cands|
    decreases n
  {
    if n == 0 then Success(start) else Then(MergeFrom(start, cands, n - 1), cands[n - 1])
  }

  /** The merge so far followed by one more candidate. */
  function Then(prev: Result<Merged>, c: ClassificationItem): Result<Merged>
  {
    if prev.Failure? then prev else MergeStep(prev.value, c)
  }

  /** The Go slice of the emitted items: it stays nil until the first `append`. */
  function AsSlice(emitted: seq<GraphModel.ClassificationItem>): (s: Slice<GraphModel.ClassificationItem>)
    ensures Elements(s) == emitted
    ensures s.Nil? <==> emitted == []
  {
    if emitted == [] then Nil else Of(emitted)
  }

  /** The outcome of a merge, as the function returns it. */
  function Outcome(r: Result<Merged>): Result<Slice<GraphModel.ClassificationItem>>
  {
    match r
    case Failure(e) => Failure(e)
    case Success(m) => Success(AsSlice(m.emitted))
  }

  /** What `GetClassificationItems` returns: the first loop merges the QAs' items, the second
      goes on with the stored items. */
  function ClassificationItemsSpec(qas: seq<QA>, items: seq<ClassificationItem>): Result<Slice<GraphModel.ClassificationItem>>
  {
    match MergeFrom(Empty, Proposals(qas), |qas|)
    case Failure(e) => Failure(e)
    case Success(m) => Outcome(MergeFrom(m, items, |items|))
  }

  /** The merge from `start` has reached, after `n` candidates, the ids `seen` and the items
      `emitted`. */
  predicate MergedAt(start: Merged, cands: seq<ClassificationItem>, n: nat, seen: set<string>, emitted: seq<GraphModel.ClassificationItem>)
  {
    n <= |cands| && MergeFrom(start, cands, n) == Success(Merged(seen, emitted))
  }

  /** A slice built by appending to a nil slice: nil or not empty. */
  predicate Appended<T>(s: Slice<T>)
  {
    s.Nil? || s.items != []
  }

  /** `GetClassificationItems` after the queries: the QAs first, then the stored items. */
  method GetClassificationItems(qas: seq<QA>, classificationItems: seq<ClassificationItem>)
      returns (r: Result<Slice<GraphModel.ClassificationItem>>)
    ensures r == ClassificationItemsSpec(qas, classificationItems)
  {
    ghost var proposals := Proposals(qas);
    var articlesIDs: set<string> := {};
    var gqlClassificationItems: Slice<GraphModel.ClassificationItem> := Nil;
    for i := 0 to |qas|
      invariant MergedAt(Empty, proposals, i, articlesIDs, Elements(gqlClassificationItems))
      invariant Appended(gqlClassificationItems)
    {
      var qa := qas[i];
      if qa.article.None? {
        NilArticleFails(Empty, proposals, i, articlesIDs, Elements(gqlClassificationItems));
        return Failure(NilDereference);
      }
      var classificationItem := ClassificationItem(qa.article.value.id, Positive, qa.article);
      articlesIDs, gqlClassificationItems := MergeItem(Empty, proposals, i, classificationItem, articlesIDs, gqlClassificationItems);
    }
    r := MergeStored(classificationItems, articlesIDs, gqlClassificationItems);
  }

  /** The second loop, over the stored items, from the ids and items the first one left. */
  method MergeStored(classificationItems: seq<ClassificationItem>, ids: set<string>, items: Slice<GraphModel.ClassificationItem>)
      returns (r: Result<Slice<GraphModel.ClassificationItem>>)
    requires Appended(items)
    ensures r == Outcome(MergeFrom(Merged(ids, Elements(items)), classificationItems, |classificationItems|))
  {
    ghost var start := Merged(ids, Elements(items));
    var articlesIDs, gqlClassificationItems := ids, items;
    for j := 0 to |classificationItems|
      invariant MergedAt(start, classificationItems, j, articlesIDs, Elements(gqlClassificationItems))
      invariant Appended(gqlClassificationItems)
    {
      var classificationItem := classificationItems[j];
      if classificationItem.article.None? {
        NilArticleFails(start, classificationItems, j, articlesIDs, Elements(gqlClassificationItems));
        return Failure(NilDereference);
      }
      articlesIDs, gqlClassificationItems := MergeItem(start, classificationItems, j, classificationItem, articlesIDs, gqlClassificationItems);
    }
    return Success(gqlClassificationItems);
  }

  /** The body both loops share: an item whose article was not seen yet is converted and
      appended, and its article id recorded. */
  method MergeItem(ghost start: Merged, ghost cands: seq<ClassificationItem>, ghost n: nat,
                   classificationItem: ClassificationItem, articlesIDs: set<string>, gqlClassificationItems: Slice<GraphModel.ClassificationItem>)
      returns (seen: set<string>, emitted: Slice<GraphModel.ClassificationItem>)
    requires n < |cands| && cands[n] == classificationItem && classificationItem.article.Some?
    requires MergedAt(start, cands, n, articlesIDs, Elements(gqlClassificationItems)) && Appended(gqlClassificationItems)
    ensures MergedAt(start, cands, n + 1, seen, Elements(emitted)) && Appended(emitted)
  {
    seen, emitted := articlesIDs, gqlClassificationItems;
    if classificationItem.article.value.id !in articlesIDs {
      emitted := Append(emitted, ItemToGql(classificationItem));
      seen := seen + {classificationItem.article.value.id};
    }
  }

  /** Once the merge has panicked, it stays failed. */
  lemma {:induction false} MergeFailureSticks(start: Merged, cands: seq<ClassificationItem>, n: nat)
    requires n <= |cands| && MergeFrom(start, cands, n).Failure?
    ensures MergeFrom(start, cands, |cands|) == MergeFrom(start, cands, n)
    decreases |cands| - n
  {
    if n < |cands| {
      MergeFailureSticks(start, cands, n + 1);
    }
  }

  /** A nil article panics, and the merge returns that failure. */
  lemma NilArticleFails(start: Merged, cands: seq<ClassificationItem>, n: nat, seen: set<string>, emitted: seq<GraphModel.ClassificationItem>)
    requires n < |cands| && MergedAt(start, cands, n, seen, emitted) && cands[n].article.None?
    ensures MergeFrom(start, cands, |cands|) == Failure(NilDereference)
  {
    MergeFailureSticks(start, cands, n + 1);
  }

  /** The merge panics exactly when some candidate has a nil article. */
  lemma {:induction false} MergeFailsOnNilArticle(start: Merged, cands: seq<ClassificationItem>, n: nat)
    requires n <= |cands|
    ensures MergeFrom(start, cands, n).Failure? <==> exists k :: 0 <= k < n && cands[k].article.None?
    decreases n
  {
    if n > 0 {
      MergeFailsOnNilArticle(start, cands, n - 1);
    }
  }

  /** Merging a longer list agrees with merging the list itself on its own candidates. */
  lemma {:induction false} MergePrefix(start: Merged, a: seq<ClassificationItem>, b: seq<ClassificationItem>, n: nat)
    requires n <= |a|
    ensures MergeFrom(start, a + b, n) == MergeFrom(start, a, n)
    decreases n
  {
    if n > 0 {
      MergePrefix(start, a, b, n - 1);
      assert (a + b)[n - 1] == a[n - 1];
    }
  }

  /** Merging `a + b` up to candidate `k = |a| + n` is merging `a` and going on with the first
      `n` candidates of `b` from where it ended. */
  lemma {:induction false} MergeConcat(start: Merged, mid: Merged, a: seq<ClassificationItem>, b: seq<ClassificationItem>, n: nat, k: nat)
    requires n <= |b| && k == |a| + n && MergeFrom(start, a, |a|) == Success(mid)
    ensures MergeFrom(start, a + b, k) == MergeFrom(mid, b, n)
    decreases n
  {
    if n == 0 {
      MergePrefix(start, a, b, |a|);
    } else {
      MergeConcat(start, mid, a, b, n - 1, k - 1);
      assert (a + b)[k - 1] == b[n - 1];
    }
  }

  /** Merging `a + b` is merging `a` and, unless that panicked, going on with `b`. */
  lemma MergeOfConcat(a: seq<ClassificationItem>, b: seq<ClassificationItem>)
    ensures MergeFrom(Empty, a + b, |a| + |b|) ==
      if MergeFrom(Empty, a, |a|).Success? then MergeFrom(MergeFrom(Empty, a, |a|).value, b, |b|) else MergeFrom(Empty, a, |a|)
  {
    var r1 := MergeFrom(Empty, a, |a|);
    if r1.Success? {
      MergeConcat(Empty, r1.value, a, b, |b|, |a| + |b|);
    } else {
      MergePrefix(Empty, a, b, |a|);
      MergeFailureSticks(Empty, a + b, |a|);
      assert |a + b| == |a| + |b|;
    }
  }

  /** The two loops together are one merge over all the candidates. */
  lemma SpecIsOneMerge(qas: seq<QA>, items: seq<ClassificationItem>)
    ensures ClassificationItemsSpec(qas, items) == Outcome(MergeFrom(Empty, Candidates(qas, items), |qas| + |items|))
  {
    MergeOfConcat(Proposals(qas), items);
  }

  /** The article ids of the emitted items. */
  function EmittedIds(out: seq<GraphModel.ClassificationItem>): set<string>
  {
    set p | 0 <= p < |out| :: out[p].article.id
  }

  /** No two emitted items share an article id. */
  predicate DistinctArticles(out: seq<GraphModel.ClassificationItem>)
  {
    forall p, q :: 0 <= p < q < |out| ==> out[p].article.id != out[q].article.id
  }

  /** What holds of the merge state: the ids seen are those of the items emitted, no two of
      which share an article. */
  predicate MergeInvariant(m: Merged)
  {
    m.seen == EmittedIds(m.emitted) && DistinctArticles(m.emitted)
  }

  /** One item with a new article id keeps the invariant. */
  lemma {:induction false} MergeInvariantStep(m: Merged, c: ClassificationItem)
    requires MergeInvariant(m) && c.article.Some? && c.article.value.id !in m.seen
    ensures MergeInvariant(Merged(m.seen + {c.article.value.id}, m.emitted + [ItemToGql(c)]))
  {
    var out := m.emitted + [ItemToGql(c)];
    var x := c.article.value.id;
    forall y | y in m.seen + {x}
      ensures y in EmittedIds(out)
    {
      if y == x {
        assert out[|out| - 1].article.id == y;
      } else {
        var p :| 0 <= p < |m.emitted| && m.emitted[p].article.id == y;
        assert out[p].article.id == y;
      }
    }
    forall y | y in EmittedIds(out)
      ensures y in m.seen + {x}
    {
      var p :| 0 <= p < |out| && out[p].article.id == y;
      if p < |out| - 1 {
        assert m.emitted[p].article.id == y;
      }
    }
    forall p, q | 0 <= p < q < |out|
      ensures out[p].article.id != out[q].article.id
    {
      if q < |out| - 1 {
        assert out[p] == m.emitted[p] && out[q] == m.emitted[q];
      } else {
        assert out[p] == m.emitted[p];
      }
    }
  }

  /** After `n` candidates the invariant holds, every candidate so far has its article among
      those seen, and nothing was emitted only when there was no candidate. */
  lemma {:induction false} MergeSeen(cands: seq<ClassificationItem>, n: nat)
    requires n <= |cands| && MergeFrom(Empty, cands, n).Success?
    ensures MergeInvariant(MergeFrom(Empty, cands, n).value)
    ensures MergeFrom(Empty, cands, n).value.emitted == [] <==> n == 0
    ensures forall k :: 0 <= k < n ==> ArticleId(cands[k]) in MergeFrom(Empty, cands, n).value.seen
    decreases n
  {
    if n == 0 {
      assert EmittedIds([]) == {};
    } else {
      MergeSeen(cands, n - 1);
      var m := MergeFrom(Empty, cands, n - 1).value;
      var c := cands[n - 1];
      if c.article.value.id !in m.seen {
        MergeInvariantStep(m, c);
      } else {
        assert c.article.value.id in EmittedIds(m.emitted);
      }
    }
  }

  /** `origin[p]` is the candidate item `p` of `out` was emitted for: the candidates named are in
      increasing order, each is the first with its article id, and each item is its conversion. */
  predicate Origins(cands: seq<ClassificationItem>, out: seq<GraphModel.ClassificationItem>, origin: seq<nat>, n: nat)
  {
    |origin| == |out|
    && (forall p, q :: 0 <= p < q < |origin| ==> origin[p] < origin[q])
    && (forall p :: 0 <= p < |origin| ==> origin[p] < n <= |cands| && cands[origin[p]].article.Some? && out[p] == ItemToGql(cands[origin[p]]))
    && (forall p, j :: 0 <= p < |origin| && 0 <= j < origin[p] ==> ArticleId(cands[j]) != ArticleId(cands[origin[p]]))
  }

  /** The merge emits, in candidate order, the first candidate of each article id. */
  lemma {:induction false} MergeKeepsFirstOfEachArticle(cands: seq<ClassificationItem>, n: nat)
    requires n <= |cands| && MergeFrom(Empty, cands, n).Success?
    ensures exists origin :: Origins(cands, MergeFrom(Empty, cands, n).value.emitted, origin, n)
    decreases n
  {
    if n == 0 {
      assert Origins(cands, [], [], 0);
    } else {
      var last := n - 1;
      MergeKeepsFirstOfEachArticle(cands, last);
      MergeSeen(cands, last);
      var m := MergeFrom(Empty, cands, last).value;
      var origin :| Origins(cands, m.emitted, origin, last);
      if cands[last].article.value.id in m.seen {
        OriginsWiden(cands, m.emitted, origin, last, n);
      } else {
        OriginsExtend(cands, m.emitted, origin, last, n, m.seen);
      }
    }
  }

  /** A skipped candidate leaves the origins as they are. */
  lemma OriginsWiden(cands: seq<ClassificationItem>, out: seq<GraphModel.ClassificationItem>, origin: seq<nat>, n: nat, n': nat)
    requires Origins(cands, out, origin, n) && n <= n' <= |cands|
    ensures Origins(cands, out, origin, n')
  {
  }

  /** A candidate whose article id was not seen before is the first with it. */
  lemma OriginsExtend(cands: seq<ClassificationItem>, out: seq<GraphModel.ClassificationItem>, origin: seq<nat>, n: nat, n': nat, seen: set<string>)
    requires n < |cands| && n' == n + 1 && Origins(cands, out, origin, n)
    requires forall j :: 0 <= j < n ==> ArticleId(cands[j]) in seen
    requires cands[n].article.Some? && ArticleId(cands[n]) !in seen
    ensures Origins(cands, out + [ItemToGql(cands[n])], origin + [n], n')
  {
    var origin' := origin + [n];
    forall p, j | 0 <= p < |origin'| && 0 <= j < origin'[p]
      ensures ArticleId(cands[j]) != ArticleId(cands[origin'[p]])
    {
      if p < |origin| {
        assert origin'[p] == origin[p];
      }
    }
  }

  /** The article ids of the QAs. */
  function QaArticleIds(qas: seq<QA>): set<string>
  {
    set k | 0 <= k < |qas| && qas[k].article.Some? :: qas[k].article.value.id
  }

  /** Some candidate has a nil article. */
  predicate HasNilArticle(cands: seq<ClassificationItem>)
  {
    exists k :: 0 <= k < |cands| && cands[k].article.None?
  }

  /** A nil article is in `a + b` exactly when it is in `a` or in `b`. */
  lemma NilArticleInConcat(a: seq<ClassificationItem>, b: seq<ClassificationItem>)
    ensures HasNilArticle(a + b) <==> HasNilArticle(a) || HasNilArticle(b)
  {
    if HasNilArticle(a) {
      var k :| 0 <= k < |a| && a[k].article.None?;
      assert (a + b)[k] == a[k];
    }
    if HasNilArticle(b) {
      var k :| 0 <= k < |b| && b[k].article.None?;
      assert (a + b)[|a| + k] == b[k];
    }
    if HasNilArticle(a + b) {
      var k :| 0 <= k < |a + b| && (a + b)[k].article.None?;
      if k < |a| {
        assert (a + b)[k] == a[k];
      } else {
        assert (a + b)[k] == b[k - |a|];
      }
    }
  }

  /** The item proposed for a QA has a nil article exactly when the QA has. */
  lemma NilArticleInProposals(qas: seq<QA>)
    ensures HasNilArticle(Proposals(qas)) <==> exists k :: 0 <= k < |qas| && qas[k].article.None?
  {
    var ps := Proposals(qas);
    if exists k :: 0 <= k < |qas| && qas[k].article.None? {
      var k :| 0 <= k < |qas| && qas[k].article.None?;
      assert ps[k].article.None?;
    }
  }

  /** It fails exactly when some QA or stored item has a nil article. */
  lemma ClassificationItemsFailure(qas: seq<QA>, items: seq<ClassificationItem>)
    ensures ClassificationItemsSpec(qas, items).Failure? <==>
      (exists k :: 0 <= k < |qas| && qas[k].article.None?) || (exists k :: 0 <= k < |items| && items[k].article.None?)
  {
    var cands := Candidates(qas, items);
    SpecIsOneMerge(qas, items);
    MergeFailsOnNilArticle(Empty, cands, |cands|);
    assert HasNilArticle(cands) <==> MergeFrom(Empty, cands, |cands|).Failure?;
    NilArticleInConcat(Proposals(qas), items);
    NilArticleInProposals(qas);
  }

  /** On success, no two items share an article, the article of every QA is among them, and
      the slice is nil exactly when there was neither a QA nor a stored item. */
  lemma ClassificationItemsCoverQAs(qas: seq<QA>, items: seq<ClassificationItem>)
    requires ClassificationItemsSpec(qas, items).Success?
    ensures var out := Elements(ClassificationItemsSpec(qas, items).value);
      DistinctArticles(out)
      && forall k :: 0 <= k < |qas| ==> qas[k].article.Some? && exists p :: 0 <= p < |out| && out[p].article.id == qas[k].article.value.id
    ensures ClassificationItemsSpec(qas, items).value.Nil? <==> qas == [] && items == []
  {
    var cands := Candidates(qas, items);
    SpecIsOneMerge(qas, items);
    var m := MergeFrom(Empty, cands, |cands|).value;
    MergeSeen(cands, |cands|);
    ClassificationItemsFailure(qas, items);
    forall k | 0 <= k < |qas|
      ensures qas[k].article.Some? && exists p :: 0 <= p < |m.emitted| && m.emitted[p].article.id == qas[k].article.value.id
    {
      assert cands[k] == Proposed(qas[k]);
      assert ArticleId(cands[k]) in EmittedIds(m.emitted);
    }
  }

  /** On success, the items for QA articles are the positive ones the first loop made, keyed by
      their article id, and they come before all the others. */
  lemma ClassificationItemsPutQAsFirst(qas: seq<QA>, items: seq<ClassificationItem>)
    requires ClassificationItemsSpec(qas, items).Success?
    ensures var out := Elements(ClassificationItemsSpec(qas, items).value);
      (forall p :: 0 <= p < |out| && out[p].article.id in QaArticleIds(qas) ==>
        out[p].classification == Positive && out[p].id == out[p].article.id)
      && (forall p, q :: 0 <= p < q < |out| && out[q].article.id in QaArticleIds(qas) ==> out[p].article.id in QaArticleIds(qas))
  {
    var cands := Candidates(qas, items);
    SpecIsOneMerge(qas, items);
    var out := MergeFrom(Empty, cands, |cands|).value.emitted;
    MergeKeepsFirstOfEachArticle(cands, |cands|);
    var origin :| Origins(cands, out, origin, |cands|);
    forall p | 0 <= p < |out|
      ensures out[p].article.id in QaArticleIds(qas) <==> origin[p] < |qas|
      ensures origin[p] < |qas| ==> out[p].classification == Positive && out[p].id == out[p].article.id
    {
      OriginInQAs(qas, items, out, origin, p);
    }
  }

  /** An emitted item has a QA's article exactly when it was emitted for a QA, and then it is
      that QA's positive item. */
  lemma OriginInQAs(qas: seq<QA>, items: seq<ClassificationItem>, out: seq<GraphModel.ClassificationItem>, origin: seq<nat>, p: nat)
    requires Origins(Candidates(qas, items), out, origin, |qas| + |items|) && p < |out|
    ensures out[p].article.id in QaArticleIds(qas) <==> origin[p] < |qas|
    ensures origin[p] < |qas| ==> out[p].classification == Positive && out[p].id == out[p].article.id
  {
    var cands := Candidates(qas, items);
    if out[p].article.id in QaArticleIds(qas) {
      var k :| 0 <= k < |qas| && qas[k].article.Some? && qas[k].article.value.id == out[p].article.id;
      assert cands[k] == Proposed(qas[k]);
      assert ArticleId(cands[k]) == ArticleId(cands[origin[p]]);
    }
    if origin[p] < |qas| {
      assert cands[origin[p]] == Proposed(qas[origin[p]]);
    }
  }

  // ----- GetStatistics -----

  /** `math.MaxInt32`, where the shortest answer length starts. */
  const MaxInt32 := 0x7FFF_FFFF

  datatype Statistics = Statistics(
    diseaseCount: int,
    articlesCount: int,
    qasCount: int,
    positiveClassificationItemsCount: int,
    totalPositiveClassificationItemsCount: int,
    negativeClassificationItemsCount: int,
    qasShortestAnswerLength: int,
    qasLongestAnswerLength: int)

  /** The number of items with the label. */
  function CountLabel(items: seq<ClassificationItem>, l: int): (c: nat)
    ensures c <= |items|
  {
    if items == [] then 0
    else CountLabel(items[..|items| - 1], l) + (if items[|items| - 1].classification == l then 1 else 0)
  }

  /** The byte lengths of the answers' texts, in order. */
  function AnswerLengths(answers: seq<Answer>): (r: seq<nat>)
    ensures |r| == |answers|
    ensures forall k :: 0 <= k < |answers| ==> r[k] == ByteLen(answers[k].text)
  {
    seq(|answers|, k requires 0 <= k < |answers| => ByteLen(answers[k].text))
  }

  /** The byte lengths of the answers of the questions, question by question. */
  function QuestionLengths(questions: seq<Question>): seq<nat>
  {
    if questions == [] then []
    else QuestionLengths(questions[..|questions| - 1]) + AnswerLengths(Elements(questions[|questions| - 1].answers))
  }

  /** The byte lengths of all the answers of all the QAs, QA by QA. */
  function QALengths(qas: seq<QA>): seq<nat>
  {
    if qas == [] then []
    else QALengths(qas[..|qas| - 1]) + QuestionLengths(Elements(qas[|qas| - 1].questions))
  }

  /** `shortest` and `longest` bound the lengths `seen`; each is one of them, unless it is still
      its starting value. */
  predicate Extremes(seen: seq<nat>, shortest: int, longest: int)
  {
    (forall x :: x in seen ==> shortest <= x <= longest)
    && (shortest == MaxInt32 || shortest in seen) && shortest <= MaxInt32
    && (longest == 0 || longest in seen) && 0 <= longest
  }

  lemma ExtremesSnoc(seen: seq<nat>, shortest: int, longest: int, x: nat)
    requires Extremes(seen, shortest, longest)
    ensures Extremes(seen + [x], if x < shortest then x else shortest, if x > longest then x else longest)
  {
  }

  /** `GetStatistics` after the queries: the counts Mongo returns are parameters. */
  method GetStatistics(diseasesCount: int, classificationItems: seq<ClassificationItem>, qasCount: int, qas: seq<QA>, articlesCount: int)
      returns (s: Statistics)
    ensures s.diseaseCount == diseasesCount && s.articlesCount == articlesCount && s.qasCount == qasCount
    ensures s.positiveClassificationItemsCount == CountLabel(classificationItems, Positive)
    ensures s.negativeClassificationItemsCount == CountLabel(classificationItems, Negative)
    ensures s.totalPositiveClassificationItemsCount == s.positiveClassificationItemsCount + qasCount
    ensures Extremes(QALengths(qas), s.qasShortestAnswerLength, s.qasLongestAnswerLength)
  {
    var positive, negative := CountLabels(classificationItems);
    var shortestAnswer, longestAnswer := MaxInt32, 0;
    for i := 0 to |qas|
      invariant Extremes(QALengths(qas[..i]), shortestAnswer, longestAnswer)
    {
      ghost var before := QALengths(qas[..i]);
      shortestAnswer, longestAnswer := ScanQuestions(Elements(qas[i].questions), before, shortestAnswer, longestAnswer);
      assert qas[..i + 1][..i] == qas[..i];
    }
    assert qas[..|qas|] == qas;
    return Statistics(diseasesCount, articlesCount, qasCount, positive, positive + qasCount, negative, shortestAnswer, longestAnswer);
  }

  /** The loop that counts the stored items by label; any other label is not counted. */
  method CountLabels(classificationItems: seq<ClassificationItem>) returns (positive: nat, negative: nat)
    ensures positive == CountLabel(classificationItems, Positive)
    ensures negative == CountLabel(classificationItems, Negative)
  {
    positive, negative := 0, 0;
    for i := 0 to |classificationItems|
      invariant positive == CountLabel(classificationItems[..i], Positive)
      invariant negative == CountLabel(classificationItems[..i], Negative)
    {
      assert classificationItems[..i + 1][..i] == classificationItems[..i];
      var l := classificationItems[i].classification;
      if l == Positive {
        positive := positive + 1;
      } else if l == Negative {
        negative := negative + 1;
      }
    }
    assert classificationItems[..|classificationItems|] == classificationItems;
  }

  /** The loop over the questions of one QA, from the extremes of the lengths `seen` before. */
  method ScanQuestions(questions: seq<Question>, ghost seen: seq<nat>, shortest: int, longest: int)
      returns (shortest': int, longest': int)
    requires Extremes(seen, shortest, longest)
    ensures Extremes(seen + QuestionLengths(questions), shortest', longest')
  {
    shortest', longest' := shortest, longest;
    for j := 0 to |questions|
      invariant Extremes(seen + QuestionLengths(questions[..j]), shortest', longest')
    {
      ghost var done := seen + QuestionLengths(questions[..j]);
      var answers := Elements(questions[j].answers);
      shortest', longest' := ScanAnswers(answers, done, shortest', longest');
      QuestionLengthsSnoc(questions, j);
      AppendAssoc(seen, QuestionLengths(questions[..j]), AnswerLengths(answers));
    }
    assert questions[..|questions|] == questions;
  }

  /** The lengths of one more question: those of its answers follow. */
  lemma QuestionLengthsSnoc(questions: seq<Question>, j: nat)
    requires j < |questions|
    ensures QuestionLengths(questions[..j + 1]) == QuestionLengths(questions[..j]) + AnswerLengths(Elements(questions[j].answers))
  {
    assert questions[..j + 1][..j] == questions[..j];
  }

  lemma AppendAssoc<T>(a: seq<T>, b: seq<T>, c: seq<T>)
    ensures a + b + c == a + (b + c)
  {
  }

  /** The loop over the answers of one question: each byte length lowers the shortest or
      raises the longest. */
  method ScanAnswers(answers: seq<Answer>, ghost seen: seq<nat>, shortest: int, longest: int)
      returns (shortest': int, longest': int)
    requires Extremes(seen, shortest, longest)
    ensures Extremes(seen + AnswerLengths(answers), shortest', longest')
  {
    shortest', longest' := shortest, longest;
    for k := 0 to |answers|
      invariant Extremes(seen + AnswerLengths(answers[..k]), shortest', longest')
    {
      var length := ByteLen(answers[k].text);
      ExtremesSnoc(seen + AnswerLengths(answers[..k]), shortest', longest', length);
      assert seen + AnswerLengths(answers[..k + 1]) == seen + AnswerLengths(answers[..k]) + [length];
      if length < shortest' {
        shortest' := length;
      }
      if length > longest' {
        longest' := length;
      }
    }
    assert answers[..|answers|] == answers;
  }

  /** An item is counted as positive, as negative, or (with any other label) not at all. */
  lemma {:induction false} CountsSplitItems(items: seq<ClassificationItem>)
    ensures CountLabel(items, Positive) + CountLabel(items, Negative) <= |items|
    ensures CountLabel(items, Positive) + CountLabel(items, Negative) == |items| <==>
      forall k :: 0 <= k < |items| ==> items[k].classification == Positive || items[k].classification == Negative
  {
    if items != [] {
      var front := items[..|items| - 1];
      CountsSplitItems(front);
      if forall k :: 0 <= k < |front| ==> front[k].classification == Positive || front[k].classification == Negative {
        forall k | 0 <= k < |items| - 1
          ensures items[k].classification == Positive || items[k].classification == Negative
        {
          assert items[k] == front[k];
        }
      } else {
        var k :| 0 <= k < |front| && front[k].classification != Positive && front[k].classification != Negative;
        assert items[k] == front[k];
      }
    }
  }

  /** With no answer at all, the lengths keep their starting values, `MaxInt32` and 0. */
  lemma NoAnswersGiveDefaults(shortest: int, longest: int)
    requires Extremes([], shortest, longest)
    ensures shortest == MaxInt32 && longest == 0
  {
  }

  /** With at least one answer, and lengths below `MaxInt32`, the two are the least and the
      greatest length. */
  lemma ExtremesAreMinAndMax(seen: seq<nat>, shortest: int, longest: int)
    requires Extremes(seen, shortest, longest) && seen != []
    requires forall x :: x in seen ==> x < MaxInt32
    ensures shortest in seen && longest in seen
    ensures forall x :: x in seen ==> shortest <= x <= longest
  {
    assert seen[0] in seen;
  }

  // ----- UpdateQA -----

  datatype AnswerInput = AnswerInput(answerStart: int, text: string)

  datatype QuestionInput = QuestionInput(text: string, answers: seq<AnswerInput>)

  datatype QAPatch = QAPatch(questions: seq<QuestionInput>)

  /** The answers built from the patch answers, copied one for one. */
  method CopyAnswers(inputs: seq<AnswerInput>) returns (answers: Slice<Answer>)
    ensures answers.Of? && |answers.items| == |inputs|
    ensures forall m :: 0 <= m < |inputs| ==> answers.items[m] == Answer(inputs[m].answerStart, inputs[m].text)
  {
    answers := Of([]);
    for m := 0 to |inputs|
      invariant answers.Of? && |answers.items| == m
      invariant forall n :: 0 <= n < m ==> answers.items[n] == Answer(inputs[n].answerStart, inputs[n].text)
    {
      answers := Append(answers, Answer(inputs[m].answerStart, inputs[m].text));
    }
  }

  /** `UpdateQA` once the QA is loaded: with no patch the QA is returned as it is; otherwise its
      questions are rebuilt from the patch, one for one and in order, each with a fresh id
      (`newId(k)` for question `k`, the `uuid.NewString()` calls) and with its answers copied in
      order; the id, the disease and the article stay. */
  method UpdateQA(qa: QA, patch: Option<QAPatch>, newId: nat -> string) returns (r: QA)
    ensures patch.None? ==> r == qa
    ensures r.id == qa.id && r.disease == qa.disease && r.article == qa.article
    ensures patch.Some? ==> r.questions.Of? && |r.questions.items| == |patch.value.questions|
    ensures patch.Some? ==> forall k :: 0 <= k < |patch.value.questions| ==>
      var q := r.questions.items[k];
      var input := patch.value.questions[k];
      q.id == newId(k) && q.text == input.text && q.answers.Of? && |q.answers.items| == |input.answers|
      && forall m :: 0 <= m < |input.answers| ==> q.answers.items[m] == Answer(input.answers[m].answerStart, input.answers[m].text)
  {
    if patch.None? {
      return qa;
    }
    var inputs := patch.value.questions;
    var questions: Slice<Question> := Of([]);
    for k := 0 to |inputs|
      invariant questions.Of? && |questions.items| == k
      invariant forall n :: 0 <= n < k ==>
        var q := questions.items[n];
        q.id == newId(n) && q.text == inputs[n].text && q.answers.Of? && |q.answers.items| == |inputs[n].answers|
        && forall m :: 0 <= m < |inputs[n].answers| ==> q.answers.items[m] == Answer(inputs[n].answers[m].answerStart, inputs[n].answers[m].text)
    {
      var answers := CopyAnswers(inputs[k].answers);
      questions := Append(questions, Question(newId(k), inputs[k].text, answers));
    }
    return qa.(questions := questions);
  }
}
