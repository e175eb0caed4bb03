/** The KEGG DISEASE flat-file reader (`kegg/diseases_fetcher.go`): `List` reads the ids of the
    disease list, `Fetch` reads one disease record. The HTTP body is given as its sequence of
    lines, as `bufio.Scanner` splits it. An index out of range in Go, which panics, is a
    `Failure` here. */
module Kegg {
  import opened Wrappers
  import opened GoStrings
  import opened Utils
  import GraphModel

  /** The record `Fetch` fills while it reads; a nil `DBLINKS` map is `None`. */
  datatype KeggDisease = KeggDisease(
    id: string,
    names: Slice<string>,
    dbLinks: Option<map<string, seq<string>>>,
    category: string,
    description: string)

  /** The zero value the reader starts from. */
  const Blank := KeggDisease("", Nil, None, "", "")

  /** Which loop of `Fetch` reads the next line: the outer dispatch, or the inner loop of a
      NAME or DBLINKS block. */
  datatype Block = TopLevel | NameBlock | LinksBlock

  datatype State = State(block: Block, disease: KeggDisease)

  // ----- One line, as the loops of `Fetch` look at it -----

  /** The keyword prefixes the outer loop tests, in the order it tests them. */
  datatype Keyword = Entry | Name | DbLinks | Category | Description | Other

  function KeywordOf(line: string): Keyword
  {
    if HasPrefix(line, "ENTRY") then Entry
    else if HasPrefix(line, "NAME") then Name
    else if HasPrefix(line, "DBLINKS") then DbLinks
    else if HasPrefix(line, "CATEGORY") then Category
    else if HasPrefix(line, "DESCRIPTION") then Description
    else Other
  }

  /** A name as stored: trimmed, with one trailing `;` removed. */
  function CleanName(s: string): string
  {
    TrimSuffix(TrimSpace(s), ";")
  }

  /** A line that ends a NAME block. */
  predicate EndsNames(line: string)
  {
    !HasPrefix(line, " ") || HasPrefix(line, "  SUBGROUP")
  }

  /** A line that ends a DBLINKS block. */
  predicate EndsLinks(line: string)
  {
    !HasPrefix(line, " ")
  }

  /** The first field after `ENTRY`; a line with none makes `[0]` panic. */
  function EntryId(line: string): Result<string>
  {
    var fields := Fields(TrimSpace(TrimPrefix(line, "ENTRY")));
    if |fields| == 0 then Failure(IndexOutOfRange) else Success(fields[0])
  }

  /** The key and values of an indented DBLINKS line: the text before its first `:`, and the
      fields after it. `None` for a line without `:`, where `parts[1]` panics. */
  function LinkOf(line: string): Option<(string, seq<string>)>
  {
    match Cut(TrimSpace(line), ':')
    case None => None
    case Some((key, values)) => Some((key, Fields(values)))
  }

  /** Everything the loops compute from one line. The NAME line and a continuation line get
      their name from the same expression: a continuation line does not start with `NAME`, so
      trimming that prefix leaves it as it is. */
  datatype LineView = LineView(
    keyword: Keyword,
    endsNames: bool,
    endsLinks: bool,
    id: Result<string>,
    name: string,
    link: Option<(string, seq<string>)>,
    category: string,
    description: string)

  function View(line: string): LineView
  {
    LineView(
      KeywordOf(line),
      EndsNames(line),
      EndsLinks(line),
      EntryId(line),
      CleanName(TrimPrefix(line, "NAME")),
      LinkOf(line),
      TrimSpace(TrimPrefix(line, "CATEGORY")),
      TrimSpace(TrimPrefix(line, "DESCRIPTION ")))
  }

  /** The view of every line, in order. */
  function Views(lines: seq<string>): (vs: seq<LineView>)
    ensures |vs| == |lines|
  {
    seq(|lines|, k requires 0 <= k < |lines| => View(lines[k]))
  }

  /** `views` holds the view of each line. The views are looked up one line at a time, through
      the lemmas below, so that a proof about one line does not unfold the others. */
  predicate ViewsOf(lines: seq<string>, views: seq<LineView>)
  {
    |views| == |lines| && forall k {:trigger View(lines[k])} :: 0 <= k < |lines| ==> views[k] == View(lines[k])
  }

  lemma ViewsOfViews(lines: seq<string>)
    ensures ViewsOf(lines, Views(lines))
  {
  }

  // The parts of the view of line `k` that one branch of the loops reads.

  lemma EndsView(lines: seq<string>, views: seq<LineView>, k: nat)
    requires ViewsOf(lines, views) && k < |lines|
    ensures views[k].endsNames == EndsNames(lines[k])
    ensures views[k].endsLinks == EndsLinks(lines[k])
  {
    assert views[k] == View(lines[k]);
  }

  lemma NameView(lines: seq<string>, views: seq<LineView>, k: nat)
    requires ViewsOf(lines, views) && k < |lines| && HasPrefix(lines[k], " ")
    ensures views[k].name == CleanName(lines[k])
  {
    assert views[k] == View(lines[k]);
    ContinuationName(lines[k]);
  }

  lemma LinkView(lines: seq<string>, views: seq<LineView>, k: nat)
    requires ViewsOf(lines, views) && k < |lines|
    ensures views[k].link == LinkOf(lines[k])
  {
    assert views[k] == View(lines[k]);
  }

  lemma EntryView(lines: seq<string>, views: seq<LineView>, k: nat)
    requires ViewsOf(lines, views) && k < |lines| && HasPrefix(lines[k], "ENTRY")
    ensures views[k].keyword == Entry && views[k].id == EntryId(lines[k])
  {
    assert views[k] == View(lines[k]);
  }

  lemma NameLineView(lines: seq<string>, views: seq<LineView>, k: nat)
    requires ViewsOf(lines, views) && k < |lines| && HasPrefix(lines[k], "NAME")
    ensures views[k].keyword == Name && views[k].name == CleanName(TrimPrefix(lines[k], "NAME"))
  {
    assert views[k] == View(lines[k]);
    KeywordsExclusive(lines[k]);
  }

  lemma DbLinksView(lines: seq<string>, views: seq<LineView>, k: nat)
    requires ViewsOf(lines, views) && k < |lines| && HasPrefix(lines[k], "DBLINKS")
    ensures views[k].keyword == DbLinks
  {
    assert views[k] == View(lines[k]);
    KeywordsExclusive(lines[k]);
  }

  lemma CategoryView(lines: seq<string>, views: seq<LineView>, k: nat)
    requires ViewsOf(lines, views) && k < |lines| && HasPrefix(lines[k], "CATEGORY")
    ensures views[k].keyword == Category && views[k].category == TrimSpace(TrimPrefix(lines[k], "CATEGORY"))
  {
    assert views[k] == View(lines[k]);
    KeywordsExclusive(lines[k]);
  }

  lemma DescriptionView(lines: seq<string>, views: seq<LineView>, k: nat)
    requires ViewsOf(lines, views) && k < |lines| && HasPrefix(lines[k], "DESCRIPTION")
    ensures views[k].keyword == Description
    ensures views[k].description == TrimSpace(TrimPrefix(lines[k], "DESCRIPTION "))
  {
    assert views[k] == View(lines[k]);
    KeywordsExclusive(lines[k]);
  }

  lemma OtherView(lines: seq<string>, views: seq<LineView>, k: nat)
    requires ViewsOf(lines, views) && k < |lines|
    requires !HasPrefix(lines[k], "ENTRY") && !HasPrefix(lines[k], "NAME") && !HasPrefix(lines[k], "DBLINKS")
    requires !HasPrefix(lines[k], "CATEGORY") && !HasPrefix(lines[k], "DESCRIPTION")
    ensures views[k].keyword == Other
  {
    assert views[k] == View(lines[k]);
  }

  // ----- The reading, one line at a time -----

  /** The links read so far; a nil map reads as empty. */
  function Links(d: KeggDisease): (m: map<string, seq<string>>)
    ensures d.dbLinks.Some? ==> m == d.dbLinks.value
    ensures d.dbLinks.None? ==> m == map[]
  {
    if d.dbLinks.Some? then d.dbLinks.value else map[]
  }

  /** The outer loop's dispatch on one line. */
  function Dispatch(v: LineView, d: KeggDisease): Result<State>
  {
    match v.keyword
    case Entry =>
      (match v.id
       case Failure(e) => Failure(e)
       case Success(id) => Success(State(TopLevel, d.(id := id))))
    case Name => Success(State(NameBlock, d.(names := Append(d.names, v.name))))
    case DbLinks => Success(State(LinksBlock, d.(dbLinks := Some(map[]))))
    case Category => Success(State(TopLevel, d.(category := v.category)))
    case Description => Success(State(TopLevel, d.(description := v.description)))
    case Other => Success(State(TopLevel, d))
  }

  /** One line read in state `st`. A line that ends a block is consumed by the inner loop and
      is not dispatched. */
  function Step(st: State, v: LineView): Result<State>
  {
    match st.block
    case TopLevel => Dispatch(v, st.disease)
    case NameBlock =>
      if v.endsNames then Success(State(TopLevel, st.disease))
      else Success(State(NameBlock, st.disease.(names := Append(st.disease.names, v.name))))
    case LinksBlock =>
      if v.endsLinks then Success(State(TopLevel, st.disease))
      else
        match v.link
        case None => Failure(IndexOutOfRange)
        case Some((key, values)) => Success(State(LinksBlock, st.disease.(dbLinks := Some(Links(st.disease)[key := values]))))
  }

  /** The state after reading the first `n` lines; the first panic ends the reading. */
  function Scan(views: seq<LineView>, n: nat): Result<State>
    requires n <= |views|
  {
    if n == 0 then Success(State(TopLevel, Blank))
    else
      match Scan(views, n - 1)
      case Failure(e) => Failure(e)
      case Success(st) => Step(st, views[n - 1])
  }

  /** Once the first `n - 1` lines are read, line `n - 1` takes one step. */
  lemma ScanStep(views: seq<LineView>, n: nat)
    requires 0 < n <= |views| && Scan(views, n - 1).Success?
    ensures Scan(views, n) == Step(Scan(views, n - 1).value, views[n - 1])
  {
  }

  /** `disease.DBLinks[key]`: a missing key, or a nil map, gives a nil slice. */
  function Lookup(m: Option<map<string, seq<string>>>, key: string): (r: Slice<string>)
    ensures r.Of? <==> m.Some? && key in m.value
    ensures r.Of? ==> r.items == m.value[key]
  {
    if m.Some? && key in m.value then Of(m.value[key]) else Nil
  }

  /** The disease `Fetch` returns for the record read. */
  function ToDisease(d: KeggDisease): (g: GraphModel.Disease)
    ensures g.id == d.id && g.names == d.names && g.category == d.category && g.description == d.description
    ensures g.dbLinks == Some(GraphModel.DiseaseDBLinks(Lookup(d.dbLinks, "ICD-10"), Lookup(d.dbLinks, "ICD-11"), Lookup(d.dbLinks, "MeSH")))
  {
    GraphModel.Disease(
      d.id,
      d.names,
      Some(GraphModel.DiseaseDBLinks(Lookup(d.dbLinks, "ICD-10"), Lookup(d.dbLinks, "ICD-11"), Lookup(d.dbLinks, "MeSH"))),
      d.category,
      d.description)
  }

  /** What `Fetch` returns for the lines of a record. */
  function FetchSpec(lines: seq<string>): Result<GraphModel.Disease>
  {
    match Scan(Views(lines), |lines|)
    case Failure(e) => Failure(e)
    case Success(st) => Success(ToDisease(st.disease))
  }

  /** Once a line has panicked, so has the whole reading. */
  lemma {:induction false} FailureSticks(views: seq<LineView>, n: nat)
    requires n <= |views|
    requires Scan(views, n).Failure?
    ensures Scan(views, |views|) == Scan(views, n)
    decreases |views| - n
  {
    if n < |views| {
      FailureSticks(views, n + 1);
    }
  }

  /** The state after `n` lines depends on those lines only. */
  lemma {:induction false} ScanReadsPrefix(views: seq<LineView>, other: seq<LineView>, n: nat)
    requires n <= |views| && n <= |other|
    requires views[..n] == other[..n]
    ensures Scan(views, n) == Scan(other, n)
  {
    if n > 0 {
      assert views[n - 1] == views[..n][n - 1] == other[..n][n - 1] == other[n - 1];
      assert views[..n - 1] == views[..n][..n - 1];
      assert other[..n - 1] == other[..n][..n - 1];
      ScanReadsPrefix(views, other, n - 1);
    }
  }

  // ----- The methods -----

  /** `Fetch`: reads the record and builds the disease from it. */
  method Fetch(lines: seq<string>) returns (r: Result<GraphModel.Disease>)
    ensures r == FetchSpec(lines)
  {
    ViewsOfViews(lines);
    r := ReadRecord(lines, Views(lines));
  }

  /** The scanner loop of `Fetch`, which hands a NAME or DBLINKS block to its inner loop. */
  method ReadRecord(lines: seq<string>, ghost views: seq<LineView>) returns (r: Result<GraphModel.Disease>)
    requires ViewsOf(lines, views)
    ensures r == (match Scan(views, |lines|) case Failure(e) => Failure(e) case Success(st) => Success(ToDisease(st.disease)))
  {
    var disease := Blank;
    var i := 0;
    ghost var block := TopLevel;
    while i < |lines|
      invariant 0 <= i <= |lines|
      invariant Scan(views, i) == Success(State(block, disease))
      invariant block == TopLevel || i == |lines|
      decreases |lines| - i
    {
      var line := lines[i];
      i := i + 1;
      ScanStep(views, i);
      if HasPrefix(line, "ENTRY") {
        EntryView(lines, views, i - 1);
        var fields := Fields(TrimSpace(TrimPrefix(line, "ENTRY")));
        if |fields| == 0 {
          FailureSticks(views, i);
          return Failure(IndexOutOfRange);
        }
        disease := disease.(id := fields[0]);
      } else if HasPrefix(line, "NAME") {
        NameLineView(lines, views, i - 1);
        var name := TrimSuffix(TrimSpace(TrimPrefix(line, "NAME")), ";");
        disease := disease.(names := Append(disease.names, name));
        i, disease, block := ReadNames(lines, views, i, disease);
      } else if HasPrefix(line, "DBLINKS") {
        DbLinksView(lines, views, i - 1);
        disease := disease.(dbLinks := Some(map[]));
        var failed;
        i, disease, block, failed := ReadLinks(lines, views, i, disease);
        if failed {
          return Failure(IndexOutOfRange);
        }
      } else if HasPrefix(line, "CATEGORY") {
        CategoryView(lines, views, i - 1);
        disease := disease.(category := TrimSpace(TrimPrefix(line, "CATEGORY")));
      } else if HasPrefix(line, "DESCRIPTION") {
        DescriptionView(lines, views, i - 1);
        disease := disease.(description := TrimSpace(TrimPrefix(line, "DESCRIPTION ")));
      } else {
        OtherView(lines, views, i - 1);
      }
    }
    return Success(ToDisease(disease));
  }

  /** The inner loop of a NAME block, from line `start` on: it appends a name per continuation
      line and stops after the line that ends the block, or at the end of the input. */
  method ReadNames(lines: seq<string>, ghost views: seq<LineView>, start: nat, d: KeggDisease)
      returns (i: nat, disease: KeggDisease, ghost block: Block)
    requires ViewsOf(lines, views) && start <= |lines|
    requires Scan(views, start) == Success(State(NameBlock, d))
    requires d.names.Of?
    ensures start <= i <= |lines|
    ensures Scan(views, i) == Success(State(block, disease))
    ensures block == TopLevel || i == |lines|
  {
    i, disease, block := start, d, NameBlock;
    while i < |lines|
      invariant start <= i <= |lines|
      invariant InNames(views, start, i)
      invariant disease == d.(names := Of(NamesAfter(d.names.items, views, start, i)))
      decreases |lines| - i
    {
      var subLine := lines[i];
      i := i + 1;
      if !HasPrefix(subLine, " ") || HasPrefix(subLine, "  SUBGROUP") {
        NameLineEnds(lines, views, start, i - 1, d);
        block := TopLevel;
        return;
      }
      NameLineAppends(lines, views, start, i - 1, d.names.items);
      subLine := TrimSuffix(TrimSpace(subLine), ";");
      disease := disease.(names := Append(disease.names, subLine));
    }
    NameLinesAppend(views, start, i, d);
  }

  /** The inner loop of a DBLINKS block, from line `start` on: it writes one key per indented
      line and stops after the first unindented line, or at the end of the input; `failed`
      reports a line without `:`, where Go panics. */
  method ReadLinks(lines: seq<string>, ghost views: seq<LineView>, start: nat, d: KeggDisease)
      returns (i: nat, disease: KeggDisease, ghost block: Block, failed: bool)
    requires ViewsOf(lines, views) && start <= |lines|
    requires d.dbLinks == Some(map[])
    requires Scan(views, start) == Success(State(LinksBlock, d))
    ensures failed ==> Scan(views, |lines|) == Failure(IndexOutOfRange)
    ensures !failed ==> start <= i <= |lines| && Scan(views, i) == Success(State(block, disease))
    ensures !failed ==> block == TopLevel || i == |lines|
  {
    var links := d.dbLinks.value;
    i, disease, block, failed := start, d, LinksBlock, false;
    while i < |lines|
      invariant start <= i <= |lines|
      invariant InLinks(views, start, i)
      invariant links == LinksAfter(views, start, i)
      invariant disease == d.(dbLinks := Some(links))
      decreases |lines| - i
    {
      var subLine := lines[i];
      i := i + 1;
      EndsView(lines, views, i - 1);
      LinkView(lines, views, i - 1);
      if !HasPrefix(subLine, " ") {
        LinksBlockEnds(views, start, i - 1, d);
        block := TopLevel;
        return;
      }
      subLine := TrimSpace(subLine);
      var parts := Cut(subLine, ':');
      if parts.None? {
        LinkLinesFill(views, start, i - 1, d);
        LinkLineWithoutColon(views, i - 1, disease);
        FailureSticks(views, i);
        return i, disease, block, true;
      }
      links := links[parts.value.0 := Fields(parts.value.1)];
      disease := disease.(dbLinks := Some(links));
    }
    LinkLinesFill(views, start, i, d);
  }

  /** `List`: the first field of every line, in line order; a blank line makes `[0]` panic.
      With no line at all the result is a nil slice. */
  method List(lines: seq<string>) returns (r: Result<Slice<string>>)
    ensures r.Failure? <==> exists k :: 0 <= k < |lines| && Fields(lines[k]) == []
    ensures r.Success? ==> (r.value.Nil? <==> lines == [])
    ensures r.Success? ==> |Elements(r.value)| == |lines|
    ensures r.Success? ==> forall k :: 0 <= k < |lines| ==> Elements(r.value)[k] == Fields(lines[k])[0]
  {
    var ids: Slice<string> := Nil;
    for i := 0 to |lines|
      invariant ids.Nil? <==> i == 0
      invariant |Elements(ids)| == i
      invariant forall k :: 0 <= k < i ==> Fields(lines[k]) != [] && Elements(ids)[k] == Fields(lines[k])[0]
    {
      var fields := Fields(lines[i]);
      if |fields| == 0 {
        return Failure(IndexOutOfRange);
      }
      ids := Append(ids, fields[0]);
    }
    return Success(ids);
  }

  // ----- The keyword lines -----

  /** The keywords the dispatch tests exclude each other, and an indented line starts with
      none of them. */
  lemma KeywordsExclusive(line: string)
    ensures HasPrefix(line, "NAME") ==> !HasPrefix(line, "ENTRY")
    ensures HasPrefix(line, "DBLINKS") ==> !HasPrefix(line, "ENTRY") && !HasPrefix(line, "NAME")
    ensures HasPrefix(line, "CATEGORY") ==> !HasPrefix(line, "ENTRY") && !HasPrefix(line, "NAME") && !HasPrefix(line, "DBLINKS")
    ensures HasPrefix(line, "DESCRIPTION") ==>
      !HasPrefix(line, "ENTRY") && !HasPrefix(line, "NAME") && !HasPrefix(line, "DBLINKS") && !HasPrefix(line, "CATEGORY")
    ensures HasPrefix(line, " ") ==> KeywordOf(line) == Other
  {
    if HasPrefix(line, "NAME") || HasPrefix(line, "CATEGORY") {
      assert line[0] == 'N' || line[0] == 'C';
    }
    if HasPrefix(line, "DBLINKS") || HasPrefix(line, "DESCRIPTION") {
      assert line[1] == 'B' || line[1] == 'E';
    }
    if HasPrefix(line, " ") {
      assert line[0] == ' ';
    }
  }

  /** The id is the first field after the `ENTRY` keyword, wherever the spaces fall; with no
      field the reading fails. */
  lemma EntrySetsId(d: KeggDisease, line: string)
    requires HasPrefix(line, "ENTRY")
    ensures Fields(line[5..]) != [] ==>
      Dispatch(View(line), d) == Success(State(TopLevel, d.(id := Fields(line[5..])[0])))
    ensures Fields(line[5..]) == [] ==> Dispatch(View(line), d).Failure?
  {
    FieldsOfTrimSpace(line[5..]);
  }

  /** The category is the rest of the line after `CATEGORY`, trimmed. */
  lemma CategoryIsTrimmedRest(d: KeggDisease, line: string)
    requires HasPrefix(line, "CATEGORY")
    ensures Dispatch(View(line), d) == Success(State(TopLevel, d.(category := TrimSpace(line[8..]))))
  {
    KeywordsExclusive(line);
  }

  /** The description is the rest of the line after `DESCRIPTION `, trimmed. */
  lemma DescriptionIsTrimmedRest(d: KeggDisease, line: string)
    requires HasPrefix(line, "DESCRIPTION ")
    ensures Dispatch(View(line), d) == Success(State(TopLevel, d.(description := TrimSpace(line[12..]))))
  {
    assert HasPrefix(line, "DESCRIPTION");
    KeywordsExclusive(line);
  }

  /** A DESCRIPTION line without a space after the keyword, such as a bare `DESCRIPTION`,
      keeps the keyword in the description. */
  lemma UnspacedDescriptionKeepsKeyword(d: KeggDisease, line: string)
    requires HasPrefix(line, "DESCRIPTION") && !HasPrefix(line, "DESCRIPTION ")
    ensures Dispatch(View(line), d) == Success(State(TopLevel, d.(description := TrimSpace(line))))
    ensures HasPrefix(Dispatch(View(line), d).value.disease.description, "DESCRIPTION")
  {
    KeywordsExclusive(line);
    TrimKeepsKeyword(line);
  }

  /** Trimming a line that starts with `DESCRIPTION` leaves the keyword in place. */
  lemma TrimKeepsKeyword(line: string)
    requires HasPrefix(line, "DESCRIPTION")
    ensures HasPrefix(TrimSpace(line), "DESCRIPTION")
  {
    assert line[0] == 'D' && line[10] == 'N';
    assert TrimLeft(line) == line;
    var r := TrimRight(line);
    TrimRightFacts(line);
    assert |r| > 10;
    assert r[..11] == line[..11];
  }

  // ----- The NAME block -----

  /** A continuation line, which is indented, gives its own cleaned text as its name. */
  lemma ContinuationName(line: string)
    requires HasPrefix(line, " ")
    ensures View(line).name == CleanName(line)
  {
    assert line[0] == ' ';
    assert !HasPrefix(line, "NAME");
  }

  /** No line from `lo` to `hi` ends a NAME block. */
  predicate InNames(views: seq<LineView>, lo: nat, hi: nat)
    requires lo <= hi <= |views|
    decreases hi
  {
    hi == lo || (InNames(views, lo, hi - 1) && !views[hi - 1].endsNames)
  }

  /** `names` after the lines `lo` to `hi` have each appended their name. */
  function NamesAfter(names: seq<string>, views: seq<LineView>, lo: nat, hi: nat): seq<string>
    requires lo <= hi <= |views|
    decreases hi
  {
    if hi == lo then names else NamesAfter(names, views, lo, hi - 1) + [views[hi - 1].name]
  }

  /** Inside a NAME block, each continuation line appends its name. */
  lemma {:induction false} NameLinesAppend(views: seq<LineView>, lo: nat, hi: nat, d: KeggDisease)
    requires lo <= hi <= |views|
    requires Scan(views, lo) == Success(State(NameBlock, d))
    requires d.names.Of?
    requires InNames(views, lo, hi)
    ensures Scan(views, hi) == Success(State(NameBlock, d.(names := Of(NamesAfter(d.names.items, views, lo, hi)))))
    decreases hi
  {
    if hi > lo {
      NameLinesAppend(views, lo, hi - 1, d);
      ScanStep(views, hi);
    }
  }

  /** A NAME block ends at the first line `hi` that ends it, which is consumed. */
  lemma NameBlockEnds(views: seq<LineView>, lo: nat, hi: nat, d: KeggDisease)
    requires lo <= hi < |views|
    requires Scan(views, lo) == Success(State(NameBlock, d))
    requires d.names.Of?
    requires InNames(views, lo, hi)
    requires views[hi].endsNames
    ensures Scan(views, hi + 1) == Success(State(TopLevel, d.(names := Of(NamesAfter(d.names.items, views, lo, hi)))))
  {
    NameLinesAppend(views, lo, hi, d);
    ScanStep(views, hi + 1);
  }

  /** A continuation line `hi` of a NAME block appends its cleaned text. */
  lemma NameLineAppends(lines: seq<string>, views: seq<LineView>, lo: nat, hi: nat, names: seq<string>)
    requires ViewsOf(lines, views) && lo <= hi < |lines|
    requires InNames(views, lo, hi) && !EndsNames(lines[hi])
    ensures InNames(views, lo, hi + 1)
    ensures NamesAfter(names, views, lo, hi + 1) == NamesAfter(names, views, lo, hi) + [CleanName(lines[hi])]
  {
    EndsView(lines, views, hi);
    NameView(lines, views, hi);
  }

  /** Line `hi`, which ends the NAME block, is consumed. */
  lemma NameLineEnds(lines: seq<string>, views: seq<LineView>, lo: nat, hi: nat, d: KeggDisease)
    requires ViewsOf(lines, views) && lo <= hi < |lines|
    requires Scan(views, lo) == Success(State(NameBlock, d))
    requires d.names.Of?
    requires InNames(views, lo, hi) && EndsNames(lines[hi])
    ensures Scan(views, hi + 1) == Success(State(TopLevel, d.(names := Of(NamesAfter(d.names.items, views, lo, hi)))))
  {
    EndsView(lines, views, hi);
    NameBlockEnds(views, lo, hi, d);
  }

  /** The names of a run of continuation lines, cleaned, in order. */
  function CleanNames(subs: seq<string>): (r: seq<string>)
    ensures |r| == |subs|
  {
    if subs == [] then [] else CleanNames(subs[..|subs| - 1]) + [CleanName(subs[|subs| - 1])]
  }

  lemma SnocAssociates<T>(a: seq<T>, b: seq<T>, c: T)
    ensures a + b + [c] == a + (b + [c])
  {
  }

  /** Over lines that do not end the block, the names appended are the cleaned lines. */
  lemma {:induction false} NamesAfterAreCleanNames(names: seq<string>, lines: seq<string>, views: seq<LineView>, lo: nat, hi: nat)
    requires ViewsOf(lines, views) && lo <= hi <= |lines|
    requires forall k {:trigger EndsNames(lines[k])} :: lo <= k < hi ==> !EndsNames(lines[k])
    ensures InNames(views, lo, hi)
    ensures NamesAfter(names, views, lo, hi) == names + CleanNames(lines[lo..hi])
    decreases hi
  {
    if hi > lo {
      NamesAfterAreCleanNames(names, lines, views, lo, hi - 1);
      var line := lines[hi - 1];
      EndsView(lines, views, hi - 1);
      NameView(lines, views, hi - 1);
      CleanNamesSnoc(lines, lo, hi);
      SnocAssociates(names, CleanNames(lines[lo..hi - 1]), CleanName(line));
    }
  }

  lemma CleanNamesSnoc(lines: seq<string>, lo: nat, hi: nat)
    requires lo < hi <= |lines|
    ensures CleanNames(lines[lo..hi]) == CleanNames(lines[lo..hi - 1]) + [CleanName(lines[hi - 1])]
  {
    var s := lines[lo..hi];
    assert s[..|s| - 1] == lines[lo..hi - 1];
    assert s[|s| - 1] == lines[hi - 1];
  }

  /** A NAME block at line `at`: the NAME line and every continuation line up to line `last`,
      the first that ends the block, each add one cleaned name, in order; line `last` itself is
      consumed, whatever it holds, without changing the record. */
  lemma NameBlockReads(lines: seq<string>, views: seq<LineView>, at: nat, last: nat, d: KeggDisease)
    requires ViewsOf(lines, views) && at < last < |lines|
    requires Scan(views, at) == Success(State(TopLevel, d))
    requires HasPrefix(lines[at], "NAME")
    requires forall k {:trigger EndsNames(lines[k])} :: at < k < last ==> !EndsNames(lines[k])
    requires EndsNames(lines[last])
    ensures Scan(views, last + 1) == Success(State(TopLevel, d.(names :=
              Of(Elements(d.names) + [CleanName(lines[at][4..])] + CleanNames(lines[at + 1..last])))))
  {
    NameLineView(lines, views, at);
    EndsView(lines, views, last);
    var d1 := d.(names := Append(d.names, CleanName(lines[at][4..])));
    ScanStep(views, at + 1);
    NamesAfterAreCleanNames(d1.names.items, lines, views, at + 1, last);
    NameBlockEnds(views, at + 1, last, d1);
  }

  /** The line that ends a NAME block is not dispatched: a DESCRIPTION line right after the
      names leaves the description as it was. */
  lemma DescriptionAfterNamesIsLost(lines: seq<string>, views: seq<LineView>, at: nat, last: nat, d: KeggDisease)
    requires ViewsOf(lines, views) && at < last < |lines|
    requires Scan(views, at) == Success(State(TopLevel, d))
    requires HasPrefix(lines[at], "NAME")
    requires forall k {:trigger EndsNames(lines[k])} :: at < k < last ==> !EndsNames(lines[k])
    requires HasPrefix(lines[last], "DESCRIPTION")
    ensures Scan(views, last + 1).Success?
    ensures Scan(views, last + 1).value.disease.description == d.description
  {
    assert lines[last][0] == 'D';
    NameBlockReads(lines, views, at, last, d);
  }

  // ----- The DBLINKS block -----

  /** Every line from `lo` to `hi` is an indented line with a `:`. */
  predicate InLinks(views: seq<LineView>, lo: nat, hi: nat)
    requires lo <= hi <= |views|
    decreases hi
  {
    hi == lo || (InLinks(views, lo, hi - 1) && !views[hi - 1].endsLinks && views[hi - 1].link.Some?)
  }

  /** The map after the link lines `lo` to `hi` have each written their key. */
  function LinksAfter(views: seq<LineView>, lo: nat, hi: nat): map<string, seq<string>>
    requires lo <= hi <= |views|
    requires InLinks(views, lo, hi)
    decreases hi
  {
    if hi == lo then map[]
    else
      var link := views[hi - 1].link.value;
      LinksAfter(views, lo, hi - 1)[link.0 := link.1]
  }

  /** Inside a DBLINKS block, the link lines fill the map. */
  lemma {:induction false} LinkLinesFill(views: seq<LineView>, lo: nat, hi: nat, d: KeggDisease)
    requires lo <= hi <= |views|
    requires Scan(views, lo) == Success(State(LinksBlock, d))
    requires d.dbLinks == Some(map[])
    requires InLinks(views, lo, hi)
    ensures Scan(views, hi) == Success(State(LinksBlock, d.(dbLinks := Some(LinksAfter(views, lo, hi)))))
    decreases hi
  {
    if hi > lo {
      LinkLinesFill(views, lo, hi - 1, d);
      ScanStep(views, hi);
    }
  }

  /** A DBLINKS block ends at the first unindented line `hi`, which is consumed. */
  lemma LinksBlockEnds(views: seq<LineView>, lo: nat, hi: nat, d: KeggDisease)
    requires lo <= hi < |views|
    requires Scan(views, lo) == Success(State(LinksBlock, d))
    requires d.dbLinks == Some(map[])
    requires InLinks(views, lo, hi)
    requires views[hi].endsLinks
    ensures Scan(views, hi + 1) == Success(State(TopLevel, d.(dbLinks := Some(LinksAfter(views, lo, hi)))))
  {
    LinkLinesFill(views, lo, hi, d);
    ScanStep(views, hi + 1);
  }

  /** An indented line without a key in a DBLINKS block panics. */
  lemma LinkLineWithoutColon(views: seq<LineView>, at: nat, d: KeggDisease)
    requires at < |views|
    requires Scan(views, at) == Success(State(LinksBlock, d))
    requires !views[at].endsLinks && views[at].link.None?
    ensures Scan(views, at + 1).Failure?
  {
    ScanStep(views, at + 1);
  }

  /** A link line: indented, with a `:`. */
  predicate IsLinkLine(line: string)
  {
    !EndsLinks(line) && ':' in line
  }

  /** Trimming keeps every `:`, so a line has a key exactly when it holds a `:`. */
  lemma LinkOfNeedsColon(line: string)
    ensures LinkOf(line).Some? <==> ':' in line
  {
    CutFacts(TrimSpace(line), ':');
    TrimSpaceKeeps(line, ':');
  }

  /** The key is the trimmed text before the first `:`, and the values are the fields after
      it. */
  lemma LinkOfSplits(line: string)
    ensures LinkOf(line).Some? ==> ':' !in LinkOf(line).value.0
    ensures LinkOf(line).Some? ==>
      exists rest :: LinkOf(line).value.0 + [':'] + rest == TrimSpace(line) && LinkOf(line).value.1 == Fields(rest)
  {
    var t := TrimSpace(line);
    CutFacts(t, ':');
    if LinkOf(line).Some? {
      var rest := Cut(t, ':').value.1;
      assert LinkOf(line).value.0 + [':'] + rest == t;
    }
  }

  /** The key and values of each line of a run of link lines, in order. */
  function LinksOf(lines: seq<string>): (r: seq<(string, seq<string>)>)
    requires forall k {:trigger IsLinkLine(lines[k])} :: 0 <= k < |lines| ==> IsLinkLine(lines[k])
    ensures |r| == |lines|
  {
    if lines == [] then []
    else
      var line := lines[|lines| - 1];
      assert IsLinkLine(line);
      LinkOfNeedsColon(line);
      LinksOf(lines[..|lines| - 1]) + [LinkOf(line).value]
  }

  /** The map a run of (key, values) writes builds, each write replacing any earlier one. */
  function LinkMap(links: seq<(string, seq<string>)>): map<string, seq<string>>
  {
    if links == [] then map[]
    else
      var n := |links| - 1;
      LinkMap(links[..n])[links[n].0 := links[n].1]
  }

  /** Over link lines, the map filled is the one their keys and values build. */
  lemma {:induction false} LinksAfterIsLinkMap(lines: seq<string>, views: seq<LineView>, lo: nat, hi: nat)
    requires ViewsOf(lines, views) && lo <= hi <= |lines|
    requires forall k {:trigger IsLinkLine(lines[k])} :: lo <= k < hi ==> IsLinkLine(lines[k])
    ensures InLinks(views, lo, hi) && LinksAfter(views, lo, hi) == LinkMap(LinksOf(lines[lo..hi]))
    decreases hi
  {
    if hi > lo {
      LinksAfterIsLinkMap(lines, views, lo, hi - 1);
      assert IsLinkLine(lines[hi - 1]);
      LinkLineWrites(lines, views, lo, hi - 1);
      LinksOfSnoc(lines, lo, hi);
      LinkMapSnoc(LinksOf(lines[lo..hi - 1]), LinkOf(lines[hi - 1]).value);
    }
  }

  /** A link line `hi` of a DBLINKS block writes its key. */
  lemma LinkLineWrites(lines: seq<string>, views: seq<LineView>, lo: nat, hi: nat)
    requires ViewsOf(lines, views) && lo <= hi < |lines|
    requires InLinks(views, lo, hi) && IsLinkLine(lines[hi])
    ensures LinkOf(lines[hi]).Some? && InLinks(views, lo, hi + 1)
    ensures LinksAfter(views, lo, hi + 1) == LinksAfter(views, lo, hi)[LinkOf(lines[hi]).value.0 := LinkOf(lines[hi]).value.1]
  {
    assert views[hi] == View(lines[hi]);
    LinkOfNeedsColon(lines[hi]);
  }

  lemma LinkMapSnoc(links: seq<(string, seq<string>)>, link: (string, seq<string>))
    ensures LinkMap(links + [link]) == LinkMap(links)[link.0 := link.1]
  {
    assert (links + [link])[..|links|] == links;
  }

  lemma LinksOfSnoc(lines: seq<string>, lo: nat, hi: nat)
    requires lo < hi <= |lines|
    requires forall k {:trigger IsLinkLine(lines[k])} :: lo <= k < hi ==> IsLinkLine(lines[k])
    requires LinkOf(lines[hi - 1]).Some?
    ensures LinksOf(lines[lo..hi]) == LinksOf(lines[lo..hi - 1]) + [LinkOf(lines[hi - 1]).value]
  {
    var s := lines[lo..hi];
    assert s[..|s| - 1] == lines[lo..hi - 1];
    assert s[|s| - 1] == lines[hi - 1];
  }

  /** A DBLINKS block at line `at` starts a fresh map, which the link lines up to line `last`,
      the first unindented one, fill; line `last` is consumed without changing the record. */
  lemma LinksBlockReads(lines: seq<string>, views: seq<LineView>, at: nat, last: nat, d: KeggDisease)
    requires ViewsOf(lines, views) && at < last < |lines|
    requires Scan(views, at) == Success(State(TopLevel, d))
    requires HasPrefix(lines[at], "DBLINKS")
    requires forall k {:trigger IsLinkLine(lines[k])} :: at < k < last ==> IsLinkLine(lines[k])
    requires EndsLinks(lines[last])
    ensures Scan(views, last + 1) == Success(State(TopLevel, d.(dbLinks := Some(LinkMap(LinksOf(lines[at + 1..last]))))))
  {
    DbLinksView(lines, views, at);
    EndsView(lines, views, last);
    var d1 := d.(dbLinks := Some(map[]));
    ScanStep(views, at + 1);
    LinksAfterIsLinkMap(lines, views, at + 1, last);
    LinksBlockEnds(views, at + 1, last, d1);
  }

  /** An indented line without `:` inside a DBLINKS block makes the whole reading fail,
      whatever follows. */
  lemma LinkWithoutColonFails(lines: seq<string>, at: nat, d: KeggDisease)
    requires at < |lines|
    requires Scan(Views(lines), at) == Success(State(LinksBlock, d))
    requires !EndsLinks(lines[at]) && ':' !in lines[at]
    ensures FetchSpec(lines).Failure?
  {
    var views := Views(lines);
    ViewsOfViews(lines);
    LinkOfNeedsColon(lines[at]);
    EndsView(lines, views, at);
    LinkView(lines, views, at);
    LinkLineWithoutColon(views, at, d);
    FailureSticks(views, at + 1);
  }

  /** The keys of the map are those written. */
  lemma {:induction false} LinkMapKeys(links: seq<(string, seq<string>)>, key: string)
    ensures key in LinkMap(links) <==> exists j :: 0 <= j < |links| && links[j].0 == key
  {
    if links != [] {
      var n := |links| - 1;
      LinkMapKeys(links[..n], key);
      if key in LinkMap(links) && links[n].0 != key {
        var j :| 0 <= j < n && links[..n][j].0 == key;
        assert links[j] == links[..n][j];
      }
      if exists j :: 0 <= j < |links| && links[j].0 == key {
        var j :| 0 <= j < |links| && links[j].0 == key;
        if j < n {
          assert links[..n][j] == links[j];
        }
      }
    }
  }

  /** A repeated key keeps the values of its last write. */
  lemma {:induction false} LastLinkWins(links: seq<(string, seq<string>)>, j: nat)
    requires j < |links|
    requires forall k :: j < k < |links| ==> links[k].0 != links[j].0
    ensures links[j].0 in LinkMap(links)
    ensures LinkMap(links)[links[j].0] == links[j].1
  {
    var n := |links| - 1;
    if j < n {
      LastLinkWins(links[..n], j);
      assert links[..n][j] == links[j];
    }
  }

  // ----- The output record -----

  /** Only the `ICD-10`, `ICD-11` and `MeSH` links reach the output: a link under any other key
      changes nothing. */
  lemma OtherLinksAreDropped(d: KeggDisease, key: string, values: seq<string>)
    requires key != "ICD-10" && key != "ICD-11" && key != "MeSH"
    ensures ToDisease(d.(dbLinks := Some(Links(d)[key := values]))) == ToDisease(d)
  {
  }

  /** A record without DBLINKS still gets a links object, with all three lists nil. */
  lemma NoLinksGiveNilLists(d: KeggDisease)
    requires d.dbLinks.None?
    ensures ToDisease(d).dbLinks == Some(GraphModel.DiseaseDBLinks(Nil, Nil, Nil))
  {
  }
}
