/** The abstract assembly of the PubMed fetcher (`pubmed/entrez_searcher.go`): the
    `AbstractText` sections of an article, already read from the XML response, become one
    plain-text abstract. */
module PubMed {
  import opened GoStrings

  /** One `AbstractText` element: its `Label` attribute as `caption` (empty when absent) and its
      text. */
  datatype AbstractText = AbstractText(caption: string, text: string)

  /** A section's text with the surrounding white space trimmed and every inner run of white
      space replaced by one space. */
  function Normalize(text: string): string
  {
    Join(Fields(TrimSpace(text)), " ")
  }

  /** A labelled section first shows its label and a colon on a line of its own. */
  function Heading(t: AbstractText): string
  {
    if t.caption != "" then t.caption + ":\n" else ""
  }

  /** A section as it shows in the abstract: its heading and its normalized text. */
  function Block(t: AbstractText): string
  {
    Heading(t) + Normalize(t.text)
  }

  /** What one turn of the loop appends: the section's block and a blank line. */
  function Section(t: AbstractText): string
  {
    Block(t) + "\n\n"
  }

  /** The accumulator once the loop has appended the sections, in order. */
  function Accumulated(sections: seq<AbstractText>): string
  {
    if sections == [] then ""
    else Accumulated(sections[..|sections| - 1]) + Section(sections[|sections| - 1])
  }

  /** The abstract: the accumulator without its final blank line. */
  function AbstractOf(sections: seq<AbstractText>): string
  {
    TrimSuffix(Accumulated(sections), "\n\n")
  }

  /** The loop over the sections and the final `TrimSuffix`. */
  method AssembleAbstract(sections: seq<AbstractText>) returns (articleAbstract: string)
    ensures articleAbstract == AbstractOf(sections)
  {
    articleAbstract := "";
    for i := 0 to |sections|
      invariant articleAbstract == Accumulated(sections[..i])
    {
      articleAbstract := AppendSection(articleAbstract, sections[i]);
      AccumulatedSnoc(sections, i);
    }
    assert sections[..|sections|] == sections;
    articleAbstract := TrimSuffix(articleAbstract, "\n\n");
  }

  /** One turn of the loop: the label line, if any, then the normalized text and a blank line. */
  method AppendSection(articleAbstract: string, abstractText: AbstractText) returns (r: string)
    ensures r == articleAbstract + Section(abstractText)
  {
    r := articleAbstract;
    if abstractText.caption != "" {
      r := r + abstractText.caption + ":\n";
    }
    assert r == articleAbstract + Heading(abstractText);
    var text := Join(Fields(TrimSpace(abstractText.text)), " ");
    r := r + text + "\n\n";
  }

  /** The accumulator after one more section. */
  lemma AccumulatedSnoc(sections: seq<AbstractText>, i: nat)
    requires i < |sections|
    ensures Accumulated(sections[..i + 1]) == Accumulated(sections[..i]) + Section(sections[i])
  {
    assert sections[..i + 1][..i] == sections[..i];
  }

  // ----- The abstract as a whole -----

  /** With no section the abstract is empty. */
  lemma NoSectionsGiveEmptyAbstract()
    ensures AbstractOf([]) == ""
  {
  }

  /** Exactly one blank line is removed at the end: the one that follows the last section. */
  lemma OneBlankLineRemoved(sections: seq<AbstractText>)
    requires sections != []
    ensures Accumulated(sections) == AbstractOf(sections) + "\n\n"
    ensures AbstractOf(sections) == Accumulated(sections[..|sections| - 1]) + Block(sections[|sections| - 1])
  {
    var acc := Accumulated(sections);
    var kept := Accumulated(sections[..|sections| - 1]) + Block(sections[|sections| - 1]);
    assert acc == kept + "\n\n";
    assert acc[..|acc| - 2] == kept;
  }

  /** The blocks of the sections, in order. */
  function Blocks(sections: seq<AbstractText>): (r: seq<string>)
    ensures |r| == |sections|
    ensures forall k :: 0 <= k < |sections| ==> r[k] == Block(sections[k])
  {
    seq(|sections|, k requires 0 <= k < |sections| => Block(sections[k]))
  }

  /** Joining a list with one more element. */
  lemma {:induction false} JoinSnoc(parts: seq<string>, x: string, sep: string)
    requires parts != []
    ensures Join(parts + [x], sep) == Join(parts, sep) + sep + x
    decreases |parts|
  {
    var ps := parts + [x];
    if |parts| > 1 {
      assert ps[1..] == parts[1..] + [x];
      JoinSnoc(parts[1..], x, sep);
    }
  }

  /** The blocks of one more section. */
  lemma BlocksSnoc(sections: seq<AbstractText>)
    requires sections != []
    ensures Blocks(sections) == Blocks(sections[..|sections| - 1]) + [Block(sections[|sections| - 1])]
  {
    var n := |sections| - 1;
    var r := Blocks(sections[..n]) + [Block(sections[n])];
    forall k | 0 <= k < |sections|
      ensures Blocks(sections)[k] == r[k]
    {
      if k < n {
        assert sections[..n][k] == sections[k];
      }
    }
  }

  /** The abstract of one more section: a blank line and its block follow. */
  lemma AbstractSnoc(sections: seq<AbstractText>)
    requires |sections| >= 2
    ensures AbstractOf(sections) == AbstractOf(sections[..|sections| - 1]) + "\n\n" + Block(sections[|sections| - 1])
  {
    OneBlankLineRemoved(sections);
    OneBlankLineRemoved(sections[..|sections| - 1]);
  }

  /** The abstract is the blocks of the sections, in input order, separated by blank lines. */
  lemma {:induction false} AbstractJoinsBlocks(sections: seq<AbstractText>)
    ensures AbstractOf(sections) == Join(Blocks(sections), "\n\n")
    decreases |sections|
  {
    if |sections| == 1 {
      OneBlankLineRemoved(sections);
    } else if |sections| > 1 {
      var n := |sections| - 1;
      var front := sections[..n];
      BlocksSnoc(sections);
      AbstractJoinsBlocks(front);
      AbstractSnoc(sections);
      JoinSnoc(Blocks(front), Block(sections[n]), "\n\n");
    }
  }

  // ----- One section's text -----

  /** Every white-space rune of `s` is a single space between two non-space runes. */
  predicate SingleSpaced(s: string)
  {
    forall i :: 0 <= i < |s| && IsSpace(s[i]) ==> s[i] == ' ' && 0 < i < |s| - 1 && !IsSpace(s[i - 1]) && !IsSpace(s[i + 1])
  }

  /** Words joined by single spaces are single-spaced and start and end with a word. */
  lemma {:induction false} JoinIsSingleSpaced(ws: seq<string>)
    requires forall k :: 0 <= k < |ws| ==> |ws[k]| > 0 && NoSpace(ws[k])
    ensures SingleSpaced(Join(ws, " "))
    ensures ws != [] ==> |Join(ws, " ")| > 0 && !IsSpace(Join(ws, " ")[0]) && !IsSpace(Join(ws, " ")[|Join(ws, " ")| - 1])
  {
    if |ws| == 1 {
      assert NoSpace(ws[0]);
    } else if |ws| > 1 {
      var w := ws[0];
      var r := Join(ws[1..], " ");
      JoinIsSingleSpaced(ws[1..]);
      var s := w + " " + r;
      assert NoSpace(w);
      forall i | 0 <= i < |w|
        ensures !IsSpace(s[i])
      {
        assert s[i] == w[i];
      }
      forall i | 0 <= i < |s| && IsSpace(s[i])
        ensures s[i] == ' ' && 0 < i < |s| - 1 && !IsSpace(s[i - 1]) && !IsSpace(s[i + 1])
      {
        if i > |w| {
          var j := i - |w| - 1;
          assert s[i] == r[j];
          assert s[i - 1] == r[j - 1] && s[i + 1] == r[j + 1];
        }
      }
      assert s[0] == w[0] && s[|s| - 1] == r[|r| - 1];
    }
  }

  /** The normalized text keeps the words of the text, in order, and is single-spaced: it has
      no white space at either end and no run of white space inside. */
  lemma NormalizeFacts(text: string)
    ensures Fields(Normalize(text)) == Fields(text)
    ensures SingleSpaced(Normalize(text))
  {
    var ws := Fields(TrimSpace(text));
    FieldsAreWords(TrimSpace(text));
    FieldsOfJoin(ws);
    FieldsOfTrimSpace(text);
    JoinIsSingleSpaced(ws);
  }

  /** Normalizing a normalized text changes nothing. */
  lemma NormalizeIsIdempotent(text: string)
    ensures Normalize(Normalize(text)) == Normalize(text)
  {
    NormalizeFacts(text);
    FieldsOfTrimSpace(Normalize(text));
    FieldsOfTrimSpace(text);
  }
}
