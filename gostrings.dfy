/** The functions of Go's `strings` package that the server's parsers use, over strings seen as
    sequences of runes. */
module GoStrings {
  import opened Wrappers

  /** `unicode.IsSpace`: the white-space runes that `strings.TrimSpace` and `strings.Fields`
      split on. */
  predicate IsSpace(c: char)
  {
    var n := c as int;
    (0x09 <= n <= 0x0D) || n == 0x20 || n == 0x85 || n == 0xA0 || n == 0x1680
    || (0x2000 <= n <= 0x200A) || n == 0x2028 || n == 0x2029 || n == 0x202F || n == 0x205F
    || n == 0x3000
  }

  predicate NoSpace(s: string)
  {
    forall i :: 0 <= i < |s| ==> !IsSpace(s[i])
  }

  /** `r` occurs in `s` at position `i`. */
  predicate PieceAt(s: string, r: string, i: int)
  {
    0 <= i <= |s| - |r| && s[i..i + |r|] == r
  }

  predicate HasPrefix(s: string, prefix: string)
  {
    |prefix| <= |s| && s[..|prefix|] == prefix
  }

  predicate HasSuffix(s: string, suffix: string)
  {
    |suffix| <= |s| && s[|s| - |suffix|..] == suffix
  }

  /** The number of bytes of the UTF-8 encoding of a rune. */
  function RuneLen(c: char): (n: nat)
    ensures 1 <= n <= 4
  {
    var v := c as int;
    if v < 0x80 then 1 else if v < 0x800 then 2 else if v < 0x10000 then 3 else 4
  }

  /** `len(s)`: the length of a Go string in bytes, that is of its UTF-8 encoding. */
  function ByteLen(s: string): (n: nat)
    ensures |s| <= n <= 4 * |s|
  {
    if s == [] then 0 else ByteLen(s[..|s| - 1]) + RuneLen(s[|s| - 1])
  }

  /** `strings.TrimPrefix`: drops `prefix` once if `s` starts with it. */
  function TrimPrefix(s: string, prefix: string): string
  {
    if HasPrefix(s, prefix) then s[|prefix|..] else s
  }

  /** `strings.TrimSuffix`: drops `suffix` once if `s` ends with it. */
  function TrimSuffix(s: string, suffix: string): string
  {
    if HasSuffix(s, suffix) then s[..|s| - |suffix|] else s
  }

  /** `strings.TrimLeft` with the white-space cut set. */
  function TrimLeft(s: string): string
  {
    if |s| > 0 && IsSpace(s[0]) then TrimLeft(s[1..]) else s
  }

  /** `strings.TrimRight` with the white-space cut set. */
  function TrimRight(s: string): string
  {
    if |s| > 0 && IsSpace(s[|s| - 1]) then TrimRight(s[..|s| - 1]) else s
  }

  /** `strings.TrimSpace`. */
  function TrimSpace(s: string): string
  {
    TrimRight(TrimLeft(s))
  }

  /** The longest prefix of `s` without white space. */
  function Word(s: string): (w: string)
    ensures 0 < |s| && !IsSpace(s[0]) ==> 0 < |w| <= |s|
  {
    if |s| == 0 || IsSpace(s[0]) then [] else [s[0]] + Word(s[1..])
  }

  /** `strings.Fields`: the maximal runs of non-space runes of `s`, in order. */
  function Fields(s: string): seq<string>
    decreases |s|
  {
    if |s| == 0 then []
    else if IsSpace(s[0]) then Fields(s[1..])
    else
      var w := Word(s);
      [w] + Fields(s[|w|..])
  }

  /** `strings.Join`. */
  function Join(parts: seq<string>, sep: string): string
  {
    if |parts| == 0 then []
    else if |parts| == 1 then parts[0]
    else parts[0] + sep + Join(parts[1..], sep)
  }

  /** `strings.SplitN(s, sep, 2)` for a one-rune separator: `None` when `sep` does not occur
      (Go then returns a single part), otherwise the text before and after its first occurrence. */
  function Cut(s: string, sep: char): Option<(string, string)>
  {
    if |s| == 0 then None
    else if s[0] == sep then Some(([], s[1..]))
    else match Cut(s[1..], sep)
      case None => None
      case Some((before, after)) => Some(([s[0]] + before, after))
  }

  lemma TrimPrefixFacts(s: string, prefix: string)
    ensures HasPrefix(s, prefix) ==> prefix + TrimPrefix(s, prefix) == s
    ensures !HasPrefix(s, prefix) ==> TrimPrefix(s, prefix) == s
  {
    if HasPrefix(s, prefix) {
      assert s == s[..|prefix|] + s[|prefix|..];
    }
  }

  lemma TrimSuffixFacts(s: string, suffix: string)
    ensures HasSuffix(s, suffix) ==> TrimSuffix(s, suffix) + suffix == s
    ensures !HasSuffix(s, suffix) ==> TrimSuffix(s, suffix) == s
  {
    if HasSuffix(s, suffix) {
      assert s == s[..|s| - |suffix|] + s[|s| - |suffix|..];
    }
  }

  /** `TrimLeft` keeps a suffix of `s` that does not start with white space, and cuts off only
      white space. */
  lemma {:induction false} TrimLeftFacts(s: string)
    ensures |TrimLeft(s)| <= |s| && TrimLeft(s) == s[|s| - |TrimLeft(s)|..]
    ensures TrimLeft(s) == [] || !IsSpace(TrimLeft(s)[0])
    ensures forall i :: 0 <= i < |s| - |TrimLeft(s)| ==> IsSpace(s[i])
    decreases |s|
  {
    if |s| > 0 && IsSpace(s[0]) {
      TrimLeftFacts(s[1..]);
      assert s[1..][|s[1..]| - |TrimLeft(s)|..] == s[|s| - |TrimLeft(s)|..];
      forall i | 1 <= i < |s| - |TrimLeft(s)| ensures IsSpace(s[i]) {
        assert s[i] == s[1..][i - 1];
      }
    }
  }

  /** `TrimRight` keeps a prefix of `s` that does not end with white space, and cuts off only
      white space. */
  lemma {:induction false} TrimRightFacts(s: string)
    ensures |TrimRight(s)| <= |s| && TrimRight(s) == s[..|TrimRight(s)|]
    ensures TrimRight(s) == [] || !IsSpace(TrimRight(s)[|TrimRight(s)| - 1])
    ensures forall i :: |TrimRight(s)| <= i < |s| ==> IsSpace(s[i])
    decreases |s|
  {
    if |s| > 0 && IsSpace(s[|s| - 1]) {
      TrimRightFacts(s[..|s| - 1]);
    }
  }

  /** `TrimSpace` keeps a contiguous piece of `s` that neither starts nor ends with white
      space, and outside of which `s` holds only white space. */
  lemma TrimSpaceFacts(s: string)
    ensures var r := TrimSpace(s);
            r == [] || (!IsSpace(r[0]) && !IsSpace(r[|r| - 1]))
    ensures var i := |s| - |TrimLeft(s)|;
            PieceAt(s, TrimSpace(s), i)
            && (forall k :: 0 <= k < i ==> IsSpace(s[k]))
            && (forall k :: i + |TrimSpace(s)| <= k < |s| ==> IsSpace(s[k]))
  {
    var l := TrimLeft(s);
    var r := TrimRight(l);
    var i := |s| - |l|;
    TrimLeftFacts(s);
    TrimRightFacts(l);
    assert l == s[i..];
    assert r == l[..|r|];
    if r != [] {
      assert r[0] == l[0];
    }
    assert s[i..i + |r|] == r by {
      assert s[i..][..|r|] == s[i..i + |r|];
    }
    forall k | i + |r| <= k < |s|
      ensures IsSpace(s[k])
    {
      assert s[k] == l[k - i];
    }
  }

  /** Trimming removes white space only, so every other rune stays. */
  lemma TrimSpaceKeeps(s: string, c: char)
    requires !IsSpace(c)
    ensures c in TrimSpace(s) <==> c in s
  {
    TrimSpaceFacts(s);
    var r := TrimSpace(s);
    var i := |s| - |TrimLeft(s)|;
    if c in s {
      var k :| 0 <= k < |s| && s[k] == c;
      assert r[k - i] == s[k];
    }
    if c in r {
      var k :| 0 <= k < |r| && r[k] == c;
      assert s[i + k] == r[k];
    }
  }

  /** A word is the prefix of `s` up to its first white space. */
  lemma {:induction false} WordFacts(s: string)
    ensures |Word(s)| <= |s| && Word(s) == s[..|Word(s)|] && NoSpace(Word(s))
    ensures |Word(s)| == |s| || IsSpace(s[|Word(s)|])
  {
    if |s| > 0 && !IsSpace(s[0]) {
      WordFacts(s[1..]);
    }
  }

  /** `Cut` finds a `sep` exactly when there is one, and splits `s` at the first. */
  lemma {:induction false} CutFacts(s: string, sep: char)
    ensures Cut(s, sep).None? <==> sep !in s
    ensures Cut(s, sep).Some? ==> Cut(s, sep).value.0 + [sep] + Cut(s, sep).value.1 == s && sep !in Cut(s, sep).value.0
  {
    if |s| > 0 && s[0] != sep {
      CutFacts(s[1..], sep);
      if Cut(s, sep).Some? {
        var parts := Cut(s[1..], sep).value;
        assert [s[0]] + parts.0 + [sep] + parts.1 == [s[0]] + (parts.0 + [sep] + parts.1);
      }
    }
  }

  /** Every field is a non-empty run without white space. */
  lemma {:induction false} FieldsAreWords(s: string)
    ensures forall k :: 0 <= k < |Fields(s)| ==> |Fields(s)[k]| > 0 && NoSpace(Fields(s)[k])
    decreases |s|
  {
    if |s| == 0 {
    } else if IsSpace(s[0]) {
      FieldsAreWords(s[1..]);
    } else {
      var w := Word(s);
      WordFacts(s);
      FieldsAreWords(s[|w|..]);
    }
  }

  /** A word directly followed by white space (or nothing) is read whole. */
  lemma {:induction false} WordOfAppend(w: string, t: string)
    requires NoSpace(w)
    requires t == [] || IsSpace(t[0])
    ensures Word(w + t) == w
  {
    if w != [] {
      assert (w + t)[1..] == w[1..] + t;
      WordOfAppend(w[1..], t);
    } else {
      assert w + t == t;
    }
  }

  /** Splitting a space-joined list of words gives the words back. */
  lemma {:induction false} FieldsOfJoin(ws: seq<string>)
    requires forall k :: 0 <= k < |ws| ==> |ws[k]| > 0 && NoSpace(ws[k])
    ensures Fields(Join(ws, " ")) == ws
  {
    if |ws| == 1 {
      WordOfAppend(ws[0], []);
      assert ws[0] + [] == ws[0];
      assert ws[0][|ws[0]|..] == [];
    } else if |ws| > 1 {
      var rest := Join(ws[1..], " ");
      var s := ws[0] + " " + rest;
      assert s == ws[0] + (" " + rest);
      WordOfAppend(ws[0], " " + rest);
      assert s[|ws[0]|..] == " " + rest;
      assert (" " + rest)[1..] == rest;
      FieldsOfJoin(ws[1..]);
      assert Fields(s) == [ws[0]] + ws[1..];
    }
  }

  lemma {:induction false} FieldsSkipsLeadingSpace(s: string)
    ensures Fields(TrimLeft(s)) == Fields(s)
    decreases |s|
  {
    if |s| > 0 && IsSpace(s[0]) {
      FieldsSkipsLeadingSpace(s[1..]);
    }
  }

  lemma {:induction false} WordIgnoresTrailingSpace(s: string, c: char)
    requires IsSpace(c)
    ensures Word(s + [c]) == Word(s)
  {
    if |s| > 0 && !IsSpace(s[0]) {
      assert (s + [c])[1..] == s[1..] + [c];
      WordIgnoresTrailingSpace(s[1..], c);
    }
  }

  lemma {:induction false} FieldsIgnoresTrailingSpace(s: string, c: char)
    requires IsSpace(c)
    ensures Fields(s + [c]) == Fields(s)
    decreases |s|
  {
    if |s| == 0 {
      assert Fields([c]) == Fields([c][1..]);
    } else if IsSpace(s[0]) {
      assert (s + [c])[1..] == s[1..] + [c];
      FieldsIgnoresTrailingSpace(s[1..], c);
    } else {
      WordIgnoresTrailingSpace(s, c);
      var w := Word(s);
      assert (s + [c])[|w|..] == s[|w|..] + [c];
      FieldsIgnoresTrailingSpace(s[|w|..], c);
    }
  }

  lemma {:induction false} FieldsSkipsTrailingSpace(s: string)
    ensures Fields(TrimRight(s)) == Fields(s)
    decreases |s|
  {
    if |s| > 0 && IsSpace(s[|s| - 1]) {
      FieldsSkipsTrailingSpace(s[..|s| - 1]);
      FieldsIgnoresTrailingSpace(s[..|s| - 1], s[|s| - 1]);
      assert s[..|s| - 1] + [s[|s| - 1]] == s;
    }
  }

  /** Trimming does not change the words of a string. */
  lemma FieldsOfTrimSpace(s: string)
    ensures Fields(TrimSpace(s)) == Fields(s)
  {
    FieldsSkipsTrailingSpace(TrimLeft(s));
    FieldsSkipsLeadingSpace(s);
  }
}
