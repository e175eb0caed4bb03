/** The text and number helpers of the management UI (`management-ui/src/utils/functions.ts`).
    JavaScript numbers are modelled as integers. */
module UiFunctions {
  import opened GoStrings

  /** `s.split(" ")`: the pieces between the spaces, empty ones included; an empty string is
      one empty piece. */
  function Split(s: string): (parts: seq<string>)
    ensures |parts| >= 1
    decreases |s|
  {
    if s == [] then [""]
    else if s[0] == ' ' then [""] + Split(s[1..])
    else
      var rest := Split(s[1..]);
      [[s[0]] + rest[0]] + rest[1..]
  }

  /** `Math.max` and `Math.min`. */
  function Max(a: int, b: int): int
  {
    if a >= b then a else b
  }

  function Min(a: int, b: int): int
  {
    if a <= b then a else b
  }

  /** `truncateWords`: a text of more than `words` space-separated pieces keeps its first
      `words` pieces and ends in an ellipsis. `Array.prototype.join` joins like Go's
      `strings.Join`, and `splice(0, words)` takes no piece when `words` is negative. */
  function TruncateWords(s: string, words: int): (r: string)
    ensures |Split(s)| <= words ==> r == s
    ensures |Split(s)| > words ==> |r| >= 3 && r[|r| - 3..] == "..."
  {
    var wordsArray := Split(s);
    if |wordsArray| <= words then s
    else Join(wordsArray[..Max(words, 0)], " ") + "..."
  }

  /** `clamp`: `value` raised to `min`, then lowered to `max`. */
  function Clamp(value: int, min: int, max: int): (r: int)
    ensures min <= max ==> min <= r <= max
    ensures min <= max ==> (min <= value <= max <==> r == value)
    ensures min <= max && value < min ==> r == min
    ensures value > max || min > max ==> r == max
  {
    Min(Max(value, min), max)
  }

  // ----- Splitting on spaces -----

  /** No piece holds a space, and joining the pieces with spaces gives the text back. */
  lemma {:induction false} SplitJoins(s: string)
    ensures forall k :: 0 <= k < |Split(s)| ==> ' ' !in Split(s)[k]
    ensures Join(Split(s), " ") == s
    decreases |s|
  {
    if s != [] {
      SplitJoins(s[1..]);
      var rest := Split(s[1..]);
      if s[0] == ' ' {
        assert Split(s)[1..] == rest;
      } else {
        var parts := Split(s);
        assert parts[1..] == rest[1..];
        if |rest| > 1 {
          assert Join(rest, " ") == rest[0] + " " + Join(rest[1..], " ");
        }
      }
    }
  }

  /** Splitting pieces without spaces, joined with spaces, gives the pieces back. */
  lemma {:induction false} JoinSplits(parts: seq<string>)
    requires parts != [] && forall k :: 0 <= k < |parts| ==> ' ' !in parts[k]
    ensures Split(Join(parts, " ")) == parts
    decreases |parts|, |parts[0]|
  {
    var w := parts[0];
    if |parts| == 1 {
      NoSpaceSplits(w);
    } else if w == [] {
      var tail := Join(parts[1..], " ");
      assert Join(parts, " ") == [' '] + tail;
      assert ([' '] + tail)[1..] == tail;
      JoinSplits(parts[1..]);
    } else {
      var shorter := [w[1..]] + parts[1..];
      assert shorter[1..] == parts[1..];
      assert ' ' !in shorter[0] by {
        assert forall c :: c in w[1..] ==> c in w;
      }
      JoinSplits(shorter);
      var joined := Join(shorter, " ");
      assert Join(parts, " ") == [w[0]] + joined;
      assert ([w[0]] + joined)[1..] == joined;
      assert w[0] in w && [w[0]] + w[1..] == w;
    }
  }

  /** A text without spaces is one piece. */
  lemma {:induction false} NoSpaceSplits(w: string)
    requires ' ' !in w
    ensures Split(w) == [w]
    decreases |w|
  {
    if w != [] {
      assert ' ' !in w[1..] by {
        assert forall c :: c in w[1..] ==> c in w;
      }
      NoSpaceSplits(w[1..]);
      assert w[0] in w && [w[0]] + w[1..] == w;
    }
  }

  // ----- truncateWords -----

  /** A text of at most `words` pieces comes back unchanged. */
  lemma ShortTextIsKept(s: string, words: int)
    requires |Split(s)| <= words
    ensures TruncateWords(s, words) == s
  {
  }

  /** A longer text becomes a prefix of it and an ellipsis. With words to keep, the prefix stops
      at the space after the `words`-th piece, so its pieces are the first `words` pieces of the
      text; with none (`words <= 0`) only the ellipsis is left. */
  lemma LongTextIsCut(s: string, words: int)
    requires |Split(s)| > words
    ensures var r := TruncateWords(s, words);
      |r| >= 3 && r[|r| - 3..] == "..."
      && var kept := r[..|r| - 3];
      (words >= 1 ==> |kept| < |s| && kept == s[..|kept|] && s[|kept|] == ' ' && Split(kept) == Split(s)[..words])
      && (words <= 0 ==> kept == "")
  {
    var parts := Split(s);
    var n := Max(words, 0);
    var kept := Join(parts[..n], " ");
    var r := TruncateWords(s, words);
    assert r == kept + "...";
    assert r[..|r| - 3] == kept;
    SplitJoins(s);
    if n >= 1 {
      JoinPrefix(parts, n);
      JoinSplits(parts[..n]);
    }
  }

  /** Joining the first `n` pieces of a list of at least `n + 1` gives a prefix of the joined
      list that is followed by the separator. */
  lemma {:induction false} JoinPrefix(parts: seq<string>, n: nat)
    requires 1 <= n < |parts|
    ensures var whole := Join(parts, " "); var front := Join(parts[..n], " ");
      |front| < |whole| && front == whole[..|front|] && whole[|front|] == ' '
    decreases n
  {
    var whole := Join(parts, " ");
    assert whole == parts[0] + " " + Join(parts[1..], " ");
    if n > 1 {
      JoinPrefix(parts[1..], n - 1);
      assert parts[..n][1..] == parts[1..][..n - 1];
      assert Join(parts[..n], " ") == parts[0] + " " + Join(parts[1..][..n - 1], " ");
    }
  }

  // ----- clamp -----

  /** Clamping a clamped value changes nothing. */
  lemma ClampIsIdempotent(value: int, min: int, max: int)
    ensures Clamp(Clamp(value, min, max), min, max) == Clamp(value, min, max)
  {
  }

  /** Clamping keeps the order of values. */
  lemma ClampIsMonotonic(a: int, b: int, min: int, max: int)
    requires a <= b
    ensures Clamp(a, min, max) <= Clamp(b, min, max)
  {
  }
}
