/**
 * Python string primitives the source relies on: `str.isspace`, `str.strip()`,
 * `str.split()` with no separator, and `" ".join(...)`.
 */
module Text {

  /** The characters Python's `str.isspace` accepts; `strip()` and `split()` cut at exactly these. */
  predicate IsSpace(c: char) {
    || c == ' ' || c == '\t' || c == '\n' || c == '\r' || c == '\U{0B}' || c == '\U{0C}'
    || ('\U{1C}' <= c <= '\U{1F}')
    || c == '\U{85}' || c == '\U{A0}' || c == '\U{1680}'
    || ('\U{2000}' <= c <= '\U{200A}')
    || c == '\U{2028}' || c == '\U{2029}' || c == '\U{202F}' || c == '\U{205F}' || c == '\U{3000}'
  }

  /** True when `s` is empty or all whitespace, i.e. `s.strip()` is falsy. */
  predicate IsBlank(s: string) {
    forall i :: 0 <= i < |s| ==> IsSpace(s[i])
  }

  /** A word as `split()` yields it: non-empty and without whitespace. */
  predicate IsWord(w: string) {
    |w| > 0 && forall i :: 0 <= i < |w| ==> !IsSpace(w[i])
  }

  /** The number of whitespace characters `s` starts with. */
  function LeadingSpaces(s: string): (n: nat)
    ensures n <= |s|
    ensures forall i :: 0 <= i < n ==> IsSpace(s[i])
    ensures n < |s| ==> !IsSpace(s[n])
  {
    if |s| > 0 && IsSpace(s[0]) then 1 + LeadingSpaces(s[1..]) else 0
  }

  /** The number of whitespace characters `s` ends with. */
  function TrailingSpaces(s: string): (n: nat)
    ensures n <= |s|
    ensures forall i :: |s| - n <= i < |s| ==> IsSpace(s[i])
    ensures n < |s| ==> !IsSpace(s[|s| - n - 1])
  {
    if |s| > 0 && IsSpace(s[|s| - 1]) then 1 + TrailingSpaces(s[..|s| - 1]) else 0
  }

  /** `s` with its leading whitespace removed. */
  function TrimLeft(s: string): (r: string)
    ensures |r| <= |s| && r == s[|s| - |r|..]
    ensures IsBlank(s[..|s| - |r|])
    ensures |r| > 0 ==> !IsSpace(r[0])
    ensures IsBlank(s) ==> r == []
  {
    s[LeadingSpaces(s)..]
  }

  /** `s` with its trailing whitespace removed. */
  function TrimRight(s: string): (r: string)
    ensures |r| <= |s| && r == s[..|r|]
    ensures IsBlank(s[|r|..])
    ensures |r| > 0 ==> !IsSpace(r[|r| - 1])
    ensures IsBlank(s) ==> r == []
  {
    s[..|s| - TrailingSpaces(s)]
  }

  /** A string made of a blank part followed by another blank part is blank. */
  lemma BlankConcat(a: string, b: string)
    requires IsBlank(a) && IsBlank(b)
    ensures IsBlank(a + b)
  {
    forall i | 0 <= i < |a + b| ensures IsSpace((a + b)[i]) {
      if i >= |a| {
        assert (a + b)[i] == b[i - |a|];
      }
    }
  }

  /**
   * Python's `s.strip()`: whitespace cut at both ends. The result neither starts
   * nor ends with whitespace, and it is empty exactly when `s` is blank.
   */
  function Strip(s: string): (r: string)
    ensures |r| <= |s|
    ensures |r| > 0 ==> !IsSpace(r[0]) && !IsSpace(r[|r| - 1])
    ensures r == [] <==> IsBlank(s)
  {
    var l := TrimLeft(s);
    var r := TrimRight(l);
    if r == [] then
      assert IsBlank(l) by { assert l[|r|..] == l; }
      assert s == s[..|s| - |l|] + l;
      BlankConcat(s[..|s| - |l|], l);
      r
    else
      r
  }

  /** What `strip()` keeps is one contiguous slice of `s`, and everything it cut off is whitespace. */
  lemma StripIsSlice(s: string) returns (i: nat)
    ensures i + |Strip(s)| <= |s|
    ensures Strip(s) == s[i..i + |Strip(s)|]
    ensures IsBlank(s[..i]) && IsBlank(s[i + |Strip(s)|..])
  {
    var l := TrimLeft(s);
    var r := TrimRight(l);
    i := |s| - |l|;
    assert r == s[i..i + |r|];
    assert s[i + |r|..] == l[|r|..];
  }

  /** Stripping is idempotent: a value stored after `strip()` is already in stripped form. */
  lemma StripIdempotent(s: string)
    ensures Strip(Strip(s)) == Strip(s)
  {
    var r := Strip(s);
    assert TrimLeft(r) == r;
    assert TrimRight(r) == r;
  }

  /** Stripping a non-blank text leaves a non-blank text that is already stripped. */
  lemma StripNonBlank(s: string)
    requires !IsBlank(s)
    ensures !IsBlank(Strip(s)) && Strip(Strip(s)) == Strip(s)
  {
    StripIdempotent(s);
    assert !IsSpace(Strip(s)[0]);
  }

  /** A word is its own strip. */
  lemma StripWord(w: string)
    requires IsWord(w)
    ensures !IsBlank(w) && Strip(w) == w
  {
    assert !IsSpace(w[0]);
    assert TrimLeft(w) == w;
    assert TrimRight(w) == w;
  }

  /** Length of the leading run of non-whitespace characters of `s`. */
  function WordLength(s: string): (n: nat)
    ensures n <= |s|
    ensures forall i :: 0 <= i < n ==> !IsSpace(s[i])
    ensures n < |s| ==> IsSpace(s[n])
  {
    if |s| == 0 || IsSpace(s[0]) then 0 else 1 + WordLength(s[1..])
  }

  /** Python's `s.split()`: the maximal runs of non-whitespace characters, in order. */
  function Words(s: string): (ws: seq<string>)
    ensures forall k :: 0 <= k < |ws| ==> IsWord(ws[k])
    ensures ws == [] <==> IsBlank(s)
    decreases |s|
  {
    if |s| == 0 then []
    else if IsSpace(s[0]) then
      var ws := Words(s[1..]);
      assert IsBlank(s[1..]) ==> IsBlank(s) by {
        if IsBlank(s[1..]) {
          forall i | 0 <= i < |s| ensures IsSpace(s[i]) {
            if i > 0 { assert s[i] == s[1..][i - 1]; }
          }
        }
      }
      ws
    else
      var n := WordLength(s);
      [s[..n]] + Words(s[n..])
  }

  /** Python's `" ".join(ws)`. */
  function Join(ws: seq<string>): string
  {
    if |ws| == 0 then ""
    else if |ws| == 1 then ws[0]
    else ws[0] + " " + Join(ws[1..])
  }

  /** Total length of the strings in `ws`, `sum(len(x) for x in ws)`. */
  function TotalLength(ws: seq<string>): nat
  {
    if |ws| == 0 then 0 else |ws[0]| + TotalLength(ws[1..])
  }

  /** Appending one more string to a join adds a single separating space (when there was something before). */
  lemma {:induction false} JoinSnoc(ws: seq<string>, w: string)
    ensures Join(ws + [w]) == if |ws| == 0 then w else Join(ws) + " " + w
    decreases |ws|
  {
    if |ws| == 0 {
      assert ws + [w] == [w];
    } else if |ws| == 1 {
      assert ws + [w] == [ws[0], w];
      assert [ws[0], w][1..] == [w];
    } else {
      var tail := ws[1..];
      assert (ws + [w])[0] == ws[0] && (ws + [w])[1..] == tail + [w];
      JoinSnoc(tail, w);
      var a, b := ws[0] + " ", Join(tail);
      assert Join(ws + [w]) == a + (b + " " + w);
      assert Join(ws) == a + b;
      assert a + (b + " " + w) == (a + b) + " " + w;
    }
  }

  /** Total length of an appended sequence of strings. */
  lemma {:induction false} TotalLengthSnoc(ws: seq<string>, w: string)
    ensures TotalLength(ws + [w]) == TotalLength(ws) + |w|
    decreases |ws|
  {
    if |ws| == 0 {
      assert ws + [w] == [w];
      assert [w][1..] == [];
    } else {
      assert (ws + [w])[1..] == ws[1..] + [w];
      TotalLengthSnoc(ws[1..], w);
    }
  }

  /** Joining `n > 0` strings with single spaces adds `n - 1` characters to their total length. */
  lemma {:induction false} JoinLength(ws: seq<string>)
    requires |ws| > 0
    ensures |Join(ws)| == TotalLength(ws) + |ws| - 1
    decreases |ws|
  {
    if |ws| == 1 {
      assert ws[1..] == [];
    } else {
      JoinLength(ws[1..]);
    }
  }

  /** The leading word of `w + t` is exactly `w` when `t` is empty or starts with whitespace. */
  lemma {:induction false} WordLengthOfWordThen(w: string, t: string)
    requires IsWord(w)
    requires |t| == 0 || IsSpace(t[0])
    ensures WordLength(w + t) == |w|
    decreases |w|
  {
    var s := w + t;
    assert s[0] == w[0];
    if |w| == 1 {
      assert s[1..] == t;
    } else {
      assert s[1..] == w[1..] + t;
      WordLengthOfWordThen(w[1..], t);
    }
  }

  /** A word followed by nothing or by whitespace splits off as the first word. */
  lemma WordsOfWordThen(w: string, t: string)
    requires IsWord(w)
    requires |t| == 0 || IsSpace(t[0])
    ensures Words(w + t) == [w] + Words(t)
  {
    var s := w + t;
    WordLengthOfWordThen(w, t);
    assert s[..|w|] == w;
    assert s[|w|..] == t;
  }

  /** A leading space is skipped by `split()`. */
  lemma WordsOfSpaceThen(t: string)
    ensures Words(" " + t) == Words(t)
  {
    assert (" " + t)[1..] == t;
  }

  /** Leading whitespace is skipped by `split()`. */
  lemma {:induction false} WordsOfBlankThen(b: string, t: string)
    requires IsBlank(b)
    ensures Words(b + t) == Words(t)
    decreases |b|
  {
    if |b| == 0 {
      assert b + t == t;
    } else {
      assert IsSpace((b + t)[0]);
      assert (b + t)[1..] == b[1..] + t;
      assert Words(b + t) == Words(b[1..] + t);
      assert forall k :: 0 <= k < |b| - 1 ==> b[1..][k] == b[k + 1];
      WordsOfBlankThen(b[1..], t);
    }
  }

  /**
   * What `split()` returns for a non-blank text: the text is a blank prefix,
   * then the first word, then the end or whitespace, then a rest whose words
   * are all the other words. With `WordsOfBlankThen` and `WordsOfWordThen`
   * (the converse) this fixes `Words` completely.
   */
  lemma {:induction false} WordsFirst(s: string) returns (i: nat, j: nat)
    requires !IsBlank(s)
    ensures i < j <= |s|
    ensures IsBlank(s[..i])
    ensures Words(s)[0] == s[i..j]
    ensures j == |s| || IsSpace(s[j])
    ensures Words(s)[1..] == Words(s[j..])
    decreases |s|
  {
    if IsSpace(s[0]) {
      var t := s[1..];
      assert !IsBlank(t) by {
        var k :| 0 <= k < |s| && !IsSpace(s[k]);
        assert t[k - 1] == s[k];
      }
      var i', j' := WordsFirst(t);
      i, j := i' + 1, j' + 1;
      assert s[..i] == [s[0]] + t[..i'];
      assert s[i..j] == t[i'..j'];
      assert s[j..] == t[j'..];
    } else {
      i, j := 0, WordLength(s);
      assert s[..0] == [];
    }
  }

  /**
   * Splitting a single-space join of words gives the words back: `" ".join` and
   * `split()` are inverse on sequences of words.
   */
  lemma {:induction false} WordsOfJoin(ws: seq<string>)
    requires forall k :: 0 <= k < |ws| ==> IsWord(ws[k])
    ensures Words(Join(ws)) == ws
    decreases |ws|
  {
    if |ws| == 1 {
      assert ws[0] + "" == ws[0];
      WordsOfWordThen(ws[0], "");
    } else if |ws| > 1 {
      var tail := ws[1..];
      assert forall k :: 0 <= k < |tail| ==> tail[k] == ws[k + 1];
      var rest := Join(tail);
      assert Join(ws) == ws[0] + (" " + rest);
      WordsOfJoin(tail);
      WordsOfSpaceThen(rest);
      WordsOfWordThen(ws[0], " " + rest);
      assert ws == [ws[0]] + tail;
    }
  }
}
