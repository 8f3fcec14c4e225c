/**
 * Greedy word wrap of an item description for the invoice table
 * (`text_umbrechen`): words are taken in order and a new line is started
 * whenever the next word would make the current line longer than `maxLen`.
 */
module Wrap {
  import opened Text

  /** All words of all lines, in order. */
  function WordsOfLines(lines: seq<string>): seq<string>
  {
    if |lines| == 0 then [] else WordsOfLines(lines[..|lines| - 1]) + Words(lines[|lines| - 1])
  }

  /** Putting `w` after `line` (with a separating space unless the line is empty) would exceed `maxLen`. */
  predicate Overflows(line: string, w: string, maxLen: int) {
    (if line == "" then |w| else |line| + 1 + |w|) > maxLen
  }

  /** The greedy rule: `next` starts with a word, and that word did not fit after `line`. */
  predicate BreakNeeded(line: string, next: string, maxLen: int) {
    Words(next) != [] && Overflows(line, Words(next)[0], maxLen)
  }

  /** Each line is its words joined by single spaces: no leading, trailing or doubled spaces. */
  predicate AllNormal(lines: seq<string>) {
    forall j :: 0 <= j < |lines| ==> lines[j] == Join(Words(lines[j]))
  }

  /** A line holding two or more words is at most `maxLen` long. */
  predicate AllFit(lines: seq<string>, maxLen: int) {
    forall j :: 0 <= j < |lines| ==> |Words(lines[j])| <= 1 || |lines[j]| <= maxLen
  }

  /** Only the first line may be empty. */
  predicate OnlyFirstEmpty(lines: seq<string>) {
    forall j :: 0 < j < |lines| ==> lines[j] != ""
  }

  /** Every line break was forced by the word that follows it. */
  predicate AllBreaksNeeded(lines: seq<string>, maxLen: int) {
    forall j :: 0 <= j < |lines| - 1 ==> BreakNeeded(lines[j], lines[j + 1], maxLen)
  }

  /** The per-line guarantees of a wrap. */
  predicate WellWrapped(lines: seq<string>, maxLen: int) {
    AllNormal(lines) && AllFit(lines, maxLen) && OnlyFirstEmpty(lines) && AllBreaksNeeded(lines, maxLen)
  }

  lemma EmitNormal(done: seq<string>, line: string)
    requires AllNormal(done)
    requires line == Join(Words(line))
    ensures AllNormal(done + [line])
  {
    var out := done + [line];
    forall j | 0 <= j < |out| ensures out[j] == Join(Words(out[j])) {
      if j < |done| {
        assert out[j] == done[j];
      }
    }
  }

  lemma EmitFit(done: seq<string>, line: string, maxLen: int)
    requires AllFit(done, maxLen)
    requires |Words(line)| <= 1 || |line| <= maxLen
    ensures AllFit(done + [line], maxLen)
  {
    var out := done + [line];
    forall j | 0 <= j < |out| ensures |Words(out[j])| <= 1 || |out[j]| <= maxLen {
      if j < |done| {
        assert out[j] == done[j];
      }
    }
  }

  lemma EmitNonEmpty(done: seq<string>, line: string)
    requires OnlyFirstEmpty(done)
    requires done != [] ==> line != ""
    ensures OnlyFirstEmpty(done + [line])
  {
    var out := done + [line];
    forall j | 0 < j < |out| ensures out[j] != "" {
      if j < |done| {
        assert out[j] == done[j];
      }
    }
  }

  lemma EmitBreak(done: seq<string>, line: string, maxLen: int)
    requires AllBreaksNeeded(done, maxLen)
    requires done != [] ==> BreakNeeded(done[|done| - 1], line, maxLen)
    ensures AllBreaksNeeded(done + [line], maxLen)
  {
    var out := done + [line];
    forall j | 0 <= j < |out| - 1 ensures BreakNeeded(out[j], out[j + 1], maxLen) {
      assert out[j] == done[j];
      if j + 1 < |done| {
        assert out[j + 1] == done[j + 1];
      }
    }
  }

  /** Emitting the pending words `cur` as one more line keeps the wrap well formed. */
  lemma EmitLine(done: seq<string>, cur: seq<string>, maxLen: int)
    requires WellWrapped(done, maxLen)
    requires forall k :: 0 <= k < |cur| ==> IsWord(cur[k])
    requires |cur| <= 1 || |Join(cur)| <= maxLen
    requires done != [] ==> cur != [] && Overflows(done[|done| - 1], cur[0], maxLen)
    ensures WellWrapped(done + [Join(cur)], maxLen)
    ensures WordsOfLines(done + [Join(cur)]) == WordsOfLines(done) + cur
  {
    var line := Join(cur);
    WordsOfJoin(cur);
    EmitNormal(done, line);
    EmitFit(done, line, maxLen);
    EmitNonEmpty(done, line);
    EmitBreak(done, line, maxLen);
    assert (done + [line])[..|done|] == done;
  }

  /** The words side of the loop invariant: `done` and `cur` hold exactly the words consumed so far. */
  predicate WrapProgress(words: seq<string>, i: nat, done: seq<string>, cur: seq<string>)
    requires i <= |words|
  {
    && WordsOfLines(done) + cur == words[..i]
    && (forall k :: 0 <= k < |cur| ==> IsWord(cur[k]))
    && (i == 0 ==> done == [] && cur == [])
    && (i > 0 ==> cur != [])
  }

  /** The layout side of the loop invariant: emitted lines are well wrapped and the open line fits. */
  predicate WrapShape(words: seq<string>, i: nat, done: seq<string>, cur: seq<string>, maxLen: int)
    requires i <= |words|
  {
    && WellWrapped(done, maxLen)
    && (|cur| <= 1 || |Join(cur)| <= maxLen)
    && (i > 0 ==> (|words[0]| > maxLen <==> (done != [] && done[0] == "")))
    && (done != [] ==> cur != [] && Overflows(done[|done| - 1], cur[0], maxLen))
  }

  /** What holds after the loop of `WrapText` has consumed `words[..i]`, with `cur` the words of the open line. */
  predicate WrapInv(words: seq<string>, i: nat, done: seq<string>, cur: seq<string>, maxLen: int)
    requires i <= |words|
  {
    WrapProgress(words, i, done, cur) && WrapShape(words, i, done, cur, maxLen)
  }

  /** The width test of the source, `sum(len(x) for x in cur) + len(cur) + len(w) > max_len`, says that `w` overflows the line `cur` joins to. */
  lemma WidthTest(cur: seq<string>, w: string, maxLen: int)
    requires forall k :: 0 <= k < |cur| ==> IsWord(cur[k])
    ensures TotalLength(cur) + |cur| + |w| > maxLen <==> Overflows(Join(cur), w, maxLen)
    ensures TotalLength(cur) + |cur| + |w| <= maxLen ==> |cur + [w]| <= 1 || |Join(cur + [w])| <= maxLen
  {
    JoinSnoc(cur, w);
    if cur != [] {
      JoinLength(cur);
      assert |Join(cur)| > 0;
    }
  }

  /** Emitting the open line and starting a new one with the next word keeps track of the words. */
  lemma BreakProgress(words: seq<string>, i: nat, done: seq<string>, cur: seq<string>)
    requires i < |words| && IsWord(words[i])
    requires WrapProgress(words, i, done, cur)
    ensures WordsOfLines(done + [Join(cur)]) == WordsOfLines(done) + cur
    ensures WrapProgress(words, i + 1, done + [Join(cur)], [words[i]])
  {
    var w := words[i];
    WordsOfJoin(cur);
    assert (done + [Join(cur)])[..|done|] == done;
    assert words[..i + 1] == words[..i] + [w];
  }

  /** A forced break keeps the emitted lines well wrapped and the new open line within bounds. */
  lemma BreakShape(words: seq<string>, i: nat, done: seq<string>, cur: seq<string>, maxLen: int)
    requires i < |words| && IsWord(words[i])
    requires WrapInv(words, i, done, cur, maxLen)
    requires Overflows(Join(cur), words[i], maxLen)
    ensures WrapShape(words, i + 1, done + [Join(cur)], [words[i]], maxLen)
  {
    EmitLine(done, cur, maxLen);
    assert (done + [Join(cur)])[0] == (if done == [] then Join(cur) else done[0]);
    if i == 0 {
      assert cur == [] && done == [];
      assert Join(cur) == "";
    } else if done == [] {
      assert WordsOfLines(done) == [];
      assert cur[0] == words[..i][0] == words[0];
      JoinNonEmpty(cur);
    }
  }

  /** Joining a non-empty sequence of words gives a non-empty line. */
  lemma JoinNonEmpty(ws: seq<string>)
    requires |ws| > 0 && IsWord(ws[0])
    ensures Join(ws) != ""
  {
    if |ws| == 1 {
    } else {
      assert |Join(ws)| >= |ws[0]|;
    }
  }

  /** The next word does not fit: the open line is emitted and the word starts a new one. */
  lemma BreakStep(words: seq<string>, i: nat, done: seq<string>, cur: seq<string>, maxLen: int)
    requires i < |words| && IsWord(words[i])
    requires WrapInv(words, i, done, cur, maxLen)
    requires Overflows(Join(cur), words[i], maxLen)
    ensures WrapInv(words, i + 1, done + [Join(cur)], [words[i]], maxLen)
  {
    BreakProgress(words, i, done, cur);
    BreakShape(words, i, done, cur, maxLen);
  }

  /** The next word fits: it is appended to the open line. */
  lemma ExtendStep(words: seq<string>, i: nat, done: seq<string>, cur: seq<string>, maxLen: int)
    requires i < |words| && IsWord(words[i])
    requires WrapInv(words, i, done, cur, maxLen)
    requires !Overflows(Join(cur), words[i], maxLen)
    requires |cur + [words[i]]| <= 1 || |Join(cur + [words[i]])| <= maxLen
    ensures WrapInv(words, i + 1, done, cur + [words[i]], maxLen)
  {
    var w := words[i];
    assert words[..i + 1] == words[..i] + [w];
    assert WordsOfLines(done) + (cur + [w]) == words[..i + 1];
  }

  /** Emitting the last open line (if any) keeps the invariant's per-line guarantees and completes the words. */
  lemma CloseLastLine(words: seq<string>, done: seq<string>, cur: seq<string>, all: seq<string>, maxLen: int)
    requires WrapInv(words, |words|, done, cur, maxLen)
    requires all == if cur != [] then done + [Join(cur)] else done
    ensures WellWrapped(all, maxLen)
    ensures WordsOfLines(all) == words
    ensures all == [] <==> words == []
    ensures words != [] ==> (all[0] == "" <==> |words[0]| > maxLen)
  {
    assert words[..|words|] == words;
    if cur != [] {
      EmitLine(done, cur, maxLen);
      assert (done + [Join(cur)])[0] == (if done == [] then Join(cur) else done[0]);
    }
  }

  /** The single empty line of a text without words satisfies every per-line guarantee. */
  lemma BlankWrap(maxLen: int)
    ensures WellWrapped([""], maxLen)
    ensures WordsOfLines([""]) == []
  {
    assert [""][..0] == [];
    assert Words("") == [];
    assert Join([]) == "";
  }

  /** Replacing no lines by the single empty line `[""]` establishes the contract of `WrapText`. */
  lemma FinishWrap(words: seq<string>, done: seq<string>, cur: seq<string>, all: seq<string>, lines: seq<string>, maxLen: int)
    requires WrapInv(words, |words|, done, cur, maxLen)
    requires all == if cur != [] then done + [Join(cur)] else done
    requires lines == if all == [] then [""] else all
    ensures |lines| >= 1
    ensures lines == [""] <==> words == []
    ensures WordsOfLines(lines) == words
    ensures forall i :: 0 <= i < |lines| ==> lines[i] == Join(Words(lines[i]))
    ensures forall i :: 0 <= i < |lines| ==> |Words(lines[i])| <= 1 || |lines[i]| <= maxLen
    ensures forall i :: 0 < i < |lines| ==> lines[i] != ""
    ensures forall i :: 0 <= i < |lines| - 1 ==> BreakNeeded(lines[i], lines[i + 1], maxLen)
    ensures words != [] ==> (lines[0] == "" <==> |words[0]| > maxLen)
  {
    CloseLastLine(words, done, cur, all, maxLen);
    BlankWrap(maxLen);
    assert AllNormal(lines) && AllFit(lines, maxLen) && OnlyFirstEmpty(lines) && AllBreaksNeeded(lines, maxLen);
  }

  /** Before any word is read nothing is emitted and no line is open. */
  lemma StartWrap(words: seq<string>, maxLen: int)
    ensures WrapInv(words, 0, [], [], maxLen)
  {
    assert WordsOfLines([]) == [];
  }

  /** One turn of the source's loop: break before `w` when it would overflow the open line, else append it. */
  function Advance(done: seq<string>, cur: seq<string>, w: string, maxLen: int): (r: (seq<string>, seq<string>))
    ensures |r.1| >= 1 && r.1[|r.1| - 1] == w
  {
    if TotalLength(cur) + |cur| + |w| > maxLen then (done + [Join(cur)], [w]) else (done, cur + [w])
  }

  /** A turn of the loop keeps the invariant. */
  lemma AdvanceKeepsInv(words: seq<string>, i: nat, done: seq<string>, cur: seq<string>, maxLen: int)
    requires i < |words| && IsWord(words[i])
    requires WrapInv(words, i, done, cur, maxLen)
    ensures WrapInv(words, i + 1, Advance(done, cur, words[i], maxLen).0, Advance(done, cur, words[i], maxLen).1, maxLen)
  {
    WidthTest(cur, words[i], maxLen);
    if TotalLength(cur) + |cur| + |words[i]| > maxLen {
      BreakStep(words, i, done, cur, maxLen);
    } else {
      ExtendStep(words, i, done, cur, maxLen);
    }
  }

  /**
   * The loop of the source over the words: `done` collects the emitted lines
   * and `cur` the words of the line still open when the words run out.
   */
  method WrapWords(words: seq<string>, maxLen: int) returns (done: seq<string>, cur: seq<string>)
    requires forall k :: 0 <= k < |words| ==> IsWord(words[k])
    ensures WrapInv(words, |words|, done, cur, maxLen)
  {
    done, cur := [], [];
    StartWrap(words, maxLen);
    var i := 0;
    while i < |words|
      invariant 0 <= i <= |words|
      invariant WrapInv(words, i, done, cur, maxLen)
    {
      AdvanceKeepsInv(words, i, done, cur, maxLen);
      done, cur := Advance(done, cur, words[i], maxLen).0, Advance(done, cur, words[i], maxLen).1;
      i := i + 1;
    }
  }

  /**
   * Wraps `text` into lines of at most `maxLen` characters. The lines hold
   * exactly the words of `text`, in order, each line its words separated by
   * single spaces; only a line holding one word may be longer than `maxLen`;
   * a line ends only where its next word would not fit. Blank text gives the
   * single line `""`, and when the first word alone is too long the result
   * starts with an empty line.
   */
  method WrapText(text: string, maxLen: int) returns (lines: seq<string>)
    ensures |lines| >= 1
    ensures lines == [""] <==> Words(text) == []
    ensures WordsOfLines(lines) == Words(text)
    ensures forall i :: 0 <= i < |lines| ==> lines[i] == Join(Words(lines[i]))
    ensures forall i :: 0 <= i < |lines| ==> |Words(lines[i])| <= 1 || |lines[i]| <= maxLen
    ensures forall i :: 0 < i < |lines| ==> lines[i] != ""
    ensures forall i :: 0 <= i < |lines| - 1 ==> BreakNeeded(lines[i], lines[i + 1], maxLen)
    ensures Words(text) != [] ==> (lines[0] == "" <==> |Words(text)[0]| > maxLen)
  {
    var words := Words(text);
    var done, cur := WrapWords(words, maxLen);
    var all := if cur != [] then done + [Join(cur)] else done;
    lines := if all == [] then [""] else all;
    FinishWrap(words, done, cur, all, lines, maxLen);
  }
}
