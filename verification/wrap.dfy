/**
 Word wrapping (modules/clay/clay.h, the text loop of Clay__CalculateFinalLayout): the measured
 words of one newline-free text are set down on lines of a container's width. Words come as the
 text cache keeps them, a list threaded through the word array.
 */
module Wrapping {
  import opened TextCache

  /** A line drawn: its reported width and the slice of the text it shows. */
  datatype Line = Line(width: real, start: nat, length: nat)

  /** Widths are reals: the container's, and what is added after every word. */
  datatype Page = Page(container: real, spacing: real, space: real)

  // ---- what a wrapping is ---------------------------------------------------------------------

  /** How far words `a..b` reach, each followed by the letter spacing. */
  function Advance(p: Page, spans: seq<Span>, a: nat, b: nat): real
    requires a <= b <= |spans|
    decreases b
  {
    if a == b then 0.0 else Advance(p, spans, a, b - 1) + spans[b - 1].width + p.spacing
  }

  /** Each of words `a..b` ends inside the container when they are set down in turn. */
  ghost predicate Fits(p: Page, spans: seq<Span>, a: nat, b: nat)
    requires a <= b <= |spans|
  {
    forall k :: a <= k < b ==> Advance(p, spans, a, k) + spans[k].width <= p.container
  }

  predicate Wide(p: Page, w: Span) {
    w.width > p.container
  }

  /** Words `a..b` make a line: one word too wide for any line, or as many words as fit. */
  ghost predicate LineRight(p: Page, spans: seq<Span>, a: nat, b: nat) {
    && a < b <= |spans|
    && if Wide(p, spans[a]) then b == a + 1 else Fits(p, spans, a, b) && (b < |spans| ==> !Fits(p, spans, a, b + 1))
  }

  /** `cuts` are the word indices where lines begin, up to word `n`. */
  ghost predicate Breaks(p: Page, spans: seq<Span>, cuts: seq<nat>, n: nat) {
    && cuts != [] && cuts[0] == 0 && cuts[|cuts| - 1] == n
    && forall k :: 0 <= k < |cuts| - 1 ==> LineRight(p, spans, cuts[k], cuts[k + 1])
  }

  function EndOf(text: string, spans: seq<Span>, b: nat): nat {
    if b < |spans| then spans[b].start else |text|
  }

  /** What is drawn for words `a..b`: the space before a break is not part of the line. */
  function Drawn(p: Page, text: string, spans: seq<Span>, a: nat, b: nat): Line
    requires a < b <= |spans|
  {
    var from, end := spans[a].start, EndOf(text, spans, b);
    if Wide(p, spans[a]) then Line(spans[a].width, from, spans[a].length)
    else if b == |spans| then Line(Advance(p, spans, a, b) - p.spacing, from, if end > from then end - from else 0)
    else Line(Advance(p, spans, a, b) - p.space, from, if end - 1 > from then end - 1 - from else 0)
  }

  /** The lines are the ones the cuts call for. */
  ghost predicate Draws(p: Page, text: string, spans: seq<Span>, cuts: seq<nat>, lines: seq<Line>) {
    && |cuts| == |lines| + 1
    && forall k :: 0 <= k < |lines| ==> Draw(p, text, spans, cuts[k], cuts[k + 1], lines[k])
  }

  ghost predicate Draw(p: Page, text: string, spans: seq<Span>, a: nat, b: nat, line: Line) {
    a < b <= |spans| && line == Drawn(p, text, spans, a, b)
  }

  /** There is only one way to break a text. */
  lemma {:induction false} BreaksUnique(p: Page, spans: seq<Span>, c: seq<nat>, d: seq<nat>)
    requires Breaks(p, spans, c, |spans|) && Breaks(p, spans, d, |spans|)
    ensures c == d
  {
    BreaksAgree(p, spans, c, d, |c| - 1);
    BreaksAgree(p, spans, d, c, |d| - 1);
    assert forall i :: 0 <= i < |c| ==> c[i] == d[i];
  }

  lemma {:induction false} BreaksAgree(p: Page, spans: seq<Span>, c: seq<nat>, d: seq<nat>, k: nat)
    requires Breaks(p, spans, c, |spans|) && Breaks(p, spans, d, |spans|) && k < |c|
    ensures k < |d| && forall i :: 0 <= i <= k ==> c[i] == d[i]
  {
    if k > 0 {
      BreaksAgree(p, spans, c, d, k - 1);
      assert LineRight(p, spans, c[k - 1], c[k]);
      assert k < |d| ==> LineRight(p, spans, d[k - 1], d[k]);
      if k < |d| { SameCut(p, spans, c[k - 1], c[k], d[k]); }
    }
  }

  lemma SameCut(p: Page, spans: seq<Span>, a: nat, b: nat, c: nat)
    requires LineRight(p, spans, a, b) && LineRight(p, spans, a, c)
    ensures b == c
  {
  }

  // ---- the words of a text ------------------------------------------------------------------------

  /** Word `k` begins where the one before it ends, and every word but the last ends in a space. */
  lemma {:induction false} WordAt(measure: string -> real, text: string, from: nat, k: nat)
    requires from <= |text| && k < |WordsOf(measure, text, from)|
    ensures var spans := WordsOf(measure, text, from);
            && spans[0].start == from && spans[k].length > 0 && from <= spans[k].start
            && spans[k].start + spans[k].length == EndOf(text, spans, k + 1) <= |text|
            && (k + 1 < |spans| ==> text[spans[k].start + spans[k].length - 1] == ' ')
    decreases |text| - from
  {
    var spans := WordsOf(measure, text, from);
    var e := NextSpace(text, from);
    if e < |text| {
      var rest := WordsOf(measure, text, e + 1);
      assert spans[1..] == rest;
      if k > 0 {
        assert spans[k] == rest[k - 1] && (k + 1 < |spans| ==> spans[k + 1] == rest[k]);
        WordAt(measure, text, e + 1, k - 1);
      } else if rest != [] {
        WordAt(measure, text, e + 1, 0);
        assert spans[1] == rest[0];
      } else {
        assert e + 1 == |text|;
      }
    }
  }

  lemma WordsFrom(measure: string -> real, text: string)
    ensures var spans := WordsOf(measure, text, 0); spans == [] <==> text == []
  {
  }

  /** Later words begin later. */
  lemma {:induction false} WordsGoOn(measure: string -> real, text: string, a: nat, b: nat)
    requires a < b <= |WordsOf(measure, text, 0)|
    ensures var spans := WordsOf(measure, text, 0); spans[a].start + spans[a].length <= EndOf(text, spans, b) <= |text|
    decreases b - a
  {
    WordAt(measure, text, 0, a);
    if a + 1 < b {
      WordsGoOn(measure, text, a + 1, b);
    }
  }

  // ---- what a reader sees ---------------------------------------------------------------------------

  /** Characters left out between a line ending at `end` and the next beginning at `next`: at most one, a space. */
  ghost predicate GapRight(text: string, end: nat, next: nat) {
    && end <= next <= |text| && next <= end + 1
    && (next == end + 1 ==> text[end] == ' ')
  }

  /** The slices are in order and disjoint, and cover the text but for one space at some breaks. */
  ghost predicate Covers(text: string, lines: seq<Line>) {
    && (lines == [] ==> text == "")
    && (lines != [] ==> lines[0].start == 0 && lines[|lines| - 1].start + lines[|lines| - 1].length == |text|)
    && forall k :: 0 <= k < |lines| - 1 ==> GapRight(text, lines[k].start + lines[k].length, lines[k + 1].start)
  }

  /** The lines put together again, a space wherever one was left out. */
  ghost function Joined(text: string, lines: seq<Line>): string {
    if lines == [] || lines[0].start + lines[0].length > |text| then ""
    else text[lines[0].start..lines[0].start + lines[0].length] +
         (if |lines| > 1 && lines[1].start > lines[0].start + lines[0].length then " " else "") +
         Joined(text, lines[1..])
  }

  lemma CutTwice(text: string, start: nat, end: nat, next: nat)
    requires start <= end && GapRight(text, end, next)
    ensures text[start..] == text[start..end] + (if next > end then " " else "") + text[next..]
  {
    assert text[end..next] == if next > end then " " else "";
  }

  lemma {:induction false} JoinedIs(text: string, lines: seq<Line>)
    requires lines != [] && lines[|lines| - 1].start + lines[|lines| - 1].length == |text|
    requires forall k :: 0 <= k < |lines| - 1 ==> GapRight(text, lines[k].start + lines[k].length, lines[k + 1].start)
    ensures lines[0].start + lines[0].length <= |text| && Joined(text, lines) == text[lines[0].start..]
    decreases |lines|
  {
    var end := lines[0].start + lines[0].length;
    if |lines| == 1 {
      assert lines[1..] == [];
      assert text[lines[0].start..end] == text[lines[0].start..];
    } else {
      var next := lines[1].start;
      assert GapRight(text, end, next);
      forall k | 0 <= k < |lines[1..]| - 1
        ensures GapRight(text, lines[1..][k].start + lines[1..][k].length, lines[1..][k + 1].start)
      {
        assert lines[1..][k] == lines[k + 1] && lines[1..][k + 1] == lines[k + 2];
      }
      JoinedIs(text, lines[1..]);
      CutTwice(text, lines[0].start, end, next);
    }
  }

  /** Lines that cover the text lose nothing but those spaces. */
  lemma CoversJoined(text: string, lines: seq<Line>)
    requires Covers(text, lines)
    ensures Joined(text, lines) == text
  {
    if lines != [] {
      JoinedIs(text, lines);
      assert text[0..] == text;
    }
  }

  /** A line drawn for words `a..b` of a text shows those words, less the space at a break. */
  lemma DrawnSlice(p: Page, measure: string -> real, text: string, a: nat, b: nat)
    requires a < b <= |WordsOf(measure, text, 0)| && LineRight(p, WordsOf(measure, text, 0), a, b)
    ensures var spans := WordsOf(measure, text, 0); var line := Drawn(p, text, spans, a, b);
            var end := line.start + line.length;
            && line.start == spans[a].start && GapRight(text, end, EndOf(text, spans, b))
            && (end == EndOf(text, spans, b) <==> b == |spans| || Wide(p, spans[a]))
  {
    hide WordsOf, Advance, Fits;
    WordsGoOn(measure, text, a, b);
    WordAt(measure, text, 0, a);
    WordAt(measure, text, 0, b - 1);
    if a < b - 1 { WordsGoOn(measure, text, a, b - 1); }
  }

  /** Line `k`: where it begins, where it ends, and whether a space is left out after it. */
  lemma LineSlice(p: Page, measure: string -> real, text: string, cuts: seq<nat>, lines: seq<Line>, k: nat)
    requires var spans := WordsOf(measure, text, 0);
            Breaks(p, spans, cuts, |spans|) && Draws(p, text, spans, cuts, lines)
    requires k < |lines|
    ensures var spans := WordsOf(measure, text, 0); var end := lines[k].start + lines[k].length;
            && cuts[k] < cuts[k + 1] <= |spans| && lines[k].start == spans[cuts[k]].start
            && GapRight(text, end, EndOf(text, spans, cuts[k + 1]))
            && (end == EndOf(text, spans, cuts[k + 1]) <==> cuts[k + 1] == |spans| || Wide(p, spans[cuts[k]]))
  {
    hide WordsOf, Drawn;
    var spans := WordsOf(measure, text, 0);
    assert Draw(p, text, spans, cuts[k], cuts[k + 1], lines[k]) && LineRight(p, spans, cuts[k], cuts[k + 1]);
    DrawnSlice(p, measure, text, cuts[k], cuts[k + 1]);
  }

  /** What wrapping gives: the whole text but for one space at each break after words that fitted. */
  lemma WrappedCovers(p: Page, measure: string -> real, text: string, cuts: seq<nat>, lines: seq<Line>)
    requires var spans := WordsOf(measure, text, 0);
            Breaks(p, spans, cuts, |spans|) && Draws(p, text, spans, cuts, lines)
    ensures Covers(text, lines) && Joined(text, lines) == text
    ensures forall k :: 0 <= k < |lines| - 1 ==>
              (lines[k + 1].start == lines[k].start + lines[k].length <==>
               cuts[k] < |WordsOf(measure, text, 0)| && Wide(p, WordsOf(measure, text, 0)[cuts[k]]))
  {
    hide WordsOf, Draw, LineRight, Joined;
    var spans := WordsOf(measure, text, 0);
    WordsFrom(measure, text);
    forall k | 0 <= k < |lines| - 1
      ensures GapRight(text, lines[k].start + lines[k].length, lines[k + 1].start)
      ensures lines[k + 1].start == lines[k].start + lines[k].length <==> cuts[k] < |spans| && Wide(p, spans[cuts[k]])
    {
      LineSlice(p, measure, text, cuts, lines, k);
      LineSlice(p, measure, text, cuts, lines, k + 1);
    }
    if lines != [] {
      LineSlice(p, measure, text, cuts, lines, 0);
      LineSlice(p, measure, text, cuts, lines, |lines| - 1);
      WordAt(measure, text, 0, 0);
    }
    CoversJoined(text, lines);
  }

  /**
   Every line of two or more words keeps within the container to within the letter spacing; the
   last one keeps within it outright.
   */
  lemma WrappedFits(p: Page, measure: string -> real, text: string, cuts: seq<nat>, lines: seq<Line>, k: nat)
    requires var spans := WordsOf(measure, text, 0);
            Breaks(p, spans, cuts, |spans|) && Draws(p, text, spans, cuts, lines)
    requires k < |lines| && cuts[k + 1] - cuts[k] >= 2
    ensures k < |lines| - 1 ==> lines[k].width <= p.container + p.spacing - p.space
    ensures k == |lines| - 1 ==> lines[k].width <= p.container
  {
    hide WordsOf;
    var spans := WordsOf(measure, text, 0);
    var a, b := cuts[k], cuts[k + 1];
    assert LineRight(p, spans, a, b) && Draw(p, text, spans, a, b, lines[k]);
    assert Advance(p, spans, a, b - 1) + spans[b - 1].width <= p.container;
    if k < |lines| - 1 {
      assert LineRight(p, spans, b, cuts[k + 2]);
    }
  }

  // ---- the loop ---------------------------------------------------------------------------------------

  lemma PathHere(words: seq<Word>, head: int, list: seq<nat>)
    requires WordPath(words, head, list)
    ensures head == -1 <==> list == []
    ensures list != [] ==> head == list[0] && 0 <= head < |words| && WordPath(words, words[head].next, list[1..])
  {
  }

  /** The line in hand, words `a..i`: they fit, and the counters speak of them. */
  ghost predicate InHand(p: Page, text: string, spans: seq<Span>, a: nat, i: nat, start: nat, length: nat,
      width: real) {
    && a <= i <= |spans| && start == EndOf(text, spans, a) && start + length == EndOf(text, spans, i)
    && (length == 0 <==> a == i)
    && width == Advance(p, spans, a, i) && Fits(p, spans, a, i)
  }

  lemma LineIn(p: Page, spans: seq<Span>, a: nat, b: nat)
    requires LineRight(p, spans, a, b)
    ensures a < b <= |spans|
  {
  }

  /** A line finished: its cut and its drawing go on the end. */
  lemma CutAgain(p: Page, text: string, spans: seq<Span>, cuts: seq<nat>, lines: seq<Line>, a: nat, b: nat)
    requires Breaks(p, spans, cuts, a) && Draws(p, text, spans, cuts, lines) && LineRight(p, spans, a, b)
    ensures Breaks(p, spans, cuts + [b], b) && Draws(p, text, spans, cuts + [b], lines + [Drawn(p, text, spans, a, b)])
  {
    hide LineRight, Drawn;
    assert a < b <= |spans| by { LineIn(p, spans, a, b); }
    var cuts' := cuts + [b];
    forall k | 0 <= k < |cuts'| - 1 ensures LineRight(p, spans, cuts'[k], cuts'[k + 1]) {
      if k < |cuts| - 1 { assert LineRight(p, spans, cuts[k], cuts[k + 1]); }
    }
    var lines' := lines + [Drawn(p, text, spans, a, b)];
    forall k | 0 <= k < |lines'| ensures Draw(p, text, spans, cuts'[k], cuts'[k + 1], lines'[k]) {
      if k < |lines| { assert Draw(p, text, spans, cuts[k], cuts[k + 1], lines[k]); }
    }
  }

  /** A word that fits joins the line in hand. */
  lemma WordJoins(p: Page, measure: string -> real, text: string, a: nat, i: nat, start: nat, length: nat, width: real)
    requires i < |WordsOf(measure, text, 0)| && InHand(p, text, WordsOf(measure, text, 0), a, i, start, length, width)
    requires width + WordsOf(measure, text, 0)[i].width <= p.container
    ensures var w := WordsOf(measure, text, 0)[i];
            InHand(p, text, WordsOf(measure, text, 0), a, i + 1, start, length + w.length,
                width + (w.width + p.spacing))
  {
    hide WordsOf;
    WordAt(measure, text, 0, i);
    SpanJoins(p, text, WordsOf(measure, text, 0), a, i, start, length, width);
  }

  lemma SpanJoins(p: Page, text: string, spans: seq<Span>, a: nat, i: nat, start: nat, length: nat, width: real)
    requires i < |spans| && InHand(p, text, spans, a, i, start, length, width) && width + spans[i].width <= p.container
    requires spans[i].length > 0 && spans[i].start + spans[i].length == EndOf(text, spans, i + 1)
    ensures InHand(p, text, spans, a, i + 1, start, length + spans[i].length, width + (spans[i].width + p.spacing))
  {
    assert Advance(p, spans, a, i + 1) == width + (spans[i].width + p.spacing);
  }

  /** A word that does not fit ends the line in hand, whose last character is a space. */
  lemma WordBreaks(p: Page, measure: string -> real, text: string, a: nat, i: nat, start: nat, length: nat, width: real)
    requires i < |WordsOf(measure, text, 0)|
    requires InHand(p, text, WordsOf(measure, text, 0), a, i, start, length, width) && a < i
    requires width + WordsOf(measure, text, 0)[i].width > p.container
    ensures start + length <= |text| && text[start + length - 1] == ' '
    ensures LineRight(p, WordsOf(measure, text, 0), a, i)
    ensures Drawn(p, text, WordsOf(measure, text, 0), a, i) == Line(width - p.space, start, length - 1)
  {
    hide WordsOf, LineRight, Drawn, Fits, Advance;
    WordAt(measure, text, 0, i - 1);
    WordsGoOn(measure, text, a, i);
    SpanBreaks(p, text, WordsOf(measure, text, 0), a, i, start, length, width);
  }

  lemma SpanBreaks(p: Page, text: string, spans: seq<Span>, a: nat, i: nat, start: nat, length: nat, width: real)
    requires a < i < |spans| && InHand(p, text, spans, a, i, start, length, width)
    requires width + spans[i].width > p.container
    ensures LineRight(p, spans, a, i) && Drawn(p, text, spans, a, i) == Line(width - p.space, start, length - 1)
  {
    assert Advance(p, spans, a, a) + spans[a].width <= p.container;
    assert !Fits(p, spans, a, i + 1);
  }

  /** The last line, when words are in hand at the end. */
  lemma LastLine(p: Page, measure: string -> real, text: string, a: nat, start: nat, length: nat, width: real)
    requires var spans := WordsOf(measure, text, 0);
             a < |spans| && InHand(p, text, spans, a, |spans|, start, length, width)
    ensures LineRight(p, WordsOf(measure, text, 0), a, |WordsOf(measure, text, 0)|)
    ensures Drawn(p, text, WordsOf(measure, text, 0), a, |WordsOf(measure, text, 0)|) ==
            Line(width - p.spacing, start, length)
  {
    var spans := WordsOf(measure, text, 0);
    assert Advance(p, spans, a, a) + spans[a].width <= p.container;
  }

  /** The lines of a text whose words are the list at `head`: it ends, and breaks the text the one right way. */
  method Wrap(p: Page, measure: string -> real, text: string, words: seq<Word>, head: int, ghost list: seq<nat>)
    returns (lines: seq<Line>, ghost cuts: seq<nat>)
    requires WordPath(words, head, list) && WordsIn(words, list) && Spelled(words, list) == WordsOf(measure, text, 0)
    ensures var spans := WordsOf(measure, text, 0);
            Breaks(p, spans, cuts, |spans|) && Draws(p, text, spans, cuts, lines)
  {
    hide WordPath, WordsOf, Fits, LineRight, Drawn, Advance, Breaks, Draws;
    var width := 0.0;
    var length: nat, start: nat, word: int := 0, 0, head;
    ghost var spans, a, i := WordsOf(measure, text, 0), 0, 0;
    lines, cuts := [], [0];
    Begin(p, measure, text);
    assert list[0..] == list;
    while word != -1
      invariant i <= |list| == |spans| && WordPath(words, word, list[i..])
      invariant InHand(p, text, spans, a, i, start, length, width)
      invariant Breaks(p, spans, cuts, a) && Draws(p, text, spans, cuts, lines)
      decreases |list| - i, i - a
    {
      PathHere(words, word, list[i..]);
      assert list[i..][1..] == list[i + 1..] && list[i..][0] == list[i];
      var w := words[word];
      assert w.span == Spelled(words, list)[i] == spans[i];
      if length == 0 && width + w.span.width > p.container {
        Alone(p, measure, text, i, start, width);
        CutAgain(p, text, spans, cuts, lines, i, i + 1);
        lines := lines + [Line(w.span.width, w.span.start, w.span.length)];
        word := w.next;
        start := w.span.start + w.span.length;
        a, i, cuts := i + 1, i + 1, cuts + [i + 1];
      } else if width + w.span.width > p.container {
        WordBreaks(p, measure, text, a, i, start, length, width);
        CutAgain(p, text, spans, cuts, lines, a, i);
        var endsInSpace := text[start + length - 1] == ' ';
        lines := lines + [Line(width - (if endsInSpace then p.space else 0.0), start,
            if endsInSpace then length - 1 else length)];
        width, length, start := 0.0, 0, w.span.start;
        a, cuts := i, cuts + [i];
        Empty(p, measure, text, i);
      } else {
        WordJoins(p, measure, text, a, i, start, length, width);
        width := width + (w.span.width + p.spacing);
        length := length + w.span.length;
        word := w.next;
        i := i + 1;
      }
    }
    PathHere(words, word, list[i..]);
    if length > 0 {
      LastLine(p, measure, text, a, start, length, width);
      CutAgain(p, text, spans, cuts, lines, a, |spans|);
      lines := lines + [Line(width - p.spacing, start, length)];
      cuts := cuts + [|spans|];
    }
  }

  lemma Empty(p: Page, measure: string -> real, text: string, i: nat)
    requires i < |WordsOf(measure, text, 0)|
    ensures InHand(p, text, WordsOf(measure, text, 0), i, i, WordsOf(measure, text, 0)[i].start, 0, 0.0)
  {
  }

  lemma Begin(p: Page, measure: string -> real, text: string)
    ensures var spans := WordsOf(measure, text, 0);
            && InHand(p, text, spans, 0, 0, 0, 0, 0.0) && Breaks(p, spans, [0], 0) && Draws(p, text, spans, [0], [])
  {
    WordsFrom(measure, text);
    if WordsOf(measure, text, 0) != [] { WordAt(measure, text, 0, 0); }
  }

  /** A word too wide for any line, drawn by itself, its space with it. */
  lemma Alone(p: Page, measure: string -> real, text: string, i: nat, start: nat, width: real)
    requires i < |WordsOf(measure, text, 0)| && InHand(p, text, WordsOf(measure, text, 0), i, i, start, 0, width)
    requires width + WordsOf(measure, text, 0)[i].width > p.container
    ensures var spans := WordsOf(measure, text, 0); var w := spans[i];
            && LineRight(p, spans, i, i + 1) && Drawn(p, text, spans, i, i + 1) == Line(w.width, w.start, w.length)
            && InHand(p, text, spans, i + 1, i + 1, w.start + w.length, 0, 0.0) && width == 0.0
  {
    WordAt(measure, text, 0, i);
  }

  /**
   A text element laid out: on one line as wide as its container when its words all fit side by
   side, wrapped otherwise. Either way the lines put together again are the text.
   */
  method WrapElement(p: Page, preferred: real, measure: string -> real, text: string, words: seq<Word>, head: int,
                     ghost list: seq<nat>)
    returns (lines: seq<Line>)
    requires WordPath(words, head, list) && WordsIn(words, list) && Spelled(words, list) == WordsOf(measure, text, 0)
    ensures Covers(text, lines) && Joined(text, lines) == text
    ensures preferred <= p.container ==> lines == [Line(p.container, 0, |text|)]
    ensures preferred > p.container ==>
      exists cuts :: Breaks(p, WordsOf(measure, text, 0), cuts, |WordsOf(measure, text, 0)|)
                     && Draws(p, text, WordsOf(measure, text, 0), cuts, lines)
  {
    hide WordPath, WordsOf, Fits, LineRight, Drawn, Advance, Breaks, Draws;
    if preferred <= p.container {
      lines := [Line(p.container, 0, |text|)];
      CoversJoined(text, lines);
      return;
    }
    ghost var cuts;
    lines, cuts := Wrap(p, measure, text, words, head, list);
    WrappedCovers(p, measure, text, cuts, lines);
  }

  /**
   The text loop for one element over the cache it measures with. An item the cache already has
   for this text's hash must be for this text: Clay takes the hash for the text. Then the lines put
   together again are the text, unless the cache had no room to measure it.
   */
  method LayOut(cache: Cache, p: Page, preferred: real, text: string) returns (room: bool, lines: seq<Line>)
    requires cache.Valid()
    requires forall x: nat :: cache.Chained(x) && cache.items[x].id == cache.hash(text) ==> cache.texts[x] == text
    modifies cache
    ensures cache.Valid() && (room ==> cache.leaked == old(cache.leaked))
    ensures !room ==>
      (cache.itemsFree == [] && |cache.items| == cache.itemCap - 1) || |cache.words| == cache.wordCap - 1
    ensures old(|cache.items|) < cache.itemCap - 1 && WordsFit(old(|cache.words|), 0, text, cache.wordCap) ==> room
    ensures (exists x: nat :: old(cache.Chained(x)) && old(cache.items[x].id) == cache.hash(text)) ==> room
    ensures room || preferred <= p.container ==> Covers(text, lines) && Joined(text, lines) == text
    ensures preferred <= p.container ==> lines == [Line(p.container, 0, |text|)]
    ensures room && preferred > p.container ==>
      exists cuts :: Breaks(p, WordsOf(cache.measure, text, 0), cuts, |WordsOf(cache.measure, text, 0)|)
                     && Draws(p, text, WordsOf(cache.measure, text, 0), cuts, lines)
    ensures !room && preferred > p.container ==> lines == []
  {
    hide WordPath, WordsOf, Right, Tight, Unique, WordsFit, Breaks, Draws;
    var item := cache.MeasureTextCached(text);
    room, lines := item.Some?, [];
    if room {
      lines := WrapElement(p, preferred, cache.measure, text, cache.words, cache.items[item.value].start,
          cache.lists[item.value]);
    } else if preferred <= p.container {
      lines := [Line(p.container, 0, |text|)];
      CoversJoined(text, lines);
    }
  }
}
