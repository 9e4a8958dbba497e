/** Greedy word wrap of the intent editor, and where the cursor lands in the wrapped rows. */
module WordWrap {
  import opened Options
  import opened LineBreaks

  /** A row's characters, from `start` up to `end` of its line. */
  datatype Segment = Segment(start: nat, end: nat)

  // ---------------------------------------------------------------- the greedy rule

  /** The display width of the characters from `s` up to `e`. */
  function Span(widths: seq<nat>, s: nat, e: nat): nat
    requires s <= e <= |widths|
  {
    if s == e then 0 else Span(widths, s, e - 1) + widths[e - 1]
  }

  /** Every part of the row from `s` up to `i` of more than one character fits. */
  ghost predicate Fits(widths: seq<nat>, width: nat, s: nat, i: nat)
    requires s <= i <= |widths|
  {
    forall e :: s + 1 < e <= i ==> Span(widths, s, e) <= width
  }

  /** The first character after `i`, but not the row's first, that no longer fits. */
  function Overflow(widths: seq<nat>, width: nat, s: nat, i: nat): (r: nat)
    requires s <= i <= |widths|
    ensures i <= r <= |widths|
    decreases |widths| - i
  {
    if i == |widths| || (i > s && Span(widths, s, i + 1) > width) then i else Overflow(widths, width, s, i + 1)
  }

  /** After the last space before `i` in the row, or none. */
  function LastBreak(chars: string, s: nat, i: nat): (r: Option<nat>)
    requires s <= i <= |chars|
    ensures r.Some? ==> s < r.value <= i
  {
    if s == i then None else if chars[i - 1] == ' ' then Some(i) else LastBreak(chars, s, i - 1)
  }

  /** Where the row that starts at `s` ends when character `i` does not fit. */
  function RowEnd(chars: string, s: nat, i: nat): (e: nat)
    requires s < i <= |chars|
    ensures s < e <= i
  {
    match LastBreak(chars, s, i) case Some(e) => e case None => i
  }

  /** The rows from `s` on: each as long as it fits, broken after its last space if it has one. */
  function Greedy(chars: string, widths: seq<nat>, width: nat, s: nat): seq<Segment>
    requires |chars| == |widths| && s <= |chars|
    decreases |chars| - s
  {
    var i := Overflow(widths, width, s, s);
    if i == |chars| then [Segment(s, |chars|)]
    else
      OverflowPast(widths, width, s, s);
      var e := RowEnd(chars, s, i);
      [Segment(s, e)] + Greedy(chars, widths, width, e)
  }

  lemma {:induction false} OverflowPast(widths: seq<nat>, width: nat, s: nat, i: nat)
    requires s <= i <= |widths|
    ensures var r := Overflow(widths, width, s, i);
            r < |widths| ==> r > s && Span(widths, s, r + 1) > width
    ensures Fits(widths, width, s, i) ==> Fits(widths, width, s, Overflow(widths, width, s, i))
    decreases |widths| - i
  {
    if !(i == |widths| || (i > s && Span(widths, s, i + 1) > width)) {
      OverflowPast(widths, width, s, i + 1);
    }
  }

  /** Nothing overflows up to `i`, so the search may start there. */
  lemma {:induction false} OverflowSkip(widths: seq<nat>, width: nat, s: nat, i: nat)
    requires s <= i <= |widths|
    requires Fits(widths, width, s, i)
    ensures Overflow(widths, width, s, s) == Overflow(widths, width, s, i)
    decreases i
  {
    if s < i {
      OverflowSkip(widths, width, s, i - 1);
    }
  }

  lemma {:induction false} SpanSplit(widths: seq<nat>, s: nat, m: nat, e: nat)
    requires s <= m <= e <= |widths|
    ensures Span(widths, s, e) == Span(widths, s, m) + Span(widths, m, e)
    decreases e
  {
    if m < e {
      SpanSplit(widths, s, m, e - 1);
    }
  }

  lemma {:induction false} LastBreakIsLast(chars: string, s: nat, i: nat)
    requires s <= i <= |chars|
    ensures match LastBreak(chars, s, i)
            case Some(e) => chars[e - 1] == ' ' && forall j :: e <= j < i ==> chars[j] != ' '
            case None => forall j :: s <= j < i ==> chars[j] != ' '
  {
    if s < i && chars[i - 1] != ' ' {
      LastBreakIsLast(chars, s, i - 1);
    }
  }

  lemma {:induction false} NoBreak(chars: string, s: nat, i: nat)
    requires s <= i <= |chars| && forall j :: s <= j < i ==> chars[j] != ' '
    ensures LastBreak(chars, s, i) == None
  {
    if s < i {
      NoBreak(chars, s, i - 1);
    }
  }

  method SpanOf(widths: seq<nat>, s: nat, e: nat) returns (sum: nat)
    requires s <= e <= |widths|
    ensures sum == Span(widths, s, e)
  {
    sum := 0;
    for k := s to e
      invariant sum == Span(widths, s, k)
    {
      sum := sum + widths[k];
    }
  }

  /** Wraps one line; the loop ends although some passes only move the start of the row. */
  method WrapSegments(chars: string, widths: seq<nat>, width: nat) returns (segments: seq<Segment>)
    requires |chars| == |widths|
    ensures segments == Greedy(chars, widths, width, 0)
  {
    hide Greedy, Fits, Span, LastBreak, RowEnd;
    segments := [];
    var start: nat, col: nat, index: nat := 0, 0, 0;
    RowBegins(chars, widths, width);
    var lastBreak: Option<nat> := None;
    while index < |chars|
      invariant start <= index <= |chars|
      invariant col == Span(widths, start, index)
      invariant lastBreak == LastBreak(chars, start, index)
      invariant Fits(widths, width, start, index)
      invariant segments + Greedy(chars, widths, width, start) == Greedy(chars, widths, width, 0)
      decreases |chars| - index, index - start
    {
      var charWidth := widths[index];
      if col + charWidth > width && index > start {
        var end := if lastBreak.Some? && lastBreak.value > start then lastBreak.value else index;
        GreedyStep(chars, widths, width, start, index);
        RowAfterBreak(chars, widths, width, start, index);
        RowEndIs(chars, start, index);
        segments := segments + [Segment(start, end)];
        start := end;
        col := SpanOf(widths, start, index);
        lastBreak := None;
      } else {
        RowGoesOn(chars, widths, width, start, index);
        col := col + charWidth;
        if chars[index] == ' ' {
          lastBreak := Some(index + 1);
        }
        index := index + 1;
      }
    }
    LastRow(chars, widths, width, start);
    segments := segments + [Segment(start, |chars|)];
  }

  lemma RowBegins(chars: string, widths: seq<nat>, width: nat)
    requires |chars| == |widths|
    ensures Span(widths, 0, 0) == 0 && LastBreak(chars, 0, 0) == None && Fits(widths, width, 0, 0)
  {
  }

  lemma RowEndIs(chars: string, s: nat, i: nat)
    requires s < i <= |chars|
    ensures var b := LastBreak(chars, s, i);
            RowEnd(chars, s, i) == if b.Some? && b.value > s then b.value else i
  {
  }

  /** A character that fits, or is the row's first, joins the row. */
  lemma RowGoesOn(chars: string, widths: seq<nat>, width: nat, s: nat, i: nat)
    requires |chars| == |widths| && s <= i < |chars| && Fits(widths, width, s, i)
    requires i > s ==> Span(widths, s, i) + widths[i] <= width
    ensures Span(widths, s, i + 1) == Span(widths, s, i) + widths[i] && Fits(widths, width, s, i + 1)
    ensures LastBreak(chars, s, i + 1) == if chars[i] == ' ' then Some(i + 1) else LastBreak(chars, s, i)
  {
    hide LastBreak;
    LastBreakStep(chars, s, i);
  }

  lemma LastBreakStep(chars: string, s: nat, i: nat)
    requires s <= i < |chars|
    ensures LastBreak(chars, s, i + 1) == if chars[i] == ' ' then Some(i + 1) else LastBreak(chars, s, i)
  {
  }

  /** The last row takes the rest of the line. */
  lemma LastRow(chars: string, widths: seq<nat>, width: nat, s: nat)
    requires |chars| == |widths| && s <= |chars| && Fits(widths, width, s, |chars|)
    ensures Greedy(chars, widths, width, s) == [Segment(s, |chars|)]
  {
    OverflowSkip(widths, width, s, |chars|);
  }

  lemma GreedyStep(chars: string, widths: seq<nat>, width: nat, s: nat, i: nat)
    requires |chars| == |widths| && s < i < |chars|
    requires Fits(widths, width, s, i)
    requires Span(widths, s, i) + widths[i] > width
    ensures var e := RowEnd(chars, s, i);
            Greedy(chars, widths, width, s) == [Segment(s, e)] + Greedy(chars, widths, width, e)
  {
    OverflowSkip(widths, width, s, i);
    assert Overflow(widths, width, s, i) == i;
  }

  /** The part of an overflowing row that moves to the next row has no space and fits so far. */
  lemma RowAfterBreak(chars: string, widths: seq<nat>, width: nat, s: nat, i: nat)
    requires |chars| == |widths| && s < i < |chars|
    requires Fits(widths, width, s, i)
    ensures var e := RowEnd(chars, s, i);
            && LastBreak(chars, e, i) == None
            && Fits(widths, width, e, i)
  {
    var e := RowEnd(chars, s, i);
    LastBreakIsLast(chars, s, i);
    NoBreak(chars, e, i);
    forall k | e + 1 < k <= i
      ensures Span(widths, e, k) <= width
    {
      SpanSplit(widths, s, e, k);
    }
  }

  // ---------------------------------------------------------------- what the rows are

  /** Row `k` fits or is one character; unless it is the last, the character after it did not fit behind it and no later space could have ended it. */
  ghost predicate IsRow(chars: string, widths: seq<nat>, width: nat, r: Segment, last: bool)
    requires |chars| == |widths|
  {
    && r.start <= r.end <= |chars|
    && (Span(widths, r.start, r.end) <= width || r.end == r.start + 1)
    && (if last then r.end == |chars| && (r.start < r.end || chars == "")
        else r.start < r.end && exists i :: ForcedAt(chars, widths, width, r, i))
  }

  ghost predicate ForcedAt(chars: string, widths: seq<nat>, width: nat, r: Segment, i: nat)
    requires |chars| == |widths| && r.start <= r.end <= |chars|
  {
    && r.start < r.end <= i < |chars|
    && Span(widths, r.start, i + 1) > width
    && Fits(widths, width, r.start, i)
    && (forall j :: r.end <= j < i ==> chars[j] != ' ')
    && (chars[r.end - 1] == ' ' || r.end == i)
  }

  /** The rows cover the line from `s` on without a gap. */
  ghost predicate Covers(segments: seq<Segment>, s: nat, e: nat) {
    && segments != [] && segments[0].start == s && segments[|segments| - 1].end == e
    && forall k :: 0 < k < |segments| ==> segments[k].start == segments[k - 1].end
  }

  lemma {:induction false} GreedyRows(chars: string, widths: seq<nat>, width: nat, s: nat)
    requires |chars| == |widths| && s <= |chars| && (s == |chars| ==> chars == "")
    ensures var g := Greedy(chars, widths, width, s);
            && Covers(g, s, |chars|)
            && forall k :: 0 <= k < |g| ==> IsRow(chars, widths, width, g[k], k == |g| - 1)
    decreases |chars| - s
  {
    var i := Overflow(widths, width, s, s);
    OverflowPast(widths, width, s, s);
    if i < |chars| {
      var e := RowEnd(chars, s, i);
      var rest := Greedy(chars, widths, width, e);
      var g := [Segment(s, e)] + rest;
      LastBreakIsLast(chars, s, i);
      assert ForcedAt(chars, widths, width, Segment(s, e), i);
      assert IsRow(chars, widths, width, Segment(s, e), false);
      GreedyRows(chars, widths, width, e);
      forall k | 0 <= k < |g|
        ensures IsRow(chars, widths, width, g[k], k == |g| - 1)
        ensures k > 0 ==> g[k].start == g[k - 1].end
      {
        if k > 0 {
          assert g[k] == rest[k - 1];
          if k > 1 {
            assert g[k - 1] == rest[k - 2];
          }
        }
      }
    }
  }

  /** Wrapping ends, covers the line, and every break was forced by a character that did not fit. */
  lemma WrapIsGreedy(chars: string, widths: seq<nat>, width: nat)
    requires |chars| == |widths|
    ensures var g := Greedy(chars, widths, width, 0);
            && Covers(g, 0, |chars|)
            && forall k :: 0 <= k < |g| ==> IsRow(chars, widths, width, g[k], k == |g| - 1)
  {
    GreedyRows(chars, widths, width, 0);
  }

  // ---------------------------------------------------------------- lines and the cursor

  /** The text split at its line breaks; there is always a line. */
  function Split(text: string): (lines: seq<string>)
    ensures lines != []
    decreases |text|
  {
    var i := Break(text);
    if i == |text| then [text] else [text[..i]] + Split(text[i + 1..])
  }

  ghost function Joined(lines: seq<string>): string {
    if lines == [] then "" else if |lines| == 1 then lines[0] else lines[0] + "\n" + Joined(lines[1..])
  }

  /** The lines joined by breaks are the text, and no line has a break. */
  lemma {:induction false} LinesMakeText(text: string)
    ensures Joined(Split(text)) == text && forall k :: 0 <= k < |Split(text)| ==> '\n' !in Split(text)[k]
    decreases |text|
  {
    hide Split, Break;
    var i := Break(text);
    SplitStep(text);
    BreakIsFirst(text);
    if i < |text| {
      LinesMakeText(text[i + 1..]);
      var rest := Split(text[i + 1..]);
      assert ([text[..i]] + rest)[1..] == rest;
      assert text == text[..i] + "\n" + text[i + 1..];
    } else {
      assert text[..i] == text;
    }
  }

  /** Where line `n` starts in the text. */
  function Offset(lines: seq<string>, n: nat): nat
    requires n <= |lines|
  {
    if n == 0 then 0 else |lines[0]| + 1 + Offset(lines[1..], n - 1)
  }

  function CursorLineCol(text: string, cursor: nat): (nat, nat)
    requires cursor <= |text|
  {
    var before := Split(text[..cursor]);
    (|before| - 1, |before[|before| - 1]|)
  }

  function Min(a: nat, b: nat): nat {
    if a < b then a else b
  }

  function LineColToCursor(text: string, line: nat, col: nat): nat {
    var lines := Split(text);
    if line < |lines| then Offset(lines, line) + Min(col, |lines[line]|) else Offset(lines, |lines|)
  }

  lemma {:induction false} OffsetStep(lines: seq<string>, n: nat)
    requires n < |lines|
    ensures Offset(lines, n + 1) == Offset(lines, n) + |lines[n]| + 1
  {
    if n > 0 {
      OffsetStep(lines[1..], n - 1);
    }
  }

  lemma SplitStep(text: string)
    ensures Split(text) == if Break(text) == |text| then [text] else [text[..Break(text)]] + Split(text[Break(text) + 1..])
  {
    hide Break;
  }

  lemma SlicePrefix(text: string, cursor: nat, i: nat)
    requires i < cursor <= |text|
    ensures text[..cursor][..i] == text[..i]
    ensures text[..cursor][i + 1..] == text[i + 1..][..cursor - i - 1]
  {
  }

  lemma BreakOfPrefix(text: string, cursor: nat)
    requires cursor <= |text|
    ensures Break(text[..cursor]) == Min(cursor, Break(text))
  {
    var k := Min(cursor, Break(text));
    BreakIsFirst(text);
    assert text[..cursor][..k] == text[..Break(text)][..k];
    BreakIs(text[..cursor], k);
  }

  /** The text before the cursor splits into the lines before the cursor's and the start of that line. */
  lemma SplitPrefix(text: string, cursor: nat)
    requires cursor <= |text|
    ensures var i := Break(text);
            Split(text[..cursor]) == if cursor <= i then [text[..cursor]]
                                     else [text[..i]] + Split(text[i + 1..][..cursor - i - 1])
  {
    hide Split, Break;
    BreakOfPrefix(text, cursor);
    if cursor > Break(text) {
      PrefixBroken(text, cursor, Break(text));
    } else {
      SplitStep(text[..cursor]);
    }
  }

  lemma PrefixBroken(text: string, cursor: nat, i: nat)
    requires i < cursor <= |text| && Break(text[..cursor]) == i
    ensures Split(text[..cursor]) == [text[..i]] + Split(text[i + 1..][..cursor - i - 1])
  {
    hide Split, Break;
    SlicePrefix(text, cursor, i);
    SplitBroken(text[..cursor], i, text[..i], text[i + 1..][..cursor - i - 1]);
  }

  lemma SplitBroken(text: string, i: nat, first: string, rest: string)
    requires i == Break(text) < |text| && text[..i] == first && text[i + 1..] == rest
    ensures Split(text) == [first] + Split(rest)
  {
    hide Break;
    SplitStep(text);
  }

  /** The cursor's line and column give its position back, and they are the only ones that do. */
  lemma {:induction false} CursorIsInLine(text: string, cursor: nat)
    requires cursor <= |text|
    ensures var (line, col) := CursorLineCol(text, cursor);
            line < |Split(text)| && col <= |Split(text)[line]| && Offset(Split(text), line) + col == cursor
    decreases |text|
  {
    hide Split, Break;
    var i := Break(text);
    SplitPrefix(text, cursor);
    SplitStep(text);
    if cursor > i {
      CursorIsInLine(text[i + 1..], cursor - i - 1);
    }
  }

  lemma {:induction false} OffsetsGrow(lines: seq<string>, n: nat, m: nat)
    requires n < m <= |lines|
    ensures Offset(lines, n) + |lines[n]| < Offset(lines, m)
    decreases m
  {
    OffsetStep(lines, m - 1);
    if n < m - 1 {
      OffsetsGrow(lines, n, m - 1);
    }
  }

  /** `line_col_to_cursor` undoes `cursor_line_col`. */
  lemma LineColRoundTrip(text: string, cursor: nat)
    requires cursor <= |text|
    ensures var (line, col) := CursorLineCol(text, cursor); LineColToCursor(text, line, col) == cursor
  {
    CursorIsInLine(text, cursor);
  }

  lemma {:induction false} LinesFillText(text: string)
    ensures Offset(Split(text), |Split(text)|) == |text| + 1
    decreases |text|
  {
    hide Split, Break;
    var i := Break(text);
    SplitStep(text);
    if i < |text| {
      LinesFillText(text[i + 1..]);
      var rest := Split(text[i + 1..]);
      assert ([text[..i]] + rest)[1..] == rest;
    }
  }

  /** And on existing lines `cursor_line_col` undoes `line_col_to_cursor`, up to the line's end. */
  lemma CursorRoundTrip(text: string, line: nat, col: nat)
    requires line < |Split(text)|
    ensures LineColToCursor(text, line, col) <= |text|
    ensures CursorLineCol(text, LineColToCursor(text, line, col)) == (line, Min(col, |Split(text)[line]|))
  {
    hide Split, CursorLineCol;
    var lines, cursor := Split(text), LineColToCursor(text, line, col);
    LinesFillText(text);
    OffsetsGrow(lines, line, |lines|);
    CursorIsInLine(text, cursor);
    var (l, c) := CursorLineCol(text, cursor);
    if l < line {
      OffsetsGrow(lines, l, line);
    } else if line < l {
      OffsetsGrow(lines, line, l);
    }
  }

  // ---------------------------------------------------------------- the wrapped editor

  function Widths(line: string, charWidth: char -> nat): (w: seq<nat>)
    ensures |w| == |line| && forall k :: 0 <= k < |w| ==> w[k] == charWidth(line[k])
  {
    seq(|line|, k requires 0 <= k < |line| => charWidth(line[k]))
  }

  function Segments(line: string, charWidth: char -> nat, width: nat): seq<Segment> {
    Greedy(line, Widths(line, charWidth), width, 0)
  }

  ghost predicate InLine(line: string, segments: seq<Segment>) {
    forall k :: 0 <= k < |segments| ==> segments[k].start <= segments[k].end <= |line|
  }

  /** The texts of the first `n` rows. */
  function RowsTo(line: string, segments: seq<Segment>, n: nat): (rows: seq<string>)
    requires InLine(line, segments) && n <= |segments|
    ensures |rows| == n && forall k :: 0 <= k < n ==> rows[k] == line[segments[k].start..segments[k].end]
  {
    if n == 0 then [] else RowsTo(line, segments, n - 1) + [line[segments[n - 1].start..segments[n - 1].end]]
  }

  function RowTexts(line: string, segments: seq<Segment>): (rows: seq<string>)
    requires InLine(line, segments)
    ensures |rows| == |segments|
  {
    RowsTo(line, segments, |segments|)
  }

  lemma SegmentsInLine(line: string, charWidth: char -> nat, width: nat)
    ensures InLine(line, Segments(line, charWidth, width))
    ensures Covers(Segments(line, charWidth, width), 0, |line|)
  {
    GreedyRows(line, Widths(line, charWidth), width, 0);
    var g := Segments(line, charWidth, width);
    forall k | 0 <= k < |g|
      ensures g[k].start <= g[k].end <= |line|
    {
      assert IsRow(line, Widths(line, charWidth), width, g[k], k == |g| - 1);
    }
  }

  /** The rows of the first `n` lines. */
  function RowsBefore(lines: seq<string>, charWidth: char -> nat, width: nat, n: nat): seq<string>
    requires n <= |lines|
  {
    if n == 0 then []
    else
      SegmentsInLine(lines[n - 1], charWidth, width);
      RowsBefore(lines, charWidth, width, n - 1) + RowTexts(lines[n - 1], Segments(lines[n - 1], charWidth, width))
  }

  /** The row of a line that holds column `col`: the first that ends after it, or the last. */
  function RowOf(segments: seq<Segment>, col: nat): (k: nat)
    requires segments != []
    ensures k < |segments|
  {
    if |segments| == 1 || col < segments[0].end then 0 else 1 + RowOf(segments[1..], col)
  }

  ghost predicate HoldsColumn(segments: seq<Segment>, k: nat, col: nat)
    requires k < |segments|
  {
    segments[k].start <= col && (col < segments[k].end || k == |segments| - 1)
  }

  /** Exactly one row of a covered line holds a column. */
  lemma {:induction false} OneRowHolds(segments: seq<Segment>, s: nat, e: nat, col: nat)
    requires Covers(segments, s, e) && s <= col <= e
    requires forall k :: 0 <= k < |segments| ==> segments[k].start <= segments[k].end
    ensures HoldsColumn(segments, RowOf(segments, col), col)
    ensures forall k: nat :: k < |segments| && HoldsColumn(segments, k, col) ==> k == RowOf(segments, col)
    decreases |segments|
  {
    if |segments| > 1 {
      var rest := segments[1..];
      assert Covers(rest, segments[0].end, e) by {
        assert rest[0].start == segments[1].start;
      }
      if col >= segments[0].end {
        OneRowHolds(rest, segments[0].end, e, col);
        assert HoldsColumn(rest, RowOf(rest, col), col);
        forall k: nat | k < |segments| && HoldsColumn(segments, k, col)
          ensures k == RowOf(segments, col)
        {
          if k > 0 {
            assert HoldsColumn(rest, k - 1, col);
          }
        }
      } else {
        StartsGrow(rest, segments[0].end, e);
      }
    }
  }

  lemma {:induction false} StartsGrow(segments: seq<Segment>, s: nat, e: nat)
    requires Covers(segments, s, e)
    requires forall k :: 0 <= k < |segments| ==> segments[k].start <= segments[k].end
    ensures forall k :: 0 <= k < |segments| ==> segments[k].start >= s
    decreases |segments|
  {
    if |segments| > 1 {
      var rest := segments[1..];
      assert Covers(rest, segments[0].end, e) by {
        assert rest[0].start == segments[1].start;
      }
      StartsGrow(rest, segments[0].end, e);
      forall k | 0 <= k < |segments|
        ensures segments[k].start >= s
      {
        if k > 0 {
          assert segments[k] == rest[k - 1];
        }
      }
    }
  }

  /** Where column `col` of a line is shown when its rows start at `base`: in its row, or at the start of the next one when the last row is full. */
  function PlaceIn(segments: seq<Segment>, widths: seq<nat>, width: nat, base: nat, col: nat): (nat, nat)
    requires segments != [] && col <= |widths| && segments[RowOf(segments, col)].start <= col
  {
    var k := RowOf(segments, col);
    var shown := Span(widths, segments[k].start, col);
    if shown >= width && k == |segments| - 1 then (base + k + 1, 0) else (base + k, shown)
  }

  /** Where the cursor of a line and column is shown. */
  function Shown(lines: seq<string>, charWidth: char -> nat, width: nat, line: nat, col: nat): (nat, nat)
    requires line < |lines| && col <= |lines[line]|
  {
    var text := lines[line];
    SegmentsInLine(text, charWidth, width);
    OneRowHolds(Segments(text, charWidth, width), 0, |text|, col);
    PlaceIn(Segments(text, charWidth, width), Widths(text, charWidth), width, |RowsBefore(lines, charWidth, width, line)|, col)
  }

  /** The cursor of a text position. */
  function ShownCursor(text: string, cursor: nat, charWidth: char -> nat, width: nat): (nat, nat)
    requires cursor <= |text|
  {
    CursorIsInLine(text, cursor);
    var (line, col) := CursorLineCol(text, cursor);
    Shown(Split(text), charWidth, width, line, col)
  }

  datatype Wrapped = Wrapped(lines: seq<string>, cursor: (nat, nat))

  /** Adds the rows of one line; when the cursor is in it, finds the row that holds it. */
  method LayLine(chars: string, widths: seq<nat>, width: nat, segments: seq<Segment>, rows: seq<string>,
                 remaining: Option<nat>, position: (nat, nat))
    returns (rows': seq<string>, position': (nat, nat))
    requires |widths| == |chars| && InLine(chars, segments) && Covers(segments, 0, |chars|)
    ensures rows' == rows + RowTexts(chars, segments)
    ensures remaining.Some? && remaining.value <= |chars| ==>
              && segments[RowOf(segments, remaining.value)].start <= remaining.value
              && position' == PlaceIn(segments, widths, width, |rows|, remaining.value)
    ensures !(remaining.Some? && remaining.value <= |chars|) ==> position' == position
  {
    hide Covers;
    rows', position' := rows, position;
    var here := remaining.Some? && remaining.value <= |chars|;
    if here {
      OneRowHolds(segments, 0, |chars|, remaining.value);
    }
    for index := 0 to |segments|
      invariant rows' == rows + RowsTo(chars, segments, index)
      invariant here && RowOf(segments, remaining.value) < index ==>
                  position' == PlaceIn(segments, widths, width, |rows|, remaining.value)
      invariant !here ==> position' == position
    {
      var Segment(start, end) := segments[index];
      var last := index + 1 == |segments|;
      if here {
        assert HoldsColumn(segments, index, remaining.value) <==> index == RowOf(segments, remaining.value);
      }
      if here && remaining.value >= start && (remaining.value < end || last) {
        var shown := SpanOf(widths, start, remaining.value);
        position' := if shown >= width && last then (|rows'| + 1, 0) else (|rows'|, shown);
      }
      rows' := rows' + [chars[start..end]];
    }
  }

  /** The layout of the first `n` lines, with what remains of the cursor until its line is reached. */
  ghost predicate Laid(lines: seq<string>, charWidth: char -> nat, width: nat, line: nat, col: nat, n: nat,
                       rows: seq<string>, remaining: Option<nat>, position: (nat, nat))
    requires n <= |lines| && line < |lines| && col <= |lines[line]|
  {
    && rows == RowsBefore(lines, charWidth, width, n)
    && (if line < n then remaining == None && position == Shown(lines, charWidth, width, line, col)
        else Offset(lines, n) <= Offset(lines, line) + col && remaining == Some(Offset(lines, line) + col - Offset(lines, n)))
  }

  lemma LaidStart(lines: seq<string>, charWidth: char -> nat, width: nat, line: nat, col: nat)
    requires line < |lines| && col <= |lines[line]|
    ensures Laid(lines, charWidth, width, line, col, 0, [], Some(Offset(lines, line) + col), (0, 0))
  {
  }

  lemma LaidStep(lines: seq<string>, charWidth: char -> nat, width: nat, line: nat, col: nat, n: nat,
                 rows: seq<string>, remaining: Option<nat>, position: (nat, nat), segments: seq<Segment>,
                 rows': seq<string>, position': (nat, nat))
    requires n < |lines| && line < |lines| && col <= |lines[line]|
    requires Laid(lines, charWidth, width, line, col, n, rows, remaining, position)
    requires segments == Segments(lines[n], charWidth, width) && InLine(lines[n], segments) && segments != []
    requires rows' == rows + RowTexts(lines[n], segments)
    requires var here := remaining.Some? && remaining.value <= |lines[n]|;
             if here then segments[RowOf(segments, remaining.value)].start <= remaining.value
                          && position' == PlaceIn(segments, Widths(lines[n], charWidth), width, |rows|, remaining.value)
             else position' == position
    ensures Laid(lines, charWidth, width, line, col, n + 1, rows',
                 if remaining.None? || remaining.value <= |lines[n]| then None else Some(remaining.value - (|lines[n]| + 1)),
                 position')
  {
    hide RowsBefore, Segments, InLine, RowOf, PlaceIn, Shown, Offset, RowTexts;
    OffsetStep(lines, n);
    HereIsLine(lines, n, line, col, Offset(lines, line) + col);
    RowsStep(lines, charWidth, width, n);
    if n == line {
      ShownIsPlace(lines, charWidth, width, line, col);
    }
  }

  lemma LaidAll(lines: seq<string>, charWidth: char -> nat, width: nat, line: nat, col: nat,
                rows: seq<string>, remaining: Option<nat>, position: (nat, nat))
    requires line < |lines| && col <= |lines[line]|
    requires Laid(lines, charWidth, width, line, col, |lines|, rows, remaining, position)
    ensures rows == RowsBefore(lines, charWidth, width, |lines|)
    ensures position == Shown(lines, charWidth, width, line, col) && position.0 <= |rows|
  {
    hide RowsBefore, Shown;
    ShownIsNear(lines, charWidth, width, line, col);
  }

  /** Wraps and lays out one more line. */
  method LayNext(lines: seq<string>, charWidth: char -> nat, width: nat, n: nat, rows: seq<string>, remaining: Option<nat>,
                 position: (nat, nat), ghost line: nat, ghost col: nat)
    returns (rows': seq<string>, remaining': Option<nat>, position': (nat, nat))
    requires width > 0 && n < |lines| && line < |lines| && col <= |lines[line]|
    requires Laid(lines, charWidth, width, line, col, n, rows, remaining, position)
    ensures Laid(lines, charWidth, width, line, col, n + 1, rows', remaining', position')
  {
    hide Segments, RowsBefore, InLine, Covers, RowOf, PlaceIn, Shown, Offset, RowTexts, Greedy, Laid;
    var chars := lines[n];
    var widths := Widths(chars, charWidth);
    var segments := WrapSegments(chars, widths, width);
    SegmentsFound(chars, charWidth, width, segments);
    rows', position' := LayLine(chars, widths, width, segments, rows, remaining, position);
    LaidStep(lines, charWidth, width, line, col, n, rows, remaining, position, segments, rows', position');
    if remaining.None? || remaining.value <= |chars| {
      remaining' := None;
    } else {
      remaining' := Some(remaining.value - (|chars| + 1));
    }
  }

  /** Lays the text out in rows and finds the cursor in them. */
  method Wrap(text: string, cursor: nat, charWidth: char -> nat, requestedWidth: nat) returns (wrapped: Wrapped)
    requires cursor <= |text|
    ensures var width := if requestedWidth == 0 then 1 else requestedWidth;
            var rows := RowsBefore(Split(text), charWidth, width, |Split(text)|);
            && wrapped.cursor == ShownCursor(text, cursor, charWidth, width)
            && wrapped.lines == (if wrapped.cursor.0 < |rows| then rows else rows + [""])
            && wrapped.cursor.0 < |wrapped.lines|
  {
    hide Segments, Split, CursorLineCol, RowsBefore, InLine, Covers, RowOf, PlaceIn, Shown, Offset, RowTexts, Greedy, Laid;
    var width := if requestedWidth == 0 then 1 else requestedWidth;
    var lines := Split(text);
    ghost var (line, col) := CursorLineCol(text, cursor);
    CursorIsInLine(text, cursor);
    var rows: seq<string> := [];
    var position: (nat, nat) := (0, 0);
    var remaining: Option<nat> := Some(cursor);
    LaidStart(lines, charWidth, width, line, col);
    for n := 0 to |lines|
      invariant Laid(lines, charWidth, width, line, col, n, rows, remaining, position)
    {
      rows, remaining, position := LayNext(lines, charWidth, width, n, rows, remaining, position, line, col);
    }
    LaidAll(lines, charWidth, width, line, col, rows, remaining, position);
    if position.0 >= |rows| {
      rows := rows + [""];
    }
    wrapped := Wrapped(rows, position);
  }

  lemma ShownIsPlace(lines: seq<string>, charWidth: char -> nat, width: nat, line: nat, col: nat)
    requires line < |lines| && col <= |lines[line]|
    ensures var segments := Segments(lines[line], charWidth, width);
            && segments != [] && segments[RowOf(segments, col)].start <= col
            && Shown(lines, charWidth, width, line, col)
            == PlaceIn(segments, Widths(lines[line], charWidth), width, |RowsBefore(lines, charWidth, width, line)|, col)
  {
    hide PlaceIn, RowsBefore, Segments;
    SegmentsInLine(lines[line], charWidth, width);
    OneRowHolds(Segments(lines[line], charWidth, width), 0, |lines[line]|, col);
  }

  lemma RowsStep(lines: seq<string>, charWidth: char -> nat, width: nat, n: nat)
    requires n < |lines|
    ensures InLine(lines[n], Segments(lines[n], charWidth, width))
    ensures RowsBefore(lines, charWidth, width, n + 1)
         == RowsBefore(lines, charWidth, width, n) + RowTexts(lines[n], Segments(lines[n], charWidth, width))
  {
    SegmentsInLine(lines[n], charWidth, width);
  }

  lemma SegmentsFound(line: string, charWidth: char -> nat, width: nat, segments: seq<Segment>)
    requires segments == Greedy(line, Widths(line, charWidth), width, 0)
    ensures segments == Segments(line, charWidth, width) && segments != []
    ensures InLine(line, segments) && Covers(segments, 0, |line|)
  {
    SegmentsInLine(line, charWidth, width);
  }

  /** The cursor is in line `n` exactly when what remains of it there fits the line. */
  lemma HereIsLine(lines: seq<string>, n: nat, line: nat, col: nat, cursor: nat)
    requires n < |lines| && line < |lines| && col <= |lines[line]| && Offset(lines, line) + col == cursor
    ensures n == line <==> Offset(lines, n) <= cursor <= Offset(lines, n) + |lines[n]|
    ensures n < line ==> cursor > Offset(lines, n) + |lines[n]|
    ensures n > line ==> cursor < Offset(lines, n)
  {
    if n < line {
      OffsetsGrow(lines, n, line);
    } else if line < n {
      OffsetsGrow(lines, line, n);
    }
  }

  lemma {:induction false} RowsGrow(lines: seq<string>, charWidth: char -> nat, width: nat, n: nat, m: nat)
    requires n < m <= |lines|
    ensures |RowsBefore(lines, charWidth, width, n)| + |Segments(lines[n], charWidth, width)| <= |RowsBefore(lines, charWidth, width, m)|
    decreases m
  {
    hide Segments, RowsBefore;
    RowsStep(lines, charWidth, width, m - 1);
    if n < m - 1 {
      RowsGrow(lines, charWidth, width, n, m - 1);
    }
  }

  /** The cursor's row exists, or is the one after the last. */
  lemma ShownIsNear(lines: seq<string>, charWidth: char -> nat, width: nat, line: nat, col: nat)
    requires line < |lines| && col <= |lines[line]|
    ensures Shown(lines, charWidth, width, line, col).0 <= |RowsBefore(lines, charWidth, width, |lines|)|
  {
    hide Segments, RowsBefore, RowTexts;
    SegmentsInLine(lines[line], charWidth, width);
    OneRowHolds(Segments(lines[line], charWidth, width), 0, |lines[line]|, col);
    RowsGrow(lines, charWidth, width, line, |lines|);
  }

  // ---------------------------------------------------------------- when two positions share a place

  /** Whether a column is at the end of a line whose last row is full, so that it is shown in the next row. */
  predicate PastFullRow(segments: seq<Segment>, widths: seq<nat>, width: nat, col: nat)
    requires segments != [] && col <= |widths| && segments[RowOf(segments, col)].start <= col
  {
    var k := RowOf(segments, col);
    k == |segments| - 1 && Span(widths, segments[k].start, col) >= width
  }

  /** The last row, if it is full before a column, holds nothing but zero-width characters after it. */
  lemma NothingAfterFull(chars: string, widths: seq<nat>, width: nat, r: Segment, c1: nat, c2: nat)
    requires width > 0 && |chars| == |widths| && IsRow(chars, widths, width, r, true)
    requires r.start <= c1 < c2 <= r.end && Span(widths, r.start, c1) >= width
    ensures Span(widths, c1, c2) == 0
  {
    SpanSplit(widths, r.start, c1, c2);
    SpanSplit(widths, r.start, c2, r.end);
  }

  lemma RowsHold(chars: string, widths: seq<nat>, width: nat, segments: seq<Segment>, col: nat)
    requires |chars| == |widths| && col <= |chars| && Covers(segments, 0, |chars|)
    requires forall k :: 0 <= k < |segments| ==> IsRow(chars, widths, width, segments[k], k == |segments| - 1)
    ensures var k := RowOf(segments, col);
            segments[k].start <= col && segments[k].end <= |chars| && (col < segments[k].end || k == |segments| - 1)
            && (k == |segments| - 1 ==> segments[k].end == |chars|)
  {
    OneRowHolds(segments, 0, |chars|, col);
  }

  /** Two columns of a line share a place exactly when their row is the same and nothing visible is between them. */
  lemma ColumnsShare(chars: string, widths: seq<nat>, width: nat, segments: seq<Segment>, base: nat, c1: nat, c2: nat)
    requires width > 0 && |chars| == |widths| && c1 < c2 <= |widths|
    requires segments != [] && Covers(segments, 0, |chars|)
    requires forall k :: 0 <= k < |segments| ==> IsRow(chars, widths, width, segments[k], k == |segments| - 1)
    ensures segments[RowOf(segments, c1)].start <= c1 && segments[RowOf(segments, c2)].start <= c2
    ensures PlaceIn(segments, widths, width, base, c1) == PlaceIn(segments, widths, width, base, c2)
       <==> RowOf(segments, c1) == RowOf(segments, c2) && Span(widths, c1, c2) == 0
  {
    hide RowOf, IsRow, Covers, Span;
    RowsHold(chars, widths, width, segments, c1);
    RowsHold(chars, widths, width, segments, c2);
    var k := RowOf(segments, c1);
    if k == RowOf(segments, c2) {
      hide PlaceIn;
      RowShares(chars, widths, width, segments, base, c1, c2);
    }
  }

  /** Two columns of one row. */
  lemma RowShares(chars: string, widths: seq<nat>, width: nat, segments: seq<Segment>, base: nat, c1: nat, c2: nat)
    requires width > 0 && |chars| == |widths| && c1 < c2 <= |widths| && segments != []
    requires var k := RowOf(segments, c1);
             && k == RowOf(segments, c2) && segments[k].start <= c1 && IsRow(chars, widths, width, segments[k], k == |segments| - 1)
             && c2 <= segments[k].end
    ensures PlaceIn(segments, widths, width, base, c1) == PlaceIn(segments, widths, width, base, c2) <==> Span(widths, c1, c2) == 0
  {
    hide RowOf, IsRow, Span;
    var k := RowOf(segments, c1);
    SpanSplit(widths, segments[k].start, c1, c2);
    if k == |segments| - 1 && Span(widths, segments[k].start, c1) >= width {
      NothingAfterFull(chars, widths, width, segments[k], c1, c2);
    }
  }

  /** What is known of the rows of a line. */
  lemma SegmentRows(line: string, charWidth: char -> nat, width: nat)
    ensures var segments := Segments(line, charWidth, width);
            Covers(segments, 0, |line|)
            && forall k :: 0 <= k < |segments| ==> IsRow(line, Widths(line, charWidth), width, segments[k], k == |segments| - 1)
  {
    WrapIsGreedy(line, Widths(line, charWidth), width);
  }

  /** Two columns of different lines are shown between the first rows of their lines and of the next. */
  lemma ShownBetween(lines: seq<string>, charWidth: char -> nat, width: nat, line: nat, col: nat)
    requires width > 0 && line < |lines| && col <= |lines[line]|
    ensures var segments, widths := Segments(lines[line], charWidth, width), Widths(lines[line], charWidth);
            var first, place := |RowsBefore(lines, charWidth, width, line)|, Shown(lines, charWidth, width, line, col);
            && segments != [] && segments[RowOf(segments, col)].start <= col
            && first <= place.0 <= |RowsBefore(lines, charWidth, width, line + 1)|
            && first < |RowsBefore(lines, charWidth, width, line + 1)|
            && (place.0 == |RowsBefore(lines, charWidth, width, line + 1)| <==> PastFullRow(segments, widths, width, col))
            && (PastFullRow(segments, widths, width, col) ==> place.1 == 0)
            && (place == (first, 0) <==> RowOf(segments, col) == 0 && Span(widths, 0, col) == 0)
  {
    ShownIsPlace(lines, charWidth, width, line, col);
    RowsStep(lines, charWidth, width, line);
    SegmentsInLine(lines[line], charWidth, width);
    hide Segments, RowsBefore, Shown, RowTexts;
  }

  /** The place of column `c1` of line `l1` is that of the later column `c2` of line `l2`. */
  ghost predicate SharesPlace(lines: seq<string>, charWidth: char -> nat, width: nat, l1: nat, c1: nat, l2: nat, c2: nat)
    requires l1 < |lines| && c1 <= |lines[l1]| && l2 < |lines| && c2 <= |lines[l2]|
  {
    var first, second := Segments(lines[l1], charWidth, width), Segments(lines[l2], charWidth, width);
    SegmentsInLine(lines[l1], charWidth, width);
    OneRowHolds(first, 0, |lines[l1]|, c1);
    if l1 == l2 then
      c1 <= c2 && RowOf(first, c1) == RowOf(first, c2) && Span(Widths(lines[l1], charWidth), c1, c2) == 0
    else
      SegmentsInLine(lines[l2], charWidth, width);
      && l2 == l1 + 1 && PastFullRow(first, Widths(lines[l1], charWidth), width, c1)
      && RowOf(second, c2) == 0 && Span(Widths(lines[l2], charWidth), 0, c2) == 0
  }

  lemma OneLineShares(lines: seq<string>, charWidth: char -> nat, width: nat, line: nat, c1: nat, c2: nat)
    requires width > 0 && line < |lines| && c1 < c2 <= |lines[line]|
    ensures Shown(lines, charWidth, width, line, c1) == Shown(lines, charWidth, width, line, c2)
       <==> SharesPlace(lines, charWidth, width, line, c1, line, c2)
  {
    SegmentRows(lines[line], charWidth, width);
    ShownIsPlace(lines, charWidth, width, line, c1);
    ShownIsPlace(lines, charWidth, width, line, c2);
    hide Shown, Segments, RowsBefore, Covers, IsRow, Span, RowOf, PlaceIn;
    ColumnsShare(lines[line], Widths(lines[line], charWidth), width, Segments(lines[line], charWidth, width),
                 |RowsBefore(lines, charWidth, width, line)|, c1, c2);
  }

  lemma TwoLinesShare(lines: seq<string>, charWidth: char -> nat, width: nat, l1: nat, c1: nat, l2: nat, c2: nat)
    requires width > 0 && l1 < l2 < |lines| && c1 <= |lines[l1]| && c2 <= |lines[l2]|
    ensures Shown(lines, charWidth, width, l1, c1) == Shown(lines, charWidth, width, l2, c2)
       <==> SharesPlace(lines, charWidth, width, l1, c1, l2, c2)
  {
    hide Shown, Segments, RowsBefore, Span, RowOf, PastFullRow;
    ShownBetween(lines, charWidth, width, l1, c1);
    ShownBetween(lines, charWidth, width, l2, c2);
    if l1 + 1 < l2 {
      MoreRows(lines, charWidth, width, l1 + 1, l2);
    }
  }

  lemma MoreRows(lines: seq<string>, charWidth: char -> nat, width: nat, n: nat, m: nat)
    requires n < m <= |lines|
    ensures |RowsBefore(lines, charWidth, width, n)| < |RowsBefore(lines, charWidth, width, m)|
  {
    hide Segments, RowsBefore;
    SegmentsInLine(lines[n], charWidth, width);
    RowsGrow(lines, charWidth, width, n, m);
  }

  /**
    Two positions of the text are shown at the same place exactly when nothing but zero-width
    characters of one row is between them, or when the first is past a full last row of its line and
    the second at the start of the next line, up to zero-width characters.
   */
  lemma PositionsShare(text: string, a: nat, b: nat, charWidth: char -> nat, width: nat)
    requires width > 0 && a < b <= |text|
    ensures var (l1, c1) := CursorLineCol(text, a); var (l2, c2) := CursorLineCol(text, b);
            && l1 < |Split(text)| && c1 <= |Split(text)[l1]| && l2 < |Split(text)| && c2 <= |Split(text)[l2]|
            && (ShownCursor(text, a, charWidth, width) == ShownCursor(text, b, charWidth, width)
                <==> SharesPlace(Split(text), charWidth, width, l1, c1, l2, c2))
  {
    hide CursorLineCol, Split, Shown, SharesPlace;
    CursorIsInLine(text, a);
    CursorIsInLine(text, b);
    var (l1, c1) := CursorLineCol(text, a);
    var (l2, c2) := CursorLineCol(text, b);
    if l2 < l1 {
      OffsetsGrow(Split(text), l2, l1);
    }
    if l1 == l2 {
      OneLineShares(Split(text), charWidth, width, l1, c1, c2);
    } else {
      TwoLinesShare(Split(text), charWidth, width, l1, c1, l2, c2);
    }
  }

  // ---------------------------------------------------------------- editing

  datatype Key = Type(c: char) | Enter | Backspace | Delete | Left | Right | Home | End | Up | Down | OtherKey

  /** The modifier keys held down with a key. */
  datatype Modifiers = NoModifier | ShiftOnly | OtherModifiers

  /** Whether the editor takes a key: characters also with Shift, every other editing key on its own only. */
  predicate Consumes(key: Key, modifiers: Modifiers) {
    !key.OtherKey? && (modifiers.NoModifier? || (key.Type? && modifiers.ShiftOnly?))
  }

  /** An unmodified editing key is always taken, Shift matters for characters only, and with anything else held nothing is. */
  lemma ModifiedKeys(key: Key)
    ensures Consumes(key, NoModifier) <==> key != OtherKey
    ensures Consumes(key, ShiftOnly) <==> exists c :: key == Type(c)
    ensures !Consumes(key, OtherModifiers)
  {
  }

  datatype Editor = Editor(text: string, cursor: nat)

  ghost predicate InText(e: Editor) {
    e.cursor <= |e.text|
  }

  function LineLength(text: string, line: nat): nat {
    if line < |Split(text)| then |Split(text)[line]| else 0
  }

  function Edited(e: Editor, key: Key): Editor
    requires InText(e)
  {
    var Editor(text, cursor) := e;
    var (line, col) := CursorLineCol(text, cursor);
    match key
    case Type(c) => Editor(text[..cursor] + [c] + text[cursor..], cursor + 1)
    case Enter => Editor(text[..cursor] + ['\n'] + text[cursor..], cursor + 1)
    case OtherKey => e
    case Backspace => if cursor > 0 then Editor(text[..cursor - 1] + text[cursor..], cursor - 1) else e
    case Delete => if cursor < |text| then Editor(text[..cursor] + text[cursor + 1..], cursor) else e
    case Left => Editor(text, if cursor > 0 then cursor - 1 else 0)
    case Right => Editor(text, Min(cursor + 1, |text|))
    case Home => Editor(text, LineColToCursor(text, line, 0))
    case End => Editor(text, LineColToCursor(text, line, LineLength(text, line)))
    case Up =>
      if line > 0 then Editor(text, LineColToCursor(text, line - 1, Min(col, LineLength(text, line - 1)))) else e
    case Down =>
      if line + 1 < |Split(text)| then Editor(text, LineColToCursor(text, line + 1, Min(col, LineLength(text, line + 1)))) else e
  }

  class IntentEditor {
    var text: string
    var cursor: nat

    function View(): Editor
      reads this
    {
      Editor(text, cursor)
    }

    method SetText(replacement: string)
      modifies this
      ensures View() == Editor(replacement, |replacement|)
    {
      text := replacement;
      cursor := |text|;
    }

    method Insert(c: char)
      requires InText(View())
      modifies this
      ensures View() == old(Edited(View(), Type(c)))
    {
      text := text[..cursor] + [c] + text[cursor..];
      cursor := cursor + 1;
    }

    method RemoveBefore()
      requires InText(View())
      modifies this
      ensures View() == old(Edited(View(), Backspace))
    {
      if cursor > 0 {
        cursor := cursor - 1;
        text := text[..cursor] + text[cursor + 1..];
      }
    }

    method RemoveAt()
      requires InText(View())
      modifies this
      ensures View() == old(Edited(View(), Delete))
    {
      if cursor < |text| {
        text := text[..cursor] + text[cursor + 1..];
      }
    }

    /** Applies an editing key; returns whether it was consumed. */
    method HandleKey(key: Key, modifiers: Modifiers) returns (consumed: bool)
      requires InText(View())
      modifies this
      ensures consumed == Consumes(key, modifiers) && InText(View())
      ensures View() == if consumed then old(Edited(View(), key)) else old(View())
    {
      if !Consumes(key, modifiers) {
        return false;
      }
      consumed := true;
      KeyKeepsCursor(View(), key);
      var (line, col) := CursorLineCol(text, cursor);
      match key
      case Type(c) => Insert(c);
      case Enter => Insert('\n');
      case OtherKey =>
      case Backspace => RemoveBefore();
      case Delete => RemoveAt();
      case Left => if cursor > 0 { cursor := cursor - 1; }
      case Right => cursor := Min(cursor + 1, |text|);
      case Home => cursor := LineColToCursor(text, line, 0);
      case End => cursor := LineColToCursor(text, line, LineLength(text, line));
      case Up =>
        if line > 0 {
          cursor := LineColToCursor(text, line - 1, Min(col, LineLength(text, line - 1)));
        }
      case Down =>
        if line + 1 < |Split(text)| {
          cursor := LineColToCursor(text, line + 1, Min(col, LineLength(text, line + 1)));
        }
    }
  }

  /** Every key keeps the cursor in the text; only typing and removing change the text. */
  lemma KeyKeepsCursor(e: Editor, key: Key)
    requires InText(e)
    ensures InText(Edited(e, key))
    ensures !(key.Type? || key.Enter? || key.Backspace? || key.Delete?) ==> Edited(e, key).text == e.text
  {
    hide Split, CursorLineCol, LineColToCursor;
    var (line, col) := CursorLineCol(e.text, e.cursor);
    CursorIsInLine(e.text, e.cursor);
    match key
    case Home => CursorRoundTrip(e.text, line, 0);
    case End => CursorRoundTrip(e.text, line, LineLength(e.text, line));
    case Up => if line > 0 { CursorRoundTrip(e.text, line - 1, Min(col, LineLength(e.text, line - 1))); }
    case Down =>
      if line + 1 < |Split(e.text)| {
        CursorRoundTrip(e.text, line + 1, Min(col, LineLength(e.text, line + 1)));
      }
    case _ =>
  }

  /** Moving the cursor by lines lands on the neighbouring line, at the same column if it has one. */
  lemma VerticalMoves(e: Editor, key: Key)
    requires InText(e) && (key.Up? || key.Down? || key.Home? || key.End?)
    ensures InText(Edited(e, key))
    ensures var (line, col) := CursorLineCol(e.text, e.cursor);
            var target := if key.Up? && line > 0 then line - 1
                          else if key.Down? && line + 1 < |Split(e.text)| then line + 1 else line;
            var (line', col') := CursorLineCol(Edited(e, key).text, Edited(e, key).cursor);
            && target < |Split(e.text)| && line' == target
            && col' == if key.Home? then 0 else if key.End? then |Split(e.text)[line]|
                       else if target == line then col else Min(col, |Split(e.text)[target]|)
  {
    hide Split, CursorLineCol, LineColToCursor;
    var (line, col) := CursorLineCol(e.text, e.cursor);
    CursorIsInLine(e.text, e.cursor);
    KeyKeepsCursor(e, key);
    match key
    case Home => CursorRoundTrip(e.text, line, 0);
    case End => CursorRoundTrip(e.text, line, LineLength(e.text, line));
    case Up => if line > 0 { CursorRoundTrip(e.text, line - 1, Min(col, LineLength(e.text, line - 1))); }
    case Down =>
      if line + 1 < |Split(e.text)| {
        CursorRoundTrip(e.text, line + 1, Min(col, LineLength(e.text, line + 1)));
      }
  }

  /** The keys that move or change one character: typing puts it before the cursor, and the others undo or make up each other. */
  lemma KeysCompose(e: Editor, c: char)
    requires InText(e)
    ensures var typed := Edited(e, Type(c));
            && typed.cursor == e.cursor + 1 && |typed.text| == |e.text| + 1 && typed.text[e.cursor] == c
            && typed.text[..e.cursor] == e.text[..e.cursor] && typed.text[e.cursor + 1..] == e.text[e.cursor..]
    ensures Edited(e, Enter) == Edited(e, Type('\n'))
    ensures e.cursor < |e.text| ==>
              var right := Edited(e, Right);
              && right == e.(cursor := e.cursor + 1) && Edited(right, Left) == e
              && Edited(e, Delete) == Edited(right, Backspace)
    ensures e.cursor == |e.text| ==> Edited(e, Right) == e && Edited(e, Delete) == e
    ensures e.cursor == 0 ==> Edited(e, Left) == e && Edited(e, Backspace) == e
  {
    hide CursorLineCol, LineColToCursor, Split;
  }

  /** Backspace undoes typing, and typing a removed character puts it back. */
  lemma TypingIsUndone(e: Editor, c: char)
    requires InText(e)
    ensures InText(Edited(e, Type(c))) && Edited(Edited(e, Type(c)), Backspace) == e
    ensures e.cursor > 0 ==> InText(Edited(e, Backspace)) && Edited(Edited(e, Backspace), Type(e.text[e.cursor - 1])) == e
  {
    hide CursorLineCol, LineColToCursor, Split;
    var typed := Edited(e, Type(c)).text;
    assert typed[..e.cursor] == e.text[..e.cursor] && typed[e.cursor + 1..] == e.text[e.cursor..];
    assert e.text[..e.cursor] + e.text[e.cursor..] == e.text;
    if e.cursor > 0 {
      var removed := Edited(e, Backspace).text;
      assert removed[..e.cursor - 1] == e.text[..e.cursor - 1] && removed[e.cursor - 1..] == e.text[e.cursor..];
      assert e.text[..e.cursor - 1] + [e.text[e.cursor - 1]] == e.text[..e.cursor];
    }
  }
}
