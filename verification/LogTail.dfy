/**
  The incremental tail of a growing service log. Pages arrive at byte offsets; a log that grows by
  more than a window is skipped ahead. One character stands for one byte.
 */
module LogTail {
  import opened Options
  import opened LineBreaks

  const MaxTailLines: nat := 500
  const ContentPageBytes: nat := 4096

  // ---------------------------------------------------------------- splitting into lines

  function TrimEnd(line: string): string {
    if line != [] && line[|line| - 1] == '\r' then TrimEnd(line[..|line| - 1]) else line
  }

  /** The lines that end in a line break, without it and without trailing carriage returns. */
  function Complete(text: string): seq<string>
    decreases |text|
  {
    var i := Break(text);
    if i == |text| then [] else [TrimEnd(text[..i])] + Complete(text[i + 1..])
  }

  /** The text after the last line break. */
  function Rest(text: string): string
    decreases |text|
  {
    var i := Break(text);
    if i == |text| then text else Rest(text[i + 1..])
  }

  /** `lines` and the lines still to split off `rest` make up `all`. */
  ghost predicate Splitting(all: seq<string>, last: string, lines: seq<string>, rest: string) {
    lines + Complete(rest) == all && Rest(rest) == last
  }

  lemma Regroup<T>(a: seq<T>, x: T, b: seq<T>)
    ensures (a + [x]) + b == a + ([x] + b)
  {
  }

  lemma SplittingStep(all: seq<string>, last: string, lines: seq<string>, rest: string)
    requires Splitting(all, last, lines, rest) && Break(rest) < |rest|
    ensures Splitting(all, last, lines + [TrimEnd(rest[..Break(rest)])], rest[Break(rest) + 1..])
  {
    Regroup(lines, TrimEnd(rest[..Break(rest)]), Complete(rest[Break(rest) + 1..]));
  }

  lemma SplittingDone(all: seq<string>, last: string, lines: seq<string>, rest: string)
    requires Splitting(all, last, lines, rest) && Break(rest) == |rest|
    ensures lines == all && rest == last
  {
    assert lines + [] == lines;
  }

  lemma SplitStep(text: string)
    ensures Break(text) == |text| ==> Complete(text) == [] && Rest(text) == text
    ensures Break(text) < |text| ==>
              var after := text[Break(text) + 1..];
              Complete(text) == [TrimEnd(text[..Break(text)])] + Complete(after) && Rest(text) == Rest(after)
  {
  }

  /** Lines do not depend on how the text was chunked. */
  lemma {:induction false} SplitAppend(a: string, b: string)
    ensures Complete(a + b) == Complete(a) + Complete(Rest(a) + b)
    ensures Rest(a + b) == Rest(Rest(a) + b)
    decreases |a|
  {
    hide Complete, Rest, TrimEnd, Break;
    var i := Break(a);
    BreakAppend(a, b);
    SplitStep(a);
    if i < |a| {
      var after := a[i + 1..];
      SplitStep(a + b);
      assert (a + b)[..i] == a[..i] && (a + b)[i + 1..] == after + b;
      SplitAppend(after, b);
      RegroupFront(TrimEnd(a[..i]), Complete(after), Complete(Rest(after) + b));
    } else {
      assert [] + Complete(a + b) == Complete(a + b);
    }
  }

  lemma RegroupFront<T>(x: T, a: seq<T>, b: seq<T>)
    ensures [x] + (a + b) == ([x] + a) + b
  {
  }

  /** The last `n` lines. */
  function Last(lines: seq<string>, n: nat): seq<string> {
    if |lines| <= n then lines else lines[|lines| - n..]
  }

  lemma LastAppend(a: seq<string>, b: seq<string>, n: nat)
    ensures Last(Last(a, n) + b, n) == Last(a + b, n)
  {
    if |a| > n {
      var cut := |a| - n;
      assert a + b == a[..cut] + (Last(a, n) + b);
    }
  }

  // ---------------------------------------------------------------- the tail

  datatype Page = Page(byteSize: Option<nat>, offset: nat, nextOffset: Option<nat>, eof: bool, content: Option<string>)

  datatype Reply = Read(page: Page) | InvalidRequest | Failed(error: string)

  datatype Tail = Tail(lines: seq<string>, partial: string, byteSize: Option<nat>, skippedBytes: nat,
                       error: Option<string>, nextOffset: Option<nat>, atLineStart: bool)

  const NewTail: Tail := Tail([], "", None, 0, None, None, true)

  function NextOffset(t: Tail): nat {
    if t.nextOffset.Some? then t.nextOffset.value else 0
  }

  function Minus(a: nat, b: nat): nat {
    if a < b then 0 else a - b
  }

  function EndOffset(page: Page): nat {
    if page.nextOffset.Some? then page.nextOffset.value
    else page.offset + if page.content.Some? then |page.content.value| else 0
  }

  function ContentOf(page: Page): string {
    if page.content.Some? then page.content.value else ""
  }

  function Digits(n: nat): string {
    if n < 10 then ["0123456789"[n]] else Digits(n / 10) + ["0123456789"[n % 10]]
  }

  function Marker(bytes: nat): string {
    "\U{2026} skipped " + Digits(bytes) + " bytes \U{2026}"
  }

  function JumpedToWindow(t: Tail, from: nat, byteSize: nat): Tail {
    var target := Minus(byteSize, ContentPageBytes);
    t.(skippedBytes := t.skippedBytes + Minus(target, from), nextOffset := Some(target), partial := "", atLineStart := target == 0)
  }

  function Pushed(t: Tail, content: string): Tail {
    var text := t.partial + content;
    if t.atLineStart then t.(lines := Last(t.lines + Complete(text), MaxTailLines), partial := Rest(text))
    else
      var i := Break(text);
      if i == |text| then t.(partial := "")
      else
        var rest := text[i + 1..];
        t.(lines := Last(t.lines + Complete(rest), MaxTailLines), partial := Rest(rest), atLineStart := true)
  }

  function Applied(t: Tail, requestedOffset: nat, reply: Reply): Tail {
    if requestedOffset != NextOffset(t) then t
    else match reply
      case InvalidRequest => NewTail
      case Failed(error) => t.(error := Some(error))
      case Read(page) =>
        var end := EndOffset(page);
        var byteSize := if page.byteSize.Some? then page.byteSize.value else end;
        var u := t.(error := None, byteSize := page.byteSize);
        if t.nextOffset.None? && byteSize > ContentPageBytes && !page.eof then JumpedToWindow(u, 0, byteSize)
        else
          var v := Pushed(u, ContentOf(page));
          if !page.eof && Minus(byteSize, end) > ContentPageBytes then
            var w := JumpedToWindow(v, end, byteSize);
            w.(lines := Last(w.lines + [Marker(Minus(byteSize, ContentPageBytes) - end)], MaxTailLines))
          else v.(nextOffset := Some(end))
  }

  /** A reply to an older request changes nothing; a refused offset starts over, a failure is shown, and a page ends it. */
  lemma ErrorsAreShown(t: Tail, requestedOffset: nat, reply: Reply)
    ensures var u := Applied(t, requestedOffset, reply);
            if t.nextOffset != Some(requestedOffset) && !(t.nextOffset.None? && requestedOffset == 0) then u == t
            else
              && (reply.InvalidRequest? ==> u.lines == [] && u.partial == "" && u.skippedBytes == 0 && u.nextOffset.None? && u.error.None?)
              && (reply.Failed? ==> u.error == Some(reply.error) && u == t.(error := u.error))
              && (reply.Read? ==> u.error.None? && u.byteSize == reply.page.byteSize && u.nextOffset.Some?)
  {
    hide Complete, Rest, Last;
  }

  // ---------------------------------------------------------------- the same in place

  class ServiceLogTail {
    var lines: seq<string>
    var partial: string
    var byteSize: Option<nat>
    var skippedBytes: nat
    var error: Option<string>
    var nextOffset: Option<nat>
    var atLineStart: bool

    function View(): Tail
      reads this
    {
      Tail(lines, partial, byteSize, skippedBytes, error, nextOffset, atLineStart)
    }

    constructor ()
      ensures View() == NewTail
    {
      lines, partial, byteSize, skippedBytes, error, nextOffset, atLineStart := [], "", None, 0, None, None, true;
    }

    method Reset()
      modifies this
      ensures View() == NewTail
    {
      lines, partial, byteSize, skippedBytes, error, nextOffset, atLineStart := [], "", None, 0, None, None, true;
    }

    method Trim()
      modifies this`lines
      ensures lines == Last(old(lines), MaxTailLines)
    {
      ghost var all := lines;
      ghost var dropped := 0;
      while |lines| > MaxTailLines
        invariant dropped <= |all| && lines == all[dropped..]
        invariant dropped == 0 || |lines| >= MaxTailLines
      {
        lines := lines[1..];
        dropped := dropped + 1;
      }
    }

    method JumpToWindow(from: nat, byteSize': nat)
      modifies this
      ensures View() == old(JumpedToWindow(View(), from, byteSize'))
    {
      var target := Minus(byteSize', ContentPageBytes);
      skippedBytes := skippedBytes + Minus(target, from);
      nextOffset := Some(target);
      partial := "";
      atLineStart := target == 0;
    }

    /** Pushes the complete lines of `text` and keeps what follows the last break. */
    method PushLines(text: string)
      modifies this`lines, this`partial
      ensures lines == old(lines) + Complete(text) && partial == Rest(text)
    {
      var rest := text;
      ghost var all, last := lines + Complete(rest), Rest(rest);
      hide Complete, Rest, TrimEnd;
      var i := Break(rest);
      while i < |rest|
        modifies this`lines
        invariant i == Break(rest)
        invariant Splitting(all, last, lines, rest)
        decreases |rest|
      {
        SplittingStep(all, last, lines, rest);
        lines := lines + [TrimEnd(rest[..i])];
        rest := rest[i + 1..];
        i := Break(rest);
      }
      SplittingDone(all, last, lines, rest);
      partial := rest;
    }

    method PushText(content: string)
      modifies this
      ensures View() == old(Pushed(View(), content))
    {
      hide Complete, Rest, Last;
      var rest := partial + content;
      partial := "";
      if !atLineStart {
        var i := Break(rest);
        if i == |rest| {
          return;
        }
        rest := rest[i + 1..];
        atLineStart := true;
      }
      PushLines(rest);
      Trim();
    }

    method Apply(requestedOffset: nat, reply: Reply)
      modifies this
      ensures View() == old(Applied(View(), requestedOffset, reply))
    {
      hide Pushed, Last, Marker, JumpedToWindow;
      if requestedOffset != NextOffset(View()) {
        return;
      }
      match reply
      case InvalidRequest => Reset();
      case Failed(e) => error := Some(e);
      case Read(page) =>
        error := None;
        byteSize := page.byteSize;
        var end := EndOffset(page);
        var size := if page.byteSize.Some? then page.byteSize.value else end;
        if nextOffset.None? && size > ContentPageBytes && !page.eof {
          JumpToWindow(0, size);
          return;
        }
        PushText(ContentOf(page));
        if !page.eof && Minus(size, end) > ContentPageBytes {
          JumpToWindow(end, size);
          lines := lines + [Marker(Minus(size, ContentPageBytes) - end)];
          Trim();
        } else {
          nextOffset := Some(end);
        }
    }
  }

  // ---------------------------------------------------------------- runs

  /** The bytes `start` up to `end` of the log, read without a jump. */
  datatype Window = Window(start: nat, end: nat)

  /** An append-only log, the tail that follows it, and the windows read since the tail was last reset. */
  datatype Run = Run(log: string, tail: Tail, windows: seq<Window>)

  datatype Event = Grow(more: string) | Receive(requestedOffset: nat, reply: Reply)

  /** A page read at `requestedOffset` at any time: exactly the log's bytes from there, with a size the log had. */
  ghost predicate Honest(log: string, requestedOffset: nat, reply: Reply) {
    reply.Read? ==>
      var page := reply.page;
      && page.offset == requestedOffset <= EndOffset(page) <= |log|
      && ContentOf(page) == log[requestedOffset..EndOffset(page)]
      && (page.byteSize.Some? ==> page.byteSize.value <= |log|)
  }

  function LastWindow(windows: seq<Window>): Window {
    if windows == [] then Window(0, 0) else windows[|windows| - 1]
  }

  /** The windows after a reply, by the same branches as `Applied`. */
  function WindowsAfter(windows: seq<Window>, t: Tail, requestedOffset: nat, reply: Reply): seq<Window> {
    if requestedOffset != NextOffset(t) || windows == [] then windows
    else match reply
      case InvalidRequest => [Window(0, 0)]
      case Failed(_) => windows
      case Read(page) =>
        var end := EndOffset(page);
        var byteSize := if page.byteSize.Some? then page.byteSize.value else end;
        var target := Minus(byteSize, ContentPageBytes);
        if t.nextOffset.None? && byteSize > ContentPageBytes && !page.eof then [Window(target, target)]
        else
          var read := windows[|windows| - 1 := LastWindow(windows).(end := end)];
          if !page.eof && Minus(byteSize, end) > ContentPageBytes then read + [Window(target, target)] else read
  }

  ghost function Next(r: Run, e: Event): Run {
    match e
    case Grow(more) => r.(log := r.log + more)
    case Receive(offset, reply) =>
      if Honest(r.log, offset, reply)
      then r.(tail := Applied(r.tail, offset, reply), windows := WindowsAfter(r.windows, r.tail, offset, reply)) else r
  }

  ghost function RunEvents(events: seq<Event>): Run {
    if events == [] then Run("", NewTail, [Window(0, 0)])
    else Next(RunEvents(events[..|events| - 1]), events[|events| - 1])
  }

  // ---------------------------------------------------------------- what the tail shows

  /** Where the first whole line of a window starts: at its start, or after the first line break in it. */
  function BodyStart(log: string, w: Window): (p: nat)
    requires w.start <= w.end <= |log|
    ensures w.start <= p <= w.end
  {
    if w.start == 0 then 0
    else
      var i := Break(log[w.start..w.end]);
      if i < w.end - w.start then w.start + i + 1 else w.end
  }

  predicate AtLineStart(log: string, w: Window)
    requires w.start <= w.end <= |log|
  {
    w.start == 0 || Break(log[w.start..w.end]) < w.end - w.start
  }

  function Body(log: string, w: Window): string
    requires w.start <= w.end <= |log|
  {
    log[BodyStart(log, w)..w.end]
  }

  /** Each window lies in the log and starts after the end of the one before. */
  ghost predicate Chained(log: string, windows: seq<Window>) {
    && windows != []
    && var last := |windows| - 1;
       && windows[last].start <= windows[last].end <= |log|
       && (last == 0 || (windows[last - 1].end < windows[last].start && Chained(log, windows[..last])))
  }

  lemma {:induction false} ChainedAt(log: string, windows: seq<Window>, k: nat)
    requires Chained(log, windows) && k < |windows|
    ensures windows[k].start <= windows[k].end <= |log|
    ensures k > 0 ==> windows[k - 1].end < windows[k].start
  {
    if k < |windows| - 1 {
      ChainedAt(log, windows[..|windows| - 1], k);
    }
  }

  /** The lines of every window, with a marker for the bytes skipped before each but the first. */
  function Shown(log: string, windows: seq<Window>): seq<string>
    requires Chained(log, windows)
  {
    var last := |windows| - 1;
    if last == 0 then Complete(Body(log, windows[0]))
    else
      Shown(log, windows[..last])
      + ([Marker(windows[last].start - windows[last - 1].end)] + Complete(Body(log, windows[last])))
  }

  function BytesRead(windows: seq<Window>): int {
    if windows == [] then 0
    else BytesRead(windows[..|windows| - 1]) + windows[|windows| - 1].end - windows[|windows| - 1].start
  }

  /** The tail is exactly what the windows say. */
  ghost predicate Follows(r: Run) {
    && Chained(r.log, r.windows)
    && var w := LastWindow(r.windows);
       && NextOffset(r.tail) == w.end
       && (r.tail.nextOffset.None? ==> r.windows == [Window(0, 0)])
       && r.tail.lines == Last(Shown(r.log, r.windows), MaxTailLines)
       && r.tail.partial == (if AtLineStart(r.log, w) then Rest(Body(r.log, w)) else "")
       && r.tail.atLineStart == AtLineStart(r.log, w)
       && BytesRead(r.windows) + r.tail.skippedBytes == w.end
  }

  /** The lines of a window are a contiguous block of the log's lines, the last ones before its end. */
  lemma WindowShowsWholeLines(log: string, w: Window)
    requires w.start <= w.end <= |log|
    ensures Complete(Body(log, w)) == [] ||
            Complete(log[..w.end]) == Complete(log[..BodyStart(log, w)]) + Complete(Body(log, w))
    ensures AtLineStart(log, w) ==> Rest(Body(log, w)) == Rest(log[..w.end])
  {
    var p := BodyStart(log, w);
    BodyStartsLine(log, w);
    hide Complete, Rest, BodyStart, AtLineStart, Break;
    assert log[..w.end] == log[..p] + Body(log, w);
    SplitAppend(log[..p], Body(log, w));
    assert "" + Body(log, w) == Body(log, w);
    SplitStep("");
  }

  lemma BodyStartsLine(log: string, w: Window)
    requires w.start <= w.end <= |log|
    ensures AtLineStart(log, w) ==> Rest(log[..BodyStart(log, w)]) == ""
    ensures !AtLineStart(log, w) ==> Body(log, w) == "" && Complete(Body(log, w)) == []
  {
    var p := BodyStart(log, w);
    if AtLineStart(log, w) && p > 0 {
      var i := Break(log[w.start..w.end]);
      BreakIsFirst(log[w.start..w.end]);
      assert log[w.start..w.end][i] == log[p - 1];
      BreakEndsLine(log[..p]);
    }
  }

  lemma {:induction false} BreakEndsLine(text: string)
    requires text != [] && text[|text| - 1] == '\n'
    ensures Rest(text) == ""
    decreases |text|
  {
    var i := Break(text);
    BreakIsFirst(text);
    assert text[..|text|] == text;
    if i < |text| - 1 {
      BreakEndsLine(text[i + 1..]);
    }
  }

  // ---------------------------------------------------------------- every step keeps it

  /** What reading on to `end` adds to a window: the lines `extra`, and the state of its unfinished line. */
  function Extra(log: string, w: Window, end: nat): seq<string>
    requires w.start <= w.end <= end <= |log|
  {
    var content := log[w.end..end];
    if AtLineStart(log, w) then Complete(Rest(Body(log, w)) + content)
    else if Break(content) == |content| then []
    else Complete(content[Break(content) + 1..])
  }

  lemma WindowText(log: string, w: Window, end: nat)
    requires w.start <= w.end <= end <= |log|
    ensures log[w.start..end] == log[w.start..w.end] + log[w.end..end]
    ensures AtLineStart(log, w) ==> AtLineStart(log, w.(end := end)) && BodyStart(log, w.(end := end)) == BodyStart(log, w)
    ensures !AtLineStart(log, w) ==>
              var content := log[w.end..end];
              && (AtLineStart(log, w.(end := end)) <==> Break(content) < |content|)
              && BodyStart(log, w) == w.end
              && BodyStart(log, w.(end := end)) == if Break(content) < |content| then w.end + Break(content) + 1 else end
  {
    assert log[w.start..end] == log[w.start..w.end] + log[w.end..end];
    BreakAppend(log[w.start..w.end], log[w.end..end]);
  }

  lemma WindowGrows(log: string, w: Window, end: nat)
    requires w.start <= w.end <= end <= |log|
    ensures var content, w' := log[w.end..end], w.(end := end);
            && Complete(Body(log, w')) == Complete(Body(log, w)) + Extra(log, w, end)
            && AtLineStart(log, w') == (AtLineStart(log, w) || Break(content) < |content|)
            && (AtLineStart(log, w) ==> Rest(Body(log, w')) == Rest(Rest(Body(log, w)) + content))
            && (!AtLineStart(log, w) && AtLineStart(log, w') ==> Rest(Body(log, w')) == Rest(content[Break(content) + 1..]))
  {
    hide BodyStart, AtLineStart, Complete, Rest, Break, Extra;
    WindowText(log, w, end);
    if AtLineStart(log, w) {
      StartedGrows(log, w, end);
    } else {
      UnstartedGrows(log, w, end);
    }
  }

  lemma StartedGrows(log: string, w: Window, end: nat)
    requires w.start <= w.end <= end <= |log| && AtLineStart(log, w)
    ensures var content, w' := log[w.end..end], w.(end := end);
            && Complete(Body(log, w')) == Complete(Body(log, w)) + Extra(log, w, end)
            && Rest(Body(log, w')) == Rest(Rest(Body(log, w)) + content)
  {
    hide BodyStart, AtLineStart, Complete, Rest, Break;
    WindowText(log, w, end);
    assert Body(log, w.(end := end)) == Body(log, w) + log[w.end..end];
    SplitAppend(Body(log, w), log[w.end..end]);
  }

  lemma UnstartedGrows(log: string, w: Window, end: nat)
    requires w.start <= w.end <= end <= |log| && !AtLineStart(log, w)
    ensures var content, w' := log[w.end..end], w.(end := end);
            && Complete(Body(log, w')) == Complete(Body(log, w)) + Extra(log, w, end)
            && (Break(content) < |content| ==> Rest(Body(log, w')) == Rest(content[Break(content) + 1..]))
  {
    hide BodyStart, AtLineStart, Complete, Rest, Break;
    var content := log[w.end..end];
    WindowText(log, w, end);
    SplitStep("");
    assert Body(log, w) == "";
    assert Body(log, w.(end := end)) == if Break(content) < |content| then content[Break(content) + 1..] else "";
    assert [] + Extra(log, w, end) == Extra(log, w, end);
  }

  lemma ChainedPush(log: string, windows: seq<Window>, w: Window)
    requires Chained(log, windows) && LastWindow(windows).end < w.start <= w.end <= |log|
    ensures Chained(log, windows + [w]) && LastWindow(windows + [w]) == w
  {
    assert (windows + [w])[..|windows|] == windows;
  }

  lemma BytesPush(windows: seq<Window>, w: Window)
    ensures BytesRead(windows + [w]) == BytesRead(windows) + w.end - w.start
  {
    assert (windows + [w])[..|windows|] == windows;
  }

  lemma ShownPush(log: string, windows: seq<Window>, w: Window)
    requires Chained(log, windows) && LastWindow(windows).end < w.start <= w.end <= |log|
    ensures Chained(log, windows + [w]) && LastWindow(windows + [w]) == w
    ensures Shown(log, windows + [w])
         == Shown(log, windows) + ([Marker(w.start - LastWindow(windows).end)] + Complete(Body(log, w)))
    ensures BytesRead(windows + [w]) == BytesRead(windows) + w.end - w.start
  {
    assert windows != [];
    hide Complete, Marker, Body, BytesRead, Chained;
    ChainedPush(log, windows, w);
    BytesPush(windows, w);
    assert (windows + [w])[..|windows|] == windows;
  }

  lemma ShownOne(log: string, w: Window)
    requires w.start <= w.end <= |log|
    ensures Chained(log, [w]) && Shown(log, [w]) == Complete(Body(log, w)) && BytesRead([w]) == w.end - w.start
  {
    hide Complete, Body;
    assert [w][..0] == [];
  }

  lemma ShownExtends(log: string, windows: seq<Window>, end: nat)
    requires Chained(log, windows) && LastWindow(windows).end <= end <= |log|
    ensures var windows' := windows[|windows| - 1 := LastWindow(windows).(end := end)];
            && Chained(log, windows')
            && Shown(log, windows') == Shown(log, windows) + Extra(log, LastWindow(windows), end)
            && BytesRead(windows') == BytesRead(windows) + end - LastWindow(windows).end
            && LastWindow(windows') == LastWindow(windows).(end := end)
  {
    assert windows != [];
    hide Extra, Shown, Chained, BytesRead;
    var last := |windows| - 1;
    var init, w := windows[..last], windows[last];
    assert windows == init + [w] && windows[last := w.(end := end)] == init + [w.(end := end)];
    ShownGrows(log, init, w, end);
  }

  lemma ShownGrows(log: string, init: seq<Window>, w: Window, end: nat)
    requires Chained(log, init + [w]) && w.end <= end <= |log|
    ensures var w' := w.(end := end);
            && Chained(log, init + [w'])
            && Shown(log, init + [w']) == Shown(log, init + [w]) + Extra(log, w, end)
            && BytesRead(init + [w']) == BytesRead(init + [w]) + end - w.end
  {
    var w' := w.(end := end);
    ChainedInit(log, init, w);
    hide Complete, Body, Extra, Marker, Shown, Chained, BytesRead;
    WindowGrows(log, w, end);
    if init != [] {
      ShownPush(log, init, w);
      ShownPush(log, init, w');
      Regroup3(Shown(log, init), [Marker(w.start - LastWindow(init).end)], Complete(Body(log, w)), Extra(log, w, end));
    } else {
      assert init + [w] == [w] && init + [w'] == [w'];
      ShownOne(log, w);
      ShownOne(log, w');
    }
  }

  lemma ChainedInit(log: string, init: seq<Window>, w: Window)
    requires Chained(log, init + [w])
    ensures w.start <= w.end <= |log|
    ensures init != [] ==> Chained(log, init) && LastWindow(init).end < w.start
  {
    assert (init + [w])[..|init|] == init;
  }

  lemma Regroup3<T>(a: seq<T>, x: seq<T>, b: seq<T>, c: seq<T>)
    ensures a + (x + (b + c)) == (a + (x + b)) + c
  {
  }

  lemma ShownJumps(log: string, windows: seq<Window>, target: nat)
    requires Chained(log, windows) && LastWindow(windows).end < target <= |log|
    ensures var windows' := windows + [Window(target, target)];
            && Chained(log, windows')
            && Shown(log, windows') == Shown(log, windows) + [Marker(target - LastWindow(windows).end)]
            && BytesRead(windows') == BytesRead(windows)
            && !AtLineStart(log, Window(target, target)) && LastWindow(windows') == Window(target, target)
  {
    hide Complete, Body, AtLineStart, Marker, Shown, BytesRead, Chained;
    ShownPush(log, windows, Window(target, target));
    EmptyWindow(log, target);
    assert [Marker(target - LastWindow(windows).end)] + [] == [Marker(target - LastWindow(windows).end)];
  }

  lemma EmptyWindow(log: string, target: nat)
    requires 0 < target <= |log|
    ensures Complete(Body(log, Window(target, target))) == [] && !AtLineStart(log, Window(target, target))
  {
    assert log[target..target] == "";
  }

  lemma BodyGrown(log: string, more: string, w: Window)
    requires w.start <= w.end <= |log|
    ensures Body(log + more, w) == Body(log, w) && AtLineStart(log + more, w) == AtLineStart(log, w)
  {
    assert (log + more)[w.start..w.end] == log[w.start..w.end];
  }

  lemma {:induction false} ShownGrown(log: string, more: string, windows: seq<Window>)
    requires Chained(log, windows)
    ensures Chained(log + more, windows) && Shown(log + more, windows) == Shown(log, windows)
  {
    var last := |windows| - 1;
    BodyGrown(log, more, windows[last]);
    if last > 0 {
      ShownGrown(log, more, windows[..last]);
    }
  }

  lemma GrowKeeps(r: Run, more: string)
    requires Follows(r)
    ensures Follows(Next(r, Grow(more)))
  {
    ShownGrown(r.log, more, r.windows);
    BodyGrown(r.log, more, LastWindow(r.windows));
    hide Shown, Body, AtLineStart, Complete, Rest, Last, BytesRead;
  }

  /** Pushing the bytes up to `end` keeps the tail and its last window in step. */
  lemma PushKeeps(r: Run, t: Tail, end: nat)
    requires Follows(r) && LastWindow(r.windows).end <= end <= |r.log|
    requires t.lines == r.tail.lines && t.partial == r.tail.partial && t.atLineStart == r.tail.atLineStart
    requires t.skippedBytes == r.tail.skippedBytes
    ensures var windows' := r.windows[|r.windows| - 1 := LastWindow(r.windows).(end := end)];
            var u := Pushed(t, r.log[LastWindow(r.windows).end..end]);
            && Follows(Run(r.log, u.(nextOffset := Some(end)), windows'))
  {
    hide Shown, Body, Complete, Rest, BytesRead, AtLineStart, Chained, Last;
    var w := LastWindow(r.windows);
    ChainedLast(r.log, r.windows);
    var content := r.log[w.end..end];
    ShownExtends(r.log, r.windows, end);
    WindowGrows(r.log, w, end);
    LastAppend(Shown(r.log, r.windows), Extra(r.log, w, end), MaxTailLines);
    assert "" + content == content;
    LastTwice(Shown(r.log, r.windows), MaxTailLines);
    assert Shown(r.log, r.windows) + [] == Shown(r.log, r.windows);
    assert r.tail.lines + [] == r.tail.lines;
  }

  lemma ChainedLast(log: string, windows: seq<Window>)
    requires Chained(log, windows)
    ensures var w := LastWindow(windows); w.start <= w.end <= |log|
  {
  }

  lemma LastTwice(lines: seq<string>, n: nat)
    ensures Last(Last(lines, n), n) == Last(lines, n)
  {
  }

  lemma ProbeKeeps(r: Run, t: Tail, size: nat)
    requires Follows(r) && r.tail.nextOffset.None? && ContentPageBytes < size <= |r.log|
    requires t.lines == r.tail.lines && t.skippedBytes == r.tail.skippedBytes
    ensures var target := size - ContentPageBytes;
            Follows(Run(r.log, JumpedToWindow(t, 0, size), [Window(target, target)]))
  {
    var target := size - ContentPageBytes;
    assert r.log[target..target] == "";
    assert BytesRead([Window(target, target)]) == BytesRead([]);
    assert BytesRead([Window(0, 0)]) == BytesRead([]);
  }

  lemma JumpKeeps(r: Run, size: nat)
    requires Follows(r) && r.tail.nextOffset.Some? && size <= |r.log| && size > LastWindow(r.windows).end + ContentPageBytes
    ensures var target, end := size - ContentPageBytes, LastWindow(r.windows).end;
            var w := JumpedToWindow(r.tail, end, size);
            Follows(Run(r.log, w.(lines := Last(w.lines + [Marker(target - end)], MaxTailLines)), r.windows + [Window(target, target)]))
  {
    var target, end := size - ContentPageBytes, LastWindow(r.windows).end;
    hide Shown, Body, Complete, Rest, Last, BytesRead, Marker, AtLineStart, Chained;
    ShownJumps(r.log, r.windows, target);
    LastAppend(Shown(r.log, r.windows), [Marker(target - end)], MaxTailLines);
  }

  lemma ReadKeeps(r: Run, offset: nat, reply: Reply)
    requires Follows(r) && Honest(r.log, offset, reply) && reply.Read? && offset == NextOffset(r.tail)
    ensures Follows(Next(r, Receive(offset, reply)))
  {
    hide Shown, Body, Complete, Rest, Last, BytesRead, Marker, Pushed, AtLineStart, JumpedToWindow, Follows;
    var page := reply.page;
    var end := EndOffset(page);
    var size := if page.byteSize.Some? then page.byteSize.value else end;
    var u := r.tail.(error := None, byteSize := page.byteSize);
    assert offset == LastWindow(r.windows).end && r.windows != [] by { FollowsEnd(r); }
    if r.tail.nextOffset.None? && size > ContentPageBytes && !page.eof {
      ProbeKeeps(r, u, size);
    } else {
      PushKeeps(r, u, end);
      var windows' := r.windows[|r.windows| - 1 := LastWindow(r.windows).(end := end)];
      var v := Pushed(u, ContentOf(page));
      if !page.eof && Minus(size, end) > ContentPageBytes {
        JumpKeeps(Run(r.log, v.(nextOffset := Some(end)), windows'), size);
        SameJump(v, Some(end), end, size);
      }
    }
  }

  lemma FollowsEnd(r: Run)
    requires Follows(r)
    ensures r.windows != [] && LastWindow(r.windows).end == NextOffset(r.tail)
  {
  }

  lemma SameJump(t: Tail, at: Option<nat>, from: nat, size: nat)
    ensures JumpedToWindow(t.(nextOffset := at), from, size) == JumpedToWindow(t, from, size)
  {
  }

  lemma NextKeeps(r: Run, e: Event)
    requires Follows(r)
    ensures Follows(Next(r, e))
  {
    match e
    case Grow(more) => GrowKeeps(r, more);
    case Receive(offset, reply) =>
      if Honest(r.log, offset, reply) && offset == NextOffset(r.tail) {
        match reply
        case InvalidRequest => FreshFollows(r.log);
        case Failed(_) =>
        case Read(_) => ReadKeeps(r, offset, reply);
      }
  }

  lemma FreshFollows(log: string)
    ensures Follows(Run(log, NewTail, [Window(0, 0)]))
  {
    assert log[0..0] == "";
    assert BytesRead([Window(0, 0)]) == BytesRead([]);
  }

  lemma {:induction false} AlwaysFollows(events: seq<Event>)
    ensures Follows(RunEvents(events))
  {
    if events == [] {
      FreshFollows("");
    } else {
      AlwaysFollows(events[..|events| - 1]);
      NextKeeps(RunEvents(events[..|events| - 1]), events[|events| - 1]);
    }
  }

  // ---------------------------------------------------------------- what holds over every run

  /** Bytes pushed plus bytes skipped make up the next offset; at most 500 lines are kept, the last of those the windows hold. */
  lemma BytesAccountedFor(events: seq<Event>)
    ensures var r := RunEvents(events);
            && BytesRead(r.windows) + r.tail.skippedBytes == NextOffset(r.tail) <= |r.log|
            && |r.tail.lines| <= MaxTailLines
            && Chained(r.log, r.windows) && r.tail.lines == Last(Shown(r.log, r.windows), MaxTailLines)
  {
    AlwaysFollows(events);
    hide RunEvents, Shown, BytesRead, Chained;
    ChainedLast(RunEvents(events).log, RunEvents(events).windows);
  }

  /**
    Every window shows a contiguous block of the log's own lines, and the unfinished line is the
    log's, unless its beginning was skipped.
   */
  lemma ShowsWholeLogLines(events: seq<Event>, k: nat)
    requires k < |RunEvents(events).windows|
    ensures var r := RunEvents(events); var w := r.windows[k];
            && w.start <= w.end <= |r.log|
            && (Complete(Body(r.log, w)) == [] ||
                Complete(r.log[..w.end]) == Complete(r.log[..BodyStart(r.log, w)]) + Complete(Body(r.log, w)))
            && (k == |r.windows| - 1 ==>
                  r.tail.partial == if AtLineStart(r.log, w) then Rest(r.log[..w.end]) else "")
  {
    AlwaysFollows(events);
    ChainedAt(RunEvents(events).log, RunEvents(events).windows, k);
    WindowShowsWholeLines(RunEvents(events).log, RunEvents(events).windows[k]);
    hide RunEvents, Shown, BytesRead, Complete, Rest, Body, Last;
  }

  /** `line` is `text` without the carriage returns at its end. */
  ghost predicate IsTrimmed(line: string, text: string) {
    && |line| <= |text| && line == text[..|line|]
    && (forall i :: |line| <= i < |text| ==> text[i] == '\r')
    && (line == [] || line[|line| - 1] != '\r')
  }

  lemma {:induction false} TrimEndTrims(line: string)
    ensures IsTrimmed(TrimEnd(line), line)
    decreases |line|
  {
    if line != [] && line[|line| - 1] == '\r' {
      TrimEndTrims(line[..|line| - 1]);
    }
  }

  /** A line of the log: no break inside it, a break after it, and a break or the start of the log before it. */
  ghost predicate IsLogLine(log: string, line: string, from: nat, to: nat) {
    && from <= to < |log| && log[to] == '\n' && '\n' !in log[from..to]
    && (from == 0 || log[from - 1] == '\n')
    && IsTrimmed(line, log[from..to])
  }

  /** Where line `k` of a text starts. */
  ghost function LineStart(text: string, k: nat): nat {
    if k == 0 then 0
    else
      var i := Break(text);
      if i == |text| then |text| else i + 1 + LineStart(text[i + 1..], k - 1)
  }

  lemma FirstLine(text: string)
    requires Break(text) < |text|
    ensures IsLogLine(text, TrimEnd(text[..Break(text)]), 0, Break(text))
  {
    var i := Break(text);
    hide Break, TrimEnd;
    BreakIsFirst(text);
    TrimEndTrims(text[..i]);
    assert text[0..i] == text[..i];
  }

  /** A line of what follows a break is a line of the whole text. */
  lemma LaterLine(text: string, cut: nat, line: string, from: nat, to: nat)
    requires 0 < cut <= |text| && text[cut - 1] == '\n' && IsLogLine(text[cut..], line, from, to)
    ensures IsLogLine(text, line, from + cut, to + cut)
  {
    var rest := text[cut..];
    assert text[from + cut..to + cut] == rest[from..to];
    assert rest[to] == text[to + cut];
    if from > 0 {
      assert rest[from - 1] == text[from + cut - 1];
    }
  }

  lemma LaterComplete(text: string, k: nat)
    requires 0 < k < |Complete(text)|
    ensures Break(text) < |text|
    ensures var rest := text[Break(text) + 1..];
            k - 1 < |Complete(rest)| && Complete(text)[k] == Complete(rest)[k - 1]
  {
    hide Break, TrimEnd;
  }

  /** Split lines are the text's lines in order: each starts where the one before it ended. */
  lemma {:induction false} CompleteLinesAreLines(text: string, k: nat)
    requires k < |Complete(text)|
    ensures LineStart(text, k + 1) >= LineStart(text, k) + 1
    ensures IsLogLine(text, Complete(text)[k], LineStart(text, k), LineStart(text, k + 1) - 1)
    decreases k
  {
    hide IsLogLine, Complete, Break, TrimEnd, LineStart;
    var i := Break(text);
    SplitStep(text);
    LineStartStep(text, k);
    LineStartStep(text, k + 1);
    if k == 0 {
      LineStartStep(text[i + 1..], 0);
      FirstLine(text);
    } else {
      var rest := text[i + 1..];
      BreakIsFirst(text);
      LaterComplete(text, k);
      CompleteLinesAreLines(rest, k - 1);
      LaterLine(text, i + 1, Complete(rest)[k - 1], LineStart(rest, k - 1), LineStart(rest, k) - 1);
    }
  }

  /** What follows the last split line is the unfinished line, and it has no break. */
  lemma {:induction false} RestFollowsLines(text: string)
    ensures LineStart(text, |Complete(text)|) <= |text| && Rest(text) == text[LineStart(text, |Complete(text)|)..]
    ensures '\n' !in Rest(text)
    decreases |text|
  {
    hide Complete, Rest, Break, TrimEnd, LineStart;
    var i := Break(text);
    SplitStep(text);
    BreakIsFirst(text);
    LineStartStep(text, |Complete(text)|);
    if i < |text| {
      RestFollowsLines(text[i + 1..]);
    } else {
      assert text[..i] == text;
    }
  }

  lemma LineStartStep(text: string, k: nat)
    ensures k == 0 ==> LineStart(text, k) == 0
    ensures k > 0 && Break(text) < |text| ==>
              LineStart(text, k) == Break(text) + 1 + LineStart(text[Break(text) + 1..], k - 1)
  {
  }

  /** Without a jump the tail depends on the bytes read alone, not on how they were chunked or which replies were late. */
  lemma ChunkingDoesNotMatter(events: seq<Event>)
    ensures var r := RunEvents(events); var read := NextOffset(r.tail);
            r.windows == [Window(0, read)] ==>
              && read <= |r.log| && r.tail.skippedBytes == 0
              && r.tail.lines == Last(Complete(r.log[..read]), MaxTailLines)
              && r.tail.partial == Rest(r.log[..read])
  {
    var r := RunEvents(events);
    AlwaysFollows(events);
    if r.windows == [Window(0, NextOffset(r.tail))] {
      assert r.log[0..NextOffset(r.tail)] == r.log[..NextOffset(r.tail)];
      assert BytesRead(r.windows[..0]) == 0;
    }
  }

  /** The windows stay one from the start of the log exactly as long as nothing was skipped. */
  lemma NoJumpNoSkip(events: seq<Event>)
    ensures var r := RunEvents(events);
            r.tail.skippedBytes == 0 <==> r.windows == [Window(0, NextOffset(r.tail))]
  {
    var r := RunEvents(events);
    AlwaysFollows(events);
    GapsAreSkipped(r.windows, r.log);
  }

  lemma {:induction false} GapsAreSkipped(windows: seq<Window>, log: string)
    requires Chained(log, windows)
    ensures BytesRead(windows) <= LastWindow(windows).end
    ensures BytesRead(windows) == LastWindow(windows).end <==> |windows| == 1 && windows[0].start == 0
  {
    var last := |windows| - 1;
    if last > 0 {
      GapsAreSkipped(windows[..last], log);
    } else {
      assert BytesRead(windows[..0]) == 0;
    }
  }
}
