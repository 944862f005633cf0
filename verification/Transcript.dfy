/** The fold of drained events into transcript lines (onEvent and commitStream in
    cmd/nilcore/tui.go), without styling. */
module Transcript {
  import opened EventQueue

  /** A committed transcript line: the streamed text of one turn, or one framed event. */
  datatype Line = Streamed(step: int, text: string) | Framed(ev: Event)

  datatype View = View(lines: seq<Line>, stream: string, streamStep: int)

  const BLANK := View([], "", 0)

  function TrimNewlines(s: string): (r: string)
    ensures r <= s && (r == "" || r[|r| - 1] != '\n')
    ensures forall i :: |r| <= i < |s| ==> s[i] == '\n'
  {
    if s != "" && s[|s| - 1] == '\n' then TrimNewlines(s[..|s| - 1]) else s
  }

  function Commit(v: View): View {
    if v.stream == "" then v
    else v.(lines := v.lines + [Streamed(v.streamStep, TrimNewlines(v.stream))], stream := "")
  }

  /** One event folded into the view. An ask that carries a question opens a modal and adds no line. */
  function Fold(v: View, ev: Event): View {
    if ev.token then
      var base := if v.stream != "" && ev.step != v.streamStep then Commit(v) else v;
      View(base.lines, base.stream + ev.text, if base.stream == "" then ev.step else base.streamStep)
    else
      var base := Commit(v);
      if ev.ask then base else base.(lines := base.lines + [Framed(ev)])
  }

  function FoldAll(v: View, evs: seq<Event>): View
    decreases |evs|
  {
    if evs == [] then v else Fold(FoldAll(v, evs[..|evs| - 1]), evs[|evs| - 1])
  }

  lemma TrimOne(s: string, end: nat)
    requires 0 < end <= |s| && s[end - 1] == '\n'
    ensures TrimNewlines(s[..end]) == TrimNewlines(s[..end - 1])
  {
  }

  lemma TrimDone(s: string)
    requires s == "" || s[|s| - 1] != '\n'
    ensures TrimNewlines(s) == s
  {
  }

  class TuiModel {
    var lines: seq<Line>
    var stream: string
    var streamStep: int

    ghost function Snapshot(): View
      reads this
    {
      View(lines, stream, streamStep)
    }

    method CommitStream()
      modifies this`lines, this`stream
      ensures Snapshot() == Commit(old(Snapshot()))
    {
      if |stream| > 0 {
        var text := stream;
        var end := |text|;
        assert text[..end] == text;
        while end > 0 && text[end - 1] == '\n'
          invariant 0 <= end <= |text|
          invariant TrimNewlines(text) == TrimNewlines(text[..end]) && lines == old(lines)
        {
          TrimOne(text, end);
          end := end - 1;
        }
        TrimDone(text[..end]);
        lines := lines + [Streamed(streamStep, text[..end])];
        stream := "";
      }
    }

    method OnEvent(ev: Event)
      modifies this
      ensures Snapshot() == Fold(old(Snapshot()), ev)
    {
      if ev.token {
        if |stream| > 0 && ev.step != streamStep {
          CommitStream();
        }
        if |stream| == 0 {
          streamStep := ev.step;
        }
        stream := stream + ev.text;
      } else {
        CommitStream();
        if !ev.ask {
          lines := lines + [Framed(ev)];
        }
      }
    }

    /** A drained batch, folded event by event. */
    method OnBatch(evs: seq<Event>)
      modifies this
      ensures Snapshot() == FoldAll(old(Snapshot()), evs)
    {
      var i := 0;
      while i < |evs|
        invariant 0 <= i <= |evs|
        invariant Snapshot() == FoldAll(old(Snapshot()), evs[..i])
      {
        assert evs[..i + 1][..i] == evs[..i];
        OnEvent(evs[i]);
        i := i + 1;
      }
      assert evs[..i] == evs;
    }
  }

  // --- What the transcript shows of the events ---

  function FrameLines(lines: seq<Line>): (r: seq<Event>) {
    if lines == [] then []
    else
      var last := lines[|lines| - 1];
      FrameLines(lines[..|lines| - 1]) + (if last.Framed? then [last.ev] else [])
  }

  function ShownFrames(evs: seq<Event>): (r: seq<Event>) {
    if evs == [] then []
    else
      var last := evs[|evs| - 1];
      ShownFrames(evs[..|evs| - 1]) + (if last.token || last.ask then [] else [last])
  }

  /** A text without its line breaks. */
  function Unbroken(s: string): (r: string) {
    if s == "" then "" else Unbroken(s[..|s| - 1]) + (if s[|s| - 1] == '\n' then "" else [s[|s| - 1]])
  }

  /** The text tokens of turn `step` left in the transcript: committed, then still streaming. */
  function TurnText(v: View, step: int): (r: string) {
    LinesText(v.lines, step) + (if v.streamStep == step then Unbroken(v.stream) else "")
  }

  function LinesText(lines: seq<Line>, step: int): (r: string) {
    if lines == [] then ""
    else
      var last := lines[|lines| - 1];
      LinesText(lines[..|lines| - 1], step)
      + (if last.Streamed? && last.step == step then Unbroken(last.text) else "")
  }

  function TokenText(evs: seq<Event>, step: int): (r: string) {
    if evs == [] then ""
    else
      var last := evs[|evs| - 1];
      TokenText(evs[..|evs| - 1], step) + (if last.token && last.step == step then Unbroken(last.text) else "")
  }

  lemma {:induction false} UnbrokenConcat(a: string, b: string)
    ensures Unbroken(a + b) == Unbroken(a) + Unbroken(b)
    decreases |b|
  {
    if b == "" {
      assert a + b == a;
    } else {
      var n := |b| - 1;
      assert (a + b)[..|a| + n] == a + b[..n];
      UnbrokenConcat(a, b[..n]);
    }
  }

  lemma {:induction false} UnbrokenTrim(s: string)
    ensures Unbroken(TrimNewlines(s)) == Unbroken(s)
    decreases |s|
  {
    if s != "" && s[|s| - 1] == '\n' {
      UnbrokenTrim(s[..|s| - 1]);
    }
  }

  lemma {:induction false} PushLine(lines: seq<Line>, line: Line, step: int)
    ensures LinesText(lines + [line], step)
         == LinesText(lines, step) + (if line.Streamed? && line.step == step then Unbroken(line.text) else "")
    ensures FrameLines(lines + [line]) == FrameLines(lines) + (if line.Framed? then [line.ev] else [])
  {
  }

  lemma {:induction false} CommitKeeps(v: View, step: int)
    ensures TurnText(Commit(v), step) == TurnText(v, step)
    ensures FrameLines(Commit(v).lines) == FrameLines(v.lines)
  {
    if v.stream != "" {
      UnbrokenTrim(v.stream);
      PushLine(v.lines, Streamed(v.streamStep, TrimNewlines(v.stream)), step);
    }
  }

  lemma {:induction false} StreamToken(v: View, ev: Event, step: int)
    requires v.stream == "" || v.streamStep == ev.step
    ensures TurnText(View(v.lines, v.stream + ev.text, ev.step), step)
         == TurnText(v, step) + (if ev.step == step then Unbroken(ev.text) else "")
  {
    UnbrokenConcat(v.stream, ev.text);
  }

  lemma {:induction false} FoldToken(v: View, ev: Event, step: int)
    requires ev.token
    ensures TurnText(Fold(v, ev), step) == TurnText(v, step) + (if ev.step == step then Unbroken(ev.text) else "")
    ensures FrameLines(Fold(v, ev).lines) == FrameLines(v.lines)
  {
    var base := if v.stream != "" && ev.step != v.streamStep then Commit(v) else v;
    CommitKeeps(v, step);
    StreamToken(base, ev, step);
    assert Fold(v, ev) == View(base.lines, base.stream + ev.text, ev.step);
  }

  lemma {:induction false} FoldFrame(v: View, ev: Event, step: int)
    requires !ev.token
    ensures TurnText(Fold(v, ev), step) == TurnText(v, step)
    ensures FrameLines(Fold(v, ev).lines) == FrameLines(v.lines) + (if ev.ask then [] else [ev])
  {
    CommitKeeps(v, step);
    if !ev.ask {
      PushLine(Commit(v).lines, Framed(ev), step);
      assert LinesText(Commit(v).lines, step) + "" == LinesText(Commit(v).lines, step);
    }
  }

  lemma {:induction false} FoldKeeps(v: View, ev: Event, step: int)
    ensures TurnText(Fold(v, ev), step)
         == TurnText(v, step) + (if ev.token && ev.step == step then Unbroken(ev.text) else "")
    ensures FrameLines(Fold(v, ev).lines) == FrameLines(v.lines) + (if ev.token || ev.ask then [] else [ev])
  {
    if ev.token {
      FoldToken(v, ev, step);
    } else {
      FoldFrame(v, ev, step);
    }
  }

  /** The transcript shows every frame once and in order, whatever tokens arrive around them, and
      no two turns ever merge: the text shown for a turn is exactly that turn's tokens, in order,
      up to line breaks. */
  lemma {:induction false} TranscriptIsFaithful(evs: seq<Event>, step: int)
    ensures FrameLines(FoldAll(BLANK, evs).lines) == ShownFrames(evs)
    ensures TurnText(FoldAll(BLANK, evs), step) == TokenText(evs, step)
    decreases |evs|
  {
    if evs != [] {
      TranscriptIsFaithful(evs[..|evs| - 1], step);
      FoldKeeps(FoldAll(BLANK, evs[..|evs| - 1]), evs[|evs| - 1], step);
    }
  }

  lemma {:induction false} ShownFramesOfFrames(evs: seq<Event>)
    ensures ShownFrames(evs) == ShownFrames(Frames(evs))
    decreases |evs|
  {
    if evs != [] {
      ShownFramesOfFrames(evs[..|evs| - 1]);
      var last := evs[|evs| - 1];
      if last.token {
        assert Frames(evs) == Frames(evs[..|evs| - 1]);
        assert ShownFrames(evs) == ShownFrames(evs[..|evs| - 1]);
      } else {
        var frames := Frames(evs[..|evs| - 1]);
        assert (frames + [last])[..|frames|] == frames;
        assert ShownFrames(frames + [last]) == ShownFrames(frames) + (if last.ask then [] else [last]);
      }
    }
  }

  /** End to end: as long as no overflow met a buffer without tokens, what the operator sees once
      the queue is drained has every emitted frame, in emission order. */
  lemma QueueThenTranscript(steps: seq<Step>, t: State)
    requires Runs(INITIAL, steps, t) && t.buf == [] && t.lostFrames == 0
    ensures FrameLines(FoldAll(BLANK, t.drained).lines) == ShownFrames(t.emitted)
  {
    DeliveredInOrder(steps, t);
    assert t.drained + t.buf == t.drained;
    TranscriptIsFaithful(t.drained, 0);
    ShownFramesOfFrames(t.drained);
    ShownFramesOfFrames(t.emitted);
  }

  lemma {:induction false} FoldTail(v: View, w: View, all: seq<Event>, tail: seq<Event>)
    requires tail != [] && |tail| <= |all| && all[|all| - |tail|..] == tail
    requires FoldAll(w, tail[..|tail| - 1]) == FoldAll(v, all[..|all| - 1])
    ensures FoldAll(w, tail) == FoldAll(v, all)
  {
    assert all[|all| - 1] == tail[|tail| - 1];
  }

  /** How the drained events were cut into batches does not show. */
  lemma {:induction false} BatchesFoldAsOne(v: View, first: seq<Event>, second: seq<Event>)
    ensures FoldAll(FoldAll(v, first), second) == FoldAll(v, first + second)
    decreases |second|
  {
    var all := first + second;
    if second == [] {
      assert all == first;
    } else {
      BatchesFoldAsOne(v, first, second[..|second| - 1]);
      assert first + second[..|second| - 1] == all[..|all| - 1] && all[|first|..] == second;
      FoldTail(v, FoldAll(v, first), all, second);
    }
  }

  // --- One line for each turn ---

  function Texts(evs: seq<Event>): (r: string) {
    if evs == [] then "" else Texts(evs[..|evs| - 1]) + evs[|evs| - 1].text
  }

  predicate TokensOf(evs: seq<Event>, step: int) {
    forall ev :: ev in evs ==> ev.token && ev.step == step
  }

  /** The tokens of one turn run on in the open stream: no line is committed between them. */
  lemma {:induction false} TurnRunsOn(v: View, evs: seq<Event>, step: int)
    requires TokensOf(evs, step) && evs != [] && (v.stream != "" ==> v.streamStep == step)
    ensures FoldAll(v, evs) == View(v.lines, v.stream + Texts(evs), step)
    decreases |evs|
  {
    var init, last := evs[..|evs| - 1], evs[|evs| - 1];
    assert last in evs && forall ev :: ev in init ==> ev in evs;
    if init == [] {
      assert FoldAll(v, init) == v && Texts(evs) == "" + last.text;
    } else {
      TurnRunsOn(v, init, step);
      assert v.stream + (Texts(init) + last.text) == (v.stream + Texts(init)) + last.text;
    }
  }

  function TurnLine(step: int, evs: seq<Event>): (r: Line) {
    Streamed(step, TrimNewlines(Texts(evs)))
  }

  /** A turn is one line: its tokens, without the line breaks at its end, as soon as a frame, a question
      or a token of another turn follows. */
  lemma {:induction false} TurnIsOneLine(v: View, evs: seq<Event>, step: int, next: Event)
    requires TokensOf(evs, step) && v.stream == "" && Texts(evs) != "" && (next.token ==> next.step != step)
    ensures var t, line := FoldAll(v, evs + [next]), TurnLine(step, evs);
            t == if next.token then View(v.lines + [line], next.text, next.step)
                 else View(v.lines + [line] + (if next.ask then [] else [Framed(next)]), "", step)
  {
    TurnRunsOn(v, evs, step);
    assert (evs + [next])[..|evs|] == evs && v.stream + Texts(evs) == Texts(evs);
    assert v.lines + [TurnLine(step, evs)] + [] == v.lines + [TurnLine(step, evs)];
  }

  /** Without an open turn a frame is a line of its own and commits nothing. */
  lemma {:induction false} FrameAlone(v: View, ev: Event)
    requires v.stream == "" && !ev.token
    ensures Fold(v, ev) == v.(lines := v.lines + (if ev.ask then [] else [Framed(ev)]))
  {
    assert v.lines + [] == v.lines;
  }

  // --- What the transcript shows, text and frames together ---

  /** One visible item: a character of a turn's text, or a frame. */
  datatype Item = Letter(step: int, c: char) | Frame(ev: Event)

  function Letters(s: string, step: int): (r: seq<Item>) {
    if s == "" then []
    else
      var last := s[|s| - 1];
      Letters(s[..|s| - 1], step) + (if last == '\n' then [] else [Letter(step, last)])
  }

  function LineItem(line: Line): (r: seq<Item>) {
    match line
    case Streamed(step, text) => Letters(text, step)
    case Framed(ev) => [Frame(ev)]
  }

  function LineItems(lines: seq<Line>): (r: seq<Item>) {
    if lines == [] then [] else LineItems(lines[..|lines| - 1]) + LineItem(lines[|lines| - 1])
  }

  /** The transcript read from top to bottom, the open stream last. */
  function Shown(v: View): (r: seq<Item>) {
    LineItems(v.lines) + Letters(v.stream, v.streamStep)
  }

  /** The events read in order: a token's letters under its turn, a frame as itself, an ask as nothing. */
  function EventItems(evs: seq<Event>): (r: seq<Item>) {
    if evs == [] then []
    else
      var last := evs[|evs| - 1];
      EventItems(evs[..|evs| - 1])
      + (if last.token then Letters(last.text, last.step) else if last.ask then [] else [Frame(last)])
  }

  lemma {:induction false} LettersConcat(a: string, b: string, step: int)
    ensures Letters(a + b, step) == Letters(a, step) + Letters(b, step)
    decreases |b|
  {
    if b == "" {
      assert a + b == a;
    } else {
      var n := |b| - 1;
      assert (a + b)[..|a| + n] == a + b[..n];
      LettersConcat(a, b[..n], step);
    }
  }

  lemma {:induction false} LettersTrim(s: string, step: int)
    ensures Letters(TrimNewlines(s), step) == Letters(s, step)
    decreases |s|
  {
    if s != "" && s[|s| - 1] == '\n' {
      LettersTrim(s[..|s| - 1], step);
    }
  }

  lemma LineItemsPush(lines: seq<Line>, line: Line)
    ensures LineItems(lines + [line]) == LineItems(lines) + LineItem(line)
  {
    assert (lines + [line])[..|lines|] == lines;
  }

  lemma {:induction false} CommitShows(v: View)
    ensures Shown(Commit(v)) == Shown(v) == LineItems(Commit(v).lines)
  {
    if v.stream != "" {
      LettersTrim(v.stream, v.streamStep);
      LineItemsPush(v.lines, Streamed(v.streamStep, TrimNewlines(v.stream)));
    }
  }

  lemma {:induction false} StreamGrows(lines: seq<Line>, stream: string, more: string, step: int)
    ensures Shown(View(lines, stream + more, step)) == Shown(View(lines, stream, step)) + Letters(more, step)
  {
    LettersConcat(stream, more, step);
    Regroup(LineItems(lines), Letters(stream, step), Letters(more, step));
  }

  lemma Regroup(a: seq<Item>, b: seq<Item>, c: seq<Item>)
    ensures a + (b + c) == (a + b) + c
  {
  }

  lemma {:induction false} TokenShows(v: View, ev: Event)
    requires ev.token
    ensures Shown(Fold(v, ev)) == Shown(v) + Letters(ev.text, ev.step)
  {
    var base := if v.stream != "" && ev.step != v.streamStep then Commit(v) else v;
    CommitShows(v);
    assert Shown(base) == Shown(v);
    StreamGrows(base.lines, base.stream, ev.text, ev.step);
    if base.stream == "" {
      assert Letters(base.stream, ev.step) == Letters(base.stream, base.streamStep);
    }
  }

  lemma {:induction false} FrameShows(v: View, ev: Event)
    requires !ev.token
    ensures Shown(Fold(v, ev)) == Shown(v) + (if ev.ask then [] else [Frame(ev)])
  {
    CommitShows(v);
    if !ev.ask {
      LineItemsPush(Commit(v).lines, Framed(ev));
    }
  }

  /** The transcript is the events in order: every letter under its own turn, every frame between the
      letters it arrived between, nothing added, lost or moved except line breaks. */
  lemma {:induction false} TranscriptKeepsOrder(evs: seq<Event>)
    ensures Shown(FoldAll(BLANK, evs)) == EventItems(evs)
    decreases |evs|
  {
    if evs != [] {
      var v, ev := FoldAll(BLANK, evs[..|evs| - 1]), evs[|evs| - 1];
      TranscriptKeepsOrder(evs[..|evs| - 1]);
      if ev.token {
        TokenShows(v, ev);
      } else {
        FrameShows(v, ev);
      }
    }
  }
}
