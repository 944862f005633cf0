/** The bounded, ordered event queue between the agent loop and the terminal UI
    (tuiEmitter in cmd/nilcore/tui.go), and its wake-up protocol under any interleaving
    of many emitters and the one listener. */
module EventQueue {

  const CAPACITY: nat := 256

  /** An emitted event. `token` marks the coalescible kind; every other kind is a frame. */
  datatype Event = Event(token: bool, step: int, text: string, ask: bool)

  // --- What the queue does, as functions of its contents ---

  /** Position of the oldest token, or |buf| when none is buffered. */
  function OldestToken(buf: seq<Event>): (i: nat)
    ensures i <= |buf|
    ensures i < |buf| ==> buf[i].token
    ensures forall j :: 0 <= j < i ==> !buf[j].token
  {
    if buf == [] || buf[0].token then 0 else 1 + OldestToken(buf[1..])
  }

  function RemoveAt(buf: seq<Event>, i: nat): (r: seq<Event>)
    requires i < |buf|
  {
    buf[..i] + buf[i + 1..]
  }

  /** The victim of one coalescing step: the oldest token, else the head. */
  function Victim(buf: seq<Event>): (i: nat)
    requires buf != []
    ensures i < |buf|
  {
    if OldestToken(buf) < |buf| then OldestToken(buf) else 0
  }

  function Enqueue(buf: seq<Event>, ev: Event): (r: seq<Event>) {
    var grown := buf + [ev];
    if |grown| > CAPACITY then RemoveAt(grown, Victim(grown)) else grown
  }

  // --- The queue itself ---

  class TuiEmitter {
    var buf: seq<Event>
    var wake: bool // the one-slot wake channel: true while a signal is pending

    constructor ()
      ensures buf == [] && !wake
    {
      buf := [];
      wake := false;
    }

    method Emit(ev: Event)
      modifies this
      ensures buf == Enqueue(old(buf), ev)
      ensures wake
    {
      buf := buf + [ev];
      if |buf| > CAPACITY {
        Coalesce();
      }
      if !wake {
        wake := true;
      }
    }

    method Coalesce()
      requires buf != []
      modifies this`buf
      ensures buf == RemoveAt(old(buf), Victim(old(buf)))
    {
      var i := 0;
      while i < |buf|
        invariant 0 <= i <= |buf|
        invariant buf == old(buf)
        invariant forall j :: 0 <= j < i ==> !buf[j].token
      {
        if buf[i].token {
          assert OldestToken(buf) == i;
          buf := buf[..i] + buf[i + 1..];
          return;
        }
        i := i + 1;
      }
      buf := buf[1..];
    }

    method Drain() returns (out: seq<Event>)
      modifies this`buf
      ensures out == old(buf) && buf == []
    {
      out := buf;
      buf := [];
    }
  }

  /** Past its capacity the queue gives up one event: the oldest token, the new event included, or its
      head when it holds no token at all. */
  lemma EnqueueShedsExactly(buf: seq<Event>, ev: Event) returns (v: nat)
    ensures |buf| < 256 ==> Enqueue(buf, ev) == buf + [ev]
    ensures |buf| >= 256 ==>
              var grown := buf + [ev];
              && v < |grown| && Enqueue(buf, ev) == grown[..v] + grown[v + 1..]
              && (forall j :: 0 <= j < v ==> !grown[j].token)
              && (grown[v].token || (v == 0 && forall e :: e in grown ==> !e.token))
  {
    var grown := buf + [ev];
    v := Victim(grown);
    if !grown[v].token {
      forall e | e in grown ensures !e.token {
        assert OldestToken(grown) == |grown|;
      }
    }
  }

  // --- Order and loss ---

  /** `xs` is obtained from `ys` by deleting elements. */
  predicate Subsequence(xs: seq<Event>, ys: seq<Event>) {
    if xs == [] then true
    else if ys == [] then false
    else if xs[|xs| - 1] == ys[|ys| - 1] then Subsequence(xs[..|xs| - 1], ys[..|ys| - 1])
    else Subsequence(xs, ys[..|ys| - 1])
  }

  function Frames(s: seq<Event>): (r: seq<Event>) {
    if s == [] then []
    else Frames(s[..|s| - 1]) + (if s[|s| - 1].token then [] else [s[|s| - 1]])
  }

  /** Dropping the last element keeps a subsequence. */
  lemma {:induction false} SubsequenceInit(xs: seq<Event>, ys: seq<Event>)
    requires Subsequence(xs, ys) && xs != []
    ensures Subsequence(xs[..|xs| - 1], ys)
    decreases |ys|
  {
    if xs[|xs| - 1] == ys[|ys| - 1] {
      SubsequenceWeaken(xs[..|xs| - 1], ys);
    } else {
      SubsequenceInit(xs, ys[..|ys| - 1]);
      SubsequenceWeaken(xs[..|xs| - 1], ys);
    }
  }

  lemma {:induction false} SubsequenceWeaken(xs: seq<Event>, ys: seq<Event>)
    requires ys != [] && Subsequence(xs, ys[..|ys| - 1])
    ensures Subsequence(xs, ys)
    decreases |ys|, 0
  {
    if xs != [] && xs[|xs| - 1] == ys[|ys| - 1] {
      SubsequenceInit(xs, ys[..|ys| - 1]);
    }
  }

  lemma {:induction false} SubsequenceRemoveAt(xs: seq<Event>, i: nat, ys: seq<Event>)
    requires i < |xs| && Subsequence(xs, ys)
    ensures Subsequence(RemoveAt(xs, i), ys)
    decreases |ys|
  {
    var n := |xs| - 1;
    if i == n {
      SubsequenceInit(xs, ys);
      assert RemoveAt(xs, i) == xs[..n];
    } else {
      var cut := RemoveAt(xs, i);
      assert cut[..|cut| - 1] == RemoveAt(xs[..n], i);
      if xs[n] == ys[|ys| - 1] {
        SubsequenceRemoveAt(xs[..n], i, ys[..|ys| - 1]);
      } else {
        SubsequenceRemoveAt(xs, i, ys[..|ys| - 1]);
      }
    }
  }

  lemma CutBeforeEnd(s: seq<Event>, i: nat)
    requires i < |s| - 1
    ensures RemoveAt(s, i) == RemoveAt(s[..|s| - 1], i) + [s[|s| - 1]]
  {
  }

  lemma FramesPush(s: seq<Event>, ev: Event)
    ensures Frames(s + [ev]) == Frames(s) + (if ev.token then [] else [ev])
  {
  }

  lemma {:induction false} FramesRemoveToken(s: seq<Event>, i: nat)
    requires i < |s| && s[i].token
    ensures Frames(RemoveAt(s, i)) == Frames(s)
    decreases |s|
  {
    var n := |s| - 1;
    var init, last := s[..n], s[n];
    assert s == init + [last];
    FramesPush(init, last);
    if i == n {
      assert RemoveAt(s, n) == init;
    } else {
      assert init[i] == s[i];
      CutBeforeEnd(s, i);
      FramesPush(RemoveAt(init, i), last);
      FramesRemoveToken(init, i);
    }
  }

  // --- The protocol: emitters, the wake slot and the listener, interleaved ---

  /** Where the listener is: blocked on the wake slot, between its receive and its drain, or
      folding a drained batch before it is re-armed. */
  datatype Listener = Waiting | Draining | Folding

  /** `signalling` counts the emitters that have left the critical section and not yet
      signalled. `emitted`, `drained` and `lostFrames` are the history of the run. */
  datatype State = State(
    buf: seq<Event>, wake: bool, signalling: nat, listener: Listener,
    emitted: seq<Event>, drained: seq<Event>, lostFrames: nat)

  datatype Step = Append(ev: Event) | Signal | Receive | Drain | Rearm

  const INITIAL := State([], false, 0, Waiting, [], [], 0)

  predicate Enabled(s: State, step: Step) {
    match step
    case Append(_) => true
    case Signal => s.signalling > 0
    case Receive => s.listener == Waiting && s.wake
    case Drain => s.listener == Draining
    case Rearm => s.listener == Folding
  }

  predicate Overflows(buf: seq<Event>, ev: Event) {
    |buf + [ev]| > CAPACITY
  }

  /** An append costs a frame exactly when it overflows a buffer that holds no token. */
  predicate DropsFrame(buf: seq<Event>, ev: Event) {
    Overflows(buf, ev) && forall e :: e in buf + [ev] ==> !e.token
  }

  function Perform(s: State, step: Step): State
    requires Enabled(s, step)
  {
    match step
    case Append(ev) => s.(buf := Enqueue(s.buf, ev), signalling := s.signalling + 1, emitted := s.emitted + [ev],
                          lostFrames := s.lostFrames + (if DropsFrame(s.buf, ev) then 1 else 0))
    case Signal => s.(wake := true, signalling := s.signalling - 1)
    case Receive => s.(wake := false, listener := Draining)
    case Drain => s.(drained := s.drained + s.buf, buf := [], listener := Folding)
    case Rearm => s.(listener := Waiting)
  }

  /** A run: every step is enabled where it is taken. */
  predicate Runs(s: State, steps: seq<Step>, t: State)
    decreases |steps|
  {
    if steps == [] then s == t
    else Enabled(s, steps[0]) && Runs(Perform(s, steps[0]), steps[1..], t)
  }

  /** What an emitter does in two steps is what it does in one call: the queue, then the wake. */
  lemma EmitIsAppendThenSignal(s: State, ev: Event)
    ensures var t := Perform(Perform(s, Append(ev)), Signal);
            t == s.(buf := Enqueue(s.buf, ev), wake := true, emitted := s.emitted + [ev], lostFrames := t.lostFrames)
  {
  }

  /** How often each kind of step is taken. */
  datatype Tally = Tally(appends: nat, signals: nat, receives: nat, drains: nat, rearms: nat)

  function TallyOf(steps: seq<Step>): (r: Tally)
    decreases |steps|
  {
    if steps == [] then Tally(0, 0, 0, 0, 0)
    else
      var rest := TallyOf(steps[1..]);
      match steps[0]
      case Append(_) => rest.(appends := rest.appends + 1)
      case Signal => rest.(signals := rest.signals + 1)
      case Receive => rest.(receives := rest.receives + 1)
      case Drain => rest.(drains := rest.drains + 1)
      case Rearm => rest.(rearms := rest.rearms + 1)
  }

  function Flag(b: bool): (n: nat) {
    if b then 1 else 0
  }

  lemma StepIsAccounted(s: State, step: Step)
    requires Enabled(s, step)
    ensures var t := Perform(s, step);
            && s.signalling + Flag(step.Append?) == t.signalling + Flag(step.Signal?)
            && Flag(s.wake) + Flag(step.Signal?) >= Flag(t.wake) + Flag(step.Receive?)
            && Flag(s.listener == Draining) + Flag(step.Receive?) == Flag(t.listener == Draining) + Flag(step.Drain?)
            && Flag(s.listener == Folding) + Flag(step.Drain?) == Flag(t.listener == Folding) + Flag(step.Rearm?)
  {
  }

  /** Every signal pays for one append, every receive takes the wake of a signal of its own, and the listener
      goes round: receive, drain, re-arm. */
  lemma {:induction false} StepsAreAccounted(s: State, steps: seq<Step>, t: State)
    requires Runs(s, steps, t)
    ensures s.signalling + TallyOf(steps).appends == t.signalling + TallyOf(steps).signals
    ensures Flag(s.wake) + TallyOf(steps).signals >= Flag(t.wake) + TallyOf(steps).receives
    ensures Flag(s.listener == Draining) + TallyOf(steps).receives
         == Flag(t.listener == Draining) + TallyOf(steps).drains
    ensures Flag(s.listener == Folding) + TallyOf(steps).drains
         == Flag(t.listener == Folding) + TallyOf(steps).rearms
    decreases |steps|
  {
    if steps != [] {
      StepIsAccounted(s, steps[0]);
      StepsAreAccounted(Perform(s, steps[0]), steps[1..], t);
    }
  }

  predicate Invariant(s: State) {
    && (s.buf != [] ==> s.wake || s.signalling > 0 || s.listener == Draining)
    && |s.buf| <= CAPACITY
    && Accounted(s.drained + s.buf, s.emitted, s.lostFrames)
  }

  lemma {:induction false} RemovedFrame(s: seq<Event>, i: nat)
    requires i < |s| && !s[i].token
    ensures |Frames(RemoveAt(s, i))| + 1 == |Frames(s)|
    decreases |s|
  {
    var n := |s| - 1;
    var init, last := s[..n], s[n];
    assert s == init + [last];
    FramesPush(init, last);
    if i == n {
      assert RemoveAt(s, n) == init;
    } else {
      assert init[i] == s[i];
      CutBeforeEnd(s, i);
      FramesPush(RemoveAt(init, i), last);
      RemovedFrame(init, i);
    }
  }

  /** What the listener has or will get (`kept`) against what was emitted: an order-preserving
      selection that accounts for every frame. */
  predicate Accounted(kept: seq<Event>, emitted: seq<Event>, lost: nat) {
    && Subsequence(kept, emitted)
    && |Frames(kept)| + lost == |Frames(emitted)|
    && (lost == 0 ==> Frames(kept) == Frames(emitted))
  }

  lemma AccountedAppend(kept: seq<Event>, emitted: seq<Event>, lost: nat, ev: Event)
    requires Accounted(kept, emitted, lost)
    ensures Accounted(kept + [ev], emitted + [ev], lost)
  {
  }

  lemma AccountedRemove(kept: seq<Event>, i: nat, emitted: seq<Event>, lost: nat)
    requires i < |kept| && Accounted(kept, emitted, lost)
    ensures Accounted(RemoveAt(kept, i), emitted, if kept[i].token then lost else lost + 1)
  {
    SubsequenceRemoveAt(kept, i, emitted);
    if kept[i].token {
      FramesRemoveToken(kept, i);
    } else {
      RemovedFrame(kept, i);
    }
  }

  /** The victim is a frame exactly when no token is buffered. */
  lemma VictimIsFrame(grown: seq<Event>)
    requires grown != []
    ensures !grown[Victim(grown)].token <==> forall e :: e in grown ==> !e.token
  {
  }

  lemma RemoveFromSuffix(drained: seq<Event>, grown: seq<Event>, v: nat)
    requires v < |grown|
    ensures (drained + grown)[|drained| + v] == grown[v]
    ensures RemoveAt(drained + grown, |drained| + v) == drained + RemoveAt(grown, v)
  {
  }

  lemma {:induction false} RemoveKeepsAccount(
      drained: seq<Event>, grown: seq<Event>, v: nat, emitted: seq<Event>, lost: nat)
    requires v < |grown| && Accounted(drained + grown, emitted, lost)
    ensures Accounted(drained + RemoveAt(grown, v), emitted, if grown[v].token then lost else lost + 1)
  {
    RemoveFromSuffix(drained, grown, v);
    AccountedRemove(drained + grown, |drained| + v, emitted, lost);
  }

  lemma {:induction false} DropKeepsAccount(drained: seq<Event>, grown: seq<Event>, emitted: seq<Event>, lost: nat)
    requires grown != [] && Accounted(drained + grown, emitted, lost)
    ensures Accounted(drained + RemoveAt(grown, Victim(grown)), emitted,
              if forall e :: e in grown ==> !e.token then lost + 1 else lost)
  {
    VictimIsFrame(grown);
    RemoveKeepsAccount(drained, grown, Victim(grown), emitted, lost);
  }

  lemma {:induction false} EnqueueKeepsAccount(drained: seq<Event>, buf: seq<Event>, emitted: seq<Event>, lost: nat,
      ev: Event)
    requires Accounted(drained + buf, emitted, lost)
    ensures Accounted(drained + Enqueue(buf, ev), emitted + [ev], if DropsFrame(buf, ev) then lost + 1 else lost)
  {
    AccountedAppend(drained + buf, emitted, lost, ev);
    assert (drained + buf) + [ev] == drained + (buf + [ev]);
    if |buf + [ev]| > CAPACITY {
      DropKeepsAccount(drained, buf + [ev], emitted + [ev], lost);
    }
  }

  lemma StepKeepsInvariant(s: State, step: Step)
    requires Invariant(s) && Enabled(s, step)
    ensures Invariant(Perform(s, step))
  {
    match step {
      case Append(ev) => EnqueueKeepsAccount(s.drained, s.buf, s.emitted, s.lostFrames, ev);
      case Drain => assert (s.drained + s.buf) + [] == s.drained + s.buf;
      case _ =>
    }
  }

  lemma {:induction false} RunKeepsInvariant(s: State, steps: seq<Step>, t: State)
    requires Invariant(s) && Runs(s, steps, t)
    ensures Invariant(t)
    decreases |steps|
  {
    if steps != [] {
      StepKeepsInvariant(s, steps[0]);
      RunKeepsInvariant(Perform(s, steps[0]), steps[1..], t);
    }
  }

  /** No lost wake-up: after any interleaving, a non-empty buffer has a wake pending, an emitter about to
      signal, or a listener about to drain; in particular a listener blocked on an empty wake slot with
      no emitter about to signal is looking at an empty buffer. */
  lemma NoLostWakeUp(steps: seq<Step>, t: State)
    requires Runs(INITIAL, steps, t)
    ensures t.buf != [] ==> t.wake || t.signalling > 0 || t.listener == Draining
    ensures t.listener == Waiting && !t.wake && t.signalling == 0 ==> t.buf == []
  {
    RunKeepsInvariant(INITIAL, steps, t);
  }

  lemma NoTokenAmong(buf: seq<Event>)
    requires forall e :: e in buf ==> !e.token
    ensures OldestToken(buf) == |buf|
  {
    if OldestToken(buf) < |buf| {
      assert buf[OldestToken(buf)] in buf;
    }
  }

  /** Emissions of one frame alone, from a buffer that holds none but frames, cost frames exactly past
      its capacity. */
  lemma {:induction false} Flood(s: State, ev: Event, n: nat) returns (steps: seq<Step>, t: State)
    requires !ev.token && (forall e :: e in s.buf ==> !e.token) && |s.buf| <= CAPACITY
    ensures Runs(s, steps, t)
    ensures t.lostFrames == s.lostFrames + (if |s.buf| + n > CAPACITY then |s.buf| + n - CAPACITY else 0)
    decreases n
  {
    if n == 0 {
      steps, t := [], s;
    } else {
      var grown := s.buf + [ev];
      NoTokenAmong(grown);
      var next := Perform(s, Append(ev));
      assert forall e :: e in next.buf ==> e in grown;
      var rest;
      rest, t := Flood(next, ev, n - 1);
      steps := [Append(ev)] + rest;
      assert steps[1..] == rest;
    }
  }

  /** The one way to lose a frame: 257 frames emitted with nothing drained between. */
  lemma FloodLosesAFrame(ev: Event) returns (steps: seq<Step>, t: State)
    requires !ev.token
    ensures Runs(INITIAL, steps, t) && t.lostFrames == 1
    ensures Frames(t.drained + t.buf) != Frames(t.emitted)
  {
    steps, t := Flood(INITIAL, ev, CAPACITY + 1);
    DeliveredInOrder(steps, t);
  }

  /** Bounded, ordered, and losing a frame only when 257 frames met with no token between. */
  lemma DeliveredInOrder(steps: seq<Step>, t: State)
    requires Runs(INITIAL, steps, t)
    ensures |t.buf| <= CAPACITY
    ensures Subsequence(t.drained + t.buf, t.emitted)
    ensures Frames(t.drained + t.buf) == Frames(t.emitted) <==> t.lostFrames == 0
  {
    RunKeepsInvariant(INITIAL, steps, t);
  }

  /** The wake is sufficient as well: from every reachable state the steps already owed (no new
      emission) bring the whole buffer to the listener. */
  lemma {:induction false} EveryEventCanBeDrained(s: State) returns (steps: seq<Step>, t: State)
    requires Invariant(s)
    ensures Runs(s, steps, t) && t.buf == [] && t.drained == s.drained + s.buf
    ensures forall step :: step in steps ==> !step.Append?
    decreases match s.listener { case Folding => 2 case Waiting => if s.wake then 0 else 1 case Draining => 0 }
  {
    if s.buf == [] {
      steps, t := [], s;
    } else if s.listener == Draining {
      steps, t := [Drain], Perform(s, Drain);
      assert Runs(t, [Drain][1..], t);
    } else {
      var step := if s.listener == Folding then Rearm else if s.wake then Receive else Signal;
      var next := Perform(s, step);
      StepKeepsInvariant(s, step);
      var rest;
      if step == Receive {
        rest, t := [Drain], Perform(next, Drain);
        assert Runs(t, [Drain][1..], t);
      } else {
        rest, t := EveryEventCanBeDrained(next);
      }
      steps := [step] + rest;
      assert steps[1..] == rest;
    }
  }
}
