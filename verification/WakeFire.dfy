/** Durable self-timers and the pollers that fire them: Registry.Arm and Registry.Claim
    (internal/wake/wake.go) driven by wakeFeeder (cmd/nilcore/autonomy.go). */
module WakeFire {

  // --- The registry and the feeder ---

  datatype Wake = Wake(threadID: string, due: int, note: string)

  /** Registry over its store. `armed` is durable; `claimed` lives in memory. A failing store
      call is a parameter of the method that makes it. */
  class Registry {
    var armed: map<string, Wake>
    var claimed: set<string>

    constructor (durable: map<string, Wake>)
      ensures armed == durable && claimed == {}
    {
      armed := durable;
      claimed := {};
    }

    method Arm(w: Wake, saveFails: bool) returns (ok: bool)
      modifies this
      ensures ok == !saveFails
      ensures armed == if ok then old(armed)[w.threadID := w] else old(armed)
      ensures claimed == if ok then old(claimed) - {w.threadID} else old(claimed)
    {
      if saveFails {
        return false;
      }
      armed := armed[w.threadID := w];
      claimed := claimed - {w.threadID};
      return true;
    }

    method Claim(threadID: string, disarmFails: bool) returns (won: bool)
      modifies this
      ensures won <==> threadID !in old(claimed) && !disarmFails
      ensures claimed == if won then old(claimed) + {threadID} else old(claimed)
      ensures armed == if won then old(armed) - {threadID} else old(armed)
    {
      if threadID in claimed {
        return false;
      }
      claimed := claimed + {threadID};
      if disarmFails {
        claimed := claimed - {threadID};
        return false;
      }
      armed := armed - {threadID};
      return true;
    }

    /** One tick of the feeder over a Pending snapshot. `failing` holds the threads whose disarm
        fails; the context is cancelled during the send of wake number `cancelAt`, if reached: that wake
        is claimed and disarmed and never sent. */
    method Feed(pending: seq<Wake>, now: int, failing: set<string>, cancelAt: nat)
        returns (sent: seq<Wake>, dropped: set<string>)
      modifies this
      ensures var won := Winners(pending, now, failing, old(claimed));
              && sent == (if cancelAt < |won| then won[..cancelAt] else won)
              && dropped == (if cancelAt < |won| then {won[cancelAt].threadID} else {})
      ensures claimed == old(claimed) + Threads(sent) + dropped
      ensures armed == old(armed) - (Threads(sent) + dropped)
    {
      sent, dropped := [], {};
      var i := 0;
      ghost var before := claimed;
      while i < |pending|
        invariant 0 <= i <= |pending| && |sent| <= cancelAt
        invariant sent == Winners(pending[..i], now, failing, before) && dropped == {}
        invariant claimed == before + Threads(sent) && armed == old(armed) - Threads(sent)
      {
        var w := pending[i];
        WinnersStep(pending, i, now, failing, before);
        ClaimsGrow(old(armed), before, sent, w);
        if w.due <= now {
          var won := Claim(w.threadID, w.threadID in failing);
          if won {
            if |sent| == cancelAt {
              dropped := {w.threadID};
              WinnersCut(Winners(pending, now, failing, before), sent, w);
              return;
            }
            sent := sent + [w];
          }
        }
        i := i + 1;
      }
      assert pending[..i] == pending;
    }
  }

  function Threads(ws: seq<Wake>): (r: set<string>) {
    set w | w in ws :: w.threadID
  }

  /** The wakes a tick wins, in order: the first due one of each thread that nobody has claimed and whose
      disarm works. */
  function Winners(pending: seq<Wake>, now: int, failing: set<string>, claimed: set<string>): (r: seq<Wake>) {
    if pending == [] then []
    else
      var w := pending[|pending| - 1];
      var won := Winners(pending[..|pending| - 1], now, failing, claimed);
      if w.due <= now && w.threadID !in claimed + Threads(won) && w.threadID !in failing then won + [w] else won
  }

  lemma ThreadsPush(ws: seq<Wake>, w: Wake)
    ensures Threads(ws + [w]) == Threads(ws) + {w.threadID}
  {
  }

  lemma ClaimsGrow(armed: map<string, Wake>, claimed: set<string>, sent: seq<Wake>, w: Wake)
    ensures (claimed + Threads(sent)) + {w.threadID} == claimed + Threads(sent + [w])
    ensures (armed - Threads(sent)) - {w.threadID} == armed - Threads(sent + [w])
    ensures (armed - Threads(sent)) - {w.threadID} == armed - (Threads(sent) + {w.threadID})
  {
    ThreadsPush(sent, w);
  }

  lemma {:induction false} WinnersPush(
      init: seq<Wake>, w: Wake, now: int, failing: set<string>, claimed: set<string>)
    ensures var won := Winners(init, now, failing, claimed);
            Winners(init + [w], now, failing, claimed)
            == if w.due <= now && w.threadID !in claimed && w.threadID !in Threads(won) && w.threadID !in failing
               then won + [w] else won
  {
    assert (init + [w])[..|init|] == init;
  }

  lemma {:induction false} WinnersGrow(
      pending: seq<Wake>, i: nat, now: int, failing: set<string>, claimed: set<string>)
    requires i <= |pending|
    ensures Winners(pending[..i], now, failing, claimed) <= Winners(pending, now, failing, claimed)
    decreases |pending| - i
  {
    if i < |pending| {
      assert pending[..i + 1][..i] == pending[..i];
      WinnersGrow(pending, i + 1, now, failing, claimed);
    } else {
      assert pending[..i] == pending;
    }
  }

  lemma {:induction false} WinnersStep(
      pending: seq<Wake>, i: nat, now: int, failing: set<string>, claimed: set<string>)
    requires i < |pending|
    ensures var won, w := Winners(pending[..i], now, failing, claimed), pending[i];
            && Threads(won + [w]) == Threads(won) + {w.threadID}
            && Winners(pending[..i + 1], now, failing, claimed) <= Winners(pending, now, failing, claimed)
            && Winners(pending[..i + 1], now, failing, claimed)
               == if w.due <= now && w.threadID !in claimed && w.threadID !in Threads(won) && w.threadID !in failing
                  then won + [w] else won
  {
    assert pending[..i + 1] == pending[..i] + [pending[i]];
    WinnersPush(pending[..i], pending[i], now, failing, claimed);
    ThreadsPush(Winners(pending[..i], now, failing, claimed), pending[i]);
    WinnersGrow(pending, i + 1, now, failing, claimed);
  }

  lemma WinnersCut(won: seq<Wake>, sent: seq<Wake>, w: Wake)
    requires sent + [w] <= won
    ensures |sent| < |won| && won[..|sent|] == sent && won[|sent|] == w
  {
  }

  /** The threads won are those of the due wakes that are neither claimed nor failing. */
  lemma {:induction false} WonThreads(pending: seq<Wake>, now: int, failing: set<string>, claimed: set<string>,
      t: string)
    ensures t in Threads(Winners(pending, now, failing, claimed)) <==>
              t !in claimed && t !in failing && exists w :: w in pending && w.due <= now && w.threadID == t
    decreases |pending|
  {
    if pending != [] {
      var init, w := pending[..|pending| - 1], pending[|pending| - 1];
      var won := Winners(init, now, failing, claimed);
      WonThreads(init, now, failing, claimed, t);
      WonThreads(init, now, failing, claimed, w.threadID);
      ThreadsPush(won, w);
      assert pending == init + [w];
    }
  }

  predicate Increasing(picks: seq<nat>) {
    forall j, k :: 0 <= j < k < |picks| ==> picks[j] < picks[k]
  }

  /** Wake `i` is the first due one of a thread that is neither claimed nor failing. */
  predicate FirstDue(pending: seq<Wake>, now: int, failing: set<string>, claimed: set<string>, i: nat)
    requires i < |pending|
  {
    && pending[i].due <= now && pending[i].threadID !in claimed && pending[i].threadID !in failing
    && forall j :: 0 <= j < i && pending[j].due <= now ==> pending[j].threadID != pending[i].threadID
  }

  lemma {:induction false} FirstDueIsWon(
      init: seq<Wake>, w: Wake, now: int, failing: set<string>, claimed: set<string>)
    ensures var won := Winners(init, now, failing, claimed);
            FirstDue(init + [w], now, failing, claimed, |init|)
            <==> w.due <= now && w.threadID !in claimed && w.threadID !in failing && w.threadID !in Threads(won)
    ensures forall i :: 0 <= i < |init| ==>
              (FirstDue(init + [w], now, failing, claimed, i) <==> FirstDue(init, now, failing, claimed, i))
  {
    var all := init + [w];
    WonThreads(init, now, failing, claimed, w.threadID);
    forall j | 0 <= j < |init| ensures all[j] == init[j] && init[j] in init {
    }
  }

  /** `picks` lists, in order, the positions of exactly the first due wakes, and `won` the wakes there. */
  predicate PicksFirstDue(
      pending: seq<Wake>, now: int, failing: set<string>, claimed: set<string>, won: seq<Wake>, picks: seq<nat>)
  {
    && |picks| == |won| && Increasing(picks)
    && (forall k :: 0 <= k < |won| ==> picks[k] < |pending| && won[k] == pending[picks[k]])
    && forall i :: 0 <= i < |pending| ==> (i in picks <==> FirstDue(pending, now, failing, claimed, i))
  }

  lemma {:induction false} PickPush(
      init: seq<Wake>, w: Wake, now: int, failing: set<string>, claimed: set<string>, won: seq<Wake>, picks: seq<nat>)
    requires PicksFirstDue(init, now, failing, claimed, won, picks)
    requires forall i :: 0 <= i < |init| ==>
               (FirstDue(init + [w], now, failing, claimed, i) <==> FirstDue(init, now, failing, claimed, i))
    ensures if FirstDue(init + [w], now, failing, claimed, |init|)
            then PicksFirstDue(init + [w], now, failing, claimed, won + [w], picks + [|init|])
            else PicksFirstDue(init + [w], now, failing, claimed, won, picks)
  {
  }

  lemma {:induction false} PickNext(
      init: seq<Wake>, w: Wake, now: int, failing: set<string>, claimed: set<string>, picks: seq<nat>)
      returns (next: seq<nat>)
    requires PicksFirstDue(init, now, failing, claimed, Winners(init, now, failing, claimed), picks)
    ensures PicksFirstDue(init + [w], now, failing, claimed, Winners(init + [w], now, failing, claimed), next)
  {
    FirstDueIsWon(init, w, now, failing, claimed);
    PickPush(init, w, now, failing, claimed, Winners(init, now, failing, claimed), picks);
    WinnersPush(init, w, now, failing, claimed);
    next := if FirstDue(init + [w], now, failing, claimed, |init|) then picks + [|init|] else picks;
  }

  /** A tick wins exactly the first due wake of every thread that is neither claimed nor failing, in
      snapshot order. */
  lemma {:induction false} EveryDueWakeIsWon(pending: seq<Wake>, now: int, failing: set<string>, claimed: set<string>)
      returns (picks: seq<nat>)
    ensures PicksFirstDue(pending, now, failing, claimed, Winners(pending, now, failing, claimed), picks)
    decreases |pending|
  {
    if pending == [] {
      picks := [];
    } else {
      var init, w := pending[..|pending| - 1], pending[|pending| - 1];
      assert pending == init + [w];
      picks := EveryDueWakeIsWon(init, now, failing, claimed);
      picks := PickNext(init, w, now, failing, claimed, picks);
    }
  }

  // --- One thread's wake under every interleaving ---

  /** A poller's position: not looking, holding a due entry from a Pending snapshot, between its
      in-memory claim and the outcome of the durable disarm, or entitled to deliver. */
  datatype Phase = Idle | Holding | Claiming | Won

  /** `arming` holds the registries that have saved a wake and not yet cleared their claim. Poller
      `i` uses registry `regs[i]`; a registry belongs to one process and dies with it. */
  datatype State = State(
    armed: bool, claimed: set<nat>, arming: multiset<nat>, pollers: seq<Phase>,
    arms: nat, delivered: nat)

  datatype Step =
    | ArmSave(reg: nat) | ArmClear(reg: nat)
    | Poll(i: nat) | Claim(i: nat) | Disarmed(i: nat) | DisarmError(i: nat, landed: bool)
    | Deliver(i: nat) | Cancel(i: nat)
    | DisarmByUser | Crash(reg: nat)

  type Registries = seq<nat>

  function Initial(regs: Registries): State {
    State(false, {}, multiset{}, seq(|regs|, i => Idle), 0, 0)
  }

  predicate At(s: State, i: nat, phase: Phase) {
    i < |s.pollers| && s.pollers[i] == phase
  }

  predicate Enabled(regs: Registries, s: State, step: Step) {
    |s.pollers| == |regs| &&
    match step
    case ArmSave(_) => true
    case ArmClear(r) => r in s.arming
    case Poll(i) => At(s, i, Idle) && s.armed
    case Claim(i) => At(s, i, Holding)
    case Disarmed(i) => At(s, i, Claiming)
    case DisarmError(i, _) => At(s, i, Claiming)
    case Deliver(i) => At(s, i, Won)
    case Cancel(i) => At(s, i, Won)
    case DisarmByUser => true
    case Crash(_) => true
  }

  function Perform(regs: Registries, s: State, step: Step): (t: State)
    requires Enabled(regs, s, step)
    ensures |t.pollers| == |regs|
  {
    match step
    case ArmSave(r) => s.(armed := true, arms := s.arms + 1, arming := s.arming[r := s.arming[r] + 1])
    case ArmClear(r) => s.(claimed := s.claimed - {r}, arming := s.arming[r := s.arming[r] - 1])
    case Poll(i) => s.(pollers := s.pollers[i := Holding])
    case Claim(i) =>
      if regs[i] in s.claimed then s.(pollers := s.pollers[i := Idle])
      else s.(claimed := s.claimed + {regs[i]}, pollers := s.pollers[i := Claiming])
    case Disarmed(i) => s.(armed := false, pollers := s.pollers[i := Won])
    case DisarmError(i, landed) =>
      s.(armed := s.armed && !landed, claimed := s.claimed - {regs[i]}, pollers := s.pollers[i := Idle])
    case Deliver(i) => s.(pollers := s.pollers[i := Idle], delivered := s.delivered + 1)
    case Cancel(i) => s.(pollers := s.pollers[i := Idle])
    case DisarmByUser => s.(armed := false)
    case Crash(r) =>
      s.(claimed := s.claimed - {r}, arming := s.arming[r := 0],
         pollers := seq(|regs|, i requires 0 <= i < |regs| => if regs[i] == r then Idle else s.pollers[i]))
  }

  predicate Runs(regs: Registries, s: State, steps: seq<Step>, t: State)
    decreases |steps|
  {
    if steps == [] then s == t
    else Enabled(regs, s, steps[0]) && Runs(regs, Perform(regs, s, steps[0]), steps[1..], t)
  }

  // --- What the steps are ---

  /** Taken back to back, the two steps of an Arm are what Registry.Arm does for its thread. */
  lemma ArmIsTwoSteps(regs: Registries, s: State, r: nat) returns (t: State)
    requires |regs| == |s.pollers|
    ensures Runs(regs, s, [ArmSave(r), ArmClear(r)], t)
    ensures t == State(true, s.claimed - {r}, s.arming, s.pollers, s.arms + 1, s.delivered)
  {
    var saved := Perform(regs, s, ArmSave(r));
    t := Perform(regs, saved, ArmClear(r));
    assert t.arming == s.arming;
    assert Runs(regs, saved, [ArmClear(r)], t);
  }

  /** A poller that claims runs Registry.Claim: the claim is won if and only if the mark was free and the disarm
      works, and only then does the mark stay and the wake go. A failing disarm may have landed. */
  lemma ClaimIsTwoSteps(regs: Registries, s: State, i: nat, fails: bool, landed: bool)
      returns (steps: seq<Step>, t: State)
    requires |regs| == |s.pollers| && At(s, i, Holding)
    ensures var free := regs[i] !in s.claimed;
            && steps == (if !free then [Claim(i)]
                         else if fails then [Claim(i), DisarmError(i, landed)] else [Claim(i), Disarmed(i)])
            && Runs(regs, s, steps, t)
            && t == State(s.armed && !(free && (fails ==> landed)),
                          if free && !fails then s.claimed + {regs[i]} else s.claimed,
                          s.arming, s.pollers[i := if free && !fails then Won else Idle], s.arms, s.delivered)
  {
    var claimed := Perform(regs, s, Claim(i));
    steps, t := [Claim(i)], claimed;
    if regs[i] !in s.claimed {
      var outcome := if fails then DisarmError(i, landed) else Disarmed(i);
      t := Perform(regs, claimed, outcome);
      assert t.claimed == if fails then s.claimed else s.claimed + {regs[i]};
      steps := Prepend(regs, s, Claim(i), claimed, [outcome], t);
    }
  }

  /** A won wake is sent, or given up when the context is cancelled; either way its poller looks again. */
  lemma WonWakeIsSettled(regs: Registries, s: State, i: nat, cancelled: bool) returns (t: State)
    requires |regs| == |s.pollers| && At(s, i, Won)
    ensures Runs(regs, s, [if cancelled then Cancel(i) else Deliver(i)], t)
    ensures t == s.(pollers := s.pollers[i := Idle], delivered := s.delivered + if cancelled then 0 else 1)
  {
    var step := if cancelled then Cancel(i) else Deliver(i);
    t := Perform(regs, s, step);
    assert Runs(regs, t, [], t);
  }

  /** A registry dies with its process: marks, half-done arms and its pollers' findings go, the durable wake
      stays. A user's disarm takes the wake alone. */
  lemma CrashForgetsTheRegistry(regs: Registries, s: State, r: nat)
    requires |regs| == |s.pollers|
    ensures Enabled(regs, s, Crash(r)) && Enabled(regs, s, DisarmByUser)
    ensures var t := Perform(regs, s, Crash(r));
            && t.armed == s.armed && t.arms == s.arms && t.delivered == s.delivered
            && (forall x :: x in t.claimed <==> x in s.claimed && x != r)
            && (forall x :: t.arming[x] == if x == r then 0 else s.arming[x])
            && (forall i :: 0 <= i < |regs| ==>
                  (t.pollers[i] == s.pollers[i] || regs[i] == r) && (regs[i] == r ==> t.pollers[i] == Idle))
    ensures var t := Perform(regs, s, DisarmByUser); !t.armed && s == t.(armed := s.armed)
  {
  }

  lemma PollerPays(regs: Registries, s: State, step: Step, i: nat)
    requires Enabled(regs, s, step)
    ensures var t, n := Perform(regs, s, step), multiset{step};
            && Flag(At(s, i, Won)) + n[Disarmed(i)] >= Flag(At(t, i, Won)) + n[Deliver(i)] + n[Cancel(i)]
            && Flag(At(s, i, Claiming)) + n[Claim(i)]
               >= Flag(At(t, i, Claiming)) + n[Disarmed(i)] + n[DisarmError(i, true)] + n[DisarmError(i, false)]
            && Flag(At(s, i, Holding)) + n[Poll(i)] >= Flag(At(t, i, Holding)) + n[Claim(i)]
  {
  }

  /** Every delivery or cancellation is backed by a disarm of its own poller, every disarm and every failing one
      by a claim, every claim by a poll. */
  lemma {:induction false} PollersPayTheirWay(regs: Registries, s: State, steps: seq<Step>, t: State, i: nat)
    requires Runs(regs, s, steps, t)
    ensures var n := multiset(steps);
            && Flag(At(s, i, Won)) + n[Disarmed(i)] >= Flag(At(t, i, Won)) + n[Deliver(i)] + n[Cancel(i)]
            && Flag(At(s, i, Claiming)) + n[Claim(i)]
               >= Flag(At(t, i, Claiming)) + n[Disarmed(i)] + n[DisarmError(i, true)] + n[DisarmError(i, false)]
            && Flag(At(s, i, Holding)) + n[Poll(i)] >= Flag(At(t, i, Holding)) + n[Claim(i)]
    decreases |steps|
  {
    if steps != [] {
      assert steps == [steps[0]] + steps[1..];
      assert multiset(steps) == multiset{steps[0]} + multiset(steps[1..]);
      PollerPays(regs, s, steps[0], i);
      PollersPayTheirWay(regs, Perform(regs, s, steps[0]), steps[1..], t, i);
    }
  }

  /** Deliveries made plus deliveries a poller is entitled to make. */
  function Wins(s: State): nat {
    s.delivered + multiset(s.pollers)[Won]
  }

  function Flag(b: bool): nat {
    if b then 1 else 0
  }

  // --- One poller: at most one delivery per arming, whatever else happens ---

  ghost predicate SoleInvariant(regs: Registries, s: State) {
    |regs| <= 1 && |s.pollers| == |regs| && s.delivered <= s.arms &&
    (|regs| == 1 ==>
      var phase := s.pollers[0];
      var wins := s.delivered + Flag(phase == Won);
      && wins + Flag(s.armed) <= s.arms
      && (phase == Claiming || phase == Holding ==> wins + 1 <= s.arms))
  }

  lemma SoleStep(regs: Registries, s: State, step: Step)
    requires SoleInvariant(regs, s) && Enabled(regs, s, step)
    ensures SoleInvariant(regs, Perform(regs, s, step))
  {
  }

  lemma {:induction false} SoleRun(regs: Registries, s: State, steps: seq<Step>, t: State)
    requires SoleInvariant(regs, s) && Runs(regs, s, steps, t)
    ensures t.delivered <= t.arms
    decreases |steps|
  {
    if steps != [] {
      SoleStep(regs, s, steps[0]);
      SoleRun(regs, Perform(regs, s, steps[0]), steps[1..], t);
    }
  }

  ghost predicate AtMostOncePerArming(regs: Registries) {
    forall steps: seq<Step>, t: State :: Runs(regs, Initial(regs), steps, t) ==> t.delivered <= t.arms
  }

  lemma SecondClaimFires(regs: Registries, s: State) returns (steps: seq<Step>, t: State)
    requires |regs| == |s.pollers| >= 2 && s.pollers[0] == Won && s.pollers[1] == Holding
    requires regs[0] in s.arming && s.claimed == {regs[0]} && s.arms == 1 && s.delivered == 0
    ensures Runs(regs, s, steps, t) && t.arms == 1 && t.delivered == 2
  {
    var s1 := Perform(regs, s, ArmClear(regs[0]));
    var s2 := Perform(regs, s1, Claim(1));
    var s3 := Perform(regs, s2, Disarmed(1));
    var s4 := Perform(regs, s3, Deliver(0));
    t := Perform(regs, s4, Deliver(1));
    steps := [Deliver(1)];
    assert Runs(regs, s4, steps, t);
    steps := Prepend(regs, s3, Deliver(0), s4, steps, t);
    steps := Prepend(regs, s2, Disarmed(1), s3, steps, t);
    steps := Prepend(regs, s1, Claim(1), s2, steps, t);
    steps := Prepend(regs, s, ArmClear(regs[0]), s1, steps, t);
  }

  /** Two pollers fire one arming twice. In one registry the second claim slips through because
      Arm saves the wake before it clears the claim; in two registries nothing they share stops it. */
  lemma TwoPollersFireTwice(regs: Registries) returns (steps: seq<Step>, t: State)
    requires |regs| >= 2
    ensures Runs(regs, Initial(regs), steps, t) && t.arms == 1 && t.delivered == 2
  {
    var s0 := Initial(regs);
    var s1 := Perform(regs, s0, ArmSave(regs[0]));
    var s2 := Perform(regs, s1, Poll(0));
    var s3 := Perform(regs, s2, Poll(1));
    var s4 := Perform(regs, s3, Claim(0));
    var s5 := Perform(regs, s4, Disarmed(0));
    steps, t := SecondClaimFires(regs, s5);
    steps := Prepend(regs, s4, Disarmed(0), s5, steps, t);
    steps := Prepend(regs, s3, Claim(0), s4, steps, t);
    steps := Prepend(regs, s2, Poll(1), s3, steps, t);
    steps := Prepend(regs, s1, Poll(0), s2, steps, t);
    steps := Prepend(regs, s0, ArmSave(regs[0]), s1, steps, t);
  }

  lemma Prepend(regs: Registries, s: State, step: Step, next: State, rest: seq<Step>, t: State)
      returns (steps: seq<Step>)
    requires Enabled(regs, s, step) && next == Perform(regs, s, step) && Runs(regs, next, rest, t)
    ensures steps == [step] + rest && Runs(regs, s, steps, t)
  {
    steps := [step] + rest;
    assert steps[1..] == rest;
  }

  /** The single-fire guarantee holds for all runs exactly when at most one poller fires wakes:
      the arrangement serve makes under NILCORE_AUTONOMY by suppressing its own waker. */
  lemma AtMostOnceIffOnePoller(regs: Registries)
    ensures AtMostOncePerArming(regs) <==> |regs| <= 1
  {
    if |regs| <= 1 {
      forall steps: seq<Step>, t: State | Runs(regs, Initial(regs), steps, t) ensures t.delivered <= t.arms {
        SoleRun(regs, Initial(regs), steps, t);
      }
    } else {
      var steps, t := TwoPollersFireTwice(regs);
    }
  }

  // --- Any number of pollers over one registry ---

  predicate Shared(regs: Registries, r: nat) {
    forall i :: 0 <= i < |regs| ==> regs[i] == r
  }

  /** A claim could be won now: the claim mark is clear (or about to be cleared by an Arm, when
      `early`) and the wake is armed or remembered by a poller. */
  predicate Claimable(s: State, r: nat, early: bool) {
    (r !in s.claimed || (early && r in s.arming)) && (s.armed || Holding in s.pollers)
  }

  function InFlight(s: State): nat {
    multiset(s.pollers)[Claiming]
  }

  /** `factor` 1 for runs whose claims avoid half-done Arms, 2 for all runs. */
  ghost predicate SharedInvariant(regs: Registries, r: nat, s: State, factor: nat) {
    && |s.pollers| == |regs| && 1 <= factor <= 2
    && Wins(s) + Flag(s.armed) <= factor * s.arms
    && Wins(s) + InFlight(s) + Flag(Claimable(s, r, factor == 1)) + (if factor == 1 then 0 else s.arming[r])
       <= factor * s.arms
  }

  /** The claim is not taken between an Arm's save and its clear of the same registry. */
  predicate Orderly(regs: Registries, s: State, step: Step) {
    step.Claim? && step.i < |regs| ==> regs[step.i] !in s.arming
  }

  lemma Reposition(ps: seq<Phase>, i: nat, p: Phase)
    requires i < |ps|
    ensures multiset(ps[i := p])[Won] == multiset(ps)[Won] - Flag(ps[i] == Won) + Flag(p == Won)
    ensures multiset(ps[i := p])[Claiming] == multiset(ps)[Claiming] - Flag(ps[i] == Claiming) + Flag(p == Claiming)
    ensures Holding in ps[i := p] ==> Holding in ps || p == Holding
  {
  }

  lemma {:induction false} AllIdle(ps: seq<Phase>)
    requires forall i :: 0 <= i < |ps| ==> ps[i] == Idle
    ensures multiset(ps)[Won] == 0 && multiset(ps)[Claiming] == 0 && Holding !in ps
  {
  }

  lemma {:induction false} SharedPollerStep(regs: Registries, r: nat, s: State, step: Step, factor: nat)
    requires Shared(regs, r) && SharedInvariant(regs, r, s, factor) && Enabled(regs, s, step)
    requires step.Poll? || step.Disarmed? || step.Deliver? || step.Cancel?
    ensures SharedInvariant(regs, r, Perform(regs, s, step), factor)
  {
    match step {
      case Poll(i) => Reposition(s.pollers, i, Holding);
      case Disarmed(i) => Reposition(s.pollers, i, Won);
      case Deliver(i) => Reposition(s.pollers, i, Idle);
      case Cancel(i) => Reposition(s.pollers, i, Idle);
    }
  }

  lemma {:induction false} SharedClaimStep(regs: Registries, r: nat, s: State, i: nat, factor: nat)
    requires Shared(regs, r) && SharedInvariant(regs, r, s, factor) && Enabled(regs, s, Claim(i))
    requires factor == 1 ==> Orderly(regs, s, Claim(i))
    ensures SharedInvariant(regs, r, Perform(regs, s, Claim(i)), factor)
  {
    assert Holding in s.pollers;
    Reposition(s.pollers, i, if regs[i] in s.claimed then Idle else Claiming);
  }

  lemma {:induction false} SharedErrorStep(regs: Registries, r: nat, s: State, i: nat, landed: bool, factor: nat)
    requires Shared(regs, r) && SharedInvariant(regs, r, s, factor) && Enabled(regs, s, DisarmError(i, landed))
    ensures SharedInvariant(regs, r, Perform(regs, s, DisarmError(i, landed)), factor)
  {
  }

  lemma {:induction false} SharedCrashStep(regs: Registries, r: nat, s: State, c: nat, factor: nat)
    requires Shared(regs, r) && SharedInvariant(regs, r, s, factor) && Enabled(regs, s, Crash(c))
    ensures SharedInvariant(regs, r, Perform(regs, s, Crash(c)), factor)
  {
    var t := Perform(regs, s, Crash(c));
    if c == r {
      AllIdle(t.pollers);
    } else {
      assert t.pollers == s.pollers;
    }
  }

  lemma {:induction false} SharedStep(regs: Registries, r: nat, s: State, step: Step, factor: nat)
    requires Shared(regs, r) && SharedInvariant(regs, r, s, factor) && Enabled(regs, s, step)
    requires factor == 1 ==> Orderly(regs, s, step)
    ensures SharedInvariant(regs, r, Perform(regs, s, step), factor)
  {
    match step {
      case Claim(i) => SharedClaimStep(regs, r, s, i, factor);
      case DisarmError(i, landed) => SharedErrorStep(regs, r, s, i, landed, factor);
      case Crash(c) => SharedCrashStep(regs, r, s, c, factor);
      case ArmSave(_) =>
      case ArmClear(_) =>
      case DisarmByUser =>
      case _ => SharedPollerStep(regs, r, s, step, factor);
    }
  }

  predicate OrderlyRun(regs: Registries, s: State, steps: seq<Step>)
    decreases |steps|
  {
    steps == [] ||
    (Enabled(regs, s, steps[0]) && Orderly(regs, s, steps[0])
        && OrderlyRun(regs, Perform(regs, s, steps[0]), steps[1..]))
  }

  lemma {:induction false} SharedRun(regs: Registries, r: nat, s: State, steps: seq<Step>, t: State, factor: nat)
    requires Shared(regs, r) && SharedInvariant(regs, r, s, factor) && Runs(regs, s, steps, t)
    requires factor == 1 ==> OrderlyRun(regs, s, steps)
    ensures SharedInvariant(regs, r, t, factor)
    decreases |steps|
  {
    if steps != [] {
      SharedStep(regs, r, s, steps[0], factor);
      SharedRun(regs, r, Perform(regs, s, steps[0]), steps[1..], t, factor);
    }
  }

  /** Any number of pollers sharing one registry, stale snapshots, store errors, crashes and
      cancellations: deliveries never exceed armings as long as no claim falls inside a half-done
      Arm, and never exceed twice the armings in any case. */
  lemma DeliveriesBoundedByArmings(regs: Registries, r: nat, steps: seq<Step>, t: State)
    requires Shared(regs, r) && Runs(regs, Initial(regs), steps, t)
    ensures OrderlyRun(regs, Initial(regs), steps) ==> t.delivered <= t.arms
    ensures t.delivered <= 2 * t.arms
  {
    var s := Initial(regs);
    AllIdle(s.pollers);
    SharedRun(regs, r, s, steps, t, 2);
    if OrderlyRun(regs, s, steps) {
      SharedRun(regs, r, s, steps, t, 1);
    }
  }
}
