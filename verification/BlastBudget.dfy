/** The restart-safe daily dollar ceiling: mintBlastBudget and rebuildBlastDay (cmd/nilcore/blast.go)
    over the meter of internal/blastbudget/blastbudget.go. Dollars are exact reals; days are
    numbered; the audit log is a sequence of lines. */
module BlastBudget {
  import opened Wrappers

  const EPSILON: real := 0.000000001

  /** The `dollars` object of an auto_approve event. */
  datatype Dollars = Dollars(actualUSD: Option<real>, charged: Option<real>)

  /** A log line: an auto-approval and its spend, or anything else (malformed lines included). */
  datatype Line = AutoApprove(day: nat, dollars: Dollars) | Noise

  /** How reading the log at boot went: it did not open, a scan fault hid the rest, or all was read. */
  datatype Scan = Unopened | Faulted(seen: nat) | Complete

  // --- The meter's arithmetic ---

  function ActualUSD(d: Dollars): (usd: real) {
    if d.actualUSD.Some? then d.actualUSD.value else if d.charged.Some? then d.charged.value else 0.0
  }

  /** What the log says was spent on `day`. */
  function LoggedSum(log: seq<Line>, day: nat): (sum: real) {
    if log == [] then 0.0
    else
      var last := log[|log| - 1];
      LoggedSum(log[..|log| - 1], day) + (if last.AutoApprove? && last.day == day then ActualUSD(last.dollars) else 0.0)
  }

  /** Whether a charge fits; a ceiling of 0 is no ceiling. */
  predicate Fits(used: real, ceiling: real, amount: real) {
    0.0 <= amount && (ceiling > 0.0 ==> used + amount <= ceiling + EPSILON)
  }

  function Used(day: map<nat, real>, d: nat): (used: real) {
    if d in day then day[d] else 0.0
  }

  function Rebuilt(log: seq<Line>, today: nat, ceiling: real, scan: Scan): (used: real) {
    match scan
    case Unopened => 0.0
    case Faulted(_) => if ceiling > 0.0 then ceiling else 0.0
    case Complete =>
      var sum := LoggedSum(log, today);
      if sum > 0.0 && Fits(0.0, ceiling, sum) then sum else 0.0
  }

  // --- The meter, its log and the boot ---

  class EventLog {
    var lines: seq<Line>

    constructor (durable: seq<Line>)
      ensures lines == durable
    {
      lines := durable;
    }

    method Append(line: Line)
      modifies this
      ensures lines == old(lines) + [line]
    {
      lines := lines + [line];
    }
  }

  class Budget {
    var ceiling: real
    var day: map<nat, real>
    var sink: EventLog?

    constructor (dollars: real)
      ensures ceiling == (if dollars <= 0.0 then 0.0 else dollars) && day == map[] && sink == null
    {
      ceiling := if dollars <= 0.0 then 0.0 else dollars;
      day := map[];
      sink := null;
    }

    /** A refused charge records nothing; only a wired sink hears of it. */
    method ChargeAutoApprovalDollars(d: nat, amount: real) returns (ok: bool)
      modifies this`day, sink
      ensures ok == Fits(Used(old(day), d), ceiling, amount)
      ensures day == if ok then old(day)[d := Used(old(day), d) + amount] else old(day)
      ensures sink != null ==>
                sink.lines == old(sink.lines) + (if amount >= 0.0 && ceiling > 0.0 then [Noise] else [])
    {
      if amount < 0.0 {
        return false;
      }
      if ceiling > 0.0 && Used(day, d) + amount > ceiling + EPSILON {
        if sink != null {
          sink.Append(Noise);
        }
        return false;
      }
      day := day[d := Used(day, d) + amount];
      if ceiling > 0.0 && sink != null {
        sink.Append(Noise);
      }
      return true;
    }
  }

  /** rebuildBlastDay: pre-charges today's logged total, or pins the day when the log was not read whole. */
  method RebuildBlastDay(b: Budget, log: EventLog, today: nat, scan: Scan)
    requires b.sink == null && b.day == map[] && b.ceiling >= 0.0
    modifies b`day
    ensures Used(b.day, today) == Rebuilt(log.lines, today, b.ceiling, scan)
    ensures forall d :: d != today ==> Used(b.day, d) == 0.0
  {
    if scan.Unopened? {
      return;
    }
    var sum, i := 0.0, 0;
    var seen := if scan.Faulted? && scan.seen < |log.lines| then scan.seen else |log.lines|;
    while i < seen
      invariant 0 <= i <= seen
      invariant sum == LoggedSum(log.lines[..i], today)
    {
      assert log.lines[..i + 1][..i] == log.lines[..i];
      var line := log.lines[i];
      if line.AutoApprove? && line.day == today {
        sum := sum + ActualUSD(line.dollars);
      }
      i := i + 1;
    }
    assert log.lines[..|log.lines|] == log.lines;
    if scan.Faulted? {
      var remaining := b.ceiling - Used(b.day, today);
      if remaining > 0.0 {
        var _ := b.ChargeAutoApprovalDollars(today, remaining);
      }
      return;
    }
    if sum > 0.0 {
      var _ := b.ChargeAutoApprovalDollars(today, sum);
    }
  }

  /** mintBlastBudget: the sink is attached only after the rebuild, so booting writes no log line. */
  method MintBlastBudget(dollars: real, log: EventLog, today: nat, scan: Scan) returns (b: Budget)
    ensures fresh(b) && b.sink == log && b.ceiling == (if dollars <= 0.0 then 0.0 else dollars)
    ensures log.lines == old(log.lines)
    ensures Used(b.day, today) == Rebuilt(log.lines, today, b.ceiling, scan)
    ensures forall d :: d != today ==> Used(b.day, d) == 0.0
  {
    b := new Budget(dollars);
    RebuildBlastDay(b, log, today, scan);
    b.sink := log;
  }

  /** The dollar step of an auto-approval: charge the day of the decision first, then append the durable
      line with the actual spend, stamped when it is written. */
  method AutoApproveDollars(b: Budget, log: EventLog, d: nat, stamp: nat, amount: real) returns (ok: bool)
    requires b.sink == log && d <= stamp
    modifies b`day, log
    ensures ok == Fits(Used(old(b.day), d), b.ceiling, amount)
    ensures b.day == if ok then old(b.day)[d := Used(old(b.day), d) + amount] else old(b.day)
    ensures forall x ::
              LoggedSum(log.lines, x) == LoggedSum(old(log.lines), x) + (if ok && x == stamp then amount else 0.0)
  {
    ghost var was := log.lines;
    ok := b.ChargeAutoApprovalDollars(d, amount);
    ghost var noisy := log.lines;
    NoiseAddsNothing(was);
    if ok {
      log.Append(AutoApprove(stamp, Dollars(Some(amount), Some(amount))));
      forall x ensures LoggedSum(log.lines, x) == LoggedSum(noisy, x) + (if x == stamp then amount else 0.0) {
        assert log.lines[..|noisy|] == noisy;
      }
    }
    assert was + [] == was;
  }

  lemma NoiseAddsNothing(log: seq<Line>)
    ensures forall x :: LoggedSum(log + [Noise], x) == LoggedSum(log, x)
  {
  }

  /** What a log line adds to its day: the actual spend when it is given, else the charge that older lines
      carry, else nothing; and nothing to any other day. */
  lemma {:induction false} LineCountsExactly(log: seq<Line>, day: nat, dollars: Dollars, d: nat)
    ensures LoggedSum(log + [AutoApprove(day, dollars)], d) - LoggedSum(log, d)
         == if d != day then 0.0
            else match (dollars.actualUSD, dollars.charged)
                 case (Some(actual), _) => actual
                 case (None, Some(charged)) => charged
                 case (None, None) => 0.0
    ensures LoggedSum(log + [Noise], d) == LoggedSum(log, d) && LoggedSum([], d) == 0.0
  {
    assert (log + [Noise])[..|log|] == log;
    assert (log + [AutoApprove(day, dollars)])[..|log|] == log;
  }

  // --- Runs with restarts ---

  /** A charge attempt, with the day it is charged to and the day its log line is stamped; a restart; or
      a restart that kills the process between an accepted charge and its log line, so that the approved
      action never happens. */
  datatype Step =
    | Attempt(day: nat, stamp: nat, amount: real)
    | Restart(today: nat)
    | Torn(day: nat, amount: real, today: nat)

  datatype State = State(day: map<nat, real>, log: seq<Line>)

  function Boot(log: seq<Line>, today: nat, ceiling: real): State {
    State(map[today := Rebuilt(log, today, ceiling, Complete)], log)
  }

  function Spend(day: nat, amount: real): Line {
    AutoApprove(day, Dollars(Some(amount), Some(amount)))
  }

  function Perform(s: State, step: Step, ceiling: real): State {
    match step
    case Attempt(d, stamp, amount) =>
      if Fits(Used(s.day, d), ceiling, amount)
      then State(s.day[d := Used(s.day, d) + amount], s.log + [Spend(stamp, amount)])
      else s
    case Restart(today) => Boot(s.log, today, ceiling)
    case Torn(_, _, today) => Boot(s.log, today, ceiling)
  }

  /** The decisions the meter takes, one per completed attempt. */
  function Decisions(s: State, steps: seq<Step>, ceiling: real): (r: seq<bool>)
    decreases |steps|
  {
    if steps == [] then []
    else
      var step := steps[0];
      (if step.Attempt? then [Fits(Used(s.day, step.day), ceiling, step.amount)] else [])
      + Decisions(Perform(s, step, ceiling), steps[1..], ceiling)
  }

  /** The reference: no process, no memory, no restarts; each attempt is judged on what was charged
      to its day. */
  function HonestDecisions(log: seq<Line>, steps: seq<Step>, ceiling: real): (r: seq<bool>)
    decreases |steps|
  {
    if steps == [] then []
    else if !steps[0].Attempt? then HonestDecisions(log, steps[1..], ceiling)
    else
      var ok := Fits(LoggedSum(log, steps[0].day), ceiling, steps[0].amount);
      [ok] + HonestDecisions(if ok then log + [Spend(steps[0].day, steps[0].amount)] else log, steps[1..], ceiling)
  }

  /** The clock never runs backwards. */
  predicate Clocked(steps: seq<Step>, now: nat)
    decreases |steps|
  {
    if steps == [] then true
    else
      match steps[0]
      case Attempt(day, stamp, _) => now <= day <= stamp && Clocked(steps[1..], stamp)
      case _ => now <= steps[0].today && Clocked(steps[1..], steps[0].today)
  }

  /** No midnight falls between a charge and its log line. */
  predicate Prompt(steps: seq<Step>) {
    forall step :: step in steps && step.Attempt? ==> step.stamp == step.day
  }

  predicate NoneAfter(log: seq<Line>, now: nat) {
    forall line :: line in log && line.AutoApprove? ==> line.day <= now
  }

  lemma {:induction false} NothingSpentYet(log: seq<Line>, now: nat, d: nat)
    requires NoneAfter(log, now) && now < d
    ensures LoggedSum(log, d) == 0.0
    decreases |log|
  {
    if log != [] {
      assert log[|log| - 1] in log;
      NothingSpentYet(log[..|log| - 1], now, d);
    }
  }

  /** Memory and log agree on today and every later day, and both are within the ceiling. */
  ghost predicate Agrees(s: State, now: nat, ceiling: real) {
    && NoneAfter(s.log, now)
    && forall d :: now <= d ==> Used(s.day, d) == LoggedSum(s.log, d) && Within(LoggedSum(s.log, d), ceiling)
  }

  predicate Within(sum: real, ceiling: real) {
    0.0 <= sum <= ceiling + EPSILON
  }

  lemma {:induction false} SpendAdds(log: seq<Line>, day: nat, amount: real, d: nat)
    ensures LoggedSum(log + [Spend(day, amount)], d) == LoggedSum(log, d) + (if d == day then amount else 0.0)
  {
  }

  lemma {:induction false} BootAgrees(log: seq<Line>, today: nat, ceiling: real)
    requires NoneAfter(log, today) && Within(LoggedSum(log, today), ceiling)
    ensures ceiling > 0.0 ==> Agrees(Boot(log, today, ceiling), today, ceiling)
  {
    if ceiling > 0.0 {
      forall d | today < d ensures LoggedSum(log, d) == 0.0 {
        NothingSpentYet(log, today, d);
      }
    }
  }

  lemma NoneAfterSpend(log: seq<Line>, now: nat, d: nat, amount: real)
    requires NoneAfter(log, now) && now <= d
    ensures NoneAfter(log + [Spend(d, amount)], d)
  {
  }

  lemma {:induction false} AttemptAgrees(s: State, now: nat, d: nat, amount: real, ceiling: real)
    requires ceiling > 0.0 && Agrees(s, now, ceiling) && now <= d
    ensures Agrees(Perform(s, Attempt(d, d, amount), ceiling), d, ceiling)
  {
    assert Used(s.day, d) == LoggedSum(s.log, d);
    if Fits(Used(s.day, d), ceiling, amount) {
      NoneAfterSpend(s.log, now, d, amount);
      var t := Perform(s, Attempt(d, d, amount), ceiling);
      forall x | d <= x ensures Used(t.day, x) == LoggedSum(t.log, x) && Within(LoggedSum(t.log, x), ceiling) {
        assert Used(s.day, x) == LoggedSum(s.log, x) && Within(LoggedSum(s.log, x), ceiling);
        SpendAdds(s.log, d, amount, x);
      }
    } else {
      assert forall line :: line in s.log && line.AutoApprove? ==> line.day <= d;
    }
  }

  lemma {:induction false} AgreeingRunsDecideAlike(s: State, now: nat, steps: seq<Step>, ceiling: real)
    requires ceiling > 0.0 && Agrees(s, now, ceiling) && Clocked(steps, now) && Prompt(steps)
    ensures Decisions(s, steps, ceiling) == HonestDecisions(s.log, steps, ceiling)
    decreases |steps|
  {
    if steps != [] {
      var step := steps[0];
      var t := Perform(s, step, ceiling);
      assert step in steps;
      if step.Attempt? {
        AttemptAgrees(s, now, step.day, step.amount, ceiling);
        AgreeingRunsDecideAlike(t, step.day, steps[1..], ceiling);
      } else {
        assert Within(LoggedSum(s.log, step.today), ceiling);
        BootAgrees(s.log, step.today, ceiling);
        AgreeingRunsDecideAlike(t, step.today, steps[1..], ceiling);
      }
    }
  }

  lemma {:induction false} UnlimitedRunsDecideAlike(s: State, log: seq<Line>, steps: seq<Step>)
    ensures Decisions(s, steps, 0.0) == HonestDecisions(log, steps, 0.0)
    decreases |steps|
  {
    if steps != [] {
      var step := steps[0];
      var next := if step.Attempt? && step.amount >= 0.0 then log + [Spend(step.day, step.amount)] else log;
      UnlimitedRunsDecideAlike(Perform(s, step, 0.0), next, steps[1..]);
    }
  }

  ghost predicate RestartTransparent(log: seq<Line>, today: nat, ceiling: real) {
    forall steps :: Clocked(steps, today) && Prompt(steps) ==>
      Decisions(Boot(log, today, ceiling), steps, ceiling) == HonestDecisions(log, steps, ceiling)
  }

  /** The same over every run, also those in which a charge is logged on a later day. */
  ghost predicate MidnightTransparent(log: seq<Line>, today: nat, ceiling: real) {
    forall steps :: Clocked(steps, today) ==>
      Decisions(Boot(log, today, ceiling), steps, ceiling) == HonestDecisions(log, steps, ceiling)
  }

  /** A day whose logged total does not fit the ceiling starts over at zero: the boot fails open. */
  lemma {:induction false} OverfullDayStartsOver(log: seq<Line>, today: nat, ceiling: real, amount: real)
    requires ceiling > 0.0 && LoggedSum(log, today) > ceiling + EPSILON && 0.0 <= amount <= ceiling
    ensures Rebuilt(log, today, ceiling, Complete) == 0.0
    ensures Decisions(Boot(log, today, ceiling), [Attempt(today, today, amount)], ceiling) == [true]
    ensures HonestDecisions(log, [Attempt(today, today, amount)], ceiling) == [false]
  {
  }

  lemma {:induction false} Single(s: State, log: seq<Line>, d: nat, amount: real, ceiling: real)
    ensures Decisions(s, [Attempt(d, d, amount)], ceiling) == [Fits(Used(s.day, d), ceiling, amount)]
    ensures HonestDecisions(log, [Attempt(d, d, amount)], ceiling) == [Fits(LoggedSum(log, d), ceiling, amount)]
  {
  }

  /** A boot and every later restart, clean or torn, are invisible in the decisions of every run
      exactly when there is no ceiling or the day's logged total fits under it. */
  lemma {:induction false} RestartsAreInvisibleExactly(log: seq<Line>, today: nat, ceiling: real)
    requires ceiling >= 0.0 && NoneAfter(log, today)
    ensures RestartTransparent(log, today, ceiling) <==> ceiling == 0.0 || Within(LoggedSum(log, today), ceiling)
  {
    var s, sum := Boot(log, today, ceiling), LoggedSum(log, today);
    if ceiling == 0.0 {
      forall steps | Clocked(steps, today)
        ensures Decisions(s, steps, ceiling) == HonestDecisions(log, steps, ceiling)
      {
        UnlimitedRunsDecideAlike(s, log, steps);
      }
    } else if Within(sum, ceiling) {
      BootAgrees(log, today, ceiling);
      forall steps | Clocked(steps, today) && Prompt(steps)
        ensures Decisions(s, steps, ceiling) == HonestDecisions(log, steps, ceiling)
      {
        AgreeingRunsDecideAlike(s, today, steps, ceiling);
      }
    } else {
      var amount := if sum < 0.0 then ceiling + EPSILON - sum else 0.0;
      Single(s, log, today, amount, ceiling);
      assert Clocked([Attempt(today, today, amount)], today) && Prompt([Attempt(today, today, amount)]);
    }
  }

  /** A charge of tomorrow whose line is stamped the day after, and a restart that day. */
  function MidnightRun(today: nat, ceiling: real): (steps: seq<Step>) {
    [Attempt(today + 1, today + 2, ceiling), Restart(today + 2), Attempt(today + 2, today + 2, ceiling + EPSILON)]
  }

  lemma {:induction false} MidnightDecisions(log: seq<Line>, today: nat, ceiling: real)
    requires ceiling > 0.0 && NoneAfter(log, today)
    ensures Decisions(Boot(log, today, ceiling), MidnightRun(today, ceiling), ceiling) == [true, false]
  {
    var steps, s := MidnightRun(today, ceiling), Boot(log, today, ceiling);
    var late := log + [Spend(today + 2, ceiling)];
    var t := State(s.day[today + 1 := Used(s.day, today + 1) + ceiling], late);
    var u := Boot(late, today + 2, ceiling);
    NothingSpentYet(log, today, today + 2);
    SpendAdds(log, today + 2, ceiling, today + 2);
    assert Perform(s, steps[0], ceiling) == t && Perform(t, steps[1], ceiling) == u;
    assert Used(u.day, today + 2) == ceiling;
    Single(u, log, today + 2, ceiling + EPSILON, ceiling);
    assert steps[1..] == [steps[1], steps[2]] && steps[1..][1..] == [steps[2]];
    assert Decisions(t, steps[1..], ceiling) == [] + Decisions(u, [steps[2]], ceiling);
  }

  lemma {:induction false} MidnightReference(log: seq<Line>, today: nat, ceiling: real)
    requires ceiling > 0.0 && NoneAfter(log, today)
    ensures HonestDecisions(log, MidnightRun(today, ceiling), ceiling) == [true, true]
  {
    var steps, spent := MidnightRun(today, ceiling), log + [Spend(today + 1, ceiling)];
    NothingSpentYet(log, today, today + 1);
    NothingSpentYet(log, today, today + 2);
    SpendAdds(log, today + 1, ceiling, today + 2);
    Single(State(map[], []), spent, today + 2, ceiling + EPSILON, ceiling);
    assert steps[1..] == [steps[1], steps[2]] && steps[1..][1..] == [steps[2]];
    assert HonestDecisions(spent, steps[1..], ceiling) == HonestDecisions(spent, [steps[2]], ceiling);
  }

  /** The restart counts the charge against the day of its line: the next charge of that day is refused
      although nothing was charged to it. */
  lemma {:induction false} MidnightChargeShows(log: seq<Line>, today: nat, ceiling: real)
    requires ceiling > 0.0 && NoneAfter(log, today)
    ensures Clocked(MidnightRun(today, ceiling), today)
    ensures Decisions(Boot(log, today, ceiling), MidnightRun(today, ceiling), ceiling) == [true, false]
    ensures HonestDecisions(log, MidnightRun(today, ceiling), ceiling) == [true, true]
  {
    var steps := MidnightRun(today, ceiling);
    assert steps[1..] == [steps[1], steps[2]] && steps[1..][1..] == [steps[2]] && [steps[2]][1..] == [];
    assert Clocked([steps[2]], today + 2) && Clocked(steps[1..], today + 2);
    MidnightDecisions(log, today, ceiling);
    MidnightReference(log, today, ceiling);
  }

  /** Once a charge may be logged on a later day, restarts are invisible only without a ceiling. */
  lemma {:induction false} MidnightChargesShowExactly(log: seq<Line>, today: nat, ceiling: real)
    requires ceiling >= 0.0 && NoneAfter(log, today)
    ensures MidnightTransparent(log, today, ceiling) <==> ceiling == 0.0
  {
    if ceiling == 0.0 {
      forall steps | Clocked(steps, today)
        ensures Decisions(Boot(log, today, ceiling), steps, ceiling) == HonestDecisions(log, steps, ceiling)
      {
        UnlimitedRunsDecideAlike(Boot(log, today, ceiling), log, steps);
      }
    } else {
      MidnightChargeShows(log, today, ceiling);
    }
  }

  /** A run that starts on an empty log and keeps one ceiling never leaves that condition. */
  lemma {:induction false} FencedRunsAreRestartSafe(today: nat, steps: seq<Step>, ceiling: real)
    requires ceiling >= 0.0 && Clocked(steps, today) && Prompt(steps)
    ensures Decisions(Boot([], today, ceiling), steps, ceiling) == HonestDecisions([], steps, ceiling)
  {
    RestartsAreInvisibleExactly([], today, ceiling);
  }

  /** What a process accepts on one day before its next restart. */
  function AcceptedOn(s: State, steps: seq<Step>, day: nat, ceiling: real): (sum: real)
    decreases |steps|
  {
    if steps == [] || !steps[0].Attempt? then 0.0
    else
      (if steps[0].day == day && Fits(Used(s.day, day), ceiling, steps[0].amount) then steps[0].amount else 0.0)
      + AcceptedOn(Perform(s, steps[0], ceiling), steps[1..], day, ceiling)
  }

  lemma {:induction false} CeilingHolds(s: State, steps: seq<Step>, day: nat, ceiling: real)
    requires ceiling > 0.0 && Used(s.day, day) <= ceiling + EPSILON
    ensures Used(s.day, day) + AcceptedOn(s, steps, day, ceiling) <= ceiling + EPSILON
    decreases |steps|
  {
    if steps != [] && steps[0].Attempt? {
      CeilingHolds(Perform(s, steps[0], ceiling), steps[1..], day, ceiling);
    }
  }

  /** After a scan fault the day is exactly at its ceiling: until the next restart nothing but the
      rounding slack is ever accepted again, however many attempts are made. */
  lemma FaultClosesTheDay(log: seq<Line>, today: nat, ceiling: real, seen: nat, steps: seq<Step>)
    requires ceiling > 0.0
    ensures Rebuilt(log, today, ceiling, Faulted(seen)) == ceiling
    ensures var pinned := State(map[today := Rebuilt(log, today, ceiling, Faulted(seen))], log);
            AcceptedOn(pinned, steps, today, ceiling) <= EPSILON
  {
    CeilingHolds(State(map[today := ceiling], log), steps, today, ceiling);
  }
}
