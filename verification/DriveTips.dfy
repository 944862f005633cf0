/** Which pins can take each other's kept name (cmd/nilcore/chat.go:988-990), and what a run of drives
    with distinct tips keeps. */
module DriveTips {
  import opened Commits
  import opened KeptBranches

  /** The tips drives pin: a task, or an integration branch whose suffix is one path component, without
      task ids that an integration branch would flatten to. */
  predicate DriveTip(branch: string) {
    || (INTEGRATE <= branch && '/' !in branch[|INTEGRATE|..])
    || (TASK <= branch && '/' !in branch[|TASK|..] && !("integrate-" <= branch[|TASK|..]))
  }

  lemma {:induction false} DriveTipsHaveTheirOwnName(a: string, b: string)
    requires DriveTip(a) && DriveTip(b)
    ensures KeptName(a) == KeptName(b) <==> a == b
  {
    var x := if INTEGRATE <= a then a[|INTEGRATE|..] else a[|TASK|..];
    var y := if INTEGRATE <= b then b[|INTEGRATE|..] else b[|TASK|..];
    assert a == (if INTEGRATE <= a then INTEGRATE else TASK) + x;
    assert b == (if INTEGRATE <= b then INTEGRATE else TASK) + y;
    KeptNamesCollideExactly(x, y);
    KeptNamesCollideExactly(y, x);
    assert "integrate-" <= "integrate-" + y && "integrate-" <= "integrate-" + x;
  }

  /** The branch an operation pins, if any: an empty or already kept name is not pinned. */
  function Pinned(op: Op): (r: seq<string>) {
    var branch := match op
      case Pin(branch, _) => branch
      case Drive(done, branch, _, _) => if done then branch else ""
      case Deliver(out, _, _, _) => if out.done then out.branch else ""
      case _ => "";
    if branch == "" || KEPT <= branch then [] else [branch]
  }

  /** The kept names `op` may create. */
  function Names(op: Op): (r: set<string>) {
    set b | b in Pinned(op) :: KeptName(b)
  }

  function AllPinned(run: seq<(Op, nat)>): (r: seq<string>)
    decreases |run|
  {
    if run == [] then [] else Pinned(run[0].0) + AllPinned(run[1..])
  }

  /** Pairwise distinct drive tips, none of them kept yet. */
  predicate FreshTips(s: Store, tips: seq<string>) {
    && (forall i :: 0 <= i < |tips| ==> DriveTip(tips[i]) && KeptName(tips[i]) !in s.refs)
    && forall i, j :: 0 <= i < j < |tips| ==> tips[i] != tips[j]
  }

  ghost predicate CapsSpare(s: Store, run: seq<(Op, nat)>, c: Commit)
    requires WellFormed(s)
    decreases |run|
  {
    run == [] || (CapSpares(s, run[0].0, c) && CapsSpare(After(s, run[0].0, run[0].1), run[1..], c))
  }

  /** Every kept branch of `t` was in `s` or is one of `names`. */
  predicate AddsOnly(s: Store, t: Store, names: set<string>) {
    forall k :: k in t.refs && KEPT <= k ==> k in s.refs || k in names
  }

  predicate AllAddOnly(s: Store, trace: seq<Store>, names: set<string>) {
    forall t :: t in trace ==> AddsOnly(s, t, names)
  }

  lemma {:induction false} AddsOnlyThen(s: Store, a: seq<Store>, b: seq<Store>, names: set<string>)
    requires WellFormed(s) && forall i :: 0 <= i < |a| ==> WellFormed(a[i])
    requires AllAddOnly(s, a, names) && AllAddOnly(Last(s, a), b, {})
    ensures AllAddOnly(s, a + b, names) && AddsOnly(s, Last(s, a), names)
  {
    assert a != [] ==> Last(s, a) in a;
  }

  lemma {:induction false} MergeAddsNothing(s: Store, branch: string, w: MergeWorld)
    requires WellFormed(s)
    ensures AllAddOnly(s, MergeTrace(s, branch, w).0, {})
  {
  }

  lemma {:induction false} LandAddsNothing(s: Store, branch: string, w: MergeWorld, deletes: bool)
    requires WellFormed(s)
    ensures AllAddOnly(s, LandTrace(s, branch, w, deletes).0, {})
  {
    var (merge, result) := MergeTrace(s, branch, w);
    MergeAddsNothing(s, branch, w);
    AddsOnlyThen(s, merge, if result.Landed? then Reclaim(Last(s, merge), branch, deletes) else [], {});
  }

  lemma {:induction false} ApplyAddsNothing(s: Store, w: ApplyWorld)
    requires WellFormed(s)
    ensures AllAddOnly(s, ApplyTrace(s, w), {})
  {
    var land := LandTrace(s, s.carried, w.merge, w.deletes).0;
    LandAddsNothing(s, s.carried, w.merge, w.deletes);
    AddsOnlyThen(s, land, [Last(s, land).(carried := "")], {});
  }

  lemma {:induction false} PruneAddsNothing(s: Store, names: seq<string>, failing: set<string>)
    requires WellFormed(s)
    ensures AllAddOnly(s, PruneTrace(s, names, failing), {})
    decreases |names|
  {
    if names != [] {
      if names[0] in failing || names[0] !in s.refs || CheckedOut(s, names[0]) {
        PruneAddsNothing(s, names[1..], failing);
      } else {
        var t := Drop(s, names[0]);
        PruneAddsNothing(t, names[1..], failing);
        AddsOnlyThen(s, [t], PruneTrace(t, names[1..], failing), {});
      }
    }
  }

  lemma {:induction false} PinAdds(s: Store, branch: string, w: PinWorld)
    requires WellFormed(s)
    ensures AllAddOnly(s, PinTrace(s, branch, w).0,
                       if branch == "" || KEPT <= branch then {} else {KeptName(branch)})
  {
  }

  lemma {:induction false} DeliverAdds(s: Store, out: BuildOutcome, pin: PinWorld, merge: MergeWorld, deletes: bool)
    requires WellFormed(s)
    ensures AllAddOnly(s, DeliverTrace(s, out, pin, merge, deletes), Names(Deliver(out, pin, merge, deletes)))
  {
    var (pinned, kept) := PinTrace(s, out.branch, pin);
    if out.done && out.branch != "" {
      PinAdds(s, out.branch, pin);
      LandAddsNothing(Last(s, pinned), kept, merge, deletes);
      AddsOnlyThen(s, pinned, LandTrace(Last(s, pinned), kept, merge, deletes).0,
                   Names(Deliver(out, pin, merge, deletes)));
    }
  }

  lemma {:induction false} DriveAdds(s: Store, done: bool, branch: string, pin: PinWorld, gone: set<string>)
    requires WellFormed(s)
    ensures AllAddOnly(s, DriveTrace(s, done, branch, pin, gone), Names(Drive(done, branch, pin, gone)))
  {
    var (pinned, kept) := if done then PinTrace(s, branch, pin) else ([], "");
    var swept := Swept(Last(s, pinned), gone);
    var rest := [swept] + (if kept == "" then [] else [swept.(carried := kept)]);
    PinAdds(s, branch, pin);
    AddsOnlyThen(s, pinned, rest, Names(Drive(done, branch, pin, gone)));
    assert DriveTrace(s, done, branch, pin, gone) == pinned + rest;
  }

  lemma {:induction false} OpAdds(s: Store, op: Op)
    requires WellFormed(s)
    ensures AllAddOnly(s, Trace(s, op), Names(op))
  {
    match op {
      case Pin(branch, pin) => PinAdds(s, branch, pin);
      case Drive(done, branch, pin, gone) => DriveAdds(s, done, branch, pin, gone);
      case Deliver(out, pin, merge, deletes) => DeliverAdds(s, out, pin, merge, deletes);
      case Apply(apply) => ApplyAddsNothing(s, apply);
      case Cap(listing, active, failing) => PruneAddsNothing(s, Surplus(listing, active, 0, KEEP), failing);
      case Sweep(_) =>
      case NewCommit(_, _) =>
    }
  }

  lemma {:induction false} AfterAddsOnly(s: Store, op: Op, cut: nat)
    requires WellFormed(s)
    ensures AddsOnly(s, After(s, op, cut), Names(op))
  {
    OpAdds(s, op);
    var trace := Trace(s, op);
    var done := if cut <= |trace| then trace[..cut] else trace;
    assert forall t :: t in done ==> t in trace;
    AddsOnlyThen(s, done, [], Names(op));
  }

  lemma {:induction false} NextTipIsFresh(s: Store, t: Store, op: Op, tip: string)
    requires AddsOnly(s, t, Names(op)) && DriveTip(tip) && KeptName(tip) !in s.refs
    requires forall b :: b in Pinned(op) ==> DriveTip(b) && b != tip
    ensures KeptName(tip) !in t.refs
  {
    if b :| b in Pinned(op) && KeptName(tip) == KeptName(b) {
      DriveTipsHaveTheirOwnName(b, tip);
    }
  }

  lemma LaterTip(s: Store, pins: seq<string>, rest: seq<string>, j: nat)
    requires FreshTips(s, pins + rest) && j < |rest|
    ensures DriveTip(rest[j]) && KeptName(rest[j]) !in s.refs
    ensures forall b :: b in pins ==> DriveTip(b) && b != rest[j]
  {
    var tips := pins + rest;
    assert tips[|pins| + j] == rest[j];
    forall i | 0 <= i < |pins| ensures DriveTip(pins[i]) && pins[i] != rest[j] {
      assert tips[i] == pins[i];
    }
  }

  lemma {:induction false} FreshTipsStay(s: Store, t: Store, op: Op, rest: seq<string>)
    requires AddsOnly(s, t, Names(op)) && FreshTips(s, Pinned(op) + rest)
    ensures FreshTips(t, rest)
  {
    forall j | 0 <= j < |rest| ensures DriveTip(rest[j]) && KeptName(rest[j]) !in t.refs {
      LaterTip(s, Pinned(op), rest, j);
      NextTipIsFresh(s, t, op, rest[j]);
    }
    forall i, j | 0 <= i < j < |rest| ensures rest[i] != rest[j] {
      var tips, first := Pinned(op) + rest, |Pinned(op)|;
      assert rest[i] == tips[first + i] && rest[j] == tips[first + j];
    }
  }

  lemma {:induction false} FreshTipSpares(s: Store, op: Op, c: Commit)
    requires WellFormed(s) && Covered(s, c) && CapSpares(s, op, c)
    requires forall b :: b in Pinned(op) ==> KeptName(b) !in s.refs
    ensures Spares(s, op, c)
  {
    forall b | b in Pinned(op) ensures CoveredBeyond(s, {KeptName(b)}, c) {
      if !Ancestor(s.graph, c, Tip(s)) {
        var k :| k in s.refs && KEPT <= k && Ancestor(s.graph, c, s.refs[k]);
        assert k !in {KeptName(b)};
      }
    }
    match op {
      case Pin(branch, pin) => assert PinTrace(s, branch, pin).0 != [] ==> branch in Pinned(op);
      case Drive(done, branch, pin, _) => assert done && PinTrace(s, branch, pin).0 != [] ==> branch in Pinned(op);
      case Deliver(out, pin, _, _) =>
        assert out.done && PinTrace(s, out.branch, pin).0 != [] ==> out.branch in Pinned(op);
      case _ =>
    }
  }

  /** Only the age cap loses work: a run whose pins take pairwise distinct drive tips, none kept before,
      keeps every covered commit that its caps leave a cover. */
  lemma {:induction false} OnlyTheCapLosesWork(s: Store, run: seq<(Op, nat)>, c: Commit)
    requires WellFormed(s) && Covered(s, c) && FreshTips(s, AllPinned(run)) && CapsSpare(s, run, c)
    ensures SparingRun(s, run, c) && Covered(End(s, run), c)
    decreases |run|
  {
    if run != [] {
      var t := After(s, run[0].0, run[0].1);
      forall b | b in Pinned(run[0].0) ensures KeptName(b) !in s.refs {
        assert AllPinned(run)[0] == b;
      }
      FreshTipSpares(s, run[0].0, c);
      OpKeeps(s, run[0].0, c);
      AfterAddsOnly(s, run[0].0, run[0].1);
      FreshTipsStay(s, t, run[0].0, AllPinned(run[1..]));
      OnlyTheCapLosesWork(t, run[1..], c);
    }
  }

  // --- Two tips that do collide ---

  lemma CollidingNames()
    ensures KeptName(TASK + "integrate-x") == KeptName(INTEGRATE + "x")
    ensures TASK + "integrate-x" != KeptName(INTEGRATE + "x") && KeptName(INTEGRATE + "x") != "main"
    ensures TASK + "integrate-x" != "main" && TASK + "integrate-x" != "" && !(KEPT <= TASK + "integrate-x")
  {
    assert "integrate-" + "x" == "integrate-x";
    KeptNamesCollideExactly("integrate-x", "x");
    assert (TASK + "integrate-x")[0] == 't' && KeptName(INTEGRATE + "x")[0] == 'n' && "main"[0] == 'm';
  }

  /** The collision that loses work: the pinned tip of integrate/x, then a pin of task/integrate-x. */
  lemma CollidingPinLosesWork() returns (s: Store, w: PinWorld)
    ensures WellFormed(s) && KeptName(INTEGRATE + "x") in s.refs && Covered(s, s.refs[KeptName(INTEGRATE + "x")])
    ensures !Covered(Last(s, PinTrace(s, TASK + "integrate-x", w).0), s.refs[KeptName(INTEGRATE + "x")])
  {
    var task, kept := TASK + "integrate-x", KeptName(INTEGRATE + "x");
    CollidingNames();
    w := PinWorld(true, true, true);
    s := CollidedStore(task, kept, w);
  }

  lemma CollidedStore(task: string, kept: string, w: PinWorld) returns (s: Store)
    requires KeptName(task) == kept && task != kept && kept != "main" && task != "main" && task != "" && !(KEPT <= task)
    requires w == PinWorld(true, true, true)
    ensures WellFormed(s) && kept in s.refs && Covered(s, s.refs[kept])
    ensures !Covered(Last(s, PinTrace(s, task, w).0), s.refs[kept])
  {
    s := Store([{}, {0}, {0}], map["main" := 0, task := 1, kept := 2], Attached("main"), false, "");
    assert Ancestor(s.graph, 2, s.refs[kept]);
    assert !Ancestor(s.graph, 2, 0) && !Ancestor(s.graph, 2, 1);
    PinKeepsExactly(s, task, w, 2);
  }
}
