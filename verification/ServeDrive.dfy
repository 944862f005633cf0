/** How a live serve drive ends (serveSuperviseRun and serveProjectRun, cmd/nilcore/main.go): the row is
    closed and the resume pin dropped, then the tip is pinned under nilcore/kept/, then the run's branches
    are swept. Rows and refs are one durable state here, and a process may stop after any write. */
module ServeDrive {
  import opened Commits
  import opened K = KeptBranches
  import D = DurableResume

  datatype Site = Site(rows: map<string, D.Row>, store: Store)

  function DiskOf(s: Site): (d: D.Disk) {
    D.Disk(s.rows, s.store.refs)
  }

  /** git refuses to delete the branch that is checked out. */
  function Ending(s: Site, task: string, end: D.EndWorld): (e: D.EndWorld) {
    end.(deletes := end.deletes && !CheckedOut(s.store, D.ResumeRef(task)))
  }

  function ClosedTrace(s: Site, task: string, end: D.EndWorld): (r: seq<Site>) {
    var trace := D.FinalizeTrace(DiskOf(s), task, Ending(s, task, end));
    seq(|trace|, i requires 0 <= i < |trace| => Site(trace[i].rows, s.store.(refs := trace[i].refs)))
  }

  function Last(s: Site, trace: seq<Site>): (t: Site) {
    if trace == [] then s else trace[|trace| - 1]
  }

  function At(s: Site, trace: seq<Site>, cut: nat): (t: Site) {
    if cut == 0 || trace == [] then s else trace[if cut <= |trace| then cut - 1 else |trace| - 1]
  }

  lemma {:induction false} ClosingKeepsTheStore(s: Site, task: string, end: D.EndWorld, cut: nat)
    requires WellFormed(s.store)
    ensures var t := At(s, ClosedTrace(s, task, end), cut);
            && WellFormed(t.store)
            && t.store == s.store.(refs := if D.Unpins(task, Ending(s, task, end), cut)
                                           then s.store.refs - {D.ResumeRef(task)} else s.store.refs)
  {
    var trace := D.FinalizeTrace(DiskOf(s), task, Ending(s, task, end));
    assert |trace| == 2 ==> trace[1].refs == s.store.refs - {D.ResumeRef(task)};
  }

  function PinnedTrace(s: Site, branch: string, pin: PinWorld): (r: seq<Site>)
    requires WellFormed(s.store)
    ensures forall i :: 0 <= i < |r| ==> WellFormed(r[i].store)
  {
    var trace := PinTrace(s.store, branch, pin).0;
    seq(|trace|, i requires 0 <= i < |trace| => Site(s.rows, trace[i]))
  }

  /** The whole end of a drive, as the successive durable states it writes. */
  function ServeTrace(s: Site, task: string, end: D.EndWorld, branch: string, pin: PinWorld, gone: set<string>)
      : (r: seq<Site>)
    requires WellFormed(s.store)
  {
    ClosingKeepsTheStore(s, task, end, 2);
    var closed := ClosedTrace(s, task, end);
    var pinned := if end.done then PinnedTrace(Last(s, closed), branch, pin) else [];
    var kept := Last(Last(s, closed), pinned);
    closed + pinned + [Site(kept.rows, Swept(kept.store, gone))]
  }

  // --- What the end of a drive leaves behind ---

  /** A ref that no sweep removes leads to `c`, or the checked-out commit does. */
  ghost predicate Held(s: Store, c: Commit)
    requires WellFormed(s)
  {
    || Ancestor(s.graph, c, Tip(s))
    || exists b :: b in s.refs && !Throwaway(b) && Ancestor(s.graph, c, s.refs[b])
  }

  /** The same, leaving one ref aside. */
  ghost predicate HeldBeside(s: Store, ref: string, c: Commit)
    requires WellFormed(s)
  {
    || Ancestor(s.graph, c, Tip(s))
    || exists b :: b in s.refs && b != ref && !Throwaway(b) && Ancestor(s.graph, c, s.refs[b])
  }

  predicate RefHolds(s: Store, ref: string, c: Commit)
    requires WellFormed(s)
  {
    ref in s.refs && Ancestor(s.graph, c, s.refs[ref])
  }

  lemma {:induction false} HeldByTheRest(s: Store, t: Store, task: string, c: Commit, unpinned: bool)
    requires WellFormed(s) && WellFormed(t)
    requires t == s.(refs := if unpinned then s.refs - {D.ResumeRef(task)} else s.refs) && Tip(t) == Tip(s)
    ensures Held(t, c) <==> HeldBeside(s, D.ResumeRef(task), c) || (!unpinned && RefHolds(s, D.ResumeRef(task), c))
  {
    D.ResumePinsAreNotThrowaway(task);
    if b :| b in s.refs && b != D.ResumeRef(task) && !Throwaway(b) && Ancestor(s.graph, c, s.refs[b]) {
      assert b in t.refs && t.refs[b] == s.refs[b];
    }
    if b :| b in t.refs && !Throwaway(b) && Ancestor(t.graph, c, t.refs[b]) {
      assert b in s.refs && s.refs[b] == t.refs[b];
    }
  }

  lemma {:induction false} SweepHolds(s: Store, gone: set<string>, c: Commit)
    requires WellFormed(s)
    ensures Held(Swept(s, gone), c) <==> Held(s, c)
  {
    var t := Swept(s, gone);
    if b :| b in s.refs && !Throwaway(b) && Ancestor(s.graph, c, s.refs[b]) {
      assert b in t.refs && t.refs[b] == s.refs[b];
    }
    if b :| b in t.refs && !Throwaway(b) && Ancestor(t.graph, c, t.refs[b]) {
      assert b in s.refs && s.refs[b] == t.refs[b];
    }
  }

  lemma {:induction false} PinHolds(s: Site, branch: string, pin: PinWorld, i: nat)
    requires WellFormed(s.store) && i < |PinnedTrace(s, branch, pin)| && branch in s.store.refs
    ensures Held(PinnedTrace(s, branch, pin)[i].store, s.store.refs[branch])
  {
    var t, kept := PinTrace(s.store, branch, pin).0[i], KeptName(branch);
    assert kept[0] == 'n' && !Throwaway(kept);
    assert kept in t.refs && t.refs[kept] == s.store.refs[branch];
  }

  /** By `cut` the pin under nilcore/kept/ is written. */
  predicate KeptBy(s: Site, task: string, end: D.EndWorld, branch: string, pin: PinWorld, cut: nat)
    requires WellFormed(s.store)
  {
    ClosingKeepsTheStore(s, task, end, 2);
    var closed := ClosedTrace(s, task, end);
    end.done && cut > |closed| && PinnedTrace(Last(s, closed), branch, pin) != []
  }

  lemma AtOf(s: Site, a: seq<Site>, b: seq<Site>, last: Site, cut: nat)
    ensures cut <= |a| ==> At(s, a + b + [last], cut) == At(s, a, cut)
    ensures |a| < cut <= |a| + |b| ==> At(s, a + b + [last], cut) == b[cut - |a| - 1]
    ensures cut > |a| + |b| ==> At(s, a + b + [last], cut) == last
  {
  }

  lemma {:induction false} ServeStates(
      s: Site, task: string, end: D.EndWorld, branch: string, pin: PinWorld, gone: set<string>, cut: nat)
    requires WellFormed(s.store)
    ensures var closed := ClosedTrace(s, task, end);
            var trace, mid := ServeTrace(s, task, end, branch, pin, gone), Last(s, closed);
            && WellFormed(mid.store)
            && var pinned := if end.done then PinnedTrace(mid, branch, pin) else [];
               && (cut <= |closed| ==> At(s, trace, cut) == At(s, closed, cut))
               && (|closed| < cut <= |closed| + |pinned| ==> At(s, trace, cut) == pinned[cut - |closed| - 1])
               && (cut > |closed| + |pinned| ==>
                     At(s, trace, cut).store == Swept(Last(mid, pinned).store, gone))
  {
    ClosingKeepsTheStore(s, task, end, 2);
    var closed := ClosedTrace(s, task, end);
    var mid := Last(s, closed);
    var pinned := if end.done then PinnedTrace(mid, branch, pin) else [];
    var kept := Last(mid, pinned);
    AtOf(s, closed, pinned, Site(kept.rows, Swept(kept.store, gone)), cut);
  }

  lemma {:induction false} PinnedBranchIsThere(s: Site, mid: Site, branch: string, pin: PinWorld)
    requires WellFormed(s.store) && WellFormed(mid.store) && branch in s.store.refs
    requires forall b :: b in mid.store.refs ==> b in s.store.refs && mid.store.refs[b] == s.store.refs[b]
    requires PinnedTrace(mid, branch, pin) != []
    ensures branch in mid.store.refs && mid.store.refs[branch] == s.store.refs[branch]
  {
  }

  /** What the tip of the drive has left to be held by at `cut`. */
  ghost predicate Leads(s: Site, task: string, end: D.EndWorld, branch: string, pin: PinWorld, cut: nat)
    requires WellFormed(s.store) && branch in s.store.refs
  {
    var c := s.store.refs[branch];
    || HeldBeside(s.store, D.ResumeRef(task), c)
    || (!D.Unpins(task, Ending(s, task, end), cut) && RefHolds(s.store, D.ResumeRef(task), c))
    || KeptBy(s, task, end, branch, pin, cut)
  }

  lemma {:induction false} HeldWhileClosing(
      s: Site, task: string, end: D.EndWorld, branch: string, pin: PinWorld, cut: nat)
    requires WellFormed(s.store) && branch in s.store.refs && cut <= |ClosedTrace(s, task, end)|
    ensures var t := At(s, ClosedTrace(s, task, end), cut).store;
            WellFormed(t) && (Held(t, s.store.refs[branch]) <==> Leads(s, task, end, branch, pin, cut))
  {
    var unpinned := D.Unpins(task, Ending(s, task, end), cut);
    ClosingKeepsTheStore(s, task, end, cut);
    HeldByTheRest(s.store, At(s, ClosedTrace(s, task, end), cut).store, task, s.store.refs[branch], unpinned);
  }

  lemma {:induction false} HeldOnceClosed(
      s: Site, task: string, end: D.EndWorld, branch: string, pin: PinWorld, cut: nat)
    requires WellFormed(s.store) && branch in s.store.refs && cut > |ClosedTrace(s, task, end)|
    ensures var mid := Last(s, ClosedTrace(s, task, end));
            WellFormed(mid.store) && (!KeptBy(s, task, end, branch, pin, cut) ==>
              (Held(mid.store, s.store.refs[branch]) <==> Leads(s, task, end, branch, pin, cut)))
  {
    var mid, unpinned := Last(s, ClosedTrace(s, task, end)), D.Unpins(task, Ending(s, task, end), 2);
    ClosingKeepsTheStore(s, task, end, 2);
    HeldByTheRest(s.store, mid.store, task, s.store.refs[branch], unpinned);
    assert unpinned <==> D.Unpins(task, Ending(s, task, end), cut);
  }

  /** At every crash point of a drive's end the converged tip is held exactly when its resume pin is not
      dropped yet, or its kept pin is written already, or another lasting ref leads to it. */
  lemma {:induction false} ServeEndHoldsExactly(
      s: Site, task: string, end: D.EndWorld, branch: string, pin: PinWorld, gone: set<string>, cut: nat)
    requires WellFormed(s.store) && branch in s.store.refs
    ensures var t := At(s, ServeTrace(s, task, end, branch, pin, gone), cut).store;
            WellFormed(t) && (Held(t, s.store.refs[branch]) <==> Leads(s, task, end, branch, pin, cut))
  {
    var c, closed := s.store.refs[branch], ClosedTrace(s, task, end);
    var mid := Last(s, closed);
    ServeStates(s, task, end, branch, pin, gone, cut);
    if cut <= |closed| {
      HeldWhileClosing(s, task, end, branch, pin, cut);
    } else {
      HeldOnceClosed(s, task, end, branch, pin, cut);
      ClosingKeepsTheStore(s, task, end, 2);
      var pinned := if end.done then PinnedTrace(mid, branch, pin) else [];
      if pinned != [] {
        PinnedBranchIsThere(s, mid, branch, pin);
        PinHolds(mid, branch, pin, if cut <= |closed| + |pinned| then cut - |closed| - 1 else |pinned| - 1);
      }
      if cut > |closed| + |pinned| {
        SweepHolds(Last(mid, pinned).store, gone, c);
      }
    }
  }

  const FINISHED := D.EndWorld(true, false, true, true)
  const PINNED := PinWorld(true, true, true)

  /** With every call working, a tip that only its resume pin holds is lost at one crash point: after the
      pin is dropped and before the kept pin is written. The row says done there, so no boot resumes it. */
  lemma {:induction false} OneCrashPointLosesTheTip(
      s: Site, task: string, branch: string, gone: set<string>, cut: nat)
    requires WellFormed(s.store) && task != "" && branch in s.store.refs && branch != D.ResumeRef(task)
    requires branch != "" && !(KEPT <= branch) && !CheckedOut(s.store, KeptName(branch))
    requires RefHolds(s.store, D.ResumeRef(task), s.store.refs[branch])
    requires !HeldBeside(s.store, D.ResumeRef(task), s.store.refs[branch])
    ensures var t := At(s, ServeTrace(s, task, FINISHED, branch, PINNED, gone), cut);
            && WellFormed(t.store) && (Held(t.store, s.store.refs[branch]) <==> cut != 2)
            && (cut == 2 ==> task in t.rows && t.rows[task].status == D.Done)
  {
    var closed := ClosedTrace(s, task, FINISHED);
    ServeEndHoldsExactly(s, task, FINISHED, branch, PINNED, gone, cut);
    ServeStates(s, task, FINISHED, branch, PINNED, gone, cut);
    ClosingKeepsTheStore(s, task, FINISHED, 2);
    TheResumePinIsFree(s.store, D.ResumeRef(task), s.store.refs[branch]);
    assert |closed| == 2 && branch in Last(s, closed).store.refs;
    assert PinnedTrace(Last(s, closed), branch, PINNED) != [];
  }

  lemma TheResumePinIsFree(s: Store, ref: string, c: Commit)
    requires WellFormed(s) && RefHolds(s, ref, c) && !HeldBeside(s, ref, c)
    ensures !CheckedOut(s, ref)
  {
  }

  /** Such a drive exists: an in-flight row with a pinned tip on an integration branch. */
  lemma ServeCrashLosesTheTip() returns (s: Site, task: string, branch: string)
    ensures WellFormed(s.store) && branch in s.store.refs && D.Wants(DiskOf(s), task, s.store.refs[branch])
    ensures var t := At(s, ServeTrace(s, task, FINISHED, branch, PINNED, {}), 2);
            WellFormed(t.store) && Held(s.store, s.store.refs[branch]) && !Held(t.store, s.store.refs[branch])
  {
    task, branch := D.SuperviseTaskID("t"), INTEGRATE + "x";
    var ref := D.ResumeRef(task);
    assert ref[0] == 'r' && "main"[0] == 'm' && branch[0] == 'i' && KeptName(branch)[0] == 'n';
    D.ResumePinsAreNotThrowaway(task);
    s := Site(map[task := D.Row(D.InFlight, D.Snapshot(D.At(1), []))],
              Store([{}, {0}], map["main" := 0, ref := 1, branch := 1], Attached("main"), false, ""));
    assert !Ancestor(s.store.graph, 1, 0) && Ancestor(s.store.graph, 1, s.store.refs[ref]);
    OneCrashPointLosesTheTip(s, task, branch, {}, 2);
  }
}
