/** What the delivery steps do to the base and to the session, from their inputs: /apply behind its gate,
    a build's delivery and a drive's end (cmd/nilcore/chat.go, cmd/nilcore/build.go). */
module Delivery {
  import opened Commits
  import opened KeptBranches

  /** A merge brings in the history of both sides and nothing else; no branch but the checked-out one
      moves. */
  lemma {:induction false} MergedIsExactly(s: Store, c0: Commit, x: Commit)
    requires WellFormed(s) && c0 < |s.graph| && x < |s.graph|
    ensures var t := Merged(s, c0);
            && (Ancestor(t.graph, x, Tip(t)) <==> Ancestor(s.graph, x, Tip(s)) || Ancestor(s.graph, x, c0))
            && (s.head.Attached? ==> t.head == s.head) && t.refs.Keys == s.refs.Keys
            && (forall b :: b in s.refs && !CheckedOut(s, b) ==> t.refs[b] == s.refs[b])
            && t.midMerge == s.midMerge && t.carried == s.carried
  {
    var t := Merged(s, c0);
    MergedContains(s, c0);
    if Ancestor(s.graph, c0, Tip(s)) || Ancestor(s.graph, Tip(s), c0) {
      if Ancestor(s.graph, x, Tip(s)) && Ancestor(s.graph, Tip(s), c0) {
        AncestorTransitive(s.graph, x, Tip(s), c0);
      }
      if Ancestor(s.graph, x, c0) && Ancestor(s.graph, c0, Tip(s)) {
        AncestorTransitive(s.graph, x, c0, Tip(s));
      }
    } else {
      var parents := {Tip(s), c0};
      AncestorStable(s.graph, parents, x, Tip(s));
      AncestorStable(s.graph, parents, x, c0);
      assert t.graph == s.graph + [parents] && t.graph[|s.graph|] == parents && Tip(t) == |s.graph|;
      assert Tip(s) in parents && c0 in parents;
    }
  }

  /** The merge goes in, from the point of view of the work `c`. */
  predicate Enters(s: Store, c: Commit, w: MergeWorld)
    requires WellFormed(s) && c < |s.graph|
  {
    && !s.midMerge && w.starts
    && (w.conflicts ==> Ancestor(s.graph, c, Tip(s)) || Ancestor(s.graph, Tip(s), c))
  }

  /** A merge goes in exactly when no merge is open, the branch exists, git starts, and the two sides do
      not both diverge and conflict; it is reported as landed exactly when its tip is read as well. */
  lemma {:induction false} MergeLandsExactly(s: Store, branch: string, w: MergeWorld)
    requires WellFormed(s)
    ensures var (trace, result) := MergeTrace(s, branch, w);
            var enters := branch in s.refs && Enters(s, s.refs[branch], w);
            && (result.Landed? <==> enters && w.readsTip) && (result.TipUnread? <==> enters && !w.readsTip)
            && (enters ==> Last(s, trace) == Merged(s, s.refs[branch]) && |trace| == 1)
            && (!enters ==> forall t :: t in trace ==> t == s.(midMerge := t.midMerge))
  {
  }

  /** A merge comes upon an open merge exactly when one was open before or it runs into a conflict of two
      diverged sides. It is reported as a conflict exactly when the probe sees it, stays open unless the abort
      works as well, and a process that stops before the abort leaves it open. */
  lemma {:induction false} OpenMergeExactly(s: Store, branch: string, w: MergeWorld)
    requires WellFormed(s)
    ensures var (trace, result) := MergeTrace(s, branch, w);
            var runsInto := !s.midMerge && branch in s.refs && w.starts && w.conflicts
                            && !Ancestor(s.graph, s.refs[branch], Tip(s)) && !Ancestor(s.graph, Tip(s), s.refs[branch]);
            && (result.Conflict? <==> (s.midMerge || runsInto) && w.probes)
            && (result.Conflict? ==> result.aborted == w.aborts)
            && (Last(s, trace).midMerge <==> (s.midMerge || runsInto) && !(w.probes && w.aborts))
            && ((exists t :: t in trace && t.midMerge) <==> runsInto)
            && (runsInto ==> trace[0] == s.(midMerge := true))
  {
    var trace := MergeTrace(s, branch, w).0;
    assert !s.midMerge && branch in s.refs && w.starts && w.conflicts && Diverged(s, s.refs[branch])
           ==> trace[0] == s.(midMerge := true) && trace[0] in trace;
  }

  /** Landing a branch brings in its history and nothing else, exactly when the merge goes in; its ref is
      reclaimed exactly when the new tip was read as well and the delete works. */
  lemma {:induction false} LandsExactly(s: Store, branch: string, w: MergeWorld, deletes: bool, x: Commit)
    requires WellFormed(s) && x < |s.graph| && branch in s.refs
    ensures var (trace, result) := LandTrace(s, branch, w, deletes);
            var t, c, enters := Last(s, trace), s.refs[branch], Enters(s, s.refs[branch], w);
            && (enters ==> (Ancestor(t.graph, x, Tip(t)) <==> Ancestor(s.graph, x, Tip(s)) || Ancestor(s.graph, x, c)))
            && (!enters ==> Tip(t) == Tip(s) && t.graph == s.graph)
            && (result.Landed? <==> enters && w.readsTip) && t.carried == s.carried
            && (branch !in t.refs <==> enters && w.readsTip && deletes && !CheckedOut(s, branch))
            && (forall b :: b in s.refs && b != branch && !CheckedOut(s, b) ==> b in t.refs && t.refs[b] == s.refs[b])
  {
    MergedIsExactly(s, s.refs[branch], x);
    MergeLandsExactly(s, branch, w);
    var (merge, result) := MergeTrace(s, branch, w);
    if merge != [] {
      assert merge[|merge| - 1] in merge;
    }
    if result.Landed? {
      var mid := Last(s, merge);
      assert Last(s, LandTrace(s, branch, w, deletes).0) == Last(mid, Reclaim(mid, branch, deletes));
    }
  }

  // --- /apply ---

  /** Only an idle session with a carried branch that exists, an attached HEAD and the gate's yes lets
      /apply write anything; a denied apply leaves everything as it was. */
  lemma {:induction false} ApplyIsGated(s: Store, w: ApplyWorld)
    requires WellFormed(s)
    requires s.carried == "" || s.carried !in s.refs || s.head.Detached? || !w.idle || !w.approved
    ensures ApplyTrace(s, w) == []
  {
  }

  /** An approved apply lands exactly when its merge goes in and its tip is read. Then the base holds the
      carried work and what it held before, and nothing else; the session carries nothing, and the
      carried branch is gone unless its delete failed or it is checked out. Otherwise the session still
      carries the branch, and the branch is still there. */
  lemma {:induction false} ApplyLandsExactly(s: Store, w: ApplyWorld, x: Commit)
    requires WellFormed(s) && x < |s.graph|
    requires s.carried != "" && s.carried in s.refs && s.head.Attached? && w.idle && w.approved
    ensures var t, c := Last(s, ApplyTrace(s, w)), s.refs[s.carried];
            var enters := Enters(s, c, w.merge);
            && (enters ==> (Ancestor(t.graph, x, Tip(t)) <==> Ancestor(s.graph, x, Tip(s)) || Ancestor(s.graph, x, c)))
            && (!enters ==> Tip(t) == Tip(s) && t.graph == s.graph)
            && (t.carried == if enters && w.merge.readsTip then "" else s.carried)
            && (s.carried !in t.refs <==> enters && w.merge.readsTip && w.deletes && !CheckedOut(s, s.carried))
            && (forall b :: b in s.refs && b != s.carried && !CheckedOut(s, b) ==>
                  b in t.refs && t.refs[b] == s.refs[b])
  {
    LandsExactly(s, s.carried, w.merge, w.deletes, x);
  }

  // --- A build's delivery ---

  /** Only a promoted, done build moves the base; every other one leaves the checked-out commit alone. */
  lemma {:induction false} OnlyAPromotionMovesTheBase(
      s: Store, out: BuildOutcome, pin: PinWorld, merge: MergeWorld, deletes: bool)
    requires WellFormed(s) && !(out.done && out.promoted)
    ensures forall t :: t in DeliverTrace(s, out, pin, merge, deletes) ==> WellFormed(t) && Tip(t) == Tip(s)
    ensures !out.done || out.branch == "" ==> DeliverTrace(s, out, pin, merge, deletes) == []
  {
  }

  /** The name a pin returns is one under which the work is found. */
  lemma {:induction false} PinNamesTheWork(s: Store, branch: string, pin: PinWorld)
    requires WellFormed(s) && branch in s.refs
    ensures var (trace, name) := PinTrace(s, branch, pin);
            var t := Last(s, trace);
            && (branch != "" ==> name in t.refs && t.refs[name] == s.refs[branch])
            && name == (if trace == [] then branch else KeptName(branch))
            && (trace == [] <==> branch == "" || KEPT <= branch || !pin.resolves || !pin.pins
                                 || CheckedOut(s, KeptName(branch)))
            && (branch !in t.refs <==> trace != [] && pin.deletes && !CheckedOut(s, branch))
            && Tip(t) == Tip(s) && t.graph == s.graph && t.head == s.head && t.midMerge == s.midMerge
            && t.carried == s.carried
            && (forall b :: b in s.refs && b != branch && b != KeptName(branch) ==>
                  b in t.refs && t.refs[b] == s.refs[b])
  {
  }

  /** A done build with a verified branch is pinned first; promoted, it lands on the base exactly when its
      merge goes in, bringing the branch's history and nothing else. */
  lemma {:induction false} PromotionLandsExactly(
      s: Store, out: BuildOutcome, pin: PinWorld, merge: MergeWorld, deletes: bool, x: Commit)
    requires WellFormed(s) && x < |s.graph| && out.done && out.branch != "" && out.branch in s.refs
    ensures var t, c := Last(s, DeliverTrace(s, out, pin, merge, deletes)), s.refs[out.branch];
            var name, enters := PinTrace(s, out.branch, pin).1, out.promoted && Enters(s, c, merge);
            && (enters ==> (Ancestor(t.graph, x, Tip(t)) <==> Ancestor(s.graph, x, Tip(s)) || Ancestor(s.graph, x, c)))
            && (!enters ==> Tip(t) == Tip(s) && t.graph == s.graph)
            && PinTrace(s, out.branch, pin).0 <= DeliverTrace(s, out, pin, merge, deletes)
            && t.carried == s.carried
            && (name !in t.refs <==> enters && merge.readsTip && deletes && !CheckedOut(s, name))
  {
    var (pinned, name) := PinTrace(s, out.branch, pin);
    var mid := Last(s, pinned);
    PinNamesTheWork(s, out.branch, pin);
    if out.promoted {
      var land := LandTrace(mid, name, merge, deletes).0;
      LandsExactly(mid, name, merge, deletes, x);
      LastOfBoth(s, pinned, land);
      assert DeliverTrace(s, out, pin, merge, deletes) == pinned + land;
    } else {
      assert DeliverTrace(s, out, pin, merge, deletes) == pinned;
    }
  }

  lemma LastOfBoth(s: Store, a: seq<Store>, b: seq<Store>)
    requires WellFormed(s)
    requires forall t :: t in a || t in b ==> WellFormed(t)
    ensures Last(s, a + b) == Last(Last(s, a), b) && a <= a + b
  {
  }

  // --- A drive's end ---

  /** A done drive hands the session the name its tip is found under, the kept name when the pin was
      written; any other drive leaves what the session carries alone. */
  lemma {:induction false} DriveCarriesExactly(
      s: Store, done: bool, branch: string, pin: PinWorld, gone: set<string>)
    requires WellFormed(s)
    ensures var t := Last(s, DriveTrace(s, done, branch, pin, gone));
            && (!done || branch == "" ==> t.carried == s.carried)
            && (done && branch != "" && branch in s.refs ==>
                  && t.carried == PinTrace(s, branch, pin).1
                  && (KEPT <= t.carried ==> t.carried in t.refs && t.refs[t.carried] == s.refs[branch]))
            && (done && branch != "" && branch !in s.refs ==> t.carried == branch)
  {
    var (pinned, name) := if done then PinTrace(s, branch, pin) else ([], "");
    if done && branch in s.refs {
      PinNamesTheWork(s, branch, pin);
      if KEPT <= name {
        assert name[0] == 'n' && !Throwaway(name);
      }
    }
  }

  // --- The sweep and the cap ---

  /** A sweep removes what it was given of the four run-scoped prefixes that is not checked out, and
      nothing else. */
  lemma SweptExactly(s: Store, gone: set<string>, b: string)
    requires WellFormed(s)
    ensures var t := Swept(s, gone);
            && (b in t.refs <==>
                  b in s.refs && !(&& b in gone && !CheckedOut(s, b)
                                   && ("task/" <= b || "rebase/" <= b || "integrate/" <= b || "read/" <= b)))
            && t == s.(refs := t.refs) && (b in t.refs ==> t.refs[b] == s.refs[b])
  {
  }

  /** A drive's end sweeps, whether the drive is done or not. */
  lemma DriveSweeps(s: Store, done: bool, branch: string, pin: PinWorld, gone: set<string>, b: string)
    requires WellFormed(s) && b in gone && b != KeptName(branch) && !CheckedOut(s, b)
    requires "task/" <= b || "rebase/" <= b || "integrate/" <= b || "read/" <= b
    ensures b !in Last(s, DriveTrace(s, done, branch, pin, gone)).refs
  {
  }

  lemma {:induction false} WithoutExactly(listing: seq<string>, active: string, b: string)
    ensures b in Without(listing, active) <==> b in listing && b != active
    decreases |listing|
  {
    if listing != [] {
      assert listing == [listing[0]] + listing[1..];
      WithoutExactly(listing[1..], active, b);
    }
  }

  /** The cap removes exactly the branches listed behind the first twenty, save the active one, those whose
      delete fails and a checked-out one; everything else stays as it was. */
  lemma {:induction false} CapRemovesExactly(
      s: Store, listing: seq<string>, active: string, failing: set<string>, b: string)
    requires WellFormed(s)
    ensures var t := Last(s, PruneTrace(s, Surplus(listing, active, 0, KEEP), failing));
            && t == s.(refs := t.refs) && (b in t.refs ==> b in s.refs && t.refs[b] == s.refs[b])
            && (b in s.refs && b !in t.refs <==>
                  && (exists i :: 20 <= i < |listing| && listing[i] == b)
                  && b in s.refs && b != active && b !in failing && !CheckedOut(s, b))
  {
    var late := if 20 <= |listing| then listing[20..] else [];
    SurplusIsTheOldest(listing, active, 0, KEEP);
    WithoutExactly(late, active, b);
    PruneEnds(s, Surplus(listing, active, 0, KEEP), failing);
    if i :| 20 <= i < |listing| && listing[i] == b {
      assert late[i - 20] == b;
    }
    if i :| 0 <= i < |late| && late[i] == b {
      assert listing[i + 20] == b;
    }
  }

  // --- The other steps of a run ---

  /** A worker's or the operator's commit goes onto a branch outside nilcore/kept/, on top of what is checked
      out if that branch is; a sweep is one step. */
  lemma {:induction false} OtherStepsAreExact(s: Store, branch: string, parents: set<Commit>, gone: set<string>)
    requires WellFormed(s)
    ensures After(s, Sweep(gone), 1) == Swept(s, gone)
    ensures var t, c := After(s, NewCommit(branch, parents), 1), |s.graph|;
            if "nilcore/kept/" <= branch || exists p :: p in parents && p >= c then t == s
            else t == s.(graph := s.graph + [parents + if CheckedOut(s, branch) then {Tip(s)} else {}],
                         refs := s.refs[branch := c])
  {
    assert parents + {} == parents;
  }
}
