/** The merge fold of verified children: integrateBranches (cmd/nilcore/decompose.go) over the
    integrator it drives (internal/integrate/integrate.go). The integration tip is the sequence of
    branches folded onto the base; what the project verifier says of a checked-out tip is a function of
    that tip, what it says of a tree with an open merge is up to that tree. */
module MergeFold {

  datatype Child = Child(goal: string, branch: string, verified: bool)

  /** How one `git merge` of a branch that is not yet on the tip goes. */
  datatype MergeOut = Clean | Conflicts | Fails

  /** Every outside outcome one fold meets. `contained` says the tip already holds the branch, `probes`
      that an open merge is recognised as one. */
  datatype World = World(
    headReads: bool, contained: bool, merge: MergeOut, probes: bool, aborts: bool, commits: bool, shaReads: bool,
        checks: bool, resets: bool)

  datatype Result = Result(branch: string, merged: bool, verified: bool, conflict: bool, dirty: bool, unread: bool)

  datatype State = State(tip: seq<string>, midMerge: bool)

  type Verifier = seq<string> -> bool

  /** What the verifier says of the working tree; `openGreen` is what it says of a tree mid-merge. */
  predicate TreeIsGreen(s: State, green: Verifier, openGreen: bool) {
    if s.midMerge then openGreen else green(s.tip)
  }

  // --- One fold, and the fold of all ---

  predicate Stops(r: Result) {
    r.dirty || r.unread
  }

  function Reset(s: State, to: seq<string>, works: bool): State {
    if works then State(to, false) else s
  }

  function Rejected(branch: string): Result {
    Result(branch, false, false, false, false, false)
  }

  function FoldOne(s: State, branch: string, w: World, green: Verifier): (State, Result) {
    if !w.headReads then (s, Rejected(branch).(unread := true))
    else if w.contained then (s, Rejected(branch).(merged := true, verified := true))
    else if s.midMerge || w.merge.Conflicts? then
      if !w.probes then (s.(midMerge := true), Rejected(branch))
      else (s.(midMerge := !w.aborts), Rejected(branch).(conflict := true, dirty := !w.aborts))
    else if w.merge.Fails? then (s, Rejected(branch))
    else if !w.commits then (Reset(s.(midMerge := true), s.tip, w.resets), Rejected(branch))
    else
      var onto := State(s.tip + [branch], false);
      if !w.shaReads then (Reset(onto, s.tip, w.resets), Rejected(branch))
      else if w.checks && green(onto.tip) then (onto, Rejected(branch).(merged := true, verified := true))
      else (Reset(onto, s.tip, w.resets), Rejected(branch).(merged := true))
  }

  function Fold(s: State, order: seq<string>, worlds: seq<World>, green: Verifier): (r: (State, seq<Result>))
    requires |order| == |worlds|
    ensures |r.1| <= |order|
    decreases |order|
  {
    if order == [] then (s, [])
    else
      var (next, first) := FoldOne(s, order[0], worlds[0], green);
      if Stops(first) then (next, [first])
      else
        var (last, rest) := Fold(next, order[1..], worlds[1..], green);
        (last, [first] + rest)
  }

  /** The children worth merging, in plan order. */
  function MergeOrder(children: seq<Child>): (r: seq<string>)
    ensures |r| <= |children|
  {
    if children == [] then []
    else
      var c := children[|children| - 1];
      MergeOrder(children[..|children| - 1]) + (if c.verified && c.branch != "" then [c.branch] else [])
  }

  function Verified(results: seq<Result>): (n: nat)
    ensures n <= |results|
  {
    if results == [] then 0
    else Verified(results[..|results| - 1]) + (if results[|results| - 1].verified then 1 else 0)
  }

  datatype Report = Report(verified: bool, merged: nat, dropped: nat)

  class Integrator {
    var tip: seq<string>
    var midMerge: bool
    const green: Verifier

    ghost function Now(): State
      reads this
    {
      State(tip, midMerge)
    }

    constructor (green: Verifier)
      ensures Now() == State([], false) && this.green == green
    {
      tip, midMerge := [], false;
      this.green := green;
    }

    method ResetHard(to: seq<string>, works: bool)
      modifies this
      ensures Now() == Reset(old(Now()), to, works)
    {
      if works {
        tip, midMerge := to, false;
      }
    }

    method MergeOne(branch: string, w: World) returns (r: Result)
      requires w.headReads
      modifies this
      ensures (Now(), r) == FoldOne(old(Now()), branch, w, green)
    {
      r := Rejected(branch);
      if w.contained {
        return r.(merged := true, verified := true);
      }
      if midMerge || w.merge.Conflicts? {
        midMerge := true;
        if !w.probes {
          return r;
        }
        if !w.aborts {
          return r.(conflict := true, dirty := true);
        }
        midMerge := false;
        return r.(conflict := true);
      }
      if w.merge.Fails? {
        return r;
      }
      var pre := tip;
      midMerge := true;
      if !w.commits {
        ResetHard(pre, w.resets);
        return r;
      }
      tip, midMerge := tip + [branch], false;
      if !w.shaReads {
        ResetHard(pre, w.resets);
        return r;
      }
      if !w.checks || !green(tip) {
        ResetHard(pre, w.resets);
        return r.(merged := true);
      }
      return r.(merged := true, verified := true);
    }

    method Integrate(order: seq<string>, worlds: seq<World>) returns (results: seq<Result>)
      requires |order| == |worlds|
      modifies this
      ensures (Now(), results) == Fold(old(Now()), order, worlds, green)
    {
      results := [];
      var i := 0;
      assert order[0..] == order && worlds[0..] == worlds;
      while i < |order|
        invariant 0 <= i <= |order|
        invariant Fold(old(Now()), order, worlds, green).0 == Fold(Now(), order[i..], worlds[i..], green).0
        invariant Fold(old(Now()), order, worlds, green).1 == results + Fold(Now(), order[i..], worlds[i..], green).1
      {
        FoldStep(Now(), order, worlds, green, i, results);
        var r;
        if !worlds[i].headReads {
          r := Rejected(order[i]).(unread := true);
        } else {
          r := MergeOne(order[i], worlds[i]);
        }
        results := results + [r];
        if Stops(r) {
          return;
        }
        i := i + 1;
      }
      assert Fold(Now(), order[i..], worlds[i..], green) == (Now(), []);
      assert results + [] == results;
    }

    /** The final check runs in the worktree: on the tip, or on whatever an open merge has left there. */
    method CheckTree(openGreen: bool) returns (passed: bool)
      ensures passed == TreeIsGreen(Now(), green, openGreen)
    {
      if midMerge {
        return openGreen;
      }
      return green(tip);
    }

    /** Nothing when setup or the final check faults; otherwise the report on the final tree. */
    method IntegrateBranches(children: seq<Child>, worlds: seq<World>, starts: bool, finalChecks: bool, openGreen: bool)
      returns (report: Report, ok: bool)
      requires |worlds| == |MergeOrder(children)|
      requires Now() == State([], false)
      modifies this
      ensures ok == (starts && finalChecks)
      ensures ok ==>
                var (last, results) := Fold(State([], false), MergeOrder(children), worlds, green);
                Now() == last && report == ReportOn(children, results, TreeIsGreen(last, green, openGreen))
    {
      var order, dropped, i := [], 0, 0;
      while i < |children|
        invariant 0 <= i <= |children|
        invariant order == MergeOrder(children[..i]) && dropped + |order| == i
      {
        assert children[..i + 1][..i] == children[..i];
        if !children[i].verified || children[i].branch == "" {
          dropped := dropped + 1;
        } else {
          order := order + [children[i].branch];
        }
        i := i + 1;
      }
      assert children[..i] == children;
      report, ok := Report(false, 0, 0), false;
      if !starts {
        return;
      }
      var results := Integrate(order, worlds);
      var merged, j := 0, 0;
      while j < |results|
        invariant 0 <= j <= |results| && merged == Verified(results[..j])
        invariant dropped == |children| - |order| + j - merged
      {
        assert results[..j + 1][..j] == results[..j];
        if results[j].verified {
          merged := merged + 1;
        } else {
          dropped := dropped + 1;
        }
        j := j + 1;
      }
      assert results[..j] == results;
      if finalChecks {
        var passed := CheckTree(openGreen);
        return Report(passed, merged, dropped), true;
      }
    }
  }

  lemma {:induction false} FoldStep(
      s: State, order: seq<string>, worlds: seq<World>, green: Verifier, i: nat, results: seq<Result>)
    requires |order| == |worlds| && i < |order|
    ensures var (next, r) := FoldOne(s, order[i], worlds[i], green);
            var whole := Fold(s, order[i..], worlds[i..], green);
            var rest := Fold(next, order[i + 1..], worlds[i + 1..], green);
            if Stops(r) then whole == (next, [r])
            else whole.0 == rest.0 && results + whole.1 == (results + [r]) + rest.1
  {
  }

  function ReportOn(children: seq<Child>, results: seq<Result>, passed: bool): Report
    requires |results| <= |MergeOrder(children)|
  {
    Report(passed, Verified(results), |children| - |MergeOrder(children)| + |results| - Verified(results))
  }

  // --- Conservation ---

  /** The fold stops at this branch: the tip cannot be read, or a conflict cannot be aborted. */
  predicate Cuts(mid: bool, w: World) {
    !w.headReads || (!w.contained && (mid || w.merge.Conflicts?) && w.probes && !w.aborts)
  }

  /** Whether a merge is in progress after one fold that did not stop. */
  predicate MidAfter(mid: bool, w: World) {
    if w.contained || !w.headReads then mid
    else if mid || w.merge.Conflicts? then !w.probes
    else w.merge.Clean? && !w.commits && !w.resets
  }

  predicate MidAt(mid: bool, worlds: seq<World>, i: nat)
    requires i <= |worlds|
    decreases i
  {
    if i == 0 then mid else MidAt(MidAfter(mid, worlds[0]), worlds[1..], i - 1)
  }

  /** No fold before `i` is cut. */
  predicate Reached(mid: bool, worlds: seq<World>, i: nat)
    requires i <= |worlds|
  {
    forall j :: 0 <= j < i ==> !Cuts(MidAt(mid, worlds, j), worlds[j])
  }

  /** No fold before the last one is cut. */
  predicate WentOn(mid: bool, worlds: seq<World>) {
    worlds == [] || Reached(mid, worlds, |worlds| - 1)
  }

  lemma {:induction false} ReachedRest(mid: bool, worlds: seq<World>, i: nat)
    requires i < |worlds|
    ensures MidAt(mid, worlds, i + 1) == MidAt(MidAfter(mid, worlds[0]), worlds[1..], i)
    ensures Reached(mid, worlds, i + 1)
        <==> !Cuts(mid, worlds[0]) && Reached(MidAfter(mid, worlds[0]), worlds[1..], i)
  {
    var rest, next := worlds[1..], MidAfter(mid, worlds[0]);
    forall j | 0 <= j < i ensures MidAt(mid, worlds, j + 1) == MidAt(next, rest, j) && worlds[j + 1] == rest[j] {
    }
    if Reached(mid, worlds, i + 1) {
      assert !Cuts(MidAt(mid, worlds, 0), worlds[0]);
      forall j | 0 <= j < i ensures !Cuts(MidAt(next, rest, j), rest[j]) {
        assert !Cuts(MidAt(mid, worlds, j + 1), worlds[j + 1]);
      }
    }
    if !Cuts(mid, worlds[0]) && Reached(next, rest, i) {
      forall j | 0 <= j < i + 1 ensures !Cuts(MidAt(mid, worlds, j), worlds[j]) {
        if j > 0 {
          assert !Cuts(MidAt(next, rest, j - 1), rest[j - 1]);
        }
      }
    }
  }

  lemma {:induction false} OneFoldCuts(s: State, branch: string, w: World, green: Verifier)
    ensures var (next, r) := FoldOne(s, branch, w, green);
            && (Stops(r) <==> Cuts(s.midMerge, w))
            && (!Stops(r) ==> next.midMerge == MidAfter(s.midMerge, w))
            && r.branch == branch
  {
  }

  /** The results follow the plan order; one is missing exactly when a fold before the last one is cut. */
  lemma {:induction false} FoldStopsExactly(s: State, order: seq<string>, worlds: seq<World>, green: Verifier)
    requires |order| == |worlds|
    ensures var results := Fold(s, order, worlds, green).1;
            && (forall i :: 0 <= i < |results| ==> results[i].branch == order[i])
            && (|results| == |order| <==> WentOn(s.midMerge, worlds))
            && (|results| < |order| ==> results != [] && Stops(results[|results| - 1]))
    decreases |order|
  {
    if order != [] {
      var (next, first) := FoldOne(s, order[0], worlds[0], green);
      OneFoldCuts(s, order[0], worlds[0], green);
      if |worlds| >= 2 {
        ReachedRest(s.midMerge, worlds, |worlds| - 2);
      }
      if !Stops(first) {
        FoldStopsExactly(next, order[1..], worlds[1..], green);
      }
    }
  }

  /** Every child is counted as merged or dropped exactly when no fold before the last one is cut; the
      children behind a cut are in neither count. */
  lemma {:induction false} ChildrenAreConservedExactly(children: seq<Child>, worlds: seq<World>, green: Verifier)
    requires |worlds| == |MergeOrder(children)|
    ensures var order := MergeOrder(children);
            var (last, results) := Fold(State([], false), order, worlds, green);
            forall passed ::
              var report := ReportOn(children, results, passed);
              && report.merged + report.dropped + (|order| - |results|) == |children|
              && (report.merged + report.dropped == |children| <==> WentOn(false, worlds))
  {
    FoldStopsExactly(State([], false), MergeOrder(children), worlds, green);
  }

  predicate ResetsWork(worlds: seq<World>) {
    forall w :: w in worlds ==> w.resets
  }

  predicate ProbesWork(worlds: seq<World>) {
    forall w :: w in worlds ==> w.probes
  }

  /** With working rollbacks and probes only two things cut a fold short: a tip that cannot be read and
      a conflict that cannot be aborted. */
  lemma {:induction false} CutsWithWorkingResets(worlds: seq<World>)
    requires ResetsWork(worlds) && ProbesWork(worlds)
    ensures WentOn(false, worlds) <==>
              forall i :: 0 <= i < |worlds| - 1 ==>
                worlds[i].headReads && (worlds[i].merge.Conflicts? && !worlds[i].contained ==> worlds[i].aborts)
  {
    forall i | 0 <= i < |worlds| ensures !MidAt(false, worlds, i) && worlds[i] in worlds {
      NeverMid(worlds, i);
    }
  }

  lemma {:induction false} NeverMid(worlds: seq<World>, i: nat)
    requires ResetsWork(worlds) && ProbesWork(worlds) && i < |worlds|
    ensures !MidAt(false, worlds, i)
    decreases i
  {
    if i > 0 {
      assert worlds[0] in worlds;
      NeverMid(worlds[1..], i - 1);
    }
  }

  /** Two verified children, a conflict that cannot be aborted: one child is in neither count. */
  lemma CutFoldLosesAChild(green: Verifier) returns (children: seq<Child>, worlds: seq<World>)
    ensures |children| == 2 && |worlds| == |MergeOrder(children)| == 2
    ensures var (last, results) := Fold(State([], false), MergeOrder(children), worlds, green);
            forall passed :: var report := ReportOn(children, results, passed); report.merged + report.dropped == 1
  {
    var stuck := World(true, false, Conflicts, true, false, true, true, true, true);
    children := [Child("a", "task/a", true), Child("b", "task/b", true)];
    worlds := [stuck, stuck];
    assert children[..1] == [children[0]] && children[..1][..0] == [];
    assert MergeOrder(children[..1]) == ["task/a"] && MergeOrder(children) == ["task/a", "task/b"];
    var (next, first) := FoldOne(State([], false), "task/a", stuck, green);
    assert Stops(first) && Fold(State([], false), MergeOrder(children), worlds, green) == (next, [first]);
  }

  // --- Which children are merged ---

  predicate Increasing(picks: seq<nat>) {
    forall j, k :: 0 <= j < k < |picks| ==> picks[j] < picks[k]
  }

  /** `picks` lists, in order, the positions of exactly the children that verified and kept a branch. */
  predicate PicksVerified(children: seq<Child>, picks: seq<nat>) {
    && Increasing(picks)
    && (forall k :: 0 <= k < |picks| ==> picks[k] < |children|)
    && forall i :: 0 <= i < |children| ==>
         (i in picks <==> children[i].verified && children[i].branch != "")
  }

  predicate OrderIsPicked(children: seq<Child>, picks: seq<nat>, order: seq<string>) {
    && PicksVerified(children, picks) && |picks| == |order|
    && forall k :: 0 <= k < |picks| ==> order[k] == children[picks[k]].branch
  }

  lemma {:induction false} PickPush(init: seq<Child>, c: Child, picks: seq<nat>, order: seq<string>)
    requires OrderIsPicked(init, picks, order)
    ensures if c.verified && c.branch != "" then OrderIsPicked(init + [c], picks + [|init|], order + [c.branch])
            else OrderIsPicked(init + [c], picks, order)
  {
    var children := init + [c];
    forall i | 0 <= i < |init| ensures children[i] == init[i] {
    }
  }

  lemma OrderPush(init: seq<Child>, c: Child)
    ensures MergeOrder(init + [c])
         == if c.verified && c.branch != "" then MergeOrder(init) + [c.branch] else MergeOrder(init)
  {
    assert (init + [c])[..|init|] == init;
  }

  lemma {:induction false} OrderPicks(children: seq<Child>) returns (picks: seq<nat>)
    ensures OrderIsPicked(children, picks, MergeOrder(children))
    decreases |children|
  {
    picks := [];
    if children != [] {
      var init, last := children[..|children| - 1], children[|children| - 1];
      assert children == init + [last];
      picks := OrderPicks(init);
      OrderPush(init, last);
      PickPush(init, last, picks, MergeOrder(init));
      if last.verified && last.branch != "" {
        picks := picks + [|init|];
      }
    }
  }

  lemma {:induction false} TipComesFromOrder(s: State, order: seq<string>, worlds: seq<World>, green: Verifier)
    requires |order| == |worlds|
    ensures forall b :: b in Fold(s, order, worlds, green).0.tip ==> b in s.tip || b in order
    decreases |order|
  {
    if order != [] {
      var (next, first) := FoldOne(s, order[0], worlds[0], green);
      assert forall b :: b in next.tip ==> b in s.tip || b == order[0];
      if !Stops(first) {
        TipComesFromOrder(next, order[1..], worlds[1..], green);
      }
    }
  }

  /** The positions of the verified results. */
  function VerifiedAt(results: seq<Result>): (r: set<nat>) {
    set k | 0 <= k < |results| && results[k].verified
  }

  lemma VerifiedPush(init: seq<Result>, last: Result)
    ensures VerifiedAt(init + [last]) == if last.verified then VerifiedAt(init) + {|init|} else VerifiedAt(init)
    ensures |init| !in VerifiedAt(init)
  {
    var all := init + [last];
    assert forall k :: 0 <= k < |init| ==> all[k] == init[k];
  }

  lemma {:induction false} VerifiedCounts(results: seq<Result>)
    ensures Verified(results) == |VerifiedAt(results)|
    decreases |results|
  {
    if results != [] {
      var init, last := results[..|results| - 1], results[|results| - 1];
      assert results == init + [last];
      VerifiedCounts(init);
      VerifiedPush(init, last);
    }
  }

  lemma {:induction false} TipIsTheirs(children: seq<Child>, picks: seq<nat>, order: seq<string>, tip: seq<string>)
    requires OrderIsPicked(children, picks, order) && forall b :: b in tip ==> b in order
    ensures forall b :: b in tip ==> exists i :: i in picks && children[i].branch == b
  {
    forall b | b in tip ensures exists i :: i in picks && children[i].branch == b {
      var k :| 0 <= k < |order| && order[k] == b;
      assert picks[k] in picks;
    }
  }

  /** Exactly the children that verified and kept a branch are merged, in plan order: every branch on the
      final tip is one of theirs, the results are theirs one by one as far as the fold went, and every
      other child is counted as dropped. */
  lemma {:induction false} VerifiedChildrenAreMerged(
      children: seq<Child>, worlds: seq<World>, green: Verifier, passed: bool) returns (picks: seq<nat>)
    requires |worlds| == |MergeOrder(children)|
    ensures PicksVerified(children, picks) && |picks| == |worlds|
    ensures var (last, results) := Fold(State([], false), MergeOrder(children), worlds, green);
            var report := ReportOn(children, results, passed);
            && (forall b :: b in last.tip ==> exists i :: i in picks && children[i].branch == b)
            && |results| <= |picks| && (WentOn(false, worlds) ==> |results| == |picks|)
            && (forall k :: 0 <= k < |results| ==> results[k].branch == children[picks[k]].branch)
            && report.merged == |VerifiedAt(results)|
            && report.dropped == (|children| - |picks|) + (|results| - report.merged)
  {
    picks := OrderPicks(children);
    var order := MergeOrder(children);
    var (last, results) := Fold(State([], false), order, worlds, green);
    FoldStopsExactly(State([], false), order, worlds, green);
    TipComesFromOrder(State([], false), order, worlds, green);
    VerifiedCounts(results);
    TipIsTheirs(children, picks, order, last.tip);
  }

  // --- The tip ---

  /** The branches a fold put on the tip: verified, and not there already. */
  function Kept(results: seq<Result>, worlds: seq<World>): (r: seq<string>)
    requires |results| <= |worlds|
    decreases |results|
  {
    if results == [] then []
    else
      (if results[0].verified && !worlds[0].contained then [results[0].branch] else [])
      + Kept(results[1..], worlds[1..])
  }

  /** A branch that is committed onto the tip and then rejected. */
  predicate Rejects(s: State, branch: string, w: World, green: Verifier) {
    && w.headReads && !w.contained && !s.midMerge && w.merge.Clean? && w.commits
    && !(w.shaReads && w.checks && green(s.tip + [branch]))
  }

  /** How many rejected branches the fold leaves on the tip: those whose rollback failed. */
  function Stuck(s: State, order: seq<string>, worlds: seq<World>, green: Verifier): (n: nat)
    requires |order| == |worlds|
    decreases |order|
  {
    if order == [] then 0
    else
      var (next, first) := FoldOne(s, order[0], worlds[0], green);
      (if Rejects(s, order[0], worlds[0], green) && !worlds[0].resets then 1 else 0)
      + if Stops(first) then 0 else Stuck(next, order[1..], worlds[1..], green)
  }

  lemma {:induction false} OneFoldKeeps(s: State, branch: string, w: World, green: Verifier)
    ensures var (next, r) := FoldOne(s, branch, w, green);
            var stuck := Rejects(s, branch, w, green) && !w.resets;
            && next.tip == s.tip + (if stuck || (r.verified && !w.contained) then [branch] else [])
            && (stuck ==> !r.verified)
            && (stuck || next.tip == s.tip || green(next.tip))
            && r.branch == branch && (Stops(r) ==> !r.verified)
  {
    assert s.tip + [] == s.tip;
  }

  /** The tip is as long as the kept branches and the stuck ones together; with none stuck it is exactly
      the kept ones in plan order, and green past the base. */
  lemma {:induction false} TipCounts(s: State, order: seq<string>, worlds: seq<World>, green: Verifier)
    requires |order| == |worlds|
    ensures var (last, results) := Fold(s, order, worlds, green);
            && |last.tip| == |s.tip| + |Kept(results, worlds)| + Stuck(s, order, worlds, green)
            && (Stuck(s, order, worlds, green) == 0 ==>
                  last.tip == s.tip + Kept(results, worlds) && (last.tip == s.tip || green(last.tip)))
    decreases |order|
  {
    if order == [] {
      assert s.tip + [] == s.tip;
    } else {
      var (next, first) := FoldOne(s, order[0], worlds[0], green);
      OneFoldKeeps(s, order[0], worlds[0], green);
      if Stops(first) {
        assert [first][1..] == [] && Kept([first], worlds) == [];
        assert s.tip + [] == s.tip;
      } else {
        var rest := Fold(next, order[1..], worlds[1..], green).1;
        TipCounts(next, order[1..], worlds[1..], green);
        KeptPush(first, rest, worlds, s.tip);
      }
    }
  }

  /** The tip holds exactly the kept branches, in plan order, if and only if every rollback that was
      needed worked; and then every tip past the base is green. */
  lemma {:induction false} TipIsKeptAndGreen(s: State, order: seq<string>, worlds: seq<World>, green: Verifier)
    requires |order| == |worlds|
    ensures var (last, results) := Fold(s, order, worlds, green);
            && (last.tip == s.tip + Kept(results, worlds) <==> Stuck(s, order, worlds, green) == 0)
            && (Stuck(s, order, worlds, green) == 0 ==> last.tip == s.tip || green(last.tip))
  {
    TipCounts(s, order, worlds, green);
  }

  lemma {:induction false} NoneStuck(s: State, order: seq<string>, worlds: seq<World>, green: Verifier)
    requires |order| == |worlds| && ResetsWork(worlds)
    ensures Stuck(s, order, worlds, green) == 0
    decreases |order|
  {
    if order != [] {
      assert worlds[0] in worlds;
      NoneStuck(FoldOne(s, order[0], worlds[0], green).0, order[1..], worlds[1..], green);
    }
  }

  lemma {:induction false} KeptPush(first: Result, rest: seq<Result>, worlds: seq<World>, tip: seq<string>)
    requires worlds != [] && |rest| < |worlds|
    ensures var kept := if first.verified && !worlds[0].contained then [first.branch] else [];
            && tip + Kept([first] + rest, worlds) == (tip + kept) + Kept(rest, worlds[1..])
            && |Kept([first] + rest, worlds)| == |kept| + |Kept(rest, worlds[1..])|
  {
    assert ([first] + rest)[1..] == rest;
  }

  /** What each word of a result says of the tip and the tree: verified, that the tip already held the branch or
      has grown by it to stay; merged but unverified, that it was committed, checked and rejected; a conflict,
      that an open merge was recognised; a dirty tree, that this merge is still open; unread, that nothing was
      done. */
  lemma {:induction false} ResultSaysExactly(s: State, branch: string, w: World, green: Verifier)
    ensures var (next, r) := FoldOne(s, branch, w, green);
            var grown := next.tip == s.tip + [branch];
            var opens := w.headReads && !w.contained && (s.midMerge || w.merge.Conflicts?);
            && (r.verified <==> w.headReads && (w.contained || (grown && !Rejects(s, branch, w, green))))
            && (r.merged <==> r.verified || (Rejects(s, branch, w, green) && w.shaReads))
            && (r.conflict <==> opens && w.probes)
            && (r.dirty <==> r.conflict && next.midMerge)
            && (r.unread <==> !w.headReads)
            && (r.unread || (r.verified && w.contained) ==> next == s)
  {
    assert |s.tip + [branch]| == |s.tip| + 1;
  }

  /** A rollback that fails leaves a rejected branch on the tip; one that works never does. */
  lemma {:induction false} RollbackDecidesExactly(s: State, branch: string, w: World, green: Verifier)
    requires Rejects(s, branch, w, green)
    ensures var (next, r) := FoldOne(s, branch, w, green);
            !r.verified && (next == s <==> w.resets) && (next.tip == s.tip + [branch] <==> !w.resets)
  {
    assert |s.tip + [branch]| == |s.tip| + 1;
  }

  // --- The tree the verdict is about ---

  /** A fold that finds no open merge leaves one: a conflict that is not recognised or cannot be aborted,
      or a merge that is neither committed nor reset. */
  predicate Opens(w: World) {
    w.headReads && !w.contained
    && ((w.merge.Conflicts? && !(w.probes && w.aborts)) || (w.merge.Clean? && !w.commits && !w.resets))
  }

  /** An open merge outlives this fold. */
  predicate Outlives(w: World) {
    !w.headReads || w.contained || !(w.probes && w.aborts)
  }

  predicate OutlivesFrom(mid: bool, worlds: seq<World>, n: nat) {
    forall k :: n <= k < |worlds| && Reached(mid, worlds, k) ==> Outlives(worlds[k])
  }

  /** Fold `i` opens a merge that every later fold that runs leaves open. */
  predicate OpenedAt(mid: bool, worlds: seq<World>, i: nat)
    requires i < |worlds|
  {
    Reached(mid, worlds, i) && !MidAt(mid, worlds, i) && Opens(worlds[i]) && OutlivesFrom(mid, worlds, i + 1)
  }

  /** A merge that some fold opens, or that was open at the start, is closed by no later fold that runs. */
  predicate LeftOpen(mid: bool, worlds: seq<World>) {
    (mid && OutlivesFrom(mid, worlds, 0)) || exists i :: 0 <= i < |worlds| && OpenedAt(mid, worlds, i)
  }

  lemma {:induction false} OutlivesRest(mid: bool, worlds: seq<World>, n: nat)
    requires worlds != [] && !Cuts(mid, worlds[0])
    ensures OutlivesFrom(mid, worlds, n + 1) <==> OutlivesFrom(MidAfter(mid, worlds[0]), worlds[1..], n)
  {
    var rest, next := worlds[1..], MidAfter(mid, worlds[0]);
    forall k | n <= k < |rest| ensures Reached(mid, worlds, k + 1) <==> Reached(next, rest, k) {
      ReachedRest(mid, worlds, k);
    }
    if OutlivesFrom(mid, worlds, n + 1) {
      forall k | n <= k < |rest| && Reached(next, rest, k) ensures Outlives(rest[k]) {
        assert Reached(mid, worlds, k + 1) && rest[k] == worlds[k + 1];
      }
    }
    if OutlivesFrom(next, rest, n) {
      forall k | n + 1 <= k < |worlds| && Reached(mid, worlds, k) ensures Outlives(worlds[k]) {
        assert Reached(next, rest, k - 1) && rest[k - 1] == worlds[k];
      }
    }
  }

  lemma {:induction false} OutlivesAll(mid: bool, worlds: seq<World>)
    requires worlds != []
    ensures OutlivesFrom(mid, worlds, 0) <==> Outlives(worlds[0]) && OutlivesFrom(mid, worlds, 1)
  {
    assert Reached(mid, worlds, 0);
  }

  lemma {:induction false} OpensLater(mid: bool, worlds: seq<World>, i: nat)
    requires i + 1 < |worlds| && !Cuts(mid, worlds[0])
    ensures OpenedAt(mid, worlds, i + 1) <==> OpenedAt(MidAfter(mid, worlds[0]), worlds[1..], i)
  {
    ReachedRest(mid, worlds, i);
    OutlivesRest(mid, worlds, i + 1);
    assert worlds[i + 1] == worlds[1..][i];
  }

  lemma {:induction false} LeftOpenRest(mid: bool, worlds: seq<World>)
    requires worlds != [] && !Cuts(mid, worlds[0])
    ensures LeftOpen(mid, worlds) <==> LeftOpen(MidAfter(mid, worlds[0]), worlds[1..])
  {
    var rest, next := worlds[1..], MidAfter(mid, worlds[0]);
    OutlivesAll(mid, worlds);
    OutlivesRest(mid, worlds, 0);
    assert Reached(mid, worlds, 0) && MidAt(mid, worlds, 0) == mid;
    assert next <==> if mid then Outlives(worlds[0]) else Opens(worlds[0]);
    assert OpenedAt(mid, worlds, 0) <==> !mid && Opens(worlds[0]) && OutlivesFrom(mid, worlds, 1);
    if i :| 0 <= i < |worlds| && OpenedAt(mid, worlds, i) {
      if i > 0 {
        OpensLater(mid, worlds, i - 1);
        assert OpenedAt(next, rest, i - 1);
      }
    }
    if i :| 0 <= i < |rest| && OpenedAt(next, rest, i) {
      OpensLater(mid, worlds, i);
      assert OpenedAt(mid, worlds, i + 1);
    }
  }

  lemma {:induction false} LeftOpenByACut(mid: bool, worlds: seq<World>)
    requires worlds != [] && Cuts(mid, worlds[0])
    ensures LeftOpen(mid, worlds) <==> mid || worlds[0].headReads
  {
    assert Reached(mid, worlds, 0) && MidAt(mid, worlds, 0) == mid;
    forall k | 1 <= k < |worlds| ensures !Reached(mid, worlds, k) {
      ReachedRest(mid, worlds, k - 1);
    }
    OutlivesAll(mid, worlds);
    assert OpenedAt(mid, worlds, 0) <==> !mid && Opens(worlds[0]);
  }

  /** The fold ends mid-merge exactly when a merge it opened, by the outcomes of its git calls, is closed
      by none of the folds that still run. */
  lemma {:induction false} FoldEndsOpenExactly(s: State, order: seq<string>, worlds: seq<World>, green: Verifier)
    requires |order| == |worlds|
    ensures Fold(s, order, worlds, green).0.midMerge <==> LeftOpen(s.midMerge, worlds)
    decreases |order|
  {
    if order != [] {
      var (next, first) := FoldOne(s, order[0], worlds[0], green);
      OneFoldCuts(s, order[0], worlds[0], green);
      if Stops(first) {
        LeftOpenByACut(s.midMerge, worlds);
      } else {
        LeftOpenRest(s.midMerge, worlds);
        FoldEndsOpenExactly(next, order[1..], worlds[1..], green);
      }
    }
  }

  predicate CannotAbort(w: World) {
    w.headReads && !w.contained && w.merge.Conflicts? && !w.aborts
  }

  /** With working rollbacks and probes the fold ends mid-merge exactly when it comes to a conflict that
      cannot be aborted. */
  lemma {:induction false} OnlyAFailedAbortLeavesOneOpen(worlds: seq<World>)
    requires ResetsWork(worlds) && ProbesWork(worlds)
    ensures LeftOpen(false, worlds) <==>
              exists i :: 0 <= i < |worlds| && CannotAbort(worlds[i])
                          && forall j :: 0 <= j < i ==> !Cuts(false, worlds[j])
  {
    forall i | 0 <= i < |worlds| ensures !MidAt(false, worlds, i) && worlds[i] in worlds {
      NeverMid(worlds, i);
    }
    if i :| 0 <= i < |worlds| && CannotAbort(worlds[i]) && forall j :: 0 <= j < i ==> !Cuts(false, worlds[j]) {
      assert Reached(false, worlds, i) && Cuts(MidAt(false, worlds, i), worlds[i]);
      assert OpenedAt(false, worlds, i);
    }
  }

  /** The reported verdict is the verifier's on the final tip, whatever an open merge leaves in the tree,
      exactly when the fold does not end mid-merge. Then, if every rollback that was needed worked, it is
      red exactly when no branch was kept and the base itself is red. */
  lemma {:induction false} VerdictIsTheFinalTips(children: seq<Child>, worlds: seq<World>, green: Verifier)
    requires |worlds| == |MergeOrder(children)|
    ensures var order := MergeOrder(children);
            var (last, results) := Fold(State([], false), order, worlds, green);
            && (LeftOpen(false, worlds) <==>
                exists open :: ReportOn(children, results, TreeIsGreen(last, green, open)).verified != green(last.tip))
            && (!LeftOpen(false, worlds) && Stuck(State([], false), order, worlds, green) == 0 ==> forall open ::
                  ReportOn(children, results, TreeIsGreen(last, green, open)).verified
                  <==> (Kept(results, worlds) != [] || green([])))
  {
    var last := Fold(State([], false), MergeOrder(children), worlds, green).0;
    FoldEndsOpenExactly(State([], false), MergeOrder(children), worlds, green);
    TipCounts(State([], false), MergeOrder(children), worlds, green);
    assert last.midMerge ==> TreeIsGreen(last, green, !green(last.tip)) != green(last.tip);
  }

  /** One verified child whose conflict cannot be aborted: the tip is the base, nothing is stuck on it, and
      the verdict reported is the conflicted tree's, the opposite of the base's. */
  lemma ConflictedTreeIsReported(green: Verifier)
      returns (children: seq<Child>, worlds: seq<World>, openGreen: bool)
    ensures |worlds| == |MergeOrder(children)| == 1
    ensures var order := MergeOrder(children);
            var (last, results) := Fold(State([], false), order, worlds, green);
            && last.tip == [] && Stuck(State([], false), order, worlds, green) == 0
            && ReportOn(children, results, TreeIsGreen(last, green, openGreen)).verified != green([])
  {
    children := [Child("a", "task/a", true)];
    worlds := [World(true, false, Conflicts, true, false, true, true, true, true)];
    openGreen := !green([]);
    assert children[..0] == [] && MergeOrder(children) == ["task/a"];
  }
}
