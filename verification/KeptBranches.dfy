/** Delivery of verified work in the chat and build front doors: pinKeptBranch,
    capKeptBranches, mergeKeptBranch, applyKeptBranch (cmd/nilcore/chat.go), deliverBuild and
    the run-end sweep (cmd/nilcore/build.go), over a store of git refs. Every git call may
    fail; the way it fails is a parameter. A process may stop between any two ref updates. */
module KeptBranches {
  import opened Commits

  const KEPT := "nilcore/kept/"
  const TASK := "task/"
  const INTEGRATE := "integrate/"

  // --- Branch names ---

  function Flatten(s: string): (r: string)
    ensures |r| == |s|
    ensures forall i :: 0 <= i < |s| ==> r[i] == if s[i] == '/' then '-' else s[i]
  {
    seq(|s|, i requires 0 <= i < |s| => if s[i] == '/' then '-' else s[i])
  }

  function KeptName(branch: string): (r: string)
    ensures KEPT <= r
  {
    KEPT + Flatten(if TASK <= branch then branch[|TASK|..] else branch)
  }

  predicate Throwaway(branch: string) {
    TASK <= branch || "rebase/" <= branch || INTEGRATE <= branch || "read/" <= branch
  }

  lemma FlattenLeaf(s: string)
    requires '/' !in s
    ensures Flatten(s) == s
    ensures Flatten(INTEGRATE + s) == "integrate-" + s
  {
  }

  lemma KeptNameOfTask(id: string)
    requires '/' !in id
    ensures KeptName(TASK + id) == KEPT + id
  {
  }

  lemma KeptNameOfIntegration(suffix: string)
    requires '/' !in suffix
    ensures KeptName(INTEGRATE + suffix) == KEPT + ("integrate-" + suffix)
  {
    FlattenLeaf(suffix);
    assert (INTEGRATE + suffix)[0] != TASK[0];
  }

  lemma SameTail(prefix: string, x: string, y: string)
    ensures prefix + x == prefix + y <==> x == y
  {
    assert (prefix + x)[|prefix|..] == x && (prefix + y)[|prefix|..] == y;
  }

  /** Two drive tips share a kept name exactly when they are one branch, or a task whose id begins
      "integrate-" meets the integration branch of the same suffix. */
  lemma KeptNamesCollideExactly(x: string, y: string)
    requires '/' !in x && '/' !in y
    ensures KeptName(TASK + x) == KeptName(TASK + y) <==> x == y
    ensures KeptName(INTEGRATE + x) == KeptName(INTEGRATE + y) <==> x == y
    ensures KeptName(TASK + x) == KeptName(INTEGRATE + y) <==> x == "integrate-" + y
  {
    KeptNameOfTask(x);
    KeptNameOfTask(y);
    KeptNameOfIntegration(x);
    KeptNameOfIntegration(y);
    SameTail(KEPT, x, y);
    SameTail("integrate-", x, y);
    SameTail(KEPT, "integrate-" + x, "integrate-" + y);
    SameTail(KEPT, x, "integrate-" + y);
  }

  // --- The ref store ---

  datatype Head = Attached(branch: string) | Detached(commit: Commit)

  /** `midMerge` says MERGE_HEAD exists; `carried` is the kept branch the session persists. */
  datatype Store = Store(graph: Graph, refs: map<string, Commit>, head: Head, midMerge: bool, carried: string)

  predicate WellFormed(s: Store) {
    && (forall b :: b in s.refs ==> s.refs[b] < |s.graph|)
    && (match s.head case Attached(b) => b in s.refs case Detached(c) => c < |s.graph|)
  }

  /** The commit the base repository has checked out: what /apply and a promote land onto. */
  function Tip(s: Store): (c: Commit)
    requires WellFormed(s)
    ensures c < |s.graph|
  {
    match s.head
    case Attached(b) => s.refs[b]
    case Detached(c) => c
  }

  predicate CheckedOut(s: Store, branch: string) {
    s.head == Attached(branch)
  }

  /** git refuses to delete or force-move the branch that is checked out. */
  function Drop(s: Store, branch: string): (t: Store)
    requires WellFormed(s) && !CheckedOut(s, branch)
    ensures WellFormed(t) && Tip(t) == Tip(s)
  {
    s.(refs := s.refs - {branch})
  }

  function Point(s: Store, branch: string, c: Commit): (t: Store)
    requires WellFormed(s) && !CheckedOut(s, branch) && c < |s.graph|
    ensures WellFormed(t) && Tip(t) == Tip(s)
  {
    s.(refs := s.refs[branch := c])
  }

  function Move(s: Store, c: Commit): (t: Store)
    requires WellFormed(s) && c < |s.graph|
    ensures WellFormed(t) && Tip(t) == c
  {
    match s.head
    case Attached(b) => s.(refs := s.refs[b := c])
    case Detached(_) => s.(head := Detached(c))
  }

  function AddCommit(s: Store, parents: set<Commit>): (t: Store)
    requires WellFormed(s) && forall p :: p in parents ==> p < |s.graph|
    ensures WellFormed(t) && Tip(t) == Tip(s)
  {
    s.(graph := s.graph + [parents])
  }

  /** `git merge --ff` when it succeeds: already up to date, a fast-forward, or a merge commit. */
  function Merged(s: Store, c: Commit): (t: Store)
    requires WellFormed(s) && c < |s.graph|
    ensures WellFormed(t)
  {
    if Ancestor(s.graph, c, Tip(s)) then s
    else if Ancestor(s.graph, Tip(s), c) then Move(s, c)
    else Move(AddCommit(s, {Tip(s), c}), |s.graph|)
  }

  predicate Diverged(s: Store, c: Commit)
    requires WellFormed(s) && c < |s.graph|
  {
    !Ancestor(s.graph, c, Tip(s)) && !Ancestor(s.graph, Tip(s), c)
  }

  // --- The delivery steps: the successive durable states each one writes ---

  /** Which git calls of a pin succeed. */
  datatype PinWorld = PinWorld(resolves: bool, pins: bool, deletes: bool)

  datatype MergeWorld = MergeWorld(starts: bool, conflicts: bool, probes: bool, aborts: bool, readsTip: bool)

  datatype MergeResult = Landed | TipUnread | Conflict(aborted: bool) | Refused

  function PinTrace(s: Store, branch: string, w: PinWorld): (r: (seq<Store>, string))
    requires WellFormed(s)
    ensures forall i :: 0 <= i < |r.0| ==> WellFormed(r.0[i])
  {
    var kept := KeptName(branch);
    if branch == "" || KEPT <= branch || branch !in s.refs || !w.resolves || !w.pins || CheckedOut(s, kept) then
      ([], branch)
    else
      var pinned := Point(s, kept, s.refs[branch]);
      if CheckedOut(s, branch) || !w.deletes then ([pinned], kept)
      else ([pinned, Drop(pinned, branch)], kept)
  }

  function MergeTrace(s: Store, branch: string, w: MergeWorld): (r: (seq<Store>, MergeResult))
    requires WellFormed(s)
    ensures forall i :: 0 <= i < |r.0| ==> WellFormed(r.0[i])
  {
    if s.midMerge then
      if !w.probes then ([], Refused) else (if w.aborts then [s.(midMerge := false)] else [], Conflict(w.aborts))
    else if branch !in s.refs || !w.starts then ([], Refused)
    else if w.conflicts && Diverged(s, s.refs[branch]) then
      var started := s.(midMerge := true);
      if !w.probes then ([started], Refused)
      else ([started] + (if w.aborts then [s] else []), Conflict(w.aborts))
    else
      ([Merged(s, s.refs[branch])], if w.readsTip then Landed else TipUnread)
  }

  /** The best-effort delete that follows a landed merge. */
  function Reclaim(s: Store, branch: string, deletes: bool): (r: seq<Store>)
    requires WellFormed(s)
    ensures forall i :: 0 <= i < |r| ==> WellFormed(r[i])
  {
    if branch in s.refs && !CheckedOut(s, branch) && deletes then [Drop(s, branch)] else []
  }

  function Last(s: Store, trace: seq<Store>): (t: Store)
    requires WellFormed(s) && forall i :: 0 <= i < |trace| ==> WellFormed(trace[i])
    ensures WellFormed(t)
  {
    if trace == [] then s else trace[|trace| - 1]
  }

  /** A merge and, once it landed, the reclaim of the merged branch: the tail both front doors share. */
  function LandTrace(s: Store, branch: string, w: MergeWorld, deletes: bool): (r: (seq<Store>, MergeResult))
    requires WellFormed(s)
    ensures forall i :: 0 <= i < |r.0| ==> WellFormed(r.0[i])
  {
    var (merge, result) := MergeTrace(s, branch, w);
    (merge + (if result.Landed? then Reclaim(Last(s, merge), branch, deletes) else []), result)
  }

  datatype ApplyWorld = ApplyWorld(idle: bool, approved: bool, merge: MergeWorld, deletes: bool)

  /** /apply of the carried branch, behind the gate. */
  function ApplyTrace(s: Store, w: ApplyWorld): (r: seq<Store>)
    requires WellFormed(s)
    ensures forall i :: 0 <= i < |r| ==> WellFormed(r[i])
  {
    if s.carried == "" || !w.idle || s.head.Detached? || s.carried !in s.refs || !w.approved then []
    else
      var (land, result) := LandTrace(s, s.carried, w.merge, w.deletes);
      if result.Landed? then land + [Last(s, land).(carried := "")] else land
  }

  datatype BuildOutcome = BuildOutcome(done: bool, branch: string, promoted: bool)

  function DeliverTrace(s: Store, out: BuildOutcome, pin: PinWorld, merge: MergeWorld, deletes: bool): (r: seq<Store>)
    requires WellFormed(s)
    ensures forall i :: 0 <= i < |r| ==> WellFormed(r[i])
  {
    if !out.done || out.branch == "" then []
    else
      var (pinned, kept) := PinTrace(s, out.branch, pin);
      if out.promoted then pinned + LandTrace(Last(s, pinned), kept, merge, deletes).0 else pinned
  }

  /** The sweep, stopped after it removed `gone` (faults and a crash leave any part undone). */
  function Swept(s: Store, gone: set<string>): (t: Store)
    requires WellFormed(s)
    ensures WellFormed(t) && Tip(t) == Tip(s)
  {
    s.(refs := s.refs - (set b | b in gone && Throwaway(b) && !CheckedOut(s, b)))
  }

  /** A supervised chat drive's end: a done run's tip is pinned, the sweep runs, and the session
      carries the kept branch, if any. */
  function DriveTrace(s: Store, done: bool, branch: string, pin: PinWorld, gone: set<string>): (r: seq<Store>)
    requires WellFormed(s)
    ensures forall i :: 0 <= i < |r| ==> WellFormed(r[i])
  {
    var (pinned, kept) := if done then PinTrace(s, branch, pin) else ([], "");
    var swept := Swept(Last(s, pinned), gone);
    pinned + [swept] + (if kept == "" then [] else [swept.(carried := kept)])
  }

  const KEEP: nat := 20

  /** The surplus maint.Cap tries to remove from a newest-first listing: past the first `keep`
      members everything that is not active. */
  function Surplus(listing: seq<string>, active: string, kept: nat, keep: nat): (r: seq<string>)
    decreases |listing|
  {
    if listing == [] then []
    else if listing[0] == active then Surplus(listing[1..], active, kept + 1, keep)
    else if kept < keep then Surplus(listing[1..], active, kept + 1, keep)
    else [listing[0]] + Surplus(listing[1..], active, kept, keep)
  }

  function PruneTrace(s: Store, names: seq<string>, failing: set<string>): (r: seq<Store>)
    requires WellFormed(s)
    ensures forall i :: 0 <= i < |r| ==> WellFormed(r[i])
    decreases |names|
  {
    if names == [] then []
    else if names[0] in failing || names[0] !in s.refs || CheckedOut(s, names[0]) then
      PruneTrace(s, names[1..], failing)
    else [Drop(s, names[0])] + PruneTrace(Drop(s, names[0]), names[1..], failing)
  }

  // --- Reachability of verified work ---

  /** `c` cannot be collected and survives every sweep: it is reachable from the checked-out
      commit or from a branch under nilcore/kept/. */
  ghost predicate Covered(s: Store, c: Commit)
    requires WellFormed(s)
  {
    Ancestor(s.graph, c, Tip(s)) || exists k :: k in s.refs && KEPT <= k && Ancestor(s.graph, c, s.refs[k])
  }

  ghost predicate AllCovered(trace: seq<Store>, c: Commit)
    requires forall i :: 0 <= i < |trace| ==> WellFormed(trace[i])
  {
    forall i :: 0 <= i < |trace| ==> Covered(trace[i], c)
  }

  /** `c` is covered without the branches `gone`. */
  ghost predicate CoveredBeyond(s: Store, gone: set<string>, c: Commit)
    requires WellFormed(s)
  {
    || Ancestor(s.graph, c, Tip(s))
    || exists k :: k in s.refs && k !in gone && KEPT <= k && Ancestor(s.graph, c, s.refs[k])
  }

  /** Dropping a branch costs no covered commit when the branch is no cover, or has landed. */
  lemma {:induction false} DropKeeps(s: Store, b: string, c: Commit)
    requires WellFormed(s) && !CheckedOut(s, b) && Covered(s, c)
    requires KEPT <= b && b in s.refs ==> Ancestor(s.graph, s.refs[b], Tip(s)) || !Ancestor(s.graph, c, s.refs[b])
    ensures Covered(Drop(s, b), c)
  {
    if !Ancestor(s.graph, c, Tip(s)) {
      var k :| k in s.refs && KEPT <= k && Ancestor(s.graph, c, s.refs[k]);
      if k == b {
        AncestorTransitive(s.graph, c, s.refs[b], Tip(s));
      } else {
        assert k in Drop(s, b).refs;
      }
    }
  }

  lemma {:induction false} PointKeeps(s: Store, b: string, c0: Commit, c: Commit)
    requires WellFormed(s) && !CheckedOut(s, b) && c0 < |s.graph| && Covered(s, c) && !(KEPT <= b)
    ensures Covered(Point(s, b, c0), c)
  {
    if !Ancestor(s.graph, c, Tip(s)) {
      var k :| k in s.refs && KEPT <= k && Ancestor(s.graph, c, s.refs[k]);
      assert k in Point(s, b, c0).refs;
    }
  }

  /** Overwriting a kept branch keeps a commit exactly when it is covered elsewhere or the new tip has it. */
  lemma {:induction false} OverwriteCovers(s: Store, b: string, c0: Commit, c: Commit)
    requires WellFormed(s) && !CheckedOut(s, b) && c0 < |s.graph| && KEPT <= b
    ensures Covered(Point(s, b, c0), c) <==> CoveredBeyond(s, {b}, c) || Ancestor(s.graph, c, c0)
  {
    var t := Point(s, b, c0);
    if k :| k in s.refs && k !in {b} && KEPT <= k && Ancestor(s.graph, c, s.refs[k]) {
      assert k in t.refs && t.refs[k] == s.refs[k];
    }
    if Ancestor(s.graph, c, c0) {
      assert b in t.refs && t.refs[b] == c0;
    }
    if k :| k in t.refs && KEPT <= k && Ancestor(t.graph, c, t.refs[k]) {
      assert k != b ==> k in s.refs && k !in {b};
    }
  }

  lemma {:induction false} AddCommitKeeps(s: Store, parents: set<Commit>, c: Commit)
    requires WellFormed(s) && (forall p :: p in parents ==> p < |s.graph|) && Covered(s, c)
    ensures Covered(AddCommit(s, parents), c)
  {
    AncestorStable(s.graph, parents, c, Tip(s));
    if !Ancestor(s.graph, c, Tip(s)) {
      var k :| k in s.refs && KEPT <= k && Ancestor(s.graph, c, s.refs[k]);
      AncestorStable(s.graph, parents, c, s.refs[k]);
      assert k in AddCommit(s, parents).refs;
    }
  }

  /** Advancing the checked-out commit to a descendant keeps every covered commit. */
  lemma {:induction false} MoveKeeps(s: Store, to: Commit, c: Commit)
    requires WellFormed(s) && to < |s.graph| && Ancestor(s.graph, Tip(s), to) && Covered(s, c)
    ensures Covered(Move(s, to), c)
  {
    if Ancestor(s.graph, c, Tip(s)) {
      AncestorTransitive(s.graph, c, Tip(s), to);
    } else {
      var k :| k in s.refs && KEPT <= k && Ancestor(s.graph, c, s.refs[k]);
      assert k in Move(s, to).refs;
    }
  }

  /** A merge that succeeds contains both sides: the old tip and the merged commit. */
  lemma {:induction false} MergedContains(s: Store, c0: Commit)
    requires WellFormed(s) && c0 < |s.graph|
    ensures var t := Merged(s, c0);
            |s.graph| <= |t.graph| && Ancestor(t.graph, Tip(s), Tip(t)) && Ancestor(t.graph, c0, Tip(t))
  {
    if Diverged(s, c0) {
      var parents := {Tip(s), c0};
      var g := AddCommit(s, parents).graph;
      assert g[|s.graph|] == parents;
      assert Tip(s) in g[|s.graph|] && Ancestor(g, Tip(s), Tip(s));
      assert c0 in g[|s.graph|] && Ancestor(g, c0, c0);
    }
  }

  lemma {:induction false} MergedKeeps(s: Store, c0: Commit, c: Commit)
    requires WellFormed(s) && c0 < |s.graph| && Covered(s, c)
    ensures Covered(Merged(s, c0), c)
  {
    MergedContains(s, c0);
    if Diverged(s, c0) {
      AddCommitKeeps(s, {Tip(s), c0}, c);
      MoveKeeps(AddCommit(s, {Tip(s), c0}), |s.graph|, c);
    } else if !Ancestor(s.graph, c0, Tip(s)) {
      MoveKeeps(s, c0, c);
    }
  }

  /** A pin that lands costs `c` nothing: `c` is covered beside the kept name it writes, or the new tip
      contains it. */
  ghost predicate PinSpares(s: Store, branch: string, w: PinWorld, c: Commit)
    requires WellFormed(s)
  {
    PinTrace(s, branch, w).0 != [] ==>
      CoveredBeyond(s, {KeptName(branch)}, c) || Ancestor(s.graph, c, s.refs[branch])
  }

  lemma {:induction false} PinKeepsExactly(s: Store, branch: string, w: PinWorld, c: Commit)
    requires WellFormed(s) && Covered(s, c)
    ensures AllCovered(PinTrace(s, branch, w).0, c) <==> PinSpares(s, branch, w, c)
    ensures Covered(Last(s, PinTrace(s, branch, w).0), c) <==> PinSpares(s, branch, w, c)
  {
    var (trace, kept) := PinTrace(s, branch, w);
    if trace != [] {
      OverwriteCovers(s, kept, s.refs[branch], c);
      assert Covered(trace[0], c) <==> PinSpares(s, branch, w, c);
      if |trace| == 2 {
        DropOther(trace[0], branch, c);
        assert trace[1] == Drop(trace[0], branch);
      }
    }
  }

  lemma {:induction false} DropOther(s: Store, b: string, c: Commit)
    requires WellFormed(s) && !CheckedOut(s, b) && !(KEPT <= b)
    ensures Covered(Drop(s, b), c) <==> Covered(s, c)
  {
    if k :| k in s.refs && KEPT <= k && Ancestor(s.graph, c, s.refs[k]) {
      assert k in Drop(s, b).refs;
    }
    if k :| k in Drop(s, b).refs && KEPT <= k && Ancestor(s.graph, c, Drop(s, b).refs[k]) {
      assert k in s.refs;
    }
  }

  /** A pin that returns a kept name covers the verified tip, from its first ref update on. */
  lemma {:induction false} PinCovers(s: Store, branch: string, w: PinWorld)
    requires WellFormed(s) && branch in s.refs && !(KEPT <= branch) && KEPT <= PinTrace(s, branch, w).1
    ensures PinTrace(s, branch, w).0 != [] && AllCovered(PinTrace(s, branch, w).0, s.refs[branch])
  {
    var (trace, kept) := PinTrace(s, branch, w);
    forall i | 0 <= i < |trace| ensures Covered(trace[i], s.refs[branch]) {
      assert kept in trace[i].refs && trace[i].refs[kept] == s.refs[branch];
    }
  }

  lemma {:induction false} MergeKeeps(s: Store, branch: string, w: MergeWorld, c: Commit)
    requires WellFormed(s) && Covered(s, c)
    ensures AllCovered(MergeTrace(s, branch, w).0, c)
    ensures Covered(Last(s, MergeTrace(s, branch, w).0), c)
  {
    if branch in s.refs {
      MergedKeeps(s, s.refs[branch], c);
    }
    forall x: Store | x == s.(midMerge := true) || x == s.(midMerge := false) ensures Covered(x, c) {
      if !Ancestor(s.graph, c, Tip(s)) {
        var k :| k in s.refs && KEPT <= k && Ancestor(s.graph, c, s.refs[k]);
        assert k in x.refs;
      }
    }
  }

  /** What a merge leaves behind: landed or not, only a merge that landed (or landed with its new
      tip unread) moves the checked-out commit, and then it contains the branch. A refusal leaves a
      merge in progress exactly when one started, or was there, and the probe for it failed. */
  lemma {:induction false} MergeOutcome(s: Store, branch: string, w: MergeWorld)
    requires WellFormed(s)
    ensures var (trace, result) := MergeTrace(s, branch, w);
            var t := Last(s, trace);
            && (result.Landed? || result.TipUnread? ==>
                  branch in s.refs && branch in t.refs && |s.graph| <= |t.graph|
                      && Ancestor(t.graph, t.refs[branch], Tip(t))
                  && Ancestor(t.graph, s.refs[branch], Tip(t)) && Ancestor(t.graph, Tip(s), Tip(t)))
            && (result.Conflict? || result.Refused? ==> t.refs == s.refs && t.head == s.head && t.graph == s.graph)
            && (result == Conflict(true) ==> !t.midMerge)
            && (result.Refused? ==> (t.midMerge <==> s.midMerge || trace != []) && (t.midMerge ==> !w.probes))
  {
    if !s.midMerge && branch in s.refs {
      MergedContains(s, s.refs[branch]);
    }
  }

  /** A merge reported as failed leaves the base where it was, exactly unless its new tip went unread
      and the branch was not on the base before. */
  lemma {:induction false} FailedMergeMovesBaseExactly(s: Store, branch: string, w: MergeWorld)
    requires WellFormed(s) && !MergeTrace(s, branch, w).1.Landed?
    ensures var (trace, result) := MergeTrace(s, branch, w);
            Tip(Last(s, trace)) == Tip(s) <==> (result.TipUnread? ==> Ancestor(s.graph, s.refs[branch], Tip(s)))
  {
    var (trace, result) := MergeTrace(s, branch, w);
    if result.TipUnread? {
      var c := s.refs[branch];
      assert trace == [Merged(s, c)] && Ancestor(s.graph, Tip(s), Tip(s));
    }
  }

  /** The new tip cannot be read: the caller is told the base is unchanged, and it has moved. */
  lemma UnreadTipMovesTheBase() returns (s: Store, w: MergeWorld)
    ensures WellFormed(s) && MergeTrace(s, KEPT + "x", w).1 == TipUnread
    ensures Tip(Last(s, MergeTrace(s, KEPT + "x", w).0)) != Tip(s)
  {
    var kept := KEPT + "x";
    assert kept[0] == 'n' && "main"[0] == 'm';
    s := Store([{}, {0}], map["main" := 0, kept := 1], Attached("main"), false, "");
    w := MergeWorld(true, false, true, true, false);
    assert !Ancestor(s.graph, 1, 0);
    FailedMergeMovesBaseExactly(s, kept, w);
  }

  /** A merge the operator had in progress is the one that gets aborted, exactly when its probe and its
      abort work; the branch is not merged in any case. */
  lemma {:induction false} ForeignMergeIsAborted(s: Store, branch: string, w: MergeWorld)
    requires WellFormed(s) && s.midMerge
    ensures var (trace, result) := MergeTrace(s, branch, w);
            && Last(s, trace) == s.(midMerge := !(w.probes && w.aborts))
            && result == if w.probes then Conflict(w.aborts) else Refused
  {
  }

  lemma {:induction false} ReclaimKeeps(s: Store, branch: string, deletes: bool, c: Commit)
    requires WellFormed(s) && Covered(s, c)
    requires branch in s.refs ==> Ancestor(s.graph, s.refs[branch], Tip(s))
    ensures AllCovered(Reclaim(s, branch, deletes), c) && Covered(Last(s, Reclaim(s, branch, deletes)), c)
  {
    if branch in s.refs && !CheckedOut(s, branch) {
      DropKeeps(s, branch, c);
    }
  }

  lemma {:induction false} SessionKeeps(s: Store, carried: string, c: Commit)
    requires WellFormed(s) && Covered(s, c)
    ensures Covered(s.(carried := carried), c)
  {
  }

  lemma {:induction false} LandKeeps(s: Store, branch: string, w: MergeWorld, deletes: bool, c: Commit)
    requires WellFormed(s) && Covered(s, c)
    ensures AllCovered(LandTrace(s, branch, w, deletes).0, c)
    ensures Covered(Last(s, LandTrace(s, branch, w, deletes).0), c)
  {
    MergeKeeps(s, branch, w, c);
    MergeOutcome(s, branch, w);
    var (merge, result) := MergeTrace(s, branch, w);
    if result.Landed? {
      ReclaimKeeps(Last(s, merge), branch, deletes, c);
    }
  }

  lemma {:induction false} ApplyKeeps(s: Store, w: ApplyWorld, c: Commit)
    requires WellFormed(s) && Covered(s, c)
    ensures AllCovered(ApplyTrace(s, w), c)
  {
    LandKeeps(s, s.carried, w.merge, w.deletes, c);
    SessionKeeps(Last(s, LandTrace(s, s.carried, w.merge, w.deletes).0), "", c);
  }

  lemma {:induction false} DeliverKeeps(s: Store, out: BuildOutcome, pin: PinWorld, merge: MergeWorld, deletes: bool,
      c: Commit)
    requires WellFormed(s) && Covered(s, c) && (out.done ==> PinSpares(s, out.branch, pin, c))
    ensures AllCovered(DeliverTrace(s, out, pin, merge, deletes), c)
  {
    if out.done {
      PinKeepsExactly(s, out.branch, pin, c);
      var (pinned, kept) := PinTrace(s, out.branch, pin);
      LandKeeps(Last(s, pinned), kept, merge, deletes, c);
    }
  }

  lemma {:induction false} SweepKeeps(s: Store, gone: set<string>, c: Commit)
    requires WellFormed(s) && Covered(s, c)
    ensures Covered(Swept(s, gone), c)
  {
    if !Ancestor(s.graph, c, Tip(s)) {
      var k :| k in s.refs && KEPT <= k && Ancestor(s.graph, c, s.refs[k]);
      assert k[0] == 'n' && !Throwaway(k);
      assert k in Swept(s, gone).refs;
    }
  }

  /** A drive's end keeps `c` at every cut exactly when its pin does: the pin precedes the sweep, and
      the sweep costs nothing. */
  lemma {:induction false} DriveKeepsExactly(
      s: Store, done: bool, branch: string, pin: PinWorld, gone: set<string>, c: Commit)
    requires WellFormed(s) && Covered(s, c)
    ensures AllCovered(DriveTrace(s, done, branch, pin, gone), c) <==> (done ==> PinSpares(s, branch, pin, c))
  {
    var (pinned, kept) := if done then PinTrace(s, branch, pin) else ([], "");
    var trace := DriveTrace(s, done, branch, pin, gone);
    if done {
      PinKeepsExactly(s, branch, pin, c);
      forall i | 0 <= i < |pinned| ensures trace[i] == pinned[i] {
      }
    }
    if Covered(Last(s, pinned), c) {
      SweepKeeps(Last(s, pinned), gone, c);
      SessionKeeps(Swept(Last(s, pinned), gone), kept, c);
    }
  }

  /** What a prune of `names` really removes. */
  function Removed(s: Store, names: seq<string>, failing: set<string>): (r: set<string>) {
    set b | b in names && b !in failing && !CheckedOut(s, b)
  }

  lemma {:induction false} PruneEnds(s: Store, names: seq<string>, failing: set<string>)
    requires WellFormed(s)
    ensures Last(s, PruneTrace(s, names, failing)) == s.(refs := s.refs - Removed(s, names, failing))
    decreases |names|
  {
    if names != [] {
      var rest := names[1..];
      assert names == [names[0]] + rest;
      if names[0] in failing || names[0] !in s.refs || CheckedOut(s, names[0]) {
        PruneEnds(s, rest, failing);
      } else {
        PruneEnds(Drop(s, names[0]), rest, failing);
      }
    }
  }

  lemma {:induction false} PruneKeeps(s: Store, names: seq<string>, failing: set<string>, gone: set<string>, c: Commit)
    requires WellFormed(s) && CoveredBeyond(s, gone, c) && Removed(s, names, failing) <= gone
    ensures AllCovered(PruneTrace(s, names, failing), c)
    decreases |names|
  {
    if names != [] {
      var rest := names[1..];
      if names[0] in failing || names[0] !in s.refs || CheckedOut(s, names[0]) {
        PruneKeeps(s, rest, failing, gone, c);
      } else {
        var t := Drop(s, names[0]);
        assert names[0] in Removed(s, names, failing);
        if k :| k in s.refs && k !in gone && KEPT <= k && Ancestor(s.graph, c, s.refs[k]) {
          assert k in t.refs && t.refs[k] == s.refs[k];
        }
        PruneKeeps(t, rest, failing, gone, c);
      }
    }
  }

  /** Pruning costs exactly the commits that only the removed branches held. */
  lemma {:induction false} PruneKeepsExactly(s: Store, names: seq<string>, failing: set<string>, c: Commit)
    requires WellFormed(s)
    ensures CoveredBeyond(s, Removed(s, names, failing), c) ==> AllCovered(PruneTrace(s, names, failing), c)
    ensures CoveredBeyond(s, Removed(s, names, failing), c) <==> Covered(Last(s, PruneTrace(s, names, failing)), c)
  {
    var gone := Removed(s, names, failing);
    PruneEnds(s, names, failing);
    var t := Last(s, PruneTrace(s, names, failing));
    if CoveredBeyond(s, gone, c) {
      PruneKeeps(s, names, failing, gone, c);
      if k :| k in s.refs && k !in gone && KEPT <= k && Ancestor(s.graph, c, s.refs[k]) {
        assert k in t.refs;
      }
    }
    if k :| k in t.refs && KEPT <= k && Ancestor(t.graph, c, t.refs[k]) {
      assert k in s.refs && k !in gone;
    }
  }

  // --- Whole runs, with a crash allowed after any ref update ---

  datatype Op =
    | Pin(branch: string, pin: PinWorld)
    | Drive(done: bool, branch: string, pin: PinWorld, gone: set<string>)
    | Deliver(out: BuildOutcome, pin: PinWorld, merge: MergeWorld, deletes: bool)
    | Apply(apply: ApplyWorld)
    | Cap(listing: seq<string>, active: string, failing: set<string>)
    | Sweep(gone: set<string>)
    | NewCommit(branch: string, parents: set<Commit>) // a worker or the operator commits

  function Trace(s: Store, op: Op): (r: seq<Store>)
    requires WellFormed(s)
    ensures forall i :: 0 <= i < |r| ==> WellFormed(r[i])
  {
    match op
    case Pin(branch, pin) => PinTrace(s, branch, pin).0
    case Drive(done, branch, pin, gone) => DriveTrace(s, done, branch, pin, gone)
    case Deliver(out, pin, merge, deletes) => DeliverTrace(s, out, pin, merge, deletes)
    case Apply(apply) => ApplyTrace(s, apply)
    case Cap(listing, active, failing) => PruneTrace(s, Surplus(listing, active, 0, KEEP), failing)
    case Sweep(gone) => [Swept(s, gone)]
    case NewCommit(branch, parents) =>
      if KEPT <= branch || !(forall p :: p in parents ==> p < |s.graph|) then []
      else if CheckedOut(s, branch) then [Move(AddCommit(s, parents + {Tip(s)}), |s.graph|)]
      else [Point(AddCommit(s, parents), branch, |s.graph|)]
  }

  /** `op` interrupted after `cut` ref updates; a large `cut` lets it finish. */
  function After(s: Store, op: Op, cut: nat): (t: Store)
    requires WellFormed(s)
    ensures WellFormed(t)
  {
    var trace := Trace(s, op);
    Last(s, if cut <= |trace| then trace[..cut] else trace)
  }

  function End(s: Store, run: seq<(Op, nat)>): (t: Store)
    requires WellFormed(s)
    ensures WellFormed(t)
    decreases |run|
  {
    if run == [] then s else End(After(s, run[0].0, run[0].1), run[1..])
  }

  /** The two ways the layer gives up `c`: a pin that overwrites the last kept branch holding it with
      work that does not contain it, and the age cap removing the last branches that hold it. */
  ghost predicate Spares(s: Store, op: Op, c: Commit)
    requires WellFormed(s)
  {
    match op
    case Pin(branch, pin) => PinSpares(s, branch, pin, c)
    case Drive(done, branch, pin, _) => done ==> PinSpares(s, branch, pin, c)
    case Deliver(out, pin, _, _) => out.done ==> PinSpares(s, out.branch, pin, c)
    case Cap(_, _, _) => CapSpares(s, op, c)
    case _ => true
  }

  /** A cap that runs to its end leaves `c` a cover. */
  ghost predicate CapSpares(s: Store, op: Op, c: Commit)
    requires WellFormed(s)
  {
    op.Cap? ==> CoveredBeyond(s, Removed(s, Surplus(op.listing, op.active, 0, KEEP), op.failing), c)
  }

  ghost predicate SparingRun(s: Store, run: seq<(Op, nat)>, c: Commit)
    requires WellFormed(s)
    decreases |run|
  {
    run == [] || (Spares(s, run[0].0, c) && SparingRun(After(s, run[0].0, run[0].1), run[1..], c))
  }

  lemma {:induction false} NewCommitKeeps(s: Store, branch: string, parents: set<Commit>, c: Commit)
    requires WellFormed(s) && Covered(s, c)
    ensures AllCovered(Trace(s, NewCommit(branch, parents)), c)
  {
    if !(KEPT <= branch) && forall p :: p in parents ==> p < |s.graph| {
      if CheckedOut(s, branch) {
        var all := parents + {Tip(s)};
        var t := AddCommit(s, all);
        AddCommitKeeps(s, all, c);
        assert Tip(s) in t.graph[|s.graph|] && Ancestor(t.graph, Tip(s), Tip(s));
        MoveKeeps(t, |s.graph|, c);
      } else {
        AddCommitKeeps(s, parents, c);
        PointKeeps(AddCommit(s, parents), branch, |s.graph|, c);
      }
    }
  }

  lemma {:induction false} OpKeeps(s: Store, op: Op, c: Commit)
    requires WellFormed(s) && Covered(s, c) && Spares(s, op, c)
    ensures AllCovered(Trace(s, op), c)
  {
    match op {
      case Pin(branch, pin) => PinKeepsExactly(s, branch, pin, c);
      case Drive(done, branch, pin, gone) => DriveKeepsExactly(s, done, branch, pin, gone, c);
      case Deliver(out, pin, merge, deletes) => DeliverKeeps(s, out, pin, merge, deletes, c);
      case Apply(apply) => ApplyKeeps(s, apply, c);
      case Cap(listing, active, failing) => PruneKeepsExactly(s, Surplus(listing, active, 0, KEEP), failing, c);
      case Sweep(gone) => SweepKeeps(s, gone, c);
      case NewCommit(branch, parents) => NewCommitKeeps(s, branch, parents, c);
    }
  }

  /** Verified work never becomes unreachable: over every run of pins, drives, promotes, applies,
      sweeps, caps and commits, each cut short anywhere and with any git call failing, a covered
      commit stays covered until a pin overwrites, or the cap removes, the last kept branch holding it. */
  lemma {:induction false} CoveredWorkStaysCovered(s: Store, run: seq<(Op, nat)>, c: Commit)
    requires WellFormed(s) && Covered(s, c) && SparingRun(s, run, c)
    ensures Covered(End(s, run), c)
    decreases |run|
  {
    if run != [] {
      OpKeeps(s, run[0].0, c);
      CoveredWorkStaysCovered(After(s, run[0].0, run[0].1), run[1..], c);
    }
  }

  /** From a successful pin to the end of any such run. */
  lemma PinnedWorkSurvives(s: Store, branch: string, w: PinWorld, cut: nat, run: seq<(Op, nat)>)
    requires WellFormed(s) && branch in s.refs && !(KEPT <= branch)
    requires KEPT <= PinTrace(s, branch, w).1 && cut > 0
    requires SparingRun(After(s, Pin(branch, w), cut), run, s.refs[branch])
    ensures Covered(End(After(s, Pin(branch, w), cut), run), s.refs[branch])
  {
    PinCovers(s, branch, w);
    CoveredWorkStaysCovered(After(s, Pin(branch, w), cut), run, s.refs[branch]);
  }

  /** In particular for the work that an occupied kept name held. */
  lemma {:induction false} OverwriteKeepsExactly(s: Store, branch: string, w: PinWorld)
    requires WellFormed(s) && KeptName(branch) in s.refs && PinTrace(s, branch, w).0 != []
    ensures var kept := KeptName(branch);
            var held := s.refs[kept];
            Covered(Last(s, PinTrace(s, branch, w).0), held) <==>
              || Ancestor(s.graph, held, s.refs[branch])
              || Ancestor(s.graph, held, Tip(s))
              || exists k :: k in s.refs && k != kept && KEPT <= k && Ancestor(s.graph, held, s.refs[k])
  {
    var kept := KeptName(branch);
    var held := s.refs[kept];
    assert Ancestor(s.graph, held, s.refs[kept]) && Covered(s, held);
    PinKeepsExactly(s, branch, w, held);
  }

  // --- Only landed branches are deleted ---

  /** A promote or an apply deletes a kept branch only when its commit has landed: at every ref
      update, a kept branch that disappears is an ancestor of the checked-out commit. */
  ghost predicate OnlyLandedGoes(s: Store, t: Store)
    requires WellFormed(s)
  {
    forall k :: k in s.refs && KEPT <= k && k !in t.refs ==> Ancestor(s.graph, s.refs[k], Tip(s))
  }

  ghost predicate OnlyLandedGo(s: Store, trace: seq<Store>)
    requires WellFormed(s) && forall i :: 0 <= i < |trace| ==> WellFormed(trace[i])
    decreases |trace|
  {
    trace == [] || (OnlyLandedGoes(s, trace[0]) && OnlyLandedGo(trace[0], trace[1..]))
  }

  lemma {:induction false} MergeDeletesNothing(s: Store, branch: string, w: MergeWorld)
    requires WellFormed(s)
    ensures OnlyLandedGo(s, MergeTrace(s, branch, w).0)
  {
  }

  lemma {:induction false} OnlyLandedGoConcat(s: Store, a: seq<Store>, b: seq<Store>)
    requires WellFormed(s)
    requires (forall i :: 0 <= i < |a| ==> WellFormed(a[i])) && (forall i :: 0 <= i < |b| ==> WellFormed(b[i]))
    requires OnlyLandedGo(s, a) && OnlyLandedGo(Last(s, a), b)
    ensures OnlyLandedGo(s, a + b)
    decreases |a|
  {
    if a == [] {
      assert a + b == b;
    } else {
      OnlyLandedGoConcat(a[0], a[1..], b);
      assert (a + b)[1..] == a[1..] + b;
    }
  }

  lemma {:induction false} ReclaimDeletesLanded(s: Store, branch: string, deletes: bool)
    requires WellFormed(s)
    requires branch in s.refs && KEPT <= branch ==> Ancestor(s.graph, s.refs[branch], Tip(s))
    ensures OnlyLandedGo(s, Reclaim(s, branch, deletes))
  {
  }

  lemma {:induction false} PinDeletesNothingKept(s: Store, branch: string, w: PinWorld)
    requires WellFormed(s)
    ensures OnlyLandedGo(s, PinTrace(s, branch, w).0)
  {
  }

  lemma {:induction false} LandDeletesOnlyLanded(s: Store, branch: string, w: MergeWorld, deletes: bool)
    requires WellFormed(s)
    ensures OnlyLandedGo(s, LandTrace(s, branch, w, deletes).0)
  {
    var (merge, result) := MergeTrace(s, branch, w);
    MergeDeletesNothing(s, branch, w);
    if result.Landed? {
      MergeOutcome(s, branch, w);
      ReclaimDeletesLanded(Last(s, merge), branch, deletes);
      OnlyLandedGoConcat(s, merge, Reclaim(Last(s, merge), branch, deletes));
    } else {
      assert merge + [] == merge;
    }
  }

  lemma {:induction false} ApplyDeletesOnlyLanded(s: Store, w: ApplyWorld)
    requires WellFormed(s)
    ensures OnlyLandedGo(s, ApplyTrace(s, w))
  {
    var land := LandTrace(s, s.carried, w.merge, w.deletes).0;
    var cleared := [Last(s, land).(carried := "")];
    LandDeletesOnlyLanded(s, s.carried, w.merge, w.deletes);
    assert OnlyLandedGo(cleared[0], cleared[1..]);
    assert OnlyLandedGo(Last(s, land), cleared);
    OnlyLandedGoConcat(s, land, cleared);
  }

  lemma {:induction false} DeliverDeletesOnlyLanded(s: Store, out: BuildOutcome, pin: PinWorld, merge: MergeWorld,
      deletes: bool)
    requires WellFormed(s)
    ensures OnlyLandedGo(s, DeliverTrace(s, out, pin, merge, deletes))
  {
    var (pinned, kept) := PinTrace(s, out.branch, pin);
    PinDeletesNothingKept(s, out.branch, pin);
    LandDeletesOnlyLanded(Last(s, pinned), kept, merge, deletes);
    OnlyLandedGoConcat(s, pinned, LandTrace(Last(s, pinned), kept, merge, deletes).0);
  }

  // --- The age cap ---

  function Without(listing: seq<string>, active: string): (r: seq<string>) {
    if listing == [] then []
    else (if listing[0] == active then [] else [listing[0]]) + Without(listing[1..], active)
  }

  /** The cap reaches exactly the branches past the newest `keep` of the listing, except the active
      one: neither the active branch nor any of the newest is ever a candidate. */
  lemma {:induction false} SurplusIsTheOldest(listing: seq<string>, active: string, kept: nat, keep: nat)
    ensures var spared := if kept < keep then keep - kept else 0;
            Surplus(listing, active, kept, keep)
                == Without(if spared <= |listing| then listing[spared..] else [], active)
    decreases |listing|
  {
    if listing != [] {
      var retains := listing[0] == active || kept < keep;
      SurplusIsTheOldest(listing[1..], active, if retains then kept + 1 else kept, keep);
      if kept < keep {
        var spared := keep - kept;
        if spared <= |listing| {
          assert listing[spared..] == listing[1..][spared - 1..];
        }
      } else {
        assert listing[0..] == listing;
      }
    }
  }
}
