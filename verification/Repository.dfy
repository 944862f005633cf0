/** The git repository the delivery steps run against: each method follows the code call by call
    (cmd/nilcore/chat.go, cmd/nilcore/build.go, internal/maint/cap.go) and writes exactly the durable
    states of KeptBranches. */
module Repository {
  import opened Commits
  import opened KeptBranches

  predicate Ends(history: seq<Store>, s: Store) {
    history != [] && history[|history| - 1] == s
  }

  lemma {:induction false} EndsAfter(history: seq<Store>, s: Store, trace: seq<Store>, t: Store)
    requires WellFormed(s) && forall i :: 0 <= i < |trace| ==> WellFormed(trace[i])
    requires Ends(history, s) && Ends(history + trace, t)
    ensures t == Last(s, trace)
  {
  }

  lemma HistoryGrows(history: seq<Store>, a: seq<Store>, b: seq<Store>)
    ensures (history + a) + b == history + (a + b)
  {
  }

  class Repo {
    var graph: Graph
    var refs: map<string, Commit>
    var head: Head
    var midMerge: bool
    var carried: string

    /** Every durable state so far, the current one last: what a crash can expose. */
    ghost var history: seq<Store>

    ghost function Now(): Store
      reads this
    {
      Store(graph, refs, head, midMerge, carried)
    }

    ghost predicate Valid()
      reads this
    {
      WellFormed(Now()) && Ends(history, Now())
    }

    constructor (s: Store)
      requires WellFormed(s)
      ensures Valid() && Now() == s && history == [s]
    {
      graph, refs, head, midMerge, carried := s.graph, s.refs, s.head, s.midMerge, s.carried;
      history := [s];
    }

    method BranchForce(branch: string, c: Commit)
      requires Valid() && head != Attached(branch) && c < |graph|
      modifies this
      ensures Valid() && history == old(history) + [Point(old(Now()), branch, c)]
    {
      refs := refs[branch := c];
      history := history + [Now()];
    }

    /** `git branch -D`, best effort. */
    method BranchDelete(branch: string, works: bool)
      requires Valid()
      modifies this
      ensures Valid() && history == old(history) + Reclaim(old(Now()), branch, works)
    {
      if branch in refs && head != Attached(branch) && works {
        refs := refs - {branch};
        history := history + [Now()];
      }
    }

    method PinKeptBranch(branch: string, w: PinWorld) returns (name: string)
      requires Valid()
      modifies this
      ensures Valid()
      ensures history == old(history) + PinTrace(old(Now()), branch, w).0
      ensures name == PinTrace(old(Now()), branch, w).1
    {
      if branch == "" {
        return "";
      }
      if KEPT <= branch {
        return branch;
      }
      if branch !in refs || !w.resolves {
        return branch;
      }
      var kept := KeptName(branch);
      if !w.pins || head == Attached(kept) {
        return branch;
      }
      BranchForce(kept, refs[branch]);
      BranchDelete(branch, w.deletes);
      return kept;
    }

    method MergeKeptBranch(branch: string, w: MergeWorld) returns (result: MergeResult)
      requires Valid()
      modifies this
      ensures Valid()
      ensures history == old(history) + MergeTrace(old(Now()), branch, w).0
      ensures result == MergeTrace(old(Now()), branch, w).1
    {
      var started := GitMerge(branch, w);
      if !started {
        if midMerge && w.probes {
          if !w.aborts {
            return Conflict(false);
          }
          midMerge := false;
          history := history + [Now()];
          return Conflict(true);
        }
        return Refused;
      }
      return if w.readsTip then Landed else TipUnread;
    }

    /** `git merge --ff`: refused while MERGE_HEAD exists, else it lands, conflicts or refuses. */
    method GitMerge(branch: string, w: MergeWorld) returns (ok: bool)
      requires Valid()
      modifies this
      ensures Valid()
      ensures ok <==> !old(midMerge) && branch in old(refs) && w.starts
                      && !(w.conflicts && Diverged(old(Now()), old(refs)[branch]))
      ensures ok ==> history == old(history) + [Merged(old(Now()), old(refs)[branch])]
      ensures !ok && !old(midMerge) && branch in old(refs) && w.starts ==>
            history == old(history) + [old(Now()).(midMerge := true)]
      ensures !ok && (old(midMerge) || branch !in old(refs) || !w.starts) ==> history == old(history)
    {
      if midMerge || branch !in refs || !w.starts {
        return false;
      }
      var tip := match head case Attached(b) => refs[b] case Detached(c) => c;
      var theirs := refs[branch];
      var contained, ahead := Ancestor(graph, theirs, tip), Ancestor(graph, tip, theirs);
      if w.conflicts && !contained && !ahead {
        midMerge := true;
        history := history + [Now()];
        return false;
      }
      if !contained {
        var to := theirs;
        if !ahead {
          graph := graph + [{tip, theirs}];
          to := |graph| - 1;
        }
        match head {
          case Attached(b) => refs := refs[b := to];
          case Detached(_) => head := Detached(to);
        }
      }
      history := history + [Now()];
      return true;
    }

    method Land(branch: string, w: MergeWorld, deletes: bool) returns (result: MergeResult)
      requires Valid()
      modifies this
      ensures Valid()
      ensures history == old(history) + LandTrace(old(Now()), branch, w, deletes).0
      ensures result == LandTrace(old(Now()), branch, w, deletes).1
    {
      result := MergeKeptBranch(branch, w);
      if result.Landed? {
        BranchDelete(branch, deletes);
      }
    }

    method ApplyKeptBranch(w: ApplyWorld)
      requires Valid()
      modifies this
      ensures Valid()
      ensures history == old(history) + ApplyTrace(old(Now()), w)
    {
      if carried == "" || !w.idle || head.Detached? || carried !in refs || !w.approved {
        return;
      }
      var result := Land(carried, w.merge, w.deletes);
      if result.Landed? {
        carried := "";
        history := history + [Now()];
      }
    }

    method DeliverBuild(out: BuildOutcome, pin: PinWorld, merge: MergeWorld, deletes: bool)
      requires Valid()
      modifies this
      ensures Valid()
      ensures history == old(history) + DeliverTrace(old(Now()), out, pin, merge, deletes)
    {
      if !out.done || out.branch == "" {
        return;
      }
      ghost var before, past := Now(), history;
      ghost var pinned := PinTrace(before, out.branch, pin).0;
      var kept := PinKeptBranch(out.branch, pin);
      EndsAfter(past, before, pinned, Now());
      if out.promoted {
        ghost var landed := LandTrace(Now(), kept, merge, deletes).0;
        var _ := Land(kept, merge, deletes);
        HistoryGrows(past, pinned, landed);
      }
    }

    method Cleanup(gone: set<string>)
      requires Valid()
      modifies this
      ensures Valid() && history == old(history) + [Swept(old(Now()), gone)]
    {
      var doomed := set b | b in gone && Throwaway(b) && head != Attached(b);
      assert doomed == set b | b in gone && Throwaway(b) && !CheckedOut(Now(), b);
      refs := refs - doomed;
      history := history + [Now()];
    }

    /** The end of a supervised drive: pin, then the deferred sweep, then what the session carries. */
    method FinishDrive(done: bool, branch: string, pin: PinWorld, gone: set<string>)
      requires Valid()
      modifies this
      ensures Valid()
      ensures history == old(history) + DriveTrace(old(Now()), done, branch, pin, gone)
    {
      ghost var before, past := Now(), history;
      ghost var pinned := if done then PinTrace(before, branch, pin).0 else [];
      var kept := "";
      if done {
        kept := PinKeptBranch(branch, pin);
      }
      EndsAfter(past, before, pinned, Now());
      Cleanup(gone);
      ghost var swept := Swept(Last(before, pinned), gone);
      assert history == past + (pinned + [swept]);
      if kept != "" {
        carried := kept;
        history := history + [Now()];
        assert history == past + (pinned + [swept] + [swept.(carried := kept)]);
      }
    }

    /** maint.Cap over a newest-first listing of the kept branches. */
    method CapKeptBranches(listing: seq<string>, active: string, failing: set<string>)
      requires Valid()
      modifies this
      ensures Valid()
      ensures history == old(history) + PruneTrace(old(Now()), Surplus(listing, active, 0, KEEP), failing)
    {
      var kept, i := 0, 0;
      ghost var start := Now();
      while i < |listing|
        invariant 0 <= i <= |listing|
        invariant Valid()
        invariant history + PruneTrace(Now(), Surplus(listing[i..], active, kept, KEEP), failing)
               == old(history) + PruneTrace(start, Surplus(listing, active, 0, KEEP), failing)
      {
        assert listing[i..] == [listing[i]] + listing[i + 1..];
        if listing[i] == active || kept < KEEP {
          kept := kept + 1;
        } else {
          BranchDelete(listing[i], listing[i] !in failing);
        }
        i := i + 1;
      }
    }
  }
}
