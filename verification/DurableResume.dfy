/** Durable resume of multi-agent runs: the tip pin and snapshot row written by SaveState
    (cmd/nilcore/build.go), finalizeSupervise and resumeSupervise (cmd/nilcore/resume.go), and the
    ids that tie them together. A process may stop between any two durable writes. */
module DurableResume {
  import opened Commits
  import opened Wrappers
  import KeptBranches

  // --- Ids ---

  const RESUME := "resume/"
  const SUPERVISE := "supervise:"

  function Dashed(s: string): (r: string) {
    seq(|s|, i requires 0 <= i < |s| => if s[i] == ':' then '-' else s[i])
  }

  function ResumeRef(taskID: string): (r: string) {
    RESUME + Dashed(taskID)
  }

  method MakeResumeRef(taskID: string) returns (r: string)
    ensures r == ResumeRef(taskID)
  {
    r := RESUME;
    var i := 0;
    while i < |taskID|
      invariant 0 <= i <= |taskID|
      invariant r == RESUME + Dashed(taskID[..i])
    {
      assert Dashed(taskID[..i + 1]) == Dashed(taskID[..i]) + [if taskID[i] == ':' then '-' else taskID[i]];
      r := r + [if taskID[i] == ':' then '-' else taskID[i]];
      i := i + 1;
    }
    assert taskID[..i] == taskID;
  }

  predicate Confused(x: char, y: char) {
    x == y || (x == ':' && y == '-') || (x == '-' && y == ':')
  }

  /** Two runs share a pin exactly when their ids differ only in ':' against '-'. */
  lemma {:induction false} ResumeRefsCollideExactly(x: string, y: string)
    ensures ResumeRef(x) == ResumeRef(y) <==> |x| == |y| && forall i :: 0 <= i < |x| ==> Confused(x[i], y[i])
  {
    KeptBranches.SameTail(RESUME, Dashed(x), Dashed(y));
    if Dashed(x) == Dashed(y) {
      forall i | 0 <= i < |x| ensures Confused(x[i], y[i]) {
        assert Dashed(x)[i] == Dashed(y)[i];
      }
    }
  }

  function SuperviseTaskID(thread: string): (r: string) {
    SUPERVISE + thread
  }

  function SuperviseOwnerThread(taskID: string): (r: string) {
    if SUPERVISE < taskID then taskID[|SUPERVISE|..] else taskID
  }

  /** Threads without ':' never share a resume pin. */
  lemma {:induction false} ThreadsHaveTheirOwnPin(a: string, b: string)
    requires ':' !in a && ':' !in b
    ensures ResumeRef(SuperviseTaskID(a)) == ResumeRef(SuperviseTaskID(b)) <==> a == b
  {
    var x, y := SuperviseTaskID(a), SuperviseTaskID(b);
    ResumeRefsCollideExactly(x, y);
    if ResumeRef(x) == ResumeRef(y) {
      forall i | 0 <= i < |a| ensures a[i] == b[i] {
        assert x[|SUPERVISE| + i] == a[i] && y[|SUPERVISE| + i] == b[i];
        assert a[i] in a && b[i] in b;
      }
    }
  }

  predicate Digits(s: string) {
    forall i :: 0 <= i < |s| ==> '0' <= s[i] <= '9'
  }

  lemma DigitsAreListed(s: string)
    ensures Digits(s) <==> forall c :: c in s ==> c in "0123456789"
  {
    forall c | c in s ensures '0' <= c <= '9' <==> c in "0123456789" {
      assert '0' <= c <= '9' ==> "0123456789"[c as int - '0' as int] == c;
    }
    assert forall i :: 0 <= i < |s| ==> s[i] in s;
  }

  /** ownerThreadFromTaskID: the text before the last '-' when a non-empty run of digits follows it. */
  method OwnerThreadFromTaskID(id: string) returns (thread: string)
    ensures thread != "" ==> exists n :: 0 < n < |id| - 1 && thread == id[..n] && id[n] == '-' && Digits(id[n + 1..])
    ensures thread == "" ==> forall n :: 0 < n < |id| - 1 && id[n] == '-' ==> !Digits(id[n + 1..])
  {
    var i := |id| - 1;
    while 0 <= i && id[i] != '-'
      invariant -1 <= i < |id|
      invariant forall k :: i < k < |id| ==> id[k] != '-'
    {
      i := i - 1;
    }
    if i <= 0 || i == |id| - 1 {
      forall n | 0 < n < |id| - 1 && id[n] == '-' ensures !Digits(id[n + 1..]) {
        assert id[n + 1..][|id| - 1 - (n + 1)] == id[|id| - 1];
      }
      return "";
    }
    var j := i + 1;
    while j < |id|
      invariant i < j <= |id|
      invariant forall k :: i < k < j ==> '0' <= id[k] <= '9'
    {
      if id[j] < '0' || '9' < id[j] {
        forall n | 0 < n < |id| - 1 && id[n] == '-' ensures !Digits(id[n + 1..]) {
          assert id[n + 1..][j - (n + 1)] == id[j];
        }
        return "";
      }
      j := j + 1;
    }
    return id[..i];
  }

  /** A resumed gate informs the thread that owns the run: an id parses back to at most one thread,
      and for every non-empty thread the synthetic id of a resumed run parses back to it. */
  lemma {:induction false} OwnerThreadIsUnique(id: string, m: nat, n: nat)
    requires m < |id| && id[m] == '-' && Digits(id[m + 1..])
    requires n < |id| && id[n] == '-' && Digits(id[n + 1..])
    ensures m == n
  {
  }

  method ResumedGateThread(thread: string) returns (informed: string)
    ensures informed == if thread != "" then thread else SUPERVISE
  {
    var id := SuperviseOwnerThread(SuperviseTaskID(thread)) + "-0";
    informed := OwnerThreadFromTaskID(id);
    var owner := |id| - 2;
    assert id[owner] == '-' && Digits(id[owner + 1..]);
    forall n | 0 < n < |id| - 1 && id[n] == '-' && Digits(id[n + 1..]) ensures n == owner {
      OwnerThreadIsUnique(id, n, owner);
    }
  }

  // --- What is durable: rows and refs ---

  datatype Node = Node(id: string, dependsOn: seq<string>, state: string)

  datatype Tip = NoTip | At(commit: Commit)

  datatype Snapshot = Snapshot(tip: Tip, nodes: seq<Node>)

  datatype Status = InFlight | Done | Failed

  datatype Row = Row(status: Status, snapshot: Snapshot)

  datatype Disk = Disk(rows: map<string, Row>, refs: map<string, Commit>)

  const NO_SNAPSHOT := Snapshot(NoTip, [])

  function Last(d: Disk, trace: seq<Disk>): Disk {
    if trace == [] then d else trace[|trace| - 1]
  }

  /** Which durable writes of a save succeed. */
  datatype SaveWorld = SaveWorld(pins: bool, saves: bool)

  /** SaveState: the pin first, then the row. A save without a tip skips the pin. */
  function SaveTrace(d: Disk, task: string, snap: Snapshot, w: SaveWorld): (r: seq<Disk>) {
    var pinned := if snap.tip.At? && w.pins then [d.(refs := d.refs[ResumeRef(task) := snap.tip.commit])] else [];
    pinned + (if w.saves then [Mark(Last(d, pinned), task, Row(InFlight, snap))] else [])
  }

  function Mark(d: Disk, task: string, row: Row): Disk {
    d.(rows := d.rows[task := row])
  }

  /** Checkpoint.Complete: the row's snapshot goes with its in-flight status. */
  function CompleteTrace(d: Disk, task: string, done: bool, works: bool): (r: seq<Disk>) {
    if works then [Mark(d, task, Row(if done then Done else Failed, NO_SNAPSHOT))] else []
  }

  datatype EndWorld = EndWorld(done: bool, cancelled: bool, completes: bool, deletes: bool)

  function FinalizeTrace(d: Disk, task: string, w: EndWorld): (r: seq<Disk>) {
    if task == "" || w.cancelled || !w.completes then []
    else
      var marked := CompleteTrace(d, task, w.done, true);
      marked + (if w.done && w.deletes then [Unpin(marked[0], task)] else [])
  }

  function Unpin(d: Disk, task: string): Disk {
    d.(refs := d.refs - {ResumeRef(task)})
  }

  function Sweep(d: Disk, gone: set<string>): Disk {
    d.(refs := d.refs - (set b | b in gone && KeptBranches.Throwaway(b)))
  }

  /** A sweep removes what it was given of the four run-scoped prefixes, and nothing else. */
  lemma SweepRemovesExactly(d: Disk, gone: set<string>, b: string)
    ensures var t := Sweep(d, gone);
            && (b in t.refs <==> b in d.refs && !(b in gone && ("task/" <= b || "rebase/" <= b || "integrate/" <= b
                                                                 || "read/" <= b)))
            && (b in t.refs ==> t.refs[b] == d.refs[b]) && t.rows == d.rows
  {
  }

  /** A close writes the outcome into the row, with no tip left to resume from, and drops the pin of a done
      run; a cancelled, unnamed or unwritable one changes nothing. */
  lemma {:induction false} CloseTellsTheOutcome(d: Disk, task: string, w: EndWorld)
    ensures var t := Last(d, FinalizeTrace(d, task, w));
            var closes := task != "" && !w.cancelled && w.completes;
            && (closes ==> task in t.rows && t.rows[task].snapshot == Snapshot(NoTip, [])
                           && t.rows[task].status == if w.done then Done else Failed)
            && (!closes ==> t == d)
            && (forall other :: other != task ==> (other in t.rows <==> other in d.rows)
                                                  && (other in d.rows ==> t.rows[other] == d.rows[other]))
            && t.refs == if closes && w.done && w.deletes then d.refs - {ResumeRef(task)} else d.refs
  {
    var trace := FinalizeTrace(d, task, w);
    assert trace != [] ==> trace[0] == Mark(d, task, Row(if w.done then Done else Failed, NO_SNAPSHOT));
    assert |trace| == 2 ==> trace[1] == Unpin(trace[0], task);
  }

  lemma ResumePinsAreNotThrowaway(task: string)
    ensures !KeptBranches.Throwaway(ResumeRef(task))
  {
    var r := ResumeRef(task);
    assert r[0] == 'r' && r[2] == 's';
  }

  // --- The pin against the row, over whole runs ---

  datatype Op =
    | Save(task: string, snap: Snapshot, save: SaveWorld)
    | Finalize(task: string, end: EndWorld)
    | Fault(task: string, completes: bool) // a resumed run that could not be driven
    | SweepAll(gone: set<string>)
    | Point(branch: string, commit: Commit) // any other ref the process moves

  function Trace(d: Disk, op: Op): (r: seq<Disk>) {
    match op
    case Save(task, snap, save) => SaveTrace(d, task, snap, save)
    case Finalize(task, end) => FinalizeTrace(d, task, end)
    case Fault(task, completes) => CompleteTrace(d, task, false, completes)
    case SweepAll(gone) => [Sweep(d, gone)]
    case Point(branch, commit) => if RESUME <= branch then [] else [d.(refs := d.refs[branch := commit])]
  }

  /** `op` interrupted after `cut` durable writes. */
  function After(d: Disk, op: Op, cut: nat): Disk {
    var trace := Trace(d, op);
    Last(d, if cut <= |trace| then trace[..cut] else trace)
  }

  /** The steps of a run that no method writes: a resumed run that could not be driven ends failed, a sweep
      is one step, and any other ref moves where it is told, except under the resume prefix. */
  lemma {:induction false} OtherOpsAreExact(d: Disk, task: string, works: bool, gone: set<string>, branch: string,
      commit: Commit)
    ensures var t := After(d, Fault(task, works), 1);
            t == if works then d.(rows := d.rows[task := Row(Failed, Snapshot(NoTip, []))]) else d
    ensures After(d, SweepAll(gone), 1) == Sweep(d, gone)
    ensures var t := After(d, Point(branch, commit), 1);
            t == if "resume/" <= branch then d else d.(refs := d.refs[branch := commit])
  {
  }

  function End(d: Disk, run: seq<(Op, nat)>): Disk
    decreases |run|
  {
    if run == [] then d else End(After(d, run[0].0, run[0].1), run[1..])
  }

  predicate WellFormed(g: Graph, d: Disk) {
    forall b :: b in d.refs ==> d.refs[b] < |g|
  }

  /** `row` names a tip that the next boot will want to resume from. */
  predicate Wants(d: Disk, task: string, c: Commit) {
    task in d.rows && d.rows[task].status == InFlight && d.rows[task].snapshot.tip == At(c)
  }

  predicate Contains(g: Graph, d: Disk, task: string, c: Commit) {
    var ref := ResumeRef(task);
    ref in d.refs && d.refs[ref] < |g| && Ancestor(g, c, d.refs[ref])
  }

  /** The pin is never behind the row: it names the row's tip or a descendant of it. */
  ghost predicate Pinned(g: Graph, d: Disk) {
    forall task, c :: Wants(d, task, c) ==> Contains(g, d, task, c)
  }

  predicate PinLands(snap: Snapshot, w: SaveWorld, cut: nat) {
    snap.tip.At? && w.pins && cut >= 1
  }

  predicate RowLands(snap: Snapshot, w: SaveWorld, cut: nat) {
    w.saves && cut >= if snap.tip.At? && w.pins then 2 else 1
  }

  /** The row of `other` wants `c` under the pin of `task`. */
  predicate SharesPin(d: Disk, task: string, other: string, c: Commit) {
    Wants(d, other, c) && ResumeRef(other) == ResumeRef(task)
  }

  /** A save, as far as it gets, keeps every pin ahead of its row. A row left behind under the pin it
      moves (its own when the save stops between pin and row, or a colliding run's) wants an ancestor of
      the new tip; a row that lands without its pin finds its tip under the older one. */
  ghost predicate SaveRespects(g: Graph, d: Disk, task: string, snap: Snapshot, w: SaveWorld, cut: nat) {
    snap.tip.At? ==>
      && snap.tip.commit < |g|
      && (PinLands(snap, w, cut) ==>
            forall other, c :: SharesPin(d, task, other, c) && (other != task || !RowLands(snap, w, cut)) ==>
              Ancestor(g, c, snap.tip.commit))
      && (RowLands(snap, w, cut) && !PinLands(snap, w, cut) ==> Contains(g, d, task, snap.tip.commit))
  }

  predicate Unpins(task: string, w: EndWorld, cut: nat) {
    task != "" && !w.cancelled && w.completes && w.done && w.deletes && cut >= 2
  }

  /** A pin that is dropped serves no other in-flight row. */
  ghost predicate EndRespects(d: Disk, task: string, w: EndWorld, cut: nat) {
    Unpins(task, w, cut) ==>
      forall other, c :: other != task && ResumeRef(other) == ResumeRef(task) ==> !Wants(d, other, c)
  }

  /** What `op`, stopped after `cut` writes, must respect. Nothing is asked of a save that completes
      about the tip it replaces: a fresh re-run may start over. */
  ghost predicate Respects(g: Graph, d: Disk, op: Op, cut: nat) {
    match op
    case Save(task, snap, save) => SaveRespects(g, d, task, snap, save, cut)
    case Finalize(task, end) => EndRespects(d, task, end, cut)
    case Fault(_, _) => true
    case SweepAll(_) => true
    case Point(_, _) => true
  }

  ghost predicate RespectfulRun(g: Graph, d: Disk, run: seq<(Op, nat)>)
    decreases |run|
  {
    run == []
    || (Respects(g, d, run[0].0, run[0].1) && RespectfulRun(g, After(d, run[0].0, run[0].1), run[1..]))
  }

  /** The disk a save leaves, in terms of what lands. */
  lemma SaveLeaves(d: Disk, task: string, snap: Snapshot, w: SaveWorld, cut: nat)
    ensures var t := After(d, Save(task, snap, w), cut);
            && t.rows == (if RowLands(snap, w, cut) then d.rows[task := Row(InFlight, snap)] else d.rows)
            && t.refs == if PinLands(snap, w, cut) then d.refs[ResumeRef(task) := snap.tip.commit] else d.refs
  {
    var trace := SaveTrace(d, task, snap, w);
    assert |trace| == (if snap.tip.At? && w.pins then 1 else 0) + (if w.saves then 1 else 0);
    AfterIsState(d, trace, cut);
  }

  lemma AfterIsState(d: Disk, trace: seq<Disk>, cut: nat)
    ensures Last(d, if cut <= |trace| then trace[..cut] else trace)
         == if cut == 0 || trace == [] then d else trace[if cut <= |trace| then cut - 1 else |trace| - 1]
  {
  }

  lemma {:induction false} SaveKeepsPinned(g: Graph, d: Disk, task: string, snap: Snapshot, w: SaveWorld, cut: nat)
    requires Pinned(g, d) && SaveRespects(g, d, task, snap, w, cut)
    ensures Pinned(g, After(d, Save(task, snap, w), cut))
  {
    var t := After(d, Save(task, snap, w), cut);
    SaveLeaves(d, task, snap, w, cut);
    forall other, c | Wants(t, other, c) ensures Contains(g, t, other, c) {
      if other != task || !RowLands(snap, w, cut) {
        assert Wants(d, other, c) && Contains(g, d, other, c);
        assert ResumeRef(other) == ResumeRef(task) ==> SharesPin(d, task, other, c);
      }
    }
  }

  lemma {:induction false} SaveBreaksPinned(g: Graph, d: Disk, task: string, snap: Snapshot, w: SaveWorld, cut: nat)
    requires snap.tip.At? && snap.tip.commit < |g| && Pinned(g, After(d, Save(task, snap, w), cut))
    ensures SaveRespects(g, d, task, snap, w, cut)
  {
    var t := After(d, Save(task, snap, w), cut);
    SaveLeaves(d, task, snap, w, cut);
    forall other, c | SharesPin(d, task, other, c) && (other != task || !RowLands(snap, w, cut))
                      && PinLands(snap, w, cut)
      ensures Ancestor(g, c, snap.tip.commit)
    {
      assert Wants(t, other, c);
      assert Contains(g, t, other, c);
    }
    if RowLands(snap, w, cut) && !PinLands(snap, w, cut) {
      assert Wants(t, task, snap.tip.commit);
      assert Contains(g, t, task, snap.tip.commit);
    }
  }

  lemma EndLeaves(d: Disk, task: string, w: EndWorld, cut: nat)
    ensures var t := After(d, Finalize(task, w), cut);
            && t.refs == (if Unpins(task, w, cut) then d.refs - {ResumeRef(task)} else d.refs)
            && t.rows.Keys <= d.rows.Keys + {task}
            && (forall other, c :: other != task ==> (Wants(t, other, c) <==> Wants(d, other, c)))
            && (forall c :: Wants(t, task, c) ==> Wants(d, task, c))
            && (Unpins(task, w, cut) ==> task in t.rows && t.rows[task].status != InFlight)
  {
    var trace := FinalizeTrace(d, task, w);
    AfterIsState(d, trace, cut);
    assert trace != [] ==> trace[0] == Mark(d, task, Row(if w.done then Done else Failed, NO_SNAPSHOT));
    assert |trace| == 2 ==> trace[1] == Unpin(trace[0], task);
  }

  lemma {:induction false} EndKeepsPinnedExactly(g: Graph, d: Disk, task: string, w: EndWorld, cut: nat)
    requires Pinned(g, d)
    ensures Pinned(g, After(d, Finalize(task, w), cut)) <==> EndRespects(d, task, w, cut)
  {
    var t := After(d, Finalize(task, w), cut);
    EndLeaves(d, task, w, cut);
    if EndRespects(d, task, w, cut) {
      forall other, c | Wants(t, other, c) ensures Contains(g, t, other, c) {
        assert Wants(d, other, c);
        assert Contains(g, d, other, c);
      }
    } else {
      var other, c :| other != task && ResumeRef(other) == ResumeRef(task) && Wants(d, other, c);
      assert Wants(t, other, c) && !Contains(g, t, other, c);
    }
  }

  lemma {:induction false} OtherOpKeepsPinned(g: Graph, d: Disk, op: Op, cut: nat)
    requires Pinned(g, d) && !op.Save? && !op.Finalize?
    ensures Pinned(g, After(d, op, cut))
  {
    var t := After(d, op, cut);
    forall other, c | Wants(t, other, c) ensures Contains(g, t, other, c) {
      assert Wants(d, other, c) && Contains(g, d, other, c);
      ResumePinsAreNotThrowaway(other);
      assert RESUME <= ResumeRef(other);
    }
  }

  /** The condition is the exact one: an operation cut short anywhere keeps every pin ahead of its row
      if and only if it respects it. */
  lemma {:induction false} RespectIsExact(g: Graph, d: Disk, op: Op, cut: nat)
    requires Pinned(g, d) && (op.Save? && op.snap.tip.At? ==> op.snap.tip.commit < |g|)
    ensures Pinned(g, After(d, op, cut)) <==> Respects(g, d, op, cut)
  {
    match op {
      case Save(task, snap, save) =>
        if Respects(g, d, op, cut) {
          SaveKeepsPinned(g, d, task, snap, save, cut);
        } else {
          if Pinned(g, After(d, op, cut)) {
            SaveBreaksPinned(g, d, task, snap, save, cut);
          }
        }
      case Finalize(task, end) => EndKeepsPinnedExactly(g, d, task, end, cut);
      case _ => OtherOpKeepsPinned(g, d, op, cut);
    }
  }

  /** At every crash point of every such run, the tip an in-flight row would resume from is reachable
      from that run's own resume pin. */
  lemma {:induction false} ResumableTipStaysPinned(g: Graph, d: Disk, run: seq<(Op, nat)>)
    requires Pinned(g, d) && RespectfulRun(g, d, run)
    ensures Pinned(g, End(d, run))
    decreases |run|
  {
    if run != [] {
      RespectIsExact(g, d, run[0].0, run[0].1);
      ResumableTipStaysPinned(g, After(d, run[0].0, run[0].1), run[1..]);
    }
  }

  // --- Runs of threads without ':' ---

  predicate Named(task: string) {
    SUPERVISE <= task && ':' !in task[|SUPERVISE|..]
  }

  /** All that is asked of such a run: no row lands past a failed pin, and a save that stops between pin
      and row offered a descendant of the row's tip. */
  ghost predicate Steady(g: Graph, d: Disk, op: Op, cut: nat) {
    match op
    case Save(task, snap, save) =>
      Named(task) &&
      (snap.tip.At? ==>
        && snap.tip.commit < |g|
        && (RowLands(snap, save, cut) ==> PinLands(snap, save, cut))
        && (PinLands(snap, save, cut) && !RowLands(snap, save, cut) ==>
              forall c :: Wants(d, task, c) ==> Ancestor(g, c, snap.tip.commit)))
    case Finalize(task, _) => Named(task)
    case Fault(task, _) => Named(task)
    case _ => true
  }

  ghost predicate SteadyRun(g: Graph, d: Disk, run: seq<(Op, nat)>)
    decreases |run|
  {
    run == [] || (Steady(g, d, run[0].0, run[0].1) && SteadyRun(g, After(d, run[0].0, run[0].1), run[1..]))
  }

  lemma {:induction false} NamedTasksOwnTheirPin(a: string, b: string)
    requires Named(a) && Named(b) && ResumeRef(a) == ResumeRef(b)
    ensures a == b
  {
    var x, y := a[|SUPERVISE|..], b[|SUPERVISE|..];
    assert a == SuperviseTaskID(x) && b == SuperviseTaskID(y);
    ThreadsHaveTheirOwnPin(x, y);
  }

  lemma {:induction false} SteadyRespects(g: Graph, d: Disk, op: Op, cut: nat)
    requires (forall task :: task in d.rows ==> Named(task)) && Steady(g, d, op, cut)
    ensures Respects(g, d, op, cut)
    ensures forall task :: task in After(d, op, cut).rows ==> Named(task)
  {
    match op {
      case Save(task, snap, save) =>
        SaveLeaves(d, task, snap, save, cut);
        forall other, c | Wants(d, other, c) && ResumeRef(other) == ResumeRef(task) ensures other == task {
          NamedTasksOwnTheirPin(other, task);
        }
      case Finalize(task, end) =>
        EndLeaves(d, task, end, cut);
        forall other, c | Wants(d, other, c) && ResumeRef(other) == ResumeRef(task) ensures other == task {
          NamedTasksOwnTheirPin(other, task);
        }
      case _ =>
    }
  }

  /** For threads without ':' the pin serves the row at every crash point, over fresh re-runs as well. */
  lemma {:induction false} NamedRunsStayPinned(g: Graph, d: Disk, run: seq<(Op, nat)>)
    requires Pinned(g, d) && (forall task :: task in d.rows ==> Named(task)) && SteadyRun(g, d, run)
    ensures RespectfulRun(g, d, run) && Pinned(g, End(d, run))
    decreases |run|
  {
    if run != [] {
      SteadyRespects(g, d, run[0].0, run[0].1);
      RespectIsExact(g, d, run[0].0, run[0].1);
      NamedRunsStayPinned(g, After(d, run[0].0, run[0].1), run[1..]);
    }
  }

  /** One successful save: afterwards the pin is exactly the row's tip; before the row is written the
      pin already is the newer tip. A save without a tip leaves the old pin and forgets the row's tip. */
  lemma {:induction false} SaveIsExact(d: Disk, task: string, snap: Snapshot)
    ensures var trace := SaveTrace(d, task, snap, SaveWorld(true, true));
            var t := Last(d, trace);
            && t.rows == d.rows[task := Row(InFlight, snap)]
            && (snap.tip.At? ==> |trace| == 2 && trace[0].rows == d.rows
                                 && trace[0].refs == t.refs == d.refs[ResumeRef(task) := snap.tip.commit])
            && (snap.tip.NoTip? ==> t.refs == d.refs && forall c :: !Wants(t, task, c))
  {
  }

  /** The conditions on a save are not too strong: when its tip is no descendant of the row's, a crash
      between pin and row leaves a row whose tip its pin does not contain; when the pin fails and
      the row lands, exactly an older pin that already contains the tip still serves it. */
  lemma {:induction false} SaveLosesExactly(g: Graph, d: Disk, task: string, c: Commit, tip: Commit, nodes: seq<Node>)
    requires WellFormed(g, d) && tip < |g| && Wants(d, task, c)
    ensures var crashed := After(d, Save(task, Snapshot(At(tip), nodes), SaveWorld(true, true)), 1);
            Wants(crashed, task, c) && (Contains(g, crashed, task, c) <==> Ancestor(g, c, tip))
    ensures var unpinned := After(d, Save(task, Snapshot(At(tip), nodes), SaveWorld(false, true)), 1);
            Wants(unpinned, task, tip) && (Contains(g, unpinned, task, tip) <==> Contains(g, d, task, tip))
  {
  }

  /** Two runs whose ids collide take each other's pin. */
  lemma CollidingIdsLoseAPin() returns (g: Graph, d: Disk, op: Op)
    ensures Pinned(g, d) && !Pinned(g, Last(d, Trace(d, op)))
    ensures op.Save? && op.save == SaveWorld(true, true)
  {
    var a, b := SuperviseTaskID("t:1"), SuperviseTaskID("t-1");
    g := [{}, {}];
    d := Disk(map[a := Row(InFlight, Snapshot(At(0), []))], map[ResumeRef(a) := 0]);
    op := Save(b, Snapshot(At(1), []), SaveWorld(true, true));
    assert Contains(g, d, a, 0);
    assert a == "supervise:t:1" && b == "supervise:t-1";
    assert Dashed(a) == Dashed(b) && a != b;
    var t := Last(d, Trace(d, op));
    assert Wants(t, a, 0) && !Contains(g, t, a, 0);
  }

  /** A pin disappears only once a row of that pin is marked done. */
  ghost predicate OnlyDoneUnpin(d: Disk, t: Disk) {
    forall task :: ResumeRef(task) in d.refs && ResumeRef(task) !in t.refs ==>
      exists marked :: marked in d.rows && ResumeRef(marked) == ResumeRef(task) && d.rows[marked].status == Done
  }

  ghost predicate OnlyDoneUnpins(d: Disk, trace: seq<Disk>)
    decreases |trace|
  {
    trace == [] || (OnlyDoneUnpin(d, trace[0]) && OnlyDoneUnpins(trace[0], trace[1..]))
  }

  lemma {:induction false} TwoWrites(d: Disk, trace: seq<Disk>)
    requires |trace| <= 2
    requires |trace| >= 1 ==> OnlyDoneUnpin(d, trace[0])
    requires |trace| == 2 ==> OnlyDoneUnpin(trace[0], trace[1])
    ensures OnlyDoneUnpins(d, trace)
  {
  }

  /** Over every operation and every crash point in it: no sweep, save, fault or failed end drops a
      pin, and a finished run drops its pin only after its row says done. */
  lemma {:induction false} PinDroppedOnlyOnceDone(d: Disk, op: Op)
    ensures OnlyDoneUnpins(d, Trace(d, op))
  {
    var trace := Trace(d, op);
    match op {
      case Finalize(task, end) =>
        if trace != [] && end.done {
          assert trace[0].rows[task].status == Done;
        }
      case SweepAll(gone) =>
        forall task ensures !KeptBranches.Throwaway(ResumeRef(task)) {
          ResumePinsAreNotThrowaway(task);
        }
      case _ =>
    }
    TwoWrites(d, trace);
  }

  // --- The next boot ---

  datatype Seed = Seed(tip: Commit, branch: string, nodes: seq<Node>)

  /** What resumeSupervise starts a run from: the base and the seed for a tip that re-verified,
      neither for a fresh run. */
  function Plan(task: string, snap: Snapshot, verifies: bool): (r: (Tip, Option<Seed>)) {
    if snap.tip.At? && verifies then (snap.tip, Some(Seed(snap.tip.commit, ResumeRef(task), snap.nodes)))
    else (NoTip, None)
  }

  /** Round trip: a snapshot saved before a crash is the base and the seed of the resumed run if its
      tip re-verifies, with a branch that contains the base; otherwise the run starts from nothing. */
  lemma {:induction false} SavedSnapshotIsResumed(
      g: Graph, d: Disk, task: string, snap: Snapshot, run: seq<(Op, nat)>, verifies: bool)
    requires Pinned(g, d) && Respects(g, d, Save(task, snap, SaveWorld(true, true)), 2)
    requires var saved := Last(d, SaveTrace(d, task, snap, SaveWorld(true, true)));
             RespectfulRun(g, saved, run) && task in End(saved, run).rows
             && End(saved, run).rows[task] == saved.rows[task]
    ensures var t := End(Last(d, SaveTrace(d, task, snap, SaveWorld(true, true))), run);
            var (base, seed) := Plan(task, t.rows[task].snapshot, verifies);
            && (base.At? <==> seed.Some?) && (base.At? <==> snap.tip.At? && verifies)
            && (base.At? ==> base == snap.tip && seed.value.tip == base.commit && seed.value.nodes == snap.nodes
                             && seed.value.branch in t.refs && t.refs[seed.value.branch] < |g|
                             && Ancestor(g, base.commit, t.refs[seed.value.branch]))
  {
    var saved := Last(d, SaveTrace(d, task, snap, SaveWorld(true, true)));
    assert saved == After(d, Save(task, snap, SaveWorld(true, true)), 2);
    RespectIsExact(g, d, Save(task, snap, SaveWorld(true, true)), 2);
    ResumableTipStaysPinned(g, saved, run);
    if snap.tip.At? {
      assert Wants(End(saved, run), task, snap.tip.commit);
    }
  }

  /** One in-flight run of the boot: whether its row loads and its tip re-verifies, the saves it
      makes once resumed, and how it ends. */
  datatype ResumeWorld = ResumeWorld(
    loads: bool, verifies: bool, saves: seq<(Snapshot, SaveWorld)>, faults: bool, gone: set<string>, end: EndWorld)

  function SavesTrace(d: Disk, task: string, saves: seq<(Snapshot, SaveWorld)>): (r: seq<Disk>)
    decreases |saves|
  {
    if saves == [] then []
    else
      var first := SaveTrace(d, task, saves[0].0, saves[0].1);
      first + SavesTrace(Last(d, first), task, saves[1..])
  }

  /** How a resumed drive leaves the disk: its stack is swept before its row is closed. */
  function CloseTrace(d: Disk, task: string, w: ResumeWorld): (r: seq<Disk>) {
    [Sweep(d, w.gone)] + (if w.faults then CompleteTrace(Sweep(d, w.gone), task, false, w.end.completes)
                          else FinalizeTrace(Sweep(d, w.gone), task, w.end))
  }

  /** A resumed run sweeps first; if it could not be driven its row then says failed, with nothing to resume
      from, and its pin stays for manual recovery. */
  lemma {:induction false} FaultedRunKeepsItsPin(d: Disk, task: string, w: ResumeWorld)
    ensures var trace := CloseTrace(d, task, w);
            var t := Last(d, trace);
            && trace != [] && trace[0] == Sweep(d, w.gone)
            && (w.faults ==>
                  && t.refs == Sweep(d, w.gone).refs
                  && t.rows == if w.end.completes then d.rows[task := Row(Failed, Snapshot(NoTip, []))] else d.rows)
  {
  }

  function ResumeOneTrace(d: Disk, task: string, w: ResumeWorld): (r: seq<Disk>) {
    if task !in d.rows || !w.loads then []
    else
      var saves := SavesTrace(d, task, w.saves);
      saves + CloseTrace(Last(d, saves), task, w)
  }

  function ResumeTrace(d: Disk, tasks: seq<string>, worlds: seq<ResumeWorld>): (r: seq<Disk>)
    requires |tasks| == |worlds|
    decreases |tasks|
  {
    if tasks == [] then []
    else
      var first := ResumeOneTrace(d, tasks[0], worlds[0]);
      first + ResumeTrace(Last(d, first), tasks[1..], worlds[1..])
  }

  /** The run is still in flight after the pass: its row did not load, its end was not recorded, or
      the process was told to stop while it ran. */
  predicate LeftInFlight(task: string, w: ResumeWorld) {
    !w.loads || !w.end.completes || (!w.faults && (w.end.cancelled || task == ""))
  }

  lemma {:induction false} LastConcat(d: Disk, a: seq<Disk>, b: seq<Disk>)
    ensures Last(d, a + b) == Last(Last(d, a), b)
  {
  }

  lemma {:induction false} SavesTouchOneRow(d: Disk, task: string, saves: seq<(Snapshot, SaveWorld)>)
    requires task in d.rows && d.rows[task].status == InFlight
    ensures var t := Last(d, SavesTrace(d, task, saves));
            t.rows.Keys == d.rows.Keys && t.rows[task].status == InFlight
            && forall other :: other in d.rows && other != task ==> t.rows[other] == d.rows[other]
    decreases |saves|
  {
    if saves != [] {
      var first := SaveTrace(d, task, saves[0].0, saves[0].1);
      SavesTouchOneRow(Last(d, first), task, saves[1..]);
      LastConcat(d, first, SavesTrace(Last(d, first), task, saves[1..]));
    }
  }

  lemma {:induction false} CloseTouchesOneRow(d: Disk, task: string, w: ResumeWorld)
    requires task in d.rows && d.rows[task].status == InFlight && w.loads
    ensures var t := Last(d, CloseTrace(d, task, w));
            t.rows.Keys == d.rows.Keys && (t.rows[task].status == InFlight <==> LeftInFlight(task, w))
            && forall other :: other in d.rows && other != task ==> t.rows[other] == d.rows[other]
  {
  }

  lemma {:induction false} ResumeOneTouchesOneRow(d: Disk, task: string, w: ResumeWorld)
    requires task in d.rows && d.rows[task].status == InFlight
    ensures var t := Last(d, ResumeOneTrace(d, task, w));
            t.rows.Keys == d.rows.Keys && (t.rows[task].status == InFlight <==> LeftInFlight(task, w))
            && forall other :: other in d.rows && other != task ==> t.rows[other] == d.rows[other]
  {
    if w.loads {
      var saves := SavesTrace(d, task, w.saves);
      SavesTouchOneRow(d, task, w.saves);
      CloseTouchesOneRow(Last(d, saves), task, w);
      LastConcat(d, saves, CloseTrace(Last(d, saves), task, w));
    }
  }

  predicate Listing(d: Disk, tasks: seq<string>) {
    && (forall i :: 0 <= i < |tasks| ==> tasks[i] in d.rows && d.rows[tasks[i]].status == InFlight)
    && forall i, j :: 0 <= i < j < |tasks| ==> tasks[i] != tasks[j]
  }

  /** Every disk has a listing of its in-flight rows. */
  lemma {:induction false} InFlightRowsAreListed(d: Disk, rows: set<string>) returns (tasks: seq<string>)
    requires rows <= d.rows.Keys
    ensures Listing(d, tasks)
    ensures forall task :: task in tasks <==> task in rows && d.rows[task].status == InFlight
    decreases rows
  {
    tasks := [];
    if row :| row in rows {
      tasks := InFlightRowsAreListed(d, rows - {row});
      if d.rows[row].status == InFlight {
        tasks := tasks + [row];
      }
    }
  }

  /** The disk once the first listed run is closed: only its row has changed. */
  lemma FirstResumed(d: Disk, tasks: seq<string>, worlds: seq<ResumeWorld>) returns (t: Disk, end: Disk)
    requires |tasks| == |worlds| > 0 && Listing(d, tasks)
    ensures t.rows.Keys == d.rows.Keys && Listing(t, tasks[1..]) && tasks[0] !in tasks[1..]
    ensures t.rows[tasks[0]].status == InFlight <==> LeftInFlight(tasks[0], worlds[0])
    ensures forall other :: other in d.rows && other != tasks[0] ==> t.rows[other] == d.rows[other]
    ensures end == Last(d, ResumeTrace(d, tasks, worlds)) == Last(t, ResumeTrace(t, tasks[1..], worlds[1..]))
  {
    var first := ResumeOneTrace(d, tasks[0], worlds[0]);
    t := Last(d, first);
    ResumeOneTouchesOneRow(d, tasks[0], worlds[0]);
    LastConcat(d, first, ResumeTrace(t, tasks[1..], worlds[1..]));
    end := Last(d, ResumeTrace(d, tasks, worlds));
  }

  lemma {:induction false} UnlistedRowsStay(d: Disk, tasks: seq<string>, worlds: seq<ResumeWorld>, task: string)
    requires |tasks| == |worlds| && Listing(d, tasks) && task in d.rows && task !in tasks
    ensures task in Last(d, ResumeTrace(d, tasks, worlds)).rows
    ensures Last(d, ResumeTrace(d, tasks, worlds)).rows[task] == d.rows[task]
    decreases |tasks|
  {
    if tasks != [] {
      var t, _ := FirstResumed(d, tasks, worlds);
      UnlistedRowsStay(t, tasks[1..], worlds[1..], task);
    }
  }

  /** No poison loop: after the boot's pass, a run is offered again on the next boot exactly when it
      could not be loaded or closed, or was stopped on purpose. */
  lemma {:induction false} ResumedOncePerBoot(d: Disk, tasks: seq<string>, worlds: seq<ResumeWorld>, i: nat)
    requires |tasks| == |worlds| && Listing(d, tasks) && i < |tasks|
    ensures tasks[i] in Last(d, ResumeTrace(d, tasks, worlds)).rows
    ensures Last(d, ResumeTrace(d, tasks, worlds)).rows[tasks[i]].status == InFlight <==>
          LeftInFlight(tasks[i], worlds[i])
    decreases |tasks|
  {
    var t, end := FirstResumed(d, tasks, worlds);
    if i == 0 {
      UnlistedRowsStay(t, tasks[1..], worlds[1..], tasks[0]);
      assert end.rows[tasks[0]] == t.rows[tasks[0]];
    } else {
      var rest, after := tasks[1..], worlds[1..];
      assert rest[i - 1] == tasks[i] && after[i - 1] == worlds[i];
      ResumedOncePerBoot(t, rest, after, i - 1);
    }
  }

  lemma {:induction false} SavesWithoutPinKeepRefs(d: Disk, task: string, saves: seq<(Snapshot, SaveWorld)>)
    requires forall s :: s in saves ==> s.0.tip.NoTip? || !s.1.pins
    ensures forall t :: t in SavesTrace(d, task, saves) ==> t.refs == d.refs
    decreases |saves|
  {
    if saves != [] {
      var first := SaveTrace(d, task, saves[0].0, saves[0].1);
      SavesWithoutPinKeepRefs(Last(d, first), task, saves[1..]);
    }
  }

  /** A re-run, fresh or seeded, keeps the old pin for manual recovery until its first save with a
      tip, or until it is done. */
  lemma {:induction false} OldPinSurvivesUntilFirstSave(d: Disk, task: string, w: ResumeWorld)
    requires forall s :: s in w.saves ==> s.0.tip.NoTip? || !s.1.pins
    requires !w.faults && w.end.done && w.end.deletes ==> LeftInFlight(task, w)
    requires ResumeRef(task) in d.refs
    ensures forall t :: t in ResumeOneTrace(d, task, w) ==>
              ResumeRef(task) in t.refs && t.refs[ResumeRef(task)] == d.refs[ResumeRef(task)]
  {
    SavesWithoutPinKeepRefs(d, task, w.saves);
    ResumePinsAreNotThrowaway(task);
  }

  // --- The deliverable of a resumed run ---

  /** Some ref that no run-end sweep removes leads to `c`. */
  ghost predicate Held(g: Graph, d: Disk, c: Commit)
    requires WellFormed(g, d)
  {
    exists b :: b in d.refs && !KeptBranches.Throwaway(b) && Ancestor(g, c, d.refs[b])
  }

  lemma {:induction false} SavesMoveOnlyThePin(d: Disk, task: string, saves: seq<(Snapshot, SaveWorld)>)
    ensures Last(d, SavesTrace(d, task, saves)).refs - {ResumeRef(task)} == d.refs - {ResumeRef(task)}
    decreases |saves|
  {
    if saves != [] {
      var first := SaveTrace(d, task, saves[0].0, saves[0].1);
      SavesMoveOnlyThePin(Last(d, first), task, saves[1..]);
      LastConcat(d, first, SavesTrace(Last(d, first), task, saves[1..]));
    }
  }

  /** The refs a finished resumed run leaves: what its sweep spared of the rest, without its own pin. */
  lemma {:induction false} FinishedResumeLeaves(d: Disk, task: string, w: ResumeWorld)
    requires task in d.rows && task != "" && w.loads && !w.faults && w.end == EndWorld(true, false, true, true)
    ensures Last(d, ResumeOneTrace(d, task, w)).refs == Sweep(d, w.gone).refs - {ResumeRef(task)}
  {
    var saves := SavesTrace(d, task, w.saves);
    var mid := Last(d, saves);
    SavesMoveOnlyThePin(d, task, w.saves);
    LastConcat(d, saves, CloseTrace(mid, task, w));
    assert Last(mid, CloseTrace(mid, task, w)).refs == Sweep(mid, w.gone).refs - {ResumeRef(task)};
    var gone := set b | b in w.gone && KeptBranches.Throwaway(b);
    assert (mid.refs - gone) - {ResumeRef(task)} == (mid.refs - {ResumeRef(task)}) - gone;
    assert (d.refs - gone) - {ResumeRef(task)} == (d.refs - {ResumeRef(task)}) - gone;
  }

  /** A lasting ref other than the run's own pin leads to `c`. */
  ghost predicate HeldBeside(g: Graph, d: Disk, task: string, c: Commit)
    requires WellFormed(g, d)
  {
    exists b :: b in d.refs && b != ResumeRef(task) && !KeptBranches.Throwaway(b) && Ancestor(g, c, d.refs[b])
  }

  /** A resumed run that finishes is never re-pinned under nilcore/kept/: over the whole resumption,
      whatever it saved, a commit is held at its end exactly when a lasting ref other than its own pin
      led to it before. */
  lemma {:induction false} FinishedResumeHoldsTipExactly(g: Graph, d: Disk, task: string, w: ResumeWorld, c: Commit)
    requires WellFormed(g, d) && task in d.rows && task != "" && w.loads && !w.faults
    requires w.end == EndWorld(true, false, true, true)
    ensures WellFormed(g, Last(d, ResumeOneTrace(d, task, w)))
    ensures Held(g, Last(d, ResumeOneTrace(d, task, w)), c) <==> HeldBeside(g, d, task, c)
  {
    var t := Last(d, ResumeOneTrace(d, task, w));
    FinishedResumeLeaves(d, task, w);
    if b :| b in d.refs && b != ResumeRef(task) && !KeptBranches.Throwaway(b) && Ancestor(g, c, d.refs[b]) {
      assert b in t.refs && t.refs[b] == d.refs[b];
    }
    if b :| b in t.refs && !KeptBranches.Throwaway(b) && Ancestor(g, c, t.refs[b]) {
      assert b in d.refs && d.refs[b] == t.refs[b] && b != ResumeRef(task);
    }
  }

  /** A verified tip held by its own pin alone: the resumed run finishes, and nothing lasting holds it. */
  lemma {:induction false} FinishedResumeLosesItsTip() returns (g: Graph, d: Disk, task: string, w: ResumeWorld)
    ensures WellFormed(g, d) && Wants(d, task, 1) && Contains(g, d, task, 1) && Held(g, d, 1)
    ensures WellFormed(g, Last(d, ResumeOneTrace(d, task, w))) && !Held(g, Last(d, ResumeOneTrace(d, task, w)), 1)
    ensures Plan(task, d.rows[task].snapshot, w.verifies).0 == At(1)
  {
    task := SuperviseTaskID("t");
    var ref := ResumeRef(task);
    g := [{}, {0}];
    assert ref[0] == 'r' && "main"[0] == 'm';
    ResumePinsAreNotThrowaway(task);
    d := Disk(map[task := Row(InFlight, Snapshot(At(1), []))], map["main" := 0, ref := 1]);
    w := ResumeWorld(true, true, [], false, {}, EndWorld(true, false, true, true));
    assert Ancestor(g, 1, d.refs[ref]) && !Ancestor(g, 1, 0);
    FinishedResumeHoldsTipExactly(g, d, task, w, 1);
  }

  // --- The checkpoint and the repository the operations run against ---

  predicate Ends(history: seq<Disk>, d: Disk) {
    history != [] && history[|history| - 1] == d
  }

  lemma {:induction false} EndsAfter(history: seq<Disk>, d: Disk, trace: seq<Disk>, t: Disk)
    requires Ends(history, d) && Ends(history + trace, t)
    ensures t == Last(d, trace)
  {
  }

  lemma HistoryGrows(history: seq<Disk>, a: seq<Disk>, b: seq<Disk>)
    ensures (history + a) + b == history + (a + b)
  {
  }

  lemma {:induction false} SavesTraceStep(
      history: seq<Disk>, d: Disk, task: string, saves: seq<(Snapshot, SaveWorld)>, i: nat)
    requires i < |saves|
    ensures var first := SaveTrace(d, task, saves[i].0, saves[i].1);
            history + SavesTrace(d, task, saves[i..])
                == (history + first) + SavesTrace(Last(d, first), task, saves[i + 1..])
  {
  }

  lemma {:induction false} ResumeTraceStep(history: seq<Disk>, d: Disk, tasks: seq<string>, worlds: seq<ResumeWorld>,
      i: nat)
    requires |tasks| == |worlds| && i < |tasks|
    ensures var first := ResumeOneTrace(d, tasks[i], worlds[i]);
            history + ResumeTrace(d, tasks[i..], worlds[i..])
            == (history + first) + ResumeTrace(Last(d, first), tasks[i + 1..], worlds[i + 1..])
  {
  }

  class Server {
    var rows: map<string, Row>
    var refs: map<string, Commit>

    /** Every durable state so far, the current one last. */
    ghost var history: seq<Disk>

    ghost function Now(): Disk
      reads this
    {
      Disk(rows, refs)
    }

    ghost predicate Valid()
      reads this
    {
      Ends(history, Now())
    }

    constructor (d: Disk)
      ensures Valid() && Now() == d && history == [d]
    {
      rows, refs := d.rows, d.refs;
      history := [d];
    }

    method SaveState(task: string, snap: Snapshot, w: SaveWorld) returns (ok: bool)
      requires Valid()
      modifies this
      ensures Valid() && ok == w.saves
      ensures history == old(history) + SaveTrace(old(Now()), task, snap, w)
    {
      var ref := MakeResumeRef(task);
      if snap.tip.At? && w.pins {
        refs := refs[ref := snap.tip.commit];
        history := history + [Now()];
      }
      if w.saves {
        rows := rows[task := Row(InFlight, snap)];
        history := history + [Now()];
      }
      return w.saves;
    }

    method Complete(task: string, done: bool, works: bool) returns (ok: bool)
      requires Valid()
      modifies this
      ensures Valid() && ok == works
      ensures history == old(history) + CompleteTrace(old(Now()), task, done, works)
    {
      if works {
        rows := rows[task := Row(if done then Done else Failed, NO_SNAPSHOT)];
        history := history + [Now()];
      }
      return works;
    }

    method FinalizeSupervise(task: string, w: EndWorld)
      requires Valid()
      modifies this
      ensures Valid()
      ensures history == old(history) + FinalizeTrace(old(Now()), task, w)
    {
      if task == "" || w.cancelled {
        return;
      }
      var ok := Complete(task, w.done, w.completes);
      if !ok {
        return;
      }
      if w.done && w.deletes {
        var ref := MakeResumeRef(task);
        refs := refs - {ref};
        history := history + [Now()];
      }
    }

    method SweepBranches(gone: set<string>)
      requires Valid()
      modifies this
      ensures Valid() && history == old(history) + [Sweep(old(Now()), gone)]
    {
      refs := refs - (set b | b in gone && KeptBranches.Throwaway(b));
      history := history + [Now()];
    }

    method RunResumed(task: string, saves: seq<(Snapshot, SaveWorld)>)
      requires Valid()
      modifies this
      ensures Valid()
      ensures history == old(history) + SavesTrace(old(Now()), task, saves)
    {
      var i := 0;
      while i < |saves|
        invariant 0 <= i <= |saves| && Valid()
        invariant history + SavesTrace(Now(), task, saves[i..]) == old(history) + SavesTrace(old(Now()), task, saves)
      {
        ghost var before, past := Now(), history;
        var _ := SaveState(task, saves[i].0, saves[i].1);
        SavesTraceStep(past, before, task, saves, i);
        EndsAfter(past, before, SaveTrace(before, task, saves[i].0, saves[i].1), Now());
        i := i + 1;
      }
    }

    method Close(task: string, w: ResumeWorld)
      requires Valid()
      modifies this
      ensures Valid()
      ensures history == old(history) + CloseTrace(old(Now()), task, w)
    {
      SweepBranches(w.gone);
      if w.faults {
        var _ := Complete(task, false, w.end.completes);
      } else {
        FinalizeSupervise(task, w.end);
      }
    }

    method ResumeOne(task: string, w: ResumeWorld) returns (base: Tip, seed: Option<Seed>)
      requires Valid()
      modifies this
      ensures Valid()
      ensures history == old(history) + ResumeOneTrace(old(Now()), task, w)
      ensures task in old(rows) && w.loads ==> (base, seed) == Plan(task, old(rows)[task].snapshot, w.verifies)
    {
      base, seed := NoTip, None;
      if task in rows && w.loads {
        var snap := rows[task].snapshot;
        if snap.tip.At? && w.verifies {
          var branch := MakeResumeRef(task);
          base, seed := snap.tip, Some(Seed(snap.tip.commit, branch, snap.nodes));
        }
        ghost var before, past, saves := Now(), history, SavesTrace(Now(), task, w.saves);
        RunResumed(task, w.saves);
        EndsAfter(past, before, saves, Now());
        Close(task, w);
        HistoryGrows(past, saves, CloseTrace(Last(before, saves), task, w));
      }
    }

    method ResumeSupervise(tasks: seq<string>, worlds: seq<ResumeWorld>)
      requires Valid() && |tasks| == |worlds| && Listing(Now(), tasks)
      modifies this
      ensures Valid()
      ensures history == old(history) + ResumeTrace(old(Now()), tasks, worlds)
    {
      var i := 0;
      while i < |tasks|
        invariant 0 <= i <= |tasks| && Valid()
        invariant history + ResumeTrace(Now(), tasks[i..], worlds[i..])
              == old(history) + ResumeTrace(old(Now()), tasks, worlds)
      {
        ghost var before, past := Now(), history;
        var _, _ := ResumeOne(tasks[i], worlds[i]);
        ResumeTraceStep(past, before, tasks, worlds, i);
        EndsAfter(past, before, ResumeOneTrace(before, tasks[i], worlds[i]), Now());
        i := i + 1;
      }
    }
  }
}
