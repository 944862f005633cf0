/** One swarm shard attempt and the scoreboard it reports to: shardContext.run with recordFail and
    recordVerdict (cmd/nilcore/swarm.go) and Board.Record (internal/swarm/board/board.go). */
module ShardRun {

  datatype FanIn = CollateOnly | MergeBranches

  datatype Shard = Shard(id: string, leaf: string, base: string, attempt: nat)

  datatype Check = Errs | Red | Green

  /** What each stage of the attempt meets. `suffix` is the fresh branch suffix; `preserves` says a
      rejected attempt had changes that could be committed. */
  datatype World = World(
    refs: set<string>, suffix: string, cuts: bool, hasBox: bool, plans: bool, gates: bool, works: bool,
    check: Check, commits: bool, preserves: bool)

  datatype Result = Result(branch: string, passed: bool)

  datatype Verdict = Verdict(id: string, pass: nat, passed: bool)

  // --- The scoreboard ---

  datatype Tally = Tally(curPass: nat, checked: nat, passed: nat, failed: nat, retried: nat, everFailed: set<string>)

  /** A verdict of a later pass starts the tallies over. */
  function Record(t: Tally, v: Verdict): Tally {
    var base := if v.pass > t.curPass then Tally(v.pass, 0, 0, 0, 0, t.everFailed) else t;
    if v.passed then
      base.(checked := base.checked + 1, passed := base.passed + 1,
            retried := base.retried + (if v.id in base.everFailed && v.pass > 1 then 1 else 0))
    else
      base.(checked := base.checked + 1, failed := base.failed + 1, everFailed := base.everFailed + {v.id})
  }

  const BLANK := Tally(0, 0, 0, 0, 0, {})

  function TallyOf(records: seq<Verdict>): Tally {
    if records == [] then BLANK else Record(TallyOf(records[..|records| - 1]), records[|records| - 1])
  }

  lemma TallyPush(records: seq<Verdict>, v: Verdict)
    ensures TallyOf(records + [v]) == Record(TallyOf(records), v)
  {
  }

  class Board {
    var curPass: nat
    var checked: nat
    var passed: nat
    var failed: nat
    var retried: nat
    var everFailed: set<string>

    /** Every verdict recorded, in the order the lock admitted them. */
    ghost var records: seq<Verdict>

    ghost predicate Valid()
      reads this
    {
      Tally(curPass, checked, passed, failed, retried, everFailed) == TallyOf(records)
    }

    constructor ()
      ensures Valid() && records == []
    {
      curPass, checked, passed, failed, retried, everFailed := 0, 0, 0, 0, 0, {};
      records := [];
    }

    method RecordVerdict(v: Verdict)
      requires Valid()
      modifies this
      ensures Valid() && records == old(records) + [v]
    {
      if v.pass > curPass {
        curPass := v.pass;
        checked, passed, failed, retried := 0, 0, 0, 0;
      }
      checked := checked + 1;
      if v.passed {
        passed := passed + 1;
        if v.id in everFailed && v.pass > 1 {
          retried := retried + 1;
        }
      } else {
        failed := failed + 1;
        everFailed := everFailed + {v.id};
      }
      TallyPush(records, v);
      records := records + [v];
    }
  }

  // --- The attempt ---

  /** The branch an attempt is cut on. */
  function BranchName(s: Shard, w: World): (b: string)
    ensures b != "" && "swarm/" + s.leaf <= b
  {
    var plain := "swarm/" + s.leaf;
    if s.attempt > 0 || s.base != "" || plain in w.refs then plain + "-a" + w.suffix else plain
  }

  /** With a fresh suffix no attempt, retried, rebased or resumed, is cut on an existing branch. */
  lemma BranchIsFresh(s: Shard, w: World)
    requires "swarm/" + s.leaf + "-a" + w.suffix !in w.refs
    ensures BranchName(s, w) !in w.refs
  {
  }

  /** Only a first attempt from the base, with no branch of its name left over, keeps the plain name. */
  lemma PlainNameExactly(s: Shard, w: World)
    ensures BranchName(s, w) == "swarm/" + s.leaf <==>
              s.attempt == 0 && s.base == "" && "swarm/" + s.leaf !in w.refs
    ensures BranchName(s, w) != "swarm/" + s.leaf ==> BranchName(s, w) == "swarm/" + s.leaf + "-a" + w.suffix
  {
    assert |"swarm/" + s.leaf + "-a" + w.suffix| > |"swarm/" + s.leaf|;
  }

  /** The governing check passed, and under merge fan-in its commit landed. */
  predicate Ships(w: World, fanIn: FanIn) {
    w.cuts && w.hasBox && w.plans && w.gates && w.works && w.check.Green? && (fanIn.MergeBranches? ==> w.commits)
  }

  /** One verdict per shard: whether it ships. */
  function Verdicts(shards: seq<Shard>, worlds: seq<World>, fanIn: FanIn): (r: seq<Verdict>)
    requires |shards| == |worlds|
  {
    if shards == [] then []
    else
      var n := |shards| - 1;
      Verdicts(shards[..n], worlds[..n], fanIn)
      + [Verdict(shards[n].id, shards[n].attempt + 1, Ships(worlds[n], fanIn))]
  }

  lemma VerdictsPush(records: seq<Verdict>, shards: seq<Shard>, worlds: seq<World>, fanIn: FanIn, k: nat)
    requires |shards| == |worlds| && k < |shards|
    ensures records + Verdicts(shards[..k + 1], worlds[..k + 1], fanIn)
         == (records + Verdicts(shards[..k], worlds[..k], fanIn))
            + [Verdict(shards[k].id, shards[k].attempt + 1, Ships(worlds[k], fanIn))]
  {
    assert shards[..k + 1][..k] == shards[..k] && worlds[..k + 1][..k] == worlds[..k];
  }

  class ShardContext {
    const fanIn: FanIn
    const board: Board

    constructor (fanIn: FanIn, board: Board)
      ensures this.fanIn == fanIn && this.board == board
    {
      this.fanIn, this.board := fanIn, board;
    }

    method RecordFail(s: Shard, branch: string) returns (r: Result)
      requires board.Valid()
      modifies board
      ensures board.Valid() && board.records == old(board.records) + [Verdict(s.id, s.attempt + 1, false)]
      ensures r == Result(branch, false)
    {
      board.RecordVerdict(Verdict(s.id, s.attempt + 1, false));
      return Result(branch, false);
    }

    method Run(s: Shard, w: World) returns (r: Result)
      requires board.Valid()
      modifies board
      ensures board.Valid() && board.records == old(board.records) + [Verdict(s.id, s.attempt + 1, r.passed)]
      ensures r.passed <==> Ships(w, fanIn)
      ensures r.passed && fanIn.MergeBranches? ==> r.branch == BranchName(s, w) != ""
      ensures !r.passed ==> r.branch == "" || (r.branch == BranchName(s, w) && w.preserves)
    {
      var branch := "swarm/" + s.leaf;
      if s.attempt > 0 || s.base != "" || branch in w.refs {
        branch := branch + "-a" + w.suffix;
      }
      var preserved := if w.preserves then branch else "";
      if !w.cuts {
        r := RecordFail(s, "");
        return;
      }
      if !w.hasBox {
        r := RecordFail(s, preserved);
        return;
      }
      if !w.plans || !w.gates || !w.works {
        r := RecordFail(s, "");
        return;
      }
      if !w.check.Green? {
        board.RecordVerdict(Verdict(s.id, s.attempt + 1, false));
        return Result(preserved, false);
      }
      r := Result("", true);
      if fanIn.MergeBranches? {
        if !w.commits {
          r := RecordFail(s, preserved);
          return;
        }
        r := Result(branch, true);
      }
      board.RecordVerdict(Verdict(s.id, s.attempt + 1, true));
    }

    /** A wave of shards. The scoreboard's lock makes any concurrent schedule one order of verdicts. */
    method RunAll(shards: seq<Shard>, worlds: seq<World>) returns (results: seq<Result>)
      requires board.Valid() && |shards| == |worlds|
      modifies board
      ensures board.Valid() && |results| == |shards|
      ensures forall i :: 0 <= i < |shards| ==> results[i].passed == Ships(worlds[i], fanIn)
      ensures board.records == old(board.records) + Verdicts(shards, worlds, fanIn)
    {
      results := [];
      var k := 0;
      while k < |shards|
        invariant 0 <= k <= |shards| && |results| == k && board.Valid()
        invariant forall i :: 0 <= i < k ==> results[i].passed == Ships(worlds[i], fanIn)
        invariant board.records == old(board.records) + Verdicts(shards[..k], worlds[..k], fanIn)
      {
        var r := Run(shards[k], worlds[k]);
        VerdictsPush(old(board.records), shards, worlds, fanIn, k);
        results := results + [r];
        k := k + 1;
      }
      assert shards[..k] == shards && worlds[..k] == worlds;
    }
  }

  // --- What the tallies count ---

  function Count(records: seq<Verdict>, passed: bool): (n: nat) {
    if records == [] then 0
    else Count(records[..|records| - 1], passed) + (if records[|records| - 1].passed == passed then 1 else 0)
  }

  /** Record `i` is the first of the latest pass. */
  predicate StartsLastPass(records: seq<Verdict>, i: nat) {
    && i < |records|
    && (forall j :: 0 <= j < |records| ==> records[j].pass <= records[i].pass)
    && forall j :: 0 <= j < i ==> records[j].pass < records[i].pass
  }

  predicate Numbered(records: seq<Verdict>) {
    forall j :: 0 <= j < |records| ==> records[j].pass >= 1
  }

  lemma {:induction false} CurPassIsLatest(records: seq<Verdict>)
    ensures forall j :: 0 <= j < |records| ==> records[j].pass <= TallyOf(records).curPass
    ensures records != [] && Numbered(records) ==>
          exists j :: 0 <= j < |records| && records[j].pass == TallyOf(records).curPass
    ensures records == [] ==> TallyOf(records).curPass == 0
    decreases |records|
  {
    if records != [] {
      var init := records[..|records| - 1];
      CurPassIsLatest(init);
      assert records == init + [records[|records| - 1]];
      if init != [] && Numbered(records) {
        var j :| 0 <= j < |init| && init[j].pass == TallyOf(init).curPass;
        assert records[j] == init[j];
      }
    }
  }

  lemma {:induction false} LastStartsPass(init: seq<Verdict>, last: Verdict)
    requires Numbered(init + [last]) && StartsLastPass(init + [last], |init|)
    ensures last.pass > TallyOf(init).curPass
  {
    CurPassIsLatest(init);
    assert (init + [last])[|init|] == last;
    forall j | 0 <= j < |init| ensures init[j].pass < last.pass {
      assert (init + [last])[j] == init[j];
    }
    assert Numbered(init) by {
      assert forall j :: 0 <= j < |init| ==> (init + [last])[j] == init[j];
    }
  }

  lemma {:induction false} PassGoesOn(init: seq<Verdict>, last: Verdict, i: nat)
    requires Numbered(init + [last]) && StartsLastPass(init + [last], i) && i < |init|
    ensures Numbered(init) && StartsLastPass(init, i) && last.pass <= TallyOf(init).curPass
  {
    CurPassIsLatest(init);
    assert forall j :: 0 <= j < |init| ==> (init + [last])[j] == init[j];
    assert (init + [last])[|init|] == last;
  }

  /** `t` counts exactly the verdicts of `records`. */
  predicate Counts(t: Tally, records: seq<Verdict>) {
    t.checked == |records| && t.passed == Count(records, true) && t.failed == Count(records, false)
  }

  lemma {:induction false} CountsStart(init: seq<Verdict>, last: Verdict)
    requires last.pass > TallyOf(init).curPass
    ensures Counts(TallyOf(init + [last]), [last])
  {
  }

  lemma {:induction false} CountsGoOn(init: seq<Verdict>, last: Verdict, since: seq<Verdict>)
    requires last.pass <= TallyOf(init).curPass && Counts(TallyOf(init), since)
    ensures Counts(TallyOf(init + [last]), since + [last])
  {
  }

  /** The tallies count exactly the verdicts from the first of the latest pass on, split by verdict. */
  lemma {:induction false} TalliesCountTheLatestPass(records: seq<Verdict>, i: nat)
    requires Numbered(records) && StartsLastPass(records, i)
    ensures Counts(TallyOf(records), records[i..])
    decreases |records|
  {
    var init, last := records[..|records| - 1], records[|records| - 1];
    assert records == init + [last];
    if i == |init| {
      LastStartsPass(init, last);
      CountsStart(init, last);
      assert records[i..] == [last];
    } else {
      PassGoesOn(init, last, i);
      TalliesCountTheLatestPass(init, i);
      CountsGoOn(init, last, init[i..]);
      assert records[i..] == init[i..] + [last];
    }
  }

  /** Passes plus failures equal the attempts run exactly when no verdict came from a later pass than
      the first one did. */
  lemma {:induction false} TalliesCountEveryRunExactly(records: seq<Verdict>)
    requires Numbered(records) && records != []
    ensures TallyOf(records).passed + TallyOf(records).failed == |records|
       <==> forall j :: 0 <= j < |records| ==> records[j].pass <= records[0].pass
  {
    var i := FirstOfLatest(records);
    TalliesCountTheLatestPass(records, i);
    CountSplits(records[i..]);
  }

  lemma {:induction false} FirstOfLatest(records: seq<Verdict>) returns (i: nat)
    requires records != []
    ensures StartsLastPass(records, i)
    decreases |records|
  {
    var n := |records| - 1;
    if n == 0 {
      i := 0;
    } else {
      i := FirstOfLatest(records[..n]);
      assert records[..n][i] == records[i];
      assert forall j :: 0 <= j < n ==> records[j] == records[..n][j];
      if records[n].pass > records[i].pass {
        i := n;
      }
    }
  }

  lemma {:induction false} CountSplits(records: seq<Verdict>)
    ensures Count(records, true) + Count(records, false) == |records|
    decreases |records|
  {
    if records != [] {
      CountSplits(records[..|records| - 1]);
    }
  }

  // --- What counts as a retry ---

  lemma {:induction false} EverFailedExactly(records: seq<Verdict>, id: string)
    ensures id in TallyOf(records).everFailed <==>
              exists j :: 0 <= j < |records| && records[j].id == id && !records[j].passed
    decreases |records|
  {
    if records != [] {
      var n := |records| - 1;
      EverFailedExactly(records[..n], id);
      assert forall j :: 0 <= j < n ==> records[..n][j] == records[j];
    }
  }

  /** Verdict `k` is a pass, after the first pass of the run, of a shard that failed before. */
  predicate IsRetry(records: seq<Verdict>, k: nat)
    requires k < |records|
  {
    && records[k].passed && records[k].pass > 1
    && exists j :: 0 <= j < k && records[j].id == records[k].id && !records[j].passed
  }

  function Retries(records: seq<Verdict>, i: nat): (r: set<nat>) {
    set k: nat | i <= k < |records| && IsRetry(records, k)
  }

  lemma {:induction false} RetryStays(init: seq<Verdict>, last: Verdict, k: nat)
    requires k < |init|
    ensures IsRetry(init + [last], k) <==> IsRetry(init, k)
  {
    var all := init + [last];
    assert forall j :: 0 <= j < |init| ==> all[j] == init[j];
    if IsRetry(all, k) {
      var j :| 0 <= j < k && all[j].id == all[k].id && !all[j].passed;
      assert init[j].id == init[k].id;
    }
    if IsRetry(init, k) {
      var j :| 0 <= j < k && init[j].id == init[k].id && !init[j].passed;
      assert all[j].id == all[k].id;
    }
  }

  lemma {:induction false} LastIsRetry(init: seq<Verdict>, last: Verdict)
    ensures IsRetry(init + [last], |init|)
         <==> last.passed && last.pass > 1 && last.id in TallyOf(init).everFailed
  {
    var all := init + [last];
    EverFailedExactly(init, last.id);
    assert forall j :: 0 <= j < |init| ==> all[j] == init[j];
  }

  lemma {:induction false} RetriesPush(init: seq<Verdict>, last: Verdict, i: nat)
    requires i <= |init|
    ensures |Retries(init + [last], i)| == |Retries(init, i)| + (if IsRetry(init + [last], |init|) then 1 else 0)
  {
    var all := init + [last];
    forall k: nat ensures k in Retries(all, i) <==> k in Retries(init, i) || (k == |init| && IsRetry(all, k)) {
      if k < |init| {
        RetryStays(init, last, k);
      }
    }
    if IsRetry(all, |init|) {
      assert Retries(all, i) == Retries(init, i) + {|init|} && |init| !in Retries(init, i);
    } else {
      assert Retries(all, i) == Retries(init, i);
    }
  }

  /** The retry count is the number of verdicts of the latest pass that turned a failed shard green. */
  lemma {:induction false} RetriesAreCountedExactly(records: seq<Verdict>, i: nat)
    requires Numbered(records) && StartsLastPass(records, i)
    ensures TallyOf(records).retried == |Retries(records, i)|
    decreases |records|
  {
    var init, last := records[..|records| - 1], records[|records| - 1];
    assert records == init + [last];
    RetriesPush(init, last, i);
    LastIsRetry(init, last);
    if i == |init| {
      LastStartsPass(init, last);
      assert Retries(init, i) == {};
    } else {
      PassGoesOn(init, last, i);
      RetriesAreCountedExactly(init, i);
    }
  }
}
