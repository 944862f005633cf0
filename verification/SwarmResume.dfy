/** What a resumed swarm run owes: the seed set built in buildSwarm (cmd/nilcore/swarm.go) from the
    durable shard rows and the retry ledger (internal/swarm/queue.go), and the verdict of run. */
module SwarmResume {

  datatype Status = Queued | Running | Passed | Failed | Exhausted

  datatype Shard = Shard(id: string, goal: string, state: Status, branch: string, base: string, attempt: nat)

  datatype Ledger = Ledger(attempts: map<string, int>, maxAttempts: int)

  // --- The retry-budget gate ---

  predicate Spendable(led: Ledger, key: string) {
    key in led.attempts && led.attempts[key] < led.maxAttempts
  }

  /** Some recorded claim of the shard is below the ceiling, or none is recorded yet. */
  ghost predicate HasBudget(led: Ledger, id: string) {
    led.maxAttempts > 0 &&
    ((exists k :: id + "/" <= k && Spendable(led, k)) || forall k :: k in led.attempts ==> !(id + "/" <= k))
  }

  /** A shard is out of budget exactly when requeue is off, or it has recorded claims and every one of them
      has reached the ceiling. */
  lemma BudgetIsSpentExactly(led: Ledger, id: string)
    ensures !HasBudget(led, id) <==>
              || led.maxAttempts <= 0
              || ((exists k :: k in led.attempts && id + "/" <= k)
                  && forall k :: k in led.attempts && id + "/" <= k ==> led.attempts[k] >= led.maxAttempts)
  {
    if led.maxAttempts > 0 && HasBudget(led, id) {
      if k :| id + "/" <= k && Spendable(led, k) {
        assert led.attempts[k] < led.maxAttempts;
      }
    }
    if k :| k in led.attempts && id + "/" <= k && led.attempts[k] < led.maxAttempts {
      assert Spendable(led, k);
    }
  }

  method LedgerHasBudget(led: Ledger, id: string) returns (has: bool)
    ensures has == HasBudget(led, id)
  {
    if led.maxAttempts <= 0 {
      return false;
    }
    var prefix, seen, keys := id + "/", false, led.attempts.Keys;
    while keys != {}
      invariant keys <= led.attempts.Keys
      invariant seen ==> exists k :: k in led.attempts && prefix <= k
      invariant forall k :: k in led.attempts && k !in keys && prefix <= k ==> seen && !Spendable(led, k)
      decreases |keys|
    {
      var key :| key in keys;
      keys := keys - {key};
      if prefix <= key {
        seen := true;
        if led.attempts[key] < led.maxAttempts {
          assert Spendable(led, key);
          return true;
        }
      }
    }
    return !seen;
  }

  // --- The seed set ---

  /** Queue.Failed: red rows, withheld under a ledger when their budget is spent. */
  ghost function FailedRows(rows: seq<Shard>, led: Ledger): (r: seq<Shard>) {
    if rows == [] then []
    else
      var last := rows[|rows| - 1];
      FailedRows(rows[..|rows| - 1], led) + (if last.state == Failed && HasBudget(led, last.id) then [last] else [])
  }

  function Red(rows: seq<Shard>): (n: nat)
    ensures n <= |rows|
  {
    if rows == [] then 0 else Red(rows[..|rows| - 1]) + (if rows[|rows| - 1].state == Failed then 1 else 0)
  }

  function ResetForResume(s: Shard): (r: Shard) {
    s.(state := Queued, branch := "", base := "", attempt := 0)
  }

  predicate Unfinished(s: Shard, merged: set<string>) {
    s.state == Queued || s.state == Running || (s.state == Passed && s.id !in merged)
  }

  function IncompleteRows(rows: seq<Shard>, merged: set<string>): (r: seq<Shard>) {
    if rows == [] then []
    else
      var last := rows[|rows| - 1];
      IncompleteRows(rows[..|rows| - 1], merged) + (if Unfinished(last, merged) then [ResetForResume(last)] else [])
  }

  function Ids(s: seq<Shard>): (r: set<string>) {
    set x | x in s :: x.id
  }

  /** First occurrence of each id. */
  function Dedupe(s: seq<Shard>): (r: seq<Shard>) {
    if s == [] then []
    else
      var init := s[..|s| - 1];
      if s[|s| - 1].id in Ids(init) then Dedupe(init) else Dedupe(init) + [s[|s| - 1]]
  }

  method QueueFailed(rows: seq<Shard>, led: Ledger) returns (out: seq<Shard>, red: nat)
    ensures out == FailedRows(rows, led) && red == Red(rows)
  {
    out, red := [], 0;
    var i := 0;
    while i < |rows|
      invariant 0 <= i <= |rows|
      invariant out == FailedRows(rows[..i], led) && red == Red(rows[..i])
    {
      assert rows[..i + 1][..i] == rows[..i];
      if rows[i].state == Failed {
        red := red + 1;
        var eligible := LedgerHasBudget(led, rows[i].id);
        if eligible {
          out := out + [rows[i]];
        }
      }
      i := i + 1;
    }
    assert rows[..i] == rows;
  }

  method ResumeIncomplete(rows: seq<Shard>, merged: set<string>) returns (out: seq<Shard>)
    ensures out == IncompleteRows(rows, merged)
  {
    out := [];
    var i := 0;
    while i < |rows|
      invariant 0 <= i <= |rows|
      invariant out == IncompleteRows(rows[..i], merged)
    {
      assert rows[..i + 1][..i] == rows[..i];
      match rows[i].state {
        case Passed =>
          if rows[i].id !in merged {
            out := out + [ResetForResume(rows[i])];
          }
        case Queued | Running => out := out + [ResetForResume(rows[i])];
        case Failed | Exhausted =>
      }
      i := i + 1;
    }
    assert rows[..i] == rows;
  }

  predicate Compacted(kept: seq<Shard>, seen: set<string>, done: seq<Shard>) {
    kept == Dedupe(done) && seen == Ids(done)
  }

  lemma IdsPush(s: seq<Shard>, x: Shard)
    ensures Ids(s + [x]) == Ids(s) + {x.id}
  {
  }

  lemma {:induction false} CompactedPush(kept: seq<Shard>, seen: set<string>, was: seq<Shard>, i: nat)
    requires i < |was| && Compacted(kept, seen, was[..i])
    ensures was[i].id in seen ==> Compacted(kept, seen, was[..i + 1])
    ensures was[i].id !in seen ==> Compacted(kept + [was[i]], seen + {was[i].id}, was[..i + 1])
  {
    assert was[..i + 1] == was[..i] + [was[i]] && was[..i + 1][..i] == was[..i];
    IdsPush(was[..i], was[i]);
  }

  /** Compacts in place: the first `n` slots hold the result, whatever follows is left over. */
  method DedupeShards(a: array<Shard>) returns (n: nat)
    modifies a
    ensures n <= a.Length && a[..n] == Dedupe(old(a[..]))
  {
    n := 0;
    var i, seen := 0, {};
    ghost var was := a[..];
    while i < a.Length
      invariant 0 <= n <= i <= a.Length
      invariant Compacted(a[..n], seen, was[..i])
      invariant forall k :: i <= k < a.Length ==> a[k] == was[k]
    {
      ghost var kept := a[..n];
      CompactedPush(kept, seen, was, i);
      if a[i].id !in seen {
        seen := seen + {a[i].id};
        a[n] := a[i];
        n := n + 1;
        assert a[..n] == kept + [was[i]];
      }
      i := i + 1;
    }
    assert was[..i] == was;
  }

  method ResumeSeed(rows: seq<Shard>, merged: set<string>, led: Ledger) returns (initial: seq<Shard>, unresolved: nat)
    ensures initial == Seed(rows, merged, led)
    ensures unresolved == Unresolved(rows, led)
  {
    var failed, red := QueueFailed(rows, led);
    var incomplete := ResumeIncomplete(rows, merged);
    var all := failed + incomplete;
    var union := new Shard[|all|](i requires 0 <= i < |all| => all[i]);
    assert union[..] == all;
    var n := DedupeShards(union);
    FailedAtMostRed(rows, led);
    return union[..n], red - |failed|;
  }

  ghost function Seed(rows: seq<Shard>, merged: set<string>, led: Ledger): (r: seq<Shard>) {
    Dedupe(FailedRows(rows, led) + IncompleteRows(rows, merged))
  }

  /** Red shards the resume does not re-admit. */
  ghost function Unresolved(rows: seq<Shard>, led: Ledger): (n: nat) {
    FailedAtMostRed(rows, led);
    Red(rows) - |FailedRows(rows, led)|
  }

  lemma {:induction false} FailedAtMostRed(rows: seq<Shard>, led: Ledger)
    ensures |FailedRows(rows, led)| <= Red(rows)
    decreases |rows|
  {
    if rows != [] {
      FailedAtMostRed(rows[..|rows| - 1], led);
    }
  }

  // --- Coverage: nothing planned is forgotten, nothing is dispatched twice ---

  predicate DistinctIds(s: seq<Shard>) {
    forall i, j :: 0 <= i < j < |s| ==> s[i].id != s[j].id
  }

  predicate Settled(s: Shard, merged: set<string>) {
    s.state == Passed && s.id in merged
  }

  ghost predicate Admitted(s: Shard, merged: set<string>, led: Ledger) {
    Unfinished(s, merged) || (s.state == Failed && HasBudget(led, s.id))
  }

  ghost predicate Withheld(s: Shard, led: Ledger) {
    s.state == Failed && !HasBudget(led, s.id)
  }

  ghost function CountWhere(rows: seq<Shard>, p: Shard -> bool): (n: nat) {
    if rows == [] then 0 else CountWhere(rows[..|rows| - 1], p) + (if p(rows[|rows| - 1]) then 1 else 0)
  }

  /** The two queries return exactly the admitted rows, those of one row reset or as stored. */
  lemma {:induction false} QueriesSelect(rows: seq<Shard>, merged: set<string>, led: Ledger, x: Shard)
    ensures x in FailedRows(rows, led) <==> x in rows && x.state == Failed && HasBudget(led, x.id)
    ensures x in IncompleteRows(rows, merged) <==>
          exists s :: s in rows && Unfinished(s, merged) && x == ResetForResume(s)
    decreases |rows|
  {
    if rows != [] {
      var init, last := rows[..|rows| - 1], rows[|rows| - 1];
      QueriesSelect(init, merged, led, x);
      assert rows == init + [last];
    }
  }

  lemma {:induction false} QueryIds(rows: seq<Shard>, merged: set<string>, led: Ledger, id: string)
    ensures id in Ids(FailedRows(rows, led) + IncompleteRows(rows, merged)) <==>
              exists s :: s in rows && s.id == id && Admitted(s, merged, led)
  {
    var failed, incomplete := FailedRows(rows, led), IncompleteRows(rows, merged);
    if s: Shard :| s in rows && s.id == id && Admitted(s, merged, led) {
      QueriesSelect(rows, merged, led, s);
      QueriesSelect(rows, merged, led, ResetForResume(s));
      assert s in failed || ResetForResume(s) in incomplete;
      assert id in Ids(failed + incomplete);
    }
    if id in Ids(failed + incomplete) {
      var x: Shard :| x in failed + incomplete && x.id == id;
      QueriesSelect(rows, merged, led, x);
    }
  }

  /** The id of every row sits at one place. */
  lemma {:induction false} SameRow(rows: seq<Shard>, s: Shard, t: Shard)
    requires DistinctIds(rows) && s in rows && t in rows && s.id == t.id
    ensures s == t
  {
  }

  lemma {:induction false} QueriesDistinct(rows: seq<Shard>, merged: set<string>, led: Ledger)
    requires DistinctIds(rows)
    ensures DistinctIds(FailedRows(rows, led)) && DistinctIds(IncompleteRows(rows, merged))
    decreases |rows|
  {
    if rows != [] {
      var init, last := rows[..|rows| - 1], rows[|rows| - 1];
      QueriesDistinct(init, merged, led);
      assert forall s :: s in init ==> s.id != last.id;
      forall x | x in FailedRows(init, led) || x in IncompleteRows(init, merged) ensures x.id != last.id {
        QueriesSelect(init, merged, led, x);
      }
    }
  }

  lemma {:induction false} QueriesDisjoint(rows: seq<Shard>, merged: set<string>, led: Ledger)
    requires DistinctIds(rows)
    ensures DistinctIds(FailedRows(rows, led) + IncompleteRows(rows, merged))
  {
    QueriesDistinct(rows, merged, led);
    forall x, y | x in FailedRows(rows, led) && y in IncompleteRows(rows, merged) ensures x.id != y.id {
      QueriesSelect(rows, merged, led, x);
      QueriesSelect(rows, merged, led, y);
      var s :| s in rows && Unfinished(s, merged) && y == ResetForResume(s);
      if x.id == s.id {
        SameRow(rows, x, s);
      }
    }
  }

  lemma {:induction false} DedupeKeepsDistinct(s: seq<Shard>)
    requires DistinctIds(s)
    ensures Dedupe(s) == s
    decreases |s|
  {
    if s != [] {
      var init, last := s[..|s| - 1], s[|s| - 1];
      forall i | 0 <= i < |init| ensures init[i] == s[i] && init[i].id != last.id {
      }
      assert last.id !in Ids(init);
      DedupeKeepsDistinct(init);
      assert s == init + [last];
    }
  }

  /** For any input, dedupe keeps each id exactly once and drops none. */
  lemma {:induction false} DedupeIsExact(s: seq<Shard>)
    ensures DistinctIds(Dedupe(s)) && Ids(Dedupe(s)) == Ids(s)
    decreases |s|
  {
    if s != [] {
      var init, last := s[..|s| - 1], s[|s| - 1];
      DedupeIsExact(init);
      IdsPush(init, last);
      IdsPush(Dedupe(init), last);
      assert s == init + [last];
      assert forall x :: x in Dedupe(init) ==> x.id in Ids(Dedupe(init));
    }
  }

  /** What it keeps is the first occurrence. */
  lemma {:induction false} DedupeKeepsFirst(s: seq<Shard>, x: Shard) returns (i: nat)
    requires x in Dedupe(s)
    ensures i < |s| && s[i] == x && x.id !in Ids(s[..i])
    decreases |s|
  {
    var n := |s| - 1;
    if x in Dedupe(s[..n]) {
      i := DedupeKeepsFirst(s[..n], x);
      assert s[..n][..i] == s[..i];
    } else {
      i := n;
    }
  }

  lemma {:induction false} QueryCounts(rows: seq<Shard>, merged: set<string>, led: Ledger)
    ensures |FailedRows(rows, led)| + |IncompleteRows(rows, merged)| == CountWhere(rows, s => Admitted(s, merged, led))
    ensures Unresolved(rows, led) == CountWhere(rows, s => Withheld(s, led))
    ensures |rows| == CountWhere(rows, s => Settled(s, merged)) + CountWhere(rows, s => Admitted(s, merged, led))
                      + CountWhere(rows, s => Withheld(s, led)) + CountWhere(rows, (s: Shard) => s.state == Exhausted)
    decreases |rows|
  {
    if rows != [] {
      QueryCounts(rows[..|rows| - 1], merged, led);
    }
  }

  lemma {:induction false} SeededExactly(rows: seq<Shard>, merged: set<string>, led: Ledger, s: Shard)
    requires DistinctIds(rows) && s in rows
    ensures s.id in Ids(FailedRows(rows, led) + IncompleteRows(rows, merged)) <==> Admitted(s, merged, led)
  {
    QueryIds(rows, merged, led, s.id);
    if t: Shard :| t in rows && t.id == s.id && Admitted(t, merged, led) {
      SameRow(rows, s, t);
    }
  }

  lemma {:induction false} SeedIsTheQueries(rows: seq<Shard>, merged: set<string>, led: Ledger)
    requires DistinctIds(rows)
    ensures Seed(rows, merged, led) == FailedRows(rows, led) + IncompleteRows(rows, merged)
    ensures DistinctIds(Seed(rows, merged, led))
  {
    QueriesDisjoint(rows, merged, led);
    DedupeKeepsDistinct(FailedRows(rows, led) + IncompleteRows(rows, merged));
  }

  /** Every durable shard is exactly one of: on the tip, seeded once, counted unresolved, or exhausted. */
  lemma {:induction false} ResumeCoversEveryShard(rows: seq<Shard>, merged: set<string>, led: Ledger)
    requires DistinctIds(rows)
    ensures DistinctIds(Seed(rows, merged, led))
    ensures forall s :: s in rows ==>
              (s.id in Ids(Seed(rows, merged, led)) <==>
                  !Settled(s, merged) && !Withheld(s, led) && s.state != Exhausted)
    ensures |rows| == CountWhere(rows, s => Settled(s, merged)) + |Seed(rows, merged, led)| + Unresolved(rows, led)
                      + CountWhere(rows, (s: Shard) => s.state == Exhausted)
  {
    SeedIsTheQueries(rows, merged, led);
    QueryCounts(rows, merged, led);
    forall s | s in rows
      ensures s.id in Ids(Seed(rows, merged, led)) <==> !Settled(s, merged) && !Withheld(s, led) && s.state != Exhausted
    {
      SeededExactly(rows, merged, led, s);
      assert Admitted(s, merged, led) <==> !Settled(s, merged) && !Withheld(s, led) && s.state != Exhausted;
    }
  }

  /** A shard starts over unless its own verifier failed it: then it keeps its attempts. */
  lemma {:induction false} SeededAfresh(rows: seq<Shard>, merged: set<string>, led: Ledger, x: Shard)
    requires DistinctIds(rows) && x in Seed(rows, merged, led)
    ensures (x in rows && x.state == Failed) || (x.state == Queued && x.attempt == 0 && x.branch == "" && x.base == "")
  {
    var queries := FailedRows(rows, led) + IncompleteRows(rows, merged);
    QueriesDisjoint(rows, merged, led);
    DedupeKeepsDistinct(queries);
    QueriesSelect(rows, merged, led, x);
  }

  // --- The verdict ---

  datatype Outcome = Outcome(done: bool, remaining: nat)

  /** The clean event and the promote offer. */
  predicate Clean(out: Outcome, unresolved: nat, chainOK: bool) {
    out.done && out.remaining == 0 && unresolved == 0 && chainOK
  }

  /** The exit test. */
  predicate ExitsZero(out: Outcome, reportExit: int) {
    out.done && out.remaining == 0 && reportExit == 0
  }

  /** The Controller's termination promise about the shards it was seeded with. */
  predicate Converges(initial: seq<Shard>, out: Outcome, passed: set<string>) {
    out.done && out.remaining == 0 ==> Ids(initial) <= passed
  }

  /** `s` passed its verifier, in the interrupted process or in this one. */
  predicate EverPassed(s: Shard, merged: set<string>, passed: set<string>) {
    Settled(s, merged) || s.id in passed
  }

  predicate AllPassed(rows: seq<Shard>, merged: set<string>, passed: set<string>) {
    forall s :: s in rows ==> EverPassed(s, merged, passed)
  }

  /** A row in the exhausted status: no seed, no count, and nothing in the repository writes it. */
  predicate NoneExhausted(rows: seq<Shard>) {
    forall s :: s in rows ==> s.state != Exhausted
  }

  /** Converging on the seed set is the same as every planned shard having passed, exactly when the
      resume withheld nothing and no row is exhausted. */
  lemma {:induction false} SeedSufficesExactly(rows: seq<Shard>, merged: set<string>, led: Ledger)
    requires DistinctIds(rows)
    ensures (forall passed :: Ids(Seed(rows, merged, led)) <= passed ==> AllPassed(rows, merged, passed))
            <==> Unresolved(rows, led) == 0 && NoneExhausted(rows)
  {
    var ids := Ids(Seed(rows, merged, led));
    ResumeCoversEveryShard(rows, merged, led);
    QueryCounts(rows, merged, led);
    if Unresolved(rows, led) == 0 {
      forall s | s in rows ensures !Withheld(s, led) {
        CountZero(rows, x => Withheld(x, led), s);
      }
      if s :| s in rows && s.state == Exhausted {
        assert !EverPassed(s, merged, ids) && !AllPassed(rows, merged, ids);
      } else {
        forall passed, s | ids <= passed && s in rows ensures EverPassed(s, merged, passed) {
          assert Settled(s, merged) || s.id in ids;
        }
      }
    } else {
      var s := CountSome(rows, x => Withheld(x, led));
      assert !EverPassed(s, merged, ids) && !AllPassed(rows, merged, ids);
    }
  }

  lemma {:induction false} CountZero(rows: seq<Shard>, p: Shard -> bool, s: Shard)
    requires CountWhere(rows, p) == 0 && s in rows
    ensures !p(s)
    decreases |rows|
  {
    var init := rows[..|rows| - 1];
    assert rows == init + [rows[|rows| - 1]];
    if s in init {
      CountZero(init, p, s);
    }
  }

  lemma {:induction false} CountSome(rows: seq<Shard>, p: Shard -> bool) returns (s: Shard)
    requires CountWhere(rows, p) > 0
    ensures s in rows && p(s)
    decreases |rows|
  {
    s := rows[|rows| - 1];
    if !p(s) {
      s := CountSome(rows[..|rows| - 1], p);
    }
  }

  /** A clean verdict over a resumed run means every planned shard passed, whatever the interruption
      left behind; a row in the exhausted status is the one thing it would hide. */
  lemma {:induction false} CleanMeansEveryShardPassed(rows: seq<Shard>, merged: set<string>, led: Ledger)
    requires DistinctIds(rows)
    ensures (forall out, passed, chainOK ::
               Converges(Seed(rows, merged, led), out, passed) && Clean(out, Unresolved(rows, led), chainOK) ==>
                 AllPassed(rows, merged, passed))
            <==> (Unresolved(rows, led) == 0 ==> NoneExhausted(rows))
  {
    var seed := Seed(rows, merged, led);
    SeedSufficesExactly(rows, merged, led);
    forall passed | Ids(seed) <= passed && Unresolved(rows, led) == 0
      ensures Converges(seed, Outcome(true, 0), passed) && Clean(Outcome(true, 0), Unresolved(rows, led), true)
    {
    }
  }

  /** The exit code does not say that much: it does not read the unresolved count. */
  lemma {:induction false} ExitZeroCoversExactly(rows: seq<Shard>, merged: set<string>, led: Ledger)
    requires DistinctIds(rows)
    ensures (forall out, passed, exit ::
               Converges(Seed(rows, merged, led), out, passed) && ExitsZero(out, exit) ==>
                 AllPassed(rows, merged, passed))
            <==> Unresolved(rows, led) == 0 && NoneExhausted(rows)
  {
    var seed := Seed(rows, merged, led);
    SeedSufficesExactly(rows, merged, led);
    forall passed | Ids(seed) <= passed
      ensures Converges(seed, Outcome(true, 0), passed) && ExitsZero(Outcome(true, 0), 0)
    {
    }
  }

  // --- More retries ---

  lemma {:induction false} BudgetIsMonotone(led: Ledger, more: Ledger, id: string)
    requires led.attempts == more.attempts && led.maxAttempts <= more.maxAttempts && HasBudget(led, id)
    ensures HasBudget(more, id)
  {
    if k :| id + "/" <= k && Spendable(led, k) {
      assert Spendable(more, k);
    }
  }

  lemma {:induction false} MoreRetriesAdmitMore(rows: seq<Shard>, led: Ledger, more: Ledger)
    requires led.attempts == more.attempts && led.maxAttempts <= more.maxAttempts
    ensures |FailedRows(rows, led)| <= |FailedRows(rows, more)|
    decreases |rows|
  {
    if rows != [] {
      MoreRetriesAdmitMore(rows[..|rows| - 1], led, more);
      if HasBudget(led, rows[|rows| - 1].id) {
        BudgetIsMonotone(led, more, rows[|rows| - 1].id);
      }
    }
  }

  /** Raising --retries never shrinks the seed and never raises the unresolved count. */
  lemma {:induction false} RetriesAreMonotone(rows: seq<Shard>, merged: set<string>, led: Ledger, more: Ledger)
    requires led.attempts == more.attempts && led.maxAttempts <= more.maxAttempts
    ensures Ids(Seed(rows, merged, led)) <= Ids(Seed(rows, merged, more))
    ensures Unresolved(rows, more) <= Unresolved(rows, led)
  {
    MoreRetriesAdmitMore(rows, led, more);
    DedupeIsExact(FailedRows(rows, led) + IncompleteRows(rows, merged));
    DedupeIsExact(FailedRows(rows, more) + IncompleteRows(rows, merged));
    forall id | id in Ids(Seed(rows, merged, led)) ensures id in Ids(Seed(rows, merged, more)) {
      QueryIds(rows, merged, led, id);
      var s: Shard :| s in rows && s.id == id && Admitted(s, merged, led);
      if s.state == Failed {
        BudgetIsMonotone(led, more, id);
      }
      QueryIds(rows, merged, more, id);
    }
  }
}
