/** Bounded focused requeue: requeueRunner.round with its ledger and store row
    (cmd/nilcore/requeue_wiring.go), over the resolution rule of internal/requeue/plan.go. The
    scans before and after the focused work are inputs: what the fresh verifier left red. */
module Requeue {
  import opened Wrappers

  /** One red claim of one artifact, and the subagent that owns it. */
  datatype Unit = Unit(artifact: string, claim: string, owner: string)

  datatype Scan = Corrupt | Worklist(units: seq<Unit>)

  type Attempts = map<string, nat>

  function Key(u: Unit): (k: string) {
    u.artifact + "/" + u.claim
  }

  /** Artifact ids are single path components: then a key names one claim of one artifact. */
  lemma {:induction false} KeyIsInjective(u: Unit, v: Unit)
    requires '/' !in u.artifact && '/' !in v.artifact
    ensures Key(u) == Key(v) <==> u.artifact == v.artifact && u.claim == v.claim
  {
    if Key(u) == Key(v) {
      SlashAfter(u);
      SlashAfter(v);
      assert |u.artifact| == |v.artifact|;
      assert Key(u)[..|u.artifact|] == u.artifact && Key(v)[..|v.artifact|] == v.artifact;
      assert Key(u)[|u.artifact| + 1..] == u.claim && Key(v)[|v.artifact| + 1..] == v.claim;
    }
  }

  lemma SlashAfter(u: Unit)
    requires '/' !in u.artifact
    ensures |u.artifact| < |Key(u)| && Key(u)[|u.artifact|] == '/' && forall i :: 0 <= i < |u.artifact| ==>
          Key(u)[i] != '/'
  {
  }

  // --- The ledger and one resolution ---

  function Spent(a: Attempts, k: string): (n: nat) {
    if k in a then a[k] else 0
  }

  predicate Exhausted(a: Attempts, k: string, max: nat) {
    Spent(a, k) >= max
  }

  function Keys(units: seq<Unit>): (r: seq<string>) {
    seq(|units|, i requires 0 <= i < |units| => Key(units[i]))
  }

  datatype Resolution = Resolution(attempts: Attempts, resolved: seq<string>, still: seq<string>,
      exhausted: seq<string>)

  /** Each key of `before` that is still red spends one attempt, in order. */
  function Resolve(before: seq<string>, red: set<string>, a: Attempts, max: nat): (r: Resolution) {
    if before == [] then Resolution(a, [], [], [])
    else
      var k := before[|before| - 1];
      var r := Resolve(before[..|before| - 1], red, a, max);
      if k !in red then r.(resolved := r.resolved + [k])
      else
        var bumped := r.attempts[k := Spent(r.attempts, k) + 1];
        Resolution(bumped, r.resolved, r.still + [k], r.exhausted + (if Exhausted(bumped, k, max) then [k] else []))
  }

  function WithBudget(still: seq<string>, exhausted: seq<string>): (r: seq<string>) {
    if still == [] then []
    else
      var k := still[|still| - 1];
      WithBudget(still[..|still| - 1], exhausted) + (if k in exhausted then [] else [k])
  }

  predicate ShouldContinue(r: Resolution) {
    |r.still| > |r.exhausted|
  }

  datatype Verdict = Verdict(remaining: seq<string>, exhausted: bool)

  function RedKeys(units: seq<Unit>): (r: set<string>) {
    set u | u in units :: Key(u)
  }

  /** One consultation: the new attempt counts, whether they were persisted, and the verdict. */
  function Round(before: Scan, after: Scan, a: Attempts, max: nat): (r: (Attempts, bool, Verdict)) {
    if before.Corrupt? then (a, false, Verdict([], true))
    else if before.units == [] then (a, false, Verdict([], false))
    else if forall u :: u in before.units ==> Exhausted(a, Key(u), max) then (a, false, Verdict([], true))
    else if after.Corrupt? then (a, false, Verdict([], true))
    else
      var r := Resolve(Keys(before.units), RedKeys(after.units), a, max);
      (r.attempts, true, Verdict(WithBudget(r.still, r.exhausted), r.still != [] && !ShouldContinue(r)))
  }

  // --- What a resolution spends and reports ---

  /** Every red claim that was red before spends one attempt for each of its units; nothing else moves. */
  lemma {:induction false} ResolveSpendsExactly(before: seq<string>, red: set<string>, a: Attempts, max: nat, k: string)
    ensures Spent(Resolve(before, red, a, max).attempts, k)
          == Spent(a, k) + (if k in red then multiset(before)[k] else 0)
    decreases |before|
  {
    if before != [] {
      var init, last := before[..|before| - 1], before[|before| - 1];
      ResolveSpendsExactly(init, red, a, max, k);
      assert before == init + [last];
    }
  }

  lemma {:induction false} StillExactly(before: seq<string>, red: set<string>, a: Attempts, max: nat, k: string)
    ensures k in Resolve(before, red, a, max).still <==> k in before && k in red
    ensures k in Resolve(before, red, a, max).resolved <==> k in before && k !in red
    decreases |before|
  {
    if before != [] {
      var init, last := before[..|before| - 1], before[|before| - 1];
      StillExactly(init, red, a, max, k);
      assert before == init + [last];
    }
  }

  lemma {:induction false} ExhaustedExactly(before: seq<string>, red: set<string>, a: Attempts, max: nat, k: string)
    ensures var r := Resolve(before, red, a, max);
            k in r.exhausted <==> k in before && k in red && Exhausted(r.attempts, k, max)
    decreases |before|
  {
    if before != [] {
      var init, last := before[..|before| - 1], before[|before| - 1];
      ExhaustedExactly(init, red, a, max, k);
      assert before == init + [last];
    }
  }

  lemma {:induction false} WithBudgetExactly(still: seq<string>, exhausted: seq<string>, k: string)
    ensures k in WithBudget(still, exhausted) <==> k in still && k !in exhausted
    decreases |still|
  {
    if still != [] {
      var init, last := still[..|still| - 1], still[|still| - 1];
      WithBudgetExactly(init, exhausted, k);
      assert still == init + [last];
    }
  }

  /** The keys reported as remaining are exactly the claims still red with budget left. */
  lemma {:induction false} RemainingExactly(before: seq<string>, red: set<string>, a: Attempts, max: nat, k: string)
    ensures var r := Resolve(before, red, a, max);
            k in WithBudget(r.still, r.exhausted) <==> k in before && k in red && !Exhausted(r.attempts, k, max)
  {
    var r := Resolve(before, red, a, max);
    WithBudgetExactly(r.still, r.exhausted, k);
    StillExactly(before, red, a, max, k);
    ExhaustedExactly(before, red, a, max, k);
  }

  lemma {:induction false} ExhaustedIsPart(before: seq<string>, red: set<string>, a: Attempts, max: nat)
    ensures var r := Resolve(before, red, a, max);
            |r.exhausted| <= |r.still| && (|r.exhausted| == |r.still| ==> forall k :: k in r.still ==> k in r.exhausted)
    decreases |before|
  {
    if before != [] {
      ExhaustedIsPart(before[..|before| - 1], red, a, max);
    }
  }

  predicate Distinct(keys: seq<string>) {
    forall i, j :: 0 <= i < j < |keys| ==> keys[i] != keys[j]
  }

  lemma {:induction false} DistinctKeysFillExhausted(before: seq<string>, red: set<string>, a: Attempts, max: nat)
    requires Distinct(before)
    ensures var r := Resolve(before, red, a, max);
            (forall k :: k in r.still ==> k in r.exhausted) ==> |r.exhausted| == |r.still|
    decreases |before|
  {
    if before != [] {
      var init, last := before[..|before| - 1], before[|before| - 1];
      var r := Resolve(init, red, a, max);
      DistinctKeysFillExhausted(init, red, a, max);
      StillExactly(init, red, a, max, last);
      ExhaustedExactly(init, red, a, max, last);
      var full := Resolve(before, red, a, max);
      if last in red && forall k :: k in full.still ==> k in full.exhausted {
        assert full.still == r.still + [last];
        assert last in full.still;
        assert full.exhausted == r.exhausted + [last];
        forall k | k in r.still ensures k in r.exhausted {
          StillExactly(init, red, a, max, k);
          assert k in full.still;
        }
      }
    }
  }

  lemma {:induction false} NothingRemains(still: seq<string>, exhausted: seq<string>)
    ensures WithBudget(still, exhausted) == [] <==> forall k :: k in still ==> k in exhausted
  {
    var out := WithBudget(still, exhausted);
    forall k ensures k in out <==> k in still && k !in exhausted {
      WithBudgetExactly(still, exhausted, k);
    }
    if out != [] {
      assert out[0] in out;
    }
  }

  lemma {:induction false} NothingStill(before: seq<Unit>, red: set<string>, a: Attempts, max: nat)
    ensures Resolve(Keys(before), red, a, max).still == [] <==> forall u :: u in before ==> Key(u) !in red
  {
    var still := Resolve(Keys(before), red, a, max).still;
    KeysOf(before);
    forall k ensures k in still <==> k in Keys(before) && k in red {
      StillExactly(Keys(before), red, a, max, k);
    }
    if still != [] {
      assert still[0] in still;
    }
  }

  /** With one unit per key the verdict is honest: remaining work is never reported as exhausted, and
      an empty, unexhausted verdict means the fresh verifier cleared every claim. */
  lemma {:induction false} VerdictIsHonest(before: seq<Unit>, after: seq<Unit>, a: Attempts, max: nat)
    requires before != [] && exists u :: u in before && !Exhausted(a, Key(u), max)
    ensures var v := Round(Worklist(before), Worklist(after), a, max).2;
            && (v.remaining != [] ==> !v.exhausted)
            && (Distinct(Keys(before)) ==>
                  (v.remaining == [] && !v.exhausted <==> forall u :: u in before ==> Key(u) !in RedKeys(after)))
  {
    var keys, red := Keys(before), RedKeys(after);
    var r := Resolve(keys, red, a, max);
    RoundResolves(before, after, a, max);
    ExhaustedIsPart(keys, red, a, max);
    NothingRemains(r.still, r.exhausted);
    NothingStill(before, red, a, max);
    if Distinct(keys) {
      DistinctKeysFillExhausted(keys, red, a, max);
    }
  }

  lemma KeysOf(units: seq<Unit>)
    ensures forall k :: k in Keys(units) <==> exists u :: u in units && Key(u) == k
  {
    forall u | u in units ensures Key(u) in Keys(units) {
      var i :| 0 <= i < |units| && units[i] == u;
      assert Keys(units)[i] == Key(u);
    }
  }

  lemma ResolvePush(init: seq<string>, k: string, red: set<string>, a: Attempts, max: nat)
    requires k in red
    ensures var r := Resolve(init, red, a, max);
            var bumped := r.attempts[k := Spent(r.attempts, k) + 1];
            Resolve(init + [k], red, a, max)
            == Resolution(bumped, r.resolved, r.still + [k], r.exhausted
                + (if Exhausted(bumped, k, max) then [k] else []))
  {
    assert (init + [k])[..|init|] == init;
  }

  lemma TwoBumps(k: string)
    ensures Resolve([k, k], {k}, map[], 2).still == [k, k] && Resolve([k, k], {k}, map[], 2).exhausted == [k]
  {
    ResolvePush([], k, {k}, map[], 2);
    assert [] + [k] == [k];
    ResolvePush([k], k, {k}, map[], 2);
    assert [k] + [k] == [k, k];
  }

  lemma NoneLeft(k: string)
    ensures WithBudget([k, k], [k]) == []
  {
    assert [k, k][..1] == [k];
    assert WithBudget([k], [k]) == [];
  }

  lemma RoundResolves(before: seq<Unit>, after: seq<Unit>, a: Attempts, max: nat)
    requires exists u :: u in before && !Exhausted(a, Key(u), max)
    ensures var r := Resolve(Keys(before), RedKeys(after), a, max);
            Round(Worklist(before), Worklist(after), a, max)
            == (r.attempts, true, Verdict(WithBudget(r.still, r.exhausted), r.still != [] && !ShouldContinue(r)))
  {
  }

  lemma TwinResolves(u: Unit) returns (r: Resolution)
    ensures r == Resolve(Keys([u, u]), RedKeys([u]), map[], 2)
    ensures r.still == [Key(u), Key(u)] && r.exhausted == [Key(u)]
  {
    assert Keys([u, u]) == [Key(u), Key(u)] && RedKeys([u]) == {Key(u)};
    r := Resolve([Key(u), Key(u)], {Key(u)}, map[], 2);
    TwoBumps(Key(u));
  }

  /** Two units under one key are two bumps: the verdict can then be empty and unexhausted while red. */
  lemma DuplicateKeysHideRed(u: Unit)
    ensures Round(Worklist([u, u]), Worklist([u]), map[], 2).2 == Verdict([], false)
  {
    var k := Key(u);
    var r := TwinResolves(u);
    assert u in [u, u] && !Exhausted(map[], k, 2);
    RoundResolves([u, u], [u], map[], 2);
    NoneLeft(k);
  }

  /** When a round stops early, and with what: an unreadable scan, before the work or after it, and a
      non-empty worklist whose every unit has spent its budget are reported exhausted; only an empty
      worklist is reported as nothing to do. No attempt is spent on any of these. */
  lemma {:induction false} RoundStopsExactly(before: Scan, after: Scan, a: Attempts, max: nat)
    ensures var (b, resolved, v) := Round(before, after, a, max);
            && (resolved <==> before.Worklist? && after.Worklist?
                              && exists u :: u in before.units && Spent(a, Key(u)) < max)
            && (!resolved ==> b == a && v.remaining == [] && (v.exhausted <==> before != Worklist([])))
  {
  }

  /** The verdict "nothing remains, not exhausted" is given only when every claim is clear. */
  ghost predicate Honest(before: seq<Unit>, after: seq<Unit>, a: Attempts, max: nat) {
    Round(Worklist(before), Worklist(after), a, max).2 == Verdict([], false) ==>
      forall u :: u in before ==> Key(u) !in RedKeys(after)
  }

  predicate Budgeted(before: seq<Unit>, a: Attempts, max: nat) {
    exists u :: u in before && !Exhausted(a, Key(u), max)
  }

  /** With one key red and fresh, every unit of the key is still red and the late ones are exhausted. */
  lemma {:induction false} OneKeyCounts(before: seq<string>, k: string, max: nat)
    requires max > 0
    ensures var r := Resolve(before, {k}, map[], max);
            && |r.still| == multiset(before)[k]
            && |r.exhausted| == if multiset(before)[k] >= max then multiset(before)[k] - max + 1 else 0
    decreases |before|
  {
    if before != [] {
      var init, last := before[..|before| - 1], before[|before| - 1];
      OneKeyCounts(init, k, max);
      ResolveSpendsExactly(init, {k}, map[], max, k);
      assert before == init + [last];
    }
  }

  /** A key that names several units hides its red claim from a budget of that many attempts. */
  lemma {:induction false} RepeatedKeyIsDishonest(before: seq<Unit>, u: Unit)
    requires u in before && multiset(Keys(before))[Key(u)] >= 2
    ensures var max := multiset(Keys(before))[Key(u)];
            Budgeted(before, map[], max) && !Honest(before, [u], map[], max)
  {
    var keys, k := Keys(before), Key(u);
    var max := multiset(keys)[k];
    var r := Resolve(keys, {k}, map[], max);
    assert RedKeys([u]) == {k};
    assert !Exhausted(map[], k, max);
    RoundResolves(before, [u], map[], max);
    OneKeyCounts(keys, k, max);
    ResolveSpendsExactly(keys, {k}, map[], max, k);
    forall x | x in r.still ensures x in r.exhausted {
      StillExactly(keys, {k}, map[], max, x);
      ExhaustedExactly(keys, {k}, map[], max, x);
    }
    NothingRemains(r.still, r.exhausted);
  }

  lemma {:induction false} RepeatedKey(before: seq<Unit>) returns (u: Unit)
    requires !Distinct(Keys(before))
    ensures u in before && multiset(Keys(before))[Key(u)] >= 2
  {
    var keys := Keys(before);
    var i, j :| 0 <= i < j < |keys| && keys[i] == keys[j];
    u := before[i];
    assert keys == keys[..j] + [keys[j]] + keys[j + 1..];
    assert keys[..j][i] == keys[i] && keys[i] in keys[..j];
    assert multiset(keys) == multiset(keys[..j]) + multiset{keys[j]} + multiset(keys[j + 1..]);
    assert keys[i] in multiset(keys[..j]);
  }

  ghost predicate AlwaysHonest(before: seq<Unit>) {
    forall after, a, max :: Honest(before, after, a, max)
  }

  /** The empty, unexhausted verdict is honest, whatever the budget, the history and the outcome of the
      focused work, exactly when no two units share a key. */
  lemma {:induction false} VerdictIsHonestExactly(before: seq<Unit>)
    ensures AlwaysHonest(before) <==> Distinct(Keys(before))
  {
    if Distinct(Keys(before)) {
      forall after, a, max ensures Honest(before, after, a, max) {
        RoundStopsExactly(Worklist(before), Worklist(after), a, max);
        if Budgeted(before, a, max) {
          VerdictIsHonest(before, after, a, max);
        }
      }
    } else {
      var u := RepeatedKey(before);
      RepeatedKeyIsDishonest(before, u);
    }
  }

  /** With one unit per key, a round that did its work is reported exhausted exactly when some claim is
      still red and each of those has just spent its last attempt. */
  lemma {:induction false} ExhaustedVerdictExactly(before: seq<Unit>, after: seq<Unit>, a: Attempts, max: nat)
    requires Budgeted(before, a, max) && Distinct(Keys(before))
    ensures var v, red := Round(Worklist(before), Worklist(after), a, max).2, RedKeys(after);
            v.exhausted <==> && (exists u :: u in before && Key(u) in red)
                             && forall u :: u in before && Key(u) in red ==> Spent(a, Key(u)) + 1 >= max
  {
    var keys, red := Keys(before), RedKeys(after);
    var r := Resolve(keys, red, a, max);
    RoundResolves(before, after, a, max);
    ExhaustedIsPart(keys, red, a, max);
    DistinctKeysFillExhausted(keys, red, a, max);
    NothingStill(before, red, a, max);
    KeysOf(before);
    forall u | u in before && Key(u) in red
      ensures Key(u) in r.still && (Key(u) in r.exhausted <==> Spent(a, Key(u)) + 1 >= max)
    {
      OneOfEach(keys, Key(u));
      StillExactly(keys, red, a, max, Key(u));
      ExhaustedExactly(keys, red, a, max, Key(u));
      ResolveSpendsExactly(keys, red, a, max, Key(u));
    }
    forall k | k in r.still ensures exists u :: u in before && Key(u) == k && k in red {
      StillExactly(keys, red, a, max, k);
    }
  }

  lemma {:induction false} OneOfEach(keys: seq<string>, k: string)
    requires Distinct(keys) && k in keys
    ensures multiset(keys)[k] == 1
    decreases |keys|
  {
    var init, last := keys[..|keys| - 1], keys[|keys| - 1];
    assert keys == init + [last];
    if k == last {
      assert k !in init && k !in multiset(init);
    } else {
      OneOfEach(init, k);
    }
  }

  // --- Termination ---

  /** Attempts left over a fixed list of claims. */
  function Total(claims: seq<string>, a: Attempts, max: nat): (n: nat) {
    if claims == [] then 0
    else
      var k := claims[|claims| - 1];
      Total(claims[..|claims| - 1], a, max) + (if Spent(a, k) < max then max - Spent(a, k) else 0)
  }

  lemma {:induction false} TotalIsBounded(claims: seq<string>, a: Attempts, max: nat)
    ensures Total(claims, a, max) <= |claims| * max
    decreases |claims|
  {
    if claims != [] {
      TotalIsBounded(claims[..|claims| - 1], a, max);
      assert |claims| * max == (|claims| - 1) * max + max;
    }
  }

  lemma {:induction false} SpendingLowersTotal(claims: seq<string>, a: Attempts, b: Attempts, max: nat)
    requires forall k :: Spent(a, k) <= Spent(b, k)
    ensures Total(claims, b, max) <= Total(claims, a, max)
    ensures (exists k :: k in claims && Spent(a, k) < Spent(b, k) && Spent(a, k) < max) ==>
          Total(claims, b, max) < Total(claims, a, max)
    decreases |claims|
  {
    if claims != [] {
      var init, last := claims[..|claims| - 1], claims[|claims| - 1];
      SpendingLowersTotal(init, a, b, max);
      assert claims == init + [last];
    }
  }

  predicate Claims(claims: seq<string>, s: Scan) {
    s.Worklist? ==> forall u :: u in s.units ==> Key(u) in claims
  }

  /** A consultation that offers remaining work has spent some of a fixed supply; none adds to it. */
  lemma {:induction false} RemainingWorkCostsAttempts(claims: seq<string>, before: Scan, after: Scan, a: Attempts,
      max: nat)
    requires Claims(claims, before)
    ensures var (b, _, v) := Round(before, after, a, max);
            Total(claims, b, max) + (if v.remaining != [] then 1 else 0) <= Total(claims, a, max)
  {
    var (b, resolved, v) := Round(before, after, a, max);
    if resolved {
      var keys, red := Keys(before.units), RedKeys(after.units);
      forall k ensures Spent(a, k) <= Spent(b, k) {
        ResolveSpendsExactly(keys, red, a, max, k);
      }
      SpendingLowersTotal(claims, a, b, max);
      if v.remaining != [] {
        var k := v.remaining[0];
        RemainingExactly(keys, red, a, max, k);
        ResolveSpendsExactly(keys, red, a, max, k);
        assert k in multiset(keys);
        KeysOf(before.units);
        assert k in claims && Spent(a, k) < Spent(b, k) && Spent(a, k) < max;
      }
    }
  }

  // --- Whole runs, with restarts and the shared store row ---

  /** The row's Detail: sibling keys of the requeue ledger, or something that is no object. */
  datatype Blob = LedgerBlob(attempts: Attempts) | Other(text: string)

  datatype Detail = Object(keys: map<string, Blob>) | NotObject

  const REQUEUE := "requeue"

  function EmbedRequeue(d: Detail, a: Attempts): (r: Detail) {
    Object((if d.Object? then d.keys else map[])[REQUEUE := LedgerBlob(a)])
  }

  function RequeueLedger(d: Detail): (r: Attempts) {
    if d.Object? && REQUEUE in d.keys && d.keys[REQUEUE].LedgerBlob? then d.keys[REQUEUE].attempts else map[]
  }

  /** Round trip: the ledger comes back as written and every run-state key beside it is untouched. */
  lemma {:induction false} EmbedRoundTrip(d: Detail, a: Attempts)
    ensures RequeueLedger(EmbedRequeue(d, a)) == a
    ensures d.Object? ==> EmbedRequeue(d, a).keys - {REQUEUE} == d.keys - {REQUEUE}
    ensures EmbedRequeue(EmbedRequeue(d, a), a) == EmbedRequeue(d, a)
  {
  }

  datatype State = State(led: Option<Attempts>, row: Detail)

  datatype Step =
    | Consult(before: Scan, after: Scan, persists: bool)
    | Restart
    | SaveRunState(runState: map<string, Blob>)

  /** loadLedger: memory first, then the row. */
  function Load(s: State): (a: Attempts) {
    if s.led.Some? then s.led.value else RequeueLedger(s.row)
  }

  function Perform(s: State, step: Step, max: nat): State {
    match step
    case Consult(before, after, persists) =>
      var (a, resolved, _) := Round(before, after, Load(s), max);
      State(Some(a), if resolved && persists then EmbedRequeue(s.row, a) else s.row)
    case Restart => s.(led := None)
    case SaveRunState(runState) => s.(row := Object(runState))
  }

  /** What a restart remembers of a consultation: its counts exactly when it did its work and the write of the
      row landed, and what the row held before otherwise. Within the process they always count. */
  lemma {:induction false} RestartRemembersExactly(s: State, before: Scan, after: Scan, persists: bool, max: nat)
    ensures var t, (counts, worked, _) := Perform(s, Consult(before, after, persists), max),
              Round(before, after, Load(s), max);
            && Load(t) == counts
            && Load(Perform(t, Restart, max)) == (if worked && persists then counts else RequeueLedger(s.row))
  {
    EmbedRoundTrip(s.row, Round(before, after, Load(s), max).0);
  }

  /** How many consultations offered remaining work. */
  function Offers(s: State, steps: seq<Step>, max: nat): (n: nat)
    decreases |steps|
  {
    if steps == [] then 0
    else
      (if steps[0].Consult? && Round(steps[0].before, steps[0].after, Load(s), max).2.remaining != [] then 1 else 0)
      + Offers(Perform(s, steps[0], max), steps[1..], max)
  }

  /** The attempts of claims that were never tried. */
  function Fresh(claims: seq<string>, max: nat): (n: nat) {
    Total(claims, map[], max)
  }

  function Regained(claims: seq<string>, known: nat, max: nat): (n: nat) {
    if known < Fresh(claims, max) then Fresh(claims, max) - known else 0
  }

  lemma {:induction false} FreshIsMost(claims: seq<string>, a: Attempts, max: nat)
    ensures Total(claims, a, max) <= Fresh(claims, max)
  {
    SpendingLowersTotal(claims, map[], a, max);
  }

  /** Attempts that a restart gives back because the row did not hold them. */
  function Forgotten(claims: seq<string>, s: State, steps: seq<Step>, max: nat): (n: nat)
    decreases |steps|
  {
    if steps == [] then 0
    else
      var known, stored := Total(claims, Load(s), max), Total(claims, RequeueLedger(s.row), max);
      var lost := if steps[0].Restart? && known < stored then stored - known
                  else if steps[0].SaveRunState? && s.led.None? then Regained(claims, known, max)
                  else 0;
      lost + Forgotten(claims, Perform(s, steps[0], max), steps[1..], max)
  }

  predicate AllClaims(claims: seq<string>, steps: seq<Step>) {
    forall step :: step in steps && step.Consult? ==> Claims(claims, step.before)
  }

  /** Conservation over every run: the offers of remaining work are paid for out of the attempts left at
      the start and the attempts that restarts forget. */
  lemma {:induction false} OffersArePaidFor(claims: seq<string>, s: State, steps: seq<Step>, max: nat)
    requires AllClaims(claims, steps)
    ensures Offers(s, steps, max) <= Total(claims, Load(s), max) + Forgotten(claims, s, steps, max)
    decreases |steps|
  {
    if steps != [] {
      OffersArePaidFor(claims, Perform(s, steps[0], max), steps[1..], max);
      assert steps[0] in steps;
      match steps[0] {
        case Consult(before, after, _) => RemainingWorkCostsAttempts(claims, before, after, Load(s), max);
        case Restart =>
        case SaveRunState(_) => FreshIsMost(claims, Load(Perform(s, steps[0], max)), max);
      }
    }
  }

  /** Memory and row hold the same attempts. */
  predicate Synced(s: State) {
    s.led.Some? ==> RequeueLedger(s.row) == s.led.value
  }

  predicate Durable(steps: seq<Step>) {
    forall step :: step in steps ==> !step.SaveRunState? && (step.Consult? ==> step.persists)
  }

  lemma {:induction false} DurableRunsForgetNothing(claims: seq<string>, s: State, steps: seq<Step>, max: nat)
    requires Synced(s) && Durable(steps)
    ensures Forgotten(claims, s, steps, max) == 0
    decreases |steps|
  {
    if steps != [] {
      assert steps[0] in steps;
      DurableRunsForgetNothing(claims, Perform(s, steps[0], max), steps[1..], max);
    }
  }

  /** Requeue terminates: at most units times maxAttempts consultations offer remaining work, across any
      restarts, when every ledger write lands and nothing else rewrites the row. */
  lemma RequeueTerminates(claims: seq<string>, s: State, steps: seq<Step>, max: nat)
    requires AllClaims(claims, steps) && Synced(s) && Durable(steps)
    ensures Offers(s, steps, max) <= |claims| * max
  {
    OffersArePaidFor(claims, s, steps, max);
    DurableRunsForgetNothing(claims, s, steps, max);
    TotalIsBounded(claims, Load(s), max);
  }

  /** A snapshot save replaces the whole Detail: the ledger beside it is gone at the next restart, and
      every claim has its full budget again. */
  lemma {:induction false} SnapshotSaveForgetsTheLedger(claims: seq<string>, s: State, runState: map<string, Blob>,
      max: nat)
    requires REQUEUE !in runState
    ensures var t := Perform(Perform(s, SaveRunState(runState), max), Restart, max);
            Load(t) == map[] && Total(claims, Load(t), max) == |claims| * max
  {
    FreshTotal(claims, max);
  }

  lemma {:induction false} FreshTotal(claims: seq<string>, max: nat)
    ensures Total(claims, map[], max) == |claims| * max
    decreases |claims|
  {
    if claims != [] {
      FreshTotal(claims[..|claims| - 1], max);
      assert |claims| * max == (|claims| - 1) * max + max;
    }
  }

  // --- The focused fixes of a round ---

  /** The red claims of one artifact under one owner are fixed together. */
  datatype Fix = Fix(artifact: string, owner: string)

  function FixOf(u: Unit): (f: Fix) {
    Fix(u.artifact, u.owner)
  }

  /** The fixes of a round: an exhausted claim earns none. */
  function Fixes(units: seq<Unit>, a: Attempts, max: nat): (r: set<Fix>) {
    set u | u in units && !Exhausted(a, Key(u), max) :: FixOf(u)
  }

  /** A fix is planned exactly for an artifact and owner with a claim on the worklist that has budget left. */
  lemma {:induction false} FixesExactly(units: seq<Unit>, a: Attempts, max: nat, artifact: string, owner: string)
    ensures Fix(artifact, owner) in Fixes(units, a, max) <==>
              exists i :: 0 <= i < |units| && units[i].artifact == artifact && units[i].owner == owner
                          && Spent(a, Key(units[i])) < max
  {
    if u :| u in units && !Exhausted(a, Key(u), max) && FixOf(u) == Fix(artifact, owner) {
      var i :| 0 <= i < |units| && units[i] == u;
    }
    if i :| 0 <= i < |units| && units[i].artifact == artifact && units[i].owner == owner
            && Spent(a, Key(units[i])) < max {
      assert FixOf(units[i]) == Fix(artifact, owner);
    }
  }

  function DashJoin(artifact: string, owner: string): (r: string) {
    if owner == "" then artifact else artifact + "-" + owner
  }

  function RequeueId(f: Fix): (r: string) {
    "requeue-" + DashJoin(f.artifact, f.owner)
  }

  /** `g` has as its owner what in `f` is the end of the artifact and the owner. */
  predicate Overlaps(f: Fix, g: Fix) {
    g.owner != "" && g.artifact + "-" <= f.artifact && g.owner == DashJoin(f.artifact[|g.artifact| + 1..], f.owner)
  }

  lemma {:induction false} OverlapCollides(f: Fix, g: Fix)
    requires |g.artifact| < |f.artifact|
    ensures DashJoin(f.artifact, f.owner) == DashJoin(g.artifact, g.owner) <==> Overlaps(f, g)
  {
    var n := |g.artifact|;
    var joined, rest := DashJoin(f.artifact, f.owner), f.artifact[n + 1..];
    assert f.artifact == f.artifact[..n + 1] + rest;
    assert joined == f.artifact[..n + 1] + DashJoin(rest, f.owner);
    if joined == DashJoin(g.artifact, g.owner) {
      assert DashJoin(g.artifact, g.owner)[..n + 1] == g.artifact + "-";
      assert DashJoin(g.artifact, g.owner)[n + 1..] == g.owner && joined[n + 1..] == DashJoin(rest, f.owner);
    }
  }

  /** Two fixes share an id exactly when one reads the dash of the other's artifact as the one before the
      owner. */
  lemma {:induction false} RequeueIdsCollideExactly(f: Fix, g: Fix)
    ensures RequeueId(f) == RequeueId(g) <==> f == g || Overlaps(f, g) || Overlaps(g, f)
  {
    var x, y := DashJoin(f.artifact, f.owner), DashJoin(g.artifact, g.owner);
    assert RequeueId(f)[|"requeue-"|..] == x && RequeueId(g)[|"requeue-"|..] == y;
    if |g.artifact| < |f.artifact| {
      OverlapCollides(f, g);
    } else if |f.artifact| < |g.artifact| {
      OverlapCollides(g, f);
    } else if x == y {
      assert x[..|f.artifact|] == f.artifact && y[..|g.artifact|] == g.artifact;
      assert f.owner != "" ==> x[|f.artifact| + 1..] == f.owner && y[|g.artifact| + 1..] == g.owner;
    }
  }

  predicate Apart(fixes: set<Fix>) {
    forall f, g :: f in fixes && g in fixes && RequeueId(f) == RequeueId(g) ==> f == g
  }

  lemma OverlapHasDash(f: Fix, g: Fix)
    requires Overlaps(f, g)
    ensures '-' in f.artifact
  {
    assert (g.artifact + "-")[|g.artifact|] == f.artifact[|g.artifact|];
  }

  lemma {:induction false} DashFreeArtifactsAreApart(fixes: set<Fix>)
    requires forall f :: f in fixes ==> '-' !in f.artifact
    ensures Apart(fixes)
  {
    forall f, g | f in fixes && g in fixes && RequeueId(f) == RequeueId(g) ensures f == g {
      RequeueIdsCollideExactly(f, g);
      if Overlaps(f, g) {
        OverlapHasDash(f, g);
      } else if Overlaps(g, f) {
        OverlapHasDash(g, f);
      }
    }
  }

  function Ids(fixes: set<Fix>): (r: set<string>) {
    set f | f in fixes :: RequeueId(f)
  }

  /** What a round runs under each id: one fix of that id. */
  predicate Dispatches(fixes: set<Fix>, specs: map<string, Fix>) {
    specs.Keys == Ids(fixes) && forall id :: id in specs ==> specs[id] in fixes && RequeueId(specs[id]) == id
  }

  /** Every fix of a round runs if and only if no two share an id. */
  lemma {:induction false} EveryFixRunsExactly(fixes: set<Fix>, specs: map<string, Fix>)
    requires Dispatches(fixes, specs)
    ensures (forall f :: f in fixes ==> RequeueId(f) in specs && specs[RequeueId(f)] == f) <==> Apart(fixes)
  {
    forall f | f in fixes ensures RequeueId(f) in specs {
      assert RequeueId(f) in Ids(fixes);
    }
  }

  /** The fix last run under each id. */
  predicate Ran(fixes: set<Fix>, ran: map<string, Fix>) {
    forall id :: id in ran ==> ran[id] in fixes && RequeueId(ran[id]) == id
  }

  ghost predicate OwnBranches(fixes: set<Fix>) {
    forall ran, f :: Ran(fixes, ran) && f in fixes && RequeueId(f) in ran ==> ran[RequeueId(f)] == f
  }

  /** Over every history of rounds, a fix that continues an earlier attempt continues its own, if and only
      if no two fixes share an id. */
  lemma {:induction false} OwnBranchesExactly(fixes: set<Fix>)
    ensures OwnBranches(fixes) <==> Apart(fixes)
  {
    if OwnBranches(fixes) {
      forall f, g | f in fixes && g in fixes && RequeueId(f) == RequeueId(g) ensures f == g {
        var ran := map[RequeueId(f) := f];
        assert Ran(fixes, ran);
      }
    }
  }

  /** Artifact "a" owned by "b", and artifact "a-b" without an owner: of one round only one of the two runs,
      and once one has run the other continues from its branch. */
  lemma OneIdTwoFixes() returns (f: Fix, g: Fix)
    ensures f != g && RequeueId(f) == RequeueId(g)
    ensures forall specs :: Dispatches({f, g}, specs) ==> specs.Keys == {RequeueId(f)}
    ensures forall ran :: Dispatches({f}, ran) ==> RequeueId(g) in ran && ran[RequeueId(g)] != g
  {
    f, g := Fix("a", "b"), Fix("a-b", "");
    assert "a" + "-" + "b" == "a-b";
    assert Ids({f, g}) == {RequeueId(f)};
    forall ran | Dispatches({f}, ran) ensures RequeueId(g) in ran && ran[RequeueId(g)] != g {
      assert RequeueId(f) in Ids({f});
    }
  }

  function Members(subs: seq<Fix>): (r: set<Fix>) {
    set f | f in subs
  }

  lemma {:induction false} FixesPush(units: seq<Unit>, a: Attempts, max: nat, i: nat)
    requires i < |units|
    ensures Fixes(units[..i + 1], a, max)
         == Fixes(units[..i], a, max) + (if Exhausted(a, Key(units[i]), max) then {} else {FixOf(units[i])})
  {
    assert units[..i + 1] == units[..i] + [units[i]];
    forall f | f in Fixes(units[..i], a, max) ensures f in Fixes(units[..i + 1], a, max) {
      var u :| u in units[..i] && !Exhausted(a, Key(u), max) && FixOf(u) == f;
      assert u in units[..i + 1];
    }
    assert units[i] in units[..i + 1];
  }

  // --- The runner ---

  class Runner {
    const max: nat
    var led: Option<Attempts>
    var row: Detail
    var dispatched: set<string> // the ids run so far
    ghost var ran: map<string, Fix>

    ghost function Now(): State
      reads this
    {
      State(led, row)
    }

    /** Every id dispatched so far stands for a fix of that id, the last one run under it. */
    ghost predicate Valid()
      reads this
    {
      ran.Keys == dispatched && forall id :: id in ran ==> RequeueId(ran[id]) == id
    }

    constructor (max: nat, row: Detail)
      ensures Valid() && this.max == max && Now() == State(None, row) && dispatched == {}
    {
      this.max := max;
      this.row := row;
      led, dispatched, ran := None, {}, map[];
    }

    method LoadLedger() returns (a: Attempts)
      modifies this`led
      ensures a == Load(old(Now())) && led == Some(a)
    {
      if led.None? {
        led := Some(RequeueLedger(row));
      }
      return led.value;
    }

    /** Spends one attempt per still-red unit of `before`. */
    method ResolveUnits(before: seq<Unit>, after: seq<Unit>)
        returns (resolved: seq<string>, still: seq<string>, exhausted: seq<string>)
      requires led.Some?
      modifies this`led
      ensures led.Some?
      ensures Resolution(led.value, resolved, still, exhausted)
           == Resolve(Keys(before), RedKeys(after), old(led).value, max)
    {
      resolved, still, exhausted := [], [], [];
      var red, i := RedKeys(after), 0;
      while i < |before|
        invariant 0 <= i <= |before| && led.Some?
        invariant Resolution(led.value, resolved, still, exhausted)
              == Resolve(Keys(before)[..i], red, old(led).value, max)
      {
        var k := Key(before[i]);
        assert Keys(before)[..i + 1][..i] == Keys(before)[..i];
        if k !in red {
          resolved := resolved + [k];
        } else {
          led := Some(led.value[k := Spent(led.value, k) + 1]);
          still := still + [k];
          if Exhausted(led.value, k, max) {
            exhausted := exhausted + [k];
          }
        }
        i := i + 1;
      }
      assert Keys(before)[..i] == Keys(before);
    }

    method RemainingKeys(still: seq<string>, exhausted: seq<string>) returns (out: seq<string>)
      ensures out == WithBudget(still, exhausted)
    {
      out := [];
      var i := 0;
      while i < |still|
        invariant 0 <= i <= |still| && out == WithBudget(still[..i], exhausted)
      {
        assert still[..i + 1][..i] == still[..i];
        if still[i] !in exhausted {
          out := out + [still[i]];
        }
        i := i + 1;
      }
      assert still[..i] == still;
    }

    /** One fix per artifact and owner, in the order they are first seen. */
    method PlanFixes(units: seq<Unit>, a: Attempts) returns (subs: seq<Fix>)
      ensures Members(subs) == Fixes(units, a, max)
      ensures forall i, j :: 0 <= i < j < |subs| ==> subs[i] != subs[j]
    {
      subs := [];
      var i := 0;
      while i < |units|
        invariant 0 <= i <= |units| && Members(subs) == Fixes(units[..i], a, max)
        invariant forall i, j :: 0 <= i < j < |subs| ==> subs[i] != subs[j]
      {
        FixesPush(units, a, max, i);
        var f := FixOf(units[i]);
        if !Exhausted(a, Key(units[i]), max) && f !in subs {
          subs := subs + [f];
        }
        i := i + 1;
      }
      assert units[..i] == units;
    }

    /** A later fix of an id replaces the earlier one; the ids are remembered once they have run. */
    method DispatchSubtasks(subs: seq<Fix>) returns (specs: map<string, Fix>)
      requires Valid()
      modifies this`dispatched, this`ran
      ensures Valid() && Dispatches(Members(subs), specs)
      ensures dispatched == old(dispatched) + Ids(Members(subs)) && ran == old(ran) + specs
    {
      specs := map[];
      var i := 0;
      while i < |subs|
        invariant 0 <= i <= |subs| && Dispatches(Members(subs[..i]), specs)
      {
        specs := specs[RequeueId(subs[i]) := subs[i]];
        assert Members(subs[..i + 1]) == Members(subs[..i]) + {subs[i]};
        i := i + 1;
      }
      assert subs[..i] == subs;
      dispatched, ran := dispatched + specs.Keys, ran + specs;
    }

    /** One round. A focused fix continues an earlier attempt exactly when its id was dispatched before. */
    method Consultation(before: Scan, after: Scan, persists: bool) returns (v: Verdict, continued: set<string>)
      requires Valid()
      modifies this
      ensures Valid() && Now() == Perform(old(Now()), Consult(before, after, persists), max)
      ensures v == Round(before, after, Load(old(Now())), max).2
      ensures var fixes := if before.Worklist? then Fixes(before.units, Load(old(Now())), max) else {};
              && continued == Ids(fixes) * old(dispatched) && dispatched == old(dispatched) + Ids(fixes)
              && exists specs :: Dispatches(fixes, specs) && ran == old(ran) + specs
    {
      continued := {};
      var a := LoadLedger();
      if before.Corrupt? {
        assert Dispatches({}, map[]) && ran == old(ran) + map[];
        return Verdict([], true), continued;
      }
      ghost var fixes := Fixes(before.units, a, max);
      if before.units == [] {
        assert fixes == {} && Dispatches({}, map[]) && ran == old(ran) + map[];
        return Verdict([], false), continued;
      }
      var subs := PlanFixes(before.units, a);
      if subs == [] {
        assert fixes == {} && Dispatches({}, map[]) && ran == old(ran) + map[];
        assert forall u :: u in before.units && !Exhausted(a, Key(u), max) ==> FixOf(u) in fixes;
        return Verdict([], true), continued;
      }
      assert subs[0] in fixes;
      assert exists u :: u in before.units && !Exhausted(a, Key(u), max);
      continued := Ids(Members(subs)) * dispatched;
      var specs := DispatchSubtasks(subs);
      if after.Corrupt? {
        return Verdict([], true), continued;
      }
      var resolved, still, exhausted := ResolveUnits(before.units, after.units);
      if persists {
        row := EmbedRequeue(row, led.value);
      }
      var remaining := RemainingKeys(still, exhausted);
      return Verdict(remaining, |still| > 0 && !(|still| > |exhausted|)), continued;
    }
  }
}
