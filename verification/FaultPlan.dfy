/** The pure core of the browser-agent evaluation (eval/browse/browse.go): deterministic fault plans,
    case-insensitive search over bytes, and the reliability tally. */
module FaultPlan {
  import opened Utf8Clip

  /** `NoFault` is the empty kind. */
  datatype Kind = NoFault | Fault(name: string)

  type Plan = map<int, Kind>

  // --- Plans ---

  function FaultAt(p: Plan, step: int): (k: Kind) {
    if step in p then p[step] else NoFault
  }

  predicate Due(everyN: int, step: int)
    requires everyN > 0
  {
    (step + 1) % everyN == 0
  }

  /** Where a plan of one kind injects. */
  predicate Injects(everyN: int, maxSteps: int, step: int) {
    everyN > 0 && 0 <= step < maxSteps && Due(everyN, step)
  }

  lemma Scales(n: int, a: int, b: int)
    requires n > 0 && a <= b
    ensures a * n <= b * n
  {
  }

  /** Between one multiple and the next, only the first is due. */
  lemma {:induction false} NextMultiple(n: int, m: int, s: int)
    requires n > 0 && m * n <= s + 1 < (m + 1) * n
    ensures Due(n, s) <==> s + 1 == m * n
  {
    var q := (s + 1) / n;
    assert s + 1 == q * n + (s + 1) % n;
    assert (q + 1) * n == q * n + n;
    if q > m {
      Scales(n, m + 1, q);
    } else if q < m {
      Scales(n, q + 1, m);
    }
  }

  /** Faults exactly at the steps `s` below `maxSteps` with `everyN` dividing `s + 1`. */
  method MakePlan(kind: Kind, everyN: int, maxSteps: int) returns (p: Plan)
    ensures forall s :: FaultAt(p, s) == if Injects(everyN, maxSteps, s) then kind else NoFault
    ensures forall s :: s in p <==> kind != NoFault && Injects(everyN, maxSteps, s)
  {
    p := map[];
    if kind == NoFault || everyN <= 0 {
      return;
    }
    var step := everyN - 1;
    ghost var m := 1;
    while step < maxSteps
      invariant step + 1 == m * everyN && 1 <= m
      invariant forall s :: s in p <==> 0 <= s < step && s < maxSteps && Due(everyN, s)
      invariant forall s :: s in p ==> p[s] == kind
    {
      p := p[step := kind];
      assert (m + 1) * everyN == m * everyN + everyN;
      NextMultiple(everyN, m, step);
      forall s | step < s < step + everyN ensures !Due(everyN, s) {
        NextMultiple(everyN, m, s);
      }
      m := m + 1;
      step := step + everyN;
    }
  }

  /** Overlay: the other plan wins where both inject. */
  function Merged(p: Plan, other: Plan): (r: Plan) {
    p + other
  }

  method Merge(p: Plan, other: Plan) returns (out: Plan)
    ensures out == Merged(p, other)
  {
    out := Overlay(map[], p);
    assert out == p;
    out := Overlay(out, other);
  }

  lemma OverlayStep(base: Plan, top: Plan, done: set<int>, s: int)
    requires done <= top.Keys && s in top
    ensures (base + map k | k in done :: top[k])[s := top[s]] == base + map k | k in done + {s} :: top[k]
  {
  }

  method Overlay(base: Plan, top: Plan) returns (out: Plan)
    ensures out == Merged(base, top)
  {
    out := base;
    var items := top.Items;
    ghost var done: set<int> := {};
    while items != {}
      invariant items <= top.Items && done <= top.Keys
      invariant forall s :: s in top && (s, top[s]) !in items ==> s in done
      invariant out == base + map k | k in done :: top[k]
      decreases |items|
    {
      var item :| item in items;
      OverlayStep(base, top, done, item.0);
      out := out[item.0 := item.1];
      done := done + {item.0};
      items := items - {item};
    }
    forall s | s in top ensures s in done {
      assert (s, top[s]) !in items;
    }
    assert (map k | k in done :: top[k]) == top;
  }

  /** Merging is associative, biased to the right, and has the empty plan as its identity. */
  lemma MergeLaws(p: Plan, q: Plan, r: Plan, step: int)
    ensures Merged(Merged(p, q), r) == Merged(p, Merged(q, r))
    ensures FaultAt(Merged(p, q), step) == if step in q then q[step] else FaultAt(p, step)
    ensures Merged(p, map[]) == p == Merged(map[], p)
  {
    assert forall s :: s in Merged(Merged(p, q), r) <==> s in Merged(p, Merged(q, r));
  }

  // --- The step list ---

  predicate Increasing(s: seq<int>) {
    forall i, j :: 0 <= i < j < |s| ==> s[i] < s[j]
  }

  lemma InsertedIncreases(s: seq<int>, i: nat, x: int)
    requires i <= |s| && Increasing(s)
    requires (forall j :: 0 <= j < i ==> s[j] < x) && (forall j :: i <= j < |s| ==> x < s[j])
    ensures Increasing(s[..i] + [x] + s[i..])
  {
  }

  lemma InsertedMembers(s: seq<int>, i: nat, x: int, y: int)
    requires i <= |s|
    ensures y in s[..i] + [x] + s[i..] <==> y == x || y in s
  {
  }

  method InsertStep(s: seq<int>, x: int) returns (r: seq<int>)
    requires Increasing(s) && x !in s
    ensures Increasing(r) && forall y :: y in r <==> y == x || y in s
  {
    var i := 0;
    while i < |s| && s[i] < x
      invariant 0 <= i <= |s| && forall j :: 0 <= j < i ==> s[j] < x
    {
      i := i + 1;
    }
    r := s[..i] + [x] + s[i..];
    InsertedIncreases(s, i, x);
    forall y ensures y in r <==> y == x || y in s {
      InsertedMembers(s, i, x, y);
    }
  }

  method Steps(p: Plan) returns (steps: seq<int>)
    ensures Increasing(steps) && forall s :: s in steps <==> s in p
  {
    steps := [];
    var items := p.Items;
    while items != {}
      invariant items <= p.Items && Increasing(steps)
      invariant forall s :: s in steps <==> s in p && (s, p[s]) !in items
      decreases |items|
    {
      var item :| item in items;
      steps := InsertStep(steps, item.0);
      items := items - {item};
    }
  }

  lemma HasMember(s: seq<int>)
    ensures s != [] ==> exists x :: x in s
  {
    if s != [] {
      var x := s[0];
      assert x in s;
    }
  }

  lemma RestMembers(s: seq<int>, x: int)
    requires s != [] && Increasing(s)
    ensures x in s[1..] <==> x in s && x != s[0]
  {
  }

  /** An increasing list is determined by its members. */
  lemma {:induction false} IncreasingIsUnique(s: seq<int>, t: seq<int>)
    requires Increasing(s) && Increasing(t) && forall x :: x in s <==> x in t
    ensures s == t
    decreases |s|
  {
    if s == [] {
      HasMember(t);
    } else {
      assert s[0] in t && t[0] in s;
      assert s[0] == t[0];
      forall x ensures x in s[1..] <==> x in t[1..] {
        RestMembers(s, x);
        RestMembers(t, x);
      }
      IncreasingIsUnique(s[1..], t[1..]);
    }
  }

  function EveryNth(everyN: int, count: nat): (r: seq<int>) {
    seq(count, i => (i + 1) * everyN - 1)
  }

  lemma {:induction false} DueIsListed(everyN: int, maxSteps: int, step: int)
    requires Injects(everyN, maxSteps, step)
    ensures step in EveryNth(everyN, maxSteps / everyN)
  {
    var m := (step + 1) / everyN;
    assert step + 1 == m * everyN;
    assert 1 <= m <= maxSteps / everyN by {
      QuotientOrder(everyN, m, maxSteps);
    }
    assert EveryNth(everyN, maxSteps / everyN)[m - 1] == step;
  }

  lemma QuotientOrder(n: int, m: int, max: int)
    requires n > 0 && 0 < m * n <= max
    ensures 1 <= m <= max / n
  {
    var q := max / n;
    assert max < (q + 1) * n;
    if m <= 0 {
      Scales(n, m, 0);
    } else if m > q {
      Scales(n, q + 1, m);
    }
  }

  lemma {:induction false} ListedIsDue(everyN: int, maxSteps: int, i: nat)
    requires everyN > 0 && maxSteps >= 0 && i < maxSteps / everyN
    ensures Injects(everyN, maxSteps, (i + 1) * everyN - 1)
  {
    var q := maxSteps / everyN;
    assert q * everyN <= maxSteps;
    Scales(everyN, 1, i + 1);
    Scales(everyN, i + 1, q);
    Scales(everyN, i + 1, i + 2);
    assert (i + 2) * everyN == (i + 1) * everyN + everyN;
    NextMultiple(everyN, i + 1, (i + 1) * everyN - 1);
  }

  /** The steps of a plan are everyN - 1, 2 everyN - 1, and so on: one in every everyN of them. */
  method PlannedSteps(kind: Kind, everyN: int, maxSteps: int) returns (steps: seq<int>)
    requires kind != NoFault && everyN > 0 && maxSteps >= 0
    ensures steps == EveryNth(everyN, maxSteps / everyN)
  {
    var p := MakePlan(kind, everyN, maxSteps);
    steps := Steps(p);
    forall s ensures s in steps <==> s in EveryNth(everyN, maxSteps / everyN) {
      var list := EveryNth(everyN, maxSteps / everyN);
      if s in list {
        var i :| 0 <= i < |list| && list[i] == s;
        ListedIsDue(everyN, maxSteps, i);
      } else if Injects(everyN, maxSteps, s) {
        DueIsListed(everyN, maxSteps, s);
      }
    }
    NthIncreasing(everyN, maxSteps / everyN);
    IncreasingIsUnique(steps, EveryNth(everyN, maxSteps / everyN));
  }

  lemma {:induction false} NthIncreasing(everyN: int, count: nat)
    requires everyN > 0
    ensures Increasing(EveryNth(everyN, count))
  {
  }

  // --- Search ---

  function LowerByte(b: Byte): (r: Byte) {
    if 0x41 <= b <= 0x5A then b + 0x20 else b
  }

  function Lower(s: seq<Byte>): (r: seq<Byte>) {
    seq(|s|, i requires 0 <= i < |s| => LowerByte(s[i]))
  }

  method ToLower(s: seq<Byte>) returns (r: seq<Byte>)
    ensures r == Lower(s)
  {
    var b := new Byte[|s|](i requires 0 <= i < |s| => s[i]);
    var i := 0;
    while i < b.Length
      invariant 0 <= i <= b.Length
      invariant forall j :: 0 <= j < i ==> b[j] == LowerByte(s[j])
      invariant forall j :: i <= j < b.Length ==> b[j] == s[j]
    {
      if 0x41 <= b[i] <= 0x5A {
        b[i] := b[i] + 0x20;
      }
      i := i + 1;
    }
    return b[..];
  }

  predicate OccursAt(hay: seq<Byte>, needle: seq<Byte>, i: int) {
    0 <= i && i + |needle| <= |hay| && hay[i..i + |needle|] == needle
  }

  /** The first occurrence of a non-empty needle; -1 when there is none or the needle is empty. */
  method IndexOf(hay: seq<Byte>, needle: seq<Byte>) returns (at: int)
    ensures at == -1 <==> needle == [] || forall i :: !OccursAt(hay, needle, i)
    ensures at != -1 ==> OccursAt(hay, needle, at) && forall i :: i < at ==> !OccursAt(hay, needle, i)
  {
    if |needle| == 0 || |needle| > |hay| {
      return -1;
    }
    var i := 0;
    while i + |needle| <= |hay|
      invariant 0 <= i
      invariant forall j :: j < i ==> !OccursAt(hay, needle, j)
    {
      if hay[i..i + |needle|] == needle {
        assert OccursAt(hay, needle, i);
        return i;
      }
      i := i + 1;
    }
    return -1;
  }

  /** Equal, or the two cases of one ASCII letter. */
  predicate SameLetter(a: Byte, b: Byte) {
    a == b || (0x41 <= a <= 0x5A && b == a + 0x20) || (0x41 <= b <= 0x5A && a == b + 0x20)
  }

  predicate FoldsAt(hay: seq<Byte>, needle: seq<Byte>, i: int) {
    0 <= i && i + |needle| <= |hay| && forall j :: 0 <= j < |needle| ==> SameLetter(hay[i + j], needle[j])
  }

  lemma {:induction false} LowerOccurs(hay: seq<Byte>, needle: seq<Byte>, i: int)
    ensures OccursAt(Lower(hay), Lower(needle), i) <==> FoldsAt(hay, needle, i)
  {
    if 0 <= i && i + |needle| <= |hay| {
      var window := Lower(hay)[i..i + |needle|];
      if window == Lower(needle) {
        forall j | 0 <= j < |needle| ensures SameLetter(hay[i + j], needle[j]) {
          assert window[j] == Lower(needle)[j];
        }
      }
    }
  }

  /** The text criterion: the needle occurs somewhere up to ASCII case, and nothing is found for "". */
  method ContainsFold(hay: seq<Byte>, needle: seq<Byte>) returns (found: bool)
    ensures found <==> needle != [] && exists i :: FoldsAt(hay, needle, i)
  {
    if needle == [] {
      return false;
    }
    var h := ToLower(hay);
    var n := ToLower(needle);
    var at := IndexOf(h, n);
    forall i ensures OccursAt(h, n, i) <==> FoldsAt(hay, needle, i) {
      LowerOccurs(hay, needle, i);
    }
    return at >= 0;
  }

  // --- Reliability ---

  function Achieved(outcomes: seq<bool>): (n: nat)
    ensures n <= |outcomes|
  {
    if outcomes == [] then 0 else Achieved(outcomes[..|outcomes| - 1]) + (if outcomes[|outcomes| - 1] then 1 else 0)
  }

  lemma {:induction false} AllAchieved(outcomes: seq<bool>)
    ensures Achieved(outcomes) == |outcomes| <==> forall i :: 0 <= i < |outcomes| ==> outcomes[i]
    decreases |outcomes|
  {
    if outcomes != [] {
      AllAchieved(outcomes[..|outcomes| - 1]);
    }
  }

  lemma RateBounds(successes: real, runs: real, rate: real)
    requires 0.0 <= successes <= runs && runs > 0.0 && rate == successes / runs
    ensures rate * runs == successes && 0.0 <= rate <= 1.0 && (rate == 1.0 <==> successes == runs)
  {
  }

  class Reliability {
    var runs: nat
    var successes: nat
    ghost var outcomes: seq<bool>

    ghost predicate Valid()
      reads this
    {
      runs == |outcomes| && successes == Achieved(outcomes)
    }

    constructor ()
      ensures Valid() && outcomes == []
    {
      runs, successes := 0, 0;
      outcomes := [];
    }

    method Record(achieved: bool)
      requires Valid()
      modifies this
      ensures Valid() && outcomes == old(outcomes) + [achieved]
    {
      runs := runs + 1;
      if achieved {
        successes := successes + 1;
      }
      outcomes := outcomes + [achieved];
      assert outcomes[..|outcomes| - 1] == old(outcomes);
    }

    /** pass^k: at least one run, and every run so far achieved its goal. */
    method PassPowK() returns (ok: bool)
      requires Valid()
      ensures ok <==> outcomes != [] && forall i :: 0 <= i < |outcomes| ==> outcomes[i]
    {
      AllAchieved(outcomes);
      return runs > 0 && successes == runs;
    }

    /** pass@1: the success rate, which is 1 exactly when pass^k holds. */
    method PassAt1() returns (rate: real)
      requires Valid()
      ensures 0.0 <= rate <= 1.0
      ensures outcomes != [] ==> rate * (|outcomes| as real) == Achieved(outcomes) as real
      ensures rate == 1.0 <==> outcomes != [] && forall i :: 0 <= i < |outcomes| ==> outcomes[i]
    {
      AllAchieved(outcomes);
      if runs == 0 {
        return 0.0;
      }
      rate := successes as real / runs as real;
      RateBounds(successes as real, runs as real, rate);
    }
  }
}
