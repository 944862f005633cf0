/** The per-process gateway cache of hard egress: hardCacheKey, getHardEgress, stopHardEgress and the
    once-only teardowns (cmd/nilcore/egress_hard.go). */
module HardEgress {
  import opened Text

  // --- The canonical key ---

  /** Text order, character by character. */
  predicate Leq(a: string, b: string) {
    a == "" || (b != "" && (a[0] < b[0] || (a[0] == b[0] && Leq(a[1..], b[1..]))))
  }

  function Insert(x: string, s: seq<string>): (r: seq<string>) {
    if s == [] then [x] else if Leq(x, s[0]) then [x] + s else [s[0]] + Insert(x, s[1..])
  }

  /** A sorted copy; the caller's list is untouched. */
  function Sort(s: seq<string>): (r: seq<string>) {
    if s == [] then [] else Insert(s[0], Sort(s[1..]))
  }

  function CacheKey(runtime: string, image: string, hosts: seq<string>): (k: string) {
    runtime + "|" + image + "|" + Join(Sort(hosts), ",")
  }

  predicate Sorted(s: seq<string>) {
    forall i, j :: 0 <= i < j < |s| ==> Leq(s[i], s[j])
  }

  lemma {:induction false} LeqTotal(a: string, b: string)
    ensures Leq(a, b) || Leq(b, a)
    ensures Leq(a, b) && Leq(b, a) ==> a == b
    decreases |a|
  {
    if a != "" && b != "" {
      LeqTotal(a[1..], b[1..]);
      if a[0] == b[0] && a[1..] == b[1..] {
        assert a == [a[0]] + a[1..] && b == [b[0]] + b[1..];
      }
    }
  }

  lemma {:induction false} LeqTransitive(a: string, b: string, c: string)
    requires Leq(a, b) && Leq(b, c)
    ensures Leq(a, c)
    decreases |a|
  {
    if a != "" && a[0] == b[0] && b[0] == c[0] {
      LeqTransitive(a[1..], b[1..], c[1..]);
    }
  }

  lemma {:induction false} InsertAdds(x: string, s: seq<string>)
    ensures multiset(Insert(x, s)) == multiset{x} + multiset(s)
    decreases |s|
  {
    if s != [] && !Leq(x, s[0]) {
      InsertAdds(x, s[1..]);
      assert s == [s[0]] + s[1..];
    }
  }

  lemma FrontIsLeast(x: string, s: seq<string>)
    requires Sorted(s) && forall y :: y in s ==> Leq(x, y)
    ensures Sorted([x] + s)
  {
  }

  lemma {:induction false} InsertSorts(x: string, s: seq<string>)
    requires Sorted(s)
    ensures Sorted(Insert(x, s))
    decreases |s|
  {
    if s != [] {
      LeqTotal(x, s[0]);
      if Leq(x, s[0]) {
        forall y | y in s ensures Leq(x, y) {
          LeastIsFirst(s, y);
          LeqTransitive(x, s[0], y);
        }
        FrontIsLeast(x, s);
      } else {
        var rest := Insert(x, s[1..]);
        InsertSorts(x, s[1..]);
        InsertAdds(x, s[1..]);
        forall y | y in rest ensures Leq(s[0], y) {
          assert y in multiset(rest);
          assert y == x || y in s[1..];
          assert y in s[1..] ==> y in s;
          if y in s {
            LeastIsFirst(s, y);
          }
        }
        FrontIsLeast(s[0], rest);
      }
    }
  }

  lemma {:induction false} LeastIsFirst(s: seq<string>, x: string)
    requires Sorted(s) && x in s
    ensures Leq(s[0], x)
  {
    LeqTotal(s[0], s[0]);
  }

  lemma {:induction false} SortKeeps(s: seq<string>)
    ensures multiset(Sort(s)) == multiset(s) && Sorted(Sort(s))
    decreases |s|
  {
    if s != [] {
      SortKeeps(s[1..]);
      InsertAdds(s[0], Sort(s[1..]));
      InsertSorts(s[0], Sort(s[1..]));
      assert s == [s[0]] + s[1..];
    }
  }

  lemma {:induction false} HeadsAgree(s: seq<string>, t: seq<string>)
    requires s != [] && t != [] && Sorted(s) && Sorted(t) && multiset(s) == multiset(t)
    ensures s[0] == t[0]
  {
    assert s[0] in multiset(t) && t[0] in multiset(s);
    LeastIsFirst(s, t[0]);
    LeastIsFirst(t, s[0]);
    LeqTotal(s[0], t[0]);
  }

  lemma RestsAgree(s: seq<string>, t: seq<string>)
    requires s != [] && t != [] && s[0] == t[0] && multiset(s) == multiset(t)
    ensures multiset(s[1..]) == multiset(t[1..])
  {
    assert s == [s[0]] + s[1..] && t == [t[0]] + t[1..];
    assert multiset(s[1..]) == multiset(s) - multiset{s[0]};
    assert multiset(t[1..]) == multiset(t) - multiset{t[0]};
  }

  lemma {:induction false} SortedIsUnique(s: seq<string>, t: seq<string>)
    requires Sorted(s) && Sorted(t) && multiset(s) == multiset(t)
    ensures s == t
    decreases |s|
  {
    assert |s| == |multiset(s)| == |multiset(t)| == |t|;
    if s != [] {
      HeadsAgree(s, t);
      RestsAgree(s, t);
      SortedIsUnique(s[1..], t[1..]);
      assert s == [s[0]] + s[1..] && t == [t[0]] + t[1..];
    }
  }

  /** The text between two bars gives back the runtime, the image and the sorted list. */
  lemma {:induction false} KeyParts(runtime: string, image: string, hosts: seq<string>, runtime': string,
      image': string, hosts': seq<string>)
    requires '|' !in runtime && '|' !in image && '|' !in runtime' && '|' !in image'
    requires CacheKey(runtime, image, hosts) == CacheKey(runtime', image', hosts')
    ensures runtime == runtime' && image == image' && Join(Sort(hosts), ",") == Join(Sort(hosts'), ",")
  {
    FirstBar(runtime, image + "|" + Join(Sort(hosts), ","));
    FirstBar(runtime', image' + "|" + Join(Sort(hosts'), ","));
    var a := image + "|" + Join(Sort(hosts), ",");
    var b := image' + "|" + Join(Sort(hosts'), ",");
    assert CacheKey(runtime, image, hosts) == runtime + "|" + a
          && CacheKey(runtime', image', hosts') == runtime' + "|" + b;
    Cut(runtime, a, runtime', b);
    Cut(image, Join(Sort(hosts), ","), image', Join(Sort(hosts'), ","));
  }

  lemma FirstBar(head: string, tail: string)
    requires '|' !in head
    ensures (head + "|" + tail)[|head|] == '|' && forall i :: 0 <= i < |head| ==> (head + "|" + tail)[i] != '|'
  {
  }

  lemma {:induction false} Cut(head: string, tail: string, other: string, rest: string)
    requires '|' !in head && '|' !in other && head + "|" + tail == other + "|" + rest
    ensures head == other && tail == rest
  {
    FirstBar(head, tail);
    FirstBar(other, rest);
    var k := head + "|" + tail;
    assert |head| == |other|;
    assert k[..|head|] == head && k[..|other|] == other && k[|head| + 1..] == tail && k[|other| + 1..] == rest;
  }

  predicate NoHost(hosts: seq<string>) {
    hosts == [] || hosts == [""]
  }

  lemma {:induction false} JoinedHosts(s: seq<string>, t: seq<string>)
    requires Free(',', s) && Free(',', t)
    ensures Join(s, ",") == Join(t, ",") <==> s == t || (NoHost(s) && NoHost(t))
  {
    if s != [] {
      SplitOfJoin(s, ',');
    }
    if t != [] {
      SplitOfJoin(t, ',');
    }
    assert Split("", ',') == [""];
  }

  lemma {:induction false} SortOfFree(hosts: seq<string>)
    requires Free(',', hosts)
    ensures Free(',', Sort(hosts)) && (NoHost(Sort(hosts)) <==> NoHost(hosts))
  {
    SortKeeps(hosts);
    forall h | h in Sort(hosts) ensures h in hosts {
      assert h in multiset(Sort(hosts));
    }
    assert |Sort(hosts)| == |multiset(Sort(hosts))| == |multiset(hosts)| == |hosts|;
    if |hosts| == 1 {
      assert Sort(hosts)[0] in Sort(hosts);
    }
  }

  /** One gateway for two requests exactly when runtime and image agree and the allowlists are
      permutations of each other; only "no hosts" and "one empty host" are confused. */
  lemma {:induction false} SameKeyExactly(runtime: string, image: string, hosts: seq<string>, runtime': string,
      image': string, hosts': seq<string>)
    requires '|' !in runtime && '|' !in image && '|' !in runtime' && '|' !in image'
    requires Free(',', hosts) && Free(',', hosts')
    ensures CacheKey(runtime, image, hosts) == CacheKey(runtime', image', hosts') <==>
              runtime == runtime' && image == image'
              && (multiset(hosts) == multiset(hosts') || (NoHost(hosts) && NoHost(hosts')))
  {
    SortKeeps(hosts);
    SortKeeps(hosts');
    SortOfFree(hosts);
    SortOfFree(hosts');
    JoinedHosts(Sort(hosts), Sort(hosts'));
    if CacheKey(runtime, image, hosts) == CacheKey(runtime', image', hosts') {
      KeyParts(runtime, image, hosts, runtime', image', hosts');
    }
    if multiset(hosts) == multiset(hosts') {
      SortedIsUnique(Sort(hosts), Sort(hosts'));
    }
  }

  // --- The cache and its teardowns ---

  datatype Setup = Failed | Up(teardown: bool)

  /** Gateways are numbered by successful setup. `draining` holds the teardowns a drain took over and has
      not called yet; `ran` holds those called. */
  datatype State = State(cache: map<string, nat>, registered: seq<nat>, draining: seq<nat>, ran: seq<nat>,
      setups: seq<Setup>)

  datatype Step = Get(key: string, setup: Setup) | Swap | Teardown

  const INITIAL := State(map[], [], [], [], [])

  function Perform(s: State, step: Step): State {
    match step
    case Get(key, setup) =>
      if key in s.cache || setup.Failed? then s
      else s.(cache := s.cache[key := |s.setups|], setups := s.setups + [setup],
              registered := s.registered + (if setup.teardown then [|s.setups|] else []))
    case Swap => s.(cache := map[], registered := [], draining := s.draining + s.registered)
    case Teardown => if s.draining == [] then s else s.(draining := s.draining[1..], ran := s.ran + [s.draining[0]])
  }

  function After(s: State, steps: seq<Step>): State
    decreases |steps|
  {
    if steps == [] then s else After(Perform(s, steps[0]), steps[1..])
  }

  /** The setups that came with a teardown. */
  function Owed(setups: seq<Setup>): (r: multiset<nat>) {
    if setups == [] then multiset{}
    else
      var n := |setups| - 1;
      Owed(setups[..n]) + (if setups[n].Up? && setups[n].teardown then multiset{n} else multiset{})
  }

  predicate Balanced(s: State) {
    multiset(s.registered) + multiset(s.draining) + multiset(s.ran) == Owed(s.setups)
  }

  predicate Accounted(s: State) {
    && Balanced(s)
    && (forall k :: k in s.cache ==> s.cache[k] < |s.setups|)
    && (forall i :: 0 <= i < |s.setups| ==> s.setups[i].Up?)
  }

  lemma {:induction false} SetupKeepsBalance(s: State, key: string, setup: Setup)
    requires Balanced(s) && key !in s.cache && setup.Up?
    ensures Balanced(Perform(s, Get(key, setup)))
  {
  }

  lemma {:induction false} SetupKeepsAccount(s: State, key: string, setup: Setup)
    requires Accounted(s) && key !in s.cache && setup.Up?
    ensures Accounted(Perform(s, Get(key, setup)))
  {
    SetupKeepsBalance(s, key, setup);
  }

  lemma {:induction false} TeardownKeepsAccount(s: State)
    requires Accounted(s) && s.draining != []
    ensures Accounted(Perform(s, Teardown))
  {
    assert s.draining == [s.draining[0]] + s.draining[1..];
  }

  lemma {:induction false} StepKeepsAccount(s: State, step: Step)
    requires Accounted(s)
    ensures Accounted(Perform(s, step))
  {
    match step {
      case Get(key, setup) =>
        if key !in s.cache && setup.Up? {
          SetupKeepsAccount(s, key, setup);
        }
      case Swap =>
      case Teardown =>
        if s.draining != [] {
          TeardownKeepsAccount(s);
        }
    }
  }

  lemma {:induction false} RunKeepsAccount(s: State, steps: seq<Step>)
    requires Accounted(s)
    ensures Accounted(After(s, steps))
    decreases |steps|
  {
    if steps != [] {
      StepKeepsAccount(s, steps[0]);
      RunKeepsAccount(Perform(s, steps[0]), steps[1..]);
    }
  }

  lemma {:induction false} OwedOnce(setups: seq<Setup>, i: nat)
    ensures Owed(setups)[i] == if i < |setups| && setups[i].Up? && setups[i].teardown then 1 else 0
    decreases |setups|
  {
    if setups != [] {
      OwedOnce(setups[..|setups| - 1], i);
    }
  }

  /** In every run, whatever drains overlap it: each gateway that came up with a teardown has it waiting
      once or called once, never both and never twice; once nothing waits, each was called exactly
      once. A failed setup leaves no entry: every cached gateway came up. */
  lemma {:induction false} TeardownsRunExactlyOnce(steps: seq<Step>, i: nat)
    ensures var t := After(INITIAL, steps);
            && multiset(t.registered)[i] + multiset(t.draining)[i] + multiset(t.ran)[i]
               == (if i < |t.setups| && t.setups[i].Up? && t.setups[i].teardown then 1 else 0)
            && (t.registered == [] && t.draining == [] ==>
                  multiset(t.ran)[i] == if i < |t.setups| && t.setups[i].Up? && t.setups[i].teardown then 1 else 0)
            && (forall k :: k in t.cache ==> t.cache[k] < |t.setups| && t.setups[t.cache[k]].Up?)
  {
    RunKeepsAccount(INITIAL, steps);
    OwedOnce(After(INITIAL, steps).setups, i);
  }

  lemma {:induction false} DrainCallsAll(s: State)
    ensures After(s, seq(|s.draining|, i => Teardown)) == s.(draining := [], ran := s.ran + s.draining)
    decreases |s.draining|
  {
    if s.draining != [] {
      var t := Perform(s, Teardown);
      DrainCallsAll(t);
      assert seq(|s.draining|, i => Teardown)[1..] == seq(|t.draining|, i => Teardown);
      assert s.ran + s.draining == (s.ran + [s.draining[0]]) + s.draining[1..];
    } else {
      assert s.ran + [] == s.ran;
    }
  }

  /** A drain that nothing overlaps: the swap, then one call for each gateway that was registered. */
  lemma {:induction false} DrainIsARun(s: State)
    requires s.draining == []
    ensures After(s, [Swap] + seq(|s.registered|, i => Teardown))
         == s.(cache := map[], registered := [], ran := s.ran + s.registered)
  {
    var calls := seq(|s.registered|, i => Teardown);
    assert ([Swap] + calls)[1..] == calls && s.draining + s.registered == s.registered;
    DrainCallsAll(Perform(s, Swap));
  }

  predicate SwapFree(steps: seq<Step>) {
    forall step :: step in steps ==> !step.Swap?
  }

  /** Between drains a key keeps its gateway. */
  lemma {:induction false} GatewayIsReused(s: State, steps: seq<Step>, key: string)
    requires SwapFree(steps) && key in s.cache
    ensures key in After(s, steps).cache && After(s, steps).cache[key] == s.cache[key]
    decreases |steps|
  {
    if steps != [] {
      assert steps[0] in steps;
      GatewayIsReused(Perform(s, steps[0]), steps[1..], key);
    }
  }

  /** A gateway's teardown. Whoever calls it and however often, it acts once. */
  class OnceTeardown {
    const gateway: nat
    var done: bool
    ghost var effects: nat

    ghost predicate Once()
      reads this
    {
      effects == if done then 1 else 0
    }

    constructor (gateway: nat)
      ensures this.gateway == gateway && !done && Once()
    {
      this.gateway := gateway;
      done, effects := false, 0;
    }

    method Call()
      requires Once()
      modifies this
      ensures done && Once()
    {
      if !done {
        done := true;
        effects := effects + 1;
      }
    }
  }

  function GatewaysOf(fns: seq<OnceTeardown>): (r: seq<nat>) {
    seq(|fns|, i requires 0 <= i < |fns| => fns[i].gateway)
  }

  class Gateways {
    var cache: map<string, nat>
    var registered: seq<OnceTeardown>
    ghost var ran: seq<nat>
    ghost var setups: seq<Setup>
    var count: nat

    ghost function Now(): State
      reads this
    {
      State(cache, GatewaysOf(registered), [], ran, setups)
    }

    ghost predicate Valid()
      reads this, registered
    {
      count == |setups| && forall fn :: fn in registered ==> fn.Once()
    }

    constructor ()
      ensures Valid() && Now() == INITIAL
    {
      cache, registered, count := map[], [], 0;
      ran, setups := [], [];
    }

    method GetHardEgress(runtime: string, image: string, hosts: seq<string>, setup: Setup)
        returns (gateway: nat, ok: bool)
      requires Valid()
      modifies this
      ensures Valid() && Now() == Perform(old(Now()), Get(CacheKey(runtime, image, hosts), setup))
      ensures ok <==> CacheKey(runtime, image, hosts) in old(cache) || setup.Up?
      ensures ok ==> CacheKey(runtime, image, hosts) in cache && gateway == cache[CacheKey(runtime, image, hosts)]
    {
      var key := CacheKey(runtime, image, hosts);
      if key in cache {
        return cache[key], true;
      }
      if setup.Failed? {
        return 0, false;
      }
      gateway, ok := count, true;
      cache := cache[key := gateway];
      if setup.teardown {
        var fn := new OnceTeardown(gateway);
        registered := registered + [fn];
      }
      count, setups := count + 1, setups + [setup];
    }

    /** Takes the list over and clears the cache, then calls every teardown in order: each one has acted,
        and acted once. */
    method StopHardEgress()
      requires Valid()
      modifies this, registered
      ensures Valid() && Now() == After(old(Now()), [Swap] + seq(|old(registered)|, i => Teardown))
      ensures forall fn :: fn in old(registered) ==> fn.done && fn.effects == 1
    {
      DrainIsARun(Now());
      var fns, i := registered, 0;
      registered, cache := [], map[];
      while i < |fns|
        invariant 0 <= i <= |fns| && ran == old(ran) + GatewaysOf(fns)[..i]
        invariant cache == map[] && registered == [] && setups == old(setups) && count == old(count)
        invariant forall fn :: fn in fns ==> fn.Once()
        invariant forall k :: 0 <= k < i ==> fns[k].done
      {
        fns[i].Call();
        ran := ran + [fns[i].gateway];
        i := i + 1;
      }
      assert GatewaysOf(fns)[..i] == GatewaysOf(fns);
    }
  }
}
