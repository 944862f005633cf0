/** The acceptance fold over self-authored checks: runCandidates (cmd/nilcore/selfacc.go) with the
    registry it binds into (internal/verify/selfacc, internal/artifact/evverify/registry.go). What the
    meta-check and the gate decide is part of each candidate; what a command does in the sandbox is a
    function of the command. */
module SelfAcceptance {
  import opened Text

  /** `gated` marks an agent-proposed candidate; an operator's pre-approved one skips the gate. */
  datatype Candidate = Candidate(id: string, command: string, gated: bool, admitted: bool, approved: bool)

  datatype Scope = Scope(id: string, command: string)

  /** What the audit log and the trust view see. */
  datatype Note = Skip(id: string) | Gate(id: string, approved: bool) | Bind(id: string, passed: bool)
                | Trust(scope: Scope, passed: bool)

  type Sandbox = string -> bool

  /** Command by verifier id; a later binding of an id replaces an earlier one. */
  type Registry = map<string, string>

  datatype State = State(registry: Registry, failures: seq<string>, notes: seq<Note>)

  // --- One candidate, and all of them ---

  predicate Bound(c: Candidate) {
    c.admitted && (c.gated ==> c.approved)
  }

  /** The claim's verifier id is trimmed before the lookup; the binding's is not. */
  predicate Resolves(registry: Registry, c: Candidate) {
    TrimSpace(c.id) in registry
  }

  predicate Passes(registry: Registry, c: Candidate, box: Sandbox) {
    Resolves(registry, c) && box(registry[TrimSpace(c.id)])
  }

  function Register(registry: Registry, c: Candidate): Registry {
    registry[c.id := TrimSpace(c.command)]
  }

  function Consider(s: State, c: Candidate, box: Sandbox): State {
    if !c.admitted then s.(notes := s.notes + [Skip(c.id)])
    else if !Bound(c) then s.(notes := s.notes + [Gate(c.id, false)])
    else
      var registry := Register(s.registry, c);
      var passed := Passes(registry, c, box);
      State(registry, s.failures + (if passed then [] else [c.id]),
            s.notes + (if c.gated then [Gate(c.id, true)] else []) + [Bind(c.id, passed)]
            + (if c.gated then [Trust(Scope(c.id, TrimSpace(c.command)), passed)] else []))
  }

  const FRESH := State(map[], [], [])

  function ConsiderAll(cs: seq<Candidate>, box: Sandbox): State {
    if cs == [] then FRESH else Consider(ConsiderAll(cs[..|cs| - 1], box), cs[|cs| - 1], box)
  }

  predicate Accepted(s: State) {
    s.failures == []
  }

  lemma {:induction false} ConsiderPush(before: seq<Candidate>, cs: seq<Candidate>, i: nat, box: Sandbox)
    requires i < |cs|
    ensures ConsiderAll(before + cs[..i + 1], box) == Consider(ConsiderAll(before + cs[..i], box), cs[i], box)
  {
    var all := before + cs[..i + 1];
    assert all[..|all| - 1] == before + cs[..i] && all[|all| - 1] == cs[i];
  }

  class Acceptance {
    var registry: Registry
    var failures: seq<string>
    var notes: seq<Note>

    ghost function Now(): State
      reads this
    {
      State(registry, failures, notes)
    }

    constructor ()
      ensures Now() == FRESH
    {
      registry, failures, notes := map[], [], [];
    }

    method Run(c: Candidate, box: Sandbox)
      modifies this
      ensures Now() == Consider(old(Now()), c, box)
    {
      if !c.admitted {
        notes := notes + [Skip(c.id)];
        return;
      }
      if c.gated {
        notes := notes + [Gate(c.id, c.approved)];
        if !c.approved {
          return;
        }
      } else {
        assert notes + [] == notes;
      }
      registry := Register(registry, c);
      var passed := Passes(registry, c, box);
      notes := notes + [Bind(c.id, passed)];
      if c.gated {
        notes := notes + [Trust(Scope(c.id, TrimSpace(c.command)), passed)];
      }
      if !passed {
        failures := failures + [c.id];
      }
    }

    method RunEach(before: seq<Candidate>, cs: seq<Candidate>, box: Sandbox)
      requires Now() == ConsiderAll(before, box)
      modifies this
      ensures Now() == ConsiderAll(before + cs, box)
    {
      var i := 0;
      assert before + cs[..0] == before;
      while i < |cs|
        invariant 0 <= i <= |cs| && Now() == ConsiderAll(before + cs[..i], box)
      {
        ConsiderPush(before, cs, i, box);
        Run(cs[i], box);
        i := i + 1;
      }
      assert cs[..i] == cs;
    }

    /** The operator's candidates first, then the proposed ones. */
    method RunCandidates(preApproved: seq<Candidate>, proposed: seq<Candidate>, box: Sandbox) returns (ok: bool)
      requires Now() == FRESH
      modifies this
      ensures Now() == ConsiderAll(preApproved + proposed, box) && ok == Accepted(Now())
    {
      RunEach([], preApproved, box);
      assert [] + preApproved == preApproved;
      RunEach(preApproved, proposed, box);
      return |failures| == 0;
    }
  }

  /** One candidate: un-admissible or denied, it binds nothing and fails nothing; any other is bound under
      its id, and fails exactly when the command found under its trimmed id does not pass. The log says
      what was skipped, what the gate answered, and how each bound check went. */
  lemma {:induction false} ConsiderExactly(s: State, c: Candidate, box: Sandbox, n: Note)
    ensures var t := Consider(s, c, box);
            var bound := c.admitted && (!c.gated || c.approved);
            var registry := s.registry[c.id := TrimSpace(c.command)];
            var passed := TrimSpace(c.id) in registry && box(registry[TrimSpace(c.id)]);
            && t.registry == (if bound then registry else s.registry)
            && t.failures == s.failures + (if bound && !passed then [c.id] else [])
            && s.notes <= t.notes
            && (n in t.notes[|s.notes|..] <==>
                  || (!c.admitted && n == Skip(c.id))
                  || (c.admitted && c.gated && n == Gate(c.id, c.approved))
                  || (bound && n == Bind(c.id, passed))
                  || (bound && c.gated && n == Trust(Scope(c.id, TrimSpace(c.command)), passed)))
  {
    var t, registry := Consider(s, c, box), Register(s.registry, c);
    var passed := Passes(registry, c, box);
    var trust := Trust(Scope(c.id, TrimSpace(c.command)), passed);
    assert t.notes[|s.notes|..] ==
           if !c.admitted then [Skip(c.id)]
           else if c.gated && !c.approved then [Gate(c.id, false)]
           else if c.gated then [Gate(c.id, true), Bind(c.id, passed), trust]
           else [Bind(c.id, passed)];
  }

  // --- What the verdict means ---

  function Bindings(cs: seq<Candidate>): (r: Registry) {
    if cs == [] then map[]
    else
      var c := cs[|cs| - 1];
      if Bound(c) then Register(Bindings(cs[..|cs| - 1]), c) else Bindings(cs[..|cs| - 1])
  }

  /** The commands the bound candidates were approved with. */
  function OwnCommands(cs: seq<Candidate>): (r: set<string>) {
    if cs == [] then {}
    else
      var c := cs[|cs| - 1];
      OwnCommands(cs[..|cs| - 1]) + (if Bound(c) then {TrimSpace(c.command)} else {})
  }

  /** The commands their lookups ran. */
  function RunCommands(cs: seq<Candidate>): (r: set<string>) {
    if cs == [] then {}
    else
      var c := cs[|cs| - 1];
      RunCommands(cs[..|cs| - 1])
      + (if Bound(c) && Resolves(Bindings(cs), c) then {Bindings(cs)[TrimSpace(c.id)]} else {})
  }

  /** Some bound candidate found nothing under its trimmed id. */
  predicate Dangling(cs: seq<Candidate>) {
    cs != [] && (Dangling(cs[..|cs| - 1]) || (Bound(cs[|cs| - 1]) && !Resolves(Bindings(cs), cs[|cs| - 1])))
  }

  predicate AllHold(commands: set<string>, box: Sandbox) {
    forall c :: c in commands ==> box(c)
  }

  lemma {:induction false} VerdictOfRuns(cs: seq<Candidate>, box: Sandbox)
    ensures ConsiderAll(cs, box).registry == Bindings(cs)
    ensures Accepted(ConsiderAll(cs, box)) <==> !Dangling(cs) && AllHold(RunCommands(cs), box)
    decreases |cs|
  {
    if cs != [] {
      VerdictOfRuns(cs[..|cs| - 1], box);
    }
  }

  ghost predicate Honest(cs: seq<Candidate>, box: Sandbox) {
    Accepted(ConsiderAll(cs, box)) <==> AllHold(OwnCommands(cs), box)
  }

  lemma {:induction false} HonestRunsItsOwn(cs: seq<Candidate>)
    requires forall box: Sandbox :: Honest(cs, box)
    ensures !Dangling(cs) && RunCommands(cs) == OwnCommands(cs)
  {
    var own, runs := OwnCommands(cs), RunCommands(cs);
    var ownBox: Sandbox, runBox: Sandbox := c => c in own, c => c in runs;
    VerdictOfRuns(cs, ownBox);
    VerdictOfRuns(cs, runBox);
    assert Honest(cs, ownBox) && Honest(cs, runBox);
    assert AllHold(own, ownBox);
    assert forall c :: c in runs ==> ownBox(c);
    assert AllHold(runs, runBox);
    assert forall c :: c in own ==> runBox(c);
  }

  /** The verdict is true exactly when every bound check's own command holds, in every sandbox, if and
      only if the lookups found what was bound: no id dangles and the commands run are the commands
      bound. */
  lemma {:induction false} VerdictIsHonestExactly(cs: seq<Candidate>)
    ensures (forall box: Sandbox :: Honest(cs, box)) <==> !Dangling(cs) && RunCommands(cs) == OwnCommands(cs)
  {
    if !Dangling(cs) && RunCommands(cs) == OwnCommands(cs) {
      forall box: Sandbox ensures Honest(cs, box) {
        VerdictOfRuns(cs, box);
      }
    } else if forall box: Sandbox :: Honest(cs, box) {
      HonestRunsItsOwn(cs);
    }
  }

  /** Bound ids carry no surrounding white space. */
  predicate Tidy(cs: seq<Candidate>) {
    forall c :: c in cs && Bound(c) ==> TrimSpace(c.id) == c.id
  }

  lemma {:induction false} TidyRunsItsOwn(cs: seq<Candidate>)
    requires Tidy(cs)
    ensures !Dangling(cs) && RunCommands(cs) == OwnCommands(cs)
    decreases |cs|
  {
    if cs != [] {
      assert cs[|cs| - 1] in cs;
      TidyRunsItsOwn(cs[..|cs| - 1]);
    }
  }

  lemma ConsiderTwo(first: Candidate, second: Candidate, box: Sandbox)
    ensures ConsiderAll([first, second], box) == Consider(Consider(FRESH, first, box), second, box)
    ensures Bound(second) ==> TrimSpace(second.command) in OwnCommands([first, second])
  {
    assert [first, second][..1] == [first] && [first][..0] == [];
    assert ConsiderAll([first], box) == Consider(FRESH, first, box);
  }

  lemma Spaced()
    ensures TrimSpace(" x") == TrimSpace("x") == "x" && TrimSpace("holds") == "holds" && TrimSpace("fails") == "fails"
  {
  }

  /** An id that differs from an earlier one only in white space runs the earlier one's command: a
      proposed check that fails is reported, and trusted, as passed. */
  lemma UntidyIdBorrowsAVerdict() returns (cs: seq<Candidate>, box: Sandbox)
    ensures Accepted(ConsiderAll(cs, box)) && !AllHold(OwnCommands(cs), box)
    ensures Trust(Scope(" x", "fails"), true) in ConsiderAll(cs, box).notes && !box("fails")
  {
    var first, second := Candidate("x", "holds", false, true, false), Candidate(" x", "fails", true, true, true);
    cs := [first, second];
    box := c => c == "holds";
    Spaced();
    ConsiderTwo(first, second, box);
    var registry := Register(map[], first);
    assert Passes(registry, first, box) && Passes(Register(registry, second), second, box);
    assert !box("fails");
  }

  // --- Who takes part ---

  function BoundOnly(cs: seq<Candidate>): (r: seq<Candidate>) {
    if cs == [] then []
    else BoundOnly(cs[..|cs| - 1]) + (if Bound(cs[|cs| - 1]) then [cs[|cs| - 1]] else [])
  }

  /** Un-admissible and denied candidates never change what is bound, what failed or the verdict. */
  lemma {:induction false} DenialIsNoFailure(cs: seq<Candidate>, box: Sandbox)
    ensures ConsiderAll(BoundOnly(cs), box).registry == ConsiderAll(cs, box).registry
    ensures ConsiderAll(BoundOnly(cs), box).failures == ConsiderAll(cs, box).failures
    decreases |cs|
  {
    if cs != [] {
      var init, last := cs[..|cs| - 1], cs[|cs| - 1];
      DenialIsNoFailure(init, box);
      if Bound(last) {
        assert (BoundOnly(init) + [last])[..|BoundOnly(init)|] == BoundOnly(init);
      } else {
        assert BoundOnly(cs) == BoundOnly(init);
      }
    }
  }

  /** More candidates only add failures: a verdict can turn from true to false, never back. */
  lemma {:induction false} AppendingOnlyReddens(cs: seq<Candidate>, more: seq<Candidate>, box: Sandbox)
    ensures ConsiderAll(cs, box).failures <= ConsiderAll(cs + more, box).failures
    ensures Accepted(ConsiderAll(cs + more, box)) ==> Accepted(ConsiderAll(cs, box))
    decreases |more|
  {
    if more == [] {
      assert cs + more == cs;
    } else {
      AppendingOnlyReddens(cs, more[..|more| - 1], box);
      assert (cs + more)[..|cs + more| - 1] == cs + more[..|more| - 1];
    }
  }

  // --- Trust ---

  function Scopes(cs: seq<Candidate>): (r: seq<Scope>) {
    if cs == [] then []
    else
      var c := cs[|cs| - 1];
      Scopes(cs[..|cs| - 1]) + (if Bound(c) && c.gated then [Scope(c.id, TrimSpace(c.command))] else [])
  }

  function Trusted(notes: seq<Note>): (r: seq<Scope>) {
    if notes == [] then []
    else Trusted(notes[..|notes| - 1]) + (if notes[|notes| - 1].Trust? then [notes[|notes| - 1].scope] else [])
  }

  lemma {:induction false} TrustedConcat(a: seq<Note>, b: seq<Note>)
    ensures Trusted(a + b) == Trusted(a) + Trusted(b)
    decreases |b|
  {
    if b == [] {
      assert a + b == a;
    } else {
      TrustedConcat(a, b[..|b| - 1]);
      assert (a + b)[..|a + b| - 1] == a + b[..|b| - 1];
    }
  }

  lemma TrustedOne(n: Note)
    ensures Trusted([n]) == if n.Trust? then [n.scope] else []
  {
    assert [n][..0] == [];
  }

  function NotesOf(registry: Registry, c: Candidate, box: Sandbox): (r: seq<Note>) {
    Consider(State(registry, [], []), c, box).notes
  }

  lemma {:induction false} ConsiderAppends(s: State, c: Candidate, box: Sandbox)
    ensures Consider(s, c, box).notes == s.notes + NotesOf(s.registry, c, box)
  {
  }

  lemma TrustedLast(a: Note, b: Note, n: Note)
    requires !a.Trust? && !b.Trust?
    ensures Trusted([a, b, n]) == Trusted([n]) == if n.Trust? then [n.scope] else []
  {
    assert [a, b, n] == [a, b] + [n] && [a, b] == [a] + [b];
    TrustedConcat([a, b], [n]);
    TrustedConcat([a], [b]);
    TrustedOne(a);
    TrustedOne(b);
    TrustedOne(n);
  }

  lemma {:induction false} NotesTrust(registry: Registry, c: Candidate, box: Sandbox)
    ensures Trusted(NotesOf(registry, c, box))
         == if Bound(c) && c.gated then [Scope(c.id, TrimSpace(c.command))] else []
  {
    var ns := NotesOf(registry, c, box);
    if Bound(c) && c.gated {
      assert |ns| == 3 && ns[2].Trust? && ns[2].scope == Scope(c.id, TrimSpace(c.command));
      TrustedLast(ns[0], ns[1], ns[2]);
      assert ns == [ns[0], ns[1], ns[2]];
    } else {
      assert ns == [ns[0]] && !ns[0].Trust?;
      TrustedOne(ns[0]);
    }
  }

  /** Trust is recorded for exactly the gated checks that were bound and run, once each and in order. */
  lemma {:induction false} TrustIsEarnedExactly(cs: seq<Candidate>, box: Sandbox)
    ensures Trusted(ConsiderAll(cs, box).notes) == Scopes(cs)
    decreases |cs|
  {
    if cs != [] {
      var init, last := cs[..|cs| - 1], cs[|cs| - 1];
      var s := ConsiderAll(init, box);
      TrustIsEarnedExactly(init, box);
      ConsiderAppends(s, last, box);
      NotesTrust(s.registry, last, box);
      TrustedConcat(s.notes, NotesOf(s.registry, last, box));
    }
  }

  lemma {:induction false} TidyNote(registry: Registry, c: Candidate, box: Sandbox, n: Note)
    requires n in NotesOf(registry, c, box) && n.Trust? && (Bound(c) ==> TrimSpace(c.id) == c.id)
    ensures n.passed <==> box(n.scope.command)
  {
  }

  /** With tidy ids the outcome recorded for a scope is that of the scope's own command. */
  lemma {:induction false} TrustIsOwn(cs: seq<Candidate>, box: Sandbox, n: Note)
    requires Tidy(cs) && n in ConsiderAll(cs, box).notes && n.Trust?
    ensures n.passed <==> box(n.scope.command)
    decreases |cs|
  {
    if cs != [] {
      var init, last := cs[..|cs| - 1], cs[|cs| - 1];
      var s := ConsiderAll(init, box);
      ConsiderAppends(s, last, box);
      assert last in cs;
      if n in s.notes {
        TrustIsOwn(init, box, n);
      } else {
        TidyNote(s.registry, last, box, n);
      }
    }
  }
}
