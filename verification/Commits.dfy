/** A commit graph: commit `i` has the parents `g[i]`, all older than it. */
module Commits {

  type Commit = nat

  predicate Acyclic(g: seq<set<Commit>>) {
    forall i, p :: 0 <= i < |g| && p in g[i] ==> p < i
  }

  type Graph = g: seq<set<Commit>> | Acyclic(g) witness []

  /** `a` is `b` or one of its ancestors. */
  predicate Ancestor(g: Graph, a: Commit, b: Commit)
    requires b < |g|
    decreases b
  {
    a == b || exists p :: p in g[b] && Ancestor(g, a, p)
  }

  lemma {:induction false} AncestorIsOlder(g: Graph, a: Commit, b: Commit)
    requires b < |g| && Ancestor(g, a, b)
    ensures a <= b
    decreases b
  {
    if a != b {
      var p :| p in g[b] && Ancestor(g, a, p);
      AncestorIsOlder(g, a, p);
    }
  }

  lemma {:induction false} AncestorTransitive(g: Graph, a: Commit, b: Commit, c: Commit)
    requires b < |g| && c < |g| && Ancestor(g, a, b) && Ancestor(g, b, c)
    ensures Ancestor(g, a, c)
    decreases c
  {
    if b != c {
      var p :| p in g[c] && Ancestor(g, b, p);
      AncestorTransitive(g, a, b, p);
    }
  }

  /** History only grows: a new commit changes no existing ancestry. */
  lemma {:induction false} AncestorStable(g: Graph, parents: set<Commit>, a: Commit, b: Commit)
    requires b < |g| && Acyclic(g + [parents])
    ensures Ancestor(g + [parents], a, b) <==> Ancestor(g, a, b)
    decreases b
  {
    assert (g + [parents])[b] == g[b];
    forall p | p in g[b] ensures Ancestor(g + [parents], a, p) <==> Ancestor(g, a, p) {
      AncestorStable(g, parents, a, p);
    }
  }
}
