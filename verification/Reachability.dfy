/** Paths and reachability in finite directed graphs, given by successor lists or by a set of edges. */
module Reachability {

  /** p is a non-empty walk along edges of rel. */
  ghost predicate IsPath<T>(rel: set<(T, T)>, p: seq<T>) {
    |p| > 0 && forall i :: 0 <= i < |p| - 1 ==> (p[i], p[i + 1]) in rel
  }

  ghost predicate PathFromTo<T>(rel: set<(T, T)>, p: seq<T>, u: T, v: T) {
    IsPath(rel, p) && p[0] == u && p[|p| - 1] == v
  }

  /** v can be reached from u in zero or more steps. */
  ghost predicate Reaches<T(!new)>(rel: set<(T, T)>, u: T, v: T) {
    exists p: seq<T> :: PathFromTo(rel, p, u, v)
  }

  /** u and v lie in the same strongly connected component. */
  ghost predicate Mutual<T(!new)>(rel: set<(T, T)>, u: T, v: T) {
    Reaches(rel, u, v) && Reaches(rel, v, u)
  }

  /** u lies on some directed cycle (of length one or more). */
  ghost predicate OnCycle<T(!new)>(rel: set<(T, T)>, u: T) {
    exists w :: (u, w) in rel && Reaches(rel, w, u)
  }

  lemma ReachesSelf<T(!new)>(rel: set<(T, T)>, u: T)
    ensures Reaches(rel, u, u)
  {
    assert PathFromTo(rel, [u], u, u);
  }

  lemma ReachesEdge<T(!new)>(rel: set<(T, T)>, u: T, v: T)
    requires (u, v) in rel
    ensures Reaches(rel, u, v)
  {
    assert PathFromTo(rel, [u, v], u, v);
  }

  lemma ReachesTrans<T(!new)>(rel: set<(T, T)>, u: T, v: T, w: T)
    requires Reaches(rel, u, v) && Reaches(rel, v, w)
    ensures Reaches(rel, u, w)
  {
    var p :| PathFromTo(rel, p, u, v);
    var q :| PathFromTo(rel, q, v, w);
    var r := p + q[1..];
    forall i | 0 <= i < |r| - 1
      ensures (r[i], r[i + 1]) in rel
    {
      if i >= |p| - 1 {
        assert r[i] == q[i - (|p| - 1)];
      }
    }
    assert PathFromTo(rel, r, u, w);
  }

  /** A set closed under the edges of rel contains everything reachable from its members. */
  lemma {:induction false} ReachesStaysInClosed<T(!new)>(rel: set<(T, T)>, closed: set<T>, u: T, v: T)
    requires forall a, b :: (a, b) in rel && a in closed ==> b in closed
    requires u in closed && Reaches(rel, u, v)
    ensures v in closed
  {
    var p :| PathFromTo(rel, p, u, v);
    var i := 0;
    while i < |p| - 1
      invariant 0 <= i <= |p| - 1 && p[i] in closed
    {
      assert (p[i], p[i + 1]) in rel;
      i := i + 1;
    }
  }

  /** What a reachability relation on the nodes below n offers: reflexive, containing the edges, transitive. */
  ghost predicate IsClosure(g: seq<seq<nat>>, reach: set<(nat, nat)>) {
    && (forall v: nat :: v < |g| ==> (v, v) in reach)
    && (forall v: nat, j :: v < |g| && 0 <= j < |g[v]| ==> (v, g[v][j]) in reach)
    && (forall u, v, w :: (u, v) in reach && (v, w) in reach ==> (u, w) in reach)
  }

  /** The pairs of nodes of g joined by a walk. */
  ghost function ReachSet(g: seq<seq<nat>>): set<(nat, nat)> {
    set u: nat, v: nat | u < |g| && v < |g| && Reaches(EdgesOf(g), u, v) :: (u, v)
  }

  lemma ReachSetIsClosure(g: seq<seq<nat>>)
    requires WellFormed(g)
    ensures IsClosure(g, ReachSet(g))
  {
    var rel, reach := EdgesOf(g), ReachSet(g);
    forall v: nat | v < |g|
      ensures (v, v) in reach
    {
      ReachesSelf(rel, v);
    }
    forall v: nat, j | v < |g| && 0 <= j < |g[v]|
      ensures (v, g[v][j]) in reach
    {
      ReachesEdge(rel, v, g[v][j]);
    }
    forall u, v, w | (u, v) in reach && (v, w) in reach
      ensures (u, w) in reach
    {
      ReachesTrans(rel, u, v, w);
    }
  }

  /** The edges of a graph whose node v has the successor list g[v]. */
  ghost function EdgesOf(g: seq<seq<nat>>): set<(nat, nat)> {
    set v, k | 0 <= v < |g| && 0 <= k < |g[v]| :: (v, g[v][k])
  }

  ghost predicate WellFormed(g: seq<seq<nat>>) {
    forall v, k :: 0 <= v < |g| && 0 <= k < |g[v]| ==> g[v][k] < |g|
  }
}
