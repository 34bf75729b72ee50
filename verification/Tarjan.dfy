/**
 * The iterative strongly-connected-components search of the reference-cycle
 * detector: an explicit frame stack, discovery numbers, low-links, on-stack flags and
 * a component stack (src/index.cpp:579-644).
 */
module Tarjan {
  import opened Ordering
  import opened Reachability

  datatype Frame = Frame(node: nat, cursor: nat)

  /** The whole state of the search between two iterations of its inner loop. */
  datatype Search = Search(
    index: seq<int>,
    low: seq<int>,
    onStack: seq<bool>,
    stack: seq<nat>,
    frames: seq<Frame>,
    components: seq<seq<nat>>,
    next: nat)
  {
    predicate Visited(v: int) { 0 <= v < |index| && index[v] >= 0 }

    predicate On(v: int) { 0 <= v < |onStack| && onStack[v] }

    predicate Done(v: int) { Visited(v) && !On(v) }

    ghost predicate InFrames(v: int) { exists k :: 0 <= k < |frames| && frames[k].node == v }

    /** Node v was discovered while frame k, and no deeper frame, was open. */
    ghost predicate Owned(k: int, v: int)
      requires 0 <= k < |frames| && frames[k].node < |index| && 0 <= v < |index|
      requires k + 1 < |frames| ==> frames[k + 1].node < |index|
    {
      index[frames[k].node] <= index[v] && (k + 1 < |frames| ==> index[v] < index[frames[k + 1].node])
    }
  }

  function AdvanceTop(frames: seq<Frame>): (r: seq<Frame>)
    requires |frames| > 0
  {
    var top := frames[|frames| - 1];
    frames[|frames| - 1 := Frame(top.node, top.cursor + 1)]
  }

  // ----- the four moves of the search ---------------------------------------

  /** Discover w: as a root when no frame is open, else along the top frame's current edge. */
  ghost function Enter(s: Search, w: nat): Search
    requires w < |s.index| && w < |s.low| && w < |s.onStack|
  {
    s.(index := s.index[w := s.next], low := s.low[w := s.next], onStack := s.onStack[w := true],
       stack := s.stack + [w],
       frames := (if |s.frames| > 0 then AdvanceTop(s.frames) else []) + [Frame(w, 0)],
       next := s.next + 1)
  }

  /** Look at an edge to an already discovered node. */
  ghost function Relax(s: Search, u: nat, w: nat): Search
    requires |s.frames| > 0 && u < |s.low| && w < |s.index|
  {
    s.(frames := AdvanceTop(s.frames), low := if s.On(w) then s.low[u := Min(s.low[u], s.index[w])] else s.low)
  }

  /** Close the finished top frame and hand its low-link to its parent. */
  ghost function Retreat(s: Search): Search
    requires |s.frames| > 0
  {
    var m := |s.frames| - 1;
    s.(frames := s.frames[..m],
       low := if m == 0 || s.frames[m - 1].node >= |s.low| || s.frames[m].node >= |s.low| then s.low
              else s.low[s.frames[m - 1].node := Min(s.low[s.frames[m - 1].node], s.low[s.frames[m].node])])
  }

  /** Pop the component that starts at stack position pos, then close the frame. */
  ghost function Close(s: Search, pos: nat): Search
    requires pos <= |s.stack|
    requires |s.frames| > 0
  {
    Retreat(s.(stack := s.stack[..pos], onStack := Cleared(s.onStack, s.stack[pos..]),
               components := s.components + [Reversed(s.stack[pos..])]))
  }

  ghost function Cleared(flags: seq<bool>, nodes: seq<nat>): (r: seq<bool>) {
    seq(|flags|, v requires 0 <= v < |flags| => flags[v] && v !in nodes)
  }

  ghost function Reversed<T>(s: seq<T>): (r: seq<T>) {
    seq(|s|, i requires 0 <= i < |s| => s[|s| - 1 - i])
  }

  // ----- the invariant ------------------------------------------------------
  // Each clause is stated on its own and preserved by its own lemmas; `reach` is the
  // reachability relation of g.

  ghost predicate Shape(g: seq<seq<nat>>, s: Search) {
    && |s.index| == |s.low| == |s.onStack| == |g|
    && (forall v :: 0 <= v < |g| ==> -1 <= s.index[v] < s.next)
    && (forall v :: s.On(v) ==> s.Visited(v))
  }

  /** Discovery numbers are distinct. */
  ghost predicate Numbered(g: seq<seq<nat>>, s: Search)
    requires Shape(g, s)
  {
    forall u, v :: s.Visited(u) && s.Visited(v) && s.index[u] == s.index[v] ==> u == v
  }

  /** The stack lists the flagged nodes in discovery order. */
  ghost predicate StackOk(g: seq<seq<nat>>, s: Search)
    requires Shape(g, s)
  {
    && (forall i :: 0 <= i < |s.stack| ==> s.On(s.stack[i]))
    && (forall i, j :: 0 <= i < j < |s.stack| ==> s.index[s.stack[i]] < s.index[s.stack[j]])
    && (forall v :: s.On(v) ==> v in s.stack)
  }

  /** The open frames hold stacked nodes in discovery order. */
  ghost predicate FramesOk(g: seq<seq<nat>>, s: Search)
    requires Shape(g, s)
  {
    && (forall k :: 0 <= k < |s.frames| ==> s.On(s.frames[k].node) && s.frames[k].cursor <= |g[s.frames[k].node]|)
    && (forall j, k :: 0 <= j < k < |s.frames| ==> s.index[s.frames[j].node] < s.index[s.frames[k].node])
  }

  ghost predicate Base(g: seq<seq<nat>>, s: Search) {
    WellFormed(g) && Shape(g, s) && FramesOk(g, s)
  }

  /** Every edge already looked at leads to a discovered node. */
  ghost predicate Explored(g: seq<seq<nat>>, s: Search)
    requires Base(g, s)
  {
    && (forall v, j :: s.Visited(v) && !s.InFrames(v) && 0 <= j < |g[v]| ==> s.Visited(g[v][j]))
    && (forall k, j :: 0 <= k < |s.frames| && 0 <= j < s.frames[k].cursor ==> s.Visited(g[s.frames[k].node][j]))
  }

  /** No edge leaves the nodes whose component is finished. */
  ghost predicate DoneClosed(g: seq<seq<nat>>, s: Search)
    requires Shape(g, s)
  {
    forall v, j :: s.Done(v) && 0 <= j < |g[v]| ==> s.Done(g[v][j])
  }

  /** Every open frame reaches every stacked node discovered after it. */
  ghost predicate ReachDown(g: seq<seq<nat>>, reach: set<(nat, nat)>, s: Search)
    requires Base(g, s)
  {
    forall k, v: nat :: 0 <= k < |s.frames| && s.On(v) && s.index[s.frames[k].node] <= s.index[v]
      ==> (s.frames[k].node, v) in reach
  }

  /** v reaches an open frame discovered no later than v. */
  ghost predicate ReachesFrame(g: seq<seq<nat>>, reach: set<(nat, nat)>, s: Search, v: nat)
    requires Base(g, s)
  {
    exists k :: 0 <= k < |s.frames| && v < |g| && s.index[s.frames[k].node] <= s.index[v] && (v, s.frames[k].node) in reach
  }

  ghost predicate ReachUp(g: seq<seq<nat>>, reach: set<(nat, nat)>, s: Search)
    requires Base(g, s)
  {
    forall v: nat :: s.On(v) ==> ReachesFrame(g, reach, s, v)
  }

  /** The low-link of u is the number of a stacked node that u reaches. */
  ghost predicate LowWitness(g: seq<seq<nat>>, reach: set<(nat, nat)>, s: Search, u: nat)
    requires Shape(g, s) && u < |g|
  {
    exists w: nat :: s.On(w) && s.index[w] == s.low[u] && (u, w) in reach
  }

  ghost predicate LowSound(g: seq<seq<nat>>, reach: set<(nat, nat)>, s: Search)
    requires Base(g, s)
  {
    forall k :: 0 <= k < |s.frames| ==>
      s.low[s.frames[k].node] <= s.index[s.frames[k].node] && LowWitness(g, reach, s, s.frames[k].node)
  }

  /** Edge j of v has been looked at, when v was discovered under frame k. */
  ghost predicate LookedAt(g: seq<seq<nat>>, s: Search, k: int, v: int, j: int)
    requires Base(g, s) && 0 <= k < |s.frames|
  {
    s.On(v) && s.Owned(k, v) && 0 <= j < |g[v]| && (v == s.frames[k].node ==> j < s.frames[k].cursor)
  }

  /** The low-link of a frame bounds from below the number of every stacked target looked at under it. */
  ghost predicate LowBound(g: seq<seq<nat>>, s: Search)
    requires Base(g, s)
  {
    forall k, v, j :: 0 <= k < |s.frames| && LookedAt(g, s, k, v, j) && s.On(g[v][j])
      ==> s.low[s.frames[k].node] <= s.index[g[v][j]]
  }

  /** c is a non-empty duplicate-free list of exactly the nodes mutually reachable with any of its members. */
  ghost predicate IsComponent(g: seq<seq<nat>>, reach: set<(nat, nat)>, c: seq<nat>) {
    && |c| > 0
    && (forall i :: 0 <= i < |c| ==> c[i] < |g|)
    && (forall i, j :: 0 <= i < j < |c| ==> c[i] != c[j])
    && (forall u, v: nat :: u in c && v < |g| ==> (v in c <==> (u, v) in reach && (v, u) in reach))
  }

  ghost predicate ComponentsOk(g: seq<seq<nat>>, reach: set<(nat, nat)>, s: Search)
    requires Shape(g, s)
  {
    && (forall i :: 0 <= i < |s.components| ==> IsComponent(g, reach, s.components[i]))
    && (forall i, v :: 0 <= i < |s.components| && v in s.components[i] ==> s.Done(v))
    && (forall v: nat :: s.Done(v) ==> InSome(s.components, v))
    && (forall i, j, v :: 0 <= i < j < |s.components| && v in s.components[i] ==> v !in s.components[j])
  }

  ghost predicate InSome(components: seq<seq<nat>>, v: nat) {
    exists i :: 0 <= i < |components| && v in components[i]
  }

  ghost predicate Inv(g: seq<seq<nat>>, reach: set<(nat, nat)>, s: Search) {
    && Base(g, s)
    && Numbered(g, s)
    && StackOk(g, s)
    && Explored(g, s)
    && DoneClosed(g, s)
    && ReachDown(g, reach, s)
    && ReachUp(g, reach, s)
    && LowSound(g, reach, s)
    && LowBound(g, s)
    && ComponentsOk(g, reach, s)
  }

  lemma FrameOf(g: seq<seq<nat>>, reach: set<(nat, nat)>, s: Search, v: nat) returns (k: nat)
    requires Base(g, s) && ReachesFrame(g, reach, s, v)
    ensures k < |s.frames| && v < |g| && s.index[s.frames[k].node] <= s.index[v] && (v, s.frames[k].node) in reach
  {
    k :| 0 <= k < |s.frames| && s.index[s.frames[k].node] <= s.index[v] && (v, s.frames[k].node) in reach;
  }

  lemma HasFrame(g: seq<seq<nat>>, reach: set<(nat, nat)>, s: Search, v: nat, k: nat)
    requires Base(g, s) && k < |s.frames| && v < |g|
    requires s.index[s.frames[k].node] <= s.index[v] && (v, s.frames[k].node) in reach
    ensures ReachesFrame(g, reach, s, v)
  {
  }

  lemma WitnessOf(g: seq<seq<nat>>, reach: set<(nat, nat)>, s: Search, u: nat) returns (w: nat)
    requires Shape(g, s) && u < |g| && LowWitness(g, reach, s, u)
    ensures s.On(w) && s.index[w] == s.low[u] && (u, w) in reach
  {
    w :| s.On(w) && s.index[w] == s.low[u] && (u, w) in reach;
  }

  // ----- discovering a node -------------------------------------------------

  ghost predicate CanEnter(g: seq<seq<nat>>, s: Search, w: nat) {
    && Base(g, s)
    && w < |g| && s.index[w] == -1
    && (|s.frames| > 0 ==>
          var top := s.frames[|s.frames| - 1];
          top.cursor < |g[top.node]| && g[top.node][top.cursor] == w)
  }

  lemma EnterFrames(g: seq<seq<nat>>, s: Search, w: nat)
    requires CanEnter(g, s, w)
    ensures var t := Enter(s, w); Shape(g, t)
    ensures var t := Enter(s, w);
      && |t.frames| == |s.frames| + 1
      && t.frames[|s.frames|] == Frame(w, 0)
      && (forall k :: 0 <= k < |s.frames| ==> t.frames[k].node == s.frames[k].node)
      && (forall k :: 0 <= k < |s.frames| - 1 ==> t.frames[k] == s.frames[k])
      && (|s.frames| > 0 ==> t.frames[|s.frames| - 1].cursor == s.frames[|s.frames| - 1].cursor + 1)
  {
    var t := Enter(s, w);
    forall v | t.On(v)
      ensures t.Visited(v)
    {
      if v != w { assert s.On(v); }
    }
  }

  lemma EnterBase(g: seq<seq<nat>>, s: Search, w: nat)
    requires CanEnter(g, s, w)
    ensures Base(g, Enter(s, w))
  {
    EnterFrames(g, s, w);
    var t := Enter(s, w);
    assert !s.On(w);
    forall k | 0 <= k < |t.frames|
      ensures t.On(t.frames[k].node) && t.frames[k].cursor <= |g[t.frames[k].node]|
    {
      if k < |s.frames| { assert s.On(s.frames[k].node); }
    }
  }

  lemma EnterNumbers(g: seq<seq<nat>>, s: Search, w: nat)
    requires CanEnter(g, s, w) && Numbered(g, s)
    ensures Shape(g, Enter(s, w)) && Numbered(g, Enter(s, w))
  {
    EnterFrames(g, s, w);
    var t := Enter(s, w);
    forall u, v | t.Visited(u) && t.Visited(v) && t.index[u] == t.index[v]
      ensures u == v
    {
      assert u == w || s.Visited(u);
      assert v == w || s.Visited(v);
    }
  }

  lemma EnterStack(g: seq<seq<nat>>, s: Search, w: nat)
    requires Shape(g, s) && StackOk(g, s) && w < |g| && s.index[w] == -1 && Shape(g, Enter(s, w))
    ensures StackOk(g, Enter(s, w))
  {
    var t := Enter(s, w);
    assert t.stack == s.stack + [w];
    forall i | 0 <= i < |t.stack|
      ensures t.On(t.stack[i])
    {
      assert i < |s.stack| ==> s.On(s.stack[i]);
    }
    forall i, j | 0 <= i < j < |t.stack|
      ensures t.index[t.stack[i]] < t.index[t.stack[j]]
    {
      assert s.On(s.stack[i]) && s.stack[i] != w;
      assert j < |s.stack| ==> s.On(s.stack[j]) && s.stack[j] != w;
    }
  }

  lemma EnterExplored(g: seq<seq<nat>>, s: Search, w: nat)
    requires CanEnter(g, s, w) && Explored(g, s)
    ensures Base(g, Enter(s, w)) && Explored(g, Enter(s, w))
  {
    EnterFrames(g, s, w);
    EnterBase(g, s, w);
    var t := Enter(s, w);
    forall v, j | t.Visited(v) && !t.InFrames(v) && 0 <= j < |g[v]|
      ensures t.Visited(g[v][j])
    {
      assert t.frames[|s.frames|].node == w;
      assert !s.InFrames(v);
      assert s.Visited(g[v][j]);
    }
  }

  lemma EnterDone(g: seq<seq<nat>>, reach: set<(nat, nat)>, s: Search, w: nat)
    requires CanEnter(g, s, w) && DoneClosed(g, s) && ComponentsOk(g, reach, s)
    ensures Shape(g, Enter(s, w)) && DoneClosed(g, Enter(s, w)) && ComponentsOk(g, reach, Enter(s, w))
  {
    EnterFrames(g, s, w);
    var t := Enter(s, w);
    assert forall v :: t.Done(v) <==> s.Done(v);
  }

  lemma EnterReachDown(g: seq<seq<nat>>, reach: set<(nat, nat)>, s: Search, w: nat)
    requires CanEnter(g, s, w) && IsClosure(g, reach) && ReachDown(g, reach, s)
    ensures Base(g, Enter(s, w)) && ReachDown(g, reach, Enter(s, w))
  {
    EnterFrames(g, s, w);
    EnterBase(g, s, w);
    var t := Enter(s, w);
    var m := |s.frames|;
    forall k, v: nat | 0 <= k < m + 1 && t.On(v) && t.index[t.frames[k].node] <= t.index[v]
      ensures (t.frames[k].node, v) in reach
    {
      if k == m {
        assert v == w;
      } else if v == w {
        var top := s.frames[m - 1];
        assert (s.frames[k].node, top.node) in reach;
        assert (top.node, g[top.node][top.cursor]) in reach;
      } else {
        assert s.On(v);
      }
    }
  }

  lemma EnterReachesFrame(g: seq<seq<nat>>, reach: set<(nat, nat)>, s: Search, w: nat, v: nat)
    requires CanEnter(g, s, w) && Base(g, Enter(s, w)) && v < |g| && v != w
    requires ReachesFrame(g, reach, s, v)
    ensures ReachesFrame(g, reach, Enter(s, w), v)
  {
    EnterFrames(g, s, w);
    var k :| 0 <= k < |s.frames| && s.index[s.frames[k].node] <= s.index[v] && (v, s.frames[k].node) in reach;
    assert Enter(s, w).frames[k].node == s.frames[k].node;
  }

  lemma EnterReachUp(g: seq<seq<nat>>, reach: set<(nat, nat)>, s: Search, w: nat)
    requires CanEnter(g, s, w) && (w, w) in reach && ReachUp(g, reach, s)
    ensures Base(g, Enter(s, w)) && ReachUp(g, reach, Enter(s, w))
  {
    EnterFrames(g, s, w);
    EnterBase(g, s, w);
    var t := Enter(s, w);
    forall v: nat | t.On(v)
      ensures ReachesFrame(g, reach, t, v)
    {
      if v == w {
        assert t.frames[|s.frames|].node == w;
      } else {
        hide ReachesFrame;
        assert s.On(v);
        EnterReachesFrame(g, reach, s, w, v);
      }
    }
  }

  lemma EnterLowSound(g: seq<seq<nat>>, reach: set<(nat, nat)>, s: Search, w: nat)
    requires CanEnter(g, s, w) && (w, w) in reach && LowSound(g, reach, s)
    ensures Base(g, Enter(s, w)) && LowSound(g, reach, Enter(s, w))
  {
    EnterFrames(g, s, w);
    EnterBase(g, s, w);
    var t := Enter(s, w);
    forall k | 0 <= k < |t.frames|
      ensures t.low[t.frames[k].node] <= t.index[t.frames[k].node] && LowWitness(g, reach, t, t.frames[k].node)
    {
      if k == |s.frames| {
        assert t.On(w) && t.index[w] == t.low[w];
      } else {
        var u := s.frames[k].node;
        assert LowWitness(g, reach, s, u);
        var x: nat :| s.On(x) && s.index[x] == s.low[u] && (u, x) in reach;
        assert t.On(x) && t.index[x] == t.low[u];
      }
    }
  }

  lemma EnterLowBound(g: seq<seq<nat>>, reach: set<(nat, nat)>, s: Search, w: nat)
    requires CanEnter(g, s, w) && Explored(g, s) && LowBound(g, s) && LowSound(g, reach, s)
    ensures Base(g, Enter(s, w)) && LowBound(g, Enter(s, w))
  {
    hide LowWitness, WellFormed, Explored;
    EnterFrames(g, s, w);
    EnterBase(g, s, w);
    var t := Enter(s, w);
    forall k, v, j | 0 <= k < |t.frames| && LookedAt(g, t, k, v, j) && t.On(g[v][j])
      ensures t.low[t.frames[k].node] <= t.index[g[v][j]]
    {
      EnterLookedAt(g, s, w, k, v, j);
    }
  }

  /** The node just entered has no edge looked at, and what is left was looked at before. */
  lemma EnterLookedAt(g: seq<seq<nat>>, s: Search, w: nat, k: int, v: int, j: int)
    requires CanEnter(g, s, w) && Base(g, Enter(s, w))
    requires 0 <= k < |Enter(s, w).frames| && LookedAt(g, Enter(s, w), k, v, j) && Enter(s, w).On(g[v][j])
    ensures k < |s.frames| && v != w
    ensures g[v][j] != w ==> LookedAt(g, s, k, v, j) && s.On(g[v][j])
  {
    hide WellFormed;
    EnterFrames(g, s, w);
  }

  lemma EnterKeepsInv(g: seq<seq<nat>>, reach: set<(nat, nat)>, s: Search, w: nat)
    requires IsClosure(g, reach) && Inv(g, reach, s) && CanEnter(g, s, w)
    ensures Inv(g, reach, Enter(s, w))
  {
    hide Explored, LowBound, ReachDown, ReachUp, LowSound, ComponentsOk, StackOk, Numbered, DoneClosed;
    EnterBase(g, s, w);
    EnterNumbers(g, s, w);
    EnterStack(g, s, w);
    EnterExplored(g, s, w);
    EnterDone(g, reach, s, w);
    EnterReachDown(g, reach, s, w);
    EnterReachUp(g, reach, s, w);
    EnterLowSound(g, reach, s, w);
    EnterLowBound(g, reach, s, w);
  }

  // ----- looking at an edge to a discovered node ----------------------------

  ghost predicate CanRelax(g: seq<seq<nat>>, s: Search, u: nat, w: nat) {
    && Base(g, s)
    && |s.frames| > 0
    && var top := s.frames[|s.frames| - 1];
    && top.node == u && top.cursor < |g[u]| && g[u][top.cursor] == w && s.Visited(w)
  }

  lemma RelaxFrames(g: seq<seq<nat>>, s: Search, u: nat, w: nat)
    requires CanRelax(g, s, u, w)
    ensures var t := Relax(s, u, w); var m := |s.frames| - 1;
      && |t.frames| == m + 1
      && t.frames[m] == Frame(u, s.frames[m].cursor + 1)
      && (forall k :: 0 <= k < m ==> t.frames[k] == s.frames[k])
      && (forall k :: 0 <= k <= m ==> t.frames[k].node == s.frames[k].node)
      && (forall k :: 0 <= k < m ==> s.frames[k].node != u && t.low[t.frames[k].node] == s.low[s.frames[k].node])
      && t.low[u] == (if s.On(w) then Min(s.low[u], s.index[w]) else s.low[u])
      && Base(g, t)
  {
    var t := Relax(s, u, w);
    var m := |s.frames| - 1;
    forall k | 0 <= k < m
      ensures s.frames[k].node != u
    {
      assert s.index[s.frames[k].node] < s.index[s.frames[m].node];
    }
    forall v | t.On(v)
      ensures t.Visited(v)
    {
      assert s.On(v);
    }
    forall k | 0 <= k < |t.frames|
      ensures t.On(t.frames[k].node) && t.frames[k].cursor <= |g[t.frames[k].node]|
    {
      assert s.On(s.frames[k].node);
    }
  }

  lemma RelaxExplored(g: seq<seq<nat>>, s: Search, u: nat, w: nat)
    requires CanRelax(g, s, u, w) && Explored(g, s)
    ensures Base(g, Relax(s, u, w)) && Explored(g, Relax(s, u, w))
  {
    RelaxFrames(g, s, u, w);
    var t := Relax(s, u, w);
    forall v, j | t.Visited(v) && !t.InFrames(v) && 0 <= j < |g[v]|
      ensures t.Visited(g[v][j])
    {
      assert !s.InFrames(v);
      assert s.Visited(g[v][j]);
    }
  }

  lemma RelaxSame(g: seq<seq<nat>>, reach: set<(nat, nat)>, s: Search, u: nat, w: nat)
    requires CanRelax(g, s, u, w) && Numbered(g, s) && StackOk(g, s) && DoneClosed(g, s) && ComponentsOk(g, reach, s)
    ensures var t := Relax(s, u, w);
      Shape(g, t) && Numbered(g, t) && StackOk(g, t) && DoneClosed(g, t) && ComponentsOk(g, reach, t)
  {
    RelaxFrames(g, s, u, w);
    hide IsComponent, InSome;
    var t := Relax(s, u, w);
    assert forall v :: t.On(v) <==> s.On(v);
    assert forall v :: t.Visited(v) <==> s.Visited(v);
    assert forall v :: t.Done(v) <==> s.Done(v);
  }

  lemma RelaxReachDown(g: seq<seq<nat>>, reach: set<(nat, nat)>, s: Search, u: nat, w: nat)
    requires CanRelax(g, s, u, w) && ReachDown(g, reach, s)
    ensures var t := Relax(s, u, w); Base(g, t) && ReachDown(g, reach, t)
  {
    RelaxFrames(g, s, u, w);
    var t := Relax(s, u, w);
    assert forall v :: t.On(v) <==> s.On(v);
  }

  lemma RelaxReachUp(g: seq<seq<nat>>, reach: set<(nat, nat)>, s: Search, u: nat, w: nat)
    requires CanRelax(g, s, u, w) && ReachUp(g, reach, s)
    ensures var t := Relax(s, u, w); Base(g, t) && ReachUp(g, reach, t)
  {
    hide ReachesFrame;
    RelaxFrames(g, s, u, w);
    var t := Relax(s, u, w);
    forall v: nat | t.On(v)
      ensures ReachesFrame(g, reach, t, v)
    {
      assert s.On(v);
      var k := FrameOf(g, reach, s, v);
      HasFrame(g, reach, t, v, k);
    }
  }

  lemma RelaxLowSound(g: seq<seq<nat>>, reach: set<(nat, nat)>, s: Search, u: nat, w: nat)
    requires CanRelax(g, s, u, w) && LowSound(g, reach, s) && (u, w) in reach
    ensures Base(g, Relax(s, u, w)) && LowSound(g, reach, Relax(s, u, w))
  {
    RelaxFrames(g, s, u, w);
    var t := Relax(s, u, w);
    forall k | 0 <= k < |t.frames|
      ensures t.low[t.frames[k].node] <= t.index[t.frames[k].node] && LowWitness(g, reach, t, t.frames[k].node)
    {
      var x := s.frames[k].node;
      assert LowWitness(g, reach, s, x);
      var y: nat :| s.On(y) && s.index[y] == s.low[x] && (x, y) in reach;
      assert t.On(y);
      if t.low[x] != s.low[x] {
        assert x == u && t.On(w) && t.index[w] == t.low[x];
      }
    }
  }

  lemma RelaxLowBound(g: seq<seq<nat>>, s: Search, u: nat, w: nat)
    requires CanRelax(g, s, u, w) && LowBound(g, s)
    ensures Base(g, Relax(s, u, w)) && LowBound(g, Relax(s, u, w))
  {
    RelaxFrames(g, s, u, w);
    var t := Relax(s, u, w);
    forall k, v, j | 0 <= k < |t.frames| && LookedAt(g, t, k, v, j) && t.On(g[v][j])
      ensures t.low[t.frames[k].node] <= t.index[g[v][j]]
    {
      assert s.On(v) && s.On(g[v][j]) && s.Owned(k, v);
      if v == s.frames[k].node && j == s.frames[k].cursor {
        assert k == |s.frames| - 1 && g[v][j] == w;
      } else {
        assert LookedAt(g, s, k, v, j);
      }
    }
  }

  lemma RelaxKeepsInv(g: seq<seq<nat>>, reach: set<(nat, nat)>, s: Search, u: nat, w: nat)
    requires Inv(g, reach, s) && CanRelax(g, s, u, w) && (u, w) in reach
    ensures Inv(g, reach, Relax(s, u, w))
  {
    hide Explored, LowBound, ReachDown, ReachUp, LowSound, ComponentsOk, StackOk, Numbered, DoneClosed;
    RelaxFrames(g, s, u, w);
    RelaxExplored(g, s, u, w);
    RelaxSame(g, reach, s, u, w);
    RelaxReachDown(g, reach, s, u, w);
    RelaxReachUp(g, reach, s, u, w);
    RelaxLowSound(g, reach, s, u, w);
    RelaxLowBound(g, s, u, w);
  }

  // ----- closing a frame whose node is not the root of a component ----------

  /** The top frame has looked at all its edges. */
  ghost predicate TopFinished(g: seq<seq<nat>>, s: Search) {
    && Base(g, s)
    && |s.frames| > 0
    && s.frames[|s.frames| - 1].cursor == |g[s.frames[|s.frames| - 1].node]|
  }

  /** The top frame's node is the first-discovered node of its component. */
  ghost predicate TopIsRoot(g: seq<seq<nat>>, s: Search)
    requires Base(g, s) && |s.frames| > 0
  {
    s.low[s.frames[|s.frames| - 1].node] == s.index[s.frames[|s.frames| - 1].node]
  }

  lemma RetreatFrames(g: seq<seq<nat>>, s: Search)
    requires Base(g, s) && |s.frames| > 0
    ensures var t := Retreat(s); var m := |s.frames| - 1; var u := s.frames[m].node;
      && t.frames == s.frames[..m]
      && (forall k :: 0 <= k < m - 1 ==> t.low[s.frames[k].node] == s.low[s.frames[k].node])
      && (m > 0 ==> t.low[s.frames[m - 1].node] == Min(s.low[s.frames[m - 1].node], s.low[u]))
      && Base(g, t)
  {
    var t := Retreat(s);
    var m := |s.frames| - 1;
    forall k | 0 <= k < m - 1
      ensures s.frames[k].node != s.frames[m - 1].node
    {
      assert s.index[s.frames[k].node] < s.index[s.frames[m - 1].node];
    }
    forall v | t.On(v)
      ensures t.Visited(v)
    {
      assert s.On(v);
    }
    forall k | 0 <= k < |t.frames|
      ensures t.On(t.frames[k].node) && t.frames[k].cursor <= |g[t.frames[k].node]|
    {
      assert s.On(s.frames[k].node);
    }
  }

  lemma RetreatExplored(g: seq<seq<nat>>, s: Search)
    requires TopFinished(g, s) && Explored(g, s)
    ensures Base(g, Retreat(s)) && Explored(g, Retreat(s))
  {
    RetreatFrames(g, s);
    var t := Retreat(s);
    var m := |s.frames| - 1;
    forall v, j | t.Visited(v) && !t.InFrames(v) && 0 <= j < |g[v]|
      ensures t.Visited(g[v][j])
    {
      if v == s.frames[m].node {
        assert s.Visited(g[s.frames[m].node][j]);
      } else {
        assert forall k :: 0 <= k < m ==> t.frames[k].node == s.frames[k].node;
        assert !s.InFrames(v);
        assert s.Visited(g[v][j]);
      }
    }
  }

  lemma RetreatSame(g: seq<seq<nat>>, reach: set<(nat, nat)>, s: Search)
    requires TopFinished(g, s) && Numbered(g, s) && StackOk(g, s) && DoneClosed(g, s) && ComponentsOk(g, reach, s)
    ensures var t := Retreat(s);
      Shape(g, t) && Numbered(g, t) && StackOk(g, t) && DoneClosed(g, t) && ComponentsOk(g, reach, t)
  {
    hide IsComponent, InSome;
    RetreatFrames(g, s);
    var t := Retreat(s);
    assert forall v :: t.On(v) <==> s.On(v);
    assert forall v :: t.Visited(v) <==> s.Visited(v);
    assert forall v :: t.Done(v) <==> s.Done(v);
  }

  /** A frame whose low-link lies below its own number reaches a frame further down. */
  lemma RetreatTarget(g: seq<seq<nat>>, reach: set<(nat, nat)>, s: Search) returns (k: nat)
    requires TopFinished(g, s) && !TopIsRoot(g, s)
    requires IsClosure(g, reach) && ReachUp(g, reach, s) && LowSound(g, reach, s)
    ensures k < |s.frames| - 1 && (s.frames[|s.frames| - 1].node, s.frames[k].node) in reach
  {
    hide LowWitness, ReachesFrame, WellFormed;
    var u := s.frames[|s.frames| - 1].node;
    var y := WitnessOf(g, reach, s, u);
    k := FrameOf(g, reach, s, y);
  }

  lemma RetreatReachDown(g: seq<seq<nat>>, reach: set<(nat, nat)>, s: Search)
    requires TopFinished(g, s) && ReachDown(g, reach, s)
    ensures Base(g, Retreat(s)) && ReachDown(g, reach, Retreat(s))
  {
    RetreatFrames(g, s);
    assert forall v :: Retreat(s).On(v) <==> s.On(v);
  }

  lemma RetreatReachesFrame(g: seq<seq<nat>>, reach: set<(nat, nat)>, s: Search, low: nat, v: nat)
    requires TopFinished(g, s) && IsClosure(g, reach) && s.On(v) && ReachesFrame(g, reach, s, v)
    requires low < |s.frames| - 1 && (s.frames[|s.frames| - 1].node, s.frames[low].node) in reach
    ensures Base(g, Retreat(s)) && ReachesFrame(g, reach, Retreat(s), v)
  {
    hide ReachesFrame, WellFormed;
    RetreatFrames(g, s);
    var t := Retreat(s);
    var m := |s.frames| - 1;
    var k := FrameOf(g, reach, s, v);
    if k < m {
      HasFrame(g, reach, t, v, k);
    } else {
      assert s.index[s.frames[low].node] < s.index[s.frames[m].node];
      HasFrame(g, reach, t, v, low);
    }
  }

  lemma RetreatReachUp(g: seq<seq<nat>>, reach: set<(nat, nat)>, s: Search, low: nat)
    requires TopFinished(g, s) && IsClosure(g, reach) && ReachUp(g, reach, s)
    requires low < |s.frames| - 1 && (s.frames[|s.frames| - 1].node, s.frames[low].node) in reach
    ensures Base(g, Retreat(s)) && ReachUp(g, reach, Retreat(s))
  {
    RetreatFrames(g, s);
    hide ReachesFrame, WellFormed, IsClosure, FramesOk;
    forall v: nat | Retreat(s).On(v)
      ensures ReachesFrame(g, reach, Retreat(s), v)
    {
      assert s.On(v);
      RetreatReachesFrame(g, reach, s, low, v);
    }
  }

  lemma RetreatLowSound(g: seq<seq<nat>>, reach: set<(nat, nat)>, s: Search)
    requires TopFinished(g, s) && IsClosure(g, reach) && ReachDown(g, reach, s) && LowSound(g, reach, s)
    ensures Base(g, Retreat(s)) && LowSound(g, reach, Retreat(s))
  {
    RetreatFrames(g, s);
    var t := Retreat(s);
    var m := |s.frames| - 1;
    var u := s.frames[m].node;
    forall k | 0 <= k < |t.frames|
      ensures t.low[t.frames[k].node] <= t.index[t.frames[k].node] && LowWitness(g, reach, t, t.frames[k].node)
    {
      var x := s.frames[k].node;
      assert LowWitness(g, reach, s, x);
      var y: nat :| s.On(y) && s.index[y] == s.low[x] && (x, y) in reach;
      assert t.On(y);
      if t.low[x] != s.low[x] {
        assert LowWitness(g, reach, s, u);
        var z: nat :| s.On(z) && s.index[z] == s.low[u] && (u, z) in reach;
        assert (x, u) in reach;
        assert t.On(z) && t.index[z] == t.low[x] && (x, z) in reach;
      }
    }
  }

  lemma RetreatLowBound(g: seq<seq<nat>>, s: Search)
    requires TopFinished(g, s) && LowBound(g, s)
    ensures Base(g, Retreat(s)) && LowBound(g, Retreat(s))
  {
    RetreatFrames(g, s);
    var t := Retreat(s);
    var m := |s.frames| - 1;
    forall k, v, j | 0 <= k < |t.frames| && LookedAt(g, t, k, v, j) && t.On(g[v][j])
      ensures t.low[t.frames[k].node] <= t.index[g[v][j]]
    {
      assert s.On(v) && s.On(g[v][j]);
      if k == m - 1 && s.index[s.frames[m].node] <= s.index[v] {
        assert LookedAt(g, s, m, v, j);
      } else {
        assert LookedAt(g, s, k, v, j);
      }
    }
  }

  lemma RetreatKeepsInv(g: seq<seq<nat>>, reach: set<(nat, nat)>, s: Search)
    requires TopFinished(g, s) && !TopIsRoot(g, s)
    requires IsClosure(g, reach) && Inv(g, reach, s)
    ensures Inv(g, reach, Retreat(s))
  {
    hide Explored, LowBound, ReachDown, ReachUp, LowSound, ComponentsOk, StackOk, Numbered, DoneClosed, IsClosure, Shape, FramesOk, WellFormed, Retreat;
    RetreatFrames(g, s);
    RetreatExplored(g, s);
    RetreatSame(g, reach, s);
    RetreatReachDown(g, reach, s);
    var low := RetreatTarget(g, reach, s);
    RetreatReachUp(g, reach, s, low);
    RetreatLowSound(g, reach, s);
    RetreatLowBound(g, s);
  }

  // ----- popping a finished component ---------------------------------------

  ghost predicate CanClose(g: seq<seq<nat>>, s: Search, pos: nat) {
    && TopFinished(g, s) && TopIsRoot(g, s)
    && StackOk(g, s) && Numbered(g, s)
    && pos < |s.stack| && s.stack[pos] == s.frames[|s.frames| - 1].node
  }

  lemma CloseFlags(g: seq<seq<nat>>, s: Search, pos: nat)
    requires CanClose(g, s, pos)
    ensures var t := Close(s, pos); var u := s.stack[pos];
      && t.index == s.index && |t.onStack| == |s.onStack|
      && (forall v :: v in s.stack[pos..] <==> s.On(v) && s.index[u] <= s.index[v])
      && (forall v :: t.On(v) <==> s.On(v) && s.index[v] < s.index[u])
      && (forall v :: t.Done(v) <==> s.Done(v) || (s.On(v) && s.index[u] <= s.index[v]))
  {
    hide FramesOk, WellFormed, Numbered;
    var t := Close(s, pos);
    var u := s.stack[pos];
    assert forall v :: v in s.stack[pos..] ==> s.On(v) && s.index[u] <= s.index[v];
    forall v | s.On(v) && s.index[u] <= s.index[v]
      ensures v in s.stack[pos..]
    {
      var i :| 0 <= i < |s.stack| && s.stack[i] == v;
      assert i >= pos;
      assert s.stack[pos..][i - pos] == v;
    }
  }

  lemma CloseFrames(g: seq<seq<nat>>, reach: set<(nat, nat)>, s: Search, pos: nat)
    requires CanClose(g, s, pos) && LowSound(g, reach, s)
    ensures var t := Close(s, pos); var m := |s.frames| - 1;
      && Base(g, t)
      && t.frames == s.frames[..m]
      && t.low == s.low
  {
    hide StackOk, LowWitness, Numbered, WellFormed;
    CloseFlags(g, s, pos);
    var t := Close(s, pos);
    var m := |s.frames| - 1;
    if m > 0 {
      assert s.index[s.frames[m - 1].node] < s.index[s.frames[m].node];
      assert t.low == s.low;
    }
    forall k | 0 <= k < m
      ensures t.On(t.frames[k].node)
    {
      assert s.index[s.frames[k].node] < s.index[s.frames[m].node];
    }
  }

  lemma CloseStack(g: seq<seq<nat>>, s: Search, pos: nat)
    requires CanClose(g, s, pos) && Base(g, Close(s, pos))
    ensures Numbered(g, Close(s, pos)) && StackOk(g, Close(s, pos))
  {
    hide FramesOk, WellFormed, TopIsRoot;
    CloseNumbers(g, s, pos);
    CloseFlags(g, s, pos);
    hide Numbered, Cleared;
    BelowStays(g, s, Close(s, pos), pos);
  }

  /** The stack below a component is in order, and holds what is still stacked. */
  lemma BelowStays(g: seq<seq<nat>>, s: Search, t: Search, pos: nat)
    requires Shape(g, s) && Shape(g, t) && StackOk(g, s) && pos < |s.stack|
    requires t.stack == s.stack[..pos] && t.index == s.index
    requires forall v :: v in s.stack[pos..] <==> s.On(v) && s.index[s.stack[pos]] <= s.index[v]
    requires forall v :: t.On(v) <==> s.On(v) && s.index[v] < s.index[s.stack[pos]]
    ensures StackOk(g, t)
  {
    forall v | t.On(v)
      ensures v in t.stack
    {
      assert v in s.stack && v !in s.stack[pos..];
      assert s.stack == s.stack[..pos] + s.stack[pos..];
    }
  }

  lemma CloseNumbers(g: seq<seq<nat>>, s: Search, pos: nat)
    requires pos <= |s.stack| && |s.frames| > 0 && Shape(g, s) && Shape(g, Close(s, pos)) && Numbered(g, s)
    ensures Numbered(g, Close(s, pos))
  {
    var t := Close(s, pos);
    assert t.index == s.index && t.next == s.next;
    assert forall v :: t.Visited(v) <==> s.Visited(v);
  }

  lemma CloseExplored(g: seq<seq<nat>>, s: Search, pos: nat)
    requires CanClose(g, s, pos) && Base(g, Close(s, pos)) && Explored(g, s)
    requires Close(s, pos).frames == s.frames[..|s.frames| - 1]
    ensures Explored(g, Close(s, pos))
  {
    hide StackOk, Numbered, FramesOk, TopIsRoot;
    var t := Close(s, pos);
    var m := |s.frames| - 1;
    forall v, j | t.Visited(v) && !t.InFrames(v) && 0 <= j < |g[v]|
      ensures t.Visited(g[v][j])
    {
      if v == s.frames[m].node {
        assert s.Visited(g[s.frames[m].node][j]);
      } else {
        assert forall k :: 0 <= k < m ==> t.frames[k].node == s.frames[k].node;
        assert !s.InFrames(v);
        assert s.Visited(g[v][j]);
      }
    }
  }

  /** The nodes discovered since the top frame's node lead only to each other and to finished nodes. */
  lemma SegmentClosed(g: seq<seq<nat>>, s: Search, v: nat, j: int)
    requires TopFinished(g, s) && TopIsRoot(g, s) && Explored(g, s) && LowBound(g, s) && Numbered(g, s)
    requires s.On(v) && s.index[s.frames[|s.frames| - 1].node] <= s.index[v] && 0 <= j < |g[v]|
    ensures s.Done(g[v][j]) || (s.On(g[v][j]) && s.index[s.frames[|s.frames| - 1].node] <= s.index[g[v][j]])
  {
    var m := |s.frames| - 1;
    var u := s.frames[m].node;
    if v == u {
      assert s.Visited(g[s.frames[m].node][j]);
    } else {
      assert !s.InFrames(v);
      assert s.Visited(g[v][j]);
    }
    if s.On(g[v][j]) {
      assert LookedAt(g, s, m, v, j);
    }
  }

  lemma CloseDone(g: seq<seq<nat>>, s: Search, pos: nat)
    requires CanClose(g, s, pos) && Base(g, Close(s, pos)) && Explored(g, s) && LowBound(g, s) && DoneClosed(g, s)
    ensures DoneClosed(g, Close(s, pos))
  {
    CloseFlags(g, s, pos);
    hide StackOk, FramesOk, LowBound, Explored;
    var t := Close(s, pos);
    forall v, j | t.Done(v) && 0 <= j < |g[v]|
      ensures t.Done(g[v][j])
    {
      if s.On(v) {
        SegmentClosed(g, s, v, j);
      }
    }
  }

  lemma CloseReachDown(g: seq<seq<nat>>, reach: set<(nat, nat)>, s: Search, pos: nat)
    requires CanClose(g, s, pos) && Base(g, Close(s, pos)) && ReachDown(g, reach, s)
    requires Close(s, pos).frames == s.frames[..|s.frames| - 1]
    ensures ReachDown(g, reach, Close(s, pos))
  {
    CloseFlags(g, s, pos);
    hide StackOk, FramesOk, WellFormed, Numbered;
    assert forall k :: 0 <= k < |s.frames| - 1 ==> Close(s, pos).frames[k] == s.frames[k];
  }

  lemma CloseReachUp(g: seq<seq<nat>>, reach: set<(nat, nat)>, s: Search, pos: nat)
    requires CanClose(g, s, pos) && Base(g, Close(s, pos)) && ReachUp(g, reach, s)
    requires Close(s, pos).frames == s.frames[..|s.frames| - 1]
    ensures ReachUp(g, reach, Close(s, pos))
  {
    hide StackOk, FramesOk, ReachesFrame, WellFormed, Numbered, TopIsRoot, Cleared;
    CloseFlags(g, s, pos);
    var t := Close(s, pos);
    forall v: nat | t.On(v)
      ensures ReachesFrame(g, reach, t, v)
    {
      assert s.On(v);
      var k := FrameOf(g, reach, s, v);
      assert k < |s.frames| - 1;
      HasFrame(g, reach, t, v, k);
    }
  }

  lemma CloseLowSound(g: seq<seq<nat>>, reach: set<(nat, nat)>, s: Search, pos: nat)
    requires CanClose(g, s, pos) && LowSound(g, reach, s)
    ensures Base(g, Close(s, pos)) && LowSound(g, reach, Close(s, pos))
  {
    CloseFlags(g, s, pos);
    CloseFrames(g, reach, s, pos);
    hide StackOk, WellFormed, Numbered;
    var t := Close(s, pos);
    var m := |s.frames| - 1;
    forall k | 0 <= k < m
      ensures t.low[t.frames[k].node] <= t.index[t.frames[k].node] && LowWitness(g, reach, t, t.frames[k].node)
    {
      var x := s.frames[k].node;
      var w := WitnessOf(g, reach, s, x);
      assert s.index[x] < s.index[s.frames[m].node];
      assert t.On(w);
    }
  }

  lemma CloseLowBound(g: seq<seq<nat>>, s: Search, pos: nat)
    requires CanClose(g, s, pos) && Base(g, Close(s, pos)) && LowBound(g, s)
    requires Close(s, pos).frames == s.frames[..|s.frames| - 1] && Close(s, pos).low == s.low
    ensures LowBound(g, Close(s, pos))
  {
    hide StackOk, WellFormed, Numbered, Cleared, TopIsRoot;
    CloseFlags(g, s, pos);
    var t := Close(s, pos);
    forall k, v, j | 0 <= k < |t.frames| && LookedAt(g, t, k, v, j) && t.On(g[v][j])
      ensures t.low[t.frames[k].node] <= t.index[g[v][j]]
    {
      assert t.frames[k] == s.frames[k];
      assert LookedAt(g, s, k, v, j);
    }
  }

  /** A node discovered since the component's root is mutually reachable with it. */
  lemma SegmentReach(g: seq<seq<nat>>, reach: set<(nat, nat)>, s: Search, v: nat)
    requires TopFinished(g, s) && ReachDown(g, reach, s) && ReachUp(g, reach, s)
    requires s.On(v) && s.index[s.frames[|s.frames| - 1].node] <= s.index[v]
    requires IsClosure(g, reach)
    ensures (s.frames[|s.frames| - 1].node, v) in reach && (v, s.frames[|s.frames| - 1].node) in reach
  {
    hide ReachesFrame, WellFormed, IsClosure;
    var m := |s.frames| - 1;
    var k := FrameOf(g, reach, s, v);
    assert k < m ==> s.index[s.frames[k].node] < s.index[s.frames[m].node];
    ClosureTrans(g, reach, v, s.frames[k].node, s.frames[m].node);
  }

  lemma ClosureTrans(g: seq<seq<nat>>, reach: set<(nat, nat)>, u: nat, v: nat, w: nat)
    requires IsClosure(g, reach) && (u, v) in reach && (v, w) in reach
    ensures (u, w) in reach
  {
  }

  /** Whatever a stacked node of the segment reaches, and is reached back from, lies in the segment. */
  lemma SegmentMaximal(g: seq<seq<nat>>, s: Search, pos: nat, v: nat, w: nat)
    requires CanClose(g, s, pos) && Explored(g, s) && LowBound(g, s) && DoneClosed(g, s)
    requires v in s.stack[pos..] && w < |g| && Mutual(EdgesOf(g), v, w)
    ensures w in s.stack[pos..]
  {
    CloseFlags(g, s, pos);
    var done := set x: nat | x < |g| && s.Done(x);
    var segment := set x: nat | x in s.stack[pos..];
    var rel := EdgesOf(g);
    hide Mutual, Reaches, LowBound, Explored, StackOk, FramesOk, Numbered;
    forall a, b | (a, b) in rel && a in done + segment
      ensures b in done + segment
    {
      var j :| 0 <= j < |g[a]| && g[a][j] == b;
      if a in segment {
        SegmentClosed(g, s, a, j);
      }
    }
    assert Reaches(rel, v, w) && Reaches(rel, w, v) by { UnfoldMutual(rel, v, w); }
    ReachesStaysInClosed(rel, done + segment, v, w);
    if w in done {
      forall a, b | (a, b) in rel && a in done
        ensures b in done
      {
        var j :| 0 <= j < |g[a]| && g[a][j] == b;
      }
      ReachesStaysInClosed(rel, done, w, v);
    }
  }

  lemma UnfoldMutual(rel: set<(nat, nat)>, v: nat, w: nat)
    requires Mutual(rel, v, w)
    ensures Reaches(rel, v, w) && Reaches(rel, w, v)
  {
  }

  lemma SegmentMutual(g: seq<seq<nat>>, reach: set<(nat, nat)>, s: Search, u: nat, v: nat)
    requires TopFinished(g, s) && ReachDown(g, reach, s) && ReachUp(g, reach, s)
    requires s.On(u) && s.index[s.frames[|s.frames| - 1].node] <= s.index[u]
    requires s.On(v) && s.index[s.frames[|s.frames| - 1].node] <= s.index[v]
    requires IsClosure(g, reach)
    ensures (u, v) in reach && (v, u) in reach
  {
    SegmentReach(g, reach, s, u);
    SegmentReach(g, reach, s, v);
    hide *;
    ClosureTrans(g, reach, u, s.frames[|s.frames| - 1].node, v);
    ClosureTrans(g, reach, v, s.frames[|s.frames| - 1].node, u);
  }

  lemma SegmentDistinct(g: seq<seq<nat>>, s: Search, pos: nat)
    requires Shape(g, s) && StackOk(g, s) && pos < |s.stack|
    ensures var c := Reversed(s.stack[pos..]);
      |c| > 0 && (forall i :: 0 <= i < |c| ==> c[i] < |g|) && forall i, j :: 0 <= i < j < |c| ==> c[i] != c[j]
  {
    var c := Reversed(s.stack[pos..]);
    assert forall i :: 0 <= i < |c| ==> c[i] == s.stack[|s.stack| - 1 - i] && s.On(c[i]);
  }

  lemma SegmentMember(g: seq<seq<nat>>, reach: set<(nat, nat)>, s: Search, pos: nat, u: nat, v: nat)
    requires CanClose(g, s, pos) && reach == ReachSet(g) && IsClosure(g, reach)
    requires Explored(g, s) && LowBound(g, s) && DoneClosed(g, s) && ReachDown(g, reach, s) && ReachUp(g, reach, s)
    requires u in s.stack[pos..] && v < |g|
    ensures v in s.stack[pos..] <==> (u, v) in reach && (v, u) in reach
  {
    hide LowBound, Explored, FramesOk, Mutual, Reaches, ReachSet, IsClosure, DoneClosed, ReachDown, ReachUp,
      ReachesFrame, WellFormed, Numbered, StackOk, Shape, TopIsRoot, Close, Cleared, TopFinished;
    CloseFlags(g, s, pos);
    if v in s.stack[pos..] {
      SegmentMutual(g, reach, s, u, v);
    } else if (u, v) in reach && (v, u) in reach {
      ReachSetMutual(g, u, v);
      SegmentMaximal(g, s, pos, u, v);
    }
  }

  lemma SegmentIsComponent(g: seq<seq<nat>>, reach: set<(nat, nat)>, s: Search, pos: nat)
    requires CanClose(g, s, pos) && reach == ReachSet(g) && IsClosure(g, reach)
    requires Explored(g, s) && LowBound(g, s) && DoneClosed(g, s) && ReachDown(g, reach, s) && ReachUp(g, reach, s)
    ensures IsComponent(g, reach, Reversed(s.stack[pos..]))
  {
    hide LowBound, Explored, FramesOk, ReachSet, IsClosure, DoneClosed, ReachDown, ReachUp, WellFormed, Numbered, TopIsRoot;
    SegmentDistinct(g, s, pos);
    hide StackOk, Shape;
    var c := Reversed(s.stack[pos..]);
    ReversedMembers(s.stack[pos..]);
    forall u, v: nat | u in c && v < |g|
      ensures v in c <==> (u, v) in reach && (v, u) in reach
    {
      SegmentMember(g, reach, s, pos, u, v);
    }
  }

  lemma ReversedMembers(s: seq<nat>)
    ensures forall x :: x in Reversed(s) <==> x in s
  {
    var c := Reversed(s);
    assert forall i :: 0 <= i < |c| ==> c[i] == s[|s| - 1 - i];
    assert forall i :: 0 <= i < |s| ==> s[i] == c[|s| - 1 - i];
  }

  lemma ReachSetMutual(g: seq<seq<nat>>, u: nat, v: nat)
    requires (u, v) in ReachSet(g) && (v, u) in ReachSet(g)
    ensures Mutual(EdgesOf(g), u, v)
  {
  }

  lemma CloseComponents(g: seq<seq<nat>>, reach: set<(nat, nat)>, s: Search, pos: nat)
    requires CanClose(g, s, pos) && Base(g, Close(s, pos)) && ComponentsOk(g, reach, s)
    requires IsComponent(g, reach, Reversed(s.stack[pos..]))
    ensures ComponentsOk(g, reach, Close(s, pos))
  {
    CloseFlags(g, s, pos);
    hide IsComponent, StackOk, FramesOk, WellFormed, Numbered;
    var t := Close(s, pos);
    var m := |s.components|;
    var seg := s.stack[pos..];
    var c := Reversed(seg);
    ReversedMembers(seg);
    forall i, v | 0 <= i < |t.components| && v in t.components[i]
      ensures t.Done(v) && (i < m ==> v !in c)
    {
      if i < m { assert t.components[i] == s.components[i] && s.Done(v); }
    }
    forall v: nat | t.Done(v)
      ensures InSome(t.components, v)
    {
      if s.Done(v) {
        assert InSome(s.components, v);
        var i :| 0 <= i < m && v in s.components[i];
        assert t.components[i] == s.components[i];
      } else {
        assert t.components[m] == c;
      }
    }
  }

  lemma CloseKeepsInv(g: seq<seq<nat>>, reach: set<(nat, nat)>, s: Search, pos: nat)
    requires CanClose(g, s, pos) && reach == ReachSet(g) && IsClosure(g, reach) && Inv(g, reach, s)
    ensures Inv(g, reach, Close(s, pos))
  {
    hide Explored, LowBound, ReachDown, ReachUp, LowSound, ComponentsOk, StackOk, Numbered, DoneClosed, IsClosure,
      Shape, FramesOk, WellFormed, Close, IsComponent, ReachSet;
    CloseFrames(g, reach, s, pos);
    CloseStack(g, s, pos);
    CloseExplored(g, s, pos);
    CloseDone(g, s, pos);
    CloseReachDown(g, reach, s, pos);
    CloseReachUp(g, reach, s, pos);
    CloseLowSound(g, reach, s, pos);
    CloseLowBound(g, s, pos);
    SegmentIsComponent(g, reach, s, pos);
    CloseComponents(g, reach, s, pos);
  }

  // ----- the search itself --------------------------------------------------

  /** c is a duplicate-free list of one strongly connected component of g. */
  ghost predicate IsScc(g: seq<seq<nat>>, c: seq<nat>) {
    && |c| > 0
    && (forall i :: 0 <= i < |c| ==> c[i] < |g|)
    && (forall i, j :: 0 <= i < j < |c| ==> c[i] != c[j])
    && (forall u, v: nat :: u in c && v < |g| ==> (v in c <==> Mutual(EdgesOf(g), u, v)))
  }

  /** The components are exactly the strongly connected components of g, each listed once. */
  ghost predicate AreComponents(g: seq<seq<nat>>, components: seq<seq<nat>>) {
    && (forall i :: 0 <= i < |components| ==> IsScc(g, components[i]))
    && (forall v: nat :: v < |g| ==> InSome(components, v))
    && (forall i, j, v :: 0 <= i < j < |components| && v in components[i] ==> v !in components[j])
  }

  lemma ComponentIsScc(g: seq<seq<nat>>, c: seq<nat>)
    requires IsComponent(g, ReachSet(g), c)
    ensures IsScc(g, c)
  {
    hide Mutual, Reaches;
    forall u, v: nat | u in c && v < |g|
      ensures v in c <==> Mutual(EdgesOf(g), u, v)
    {
      InReachSet(g, u, v);
      InReachSet(g, v, u);
      UnfoldsMutual(EdgesOf(g), u, v);
    }
  }

  lemma InReachSet(g: seq<seq<nat>>, u: nat, v: nat)
    requires u < |g| && v < |g|
    ensures (u, v) in ReachSet(g) <==> Reaches(EdgesOf(g), u, v)
  {
    hide Reaches;
  }

  lemma UnfoldsMutual(rel: set<(nat, nat)>, u: nat, v: nat)
    ensures Mutual(rel, u, v) <==> Reaches(rel, u, v) && Reaches(rel, v, u)
  {
    hide Reaches;
  }

  lemma StartInv(g: seq<seq<nat>>, reach: set<(nat, nat)>, low: seq<int>)
    requires WellFormed(g) && |low| == |g|
    ensures Inv(g, reach, Search(seq(|g|, _ => -1), low, seq(|g|, _ => false), [], [], [], 0))
  {
  }

  /** With no frame open and every node discovered, the search has found the components. */
  lemma FinishedComponents(g: seq<seq<nat>>, s: Search)
    requires Inv(g, ReachSet(g), s) && s.frames == []
    requires forall v: nat :: v < |g| ==> s.index[v] >= 0
    ensures AreComponents(g, s.components)
  {
    forall v: nat | v < |g|
      ensures InSome(s.components, v)
    {
      NoneStacked(g, ReachSet(g), s, v);
      assert s.Done(v);
    }
    hide IsComponent, Mutual, Reaches, ReachSet, IsScc;
    forall i | 0 <= i < |s.components|
      ensures IsScc(g, s.components[i])
    {
      ComponentIsScc(g, s.components[i]);
    }
  }

  lemma NoneStacked(g: seq<seq<nat>>, reach: set<(nat, nat)>, s: Search, v: nat)
    requires Base(g, s) && ReachUp(g, reach, s) && s.frames == []
    ensures !s.On(v)
  {
    assert !ReachesFrame(g, reach, s, v);
  }

  /** What the loop body needs to know before touching the top frame. */
  ghost predicate Ready(g: seq<seq<nat>>, s: Search) {
    && |s.index| == |s.low| == |s.onStack| == |g|
    && (forall v :: 0 <= v < |g| ==> s.index[v] >= -1)
    && (forall i :: 0 <= i < |s.stack| ==> s.stack[i] < |g|)
    && (forall i, j :: 0 <= i < j < |s.stack| ==> s.stack[i] != s.stack[j])
    && (forall k :: 0 <= k < |s.frames| ==>
          && s.frames[k].node < |g| && s.frames[k].cursor <= |g[s.frames[k].node]|
          && s.frames[k].node in s.stack)
  }

  lemma InvReady(g: seq<seq<nat>>, reach: set<(nat, nat)>, s: Search)
    requires Inv(g, reach, s)
    ensures WellFormed(g) && Ready(g, s)
  {
    hide Explored, LowBound, ReachDown, ReachUp, LowSound, ComponentsOk, DoneClosed, Numbered;
    assert forall i :: 0 <= i < |s.stack| ==> s.On(s.stack[i]);
    assert forall k :: 0 <= k < |s.frames| ==> s.On(s.frames[k].node);
  }

  ghost function Undiscovered(index: seq<int>): set<int> {
    set v | 0 <= v < |index| && index[v] < 0
  }

  /** The edges and frames the open frames still have to deal with. */
  ghost function Work(g: seq<seq<nat>>, frames: seq<Frame>): nat
    requires forall k :: 0 <= k < |frames| ==> frames[k].node < |g| && frames[k].cursor <= |g[frames[k].node]|
  {
    if frames == [] then 0
    else
      var top := frames[|frames| - 1];
      Work(g, frames[..|frames| - 1]) + 1 + (|g[top.node]| - top.cursor)
  }

  lemma AdvanceWork(g: seq<seq<nat>>, before: seq<Frame>, after: seq<Frame>)
    requires forall k :: 0 <= k < |before| ==> before[k].node < |g| && before[k].cursor <= |g[before[k].node]|
    requires |before| > 0
    requires var top := before[|before| - 1];
      top.cursor < |g[top.node]| && after == before[|before| - 1 := Frame(top.node, top.cursor + 1)]
    ensures forall k :: 0 <= k < |after| ==> after[k].node < |g| && after[k].cursor <= |g[after[k].node]|
    ensures Work(g, after) < Work(g, before)
  {
    assert after[..|after| - 1] == before[..|before| - 1];
  }

  lemma RootEnters(g: seq<seq<nat>>, reach: set<(nat, nat)>, s: Search, root: nat)
    requires IsClosure(g, reach) && Inv(g, reach, s) && s.frames == []
    requires root < |g| && |s.index| == |s.low| == |s.onStack| == |g| && s.index[root] == -1
    ensures Inv(g, reach, Enter(s, root))
  {
    hide Explored, LowBound, ReachDown, ReachUp, LowSound, ComponentsOk, StackOk, Numbered, DoneClosed, IsClosure,
      Shape, FramesOk, WellFormed;
    EnterKeepsInv(g, reach, s, root);
  }

  /** The node can be entered, and doing so keeps the invariant. */
  ghost predicate Entered(g: seq<seq<nat>>, reach: set<(nat, nat)>, s: Search, w: nat) {
    w < |s.index| && w < |s.low| && w < |s.onStack| && Inv(g, reach, Enter(s, w))
  }

  lemma ChildEnters(g: seq<seq<nat>>, reach: set<(nat, nat)>, s: Search, w: nat)
    requires |s.frames| > 0
    requires w < |g| && |s.index| == |s.low| == |s.onStack| == |g| && s.index[w] == -1
    requires var top := s.frames[|s.frames| - 1]; top.node < |g| && top.cursor < |g[top.node]| && g[top.node][top.cursor] == w
    requires IsClosure(g, reach) && Inv(g, reach, s)
    ensures Entered(g, reach, s, w)
  {
    hide Explored, LowBound, ReachDown, ReachUp, LowSound, ComponentsOk, StackOk, Numbered, DoneClosed, IsClosure,
      Shape, FramesOk, WellFormed;
    EnterKeepsInv(g, reach, s, w);
  }

  lemma ChildRelaxes(g: seq<seq<nat>>, reach: set<(nat, nat)>, s: Search, u: nat, w: nat)
    requires |s.frames| > 0
    requires u < |g| && w < |g| && |s.index| == |s.low| == |s.onStack| == |g| && s.index[w] >= 0
    requires var top := s.frames[|s.frames| - 1]; top.node == u && top.cursor < |g[u]| && g[u][top.cursor] == w
    requires IsClosure(g, reach) && Inv(g, reach, s)
    ensures Inv(g, reach, Relax(s, u, w))
  {
    hide Explored, LowBound, ReachDown, ReachUp, LowSound, ComponentsOk, StackOk, Numbered, DoneClosed,
      Shape, FramesOk, WellFormed;
    RelaxKeepsInv(g, reach, s, u, w);
  }

  lemma CloseMove(g: seq<seq<nat>>, reach: set<(nat, nat)>, s: Search, pos: nat)
    requires |s.frames| > 0
    requires var top := s.frames[|s.frames| - 1];
      && top.node < |g| && |s.index| == |s.low| == |g| && top.cursor == |g[top.node]|
      && s.low[top.node] == s.index[top.node]
      && pos < |s.stack| && s.stack[pos] == top.node
    requires IsClosure(g, reach) && reach == ReachSet(g) && Inv(g, reach, s)
    ensures Inv(g, reach, Close(s, pos))
  {
    hide Explored, LowBound, ReachDown, ReachUp, LowSound, ComponentsOk, StackOk, Numbered, DoneClosed, IsClosure,
      Shape, FramesOk, WellFormed, ReachSet;
    CloseKeepsInv(g, reach, s, pos);
  }

  lemma RetreatMove(g: seq<seq<nat>>, reach: set<(nat, nat)>, s: Search)
    requires |s.frames| > 0
    requires var top := s.frames[|s.frames| - 1];
      && top.node < |g| && |s.index| == |s.low| == |g| && top.cursor == |g[top.node]|
      && s.low[top.node] != s.index[top.node]
    requires IsClosure(g, reach) && Inv(g, reach, s)
    ensures Inv(g, reach, Retreat(s))
  {
    hide Explored, LowBound, ReachDown, ReachUp, LowSound, ComponentsOk, StackOk, Numbered, DoneClosed, IsClosure,
      Shape, FramesOk, WellFormed;
    RetreatKeepsInv(g, reach, s);
  }

  /** Pops the stack down to and including node, clearing flags and collecting the members. */
  method PopComponent(stack0: seq<nat>, onStack0: seq<bool>, node: nat, ghost pos: nat)
    returns (component: seq<nat>, stack: seq<nat>, onStack: seq<bool>)
    requires pos < |stack0| && stack0[pos] == node
    requires forall i :: 0 <= i < |stack0| ==> stack0[i] < |onStack0|
    requires forall i, j :: 0 <= i < j < |stack0| ==> stack0[i] != stack0[j]
    ensures stack == stack0[..pos]
    ensures component == Reversed(stack0[pos..])
    ensures onStack == Cleared(onStack0, stack0[pos..])
  {
    component, stack, onStack := [], stack0, onStack0;
    while true
      invariant pos < |stack| <= |stack0| && stack == stack0[..|stack|]
      invariant component == Reversed(stack0[|stack|..])
      invariant onStack == Cleared(onStack0, stack0[|stack|..])
      decreases |stack|
    {
      var member := stack[|stack| - 1];
      ghost var rest := stack0[|stack|..];
      assert stack0[|stack| - 1..] == [member] + rest;
      stack := stack[..|stack| - 1];
      onStack := onStack[member := false];
      component := component + [member];
      if member == node {
        break;
      }
    }
  }

  /**
   * The top frame has no edge left: drop it, pop its component when its node is the first
   * discovered of one, and hand its low-link to the frame below.
   */
  method LeaveFrame(g: seq<seq<nat>>, ghost reach: set<(nat, nat)>, s: Search)
    returns (low: seq<int>, onStack: seq<bool>, stack: seq<nat>, frames: seq<Frame>, components: seq<seq<nat>>)
    requires |s.frames| > 0 && Ready(g, s)
    requires s.frames[|s.frames| - 1].cursor == |g[s.frames[|s.frames| - 1].node]|
    requires IsClosure(g, reach) && reach == ReachSet(g) && Inv(g, reach, s)
    ensures |low| == |onStack| == |g| && frames == s.frames[..|s.frames| - 1]
    ensures Inv(g, reach, Search(s.index, low, onStack, stack, frames, components, s.next))
  {
    hide Inv, ReachSet, IsClosure;
    low, onStack, stack, components := s.low, s.onStack, s.stack, s.components;
    frames := s.frames[..|s.frames| - 1];
    var node := s.frames[|s.frames| - 1].node;
    if low[node] == s.index[node] {
      ghost var pos :| 0 <= pos < |stack| && stack[pos] == node;
      CloseMove(g, reach, s, pos);
      var component: seq<nat>;
      component, stack, onStack := PopComponent(stack, onStack, node, pos);
      components := components + [component];
    } else {
      RetreatMove(g, reach, s);
    }
    if |frames| > 0 {
      var parent := frames[|frames| - 1].node;
      low := low[parent := Min(low[parent], low[node])];
    }
  }

  /** Fewer nodes to discover, or as many and less left to do on the open frames. */
  ghost predicate Progress(g: seq<seq<nat>>, before: seq<int>, from: seq<Frame>, after: seq<int>, to: seq<Frame>)
    requires forall k :: 0 <= k < |from| ==> from[k].node < |g| && from[k].cursor <= |g[from[k].node]|
    requires forall k :: 0 <= k < |to| ==> to[k].node < |g| && to[k].cursor <= |g[to[k].node]|
  {
    Undiscovered(after) < Undiscovered(before) || (Undiscovered(after) == Undiscovered(before) && Work(g, to) < Work(g, from))
  }

  ghost predicate Sized(g: seq<seq<nat>>, s: Search) {
    && |s.index| == |s.low| == |s.onStack| == |g|
    && forall k :: 0 <= k < |s.frames| ==> s.frames[k].node < |g| && s.frames[k].cursor <= |g[s.frames[k].node]|
  }

  ghost predicate HasEdge(g: seq<seq<nat>>, s: Search) {
    Sized(g, s) && |s.frames| > 0 && s.frames[|s.frames| - 1].cursor < |g[s.frames[|s.frames| - 1].node]|
  }

  /** Nothing is forgotten, and less is left to do. */
  ghost predicate Advanced(g: seq<seq<nat>>, s: Search, t: Search) {
    && Sized(g, s) && Sized(g, t)
    && (forall v: nat :: v < |g| && s.index[v] >= 0 ==> t.index[v] >= 0)
    && Progress(g, s.index, s.frames, t.index, t.frames)
  }

  lemma OneDiscovered(index: seq<int>, v: nat, next: nat)
    requires v < |index| && index[v] < 0
    ensures Undiscovered(index[v := next]) < Undiscovered(index)
  {
    assert v in Undiscovered(index);
    assert v !in Undiscovered(index[v := next]);
  }

  lemma LeaveWork(g: seq<seq<nat>>, frames: seq<Frame>)
    requires frames != [] && forall k :: 0 <= k < |frames| ==> frames[k].node < |g| && frames[k].cursor <= |g[frames[k].node]|
    ensures Work(g, frames[..|frames| - 1]) < Work(g, frames)
  {
  }

  lemma EnterAdvances(g: seq<seq<nat>>, s: Search, w: nat)
    requires HasEdge(g, s) && w < |g| && s.index[w] == -1
    ensures Advanced(g, s, Enter(s, w))
  {
    hide Undiscovered, Work;
    AdvanceWork(g, s.frames, AdvanceTop(s.frames));
    OneDiscovered(s.index, w, s.next);
  }

  lemma RelaxAdvances(g: seq<seq<nat>>, s: Search, u: nat, w: nat)
    requires HasEdge(g, s) && u < |g| && w < |g|
    ensures Advanced(g, s, Relax(s, u, w))
  {
    hide Undiscovered, Work;
    AdvanceWork(g, s.frames, AdvanceTop(s.frames));
  }

  /** The next edge of the top frame leads to a node, numbered or not. */
  ghost predicate TargetNumbered(g: seq<seq<nat>>, s: Search) {
    HasEdge(g, s) ==> var top := s.frames[|s.frames| - 1]; var w := g[top.node][top.cursor]; w < |g| && s.index[w] >= -1
  }

  lemma TargetIn(g: seq<seq<nat>>, reach: set<(nat, nat)>, s: Search)
    requires Inv(g, reach, s)
    ensures TargetNumbered(g, s)
  {
    hide Inv;
    InvReady(g, reach, s);
  }

  /** The top frame has an edge left: move its cursor on, and enter the edge's target or look at its number. */
  method AdvanceFrame(g: seq<seq<nat>>, ghost reach: set<(nat, nat)>, s: Search)
    returns (index: seq<int>, low: seq<int>, onStack: seq<bool>, stack: seq<nat>, frames: seq<Frame>, next: nat)
    requires HasEdge(g, s) && IsClosure(g, reach) && Inv(g, reach, s)
    ensures Advanced(g, s, Search(index, low, onStack, stack, frames, s.components, next))
    ensures Inv(g, reach, Search(index, low, onStack, stack, frames, s.components, next))
  {
    hide Inv, IsClosure, Ready, WellFormed, Min, Advanced;
    TargetIn(g, reach, s);
    index, low, onStack, stack, next := s.index, s.low, s.onStack, s.stack, s.next;
    var node, cursor := s.frames[|s.frames| - 1].node, s.frames[|s.frames| - 1].cursor;
    var target := g[node][cursor];
    frames := s.frames[|s.frames| - 1 := Frame(node, cursor + 1)];
    if index[target] == -1 {
      ChildEnters(g, reach, s, target);
      EnterAdvances(g, s, target);
      index, low, next := index[target := next], low[target := next], next + 1;
      stack, onStack := stack + [target], onStack[target := true];
      frames := frames + [Frame(target, 0)];
    } else {
      ChildRelaxes(g, reach, s, node, target);
      RelaxAdvances(g, s, node, target);
      if onStack[target] {
        low := low[node := Min(low[node], index[target])];
      }
    }
  }

  /** Iterative Tarjan: the strongly connected components of g, for every g. */
  method StronglyConnectedComponents(g: seq<seq<nat>>) returns (components: seq<seq<nat>>)
    requires WellFormed(g)
    ensures AreComponents(g, components)
  {
    hide Inv, AreComponents, ReachSet, IsClosure, Undiscovered, Work;
    var n := |g|;
    var index: seq<int> := seq(n, _ => -1);
    var low: seq<int> := seq(n, _ => 0);
    var onStack: seq<bool> := seq(n, _ => false);
    var stack: seq<nat> := [];
    components := [];
    var next: nat := 0;
    ghost var reach := ReachSet(g);
    ReachSetIsClosure(g);
    StartInv(g, reach, low);
    for root := 0 to n
      invariant |index| == |low| == |onStack| == n
      invariant forall v: nat :: v < root ==> index[v] >= 0
      invariant Inv(g, reach, Search(index, low, onStack, stack, [], components, next))
    {
      if index[root] != -1 {
        InvReady(g, reach, Search(index, low, onStack, stack, [], components, next));
        continue;
      }
      RootEnters(g, reach, Search(index, low, onStack, stack, [], components, next), root);
      var frames := [Frame(root, 0)];
      index, low, next := index[root := next], low[root := next], next + 1;
      stack, onStack := stack + [root], onStack[root := true];
      assert frames == [] + [Frame(root, 0)];
      while |frames| > 0
        invariant |index| == |low| == |onStack| == n
        invariant forall v: nat :: v <= root ==> index[v] >= 0
        invariant forall k :: 0 <= k < |frames| ==> frames[k].node < |g| && frames[k].cursor <= |g[frames[k].node]|
        invariant Inv(g, reach, Search(index, low, onStack, stack, frames, components, next))
        decreases Undiscovered(index), Work(g, frames)
      {
        var s := Search(index, low, onStack, stack, frames, components, next);
        InvReady(g, reach, s);
        var top := frames[|frames| - 1];
        if top.cursor < |g[top.node]| {
          index, low, onStack, stack, frames, next := AdvanceFrame(g, reach, s);
          continue;
        }
        LeaveWork(g, frames);
        low, onStack, stack, frames, components := LeaveFrame(g, reach, s);
      }
      assert frames == [];
    }
    FinishedComponents(g, Search(index, low, onStack, stack, [], components, next));
  }
}
