/** What one free does to the links, step by step (memory/Allocator.c:348-397), and which
    allocators it may mark as freeing. */
module AllocatorFree {
  import opened CTypes
  import opened Lists
  import opened AllocatorGraph

  /** The allocators marked so far by the running free, with their depth under its top. */
  type Levels = map<nat, nat>

  /** Stands for "no allocator is half way through dropping its adoptions". */
  const NOBODY: int := -1

  /** The links have only lost edges, and an edge between two live allocators is never lost
      (except below `hole`, which is about to be marked). */
  ghost predicate EdgesKept(g0: Graph, g: Graph, size: nat, hole: int)
    requires Sized(g0, size) && Sized(g, size)
  {
    && (forall n: nat, p: nat {:trigger ParentCount(g, n, p)} :: n < size ==>
          ParentCount(g, n, p) <= ParentCount(g0, n, p))
    && (forall n: nat, p: nat {:trigger ParentCount(g, n, p)} ::
          n < size && !g.freeing[n] && p < size && !g.freeing[p] && p != hole ==>
          ParentCount(g, n, p) == ParentCount(g0, n, p))
  }

  ghost predicate MarkedSet(g0: Graph, g: Graph, size: nat, lv: Levels)
    requires Sized(g0, size) && Sized(g, size)
  {
    && (forall n: nat :: n in lv ==> n < size)
    && (forall n: nat :: n < size ==> (n in lv <==> g.freeing[n] && !g0.freeing[n]))
    && (forall n: nat :: n < size && g0.freeing[n] ==> g.freeing[n] && g.parent[n] == g0.parent[n])
    && (forall n: nat :: n < size && g.parent[n].None? ==> g.freeing[n])
  }

  /** The marked allocators form a tree under `top`, levelled by depth. */
  ghost predicate MarkedTree(g: Graph, size: nat, top: nat, lv: Levels)
    requires Sized(g, size) && (forall n: nat :: n in lv ==> n < size)
  {
    && (lv == map[] || (top in lv && lv[top] == 0 && (top != 0 ==> g.parent[top].None?)))
    && (forall n: nat :: n in lv && n != top ==> n != 0 && g.parent[n].Some?)
    && (forall n: nat, p: nat :: ChildOf(g, n, p) && n in lv && n != top ==> p in lv && lv[n] == lv[p] + 1)
  }

  /** Below the top, an allocator is only ever marked after all of its parents were. */
  ghost predicate MarkedAreCut(g0: Graph, size: nat, top: nat, lv: Levels)
    requires Sized(g0, size) && (forall n: nat :: n in lv ==> n < size)
  {
    forall n: nat, p: nat {:trigger ParentCount(g0, n, p)} ::
      n in lv && n != top && ParentCount(g0, n, p) > 0 ==> p in lv
  }

  /** The invariant of a running free that started from the links `g0`. */
  ghost predicate Progress(g0: Graph, g: Graph, rank: seq<nat>, top: nat, lv: Levels, hole: int) {
    && Linked(g0, rank) && Settled(g0) && Linked(g, rank)
    && EdgesKept(g0, g, |rank|, hole)
    && MarkedSet(g0, g, |rank|, lv)
    && MarkedTree(g, |rank|, top, lv)
    && MarkedAreCut(g0, |rank|, top, lv)
  }

  // ---------------------------------------------------------------- the steps

  /** Lines 360-362: move `n` from its natural parent to its first adopter. */
  function AfterPivot(g: Graph, n: nat): Graph
    requires Sized(g, |g.parent|) && n < |g.parent| && g.parent[n].Some? && g.parent[n].value < |g.parent|
    requires g.adopters[n] != [] && g.adopters[n][0] < |g.parent|
  {
    var a := g.adopters[n][0];
    AfterDisconnectAdopted(AfterConnect(AfterDisconnect(g, n), a, n), a, n)
  }

  lemma {:induction false} PivotLinked(g: Graph, rank: seq<nat>, n: nat)
    requires Linked(g, rank) && n < |rank| && g.parent[n].Some? && g.adopters[n] != []
    ensures n != 0 && g.parent[n].value < |rank|
    ensures Live(g, n) && Live(g, g.adopters[n][0]) && g.adopters[n][0] != n
    ensures Linked(AfterPivot(g, n), rank)
    ensures AfterPivot(g, n).parent == g.parent[n := Some(g.adopters[n][0])] && AfterPivot(g, n).freeing == g.freeing
  {
    hide Count, Mirror, Bare, AdoptionsAllocated, RemoveFirst;
    var a := g.adopters[n][0];
    CountIn(g.adopters[n], a);
    AdoptionEdge(g, rank, n, a);
    DisconnectLinked(g, rank, n);
    ConnectLinked(AfterDisconnect(g, n), rank, a, n);
    DisconnectAdoptedLinked(AfterConnect(AfterDisconnect(g, n), a, n), rank, a, n);
  }

  /** Only the link to the old natural parent is gone. */
  lemma {:induction false} PivotCounts(g: Graph, rank: seq<nat>, n: nat, m: nat, q: nat)
    requires Linked(g, rank) && n < |rank| && g.parent[n].Some? && g.adopters[n] != [] && m < |rank|
    ensures g.parent[n].value < |rank| && g.adopters[n][0] < |rank|
    ensures ParentCount(AfterPivot(g, n), m, q) ==
            ParentCount(g, m, q) - if m == n && g.parent[n] == Some(q) then 1 else 0
  {
    PivotLinked(g, rank, n);
    var a := g.adopters[n][0];
    CountIn(g.adopters[n], a);
    DisconnectAdoptedCounts(AfterConnect(AfterDisconnect(g, n), a, n), a, n, m, q);
  }

  // ---------------------------------------------------------------- keeping the invariant

  /** Losing links to freeing allocators, or to `hole`, keeps what EdgesKept promises; once the
      hole is marked it is none. */
  lemma EdgesKeptStep(g0: Graph, g: Graph, r: Graph, size: nat, hole: int, hole': int)
    requires Sized(g0, size) && Sized(g, size) && Sized(r, size)
    requires EdgesKept(g0, g, size, hole)
    requires hole == hole' || (0 <= hole < size && r.freeing[hole])
    requires forall n: nat :: n < size && g.freeing[n] ==> r.freeing[n]
    requires forall n: nat, p: nat {:trigger ParentCount(r, n, p)} :: n < size ==>
      ParentCount(r, n, p) <= ParentCount(g, n, p)
    requires forall n: nat, p: nat {:trigger ParentCount(r, n, p)} ::
      n < size && p < size && !r.freeing[n] && !r.freeing[p] && p != hole' ==>
      ParentCount(r, n, p) == ParentCount(g, n, p)
    ensures EdgesKept(g0, r, size, hole')
  {
    forall n: nat, p: nat {:trigger ParentCount(r, n, p)} | n < size
      ensures ParentCount(r, n, p) <= ParentCount(g0, n, p)
    {
      assert ParentCount(g, n, p) <= ParentCount(g0, n, p);
    }
    forall n: nat, p: nat {:trigger ParentCount(r, n, p)} |
      n < size && p < size && !r.freeing[n] && !r.freeing[p] && p != hole'
      ensures ParentCount(r, n, p) == ParentCount(g0, n, p)
    {
      assert ParentCount(g, n, p) == ParentCount(g0, n, p);
    }
  }

  lemma MarkedTreeStep(g: Graph, r: Graph, size: nat, top: nat, lv: Levels)
    requires Sized(g, size) && Sized(r, size) && (forall n: nat :: n in lv ==> n < size)
    requires MarkedTree(g, size, top, lv)
    requires forall n: nat :: n in lv ==> r.parent[n] == g.parent[n]
    ensures MarkedTree(r, size, top, lv)
  {
    forall m: nat, p: nat | ChildOf(r, m, p) && m in lv && m != top ensures p in lv && lv[m] == lv[p] + 1 {
      assert ChildOf(g, m, p);
    }
  }

  lemma {:induction false} PivotEdges(g0: Graph, g: Graph, rank: seq<nat>, n: nat, a: nat)
    requires Sized(g0, |rank|) && Linked(g, rank) && EdgesKept(g0, g, |rank|, NOBODY)
    requires n < |rank| && g.adopters[n] != [] && g.adopters[n][0] == a
    requires g.parent[n].Some? && g.parent[n].value < |rank| && g.freeing[g.parent[n].value]
    ensures a < |rank| && Sized(AfterPivot(g, n), |rank|) && EdgesKept(g0, AfterPivot(g, n), |rank|, NOBODY)
  {
    PivotLinked(g, rank, n);
    var r := AfterPivot(g, n);
    forall m: nat, q: nat {:trigger ParentCount(r, m, q)} | m < |rank|
      ensures ParentCount(r, m, q) == ParentCount(g, m, q) - if m == n && g.parent[n] == Some(q) then 1 else 0
    {
      PivotCounts(g, rank, n, m, q);
    }
    EdgesKeptStep(g0, g, r, |rank|, NOBODY, NOBODY);
  }

  /** A child of a marked allocator that still has an adopter is saved. */
  lemma {:induction false} PivotProgress(g0: Graph, g: Graph, rank: seq<nat>, top: nat, lv: Levels, n: nat)
    requires Progress(g0, g, rank, top, lv, NOBODY)
    requires Live(g, n) && g.parent[n].Some? && g.parent[n].value in lv && g.adopters[n] != []
    ensures g.adopters[n][0] < |rank|
    ensures Progress(g0, AfterPivot(g, n), rank, top, lv, NOBODY)
  {
    hide AfterPivot, TreeLinks, Mirror, RankedTree, RankedAdoption, Bare, AdoptionsAllocated, EdgesKept;
    hide MarkedAreCut, Settled;
    PivotLinked(g, rank, n);
    PivotEdges(g0, g, rank, n, g.adopters[n][0]);
    MarkedTreeStep(g, AfterPivot(g, n), |rank|, top, lv);
  }

  lemma {:induction false} DropOneEdges(g0: Graph, g: Graph, size: nat, n: nat, c: nat)
    requires Sized(g0, size) && Sized(g, size) && n < size && c < size && EdgesKept(g0, g, size, n)
    ensures EdgesKept(g0, AfterDisconnectAdopted(g, n, c), size, n)
  {
    var r := AfterDisconnectAdopted(g, n, c);
    forall m: nat, q: nat {:trigger ParentCount(r, m, q)} | m < size
      ensures ParentCount(r, m, q) ==
              ParentCount(g, m, q) - if m == c && q == n && Count(g.adopters[c], n) > 0 then 1 else 0
    {
      DisconnectAdoptedCounts(g, n, c, m, q);
    }
    EdgesKeptStep(g0, g, r, size, n, n);
  }

  lemma {:induction false} DropOneProgress(
      g0: Graph, g: Graph, rank: seq<nat>, top: nat, lv: Levels, n: nat, c: nat)
    requires Progress(g0, g, rank, top, lv, n)
    requires n < |rank| && c < |rank|
    ensures Progress(g0, AfterDisconnectAdopted(g, n, c), rank, top, lv, n)
  {
    hide TreeLinks, Mirror, RankedTree, RankedAdoption, Bare, AdoptionsAllocated, EdgesKept, MarkedAreCut;
    hide Settled;
    DisconnectAdoptedLinked(g, rank, n, c);
    DropOneEdges(g0, g, |rank|, n, c);
    MarkedTreeStep(g, AfterDisconnectAdopted(g, n, c), |rank|, top, lv);
  }

  function AfterMark(g: Graph, n: nat): Graph
    requires n < |g.freeing|
  {
    g.(freeing := g.freeing[n := true])
  }

  lemma {:induction false} MarkEdges(g0: Graph, g: Graph, size: nat, n: nat)
    requires Sized(g0, size) && Sized(g, size) && n < size && EdgesKept(g0, g, size, n)
    ensures EdgesKept(g0, AfterMark(g, n), size, NOBODY)
  {
    var r := AfterMark(g, n);
    forall m: nat, q: nat {:trigger ParentCount(r, m, q)} | m < size
      ensures ParentCount(r, m, q) == ParentCount(g, m, q)
    {}
    EdgesKeptStep(g0, g, r, size, n, NOBODY);
  }

  /** Every parent that an allocator had when the free began is marked by the time it is marked
      itself. */
  lemma {:induction false} MarkedAreCutStep(g0: Graph, g: Graph, rank: seq<nat>, lv: Levels, n: nat, p: nat)
    requires Linked(g0, rank) && Settled(g0) && Sized(g, |rank|)
    requires EdgesKept(g0, g, |rank|, n) && MarkedSet(g0, g, |rank|, lv)
    requires Live(g, n) && g.parent[n].Some? && g.parent[n].value in lv && g.adopters[n] == [] && n != 0
    requires ParentCount(g0, n, p) > 0
    ensures p in lv
  {
    ParentsAreLive(g0, rank, n, p);
    assert ParentCount(g, n, p) == if g.parent[n] == Some(p) then 1 else 0;
    if p !in lv && p != n { assert false; }
  }

  lemma {:induction false} MarkedTreeGrow(g: Graph, size: nat, top: nat, lv: Levels, n: nat, q: nat)
    requires Sized(g, size) && (forall m: nat :: m in lv ==> m < size)
    requires MarkedTree(g, size, top, lv)
    requires n < size && n !in lv && n != 0 && g.parent[n] == Some(q) && q in lv
    ensures MarkedTree(AfterMark(g, n), size, top, lv[n := lv[q] + 1])
  {
    var r, lv' := AfterMark(g, n), lv[n := lv[q] + 1];
    forall m: nat, p: nat | ChildOf(r, m, p) && m in lv' && m != top
      ensures p in lv' && lv'[m] == lv'[p] + 1
    {
      assert ChildOf(g, m, p);
    }
    assert MarkedTree(r, size, top, lv');
  }

  /** A child of a marked allocator without adopters, all its own adoptions dropped, is marked. */
  lemma {:induction false} MarkProgress(
      g0: Graph, g: Graph, rank: seq<nat>, top: nat, lv: Levels, n: nat, q: nat)
    requires Progress(g0, g, rank, top, lv, n)
    requires Live(g, n) && g.adopters[n] == [] && g.adopted[n] == []
    requires n != 0 && g.parent[n] == Some(q) && q in lv
    ensures Progress(g0, AfterMark(g, n), rank, top, lv[n := lv[q] + 1], NOBODY)
  {
    hide TreeLinks, Mirror, RankedTree, RankedAdoption, EdgesKept, Settled;
    MarkEdges(g0, g, |rank|, n);
    MarkedTreeGrow(g, |rank|, top, lv, n, q);
    forall p: nat | ParentCount(g0, n, p) > 0 ensures p in lv {
      MarkedAreCutStep(g0, g, rank, lv, n, p);
    }
  }

  /** The allocator that free was called on: cut from its natural parent and marked. */
  function AfterCutTop(g: Graph, top: nat): Graph
    requires Sized(g, |g.parent|) && top < |g.parent|
    requires g.parent[top].Some? && g.parent[top].value < |g.parent|
  {
    if top != 0 then AfterMark(AfterDisconnect(g, top), top) else AfterMark(g, top)
  }

  lemma {:induction false} CutTopEdges(g0: Graph, g: Graph, size: nat, top: nat)
    requires Sized(g0, size) && Sized(g, size) && top < size && EdgesKept(g0, g, size, top)
    requires g.parent[top].Some? && g.parent[top].value < size
    ensures EdgesKept(g0, AfterCutTop(g, top), size, NOBODY)
  {
    EdgesKeptStep(g0, g, AfterCutTop(g, top), size, top, NOBODY);
  }

  lemma {:induction false} CutTopProgress(g0: Graph, g: Graph, rank: seq<nat>, top: nat)
    requires Progress(g0, g, rank, top, map[], top)
    requires Live(g, top) && g.adopters[top] == [] && g.adopted[top] == []
    ensures g.parent[top].Some? && g.parent[top].value < |rank|
    ensures Progress(g0, AfterCutTop(g, top), rank, top, map[top := 0], NOBODY)
  {
    hide Mirror, RankedTree, RankedAdoption, EdgesKept, Settled;
    CutTopEdges(g0, g, |rank|, top);
    if top != 0 { DisconnectLinked(g, rank, top); }
  }
}
