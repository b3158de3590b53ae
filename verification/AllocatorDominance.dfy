/** Which allocators a free destroys: exactly those that the root can reach only through it. */
module AllocatorDominance {
  import opened CTypes
  import opened Lists
  import opened AllocatorGraph
  import opened AllocatorFree

  /** `path` runs from the root down to `n` along natural or adopted links and avoids `x`. */
  ghost predicate ChainAvoiding(g: Graph, x: nat, path: seq<nat>, n: nat)
    requires Sized(g, |g.parent|)
  {
    && |path| > 0 && path[0] == 0 && path[|path| - 1] == n
    && (forall i :: 0 <= i < |path| ==> path[i] < |g.parent| && path[i] != x)
    && (forall i :: 0 < i < |path| ==> ParentCount(g, path[i], path[i - 1]) > 0)
  }

  /** Some chain of parents leads from `n` back to the root without passing through `x`. */
  ghost predicate HasParentBesides(g: Graph, x: nat, n: nat)
    requires Sized(g, |g.parent|)
  {
    exists path :: ChainAvoiding(g, x, path, n)
  }

  /** No live allocator hangs under a marked one any more. */
  ghost predicate Closed(g: Graph, lv: Levels) {
    forall n: nat, p: nat :: ChildOf(g, n, p) && Live(g, n) ==> p !in lv
  }

  lemma {:induction false} ChainsStayLive(
      g0: Graph, g: Graph, rank: seq<nat>, top: nat, lv: Levels, path: seq<nat>, n: nat)
    requires Progress(g0, g, rank, top, lv, NOBODY)
    requires ChainAvoiding(g0, top, path, n)
    ensures n !in lv
    decreases |path|
  {
    hide TreeLinks, Mirror, RankedTree, RankedAdoption, Bare, AdoptionsAllocated, EdgesKept, Settled;
    if n in lv && |path| > 1 {
      var p := path[|path| - 2];
      assert ParentCount(g0, path[|path| - 1], path[|path| - 1 - 1]) > 0;
      assert ChainAvoiding(g0, top, path[..|path| - 1], p);
      ChainsStayLive(g0, g, rank, top, lv, path[..|path| - 1], p);
    }
  }

  lemma {:induction false} LiveParent(
      g0: Graph, g: Graph, rank: seq<nat>, top: nat, lv: Levels, n: nat, p: nat)
    requires Progress(g0, g, rank, top, lv, NOBODY) && Closed(g, lv)
    requires Live(g, n) && ChildOf(g, n, p)
    ensures Live(g0, n) && Live(g, p) && ParentCount(g0, n, p) > 0
    ensures n != 0 ==> rank[p] < rank[n]
  {
    hide Mirror, RankedAdoption, AdoptionsAllocated, MarkedTree, MarkedAreCut;
    assert ParentCount(g, n, p) > 0;
    assert ParentCount(g0, n, p) > 0;
    ParentsAreLive(g0, rank, n, p);
  }

  lemma {:induction false} SurvivorHasChain(
      g0: Graph, g: Graph, rank: seq<nat>, top: nat, lv: Levels, n: nat)
    requires Progress(g0, g, rank, top, lv, NOBODY) && Closed(g, lv) && top in lv
    requires Live(g, n)
    ensures HasParentBesides(g0, top, n)
    decreases rank[n]
  {
    hide TreeLinks, Mirror, RankedTree, RankedAdoption, Bare, AdoptionsAllocated, EdgesKept, MarkedTree;
    hide MarkedAreCut, Settled;
    if n == 0 {
      assert ChainAvoiding(g0, top, [0], 0);
    } else {
      var p := g.parent[n].value;
      assert ChildOf(g, n, p);
      LiveParent(g0, g, rank, top, lv, n, p);
      SurvivorHasChain(g0, g, rank, top, lv, p);
      var path :| ChainAvoiding(g0, top, path, p);
      assert ChainAvoiding(g0, top, path + [n], n);
    }
  }

  lemma {:induction false} ClosedIsSettled(g0: Graph, g: Graph, rank: seq<nat>, top: nat, lv: Levels)
    requires Progress(g0, g, rank, top, lv, NOBODY) && Closed(g, lv)
    ensures Settled(g)
  {
    hide TreeLinks, Mirror, RankedTree, RankedAdoption, Bare, AdoptionsAllocated, EdgesKept, MarkedAreCut;
    forall n: nat, p: nat | ChildOf(g, n, p) && n != 0 && p < |g.parent| ensures g.freeing[n] == g.freeing[p] {
      if Live(g, n) {
        LiveParent(g0, g, rank, top, lv, n, p);
      } else if n !in lv {
        assert ChildOf(g0, n, p);
      }
    }
  }

  /** The main result on free (memory/Allocator.c:348-397).  When the free of `top` has run to the
      end, the allocators it marked are exactly those for which every chain of natural or adopted
      parents back to the root passes through `top`.  Every other allocator keeps one natural
      parent, which is live, and keeps all its links to other survivors. */
  lemma {:induction false} FreeMarksDominated(g0: Graph, g: Graph, rank: seq<nat>, top: nat, lv: Levels)
    requires Progress(g0, g, rank, top, lv, NOBODY) && Closed(g, lv) && top in lv
    ensures Linked(g, rank) && Settled(g)
    ensures forall n: nat {:trigger HasParentBesides(g0, top, n)} :: Live(g0, n) ==>
      (g.freeing[n] <==> !HasParentBesides(g0, top, n))
    ensures forall n: nat, p: nat {:trigger ParentCount(g, n, p)} :: Live(g, n) && p < |rank| ==>
      ParentCount(g, n, p) == if Live(g, p) then ParentCount(g0, n, p) else 0
  {
    ClosedIsSettled(g0, g, rank, top, lv);
    forall n: nat {:trigger HasParentBesides(g0, top, n)} | Live(g0, n)
      ensures g.freeing[n] <==> !HasParentBesides(g0, top, n)
    {
      FreedOrReached(g0, g, rank, top, lv, n);
    }
    forall n: nat, p: nat {:trigger ParentCount(g, n, p)} | Live(g, n) && p < |rank|
      ensures ParentCount(g, n, p) == if Live(g, p) then ParentCount(g0, n, p) else 0
    {
      SurvivorLinks(g0, g, rank, top, lv, n, p);
    }
  }

  lemma {:induction false} FreedOrReached(g0: Graph, g: Graph, rank: seq<nat>, top: nat, lv: Levels, n: nat)
    requires Progress(g0, g, rank, top, lv, NOBODY) && Closed(g, lv) && top in lv && Live(g0, n)
    ensures g.freeing[n] <==> !HasParentBesides(g0, top, n)
  {
    hide TreeLinks, Mirror, RankedTree, RankedAdoption, Bare, AdoptionsAllocated, EdgesKept, MarkedTree;
    hide MarkedAreCut, Settled;
    if Live(g, n) {
      SurvivorHasChain(g0, g, rank, top, lv, n);
    } else if HasParentBesides(g0, top, n) {
      var path :| ChainAvoiding(g0, top, path, n);
      ChainsStayLive(g0, g, rank, top, lv, path, n);
    }
  }

  lemma {:induction false} SurvivorLinks(
      g0: Graph, g: Graph, rank: seq<nat>, top: nat, lv: Levels, n: nat, p: nat)
    requires Progress(g0, g, rank, top, lv, NOBODY) && Closed(g, lv) && Live(g, n) && p < |rank|
    ensures ParentCount(g, n, p) == if Live(g, p) then ParentCount(g0, n, p) else 0
  {
    hide MarkedTree, MarkedAreCut;
    if !Live(g, p) && ParentCount(g, n, p) > 0 {
      if Count(g.adopters[n], p) > 0 { AdoptionEdge(g, rank, n, p); }
      else { assert ChildOf(g, n, p); LiveParent(g0, g, rank, top, lv, n, p); }
    }
  }
}
