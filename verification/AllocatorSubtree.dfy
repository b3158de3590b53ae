/** Natural subtrees, and sums over them: what the recursive walks of memory/Allocator.c
    (bytesAllocated, marshalOnFreeJobs, freeAllocator) visit. */
module AllocatorSubtree {
  import opened CTypes
  import opened Lists
  import opened AllocatorGraph
  import opened AllocatorFree
  import opened AllocatorDominance
  import opened AllocatorRounds

  /** `a` is `n` or a natural ancestor of `n`. */
  ghost predicate Above(g: Graph, rank: seq<nat>, a: nat, n: nat)
    requires Linked(g, rank) && n < |rank|
    decreases rank[n]
  {
    a == n || (n != 0 && g.parent[n].Some? && Above(g, rank, a, g.parent[n].value))
  }

  ghost function Subtree(g: Graph, rank: seq<nat>, x: nat): set<nat>
    requires Linked(g, rank)
  {
    set n: nat | n < |rank| && Above(g, rank, x, n)
  }

  ghost predicate BelowAny(g: Graph, rank: seq<nat>, list: seq<nat>, n: nat)
    requires Linked(g, rank) && n < |rank|
  {
    exists j :: 0 <= j < |list| && Above(g, rank, list[j], n)
  }

  ghost function Subtrees(g: Graph, rank: seq<nat>, list: seq<nat>): set<nat>
    requires Linked(g, rank)
  {
    set n: nat | n < |rank| && BelowAny(g, rank, list, n)
  }

  lemma {:induction false} AboveRank(g: Graph, rank: seq<nat>, a: nat, n: nat)
    requires Linked(g, rank) && n < |rank| && Above(g, rank, a, n)
    ensures a < |rank| && rank[a] <= rank[n] && (a != n ==> rank[a] < rank[n])
    decreases rank[n]
  {
    hide TreeLinks, Mirror, RankedAdoption, Bare, AdoptionsAllocated;
    if a != n { AboveRank(g, rank, a, g.parent[n].value); }
  }

  lemma {:induction false} AboveTrans(g: Graph, rank: seq<nat>, a: nat, b: nat, n: nat)
    requires Linked(g, rank) && b < |rank| && n < |rank| && Above(g, rank, a, b) && Above(g, rank, b, n)
    ensures Above(g, rank, a, n)
    decreases rank[n]
  {
    hide TreeLinks, Mirror, RankedAdoption, Bare, AdoptionsAllocated;
    if b != n { AboveTrans(g, rank, a, b, g.parent[n].value); }
  }

  /** Two ancestors of one allocator lie on one chain. */
  lemma {:induction false} AboveLinear(g: Graph, rank: seq<nat>, a: nat, b: nat, n: nat)
    requires Linked(g, rank) && a < |rank| && b < |rank| && n < |rank|
    requires Above(g, rank, a, n) && Above(g, rank, b, n)
    ensures Above(g, rank, a, b) || Above(g, rank, b, a)
    decreases rank[n]
  {
    hide TreeLinks, Mirror, RankedAdoption, Bare, AdoptionsAllocated;
    if a != n && b != n { AboveLinear(g, rank, a, b, g.parent[n].value); }
  }

  /** Below `x` strictly means below exactly one of its children. */
  lemma {:induction false} AboveChild(g: Graph, rank: seq<nat>, x: nat, n: nat)
    requires Linked(g, rank) && x < |rank| && n < |rank| && Above(g, rank, x, n) && n != x
    ensures exists j :: 0 <= j < |g.children[x]| && Above(g, rank, g.children[x][j], n)
    decreases rank[n]
  {
    hide TreeLinks, Mirror, RankedAdoption, Bare, AdoptionsAllocated;
    var p := g.parent[n].value;
    if p == x {
      ChildIsListed(g, rank, n, x);
      var j :| 0 <= j < |g.children[x]| && g.children[x][j] == n;
    } else {
      AboveChild(g, rank, x, p);
      var j :| 0 <= j < |g.children[x]| && Above(g, rank, g.children[x][j], p);
      assert Above(g, rank, g.children[x][j], n);
    }
  }

  lemma {:induction false} SubtreeSplit(g: Graph, rank: seq<nat>, x: nat)
    requires Linked(g, rank) && x < |rank|
    ensures Subtree(g, rank, x) == {x} + Subtrees(g, rank, g.children[x])
    ensures x !in Subtrees(g, rank, g.children[x])
  {
    hide Above, TreeLinks, Mirror, RankedTree, RankedAdoption, Bare, AdoptionsAllocated;
    var list := g.children[x];
    AboveSelf(g, rank, x);
    forall n: nat | n < |rank| && Above(g, rank, x, n) && n != x
      ensures BelowAny(g, rank, list, n)
    {
      AboveChild(g, rank, x, n);
    }
    forall n: nat, j | n < |rank| && 0 <= j < |list| && Above(g, rank, list[j], n)
      ensures Above(g, rank, x, n) && n != x
    {
      ChildBelow(g, rank, x, list[j], n);
    }
  }

  lemma AboveSelf(g: Graph, rank: seq<nat>, x: nat)
    requires Linked(g, rank) && x < |rank|
    ensures Above(g, rank, x, x)
  {}

  lemma {:induction false} ChildBelow(g: Graph, rank: seq<nat>, x: nat, c: nat, n: nat)
    requires Linked(g, rank) && x < |rank| && c in g.children[x] && n < |rank| && Above(g, rank, c, n)
    ensures c < |rank| && c != 0 && ChildOf(g, c, x)
    ensures Above(g, rank, x, c) && Above(g, rank, x, n) && n != x && rank[x] < rank[c]
  {
    hide TreeLinks, Mirror, RankedAdoption, Bare, AdoptionsAllocated;
    ListedChild(g, rank, c, x);
    AboveSelf(g, rank, x);
    AboveTrans(g, rank, x, c, n);
    AboveRank(g, rank, c, n);
  }

  /** Different children have disjoint subtrees. */
  lemma {:induction false} SiblingsApart(g: Graph, rank: seq<nat>, x: nat, c: nat, d: nat, n: nat)
    requires Linked(g, rank) && x < |rank| && c in g.children[x] && d in g.children[x] && c != d
    requires n < |rank| && Above(g, rank, c, n)
    ensures !Above(g, rank, d, n)
  {
    hide TreeLinks, Mirror, RankedTree, RankedAdoption, Bare, AdoptionsAllocated;
    if Above(g, rank, d, n) {
      ChildBelow(g, rank, x, c, n);
      ChildBelow(g, rank, x, d, n);
      AboveLinear(g, rank, c, d, n);
      if Above(g, rank, c, d) { AboveRank(g, rank, c, x); } else { AboveRank(g, rank, d, x); }
    }
  }

  lemma {:induction false} SubtreesExtend(g: Graph, rank: seq<nat>, x: nat, i: nat)
    requires Linked(g, rank) && x < |rank| && i < |g.children[x]|
    ensures g.children[x][i] < |rank|
    ensures Subtrees(g, rank, g.children[x][..i + 1]) ==
            Subtrees(g, rank, g.children[x][..i]) + Subtree(g, rank, g.children[x][i])
    ensures Subtrees(g, rank, g.children[x][..i]) !! Subtree(g, rank, g.children[x][i])
    ensures Subtree(g, rank, g.children[x][i]) <= Subtree(g, rank, x) && x !in Subtree(g, rank, g.children[x][i])
    ensures x in Subtree(g, rank, x) && x !in Subtrees(g, rank, g.children[x][..i])
    ensures Subtrees(g, rank, g.children[x][..i]) <= Subtree(g, rank, x)
  {
    hide Above, TreeLinks, Mirror, RankedTree, RankedAdoption, Bare, AdoptionsAllocated;
    var list := g.children[x];
    ListedChild(g, rank, list[i], x);
    AboveSelf(g, rank, x);
    forall n: nat | n < |rank| && Above(g, rank, list[i], n) ensures Above(g, rank, x, n) && n != x {
      ChildBelow(g, rank, x, list[i], n);
    }
    forall n: nat, j | n < |rank| && 0 <= j < i && Above(g, rank, list[j], n)
      ensures Above(g, rank, x, n) && n != x && !Above(g, rank, list[i], n)
    {
      ListedChild(g, rank, list[j], x);
      CountDistinct(list, j, i);
      ChildBelow(g, rank, x, list[j], n);
      SiblingsApart(g, rank, x, list[j], list[i], n);
    }
    ExtendSet(g, rank, list, i);
    forall n | n in Subtrees(g, rank, list[..i])
      ensures n in Subtree(g, rank, x) && n != x && n !in Subtree(g, rank, list[i])
    {
      var j :| 0 <= j < |list[..i]| && Above(g, rank, list[..i][j], n);
      assert Above(g, rank, list[j], n);
    }
  }

  lemma ExtendSet(g: Graph, rank: seq<nat>, list: seq<nat>, i: nat)
    requires Linked(g, rank) && i < |list|
    ensures Subtrees(g, rank, list[..i + 1]) == Subtrees(g, rank, list[..i]) + Subtree(g, rank, list[i])
  {
    hide Above, Linked;
    var a, b := list[..i + 1], list[..i];
    forall n: nat | n < |rank|
      ensures BelowAny(g, rank, a, n) <==> BelowAny(g, rank, b, n) || Above(g, rank, list[i], n)
    {
      if BelowAny(g, rank, a, n) {
        var j :| 0 <= j < |a| && Above(g, rank, a[j], n);
        assert j < i ==> a[j] == b[j];
      }
      if BelowAny(g, rank, b, n) {
        var j :| 0 <= j < |b| && Above(g, rank, b[j], n);
        assert a[j] == b[j];
      }
      assert a[i] == list[i];
    }
  }

  // ---------------------------------------------------------------- sums

  function Total(here: seq<nat>, s: set<nat>): nat {
    if here == [] then 0 else
      var i := |here| - 1;
      Total(here[..i], s) + if i in s then here[i] else 0
  }

  lemma {:induction false} TotalUnion(here: seq<nat>, s: set<nat>, t: set<nat>)
    requires s !! t
    ensures Total(here, s + t) == Total(here, s) + Total(here, t)
  {
    if here != [] { TotalUnion(here[..|here| - 1], s, t); }
  }

  lemma {:induction false} TotalEmpty(here: seq<nat>)
    ensures Total(here, {}) == 0
  {
    if here != [] { TotalEmpty(here[..|here| - 1]); }
  }

  lemma {:induction false} TotalOne(here: seq<nat>, i: nat)
    ensures Total(here, {i}) == if i < |here| then here[i] else 0
  {
    if here != [] { TotalOne(here[..|here| - 1], i); }
  }

  lemma {:induction false} TotalUpdate(here: seq<nat>, i: nat, v: nat, s: set<nat>)
    requires i < |here|
    ensures Total(here[i := v], s) == Total(here, s) + if i in s then v - here[i] else 0
  {
    var n := |here| - 1;
    assert here[i := v][..n] == if i == n then here[..n] else here[..n][i := v];
    if i < n { TotalUpdate(here[..n], i, v, s); }
  }

  lemma TotalAppend(here: seq<nat>, v: nat, s: set<nat>)
    ensures Total(here + [v], s) == Total(here, s) + if |here| in s then v else 0
  {
    assert (here + [v])[..|here|] == here;
  }

  function AllJobs(lists: seq<seq<nat>>, s: set<nat>): multiset<nat> {
    if lists == [] then multiset{} else
      var i := |lists| - 1;
      AllJobs(lists[..i], s) + if i in s then multiset(lists[i]) else multiset{}
  }

  lemma {:induction false} JobsUnion(lists: seq<seq<nat>>, s: set<nat>, t: set<nat>)
    requires s !! t
    ensures AllJobs(lists, s + t) == AllJobs(lists, s) + AllJobs(lists, t)
  {
    if lists != [] { JobsUnion(lists[..|lists| - 1], s, t); }
  }

  lemma {:induction false} JobsEmpty(lists: seq<seq<nat>>)
    ensures AllJobs(lists, {}) == multiset{}
  {
    if lists != [] { JobsEmpty(lists[..|lists| - 1]); }
  }

  lemma {:induction false} JobsOne(lists: seq<seq<nat>>, i: nat)
    ensures AllJobs(lists, {i}) == if i < |lists| then multiset(lists[i]) else multiset{}
  {
    if lists != [] { JobsOne(lists[..|lists| - 1], i); }
  }

  /** Lists outside `s` do not matter. */
  lemma {:induction false} JobsElsewhere(lists: seq<seq<nat>>, i: nat, v: seq<nat>, s: set<nat>)
    requires i < |lists| && i !in s
    ensures AllJobs(lists[i := v], s) == AllJobs(lists, s)
  {
    var n := |lists| - 1;
    assert lists[i := v][..n] == if i == n then lists[..n] else lists[..n][i := v];
    if i < n { JobsElsewhere(lists[..n], i, v, s); }
  }

  lemma {:induction false} JobsHere(lists: seq<seq<nat>>, i: nat, s: set<nat>)
    requires i < |lists| && i in s
    ensures AllJobs(lists, s) == AllJobs(lists, s - {i}) + multiset(lists[i])
  {
    assert s == (s - {i}) + {i};
    JobsUnion(lists, s - {i}, {i});
    JobsOne(lists, i);
  }

  lemma JobsAppend(lists: seq<seq<nat>>, s: set<nat>)
    ensures AllJobs(lists + [[]], s) == AllJobs(lists, s)
  {
    assert (lists + [[]])[..|lists|] == lists;
  }

  // ---------------------------------------------------------------- what a free detaches

  /** After the marking phase, the subtree under the top is exactly what was marked. */
  lemma {:induction false} MarkedIsSubtree(g0: Graph, g: Graph, rank: seq<nat>, top: nat, lv: Levels)
    requires Progress(g0, g, rank, top, lv, NOBODY) && Closed(g, lv) && top in lv
    ensures Subtree(g, rank, top) == lv.Keys
  {
    hide Above, TreeLinks, Mirror, RankedTree, RankedAdoption, Bare, AdoptionsAllocated, EdgesKept;
    hide MarkedTree, MarkedAreCut, Settled;
    forall n: nat | n in lv ensures Above(g, rank, top, n) { MarkedBelow(g0, g, rank, top, lv, n); }
    forall n: nat | n < |rank| && Above(g, rank, top, n) ensures n in lv { BelowMarked(g0, g, rank, top, lv, n); }
  }

  lemma {:induction false} MarkedBelow(g0: Graph, g: Graph, rank: seq<nat>, top: nat, lv: Levels, n: nat)
    requires Progress(g0, g, rank, top, lv, NOBODY) && n in lv
    ensures Above(g, rank, top, n)
    decreases lv[n]
  {
    hide TreeLinks, Mirror, RankedTree, RankedAdoption, Bare, AdoptionsAllocated, EdgesKept, MarkedAreCut;
    hide Settled;
    if n != top {
      assert ChildOf(g, n, g.parent[n].value);
      MarkedBelow(g0, g, rank, top, lv, g.parent[n].value);
    }
  }

  lemma {:induction false} BelowMarked(g0: Graph, g: Graph, rank: seq<nat>, top: nat, lv: Levels, n: nat)
    requires Progress(g0, g, rank, top, lv, NOBODY) && Closed(g, lv) && top in lv
    requires n < |rank| && Above(g, rank, top, n)
    ensures n in lv
    decreases rank[n]
  {
    hide TreeLinks, Mirror, RankedAdoption, Bare, AdoptionsAllocated, EdgesKept, MarkedTree, MarkedAreCut;
    hide Settled;
    if n != top {
      var p := g.parent[n].value;
      assert ChildOf(g, n, p);
      BelowMarked(g0, g, rank, top, lv, p);
      ChildOfMarked(g0, g, rank, top, lv, n, p);
    }
  }

  /** While the root is live, its subtree is the live allocators. */
  lemma {:induction false} RootSubtree(g: Graph, rank: seq<nat>, n: nat)
    requires Linked(g, rank) && Settled(g) && Live(g, 0) && n < |rank|
    ensures Above(g, rank, 0, n) <==> Live(g, n)
    decreases rank[n]
  {
    hide TreeLinks, Mirror, RankedAdoption, Bare, AdoptionsAllocated;
    if n != 0 && g.parent[n].Some? {
      assert ChildOf(g, n, g.parent[n].value);
      RootSubtree(g, rank, g.parent[n].value);
    }
  }
}
