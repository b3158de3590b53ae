/** How memory is lost: concrete histories of an allocator tree (memory/Allocator.c:465-478,
    632-645, 736-766). */
module AllocatorExamples {
  import opened CTypes
  import opened Lists
  import opened AllocatorGraph
  import opened AllocatorSiblings
  import opened AllocatorAncestry
  import opened AllocatorDominance
  import opened AllocatorRounds
  import opened AllocatorSubtree
  import opened AllocatorBooks
  import opened AllocatorFree
  import opened Allocator

  function ExampleSizes(): Sizes {
    Sizes(8, 8, 8, 8, 8, 8)
  }

  function FirstGraph(): Graph {
    Graph([Some(0)], [[]], [[]], [[]], [false], [false])
  }

  lemma ChildGraph()
    ensures var g := AfterConnect(AfterNew(FirstGraph()), 0, 1);
      g.freeing == [false, false] && g.adopters == [[], []]
  {}

  /** A tree with one child, 1. */
  method OneChild() returns (t: AllocatorTree)
    ensures fresh(t) && t.Valid() && t.NoLeak() && t.sizes == ExampleSizes() && t.spaceAvailable > 900
    ensures t.graph.freeing == [false, false] && t.graph.adopters == [[], []] && |t.rank| == 2 && t.released == {}
    ensures t.onFree == [[], []] && t.jobAlloc == [] && t.callback == []
  {
    t := new AllocatorTree(1000, ExampleSizes());
    hide Linked, Settled, Accounted, Together, JobsInOrder, Leakless, Subtree, Threaded, AfterConnect, AfterNew;
    ChildGraph();
    var ok, child := t.Child(0);
  }

  /** A tree with one child, 1, and one job, 0, registered there. */
  method OneJob() returns (t: AllocatorTree)
    ensures fresh(t) && t.Valid() && t.NoLeak() && t.sizes == ExampleSizes() && t.spaceAvailable > 100
    ensures t.graph.freeing == [false, false] && t.graph.adopters == [[], []] && |t.rank| == 2 && t.released == {}
    ensures t.onFree == [[], [0]] && t.jobAlloc == [1] && t.callback == [true]
  {
    t := OneChild();
    hide Linked, Settled, Accounted, Together, JobsInOrder, Leakless, Threaded, Pushed;
    var ok, job := t.OnFree(1, true);
    assert t.onFree[0] == [] && t.onFree[1] == [0];
  }

  /** The same after the child has been freed, when it waits for that job to complete. */
  method OneWaiting() returns (t: AllocatorTree)
    ensures fresh(t) && t.Valid() && t.NoLeak() && t.sizes == ExampleSizes() && t.spaceAvailable > 100
    ensures Top(t.graph, t.released, 1) && |t.rank| == 2 && 1 !in t.released
    ensures t.jobAlloc == [1] && t.onFree == [[], [0]]
  {
    t := OneJob();
    hide Linked, Settled, Accounted, Together, JobsInOrder, MovedTo, Leakless, HasParentBesides, Total, Threaded;
    hide ChainDown, JobsCalled, LiveSet;
    var r;
    ghost var freed, jobs, ran := {}, [], t.ran;
    r, freed, jobs := t.Free(1, {0});
    assert r in {Waiting, Gone};
    TheOnlyJob(t.onFree, t.jobAlloc, ran, t.ran, freed, jobs);
  }

  lemma TheOnlyJob(
      lists: seq<seq<nat>>, owner: seq<nat>, ran: seq<nat>, ran': seq<nat>, freed: set<nat>, jobs: seq<nat>)
    requires 1 in freed && JobsCalled([[], [0]], lists, [1], owner, ran, ran', [true], 1, freed, jobs, {0})
    ensures lists == [[], [0]] && owner == [1]
  {
    var before: seq<seq<nat>>, nothing: seq<seq<nat>> := [[], [0]], [[]];
    assert nothing[..0] == [];
    assert AllJobs(nothing, freed) == multiset{};
    assert before[..1] == nothing;
    assert AllJobs(before, freed) == multiset{0};
    assert |jobs| == |multiset(jobs)| == 1;
    assert jobs[0] in multiset(jobs);
    assert jobs == [0] && jobs[1..] == [];
    assert Pending(jobs, [true], {0}) == [0];
  }

  /** Cancelling that job: the subtree waits for nothing and is never released. */
  method CancelledTooLate() returns (t: AllocatorTree)
    ensures t.Valid() && Top(t.graph, t.released, 1) && t.onFree == [[], []] && !t.NoLeak()
  {
    t := OneWaiting();
    hide Linked, Settled, Accounted, Together, JobsInOrder, Leakless, Top;
    assert [0][1..] == [];
    var found := t.CancelOnFree(0);
  }

  /** A job registered when the callbacks have been called: the asynchronous job completes, and the
      subtree still waits, for a job that is never called. */
  method RegisteredTooLate() returns (t: AllocatorTree)
    ensures t.Valid() && Top(t.graph, t.released, 1) && t.onFree == [[], [1]] && 1 !in t.ran && !t.NoLeak()
  {
    t := OneWaiting();
    hide Linked, Settled, Accounted, Together, JobsInOrder, Threaded, Pushed;
    var ok, late := t.OnFree(1, true);
    assert t.onFree[1] == [0, 1] && [0, 1][1..] == [1];
    t.LateNeverCalled();
    ok := t.OnFreeComplete(0);
    assert 1 in t.onFree[1];
  }

  /** A child made under the waiting allocator: it is live in a subtree that is about to go. */
  method ChildTooLate() returns (t: AllocatorTree)
    ensures !t.Valid() && Linked(t.graph, t.rank) && |t.rank| == 3 && Live(t.graph, 2)
    ensures 2 in Subtree(t.graph, t.rank, 1) && t.graph.freeing[1]
  {
    t := OneWaiting();
    hide Linked, Settled, Accounted, Together, JobsInOrder, Leakless, Threaded, Above;
    AboveSelf(t.graph, t.rank, 1);
    ghost var g := t.graph;
    LinkedSize(t.graph, t.rank);
    var ok, child := t.Child(1);
    AboveSelf(t.graph, t.rank, 1);
    assert ok && child == 2;
  }

  // ---------------------------------------------------------------- bytes and order, in numbers

  function NumberSizes(): Sizes {
    Sizes(32, 101, 203, 17, 9, 41)
  }

  /** A root with children 1 and 2 that are unrelated and have not adopted each other's parents. */
  ghost predicate Family(t: AllocatorTree, a: seq<nat>, b: seq<nat>, adopters: seq<nat>, space: int)
    reads t
  {
    && t.Valid() && t.sizes == NumberSizes() && t.maxSpace == 10240 && t.spaceAvailable == space
    && |t.rank| == 3 && t.released == {}
    && t.graph.parent == [Some(0), Some(0), Some(0)] && t.graph.freeing == [false, false, false]
    && t.graph.children == [[2, 1], [], []] && t.graph.adopters == [[], [], adopters]
    && t.graph.hasAdoptions == [false, adopters != [], adopters != []]
    && t.allocations == [[240], a, b]
  }

  lemma FirstGrown()
    ensures var g := AfterConnect(AfterNew(FirstGraph()), 0, 1);
      && g.parent == [Some(0), Some(0)] && g.children == [[1], []] && g.adopters == [[], []]
      && g.freeing == [false, false] && g.hasAdoptions == [false, false]
      && var h := AfterConnect(AfterNew(g), 0, 2);
         && h.parent == [Some(0), Some(0), Some(0)] && h.children == [[2, 1], [], []] && h.adopters == [[], [], []]
         && h.freeing == [false, false, false] && h.hasAdoptions == [false, false, false]
  {
    assert [1] + [] == [1] && [2] + [1] == [2, 1];
  }

  method NumberRoot() returns (t: AllocatorTree)
    ensures fresh(t) && t.Valid() && t.sizes == NumberSizes() && t.maxSpace == 10240 && t.spaceAvailable == 10000
    ensures |t.rank| == 1 && t.released == {} && t.graph == FirstGraph() && t.allocations == [[240]]
  {
    t := new AllocatorTree(10000, NumberSizes());
    hide Linked, Settled, Accounted, Together, JobsInOrder, Leakless, Threaded;
  }

  method FirstOfTwo() returns (t: AllocatorTree)
    ensures fresh(t) && t.Valid() && t.sizes == NumberSizes() && t.maxSpace == 10240 && t.spaceAvailable == 9864
    ensures |t.rank| == 2 && t.released == {} && t.graph == AfterConnect(AfterNew(FirstGraph()), 0, 1)
    ensures t.allocations == [[240], [136]]
  {
    t := NumberRoot();
    hide Linked, Settled, Accounted, Together, JobsInOrder, Leakless, Threaded, Subtree, AfterConnect, AfterNew;
    var ok, child := t.Child(0);
  }

  method TwoChildren() returns (t: AllocatorTree)
    ensures fresh(t) && Family(t, [136], [136], [], 9728)
  {
    t := FirstOfTwo();
    FirstGrown();
    hide Linked, Settled, Accounted, Together, JobsInOrder, Leakless, Threaded, Subtree, AfterConnect, AfterNew;
    var ok, child := t.Child(0);
    assert t.allocations == [[240], [136], [136]];
  }

  method Register(t: AllocatorTree)
    requires Family(t, [136], [136], [], 9728)
    modifies t
    ensures Family(t, [80, 136], [136], [], 9648)
  {
    hide Linked, Settled, Accounted, Together, JobsInOrder, Leakless, Threaded;
    var ok, job := t.OnFree(1, true);
    assert t.allocations[1] == [80, 136];
  }

  method AllocateFifteen(t: AllocatorTree)
    requires Family(t, [80, 136], [136], [], 9648)
    modifies t
    ensures Family(t, [48, 80, 136], [136], [], 9600)
  {
    hide Linked, Settled, Accounted, Together, JobsInOrder, Leakless, Threaded, Holds;
    var ok := t.NewAllocation(1, 15);
    assert t.allocations[1] == [48, 80, 136];
  }

  method GrowToSeventeen(t: AllocatorTree)
    requires Family(t, [48, 80, 136], [136], [], 9600)
    modifies t
    ensures Family(t, [56, 80, 136], [136], [], 9592)
  {
    hide Linked, Settled, Accounted, Together, JobsInOrder, Leakless, Threaded, Holds;
    var ok := t.Realloc(1, 0, 17);
    assert t.allocations[1] == [56, 80, 136];
  }

  lemma Unrelated(g: Graph, rank: seq<nat>)
    requires Linked(g, rank) && |rank| == 3 && g.parent[1] == Some(0) && g.adopters[1] == []
    ensures !Ancestor(g, rank, 2, 1)
  {
    hide TreeLinks, Mirror, RankedTree, RankedAdoption, Bare;
  }

  lemma AdoptionNumbers(g: Graph, adopted: bool)
    requires g.hasAdoptions == [false, adopted, adopted]
    ensures AdoptionCost(NumberSizes(), g, 1, 2) == if adopted then 96 else 208
    ensures !adopted ==>
      AdoptionCells(NumberSizes(), g, [[240], [56, 80, 136], [136]], 1, 2) ==
      [[240], [56, 56, 80, 136], [48, 48, 56, 136]]
    ensures adopted ==>
      AdoptionCells(NumberSizes(), g, [[240], [56, 56, 80, 136], [48, 48, 56, 136]], 1, 2) ==
      [[240], [56, 56, 80, 136], [48, 48, 48, 48, 56, 136]]
  {
    assert [56] + [56, 80, 136] == [56, 56, 80, 136] && [48, 48] + ([56] + [136]) == [48, 48, 56, 136];
    assert [48, 48] + [48, 48, 56, 136] == [48, 48, 48, 48, 56, 136];
  }

  method AdoptOnce(t: AllocatorTree)
    requires Family(t, [56, 80, 136], [136], [], 9592)
    modifies t
    ensures Family(t, [56, 56, 80, 136], [48, 48, 56, 136], [1], 9384)
  {
    Unrelated(t.graph, t.rank);
    AdoptionNumbers(t.graph, false);
    hide Linked, Settled, Accounted, Together, JobsInOrder, Leakless, Threaded, Ancestor, AdoptionCost, AdoptionCells;
    var r := t.Adopt(1, 2);
    assert t.graph.adopters[2] == [1];
  }

  method AdoptAgain(t: AllocatorTree)
    requires Family(t, [56, 56, 80, 136], [48, 48, 56, 136], [1], 9384)
    modifies t
    ensures Family(t, [56, 56, 80, 136], [48, 48, 48, 48, 56, 136], [1, 1], 9288)
  {
    Unrelated(t.graph, t.rank);
    AdoptionNumbers(t.graph, true);
    hide Linked, Settled, Accounted, Together, JobsInOrder, Leakless, Threaded, Ancestor, AdoptionCost, AdoptionCells;
    var r := t.Adopt(1, 2);
    assert t.allocations[2] == [48, 48, 48, 48, 56, 136];
    assert t.graph.adopters[2] == [1, 1];
  }

  /** What a history costs, byte by byte, and in which order its lists grow: a root of 203 bytes, two
      children of 101, a job of 41, 15 bytes grown to 17, and one child adopting the other twice. */
  method InNumbers() returns (t: AllocatorTree)
    ensures t.maxSpace == 10240 && t.spaceAvailable == 9288
    ensures t.allocations == [[240], [56, 56, 80, 136], [48, 48, 48, 48, 56, 136]]
    ensures t.graph.children == [[2, 1], [], []] && t.graph.adopters == [[], [], [1, 1]]
  {
    t := TwoChildren();
    Register(t);
    AllocateFifteen(t);
    GrowToSeventeen(t);
    AdoptOnce(t);
    AdoptAgain(t);
  }

  /** No limit is the limit of an int64_t. */
  method Unlimited() returns (t: AllocatorTree)
    ensures t.maxSpace == 0x7fff_ffff_ffff_ffff && t.spaceAvailable == 0x7fff_ffff_ffff_ffff - 240
  {
    t := new AllocatorTree(0, NumberSizes());
  }

  /** The latest adopter is the one that takes over: whoever is adopted and then freed moves there. */
  method AdoptedThenFreed(t: AllocatorTree, parent: nat, child: nat) returns (adopted: AdoptResult, r: FreeResult)
    requires t.Valid() && parent < |t.rank| && child < |t.rank| && child !in t.released
    modifies t
    ensures adopted == Adopted ==>
      r == Pivoted && t.Valid() && child < |t.graph.parent| && t.graph.parent[child] == Some(parent)
  {
    hide Accounted, Together, JobsInOrder, Leakless, Threaded, Ancestor, AfterAdopt, AdoptionCost, AdoptionCells;
    hide TreeLinks, Mirror, RankedTree, RankedAdoption, Bare, AdoptionsAllocated, Settled;
    ghost var g, rank := t.graph, t.rank;
    adopted := t.Adopt(parent, child);
    r := AlreadyFreeing;
    if adopted == Adopted {
      if child == 0 { RootIsAncestor(g, rank, parent); }
      hide FreedExactly, JobsCalled, TooFarBelow, HasParentBesides, ChainDown, Total;
      ghost var freed, jobs;
      r, freed, jobs := t.Free(child, {});
    }
  }

  // ---------------------------------------------------------------- too deep a tree

  /** Allocators 0 to n - 1, each the only child of the one before. */
  ghost predicate Line(g: Graph, n: nat) {
    && Sized(g, n) && n > 0 && g.parent[0] == Some(0)
    && (forall k :: 0 < k < n ==> g.parent[k] == Some(k - 1))
    && (forall k :: 0 <= k < n ==> g.adopters[k] == [] && !g.freeing[k])
  }

  lemma LineLink(g: Graph, n: nat, c: nat, p: nat)
    requires Line(g, n) && c < n && ParentCount(g, c, p) > 0
    ensures p == if c == 0 then 0 else c - 1
  {}

  lemma LineGrows(g: Graph, n: nat)
    requires Line(g, n)
    ensures Line(AfterConnect(AfterNew(g), n - 1, n), n + 1)
  {}

  lemma {:induction false} LineDown(g: Graph, n: nat, path: seq<nat>, last: nat, i: nat)
    requires Line(g, n) && ChainDown(g, 1, path, last) && i < |path|
    ensures path[i] == i + 1
  {
    hide ParentCount, Line;
    if i > 0 {
      LineDown(g, n, path, last, i - 1);
      LineSized(g, n);
      assert ParentCount(g, path[i], path[i - 1]) > 0;
      LineLink(g, n, path[i], path[i - 1]);
    }
  }

  lemma LineSized(g: Graph, n: nat)
    requires Line(g, n)
    ensures Sized(g, n)
  {}

  lemma {:induction false} LineAvoiding(g: Graph, n: nat, path: seq<nat>, last: nat, i: nat)
    requires Line(g, n) && ChainAvoiding(g, 1, path, last) && i < |path|
    ensures path[i] == 0
  {
    hide ParentCount, Line;
    if i > 0 {
      LineAvoiding(g, n, path, last, i - 1);
      LineSized(g, n);
      assert ParentCount(g, path[i], path[i - 1]) > 0;
      LineLink(g, n, path[i], path[i - 1]);
    }
  }

  /** The last of a line of 10001 is too far below the second. */
  lemma {:induction false} LineTooDeep(g: Graph)
    requires Line(g, 10001)
    ensures TooFarBelow(g, 1, 10000)
  {
    hide ParentCount;
    forall path | ChainDown(g, 1, path, 10000) ensures |path| >= MAX_DEPTH {
      LineDown(g, 10001, path, 10000, |path| - 1);
    }
    if HasParentBesides(g, 1, 10000) {
      var path :| ChainAvoiding(g, 1, path, 10000);
      LineAvoiding(g, 10001, path, 10000, |path| - 1);
    }
  }

  /** In a line of 10000 no chain down from the second has as many. */
  lemma {:induction false} LineShallow(g: Graph, path: seq<nat>, last: nat)
    requires Line(g, 10000) && ChainDown(g, 1, path, last)
    ensures |path| <= 9999
  {
    hide ParentCount;
    LineDown(g, 10000, path, last, |path| - 1);
  }

  /** A line of `i + 1` in a tree with enough memory left. */
  ghost predicate LineOf(t: AllocatorTree, i: nat)
    reads t
  {
    && t.Valid() && t.sizes == ExampleSizes() && t.released == {} && |t.rank| == i + 1
    && t.spaceAvailable == 1000000 - 16 * i
    && Line(t.graph, i + 1)
  }

  method LongerLine(t: AllocatorTree, i: nat)
    requires LineOf(t, i) && i < 10000
    modifies t
    ensures LineOf(t, i + 1)
  {
    hide Linked, Settled, Accounted, Together, JobsInOrder, Leakless, Threaded, Subtree, AfterConnect, AfterNew;
    hide Line;
    LineGrows(t.graph, i + 1);
    LineLive(t.graph, i + 1, i);
    var ok, child := t.Child(i);
  }

  method LineOfOne() returns (t: AllocatorTree)
    ensures fresh(t) && LineOf(t, 0)
  {
    t := new AllocatorTree(1000000, ExampleSizes());
    FirstLine();
    hide Linked, Settled, Accounted, Together, JobsInOrder, Leakless, Threaded, Line;
  }

  /** A line of `n + 1`. */
  method LineTree(n: nat) returns (t: AllocatorTree)
    requires n <= 10000
    ensures fresh(t) && LineOf(t, n)
  {
    t := LineOfOne();
    hide LineOf;
    var i := 0;
    while i < n
      invariant 0 <= i <= n && fresh(t) && LineOf(t, i)
    {
      LongerLine(t, i);
      i := i + 1;
    }
  }

  lemma FirstLine()
    ensures Line(FirstGraph(), 1)
  {}

  lemma LineLive(g: Graph, n: nat, k: nat)
    requires Line(g, n) && k < n
    ensures Live(g, k) && Sized(g, n) && g.adopters[k] == []
  {}

  /** Freeing the top of 10000 levels stops the program ... */
  method TooDeepTree() returns (t: AllocatorTree, r: FreeResult)
    ensures |t.rank| == 10001 && r == Abandoned
  {
    t := LineTree(10000);
    LineTooDeep(t.graph);
    LineLive(t.graph, 10001, 1);
    hide Linked, Settled, Accounted, Together, JobsInOrder, Leakless, Threaded, Subtree, Line;
    hide TooFarBelow, ChainDown, FreedExactly, JobsCalled, MovedTo, HasParentBesides, Total;
    ghost var freed, jobs;
    r, freed, jobs := t.Free(1, {});
  }

  /** ... and the top of one less does not. */
  method DeepEnoughTree() returns (t: AllocatorTree, r: FreeResult)
    ensures |t.rank| == 10000 && r in {Waiting, Gone}
  {
    t := LineTree(9999);
    LineLive(t.graph, 10000, 1);
    hide Linked, Settled, Accounted, Together, JobsInOrder, Leakless, Threaded, Subtree, Line;
    hide TooFarBelow, ChainDown, FreedExactly, JobsCalled, MovedTo, HasParentBesides, Total;
    ghost var freed, jobs;
    ghost var g := t.graph;
    r, freed, jobs := t.Free(1, {});
    if r == Abandoned {
      ghost var path, n :| |path| == MAX_DEPTH && ChainDown(g, 1, path, n);
      LineShallow(g, path, n);
      assert false;
    }
  }
}
