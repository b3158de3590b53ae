/** The hierarchical allocator (memory/Allocator.c). */
module Allocator {
  import opened CTypes
  import opened Lists
  import opened AllocatorGraph
  import opened AllocatorSiblings
  import opened AllocatorFree
  import opened AllocatorDominance
  import opened AllocatorRounds
  import opened AllocatorSubtree
  import opened AllocatorAncestry
  import opened AllocatorBooks

  /** How pivotChildrenToAdoptedParents() ends: the allocator was adopted and only moved, it is to
      be freed, or the tree was 10000 levels deep and the program stops. */
  datatype PivotResult = Moved | Doomed | TooDeep

  const MAX_DEPTH: nat := 10000

  /** sizeof() of the structures that the allocator puts into its own memory. */
  datatype Sizes = Sizes(allocation: nat, allocator: nat, first: nat, adoptions: nat, list: nat, job: nat)

  /** How Allocator__free() ends: nothing to do, a byte count that is off at the root (the program
      stops), moved to an adopter, too deep (the program stops), waiting for asynchronous jobs, or
      memory released. */
  datatype FreeResult = AlreadyFreeing | Unaccounted | Pivoted | Abandoned | Waiting | Gone

  /** How Allocator__adopt() ends: the parent is freeing, the child is (the program stops), the child
      is an ancestor of the parent, memory runs out (the program stops), or the adoption is made. */
  datatype AdoptResult = Ignored | Refused | Meaningless | OutOfMemory | Adopted

  /** How Allocator__disown() ends: one of the two is freeing, the child had moved under the parent
      and is freed, the child is an ancestor of the parent, there is no adoption (the program stops),
      or the adoption is gone. */
  datatype DisownResult = NoneOfOurs | ChildFreed(how: FreeResult) | NeverAdopted | NoAdoption | Unlinked

  const WORD_SIZE: nat := 8
  const INT64_MAX: nat := 0x7fff_ffff_ffff_ffff

  /** getRealSize(), without canaries. */
  function RealSize(sizes: Sizes, size: nat): nat {
    (size + WORD_SIZE - 1) / WORD_SIZE * WORD_SIZE + sizes.allocation
  }

  /** The block behind an allocation's header holds what was asked for, in the fewest whole words of
      8 bytes. */
  ghost predicate Holds(sizes: Sizes, cell: nat, size: nat) {
    && cell >= sizes.allocation + size
    && (cell - sizes.allocation) % 8 == 0
    && cell - sizes.allocation < size + 8
  }

  /** That fixes the real size, which is the least multiple of 8 that will do, and grows with the
      request. */
  lemma RealSizeLeast(sizes: Sizes, size: nat, other: nat)
    ensures Holds(sizes, RealSize(sizes, size), size)
    ensures Holds(sizes, other, size) <==> other == RealSize(sizes, size)
    ensures other >= sizes.allocation + size && (other - sizes.allocation) % 8 == 0 ==> other >= RealSize(sizes, size)
    ensures size <= other ==> RealSize(sizes, size) <= RealSize(sizes, other)
  {
    var words := (size + 7) / 8;
    assert RealSize(sizes, size) == words * 8 + sizes.allocation;
    if size <= other { assert words <= (other + 7) / 8; }
    if other >= sizes.allocation {
      var block := other - sizes.allocation;
      assert block == block / 8 * 8 + block % 8;
    }
  }

  /** More allocations, latest first, on the list of `context`. */
  function Pushed(allocations: seq<seq<nat>>, context: nat, cells: seq<nat>): seq<seq<nat>>
    requires context < |allocations|
  {
    allocations[context := cells + allocations[context]]
  }

  /** Two list cells, and an adoptions structure for whoever has none yet. */
  function AdoptionCost(sizes: Sizes, g: Graph, parent: nat, child: nat): nat
    requires parent < |g.hasAdoptions| && child < |g.hasAdoptions|
  {
    2 * RealSize(sizes, sizes.list) +
    (if g.hasAdoptions[parent] then 0 else RealSize(sizes, sizes.adoptions)) +
    (if g.hasAdoptions[child] then 0 else RealSize(sizes, sizes.adoptions))
  }

  function AdoptionCells(sizes: Sizes, g: Graph, allocations: seq<seq<nat>>, parent: nat, child: nat): seq<seq<nat>>
    requires parent < |g.hasAdoptions| && child < |g.hasAdoptions| && |allocations| == |g.hasAdoptions|
  {
    var structure, cell := [RealSize(sizes, sizes.adoptions)], RealSize(sizes, sizes.list);
    var a := if g.hasAdoptions[parent] then allocations else Pushed(allocations, parent, structure);
    var b := if g.hasAdoptions[child] then a else Pushed(a, child, structure);
    Pushed(b, child, [cell, cell])
  }

  /** The free of `top` turned the links g0 into g and freed exactly `freed`. */
  ghost predicate FreedExactly(g0: Graph, g: Graph, top: nat, freed: set<nat>)
    requires Sized(g0, |g0.parent|) && Sized(g, |g0.parent|)
  {
    // the allocators that the root reaches only through `top`, none of them 10000 levels below it
    && top in freed
    && (forall n: nat {:trigger HasParentBesides(g0, top, n)} :: Live(g0, n) ==>
          (n in freed <==> !HasParentBesides(g0, top, n)))
    && LiveSet(g) == LiveSet(g0) - freed && freed <= LiveSet(g0)
    && (forall n :: n in freed ==> exists path :: |path| < MAX_DEPTH && ChainDown(g0, top, path, n))
    // every survivor keeps exactly its links to other survivors
    && (forall n: nat, p: nat {:trigger ParentCount(g, n, p)} :: Live(g, n) && p < |g0.parent| ==>
          ParentCount(g, n, p) == if Live(g, p) then ParentCount(g0, n, p) else 0)
  }

  /** An allocator that the free of `top` would have to take along, at the end only of chains of at
      least 10000 allocators. */
  ghost predicate TooFarBelow(g: Graph, top: nat, n: nat)
    requires Sized(g, |g.parent|)
  {
    && Live(g, n) && !HasParentBesides(g, top, n)
    && forall path :: ChainDown(g, top, path, n) ==> |path| >= MAX_DEPTH
  }

  /** A free that comes to its end has met none of those. */
  lemma FreedAreShallow(g0: Graph, g: Graph, top: nat, freed: set<nat>, n: nat)
    requires Sized(g0, |g0.parent|) && Sized(g, |g0.parent|) && FreedExactly(g0, g, top, freed)
    ensures !TooFarBelow(g0, top, n)
  {}

  lemma {:induction false} DoomedAreFreed(g0: Graph, g: Graph, rank: seq<nat>, top: nat, lv: Levels)
    requires Progress(g0, g, rank, top, lv, NOBODY) && Closed(g, lv) && top in lv
    requires forall n: nat :: n in lv ==> lv[n] < MAX_DEPTH - 1
    ensures Sized(g0, |rank|) && Sized(g, |rank|) && FreedExactly(g0, g, top, lv.Keys)
  {
    hide TreeLinks, Mirror, RankedTree, RankedAdoption, Bare, AdoptionsAllocated, EdgesKept, MarkedTree;
    hide MarkedAreCut, Settled, MarkedSet, Closed, HasParentBesides, ChainDown;
    FreeMarksDominated(g0, g, rank, top, lv);
    LiveAfter(g0, g, rank, top, lv);
    MarkedOrLive(g0, g, rank, top, lv);
    forall n | n in lv.Keys ensures exists path :: |path| < MAX_DEPTH && ChainDown(g0, top, path, n) {
      LevelIsDepth(g0, g, rank, top, lv, n);
    }
  }

  /** Every job of a freed allocator that has a callback has been called, once; the asynchronous
      ones are left on the list of `top` and belong to it. */
  ghost predicate JobsCalled(
      lists0: seq<seq<nat>>, lists: seq<seq<nat>>, owner0: seq<nat>, owner: seq<nat>, ran0: seq<nat>, ran: seq<nat>,
      callback: seq<bool>, top: nat, freed: set<nat>, jobs: seq<nat>, async: set<nat>)
  {
    && multiset(jobs) == AllJobs(lists0, freed) && Known(jobs, |callback|)
    && ran == ran0 + Runnable(jobs, callback)
    && top < |lists0| && lists == lists0[top := Pending(jobs, callback, async)]
    && Reassigned(owner0, owner, AllJobs(lists0, freed), top)
  }

  class AllocatorTree {
    const sizes: Sizes
    const maxSpace: int

    /** graph.children is what the pointers in `siblings` mean; the code walks and mends those. */
    var graph: Graph
    var siblings: Siblings
    /** Witness that the links are acyclic. */
    ghost var rank: seq<nat>

    var spaceAvailable: int
    /** Per allocator: the sizes in its allocations list, head first, and their sum. */
    var allocations: seq<seq<nat>>
    var allocatedHere: seq<nat>

    /** Per allocator: its onFree list.  Per job: the allocator it is registered with, and whether
        it has a callback. */
    var onFree: seq<seq<nat>>
    var jobAlloc: seq<nat>
    var callback: seq<bool>

    /** The callbacks that have been called, in order; the jobs that were registered when a free had
        already called its callbacks; and the allocators whose memory is gone. */
    ghost var ran: seq<nat>
    ghost var late: seq<nat>
    ghost var released: set<nat>

    ghost predicate Valid()
      reads this
    {
      && Linked(graph, rank) && Settled(graph) && Threaded(graph, siblings)
      && |allocations| == |allocatedHere| == |onFree| == |rank|
      && |callback| == |jobAlloc|
      && Accounted(allocatedHere, allocations, released, spaceAvailable, maxSpace)
      && Together(graph, released)
      && JobsInOrder(graph, released, onFree, jobAlloc, late + ran)
    }

    /** Pointer-to-pointer walk that unlinks the first cell holding `target`. */
    static method DisconnectAllocator(target: nat, list: seq<nat>) returns (found: bool, rest: seq<nat>)
      ensures found <==> target in list
      ensures rest == RemoveFirst(list, target)
    {
      found, rest := false, list;
      var i := 0;
      while i < |list| && !found
        invariant 0 <= i <= |list|
        invariant !found ==> rest == list && target !in list[..i]
        invariant !found ==> RemoveFirst(list, target) == list[..i] + RemoveFirst(list[i..], target)
        invariant found ==> target in list && rest == RemoveFirst(list, target)
        decreases |list| - i, !found
      {
        if list[i] == target {
          rest := list[..i] + list[i + 1..];
          found := true;
        } else {
          assert list[i..][1..] == list[i + 1..];
          assert list[..i] + [list[i]] == list[..i + 1];
          i := i + 1;
        }
      }
      if !found { assert list[..i] == list; }
    }

    /** disconnectAdopted(); `ok` is false when one of its assertions fails, and then the program
        stops. */
    method DisconnectAdopted(parent: nat, child: nat) returns (ok: bool)
      requires Linked(graph, rank) && child < |rank| && parent < |rank|
      modifies this`graph
      ensures ok <==> Count(old(graph).adopters[child], parent) > 0
      ensures graph == if ok then AfterDisconnectAdopted(old(graph), parent, child) else old(graph)
    {
      hide TreeLinks, RankedTree, RankedAdoption, Bare, RemoveFirst, Count;
      EdgeListed(graph, rank, parent, child);
      if !graph.hasAdoptions[parent] || graph.adopted[parent] == [] { return false; }
      if !graph.hasAdoptions[child] || graph.adopters[child] == [] { return false; }
      var found, list := DisconnectAllocator(child, graph.adopted[parent]);
      if !found { return false; }
      graph := graph.(adopted := graph.adopted[parent := list]);
      found, list := DisconnectAllocator(parent, graph.adopters[child]);
      assert found;
      graph := graph.(adopters := graph.adopters[child := list]);
      return true;
    }

    /** disconnect(), with its assertions. */
    method Disconnect(context: nat)
      requires Linked(graph, rank) && Threaded(graph, siblings) && 0 < context < |rank| && graph.parent[context].Some?
      modifies this`graph, this`siblings
      ensures old(graph.parent[context].value) < |rank| && graph == AfterDisconnect(old(graph), context)
      ensures Threaded(graph, siblings)
    {
      hide Linked, Threaded, RemoveFirst;
      LinkedSize(graph, rank);
      ThreadedSize(graph, siblings);
      DisconnectAsserts(graph, rank, siblings, context);
      UnthreadKeeps(graph, rank, siblings, context);
      ghost var s := siblings;
      var parent, next, last := graph.parent[context].value, siblings.next[context], siblings.last[context];
      if last.Some? {
        assert siblings.next[last.value] == Some(context) && siblings.firstChild[parent] != Some(context);
        siblings := siblings.(next := siblings.next[last.value := next]);
      } else {
        assert siblings.firstChild[parent] == Some(context);
        siblings := siblings.(firstChild := siblings.firstChild[parent := next]);
      }
      if next.Some? {
        assert siblings.last[next.value] == Some(context);
        siblings := siblings.(last := siblings.last[next.value := last]);
      }
      siblings := siblings.(next := siblings.next[context := None], last := siblings.last[context := None]);
      assert siblings == Unthread(s, parent, context);
      graph := AfterDisconnect(graph, context);
    }

    /** connect(), with its assertions. */
    method Connect(parent: nat, child: nat)
      requires Linked(graph, rank) && Threaded(graph, siblings) && 0 < child < |rank| && graph.parent[child].None?
      requires parent < |rank| && parent != child
      modifies this`graph, this`siblings
      ensures graph == AfterConnect(old(graph), parent, child)
      ensures Threaded(graph, siblings)
    {
      hide Linked, Threaded;
      LinkedSize(graph, rank);
      ThreadedSize(graph, siblings);
      ConnectAsserts(graph, rank, siblings, parent, child);
      assert graph.parent[child] == siblings.last[child] == siblings.next[child] == None;
      assert child !in graph.children[parent];
      ThreadKeeps(graph, rank, siblings, parent, child);
      ghost var s := siblings;
      var first := siblings.firstChild[parent];
      siblings := siblings.(next := siblings.next[child := first]);
      if first.Some? { siblings := siblings.(last := siblings.last[first.value := Some(child)]); }
      siblings := siblings.(firstChild := siblings.firstChild[parent := Some(child)]);
      assert siblings == Thread(s, parent, child);
      graph := AfterConnect(graph, parent, child);
    }

    /** Lines 360-362. */
    method PivotToAdopter(context: nat)
      requires Linked(graph, rank) && Threaded(graph, siblings) && context < |rank| && graph.parent[context].Some?
      requires graph.adopters[context] != []
      modifies this`graph, this`siblings
      ensures old(graph.parent[context].value) < |rank| && old(graph.adopters[context][0]) < |rank|
      ensures graph == AfterPivot(old(graph), context)
      ensures Threaded(graph, siblings)
    {
      hide Threaded, TreeLinks, Mirror, RankedTree, RankedAdoption, Bare, AdoptionsAllocated;
      var adopter := graph.adopters[context][0];
      PivotLinked(graph, rank, context);
      CountIn(graph.adopters[context], adopter);
      AdoptionEdge(graph, rank, context, adopter);
      assert !graph.freeing[adopter];
      assert rank[adopter] < rank[context] by { AdopterIndex(graph, rank, context, 0); }
      DisconnectLinked(graph, rank, context);
      ConnectLinked(AfterDisconnect(graph, context), rank, adopter, context);
      Disconnect(context);
      Connect(adopter, context);
      ghost var g := graph;
      var ok := DisconnectAdopted(adopter, context);
      assert ok;
      LinkedSize(graph, rank);
      ThreadedSame(g, graph, siblings);
    }

    /** Lines 366-369: cut every adoption edge down from `context`. */
    method DropAdoptions(context: nat, ghost g0: Graph, ghost top: nat, ghost lv: Levels)
      requires Progress(g0, graph, rank, top, lv, context) && context < |rank|
      modifies this`graph
      ensures Progress(g0, graph, rank, top, lv, context)
      ensures graph.adopted[context] == [] && graph.adopters[context] == old(graph.adopters[context])
      ensures graph.parent == old(graph.parent) && graph.freeing == old(graph.freeing)
      ensures graph.children == old(graph.children)
    {
      hide TreeLinks, Mirror, RankedTree, RankedAdoption, Bare, AdoptionsAllocated, EdgesKept, MarkedSet, MarkedTree;
      hide MarkedAreCut, Settled;
      var list := graph.adopted[context];
      var i := 0;
      while i < |list|
        invariant 0 <= i <= |list|
        invariant Progress(g0, graph, rank, top, lv, context)
        invariant graph.adopted[context] == list[i..] && graph.adopters[context] == old(graph.adopters[context])
        invariant graph.parent == old(graph.parent) && graph.freeing == old(graph.freeing)
        invariant graph.children == old(graph.children)
      {
        var c := list[i];
        AdoptedChild(graph, rank, context, c);
        assert !graph.freeing[c];
        DropOneProgress(g0, graph, rank, top, lv, context, c);
        var ok := DisconnectAdopted(context, c);
        assert ok;
        i := i + 1;
      }
    }

    /** Lines 355-375 for an allocator under a marked one: rescue it or mark it.  Of the child lists
        of marked allocators only its own parent's changes, and only when it is rescued. */
    method PivotOrMark(context: nat, maxDepth: nat, ghost top: nat, ghost g0: Graph, ghost g1: Graph,
                       ghost lv1: Levels, ghost lv: Levels, ghost done: set<nat>, ghost parent: nat)
      returns (out: nat, ghost lv': Levels)
      requires Round(g0, g1, graph, rank, top, lv1, lv, maxDepth, done, parent)
      requires Live(graph, context) && context != 0 && graph.parent[context] == Some(parent)
      requires parent in lv1 && lv1[parent] + 1 == maxDepth && Threaded(graph, siblings)
      modifies this`graph, this`siblings
      ensures Round(g0, g1, graph, rank, top, lv1, lv', maxDepth, done, parent)
      ensures OthersKept(old(graph), graph, context)
      ensures !(ChildOf(graph, context, parent) && Live(graph, context))
      ensures Grown(lv, lv', out)
      ensures Threaded(graph, siblings)
      ensures ListsKept(old(graph), graph, lv1, parent) && parent < |rank| && |graph.children| == |rank|
      ensures graph.children[parent] ==
              if out == 0 then RemoveFirst(old(graph.children[parent]), context) else old(graph.children[parent])
    {
      hide Linked, EdgesKept, MarkedSet, MarkedTree, MarkedAreCut, Settled, Round, Threaded, RemoveFirst;
      RoundBasics(g0, g1, graph, rank, top, lv1, lv, maxDepth, done, parent);
      if graph.adopters[context] != [] {
        PivotRound(g0, g1, graph, rank, top, lv1, lv, maxDepth, done, context, parent);
        MarkedNotLive(g0, g1, graph, rank, top, lv1, lv, maxDepth, done, parent);
        PivotLists(graph, rank, lv1, context, parent);
        PivotToAdopter(context);
        return 0, lv;
      }
      ghost var g := graph;
      Weaken(g0, graph, rank, top, lv, context);
      DropAdoptions(context, g0, top, lv);
      assert !graph.freeing[context];
      MarkRound(g0, g1, g, graph, rank, top, lv1, lv, maxDepth, done, context, parent);
      graph := AfterMark(graph, context);
      RoundBasics(g0, g1, graph, rank, top, lv1, lv[context := maxDepth], maxDepth, done, parent);
      ThreadedSame(g, graph, siblings);
      return 1, lv[context := maxDepth];
    }

    /** pivotChildrenToAdoptedParents0() on the parent of the allocators that the round visits.  The
        walk follows nextSibling, read just before each visit, in the list as it then is: those
        marked so far, then those still to come. */
    method PivotChildren(context: nat, maxDepth: nat, ghost top: nat, ghost g0: Graph, ghost g1: Graph,
                         ghost lv1: Levels, ghost lv: Levels, ghost done: set<nat>)
      returns (out: nat, ghost lv': Levels)
      requires Round(g0, g1, graph, rank, top, lv1, lv, maxDepth, done, NOBODY)
      requires context in lv1 && lv1[context] + 1 == maxDepth && context !in done && Threaded(graph, siblings)
      modifies this`graph, this`siblings
      ensures Round(g0, g1, graph, rank, top, lv1, lv', maxDepth, done + {context}, NOBODY)
      ensures Grown(lv, lv', out)
      ensures Threaded(graph, siblings) && ListsKept(old(graph), graph, lv1, context)
    {
      hide Linked, Progress, Settled, Round, Threaded, RemoveFirst, ListsKept, At, HalfWalked, LeafLoop, Grown;
      hide NoRepeats;
      RoundBasics(g0, g1, graph, rank, top, lv1, lv, maxDepth, done, NOBODY);
      out, lv' := 0, lv;
      GrownNot(lv);
      ghost var list := graph.children[context];
      ChildrenStart(g0, g1, graph, rank, top, lv1, lv, maxDepth, done, context);
      ThreadedSize(graph, siblings);
      WalkStart(graph, siblings, context);
      ListsStart(graph, lv1, context);
      var child := siblings.firstChild[context];
      ghost var i, marked: seq<nat> := 0, [];
      NothingWalked(list);
      while child.Some?
        invariant 0 <= i <= |list| && child == At(list, i)
        invariant Round(g0, g1, graph, rank, top, lv1, lv', maxDepth, done, context)
        invariant Grown(lv, lv', out)
        invariant LeafLoop(graph, list, i, context)
        invariant Threaded(graph, siblings) && ListsKept(old(graph), graph, lv1, context)
        invariant context < |graph.children| && HalfWalked(graph.children[context], marked, list, i)
        decreases |list| - i
      {
        ghost var g := graph;
        AtCell(list, i);
        LeafNext(graph, list, i, context);
        RoundBasics(g0, g1, graph, rank, top, lv1, lv', maxDepth, done, context);
        WalkOn(graph, siblings, context, marked, list, i);
        var next := siblings.next[child.value];
        ghost var before := lv';
        var n;
        n, lv' := PivotOrMark(child.value, maxDepth, top, g0, g1, lv1, lv', done, context);
        LeafLoopStep(g, graph, list, i, context);
        ListsTwice(old(graph), g, graph, lv1, context);
        GrownTwice(lv, before, lv', out, n);
        if n != 0 { marked := marked + [list[i]]; }
        out, i, child := out + n, i + 1, next;
      }
      AtCell(list, i);
      ChildrenDone(g0, g1, graph, rank, top, lv1, lv', maxDepth, done, context, list);
    }

    /** pivotChildrenToAdoptedParents0() below the top: visits every allocator of depth `maxDepth`
        under `context`.  The child lists above the last level do not change under the walk. */
    method PivotLevel(context: nat, depth: nat, maxDepth: nat, ghost top: nat, ghost g0: Graph, ghost g1: Graph,
                      ghost lv1: Levels, ghost lv: Levels, ghost done: set<nat>)
      returns (out: nat, ghost lv': Levels)
      requires Round(g0, g1, graph, rank, top, lv1, lv, maxDepth, done, NOBODY)
      requires context in lv1 && lv1[context] == depth < maxDepth && Threaded(graph, siblings)
      requires done !! Under(g1, lv1, [context], depth, maxDepth)
      modifies this`graph, this`siblings
      ensures Round(g0, g1, graph, rank, top, lv1, lv', maxDepth,
                    done + Under(g1, lv1, [context], depth, maxDepth), NOBODY)
      ensures Grown(lv, lv', out)
      ensures Threaded(graph, siblings) && InnerListsKept(old(graph), graph, lv1, maxDepth)
      decreases maxDepth - depth
    {
      hide Linked, Progress, Settled, Round, Under, Threaded, ListsKept, At, InnerListsKept, Count, InnerList;
      hide Grown, Seen;
      RoundBasics(g0, g1, graph, rank, top, lv1, lv, maxDepth, done, NOBODY);
      if depth + 1 == maxDepth {
        UnderSelf(g1, lv1, context, depth);
        out, lv' := PivotChildren(context, maxDepth, top, g0, g1, lv1, lv, done);
        InnerLists(old(graph), graph, lv1, maxDepth, context);
        return;
      }
      out, lv' := 0, lv;
      GrownNot(lv);
      ghost var list := graph.children[context];
      UnderChildren(g0, g1, graph, rank, top, lv1, lv, maxDepth, done, context, depth);
      InnerChildren(g0, g1, graph, rank, top, lv1, lv, maxDepth, done, context);
      ghost var seen := done;
      SeenStart(g1, lv1, list, depth + 1, maxDepth, done);
      ThreadedSize(graph, siblings);
      WalkStart(graph, siblings, context);
      InnerListsStart(graph, lv1, maxDepth);
      var child := siblings.firstChild[context];
      ghost var i := 0;
      while child.Some?
        invariant 0 <= i <= |list| && child == At(list, i)
        invariant Seen(g1, lv1, list, i, depth + 1, maxDepth, done, seen)
        invariant Round(g0, g1, graph, rank, top, lv1, lv', maxDepth, seen, NOBODY)
        invariant Grown(lv, lv', out)
        invariant Threaded(graph, siblings) && InnerListsKept(old(graph), graph, lv1, maxDepth)
        invariant context < |graph.children| && graph.children[context] == list
        decreases |list| - i
      {
        ghost var g := graph;
        AtCell(list, i);
        RoundBasics(g0, g1, graph, rank, top, lv1, lv', maxDepth, seen, NOBODY);
        InnerNext(list, lv1, i, depth + 1);
        SeenTurn(g1, lv1, list, i, depth + 1, maxDepth, done, seen);
        WalkStep(graph, siblings, context, i);
        var next := siblings.next[child.value];
        ghost var before := lv';
        var n;
        n, lv' := PivotLevel(child.value, depth + 1, maxDepth, top, g0, g1, lv1, lv', seen);
        GrownTwice(lv, before, lv', out, n);
        InnerListsTwice(old(graph), g, graph, lv1, maxDepth, context);
        seen := seen + Under(g1, lv1, [list[i]], depth + 1, maxDepth);
        out, i, child := out + n, i + 1, next;
      }
      AtCell(list, i);
      SeenAll(g1, lv1, list, i, depth + 1, maxDepth, done, seen);
    }

    /** pivotChildrenToAdoptedParents(): round 0 visits `top` itself, round i its depth-i
        descendants, until a round marks nobody. */
    method PivotChildrenToAdoptedParents(top: nat) returns (r: PivotResult, ghost lv: Levels)
      requires Linked(graph, rank) && Settled(graph) && Live(graph, top) && Threaded(graph, siblings)
      modifies this`graph, this`siblings
      ensures r.Moved? <==> old(graph.adopters[top]) != []
      ensures r.Moved? ==> MovedTo(old(graph), graph, rank, top)
      ensures !r.Moved? ==> Progress(old(graph), graph, rank, top, lv, NOBODY) && top in lv
      ensures r.Doomed? ==> Closed(graph, lv) && forall n: nat :: n in lv ==> lv[n] < MAX_DEPTH - 1
      ensures r.TooDeep? ==> exists n: nat :: n in lv && lv[n] == MAX_DEPTH - 1
      ensures Threaded(graph, siblings)
    {
      hide Linked, EdgesKept, MarkedSet, MarkedTree, MarkedAreCut, Settled, Round, Rounds, Under, Closed, Threaded;
      hide MovedTo;
      ghost var g0 := graph;
      lv := map[];
      StartProgress(graph, rank, top);
      LiveHasParent(graph, rank, top);
      if graph.adopters[top] != [] {
        MovedLinks(graph, rank, top);
        PivotToAdopter(top);
        return Moved, lv;
      }
      Weaken(g0, graph, rank, top, lv, top);
      DropAdoptions(top, g0, top, lv);
      LinkedSize(graph, rank);
      ThreadedSame(g0, graph, siblings);
      FirstRound(g0, graph, rank, top);
      LiveHasParent(g0, rank, top);
      if graph.parent[top] != Some(top) { Disconnect(top); }
      assert !graph.freeing[top];
      ThreadedSame(graph, AfterMark(graph, top), siblings);
      graph := AfterMark(graph, top);
      lv := map[top := 0];
      var i := 1;
      while i < MAX_DEPTH
        invariant 1 <= i <= MAX_DEPTH
        invariant Rounds(g0, graph, rank, top, lv, i) && Threaded(graph, siblings)
      {
        NewRound(g0, graph, rank, top, lv, i);
        RoundBasics(g0, graph, graph, rank, top, lv, lv, i, {}, NOBODY);
        ghost var g1, lv1 := graph, lv;
        var out;
        out, lv := PivotLevel(top, 0, i, top, g0, g1, lv1, lv, {});
        ghost var done := Under(g1, lv1, [top], 0, i);
        assert {} + done == done;
        RoundOver(g0, g1, graph, rank, top, lv1, lv, i, done);
        RoundBasics(g0, g1, graph, rank, top, lv1, lv, i, done, NOBODY);
        if out == 0 {
          LevelsBelow(g0, g1, rank, top, lv1, i);
          return Doomed, lv;
        }
        NextRound(g0, g1, graph, rank, top, lv1, lv, i, done);
        i := i + 1;
      }
      RoundsOver(g0, graph, rank, top, lv, i);
      return TooDeep, lv;
    }

    // ------------------------------------------------------------ walks over a subtree

    /** bytesAllocated(). */
    method BytesAllocated(context: nat) returns (bytes: nat)
      requires Linked(graph, rank) && |allocatedHere| == |rank| && context < |rank|
      requires Threaded(graph, siblings)
      ensures bytes == Total(allocatedHere, Subtree(graph, rank, context))
      decreases Subtree(graph, rank, context)
    {
      hide Above, TreeLinks, Mirror, RankedTree, RankedAdoption, Bare, AdoptionsAllocated, Total, Subtree;
      hide Subtrees, Threaded, At;
      ThreadedSize(graph, siblings);
      SubtreeSplit(graph, rank, context);
      TotalOne(allocatedHere, context);
      TotalEmpty(allocatedHere);
      NoSubtrees(graph, rank);
      ghost var list := graph.children[context];
      bytes := allocatedHere[context];
      WalkStart(graph, siblings, context);
      var child := siblings.firstChild[context];
      ghost var i := 0;
      while child.Some?
        invariant 0 <= i <= |list| && child == At(list, i)
        invariant bytes == allocatedHere[context] + Total(allocatedHere, Subtrees(graph, rank, list[..i]))
        decreases |list| - i
      {
        AtCell(list, i);
        WalkStep(graph, siblings, context, i);
        SubtreesExtend(graph, rank, context, i);
        TotalUnion(allocatedHere, Subtrees(graph, rank, list[..i]), Subtree(graph, rank, list[i]));
        var more := BytesAllocated(child.value);
        bytes, i, child := bytes + more, i + 1, siblings.next[child.value];
      }
      AtCell(list, i);
      assert list[..i] == list;
      TotalUnion(allocatedHere, {context}, Subtrees(graph, rank, list));
    }

    /** freeAllocator() with releaseMemory(): children first, each allocator exactly once. */
    method FreeAllocator(context: nat)
      requires Linked(graph, rank) && |allocatedHere| == |rank| && context < |rank|
      requires Threaded(graph, siblings)
      requires Subtree(graph, rank, context) !! released
      modifies this`spaceAvailable, this`released
      ensures released == old(released) + Subtree(graph, rank, context)
      ensures spaceAvailable == old(spaceAvailable) + Total(allocatedHere, Subtree(graph, rank, context))
      decreases Subtree(graph, rank, context)
    {
      hide Above, TreeLinks, Mirror, RankedTree, RankedAdoption, Bare, AdoptionsAllocated, Total, Subtree;
      hide Subtrees, Threaded, At;
      ThreadedSize(graph, siblings);
      SubtreeSplit(graph, rank, context);
      TotalOne(allocatedHere, context);
      TotalEmpty(allocatedHere);
      NoSubtrees(graph, rank);
      ghost var list := graph.children[context];
      WalkStart(graph, siblings, context);
      var child := siblings.firstChild[context];
      ghost var i := 0;
      while child.Some?
        invariant 0 <= i <= |list| && child == At(list, i)
        invariant released == old(released) + Subtrees(graph, rank, list[..i])
        invariant spaceAvailable == old(spaceAvailable) + Total(allocatedHere, Subtrees(graph, rank, list[..i]))
        decreases |list| - i
      {
        AtCell(list, i);
        WalkStep(graph, siblings, context, i);
        var next := siblings.next[child.value];
        SubtreesExtend(graph, rank, context, i);
        TotalUnion(allocatedHere, Subtrees(graph, rank, list[..i]), Subtree(graph, rank, list[i]));
        FreeAllocator(child.value);
        i, child := i + 1, next;
      }
      AtCell(list, i);
      assert list[..i] == list;
      assert context !in released;
      spaceAvailable := spaceAvailable + allocatedHere[context];
      released := released + {context};
      TotalUnion(allocatedHere, {context}, Subtrees(graph, rank, list));
    }

    /** Lines 416-420: every job of the list now belongs to `root`. */
    method Reassign(list: seq<nat>, root: nat)
      requires Known(list, |jobAlloc|)
      modifies this`jobAlloc
      ensures |jobAlloc| == old(|jobAlloc|) && Reassigned(old(jobAlloc), jobAlloc, multiset(list), root)
    {
      var i := 0;
      while i < |list|
        invariant 0 <= i <= |list| && |jobAlloc| == old(|jobAlloc|)
        invariant forall j: nat :: j < |jobAlloc| ==> jobAlloc[j] == if j in list[..i] then root else old(jobAlloc[j])
      {
        jobAlloc := jobAlloc[list[i] := root];
        i := i + 1;
      }
      assert list[..i] == list;
    }

    /** One turn of the loop of marshalOnFreeJobs(). */
    method MarshalChild(child: nat, root: nat)
      requires Linked(graph, rank) && |onFree| == |rank| && child < |rank| && root < |rank|
      requires Threaded(graph, siblings)
      requires root !in Subtree(graph, rank, child)
      requires forall n: nat :: n in Subtree(graph, rank, child) && n < |onFree| ==> Known(onFree[n], |jobAlloc|)
      modifies this`onFree, this`jobAlloc
      ensures |onFree| == |rank| && onFree == old(onFree)[root := onFree[root]] && |jobAlloc| == old(|jobAlloc|)
      ensures multiset(onFree[root]) == multiset(old(onFree[root])) + AllJobs(old(onFree), Subtree(graph, rank, child))
      ensures onFree[root] == old(onFree[root]) + TreeJobs(graph, rank, old(onFree), child)
      ensures Reassigned(old(jobAlloc), jobAlloc, AllJobs(old(onFree), Subtree(graph, rank, child)), root)
      decreases Subtree(graph, rank, child), 1
    {
      hide Linked, Threaded, AllJobs, Subtree, Subtrees, Known, Reassigned, ChildJobs;
      LinkedSize(graph, rank);
      ghost var lists, owner, sub := onFree, jobAlloc, Subtree(graph, rank, child);
      SubtreeSplit(graph, rank, child);
      JobsHere(lists, child, sub);
      onFree := onFree[root := onFree[root] + onFree[child]];
      Reassign(onFree[child], root);
      ghost var mid, owner1 := onFree, jobAlloc;
      JobsElsewhere(lists, root, mid[root], sub - {child});
      ChildJobsElsewhere(graph, rank, lists, root, mid[root], child, |graph.children[child]|);
      Associative(lists[root], lists[child], ChildJobs(graph, rank, lists, child, |graph.children[child]|));
      MarshalOnFreeJobs(child, root);
      ReassignedTwice(owner, owner1, jobAlloc, multiset(lists[child]), AllJobs(lists, sub - {child}), root);
      assert AllJobs(lists, sub) == multiset(lists[child]) + AllJobs(lists, sub - {child});
    }

    /** marshalOnFreeJobs(): append the jobs of everything below `context` to `root`'s list. */
    method MarshalOnFreeJobs(context: nat, root: nat)
      requires Linked(graph, rank) && |onFree| == |rank| && context < |rank| && root < |rank|
      requires Threaded(graph, siblings)
      requires root !in Subtree(graph, rank, context) - {context}
      requires forall n: nat :: n in Subtree(graph, rank, context) && n < |onFree| ==> Known(onFree[n], |jobAlloc|)
      modifies this`onFree, this`jobAlloc
      ensures |onFree| == |rank| && onFree == old(onFree)[root := onFree[root]] && |jobAlloc| == old(|jobAlloc|)
      ensures multiset(onFree[root]) ==
              multiset(old(onFree[root])) + AllJobs(old(onFree), Subtree(graph, rank, context) - {context})
      ensures context < |graph.children| &&
              onFree[root] ==
              old(onFree[root]) + ChildJobs(graph, rank, old(onFree), context, |graph.children[context]|)
      ensures Reassigned(old(jobAlloc), jobAlloc, AllJobs(old(onFree), Subtree(graph, rank, context) - {context}), root)
      decreases Subtree(graph, rank, context), 0
    {
      hide Linked, Threaded, At, AllJobs, Subtree, Subtrees, Known, Reassigned, TreeJobs;
      LinkedSize(graph, rank);
      ThreadedSize(graph, siblings);
      SubtreeSplit(graph, rank, context);
      JobsEmpty(onFree);
      NoSubtrees(graph, rank);
      ghost var lists, owner := onFree, jobAlloc;
      NothingReassigned(owner, root);
      ghost var list := graph.children[context];
      WalkStart(graph, siblings, context);
      var child := siblings.firstChild[context];
      ghost var i := 0;
      while child.Some?
        invariant 0 <= i <= |list| && child == At(list, i)
        invariant |onFree| == |rank| && onFree == lists[root := onFree[root]] && |jobAlloc| == |owner|
        invariant multiset(onFree[root]) == multiset(lists[root]) + AllJobs(lists, Subtrees(graph, rank, list[..i]))
        invariant Reassigned(owner, jobAlloc, AllJobs(lists, Subtrees(graph, rank, list[..i])), root)
        invariant onFree[root] == lists[root] + ChildJobs(graph, rank, lists, context, i)
        decreases |list| - i
      {
        AtCell(list, i);
        WalkStep(graph, siblings, context, i);
        var next := siblings.next[child.value];
        SubtreesExtend(graph, rank, context, i);
        ghost var before, owner1, lists1 := AllJobs(lists, Subtrees(graph, rank, list[..i])), jobAlloc, onFree;
        MarshalChild(child.value, root);
        ghost var sub := Subtree(graph, rank, list[i]);
        JobsElsewhere(lists, root, lists1[root], sub);
        JobsUnion(lists, Subtrees(graph, rank, list[..i]), sub);
        TreeJobsElsewhere(graph, rank, lists, root, lists1[root], list[i]);
        ChildJobsNext(graph, rank, lists, context, i);
        Associative(lists[root], ChildJobs(graph, rank, lists, context, i), TreeJobs(graph, rank, lists, list[i]));
        ReassignedTwice(owner, owner1, jobAlloc, before, AllJobs(lists, sub), root);
        i, child := i + 1, next;
      }
      AtCell(list, i);
      assert list[..i] == list;
      assert Subtree(graph, rank, context) - {context} == Subtrees(graph, rank, list);
    }

    /** removeJob(), which is also the walk of Allocator_cancelOnFree(). */
    method RemoveJob(job: nat) returns (found: bool)
      requires job < |jobAlloc| && jobAlloc[job] < |onFree|
      modifies this`onFree
      ensures found <==> job in old(onFree[jobAlloc[job]])
      ensures onFree == old(onFree)[jobAlloc[job] := RemoveFirst(old(onFree[jobAlloc[job]]), job)]
    {
      var list;
      found, list := DisconnectAllocator(job, onFree[jobAlloc[job]]);
      onFree := onFree[jobAlloc[job] := list];
    }

    /** doOnFreeJobs(): call every callback once; only the asynchronous jobs stay on the list. */
    method DoOnFreeJobs(context: nat, async: set<nat>)
      requires context < |onFree| && |callback| == |jobAlloc| && Known(onFree[context], |callback|)
      requires forall i :: 0 <= i < |onFree[context]| ==> jobAlloc[onFree[context][i]] == context
      requires NoRepeats(onFree[context])
      modifies this`onFree, this`ran
      ensures onFree == old(onFree)[context := Pending(old(onFree[context]), callback, async)]
      ensures ran == old(ran) + Runnable(old(onFree[context]), callback)
    {
      hide JobsLeft, JobsRun, RemoveFirst, Pending, Runnable;
      var list, i := onFree[context], 0;
      ghost var lists := onFree;
      JobLoopStart(list, callback, async);
      while i < |list|
        invariant 0 <= i <= |list|
        invariant onFree == lists[context := JobsLeft(list, i, callback, async)]
        invariant ran == old(ran) + JobsRun(list, i, callback)
      {
        var job := list[i];
        JobLoopStep(list, i, callback, async);
        if callback[job] { ran := ran + [job]; }
        if !(callback[job] && job in async) {
          var found := RemoveJob(job);
          assert found;
        }
        i := i + 1;
      }
      JobLoopEnd(list, callback, async);
    }

    // ------------------------------------------------------------ the public operations

    /** Allocator_new(); a limit of 0 stands for as much as an int64_t can count. */
    constructor (sizeLimit: nat, sizes: Sizes)
      requires sizeLimit == 0 ==> RealSize(sizes, sizes.first) < INT64_MAX
      ensures Valid() && NoLeak() && Live(graph, 0)
      ensures this.sizes == sizes && maxSpace == spaceAvailable + RealSize(sizes, sizes.first)
      ensures spaceAvailable == if sizeLimit == 0 then INT64_MAX - RealSize(sizes, sizes.first) else sizeLimit
      ensures graph == Graph([Some(0)], [[]], [[]], [[]], [false], [false]) && rank == [0]
      ensures allocations == [[RealSize(sizes, sizes.first)]] && onFree == [[]] && jobAlloc == [] && callback == []
      ensures ran == [] && late == [] && released == {}
    {
      var limit := if sizeLimit == 0 then INT64_MAX - RealSize(sizes, sizes.first) else sizeLimit;
      this.sizes, maxSpace := sizes, limit + RealSize(sizes, sizes.first);
      graph := Graph([Some(0)], [[]], [[]], [[]], [false], [false]);
      siblings := Siblings([None], [None], [None]);
      rank := [0];
      spaceAvailable := limit;
      allocations, allocatedHere := [[RealSize(sizes, sizes.first)]], [RealSize(sizes, sizes.first)];
      onFree, jobAlloc, callback := [[]], [], [];
      ran, late, released := [], [], {};
      new;
      FirstTree(graph, siblings, spaceAvailable, maxSpace, allocatedHere[0]);
      assert late + ran == [];
    }

    /** newAllocation(): false when the budget is exceeded, and then the program stops. */
    method NewAllocation(context: nat, size: nat) returns (ok: bool)
      requires Valid() && context < |rank| && context !in released
      modifies this`spaceAvailable, this`allocations, this`allocatedHere
      ensures Valid()
      ensures ok <==> old(spaceAvailable) > RealSize(sizes, size)
      ensures ok ==> spaceAvailable == old(spaceAvailable) - RealSize(sizes, size)
      ensures ok ==> allocations == Pushed(old(allocations), context, [RealSize(sizes, size)])
      ensures ok ==> Holds(sizes, allocations[context][0], size)
      ensures !ok ==> unchanged(`spaceAvailable, `allocations, `allocatedHere)
    {
      hide Linked, Settled, Together, JobsInOrder, Threaded, Holds;
      RealSizeLeast(sizes, size, 0);
      var realSize := RealSize(sizes, size);
      if spaceAvailable <= realSize { return false; }
      var list := [realSize] + allocations[context];
      assert list[1..] == allocations[context];
      AccountMove(allocatedHere, allocations, released, spaceAvailable, maxSpace, context, list);
      spaceAvailable := spaceAvailable - realSize;
      allocatedHere := allocatedHere[context := allocatedHere[context] + realSize];
      allocations := allocations[context := list];
      return true;
    }

    /** Allocator__realloc() of the allocation at position `which` of the list; size 0 frees it. */
    method Realloc(context: nat, which: nat, size: nat) returns (ok: bool)
      requires Valid() && context < |rank| && context !in released
      modifies this`spaceAvailable, this`allocations, this`allocatedHere
      ensures Valid()
      ensures ok <==>
        (which < old(|allocations[context]|) &&
         (size == 0 || old(spaceAvailable + allocations[context][which]) >= RealSize(sizes, size)))
      ensures ok && size == 0 ==>
        && spaceAvailable == old(spaceAvailable + allocations[context][which])
        && allocations ==
           old(allocations)[context := old(allocations[context][..which] + allocations[context][which + 1..])]
      ensures ok && size > 0 ==>
        && spaceAvailable == old(spaceAvailable + allocations[context][which]) - RealSize(sizes, size)
        && allocations == old(allocations)[context := allocations[context]]
        && |allocations[context]| == old(|allocations[context]|)
        && (forall i :: 0 <= i < |allocations[context]| ==>
              allocations[context][i] == if i == which then RealSize(sizes, size) else old(allocations[context])[i])
        && Holds(sizes, allocations[context][which], size)
      ensures !ok ==> unchanged(`spaceAvailable, `allocations, `allocatedHere)
    {
      hide Linked, Settled, Together, JobsInOrder, Threaded, Holds;
      RealSizeLeast(sizes, size, 0);
      var list := allocations[context];
      if which >= |list| { return false; }
      var original := list[which];
      if size == 0 {
        var rest := list[..which] + list[which + 1..];
        SumRemove(list, which);
        assert original <= allocatedHere[context];
        AccountMove(allocatedHere, allocations, released, spaceAvailable, maxSpace, context, rest);
        allocations := allocations[context := rest];
        spaceAvailable := spaceAvailable + original;
        allocatedHere := allocatedHere[context := allocatedHere[context] - original];
        return true;
      }
      var realSize := RealSize(sizes, size);
      if spaceAvailable + original < realSize { return false; }
      SumUpdate(list, which, realSize);
      assert allocatedHere[context] + realSize - original == Sum(list[which := realSize]);
      AccountMove(allocatedHere, allocations, released, spaceAvailable, maxSpace, context,
                  list[which := realSize]);
      spaceAvailable := spaceAvailable + original - realSize;
      allocatedHere := allocatedHere[context := allocatedHere[context] + realSize - original];
      allocations := allocations[context := list[which := realSize]];
      return true;
    }

    /** Allocator__child(): the new allocator is charged for its own structure.  Under an allocator
        that is already freeing it is a live allocator in a subtree that will be released: exactly
        then the tree is not in order afterwards. */
    method Child(parent: nat) returns (ok: bool, child: nat)
      requires Valid() && parent < |rank| && parent !in released
      modifies this`graph, this`siblings, this`rank, this`spaceAvailable, this`allocations, this`allocatedHere,
               this`onFree
      ensures ok <==> old(spaceAvailable) > RealSize(sizes, sizes.allocator)
      ensures Linked(graph, rank) && Threaded(graph, siblings)
      ensures Valid() <==> !ok || old(Live(graph, parent))
      ensures Valid() && old(NoLeak()) ==> NoLeak()
      ensures ok ==>
        && child == old(|rank|) && rank == old(rank) + [old(rank[parent]) + 1]
        && graph == AfterConnect(AfterNew(old(graph)), parent, child)
        && graph.children[parent] == [child] + old(graph.children[parent]) && graph.children[child] == []
        && graph.parent[child] == Some(parent) && !graph.freeing[child]
        && graph.adopters[child] == graph.adopted[child] == [] && !graph.hasAdoptions[child]
        && spaceAvailable == old(spaceAvailable) - RealSize(sizes, sizes.allocator)
        && allocations == old(allocations) + [[RealSize(sizes, sizes.allocator)]]
        && onFree == old(onFree) + [[]]
        && forall t: nat {:trigger Subtree(graph, rank, t)} ::
             parent in Subtree(graph, rank, t) ==> child in Subtree(graph, rank, t)
      ensures !ok ==>
        unchanged(`graph, `siblings, `rank, `spaceAvailable, `allocations, `allocatedHere, `onFree)
    {
      hide Linked, Accounted, Settled, JobsInOrder, Threaded, Subtree, Leakless, Together;
      child := |allocatedHere|;
      var realSize := RealSize(sizes, sizes.allocator);
      if spaceAvailable <= realSize { return false, child; }
      TogetherInRange(graph, released);
      LinkedSize(graph, rank);
      AccountNew(allocatedHere, allocations, released, spaceAvailable, maxSpace, realSize);
      spaceAvailable := spaceAvailable - realSize;
      allocations, allocatedHere := allocations + [[realSize]], allocatedHere + [realSize];
      ghost var g := graph;
      LinkNew(parent, child);
      if Live(g, parent) { BooksNew(g, graph, released, onFree, jobAlloc, late + ran, parent); }
      NewTops(g, graph, released, onFree, ran);
      onFree := onFree + [[]];
      return true, child;
    }

    /** Lines 612-627: a new allocator, linked under its parent. */
    method LinkNew(parent: nat, child: nat)
      requires Linked(graph, rank) && Settled(graph) && Threaded(graph, siblings)
      requires parent < |rank| && child == |rank|
      modifies this`graph, this`siblings, this`rank
      ensures Linked(graph, rank) && Threaded(graph, siblings) && Sized(old(graph), child) && Sized(graph, child + 1)
      ensures graph == AfterConnect(AfterNew(old(graph)), parent, child)
      ensures rank == old(rank) + [old(rank[parent]) + 1]
      ensures Settled(graph) <==> old(Live(graph, parent))
      ensures forall t: nat {:trigger Subtree(graph, rank, t)} ::
        parent in Subtree(graph, rank, t) ==> child in Subtree(graph, rank, t)
    {
      hide Linked, Settled, Threaded, Subtree;
      LinkedSize(graph, rank);
      ghost var g, rank0 := graph, rank;
      NewLinked(graph, rank, rank[parent] + 1);
      ThreadedNew(graph, siblings);
      if Live(g, parent) { ChildLinked(g, rank, parent); } else { ChildUnsettled(g, parent, child); }
      graph, siblings := AfterNew(graph), AfterNewSiblings(siblings);
      rank := rank + [rank[parent] + 1];
      ConnectLinked(graph, rank, parent, child);
      Connect(parent, child);
      ChildInSubtrees(graph, rank, parent, child);
    }

    /** Allocator__onFree(): the job structure itself is allocated from `context`.  A waiting
        allocator takes a job too, but its callbacks have been called: it then waits for a job that
        never is. */
    method OnFree(context: nat, hasCallback: bool) returns (ok: bool, job: nat)
      requires Valid() && (Live(graph, context) || Top(graph, released, context))
      modifies this`spaceAvailable, this`allocations, this`allocatedHere, this`onFree, this`jobAlloc, this`callback,
               this`late
      ensures Valid() && (ok <==> old(spaceAvailable) > RealSize(sizes, sizes.job))
      ensures old(NoLeak()) ==> (NoLeak() <==> !ok || Live(graph, context))
      ensures ok ==>
        && job == old(|jobAlloc|) && onFree == old(onFree)[context := old(onFree[context]) + [job]]
        && jobAlloc == old(jobAlloc) + [context] && callback == old(callback) + [hasCallback]
        && late == (if Live(graph, context) then old(late) else [job] + old(late))
        && spaceAvailable == old(spaceAvailable) - RealSize(sizes, sizes.job)
        && allocations == Pushed(old(allocations), context, [RealSize(sizes, sizes.job)])
      ensures !ok ==>
        unchanged(`spaceAvailable, `allocations, `allocatedHere, `onFree, `jobAlloc, `callback, `late)
    {
      hide Linked, Settled, Accounted, JobsInOrder, Threaded, RealSize, Together, Pushed;
      job := |jobAlloc|;
      StillThere(graph, rank, released, context);
      ok := NewAllocation(context, sizes.job);
      if ok {
        ghost var lists := onFree;
        RanKnown(graph, released, onFree, jobAlloc, late + ran, job);
        if graph.freeing[context] {
          BooksLate(graph, released, onFree, jobAlloc, late + ran, context);
          assert ([job] + late) + ran == [job] + (late + ran);
          late := [job] + late;
        } else {
          BooksRegister(graph, released, onFree, jobAlloc, late + ran, context);
        }
        onFree := onFree[context := onFree[context] + [job]];
        jobAlloc, callback := jobAlloc + [context], callback + [hasCallback];
        RegisteredLeak(graph, released, lists, ran, context, job);
      }
    }

    /** A job that was registered too late is never called. */
    lemma LateNeverCalled()
      requires Valid()
      ensures forall j :: j in late ==> j !in ran && j < |jobAlloc|
    {
      hide Linked, Settled, Accounted, Threaded, Together;
      forall j | j in late ensures j !in ran && j < |jobAlloc| {
        assert j in late + ran;
        assert multiset(late + ran)[j] == multiset(late)[j] + multiset(ran)[j];
        assert AllJobs(onFree, LiveSet(graph))[j] + multiset(late + ran)[j] <= 1;
        assert j in multiset(late);
        assert j in ran <==> j in multiset(ran);
      }
    }

    /** Nothing is lost for good: every detached subtree that has not been released waits for a
        job, and only for jobs whose callbacks have been called. */
    ghost predicate NoLeak()
      reads this
    {
      Leakless(graph, released, onFree, ran)
    }

    /** Allocator_cancelOnFree().  Cancelling the last job that a detached subtree waits for
        strands that subtree: nothing will release it. */
    method CancelOnFree(job: nat) returns (found: bool)
      requires Valid() && job < |jobAlloc| && jobAlloc[job] !in released
      modifies this`onFree
      ensures Valid() && jobAlloc[job] < |rank| && (found <==> job in old(onFree)[jobAlloc[job]])
      ensures onFree == old(onFree)[jobAlloc[job] := RemoveFirst(old(onFree)[jobAlloc[job]], job)]
      ensures old(NoLeak()) ==>
        (NoLeak() <==> !(old(onFree)[jobAlloc[job]] == [job] && Top(graph, released, jobAlloc[job])))
    {
      hide Linked, Settled, Accounted, JobsInOrder, Threaded, Leakless, RemoveFirst, Together;
      JobHolder(graph, rank, released, onFree, jobAlloc, late + ran, job);
      UnlistLeak(graph, released, onFree, ran, jobAlloc[job], job);
      if job in onFree[jobAlloc[job]] {
        BooksUnlist(graph, released, onFree, jobAlloc, late + ran, jobAlloc[job], job);
      }
      found := RemoveJob(job);
    }

    /** Allocator_onFreeComplete(): the last job to complete releases the subtree.  `ok` is false for
        a job that is not listed any more, and then the program stops.  A job of a live allocator
        has not been called yet: if it is the only one there, memory in use is released. */
    method OnFreeComplete(job: nat) returns (ok: bool)
      requires Valid() && job < |jobAlloc| && jobAlloc[job] !in released
      modifies this`onFree, this`spaceAvailable, this`released
      ensures jobAlloc[job] < |rank| && Linked(graph, rank) && (ok <==> job in old(onFree)[jobAlloc[job]])
      ensures Valid() <==> !(old(onFree)[jobAlloc[job]] == [job] && Live(graph, jobAlloc[job]))
      ensures old(NoLeak()) ==> NoLeak()
      ensures !ok ==> unchanged(`onFree, `released, `spaceAvailable)
      ensures ok ==> onFree == old(onFree)[jobAlloc[job] := RemoveFirst(old(onFree)[jobAlloc[job]], job)]
      ensures ok && old(onFree)[jobAlloc[job]] != [job] ==> unchanged(`released, `spaceAvailable)
      ensures ok && old(onFree)[jobAlloc[job]] == [job] ==>
        && released == old(released) + Subtree(graph, rank, jobAlloc[job])
        && Subtree(graph, rank, jobAlloc[job]) !! old(released)
        && spaceAvailable == old(spaceAvailable) + Total(allocatedHere, Subtree(graph, rank, jobAlloc[job]))
    {
      hide Linked, Settled, Accounted, JobsInOrder, Together, Subtree, Threaded, Leakless, RemoveFirst, Total, Top;
      JobHolder(graph, rank, released, onFree, jobAlloc, late + ran, job);
      var context := jobAlloc[job];
      ghost var lists := onFree;
      UnlistLeak(graph, released, onFree, ran, context, job);
      if job in onFree[context] { BooksUnlist(graph, released, onFree, jobAlloc, late + ran, context, job); }
      ok := RemoveJob(job);
      if !ok { return; }
      if onFree[context] == [] {
        SubtreeIntact(graph, rank, released, context);
        if old(NoLeak()) {
          ReleasedLeak(graph, released, Subtree(graph, rank, context), lists, ran, context, onFree[context]);
        }
        if Live(graph, context) {
          LiveReleased(graph, released + Subtree(graph, rank, context), context);
        } else {
          ReleaseTop(graph, rank, released, allocatedHere, allocations, spaceAvailable, maxSpace,
                     onFree, jobAlloc, late + ran, context);
        }
        FreeAllocator(context);
      }
    }

    /** Lines 497-501: gather the jobs of what has been marked, call them, release if none is left. */
    method FinishFree(context: nat, async: set<nat>, ghost g0: Graph, ghost lv: Levels)
      returns (waiting: bool, ghost jobs: seq<nat>)
      requires Progress(g0, graph, rank, context, lv, NOBODY) && Closed(graph, lv) && context in lv
      requires Threaded(graph, siblings)
      requires |allocations| == |allocatedHere| == |onFree| == |rank| && |callback| == |jobAlloc|
      requires Accounted(allocatedHere, allocations, released, spaceAvailable, maxSpace)
      requires Together(g0, released) && JobsInOrder(g0, released, onFree, jobAlloc, late + ran)
      modifies this`onFree, this`jobAlloc, this`ran, this`spaceAvailable, this`released
      ensures Valid()
      ensures JobsCalled(old(onFree), onFree, old(jobAlloc), jobAlloc, old(ran), ran, callback, context, lv.Keys, jobs,
                         async)
      ensures InTreeOrder(graph, rank, old(onFree), context, jobs)
      ensures waiting <==> onFree[context] != []
      ensures waiting ==> released == old(released) && spaceAvailable == old(spaceAvailable)
      ensures waiting ==> Top(graph, released, context)
      ensures !waiting ==> released == old(released) + lv.Keys && lv.Keys !! old(released)
      ensures !waiting ==> spaceAvailable == old(spaceAvailable) + Total(allocatedHere, lv.Keys)
      ensures Leakless(g0, old(released), old(onFree), old(ran)) ==> NoLeak()
    {
      hide Linked, Progress, Settled, Closed, Accounted, Together, JobsInOrder, Subtree, AllJobs, Runnable;
      hide Pending, Threaded;
      hide LiveSet, Known, NoRepeats, Reassigned, Top, Total, Leakless, AllIn, ChildJobs, JobsLeft, Subtrees;
      hide TooFarBelow;
      MarkedInRange(g0, graph, rank, context, lv);
      ghost var lists, owner, ran0, freed := onFree, jobAlloc, ran, lv.Keys;
      MarkedIsSubtree(g0, graph, rank, context, lv);
      ClosedIsSettled(g0, graph, rank, context, lv);
      LiveAfter(g0, graph, rank, context, lv);
      TogetherAfter(g0, graph, rank, context, lv, released);
      FreedJobsKnown(g0, released, lists, owner, late + ran0, freed);
      MarshalOnFreeJobs(context, context);
      jobs := onFree[context];
      JobsHere(lists, context, freed);
      Gathered(g0, released, lists, owner, late + ran0, freed, jobs);
      MarshalledOwners(g0, released, lists, owner, jobAlloc, late + ran0, freed, context, jobs);
      DoOnFreeJobs(context, async);
      TopsAfter(g0, graph, rank, context, lv, released);
      PendingRan(jobs, callback, async, ran0);
      LeaklessAfter(g0, graph, released, lists, context, Pending(jobs, callback, async), freed, ran0, ran);
      JobsAfterFree(g0, graph, released, lists, owner, jobAlloc, late + ran0, context, freed, jobs, callback, async);
      assert (late + ran0) + Runnable(jobs, callback) == late + ran;
      assert onFree == lists[context := Pending(jobs, callback, async)];
      waiting := onFree[context] != [];
      if !waiting {
        ReleaseTop(graph, rank, released, allocatedHere, allocations, spaceAvailable, maxSpace,
                   onFree, jobAlloc, late + ran, context);
        FreeAllocator(context);
      }
    }

    /** What Allocator__free() of `context` may do, and when it does which. */
    twostate predicate FreeDone(context: nat, async: set<nat>, r: FreeResult, freed: set<nat>, jobs: seq<nat>)
      requires old(Linked(graph, rank)) && context < |rank| && old(rank) == rank && Sized(graph, |rank|)
      reads this
    {
      && (r != Abandoned ==> Valid() && (old(NoLeak()) ==> NoLeak()))
      && (r == AlreadyFreeing <==> old(graph.freeing[context]))
      && (r == Unaccounted <==>
           (context == 0 && old(Live(graph, 0)) &&
            Total(old(allocatedHere), Unreleased(|rank|, old(released)) - LiveSet(old(graph))) != 0))
      && (r in {AlreadyFreeing, Unaccounted} ==>
           unchanged(`graph, `siblings, `onFree, `jobAlloc, `ran, `spaceAvailable, `released))
      // an adopted allocator only moves
      && (r == Pivoted <==> !old(graph.freeing[context]) && old(graph.adopters[context]) != [])
      && (r == Pivoted ==>
           MovedTo(old(graph), graph, rank, context) &&
           unchanged(`onFree, `jobAlloc, `ran, `spaceAvailable, `released))
      // where a chain of links leads 10000 levels down, the marking may not come to its end
      && (r == Abandoned ==>
           |rank| >= MAX_DEPTH && exists path, n :: |path| == MAX_DEPTH && ChainDown(old(graph), context, path, n))
      && (forall n: nat :: TooFarBelow(old(graph), context, n) ==> r !in {Waiting, Gone})
      // otherwise it goes, with exactly what depends on it, and all their jobs are called
      && (r in {Waiting, Gone} ==>
           && FreedExactly(old(graph), graph, context, freed)
           && JobsCalled(old(onFree), onFree, old(jobAlloc), jobAlloc, old(ran), ran, callback, context, freed, jobs,
                         async)
           // those of the freed one first, and then down its tree
           && InTreeOrder(graph, rank, old(onFree), context, jobs))
      // and the memory is released exactly when no asynchronous job is left
      && (r == Waiting ==> onFree[context] != [] && Top(graph, released, context))
      && (r == Waiting ==> unchanged(`released, `spaceAvailable))
      && (r == Gone ==>
           && onFree[context] == []
           && released == old(released) + freed && freed !! old(released)
           && spaceAvailable == old(spaceAvailable) + Total(old(allocatedHere), freed))
      // freeing the root gives every byte back
      && (r == Gone && context == 0 ==> spaceAvailable == maxSpace)
    }

    /** Allocator__free(). */
    method Free(context: nat, async: set<nat>) returns (r: FreeResult, ghost freed: set<nat>, ghost jobs: seq<nat>)
      requires Valid() && context < |rank| && context !in released
      modifies this`graph, this`siblings, this`onFree, this`jobAlloc, this`ran, this`spaceAvailable, this`released
      ensures Sized(graph, |rank|) && FreeDone(context, async, r, freed, jobs)
    {
      hide TreeLinks, Mirror, RankedTree, RankedAdoption, Bare, AdoptionsAllocated, EdgesKept, MarkedTree;
      hide MarkedAreCut, Threaded, Reassigned;
      hide Settled, Closed, Accounted, Together, JobsInOrder, Subtree, AllJobs, Runnable, Pending, LiveSet;
      hide Total, MarkedSet, Leakless, Top, ChainDown, FreedExactly, JobsCalled, TooFarBelow, HasParentBesides;
      hide InTreeOrder;
      freed, jobs := {}, [];
      if graph.freeing[context] { return AlreadyFreeing, freed, jobs; }
      if context == 0 {
        var bytes := BytesAllocated(context);
        RootBytes(graph, rank, released, allocatedHere, allocations, spaceAvailable, maxSpace);
        if bytes + spaceAvailable != maxSpace { return Unaccounted, freed, jobs; }
      }
      ghost var g0 := graph;
      var result;
      ghost var lv;
      result, lv := PivotChildrenToAdoptedParents(context);
      match result {
        case Moved =>
          MovedBooks(g0, graph, rank, released, onFree, jobAlloc, late + ran, ran, context);
          return Pivoted, freed, jobs;
        case TooDeep =>
          ghost var n: nat :| n in lv && lv[n] == MAX_DEPTH - 1;
          LevelIsDepth(g0, graph, rank, context, lv, n);
          LevelFits(g0, graph, rank, context, lv, n);
          return Abandoned, freed, jobs;
        case Doomed =>
          freed := lv.Keys;
          DoomedAreFreed(g0, graph, rank, context, lv);
          forall n: nat { FreedAreShallow(g0, graph, context, freed, n); }
          var waiting;
          ghost var released0 := released;
          waiting, jobs := FinishFree(context, async, g0, lv);
          if context == 0 && !waiting {
            RootGone(g0, graph, freed, released0, allocatedHere, allocations, spaceAvailable, maxSpace);
          }
          return if waiting then Waiting else Gone, freed, jobs;
      }
    }

    /** isAncestorOf(), with the adopters walked to the end of the list. */
    method IsAncestorOf(maybeParent: nat, maybeChild: nat) returns (yes: bool)
      requires Linked(graph, rank) && maybeChild < |rank|
      ensures yes <==> Ancestor(graph, rank, maybeParent, maybeChild)
      decreases rank[maybeChild]
    {
      hide TreeLinks, Mirror, RankedAdoption, Bare, AdoptionsAllocated;
      if maybeParent == maybeChild { return true; }
      if graph.parent[maybeChild] == Some(maybeChild) || maybeChild == 0 { return false; }
      if graph.parent[maybeChild].Some? {
        var up := IsAncestorOf(maybeParent, graph.parent[maybeChild].value);
        if up { return true; }
      }
      var list, i := graph.adopters[maybeChild], 0;
      while i < |list|
        invariant 0 <= i <= |list|
        invariant forall j :: 0 <= j < i ==>
          AdopterAt(graph, rank, maybeChild, j) && !Ancestor(graph, rank, maybeParent, list[j])
      {
        AdopterIndex(graph, rank, maybeChild, i);
        var up := IsAncestorOf(maybeParent, list[i]);
        if up { return true; }
        i := i + 1;
      }
      return false;
    }

    /** isAncestorOf() to the letter: in the loop `al` stays where it is, so that whatever the first
        adopter has answered, it is asked again; only a "yes" ends that. */
    method WrittenIsAncestorOf(maybeParent: nat, maybeChild: nat) returns (v: Verdict)
      requires Linked(graph, rank) && maybeChild < |rank|
      ensures v == AsWritten(graph, rank, maybeParent, maybeChild)
      decreases rank[maybeChild]
    {
      hide TreeLinks, Mirror, RankedAdoption, Bare, AdoptionsAllocated;
      if maybeParent == maybeChild { return Yes; }
      if graph.parent[maybeChild] == Some(maybeChild) || maybeChild == 0 { return No; }
      if graph.parent[maybeChild].Some? {
        v := WrittenIsAncestorOf(maybeParent, graph.parent[maybeChild].value);
        if v != No { return; }
      }
      if graph.adopters[maybeChild] == [] { return No; }
      AdopterIndex(graph, rank, maybeChild, 0);
      v := WrittenIsAncestorOf(maybeParent, graph.adopters[maybeChild][0]);
      return if v == Yes then Yes else Loops;
    }

    /** Lines 714-731: the structures of an adoption, two list cells of them charged to the child. */
    method AllocateAdoption(parent: nat, child: nat) returns (ok: bool)
      requires Valid() && Live(graph, parent) && Live(graph, child) && parent != child
      modifies this`spaceAvailable, this`allocations, this`allocatedHere
      ensures Valid()
      ensures ok <==> old(spaceAvailable) > AdoptionCost(sizes, graph, parent, child)
      ensures ok ==> spaceAvailable == old(spaceAvailable) - AdoptionCost(sizes, graph, parent, child)
      ensures ok ==> allocations == AdoptionCells(sizes, graph, old(allocations), parent, child)
    {
      hide Linked, Accounted, Settled, JobsInOrder, Together, RealSize, Threaded, Pushed;
      LiveIsKept(graph, rank, released, parent);
      LiveIsKept(graph, rank, released, child);
      LinkedSize(graph, rank);
      ok := true;
      if !graph.hasAdoptions[parent] {
        ok := NewAllocation(parent, sizes.adoptions);
        if !ok { return; }
      }
      if !graph.hasAdoptions[child] {
        ok := NewAllocation(child, sizes.adoptions);
        if !ok { return; }
      }
      PushedTwice(allocations, child, RealSize(sizes, sizes.list));
      ok := NewAllocation(child, sizes.list);
      if !ok { return; }
      ok := NewAllocation(child, sizes.list);
    }

    /** Allocator__adopt(). */
    method Adopt(parent: nat, child: nat) returns (r: AdoptResult)
      requires Valid() && parent < |rank| && child < |rank|
      modifies this`graph, this`rank, this`spaceAvailable, this`allocations, this`allocatedHere
      ensures Valid() && (old(NoLeak()) ==> NoLeak())
      ensures r == Ignored <==> old(graph.freeing[parent])
      ensures r == Refused <==> old(Live(graph, parent)) && old(graph.freeing[child])
      ensures r == Meaningless <==>
        old(Live(graph, parent)) && old(Live(graph, child)) && old(Ancestor(graph, rank, child, parent))
      ensures r == OutOfMemory <==>
        && old(Live(graph, parent)) && old(Live(graph, child)) && !old(Ancestor(graph, rank, child, parent))
        && old(spaceAvailable) <= AdoptionCost(sizes, old(graph), parent, child)
      ensures r in {Ignored, Refused, Meaningless} ==>
        unchanged(`graph, `rank, `spaceAvailable, `allocations, `allocatedHere)
      ensures r == OutOfMemory ==> graph == old(graph)
      ensures r == Adopted ==>
        && graph == AfterAdopt(old(graph), parent, child)
        // the latest adopter comes first, so it is the one that the child would move under
        && graph.adopters[child] == [parent] + old(graph.adopters[child])
        && graph.adopted[parent] == [child] + old(graph.adopted[parent])
        && graph.parent == old(graph.parent) && graph.freeing == old(graph.freeing)
        && spaceAvailable == old(spaceAvailable) - AdoptionCost(sizes, old(graph), parent, child)
        && allocations == AdoptionCells(sizes, old(graph), old(allocations), parent, child)
        && forall n: nat, p: nat {:trigger ParentCount(graph, n, p)} :: n < |rank| ==>
             ParentCount(graph, n, p) == ParentCount(old(graph), n, p) + if n == child && p == parent then 1 else 0
    {
      hide Accounted, TreeLinks, Mirror, RankedTree, RankedAdoption, Bare, AdoptionsAllocated, Settled;
      hide JobsInOrder, Together, Ancestor, RealSize, Threaded, AdoptionCells, AdoptionCost;
      if graph.freeing[parent] { return Ignored; }
      if graph.freeing[child] { return Refused; }
      var meaningless := IsAncestorOf(child, parent);
      if meaningless { return Meaningless; }
      if parent == child { AncestorSelf(graph, rank, child); }
      var ok := AllocateAdoption(parent, child);
      if !ok { return OutOfMemory; }
      AdoptBooks(graph, rank, released, onFree, jobAlloc, late + ran, ran, parent, child);
      ThreadedSame(graph, AfterAdopt(graph, parent, child), siblings);
      rank := Sunk(graph, rank, parent, child);
      graph := AfterAdopt(graph, parent, child);
      return Adopted;
    }

    /** Allocator__disown(): the adoption edge goes, or, when the child has already moved under
        the disowning parent, the child is freed. */
    method Disown(parent: nat, child: nat, async: set<nat>)
      returns (r: DisownResult, ghost freed: set<nat>, ghost jobs: seq<nat>)
      requires Valid() && parent < |rank| && child < |rank| && child !in released
      modifies this`graph, this`siblings, this`onFree, this`jobAlloc, this`ran, this`spaceAvailable, this`released
      ensures r == NoneOfOurs <==> old(graph.freeing[parent] || graph.freeing[child])
      ensures r.ChildFreed? <==>
        old(Live(graph, parent) && Live(graph, child) && graph.parent[child] == Some(parent))
      ensures r.ChildFreed? ==> Sized(graph, |rank|) && FreeDone(child, async, r.how, freed, jobs)
      ensures r == NeverAdopted <==>
        old(Live(graph, parent) && Live(graph, child) && graph.parent[child] != Some(parent) &&
            Ancestor(graph, rank, child, parent))
      ensures r == NoAdoption <==>
        old(Live(graph, parent) && Live(graph, child) && graph.parent[child] != Some(parent) &&
            !Ancestor(graph, rank, child, parent) && Count(graph.adopters[child], parent) == 0)
      ensures !r.ChildFreed? ==> Valid() && (old(NoLeak()) ==> NoLeak())
      ensures !r.ChildFreed? ==> unchanged(`siblings, `onFree, `jobAlloc, `ran, `spaceAvailable, `released)
      ensures r in {NoneOfOurs, NeverAdopted, NoAdoption} ==> graph == old(graph)
      ensures r == Unlinked ==> graph == AfterDisconnectAdopted(old(graph), parent, child)
      ensures r == Unlinked ==>
        forall n: nat, p: nat {:trigger ParentCount(graph, n, p)} :: n < |rank| ==>
          ParentCount(graph, n, p) == ParentCount(old(graph), n, p) - if n == child && p == parent then 1 else 0
    {
      hide Accounted, TreeLinks, Mirror, RankedTree, RankedAdoption, Bare, AdoptionsAllocated, Settled;
      hide JobsInOrder, Together, Ancestor, Threaded, FreeDone;
      freed, jobs := {}, [];
      if graph.freeing[parent] || graph.freeing[child] { return NoneOfOurs, freed, jobs; }
      if graph.parent[child] == Some(parent) {
        var how;
        how, freed, jobs := Free(child, async);
        return ChildFreed(how), freed, jobs;
      }
      var meaningless := IsAncestorOf(child, parent);
      if meaningless { return NeverAdopted, freed, jobs; }
      DisownBooks(graph, rank, released, onFree, jobAlloc, late + ran, ran, parent, child);
      ThreadedSame(graph, AfterDisconnectAdopted(graph, parent, child), siblings);
      ghost var g := graph;
      var ok := DisconnectAdopted(parent, child);
      if ok { DisownCounts(g, rank, parent, child); }
      return if ok then Unlinked else NoAdoption, freed, jobs;
    }
  }

  lemma LiveIsKept(g: Graph, rank: seq<nat>, released: set<nat>, n: nat)
    requires Linked(g, rank) && Together(g, released) && Live(g, n)
    ensures n < |rank| && n !in released
  {}

  lemma PushedTwice(allocations: seq<seq<nat>>, context: nat, cell: nat)
    requires context < |allocations|
    ensures |Pushed(allocations, context, [cell])| == |allocations|
    ensures Pushed(Pushed(allocations, context, [cell]), context, [cell]) == Pushed(allocations, context, [cell, cell])
  {
    assert [cell] + ([cell] + allocations[context]) == [cell, cell] + allocations[context];
  }

  /** Both lists of the two know the edge, or neither does. */
  lemma {:induction false} EdgeListed(g: Graph, rank: seq<nat>, p: nat, c: nat)
    requires Linked(g, rank) && p < |rank| && c < |rank|
    ensures c in g.adopted[p] <==> Count(g.adopters[c], p) > 0
    ensures p in g.adopters[c] <==> Count(g.adopters[c], p) > 0
    ensures !g.hasAdoptions[p] ==> g.adopted[p] == []
    ensures !g.hasAdoptions[c] ==> g.adopters[c] == []
  {
    hide TreeLinks, RankedTree, RankedAdoption, Bare, Count;
    CountIn(g.adopted[p], c);
    CountIn(g.adopters[c], p);
    assert Count(g.adopters[c], p) == Count(g.adopted[p], c);
  }

  lemma StillThere(g: Graph, rank: seq<nat>, released: set<nat>, n: nat)
    requires Linked(g, rank) && Together(g, released) && (Live(g, n) || Top(g, released, n))
    ensures n < |rank| && n < |g.freeing| && n !in released && (g.freeing[n] <==> !Live(g, n))
  {}

  lemma {:induction false} RemovedIn(list: seq<nat>, job: nat)
    ensures forall j :: j in RemoveFirst(list, job) ==> j in list
  {
    RemoveFirstCounts(list, job);
    forall j | j in RemoveFirst(list, job) ensures j in list { assert j in multiset(RemoveFirst(list, job)); }
  }

  /** A child under a freeing allocator is live where nothing should be. */
  lemma ChildUnsettled(g: Graph, parent: nat, child: nat)
    requires Sized(g, |g.parent|) && parent < |g.parent| == child && g.freeing[parent]
    ensures !Settled(AfterConnect(AfterNew(g), parent, child))
  {
    assert ChildOf(AfterConnect(AfterNew(g), parent, child), child, parent);
  }

  lemma TogetherInRange(g: Graph, released: set<nat>)
    requires Together(g, released)
    ensures |g.parent| == |g.freeing| && forall n :: n in released ==> n < |g.freeing|
  {}

  /** Taking a job off a list loses memory exactly when a waiting subtree is left without one. */
  lemma {:induction false} UnlistLeak(
      g: Graph, released: set<nat>, lists: seq<seq<nat>>, ran: seq<nat>, a: nat, job: nat)
    requires a < |lists|
    ensures Leakless(g, released, lists, ran) ==>
      (Leakless(g, released, lists[a := RemoveFirst(lists[a], job)], ran) <==>
       !(lists[a] == [job] && Top(g, released, a)))
    ensures RemoveFirst(lists[a], job) == [] <==> lists[a] == [] || lists[a] == [job]
    ensures job !in lists[a] ==> lists[a := RemoveFirst(lists[a], job)] == lists
  {
    hide RemoveFirst;
    OnlyItem(lists[a], job);
    RemoveFirstCounts(lists[a], job);
    RemovedIn(lists[a], job);
  }

  /** Whoever still lists a job that belongs to him is live or waiting. */
  lemma {:induction false} JobHolder(
      g: Graph, rank: seq<nat>, released: set<nat>, lists: seq<seq<nat>>, owner: seq<nat>, started: seq<nat>, job: nat)
    requires Linked(g, rank) && |lists| == |rank| && JobsInOrder(g, released, lists, owner, started)
    requires job < |owner| && owner[job] !in released
    ensures owner[job] < |rank| && owner[job] < |g.freeing| && (g.freeing[owner[job]] <==> !Live(g, owner[job]))
    ensures job in lists[owner[job]] ==> Live(g, owner[job]) || Top(g, released, owner[job])
  {
    hide TreeLinks, Mirror, RankedTree, RankedAdoption, Bare, AdoptionsAllocated;
    assert job in lists[owner[job]] ==> !Inner(g, released, owner[job]);
  }

  lemma {:induction false} SubtreeIntact(g: Graph, rank: seq<nat>, released: set<nat>, x: nat)
    requires Linked(g, rank) && Together(g, released) && x < |rank| && x !in released
    ensures Subtree(g, rank, x) !! released && x in Subtree(g, rank, x)
  {
    hide TreeLinks, Mirror, RankedTree, RankedAdoption, Bare, AdoptionsAllocated, Together, Above;
    AboveSelf(g, rank, x);
    forall n | n in Subtree(g, rank, x) ensures n !in released { SubtreeUnreleased(g, rank, released, x, n); }
  }

  lemma LiveReleased(g: Graph, released: set<nat>, x: nat)
    requires Live(g, x) && x in released
    ensures !Together(g, released)
  {}

  lemma {:induction false} ReleasedLeak(
      g: Graph, released: set<nat>, gone: set<nat>, lists: seq<seq<nat>>, ran: seq<nat>, a: nat, list: seq<nat>)
    requires a < |lists| && a in gone && Leakless(g, released, lists, ran)
    ensures Leakless(g, released + gone, lists[a := list], ran)
  {}

  lemma NewTops(g: Graph, g': Graph, released: set<nat>, lists: seq<seq<nat>>, ran: seq<nat>)
    requires |g.parent| == |g.freeing| == |lists| == |g'.parent| - 1 && |g'.freeing| == |g'.parent|
    requires g'.freeing == g.freeing + [false] && forall n :: 0 <= n < |lists| ==> g'.parent[n] == g.parent[n]
    ensures Leakless(g, released, lists, ran) ==> Leakless(g', released, lists + [[]], ran)
  {
    forall n: nat ensures Top(g', released, n) <==> Top(g, released, n) {}
  }

  lemma ChildInSubtrees(g: Graph, rank: seq<nat>, parent: nat, child: nat)
    requires Linked(g, rank) && 0 < child < |rank| && parent < |rank| && g.parent[child] == Some(parent)
    ensures forall t: nat {:trigger Subtree(g, rank, t)} ::
      parent in Subtree(g, rank, t) ==> child in Subtree(g, rank, t)
  {
    hide TreeLinks, Mirror, RankedTree, RankedAdoption, Bare, AdoptionsAllocated;
  }

  lemma RegisteredLeak(g: Graph, released: set<nat>, lists: seq<seq<nat>>, ran: seq<nat>, a: nat, job: nat)
    requires a < |lists| && a < |g.freeing| && (g.freeing[a] ==> Top(g, released, a)) && job !in ran
    ensures Leakless(g, released, lists, ran) ==>
      (Leakless(g, released, lists[a := lists[a] + [job]], ran) <==> Live(g, a))
  {
    var lists' := lists[a := lists[a] + [job]];
    assert job in lists'[a];
    if Top(g, released, a) { assert !AllIn(lists'[a], ran); }
  }

  lemma PendingRan(jobs: seq<nat>, callback: seq<bool>, async: set<nat>, ran: seq<nat>)
    requires Known(jobs, |callback|)
    ensures AllIn(Pending(jobs, callback, async), ran + Runnable(jobs, callback))
  {}

  lemma OnlyItem(list: seq<nat>, job: nat)
    ensures RemoveFirst(list, job) == [] <==> list == [] || list == [job]
  {
    if list != [] {
      assert list == [list[0]] + list[1..];
    }
  }

  /** What releasing a waiting subtree does to the books. */
  lemma {:induction false} ReleaseTop(
      g: Graph, rank: seq<nat>, released: set<nat>, here: seq<nat>, allocations: seq<seq<nat>>, space: int,
      maxSpace: int, lists: seq<seq<nat>>, owner: seq<nat>, ran: seq<nat>, x: nat)
    requires Linked(g, rank) && Settled(g) && Together(g, released) && Top(g, released, x) && |here| == |rank|
    requires Accounted(here, allocations, released, space, maxSpace) && JobsInOrder(g, released, lists, owner, ran)
    ensures x < |rank| && x in Subtree(g, rank, x) && Subtree(g, rank, x) !! released
    ensures Together(g, released + Subtree(g, rank, x))
    ensures JobsInOrder(g, released + Subtree(g, rank, x), lists, owner, ran)
    ensures Accounted(here, allocations, released + Subtree(g, rank, x), space + Total(here, Subtree(g, rank, x)),
                      maxSpace)
  {
    hide TreeLinks, Mirror, RankedTree, RankedAdoption, Bare, AdoptionsAllocated, Settled, Together;
    hide Accounted, JobsInOrder, Above;
    var s := Subtree(g, rank, x);
    AboveSelf(g, rank, x);
    forall n | n in s ensures n !in released { SubtreeUnreleased(g, rank, released, x, n); }
    ReleaseTogether(g, rank, released, x);
    JobsRelease(g, released, s, lists, owner, ran);
    AccountRelease(here, allocations, released, space, maxSpace, s);
  }

  lemma {:induction false} FreedJobsKnown(
      g0: Graph, released: set<nat>, lists: seq<seq<nat>>, owner: seq<nat>, ran: seq<nat>, freed: set<nat>)
    requires JobsInOrder(g0, released, lists, owner, ran) && freed <= LiveSet(g0)
    ensures forall n: nat :: n in freed && n < |lists| ==> Known(lists[n], |owner|)
  {
    forall n: nat | n in freed && n < |lists| ensures Known(lists[n], |owner|) {
      assert Live(g0, n);
      forall i | 0 <= i < |lists[n]| ensures lists[n][i] < |owner| { assert lists[n][i] in lists[n]; }
    }
  }

  /** After the marshalling every gathered job belongs to the top. */
  lemma {:induction false} MarshalledOwners(
      g0: Graph, released: set<nat>, lists: seq<seq<nat>>, owner: seq<nat>, owner': seq<nat>, ran: seq<nat>,
      freed: set<nat>, top: nat, list: seq<nat>)
    requires JobsInOrder(g0, released, lists, owner, ran) && freed <= LiveSet(g0) && top in freed && top < |lists|
    requires multiset(list) == AllJobs(lists, freed) && Known(list, |owner|)
    requires Reassigned(owner, owner', AllJobs(lists, freed - {top}), top)
    ensures Reassigned(owner, owner', AllJobs(lists, freed), top)
    ensures forall i :: 0 <= i < |list| ==> owner'[list[i]] == top
  {
    hide AllJobs;
    JobsHere(lists, top, freed);
    assert Live(g0, top);
    forall j: nat | j < |owner| ensures owner'[j] == if j in AllJobs(lists, freed) then top else owner[j] {
      if j in multiset(lists[top]) { assert j in lists[top]; }
    }
    forall i | 0 <= i < |list| ensures owner'[list[i]] == top { assert list[i] in multiset(list); }
  }

  lemma {:induction false} TopsAfter(
      g0: Graph, g: Graph, rank: seq<nat>, top: nat, lv: Levels, released: set<nat>)
    requires Progress(g0, g, rank, top, lv, NOBODY) && Together(g0, released) && top in lv
    ensures forall n: nat :: Top(g, released, n) && n != top ==> Top(g0, released, n)
    ensures forall n: nat :: Top(g0, released, n) ==> Top(g, released, n)
    ensures Top(g, released, top) && |g.freeing| == |g0.freeing|
  {
    hide TreeLinks, Mirror, RankedTree, RankedAdoption, Bare, AdoptionsAllocated, EdgesKept, MarkedAreCut;
    hide Settled;
  }

  lemma LeaklessAfter(
      g0: Graph, g: Graph, released: set<nat>, lists: seq<seq<nat>>, top: nat, list: seq<nat>, freed: set<nat>,
      ran: seq<nat>, ran': seq<nat>)
    requires top < |lists| && top in freed && AllIn(list, ran') && ran <= ran'
    requires forall n: nat :: Top(g, released, n) && n != top ==> Top(g0, released, n)
    ensures Leakless(g0, released, lists, ran) && list != [] ==> Leakless(g, released, lists[top := list], ran')
    ensures Leakless(g0, released, lists, ran) ==> Leakless(g, released + freed, lists[top := list], ran')
  {
    forall n: nat ensures Top(g, released + freed, n) ==> Top(g, released, n) && n != top {}
    forall j | j in ran ensures j in ran' {
      var i :| 0 <= i < |ran| && ran[i] == j;
      assert ran'[i] == j;
    }
  }

  lemma {:induction false} AdoptBooks(
      g: Graph, rank: seq<nat>, released: set<nat>, lists: seq<seq<nat>>, owner: seq<nat>, started: seq<nat>,
      ran: seq<nat>, p: nat, c: nat)
    requires Linked(g, rank) && Settled(g) && Live(g, p) && Live(g, c) && !Ancestor(g, rank, c, p)
    requires Together(g, released) && JobsInOrder(g, released, lists, owner, started)
    ensures Linked(AfterAdopt(g, p, c), Sunk(g, rank, p, c)) && Settled(AfterAdopt(g, p, c))
    ensures Together(AfterAdopt(g, p, c), released) && JobsInOrder(AfterAdopt(g, p, c), released, lists, owner, started)
    ensures Leakless(g, released, lists, ran) ==> Leakless(AfterAdopt(g, p, c), released, lists, ran)
    ensures forall n: nat, q: nat {:trigger ParentCount(AfterAdopt(g, p, c), n, q)} :: n < |rank| ==>
      ParentCount(AfterAdopt(g, p, c), n, q) == ParentCount(g, n, q) + if n == c && q == p then 1 else 0
  {
    hide TreeLinks, Mirror, RankedTree, RankedAdoption, Bare, AdoptionsAllocated, Together, JobsInOrder;
    hide Ancestor;
    var r := AfterAdopt(g, p, c);
    if c == 0 { RootIsAncestor(g, rank, p); }
    AdoptLinked(g, rank, p, c);
    SettledSame(g, r);
    BooksMove(g, r, Sunk(g, rank, p, c), released, lists, owner, started);
    forall n: nat, q: nat {:trigger ParentCount(r, n, q)} | n < |rank|
      ensures ParentCount(r, n, q) == ParentCount(g, n, q) + if n == c && q == p then 1 else 0
    {
      CountPush(p, g.adopters[c], q);
    }
  }

  lemma LinkedSize(g: Graph, rank: seq<nat>)
    requires Linked(g, rank)
    ensures Sized(g, |rank|)
  {}

  lemma SettledSame(g: Graph, g': Graph)
    requires Sized(g, |g.parent|) && Sized(g', |g.parent|) && g'.parent == g.parent && g'.freeing == g.freeing
    requires Settled(g)
    ensures Settled(g')
  {
    forall n: nat, p: nat | ChildOf(g', n, p) && n != 0 && p < |g'.parent| ensures g'.freeing[n] == g'.freeing[p] {
      assert ChildOf(g, n, p);
    }
  }

  lemma {:induction false} DisownBooks(
      g: Graph, rank: seq<nat>, released: set<nat>, lists: seq<seq<nat>>, owner: seq<nat>, started: seq<nat>,
      ran: seq<nat>, p: nat, c: nat)
    requires Linked(g, rank) && Settled(g) && p < |rank| && c < |rank|
    requires Together(g, released) && JobsInOrder(g, released, lists, owner, started)
    ensures Linked(AfterDisconnectAdopted(g, p, c), rank) && Settled(AfterDisconnectAdopted(g, p, c))
    ensures Together(AfterDisconnectAdopted(g, p, c), released)
    ensures JobsInOrder(AfterDisconnectAdopted(g, p, c), released, lists, owner, started)
    ensures Leakless(g, released, lists, ran) ==> Leakless(AfterDisconnectAdopted(g, p, c), released, lists, ran)
  {
    hide TreeLinks, Mirror, RankedTree, RankedAdoption, Bare, AdoptionsAllocated, Together, JobsInOrder;
    var r := AfterDisconnectAdopted(g, p, c);
    DisconnectAdoptedLinked(g, rank, p, c);
    SettledSame(g, r);
    BooksMove(g, r, rank, released, lists, owner, started);
  }

  lemma {:induction false} DisownCounts(g: Graph, rank: seq<nat>, p: nat, c: nat)
    requires Linked(g, rank) && p < |rank| && c < |rank| && Count(g.adopters[c], p) > 0
    ensures forall n: nat, q: nat {:trigger ParentCount(AfterDisconnectAdopted(g, p, c), n, q)} :: n < |rank| ==>
      ParentCount(AfterDisconnectAdopted(g, p, c), n, q) ==
      ParentCount(g, n, q) - if n == c && q == p then 1 else 0
  {
    hide TreeLinks, Mirror, RankedTree, RankedAdoption, Bare, AdoptionsAllocated;
    forall n: nat, q: nat {:trigger ParentCount(AfterDisconnectAdopted(g, p, c), n, q)} | n < |rank|
      ensures ParentCount(AfterDisconnectAdopted(g, p, c), n, q) ==
              ParentCount(g, n, q) - if n == c && q == p then 1 else 0
    {
      DisconnectAdoptedCounts(g, p, c, n, q);
    }
  }

  lemma MarkedInRange(g0: Graph, g: Graph, rank: seq<nat>, top: nat, lv: Levels)
    requires Progress(g0, g, rank, top, lv, NOBODY)
    ensures Linked(g, rank) && forall n: nat :: n in lv ==> n < |rank|
  {}

  lemma {:induction false} MarkedOrLive(g0: Graph, g: Graph, rank: seq<nat>, top: nat, lv: Levels)
    requires Progress(g0, g, rank, top, lv, NOBODY)
    ensures forall n: nat :: Live(g0, n) ==> (g.freeing[n] <==> n in lv)
  {
    hide TreeLinks, Mirror, RankedTree, RankedAdoption, Bare, AdoptionsAllocated, EdgesKept, MarkedAreCut;
    hide MarkedTree, Settled;
  }

  lemma {:induction false} MovedBooks(
      g: Graph, g': Graph, rank: seq<nat>, released: set<nat>, lists: seq<seq<nat>>, owner: seq<nat>, started: seq<nat>,
      ran: seq<nat>, top: nat)
    requires Linked(g, rank) && Live(g, top) && MovedTo(g, g', rank, top)
    requires Together(g, released) && JobsInOrder(g, released, lists, owner, started)
    ensures Together(g', released) && JobsInOrder(g', released, lists, owner, started)
    ensures Leakless(g, released, lists, ran) ==> Leakless(g', released, lists, ran)
  {
    hide TreeLinks, Mirror, RankedTree, RankedAdoption, Bare, AdoptionsAllocated, Settled, Together;
    hide JobsInOrder;
    BooksMove(g, g', rank, released, lists, owner, started);
  }

  /** The check at line 491 compares the live bytes with the budget: it trips exactly when a
      detached subtree still holds bytes. */
  lemma {:induction false} RootBytes(
      g: Graph, rank: seq<nat>, released: set<nat>, here: seq<nat>, allocations: seq<seq<nat>>, space: int,
      maxSpace: int)
    requires Linked(g, rank) && Settled(g) && Live(g, 0) && Together(g, released) && |here| == |rank|
    requires Accounted(here, allocations, released, space, maxSpace)
    ensures Total(here, Subtree(g, rank, 0)) + space == maxSpace <==>
            Total(here, Unreleased(|rank|, released) - LiveSet(g)) == 0
  {
    hide TreeLinks, Mirror, RankedTree, RankedAdoption, Bare, AdoptionsAllocated, Settled, Above, Total;
    var live, kept := LiveSet(g), Unreleased(|rank|, released);
    forall n: nat | n < |rank| ensures Above(g, rank, 0, n) <==> Live(g, n) { RootSubtree(g, rank, n); }
    assert Subtree(g, rank, 0) == live;
    assert kept == live + (kept - live);
    TotalUnion(here, live, kept - live);
  }

  /** The root can be reached only through itself, so freeing it frees everything live. */
  lemma {:induction false} RootGone(
      g: Graph, g': Graph, freed: set<nat>, released: set<nat>, here: seq<nat>, allocations: seq<seq<nat>>, space: int,
      maxSpace: int)
    requires Sized(g, |g.parent|) && Sized(g', |g.parent|) && FreedExactly(g, g', 0, freed)
    requires Accounted(here, allocations, released + freed, space, maxSpace)
    requires Total(here, Unreleased(|here|, released) - LiveSet(g)) == 0
    ensures space == maxSpace
  {
    hide Total;
    forall n | n in LiveSet(g) ensures n in freed {
      assert !HasParentBesides(g, 0, n);
    }
    assert Unreleased(|here|, released + freed) == Unreleased(|here|, released) - LiveSet(g);
  }

  lemma FirstTree(g: Graph, s: Siblings, space: int, maxSpace: int, bytes: nat)
    requires g == Graph([Some(0)], [[]], [[]], [[]], [false], [false]) && s == Siblings([None], [None], [None])
    requires space >= 0 && space + bytes == maxSpace
    ensures Linked(g, [0]) && Settled(g) && Together(g, {}) && JobsInOrder(g, {}, [[]], [], [])
    ensures Threaded(g, s) && Leakless(g, {}, [[]], [])
    ensures Accounted([bytes], [[bytes]], {}, space, maxSpace)
  {
    FirstLinks(g);
    assert [bytes][1..] == [] && [bytes][..0] == [];
    assert Total([], Unreleased(1, {})) == 0;
    var lists: seq<seq<nat>> := [[]];
    assert lists[..0] == [];
    assert AllJobs(lists, LiveSet(g)) == multiset{};
  }

  lemma FirstLinks(g: Graph)
    requires g == Graph([Some(0)], [[]], [[]], [[]], [false], [false])
    ensures Linked(g, [0]) && Settled(g)
  {
    assert TreeLinks(g.parent, g.children);
  }

  lemma NoSubtrees(g: Graph, rank: seq<nat>)
    requires Linked(g, rank)
    ensures Subtrees(g, rank, []) == {}
  {}

  /** Freeing an adopted allocator only replaces its natural parent by its first adopter: every
      other parent link of every allocator stays. */
  ghost predicate MovedTo(g: Graph, g': Graph, rank: seq<nat>, top: nat)
    requires Linked(g, rank) && top < |rank|
  {
    && Linked(g', rank) && Settled(g') && g'.freeing == g.freeing
    && g.adopters[top] != [] && g'.parent == g.parent[top := Some(g.adopters[top][0])]
    && forall m: nat, q: nat {:trigger ParentCount(g', m, q)} :: m < |rank| ==>
         ParentCount(g', m, q) == ParentCount(g, m, q) - if m == top && g.parent[top] == Some(q) then 1 else 0
  }

  lemma {:induction false} MovedLinks(g: Graph, rank: seq<nat>, top: nat)
    requires Linked(g, rank) && Settled(g) && Live(g, top) && g.adopters[top] != [] && g.parent[top].Some?
    ensures g.parent[top].value < |rank| && g.adopters[top][0] < |rank|
    ensures MovedTo(g, AfterPivot(g, top), rank, top)
  {
    hide AfterPivot, TreeLinks, Mirror, RankedTree, RankedAdoption, Bare, AdoptionsAllocated;
    PivotLinked(g, rank, top);
    var r := AfterPivot(g, top);
    forall m: nat, q: nat {:trigger ParentCount(r, m, q)} | m < |rank|
      ensures ParentCount(r, m, q) == ParentCount(g, m, q) - if m == top && g.parent[top] == Some(q) then 1 else 0
    {
      PivotCounts(g, rank, top, m, q);
    }
    forall n: nat, p: nat | ChildOf(r, n, p) && n != 0 && p < |rank| ensures r.freeing[n] == r.freeing[p] {
      if n != top { assert ChildOf(g, n, p); }
    }
  }

  lemma LiveHasParent(g: Graph, rank: seq<nat>, n: nat)
    requires Linked(g, rank) && Settled(g) && Live(g, n)
    ensures Sized(g, |rank|) && g.parent[n].Some? && g.parent[n].value < |rank|
    ensures g.parent[n] == Some(n) <==> n == 0
  {
  }

  lemma RoundsOver(g0: Graph, g: Graph, rank: seq<nat>, top: nat, lv: Levels, depth: nat)
    requires Rounds(g0, g, rank, top, lv, depth)
    ensures Progress(g0, g, rank, top, lv, NOBODY) && top in lv
    ensures exists n: nat :: n in lv && lv[n] == depth - 1
  {
  }

  lemma AdoptedChild(g: Graph, rank: seq<nat>, p: nat, c: nat)
    requires Linked(g, rank) && p < |rank| && c in g.adopted[p]
    ensures Live(g, c) && Live(g, p) && c != p && Count(g.adopters[c], p) > 0
  {
    CountIn(g.adopted[p], c);
    assert c < |rank|;
    assert Count(g.adopters[c], p) == Count(g.adopted[p], c);
    AdoptionEdge(g, rank, c, p);
    assert rank[p] < rank[c];
  }
}
