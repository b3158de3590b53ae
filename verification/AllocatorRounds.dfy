/** The depth-by-depth order in which a free visits the allocators under its top
    (memory/Allocator.c:388-397). */
module AllocatorRounds {
  import opened CTypes
  import opened Lists
  import opened AllocatorGraph
  import opened AllocatorFree
  import opened AllocatorDominance

  /** In the middle of round `depth`, which began with the links g1 and the marks lv1.  The
      children of every allocator in `done` have been visited, and possibly some of `current`. */
  ghost predicate Round(
      g0: Graph, g1: Graph, g: Graph, rank: seq<nat>, top: nat, lv1: Levels, lv: Levels, depth: nat,
      done: set<nat>, current: int)
  {
    && Progress(g0, g1, rank, top, lv1, NOBODY) && top in lv1
    && Progress(g0, g, rank, top, lv, NOBODY)
    && SinceRoundStart(g1, g, lv1, lv, depth)
    && Visited(g, lv1, lv, depth, done, current)
  }

  ghost predicate SinceRoundStart(g1: Graph, g: Graph, lv1: Levels, lv: Levels, depth: nat)
    requires forall n: nat :: n in lv1 ==> n < |g.parent| && n < |g1.parent|
  {
    && (forall n: nat :: n in lv1 ==> n in lv && lv[n] == lv1[n] && lv1[n] < depth && g.parent[n] == g1.parent[n])
    && (forall n: nat :: n in lv ==> n in lv1 || lv[n] == depth)
    && OpenFrom(g, lv, depth - 1)
  }

  ghost predicate Visited(g: Graph, lv1: Levels, lv: Levels, depth: nat, done: set<nat>, current: int) {
    && (forall q: nat :: q in done ==> q in lv1 && lv1[q] == depth - 1)
    && (forall n: nat, q: nat :: ChildOf(g, n, q) && q in done ==> !Live(g, n))
    && (forall n: nat, q: nat :: ChildOf(g, n, q) && n in lv && n !in lv1 ==> q in done || q == current)
  }

  /** Live allocators hang only under marked ones of level `depth` or deeper. */
  ghost predicate OpenFrom(g: Graph, lv: Levels, depth: int) {
    forall n: nat, p: nat :: ChildOf(g, n, p) && Live(g, n) && p in lv ==> lv[p] >= depth
  }

  /** The marked allocator of level `d` above `q`. */
  ghost function AncestorAt(g: Graph, lv: Levels, q: nat, d: nat): nat
    requires Sized(g, |g.parent|) && (forall n: nat :: n in lv ==> n < |g.parent|)
    requires q in lv
    decreases lv[q]
  {
    if lv[q] <= d then q else
    if g.parent[q].Some? && g.parent[q].value in lv && lv[g.parent[q].value] < lv[q]
    then AncestorAt(g, lv, g.parent[q].value, d) else q
  }

  /** Between level d and d + 1 the chain takes one natural parent link. */
  lemma {:induction false} AncestorStep(g: Graph, size: nat, top: nat, lv: Levels, q: nat, d: nat)
    requires Sized(g, size) && (forall n: nat :: n in lv ==> n < size)
    requires MarkedTree(g, size, top, lv)
    requires q in lv && lv[q] > d
    ensures AncestorAt(g, lv, q, d + 1) in lv && lv[AncestorAt(g, lv, q, d + 1)] == d + 1
    ensures ChildOf(g, AncestorAt(g, lv, q, d + 1), AncestorAt(g, lv, q, d))
    ensures AncestorAt(g, lv, q, d) in lv && lv[AncestorAt(g, lv, q, d)] == d
    decreases lv[q]
  {
    var p := g.parent[q].value;
    assert ChildOf(g, q, p);
    if lv[q] > d + 1 { AncestorStep(g, size, top, lv, p, d); }
  }

  lemma {:induction false} AncestorTop(g: Graph, size: nat, top: nat, lv: Levels, q: nat)
    requires Sized(g, size) && (forall n: nat :: n in lv ==> n < size)
    requires MarkedTree(g, size, top, lv) && q in lv
    ensures AncestorAt(g, lv, q, 0) == top
    decreases lv[q]
  {
    if q != top {
      assert ChildOf(g, q, g.parent[q].value);
      AncestorTop(g, size, top, lv, g.parent[q].value);
    }
  }

  /** The allocators of level maxDepth - 1 below those of level `depth` in `list`. */
  ghost function Under(g1: Graph, lv1: Levels, list: seq<nat>, depth: nat, maxDepth: nat): set<nat>
    requires Sized(g1, |g1.parent|) && (forall n: nat :: n in lv1 ==> n < |g1.parent|)
  {
    set q | q in lv1 && lv1[q] == maxDepth - 1 && AncestorAt(g1, lv1, q, depth) in list
  }

  lemma UnderExtend(g1: Graph, lv1: Levels, list: seq<nat>, i: nat, depth: nat, maxDepth: nat)
    requires Sized(g1, |g1.parent|) && (forall n: nat :: n in lv1 ==> n < |g1.parent|)
    requires i < |list| && Count(list, list[i]) <= 1
    ensures Under(g1, lv1, list[..i + 1], depth, maxDepth) ==
            Under(g1, lv1, list[..i], depth, maxDepth) + Under(g1, lv1, [list[i]], depth, maxDepth)
    ensures Under(g1, lv1, list[..i], depth, maxDepth) !! Under(g1, lv1, [list[i]], depth, maxDepth)
  {
    assert list[..i + 1] == list[..i] + [list[i]];
    forall j | 0 <= j < i ensures list[j] != list[i] { CountDistinctLater(list, j, i); }
  }

  lemma CountDistinctLater(s: seq<nat>, i: nat, j: nat)
    requires i < j < |s| && Count(s, s[j]) <= 1
    ensures s[i] != s[j]
  {
    if s[i] == s[j] { CountDistinct(s, i, j); }
  }

  lemma ChildListed(parent: seq<Option<nat>>, children: seq<seq<nat>>, c: nat, p: nat)
    requires |parent| == |children| && TreeLinks(parent, children) && p < |parent| && 0 < c < |parent|
    ensures c in children[p] <==> parent[c] == Some(p)
  {
    assert Count(children[p], c) == if 0 < c < |parent| && parent[c] == Some(p) then 1 else 0;
    CountIn(children[p], c);
  }

  lemma {:induction false} UnderChild(
      g1: Graph, g: Graph, size: nat, top: nat, lv1: Levels, context: nat, depth: nat, q: nat)
    requires Sized(g1, size) && Sized(g, size) && (forall n: nat :: n in lv1 ==> n < size)
    requires MarkedTree(g1, size, top, lv1) && TreeLinks(g.parent, g.children)
    requires forall n: nat :: n in lv1 ==> g.parent[n] == g1.parent[n]
    requires context in lv1 && q in lv1 && lv1[q] > depth
    ensures AncestorAt(g1, lv1, q, depth) == context <==> AncestorAt(g1, lv1, q, depth + 1) in g.children[context]
  {
    hide AncestorAt;
    AncestorStep(g1, size, top, lv1, q, depth);
    var a := AncestorAt(g1, lv1, q, depth + 1);
    assert a != top && 0 < a < size && g.parent[a] == g1.parent[a];
    ChildListed(g.parent, g.children, a, context);
  }

  /** Below one allocator lie exactly the allocators below its children. */
  lemma {:induction false} UnderChildren(
      g0: Graph, g1: Graph, g: Graph, rank: seq<nat>, top: nat, lv1: Levels, lv: Levels, maxDepth: nat,
      done: set<nat>, context: nat, depth: nat)
    requires Round(g0, g1, g, rank, top, lv1, lv, maxDepth, done, NOBODY)
    requires context in lv1 && lv1[context] == depth && depth + 1 < maxDepth
    ensures Under(g1, lv1, [context], depth, maxDepth) == Under(g1, lv1, g.children[context], depth + 1, maxDepth)
  {
    hide AncestorAt, TreeLinks, Mirror, RankedTree, RankedAdoption, Bare, AdoptionsAllocated, EdgesKept;
    hide MarkedTree, MarkedAreCut, Settled, Visited, OpenFrom;
    forall q | q in lv1 && lv1[q] == maxDepth - 1
      ensures AncestorAt(g1, lv1, q, depth) == context <==> AncestorAt(g1, lv1, q, depth + 1) in g.children[context]
    {
      UnderChild(g1, g, |rank|, top, lv1, context, depth, q);
    }
  }

  /** At the last level an allocator lies only below itself, and all of them lie below the top. */
  lemma UnderSelf(g1: Graph, lv1: Levels, context: nat, depth: nat)
    requires Sized(g1, |g1.parent|) && (forall n: nat :: n in lv1 ==> n < |g1.parent|)
    requires context in lv1 && lv1[context] == depth
    ensures Under(g1, lv1, [context], depth, depth + 1) == {context}
  {
  }

  lemma {:induction false} UnderTop(g1: Graph, size: nat, top: nat, lv1: Levels, maxDepth: nat)
    requires Sized(g1, size) && (forall n: nat :: n in lv1 ==> n < size) && MarkedTree(g1, size, top, lv1)
    ensures forall q: nat :: q in lv1 && lv1[q] == maxDepth - 1 ==> q in Under(g1, lv1, [top], 0, maxDepth)
  {
    forall q: nat | q in lv1 && lv1[q] == maxDepth - 1 ensures q in Under(g1, lv1, [top], 0, maxDepth) {
      AncestorTop(g1, size, top, lv1, q);
    }
  }

  // ---------------------------------------------------------------- the children of one allocator

  lemma {:induction false} ListedChild(g: Graph, rank: seq<nat>, n: nat, q: nat)
    requires Linked(g, rank) && q < |rank| && n in g.children[q]
    ensures n < |rank| && n != 0 && ChildOf(g, n, q) && Count(g.children[q], n) == 1
  {
    CountIn(g.children[q], n);
  }

  lemma {:induction false} ChildIsListed(g: Graph, rank: seq<nat>, n: nat, q: nat)
    requires Linked(g, rank) && ChildOf(g, n, q) && n != 0
    ensures q < |rank| && n in g.children[q]
  {
    assert Count(g.children[q], n) == 1;
    CountIn(g.children[q], n);
  }

  /** A child of a marked allocator is live or was marked by this free. */
  lemma {:induction false} ChildOfMarked(
      g0: Graph, g: Graph, rank: seq<nat>, top: nat, lv: Levels, c: nat, q: nat)
    requires Progress(g0, g, rank, top, lv, NOBODY)
    requires ChildOf(g, c, q) && c != 0 && q in lv
    ensures Live(g, c) || (c in lv && c != top && lv[c] == lv[q] + 1)
  {
    hide TreeLinks, Mirror, RankedTree, RankedAdoption, Bare, AdoptionsAllocated, EdgesKept, MarkedAreCut;
    assert g0.freeing[c] ==> ChildOf(g0, c, q);
  }

  /** Above the last level every child is marked. */
  lemma {:induction false} InnerChild(
      g0: Graph, g1: Graph, g: Graph, rank: seq<nat>, top: nat, lv1: Levels, lv: Levels, depth: nat,
      done: set<nat>, c: nat, q: nat)
    requires Round(g0, g1, g, rank, top, lv1, lv, depth, done, NOBODY)
    requires ChildOf(g, c, q) && c != 0 && q in lv1 && lv1[q] + 1 < depth
    ensures c in lv1 && lv1[c] == lv1[q] + 1
  {
    hide TreeLinks, Mirror, RankedTree, RankedAdoption, Bare, AdoptionsAllocated, EdgesKept, MarkedAreCut;
    hide MarkedTree, Settled;
    ChildOfMarked(g0, g, rank, top, lv, c, q);
  }

  /** At the last level no child has been marked before its turn (line 373). */
  lemma {:induction false} LeafChild(
      g0: Graph, g1: Graph, g: Graph, rank: seq<nat>, top: nat, lv1: Levels, lv: Levels, depth: nat,
      done: set<nat>, c: nat, q: nat)
    requires Round(g0, g1, g, rank, top, lv1, lv, depth, done, NOBODY)
    requires ChildOf(g, c, q) && c != 0 && q in lv1 && lv1[q] + 1 == depth && q !in done
    ensures Live(g, c)
  {
    hide TreeLinks, Mirror, RankedTree, RankedAdoption, Bare, AdoptionsAllocated, EdgesKept, MarkedAreCut;
    hide MarkedTree, Settled;
    ChildOfMarked(g0, g, rank, top, lv, c, q);
  }

  // ---------------------------------------------------------------- one allocator of the round

  ghost predicate OthersKept(g: Graph, g': Graph, context: nat) {
    && |g.parent| == |g'.parent| == |g.freeing| == |g'.freeing|
    && forall n: nat :: n < |g.parent| && n != context ==>
         g'.parent[n] == g.parent[n] && g'.freeing[n] == g.freeing[n]
  }

  lemma {:induction false} PivotRound(
      g0: Graph, g1: Graph, g: Graph, rank: seq<nat>, top: nat, lv1: Levels, lv: Levels, depth: nat,
      done: set<nat>, n: nat, q: nat)
    requires Round(g0, g1, g, rank, top, lv1, lv, depth, done, q)
    requires Live(g, n) && g.parent[n] == Some(q) && q in lv1 && g.adopters[n] != []
    ensures q < |rank| && g.adopters[n][0] < |rank|
    ensures Round(g0, g1, AfterPivot(g, n), rank, top, lv1, lv, depth, done, q)
    ensures OthersKept(g, AfterPivot(g, n), n) && !ChildOf(AfterPivot(g, n), n, q)
  {
    hide AfterPivot, TreeLinks, Mirror, RankedTree, RankedAdoption, Bare, AdoptionsAllocated, EdgesKept;
    hide MarkedAreCut, MarkedTree, Settled;
    PivotLinked(g, rank, n);
    PivotProgress(g0, g, rank, top, lv, n);
    var r := AfterPivot(g, n);
    forall m: nat, p: nat | ChildOf(r, m, p) && (p in lv || m in lv)
      ensures ChildOf(g, m, p)
    {
    }
  }

  /** The child lists of the marked allocators, except that of `parent`. */
  ghost predicate ListsKept(g: Graph, g': Graph, lv1: Levels, parent: nat) {
    forall q: nat :: q in lv1 && q != parent && q < |g.children| ==>
      q < |g'.children| && g'.children[q] == g.children[q]
  }

  lemma ListsStart(g: Graph, lv1: Levels, parent: nat)
    ensures ListsKept(g, g, lv1, parent)
  {}

  lemma ListsTwice(g: Graph, g': Graph, g'': Graph, lv1: Levels, parent: nat)
    requires ListsKept(g, g', lv1, parent) && ListsKept(g', g'', lv1, parent)
    ensures ListsKept(g, g'', lv1, parent)
  {}

  /** The child lists above the last level of round `depth`. */
  ghost predicate InnerListsKept(g: Graph, g': Graph, lv1: Levels, depth: nat) {
    forall q: nat :: q in lv1 && lv1[q] + 1 < depth && q < |g.children| ==>
      q < |g'.children| && g'.children[q] == g.children[q]
  }

  lemma InnerListsStart(g: Graph, lv1: Levels, depth: nat)
    ensures InnerListsKept(g, g, lv1, depth)
  {}

  lemma InnerListsTwice(g: Graph, g': Graph, g'': Graph, lv1: Levels, depth: nat, context: nat)
    requires InnerListsKept(g, g', lv1, depth) && InnerListsKept(g', g'', lv1, depth)
    requires context in lv1 && lv1[context] + 1 < depth && context < |g'.children|
    ensures InnerListsKept(g, g'', lv1, depth)
    ensures context < |g''.children| && g''.children[context] == g'.children[context]
  {}

  lemma InnerLists(g: Graph, g': Graph, lv1: Levels, depth: nat, parent: nat)
    requires ListsKept(g, g', lv1, parent) && parent in lv1 && lv1[parent] + 1 == depth
    ensures InnerListsKept(g, g', lv1, depth)
  {}

  /** A rescued allocator leaves its parent's list and joins that of a live allocator. */
  lemma {:induction false} PivotLists(g: Graph, rank: seq<nat>, lv1: Levels, n: nat, q: nat)
    requires Sized(g, |rank|) && n < |rank| && q < |rank| && Linked(g, rank)
    requires Live(g, n) && g.parent[n] == Some(q) && q in lv1 && g.adopters[n] != []
    requires forall m: nat :: m in lv1 ==> !Live(g, m)
    ensures g.adopters[n][0] < |rank|
    ensures ListsKept(g, AfterPivot(g, n), lv1, q)
    ensures AfterPivot(g, n).children[q] == RemoveFirst(g.children[q], n)
  {
    hide TreeLinks, Mirror, RankedTree, RankedAdoption, Bare, AdoptionsAllocated, RemoveFirst;
    PivotLinked(g, rank, n);
    assert g.adopters[n][0] !in lv1;
  }

  lemma MarkedNotLive(
      g0: Graph, g1: Graph, g: Graph, rank: seq<nat>, top: nat, lv1: Levels, lv: Levels, depth: nat,
      done: set<nat>, current: int)
    requires Round(g0, g1, g, rank, top, lv1, lv, depth, done, current)
    ensures forall m: nat :: m in lv1 ==> !Live(g, m)
  {
    hide Linked, EdgesKept, MarkedAreCut, MarkedTree, Settled, OpenFrom, Visited;
  }

  lemma {:induction false} MarkRound(
      g0: Graph, g1: Graph, g: Graph, d: Graph, rank: seq<nat>, top: nat, lv1: Levels, lv: Levels, depth: nat,
      done: set<nat>, n: nat, q: nat)
    requires Round(g0, g1, g, rank, top, lv1, lv, depth, done, q)
    requires Progress(g0, d, rank, top, lv, n) && d.parent == g.parent && d.freeing == g.freeing
    requires Live(d, n) && d.adopters[n] == [] && d.adopted[n] == [] && n != 0
    requires d.parent[n] == Some(q) && q in lv1 && lv1[q] + 1 == depth
    ensures n !in lv && Round(g0, g1, AfterMark(d, n), rank, top, lv1, lv[n := depth], depth, done, q)
    ensures OthersKept(g, AfterMark(d, n), n) && !Live(AfterMark(d, n), n)
  {
    hide TreeLinks, Mirror, RankedTree, RankedAdoption, Bare, AdoptionsAllocated, EdgesKept, MarkedAreCut;
    hide MarkedTree, Settled;
    MarkProgress(g0, d, rank, top, lv, n, q);
    var r := AfterMark(d, n);
    forall m: nat, p: nat | ChildOf(r, m, p)
      ensures ChildOf(g, m, p) && (Live(r, m) ==> Live(g, m))
    {
    }
  }

  /** When a round that visited every allocator of the last level is over, the next one can begin. */
  lemma {:induction false} RoundOver(
      g0: Graph, g1: Graph, g: Graph, rank: seq<nat>, top: nat, lv1: Levels, lv: Levels, depth: nat, done: set<nat>)
    requires Round(g0, g1, g, rank, top, lv1, lv, depth, done, NOBODY)
    requires done == Under(g1, lv1, [top], 0, depth)
    ensures OpenFrom(g, lv, depth)
    ensures lv == lv1 ==> Closed(g, lv)
  {
    hide TreeLinks, Mirror, RankedTree, RankedAdoption, Bare, AdoptionsAllocated, EdgesKept, MarkedAreCut;
    hide Settled;
    UnderTop(g1, |rank|, top, lv1, depth);
    forall n: nat, p: nat | ChildOf(g, n, p) && Live(g, n) && p in lv ensures lv[p] >= depth {
      assert p !in done;
    }
  }

  // ---------------------------------------------------------------- loop bookkeeping

  /** `out` allocators have been marked. */
  ghost predicate Grown(lv: Levels, lv': Levels, out: nat) {
    |lv'| == |lv| + out && (out == 0 ==> lv' == lv)
  }

  lemma GrownNot(lv: Levels)
    ensures Grown(lv, lv, 0)
  {}

  lemma GrownTwice(lv: Levels, lv1: Levels, lv2: Levels, out: nat, more: nat)
    requires Grown(lv, lv1, out) && Grown(lv1, lv2, more)
    ensures Grown(lv, lv2, out + more)
  {}

  lemma RoundBasics(
      g0: Graph, g1: Graph, g: Graph, rank: seq<nat>, top: nat, lv1: Levels, lv: Levels, depth: nat,
      done: set<nat>, current: int)
    requires Round(g0, g1, g, rank, top, lv1, lv, depth, done, current)
    ensures Linked(g, rank) && Sized(g, |rank|) && Sized(g1, |rank|)
    ensures Progress(g0, g, rank, top, lv, NOBODY)
    ensures forall n: nat :: n in lv1 ==> n < |rank|
  {
  }

  lemma Weaken(g0: Graph, g: Graph, rank: seq<nat>, top: nat, lv: Levels, hole: nat)
    requires Progress(g0, g, rank, top, lv, NOBODY)
    ensures Progress(g0, g, rank, top, lv, hole)
  {
  }

  /** From list[i] on, the children of `context` are still to be visited; before, none is left. */
  ghost predicate LeafLoop(g: Graph, list: seq<nat>, i: nat, context: nat)
    requires i <= |list|
  {
    && (forall j :: i <= j < |list| ==> list[j] != 0 && Live(g, list[j]) && ChildOf(g, list[j], context))
    && (forall n: nat :: ChildOf(g, n, context) && Live(g, n) && n != 0 ==> n in list[i..])
    && NoRepeats(list)
  }

  lemma LeafNext(g: Graph, list: seq<nat>, i: nat, context: nat)
    requires i < |list| && LeafLoop(g, list, i, context)
    ensures list[i] != 0 && Live(g, list[i]) && ChildOf(g, list[i], context)
    ensures NoRepeats(list)
  {}

  lemma LeafLoopStep(g: Graph, g': Graph, list: seq<nat>, i: nat, context: nat)
    requires i < |list| && LeafLoop(g, list, i, context) && OthersKept(g, g', list[i])
    requires !(ChildOf(g', list[i], context) && Live(g', list[i]))
    ensures LeafLoop(g', list, i + 1, context)
  {
    forall n: nat | ChildOf(g', n, context) && Live(g', n) && n != 0 ensures n in list[i + 1..] {
      assert ChildOf(g, n, context);
      assert list[i..] == [list[i]] + list[i + 1..];
    }
    forall j | i + 1 <= j < |list| ensures list[j] != 0 && Live(g', list[j]) && ChildOf(g', list[j], context) {
      assert ChildOf(g, list[j], context) && list[j] != list[i];
    }
  }

  lemma {:induction false} ChildrenStart(
      g0: Graph, g1: Graph, g: Graph, rank: seq<nat>, top: nat, lv1: Levels, lv: Levels, depth: nat,
      done: set<nat>, context: nat)
    requires Round(g0, g1, g, rank, top, lv1, lv, depth, done, NOBODY)
    requires context in lv1 && lv1[context] + 1 == depth && context !in done
    ensures Round(g0, g1, g, rank, top, lv1, lv, depth, done, context)
    ensures LeafLoop(g, g.children[context], 0, context)
  {
    hide TreeLinks, Mirror, RankedTree, RankedAdoption, Bare, AdoptionsAllocated, EdgesKept, MarkedTree;
    hide MarkedAreCut, Settled;
    var list := g.children[context];
    forall j | 0 <= j < |list| ensures list[j] != 0 && Live(g, list[j]) && ChildOf(g, list[j], context) {
      ListedChild(g, rank, list[j], context);
      LeafChild(g0, g1, g, rank, top, lv1, lv, depth, done, list[j], context);
    }
    forall n: nat | ChildOf(g, n, context) && Live(g, n) && n != 0 ensures n in list[0..] {
      ChildIsListed(g, rank, n, context);
    }
    forall j, k | 0 <= j < k < |list| ensures list[j] != list[k] {
      ListedChild(g, rank, list[j], context);
      CountDistinct(list, j, k);
    }
  }

  lemma {:induction false} ChildrenDone(
      g0: Graph, g1: Graph, g: Graph, rank: seq<nat>, top: nat, lv1: Levels, lv: Levels, depth: nat,
      done: set<nat>, context: nat, list: seq<nat>)
    requires Round(g0, g1, g, rank, top, lv1, lv, depth, done, context)
    requires context in lv1 && lv1[context] + 1 == depth
    requires LeafLoop(g, list, |list|, context)
    ensures Round(g0, g1, g, rank, top, lv1, lv, depth, done + {context}, NOBODY)
  {
    hide TreeLinks, Mirror, RankedTree, RankedAdoption, Bare, AdoptionsAllocated, EdgesKept, MarkedTree;
    hide MarkedAreCut, Settled;
    forall n: nat, q: nat | ChildOf(g, n, q) && q in done + {context} ensures !Live(g, n) {
      if n == 0 { assert q == 0 && q in lv; }
    }
  }

  /** A list of marked allocators of one level, each once. */
  ghost predicate InnerList(list: seq<nat>, lv1: Levels, level: nat) {
    forall j :: 0 <= j < |list| ==> list[j] in lv1 && lv1[list[j]] == level && Count(list, list[j]) <= 1
  }

  lemma InnerNext(list: seq<nat>, lv1: Levels, i: nat, level: nat)
    requires i < |list| && InnerList(list, lv1, level)
    ensures list[i] in lv1 && lv1[list[i]] == level && Count(list, list[i]) <= 1
  {}

  lemma {:induction false} InnerChildren(
      g0: Graph, g1: Graph, g: Graph, rank: seq<nat>, top: nat, lv1: Levels, lv: Levels, depth: nat,
      done: set<nat>, context: nat)
    requires Round(g0, g1, g, rank, top, lv1, lv, depth, done, NOBODY)
    requires context in lv1 && lv1[context] + 1 < depth
    ensures context < |g.children| && InnerList(g.children[context], lv1, lv1[context] + 1)
  {
    hide TreeLinks, Mirror, RankedTree, RankedAdoption, Bare, AdoptionsAllocated, EdgesKept, MarkedTree;
    hide MarkedAreCut, Settled, Visited, OpenFrom;
    var list := g.children[context];
    forall j | 0 <= j < |list|
      ensures list[j] in lv1 && lv1[list[j]] == lv1[context] + 1 && Count(list, list[j]) <= 1
    {
      ListedChild(g, rank, list[j], context);
      InnerChild(g0, g1, g, rank, top, lv1, lv, depth, done, list[j], context);
    }
  }

  lemma UnderNothing(g1: Graph, lv1: Levels, depth: nat, maxDepth: nat)
    requires Sized(g1, |g1.parent|) && (forall n: nat :: n in lv1 ==> n < |g1.parent|)
    ensures Under(g1, lv1, [], depth, maxDepth) == {}
  {
  }

  lemma UnderPart(g1: Graph, lv1: Levels, list: seq<nat>, i: nat, depth: nat, maxDepth: nat)
    requires Sized(g1, |g1.parent|) && (forall n: nat :: n in lv1 ==> n < |g1.parent|)
    requires i < |list|
    ensures Under(g1, lv1, [list[i]], depth, maxDepth) <= Under(g1, lv1, list, depth, maxDepth)
  {
  }

  /** Of what lies below the list, exactly what lies below its first `i` allocators has been seen. */
  ghost predicate Seen(
      g1: Graph, lv1: Levels, list: seq<nat>, i: nat, depth: nat, maxDepth: nat, done: set<nat>, seen: set<nat>)
    requires Sized(g1, |g1.parent|) && (forall n: nat :: n in lv1 ==> n < |g1.parent|) && i <= |list|
  {
    && done !! Under(g1, lv1, list, depth, maxDepth)
    && seen == done + Under(g1, lv1, list[..i], depth, maxDepth)
  }

  lemma SeenStart(g1: Graph, lv1: Levels, list: seq<nat>, depth: nat, maxDepth: nat, done: set<nat>)
    requires Sized(g1, |g1.parent|) && (forall n: nat :: n in lv1 ==> n < |g1.parent|)
    requires done !! Under(g1, lv1, list, depth, maxDepth)
    ensures Seen(g1, lv1, list, 0, depth, maxDepth, done, done)
  {
    UnderNothing(g1, lv1, depth, maxDepth);
    assert list[..0] == [];
  }

  lemma SeenTurn(
      g1: Graph, lv1: Levels, list: seq<nat>, i: nat, depth: nat, maxDepth: nat, done: set<nat>, seen: set<nat>)
    requires Sized(g1, |g1.parent|) && (forall n: nat :: n in lv1 ==> n < |g1.parent|)
    requires i < |list| && Count(list, list[i]) <= 1 && Seen(g1, lv1, list, i, depth, maxDepth, done, seen)
    ensures seen !! Under(g1, lv1, [list[i]], depth, maxDepth)
    ensures Seen(g1, lv1, list, i + 1, depth, maxDepth, done, seen + Under(g1, lv1, [list[i]], depth, maxDepth))
  {
    hide Under, Count;
    UnderExtend(g1, lv1, list, i, depth, maxDepth);
    UnderPart(g1, lv1, list, i, depth, maxDepth);
  }

  lemma SeenAll(
      g1: Graph, lv1: Levels, list: seq<nat>, i: nat, depth: nat, maxDepth: nat, done: set<nat>, seen: set<nat>)
    requires Sized(g1, |g1.parent|) && (forall n: nat :: n in lv1 ==> n < |g1.parent|)
    requires i == |list| && Seen(g1, lv1, list, i, depth, maxDepth, done, seen)
    ensures seen == done + Under(g1, lv1, list, depth, maxDepth)
  {
    assert list[..i] == list;
  }

  // ---------------------------------------------------------------- first and last rounds

  /** Between two rounds. */
  ghost predicate Rounds(g0: Graph, g: Graph, rank: seq<nat>, top: nat, lv: Levels, depth: nat) {
    && Progress(g0, g, rank, top, lv, NOBODY) && top in lv
    && (forall n: nat :: n in lv ==> lv[n] < depth)
    && (exists n: nat :: n in lv && lv[n] == depth - 1)
    && OpenFrom(g, lv, depth - 1)
  }

  lemma {:induction false} FirstRound(g0: Graph, g: Graph, rank: seq<nat>, top: nat)
    requires Progress(g0, g, rank, top, map[], top)
    requires Live(g, top) && g.adopters[top] == [] && g.adopted[top] == []
    ensures g.parent[top].Some? && g.parent[top].value < |rank|
    ensures Rounds(g0, AfterCutTop(g, top), rank, top, map[top := 0], 1)
  {
    hide TreeLinks, Mirror, RankedTree, RankedAdoption, Bare, AdoptionsAllocated, EdgesKept, MarkedTree;
    hide MarkedAreCut, Settled, AfterCutTop;
    CutTopProgress(g0, g, rank, top);
    var lv: Levels := map[top := 0];
    assert lv[top] == 0;
  }

  lemma {:induction false} NewRound(g0: Graph, g: Graph, rank: seq<nat>, top: nat, lv: Levels, depth: nat)
    requires Rounds(g0, g, rank, top, lv, depth)
    ensures Round(g0, g, g, rank, top, lv, lv, depth, {}, NOBODY)
    ensures top in lv && lv[top] == 0
  {
    hide TreeLinks, Mirror, RankedTree, RankedAdoption, Bare, AdoptionsAllocated, EdgesKept, MarkedAreCut;
    hide Settled;
  }

  lemma {:induction false} NextRound(
      g0: Graph, g1: Graph, g: Graph, rank: seq<nat>, top: nat, lv1: Levels, lv: Levels, depth: nat, done: set<nat>)
    requires Round(g0, g1, g, rank, top, lv1, lv, depth, done, NOBODY)
    requires done == Under(g1, lv1, [top], 0, depth)
    requires lv != lv1
    ensures Rounds(g0, g, rank, top, lv, depth + 1)
  {
    hide TreeLinks, Mirror, RankedTree, RankedAdoption, Bare, AdoptionsAllocated, EdgesKept, MarkedTree;
    hide MarkedAreCut, Settled, Visited;
    RoundOver(g0, g1, g, rank, top, lv1, lv, depth, done);
    assert (forall n: nat :: n in lv ==> n in lv1) ==> lv == lv1;
  }

  lemma {:induction false} LevelsBelow(g0: Graph, g1: Graph, rank: seq<nat>, top: nat, lv1: Levels, depth: nat)
    requires Rounds(g0, g1, rank, top, lv1, depth)
    ensures forall n: nat :: n in lv1 ==> lv1[n] < depth
  {}

  /** `path` leads down from `top` to `n`, one parent link at a time. */
  ghost predicate ChainDown(g: Graph, top: nat, path: seq<nat>, n: nat)
    requires Sized(g, |g.parent|)
  {
    && |path| > 0 && path[0] == top && path[|path| - 1] == n
    && (forall i :: 0 <= i < |path| ==> path[i] < |g.parent|)
    && (forall i :: 0 < i < |path| ==> path[i] != 0 && ParentCount(g, path[i], path[i - 1]) > 0)
  }

  lemma {:induction false} ChainRises(g: Graph, rank: seq<nat>, top: nat, path: seq<nat>, n: nat, i: nat, j: nat)
    requires Linked(g, rank) && ChainDown(g, top, path, n) && i < j < |path|
    ensures rank[path[i]] < rank[path[j]]
  {
    hide TreeLinks, Mirror, RankedTree, RankedAdoption, Bare, AdoptionsAllocated;
    LinkUp(g, rank, path[j], path[j - 1]);
    if i < j - 1 { ChainRises(g, rank, top, path, n, i, j - 1); }
  }

  lemma LinkUp(g: Graph, rank: seq<nat>, n: nat, p: nat)
    requires Linked(g, rank) && 0 < n < |rank| && p < |rank| && ParentCount(g, n, p) > 0
    ensures rank[p] < rank[n]
  {}

  /** Along a chain nothing comes twice, so it is no longer than there are allocators. */
  lemma {:induction false} ChainFits(g: Graph, rank: seq<nat>, top: nat, path: seq<nat>, n: nat)
    requires Linked(g, rank) && ChainDown(g, top, path, n)
    ensures |path| <= |rank|
  {
    hide TreeLinks, Mirror, RankedTree, RankedAdoption, Bare, AdoptionsAllocated;
    forall i, j | 0 <= i < j < |path| ensures path[i] != path[j] { ChainRises(g, rank, top, path, n, i, j); }
    Pigeonhole(path, |rank|);
  }

  lemma {:induction false} Pigeonhole(s: seq<nat>, n: nat)
    requires (forall i :: 0 <= i < |s| ==> s[i] < n) && NoRepeats(s)
    ensures |s| <= n
  {
    assert |s| > 0 ==> s[0] < n;
    if n > 0 && n - 1 in s {
      var i :| 0 <= i < |s| && s[i] == n - 1;
      Pigeonhole(s[..i] + s[i + 1..], n - 1);
    } else if n > 0 {
      Pigeonhole(s, n - 1);
    }
  }

  /** An allocator marked at level d lay at the end of a chain of d links when the free began. */
  lemma {:induction false} LevelIsDepth(g0: Graph, g: Graph, rank: seq<nat>, top: nat, lv: Levels, n: nat)
    requires Progress(g0, g, rank, top, lv, NOBODY) && n in lv
    ensures exists path :: |path| == lv[n] + 1 && ChainDown(g0, top, path, n)
    decreases lv[n]
  {
    hide TreeLinks, Mirror, RankedTree, RankedAdoption, Bare, AdoptionsAllocated, MarkedAreCut, Settled;
    if n == top {
      assert ChainDown(g0, top, [top], n);
    } else {
      var p := g.parent[n].value;
      assert ChildOf(g, n, p);
      LevelIsDepth(g0, g, rank, top, lv, p);
      var path :| |path| == lv[p] + 1 && ChainDown(g0, top, path, p);
      assert ParentCount(g, n, p) <= ParentCount(g0, n, p);
      assert ChainDown(g0, top, path + [n], n);
    }
  }

  /** So it takes more allocators than that. */
  lemma LevelFits(g0: Graph, g: Graph, rank: seq<nat>, top: nat, lv: Levels, n: nat)
    requires Progress(g0, g, rank, top, lv, NOBODY) && n in lv
    ensures lv[n] < |rank|
  {
    hide TreeLinks, Mirror, RankedTree, RankedAdoption, Bare, AdoptionsAllocated, EdgesKept, MarkedSet, MarkedTree;
    hide MarkedAreCut, Settled, ChainDown;
    LevelIsDepth(g0, g, rank, top, lv, n);
    var path :| |path| == lv[n] + 1 && ChainDown(g0, top, path, n);
    ChainFits(g0, rank, top, path, n);
  }

  /** The state of the links when free begins. */
  lemma StartProgress(g: Graph, rank: seq<nat>, top: nat)
    requires Linked(g, rank) && Settled(g)
    ensures Progress(g, g, rank, top, map[], NOBODY)
  {
  }
}
