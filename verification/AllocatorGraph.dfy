/** The links between allocators (memory/Allocator_pvt.h): the natural tree, the adoption lists
    and the isFreeing flags.  An allocator is an index; 0 is the root allocator. */
module AllocatorGraph {
  import opened CTypes
  import opened Lists

  /** Field by field, one entry per struct Allocator_pvt.  children[n] lists firstChild and then
      every nextSibling; adopters and adopted are adoptions->parents and adoptions->children;
      hasAdoptions says whether the adoptions structure has been allocated. */
  datatype Graph = Graph(
    parent: seq<Option<nat>>,
    children: seq<seq<nat>>,
    adopters: seq<seq<nat>>,
    adopted: seq<seq<nat>>,
    hasAdoptions: seq<bool>,
    freeing: seq<bool>)

  // ---------------------------------------------------------------- invariants

  ghost predicate Sized(g: Graph, size: nat) {
    |g.parent| == |g.children| == |g.adopters| == |g.adopted| == |g.hasAdoptions| == |g.freeing| == size
  }

  /** The child lists are exactly the inverse of the parent pointers, each child listed once.
      (The root is its own parent and is in no list.) */
  ghost predicate TreeLinks(parent: seq<Option<nat>>, children: seq<seq<nat>>)
    requires |parent| == |children|
  {
    && (forall n :: 0 <= n < |parent| && parent[n].Some? ==> parent[n].value < |parent|)
    && (forall p: nat, c: nat {:trigger Count(children[p], c)} :: p < |parent| ==>
          Count(children[p], c) == if 0 < c < |parent| && parent[c] == Some(p) then 1 else 0)
  }

  /** The two adoption lists are mirror images of one another. */
  ghost predicate Mirror(adopters: seq<seq<nat>>, adopted: seq<seq<nat>>)
    requires |adopters| == |adopted|
  {
    && (forall n: nat, p: nat :: n < |adopters| && p >= |adopters| ==> Count(adopters[n], p) == 0)
    && (forall n: nat, p: nat :: n < |adopters| && p >= |adopters| ==> Count(adopted[n], p) == 0)
    && (forall n: nat, p: nat :: n < |adopters| && p < |adopters| ==>
          Count(adopters[n], p) == Count(adopted[p], n))
  }

  /** Every parent link, natural or adopted, goes strictly up: the graph is acyclic. */
  ghost predicate RankedTree(parent: seq<Option<nat>>, rank: seq<nat>)
    requires |parent| == |rank|
  {
    forall n :: 0 < n < |parent| && parent[n].Some? ==>
      parent[n].value < |parent| && rank[parent[n].value] < rank[n]
  }

  ghost predicate RankedAdoption(adopters: seq<seq<nat>>, rank: seq<nat>)
    requires |adopters| == |rank|
  {
    forall n: nat, p: nat :: n < |adopters| && p < |adopters| && Count(adopters[n], p) > 0 ==> rank[p] < rank[n]
  }

  /** A freeing allocator has no adoption edge left. */
  ghost predicate Bare(g: Graph)
    requires Sized(g, |g.parent|)
  {
    forall n :: 0 <= n < |g.freeing| && g.freeing[n] ==> g.adopters[n] == [] && g.adopted[n] == []
  }

  ghost predicate AdoptionsAllocated(g: Graph)
    requires Sized(g, |g.parent|)
  {
    forall n :: 0 <= n < |g.parent| && !g.hasAdoptions[n] ==> g.adopters[n] == [] && g.adopted[n] == []
  }

  /** What every step keeps, also in the middle of a free. */
  ghost predicate Linked(g: Graph, rank: seq<nat>) {
    && Sized(g, |rank|) && |rank| >= 1
    && TreeLinks(g.parent, g.children)
    && Mirror(g.adopters, g.adopted)
    && RankedTree(g.parent, rank)
    && RankedAdoption(g.adopters, rank)
    && Bare(g)
    && AdoptionsAllocated(g)
    && g.parent[0] == Some(0) && g.adopters[0] == []
  }

  ghost predicate Live(g: Graph, n: nat) {
    n < |g.freeing| && !g.freeing[n]
  }

  /** How many parent links, natural or adopted, lead from `n` up to `p`. */
  ghost function ParentCount(g: Graph, n: nat, p: nat): nat
    requires Sized(g, |g.parent|) && n < |g.parent|
  {
    Count(g.adopters[n], p) + if g.parent[n] == Some(p) then 1 else 0
  }

  ghost predicate ChildOf(g: Graph, n: nat, p: nat) {
    n < |g.parent| && g.parent[n] == Some(p)
  }

  /** Between operations a live allocator hangs under a live one, and a freeing one hangs under
      nothing or under a freeing one. */
  ghost predicate Settled(g: Graph)
    requires Sized(g, |g.parent|)
  {
    && (forall n: nat :: n < |g.parent| && g.parent[n].None? ==> g.freeing[n])
    && (forall n: nat, p: nat :: ChildOf(g, n, p) && n != 0 && p < |g.parent| ==> g.freeing[n] == g.freeing[p])
  }

  /** No freeing allocator appears in a parents list, and none of them has one. */
  lemma AdoptionEdge(g: Graph, rank: seq<nat>, n: nat, p: nat)
    requires Linked(g, rank) && n < |rank|
    requires Count(g.adopters[n], p) > 0
    ensures Live(g, p) && Live(g, n) && n != 0
    ensures Count(g.adopted[p], n) == Count(g.adopters[n], p)
    ensures g.hasAdoptions[n] && g.hasAdoptions[p]
  {
    assert p < |rank|;
    assert Count(g.adopters[n], p) == Count(g.adopted[p], n);
  }

  lemma ParentsAreLive(g: Graph, rank: seq<nat>, n: nat, p: nat)
    requires Linked(g, rank) && Settled(g) && Live(g, n) && ParentCount(g, n, p) > 0
    ensures Live(g, p)
  {
    if Count(g.adopters[n], p) > 0 { AdoptionEdge(g, rank, n, p); } else { assert ChildOf(g, n, p); }
  }

  // ---------------------------------------------------------------- list surgery

  /** disconnect(): unlink `n` from its parent's child list. */
  function AfterDisconnect(g: Graph, n: nat): Graph
    requires Sized(g, |g.parent|) && n < |g.parent| && g.parent[n].Some? && g.parent[n].value < |g.parent|
  {
    var p := g.parent[n].value;
    g.(children := g.children[p := RemoveFirst(g.children[p], n)], parent := g.parent[n := None])
  }

  /** connect(): push `n` on the front of `p`'s child list. */
  function AfterConnect(g: Graph, p: nat, n: nat): Graph
    requires Sized(g, |g.parent|) && n < |g.parent| && p < |g.parent|
  {
    g.(children := g.children[p := [n] + g.children[p]], parent := g.parent[n := Some(p)])
  }

  /** disconnectAdopted(): drop one adoption edge from both lists. */
  function AfterDisconnectAdopted(g: Graph, p: nat, n: nat): Graph
    requires Sized(g, |g.parent|) && n < |g.parent| && p < |g.parent|
  {
    g.(adopted := g.adopted[p := RemoveFirst(g.adopted[p], n)],
       adopters := g.adopters[n := RemoveFirst(g.adopters[n], p)])
  }

  /** Dropping one edge from both lists keeps them mirror images, and drops nothing else. */
  lemma {:induction false} UnadoptMirror(adopters: seq<seq<nat>>, adopted: seq<seq<nat>>, p: nat, n: nat)
    requires |adopters| == |adopted| && Mirror(adopters, adopted) && p < |adopters| && n < |adopters|
    ensures Mirror(adopters[n := RemoveFirst(adopters[n], p)], adopted[p := RemoveFirst(adopted[p], n)])
  {
    var r, d := adopters[n := RemoveFirst(adopters[n], p)], adopted[p := RemoveFirst(adopted[p], n)];
    forall m: nat, q: nat | m < |r| && q >= |r| ensures Count(r[m], q) == 0 {
      CountRemove(adopters[n], p, q);
    }
    forall m: nat, q: nat | m < |r| && q >= |r| ensures Count(d[m], q) == 0 {
      CountRemove(adopted[p], n, q);
    }
    forall m: nat, q: nat | m < |r| && q < |r| ensures Count(r[m], q) == Count(d[q], m) {
      CountRemove(adopters[n], p, q);
      CountRemove(adopted[p], n, m);
      assert Count(adopters[m], q) == Count(adopted[q], m);
    }
    assert Mirror(r, d);
  }

  lemma {:induction false} UnadoptRanked(adopters: seq<seq<nat>>, rank: seq<nat>, p: nat, n: nat)
    requires |adopters| == |rank| && RankedAdoption(adopters, rank) && n < |adopters|
    ensures RankedAdoption(adopters[n := RemoveFirst(adopters[n], p)], rank)
  {
    var r := adopters[n := RemoveFirst(adopters[n], p)];
    forall m: nat, q: nat | m < |r| && q < |r| && Count(r[m], q) > 0 ensures rank[q] < rank[m] {
      CountRemove(adopters[n], p, q);
      assert Count(adopters[m], q) > 0;
    }
  }

  lemma {:induction false} DisconnectAdoptedLinked(g: Graph, rank: seq<nat>, p: nat, n: nat)
    requires Linked(g, rank) && p < |rank| && n < |rank|
    ensures Linked(AfterDisconnectAdopted(g, p, n), rank)
  {
    UnadoptMirror(g.adopters, g.adopted, p, n);
    UnadoptRanked(g.adopters, rank, p, n);
  }

  /** An edge fewer from `n` to `p` when there was one; every other count is as before. */
  lemma {:induction false} DisconnectAdoptedCounts(g: Graph, p: nat, n: nat, m: nat, q: nat)
    requires Sized(g, |g.parent|) && p < |g.parent| && n < |g.parent| && m < |g.parent|
    ensures ParentCount(AfterDisconnectAdopted(g, p, n), m, q) ==
            ParentCount(g, m, q) - if m == n && q == p && Count(g.adopters[n], p) > 0 then 1 else 0
  {
    CountRemove(g.adopters[n], p, q);
  }

  lemma {:induction false} UnlinkChild(parent: seq<Option<nat>>, children: seq<seq<nat>>, n: nat, p: nat)
    requires |parent| == |children| && TreeLinks(parent, children) && 0 < n < |parent| && parent[n] == Some(p)
    ensures TreeLinks(parent[n := None], children[p := RemoveFirst(children[p], n)])
  {
    var r, k := parent[n := None], children[p := RemoveFirst(children[p], n)];
    forall q: nat, c: nat | q < |r|
      ensures Count(k[q], c) == if 0 < c < |r| && r[c] == Some(q) then 1 else 0
    {
      CountRemove(children[p], n, c);
      assert Count(children[q], c) == if 0 < c < |parent| && parent[c] == Some(q) then 1 else 0;
    }
    assert TreeLinks(r, k);
  }

  lemma {:induction false} LinkChild(parent: seq<Option<nat>>, children: seq<seq<nat>>, n: nat, p: nat)
    requires |parent| == |children| && TreeLinks(parent, children) && 0 < n < |parent| && parent[n] == None
    requires p < |parent|
    ensures TreeLinks(parent[n := Some(p)], children[p := [n] + children[p]])
  {
    var r, k := parent[n := Some(p)], children[p := [n] + children[p]];
    forall q: nat, c: nat | q < |r|
      ensures Count(k[q], c) == if 0 < c < |r| && r[c] == Some(q) then 1 else 0
    {
      CountPush(n, children[p], c);
      assert Count(children[q], c) == if 0 < c < |parent| && parent[c] == Some(q) then 1 else 0;
    }
    assert TreeLinks(r, k);
  }

  lemma {:induction false} DisconnectLinked(g: Graph, rank: seq<nat>, n: nat)
    requires Linked(g, rank) && 0 < n < |rank| && g.parent[n].Some?
    ensures g.parent[n].value < |rank| && Linked(AfterDisconnect(g, n), rank)
  {
    UnlinkChild(g.parent, g.children, n, g.parent[n].value);
  }

  lemma {:induction false} ConnectLinked(g: Graph, rank: seq<nat>, p: nat, n: nat)
    requires Linked(g, rank) && 0 < n < |rank| && g.parent[n].None?
    requires p < |rank| && rank[p] < rank[n]
    ensures Linked(AfterConnect(g, p, n), rank)
  {
    LinkChild(g.parent, g.children, n, p);
  }
}
