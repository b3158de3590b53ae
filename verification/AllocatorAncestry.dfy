/** isAncestorOf() and what may be adopted without making a cycle
    (memory/Allocator.c:606-734). */
module AllocatorAncestry {
  import opened CTypes
  import opened Lists
  import opened AllocatorGraph
  import opened AllocatorRounds
  import opened AllocatorSubtree

  /** `a` is `n` or one of its ancestors along natural and adopted links. */
  ghost predicate Ancestor(g: Graph, rank: seq<nat>, a: nat, n: nat)
    requires Linked(g, rank) && n < |rank|
    decreases rank[n]
  {
    || a == n
    || (n != 0 && g.parent[n].Some? && Ancestor(g, rank, a, g.parent[n].value))
    || (exists j :: 0 <= j < |g.adopters[n]| && AdopterAt(g, rank, n, j) && Ancestor(g, rank, a, g.adopters[n][j]))
  }

  ghost predicate AdopterAt(g: Graph, rank: seq<nat>, n: nat, j: nat)
    requires Linked(g, rank) && n < |rank| && j < |g.adopters[n]|
  {
    g.adopters[n][j] < |rank| && rank[g.adopters[n][j]] < rank[n]
  }

  lemma {:induction false} AdopterIndex(g: Graph, rank: seq<nat>, n: nat, j: nat)
    requires Linked(g, rank) && n < |rank| && j < |g.adopters[n]|
    ensures AdopterAt(g, rank, n, j) && n != 0
  {
    CountIn(g.adopters[n], g.adopters[n][j]);
    AdoptionEdge(g, rank, n, g.adopters[n][j]);
    assert rank[g.adopters[n][j]] < rank[n];
  }

  /** Whatever is below `c` passes it on to all of its children and adopted children. */
  lemma {:induction false} AncestorDown(g: Graph, rank: seq<nat>, c: nat, u: nat, v: nat)
    requires Linked(g, rank) && u < |rank| && v < |rank| && v != 0
    requires ParentCount(g, v, u) > 0 && Ancestor(g, rank, c, u)
    ensures Ancestor(g, rank, c, v)
  {
    hide TreeLinks, Mirror, RankedTree, RankedAdoption, Bare, AdoptionsAllocated;
    if g.parent[v] != Some(u) {
      CountIn(g.adopters[v], u);
      var j :| 0 <= j < |g.adopters[v]| && g.adopters[v][j] == u;
      AdopterIndex(g, rank, v, j);
    }
  }

  /** Ancestors are the ends of chains of parent links, natural or adopted. */
  lemma {:induction false} AncestorIsChain(g: Graph, rank: seq<nat>, a: nat, n: nat)
    requires Linked(g, rank) && n < |rank|
    ensures Ancestor(g, rank, a, n) <==> exists path :: ChainDown(g, a, path, n)
    decreases rank[n]
  {
    hide TreeLinks, Mirror, RankedTree, RankedAdoption, Bare, AdoptionsAllocated, Ancestor;
    AncestorCases(g, rank, a, n);
    if a == n {
      assert ChainDown(g, a, [n], n);
    } else if Ancestor(g, rank, a, n) {
      var p: nat :| p < |rank| && n != 0 && ParentCount(g, n, p) > 0 && Ancestor(g, rank, a, p);
      LinkUp(g, rank, n, p);
      AncestorIsChain(g, rank, a, p);
      var path :| ChainDown(g, a, path, p);
      assert ChainDown(g, a, path + [n], n);
    } else if exists path :: ChainDown(g, a, path, n) {
      var path :| ChainDown(g, a, path, n);
      var p := path[|path| - 2];
      assert ParentCount(g, path[|path| - 1], path[|path| - 1 - 1]) > 0;
      LinkUp(g, rank, n, p);
      assert ChainDown(g, a, path[..|path| - 1], p);
      AncestorIsChain(g, rank, a, p);
      AncestorDown(g, rank, a, p, n);
    }
  }

  lemma {:induction false} AncestorCases(g: Graph, rank: seq<nat>, a: nat, n: nat)
    requires Linked(g, rank) && n < |rank|
    ensures a == n ==> Ancestor(g, rank, a, n)
    ensures Ancestor(g, rank, a, n) && a != n ==>
      exists p: nat :: p < |rank| && n != 0 && ParentCount(g, n, p) > 0 && Ancestor(g, rank, a, p)
  {
    hide TreeLinks, Mirror, RankedAdoption, Bare, AdoptionsAllocated;
    if Ancestor(g, rank, a, n) && a != n {
      if n != 0 && g.parent[n].Some? && Ancestor(g, rank, a, g.parent[n].value) {
        assert ParentCount(g, n, g.parent[n].value) > 0;
      } else {
        var j :| 0 <= j < |g.adopters[n]| && AdopterAt(g, rank, n, j) && Ancestor(g, rank, a, g.adopters[n][j]);
        AdopterIndex(g, rank, n, j);
        CountIn(g.adopters[n], g.adopters[n][j]);
        assert ParentCount(g, n, g.adopters[n][j]) > 0;
      }
    }
  }

  // ---------------------------------------------------------------- adoption

  /** Both list pushes of Allocator__adopt. */
  function AfterAdopt(g: Graph, p: nat, c: nat): Graph
    requires Sized(g, |g.parent|) && p < |g.parent| && c < |g.parent|
  {
    g.(hasAdoptions := g.hasAdoptions[p := true][c := true],
       adopted := g.adopted[p := [c] + g.adopted[p]],
       adopters := g.adopters[c := [p] + g.adopters[c]])
  }

  /** Everything below the adopted child sinks below its new parent. */
  ghost function Sunk(g: Graph, rank: seq<nat>, p: nat, c: nat): seq<nat>
    requires Linked(g, rank) && p < |rank|
  {
    seq(|rank|, i requires 0 <= i < |rank| => if Ancestor(g, rank, c, i) then rank[i] + rank[p] + 1 else rank[i])
  }

  lemma {:induction false} SunkTree(g: Graph, rank: seq<nat>, p: nat, c: nat)
    requires Linked(g, rank) && p < |rank|
    ensures RankedTree(g.parent, Sunk(g, rank, p, c))
  {
    hide Ancestor, TreeLinks, Mirror, RankedAdoption, Bare, AdoptionsAllocated;
    forall n | 0 < n < |rank| && g.parent[n].Some?
      ensures g.parent[n].value < |rank| && Sunk(g, rank, p, c)[g.parent[n].value] < Sunk(g, rank, p, c)[n]
    {
      var q := g.parent[n].value;
      if Ancestor(g, rank, c, q) { AncestorDown(g, rank, c, q, n); }
    }
  }

  lemma {:induction false} SunkAdoption(g: Graph, rank: seq<nat>, p: nat, c: nat)
    requires Linked(g, rank) && p < |rank| && c < |rank| && !Ancestor(g, rank, c, p)
    ensures RankedAdoption(g.adopters[c := [p] + g.adopters[c]], Sunk(g, rank, p, c))
  {
    hide Ancestor, TreeLinks, Mirror, RankedTree, Bare, AdoptionsAllocated;
    var r, k := g.adopters[c := [p] + g.adopters[c]], Sunk(g, rank, p, c);
    AncestorSelf(g, rank, c);
    forall n: nat, q: nat | n < |r| && q < |r| && Count(r[n], q) > 0 ensures k[q] < k[n] {
      CountPush(p, g.adopters[c], q);
      if Count(g.adopters[n], q) > 0 {
        AdoptionEdge(g, rank, n, q);
        if Ancestor(g, rank, c, q) { AncestorDown(g, rank, c, q, n); }
      } else {
        assert n == c && q == p;
      }
    }
    assert RankedAdoption(r, k);
  }

  lemma AncestorSelf(g: Graph, rank: seq<nat>, a: nat)
    requires Linked(g, rank) && a < |rank|
    ensures Ancestor(g, rank, a, a)
  {}

  lemma {:induction false} AdoptMirror(adopters: seq<seq<nat>>, adopted: seq<seq<nat>>, p: nat, n: nat)
    requires |adopters| == |adopted| && Mirror(adopters, adopted) && p < |adopters| && n < |adopters|
    ensures Mirror(adopters[n := [p] + adopters[n]], adopted[p := [n] + adopted[p]])
  {
    var r, d := adopters[n := [p] + adopters[n]], adopted[p := [n] + adopted[p]];
    forall m: nat, q: nat | m < |r| && q >= |r| ensures Count(r[m], q) == 0 {
      CountPush(p, adopters[n], q);
    }
    forall m: nat, q: nat | m < |r| && q >= |r| ensures Count(d[m], q) == 0 {
      CountPush(n, adopted[p], q);
    }
    forall m: nat, q: nat | m < |r| && q < |r| ensures Count(r[m], q) == Count(d[q], m) {
      CountPush(p, adopters[n], q);
      CountPush(n, adopted[p], m);
      assert Count(adopters[m], q) == Count(adopted[q], m);
    }
    assert Mirror(r, d);
  }

  /** An adoption that passes the ancestor test keeps the graph acyclic and the lists mirrored. */
  lemma {:induction false} AdoptLinked(g: Graph, rank: seq<nat>, p: nat, c: nat)
    requires Linked(g, rank) && Live(g, p) && Live(g, c) && c != 0 && !Ancestor(g, rank, c, p)
    ensures Linked(AfterAdopt(g, p, c), Sunk(g, rank, p, c))
  {
    hide Ancestor, TreeLinks, Mirror, RankedTree, RankedAdoption;
    SunkTree(g, rank, p, c);
    SunkAdoption(g, rank, p, c);
    AdoptMirror(g.adopters, g.adopted, p, c);
  }

  lemma {:induction false} RootIsAncestor(g: Graph, rank: seq<nat>, n: nat)
    requires Linked(g, rank) && Settled(g) && Live(g, n)
    ensures Ancestor(g, rank, 0, n)
    decreases rank[n]
  {
    hide TreeLinks, Mirror, RankedAdoption, Bare, AdoptionsAllocated;
    if n != 0 {
      assert ChildOf(g, n, g.parent[n].value);
      RootIsAncestor(g, rank, g.parent[n].value);
    }
  }

  // ---------------------------------------------------------------- a new allocator

  /** A fresh, still unconnected allocator at the end. */
  function AfterNew(g: Graph): Graph {
    Graph(g.parent + [None], g.children + [[]], g.adopters + [[]], g.adopted + [[]],
          g.hasAdoptions + [false], g.freeing + [false])
  }

  lemma {:induction false} NewTree(parent: seq<Option<nat>>, children: seq<seq<nat>>)
    requires |parent| == |children| && TreeLinks(parent, children)
    ensures TreeLinks(parent + [None], children + [[]])
  {
    var r, k := parent + [None], children + [[]];
    forall q: nat, c: nat | q < |r|
      ensures Count(k[q], c) == if 0 < c < |r| && r[c] == Some(q) then 1 else 0
    {
      if q < |parent| {
        assert Count(children[q], c) == if 0 < c < |parent| && parent[c] == Some(q) then 1 else 0;
      }
    }
    assert TreeLinks(r, k);
  }

  lemma {:induction false} NewMirror(adopters: seq<seq<nat>>, adopted: seq<seq<nat>>)
    requires |adopters| == |adopted| && Mirror(adopters, adopted)
    ensures Mirror(adopters + [[]], adopted + [[]])
  {
    var r, d, s := adopters + [[]], adopted + [[]], |adopters|;
    forall m: nat, q: nat | m < |r| && q >= |r| ensures Count(r[m], q) == 0 {
      if m < s { assert Count(adopters[m], q) == 0; }
    }
    forall m: nat, q: nat | m < |r| && q >= |r| ensures Count(d[m], q) == 0 {
      if m < s { assert Count(adopted[m], q) == 0; }
    }
    forall m: nat, q: nat | m < |r| && q < |r| ensures Count(r[m], q) == Count(d[q], m) {
      if m < s && q < s { assert Count(adopters[m], q) == Count(adopted[q], m); }
      else if m < s { assert Count(adopters[m], q) == 0; }
      else if q < s { assert Count(adopted[q], m) == 0; }
    }
    assert Mirror(r, d);
  }

  lemma {:induction false} NewRanked(adopters: seq<seq<nat>>, adopted: seq<seq<nat>>, rank: seq<nat>, v: nat)
    requires |adopters| == |adopted| == |rank| && Mirror(adopters, adopted) && RankedAdoption(adopters, rank)
    ensures RankedAdoption(adopters + [[]], rank + [v])
  {
    var r, k := adopters + [[]], rank + [v];
    forall n: nat, q: nat | n < |r| && q < |r| && Count(r[n], q) > 0 ensures k[q] < k[n] {
      assert n < |rank| && Count(adopters[n], q) > 0;
    }
    assert RankedAdoption(r, k);
  }

  lemma {:induction false} NewLinked(g: Graph, rank: seq<nat>, v: nat)
    requires Linked(g, rank)
    ensures Linked(AfterNew(g), rank + [v])
  {
    hide Count, TreeLinks, Mirror, RankedAdoption;
    NewTree(g.parent, g.children);
    NewMirror(g.adopters, g.adopted);
    NewRanked(g.adopters, g.adopted, rank, v);
  }

  /** Allocator__child: the new allocator hangs under `p` and nothing else changes. */
  lemma {:induction false} ChildLinked(g: Graph, rank: seq<nat>, p: nat)
    requires Linked(g, rank) && Settled(g) && Live(g, p)
    ensures Linked(AfterConnect(AfterNew(g), p, |rank|), rank + [rank[p] + 1])
    ensures Settled(AfterConnect(AfterNew(g), p, |rank|))
  {
    hide TreeLinks, Mirror, RankedTree, RankedAdoption, Bare, AdoptionsAllocated;
    NewLinked(g, rank, rank[p] + 1);
    ConnectLinked(AfterNew(g), rank + [rank[p] + 1], p, |rank|);
    var r := AfterConnect(AfterNew(g), p, |rank|);
    forall n: nat, q: nat | ChildOf(r, n, q) && n != 0 && q < |r.parent| ensures r.freeing[n] == r.freeing[q] {
      if n < |rank| { assert ChildOf(g, n, q); ParentInRange(g, rank, n); }
    }
  }

  lemma ParentInRange(g: Graph, rank: seq<nat>, n: nat)
    requires Linked(g, rank) && n < |rank| && g.parent[n].Some?
    ensures g.parent[n].value < |rank|
  {}

  // ---------------------------------------------------------------- isAncestorOf as it is written

  datatype Verdict = Yes | No | Loops

  /** Lines 648-669 to the letter: the inner loop never moves on from the first adopter, so it
      only ends when that adopter gives a positive answer. */
  ghost function AsWritten(g: Graph, rank: seq<nat>, a: nat, n: nat): Verdict
    requires Linked(g, rank) && n < |rank|
    decreases rank[n]
  {
    if a == n then Yes
    else if n == 0 then No
    else
      var up := if g.parent[n].None? then No else AsWritten(g, rank, a, g.parent[n].value);
      if up != No then up
      else if g.adopters[n] == [] then No
      else if AdopterAt(g, rank, n, 0) && AsWritten(g, rank, a, g.adopters[n][0]) == Yes then Yes
      else Loops
  }

  /** The highest allocator on the natural chain from `n` up to the root that has adopters. */
  ghost function Topmost(g: Graph, rank: seq<nat>, n: nat): Option<nat>
    requires Linked(g, rank) && n < |rank|
    decreases rank[n]
  {
    if n == 0 then None
    else
      var up := if g.parent[n].None? then None else Topmost(g, rank, g.parent[n].value);
      if up.Some? then up else if g.adopters[n] != [] then Some(n) else None
  }

  /** It is on the chain and has adopters, nothing higher on the chain has, and when there is none
      nothing on the chain has. */
  lemma {:induction false} TopmostMeaning(g: Graph, rank: seq<nat>, n: nat)
    requires Linked(g, rank) && n < |rank|
    ensures var t := Topmost(g, rank, n);
      && (t.Some? ==> t.value < |rank| && t.value != 0 && Above(g, rank, t.value, n) && g.adopters[t.value] != [])
      && (t.Some? ==> rank[t.value] <= rank[n])
      && (forall u: nat :: u < |rank| && Above(g, rank, u, n) && g.adopters[u] != [] ==>
            t.Some? && Above(g, rank, t.value, u))
    decreases rank[n]
  {
    hide TreeLinks, Mirror, RankedAdoption, Bare, AdoptionsAllocated;
    if n != 0 {
      if g.parent[n].Some? { TopmostMeaning(g, rank, g.parent[n].value); }
      AboveSelf(g, rank, n);
    }
  }

  /** `a` lies on the natural chain up from `n`, or can be reached from there by going over, once
      and again, to the first adopter of the topmost adopted allocator of the chain. */
  ghost predicate Reaches(g: Graph, rank: seq<nat>, a: nat, n: nat)
    requires Linked(g, rank) && n < |rank|
    decreases rank[n]
  {
    || Above(g, rank, a, n)
    || (var t := Topmost(g, rank, n);
        && t.Some? && t.value < |rank| && rank[t.value] <= rank[n] && g.adopters[t.value] != []
        && AdopterAt(g, rank, t.value, 0)
        && Reaches(g, rank, a, g.adopters[t.value][0]))
  }

  /** What the code as written answers, and when it answers at all.  It says "yes" exactly for the
      allocators that the first adopters lead to, "no" exactly when `a` is not on the natural chain
      and nothing on the chain has been adopted, and in all other cases it never returns. */
  lemma {:induction false} AsWrittenExact(g: Graph, rank: seq<nat>, a: nat, n: nat)
    requires Linked(g, rank) && n < |rank|
    ensures AsWritten(g, rank, a, n) == Yes <==> Reaches(g, rank, a, n)
    ensures AsWritten(g, rank, a, n) == No <==> Topmost(g, rank, n).None? && !Above(g, rank, a, n)
    decreases rank[n]
  {
    hide TreeLinks, Mirror, RankedAdoption, Bare, AdoptionsAllocated;
    if n != 0 && a != n {
      TopmostMeaning(g, rank, n);
      if g.parent[n].Some? {
        AsWrittenExact(g, rank, a, g.parent[n].value);
        TopmostMeaning(g, rank, g.parent[n].value);
      }
      if g.adopters[n] != [] {
        AdopterIndex(g, rank, n, 0);
        AsWrittenExact(g, rank, a, g.adopters[n][0]);
      }
    }
  }

  /** When the code as written does return, it agrees with the walk to the end of the lists. */
  lemma {:induction false} AsWrittenRight(g: Graph, rank: seq<nat>, a: nat, n: nat)
    requires Linked(g, rank) && n < |rank|
    ensures AsWritten(g, rank, a, n) != Loops ==> (AsWritten(g, rank, a, n) == Yes <==> Ancestor(g, rank, a, n))
    decreases rank[n]
  {
    hide TreeLinks, Mirror, RankedAdoption, Bare, AdoptionsAllocated;
    if a != n && n != 0 {
      if g.parent[n].Some? { AsWrittenRight(g, rank, a, g.parent[n].value); }
      if g.adopters[n] != [] {
        AdopterIndex(g, rank, n, 0);
        AsWrittenRight(g, rank, a, g.adopters[n][0]);
      }
    }
  }

  /** Where Allocator__adopt() and Allocator__disown() end with the code as written: at an early
      return, at a failing assertion, in the endless loop, in a free, or at their list surgery. */
  datatype Fate = Returns | Stops | Hangs | FreesChild | Surgery

  ghost function AdoptFate(g: Graph, rank: seq<nat>, p: nat, c: nat): Fate
    requires Linked(g, rank) && p < |rank| && c < |rank|
  {
    if g.freeing[p] then Returns
    else if g.freeing[c] then Stops
    else
      match AsWritten(g, rank, c, p)
      case Yes => Returns
      case No => Surgery
      case Loops => Hangs
  }

  ghost function DisownFate(g: Graph, rank: seq<nat>, p: nat, c: nat): Fate
    requires Linked(g, rank) && p < |rank| && c < |rank|
  {
    if g.freeing[p] || g.freeing[c] then Returns
    else if g.parent[c] == Some(p) then FreesChild
    else
      match AsWritten(g, rank, c, p)
      case Yes => Returns
      case No => if Count(g.adopters[c], p) > 0 then Surgery else Stops
      case Loops => Hangs
  }

  /** An adoption comes about exactly when both are live, the child is not on the natural chain of
      the new parent, and nothing on that chain has been adopted; it hangs exactly when something
      has been and its first adopters do not lead to the child. */
  lemma {:induction false} AdoptReaches(g: Graph, rank: seq<nat>, p: nat, c: nat)
    requires Linked(g, rank) && p < |rank| && c < |rank|
    ensures AdoptFate(g, rank, p, c) == Surgery <==>
      !g.freeing[p] && !g.freeing[c] && Topmost(g, rank, p).None? && !Above(g, rank, c, p)
    ensures AdoptFate(g, rank, p, c) == Hangs <==>
      !g.freeing[p] && !g.freeing[c] && Topmost(g, rank, p).Some? && !Reaches(g, rank, c, p)
    ensures AdoptFate(g, rank, p, c) == Stops <==> !g.freeing[p] && g.freeing[c]
    ensures AdoptFate(g, rank, p, c) == Returns <==> g.freeing[p] || (!g.freeing[c] && Reaches(g, rank, c, p))
    ensures !g.freeing[p] && AdoptFate(g, rank, p, c) in {Surgery, Returns} ==>
      (AdoptFate(g, rank, p, c) == Returns <==> Ancestor(g, rank, c, p))
  {
    hide Linked, Topmost, Above, AsWritten, Ancestor;
    AsWrittenExact(g, rank, c, p);
    AsWrittenRight(g, rank, c, p);
  }

  /** The same for disowning, which stops on an assertion when there is no adoption to undo.  A
      parent that is adopted itself, or that hangs under one that is, can therefore never disown an
      unrelated child again. */
  lemma {:induction false} DisownReaches(g: Graph, rank: seq<nat>, p: nat, c: nat)
    requires Linked(g, rank) && p < |rank| && c < |rank|
    ensures var ours, fate := !g.freeing[p] && !g.freeing[c] && g.parent[c] != Some(p), DisownFate(g, rank, p, c);
      && (fate == FreesChild <==> !g.freeing[p] && !g.freeing[c] && g.parent[c] == Some(p))
      && (fate == Surgery <==>
            ours && Topmost(g, rank, p).None? && !Above(g, rank, c, p) && Count(g.adopters[c], p) > 0)
      && (fate == Stops <==>
            ours && Topmost(g, rank, p).None? && !Above(g, rank, c, p) && Count(g.adopters[c], p) == 0)
      && (fate == Hangs <==> ours && Topmost(g, rank, p).Some? && !Reaches(g, rank, c, p))
      && (ours && fate != Hangs ==> (fate == Returns <==> Ancestor(g, rank, c, p)))
      && (ours && Topmost(g, rank, p).Some? && !Ancestor(g, rank, c, p) ==> fate == Hangs)
  {
    hide Linked, Topmost, Above, AsWritten, Ancestor, Count;
    AsWrittenExact(g, rank, c, p);
    AsWrittenRight(g, rank, c, p);
  }

  /** Root 0 with children 1, 2 and 3; 1 has adopted 2. */
  ghost function ExampleGraph(): Graph {
    Graph([Some(0), Some(0), Some(0), Some(0)], [[3, 2, 1], [], [], []], [[], [], [1], []], [[], [2], [], []],
          [false, true, true, false], [false, false, false, false])
  }

  lemma ExampleLinked()
    ensures Linked(ExampleGraph(), [0, 1, 2, 1])
  {
    hide TreeLinks, Mirror;
    ExampleTree();
    ExampleAdoption();
  }

  lemma CountOne(x: nat, c: nat)
    ensures Count([x], c) == (if c == x then 1 else 0) && Count([], c) == 0
  {
    assert [x] == [x] + [];
    CountPush(x, [], c);
  }

  lemma ExampleAdoption()
    ensures Mirror(ExampleGraph().adopters, ExampleGraph().adopted)
    ensures RankedAdoption(ExampleGraph().adopters, [0, 1, 2, 1])
  {
    hide Count;
    var g, rank: seq<nat> := ExampleGraph(), [0, 1, 2, 1];
    forall n: nat, p: nat | n < 4
      ensures Count(g.adopters[n], p) == if n == 2 && p == 1 then 1 else 0
      ensures Count(g.adopted[n], p) == if n == 1 && p == 2 then 1 else 0
    {
      CountOne(1, p);
      CountOne(2, p);
    }
    assert Mirror(g.adopters, g.adopted) && RankedAdoption(g.adopters, rank);
  }

  lemma ExampleTree()
    ensures TreeLinks(ExampleGraph().parent, ExampleGraph().children)
  {
    hide Count;
    var g := ExampleGraph();
    forall p: nat, c: nat | p < |g.parent|
      ensures Count(g.children[p], c) == if 0 < c < |g.parent| && g.parent[c] == Some(p) then 1 else 0
    {
      CountOne(1, c);
      CountPush(2, [1], c);
      CountPush(3, [2, 1], c);
      assert [2] + [1] == [2, 1] && [3] + [2, 1] == [3, 2, 1];
      if 0 < c < |g.parent| { assert g.parent[c] == Some(0); }
    }
    assert TreeLinks(g.parent, g.children);
  }

  /** There, asking whether 3 is an ancestor of 2 never returns. */
  lemma AsWrittenLoopsExample()
    ensures Linked(ExampleGraph(), [0, 1, 2, 1])
    ensures AsWritten(ExampleGraph(), [0, 1, 2, 1], 3, 2) == Loops
  {
    ExampleLinked();
    hide TreeLinks, Mirror, RankedTree, RankedAdoption, Bare, AdoptionsAllocated;
    var g, rank: seq<nat> := ExampleGraph(), [0, 1, 2, 1];
    assert AsWritten(g, rank, 3, 0) == No;
    assert AsWritten(g, rank, 3, 1) == No;
  }
}
