/** The pointers that a child list is made of: firstChild, nextSibling and lastSibling
    (memory/Allocator.c:275-320). */
module AllocatorSiblings {
  import opened CTypes
  import opened Lists
  import opened AllocatorGraph

  datatype Siblings = Siblings(firstChild: seq<Option<nat>>, next: seq<Option<nat>>, last: seq<Option<nat>>)

  /** The cell at position `i`, or NULL past either end. */
  function At(list: seq<nat>, i: int): Option<nat> {
    if 0 <= i < |list| then Some(list[i]) else None
  }

  /** The pointers run through `list`, forwards and backwards. */
  ghost predicate Runs(list: seq<nat>, first: Option<nat>, next: seq<Option<nat>>, last: seq<Option<nat>>) {
    && first == At(list, 0)
    && |next| == |last|
    && forall j :: 0 <= j < |list| ==> InPlace(list, j, next, last)
  }

  ghost predicate InPlace(list: seq<nat>, j: nat, next: seq<Option<nat>>, last: seq<Option<nat>>)
    requires j < |list| && |next| == |last|
  {
    list[j] < |next| && next[list[j]] == At(list, j + 1) && last[list[j]] == At(list, j - 1)
  }

  /** The pointers run through every child list, and an allocator that is in none has no siblings. */
  ghost predicate Threaded(g: Graph, s: Siblings) {
    && Sized(g, |g.parent|) && |s.firstChild| == |s.next| == |s.last| == |g.parent|
    && (forall p :: 0 <= p < |g.children| ==> Runs(g.children[p], s.firstChild[p], s.next, s.last))
    && (forall c: nat :: c < |g.parent| && (c == 0 || g.parent[c].None?) ==> s.next[c] == None && s.last[c] == None)
  }

  ghost predicate Apart(list: seq<nat>, other: seq<nat>) {
    forall i, j :: 0 <= i < |list| && 0 <= j < |other| ==> list[i] != other[j]
  }

  /** Two child lists have nothing in common, and no list holds anything twice. */
  lemma {:induction false} ListsApart(g: Graph, rank: seq<nat>, p: nat, q: nat)
    requires Linked(g, rank) && p < |rank| && q < |rank|
    ensures NoRepeats(g.children[p])
    ensures p != q ==> Apart(g.children[p], g.children[q])
    ensures forall i :: 0 <= i < |g.children[p]| ==>
      0 < g.children[p][i] < |rank| && g.parent[g.children[p][i]] == Some(p)
  {
    hide Mirror, RankedTree, RankedAdoption, Bare, AdoptionsAllocated;
    var list, other := g.children[p], g.children[q];
    forall i | 0 <= i < |list| ensures 0 < list[i] < |rank| && g.parent[list[i]] == Some(p) {
      CountIn(list, list[i]);
    }
    forall j | 0 <= j < |other| ensures 0 < other[j] < |rank| && g.parent[other[j]] == Some(q) {
      CountIn(other, other[j]);
    }
    forall i, j | 0 <= i < j < |list| ensures list[i] != list[j] { CountDistinct(list, i, j); }
  }

  // ---------------------------------------------------------------- walking

  lemma WalkStart(g: Graph, s: Siblings, p: nat)
    requires Threaded(g, s) && p < |g.parent|
    ensures s.firstChild[p] == At(g.children[p], 0)
  {}

  lemma WalkStep(g: Graph, s: Siblings, p: nat, i: nat)
    requires Threaded(g, s) && p < |g.parent| && i < |g.children[p]|
    ensures g.children[p][i] < |s.next| && s.next[g.children[p][i]] == At(g.children[p], i + 1)
  {
    assert InPlace(g.children[p], i, s.next, s.last);
  }

  lemma AtCell(list: seq<nat>, i: nat)
    requires i <= |list|
    ensures At(list, i).Some? <==> i < |list|
    ensures i < |list| ==> At(list, i).value == list[i]
  {}

  /** A child list that the walk has come to position `i` of: what is left of the first `i`, and
      then all the others. */
  ghost predicate HalfWalked(live: seq<nat>, before: seq<nat>, list: seq<nat>, i: nat)
    requires i <= |list|
  {
    && live == before + list[i..]
    && forall c :: c in before ==> c in list[..i]
  }

  lemma NothingWalked(list: seq<nat>)
    ensures HalfWalked(list, [], list, 0)
  {
    assert [] + list[0..] == list;
  }

  /** The next allocator of such a list, and what its visit may make of the list. */
  lemma WalkOn(g: Graph, s: Siblings, p: nat, before: seq<nat>, list: seq<nat>, i: nat)
    requires Threaded(g, s) && p < |g.parent| && i < |list| && HalfWalked(g.children[p], before, list, i)
    requires NoRepeats(list)
    ensures list[i] < |s.next| && s.next[list[i]] == At(list, i + 1)
    ensures HalfWalked(RemoveFirst(g.children[p], list[i]), before, list, i + 1)
    ensures HalfWalked(g.children[p], before + [list[i]], list, i + 1)
  {
    hide RemoveFirst, NoRepeats, Runs, InPlace;
    var all, k := g.children[p], |before|;
    WalkStep(g, s, p, k);
    assert all[k] == list[i] && list[i..] == [list[i]] + list[i + 1..];
    forall j | 0 <= j < k ensures all[j] != all[k] { NotBefore(before, list, i, j); }
    RemoveAt(all, k);
    assert all[..k] == before && all[k + 1..] == list[i + 1..];
    assert list[..i + 1] == list[..i] + [list[i]];
    assert all == (before + [list[i]]) + list[i + 1..];
  }

  lemma NotBefore(before: seq<nat>, list: seq<nat>, i: nat, j: nat)
    requires i < |list| && j < |before| && NoRepeats(list) && forall c :: c in before ==> c in list[..i]
    ensures before[j] != list[i]
  {
    assert before[j] in before;
  }

  lemma ThreadedSize(g: Graph, s: Siblings)
    requires Threaded(g, s)
    ensures |s.firstChild| == |s.next| == |s.last| == |g.parent| == |g.children|
  {}

  // ---------------------------------------------------------------- unlinking

  /** The pointer surgery of disconnect() on child `c` of `p`. */
  function Unthread(s: Siblings, p: nat, c: nat): Siblings
    requires |s.firstChild| == |s.next| == |s.last| && p < |s.next| && c < |s.next|
    requires (s.next[c].Some? ==> s.next[c].value < |s.next|) && (s.last[c].Some? ==> s.last[c].value < |s.next|)
  {
    var next := if s.last[c].Some? then s.next[s.last[c].value := s.next[c]] else s.next;
    var last := if s.next[c].Some? then s.last[s.next[c].value := s.last[c]] else s.last;
    Siblings(if s.last[c].None? then s.firstChild[p := s.next[c]] else s.firstChild,
             next[c := None], last[c := None])
  }

  lemma Neighbours(s: Siblings, p: nat, c: nat, list: seq<nat>, i: nat)
    requires |s.firstChild| == |s.next| == |s.last| && p < |s.next| && c < |s.next|
    requires Runs(list, s.firstChild[p], s.next, s.last) && i < |list| && list[i] == c
    ensures s.next[c] == At(list, i + 1) && s.last[c] == At(list, i - 1)
    ensures (s.next[c].Some? ==> s.next[c].value < |s.next|) && (s.last[c].Some? ==> s.last[c].value < |s.next|)
  {
    assert InPlace(list, i, s.next, s.last);
    if i > 0 { assert InPlace(list, i - 1, s.next, s.last); }
    if i + 1 < |list| { assert InPlace(list, i + 1, s.next, s.last); }
  }

  /** What that does to another child at position `k` of the list that `c` is on, at position `i`. */
  lemma {:induction false} UnthreadBeside(s: Siblings, p: nat, c: nat, list: seq<nat>, i: nat, k: nat)
    requires |s.firstChild| == |s.next| == |s.last| && p < |s.next| && c < |s.next|
    requires Runs(list, s.firstChild[p], s.next, s.last) && NoRepeats(list) && i < |list| && list[i] == c
    requires k < |list| && k != i
    ensures s.next[c] == At(list, i + 1) && s.last[c] == At(list, i - 1) && list[k] < |s.next|
    ensures (s.next[c].Some? ==> s.next[c].value < |s.next|) && (s.last[c].Some? ==> s.last[c].value < |s.next|)
    ensures Unthread(s, p, c).next[list[k]] == At(list, if k == i - 1 then i + 1 else k + 1)
    ensures Unthread(s, p, c).last[list[k]] == At(list, if k == i + 1 then i - 1 else k - 1)
  {
    Neighbours(s, p, c, list, i);
    assert InPlace(list, k, s.next, s.last);
    if i > 0 { assert list[i - 1] == list[k] <==> k == i - 1; }
    if i + 1 < |list| { assert list[i + 1] == list[k] <==> k == i + 1; }
  }

  /** And to the whole of that list. */
  lemma {:induction false} UnthreadHere(s: Siblings, p: nat, c: nat, list: seq<nat>, i: nat)
    requires |s.firstChild| == |s.next| == |s.last| && p < |s.next| && c < |s.next|
    requires Runs(list, s.firstChild[p], s.next, s.last) && NoRepeats(list) && i < |list| && list[i] == c
    ensures (s.next[c].Some? ==> s.next[c].value < |s.next|) && (s.last[c].Some? ==> s.last[c].value < |s.next|)
    ensures Runs(list[..i] + list[i + 1..], Unthread(s, p, c).firstChild[p], Unthread(s, p, c).next,
                 Unthread(s, p, c).last)
  {
    Neighbours(s, p, c, list, i);
    UnthreadSizes(s, p, c);
    var s', rest := Unthread(s, p, c), list[..i] + list[i + 1..];
    assert s'.firstChild[p] == At(rest, 0);
    hide Unthread, NoRepeats, At;
    forall j | 0 <= j < |rest|
      ensures InPlace(rest, j, s'.next, s'.last)
    {
      var k := if j < i then j else j + 1;
      AtRest(list, i, j, k);
      UnthreadBeside(s, p, c, list, i, k);
    }
    assert Runs(rest, s'.firstChild[p], s'.next, s'.last);
  }

  lemma AtRest(list: seq<nat>, i: nat, j: nat, k: nat)
    requires i < |list| && j < |list| - 1 && k == if j < i then j else j + 1
    ensures var rest := list[..i] + list[i + 1..];
      && rest[j] == list[k]
      && At(rest, j + 1) == At(list, if k == i - 1 then i + 1 else k + 1)
      && At(rest, j - 1) == At(list, if k == i + 1 then i - 1 else k - 1)
  {}

  /** What it does to any other list. */
  lemma {:induction false} UnthreadElsewhere(
      s: Siblings, p: nat, c: nat, list: seq<nat>, i: nat, other: seq<nat>, q: nat)
    requires |s.firstChild| == |s.next| == |s.last| && p < |s.next| && c < |s.next| && q < |s.next| && p != q
    requires Runs(list, s.firstChild[p], s.next, s.last) && i < |list| && list[i] == c
    requires Runs(other, s.firstChild[q], s.next, s.last) && Apart(list, other)
    ensures (s.next[c].Some? ==> s.next[c].value < |s.next|) && (s.last[c].Some? ==> s.last[c].value < |s.next|)
    ensures var s' := Unthread(s, p, c); Runs(other, s'.firstChild[q], s'.next, s'.last)
  {
    Neighbours(s, p, c, list, i);
    var s' := Unthread(s, p, c);
    forall j | 0 <= j < |other| ensures InPlace(other, j, s'.next, s'.last) {
      assert InPlace(other, j, s.next, s.last);
    }
  }

  /** disconnect() unlinks exactly that child, whichever pointers have to be mended. */
  lemma {:induction false} UnthreadKeeps(g: Graph, rank: seq<nat>, s: Siblings, c: nat)
    requires Linked(g, rank) && Threaded(g, s) && 0 < c < |rank| && g.parent[c].Some?
    ensures g.parent[c].value < |rank|
    ensures (s.next[c].Some? ==> s.next[c].value < |rank|) && (s.last[c].Some? ==> s.last[c].value < |rank|)
    ensures Threaded(AfterDisconnect(g, c), Unthread(s, g.parent[c].value, c))
  {
    hide Mirror, RankedTree, RankedAdoption, Bare, AdoptionsAllocated, Runs, TreeLinks, Unthread;
    var p, i := PlaceOf(g, rank, c);
    var list := g.children[p];
    ListsApart(g, rank, p, p);
    UnthreadHere(s, p, c, list, i);
    UnthreadSizes(s, p, c);
    var g', s' := AfterDisconnect(g, c), Unthread(s, p, c);
    forall q | 0 <= q < |rank| ensures Runs(g'.children[q], s'.firstChild[q], s'.next, s'.last) {
      if q != p {
        ListsApart(g, rank, p, q);
        UnthreadElsewhere(s, p, c, list, i, g.children[q], q);
      }
    }
    forall d: nat | d < |rank| && (d == 0 || g'.parent[d].None?) ensures s'.next[d] == None && s'.last[d] == None {
      UnthreadAlone(g, rank, s, p, i, c, d);
    }
  }

  /** What disconnect() asserts about the pointers around `c`. */
  lemma {:induction false} DisconnectAsserts(g: Graph, rank: seq<nat>, s: Siblings, c: nat)
    requires Linked(g, rank) && Threaded(g, s) && 0 < c < |rank| && g.parent[c].Some?
    ensures g.parent[c].value < |rank|
    ensures s.last[c].Some? ==>
      s.last[c].value < |rank| && s.next[s.last[c].value] == Some(c) && s.firstChild[g.parent[c].value] != Some(c)
    ensures s.last[c].None? ==> s.firstChild[g.parent[c].value] == Some(c)
    ensures s.next[c].Some? ==> s.next[c].value < |rank| && s.last[s.next[c].value] == Some(c)
    ensures s.last[c] != Some(c) && s.next[c] != Some(c) && (s.last[c].Some? ==> s.next[c] != s.last[c])
  {
    hide Mirror, RankedTree, RankedAdoption, Bare, AdoptionsAllocated, TreeLinks;
    var p, i := PlaceOf(g, rank, c);
    var list := g.children[p];
    ListsApart(g, rank, p, p);
    Neighbours(s, p, c, list, i);
    if i > 0 { assert InPlace(list, i - 1, s.next, s.last); }
    if i + 1 < |list| { assert InPlace(list, i + 1, s.next, s.last); }
  }

  lemma UnthreadSizes(s: Siblings, p: nat, c: nat)
    requires |s.firstChild| == |s.next| == |s.last| && p < |s.next| && c < |s.next|
    requires (s.next[c].Some? ==> s.next[c].value < |s.next|) && (s.last[c].Some? ==> s.last[c].value < |s.next|)
    ensures var s' := Unthread(s, p, c); |s'.firstChild| == |s'.next| == |s'.last| == |s.next|
  {}

  lemma {:induction false} UnthreadAlone(g: Graph, rank: seq<nat>, s: Siblings, p: nat, i: nat, c: nat, d: nat)
    requires Linked(g, rank) && Threaded(g, s) && 0 < c < |rank| && p < |rank| && g.parent[c] == Some(p)
    requires i < |g.children[p]| && g.children[p][i] == c
    requires d < |rank| && (d == 0 || d == c || g.parent[d].None?)
    ensures (s.next[c].Some? ==> s.next[c].value < |s.next|) && (s.last[c].Some? ==> s.last[c].value < |s.next|)
    ensures Unthread(s, p, c).next[d] == None && Unthread(s, p, c).last[d] == None
  {
    hide Mirror, RankedTree, RankedAdoption, Bare, AdoptionsAllocated, TreeLinks;
    ListsApart(g, rank, p, p);
    assert Runs(g.children[p], s.firstChild[p], s.next, s.last);
    Neighbours(s, p, c, g.children[p], i);
  }

  /** Where a child is listed. */
  lemma {:induction false} PlaceOf(g: Graph, rank: seq<nat>, c: nat) returns (p: nat, i: nat)
    requires Linked(g, rank) && 0 < c < |rank| && g.parent[c].Some?
    ensures p < |rank| && g.parent[c] == Some(p) && i < |g.children[p]| && g.children[p][i] == c
    ensures RemoveFirst(g.children[p], c) == g.children[p][..i] + g.children[p][i + 1..]
    ensures c !in g.children[p][..i]
  {
    hide Mirror, RankedTree, RankedAdoption, Bare, AdoptionsAllocated;
    p := g.parent[c].value;
    var list := g.children[p];
    assert Count(list, c) == 1;
    CountIn(list, c);
    i :| 0 <= i < |list| && list[i] == c;
    ListsApart(g, rank, p, p);
    RemoveAt(list, i);
  }

  // ---------------------------------------------------------------- linking

  /** The pointer surgery of connect(). */
  function Thread(s: Siblings, p: nat, c: nat): Siblings
    requires |s.firstChild| == |s.next| == |s.last| && p < |s.next| && c < |s.next|
    requires s.firstChild[p].Some? ==> s.firstChild[p].value < |s.next|
  {
    Siblings(s.firstChild[p := Some(c)], s.next[c := s.firstChild[p]],
             if s.firstChild[p].Some? then s.last[s.firstChild[p].value := Some(c)] else s.last)
  }

  lemma {:induction false} ThreadKeeps(g: Graph, rank: seq<nat>, s: Siblings, p: nat, c: nat)
    requires Linked(g, rank) && Threaded(g, s) && 0 < c < |rank| && p < |rank| && g.parent[c].None?
    ensures s.firstChild[p].Some? ==> s.firstChild[p].value < |s.next|
    ensures Threaded(AfterConnect(g, p, c), Thread(s, p, c))
  {
    hide Mirror, RankedTree, RankedAdoption, Bare, AdoptionsAllocated, TreeLinks;
    hide Runs;
    ListsApart(g, rank, p, p);
    ThreadHere(s, p, c, g.children[p]);
    var g', s' := AfterConnect(g, p, c), Thread(s, p, c);
    forall q | 0 <= q < |rank| ensures Runs(g'.children[q], s'.firstChild[q], s'.next, s'.last) {
      if q != p {
        ListsApart(g, rank, q, p);
        ThreadElsewhere(s, p, c, g.children[p], g.children[q], q);
      }
    }
    forall d: nat | d < |rank| && (d == 0 || g'.parent[d].None?) ensures s'.next[d] == None && s'.last[d] == None {
      ThreadAlone(g, rank, s, p, c, d);
    }
  }

  /** What connect() asserts about its new child. */
  lemma {:induction false} ConnectAsserts(g: Graph, rank: seq<nat>, s: Siblings, p: nat, c: nat)
    requires Linked(g, rank) && Threaded(g, s) && c < |rank| && p < |rank| && g.parent[c].None?
    ensures s.next[c] == None && s.last[c] == None && c !in g.children[p]
  {
    ListsApart(g, rank, p, p);
  }

  lemma {:induction false} ThreadHere(s: Siblings, p: nat, c: nat, list: seq<nat>)
    requires |s.firstChild| == |s.next| == |s.last| && p < |s.next| && c < |s.next|
    requires Runs(list, s.firstChild[p], s.next, s.last) && NoRepeats(list) && s.last[c] == None
    requires forall i :: 0 <= i < |list| ==> list[i] != c
    ensures s.firstChild[p].Some? ==> s.firstChild[p].value < |s.next|
    ensures var s' := Thread(s, p, c); Runs([c] + list, s'.firstChild[p], s'.next, s'.last)
  {
    if list != [] { assert InPlace(list, 0, s.next, s.last); }
    var s', all := Thread(s, p, c), [c] + list;
    forall j | 0 <= j < |all| ensures InPlace(all, j, s'.next, s'.last) {
      if j > 0 { assert InPlace(list, j - 1, s.next, s.last); }
    }
  }

  lemma {:induction false} ThreadElsewhere(s: Siblings, p: nat, c: nat, list: seq<nat>, other: seq<nat>, q: nat)
    requires |s.firstChild| == |s.next| == |s.last| && p < |s.next| && c < |s.next| && q < |s.next| && p != q
    requires Runs(list, s.firstChild[p], s.next, s.last) && Apart(other, list)
    requires Runs(other, s.firstChild[q], s.next, s.last) && forall i :: 0 <= i < |other| ==> other[i] != c
    ensures s.firstChild[p].Some? ==> s.firstChild[p].value < |s.next|
    ensures var s' := Thread(s, p, c); Runs(other, s'.firstChild[q], s'.next, s'.last)
  {
    if list != [] { assert InPlace(list, 0, s.next, s.last); }
    var s' := Thread(s, p, c);
    forall j | 0 <= j < |other| ensures InPlace(other, j, s'.next, s'.last) {
      assert InPlace(other, j, s.next, s.last);
    }
  }

  lemma {:induction false} ThreadAlone(g: Graph, rank: seq<nat>, s: Siblings, p: nat, c: nat, d: nat)
    requires Linked(g, rank) && Threaded(g, s) && c < |rank| && p < |rank| && g.parent[c].None?
    requires d < |rank| && d != c && (d == 0 || g.parent[d].None?)
    ensures s.firstChild[p].Some? ==> s.firstChild[p].value < |s.next|
    ensures Thread(s, p, c).next[d] == None && Thread(s, p, c).last[d] == None
  {
    hide Mirror, RankedTree, RankedAdoption, Bare, AdoptionsAllocated, TreeLinks;
    ListsApart(g, rank, p, p);
    assert Runs(g.children[p], s.firstChild[p], s.next, s.last);
    if g.children[p] != [] { assert InPlace(g.children[p], 0, s.next, s.last); }
  }

  // ---------------------------------------------------------------- what leaves the pointers alone

  /** Only parent pointers and child lists matter. */
  lemma ThreadedSame(g: Graph, g': Graph, s: Siblings)
    requires Threaded(g, s) && Sized(g', |g'.parent|) && g'.parent == g.parent && g'.children == g.children
    ensures Threaded(g', s)
  {}

  /** A fresh allocator without siblings. */
  function AfterNewSiblings(s: Siblings): Siblings {
    Siblings(s.firstChild + [None], s.next + [None], s.last + [None])
  }

  lemma {:induction false} ThreadedNew(g: Graph, s: Siblings)
    requires Threaded(g, s)
    ensures Threaded(
      Graph(g.parent + [None], g.children + [[]], g.adopters + [[]], g.adopted + [[]], g.hasAdoptions + [false],
            g.freeing + [false]), AfterNewSiblings(s))
  {
    var n, s' := |g.parent|, AfterNewSiblings(s);
    forall p | 0 <= p < n ensures Runs(g.children[p], s'.firstChild[p], s'.next, s'.last) {
      assert Runs(g.children[p], s.firstChild[p], s.next, s.last);
      forall j | 0 <= j < |g.children[p]| ensures InPlace(g.children[p], j, s'.next, s'.last) {
        assert InPlace(g.children[p], j, s.next, s.last);
      }
    }
    assert Runs([], s'.firstChild[n], s'.next, s'.last);
  }
}
