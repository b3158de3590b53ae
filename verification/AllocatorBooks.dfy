/** The books an allocator tree keeps beside its links: bytes and onFree jobs
    (memory/Allocator.c:72-79, 154-184, 212-272, 404-502). */
module AllocatorBooks {
  import opened CTypes
  import opened Lists
  import opened AllocatorGraph
  import opened AllocatorFree
  import opened AllocatorDominance
  import opened AllocatorRounds
  import opened AllocatorSubtree

  function Sum(s: seq<nat>): nat {
    if s == [] then 0 else s[0] + Sum(s[1..])
  }

  lemma {:induction false} SumUpdate(s: seq<nat>, i: nat, v: nat)
    requires i < |s|
    ensures Sum(s[i := v]) == Sum(s) - s[i] + v
  {
    if i > 0 { SumUpdate(s[1..], i - 1, v); assert s[i := v][1..] == s[1..][i - 1 := v]; }
    else { assert s[i := v][1..] == s[1..]; }
  }

  lemma {:induction false} SumRemove(s: seq<nat>, i: nat)
    requires i < |s|
    ensures Sum(s[..i] + s[i + 1..]) == Sum(s) - s[i]
  {
    if i > 0 {
      SumRemove(s[1..], i - 1);
      var t := s[..i] + s[i + 1..];
      assert t[0] == s[0] && t[1..] == s[1..][..i - 1] + s[1..][i..];
    } else {
      assert s[..0] + s[1..] == s[1..];
    }
  }

  // ---------------------------------------------------------------- bytes

  ghost function Unreleased(size: nat, released: set<nat>): set<nat> {
    set n: nat | n < size && n !in released
  }

  /** Byte conservation: what is available and what is held add up to the budget, and every
      allocatedHere is the sum of the allocations listed. */
  ghost predicate Accounted(
      here: seq<nat>, allocations: seq<seq<nat>>, released: set<nat>, space: int, maxSpace: int)
  {
    && |here| == |allocations|
    && space >= 0
    && space + Total(here, Unreleased(|here|, released)) == maxSpace
    && (forall n :: 0 <= n < |here| ==> here[n] == Sum(allocations[n]))
  }

  /** `size` bytes move between the free space and allocator `n`. */
  lemma {:induction false} AccountMove(
      here: seq<nat>, allocations: seq<seq<nat>>, released: set<nat>, space: int, maxSpace: int,
      n: nat, list: seq<nat>)
    requires Accounted(here, allocations, released, space, maxSpace)
    requires n < |here| && n !in released && space + here[n] - Sum(list) >= 0
    ensures Accounted(here[n := Sum(list)], allocations[n := list], released,
                      space + here[n] - Sum(list), maxSpace)
  {
    TotalUpdate(here, n, Sum(list), Unreleased(|here|, released));
  }

  lemma {:induction false} AccountNew(
      here: seq<nat>, allocations: seq<seq<nat>>, released: set<nat>, space: int, maxSpace: int, bytes: nat)
    requires Accounted(here, allocations, released, space, maxSpace)
    requires bytes <= space && forall n :: n in released ==> n < |here|
    ensures Accounted(here + [bytes], allocations + [[bytes]], released, space - bytes, maxSpace)
  {
    var u, u' := Unreleased(|here|, released), Unreleased(|here| + 1, released);
    TotalAppend(here, bytes, u');
    TotalUnion(here, u, {|here|});
    TotalOne(here, |here|);
    assert u' == u + {|here|};
    assert Sum([bytes]) == bytes by { assert [bytes][1..] == []; }
  }

  lemma {:induction false} AccountRelease(
      here: seq<nat>, allocations: seq<seq<nat>>, released: set<nat>, space: int, maxSpace: int, gone: set<nat>)
    requires Accounted(here, allocations, released, space, maxSpace)
    requires gone !! released && forall n :: n in gone ==> 0 <= n < |here|
    ensures Accounted(here, allocations, released + gone, space + Total(here, gone), maxSpace)
  {
    var u, u' := Unreleased(|here|, released), Unreleased(|here|, released + gone);
    assert u == u' + gone;
    TotalUnion(here, u', gone);
  }

  // ---------------------------------------------------------------- what has been released

  /** A freeing allocator whose memory is still there and that nothing freeing stands above:
      a subtree waiting for its last onFree job. */
  ghost predicate Top(g: Graph, released: set<nat>, n: nat) {
    && n < |g.freeing| && n < |g.parent|
    && g.freeing[n] && n !in released && (n == 0 || g.parent[n].None?)
  }

  /** A detached subtree is released as a whole, and only freeing allocators are. */
  ghost predicate Together(g: Graph, released: set<nat>) {
    && |g.parent| == |g.freeing|
    && (forall n: nat :: n in released ==> n < |g.freeing| && g.freeing[n])
    && (forall n: nat, p: nat :: ChildOf(g, n, p) ==> (n in released <==> p in released))
  }

  ghost predicate Root(g: Graph, x: nat) {
    x < |g.parent| && (x == 0 || g.parent[x].None?)
  }

  lemma {:induction false} SubtreeUnreleased(g: Graph, rank: seq<nat>, released: set<nat>, x: nat, n: nat)
    requires Linked(g, rank) && Together(g, released) && n < |rank| && Above(g, rank, x, n)
    ensures x in released <==> n in released
    decreases rank[n]
  {
    hide TreeLinks, Mirror, RankedAdoption, Bare, AdoptionsAllocated;
    if x != n {
      assert ChildOf(g, n, g.parent[n].value);
      SubtreeUnreleased(g, rank, released, x, g.parent[n].value);
    }
  }

  lemma {:induction false} ReleaseTogether(g: Graph, rank: seq<nat>, released: set<nat>, x: nat)
    requires Linked(g, rank) && Settled(g) && Together(g, released) && Root(g, x) && g.freeing[x]
    ensures Together(g, released + Subtree(g, rank, x))
  {
    hide TreeLinks, Mirror, RankedTree, RankedAdoption, Bare, AdoptionsAllocated;
    var s := Subtree(g, rank, x);
    forall n: nat | n in s ensures g.freeing[n] { SubtreeFreeing(g, rank, x, n); }
    forall n: nat, p: nat | ChildOf(g, n, p) ensures n in s <==> p in s {
      ParentBound(g, rank, n, p);
    }
  }

  lemma ParentBound(g: Graph, rank: seq<nat>, n: nat, p: nat)
    requires Linked(g, rank) && ChildOf(g, n, p)
    ensures p < |rank| && (n == 0 ==> p == 0)
  {}

  lemma {:induction false} SubtreeFreeing(g: Graph, rank: seq<nat>, x: nat, n: nat)
    requires Linked(g, rank) && Settled(g) && n < |rank| && Above(g, rank, x, n)
    ensures x < |rank| && g.freeing[x] == g.freeing[n]
    decreases rank[n]
  {
    hide TreeLinks, Mirror, RankedAdoption, Bare, AdoptionsAllocated;
    if x != n {
      assert ChildOf(g, n, g.parent[n].value);
      SubtreeFreeing(g, rank, x, g.parent[n].value);
    }
  }

  // ---------------------------------------------------------------- jobs

  ghost function LiveSet(g: Graph): set<nat> {
    set n: nat | n < |g.freeing| && !g.freeing[n]
  }

  ghost predicate Listed(lists: seq<seq<nat>>, s: set<nat>, j: nat) {
    exists i: nat :: i in s && i < |lists| && j in lists[i]
  }

  lemma {:induction false} JobsMember(lists: seq<seq<nat>>, s: set<nat>, j: nat)
    ensures j in AllJobs(lists, s) <==> Listed(lists, s, j)
  {
    if lists != [] {
      var n := |lists| - 1;
      JobsMember(lists[..n], s, j);
      if Listed(lists[..n], s, j) {
        var i: nat :| i in s && i < n && j in lists[..n][i];
        assert j in lists[i];
      }
      if Listed(lists, s, j) {
        var i: nat :| i in s && i < |lists| && j in lists[i];
        if i < n { assert j in lists[..n][i]; }
      }
    }
  }

  /** No job is registered twice, or registered and already run, or run twice. */
  ghost predicate NoJobTwice(g: Graph, lists: seq<seq<nat>>, ran: seq<nat>) {
    forall j: nat :: AllJobs(lists, LiveSet(g))[j] + multiset(ran)[j] <= 1
  }

  /** A job knows whose list it is on. */
  ghost predicate JobsOwned(g: Graph, released: set<nat>, lists: seq<seq<nat>>, owner: seq<nat>) {
    forall n: nat, j: nat {:trigger j in lists[n]} ::
      n < |lists| && j in lists[n] && (Live(g, n) || Top(g, released, n)) ==> j < |owner| && owner[j] == n
  }

  /** The jobs that a waiting subtree still lists have all been started. */
  ghost predicate WaitingStarted(g: Graph, released: set<nat>, lists: seq<seq<nat>>, ran: seq<nat>) {
    forall n: nat, j: nat {:trigger j in lists[n]} :: n < |lists| && j in lists[n] && Top(g, released, n) ==>
      j in ran && multiset(lists[n])[j] == 1
  }

  /** A job on the old list of an allocator inside a waiting subtree belongs to somebody else: to
      whoever the subtree was freed from. */
  ghost predicate InnerGivenUp(g: Graph, released: set<nat>, lists: seq<seq<nat>>, owner: seq<nat>) {
    && (forall n: nat, j: nat {:trigger j in lists[n]} ::
          n < |lists| && j in lists[n] && Inner(g, released, n) && j < |owner| ==> owner[j] != n)
    && (forall j: nat :: j < |owner| ==> owner[j] < |lists|)
  }

  ghost predicate Inner(g: Graph, released: set<nat>, n: nat) {
    n < |g.freeing| && g.freeing[n] && n !in released && !Top(g, released, n)
  }

  ghost predicate JobsInOrder(g: Graph, released: set<nat>, lists: seq<seq<nat>>, owner: seq<nat>, ran: seq<nat>) {
    && NoJobTwice(g, lists, ran)
    && JobsOwned(g, released, lists, owner)
    && WaitingStarted(g, released, lists, ran)
    && InnerGivenUp(g, released, lists, owner)
    && (forall j :: j in ran ==> j < |owner|)
  }

  ghost predicate Known(list: seq<nat>, jobs: nat) {
    forall i :: 0 <= i < |list| ==> list[i] < jobs
  }

  /** The jobs with a callback, in list order. */
  function Runnable(list: seq<nat>, callback: seq<bool>): (r: seq<nat>)
    requires Known(list, |callback|)
    ensures forall j :: j in r <==> j in list && j < |callback| && callback[j]
  {
    if list == [] then [] else
      (if callback[list[0]] then [list[0]] else []) + Runnable(list[1..], callback)
  }

  /** The jobs whose callback answers Allocator_ONFREE_ASYNC. */
  function Pending(list: seq<nat>, callback: seq<bool>, async: set<nat>): (r: seq<nat>)
    requires Known(list, |callback|)
    ensures forall j :: j in r <==> j in list && j < |callback| && callback[j] && j in async
  {
    if list == [] then [] else
      (if callback[list[0]] && list[0] in async then [list[0]] else []) + Pending(list[1..], callback, async)
  }

  lemma Associative(a: seq<nat>, b: seq<nat>, c: seq<nat>)
    ensures a + (b + c) == (a + b) + c
  {}

  lemma {:induction false} RunnableSnoc(list: seq<nat>, j: nat, callback: seq<bool>)
    requires Known(list, |callback|) && j < |callback|
    ensures Known(list + [j], |callback|)
    ensures Runnable(list + [j], callback) == Runnable(list, callback) + if callback[j] then [j] else []
  {
    if list == [] { assert list + [j] == [j]; } else {
      assert (list + [j])[1..] == list[1..] + [j];
      RunnableSnoc(list[1..], j, callback);
      Associative(if callback[list[0]] then [list[0]] else [], Runnable(list[1..], callback),
                  if callback[j] then [j] else []);
    }
  }

  lemma {:induction false} PendingSnoc(list: seq<nat>, j: nat, callback: seq<bool>, async: set<nat>)
    requires Known(list, |callback|) && j < |callback|
    ensures Known(list + [j], |callback|)
    ensures Pending(list + [j], callback, async) ==
            Pending(list, callback, async) + if callback[j] && j in async then [j] else []
  {
    if list == [] { assert list + [j] == [j]; } else {
      assert (list + [j])[1..] == list[1..] + [j];
      PendingSnoc(list[1..], j, callback, async);
      var first := if callback[list[0]] && list[0] in async then [list[0]] else [];
      var last := if callback[j] && j in async then [j] else [];
      Associative(first, Pending(list[1..], callback, async), last);
    }
  }

  lemma {:induction false} SublistCounts(list: seq<nat>, callback: seq<bool>, async: set<nat>, j: nat)
    requires Known(list, |callback|)
    ensures multiset(Runnable(list, callback))[j] <= multiset(list)[j]
    ensures multiset(Pending(list, callback, async))[j] <= multiset(Runnable(list, callback))[j]
  {
    if list != [] {
      assert list == [list[0]] + list[1..];
      SublistCounts(list[1..], callback, async, j);
    }
  }

  lemma {:induction false} RemoveMiddle(a: seq<nat>, x: nat, b: seq<nat>)
    requires x !in a
    ensures RemoveFirst(a + [x] + b, x) == a + b
  {
    if a == [] { assert a + [x] + b == [x] + b; } else {
      assert (a + [x] + b)[1..] == a[1..] + [x] + b;
      RemoveMiddle(a[1..], x, b);
    }
  }

  lemma {:induction false} RemoveFirstCounts(s: seq<nat>, x: nat)
    ensures multiset(RemoveFirst(s, x)) == multiset(s) - multiset{x}
    ensures x !in s ==> RemoveFirst(s, x) == s
  {
    if s != [] {
      assert s == [s[0]] + s[1..];
      RemoveFirstCounts(s[1..], x);
    }
  }

  // ---------------------------------------------------------------- the order of the jobs of a subtree

  /** The jobs of `x` and then, child by child, of everything below it. */
  ghost function TreeJobs(g: Graph, rank: seq<nat>, lists: seq<seq<nat>>, x: nat): seq<nat>
    requires Linked(g, rank) && |lists| == |rank| && x < |rank|
    decreases Subtree(g, rank, x), |g.children[x]| + 1
  {
    lists[x] + ChildJobs(g, rank, lists, x, |g.children[x]|)
  }

  /** Those of the first `i` children. */
  ghost function ChildJobs(g: Graph, rank: seq<nat>, lists: seq<seq<nat>>, x: nat, i: nat): seq<nat>
    requires Linked(g, rank) && |lists| == |rank| && x < |rank| && i <= |g.children[x]|
    decreases Subtree(g, rank, x), i
  {
    if i == 0 then [] else
      SubtreesExtend(g, rank, x, i - 1);
      ChildJobs(g, rank, lists, x, i - 1) + TreeJobs(g, rank, lists, g.children[x][i - 1])
  }

  /** Lists outside the subtree do not matter. */
  lemma {:induction false} ChildJobsElsewhere(
      g: Graph, rank: seq<nat>, lists: seq<seq<nat>>, root: nat, v: seq<nat>, x: nat, i: nat)
    requires Linked(g, rank) && |lists| == |rank| && x < |rank| && i <= |g.children[x]| && root < |rank|
    requires root !in Subtree(g, rank, x) - {x}
    ensures ChildJobs(g, rank, lists[root := v], x, i) == ChildJobs(g, rank, lists, x, i)
    decreases Subtree(g, rank, x), i
  {
    hide TreeLinks, Mirror, RankedTree, RankedAdoption, Bare, AdoptionsAllocated, Subtree, Subtrees;
    if i > 0 {
      SubtreesExtend(g, rank, x, i - 1);
      var c := g.children[x][i - 1];
      SubtreeSplit(g, rank, c);
      ChildJobsElsewhere(g, rank, lists, root, v, x, i - 1);
      ChildJobsElsewhere(g, rank, lists, root, v, c, |g.children[c]|);
    }
  }

  lemma {:induction false} TreeJobsElsewhere(
      g: Graph, rank: seq<nat>, lists: seq<seq<nat>>, root: nat, v: seq<nat>, x: nat)
    requires Linked(g, rank) && |lists| == |rank| && x < |rank| && root < |rank| && root !in Subtree(g, rank, x)
    ensures TreeJobs(g, rank, lists[root := v], x) == TreeJobs(g, rank, lists, x)
  {
    hide TreeLinks, Mirror, RankedTree, RankedAdoption, Bare, AdoptionsAllocated, Above;
    AboveSelf(g, rank, x);
    ChildJobsElsewhere(g, rank, lists, root, v, x, |g.children[x]|);
  }

  lemma ChildJobsNext(g: Graph, rank: seq<nat>, lists: seq<seq<nat>>, x: nat, i: nat)
    requires Linked(g, rank) && |lists| == |rank| && x < |rank| && i < |g.children[x]|
    ensures g.children[x][i] < |rank| && ChildJobs(g, rank, lists, x, 0) == []
    ensures ChildJobs(g, rank, lists, x, i + 1) ==
            ChildJobs(g, rank, lists, x, i) + TreeJobs(g, rank, lists, g.children[x][i])
  {
    hide Linked, Subtree, Subtrees;
    SubtreesExtend(g, rank, x, i);
  }

  ghost predicate InTreeOrder(g: Graph, rank: seq<nat>, lists: seq<seq<nat>>, x: nat, jobs: seq<nat>) {
    Linked(g, rank) && |lists| == |rank| && x < |rank| && jobs == TreeJobs(g, rank, lists, x)
  }

  // ---------------------------------------------------------------- the loop of doOnFreeJobs

  /** The list after the first `i` jobs have been dealt with, and the callbacks called so far. */
  ghost function JobsLeft(list: seq<nat>, i: nat, callback: seq<bool>, async: set<nat>): seq<nat>
    requires Known(list, |callback|) && i <= |list|
  {
    Pending(list[..i], callback, async) + list[i..]
  }

  ghost function JobsRun(list: seq<nat>, i: nat, callback: seq<bool>): seq<nat>
    requires Known(list, |callback|) && i <= |list|
  {
    Runnable(list[..i], callback)
  }

  lemma JobLoopStart(list: seq<nat>, callback: seq<bool>, async: set<nat>)
    requires Known(list, |callback|)
    ensures JobsLeft(list, 0, callback, async) == list && JobsRun(list, 0, callback) == []
  {
    assert list[..0] == [] && list[0..] == list;
  }

  lemma JobLoopEnd(list: seq<nat>, callback: seq<bool>, async: set<nat>)
    requires Known(list, |callback|)
    ensures JobsLeft(list, |list|, callback, async) == Pending(list, callback, async)
    ensures JobsRun(list, |list|, callback) == Runnable(list, callback)
  {
    assert list[..|list|] == list && list[|list|..] == [];
  }

  lemma {:induction false} JobLoopStep(list: seq<nat>, i: nat, callback: seq<bool>, async: set<nat>)
    requires Known(list, |callback|) && NoRepeats(list) && i < |list|
    ensures list[i] in JobsLeft(list, i, callback, async)
    ensures JobsRun(list, i + 1, callback) == JobsRun(list, i, callback) + if callback[list[i]] then [list[i]] else []
    ensures JobsLeft(list, i + 1, callback, async) ==
            if callback[list[i]] && list[i] in async then JobsLeft(list, i, callback, async)
            else RemoveFirst(JobsLeft(list, i, callback, async), list[i])
  {
    hide Runnable, Pending, RemoveFirst, NoRepeats;
    var job, before, after := list[i], list[..i], list[i + 1..];
    var kept := Pending(before, callback, async);
    assert list[..i + 1] == before + [job] && list[i..] == [job] + after;
    RunnableSnoc(before, job, callback);
    PendingSnoc(before, job, callback, async);
    Associative(kept, [job], after);
    NotSeenBefore(list, i);
    RemoveMiddle(kept, job, after);
  }

  lemma NotSeenBefore(list: seq<nat>, i: nat)
    requires NoRepeats(list) && i < |list|
    ensures list[i] !in list[..i]
  {}

  // ---------------------------------------------------------------- the books after a free

  ghost predicate Reassigned(owner: seq<nat>, owner': seq<nat>, jobs: multiset<nat>, root: nat) {
    && |owner'| == |owner|
    && forall j: nat :: j < |owner| ==> owner'[j] == (if j in jobs then root else owner[j])
  }

  lemma NothingReassigned(owner: seq<nat>, root: nat)
    ensures Reassigned(owner, owner, multiset{}, root)
  {}

  lemma ReassignedTwice(
      owner: seq<nat>, owner1: seq<nat>, owner2: seq<nat>, jobs: multiset<nat>, more: multiset<nat>, root: nat)
    requires Reassigned(owner, owner1, jobs, root) && Reassigned(owner1, owner2, more, root)
    ensures Reassigned(owner, owner2, jobs + more, root)
  {}

  ghost predicate AllIn(list: seq<nat>, ran: seq<nat>) {
    forall j :: j in list ==> j in ran
  }

  /** Every subtree that waits still waits for some job, and for no job that was not called. */
  ghost predicate Leakless(g: Graph, released: set<nat>, lists: seq<seq<nat>>, ran: seq<nat>) {
    forall n: nat :: n < |lists| && Top(g, released, n) ==> lists[n] != [] && AllIn(lists[n], ran)
  }

  lemma {:induction false} LiveAfter(g0: Graph, g: Graph, rank: seq<nat>, top: nat, lv: Levels)
    requires Progress(g0, g, rank, top, lv, NOBODY)
    ensures LiveSet(g) == LiveSet(g0) - lv.Keys && lv.Keys <= LiveSet(g0)
  {
    hide TreeLinks, Mirror, RankedTree, RankedAdoption, Bare, AdoptionsAllocated, EdgesKept, MarkedTree;
    hide MarkedAreCut, Settled;
  }

  lemma {:induction false} TogetherAfter(
      g0: Graph, g: Graph, rank: seq<nat>, top: nat, lv: Levels, released: set<nat>)
    requires Progress(g0, g, rank, top, lv, NOBODY) && Closed(g, lv) && Together(g0, released)
    ensures Together(g, released)
  {
    hide TreeLinks, Mirror, RankedTree, RankedAdoption, Bare, AdoptionsAllocated, EdgesKept, MarkedAreCut;
    forall n: nat, p: nat | ChildOf(g, n, p) ensures n in released <==> p in released {
      ParentBound(g, rank, n, p);
      if Live(g, n) { LiveParent(g0, g, rank, top, lv, n, p); }
      else if n !in lv { assert ChildOf(g0, n, p); }
    }
  }

  /** Before the free nobody else waits for the jobs of the allocators it marks. */
  lemma {:induction false} MarkedJobsApart(
      g0: Graph, released: set<nat>, lists: seq<seq<nat>>, owner: seq<nat>, ran: seq<nat>, freed: set<nat>, j: nat)
    requires JobsInOrder(g0, released, lists, owner, ran) && freed <= LiveSet(g0)
    ensures AllJobs(lists, freed)[j] + AllJobs(lists, LiveSet(g0) - freed)[j] + multiset(ran)[j] <= 1
    ensures j in AllJobs(lists, freed) ==> j < |owner|
  {
    assert LiveSet(g0) == freed + (LiveSet(g0) - freed);
    JobsUnion(lists, freed, LiveSet(g0) - freed);
    assert AllJobs(lists, LiveSet(g0))[j] + multiset(ran)[j] <= 1;
    JobsMember(lists, freed, j);
    if Listed(lists, freed, j) {
      var i: nat :| i in freed && i < |lists| && j in lists[i];
      assert Live(g0, i);
    }
  }

  /** The list that marshalOnFreeJobs() gathered holds every job of the freed allocators once. */
  lemma {:induction false} Gathered(
      g0: Graph, released: set<nat>, lists: seq<seq<nat>>, owner: seq<nat>, ran: seq<nat>,
      freed: set<nat>, list: seq<nat>)
    requires JobsInOrder(g0, released, lists, owner, ran) && freed <= LiveSet(g0)
    requires multiset(list) == AllJobs(lists, freed)
    ensures Known(list, |owner|) && NoRepeats(list)
    ensures forall j :: j in list ==> j !in ran
  {
    forall i | 0 <= i < |list| ensures list[i] < |owner| && list[i] !in ran {
      MarkedJobsApart(g0, released, lists, owner, ran, freed, list[i]);
      assert list[i] in multiset(list);
    }
    forall i, k | 0 <= i < k < |list| ensures list[i] != list[k] {
      MarkedJobsApart(g0, released, lists, owner, ran, freed, list[i]);
      OnlyOnce(list, i, k);
    }
  }

  lemma OnlyOnce(list: seq<nat>, i: nat, k: nat)
    requires i < k < |list| && multiset(list)[list[i]] <= 1
    ensures list[i] != list[k]
  {
    assert list == list[..i] + [list[i]] + list[i + 1..k] + [list[k]] + list[k + 1..];
  }

  lemma {:induction false} JobsAfterFree(
      g0: Graph, g: Graph, released: set<nat>, lists: seq<seq<nat>>, owner: seq<nat>, owner': seq<nat>,
      ran: seq<nat>, top: nat, freed: set<nat>, list: seq<nat>, callback: seq<bool>, async: set<nat>)
    requires JobsInOrder(g0, released, lists, owner, ran) && freed <= LiveSet(g0) && LiveSet(g) == LiveSet(g0) - freed
    requires top in freed && top < |lists| && |callback| == |owner|
    requires multiset(list) == AllJobs(lists, freed) && Known(list, |callback|)
    requires Reassigned(owner, owner', AllJobs(lists, freed), top)
    requires forall n: nat :: Top(g, released, n) && n != top ==> Top(g0, released, n)
    requires |g.freeing| == |g0.freeing| && Top(g, released, top)
    requires forall n: nat :: Top(g0, released, n) ==> Top(g, released, n)
    ensures JobsInOrder(g, released, lists[top := Pending(list, callback, async)], owner',
                        ran + Runnable(list, callback))
  {
    hide AllJobs, Top, Runnable, Pending, JobsInOrder;
    var lists', ran' := lists[top := Pending(list, callback, async)], ran + Runnable(list, callback);
    JobsElsewhere(lists, top, Pending(list, callback, async), LiveSet(g));
    forall j: nat ensures AllJobs(lists', LiveSet(g))[j] + multiset(ran')[j] <= 1 {
      MarkedJobsApart(g0, released, lists, owner, ran, freed, j);
      SublistCounts(list, callback, async, j);
    }
    assert NoJobTwice(g, lists', ran');
    forall n: nat, j: nat {:trigger j in lists'[n]} |
      n < |lists'| && j in lists'[n] && (Live(g, n) || Top(g, released, n))
      ensures j < |owner'| && owner'[j] == n
      ensures Top(g, released, n) ==> j in ran' && multiset(lists'[n])[j] == 1
    {
      if n == top {
        JobOfTop(g0, released, lists, owner, ran, freed, list, callback, async, j);
      } else {
        OtherJob(g0, g, released, lists, owner, ran, freed, n, j);
      }
    }
    assert JobsOwned(g, released, lists', owner');
    assert WaitingStarted(g, released, lists', ran');
    forall j | j in ran' ensures j < |owner'| {
      RanKnown(g0, released, lists, owner, ran, j);
      if j in Runnable(list, callback) { assert j in list; }
    }
    InnerAfterFree(g0, g, released, lists, owner, owner', ran, top, freed, Pending(list, callback, async));
    AllInOrder(g, released, lists', owner', ran');
  }

  lemma {:induction false} InnerAfterFree(
      g0: Graph, g: Graph, released: set<nat>, lists: seq<seq<nat>>, owner: seq<nat>, owner': seq<nat>,
      ran: seq<nat>, top: nat, freed: set<nat>, rest: seq<nat>)
    requires JobsInOrder(g0, released, lists, owner, ran) && LiveSet(g) == LiveSet(g0) - freed
    requires top in freed && top < |lists| && Reassigned(owner, owner', AllJobs(lists, freed), top)
    requires |g.freeing| == |g0.freeing| && Top(g, released, top)
    requires forall n: nat :: Top(g0, released, n) ==> Top(g, released, n)
    ensures InnerGivenUp(g, released, lists[top := rest], owner')
  {
    hide AllJobs, Top;
    var lists' := lists[top := rest];
    forall n: nat, j: nat {:trigger j in lists'[n]} |
      n < |lists'| && j in lists'[n] && Inner(g, released, n) && j < |owner'|
      ensures owner'[j] != n
    {
      assert n != top && j in lists[n];
      if n in freed {
        assert Listed(lists, freed, j);
        JobsMember(lists, freed, j);
      } else {
        assert n !in LiveSet(g) && n !in LiveSet(g0);
        assert Inner(g0, released, n);
      }
    }
  }

  lemma RanKnown(g: Graph, released: set<nat>, lists: seq<seq<nat>>, owner: seq<nat>, ran: seq<nat>, j: nat)
    requires JobsInOrder(g, released, lists, owner, ran)
    ensures j in ran ==> j < |owner|
  {}

  lemma AllInOrder(g: Graph, released: set<nat>, lists: seq<seq<nat>>, owner: seq<nat>, ran: seq<nat>)
    requires NoJobTwice(g, lists, ran) && JobsOwned(g, released, lists, owner)
    requires WaitingStarted(g, released, lists, ran) && (forall j :: j in ran ==> j < |owner|)
    requires InnerGivenUp(g, released, lists, owner)
    ensures JobsInOrder(g, released, lists, owner, ran)
  {}

  lemma {:induction false} JobOfTop(
      g0: Graph, released: set<nat>, lists: seq<seq<nat>>, owner: seq<nat>, ran: seq<nat>, freed: set<nat>,
      list: seq<nat>, callback: seq<bool>, async: set<nat>, j: nat)
    requires JobsInOrder(g0, released, lists, owner, ran) && freed <= LiveSet(g0) && |callback| == |owner|
    requires multiset(list) == AllJobs(lists, freed) && Known(list, |callback|)
    requires j in Pending(list, callback, async)
    ensures j < |owner| && j in AllJobs(lists, freed)
    ensures j in Runnable(list, callback) && multiset(Pending(list, callback, async))[j] == 1
  {
    MarkedJobsApart(g0, released, lists, owner, ran, freed, j);
    SublistCounts(list, callback, async, j);
    assert j in list;
    assert j in multiset(list);
    assert j in multiset(Pending(list, callback, async));
  }

  lemma {:induction false} OtherJob(
      g0: Graph, g: Graph, released: set<nat>, lists: seq<seq<nat>>, owner: seq<nat>, ran: seq<nat>,
      freed: set<nat>, n: nat, j: nat)
    requires JobsInOrder(g0, released, lists, owner, ran) && freed <= LiveSet(g0) && LiveSet(g) == LiveSet(g0) - freed
    requires n < |lists| && j in lists[n] && (Live(g, n) || Top(g0, released, n))
    ensures j < |owner| && owner[j] == n && j !in AllJobs(lists, freed)
    ensures Top(g0, released, n) ==> j in ran && multiset(lists[n])[j] == 1
  {
    MarkedJobsApart(g0, released, lists, owner, ran, freed, j);
    if Live(g, n) {
      assert n in LiveSet(g);
      assert Live(g0, n);
      assert Listed(lists, LiveSet(g), j);
      JobsMember(lists, LiveSet(g), j);
    } else {
      assert j in multiset(ran);
    }
  }

  lemma {:induction false} JobsRelease(
      g: Graph, released: set<nat>, gone: set<nat>, lists: seq<seq<nat>>, owner: seq<nat>, ran: seq<nat>)
    requires JobsInOrder(g, released, lists, owner, ran)
    ensures JobsInOrder(g, released + gone, lists, owner, ran)
  {
    hide AllJobs;
    forall n: nat ensures Top(g, released + gone, n) ==> Top(g, released, n) {}
    forall n: nat ensures Inner(g, released + gone, n) ==> Inner(g, released, n) {}
  }

  // ---------------------------------------------------------------- the books after the other operations

  /** The links of live allocators do not matter to the books. */
  ghost predicate SameFreeing(g: Graph, g': Graph) {
    && g'.freeing == g.freeing && |g'.parent| == |g.parent| == |g.freeing|
    && forall n: nat :: n < |g.freeing| && g.freeing[n] ==> g'.parent[n] == g.parent[n]
  }

  lemma {:induction false} BooksMove(
      g: Graph, g': Graph, rank': seq<nat>, released: set<nat>, lists: seq<seq<nat>>, owner: seq<nat>, ran: seq<nat>)
    requires Linked(g', rank') && Settled(g') && SameFreeing(g, g')
    requires Together(g, released) && JobsInOrder(g, released, lists, owner, ran)
    ensures Together(g', released) && JobsInOrder(g', released, lists, owner, ran)
  {
    hide AllJobs, TreeLinks, Mirror, RankedTree, RankedAdoption, Bare, AdoptionsAllocated;
    assert LiveSet(g') == LiveSet(g);
    forall n: nat ensures Top(g', released, n) <==> Top(g, released, n) {}
    forall n: nat ensures Inner(g', released, n) <==> Inner(g, released, n) {}
    forall n: nat, p: nat | ChildOf(g', n, p) ensures n in released <==> p in released {
      ParentBound(g', rank', n, p);
      if g.freeing[n] { assert ChildOf(g, n, p); }
    }
  }

  /** A new allocator under `p`. */
  lemma {:induction false} BooksNew(
      g: Graph, g': Graph, released: set<nat>, lists: seq<seq<nat>>, owner: seq<nat>, ran: seq<nat>, p: nat)
    requires |g.parent| == |g.freeing| == |lists| && Live(g, p)
    requires g'.parent == g.parent + [Some(p)] && g'.freeing == g.freeing + [false]
    requires Together(g, released) && JobsInOrder(g, released, lists, owner, ran)
    ensures Together(g', released) && JobsInOrder(g', released, lists + [[]], owner, ran)
  {
    hide AllJobs;
    var lists', n' := lists + [[]], |lists|;
    assert LiveSet(g') == LiveSet(g) + {n'};
    JobsAppend(lists, LiveSet(g'));
    JobsUnion(lists, LiveSet(g), {n'});
    JobsOne(lists, n');
    forall n: nat, q: nat | ChildOf(g', n, q) ensures n in released <==> q in released {
      if n < n' { assert ChildOf(g, n, q); }
    }
    forall n: nat ensures Top(g', released, n) ==> Top(g, released, n) {}
    forall n: nat ensures Inner(g', released, n) ==> Inner(g, released, n) {}
    forall n: nat, j: nat {:trigger j in lists'[n]} | n < |lists'| && j in lists'[n] ensures n < n' && j in lists[n] {}
    assert NoJobTwice(g', lists', ran);
    assert JobsOwned(g', released, lists', owner);
    assert WaitingStarted(g', released, lists', ran);
  }

  /** Registering a new job with the live allocator `a`. */
  lemma {:induction false} BooksRegister(
      g: Graph, released: set<nat>, lists: seq<seq<nat>>, owner: seq<nat>, ran: seq<nat>, a: nat)
    requires a < |lists| && Live(g, a) && JobsInOrder(g, released, lists, owner, ran)
    ensures JobsInOrder(g, released, lists[a := lists[a] + [|owner|]], owner + [a], ran)
  {
    hide AllJobs;
    var lists', owner', job := lists[a := lists[a] + [|owner|]], owner + [a], |owner|;
    var live := LiveSet(g);
    JobsHere(lists, a, live);
    JobsHere(lists', a, live);
    JobsElsewhere(lists, a, lists[a] + [job], live - {a});
    MarkedJobsApart(g, released, lists, owner, ran, live, job);
    assert job !in AllJobs(lists, live) && job !in ran;
    assert AllJobs(lists, live)[job] == 0 && multiset(ran)[job] == 0;
    forall j: nat ensures AllJobs(lists', live)[j] + multiset(ran)[j] <= 1 {
      assert AllJobs(lists, live)[j] + multiset(ran)[j] <= 1;
      assert multiset(lists'[a]) == multiset(lists[a]) + multiset{job};
    }
    assert NoJobTwice(g, lists', ran);
    forall n: nat, j: nat {:trigger j in lists'[n]} |
      n < |lists'| && j in lists'[n] && (Live(g, n) || Top(g, released, n))
      ensures j < |owner'| && owner'[j] == n
      ensures Top(g, released, n) ==> j in ran && multiset(lists'[n])[j] == 1
    {
      if j == job && n == a {} else { assert j in lists[n]; }
    }
    assert JobsOwned(g, released, lists', owner');
    assert WaitingStarted(g, released, lists', ran);
    forall n: nat, j: nat {:trigger j in lists'[n]} |
      n < |lists'| && j in lists'[n] && Inner(g, released, n) && j < |owner'|
      ensures owner'[j] != n
    {
      assert n != a && j in lists[n];
    }
    assert InnerGivenUp(g, released, lists', owner');
  }

  /** Registering a new job with a waiting allocator, after its callbacks have been called: from
      then on the job counts as dealt with, but it never is. */
  lemma {:induction false} BooksLate(
      g: Graph, released: set<nat>, lists: seq<seq<nat>>, owner: seq<nat>, started: seq<nat>, a: nat)
    requires a < |lists| && Top(g, released, a) && JobsInOrder(g, released, lists, owner, started)
    ensures JobsInOrder(g, released, lists[a := lists[a] + [|owner|]], owner + [a], [|owner|] + started)
  {
    hide AllJobs;
    var lists', owner', job := lists[a := lists[a] + [|owner|]], owner + [a], |owner|;
    var started', live := [job] + started, LiveSet(g);
    JobsElsewhere(lists, a, lists[a] + [job], live);
    MarkedJobsApart(g, released, lists, owner, started, live, job);
    assert multiset(started') == multiset{job} + multiset(started);
    assert job !in AllJobs(lists, live) && job !in started;
    forall j: nat ensures AllJobs(lists', live)[j] + multiset(started')[j] <= 1 {
      assert AllJobs(lists, live)[j] + multiset(started)[j] <= 1;
    }
    assert NoJobTwice(g, lists', started');
    forall n: nat, j: nat {:trigger j in lists'[n]} |
      n < |lists'| && j in lists'[n] && (Live(g, n) || Top(g, released, n))
      ensures j < |owner'| && owner'[j] == n
      ensures Top(g, released, n) ==> j in started' && multiset(lists'[n])[j] == 1
    {
      assert multiset(lists'[a]) == multiset(lists[a]) + multiset{job};
      assert job in lists[a] ==> job < |owner|;
      assert multiset(lists[a])[job] == 0;
      if j == job && n == a {} else { assert j in lists[n]; }
    }
    assert JobsOwned(g, released, lists', owner');
    assert WaitingStarted(g, released, lists', started');
    forall n: nat, j: nat {:trigger j in lists'[n]} |
      n < |lists'| && j in lists'[n] && Inner(g, released, n) && j < |owner'|
      ensures owner'[j] != n
    {
      assert n != a && j in lists[n];
    }
    assert InnerGivenUp(g, released, lists', owner');
  }

  /** Taking a job off the list it is on, because it is cancelled or because it is complete. */
  lemma {:induction false} BooksUnlist(
      g: Graph, released: set<nat>, lists: seq<seq<nat>>, owner: seq<nat>, ran: seq<nat>, a: nat, job: nat)
    requires a < |lists| && (Live(g, a) || Top(g, released, a)) && JobsInOrder(g, released, lists, owner, ran)
    ensures JobsInOrder(g, released, lists[a := RemoveFirst(lists[a], job)], owner, ran)
  {
    hide AllJobs;
    var rest := RemoveFirst(lists[a], job);
    var lists' := lists[a := rest];
    var live := LiveSet(g);
    RemoveFirstCounts(lists[a], job);
    forall j: nat ensures AllJobs(lists', live)[j] + multiset(ran)[j] <= 1 {
      assert AllJobs(lists, live)[j] + multiset(ran)[j] <= 1;
      if a in live {
        JobsHere(lists, a, live);
        JobsHere(lists', a, live);
        JobsElsewhere(lists, a, rest, live - {a});
      } else {
        JobsElsewhere(lists, a, rest, live);
      }
    }
    assert NoJobTwice(g, lists', ran);
    forall n: nat, j: nat {:trigger j in lists'[n]} | n < |lists'| && j in lists'[n]
      ensures j in lists[n] && multiset(lists'[n])[j] <= multiset(lists[n])[j] && multiset(lists'[n])[j] > 0
    {
      assert j in multiset(lists'[n]);
      if n == a { assert j in multiset(lists[a]); }
    }
    assert JobsOwned(g, released, lists', owner);
    assert WaitingStarted(g, released, lists', ran);
    forall n: nat, j: nat {:trigger j in lists'[n]} |
      n < |lists'| && j in lists'[n] && Inner(g, released, n) && j < |owner|
      ensures owner[j] != n
    {
      assert j in lists[n];
    }
    assert InnerGivenUp(g, released, lists', owner);
  }
}
