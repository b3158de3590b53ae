/** The queue pair that makes two interfaces asynchronous (interface/ASynchronizer.c). */
module ASynchronizer {
  import opened CTypes

  const MAX_DRY_CYCLES: int := 16

  /** A message that a receiver hands back in while one is being delivered to it. */
  datatype Reentry<M> = FromA(msg: M) | FromB(msg: M)

  function Items<M>(list: Option<seq<M>>): seq<M> {
    if list.None? then [] else list.value
  }

  function SentByA<M>(calls: seq<Reentry<M>>): seq<M> {
    if calls == [] then [] else
      var n := |calls| - 1;
      SentByA(calls[..n]) + if calls[n].FromA? then [calls[n].msg] else []
  }

  function SentByB<M>(calls: seq<Reentry<M>>): seq<M> {
    if calls == [] then [] else
      var n := |calls| - 1;
      SentByB(calls[..n]) + if calls[n].FromB? then [calls[n].msg] else []
  }

  /** What the receivers hand back in over the first `n` deliveries. */
  function FirstCalls<M>(reactions: nat -> seq<Reentry<M>>, n: nat): seq<Reentry<M>> {
    if n == 0 then [] else FirstCalls(reactions, n - 1) + reactions(n - 1)
  }

  lemma FirstCallsNext<M>(reactions: nat -> seq<Reentry<M>>, n: nat)
    ensures FirstCalls(reactions, 0) == []
    ensures FirstCalls(reactions, n + 1) == FirstCalls(reactions, n) + reactions(n)
  {}

  lemma SentSnoc<M>(calls: seq<Reentry<M>>, c: Reentry<M>)
    ensures SentByA(calls + [c]) == if c.FromA? then SentByA(calls) + [c.msg] else SentByA(calls)
    ensures SentByB(calls + [c]) == if c.FromB? then SentByB(calls) + [c.msg] else SentByB(calls)
  {
    assert (calls + [c])[..|calls|] == calls;
  }

  lemma NoCalls<M>(a: seq<M>, b: seq<M>)
    ensures SentByA<M>([]) == [] && SentByB<M>([]) == [] && a + [] == a && b + [] == b
  {}

  lemma Associative<T>(a: seq<T>, b: seq<T>, c: seq<T>)
    ensures a + (b + c) == (a + b) + c
  {}

  class Synchronizer<M> {
    var cycleAlloc: bool
    var msgsToA: Option<seq<M>>
    var msgsToB: Option<seq<M>>
    /** The interval timer is armed. */
    var timeoutAlloc: bool
    var dryCycles: int

    /** Everything that came in from each side, and everything delivered to each. */
    ghost var inFromA: seq<M>
    ghost var inFromB: seq<M>
    ghost var outToA: seq<M>
    ghost var outToB: seq<M>

    /** No lost wakeup: whenever anything is queued the timer is armed. */
    ghost predicate Armed()
      reads this
    {
      && (cycleAlloc ==> timeoutAlloc)
      && (msgsToA.Some? || msgsToB.Some? ==> cycleAlloc)
    }

    /** Exactly once and in order: what came in is what was delivered, then what is queued. */
    ghost predicate Valid()
      reads this
    {
      Armed() && inFromB == outToA + Items(msgsToA) && inFromA == outToB + Items(msgsToB)
    }

    constructor ()
      ensures Valid() && inFromA == [] && inFromB == [] && outToA == [] && outToB == []
    {
      cycleAlloc, msgsToA, msgsToB, timeoutAlloc, dryCycles := false, None, None, false, 0;
      inFromA, inFromB, outToA, outToB := [], [], [], [];
    }

    method CheckTimeout()
      modifies `timeoutAlloc
      ensures timeoutAlloc
    {
      if timeoutAlloc { return; }
      timeoutAlloc := true;
    }

    /** fromA(): also called while messages are being delivered. */
    method FromAIn(msg: M)
      requires Armed()
      modifies `cycleAlloc, `msgsToB, `timeoutAlloc, `inFromA
      ensures Armed() && cycleAlloc
      ensures inFromA == old(inFromA) + [msg] && Items(msgsToB) == old(Items(msgsToB)) + [msg]
    {
      if !cycleAlloc { cycleAlloc := true; }
      if msgsToB.None? { msgsToB := Some([]); }
      msgsToB := Some(msgsToB.value + [msg]);
      inFromA := inFromA + [msg];
      CheckTimeout();
    }

    method FromBIn(msg: M)
      requires Armed()
      modifies `cycleAlloc, `msgsToA, `timeoutAlloc, `inFromB
      ensures Armed() && cycleAlloc
      ensures inFromB == old(inFromB) + [msg] && Items(msgsToA) == old(Items(msgsToA)) + [msg]
    {
      if !cycleAlloc { cycleAlloc := true; }
      if msgsToA.None? { msgsToA := Some([]); }
      msgsToA := Some(msgsToA.value + [msg]);
      inFromB := inFromB + [msg];
      CheckTimeout();
    }

    /** The state in the middle of a delivery, after the receivers have made `calls`. */
    ghost predicate Meanwhile(a: seq<M>, b: seq<M>, calls: seq<Reentry<M>>)
      reads this
    {
      && Items(msgsToA) == SentByB(calls) && Items(msgsToB) == SentByA(calls)
      && inFromA == a + SentByA(calls) && inFromB == b + SentByB(calls)
      && (cycleAlloc <==> calls != [])
    }

    method Call(c: Reentry<M>, ghost a: seq<M>, ghost b: seq<M>, ghost calls: seq<Reentry<M>>)
      requires Armed() && Meanwhile(a, b, calls)
      modifies `cycleAlloc, `msgsToA, `msgsToB, `timeoutAlloc, `inFromA, `inFromB
      ensures Armed() && (old(timeoutAlloc) ==> timeoutAlloc) && Meanwhile(a, b, calls + [c])
    {
      hide SentByA, SentByB;
      SentSnoc(calls, c);
      match c {
        case FromA(msg) => Associative(a, SentByA(calls), [msg]); FromAIn(msg);
        case FromB(msg) => Associative(b, SentByB(calls), [msg]); FromBIn(msg);
      }
    }

    /** The calls a receiver makes while it handles one message. */
    method Reenter(more: seq<Reentry<M>>, ghost a: seq<M>, ghost b: seq<M>, ghost calls: seq<Reentry<M>>)
      requires Armed() && Meanwhile(a, b, calls)
      modifies `cycleAlloc, `msgsToA, `msgsToB, `timeoutAlloc, `inFromA, `inFromB
      ensures Armed() && (old(timeoutAlloc) ==> timeoutAlloc) && Meanwhile(a, b, calls + more)
    {
      if more == [] {
        assert calls + more == calls;
      } else {
        Call(more[0], a, b, calls);
        Reenter(more[1..], a, b, calls + [more[0]]);
        assert (calls + [more[0]]) + more[1..] == calls + more;
      }
    }

    /** timeoutTrigger(); `reactions(i)` is what the i-th delivery of the run hands back in.  All
        that was queued is delivered, in order; what comes back in meanwhile waits for the next
        run, with the timer armed. */
    method TimeoutTrigger(reactions: nat -> seq<Reentry<M>>)
      requires Valid()
      modifies this
      ensures Valid()
      ensures outToA == old(outToA) + old(Items(msgsToA)) && outToB == old(outToB) + old(Items(msgsToB))
      ensures old(!cycleAlloc) ==> unchanged(`cycleAlloc, `msgsToA, `msgsToB, `inFromA, `inFromB)
      ensures old(cycleAlloc) ==>
        Meanwhile(old(inFromA), old(inFromB), FirstCalls(reactions, old(|Items(msgsToA)| + |Items(msgsToB)|)))
      // the timer is torn down exactly in the first dry run after sixteen, which ends the count
      ensures old(timeoutAlloc) ==> (!timeoutAlloc <==> old(!cycleAlloc) && old(dryCycles) >= 16)
      ensures old(!timeoutAlloc) ==> !timeoutAlloc
      ensures dryCycles ==
        if old(cycleAlloc) then old(dryCycles) else if old(timeoutAlloc) && !timeoutAlloc then 0 else old(dryCycles) + 1
    {
      hide SentByA, SentByB, FirstCalls;
      FirstCallsNext(reactions, 0);
      if !cycleAlloc {
        dryCycles := dryCycles + 1;
        if dryCycles - 1 < MAX_DRY_CYCLES || !timeoutAlloc { return; }
        timeoutAlloc := false;
        dryCycles := 0;
        return;
      }
      var toA, toB := Items(msgsToA), Items(msgsToB);
      ghost var a, b, outA, outB := inFromA, inFromB, outToA, outToB;
      msgsToA, msgsToB, cycleAlloc := None, None, false;
      NoCalls(a, b);
      var i := 0;
      while i < |toA|
        invariant 0 <= i <= |toA| && Armed() && timeoutAlloc && dryCycles == old(dryCycles)
        invariant outToA == outA + toA[..i] && outToB == outB
        invariant Meanwhile(a, b, FirstCalls(reactions, i))
      {
        FirstCallsNext(reactions, i);
        DeliverToA(toA, i, outA, reactions(i), a, b, FirstCalls(reactions, i));
        i := i + 1;
      }
      assert toA[..i] == toA;
      var j := 0;
      while j < |toB|
        invariant 0 <= j <= |toB| && Armed() && timeoutAlloc && dryCycles == old(dryCycles)
        invariant outToA == outA + toA && outToB == outB + toB[..j]
        invariant Meanwhile(a, b, FirstCalls(reactions, |toA| + j))
      {
        FirstCallsNext(reactions, |toA| + j);
        DeliverToB(toB, j, outB, reactions(|toA| + j), a, b, FirstCalls(reactions, |toA| + j));
        j := j + 1;
      }
      assert toB[..j] == toB;
    }

    method DeliverToA(batch: seq<M>, i: nat, ghost out: seq<M>, reaction: seq<Reentry<M>>,
                      ghost a: seq<M>, ghost b: seq<M>, ghost calls: seq<Reentry<M>>)
      requires i < |batch| && outToA == out + batch[..i] && Armed() && Meanwhile(a, b, calls)
      modifies `cycleAlloc, `msgsToA, `msgsToB, `timeoutAlloc, `inFromA, `inFromB, `outToA
      ensures outToA == out + batch[..i + 1] && Armed() && (old(timeoutAlloc) ==> timeoutAlloc)
      ensures Meanwhile(a, b, calls + reaction)
    {
      hide SentByA, SentByB;
      outToA := outToA + [batch[i]];
      Reenter(reaction, a, b, calls);
    }

    method DeliverToB(batch: seq<M>, i: nat, ghost out: seq<M>, reaction: seq<Reentry<M>>,
                      ghost a: seq<M>, ghost b: seq<M>, ghost calls: seq<Reentry<M>>)
      requires i < |batch| && outToB == out + batch[..i] && Armed() && Meanwhile(a, b, calls)
      modifies `cycleAlloc, `msgsToA, `msgsToB, `timeoutAlloc, `inFromA, `inFromB, `outToB
      ensures outToB == out + batch[..i + 1] && Armed() && (old(timeoutAlloc) ==> timeoutAlloc)
      ensures Meanwhile(a, b, calls + reaction)
    {
      hide SentByA, SentByB;
      outToB := outToB + [batch[i]];
      Reenter(reaction, a, b, calls);
    }
  }

  /** With nothing to deliver the timer fires seventeen times, and the seventeenth tears it down. */
  method Idle<M>(s: Synchronizer<M>, msg: M)
    requires s.Valid() && !s.cycleAlloc && !s.timeoutAlloc && s.dryCycles == 0
    modifies s
    ensures s.Valid() && !s.timeoutAlloc && s.outToB == old(s.outToB) + [msg] && s.outToA == old(s.outToA)
  {
    s.FromAIn(msg);
    assert s.timeoutAlloc;
    s.TimeoutTrigger(_ => []);
    Silence<M>(1);
    assert !s.cycleAlloc;
    var i := 0;
    while i < 16
      invariant 0 <= i <= 16 && s.Valid() && !s.cycleAlloc && s.timeoutAlloc && s.dryCycles == i
      invariant s.outToB == old(s.outToB) + [msg] && s.outToA == old(s.outToA)
    {
      s.TimeoutTrigger(_ => []);
      i := i + 1;
    }
    s.TimeoutTrigger(_ => []);
  }

  lemma {:induction false} Silence<M>(n: nat)
    ensures FirstCalls<M>(_ => [], n) == []
  {
    if n > 0 { Silence<M>(n - 1); }
  }
}
