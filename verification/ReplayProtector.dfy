/** The replay window (crypto/ReplayProtector.h): a 64-bit register over an unbounded set. */
module ReplayProtector {
  import opened CTypes

  const WIDTH: nat := 64
  /** Above this a shift amount no longer fits the int parameter of lostInShift. */
  const MAX_INT: nat := 0x7fff_ffff

  /** A uint64_t, lowest bit first. */
  type Register = s: seq<bool> | |s| == WIDTH witness seq(WIDTH, _ => false)

  function Zeros(n: nat): (r: seq<bool>)
    ensures |r| == n && forall i :: 0 <= i < n ==> !r[i]
  {
    seq(n, _ => false)
  }

  function ShiftRight(b: Register, k: nat): (r: Register)
    ensures forall i :: 0 <= i < WIDTH ==> r[i] == (i + k < WIDTH && b[i + k])
  {
    if k < WIDTH then b[k..] + Zeros(k) else Zeros(WIDTH)
  }

  function ShiftLeft(b: Register, k: nat): (r: Register)
    requires k <= WIDTH
  {
    Zeros(k) + b[..WIDTH - k]
  }

  /** Bits_popCountx64, over any number of bits. */
  function PopCount(b: seq<bool>): nat {
    if b == [] then 0 else (if b[0] then 1 else 0) + PopCount(b[1..])
  }

  /** struct ReplayProtector. */
  datatype Window = Window(bits: Register, base: nat, duplicates: nat, lost: nat, outOfRange: nat)

  function Fresh(): Window {
    Window(Zeros(WIDTH), 0, 0, 0, 0)
  }

  /** RelayProtector_lostInShift.  A shift above MAX_INT arrives as a negative int and then shifts
      by more than the register's width, which C leaves undefined: the value is `junk`. */
  function LostInShift(b: Register, shift: nat, junk: int): int {
    if shift == 0 then 0
    else if shift > MAX_INT then junk
    else if shift > 63 then shift - PopCount(b)
    else shift - PopCount(ShiftLeft(b, WIDTH - shift))
  }

  function LowFull(b: Register): bool {
    forall i :: 0 <= i < 32 ==> b[i]
  }

  /** One turn of the shift loop, while `nonce` lies beyond the window. */
  function Turn(w: Window, nonce: nat, junk: int): Window
    requires w.base + 63 < nonce
  {
    if LowFull(w.bits) then w.(base := w.base + 32, bits := ShiftRight(w.bits, 32))
    else
      var k := nonce - w.base - 47;
      w.(base := w.base + k, bits := ShiftRight(w.bits, k), lost := (w.lost + LostInShift(w.bits, k, junk)) % U32)
  }

  /** The shift loop: what the window is once `nonce` lies inside it. */
  function Slide(w: Window, nonce: nat, junk: int): (r: Window)
    requires w.base <= nonce
    ensures r.base <= nonce < r.base + WIDTH && w.base <= r.base
    ensures r.duplicates == w.duplicates && r.outOfRange == w.outOfRange
    decreases nonce - w.base
  {
    if nonce - w.base <= 63 then w else Slide(Turn(w, nonce, junk), nonce, junk)
  }

  /** ReplayProtector_checkNonce as a function of the window. */
  function Check(w: Window, nonce: nat, junk: int): (Window, bool) {
    if nonce < w.base then (w.(outOfRange := (w.outOfRange + 1) % U32), false)
    else
      var s := Slide(w, nonce, junk);
      if s.bits[nonce - s.base] then (s.(duplicates := (s.duplicates + 1) % U32), false)
      else (s.(bits := s.bits[nonce - s.base := true]), true)
  }

  // ---------------------------------------------------------------- what the window stands for

  /** Some nonce more than 47 above `n` is in `seen`. */
  ghost predicate FarBelow(seen: set<nat>, n: nat) {
    exists m :: m in seen && m > n + 47
  }

  /** The window holds exactly the nonces of `seen` from `base` on, there are none beyond its
      width, and an unseen nonce below it is more than 47 below some nonce of `tops`. */
  ghost predicate Holds(w: Window, seen: set<nat>, tops: set<nat>) {
    && (forall i :: 0 <= i < WIDTH ==> (w.bits[i] <==> w.base + i in seen))
    && (forall n :: n in seen ==> n < w.base + WIDTH)
    && (forall n: nat :: n < w.base && n !in seen ==> FarBelow(tops, n))
  }

  ghost predicate Represents(w: Window, seen: set<nat>) {
    Holds(w, seen, seen)
  }

  lemma {:induction false} TurnHolds(w: Window, seen: set<nat>, nonce: nat, junk: int)
    requires w.base + 63 < nonce && Holds(w, seen, seen + {nonce})
    ensures Holds(Turn(w, nonce, junk), seen, seen + {nonce})
  {
    hide LostInShift, PopCount;
    var s := Turn(w, nonce, junk);
    var k := s.base - w.base;
    forall i | 0 <= i < WIDTH ensures s.bits[i] <==> s.base + i in seen {
      assert s.base + i == w.base + (i + k);
    }
    forall n: nat | n < s.base && n !in seen ensures FarBelow(seen + {nonce}, n) {
      if n >= w.base {
        assert n == w.base + (n - w.base);
        assert n - w.base < 32 ==> !w.bits[n - w.base];
        assert nonce in seen + {nonce} && nonce > n + 47;
      }
    }
  }

  lemma {:induction false} SlideHolds(w: Window, seen: set<nat>, nonce: nat, junk: int)
    requires w.base <= nonce && Holds(w, seen, seen + {nonce})
    ensures Holds(Slide(w, nonce, junk), seen, seen + {nonce})
    decreases nonce - w.base
  {
    hide Holds;
    if nonce - w.base > 63 {
      TurnHolds(w, seen, nonce, junk);
      SlideHolds(Turn(w, nonce, junk), seen, nonce, junk);
    }
  }

  lemma FarBelowGrows(seen: set<nat>, nonce: nat, n: nat)
    requires FarBelow(seen, n)
    ensures FarBelow(seen + {nonce}, n)
  {
    var m :| m in seen && m > n + 47;
    assert m in seen + {nonce};
  }

  /** The window refines the set of seen nonces: a nonce is accepted exactly when it is not below
      the window and has not been seen, and then it joins the set. */
  lemma {:induction false} CheckRefinesSet(w: Window, seen: set<nat>, nonce: nat, junk: int)
    requires Represents(w, seen)
    ensures Check(w, nonce, junk).1 <==> nonce !in seen && nonce >= w.base
    ensures Represents(Check(w, nonce, junk).0, if Check(w, nonce, junk).1 then seen + {nonce} else seen)
  {
    hide Slide, FarBelow;
    var (r, ok) := Check(w, nonce, junk);
    forall n: nat | FarBelow(seen, n) ensures FarBelow(seen + {nonce}, n) { FarBelowGrows(seen, nonce, n); }
    if nonce >= w.base {
      SlideHolds(w, seen, nonce, junk);
      var s := Slide(w, nonce, junk);
      assert nonce == s.base + (nonce - s.base);
      assert nonce in seen ==> seen + {nonce} == seen;
    }
  }

  // ---------------------------------------------------------------- where the window moves

  /** How many shifts by 32 bring `nonce` into a window that begins at `base`. */
  function Strides(base: nat, nonce: nat): nat
    requires base <= nonce
  {
    if nonce - base <= 63 then 0 else (nonce - base - 63 + 31) / 32
  }

  /** Everything in the `count` nonces from `base` on has been accepted. */
  ghost predicate AllSeen(seen: set<nat>, base: nat, count: nat) {
    forall n: nat :: base <= n < base + count ==> n in seen
  }

  /** A window that holds `nonce` stays; else it moves on by whole steps of 32 if that leaves nothing
      unseen behind, and otherwise to where it ends 16 above `nonce`. */
  lemma {:induction false} SlideExact(w: Window, seen: set<nat>, nonce: nat, junk: int)
    requires w.base <= nonce && Holds(w, seen, seen + {nonce})
    ensures Slide(w, nonce, junk).base ==
      if AllSeen(seen, w.base, 32 * Strides(w.base, nonce)) then w.base + 32 * Strides(w.base, nonce) else nonce - 47
    decreases nonce - w.base
  {
    hide FarBelow, LostInShift, PopCount, ShiftRight;
    if nonce - w.base > 63 {
      var s, k := Turn(w, nonce, junk), Strides(w.base, nonce);
      LowFullMeaning(w, seen);
      TurnHolds(w, seen, nonce, junk);
      if LowFull(w.bits) {
        SlideExact(s, seen, nonce, junk);
        StrideLess(w.base, nonce);
        assert AllSeen(seen, w.base, 32 * k) <==> AllSeen(seen, s.base, 32 * (k - 1));
      } else {
        assert !AllSeen(seen, w.base, 32 * k);
      }
    }
  }

  lemma StrideLess(base: nat, nonce: nat)
    requires base + 63 < nonce
    ensures Strides(base, nonce) == 1 + Strides(base + 32, nonce) && base + 32 <= nonce
  {}

  lemma LowFullMeaning(w: Window, seen: set<nat>)
    requires forall i :: 0 <= i < WIDTH ==> (w.bits[i] <==> w.base + i in seen)
    ensures LowFull(w.bits) <==> AllSeen(seen, w.base, 32)
  {
    if LowFull(w.bits) {
      forall n: nat | w.base <= n < w.base + 32 ensures n in seen { assert w.bits[n - w.base]; }
    } else {
      var i :| 0 <= i < 32 && !w.bits[i];
      assert w.base + i !in seen;
    }
  }

  /** One call counts its nonce under exactly one heading: below the window, in it and already
      accepted, or accepted now; and this is where the window then begins. */
  lemma {:induction false} CheckCounts(w: Window, seen: set<nat>, nonce: nat, junk: int)
    requires Represents(w, seen)
    ensures var v := Check(w, nonce, junk).0;
      && v.outOfRange == (if nonce < w.base then (w.outOfRange + 1) % 0x1_0000_0000 else w.outOfRange)
      && v.duplicates ==
           (if nonce >= w.base && nonce in seen then (w.duplicates + 1) % 0x1_0000_0000 else w.duplicates)
      && v.base ==
           (if nonce <= w.base + 63 then w.base
            else if AllSeen(seen, w.base, 32 * Strides(w.base, nonce)) then w.base + 32 * Strides(w.base, nonce)
            else nonce - 47)
  {
    hide FarBelow, LostInShift, PopCount, ShiftRight, Slide;
    CheckRefinesSet(w, seen, nonce, junk);
    if nonce >= w.base {
      forall n: nat | FarBelow(seen, n) ensures FarBelow(seen + {nonce}, n) { FarBelowGrows(seen, nonce, n); }
      SlideExact(w, seen, nonce, junk);
      if nonce <= w.base + 63 { SlideShort(w, nonce, junk); }
    }
  }

  lemma SlideShort(w: Window, nonce: nat, junk: int)
    requires w.base <= nonce <= w.base + 63
    ensures Slide(w, nonce, junk) == w
  {}

  // ---------------------------------------------------------------- loss accounting

  /** How many nonces below `n` have been accepted. */
  ghost function SeenBelow(seen: set<nat>, n: nat): nat {
    if n == 0 then 0 else SeenBelow(seen, n - 1) + if n - 1 in seen then 1 else 0
  }

  lemma {:induction false} PopCountConcat(a: seq<bool>, b: seq<bool>)
    ensures PopCount(a + b) == PopCount(a) + PopCount(b)
  {
    if a == [] { assert a + b == b; } else {
      assert (a + b)[1..] == a[1..] + b;
      PopCountConcat(a[1..], b);
    }
  }

  lemma {:induction false} PopCountZeros(n: nat)
    ensures PopCount(Zeros(n)) == 0
  {
    if n > 0 { assert Zeros(n)[1..] == Zeros(n - 1); PopCountZeros(n - 1); }
  }

  /** The accepted nonces of a stretch of the window are its set bits. */
  lemma {:induction false} SeenInWindow(w: Window, seen: set<nat>, k: nat)
    requires k <= WIDTH && forall i :: 0 <= i < WIDTH ==> (w.bits[i] <==> w.base + i in seen)
    ensures SeenBelow(seen, w.base + k) == SeenBelow(seen, w.base) + PopCount(w.bits[..k])
  {
    if k == 0 { assert w.bits[..0] == []; } else {
      SeenInWindow(w, seen, k - 1);
      assert w.bits[..k] == w.bits[..k - 1] + [w.bits[k - 1]];
      PopCountConcat(w.bits[..k - 1], [w.bits[k - 1]]);
      assert [w.bits[k - 1]][1..] == [];
    }
  }

  lemma {:induction false} NoneBeyond(seen: set<nat>, a: nat, b: nat)
    requires a <= b && forall n :: n in seen ==> n < a
    ensures SeenBelow(seen, b) == SeenBelow(seen, a)
  {
    if a < b { NoneBeyond(seen, a, b - 1); }
  }

  lemma {:induction false} SeenBelowBound(seen: set<nat>, n: nat)
    ensures SeenBelow(seen, n) <= n
  {
    if n > 0 { SeenBelowBound(seen, n - 1); }
  }

  /** A shift loses exactly the nonces that fall out of the window unseen. */
  lemma {:induction false} LostIsUnseen(w: Window, seen: set<nat>, k: nat, junk: int)
    requires Holds(w, seen, seen + {w.base + k + 47}) && k <= MAX_INT
    ensures LostInShift(w.bits, k, junk) == k - (SeenBelow(seen, w.base + k) - SeenBelow(seen, w.base))
  {
    if k > 63 {
      SeenInWindow(w, seen, WIDTH);
      assert w.bits[..WIDTH] == w.bits;
      NoneBeyond(seen, w.base + WIDTH, w.base + k);
    } else {
      SeenInWindow(w, seen, k);
      PopCountConcat(Zeros(WIDTH - k), w.bits[..k]);
      PopCountZeros(WIDTH - k);
    }
  }

  /** Every nonce below the window is counted as lost or has been accepted. */
  ghost predicate LossExact(w: Window, seen: set<nat>) {
    w.lost + SeenBelow(seen, w.base) == w.base
  }

  lemma {:induction false} LowFullAllSeen(w: Window, seen: set<nat>)
    requires LowFull(w.bits) && forall i :: 0 <= i < WIDTH ==> (w.bits[i] <==> w.base + i in seen)
    ensures SeenBelow(seen, w.base + 32) == SeenBelow(seen, w.base) + 32
  {
    SeenInWindow(w, seen, 32);
    AllOnes(w.bits[..32]);
  }

  lemma {:induction false} AllOnes(b: seq<bool>)
    requires forall i :: 0 <= i < |b| ==> b[i]
    ensures PopCount(b) == |b|
  {
    if b != [] { AllOnes(b[1..]); }
  }

  lemma {:induction false} TurnLossExact(w: Window, seen: set<nat>, nonce: nat, junk: int)
    requires w.base + 63 < nonce < U32 && nonce - w.base <= MAX_INT + 47
    requires Holds(w, seen, seen + {nonce}) && LossExact(w, seen)
    ensures LossExact(Turn(w, nonce, junk), seen)
  {
    hide LostInShift, PopCount, ShiftRight;
    var k := Turn(w, nonce, junk).base - w.base;
    SeenBelowBound(seen, w.base + k);
    if LowFull(w.bits) {
      LowFullAllSeen(w, seen);
    } else {
      LostIsUnseen(w, seen, k, junk);
      SeenBelowGrows(seen, w.base, w.base + k);
    }
  }

  lemma {:induction false} SeenBelowGrows(seen: set<nat>, a: nat, b: nat)
    requires a <= b
    ensures SeenBelow(seen, a) <= SeenBelow(seen, b) <= SeenBelow(seen, a) + (b - a)
  {
    if a < b { SeenBelowGrows(seen, a, b - 1); }
  }

  lemma {:induction false} SlideLossExact(w: Window, seen: set<nat>, nonce: nat, junk: int)
    requires w.base <= nonce < U32 && nonce - w.base <= MAX_INT + 47
    requires Holds(w, seen, seen + {nonce}) && LossExact(w, seen)
    ensures LossExact(Slide(w, nonce, junk), seen)
    decreases nonce - w.base
  {
    hide Holds, LossExact;
    if nonce - w.base > 63 {
      TurnHolds(w, seen, nonce, junk);
      TurnLossExact(w, seen, nonce, junk);
      SlideLossExact(Turn(w, nonce, junk), seen, nonce, junk);
    }
  }

  /** Loss accounting is exact as long as no single shift exceeds a C int. */
  lemma {:induction false} CheckLossExact(w: Window, seen: set<nat>, nonce: nat, junk: int)
    requires Represents(w, seen) && LossExact(w, seen) && nonce < U32 && nonce <= w.base + MAX_INT + 47
    ensures LossExact(Check(w, nonce, junk).0, if Check(w, nonce, junk).1 then seen + {nonce} else seen)
  {
    if nonce >= w.base {
      forall n: nat | FarBelow(seen, n) ensures FarBelow(seen + {nonce}, n) { FarBelowGrows(seen, nonce, n); }
      SlideLossExact(w, seen, nonce, junk);
      SeenAbove(seen, nonce, Slide(w, nonce, junk).base);
    }
  }

  lemma {:induction false} SeenAbove(seen: set<nat>, nonce: nat, n: nat)
    requires n <= nonce
    ensures SeenBelow(seen + {nonce}, n) == SeenBelow(seen, n)
  {
    if n > 0 { SeenAbove(seen, nonce, n - 1); }
  }

  // ---------------------------------------------------------------- whole runs

  /** The window and the answers after checking `nonces` in order. */
  function Run(w: Window, nonces: seq<nat>, junk: int): (Window, seq<bool>)
  {
    if nonces == [] then (w, []) else
      var (v, answers) := Run(w, nonces[..|nonces| - 1], junk);
      var (r, ok) := Check(v, nonces[|nonces| - 1], junk);
      (r, answers + [ok])
  }

  /** The nonces accepted among the first `k`. */
  ghost function Accepted(nonces: seq<nat>, answers: seq<bool>, k: nat): set<nat>
    requires k <= |nonces| && k <= |answers|
  {
    set i | 0 <= i < k && answers[i] :: nonces[i]
  }

  lemma {:induction false} RunRepresents(nonces: seq<nat>, junk: int)
    ensures |Run(Fresh(), nonces, junk).1| == |nonces|
    ensures Represents(Run(Fresh(), nonces, junk).0, Accepted(nonces, Run(Fresh(), nonces, junk).1, |nonces|))
  {
    if nonces != [] {
      var n := |nonces| - 1;
      RunRepresents(nonces[..n], junk);
      var (v, answers) := Run(Fresh(), nonces[..n], junk);
      CheckRefinesSet(v, Accepted(nonces[..n], answers, n), nonces[n], junk);
      AcceptedStep(nonces, junk);
    }
  }

  /** The last call adds its nonce, if accepted. */
  lemma {:induction false} AcceptedStep(nonces: seq<nat>, junk: int)
    requires nonces != []
    requires |Run(Fresh(), nonces[..|nonces| - 1], junk).1| == |nonces| - 1
    ensures |Run(Fresh(), nonces, junk).1| == |nonces|
    ensures Accepted(nonces, Run(Fresh(), nonces, junk).1, |nonces|) ==
      var before := Accepted(nonces[..|nonces| - 1], Run(Fresh(), nonces[..|nonces| - 1], junk).1, |nonces| - 1);
      if Run(Fresh(), nonces, junk).1[|nonces| - 1] then before + {nonces[|nonces| - 1]} else before
  {
    var n := |nonces| - 1;
    var answers, all := Run(Fresh(), nonces[..n], junk).1, Run(Fresh(), nonces, junk).1;
    assert all[..n] == answers;
    var before := Accepted(nonces[..n], answers, n);
    forall x ensures x in Accepted(nonces, all, n + 1) <==> x in before || (all[n] && x == nonces[n]) {
      if x in before {
        var i :| 0 <= i < n && answers[i] && nonces[..n][i] == x;
        assert all[i] && nonces[i] == x;
      }
      if x in Accepted(nonces, all, n + 1) {
        var i :| 0 <= i < n + 1 && all[i] && nonces[i] == x;
        if i < n { assert answers[i] && nonces[..n][i] == x; }
      }
    }
  }

  lemma {:induction false} RunPrefix(nonces: seq<nat>, junk: int, k: nat)
    requires k <= |nonces|
    ensures |Run(Fresh(), nonces, junk).1| == |nonces|
    ensures |Run(Fresh(), nonces[..k], junk).1| == k
    ensures Run(Fresh(), nonces, junk).1[..k] == Run(Fresh(), nonces[..k], junk).1
  {
    RunRepresents(nonces, junk);
    RunRepresents(nonces[..k], junk);
    if k == |nonces| { assert nonces[..k] == nonces; } else {
      var n := |nonces| - 1;
      RunPrefix(nonces[..n], junk, k);
      assert nonces[..n][..k] == nonces[..k];
    }
  }

  /** Over any sequence of calls no nonce is accepted twice. */
  lemma {:induction false} NeverAcceptedTwice(nonces: seq<nat>, junk: int, i: nat, j: nat)
    requires i < j < |nonces|
    ensures |Run(Fresh(), nonces, junk).1| == |nonces|
    ensures Run(Fresh(), nonces, junk).1[i] && Run(Fresh(), nonces, junk).1[j] ==> nonces[i] != nonces[j]
  {
    RunPrefix(nonces, junk, j + 1);
    RunPrefix(nonces[..j + 1], junk, j);
    assert nonces[..j + 1][..j] == nonces[..j];
    RunRepresents(nonces[..j], junk);
    var (v, answers) := Run(Fresh(), nonces[..j], junk);
    var all := Run(Fresh(), nonces, junk).1;
    var seen := Accepted(nonces[..j], answers, j);
    CheckRefinesSet(v, seen, nonces[j], junk);
    assert all[..j + 1][j] == all[j] && all[..j + 1][i] == all[i];
    assert answers[i] == all[i];
    if all[i] { assert nonces[..j][i] in seen; }
  }

  /** Over any sequence of calls a nonce that was not accepted before is only refused when some
      accepted nonce lies more than 47 above it. */
  lemma {:induction false} NeverRefusedWithin47(nonces: seq<nat>, junk: int, j: nat)
    requires j < |nonces|
    ensures |Run(Fresh(), nonces[..j], junk).1| == j && |Run(Fresh(), nonces, junk).1| == |nonces|
    ensures !Run(Fresh(), nonces, junk).1[j] ==>
      var seen := Accepted(nonces[..j], Run(Fresh(), nonces[..j], junk).1, j);
      nonces[j] in seen || FarBelow(seen, nonces[j])
  {
    RunPrefix(nonces, junk, j + 1);
    RunPrefix(nonces[..j + 1], junk, j);
    assert nonces[..j + 1][..j] == nonces[..j];
    RunRepresents(nonces[..j], junk);
    var (v, answers) := Run(Fresh(), nonces[..j], junk);
    var all := Run(Fresh(), nonces, junk).1;
    CheckRefinesSet(v, Accepted(nonces[..j], answers, j), nonces[j], junk);
    assert all[..j + 1][j] == all[j];
  }

  /** Where the window began, and what had been accepted, before the j-th call. */
  ghost function BaseBefore(nonces: seq<nat>, junk: int, j: nat): nat
    requires j <= |nonces|
  {
    Run(Fresh(), nonces[..j], junk).0.base
  }

  ghost function SeenBefore(nonces: seq<nat>, junk: int, j: nat): set<nat>
    requires j <= |nonces|
  {
    var answers := Run(Fresh(), nonces[..j], junk).1;
    if |answers| == j then Accepted(nonces[..j], answers, j) else {}
  }

  /** How many of the first `k` calls came with a nonce below the window. */
  ghost function CallsBelow(nonces: seq<nat>, junk: int, k: nat): nat
    requires k <= |nonces|
  {
    if k == 0 then 0 else
      CallsBelow(nonces, junk, k - 1) + if nonces[k - 1] < BaseBefore(nonces, junk, k - 1) then 1 else 0
  }

  /** How many came with a nonce that was not below it but had been accepted before. */
  ghost function CallsAgain(nonces: seq<nat>, junk: int, k: nat): nat
    requires k <= |nonces|
  {
    if k == 0 then 0 else
      CallsAgain(nonces, junk, k - 1) +
      if nonces[k - 1] >= BaseBefore(nonces, junk, k - 1) && nonces[k - 1] in SeenBefore(nonces, junk, k - 1)
      then 1 else 0
  }

  /** Each counter counts its own kind of call. */
  lemma {:induction false} RunCountsExact(nonces: seq<nat>, junk: int, k: nat)
    requires k <= |nonces| < U32
    ensures Run(Fresh(), nonces[..k], junk).0.outOfRange == CallsBelow(nonces, junk, k) <= k
    ensures Run(Fresh(), nonces[..k], junk).0.duplicates == CallsAgain(nonces, junk, k) <= k
  {
    hide Check, Represents, Accepted;
    if k > 0 {
      RunCountsExact(nonces, junk, k - 1);
      var before, now := nonces[..k - 1], nonces[..k];
      assert now[..k - 1] == before && now[k - 1] == nonces[k - 1];
      RunRepresents(before, junk);
      CheckCounts(Run(Fresh(), before, junk).0, SeenBefore(nonces, junk, k - 1), nonces[k - 1], junk);
    } else {
      assert nonces[..0] == [];
    }
  }

  /** Every call is counted once: accepted, duplicate or out of range. */
  lemma {:induction false} RunCountsEveryCall(nonces: seq<nat>, junk: int)
    requires |nonces| < U32
    ensures var (w, answers) := Run(Fresh(), nonces, junk);
      PopCount(answers) + w.duplicates + w.outOfRange == |nonces|
  {
    hide Slide;
    if nonces != [] {
      var n := |nonces| - 1;
      RunCountsEveryCall(nonces[..n], junk);
      var (v, answers) := Run(Fresh(), nonces[..n], junk);
      var ok := Check(v, nonces[n], junk).1;
      PopCountConcat(answers, [ok]);
      assert [ok][1..] == [];
    }
  }

  /** No call of the run makes the window shift by more than a C int holds. */
  ghost predicate SmallJumps(nonces: seq<nat>, junk: int) {
    forall j :: 0 <= j < |nonces| ==>
      nonces[j] < 0x1_0000_0000 && nonces[j] <= Run(Fresh(), nonces[..j], junk).0.base + 0x7fff_ffff + 47
  }

  /** After any such run, the packets counted as lost and the distinct nonces accepted below the
      window add up to everything below the window. */
  lemma {:induction false} RunLossExact(nonces: seq<nat>, junk: int)
    requires SmallJumps(nonces, junk)
    ensures |Run(Fresh(), nonces, junk).1| == |nonces|
    ensures LossExact(Run(Fresh(), nonces, junk).0, Accepted(nonces, Run(Fresh(), nonces, junk).1, |nonces|))
  {
    hide Check, Accepted, Represents, SmallJumps;
    RunRepresents(nonces, junk);
    if nonces == [] {
      AcceptedNone();
    } else {
      var n := |nonces| - 1;
      SmallJumpsPrefix(nonces, junk);
      RunLossExact(nonces[..n], junk);
      RunRepresents(nonces[..n], junk);
      var (v, answers) := Run(Fresh(), nonces[..n], junk);
      CheckLossExact(v, Accepted(nonces[..n], answers, n), nonces[n], junk);
      AcceptedStep(nonces, junk);
    }
  }

  lemma AcceptedNone()
    ensures Accepted([], [], 0) == {}
  {}

  lemma SmallJumpsPrefix(nonces: seq<nat>, junk: int)
    requires SmallJumps(nonces, junk) && nonces != []
    ensures SmallJumps(nonces[..|nonces| - 1], junk)
    ensures nonces[|nonces| - 1] < U32
    ensures nonces[|nonces| - 1] <= Run(Fresh(), nonces[..|nonces| - 1], junk).0.base + MAX_INT + 47
  {
    hide Run;
    var n := |nonces| - 1;
    forall j | 0 <= j < n
      ensures nonces[..n][j] < U32 && nonces[..n][j] <= Run(Fresh(), nonces[..n][..j], junk).0.base + MAX_INT + 47
    {
      assert nonces[..n][..j] == nonces[..j] && nonces[..n][j] == nonces[j];
    }
  }

  // ---------------------------------------------------------------- the code

  class Protector {
    var bitfield: Register
    var baseOffset: nat
    var duplicates: nat
    var lostPackets: nat
    var receivedOutOfRange: nat

    function Contents(): Window
      reads this
    {
      Window(bitfield, baseOffset, duplicates, lostPackets, receivedOutOfRange)
    }

    constructor ()
      ensures Contents() == Fresh()
    {
      bitfield, baseOffset, duplicates, lostPackets, receivedOutOfRange := Zeros(WIDTH), 0, 0, 0, 0;
    }

    /** ReplayProtector_checkNonce. */
    method CheckNonce(nonce: nat, junk: int) returns (ok: bool)
      modifies this
      ensures (Contents(), ok) == Check(old(Contents()), nonce, junk)
    {
      hide LostInShift, LowFull, ShiftRight, PopCount, Zeros;
      if nonce < baseOffset {
        receivedOutOfRange := (receivedOutOfRange + 1) % U32;
        return false;
      }
      var offset := nonce - baseOffset;
      while offset > 63
        invariant baseOffset <= nonce && offset == nonce - baseOffset
        invariant old(baseOffset) <= nonce && Slide(Contents(), nonce, junk) == Slide(old(Contents()), nonce, junk)
        invariant receivedOutOfRange == old(receivedOutOfRange)
      {
        ghost var before := Contents();
        if LowFull(bitfield) {
          baseOffset, bitfield, offset := baseOffset + 32, ShiftRight(bitfield, 32), offset - 32;
        } else {
          var bits := offset - 47;
          lostPackets := (lostPackets + LostInShift(bitfield, bits, junk)) % U32;
          baseOffset, bitfield, offset := baseOffset + bits, ShiftRight(bitfield, bits), offset - bits;
        }
        assert Contents() == Turn(before, nonce, junk);
      }
      if bitfield[offset] {
        duplicates := (duplicates + 1) % U32;
        return false;
      }
      bitfield := bitfield[offset := true];
      return true;
    }
  }
}
