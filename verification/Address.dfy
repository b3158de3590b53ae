/** The closeness order of the distributed hash table (dht/Address.c:39-49, 121-168). */
module Address {

  type Bits = seq<bool>

  /** A uint32_t read in big-endian order, highest bit first. */
  type Word = s: Bits | |s| == 32 witness seq(32, _ => false)

  function Zero(): Word { seq(32, _ => false) }

  /** The unsigned number that the bits stand for. */
  function Value(s: Bits): nat {
    if s == [] then 0 else 2 * Value(s[..|s| - 1]) + if s[|s| - 1] then 1 else 0
  }

  function Xor(a: Bits, b: Bits): (r: Bits)
    requires |a| == |b|
    ensures |r| == |a| && forall i :: 0 <= i < |a| ==> r[i] == (a[i] != b[i])
  {
    seq(|a|, i requires 0 <= i < |a| => a[i] != b[i])
  }

  /** The words of ip6 in the order in which they are compared.  In memory the last two come first
      (dht/Address.h:42-50). */
  datatype Words = Words(one: Word, two: Word, three: Word, four: Word)

  function NoAddress(): Words { Words(Zero(), Zero(), Zero(), Zero()) }

  /** The 16 bytes of ip6. */
  function InMemory(w: Words): (r: Bits)
    ensures |r| == 128
  {
    w.three + w.four + w.one + w.two
  }

  function Rotate64(s: Bits): (r: Bits)
    requires |s| == 128
    ensures |r| == 128
  {
    s[64..] + s[..64]
  }

  /** The XOR distance of two addresses, as 128-bit numbers, rotated by 64 bits. */
  function Distance(w: Words, target: Words): nat {
    Value(Xor(Rotate64(InMemory(w)), Rotate64(InMemory(target))))
  }

  /** Address_xorcmp. */
  function XorCmp(target: Word, negativeIfCloser: Word, positiveIfCloser: Word): int {
    if negativeIfCloser == positiveIfCloser then 0
    else if Value(Xor(negativeIfCloser, target)) < Value(Xor(positiveIfCloser, target)) then -1 else 1
  }

  /** Address_closest, once the addresses are known. */
  function ClosestWords(t: Words, n: Words, p: Words): int {
    if XorCmp(t.one, n.one, p.one) != 0 then XorCmp(t.one, n.one, p.one)
    else if XorCmp(t.two, n.two, p.two) != 0 then XorCmp(t.two, n.two, p.two)
    else if XorCmp(t.three, n.three, p.three) != 0 then XorCmp(t.three, n.three, p.three)
    else XorCmp(t.four, n.four, p.four)
  }

  /** Numbers of the same width with a common split compare like the halves, high half first. */
  lemma {:induction false} ConcatCompare(a: Bits, b: Bits, c: Bits, d: Bits)
    requires |a| == |b| && |c| == |d|
    ensures Value(a + c) < Value(b + d) <==> Value(a) < Value(b) || (Value(a) == Value(b) && Value(c) < Value(d))
    ensures Value(a + c) == Value(b + d) <==> Value(a) == Value(b) && Value(c) == Value(d)
    decreases |c|
  {
    if c == [] {
      assert a + c == a && b + d == b;
    } else {
      var n := |c| - 1;
      ConcatCompare(a, b, c[..n], d[..n]);
      assert (a + c)[..|a| + n] == a + c[..n] && (b + d)[..|b| + n] == b + d[..n];
    }
  }

  lemma {:induction false} ValueInjective(a: Bits, b: Bits)
    requires |a| == |b| && Value(a) == Value(b)
    ensures a == b
  {
    if a != [] {
      var n := |a| - 1;
      ValueInjective(a[..n], b[..n]);
      assert a == a[..n] + [a[n]] && b == b[..n] + [b[n]];
    }
  }

  lemma {:induction false} XorCmpMeaning(t: Word, n: Word, p: Word)
    ensures XorCmp(t, n, p) < 0 <==> Value(Xor(n, t)) < Value(Xor(p, t))
    ensures XorCmp(t, n, p) > 0 <==> Value(Xor(p, t)) < Value(Xor(n, t))
    ensures XorCmp(t, n, p) == 0 <==> n == p
    ensures n == p <==> Value(Xor(n, t)) == Value(Xor(p, t))
  {
    if Value(Xor(n, t)) == Value(Xor(p, t)) {
      ValueInjective(Xor(n, t), Xor(p, t));
      forall i | 0 <= i < |n| ensures n[i] == p[i] { assert Xor(n, t)[i] == Xor(p, t)[i]; }
      assert n == p;
    }
  }

  /** The rotated address is the four words in comparison order. */
  lemma DistanceOfWords(w: Words, t: Words)
    ensures Distance(w, t) ==
      Value(Xor(w.one, t.one) + (Xor(w.two, t.two) + (Xor(w.three, t.three) + Xor(w.four, t.four))))
  {
    hide Value;
    assert Rotate64(InMemory(w)) == w.one + (w.two + (w.three + w.four));
    assert Rotate64(InMemory(t)) == t.one + (t.two + (t.three + t.four));
    assert Xor(Rotate64(InMemory(w)), Rotate64(InMemory(t))) ==
           Xor(w.one, t.one) + (Xor(w.two, t.two) + (Xor(w.three, t.three) + Xor(w.four, t.four)));
  }

  /** The word-by-word comparison is the comparison of 128-bit distances. */
  lemma {:induction false} ClosestIsDistance(t: Words, n: Words, p: Words)
    ensures ClosestWords(t, n, p) < 0 <==> Distance(n, t) < Distance(p, t)
    ensures ClosestWords(t, n, p) > 0 <==> Distance(p, t) < Distance(n, t)
    ensures ClosestWords(t, n, p) == 0 <==> n == p
  {
    hide Value, Distance, XorCmp;
    var n1, n2, n3, n4 := Xor(n.one, t.one), Xor(n.two, t.two), Xor(n.three, t.three), Xor(n.four, t.four);
    var p1, p2, p3, p4 := Xor(p.one, t.one), Xor(p.two, t.two), Xor(p.three, t.three), Xor(p.four, t.four);
    DistanceOfWords(n, t);
    DistanceOfWords(p, t);
    ConcatCompare(n1, p1, n2 + (n3 + n4), p2 + (p3 + p4));
    ConcatCompare(n2, p2, n3 + n4, p3 + p4);
    ConcatCompare(n3, p3, n4, p4);
    XorCmpMeaning(t.one, n.one, p.one);
    XorCmpMeaning(t.two, n.two, p.two);
    XorCmpMeaning(t.three, n.three, p.three);
    XorCmpMeaning(t.four, n.four, p.four);
  }

  /** Of two numbers of one width the one without the first bit in which they differ is smaller. */
  lemma {:induction false} FirstBit(a: Bits, b: Bits, i: nat)
    requires |a| == |b| && i < |a| && a[..i] == b[..i] && !a[i] && b[i]
    ensures Value(a) < Value(b)
  {
    hide Value;
    var x, y := a[i + 1..], b[i + 1..];
    assert a == a[..i] + ([false] + x) && b == b[..i] + ([true] + y);
    ConcatCompare(a[..i], b[..i], [false] + x, [true] + y);
    ConcatCompare([false], [true], x, y);
    OneBit();
  }

  lemma OneBit()
    ensures Value([false]) < Value([true])
  {
    assert [false][..0] == [] && [true][..0] == [];
  }

  /** The bit of the address in memory that is the i-th to count: the second half goes first. */
  function BitAt(w: Words, i: nat): bool
    requires i < 128
  {
    InMemory(w)[(i + 64) % 128]
  }

  /** Of two addresses the one that agrees with the target in the first bit in which they differ,
      counted from the middle of the sixteen bytes, is closer. */
  lemma {:induction false} FirstBitDecides(t: Words, n: Words, p: Words, i: nat)
    requires i < 128 && BitAt(n, i) != BitAt(p, i)
    requires forall j :: 0 <= j < i ==> BitAt(n, j) == BitAt(p, j)
    ensures ClosestWords(t, n, p) < 0 <==> BitAt(n, i) == BitAt(t, i)
    ensures ClosestWords(t, n, p) > 0 <==> BitAt(p, i) == BitAt(t, i)
  {
    hide Value, ClosestWords;
    ClosestIsDistance(t, n, p);
    var a := Xor(Rotate64(InMemory(n)), Rotate64(InMemory(t)));
    var b := Xor(Rotate64(InMemory(p)), Rotate64(InMemory(t)));
    forall j | 0 <= j < 128
      ensures a[j] == (BitAt(n, j) != BitAt(t, j)) && b[j] == (BitAt(p, j) != BitAt(t, j))
    {
      RotatedAt(n, j);
      RotatedAt(p, j);
      RotatedAt(t, j);
    }
    assert a[..i] == b[..i];
    if a[i] { FirstBit(b, a, i); } else { FirstBit(a, b, i); }
  }

  lemma RotatedAt(w: Words, j: nat)
    requires j < 128
    ensures Rotate64(InMemory(w))[j] == BitAt(w, j)
  {
    var m := InMemory(w);
    assert (m[64..] + m[..64])[j] == if j < 64 then m[j + 64] else m[j - 64];
  }

  /** The words lie in memory as three, four, one, two. */
  lemma WordsInMemory(w: Words)
    ensures InMemory(w)[..32] == w.three && InMemory(w)[32..64] == w.four
    ensures InMemory(w)[64..96] == w.one && InMemory(w)[96..] == w.two
  {}

  /** For each target the order is antisymmetric and transitive, and nothing is closer than the
      target itself. */
  lemma {:induction false} ClosestIsOrder(t: Words, x: Words, y: Words, z: Words)
    ensures ClosestWords(t, x, y) == -ClosestWords(t, y, x)
    ensures ClosestWords(t, x, y) < 0 && ClosestWords(t, y, z) < 0 ==> ClosestWords(t, x, z) < 0
    ensures ClosestWords(t, t, x) <= 0
  {
    hide Distance, ClosestWords;
    ClosestIsDistance(t, x, y);
    ClosestIsDistance(t, y, x);
    ClosestIsDistance(t, y, z);
    ClosestIsDistance(t, x, z);
    ClosestIsDistance(t, t, x);
    SignOnly(t, x, y);
    SignOnly(t, y, x);
    NoDistanceToSelf(t);
  }

  lemma SignOnly(t: Words, x: Words, y: Words)
    ensures -1 <= ClosestWords(t, x, y) <= 1
  {
    hide Value;
  }

  lemma NoDistanceToSelf(t: Words)
    ensures Distance(t, t) == 0
  {
    AllClear(Xor(Rotate64(InMemory(t)), Rotate64(InMemory(t))));
  }

  lemma {:induction false} AllClear(s: Bits)
    requires forall i :: 0 <= i < |s| ==> !s[i]
    ensures Value(s) == 0
  {
    if s != [] { AllClear(s[..|s| - 1]); }
  }

  /** Not computed yet: no bit of the sixteen bytes is set. */
  ghost predicate Unset(w: Words) {
    forall i :: 0 <= i < 128 ==> !InMemory(w)[i]
  }

  lemma UnsetMeansZero(w: Words)
    ensures Unset(w) <==> w == NoAddress()
  {
    var m := InMemory(w);
    assert m[..32] == w.three && m[32..64] == w.four && m[64..96] == w.one && m[96..] == w.two;
    if Unset(w) {
      forall i | 0 <= i < 32 ensures !w.three[i] && !w.four[i] && !w.one[i] && !w.two[i] {
        assert w.three[i] == m[i] && w.four[i] == m[32 + i] && w.one[i] == m[64 + i] && w.two[i] == m[96 + i];
      }
      assert w.one == Zero() && w.two == Zero() && w.three == Zero() && w.four == Zero();
    }
  }

  /** struct Address, as far as closeness goes: the key and the address, all zero until computed. */
  class NodeAddress {
    const key: nat
    var ip6: Words

    constructor (key: nat, ip6: Words)
      ensures this.key == key && this.ip6 == ip6
    {
      this.key, this.ip6 := key, ip6;
    }

    /** The address, computed from the key if it is not there yet. */
    function Resolved(addressFor: nat -> Words): Words
      reads this
    {
      if ip6 == NoAddress() then addressFor(key) else ip6
    }

    /** Address_getPrefix. */
    method GetPrefix(addressFor: nat -> Words) returns (prefix: Word)
      modifies this
      ensures ip6 == old(Resolved(addressFor)) && prefix == ip6.one
      ensures ip6 == if old(Unset(ip6)) then addressFor(key) else old(ip6)
    {
      UnsetMeansZero(ip6);
      if ip6.one == Zero() && ip6.two == Zero() && ip6.three == Zero() && ip6.four == Zero() {
        ip6 := addressFor(key);
      }
      prefix := ip6.one;
    }
  }

  /** Address_closest. */
  method Closest(target: NodeAddress, negativeIfCloser: NodeAddress, positiveIfCloser: NodeAddress,
                 addressFor: nat -> Words)
    returns (ret: int)
    modifies target, negativeIfCloser, positiveIfCloser
    ensures target.ip6 == old(target.Resolved(addressFor))
    ensures negativeIfCloser.ip6 == old(negativeIfCloser.Resolved(addressFor))
    ensures positiveIfCloser.ip6 == old(positiveIfCloser.Resolved(addressFor))
    ensures ret == ClosestWords(target.ip6, negativeIfCloser.ip6, positiveIfCloser.ip6)
  {
    hide XorCmp;
    var _ := target.GetPrefix(addressFor);
    var _ := negativeIfCloser.GetPrefix(addressFor);
    var _ := positiveIfCloser.GetPrefix(addressFor);
    var t, n, p := target.ip6, negativeIfCloser.ip6, positiveIfCloser.ip6;
    ret := XorCmp(t.one, n.one, p.one);
    if ret != 0 { return; }
    ret := XorCmp(t.two, n.two, p.two);
    if ret != 0 { return; }
    ret := XorCmp(t.three, n.three, p.three);
    if ret != 0 { return; }
    ret := XorCmp(t.four, n.four, p.four);
  }
}
