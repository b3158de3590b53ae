/** The dictionary of the benc library: a singly linked list that is kept sorted
    (benc/Dict.c, with the order of benc/String.c). */
module BencDict {
  import opened CTypes

  /** A C `char`. */
  newtype schar = c: int | -128 <= c < 128

  /** A String*: NULL or the bytes. */
  type Str = Option<seq<schar>>

  // ---------------------------------------------------------------- the order on strings

  /** String_compare() past a common prefix of `i` bytes. */
  function CompareFrom(a: seq<schar>, b: seq<schar>, i: nat): int
    requires i <= |a| && i <= |b|
    decreases |a| - i
  {
    if i < |a| && i < |b| then
      if a[i] != b[i] then a[i] as int - b[i] as int else CompareFrom(a, b, i + 1)
    else ToInt(|a| - |b|)
  }

  function Compare(a: Str, b: Str): int {
    if a.None? || b.None? then (if a.None? then 1 else 0) - (if b.None? then 1 else 0)
    else CompareFrom(a.value, b.value, 0)
  }

  /** String_compare(). */
  method StringCompare(a: Str, b: Str) returns (d: int)
    ensures d == Compare(a, b)
  {
    if a.None? || b.None? {
      return (if a.None? then 1 else 0) - (if b.None? then 1 else 0);
    }
    var i := 0;
    while i < (if |a.value| < |b.value| then |a.value| else |b.value|)
      invariant 0 <= i <= |a.value| && i <= |b.value|
      invariant Compare(a, b) == CompareFrom(a.value, b.value, i)
    {
      d := a.value[i] as int - b.value[i] as int;
      if d != 0 { return; }
      i := i + 1;
    }
    return ToInt(|a.value| - |b.value|);
  }

  /** Where two strings first differ, or the shorter one ends. */
  lemma {:induction false} FirstDifference(a: seq<schar>, b: seq<schar>, i: nat) returns (k: nat)
    requires i <= |a| && i <= |b| && a[..i] == b[..i]
    ensures i <= k <= |a| && k <= |b| && a[..k] == b[..k]
    ensures k < |a| && k < |b| ==> a[k] != b[k] && CompareFrom(a, b, i) == a[k] as int - b[k] as int
    ensures k == |a| || k == |b| ==> CompareFrom(a, b, i) == ToInt(|a| - |b|)
    decreases |a| - i
  {
    if i < |a| && i < |b| && a[i] == b[i] {
      assert a[..i + 1] == a[..i] + [a[i]] && b[..i + 1] == b[..i] + [b[i]];
      k := FirstDifference(a, b, i + 1);
    } else {
      k := i;
    }
  }

  ghost predicate ProperPrefix(a: seq<schar>, b: seq<schar>) {
    |a| < |b| && a == b[..|a|]
  }

  /** One string extends the other: the only case in which lengths matter. */
  ghost predicate Extending(a: Str, b: Str) {
    a.Some? && b.Some? && (ProperPrefix(a.value, b.value) || ProperPrefix(b.value, a.value))
  }

  /** String_compare() is zero for equal strings, and otherwise only for a string and an extension
      of it by a multiple of 2^32 bytes: exactly then it disagrees with String_equals(). */
  lemma {:induction false} ZeroMeansEqual(a: Str, b: Str)
    ensures (Compare(a, b) == 0 <==> a == b) <==> !(Extending(a, b) && (|a.value| - |b.value|) % U32 == 0)
  {
    if a.Some? && b.Some? {
      var x, y := a.value, b.value;
      var k := FirstDifference(x, y, 0);
      if k == |x| && k == |y| { assert x == x[..k] && y == y[..k]; }
      else if k == |x| { assert x == x[..k]; }
      else if k == |y| { assert y == y[..k]; }
    }
  }

  /** Such a pair: the empty string and 2^32 zero bytes. */
  lemma ZeroForDifferentExample()
    ensures var b := seq(U32, _ => 0 as schar); Compare(Some([]), Some(b)) == 0 && Some([]) != Some(b)
  {}

  /** Should it come to the lengths, their difference fits an int. */
  ghost predicate Comparable(a: Str, b: Str) {
    Extending(a, b) ==> -(U32 / 2) < |a.value| - |b.value| < U32 / 2
  }

  /** NULL comes last; other strings compare by the first byte, taken as a signed number, in which
      they differ, and where there is none by their lengths. */
  lemma {:induction false} CompareMeaning(a: Str, b: Str)
    ensures a.None? && b.Some? ==> Compare(a, b) > 0
    ensures a.Some? && b.None? ==> Compare(a, b) < 0
    ensures a.None? && b.None? ==> Compare(a, b) == 0
    ensures a.Some? && b.Some? ==>
      forall k: nat :: k < |a.value| && k < |b.value| && a.value[..k] == b.value[..k] && a.value[k] != b.value[k] ==>
        (Compare(a, b) < 0 <==> a.value[k] < b.value[k])
    ensures a.Some? && b.Some? && ProperPrefix(a.value, b.value) && |b.value| - |a.value| <= 0x8000_0000 ==>
      Compare(a, b) < 0
    ensures a.Some? && b.Some? && ProperPrefix(b.value, a.value) && |a.value| - |b.value| < 0x8000_0000 ==>
      Compare(a, b) > 0
  {
    hide ToInt, CompareFrom;
    if a.Some? && b.Some? {
      var x, y := a.value, b.value;
      FitsInt(|x| - |y|);
      var m := FirstDifference(x, y, 0);
      if m == |x| { assert x == x[..m]; }
      if m == |y| { assert y == y[..m]; }
      forall k: nat | k < |x| && k < |y| && x[..k] == y[..k] && x[k] != y[k]
        ensures Compare(a, b) < 0 <==> x[k] < y[k]
      {
        SameAt(x, y, m, k);
        SameAt(x, y, k, m);
      }
      if ProperPrefix(x, y) {
        assert x[..|x|] == x;
        SameAt(x, y, |x|, m);
      }
      if ProperPrefix(y, x) {
        assert y[..|y|] == y;
        SameAt(x, y, |y|, m);
      }
    }
  }

  /** The bytes are signed: 0x80 comes before 0. */
  lemma SignedExample()
    ensures Compare(Some([-0x80]), Some([0])) < 0 && Compare(Some([0x7f]), Some([0])) > 0
  {}

  lemma NegatedInt(x: int)
    ensures (ToInt(x) < 0 <==> ToInt(-x) > 0) && (ToInt(x) > 0 <==> ToInt(-x) < 0) <==> x % U32 != U32 / 2
  {
    var low := x % U32;
    assert -x == -(x / U32) * U32 - low;
    assert -x % U32 == if low == 0 then 0 else U32 - low by {
      if low > 0 { assert -x == (-(x / U32) - 1) * U32 + (U32 - low); }
    }
  }

  /** The order is antisymmetric for exactly those pairs that are not an extension of one another
      by an odd multiple of 2^31 bytes. */
  lemma {:induction false} AntisymmetryExact(a: Str, b: Str)
    ensures (Compare(a, b) < 0 <==> Compare(b, a) > 0) && (Compare(a, b) > 0 <==> Compare(b, a) < 0) <==>
      !(Extending(a, b) && (|a.value| - |b.value|) % U32 == U32 / 2)
  {
    hide ToInt, CompareFrom;
    if a.Some? && b.Some? {
      var x, y := a.value, b.value;
      NegatedInt(|x| - |y|);
      var k := FirstDifference(x, y, 0);
      var m := FirstDifference(y, x, 0);
      SameAt(x, y, k, m);
      SameAt(y, x, m, k);
      if k == |x| { assert x == x[..k]; }
      if k == |y| { assert y == y[..k]; }
    }
  }

  lemma {:induction false} CompareAntisymmetric(a: Str, b: Str)
    requires Comparable(a, b)
    ensures Compare(a, b) < 0 <==> Compare(b, a) > 0
    ensures Compare(a, b) > 0 <==> Compare(b, a) < 0
    ensures Compare(a, b) == 0 <==> a == b
  {
    AntisymmetryExact(a, b);
    ZeroMeansEqual(a, b);
  }

  lemma FitsInt(x: int)
    ensures -(U32 / 2) <= x < U32 / 2 ==> ToInt(x) == x
  {}

  /** Where the lengths are comparable the order is transitive. */
  lemma {:induction false} CompareTransitive(a: Str, b: Str, c: Str)
    requires Comparable(a, b) && Comparable(b, c) && Comparable(a, c)
    requires Compare(a, b) < 0 && Compare(b, c) < 0
    ensures Compare(a, c) < 0
  {
    hide ToInt, CompareFrom;
    if a.Some? && b.Some? && c.Some? {
      var x, y, z := a.value, b.value, c.value;
      FitsInt(|x| - |y|);
      FitsInt(|y| - |z|);
      FitsInt(|x| - |z|);
      var k := FirstDifference(x, y, 0);
      var m := FirstDifference(y, z, 0);
      var n := FirstDifference(x, z, 0);
      SameAt(x, y, k, n);
      SameAt(x, y, k, m);
      SameAt(y, z, m, n);
      SameAt(y, z, m, k);
      SameAt(x, z, n, k);
      SameAt(x, z, n, m);
    }
  }

  function Zeros(n: nat): (z: seq<schar>)
    ensures |z| == n
  {
    seq(n, _ => 0)
  }

  lemma ZerosCompare(n: nat, m: nat)
    ensures Compare(Some(Zeros(n)), Some(Zeros(m))) == ToInt(n - m)
  {
    var k := FirstDifference(Zeros(n), Zeros(m), 0);
  }

  /** The empty string and 2^31 zero bytes each come before the other. */
  lemma AntisymmetryExample()
    ensures Compare(Some(Zeros(0)), Some(Zeros(U32 / 2))) < 0
    ensures Compare(Some(Zeros(U32 / 2)), Some(Zeros(0))) < 0
  {
    ZerosCompare(0, U32 / 2);
    ZerosCompare(U32 / 2, 0);
  }

  /** 0, 2^31 - 1 and 2^32 - 2 zero bytes: each comes before the next, and the last before the first. */
  lemma TransitivityExample()
    ensures Compare(Some(Zeros(0)), Some(Zeros(U32 / 2 - 1))) < 0
    ensures Compare(Some(Zeros(U32 / 2 - 1)), Some(Zeros(U32 - 2))) < 0
    ensures Compare(Some(Zeros(0)), Some(Zeros(U32 - 2))) > 0
  {
    ZerosCompare(0, U32 / 2 - 1);
    ZerosCompare(U32 / 2 - 1, U32 - 2);
    ZerosCompare(0, U32 - 2);
  }

  ghost predicate UpTo(a: Str, max: nat) {
    a.Some? ==> |a.value| <= max
  }

  /** A strict total order on NULL and the strings of at most `max` bytes. */
  ghost predicate OrderUpTo(max: nat) {
    && (forall a: Str, b: Str :: UpTo(a, max) && UpTo(b, max) ==>
          (Compare(a, b) < 0 <==> Compare(b, a) > 0) && (Compare(a, b) == 0 <==> a == b))
    && (forall a: Str, b: Str, c: Str {:trigger Compare(a, b), Compare(b, c)} ::
          UpTo(a, max) && UpTo(b, max) && UpTo(c, max) && Compare(a, b) < 0 && Compare(b, c) < 0 ==>
          Compare(a, c) < 0)
  }

  /** String_compare() orders the strings of at most `max` bytes exactly when max is below 2^31. */
  lemma {:induction false} OrderExactly(max: nat)
    ensures OrderUpTo(max) <==> max < U32 / 2
  {
    if max < U32 / 2 {
      forall a: Str, b: Str | UpTo(a, max) && UpTo(b, max)
        ensures (Compare(a, b) < 0 <==> Compare(b, a) > 0) && (Compare(a, b) == 0 <==> a == b)
      {
        CompareAntisymmetric(a, b);
      }
      forall a: Str, b: Str, c: Str {:trigger Compare(a, b), Compare(b, c)} |
        UpTo(a, max) && UpTo(b, max) && UpTo(c, max) && Compare(a, b) < 0 && Compare(b, c) < 0
        ensures Compare(a, c) < 0
      {
        CompareTransitive(a, b, c);
      }
    } else {
      AntisymmetryExample();
      assert UpTo(Some(Zeros(0)), max) && UpTo(Some(Zeros(U32 / 2)), max);
    }
  }

  lemma SameAt(a: seq<schar>, b: seq<schar>, k: nat, i: nat)
    requires k <= |a| && k <= |b| && a[..k] == b[..k]
    ensures i < k ==> a[i] == b[i]
  {
    if i < k { assert a[..k][i] == b[..k][i]; }
  }

  // ---------------------------------------------------------------- the dictionary

  datatype Entry<V> = Entry(key: Str, val: V)

  /** Strictly ascending, so every key at most once. */
  ghost predicate Sorted<V>(entries: seq<Entry<V>>) {
    forall i, j :: 0 <= i < j < |entries| ==>
      Compare(entries[i].key, entries[j].key) < 0 && Comparable(entries[i].key, entries[j].key)
  }

  /** The finite map that a list stands for. */
  function Find<V>(entries: seq<Entry<V>>, key: Str): Option<V> {
    if entries == [] then None
    else if entries[0].key == key then Some(entries[0].val)
    else Find(entries[1..], key)
  }

  lemma {:induction false} FindAt<V>(entries: seq<Entry<V>>, i: nat)
    requires Sorted(entries) && i < |entries|
    ensures Find(entries, entries[i].key) == Some(entries[i].val)
  {
    if i > 0 {
      CompareAntisymmetric(entries[0].key, entries[i].key);
      FindAt(entries[1..], i - 1);
    }
  }

  lemma {:induction false} FindNone<V>(entries: seq<Entry<V>>, key: Str)
    requires forall i :: 0 <= i < |entries| ==> entries[i].key != key
    ensures Find(entries, key) == None
  {
    if entries != [] { FindNone(entries[1..], key); }
  }

  lemma {:induction false} FindSome<V>(entries: seq<Entry<V>>, key: Str) returns (i: nat)
    requires Find(entries, key).Some?
    ensures i < |entries| && entries[i] == Entry(key, Find(entries, key).value)
  {
    if entries[0].key == key { i := 0; } else { i := FindSome(entries[1..], key); i := i + 1; }
  }

  /** Canonical form: two dictionaries that stand for the same map are the same list, whatever
      puts and removes built them. */
  lemma {:induction false} Canonical<V(!new)>(d: seq<Entry<V>>, e: seq<Entry<V>>)
    requires Sorted(d) && Sorted(e)
    requires forall k: Str :: Find(d, k) == Find(e, k)
    ensures d == e
  {
    if d == [] {
      if e != [] { FindAt(e, 0); }
    } else if e == [] {
      FindAt(d, 0);
    } else {
      SameHead(d, e);
      forall k: Str ensures Find(d[1..], k) == Find(e[1..], k) {
        assert Find(d, k) == Find(e, k);
        if k == d[0].key {
          HeadOnlyOnce(d);
          HeadOnlyOnce(e);
        }
      }
      Canonical(d[1..], e[1..]);
      assert d == [d[0]] + d[1..] && e == [e[0]] + e[1..];
    }
  }

  lemma {:induction false} HeadOnlyOnce<V>(d: seq<Entry<V>>)
    requires Sorted(d) && d != []
    ensures Find(d[1..], d[0].key) == None
  {
    forall i | 0 <= i < |d[1..]| ensures d[1..][i].key != d[0].key {
      CompareAntisymmetric(d[0].key, d[i + 1].key);
    }
    FindNone(d[1..], d[0].key);
  }

  /** The least key comes first in both lists. */
  lemma {:induction false} SameHead<V(!new)>(d: seq<Entry<V>>, e: seq<Entry<V>>)
    requires Sorted(d) && Sorted(e) && d != [] && e != []
    requires forall k: Str :: Find(d, k) == Find(e, k)
    ensures d[0] == e[0]
  {
    FindAt(d, 0);
    FindAt(e, 0);
    var i := FindSome(e, d[0].key);
    var j := FindSome(d, e[0].key);
    if i > 0 && j > 0 {
      assert Compare(e[0].key, e[i].key) < 0 && Compare(d[0].key, d[j].key) < 0;
      CompareAntisymmetric(d[0].key, e[0].key);
    }
  }

  // ---------------------------------------------------------------- put and remove

  /** putObject() on the list: a new value in the first cell that compares as equal, or a new cell
      before the first one that compares as greater. */
  function AfterPut<V>(entries: seq<Entry<V>>, key: Str, val: V): seq<Entry<V>> {
    if entries == [] || Compare(key, entries[0].key) < 0 then [Entry(key, val)] + entries
    else if Compare(key, entries[0].key) == 0 then [entries[0].(val := val)] + entries[1..]
    else [entries[0]] + AfterPut(entries[1..], key, val)
  }

  function Displaced<V>(entries: seq<Entry<V>>, key: Str): Option<V> {
    if entries == [] || Compare(key, entries[0].key) < 0 then None
    else if Compare(key, entries[0].key) == 0 then Some(entries[0].val)
    else Displaced(entries[1..], key)
  }

  /** Dict_remove() on the list. */
  function AfterRemove<V>(entries: seq<Entry<V>>, key: Str): seq<Entry<V>> {
    if entries == [] then [] else if entries[0].key == key then entries[1..]
    else [entries[0]] + AfterRemove(entries[1..], key)
  }

  /** One turn of the loop of putObject(). */
  lemma PutStep<V>(entries: seq<Entry<V>>, i: nat, key: Str, val: V)
    requires i <= |entries|
    ensures var rest, d := entries[i..], if i < |entries| then Compare(key, entries[i].key) else -1;
      && AfterPut(rest, key, val) ==
           (if d < 0 then [Entry(key, val)] + rest
            else if d == 0 then [entries[i].(val := val)] + entries[i + 1..]
            else [entries[i]] + AfterPut(entries[i + 1..], key, val))
      && Displaced(rest, key) ==
           (if d < 0 then None else if d == 0 then Some(entries[i].val) else Displaced(entries[i + 1..], key))
  {
    if i < |entries| { assert entries[i..][1..] == entries[i + 1..]; }
  }

  /** One turn of the loop of Dict_remove(). */
  lemma RemoveStep<V>(entries: seq<Entry<V>>, i: nat, key: Str)
    requires i <= |entries|
    ensures var rest := entries[i..];
      && AfterRemove(rest, key) ==
           (if rest == [] then [] else if entries[i].key == key then entries[i + 1..]
            else [entries[i]] + AfterRemove(entries[i + 1..], key))
      && Find(rest, key) ==
           (if rest == [] then None else if entries[i].key == key then Some(entries[i].val)
            else Find(entries[i + 1..], key))
  {
    if i < |entries| { assert entries[i..][1..] == entries[i + 1..]; }
  }

  ghost predicate AllComparable<V>(entries: seq<Entry<V>>, key: Str) {
    forall i :: 0 <= i < |entries| ==> Comparable(key, entries[i].key)
  }

  /** `key` comes before everything in the list. */
  ghost predicate Before<V>(key: Str, entries: seq<Entry<V>>) {
    forall i :: 0 <= i < |entries| ==> Compare(key, entries[i].key) < 0 && Comparable(key, entries[i].key)
  }

  lemma {:induction false} PutAfter<V>(first: Str, entries: seq<Entry<V>>, key: Str, val: V)
    requires Before(first, entries) && Compare(first, key) < 0 && Comparable(first, key)
    ensures Before(first, AfterPut(entries, key, val))
  {
    if entries != [] { PutAfter(first, entries[1..], key, val); }
  }

  lemma {:induction false} RemoveAfter<V>(first: Str, entries: seq<Entry<V>>, key: Str)
    requires Before(first, entries)
    ensures Before(first, AfterRemove(entries, key))
  {
    if entries != [] { RemoveAfter(first, entries[1..], key); }
  }

  /** A key that comes before the first of a sorted list is not in it and comes before them all. */
  lemma {:induction false} FirstIsLeast<V>(entries: seq<Entry<V>>, key: Str)
    requires Sorted(entries) && AllComparable(entries, key)
    requires entries != [] ==> Compare(key, entries[0].key) < 0
    ensures Before(key, entries) && Find(entries, key) == None
  {
    forall i | 0 <= i < |entries| ensures Compare(key, entries[i].key) < 0 && entries[i].key != key {
      if i > 0 { CompareTransitive(key, entries[0].key, entries[i].key); }
      CompareAntisymmetric(key, entries[i].key);
    }
    FindNone(entries, key);
  }

  lemma {:induction false} PutSorted<V>(entries: seq<Entry<V>>, key: Str, val: V)
    requires Sorted(entries) && AllComparable(entries, key)
    ensures Sorted(AfterPut(entries, key, val))
  {
    hide Compare, Comparable;
    if entries == [] || Compare(key, entries[0].key) < 0 {
      FirstIsLeast(entries, key);
    } else if Compare(key, entries[0].key) > 0 {
      BothWays(key, entries[0].key);
      PutSorted(entries[1..], key, val);
      PutAfter(entries[0].key, entries[1..], key, val);
    }
  }

  lemma BothWays(a: Str, b: Str)
    requires Comparable(a, b)
    ensures Comparable(b, a) && (Compare(b, a) < 0 <==> Compare(a, b) > 0) && (Compare(a, b) == 0 <==> a == b)
  {
    CompareAntisymmetric(b, a);
    CompareAntisymmetric(a, b);
  }

  lemma {:induction false} PutFinds<V>(entries: seq<Entry<V>>, key: Str, val: V, k: Str)
    requires Sorted(entries) && AllComparable(entries, key)
    ensures Displaced(entries, key) == Find(entries, key)
    ensures Find(AfterPut(entries, key, val), k) == if k == key then Some(val) else Find(entries, k)
    ensures |AfterPut(entries, key, val)| == |entries| + if Find(entries, key).Some? then 0 else 1
  {
    hide Compare, Comparable;
    if entries == [] || Compare(key, entries[0].key) < 0 {
      FirstIsLeast(entries, key);
      assert ([Entry(key, val)] + entries)[1..] == entries;
    } else {
      var rest := entries[1..];
      BothWays(key, entries[0].key);
      PutFinds(rest, key, val, k);
      assert ([entries[0].(val := val)] + rest)[1..] == rest;
      assert ([entries[0]] + AfterPut(rest, key, val))[1..] == AfterPut(rest, key, val);
    }
  }

  /** On keys of comparable length a put keeps the list sorted, changes the map at that key alone
      and returns what was there. */
  lemma {:induction false} PutKeeps<V>(entries: seq<Entry<V>>, key: Str, val: V)
    requires Sorted(entries) && AllComparable(entries, key)
    ensures Sorted(AfterPut(entries, key, val)) && Displaced(entries, key) == Find(entries, key)
    ensures forall k: Str :: Find(AfterPut(entries, key, val), k) == if k == key then Some(val) else Find(entries, k)
    ensures |AfterPut(entries, key, val)| == |entries| + if Find(entries, key).Some? then 0 else 1
  {
    hide Sorted, AllComparable, AfterPut, Displaced, Find;
    PutSorted(entries, key, val);
    PutFinds(entries, key, val, key);
    forall k: Str { PutFinds(entries, key, val, k); }
  }

  lemma {:induction false} RemoveSorted<V>(entries: seq<Entry<V>>, key: Str)
    requires Sorted(entries)
    ensures Sorted(AfterRemove(entries, key))
  {
    hide Compare, Comparable;
    if entries != [] && entries[0].key != key {
      RemoveSorted(entries[1..], key);
      RemoveAfter(entries[0].key, entries[1..], key);
    }
  }

  lemma {:induction false} RemoveFinds<V>(entries: seq<Entry<V>>, key: Str, k: Str)
    requires Sorted(entries)
    ensures Find(AfterRemove(entries, key), k) == if k == key then None else Find(entries, k)
    ensures |AfterRemove(entries, key)| == |entries| - if Find(entries, key).Some? then 1 else 0
  {
    hide Compare, Comparable;
    if entries != [] {
      var rest := entries[1..];
      if entries[0].key == key {
        HeadOnlyOnce(entries);
      } else {
        RemoveFinds(rest, key, k);
        assert ([entries[0]] + AfterRemove(rest, key))[1..] == AfterRemove(rest, key);
      }
    }
  }

  /** A remove keeps the list sorted and takes that key alone out of the map. */
  lemma {:induction false} RemoveKeeps<V>(entries: seq<Entry<V>>, key: Str)
    requires Sorted(entries)
    ensures Sorted(AfterRemove(entries, key))
    ensures forall k: Str :: Find(AfterRemove(entries, key), k) == if k == key then None else Find(entries, k)
    ensures |AfterRemove(entries, key)| == |entries| - if Find(entries, key).Some? then 1 else 0
  {
    hide Sorted, AfterRemove, Find;
    RemoveSorted(entries, key);
    RemoveFinds(entries, key, key);
    forall k: Str { RemoveFinds(entries, key, k); }
  }

  // ---------------------------------------------------------------- whole histories

  datatype Op<V> = Put(key: Str, val: V) | Remove(key: Str)

  /** The dictionary that a sequence of operations builds from Dict_new(). */
  function Built<V>(ops: seq<Op<V>>): seq<Entry<V>> {
    if ops == [] then [] else
      var before := Built(ops[..|ops| - 1]);
      match ops[|ops| - 1]
      case Put(key, val) => AfterPut(before, key, val)
      case Remove(key) => AfterRemove(before, key)
  }

  /** What the last operation on `k` left there. */
  function Latest<V>(ops: seq<Op<V>>, k: Str): Option<V> {
    if ops == [] then None else
      match ops[|ops| - 1]
      case Put(key, val) => if key == k then Some(val) else Latest(ops[..|ops| - 1], k)
      case Remove(key) => if key == k then None else Latest(ops[..|ops| - 1], k)
  }

  ghost predicate KeysUpTo<V>(entries: seq<Entry<V>>, max: nat) {
    forall i :: 0 <= i < |entries| ==> UpTo(entries[i].key, max)
  }

  ghost predicate OpsUpTo<V>(ops: seq<Op<V>>, max: nat) {
    forall i :: 0 <= i < |ops| ==> UpTo(ops[i].key, max)
  }

  lemma {:induction false} StaysUpTo<V>(entries: seq<Entry<V>>, key: Str, val: V, max: nat)
    requires KeysUpTo(entries, max)
    ensures UpTo(key, max) ==> KeysUpTo(AfterPut(entries, key, val), max)
    ensures KeysUpTo(AfterRemove(entries, key), max)
  {
    hide Compare;
    if entries != [] { StaysUpTo(entries[1..], key, val, max); }
  }

  /** Every dictionary is sorted and stands for the map that its history describes. */
  lemma {:induction false} BuiltIsMap<V>(ops: seq<Op<V>>, max: nat)
    requires max < U32 / 2 && OpsUpTo(ops, max)
    ensures Sorted(Built(ops)) && KeysUpTo(Built(ops), max)
    ensures forall k: Str :: Find(Built(ops), k) == Latest(ops, k)
  {
    hide Sorted, Find, AfterPut, AfterRemove;
    if ops == [] {
      NothingBuilt<V>();
    } else {
      var before, op := Built(ops[..|ops| - 1]), ops[|ops| - 1];
      BuiltIsMap(ops[..|ops| - 1], max);
      match op
      case Put(key, val) =>
        StaysUpTo(before, key, val, max);
        PutKeeps(before, key, val);
      case Remove(key) =>
        if before != [] { StaysUpTo(before, key, before[0].val, max); }
        RemoveKeeps(before, key);
        RemoveStep(before, |before|, key);
    }
  }

  lemma NothingBuilt<V>()
    ensures var none: seq<Entry<V>> := []; Sorted(none) && forall k: Str :: Find(none, k) == None
  {}

  /** Whatever the operations and their order, equal maps are equal lists. */
  lemma {:induction false} HistoryIrrelevant<V(!new)>(ops: seq<Op<V>>, others: seq<Op<V>>, max: nat)
    requires max < U32 / 2 && OpsUpTo(ops, max) && OpsUpTo(others, max)
    requires forall k: Str :: Latest(ops, k) == Latest(others, k)
    ensures Built(ops) == Built(others)
  {
    hide Sorted, Find, Latest, Built;
    BuiltIsMap(ops, max);
    BuiltIsMap(others, max);
    Canonical(Built(ops), Built(others));
  }

  /** The order of two puts does not matter, except for exactly those two keys of which one
      extends the other by a multiple of 2^31 bytes. */
  lemma {:induction false} PutOrderMatters<V>(a: Str, x: V, b: Str, y: V)
    requires a != b
    ensures AfterPut(AfterPut([], a, x), b, y) == AfterPut(AfterPut([], b, y), a, x) <==>
      !(Extending(a, b) && (|a.value| - |b.value|) % U32 in {0, U32 / 2})
  {
    hide Compare, ProperPrefix;
    AntisymmetryExact(a, b);
    ZeroMeansEqual(a, b);
    ZeroMeansEqual(b, a);
    PutSecond(a, x, b, y);
    PutSecond(b, y, a, x);
    var p, q := Entry(a, x), Entry(b, y);
    assert [p, q][0] == p && [q, p][0] == q;
  }

  lemma PutSecond<V>(a: Str, x: V, b: Str, y: V)
    ensures AfterPut(AfterPut([], a, x), b, y) ==
            if Compare(b, a) < 0 then [Entry(b, y), Entry(a, x)]
            else if Compare(b, a) == 0 then [Entry(a, y)]
            else [Entry(a, x), Entry(b, y)]
  {
    hide Compare;
    assert AfterPut([], a, x) == [Entry(a, x)];
    assert [Entry(a, x)][1..] == [];
  }

  /** Two such keys, the first of them put twice: three cells. */
  lemma {:induction false} DuplicateExample<V>(x: V, y: V, z: V)
    ensures var short, long := Some(Zeros(0)), Some(Zeros(U32 / 2));
      AfterPut(AfterPut(AfterPut([], short, x), long, y), short, z) ==
      [Entry(short, z), Entry(long, y), Entry(short, x)]
  {
    AntisymmetryExample();
  }

  class Dict<V(==,!new)> {
    var entries: seq<Entry<V>>

    /** Dict_new(). */
    constructor ()
      ensures entries == [] && Sorted(entries)
    {
      entries := [];
    }

    /** Dict_size(). */
    method Size() returns (n: nat)
      ensures n == |entries|
    {
      n := 0;
      var rest := entries;
      while rest != []
        invariant n + |rest| == |entries|
        decreases |rest|
      {
        rest, n := rest[1..], n + 1;
      }
    }

    /** lookupObject(). */
    method LookupObject(key: Str) returns (val: Option<V>)
      ensures val == if key.None? then None else Find(entries, key)
    {
      if key.None? { return None; }
      var i := 0;
      while i < |entries|
        invariant 0 <= i <= |entries|
        invariant Find(entries, key) == Find(entries[i..], key)
      {
        if key == entries[i].key { return Some(entries[i].val); }
        assert entries[i..][1..] == entries[i + 1..];
        i := i + 1;
      }
      return None;
    }

    /** putObject(): the displaced value, if any. */
    method PutObject(key: Str, val: V) returns (displaced: Option<V>)
      modifies this
      ensures entries == AfterPut(old(entries), key, val) && displaced == Displaced(old(entries), key)
      ensures Sorted(old(entries)) && AllComparable(old(entries), key) ==>
        && Sorted(entries) && displaced == Find(old(entries), key)
        && (forall k: Str :: Find(entries, k) == if k == key then Some(val) else Find(old(entries), k))
        && |entries| == old(|entries|) + if displaced.Some? then 0 else 1
    {
      hide Sorted, AllComparable, Find, Compare, AfterPut, Displaced;
      if Sorted(entries) && AllComparable(entries, key) { PutKeeps(entries, key, val); }
      var i := 0;
      while i < |entries|
        invariant 0 <= i <= |entries| && entries == old(entries)
        invariant AfterPut(entries, key, val) == entries[..i] + AfterPut(entries[i..], key, val)
        invariant Displaced(entries, key) == Displaced(entries[i..], key)
      {
        PutStep(entries, i, key, val);
        var cmp := StringCompare(key, entries[i].key);
        if cmp < 0 {
          break;
        } else if cmp == 0 {
          displaced := Some(entries[i].val);
          entries := entries[i := entries[i].(val := val)];
          return;
        }
        assert entries[..i] + [entries[i]] == entries[..i + 1];
        i := i + 1;
      }
      PutStep(entries, i, key, val);
      displaced := None;
      entries := entries[..i] + [Entry(key, val)] + entries[i..];
    }

    /** Dict_remove(): whether the key was there. */
    method Remove(key: Str) returns (found: bool)
      modifies this
      ensures entries == AfterRemove(old(entries), key) && found == Find(old(entries), key).Some?
      ensures Sorted(old(entries)) ==>
        && Sorted(entries)
        && (forall k: Str :: Find(entries, k) == if k == key then None else Find(old(entries), k))
        && |entries| == old(|entries|) - if found then 1 else 0
    {
      hide Sorted, Find, AfterRemove;
      if Sorted(entries) { RemoveKeeps(entries, key); }
      var i := 0;
      while i < |entries|
        invariant 0 <= i <= |entries| && entries == old(entries)
        invariant AfterRemove(entries, key) == entries[..i] + AfterRemove(entries[i..], key)
        invariant Find(entries, key) == Find(entries[i..], key)
      {
        RemoveStep(entries, i, key);
        if key == entries[i].key {
          entries := entries[..i] + entries[i + 1..];
          return true;
        }
        ghost var rest := AfterRemove(entries[i + 1..], key);
        assert entries[..i] + ([entries[i]] + rest) == entries[..i + 1] + rest;
        i := i + 1;
      }
      RemoveStep(entries, i, key);
      return false;
    }
  }
}
