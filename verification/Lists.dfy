/** Singly linked lists as sequences: counting cells and unlinking the first match. */
module Lists {

  /** How many cells of `s` hold `x`. */
  function Count<T(==)>(s: seq<T>, x: T): nat {
    if s == [] then 0 else (if s[0] == x then 1 else 0) + Count(s[1..], x)
  }

  ghost predicate NoRepeats<T>(s: seq<T>) {
    forall i, j :: 0 <= i < j < |s| ==> s[i] != s[j]
  }

  /** Unlinks the first cell holding `x`; no cell is touched when there is none. */
  function RemoveFirst<T(==)>(s: seq<T>, x: T): seq<T> {
    if s == [] then [] else if s[0] == x then s[1..] else [s[0]] + RemoveFirst(s[1..], x)
  }

  lemma {:induction false} CountIn<T>(s: seq<T>, x: T)
    ensures x in s <==> Count(s, x) > 0
  {
    if s != [] { CountIn(s[1..], x); }
  }

  lemma {:induction false} CountRemove<T>(s: seq<T>, x: T, y: T)
    ensures Count(RemoveFirst(s, x), y) == Count(s, y) - (if x == y && Count(s, x) > 0 then 1 else 0)
  {
    if s != [] && s[0] != x {
      CountRemove(s[1..], x, y);
      assert ([s[0]] + RemoveFirst(s[1..], x))[1..] == RemoveFirst(s[1..], x);
    }
  }

  lemma {:induction false} CountPush<T>(x: T, s: seq<T>, y: T)
    ensures Count([x] + s, y) == Count(s, y) + (if x == y then 1 else 0)
  {
    assert ([x] + s)[1..] == s;
  }

  /** In a list that holds nothing twice, different cells hold different things. */
  lemma {:induction false} CountDistinct<T>(s: seq<T>, i: nat, j: nat)
    requires i < j < |s|
    requires Count(s, s[i]) <= 1
    ensures s[i] != s[j]
  {
    if i == 0 {
      CountIn(s[1..], s[0]);
      assert s[j] == s[1..][j - 1];
    } else {
      CountDistinct(s[1..], i - 1, j - 1);
    }
  }

  /** In such a list RemoveFirst takes out exactly the cell at its position. */
  lemma {:induction false} RemoveAt<T>(s: seq<T>, i: nat)
    requires i < |s| && forall j :: 0 <= j < i ==> s[j] != s[i]
    ensures RemoveFirst(s, s[i]) == s[..i] + s[i + 1..]
  {
    if i > 0 {
      RemoveAt(s[1..], i - 1);
      assert [s[0]] + (s[1..][..i - 1] + s[1..][i..]) == s[..i] + s[i + 1..];
    }
  }
}
