/** Sequences: turning one round, and finding an element. */
module Sequences {
  import opened Wrappers

  function Min(a: nat, b: nat): nat { if a < b then a else b }

  // ---------------------------------------------------------------- turning round

  function Reverse<T>(s: seq<T>): (r: seq<T>)
    ensures |r| == |s|
  {
    if s == [] then [] else Reverse(s[1..]) + [s[0]]
  }

  lemma {:induction false} ReverseOfSum<T>(a: seq<T>, b: seq<T>)
    ensures Reverse(a + b) == Reverse(b) + Reverse(a)
  {
    if a == [] {
      assert a + b == b;
    } else {
      ReverseOfSum(a[1..], b);
      assert (a + b)[1..] == a[1..] + b;
    }
  }

  lemma {:induction false} ReverseTwice<T>(s: seq<T>)
    ensures Reverse(Reverse(s)) == s
  {
    if s == [] {
    } else {
      ReverseTwice(s[1..]);
      ReverseOfSum(Reverse(s[1..]), [s[0]]);
    }
  }

  lemma {:induction false} ReverseEnds<T>(s: seq<T>)
    requires s != []
    ensures Reverse(s)[0] == s[|s| - 1] && Reverse(s)[|s| - 1] == s[0]
  {
    if |s| == 1 {
      assert Reverse(s[1..]) == [];
    } else {
      ReverseEnds(s[1..]);
    }
  }

  lemma {:induction false} ReverseDiffers<T>(a: seq<T>, b: seq<T>)
    requires a != b
    ensures Reverse(a) != Reverse(b)
  {
    ReverseTwice(a);
    ReverseTwice(b);
  }

  lemma {:induction false} ReverseMembers<T>(s: seq<T>)
    ensures multiset(Reverse(s)) == multiset(s)
  {
    if s == [] {
    } else {
      ReverseMembers(s[1..]);
      assert s == [s[0]] + s[1..];
    }
  }

  // ---------------------------------------------------------------- finding an element

  /** The first place of an element. */
  function IndexOf<T(==)>(s: seq<T>, x: T): (i: Option<nat>)
    ensures i.Some? ==> i.value < |s| && s[i.value] == x && x !in s[..i.value]
    ensures i.None? ==> x !in s
  {
    if s == [] then None
    else if s[0] == x then Some(0)
    else match IndexOf(s[1..], x) case Some(i) => Some(i + 1) case None => None
  }
}
