/**
 * The operations of Python's built-in `list` that the worker manager relies on,
 * stated over sequences. Elements are compared with `==`, which for a class type
 * is reference identity, as Python's default equality is.
 */
module ListOps {
  import opened Wrappers

  /** What `list.remove(x)` leaves behind: the list without the first element equal to `x`. */
  function RemoveFirst<T(==)>(s: seq<T>, x: T): (r: seq<T>)
    requires x in s
    ensures |r| == |s| - 1
  {
    if s[0] == x then s[1..] else [s[0]] + RemoveFirst(s[1..], x)
  }

  /** Removing one occurrence shortens the list by one and takes exactly one `x` out of its multiset. */
  lemma {:induction false} RemoveFirstCounts<T>(s: seq<T>, x: T)
    requires x in s
    ensures |RemoveFirst(s, x)| == |s| - 1
    ensures multiset(RemoveFirst(s, x)) == multiset(s) - multiset{x}
  {
    assert s == [s[0]] + s[1..];
    if s[0] != x {
      RemoveFirstCounts(s[1..], x);
    }
  }

  /** When `i` is the first position holding `x`, removing `x` is cutting out position `i`. */
  lemma {:induction false} RemoveFirstAt<T>(s: seq<T>, x: T, i: nat)
    requires i < |s| && s[i] == x
    requires forall k :: 0 <= k < i ==> s[k] != x
    ensures RemoveFirst(s, x) == s[..i] + s[i + 1..]
  {
    if i > 0 {
      RemoveFirstAt(s[1..], x, i - 1);
      assert s[1..][..i - 1] == s[1..i];
      assert s[1..][i..] == s[i + 1..];
      assert [s[0]] + s[1..i] == s[..i];
    }
  }

  /** Linear search for the first position holding `x`, or -1 when there is none. */
  method IndexOf<T(==)>(s: seq<T>, x: T) returns (i: int)
    ensures -1 <= i < |s|
    ensures i == -1 <==> x !in s
    ensures 0 <= i ==> s[i] == x && forall k :: 0 <= k < i ==> s[k] != x
  {
    i := 0;
    while i < |s|
      invariant 0 <= i <= |s|
      invariant forall k :: 0 <= k < i ==> s[k] != x
    {
      if s[i] == x {
        return;
      }
      i := i + 1;
    }
    i := -1;
  }

  /**
   * `list.remove(x)`: the list without the first occurrence of `x`, or `None`
   * where Python raises `ValueError` because `x` is not in the list.
   */
  method ListRemove<T(==)>(s: seq<T>, x: T) returns (r: Option<seq<T>>)
    ensures x !in s ==> r == None
    ensures x in s ==> r == Some(RemoveFirst(s, x))
  {
    var i := IndexOf(s, x);
    if i < 0 {
      return None;
    }
    RemoveFirstAt(s, x, i);
    r := Some(s[..i] + s[i + 1..]);
  }
}
