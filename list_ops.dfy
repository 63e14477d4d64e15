/** The Python list operations the simulation relies on: membership
    (`x in xs`), `xs.remove(x)` (drops the first occurrence only) and the
    duplicate-freedom that `ContainingSpace.add_heat_source` maintains. */
module ListOps {

  /** No element occurs twice. */
  ghost predicate Distinct<T>(s: seq<T>) {
    forall i, j :: 0 <= i < j < |s| ==> s[i] != s[j]
  }

  /** Position of the first occurrence of `x`. */
  function IndexOf<T(==)>(s: seq<T>, x: T): (i: nat)
    requires x in s
    ensures i < |s| && s[i] == x
    ensures x !in s[..i]
  {
    if s[0] == x then 0 else 1 + IndexOf(s[1..], x)
  }

  /** `list.remove(x)`: the list without its first occurrence of `x`
      (`list.remove` raises when `x` is absent; that case is left to the
      callers' preconditions and here returns the list unchanged). */
  function RemoveFirst<T(==)>(s: seq<T>, x: T): (r: seq<T>)
    ensures x in s ==> |r| == |s| - 1
    ensures x in s ==> multiset(r) == multiset(s) - multiset{x}
    ensures x in s ==> r[..IndexOf(s, x)] == s[..IndexOf(s, x)]
    ensures x in s ==> r[IndexOf(s, x)..] == s[IndexOf(s, x) + 1..]
    ensures x !in s ==> r == s
  {
    if x in s then
      var i := IndexOf(s, x);
      assert s == s[..i] + [x] + s[i + 1..];
      s[..i] + s[i + 1..]
    else
      s
  }

  /** Appending an absent element keeps a list duplicate-free. */
  lemma AppendKeepsDistinct<T>(s: seq<T>, x: T)
    requires Distinct(s) && x !in s
    ensures Distinct(s + [x])
  {
    forall i, j | 0 <= i < j < |s + [x]|
      ensures (s + [x])[i] != (s + [x])[j]
    {
      if j == |s| {
        assert s[i] in s;
      }
    }
  }

  /** Where each element of `s` without position `i` came from. */
  lemma WithoutAt<T>(s: seq<T>, i: nat, r: seq<T>)
    requires i < |s| && r == s[..i] + s[i + 1..]
    ensures |r| == |s| - 1
    ensures forall k :: 0 <= k < i ==> r[k] == s[k]
    ensures forall k :: i <= k < |r| ==> r[k] == s[k + 1]
  {
  }

  /** Dropping one position keeps a list duplicate-free. */
  lemma WithoutAtDistinct<T>(s: seq<T>, i: nat, r: seq<T>)
    requires Distinct(s) && i < |s| && r == s[..i] + s[i + 1..]
    ensures Distinct(r)
  {
    WithoutAt(s, i, r);
    forall a, b | 0 <= a < b < |r|
      ensures r[a] != r[b]
    {
      if b < i {
        assert r[a] == s[a] && r[b] == s[b];
      } else if a < i {
        assert r[a] == s[a] && r[b] == s[b + 1];
      } else {
        assert r[a] == s[a + 1] && r[b] == s[b + 1];
      }
    }
  }

  /** Dropping the only occurrence of `s[i]` leaves exactly the other elements. */
  lemma WithoutAtMembers<T>(s: seq<T>, i: nat, r: seq<T>)
    requires Distinct(s) && i < |s| && r == s[..i] + s[i + 1..]
    ensures forall y :: y in r <==> y in s && y != s[i]
  {
    WithoutAt(s, i, r);
    forall y | y in r
      ensures y in s && y != s[i]
    {
      var k :| 0 <= k < |r| && r[k] == y;
      if k < i {
        assert s[k] == y;
      } else {
        assert s[k + 1] == y;
      }
    }
    forall y | y in s && y != s[i]
      ensures y in r
    {
      var k :| 0 <= k < |s| && s[k] == y;
      if k < i {
        assert r[k] == y;
      } else {
        assert r[k - 1] == y;
      }
    }
  }

  /** Removing from a duplicate-free list keeps it duplicate-free and
      removes every occurrence, so the element is gone afterwards. */
  lemma RemoveFirstOfDistinct<T>(s: seq<T>, x: T)
    requires Distinct(s) && x in s
    ensures Distinct(RemoveFirst(s, x))
    ensures forall y :: y in RemoveFirst(s, x) <==> y in s && y != x
  {
    var i := IndexOf(s, x);
    WithoutAtDistinct(s, i, s[..i] + s[i + 1..]);
    WithoutAtMembers(s, i, s[..i] + s[i + 1..]);
  }
}
