// A JavaScript `Set` keeps its elements in insertion order, and that order is
// observable (`Array.from(set)`, `for ... of`).  It is modelled here as a
// sequence without repeated elements, in insertion order.
module JsSets {

  /** No element occurs twice: the invariant every JavaScript `Set` keeps. */
  predicate NoDup<T(==,!new)>(s: seq<T>) {
    forall i, j | 0 <= i < j < |s| :: s[i] != s[j]
  }

  /** `set.add(x)`: appends `x` unless it is already there. */
  function Add<T(==,!new)>(s: seq<T>, x: T): (r: seq<T>)
    ensures NoDup(s) ==> NoDup(r)
    ensures forall y :: y in r <==> y in s || y == x
    ensures s <= r
  {
    if x in s then s else s + [x]
  }

  /** `set.delete(x)`: takes `x` out and keeps the order of the rest. */
  function Delete<T(==,!new)>(s: seq<T>, x: T): (r: seq<T>)
    ensures forall y :: y in r <==> y in s && y != x
    ensures NoDup(s) ==> NoDup(r)
    ensures |r| <= |s|
  {
    if |s| == 0 then []
    else if s[0] == x then Delete(s[1..], x)
    else
      var rest := Delete(s[1..], x);
      assert NoDup(s) ==> NoDup(s[1..]) && s[0] !in rest;
      [s[0]] + rest
  }

  /** `new Set(array)`: the elements of `a` in order of first occurrence. */
  function FromArray<T(==,!new)>(a: seq<T>): (r: seq<T>)
    ensures NoDup(r)
    ensures forall y :: y in r <==> y in a
  {
    if |a| == 0 then [] else Add(FromArray(a[..|a| - 1]), a[|a| - 1])
  }

  /** An array read out of a set turns back into the same set, order included. */
  lemma {:induction false} FromArrayOfSet<T(!new)>(a: seq<T>)
    requires NoDup(a)
    ensures FromArray(a) == a
  {
    if |a| > 0 {
      var init, last := a[..|a| - 1], a[|a| - 1];
      assert NoDup(init) by {
        forall i, j | 0 <= i < j < |init| ensures init[i] != init[j] {
          assert init[i] == a[i] && init[j] == a[j];
        }
      }
      assert last !in init by {
        forall i | 0 <= i < |init| ensures init[i] != last {
          assert init[i] == a[i];
        }
      }
      FromArrayOfSet(init);
      assert FromArray(a) == Add(init, last);
      assert init + [last] == a;
    }
  }

  /** Deleting an element that is not there changes nothing. */
  lemma {:induction false} DeleteAbsent<T(!new)>(s: seq<T>, x: T)
    requires x !in s
    ensures Delete(s, x) == s
  {
    if |s| > 0 {
      DeleteAbsent(s[1..], x);
      assert [s[0]] + s[1..] == s;
    }
  }

  /**
   * Deleting the element at position `i` of a set leaves the elements
   * before it and the elements after it, each in their order.
   */
  lemma {:induction false} DeleteAt<T(!new)>(s: seq<T>, i: nat)
    requires NoDup(s) && i < |s|
    ensures Delete(s, s[i]) == s[..i] + s[i + 1..]
  {
    var tail := s[1..];
    NoDupTail(s);
    if i == 0 {
      DeleteAbsent(tail, s[0]);
      assert s[..0] + s[1..] == tail;
    } else {
      assert s[0] != s[i];
      assert Delete(s, s[i]) == [s[0]] + Delete(tail, s[i]);
      assert tail[i - 1] == s[i];
      DeleteAt(tail, i - 1);
      SplitAround(s, i);
    }
  }

  /** The tail of a set is a set without its first element. */
  lemma NoDupTail<T(!new)>(s: seq<T>)
    requires NoDup(s) && |s| > 0
    ensures NoDup(s[1..]) && s[0] !in s[1..]
  {
    var tail := s[1..];
    forall m | 0 <= m < |tail| ensures tail[m] != s[0] {
      assert tail[m] == s[m + 1];
    }
  }

  lemma SplitAround<T>(s: seq<T>, i: nat)
    requires 0 < i < |s|
    ensures [s[0]] + (s[1..][..i - 1] + s[1..][i..]) == s[..i] + s[i + 1..]
  {
    assert [s[0]] + s[1..][..i - 1] == s[..i];
    assert s[1..][i..] == s[i + 1..];
  }

  /** Adding an element that was not there and deleting it again restores the set. */
  lemma {:induction false} DeleteAdded<T(!new)>(s: seq<T>, x: T)
    requires x !in s
    ensures Delete(Add(s, x), x) == s
  {
    if |s| == 0 {
      assert Add(s, x) == [x];
      assert [x][1..] == [];
    } else {
      assert Add(s, x) == s + [x];
      assert (s + [x])[1..] == s[1..] + [x];
      DeleteAdded(s[1..], x);
      assert Add(s[1..], x) == s[1..] + [x];
      assert [s[0]] + s[1..] == s;
    }
  }
}
