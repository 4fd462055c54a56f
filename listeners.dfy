/**
 * Listener registration as every component of the source does it:
 * `erase(remove(begin, end, x), end)` to drop every copy of `x`, followed by
 * `push_back(x)` when adding. Listeners are identified by an opaque id (the
 * source keeps raw pointers and compares them by address).
 */
module Listeners {

  type ListenerId = nat

  /** Number of occurrences of `x` in `s`. */
  function Count<T(==,!new)>(s: seq<T>, x: T): nat
  {
    multiset(s)[x]
  }

  /** No element occurs twice. */
  predicate NoDuplicates<T(==,!new)>(s: seq<T>)
  {
    forall i, j :: 0 <= i < j < |s| ==> s[i] != s[j]
  }

  /** The erase/remove idiom: every copy of `x` removed, the rest in their original order. */
  function RemoveAll<T(==,!new)>(s: seq<T>, x: T): (r: seq<T>)
    ensures x !in r
    ensures forall y :: y != x ==> Count(r, y) == Count(s, y)
    ensures x !in s ==> r == s
    ensures NoDuplicates(s) ==> NoDuplicates(r)
  {
    if s == [] then []
    else
      var rest := RemoveAll(s[1..], x);
      assert s == [s[0]] + s[1..];
      if s[0] == x then rest
      else
        assert s[0] !in s[1..] ==> s[0] !in rest by {
          if s[0] !in s[1..] {
            assert Count(s[1..], s[0]) == 0;
          }
        }
        [s[0]] + rest
  }

  /** AddListener: drop every copy of `x`, then append one at the end. */
  function AddLast<T(==,!new)>(s: seq<T>, x: T): (r: seq<T>)
    ensures |r| > 0 && r[|r| - 1] == x
    ensures Count(r, x) == 1
    ensures forall y :: y != x ==> Count(r, y) == Count(s, y)
    ensures NoDuplicates(s) ==> NoDuplicates(r)
  {
    RemoveAll(s, x) + [x]
  }

  /** Removing is order-preserving: the survivors form a subsequence of the original list. */
  lemma {:induction false} RemoveAllKeepsOrder<T(!new)>(s: seq<T>, x: T, i: nat, j: nat)
    requires i < j < |RemoveAll(s, x)|
    ensures exists a, b :: 0 <= a < b < |s| && s[a] == RemoveAll(s, x)[i] && s[b] == RemoveAll(s, x)[j]
  {
    var rest := RemoveAll(s[1..], x);
    if s[0] == x {
      RemoveAllKeepsOrder(s[1..], x, i, j);
      var a, b :| 0 <= a < b < |s[1..]| && s[1..][a] == rest[i] && s[1..][b] == rest[j];
      assert s[a + 1] == rest[i] && s[b + 1] == rest[j];
    } else if i == 0 {
      assert RemoveAll(s, x)[j] == rest[j - 1];
      RemoveAllIsDrawnFrom(s[1..], x, j - 1);
      var b :| 0 <= b < |s[1..]| && s[1..][b] == rest[j - 1];
      assert s[0] == RemoveAll(s, x)[0] && s[b + 1] == RemoveAll(s, x)[j];
    } else {
      RemoveAllKeepsOrder(s[1..], x, i - 1, j - 1);
      var a, b :| 0 <= a < b < |s[1..]| && s[1..][a] == rest[i - 1] && s[1..][b] == rest[j - 1];
      assert s[a + 1] == RemoveAll(s, x)[i] && s[b + 1] == RemoveAll(s, x)[j];
    }
  }

  /** Every survivor of RemoveAll is an element of the original list. */
  lemma {:induction false} RemoveAllIsDrawnFrom<T(!new)>(s: seq<T>, x: T, i: nat)
    requires i < |RemoveAll(s, x)|
    ensures exists b :: 0 <= b < |s| && s[b] == RemoveAll(s, x)[i]
  {
    var rest := RemoveAll(s[1..], x);
    if s[0] == x {
      RemoveAllIsDrawnFrom(s[1..], x, i);
      var b :| 0 <= b < |s[1..]| && s[1..][b] == rest[i];
      assert s[b + 1] == rest[i];
    } else if i == 0 {
      assert s[0] == RemoveAll(s, x)[0];
    } else {
      RemoveAllIsDrawnFrom(s[1..], x, i - 1);
      var b :| 0 <= b < |s[1..]| && s[1..][b] == rest[i - 1];
      assert s[b + 1] == RemoveAll(s, x)[i];
    }
  }

  /** One callback made on a listener: who was called, with what event. */
  datatype Notice<+E> = Notice(listener: ListenerId, event: E)

  /** `for(auto listener : m_listeners) listener->On...(event)`: every listener, in order, called once with `event`. */
  function Broadcast<E>(listeners: seq<ListenerId>, event: E): (r: seq<Notice<E>>)
    ensures |r| == |listeners|
    ensures forall i :: 0 <= i < |r| ==> r[i] == Notice(listeners[i], event)
  {
    if listeners == [] then []
    else Broadcast(listeners[..|listeners| - 1], event) + [Notice(listeners[|listeners| - 1], event)]
  }

  /** The notification loop itself, producing the calls in the order it makes them. */
  method Announce<E>(listeners: seq<ListenerId>, event: E) returns (r: seq<Notice<E>>)
    ensures r == Broadcast(listeners, event)
  {
    r := [];
    var i := 0;
    while i < |listeners|
      invariant 0 <= i <= |listeners|
      invariant r == Broadcast(listeners[..i], event)
    {
      assert listeners[..i + 1][..i] == listeners[..i];
      r := r + [Notice(listeners[i], event)];
      i := i + 1;
    }
    assert listeners[..i] == listeners;
  }
}
