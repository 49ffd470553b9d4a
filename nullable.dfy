/** JavaScript's "a value, or null/undefined", and the rule that React and
    React Native share for lists holding such values: a null child renders
    nothing and a null entry of a style array contributes nothing. */
module Nullable {

  datatype Option<+T> = None | Some(value: T)

  /** The non-null entries of `slots`, in their original order. */
  function Present<T(!new)>(slots: seq<Option<T>>): (r: seq<T>)
    ensures |r| <= |slots|
  {
    if slots == [] then []
    else (if slots[0].Some? then [slots[0].value] else []) + Present(slots[1..])
  }

  /** A value survives exactly when some slot holds it. */
  lemma {:induction false} PresentMembers<T(!new)>(slots: seq<Option<T>>)
    ensures forall x :: x in Present(slots) <==> Some(x) in slots
  {
    if slots != [] {
      PresentMembers(slots[1..]);
      assert slots == [slots[0]] + slots[1..];
    }
  }

  /** Dropping nulls commutes with concatenation. */
  lemma {:induction false} PresentAppend<T(!new)>(a: seq<Option<T>>, b: seq<Option<T>>)
    ensures Present(a + b) == Present(a) + Present(b)
  {
    if a == [] {
      assert a + b == b;
    } else {
      var head := if a[0].Some? then [a[0].value] else [];
      assert (a + b)[0] == a[0] && (a + b)[1..] == a[1..] + b;
      PresentAppend(a[1..], b);
      assert Present(a + b) == head + (Present(a[1..]) + Present(b));
      assert Present(a) == head + Present(a[1..]);
    }
  }

  /** If every non-null slot carries the rank `k + i` of its place `i`, the
      surviving entries are strictly increasing in rank: dropping nulls never
      reorders what is left. */
  lemma {:induction false} PresentRanked<T(!new)>(slots: seq<Option<T>>, rank: T -> int, k: int)
    requires forall i :: 0 <= i < |slots| && slots[i].Some? ==> rank(slots[i].value) == k + i
    ensures forall x :: x in Present(slots) ==> k <= rank(x) < k + |slots|
    ensures forall i, j :: 0 <= i < j < |Present(slots)| ==> rank(Present(slots)[i]) < rank(Present(slots)[j])
  {
    if slots != [] {
      var tail := slots[1..];
      forall i | 0 <= i < |tail| && tail[i].Some?
        ensures rank(tail[i].value) == (k + 1) + i
      {
        assert tail[i] == slots[i + 1];
      }
      PresentRanked(tail, rank, k + 1);
      var head := if slots[0].Some? then [slots[0].value] else [];
      assert Present(slots) == head + Present(tail);
      forall x | x in head ensures rank(x) == k {
        assert slots[0].Some? && x == slots[0].value;
      }
    }
  }
}
