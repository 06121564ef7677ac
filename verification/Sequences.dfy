/** Slices and concatenations of sequences. */
module Sequences {

  lemma SliceOfSlice<T>(s: seq<T>, a: nat, b: nat, c: nat, d: nat)
    requires a <= b <= |s| && c <= d <= b - a
    ensures s[a..b][c..d] == s[a + c..a + d]
  {
    var x, y := s[a..b][c..d], s[a + c..a + d];
    assert forall i :: 0 <= i < |x| ==> x[i] == y[i];
  }

  function Concat<T>(parts: seq<seq<T>>): seq<T> {
    if parts == [] then [] else parts[0] + Concat(parts[1..])
  }

  lemma {:induction false} ConcatAppend<T>(left: seq<seq<T>>, right: seq<seq<T>>)
    ensures Concat(left + right) == Concat(left) + Concat(right)
  {
    if left == [] {
      assert left + right == right;
    } else {
      ConcatAppend(left[1..], right);
      assert (left + right)[1..] == left[1..] + right;
      Regroup(left[0], Concat(left[1..]), Concat(right));
    }
  }

  lemma Regroup<T>(a: seq<T>, b: seq<T>, c: seq<T>)
    ensures a + (b + c) == (a + b) + c
  {
  }

  lemma ConcatOne<T>(left: seq<seq<T>>, last: seq<T>)
    ensures Concat(left + [last]) == Concat(left) + last
  {
    ConcatAppend(left, [last]);
    assert Concat([last]) == last + Concat([]) == last;
  }

  lemma ConcatFirst<T>(parts: seq<seq<T>>, k: nat)
    requires k <= |parts|
    ensures Concat(parts[..k]) + Concat(parts[k..]) == Concat(parts)
  {
    ConcatAppend(parts[..k], parts[k..]);
    assert parts[..k] + parts[k..] == parts;
  }
}
