/**
 The two thread-safe containers the game store is built on, with their locks
 abstracted away: a FIFO queue (push at the back, non-blocking pop at the
 front) and an ordered vector (push-back and erase-if). Both are plain
 sequences here; the containers' own operations are the functions below.
 */
module Containers {

  datatype Option<T> = None | Some(value: T)

  /** Non-blocking pop: the front element and what is left, or nothing when the queue is empty. */
  function TryPop<T>(q: seq<T>): (r: Option<(T, seq<T>)>)
    ensures r.None? <==> q == []
    ensures r.Some? ==> [r.value.0] + r.value.1 == q
  {
    if q == [] then None else Some((q[0], q[1..]))
  }

  /** Pushing at the back and popping at the front is first-in first-out. */
  lemma {:induction false} PushThenPop<T>(q: seq<T>, x: T)
    ensures TryPop(q + [x]) == if q == [] then Some((x, [])) else Some((q[0], q[1..] + [x]))
  {
    if q != [] {
      assert (q + [x])[1..] == q[1..] + [x];
    }
  }

  /** Number of elements of `s` that `doomed` selects. */
  function CountIf<T>(s: seq<T>, doomed: T -> bool): (n: nat)
    ensures n <= |s|
  {
    if s == [] then 0 else (if doomed(s[0]) then 1 else 0) + CountIf(s[1..], doomed)
  }

  /** Erase-if: the elements of `s` that `doomed` does not select, in their original order. */
  function EraseIf<T>(s: seq<T>, doomed: T -> bool): (r: seq<T>)
    ensures |r| <= |s|
    ensures forall x :: x in r ==> x in s && !doomed(x)
  {
    if s == [] then []
    else (if doomed(s[0]) then [] else [s[0]]) + EraseIf(s[1..], doomed)
  }

  /** Erase-if removes exactly the selected elements: each survivor keeps its multiplicity, each selected one is gone. */
  lemma {:induction false} EraseIfMultiplicity<T>(s: seq<T>, doomed: T -> bool, x: T)
    ensures multiset(EraseIf(s, doomed))[x] == if doomed(x) then 0 else multiset(s)[x]
  {
    if s != [] {
      EraseIfMultiplicity(s[1..], doomed, x);
      assert s == [s[0]] + s[1..];
    }
  }

  /** Every element `doomed` does not select survives erase-if. */
  lemma {:induction false} EraseIfKeeps<T>(s: seq<T>, doomed: T -> bool, x: T)
    requires x in s && !doomed(x)
    ensures x in EraseIf(s, doomed)
  {
    EraseIfMultiplicity(s, doomed, x);
    assert multiset(EraseIf(s, doomed))[x] > 0;
  }

  /** The number of survivors is the original length minus the number of selected elements. */
  lemma {:induction false} EraseIfLength<T>(s: seq<T>, doomed: T -> bool)
    ensures |EraseIf(s, doomed)| == |s| - CountIf(s, doomed)
  {
    if s != [] {
      EraseIfLength(s[1..], doomed);
    }
  }

  /** Erase-if commutes with concatenation, so the survivors stay in their relative order. */
  lemma {:induction false} EraseIfAppend<T>(s: seq<T>, t: seq<T>, doomed: T -> bool)
    ensures EraseIf(s + t, doomed) == EraseIf(s, doomed) + EraseIf(t, doomed)
  {
    if s == [] {
      assert s + t == t;
    } else {
      assert (s + t)[1..] == s[1..] + t;
      EraseIfAppend(s[1..], t, doomed);
    }
  }

  /** A sequence with nothing selected is left as it is. */
  lemma {:induction false} EraseIfNothingDoomed<T>(s: seq<T>, doomed: T -> bool)
    requires forall i :: 0 <= i < |s| ==> !doomed(s[i])
    ensures EraseIf(s, doomed) == s
  {
    if s != [] {
      EraseIfNothingDoomed(s[1..], doomed);
    }
  }

  /** Erasing twice with the same predicate is the same as erasing once. */
  lemma EraseIfIdempotent<T>(s: seq<T>, doomed: T -> bool)
    ensures EraseIf(EraseIf(s, doomed), doomed) == EraseIf(s, doomed)
  {
    var r := EraseIf(s, doomed);
    forall i | 0 <= i < |r| ensures !doomed(r[i]) {
      assert r[i] in r;
    }
    EraseIfNothingDoomed(r, doomed);
  }
}
