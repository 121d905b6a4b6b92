/**
 * The positional move primitive `arrayMove`, shared by the three reorder
 * operations: take the element at `from` out of a copy of the list, then
 * reinsert it so that it ends up at index `to`.
 */
module ArrayMove {

  /** The copy after `newArr.splice(from, 1)`. */
  function RemoveAt<T>(s: seq<T>, from: nat): (r: seq<T>)
    requires from < |s|
    ensures |r| == |s| - 1
    ensures multiset(r) + multiset{s[from]} == multiset(s)
  {
    assert s == s[..from] + [s[from]] + s[from + 1..];
    s[..from] + s[from + 1..]
  }

  /** The copy after `newArr.splice(to, 0, item)`. */
  function InsertAt<T>(s: seq<T>, to: nat, x: T): (r: seq<T>)
    requires to <= |s|
    ensures |r| == |s| + 1 && r[to] == x
    ensures multiset(r) == multiset(s) + multiset{x}
  {
    assert s == s[..to] + s[to..];
    s[..to] + [x] + s[to..]
  }

  function Move<T>(s: seq<T>, from: nat, to: nat): (r: seq<T>)
    requires from < |s| && to < |s|
    ensures |r| == |s|
    ensures multiset(r) == multiset(s)
    ensures r[to] == s[from]
  {
    InsertAt(RemoveAt(s, from), to, s[from])
  }

  /**
   * Reference description of a stable single-element relocation: the index
   * of the input element that lands at index `k` of the output.
   */
  function Source(from: nat, to: nat, k: nat): nat {
    if k == to then from
    else if from < to && from <= k < to then k + 1
    else if to < from && to < k <= from then k - 1
    else k
  }

  /** Elements between `from` and `to` shift by one to close the gap; all others stay put. */
  lemma MoveAt<T>(s: seq<T>, from: nat, to: nat, k: nat)
    requires from < |s| && to < |s| && k < |s|
    ensures Source(from, to, k) < |s|
    ensures Move(s, from, to)[k] == s[Source(from, to, k)]
  {
    var rest := RemoveAt(s, from);
    if k != to {
      var j := if k < to then k else k - 1;
      InsertAtIndex(rest, to, s[from], k);
      RemoveAtIndex(s, from, j);
    }
  }

  lemma RemoveAtIndex<T>(s: seq<T>, from: nat, j: nat)
    requires from < |s| && j < |s| - 1
    ensures RemoveAt(s, from)[j] == if j < from then s[j] else s[j + 1]
  {
  }

  lemma InsertAtIndex<T>(s: seq<T>, to: nat, x: T, k: nat)
    requires to <= |s| && k <= |s|
    ensures InsertAt(s, to, x)[k] == if k < to then s[k] else if k == to then x else s[k - 1]
  {
  }

  /** Moving an element onto its own index changes nothing. */
  lemma MoveSameIndex<T>(s: seq<T>, i: nat)
    requires i < |s|
    ensures Move(s, i, i) == s
  {
    forall k | 0 <= k < |s|
      ensures Move(s, i, i)[k] == s[k]
    {
      MoveAt(s, i, i, k);
    }
  }

  /** Moving back from `to` to `from` undoes a move, whether or not elements repeat. */
  lemma MoveRoundTrip<T>(s: seq<T>, from: nat, to: nat)
    requires from < |s| && to < |s|
    ensures Move(Move(s, from, to), to, from) == s
  {
    var once := Move(s, from, to);
    forall k | 0 <= k < |s|
      ensures Move(once, to, from)[k] == s[k]
    {
      var j := Source(to, from, k);
      MoveAt(once, to, from, k);
      MoveAt(s, from, to, j);
      SourceInverse(from, to, k);
    }
  }

  lemma SourceInverse(from: nat, to: nat, k: nat)
    ensures Source(from, to, Source(to, from, k)) == k
  {
  }

  /** `[A, B, C]` moved from 0 to 2 is `[B, C, A]`. */
  lemma MoveFirstToLast<T>(a: T, b: T, c: T)
    ensures Move([a, b, c], 0, 2) == [b, c, a]
  {
    assert RemoveAt([a, b, c], 0) == [b, c];
  }
}
