/**
 * The two list rewrites every store operation is built from, and the
 * additive folds used to reason about them.
 *   MapWhere: `xs.map((x) => (x.id === id ? f(x) : x))`
 *   Without:  `xs.filter((x) => x.id !== id)`
 */
module Lists {
  import opened Records
  import opened ArrayMove

  /** Replaces every element whose key is `id` by its image under `f`; the others are kept as they are. */
  function MapWhere<T>(s: seq<T>, key: T -> Id, id: Id, f: T --> T): (r: seq<T>)
    requires forall i :: 0 <= i < |s| && key(s[i]) == id ==> f.requires(s[i])
    ensures |r| == |s|
    ensures forall i :: 0 <= i < |s| ==> r[i] == if key(s[i]) == id then f(s[i]) else s[i]
  {
    if s == [] then []
    else
      assert forall i :: 0 <= i < |s| - 1 ==> s[1..][i] == s[i + 1];
      [if key(s[0]) == id then f(s[0]) else s[0]] + MapWhere(s[1..], key, id, f)
  }

  /** Removes every element whose key is `id`. */
  function Without<T>(s: seq<T>, key: T -> Id, id: Id): (r: seq<T>)
    ensures |r| <= |s|
    ensures forall i :: 0 <= i < |r| ==> key(r[i]) != id
  {
    if s == [] then []
    else (if key(s[0]) == id then [] else [s[0]]) + Without(s[1..], key, id)
  }

  /** Exactly the occurrences with key `id` go; each other occurrence survives, as often as it occurred. */
  lemma {:induction false} WithoutOccurrences<T(!new)>(s: seq<T>, key: T -> Id, id: Id)
    ensures forall x :: multiset(Without(s, key, id))[x] == if key(x) == id then 0 else multiset(s)[x]
  {
    if s != [] {
      WithoutOccurrences(s[1..], key, id);
      assert s == [s[0]] + s[1..];
      var tail := Without(s[1..], key, id);
      assert Without(s, key, id) == (if key(s[0]) == id then [] else [s[0]]) + tail;
    }
  }

  /** `r` is `s` with some elements left out, the rest in their original order. */
  predicate IsSubsequence<T(==)>(r: seq<T>, s: seq<T>)
    decreases |s|
  {
    if r == [] then true
    else if s == [] then false
    else (r[0] == s[0] && IsSubsequence(r[1..], s[1..])) || IsSubsequence(r, s[1..])
  }

  /** The survivors of a filter keep their relative order. */
  lemma {:induction false} WithoutKeepsOrder<T>(s: seq<T>, key: T -> Id, id: Id)
    ensures IsSubsequence(Without(s, key, id), s)
  {
    if s != [] {
      WithoutKeepsOrder(s[1..], key, id);
      var tail := Without(s[1..], key, id);
      if key(s[0]) == id {
        assert Without(s, key, id) == tail;
        SubsequenceOfTail(tail, s);
      } else {
        assert Without(s, key, id) == [s[0]] + tail;
        assert ([s[0]] + tail)[1..] == tail;
      }
    }
  }

  lemma {:induction false} SubsequenceOfTail<T>(r: seq<T>, s: seq<T>)
    requires s != [] && IsSubsequence(r, s[1..])
    ensures IsSubsequence(r, s)
  {
  }

  /** A filter by an id that no element has returns the list unchanged. */
  lemma {:induction false} WithoutMissing<T>(s: seq<T>, key: T -> Id, id: Id)
    requires forall i :: 0 <= i < |s| ==> key(s[i]) != id
    ensures Without(s, key, id) == s
  {
    if s != [] {
      assert forall i :: 0 <= i < |s| - 1 ==> s[1..][i] == s[i + 1];
      WithoutMissing(s[1..], key, id);
      assert s == [s[0]] + s[1..];
    }
  }

  /** A map whose edit is the identity on every matching element returns the list unchanged. */
  lemma MapWhereIdentity<T>(s: seq<T>, key: T -> Id, id: Id, f: T --> T)
    requires forall i :: 0 <= i < |s| && key(s[i]) == id ==> f.requires(s[i]) && f(s[i]) == s[i]
    ensures MapWhere(s, key, id, f) == s
  {
  }

  /** At most one element of `s` has the key `id`. */
  predicate AtMostOne<T>(s: seq<T>, key: T -> Id, id: Id) {
    forall i, j :: 0 <= i < j < |s| && key(s[i]) == id ==> key(s[j]) != id
  }

  // ---------------------------------------------------------------------
  // Additive folds

  /** The multiset union of `ids` over the list. */
  function Bag<T>(s: seq<T>, ids: T -> multiset<Id>): multiset<Id> {
    if s == [] then multiset{} else ids(s[0]) + Bag(s[1..], ids)
  }

  /** The sum of `w` over the list. */
  function Sum<T>(s: seq<T>, w: T -> nat): nat {
    if s == [] then 0 else w(s[0]) + Sum(s[1..], w)
  }

  lemma {:induction false} BagConcat<T>(a: seq<T>, b: seq<T>, ids: T -> multiset<Id>)
    ensures Bag(a + b, ids) == Bag(a, ids) + Bag(b, ids)
  {
    if a == [] {
      assert a + b == b;
    } else {
      assert (a + b)[1..] == a[1..] + b;
      BagConcat(a[1..], b, ids);
    }
  }

  lemma {:induction false} SumConcat<T>(a: seq<T>, b: seq<T>, w: T -> nat)
    ensures Sum(a + b, w) == Sum(a, w) + Sum(b, w)
  {
    if a == [] {
      assert a + b == b;
    } else {
      assert (a + b)[1..] == a[1..] + b;
      SumConcat(a[1..], b, w);
    }
  }

  /** Each element's ids are part of the list's ids. */
  lemma BagElement<T>(s: seq<T>, ids: T -> multiset<Id>, i: nat)
    requires i < |s|
    ensures ids(s[i]) <= Bag(s, ids)
  {
    assert s == s[..i] + [s[i]] + s[i + 1..];
    BagConcat(s[..i] + [s[i]], s[i + 1..], ids);
    BagConcat(s[..i], [s[i]], ids);
    assert Bag([s[i]], ids) == ids(s[i]);
  }

  /** Two distinct elements both contribute to the list's ids. */
  lemma BagTwoElements<T>(s: seq<T>, ids: T -> multiset<Id>, i: nat, j: nat)
    requires i < j < |s|
    ensures ids(s[i]) + ids(s[j]) <= Bag(s, ids)
  {
    assert s == s[..j] + [s[j]] + s[j + 1..];
    BagConcat(s[..j] + [s[j]], s[j + 1..], ids);
    BagConcat(s[..j], [s[j]], ids);
    assert Bag([s[j]], ids) == ids(s[j]);
    BagElement(s[..j], ids, i);
  }

  /** When every element carries its own key and no id occurs twice, no key is shared. */
  lemma UniqueKeys<T>(s: seq<T>, key: T -> Id, ids: T -> multiset<Id>, id: Id)
    requires forall i :: 0 <= i < |s| ==> key(s[i]) in ids(s[i])
    requires Bag(s, ids)[id] <= 1
    ensures AtMostOne(s, key, id)
  {
    forall i, j | 0 <= i < j < |s| && key(s[i]) == id
      ensures key(s[j]) != id
    {
      BagTwoElements(s, ids, i, j);
    }
  }

  /**
   * A rewrite that keeps every element whose key is not `id` and grows the
   * ids of a matching element by at most `extra` grows the list's ids by at
   * most `extra`, provided `extra` is empty or at most one element matches.
   */
  lemma {:induction false} BagPointwise<T>(s: seq<T>, r: seq<T>, key: T -> Id, id: Id,
                                           ids: T -> multiset<Id>, extra: multiset<Id>)
    requires |r| == |s|
    requires forall i :: 0 <= i < |s| && key(s[i]) != id ==> r[i] == s[i]
    requires forall i :: 0 <= i < |s| && key(s[i]) == id ==> ids(r[i]) <= ids(s[i]) + extra
    requires extra == multiset{} || AtMostOne(s, key, id)
    ensures Bag(r, ids) <= Bag(s, ids) + extra
  {
    if s != [] {
      assert forall i :: 0 <= i < |s| - 1 ==> s[1..][i] == s[i + 1] && r[1..][i] == r[i + 1];
      if key(s[0]) == id && extra != multiset{} {
        assert r[1..] == s[1..];
      } else {
        BagPointwise(s[1..], r[1..], key, id, ids, extra);
      }
    }
  }

  /** A rewrite that keeps each element's ids keeps the list's ids. */
  lemma {:induction false} BagPointwiseSame<T>(s: seq<T>, r: seq<T>, ids: T -> multiset<Id>)
    requires |r| == |s|
    requires forall i :: 0 <= i < |s| ==> ids(r[i]) == ids(s[i])
    ensures Bag(r, ids) == Bag(s, ids)
  {
    if s != [] {
      assert forall i :: 0 <= i < |s| - 1 ==> s[1..][i] == s[i + 1] && r[1..][i] == r[i + 1];
      BagPointwiseSame(s[1..], r[1..], ids);
    }
  }

  /** A rewrite that keeps each element's weight keeps the list's sum. */
  lemma {:induction false} SumPointwiseSame<T>(s: seq<T>, r: seq<T>, w: T -> nat)
    requires |r| == |s|
    requires forall i :: 0 <= i < |s| ==> w(r[i]) == w(s[i])
    ensures Sum(r, w) == Sum(s, w)
  {
    if s != [] {
      assert forall i :: 0 <= i < |s| - 1 ==> s[1..][i] == s[i + 1] && r[1..][i] == r[i + 1];
      SumPointwiseSame(s[1..], r[1..], w);
    }
  }

  lemma {:induction false} BagWithout<T>(s: seq<T>, key: T -> Id, id: Id, ids: T -> multiset<Id>)
    ensures Bag(Without(s, key, id), ids) <= Bag(s, ids)
  {
    if s != [] {
      BagWithout(s[1..], key, id, ids);
      var tail := Without(s[1..], key, id);
      if key(s[0]) != id {
        assert Without(s, key, id) == [s[0]] + tail;
        assert ([s[0]] + tail)[1..] == tail;
      } else {
        assert Without(s, key, id) == tail;
      }
    }
  }

  /** A list is its prefix before `i`, its element at `i` and the rest. */
  lemma SplitAt<T>(s: seq<T>, i: nat)
    requires i < |s|
    ensures s == s[..i] + [s[i]] + s[i + 1..]
  {
  }

  /** A list is its prefix before `i` and the rest. */
  lemma SplitBefore<T>(s: seq<T>, i: nat)
    requires i <= |s|
    ensures s == s[..i] + s[i..]
  {
  }

  lemma BagSplit<T>(a: seq<T>, x: T, b: seq<T>, ids: T -> multiset<Id>)
    ensures Bag(a + [x] + b, ids) == Bag(a, ids) + ids(x) + Bag(b, ids)
  {
    BagConcat(a + [x], b, ids);
    BagConcat(a, [x], ids);
    assert [x][1..] == [];
  }

  /** The ids of the list are those of the removed element plus those of the rest. */
  lemma BagRemoveAt<T>(s: seq<T>, from: nat, ids: T -> multiset<Id>)
    requires from < |s|
    ensures Bag(s, ids) == Bag(RemoveAt(s, from), ids) + ids(s[from])
  {
    var a, b := s[..from], s[from + 1..];
    SplitAt(s, from);
    BagSplit(a, s[from], b, ids);
    BagConcat(a, b, ids);
  }

  lemma BagInsertAt<T>(s: seq<T>, to: nat, x: T, ids: T -> multiset<Id>)
    requires to <= |s|
    ensures Bag(InsertAt(s, to, x), ids) == Bag(s, ids) + ids(x)
  {
    var a, b := s[..to], s[to..];
    SplitBefore(s, to);
    BagConcat(a, b, ids);
    BagSplit(a, x, b, ids);
    assert InsertAt(s, to, x) == a + [x] + b;
  }

  /** A move relocates one element, so the list's ids stay the same. */
  lemma BagMove<T>(s: seq<T>, from: nat, to: nat, ids: T -> multiset<Id>)
    requires from < |s| && to < |s|
    ensures Bag(Move(s, from, to), ids) == Bag(s, ids)
  {
    BagRemoveAt(s, from, ids);
    BagInsertAt(RemoveAt(s, from), to, s[from], ids);
  }

  lemma SumSplit<T>(a: seq<T>, x: T, b: seq<T>, w: T -> nat)
    ensures Sum(a + [x] + b, w) == Sum(a, w) + w(x) + Sum(b, w)
  {
    SumConcat(a + [x], b, w);
    SumConcat(a, [x], w);
    assert [x][1..] == [];
  }

  lemma SumRemoveAt<T>(s: seq<T>, from: nat, w: T -> nat)
    requires from < |s|
    ensures Sum(s, w) == Sum(RemoveAt(s, from), w) + w(s[from])
  {
    var a, b := s[..from], s[from + 1..];
    SplitAt(s, from);
    SumSplit(a, s[from], b, w);
    SumConcat(a, b, w);
  }

  lemma SumInsertAt<T>(s: seq<T>, to: nat, x: T, w: T -> nat)
    requires to <= |s|
    ensures Sum(InsertAt(s, to, x), w) == Sum(s, w) + w(x)
  {
    var a, b := s[..to], s[to..];
    SplitBefore(s, to);
    SumConcat(a, b, w);
    SumSplit(a, x, b, w);
    assert InsertAt(s, to, x) == a + [x] + b;
  }

  lemma SumMove<T>(s: seq<T>, from: nat, to: nat, w: T -> nat)
    requires from < |s| && to < |s|
    ensures Sum(Move(s, from, to), w) == Sum(s, w)
  {
    SumRemoveAt(s, from, w);
    SumInsertAt(RemoveAt(s, from), to, s[from], w);
  }

  /** Removing the one element with key `id` (at index `k`) subtracts its weight. */
  lemma {:induction false} SumWithoutOne<T>(s: seq<T>, key: T -> Id, id: Id, w: T -> nat, k: nat)
    requires k < |s| && key(s[k]) == id
    requires forall i :: 0 <= i < |s| && i != k ==> key(s[i]) != id
    ensures Sum(Without(s, key, id), w) + w(s[k]) == Sum(s, w)
  {
    assert forall i :: 0 <= i < |s| - 1 ==> s[1..][i] == s[i + 1];
    var tail := Without(s[1..], key, id);
    if k == 0 {
      WithoutMissing(s[1..], key, id);
      assert Without(s, key, id) == tail;
    } else {
      SumWithoutOne(s[1..], key, id, w, k - 1);
      assert Without(s, key, id) == [s[0]] + tail;
      assert ([s[0]] + tail)[1..] == tail;
    }
  }
}
