/**
 * The sheet page's drag-end handler: it turns a drop of one topic card
 * onto another into a reorder of the topics, and ignores every other drop.
 */
module Drag {
  import opened Records
  import opened Lists
  import opened ArrayMove
  import opened SheetOps
  import opened Ids

  /** `s.findIndex((x) => key(x) === id)`: the first index whose key is `id`, or -1. */
  function FindIndex<T>(s: seq<T>, key: T -> Id, id: Id): (r: int)
    ensures -1 <= r < |s|
    ensures r == -1 <==> forall i :: 0 <= i < |s| ==> key(s[i]) != id
    ensures r != -1 ==> key(s[r]) == id && forall i :: 0 <= i < r ==> key(s[i]) != id
  {
    if s == [] then -1
    else if key(s[0]) == id then 0
    else
      var k := FindIndex(s[1..], key, id);
      if k == -1 then -1 else k + 1
  }

  /** The ids of the dragged item and of the item under it when released, if any. */
  datatype DragEnd = DragEnd(active: Id, over: Option<Id>)

  /** A drop that reaches the reorder: over some item, a different one, and both found. */
  predicate Effective(ts: seq<Topic>, e: DragEnd) {
    e.over.Some? && e.active != e.over.value &&
    FindIndex(ts, TopicKey, e.active) != -1 && FindIndex(ts, TopicKey, e.over.value) != -1
  }

  /** `handleDragEnd` of the sheet page, as the topic list it leaves in the store. */
  function HandleDragEnd(ts: seq<Topic>, e: DragEnd): (r: seq<Topic>)
    ensures |r| == |ts| && multiset(r) == multiset(ts)
  {
    if e.over.None? || e.active == e.over.value then ts
    else
      var oldIndex := FindIndex(ts, TopicKey, e.active);
      var newIndex := FindIndex(ts, TopicKey, e.over.value);
      if oldIndex != -1 && newIndex != -1 then ReorderTopics(ts, oldIndex, newIndex) else ts
  }

  /** The topics change exactly when the drop is effective. */
  lemma DragEndChangesIff(ts: seq<Topic>, e: DragEnd)
    ensures HandleDragEnd(ts, e) == ts <==> !Effective(ts, e)
  {
    if Effective(ts, e) {
      var i := FindIndex(ts, TopicKey, e.active);
      var j := FindIndex(ts, TopicKey, e.over.value);
      var r := HandleDragEnd(ts, e);
      assert r[j] == ts[i];
      assert r[j].id != ts[j].id;
    }
  }

  /** An effective drop puts the dragged topic where the target was, and keeps every topic and id. */
  lemma DragEndMoves(ts: seq<Topic>, e: DragEnd)
    requires Effective(ts, e)
    ensures var i := FindIndex(ts, TopicKey, e.active);
            var j := FindIndex(ts, TopicKey, e.over.value);
            var r := HandleDragEnd(ts, e);
            r == Move(ts, i, j) && r[j] == ts[i] && r[j].id == e.active &&
            multiset(r) == multiset(ts) && TreeIds(r) == TreeIds(ts)
  {
    var i := FindIndex(ts, TopicKey, e.active);
    var j := FindIndex(ts, TopicKey, e.over.value);
    ReorderTopicsIds(ts, i, j);
  }

  /** Dropping a topic one place down, onto its successor, swaps the two. */
  lemma DragOntoNext(a: Topic, b: Topic)
    requires a.id != b.id
    ensures HandleDragEnd([a, b], DragEnd(a.id, Some(b.id))) == [b, a]
  {
    assert FindIndex([a, b], TopicKey, a.id) == 0;
    assert FindIndex([a, b], TopicKey, b.id) == 1;
    var r := HandleDragEnd([a, b], DragEnd(a.id, Some(b.id)));
    assert r == Move([a, b], 0, 1);
    MoveAt([a, b], 0, 1, 0);
    MoveAt([a, b], 0, 1, 1);
  }
}
