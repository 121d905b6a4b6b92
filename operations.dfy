/**
 * The thirteen tree rewrites of the sheet store, one function per store
 * operation. Each takes the current topic list and returns the next one;
 * the store assigns the result to its `topics` field. A lookup by id
 * affects every element carrying that id, as `map`/`filter` do, and an id
 * that matches nothing leaves the tree unchanged. The adds take their new
 * id as a parameter: when several parents carry the target id, each gets
 * a child with that same id, where the store draws a new id per parent.
 */
module SheetOps {
  import opened Records
  import opened Lists
  import opened ArrayMove

  // ---------------------------------------------------------------------
  // Shapes of the results

  /** `r` is `s` with `x` added at the end. */
  predicate Appended<T(==)>(s: seq<T>, r: seq<T>, x: T) {
    |r| == |s| + 1 && r[..|s|] == s && r[|s|] == x
  }

  /** `r` is `s` after a filter removing exactly the elements with key `id`, in their original order. */
  ghost predicate RemovedById<T(!new)>(s: seq<T>, r: seq<T>, key: T -> Id, id: Id) {
    IsSubsequence(r, s) &&
    (forall i :: 0 <= i < |r| ==> key(r[i]) != id) &&
    (forall x :: multiset(r)[x] == if key(x) == id then 0 else multiset(s)[x])
  }

  /** Every topic keeps its id and title, and a topic whose id is not `topicId` is left identical. */
  predicate ScopedToTopic(ts: seq<Topic>, r: seq<Topic>, topicId: Id) {
    |r| == |ts| &&
    forall i :: 0 <= i < |ts| ==>
      r[i].id == ts[i].id && r[i].title == ts[i].title && (ts[i].id != topicId ==> r[i] == ts[i])
  }

  /** Every subtopic keeps its id and title, and one whose id is not `subTopicId` is left identical. */
  predicate ScopedToSubTopic(ss: seq<SubTopic>, r: seq<SubTopic>, subTopicId: Id) {
    |r| == |ss| &&
    forall j :: 0 <= j < |ss| ==>
      r[j].id == ss[j].id && r[j].title == ss[j].title && (ss[j].id != subTopicId ==> r[j] == ss[j])
  }

  /** Only the questions whose id is `questionId` change, each to `Toggle` of itself. */
  predicate ToggledWhere(qs: seq<Question>, r: seq<Question>, questionId: Id) {
    |r| == |qs| &&
    forall k :: 0 <= k < |qs| ==> r[k] == if qs[k].id == questionId then Toggle(qs[k]) else qs[k]
  }

  /** Only the questions whose id is `questionId` change, each to its merge with `patch`. */
  predicate MergedWhere(qs: seq<Question>, r: seq<Question>, questionId: Id, patch: QuestionPatch) {
    |r| == |qs| &&
    forall k :: 0 <= k < |qs| ==> r[k] == if qs[k].id == questionId then Merge(qs[k], patch) else qs[k]
  }

  lemma WithoutRemovesById<T(!new)>(s: seq<T>, key: T -> Id, id: Id)
    ensures RemovedById(s, Without(s, key, id), key, id)
  {
    WithoutKeepsOrder(s, key, id);
    WithoutOccurrences(s, key, id);
  }

  // ---------------------------------------------------------------------
  // The two spread levels

  /** `{ ...t, subTopics: edit(t.subTopics) }` for every topic whose id is `topicId`. */
  function InTopic(ts: seq<Topic>, topicId: Id, edit: seq<SubTopic> --> seq<SubTopic>): (r: seq<Topic>)
    requires forall i :: 0 <= i < |ts| && ts[i].id == topicId ==> edit.requires(ts[i].subTopics)
    ensures ScopedToTopic(ts, r, topicId)
    ensures forall i :: 0 <= i < |ts| && ts[i].id == topicId ==> r[i].subTopics == edit(ts[i].subTopics)
  {
    MapWhere(ts, TopicKey, topicId,
      (t: Topic) requires edit.requires(t.subTopics) => t.(subTopics := edit(t.subTopics)))
  }

  /** `{ ...s, questions: edit(s.questions) }` for every subtopic whose id is `subTopicId`. */
  function InSubTopic(ss: seq<SubTopic>, subTopicId: Id, edit: seq<Question> --> seq<Question>): (r: seq<SubTopic>)
    requires forall j :: 0 <= j < |ss| && ss[j].id == subTopicId ==> edit.requires(ss[j].questions)
    ensures ScopedToSubTopic(ss, r, subTopicId)
    ensures forall j :: 0 <= j < |ss| && ss[j].id == subTopicId ==> r[j].questions == edit(ss[j].questions)
  {
    MapWhere(ss, SubTopicKey, subTopicId,
      (s: SubTopic) requires edit.requires(s.questions) => s.(questions := edit(s.questions)))
  }

  // ---------------------------------------------------------------------
  // Topic operations

  function AddTopic(ts: seq<Topic>, newId: Id, title: string): (r: seq<Topic>)
    ensures Appended(ts, r, Topic(newId, title, []))
  {
    ts + [Topic(newId, title, [])]
  }

  function UpdateTopic(ts: seq<Topic>, id: Id, title: string): (r: seq<Topic>)
    ensures |r| == |ts|
    ensures forall i :: 0 <= i < |ts| ==>
      r[i].id == ts[i].id && r[i].subTopics == ts[i].subTopics &&
      r[i].title == (if ts[i].id == id then title else ts[i].title)
  {
    MapWhere(ts, TopicKey, id, (t: Topic) => t.(title := title))
  }

  function DeleteTopic(ts: seq<Topic>, id: Id): (r: seq<Topic>)
    ensures RemovedById(ts, r, TopicKey, id)
  {
    WithoutRemovesById(ts, TopicKey, id);
    Without(ts, TopicKey, id)
  }

  function ReorderTopics(ts: seq<Topic>, fromIndex: nat, toIndex: nat): (r: seq<Topic>)
    requires fromIndex < |ts| && toIndex < |ts|
    ensures |r| == |ts| && multiset(r) == multiset(ts) && r[toIndex] == ts[fromIndex]
  {
    Move(ts, fromIndex, toIndex)
  }

  // ---------------------------------------------------------------------
  // SubTopic operations

  function AddSubTopic(ts: seq<Topic>, topicId: Id, newId: Id, title: string): (r: seq<Topic>)
    ensures ScopedToTopic(ts, r, topicId)
    ensures forall i :: 0 <= i < |ts| && ts[i].id == topicId ==>
      Appended(ts[i].subTopics, r[i].subTopics, SubTopic(newId, title, []))
  {
    InTopic(ts, topicId, (ss: seq<SubTopic>) => ss + [SubTopic(newId, title, [])])
  }

  function UpdateSubTopic(ts: seq<Topic>, topicId: Id, subTopicId: Id, title: string): (r: seq<Topic>)
    ensures ScopedToTopic(ts, r, topicId)
    ensures forall i :: 0 <= i < |ts| && ts[i].id == topicId ==>
      |r[i].subTopics| == |ts[i].subTopics| &&
      forall j :: 0 <= j < |ts[i].subTopics| ==>
        r[i].subTopics[j].id == ts[i].subTopics[j].id &&
        r[i].subTopics[j].questions == ts[i].subTopics[j].questions &&
        r[i].subTopics[j].title == (if ts[i].subTopics[j].id == subTopicId then title else ts[i].subTopics[j].title)
  {
    InTopic(ts, topicId, (ss: seq<SubTopic>) => MapWhere(ss, SubTopicKey, subTopicId, (s: SubTopic) => s.(title := title)))
  }

  function DeleteSubTopic(ts: seq<Topic>, topicId: Id, subTopicId: Id): (r: seq<Topic>)
    ensures ScopedToTopic(ts, r, topicId)
    ensures forall i :: 0 <= i < |ts| && ts[i].id == topicId ==>
      RemovedById(ts[i].subTopics, r[i].subTopics, SubTopicKey, subTopicId)
  {
    var r := InTopic(ts, topicId, (ss: seq<SubTopic>) => Without(ss, SubTopicKey, subTopicId));
    assert forall i :: 0 <= i < |ts| && ts[i].id == topicId ==>
      RemovedById(ts[i].subTopics, r[i].subTopics, SubTopicKey, subTopicId) by {
      forall i | 0 <= i < |ts| && ts[i].id == topicId {
        WithoutRemovesById(ts[i].subTopics, SubTopicKey, subTopicId);
      }
    }
    r
  }

  function ReorderSubTopics(ts: seq<Topic>, topicId: Id, fromIndex: nat, toIndex: nat): (r: seq<Topic>)
    requires forall i :: 0 <= i < |ts| && ts[i].id == topicId ==>
      fromIndex < |ts[i].subTopics| && toIndex < |ts[i].subTopics|
    ensures ScopedToTopic(ts, r, topicId)
    ensures forall i :: 0 <= i < |ts| && ts[i].id == topicId ==>
      r[i].subTopics == Move(ts[i].subTopics, fromIndex, toIndex)
  {
    InTopic(ts, topicId,
      (ss: seq<SubTopic>) requires fromIndex < |ss| && toIndex < |ss| => Move(ss, fromIndex, toIndex))
  }

  // ---------------------------------------------------------------------
  // Question operations

  function AddQuestion(ts: seq<Topic>, topicId: Id, subTopicId: Id, newId: Id, data: QuestionData): (r: seq<Topic>)
    ensures ScopedToTopic(ts, r, topicId)
    ensures forall i :: 0 <= i < |ts| && ts[i].id == topicId ==>
      ScopedToSubTopic(ts[i].subTopics, r[i].subTopics, subTopicId) &&
      forall j :: 0 <= j < |ts[i].subTopics| && ts[i].subTopics[j].id == subTopicId ==>
        Appended(ts[i].subTopics[j].questions, r[i].subTopics[j].questions, NewQuestion(newId, data))
  {
    InTopic(ts, topicId,
      (ss: seq<SubTopic>) => InSubTopic(ss, subTopicId, (qs: seq<Question>) => qs + [NewQuestion(newId, data)]))
  }

  function UpdateQuestion(ts: seq<Topic>, topicId: Id, subTopicId: Id, questionId: Id, patch: QuestionPatch): (r: seq<Topic>)
    ensures ScopedToTopic(ts, r, topicId)
    ensures forall i :: 0 <= i < |ts| && ts[i].id == topicId ==>
      ScopedToSubTopic(ts[i].subTopics, r[i].subTopics, subTopicId) &&
      forall j :: 0 <= j < |ts[i].subTopics| && ts[i].subTopics[j].id == subTopicId ==>
        MergedWhere(ts[i].subTopics[j].questions, r[i].subTopics[j].questions, questionId, patch)
  {
    InTopic(ts, topicId,
      (ss: seq<SubTopic>) => InSubTopic(ss, subTopicId,
        (qs: seq<Question>) => MapWhere(qs, QuestionKey, questionId, (q: Question) => Merge(q, patch))))
  }

  function DeleteQuestion(ts: seq<Topic>, topicId: Id, subTopicId: Id, questionId: Id): (r: seq<Topic>)
    ensures ScopedToTopic(ts, r, topicId)
    ensures forall i :: 0 <= i < |ts| && ts[i].id == topicId ==>
      ScopedToSubTopic(ts[i].subTopics, r[i].subTopics, subTopicId) &&
      forall j :: 0 <= j < |ts[i].subTopics| && ts[i].subTopics[j].id == subTopicId ==>
        RemovedById(ts[i].subTopics[j].questions, r[i].subTopics[j].questions, QuestionKey, questionId)
  {
    var r := InTopic(ts, topicId,
      (ss: seq<SubTopic>) => InSubTopic(ss, subTopicId, (qs: seq<Question>) => Without(qs, QuestionKey, questionId)));
    assert forall i, j :: 0 <= i < |ts| && ts[i].id == topicId && 0 <= j < |ts[i].subTopics| && ts[i].subTopics[j].id == subTopicId ==>
      RemovedById(ts[i].subTopics[j].questions, r[i].subTopics[j].questions, QuestionKey, questionId) by {
      forall i, j | 0 <= i < |ts| && ts[i].id == topicId && 0 <= j < |ts[i].subTopics| && ts[i].subTopics[j].id == subTopicId {
        WithoutRemovesById(ts[i].subTopics[j].questions, QuestionKey, questionId);
      }
    }
    r
  }

  function ToggleQuestion(ts: seq<Topic>, topicId: Id, subTopicId: Id, questionId: Id): (r: seq<Topic>)
    ensures ScopedToTopic(ts, r, topicId)
    ensures forall i :: 0 <= i < |ts| && ts[i].id == topicId ==>
      ScopedToSubTopic(ts[i].subTopics, r[i].subTopics, subTopicId) &&
      forall j :: 0 <= j < |ts[i].subTopics| && ts[i].subTopics[j].id == subTopicId ==>
        ToggledWhere(ts[i].subTopics[j].questions, r[i].subTopics[j].questions, questionId)
  {
    InTopic(ts, topicId,
      (ss: seq<SubTopic>) => InSubTopic(ss, subTopicId,
        (qs: seq<Question>) => MapWhere(qs, QuestionKey, questionId, Toggle)))
  }

  function ReorderQuestions(ts: seq<Topic>, topicId: Id, subTopicId: Id, fromIndex: nat, toIndex: nat): (r: seq<Topic>)
    requires forall i, j :: 0 <= i < |ts| && ts[i].id == topicId && 0 <= j < |ts[i].subTopics| && ts[i].subTopics[j].id == subTopicId ==>
      fromIndex < |ts[i].subTopics[j].questions| && toIndex < |ts[i].subTopics[j].questions|
    ensures ScopedToTopic(ts, r, topicId)
    ensures forall i :: 0 <= i < |ts| && ts[i].id == topicId ==>
      ScopedToSubTopic(ts[i].subTopics, r[i].subTopics, subTopicId) &&
      forall j :: 0 <= j < |ts[i].subTopics| && ts[i].subTopics[j].id == subTopicId ==>
        r[i].subTopics[j].questions == Move(ts[i].subTopics[j].questions, fromIndex, toIndex)
  {
    InTopic(ts, topicId,
      (ss: seq<SubTopic>) requires QuestionIndicesFit(ss, subTopicId, fromIndex, toIndex) =>
        MoveQuestionsIn(ss, subTopicId, fromIndex, toIndex))
  }

  /** Both indices are valid for the questions of every subtopic with id `subTopicId`. */
  predicate QuestionIndicesFit(ss: seq<SubTopic>, subTopicId: Id, fromIndex: nat, toIndex: nat) {
    forall j :: 0 <= j < |ss| && ss[j].id == subTopicId ==>
      fromIndex < |ss[j].questions| && toIndex < |ss[j].questions|
  }

  /** The subtopic level of `reorderQuestions`. */
  function MoveQuestionsIn(ss: seq<SubTopic>, subTopicId: Id, fromIndex: nat, toIndex: nat): (r: seq<SubTopic>)
    requires QuestionIndicesFit(ss, subTopicId, fromIndex, toIndex)
    ensures ScopedToSubTopic(ss, r, subTopicId)
    ensures forall j :: 0 <= j < |ss| && ss[j].id == subTopicId ==>
      r[j].questions == Move(ss[j].questions, fromIndex, toIndex)
  {
    InSubTopic(ss, subTopicId,
      (qs: seq<Question>) requires fromIndex < |qs| && toIndex < |qs| => Move(qs, fromIndex, toIndex))
  }
}
