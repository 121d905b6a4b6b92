/**
 * Laws relating several calls of the store's tree rewrites: an operation
 * whose path names nothing changes nothing, a toggle undoes itself, and a
 * reorder is undone by the reverse reorder.
 */
module SheetLaws {
  import opened Records
  import opened Lists
  import opened ArrayMove
  import opened SheetOps

  /** No topic has the id `topicId`. */
  predicate NoTopic(ts: seq<Topic>, topicId: Id) {
    forall i :: 0 <= i < |ts| ==> ts[i].id != topicId
  }

  /** No topic with id `topicId` has a subtopic with id `subTopicId`. */
  predicate NoSubTopic(ts: seq<Topic>, topicId: Id, subTopicId: Id) {
    forall i, j :: 0 <= i < |ts| && ts[i].id == topicId && 0 <= j < |ts[i].subTopics| ==>
      ts[i].subTopics[j].id != subTopicId
  }

  /** No question with id `questionId` sits under the path `topicId`/`subTopicId`. */
  predicate NoQuestion(ts: seq<Topic>, topicId: Id, subTopicId: Id, questionId: Id) {
    forall i, j, k ::
      0 <= i < |ts| && ts[i].id == topicId && 0 <= j < |ts[i].subTopics| &&
      ts[i].subTopics[j].id == subTopicId && 0 <= k < |ts[i].subTopics[j].questions|
      ==> ts[i].subTopics[j].questions[k].id != questionId
  }

  // ---------------------------------------------------------------------
  // Equality from the scope predicates

  lemma TopicsEqual(ts: seq<Topic>, r: seq<Topic>, topicId: Id)
    requires ScopedToTopic(ts, r, topicId)
    requires forall i :: 0 <= i < |ts| && ts[i].id == topicId ==> r[i].subTopics == ts[i].subTopics
    ensures r == ts
  {
    assert forall i :: 0 <= i < |ts| ==> r[i] == ts[i];
  }

  lemma SubTopicsEqual(ss: seq<SubTopic>, r: seq<SubTopic>, subTopicId: Id)
    requires ScopedToSubTopic(ss, r, subTopicId)
    requires forall j :: 0 <= j < |ss| && ss[j].id == subTopicId ==> r[j].questions == ss[j].questions
    ensures r == ss
  {
    assert forall j :: 0 <= j < |ss| ==> r[j] == ss[j];
  }

  // ---------------------------------------------------------------------
  // Not found: silent no-ops

  lemma UpdateTopicMissing(ts: seq<Topic>, id: Id, title: string)
    requires NoTopic(ts, id)
    ensures UpdateTopic(ts, id, title) == ts
  {
    var r := UpdateTopic(ts, id, title);
    assert forall i :: 0 <= i < |ts| ==> r[i] == ts[i];
  }

  lemma DeleteTopicMissing(ts: seq<Topic>, id: Id)
    requires NoTopic(ts, id)
    ensures DeleteTopic(ts, id) == ts
  {
    WithoutMissing(ts, TopicKey, id);
  }

  lemma AddSubTopicMissing(ts: seq<Topic>, topicId: Id, newId: Id, title: string)
    requires NoTopic(ts, topicId)
    ensures AddSubTopic(ts, topicId, newId, title) == ts
  {
    TopicsEqual(ts, AddSubTopic(ts, topicId, newId, title), topicId);
  }

  lemma ReorderSubTopicsMissing(ts: seq<Topic>, topicId: Id, fromIndex: nat, toIndex: nat)
    requires NoTopic(ts, topicId)
    ensures ReorderSubTopics(ts, topicId, fromIndex, toIndex) == ts
  {
    TopicsEqual(ts, ReorderSubTopics(ts, topicId, fromIndex, toIndex), topicId);
  }

  lemma UpdateSubTopicMissing(ts: seq<Topic>, topicId: Id, subTopicId: Id, title: string)
    requires NoSubTopic(ts, topicId, subTopicId)
    ensures UpdateSubTopic(ts, topicId, subTopicId, title) == ts
  {
    var r := UpdateSubTopic(ts, topicId, subTopicId, title);
    forall i | 0 <= i < |ts| && ts[i].id == topicId
      ensures r[i].subTopics == ts[i].subTopics
    {
      assert forall j :: 0 <= j < |ts[i].subTopics| ==> r[i].subTopics[j] == ts[i].subTopics[j];
    }
    TopicsEqual(ts, r, topicId);
  }

  /** Deleting a subtopic id that the named topic does not hold leaves the tree unchanged. */
  lemma DeleteSubTopicMissing(ts: seq<Topic>, topicId: Id, subTopicId: Id)
    requires NoSubTopic(ts, topicId, subTopicId)
    ensures DeleteSubTopic(ts, topicId, subTopicId) == ts
  {
    var r := DeleteSubTopic(ts, topicId, subTopicId);
    forall i | 0 <= i < |ts| && ts[i].id == topicId
      ensures r[i].subTopics == ts[i].subTopics
    {
      WithoutMissing(ts[i].subTopics, SubTopicKey, subTopicId);
    }
    TopicsEqual(ts, r, topicId);
  }

  lemma AddQuestionMissing(ts: seq<Topic>, topicId: Id, subTopicId: Id, newId: Id, data: QuestionData)
    requires NoSubTopic(ts, topicId, subTopicId)
    ensures AddQuestion(ts, topicId, subTopicId, newId, data) == ts
  {
    var r := AddQuestion(ts, topicId, subTopicId, newId, data);
    forall i | 0 <= i < |ts| && ts[i].id == topicId
      ensures r[i].subTopics == ts[i].subTopics
    {
      SubTopicsEqual(ts[i].subTopics, r[i].subTopics, subTopicId);
    }
    TopicsEqual(ts, r, topicId);
  }

  lemma ReorderQuestionsMissing(ts: seq<Topic>, topicId: Id, subTopicId: Id, fromIndex: nat, toIndex: nat)
    requires NoSubTopic(ts, topicId, subTopicId)
    ensures ReorderQuestions(ts, topicId, subTopicId, fromIndex, toIndex) == ts
  {
    var r := ReorderQuestions(ts, topicId, subTopicId, fromIndex, toIndex);
    forall i | 0 <= i < |ts| && ts[i].id == topicId
      ensures r[i].subTopics == ts[i].subTopics
    {
      SubTopicsEqual(ts[i].subTopics, r[i].subTopics, subTopicId);
    }
    TopicsEqual(ts, r, topicId);
  }

  lemma UpdateQuestionMissing(ts: seq<Topic>, topicId: Id, subTopicId: Id, questionId: Id, patch: QuestionPatch)
    requires NoQuestion(ts, topicId, subTopicId, questionId)
    ensures UpdateQuestion(ts, topicId, subTopicId, questionId, patch) == ts
  {
    var r := UpdateQuestion(ts, topicId, subTopicId, questionId, patch);
    forall i | 0 <= i < |ts| && ts[i].id == topicId
      ensures r[i].subTopics == ts[i].subTopics
    {
      var ss, rs := ts[i].subTopics, r[i].subTopics;
      forall j | 0 <= j < |ss| && ss[j].id == subTopicId
        ensures rs[j].questions == ss[j].questions
      {
        assert forall k :: 0 <= k < |ss[j].questions| ==> rs[j].questions[k] == ss[j].questions[k];
      }
      SubTopicsEqual(ss, rs, subTopicId);
    }
    TopicsEqual(ts, r, topicId);
  }

  lemma DeleteQuestionMissing(ts: seq<Topic>, topicId: Id, subTopicId: Id, questionId: Id)
    requires NoQuestion(ts, topicId, subTopicId, questionId)
    ensures DeleteQuestion(ts, topicId, subTopicId, questionId) == ts
  {
    var r := DeleteQuestion(ts, topicId, subTopicId, questionId);
    forall i | 0 <= i < |ts| && ts[i].id == topicId
      ensures r[i].subTopics == ts[i].subTopics
    {
      var ss, rs := ts[i].subTopics, r[i].subTopics;
      forall j | 0 <= j < |ss| && ss[j].id == subTopicId
        ensures rs[j].questions == ss[j].questions
      {
        WithoutMissing(ss[j].questions, QuestionKey, questionId);
      }
      SubTopicsEqual(ss, rs, subTopicId);
    }
    TopicsEqual(ts, r, topicId);
  }

  lemma ToggleQuestionMissing(ts: seq<Topic>, topicId: Id, subTopicId: Id, questionId: Id)
    requires NoQuestion(ts, topicId, subTopicId, questionId)
    ensures ToggleQuestion(ts, topicId, subTopicId, questionId) == ts
  {
    var r := ToggleQuestion(ts, topicId, subTopicId, questionId);
    forall i | 0 <= i < |ts| && ts[i].id == topicId
      ensures r[i].subTopics == ts[i].subTopics
    {
      var ss, rs := ts[i].subTopics, r[i].subTopics;
      forall j | 0 <= j < |ss| && ss[j].id == subTopicId
        ensures rs[j].questions == ss[j].questions
      {
        assert forall k :: 0 <= k < |ss[j].questions| ==> rs[j].questions[k] == ss[j].questions[k];
      }
      SubTopicsEqual(ss, rs, subTopicId);
    }
    TopicsEqual(ts, r, topicId);
  }

  // ---------------------------------------------------------------------
  // Undo laws

  lemma ToggledTwice(qs: seq<Question>, mq: seq<Question>, rq: seq<Question>, questionId: Id)
    requires ToggledWhere(qs, mq, questionId) && ToggledWhere(mq, rq, questionId)
    ensures rq == qs
  {
    forall k | 0 <= k < |qs|
      ensures rq[k] == qs[k]
    {
      ToggleInvolution(qs[k]);
    }
  }

  /** Toggling the same path twice restores the original tree. */
  lemma ToggleQuestionTwice(ts: seq<Topic>, topicId: Id, subTopicId: Id, questionId: Id)
    ensures ToggleQuestion(ToggleQuestion(ts, topicId, subTopicId, questionId), topicId, subTopicId, questionId) == ts
  {
    var m := ToggleQuestion(ts, topicId, subTopicId, questionId);
    var r := ToggleQuestion(m, topicId, subTopicId, questionId);
    forall i | 0 <= i < |ts| && ts[i].id == topicId
      ensures r[i].subTopics == ts[i].subTopics
    {
      var ss, ms, rs := ts[i].subTopics, m[i].subTopics, r[i].subTopics;
      forall j | 0 <= j < |ss| && ss[j].id == subTopicId
        ensures rs[j].questions == ss[j].questions
      {
        ToggledTwice(ss[j].questions, ms[j].questions, rs[j].questions, questionId);
      }
      assert ScopedToSubTopic(ss, rs, subTopicId);
      SubTopicsEqual(ss, rs, subTopicId);
    }
    assert ScopedToTopic(ts, r, topicId);
    TopicsEqual(ts, r, topicId);
  }

  lemma ReorderTopicsRoundTrip(ts: seq<Topic>, fromIndex: nat, toIndex: nat)
    requires fromIndex < |ts| && toIndex < |ts|
    ensures ReorderTopics(ReorderTopics(ts, fromIndex, toIndex), toIndex, fromIndex) == ts
  {
    MoveRoundTrip(ts, fromIndex, toIndex);
  }

  /** Moving a subtopic back to where it came from restores the original tree. */
  lemma ReorderSubTopicsRoundTrip(ts: seq<Topic>, topicId: Id, fromIndex: nat, toIndex: nat)
    requires forall i :: 0 <= i < |ts| && ts[i].id == topicId ==>
      fromIndex < |ts[i].subTopics| && toIndex < |ts[i].subTopics|
    ensures ReorderSubTopics(ReorderSubTopics(ts, topicId, fromIndex, toIndex), topicId, toIndex, fromIndex) == ts
  {
    var m := ReorderSubTopics(ts, topicId, fromIndex, toIndex);
    var r := ReorderSubTopics(m, topicId, toIndex, fromIndex);
    forall i | 0 <= i < |ts| && ts[i].id == topicId
      ensures r[i].subTopics == ts[i].subTopics
    {
      MoveRoundTrip(ts[i].subTopics, fromIndex, toIndex);
    }
    TopicsEqual(ts, r, topicId);
  }

  /** Moving a question back to where it came from restores the original tree. */
  lemma ReorderQuestionsRoundTrip(ts: seq<Topic>, topicId: Id, subTopicId: Id, fromIndex: nat, toIndex: nat)
    requires forall i, j :: 0 <= i < |ts| && ts[i].id == topicId && 0 <= j < |ts[i].subTopics| && ts[i].subTopics[j].id == subTopicId ==>
      fromIndex < |ts[i].subTopics[j].questions| && toIndex < |ts[i].subTopics[j].questions|
    ensures ReorderQuestions(ReorderQuestions(ts, topicId, subTopicId, fromIndex, toIndex), topicId, subTopicId, toIndex, fromIndex) == ts
  {
    var m := ReorderQuestions(ts, topicId, subTopicId, fromIndex, toIndex);
    var r := ReorderQuestions(m, topicId, subTopicId, toIndex, fromIndex);
    forall i | 0 <= i < |ts| && ts[i].id == topicId
      ensures r[i].subTopics == ts[i].subTopics
    {
      var ss, rs := ts[i].subTopics, r[i].subTopics;
      forall j | 0 <= j < |ss| && ss[j].id == subTopicId
        ensures rs[j].questions == ss[j].questions
      {
        MoveRoundTrip(ss[j].questions, fromIndex, toIndex);
      }
      SubTopicsEqual(ss, rs, subTopicId);
    }
    TopicsEqual(ts, r, topicId);
  }
}
