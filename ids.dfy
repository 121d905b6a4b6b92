/**
 * The identifiers of a tree, and the invariant that no id occurs twice.
 * Operations other than the adds never create, drop or rename an id except
 * by deleting the entity that carries it; an add with a fresh id keeps the
 * ids unique.
 */
module Ids {
  import opened Records
  import opened Lists
  import opened ArrayMove
  import opened SheetOps

  function QuestionIds(q: Question): multiset<Id> { multiset{q.id} }

  function SubTopicIds(s: SubTopic): multiset<Id> {
    multiset{s.id} + Bag(s.questions, QuestionIds)
  }

  function TopicIds(t: Topic): multiset<Id> {
    multiset{t.id} + Bag(t.subTopics, SubTopicIds)
  }

  /** Every id in the tree, with its number of occurrences. */
  function TreeIds(ts: seq<Topic>): multiset<Id> {
    Bag(ts, TopicIds)
  }

  /** No id occurs twice anywhere in the tree. */
  ghost predicate UniqueIds(ts: seq<Topic>) {
    forall x :: TreeIds(ts)[x] <= 1
  }

  /** A tree whose ids grew at most by one fresh id is still free of duplicates. */
  lemma UniqueAfter(ts: seq<Topic>, r: seq<Topic>, extra: multiset<Id>, newId: Id)
    requires UniqueIds(ts)
    requires TreeIds(r) <= TreeIds(ts) + extra
    requires extra == multiset{} || (extra == multiset{newId} && newId !in TreeIds(ts))
    ensures UniqueIds(r)
  {
    forall x ensures TreeIds(r)[x] <= 1 {
      assert TreeIds(r)[x] <= TreeIds(ts)[x] + extra[x];
    }
  }

  // ---------------------------------------------------------------------
  // Bounds inherited by the levels below a unique tree

  lemma UniqueTopicKeys(ts: seq<Topic>, topicId: Id)
    requires UniqueIds(ts)
    ensures AtMostOne(ts, TopicKey, topicId)
  {
    assert TreeIds(ts)[topicId] <= 1;
    UniqueKeys(ts, TopicKey, TopicIds, topicId);
  }

  lemma UniqueSubTopicKeys(ts: seq<Topic>, i: nat, subTopicId: Id)
    requires UniqueIds(ts) && i < |ts|
    ensures AtMostOne(ts[i].subTopics, SubTopicKey, subTopicId)
  {
    BagElement(ts, TopicIds, i);
    assert Bag(ts[i].subTopics, SubTopicIds)[subTopicId] <= TreeIds(ts)[subTopicId];
    UniqueKeys(ts[i].subTopics, SubTopicKey, SubTopicIds, subTopicId);
  }

  // ---------------------------------------------------------------------
  // Per-level facts

  /** A topic rewrite that keeps the ids of every topic keeps the tree's ids. */
  lemma TopicsSameIds(ts: seq<Topic>, r: seq<Topic>, topicId: Id)
    requires ScopedToTopic(ts, r, topicId)
    requires forall i :: 0 <= i < |ts| && ts[i].id == topicId ==>
      Bag(r[i].subTopics, SubTopicIds) == Bag(ts[i].subTopics, SubTopicIds)
    ensures TreeIds(r) == TreeIds(ts)
  {
    BagPointwiseSame(ts, r, TopicIds);
  }

  lemma SubTopicsSameIds(ss: seq<SubTopic>, r: seq<SubTopic>, subTopicId: Id)
    requires ScopedToSubTopic(ss, r, subTopicId)
    requires forall j :: 0 <= j < |ss| && ss[j].id == subTopicId ==>
      Bag(r[j].questions, QuestionIds) == Bag(ss[j].questions, QuestionIds)
    ensures Bag(r, SubTopicIds) == Bag(ss, SubTopicIds)
  {
    BagPointwiseSame(ss, r, SubTopicIds);
  }

  lemma QuestionsSameIds(qs: seq<Question>, r: seq<Question>)
    requires |r| == |qs|
    requires forall k :: 0 <= k < |qs| ==> r[k].id == qs[k].id
    ensures Bag(r, QuestionIds) == Bag(qs, QuestionIds)
  {
    BagPointwiseSame(qs, r, QuestionIds);
  }

  lemma TopicsFewerIds(ts: seq<Topic>, r: seq<Topic>, topicId: Id, extra: multiset<Id>)
    requires ScopedToTopic(ts, r, topicId)
    requires forall i :: 0 <= i < |ts| && ts[i].id == topicId ==>
      Bag(r[i].subTopics, SubTopicIds) <= Bag(ts[i].subTopics, SubTopicIds) + extra
    requires extra == multiset{} || AtMostOne(ts, TopicKey, topicId)
    ensures TreeIds(r) <= TreeIds(ts) + extra
  {
    BagPointwise(ts, r, TopicKey, topicId, TopicIds, extra);
  }

  lemma SubTopicsFewerIds(ss: seq<SubTopic>, r: seq<SubTopic>, subTopicId: Id, extra: multiset<Id>)
    requires ScopedToSubTopic(ss, r, subTopicId)
    requires forall j :: 0 <= j < |ss| && ss[j].id == subTopicId ==>
      Bag(r[j].questions, QuestionIds) <= Bag(ss[j].questions, QuestionIds) + extra
    requires extra == multiset{} || AtMostOne(ss, SubTopicKey, subTopicId)
    ensures Bag(r, SubTopicIds) <= Bag(ss, SubTopicIds) + extra
  {
    BagPointwise(ss, r, SubTopicKey, subTopicId, SubTopicIds, extra);
  }

  lemma BagAppend<T>(s: seq<T>, x: T, ids: T -> multiset<Id>)
    ensures Bag(s + [x], ids) == Bag(s, ids) + ids(x)
  {
    BagConcat(s, [x], ids);
    assert Bag([x], ids) == ids(x);
  }

  // ---------------------------------------------------------------------
  // Ids under each operation

  lemma AddTopicIds(ts: seq<Topic>, newId: Id, title: string)
    ensures TreeIds(AddTopic(ts, newId, title)) == TreeIds(ts) + multiset{newId}
    ensures UniqueIds(ts) && newId !in TreeIds(ts) ==> UniqueIds(AddTopic(ts, newId, title))
  {
    BagAppend(ts, Topic(newId, title, []), TopicIds);
    assert AddTopic(ts, newId, title) == ts + [Topic(newId, title, [])];
    if UniqueIds(ts) && newId !in TreeIds(ts) {
      UniqueAfter(ts, AddTopic(ts, newId, title), multiset{newId}, newId);
    }
  }

  lemma UpdateTopicIds(ts: seq<Topic>, id: Id, title: string)
    ensures TreeIds(UpdateTopic(ts, id, title)) == TreeIds(ts)
  {
    BagPointwiseSame(ts, UpdateTopic(ts, id, title), TopicIds);
  }

  lemma DeleteTopicIds(ts: seq<Topic>, id: Id)
    ensures TreeIds(DeleteTopic(ts, id)) <= TreeIds(ts)
  {
    BagWithout(ts, TopicKey, id, TopicIds);
  }

  lemma ReorderTopicsIds(ts: seq<Topic>, fromIndex: nat, toIndex: nat)
    requires fromIndex < |ts| && toIndex < |ts|
    ensures TreeIds(ReorderTopics(ts, fromIndex, toIndex)) == TreeIds(ts)
  {
    BagMove(ts, fromIndex, toIndex, TopicIds);
  }

  lemma AddSubTopicIds(ts: seq<Topic>, topicId: Id, newId: Id, title: string)
    requires UniqueIds(ts) && newId !in TreeIds(ts)
    ensures TreeIds(AddSubTopic(ts, topicId, newId, title)) <= TreeIds(ts) + multiset{newId}
    ensures UniqueIds(AddSubTopic(ts, topicId, newId, title))
  {
    var r := AddSubTopic(ts, topicId, newId, title);
    forall i | 0 <= i < |ts| && ts[i].id == topicId
      ensures Bag(r[i].subTopics, SubTopicIds) <= Bag(ts[i].subTopics, SubTopicIds) + multiset{newId}
    {
      assert r[i].subTopics == ts[i].subTopics + [SubTopic(newId, title, [])];
      BagAppend(ts[i].subTopics, SubTopic(newId, title, []), SubTopicIds);
    }
    UniqueTopicKeys(ts, topicId);
    TopicsFewerIds(ts, r, topicId, multiset{newId});
    UniqueAfter(ts, r, multiset{newId}, newId);
  }

  lemma UpdateSubTopicIds(ts: seq<Topic>, topicId: Id, subTopicId: Id, title: string)
    ensures TreeIds(UpdateSubTopic(ts, topicId, subTopicId, title)) == TreeIds(ts)
  {
    var r := UpdateSubTopic(ts, topicId, subTopicId, title);
    forall i | 0 <= i < |ts| && ts[i].id == topicId
      ensures Bag(r[i].subTopics, SubTopicIds) == Bag(ts[i].subTopics, SubTopicIds)
    {
      BagPointwiseSame(ts[i].subTopics, r[i].subTopics, SubTopicIds);
    }
    TopicsSameIds(ts, r, topicId);
  }

  lemma DeleteSubTopicIds(ts: seq<Topic>, topicId: Id, subTopicId: Id)
    ensures TreeIds(DeleteSubTopic(ts, topicId, subTopicId)) <= TreeIds(ts)
  {
    var r := DeleteSubTopic(ts, topicId, subTopicId);
    forall i | 0 <= i < |ts| && ts[i].id == topicId
      ensures Bag(r[i].subTopics, SubTopicIds) <= Bag(ts[i].subTopics, SubTopicIds) + multiset{}
    {
      SubTopicsOfDelete(ts, topicId, subTopicId, i);
      BagWithout(ts[i].subTopics, SubTopicKey, subTopicId, SubTopicIds);
    }
    TopicsFewerIds(ts, r, topicId, multiset{});
  }

  lemma SubTopicsOfDelete(ts: seq<Topic>, topicId: Id, subTopicId: Id, i: nat)
    requires i < |ts| && ts[i].id == topicId
    ensures DeleteSubTopic(ts, topicId, subTopicId)[i].subTopics == Without(ts[i].subTopics, SubTopicKey, subTopicId)
  {
  }

  lemma ReorderSubTopicsIds(ts: seq<Topic>, topicId: Id, fromIndex: nat, toIndex: nat)
    requires forall i :: 0 <= i < |ts| && ts[i].id == topicId ==>
      fromIndex < |ts[i].subTopics| && toIndex < |ts[i].subTopics|
    ensures TreeIds(ReorderSubTopics(ts, topicId, fromIndex, toIndex)) == TreeIds(ts)
  {
    var r := ReorderSubTopics(ts, topicId, fromIndex, toIndex);
    forall i | 0 <= i < |ts| && ts[i].id == topicId
      ensures Bag(r[i].subTopics, SubTopicIds) == Bag(ts[i].subTopics, SubTopicIds)
    {
      BagMove(ts[i].subTopics, fromIndex, toIndex, SubTopicIds);
    }
    TopicsSameIds(ts, r, topicId);
  }

  lemma AddQuestionIds(ts: seq<Topic>, topicId: Id, subTopicId: Id, newId: Id, data: QuestionData)
    requires UniqueIds(ts) && newId !in TreeIds(ts)
    ensures TreeIds(AddQuestion(ts, topicId, subTopicId, newId, data)) <= TreeIds(ts) + multiset{newId}
    ensures UniqueIds(AddQuestion(ts, topicId, subTopicId, newId, data))
  {
    var r := AddQuestion(ts, topicId, subTopicId, newId, data);
    var extra := multiset{newId};
    forall i | 0 <= i < |ts| && ts[i].id == topicId
      ensures Bag(r[i].subTopics, SubTopicIds) <= Bag(ts[i].subTopics, SubTopicIds) + extra
    {
      var ss, rs := ts[i].subTopics, r[i].subTopics;
      forall j | 0 <= j < |ss| && ss[j].id == subTopicId
        ensures Bag(rs[j].questions, QuestionIds) <= Bag(ss[j].questions, QuestionIds) + extra
      {
        assert rs[j].questions == ss[j].questions + [NewQuestion(newId, data)];
        BagAppend(ss[j].questions, NewQuestion(newId, data), QuestionIds);
      }
      UniqueSubTopicKeys(ts, i, subTopicId);
      SubTopicsFewerIds(ss, rs, subTopicId, extra);
    }
    UniqueTopicKeys(ts, topicId);
    TopicsFewerIds(ts, r, topicId, extra);
    UniqueAfter(ts, r, extra, newId);
  }

  lemma UpdateQuestionIds(ts: seq<Topic>, topicId: Id, subTopicId: Id, questionId: Id, patch: QuestionPatch)
    ensures TreeIds(UpdateQuestion(ts, topicId, subTopicId, questionId, patch)) == TreeIds(ts)
  {
    var r := UpdateQuestion(ts, topicId, subTopicId, questionId, patch);
    forall i | 0 <= i < |ts| && ts[i].id == topicId
      ensures Bag(r[i].subTopics, SubTopicIds) == Bag(ts[i].subTopics, SubTopicIds)
    {
      var ss, rs := ts[i].subTopics, r[i].subTopics;
      forall j | 0 <= j < |ss| && ss[j].id == subTopicId
        ensures Bag(rs[j].questions, QuestionIds) == Bag(ss[j].questions, QuestionIds)
      {
        QuestionsSameIds(ss[j].questions, rs[j].questions);
      }
      SubTopicsSameIds(ss, rs, subTopicId);
    }
    TopicsSameIds(ts, r, topicId);
  }

  lemma DeleteQuestionIds(ts: seq<Topic>, topicId: Id, subTopicId: Id, questionId: Id)
    ensures TreeIds(DeleteQuestion(ts, topicId, subTopicId, questionId)) <= TreeIds(ts)
  {
    var r := DeleteQuestion(ts, topicId, subTopicId, questionId);
    var none: multiset<Id> := multiset{};
    forall i | 0 <= i < |ts| && ts[i].id == topicId
      ensures Bag(r[i].subTopics, SubTopicIds) <= Bag(ts[i].subTopics, SubTopicIds) + none
    {
      var ss, rs := ts[i].subTopics, r[i].subTopics;
      forall j | 0 <= j < |ss| && ss[j].id == subTopicId
        ensures Bag(rs[j].questions, QuestionIds) <= Bag(ss[j].questions, QuestionIds) + none
      {
        QuestionsOfDelete(ts, topicId, subTopicId, questionId, i, j);
        BagWithout(ss[j].questions, QuestionKey, questionId, QuestionIds);
      }
      SubTopicsFewerIds(ss, rs, subTopicId, none);
    }
    TopicsFewerIds(ts, r, topicId, none);
  }

  lemma QuestionsOfDelete(ts: seq<Topic>, topicId: Id, subTopicId: Id, questionId: Id, i: nat, j: nat)
    requires i < |ts| && ts[i].id == topicId && j < |ts[i].subTopics| && ts[i].subTopics[j].id == subTopicId
    ensures j < |DeleteQuestion(ts, topicId, subTopicId, questionId)[i].subTopics|
    ensures DeleteQuestion(ts, topicId, subTopicId, questionId)[i].subTopics[j].questions
         == Without(ts[i].subTopics[j].questions, QuestionKey, questionId)
  {
  }

  lemma ToggleQuestionIds(ts: seq<Topic>, topicId: Id, subTopicId: Id, questionId: Id)
    ensures TreeIds(ToggleQuestion(ts, topicId, subTopicId, questionId)) == TreeIds(ts)
  {
    var r := ToggleQuestion(ts, topicId, subTopicId, questionId);
    forall i | 0 <= i < |ts| && ts[i].id == topicId
      ensures Bag(r[i].subTopics, SubTopicIds) == Bag(ts[i].subTopics, SubTopicIds)
    {
      var ss, rs := ts[i].subTopics, r[i].subTopics;
      forall j | 0 <= j < |ss| && ss[j].id == subTopicId
        ensures Bag(rs[j].questions, QuestionIds) == Bag(ss[j].questions, QuestionIds)
      {
        QuestionsSameIds(ss[j].questions, rs[j].questions);
      }
      SubTopicsSameIds(ss, rs, subTopicId);
    }
    TopicsSameIds(ts, r, topicId);
  }

  lemma ReorderQuestionsIds(ts: seq<Topic>, topicId: Id, subTopicId: Id, fromIndex: nat, toIndex: nat)
    requires forall i, j :: 0 <= i < |ts| && ts[i].id == topicId && 0 <= j < |ts[i].subTopics| && ts[i].subTopics[j].id == subTopicId ==>
      fromIndex < |ts[i].subTopics[j].questions| && toIndex < |ts[i].subTopics[j].questions|
    ensures TreeIds(ReorderQuestions(ts, topicId, subTopicId, fromIndex, toIndex)) == TreeIds(ts)
  {
    var r := ReorderQuestions(ts, topicId, subTopicId, fromIndex, toIndex);
    forall i | 0 <= i < |ts| && ts[i].id == topicId
      ensures Bag(r[i].subTopics, SubTopicIds) == Bag(ts[i].subTopics, SubTopicIds)
    {
      var ss, rs := ts[i].subTopics, r[i].subTopics;
      forall j | 0 <= j < |ss| && ss[j].id == subTopicId
        ensures Bag(rs[j].questions, QuestionIds) == Bag(ss[j].questions, QuestionIds)
      {
        BagMove(ss[j].questions, fromIndex, toIndex, QuestionIds);
      }
      SubTopicsSameIds(ss, rs, subTopicId);
    }
    TopicsSameIds(ts, r, topicId);
  }
}
