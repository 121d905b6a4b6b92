/**
 * The sheet store: one mutable `topics` tree and the thirteen actions that
 * replace it. Each action assigns the field once, with the tree its
 * operation in `SheetOps` computes from the old one, as the store's `set`
 * does; and each keeps every id in the tree distinct, given a fresh id
 * where it creates an item.
 */
module Store {
  import opened Records
  import opened Ids
  import SheetOps

  class SheetStore {
    var topics: seq<Topic>

    /** No two topics, subtopics or questions anywhere in the tree share an id. */
    ghost predicate Valid()
      reads this
    {
      UniqueIds(topics)
    }

    /** The store starts from the seed tree. */
    constructor(initial: seq<Topic>)
      ensures topics == initial
      ensures UniqueIds(initial) ==> Valid()
    {
      topics := initial;
    }

    // -------------------------------------------------------------------
    // Topic actions

    method AddTopic(newId: Id, title: string)
      modifies this
      ensures topics == SheetOps.AddTopic(old(topics), newId, title)
      ensures TreeIds(topics) == TreeIds(old(topics)) + multiset{newId}
      ensures old(Valid()) && newId !in TreeIds(old(topics)) ==> Valid()
    {
      var before := topics;
      topics := SheetOps.AddTopic(topics, newId, title);
      AddTopicIds(before, newId, title);
    }

    method UpdateTopic(id: Id, title: string)
      modifies this
      ensures topics == SheetOps.UpdateTopic(old(topics), id, title)
      ensures TreeIds(topics) == TreeIds(old(topics))
      ensures old(Valid()) ==> Valid()
    {
      var before := topics;
      topics := SheetOps.UpdateTopic(topics, id, title);
      UpdateTopicIds(before, id, title);
      if UniqueIds(before) {
        UniqueAfter(before, topics, multiset{}, id);
      }
    }

    method DeleteTopic(id: Id)
      modifies this
      ensures topics == SheetOps.DeleteTopic(old(topics), id)
      ensures TreeIds(topics) <= TreeIds(old(topics))
      ensures old(Valid()) ==> Valid()
    {
      var before := topics;
      topics := SheetOps.DeleteTopic(topics, id);
      DeleteTopicIds(before, id);
      if UniqueIds(before) {
        UniqueAfter(before, topics, multiset{}, id);
      }
    }

    method ReorderTopics(fromIndex: nat, toIndex: nat)
      requires fromIndex < |topics| && toIndex < |topics|
      modifies this
      ensures topics == SheetOps.ReorderTopics(old(topics), fromIndex, toIndex)
      ensures TreeIds(topics) == TreeIds(old(topics))
      ensures old(Valid()) ==> Valid()
    {
      var before := topics;
      topics := SheetOps.ReorderTopics(topics, fromIndex, toIndex);
      ReorderTopicsIds(before, fromIndex, toIndex);
      if UniqueIds(before) {
        UniqueAfter(before, topics, multiset{}, "");
      }
    }

    // -------------------------------------------------------------------
    // Subtopic actions

    method AddSubTopic(topicId: Id, newId: Id, title: string)
      modifies this
      ensures topics == SheetOps.AddSubTopic(old(topics), topicId, newId, title)
      ensures old(Valid()) && newId !in TreeIds(old(topics)) ==> Valid()
    {
      var before := topics;
      topics := SheetOps.AddSubTopic(topics, topicId, newId, title);
      if UniqueIds(before) && newId !in TreeIds(before) {
        AddSubTopicIds(before, topicId, newId, title);
      }
    }

    method UpdateSubTopic(topicId: Id, subTopicId: Id, title: string)
      modifies this
      ensures topics == SheetOps.UpdateSubTopic(old(topics), topicId, subTopicId, title)
      ensures TreeIds(topics) == TreeIds(old(topics))
      ensures old(Valid()) ==> Valid()
    {
      var before := topics;
      topics := SheetOps.UpdateSubTopic(topics, topicId, subTopicId, title);
      UpdateSubTopicIds(before, topicId, subTopicId, title);
      if UniqueIds(before) {
        UniqueAfter(before, topics, multiset{}, "");
      }
    }

    method DeleteSubTopic(topicId: Id, subTopicId: Id)
      modifies this
      ensures topics == SheetOps.DeleteSubTopic(old(topics), topicId, subTopicId)
      ensures TreeIds(topics) <= TreeIds(old(topics))
      ensures old(Valid()) ==> Valid()
    {
      var before := topics;
      topics := SheetOps.DeleteSubTopic(topics, topicId, subTopicId);
      DeleteSubTopicIds(before, topicId, subTopicId);
      if UniqueIds(before) {
        UniqueAfter(before, topics, multiset{}, "");
      }
    }

    method ReorderSubTopics(topicId: Id, fromIndex: nat, toIndex: nat)
      requires forall i :: 0 <= i < |topics| && topics[i].id == topicId ==>
        fromIndex < |topics[i].subTopics| && toIndex < |topics[i].subTopics|
      modifies this
      ensures topics == SheetOps.ReorderSubTopics(old(topics), topicId, fromIndex, toIndex)
      ensures TreeIds(topics) == TreeIds(old(topics))
      ensures old(Valid()) ==> Valid()
    {
      var before := topics;
      topics := SheetOps.ReorderSubTopics(topics, topicId, fromIndex, toIndex);
      ReorderSubTopicsIds(before, topicId, fromIndex, toIndex);
      if UniqueIds(before) {
        UniqueAfter(before, topics, multiset{}, "");
      }
    }

    // -------------------------------------------------------------------
    // Question actions

    method AddQuestion(topicId: Id, subTopicId: Id, newId: Id, data: QuestionData)
      modifies this
      ensures topics == SheetOps.AddQuestion(old(topics), topicId, subTopicId, newId, data)
      ensures old(Valid()) && newId !in TreeIds(old(topics)) ==> Valid()
    {
      var before := topics;
      topics := SheetOps.AddQuestion(topics, topicId, subTopicId, newId, data);
      if UniqueIds(before) && newId !in TreeIds(before) {
        AddQuestionIds(before, topicId, subTopicId, newId, data);
      }
    }

    method UpdateQuestion(topicId: Id, subTopicId: Id, questionId: Id, patch: QuestionPatch)
      modifies this
      ensures topics == SheetOps.UpdateQuestion(old(topics), topicId, subTopicId, questionId, patch)
      ensures TreeIds(topics) == TreeIds(old(topics))
      ensures old(Valid()) ==> Valid()
    {
      var before := topics;
      topics := SheetOps.UpdateQuestion(topics, topicId, subTopicId, questionId, patch);
      UpdateQuestionIds(before, topicId, subTopicId, questionId, patch);
      if UniqueIds(before) {
        UniqueAfter(before, topics, multiset{}, "");
      }
    }

    method DeleteQuestion(topicId: Id, subTopicId: Id, questionId: Id)
      modifies this
      ensures topics == SheetOps.DeleteQuestion(old(topics), topicId, subTopicId, questionId)
      ensures TreeIds(topics) <= TreeIds(old(topics))
      ensures old(Valid()) ==> Valid()
    {
      var before := topics;
      topics := SheetOps.DeleteQuestion(topics, topicId, subTopicId, questionId);
      DeleteQuestionIds(before, topicId, subTopicId, questionId);
      if UniqueIds(before) {
        UniqueAfter(before, topics, multiset{}, "");
      }
    }

    method ToggleQuestion(topicId: Id, subTopicId: Id, questionId: Id)
      modifies this
      ensures topics == SheetOps.ToggleQuestion(old(topics), topicId, subTopicId, questionId)
      ensures TreeIds(topics) == TreeIds(old(topics))
      ensures old(Valid()) ==> Valid()
    {
      var before := topics;
      topics := SheetOps.ToggleQuestion(topics, topicId, subTopicId, questionId);
      ToggleQuestionIds(before, topicId, subTopicId, questionId);
      if UniqueIds(before) {
        UniqueAfter(before, topics, multiset{}, "");
      }
    }

    method ReorderQuestions(topicId: Id, subTopicId: Id, fromIndex: nat, toIndex: nat)
      requires forall i, j ::
        0 <= i < |topics| && topics[i].id == topicId && 0 <= j < |topics[i].subTopics| && topics[i].subTopics[j].id == subTopicId
        ==> fromIndex < |topics[i].subTopics[j].questions| && toIndex < |topics[i].subTopics[j].questions|
      modifies this
      ensures topics == SheetOps.ReorderQuestions(old(topics), topicId, subTopicId, fromIndex, toIndex)
      ensures TreeIds(topics) == TreeIds(old(topics))
      ensures old(Valid()) ==> Valid()
    {
      var before := topics;
      topics := SheetOps.ReorderQuestions(topics, topicId, subTopicId, fromIndex, toIndex);
      ReorderQuestionsIds(before, topicId, subTopicId, fromIndex, toIndex);
      if UniqueIds(before) {
        UniqueAfter(before, topics, multiset{}, "");
      }
    }
  }
}
