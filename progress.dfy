/**
 * The completion counts the pages derive from the tree: per subtopic
 * (SubTopicSection), per topic (TopicCard) and for the whole sheet (Index).
 * Each is recomputed from the current tree; none is stored.
 */
module Progress {
  import opened Records
  import opened Lists
  import opened ArrayMove
  import opened SheetOps
  import opened Ids

  /** `xs.reduce((sum, x) => sum + w(x), acc)`: a left fold from the accumulator, which adds up the weights. */
  function Reduce<T>(s: seq<T>, w: T -> nat, acc: nat): (r: nat)
    ensures r == acc + Sum(s, w)
  {
    if s == [] then acc else Reduce(s[1..], w, acc + w(s[0]))
  }

  /** `questions.filter((q) => q.completed)`: it keeps every completed question and nothing else. */
  function Solved(qs: seq<Question>): (r: seq<Question>)
    ensures |r| <= |qs|
    ensures forall k :: 0 <= k < |r| ==> r[k].completed
    ensures forall k :: 0 <= k < |qs| && qs[k].completed ==> qs[k] in r
  {
    if qs == [] then []
    else
      assert forall k :: 0 < k < |qs| ==> qs[k] == qs[1..][k - 1];
      (if qs[0].completed then [qs[0]] else []) + Solved(qs[1..])
  }

  /** Each completed question survives the filter as often as it occurs; no other question does. */
  lemma {:induction false} SolvedOccurrences(qs: seq<Question>)
    ensures forall x :: multiset(Solved(qs))[x] == if x.completed then multiset(qs)[x] else 0
  {
    if qs != [] {
      SolvedOccurrences(qs[1..]);
      assert qs == [qs[0]] + qs[1..];
      var head := if qs[0].completed then [qs[0]] else [];
      assert Solved(qs) == head + Solved(qs[1..]);
    }
  }

  /** The filter keeps every question exactly when every question is completed. */
  lemma {:induction false} SolvedAllIff(qs: seq<Question>)
    ensures |Solved(qs)| == |qs| <==> forall k :: 0 <= k < |qs| ==> qs[k].completed
  {
    if qs != [] {
      var head := if qs[0].completed then [qs[0]] else [];
      assert Solved(qs) == head + Solved(qs[1..]);
      SolvedAllIff(qs[1..]);
      assert forall k :: 0 <= k < |qs| - 1 ==> qs[1..][k] == qs[k + 1];
    }
  }

  /** The filter keeps nothing exactly when no question is completed. */
  lemma {:induction false} SolvedNoneIff(qs: seq<Question>)
    ensures |Solved(qs)| == 0 <==> forall k :: 0 <= k < |qs| ==> !qs[k].completed
  {
    if qs != [] {
      var head := if qs[0].completed then [qs[0]] else [];
      assert Solved(qs) == head + Solved(qs[1..]);
      SolvedNoneIff(qs[1..]);
      assert forall k :: 0 <= k < |qs| - 1 ==> qs[1..][k] == qs[k + 1];
    }
  }

  /** `total` of a subtopic section. */
  function SubTopicTotal(st: SubTopic): (n: nat)
    ensures SubTopicCompleted(st) <= n
    ensures n == 0 <==> st.questions == []
  {
    |st.questions|
  }

  /** `completed` of a subtopic section: all of its questions exactly when all are completed, none exactly when none is. */
  function SubTopicCompleted(st: SubTopic): (n: nat)
    ensures n <= |st.questions|
    ensures n == |st.questions| <==> forall k :: 0 <= k < |st.questions| ==> st.questions[k].completed
    ensures n == 0 <==> forall k :: 0 <= k < |st.questions| ==> !st.questions[k].completed
  {
    SolvedAllIff(st.questions);
    SolvedNoneIff(st.questions);
    |Solved(st.questions)|
  }

  /** `totalQuestions` of a topic card: the sum of its sections' totals, which is the number of its questions. */
  function TopicTotal(t: Topic): (n: nat)
    ensures n == Sum(t.subTopics, SubTopicTotal)
    ensures n == |QuestionsOf(t.subTopics)|
  {
    SubTopicCounts(t.subTopics);
    Reduce(t.subTopics, SubTopicTotal, 0)
  }

  /** `completedQuestions` of a topic card: the sum of its sections' counts, which is the number of its completed questions. */
  function TopicCompleted(t: Topic): (n: nat)
    ensures n == Sum(t.subTopics, SubTopicCompleted)
    ensures n == |Solved(QuestionsOf(t.subTopics))|
    ensures n <= TopicTotal(t)
  {
    SubTopicCounts(t.subTopics);
    Reduce(t.subTopics, SubTopicCompleted, 0)
  }

  /**
   * `totalQuestions` of the sheet: an outer reduce over topics of the topic card's inner reduce.
   * It is the sum of the topic cards' totals and the number of questions in the tree.
   */
  function TotalQuestions(ts: seq<Topic>): (n: nat)
    ensures n == Sum(ts, TopicTotal)
    ensures n == |AllQuestions(ts)|
  {
    SumsOverTopics(ts);
    Reduce(ts, TopicTotal, 0)
  }

  /**
   * `completedQuestions` of the sheet: the sum of the topic cards' counts, the number of
   * completed questions in the tree, and never more than the number of questions.
   */
  function CompletedQuestions(ts: seq<Topic>): (n: nat)
    ensures n == Sum(ts, TopicCompleted)
    ensures n == |Solved(AllQuestions(ts))|
    ensures n <= TotalQuestions(ts)
  {
    SumsOverTopics(ts);
    Reduce(ts, TopicCompleted, 0)
  }

  /** `total > 0 ? (completed / total) * 100 : 0`, in exact arithmetic. */
  function Percent(completed: nat, total: nat): (p: real)
    ensures total == 0 ==> p == 0.0
    ensures completed <= total ==> 0.0 <= p <= 100.0
    ensures total > 0 ==> (p == 100.0 <==> completed == total)
    ensures total > 0 ==> (p == 0.0 <==> completed == 0)
  {
    if total > 0 then (completed as real / total as real) * 100.0 else 0.0
  }

  /**
   * `overallProgress` of the sheet: within 0..100, 100 exactly when the sheet has questions
   * and every one is completed, 0 exactly when none is completed.
   */
  function OverallProgress(ts: seq<Topic>): (p: real)
    ensures 0.0 <= p <= 100.0
    ensures p == 100.0 <==> TotalQuestions(ts) > 0 && CompletedQuestions(ts) == TotalQuestions(ts)
    ensures var qs := AllQuestions(ts);
      p == 100.0 <==> |qs| > 0 && forall k :: 0 <= k < |qs| ==> qs[k].completed
    ensures var qs := AllQuestions(ts);
      p == 0.0 <==> forall k :: 0 <= k < |qs| ==> !qs[k].completed
  {
    SolvedAllIff(AllQuestions(ts));
    SolvedNoneIff(AllQuestions(ts));
    Percent(CompletedQuestions(ts), TotalQuestions(ts))
  }

  /** `progress` of a topic card, with the same bounds and end points over the card's questions. */
  function TopicProgress(t: Topic): (p: real)
    ensures 0.0 <= p <= 100.0
    ensures p == 100.0 <==> TopicTotal(t) > 0 && TopicCompleted(t) == TopicTotal(t)
    ensures var qs := QuestionsOf(t.subTopics);
      p == 100.0 <==> |qs| > 0 && forall k :: 0 <= k < |qs| ==> qs[k].completed
    ensures var qs := QuestionsOf(t.subTopics);
      p == 0.0 <==> forall k :: 0 <= k < |qs| ==> !qs[k].completed
  {
    SolvedAllIff(QuestionsOf(t.subTopics));
    SolvedNoneIff(QuestionsOf(t.subTopics));
    Percent(TopicCompleted(t), TopicTotal(t))
  }

  // ---------------------------------------------------------------------
  // Reference: every question of the tree, in display order

  function QuestionsOf(ss: seq<SubTopic>): seq<Question> {
    if ss == [] then [] else ss[0].questions + QuestionsOf(ss[1..])
  }

  function AllQuestions(ts: seq<Topic>): seq<Question> {
    if ts == [] then [] else QuestionsOf(ts[0].subTopics) + AllQuestions(ts[1..])
  }

  lemma {:induction false} SolvedConcat(a: seq<Question>, b: seq<Question>)
    ensures Solved(a + b) == Solved(a) + Solved(b)
  {
    if a == [] {
      assert a + b == b;
    } else {
      var head := if a[0].completed then [a[0]] else [];
      assert (a + b)[1..] == a[1..] + b;
      assert Solved(a + b) == head + Solved(a[1..] + b);
      assert Solved(a) == head + Solved(a[1..]);
      SolvedConcat(a[1..], b);
    }
  }

  /** Summed over subtopics, the sections' counts are the counts over all their questions. */
  lemma {:induction false} SubTopicCounts(ss: seq<SubTopic>)
    ensures Sum(ss, SubTopicTotal) == |QuestionsOf(ss)|
    ensures Sum(ss, SubTopicCompleted) == |Solved(QuestionsOf(ss))|
  {
    if ss != [] {
      SubTopicCounts(ss[1..]);
      SolvedConcat(ss[0].questions, QuestionsOf(ss[1..]));
    }
  }

  /** Summed over topics, the cards' counts are the counts over all questions of the tree. */
  lemma {:induction false} SumsOverTopics(ts: seq<Topic>)
    ensures Sum(ts, TopicTotal) == |AllQuestions(ts)|
    ensures Sum(ts, TopicCompleted) == |Solved(AllQuestions(ts))|
  {
    if ts != [] {
      SumsOverTopics(ts[1..]);
      SolvedConcat(QuestionsOf(ts[0].subTopics), AllQuestions(ts[1..]));
    }
  }

  // ---------------------------------------------------------------------
  // Counts under the operations

  /** Deleting the one topic with id `id` removes exactly its questions from the sheet's count. */
  lemma DeleteTopicTotal(ts: seq<Topic>, id: Id, k: nat)
    requires k < |ts| && ts[k].id == id
    requires forall i :: 0 <= i < |ts| && i != k ==> ts[i].id != id
    ensures TotalQuestions(DeleteTopic(ts, id)) == TotalQuestions(ts) - TopicTotal(ts[k])
    ensures CompletedQuestions(DeleteTopic(ts, id)) == CompletedQuestions(ts) - TopicCompleted(ts[k])
  {
    SumWithoutOne(ts, TopicKey, id, TopicTotal, k);
    SumWithoutOne(ts, TopicKey, id, TopicCompleted, k);
  }

  /** In a tree whose ids are distinct, deleting a present topic lowers both counts by exactly its counts. */
  lemma DeleteUniqueTopicCounts(ts: seq<Topic>, id: Id, k: nat)
    requires UniqueIds(ts) && k < |ts| && ts[k].id == id
    ensures TotalQuestions(DeleteTopic(ts, id)) == TotalQuestions(ts) - TopicTotal(ts[k])
    ensures CompletedQuestions(DeleteTopic(ts, id)) == CompletedQuestions(ts) - TopicCompleted(ts[k])
  {
    UniqueTopicKeys(ts, id);
    forall i | 0 <= i < |ts| && i != k
      ensures ts[i].id != id
    {
      if i < k {
        assert TopicKey(ts[k]) == id;
      } else {
        assert TopicKey(ts[k]) == id;
      }
    }
    DeleteTopicTotal(ts, id, k);
  }

  /** A reorder of the topics keeps both counts. */
  lemma ReorderTopicsCounts(ts: seq<Topic>, fromIndex: nat, toIndex: nat)
    requires fromIndex < |ts| && toIndex < |ts|
    ensures TotalQuestions(ReorderTopics(ts, fromIndex, toIndex)) == TotalQuestions(ts)
    ensures CompletedQuestions(ReorderTopics(ts, fromIndex, toIndex)) == CompletedQuestions(ts)
  {
    SumMove(ts, fromIndex, toIndex, TopicTotal);
    SumMove(ts, fromIndex, toIndex, TopicCompleted);
  }

  /** A toggle changes no question count. */
  lemma ToggleQuestionTotal(ts: seq<Topic>, topicId: Id, subTopicId: Id, questionId: Id)
    ensures TotalQuestions(ToggleQuestion(ts, topicId, subTopicId, questionId)) == TotalQuestions(ts)
  {
    var r := ToggleQuestion(ts, topicId, subTopicId, questionId);
    forall i | 0 <= i < |ts|
      ensures TopicTotal(r[i]) == TopicTotal(ts[i])
    {
      if ts[i].id == topicId {
        SumPointwiseSame(ts[i].subTopics, r[i].subTopics, SubTopicTotal);
      }
    }
    SumPointwiseSame(ts, r, TopicTotal);
  }

  /** One topic, one subtopic, one open question: toggling it completes the whole sheet. */
  lemma ToggleCompletesSheet()
    ensures var ts := [Topic("t", "Arrays", [SubTopic("s", "Basics", [Question("q", "Two Sum", Easy, None, false)])])];
            var r := ToggleQuestion(ts, "t", "s", "q");
            TotalQuestions(ts) == 1 && CompletedQuestions(ts) == 0 &&
            TotalQuestions(r) == 1 && CompletedQuestions(r) == 1 &&
            TopicProgress(ts[0]) == 0.0 && TopicProgress(r[0]) == 100.0 && OverallProgress(r) == 100.0
  {
    var q := Question("q", "Two Sum", Easy, None, false);
    var ts := [Topic("t", "Arrays", [SubTopic("s", "Basics", [q])])];
    var r := ToggleQuestion(ts, "t", "s", "q");
    assert ts[0].subTopics[0].questions[0] == q;
    var rq := r[0].subTopics[0].questions;
    assert |rq| == 1 && rq[0] == Toggle(q);
    assert rq == [Toggle(q)];
    var rs := r[0].subTopics;
    assert |rs| == 1 && rs[0] == SubTopic("s", "Basics", [Toggle(q)]);
    assert rs == [SubTopic("s", "Basics", [Toggle(q)])];
    assert r == [Topic("t", "Arrays", rs)];
    assert QuestionsOf(ts[0].subTopics) == [q] by { assert ts[0].subTopics[1..] == []; }
    assert AllQuestions(ts) == [q] by { assert ts[1..] == []; }
    assert QuestionsOf(rs) == [Toggle(q)] by { assert rs[1..] == []; }
    assert AllQuestions(r) == [Toggle(q)] by { assert r[1..] == []; }
    assert Solved([q]) == [] by { assert [q][1..] == []; }
    assert Solved([Toggle(q)]) == [Toggle(q)] by { assert [Toggle(q)][1..] == []; }
  }
}
