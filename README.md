# Question sheet store, modelled in Dafny

The question sheet is a three-level tree: topics hold subtopics, and subtopics hold questions.
Each question has a title, a difficulty, an optional link and a completion flag.
A zustand store keeps the tree and exposes thirteen actions that replace it:

- add, rename, delete and reorder at the topic level;
- the same four at the subtopic level;
- add, update (field merge), delete, toggle and reorder at the question level.

Every reorder goes through one `arrayMove` helper. It takes an element out of a copy of the list and puts it back at another index.
The sheet page derives total and completed counts from the tree.
Its drag-end handler turns "topic A dropped on topic B" into a reorder.

The model has these layers:

- `records.dfy` (`Records`): the three records. It also holds the id-less question data that `addQuestion` receives, and the partial question that `updateQuestion` merges. It defines the merge and the completion flip.
- `move.dfy` (`ArrayMove`): `arrayMove` as sequence slices, with an index map (`Source`) as its reference.
- `lists.dfy` (`Lists`): generic helpers.
  - The `map` with an id test (`MapWhere`) and the `filter` by id (`Without`).
  - Multiset and sum folds over lists, with their laws.
- `operations.dfy` (`SheetOps`): one pure function per store action over `seq<Topic>`. Each is specified by what changes and what is left identical.
- `laws.dfy` (`SheetLaws`): no-op laws for missing ids and undo laws (toggle twice, move back).
- `ids.dfy` (`Ids`): the multiset of every id in the tree. Every action keeps the ids distinct, given a fresh id for the adds.
- `progress.dfy` (`Progress`): the counts of a subtopic section, a topic card and the whole sheet. They are related to one another and to the flat list of all questions.
- `drag.dfy` (`Drag`): `findIndex` and the sheet page's `handleDragEnd`.
- `store.dfy` (`Store`): the class `SheetStore`. Its `topics` field is assigned by each action, as the store's `set` does. Each action keeps the distinct-ids invariant `Valid()`.

Ids come from a random generator in the source. In the model they are parameters: the caller passes the new id.
The add actions keep `Valid()` when that id is not already in the tree.

An out-of-range reorder is the caller's obligation; the code calls `splice` whatever the index.
The model follows the code for in-range indices (see "Left out").

## Model

| member | source | states |
|---|---|---|
| Records.NewQuestion | src/store/useSheetStore.ts:202 | the new question carries every field of the given data, and its id is the fresh one, which overrides any id the data had |
| Records.Merge | src/store/useSheetStore.ts:218 | each field present in the patch replaces the question's field, each absent field is kept, the id never changes |
| Records.MergeLaws | src/store/useSheetStore.ts:218 | an empty patch leaves a question unchanged; applying the same patch twice equals applying it once |
| Records.MergeDifficultyOnly | src/store/useSheetStore.ts:210-224 | a patch holding only `hard` as difficulty, applied to `{X, easy, not completed}`, changes only the difficulty |
| Records.MergeClearsLink | src/store/useSheetStore.ts:218 | a patch whose link is present but undefined clears a set link and keeps the completion flag |
| Records.Toggle | src/store/useSheetStore.ts:250 | the flip negates `completed` and keeps id, title, difficulty and link |
| Records.ToggleInvolution | src/store/useSheetStore.ts:250 | flipping twice gives back the question |
| ArrayMove.RemoveAt | src/store/useSheetStore.ts:136 | removing at `from` shortens the list by one and takes exactly the element `s[from]` out of its multiset |
| ArrayMove.InsertAt | src/store/useSheetStore.ts:137 | inserting at `to` lengthens the list by one, puts `x` at `to` and adds exactly `x` to its multiset |
| ArrayMove.Move | src/store/useSheetStore.ts:134-139 | for valid indices the move keeps the length, is a permutation (same multiset), and puts the element from index `from` at index `to` |
| ArrayMove.MoveAt | src/store/useSheetStore.ts:134-139 | every position `k` of the result holds the input element at `Source(from, to, k)`: the moved one at `to`, the elements between shifted by one, the rest in place |
| ArrayMove.MoveSameIndex | src/store/useSheetStore.ts:134-139 | moving an element to its own index changes nothing |
| ArrayMove.MoveRoundTrip | src/store/useSheetStore.ts:134-139 | moving from `i` to `j` and then from `j` to `i` restores any list, duplicates included |
| ArrayMove.MoveFirstToLast | src/store/useSheetStore.ts:134-139 | `[a, b, c]` moved from 0 to 2 is `[b, c, a]` |
| Lists.MapWhere | src/store/useSheetStore.ts:151 | the id-guarded `map` keeps the length and rewrites exactly the elements whose id matches, leaving the others identical |
| Lists.Without | src/store/useSheetStore.ts:155 | the `filter` by id never grows the list and leaves no element with that id |
| Lists.WithoutOccurrences | src/store/useSheetStore.ts:155 | the filter drops every occurrence of an element with that id and keeps every other element as often as before |
| Lists.WithoutKeepsOrder | src/store/useSheetStore.ts:155 | the survivors of the filter are a subsequence of the input, in their original relative order |
| Lists.WithoutMissing | src/store/useSheetStore.ts:155 | filtering by an id no element has returns the list unchanged |
| Lists.MapWhereIdentity | src/store/useSheetStore.ts:151 | an id-guarded `map` whose edit leaves each matching element as it is returns the list unchanged |
| SheetOps.InTopic | src/store/useSheetStore.ts:162-166 | the spread `{ ...t, subTopics: … }` over the topics with the id: every topic keeps its id and title, each match gets the edited subtopics, every other topic is identical |
| SheetOps.InSubTopic | src/store/useSheetStore.ts:200-204 | the spread `{ ...s, questions: … }` over the subtopics with the id: every subtopic keeps its id and title, each match gets the edited questions, every other subtopic is identical |
| SheetOps.WithoutRemovesById | src/store/useSheetStore.ts:154-155 | the filter removes exactly the elements with the id, keeps all others, and keeps their order |
| SheetOps.AddTopic | src/store/useSheetStore.ts:144-147 | the old topics are an unchanged prefix, and exactly one topic follows: the fresh id, the title and no subtopics |
| SheetOps.UpdateTopic | src/store/useSheetStore.ts:149-152 | the length is kept; each matching topic gets the new title and keeps its id and subtopics; every other topic is identical |
| SheetOps.DeleteTopic | src/store/useSheetStore.ts:154-155 | exactly the topics with the id are removed; the others appear as often as before and in the same relative order |
| SheetOps.ReorderTopics | src/store/useSheetStore.ts:157-158 | the topics are permuted, with the topic from `fromIndex` now at `toIndex` |
| SheetOps.AddSubTopic | src/store/useSheetStore.ts:160-167 | topics other than the target are identical; in each target topic the subtopics gain exactly one at the end, with the fresh id, the title and no questions |
| SheetOps.UpdateSubTopic | src/store/useSheetStore.ts:169-176 | only subtopics with the id, inside topics with the target id, change, and only their title |
| SheetOps.DeleteSubTopic | src/store/useSheetStore.ts:178-185 | inside each target topic, exactly the subtopics with the id are removed, in order; everything else is identical |
| SheetOps.ReorderSubTopics | src/store/useSheetStore.ts:187-192 | the subtopics of each target topic are moved as `arrayMove` moves them; every other topic is identical |
| SheetOps.AddQuestion | src/store/useSheetStore.ts:194-208 | in each target subtopic of each target topic, exactly one question is appended: the data with the fresh id; the rest of the tree is identical |
| SheetOps.UpdateQuestion | src/store/useSheetStore.ts:210-224 | exactly the questions with the id in the target subtopic are merged with the patch; all others are identical |
| SheetOps.DeleteQuestion | src/store/useSheetStore.ts:226-240 | exactly the questions with the id in the target subtopic are removed, the rest in order; the rest of the tree is identical |
| SheetOps.ToggleQuestion | src/store/useSheetStore.ts:242-256 | exactly the questions with the id in the target subtopic are flipped; all others are identical |
| SheetOps.ReorderQuestions | src/store/useSheetStore.ts:258-272 | the questions of the target subtopic are moved as `arrayMove` moves them; the rest of the tree is identical |
| SheetOps.MoveQuestionsIn | src/store/useSheetStore.ts:264-268 | inside one topic, the questions of each subtopic with the id are moved as `arrayMove` moves them; every other subtopic is identical |
| SheetLaws.UpdateTopicMissing | src/store/useSheetStore.ts:149-152 | renaming a topic id that is not present changes nothing |
| SheetLaws.DeleteTopicMissing | src/store/useSheetStore.ts:154-155 | deleting a topic id that is not present changes nothing |
| SheetLaws.AddSubTopicMissing | src/store/useSheetStore.ts:160-167 | adding a subtopic under a missing topic changes nothing |
| SheetLaws.ReorderSubTopicsMissing | src/store/useSheetStore.ts:187-192 | reordering under a missing topic changes nothing, whatever the indices |
| SheetLaws.UpdateSubTopicMissing | src/store/useSheetStore.ts:169-176 | renaming a subtopic absent from the target topic changes nothing |
| SheetLaws.DeleteSubTopicMissing | src/store/useSheetStore.ts:178-185 | deleting a subtopic absent from the target topic changes nothing |
| SheetLaws.AddQuestionMissing | src/store/useSheetStore.ts:194-208 | adding a question under a missing topic or subtopic changes nothing |
| SheetLaws.ReorderQuestionsMissing | src/store/useSheetStore.ts:258-272 | reordering questions under a missing subtopic changes nothing, whatever the indices |
| SheetLaws.UpdateQuestionMissing | src/store/useSheetStore.ts:210-224 | updating a question absent from the target subtopic changes nothing |
| SheetLaws.DeleteQuestionMissing | src/store/useSheetStore.ts:226-240 | deleting a question absent from the target subtopic changes nothing |
| SheetLaws.ToggleQuestionMissing | src/store/useSheetStore.ts:242-256 | toggling a question absent from the target subtopic changes nothing |
| SheetLaws.ToggleQuestionTwice | src/store/useSheetStore.ts:242-256 | toggling the same path twice restores the whole tree |
| SheetLaws.ReorderTopicsRoundTrip | src/store/useSheetStore.ts:157-158 | reordering the topics back from `toIndex` to `fromIndex` restores them |
| SheetLaws.ReorderSubTopicsRoundTrip | src/store/useSheetStore.ts:187-192 | reordering the subtopics back restores the tree |
| SheetLaws.ReorderQuestionsRoundTrip | src/store/useSheetStore.ts:258-272 | reordering the questions back restores the tree |
| Ids.AddTopicIds | src/store/useSheetStore.ts:144-147 | adding a topic adds exactly its one id to the tree's ids, keeping them distinct when it is fresh |
| Ids.UpdateTopicIds | src/store/useSheetStore.ts:149-152 | renaming a topic keeps the tree's ids |
| Ids.DeleteTopicIds | src/store/useSheetStore.ts:154-155 | deleting a topic only removes ids |
| Ids.ReorderTopicsIds | src/store/useSheetStore.ts:157-158 | reordering topics keeps the tree's ids |
| Ids.AddSubTopicIds | src/store/useSheetStore.ts:160-167 | with distinct ids and a fresh id, adding a subtopic adds at most that id and keeps all ids distinct |
| Ids.UpdateSubTopicIds | src/store/useSheetStore.ts:169-176 | renaming a subtopic keeps the tree's ids |
| Ids.DeleteSubTopicIds | src/store/useSheetStore.ts:178-185 | deleting a subtopic only removes ids |
| Ids.ReorderSubTopicsIds | src/store/useSheetStore.ts:187-192 | reordering subtopics keeps the tree's ids |
| Ids.AddQuestionIds | src/store/useSheetStore.ts:194-208 | with distinct ids and a fresh id, adding a question adds at most that id and keeps all ids distinct |
| Ids.UpdateQuestionIds | src/store/useSheetStore.ts:210-224 | merging a patch into a question keeps the tree's ids |
| Ids.DeleteQuestionIds | src/store/useSheetStore.ts:226-240 | deleting a question only removes ids |
| Ids.ToggleQuestionIds | src/store/useSheetStore.ts:242-256 | toggling a question keeps the tree's ids |
| Ids.ReorderQuestionsIds | src/store/useSheetStore.ts:258-272 | reordering questions keeps the tree's ids |
| Progress.Reduce | src/pages/Index.tsx:16-23 | the left `reduce` from an accumulator equals the accumulator plus the sum of the weights |
| Progress.Solved | src/components/SubTopicSection.tsx:49 | the `filter` on `completed` never returns more questions than it was given, returns only completed ones, and keeps every completed one |
| Progress.SolvedOccurrences | src/components/SubTopicSection.tsx:49 | each completed question survives the filter exactly as often as it occurs, and no other question survives |
| Progress.SolvedAllIff | src/components/SubTopicSection.tsx:49 | the filter keeps as many questions as it was given if and only if every question is completed |
| Progress.SolvedNoneIff | src/components/SubTopicSection.tsx:49 | the filter keeps nothing if and only if no question is completed |
| Progress.SubTopicTotal | src/components/SubTopicSection.tsx:50 | a section's total is never below its completed count, and is 0 exactly when it has no questions |
| Progress.SubTopicCompleted | src/components/SubTopicSection.tsx:49 | a section's completed count is at most its number of questions, equals it exactly when every question is completed, and is 0 exactly when none is |
| Progress.TopicTotal | src/components/TopicCard.tsx:48 | a topic card's total is the sum of its sections' totals and the number of questions under the topic |
| Progress.TopicCompleted | src/components/TopicCard.tsx:49-52 | a topic card's completed count is the sum of its sections' counts, the number of completed questions under the topic, and at most its total |
| Progress.TotalQuestions | src/pages/Index.tsx:16-19 | the sheet's total is the sum of the topic cards' totals and the number of questions in the whole tree |
| Progress.CompletedQuestions | src/pages/Index.tsx:20-23 | the sheet's completed count is the sum of the topic cards' counts, the number of completed questions in the whole tree, and never more than the total |
| Progress.SolvedConcat | src/components/SubTopicSection.tsx:49 | filtering a concatenation is concatenating the filtered parts |
| Progress.SubTopicCounts | src/components/SubTopicSection.tsx:49-50 | summed over a topic's subtopics, the sections' totals and completed counts are the number of questions and of completed questions among all of the topic's questions |
| Progress.SumsOverTopics | src/pages/Index.tsx:16-23 | summed over the topics, the cards' totals and completed counts are the counts over all questions of the tree |
| Progress.Percent | src/pages/Index.tsx:24 | the percentage is 0 with no questions, lies in 0..100 when completed does not exceed total, is 100 exactly when all are completed and 0 exactly when none is |
| Progress.OverallProgress | src/pages/Index.tsx:24 | the sheet's percentage lies in 0..100; it is 100 exactly when the tree has questions and every question's flag is set, and 0 exactly when no flag is set |
| Progress.TopicProgress | src/components/TopicCard.tsx:53 | a topic card's percentage lies in 0..100; it is 100 exactly when the topic has questions and every one is completed, and 0 exactly when none is |
| Progress.DeleteTopicTotal | src/store/useSheetStore.ts:154-155 | deleting a topic whose id is unique lowers both sheet counts by exactly that topic's counts |
| Progress.DeleteUniqueTopicCounts | src/store/useSheetStore.ts:154-155 | in a tree whose ids are distinct (the store's invariant), deleting a present topic lowers both sheet counts by exactly that topic's counts |
| Progress.ReorderTopicsCounts | src/store/useSheetStore.ts:157-158 | reordering topics keeps both sheet counts |
| Progress.ToggleQuestionTotal | src/store/useSheetStore.ts:242-256 | toggling never changes the sheet's question count |
| Progress.ToggleCompletesSheet | src/pages/Index.tsx:16-24 | a sheet with one open question counts 0 of 1 completed with its topic at 0%; after the toggle it counts 1 of 1, and both the topic and the sheet are at 100% |
| Drag.FindIndex | src/pages/Index.tsx:29-30 | `findIndex` returns -1 exactly when no element has the id, and otherwise the first index whose element has it |
| Drag.HandleDragEnd | src/pages/Index.tsx:26-32 | a drag end never adds or loses a topic: the result is a permutation of the topics |
| Drag.DragEndChangesIff | src/pages/Index.tsx:26-32 | the topics change if and only if the drop is over another topic and both ids are found; a missing target, the same id, or an id not found leaves them unchanged |
| Drag.DragEndMoves | src/pages/Index.tsx:29-31 | a drop that takes effect is the `arrayMove` between the two found indices; the dragged topic ends where the target was, and the topics and the tree's ids are kept |
| Drag.DragOntoNext | src/pages/Index.tsx:26-32 | dropping the first of two topics onto the second swaps them |
| Store.SheetStore.constructor | src/store/useSheetStore.ts:141-142 | the store starts with the given tree, and is valid when that tree's ids are distinct |
| Store.SheetStore.AddTopic | src/store/useSheetStore.ts:144-147 | the new tree is the `addTopic` result; ids gain exactly the new id; distinct ids stay distinct for a fresh id |
| Store.SheetStore.UpdateTopic | src/store/useSheetStore.ts:149-152 | the new tree is the `updateTopic` result; ids and their distinctness are kept |
| Store.SheetStore.DeleteTopic | src/store/useSheetStore.ts:154-155 | the new tree is the `deleteTopic` result; ids only shrink and stay distinct |
| Store.SheetStore.ReorderTopics | src/store/useSheetStore.ts:157-158 | the new tree is the `reorderTopics` result; ids and their distinctness are kept |
| Store.SheetStore.AddSubTopic | src/store/useSheetStore.ts:160-167 | the new tree is the `addSubTopic` result; distinct ids stay distinct for a fresh id |
| Store.SheetStore.UpdateSubTopic | src/store/useSheetStore.ts:169-176 | the new tree is the `updateSubTopic` result; ids and their distinctness are kept |
| Store.SheetStore.DeleteSubTopic | src/store/useSheetStore.ts:178-185 | the new tree is the `deleteSubTopic` result; ids only shrink and stay distinct |
| Store.SheetStore.ReorderSubTopics | src/store/useSheetStore.ts:187-192 | the new tree is the `reorderSubTopics` result; ids and their distinctness are kept |
| Store.SheetStore.AddQuestion | src/store/useSheetStore.ts:194-208 | the new tree is the `addQuestion` result; distinct ids stay distinct for a fresh id |
| Store.SheetStore.UpdateQuestion | src/store/useSheetStore.ts:210-224 | the new tree is the `updateQuestion` result; ids and their distinctness are kept |
| Store.SheetStore.DeleteQuestion | src/store/useSheetStore.ts:226-240 | the new tree is the `deleteQuestion` result; ids only shrink and stay distinct |
| Store.SheetStore.ToggleQuestion | src/store/useSheetStore.ts:242-256 | the new tree is the `toggleQuestion` result; ids and their distinctness are kept |
| Store.SheetStore.ReorderQuestions | src/store/useSheetStore.ts:258-272 | the new tree is the `reorderQuestions` result; ids and their distinctness are kept |

## Left out

- SheetOps.AddSubTopic, SheetOps.AddQuestion: one new id per call, where the source calls `generateId()` inside the `map` callback and so draws one per matching parent (src/store/useSheetStore.ts:164, 202). The two differ only when parent ids repeat; then every matching parent gets a child with the same id.
- Id generation (src/store/useSheetStore.ts:23): `Math.random` is not modelled. Each add call takes one new id as a parameter (see the line above for parents that share an id). Distinct ids are kept only when the caller passes an id not already in the tree; the source itself does not guarantee this.
- The zustand plumbing (`create`, `set`, subscriptions and re-renders): the store is a class whose actions assign `topics`.
- The seed data `initialData` (src/store/useSheetStore.ts:25-109): the store's constructor takes the initial tree as a parameter.
- Store.SheetStore.ReorderTopics, Store.SheetStore.ReorderSubTopics, Store.SheetStore.ReorderQuestions: these require both indices to be in range for the list they move. JavaScript's `splice` behaviour for -1 or for an index past the end is not modelled.
  - The subtopic and question drag handlers (src/components/TopicCard.tsx:54-60, src/components/SubTopicSection.tsx:52-58) do not check for -1 before they reorder, so those handlers are not modelled. Only the sheet page's handler, which does check, is modelled.
- Records.Merge: the patch has no `id` field. `Partial<Question>` would let a caller overwrite a question's id, but no caller passes one.
- Progress.Percent, Progress.OverallProgress, Progress.TopicProgress: these are computed in exact real arithmetic rather than IEEE floating point. `Math.round` and the rendered widths are not modelled.
- Drag.HandleDragEnd: the drag event is reduced to the two ids. Sensors, collision detection and the sortable wiring of dnd-kit are not modelled.
- All rendering: JSX, dialogs, collapse and edit state, the inline inputs that trim before saving, and the theme toggle with its `localStorage` I/O.
