/** The entity records of the sheet store: Topic -> SubTopic -> Question. */
module Records {

  /** Opaque identifier, as produced by the store's id generator. */
  type Id = string

  datatype Option<+T> = None | Some(value: T)

  datatype Difficulty = Easy | Medium | Hard

  /** Leaf entity. `link` is optional. */
  datatype Question = Question(
    id: Id,
    title: string,
    difficulty: Difficulty,
    link: Option<string>,
    completed: bool)

  datatype SubTopic = SubTopic(id: Id, title: string, questions: seq<Question>)

  datatype Topic = Topic(id: Id, title: string, subTopics: seq<SubTopic>)

  /** The argument of `addQuestion`: every field of a Question except its id. */
  datatype QuestionData = QuestionData(
    title: string,
    difficulty: Difficulty,
    link: Option<string>,
    completed: bool)

  /**
   * The argument of `updateQuestion`: a partial question without an id.
   * `None` means the field is absent; for `link`, `Some(None)` is a field
   * that is present with the value `undefined`, which clears the link.
   */
  datatype QuestionPatch = QuestionPatch(
    title: Option<string>,
    difficulty: Option<Difficulty>,
    link: Option<Option<string>>,
    completed: Option<bool>)

  function QuestionKey(q: Question): Id { q.id }
  function SubTopicKey(s: SubTopic): Id { s.id }
  function TopicKey(t: Topic): Id { t.id }

  /** `{ ...question, id }`: the fields of `data` with the fresh id written last. */
  function NewQuestion(id: Id, data: QuestionData): (q: Question)
    ensures q.id == id
    ensures q.title == data.title && q.difficulty == data.difficulty
    ensures q.link == data.link && q.completed == data.completed
  {
    Question(id, data.title, data.difficulty, data.link, data.completed)
  }

  /** The value of a spread field: the patch's when present, else the old one. */
  function Override<T>(field: Option<T>, current: T): T {
    match field
    case Some(v) => v
    case None => current
  }

  /** `{ ...q, ...data }`: fields present in the patch win, the others are kept. */
  function Merge(q: Question, patch: QuestionPatch): (r: Question)
    ensures r.id == q.id
    ensures r.title == (if patch.title.Some? then patch.title.value else q.title)
    ensures r.difficulty == (if patch.difficulty.Some? then patch.difficulty.value else q.difficulty)
    ensures r.link == (if patch.link.Some? then patch.link.value else q.link)
    ensures r.completed == (if patch.completed.Some? then patch.completed.value else q.completed)
  {
    q.(title := Override(patch.title, q.title),
       difficulty := Override(patch.difficulty, q.difficulty),
       link := Override(patch.link, q.link),
       completed := Override(patch.completed, q.completed))
  }

  /** An empty patch changes nothing; applying the same patch twice is applying it once. */
  lemma MergeLaws(q: Question, patch: QuestionPatch)
    ensures Merge(q, QuestionPatch(None, None, None, None)) == q
    ensures Merge(Merge(q, patch), patch) == Merge(q, patch)
  {
  }

  /** Updating only the difficulty of `{title: 'X', difficulty: 'easy', completed: false}`. */
  lemma MergeDifficultyOnly(id: Id)
    ensures Merge(Question(id, "X", Easy, None, false), QuestionPatch(None, Some(Hard), None, None))
         == Question(id, "X", Hard, None, false)
  {
  }

  /** The dialog's `link: undefined` clears a link that was set. */
  lemma MergeClearsLink(q: Question, title: string, d: Difficulty)
    requires q.link.Some?
    ensures Merge(q, QuestionPatch(Some(title), Some(d), Some(None), None)).link == None
    ensures Merge(q, QuestionPatch(Some(title), Some(d), Some(None), None)).completed == q.completed
  {
  }

  /** The completion flip of `toggleQuestion`. */
  function Toggle(q: Question): (r: Question)
    ensures r.completed == !q.completed
    ensures r.id == q.id && r.title == q.title && r.difficulty == q.difficulty && r.link == q.link
  {
    q.(completed := !q.completed)
  }

  lemma ToggleInvolution(q: Question)
    ensures Toggle(Toggle(q)) == q
  {
  }
}
