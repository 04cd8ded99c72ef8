/** The record model of the task tracker: one task record, the draft the
    add operation takes, and the partial record the update operation merges. */
module TodoTypes {

  datatype Option<T> = None | Some(value: T)

  datatype Result<T, E> = Ok(value: T) | Err(error: E)

  /** The closed priority enumeration; no fourth value exists. */
  datatype Priority = Low | Medium | High

  /** A task record; all eight fields are always present. */
  datatype Todo = Todo(
    id: string,
    title: string,
    description: string,
    completed: bool,
    priority: Priority,
    category: string,
    dueDate: string,
    createdAt: string)

  /** A task record without `id` and `createdAt`: what the add operation
      receives. `completed` is part of it, so the caller supplies it. */
  datatype TodoDraft = TodoDraft(
    title: string,
    description: string,
    completed: bool,
    priority: Priority,
    category: string,
    dueDate: string)

  /** Any subset of the eight fields: a field is `None` when its key is absent.
      Nothing excludes `id` or `createdAt`. */
  datatype TodoPatch = TodoPatch(
    id: Option<string>,
    title: Option<string>,
    description: Option<string>,
    completed: Option<bool>,
    priority: Option<Priority>,
    category: Option<string>,
    dueDate: Option<string>,
    createdAt: Option<string>)

  /** The patch that supplies no key at all. */
  const EmptyPatch := TodoPatch(None, None, None, None, None, None, None, None)

  /** The value of a supplied key, or the current value when the key is absent. */
  function Pick<T>(supplied: Option<T>, current: T): T {
    match supplied
    case Some(v) => v
    case None => current
  }

  /** The ids held by a sequence of records. */
  function Ids(s: seq<Todo>): set<string> {
    set t | t in s :: t.id
  }

  /** The (id, createdAt) stamps held by a sequence of records. */
  function Stamps(s: seq<Todo>): set<(string, string)> {
    set t | t in s :: (t.id, t.createdAt)
  }

  /** No two records (at different positions) share an id. */
  predicate UniqueIds(s: seq<Todo>) {
    forall i, j :: 0 <= i < j < |s| ==> s[i].id != s[j].id
  }

  /** Every priority is one of the three enumerated values. */
  lemma PriorityIsClosed(p: Priority)
    ensures p == Low || p == Medium || p == High
  {
  }

  /** A draft completed with an id and a timestamp is the full record that
      keeps every draft field and carries exactly the given id and timestamp. */
  function FromDraft(draft: TodoDraft, id: string, createdAt: string): (t: Todo)
    ensures t.id == id && t.createdAt == createdAt
    ensures t.title == draft.title && t.description == draft.description
    ensures t.completed == draft.completed && t.priority == draft.priority
    ensures t.category == draft.category && t.dueDate == draft.dueDate
  {
    Todo(id, draft.title, draft.description, draft.completed,
         draft.priority, draft.category, draft.dueDate, createdAt)
  }

  /** Dropping `id` and `createdAt` from a record gives a draft from which
      the record is rebuilt exactly. */
  function ToDraft(t: Todo): TodoDraft {
    TodoDraft(t.title, t.description, t.completed, t.priority, t.category, t.dueDate)
  }

  lemma DraftRoundTrip(t: Todo, draft: TodoDraft, id: string, createdAt: string)
    ensures FromDraft(ToDraft(t), t.id, t.createdAt) == t
    ensures ToDraft(FromDraft(draft, id, createdAt)) == draft
  {
  }
}
