# Task Master: the task store and its derived view, in Dafny

Task Master is a browser to-do list. Its logic has four parts, and this
project models each one with proofs:

- **The record model** (`types.dfy`, module `TodoTypes`). It has the
  eight-field `Todo` record and the closed `Priority` enumeration. It also
  has the add draft (`Todo` without `id` and `createdAt`) and the partial
  patch that update takes (any subset of the eight keys, `id` and
  `createdAt` included; a key is either absent or carries a value).
- **The task store** (`todo_context.dfy`, module `TodoContext`).
  - The reducer has five actions, `Command` (ADD, TOGGLE, DELETE, UPDATE,
    SET). It is the pure function `Apply(s, c)`.
  - The provider is a `Store` class. Its `todos` field is replaced by
    `Apply(todos, c)` on every dispatch.
  - It also has the one-time restore from the saved snapshot and the
    fail-fast `UseTodo` accessor.
- **The view engine** (`todo_list.dfy`, module `TodoList`).
  - The four-way filter: search, status, category, high priority.
  - The two-tier stable sort: high first, then ascending due date.
  - The list of category options and the count of high-priority records.
- **The summary counts** (`app.dfy`, module `App`): total, completed,
  pending and high priority.

Main results:

- Toggle twice is the identity.
- Toggle, delete and update on an unknown id change nothing.
- With unique ids, delete removes exactly the record carrying a present id
  and keeps the order of the rest.
- Every action dispatched through the four operations keeps ids unique, as
  long as add gets a fresh id and update's patch has no `id` or `createdAt`.
  This holds for whole sequences of actions too.
- Across such actions no record's id or creation time ever changes: every
  (id, createdAt) pair afterwards was there before or came with an add.
- The shown list contains exactly the records that pass the filter. It is
  sorted, it is a permutation of the filtered records, every copy of a
  matching record is kept, and it is stable: records the comparator ties
  appear in the order they have in the input.
- The category options start with `"all"`. Then come the distinct
  categories, in the order they first appear.
- Completed plus pending equals the total.

How the model matches the source:

- `id`, `createdAt`, `dueDate` and the texts are strings (`seq<char>`).
- The due-date comparison `new Date(a).getTime() - new Date(b).getTime()`
  becomes `CompareDates`, a three-way lexicographic comparison. On
  well-formed `YYYY-MM-DD` dates it has the same sign as the time
  difference.
- `toLowerCase` lower-cases ASCII letters only.
- `crypto.randomUUID()` and `new Date().toISOString()` are parameters of
  `Store.Add`. Freshness of the id is its precondition.
- `JSON.parse` is a parameter `parse: string -> Option<seq<Todo>>`, where
  `None` means the parse throws (a parse into something other than records
  is not modelled; see "Left out"). The snapshot read from local storage is a
  parameter `saved: Option<string>`.

Behaviour of the code worth knowing, which the model keeps as written:

- Update does not protect `id` or `createdAt`. UPDATE spreads the whole
  patch over the record, so a patch that carries `id` or `createdAt`
  overwrites them. `UpdateCanDuplicateIds` gives a
  concrete patch that leaves two records with the same id. The editing form
  never sends those keys (src/components/TodoForm.tsx:24).
- A snapshot that does not parse is not treated as absent; it is an error. `JSON.parse`
  throws inside the effect, so `Restore` returns `Err(MalformedSnapshot)`
  and `Store.RestoreFrom` leaves the state as it was and reports `false`.
- An empty stored string is treated like a missing one, because the effect
  tests `if (savedTodos)`.
- A record whose category is literally `"all"` cannot be selected on its
  own: the category filter reads `"all"` as "no filter". In that case
  `Categories` lists `"all"` twice.

## Model

| member | source | states |
|---|---|---|
| `TodoTypes.Todo` | src/types.ts:1-10 | the task record with its eight always-present fields; no contract of its own: FromDraft, DraftRoundTrip and every reducer lemma are stated over it |
| `TodoTypes.Priority` | src/types.ts:6 | the three priorities low, medium and high; no contract of its own: PriorityIsClosed states that there is no fourth |
| `TodoTypes.PriorityIsClosed` | src/types.ts:6 | a priority is low, medium or high, and nothing else |
| `TodoTypes.FromDraft` | src/context/TodoContext.tsx:50-55 | the full record keeps every draft field (including the caller's `completed`) and carries exactly the supplied id and timestamp |
| `TodoTypes.TodoDraft` | src/types.ts:14 | the add payload, a record without `id` and `createdAt`; no contract of its own: FromDraft and DraftRoundTrip state how it relates to the record |
| `TodoTypes.ToDraft` | src/types.ts:14 | drops `id` and `createdAt` from a record; no contract of its own: DraftRoundTrip states it is the inverse of FromDraft |
| `TodoTypes.TodoPatch` | src/types.ts:17 | the update payload: any subset of the eight keys, `id` and `createdAt` not excluded; no contract of its own: MergeFields states what each key does, UpdateCanDuplicateIds that `id` is not guarded |
| `TodoTypes.Pick` | src/types.ts:17 | a supplied key's value or the current value; no contract of its own: MergeFields states the rule for all eight fields |
| `TodoTypes.EmptyPatch` | src/types.ts:17 | the patch with no key; no contract of its own: MergeIdempotent states that it changes nothing |
| `TodoTypes.DraftRoundTrip` | src/types.ts:14 | the draft is the record minus exactly `id` and `createdAt`: dropping them and adding them back is the identity, both ways |
| `TodoContext.Command` | src/context/TodoContext.tsx:6-11 | the closed set of five actions, each with the payload the source's action type carries; no contract of its own |
| `TodoContext.Apply` | src/context/TodoContext.tsx:13-34 | the reducer; no contract of its own: AddAppends, Toggled, Removed, Updated and SetReplaces state each case, ApplyKeepsIds and ApplyAllKeepsUnique what it preserves |
| `TodoContext.Flip` | src/context/TodoContext.tsx:19 | `completed` is negated and every other field is unchanged |
| `TodoContext.Merge` | src/context/TodoContext.tsx:26 | the spread of the patch over the record; no contract of its own: MergeFields states every field, MergeIdempotent the idempotence and the empty patch |
| `TodoContext.MergeFields` | src/context/TodoContext.tsx:23-28 | on a matching record every supplied key replaces the old value and every absent key keeps it, for all eight fields, `id` and `createdAt` included |
| `TodoContext.MergeIdempotent` | src/context/TodoContext.tsx:26 | merging the same patch twice equals merging once; the empty patch changes nothing |
| `TodoContext.Toggled` | src/context/TodoContext.tsx:17-20 | same length; position by position, a record whose id matches has only `completed` flipped, every other record is unchanged |
| `TodoContext.Removed` | src/context/TodoContext.tsx:21-22 | a record is kept iff it was present and its id differs; never longer than the input |
| `TodoContext.Updated` | src/context/TodoContext.tsx:23-28 | same length; position by position, matching records are merged with the patch and the others are unchanged |
| `TodoContext.AddAppends` | src/context/TodoContext.tsx:15-16 | ADD makes the sequence one longer with the new record last and every earlier record unchanged |
| `TodoContext.AddKeepsUnique` | src/context/TodoContext.tsx:50-57 | adding a record with a fresh id keeps ids unique and adds exactly that id |
| `TodoContext.ToggleInvolution` | src/context/TodoContext.tsx:17-20 | toggling the same id twice gives back the original sequence |
| `TodoContext.ToggleKeepsIds` | src/context/TodoContext.tsx:17-20 | TOGGLE keeps the set of ids and of (id, createdAt) stamps, so it keeps ids unique |
| `TodoContext.RemovedAppend` | src/context/TodoContext.tsx:21-22 | DELETE distributes over concatenation, so the survivors keep their relative order |
| `TodoContext.RemovedAbsent` | src/context/TodoContext.tsx:21-22 | DELETE of an id no record carries returns the input |
| `TodoContext.DeleteUnique` | src/context/TodoContext.tsx:21-22 | with unique ids, deleting the id at position k yields the sequence without position k, one shorter |
| `TodoContext.RemovedIds` | src/context/TodoContext.tsx:21-22 | DELETE removes exactly its id from the id set and adds no (id, createdAt) stamp |
| `TodoContext.DeleteKeepsUnique` | src/context/TodoContext.tsx:21-22 | DELETE keeps ids unique |
| `TodoContext.UpdateKeepsUnique` | src/context/TodoContext.tsx:23-28 | UPDATE whose patch has no `id` keeps the id set (hence uniqueness); with no `createdAt` either, it keeps every stamp |
| `TodoContext.UpdateCanDuplicateIds` | src/context/TodoContext.tsx:26 | because nothing guards `id`/`createdAt`, a concrete UPDATE overwrites both and turns unique ids into a duplicate |
| `TodoContext.UpdateTitleOnly` | src/context/TodoContext.tsx:23-28 | `update(id, {title})` changes the title of the matching record and nothing else of it |
| `TodoContext.NoMatchIsIdentity` | src/context/TodoContext.tsx:17-28 | TOGGLE, DELETE and UPDATE with an id matching no record return the input unchanged |
| `TodoContext.DeleteThenNoOp` | src/context/TodoContext.tsx:17-28 | after DELETE of an id, any TOGGLE, DELETE or UPDATE of the same id is a no-op |
| `TodoContext.SetReplaces` | src/context/TodoContext.tsx:29-30 | SET replaces the state wholesale with its payload |
| `TodoContext.ApplyKeepsIds` | src/context/TodoContext.tsx:13-34 | any action the four operations dispatch (fresh id for ADD, no `id`/`createdAt` in an UPDATE patch) keeps ids unique; ADD adds exactly its stamp, the others add none |
| `TodoContext.ApplyAllKeepsUnique` | src/context/TodoContext.tsx:13-34 | every sequence of such actions keeps ids unique |
| `TodoContext.ApplyAllKeepsStamps` | src/context/TodoContext.tsx:13-34 | across every sequence of such actions no record's id or creation time changes: every stamp afterwards was there before or was added by one of the ADD actions |
| `TodoContext.Restore` | src/context/TodoContext.tsx:39-44 | absent or empty snapshot: state unchanged; unparseable: error (the parse throws); otherwise the parsed records replace the state |
| `TodoContext.RestoreRoundTrip` | src/context/TodoContext.tsx:39-48 | assuming the parser reads back what the serialiser wrote, restoring from no records yields the saved sequence; it shows only that the restore step adds nothing to a successful parse |
| `TodoContext.UseTodo` | src/context/TodoContext.tsx:78-84 | the accessor fails, with the source's message, exactly when there is no provider value, and otherwise returns that value |
| `TodoContext.Store.constructor` | src/context/TodoContext.tsx:37 | the store starts with no records |
| `TodoContext.Store.Dispatch` | src/context/TodoContext.tsx:37 | the new state is the reducer applied to the old state and the action |
| `TodoContext.Store.Add` | src/context/TodoContext.tsx:50-57 | the completed draft is appended, the id set grows by exactly the fresh id, and uniqueness is kept |
| `TodoContext.Store.Toggle` | src/context/TodoContext.tsx:59-61 | the state is toggled; stamps are kept; uniqueness is kept |
| `TodoContext.Store.Delete` | src/context/TodoContext.tsx:63-65 | the matching records are removed, the id is no longer held, and uniqueness is kept |
| `TodoContext.Store.Update` | src/context/TodoContext.tsx:67-69 | the patch is merged into the matching records; with no `id` in the patch uniqueness is kept |
| `TodoContext.Store.RestoreFrom` | src/context/TodoContext.tsx:39-44 | on success the state becomes the restored one; on an unparseable snapshot it reports failure and keeps the state |
| `TodoList.Lower` | src/components/TodoList.tsx:26-27 | same length, every character lower-cased |
| `TodoList.Includes` | src/components/TodoList.tsx:26-27 | true exactly when the needle occurs at some position of the text (the empty needle always does) |
| `TodoList.StatusFilter` | src/components/TodoList.tsx:14 | the three status values 'all', 'active' and 'completed'; no contract of its own: StatusFilterKeeps states what each keeps |
| `TodoList.Criteria` | src/components/TodoList.tsx:13-16 | the four view settings: search text, status, category and the high-priority toggle; no contract of its own: Filter, ViewCorrect and the filter lemmas are stated over it |
| `TodoList.NoCriteria` | src/components/TodoList.tsx:13-16 | the initial settings `''`, 'all', 'all' and `false`; no contract of its own: NoCriteriaShowsAll states that they filter nothing |
| `TodoList.MatchesSearch` | src/components/TodoList.tsx:26-27 | case-insensitive substring match on title or description; no contract of its own: EmptySearchMatchesAll and SearchIgnoresCase state its behaviour, Includes and Lower its parts |
| `TodoList.MatchesStatus` | src/components/TodoList.tsx:28-30 | 'all', 'completed' or 'active'; no contract of its own: StatusFilterKeeps states what each value keeps |
| `TodoList.MatchesCategory` | src/components/TodoList.tsx:31-32 | 'all' or an exact category; no contract of its own: CategoryAndPriorityFilterKeeps states what it keeps |
| `TodoList.MatchesPriority` | src/components/TodoList.tsx:33 | the high-priority toggle; no contract of its own: CategoryAndPriorityFilterKeeps states what it keeps |
| `TodoList.Matches` | src/components/TodoList.tsx:25-34 | the conjunction of the four criteria; no contract of its own: Filter, ViewCorrect and the filter lemmas state what it keeps |
| `TodoList.Filter` | src/components/TodoList.tsx:24-35 | a record is kept iff it is in the input and meets all four criteria; the result is a sub-multiset of the input and never longer |
| `TodoList.FilterCount` | src/components/TodoList.tsx:24-35 | every copy of a matching record is kept and no copy of any other record |
| `TodoList.FilterAppend` | src/components/TodoList.tsx:24-35 | the filter distributes over concatenation, so the kept records stay in input order |
| `TodoList.FilterTied` | src/components/TodoList.tsx:24-42 | taking the records tied with k commutes with the filter |
| `TodoList.EmptySearchMatchesAll` | src/components/TodoList.tsx:26-27 | the empty search matches every record |
| `TodoList.SearchIgnoresCase` | src/components/TodoList.tsx:26-27 | the match does not change when the search text, or the record's title and description, are lower-cased |
| `TodoList.StatusFilterKeeps` | src/components/TodoList.tsx:28-30 | 'all' keeps every record, 'completed' exactly the completed ones, 'active' exactly the others |
| `TodoList.CategoryAndPriorityFilterKeeps` | src/components/TodoList.tsx:31-33 | a category other than 'all' keeps only records with exactly that category; the toggle keeps only high priority; with both off, only search and status decide |
| `TodoList.NoCriteriaShowsAll` | src/components/TodoList.tsx:24-35 | with the initial criteria nothing is filtered out and the view is the sorted list |
| `TodoList.CompareDates` | src/components/TodoList.tsx:41 | the due-date comparison; no contract of its own: CompareDatesAntisymmetric, CompareDatesTransitive and CompareDatesFirstDifference state its order |
| `TodoList.Compare` | src/components/TodoList.tsx:36-42 | the comparator given to the sort; no contract of its own: CompareIsTotalPreorder and MediumAndLowUnranked state its order |
| `TodoList.CompareDatesAntisymmetric` | src/components/TodoList.tsx:41 | swapping the dates negates the comparison, and it is zero exactly on equal dates |
| `TodoList.CompareDatesTransitive` | src/components/TodoList.tsx:41 | the date order is transitive |
| `TodoList.CompareDatesFirstDifference` | src/components/TodoList.tsx:41 | two dates compare as their first differing character |
| `TodoList.CompareIsTotalPreorder` | src/components/TodoList.tsx:36-42 | the comparator is antisymmetric and transitive, and ties exactly the records of the same tier and due date |
| `TodoList.MediumAndLowUnranked` | src/components/TodoList.tsx:38-41 | two records that are not high are compared by due date alone, never by their own priority |
| `TodoList.Sort` | src/components/TodoList.tsx:36-42 | the stable sort; no contract of its own: SortCorrect states that it is sorted, a permutation and stable, SortedTiers what sorted means here |
| `TodoList.SortCorrect` | src/components/TodoList.tsx:36-42 | the sort is sorted by the comparator, a permutation of its input, and stable: for every record k, the records tied with k appear in input order |
| `TodoList.SortedTiers` | src/components/TodoList.tsx:38-41 | in sorted output every high record precedes every other, and within a tier due dates ascend |
| `TodoList.View` | src/components/TodoList.tsx:23-43 | `filteredTodos`, the filter followed by the sort; no contract of its own: ViewCorrect states membership, copies, order and stability, NoCriteriaShowsAll the initial view |
| `TodoList.ViewCorrect` | src/components/TodoList.tsx:23-43 | a record is shown iff it meets all four criteria, with as many copies as the input holds; the view is sorted, a permutation of the filtered records, never longer than the input, and stable against the input: the shown records tied with k are the input's matching records tied with k, in input order |
| `TodoList.ViewScenarioSort` | src/components/TodoList.tsx:36-42 | low A (03-10), high B (05-01), high C (01-01) with no criteria are shown as C, B, A |
| `TodoList.ViewScenarioActive` | src/components/TodoList.tsx:28-30 | 'active' on one completed and one pending record shows only the pending one |
| `TodoList.CategoriesSeen` | src/components/TodoList.tsx:19 | no category twice, and a category is listed iff some record has it |
| `TodoList.CategoriesInFirstSeenOrder` | src/components/TodoList.tsx:19-20 | the distinct categories come in the order of their first record |
| `TodoList.Categories` | src/components/TodoList.tsx:18-21 | the options start with 'all'; the rest are exactly the distinct categories, containing every record's category and only those, in first-seen order |
| `TodoList.HighOnly` | src/components/TodoList.tsx:46 | a record is kept iff it is in the input and has high priority; the result is the view's filter with only the high-priority toggle on, so it keeps input order and every copy |
| `TodoList.HighPriorityCount` | src/components/TodoList.tsx:45-47 | the count of high records, at most the number of records; it takes no criteria |
| `TodoList.HighPriorityCountIsHighView` | src/components/TodoList.tsx:45-47 | the count equals the number of records shown with only the high-priority toggle on |
| `App.CountCompleted` | src/App.tsx:12 | the number of completed records, at most the total |
| `App.CountPending` | src/App.tsx:13 | the number of records that are not completed, at most the total |
| `App.CompletedPlusPending` | src/App.tsx:12-13 | completed plus pending is the total number of records |
| `App.CountHigh` | src/App.tsx:14 | the number of high-priority records, at most the total |
| `App.CountHighIsListCount` | src/App.tsx:14 | the summary's high-priority count equals the list's `highPriorityCount` (src/components/TodoList.tsx:46), so the two counts shown agree |
| `App.TodoStats` | src/App.tsx:10-20 | the total is the length; completed and pending are the completed and not-completed counts, and they add up to the total; high priority is the summary's own count, at most the total, and equals the list's `highPriorityCount` |
| `App.CountsMatchStatusViews` | src/App.tsx:12-13 | the completed count is the number of records shown under 'completed' alone, the pending count the number shown under 'active' |

## Left out

- Rendering is not modelled: JSX, styling, `TodoItem`, `StatsCard`, the form fields of `TodoForm`, and the UI toggles in `App`.
- `TodoForm.handleSubmit` is not modelled. It only chooses between update and add with `completed: false`. The form's initial state (src/components/TodoForm.tsx:13-19) is not modelled either; its `dueDate` normalisation relies on the `Date` library.
- The write-back effect is not modelled. It serialises `todos` to local storage after every change (src/context/TodoContext.tsx:46-48) and is browser I/O. `RestoreRoundTrip` states the round trip under an explicit assumption on the serialiser and the parser.
- `JSON.parse` and `JSON.stringify` are not modelled. They are library serialisation, so they appear only as the abstract `parse`/`serialize` parameters.
- `crypto.randomUUID()` and `new Date().toISOString()` are not modelled. They are nondeterministic foreign calls, so they are parameters of `Store.Add`.
- React plumbing is not modelled: `useReducer`, `useEffect`, `useMemo`, `useState` and the context provider. The `Store` class stands for the provider's state.
- TodoList.CompareDates: this does not model `Date` parsing or floating point. The form requires a date input (src/components/TodoForm.tsx:93-94), so a date string that does not parse can only arrive through a restored snapshot. For such a string `getTime()` is `NaN`, and the source's comparator then ties that record with every other record of its own tier; the high-first split at src/components/TodoList.tsx:38-39 still applies. The model instead compares the strings lexicographically.
- A patch key present with the value `undefined` is not modelled: in `TodoPatch` a key is either absent (`None`) or present with a value. `Partial<Todo>` (src/types.ts:17) also allows a key present with the value `undefined`, which the spread at src/context/TodoContext.tsx:26 would copy over the field. No call site sends such a key (src/components/TodoForm.tsx:24).
- TodoContext.Restore: the `parse` parameter yields either no value (the parse throws) or a sequence of records. A snapshot that parses to something other than an array of records, such as `"null"` or `"{}"`, is installed unchecked by src/context/TodoContext.tsx:42. This is not modelled.
- TodoList.Lower: this is ASCII-only. Unicode case mapping of `toLowerCase` is not modelled.
- vite.config.ts is build configuration and is not part of this model.
