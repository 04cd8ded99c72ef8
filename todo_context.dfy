/** The task store: the reducer over the five action kinds, the provider
    that holds the current records and dispatches to the reducer, the
    one-time restore from the saved snapshot, and the fail-fast accessor. */
module TodoContext {
  import opened TodoTypes

  /** The closed set of actions the store's reducer accepts. */
  datatype Command =
    | AddTodo(todo: Todo)
    | ToggleTodo(id: string)
    | DeleteTodo(id: string)
    | UpdateTodo(id: string, patch: TodoPatch)
    | SetTodos(todos: seq<Todo>)

  /** A record with its `completed` flag flipped and nothing else changed. */
  function Flip(t: Todo): (r: Todo)
    ensures r.completed == !t.completed
    ensures r.(completed := t.completed) == t
  {
    t.(completed := !t.completed)
  }

  /** Spreads the supplied keys of a patch over a record: every supplied key
      (including `id` and `createdAt`) replaces the record's value, every
      absent key keeps it. */
  function Merge(t: Todo, p: TodoPatch): (r: Todo)
  {
    Todo(Pick(p.id, t.id), Pick(p.title, t.title), Pick(p.description, t.description),
         Pick(p.completed, t.completed), Pick(p.priority, t.priority),
         Pick(p.category, t.category), Pick(p.dueDate, t.dueDate),
         Pick(p.createdAt, t.createdAt))
  }

  /** Flips `completed` on every record whose id matches, keeping the order of the records. */
  function Toggled(s: seq<Todo>, id: string): (r: seq<Todo>)
    ensures |r| == |s|
    ensures forall i :: 0 <= i < |s| ==> r[i] == if s[i].id == id then Flip(s[i]) else s[i]
  {
    if s == [] then []
    else [if s[0].id == id then Flip(s[0]) else s[0]] + Toggled(s[1..], id)
  }

  /** Keeps the records whose id differs, in their original order. */
  function Removed(s: seq<Todo>, id: string): (r: seq<Todo>)
    ensures |r| <= |s|
    ensures forall t :: t in r <==> t in s && t.id != id
  {
    if s == [] then []
    else if s[0].id != id then [s[0]] + Removed(s[1..], id)
    else Removed(s[1..], id)
  }

  /** Merges the patch into every record whose id matches, keeping the order of the records. */
  function Updated(s: seq<Todo>, id: string, p: TodoPatch): (r: seq<Todo>)
    ensures |r| == |s|
    ensures forall i :: 0 <= i < |s| ==> r[i] == if s[i].id == id then Merge(s[i], p) else s[i]
  {
    if s == [] then []
    else [if s[0].id == id then Merge(s[0], p) else s[0]] + Updated(s[1..], id, p)
  }

  /** The reducer: the new record sequence after one action. */
  function Apply(s: seq<Todo>, c: Command): seq<Todo> {
    match c
    case AddTodo(t) => s + [t]
    case ToggleTodo(id) => Toggled(s, id)
    case DeleteTodo(id) => Removed(s, id)
    case UpdateTodo(id, p) => Updated(s, id, p)
    case SetTodos(todos) => todos
  }

  // ---------------------------------------------------------------------
  // Merge

  /** A supplied key wins, an absent key keeps the record's value, for every
      one of the eight fields; `id` and `createdAt` are not protected. */
  lemma MergeFields(t: Todo, p: TodoPatch)
    ensures Merge(t, p).id == (if p.id.Some? then p.id.value else t.id)
    ensures Merge(t, p).title == (if p.title.Some? then p.title.value else t.title)
    ensures Merge(t, p).description == (if p.description.Some? then p.description.value else t.description)
    ensures Merge(t, p).completed == (if p.completed.Some? then p.completed.value else t.completed)
    ensures Merge(t, p).priority == (if p.priority.Some? then p.priority.value else t.priority)
    ensures Merge(t, p).category == (if p.category.Some? then p.category.value else t.category)
    ensures Merge(t, p).dueDate == (if p.dueDate.Some? then p.dueDate.value else t.dueDate)
    ensures Merge(t, p).createdAt == (if p.createdAt.Some? then p.createdAt.value else t.createdAt)
  {
  }

  /** Merging a patch twice is merging it once, and the empty patch changes nothing. */
  lemma MergeIdempotent(t: Todo, p: TodoPatch)
    ensures Merge(Merge(t, p), p) == Merge(t, p)
    ensures Merge(t, EmptyPatch) == t
  {
  }

  // ---------------------------------------------------------------------
  // ADD

  /** ADD appends the record: one longer, every earlier record unchanged. */
  lemma AddAppends(s: seq<Todo>, t: Todo)
    ensures |Apply(s, AddTodo(t))| == |s| + 1
    ensures Apply(s, AddTodo(t))[..|s|] == s
    ensures Apply(s, AddTodo(t))[|s|] == t
  {
  }

  /** Adding a record with a fresh id keeps the ids unique. */
  lemma AddKeepsUnique(s: seq<Todo>, t: Todo)
    requires t.id !in Ids(s)
    ensures UniqueIds(s) ==> UniqueIds(Apply(s, AddTodo(t)))
    ensures Ids(Apply(s, AddTodo(t))) == Ids(s) + {t.id}
  {
  }

  // ---------------------------------------------------------------------
  // TOGGLE

  /** Toggling twice with the same id restores the original sequence. */
  lemma ToggleInvolution(s: seq<Todo>, id: string)
    ensures Apply(Apply(s, ToggleTodo(id)), ToggleTodo(id)) == s
  {
  }

  /** TOGGLE changes exactly `completed` of the matching records: ids,
      length and order are kept, so are the stamps. */
  lemma ToggleKeepsIds(s: seq<Todo>, id: string)
    ensures Ids(Apply(s, ToggleTodo(id))) == Ids(s)
    ensures Stamps(Apply(s, ToggleTodo(id))) == Stamps(s)
    ensures UniqueIds(s) ==> UniqueIds(Apply(s, ToggleTodo(id)))
  {
  }

  // ---------------------------------------------------------------------
  // DELETE

  /** DELETE keeps the order of the survivors: it distributes over concatenation. */
  lemma {:induction false} RemovedAppend(a: seq<Todo>, b: seq<Todo>, id: string)
    ensures Removed(a + b, id) == Removed(a, id) + Removed(b, id)
  {
    if a == [] {
      assert a + b == b;
    } else {
      assert (a + b)[0] == a[0];
      assert (a + b)[1..] == a[1..] + b;
      RemovedAppend(a[1..], b, id);
    }
  }

  /** A sequence without the id is returned unchanged by DELETE. */
  lemma {:induction false} RemovedAbsent(s: seq<Todo>, id: string)
    requires id !in Ids(s)
    ensures Removed(s, id) == s
  {
    if s != [] {
      assert s[0] in s;
      assert Ids(s[1..]) <= Ids(s) by {
        forall x | x in Ids(s[1..]) ensures x in Ids(s) {
          var t :| t in s[1..] && t.id == x;
          assert t in s;
        }
      }
      RemovedAbsent(s[1..], id);
    }
  }

  /** In a sequence with unique ids, the id at position k occurs neither
      before nor after it, and the records after it have unique ids too. */
  lemma UniqueParts(s: seq<Todo>, k: nat)
    requires UniqueIds(s) && k < |s|
    ensures UniqueIds(s[k + 1..])
    ensures s[k].id !in Ids(s[..k]) && s[k].id !in Ids(s[k + 1..])
  {
    forall t | t in s[..k] ensures t.id != s[k].id {
      var i :| 0 <= i < k && s[..k][i] == t;
    }
    var tail := s[k + 1..];
    forall t | t in tail ensures t.id != s[k].id {
      var i :| 0 <= i < |tail| && tail[i] == t;
      assert s[k + 1 + i] == t;
    }
    forall i, j | 0 <= i < j < |tail| ensures tail[i].id != tail[j].id {
      assert tail[i] == s[k + 1 + i] && tail[j] == s[k + 1 + j];
    }
  }

  lemma UniqueCons(x: Todo, r: seq<Todo>)
    requires UniqueIds(r) && x.id !in Ids(r)
    ensures UniqueIds([x] + r)
  {
    var full := [x] + r;
    forall i, j | 0 <= i < j < |full| ensures full[i].id != full[j].id {
      if i == 0 {
        assert full[j] in r;
      } else {
        assert full[i] == r[i - 1] && full[j] == r[j - 1];
      }
    }
  }

  /** With unique ids, deleting the id found at position k removes exactly
      that record: the length drops by one and the rest keep their order. */
  lemma DeleteUnique(s: seq<Todo>, k: nat)
    requires UniqueIds(s) && k < |s|
    ensures Apply(s, DeleteTodo(s[k].id)) == s[..k] + s[k + 1..]
    ensures |Apply(s, DeleteTodo(s[k].id))| == |s| - 1
  {
    var id := s[k].id;
    assert s == s[..k] + [s[k]] + s[k + 1..];
    RemovedAppend(s[..k] + [s[k]], s[k + 1..], id);
    RemovedAppend(s[..k], [s[k]], id);
    UniqueParts(s, k);
    RemovedAbsent(s[..k], id);
    RemovedAbsent(s[k + 1..], id);
    assert Removed([s[k]], id) == [] by {
      assert [s[k]][1..] == [];
    }
  }

  /** DELETE takes exactly its id out of the id set and adds no stamp. */
  lemma RemovedIds(s: seq<Todo>, id: string)
    ensures Ids(Apply(s, DeleteTodo(id))) == Ids(s) - {id}
    ensures Stamps(Apply(s, DeleteTodo(id))) <= Stamps(s)
  {
    var r := Removed(s, id);
    forall x | x in Ids(r) ensures x in Ids(s) - {id} {
      var t :| t in r && t.id == x;
    }
    forall x | x in Ids(s) - {id} ensures x in Ids(r) {
      var t :| t in s && t.id == x;
      assert t in r;
    }
    forall x | x in Stamps(r) ensures x in Stamps(s) {
      var t :| t in r && (t.id, t.createdAt) == x;
    }
  }

  /** DELETE keeps the ids unique. */
  lemma {:induction false} DeleteKeepsUnique(s: seq<Todo>, id: string)
    ensures UniqueIds(s) ==> UniqueIds(Apply(s, DeleteTodo(id)))
  {
    if s != [] && UniqueIds(s) {
      UniqueParts(s, 0);
      assert s[0 + 1..] == s[1..];
      DeleteKeepsUnique(s[1..], id);
      if s[0].id != id {
        RemovedIds(s[1..], id);
        UniqueCons(s[0], Removed(s[1..], id));
      }
    }
  }

  // ---------------------------------------------------------------------
  // UPDATE

  /** UPDATE without `id` and `createdAt` keys in its patch keeps every
      record's id and stamp, hence keeps the ids unique. */
  lemma UpdateKeepsUnique(s: seq<Todo>, id: string, p: TodoPatch)
    requires p.id.None?
    ensures Ids(Apply(s, UpdateTodo(id, p))) == Ids(s)
    ensures UniqueIds(s) ==> UniqueIds(Apply(s, UpdateTodo(id, p)))
    ensures p.createdAt.None? ==> Stamps(Apply(s, UpdateTodo(id, p))) == Stamps(s)
  {
    var r := Updated(s, id, p);
    assert forall i :: 0 <= i < |s| ==> r[i].id == s[i].id;
    forall x | x in Ids(r) ensures x in Ids(s) {
      var i :| 0 <= i < |r| && r[i].id == x;
      assert s[i] in s;
    }
    forall x | x in Ids(s) ensures x in Ids(r) {
      var i :| 0 <= i < |s| && s[i].id == x;
      assert r[i] in r;
    }
    if p.createdAt.None? {
      forall x | x in Stamps(r) ensures x in Stamps(s) {
        var i :| 0 <= i < |r| && (r[i].id, r[i].createdAt) == x;
        assert s[i] in s;
      }
      forall x | x in Stamps(s) ensures x in Stamps(r) {
        var i :| 0 <= i < |s| && (s[i].id, s[i].createdAt) == x;
        assert r[i] in r;
      }
    }
  }

  /** Nothing guards `id`: an UPDATE whose patch carries another record's id
      leaves two records with the same id. */
  lemma UpdateCanDuplicateIds()
    ensures var a := Todo("a", "A", "", false, Low, "", "2024-01-01", "t0");
            var b := Todo("b", "B", "", false, Low, "", "2024-01-02", "t1");
            var p := EmptyPatch.(id := Some("b"), createdAt := Some("t9"));
            UniqueIds([a, b]) &&
            Apply([a, b], UpdateTodo("a", p)) == [Merge(a, p), b] &&
            Merge(a, p).id == "b" && Merge(a, p).createdAt == "t9" &&
            !UniqueIds(Apply([a, b], UpdateTodo("a", p)))
  {
  }

  /** `update(id, {title})` changes the title and nothing else. */
  lemma UpdateTitleOnly(s: seq<Todo>, k: nat, title: string)
    requires k < |s|
    ensures var r := Apply(s, UpdateTodo(s[k].id, EmptyPatch.(title := Some(title))));
            r[k] == s[k].(title := title)
  {
  }

  // ---------------------------------------------------------------------
  // No match, and the results of a deletion

  /** TOGGLE, DELETE and UPDATE with an id no record carries return the input. */
  lemma {:induction false} NoMatchIsIdentity(s: seq<Todo>, id: string, p: TodoPatch)
    requires id !in Ids(s)
    ensures Apply(s, ToggleTodo(id)) == s
    ensures Apply(s, DeleteTodo(id)) == s
    ensures Apply(s, UpdateTodo(id, p)) == s
  {
    forall i | 0 <= i < |s| ensures s[i].id != id {
      assert s[i] in s;
    }
    RemovedAbsent(s, id);
  }

  /** After DELETE, any later action on the same id is a no-op. */
  lemma DeleteThenNoOp(s: seq<Todo>, id: string, p: TodoPatch)
    ensures var d := Apply(s, DeleteTodo(id));
            Apply(d, ToggleTodo(id)) == d &&
            Apply(d, DeleteTodo(id)) == d &&
            Apply(d, UpdateTodo(id, p)) == d
  {
    var d := Removed(s, id);
    assert id !in Ids(d);
    NoMatchIsIdentity(d, id, p);
  }

  /** SET replaces the state wholesale. */
  lemma SetReplaces(s: seq<Todo>, todos: seq<Todo>)
    ensures Apply(s, SetTodos(todos)) == todos
  {
  }

  // ---------------------------------------------------------------------
  // Id discipline across actions

  /** The actions that the provider's four operations dispatch, each under
      the condition that keeps ids unique: a fresh id for ADD, a patch
      without `id` for UPDATE. */
  predicate KeepsIds(s: seq<Todo>, c: Command) {
    match c
    case AddTodo(t) => t.id !in Ids(s)
    case ToggleTodo(_) => true
    case DeleteTodo(_) => true
    case UpdateTodo(_, p) => p.id.None? && p.createdAt.None?
    case SetTodos(_) => false
  }

  /** Every such action keeps ids unique and keeps each surviving record's
      id and creation stamp. */
  lemma ApplyKeepsIds(s: seq<Todo>, c: Command)
    requires UniqueIds(s) && KeepsIds(s, c)
    ensures UniqueIds(Apply(s, c))
    ensures c.AddTodo? ==> Stamps(Apply(s, c)) == Stamps(s) + {(c.todo.id, c.todo.createdAt)}
    ensures !c.AddTodo? ==> Stamps(Apply(s, c)) <= Stamps(s)
  {
    match c
    case AddTodo(t) =>
      AddKeepsUnique(s, t);
      var r := s + [t];
      forall x | x in Stamps(r) ensures x in Stamps(s) + {(t.id, t.createdAt)} {
        var u :| u in r && (u.id, u.createdAt) == x;
      }
    case ToggleTodo(id) => ToggleKeepsIds(s, id);
    case DeleteTodo(id) =>
      DeleteKeepsUnique(s, id);
      RemovedIds(s, id);
    case UpdateTodo(id, p) => UpdateKeepsUnique(s, id, p);
  }

  /** Runs a sequence of actions through the reducer. */
  function ApplyAll(s: seq<Todo>, cs: seq<Command>): seq<Todo>
    decreases |cs|
  {
    if cs == [] then s else ApplyAll(Apply(s, cs[0]), cs[1..])
  }

  /** Every id-keeping sequence of actions keeps the ids unique. */
  lemma {:induction false} ApplyAllKeepsUnique(s: seq<Todo>, cs: seq<Command>)
    requires UniqueIds(s)
    requires forall k :: 0 <= k < |cs| ==> KeepsIds(ApplyAll(s, cs[..k]), cs[k])
    ensures UniqueIds(ApplyAll(s, cs))
    decreases |cs|
  {
    if cs != [] {
      assert cs[..0] == [];
      ApplyKeepsIds(s, cs[0]);
      var s' := Apply(s, cs[0]);
      forall k | 0 <= k < |cs| - 1 ensures KeepsIds(ApplyAll(s', cs[1..][..k]), cs[1..][k]) {
        assert cs[..k + 1][0] == cs[0] && cs[..k + 1][1..] == cs[1..][..k];
        assert KeepsIds(ApplyAll(s, cs[..k + 1]), cs[k + 1]);
      }
      ApplyAllKeepsUnique(s', cs[1..]);
    }
  }

  /** The (id, createdAt) stamps of the records a sequence of actions adds. */
  function AddedStamps(cs: seq<Command>): set<(string, string)> {
    set k | 0 <= k < |cs| && cs[k].AddTodo? :: (cs[k].todo.id, cs[k].todo.createdAt)
  }

  /** Across every id-keeping sequence of actions no record's id or creation
      time changes: each stamp afterwards was there before or came with an ADD. */
  lemma {:induction false} ApplyAllKeepsStamps(s: seq<Todo>, cs: seq<Command>)
    requires UniqueIds(s)
    requires forall k :: 0 <= k < |cs| ==> KeepsIds(ApplyAll(s, cs[..k]), cs[k])
    ensures Stamps(ApplyAll(s, cs)) <= Stamps(s) + AddedStamps(cs)
    decreases |cs|
  {
    if cs != [] {
      assert cs[..0] == [];
      ApplyKeepsIds(s, cs[0]);
      var s' := Apply(s, cs[0]);
      var rest := cs[1..];
      forall k | 0 <= k < |rest| ensures KeepsIds(ApplyAll(s', rest[..k]), rest[k]) {
        assert cs[..k + 1][0] == cs[0] && cs[..k + 1][1..] == rest[..k];
        assert KeepsIds(ApplyAll(s, cs[..k + 1]), cs[k + 1]);
      }
      ApplyAllKeepsStamps(s', rest);
      forall x | x in AddedStamps(rest) ensures x in AddedStamps(cs) {
        var k :| 0 <= k < |rest| && rest[k].AddTodo? && x == (rest[k].todo.id, rest[k].todo.createdAt);
        assert cs[k + 1] == rest[k];
      }
      if cs[0].AddTodo? {
        assert (cs[0].todo.id, cs[0].todo.createdAt) in AddedStamps(cs);
      }
    }
  }

  // ---------------------------------------------------------------------
  // Restore and the context accessor

  /** Why the one-time restore can fail: the snapshot text does not parse. */
  datatype RestoreError = MalformedSnapshot

  /** The restore at start-up. An absent or empty snapshot leaves the state
      alone; any other snapshot is parsed (the parser is a parameter, `None`
      standing for a parse that throws) and replaces the state. */
  function Restore(s: seq<Todo>, saved: Option<string>, parse: string -> Option<seq<Todo>>)
    : (r: Result<seq<Todo>, RestoreError>)
    ensures saved.None? || saved == Some("") ==> r == Ok(s)
    ensures saved.Some? && saved.value != "" && parse(saved.value).None? ==> r == Err(MalformedSnapshot)
    ensures saved.Some? && saved.value != "" && parse(saved.value).Some? ==> r == Ok(parse(saved.value).value)
  {
    if saved.None? || saved.value == "" then Ok(s)
    else match parse(saved.value)
      case None => Err(MalformedSnapshot)
      case Some(todos) => Ok(Apply(s, SetTodos(todos)))
  }

  /** Restoring what was saved gives back the saved records, whenever the
      serialiser writes non-empty text the parser reads back. The JSON round
      trip itself is the precondition; all this shows is that the restore
      step adds nothing to a successful parse and starts from no records. */
  lemma RestoreRoundTrip(s: seq<Todo>, serialize: seq<Todo> -> string, parse: string -> Option<seq<Todo>>)
    requires serialize(s) != "" && parse(serialize(s)) == Some(s)
    ensures Restore([], Some(serialize(s)), parse) == Ok(s)
  {
  }

  const NoProviderMessage := "useTodo must be used within a TodoProvider"

  /** The context accessor fails fast when no provider value exists. */
  function UseTodo<C>(context: Option<C>): (r: Result<C, string>)
    ensures r.Ok? <==> context.Some?
    ensures r.Ok? ==> r.value == context.value
    ensures r.Err? ==> r.error == NoProviderMessage
  {
    match context
    case None => Err(NoProviderMessage)
    case Some(v) => Ok(v)
  }

  // ---------------------------------------------------------------------
  // The provider

  /** The provider's state: the current records, replaced by the reducer's
      result on every dispatch. */
  class Store {
    var todos: seq<Todo>

    constructor ()
      ensures todos == []
    {
      todos := [];
    }

    method Dispatch(c: Command)
      modifies this
      ensures todos == Apply(old(todos), c)
    {
      todos := Apply(todos, c);
    }

    /** Completes the draft with the given (fresh) id and timestamp and appends it. */
    method Add(draft: TodoDraft, id: string, createdAt: string)
      requires id !in Ids(todos)
      modifies this
      ensures todos == old(todos) + [FromDraft(draft, id, createdAt)]
      ensures Ids(todos) == old(Ids(todos)) + {id}
      ensures old(UniqueIds(todos)) ==> UniqueIds(todos)
    {
      var t := FromDraft(draft, id, createdAt);
      AddKeepsUnique(todos, t);
      assert Ids(todos + [t]) == Ids(todos) + {id};
      Dispatch(AddTodo(t));
    }

    method Toggle(id: string)
      modifies this
      ensures todos == Toggled(old(todos), id)
      ensures Stamps(todos) == old(Stamps(todos))
      ensures old(UniqueIds(todos)) ==> UniqueIds(todos)
    {
      ToggleKeepsIds(todos, id);
      Dispatch(ToggleTodo(id));
    }

    method Delete(id: string)
      modifies this
      ensures todos == Removed(old(todos), id)
      ensures id !in Ids(todos)
      ensures old(UniqueIds(todos)) ==> UniqueIds(todos)
    {
      DeleteKeepsUnique(todos, id);
      RemovedIds(todos, id);
      Dispatch(DeleteTodo(id));
    }

    method Update(id: string, patch: TodoPatch)
      modifies this
      ensures todos == Updated(old(todos), id, patch)
      ensures patch.id.None? && old(UniqueIds(todos)) ==> UniqueIds(todos)
    {
      if patch.id.None? {
        UpdateKeepsUnique(todos, id, patch);
      }
      Dispatch(UpdateTodo(id, patch));
    }

    /** The effect that runs once at start-up; `ok` is false where the
        source's parse throws, and the state is then left as it was. */
    method RestoreFrom(saved: Option<string>, parse: string -> Option<seq<Todo>>) returns (ok: bool)
      modifies this
      ensures ok <==> Restore(old(todos), saved, parse).Ok?
      ensures ok ==> todos == Restore(old(todos), saved, parse).value
      ensures !ok ==> todos == old(todos)
    {
      var r := Restore(todos, saved, parse);
      ok := r.Ok?;
      if saved.Some? && saved.value != "" && parse(saved.value).Some? {
        Dispatch(SetTodos(parse(saved.value).value));
      }
    }
  }
}
