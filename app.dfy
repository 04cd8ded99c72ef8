/** The summary counts shown above the task list: the total, the completed
    and pending records, and the high-priority ones. */
module App {
  import opened TodoTypes
  import TodoList

  /** The number of completed records. */
  function CountCompleted(s: seq<Todo>): (n: nat)
    ensures n <= |s|
  {
    if s == [] then 0 else (if s[0].completed then 1 else 0) + CountCompleted(s[1..])
  }

  /** The number of records not completed. */
  function CountPending(s: seq<Todo>): (n: nat)
    ensures n <= |s|
  {
    if s == [] then 0 else (if !s[0].completed then 1 else 0) + CountPending(s[1..])
  }

  /** The number of high-priority records, counted by the summary's own filter. */
  function CountHigh(s: seq<Todo>): (n: nat)
    ensures n <= |s|
  {
    if s == [] then 0 else (if s[0].priority == High then 1 else 0) + CountHigh(s[1..])
  }

  /** The summary's high-priority count is the list's high-priority count. */
  lemma {:induction false} CountHighIsListCount(s: seq<Todo>)
    ensures CountHigh(s) == TodoList.HighPriorityCount(s)
  {
    if s != [] {
      CountHighIsListCount(s[1..]);
      var c := TodoList.NoCriteria.(showHighPriority := true);
      TodoList.EmptySearchMatchesAll(s[0]);
      assert TodoList.HighOnly(s) == TodoList.Filter(s, c);
      assert TodoList.HighOnly(s[1..]) == TodoList.Filter(s[1..], c);
    }
  }

  datatype Stats = Stats(total: nat, completed: nat, pending: nat, highPriority: nat)

  /** Every record is either completed or pending, never both. */
  lemma {:induction false} CompletedPlusPending(s: seq<Todo>)
    ensures CountCompleted(s) + CountPending(s) == |s|
  {
    if s != [] {
      CompletedPlusPending(s[1..]);
    }
  }

  /** The counts of the summary cards: the completed and pending records
      (which CountsMatchStatusViews ties to the list's 'completed' and
      'active' views) add up to the total, and the summary's own high-priority
      count agrees with the list's count, at most the total. */
  function TodoStats(s: seq<Todo>): (r: Stats)
    ensures r.total == |s|
    ensures r.completed == CountCompleted(s) && r.pending == CountPending(s)
    ensures r.completed + r.pending == r.total
    ensures r.highPriority <= r.total
    ensures r.highPriority == TodoList.HighPriorityCount(s)
  {
    CompletedPlusPending(s);
    CountHighIsListCount(s);
    Stats(|s|, CountCompleted(s), CountPending(s), CountHigh(s))
  }

  /** The completed count is the number of records the list shows under the
      'completed' status filter alone, and the pending count the number it
      shows under 'active'. */
  lemma {:induction false} CountsMatchStatusViews(s: seq<Todo>)
    ensures CountCompleted(s) == |TodoList.View(s, TodoList.NoCriteria.(status := TodoList.Completed))|
    ensures CountPending(s) == |TodoList.View(s, TodoList.NoCriteria.(status := TodoList.Active))|
  {
    var done := TodoList.NoCriteria.(status := TodoList.Completed);
    var open := TodoList.NoCriteria.(status := TodoList.Active);
    CountIsFilterLength(s, done, open);
    TodoList.ViewCorrect(s, done);
    TodoList.ViewCorrect(s, open);
    assert |TodoList.View(s, done)| == |multiset(TodoList.View(s, done))|;
    assert |TodoList.View(s, open)| == |multiset(TodoList.View(s, open))|;
  }

  lemma {:induction false} CountIsFilterLength(s: seq<Todo>, done: TodoList.Criteria, open: TodoList.Criteria)
    requires done == TodoList.NoCriteria.(status := TodoList.Completed)
    requires open == TodoList.NoCriteria.(status := TodoList.Active)
    ensures CountCompleted(s) == |TodoList.Filter(s, done)|
    ensures CountPending(s) == |TodoList.Filter(s, open)|
  {
    if s != [] {
      TodoList.EmptySearchMatchesAll(s[0]);
      CountIsFilterLength(s[1..], done, open);
    }
  }
}
