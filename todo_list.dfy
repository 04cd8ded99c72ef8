/** The derived view of the task list: the category options, the filtered
    and sorted records for given criteria, and the count of high-priority
    records. Everything here is a pure function of (records, criteria). */
module TodoList {
  import opened TodoTypes

  // ---------------------------------------------------------------------
  // Strings: ASCII lower-casing and substring search

  function LowerChar(c: char): char {
    if 'A' <= c <= 'Z' then (c as int + 32) as char else c
  }

  /** Lower-cases the ASCII letters of a string, leaving every other character. */
  function Lower(s: string): (r: string)
    ensures |r| == |s|
    ensures forall i :: 0 <= i < |s| ==> r[i] == LowerChar(s[i])
  {
    if s == [] then [] else [LowerChar(s[0])] + Lower(s[1..])
  }

  lemma LowerIdempotent(s: string)
    ensures Lower(Lower(s)) == Lower(s)
  {
  }

  /** `needle` occurs in `hay` starting at position i. */
  predicate OccursAt(hay: string, needle: string, i: nat) {
    i + |needle| <= |hay| && hay[i..i + |needle|] == needle
  }

  /** Substring search; the empty needle occurs in every string. */
  function Includes(hay: string, needle: string): (r: bool)
    ensures r <==> exists i: nat :: OccursAt(hay, needle, i)
    decreases |hay|
  {
    if |needle| > |hay| then false
    else if hay[..|needle|] == needle then (assert OccursAt(hay, needle, 0); true)
    else (
      var r := Includes(hay[1..], needle);
      assert forall i: nat :: OccursAt(hay[1..], needle, i) <==> OccursAt(hay, needle, i + 1) by {
        forall i: nat ensures OccursAt(hay[1..], needle, i) <==> OccursAt(hay, needle, i + 1) {
          if i + 1 + |needle| <= |hay| {
            assert hay[1..][i..i + |needle|] == hay[i + 1..i + 1 + |needle|];
          }
        }
      }
      assert forall i: nat :: OccursAt(hay, needle, i) ==> i > 0;
      assert r ==> exists i: nat :: OccursAt(hay, needle, i) by {
        if r {
          var i: nat :| OccursAt(hay[1..], needle, i);
          assert OccursAt(hay, needle, i + 1);
        }
      }
      assert (exists i: nat :: OccursAt(hay, needle, i)) ==> r by {
        if exists i: nat :: OccursAt(hay, needle, i) {
          var i: nat :| OccursAt(hay, needle, i);
          assert OccursAt(hay[1..], needle, i - 1);
        }
      }
      r)
  }

  // ---------------------------------------------------------------------
  // The filter criteria and the four-way predicate

  datatype StatusFilter = All | Active | Completed

  datatype Criteria = Criteria(
    search: string,
    status: StatusFilter,
    category: string,
    showHighPriority: bool)

  /** The criteria the view starts with: nothing filtered out. */
  const NoCriteria := Criteria("", All, "all", false)

  /** Case-insensitive substring match on the title or the description. */
  predicate MatchesSearch(t: Todo, search: string) {
    Includes(Lower(t.title), Lower(search)) || Includes(Lower(t.description), Lower(search))
  }

  predicate MatchesStatus(t: Todo, status: StatusFilter) {
    if status == All then true
    else if status == Completed then t.completed
    else !t.completed
  }

  predicate MatchesCategory(t: Todo, category: string) {
    if category == "all" then true else t.category == category
  }

  predicate MatchesPriority(t: Todo, showHighPriority: bool) {
    if showHighPriority then t.priority == High else true
  }

  predicate Matches(t: Todo, c: Criteria) {
    MatchesSearch(t, c.search) && MatchesStatus(t, c.status) &&
    MatchesCategory(t, c.category) && MatchesPriority(t, c.showHighPriority)
  }

  /** Keeps the records that meet all four criteria, in their input order
      (FilterAppend), with every copy of a matching record (FilterCount). */
  function Filter(s: seq<Todo>, c: Criteria): (r: seq<Todo>)
    ensures |r| <= |s|
    ensures forall t :: t in r <==> t in s && Matches(t, c)
    ensures multiset(r) <= multiset(s)
  {
    if s == [] then []
    else
      assert s == [s[0]] + s[1..];
      if Matches(s[0], c) then [s[0]] + Filter(s[1..], c)
      else Filter(s[1..], c)
  }

  /** Every copy of a matching record is kept, and no copy of another one. */
  lemma {:induction false} FilterCount(s: seq<Todo>, c: Criteria, t: Todo)
    ensures multiset(Filter(s, c))[t] == if Matches(t, c) then multiset(s)[t] else 0
  {
    if s != [] {
      assert s == [s[0]] + s[1..];
      FilterCount(s[1..], c, t);
    }
  }

  /** The filter distributes over concatenation, so the records it keeps
      stay in their input order. */
  lemma {:induction false} FilterAppend(a: seq<Todo>, b: seq<Todo>, c: Criteria)
    ensures Filter(a + b, c) == Filter(a, c) + Filter(b, c)
  {
    if a == [] {
      assert a + b == b;
    } else {
      assert (a + b)[0] == a[0];
      assert (a + b)[1..] == a[1..] + b;
      FilterAppend(a[1..], b, c);
    }
  }

  /** The empty search matches every record. */
  lemma EmptySearchMatchesAll(t: Todo)
    ensures MatchesSearch(t, "")
  {
  }

  /** The search ignores the letter case of the search text and of the record. */
  lemma SearchIgnoresCase(t: Todo, search: string)
    ensures MatchesSearch(t, search) == MatchesSearch(t, Lower(search))
    ensures MatchesSearch(t, search) == MatchesSearch(t.(title := Lower(t.title), description := Lower(t.description)), search)
  {
    LowerIdempotent(search);
    LowerIdempotent(t.title);
    LowerIdempotent(t.description);
  }

  /** What each status value keeps: 'all' everything, 'completed' the
      completed records, 'active' the others. */
  lemma StatusFilterKeeps(s: seq<Todo>, c: Criteria)
    requires c.search == "" && c.category == "all" && !c.showHighPriority
    ensures c.status == All ==> Filter(s, c) == s
    ensures c.status == Completed ==> forall t :: t in Filter(s, c) <==> t in s && t.completed
    ensures c.status == Active ==> forall t :: t in Filter(s, c) <==> t in s && !t.completed
  {
    forall t | t in s ensures MatchesSearch(t, c.search) {
      EmptySearchMatchesAll(t);
    }
    if c.status == All {
      FilterAllKeepsAll(s, c);
    }
  }

  /** A category other than 'all' keeps only records of exactly that
      category; the high-priority toggle keeps only high records. */
  lemma CategoryAndPriorityFilterKeeps(s: seq<Todo>, c: Criteria)
    ensures c.category != "all" ==> forall t :: t in Filter(s, c) ==> t.category == c.category
    ensures c.showHighPriority ==> forall t :: t in Filter(s, c) ==> t.priority == High
    ensures c.category == "all" && !c.showHighPriority ==>
              forall t :: t in Filter(s, c) <==> t in s && MatchesSearch(t, c.search) && MatchesStatus(t, c.status)
  {
  }

  /** With the initial criteria every record is shown, in sorted order. */
  lemma NoCriteriaShowsAll(s: seq<Todo>)
    ensures Filter(s, NoCriteria) == s
    ensures View(s, NoCriteria) == Sort(s)
  {
    StatusFilterKeeps(s, NoCriteria);
  }

  lemma {:induction false} FilterAllKeepsAll(s: seq<Todo>, c: Criteria)
    requires forall t :: t in s ==> Matches(t, c)
    ensures Filter(s, c) == s
  {
    if s != [] {
      assert s[0] in s;
      FilterAllKeepsAll(s[1..], c);
    }
  }

  // ---------------------------------------------------------------------
  // The comparator and the stable sort

  /** Three-way lexicographic comparison of due dates; on ISO YYYY-MM-DD
      dates it has the sign of the difference of their times. */
  function CompareDates(a: string, b: string): int
    decreases |a|
  {
    if a == [] && b == [] then 0
    else if a == [] then -1
    else if b == [] then 1
    else if a[0] < b[0] then -1
    else if a[0] > b[0] then 1
    else CompareDates(a[1..], b[1..])
  }

  /** High priority before everything else, then ascending due date; medium
      and low are not ranked against each other. */
  function Compare(a: Todo, b: Todo): int {
    if a.priority == High && b.priority != High then -1
    else if a.priority != High && b.priority == High then 1
    else CompareDates(a.dueDate, b.dueDate)
  }

  lemma {:induction false} CompareDatesAntisymmetric(a: string, b: string)
    ensures CompareDates(a, b) == -CompareDates(b, a)
    ensures CompareDates(a, b) == 0 <==> a == b
    decreases |a|
  {
    if a != [] && b != [] && a[0] == b[0] {
      CompareDatesAntisymmetric(a[1..], b[1..]);
      if a[1..] == b[1..] {
        assert a == [a[0]] + a[1..] && b == [b[0]] + b[1..];
      }
    }
  }

  lemma {:induction false} CompareDatesTransitive(a: string, b: string, c: string)
    requires CompareDates(a, b) <= 0 && CompareDates(b, c) <= 0
    ensures CompareDates(a, c) <= 0
    decreases |a|
  {
    if a != [] && b != [] && c != [] && a[0] == b[0] == c[0] {
      CompareDatesTransitive(a[1..], b[1..], c[1..]);
    }
  }

  /** The comparator describes a total preorder: antisymmetric, transitive,
      and equal exactly on records of the same tier and due date. */
  lemma CompareIsTotalPreorder(a: Todo, b: Todo, c: Todo)
    ensures Compare(a, b) == -Compare(b, a)
    ensures Compare(a, b) == 0 <==> (a.priority == High) == (b.priority == High) && a.dueDate == b.dueDate
    ensures Compare(a, b) <= 0 && Compare(b, c) <= 0 ==> Compare(a, c) <= 0
  {
    CompareDatesAntisymmetric(a.dueDate, b.dueDate);
    if Compare(a, b) <= 0 && Compare(b, c) <= 0 {
      if (a.priority == High) == (c.priority == High) {
        CompareDatesTransitive(a.dueDate, b.dueDate, c.dueDate);
      }
    }
  }

  /** Between two records that are not high, only the due date counts. */
  lemma MediumAndLowUnranked(a: Todo, b: Todo)
    requires a.priority != High && b.priority != High
    ensures Compare(a, b) == CompareDates(a.dueDate, b.dueDate)
  {
  }

  predicate Sorted(s: seq<Todo>) {
    forall i, j :: 0 <= i < j < |s| ==> Compare(s[i], s[j]) <= 0
  }

  /** The records of s that the comparator ranks equal to k, in order. */
  function Tied(s: seq<Todo>, k: Todo): seq<Todo> {
    if s == [] then []
    else if Compare(s[0], k) == 0 then [s[0]] + Tied(s[1..], k)
    else Tied(s[1..], k)
  }

  /** Inserts x in front of the first record it is not after. */
  function Insert(x: Todo, s: seq<Todo>): seq<Todo> {
    if s == [] then [x]
    else if Compare(x, s[0]) <= 0 then [x] + s
    else [s[0]] + Insert(x, s[1..])
  }

  /** An insertion sort by `Compare`, front to back; by SortCorrect its result
      is sorted, a permutation and stable, so it is the one stable sorted
      order that the list's sort call produces. */
  function Sort(s: seq<Todo>): seq<Todo> {
    if s == [] then [] else Insert(s[0], Sort(s[1..]))
  }

  lemma {:induction false} InsertPermutes(x: Todo, s: seq<Todo>)
    ensures multiset(Insert(x, s)) == multiset(s) + multiset{x}
  {
    if s != [] {
      assert s == [s[0]] + s[1..];
      if Compare(x, s[0]) > 0 {
        InsertPermutes(x, s[1..]);
      }
    }
  }

  lemma SortedTail(s: seq<Todo>)
    requires Sorted(s) && s != []
    ensures Sorted(s[1..])
    ensures forall y :: y in s[1..] ==> Compare(s[0], y) <= 0
  {
  }

  lemma SortedCons(x: Todo, s: seq<Todo>)
    requires Sorted(s)
    requires forall y :: y in s ==> Compare(x, y) <= 0
    ensures Sorted([x] + s)
  {
  }

  lemma {:induction false} InsertSorted(x: Todo, s: seq<Todo>)
    requires Sorted(s)
    ensures Sorted(Insert(x, s))
  {
    if s == [] {
    } else {
      SortedTail(s);
      if Compare(x, s[0]) <= 0 {
        forall y | y in s ensures Compare(x, y) <= 0 {
          if y != s[0] {
            assert y in s[1..];
            CompareIsTotalPreorder(x, s[0], y);
          }
        }
        SortedCons(x, s);
      } else {
        var tail := s[1..];
        InsertSorted(x, tail);
        InsertPermutes(x, tail);
        var ins := Insert(x, tail);
        CompareIsTotalPreorder(x, s[0], x);
        forall y | y in ins ensures Compare(s[0], y) <= 0 {
          assert y in multiset(ins);
          if y != x {
            assert y in multiset(tail);
          }
        }
        SortedCons(s[0], ins);
      }
    }
  }

  lemma {:induction false} InsertTied(x: Todo, s: seq<Todo>, k: Todo)
    requires Sorted(s)
    ensures Tied(Insert(x, s), k) == (if Compare(x, k) == 0 then [x] else []) + Tied(s, k)
  {
    if s != [] && Compare(x, s[0]) > 0 {
      SortedTail(s);
      InsertTied(x, s[1..], k);
      var r := [s[0]] + Insert(x, s[1..]);
      assert r[0] == s[0] && r[1..] == Insert(x, s[1..]);
      if Compare(x, k) == 0 && Compare(s[0], k) == 0 {
        CompareIsTotalPreorder(s[0], k, x);
        CompareIsTotalPreorder(k, x, s[0]);
        assert false;
      }
    }
  }

  /** The sort is sorted, a permutation of its input, and stable: the records
      the comparator ties keep their input order. */
  lemma {:induction false} SortCorrect(s: seq<Todo>)
    ensures Sorted(Sort(s))
    ensures multiset(Sort(s)) == multiset(s)
    ensures forall k :: Tied(Sort(s), k) == Tied(s, k)
  {
    if s != [] {
      SortCorrect(s[1..]);
      InsertSorted(s[0], Sort(s[1..]));
      InsertPermutes(s[0], Sort(s[1..]));
      assert s == [s[0]] + s[1..];
      forall k ensures Tied(Sort(s), k) == Tied(s, k) {
        InsertTied(s[0], Sort(s[1..]), k);
      }
    }
  }

  /** In a sorted sequence every high record precedes every other record,
      and within either tier the due dates ascend. */
  lemma SortedTiers(s: seq<Todo>, i: nat, j: nat)
    requires Sorted(s) && i < j < |s|
    ensures !(s[i].priority != High && s[j].priority == High)
    ensures (s[i].priority == High) == (s[j].priority == High) ==> CompareDates(s[i].dueDate, s[j].dueDate) <= 0
  {
  }

  // ---------------------------------------------------------------------
  // The derived view

  /** The records shown for the criteria: filtered, then sorted. */
  function View(s: seq<Todo>, c: Criteria): seq<Todo> {
    Sort(Filter(s, c))
  }

  /** Picking the tied records and filtering commute. */
  lemma {:induction false} FilterTied(s: seq<Todo>, c: Criteria, k: Todo)
    ensures Tied(Filter(s, c), k) == Filter(Tied(s, k), c)
  {
    if s != [] {
      FilterTied(s[1..], c, k);
      var f := Filter(s[1..], c);
      var r := [s[0]] + f;
      assert r[0] == s[0] && r[1..] == f;
      var u := [s[0]] + Tied(s[1..], k);
      assert u[0] == s[0] && u[1..] == Tied(s[1..], k);
    }
  }

  /** A record is shown exactly when it meets all four criteria, with as many
      copies as the input holds; the view is sorted, never longer than the
      input, and stable against the input itself: the shown records that the
      comparator ties are the matching tied records of the input, in input
      order. */
  lemma ViewCorrect(s: seq<Todo>, c: Criteria)
    ensures forall t :: t in View(s, c) <==> t in s && Matches(t, c)
    ensures multiset(View(s, c)) == multiset(Filter(s, c))
    ensures forall t :: multiset(View(s, c))[t] == if Matches(t, c) then multiset(s)[t] else 0
    ensures |View(s, c)| <= |s|
    ensures Sorted(View(s, c))
    ensures forall k :: Tied(View(s, c), k) == Filter(Tied(s, k), c)
  {
    SortCorrect(Filter(s, c));
    forall k ensures Tied(View(s, c), k) == Filter(Tied(s, k), c) {
      FilterTied(s, c, k);
    }
    forall t ensures multiset(View(s, c))[t] == if Matches(t, c) then multiset(s)[t] else 0 {
      FilterCount(s, c, t);
    }
    var f := Filter(s, c);
    forall t ensures t in View(s, c) <==> t in f {
      assert t in View(s, c) <==> t in multiset(View(s, c));
      assert t in f <==> t in multiset(f);
    }
    assert |View(s, c)| == |multiset(View(s, c))| == |multiset(f)| == |f|;
  }

  /** Two dates compare as their first differing character. */
  lemma {:induction false} CompareDatesFirstDifference(a: string, b: string, k: nat)
    requires k < |a| && k < |b| && a[k] != b[k]
    requires forall i :: 0 <= i < k ==> a[i] == b[i]
    ensures CompareDates(a, b) == if a[k] < b[k] then -1 else 1
  {
    if k > 0 {
      CompareDatesFirstDifference(a[1..], b[1..], k - 1);
    }
  }

  lemma SortReversesThree(a: Todo, b: Todo, c: Todo)
    requires Compare(a, b) > 0 && Compare(a, c) > 0 && Compare(b, c) > 0
    ensures Sort([a, b, c]) == [c, b, a]
  {
    assert [a, b, c][1..] == [b, c] && [b, c][1..] == [c] && [b][1..] == [];
    assert Sort([c]) == [c];
    assert Sort([b, c]) == Insert(b, [c]) == [c, b];
    assert Insert(a, [c, b]) == [c] + Insert(a, [b]);
    assert Insert(a, [b]) == [b] + Insert(a, []) == [b, a];
  }

  lemma ScenarioDates()
    ensures CompareDates("2024-05-01", "2024-01-01") == 1
  {
  }

  /** Three records with no criteria: the high ones first by due date, then the low one. */
  lemma ViewScenarioSort(a: Todo, b: Todo, c: Todo)
    requires a == Todo("1", "A", "", false, Low, "", "2024-03-10", "t")
    requires b == Todo("2", "B", "", false, High, "", "2024-05-01", "t")
    requires c == Todo("3", "C", "", false, High, "", "2024-01-01", "t")
    ensures View([a, b, c], NoCriteria) == [c, b, a]
  {
    ScenarioDates();
    assert Compare(a, b) > 0 && Compare(a, c) > 0 && Compare(b, c) > 0;
    NoCriteriaShowsAll([a, b, c]);
    SortReversesThree(a, b, c);
  }

  /** The 'active' filter on one completed and one pending record keeps only the pending one. */
  lemma ViewScenarioActive(done: Todo, open: Todo)
    requires done == Todo("1", "A", "", true, Medium, "", "2024-03-10", "t")
    requires open == Todo("2", "B", "", false, Medium, "", "2024-03-11", "t")
    ensures View([done, open], NoCriteria.(status := Active)) == [open]
  {
    var c := NoCriteria.(status := Active);
    EmptySearchMatchesAll(open);
    assert [done, open][1..] == [open] && [open][1..] == [];
    assert !Matches(done, c) && Matches(open, c);
    assert Filter([open], c) == [open] + Filter([], c) == [open];
    assert Filter([done, open], c) == [open];
    assert Sort([open]) == Insert(open, []) == [open];
  }

  // ---------------------------------------------------------------------
  // Category options

  /** The distinct categories of the records, in order of first appearance. */
  function CategoriesSeen(s: seq<Todo>): (r: seq<string>)
    ensures forall i, j :: 0 <= i < j < |r| ==> r[i] != r[j]
    ensures forall x :: x in r <==> exists t :: t in s && t.category == x
    decreases |s|
  {
    if s == [] then []
    else
      var init := s[..|s| - 1];
      var last := s[|s| - 1];
      var d := CategoriesSeen(init);
      assert s == init + [last];
      if last.category in d then d else d + [last.category]
  }

  /** The distinct categories come in the order of their first record. */
  predicate InFirstSeenOrder(s: seq<Todo>, r: seq<string>) {
    forall i, j :: 0 <= i < j < |r| ==> FirstIndex(s, r[i]) < FirstIndex(s, r[j])
  }

  lemma {:induction false} CategoriesInFirstSeenOrder(s: seq<Todo>)
    ensures InFirstSeenOrder(s, CategoriesSeen(s))
    decreases |s|
  {
    if s != [] {
      var init := s[..|s| - 1];
      var last := s[|s| - 1];
      var d := CategoriesSeen(init);
      CategoriesInFirstSeenOrder(init);
      assert InFirstSeenOrder(init, d);
      FirstIndexPrefix(s, init, last);
      var r := CategoriesSeen(s);
      assert r == if last.category in d then d else d + [last.category];
      forall i, j | 0 <= i < j < |r| ensures FirstIndex(s, r[i]) < FirstIndex(s, r[j]) {
        assert r[i] == d[i] && r[i] in d;
        assert exists t :: t in init && t.category == r[i];
        assert FirstIndex(s, r[i]) == FirstIndex(init, r[i]) < |init|;
        if j < |d| {
          assert r[j] == d[j] && r[j] in d;
          assert exists t :: t in init && t.category == r[j];
          assert FirstIndex(s, r[j]) == FirstIndex(init, r[j]);
          assert FirstIndex(init, d[i]) < FirstIndex(init, d[j]);
        } else {
          assert r[j] == last.category && last.category !in d;
          assert forall t :: t in init ==> t.category != last.category;
          assert FirstIndex(s, r[j]) == |init|;
        }
      }
    }
  }

  /** The position of the first record with the given category. */
  function FirstIndex(s: seq<Todo>, category: string): nat
    ensures FirstIndex(s, category) <= |s|
  {
    if s == [] then 0
    else if s[0].category == category then 0
    else 1 + FirstIndex(s[1..], category)
  }

  lemma {:induction false} FirstIndexPrefix(s: seq<Todo>, init: seq<Todo>, last: Todo)
    requires s == init + [last]
    ensures forall x :: (exists t :: t in init && t.category == x) ==> FirstIndex(s, x) == FirstIndex(init, x) < |init|
    ensures (forall t :: t in init ==> t.category != last.category) ==> FirstIndex(s, last.category) == |init|
    decreases |s|
  {
    if init != [] {
      assert s[1..] == init[1..] + [last];
      FirstIndexPrefix(s[1..], init[1..], last);
      forall x | exists t :: t in init && t.category == x
        ensures FirstIndex(s, x) == FirstIndex(init, x) < |init|
      {
        if init[0].category != x {
          var t :| t in init && t.category == x;
          assert t in init[1..];
        }
      }
      if forall t :: t in init ==> t.category != last.category {
        assert init[0] in init;
      }
    }
  }

  /** The category options: the synthetic 'all' followed by the distinct
      categories in first-seen order. */
  function Categories(s: seq<Todo>): (r: seq<string>)
    ensures |r| >= 1 && r[0] == "all"
    ensures forall t :: t in s ==> t.category in r[1..]
    ensures forall x :: x in r[1..] ==> exists t :: t in s && t.category == x
    ensures forall i, j :: 1 <= i < j < |r| ==> r[i] != r[j]
    ensures r[1..] == CategoriesSeen(s)
    ensures InFirstSeenOrder(s, r[1..])
  {
    CategoriesInFirstSeenOrder(s);
    var seen := CategoriesSeen(s);
    assert forall t :: t in s ==> t.category in seen;
    ["all"] + seen
  }

  // ---------------------------------------------------------------------
  // High-priority count

  /** The high-priority records, in order: exactly what the view's filter
      keeps with only the high-priority toggle on, so every property of
      Filter (input order, every copy kept) carries over. */
  function HighOnly(s: seq<Todo>): (r: seq<Todo>)
    ensures forall t :: t in r <==> t in s && t.priority == High
    ensures r == Filter(s, NoCriteria.(showHighPriority := true))
  {
    if s == [] then []
    else
      EmptySearchMatchesAll(s[0]);
      if s[0].priority == High then [s[0]] + HighOnly(s[1..])
      else HighOnly(s[1..])
  }

  /** The number of high-priority records of the whole list; it takes no criteria. */
  function HighPriorityCount(s: seq<Todo>): (n: nat)
    ensures n <= |s|
  {
    |HighOnly(s)|
  }

  /** The count equals the length of the view with only the high-priority
      toggle on. */
  lemma HighPriorityCountIsHighView(s: seq<Todo>)
    ensures HighPriorityCount(s) == |View(s, NoCriteria.(showHighPriority := true))|
  {
    var c := NoCriteria.(showHighPriority := true);
    SortCorrect(Filter(s, c));
    assert |View(s, c)| == |multiset(View(s, c))| == |multiset(Filter(s, c))|;
  }
}
