/** The list handler's query engine: ownership and exact-match filters, the
    case-insensitive search, and the optional stable sort. */
module Query {
  import opened Outcomes
  import opened Json
  import opened Strings
  import opened Sorting
  import opened Tasks

  /** The query string of a list request; an absent parameter is `""`, which
      behaves exactly like an empty one. */
  datatype Query = Query(status: string, priority: string, q: string, sortBy: string, sortDir: string)

  /** One exact-match filter step. */
  datatype Criterion =
    | OwnedBy(userId: string)
    | StatusIs(status: string)
    | PriorityIs(priority: string)

  predicate Holds(c: Criterion, t: Task) {
    match c
    case OwnedBy(u) => t.userId == u
    case StatusIs(s) => t.status == Str(s)
    case PriorityIs(p) => t.priority == Str(p)
  }

  predicate HoldsAll(cs: seq<Criterion>, t: Task) {
    forall c :: c in cs ==> Holds(c, t)
  }

  lemma HoldsSingle(c: Criterion, t: Task)
    ensures HoldsAll([c], t) <==> Holds(c, t)
  {
    assert c in [c];
  }

  /** The tasks meeting every criterion, in their original order. */
  function Keep(ts: seq<Task>, cs: seq<Criterion>): (r: seq<Task>)
    ensures forall t :: t in r <==> t in ts && HoldsAll(cs, t)
    ensures SubsequenceOf(r, ts)
    decreases |ts|
  {
    if ts == [] then []
    else if HoldsAll(cs, ts[0]) then [ts[0]] + Keep(ts[1..], cs)
    else Keep(ts[1..], cs)
  }

  /** Filtering a list with a known first task. */
  lemma KeepCons(t: Task, rest: seq<Task>, cs: seq<Criterion>)
    ensures Keep([t] + rest, cs) == (if HoldsAll(cs, t) then [t] else []) + Keep(rest, cs)
  {
    assert ([t] + rest)[1..] == rest;
  }

  /** A filter keeps every copy of a task that meets the criteria and no
      copy of one that does not. */
  lemma {:induction false} KeepCounts(ts: seq<Task>, cs: seq<Criterion>)
    ensures forall t :: multiset(Keep(ts, cs))[t] == if HoldsAll(cs, t) then multiset(ts)[t] else 0
    decreases |ts|
  {
    if ts != [] {
      KeepCounts(ts[1..], cs);
      assert ts == [ts[0]] + ts[1..];
    }
  }

  /** Filtering again by one more criterion is filtering once by all of
      them: successive `filter` calls combine with AND. */
  lemma {:induction false} KeepThenKeep(ts: seq<Task>, cs: seq<Criterion>, c: Criterion)
    ensures Keep(Keep(ts, cs), [c]) == Keep(ts, cs + [c])
    decreases |ts|
  {
    if ts != [] {
      KeepThenKeep(ts[1..], cs, c);
      var t := ts[0];
      assert HoldsAll(cs + [c], t) <==> HoldsAll(cs, t) && HoldsAll([c], t);
      if HoldsAll(cs, t) {
        assert ([t] + Keep(ts[1..], cs))[1..] == Keep(ts[1..], cs);
      }
    }
  }

  /** The filters the list handler applies: ownership always, status and
      priority only when that parameter is non-empty. */
  function Criteria(caller: string, query: Query): seq<Criterion> {
    [OwnedBy(caller)]
    + (if query.status != "" then [StatusIs(query.status)] else [])
    + (if query.priority != "" then [PriorityIs(query.priority)] else [])
  }

  /** The search callback for one task and the lower-cased query `ql`:
      `Some(keep)`, or `None` when it throws because the description is a
      truthy non-string (the title is searched first and short-circuits). */
  function Matches(t: Task, ql: string): Option<bool> {
    if Includes(Lower(t.title), ql) then Some(true)
    else match TextOf(t.description)
      case None => None
      case Some(d) => Some(Includes(Lower(d), ql))
  }

  /** A task is kept by the search exactly when the lower-cased query occurs
      in its lower-cased title or in its lower-cased description (a missing
      description reads as `''`), and the search throws exactly when the
      title does not contain it and the description is not text. */
  lemma MatchesMeaning(t: Task, ql: string)
    ensures Matches(t, ql) == Some(true) <==>
      (exists i :: OccursAt(Lower(t.title), ql, i)) ||
      (TextOf(t.description).Some? && exists i :: OccursAt(Lower(TextOf(t.description).value), ql, i))
    ensures Matches(t, ql) == None <==>
      (forall i :: !OccursAt(Lower(t.title), ql, i)) && TextOf(t.description) == None
  {
    IncludesIff(Lower(t.title), ql);
    if TextOf(t.description).Some? {
      IncludesIff(Lower(TextOf(t.description).value), ql);
    }
  }

  /** `tasks.filter(...)` with the search callback: the kept tasks in order,
      or an internal error when the callback throws on some task. */
  function Search(ts: seq<Task>, ql: string): (r: Result<seq<Task>>)
    ensures r.Err? <==> exists t :: t in ts && Matches(t, ql) == None
    ensures r.Err? ==> r.error == InternalError
    ensures r.Ok? ==> forall t :: t in r.value <==> t in ts && Matches(t, ql) == Some(true)
    ensures r.Ok? ==> SubsequenceOf(r.value, ts)
    decreases |ts|
  {
    if ts == [] then Ok([])
    else match Matches(ts[0], ql)
      case None => Err(InternalError)
      case Some(keep) =>
        match Search(ts[1..], ql)
        case Err(e) => Err(e)
        case Ok(rest) => Ok(if keep then [ts[0]] + rest else rest)
  }

  /** A successful search keeps every copy of a matching task and no copy of
      any other. */
  lemma {:induction false} SearchCounts(ts: seq<Task>, ql: string)
    requires Search(ts, ql).Ok?
    ensures forall t ::
      multiset(Search(ts, ql).value)[t] == if Matches(t, ql) == Some(true) then multiset(ts)[t] else 0
    decreases |ts|
  {
    if ts != [] {
      SearchCounts(ts[1..], ql);
      assert ts == [ts[0]] + ts[1..];
    }
  }

  /** `map[priority] || 0` with `map = { Low: 1, Medium: 2, High: 3 }`. */
  function Rank(priority: Value): (r: nat)
    ensures r <= 3
    ensures r == 0 <==> !(priority == Str("Low") || priority == Str("Medium") || priority == Str("High"))
  {
    if priority == Str("Low") then 1
    else if priority == Str("Medium") then 2
    else if priority == Str("High") then 3
    else 0
  }

  /** Low ranks below Medium, Medium below High, and anything else below Low. */
  lemma RankOrder(other: Value)
    requires other != Str("Low") && other != Str("Medium") && other != Str("High")
    ensures Rank(other) < Rank(Str("Low")) < Rank(Str("Medium")) < Rank(Str("High"))
  {
  }

  /** `-1` exactly when `sortDir` is `desc`, `1` otherwise. */
  function Direction(sortDir: string): int {
    if sortDir == "desc" then -1 else 1
  }

  /** The number the comparator subtracts for `sortBy`: the due date as a
      time value (`dateValue` stands for `+new Date(v)`, applied to
      `dueDate || 0`), the priority rank, the creation time, or `0` for an
      unrecognised key. */
  function BaseKey(t: Task, sortBy: string, dateValue: Value -> int): int {
    if sortBy == "dueDate" then dateValue(Or(t.dueDate, Num(0)))
    else if sortBy == "priority" then Rank(t.priority)
    else if sortBy == "createdAt" then t.createdAt
    else 0
  }

  /** The comparator passed to `tasks.sort`, as the handler writes it. */
  function Compare(a: Task, b: Task, query: Query, dateValue: Value -> int): int {
    var dir := Direction(query.sortDir);
    if query.sortBy == "dueDate" then
      (dateValue(Or(a.dueDate, Num(0))) - dateValue(Or(b.dueDate, Num(0)))) * dir
    else if query.sortBy == "priority" then (Rank(a.priority) - Rank(b.priority)) * dir
    else if query.sortBy == "createdAt" then (a.createdAt - b.createdAt) * dir
    else 0
  }

  /** The sort key: the comparator is the difference of the two keys. */
  function KeyOf(query: Query, dateValue: Value -> int): Task -> int {
    t => Direction(query.sortDir) * BaseKey(t, query.sortBy, dateValue)
  }

  lemma CompareIsKeyDifference(a: Task, b: Task, query: Query, dateValue: Value -> int)
    ensures Compare(a, b, query, dateValue) == KeyOf(query, dateValue)(a) - KeyOf(query, dateValue)(b)
  {
    var d := Direction(query.sortDir);
    assert d == 1 || d == -1;
  }

  /** The filtered list before sorting: the tasks meeting every criterion,
      then the search when `q` is non-empty. */
  function Selection(all: seq<Task>, caller: string, query: Query): Result<seq<Task>> {
    var kept := Keep(all, Criteria(caller, query));
    if query.q == "" then Ok(kept) else Search(kept, Lower(query.q))
  }

  /** The sort step: none without `sortBy`, else the stable sort by key. */
  function Arrange(ts: seq<Task>, query: Query, dateValue: Value -> int): seq<Task> {
    if query.sortBy == "" then ts else SortBy(ts, KeyOf(query, dateValue))
  }

  /** The answer to a list request over the collection `all`. */
  function Listing(all: seq<Task>, caller: string, query: Query, dateValue: Value -> int): Result<seq<Task>> {
    match Selection(all, caller, query)
    case Err(e) => Err(e)
    case Ok(sel) => Ok(Arrange(sel, query, dateValue))
  }

  /** The filtered list is an order-preserving subsequence of the collection
      whose members are exactly the caller's tasks meeting every supplied
      filter (AND); an empty parameter filters nothing. */
  lemma SelectionMembers(all: seq<Task>, caller: string, query: Query)
    requires Selection(all, caller, query).Ok?
    ensures SubsequenceOf(Selection(all, caller, query).value, all)
    ensures forall t :: t in Selection(all, caller, query).value <==>
      t in all && t.userId == caller
      && (query.status == "" || t.status == Str(query.status))
      && (query.priority == "" || t.priority == Str(query.priority))
      && (query.q == "" || Matches(t, Lower(query.q)) == Some(true))
  {
    var cs := Criteria(caller, query);
    var kept := Keep(all, cs);
    forall t ensures HoldsAll(cs, t) <==>
      t.userId == caller
      && (query.status == "" || t.status == Str(query.status))
      && (query.priority == "" || t.priority == Str(query.priority))
    {
      assert OwnedBy(caller) in cs;
      assert query.status != "" ==> StatusIs(query.status) in cs;
      assert query.priority != "" ==> PriorityIs(query.priority) in cs;
    }
    if query.q != "" {
      SubsequenceTrans(Selection(all, caller, query).value, kept, all);
    }
  }

  /** The list request fails exactly when there is a search and the search
      callback throws on some task that passed the other filters. */
  lemma SelectionFails(all: seq<Task>, caller: string, query: Query)
    ensures Selection(all, caller, query).Err? <==>
      query.q != "" &&
      exists t :: t in all && HoldsAll(Criteria(caller, query), t) && Matches(t, Lower(query.q)) == None
  {
  }

  /** The sort step keeps every task: its output is a permutation. */
  lemma ArrangePermutes(ts: seq<Task>, query: Query, dateValue: Value -> int)
    ensures |Arrange(ts, query, dateValue)| == |ts|
    ensures multiset(Arrange(ts, query, dateValue)) == multiset(ts)
  {
    if query.sortBy != "" {
      SortByPermutes(ts, KeyOf(query, dateValue));
    }
  }

  /** With a `sortBy`, the comparator never answers a positive number for an
      earlier task against a later one. */
  lemma ArrangeOrdered(ts: seq<Task>, query: Query, dateValue: Value -> int)
    requires query.sortBy != ""
    ensures |Arrange(ts, query, dateValue)| == |ts|
    ensures forall i, j :: 0 <= i < j < |ts| ==>
      Compare(Arrange(ts, query, dateValue)[i], Arrange(ts, query, dateValue)[j], query, dateValue) <= 0
  {
    var r := SortBy(ts, KeyOf(query, dateValue));
    SortBySorted(ts, KeyOf(query, dateValue));
    forall i, j | 0 <= i < j < |ts| ensures Compare(r[i], r[j], query, dateValue) <= 0 {
      CompareIsKeyDifference(r[i], r[j], query, dateValue);
    }
  }

  /** Tasks whose keys are equal keep their filtered order. */
  lemma ArrangeStable(ts: seq<Task>, query: Query, dateValue: Value -> int, k: int)
    ensures WithKey(Arrange(ts, query, dateValue), KeyOf(query, dateValue), k) ==
            WithKey(ts, KeyOf(query, dateValue), k)
  {
    if query.sortBy != "" {
      SortByStable(ts, KeyOf(query, dateValue), k);
    }
  }

  /** Without a `sortBy`, or with an unrecognised one, the order is unchanged. */
  lemma ArrangeUnchanged(ts: seq<Task>, query: Query, dateValue: Value -> int)
    requires query.sortBy != "dueDate" && query.sortBy != "priority" && query.sortBy != "createdAt"
    ensures Arrange(ts, query, dateValue) == ts
  {
    if query.sortBy != "" {
      SortByConstant(ts, KeyOf(query, dateValue), 0);
    }
  }

  /** Sorting by priority orders Low before Medium before High (unknown
      priorities first) ascending, and the reverse when `sortDir` is `desc`. */
  lemma PrioritySortOrder(ts: seq<Task>, query: Query, dateValue: Value -> int)
    requires query.sortBy == "priority"
    ensures |Arrange(ts, query, dateValue)| == |ts|
    ensures forall i, j :: 0 <= i < j < |ts| ==>
      var r := Arrange(ts, query, dateValue);
      if query.sortDir == "desc" then Rank(r[i].priority) >= Rank(r[j].priority)
      else Rank(r[i].priority) <= Rank(r[j].priority)
  {
    ArrangeOrdered(ts, query, dateValue);
  }

  /** With no filter, no search and no sort, a list request answers exactly
      the caller's tasks in stored order. */
  lemma UnfilteredListing(all: seq<Task>, caller: string, dateValue: Value -> int)
    ensures Listing(all, caller, Query("", "", "", "", ""), dateValue) == Ok(Keep(all, [OwnedBy(caller)]))
    ensures forall t :: t in Keep(all, [OwnedBy(caller)]) <==> t in all && t.userId == caller
  {
    assert Criteria(caller, Query("", "", "", "", "")) == [OwnedBy(caller)];
    forall t ensures HoldsAll([OwnedBy(caller)], t) <==> t.userId == caller {
      HoldsSingle(OwnedBy(caller), t);
    }
  }
}
