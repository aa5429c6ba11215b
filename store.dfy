/** The task collection the handlers load, change and write back, with the
    bodies of the list, create, update and delete handlers as methods. */
module Store {
  import opened Outcomes
  import opened Json
  import opened Strings
  import opened Sorting
  import opened Validation
  import opened Tasks
  import opened Query

  class TaskStore {
    /** The whole collection, in file order. */
    var tasks: seq<Task>

    /** Every stored task passes validation. */
    ghost predicate Valid()
      reads this
    {
      forall t :: t in tasks ==> WellFormed(t)
    }

    /** A collection that does not exist yet reads as empty. */
    constructor ()
      ensures tasks == [] && Valid()
    {
      tasks := [];
    }

    /** GET /api/tasks: the caller's tasks, narrowed step by step by each
        supplied filter, then sorted in place when `sortBy` is given. */
    method List(caller: string, query: Query, dateValue: Value -> int) returns (r: Result<seq<Task>>)
      ensures r == Listing(tasks, caller, query, dateValue)
    {
      var all := tasks;
      ghost var cs := [OwnedBy(caller)];
      var found := Keep(all, [OwnedBy(caller)]);
      if query.status != "" {
        KeepThenKeep(all, cs, StatusIs(query.status));
        found := Keep(found, [StatusIs(query.status)]);
        cs := cs + [StatusIs(query.status)];
      }
      if query.priority != "" {
        KeepThenKeep(all, cs, PriorityIs(query.priority));
        found := Keep(found, [PriorityIs(query.priority)]);
        cs := cs + [PriorityIs(query.priority)];
      }
      assert cs == Criteria(caller, query);
      if query.q != "" {
        var searched := Search(found, Lower(query.q));
        if searched.Err? {
          return Err(searched.error);
        }
        found := searched.value;
      }
      if query.sortBy != "" {
        var a := new Task[|found|](k requires 0 <= k < |found| => found[k]);
        assert a[..] == found;
        SortInPlace(a, KeyOf(query, dateValue));
        found := a[..];
      }
      r := Ok(found);
    }

    /** POST /api/tasks: an invalid body is refused with the validation
        message and nothing stored; a valid one appends exactly one new task,
        owned by the caller, after all the others. */
    method Create(caller: string, body: Payload, now: nat) returns (r: Result<Task>)
      requires Valid()
      modifies this
      ensures Valid()
      ensures match ValidateTaskPayload(body)
        case Some(message) => r == Err(BadRequest(message)) && tasks == old(tasks)
        case None => r == Ok(NewTask(body, caller, now)) && tasks == old(tasks) + [r.value]
    {
      var err := ValidateTaskPayload(body);
      if err.Some? {
        return Err(BadRequest(err.value));
      }
      var task := NewTask(body, caller, now);
      tasks := tasks + [task];
      r := Ok(task);
    }

    /** PUT /api/tasks/:id: not found unless some task has that id and the
        caller as owner; refused with the validation message when the merged
        title, priority and status are invalid; otherwise only the first such
        task is overlaid with the body. */
    method Update(caller: string, id: string, body: Payload, now: nat) returns (r: Result<Task>)
      requires Valid()
      modifies this
      ensures Valid()
      ensures match FirstMatch(old(tasks), id, caller)
        case None => r == Err(NotFound(TaskNotFound)) && tasks == old(tasks)
        case Some(i) =>
          match ValidateTaskPayload(Merged(old(tasks)[i], body))
          case Some(message) => r == Err(BadRequest(message)) && tasks == old(tasks)
          case None => r == Ok(Overlay(old(tasks)[i], body, now)) && tasks == old(tasks)[i := r.value]
    {
      var found := FirstMatch(tasks, id, caller);
      if found.None? {
        return Err(NotFound(TaskNotFound));
      }
      var i := found.value;
      var t := tasks[i];
      var err := ValidateTaskPayload(Merged(t, body));
      if err.Some? {
        return Err(BadRequest(err.value));
      }
      var updated := Overlay(t, body, now);
      tasks := tasks[i := updated];
      r := Ok(updated);
    }

    /** DELETE /api/tasks/:id: not found when the remainder is as long as the
        collection, which is exactly when no task has that id and the caller
        as owner; otherwise every such task is removed. */
    method Delete(caller: string, id: string) returns (r: Result<()>)
      requires Valid()
      modifies this
      ensures Valid()
      ensures r.Err? <==> forall t :: t in old(tasks) ==> !IsTarget(t, id, caller)
      ensures r.Err? ==> r.error == NotFound(TaskNotFound) && tasks == old(tasks)
      ensures r.Ok? ==> tasks == Without(old(tasks), id, caller)
    {
      var before := |tasks|;
      var remainder := Without(tasks, id, caller);
      WithoutKeepsLength(tasks, id, caller);
      if |remainder| == before {
        return Err(NotFound(TaskNotFound));
      }
      tasks := remainder;
      r := Ok(());
    }
  }

  /** In a valid store the priority sort key of 0 means a falsy priority:
      no stored task carries a truthy priority outside Low, Medium and High. */
  lemma StoredRankZeroIsFalsy(store: TaskStore)
    requires store.Valid()
    ensures forall t :: t in store.tasks ==> (Rank(t.priority) == 0 <==> !Truthy(t.priority))
  {
  }

  /** A delete never touches another user's tasks: their list is the same
      before and after. */
  lemma {:induction false} DeleteSparesOthers(ts: seq<Task>, id: string, caller: string, other: string)
    requires other != caller
    ensures Keep(Without(ts, id, caller), [OwnedBy(other)]) == Keep(ts, [OwnedBy(other)])
    decreases |ts|
  {
    if ts != [] {
      var cs := [OwnedBy(other)];
      var rest := Without(ts[1..], id, caller);
      DeleteSparesOthers(ts[1..], id, caller, other);
      HoldsSingle(OwnedBy(other), ts[0]);
      assert ts == [ts[0]] + ts[1..];
      KeepCons(ts[0], ts[1..], cs);
      if IsTarget(ts[0], id, caller) {
        assert Without(ts, id, caller) == rest;
        assert !HoldsAll(cs, ts[0]);
      } else {
        assert Without(ts, id, caller) == [ts[0]] + rest;
        KeepCons(ts[0], rest, cs);
      }
    }
  }

  /** After a delete, no list the caller asks for shows a task with that id. */
  lemma DeletedNotListed(ts: seq<Task>, id: string, caller: string, query: Query, dateValue: Value -> int)
    requires Listing(Without(ts, id, caller), caller, query, dateValue).Ok?
    ensures forall t :: t in Listing(Without(ts, id, caller), caller, query, dateValue).value ==> t.id != id
  {
    var rest := Without(ts, id, caller);
    SelectionMembers(rest, caller, query);
    var sel := Selection(rest, caller, query).value;
    ArrangePermutes(sel, query, dateValue);
    forall t | t in Arrange(sel, query, dateValue) ensures t.id != id {
      assert t in multiset(Arrange(sel, query, dateValue));
    }
  }

  lemma {:induction false} KeepAppend(ts: seq<Task>, t: Task, cs: seq<Criterion>)
    ensures Keep(ts + [t], cs) == Keep(ts, cs) + (if HoldsAll(cs, t) then [t] else [])
    decreases |ts|
  {
    if ts == [] {
      assert ts + [t] == [t];
    } else {
      assert (ts + [t])[1..] == ts[1..] + [t];
      KeepAppend(ts[1..], t, cs);
    }
  }

  /** A created task shows up last in its owner's unfiltered, unsorted list. */
  lemma CreatedIsListed(ts: seq<Task>, body: Payload, caller: string, now: nat, dateValue: Value -> int)
    requires ValidateTaskPayload(body) == None
    ensures Listing(ts + [NewTask(body, caller, now)], caller, Query("", "", "", "", ""), dateValue)
      == Ok(Keep(ts, [OwnedBy(caller)]) + [NewTask(body, caller, now)])
  {
    var t := NewTask(body, caller, now);
    UnfilteredListing(ts + [t], caller, dateValue);
    KeepAppend(ts, t, [OwnedBy(caller)]);
    HoldsSingle(OwnedBy(caller), t);
  }
}
