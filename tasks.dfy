/** The task record and the pure parts of the create, update and delete
    handlers: building a new record, overlaying an update, finding the
    record to update and removing the records to delete. */
module Tasks {
  import opened Outcomes
  import opened Json
  import opened Strings
  import opened Sorting
  import opened Validation

  /** A stored task. The title is always a string (only a validated title is
      ever stored); the other user-supplied fields keep whatever JSON value
      the request carried. Timestamps are milliseconds since the epoch. */
  datatype Task = Task(
    id: string,
    userId: string,
    title: string,
    description: Value,
    dueDate: Value,
    priority: Value,
    status: Value,
    createdAt: nat,
    updatedAt: nat)

  const TaskNotFound := "Task not found"

  /** The task seen as a payload, as `validateTaskPayload` would see it. */
  function Fields(t: Task): Payload {
    Payload(Str(t.title), t.description, t.dueDate, t.priority, t.status)
  }

  /** A task that passes validation: the invariant every stored task keeps. */
  predicate WellFormed(t: Task) {
    ValidateTaskPayload(Fields(t)) == None
  }

  /** The record the create handler builds from a valid body: falsy fields
      take their defaults (`''` description, `null` due date, `Medium`
      priority, `Pending` status), the caller owns it, and both timestamps are
      the creation time, whose decimal form is also the id. */
  function NewTask(body: Payload, caller: string, now: nat): (t: Task)
    requires ValidateTaskPayload(body) == None
    ensures WellFormed(t)
    ensures t.id == DecimalString(now) && t.userId == caller
    ensures t.createdAt == now && t.updatedAt == now
    ensures Str(t.title) == body.title
    ensures t.description == (if Truthy(body.description) then body.description else Str(""))
    ensures t.dueDate == (if Truthy(body.dueDate) then body.dueDate else Null)
    ensures t.priority == (if Truthy(body.priority) then body.priority else Str("Medium"))
    ensures t.status == (if Truthy(body.status) then body.status else Str("Pending"))
    ensures IsPriority(t.priority) && IsStatus(t.status)
  {
    Task(
      DecimalString(now),
      caller,
      body.title.s,
      Or(body.description, Str("")),
      Or(body.dueDate, Null),
      Or(body.priority, Str("Medium")),
      Or(body.status, Str("Pending")),
      now,
      now)
  }

  /** What the update handler validates: the supplied title, priority and
      status, each falling back to the stored one when null or absent.
      Description and due date are left out, so they are never checked. */
  function Merged(t: Task, body: Payload): Payload {
    Payload(
      Coalesce(body.title, Str(t.title)),
      Undefined,
      Undefined,
      Coalesce(body.priority, t.priority),
      Coalesce(body.status, t.status))
  }

  /** The record after a successful update: every field takes the supplied
      value unless that is null or absent, and the update time is refreshed;
      id, owner and creation time stay. The result still passes validation. */
  function Overlay(t: Task, body: Payload, now: nat): (r: Task)
    requires ValidateTaskPayload(Merged(t, body)) == None
    ensures WellFormed(r)
    ensures r.id == t.id && r.userId == t.userId && r.createdAt == t.createdAt
    ensures r.updatedAt == now
    ensures Str(r.title) == (if Nullish(body.title) then Str(t.title) else body.title)
    ensures r.description == (if Nullish(body.description) then t.description else body.description)
    ensures r.dueDate == (if Nullish(body.dueDate) then t.dueDate else body.dueDate)
    ensures r.priority == (if Nullish(body.priority) then t.priority else body.priority)
    ensures r.status == (if Nullish(body.status) then t.status else body.status)
  {
    Task(
      t.id,
      t.userId,
      Coalesce(body.title, Str(t.title)).s,
      Coalesce(body.description, t.description),
      Coalesce(body.dueDate, t.dueDate),
      Coalesce(body.priority, t.priority),
      Coalesce(body.status, t.status),
      t.createdAt,
      now)
  }

  /** An empty priority passes validation (only a truthy one is checked) and
      an update stores it as it is, because `??` keeps `''`; a create turns the
      same `''` into `Medium`. */
  lemma EmptyPriorityQuirk(t: Task, body: Payload, now: nat)
    requires body.priority == Str("")
    requires TitleOk(Coalesce(body.title, Str(t.title)))
    requires StatusOk(Coalesce(body.status, t.status))
    ensures ValidateTaskPayload(Merged(t, body)) == None
    ensures Overlay(t, body, now).priority == Str("")
    ensures ValidateTaskPayload(body) == None ==> NewTask(body, t.userId, now).priority == Str("Medium")
  {
  }

  /** The task a request for `id` by `caller` addresses. */
  predicate IsTarget(t: Task, id: string, caller: string) {
    t.id == id && t.userId == caller
  }

  /** `tasks.find(...)`: the index of the first task with that id owned by the
      caller, or `None` when there is none. */
  function FirstMatch(ts: seq<Task>, id: string, caller: string): (r: Option<nat>)
    ensures r.None? <==> forall k :: 0 <= k < |ts| ==> !IsTarget(ts[k], id, caller)
    ensures r.Some? ==> r.value < |ts| && IsTarget(ts[r.value], id, caller)
    ensures r.Some? ==> forall k :: 0 <= k < r.value ==> !IsTarget(ts[k], id, caller)
    decreases |ts|
  {
    if ts == [] then None
    else if IsTarget(ts[0], id, caller) then Some(0)
    else match FirstMatch(ts[1..], id, caller)
      case None => None
      case Some(k) => Some(k + 1)
  }

  /** `tasks.filter(x => !(x.id === id && x.userId === caller))`: every task
      but the addressed ones, in their original order. */
  function Without(ts: seq<Task>, id: string, caller: string): (r: seq<Task>)
    ensures forall t :: t in r <==> t in ts && !IsTarget(t, id, caller)
    ensures |r| <= |ts|
    ensures SubsequenceOf(r, ts)
    decreases |ts|
  {
    if ts == [] then []
    else if IsTarget(ts[0], id, caller) then Without(ts[1..], id, caller)
    else [ts[0]] + Without(ts[1..], id, caller)
  }

  /** The remainder keeps every copy of a task that is not addressed and no
      copy of one that is. */
  lemma {:induction false} WithoutCounts(ts: seq<Task>, id: string, caller: string)
    ensures forall t ::
      multiset(Without(ts, id, caller))[t] == if IsTarget(t, id, caller) then 0 else multiset(ts)[t]
    decreases |ts|
  {
    if ts != [] {
      WithoutCounts(ts[1..], id, caller);
      assert ts == [ts[0]] + ts[1..];
    }
  }

  /** The delete handler's length test is exact: the remainder is as long as
      the collection if and only if no task is addressed. */
  lemma {:induction false} WithoutKeepsLength(ts: seq<Task>, id: string, caller: string)
    ensures |Without(ts, id, caller)| == |ts| <==> forall t :: t in ts ==> !IsTarget(t, id, caller)
    decreases |ts|
  {
    if ts != [] {
      WithoutKeepsLength(ts[1..], id, caller);
      assert forall t :: t in ts <==> t == ts[0] || t in ts[1..];
    }
  }
}
