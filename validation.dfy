/** `validateTaskPayload`: the rules a task's title, priority and status must
    meet, checked in that order, with the first failure reported. */
module Validation {
  import opened Outcomes
  import opened Json
  import opened Strings

  /** The task fields of a request body; any of them may be absent. */
  datatype Payload = Payload(title: Value, description: Value, dueDate: Value, priority: Value, status: Value)

  const TitleRequired := "Title is required"
  const PriorityInvalid := "Priority must be Low, Medium or High"
  const StatusInvalid := "Invalid status"

  /** One of the three priorities, compared with `===`. */
  predicate IsPriority(v: Value) {
    v == Str("Low") || v == Str("Medium") || v == Str("High")
  }

  /** One of the three statuses, compared with `===`. */
  predicate IsStatus(v: Value) {
    v == Str("Pending") || v == Str("In Progress") || v == Str("Completed")
  }

  /** The title rule: a string with at least one non-white-space character. */
  predicate TitleOk(v: Value) {
    v.Str? && !Blank(v.s)
  }

  /** The priority rule, which only applies to a truthy priority. */
  predicate PriorityOk(v: Value) {
    !Truthy(v) || IsPriority(v)
  }

  /** The status rule, which only applies to a truthy status. */
  predicate StatusOk(v: Value) {
    !Truthy(v) || IsStatus(v)
  }

  /** Returns the message of the first rule the payload breaks, or `None`.
      Description and due date are never examined. */
  function ValidateTaskPayload(p: Payload): (r: Option<string>)
    ensures r == None <==> TitleOk(p.title) && PriorityOk(p.priority) && StatusOk(p.status)
    ensures r == Some(TitleRequired) <==> !TitleOk(p.title)
    ensures r == Some(PriorityInvalid) <==> TitleOk(p.title) && !PriorityOk(p.priority)
    ensures r == Some(StatusInvalid) <==>
      TitleOk(p.title) && PriorityOk(p.priority) && !StatusOk(p.status)
  {
    if !Truthy(p.title) || !p.title.Str? || |Trim(p.title.s)| == 0 then Some(TitleRequired)
    else if Truthy(p.priority) && !IsPriority(p.priority) then Some(PriorityInvalid)
    else if Truthy(p.status) && !IsStatus(p.status) then Some(StatusInvalid)
    else None
  }
}
