/** Resolution of the epic workflow's state ids by exact name (main.js:37, 39-40). */
module Workflow {
  import opened Results

  type StateId = int

  datatype EpicState = EpicState(id: StateId, name: string)

  /** The `epic-workflow` resource: its ordered list of epic states. */
  datatype EpicWorkflow = EpicWorkflow(epicStates: seq<EpicState>)

  /** The two state ids the reconciliation moves epics between. */
  datatype StateIds = StateIds(toDo: StateId, inProgress: StateId)

  const ToDoName: string := "to do"
  const InProgressName: string := "in progress"

  /** `epic_states.find(state => state.name === name)`, as an index. */
  function FirstStateNamed(states: seq<EpicState>, name: string): (r: Option<nat>)
    ensures r.Some? ==>
      r.value < |states| && states[r.value].name == name &&
      forall j :: 0 <= j < r.value ==> states[j].name != name
    ensures r.None? <==> forall j :: 0 <= j < |states| ==> states[j].name != name
  {
    if |states| == 0 then None
    else if states[0].name == name then Some(0)
    else
      match FirstStateNamed(states[1..], name)
      case None => None
      case Some(i) => Some(i + 1)
  }

  /** `epic_states.find(...).id`: the id of the first state with that exact
      name; reading `.id` of `undefined` fails the invocation. */
  function ResolveStateId(states: seq<EpicState>, name: string): (r: Result<StateId>)
    ensures r.Ok? ==>
      exists i :: 0 <= i < |states| && states[i].name == name && states[i].id == r.value &&
        (forall j :: 0 <= j < i ==> states[j].name != name)
    ensures r.Err? <==> forall j :: 0 <= j < |states| ==> states[j].name != name
    ensures r.Err? ==> r.error == MissingEpicState(name)
  {
    match FirstStateNamed(states, name)
    case None => Err(MissingEpicState(name))
    case Some(i) => Ok(states[i].id)
  }

  /** Lines 39-40 in order: "to do" is resolved first, so its failure is the one reported. */
  function ResolveStateIds(workflow: EpicWorkflow): (r: Result<StateIds>)
    ensures r.Ok? <==>
      (exists i :: 0 <= i < |workflow.epicStates| && workflow.epicStates[i].name == ToDoName) &&
      (exists i :: 0 <= i < |workflow.epicStates| && workflow.epicStates[i].name == InProgressName)
    ensures r.Ok? ==>
      Ok(r.value.toDo) == ResolveStateId(workflow.epicStates, ToDoName) &&
      Ok(r.value.inProgress) == ResolveStateId(workflow.epicStates, InProgressName)
    ensures r.Err? ==>
      r.error == (if ResolveStateId(workflow.epicStates, ToDoName).Err?
                  then MissingEpicState(ToDoName) else MissingEpicState(InProgressName))
  {
    var toDo :- ResolveStateId(workflow.epicStates, ToDoName);
    var inProgress :- ResolveStateId(workflow.epicStates, InProgressName);
    Ok(StateIds(toDo, inProgress))
  }
}
