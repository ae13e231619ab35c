/** The handler entry point (main.js:35-77, 125): resolve the workflow's
    state ids, look for an actionable action, and if there is one, locate
    and reconcile the epics. The fetched `epic-workflow` and `epics`
    resources are parameters; the per-epic reads and the writes go to the
    store. */
module Handler {
  import opened Results
  import opened Events
  import opened Workflow
  import opened Epics
  import opened Reconciler

  /** What an invocation does to the store, or why it fails. */
  function Run(event: Event, workflow: EpicWorkflow, allEpics: seq<Epic>, states: map<EpicId, StateId>): Result<Effect> {
    var ids :- ResolveStateIds(workflow);
    var action :- GetActionForSideEffect(event.actions, UpdateEpicWhenStoryProgresses);
    if action.Some? then Ok(Reconciled(states, ClassificationOf(allEpics), ids)) else Ok(NoEffect(states))
  }

  method Handle(event: Event, workflow: EpicWorkflow, allEpics: seq<Epic>, store: EpicStore) returns (r: Result<Event>)
    modifies store
    ensures r.Ok? <==> Run(event, workflow, allEpics, old(store.epicStates)).Ok?
    ensures r.Ok? ==> r.value == event
    ensures r.Err? ==> r.error == Run(event, workflow, allEpics, old(store.epicStates)).error
    ensures r.Err? ==> unchanged(store)
    ensures r.Ok? ==>
      var effect := Run(event, workflow, allEpics, old(store.epicStates)).value;
      && store.epicStates == effect.states
      && store.fetches == old(store.fetches) + effect.fetches
      && store.updates == old(store.updates) + effect.updates
  {
    var ids :- ResolveStateIds(workflow);
    var action :- GetActionForSideEffect(event.actions, UpdateEpicWhenStoryProgresses);
    if action.Some? {
      var c := Classify(allEpics);
      Reconcile(store, c, ids);
    }
    return Ok(event);
  }

  /** A workflow without a state named exactly "to do" or "in progress" fails
      the invocation, whatever the event, before any per-epic read or write. */
  lemma MisconfiguredWorkflowFails(event: Event, workflow: EpicWorkflow, allEpics: seq<Epic>, states: map<EpicId, StateId>, name: string)
    requires name == ToDoName || name == InProgressName
    requires forall j :: 0 <= j < |workflow.epicStates| ==> workflow.epicStates[j].name != name
    ensures Run(event, workflow, allEpics, states).Err?
    ensures name == ToDoName ==> Run(event, workflow, allEpics, states).error == MissingEpicState(ToDoName)
  {
  }

  /** When no action is actionable, nothing is read individually, nothing is
      written, and the event comes back as it was. */
  lemma NoActionableActionNoWork(event: Event, workflow: EpicWorkflow, allEpics: seq<Epic>, states: map<EpicId, StateId>)
    requires ResolveStateIds(workflow).Ok?
    requires forall j :: 0 <= j < |event.actions| ==>
      IsActionable(UpdateEpicWhenStoryProgresses, event.actions[j]) == Ok(false)
    ensures Run(event, workflow, allEpics, states) == Ok(NoEffect(states))
  {
  }

  /** With unique epic ids and distinct state ids, handling the same event a
      second time, against the store the first run left, writes nothing. */
  lemma RedeliveryWritesNothing(event: Event, workflow: EpicWorkflow, allEpics: seq<Epic>, states: map<EpicId, StateId>)
    requires forall i, j :: 0 <= i < j < |allEpics| ==> allEpics[i].id != allEpics[j].id
    requires ResolveStateIds(workflow).Ok?
    requires ResolveStateIds(workflow).value.toDo != ResolveStateIds(workflow).value.inProgress
    requires Run(event, workflow, allEpics, states).Ok?
    ensures Run(event, workflow, allEpics, Run(event, workflow, allEpics, states).value.states).Ok?
    ensures Run(event, workflow, allEpics, Run(event, workflow, allEpics, states).value.states).value.updates == []
  {
    var c := ClassificationOf(allEpics);
    if c.inProgressEpic.Some? && c.toDoEpic.Some? {
      ClassifiedEpicsDiffer(allEpics);
    }
    Idempotent(states, c, ResolveStateIds(workflow).value);
  }

  const SampleWorkflow := EpicWorkflow([EpicState(500, "to do"), EpicState(501, "in progress"), EpicState(502, "done")])

  function StoryAction(kind: string, changes: JsValue): Action {
    Action(1, "story", kind, "a story", changes)
  }

  function SampleEvent(a: Action): Event {
    Event("e", "2020-01-01", 1, "v1", "m", [a], [])
  }

  const WorkflowStateChange := Object(map["workflow_state_id" := Object(map["old" := Number(1), "new" := Number(2)])])

  /** A story moved between workflow states; the only epic has started stories
      and is still "to do": it is read once and moved to "in progress". */
  lemma StartedEpicIsMovedToInProgress()
    ensures Run(SampleEvent(StoryAction("update", WorkflowStateChange)), SampleWorkflow,
                [Epic(10, 500, Stats(3, 0))], map[10 := 500])
         == Ok(Effect(map[10 := 501], [10], [Update(10, 501)]))
  {
    assert ResolveStateIds(SampleWorkflow) == Ok(StateIds(500, 501));
    assert IsActionable(UpdateEpicWhenStoryProgresses, StoryAction("update", WorkflowStateChange)) == Ok(true);
    assert ClassificationOf([Epic(10, 500, Stats(3, 0))]) == Classification(Some(10), None);
    assert GetActionForSideEffect([StoryAction("update", WorkflowStateChange)], UpdateEpicWhenStoryProgresses).Ok?;
    assert Reconciled(map[10 := 500], Classification(Some(10), None), StateIds(500, 501))
        == Effect(map[10 := 501], [10], [Update(10, 501)]);
  }

  /** The same event when the epic is already "in progress": one read, no write. */
  lemma EpicAlreadyInProgressIsLeftAlone()
    ensures Run(SampleEvent(StoryAction("update", WorkflowStateChange)), SampleWorkflow,
                [Epic(10, 501, Stats(3, 0))], map[10 := 501])
         == Ok(Effect(map[10 := 501], [10], []))
  {
    assert ResolveStateIds(SampleWorkflow) == Ok(StateIds(500, 501));
    assert IsActionable(UpdateEpicWhenStoryProgresses, StoryAction("update", WorkflowStateChange)) == Ok(true);
    assert ClassificationOf([Epic(10, 501, Stats(3, 0))]) == Classification(Some(10), None);
    assert GetActionForSideEffect([StoryAction("update", WorkflowStateChange)], UpdateEpicWhenStoryProgresses).Ok?;
    assert Reconciled(map[10 := 501], Classification(Some(10), None), StateIds(500, 501))
        == Effect(map[10 := 501], [10], []);
  }

  /** A story creation is not actionable: no read, no write. */
  lemma StoryCreationDoesNothing()
    ensures Run(SampleEvent(StoryAction("create", Undefined)), SampleWorkflow,
                [Epic(10, 500, Stats(3, 0))], map[10 := 500])
         == Ok(NoEffect(map[10 := 500]))
  {
  }

  /** A story update without a `changes` object fails the invocation, unless
      an earlier action already matched. */
  lemma StoryUpdateWithoutChangesFails(event: Event, workflow: EpicWorkflow, allEpics: seq<Epic>, states: map<EpicId, StateId>, k: nat)
    requires ResolveStateIds(workflow).Ok?
    requires k < |event.actions|
    requires event.actions[k].entityType == "story" && event.actions[k].kind == "update"
    requires event.actions[k].changes.Undefined? || event.actions[k].changes.Null?
    requires forall j :: 0 <= j < k ==> IsActionable(UpdateEpicWhenStoryProgresses, event.actions[j]) == Ok(false)
    ensures Run(event, workflow, allEpics, states) == Err(ChangesNotReadable(event.actions[k].id))
  {
    var actions := event.actions;
    var r := GetActionForSideEffect(actions, UpdateEpicWhenStoryProgresses);
    assert IsActionable(UpdateEpicWhenStoryProgresses, actions[k]) == Err(ChangesNotReadable(actions[k].id));
    assert r.Err?;
    var k' :| 0 <= k' < |actions| && IsActionable(UpdateEpicWhenStoryProgresses, actions[k']) == Err(r.error) &&
      (forall j :: 0 <= j < k' ==> IsActionable(UpdateEpicWhenStoryProgresses, actions[j]) == Ok(false));
    assert k' == k;
  }
}
