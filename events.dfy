/** The inbound event, the actionability predicate of the side effect and the
    lookup of the first actionable action (main.js:5-31, 43-51, 120-123). */
module Events {
  import opened Results

  /** The JSON values an action's `changes` can hold, with JavaScript's
      truthiness and property access. Numbers are modelled as integers. */
  datatype JsValue =
    | Undefined
    | Null
    | Bool(b: bool)
    | Number(n: int)
    | Str(s: string)
    | Array(elements: seq<JsValue>)
    | Object(fields: map<string, JsValue>)

  /** `!!v` in JavaScript. */
  predicate Truthy(v: JsValue) {
    match v
    case Undefined => false
    case Null => false
    case Bool(b) => b
    case Number(n) => n != 0
    case Str(s) => s != ""
    case Array(_) => true
    case Object(_) => true
  }

  /** `changes.workflow_state_id`, the one property the handler reads from a
      JSON value: a TypeError (None) on `null` and `undefined`; `undefined`
      when an object lacks the key, and on a primitive or an array, none of
      which has a property of that name. */
  function WorkflowStateIdOf(changes: JsValue): Option<JsValue> {
    match changes
    case Undefined => None
    case Null => None
    case Object(fields) => if "workflow_state_id" in fields then Some(fields["workflow_state_id"]) else Some(Undefined)
    case _ => Some(Undefined)
  }

  /** One change inside an event. `entity_type` and `action` are open strings
      ('story', 'epic', ... and 'update', 'create', 'delete'). */
  datatype Action = Action(id: int, entityType: string, kind: string, name: string, changes: JsValue)

  datatype Reference = Reference(id: int, entityType: string, name: string, kind: string)

  /** One webhook notification. */
  datatype Event = Event(
    id: string,
    changedAt: string,
    primaryId: int,
    version: string,
    memberId: string,
    actions: seq<Action>,
    references: seq<Reference>)

  /** The closed set of side effects the handler knows about. */
  datatype SideEffect = UpdateEpicWhenStoryProgresses

  /** The side effect's actionability condition, evaluated on one action.
      An Err is the TypeError thrown when a story update has no `changes` object. */
  function IsActionable(effect: SideEffect, a: Action): (r: Result<bool>)
    ensures r == Ok(true) <==>
      && a.entityType == "story"
      && a.kind == "update"
      && a.changes.Object?
      && "workflow_state_id" in a.changes.fields
      && Truthy(a.changes.fields["workflow_state_id"])
    ensures r.Err? <==>
      a.entityType == "story" && a.kind == "update" && (a.changes.Undefined? || a.changes.Null?)
    ensures r.Err? ==> r.error == ChangesNotReadable(a.id)
  {
    match effect
    case UpdateEpicWhenStoryProgresses =>
      if a.entityType != "story" || a.kind != "update" then Ok(false)
      else
        match WorkflowStateIdOf(a.changes)
        case None => Err(ChangesNotReadable(a.id))
        case Some(v) => Ok(Truthy(v))
  }

  /** `Array.prototype.find` with the side effect's condition: the index of the
      first actionable action, None when there is none, or the error the
      condition throws on an action before any match. */
  function FindActionIndex(actions: seq<Action>, effect: SideEffect): (r: Result<Option<nat>>)
    ensures r.Ok? && r.value.Some? ==>
      && r.value.value < |actions|
      && IsActionable(effect, actions[r.value.value]) == Ok(true)
      && forall j :: 0 <= j < r.value.value ==> IsActionable(effect, actions[j]) == Ok(false)
    ensures r == Ok(None) <==> forall j :: 0 <= j < |actions| ==> IsActionable(effect, actions[j]) == Ok(false)
    ensures r.Err? ==>
      exists k :: 0 <= k < |actions| && IsActionable(effect, actions[k]) == Err(r.error) &&
        (forall j :: 0 <= j < k ==> IsActionable(effect, actions[j]) == Ok(false))
  {
    if |actions| == 0 then Ok(None)
    else
      match IsActionable(effect, actions[0])
      case Err(e) => Err(e)
      case Ok(true) => Ok(Some(0))
      case Ok(false) =>
        match FindActionIndex(actions[1..], effect)
        case Ok(Some(i)) => Ok(Some(i + 1))
        case Ok(None) => Ok(None)
        case Err(e) => Err(e)
  }

  /** getActionForSideEffect: the first action the side effect's condition accepts. */
  function GetActionForSideEffect(actions: seq<Action>, effect: SideEffect): (r: Result<Option<Action>>)
    ensures r.Ok? && r.value.Some? ==>
      exists i :: 0 <= i < |actions| && actions[i] == r.value.value &&
        IsActionable(effect, actions[i]) == Ok(true) &&
        (forall j :: 0 <= j < i ==> IsActionable(effect, actions[j]) == Ok(false))
    ensures r == Ok(None) <==> forall j :: 0 <= j < |actions| ==> IsActionable(effect, actions[j]) == Ok(false)
    ensures r.Err? <==>
      exists k :: 0 <= k < |actions| && IsActionable(effect, actions[k]).Err? &&
        (forall j :: 0 <= j < k ==> IsActionable(effect, actions[j]) == Ok(false))
    ensures r.Err? ==>
      exists k :: 0 <= k < |actions| && IsActionable(effect, actions[k]) == Err(r.error) &&
        (forall j :: 0 <= j < k ==> IsActionable(effect, actions[j]) == Ok(false))
  {
    match FindActionIndex(actions, effect)
    case Err(e) => Err(e)
    case Ok(None) => Ok(None)
    case Ok(Some(i)) => Ok(Some(actions[i]))
  }
}
