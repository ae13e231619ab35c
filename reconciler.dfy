/** The state reconciliation of the two located epics against the remote
    epic store (main.js:65-76), with the store's reads and writes
    (getClubhouseResource / updateClubhouseResource on `epics/{id}`). */
module Reconciler {
  import opened Results
  import opened Workflow
  import opened Epics

  /** A PUT of `{ epic_state_id: state }` to `epics/{epic}`. */
  datatype Update = Update(epic: EpicId, state: StateId)

  /** The remote epics as the handler sees them through the tracking service's
      API: the current `epic_state_id` of every epic, and the log of the
      per-epic reads and the writes issued in this invocation. */
  class EpicStore {
    var epicStates: map<EpicId, StateId>
    var fetches: seq<EpicId>
    var updates: seq<Update>

    /** GET `epics/{id}` and read its `epic_state_id`. For an unknown epic the
        service answers with an error body that has no such field: None. */
    method Fetch(id: EpicId) returns (state: Option<StateId>)
      modifies this
      ensures state == if id in epicStates then Some(epicStates[id]) else None
      ensures epicStates == old(epicStates) && updates == old(updates)
      ensures fetches == old(fetches) + [id]
    {
      state := if id in epicStates then Some(epicStates[id]) else None;
      fetches := fetches + [id];
    }

    /** PUT `epics/{id}` with a new `epic_state_id`; an unknown epic stays unknown. */
    method Store(id: EpicId, state: StateId)
      modifies this
      ensures epicStates == if id in old(epicStates) then old(epicStates)[id := state] else old(epicStates)
      ensures fetches == old(fetches) && updates == old(updates) + [Update(id, state)]
    {
      if id in epicStates {
        epicStates := epicStates[id := state];
      }
      updates := updates + [Update(id, state)];
    }
  }

  /** What an invocation does to the store: its final epic states and the
      reads and writes it issued, in order. */
  datatype Effect = Effect(states: map<EpicId, StateId>, fetches: seq<EpicId>, updates: seq<Update>)

  function NoEffect(states: map<EpicId, StateId>): Effect {
    Effect(states, [], [])
  }

  /** One guarded transition: when an epic was chosen, read it and move it
      from `from` to `to` only if it currently holds `from`. */
  function Transition(e: Effect, target: Option<EpicId>, from: StateId, to: StateId): Effect {
    match target
    case None => e
    case Some(id) =>
      if id in e.states && e.states[id] == from
      then Effect(e.states[id := to], e.fetches + [id], e.updates + [Update(id, to)])
      else Effect(e.states, e.fetches + [id], e.updates)
  }

  /** Lines 65-76: first the in-progress epic from "to do" to "in progress",
      then, on the store as that step left it, the to-do epic back. */
  function Reconciled(states: map<EpicId, StateId>, c: Classification, ids: StateIds): Effect {
    var afterInProgress := Transition(NoEffect(states), c.inProgressEpic, ids.toDo, ids.inProgress);
    Transition(afterInProgress, c.toDoEpic, ids.inProgress, ids.toDo)
  }

  /** The two located epics are different epics (or at most one was located). */
  predicate Distinct(c: Classification) {
    c.inProgressEpic.Some? && c.toDoEpic.Some? ==> c.inProgressEpic.value != c.toDoEpic.value
  }

  method Reconcile(store: EpicStore, c: Classification, ids: StateIds)
    modifies store
    ensures store.epicStates == Reconciled(old(store.epicStates), c, ids).states
    ensures store.fetches == old(store.fetches) + Reconciled(old(store.epicStates), c, ids).fetches
    ensures store.updates == old(store.updates) + Reconciled(old(store.epicStates), c, ids).updates
  {
    ghost var start := NoEffect(store.epicStates);
    ghost var fetches0, updates0 := store.fetches, store.updates;
    if c.inProgressEpic.Some? {
      var state := store.Fetch(c.inProgressEpic.value);
      if state == Some(ids.toDo) {
        store.Store(c.inProgressEpic.value, ids.inProgress);
      }
    }
    ghost var mid := Transition(start, c.inProgressEpic, ids.toDo, ids.inProgress);
    assert store.epicStates == mid.states;
    assert store.fetches == fetches0 + mid.fetches;
    assert store.updates == updates0 + mid.updates;
    if c.toDoEpic.Some? {
      var state := store.Fetch(c.toDoEpic.value);
      if state == Some(ids.inProgress) {
        store.Store(c.toDoEpic.value, ids.toDo);
      }
    }
  }

  /** At most two reads and at most two writes, and no more writes than reads. */
  lemma AtMostTwoWrites(states: map<EpicId, StateId>, c: Classification, ids: StateIds)
    ensures |Reconciled(states, c, ids).updates| <= |Reconciled(states, c, ids).fetches| <= 2
    ensures |Reconciled(states, c, ids).fetches| ==
      (if c.inProgressEpic.Some? then 1 else 0) + (if c.toDoEpic.Some? then 1 else 0)
  {
  }

  /** Every write targets one of the two located epics, which are the epics
      read; no epic is added or removed, and every other epic keeps its state. */
  lemma OthersUnchanged(states: map<EpicId, StateId>, c: Classification, ids: StateIds)
    ensures Reconciled(states, c, ids).states.Keys == states.Keys
    ensures forall u :: u in Reconciled(states, c, ids).updates ==>
      Some(u.epic) == c.inProgressEpic || Some(u.epic) == c.toDoEpic
    ensures forall id :: id in states && Some(id) != c.inProgressEpic && Some(id) != c.toDoEpic ==>
      Reconciled(states, c, ids).states[id] == states[id]
  {
  }

  /** The in-progress epic is written exactly when it held the "to do" state,
      and then holds the "in progress" state; otherwise it keeps its state. */
  lemma InProgressEpicTransition(states: map<EpicId, StateId>, c: Classification, ids: StateIds, id: EpicId)
    requires c.inProgressEpic == Some(id) && c.toDoEpic != Some(id)
    requires id in states
    ensures Update(id, ids.inProgress) in Reconciled(states, c, ids).updates <==> states[id] == ids.toDo
    ensures (exists u :: u in Reconciled(states, c, ids).updates && u.epic == id) <==> states[id] == ids.toDo
    ensures Reconciled(states, c, ids).states[id] ==
      if states[id] == ids.toDo then ids.inProgress else states[id]
  {
    var mid := Transition(NoEffect(states), c.inProgressEpic, ids.toDo, ids.inProgress);
    assert mid.states[id] == if states[id] == ids.toDo then ids.inProgress else states[id];
    if c.toDoEpic.Some? {
      assert c.toDoEpic.value != id;
    }
  }

  /** The to-do epic is written exactly when it held the "in progress" state,
      and then holds the "to do" state; otherwise it keeps its state. */
  lemma ToDoEpicTransition(states: map<EpicId, StateId>, c: Classification, ids: StateIds, id: EpicId)
    requires c.toDoEpic == Some(id) && c.inProgressEpic != Some(id)
    requires id in states
    ensures Update(id, ids.toDo) in Reconciled(states, c, ids).updates <==> states[id] == ids.inProgress
    ensures (exists u :: u in Reconciled(states, c, ids).updates && u.epic == id) <==> states[id] == ids.inProgress
    ensures Reconciled(states, c, ids).states[id] ==
      if states[id] == ids.inProgress then ids.toDo else states[id]
  {
    var mid := Transition(NoEffect(states), c.inProgressEpic, ids.toDo, ids.inProgress);
    assert mid.states[id] == states[id];
    assert forall u :: u in mid.updates ==> u.epic != id;
  }

  /** An epic already in the state it should have is never written. */
  lemma NoRedundantWrite(states: map<EpicId, StateId>, c: Classification, ids: StateIds)
    requires Distinct(c)
    requires ids.toDo != ids.inProgress
    requires c.inProgressEpic.Some? ==>
      c.inProgressEpic.value in states && states[c.inProgressEpic.value] == ids.inProgress
    requires c.toDoEpic.Some? ==> c.toDoEpic.value in states && states[c.toDoEpic.value] == ids.toDo
    ensures Reconciled(states, c, ids).updates == []
    ensures Reconciled(states, c, ids).states == states
  {
  }

  /** Running the reconciliation again on the store it produced writes nothing
      and changes nothing. */
  lemma Idempotent(states: map<EpicId, StateId>, c: Classification, ids: StateIds)
    requires Distinct(c)
    requires ids.toDo != ids.inProgress
    ensures Reconciled(Reconciled(states, c, ids).states, c, ids).updates == []
    ensures Reconciled(Reconciled(states, c, ids).states, c, ids).states == Reconciled(states, c, ids).states
  {
    if c.inProgressEpic.Some? && c.inProgressEpic.value in states {
      InProgressEpicTransition(states, c, ids, c.inProgressEpic.value);
    }
    if c.toDoEpic.Some? && c.toDoEpic.value in states {
      ToDoEpicTransition(states, c, ids, c.toDoEpic.value);
    }
    OthersUnchanged(states, c, ids);
  }
}
