# Epic reconciliation webhook, modelled in Dafny

The handler is called by the project-tracking service (Clubhouse) when a
change happens. If the event holds a story update that changed its workflow
state, the handler looks at all epics' story counts. It picks one epic as
"in progress" and one as "to do". Then it moves the first from the "to do"
state to "in progress", and the second from "in progress" back to "to do".
Each move happens only when the epic's freshly read state asks for it.

The model has six modules, one per component of the handler in `main.js`:

- `Results` (results.dfy): `Option` and `Result`. `Failure` names the two
  ways the invocation can fail: a missing epic state, and a story update
  whose `changes` is null or undefined.
- `Events` (events.dfy): the event and its actions. This holds the JavaScript
  values an action's `changes` may hold, with JavaScript truthiness and
  property access. It also holds the `updateEpicWhenStoryProgresses`
  condition, over the closed `SideEffect` tag, and the `Array.find` for the
  first actionable action.
- `Workflow` (workflow.dfy): finds the ids of the first states named exactly
  "to do" and "in progress".
- `Epics` (epics.dfy): the classification loop, as a method with a `for`
  loop. Its specification function is `LastIndexIn`.
- `Reconciler` (reconciler.dfy): the remote epics as a class `EpicStore`. It
  holds each epic's state and the logs of the per-epic reads and writes. The
  two guarded read-then-write steps are the method `Reconcile`, specified by
  the function `Reconciled`.
- `Handler` (handler.dfy): the entry point as the method `Handle`, specified
  by the function `Run`. It also holds the end-to-end lemmas and four
  concrete scenarios.

The two bulk resources the handler fetches are parameters of `Handle` and
`Run`: the `epic-workflow`, and the `epics` listing with its story counts.
The per-epic reads and the writes go to the store. The listing is a
snapshot of the same remote epics, but the model never relies on the two
agreeing: the listing's own `epic_state_id` is never consulted, and every
decision rests on the fresh per-epic read.

Behaviours of the code the model keeps exactly:

- The classification loop overwrites its variable on every match, so the
  LAST matching epic wins, not the first (`Epics.LastIndexIn`,
  `Epics.LastMatchWins`).
- A missing "to do" or "in progress" state makes the code read `.id` of
  `undefined`. That throws a TypeError, not a dedicated configuration error.
  It is modelled as `Err(MissingEpicState(name))`. The state ids are
  resolved before the actions are looked at, so even an event with no
  actionable action fails on such a workflow.
- Reading `action.changes.workflow_state_id` throws when a story update has
  no `changes` object. `Array.find` stops there, and the invocation fails
  (`ChangesNotReadable`).
- An epic with a negative count and no positive count is in neither branch
  of the `if`/`else if`, so the loop skips it (`Epics.NegativeCountIsSkipped`).
- A per-epic read of an unknown epic yields a body without `epic_state_id`.
  That value equals neither state id, so no write follows.

## Model

| member | source | states |
|---|---|---|
| `Events.IsActionable` | main.js:43-51 | the condition holds exactly for an action of entity type "story" and kind "update" whose `changes` has a truthy `workflow_state_id`; it throws exactly for a story update whose `changes` is null or undefined |
| `Events.FindActionIndex` | main.js:122 | the index found is the first whose condition holds, all earlier ones being false; none is found exactly when the condition is false for every action; an error is the error of the first action that throws, all earlier ones being false |
| `Events.GetActionForSideEffect` | main.js:120-123 | the action returned is the first in list order that satisfies the condition; none exactly when no action does; failure exactly when an action throws before any match, with that action's error |
| `Workflow.FirstStateNamed` | main.js:39-40 | the index is that of the first state with exactly the given name; none exactly when no state has it |
| `Workflow.ResolveStateId` | main.js:39-40 | the id is that of the first state named exactly so; the invocation fails, with that name, exactly when there is no such state |
| `Workflow.ResolveStateIds` | main.js:39-40 | both ids resolve exactly when both names occur; a missing "to do" is reported before a missing "in progress" |
| `Epics.LastIndexIn` | main.js:57-63 | the index is that of the last epic in list order in the bucket, later ones not in it; none exactly when no epic is in it |
| `Epics.Classify` | main.js:55-63 | the loop computes the last in-progress and last to-do epic ids; the in-progress id is set exactly when some epic has a positive count, the to-do id exactly when some epic has both counts zero |
| `Epics.LastIdInStep` | main.js:57-63 | one iteration replaces the match so far exactly when the current epic is in the bucket |
| `Epics.ExactlyOneBucket` | main.js:58-61 | with non-negative counts an epic takes exactly one of the two branches |
| `Epics.NegativeCountIsSkipped` | main.js:58-61 | an epic with a negative count and no positive count takes neither branch, and appending it to any listing changes neither id |
| `Epics.NonEmptyListingClassifies` | main.js:55-63 | with non-negative counts a non-empty listing sets at least one of the two ids |
| `Epics.ClassifiedEpicsDiffer` | main.js:55-63 | with unique epic ids the in-progress and to-do epics are different epics |
| `Epics.LastMatchWins` | main.js:57-63 | in any listing, once a later epic is in a bucket, the chosen epic is at that position or after it, never an earlier one |
| `Reconciler.EpicStore.Fetch` | main.js:80-94 | a per-epic read returns the epic's current state, or nothing for an unknown epic, and is logged; the store is unchanged |
| `Reconciler.EpicStore.Store` | main.js:96-118 | a write sets the epic's state (an unknown epic stays unknown) and is logged |
| `Reconciler.Reconcile` | main.js:65-76 | the store ends as `Reconciled` says: the in-progress epic is read and moved from "to do" to "in progress", then the to-do epic is re-read and moved from "in progress" to "to do", each only if it held the source state |
| `Reconciler.AtMostTwoWrites` | main.js:65-76 | one read per located epic, at most two reads, and no more writes than reads |
| `Reconciler.OthersUnchanged` | main.js:65-76 | every write targets a located epic; no epic appears or disappears; every other epic keeps its state |
| `Reconciler.InProgressEpicTransition` | main.js:65-70 | the in-progress epic gets any write at all if and only if it held the "to do" state, the write being "in progress", and then holds "in progress"; otherwise its state is unchanged |
| `Reconciler.ToDoEpicTransition` | main.js:71-76 | the to-do epic gets any write at all if and only if it held the "in progress" state, the write being "to do", and then holds "to do"; otherwise its state is unchanged |
| `Reconciler.NoRedundantWrite` | main.js:65-76 | epics already in their target states get no write and the store is unchanged |
| `Reconciler.Idempotent` | main.js:65-76 | with distinct located epics and distinct state ids, a second reconciliation on the resulting store writes nothing and changes nothing |
| `Handler.Handle` | main.js:35-126 | the invocation succeeds exactly when `Run` does and then returns the parsed event unchanged, leaving the store as `Run` says; on failure the store is untouched |
| `Handler.MisconfiguredWorkflowFails` | main.js:39-40 | without a state named exactly "to do" (or "in progress") every invocation fails, before any per-epic read or write |
| `Handler.NoActionableActionNoWork` | main.js:54 | when no action is actionable, nothing is read individually and nothing is written |
| `Handler.RedeliveryWritesNothing` | main.js:54-76 | with unique epic ids and distinct state ids, handling the event again on the store the first run left writes nothing |
| `Handler.StartedEpicIsMovedToInProgress` | main.js:54-70 | a story's workflow-state change, with one started epic in "to do", gives one read and one write moving it to "in progress" |
| `Handler.EpicAlreadyInProgressIsLeftAlone` | main.js:65-70 | the same event with the epic already "in progress" gives one read and no write |
| `Handler.StoryCreationDoesNothing` | main.js:44-54 | a story creation is not actionable: no read, no write |
| `Handler.StoryUpdateWithoutChangesFails` | main.js:46-48 | a story update whose `changes` is null or undefined, with no earlier action matching, fails the invocation with that action's error |

## Left out

- HTTPS transport: hosts, paths, headers, `content-length`, first-chunk resolution, and the missing error handler on reads (main.js:80-118). Reads and writes are operations on `EpicStore`, and the fetched bulk resources are parameters.
- `JSON.parse` of the request body and of responses, and `JSON.stringify` of payloads (main.js:36, 90, 97, 109). This is wire marshalling; an unparsable body is not modelled.
- The API token from the process environment (main.js:84, 102).
- `async`/`await`: the calls are sequential steps of one invocation. Races with concurrent external updates of the remote epics are not modelled.
- The string-keyed side-effect table (main.js:43, 121): the only key the handler uses is the closed tag `SideEffect`, so a lookup of an unknown key cannot occur in the model.
- Action fields the handler never reads (`story_type`, `app_url`), and malformed resources (a workflow without `epic_states`, an epic without `stats`).
- Malformed events: an event without `actions` (which throws at main.js:122) and a `null` entry in `actions` (which throws at main.js:46). `Event` always holds a list of actions, and `Action` is never null.
- JavaScript numbers are modelled as integers. Fractional counts, `NaN` and `-0` are not modelled.
