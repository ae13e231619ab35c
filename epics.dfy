/** The epic locator: the `forEach` over all epics that picks one epic as
    "in progress" and one as "to do" (main.js:38, 55-63). */
module Epics {
  import opened Results

  type EpicId = int

  /** Story counts of an epic. They are JSON numbers, so nothing forces them
      to be non-negative. */
  datatype Stats = Stats(numStoriesStarted: int, numStoriesDone: int)

  /** An entry of the `epics` listing. Its `epic_state_id` is not consulted
      by the locator; the reconciliation re-reads each chosen epic. */
  datatype Epic = Epic(id: EpicId, epicStateId: int, stats: Stats)

  /** The two branches of the loop body. */
  datatype Bucket = InProgress | ToDo

  predicate HasProgress(e: Epic) {
    e.stats.numStoriesStarted > 0 || e.stats.numStoriesDone > 0
  }

  /** The `if` / `else if` of line 58-61: an epic in neither branch is skipped. */
  predicate InBucket(e: Epic, b: Bucket) {
    match b
    case InProgress => HasProgress(e)
    case ToDo => !HasProgress(e) && e.stats.numStoriesStarted == 0 && e.stats.numStoriesDone == 0
  }

  /** The index of the LAST epic in the bucket: each match in the loop
      overwrites the previous one, so the last match wins, not the first. */
  function LastIndexIn(epics: seq<Epic>, b: Bucket): (r: Option<nat>)
    ensures r.Some? ==>
      r.value < |epics| && InBucket(epics[r.value], b) &&
      forall j :: r.value < j < |epics| ==> !InBucket(epics[j], b)
    ensures r.None? <==> forall j :: 0 <= j < |epics| ==> !InBucket(epics[j], b)
  {
    if |epics| == 0 then None
    else if InBucket(epics[|epics| - 1], b) then Some(|epics| - 1)
    else LastIndexIn(epics[..|epics| - 1], b)
  }

  function LastIdIn(epics: seq<Epic>, b: Bucket): Option<EpicId> {
    match LastIndexIn(epics, b)
    case None => None
    case Some(i) => Some(epics[i].id)
  }

  /** The values of `idOfInProgressEpic` and `idOfToDoEpic` after the loop
      (None standing for `null`). */
  datatype Classification = Classification(inProgressEpic: Option<EpicId>, toDoEpic: Option<EpicId>)

  function ClassificationOf(epics: seq<Epic>): Classification {
    Classification(LastIdIn(epics, InProgress), LastIdIn(epics, ToDo))
  }

  /** The classification loop. */
  method Classify(epics: seq<Epic>) returns (c: Classification)
    ensures c.inProgressEpic.Some? <==> exists i :: 0 <= i < |epics| && HasProgress(epics[i])
    ensures c.toDoEpic.Some? <==>
      exists i :: 0 <= i < |epics| && epics[i].stats.numStoriesStarted == 0 && epics[i].stats.numStoriesDone == 0
    ensures c == ClassificationOf(epics)
  {
    var idOfInProgressEpic: Option<EpicId> := None;
    var idOfToDoEpic: Option<EpicId> := None;
    for i := 0 to |epics|
      invariant idOfInProgressEpic == LastIdIn(epics[..i], InProgress)
      invariant idOfToDoEpic == LastIdIn(epics[..i], ToDo)
    {
      LastIdInStep(epics, i, InProgress);
      LastIdInStep(epics, i, ToDo);
      var epic := epics[i];
      if epic.stats.numStoriesStarted > 0 || epic.stats.numStoriesDone > 0 {
        idOfInProgressEpic := Some(epic.id);
      } else if epic.stats.numStoriesStarted == 0 && epic.stats.numStoriesDone == 0 {
        idOfToDoEpic := Some(epic.id);
      }
    }
    assert epics[..|epics|] == epics;
    c := Classification(idOfInProgressEpic, idOfToDoEpic);
  }

  /** One more iteration of the loop: the new epic replaces the match so far
      exactly when it is in the bucket. */
  lemma LastIdInStep(epics: seq<Epic>, i: nat, b: Bucket)
    requires i < |epics|
    ensures LastIdIn(epics[..i + 1], b) ==
      if InBucket(epics[i], b) then Some(epics[i].id) else LastIdIn(epics[..i], b)
  {
    assert epics[..i + 1][..i] == epics[..i];
  }

  /** With non-negative counts every epic is in exactly one bucket. */
  lemma ExactlyOneBucket(e: Epic)
    requires e.stats.numStoriesStarted >= 0 && e.stats.numStoriesDone >= 0
    ensures InBucket(e, InProgress) != InBucket(e, ToDo)
  {
  }

  /** A negative count and no positive count put an epic in neither bucket:
      appending it to the listing changes neither id. */
  lemma NegativeCountIsSkipped(epics: seq<Epic>, e: Epic)
    requires !HasProgress(e)
    requires e.stats.numStoriesStarted < 0 || e.stats.numStoriesDone < 0
    ensures !InBucket(e, InProgress) && !InBucket(e, ToDo)
    ensures ClassificationOf(epics + [e]) == ClassificationOf(epics)
  {
    assert (epics + [e])[..|epics|] == epics;
  }

  /** With non-negative counts a non-empty listing sets at least one of the
      two ids. */
  lemma NonEmptyListingClassifies(epics: seq<Epic>)
    requires |epics| > 0
    requires forall i :: 0 <= i < |epics| ==>
      epics[i].stats.numStoriesStarted >= 0 && epics[i].stats.numStoriesDone >= 0
    ensures ClassificationOf(epics).inProgressEpic.Some? || ClassificationOf(epics).toDoEpic.Some?
  {
    ExactlyOneBucket(epics[0]);
  }

  /** The two chosen epics come from different positions of the listing, so
      with unique ids they are different epics. */
  lemma ClassifiedEpicsDiffer(epics: seq<Epic>)
    requires forall i, j :: 0 <= i < j < |epics| ==> epics[i].id != epics[j].id
    requires ClassificationOf(epics).inProgressEpic.Some? && ClassificationOf(epics).toDoEpic.Some?
    ensures ClassificationOf(epics).inProgressEpic != ClassificationOf(epics).toDoEpic
  {
    var p := LastIndexIn(epics, InProgress).value;
    var t := LastIndexIn(epics, ToDo).value;
    assert p != t;
  }

  /** The locator keeps the last match: once a later epic is in the bucket,
      no earlier epic is chosen for it. */
  lemma LastMatchWins(epics: seq<Epic>, b: Bucket, i: nat, j: nat)
    requires i < j < |epics| && InBucket(epics[j], b)
    ensures LastIndexIn(epics, b).Some?
    ensures j <= LastIndexIn(epics, b).value && LastIndexIn(epics, b).value != i
  {
  }
}
