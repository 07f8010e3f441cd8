/**
 * The progress panel of `ProcessingSteps.tsx`: the fixed list of steps, the
 * badge `getStepStatus` gives each of them for the pipeline's status, when
 * the reset button shows and which error text is shown.
 */
module ProcessingSteps {
  import opened Basics

  /** `ProcessingStatus`. */
  datatype Status = Idle | Uploading | Extracting | Summarizing | Complete | Error

  /** The badge of one step: `'complete' | 'current' | 'error' | 'pending'`. */
  datatype StepStatus = StepComplete | StepCurrent | StepError | StepPending

  /** The ids of the steps, in the order the panel lists them. */
  const StepIds: seq<Status> := [Uploading, Extracting, Summarizing, Complete]

  const DefaultError: string := "Failed to process your image. Please try again."

  /** `steps.findIndex(s => s.id === id)`, over the ids: the first index with that id, or -1. */
  function FindIndex(steps: seq<Status>, id: Status): (r: int)
    ensures -1 <= r < |steps|
    ensures r >= 0 ==> steps[r] == id && forall j :: 0 <= j < r ==> steps[j] != id
    ensures r == -1 <==> forall j :: 0 <= j < |steps| ==> steps[j] != id
  {
    if steps == [] then -1
    else if steps[0] == id then 0
    else
      var r := FindIndex(steps[1..], id);
      assert forall j :: 1 <= j < |steps| ==> steps[j] == steps[1..][j - 1];
      if r == -1 then -1 else r + 1
  }

  /** `steps.find(s => s.id === id)?.id`. */
  function FindId(steps: seq<Status>, id: Status): (r: Option<Status>)
    ensures r.Some? <==> exists j :: 0 <= j < |steps| && steps[j] == id
    ensures r.Some? ==> r.value == id
  {
    var i := FindIndex(steps, id);
    if i == -1 then None else Some(steps[i])
  }

  /** `getStepStatus(stepId)` for the panel's `status`. */
  function GetStepStatus(status: Status, stepId: Status): StepStatus {
    if status == Error then
      if FindId(StepIds, status) == Some(stepId) then StepError else StepPending
    else
      var current := FindIndex(StepIds, status);
      var index := FindIndex(StepIds, stepId);
      if index < current then StepComplete
      else if index == current then StepCurrent
      else StepPending
  }

  /** The position of each step, and -1 for the two statuses that name no step. */
  lemma StepPositions()
    ensures FindIndex(StepIds, Uploading) == 0 && FindIndex(StepIds, Extracting) == 1
    ensures FindIndex(StepIds, Summarizing) == 2 && FindIndex(StepIds, Complete) == 3
    ensures FindIndex(StepIds, Idle) == -1 && FindIndex(StepIds, Error) == -1
  {
  }

  /** While the status is a step, the steps before it are complete, it is current and the later ones are pending. */
  lemma BadgesFollowPosition(status: Status, k: nat)
    requires status != Idle && status != Error
    requires k < |StepIds|
    ensures var current := FindIndex(StepIds, status);
      0 <= current
      && (k < current ==> GetStepStatus(status, StepIds[k]) == StepComplete)
      && (k == current ==> GetStepStatus(status, StepIds[k]) == StepCurrent)
      && (k > current ==> GetStepStatus(status, StepIds[k]) == StepPending)
  {
    StepPositions();
  }

  /** Exactly one step is current while the status is a step. */
  lemma ExactlyOneCurrent(status: Status)
    requires status != Idle && status != Error
    ensures exists k :: 0 <= k < |StepIds| && StepIds[k] == status
    ensures forall k :: 0 <= k < |StepIds| ==> (GetStepStatus(status, StepIds[k]) == StepCurrent <==> StepIds[k] == status)
  {
    StepPositions();
    assert StepIds[FindIndex(StepIds, status)] == status;
  }

  /** On error no step is marked as the failed one: no step has the id `error`, so all are pending. */
  lemma ErrorLeavesAllPending(k: nat)
    requires k < |StepIds|
    ensures GetStepStatus(Error, StepIds[k]) == StepPending
  {
    StepPositions();
  }

  /** Before the upload starts every step is pending, as the current index is -1. */
  lemma IdleLeavesAllPending(k: nat)
    requires k < |StepIds|
    ensures GetStepStatus(Idle, StepIds[k]) == StepPending
  {
    StepPositions();
  }

  /** The reset button: shown when the status is `complete` or `error`. */
  predicate ShowsReset(status: Status) {
    status == Complete || status == Error
  }

  /** The reset button shows exactly when the last step has been reached or the pipeline failed. */
  lemma ResetShownAtTheEnd(status: Status)
    ensures ShowsReset(status) <==> status == Error || GetStepStatus(status, Complete) == StepCurrent
  {
    StepPositions();
  }

  /** `error || 'Failed to process your image. Please try again.'`: an empty message counts as none. */
  function ErrorText(error: Option<string>): (r: string)
    ensures error.Some? && error.value != [] ==> r == error.value
    ensures error.None? || error.value == [] ==> r == DefaultError
    ensures r != []
  {
    if error.Some? && error.value != [] then error.value else DefaultError
  }
}
