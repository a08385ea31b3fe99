/** Step navigation of the preview screen (StagePreviewScreen.jsx): a counter
    `currentStep` that starts at 1 and only ever takes values the guard in
    `handleStepChange` admits. The scroll centring it triggers is left out; the
    index of the card it would centre is kept. */
module StagePreview {
  import opened Wrappers
  import opened StagesData
  import opened TimelineNavigation
  import opened NavigationControls

  const InitialStep: int := 1

  /** The screen opens on the first stage: the step lies in range for any
      non-empty list, the previous button is disabled, and the first marker of
      the demonstration data is the current one. */
  lemma InitialStepIsFirst(totalSteps: int)
    requires totalSteps >= 1
    ensures 1 <= InitialStep <= totalSteps
    ensures PrevDisabled(InitialStep)
    ensures Emphasised(InitialStep, Stages[0].id)
  {
  }

  /** `handleStepChange(newStep)` over a list of `totalSteps` stages: a request
      outside `[1, totalSteps]` is ignored, any other is taken as is. */
  function HandleStepChange(currentStep: int, totalSteps: int, newStep: int): (r: int)
    ensures (newStep < 1 || newStep > totalSteps) ==> r == currentStep
    ensures 1 <= newStep <= totalSteps ==> r == newStep
  {
    if newStep < 1 || newStep > totalSteps then currentStep else newStep
  }

  /** `onPrevStep` as wired by the screen. */
  function PrevStep(currentStep: int, totalSteps: int): (r: int)
    ensures 1 <= currentStep <= totalSteps ==> 1 <= r <= totalSteps
    ensures r == currentStep - 1 || r == currentStep
    ensures r == currentStep <==> currentStep - 1 < 1 || currentStep - 1 > totalSteps
  {
    HandleStepChange(currentStep, totalSteps, currentStep - 1)
  }

  /** `onNextStep` as wired by the screen. */
  function NextStep(currentStep: int, totalSteps: int): (r: int)
    ensures 1 <= currentStep <= totalSteps ==> 1 <= r <= totalSteps
    ensures r == currentStep + 1 || r == currentStep
    ensures r == currentStep <==> currentStep + 1 < 1 || currentStep + 1 > totalSteps
  {
    HandleStepChange(currentStep, totalSteps, currentStep + 1)
  }

  /** The card an accepted change centres (`cards[newStep - 1]`); None when the
      guard rejects the request and nothing is scheduled. */
  function CenteredCard(totalSteps: int, newStep: int): (r: Option<nat>)
    ensures r.Some? <==> 1 <= newStep <= totalSteps
    ensures r.Some? ==> r.value < totalSteps && r.value + 1 == newStep
  {
    if newStep < 1 || newStep > totalSteps then None else Some(newStep - 1)
  }

  /** What the user can do on the preview screen. */
  datatype NavEvent = MarkerClicked(stage: PreviewStage) | ButtonClicked(button: Button)

  function Invoke(callback: Callback, currentStep: int, totalSteps: int): int {
    match callback
    case OnPrevStep => PrevStep(currentStep, totalSteps)
    case OnNextStep => NextStep(currentStep, totalSteps)
  }

  function Step(currentStep: int, totalSteps: int, e: NavEvent): int {
    match e
    case MarkerClicked(stage) => HandleStepChange(currentStep, totalSteps, MarkerClickRequest(stage))
    case ButtonClicked(button) => Invoke(OnClick(button), currentStep, totalSteps)
  }

  function Run(currentStep: int, totalSteps: int, events: seq<NavEvent>): int
    decreases |events|
  {
    if |events| == 0 then currentStep else Run(Step(currentStep, totalSteps, events[0]), totalSteps, events[1..])
  }

  /** Every event keeps the step inside `[1, totalSteps]`. */
  lemma StepKeepsRange(currentStep: int, totalSteps: int, e: NavEvent)
    requires 1 <= currentStep <= totalSteps
    ensures 1 <= Step(currentStep, totalSteps, e) <= totalSteps
  {
  }

  /** From the initial step, every sequence of clicks keeps `1 <= currentStep <= n`
      on a screen with at least one stage. */
  lemma {:induction false} RunKeepsRange(currentStep: int, totalSteps: int, events: seq<NavEvent>)
    requires 1 <= currentStep <= totalSteps
    ensures 1 <= Run(currentStep, totalSteps, events) <= totalSteps
    decreases |events|
  {
    if |events| > 0 {
      StepKeepsRange(currentStep, totalSteps, events[0]);
      RunKeepsRange(Step(currentStep, totalSteps, events[0]), totalSteps, events[1..]);
    }
  }

  lemma ReachableStepsOnStagesData(events: seq<NavEvent>)
    ensures 1 <= Run(InitialStep, |Stages|, events) <= 7
  {
    StagesShape();
    RunKeepsRange(InitialStep, |Stages|, events);
  }

  /** Previous on the first step and next on the last step do nothing;
      otherwise each moves by exactly one. */
  lemma PrevNextMoves(currentStep: int, totalSteps: int)
    requires 1 <= currentStep <= totalSteps
    ensures PrevStep(currentStep, totalSteps) == if currentStep == 1 then currentStep else currentStep - 1
    ensures NextStep(currentStep, totalSteps) == if currentStep == totalSteps then currentStep else currentStep + 1
  {
  }

  /** Next then previous returns to the starting step below the last one. */
  lemma NextThenPrev(k: int, totalSteps: int)
    requires 1 <= k < totalSteps
    ensures PrevStep(NextStep(k, totalSteps), totalSteps) == k
  {
  }

  /** A button is greyed out exactly when its callback would be ignored. */
  lemma DisabledMeansNoOp(currentStep: int, totalSteps: int)
    requires 1 <= currentStep <= totalSteps
    ensures PrevDisabled(currentStep) <==> PrevStep(currentStep, totalSteps) == currentStep
    ensures NextDisabled(currentStep, totalSteps) <==> NextStep(currentStep, totalSteps) == currentStep
  {
  }

  /** With a single stage both buttons are greyed out. */
  lemma SingleStageBothDisabled()
    ensures PrevDisabled(InitialStep) && NextDisabled(InitialStep, 1)
  {
  }

  /** Clicking the marker of the stage at position `i` of the demonstration
      data makes it the current step, centres card `i`, and emphasises its
      label and no other. */
  lemma MarkerClickSelects(currentStep: int, i: nat)
    requires i < |Stages|
    ensures var next := Step(currentStep, |Stages|, MarkerClicked(Stages[i]));
            && next == i + 1
            && CenteredCard(|Stages|, MarkerClickRequest(Stages[i])) == Some(i)
            && forall j :: 0 <= j < |Stages| ==> (Emphasised(next, Stages[j].id) <==> j == i)
  {
    StagesShape();
  }
}
