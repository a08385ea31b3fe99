/** The step markers of the preview timeline (TimelineNavigation.jsx): what a
    click on a marker requests, and how a marker is drawn for the current step. */
module TimelineNavigation {
  import opened Seqs
  import opened StagesData

  /** A click on a stage's marker asks for the step numbered by the stage id. */
  function MarkerClickRequest(stage: PreviewStage): int {
    stage.id
  }

  /** Green gradient: the stage is reached. */
  predicate Filled(currentStep: int, stageId: int)
    ensures Filled(currentStep, stageId) <==> Checked(currentStep, stageId) || Emphasised(currentStep, stageId)
  {
    currentStep >= stageId
  }

  /** Check-mark badge: the stage is passed. */
  predicate Checked(currentStep: int, stageId: int) {
    currentStep > stageId
  }

  /** Bold green label: the stage is the current one. */
  predicate Emphasised(currentStep: int, stageId: int) {
    currentStep == stageId
  }

  datatype MarkerStatus = Upcoming | Current | Completed

  /** The three ways a marker can look, read off the three predicates above. */
  function Status(currentStep: int, stageId: int): (s: MarkerStatus)
    ensures s == Completed <==> Checked(currentStep, stageId)
    ensures s == Current <==> Emphasised(currentStep, stageId)
    ensures s != Upcoming <==> Filled(currentStep, stageId)
  {
    if currentStep > stageId then Completed
    else if currentStep == stageId then Current
    else Upcoming
  }

  /** A check mark only appears on a filled marker, and a marker is filled
      exactly when it is checked or emphasised, never both. */
  lemma MarkerPredicates(currentStep: int, stageId: int)
    ensures Checked(currentStep, stageId) ==> Filled(currentStep, stageId)
    ensures Filled(currentStep, stageId) <==> Checked(currentStep, stageId) || Emphasised(currentStep, stageId)
    ensures !(Checked(currentStep, stageId) && Emphasised(currentStep, stageId))
  {
  }

  function Ids(stages: seq<PreviewStage>): seq<int> {
    MapSeq(stages, (s: PreviewStage) => s.id)
  }

  /** With distinct ids at most one label is emphasised. */
  lemma AtMostOneEmphasised(stages: seq<PreviewStage>, currentStep: int, i: nat, j: nat)
    requires Distinct(Ids(stages))
    requires i < |stages| && j < |stages|
    requires Emphasised(currentStep, stages[i].id) && Emphasised(currentStep, stages[j].id)
    ensures i == j
  {
    var ids := Ids(stages);
    assert ids[i] == stages[i].id && ids[j] == stages[j].id;
  }

  /** Number of filled markers. */
  function FilledCount(stages: seq<PreviewStage>, currentStep: int): nat {
    if |stages| == 0 then 0
    else FilledCount(stages[..|stages| - 1], currentStep)
         + (if Filled(currentStep, stages[|stages| - 1].id) then 1 else 0)
  }

  /** With positional ids, the filled markers are exactly the first
      `currentStep` ones (clamped to the list). */
  lemma {:induction false} FilledCountPositional(stages: seq<PreviewStage>, currentStep: int)
    requires PositionalIds(stages)
    ensures FilledCount(stages, currentStep)
         == if currentStep < 0 then 0 else if currentStep > |stages| then |stages| else currentStep
  {
    if |stages| > 0 {
      FilledCountPositional(stages[..|stages| - 1], currentStep);
    }
  }
}
