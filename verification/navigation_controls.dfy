/** The previous/next buttons of the preview screen (NavigationControls.jsx). */
module NavigationControls {

  /** The previous button is greyed out on the first step. */
  predicate PrevDisabled(currentStep: int) {
    currentStep == 1
  }

  /** The next button is greyed out on the last step. */
  predicate NextDisabled(currentStep: int, totalSteps: int) {
    currentStep == totalSteps
  }

  datatype Button = PrevButton | NextButton

  /** The callbacks the screen hands to the buttons. */
  datatype Callback = OnPrevStep | OnNextStep

  /** Each button invokes its own callback and no other. */
  function OnClick(button: Button): (c: Callback)
    ensures c == OnPrevStep <==> button == PrevButton
    ensures c == OnNextStep <==> button == NextButton
  {
    match button
    case PrevButton => OnPrevStep
    case NextButton => OnNextStep
  }
}
