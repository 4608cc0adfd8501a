/**
 * The onboarding tour: a step counter over a fixed list of steps, moved by the
 * "next" and "previous" buttons and reset whenever the tour is opened again.
 */
module ProductTour {

  datatype TourStep = TourStep(title: string, content: string, icon: string)

  /** What the tour renders: nothing, or one step with the progress bar's width in percent. */
  datatype View = Hidden | Shown(step: TourStep, index: nat, progress: real)

  class Tour {
    const steps: seq<TourStep>
    var isActive: bool
    var currentStep: int

    /** The index of the last step, or 0 for a tour without steps. */
    function LastStep(): nat
      reads this
    {
      if |steps| == 0 then 0 else |steps| - 1
    }

    /** The step counter never leaves [0, last step]. */
    ghost predicate Valid()
      reads this
    {
      0 <= currentStep <= LastStep()
    }

    /** Mounting the component: the counter starts at the first step. */
    constructor (steps: seq<TourStep>, isActive: bool)
      ensures Valid()
      ensures this.steps == steps && this.isActive == isActive && currentStep == 0
    {
      this.steps := steps;
      this.isActive := isActive;
      currentStep := 0;
    }

    /**
     * A new value of the `isActive` property. The effect that depends on it runs
     * only when the value changes, and resets the counter when the tour opens.
     */
    method SetActive(active: bool)
      requires Valid()
      modifies this
      ensures Valid()
      ensures isActive == active
      ensures currentStep == if active && !old(isActive) then 0 else old(currentStep)
    {
      if active != isActive {
        isActive := active;
        if active {
          currentStep := 0;
        }
      }
    }

    /**
     * `handleNext`: moves to the next step while there is one; on the last step
     * it reports completion (`onComplete`) and leaves the counter alone.
     */
    method HandleNext() returns (completed: bool)
      requires Valid()
      modifies this`currentStep
      ensures Valid()
      ensures completed <==> old(currentStep) == LastStep()
      ensures currentStep == if completed then old(currentStep) else old(currentStep) + 1
    {
      if currentStep < |steps| - 1 {
        currentStep := currentStep + 1;
        completed := false;
      } else {
        completed := true;
      }
    }

    /** `handlePrev`: moves back one step, and does nothing on the first step. */
    method HandlePrev()
      requires Valid()
      modifies this`currentStep
      ensures Valid()
      ensures currentStep == if old(currentStep) > 0 then old(currentStep) - 1 else 0
    {
      if currentStep > 0 {
        currentStep := currentStep - 1;
      }
    }

    /**
     * The render guard: nothing is shown while the tour is inactive or the
     * counter is past the steps. Because the counter stays in range, an active
     * tour with at least one step always shows `steps[currentStep]`, with a
     * progress bar that is full exactly on the last step.
     */
    method Render() returns (view: View)
      requires Valid()
      ensures view.Shown? <==> isActive && |steps| > 0
      ensures view.Shown? ==> view.index < |steps| && view.step == steps[view.index]
                              && view.index == currentStep
      ensures view.Shown? ==> 0.0 < view.progress <= 100.0
      ensures view.Shown? ==> (view.progress == 100.0 <==> view.index == |steps| - 1)
    {
      if !isActive || currentStep >= |steps| {
        return Hidden;
      }
      var step := steps[currentStep];
      var progress := ((currentStep + 1) as real / |steps| as real) * 100.0;
      ProgressInRange(currentStep, |steps|);
      view := Shown(step, currentStep, progress);
    }
  }

  /** The progress of step `index` out of `count`, in percent, is positive, at most 100,
      and reaches 100 only on the last step. */
  lemma ProgressInRange(index: nat, count: nat)
    requires index < count
    ensures 0.0 < ((index + 1) as real / count as real) * 100.0 <= 100.0
    ensures ((index + 1) as real / count as real) * 100.0 == 100.0 <==> index == count - 1
  {
    var q := (index + 1) as real / count as real;
    assert q * count as real == (index + 1) as real;
    if index == count - 1 {
      assert q == 1.0;
    } else {
      assert q < 1.0;
    }
  }
}
