/**
 * The three-step wizard page: which step is shown, the callbacks that each
 * shown panel receives, and the reset handler.
 */
module Wizard {
  import opened Wrappers
  import ComplianceStore
  import StepIndicator

  datatype Step = Upload | Analyze | Results

  /** The step the page starts in. */
  const INITIAL_STEP := Upload

  /** The number shown by the step indicator for `step`. */
  function StepNumber(step: Step): (n: int)
    ensures 1 <= n <= 3
  {
    match step
    case Upload => 1
    case Analyze => 2
    case Results => 3
  }

  /** Distinct steps have distinct numbers, and every number in 1..3 belongs to a step. */
  lemma StepNumberBijective(a: Step, b: Step, n: int)
    ensures StepNumber(a) == StepNumber(b) ==> a == b
    ensures 1 <= n <= 3 ==> exists s :: StepNumber(s) == n
  {
    if n == 1 { assert StepNumber(Upload) == n; }
    else if n == 2 { assert StepNumber(Analyze) == n; }
    else if n == 3 { assert StepNumber(Results) == n; }
  }

  /**
   * The indicator the page draws marks exactly one step as current, the
   * page's own step, with the earlier steps done and the later ones pending.
   */
  lemma IndicatorShowsStep(step: Step)
    ensures var views := StepIndicator.Render(StepNumber(step));
      && StepIndicator.CountCurrent(views) == 1
      && views[StepNumber(step) - 1].status == StepIndicator.Current
      && views[StepNumber(step) - 1].caption ==
           match step case Upload => "Upload" case Analyze => "Analyze" case Results => "Results"
  {
    StepIndicator.ExactlyOneCurrent(StepNumber(step));
  }

  /** The callbacks the page hands to its panels. */
  datatype Event =
    | Continue    // the upload panel's onContinue
    | Complete    // the analysis panel's onComplete
    | Back        // the analysis panel's onBack
    | StartOver   // the results panel's onReset (handleReset)

  /** The panel rendered at `step` is the one that holds the callback `e`. */
  predicate Offers(step: Step, e: Event) {
    match e
    case Continue => step == Upload
    case Complete => step == Analyze
    case Back => step == Analyze
    case StartOver => step == Results
  }

  /** The step each callback sets. */
  function Target(e: Event): Step {
    match e
    case Continue => Analyze
    case Complete => Results
    case Back => Upload
    case StartOver => Upload
  }

  /** The step after `e` fires in `step`; `None` when no rendered panel offers `e`. */
  function Next(step: Step, e: Event): Option<Step> {
    if Offers(step, e) then Some(Target(e)) else None
  }

  /**
   * The only transitions: upload to analyze, analyze to results, analyze back
   * to upload, and results to upload.
   */
  lemma OnlyTransitions(from: Step, e: Event, to: Step)
    ensures Next(from, e) == Some(to) <==>
      (from == Upload && e == Continue && to == Analyze) ||
      (from == Analyze && e == Complete && to == Results) ||
      (from == Analyze && e == Back && to == Upload) ||
      (from == Results && e == StartOver && to == Upload)
  {
  }

  /** A transition never moves forward by more than one step, so upload never goes straight to results. */
  lemma NoSkippedStep(from: Step, e: Event)
    requires Next(from, e).Some?
    ensures StepNumber(Next(from, e).value) <= StepNumber(from) + 1
    ensures from == Upload ==> Next(from, e).value != Results
  {
  }

  /** The step reached by firing `events` in order, starting from `step`; events no rendered panel offers change nothing. */
  function Run(step: Step, events: seq<Event>): Step
    decreases |events|
  {
    if |events| == 0 then step
    else
      var next := Next(step, events[0]).GetOr(step);
      Run(next, events[1..])
  }

  /** Results is reached from another step only through the analysis panel's onComplete. */
  lemma {:induction false} ResultsOnlyThroughComplete(step: Step, events: seq<Event>)
    requires step != Results
    requires Run(step, events) == Results
    ensures exists i :: 0 <= i < |events| && events[i] == Complete
    decreases |events|
  {
    var next := Next(step, events[0]).GetOr(step);
    if events[0] == Complete {
      assert events[0] == Complete;
    } else {
      assert next != Results;
      ResultsOnlyThroughComplete(next, events[1..]);
      var i :| 0 <= i < |events[1..]| && events[1..][i] == Complete;
      assert events[i + 1] == Complete;
    }
  }

  /** The page: its current step and the store it shares with its panels. */
  class IndexPage {
    var currentStep: Step
    const store: ComplianceStore.Store

    constructor(store: ComplianceStore.Store)
      ensures currentStep == INITIAL_STEP && this.store == store
    {
      currentStep := INITIAL_STEP;
      this.store := store;
    }

    /** The step number handed to the step indicator. */
    function GetStepNumber(): (n: int)
      reads this
      ensures 1 <= n <= 3
    {
      StepNumber(currentStep)
    }

    /**
     * Fires callback `e`; when the rendered panel holds it, the step becomes `Target(e)`.
     * The panels' button guards (continue needs stored text, back is disabled while
     * analyzing) are not consulted, so this admits more event sequences than the page.
     */
    method Fire(e: Event)
      requires store.Valid()
      modifies this, store
      ensures store.Valid()
      ensures currentStep == Next(old(currentStep), e).GetOr(old(currentStep))
      ensures e == StartOver && old(currentStep) == Results ==> store.Snapshot() == ComplianceStore.INITIAL_STATE
      ensures e != StartOver || old(currentStep) != Results ==> store.Snapshot() == old(store.Snapshot())
    {
      if Offers(currentStep, e) {
        match e
        case Continue => currentStep := Analyze;
        case Complete => currentStep := Results;
        case Back => currentStep := Upload;
        case StartOver => HandleReset();
      }
    }

    /** handleReset: resets the store, then shows the upload step. */
    method HandleReset()
      modifies this, store
      ensures store.Valid()
      ensures store.Snapshot() == ComplianceStore.INITIAL_STATE
      ensures currentStep == Upload
    {
      store.Reset();
      currentStep := Upload;
    }
  }
}
