/**
 * The step indicator: three numbered steps, each shown as done, current or
 * pending against the current step number, with a connector after the first two.
 */
module StepIndicator {

  datatype StepInfo = StepInfo(number: int, caption: string)

  const STEPS: seq<StepInfo> := [StepInfo(1, "Upload"), StepInfo(2, "Analyze"), StepInfo(3, "Results")]

  datatype Status = Done | Current | Pending

  /** The colouring of the step circle for step `n`. */
  function Classify(currentStep: int, n: int): Status {
    if currentStep > n then Done
    else if currentStep == n then Current
    else Pending
  }

  /** Each step is exactly one of done, current or pending, decided by comparing numbers. */
  lemma ClassifyExclusive(currentStep: int, n: int)
    ensures Classify(currentStep, n) == Done <==> currentStep > n
    ensures Classify(currentStep, n) == Current <==> currentStep == n
    ensures Classify(currentStep, n) == Pending <==> currentStep < n
  {
  }

  datatype Connector = NoConnector | Connector(success: bool)

  /** What the indicator draws for one step. */
  datatype StepView = StepView(
    number: int,
    caption: string,
    status: Status,
    showsCheck: bool,       // a check mark instead of the number
    labelEmphasised: bool,  // foreground rather than muted label colour
    connector: Connector)   // the line drawn after this step, if any

  function ViewOf(currentStep: int, index: nat): StepView
    requires index < |STEPS|
  {
    var step := STEPS[index];
    StepView(
      step.number,
      step.caption,
      Classify(currentStep, step.number),
      currentStep > step.number,
      currentStep >= step.number,
      if index < |STEPS| - 1 then Connector(currentStep > step.number) else NoConnector)
  }

  /** The indicator for `currentStep`, one view per entry of the fixed step list. */
  function Render(currentStep: int): (views: seq<StepView>)
    ensures |views| == 3
    ensures forall i :: 0 <= i < 3 ==> views[i].number == i + 1 && views[i].caption == STEPS[i].caption
    ensures forall i :: 0 <= i < 3 ==> (views[i].showsCheck <==> views[i].status == Done)
    ensures forall i :: 0 <= i < 3 ==> (views[i].labelEmphasised <==> views[i].status != Pending)
    ensures forall i :: 0 <= i < 3 ==> (views[i].connector.Connector? <==> i < 2)
    ensures forall i :: 0 <= i < 2 ==> (views[i].connector.success <==> views[i].status == Done)
  {
    seq(|STEPS|, i requires 0 <= i < |STEPS| => ViewOf(currentStep, i))
  }

  /** The number of steps drawn as current. */
  function CountCurrent(views: seq<StepView>): nat
    decreases |views|
  {
    if |views| == 0 then 0
    else (if views[0].status == Current then 1 else 0) + CountCurrent(views[1..])
  }

  /**
   * For a current step in 1..3, exactly one step is current, namely that one;
   * the steps before it are done and the steps after it are pending.
   */
  lemma ExactlyOneCurrent(currentStep: int)
    requires 1 <= currentStep <= 3
    ensures CountCurrent(Render(currentStep)) == 1
    ensures Render(currentStep)[currentStep - 1].status == Current
    ensures forall i :: 0 <= i < 3 ==>
      (i < currentStep - 1 ==> Render(currentStep)[i].status == Done) &&
      (i > currentStep - 1 ==> Render(currentStep)[i].status == Pending)
  {
    var v := Render(currentStep);
    assert v[1..][1..][1..] == [];
    assert CountCurrent(v) == (if v[0].status == Current then 1 else 0) + CountCurrent(v[1..]);
    assert CountCurrent(v[1..]) == (if v[1].status == Current then 1 else 0) + CountCurrent(v[1..][1..]);
    assert CountCurrent(v[1..][1..]) == (if v[2].status == Current then 1 else 0) + CountCurrent(v[1..][1..][1..]);
  }

  /** A number outside 1..3 makes no step current. */
  lemma NoCurrentOutsideRange(currentStep: int)
    requires currentStep < 1 || currentStep > 3
    ensures CountCurrent(Render(currentStep)) == 0
  {
    var v := Render(currentStep);
    assert v[1..][1..][1..] == [];
    assert CountCurrent(v) == (if v[0].status == Current then 1 else 0) + CountCurrent(v[1..]);
    assert CountCurrent(v[1..]) == (if v[1].status == Current then 1 else 0) + CountCurrent(v[1..][1..]);
    assert CountCurrent(v[1..][1..]) == (if v[2].status == Current then 1 else 0) + CountCurrent(v[1..][1..][1..]);
  }
}
