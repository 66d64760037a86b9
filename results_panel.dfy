/**
 * The results panel: the compliance score, the covered and missing
 * controls, and policy generation for missing controls.
 */
module ResultsPanel {
  import opened Wrappers
  import opened ComplianceStore
  import opened FunctionsClient

  /**
   * `Math.round(covered / total * 100)` in integers: the whole number nearest
   * to the percentage, halves rounded up. The source does not guard against
   * a total of zero.
   */
  function ComplianceScore(coveredCount: nat, missingCount: nat): (score: int)
    requires coveredCount + missingCount > 0
    ensures var total := coveredCount + missingCount;
      total * (2 * score - 1) <= 200 * coveredCount < total * (2 * score + 1)
    ensures 0 <= score <= 100
  {
    var total := coveredCount + missingCount;
    var score := (200 * coveredCount + total) / (2 * total);
    ScoreBounds(coveredCount, total, score);
    score
  }

  lemma ScoreBounds(covered: nat, total: nat, score: int)
    requires 0 < total && covered <= total
    requires score == (200 * covered + total) / (2 * total)
    ensures total * (2 * score - 1) <= 200 * covered < total * (2 * score + 1)
    ensures 0 <= score <= 100
  {
    var n := 200 * covered + total;
    var d := 2 * total;
    var rem := n % d;
    assert n == d * score + rem && 0 <= rem < d;
    assert total * (2 * score - 1) == d * score - total;
    assert total * (2 * score + 1) == d * score + total;
    assert d * score < d * 101 by {
      assert 200 * covered <= 200 * total;
    }
    MultiplierBelow(d, score, 101);
    assert d * -1 < d * score;
    MultiplierBelow(d, -1, score);
  }

  lemma MultiplierBelow(d: int, a: int, b: int)
    requires d > 0 && d * a < d * b
    ensures a < b
  {
  }

  /**
   * The score as displayed: `None` stands for the `NaN` that the division
   * yields when the result lists no control at all.
   */
  function DisplayedScore(coveredCount: nat, missingCount: nat): (score: Option<int>)
    ensures score.None? <==> coveredCount + missingCount == 0
    ensures score.Some? ==> 0 <= score.value <= 100
  {
    if coveredCount + missingCount == 0 then None else Some(ComplianceScore(coveredCount, missingCount))
  }

  /** One covered control out of five scores 20; one of eight, 12.5, rounds up to 13. */
  lemma ScoreExamples()
    ensures ComplianceScore(1, 4) == 20
    ensures ComplianceScore(1, 7) == 13
    ensures ComplianceScore(5, 0) == 100 && ComplianceScore(0, 5) == 0
  {
  }

  /** getExistingPolicy: the first stored policy for `control`, if any. */
  function FindPolicy(policies: seq<GeneratedPolicy>, control: string): (r: Option<GeneratedPolicy>)
    ensures r.Some? ==> r.value in policies && r.value.control == control
    ensures r.None? <==> forall p :: p in policies ==> p.control != control
    decreases |policies|
  {
    if |policies| == 0 then None
    else if policies[0].control == control then Some(policies[0])
    else FindPolicy(policies[1..], control)
  }

  /** `find` returns the first stored policy for the control: every earlier entry names another control. */
  lemma {:induction false} FindPolicyFirst(policies: seq<GeneratedPolicy>, control: string)
    requires FindPolicy(policies, control).Some?
    ensures exists i :: (0 <= i < |policies| && policies[i] == FindPolicy(policies, control).value &&
      forall j :: 0 <= j < i ==> policies[j].control != control)
    decreases |policies|
  {
    if policies[0].control != control {
      var tail := policies[1..];
      FindPolicyFirst(tail, control);
      var i :| 0 <= i < |tail| && tail[i] == FindPolicy(tail, control).value &&
        forall j :: 0 <= j < i ==> tail[j].control != control;
      assert policies[i + 1] == tail[i];
      forall j | 0 <= j < i + 1 ensures policies[j].control != control {
        if j > 0 { assert policies[j] == tail[j - 1]; }
      }
    } else {
      assert policies[0] == FindPolicy(policies, control).value;
    }
  }

  /** Under the store invariant, the policy found for a control is the only one for it. */
  lemma {:induction false} FindPolicyUnique(policies: seq<GeneratedPolicy>, p: GeneratedPolicy)
    requires UniqueControls(policies)
    requires p in policies
    ensures FindPolicy(policies, p.control) == Some(p)
    decreases |policies|
  {
    if policies[0] != p {
      var tail := policies[1..];
      var k :| 0 <= k < |policies| && policies[k] == p;
      assert k > 0 && tail[k - 1] == p;
      assert policies[0].control != p.control;
      assert UniqueControls(tail) by {
        forall i, j | 0 <= i < j < |tail| ensures tail[i].control != tail[j].control {
          assert tail[i] == policies[i + 1] && tail[j] == policies[j + 1];
        }
      }
      FindPolicyUnique(tail, p);
    }
  }

  lemma {:induction false} FindPolicyAppend(xs: seq<GeneratedPolicy>, ys: seq<GeneratedPolicy>, control: string)
    ensures FindPolicy(xs + ys, control) ==
      if FindPolicy(xs, control).Some? then FindPolicy(xs, control) else FindPolicy(ys, control)
    decreases |xs|
  {
    if |xs| == 0 {
      assert xs + ys == ys;
    } else {
      assert (xs + ys)[1..] == xs[1..] + ys;
      FindPolicyAppend(xs[1..], ys, control);
    }
  }

  lemma {:induction false} FindPolicyWithoutOther(policies: seq<GeneratedPolicy>, removed: string, control: string)
    requires removed != control
    ensures FindPolicy(WithoutControl(policies, removed), control) == FindPolicy(policies, control)
    decreases |policies|
  {
    if |policies| > 0 {
      var head := if policies[0].control == removed then [] else [policies[0]];
      FindPolicyAppend(head, WithoutControl(policies[1..], removed), control);
      FindPolicyWithoutOther(policies[1..], removed, control);
      if head != [] {
        assert head[1..] == [];
      }
    }
  }

  /** After an upsert the policy is found for its control, and every other control finds what it found before. */
  lemma UpsertThenFind(policies: seq<GeneratedPolicy>, policy: GeneratedPolicy, control: string)
    ensures FindPolicy(Upsert(policies, policy), policy.control) == Some(policy)
    ensures control != policy.control ==>
      FindPolicy(Upsert(policies, policy), control) == FindPolicy(policies, control)
  {
    var w := WithoutControl(policies, policy.control);
    FindPolicyAppend(w, [policy], policy.control);
    assert FindPolicy(w, policy.control).None?;
    FindPolicyAppend(w, [policy], control);
    if control != policy.control {
      FindPolicyWithoutOther(policies, policy.control, control);
      assert [policy][1..] == [];
    }
  }

  /** What a missing control's row offers. */
  datatype MissingAction = ViewPolicy(content: string) | GeneratePolicy(disabled: bool)

  /**
   * "View Policy" when a policy exists for the control; otherwise "Generate
   * Policy", disabled only while the single busy slot names this control.
   */
  function MissingControlAction(policies: seq<GeneratedPolicy>, isGenerating: Option<string>, control: string): (a: MissingAction)
    ensures a.ViewPolicy? <==> exists p :: p in policies && p.control == control
    ensures a.ViewPolicy? ==> Some(GeneratedPolicy(control, a.content)) == FindPolicy(policies, control)
    ensures a.GeneratePolicy? ==> (a.disabled <==> isGenerating == Some(control))
  {
    match FindPolicy(policies, control)
    case Some(p) => ViewPolicy(p.content)
    case None => GeneratePolicy(isGenerating == Some(control))
  }

  /** The expand toggle: collapse the control if it is the expanded one, otherwise expand it. */
  function Toggle(expanded: Option<string>, control: string): (r: Option<string>)
    ensures r == None <==> expanded == Some(control)
    ensures r.Some? ==> r.value == control
  {
    if expanded == Some(control) then None else Some(control)
  }

  /**
   * Two clicks on the same control restore the state exactly when nothing
   * or that control was expanded; when another control was expanded, they
   * leave every control collapsed.
   */
  lemma ToggleTwice(expanded: Option<string>, control: string)
    ensures Toggle(Toggle(expanded, control), control) == expanded <==>
      expanded == None || expanded == Some(control)
    ensures expanded != None && expanded != Some(control) ==>
      Toggle(Toggle(expanded, control), control) == None
  {
  }

  datatype CoveredRow = CoveredRow(control: string, expanded: bool, shownReasoning: Option<string>)
  datatype MissingRow = MissingRow(control: string, action: MissingAction, shownReasoning: Option<string>)
  datatype ResultsView = ResultsView(score: Option<int>, covered: seq<CoveredRow>, missing: seq<MissingRow>)

  /** `reasoning[control]` when it is present and non-empty. */
  function ShownReasoning(reasoning: map<string, string>, control: string): Option<string> {
    if control in reasoning && reasoning[control] != "" then Some(reasoning[control]) else None
  }

  /**
   * What the panel renders for the store's state: nothing without a result;
   * otherwise the score and one row per covered and per missing control.
   */
  function Render(state: StoreState, expandedControl: Option<string>): (v: Option<ResultsView>)
    ensures v.None? <==> state.complianceResult.None?
    ensures v.Some? ==> var result := state.complianceResult.value;
      && v.value.score == DisplayedScore(|result.covered|, |result.missing|)
      && |v.value.covered| == |result.covered| && |v.value.missing| == |result.missing|
      && (forall i :: 0 <= i < |result.covered| ==> v.value.covered[i].control == result.covered[i])
      && (forall i :: 0 <= i < |result.covered| ==>
            (v.value.covered[i].expanded <==> expandedControl == Some(result.covered[i])))
      && (forall i :: 0 <= i < |result.covered| ==>
            (v.value.covered[i].shownReasoning.Some? ==> v.value.covered[i].expanded))
      && (forall i :: 0 <= i < |result.missing| ==> v.value.missing[i].control == result.missing[i])
      && (forall i :: 0 <= i < |result.missing| ==>
            v.value.missing[i].action == MissingControlAction(state.generatedPolicies, state.isGenerating, result.missing[i]))
  {
    match state.complianceResult
    case None => None
    case Some(result) =>
      var covered := seq(|result.covered|, i requires 0 <= i < |result.covered| =>
        var c := result.covered[i];
        var open := expandedControl == Some(c);
        CoveredRow(c, open, if open then ShownReasoning(result.reasoning, c) else None));
      var missing := seq(|result.missing|, i requires 0 <= i < |result.missing| =>
        var c := result.missing[i];
        MissingRow(c, MissingControlAction(state.generatedPolicies, state.isGenerating, c), ShownReasoning(result.reasoning, c)));
      Some(ResultsView(DisplayedScore(|result.covered|, |result.missing|), covered, missing))
  }

  class Panel {
    var expandedControl: Option<string>
    var policyModal: Option<GeneratedPolicy>
    const store: Store

    constructor(store: Store)
      ensures expandedControl == None && policyModal == None && this.store == store
    {
      expandedControl := None;
      policyModal := None;
      this.store := store;
    }

    /** handleGeneratePolicy up to the awaited call: the single busy slot now names `control`. */
    method BeginGeneratePolicy(control: string) returns (documentText: string)
      requires store.Valid()
      modifies store
      ensures store.Valid()
      ensures store.Snapshot() == old(store.Snapshot()).(isGenerating := Some(control))
      ensures documentText == store.documentText
      ensures MissingControlAction(store.generatedPolicies, store.isGenerating, control).GeneratePolicy? ==>
        MissingControlAction(store.generatedPolicies, store.isGenerating, control).disabled
    {
      store.SetIsGenerating(Some(control));
      documentText := store.documentText;
    }

    /**
     * handleGeneratePolicy after the call settles. On success the policy is
     * upserted and shown in the modal; on failure the policies are untouched.
     * The busy slot is emptied on every path, whichever control it names by then.
     */
    method FinishGeneratePolicy(control: string, reply: Invocation<string>) returns (generated: bool)
      requires store.Valid()
      modifies this, store
      ensures store.Valid()
      ensures generated <==> Succeeded(reply)
      ensures generated ==> store.Snapshot() == old(store.Snapshot()).(
        generatedPolicies := Upsert(old(store.generatedPolicies), GeneratedPolicy(control, reply.data)),
        isGenerating := None)
      ensures generated ==> policyModal == Some(GeneratedPolicy(control, reply.data))
      ensures generated ==> MissingControlAction(store.generatedPolicies, store.isGenerating, control) == ViewPolicy(reply.data)
      ensures !generated ==> store.Snapshot() == old(store.Snapshot()).(isGenerating := None)
      ensures !generated ==> policyModal == old(policyModal)
      ensures expandedControl == old(expandedControl)
    {
      generated := Succeeded(reply);
      if generated {
        var policy := GeneratedPolicy(control, reply.data);
        store.AddGeneratedPolicy(policy);
        policyModal := Some(policy);
        UpsertThenFind(old(store.generatedPolicies), policy, control);
      }
      store.SetIsGenerating(None);
    }

    /** The expand button of a covered control. */
    method ToggleExpanded(control: string)
      modifies this
      ensures expandedControl == Toggle(old(expandedControl), control)
      ensures policyModal == old(policyModal)
    {
      expandedControl := if expandedControl == Some(control) then None else Some(control);
    }

    /** "View Policy": opens the modal on the stored policy; the button exists only when there is one. */
    method ShowExistingPolicy(control: string)
      modifies this
      ensures FindPolicy(store.generatedPolicies, control).Some? ==>
        policyModal == Some(GeneratedPolicy(control, FindPolicy(store.generatedPolicies, control).value.content))
      ensures FindPolicy(store.generatedPolicies, control).None? ==> policyModal == old(policyModal)
      ensures expandedControl == old(expandedControl)
    {
      var existing := FindPolicy(store.generatedPolicies, control);
      if existing.Some? {
        policyModal := Some(GeneratedPolicy(control, existing.value.content));
      }
    }

    method CloseModal()
      modifies this
      ensures policyModal == None && expandedControl == old(expandedControl)
    {
      policyModal := None;
    }
  }

  /**
   * Two generations that overlap: `a` starts, `b` starts, `a` finishes, then
   * `b` finishes. Because the busy flag is one slot, it is already empty
   * while `b` is still in flight, so `b`'s button is enabled again; both
   * policies still end up stored, each under its own control.
   */
  method OverlappingGenerations(a: string, b: string, contentA: string, contentB: string)
    returns (slotWhileBPending: Option<string>, bButtonWhilePending: MissingAction, policies: seq<GeneratedPolicy>)
    requires a != b
    ensures slotWhileBPending == None
    ensures bButtonWhilePending == GeneratePolicy(false)
    ensures FindPolicy(policies, a) == Some(GeneratedPolicy(a, contentA))
    ensures FindPolicy(policies, b) == Some(GeneratedPolicy(b, contentB))
  {
    var store := new Store();
    var panel := new Panel(store);
    var _ := panel.BeginGeneratePolicy(a);
    var _ := panel.BeginGeneratePolicy(b);
    var _ := panel.FinishGeneratePolicy(a, InvokeData("", contentA));
    slotWhileBPending := store.isGenerating;
    bButtonWhilePending := MissingControlAction(store.generatedPolicies, store.isGenerating, b);
    var afterA := store.generatedPolicies;
    var _ := panel.FinishGeneratePolicy(b, InvokeData("", contentB));
    policies := store.generatedPolicies;
    UpsertThenFind(afterA, GeneratedPolicy(b, contentB), a);
  }
}
