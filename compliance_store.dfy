/**
 * The client-side compliance store: six fields updated by setter actions.
 * The store is one object that every panel of the wizard shares.
 */
module ComplianceStore {
  import opened Wrappers

  /** The analysis verdict as the client types it. */
  datatype ComplianceResult = ComplianceResult(
    covered: seq<string>,
    missing: seq<string>,
    reasoning: map<string, string>)

  datatype GeneratedPolicy = GeneratedPolicy(control: string, content: string)

  /** The six fields of the store taken together, so that a setter can say what did not change. */
  datatype StoreState = StoreState(
    documentText: string,
    fileName: string,
    complianceResult: Option<ComplianceResult>,
    generatedPolicies: seq<GeneratedPolicy>,
    isAnalyzing: bool,
    isGenerating: Option<string>)

  /** The value every field starts with, and returns to on reset. */
  const INITIAL_STATE := StoreState("", "", None, [], false, None)

  /** No two stored policies share a control name. */
  ghost predicate UniqueControls(policies: seq<GeneratedPolicy>) {
    forall i, j :: 0 <= i < j < |policies| ==> policies[i].control != policies[j].control
  }

  /** The number of stored policies for `control`. */
  function Count(policies: seq<GeneratedPolicy>, control: string): nat
    decreases |policies|
  {
    if |policies| == 0 then 0
    else (if policies[0].control == control then 1 else 0) + Count(policies[1..], control)
  }

  /** `policies.filter(p => p.control !== control)`. */
  function WithoutControl(policies: seq<GeneratedPolicy>, control: string): (r: seq<GeneratedPolicy>)
    ensures |r| <= |policies|
    ensures forall p :: p in r <==> p in policies && p.control != control
    decreases |policies|
  {
    if |policies| == 0 then []
    else (if policies[0].control == control then [] else [policies[0]]) + WithoutControl(policies[1..], control)
  }

  /** The list `addGeneratedPolicy` installs: the other controls' entries, then `policy`. */
  function Upsert(policies: seq<GeneratedPolicy>, policy: GeneratedPolicy): (r: seq<GeneratedPolicy>)
    ensures |r| > 0 && r[|r| - 1] == policy
    ensures forall p :: p in r <==> p == policy || (p in policies && p.control != policy.control)
  {
    WithoutControl(policies, policy.control) + [policy]
  }

  lemma {:induction false} WithoutControlAppend(xs: seq<GeneratedPolicy>, ys: seq<GeneratedPolicy>, control: string)
    ensures WithoutControl(xs + ys, control) == WithoutControl(xs, control) + WithoutControl(ys, control)
    decreases |xs|
  {
    if |xs| == 0 {
      assert xs + ys == ys;
    } else {
      assert (xs + ys)[1..] == xs[1..] + ys;
      WithoutControlAppend(xs[1..], ys, control);
    }
  }

  lemma {:induction false} WithoutControlIdempotent(policies: seq<GeneratedPolicy>, control: string)
    ensures WithoutControl(WithoutControl(policies, control), control) == WithoutControl(policies, control)
    decreases |policies|
  {
    if |policies| > 0 {
      var head := if policies[0].control == control then [] else [policies[0]];
      WithoutControlAppend(head, WithoutControl(policies[1..], control), control);
      WithoutControlIdempotent(policies[1..], control);
      if head != [] {
        assert head[1..] == [];
      }
    }
  }

  lemma {:induction false} CountAppend(xs: seq<GeneratedPolicy>, ys: seq<GeneratedPolicy>, control: string)
    ensures Count(xs + ys, control) == Count(xs, control) + Count(ys, control)
    decreases |xs|
  {
    if |xs| == 0 {
      assert xs + ys == ys;
    } else {
      assert (xs + ys)[1..] == xs[1..] + ys;
      CountAppend(xs[1..], ys, control);
    }
  }

  lemma {:induction false} CountWithoutControl(policies: seq<GeneratedPolicy>, control: string)
    ensures Count(WithoutControl(policies, control), control) == 0
    decreases |policies|
  {
    if |policies| > 0 {
      var head := if policies[0].control == control then [] else [policies[0]];
      CountAppend(head, WithoutControl(policies[1..], control), control);
      CountWithoutControl(policies[1..], control);
      if head != [] {
        assert head[1..] == [];
      }
    }
  }

  lemma {:induction false} WithoutControlKeepsUnique(policies: seq<GeneratedPolicy>, control: string)
    requires UniqueControls(policies)
    ensures UniqueControls(WithoutControl(policies, control))
    decreases |policies|
  {
    if |policies| > 0 {
      var tail := policies[1..];
      assert UniqueControls(tail) by {
        forall i, j | 0 <= i < j < |tail| ensures tail[i].control != tail[j].control {
          assert tail[i] == policies[i + 1] && tail[j] == policies[j + 1];
        }
      }
      WithoutControlKeepsUnique(tail, control);
      var rest := WithoutControl(tail, control);
      if policies[0].control != control {
        var r := [policies[0]] + rest;
        forall i, j | 0 <= i < j < |r| ensures r[i].control != r[j].control {
          if i == 0 {
            assert r[j] in tail;
            var k :| 0 <= k < |tail| && tail[k] == r[j];
            assert policies[k + 1] == r[j];
          } else {
            assert r[i] == rest[i - 1] && r[j] == rest[j - 1];
          }
        }
      } else {
        assert WithoutControl(policies, control) == [] + rest;
      }
    }
  }

  /** After the upsert, exactly one entry has the policy's control: the last one, which is the policy itself. */
  lemma UpsertSingleEntry(policies: seq<GeneratedPolicy>, policy: GeneratedPolicy)
    ensures var r := Upsert(policies, policy);
      |r| > 0 && r[|r| - 1] == policy && Count(r, policy.control) == 1
  {
    var w := WithoutControl(policies, policy.control);
    CountAppend(w, [policy], policy.control);
    CountWithoutControl(policies, policy.control);
    assert [policy][1..] == [];
  }

  /** The upsert keeps every entry for another control, in the original relative order. */
  lemma UpsertKeepsOthers(policies: seq<GeneratedPolicy>, policy: GeneratedPolicy)
    ensures WithoutControl(Upsert(policies, policy), policy.control) == WithoutControl(policies, policy.control)
    ensures forall p :: p in policies && p.control != policy.control ==> p in Upsert(policies, policy)
  {
    var c := policy.control;
    WithoutControlAppend(WithoutControl(policies, c), [policy], c);
    WithoutControlIdempotent(policies, c);
    assert [policy][1..] == [];
    assert WithoutControl([policy], c) == [];
  }

  /** The upsert preserves the store invariant: no two entries share a control name. */
  lemma UpsertPreservesUnique(policies: seq<GeneratedPolicy>, policy: GeneratedPolicy)
    requires UniqueControls(policies)
    ensures UniqueControls(Upsert(policies, policy))
  {
    var w := WithoutControl(policies, policy.control);
    WithoutControlKeepsUnique(policies, policy.control);
    var r := w + [policy];
    forall i, j | 0 <= i < j < |r| ensures r[i].control != r[j].control {
      if j == |r| - 1 {
        assert r[i] == w[i] && r[i] in w;
      } else {
        assert r[i] == w[i] && r[j] == w[j];
      }
    }
  }

  /** Applying the same policy twice gives the list that applying it once gives. */
  lemma UpsertIdempotent(policies: seq<GeneratedPolicy>, policy: GeneratedPolicy)
    ensures Upsert(Upsert(policies, policy), policy) == Upsert(policies, policy)
  {
    UpsertKeepsOthers(policies, policy);
  }

  /** A second policy for the same control replaces the first: the last write wins. */
  lemma UpsertLastWriteWins(policies: seq<GeneratedPolicy>, first: GeneratedPolicy, second: GeneratedPolicy)
    requires first.control == second.control
    ensures Upsert(Upsert(policies, first), second) == Upsert(policies, second)
  {
    UpsertKeepsOthers(policies, first);
  }

  /** The store: one object whose setters overwrite some of its six fields. */
  class Store {
    var documentText: string
    var fileName: string
    var complianceResult: Option<ComplianceResult>
    var generatedPolicies: seq<GeneratedPolicy>
    var isAnalyzing: bool
    /** One slot, not a set: it names at most one control at any time. */
    var isGenerating: Option<string>

    function Snapshot(): StoreState
      reads this
    {
      StoreState(documentText, fileName, complianceResult, generatedPolicies, isAnalyzing, isGenerating)
    }

    ghost predicate Valid()
      reads this
    {
      UniqueControls(generatedPolicies)
    }

    constructor()
      ensures Snapshot() == INITIAL_STATE && Valid()
    {
      documentText, fileName := "", "";
      complianceResult := None;
      generatedPolicies := [];
      isAnalyzing := false;
      isGenerating := None;
    }

    method SetDocumentText(text: string, name: string)
      requires Valid()
      modifies this
      ensures Valid()
      ensures Snapshot() == old(Snapshot()).(documentText := text, fileName := name)
    {
      documentText, fileName := text, name;
    }

    method SetComplianceResult(result: ComplianceResult)
      requires Valid()
      modifies this
      ensures Valid()
      ensures Snapshot() == old(Snapshot()).(complianceResult := Some(result))
    {
      complianceResult := Some(result);
    }

    method AddGeneratedPolicy(policy: GeneratedPolicy)
      requires Valid()
      modifies this
      ensures Valid()
      ensures Snapshot() == old(Snapshot()).(generatedPolicies := Upsert(old(generatedPolicies), policy))
    {
      UpsertPreservesUnique(generatedPolicies, policy);
      generatedPolicies := WithoutControl(generatedPolicies, policy.control) + [policy];
    }

    method SetIsAnalyzing(value: bool)
      requires Valid()
      modifies this
      ensures Valid()
      ensures Snapshot() == old(Snapshot()).(isAnalyzing := value)
    {
      isAnalyzing := value;
    }

    method SetIsGenerating(control: Option<string>)
      requires Valid()
      modifies this
      ensures Valid()
      ensures Snapshot() == old(Snapshot()).(isGenerating := control)
    {
      isGenerating := control;
    }

    /** Overwrites all six fields with their initial values, whatever they held. */
    method Reset()
      modifies this
      ensures Valid()
      ensures Snapshot() == INITIAL_STATE
    {
      documentText, fileName := "", "";
      complianceResult := None;
      generatedPolicies := [];
      isAnalyzing := false;
      isGenerating := None;
    }
  }
}
