/**
 * The analysis panel: sends the document text to the analysis function,
 * stores the verdict on success, and keeps the analyze button disabled
 * while a call is in flight or after one has succeeded.
 */
module AnalysisPanel {
  import opened ComplianceStore
  import opened FunctionsClient
  import opened Wrappers
  import AnalyzeCompliance

  /** The controls listed on the panel. */
  const SOC2_CONTROLS: seq<string> := [
    "Access Control",
    "Data Encryption",
    "Incident Response",
    "Logging and Monitoring",
    "Employee Security Training"
  ]

  /** The panel lists the very controls the analysis function asks about, in the same order. */
  lemma ControlListsAgree()
    ensures SOC2_CONTROLS == AnalyzeCompliance.SOC2_CONTROLS
    ensures |SOC2_CONTROLS| == 5
  {
  }

  class Panel {
    var analysisStarted: bool
    const store: Store

    constructor(store: Store)
      ensures !analysisStarted && this.store == store
    {
      analysisStarted := false;
      this.store := store;
    }

    /** The analyze button is disabled when `isAnalyzing || analysisStarted`. */
    predicate AnalyzeEnabled()
      reads this, store
    {
      !(store.isAnalyzing || analysisStarted)
    }

    /** The back button is disabled while analyzing. */
    predicate BackEnabled()
      reads store
    {
      !store.isAnalyzing
    }

    /** handleAnalyze up to the awaited call: both flags are raised before the request goes out. */
    method BeginAnalyze() returns (documentText: string)
      requires store.Valid() && AnalyzeEnabled()
      modifies this, store
      ensures store.Valid()
      ensures store.Snapshot() == old(store.Snapshot()).(isAnalyzing := true)
      ensures analysisStarted
      ensures documentText == store.documentText
      ensures !AnalyzeEnabled() && !BackEnabled()
    {
      store.SetIsAnalyzing(true);
      analysisStarted := true;
      documentText := store.documentText;
    }

    /**
     * handleAnalyze after the call settles. On success the verdict is stored
     * and `completed` reports that onComplete was called; on failure nothing
     * is stored and `analysisStarted` drops, which re-enables retry. The busy
     * flag is cleared on every path.
     */
    method FinishAnalyze(reply: Invocation<ComplianceResult>) returns (completed: bool)
      requires store.Valid()
      modifies this, store
      ensures store.Valid()
      ensures completed <==> Succeeded(reply)
      ensures completed ==>
        store.Snapshot() == old(store.Snapshot()).(complianceResult := Some(reply.data), isAnalyzing := false)
      ensures completed ==> analysisStarted == old(analysisStarted)
      ensures !completed ==> store.Snapshot() == old(store.Snapshot()).(isAnalyzing := false)
      ensures !completed ==> !analysisStarted && AnalyzeEnabled()
      ensures BackEnabled()
    {
      completed := Succeeded(reply);
      if completed {
        store.SetComplianceResult(reply.data);
      } else {
        analysisStarted := false;
      }
      store.SetIsAnalyzing(false);
    }

    /**
     * The whole of handleAnalyze with the call's outcome given. It is reached
     * only through the enabled analyze button; after a success the button
     * stays disabled, so no second analysis can start on this panel.
     */
    method HandleAnalyze(reply: Invocation<ComplianceResult>) returns (sent: string, completed: bool)
      requires store.Valid() && AnalyzeEnabled()
      modifies this, store
      ensures store.Valid()
      ensures sent == old(store.documentText)
      ensures completed <==> Succeeded(reply)
      ensures completed ==>
        store.Snapshot() == old(store.Snapshot()).(complianceResult := Some(reply.data), isAnalyzing := false)
      ensures completed ==> !AnalyzeEnabled()
      ensures !completed ==> store.Snapshot() == old(store.Snapshot()).(isAnalyzing := false) && AnalyzeEnabled()
      ensures !store.isAnalyzing
    {
      sent := BeginAnalyze();
      completed := FinishAnalyze(reply);
    }
  }
}
