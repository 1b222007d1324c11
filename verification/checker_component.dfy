/**
 * The reusable checker component (website/components/accessibility-checker.tsx):
 * a URL field with a submit button that is disabled while a scan runs, the
 * summary figures of the last result, and its exports. The two-second wait
 * of the simulated scan is split into a `Submit` event and a `ScanDone` event.
 */
module CheckerComponent {
  import opened Optional
  import opened Scan
  import opened Report

  /** The `onCheck(url, violations, warnings)` call the component makes to its parent. */
  datatype Callback = OnCheck(url: string, violations: int, warnings: int)

  /** The component's state: the URL field, the loading flag and the last result. */
  datatype CheckerState = CheckerState(url: string, loading: bool, results: Option<ScanResult>)

  /** The component as first rendered. */
  const Initial: CheckerState := CheckerState("", false, None)

  /** The three figures shown above the issue list. */
  datatype Summary = Summary(totalViolations: int, issuesFound: nat, warnings: int)

  /**
   * "Total Violations", "Issues Found" and "Warnings" for a result. When no
   * count is negative the total is never negative and never below the count
   * of any single category.
   */
  function SummaryOf(r: ScanResult): (m: Summary)
    ensures m.totalViolations == TotalCount(r.violations)
    ensures m.issuesFound == |r.violations|
    ensures m.warnings == r.warnings
    ensures (forall i :: 0 <= i < |r.violations| ==> r.violations[i].count >= 0) ==>
              && m.totalViolations >= 0
              && forall i :: 0 <= i < |r.violations| ==> r.violations[i].count <= m.totalViolations
  {
    TotalCountDominates(r.violations);
    Summary(TotalCount(r.violations), |r.violations|, r.warnings)
  }

  /** What `handleCheck` leaves behind: the result shown, and the parent call made, if any. */
  datatype Outcome = Outcome(results: Option<ScanResult>, callback: Option<Callback>)

  /**
   * `handleCheck` for the URL `url`, with `results` the result shown before:
   * an empty URL changes nothing and calls nobody; otherwise the mock result
   * is shown and the parent is told the URL and the same figures the summary shows.
   */
  function HandleCheck(url: string, results: Option<ScanResult>): (o: Outcome)
    ensures url == "" ==> o.results == results && o.callback == None
    ensures url != "" ==>
              && o.results == Some(MockScan())
              && o.callback.Some?
              && o.callback.value.url == url
              && o.callback.value.violations == SummaryOf(o.results.value).totalViolations == 11
              && o.callback.value.warnings == SummaryOf(o.results.value).warnings == 2
              && SummaryOf(o.results.value).issuesFound == 4
  {
    if url == "" then Outcome(results, None)
    else
      var r := MockScan();
      Outcome(Some(r), Some(OnCheck(url, TotalViolations(r), r.warnings)))
  }

  /** The submit button is enabled only when no scan runs and the URL field is not empty. */
  predicate SubmitEnabled(s: CheckerState) {
    !s.loading && s.url != ""
  }

  /** What the user or the timer can do. */
  datatype Event =
    | Edit(text: string)   // typing in the URL field
    | Submit               // pressing the submit button
    | ScanDone             // the simulated scan's two seconds elapse

  datatype StepResult = StepResult(state: CheckerState, callback: Option<Callback>)

  /**
   * The browser's check of the `type="url"` field, made before the form's
   * submit handler runs: text it refuses never reaches `handleCheck`.
   */
  type UrlCheck = string -> bool

  /** A state the component can be in: a running scan always has a URL. */
  predicate Valid(s: CheckerState) {
    s.loading ==> s.url != ""
  }

  /**
   * One event. The field and the button are disabled while loading, so edits
   * and submits then change nothing; a press starts a scan only when the
   * button is enabled and the browser accepts the field's text as a URL; a
   * finished scan shows the mock result and reports to the parent.
   */
  function Step(s: CheckerState, e: Event, accepts: UrlCheck): (r: StepResult)
    ensures Valid(s) ==> Valid(r.state)
    ensures e.Submit? && !(SubmitEnabled(s) && accepts(s.url)) ==> r == StepResult(s, None)
    ensures e.Submit? && SubmitEnabled(s) && accepts(s.url) ==>
              r == StepResult(s.(loading := true), None)
    ensures e.Edit? && s.loading ==> r == StepResult(s, None)
    ensures e.Edit? && !s.loading ==> r == StepResult(s.(url := e.text), None)
    ensures r.callback.Some? ==>
              && e.ScanDone? && s.loading && !r.state.loading
              && r.callback.value.url == s.url
              && r.callback.value.violations == 11 && r.callback.value.warnings == 2
    ensures e.ScanDone? && s.loading && Valid(s) ==>
              && r.callback.Some?
              && r.state == s.(loading := false, results := Some(MockScan()))
    ensures e.ScanDone? && !s.loading ==> r == StepResult(s, None)
  {
    match e
    case Edit(text) =>
      if s.loading then StepResult(s, None) else StepResult(s.(url := text), None)
    case Submit =>
      if !SubmitEnabled(s) || !accepts(s.url) then StepResult(s, None)
      else StepResult(s.(loading := true), None)
    case ScanDone =>
      if !s.loading then StepResult(s, None)
      else
        var o := HandleCheck(s.url, s.results);
        StepResult(s.(results := o.results, loading := false), o.callback)
  }

  datatype RunResult = RunResult(state: CheckerState, callbacks: seq<Callback>)

  /** A series of events, and the parent calls they make, in order. */
  function Run(s: CheckerState, es: seq<Event>, accepts: UrlCheck): RunResult
    decreases |es|
  {
    if |es| == 0 then RunResult(s, [])
    else
      var before := Run(s, es[..|es| - 1], accepts);
      var step := Step(before.state, es[|es| - 1], accepts);
      RunResult(step.state, before.callbacks + (if step.callback.Some? then [step.callback.value] else []))
  }

  /** The number of times the user pressed the button. */
  function CountSubmits(es: seq<Event>): nat
    decreases |es|
  {
    if |es| == 0 then 0 else CountSubmits(es[..|es| - 1]) + (if es[|es| - 1].Submit? then 1 else 0)
  }

  function InFlight(s: CheckerState): nat {
    if s.loading then 1 else 0
  }

  /**
   * At most one scan is in flight, and the parent hears of each accepted
   * submission once: the calls made plus the scan still running never exceed
   * the presses plus the scan running at the start. Every call names a
   * non-empty URL and the mock figures.
   */
  lemma {:induction false} CallbacksFollowSubmits(s: CheckerState, es: seq<Event>, accepts: UrlCheck)
    requires Valid(s)
    ensures Valid(Run(s, es, accepts).state)
    ensures |Run(s, es, accepts).callbacks| + InFlight(Run(s, es, accepts).state) <= CountSubmits(es) + InFlight(s)
    ensures forall i :: 0 <= i < |Run(s, es, accepts).callbacks| ==>
              && Run(s, es, accepts).callbacks[i].url != ""
              && Run(s, es, accepts).callbacks[i].violations == 11
              && Run(s, es, accepts).callbacks[i].warnings == 2
    decreases |es|
  {
    if |es| > 0 {
      CallbacksFollowSubmits(s, es[..|es| - 1], accepts);
    }
  }

  /** From the first render, the parent is never called more often than the button was pressed. */
  lemma FreshComponentCallbacks(es: seq<Event>, accepts: UrlCheck)
    ensures |Run(Initial, es, accepts).callbacks| <= CountSubmits(es)
    ensures forall i :: 0 <= i < |Run(Initial, es, accepts).callbacks| ==>
              Run(Initial, es, accepts).callbacks[i].url != ""
  {
    CallbacksFollowSubmits(Initial, es, accepts);
  }

  /**
   * While a scan runs, the field and the button are disabled: any series of
   * edits and presses before the scan finishes leaves the state as it was
   * and calls nobody.
   */
  lemma {:induction false} BusyIgnoresInput(s: CheckerState, es: seq<Event>, accepts: UrlCheck)
    requires s.loading
    requires forall i :: 0 <= i < |es| ==> !es[i].ScanDone?
    ensures Run(s, es, accepts).state == s
    ensures Run(s, es, accepts).callbacks == []
    decreases |es|
  {
    if |es| > 0 {
      BusyIgnoresInput(s, es[..|es| - 1], accepts);
    }
  }

  /**
   * Pressing the button twice with no scan finishing in between starts one
   * scan and calls nobody: the second press is silently ignored.
   */
  lemma SecondSubmitIgnored(s: CheckerState, accepts: UrlCheck)
    requires SubmitEnabled(s) && accepts(s.url)
    ensures Run(s, [Submit, Submit], accepts).state == s.(loading := true)
    ensures Run(s, [Submit, Submit], accepts).callbacks == []
  {
    assert [Submit, Submit][..1] == [Submit];
    assert [Submit][..0] == [];
  }

  /** What an export button does: hand over a file, or show a message. */
  datatype ExportAction = Downloaded(file: Download) | Alerted(message: string)

  const PdfUpsell: string := "PDF export would be available in Pro plan. HTML export is ready!"

  /** `exportToHTML`: the report for the URL in the field and the shown result. */
  function ExportToHtml(s: CheckerState, stampMillis: nat, generatedAt: string): (a: ExportAction)
    ensures a.Downloaded?
    ensures StampOf(a.file.fileName) == Some(stampMillis)
    ensures a.file.body == Render(SourceLayout, s.url, generatedAt, s.results)
  {
    Downloaded(ExportHtml(SourceLayout, s.url, stampMillis, generatedAt, s.results))
  }

  /** `exportToPDF`: never produces a document, whatever the state; it only shows the Pro-plan message. */
  function ExportToPdf(s: CheckerState): (a: ExportAction)
    ensures !a.Downloaded?
    ensures a.message == PdfUpsell
  {
    Alerted(PdfUpsell)
  }
}
