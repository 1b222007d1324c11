/**
 * The home page's checker (`HomePage` in website/app/page.tsx): a URL field,
 * a simulated scan, a newest-first history of checks and an HTML export.
 * The clock is a parameter: `nowMillis` stands for `Date.now()` and `date`
 * for `new Date().toLocaleString()`.
 */
module WebPage {
  import opened Optional
  import opened Decimal
  import opened Scan
  import opened Report

  /** One history row (`CheckResult`): the totals of one check, not the full result. */
  datatype Check = Check(id: string, url: string, date: string, violations: int, warnings: int)

  /** The page's state that the checker uses. */
  datatype PageState = PageState(
    checks: seq<Check>,
    currentUrl: string,
    loading: bool,
    results: Option<ScanResult>)

  /** The page as first rendered: no history, an empty URL, no result. */
  const Initial: PageState := PageState([], "", false, None)

  /** The history row for a check of `url` with result `r`, whose id is the time in milliseconds. */
  function NewCheck(url: string, nowMillis: nat, date: string, r: ScanResult): (c: Check)
    ensures c.url == url && c.date == date
    ensures c.violations == TotalViolations(r)
    ensures c.warnings == r.warnings
    ensures IsCanonical(c.id) && ParseNat(c.id) == nowMillis
  {
    ParseNatToString(nowMillis);
    Check(NatToString(nowMillis), url, date, TotalViolations(r), r.warnings)
  }

  /**
   * The history update of `handleCheck` for a scan that returned `result`:
   * the result is shown and its record is put in front of the history.
   */
  function Record(s: PageState, result: ScanResult, nowMillis: nat, date: string): (r: PageState)
    requires s.currentUrl != ""
    ensures |r.checks| == |s.checks| + 1
    ensures r.checks[1..] == s.checks
    ensures r.checks[0].url == s.currentUrl && r.checks[0].date == date
    ensures IsCanonical(r.checks[0].id) && ParseNat(r.checks[0].id) == nowMillis
    ensures r.results == Some(result)
    ensures r.checks[0].violations == TotalViolations(result)
    ensures r.checks[0].warnings == result.warnings
    ensures r.currentUrl == s.currentUrl && !r.loading
  {
    s.(results := Some(result), checks := [NewCheck(s.currentUrl, nowMillis, date, result)] + s.checks, loading := false)
  }

  /**
   * `handleCheck`: with an empty URL nothing happens; otherwise the mock
   * result becomes the page's result and its record is put in front of the
   * history.
   */
  function HandleCheck(s: PageState, nowMillis: nat, date: string): (r: PageState)
    ensures s.currentUrl == "" ==> r == s
    ensures s.currentUrl != "" ==>
              && |r.checks| == |s.checks| + 1
              && r.checks[1..] == s.checks
              && r.checks[0].url == s.currentUrl
              && r.checks[0].date == date
              && IsCanonical(r.checks[0].id) && ParseNat(r.checks[0].id) == nowMillis
              && r.results == Some(MockScan())
              && r.checks[0].violations == TotalViolations(r.results.value) == 11
              && r.checks[0].warnings == r.results.value.warnings == 2
              && r.currentUrl == s.currentUrl
              && !r.loading
  {
    if s.currentUrl == "" then s else Record(s, MockScan(), nowMillis, date)
  }

  /** `exportToHTML`: the report for the URL in the field and the page's result. */
  function ExportToHtml(s: PageState, stampMillis: nat, generatedAt: string): (d: Download)
    ensures StampOf(d.fileName) == Some(stampMillis)
    ensures d.body == Render(SourceLayout, s.currentUrl, generatedAt, s.results)
  {
    ExportHtml(SourceLayout, s.currentUrl, stampMillis, generatedAt, s.results)
  }

  /** A user typing `url` and submitting it at time `nowMillis`, shown as `date`. */
  datatype Submission = Submission(url: string, nowMillis: nat, date: string)

  /**
   * Typing the URL into the field, then submitting the form, with the scan
   * returning `result` (`MockScan()` on this page).
   */
  function Submit(s: PageState, result: ScanResult, sub: Submission): PageState {
    var typed := s.(currentUrl := sub.url);
    if sub.url == "" then typed else Record(typed, result, sub.nowMillis, sub.date)
  }

  /** The page after a series of submissions, oldest first. */
  function SubmitAll(s: PageState, result: ScanResult, subs: seq<Submission>): PageState
    decreases |subs|
  {
    if |subs| == 0 then s else Submit(SubmitAll(s, result, subs[..|subs| - 1]), result, subs[|subs| - 1])
  }

  /** The history rows the submissions with a non-empty URL produce, in submission order. */
  function Recorded(result: ScanResult, subs: seq<Submission>): seq<Check>
    decreases |subs|
  {
    if |subs| == 0 then []
    else
      var last := subs[|subs| - 1];
      Recorded(result, subs[..|subs| - 1])
      + (if last.url == "" then [] else [NewCheck(last.url, last.nowMillis, last.date, result)])
  }

  /** A submission is `handleCheck` run on the typed URL. */
  lemma SubmitIsHandleCheck(s: PageState, sub: Submission)
    ensures Submit(s, MockScan(), sub) == HandleCheck(s.(currentUrl := sub.url), sub.nowMillis, sub.date)
  {
  }

  function Reverse<T>(xs: seq<T>): seq<T>
    decreases |xs|
  {
    if |xs| == 0 then [] else [xs[|xs| - 1]] + Reverse(xs[..|xs| - 1])
  }

  lemma {:induction false} ReverseLength<T>(xs: seq<T>)
    ensures |Reverse(xs)| == |xs|
    ensures forall i :: 0 <= i < |xs| ==> Reverse(xs)[i] == xs[|xs| - 1 - i]
    decreases |xs|
  {
    if |xs| > 0 {
      var p := xs[..|xs| - 1];
      ReverseLength(p);
      forall i | 0 <= i < |xs|
        ensures Reverse(xs)[i] == xs[|xs| - 1 - i]
      {
        if i > 0 {
          assert Reverse(xs)[i] == Reverse(p)[i - 1];
        }
      }
    }
  }

  /**
   * The history is newest first: after any series of submissions it is the
   * new rows in reverse submission order, in front of the rows it had.
   */
  lemma {:induction false} HistoryNewestFirst(s: PageState, result: ScanResult, subs: seq<Submission>)
    ensures SubmitAll(s, result, subs).checks == Reverse(Recorded(result, subs)) + s.checks
    decreases |subs|
  {
    if |subs| > 0 {
      var prefix := subs[..|subs| - 1];
      var last := subs[|subs| - 1];
      HistoryNewestFirst(s, result, prefix);
      var before := SubmitAll(s, result, prefix);
      var recs := Recorded(result, prefix);
      if last.url != "" {
        var c := NewCheck(last.url, last.nowMillis, last.date, result);
        assert Recorded(result, subs) == recs + [c];
        assert (recs + [c])[..|recs + [c]| - 1] == recs;
        assert Reverse(recs + [c]) == [c] + Reverse(recs);
        assert SubmitAll(s, result, subs).checks == [c] + before.checks;
      } else {
        assert Recorded(result, subs) == recs + [];
        assert recs + [] == recs;
        assert SubmitAll(s, result, subs).checks == before.checks;
      }
    }
  }

  /**
   * The first history row is the record of the latest submission with a
   * non-empty URL, however many empty submissions followed it; when the
   * latest submission itself has a URL, the first row is its record. The
   * rows already there keep their order behind the new ones.
   */
  lemma LatestCheckFirst(s: PageState, result: ScanResult, subs: seq<Submission>)
    requires Recorded(result, subs) != []
    ensures |SubmitAll(s, result, subs).checks| == |Recorded(result, subs)| + |s.checks|
    ensures SubmitAll(s, result, subs).checks[0] == Recorded(result, subs)[|Recorded(result, subs)| - 1]
    ensures |subs| > 0 && subs[|subs| - 1].url != "" ==>
              var last := subs[|subs| - 1];
              SubmitAll(s, result, subs).checks[0] == NewCheck(last.url, last.nowMillis, last.date, result)
    ensures SubmitAll(s, result, subs).checks[|Recorded(result, subs)|..] == s.checks
  {
    HistoryNewestFirst(s, result, subs);
    ReverseLength(Recorded(result, subs));
  }

  /** From the first render, the history is exactly the submitted checks, newest first. */
  lemma FreshPageHistory(result: ScanResult, subs: seq<Submission>)
    ensures SubmitAll(Initial, result, subs).checks == Reverse(Recorded(result, subs))
  {
    HistoryNewestFirst(Initial, result, subs);
    assert Reverse(Recorded(result, subs)) + [] == Reverse(Recorded(result, subs));
  }
}
