/**
 * The desktop front end (Desktop/accessibility-checker-main/app.py): the
 * checks a submitted URL must pass, in order, and the report task that
 * picks the formats, runs the generator and appends to the history.
 *
 * `urlparse`, the reachability probe (`requests.head`), the report
 * generator and the clock are parameters.
 */
module DesktopApp {
  import opened Optional

  // ---------------------------------------------------------------- strip

  /** Python's `str.isspace` for one character, by code point. */
  predicate IsSpace(c: char) {
    var n := c as int;
    || n == 0x20 || 0x09 <= n <= 0x0d || 0x1c <= n <= 0x1f
    || n == 0x85 || n == 0xa0 || n == 0x1680 || 0x2000 <= n <= 0x200a
    || n == 0x2028 || n == 0x2029 || n == 0x202f || n == 0x205f || n == 0x3000
  }

  /** How many whitespace characters `s` starts with. */
  function LeadingSpaces(s: string): (n: nat)
    ensures n <= |s|
    ensures forall i :: 0 <= i < n ==> IsSpace(s[i])
    ensures n < |s| ==> !IsSpace(s[n])
    decreases |s|
  {
    if |s| > 0 && IsSpace(s[0]) then 1 + LeadingSpaces(s[1..]) else 0
  }

  /** How many whitespace characters `s` ends with. */
  function TrailingSpaces(s: string): (n: nat)
    ensures n <= |s|
    ensures forall i :: |s| - n <= i < |s| ==> IsSpace(s[i])
    ensures n < |s| ==> !IsSpace(s[|s| - n - 1])
    decreases |s|
  {
    if |s| > 0 && IsSpace(s[|s| - 1]) then 1 + TrailingSpaces(s[..|s| - 1]) else 0
  }

  /**
   * `str.strip()`: `s` without its leading and trailing whitespace. The
   * result is the run of `s` that starts at its first non-space character
   * and neither begins nor ends with whitespace.
   */
  function Strip(s: string): (r: string)
    ensures LeadingSpaces(s) + |r| <= |s|
    ensures r == s[LeadingSpaces(s)..LeadingSpaces(s) + |r|]
    ensures forall i :: 0 <= i < LeadingSpaces(s) ==> IsSpace(s[i])
    ensures forall i :: LeadingSpaces(s) + |r| <= i < |s| ==> IsSpace(s[i])
    ensures |r| > 0 ==> !IsSpace(r[0]) && !IsSpace(r[|r| - 1])
  {
    var a := LeadingSpaces(s);
    var rest := s[a..];
    var b := TrailingSpaces(rest);
    assert forall i :: a <= i < |s| ==> s[i] == rest[i - a];
    rest[..|rest| - b]
  }

  /** Stripping twice strips nothing more. */
  lemma StripIdempotent(s: string)
    ensures Strip(Strip(s)) == Strip(s)
  {
    var r := Strip(s);
    if |r| > 0 {
      assert LeadingSpaces(r) == 0;
      assert TrailingSpaces(r[0..]) == 0 by {
        assert r[0..] == r;
      }
      assert r[0..][..|r|] == r;
    }
  }

  /** A text strips to nothing exactly when it is all whitespace. */
  lemma StripEmptyIffBlank(s: string)
    ensures Strip(s) == "" <==> forall i :: 0 <= i < |s| ==> IsSpace(s[i])
  {
    if forall i :: 0 <= i < |s| ==> IsSpace(s[i]) {
      assert LeadingSpaces(s) == |s|;
    }
  }

  // ----------------------------------------------------- URL validation

  /** The two parts of `urlparse`'s result that the check reads. */
  datatype ParsedUrl = ParsedUrl(scheme: string, netloc: string)

  /** A URL parser: None when it raises. */
  type Parser = string -> Option<ParsedUrl>

  /** `is_valid_url`: the scheme is http or https and the network location is not empty. */
  function IsValidUrl(url: string, parse: Parser): (ok: bool)
    ensures ok <==> (parse(url).Some?
                     && (parse(url).value.scheme == "http" || parse(url).value.scheme == "https")
                     && parse(url).value.netloc != "")
  {
    match parse(url)
    case None => false
    case Some(p) => (p.scheme == "http" || p.scheme == "https") && |p.netloc| > 0
  }

  /** Why a submission was turned away before any work started. */
  datatype Rejection = EmptyUrl | InvalidFormat | Unreachable

  /** The message shown for each rejection. */
  function RejectionMessage(why: Rejection): string {
    match why
    case EmptyUrl => "Please enter a URL!"
    case InvalidFormat => "Invalid URL format! Please include http:// or https://"
    case Unreachable => "This URL could not be reached!"
  }

  datatype Validation = Rejected(why: Rejection) | Accepted(url: string)

  /**
   * The checks of `run_check`, first failure wins: empty after stripping,
   * then the URL shape, then reachability. Reachability is only probed for
   * a well-formed URL.
   */
  function Validate(raw: string, parse: Parser, reachable: string -> bool): (v: Validation)
    ensures v == Rejected(EmptyUrl) <==> Strip(raw) == ""
    ensures v == Rejected(InvalidFormat) <==> Strip(raw) != "" && !IsValidUrl(Strip(raw), parse)
    ensures v == Rejected(Unreachable) <==>
              Strip(raw) != "" && IsValidUrl(Strip(raw), parse) && !reachable(Strip(raw))
    ensures v.Accepted? <==>
              Strip(raw) != "" && IsValidUrl(Strip(raw), parse) && reachable(Strip(raw))
    ensures v.Accepted? ==> v.url == Strip(raw)
  {
    var url := Strip(raw);
    if url == "" then Rejected(EmptyUrl)
    else if !IsValidUrl(url, parse) then Rejected(InvalidFormat)
    else if !reachable(url) then Rejected(Unreachable)
    else Accepted(url)
  }

  // ------------------------------------------------------- report task

  /**
   * The formats picked by the two checkboxes, HTML first; None when neither
   * is ticked (the task raises).
   */
  function SelectFormats(html: bool, pdf: bool): (formats: Option<seq<string>>)
    ensures formats.None? <==> !html && !pdf
    ensures formats.Some? ==>
              && ("html" in formats.value <==> html)
              && ("pdf" in formats.value <==> pdf)
              && |formats.value| == (if html then 1 else 0) + (if pdf then 1 else 0)
              && (html ==> formats.value[0] == "html")
              && (pdf ==> formats.value[|formats.value| - 1] == "pdf")
  {
    if !html && !pdf then None
    else Some((if html then ["html"] else []) + (if pdf then ["pdf"] else []))
  }

  /** The message of the exception the task raises when no format is ticked. */
  const NoFormatError: string := "Please select at least one report type (HTML or PDF)."
  const SuccessMessage: string := "Report(s) generated successfully!"

  /**
   * The report generator `run_accessibility_check(url, formats)`: None when
   * it returns, Some(text of the exception) when it raises.
   */
  type Generator = (string, seq<string>) -> Option<string>

  datatype Icon = FileOpen | HourglassTop

  datatype Button = Button(text: string, icon: Icon, disabled: bool)

  /** The button at rest: enabled, "Generate Report". */
  const ReadyButton: Button := Button("Generate Report", FileOpen, false)

  /** The button while the task runs. */
  const BusyButton: Button := Button("Generating...", HourglassTop, true)

  /** One history row; the score is a placeholder. */
  datatype HistoryEntry = HistoryEntry(url: string, date: string, score: string)

  /** What the window shows: the button, the history table and the snack-bar messages so far. */
  datatype AppState = AppState(button: Button, history: seq<HistoryEntry>, messages: seq<string>)

  /** The window as first shown. */
  const Initial: AppState := AppState(ReadyButton, [], [])

  /**
   * The body of `task`: pick the formats, run the generator, append the
   * history row; the `finally` block restores the button and shows one
   * message, whether the body succeeded or raised.
   */
  function Task(s: AppState, url: string, html: bool, pdf: bool, generate: Generator, now: string): (r: AppState)
    ensures r.button == ReadyButton
    ensures |r.messages| == |s.messages| + 1 && r.messages[..|s.messages|] == s.messages
    ensures !html && !pdf ==> r.history == s.history && r.messages[|s.messages|] == "Error: " + NoFormatError
    ensures (html || pdf) ==>
              var formats := SelectFormats(html, pdf).value;
              match generate(url, formats)
              case Some(e) => r.history == s.history && r.messages[|s.messages|] == "Error: " + e
              case None =>
                r.history == s.history + [HistoryEntry(url, now, "Pending")]
                && r.messages[|s.messages|] == SuccessMessage
  {
    var (history, message) :=
      match SelectFormats(html, pdf)
      case None => (s.history, "Error: " + NoFormatError)
      case Some(formats) =>
        match generate(url, formats)
        case Some(e) => (s.history, "Error: " + e)
        case None => (s.history + [HistoryEntry(url, now, "Pending")], SuccessMessage);
    AppState(ReadyButton, history, s.messages + [message])
  }

  /**
   * `run_check`: a rejected URL only shows its message, leaving the button
   * and the history alone; an accepted one turns the button busy and runs
   * the task, which ends with the button ready again.
   */
  function RunCheck(s: AppState, raw: string, parse: Parser, reachable: string -> bool,
                    html: bool, pdf: bool, generate: Generator, now: string): (r: AppState)
    ensures |r.messages| == |s.messages| + 1 && r.messages[..|s.messages|] == s.messages
    ensures Validate(raw, parse, reachable).Rejected? ==>
              && r.button == s.button
              && r.history == s.history
              && r.messages[|s.messages|] == RejectionMessage(Validate(raw, parse, reachable).why)
    ensures Validate(raw, parse, reachable).Accepted? ==> r.button == ReadyButton
    ensures r.history == s.history || r.history == s.history + [HistoryEntry(Strip(raw), now, "Pending")]
    ensures |r.history| == |s.history| + 1 <==>
              && Validate(raw, parse, reachable).Accepted?
              && (html || pdf)
              && generate(Strip(raw), SelectFormats(html, pdf).value).None?
  {
    match Validate(raw, parse, reachable)
    case Rejected(why) => s.(messages := s.messages + [RejectionMessage(why)])
    case Accepted(url) => Task(s.(button := BusyButton), url, html, pdf, generate, now)
  }

  /** One press of the button: what was typed, which boxes were ticked, and when. */
  datatype Attempt = Attempt(raw: string, html: bool, pdf: bool, now: string)

  /** Whether an attempt ends with a history row. */
  predicate Succeeds(a: Attempt, parse: Parser, reachable: string -> bool, generate: Generator) {
    && Validate(a.raw, parse, reachable).Accepted?
    && (a.html || a.pdf)
    && generate(Strip(a.raw), SelectFormats(a.html, a.pdf).value).None?
  }

  /**
   * The window after a series of attempts, in the order they were made.
   * The history is oldest first: it is the old rows followed by one
   * "Pending" row per successful attempt, in attempt order; failed attempts
   * leave no row. A window that starts with the button ready ends with it
   * ready, and every attempt shows exactly one message.
   */
  function RunAll(s: AppState, attempts: seq<Attempt>, parse: Parser, reachable: string -> bool,
                  generate: Generator): (r: AppState)
    ensures r.history == s.history + Appended(attempts, parse, reachable, generate)
    ensures s.button == ReadyButton ==> r.button == ReadyButton
    ensures |r.messages| == |s.messages| + |attempts|
    decreases |attempts|
  {
    if |attempts| == 0 then s
    else
      var before := RunAll(s, attempts[..|attempts| - 1], parse, reachable, generate);
      var a := attempts[|attempts| - 1];
      RunCheck(before, a.raw, parse, reachable, a.html, a.pdf, generate, a.now)
  }

  /** The rows the successful attempts add, in attempt order. */
  function Appended(attempts: seq<Attempt>, parse: Parser, reachable: string -> bool,
                    generate: Generator): seq<HistoryEntry>
    decreases |attempts|
  {
    if |attempts| == 0 then []
    else
      var a := attempts[|attempts| - 1];
      Appended(attempts[..|attempts| - 1], parse, reachable, generate)
      + (if Succeeds(a, parse, reachable, generate) then [HistoryEntry(Strip(a.raw), a.now, "Pending")] else [])
  }

  /**
   * From the first window, the history is exactly one "Pending" row per
   * successful attempt, in attempt order, and the button is ready.
   */
  lemma FreshWindowHistory(attempts: seq<Attempt>, parse: Parser, reachable: string -> bool,
                           generate: Generator)
    ensures RunAll(Initial, attempts, parse, reachable, generate).history
            == Appended(attempts, parse, reachable, generate)
    ensures RunAll(Initial, attempts, parse, reachable, generate).button == ReadyButton
  {
    assert [] + Appended(attempts, parse, reachable, generate) == Appended(attempts, parse, reachable, generate);
  }
}
