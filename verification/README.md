# Accessibility checker: check lifecycle and reporting, in Dafny

This project models the logic of the accessibility-checker repository: its check lifecycle and its reporting. The logic appears in four places:

- **Home page** (`website/app/page.tsx`). `handleCheck` ignores an empty URL. Otherwise it takes the simulated scan result and adds up the violation counts. It puts a `{id, url, date, violations, warnings}` record in front of the history, so the history is newest first. `exportToHTML` renders a standalone HTML report and names the download after the current time.
- **Checker component** (`website/components/accessibility-checker.tsx`). It has the same handler, but reports to its parent through `onCheck(url, total, warnings)` instead of keeping a history. It shows three summary figures and has the same HTML export. Its PDF export only shows a Pro-plan message. The URL field and the submit button are disabled while a scan runs.
- **Severity ranking** (`checker.py`, lines 49–62). Each axe-core violation gets a default impact `unknown` and a node count. Its severity score is the impact rank (critical 5 … unknown 1, anything else 1) times the node count. The list is then sorted by score, highest first, with Python's stable sort.
- **Desktop app** (`Desktop/accessibility-checker-main/app.py`). The URL is stripped of whitespace. It then faces three checks in a fixed order: empty, malformed (scheme http/https and a non-empty network location) and unreachable. The first failure only shows a message. An accepted URL starts a task that builds the format list from two checkboxes (`"html"` before `"pdf"`, at least one required) and runs the generator. On success the task appends a `"Pending"` row to the history, so the history is oldest first. The task always restores the button.

Modules, one per component:

| file | module | models |
|---|---|---|
| optional.dfy | `Optional` | missing keys, `null` state, a parser that raised |
| decimal.dfy | `Decimal` | JavaScript's decimal rendering of numbers (`Date.now().toString()`, `${v.count}`) and its inverse |
| scan.dfy | `Scan` | the scan result shape, the `reduce` total, the fixed mock result |
| report.dfy | `Report` | the HTML report text, the download file name, the export shared by both web components |
| web_page.dfy | `WebPage` | the home page's handler, history and export |
| checker_component.dfy | `CheckerComponent` | the component's handler, submit guard as an event-driven state machine, exports |
| severity.dfy | `Severity` | impact defaulting, node counting, score, stable descending sort |
| desktop_app.dfy | `DesktopApp` | `str.strip`, `is_valid_url`, the validation chain, the report task, the history |

Clocks, the network, the URL parser and the report generator are parameters:

- `nowMillis` and `stampMillis` stand for `Date.now()`.
- `date`, `generatedAt` and `now` stand for the formatted local time.
- `parse` stands for `urlparse`, with None meaning it raised.
- `reachable` stands for `is_reachable_url`.
- `generate` stands for `run_accessibility_check`: None when it returns, otherwise the text of the exception it raised.

The report's fixed text is held in a `Layout` record. The report lemmas hold for every layout. `Report.SourceLayout` is the literal template the components emit, character for character.

The model follows the code as written:

- Violation counts are never validated, so the model allows any integer count.
- History ids are `Date.now()` strings and are not checked for uniqueness.
- History has no remove or clear operation, because the delete button has no handler.
- A second submit while a scan runs is not rejected with an error. The disabled field and button just make it do nothing.
- PDF export produces no document and no error. It only shows a message.
- The web handlers have no failure path, because the scan is a fixed mock.
- In `page.tsx`, `handleCheck` and `exportToHTML` are defined but not attached to any form or button in `page.tsx`. They are modelled as if they were invoked.
- `page.tsx` never calls `setCurrentUrl` (line 35 is its only mention), so as written `currentUrl` stays `''`: `handleCheck` always returns at line 52 and `exportToHTML` prints an empty URL. `WebPage.HandleCheck` and `WebPage.ExportToHtml` take the field's value as state. `WebPage.Submission.url` supplies the URL as if the page had an input for it.
- `exportToHTML` reads the URL field as it is at export time. That can be a different URL from the one the shown result was scanned for, and the model keeps this.
- With no result, `${results?.violations...}` prints `undefined` into the report. The model keeps that too (`Report.Section`). Only the home page can reach this case: the component draws its export buttons only inside `{results && (…)}` (accessibility-checker.tsx:124, 168, 172), so its exports always see a result.

## Model

| member | source | states |
|---|---|---|
| `Scan.ReduceTotal` | website/app/page.tsx:84-87 | the loop-accumulated `reduce` total equals the sum of the counts of all violations |
| `Scan.MockScan` | website/app/page.tsx:57-81 | the simulated result has 4 categories, counts summing to 11, each at least 1, and 2 warnings |
| `Scan.TotalCountAppend` | website/components/accessibility-checker.tsx:131 | the total of a concatenation is the sum of the totals, so the figure does not depend on how the list is split |
| `Decimal.ParseNatToString` | website/app/page.tsx:89 | the decimal text of a millisecond timestamp parses back to that timestamp |
| `Decimal.NatToStringParse` | website/app/page.tsx:134 | every canonical numeral (digits only, no leading zero) is the rendering of its value, so rendering and parsing are inverse |
| `Decimal.NatToStringInjective` | website/app/page.tsx:89 | distinct timestamps give distinct id texts |
| `Report.BlockShowsViolation` | website/app/page.tsx:119-124 | a violation's block contains its type, then its count, then its fix, at fixed offsets |
| `Report.BlocksAppend` | website/app/page.tsx:117-126 | joining the blocks of two lists back to back gives the blocks of the concatenated list |
| `Report.BlockAt` | website/app/page.tsx:117-126 | in the joined blocks, violation i's block begins where the blocks of violations 0..i-1 end and ends where those of 0..i end: one block per violation, in result order |
| `Report.RenderNamesUrl` | website/app/page.tsx:104-114 | the report contains the URL in its `<title>` element and, later, in the body's URL paragraph |
| `Report.RenderListsViolations` | website/app/page.tsx:113-128 | the report contains violation i's block right after the fixed head and the blocks of the violations before it |
| `Report.RenderListsAllViolations` | website/components/accessibility-checker.tsx:64-75 | every violation of the result has its block in the report, at its place in result order |
| `Report.RenderWithoutResult` | website/app/page.tsx:117 | with no result the violations section is the text `undefined` and nothing else follows before the closing tags |
| `Report.StampOfFileName` | website/app/page.tsx:134 | the download name `accessibility-report-<ms>.html` carries back the timestamp it was built from |
| `Report.FileNameOfStamp` | website/components/accessibility-checker.tsx:82 | any name that carries a timestamp is exactly the download name of that timestamp |
| `Report.RenderDatedAndClosed` | website/app/page.tsx:115-128 | the report carries the export date right after the URL paragraph, its length is the frame plus the section plus the closing tags, and it ends with the closing tags |
| `Report.EnclosedBlocksList` | website/app/page.tsx:116-127 | whatever text surrounds the joined blocks, block i sits after the text before them and the blocks of the violations before it |
| `Report.ExportHtml` | website/app/page.tsx:99-135 | the export is a `text/html` file named after the export time. It contains the URL twice and the export date. With a result it holds every violation block in order, and its length is exactly the frame plus those blocks plus the closing tags, so there is one block per violation and nothing else. Without a result the section is `undefined` |
| `WebPage.NewCheck` | website/app/page.tsx:88-94 | the history row stores the URL as submitted, the date, the sum of the counts, the warnings, and an id that parses back to the timestamp |
| `WebPage.Record` | website/app/page.tsx:83-96 | a check adds exactly one row, at index 0, keeps the old rows in order behind it, shows the result and clears loading |
| `WebPage.HandleCheck` | website/app/page.tsx:50-97 | an empty URL leaves the page unchanged; otherwise the history grows by one row in front, with the URL, total 11 and 2 warnings |
| `WebPage.ExportToHtml` | website/app/page.tsx:99-135 | the page's export is the report of the URL field and the shown result, named after the export time |
| `WebPage.SubmitIsHandleCheck` | website/app/page.tsx:50-97 | one submission with the mock analyzer is `handleCheck` on the typed URL |
| `WebPage.ReverseLength` | website/app/page.tsx:95 | reversing keeps the length and puts element i at position n-1-i |
| `WebPage.HistoryNewestFirst` | website/app/page.tsx:95 | after any series of submissions the history is the new rows in reverse submission order, followed by the old rows |
| `WebPage.FreshPageHistory` | website/app/page.tsx:34-95 | from the first render, the history is exactly the recorded checks, newest first |
| `WebPage.LatestCheckFirst` | website/app/page.tsx:95 | whenever some submission had a non-empty URL, the first history row is the record of the latest such submission, even after later empty submissions (and it is the latest submission's record when that one has a URL); the old rows follow unchanged |
| `CheckerComponent.HandleCheck` | website/components/accessibility-checker.tsx:23-45 | an empty URL calls nobody and keeps the shown result; otherwise `onCheck` is called once, with the URL and the same total (11) and warnings (2) as the summary shows, and 4 issues |
| `CheckerComponent.SummaryOf` | website/components/accessibility-checker.tsx:127-141 | "Total Violations" is the sum of the counts, "Issues Found" the number of categories, "Warnings" the warning count; with no negative count the total is non-negative and at least every single count |
| `CheckerComponent.Step` | website/components/accessibility-checker.tsx:23-108 | edits and presses while loading change nothing; an edit while idle sets the field; a press starts a scan exactly when the button is enabled and the browser accepts the field as a URL, and otherwise changes nothing; a finished scan shows the mock result, clears loading and calls the parent once with the URL; a stray finish changes nothing |
| `CheckerComponent.CallbacksFollowSubmits` | website/components/accessibility-checker.tsx:106-108 | over any event series at most one scan is in flight; the parent calls plus the scan still running never exceed the button presses plus the scan running at the start, so with no scan running at the start calls never outnumber presses; every call names a non-empty URL with the mock figures |
| `CheckerComponent.BusyIgnoresInput` | website/components/accessibility-checker.tsx:105-108 | while a scan runs, any series of edits and presses before it finishes leaves the state unchanged and calls nobody |
| `CheckerComponent.SecondSubmitIgnored` | website/components/accessibility-checker.tsx:108 | two presses with no scan finishing between them start one scan and make no call: the second press is silently ignored |
| `CheckerComponent.FreshComponentCallbacks` | website/components/accessibility-checker.tsx:43-108 | from the first render, the parent is called at most once per press, always with a non-empty URL |
| `CheckerComponent.ExportToHtml` | website/components/accessibility-checker.tsx:47-84 | the HTML export always produces a file, named after the export time, holding the report of the field's URL and the shown result |
| `CheckerComponent.ExportToPdf` | website/components/accessibility-checker.tsx:86-88 | the PDF export never produces a document, whatever the state; it shows only the Pro-plan message |
| `Severity.ImpactRank` | checker.py:53-60 | the rank is 5/4/3/2 for critical/serious/moderate/minor, and 1 for any other impact, so always in 1..5 |
| `Severity.Annotate` | checker.py:50-60 | a missing impact becomes `unknown`; node count is the length of `nodes`, 0 when missing; the score is rank × nodes, between nodes and 5 × nodes, and 0 exactly when there are no nodes |
| `Severity.InsertKeepsSorted` | checker.py:62 | inserting into a list sorted highest score first keeps it sorted |
| `Severity.InsertKeepsTiesInOrder` | checker.py:62 | inserting an element puts it in front of all elements with the same score and keeps their order |
| `Severity.SortIsPermutation` | checker.py:62 | the sort returns the same violations, each as often as before |
| `Severity.SortIsSorted` | checker.py:62 | after the sort, scores never increase along the list |
| `Severity.SortIsStable` | checker.py:62 | after the sort, the violations of each score appear in their original relative order |
| `Severity.SortedByTiesUnique` | checker.py:62 | two lists sorted highest score first, with the same elements in the same order for each score, are equal |
| `Severity.StableSortIsUnique` | checker.py:62 | any sorted list that keeps the ties of the input in order is exactly the sort's output |
| `Severity.Rank` | checker.py:49-62 | the ranking loop annotates every violation, then returns them sorted highest score first, as a stable permutation of the annotated list |
| `DesktopApp.LeadingSpaces` | Desktop/accessibility-checker-main/app.py:72 | the count of leading whitespace characters, followed by a non-space or the end |
| `DesktopApp.Strip` | Desktop/accessibility-checker-main/app.py:72 | `strip()` returns the run of the input after its leading whitespace, with only whitespace after it, neither starting nor ending with whitespace |
| `DesktopApp.StripIdempotent` | Desktop/accessibility-checker-main/app.py:72 | stripping a stripped URL changes nothing |
| `DesktopApp.StripEmptyIffBlank` | Desktop/accessibility-checker-main/app.py:72-74 | a URL is rejected as empty exactly when it is all whitespace |
| `DesktopApp.IsValidUrl` | Desktop/accessibility-checker-main/app.py:9-14 | a URL is valid exactly when parsing succeeds with scheme http or https and a non-empty network location; a parser exception means invalid |
| `DesktopApp.Validate` | Desktop/accessibility-checker-main/app.py:71-84 | the first failing check decides, in the order empty, invalid format, unreachable; a URL is accepted, stripped, exactly when all three pass |
| `DesktopApp.SelectFormats` | Desktop/accessibility-checker-main/app.py:95-105 | no format is an error exactly when neither box is ticked; otherwise the list holds exactly the ticked formats, once each, `"html"` before `"pdf"` |
| `DesktopApp.Task` | Desktop/accessibility-checker-main/app.py:92-125 | the button always ends ready; one message is shown; a row (URL, date, "Pending") is appended exactly when a format is ticked and the generator returns |
| `DesktopApp.RunCheck` | Desktop/accessibility-checker-main/app.py:71-127 | a rejection shows its message and leaves the button and history untouched; an accepted URL ends with the button ready; history grows by one row exactly when the URL, the formats and the generator all succeed |
| `DesktopApp.RunAll` | Desktop/accessibility-checker-main/app.py:110-113 | after any series of attempts the history is the old rows followed by one "Pending" row per successful attempt, in attempt order; the button stays ready; one message per attempt |
| `DesktopApp.FreshWindowHistory` | Desktop/accessibility-checker-main/app.py:110-113 | from the first window, the history is exactly one "Pending" row per successful attempt, in attempt order, and the button is ready |

## Left out

- Playwright, axe-core, the JSON dump and load, the Jinja template and the writing of `report.html` in checker.py (lines 1–47, 64–76). These are browser automation and file I/O. The ranking works on an abstract violation record.
- The network probe `is_reachable_url` and the internals of `urlparse`. They are parameters.
- `run_accessibility_check`. The desktop app imports it from a `checker` module, but the repository's root checker.py does not define it. It is a parameter that either returns or raises with a message.
- Threads, Flet widgets and `page.update`. The task runs sequentially after the button turns busy. Snack-bar messages are kept as a list of texts.
- db.py (SQLite storage; its ordering is SQL's `ORDER BY`) and the root app.py, which calls `run_checker`, a function the root checker.py does not define. Both are I/O or missing code.
- `Date.now()`, `toLocaleString()`, the two-second `setTimeout`, and the Blob, object-URL and anchor-click download. Times are parameters. The wait becomes the `ScanDone` event. The download is the returned `Download` value.
- Presentational components (check history list, navigation, footer, contact, pricing). They compute nothing.
- Plan tiers. Nothing is computed from them apart from the PDF message.
- JavaScript numbers are modelled as unbounded integers. Non-integer counts and precision loss above 2^53 are not modelled.
- A JSON `null` for `impact` or `nodes` in an axe-core violation is not modelled. A missing key is. With `null`, `impact` would still rank 1, while `len(None)` would raise.
- `str.strip()` is modelled with Python's whitespace set by code point. Text that is not a sequence of Unicode scalar values is not modelled.
- CheckerComponent.CallbacksFollowSubmits: bounds parent calls by all presses of the button plus the scan in flight at the start, rather than by the presses that actually started a scan. Presses while loading or with an empty field are counted but do nothing.
- The browser's constraint validation of the `type="url"` field (accessibility-checker.tsx:102) is the parameter `accepts` of `CheckerComponent.Step`. Its URL grammar is not modelled. Text it refuses never reaches `handleCheck`.
