/**
 * The standalone HTML report both web components download (`exportToHTML`):
 * a fixed document frame around the URL, the generation date and one block per
 * violation, plus the download file name built from a millisecond timestamp.
 *
 * The fixed text is gathered in a `Layout`; the lemmas hold for every layout,
 * and `SourceLayout` is the text the components emit.
 */
module Report {
  import opened Optional
  import opened Decimal
  import opened Scan

  /** `sub` appears in `s` starting at index `i`. */
  predicate OccursAt(s: string, sub: string, i: nat) {
    i + |sub| <= |s| && s[i..i + |sub|] == sub
  }

  lemma OccursInMiddle(a: string, b: string, c: string)
    ensures OccursAt(a + b + c, b, |a|)
  {
    assert (a + b + c)[|a|..|a| + |b|] == b;
  }

  lemma OccursBefore(s: string, sub: string, i: nat, post: string)
    requires OccursAt(s, sub, i)
    ensures OccursAt(s + post, sub, i)
  {
    assert (s + post)[i..i + |sub|] == s[i..i + |sub|];
  }

  lemma OccursInside(pre: string, s: string, post: string, sub: string, i: nat)
    requires OccursAt(s, sub, i)
    ensures OccursAt(pre + s + post, sub, |pre| + i)
  {
    OccursAfter(pre, s, sub, i);
    OccursBefore(pre + s, sub, |pre| + i, post);
  }

  lemma OccursAfter(pre: string, s: string, sub: string, i: nat)
    requires OccursAt(s, sub, i)
    ensures OccursAt(pre + s, sub, |pre| + i)
  {
    assert (pre + s)[|pre| + i..|pre| + i + |sub|] == s[i..i + |sub|];
  }

  /** The fixed text of a report, in the order it is emitted. */
  datatype Layout = Layout(
    documentOpen: string,
    titleOpen: string,
    titleClose: string,
    styleAndHeading: string,
    urlOpen: string,
    urlClose: string,
    dateOpen: string,
    sectionOpen: string,
    documentClose: string,
    blockOpen: string,
    countOpen: string,
    fixOpen: string,
    blockClose: string)

  /** The template text of the two web components' `exportToHTML`. */
  const SourceLayout: Layout := Layout(
    "\n<!DOCTYPE html>\n<html>\n<head>\n  ",
    "<title>Accessibility Report - ",
    "</title>",
    "\n  <style>\n"
    + "    body { font-family: -apple-system, BlinkMacSystemFont, 'Segoe UI', Roboto; max-width: 800px; margin: 0 auto; padding: 20px; }\n"
    + "    h1 { color: #333; }\n"
    + "    .violation { background: #fee; padding: 15px; margin: 10px 0; border-left: 4px solid #c33; border-radius: 4px; }\n"
    + "    .fix { color: #666; margin-top: 8px; }\n"
    + "  </style>\n</head>\n<body>\n  <h1>Accessibility Report</h1>\n  ",
    "<p><strong>URL:</strong> ",
    "</p>",
    "\n  <p><strong>Date:</strong> ",
    "</p>\n  <h2>Violations Found</h2>\n  ",
    "\n</body>\n</html>\n    ",
    "\n    <div class=\"violation\">\n      <strong>",
    "</strong> (",
    " occurrences)\n      <div class=\"fix\"><strong>Fix:</strong> ",
    "</div>\n    </div>\n  ")

  /** What `${undefined}` prints: the section when there is no result. */
  const Undefined: string := "undefined"

  /** The document's `<title>` element, which names the URL. */
  function TitleElement(l: Layout, url: string): string {
    l.titleOpen + url + l.titleClose
  }

  /** The body paragraph that names the URL. */
  function UrlParagraph(l: Layout, url: string): string {
    l.urlOpen + url + l.urlClose
  }

  /** Everything up to and including the URL paragraph. */
  function Head(l: Layout, url: string): string {
    l.documentOpen + TitleElement(l, url) + l.styleAndHeading + UrlParagraph(l, url)
  }

  /** Everything before the violations section. */
  function Frame(l: Layout, url: string, generatedAt: string): string {
    Head(l, url) + (l.dateOpen + generatedAt + l.sectionOpen)
  }

  /** The block for one violation: its type, its count, and its fix. */
  function Block(l: Layout, v: Violation): string {
    l.blockOpen + v.kind + l.countOpen + IntToString(v.count) + l.fixOpen + v.fix + l.blockClose
  }

  /** The blocks of all violations joined with no separator, in list order. */
  function Blocks(l: Layout, vs: seq<Violation>): string {
    if |vs| == 0 then "" else Block(l, vs[0]) + Blocks(l, vs[1..])
  }

  /**
   * The violations section: the joined blocks, or `undefined` when there is
   * no result yet (`${results?.violations...}` with `results === null`).
   */
  function Section(l: Layout, results: Option<ScanResult>): string {
    match results
    case None => Undefined
    case Some(r) => Blocks(l, r.violations)
  }

  /** The whole report for `url`, stamped with `generatedAt` (the export time, not the scan time). */
  function Render(l: Layout, url: string, generatedAt: string, results: Option<ScanResult>): string {
    Frame(l, url, generatedAt) + Section(l, results) + l.documentClose
  }

  /** In text built as `a + x + b + y + c + z + d`, each of `x`, `y`, `z` sits where the pieces before it end. */
  lemma FieldsOccur(a: string, x: string, b: string, y: string, c: string, z: string, d: string)
    ensures OccursAt(a + x + b + y + c + z + d, x, |a|)
    ensures OccursAt(a + x + b + y + c + z + d, y, |a| + |x| + |b|)
    ensures OccursAt(a + x + b + y + c + z + d, z, |a| + |x| + |b| + |y| + |c|)
  {
    var s := a + x + b + y + c + z + d;
    assert s == a + x + (b + y + c + z + d);
    OccursInMiddle(a, x, b + y + c + z + d);
    assert s == (a + x + b) + y + (c + z + d);
    OccursInMiddle(a + x + b, y, c + z + d);
    OccursInMiddle(a + x + b + y + c, z, d);
  }

  /** The block of a violation names its type, its count and its fix, in that order. */
  lemma BlockShowsViolation(l: Layout, v: Violation)
    ensures OccursAt(Block(l, v), v.kind, |l.blockOpen|)
    ensures OccursAt(Block(l, v), IntToString(v.count), |l.blockOpen| + |v.kind| + |l.countOpen|)
    ensures OccursAt(Block(l, v), v.fix,
                     |l.blockOpen| + |v.kind| + |l.countOpen| + |IntToString(v.count)| + |l.fixOpen|)
  {
    FieldsOccur(l.blockOpen, v.kind, l.countOpen, IntToString(v.count), l.fixOpen, v.fix, l.blockClose);
  }

  /** Joining distributes over concatenation of violation lists. */
  lemma {:induction false} BlocksAppend(l: Layout, a: seq<Violation>, b: seq<Violation>)
    ensures Blocks(l, a + b) == Blocks(l, a) + Blocks(l, b)
    decreases |a|
  {
    if |a| == 0 {
      assert a + b == b;
    } else {
      assert (a + b)[1..] == a[1..] + b;
      BlocksAppend(l, a[1..], b);
    }
  }

  /**
   * The joined text holds the block of violation `i` right after the blocks
   * of the violations before it, and that block ends where the blocks of the
   * first `i + 1` violations end: one block per violation, in list order.
   */
  lemma BlockAt(l: Layout, vs: seq<Violation>, i: nat)
    requires i < |vs|
    ensures OccursAt(Blocks(l, vs), Block(l, vs[i]), |Blocks(l, vs[..i])|)
    ensures |Blocks(l, vs[..i])| + |Block(l, vs[i])| == |Blocks(l, vs[..i + 1])|
  {
    assert vs == vs[..i] + [vs[i]] + vs[i + 1..];
    BlocksAppend(l, vs[..i] + [vs[i]], vs[i + 1..]);
    BlocksAppend(l, vs[..i], [vs[i]]);
    assert Blocks(l, [vs[i]]) == Block(l, vs[i]);
    assert vs[..i + 1] == vs[..i] + [vs[i]];
    OccursInMiddle(Blocks(l, vs[..i]), Block(l, vs[i]), Blocks(l, vs[i + 1..]));
  }

  /** The report names the URL twice: in the `<title>` and, after it, in the body's URL paragraph. */
  lemma RenderNamesUrl(l: Layout, url: string, generatedAt: string, results: Option<ScanResult>)
    ensures OccursAt(Render(l, url, generatedAt, results), TitleElement(l, url), |l.documentOpen|)
    ensures OccursAt(Render(l, url, generatedAt, results), UrlParagraph(l, url),
                     |l.documentOpen| + |TitleElement(l, url)| + |l.styleAndHeading|)
  {
    var post := l.dateOpen + generatedAt + l.sectionOpen;
    var pre := l.documentOpen + TitleElement(l, url) + l.styleAndHeading;
    var head := Head(l, url);
    var frame := Frame(l, url, generatedAt);
    var section := Section(l, results);
    assert Render(l, url, generatedAt, results) == frame + section + l.documentClose;
    assert frame == head + post;
    OccursInMiddle(l.documentOpen, TitleElement(l, url), l.styleAndHeading + UrlParagraph(l, url));
    assert head == l.documentOpen + TitleElement(l, url) + (l.styleAndHeading + UrlParagraph(l, url));
    OccursInMiddle(pre, UrlParagraph(l, url), "");
    assert head == pre + UrlParagraph(l, url) + "";
    OccursBefore(head, TitleElement(l, url), |l.documentOpen|, post);
    OccursBefore(head, UrlParagraph(l, url), |pre|, post);
    OccursBefore(frame, TitleElement(l, url), |l.documentOpen|, section);
    OccursBefore(frame, UrlParagraph(l, url), |pre|, section);
    OccursBefore(frame + section, TitleElement(l, url), |l.documentOpen|, l.documentClose);
    OccursBefore(frame + section, UrlParagraph(l, url), |pre|, l.documentClose);
  }

  /** With a result, the section is the joined blocks of its violations. */
  lemma RenderOfResult(l: Layout, url: string, generatedAt: string, r: ScanResult)
    ensures Render(l, url, generatedAt, Some(r)) == Frame(l, url, generatedAt) + Blocks(l, r.violations) + l.documentClose
  {
  }

  /**
   * `body` holds the block of violation `i` of `vs` at `start` plus the
   * length of the blocks of the violations before it.
   */
  predicate HasBlockAt(body: string, l: Layout, start: nat, vs: seq<Violation>, i: nat)
    requires i < |vs|
  {
    OccursAt(body, Block(l, vs[i]), start + |Blocks(l, vs[..i])|)
  }

  /**
   * The report of a result holds the block of each of its violations, in
   * result order: block `i` sits after the frame and the blocks before it.
   */
  lemma RenderListsViolations(l: Layout, url: string, generatedAt: string, r: ScanResult, i: nat)
    requires i < |r.violations|
    ensures HasBlockAt(Render(l, url, generatedAt, Some(r)), l, |Frame(l, url, generatedAt)|, r.violations, i)
  {
    RenderOfResult(l, url, generatedAt, r);
    EnclosedBlocksList(Frame(l, url, generatedAt), l.documentClose, l, r.violations, i);
  }

  /** Text around the joined blocks does not disturb them: block `i` sits after the text before them and the blocks before it. */
  lemma EnclosedBlocksList(pre: string, post: string, l: Layout, vs: seq<Violation>, i: nat)
    requires i < |vs|
    ensures HasBlockAt(pre + Blocks(l, vs) + post, l, |pre|, vs, i)
  {
    BlockAt(l, vs, i);
    OccursInside(pre, Blocks(l, vs), post, Block(l, vs[i]), |Blocks(l, vs[..i])|);
  }

  /** Every violation of the result has its block in the report, at its place in result order. */
  lemma RenderListsAllViolations(l: Layout, url: string, generatedAt: string, r: ScanResult)
    ensures forall i :: 0 <= i < |r.violations| ==>
              HasBlockAt(Render(l, url, generatedAt, Some(r)), l, |Frame(l, url, generatedAt)|, r.violations, i)
  {
    forall i | 0 <= i < |r.violations|
      ensures HasBlockAt(Render(l, url, generatedAt, Some(r)), l, |Frame(l, url, generatedAt)|, r.violations, i)
    {
      RenderListsViolations(l, url, generatedAt, r, i);
    }
  }

  /** Without a result the section is the text `undefined`, and the report holds nothing else after the frame. */
  lemma RenderWithoutResult(l: Layout, url: string, generatedAt: string)
    ensures OccursAt(Render(l, url, generatedAt, None), Undefined, |Frame(l, url, generatedAt)|)
    ensures |Render(l, url, generatedAt, None)| == |Frame(l, url, generatedAt)| + |Undefined| + |l.documentClose|
  {
    OccursInMiddle(Frame(l, url, generatedAt), Undefined, l.documentClose);
  }

  /**
   * The report carries the export date right after the head, and it ends
   * with the closing tags right after the section: nothing follows the last
   * block but the end of the document.
   */
  lemma RenderDatedAndClosed(l: Layout, url: string, generatedAt: string, results: Option<ScanResult>)
    ensures OccursAt(Render(l, url, generatedAt, results), generatedAt, |Head(l, url)| + |l.dateOpen|)
    ensures |Render(l, url, generatedAt, results)|
            == |Frame(l, url, generatedAt)| + |Section(l, results)| + |l.documentClose|
    ensures OccursAt(Render(l, url, generatedAt, results), l.documentClose,
                     |Render(l, url, generatedAt, results)| - |l.documentClose|)
  {
    var head := Head(l, url);
    var frame := Frame(l, url, generatedAt);
    var section := Section(l, results);
    assert frame == head + (l.dateOpen + generatedAt + l.sectionOpen);
    OccursInMiddle(l.dateOpen, generatedAt, l.sectionOpen);
    OccursAfter(head, l.dateOpen + generatedAt + l.sectionOpen, generatedAt, |l.dateOpen|);
    OccursBefore(frame, generatedAt, |head| + |l.dateOpen|, section);
    OccursBefore(frame + section, generatedAt, |head| + |l.dateOpen|, l.documentClose);
    OccursInMiddle(frame + section, l.documentClose, "");
    assert frame + section + l.documentClose + "" == frame + section + l.documentClose;
  }

  const FilePrefix: string := "accessibility-report-"
  const FileSuffix: string := ".html"

  /** The download name `accessibility-report-<milliseconds>.html`. */
  function FileName(stampMillis: nat): string {
    FilePrefix + NatToString(stampMillis) + FileSuffix
  }

  /** The timestamp a download name carries, or None for a name not of that shape. */
  function StampOf(name: string): Option<nat> {
    if |name| >= |FilePrefix| + |FileSuffix|
       && name[..|FilePrefix|] == FilePrefix
       && name[|name| - |FileSuffix|..] == FileSuffix
       && IsCanonical(name[|FilePrefix|..|name| - |FileSuffix|])
    then Some(ParseNat(name[|FilePrefix|..|name| - |FileSuffix|]))
    else None
  }

  /** Every download name carries back the timestamp it was built from. */
  lemma StampOfFileName(stampMillis: nat)
    ensures StampOf(FileName(stampMillis)) == Some(stampMillis)
  {
    var digits := NatToString(stampMillis);
    var name := FileName(stampMillis);
    assert name[..|FilePrefix|] == FilePrefix;
    assert name[|name| - |FileSuffix|..] == FileSuffix;
    assert name[|FilePrefix|..|name| - |FileSuffix|] == digits;
    ParseNatToString(stampMillis);
  }

  /** Every name that carries a timestamp is exactly the download name for that timestamp. */
  lemma FileNameOfStamp(name: string, stampMillis: nat)
    requires StampOf(name) == Some(stampMillis)
    ensures FileName(stampMillis) == name
  {
    var digits := name[|FilePrefix|..|name| - |FileSuffix|];
    NatToStringParse(digits);
    assert name == name[..|FilePrefix|] + digits + name[|name| - |FileSuffix|..];
  }

  /** A file handed to the browser for download. */
  datatype Download = Download(fileName: string, mimeType: string, body: string)

  /**
   * `exportToHTML`: the report for the component's current URL and result,
   * dated `generatedAt` and named after the export time `stampMillis`; the
   * components use `SourceLayout` as `l`.
   */
  function ExportHtml(l: Layout, url: string, stampMillis: nat, generatedAt: string, results: Option<ScanResult>): (d: Download)
    ensures d.mimeType == "text/html"
    ensures StampOf(d.fileName) == Some(stampMillis)
    ensures OccursAt(d.body, TitleElement(l, url), |l.documentOpen|)
    ensures OccursAt(d.body, UrlParagraph(l, url), |l.documentOpen| + |TitleElement(l, url)| + |l.styleAndHeading|)
    ensures results.None? ==> OccursAt(d.body, Undefined, |Frame(l, url, generatedAt)|)
    ensures results.Some? ==> forall i :: 0 <= i < |results.value.violations| ==>
              HasBlockAt(d.body, l, |Frame(l, url, generatedAt)|, results.value.violations, i)
    ensures results.Some? ==>
              |d.body| == |Frame(l, url, generatedAt)| + |Blocks(l, results.value.violations)| + |l.documentClose|
    ensures results.None? ==>
              |d.body| == |Frame(l, url, generatedAt)| + |Undefined| + |l.documentClose|
    ensures OccursAt(d.body, generatedAt, |Head(l, url)| + |l.dateOpen|)
  {
    StampOfFileName(stampMillis);
    var body := Render(l, url, generatedAt, results);
    RenderNamesUrl(l, url, generatedAt, results);
    RenderDatedAndClosed(l, url, generatedAt, results);
    if results.Some? then
      RenderListsAllViolations(l, url, generatedAt, results.value);
      Download(FileName(stampMillis), "text/html", body)
    else
      RenderWithoutResult(l, url, generatedAt);
      Download(FileName(stampMillis), "text/html", body)
  }
}
