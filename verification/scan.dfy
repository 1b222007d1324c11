/**
 * The result of one scan as both web components hold it: an ordered list of
 * violation categories, each with an occurrence count and a fix, and a number
 * of warnings. Also the fixed result the simulated analyzer returns.
 */
module Scan {

  /** One violation category (`{ type, count, fix }` in the components). */
  datatype Violation = Violation(kind: string, count: int, fix: string)

  /** `{ violations, warnings }`: violations in report order, plus a warning count. */
  datatype ScanResult = ScanResult(violations: seq<Violation>, warnings: int)

  /**
   * The sum of the counts, folded from the left as `reduce((sum, v) => sum + v.count, 0)` does.
   */
  function TotalCount(vs: seq<Violation>): int
  {
    if |vs| == 0 then 0 else TotalCount(vs[..|vs| - 1]) + vs[|vs| - 1].count
  }

  /** The total splits over a concatenation, so it does not depend on how the list was assembled. */
  lemma {:induction false} TotalCountAppend(a: seq<Violation>, b: seq<Violation>)
    ensures TotalCount(a + b) == TotalCount(a) + TotalCount(b)
    decreases |b|
  {
    if |b| == 0 {
      assert a + b == a;
    } else {
      var b' := b[..|b| - 1];
      assert (a + b)[..|a + b| - 1] == a + b';
      TotalCountAppend(a, b');
    }
  }

  /** When no count is negative, the total is at least each single count and never negative. */
  lemma {:induction false} TotalCountBounds(vs: seq<Violation>)
    requires forall i :: 0 <= i < |vs| ==> vs[i].count >= 0
    ensures TotalCount(vs) >= 0
    ensures forall i :: 0 <= i < |vs| ==> vs[i].count <= TotalCount(vs)
  {
    if |vs| > 0 {
      var p := vs[..|vs| - 1];
      TotalCountBounds(p);
      assert forall i :: 0 <= i < |p| ==> p[i] == vs[i];
    }
  }

  /** The bounds of `TotalCountBounds`, for any list: they hold whenever no count is negative. */
  lemma TotalCountDominates(vs: seq<Violation>)
    ensures (forall i :: 0 <= i < |vs| ==> vs[i].count >= 0) ==>
              && TotalCount(vs) >= 0
              && forall i :: 0 <= i < |vs| ==> vs[i].count <= TotalCount(vs)
  {
    if forall i :: 0 <= i < |vs| ==> vs[i].count >= 0 {
      TotalCountBounds(vs);
    }
  }

  /** The "Total Violations" figure: the sum of the counts of the result's violations. */
  function TotalViolations(r: ScanResult): int
  {
    TotalCount(r.violations)
  }

  /** The "Issues Found" figure: the number of violation categories. */
  function IssueKinds(r: ScanResult): nat
  {
    |r.violations|
  }

  /**
   * The total computed with a loop over the violations, accumulating as `reduce` does.
   */
  method ReduceTotal(vs: seq<Violation>) returns (sum: int)
    ensures sum == TotalCount(vs)
  {
    sum := 0;
    var i := 0;
    while i < |vs|
      invariant 0 <= i <= |vs|
      invariant sum == TotalCount(vs[..i])
    {
      assert vs[..i + 1][..i] == vs[..i];
      sum := sum + vs[i].count;
      i := i + 1;
    }
    assert vs[..|vs|] == vs;
  }

  /** The result the simulated analyzer returns for every URL. */
  function MockScan(): (r: ScanResult)
    ensures IssueKinds(r) == 4
    ensures TotalViolations(r) == 11
    ensures r.warnings == 2
    ensures forall i :: 0 <= i < |r.violations| ==> r.violations[i].count >= 1
  {
    var vs :=
      [ Violation("Missing alt text", 5, "Add descriptive alt text to all images"),
        Violation("Color contrast", 3, "Ensure contrast ratio meets WCAG AA standards"),
        Violation("Missing form labels", 2, "Associate all form inputs with labels"),
        Violation("Heading hierarchy", 1, "Use headings in sequential order") ];
    assert vs[..1][..0] == [] && TotalCount(vs[..1]) == 5;
    assert vs[..2][..1] == vs[..1] && TotalCount(vs[..2]) == 8;
    assert vs[..3][..2] == vs[..2] && TotalCount(vs[..3]) == 10;
    assert vs[..4] == vs && vs[..3] == vs[..|vs| - 1];
    ScanResult(vs, 2)
  }
}
