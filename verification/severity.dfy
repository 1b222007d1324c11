/**
 * The ranking step of checker.py: each axe-core violation gets a default
 * impact, a node count and a severity score (impact rank times node count),
 * and the list is sorted by score, highest first, keeping the original order
 * among equal scores (Python's `list.sort` is stable, also with `reverse=True`).
 */
module Severity {
  import opened Optional

  /** One element an axe-core rule matched on the page. */
  datatype Node = Node(target: string)

  /**
   * A violation as axe-core reports it, reduced to what the ranking reads:
   * `impact` and `nodes` are None when the key is missing.
   */
  datatype AxeViolation = AxeViolation(id: string, impact: Option<string>, nodes: Option<seq<Node>>)

  /** A violation with the three fields the ranking adds. */
  datatype Ranked = Ranked(violation: AxeViolation, impact: string, numNodes: nat, severityScore: nat)

  /** The `impact_rank` table. */
  const ImpactRanks: map<string, nat> :=
    map["critical" := 5, "serious" := 4, "moderate" := 3, "minor" := 2, "unknown" := 1]

  /** `impact_rank.get(impact, 1)`: the rank of an impact, 1 for any impact not in the table. */
  function ImpactRank(impact: string): (rank: nat)
    ensures 1 <= rank <= 5
    ensures impact == "critical" ==> rank == 5
    ensures impact == "serious" ==> rank == 4
    ensures impact == "moderate" ==> rank == 3
    ensures impact == "minor" ==> rank == 2
    ensures rank == 1 <==> impact !in {"critical", "serious", "moderate", "minor"}
  {
    if impact in ImpactRanks then ImpactRanks[impact] else 1
  }

  /** The body of the ranking loop for one violation. */
  function Annotate(v: AxeViolation): (r: Ranked)
    ensures r.violation == v
    ensures v.impact.None? ==> r.impact == "unknown"
    ensures v.impact.Some? ==> r.impact == v.impact.value
    ensures v.nodes.None? ==> r.numNodes == 0
    ensures v.nodes.Some? ==> r.numNodes == |v.nodes.value|
    ensures r.numNodes <= r.severityScore <= 5 * r.numNodes
    ensures r.severityScore == 0 <==> r.numNodes == 0
    ensures r.severityScore == ImpactRank(r.impact) * r.numNodes
  {
    var impact := v.impact.GetOr("unknown");
    var numNodes := match v.nodes case None => 0 case Some(ns) => |ns|;
    Ranked(v, impact, numNodes, ImpactRank(impact) * numNodes)
  }

  /** Scores never increase along the list. */
  predicate SortedByScoreDesc(rs: seq<Ranked>) {
    forall i, j :: 0 <= i < j < |rs| ==> rs[i].severityScore >= rs[j].severityScore
  }

  /** The elements with score `k`, in list order. */
  function WithScore(rs: seq<Ranked>, k: nat): seq<Ranked>
    decreases |rs|
  {
    if |rs| == 0 then []
    else (if rs[0].severityScore == k then [rs[0]] else []) + WithScore(rs[1..], k)
  }

  /**
   * Stability: for every score, the elements with that score appear in the
   * same order in `after` as in `before`.
   */
  ghost predicate KeepsTiesInOrder(before: seq<Ranked>, after: seq<Ranked>) {
    forall k: nat :: WithScore(after, k) == WithScore(before, k)
  }

  /** Put `x` in front of the first element whose score is not higher than its own. */
  function Insert(x: Ranked, rs: seq<Ranked>): seq<Ranked>
    decreases |rs|
  {
    if |rs| == 0 || rs[0].severityScore <= x.severityScore then [x] + rs
    else [rs[0]] + Insert(x, rs[1..])
  }

  /** `violations.sort(key=severity_score, reverse=True)`, as an insertion sort from the back. */
  function SortByScore(rs: seq<Ranked>): seq<Ranked>
    decreases |rs|
  {
    if |rs| == 0 then [] else Insert(rs[0], SortByScore(rs[1..]))
  }

  lemma {:induction false} InsertKeepsElements(x: Ranked, rs: seq<Ranked>)
    ensures multiset(Insert(x, rs)) == multiset(rs) + multiset{x}
    ensures |Insert(x, rs)| == |rs| + 1
    decreases |rs|
  {
    if |rs| > 0 && rs[0].severityScore > x.severityScore {
      InsertKeepsElements(x, rs[1..]);
      assert rs == [rs[0]] + rs[1..];
    }
  }

  /** Inserting below a bound stays below it. */
  lemma {:induction false} InsertStaysBelow(x: Ranked, rs: seq<Ranked>, bound: nat)
    requires x.severityScore <= bound
    requires forall i :: 0 <= i < |rs| ==> rs[i].severityScore <= bound
    ensures forall i :: 0 <= i < |Insert(x, rs)| ==> Insert(x, rs)[i].severityScore <= bound
    decreases |rs|
  {
    if |rs| > 0 && rs[0].severityScore > x.severityScore {
      InsertStaysBelow(x, rs[1..], bound);
    }
  }

  lemma {:induction false} InsertKeepsSorted(x: Ranked, rs: seq<Ranked>)
    requires SortedByScoreDesc(rs)
    ensures SortedByScoreDesc(Insert(x, rs))
    decreases |rs|
  {
    if |rs| > 0 && rs[0].severityScore > x.severityScore {
      var tail := rs[1..];
      InsertKeepsSorted(x, tail);
      InsertStaysBelow(x, tail, rs[0].severityScore);
    }
  }

  lemma WithScoreCons(x: Ranked, rs: seq<Ranked>, k: nat)
    ensures WithScore([x] + rs, k) == (if x.severityScore == k then [x] else []) + WithScore(rs, k)
  {
    assert ([x] + rs)[1..] == rs;
  }

  /** Every element in front of the insertion point has a higher score than `x`. */
  lemma {:induction false} InsertKeepsTiesInOrder(x: Ranked, rs: seq<Ranked>, k: nat)
    ensures WithScore(Insert(x, rs), k) == (if x.severityScore == k then [x] else []) + WithScore(rs, k)
    decreases |rs|
  {
    if |rs| == 0 || rs[0].severityScore <= x.severityScore {
      WithScoreCons(x, rs, k);
    } else {
      var tail := rs[1..];
      InsertKeepsTiesInOrder(x, tail, k);
      WithScoreCons(rs[0], Insert(x, tail), k);
      WithScoreCons(rs[0], tail, k);
      assert rs == [rs[0]] + tail;
    }
  }

  /** The sort returns the same violations, each as often as before. */
  lemma {:induction false} SortIsPermutation(rs: seq<Ranked>)
    ensures multiset(SortByScore(rs)) == multiset(rs)
    ensures |SortByScore(rs)| == |rs|
    decreases |rs|
  {
    if |rs| > 0 {
      SortIsPermutation(rs[1..]);
      InsertKeepsElements(rs[0], SortByScore(rs[1..]));
      assert rs == [rs[0]] + rs[1..];
    }
  }

  /** After the sort, scores never increase along the list. */
  lemma {:induction false} SortIsSorted(rs: seq<Ranked>)
    ensures SortedByScoreDesc(SortByScore(rs))
    decreases |rs|
  {
    if |rs| > 0 {
      SortIsSorted(rs[1..]);
      InsertKeepsSorted(rs[0], SortByScore(rs[1..]));
    }
  }

  /** The sort is stable: violations with equal scores keep their original relative order. */
  lemma {:induction false} SortIsStable(rs: seq<Ranked>)
    ensures KeepsTiesInOrder(rs, SortByScore(rs))
    decreases |rs|
  {
    if |rs| > 0 {
      SortIsStable(rs[1..]);
      forall k: nat
        ensures WithScore(SortByScore(rs), k) == WithScore(rs, k)
      {
        InsertKeepsTiesInOrder(rs[0], SortByScore(rs[1..]), k);
      }
    }
  }

  /** The first element heads the elements that share its score. */
  lemma WithScoreOfHead(rs: seq<Ranked>)
    requires |rs| > 0
    ensures WithScore(rs, rs[0].severityScore) == [rs[0]] + WithScore(rs[1..], rs[0].severityScore)
  {
  }

  /** In a sorted list, a score that occurs is at most the first element's score. */
  lemma {:induction false} WithScoreBelowHead(rs: seq<Ranked>, k: nat)
    requires SortedByScoreDesc(rs)
    requires WithScore(rs, k) != []
    ensures |rs| > 0 && k <= rs[0].severityScore
    decreases |rs|
  {
    if rs[0].severityScore != k {
      WithScoreBelowHead(rs[1..], k);
    }
  }

  /**
   * A sorted list is determined by the order of its ties: two lists sorted
   * by score, highest first, with the same elements in the same order for
   * every score, are equal.
   */
  lemma {:induction false} SortedByTiesUnique(a: seq<Ranked>, b: seq<Ranked>)
    requires SortedByScoreDesc(a) && SortedByScoreDesc(b)
    requires forall k: nat :: WithScore(a, k) == WithScore(b, k)
    ensures a == b
    decreases |a|
  {
    if |a| == 0 {
      if |b| > 0 {
        WithScoreOfHead(b);
        assert false;
      }
    } else {
      var m := a[0].severityScore;
      WithScoreOfHead(a);
      WithScoreBelowHead(b, m);
      var m' := b[0].severityScore;
      WithScoreOfHead(b);
      WithScoreBelowHead(a, m');
      assert m == m';
      assert WithScore(a, m) == WithScore(b, m);
      assert a[0] == WithScore(a, m)[0] == WithScore(b, m)[0] == b[0];
      forall k: nat
        ensures WithScore(a[1..], k) == WithScore(b[1..], k)
      {
        var head := if m == k then [a[0]] else [];
        assert WithScore(a, k) == head + WithScore(a[1..], k);
        assert WithScore(b, k) == head + WithScore(b[1..], k);
        assert WithScore(a, k) == WithScore(b, k);
        assert WithScore(a[1..], k) == WithScore(a, k)[|head|..];
        assert WithScore(b[1..], k) == WithScore(b, k)[|head|..];
      }
      SortedByTiesUnique(a[1..], b[1..]);
      assert a == [a[0]] + a[1..] && b == [b[0]] + b[1..];
    }
  }

  /**
   * The sort is the only order the ranking could produce: any list sorted
   * by score, highest first, that keeps the ties of `rs` in their original
   * order is the sort of `rs`.
   */
  lemma StableSortIsUnique(rs: seq<Ranked>, t: seq<Ranked>)
    requires SortedByScoreDesc(t)
    requires KeepsTiesInOrder(rs, t)
    ensures t == SortByScore(rs)
  {
    SortIsSorted(rs);
    SortIsStable(rs);
    SortedByTiesUnique(t, SortByScore(rs));
  }

  /**
   * The ranking of checker.py: annotate each violation in order, then sort
   * by score, highest first.
   */
  method Rank(vs: seq<AxeViolation>) returns (ranked: seq<Ranked>)
    ensures |ranked| == |vs|
    ensures SortedByScoreDesc(ranked)
    ensures multiset(ranked) == multiset(AnnotateAll(vs))
    ensures KeepsTiesInOrder(AnnotateAll(vs), ranked)
  {
    var annotated: seq<Ranked> := [];
    var i := 0;
    while i < |vs|
      invariant 0 <= i <= |vs|
      invariant annotated == AnnotateAll(vs[..i])
    {
      AnnotateAllAppend(vs[..i], vs[i]);
      assert vs[..i + 1] == vs[..i] + [vs[i]];
      annotated := annotated + [Annotate(vs[i])];
      i := i + 1;
    }
    assert vs[..i] == vs;
    ranked := SortByScore(annotated);
    SortIsPermutation(annotated);
    SortIsSorted(annotated);
    SortIsStable(annotated);
  }

  /** Every violation annotated, in order. */
  function AnnotateAll(vs: seq<AxeViolation>): (rs: seq<Ranked>)
    ensures |rs| == |vs|
    ensures forall i :: 0 <= i < |vs| ==> rs[i] == Annotate(vs[i])
    decreases |vs|
  {
    if |vs| == 0 then [] else [Annotate(vs[0])] + AnnotateAll(vs[1..])
  }

  lemma AnnotateAllAppend(vs: seq<AxeViolation>, v: AxeViolation)
    ensures AnnotateAll(vs + [v]) == AnnotateAll(vs) + [Annotate(v)]
  {
  }
}
