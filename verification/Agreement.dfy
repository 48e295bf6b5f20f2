/** Inter-annotator agreement: the mean pairwise Jaccard similarity of `agreement.ts`, in exact rationals. */
module Agreement {
  import opened Common

  type Value = string

  const CONSENSUS_THRESHOLD := 0.6

  datatype ConsensusResult = ConsensusResult(
    agreedValues: set<Value>, allValues: set<Value>, agreement: real, annotatorN: nat, needsAdjudication: bool)

  function Jaccard(a: set<Value>, b: set<Value>): real {
    if |a + b| == 0 then 1.0 else |a * b| as real / |a + b| as real
  }

  /** The similarities of `x` with every set of the list. */
  function RowSum(x: set<Value>, sets: seq<set<Value>>): real {
    if sets == [] then 0.0 else Jaccard(x, sets[0]) + RowSum(x, sets[1..])
  }

  /** The similarities of all pairs. */
  function PairSum(sets: seq<set<Value>>): real {
    if sets == [] then 0.0 else RowSum(sets[0], sets[1..]) + PairSum(sets[1..])
  }

  function PairCount(n: nat): nat {
    if n == 0 then 0 else n - 1 + PairCount(n - 1)
  }

  lemma {:induction false} PairCountPositive(n: nat)
    requires n >= 2
    ensures PairCount(n) > 0
  {
    if n > 2 {
      PairCountPositive(n - 1);
    }
  }

  function Mean(sets: seq<set<Value>>): real
    requires |sets| >= 2
  {
    PairCountPositive(|sets|);
    PairSum(sets) / PairCount(|sets|) as real
  }

  function Round2(x: real): real { (x * 100.0 + 0.5).Floor as real / 100.0 }

  function Union(sets: seq<set<Value>>): set<Value> {
    if sets == [] then {} else sets[0] + Union(sets[1..])
  }

  lemma {:induction false} InUnion(sets: seq<set<Value>>, v: Value)
    ensures v in Union(sets) <==> exists k :: 0 <= k < |sets| && v in sets[k]
  {
    if sets != [] {
      InUnion(sets[1..], v);
      if v in sets[0] {
        assert 0 <= 0 < |sets| && v in sets[0];
      } else if v in Union(sets[1..]) {
        var k :| 0 <= k < |sets[1..]| && v in sets[1..][k];
        assert v in sets[k + 1];
      }
      forall k | 0 <= k < |sets| && v in sets[k] ensures v in Union(sets) {
        if k > 0 {
          assert v in sets[1..][k - 1];
        }
      }
    }
  }

  // ----- the loops -----

  /** The share of the values in either set that are in both; nothing else is such a share. */
  predicate IsShare(r: real, both: set<Value>, either: set<Value>) {
    if either == {} then r == 1.0 else r * |either| as real == |both| as real
  }

  lemma ShareIsJaccard(a: set<Value>, b: set<Value>, r: real)
    ensures IsShare(r, a * b, a + b) <==> r == Jaccard(a, b)
  {
    if a + b != {} {
      var n, m := |a + b| as real, |a * b| as real;
      assert n > 0.0;
      QuotientIs(r, m, n);
    }
  }

  lemma QuotientIs(r: real, m: real, n: real)
    requires n > 0.0
    ensures r * n == m <==> r == m / n
  {
    if r * n == m {
      assert r == (r * n) / n;
    }
  }

  method ComputeJaccard(a: set<Value>, b: set<Value>) returns (r: real)
    ensures r == Jaccard(a, b) && IsShare(r, a * b, a + b)
  {
    var union := a + b;
    if |union| == 0 {
      return 1.0;
    }
    var intersectionSize := 0;
    var todo := a;
    while todo != {}
      invariant todo <= a && intersectionSize + |todo * b| == |a * b|
      decreases |todo|
    {
      var value :| value in todo;
      if value in b {
        assert todo * b == (todo - {value}) * b + {value};
        intersectionSize := intersectionSize + 1;
      } else {
        assert todo * b == (todo - {value}) * b;
      }
      todo := todo - {value};
    }
    r := intersectionSize as real / |union| as real;
  }

  method SumPairs(sets: seq<set<Value>>) returns (totalSimilarity: real, pairCount: nat)
    ensures totalSimilarity == PairSum(sets) && pairCount == PairCount(|sets|)
  {
    totalSimilarity, pairCount := 0.0, 0;
    for i := 0 to |sets|
      invariant totalSimilarity + PairSum(sets[i..]) == PairSum(sets)
      invariant pairCount + PairCount(|sets| - i) == PairCount(|sets|)
    {
      assert sets[i..][0] == sets[i] && sets[i..][1..] == sets[i + 1..];
      for j := i + 1 to |sets|
        invariant totalSimilarity + RowSum(sets[i], sets[j..]) + PairSum(sets[i + 1..]) == PairSum(sets)
        invariant pairCount + (|sets| - j) + PairCount(|sets| - i - 1) == PairCount(|sets|)
      {
        assert sets[j..][0] == sets[j] && sets[j..][1..] == sets[j + 1..];
        var similarity := ComputeJaccard(sets[i], sets[j]);
        totalSimilarity, pairCount := totalSimilarity + similarity, pairCount + 1;
      }
    }
  }

  /** What the result has to be: the intersection, the union, and the rounded mean with its verdict. */
  ghost predicate IsConsensus(r: ConsensusResult, sets: seq<set<Value>>) {
    && r.annotatorN == |sets|
    && r.allValues == Union(sets)
    && (sets == [] ==> r.agreedValues == {})
    && (sets != [] ==> forall v :: v in r.agreedValues <==> forall k | 0 <= k < |sets| :: v in sets[k])
    && r.agreement == (if |sets| < 2 then 1.0 else Round2(Mean(sets)))
    && (r.needsAdjudication <==> |sets| >= 2 && Mean(sets) < 0.595)
  }

  function AgreedValues(sets: seq<set<Value>>): (agreed: set<Value>)
    requires sets != []
    ensures forall v :: v in agreed <==> forall k | 0 <= k < |sets| :: v in sets[k]
  {
    var agreed := set v | v in sets[0] && forall k | 0 <= k < |sets| :: v in sets[k];
    assert forall v | forall k | 0 <= k < |sets| :: v in sets[k] :: v in sets[0];
    agreed
  }

  /** The result as a function of the annotators' sets. */
  function ConsensusOf(sets: seq<set<Value>>): (r: ConsensusResult)
    ensures IsConsensus(r, sets)
  {
    if sets == [] then ConsensusResult({}, {}, 1.0, 0, false)
    else if |sets| == 1 then
      assert Union(sets) == sets[0];
      ConsensusResult(sets[0], sets[0], 1.0, 1, false)
    else
      RoundingThreshold(Mean(sets));
      ConsensusResult(AgreedValues(sets), Union(sets), Round2(Mean(sets)), |sets|,
                      Round2(Mean(sets)) < CONSENSUS_THRESHOLD)
  }

  lemma ConsensusIsUnique(r: ConsensusResult, sets: seq<set<Value>>)
    requires IsConsensus(r, sets)
    ensures r == ConsensusOf(sets)
  {
    ConsensusIgnoresOrder(sets, sets, r, ConsensusOf(sets));
  }

  method ComputeAgreement(sets: seq<set<Value>>) returns (r: ConsensusResult)
    ensures IsConsensus(r, sets)
  {
    if |sets| == 0 {
      return ConsensusResult({}, {}, 1.0, 0, false);
    }
    var allValues := Union(sets);
    if |sets| == 1 {
      assert Union(sets) == sets[0];
      return ConsensusResult(sets[0], allValues, 1.0, 1, false);
    }
    var agreedValues := set v | v in allValues && forall k | 0 <= k < |sets| :: v in sets[k];
    forall v ensures v in agreedValues <==> forall k | 0 <= k < |sets| :: v in sets[k] {
      InUnion(sets, v);
      if forall k | 0 <= k < |sets| :: v in sets[k] {
        assert v in sets[0];
      }
    }
    var totalSimilarity, pairCount := SumPairs(sets);
    PairCountPositive(|sets|);
    var agreement := Round2(totalSimilarity / pairCount as real);
    RoundingThreshold(Mean(sets));
    r := ConsensusResult(agreedValues, allValues, agreement, |sets|, agreement < CONSENSUS_THRESHOLD);
  }

  /** Rounding to two places turns the threshold 0.6 into 0.595 on the exact mean. */
  lemma RoundingThreshold(x: real)
    ensures Round2(x) < CONSENSUS_THRESHOLD <==> x < 0.595
  {
    var n := (x * 100.0 + 0.5).Floor;
    assert Round2(x) * 100.0 == n as real;
    assert n < 60 <==> x * 100.0 + 0.5 < 60.0;
  }

  // ----- bounds -----

  lemma {:induction false} SubsetSize(a: set<Value>, b: set<Value>)
    requires a <= b
    ensures |a| <= |b| && (|a| == |b| ==> a == b)
  {
    assert b == a + (b - a);
    if |b - a| == 0 {
      assert b - a == {};
    }
  }

  lemma Cancel(x: real, y: real, n: real)
    requires n > 0.0 && x * n <= y * n
    ensures x <= y
  {
  }

  lemma DivideOrder(a: int, b: int, c: int, d: int)
    requires 0 <= a <= c && 0 < d <= b
    ensures a as real / b as real <= c as real / d as real
  {
    var n, m := b as real, d as real;
    var x, y := a as real / n, c as real / m;
    QuotientTimes(a as real, n);
    QuotientTimes(c as real, m);
    if y < 0.0 {
      NegativeProduct(y, m);
    }
    ScaleUp(y, m, n);
    Cancel(x, y, n);
  }

  lemma NegativeProduct(y: real, n: real)
    requires y < 0.0 && n > 0.0
    ensures y * n < 0.0
  {
  }

  lemma ScaleUp(y: real, m: real, n: real)
    requires y >= 0.0 && m <= n
    ensures y * m <= y * n
  {
  }

  lemma JaccardAtMostOne(a: set<Value>, b: set<Value>)
    ensures Jaccard(a, b) <= 1.0
    ensures Jaccard(a, b) == 1.0 <==> a == b
  {
    if |a + b| > 0 {
      var n, m := |a * b|, |a + b|;
      SubsetSize(a * b, a + b);
      assert n as real / m as real * m as real == n as real;
      if n == m {
        assert a * b == a + b;
        assert a <= a * b && b <= a * b;
        assert n as real / m as real == 1.0;
      } else {
        assert n as real / m as real < 1.0;
        assert a == b ==> a * b == a + b;
      }
    } else {
      assert a + b == {} && a == {} && b == {};
    }
  }

  lemma JaccardAtLeast(a: set<Value>, b: set<Value>, inner: set<Value>, outer: set<Value>)
    requires inner <= a * b && a + b <= outer && outer != {}
    ensures |inner| as real / |outer| as real <= Jaccard(a, b)
  {
    SubsetSize(inner, a * b);
    SubsetSize(a + b, outer);
    SubsetSize(a * b, a + b);
    if |a + b| > 0 {
      DivideOrder(|inner|, |outer|, |a * b|, |a + b|);
    } else {
      DivideOrder(|inner|, |outer|, 1, 1);
    }
  }

  ghost predicate Between(inner: set<Value>, sets: seq<set<Value>>, outer: set<Value>) {
    forall k | 0 <= k < |sets| :: inner <= sets[k] <= outer
  }

  lemma {:induction false} RowSumBounds(x: set<Value>, sets: seq<set<Value>>, inner: set<Value>, outer: set<Value>)
    requires outer != {} && inner <= x <= outer && Between(inner, sets, outer)
    ensures |sets| as real * (|inner| as real / |outer| as real) <= RowSum(x, sets) <= |sets| as real
  {
    if sets != [] {
      RowSumBounds(x, sets[1..], inner, outer);
      JaccardAtLeast(x, sets[0], inner, outer);
      JaccardAtMostOne(x, sets[0]);
      var r := |inner| as real / |outer| as real;
      assert |sets| as real == |sets[1..]| as real + 1.0;
      assert (|sets[1..]| as real + 1.0) * r == |sets[1..]| as real * r + r;
    }
  }

  lemma {:induction false} PairSumBounds(sets: seq<set<Value>>, inner: set<Value>, outer: set<Value>)
    requires outer != {} && Between(inner, sets, outer)
    ensures PairCount(|sets|) as real * (|inner| as real / |outer| as real) <= PairSum(sets)
    ensures PairSum(sets) <= PairCount(|sets|) as real
  {
    if sets != [] {
      var rest, r := sets[1..], |inner| as real / |outer| as real;
      RowSumBounds(sets[0], rest, inner, outer);
      PairSumBounds(rest, inner, outer);
      assert PairCount(|sets|) as real == |rest| as real + PairCount(|rest|) as real;
      assert (|rest| as real + PairCount(|rest|) as real) * r == |rest| as real * r + PairCount(|rest|) as real * r;
    }
  }

  lemma QuotientBounds(low: real, n: real, sum: real, high: real)
    requires n > 0.0 && n * low <= sum <= n * high
    ensures low <= sum / n <= high
  {
    var q := sum / n;
    assert q * n == sum;
    Cancel(low, q, n);
    Cancel(q, high, n);
  }

  /** The mean lies between |intersection| / |union| and 1. */
  lemma MeanBounds(sets: seq<set<Value>>, r: ConsensusResult)
    requires |sets| >= 2 && IsConsensus(r, sets) && r.allValues != {}
    ensures |r.agreedValues| as real / |r.allValues| as real <= Mean(sets) <= 1.0
  {
    forall k | 0 <= k < |sets| ensures r.agreedValues <= sets[k] <= r.allValues {
      forall v | v in sets[k] ensures v in r.allValues { InUnion(sets, v); }
    }
    PairSumBounds(sets, r.agreedValues, r.allValues);
    PairCountPositive(|sets|);
    var n := PairCount(|sets|) as real;
    assert n * 1.0 == n;
    QuotientBounds(|r.agreedValues| as real / |r.allValues| as real, n, PairSum(sets), 1.0);
  }

  lemma {:induction false} RowSumFull(x: set<Value>, sets: seq<set<Value>>)
    ensures RowSum(x, sets) <= |sets| as real
    ensures RowSum(x, sets) == |sets| as real <==> forall k | 0 <= k < |sets| :: sets[k] == x
  {
    if sets != [] {
      RowSumFull(x, sets[1..]);
      JaccardAtMostOne(x, sets[0]);
      assert |sets| as real == |sets[1..]| as real + 1.0;
      assert (forall k | 0 <= k < |sets| :: sets[k] == x) ==> forall k | 0 <= k < |sets[1..]| :: sets[1..][k] == x;
      assert forall k | 0 < k < |sets| :: sets[k] == sets[1..][k - 1];
    }
  }

  lemma {:induction false} PairSumFull(sets: seq<set<Value>>)
    ensures PairSum(sets) <= PairCount(|sets|) as real
    ensures PairSum(sets) == PairCount(|sets|) as real <==> forall k, l | 0 <= k < l < |sets| :: sets[k] == sets[l]
  {
    if sets != [] {
      var rest := sets[1..];
      RowSumFull(sets[0], rest);
      PairSumFull(rest);
      assert PairCount(|sets|) as real == |rest| as real + PairCount(|rest|) as real;
      assert forall k | 0 < k < |sets| :: sets[k] == rest[k - 1];
      assert forall k | 0 <= k < |rest| :: rest[k] == sets[k + 1];
    }
  }

  /** The mean is 1 exactly when all annotators agree on everything. */
  lemma MeanOneIff(sets: seq<set<Value>>)
    requires |sets| >= 2
    ensures Mean(sets) == 1.0 <==> forall k, l | 0 <= k < l < |sets| :: sets[k] == sets[l]
  {
    PairSumFull(sets);
    PairCountPositive(|sets|);
    QuotientIsOne(PairSum(sets), PairCount(|sets|) as real);
  }

  lemma QuotientIsOne(sum: real, n: real)
    requires n > 0.0
    ensures sum / n == 1.0 <==> sum == n
  {
    assert sum / n * n == sum;
  }

  // ----- order of annotators -----

  function Without(sets: seq<set<Value>>, k: nat): seq<set<Value>>
    requires k < |sets|
  {
    sets[..k] + sets[k + 1..]
  }

  lemma {:induction false} RowSumWithout(x: set<Value>, sets: seq<set<Value>>, k: nat)
    requires k < |sets|
    ensures RowSum(x, sets) == Jaccard(x, sets[k]) + RowSum(x, Without(sets, k))
  {
    if k == 0 {
      assert Without(sets, 0) == sets[1..];
    } else {
      RowSumWithout(x, sets[1..], k - 1);
      assert Without(sets, k) == [sets[0]] + Without(sets[1..], k - 1);
    }
  }

  lemma JaccardSymmetric(a: set<Value>, b: set<Value>)
    ensures Jaccard(a, b) == Jaccard(b, a)
  {
    assert a + b == b + a && a * b == b * a;
  }

  // ----- the mean, counted without an order -----

  /** The similarities of every set of one list with every set of another. */
  function GridSum(rows: seq<set<Value>>, columns: seq<set<Value>>): real {
    if rows == [] then 0.0 else RowSum(rows[0], columns) + GridSum(rows[1..], columns)
  }

  lemma {:induction false} GridColumn(rows: seq<set<Value>>, x: set<Value>, columns: seq<set<Value>>)
    ensures GridSum(rows, [x] + columns) == RowSum(x, rows) + GridSum(rows, columns)
  {
    if rows != [] {
      assert ([x] + columns)[0] == x && ([x] + columns)[1..] == columns;
      JaccardSymmetric(x, rows[0]);
      GridColumn(rows[1..], x, columns);
    }
  }

  /** Everybody with everybody: each pair twice, and each with itself, which adds 1. */
  lemma {:induction false} GridIsPairsTwice(sets: seq<set<Value>>)
    ensures GridSum(sets, sets) == 2.0 * PairSum(sets) + |sets| as real
  {
    if sets != [] {
      var x, rest := sets[0], sets[1..];
      assert sets == [x] + rest;
      GridColumn(rest, x, rest);
      JaccardAtMostOne(x, x);
      GridIsPairsTwice(rest);
    }
  }

  lemma {:induction false} PairCountTwice(n: nat)
    ensures 2 * PairCount(n) == n * n - n
  {
    if n > 0 {
      PairCountTwice(n - 1);
    }
  }

  /** `mean` is the total over `size` entries. */
  predicate IsMean(mean: real, total: real, size: int) { mean * size as real == total }

  lemma MeanTimes(mean: real, sum: real, n: nat, total: real, size: int)
    requires n > 0 && mean == sum / n as real && size == 2 * n && total == 2.0 * sum
    ensures IsMean(mean, total, size)
  {
    var pairs := n as real;
    assert size as real == 2.0 * pairs;
    assert mean * pairs == sum;
  }

  /** The mean is that of the similarities of all ordered pairs of different annotators. */
  lemma MeanIsOverOrderedPairs(sets: seq<set<Value>>, size: int)
    requires |sets| >= 2 && size == |sets| * |sets| - |sets|
    ensures IsMean(Mean(sets), GridSum(sets, sets) - |sets| as real, size)
  {
    PairCountTwice(|sets|);
    GridIsPairsTwice(sets);
    PairCountPositive(|sets|);
    var mean, n := Mean(sets), PairCount(|sets|);
    MeanTimes(mean, PairSum(sets), n, GridSum(sets, sets) - |sets| as real, size);
  }

  lemma {:induction false} PairSumWithout(sets: seq<set<Value>>, k: nat)
    requires k < |sets|
    ensures PairSum(sets) == RowSum(sets[k], Without(sets, k)) + PairSum(Without(sets, k))
  {
    if k == 0 {
      assert Without(sets, 0) == sets[1..];
    } else {
      var rest := sets[1..];
      PairSumWithout(rest, k - 1);
      RowSumWithout(sets[0], rest, k - 1);
      JaccardSymmetric(sets[0], sets[k]);
      assert Without(sets, k) == [sets[0]] + Without(rest, k - 1);
      assert Without(sets, k)[1..] == Without(rest, k - 1);
    }
  }

  lemma MultisetWithout(sets: seq<set<Value>>, k: nat)
    requires k < |sets|
    ensures multiset(Without(sets, k)) == multiset(sets) - multiset{sets[k]}
  {
    assert sets == sets[..k] + [sets[k]] + sets[k + 1..];
  }

  lemma {:induction false} RowSumPermutes(x: set<Value>, s: seq<set<Value>>, t: seq<set<Value>>)
    requires multiset(s) == multiset(t)
    ensures RowSum(x, s) == RowSum(x, t)
    decreases |s|
  {
    assert |s| == |multiset(s)| == |multiset(t)| == |t|;
    if s != [] {
      assert s[0] in multiset(t);
      var k :| 0 <= k < |t| && t[k] == s[0];
      MultisetWithout(s, 0);
      MultisetWithout(t, k);
      assert Without(s, 0) == s[1..];
      RowSumPermutes(x, s[1..], Without(t, k));
      RowSumWithout(x, t, k);
    }
  }

  lemma {:induction false} PairSumPermutes(s: seq<set<Value>>, t: seq<set<Value>>)
    requires multiset(s) == multiset(t)
    ensures PairSum(s) == PairSum(t)
    decreases |s|
  {
    assert |s| == |multiset(s)| == |multiset(t)| == |t|;
    if s != [] {
      assert s[0] in multiset(t);
      var k :| 0 <= k < |t| && t[k] == s[0];
      MultisetWithout(s, 0);
      MultisetWithout(t, k);
      assert Without(s, 0) == s[1..];
      PairSumPermutes(s[1..], Without(t, k));
      RowSumPermutes(s[0], s[1..], Without(t, k));
      PairSumWithout(t, k);
    }
  }

  lemma SameMembers(s: seq<set<Value>>, t: seq<set<Value>>, k: nat) returns (l: nat)
    requires multiset(s) == multiset(t) && k < |s|
    ensures l < |t| && t[l] == s[k]
  {
    assert s[k] in multiset(t);
    l :| 0 <= l < |t| && t[l] == s[k];
  }

  lemma SameUnionAndIntersection(s: seq<set<Value>>, t: seq<set<Value>>, v: Value)
    requires multiset(s) == multiset(t)
    ensures v in Union(s) ==> v in Union(t)
    ensures (forall k | 0 <= k < |s| :: v in s[k]) ==> forall k | 0 <= k < |t| :: v in t[k]
  {
    InUnion(s, v);
    InUnion(t, v);
    if v in Union(s) {
      var k :| 0 <= k < |s| && v in s[k];
      var l := SameMembers(s, t, k);
    }
    if forall k | 0 <= k < |s| :: v in s[k] {
      forall k | 0 <= k < |t| ensures v in t[k] {
        var l := SameMembers(t, s, k);
      }
    }
  }

  /** The consensus does not depend on the order in which annotators are listed. */
  lemma ConsensusIgnoresOrder(s: seq<set<Value>>, t: seq<set<Value>>, x: ConsensusResult, y: ConsensusResult)
    requires multiset(s) == multiset(t) && IsConsensus(x, s) && IsConsensus(y, t)
    ensures x == y
  {
    assert |s| == |multiset(s)| == |multiset(t)| == |t|;
    PairSumPermutes(s, t);
    forall v ensures (v in x.allValues <==> v in y.allValues) && (v in x.agreedValues <==> v in y.agreedValues) {
      SameUnionAndIntersection(s, t, v);
      SameUnionAndIntersection(t, s, v);
    }
  }
}
