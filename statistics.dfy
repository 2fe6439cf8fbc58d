/** The online statistics aggregator over a stream of 32-bit integers: count, running sum,
    Welford mean and squared-deviation accumulator, extrema, and the two-heap running median. */
module Statistics {
  import opened Outcomes

  /** The element type: a C++ int. */
  newtype int32 = x: int | -0x8000_0000 <= x < 0x8000_0000

  /** numeric_limits<int>::max() and numeric_limits<int>::lowest(), the initial extrema. */
  const IntMax: int32 := 0x7fff_ffff
  const IntLowest: int32 := -0x8000_0000

  ghost predicate Sorted(s: seq<int32>)
  {
    forall i, j :: 0 <= i < j < |s| ==> s[i] <= s[j]
  }

  /** A push onto a priority queue held in ascending order: x goes before the first entry
      that is not smaller than it, and the queue grows by one entry. */
  function InsertSorted(s: seq<int32>, x: int32): (r: seq<int32>)
    ensures |r| == |s| + 1
    decreases |s|
  {
    if s == [] then [x]
    else if x <= s[0] then [x] + s
    else [s[0]] + InsertSorted(s[1..], x)
  }

  /** A push adds exactly one copy of x. */
  lemma {:induction false} InsertSortedCount(s: seq<int32>, x: int32)
    ensures multiset(InsertSorted(s, x)) == multiset(s) + multiset{x}
    decreases |s|
  {
    if s != [] && x > s[0] {
      InsertSortedCount(s[1..], x);
      assert s == [s[0]] + s[1..];
    }
  }

  /** The entries after a push are x and the entries before it. */
  lemma InsertSortedMembers(s: seq<int32>, x: int32)
    ensures forall y :: y in InsertSorted(s, x) <==> y == x || y in s
  {
    InsertSortedCount(s, x);
    forall y ensures y in InsertSorted(s, x) <==> y == x || y in s {
      assert y in InsertSorted(s, x) <==> y in multiset(InsertSorted(s, x));
      assert y in s <==> y in multiset(s);
    }
  }

  /** A value no greater than any entry of an ordered sequence may go in front of it. */
  lemma SortedPrepend(h: int32, t: seq<int32>)
    requires Sorted(t) && forall y :: y in t ==> h <= y
    ensures Sorted([h] + t)
  {
    var r := [h] + t;
    forall i, j | 0 <= i < j < |r| ensures r[i] <= r[j] {
      assert r[j] == t[j - 1];
      if i == 0 {
        assert t[j - 1] in t;
      } else {
        assert r[i] == t[i - 1];
      }
    }
  }

  /** A push keeps the queue ordered and adds exactly one copy of x. */
  lemma {:induction false} InsertSortedSpec(s: seq<int32>, x: int32)
    requires Sorted(s)
    ensures Sorted(InsertSorted(s, x))
    ensures multiset(InsertSorted(s, x)) == multiset(s) + multiset{x}
    ensures |InsertSorted(s, x)| == |s| + 1
    decreases |s|
  {
    InsertSortedCount(s, x);
    if s == [] {
      assert Sorted([x]);
    } else if x <= s[0] {
      forall y | y in s ensures x <= y {
        var i :| 0 <= i < |s| && s[i] == y;
        assert s[0] <= s[i];
      }
      SortedPrepend(x, s);
    } else {
      var tail := s[1..];
      assert Sorted(tail) by {
        forall i, j | 0 <= i < j < |tail| ensures tail[i] <= tail[j] {
          assert tail[i] == s[i + 1] && tail[j] == s[j + 1];
        }
      }
      InsertSortedSpec(tail, x);
      InsertSortedMembers(tail, x);
      forall y | y in InsertSorted(tail, x) ensures s[0] <= y {
        if y != x {
          var i :| 0 <= i < |tail| && tail[i] == y;
          assert s[0] <= s[i + 1];
        }
      }
      SortedPrepend(s[0], InsertSorted(tail, x));
    }
  }

  /** Any slice of an ordered sequence is ordered. */
  lemma SortedSlice(s: seq<int32>, i: nat, j: nat)
    requires Sorted(s) && i <= j <= |s|
    ensures Sorted(s[i..j])
  {
    var t := s[i..j];
    forall a, b | 0 <= a < b < |t| ensures t[a] <= t[b] {
      assert t[a] == s[i + a] && t[b] == s[i + b];
    }
  }

  /** The values of s in ascending order: each pushed in turn onto an ordered queue. */
  ghost function Arranged(s: seq<int32>): seq<int32>
  {
    if s == [] then [] else InsertSorted(Arranged(s[..|s| - 1]), s[|s| - 1])
  }

  /** The arrangement is ordered and holds exactly the values of s. */
  lemma {:induction false} ArrangedSpec(s: seq<int32>)
    ensures Sorted(Arranged(s))
    ensures multiset(Arranged(s)) == multiset(s)
    ensures |Arranged(s)| == |s|
    decreases |s|
  {
    if s != [] {
      var init, last := s[..|s| - 1], s[|s| - 1];
      ArrangedSpec(init);
      InsertSortedSpec(Arranged(init), last);
      assert s == init + [last];
      assert multiset(s) == multiset(init) + multiset{last};
    }
  }

  /** One more value is pushed onto the arrangement of the earlier ones. */
  lemma ArrangedSnoc(s: seq<int32>, value: int32)
    ensures Arranged(s + [value]) == InsertSorted(Arranged(s), value)
  {
    assert (s + [value])[..|s|] == s;
  }

  /** The front of an ordered sequence is no greater than any value it holds. */
  lemma FrontIsLeast(a: seq<int32>, y: int32)
    requires Sorted(a) && y in multiset(a)
    ensures a[0] <= y
  {
    var i :| 0 <= i < |a| && a[i] == y;
  }

  /** Dropping the front entry drops one copy of it. */
  lemma TailMultiset(a: seq<int32>)
    requires a != []
    ensures multiset(a[1..]) == multiset(a) - multiset{a[0]}
  {
    assert a == [a[0]] + a[1..];
  }

  /** The ordered arrangement of a multiset is unique. */
  lemma {:induction false} SortedUnique(a: seq<int32>, b: seq<int32>)
    requires Sorted(a) && Sorted(b) && multiset(a) == multiset(b)
    ensures a == b
    decreases |a|
  {
    assert |a| == |multiset(a)| == |multiset(b)| == |b|;
    if a != [] {
      var h, ta, tb := a[0], a[1..], b[1..];
      assert a == [h] + ta;
      assert b[0] == h by {
        FrontIsLeast(a, b[0]);
        FrontIsLeast(b, a[0]);
      }
      assert b == [h] + tb;
      assert multiset(ta) == multiset(tb) by {
        TailMultiset(a);
        TailMultiset(b);
      }
      assert Sorted(ta) && Sorted(tb) by {
        SortedSlice(a, 1, |a|);
        SortedSlice(b, 1, |b|);
      }
      SortedUnique(ta, tb);
    }
  }

  /** The median of an ordered sequence: its middle entry, or the mean of its two middle entries. */
  function MedianOf(s: seq<int32>): Option<real>
  {
    if |s| == 0 then None
    else if |s| % 2 == 1 then Some(s[|s| / 2] as real)
    else Some((s[|s| / 2 - 1] as real + s[|s| / 2] as real) / 2.0)
  }

  /** The median of two balanced halves laid end to end comes from the last entry of the
      first half and, when the halves are the same size, the first entry of the second. */
  lemma MedianOfHalves(lower: seq<int32>, upper: seq<int32>)
    requires lower != [] && (|lower| == |upper| || |lower| == |upper| + 1)
    ensures MedianOf(lower + upper) ==
      if |lower| == |upper| then Some((lower[|lower| - 1] as real + upper[0] as real) / 2.0)
      else Some(lower[|lower| - 1] as real)
  {
    var s := lower + upper;
    if |lower| == |upper| {
      assert |s| / 2 == |lower| && |s| % 2 == 0;
      assert s[|s| / 2 - 1] == lower[|lower| - 1] && s[|s| / 2] == upper[0];
    } else {
      assert |s| / 2 == |lower| - 1 && |s| % 2 == 1;
      assert s[|s| / 2] == lower[|lower| - 1];
    }
  }

  /** The sum of s, in exact arithmetic. */
  ghost function Sum(s: seq<int32>): real
  {
    if s == [] then 0.0 else Sum(s[..|s| - 1]) + s[|s| - 1] as real
  }

  /** The sum of the squares of s, in exact arithmetic. */
  ghost function SumSquares(s: seq<int32>): real
  {
    if s == [] then 0.0 else SumSquares(s[..|s| - 1]) + s[|s| - 1] as real * s[|s| - 1] as real
  }

  /** The sum of the squared deviations of s from mu. */
  ghost function SquaredDeviations(s: seq<int32>, mu: real): real
  {
    if s == [] then 0.0
    else SquaredDeviations(s[..|s| - 1], mu) + (s[|s| - 1] as real - mu) * (s[|s| - 1] as real - mu)
  }

  /** The squared deviations expand into the sum of squares, the sum and the count. */
  lemma {:induction false} SquaredDeviationsExpand(s: seq<int32>, mu: real)
    ensures SquaredDeviations(s, mu) == SumSquares(s) - 2.0 * mu * Sum(s) + |s| as real * mu * mu
    decreases |s|
  {
    if s != [] {
      var init := s[..|s| - 1];
      SquaredDeviationsExpand(init, mu);
      ExpandStep(SquaredDeviations(init, mu), SumSquares(init), Sum(init), |init| as real, s[|s| - 1] as real, mu);
    }
  }

  /** The inductive step of the expansion, over plain numbers. */
  lemma ExpandStep(sd: real, q: real, a: real, k: real, x: real, mu: real)
    requires sd == q - 2.0 * mu * a + k * mu * mu
    ensures sd + (x - mu) * (x - mu) == (q + x * x) - 2.0 * mu * (a + x) + (k + 1.0) * mu * mu
  {
    assert (x - mu) * (x - mu) == x * x - 2.0 * mu * x + mu * mu;
    assert 2.0 * mu * (a + x) == 2.0 * mu * a + 2.0 * mu * x;
    assert (k + 1.0) * mu * mu == k * mu * mu + mu * mu;
  }

  /** What Welford's accumulators hold for values with sum s and sum of squares q: mean
      times the count is the sum, and m2 is the sum of squares less mean times the sum (that
      is, the sum of squared deviations from the mean). Before any value both sums are 0 and
      so is m2. */
  ghost predicate WelfordHolds(n: nat, s: real, q: real, mean: real, m2: real)
  {
    mean * n as real == s && m2 == q - mean * s
  }

  /** The algebra behind one Welford step, written with v - mean as e times the new count. */
  lemma WelfordAlgebra(mean: real, e: real, k: real, q: real)
    ensures var v := mean + e * (k + 1.0);
      (mean + e) * (k + 1.0) == mean * k + v &&
      (q - mean * (mean * k)) + (v - mean) * (v - (mean + e)) == (q + v * v) - (mean + e) * (mean * k + v)
  {
  }

  /** One step of Welford's update, in exact arithmetic, keeps the accumulators what they
      should be for one more value. */
  lemma WelfordStep(n: nat, s: real, q: real, mean: real, m2: real, v: real,
                    n': nat, s': real, q': real, mean': real, m2': real)
    requires WelfordHolds(n, s, q, mean, m2)
    requires n' == n + 1 && s' == s + v && q' == q + v * v
    requires mean' == mean + (v - mean) / n' as real
    requires m2' == m2 + (v - mean) * (v - mean')
    ensures WelfordHolds(n', s', q', mean', m2')
  {
    var big := n' as real;
    var e := (v - mean) / big;
    assert e * big == v - mean;
    assert v == mean + e * (n as real + 1.0);
    WelfordAlgebra(mean, e, n as real, q);
  }

  /** A mean recovers from the sum it was multiplied back into. */
  lemma MeanOfSum(mean: real, k: real, s: real)
    requires k > 0.0 && mean * k == s
    ensures mean == s / k
  {
  }

  /** Around the mean, the squared deviations are the sum of squares less mean times the sum. */
  lemma CenteredSquares(mean: real, k: real, q: real)
    ensures q - 2.0 * mean * (mean * k) + k * mean * mean == q - mean * (mean * k)
  {
  }

  lemma SumsSnoc(before: seq<int32>, value: int32)
    ensures Sum(before + [value]) == Sum(before) + value as real
    ensures SumSquares(before + [value]) == SumSquares(before) + value as real * value as real
  {
    assert (before + [value])[..|before|] == before;
  }

  /** The two heaps laid end to end are the values added in ascending order, the lower
      one holding the extra value when the count is odd. */
  ghost predicate Balanced(lower: seq<int32>, upper: seq<int32>, added: seq<int32>)
  {
    (|lower| == |upper| || |lower| == |upper| + 1) &&
    lower + upper == Arranged(added)
  }

  /** The extrema are the least and greatest values added, or the sentinels before any. */
  ghost predicate Bounded(added: seq<int32>, minVal: int32, maxVal: int32)
  {
    (added == [] ==> minVal == IntMax && maxVal == IntLowest) &&
    (added != [] ==> minVal in added && maxVal in added &&
                     forall x :: x in added ==> minVal <= x <= maxVal)
  }

  /** The count, the running sum and Welford's accumulators agree with the values added. */
  ghost predicate Moments(count: nat, sum: real, mean: real, m2: real, added: seq<int32>)
  {
    count == |added| &&
    sum == Sum(added) &&
    WelfordHolds(count, sum, SumSquares(added), mean, m2)
  }

  /** Adding one value with Welford's update keeps the moments. */
  lemma MomentsStep(count: nat, sum: real, mean: real, m2: real, added: seq<int32>, value: int32,
                    count': nat, sum': real, mean': real, m2': real)
    requires Moments(count, sum, mean, m2, added)
    requires count' == count + 1 && sum' == sum + value as real
    requires mean' == mean + (value as real - mean) / count' as real
    requires m2' == m2 + (value as real - mean) * (value as real - mean')
    ensures Moments(count', sum', mean', m2', added + [value])
  {
    SumsSnoc(added, value);
    WelfordStep(count, sum, SumSquares(added), mean, m2, value as real,
                count', sum', SumSquares(added + [value]), mean', m2');
  }

  /** Welford's second accumulator is the sum of squared deviations from the mean. */
  lemma SecondMoment(count: nat, sum: real, mean: real, m2: real, added: seq<int32>)
    requires Moments(count, sum, mean, m2, added) && count > 0
    ensures mean == sum / count as real
    ensures m2 == SquaredDeviations(added, mean)
  {
    var k, q := |added| as real, SumSquares(added);
    assert mean * k == sum && m2 == q - mean * sum;
    SquaredDeviationsExpand(added, mean);
    CenteredSquares(mean, k, q);
    MeanOfSum(mean, k, sum);
  }

  /** The extrema half of Add: a value below the minimum or above the maximum replaces it. */
  method UpdateExtrema(minVal: int32, maxVal: int32, value: int32, ghost added: seq<int32>)
    returns (minVal': int32, maxVal': int32)
    requires Bounded(added, minVal, maxVal)
    ensures minVal' == if value < minVal then value else minVal
    ensures maxVal' == if value > maxVal then value else maxVal
    ensures Bounded(added + [value], minVal', maxVal')
  {
    minVal', maxVal' := minVal, maxVal;
    if value < minVal' {
      minVal' := value;
    }
    if value > maxVal' {
      maxVal' := value;
    }
  }

  /** The moment half of Add: one step of Welford's update of the running mean and of the
      sum of squared differences from it, alongside the count and the sum. */
  method WelfordUpdate(count: nat, sum: real, mean: real, m2: real, value: int32, ghost added: seq<int32>)
    returns (count': nat, sum': real, mean': real, m2': real)
    requires Moments(count, sum, mean, m2, added)
    ensures count' == count + 1
    ensures Moments(count', sum', mean', m2', added + [value])
  {
    count' := count + 1;
    var dv := value as real;
    sum' := sum + dv;
    var delta := dv - mean;
    mean' := mean + delta / count' as real;
    var delta2 := dv - mean';
    m2' := m2 + delta * delta2;
    MomentsStep(count, sum, mean, m2, added, value, count', sum', mean', m2');
  }

  /** The heap half of Add: push value onto the heap it belongs to (the lower one when it
      is no greater than the lower top), then move one top across if the lower heap has
      two extra values or the upper heap has more. */
  method PushBalanced(lower: seq<int32>, upper: seq<int32>, value: int32, ghost added: seq<int32>)
    returns (l: seq<int32>, u: seq<int32>)
    requires Balanced(lower, upper, added)
    ensures Balanced(l, u, added + [value])
  {
    ArrangedSpec(added);
    ArrangedSnoc(added, value);
    InsertSortedSpec(lower + upper, value);
    l, u := lower, upper;
    if l == [] || value <= l[|l| - 1] {
      PushLower(l, u, value);
      l := InsertSorted(l, value);
    } else {
      assert (lower + upper)[..|lower|] == lower;
      SortedSlice(lower + upper, 0, |lower|);
      PushUpper(l, u, value);
      u := InsertSorted(u, value);
    }
    if |l| > |u| + 1 {
      MoveLowerTop(l, u);
      u := InsertSorted(u, l[|l| - 1]);
      l := l[..|l| - 1];
    } else if |u| > |l| {
      MoveUpperTop(l, u);
      l := InsertSorted(l, u[0]);
      u := u[1..];
    }
  }

  class StatisticsCollector {
    var count: nat
    var sum: real
    var mean: real
    var m2: real
    var minVal: int32
    var maxVal: int32
    /** The max-heap of the smaller half, held in ascending order: its top is the last entry. */
    var lower: seq<int32>
    /** The min-heap of the larger half, held in ascending order: its top is the first entry. */
    var upper: seq<int32>
    /** Every value added so far, in order. */
    ghost var added: seq<int32>

    ghost predicate Valid()
      reads this
    {
      Balanced(lower, upper, added) &&
      Bounded(added, minVal, maxVal) &&
      Moments(count, sum, mean, m2, added)
    }

    /** An empty collector: no values, the extrema at their sentinels. */
    constructor ()
      ensures Valid() && added == [] && lower == [] && upper == []
      ensures count == 0 && minVal == IntMax && maxVal == IntLowest
    {
      count, sum, mean, m2 := 0, 0.0, 0.0, 0.0;
      minVal, maxVal := IntMax, IntLowest;
      lower, upper := [], [];
      added := [];
    }

    /** Adds one value and updates every statistic: the count, the sum and Welford's
        accumulators, the extrema, and the two heaps. */
    method Add(value: int32)
      requires Valid()
      modifies this
      ensures Valid()
      ensures added == old(added) + [value]
      ensures count == old(count) + 1
      ensures minVal == (if value < old(minVal) then value else old(minVal))
      ensures maxVal == (if value > old(maxVal) then value else old(maxVal))
    {
      var count', sum', mean', m2' := WelfordUpdate(count, sum, mean, m2, value, added);
      var minVal', maxVal' := UpdateExtrema(minVal, maxVal, value, added);
      var lower', upper' := PushBalanced(lower, upper, value, added);
      count, sum, mean, m2, minVal, maxVal, lower, upper, added :=
        count', sum', mean', m2', minVal', maxVal', lower', upper', added + [value];
    }

    function GetCount(): (n: nat)
      reads this
      requires Valid()
      ensures n == |added|
    {
      count
    }

    /** The mean of the values added, or 0 when there are none. */
    function GetAverage(): (r: real)
      reads this
      requires Valid()
      ensures count == 0 ==> r == 0.0
      ensures count > 0 ==> r == Sum(added) / |added| as real
    {
      if count > 0 then sum / count as real else 0.0
    }

    /** The sample variance (squared deviations from the mean over count - 1); absent for
        fewer than two values. */
    function GetVariance(): (r: Option<real>)
      reads this
      requires Valid()
      ensures r.None? <==> count < 2
      ensures r.Some? ==> r.value == SquaredDeviations(added, GetAverage()) / (|added| - 1) as real
    {
      if count > 1 then
        SecondMoment(count, sum, mean, m2, added);
        Some(m2 / (count - 1) as real)
      else None
    }

    /** Whether a standard deviation is reported: exactly when the variance is. */
    function HasStdDev(): (b: bool)
      reads this
      requires Valid()
      ensures b <==> GetVariance().Some?
      ensures b <==> count >= 2
    {
      GetVariance().Some?
    }

    /** The least value added; the sentinel IntMax before any. */
    function GetMin(): (r: int32)
      reads this
      requires Valid()
      ensures count == 0 ==> r == IntMax
      ensures count > 0 ==> r in added && forall x :: x in added ==> r <= x
    {
      minVal
    }

    /** The greatest value added; the sentinel IntLowest before any. */
    function GetMax(): (r: int32)
      reads this
      requires Valid()
      ensures count == 0 ==> r == IntLowest
      ensures count > 0 ==> r in added && forall x :: x in added ==> x <= r
    {
      maxVal
    }

    /** The running median from the heap tops: absent when nothing was added, the mean of
        both tops when the heaps are the same size, and the lower top otherwise. It is the
        median of the two halves laid end to end. */
    function GetMedian(): (m: Option<real>)
      reads this
      requires Valid()
      ensures m.None? <==> count == 0
      ensures m == MedianOf(Arranged(added))
    {
      ArrangedSpec(added);
      if count == 0 then None
      else
        MedianOfHalves(lower, upper);
        if |lower| == |upper| then Some((lower[|lower| - 1] as real + upper[0] as real) / 2.0)
      else Some(lower[|lower| - 1] as real)
    }
  }

  /** One step of a push onto an ordered queue whose front entry is h. */
  lemma InsertSortedCons(h: int32, t: seq<int32>, x: int32)
    ensures InsertSorted([h] + t, x) == if x <= h then [x] + ([h] + t) else [h] + InsertSorted(t, x)
  {
    assert ([h] + t)[0] == h && ([h] + t)[1..] == t;
  }

  /** Pushing onto the lower heap a value no greater than its top, or onto an empty lower
      heap (when the upper one is empty too), is pushing onto the whole arrangement. */
  lemma {:induction false} PushLower(lower: seq<int32>, upper: seq<int32>, value: int32)
    requires lower == [] ==> upper == []
    requires lower == [] || value <= lower[|lower| - 1]
    ensures InsertSorted(lower, value) + upper == InsertSorted(lower + upper, value)
    decreases |lower|
  {
    if lower == [] {
      assert lower + upper == [];
    } else {
      var h, t := lower[0], lower[1..];
      assert lower == [h] + t;
      assert lower + upper == [h] + (t + upper);
      if value <= h {
        assert InsertSorted(lower, value) == [value] + lower by {
          InsertSortedCons(h, t, value);
        }
        assert InsertSorted(lower + upper, value) == [value] + (lower + upper) by {
          InsertSortedCons(h, t + upper, value);
        }
        assert ([value] + lower) + upper == [value] + (lower + upper);
      } else {
        assert t != [] && t[|t| - 1] == lower[|lower| - 1];
        PushLower(t, upper, value);
        assert InsertSorted(lower, value) == [h] + InsertSorted(t, value) by {
          InsertSortedCons(h, t, value);
        }
        assert InsertSorted(lower + upper, value) == [h] + InsertSorted(t + upper, value) by {
          InsertSortedCons(h, t + upper, value);
        }
        assert ([h] + InsertSorted(t, value)) + upper == [h] + (InsertSorted(t, value) + upper);
      }
    }
  }

  /** Pushing onto the upper heap a value greater than the lower top is pushing onto the
      whole arrangement. */
  lemma {:induction false} PushUpper(lower: seq<int32>, upper: seq<int32>, value: int32)
    requires Sorted(lower) && lower != [] && value > lower[|lower| - 1]
    ensures lower + InsertSorted(upper, value) == InsertSorted(lower + upper, value)
    decreases |lower|
  {
    var h, t := lower[0], lower[1..];
    assert lower == [h] + t;
    assert InsertSorted(lower + upper, value) == [h] + InsertSorted(t + upper, value) by {
      assert h <= lower[|lower| - 1];
      assert lower + upper == [h] + (t + upper);
      InsertSortedCons(h, t + upper, value);
    }
    assert lower + InsertSorted(upper, value) == [h] + (t + InsertSorted(upper, value));
    if t != [] {
      assert Sorted(t) && t[|t| - 1] == lower[|lower| - 1] by {
        SortedSlice(lower, 1, |lower|);
      }
      PushUpper(t, upper, value);
    }
  }

  /** Moving the lower top onto the upper heap leaves the arrangement as it was. */
  lemma MoveLowerTop(lower: seq<int32>, upper: seq<int32>)
    requires lower != [] && Sorted(lower + upper)
    ensures lower[..|lower| - 1] + InsertSorted(upper, lower[|lower| - 1]) == lower + upper
  {
    var top := lower[|lower| - 1];
    if upper != [] {
      assert (lower + upper)[|lower| - 1] <= (lower + upper)[|lower|];
    }
    assert lower == lower[..|lower| - 1] + [top];
  }

  /** A push of a value no smaller than every entry lands at the end. */
  lemma {:induction false} InsertSortedAtEnd(s: seq<int32>, x: int32)
    requires Sorted(s + [x])
    ensures InsertSorted(s, x) == s + [x]
    decreases |s|
  {
    if s != [] {
      var t := s[1..];
      if x <= s[0] {
        forall i | 0 <= i < |s| ensures s[i] == x {
          assert (s + [x])[0] <= (s + [x])[i] <= (s + [x])[|s|];
        }
        assert [x] + s == s + [x];
      } else {
        assert (s + [x])[1..] == t + [x];
        SortedSlice(s + [x], 1, |s| + 1);
        InsertSortedAtEnd(t, x);
        assert s == [s[0]] + t;
      }
    }
  }

  /** Moving the upper top onto the lower heap leaves the arrangement as it was. */
  lemma MoveUpperTop(lower: seq<int32>, upper: seq<int32>)
    requires upper != [] && Sorted(lower + upper)
    ensures InsertSorted(lower, upper[0]) + upper[1..] == lower + upper
  {
    assert (lower + upper)[..|lower| + 1] == lower + [upper[0]];
    SortedSlice(lower + upper, 0, |lower| + 1);
    InsertSortedAtEnd(lower, upper[0]);
    assert upper == [upper[0]] + upper[1..];
  }

  /** The heap invariants: the sizes differ by at most one in favour of the lower heap; each
      heap is ordered and no entry of the lower one exceeds any of the upper one; and the
      two together hold exactly the values added. */
  lemma HeapInvariants(c: StatisticsCollector)
    requires c.Valid()
    ensures |c.lower| == |c.upper| || |c.lower| == |c.upper| + 1
    ensures Sorted(c.lower) && Sorted(c.upper)
    ensures forall i, j :: 0 <= i < |c.lower| && 0 <= j < |c.upper| ==> c.lower[i] <= c.upper[j]
    ensures multiset(c.lower) + multiset(c.upper) == multiset(c.added)
  {
    var s := c.lower + c.upper;
    ArrangedSpec(c.added);
    assert s[..|c.lower|] == c.lower && s[|c.lower|..] == c.upper;
    SortedSlice(s, 0, |c.lower|);
    SortedSlice(s, |c.lower|, |s|);
    forall i, j | 0 <= i < |c.lower| && 0 <= j < |c.upper| ensures c.lower[i] <= c.upper[j] {
      assert s[i] == c.lower[i] && s[|c.lower| + j] == c.upper[j];
    }
  }

  /** The running median is the median of the values added: the middle of their ordered
      arrangement, whatever order they arrived in. */
  lemma MedianOfAdded(c: StatisticsCollector, s: seq<int32>)
    requires c.Valid() && Sorted(s) && multiset(s) == multiset(c.added)
    ensures c.GetMedian() == MedianOf(s)
  {
    ArrangedSpec(c.added);
    SortedUnique(c.lower + c.upper, s);
  }
}
