/** Clients of the lazy sequence, the cursor, the substring count and the statistics
    collector, applied to the concrete inputs the repository's own tests and demo use; each
    states the values those programs assert or print, and a few more that follow from the
    library's intended behaviour on the same inputs. */
module Examples {
  import opened Outcomes
  import opened LazySequences
  import opened Generators
  import opened SubstringFrequency
  import opened Statistics

  /** The Fibonacci numbers, with unbounded integers. */
  function Fib(n: nat): int
  {
    if n == 0 then 0 else if n == 1 then 1 else Fib(n - 1) + Fib(n - 2)
  }

  /** The first n Fibonacci numbers. */
  function FibPrefix(n: nat): (s: seq<int>)
    ensures |s| == n && forall j :: 0 <= j < n ==> s[j] == Fib(j)
  {
    seq(n, j requires 0 <= j < n => Fib(j))
  }

  /** The Fibonacci rule: 0 and 1 at the first two indices, and the sum of the two entries
      before the index after them. Get only asks it for the index just past the cache, so
      the out-of-range answer for a shorter cache is never given. Asked for the index just
      past a cache holding the Fibonacci numbers before it, the rule gives the next one. */
  function FibRule(index: nat, cache: seq<int>): (r: Result<int>)
    ensures r.Err? <==> 2 <= index && |cache| < index
    ensures r.Err? ==> r.error == OutOfRange
    ensures |cache| == index && (index >= 2 ==> cache[index - 1] == Fib(index - 1) && cache[index - 2] == Fib(index - 2))
      ==> r == Ok(Fib(index))
  {
    if index == 0 then Ok(0)
    else if index == 1 then Ok(1)
    else if index <= |cache| then Ok(cache[index - 1] + cache[index - 2])
    else Err(OutOfRange)
  }

  /** Reading twelve values through a cursor over the Fibonacci sequence gives the first
      twelve Fibonacci numbers and materializes exactly the twelve indices read. */
  method FibonacciExample() returns (got: seq<int>, materialized: nat)
    ensures got == [0, 1, 1, 2, 3, 5, 8, 13, 21, 34, 55, 89]
    ensures materialized == 12
  {
    var fib := new LazySequence<int>(Some(FibRule));
    var gen := new Generator(fib, 0);
    got := [];
    var i := 0;
    while i < 12
      invariant i <= 12
      invariant gen.owner == fib && gen.index == i
      invariant fib.rule == Some(FibRule) && fib.cache == FibPrefix(i)
      invariant got == FibPrefix(i)
    {
      assert FibPrefix(i) + [Fib(i)] == FibPrefix(i + 1);
      var v := gen.GetNext();
      got := got + [v.value];
      i := i + 1;
    }
    materialized := fib.GetMaterializedCount();
    assert Fib(11) == 89;
    assert got == [Fib(0), Fib(1), Fib(2), Fib(3), Fib(4), Fib(5), Fib(6), Fib(7), Fib(8), Fib(9), Fib(10), Fib(11)];
  }

  /** Reading a rule-free sequence from position 0 while the cursor has a next value yields
      exactly its cached values in order, and then stops. */
  method ReadAll<T(==)>(sequence: LazySequence<T>) returns (values: seq<T>)
    requires sequence.rule.None?
    modifies sequence
    ensures values == old(sequence.cache) && sequence.cache == old(sequence.cache)
  {
    var gen := new Generator(sequence, 0);
    values := [];
    while gen.HasNext()
      invariant gen.owner == sequence && sequence.rule.None?
      invariant sequence.cache == old(sequence.cache)
      invariant gen.index <= |sequence.cache| && values == sequence.cache[..gen.index]
      decreases |sequence.cache| - gen.index
    {
      ghost var i := gen.index;
      var v := gen.GetNext();
      assert sequence.cache[..i + 1] == sequence.cache[..i] + [v.value];
      values := values + [v.value];
    }
    assert sequence.cache[..gen.index] == sequence.cache;
  }

  /** Editing through a cursor standing at position 1 of [10, 20, 30]: insert 15 there,
      append 40, remove 20; reading the materialized entries back gives [10, 15, 30, 40]. */
  method ModifyExample() returns (values: seq<int>)
    ensures values == [10, 15, 30, 40]
  {
    var s := new LazySequence<int>.FromItems([10, 20, 30]);
    var gen := new Generator(s, 1);
    var _ := gen.Insert(15);
    var _ := gen.Append(40);
    assert s.cache == [10, 15, 20, 30, 40];
    RemoveFirstAt(s.cache, 20, 2);
    var _ := gen.Remove(20);
    assert s.cache == [10, 15, 30, 40];
    values := [];
    var i := 0;
    while i < s.GetMaterializedCount()
      invariant i <= |s.cache| && s.cache == [10, 15, 30, 40] && s.rule.None?
      invariant values == s.cache[..i]
    {
      var v := s.Get(i);
      assert s.cache[..i + 1] == s.cache[..i] + [v.value];
      values := values + [v.value];
      i := i + 1;
    }
    assert s.cache[..i] == s.cache;
  }

  /** Mapping squares over [1, 2, 3, 4] materializes nothing in either sequence, and the sum
      of the source is 10, its cache untouched. */
  method MapReduceExample() returns (sum: Result<int>, squares: LazySequence<int>, source: LazySequence<int>)
    ensures sum == Ok(10)
    ensures squares.cache == [] && source.cache == [1, 2, 3, 4]
  {
    source := new LazySequence<int>.FromItems([1, 2, 3, 4]);
    squares := source.Map(x => x * x);
    sum := source.Reduce((acc: int, v: int) => acc + v, 0);
    assert [1, 2, 3, 4] == [1, 2, 3] + [4] && [1, 2, 3] == [1, 2] + [3] && [1, 2] == [1] + [2];
    FoldLeftAppend((acc: int, v: int) => acc + v, 0, [1, 2, 3], [4]);
    FoldLeftAppend((acc: int, v: int) => acc + v, 0, [1, 2], [3]);
    FoldLeftAppend((acc: int, v: int) => acc + v, 0, [1], [2]);
  }

  /** A read of the mapped sequence is f of the source's entry, and it is memoized: after
      reading squares at index 2, the squares of 1, 2 and 3 are cached, the source unchanged. */
  method MapLazinessExample() returns (r: Result<int>, squares: LazySequence<int>, source: LazySequence<int>)
    ensures r == Ok(9)
    ensures squares.cache == [1, 4, 9] && source.cache == [1, 2, 3, 4]
  {
    source := new LazySequence<int>.FromItems([1, 2, 3, 4]);
    var f := (x: int) => x * x;
    squares := source.Map(f);
    MappedValueAt(f, None, [1, 2, 3, 4], [], 2);
    MappedGrowth(f, None, [1, 2, 3, 4], [], 2);
    r := squares.Get(2);
    assert |squares.cache| == 3;
    forall j | 0 <= j < 3 ensures squares.cache[j] == f([1, 2, 3, 4][j]) {
      assert Lift(f, ValueAt(None, [1, 2, 3, 4], j)) == Ok(squares.cache[j]);
    }
  }

  /** The windows of length 2 of "ababa". */
  lemma AbabaWindows()
    ensures Windows("ababa", 2) == ["ab", "ba", "ab", "ba"]
  {
    var s: string := "ababa";
    WindowsAt(s, 2);
    assert s[0..2] == "ab" && s[1..3] == "ba" && s[2..4] == "ab" && s[3..5] == "ba";
  }

  /** Two distinct substrings seen alternately, twice each, are counted twice each. */
  lemma TallyAlternating(x: string, y: string)
    requires x != y
    ensures Count(Tally([x, y, x, y]), x) == 2 && Count(Tally([x, y, x, y]), y) == 2
    ensures Tally([x, y, x, y]).Keys == {x, y}
  {
    var w0: seq<string> := [];
    TallySnoc(w0, x);
    var w1 := w0 + [x];
    TallySnoc(w1, y);
    var w2 := w1 + [y];
    TallySnoc(w2, x);
    var w3 := w2 + [x];
    TallySnoc(w3, y);
    assert [x, y, x, y] == w3 + [y];
  }

  /** "ab" and "ba" each occur twice among the windows of length 2 of "ababa", and nothing
      else occurs. */
  lemma AbabaFrequencies()
    ensures Count(Frequencies("ababa", 2), "ab") == 2 && Count(Frequencies("ababa", 2), "ba") == 2
    ensures Frequencies("ababa", 2).Keys == {"ab", "ba"}
  {
    var ab: string, ba: string := "ab", "ba";
    assert ab != ba by {
      assert ab[0] != ba[0];
    }
    AbabaWindows();
    TallyAlternating(ab, ba);
  }

  /** The substrings of length 2 of "ababa" are "ab" twice and "ba" twice. */
  method SubstringExample() returns (freq: map<string, nat>)
    ensures Count(freq, "ab") == 2 && Count(freq, "ba") == 2
    ensures freq.Keys == {"ab", "ba"}
  {
    var text := new LazySequence<char>.FromItems("ababa");
    var r := CountSubstringFrequencies(text, 2);
    freq := r.value;
    AbabaFrequencies();
  }

  /** 5, 1, 3, 2 and 4 pushed in turn onto an ordered queue give 1, 2, 3, 4, 5. */
  lemma ExampleArranged()
    ensures Arranged([5, 1, 3, 2, 4]) == [1, 2, 3, 4, 5]
  {
    var a0: seq<int32> := [];
    ArrangedSnoc(a0, 5);
    var a1 := a0 + [5];
    assert Arranged(a1) == [5];
    ArrangedSnoc(a1, 1);
    var a2 := a1 + [1];
    assert Arranged(a2) == [1, 5];
    ArrangedSnoc(a2, 3);
    var a3 := a2 + [3];
    assert Arranged(a3) == [1, 3, 5];
    ArrangedSnoc(a3, 2);
    assert InsertSorted([1, 3, 5], 2) == [1, 2, 3, 5];
    var a4 := a3 + [2];
    assert Arranged(a4) == [1, 2, 3, 5];
    ArrangedSnoc(a4, 4);
    assert InsertSorted([1, 2, 3, 5], 4) == [1, 2, 3, 4, 5];
    assert [5, 1, 3, 2, 4] == a4 + [4];
  }

  /** The running median once 5, 1, 3, 2 and 4 have been added is the middle value 3. */
  lemma ExampleMedian(c: StatisticsCollector)
    requires c.Valid() && c.added == [5, 1, 3, 2, 4]
    ensures c.GetMedian() == Some(3.0)
  {
    ExampleArranged();
    assert MedianOf([1, 2, 3, 4, 5]) == Some(3.0);
  }

  /** The mean 3 and the sample variance 2.5 of 5, 1, 3, 2 and 4. */
  lemma ExampleMoments(c: StatisticsCollector)
    requires c.Valid() && c.added == [5, 1, 3, 2, 4]
    ensures c.GetAverage() == 3.0 && c.GetVariance() == Some(2.5)
  {
    var a0: seq<int32> := [];
    SumsSnoc(a0, 5);
    var a1 := a0 + [5];
    SumsSnoc(a1, 1);
    var a2 := a1 + [1];
    SumsSnoc(a2, 3);
    var a3 := a2 + [3];
    SumsSnoc(a3, 2);
    var a4 := a3 + [2];
    SumsSnoc(a4, 4);
    assert c.added == a4 + [4];
    SquaredDeviationsExpand(c.added, 3.0);
    assert Sum(c.added) == 15.0 && SumSquares(c.added) == 55.0;
    assert c.GetAverage() == 15.0 / 5.0;
  }

  /** The least and greatest of 5, 1, 3, 2 and 4. */
  lemma ExampleExtrema(c: StatisticsCollector)
    requires c.Valid() && c.added == [5, 1, 3, 2, 4]
    ensures c.GetMin() == 1 && c.GetMax() == 5
  {
    var lo, hi := c.GetMin(), c.GetMax();
    assert c.added[1] in c.added && c.added[0] in c.added;
    var i :| 0 <= i < 5 && c.added[i] == lo;
    var j :| 0 <= j < 5 && c.added[j] == hi;
  }

  /** Adds the values one after another, in order. */
  method AddAll(c: StatisticsCollector, values: seq<int32>)
    requires c.Valid()
    modifies c
    ensures c.Valid() && c.added == old(c.added) + values
  {
    for i := 0 to |values|
      invariant c.Valid() && c.added == old(c.added) + values[..i]
    {
      c.Add(values[i]);
      assert values[..i + 1] == values[..i] + [values[i]];
    }
    assert values[..|values|] == values;
  }

  /** Adding 5, 1, 3, 2 and 4 gives count 5, minimum 1, maximum 5, median 3, mean 3 and
      sample variance 2.5. */
  method StatisticsExample() returns (count: nat, min: int32, max: int32, median: Option<real>,
                                      average: real, variance: Option<real>)
    ensures count == 5 && min == 1 && max == 5
    ensures median == Some(3.0)
    ensures average == 3.0 && variance == Some(2.5)
  {
    var stats := new StatisticsCollector();
    AddAll(stats, [5, 1, 3, 2, 4]);
    ExampleExtrema(stats);
    ExampleMedian(stats);
    ExampleMoments(stats);
    count, min, max := stats.GetCount(), stats.GetMin(), stats.GetMax();
    median := stats.GetMedian();
    average := stats.GetAverage();
    variance := stats.GetVariance();
  }
}
