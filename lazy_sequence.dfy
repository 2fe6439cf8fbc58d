/** The memoizing lazy sequence: a materialized prefix (the cache) and an optional
    generation rule that computes the entry at an index from everything computed before it. */
module LazySequences {
  import opened Outcomes

  /** A generation rule: from the next index and the prefix materialized so far, the value
      at that index, or the failure the rule raises (a mapped sequence's rule fails when
      the sequence it reads fails). */
  type Rule<!T> = (nat, seq<T>) -> Result<T>

  /** What Get(index) answers for a sequence with this rule and this cache: a cached entry,
      out-of-range without a rule, and otherwise the entry reached by generating the indices
      from |cache| up to index in order, or the first failure of the rule on the way. */
  function ValueAt<T>(rule: Option<Rule<T>>, cache: seq<T>, index: nat): Result<T>
    decreases index + 1 - |cache|
  {
    if index < |cache| then Ok(cache[index])
    else match rule
      case None => Err(OutOfRange)
      case Some(g) =>
        match g(|cache|, cache)
        case Err(e) => Err(e)
        case Ok(v) => ValueAt(rule, cache + [v], index)
  }

  /** The cache after Get(index): grown one index at a time until it covers index or the
      rule fails; unchanged when index is cached or there is no rule. */
  function Grown<T>(rule: Option<Rule<T>>, cache: seq<T>, index: nat): seq<T>
    decreases index + 1 - |cache|
  {
    if index < |cache| || rule.None? then cache
    else match rule.value(|cache|, cache)
      case Err(_) => cache
      case Ok(v) => Grown(rule, cache + [v], index)
  }

  /** Every entry of s from position `from` on is what the rule makes of the entries before it. */
  ghost predicate Generated<T>(rule: Option<Rule<T>>, s: seq<T>, from: nat)
  {
    from <= |s| &&
    forall j :: from <= j < |s| ==> rule.Some? && rule.value(j, s[..j]) == Ok(s[j])
  }

  /** Growing keeps the old prefix, each new entry j equals rule(j, cache[..j]), and a
      cached index or a missing rule generates nothing. */
  lemma {:induction false} GrownExtends<T>(rule: Option<Rule<T>>, cache: seq<T>, index: nat)
    ensures cache <= Grown(rule, cache, index)
    ensures Generated(rule, Grown(rule, cache, index), |cache|)
    ensures index < |cache| || rule.None? ==> Grown(rule, cache, index) == cache
    decreases index + 1 - |cache|
  {
    if index < |cache| || rule.None? {
    } else {
      match rule.value(|cache|, cache)
      case Err(_) =>
      case Ok(v) =>
        var next := cache + [v];
        GrownExtends(rule, next, index);
        var g := Grown(rule, cache, index);
        assert g == Grown(rule, next, index);
        assert g[..|cache|] == cache by {
          assert next[..|cache|] == cache;
        }
        forall j | |cache| <= j < |g|
          ensures rule.Some? && rule.value(j, g[..j]) == Ok(g[j])
        {
          if j == |cache| {
            assert g[j] == next[j] == v;
          }
        }
    }
  }

  /** Get(index) succeeds exactly when the grown cache covers index, and then returns its
      entry at index with the cache grown to max(|cache|, index + 1) entries; a failure
      without a rule is out-of-range and changes nothing, and a failure with a rule is the
      rule's own failure at the first index the grown cache does not cover. */
  lemma {:induction false} GrownOutcome<T>(rule: Option<Rule<T>>, cache: seq<T>, index: nat)
    ensures var g := Grown(rule, cache, index);
      match ValueAt(rule, cache, index)
      case Ok(v) =>
        |g| == (if index < |cache| then |cache| else index + 1) && v == g[index]
      case Err(e) =>
        |g| <= index &&
        (rule.None? ==> e == OutOfRange && g == cache) &&
        (rule.Some? ==> rule.value(|g|, g) == Err(e))
    decreases index + 1 - |cache|
  {
    if index < |cache| || rule.None? {
    } else {
      match rule.value(|cache|, cache)
      case Err(_) =>
      case Ok(v) => GrownOutcome(rule, cache + [v], index);
    }
  }

  /** A repeated Get(index) generates nothing more. */
  lemma {:induction false} GrownIdempotent<T>(rule: Option<Rule<T>>, cache: seq<T>, index: nat)
    ensures Grown(rule, Grown(rule, cache, index), index) == Grown(rule, cache, index)
    ensures ValueAt(rule, Grown(rule, cache, index), index) == ValueAt(rule, cache, index)
  {
    GrownOutcome(rule, cache, index);
    var g := Grown(rule, cache, index);
    if rule.Some? && |g| <= index {
      assert rule.value(|g|, g).Err?;
    }
  }

  /** Materializing never changes what any index reads: after Get(index), every Get(j)
      answers what it would have answered before. */
  lemma {:induction false} ValueAtStable<T>(rule: Option<Rule<T>>, cache: seq<T>, index: nat, j: nat)
    ensures ValueAt(rule, Grown(rule, cache, index), j) == ValueAt(rule, cache, j)
    decreases index + 1 - |cache|
  {
    if index < |cache| || rule.None? {
    } else {
      match rule.value(|cache|, cache)
      case Err(_) =>
      case Ok(v) =>
        ValueAtStable(rule, cache + [v], index, j);
        if j < |cache| {
          assert (cache + [v])[j] == cache[j];
        }
    }
  }

  /** A failing read keeps failing, with the same error, at every later index. */
  lemma {:induction false} ValueAtFailsOnward<T>(rule: Option<Rule<T>>, cache: seq<T>, j: nat, i: nat)
    requires j <= i && ValueAt(rule, cache, j).Err?
    ensures ValueAt(rule, cache, i) == ValueAt(rule, cache, j)
    decreases j + 1 - |cache|
  {
    match rule
    case None =>
    case Some(g) =>
      match g(|cache|, cache)
      case Err(_) =>
      case Ok(v) => ValueAtFailsOnward(rule, cache + [v], j, i);
  }

  /** f applied to a successful read; a failure passes through. */
  function Lift<T, U>(f: T -> U, r: Result<T>): Result<U>
  {
    match r
    case Ok(v) => Ok(f(v))
    case Err(e) => Err(e)
  }

  /** The rule of Map(f): read the source at the requested index and apply f. The source is
      described by its rule and its cache at the time of the call. */
  function MappedRule<T, U(!new)>(f: T -> U, rule: Option<Rule<T>>, cache: seq<T>): (r: Rule<U>)
    ensures forall index: nat, prefix: seq<U> :: r(index, prefix).Err? <==> ValueAt(rule, cache, index).Err?
    ensures forall index: nat, prefix: seq<U> :: r(index, prefix).Err? ==> r(index, prefix).error == ValueAt(rule, cache, index).error
    ensures forall index: nat, prefix: seq<U> :: r(index, prefix).Ok? ==> r(index, prefix).value == f(ValueAt(rule, cache, index).value)
    ensures forall index: nat, prefix: seq<U>, other: seq<U> :: r(index, prefix) == r(index, other)
  {
    (index: nat, prefix: seq<U>) => Lift(f, ValueAt(rule, cache, index))
  }

  /** Every entry of the mapped cache is f of the source's entry at that index. */
  ghost predicate MapsOnto<T, U>(f: T -> U, rule: Option<Rule<T>>, cache: seq<T>, mapped: seq<U>)
  {
    forall j :: 0 <= j < |mapped| ==> Lift(f, ValueAt(rule, cache, j)) == Ok(mapped[j])
  }

  /** A read of the mapped sequence is f of the source's read at the same index, error for error. */
  lemma {:induction false} MappedValueAt<T, U(!new)>(f: T -> U, rule: Option<Rule<T>>, cache: seq<T>, mapped: seq<U>, index: nat)
    requires MapsOnto(f, rule, cache, mapped)
    ensures ValueAt(Some(MappedRule(f, rule, cache)), mapped, index) == Lift(f, ValueAt(rule, cache, index))
    decreases index + 1 - |mapped|
  {
    if index >= |mapped| {
      var m := MappedRule(f, rule, cache);
      match m(|mapped|, mapped)
      case Err(_) =>
        ValueAtFailsOnward(rule, cache, |mapped|, index);
      case Ok(w) =>
        var next := mapped + [w];
        forall j | 0 <= j < |next| ensures Lift(f, ValueAt(rule, cache, j)) == Ok(next[j]) {
          if j < |mapped| {
            assert next[j] == mapped[j];
          }
        }
        MappedValueAt(f, rule, cache, next, index);
    }
  }

  /** Reading the mapped sequence memoizes f of the source's values and nothing else. */
  lemma MappedGrowth<T, U(!new)>(f: T -> U, rule: Option<Rule<T>>, cache: seq<T>, mapped: seq<U>, index: nat)
    requires MapsOnto(f, rule, cache, mapped)
    ensures MapsOnto(f, rule, cache, Grown(Some(MappedRule(f, rule, cache)), mapped, index))
  {
    var m := Some(MappedRule(f, rule, cache));
    GrownExtends(m, mapped, index);
    var g := Grown(m, mapped, index);
    forall j | 0 <= j < |g| ensures Lift(f, ValueAt(rule, cache, j)) == Ok(g[j]) {
      if j < |mapped| {
        assert g[j] == mapped[j];
      } else {
        assert m.value(j, g[..j]) == Ok(g[j]);
      }
    }
  }

  /** Growing to j and then to i >= j is growing to i. */
  lemma {:induction false} GrownCompose<T>(rule: Option<Rule<T>>, cache: seq<T>, j: nat, i: nat)
    requires j <= i
    ensures Grown(rule, Grown(rule, cache, j), i) == Grown(rule, cache, i)
    decreases j + 1 - |cache|
  {
    if j < |cache| || rule.None? {
    } else {
      match rule.value(|cache|, cache)
      case Err(_) =>
      case Ok(v) => GrownCompose(rule, cache + [v], j, i);
    }
  }

  /** The source's cache after it is read at each index from `from` up to `index` in turn,
      stopping at the first read that fails: what a read at `index` of a sequence mapped
      from it does to the source when the mapped cache holds `from` entries. */
  function SourceReads<T>(rule: Option<Rule<T>>, cache: seq<T>, from: nat, index: nat): seq<T>
    decreases index + 1 - from
  {
    if index < from then cache
    else if ValueAt(rule, cache, from).Err? then Grown(rule, cache, from)
    else SourceReads(rule, Grown(rule, cache, from), from + 1, index)
  }

  /** Reading the source at every index the mapped cache lacks, in order, leaves the source's
      cache as one read of the source at `index` would. */
  lemma {:induction false} SourceReadsGrown<T>(rule: Option<Rule<T>>, cache: seq<T>, from: nat, index: nat)
    requires from <= index
    ensures SourceReads(rule, cache, from, index) == Grown(rule, cache, index)
    decreases index + 1 - from
  {
    var g := Grown(rule, cache, from);
    GrownCompose(rule, cache, from, index);
    if ValueAt(rule, cache, from).Err? {
      GrownOutcome(rule, cache, from);
      assert Grown(rule, g, index) == g;
    } else if from < index {
      SourceReadsGrown(rule, g, from + 1, index);
    }
  }

  /** Left fold of f over s, starting from acc. */
  function FoldLeft<A, T>(f: (A, T) -> A, acc: A, s: seq<T>): A
    decreases |s|
  {
    if s == [] then acc else FoldLeft(f, f(acc, s[0]), s[1..])
  }

  /** Folding a concatenation folds the second part from the result of the first. */
  lemma {:induction false} FoldLeftAppend<A, T>(f: (A, T) -> A, acc: A, s: seq<T>, t: seq<T>)
    ensures FoldLeft(f, acc, s + t) == FoldLeft(f, FoldLeft(f, acc, s), t)
    decreases |s|
  {
    if s != [] {
      assert (s + t)[1..] == s[1..] + t;
      FoldLeftAppend(f, f(acc, s[0]), s[1..], t);
    } else {
      assert s + t == t;
    }
  }

  /** s without its first occurrence of v (s itself when v does not occur). */
  function RemoveFirst<T(==)>(s: seq<T>, v: T): seq<T>
    decreases |s|
  {
    if s == [] then []
    else if s[0] == v then s[1..]
    else [s[0]] + RemoveFirst(s[1..], v)
  }

  /** Removing the first occurrence, at position i, keeps everything before and after it in order. */
  lemma {:induction false} RemoveFirstAt<T>(s: seq<T>, v: T, i: nat)
    requires i < |s| && s[i] == v && v !in s[..i]
    ensures RemoveFirst(s, v) == s[..i] + s[i + 1..]
    decreases i
  {
    if i > 0 {
      assert s[0] in s[..i];
      assert v !in s[1..][..i - 1] by {
        assert s[1..][..i - 1] == s[1..i];
      }
      RemoveFirstAt(s[1..], v, i - 1);
      assert s[..i] == [s[0]] + s[1..][..i - 1];
      assert s[i + 1..] == s[1..][i - 1 + 1..];
    }
  }

  /** Without an occurrence of v nothing is removed; with one, exactly one copy of v goes. */
  lemma {:induction false} RemoveFirstCount<T>(s: seq<T>, v: T)
    ensures v !in s ==> RemoveFirst(s, v) == s
    ensures multiset(RemoveFirst(s, v)) == multiset(s) - multiset{v}
    ensures |RemoveFirst(s, v)| == if v in s then |s| - 1 else |s|
    decreases |s|
  {
    if s != [] {
      var t := s[1..];
      assert s == [s[0]] + t;
      assert multiset(s) == multiset{s[0]} + multiset(t);
      RemoveFirstCount(t, v);
      if s[0] != v {
        var r := RemoveFirst(t, v);
        assert RemoveFirst(s, v) == [s[0]] + r;
        assert multiset([s[0]] + r) == multiset{s[0]} + multiset(r);
        assert v in s <==> v in t;
      }
    }
  }

  class LazySequence<T(==)> {
    /** The materialized prefix: one entry per index computed or added so far. */
    var cache: seq<T>
    /** The generation rule, if any; it is fixed when the sequence is built. */
    const rule: Option<Rule<T>>

    /** A sequence with the given rule (none by default) and nothing materialized. */
    constructor (rule: Option<Rule<T>> := None)
      ensures cache == [] && this.rule == rule
    {
      this.rule := rule;
      cache := [];
    }

    /** A rule-free sequence holding exactly the given items. */
    constructor FromItems(items: seq<T>)
      ensures cache == items && rule == None
    {
      rule := None;
      cache := items;
    }

    /** The entry at index, generating the missing indices in ascending order, each from
        the prefix computed so far. */
    method Get(index: nat) returns (r: Result<T>)
      modifies this
      ensures r == ValueAt(rule, old(cache), index)
      ensures cache == Grown(rule, old(cache), index)
      ensures old(cache) <= cache && Generated(rule, cache, |old(cache)|)
      ensures index < |old(cache)| ==> r == Ok(old(cache)[index]) && cache == old(cache)
      ensures rule.None? && |old(cache)| <= index ==> r == Err(OutOfRange) && cache == old(cache)
      ensures r.Ok? ==> |cache| == (if index < |old(cache)| then |old(cache)| else index + 1)
                        && r.value == cache[index]
      ensures r.Err? && rule.Some? ==> |cache| <= index && rule.value(|cache|, cache) == Err(r.error)
    {
      GrownExtends(rule, cache, index);
      GrownOutcome(rule, cache, index);
      if index < |cache| {
        return Ok(cache[index]);
      }
      if rule.None? {
        return Err(OutOfRange);
      }
      var generate := rule.value;
      while |cache| <= index
        invariant ValueAt(rule, cache, index) == ValueAt(rule, old(cache), index)
        invariant Grown(rule, cache, index) == Grown(rule, old(cache), index)
        decreases index + 1 - |cache|
      {
        var next := generate(|cache|, cache);
        if next.Err? {
          return Err(next.error);
        }
        cache := cache + [next.value];
      }
      r := Ok(cache[index]);
    }

    /** The entry at index 0. */
    method GetFirst() returns (r: Result<T>)
      modifies this
      ensures r == ValueAt(rule, old(cache), 0)
      ensures cache == Grown(rule, old(cache), 0)
    {
      r := Get(0);
    }

    /** How many entries are materialized; reading below that count is served from the cache. */
    function GetMaterializedCount(): (n: nat)
      reads this
      ensures n == |cache|
      ensures forall i: nat :: i < n ==> ValueAt(rule, cache, i) == Ok(cache[i])
    {
      |cache|
    }

    /** Whether a rule is attached; without one, every index past the cache is out of range. */
    function HasGenerator(): (b: bool)
      reads this
      ensures b <==> rule.Some?
      ensures !b ==> forall i: nat :: |cache| <= i ==> ValueAt(rule, cache, i) == Err(OutOfRange)
    {
      rule.Some?
    }

    /** Adds value at the end of the materialized prefix. */
    method Append(value: T)
      modifies this
      ensures cache == old(cache) + [value]
    {
      cache := cache + [value];
    }

    /** Inserts value at position index of the materialized prefix; an index past its end
        is out of range and changes nothing. */
    method InsertAt(value: T, index: nat) returns (r: Outcome)
      modifies this
      ensures index <= |old(cache)| ==> r == Pass && cache == old(cache)[..index] + [value] + old(cache)[index..]
      ensures |old(cache)| < index ==> r == Fail(OutOfRange) && cache == old(cache)
    {
      if index > |cache| {
        return Fail(OutOfRange);
      }
      cache := cache[..index] + [value] + cache[index..];
      r := Pass;
    }

    /** Removes the first materialized entry equal to value and reports whether there was one. */
    method RemoveValue(value: T) returns (removed: bool)
      modifies this
      ensures removed <==> value in old(cache)
      ensures cache == RemoveFirst(old(cache), value)
    {
      var i := 0;
      while i < |cache| && cache[i] != value
        invariant 0 <= i <= |cache|
        invariant value !in cache[..i]
      {
        assert cache[..i + 1] == cache[..i] + [cache[i]];
        i := i + 1;
      }
      if i < |cache| {
        RemoveFirstAt(cache, value, i);
        cache := cache[..i] + cache[i + 1..];
        removed := true;
      } else {
        assert cache[..i] == cache;
        RemoveFirstCount(cache, value);
        removed := false;
      }
    }

    /** Appends the other sequence's materialized prefix. */
    method Concat(other: LazySequence<T>)
      modifies this
      ensures cache == old(cache) + old(other.cache)
    {
      cache := cache + other.cache;
    }

    /** A new sequence with nothing materialized whose rule reads this sequence and applies f.
        Nothing is materialized here, in either sequence. */
    method Map<U(==,!new)>(f: T -> U) returns (mapped: LazySequence<U>)
      ensures fresh(mapped)
      ensures mapped.cache == [] && mapped.rule == Some(MappedRule(f, rule, cache))
    {
      mapped := new LazySequence(Some(MappedRule(f, rule, cache)));
    }

    /** Left fold of f over the materialized prefix; refused while a rule is attached. */
    method Reduce<A>(f: (A, T) -> A, initial: A) returns (r: Result<A>)
      ensures rule.Some? ==> r == Err(IllegalState)
      ensures rule.None? ==> r == Ok(FoldLeft(f, initial, cache))
    {
      if rule.Some? {
        return Err(IllegalState);
      }
      var acc := initial;
      var i := 0;
      while i < |cache|
        invariant 0 <= i <= |cache|
        invariant acc == FoldLeft(f, initial, cache[..i])
      {
        assert cache[..i + 1] == cache[..i] + [cache[i]];
        FoldLeftAppend(f, initial, cache[..i], [cache[i]]);
        acc := f(acc, cache[i]);
        i := i + 1;
      }
      assert cache[..i] == cache;
      r := Ok(acc);
    }
  }
}
