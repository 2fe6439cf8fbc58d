/** The cursor: a read position over one lazy sequence, which it reads forward and edits
    through the sequence's own operations. */
module Generators {
  import opened Outcomes
  import opened LazySequences

  class Generator<T(==)> {
    /** The sequence this cursor reads; never absent once built. */
    const owner: LazySequence<T>
    /** The next index to read; it may lie past the materialized count. */
    var index: nat

    /** A cursor over owner, positioned at startIndex (0 by default). */
    constructor (owner: LazySequence<T>, startIndex: nat := 0)
      ensures this.owner == owner && index == startIndex
    {
      this.owner := owner;
      index := startIndex;
    }

    /** Building a cursor fails with invalid-argument when the owner is absent. */
    static method Create(owner: LazySequence?<T>, startIndex: nat := 0) returns (r: Result<Generator<T>>)
      ensures owner == null ==> r == Err(InvalidArgument)
      ensures owner != null ==> r.Ok? && fresh(r.value) && r.value.owner == owner && r.value.index == startIndex
    {
      if owner == null {
        return Err(InvalidArgument);
      }
      var g := new Generator(owner, startIndex);
      r := Ok(g);
    }

    /** Reads the owner at the current index, then moves one step forward; a failed read
        leaves the position where it was. */
    method GetNext() returns (r: Result<T>)
      modifies this, owner
      ensures r == ValueAt(owner.rule, old(owner.cache), old(index))
      ensures owner.cache == Grown(owner.rule, old(owner.cache), old(index))
      ensures index == if r.Ok? then old(index) + 1 else old(index)
    {
      r := owner.Get(index);
      if r.Ok? {
        index := index + 1;
      }
    }

    /** Whether a next value may be read: always with a rule attached, and otherwise exactly
        when the read at the current index is served from the cache. */
    function HasNext(): (b: bool)
      reads this, owner
      ensures owner.rule.Some? ==> b
      ensures owner.rule.None? ==> (b <==> ValueAt(owner.rule, owner.cache, index).Ok?)
      ensures owner.rule.None? ==> (b <==> index < |owner.cache|)
    {
      if owner.HasGenerator() then true else index < owner.GetMaterializedCount()
    }

    /** GetNext when HasNext holds; otherwise no value, and nothing changes. */
    method TryGetNext() returns (r: Result<Option<T>>)
      modifies this, owner
      ensures !old(HasNext()) ==> r == Ok(None) && index == old(index) && owner.cache == old(owner.cache)
      ensures old(HasNext()) ==>
        var v := ValueAt(owner.rule, old(owner.cache), old(index));
        r == (if v.Ok? then Ok(Some(v.value)) else Err(v.error)) &&
        owner.cache == Grown(owner.rule, old(owner.cache), old(index)) &&
        index == (if v.Ok? then old(index) + 1 else old(index))
    {
      if !HasNext() {
        return Ok(None);
      }
      var v := GetNext();
      if v.Ok? {
        r := Ok(Some(v.value));
      } else {
        r := Err(v.error);
      }
    }

    /** Appends item to the owner; the position is unchanged and the same cursor is returned. */
    method Append(item: T) returns (self: Generator<T>)
      modifies owner
      ensures self == this && index == old(index)
      ensures owner.cache == old(owner.cache) + [item]
    {
      owner.Append(item);
      self := this;
    }

    /** Appends the materialized prefix of items to the owner; the position is unchanged. */
    method AppendSequence(items: LazySequence<T>) returns (self: Generator<T>)
      modifies owner
      ensures self == this && index == old(index)
      ensures owner.cache == old(owner.cache) + old(items.cache)
    {
      owner.Concat(items);
      self := this;
    }

    /** Inserts item into the owner at the cursor's own position, so that it is read next;
        a position past the materialized count is out of range. */
    method Insert(item: T) returns (r: Result<Generator<T>>)
      modifies owner
      ensures index == old(index)
      ensures index <= |old(owner.cache)| ==>
        r == Ok(this) && owner.cache == old(owner.cache)[..index] + [item] + old(owner.cache)[index..]
      ensures |old(owner.cache)| < index ==> r == Err(OutOfRange) && owner.cache == old(owner.cache)
    {
      var outcome := owner.InsertAt(item, index);
      if outcome.Fail? {
        return Err(outcome.error);
      }
      r := Ok(this);
    }

    /** Removes the owner's first entry equal to item, wherever the cursor stands. */
    method Remove(item: T) returns (self: Generator<T>)
      modifies owner
      ensures self == this && index == old(index)
      ensures owner.cache == RemoveFirst(old(owner.cache), item)
    {
      var _ := owner.RemoveValue(item);
      self := this;
    }

    /** The current position; reading it touches nothing. */
    function GetPosition(): (p: nat)
      reads this
      ensures p == index
    {
      index
    }

    /** Moves the cursor to newPos (0 by default); the owner is not touched. */
    method Reset(newPos: nat := 0)
      modifies this
      ensures index == newPos
    {
      index := newPos;
    }
  }

  /** A cursor over s at startIndex; s itself is never absent, so this cannot fail. */
  method CreateGenerator<T(==)>(s: LazySequence<T>, startIndex: nat) returns (g: Generator<T>)
    ensures fresh(g) && g.owner == s && g.index == startIndex
  {
    g := new Generator(s, startIndex);
  }
}
