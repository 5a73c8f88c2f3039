/**
 * `SetLayoutBindingsAndFlags`: the bindings of a descriptor set layout, sorted, with their flags in a parallel vector
 * that is left empty for as long as all flags are zero.
 */
module SetLayoutBindings {
  import opened LayoutOrder

  type BindingFlags = bv8

  const UPDATE_AFTER_BIND: BindingFlags := 1

  type Pair = (Binding, BindingFlags)

  /** No element comes before one that is less. */
  ghost predicate Sorted(bindings: seq<Binding>) {
    forall i, j :: 0 <= i < j < |bindings| ==> !LayoutBindingLess(bindings[j], bindings[i])
  }

  /** Both vectors as a list of pairs. */
  function Zip(bindings: seq<Binding>, flags: seq<BindingFlags>): seq<Pair>
    requires flags == [] || |flags| == |bindings|
  {
    seq(|bindings|, i requires 0 <= i < |bindings| => (bindings[i], if flags == [] then 0 else flags[i]))
  }

  function InsertAt<T>(list: seq<T>, i: nat, x: T): seq<T>
    requires i <= |list|
  {
    list[..i] + [x] + list[i..]
  }

  ghost predicate AnyUpdateAfterBind(pairs: multiset<Pair>) {
    exists p :: p in pairs && p.1 & UPDATE_AFTER_BIND != 0
  }

  ghost predicate AnyNonZero(flags: seq<BindingFlags>) {
    exists i :: 0 <= i < |flags| && flags[i] != 0
  }

  /** The two vectors hold exactly the pairs that were inserted; the flags are left out when they are all zero. */
  ghost predicate Describes(bindings: seq<Binding>, flags: seq<BindingFlags>, inserted: multiset<Pair>) {
    && (flags == [] || |flags| == |bindings|)
    && (flags != [] ==> AnyNonZero(flags))
    && multiset(Zip(bindings, flags)) == inserted
  }

  class SetLayoutBindingsAndFlags {
    var sortedBindings: seq<Binding>
    var bindingFlags: seq<BindingFlags>
    var updateAfterBindPool: bool
    var unboundedDescriptorArraySize: nat
    ghost var inserted: multiset<Pair> // Everything that was inserted.

    ghost predicate Valid()
      reads this
    {
      && Sorted(sortedBindings)
      && Describes(sortedBindings, bindingFlags, inserted)
      && (updateAfterBindPool <==> AnyUpdateAfterBind(inserted))
    }

    ghost function Pairs(): seq<Pair>
      requires bindingFlags == [] || |bindingFlags| == |sortedBindings|
      reads this
    {
      Zip(sortedBindings, bindingFlags)
    }

    constructor ()
      ensures Valid() && inserted == multiset{}
    {
      sortedBindings, bindingFlags, updateAfterBindPool, unboundedDescriptorArraySize := [], [], false, 0;
      inserted := multiset{};
    }

    /** `utils::sorted_vector_insert`: keeps the order, wherever it puts the binding among those that tie with it. */
    method SortedVectorInsert(binding: Binding) returns (index: nat)
      requires Sorted(sortedBindings)
      modifies this`sortedBindings
      ensures index <= |old(sortedBindings)|
      ensures sortedBindings == InsertAt(old(sortedBindings), index, binding)
      ensures Sorted(sortedBindings)
    {
      LayoutBindingOrder();
      index := 0;
      while index < |sortedBindings| && !LayoutBindingLess(binding, sortedBindings[index])
        invariant index <= |sortedBindings|
        invariant forall i :: 0 <= i < index ==> !LayoutBindingLess(binding, sortedBindings[i])
      {
        index := index + 1;
      }
      SortedInsert(sortedBindings, index, binding);
      sortedBindings := InsertAt(sortedBindings, index, binding);
    }

    /** Make room at `index`, from the end down. */
    method ShiftFlags(index: nat, flags: BindingFlags)
      requires index <= |bindingFlags|
      modifies this`bindingFlags
      ensures bindingFlags == InsertAt(old(bindingFlags), index, flags)
    {
      ghost var before := bindingFlags;
      var len := |bindingFlags|;
      bindingFlags := bindingFlags + [0];
      while len > index
        invariant index <= len <= |before| == |bindingFlags| - 1
        invariant ShiftedDownTo(before, bindingFlags, len)
      {
        bindingFlags := bindingFlags[len := bindingFlags[len - 1]];
        len := len - 1;
      }
      ShiftedIsInserted(before, bindingFlags, index, flags);
      bindingFlags := bindingFlags[index := flags];
    }

    /** Everything that `insert` does to the flags, for a vector of `len` bindings. */
    method InsertFlags(len: nat, index: nat, flags: BindingFlags)
      requires bindingFlags == [] || |bindingFlags| == len
      requires index <= len
      modifies this`bindingFlags, this`updateAfterBindPool
      ensures bindingFlags == FlagsAfter(old(bindingFlags), len, index, flags)
      ensures updateAfterBindPool == (old(updateAfterBindPool) || flags & UPDATE_AFTER_BIND != 0)
    {
      if len > 0 && flags != 0 && bindingFlags == [] {
        bindingFlags := seq(len, _ => 0);
      }
      if flags != 0 || bindingFlags != [] {
        if flags & UPDATE_AFTER_BIND != 0 {
          updateAfterBindPool := true;
        }
        assert len == 0 ==> bindingFlags == seq(len, _ => 0);
        ShiftFlags(index, flags);
      }
    }

    /** Insert a binding and its flags at the same place of both vectors. */
    method InsertPair(binding: Binding, flags: BindingFlags) returns (ghost place: nat)
      requires Valid()
      modifies this`sortedBindings, this`bindingFlags, this`updateAfterBindPool, this`inserted
      ensures Valid() && inserted == old(inserted) + multiset{(binding, flags)}
      ensures place <= |old(Pairs())| && Pairs() == InsertAt(old(Pairs()), place, (binding, flags))
    {
      var len := |sortedBindings|;
      var index := SortedVectorInsert(binding);
      InsertFlags(len, index, flags);
      PairInserted(old(sortedBindings), old(bindingFlags), inserted, index, binding, flags);
      AnyInserted(inserted, (binding, flags));
      inserted := inserted + multiset{(binding, flags)};
      place := index;
    }

    /** The precondition on the array size is the assertion of the source: one unbounded array per descriptor set. */
    method Insert(binding: Binding, flags: BindingFlags, descriptorArraySize: int) returns (ghost place: nat)
      requires Valid()
      requires descriptorArraySize < 0 ==> unboundedDescriptorArraySize == 0
      modifies this
      ensures Valid() && inserted == old(inserted) + multiset{(binding, flags)}
      ensures place <= |old(Pairs())| && Pairs() == InsertAt(old(Pairs()), place, (binding, flags))
      ensures unboundedDescriptorArraySize ==
        if descriptorArraySize < 0 then -descriptorArraySize else old(unboundedDescriptorArraySize)
    {
      place := InsertPair(binding, flags);
      if descriptorArraySize < 0 {
        unboundedDescriptorArraySize := -descriptorArraySize;
      }
    }
  }

  /** The elements from `len` on have moved up by one. */
  predicate ShiftedDownTo(before: seq<BindingFlags>, after: seq<BindingFlags>, len: nat)
    requires len <= |before| == |after| - 1
  {
    && (forall i :: 0 <= i < len ==> after[i] == before[i])
    && (forall i :: len < i <= |before| ==> after[i] == before[i - 1])
  }

  lemma ShiftedIsInserted(before: seq<BindingFlags>, after: seq<BindingFlags>, index: nat, flags: BindingFlags)
    requires index <= |before| == |after| - 1 && ShiftedDownTo(before, after, index)
    ensures after[index := flags] == InsertAt(before, index, flags)
  {
    var inserted := InsertAt(before, index, flags);
    assert |inserted| == |after|;
    forall i | 0 <= i < |after|
      ensures after[index := flags][i] == inserted[i]
    {
      if i < index {
        assert inserted[i] == before[i];
      } else if i > index {
        assert inserted[i] == before[i - 1];
      }
    }
  }

  /** The flags stay empty while there are only zeroes; otherwise there is one element for each binding. */
  function FlagsAfter(before: seq<BindingFlags>, len: nat, index: nat, flags: BindingFlags): seq<BindingFlags>
    requires before == [] || |before| == len
    requires index <= len
  {
    if flags == 0 && before == [] then [] else
      InsertAt(if before == [] then seq(len, _ => 0) else before, index, flags)
  }

  lemma PairInserted(bindings: seq<Binding>, before: seq<BindingFlags>, inserted: multiset<Pair>,
                     index: nat, binding: Binding, flags: BindingFlags)
    requires Describes(bindings, before, inserted) && index <= |bindings|
    ensures var after := FlagsAfter(before, |bindings|, index, flags);
      && Describes(InsertAt(bindings, index, binding), after, inserted + multiset{(binding, flags)})
      && Zip(InsertAt(bindings, index, binding), after) == InsertAt(Zip(bindings, before), index, (binding, flags))
  {
    var after := FlagsAfter(before, |bindings|, index, flags);
    var pairs := Zip(bindings, before);
    assert Zip(InsertAt(bindings, index, binding), after) == InsertAt(pairs, index, (binding, flags));
    InsertedPairs(pairs, index, (binding, flags));
    if flags != 0 {
      assert after[index] == flags;
    } else if before != [] {
      var i :| 0 <= i < |before| && before[i] != 0;
      assert after[if i < index then i else i + 1] == before[i];
    }
  }

  lemma AnyInserted(pairs: multiset<Pair>, pair: Pair)
    ensures AnyUpdateAfterBind(pairs + multiset{pair}) <==> AnyUpdateAfterBind(pairs) || pair.1 & UPDATE_AFTER_BIND != 0
  {
    assert pair in pairs + multiset{pair};
    if AnyUpdateAfterBind(pairs) {
      var p :| p in pairs && p.1 & UPDATE_AFTER_BIND != 0;
      assert p in pairs + multiset{pair};
    }
  }

  lemma SortedInsert(bindings: seq<Binding>, index: nat, binding: Binding)
    requires Sorted(bindings) && index <= |bindings|
    requires forall i :: 0 <= i < index ==> !LayoutBindingLess(binding, bindings[i])
    requires index < |bindings| ==> LayoutBindingLess(binding, bindings[index])
    ensures Sorted(InsertAt(bindings, index, binding))
  {
    LayoutBindingOrder();
    if index < |bindings| {
      var first := bindings[index];
      forall j | index <= j < |bindings|
        ensures !LayoutBindingLess(bindings[j], binding)
      {
        var x := bindings[j];
        assert j > index ==> !LayoutBindingLess(x, first);
        assert LayoutBindingLess(x, binding) ==> LayoutBindingLess(x, first);
      }
    }
  }

  lemma InsertedPairs(pairs: seq<Pair>, index: nat, pair: Pair)
    requires index <= |pairs|
    ensures multiset(InsertAt(pairs, index, pair)) == multiset(pairs) + multiset{pair}
  {
    assert pairs == pairs[..index] + pairs[index..];
  }
}
