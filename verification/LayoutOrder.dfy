/** The orders by which descriptor set layouts are sorted and looked up. */
module LayoutOrder {

  datatype Binding = Binding(
    binding: nat,
    descriptorType: int,
    descriptorCount: nat,
    stageFlags: nat,
    samplers: nat)                     // The address pImmutableSamplers.

  // ----- strict weak orders -----

  predicate Ties<T>(less: (T, T) -> bool, a: T, b: T) {
    !less(a, b) && !less(b, a)
  }

  ghost predicate StrictWeakOrder<T(!new)>(less: (T, T) -> bool) {
    && (forall a :: !less(a, a))
    && (forall a, b, c :: less(a, b) && less(b, c) ==> less(a, c))
    && (forall a, b, c :: Ties(less, a, b) && Ties(less, b, c) ==> Ties(less, a, c))
  }

  /** In a strict weak order, elements that tie compare the same with all others. */
  lemma TiesAreInterchangeable<T(!new)>(less: (T, T) -> bool, a: T, b: T, c: T)
    requires StrictWeakOrder(less) && Ties(less, a, b)
    ensures less(a, c) <==> less(b, c)
    ensures less(c, a) <==> less(c, b)
  {
    assert Ties(less, b, a);
    assert Ties(less, b, c) ==> Ties(less, a, c);
    assert Ties(less, a, c) ==> Ties(less, b, c);
    assert less(a, c) && less(c, b) ==> less(a, b);
    assert less(b, c) && less(c, a) ==> less(b, a);
  }

  // ----- vectors -----

  /** `utils::VectorCompare`: the lexicographical order. */
  predicate VectorLess<T>(less: (T, T) -> bool, a: seq<T>, b: seq<T>) {
    if b == [] then false
    else if a == [] || less(a[0], b[0]) then true
    else if less(b[0], a[0]) then false
    else VectorLess(less, a[1..], b[1..])
  }

  /** Vectors tie exactly when they have the same size and tie element by element. */
  lemma {:induction false} VectorTies<T>(less: (T, T) -> bool, a: seq<T>, b: seq<T>)
    ensures !VectorLess(less, a, b) && !VectorLess(less, b, a) <==>
      |a| == |b| && forall i :: 0 <= i < |a| ==> Ties(less, a[i], b[i])
  {
    if a != [] && b != [] {
      VectorTies(less, a[1..], b[1..]);
      assert |a| == |b| && (forall i :: 0 <= i < |a| ==> Ties(less, a[i], b[i])) ==>
        forall i :: 0 <= i < |a[1..]| ==> Ties(less, a[1..][i], b[1..][i]);
      if Ties(less, a[0], b[0]) && |a| == |b| && forall i :: 0 <= i < |a[1..]| ==> Ties(less, a[1..][i], b[1..][i]) {
        forall i | 0 <= i < |a|
          ensures Ties(less, a[i], b[i])
        {
          assert i > 0 ==> a[i] == a[1..][i - 1] && b[i] == b[1..][i - 1];
        }
      }
    }
  }

  lemma {:induction false} VectorLessIsTransitive<T(!new)>(less: (T, T) -> bool, a: seq<T>, b: seq<T>, c: seq<T>)
    requires StrictWeakOrder(less) && VectorLess(less, a, b) && VectorLess(less, b, c)
    ensures VectorLess(less, a, c)
  {
    if a != [] {
      if Ties(less, a[0], b[0]) {
        TiesAreInterchangeable(less, a[0], b[0], c[0]);
        if Ties(less, b[0], c[0]) {
          VectorLessIsTransitive(less, a[1..], b[1..], c[1..]);
        }
      } else if Ties(less, b[0], c[0]) {
        TiesAreInterchangeable(less, b[0], c[0], a[0]);
      }
    }
  }

  // ----- LayoutBindingCompare -----

  function PopCount(mask: nat): nat {
    if mask == 0 then 0 else mask % 2 + PopCount(mask / 2)
  }

  predicate LayoutBindingLess(lhs: Binding, rhs: Binding) {
    if lhs.samplers != rhs.samplers then lhs.samplers < rhs.samplers
    else if lhs.descriptorType != rhs.descriptorType then lhs.descriptorType < rhs.descriptorType
    else if lhs.stageFlags != rhs.stageFlags then
      var l, r := PopCount(lhs.stageFlags), PopCount(rhs.stageFlags);
      if l != r then l < r else lhs.stageFlags < rhs.stageFlags
    else lhs.descriptorCount < rhs.descriptorCount
  }

  /** The order ignores binding numbers, and nothing else. */
  lemma LayoutBindingTies(a: Binding, b: Binding)
    ensures Ties(LayoutBindingLess, a, b) <==> a.(binding := 0) == b.(binding := 0)
  {
  }

  lemma LayoutBindingOrder()
    ensures StrictWeakOrder(LayoutBindingLess)
  {
    forall a, b, c | Ties(LayoutBindingLess, a, b) && Ties(LayoutBindingLess, b, c)
      ensures Ties(LayoutBindingLess, a, c)
    {
      LayoutBindingTies(a, b);
      LayoutBindingTies(b, c);
      LayoutBindingTies(a, c);
    }
  }

  /** What the bindings of a set layout are, apart from their binding numbers: the key under which it is cached. */
  function Anonymous(bindings: seq<Binding>): seq<Binding> {
    seq(|bindings|, i requires 0 <= i < |bindings| => bindings[i].(binding := 0))
  }

  /** The keys of the descriptor set layout cache tie exactly when they are equal up to binding numbers. */
  lemma SetLayoutKeyTies(a: seq<Binding>, b: seq<Binding>)
    ensures !VectorLess(LayoutBindingLess, a, b) && !VectorLess(LayoutBindingLess, b, a) <==> Anonymous(a) == Anonymous(b)
  {
    VectorTies(LayoutBindingLess, a, b);
    forall i | 0 <= i < |a| && i < |b|
      ensures Ties(LayoutBindingLess, a[i], b[i]) <==> Anonymous(a)[i] == Anonymous(b)[i]
    {
      LayoutBindingTies(a[i], b[i]);
    }
    if Anonymous(a) == Anonymous(b) {
      assert |Anonymous(a)| == |a| && |Anonymous(b)| == |b|;
    }
  }

  /** The key order is one that `std::map` can use. */
  lemma SetLayoutKeyOrder(a: seq<Binding>, b: seq<Binding>, c: seq<Binding>)
    ensures !VectorLess(LayoutBindingLess, a, a)
    ensures VectorLess(LayoutBindingLess, a, b) && VectorLess(LayoutBindingLess, b, c) ==> VectorLess(LayoutBindingLess, a, c)
  {
    SetLayoutKeyTies(a, a);
    LayoutBindingOrder();
    if VectorLess(LayoutBindingLess, a, b) && VectorLess(LayoutBindingLess, b, c) {
      VectorLessIsTransitive(LayoutBindingLess, a, b, c);
    }
  }
}
