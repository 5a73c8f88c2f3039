/**
 * `LogicalDevice::realize_pipeline_layout` and `SetIndexHintMap`: a pipeline layout that was created for other set
 * indexes can be reused, when the set indexes (hints) of the caller are translated to those of the layout.
 */
module PipelineLayout {
  import opened BindingNumbers
  import opened LayoutOrder
  import opened Options

  // ----- SetIndexHintMap -----

  class SetIndexHintMap {
    var setIndexMap: seq<Option<nat>>

    /** The hints that are translated, and to what. */
    function Contents(): map<nat, nat>
      reads this
    {
      map h: nat | h < |setIndexMap| && setIndexMap[h].Some? :: setIndexMap[h].value
    }

    constructor ()
      ensures Contents() == map[]
    {
      setIndexMap := [];
    }

    /** The precondition is the assertion of the source: do not add the same hint twice. */
    method AddFromTo(from: nat, to: nat)
      requires from !in Contents()
      modifies this
      ensures Contents() == old(Contents())[from := to]
    {
      if from >= |setIndexMap| {
        setIndexMap := setIndexMap + seq(from + 1 - |setIndexMap|, _ => None);
      }
      setIndexMap := setIndexMap[from := Some(to)];
    }

    method Clear()
      modifies this
      ensures Contents() == map[]
    {
      setIndexMap := [];
    }

    function Convert(hint: nat): (r: Option<nat>)
      reads this
      ensures r == if hint in Contents() then Some(Contents()[hint]) else None
    {
      if hint < |setIndexMap| then setIndexMap[hint] else None
    }

    /** The source asserts that there is a result. */
    method ReverseConvert(setIndex: nat) returns (r: Option<nat>)
      ensures r.Some? ==> Convert(r.value) == Some(setIndex)
      ensures r.None? ==> forall hint :: Convert(hint) != Some(setIndex)
    {
      for hint := 0 to |setIndexMap|
        invariant forall h :: 0 <= h < hint ==> setIndexMap[h] != Some(setIndex)
      {
        if setIndexMap[hint] == Some(setIndex) {
          return Some(hint);
        }
      }
      r := None;
    }

    /** On an injective map, `reverse_convert` inverts `convert`. */
    method ReverseOfConvert(hint: nat) returns (r: Option<nat>)
      requires hint in Contents()
      requires forall h, k :: h in Contents() && k in Contents() && Contents()[h] == Contents()[k] ==> h == k
      ensures r == Some(hint)
    {
      r := ReverseConvert(Convert(hint).value);
      assert Convert(hint) == Some(Contents()[hint]);
    }
  }

  // ----- layouts and their order -----

  datatype SetLayout = SetLayout(bindings: seq<Binding>, flags: seq<bv8>, hint: nat, handle: nat)

  /** `vk::DescriptorSetLayoutBinding::operator<=>`, which does look at binding numbers. */
  predicate FullLess(lhs: Binding, rhs: Binding) {
    if lhs.binding != rhs.binding then lhs.binding < rhs.binding
    else if lhs.descriptorType != rhs.descriptorType then lhs.descriptorType < rhs.descriptorType
    else if lhs.descriptorCount != rhs.descriptorCount then lhs.descriptorCount < rhs.descriptorCount
    else if lhs.stageFlags != rhs.stageFlags then lhs.stageFlags < rhs.stageFlags
    else lhs.samplers < rhs.samplers
  }

  predicate FlagsLess(lhs: bv8, rhs: bv8) {
    lhs < rhs
  }

  /** `SetLayoutCompare`. */
  predicate SetLayoutLess(lhs: SetLayout, rhs: SetLayout) {
    if lhs.bindings == [] then false
    else if rhs.bindings == [] then true
    else if VectorLess(FullLess, lhs.bindings, rhs.bindings) then true
    else if VectorLess(FullLess, rhs.bindings, lhs.bindings) then false
    else VectorLess(FlagsLess, lhs.flags, rhs.flags)
  }

  lemma FullVectorTies(a: seq<Binding>, b: seq<Binding>)
    ensures !VectorLess(FullLess, a, b) && !VectorLess(FullLess, b, a) <==> a == b
  {
    VectorTies(FullLess, a, b);
    assert forall x, y :: Ties(FullLess, x, y) <==> x == y;
  }

  lemma FlagsVectorTies(a: seq<bv8>, b: seq<bv8>)
    ensures !VectorLess(FlagsLess, a, b) && !VectorLess(FlagsLess, b, a) <==> a == b
  {
    VectorTies(FlagsLess, a, b);
    assert forall x, y :: Ties(FlagsLess, x, y) <==> x == y;
  }

  /**
   * Layouts tie when they have the same bindings, with the same numbers, and the same flags. Layouts that have no
   * bindings yet tie whatever their flags.
   */
  lemma SetLayoutTies(a: SetLayout, b: SetLayout)
    ensures Ties(SetLayoutLess, a, b) <==> a.bindings == b.bindings && (a.bindings == [] || a.flags == b.flags)
  {
    FullVectorTies(a.bindings, b.bindings);
    FlagsVectorTies(a.flags, b.flags);
  }

  datatype PushConstantRange = PushConstantRange(stageFlags: nat, offset: nat, size: nat)

  /** Two bit masks have a bit in common. */
  predicate ShareBit(a: nat, b: nat) {
    a != 0 && b != 0 && ((a % 2 == 1 && b % 2 == 1) || ShareBit(a / 2, b / 2))
  }

  predicate ShareStage(a: PushConstantRange, b: PushConstantRange) {
    ShareBit(a.stageFlags, b.stageFlags)
  }

  /** `a` begins and ends before `b`. */
  predicate IsBefore(a: PushConstantRange, b: PushConstantRange) {
    a.offset < b.offset && a.offset + a.size < b.offset + b.size
  }

  predicate NeitherIsBefore(a: PushConstantRange, b: PushConstantRange) {
    !IsBefore(a, b) && !IsBefore(b, a)
  }

  /** `PushConstantRangeCompare`. */
  predicate PushLess(a: PushConstantRange, b: PushConstantRange) {
    if !ShareStage(a, b) then a.stageFlags < b.stageFlags else IsBefore(a, b)
  }

  /** What `PushConstantRangeCompare` asserts: ranges with a common stage have a common end. */
  predicate PushAsserted(a: PushConstantRange, b: PushConstantRange) {
    ShareStage(a, b) ==> a.offset == b.offset || a.offset + a.size == b.offset + b.size
  }

  /** A range is for at least one stage. */
  predicate HasStage(a: PushConstantRange) {
    a.stageFlags != 0
  }

  lemma {:induction false} ShareBitIsSymmetric(a: nat, b: nat)
    ensures ShareBit(a, b) <==> ShareBit(b, a)
  {
    if a != 0 && b != 0 {
      ShareBitIsSymmetric(a / 2, b / 2);
    }
  }

  lemma {:induction false} ShareBitWithItself(a: nat)
    ensures ShareBit(a, a) <==> a != 0
  {
    if a > 1 {
      ShareBitWithItself(a / 2);
    }
  }

  lemma SharingIsSymmetric(a: PushConstantRange, b: PushConstantRange)
    ensures ShareStage(a, b) <==> ShareStage(b, a)
  {
    ShareBitIsSymmetric(a.stageFlags, b.stageFlags);
  }

  lemma SharesWithItself(a: PushConstantRange)
    ensures ShareStage(a, a) <==> HasStage(a)
  {
    ShareBitWithItself(a.stageFlags);
  }

  lemma OrderOfDisjoint(a: PushConstantRange, b: PushConstantRange)
    requires !ShareStage(a, b) && HasStage(a)
    ensures PushLess(a, b) <==> !PushLess(b, a)
    ensures PushLess(a, b) <==> a.stageFlags < b.stageFlags
  {
    SharingIsSymmetric(a, b);
    SharesWithItself(a);
  }

  /** Whatever the assertion does, ranges tie when they share a stage and neither is before the other. */
  lemma PushTiesExactly(a: PushConstantRange, b: PushConstantRange)
    requires HasStage(a)
    ensures Ties(PushLess, a, b) <==> ShareStage(a, b) && NeitherIsBefore(a, b)
  {
    SharingIsSymmetric(a, b);
    if !ShareStage(a, b) {
      OrderOfDisjoint(a, b);
    }
  }

  /** Where the assertion holds, ranges tie when they have a stage in common, whatever their offset and size. */
  lemma PushTies(a: PushConstantRange, b: PushConstantRange)
    requires HasStage(a) && PushAsserted(a, b)
    ensures Ties(PushLess, a, b) <==> ShareStage(a, b)
  {
    PushTiesExactly(a, b);
  }

  ghost predicate StrictWeakOrderOn<T(!new)>(less: (T, T) -> bool, elements: set<T>) {
    && (forall a :: a in elements ==> !less(a, a))
    && (forall a, b, c :: a in elements && b in elements && c in elements && less(a, b) && less(b, c) ==> less(a, c))
    && (forall a, b, c :: a in elements && b in elements && c in elements && Ties(less, a, b) && Ties(less, b, c) ==> Ties(less, a, c))
  }

  /** All comparisons of the ranges pass the assertion. */
  predicate AllAsserted(ranges: set<PushConstantRange>) {
    forall a, b :: a in ranges && b in ranges ==> HasStage(a) && PushAsserted(a, b)
  }

  ghost predicate SharingIsTransitive(ranges: set<PushConstantRange>) {
    forall a, b, c :: a in ranges && b in ranges && c in ranges && ShareStage(a, b) && ShareStage(b, c) ==> ShareStage(a, c)
  }

  /** Ranges that share a stage are on the same side of any range that shares with neither of them. */
  ghost predicate SharingIsConvex(ranges: set<PushConstantRange>) {
    forall a, b, c :: a in ranges && b in ranges && c in ranges && ShareStage(a, c) && !ShareStage(a, b) && !ShareStage(c, b) ==>
      (a.stageFlags < b.stageFlags <==> c.stageFlags < b.stageFlags)
  }

  /** On which sets of ranges the comparison is one that `std::map` can use. */
  lemma PushOrderExactly(ranges: set<PushConstantRange>)
    requires AllAsserted(ranges)
    ensures StrictWeakOrderOn(PushLess, ranges) <==> SharingIsTransitive(ranges) && SharingIsConvex(ranges)
  {
    TiesAreSharing(ranges);
    if StrictWeakOrderOn(PushLess, ranges) {
      OrderIsConvex(ranges);
    }
    if SharingIsTransitive(ranges) && SharingIsConvex(ranges) {
      ConvexIsOrder(ranges);
    }
  }

  lemma TiesAreSharing(ranges: set<PushConstantRange>)
    requires AllAsserted(ranges)
    ensures forall a, b :: a in ranges && b in ranges ==> (Ties(PushLess, a, b) <==> ShareStage(a, b))
  {
    forall a, b | a in ranges && b in ranges
      ensures Ties(PushLess, a, b) <==> ShareStage(a, b)
    {
      PushTies(a, b);
    }
  }

  lemma ConvexIsOrder(ranges: set<PushConstantRange>)
    requires AllAsserted(ranges) && SharingIsTransitive(ranges) && SharingIsConvex(ranges)
    ensures StrictWeakOrderOn(PushLess, ranges)
  {
    TiesAreSharing(ranges);
    forall a, b, c | a in ranges && b in ranges && c in ranges && PushLess(a, b) && PushLess(b, c)
      ensures PushLess(a, c)
    {
      ConvexIsTransitive(ranges, a, b, c);
    }
  }

  /** Overlapping without order is transitive. */
  ghost predicate OverlapIsTransitive(ranges: set<PushConstantRange>) {
    forall a, b, c :: a in ranges && b in ranges && c in ranges && NeitherIsBefore(a, b) && NeitherIsBefore(b, c) ==>
      NeitherIsBefore(a, c)
  }

  /** Without the assertion, for ranges that all share a stage: those that are not before each other must be groups. */
  lemma PushOrderOfOneStage(ranges: set<PushConstantRange>)
    requires forall a, b :: a in ranges && b in ranges ==> ShareStage(a, b)
    ensures StrictWeakOrderOn(PushLess, ranges) <==> OverlapIsTransitive(ranges)
  {
    forall a, b | a in ranges && b in ranges
      ensures Ties(PushLess, a, b) <==> NeitherIsBefore(a, b)
    {
      SharingIsSymmetric(a, b);
    }
  }

  /**
   * For example, ranges for the same stages of which one overlaps two others, like [0, 10) overlaps [0, 4) and [6, 8).
   * Sharing stages is as it should be, and yet there is no order.
   */
  lemma AssertionIsNeeded(a: PushConstantRange, b: PushConstantRange, c: PushConstantRange)
    requires HasStage(a) && a.stageFlags == b.stageFlags == c.stageFlags
    requires NeitherIsBefore(a, b) && NeitherIsBefore(b, c) && IsBefore(a, c)
    ensures SharingIsTransitive({a, b, c}) && SharingIsConvex({a, b, c}) && !StrictWeakOrderOn(PushLess, {a, b, c})
  {
    forall x, y | x in {a, b, c} && y in {a, b, c}
      ensures ShareStage(x, y)
    {
      SharesWithItself(x);
    }
    PushOrderOfOneStage({a, b, c});
  }

  lemma OrderIsConvex(ranges: set<PushConstantRange>)
    requires AllAsserted(ranges) && StrictWeakOrderOn(PushLess, ranges)
    ensures SharingIsConvex(ranges)
  {
    forall a, b, c | a in ranges && b in ranges && c in ranges && ShareStage(a, c) && !ShareStage(a, b) && !ShareStage(c, b)
      ensures a.stageFlags < b.stageFlags <==> c.stageFlags < b.stageFlags
    {
      OrderOfDisjoint(a, b);
      OrderOfDisjoint(c, b);
      PushTies(a, c);
      assert PushLess(a, b) && PushLess(b, c) ==> PushLess(a, c);
      assert PushLess(c, b) && PushLess(b, a) ==> PushLess(c, a);
    }
  }

  lemma ConvexIsTransitive(ranges: set<PushConstantRange>, a: PushConstantRange, b: PushConstantRange, c: PushConstantRange)
    requires AllAsserted(ranges) && SharingIsConvex(ranges) && a in ranges && b in ranges && c in ranges
    requires PushLess(a, b) && PushLess(b, c)
    ensures PushLess(a, c)
  {
    PushTies(a, b);
    PushTies(b, c);
    SharingIsSymmetric(b, c);
    OrderOfDisjoint(a, b);
    OrderOfDisjoint(b, c);
    assert !ShareStage(a, c);
  }

  /** Tying is not transitive as soon as a range for two stages is there: an instance of `PushOrderExactly`. */
  lemma PushLessIsNoOrder(a: PushConstantRange, b: PushConstantRange, both: PushConstantRange)
    requires !ShareStage(a, b) && HasStage(a) && HasStage(b)
    requires ShareStage(a, both) && ShareStage(both, b)
    requires PushAsserted(a, both) && PushAsserted(both, b)
    ensures Ties(PushLess, a, both) && Ties(PushLess, both, b) && !Ties(PushLess, a, b)
    ensures !StrictWeakOrderOn(PushLess, {a, b, both})
  {
    PushTies(a, both);
    SharingIsSymmetric(both, b);
    PushTiesExactly(b, both);
    PushTies(a, b);
  }

  // ----- the assertion in comparisons of keys -----

  /** Every comparison of two ranges that the comparison of two lists makes passes the assertion. */
  predicate ListsAsserted(a: seq<PushConstantRange>, b: seq<PushConstantRange>) {
    a != [] && b != [] ==>
      PushAsserted(a[0], b[0]) && (Ties(PushLess, a[0], b[0]) ==> ListsAsserted(a[1..], b[1..]))
  }

  /** At index `i` two ranges have a common stage and no common end, and all before them have a common stage as well. */
  predicate FailsAt(a: seq<PushConstantRange>, b: seq<PushConstantRange>, i: nat)
    requires i < |a| && i < |b|
  {
    !PushAsserted(a[i], b[i]) && forall j :: 0 <= j < i ==> ShareStage(a[j], b[j]) && PushAsserted(a[j], b[j])
  }

  /** The ranges of unrelated pipelines are compared as well, and the assertion fails for exactly these. */
  lemma {:induction false} AssertionFailsExactly(a: seq<PushConstantRange>, b: seq<PushConstantRange>)
    requires forall i :: 0 <= i < |a| ==> HasStage(a[i])
    ensures !ListsAsserted(a, b) <==> exists i :: 0 <= i < |a| && i < |b| && FailsAt(a, b, i)
  {
    if a != [] && b != [] && PushAsserted(a[0], b[0]) {
      PushTies(a[0], b[0]);
      AssertionFailsExactly(a[1..], b[1..]);
      forall i: nat | 0 < i < |a| && i < |b|
        ensures FailsAt(a, b, i) <==> ShareStage(a[0], b[0]) && FailsAt(a[1..], b[1..], i - 1)
      {
        FailsLater(a, b, i);
      }
      if ShareStage(a[0], b[0]) && exists i :: 0 <= i < |a[1..]| && i < |b[1..]| && FailsAt(a[1..], b[1..], i) {
        var i :| 0 <= i < |a[1..]| && i < |b[1..]| && FailsAt(a[1..], b[1..], i);
        assert FailsAt(a, b, i + 1);
      }
    } else if a != [] && b != [] {
      assert FailsAt(a, b, 0);
    }
  }

  lemma FailsLater(a: seq<PushConstantRange>, b: seq<PushConstantRange>, i: nat)
    requires 0 < i < |a| && i < |b| && PushAsserted(a[0], b[0])
    ensures FailsAt(a, b, i) <==> ShareStage(a[0], b[0]) && FailsAt(a[1..], b[1..], i - 1)
  {
    if ShareStage(a[0], b[0]) && FailsAt(a[1..], b[1..], i - 1) {
      forall j | 0 <= j < i
        ensures ShareStage(a[j], b[j]) && PushAsserted(a[j], b[j])
      {
        assert j > 0 ==> a[j] == a[1..][j - 1] && b[j] == b[1..][j - 1];
      }
    }
    if FailsAt(a, b, i) {
      forall j | 0 <= j < i - 1
        ensures ShareStage(a[1..][j], b[1..][j]) && PushAsserted(a[1..][j], b[1..][j])
      {
        assert a[1..][j] == a[j + 1] && b[1..][j] == b[j + 1];
      }
    }
  }

  /** For example, two pipelines that use the bytes 0 to 7 and 16 to 23 in the same stages. */
  lemma AssertionMayFail(stages: nat)
    requires stages != 0
    ensures !ListsAsserted([PushConstantRange(stages, 0, 8)], [PushConstantRange(stages, 16, 8)])
  {
    SharesWithItself(PushConstantRange(stages, 0, 8));
  }

  // ----- the cache of pipeline layouts -----

  /** A pipeline layout with the key under which it is cached; `slots` and `push` are what it was created with. */
  datatype Entry = Entry(layouts: seq<SetLayout>, push: seq<PushConstantRange>, slots: seq<nat>)

  predicate ElementsTie<T>(less: (T, T) -> bool, a: seq<T>, b: seq<T>) {
    |a| == |b| && forall i :: 0 <= i < |a| ==> Ties(less, a[i], b[i])
  }

  /** The keys compare equal: `VectorTies` says that this is what it is for both of the vectors to tie. */
  predicate SameKey(entry: Entry, layouts: seq<SetLayout>, push: seq<PushConstantRange>) {
    ElementsTie(SetLayoutLess, entry.layouts, layouts) && ElementsTie(PushLess, entry.push, push)
  }

  predicate DistinctHints(layouts: seq<SetLayout>) {
    forall i, j :: 0 <= i < j < |layouts| ==> layouts[i].hint != layouts[j].hint
  }

  predicate HintsBelow(layouts: seq<SetLayout>, size: nat) {
    forall i :: 0 <= i < |layouts| ==> layouts[i].hint < size
  }

  /** The handle of a set layout is determined by its bindings up to their numbers (`LayoutCache.HandleIsDetermined`). */
  ghost predicate Realized(handleOf: seq<Binding> -> nat, layouts: seq<SetLayout>) {
    forall i :: 0 <= i < |layouts| ==> layouts[i].handle == handleOf(Anonymous(layouts[i].bindings))
  }

  /** `slots` has the handle of each layout at its hint, and the empty layout everywhere else. */
  ghost predicate Holds(layouts: seq<SetLayout>, slots: seq<nat>, empty: nat) {
    && DistinctHints(layouts) && HintsBelow(layouts, |slots|)
    && (forall i :: 0 <= i < |layouts| ==> slots[layouts[i].hint] == layouts[i].handle)
    && (forall h :: 0 <= h < |slots| ==> slots[h] == empty || exists i :: 0 <= i < |layouts| && layouts[i].hint == h)
  }

  ghost predicate EntryOk(handleOf: seq<Binding> -> nat, empty: nat, entry: Entry) {
    Realized(handleOf, entry.layouts) && Holds(entry.layouts, entry.slots, empty)
  }

  ghost predicate CacheOk(handleOf: seq<Binding> -> nat, empty: nat, cache: seq<Entry>) {
    forall e :: e in cache ==> EntryOk(handleOf, empty, e)
  }

  /** `a[i].hint` goes to `b[i].hint`. */
  function HintMap(a: seq<SetLayout>, b: seq<SetLayout>): map<nat, nat>
    requires |a| == |b|
  {
    if a == [] then map[]
    else HintMap(a[..|a| - 1], b[..|b| - 1])[a[|a| - 1].hint := b[|b| - 1].hint]
  }

  /** `m` goes from the hints of one list to those of the other, and from nowhere else. */
  ghost predicate MapsHints(m: map<nat, nat>, a: seq<SetLayout>, b: seq<SetLayout>) {
    && |a| == |b|
    && (forall i :: 0 <= i < |a| ==> a[i].hint in m && m[a[i].hint] == b[i].hint)
    && (forall h :: h in m ==> exists i :: 0 <= i < |a| && a[i].hint == h)
  }

  lemma {:induction false} HintMapMaps(a: seq<SetLayout>, b: seq<SetLayout>)
    requires |a| == |b| && DistinctHints(a)
    ensures MapsHints(HintMap(a, b), a, b)
  {
    if a != [] {
      var n := |a| - 1;
      HintMapMaps(a[..n], b[..n]);
      forall i | 0 <= i < n
        ensures a[i].hint in HintMap(a, b) && HintMap(a, b)[a[i].hint] == b[i].hint
      {
        assert a[..n][i].hint in HintMap(a[..n], b[..n]);
      }
    }
  }

  /**
   * What the caller needs: under the translation `m` its hints are exactly those that are translated, distinct hints
   * go to distinct set indexes, each of its layouts is found where its hint goes to, and all other slots are empty.
   */
  ghost predicate Translates(m: map<nat, nat>, layouts: seq<SetLayout>, slots: seq<nat>, empty: nat) {
    && (forall h :: h in m ==> exists i :: 0 <= i < |layouts| && layouts[i].hint == h)
    && (forall i :: 0 <= i < |layouts| ==> layouts[i].hint in m && m[layouts[i].hint] < |slots|)
    && (forall i :: 0 <= i < |layouts| ==> slots[m[layouts[i].hint]] == layouts[i].handle)
    && (forall h, g :: h in m && g in m && m[h] == m[g] ==> h == g)
    && (forall s :: 0 <= s < |slots| ==> slots[s] == empty || exists i :: 0 <= i < |layouts| && m[layouts[i].hint] == s)
  }

  /** Replacing hints by those of layouts that have the same handles preserves meaning. */
  lemma HintMapTranslates(layouts: seq<SetLayout>, stored: seq<SetLayout>, slots: seq<nat>, empty: nat)
    requires |layouts| == |stored| && DistinctHints(layouts) && Holds(stored, slots, empty)
    requires forall i :: 0 <= i < |layouts| ==> layouts[i].handle == stored[i].handle
    ensures Translates(HintMap(layouts, stored), layouts, slots, empty)
  {
    HintMapMaps(layouts, stored);
    HintsStayDistinct(HintMap(layouts, stored), layouts, stored);
    SlotsStayCovered(HintMap(layouts, stored), layouts, stored, slots, empty);
  }

  lemma HintsStayDistinct(m: map<nat, nat>, layouts: seq<SetLayout>, stored: seq<SetLayout>)
    requires MapsHints(m, layouts, stored) && DistinctHints(stored)
    ensures forall h, g :: h in m && g in m && m[h] == m[g] ==> h == g
  {
    forall h, g | h in m && g in m && m[h] == m[g]
      ensures h == g
    {
      var i :| 0 <= i < |layouts| && layouts[i].hint == h;
      var j :| 0 <= j < |layouts| && layouts[j].hint == g;
      assert stored[i].hint == stored[j].hint;
    }
  }

  lemma SlotsStayCovered(m: map<nat, nat>, layouts: seq<SetLayout>, stored: seq<SetLayout>, slots: seq<nat>, empty: nat)
    requires MapsHints(m, layouts, stored) && Holds(stored, slots, empty)
    ensures forall s :: 0 <= s < |slots| ==> slots[s] == empty || exists i :: 0 <= i < |layouts| && m[layouts[i].hint] == s
  {
    forall s | 0 <= s < |slots| && slots[s] != empty
      ensures exists i :: 0 <= i < |layouts| && m[layouts[i].hint] == s
    {
      var i :| 0 <= i < |stored| && stored[i].hint == s;
      assert m[layouts[i].hint] == s;
    }
  }

  /** Layouts that tie element by element have the same bindings and the same handles. */
  lemma SameKeySameHandles(handleOf: seq<Binding> -> nat, stored: seq<SetLayout>, layouts: seq<SetLayout>)
    requires ElementsTie(SetLayoutLess, stored, layouts) && Realized(handleOf, stored) && Realized(handleOf, layouts)
    ensures forall i :: 0 <= i < |layouts| ==> layouts[i].bindings == stored[i].bindings
    ensures forall i :: 0 <= i < |layouts| ==> layouts[i].handle == stored[i].handle
  {
    forall i | 0 <= i < |layouts|
      ensures layouts[i].bindings == stored[i].bindings
    {
      SetLayoutTies(stored[i], layouts[i]);
    }
  }

  // ----- realize_pipeline_layout -----

  /** The number of slots of a new layout. */
  function Size(largest: Option<nat>): nat {
    if largest.Some? then largest.value + 1 else 0
  }

  /** How `PipelineFactory` computes the argument `largest`: it leaves room for every hint, and for nothing more. */
  method LargestHint(layouts: seq<SetLayout>) returns (largest: Option<nat>)
    ensures HintsBelow(layouts, Size(largest))
    ensures largest.Some? ==> exists i :: 0 <= i < |layouts| && layouts[i].hint == largest.value
  {
    largest := None;
    for i := 0 to |layouts|
      invariant HintsBelow(layouts[..i], Size(largest))
      invariant largest.Some? ==> exists j :: 0 <= j < i && layouts[j].hint == largest.value
    {
      if largest.None? || layouts[i].hint > largest.value {
        largest := Some(layouts[i].hint);
      }
    }
    assert layouts[..|layouts|] == layouts;
  }

  /** The index of the first entry with that key, or the size of the cache. */
  function FirstMatch(cache: seq<Entry>, layouts: seq<SetLayout>, push: seq<PushConstantRange>): (i: nat)
    ensures i <= |cache|
    ensures i < |cache| ==> SameKey(cache[i], layouts, push)
    ensures forall j :: 0 <= j < i ==> !SameKey(cache[j], layouts, push)
  {
    if cache == [] || SameKey(cache[0], layouts, push) then 0 else
      var i := FirstMatch(cache[1..], layouts, push);
      assert forall j :: 0 < j < |cache| ==> cache[j] == cache[1..][j - 1];
      1 + i
  }

  method Find(cache: seq<Entry>, layouts: seq<SetLayout>, push: seq<PushConstantRange>) returns (found: Option<Entry>)
    ensures var i := FirstMatch(cache, layouts, push);
      found == if i < |cache| then Some(cache[i]) else None
  {
    for i := 0 to |cache|
      invariant forall j :: 0 <= j < i ==> !SameKey(cache[j], layouts, push)
    {
      if SameKey(cache[i], layouts, push) {
        return Some(cache[i]);
      }
    }
    found := None;
  }

  /** The branch for a key that was not found: the slots of the new layout, and the identity for the hints. */
  method NewSlots(layouts: seq<SetLayout>, largest: Option<nat>, empty: nat, hints: SetIndexHintMap) returns (slots: seq<nat>)
    requires DistinctHints(layouts) && HintsBelow(layouts, Size(largest))
    requires hints.Contents() == map[]
    modifies hints
    ensures |slots| == Size(largest)
    ensures Holds(layouts, slots, empty)
    ensures hints.Contents() == HintMap(layouts, layouts)
  {
    slots := seq(Size(largest), _ => empty);
    for i := 0 to |layouts|
      invariant |slots| == Size(largest)
      invariant Holds(layouts[..i], slots, empty)
      invariant hints.Contents() == HintMap(layouts[..i], layouts[..i])
    {
      var hint := layouts[i].hint;
      HintMapStep(layouts, layouts, i);
      HoldsOneMore(layouts, i, slots, empty);
      slots := slots[hint := layouts[i].handle];
      hints.AddFromTo(hint, hint);
    }
    assert layouts[..|layouts|] == layouts;
  }

  lemma HoldsOneMore(layouts: seq<SetLayout>, i: nat, slots: seq<nat>, empty: nat)
    requires i < |layouts| && DistinctHints(layouts) && HintsBelow(layouts, |slots|)
    requires Holds(layouts[..i], slots, empty)
    ensures Holds(layouts[..i + 1], slots[layouts[i].hint := layouts[i].handle], empty)
  {
    var slots' := slots[layouts[i].hint := layouts[i].handle];
    var before, after := layouts[..i], layouts[..i + 1];
    forall h | 0 <= h < |slots| && slots'[h] != empty
      ensures exists j :: 0 <= j < |after| && after[j].hint == h
    {
      if h == layouts[i].hint {
        assert after[i].hint == h;
      } else {
        var j :| 0 <= j < |before| && before[j].hint == h;
        assert after[j].hint == h;
      }
    }
    assert forall j :: 0 <= j < i ==> layouts[..i][j] == layouts[j];
  }

  /** The branch for a key that was found: translate the hints, and copy the binding numbers. */
  method CopyNumbers(layouts: seq<SetLayout>, stored: seq<SetLayout>, hints: SetIndexHintMap) returns (fixed: seq<SetLayout>)
    requires |layouts| == |stored| && DistinctHints(layouts)
    requires forall i :: 0 <= i < |layouts| ==> |layouts[i].bindings| == |stored[i].bindings|
    requires hints.Contents() == map[]
    modifies hints
    ensures hints.Contents() == HintMap(layouts, stored)
    ensures |fixed| == |layouts|
    ensures forall i :: 0 <= i < |layouts| ==> IsRenumbered(layouts[i], stored[i], fixed[i])
  {
    fixed := [];
    for i := 0 to |layouts|
      invariant |fixed| == i
      invariant hints.Contents() == HintMap(layouts[..i], stored[..i])
      invariant forall j :: 0 <= j < i ==> IsRenumbered(layouts[j], stored[j], fixed[j])
    {
      HintMapStep(layouts, stored, i);
      hints.AddFromTo(layouts[i].hint, stored[i].hint);
      var bindings := FixBindings(layouts[i].bindings, stored[i].bindings);
      fixed := fixed + [layouts[i].(bindings := bindings)];
    }
    assert layouts[..|layouts|] == layouts && stored[..|layouts|] == stored;
  }

  lemma NewHint(a: seq<SetLayout>, b: seq<SetLayout>, i: nat)
    requires |a| == |b| && DistinctHints(a) && i < |a|
    ensures a[i].hint !in HintMap(a[..i], b[..i])
  {
    HintMapMaps(a[..i], b[..i]);
  }

  lemma HintMapStep(a: seq<SetLayout>, b: seq<SetLayout>, i: nat)
    requires |a| == |b| && DistinctHints(a) && i < |a|
    ensures a[i].hint !in HintMap(a[..i], b[..i])
    ensures HintMap(a[..i + 1], b[..i + 1]) == HintMap(a[..i], b[..i])[a[i].hint := b[i].hint]
  {
    assert a[..i + 1][..i] == a[..i] && b[..i + 1][..i] == b[..i];
    NewHint(a, b, i);
  }

  predicate IsRenumbered(layout: SetLayout, stored: SetLayout, fixed: SetLayout) {
    && |layout.bindings| == |stored.bindings|
    && fixed == layout.(bindings := Renumbered(layout.bindings, stored.bindings))
  }

  /** A key that compares equal was found. */
  method UseStored(ghost handleOf: seq<Binding> -> nat, ghost empty: nat, entry: Entry, layouts: seq<SetLayout>, hints: SetIndexHintMap)
    returns (fixed: seq<SetLayout>)
    requires EntryOk(handleOf, empty, entry) && ElementsTie(SetLayoutLess, entry.layouts, layouts)
    requires Realized(handleOf, layouts) && DistinctHints(layouts)
    requires hints.Contents() == map[]
    modifies hints
    ensures Translates(hints.Contents(), layouts, entry.slots, empty)
    ensures fixed == layouts
  {
    SameKeySameHandles(handleOf, entry.layouts, layouts);
    fixed := CopyNumbers(layouts, entry.layouts, hints);
    forall i | 0 <= i < |layouts|
      ensures fixed[i] == layouts[i]
    {
      assert IsRenumbered(layouts[i], entry.layouts[i], fixed[i]);
      assert fixed[i].bindings == layouts[i].bindings;
    }
    HintMapTranslates(layouts, entry.layouts, entry.slots, empty);
  }

  /** As many ranges, with a stage in common at each index. */
  predicate StagesShared(a: seq<PushConstantRange>, b: seq<PushConstantRange>) {
    |a| == |b| && forall i :: 0 <= i < |b| ==> ShareStage(a[i], b[i])
  }

  /** The outcome of an attempt that finds `before`: the entry that it gives, and the cache afterwards. */
  ghost predicate Gives(before: seq<Entry>, layouts: seq<SetLayout>, push: seq<PushConstantRange>, entry: Entry, after: seq<Entry>) {
    var i := FirstMatch(before, layouts, push);
    if i < |before| then entry == before[i] && after == before
    else after == before + [entry] && entry.layouts == layouts && entry.push == push
  }

  /**
   * `realize_pipeline_layout`. The cache is `views[n]` during attempt `n`; every attempt but the last that does not
   * find its key loses the conversion of its read lock to a write lock. The binding numbers of the caller are
   * overwritten, but only by themselves: keys with other binding numbers do not compare equal.
   */
  method RealizePipelineLayout(ghost handleOf: seq<Binding> -> nat, empty: nat, views: seq<seq<Entry>>,
      layouts: seq<SetLayout>, largest: Option<nat>, push: seq<PushConstantRange>, hints: SetIndexHintMap)
    returns (entry: Entry, cache: seq<Entry>, fixed: seq<SetLayout>, ghost attempt: nat)
    requires views != [] && forall n :: 0 <= n < |views| ==> CacheOk(handleOf, empty, views[n])
    requires Realized(handleOf, layouts) && DistinctHints(layouts)
    requires HintsBelow(layouts, Size(largest))
    requires hints.Contents() == map[]
    modifies hints
    ensures Translates(hints.Contents(), layouts, entry.slots, empty)
    ensures fixed == layouts
    ensures CacheOk(handleOf, empty, cache) && entry in cache
    ensures attempt < |views| && Gives(views[attempt], layouts, push, entry, cache)
    ensures forall n :: 0 <= n < attempt ==> FirstMatch(views[n], layouts, push) == |views[n]|
    ensures FirstMatch(views[attempt], layouts, push) == |views[attempt]| ==> attempt == |views| - 1 && hints.Contents() == HintMap(layouts, layouts)
  {
    attempt := 0;
    var n := 0;
    while true
      invariant n < |views| && attempt == n && hints.Contents() == map[]
      invariant forall m :: 0 <= m < n ==> FirstMatch(views[m], layouts, push) == |views[m]|
      decreases |views| - n
    {
      var found := Find(views[n], layouts, push);
      if found.Some? {
        entry, cache := found.value, views[n];
        assert EntryOk(handleOf, empty, entry);
        fixed := UseStored(handleOf, empty, entry, layouts, hints);
        return;
      }
      var slots := NewSlots(layouts, largest, empty, hints);
      if n == |views| - 1 {
        entry := Entry(layouts, push, slots);
        cache, fixed := views[n] + [entry], layouts;
        HintMapTranslates(layouts, layouts, slots, empty);
        return;
      }
      hints.Clear();
      n := n + 1;
      attempt := n;
    }
  }

  /** The ranges that a layout was created with have stages in common with those of the caller, and may differ from them. */
  lemma GivesSharedStages(before: seq<Entry>, layouts: seq<SetLayout>, push: seq<PushConstantRange>, entry: Entry, after: seq<Entry>)
    requires Gives(before, layouts, push, entry, after) && forall k :: 0 <= k < |push| ==> HasStage(push[k])
    ensures StagesShared(entry.push, push)
  {
    forall k | 0 <= k < |push|
      ensures |entry.push| == |push| && ShareStage(entry.push[k], push[k])
    {
      SharesWithItself(push[k]);
      if FirstMatch(before, layouts, push) < |before| {
        PushTiesExactly(push[k], entry.push[k]);
        SharingIsSymmetric(push[k], entry.push[k]);
      }
    }
  }

  /** On a miss the translation is the identity. */
  lemma IdentityOnMiss(layouts: seq<SetLayout>, h: nat)
    requires DistinctHints(layouts) && h in HintMap(layouts, layouts)
    ensures HintMap(layouts, layouts)[h] == h
  {
    HintMapMaps(layouts, layouts);
  }

  // ----- push constant ranges -----

  lemma LayoutTiesToItself(layout: SetLayout)
    ensures Ties(SetLayoutLess, layout, layout)
  {
    SetLayoutTies(layout, layout);
  }

  /**
   * A layout that was created for other push constant ranges can be found: with the same set layouts it is found
   * exactly when there are as many ranges, and those at the same index have a stage in common and neither is before the
   * other. Where the assertion in the comparison holds, a stage in common is enough, whatever the sizes.
   */
  lemma PushConstantsMayBeThoseOfAnother(entry: Entry, push: seq<PushConstantRange>)
    requires forall i :: 0 <= i < |entry.push| ==> HasStage(entry.push[i])
    ensures SameKey(entry, entry.layouts, push) <==>
      StagesShared(entry.push, push) && forall i :: 0 <= i < |push| ==> NeitherIsBefore(entry.push[i], push[i])
    ensures (forall i :: 0 <= i < |entry.push| && i < |push| ==> PushAsserted(entry.push[i], push[i])) ==>
      (SameKey(entry, entry.layouts, push) <==> StagesShared(entry.push, push))
  {
    forall i | 0 <= i < |entry.layouts|
      ensures Ties(SetLayoutLess, entry.layouts[i], entry.layouts[i])
    {
      LayoutTiesToItself(entry.layouts[i]);
    }
    forall i | 0 <= i < |entry.push| && i < |push|
      ensures Ties(PushLess, entry.push[i], push[i]) <==>
        ShareStage(entry.push[i], push[i]) && NeitherIsBefore(entry.push[i], push[i])
    {
      PushTiesExactly(entry.push[i], push[i]);
    }
  }

  /** The cache after a number of calls; a call is given by the entry that it stores when it does not find one. */
  function CacheAfter(calls: seq<Entry>): seq<Entry> {
    if calls == [] then [] else
      var cache, call := CacheAfter(calls[..|calls| - 1]), calls[|calls| - 1];
      if FirstMatch(cache, call.layouts, call.push) < |cache| then cache else cache + [call]
  }

  /** What call `k` returns. */
  function Returned(calls: seq<Entry>, k: nat): Entry
    requires k < |calls|
  {
    var cache := CacheAfter(calls[..k]);
    var i := FirstMatch(cache, calls[k].layouts, calls[k].push);
    if i < |cache| then cache[i] else calls[k]
  }

  predicate OwnPushConstants(calls: seq<Entry>) {
    forall k :: 0 <= k < |calls| ==> Returned(calls, k).push == calls[k].push
  }

  /** Calls whose keys compare equal are for the same push constant ranges. */
  predicate PushFollowsKeys(calls: seq<Entry>) {
    forall i, j :: 0 <= i < j < |calls| && SameKey(calls[i], calls[j].layouts, calls[j].push) ==> calls[i].push == calls[j].push
  }

  /** In any run, all callers get a layout for their own push constant ranges exactly when no two of them clash. */
  lemma OwnPushConstantsExactly(calls: seq<Entry>)
    ensures OwnPushConstants(calls) <==> PushFollowsKeys(calls)
  {
    if PushFollowsKeys(calls) {
      forall k | 0 <= k < |calls|
        ensures Returned(calls, k).push == calls[k].push
      {
        var cache := CacheAfter(calls[..k]);
        var i := FirstMatch(cache, calls[k].layouts, calls[k].push);
        if i < |cache| {
          var m := CacheIsFromCalls(calls[..k], i);
        }
      }
    }
    if OwnPushConstants(calls) {
      forall i, j | 0 <= i < j < |calls| && SameKey(calls[i], calls[j].layouts, calls[j].push)
        ensures calls[i].push == calls[j].push
      {
        ClashIsNoticed(calls, i, j);
      }
    }
  }

  lemma {:induction false} CacheIsFromCalls(calls: seq<Entry>, i: nat) returns (m: nat)
    requires i < |CacheAfter(calls)|
    ensures m < |calls| && CacheAfter(calls)[i] == calls[m]
  {
    var n := |calls| - 1;
    if i < |CacheAfter(calls[..n])| {
      m := CacheIsFromCalls(calls[..n], i);
    } else {
      m := n;
    }
  }

  lemma {:induction false} CacheGrows(calls: seq<Entry>, k: nat)
    requires k <= |calls|
    ensures CacheAfter(calls[..k]) <= CacheAfter(calls)
  {
    if k < |calls| {
      CacheGrows(calls[..|calls| - 1], k);
      assert calls[..|calls| - 1][..k] == calls[..k];
    } else {
      assert calls[..k] == calls;
    }
  }

  /** After call `k`, what it returned is at the place where its key is found first. */
  lemma ReturnedIsFirst(calls: seq<Entry>, k: nat) returns (p: nat)
    requires k < |calls|
    ensures p < |CacheAfter(calls[..k + 1])| && CacheAfter(calls[..k + 1])[p] == Returned(calls, k)
    ensures p == FirstMatch(CacheAfter(calls[..k]), calls[k].layouts, calls[k].push)
    ensures ElementsTie(SetLayoutLess, Returned(calls, k).layouts, calls[k].layouts)
  {
    var cache := CacheAfter(calls[..k]);
    assert calls[..k + 1][..k] == calls[..k];
    p := FirstMatch(cache, calls[k].layouts, calls[k].push);
    if p == |cache| {
      forall i | 0 <= i < |calls[k].layouts|
        ensures Ties(SetLayoutLess, calls[k].layouts[i], calls[k].layouts[i])
      {
        LayoutTiesToItself(calls[k].layouts[i]);
      }
    }
  }

  lemma LayoutsTieTransitively(a: seq<SetLayout>, b: seq<SetLayout>, c: seq<SetLayout>)
    requires ElementsTie(SetLayoutLess, a, b) && ElementsTie(SetLayoutLess, b, c)
    ensures ElementsTie(SetLayoutLess, a, c)
  {
    forall i | 0 <= i < |a|
      ensures Ties(SetLayoutLess, a[i], c[i])
    {
      SetLayoutTies(a[i], b[i]);
      SetLayoutTies(b[i], c[i]);
      SetLayoutTies(a[i], c[i]);
    }
  }

  lemma ElementsTieBack<T>(less: (T, T) -> bool, a: seq<T>, b: seq<T>)
    requires ElementsTie(less, a, b)
    ensures ElementsTie(less, b, a)
  {
  }

  /** What the later call found would have been found by the earlier one before its own. */
  lemma SamePlace(before: seq<Entry>, later: seq<Entry>, earlierCall: Entry, laterCall: Entry, p: nat, q: nat)
    requires before <= later && p < |later| && q == FirstMatch(later, laterCall.layouts, laterCall.push)
    requires p == FirstMatch(before, earlierCall.layouts, earlierCall.push)
    requires SameKey(earlierCall, laterCall.layouts, laterCall.push)
    requires ElementsTie(SetLayoutLess, later[p].layouts, earlierCall.layouts) && later[p].push == earlierCall.push
    requires q < |later| ==> later[q].push == laterCall.push
    ensures p == q
  {
    LayoutsTieTransitively(later[p].layouts, earlierCall.layouts, laterCall.layouts);
    assert SameKey(later[p], laterCall.layouts, laterCall.push);
    if q < p {
      assert !SameKey(later[q], earlierCall.layouts, earlierCall.push);
      FoundByBoth(later[q], earlierCall, laterCall);
    }
  }

  /** If both calls got their own ranges, they got the same entry. */
  lemma ClashIsNoticed(calls: seq<Entry>, i: nat, j: nat)
    requires i < j < |calls| && SameKey(calls[i], calls[j].layouts, calls[j].push)
    requires Returned(calls, i).push == calls[i].push && Returned(calls, j).push == calls[j].push
    ensures calls[i].push == calls[j].push
  {
    var p := ReturnedIsFirst(calls, i);
    CachesGrow(calls, i, j);
    var later := CacheAfter(calls[..j]);
    SamePlace(CacheAfter(calls[..i]), later, calls[i], calls[j], p, FirstMatch(later, calls[j].layouts, calls[j].push));
  }

  lemma CachesGrow(calls: seq<Entry>, i: nat, j: nat)
    requires i < j <= |calls|
    ensures CacheAfter(calls[..i]) <= CacheAfter(calls[..i + 1]) <= CacheAfter(calls[..j])
  {
    assert calls[..j][..i + 1] == calls[..i + 1] && calls[..i + 1][..i] == calls[..i];
    CacheGrows(calls[..j], i + 1);
    CacheGrows(calls[..i + 1], i);
  }

  lemma FoundByBoth(found: Entry, earlier: Entry, later: Entry)
    requires SameKey(earlier, later.layouts, later.push)
    requires ElementsTie(SetLayoutLess, found.layouts, later.layouts) && found.push == later.push
    ensures SameKey(found, earlier.layouts, earlier.push)
  {
    ElementsTieBack(SetLayoutLess, earlier.layouts, later.layouts);
    ElementsTieBack(PushLess, earlier.push, later.push);
    LayoutsTieTransitively(found.layouts, later.layouts, earlier.layouts);
  }

  /** For example, two pipelines without descriptor sets, of which the second has more push constants. */
  lemma PushConstantsClash()
    ensures !OwnPushConstants([Entry([], [PushConstantRange(1, 0, 8)], []), Entry([], [PushConstantRange(1, 0, 16)], [])])
  {
    var small, large := PushConstantRange(1, 0, 8), PushConstantRange(1, 0, 16);
    var calls := [Entry([], [small], []), Entry([], [large], [])];
    PushConstantsMayBeThoseOfAnother(calls[0], calls[1].push);
    assert SameKey(calls[0], calls[1].layouts, calls[1].push);
    OwnPushConstantsExactly(calls);
  }
}
