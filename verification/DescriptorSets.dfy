/**
 * Descriptor sets from their allocation to their binding: `LogicalDevice::allocate_descriptor_sets` flattens the
 * layouts, allocates all sets at once and regroups the handles; the constructor of `Pipeline` transposes the groups
 * into one row of handles per frame.
 */
module DescriptorSets {

  /** `FrameResourceCapableDescriptorSet`: a single handle, or one per frame resource. */
  datatype DescriptorSet = DescriptorSet(handles: seq<nat>) {
    predicate IsUsed() {
      handles != []
    }

    predicate IsFrameResource() {
      |handles| > 1
    }

    /** `operator[]` of a frame resource, and the conversion to a single handle of any other. */
    function At(frame: nat): nat
      requires IsUsed() && (IsFrameResource() ==> frame < |handles|)
    {
      if IsFrameResource() then handles[frame] else handles[0]
    }
  }

  // ----- the flattened order -----

  /** The number of handles for one set index. */
  function Width(hasFrameResource: bool, frames: nat): nat {
    if hasFrameResource then frames else 1
  }

  /** Where the handles of the set index with number `n` begin. */
  function Offset(has: seq<bool>, frames: nat, n: nat): nat
    requires n <= |has|
  {
    if n == 0 then 0 else Offset(has, frames, n - 1) + Width(has[n - 1], frames)
  }

  lemma {:induction false} OffsetsGrow(has: seq<bool>, frames: nat, m: nat, n: nat)
    requires m <= n <= |has|
    ensures Offset(has, frames, m) <= Offset(has, frames, n)
  {
    if m < n {
      OffsetsGrow(has, frames, m, n - 1);
    }
  }

  /** All elements of `s` from `from` up to `to` are `x`. */
  predicate Filled(s: seq<nat>, from: nat, to: nat, x: nat) {
    to <= |s| && forall k :: from <= k < to ==> s[k] == x
  }

  /** The first `n` values are repeated in `flat`, each in its own group. */
  predicate Flattened(flat: seq<nat>, values: seq<nat>, has: seq<bool>, frames: nat, n: nat)
    requires n <= |has| && n <= |values|
  {
    && |flat| == Offset(has, frames, n)
    && forall i :: 0 <= i < n ==> Filled(flat, Offset(has, frames, i), Offset(has, frames, i + 1), values[i])
  }

  lemma FlattenOne(flat: seq<nat>, more: seq<nat>, values: seq<nat>, has: seq<bool>, frames: nat, n: nat)
    requires n < |has| && n < |values| && Flattened(flat, values, has, frames, n)
    requires |more| == Offset(has, frames, n + 1) && flat <= more
    requires Filled(more, |flat|, |more|, values[n])
    ensures Flattened(more, values, has, frames, n + 1)
  {
    forall i | 0 <= i < n
      ensures Filled(more, Offset(has, frames, i), Offset(has, frames, i + 1), values[i])
    {
      assert Filled(flat, Offset(has, frames, i), Offset(has, frames, i + 1), values[i]);
    }
  }

  /** Both vectors that are passed to Vulkan. Without array sizes, all of them are zero. */
  method Flatten(frames: nat, layouts: seq<nat>, sizes: seq<nat>, has: seq<bool>) returns (flatLayouts: seq<nat>, flatSizes: seq<nat>)
    requires |has| == |layouts|
    requires sizes == [] || |sizes| == |layouts|
    ensures Flattened(flatLayouts, layouts, has, frames, |layouts|)
    ensures Flattened(flatSizes, if sizes == [] then seq(|layouts|, _ => 0) else sizes, has, frames, |layouts|)
  {
    flatLayouts, flatSizes := [], [];
    ghost var allSizes := if sizes == [] then seq(|layouts|, _ => 0) else sizes;
    for n := 0 to |layouts|
      invariant Flattened(flatLayouts, layouts, has, frames, n)
      invariant Flattened(flatSizes, allSizes, has, frames, n)
    {
      ghost var before, sizesBefore := flatLayouts, flatSizes;
      var size := if sizes == [] then 0 else sizes[n];
      for frame := 0 to (if has[n] then frames else 1)
        invariant |flatLayouts| == |before| + frame && before <= flatLayouts
        invariant |flatSizes| == |sizesBefore| + frame && sizesBefore <= flatSizes
        invariant Filled(flatLayouts, |before|, |flatLayouts|, layouts[n])
        invariant Filled(flatSizes, |sizesBefore|, |flatSizes|, size)
      {
        flatLayouts := flatLayouts + [layouts[n]];
        flatSizes := flatSizes + [size];
      }
      FlattenOne(before, flatLayouts, layouts, has, frames, n);
      FlattenOne(sizesBefore, flatSizes, allSizes, has, frames, n);
    }
  }

  /** The group of handles of the set index with number `n`. */
  function Group(raw: seq<nat>, has: seq<bool>, frames: nat, n: nat): seq<nat>
    requires n < |has| && |raw| == Offset(has, frames, |has|)
  {
    OffsetsGrow(has, frames, n + 1, |has|);
    raw[Offset(has, frames, n)..Offset(has, frames, n + 1)]
  }

  method Regroup(frames: nat, has: seq<bool>, raw: seq<nat>) returns (sets: seq<DescriptorSet>)
    requires |raw| == Offset(has, frames, |has|)
    ensures |sets| == |has|
    ensures forall n :: 0 <= n < |has| ==> sets[n].handles == Group(raw, has, frames, n)
  {
    sets := [];
    var position := 0;
    for n := 0 to |has|
      invariant |sets| == n && position == Offset(has, frames, n)
      invariant forall i :: 0 <= i < n ==> sets[i].handles == Group(raw, has, frames, i)
    {
      OffsetsGrow(has, frames, n + 1, |has|);
      var count := if has[n] then frames else 1;
      sets := sets + [DescriptorSet(raw[position..position + count])];
      position := position + count;
    }
  }

  // ----- allocation -----

  predicate NoDuplicates(s: seq<nat>) {
    forall i, j :: 0 <= i < j < |s| ==> s[i] != s[j]
  }

  /** The descriptor pool of Vulkan: it allocates handles that it did not return before. */
  class DescriptorPool {
    ghost var layoutOf: map<nat, nat>          // The layout that each handle was allocated from.
    var next: nat

    ghost predicate Valid()
      reads this
    {
      forall h :: h in layoutOf ==> h < next
    }

    constructor ()
      ensures Valid() && layoutOf == map[]
    {
      layoutOf, next := map[], 0;
    }

    method Allocate(flat: seq<nat>) returns (raw: seq<nat>)
      requires Valid()
      modifies this
      ensures Valid()
      ensures |raw| == |flat| && NoDuplicates(raw)
      ensures forall i :: 0 <= i < |raw| ==> raw[i] !in old(layoutOf) && raw[i] in layoutOf && layoutOf[raw[i]] == flat[i]
      ensures forall h :: h in old(layoutOf) ==> h in layoutOf && layoutOf[h] == old(layoutOf)[h]
    {
      raw := [];
      for i := 0 to |flat|
        invariant Valid() && old(next) + i == next && |raw| == i
        invariant forall j :: 0 <= j < i ==> raw[j] == old(next) + j && raw[j] in layoutOf && layoutOf[raw[j]] == flat[j]
        invariant forall h :: h in old(layoutOf) ==> h in layoutOf && layoutOf[h] == old(layoutOf)[h]
      {
        raw := raw + [next];
        layoutOf := layoutOf[next := flat[i]];
        next := next + 1;
      }
    }
  }

  /** The handles of `set` were allocated from `layout`, as many as needed, all different. */
  ghost predicate IsFrom(group: DescriptorSet, layoutOf: map<nat, nat>, layout: nat, hasFrameResource: bool, frames: nat) {
    && |group.handles| == Width(hasFrameResource, frames)
    && NoDuplicates(group.handles)
    && forall h :: h in group.handles ==> h in layoutOf && layoutOf[h] == layout
  }

  predicate Disjoint(sets: seq<DescriptorSet>) {
    forall m, n, h :: 0 <= m < n < |sets| && h in sets[m].handles ==> h !in sets[n].handles
  }

  ghost predicate Allocated(sets: seq<DescriptorSet>, layoutOf: map<nat, nat>, layouts: seq<nat>, has: seq<bool>, frames: nat) {
    && |sets| == |layouts| == |has|
    && (forall n :: 0 <= n < |sets| ==> IsFrom(sets[n], layoutOf, layouts[n], has[n], frames))
    && Disjoint(sets)
  }

  lemma GroupIsFrom(raw: seq<nat>, flat: seq<nat>, group: DescriptorSet, layoutOf: map<nat, nat>, layouts: seq<nat>,
      has: seq<bool>, frames: nat, n: nat)
    requires n < |has| == |layouts| && |raw| == Offset(has, frames, |has|) && |raw| == |flat| && NoDuplicates(raw)
    requires forall i :: 0 <= i < |raw| ==> raw[i] in layoutOf && layoutOf[raw[i]] == flat[i]
    requires Flattened(flat, layouts, has, frames, |layouts|)
    requires group.handles == Group(raw, has, frames, n)
    ensures IsFrom(group, layoutOf, layouts[n], has[n], frames)
  {
    OffsetsGrow(has, frames, n + 1, |has|);
    assert Filled(flat, Offset(has, frames, n), Offset(has, frames, n + 1), layouts[n]);
    forall h | h in group.handles
      ensures h in layoutOf && layoutOf[h] == layouts[n]
    {
      var j :| 0 <= j < |group.handles| && group.handles[j] == h;
      assert h == raw[Offset(has, frames, n) + j];
    }
  }

  lemma GroupsDiffer(raw: seq<nat>, has: seq<bool>, frames: nat, m: nat, n: nat, i: nat, j: nat)
    requires |raw| == Offset(has, frames, |has|) && NoDuplicates(raw) && m < n < |has|
    requires i < |Group(raw, has, frames, m)| && j < |Group(raw, has, frames, n)|
    ensures Group(raw, has, frames, m)[i] != Group(raw, has, frames, n)[j]
  {
    OffsetsGrow(has, frames, m + 1, n);
    OffsetsGrow(has, frames, n + 1, |has|);
    assert Offset(has, frames, m) + i < Offset(has, frames, n) + j;
  }

  lemma GroupsAreDisjoint(raw: seq<nat>, sets: seq<DescriptorSet>, has: seq<bool>, frames: nat)
    requires |raw| == Offset(has, frames, |has|) && NoDuplicates(raw) && |sets| == |has|
    requires forall n :: 0 <= n < |has| ==> sets[n].handles == Group(raw, has, frames, n)
    ensures Disjoint(sets)
  {
    forall m, n, h | 0 <= m < n < |sets| && h in sets[m].handles && h in sets[n].handles
      ensures false
    {
      var i :| 0 <= i < |sets[m].handles| && sets[m].handles[i] == h;
      var j :| 0 <= j < |sets[n].handles| && sets[n].handles[j] == h;
      GroupsDiffer(raw, has, frames, m, n, i, j);
    }
  }

  method AllocateDescriptorSets(frames: nat, layouts: seq<nat>, sizes: seq<nat>, has: seq<bool>, pool: DescriptorPool)
    returns (sets: seq<DescriptorSet>)
    requires pool.Valid()
    requires |has| == |layouts| && (sizes == [] || |sizes| == |layouts|)
    modifies pool
    ensures pool.Valid()
    ensures Allocated(sets, pool.layoutOf, layouts, has, frames)
    ensures forall h :: h in old(pool.layoutOf) ==> h in pool.layoutOf && pool.layoutOf[h] == old(pool.layoutOf)[h]
    ensures forall n, h :: 0 <= n < |sets| && h in sets[n].handles ==> h !in old(pool.layoutOf)
  {
    var flat, flatSizes := Flatten(frames, layouts, sizes, has);
    var raw := pool.Allocate(flat);
    sets := Regroup(frames, has, raw);
    GroupsAreAllocated(raw, flat, sets, pool.layoutOf, layouts, has, frames);
    GroupsAreRaw(raw, sets, has, frames);
  }

  lemma GroupsAreAllocated(raw: seq<nat>, flat: seq<nat>, sets: seq<DescriptorSet>, layoutOf: map<nat, nat>, layouts: seq<nat>,
      has: seq<bool>, frames: nat)
    requires |sets| == |has| == |layouts| && |raw| == Offset(has, frames, |has|) == |flat| && NoDuplicates(raw)
    requires forall i :: 0 <= i < |raw| ==> raw[i] in layoutOf && layoutOf[raw[i]] == flat[i]
    requires Flattened(flat, layouts, has, frames, |layouts|)
    requires forall n :: 0 <= n < |has| ==> sets[n].handles == Group(raw, has, frames, n)
    ensures Allocated(sets, layoutOf, layouts, has, frames)
  {
    forall n | 0 <= n < |sets|
      ensures IsFrom(sets[n], layoutOf, layouts[n], has[n], frames)
    {
      GroupIsFrom(raw, flat, sets[n], layoutOf, layouts, has, frames, n);
    }
    GroupsAreDisjoint(raw, sets, has, frames);
  }

  lemma GroupsAreRaw(raw: seq<nat>, sets: seq<DescriptorSet>, has: seq<bool>, frames: nat)
    requires |sets| == |has| && |raw| == Offset(has, frames, |has|)
    requires forall n :: 0 <= n < |has| ==> sets[n].handles == Group(raw, has, frames, n)
    ensures forall n, h :: 0 <= n < |sets| && h in sets[n].handles ==> h in raw
  {
    forall n, h | 0 <= n < |sets| && h in sets[n].handles
      ensures h in raw
    {
      var i :| 0 <= i < |sets[n].handles| && sets[n].handles[i] == h;
      OffsetsGrow(has, frames, n + 1, |has|);
      assert h == raw[Offset(has, frames, n) + i];
    }
  }

  /**
   * The paranoia check of `PipelineFactory`, that a set is a frame resource when it was asked to be: it fails for a
   * window with one frame resource, because one handle is taken to be a single handle.
   */
  lemma FrameResourceAsAsked(group: DescriptorSet, layoutOf: map<nat, nat>, layout: nat, hasFrameResource: bool, frames: nat)
    requires IsFrom(group, layoutOf, layout, hasFrameResource, frames)
    ensures group.IsFrameResource() == hasFrameResource <==> !(hasFrameResource && frames <= 1)
  {
  }

  // ----- the pipeline -----

  /** What the constructor of `Pipeline` needs: as many handles as frames, or a single one. */
  predicate Usable(sets: seq<DescriptorSet>, frames: nat) {
    forall s :: 0 <= s < |sets| ==> sets[s].IsUsed() && (sets[s].IsFrameResource() ==> |sets[s].handles| == frames)
  }

  class Pipeline {
    var perFrame: seq<seq<nat>>        // m_descriptor_set_per_set_index_per_frame_resource.

    constructor (sets: seq<DescriptorSet>, frames: nat)
      requires Usable(sets, frames)
      ensures |perFrame| == frames
      ensures forall f :: 0 <= f < frames ==> |perFrame[f]| == |sets|
      ensures forall f, s :: 0 <= f < frames && 0 <= s < |sets| ==> perFrame[f][s] == sets[s].At(f)
    {
      var rows := [];
      for frame := 0 to frames
        invariant |rows| == frame
        invariant forall f :: 0 <= f < frame ==> |rows[f]| == |sets|
        invariant forall f, s :: 0 <= f < frame && 0 <= s < |sets| ==> rows[f][s] == sets[s].At(f)
      {
        var row := [];
        for s := 0 to |sets|
          invariant |row| == s
          invariant forall i :: 0 <= i < s ==> row[i] == sets[i].At(frame)
        {
          if sets[s].IsFrameResource() {
            row := row + [sets[s].handles[frame]];
          } else {
            row := row + [sets[s].handles[0]];
          }
        }
        rows := rows + [row];
      }
      perFrame := rows;
    }
  }

  /** Sets that were allocated for the frames of the pipeline can be used by it, also when there is only one frame. */
  lemma AllocatedIsUsable(sets: seq<DescriptorSet>, layoutOf: map<nat, nat>, layouts: seq<nat>, has: seq<bool>, frames: nat)
    requires Allocated(sets, layoutOf, layouts, has, frames)
    ensures Usable(sets, frames) <==> frames > 0 || forall n :: 0 <= n < |has| ==> !has[n]
  {
    forall n | 0 <= n < |sets|
      ensures sets[n].IsUsed() <==> !(has[n] && frames == 0)
      ensures sets[n].IsFrameResource() ==> |sets[n].handles| == frames
    {
      assert IsFrom(sets[n], layoutOf, layouts[n], has[n], frames);
    }
  }

  /** Every frame binds, at every set index, a handle that was allocated from the layout of that set index. */
  lemma BoundIsFromLayout(sets: seq<DescriptorSet>, layoutOf: map<nat, nat>, layouts: seq<nat>, has: seq<bool>, frames: nat, f: nat, s: nat)
    requires Allocated(sets, layoutOf, layouts, has, frames) && Usable(sets, frames) && f < frames && s < |sets|
    ensures sets[s].At(f) in layoutOf && layoutOf[sets[s].At(f)] == layouts[s]
  {
    assert IsFrom(sets[s], layoutOf, layouts[s], has[s], frames);
  }

  /** Two places share a handle exactly when they have the same set index, and the same frame or no frame resource. */
  lemma BoundIsShared(sets: seq<DescriptorSet>, layoutOf: map<nat, nat>, layouts: seq<nat>, has: seq<bool>, frames: nat,
      f: nat, s: nat, g: nat, t: nat)
    requires Allocated(sets, layoutOf, layouts, has, frames) && Usable(sets, frames)
    requires f < frames && s < |sets| && g < frames && t < |sets|
    ensures sets[s].At(f) == sets[t].At(g) <==> s == t && (f == g || !has[s])
  {
    assert IsFrom(sets[s], layoutOf, layouts[s], has[s], frames);
    assert sets[s].At(f) in sets[s].handles && sets[t].At(g) in sets[t].handles;
    if s == t && f != g && has[s] {
      assert sets[s].handles[f] != sets[s].handles[g];
    }
  }

  /** Every allocated handle is bound by some frame. */
  lemma EveryHandleIsBound(sets: seq<DescriptorSet>, layoutOf: map<nat, nat>, layouts: seq<nat>, has: seq<bool>, frames: nat,
      s: nat, h: nat) returns (f: nat)
    requires Allocated(sets, layoutOf, layouts, has, frames) && Usable(sets, frames) && frames > 0
    requires s < |sets| && h in sets[s].handles
    ensures f < frames && sets[s].At(f) == h
  {
    assert IsFrom(sets[s], layoutOf, layouts[s], has[s], frames);
    var j :| 0 <= j < |sets[s].handles| && sets[s].handles[j] == h;
    f := if sets[s].IsFrameResource() then j else 0;
  }
}
