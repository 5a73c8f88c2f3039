/** The two atomic bit masks that the X event thread, task-adding threads and the render thread share. */
module SpecialCircumstances {

  const EXTENT_CHANGED: bv8 := 1
  const MUST_CLOSE: bv8 := 2
  const HAVE_NO_SWAPCHAIN: bv8 := 4
  const HAVE_SYNCHRONOUS_TASK: bv8 := 8
  const MINIMIZED: bv8 := 16
  const MAP_CHANGED: bv8 := 32

  const HANDLED_UNMAPPED: bv8 := 1
  const UNHANDLED_UNMAPPED: bv8 := 0
  const HANDLED_MAPPED: bv8 := 2
  const UNHANDLED_MAPPED: bv8 := 3

  const OR_UNMAPPED_TO_MAPPED: bv8 := 3
  const AND_MAPPED_TO_UNMAPPED: bv8 := 0
  const OR_HANDLE_UNMAPPED: bv8 := 1
  const AND_HANDLE_MAPPED: bv8 := 2

  const MAPPED: bv8 := 2

  predicate Has(flags: bv8, bit: bv8) {
    flags & bit != 0
  }

  // ----- what the bits mean -----

  /** The special circumstances that a mask of flags stands for. */
  datatype Flags = Flags(
    extentChanged: bool,
    mustClose: bool,
    haveNoSwapchain: bool,
    haveSynchronousTask: bool,
    minimized: bool,
    mapChanged: bool)
  {
    predicate CanRender() {
      !haveNoSwapchain && !minimized
    }
  }

  const NONE := Flags(false, false, false, false, false, false)

  function Decode(flags: bv8): Flags {
    Flags(Has(flags, EXTENT_CHANGED), Has(flags, MUST_CLOSE), Has(flags, HAVE_NO_SWAPCHAIN),
          Has(flags, HAVE_SYNCHRONOUS_TASK), Has(flags, MINIMIZED), Has(flags, MAP_CHANGED))
  }

  /** Whether the window is mapped, and whether the render loop handled that. */
  datatype MapFlags = MapFlags(mapped: bool, handled: bool)

  function DecodeMap(mapFlags: bv8): MapFlags {
    MapFlags(Has(mapFlags, MAPPED), mapFlags == HANDLED_UNMAPPED || mapFlags == HANDLED_MAPPED)
  }

  /** The X event thread changes the polarity. The change still has to be handled. */
  function Remap(mapped: bool): MapFlags {
    MapFlags(mapped, false)
  }

  /** The render thread handles the polarity that it saw, which has no effect when that is not the polarity anymore. */
  function Handle(mapFlags: MapFlags, seen: MapFlags): MapFlags {
    MapFlags(mapFlags.mapped, mapFlags.mapped == seen.mapped)
  }

  /** The decoders agree with `can_render`, and tell when there are no special circumstances at all. */
  lemma DecodeIsFaithful(flags: bv8)
    requires flags <= 63
    ensures Decode(flags).CanRender() <==> !Has(flags, HAVE_NO_SWAPCHAIN | MINIMIZED)
    ensures Decode(flags) == NONE <==> flags == 0
  {
    assert flags == (flags & EXTENT_CHANGED) | (flags & MUST_CLOSE) | (flags & HAVE_NO_SWAPCHAIN)
                  | (flags & HAVE_SYNCHRONOUS_TASK) | (flags & MINIMIZED) | (flags & MAP_CHANGED);
  }

  /** Setting and resetting a bit changes one circumstance, and no other. */
  lemma SetAndReset(flags: bv8)
    requires flags <= 63
    ensures Decode(flags | EXTENT_CHANGED) == Decode(flags).(extentChanged := true)
    ensures Decode(flags & !EXTENT_CHANGED) == Decode(flags).(extentChanged := false)
    ensures Decode(flags | MUST_CLOSE) == Decode(flags).(mustClose := true)
    ensures Decode(flags | HAVE_NO_SWAPCHAIN) == Decode(flags).(haveNoSwapchain := true)
    ensures Decode(flags & !HAVE_NO_SWAPCHAIN) == Decode(flags).(haveNoSwapchain := false)
    ensures Decode(flags | HAVE_SYNCHRONOUS_TASK) == Decode(flags).(haveSynchronousTask := true)
    ensures Decode(flags & !HAVE_SYNCHRONOUS_TASK) == Decode(flags).(haveSynchronousTask := false)
    ensures Decode(flags | MINIMIZED) == Decode(flags).(minimized := true)
    ensures Decode(flags & !MINIMIZED) == Decode(flags).(minimized := false)
    ensures Decode(flags | MAP_CHANGED) == Decode(flags).(mapChanged := true)
    ensures Decode(flags & !MAP_CHANGED) == Decode(flags).(mapChanged := false)
  {
  }

  /** The four values of the map flags encode the two circumstances, and the four masks do what is said above. */
  lemma MapMasks(mapFlags: bv8, seen: bv8)
    requires mapFlags <= 3 && seen <= 3
    ensures DecodeMap(mapFlags | OR_UNMAPPED_TO_MAPPED) == Remap(true)
    ensures DecodeMap(mapFlags & AND_MAPPED_TO_UNMAPPED) == Remap(false)
    ensures DecodeMap(seen).mapped ==> DecodeMap(mapFlags & AND_HANDLE_MAPPED) == Handle(DecodeMap(mapFlags), DecodeMap(seen))
    ensures !DecodeMap(seen).mapped ==> DecodeMap(mapFlags | OR_HANDLE_UNMAPPED) == Handle(DecodeMap(mapFlags), DecodeMap(seen))
    ensures DecodeMap(mapFlags) == DecodeMap(seen) ==> mapFlags == seen
  {
  }

  // ----- the class -----

  /** Each method body performs its atomic operations without interference; see `RenderLoop` for the interleavings. */
  class SpecialCircumstances {
    var flags: bv8
    var mapFlags: bv8

    ghost predicate Valid()
      reads this
    {
      flags <= 63 && mapFlags <= 3
    }

    constructor ()
      ensures Valid() && Decode(flags) == NONE && DecodeMap(mapFlags) == MapFlags(true, true)
    {
      flags, mapFlags := 0, HANDLED_MAPPED;
    }

    method SetMapped()
      requires Valid()
      modifies this
      ensures Valid()
      ensures old(DecodeMap(mapFlags)).mapped ==> mapFlags == old(mapFlags) && flags == old(flags)
      ensures !old(DecodeMap(mapFlags)).mapped ==>
        DecodeMap(mapFlags) == Remap(true) && Decode(flags) == old(Decode(flags)).(mapChanged := true)
    {
      if Has(mapFlags, MAPPED) {
        return;
      }
      MapMasks(mapFlags, mapFlags);
      SetAndReset(flags);
      mapFlags := mapFlags | OR_UNMAPPED_TO_MAPPED;
      flags := flags | MAP_CHANGED;
    }

    method SetUnmapped()
      requires Valid()
      modifies this
      ensures Valid()
      ensures !old(DecodeMap(mapFlags)).mapped ==> mapFlags == old(mapFlags) && flags == old(flags)
      ensures old(DecodeMap(mapFlags)).mapped ==>
        DecodeMap(mapFlags) == Remap(false) && Decode(flags) == old(Decode(flags)).(mapChanged := true)
    {
      if !Has(mapFlags, MAPPED) {
        return;
      }
      MapMasks(mapFlags, mapFlags);
      SetAndReset(flags);
      mapFlags := mapFlags & AND_MAPPED_TO_UNMAPPED;
      flags := flags | MAP_CHANGED;
    }

    method HandledMapChanged(seen: bv8) returns (success: bool)
      requires Valid() && seen <= 3
      modifies this
      ensures Valid()
      ensures DecodeMap(mapFlags) == Handle(old(DecodeMap(mapFlags)), DecodeMap(seen))
      ensures success <==> DecodeMap(mapFlags).handled
      ensures Decode(flags) == if success then old(Decode(flags)) else old(Decode(flags)).(mapChanged := true)
    {
      MapMasks(mapFlags, seen);
      SetAndReset(flags);
      if Has(seen, MAPPED) {
        mapFlags := mapFlags & AND_HANDLE_MAPPED;
      } else {
        mapFlags := mapFlags | OR_HANDLE_UNMAPPED;
      }
      var noChange := mapFlags == UNHANDLED_UNMAPPED || mapFlags == UNHANDLED_MAPPED;
      if noChange {
        flags := flags | MAP_CHANGED;
      }
      success := !noChange;
    }

    method ResetMapChanged()
      requires Valid()
      modifies this`flags
      ensures Valid() && Decode(flags) == old(Decode(flags)).(mapChanged := false)
    {
      SetAndReset(flags);
      flags := flags & !MAP_CHANGED;
    }

    method SetMinimized()
      requires Valid()
      modifies this`flags
      ensures Valid() && Decode(flags) == old(Decode(flags)).(minimized := true)
    {
      SetAndReset(flags);
      flags := flags | MINIMIZED;
    }

    method SetUnminimized()
      requires Valid()
      modifies this`flags
      ensures Valid() && Decode(flags) == old(Decode(flags)).(minimized := false)
    {
      SetAndReset(flags);
      flags := flags & !MINIMIZED;
    }

    /** The window counts as minimized while it is not mapped. */
    method UpdateMinimized(seen: bv8)
      requires Valid() && seen <= 3
      modifies this`flags
      ensures Valid() && Decode(flags) == old(Decode(flags)).(minimized := !DecodeMap(seen).mapped)
    {
      if !Has(seen, MAPPED) {
        SetMinimized();
      } else {
        SetUnminimized();
      }
    }

    /** `SynchronousWindow::handle_map_changed`. */
    method HandleMapChanged(seen: bv8) returns (success: bool)
      requires Valid() && seen <= 3
      modifies this
      ensures Valid()
      ensures DecodeMap(mapFlags) == Handle(old(DecodeMap(mapFlags)), DecodeMap(seen))
      ensures success <==> DecodeMap(mapFlags).handled
      ensures Decode(flags) == old(Decode(flags)).(mapChanged := !success, minimized := !DecodeMap(seen).mapped)
    {
      ResetMapChanged();
      UpdateMinimized(seen);
      success := HandledMapChanged(seen);
    }
  }
}
