/**
 * The render loop of `SynchronousWindow::multiplex_impl`, interleaved with the X event thread, with threads that
 * add synchronous tasks, and with the frame rate limiter. Every step is one atomic operation on shared state.
 */
module RenderLoop {
  import opened SpecialCircumstances

  type TaskId = nat

  datatype Extent = Extent(width: nat, height: nat)

  /** What the X event thread is about to do. */
  datatype XPc =
    | XIdle
    | XRemap(mapped: bool)             // Saw the other polarity; about to update the map flags.
    | XSetFlag                         // About to set map_changed_bit.

  /** What the render thread is about to do. */
  datatype LoopPc =
    | Sleeping                         // Returned from the state; waits for frame_timer.
    | Load                             // Read the flags.
    | Top                              // Test for special circumstances.
    | Rendering                        // Inside render_frame.
    | StopTimer                        // Caught OutOfDateKHR_Exception.
    | DrainTimer                       // The limiter could not be stopped: wait for its signal.
    | Reload                           // Read the flags again.
    | Special                          // Start handling special circumstances.
    | ResetTask                        // Reset have_synchronous_task_bit.
    | MainLoop                         // Inside mainloop.
    | SetTask                          // mainloop returned true.
    | TasksDone
    | TestMap
    | ResetMap                         // Inside handle_map_changed.
    | SetMinimized
    | HandleMap
    | SetMap                           // Inside handled_map_changed; about to set map_changed_bit again.
    | MapHandled
    | TestRender
    | GetExtent                        // Inside handle_window_size_changed.
    | NoSwapchain
    | Recreate
    | ReloadResized
    | LoopEnd
    | Closed

  datatype Interval = Frame | Slow

  /** The limiter is stopped, running, or about to signal frame_timer. */
  datatype Timer = Stopped | Running | Expiring

  datatype State = State(
    flags: Flags,
    mapFlags: MapFlags,
    extent: Extent,                    // The last extent that the X server reported.
    x: XPc,
    runnable: set<TaskId>,             // The tasks in the engine that can run.
    adders: nat,                       // The number of threads that added a task but did not set the flag yet.
    loop: LoopPc,
    special: Flags,                    // The local variable special_circumstances.
    needDrawFrame: bool,
    seen: MapFlags,                    // The local variable map_flags.
    swapchainExtent: Extent,           // The extent that was last passed to Swapchain::recreate.
    timer: Timer,
    signaled: bool,                    // frame_timer was signaled and not waited for.
    started: set<Interval>,            // The intervals of the limiter that this pass started and did not stop.
    mapEvents: nat,                    // The number of times that the X event thread changed the polarity.
    eventsAtSnapshot: nat,
    failures: nat)                     // The number of times that handle_map_changed failed.

  datatype Step =
    // The X event thread.
    | MapEvent(mapped: bool)
    | XStep
    | ResizeEvent(extent: Extent)
    | CloseEvent
    | ForceRecreate                    // recreate_swapchain, from any thread.
    // Threads that run or signal a synchronous task.
    | AddTask(task: TaskId)
    | FlagTask
    // The frame rate limiter.
    | TimerStep
    // The render thread. A step that has a choice to make is told what to choose.
    | LoopStep
    | OutOfDate                        // render_frame throws.
    | RunTask(task: TaskId)            // mainloop runs a task until it does not need to run anymore.

  function Initial(extent: Extent): State {
    State(NONE, MapFlags(true, true), extent, XIdle, {}, 0, Load, NONE, false, MapFlags(true, true), extent,
          Stopped, false, {}, 0, 0, 0)
  }

  /** A step that cannot be taken changes nothing. */
  function Next(s: State, step: Step): State {
    match step
    case MapEvent(mapped) =>
      if s.x.XIdle? && s.mapFlags.mapped != mapped then s.(x := XRemap(mapped)) else s
    case XStep => XNext(s)
    case ResizeEvent(extent) =>
      // The lock on the extent makes this one step.
      if s.x.XIdle? && s.extent != extent then s.(extent := extent, flags := s.flags.(extentChanged := true)) else s
    case CloseEvent => if s.x.XIdle? then s.(flags := s.flags.(mustClose := true)) else s
    case ForceRecreate => s.(flags := s.flags.(extentChanged := true))
    case AddTask(task) => s.(runnable := s.runnable + {task}, adders := s.adders + 1)
    case FlagTask =>
      if s.adders > 0 then s.(adders := s.adders - 1, flags := s.flags.(haveSynchronousTask := true)) else s
    case TimerStep =>
      if s.timer.Running? then s.(timer := Expiring)
      else if s.timer.Expiring? then s.(timer := Stopped, signaled := true)
      else s
    case LoopStep => LoopNext(s)
    case OutOfDate =>
      if s.loop.Rendering? then s.(flags := s.flags.(extentChanged := true), loop := StopTimer) else s
    case RunTask(task) => if s.loop.MainLoop? then s.(runnable := s.runnable - {task}) else s
  }

  function XNext(s: State): State {
    match s.x
    case XIdle => s
    case XRemap(mapped) => s.(x := XSetFlag, mapFlags := Remap(mapped), mapEvents := s.mapEvents + 1)
    case XSetFlag => s.(x := XIdle, flags := s.flags.(mapChanged := true))
  }

  function StartTimer(s: State, interval: Interval): State {
    s.(timer := Running, started := s.started + {interval})
  }

  function LoopNext(s: State): State {
    match s.loop
    case Special | ResetTask | MainLoop | SetTask | TasksDone => TaskNext(s)
    case TestMap | ResetMap | SetMinimized | HandleMap | SetMap | MapHandled => MapNext(s)
    case TestRender | GetExtent | NoSwapchain | Recreate | ReloadResized => ResizeNext(s)
    case _ => FrameNext(s)
  }

  /** The steps of the frame itself, and how a pass ends. */
  function FrameNext(s: State): State {
    match s.loop
    case Sleeping => if s.signaled then s.(signaled := false, started := {}, loop := Load) else s
    case Load => s.(special := s.flags, loop := Top)
    case Top => if s.special == NONE then StartTimer(s, Frame).(loop := Rendering) else s.(loop := Special)
    case Rendering => s.(loop := Sleeping)
    case StopTimer =>
      if s.timer.Running? then s.(timer := Stopped, started := {}, loop := Reload) else s.(loop := DrainTimer)
    case DrainTimer =>
      if s.timer.Stopped? && s.signaled then s.(signaled := false, started := {}, loop := Reload) else s
    case Reload => s.(special := s.flags, loop := Special)
    case LoopEnd => s.(loop := if s.needDrawFrame then Top else Sleeping)
    case _ => s
  }

  /** The steps of `SynchronousEngine::handle_synchronous_tasks`. */
  function TaskNext(s: State): State {
    match s.loop
    case Special =>
      var t := s.(needDrawFrame := false);
      if s.special.mustClose then t.(loop := Closed)
      else if s.special.haveSynchronousTask then t.(loop := ResetTask)
      else t.(loop := TestMap)
    case ResetTask => s.(flags := s.flags.(haveSynchronousTask := false), loop := MainLoop)
    case MainLoop => s.(loop := if s.runnable != {} then SetTask else TasksDone)
    case SetTask => s.(flags := s.flags.(haveSynchronousTask := true), loop := TasksDone)
    case TasksDone => s.(special := s.special.(haveSynchronousTask := false), needDrawFrame := true, loop := TestMap)
    case _ => s
  }

  /** The steps of `handle_map_changed`. */
  function MapNext(s: State): State {
    match s.loop
    case TestMap =>
      if s.special.mapChanged
      then s.(seen := s.mapFlags, eventsAtSnapshot := s.mapEvents, loop := ResetMap)
      else s.(loop := TestRender)
    case ResetMap => s.(flags := s.flags.(mapChanged := false), loop := SetMinimized)
    case SetMinimized =>
      s.(flags := s.flags.(minimized := !s.seen.mapped), loop := HandleMap)
    case HandleMap =>
      var handled := Handle(s.mapFlags, s.seen);
      if !handled.handled then s.(mapFlags := handled, failures := s.failures + 1, loop := SetMap)
      else s.(mapFlags := handled, loop := MapHandled)
    case SetMap => s.(flags := s.flags.(mapChanged := true), loop := Load)
    case MapHandled =>
      var special := s.special.(mapChanged := false, minimized := !s.seen.mapped);
      s.(special := special, needDrawFrame := s.needDrawFrame || s.seen.mapped, loop := TestRender)
    case _ => s
  }

  /** The steps of `handle_window_size_changed`. */
  function ResizeNext(s: State): State {
    match s.loop
    case TestRender =>
      if !s.special.CanRender() then StartTimer(s, Slow).(needDrawFrame := false, loop := LoopEnd)
      else if s.special.extentChanged then s.(loop := GetExtent)
      else s.(loop := LoopEnd)
    case GetExtent =>
      // The lock on the extent makes this one step.
      s.(swapchainExtent := s.extent, flags := s.flags.(extentChanged := false), loop := NoSwapchain)
    case NoSwapchain =>
      var t := s.(flags := s.flags.(haveNoSwapchain := true));
      if s.swapchainExtent.width == 0 || s.swapchainExtent.height == 0 then t.(loop := ReloadResized) else t.(loop := Recreate)
    case Recreate => s.(flags := s.flags.(haveNoSwapchain := false), loop := ReloadResized)
    case ReloadResized =>
      var special := s.flags.(extentChanged := false);
      s.(special := if s.needDrawFrame then special.(haveSynchronousTask := false) else special,
         needDrawFrame := true, loop := LoopEnd)
    case _ => s
  }

  function Run(extent: Extent, steps: seq<Step>): State {
    if steps == [] then Initial(extent) else Next(Run(extent, steps[..|steps| - 1]), steps[|steps| - 1])
  }

  // ----- invariants -----

  /** The render thread is working on the polarity that it saw. */
  predicate HandlingMap(pc: LoopPc) {
    pc.ResetMap? || pc.SetMinimized? || pc.HandleMap?
  }

  /** No map change is forgotten. */
  ghost predicate MapInvariant(s: State) {
    // An unhandled change is flagged, or is about to be flagged or handled.
    && (!s.mapFlags.handled ==>
      || s.flags.mapChanged
      || s.x.XSetFlag?
      || s.loop.SetMinimized? || s.loop.HandleMap? || s.loop.SetMap?)
    // A handled change left minimized_bit in the right state.
    && (s.mapFlags.handled ==> s.flags.minimized == !s.mapFlags.mapped)
    && (s.loop.HandleMap? || s.loop.MapHandled? ==> s.flags.minimized == !s.seen.mapped)
    // What the render thread saw is only out of date when the X event thread made an unhandled change since.
    && (HandlingMap(s.loop) && s.mapFlags.handled ==> s.mapFlags.mapped == s.seen.mapped)
  }

  /** Failures to handle a map change are paid for by map events. */
  ghost predicate RetryInvariant(s: State) {
    && (HandlingMap(s.loop) && s.mapEvents == s.eventsAtSnapshot ==> s.mapFlags.mapped == s.seen.mapped)
    && s.eventsAtSnapshot <= s.mapEvents
    && s.failures <= (if HandlingMap(s.loop) then s.eventsAtSnapshot else s.mapEvents)
  }

  /** No synchronous task is forgotten, and no new extent. */
  ghost predicate WorkInvariant(s: State) {
    && (s.runnable != {} ==>
      s.flags.haveSynchronousTask || s.adders > 0 || s.loop.MainLoop? || s.loop.SetTask?)
    && (s.extent != s.swapchainExtent ==> s.flags.extentChanged)
  }

  /** The limiter is off and has nothing to say. */
  predicate Quiet(s: State) {
    s.started == {} && s.timer.Stopped? && !s.signaled
  }

  /** The limiter was started, and its signal will come or has come. */
  predicate Awaiting(s: State, interval: Interval) {
    s.started == {interval} && (s.timer.Stopped? <==> s.signaled)
  }

  ghost predicate TimerInvariant(s: State) {
    match s.loop
    case Sleeping => Awaiting(s, Frame) || Awaiting(s, Slow)
    case Rendering | StopTimer => Awaiting(s, Frame)
    case DrainTimer => Awaiting(s, Frame) && !s.timer.Running?
    case LoopEnd => if s.needDrawFrame then Quiet(s) else Awaiting(s, Slow) && !s.special.CanRender()
    case _ => Quiet(s)
  }

  /** The local copy of the flags agrees with the flags that only the render thread changes. */
  predicate Agrees(s: State) {
    s.special.minimized == s.flags.minimized && s.special.haveNoSwapchain == s.flags.haveNoSwapchain
  }

  /** There is a reason to draw a frame, or not to be able to. */
  predicate HasReason(s: State) {
    s.needDrawFrame || s.special.extentChanged || !s.special.CanRender()
  }

  ghost predicate LocalInvariant(s: State) {
    match s.loop
    case Top | LoopEnd => Agrees(s)
    case Rendering => Agrees(s) && s.special == NONE
    case StopTimer | DrainTimer | Reload => s.flags.extentChanged
    case Special => Agrees(s) && s.special != NONE
    case ResetTask | MainLoop | SetTask | TasksDone => Agrees(s) && !s.special.mustClose
    case TestMap =>
      && Agrees(s) && !s.special.mustClose && !s.special.haveSynchronousTask
      && (HasReason(s) || s.special.mapChanged)
    case ResetMap | SetMinimized | HandleMap | MapHandled =>
      && s.special.haveNoSwapchain == s.flags.haveNoSwapchain
      && !s.special.mustClose && !s.special.haveSynchronousTask
    case TestRender =>
      && Agrees(s) && !s.special.mustClose && !s.special.haveSynchronousTask && !s.special.mapChanged
      && HasReason(s)
    case _ => true
  }

  ghost predicate SharedInvariant(s: State) {
    MapInvariant(s) && RetryInvariant(s) && WorkInvariant(s)
  }

  ghost predicate PassInvariant(s: State) {
    TimerInvariant(s) && LocalInvariant(s)
  }

  // ----- steps that have nothing to do with maps -----

  predicate InsideMap(pc: LoopPc) {
    pc.ResetMap? || pc.SetMinimized? || pc.HandleMap? || pc.SetMap? || pc.MapHandled?
  }

  predicate IsTaskPc(pc: LoopPc) {
    pc.Special? || pc.ResetTask? || pc.MainLoop? || pc.SetTask? || pc.TasksDone?
  }

  predicate IsMapPc(pc: LoopPc) {
    pc.TestMap? || InsideMap(pc)
  }

  predicate IsResizePc(pc: LoopPc) {
    pc.TestRender? || pc.GetExtent? || pc.NoSwapchain? || pc.Recreate? || pc.ReloadResized?
  }

  predicate IsFramePc(pc: LoopPc) {
    !IsTaskPc(pc) && !IsMapPc(pc) && !IsResizePc(pc)
  }

  /** All that the first two invariants are about is the same. */
  predicate SameMap(s: State, t: State) {
    && t.mapFlags == s.mapFlags && t.flags.mapChanged == s.flags.mapChanged && t.flags.minimized == s.flags.minimized
    && t.x.XSetFlag? == s.x.XSetFlag? && t.seen == s.seen
    && t.mapEvents == s.mapEvents && t.eventsAtSnapshot == s.eventsAtSnapshot && t.failures == s.failures
    && (t.loop == s.loop || (!InsideMap(s.loop) && !InsideMap(t.loop)))
  }

  lemma SameMapKeepsMap(s: State, t: State)
    requires SameMap(s, t) && MapInvariant(s)
    ensures MapInvariant(t)
  {
  }

  lemma SameMapKeepsRetry(s: State, t: State)
    requires SameMap(s, t) && RetryInvariant(s)
    ensures RetryInvariant(t)
  {
  }

  lemma FrameLeavesMap(s: State)
    requires IsFramePc(s.loop)
    ensures SameMap(s, FrameNext(s))
  {
    match s.loop
    case Sleeping =>
    case Load =>
    case Top =>
    case Rendering =>
    case StopTimer =>
    case DrainTimer =>
    case Reload =>
    case LoopEnd =>
    case Closed =>
  }

  lemma TaskLeavesMap(s: State)
    requires IsTaskPc(s.loop)
    ensures SameMap(s, TaskNext(s))
  {
    match s.loop
    case Special =>
    case ResetTask =>
    case MainLoop =>
    case SetTask =>
    case TasksDone =>
  }

  /** What the steps of the resize may change. */
  predicate Resizes(s: State, t: State) {
    t == s.(flags := t.flags, swapchainExtent := t.swapchainExtent, special := t.special, needDrawFrame := t.needDrawFrame,
            timer := t.timer, started := t.started, loop := t.loop)
  }

  lemma ResizeChanges(s: State)
    requires IsResizePc(s.loop)
    ensures Resizes(s, ResizeNext(s))
  {
    match s.loop
    case TestRender =>
    case GetExtent =>
    case NoSwapchain =>
    case Recreate =>
    case ReloadResized =>
  }

  lemma ResizeLeavesFlags(s: State)
    requires IsResizePc(s.loop)
    ensures ResizeNext(s).flags.mapChanged == s.flags.mapChanged
    ensures ResizeNext(s).flags.minimized == s.flags.minimized
  {
    match s.loop
    case TestRender =>
    case GetExtent =>
    case NoSwapchain =>
    case Recreate =>
    case ReloadResized =>
  }

  lemma ResizeStaysOutside(s: State)
    requires IsResizePc(s.loop)
    ensures !InsideMap(ResizeNext(s).loop) && !ResizeNext(s).loop.Sleeping?
  {
  }

  lemma ResizeLeavesMap(s: State)
    requires IsResizePc(s.loop)
    ensures SameMap(s, ResizeNext(s))
  {
    ResizeChanges(s);
    ResizeLeavesFlags(s);
    ResizeStaysOutside(s);
  }

  predicate IsMapStep(step: Step) {
    step.XStep? || step.MapEvent?
  }

  lemma OthersLeaveMap(s: State, step: Step)
    requires !step.LoopStep? && !IsMapStep(step)
    ensures SameMap(s, Next(s, step))
  {
    match step
    case ResizeEvent(_) =>
    case CloseEvent =>
    case ForceRecreate =>
    case AddTask(_) =>
    case FlagTask =>
    case TimerStep =>
    case OutOfDate =>
    case RunTask(_) =>
  }

  // ----- steps that have nothing to do with tasks and extents -----

  /** All that the third invariant is about is the same. */
  predicate SameWork(s: State, t: State) {
    && t.runnable == s.runnable && t.adders == s.adders && t.flags.haveSynchronousTask == s.flags.haveSynchronousTask
    && t.extent == s.extent && t.swapchainExtent == s.swapchainExtent && t.flags.extentChanged == s.flags.extentChanged
    && (t.loop == s.loop || !(s.loop.MainLoop? || s.loop.SetTask?))
  }

  lemma SameWorkKeepsWork(s: State, t: State)
    requires SameWork(s, t) && WorkInvariant(s)
    ensures WorkInvariant(t)
  {
  }

  lemma FrameLeavesWork(s: State)
    requires IsFramePc(s.loop)
    ensures SameWork(s, FrameNext(s))
  {
    match s.loop
    case Sleeping =>
    case Load =>
    case Top =>
    case Rendering =>
    case StopTimer =>
    case DrainTimer =>
    case Reload =>
    case LoopEnd =>
    case Closed =>
  }

  lemma MapLeavesWork(s: State)
    requires IsMapPc(s.loop)
    ensures SameWork(s, MapNext(s))
  {
    match s.loop
    case TestMap =>
    case ResetMap =>
    case SetMinimized =>
    case HandleMap =>
    case SetMap =>
    case MapHandled =>
  }

  // ----- what all threads have to do with is kept -----

  lemma SameMapKeeps(s: State, t: State)
    requires SameMap(s, t) && MapInvariant(s) && RetryInvariant(s)
    ensures MapInvariant(t) && RetryInvariant(t)
  {
    SameMapKeepsMap(s, t);
    SameMapKeepsRetry(s, t);
  }

  lemma FrameKeepsShared(s: State)
    requires SharedInvariant(s) && IsFramePc(s.loop)
    ensures SharedInvariant(FrameNext(s))
  {
    FrameLeavesMap(s);
    SameMapKeeps(s, FrameNext(s));
    FrameLeavesWork(s);
    SameWorkKeepsWork(s, FrameNext(s));
  }

  lemma TaskKeepsWork(s: State)
    requires WorkInvariant(s) && IsTaskPc(s.loop)
    ensures WorkInvariant(TaskNext(s))
  {
    match s.loop
    case Special =>
    case ResetTask =>
    case MainLoop =>
    case SetTask =>
    case TasksDone =>
  }

  lemma TaskKeepsShared(s: State)
    requires SharedInvariant(s) && IsTaskPc(s.loop)
    ensures SharedInvariant(TaskNext(s))
  {
    TaskLeavesMap(s);
    SameMapKeeps(s, TaskNext(s));
    TaskKeepsWork(s);
  }

  lemma MapKeepsMap(s: State)
    requires MapInvariant(s) && IsMapPc(s.loop)
    ensures MapInvariant(MapNext(s))
  {
    match s.loop
    case TestMap =>
    case ResetMap =>
    case SetMinimized =>
    case HandleMap =>
    case SetMap =>
    case MapHandled =>
  }

  lemma MapKeepsRetry(s: State)
    requires RetryInvariant(s) && IsMapPc(s.loop)
    ensures RetryInvariant(MapNext(s))
  {
    match s.loop
    case TestMap =>
    case ResetMap =>
    case SetMinimized =>
    case HandleMap =>
    case SetMap =>
    case MapHandled =>
  }

  lemma MapKeepsShared(s: State)
    requires SharedInvariant(s) && IsMapPc(s.loop)
    ensures SharedInvariant(MapNext(s))
  {
    MapKeepsMap(s);
    MapKeepsRetry(s);
    MapLeavesWork(s);
    SameWorkKeepsWork(s, MapNext(s));
  }

  /** No resize is lost while the window size is handled. */
  lemma ResizeKeepsWork(s: State)
    requires WorkInvariant(s) && IsResizePc(s.loop)
    ensures WorkInvariant(ResizeNext(s))
  {
    match s.loop
    case TestRender =>
    case GetExtent =>
    case NoSwapchain =>
    case Recreate =>
    case ReloadResized =>
  }

  lemma ResizeKeepsShared(s: State)
    requires SharedInvariant(s) && IsResizePc(s.loop)
    ensures SharedInvariant(ResizeNext(s))
  {
    ResizeLeavesMap(s);
    SameMapKeeps(s, ResizeNext(s));
    ResizeKeepsWork(s);
  }

  lemma XKeepsMap(s: State, step: Step)
    requires MapInvariant(s) && IsMapStep(step)
    ensures MapInvariant(Next(s, step))
  {
    match step
    case MapEvent(_) =>
    case XStep =>
  }

  lemma XKeepsRetry(s: State, step: Step)
    requires RetryInvariant(s) && IsMapStep(step)
    ensures RetryInvariant(Next(s, step))
  {
    match step
    case MapEvent(_) =>
    case XStep =>
  }

  lemma OthersKeepWork(s: State, step: Step)
    requires WorkInvariant(s) && !step.LoopStep?
    ensures WorkInvariant(Next(s, step))
  {
  }

  lemma OthersKeepShared(s: State, step: Step)
    requires SharedInvariant(s) && !step.LoopStep?
    ensures SharedInvariant(Next(s, step))
  {
    if IsMapStep(step) {
      XKeepsMap(s, step);
      XKeepsRetry(s, step);
    } else {
      OthersLeaveMap(s, step);
      SameMapKeeps(s, Next(s, step));
    }
    OthersKeepWork(s, step);
  }

  // ----- what the render thread keeps to itself is kept -----

  lemma FrameKeepsTimer(s: State)
    requires PassInvariant(s) && IsFramePc(s.loop)
    ensures TimerInvariant(FrameNext(s))
  {
    match s.loop
    case Sleeping =>
    case Load =>
    case Top =>
    case Rendering =>
    case StopTimer =>
    case DrainTimer =>
    case Reload =>
    case LoopEnd =>
    case Closed =>
  }

  lemma FrameKeepsLocal(s: State)
    requires PassInvariant(s) && IsFramePc(s.loop)
    ensures LocalInvariant(FrameNext(s))
  {
    match s.loop
    case Sleeping =>
    case Load =>
    case Top =>
    case Rendering =>
    case StopTimer =>
    case DrainTimer =>
    case Reload =>
    case LoopEnd =>
    case Closed =>
  }

  lemma TaskKeepsTimer(s: State)
    requires TimerInvariant(s) && IsTaskPc(s.loop)
    ensures TimerInvariant(TaskNext(s))
  {
    match s.loop
    case Special =>
    case ResetTask =>
    case MainLoop =>
    case SetTask =>
    case TasksDone =>
  }

  lemma TaskKeepsLocal(s: State)
    requires LocalInvariant(s) && IsTaskPc(s.loop)
    ensures LocalInvariant(TaskNext(s))
  {
    match s.loop
    case Special =>
    case ResetTask =>
    case MainLoop =>
    case SetTask =>
    case TasksDone =>
  }

  lemma MapKeepsTimer(s: State)
    requires TimerInvariant(s) && IsMapPc(s.loop)
    ensures TimerInvariant(MapNext(s))
  {
    match s.loop
    case TestMap =>
    case ResetMap =>
    case SetMinimized =>
    case HandleMap =>
    case SetMap =>
    case MapHandled =>
  }

  lemma MapKeepsLocal(s: State)
    requires LocalInvariant(s) && MapInvariant(s) && IsMapPc(s.loop)
    ensures LocalInvariant(MapNext(s))
  {
    match s.loop
    case TestMap =>
    case ResetMap =>
    case SetMinimized =>
    case HandleMap =>
    case SetMap =>
    case MapHandled =>
  }

  lemma ResizeKeepsTimer(s: State)
    requires PassInvariant(s) && IsResizePc(s.loop)
    ensures TimerInvariant(ResizeNext(s))
  {
    match s.loop
    case TestRender =>
    case GetExtent =>
    case NoSwapchain =>
    case Recreate =>
    case ReloadResized =>
  }

  lemma ResizeKeepsLocal(s: State)
    requires LocalInvariant(s) && IsResizePc(s.loop)
    ensures LocalInvariant(ResizeNext(s))
  {
    match s.loop
    case TestRender =>
    case GetExtent =>
    case NoSwapchain =>
    case Recreate =>
    case ReloadResized =>
  }

  /** What the render thread keeps to itself is the same. */
  predicate SamePass(s: State, t: State) {
    && t.loop == s.loop && t.special == s.special && t.needDrawFrame == s.needDrawFrame
    && t.timer == s.timer && t.signaled == s.signaled && t.started == s.started
    && t.flags.minimized == s.flags.minimized && t.flags.haveNoSwapchain == s.flags.haveNoSwapchain
    && (s.flags.extentChanged ==> t.flags.extentChanged)
  }

  lemma OthersArePrivate(s: State, step: Step)
    requires !step.LoopStep? && !step.TimerStep? && !step.OutOfDate?
    ensures SamePass(s, Next(s, step))
  {
  }

  lemma SamePassKeepsTimer(s: State, t: State)
    requires TimerInvariant(s) && SamePass(s, t)
    ensures TimerInvariant(t)
  {
  }

  lemma SamePassKeepsLocal(s: State, t: State)
    requires LocalInvariant(s) && SamePass(s, t)
    ensures LocalInvariant(t)
  {
  }

  /** Other threads do not touch what the render thread keeps to itself. */
  lemma PassIsPrivate(s: State, t: State)
    requires PassInvariant(s) && SamePass(s, t)
    ensures PassInvariant(t)
  {
    SamePassKeepsTimer(s, t);
    SamePassKeepsLocal(s, t);
  }

  lemma TimerKeepsTimer(s: State)
    requires TimerInvariant(s)
    ensures TimerInvariant(Next(s, TimerStep))
  {
  }

  lemma TimerKeepsPass(s: State)
    requires PassInvariant(s)
    ensures PassInvariant(Next(s, TimerStep))
  {
    TimerKeepsTimer(s);
    var t := Next(s, TimerStep);
    assert t.loop == s.loop && t.flags == s.flags && t.special == s.special && t.needDrawFrame == s.needDrawFrame;
  }

  lemma OutOfDateKeepsPass(s: State)
    requires PassInvariant(s)
    ensures PassInvariant(Next(s, OutOfDate))
  {
  }

  lemma OthersKeepPass(s: State, step: Step)
    requires PassInvariant(s) && !step.LoopStep?
    ensures PassInvariant(Next(s, step))
  {
    match step
    case TimerStep => TimerKeepsPass(s);
    case OutOfDate => OutOfDateKeepsPass(s);
    case _ =>
      OthersArePrivate(s, step);
      PassIsPrivate(s, Next(s, step));
  }

  lemma WhichNext(s: State)
    ensures IsTaskPc(s.loop) ==> LoopNext(s) == TaskNext(s)
    ensures IsMapPc(s.loop) ==> LoopNext(s) == MapNext(s)
    ensures IsResizePc(s.loop) ==> LoopNext(s) == ResizeNext(s)
    ensures IsFramePc(s.loop) ==> LoopNext(s) == FrameNext(s)
  {
  }

  lemma LoopKeepsShared(s: State)
    requires SharedInvariant(s)
    ensures SharedInvariant(LoopNext(s))
  {
    WhichNext(s);
    if IsTaskPc(s.loop) {
      TaskKeepsShared(s);
    } else if IsMapPc(s.loop) {
      MapKeepsShared(s);
    } else if IsResizePc(s.loop) {
      ResizeKeepsShared(s);
    } else {
      FrameKeepsShared(s);
    }
  }

  lemma LoopKeepsPass(s: State)
    requires SharedInvariant(s) && PassInvariant(s)
    ensures PassInvariant(LoopNext(s))
  {
    WhichNext(s);
    if IsTaskPc(s.loop) {
      TaskKeepsTimer(s);
      TaskKeepsLocal(s);
    } else if IsMapPc(s.loop) {
      MapKeepsTimer(s);
      MapKeepsLocal(s);
    } else if IsResizePc(s.loop) {
      ResizeKeepsTimer(s);
      ResizeKeepsLocal(s);
    } else {
      FrameKeepsTimer(s);
      FrameKeepsLocal(s);
    }
  }

  lemma LoopKeepsInvariant(s: State)
    requires SharedInvariant(s) && PassInvariant(s)
    ensures SharedInvariant(LoopNext(s)) && PassInvariant(LoopNext(s))
  {
    LoopKeepsShared(s);
    LoopKeepsPass(s);
  }

  lemma {:induction false} InvariantHolds(extent: Extent, steps: seq<Step>)
    ensures SharedInvariant(Run(extent, steps)) && PassInvariant(Run(extent, steps))
  {
    if steps != [] {
      var s, step := Run(extent, steps[..|steps| - 1]), steps[|steps| - 1];
      InvariantHolds(extent, steps[..|steps| - 1]);
      if step.LoopStep? {
        LoopKeepsInvariant(s);
      } else {
        OthersKeepShared(s, step);
        OthersKeepPass(s, step);
      }
    }
  }

  // ----- what holds in every run -----

  /** When neither thread is in the middle of a map change and the flag is not set, the last map event was handled. */
  lemma MapEventsAreHandled(extent: Extent, steps: seq<Step>)
    ensures var s := Run(extent, steps);
      var busy := s.loop.SetMinimized? || s.loop.HandleMap? || s.loop.SetMap?;
      s.x.XIdle? && !busy && !s.flags.mapChanged ==>
        s.mapFlags.handled && s.flags.minimized == !s.mapFlags.mapped
  {
    InvariantHolds(extent, steps);
  }

  /**
   * Handling a map change fails exactly when the polarity is not the one that was seen. There was a map event
   * since, and there are never more failures than map events.
   */
  lemma RetriesAreBounded(extent: Extent, steps: seq<Step>)
    ensures var s := Run(extent, steps);
      && s.failures <= s.mapEvents
      && (s.loop.HandleMap? ==>
        && (LoopNext(s).loop.SetMap? <==> s.mapFlags.mapped != s.seen.mapped)
        && (LoopNext(s).loop.SetMap? ==> s.mapEvents > s.eventsAtSnapshot))
  {
    InvariantHolds(extent, steps);
  }

  /** Only the X event thread changes the polarity, and only to a polarity that has not been handled. */
  lemma OnlyMapEventsRemap(s: State, step: Step)
    ensures Next(s, step).mapFlags.mapped != s.mapFlags.mapped ==> step.XStep? && !Next(s, step).mapFlags.handled
  {
    if step.LoopStep? {
      LoopLeavesPolarity(s);
    } else if !IsMapStep(step) {
      OthersLeaveMap(s, step);
    }
  }

  lemma LoopLeavesPolarity(s: State)
    ensures LoopNext(s).mapFlags.mapped == s.mapFlags.mapped
  {
    WhichNext(s);
    if IsTaskPc(s.loop) {
      TaskLeavesMap(s);
    } else if IsResizePc(s.loop) {
      ResizeLeavesMap(s);
    } else if IsFramePc(s.loop) {
      FrameLeavesMap(s);
    }
  }

  /** Runnable tasks are flagged, or somebody is about to flag or to run them. */
  lemma NoTaskIsForgotten(extent: Extent, steps: seq<Step>)
    ensures var s := Run(extent, steps);
      s.runnable != {} ==> s.flags.haveSynchronousTask || s.adders > 0 || s.loop.MainLoop? || s.loop.SetTask?
  {
    InvariantHolds(extent, steps);
  }

  /** The swapchain has the last extent that was reported, or the change is flagged. */
  lemma NoResizeIsForgotten(extent: Extent, steps: seq<Step>)
    ensures var s := Run(extent, steps); s.extent == s.swapchainExtent || s.flags.extentChanged
  {
    InvariantHolds(extent, steps);
  }

  /** A frame is only rendered with a swapchain, by a window that handled being unminimized. */
  lemma RendersOnlyWhenPossible(extent: Extent, steps: seq<Step>)
    ensures var s := Run(extent, steps); s.loop.Rendering? ==> s.flags.CanRender() && Awaiting(s, Frame)
  {
    InvariantHolds(extent, steps);
  }

  /**
   * A pass that did not end with closing the window either rendered a frame or could not render. In the first case
   * the frame limiter wakes up the render loop, in the second case the slow one. The second case is that of the
   * bare return, at the end of the loop.
   */
  lemma PassesEndWithTheTimerArmed(extent: Extent, steps: seq<Step>)
    ensures var s, t := Run(extent, steps), LoopNext(Run(extent, steps));
      && (s.loop.Sleeping? ==> Awaiting(s, Frame) || Awaiting(s, Slow))
      && (!s.loop.Sleeping? && t.loop.Sleeping? ==>
        || (s.loop.Rendering? && Awaiting(t, Frame))
        || (s.loop.LoopEnd? && Awaiting(t, Slow) && !s.special.CanRender()))
  {
    InvariantHolds(extent, steps);
    HowToSleep(Run(extent, steps));
  }

  lemma HowToSleep(s: State)
    ensures !s.loop.Sleeping? && LoopNext(s).loop.Sleeping? ==>
      LoopNext(s) == s.(loop := Sleeping) && (s.loop.Rendering? || (s.loop.LoopEnd? && !s.needDrawFrame))
  {
    WhichNext(s);
    if IsResizePc(s.loop) {
      ResizeStaysOutside(s);
    }
  }

  /** The assertion after an out-of-date exception: the flags that are read again are not all clear. */
  lemma FlagsAreSetAfterOutOfDate(extent: Extent, steps: seq<Step>)
    ensures var s := Run(extent, steps); s.loop.Reload? ==> LoopNext(s).special != NONE
  {
    InvariantHolds(extent, steps);
  }

  // ----- a pass that is left alone ends -----

  /** One step of the render thread, which only ever waits for the limiter to send its signal. */
  function Proceed(s: State): State {
    if s.loop.DrainTimer? && !s.signaled then Next(s, TimerStep) else LoopNext(s)
  }

  function ProceedBy(s: State, n: nat): State
    decreases n
  {
    if n == 0 then s else ProceedBy(Proceed(s), n - 1)
  }

  /** How often the render loop may still have to start over. */
  function Level(s: State): nat {
    match s.loop
    case Sleeping | Closed | Rendering => 0
    case Load | StopTimer | DrainTimer | Reload => 2
    case GetExtent | NoSwapchain | Recreate | ReloadResized => 2
    case SetMap => 3
    case Top => if s.special.extentChanged then 2 else if s.special != NONE then 1 else 0
    case LoopEnd =>
      if !s.needDrawFrame then 0 else if s.special.extentChanged then 2 else if s.special != NONE then 1 else 0
    case ResetMap | SetMinimized | HandleMap =>
      if s.mapFlags.mapped != s.seen.mapped then 3 else if s.special.extentChanged then 2 else 1
    case _ => if s.special.extentChanged then 2 else 1
  }

  /** How far it is from the end of the loop. */
  function Distance(s: State): nat {
    match s.loop
    case Sleeping | Closed => 0
    case Rendering => 1
    case ReloadResized => 2
    case Recreate => 3
    case NoSwapchain => 4
    case GetExtent => 5
    case TestRender => 6
    case MapHandled | SetMap => 7
    case HandleMap => 8
    case SetMinimized => 9
    case ResetMap => 10
    case TestMap => 11
    case TasksDone => 12
    case SetTask => 13
    case MainLoop => 14
    case ResetTask => 15
    case Special => 16
    case Top => 17
    case LoopEnd => if s.needDrawFrame then 18 else 1
    case Load | Reload => 19
    case DrainTimer => if s.signaled then 20 else if s.timer.Running? then 22 else 21
    case StopTimer => 23
  }

  function Rank(s: State): (rank: nat)
    ensures rank < 96
  {
    24 * Level(s) + Distance(s)
  }

  lemma FrameLowersRank(s: State)
    requires PassInvariant(s)
    ensures match s.loop
      case Load | Top | Rendering | StopTimer | DrainTimer | Reload | LoopEnd => Rank(Proceed(s)) < Rank(s)
      case _ => true
  {
    match s.loop
    case Load | Top | Rendering | StopTimer | DrainTimer | Reload | LoopEnd =>
    case _ =>
  }

  lemma TaskLowersRank(s: State)
    requires PassInvariant(s)
    ensures match s.loop
      case Special | ResetTask | MainLoop | SetTask | TasksDone => Rank(Proceed(s)) < Rank(s)
      case _ => true
  {
    match s.loop
    case Special | ResetTask | MainLoop | SetTask | TasksDone =>
    case _ =>
  }

  lemma MapLowersRank(s: State)
    requires PassInvariant(s)
    ensures match s.loop
      case TestMap | ResetMap | SetMinimized | HandleMap | SetMap | MapHandled => Rank(Proceed(s)) < Rank(s)
      case _ => true
  {
    match s.loop
    case TestMap | ResetMap | SetMinimized | HandleMap | SetMap | MapHandled =>
    case _ =>
  }

  lemma ResizeLowersRank(s: State)
    requires PassInvariant(s)
    ensures match s.loop
      case TestRender | GetExtent | NoSwapchain | Recreate | ReloadResized => Rank(Proceed(s)) < Rank(s)
      case _ => true
  {
    match s.loop
    case TestRender | GetExtent | NoSwapchain | Recreate | ReloadResized =>
    case _ =>
  }

  lemma ProceedLowersRank(s: State)
    requires SharedInvariant(s) && PassInvariant(s) && !s.loop.Sleeping? && !s.loop.Closed?
    ensures SharedInvariant(Proceed(s)) && PassInvariant(Proceed(s))
    ensures Rank(Proceed(s)) < Rank(s)
  {
    LoopKeepsInvariant(s);
    OthersKeepShared(s, TimerStep);
    OthersKeepPass(s, TimerStep);
    FrameLowersRank(s);
    TaskLowersRank(s);
    MapLowersRank(s);
    ResizeLowersRank(s);
  }

  /** When the other threads stay out of the way, a pass ends, after less than a hundred steps. */
  lemma {:induction false} PassEnds(s: State)
    requires SharedInvariant(s) && PassInvariant(s)
    ensures exists n :: 0 <= n < 96 && n <= Rank(s) && (ProceedBy(s, n).loop.Sleeping? || ProceedBy(s, n).loop.Closed?)
    decreases Rank(s)
  {
    if s.loop.Sleeping? || s.loop.Closed? {
      assert ProceedBy(s, 0) == s;
    } else {
      ProceedLowersRank(s);
      PassEnds(Proceed(s));
      var n :| 0 <= n < 96 && n <= Rank(Proceed(s))
        && (ProceedBy(Proceed(s), n).loop.Sleeping? || ProceedBy(Proceed(s), n).loop.Closed?);
      assert ProceedBy(s, n + 1) == ProceedBy(Proceed(s), n);
    }
  }
}
