/**
 * Is the delay long enough? The rendering-finished semaphores of a dropped swapchain are destroyed after as many frames
 * as it had images. Presentations complete in the order in which they were queued, so until one of the dropped swapchain
 * has completed none of its successors does, and each image of a successor can be presented only once.
 */
module DestructionDelay {
  import opened DelayedDestruction
  import opened Swapchain

  // ----- presentations in order -----

  /** A presentation completes only after those of all swapchains before. */
  predicate InOrder(s: State, step: Step) {
    step.PresentationCompletes? ==> forall h :: h in s.delayed ==> h !in s.presenting
  }

  predicate RunsInOrder(s: State, schedule: seq<Step>)
    decreases |schedule|
  {
    schedule == [] || (InOrder(s, schedule[0]) && RunsInOrder(Attempt(s, schedule[0]), schedule[1..]))
  }

  /** The numbers of images of the swapchains that are created. */
  function Sizes(schedule: seq<Step>): seq<nat> {
    if schedule == [] then []
    else (if schedule[0].Recreate? then [schedule[0].n] else []) + Sizes(schedule[1..])
  }

  function Sum(sizes: seq<nat>): nat {
    if sizes == [] then 0 else sizes[0] + Sum(sizes[1..])
  }

  lemma {:induction false} SumAppend(a: seq<nat>, b: seq<nat>)
    ensures Sum(a + b) == Sum(a) + Sum(b)
  {
    if a == [] {
      assert a + b == b;
    } else {
      SumAppend(a[1..], b);
      assert (a + b)[1..] == a[1..] + b;
    }
  }

  lemma SizesOfFirst(first: Step, rest: seq<Step>)
    ensures Sizes([first] + rest) == (if first.Recreate? then [first.n] else []) + Sizes(rest)
  {
    assert ([first] + rest)[1..] == rest;
  }

  lemma {:induction false} SizesAppend(a: seq<Step>, b: seq<Step>)
    ensures Sizes(a + b) == Sizes(a) + Sizes(b)
  {
    if a == [] {
      assert a + b == b;
    } else {
      var first, rest := a[0], a[1..];
      SizesAppend(rest, b);
      SizesOfFirst(first, rest);
      SizesOfFirst(first, rest + b);
      Associative([first], rest, b);
      Associative(if first.Recreate? then [first.n] else [], Sizes(rest), Sizes(b));
      assert [first] + rest == a;
    }
  }

  lemma Associative<T>(a: seq<T>, b: seq<T>, c: seq<T>)
    ensures a + (b + c) == a + b + c
  {
  }

  lemma SumOfSizes(schedule: seq<Step>)
    requires schedule != []
    ensures Sum(Sizes(schedule)) == (if schedule[0].Recreate? then schedule[0].n else 0) + Sum(Sizes(schedule[1..]))
  {
    var first: seq<nat> := if schedule[0].Recreate? then [schedule[0].n] else [];
    SumAppend(first, Sizes(schedule[1..]));
    assert first != [] ==> first[1..] == [];
  }

  // ----- long enough -----

  /** The images that can still be presented. */
  function Unpresented(images: seq<Image>): nat {
    if images == [] then 0
    else Unpresented(images[..|images| - 1]) + if images[|images| - 1].phase.Presented? then 0 else 1
  }

  lemma {:induction false} UnpresentedUpdate(images: seq<Image>, i: nat, image: Image)
    requires i < |images|
    ensures Unpresented(images[i := image]) + (if images[i].phase.Presented? then 0 else 1)
         == Unpresented(images) + (if image.phase.Presented? then 0 else 1)
  {
    var n := |images| - 1;
    if i < n {
      UnpresentedUpdate(images[..n], i, image);
      assert images[i := image][..n] == images[..n][i := image];
    } else {
      assert images[i := image][..n] == images[..n];
    }
  }

  lemma {:induction false} AllUnpresented(images: seq<Image>)
    requires forall i :: 0 <= i < |images| ==> images[i].phase.Available?
    ensures Unpresented(images) == |images|
  {
    if images != [] {
      AllUnpresented(images[..|images| - 1]);
    }
  }

  /** As long as a presentation waits for `h`, there can be no more frames than up to number `limit`. */
  predicate Budget(s: State, h: nat, limit: nat) {
    h in s.presenting ==> s.now + (if s.client.HasPresented? then 1 else 0) + Unpresented(s.images) <= limit
  }

  /** The steps that concern one image, other than presentation and its completion, leave the budget as it is. */
  lemma ImageKeepsBudget(s: State, s': State, i: nat, h: nat, limit: nat)
    requires Budget(s, h, limit) && i < |s.images| && |s'.images| == |s.images| && s'.images == s.images[i := s'.images[i]]
    requires s.images[i].phase.Presented? ==> s'.images[i].phase.Presented?
    requires s'.presenting == s.presenting && s'.now == s.now && (s'.client.HasPresented? ==> s.client.HasPresented?)
    ensures Budget(s', h, limit)
  {
    UnpresentedUpdate(s.images, i, s'.images[i]);
  }

  lemma PresentKeepsBudget(s: State, outOfDate: bool, h: nat, limit: nat)
    requires Invariant(s) && Enabled(s, Present(outOfDate)) && h in s.delayed && Budget(s, h, limit)
    ensures Budget(Next(s, Present(outOfDate)), h, limit)
  {
    var i := s.current;
    assert s.handles.finished[i] in s.handles.finished;
    UnpresentedUpdate(s.images, i, s.images[i].(phase := Presented));
  }

  lemma RecreateKeepsBudget(s: State, n: nat, h: nat, limit: nat)
    requires Invariant(s) && Enabled(s, Recreate(n)) && Budget(s, h, limit)
    ensures Budget(Next(s, Recreate(n)), h, limit + n)
  {
    AllUnpresented(Next(s, Recreate(n)).images);
  }

  lemma StepKeepsBudget(s: State, step: Step, h: nat, limit: nat)
    requires Invariant(s) && Enabled(s, step) && InOrder(s, step) && h in s.delayed && Budget(s, h, limit)
    ensures Budget(Next(s, step), h, limit + if step.Recreate? then step.n else 0)
  {
    var s' := Next(s, step);
    match step
    case AcquireImage(i) => ImageKeepsBudget(s, s', i, h, limit);
    case Submit => ImageKeepsBudget(s, s', s.current, h, limit);
    case RenderingCompletes(i) => ImageKeepsBudget(s, s', i, h, limit);
    case Present(outOfDate) => PresentKeepsBudget(s, outOfDate, h, limit);
    case Recreate(n) => RecreateKeepsBudget(s, n, h, limit);
    case PresentationCompletes(_) => assert h !in s'.presenting;
    case _ =>
  }

  lemma {:induction false} RunKeepsBudget(s: State, schedule: seq<Step>, h: nat, limit: nat)
    requires Invariant(s) && RunsInOrder(s, schedule) && h in s.delayed && Budget(s, h, limit)
    ensures Budget(RunFrom(s, schedule), h, limit + Sum(Sizes(schedule)))
    decreases |schedule|
  {
    if schedule != [] {
      var step, s' := schedule[0], Attempt(s, schedule[0]);
      var limit' := limit + if step.Recreate? then step.n else 0;
      if Enabled(s, step) {
        NextKeepsInvariant(s, step);
        StepKeepsBudget(s, step, h, limit);
        assert s.delayed <= s'.delayed;
      }
      assert Budget(s', h, limit');
      SumOfSizes(schedule);
      RunKeepsBudget(s', schedule[1..], h, limit');
    }
  }

  /** No semaphore of a dropped image is destroyed while a presentation waits for it. */
  predicate InTime(s: State, dropped: seq<nat>) {
    forall i :: 0 <= i < |dropped| ==> IsInTime(s, dropped[i])
  }

  predicate IsInTime(s: State, h: nat) {
    h < |s.status| && (h in s.presenting ==> !s.status[h].Destroyed?)
  }

  lemma RescuedIsDelayed(s: State, n: nat, i: nat)
    requires InBounds(s) && Enabled(s, Recreate(n)) && i < |s.images|
    ensures s.handles.finished[i] in Next(s, Recreate(n)).delayed
  {
    assert (s.delayed + s.handles.finished)[|s.delayed| + i] == s.handles.finished[i];
  }

  lemma NewBudget(s: State, n: nat, h: nat)
    requires InBounds(s) && Enabled(s, Recreate(n))
    ensures Budget(Next(s, Recreate(n)), h, s.now + n)
  {
    AllUnpresented(Next(s, Recreate(n)).images);
  }

  /** After dropping a swapchain for one with `n` images. */
  lemma DelayIsEnough(s: State, n: nat, schedule: seq<Step>, i: nat)
    requires Invariant(s) && Enabled(s, Recreate(n)) && i < |s.images|
    requires RunsInOrder(Next(s, Recreate(n)), schedule) && n + Sum(Sizes(schedule)) < Stay(|s.images|)
    ensures IsInTime(RunFrom(Next(s, Recreate(n)), schedule), s.handles.finished[i])
  {
    var h, s' := s.handles.finished[i], Next(s, Recreate(n));
    NextKeepsInvariant(s, Recreate(n));
    RescuedIsDelayed(s, n, i);
    NewBudget(s, n, h);
    RunKeepsBudget(s', schedule, h, s.now + n);
    RescuedUntilDue(s, n, schedule, i);
  }

  // ----- not long enough -----

  predicate NothingCompletes(schedule: seq<Step>) {
    forall i :: 0 <= i < |schedule| ==> !schedule[i].PresentationCompletes? && !schedule[i].RetiredPresentationCompletes?
  }

  lemma {:induction false} NothingIsInOrder(s: State, schedule: seq<Step>)
    requires NothingCompletes(schedule)
    ensures RunsInOrder(s, schedule)
    decreases |schedule|
  {
    if schedule != [] {
      NothingIsInOrder(Attempt(s, schedule[0]), schedule[1..]);
    }
  }

  lemma {:induction false} StillPresenting(s: State, schedule: seq<Step>, h: nat)
    requires NothingCompletes(schedule) && h in s.presenting
    ensures h in RunFrom(s, schedule).presenting
    decreases |schedule|
  {
    if schedule != [] {
      StillPresenting(Attempt(s, schedule[0]), schedule[1..], h);
    }
  }

  lemma {:induction false} RunFromAppend(s: State, a: seq<Step>, b: seq<Step>)
    ensures RunFrom(s, a + b) == RunFrom(RunFrom(s, a), b)
    decreases |a|
  {
    if a == [] {
      assert a + b == b;
    } else {
      assert (a + b)[1..] == a[1..] + b;
      RunFromAppend(Attempt(s, a[0]), a[1..], b);
    }
  }

  /** The first `k` images are being presented, and those after image `from` were not presented yet. */
  predicate PresentedBelow(images: seq<Image>, k: nat, from: nat) {
    && k <= |images|
    && (forall j :: 0 <= j < k ==> images[j].phase.Presented?)
    && (forall j :: from <= j < |images| ==> images[j].phase.Available?)
  }

  /** Between two frames, with nothing to wait for. */
  ghost predicate Ready(s: State, k: nat) {
    Invariant(s) && s.client.BetweenFrames? && AllFencesSignaled(s) && PresentedBelow(s.images, k, k)
  }

  /** The image was acquired and can be rendered. */
  ghost predicate Acquired(s: State, k: nat) {
    && Invariant(s) && s.client.HasImage? && s.current == k < |s.images| && AllFencesSignaled(s)
    && s.status[s.handles.available[k]].Signaled?
  }

  /** The image was rendered. */
  ghost predicate Rendered(s: State, k: nat) {
    Invariant(s) && s.client.HasSubmitted? && s.current == k < |s.images| && AllFencesSignaled(s)
  }

  /** Only image `k` changes. */
  predicate OnlyImage(s: State, s': State, k: nat) {
    |s'.images| == |s.images| && forall j :: 0 <= j < |s.images| && j != k ==> s'.images[j] == s.images[j]
  }

  /** Steps that neither complete a presentation nor create a swapchain. */
  predicate IsQuiet(schedule: seq<Step>) {
    NothingCompletes(schedule) && Sizes(schedule) == []
  }

  lemma QuietAppend(s: State, a: seq<Step>, b: seq<Step>)
    requires IsQuiet(a) && IsQuiet(b)
    ensures IsQuiet(a + b) && RunFrom(s, a + b) == RunFrom(RunFrom(s, a), b)
  {
    RunFromAppend(s, a, b);
    SizesAppend(a, b);
  }

  lemma AcquireOnly(s: State, k: nat) returns (t: State)
    requires Ready(s, k) && k < |s.images|
    ensures t == Attempt(Attempt(s, StartFrame), AcquireImage(k)) && Invariant(t)
    ensures t.client.HasImage? && t.current == k && AllFencesSignaled(t) && OnlyImage(s, t, k) && t.now == s.now
    ensures t.status[t.handles.available[k]].SignalPending?
  {
    var a := Next(s, StartFrame);
    NextKeepsInvariant(s, StartFrame);
    t := Next(a, AcquireImage(k));
    NextKeepsInvariant(a, AcquireImage(k));
  }

  lemma AcquireFirst(s: State, k: nat) returns (schedule: seq<Step>, t: State)
    requires Ready(s, k) && k < |s.images|
    ensures RunFrom(s, schedule) == t && IsQuiet(schedule)
    ensures Acquired(t, k) && OnlyImage(s, t, k) && t.now == s.now
  {
    var a := AcquireOnly(s, k);
    t := Next(a, ImageBecomesAvailable(k));
    NextKeepsInvariant(a, ImageBecomesAvailable(k));
    schedule := [StartFrame, AcquireImage(k), ImageBecomesAvailable(k)];
    RunThree(s, StartFrame, AcquireImage(k), ImageBecomesAvailable(k));
  }

  lemma RenderSecond(s: State, k: nat) returns (schedule: seq<Step>, t: State)
    requires Acquired(s, k)
    ensures RunFrom(s, schedule) == t && IsQuiet(schedule)
    ensures Rendered(t, k) && OnlyImage(s, t, k) && t.now == s.now
  {
    var a := Next(s, Submit);
    NextKeepsInvariant(s, Submit);
    assert a.handles.available[k] in a.handles.available && a.handles.finished[k] in a.handles.finished;
    assert a.status[a.handles.available[k]].Signaled?;
    t := Next(a, RenderingCompletes(k));
    NextKeepsInvariant(a, RenderingCompletes(k));
    schedule := [Submit, RenderingCompletes(k)];
    RunTwo(s, Submit, RenderingCompletes(k));
  }

  lemma PresentThird(s: State, k: nat) returns (schedule: seq<Step>, t: State)
    requires Rendered(s, k) && PresentedBelow(s.images, k, k + 1)
    ensures RunFrom(s, schedule) == t && IsQuiet(schedule)
    ensures Ready(t, k + 1) && |t.images| == |s.images| && t.now == s.now + 1
  {
    var a := Next(s, Present(false));
    NextKeepsInvariant(s, Present(false));
    t := Next(a, StepRing);
    NextKeepsInvariant(a, StepRing);
    schedule := [Present(false), StepRing];
    RunTwo(s, Present(false), StepRing);
  }

  lemma RunTwo(s: State, first: Step, second: Step)
    ensures RunFrom(s, [first, second]) == Attempt(Attempt(s, first), second)
    ensures !first.Recreate? && !second.Recreate? ==> Sizes([first, second]) == []
  {
    assert [first, second][1..] == [second] && [second][1..] == [];
    assert Sizes([second]) == if second.Recreate? then [second.n] else [];
    assert RunFrom(Attempt(s, first), [second]) == Attempt(Attempt(s, first), second);
  }

  lemma RunThree(s: State, first: Step, second: Step, third: Step)
    ensures RunFrom(s, [first, second, third]) == Attempt(Attempt(Attempt(s, first), second), third)
    ensures !first.Recreate? && !second.Recreate? && !third.Recreate? ==> Sizes([first, second, third]) == []
  {
    assert [first, second, third][1..] == [second, third];
    RunTwo(Attempt(s, first), second, third);
  }

  /** A whole frame, with image `k`, of which the presentation does not complete. */
  lemma OneFrame(s: State, k: nat) returns (schedule: seq<Step>, t: State)
    requires Ready(s, k) && k < |s.images|
    ensures RunFrom(s, schedule) == t && IsQuiet(schedule)
    ensures Ready(t, k + 1) && |t.images| == |s.images| && t.now == s.now + 1
  {
    var first, a := AcquireFirst(s, k);
    var second, b := RenderSecond(a, k);
    OthersStay(s, a, b, k);
    var third;
    third, t := PresentThird(b, k);
    QuietAppend(s, first, second);
    schedule := first + second + third;
    QuietAppend(s, first + second, third);
  }

  lemma OthersStay(s: State, a: State, b: State, k: nat)
    requires OnlyImage(s, a, k) && OnlyImage(a, b, k) && PresentedBelow(s.images, k, k) && k < |s.images|
    ensures PresentedBelow(b.images, k, k + 1)
  {
  }

  /** As many frames as there are images that were not presented yet, or less. */
  lemma {:induction false} Frames(s: State, k: nat, count: nat) returns (schedule: seq<Step>)
    requires Ready(s, k) && k + count <= |s.images|
    ensures IsQuiet(schedule)
    ensures var t := RunFrom(s, schedule);
      Ready(t, k + count) && |t.images| == |s.images| && t.now == s.now + count
    decreases count
  {
    if count == 0 {
      schedule := [];
    } else {
      var first, t := OneFrame(s, k);
      var more := Frames(t, k + 1, count - 1);
      schedule := first + more;
      QuietAppend(s, first, more);
    }
  }

  /** Frames of one swapchain after the other, without a completed presentation. */
  lemma {:induction false} ManyFrames(s: State, more: seq<nat>, count: nat) returns (schedule: seq<Step>)
    requires Ready(s, 0) && count <= |s.images| + Sum(more)
    ensures RunFrom(s, schedule).now == s.now + count
    ensures NothingCompletes(schedule) && Sizes(schedule) <= more
    decreases |more|
  {
    if count <= |s.images| {
      schedule := Frames(s, 0, count);
    } else {
      var first := Frames(s, 0, |s.images|);
      var t := NextSwapchain(RunFrom(s, first), |s.images|, more[0]);
      var rest := ManyFrames(t, more[1..], count - |s.images|);
      schedule := first + ([Recreate(more[0])] + rest);
      ThenRecreate(s, first, more[0], rest);
      OneMore(Sizes(rest), more);
    }
  }

  lemma OneMore(sizes: seq<nat>, more: seq<nat>)
    requires more != [] && sizes <= more[1..]
    ensures [more[0]] + sizes <= more
  {
  }

  lemma NextSwapchain(s: State, k: nat, n: nat) returns (t: State)
    requires Ready(s, k)
    ensures t == Attempt(s, Recreate(n)) && Ready(t, 0) && |t.images| == n && t.now == s.now
  {
    t := Next(s, Recreate(n));
    NextKeepsInvariant(s, Recreate(n));
  }

  lemma ThenRecreate(s: State, first: seq<Step>, n: nat, rest: seq<Step>)
    requires IsQuiet(first) && NothingCompletes(rest)
    ensures var schedule := first + ([Recreate(n)] + rest);
      && RunFrom(s, schedule) == RunFrom(Attempt(RunFrom(s, first), Recreate(n)), rest)
      && NothingCompletes(schedule) && Sizes(schedule) == [n] + Sizes(rest)
  {
    var second := [Recreate(n)] + rest;
    assert second[1..] == rest;
    RunFromAppend(s, first, second);
    SizesAppend(first, second);
  }

  /** With images enough to present, there is a run in which the semaphore is destroyed too early. */
  lemma DelayIsNotEnough(s: State, n: nat, more: seq<nat>, i: nat) returns (schedule: seq<Step>)
    requires Invariant(s) && Enabled(s, Recreate(n)) && i < |s.images| && s.images[i].phase.Presented?
    requires n + Sum(more) >= Stay(|s.images|)
    ensures RunsInOrder(Next(s, Recreate(n)), schedule) && Sizes(schedule) <= more
    ensures !IsInTime(RunFrom(Next(s, Recreate(n)), schedule), s.handles.finished[i])
  {
    var s' := Next(s, Recreate(n));
    NextKeepsInvariant(s, Recreate(n));
    assert Ready(s', 0);
    schedule := ManyFrames(s', more, Stay(|s.images|));
    NothingIsInOrder(s', schedule);
    StillPresenting(s', schedule, s.handles.finished[i]);
    RescuedUntilDue(s, n, schedule, i);
  }

  /** All runs in which presentations complete in order, and after which at most the swapchains of these sizes came. */
  ghost predicate AlwaysInTime(s: State, sizes: seq<nat>, dropped: seq<nat>) {
    forall schedule :: RunsInOrder(s, schedule) && Sizes(schedule) <= sizes ==> InTime(RunFrom(s, schedule), dropped)
  }

  /**
   * A swapchain is dropped for one with `n` images, which is followed by swapchains with `more` images. No semaphore of
   * a dropped image is ever destroyed while a presentation waits for it, exactly when no image was being presented, or
   * all of the new swapchains together have fewer images than the dropped one (up to the sixteen slots of the ring).
   */
  lemma DelayIsEnoughExactly(s: State, n: nat, more: seq<nat>)
    requires Invariant(s) && Enabled(s, Recreate(n))
    ensures AlwaysInTime(Next(s, Recreate(n)), more, s.handles.finished) <==>
      (forall i :: 0 <= i < |s.images| ==> !s.images[i].phase.Presented?) || n + Sum(more) < Stay(|s.images|)
  {
    var s', dropped := Next(s, Recreate(n)), s.handles.finished;
    if n + Sum(more) < Stay(|s.images|) {
      forall schedule, i | RunsInOrder(s', schedule) && Sizes(schedule) <= more && 0 <= i < |dropped|
        ensures IsInTime(RunFrom(s', schedule), dropped[i])
      {
        SumOfPrefix(Sizes(schedule), more);
        DelayIsEnough(s, n, schedule, i);
      }
    } else if exists i :: 0 <= i < |s.images| && s.images[i].phase.Presented? {
      var i :| 0 <= i < |s.images| && s.images[i].phase.Presented?;
      var schedule := DelayIsNotEnough(s, n, more, i);
      assert !InTime(RunFrom(s', schedule), dropped);
    } else {
      forall schedule, i | RunsInOrder(s', schedule) && 0 <= i < |dropped|
        ensures IsInTime(RunFrom(s', schedule), dropped[i])
      {
        NotPresented(s, n, schedule, i);
      }
    }
  }

  lemma SumOfPrefix(sizes: seq<nat>, more: seq<nat>)
    requires sizes <= more
    ensures Sum(sizes) <= Sum(more)
  {
    SumAppend(sizes, more[|sizes|..]);
    assert more == sizes + more[|sizes|..];
  }

  lemma {:induction false} NoNewPresentation(s: State, schedule: seq<Step>, h: nat)
    requires Invariant(s) && h in s.delayed && h !in s.presenting
    ensures h !in RunFrom(s, schedule).presenting
    decreases |schedule|
  {
    if schedule != [] {
      var s' := Attempt(s, schedule[0]);
      if Enabled(s, schedule[0]) {
        NextKeepsInvariant(s, schedule[0]);
        assert schedule[0].Present? ==> s.handles.finished[s.current] in s.handles.finished;
        assert s.delayed <= s'.delayed;
      }
      NoNewPresentation(s', schedule[1..], h);
    }
  }

  lemma NotPresented(s: State, n: nat, schedule: seq<Step>, i: nat)
    requires Invariant(s) && Enabled(s, Recreate(n)) && i < |s.images| && !s.images[i].phase.Presented?
    ensures IsInTime(RunFrom(Next(s, Recreate(n)), schedule), s.handles.finished[i])
  {
    var h, s' := s.handles.finished[i], Next(s, Recreate(n));
    NextKeepsInvariant(s, Recreate(n));
    RescuedIsDelayed(s, n, i);
    NoNewPresentation(s', schedule, h);
    RescuedUntilDue(s, n, schedule, i);
  }

  lemma FirstFrame(start: State, images: nat) returns (before: seq<Step>, s: State)
    requires Ready(start, 0) && images > 0
    ensures s == RunFrom(start, before) && Ready(s, 1) && |s.images| == images
    ensures RunsInOrder(start, before) && Sizes(before) == [images]
  {
    var first := NextSwapchain(start, 0, images);
    var frame;
    frame, s := OneFrame(first, 0);
    before := [] + ([Recreate(images)] + frame);
    ThenRecreate(start, [], images, frame);
    NothingIsInOrder(start, before);
  }

  /** This does happen: render one frame with `images` images, and drop them. */
  lemma SomeRunIsTooEarly(frames: nat, images: nat, n: nat, more: seq<nat>) returns (before: seq<Step>, after: seq<Step>)
    requires frames > 0 && images > 0 && n + Sum(more) >= Stay(images)
    ensures RunsInOrder(Initial(frames), before) && Sizes(before) == [images]
    ensures var s := Run(frames, before);
      && InBounds(s) && |s.images| == images && Enabled(s, Recreate(n))
      && RunsInOrder(Next(s, Recreate(n)), after) && Sizes(after) <= more
      && !IsInTime(RunFrom(Next(s, Recreate(n)), after), s.handles.finished[0])
  {
    var s;
    InvariantHoldsInitially(frames);
    before, s := FirstFrame(Initial(frames), images);
    after := DelayIsNotEnough(s, n, more, 0);
  }
}
