/**
 * The semaphores of a swapchain: `Swapchain` rotates the semaphore with which an image is acquired through the
 * resources of the images, and replaces the semaphores when it is recreated.
 */
module Swapchain {
  import opened DelayedDestruction

  // ----- the handles -----

  /** Per image its image-available and its rendering-finished semaphore, and the semaphore for the next acquire. */
  datatype Semaphores = Semaphores(available: seq<nat>, finished: seq<nat>, acquire: nat) {
    ghost predicate WellFormed() {
      |available| == |finished|
    }

    /** All image-available handles: those of the images, and the one for acquiring. */
    function Rotating(): multiset<nat> {
      multiset(available) + multiset{acquire}
    }
  }

  function Rotated(s: Semaphores, i: nat): Semaphores
    requires i < |s.available|
  {
    s.(available := s.available[i := s.acquire], acquire := s.available[i])
  }

  /** After recreation: `n` images whose semaphores are the new handles from `first` on, and the old acquire semaphore. */
  function Recreated(s: Semaphores, first: nat, n: nat): Semaphores {
    Semaphores(seq(n, i requires i >= 0 => first + 2 * i), seq(n, i requires i >= 0 => first + 2 * i + 1), s.acquire)
  }

  lemma RotatedConserves(s: Semaphores, i: nat)
    requires i < |s.available|
    ensures Rotated(s, i).Rotating() == s.Rotating() && Rotated(s, i).finished == s.finished
  {
    Exchanged(s.available, i, s.acquire);
  }

  lemma Exchanged(s: seq<nat>, i: nat, x: nat)
    requires i < |s|
    ensures multiset(s[i := x]) + multiset{s[i]} == multiset(s) + multiset{x}
  {
    assert s == s[..i] + [s[i]] + s[i + 1..];
    assert s[i := x] == s[..i] + [x] + s[i + 1..];
  }

  // ----- the class -----

  datatype Resources = Resources(available: nat, finished: nat)

  /** What `recreate_swapchain_images` adds to the ring. */
  function Rescued(finished: seq<nat>, due: nat): seq<Entry> {
    seq(|finished|, i requires 0 <= i < |finished| => Entry(finished[i], due))
  }

  class Swapchain {
    var resources: seq<Resources>
    var acquire: nat
    var currentIndex: nat
    var nextHandle: nat                // The next handle that the logical device returns.

    function Contents(): Semaphores
      reads this
    {
      Semaphores(
        seq(|resources|, i requires 0 <= i < |resources| reads this => resources[i].available),
        seq(|resources|, i requires 0 <= i < |resources| reads this => resources[i].finished),
        acquire)
    }

    /** `prepare`: there are no images yet. */
    constructor ()
      ensures Contents() == Semaphores([], [], 0) && nextHandle == 1
    {
      resources, acquire, currentIndex, nextHandle := [], 0, 0, 1;
    }

    method UpdateCurrentIndex(i: nat)
      requires i < |resources|
      modifies this
      ensures Contents() == Rotated(old(Contents()), i)
      ensures currentIndex == i && nextHandle == old(nextHandle)
    {
      var previous := resources[i].available;
      resources := resources[i := resources[i].(available := acquire)];
      acquire := previous;
      currentIndex := i;
    }

    /** `n` is the number of images of the new swapchain. */
    method RecreateSwapchainImages(n: nat, ring: DelaySemaphoreDestruction)
      requires ring.Valid()
      modifies this, ring
      ensures ring.Valid() && ring.now == old(ring.now)
      ensures Contents() == Recreated(old(Contents()), old(nextHandle), n) && nextHandle == old(nextHandle) + 2 * n
      ensures ring.log == old(ring.log) + Rescued(old(Contents()).finished, ring.now + Stay(|old(resources)|))
    {
      ghost var finished := Contents().finished;
      var keep := |resources|;
      for i := 0 to |resources|
        invariant ring.Valid() && ring.now == old(ring.now)
        invariant unchanged(this)
        invariant ring.log == old(ring.log) + Rescued(finished[..i], ring.now + Stay(keep))
      {
        assert finished[..i + 1] == finished[..i] + [resources[i].finished];
        ring.Add(resources[i].finished, keep);
      }
      assert finished[..|resources|] == finished;
      resources := [];
      for i := 0 to n
        invariant |resources| == i && nextHandle == old(nextHandle) + 2 * i
        invariant acquire == old(acquire) && ring.Valid() && ring.now == old(ring.now)
        invariant ring.log == old(ring.log) + Rescued(finished, ring.now + Stay(keep))
        invariant forall j :: 0 <= j < i ==> resources[j] == Resources(old(nextHandle) + 2 * j, old(nextHandle) + 2 * j + 1)
      {
        resources := resources + [Resources(nextHandle, nextHandle + 1)];
        nextHandle := nextHandle + 2;
      }
    }
  }

  // ----- a window that renders -----

  /** What Vulkan knows of a semaphore. It has no outstanding operation, neither signal nor wait, when it is `Idle`. */
  datatype Status = Idle | SignalPending | Signaled | Destroyed

  /** Where an image is, and whether the command buffer that was last submitted for it has completed. */
  datatype Phase = Available | Acquired | Submitted | Presented

  datatype Image = Image(phase: Phase, rendered: bool, frame: nat)

  datatype Client = BetweenFrames | Started | HasImage | HasSubmitted | HasPresented | OutOfDate

  datatype State = State(
    handles: Semaphores,
    status: seq<Status>,               // By handle.
    presenting: set<nat>,              // The rendering-finished semaphores that a presentation still waits for.
    delayed: seq<nat>,                 // Those of images that no longer exist, in the order in which the ring got them.
    log: seq<Entry>,                   // The same, with the number of the step of the ring that destroys them.
    now: nat,                          // The number of steps that the ring took: one per completed frame.
    images: seq<Image>,
    current: nat,
    client: Client,
    fences: seq<bool>,                 // By frame resource: its last submit has completed.
    frame: nat)

  datatype Step =
    | StartFrame
    | AcquireImage(i: nat)
    | AcquireFails
    | ImageBecomesAvailable(i: nat)
    | Submit
    | Present(outOfDate: bool)
    | RenderingCompletes(i: nat)
    | PresentationCompletes(i: nat)
    | RetiredPresentationCompletes(semaphore: nat)   // Of an image that no longer exists.
    | StepRing
    | Recreate(n: nat)

  function Initial(frames: nat): State {
    State(Semaphores([], [], 0), [Idle], {}, [], [], 0, [], 0, BetweenFrames, seq(frames, _ => true), 0)
  }

  /** The command buffers of all frames have completed: `wait_for_all_fences`. */
  predicate AllFencesSignaled(s: State) {
    forall f :: 0 <= f < |s.fences| ==> s.fences[f]
  }

  function DestroyAll(status: seq<Status>, handles: seq<nat>): seq<Status> {
    seq(|status|, h requires 0 <= h < |status| => if h in handles then Destroyed else status[h])
  }

  predicate InBounds(s: State) {
    && |s.images| == |s.handles.available| == |s.handles.finished|
    && s.handles.acquire < |s.status|
    && (forall i :: 0 <= i < |s.images| ==> s.handles.available[i] < |s.status| && s.handles.finished[i] < |s.status|)
    && (s.client.HasImage? || s.client.HasSubmitted? ==> s.current < |s.images|)
    && s.frame < |s.fences|
  }

  /** The presentation engine only gives an image when it is done with it: this is the assumption about Vulkan. */
  predicate Enabled(s: State, step: Step)
    requires InBounds(s)
  {
    match step
    case StartFrame => s.client.BetweenFrames? && s.images != []
    case AcquireImage(i) => s.client.Started? && i < |s.images| && s.images[i].phase.Available?
    case AcquireFails => s.client.Started?
    case ImageBecomesAvailable(i) => i < |s.images| && s.status[s.handles.available[i]].SignalPending?
    case Submit => s.client.HasImage? && s.fences[s.frame]
    case Present(_) => s.client.HasSubmitted?
    case RenderingCompletes(i) =>
      i < |s.images| && !s.images[i].rendered && s.images[i].frame < |s.fences| && s.status[s.handles.available[i]].Signaled?
    case PresentationCompletes(i) =>
      i < |s.images| && s.images[i].phase.Presented? && s.status[s.handles.finished[i]].Signaled?
    case RetiredPresentationCompletes(semaphore) =>
      semaphore in s.delayed && semaphore in s.presenting && semaphore < |s.status| && s.status[semaphore].Signaled?
    case StepRing => s.client.HasPresented?
    case Recreate(_) => (s.client.BetweenFrames? || s.client.OutOfDate?) && AllFencesSignaled(s)
  }

  /** `acquire_next_image` followed by `update_current_index`. */
  function AfterAcquire(s: State, i: nat): State
    requires InBounds(s) && i < |s.images|
  {
    s.(status := s.status[s.handles.acquire := SignalPending], handles := Rotated(s.handles, i),
       images := s.images[i := s.images[i].(phase := Acquired)], current := i, client := HasImage)
  }

  function Next(s: State, step: Step): State
    requires InBounds(s) && Enabled(s, step)
  {
    match step
    case StartFrame => s.(frame := (s.frame + 1) % |s.fences|, client := Started)
    case AcquireImage(i) => AfterAcquire(s, i)
    case AcquireFails => s.(client := OutOfDate)
    case ImageBecomesAvailable(i) => s.(status := s.status[s.handles.available[i] := Signaled])
    case Submit =>
      s.(status := s.status[s.handles.finished[s.current] := SignalPending],
         images := s.images[s.current := Image(Submitted, false, s.frame)],
         fences := s.fences[s.frame := false], client := HasSubmitted)
    case Present(outOfDate) =>
      s.(images := s.images[s.current := s.images[s.current].(phase := Presented)],
         presenting := s.presenting + {s.handles.finished[s.current]},
         client := if outOfDate then OutOfDate else HasPresented)
    case RenderingCompletes(i) =>
      s.(status := s.status[s.handles.available[i] := Idle][s.handles.finished[i] := Signaled],
         images := s.images[i := s.images[i].(rendered := true)], fences := s.fences[s.images[i].frame := true])
    case PresentationCompletes(i) =>
      s.(status := s.status[s.handles.finished[i] := Idle], presenting := s.presenting - {s.handles.finished[i]},
         images := s.images[i := s.images[i].(phase := Available)])
    case RetiredPresentationCompletes(semaphore) =>
      s.(status := s.status[semaphore := Idle], presenting := s.presenting - {semaphore})
    case StepRing =>
      s.(status := DestroyAll(s.status, DueAt(s.log, s.now + 1)), now := s.now + 1, client := BetweenFrames)
    case Recreate(n) =>
      s.(status := DestroyAll(s.status, s.handles.available) + seq(2 * n, _ => Idle),
         delayed := s.delayed + s.handles.finished,
         log := s.log + Rescued(s.handles.finished, s.now + Stay(|s.images|)),
         handles := Recreated(s.handles, |s.status|, n),
         images := seq(n, _ => Image(Available, true, 0)), client := BetweenFrames)
  }

  // ----- the invariant -----

  predicate Distinct(s: seq<nat>) {
    forall i, j :: 0 <= i < j < |s| ==> s[i] != s[j]
  }

  /** No two handles are the same, and none of them was handed to the ring. */
  ghost predicate HandlesDistinct(handles: Semaphores, delayed: seq<nat>) {
    && Distinct(handles.available) && Distinct(handles.finished)
    && handles.acquire !in handles.available && handles.acquire !in handles.finished && handles.acquire !in delayed
    && (forall h :: h in handles.available ==> h !in handles.finished && h !in delayed)
    && (forall h :: h in handles.finished ==> h !in delayed)
  }

  predicate Waited(status: Status) {
    status.SignalPending? || status.Signaled?
  }

  /** The status of the semaphores of an image, by the whereabouts of the image. */
  predicate ImageOk(image: Image, available: Status, finished: Status) {
    match image.phase
    case Available => image.rendered && available.Idle? && finished.Idle?
    case Acquired => image.rendered && Waited(available) && finished.Idle?
    case _ =>
      if image.rendered then available.Idle? && finished.Signaled?
      else Waited(available) && finished.SignalPending?
  }

  ghost predicate ImagesOk(s: State)
    requires InBounds(s)
  {
    forall i :: 0 <= i < |s.images| ==> ImageOk(s.images[i], s.status[s.handles.available[i]], s.status[s.handles.finished[i]])
  }

  /** Only the current image can be with the client. */
  predicate ClientOk(images: seq<Image>, client: Client, current: nat) {
    && (forall i :: 0 <= i < |images| ==> images[i].phase.Available? || images[i].phase.Presented? || i == current)
    && (client.HasImage? ==> current < |images| && images[current].phase.Acquired?)
    && (client.HasSubmitted? ==> current < |images| && images[current].phase.Submitted?)
    && (!client.HasImage? && !client.HasSubmitted? && current < |images| ==>
          images[current].phase.Available? || images[current].phase.Presented?)
  }

  /** An image that is being rendered holds a fence of its own. */
  predicate FencesOk(images: seq<Image>, fences: seq<bool>) {
    && (forall i :: 0 <= i < |images| && !images[i].rendered ==> images[i].frame < |fences| && !fences[images[i].frame])
    && (forall i, j :: 0 <= i < j < |images| && !images[i].rendered && !images[j].rendered ==> images[i].frame != images[j].frame)
  }

  /** A semaphore in the ring, unless it was destroyed, is idle as soon as its presentation has completed. */
  predicate RetiredOk(status: Status, isPresenting: bool) {
    status.Destroyed? || (status.Idle? && !isPresenting) || (status.Signaled? && isPresenting)
  }

  predicate DelayedOk(s: State) {
    forall h :: h in s.delayed ==> h < |s.status| && RetiredOk(s.status[h], h in s.presenting)
  }

  /** The ring destroys a semaphore when it is due. */
  predicate LogOk(s: State) {
    && |s.log| == |s.delayed| && Distinct(s.delayed)
    && forall i :: 0 <= i < |s.log| ==> IsLogged(s, i)
  }

  predicate IsLogged(s: State, i: nat)
    requires i < |s.log| == |s.delayed|
  {
    && s.log[i].semaphore == s.delayed[i] < |s.status|
    && (s.status[s.delayed[i]].Destroyed? <==> s.log[i].due <= s.now)
  }

  /** A presentation waits for the semaphores of exactly the images that are presented. */
  predicate PresentingOk(s: State)
    requires |s.images| == |s.handles.finished|
  {
    && (forall i :: 0 <= i < |s.images| ==> (s.handles.finished[i] in s.presenting <==> s.images[i].phase.Presented?))
    && (forall h :: h in s.presenting ==> h < |s.status|)
  }

  ghost predicate Invariant(s: State) {
    && InBounds(s)
    && HandlesDistinct(s.handles, s.delayed)
    && s.status[s.handles.acquire].Idle?
    && ImagesOk(s)
    && ClientOk(s.images, s.client, s.current)
    && FencesOk(s.images, s.fences)
    && DelayedOk(s) && LogOk(s) && PresentingOk(s)
  }

  lemma RotatedDistinct(handles: Semaphores, delayed: seq<nat>, i: nat)
    requires HandlesDistinct(handles, delayed) && i < |handles.available|
    ensures HandlesDistinct(Rotated(handles, i), delayed)
  {
  }

  /** Image-available handles and rendering-finished handles take turns. */
  lemma RecreatedHandles(handles: Semaphores, first: nat, n: nat)
    ensures forall h :: h in Recreated(handles, first, n).available ==> h >= first && (h - first) % 2 == 0
    ensures forall h :: h in Recreated(handles, first, n).finished ==> h >= first && (h - first) % 2 == 1
  {
    var recreated := Recreated(handles, first, n);
    forall h | h in recreated.available
      ensures h >= first && (h - first) % 2 == 0
    {
      var i :| 0 <= i < n && recreated.available[i] == h;
      assert h - first == 2 * i;
    }
    forall h | h in recreated.finished
      ensures h >= first && (h - first) % 2 == 1
    {
      var i :| 0 <= i < n && recreated.finished[i] == h;
      assert h - first == 2 * i + 1;
    }
  }

  lemma RecreatedDiffer(handles: Semaphores, first: nat, n: nat)
    ensures Distinct(Recreated(handles, first, n).available) && Distinct(Recreated(handles, first, n).finished)
  {
  }

  lemma RecreatedDistinct(handles: Semaphores, delayed: seq<nat>, first: nat, n: nat)
    requires HandlesDistinct(handles, delayed) && handles.acquire < first
    requires forall h :: h in handles.finished || h in delayed ==> h < first
    ensures HandlesDistinct(Recreated(handles, first, n), delayed + handles.finished)
  {
    RecreatedDiffer(handles, first, n);
    RecreatedHandles(handles, first, n);
    forall h | h in delayed + handles.finished
      ensures h < first
    {
    }
  }

  /** What the ring gets from a recreated swapchain is idle, or a presentation waits for it. */
  lemma RescuedIsOk(s: State, i: nat)
    requires Invariant(s) && AllFencesSignaled(s) && !s.client.HasImage? && !s.client.HasSubmitted? && i < |s.images|
    ensures var h := s.handles.finished[i]; h !in s.handles.available && !s.status[h].Destroyed? && RetiredOk(s.status[h], h in s.presenting)
  {
    assert ImageOk(s.images[i], s.status[s.handles.available[i]], s.status[s.handles.finished[i]]);
    assert s.handles.finished[i] in s.handles.finished;
    assert s.images[i].rendered;
  }

  /** Recreation does nothing to what is in the ring, and what gets there is as it should be. */
  lemma RecreateLeavesDelayed(s: State, n: nat, h: nat)
    requires Invariant(s) && Enabled(s, Recreate(n)) && h in s.delayed + s.handles.finished
    ensures h < |s.status| && Next(s, Recreate(n)).status[h] == s.status[h] && RetiredOk(s.status[h], h in s.presenting)
  {
    if h in s.handles.finished {
      var i :| 0 <= i < |s.images| && s.handles.finished[i] == h;
      RescuedIsOk(s, i);
    }
    assert h !in s.handles.available;
  }

  lemma RecreateKeepsDelayed(s: State, n: nat)
    requires Invariant(s) && Enabled(s, Recreate(n))
    ensures DelayedOk(Next(s, Recreate(n)))
  {
    var s' := Next(s, Recreate(n));
    forall h | h in s'.delayed
      ensures h < |s'.status| && RetiredOk(s'.status[h], h in s'.presenting)
    {
      RecreateLeavesDelayed(s, n, h);
    }
  }

  /** Entry `k` of the ring. */
  predicate IsInRing(s: State, k: nat, h: nat, due: nat) {
    k < |s.log| && k < |s.delayed| && s.delayed[k] == h && s.log[k] == Entry(h, due)
  }

  /** What the ring gets for a dropped image. */
  lemma RescuedEntry(s: State, n: nat, i: nat)
    requires InBounds(s) && |s.log| == |s.delayed| && Enabled(s, Recreate(n)) && i < |s.images|
    ensures IsInRing(Next(s, Recreate(n)), |s.log| + i, s.handles.finished[i], s.now + Stay(|s.images|))
  {
    var rescued := Rescued(s.handles.finished, s.now + Stay(|s.images|));
    assert (s.log + rescued)[|s.log| + i] == rescued[i];
    assert (s.delayed + s.handles.finished)[|s.log| + i] == s.handles.finished[i];
  }

  lemma RecreateLeavesLog(s: State, n: nat, i: nat)
    requires Invariant(s) && Enabled(s, Recreate(n)) && i < |s.delayed|
    ensures var s' := Next(s, Recreate(n)); |s'.log| == |s'.delayed| && IsLogged(s', i)
  {
    assert IsLogged(s, i) && s.delayed[i] in s.delayed;
    RecreateLeavesDelayed(s, n, s.delayed[i]);
  }

  lemma RecreateLogs(s: State, n: nat, i: nat)
    requires Invariant(s) && Enabled(s, Recreate(n)) && i < |s.images|
    ensures var s' := Next(s, Recreate(n)); |s'.log| == |s'.delayed| && IsLogged(s', |s.delayed| + i)
  {
    assert s.handles.finished[i] in s.handles.finished;
    RecreateLeavesDelayed(s, n, s.handles.finished[i]);
    RescuedEntry(s, n, i);
    RescuedIsOk(s, i);
  }

  lemma RecreateKeepsLog(s: State, n: nat)
    requires Invariant(s) && Enabled(s, Recreate(n))
    ensures LogOk(Next(s, Recreate(n)))
  {
    forall i | 0 <= i < |s.delayed + s.handles.finished|
      ensures IsLogged(Next(s, Recreate(n)), i)
    {
      if i < |s.delayed| {
        RecreateLeavesLog(s, n, i);
      } else {
        RecreateLogs(s, n, i - |s.delayed|);
      }
    }
    DistinctAppend(s.delayed, s.handles.finished);
  }

  lemma DistinctAppend(a: seq<nat>, b: seq<nat>)
    requires Distinct(a) && Distinct(b) && forall h :: h in b ==> h !in a
    ensures Distinct(a + b)
  {
    forall i, j | 0 <= i < j < |a + b|
      ensures (a + b)[i] != (a + b)[j]
    {
      if i < |a| <= j {
        assert b[j - |a|] in b && a[i] in a;
      }
    }
  }

  lemma RecreateKeepsInvariant(s: State, n: nat)
    requires Invariant(s) && Enabled(s, Recreate(n))
    ensures Invariant(Next(s, Recreate(n)))
  {
    var s' := Next(s, Recreate(n));
    var first := |s.status|;
    assert |s'.status| == first + 2 * n;
    RecreatedDistinct(s.handles, s.delayed, first, n);
    RecreateKeepsDelayed(s, n);
    RecreateKeepsLog(s, n);
    forall i | 0 <= i < n
      ensures s'.status[s'.handles.available[i]].Idle? && s'.status[s'.handles.finished[i]].Idle?
      ensures s'.handles.finished[i] !in s'.presenting
    {
      assert s'.handles.available[i] == first + 2 * i && s'.handles.finished[i] == first + 2 * i + 1;
    }
  }

  /** Only what is in the ring can be due. */
  lemma DueIsDelayed(s: State, h: nat, time: nat)
    requires LogOk(s) && h in DueAt(s.log, time)
    ensures h in s.delayed
  {
    if h !in s.delayed {
      forall i | 0 <= i < |s.log|
        ensures s.log[i].semaphore != h
      {
        assert IsLogged(s, i) && s.delayed[i] in s.delayed;
      }
      NotLogged(s.log, h, time);
    }
  }

  lemma LoggedIsDueWhenItSays(s: State, i: nat, time: nat)
    requires LogOk(s) && i < |s.log|
    ensures s.delayed[i] in DueAt(s.log, time) <==> s.log[i].due == time
  {
    forall j, k | 0 <= j < k < |s.log|
      ensures s.log[j].semaphore != s.log[k].semaphore
    {
      assert IsLogged(s, j) && IsLogged(s, k);
    }
    DestroyedWhenDue(s.log, i, time);
    assert IsLogged(s, i);
  }

  /** A step of the ring only destroys what is in the ring. */
  lemma StepRingLeavesImages(s: State, i: nat)
    requires Invariant(s) && Enabled(s, StepRing) && i < |s.images|
    ensures Next(s, StepRing).status[s.handles.available[i]] == s.status[s.handles.available[i]]
    ensures Next(s, StepRing).status[s.handles.finished[i]] == s.status[s.handles.finished[i]]
  {
    assert s.handles.available[i] in s.handles.available && s.handles.finished[i] in s.handles.finished;
    if s.handles.available[i] in DueAt(s.log, s.now + 1) {
      DueIsDelayed(s, s.handles.available[i], s.now + 1);
    }
    if s.handles.finished[i] in DueAt(s.log, s.now + 1) {
      DueIsDelayed(s, s.handles.finished[i], s.now + 1);
    }
  }

  lemma StepRingKeepsLog(s: State)
    requires Invariant(s) && Enabled(s, StepRing)
    ensures LogOk(Next(s, StepRing))
  {
    var s' := Next(s, StepRing);
    forall i | 0 <= i < |s.log|
      ensures IsLogged(s', i)
    {
      assert IsLogged(s, i);
      LoggedIsDueWhenItSays(s, i, s.now + 1);
    }
  }

  lemma StepRingKeepsInvariant(s: State)
    requires Invariant(s) && Enabled(s, StepRing)
    ensures Invariant(Next(s, StepRing))
  {
    var s' := Next(s, StepRing);
    StepRingKeepsLog(s);
    if s.handles.acquire in DueAt(s.log, s.now + 1) {
      DueIsDelayed(s, s.handles.acquire, s.now + 1);
    }
    forall i | 0 <= i < |s.images|
      ensures ImageOk(s'.images[i], s'.status[s'.handles.available[i]], s'.status[s'.handles.finished[i]])
    {
      assert ImageOk(s.images[i], s.status[s.handles.available[i]], s.status[s.handles.finished[i]]);
      StepRingLeavesImages(s, i);
    }
  }

  lemma RetiredPresentationCompletesKeepsInvariant(s: State, h: nat)
    requires Invariant(s) && Enabled(s, RetiredPresentationCompletes(h))
    ensures Invariant(Next(s, RetiredPresentationCompletes(h)))
  {
    var s' := Next(s, RetiredPresentationCompletes(h));
    forall i | 0 <= i < |s.images|
      ensures s.handles.available[i] != h && s.handles.finished[i] != h
    {
      assert s.handles.available[i] in s.handles.available && s.handles.finished[i] in s.handles.finished;
    }
    forall i | 0 <= i < |s.log|
      ensures IsLogged(s', i)
    {
      assert IsLogged(s, i);
    }
    assert ImagesOk(s');
  }

  lemma PhaseKeepsFences(images: seq<Image>, fences: seq<bool>, i: nat, phase: Phase)
    requires FencesOk(images, fences) && i < |images|
    ensures FencesOk(images[i := images[i].(phase := phase)], fences)
  {
  }

  lemma ImageIsAvailableAgain(images: seq<Image>, client: Client, current: nat, i: nat)
    requires ClientOk(images, client, current) && i < |images| && images[i].phase.Presented?
    ensures ClientOk(images[i := images[i].(phase := Available)], client, current)
  {
  }

  /** An image that is presented, or is so no longer, together with its semaphore. */
  lemma PhaseKeepsPresenting(s: State, s': State, i: nat, phase: Phase)
    requires |s.images| == |s.handles.finished| && PresentingOk(s) && Distinct(s.handles.finished) && i < |s.images|
    requires s.handles.finished[i] < |s.status|
    requires s'.handles.finished == s.handles.finished && |s'.status| == |s.status| && s'.images == s.images[i := s.images[i].(phase := phase)]
    requires s'.presenting == if phase.Presented? then s.presenting + {s.handles.finished[i]} else s.presenting - {s.handles.finished[i]}
    ensures PresentingOk(s')
  {
    forall j | 0 <= j < |s.images|
      ensures s.handles.finished[j] in s'.presenting <==> s'.images[j].phase.Presented?
    {
      assert j < i ==> s.handles.finished[j] != s.handles.finished[i];
      assert i < j ==> s.handles.finished[i] != s.handles.finished[j];
    }
  }

  lemma ImageIsAcquired(images: seq<Image>, client: Client, current: nat, i: nat)
    requires ClientOk(images, client, current) && client.Started? && i < |images| && images[i].phase.Available?
    ensures ClientOk(images[i := images[i].(phase := Acquired)], HasImage, i)
  {
  }

  lemma AcquireKeepsImages(s: State, i: nat)
    requires Invariant(s) && Enabled(s, AcquireImage(i))
    ensures InBounds(AfterAcquire(s, i)) && ImagesOk(AfterAcquire(s, i))
  {
    var s' := AfterAcquire(s, i);
    forall j | 0 <= j < |s.images|
      ensures ImageOk(s'.images[j], s'.status[s'.handles.available[j]], s'.status[s'.handles.finished[j]])
    {
      assert ImageOk(s.images[j], s.status[s.handles.available[j]], s.status[s.handles.finished[j]]);
      assert s.handles.available[j] in s.handles.available && s.handles.finished[j] in s.handles.finished;
    }
  }

  lemma AcquireKeepsInvariant(s: State, i: nat)
    requires Invariant(s) && Enabled(s, AcquireImage(i))
    ensures Invariant(Next(s, AcquireImage(i)))
  {
    var s' := AfterAcquire(s, i);
    RotatedDistinct(s.handles, s.delayed, i);
    AcquireKeepsImages(s, i);
    ImageIsAcquired(s.images, s.client, s.current, i);
    PhaseKeepsFences(s.images, s.fences, i, Acquired);
    assert s.presenting == s.presenting - {s.handles.finished[i]};
    PhaseKeepsPresenting(s, s', i, Acquired);
    OtherStepKeepsLog(s, s');
    assert ImageOk(s.images[i], s.status[s.handles.available[i]], s.status[s.handles.finished[i]]);
    assert s.handles.available[i] in s.handles.available;
  }

  /** The steps that change the status of semaphores of one image. */
  lemma ImageStepKeepsImages(s: State, s': State, i: nat)
    requires InBounds(s) && HandlesDistinct(s.handles, s.delayed) && ImagesOk(s) && i < |s.images|
    requires s'.handles == s.handles && |s'.status| == |s.status| && |s'.images| == |s.images| && InBounds(s')
    requires forall j :: 0 <= j < |s.images| && j != i ==> s'.images[j] == s.images[j]
    requires forall h :: 0 <= h < |s.status| && h != s.handles.available[i] && h != s.handles.finished[i] ==> s'.status[h] == s.status[h]
    requires ImageOk(s'.images[i], s'.status[s.handles.available[i]], s'.status[s.handles.finished[i]])
    ensures ImagesOk(s')
    ensures s'.status[s.handles.acquire] == s.status[s.handles.acquire]
    ensures forall h :: h in s.delayed && h < |s.status| ==> s'.status[h] == s.status[h]
  {
    assert s.handles.available[i] in s.handles.available && s.handles.finished[i] in s.handles.finished;
    forall j | 0 <= j < |s.images|
      ensures ImageOk(s'.images[j], s'.status[s'.handles.available[j]], s'.status[s'.handles.finished[j]])
    {
      assert ImageOk(s.images[j], s.status[s.handles.available[j]], s.status[s.handles.finished[j]]);
      assert s.handles.available[j] in s.handles.available && s.handles.finished[j] in s.handles.finished;
    }
  }

  lemma ImageIsSubmitted(images: seq<Image>, i: nat, frame: nat)
    requires i < |images| && ClientOk(images, HasImage, i)
    ensures ClientOk(images[i := Image(Submitted, false, frame)], HasSubmitted, i)
  {
  }

  lemma FenceIsTaken(images: seq<Image>, fences: seq<bool>, i: nat, frame: nat)
    requires FencesOk(images, fences) && i < |images| && frame < |fences| && fences[frame]
    ensures FencesOk(images[i := Image(Submitted, false, frame)], fences[frame := false])
  {
  }

  lemma SamePresented(s: State, s': State)
    requires |s.images| == |s.handles.finished| == |s'.images| && s'.handles.finished == s.handles.finished
    requires s'.presenting == s.presenting && |s'.status| == |s.status| && PresentingOk(s)
    requires forall j :: 0 <= j < |s.images| ==> (s'.images[j].phase.Presented? <==> s.images[j].phase.Presented?)
    ensures PresentingOk(s')
  {
  }

  lemma SubmitKeepsInvariant(s: State)
    requires Invariant(s) && Enabled(s, Submit)
    ensures Invariant(Next(s, Submit))
  {
    var i, s' := s.current, Next(s, Submit);
    assert ImageOk(s.images[i], s.status[s.handles.available[i]], s.status[s.handles.finished[i]]);
    assert s.handles.available[i] in s.handles.available;
    ImageStepKeepsImages(s, s', i);
    ImageIsSubmitted(s.images, i, s.frame);
    FenceIsTaken(s.images, s.fences, i, s.frame);
    SamePresented(s, s');
    assert s.handles.finished[i] in s.handles.finished;
    OtherStepKeepsLog(s, s');
  }

  lemma ImageIsPresented(images: seq<Image>, client: Client, i: nat, client': Client)
    requires ClientOk(images, client, i) && i < |images| && (client'.OutOfDate? || client'.HasPresented?)
    ensures ClientOk(images[i := images[i].(phase := Presented)], client', i)
  {
  }

  lemma PresentKeepsInvariant(s: State, outOfDate: bool)
    requires Invariant(s) && Enabled(s, Present(outOfDate))
    ensures Invariant(Next(s, Present(outOfDate)))
  {
    var i, s' := s.current, Next(s, Present(outOfDate));
    assert ImageOk(s.images[i], s.status[s.handles.available[i]], s.status[s.handles.finished[i]]);
    ImageStepKeepsImages(s, s', i);
    ImageIsPresented(s.images, s.client, i, s'.client);
    PhaseKeepsFences(s.images, s.fences, i, Presented);
    PhaseKeepsPresenting(s, s', i, Presented);
    assert s.handles.finished[i] in s.handles.finished;
    OtherStepKeepsLog(s, s');
  }

  lemma ImageBecomesAvailableKeepsInvariant(s: State, i: nat)
    requires Invariant(s) && Enabled(s, ImageBecomesAvailable(i))
    ensures Invariant(Next(s, ImageBecomesAvailable(i)))
  {
    assert ImageOk(s.images[i], s.status[s.handles.available[i]], s.status[s.handles.finished[i]]);
    assert s.handles.finished[i] in s.handles.finished && s.handles.available[i] in s.handles.available;
    ImageStepKeepsImages(s, Next(s, ImageBecomesAvailable(i)), i);
    assert s.handles.finished[i] in s.handles.finished;
    OtherStepKeepsLog(s, Next(s, ImageBecomesAvailable(i)));
  }

  lemma FenceIsFreed(images: seq<Image>, fences: seq<bool>, i: nat)
    requires FencesOk(images, fences) && i < |images| && !images[i].rendered
    ensures FencesOk(images[i := images[i].(rendered := true)], fences[images[i].frame := true])
  {
  }

  /** Nobody but the device cares about rendering. */
  lemma SamePhases(s: State, s': State)
    requires |s.images| == |s.handles.finished| == |s'.images| && s'.handles == s.handles && |s'.status| == |s.status|
    requires s'.presenting == s.presenting && s'.client == s.client && s'.current == s.current
    requires forall j :: 0 <= j < |s.images| ==> s'.images[j].phase == s.images[j].phase
    ensures PresentingOk(s) ==> PresentingOk(s')
    ensures ClientOk(s.images, s.client, s.current) ==> ClientOk(s'.images, s'.client, s'.current)
  {
  }

  lemma RenderingCompletesKeepsInvariant(s: State, i: nat)
    requires Invariant(s) && Enabled(s, RenderingCompletes(i))
    ensures Invariant(Next(s, RenderingCompletes(i)))
  {
    var s' := Next(s, RenderingCompletes(i));
    assert ImageOk(s.images[i], s.status[s.handles.available[i]], s.status[s.handles.finished[i]]);
    assert s.handles.finished[i] in s.handles.finished && s.handles.available[i] in s.handles.available;
    ImageStepKeepsImages(s, s', i);
    SamePhases(s, s');
    FenceIsFreed(s.images, s.fences, i);
    OtherStepKeepsLog(s, s');
  }

  lemma PresentationCompletesKeepsInvariant(s: State, i: nat)
    requires Invariant(s) && Enabled(s, PresentationCompletes(i))
    ensures Invariant(Next(s, PresentationCompletes(i)))
  {
    var s' := Next(s, PresentationCompletes(i));
    assert ImageOk(s.images[i], s.status[s.handles.available[i]], s.status[s.handles.finished[i]]);
    assert s.handles.finished[i] in s.handles.finished && s.handles.available[i] in s.handles.available;
    ImageStepKeepsImages(s, s', i);
    ImageIsAvailableAgain(s.images, s.client, s.current, i);
    PhaseKeepsFences(s.images, s.fences, i, Available);
    PhaseKeepsPresenting(s, s', i, Available);
    OtherStepKeepsLog(s, s');
  }

  lemma NextKeepsInvariant(s: State, step: Step)
    requires Invariant(s) && Enabled(s, step)
    ensures Invariant(Next(s, step))
  {
    match step
    case AcquireImage(i) => AcquireKeepsInvariant(s, i);
    case Recreate(n) => RecreateKeepsInvariant(s, n);
    case Submit => SubmitKeepsInvariant(s);
    case Present(outOfDate) => PresentKeepsInvariant(s, outOfDate);
    case ImageBecomesAvailable(i) => ImageBecomesAvailableKeepsInvariant(s, i);
    case RenderingCompletes(i) => RenderingCompletesKeepsInvariant(s, i);
    case PresentationCompletes(i) => PresentationCompletesKeepsInvariant(s, i);
    case RetiredPresentationCompletes(h) => RetiredPresentationCompletesKeepsInvariant(s, h);
    case StepRing => StepRingKeepsInvariant(s);
    case StartFrame => OtherStepKeepsLog(s, Next(s, step));
    case AcquireFails => OtherStepKeepsLog(s, Next(s, step));
  }

  /** The steps that do not concern what is in the ring. */
  lemma OtherStepKeepsLog(s: State, s': State)
    requires DelayedOk(s) && LogOk(s) && |s'.status| == |s.status|
    requires s'.delayed == s.delayed && s'.log == s.log && s'.now == s.now
    requires forall h :: h in s.delayed ==> s'.status[h] == s.status[h] && (h in s'.presenting <==> h in s.presenting)
    ensures DelayedOk(s') && LogOk(s')
  {
    forall i | 0 <= i < |s.log|
      ensures IsLogged(s', i)
    {
      assert IsLogged(s, i) && s.delayed[i] in s.delayed;
    }
  }

  /** A step that cannot be taken changes nothing. */
  function Attempt(s: State, step: Step): State {
    if InBounds(s) && Enabled(s, step) then Next(s, step) else s
  }

  /** The state after any sequence of attempted steps, of the application, the presentation engine and the device. */
  function RunFrom(s: State, schedule: seq<Step>): State
    decreases |schedule|
  {
    if schedule == [] then s else RunFrom(Attempt(s, schedule[0]), schedule[1..])
  }

  function Run(frames: nat, schedule: seq<Step>): State {
    RunFrom(Initial(frames), schedule)
  }

  lemma {:induction false} RunKeepsInvariant(s: State, schedule: seq<Step>)
    requires Invariant(s)
    ensures Invariant(RunFrom(s, schedule))
    decreases |schedule|
  {
    if schedule != [] {
      if Enabled(s, schedule[0]) {
        NextKeepsInvariant(s, schedule[0]);
      }
      RunKeepsInvariant(Attempt(s, schedule[0]), schedule[1..]);
    }
  }

  lemma InvariantHolds(frames: nat, schedule: seq<Step>)
    requires frames > 0
    ensures Invariant(Run(frames, schedule))
  {
    InvariantHoldsInitially(frames);
    RunKeepsInvariant(Initial(frames), schedule);
  }

  lemma InvariantHoldsInitially(frames: nat)
    requires frames > 0
    ensures Invariant(Initial(frames))
  {
  }

  // ----- the results -----

  /** In every run an image is only acquired with a semaphore that is unsignaled and has no outstanding operation. */
  lemma AcquireSemaphoreIsIdle(frames: nat, schedule: seq<Step>)
    requires frames > 0
    ensures var s := Run(frames, schedule); InBounds(s) && s.status[s.handles.acquire].Idle?
  {
    InvariantHolds(frames, schedule);
  }

  /** The rules of Vulkan for the semaphores of a submit and a presentation are kept. */
  lemma SemaphoreRules(frames: nat, schedule: seq<Step>)
    requires frames > 0
    ensures InBounds(Run(frames, schedule))
    ensures var s := Run(frames, schedule);
      s.client.HasImage? ==> Waited(s.status[s.handles.available[s.current]]) && s.status[s.handles.finished[s.current]].Idle?
    ensures var s := Run(frames, schedule); s.client.HasSubmitted? ==> Waited(s.status[s.handles.finished[s.current]])
  {
    InvariantHolds(frames, schedule);
    var s := Run(frames, schedule);
    var i := s.current;
    if s.client.HasImage? || s.client.HasSubmitted? {
      assert ImageOk(s.images[i], s.status[s.handles.available[i]], s.status[s.handles.finished[i]]);
    }
  }

  /** Once all fences are signaled, the image-available semaphores that a recreated swapchain destroys are idle. */
  lemma DestroyedSemaphoresAreIdle(frames: nat, schedule: seq<Step>, n: nat, i: nat)
    requires frames > 0
    ensures InBounds(Run(frames, schedule))
    ensures var s := Run(frames, schedule);
      Enabled(s, Recreate(n)) && i < |s.images| ==> s.status[s.handles.available[i]].Idle?
  {
    InvariantHolds(frames, schedule);
    var s := Run(frames, schedule);
    if i < |s.images| {
      assert ImageOk(s.images[i], s.status[s.handles.available[i]], s.status[s.handles.finished[i]]);
    }
  }

  /** Why the presentation engine must be done: an image that is still being rendered makes the acquire semaphore busy. */
  lemma ReacquireNeedsRendering(frames: nat, schedule: seq<Step>, i: nat)
    requires frames > 0
    ensures InBounds(Run(frames, schedule))
    ensures var s := Run(frames, schedule);
      s.client.Started? && i < |s.images| ==> var t := AfterAcquire(s, i); (t.status[t.handles.acquire].Idle? <==> s.images[i].rendered)
  {
    InvariantHolds(frames, schedule);
    var s := Run(frames, schedule);
    if i < |s.images| {
      assert ImageOk(s.images[i], s.status[s.handles.available[i]], s.status[s.handles.finished[i]]);
      assert s.handles.available[i] in s.handles.available;
    }
  }

  predicate NoRecreate(schedule: seq<Step>) {
    forall i :: 0 <= i < |schedule| ==> !schedule[i].Recreate?
  }

  predicate SameHandles(a: Semaphores, b: Semaphores) {
    a.Rotating() == b.Rotating() && a.finished == b.finished
  }

  lemma StepConserves(s: State, step: Step)
    requires !step.Recreate?
    ensures SameHandles(s.handles, Attempt(s, step).handles)
  {
    if InBounds(s) && Enabled(s, step) {
      if step.AcquireImage? {
        RotatedConserves(s.handles, step.i);
      } else {
        assert Next(s, step).handles == s.handles;
      }
    }
  }

  /** Until the swapchain is recreated the image-available handles, with the acquire semaphore, stay the same. */
  lemma {:induction false} HandlesAreConserved(s: State, schedule: seq<Step>)
    requires NoRecreate(schedule)
    ensures SameHandles(s.handles, RunFrom(s, schedule).handles)
    decreases |schedule|
  {
    if schedule != [] {
      StepConserves(s, schedule[0]);
      HandlesAreConserved(Attempt(s, schedule[0]), schedule[1..]);
    }
  }

  /** At all times every handle has one owner only, so no semaphore is used for two purposes or destroyed while in use. */
  lemma HandlesStayDistinct(frames: nat, schedule: seq<Step>)
    requires frames > 0
    ensures InBounds(Run(frames, schedule))
    ensures HandlesDistinct(Run(frames, schedule).handles, Run(frames, schedule).delayed)
    ensures var s := Run(frames, schedule);
      forall i :: 0 <= i < |s.images| ==> !s.status[s.handles.available[i]].Destroyed? && !s.status[s.handles.finished[i]].Destroyed?
  {
    InvariantHolds(frames, schedule);
    var s := Run(frames, schedule);
    forall i | 0 <= i < |s.images|
      ensures !s.status[s.handles.available[i]].Destroyed? && !s.status[s.handles.finished[i]].Destroyed?
    {
      assert ImageOk(s.images[i], s.status[s.handles.available[i]], s.status[s.handles.finished[i]]);
    }
  }

  // ----- the semaphores that are destroyed later -----

  lemma {:induction false} LogGrows(s: State, schedule: seq<Step>)
    ensures s.log <= RunFrom(s, schedule).log && s.delayed <= RunFrom(s, schedule).delayed
    decreases |schedule|
  {
    if schedule != [] {
      LogGrows(Attempt(s, schedule[0]), schedule[1..]);
    }
  }

  /** A semaphore in the ring, at any time. */
  lemma LoggedState(s: State, k: nat)
    requires DelayedOk(s) && LogOk(s) && k < |s.log|
    ensures var h := s.delayed[k];
      && h < |s.status| && (s.status[h].Destroyed? <==> s.log[k].due <= s.now)
      && (!s.status[h].Destroyed? ==> (s.status[h].Idle? <==> h !in s.presenting))
  {
    assert IsLogged(s, k) && s.delayed[k] in s.delayed;
  }

  lemma StaysInRing(s: State, schedule: seq<Step>, k: nat, h: nat, due: nat)
    requires IsInRing(s, k, h, due)
    ensures IsInRing(RunFrom(s, schedule), k, h, due)
  {
    LogGrows(s, schedule);
  }

  /** A semaphore in the ring is destroyed from step `due` on; until then it is idle exactly when no presentation waits for it. */
  predicate LivesUntil(s: State, h: nat, due: nat) {
    && h < |s.status|
    && (s.status[h].Destroyed? <==> due <= s.now)
    && (!s.status[h].Destroyed? ==> (s.status[h].Idle? <==> h !in s.presenting))
  }

  /**
   * A rendering-finished semaphore of an image that a recreated swapchain drops is destroyed when as many frames have
   * completed since as it is to stay. Until then it is idle exactly when the presentation of the image has completed.
   */
  lemma RescuedUntilDue(s: State, n: nat, schedule: seq<Step>, i: nat)
    requires Invariant(s) && Enabled(s, Recreate(n)) && i < |s.images|
    ensures LivesUntil(RunFrom(Next(s, Recreate(n)), schedule), s.handles.finished[i], s.now + Stay(|s.images|))
  {
    RescuedInRun(s, n, schedule, i);
    RingAfterRecreate(s, n, schedule, |s.log| + i, s.handles.finished[i], s.now + Stay(|s.images|));
  }

  lemma RescuedInRun(s: State, n: nat, schedule: seq<Step>, i: nat)
    requires InBounds(s) && |s.log| == |s.delayed| && Enabled(s, Recreate(n)) && i < |s.images|
    ensures IsInRing(RunFrom(Next(s, Recreate(n)), schedule), |s.log| + i, s.handles.finished[i], s.now + Stay(|s.images|))
  {
    RescuedEntry(s, n, i);
    StaysInRing(Next(s, Recreate(n)), schedule, |s.log| + i, s.handles.finished[i], s.now + Stay(|s.images|));
  }

  lemma RingAfterRecreate(s: State, n: nat, schedule: seq<Step>, k: nat, h: nat, due: nat)
    requires Invariant(s) && Enabled(s, Recreate(n)) && IsInRing(RunFrom(Next(s, Recreate(n)), schedule), k, h, due)
    ensures LivesUntil(RunFrom(Next(s, Recreate(n)), schedule), h, due)
  {
    NextKeepsInvariant(s, Recreate(n));
    RingInRun(Next(s, Recreate(n)), schedule, k, h, due);
  }

  lemma RingInRun(s: State, schedule: seq<Step>, k: nat, h: nat, due: nat)
    requires Invariant(s) && IsInRing(RunFrom(s, schedule), k, h, due)
    ensures LivesUntil(RunFrom(s, schedule), h, due)
  {
    RunKeepsInvariant(s, schedule);
    RingLivesUntil(RunFrom(s, schedule), k, h, due);
  }

  lemma RingLivesUntil(s: State, k: nat, h: nat, due: nat)
    requires DelayedOk(s) && LogOk(s) && IsInRing(s, k, h, due)
    ensures LivesUntil(s, h, due)
  {
    LoggedState(s, k);
  }

  /**
   * When destruction is safe: a semaphore that the ring destroys after a frame has no outstanding operation exactly when
   * the presentation of the dropped image has completed. The delay gives it the time of that many frames.
   */
  lemma DestructionIsSafeExactly(frames: nat, schedule: seq<Step>, h: nat)
    requires frames > 0
    requires var s := Run(frames, schedule); h in DueAt(s.log, s.now + 1)
    ensures var s := Run(frames, schedule); h < |s.status| && (s.status[h].Idle? <==> h !in s.presenting)
  {
    InvariantHolds(frames, schedule);
    var s := Run(frames, schedule);
    DueIsDelayed(s, h, s.now + 1);
    var i :| 0 <= i < |s.delayed| && s.delayed[i] == h;
    LoggedIsDueWhenItSays(s, i, s.now + 1);
    LoggedState(s, i);
  }
}
