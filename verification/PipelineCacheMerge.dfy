/**
 * The merging of pipeline caches by `Application`: of all pipeline factories that use the same cache name, the first
 * that finishes lends its cache to merge the others into, and the last has the result written.
 */
module PipelineCacheMerge {
  import opened Options

  /** `PipelineCacheMerger`. A window is listed once for every factory of it that is running. */
  datatype Merger = Merger(windows: seq<nat>, merged: Option<nat>)

  /** What happens to the caches; a cache has the number of its factory. */
  datatype Event =
    | First(cache: nat)                    // Its task becomes the merger.
    | Delivered(to: nat, cache: nat)       // have_new_datum
    | ProducerFinished(merger: nat)        // set_producer_finished

  /** `std::find` followed by `erase`. */
  function Erase(windows: seq<nat>, window: nat): (r: seq<nat>)
    requires window in windows
    ensures multiset(r) == multiset(windows) - multiset{window}
  {
    if windows[0] == window then
      assert windows == [windows[0]] + windows[1..];
      windows[1..]
    else
      assert windows == [windows[0]] + windows[1..];
      [windows[0]] + Erase(windows[1..], window)
  }

  /** The part of `pipeline_factory_done` that runs under the lock. */
  function Locked(m: Merger, window: nat, cache: nat): (Merger, Event)
    requires window in m.windows
  {
    var rest := Erase(m.windows, window);
    if m.merged.None? then (Merger(rest, Some(cache)), First(cache))
    else (Merger(rest, m.merged), Delivered(m.merged.value, cache))
  }

  /** All of `pipeline_factory_done`, when nothing comes in between. */
  function Completed(m: Merger, window: nat, cache: nat): (Merger, seq<Event>)
    requires window in m.windows
  {
    var (m', event) := Locked(m, window, cache);
    if m'.windows == [] then (m'.(merged := None), [event, ProducerFinished(m'.merged.value)]) else (m', [event])
  }

  // ----- the class -----

  class Application {
    var factories: map<string, Merger>
    ghost var events: map<string, seq<Event>>

    constructor ()
      ensures factories == map[] && events == map[]
    {
      factories, events := map[], map[];
    }

    method RunPipelineFactory(name: string, window: nat)
      modifies this
      ensures name in factories && factories[name] == Merger(WindowsOf(old(factories), name) + [window], MergedOf(old(factories), name))
      ensures forall other :: other != name ==> (other in factories <==> other in old(factories))
      ensures forall other :: other != name && other in factories ==> factories[other] == old(factories)[other]
      ensures events == old(events)
    {
      var m := if name in factories then factories[name] else Merger([], None);
      factories := factories[name := m.(windows := m.windows + [window])];
    }

    /** The preconditions are assertions of the source. */
    method PipelineFactoryDone(name: string, window: nat, cache: nat)
      requires name in factories && window in factories[name].windows
      modifies this
      ensures factories == old(factories)[name := Completed(old(factories)[name], window, cache).0]
      ensures events == old(events)[name := EventsOf(old(events), name) + Completed(old(factories)[name], window, cache).1]
    {
      var m := factories[name];
      ghost var log := EventsOf(events, name);
      if m.merged.None? {
        m := m.(merged := Some(cache));
        log := log + [First(cache)];
      } else {
        log := log + [Delivered(m.merged.value, cache)];
      }
      m := m.(windows := Erase(m.windows, window));
      var lastWindow := m.windows == [];
      factories := factories[name := m];
      if lastWindow {
        var merged := m.merged;
        factories := factories[name := m.(merged := None)];
        log := log + [ProducerFinished(merged.value)];
      }
      assert log == EventsOf(old(events), name) + Completed(old(factories)[name], window, cache).1;
      events := events[name := log];
    }
  }

  function WindowsOf(factories: map<string, Merger>, name: string): seq<nat> {
    if name in factories then factories[name].windows else []
  }

  function MergedOf(factories: map<string, Merger>, name: string): Option<nat> {
    if name in factories then factories[name].merged else None
  }

  function EventsOf(events: map<string, seq<Event>>, name: string): seq<Event> {
    if name in events then events[name] else []
  }

  // ----- well-formed histories -----

  datatype History = Closed | Open(merger: nat) | Broken

  /**
   * A history is a sequence of periods. A period begins with the first cache, all other caches of the period are
   * delivered to that one, and it ends when that one is told that nothing follows.
   */
  function Parse(events: seq<Event>): History {
    if events == [] then Closed
    else
      var before := Parse(events[..|events| - 1]);
      match events[|events| - 1]
      case First(k) => if before.Closed? then Open(k) else Broken
      case Delivered(m, _) => if before == Open(m) then before else Broken
      case ProducerFinished(m) => if before == Open(m) then Closed else Broken
  }

  /** How often a cache is the first of a period or is delivered. */
  function Uses(events: seq<Event>, k: nat): nat {
    if events == [] then 0
    else
      var last := events[|events| - 1];
      Uses(events[..|events| - 1], k) + if !last.ProducerFinished? && last.cache == k then 1 else 0
  }

  /** How many caches were taken in the current period. */
  function TakenInPeriod(events: seq<Event>): nat {
    if events == [] || events[|events| - 1].ProducerFinished? then 0
    else TakenInPeriod(events[..|events| - 1]) + 1
  }

  /** A period is open from its first cache until it is told that nothing follows. */
  lemma {:induction false} OpenOnceTaken(events: seq<Event>)
    requires !Parse(events).Broken?
    ensures Parse(events).Open? <==> TakenInPeriod(events) > 0
  {
    if events != [] {
      OpenOnceTaken(events[..|events| - 1]);
    }
  }

  lemma ParseAppend(events: seq<Event>, e: Event)
    ensures Parse(events + [e]) == match e
      case First(k) => if Parse(events).Closed? then Open(k) else Broken
      case Delivered(m, _) => if Parse(events) == Open(m) then Open(m) else Broken
      case ProducerFinished(m) => if Parse(events) == Open(m) then Closed else Broken
  {
    assert (events + [e])[..|events|] == events;
  }

  lemma UsesAppend(events: seq<Event>, e: Event, k: nat)
    ensures Uses(events + [e], k) == Uses(events, k) + if !e.ProducerFinished? && e.cache == k then 1 else 0
  {
    assert (events + [e])[..|events|] == events;
  }

  // ----- any number of factories, step by step -----

  /**
   * Where the factory with this number is. After the critical section it still has to signal its cache, as the
   * merger when it was `first`, and then to finish the merger when it was `last`.
   */
  datatype Pc = NotStarted | Running | Unlocked(first: bool, last: bool) | Signaled | Done

  datatype State = State(merger: Merger, pcs: seq<Pc>, events: seq<Event>)

  datatype Step = Start(k: nat) | Lock(k: nat) | Signal(k: nat) | Finish(k: nat)

  function Initial(n: nat): State {
    State(Merger([], None), seq(n, _ => NotStarted), [])
  }

  predicate IsRunning(pc: Pc) { pc.Running? }
  predicate MustSignalMerger(pc: Pc) { pc.Unlocked? && pc.first }
  predicate MustFinish(pc: Pc) { pc.Signaled? || (pc.Unlocked? && pc.last) }
  predicate HasContributed(pc: Pc) { !pc.NotStarted? && !pc.Running? }

  function CountIf(b: bool): nat {
    if b then 1 else 0
  }

  /** The number of factories of a window that are running. */
  function Runs(windowOf: seq<nat>, pcs: seq<Pc>, window: nat): nat
    requires |windowOf| == |pcs|
  {
    if pcs == [] then 0
    else
      var n := |pcs| - 1;
      Runs(windowOf[..n], pcs[..n], window) + CountIf(IsRunning(pcs[n]) && windowOf[n] == window)
  }

  lemma {:induction false} RunsUpdate(windowOf: seq<nat>, pcs: seq<Pc>, k: nat, pc: Pc, window: nat)
    requires |windowOf| == |pcs| && k < |pcs|
    ensures Runs(windowOf, pcs[k := pc], window) + CountIf(IsRunning(pcs[k]) && windowOf[k] == window) ==
      Runs(windowOf, pcs, window) + CountIf(IsRunning(pc) && windowOf[k] == window)
  {
    var n := |pcs| - 1;
    if k < n {
      RunsUpdate(windowOf[..n], pcs[..n], k, pc, window);
      assert pcs[k := pc][..n] == pcs[..n][k := pc];
    } else {
      assert pcs[k := pc][..n] == pcs[..n];
    }
  }

  /** Every window is listed as often as it has running factories. */
  ghost predicate Listed(windowOf: seq<nat>, s: State)
    requires |windowOf| == |s.pcs|
  {
    forall window :: multiset(s.merger.windows)[window] == Runs(windowOf, s.pcs, window)
  }

  /** The list changes as the program counter of factory `k` does. */
  predicate ListChanges(windowOf: seq<nat>, s: State, s': State, k: nat, window: nat)
    requires k < |windowOf| && k < |s.pcs| && k < |s'.pcs|
  {
    multiset(s'.merger.windows)[window] + CountIf(IsRunning(s.pcs[k]) && windowOf[k] == window)
      == multiset(s.merger.windows)[window] + CountIf(IsRunning(s'.pcs[k]) && windowOf[k] == window)
  }

  lemma StepKeepsListed(windowOf: seq<nat>, s: State, s': State, k: nat)
    requires |windowOf| == |s.pcs| == |s'.pcs| && k < |s.pcs| && Listed(windowOf, s) && s'.pcs == s.pcs[k := s'.pcs[k]]
    requires forall window :: ListChanges(windowOf, s, s', k, window)
    ensures Listed(windowOf, s')
  {
    forall window
      ensures multiset(s'.merger.windows)[window] == Runs(windowOf, s'.pcs, window)
    {
      assert ListChanges(windowOf, s, s', k, window);
      RunsUpdate(windowOf, s.pcs, k, s'.pcs[k], window);
    }
  }

  predicate Enabled(s: State, step: Step) {
    && step.k < |s.pcs|
    && match step
      case Start(k) => s.pcs[k].NotStarted?
      case Lock(k) => s.pcs[k].Running?
      case Signal(k) => s.pcs[k].Unlocked?
      case Finish(k) => s.pcs[k].Signaled?
  }

  /** The step would dereference a null pointer, or address the merger of another period. */
  predicate Fatal(s: State, step: Step)
    requires Enabled(s, step)
  {
    match step
    case Signal(k) => s.pcs[k].first && s.merger.merged != Some(k)
    case Finish(_) => s.merger.merged.None?
    case _ => false
  }

  function Next(windowOf: seq<nat>, s: State, step: Step): State
    requires Enabled(s, step) && !Fatal(s, step) && |windowOf| == |s.pcs|
    requires step.Lock? ==> windowOf[step.k] in s.merger.windows
  {
    var k := step.k;
    match step
    case Start(_) =>
      s.(merger := s.merger.(windows := s.merger.windows + [windowOf[k]]), pcs := s.pcs[k := Running])
    case Lock(_) =>
      var (m', event) := Locked(s.merger, windowOf[k], k);
      State(m', s.pcs[k := Unlocked(s.merger.merged.None?, m'.windows == [])], s.events + [event])
    case Signal(_) =>
      s.(pcs := s.pcs[k := if s.pcs[k].last then Signaled else Done])
    case Finish(_) =>
      State(s.merger.(merged := None), s.pcs[k := Done], s.events + [ProducerFinished(s.merger.merged.value)])
  }

  /**
   * What the locking does not enforce: the last factory does not complete while another has yet to finish the merger,
   * and the merger is only finished once its own factory signaled it.
   */
  predicate Disciplined(s: State, step: Step) {
    && (step.Lock? ==> |s.merger.windows| > 1 || !SomeoneMustFinish(s))
    && (step.Finish? ==> !SomeoneMustSignalMerger(s))
  }

  predicate SomeoneMustFinish(s: State) {
    exists k :: 0 <= k < |s.pcs| && MustFinish(s.pcs[k])
  }

  predicate SomeoneMustSignalMerger(s: State) {
    exists k :: 0 <= k < |s.pcs| && MustSignalMerger(s.pcs[k])
  }

  predicate HistoryMatches(s: State) {
    Parse(s.events) == if s.merger.merged.Some? then Open(s.merger.merged.value) else Closed
  }

  /** Every cache is used once when its factory completes, and not before. */
  predicate UsedOnce(s: State) {
    forall k :: 0 <= k < |s.pcs| ==> Uses(s.events, k) == if HasContributed(s.pcs[k]) then 1 else 0
  }

  predicate MergerOk(s: State) {
    && (forall k :: 0 <= k < |s.pcs| && MustSignalMerger(s.pcs[k]) ==> s.merger.merged == Some(k))
    && (forall k :: 0 <= k < |s.pcs| && MustFinish(s.pcs[k]) ==> s.merger.merged.Some?)
    && (forall j, k :: 0 <= j < k < |s.pcs| ==> !MustFinish(s.pcs[j]) || !MustFinish(s.pcs[k]))
  }

  /** A merger without running factories is about to be finished. */
  predicate MergerIsFinished(s: State) {
    s.merger.merged.Some? && s.merger.windows == [] ==> exists k :: 0 <= k < |s.pcs| && MustFinish(s.pcs[k])
  }

  ghost predicate Invariant(windowOf: seq<nat>, s: State) {
    && |windowOf| == |s.pcs|
    && Listed(windowOf, s)
    && HistoryMatches(s) && UsedOnce(s) && MergerOk(s) && MergerIsFinished(s)
  }

  /** The assertions of the source: the window of a running factory is listed. */
  lemma RunningIsListed(windowOf: seq<nat>, s: State, k: nat)
    requires Invariant(windowOf, s) && k < |s.pcs| && s.pcs[k].Running?
    ensures windowOf[k] in s.merger.windows
  {
    RunsUpdate(windowOf, s.pcs, k, Done, windowOf[k]);
    assert multiset(s.merger.windows)[windowOf[k]] > 0;
  }

  /** With the discipline, no step is fatal. */
  lemma DisciplinedIsNotFatal(windowOf: seq<nat>, s: State, step: Step)
    requires Invariant(windowOf, s) && Enabled(s, step) && Disciplined(s, step)
    ensures !Fatal(s, step)
  {
    match step
    case Signal(k) => assert MustSignalMerger(s.pcs[k]) ==> s.merger.merged == Some(k);
    case Finish(k) => assert MustFinish(s.pcs[k]);
    case _ =>
  }

  /** The factory that completes is the one whose cache is used. */
  lemma ContributionIsUsed(s: State, s': State, k: nat, event: Event)
    requires UsedOnce(s) && k < |s.pcs| && !HasContributed(s.pcs[k])
    requires |s'.pcs| == |s.pcs| && s'.pcs == s.pcs[k := s'.pcs[k]] && HasContributed(s'.pcs[k])
    requires s'.events == s.events + [event] && !event.ProducerFinished? && event.cache == k
    ensures UsedOnce(s')
  {
    forall j | 0 <= j < |s.pcs|
      ensures Uses(s'.events, j) == if HasContributed(s'.pcs[j]) then 1 else 0
    {
      UsesAppend(s.events, event, j);
      assert Uses(s.events, j) == if HasContributed(s.pcs[j]) then 1 else 0;
    }
  }

  lemma LockKeepsHistory(s: State, window: nat, k: nat)
    requires HistoryMatches(s) && window in s.merger.windows
    ensures var (m', event) := Locked(s.merger, window, k);
      HistoryMatches(s.(merger := m', events := s.events + [event]))
  {
    ParseAppend(s.events, Locked(s.merger, window, k).1);
  }

  lemma LockKeepsInvariant(windowOf: seq<nat>, s: State, k: nat)
    requires Invariant(windowOf, s) && Enabled(s, Lock(k)) && Disciplined(s, Lock(k))
    ensures windowOf[k] in s.merger.windows
    ensures Invariant(windowOf, Next(windowOf, s, Lock(k)))
  {
    RunningIsListed(windowOf, s, k);
    LockKeepsHistory(s, windowOf[k], k);
    ContributionIsUsed(s, Next(windowOf, s, Lock(k)), k, Locked(s.merger, windowOf[k], k).1);
    LockKeepsMergerOk(windowOf, s, k);
    LockKeepsListed(windowOf, s, k);
  }

  lemma LockKeepsListed(windowOf: seq<nat>, s: State, k: nat)
    requires |windowOf| == |s.pcs| && Listed(windowOf, s) && Enabled(s, Lock(k)) && windowOf[k] in s.merger.windows
    ensures Listed(windowOf, Next(windowOf, s, Lock(k)))
  {
    var s' := Next(windowOf, s, Lock(k));
    assert multiset(s'.merger.windows) == multiset(s.merger.windows) - multiset{windowOf[k]};
    StepKeepsListed(windowOf, s, s', k);
  }

  lemma LockKeepsMergerOk(windowOf: seq<nat>, s: State, k: nat)
    requires Invariant(windowOf, s) && Enabled(s, Lock(k)) && Disciplined(s, Lock(k)) && windowOf[k] in s.merger.windows
    ensures MergerOk(Next(windowOf, s, Lock(k))) && MergerIsFinished(Next(windowOf, s, Lock(k)))
  {
    var s' := Next(windowOf, s, Lock(k));
    assert MustFinish(s'.pcs[k]) <==> s'.merger.windows == [];
  }

  lemma StartKeepsInvariant(windowOf: seq<nat>, s: State, k: nat)
    requires Invariant(windowOf, s) && Enabled(s, Start(k))
    ensures Invariant(windowOf, Next(windowOf, s, Start(k)))
  {
    StepKeepsListed(windowOf, s, Next(windowOf, s, Start(k)), k);
  }

  lemma SignalKeepsInvariant(windowOf: seq<nat>, s: State, k: nat)
    requires Invariant(windowOf, s) && Enabled(s, Signal(k)) && !Fatal(s, Signal(k))
    ensures Invariant(windowOf, Next(windowOf, s, Signal(k)))
  {
    var s' := Next(windowOf, s, Signal(k));
    StepKeepsListed(windowOf, s, s', k);
    forall j | 0 <= j < |s.pcs|
      ensures SameDuties(s.pcs[j], s'.pcs[j])
    {
    }
    SameDutiesKeep(s, s');
  }

  predicate SameDuties(pc: Pc, pc': Pc) {
    && (MustFinish(pc') <==> MustFinish(pc))
    && (HasContributed(pc') <==> HasContributed(pc))
    && (MustSignalMerger(pc') ==> MustSignalMerger(pc))
  }

  lemma SameDutiesKeep(s: State, s': State)
    requires s'.merger == s.merger && s'.events == s.events && |s'.pcs| == |s.pcs|
    requires forall j :: 0 <= j < |s.pcs| ==> SameDuties(s.pcs[j], s'.pcs[j])
    requires UsedOnce(s) && MergerOk(s) && MergerIsFinished(s)
    ensures UsedOnce(s') && MergerOk(s') && MergerIsFinished(s')
  {
    forall j | 0 <= j < |s.pcs|
      ensures HasContributed(s'.pcs[j]) <==> HasContributed(s.pcs[j])
    {
      assert SameDuties(s.pcs[j], s'.pcs[j]);
    }
    if k :| 0 <= k < |s.pcs| && MustFinish(s.pcs[k]) {
      assert MustFinish(s'.pcs[k]);
    }
  }

  lemma FinishKeepsInvariant(windowOf: seq<nat>, s: State, k: nat)
    requires Invariant(windowOf, s) && Enabled(s, Finish(k)) && Disciplined(s, Finish(k)) && !Fatal(s, Finish(k))
    ensures Invariant(windowOf, Next(windowOf, s, Finish(k)))
  {
    var s' := Next(windowOf, s, Finish(k));
    StepKeepsListed(windowOf, s, s', k);
    var event := ProducerFinished(s.merger.merged.value);
    ParseAppend(s.events, event);
    forall j | 0 <= j < |s.pcs|
      ensures Uses(s'.events, j) == Uses(s.events, j)
    {
      UsesAppend(s.events, event, j);
    }
    assert MustFinish(s.pcs[k]);
  }

  lemma NextKeepsInvariant(windowOf: seq<nat>, s: State, step: Step)
    requires Invariant(windowOf, s) && Enabled(s, step) && Disciplined(s, step)
    ensures !Fatal(s, step)
    ensures step.Lock? ==> windowOf[step.k] in s.merger.windows
    ensures Invariant(windowOf, Next(windowOf, s, step))
  {
    DisciplinedIsNotFatal(windowOf, s, step);
    match step
    case Start(k) => StartKeepsInvariant(windowOf, s, k);
    case Lock(k) => LockKeepsInvariant(windowOf, s, k);
    case Signal(k) => SignalKeepsInvariant(windowOf, s, k);
    case Finish(k) => FinishKeepsInvariant(windowOf, s, k);
  }

  lemma InitialInvariant(windowOf: seq<nat>)
    ensures Invariant(windowOf, Initial(|windowOf|))
  {
    forall window
      ensures Runs(windowOf, Initial(|windowOf|).pcs, window) == 0
    {
      NothingRuns(windowOf, Initial(|windowOf|).pcs, window);
    }
  }

  lemma {:induction false} NothingRuns(windowOf: seq<nat>, pcs: seq<Pc>, window: nat)
    requires |windowOf| == |pcs| && forall k :: 0 <= k < |pcs| ==> !pcs[k].Running?
    ensures Runs(windowOf, pcs, window) == 0
  {
    if pcs != [] {
      NothingRuns(windowOf[..|pcs| - 1], pcs[..|pcs| - 1], window);
    }
  }

  /** A step that cannot be taken, or does not keep the discipline, changes nothing. */
  function Attempt(windowOf: seq<nat>, s: State, step: Step): State {
    if && |windowOf| == |s.pcs| && Enabled(s, step) && Disciplined(s, step) && !Fatal(s, step)
       && (step.Lock? ==> windowOf[step.k] in s.merger.windows)
    then Next(windowOf, s, step) else s
  }

  /** The state after any sequence of attempted steps that keep the discipline. */
  function Run(windowOf: seq<nat>, schedule: seq<Step>): State {
    if schedule == [] then Initial(|windowOf|)
    else Attempt(windowOf, Run(windowOf, schedule[..|schedule| - 1]), schedule[|schedule| - 1])
  }

  lemma {:induction false} InvariantHolds(windowOf: seq<nat>, schedule: seq<Step>)
    ensures Invariant(windowOf, Run(windowOf, schedule))
  {
    if schedule == [] {
      InitialInvariant(windowOf);
    } else {
      var s, step := Run(windowOf, schedule[..|schedule| - 1]), schedule[|schedule| - 1];
      InvariantHolds(windowOf, schedule[..|schedule| - 1]);
      if Enabled(s, step) && Disciplined(s, step) {
        NextKeepsInvariant(windowOf, s, step);
      }
    }
  }

  // ----- the results -----

  /** The discipline is all it takes: a disciplined step is never fatal, and the assertions of the source hold. */
  lemma DisciplineSuffices(windowOf: seq<nat>, schedule: seq<Step>, step: Step)
    ensures var s := Run(windowOf, schedule);
      Enabled(s, step) && Disciplined(s, step) ==> !Fatal(s, step) && (step.Lock? ==> step.k < |windowOf| && windowOf[step.k] in s.merger.windows)
  {
    InvariantHolds(windowOf, schedule);
    var s := Run(windowOf, schedule);
    if Enabled(s, step) && Disciplined(s, step) {
      NextKeepsInvariant(windowOf, s, step);
    }
  }

  /** At any time, what happened so far is a sequence of periods, in which every completed factory has its one part. */
  lemma CachesAreMerged(windowOf: seq<nat>, schedule: seq<Step>)
    ensures var s := Run(windowOf, schedule); !Parse(s.events).Broken?
    ensures var s := Run(windowOf, schedule);
      forall k :: 0 <= k < |s.pcs| ==> Uses(s.events, k) == if HasContributed(s.pcs[k]) then 1 else 0
  {
    InvariantHolds(windowOf, schedule);
  }

  /** No completion is under way. */
  predicate Quiescent(s: State) {
    forall k :: 0 <= k < |s.pcs| ==> s.pcs[k].NotStarted? || s.pcs[k].Running? || s.pcs[k].Done?
  }

  /**
   * When no completion is under way there is a merged cache exactly when some, but not all, factories of the current
   * period have completed; once all have, the next cache begins a new period.
   */
  lemma MergedWhileBusy(windowOf: seq<nat>, schedule: seq<Step>)
    requires Quiescent(Run(windowOf, schedule))
    ensures var s := Run(windowOf, schedule);
      s.merger.merged.Some? <==> TakenInPeriod(s.events) > 0 && exists k :: 0 <= k < |s.pcs| && s.pcs[k].Running?
    ensures var s := Run(windowOf, schedule);
      s.merger.merged.Some? <==> Parse(s.events).Open?
  {
    InvariantHolds(windowOf, schedule);
    var s := Run(windowOf, schedule);
    OpenOnceTaken(s.events);
    if s.merger.windows != [] {
      var window := s.merger.windows[0];
      assert window in multiset(s.merger.windows);
      if forall k :: 0 <= k < |s.pcs| ==> !s.pcs[k].Running? {
        NothingRuns(windowOf, s.pcs, window);
        assert false;
      }
    }
  }

  /** When every started factory has completed, every merger was finished: nothing is left unwritten. */
  lemma EveryPeriodEnds(windowOf: seq<nat>, schedule: seq<Step>)
    requires var s := Run(windowOf, schedule); forall k :: 0 <= k < |s.pcs| ==> s.pcs[k].NotStarted? || s.pcs[k].Done?
    ensures Parse(Run(windowOf, schedule).events).Closed?
  {
    CachesAreMerged(windowOf, schedule);
    MergedWhileBusy(windowOf, schedule);
  }

  // ----- what the discipline is for -----

  /** Finishing the merger before its own factory signaled it: that signal is then fatal. */
  lemma FinishBeforeSignalIsFatal(windowOf: seq<nat>, s: State, first: nat, last: nat)
    requires Invariant(windowOf, s) && first < |s.pcs| && MustSignalMerger(s.pcs[first])
    requires Enabled(s, Finish(last))
    ensures !Fatal(s, Finish(last))
    ensures var s' := Next(windowOf, s, Finish(last)); Enabled(s', Signal(first)) && Fatal(s', Signal(first))
  {
    assert MustFinish(s.pcs[last]);
  }

  /**
   * A factory that starts and completes while the merger has yet to be finished, with no other running, is last as
   * well: two factories then go on to finish the same merger, and the second finds none.
   */
  lemma CompleteBeforeFinishIsFatal(windowOf: seq<nat>, s: State, last: nat, late: nat)
    requires Invariant(windowOf, s) && Enabled(s, Finish(last)) && Enabled(s, Lock(late))
    requires |s.merger.windows| == 1
    ensures windowOf[late] in s.merger.windows
    ensures var s1 := Next(windowOf, s, Lock(late)); Enabled(s1, Signal(late)) && !Fatal(s1, Signal(late))
    ensures var s2 := Next(windowOf, Next(windowOf, s, Lock(late)), Signal(late));
      Enabled(s2, Finish(last)) && !Fatal(s2, Finish(last))
    ensures var s3 := Next(windowOf, Next(windowOf, Next(windowOf, s, Lock(late)), Signal(late)), Finish(last));
      Enabled(s3, Finish(late)) && Fatal(s3, Finish(late))
  {
    RunningIsListed(windowOf, s, late);
    assert MustFinish(s.pcs[last]);
    var s1 := Next(windowOf, s, Lock(late));
    assert |multiset(s1.merger.windows)| == 0;
    assert s1.merger.windows == [];
  }

  /** The steps can be taken one after the other; none but the last is fatal. */
  predicate LeadsToFatal(windowOf: seq<nat>, s: State, steps: seq<Step>)
    decreases |steps|
  {
    && steps != [] && |windowOf| == |s.pcs| && Enabled(s, steps[0])
    && (steps[0].Lock? ==> windowOf[steps[0].k] in s.merger.windows)
    && if |steps| == 1 then Fatal(s, steps[0])
       else !Fatal(s, steps[0]) && LeadsToFatal(windowOf, Next(windowOf, s, steps[0]), steps[1..])
  }

  lemma FatalLater(windowOf: seq<nat>, s: State, step: Step, more: seq<Step>)
    requires |windowOf| == |s.pcs| && Enabled(s, step) && !Fatal(s, step)
    requires step.Lock? ==> windowOf[step.k] in s.merger.windows
    requires LeadsToFatal(windowOf, Next(windowOf, s, step), more)
    ensures LeadsToFatal(windowOf, s, [step] + more)
  {
    assert ([step] + more)[1..] == more;
  }

  /** Two factories that go on to finish the merger. */
  lemma FinishedTwice(windowOf: seq<nat>, s: State, last: nat, late: nat) returns (more: seq<Step>)
    requires |windowOf| == |s.pcs| && last < |s.pcs| && late < |s.pcs| && last != late && s.merger.merged.Some?
    requires MustFinish(s.pcs[last]) && MustFinish(s.pcs[late])
    requires MustSignalMerger(s.pcs[last]) ==> s.merger.merged == Some(last)
    requires MustSignalMerger(s.pcs[late]) ==> s.merger.merged == Some(late)
    ensures LeadsToFatal(windowOf, s, more) && forall i :: 0 <= i < |more| ==> more[i].Signal? || more[i].Finish?
    decreases (if s.pcs[last].Signaled? then 0 else 1) + if s.pcs[late].Signaled? then 0 else 1
  {
    if s.pcs[last].Unlocked? {
      more := FinishedTwice(windowOf, Next(windowOf, s, Signal(last)), last, late);
      FatalLater(windowOf, s, Signal(last), more);
      more := [Signal(last)] + more;
    } else if s.pcs[late].Unlocked? {
      more := FinishedTwice(windowOf, Next(windowOf, s, Signal(late)), last, late);
      FatalLater(windowOf, s, Signal(late), more);
      more := [Signal(late)] + more;
    } else {
      more := [Finish(late)];
      FatalLater(windowOf, s, Finish(last), more);
      more := [Finish(last)] + more;
    }
  }

  /**
   * The discipline is not too strict: after any step that does not keep it, the factories that are under way can get
   * to a fatal step, without any other factory.
   */
  lemma DisciplineIsNecessary(windowOf: seq<nat>, s: State, step: Step) returns (more: seq<Step>)
    requires Invariant(windowOf, s) && Enabled(s, step) && !Disciplined(s, step)
    ensures LeadsToFatal(windowOf, s, [step] + more)
    ensures forall i :: 0 <= i < |more| ==> more[i].Signal? || more[i].Finish?
  {
    if step.Finish? {
      var first: nat :| first < |s.pcs| && MustSignalMerger(s.pcs[first]);
      FinishBeforeSignalIsFatal(windowOf, s, first, step.k);
      more := [Signal(first)];
      FatalLater(windowOf, s, step, more);
    } else {
      var last: nat :| last < |s.pcs| && MustFinish(s.pcs[last]);
      CompletesAsLast(windowOf, s, step.k, last);
      more := FinishedTwice(windowOf, Next(windowOf, s, step), last, step.k);
      FatalLater(windowOf, s, step, more);
    }
  }

  /** A factory that completes as the last one, while another has yet to finish the merger. */
  lemma CompletesAsLast(windowOf: seq<nat>, s: State, late: nat, last: nat)
    requires Invariant(windowOf, s) && Enabled(s, Lock(late)) && |s.merger.windows| <= 1
    requires last < |s.pcs| && MustFinish(s.pcs[last])
    ensures windowOf[late] in s.merger.windows
    ensures var s' := Next(windowOf, s, Lock(late));
      last != late && s'.merger.merged == s.merger.merged && s.merger.merged.Some?
      && s'.pcs[last] == s.pcs[last] && s'.pcs[late] == Unlocked(false, true)
  {
    RunningIsListed(windowOf, s, late);
    var s' := Next(windowOf, s, Lock(late));
    assert |multiset(s'.merger.windows)| == 0;
    assert s'.merger.windows == [];
  }

  ghost predicate IsStep(windowOf: seq<nat>, s: State, step: Step, s': State) {
    && |windowOf| == |s.pcs| && Enabled(s, step) && Disciplined(s, step) && !Fatal(s, step)
    && (step.Lock? ==> windowOf[step.k] in s.merger.windows)
    && s' == Next(windowOf, s, step)
  }

  function Race1(w: nat): State { State(Merger([w], None), [Running, NotStarted], []) }
  function Race2(w: nat, v: nat): State { State(Merger([w, v], None), [Running, Running], []) }
  function Race3(v: nat): State { State(Merger([v], Some(0)), [Unlocked(true, false), Running], [First(0)]) }
  function Race4(): State { State(Merger([], Some(0)), [Unlocked(true, false), Unlocked(false, true)], [First(0), Delivered(0, 1)]) }
  function Race5(): State { State(Merger([], Some(0)), [Unlocked(true, false), Signaled], [First(0), Delivered(0, 1)]) }

  lemma RaceStarts(w: nat, v: nat)
    ensures IsStep([w, v], Initial(2), Start(0), Race1(w)) && IsStep([w, v], Race1(w), Start(1), Race2(w, v))
  {
    assert Initial(2).pcs[0 := Running] == Race1(w).pcs;
    assert Race1(w).pcs[1 := Running] == Race2(w, v).pcs;
  }

  lemma RaceLocksFirst(w: nat, v: nat)
    ensures IsStep([w, v], Race2(w, v), Lock(0), Race3(v))
  {
    assert Race2(w, v).pcs[0 := Unlocked(true, false)] == Race3(v).pcs;
  }

  lemma RaceLocksSecond(w: nat, v: nat)
    ensures IsStep([w, v], Race3(v), Lock(1), Race4())
  {
    assert Race3(v).pcs[1 := Unlocked(false, true)] == Race4().pcs;
  }

  lemma RaceSignals(w: nat, v: nat)
    ensures IsStep([w, v], Race4(), Signal(1), Race5())
  {
    assert Race4().pcs[1 := Signaled] == Race5().pcs;
  }

  /** It takes two factories for that to happen: the second completes up to its last step, before the first signals. */
  lemma FinishBeforeSignalCanHappen(w: nat, v: nat)
    ensures IsStep([w, v], Initial(2), Start(0), Race1(w)) && IsStep([w, v], Race1(w), Start(1), Race2(w, v))
    ensures IsStep([w, v], Race2(w, v), Lock(0), Race3(v)) && IsStep([w, v], Race3(v), Lock(1), Race4())
    ensures IsStep([w, v], Race4(), Signal(1), Race5())
    ensures MustSignalMerger(Race5().pcs[0]) && Enabled(Race5(), Finish(1))
  {
    RaceStarts(w, v);
    RaceLocksFirst(w, v);
    RaceLocksSecond(w, v);
    RaceSignals(w, v);
  }

  function LateStart1(): State { State(Merger([], Some(0)), [Unlocked(true, true), NotStarted], [First(0)]) }
  function LateStart2(): State { State(Merger([], Some(0)), [Signaled, NotStarted], [First(0)]) }
  function LateStart3(v: nat): State { State(Merger([v], Some(0)), [Signaled, Running], [First(0)]) }

  /** And it takes two for the other: the second starts when all that is left for the first is to finish the merger. */
  lemma CompleteBeforeFinishCanHappen(w: nat, v: nat)
    ensures IsStep([w, v], Initial(2), Start(0), Race1(w)) && IsStep([w, v], Race1(w), Lock(0), LateStart1())
    ensures IsStep([w, v], LateStart1(), Signal(0), LateStart2()) && IsStep([w, v], LateStart2(), Start(1), LateStart3(v))
    ensures Enabled(LateStart3(v), Finish(0)) && Enabled(LateStart3(v), Lock(1)) && |LateStart3(v).merger.windows| == 1
  {
    RaceStarts(w, v);
    LateStarts(w, v);
    LateLocks(w, v);
  }

  lemma LateLocks(w: nat, v: nat)
    ensures IsStep([w, v], Race1(w), Lock(0), LateStart1())
  {
    assert Race1(w).pcs[0 := Unlocked(true, true)] == LateStart1().pcs;
  }

  lemma LateStarts(w: nat, v: nat)
    ensures IsStep([w, v], LateStart1(), Signal(0), LateStart2()) && IsStep([w, v], LateStart2(), Start(1), LateStart3(v))
  {
    assert LateStart1().pcs[0 := Signaled] == LateStart2().pcs;
    assert LateStart2().pcs[1 := Running] == LateStart3(v).pcs;
  }

  /** A completion that nothing comes in between of keeps the discipline, and is what the class does. */
  lemma AtomicCompletion(windowOf: seq<nat>, s: State, k: nat)
    requires Invariant(windowOf, s) && Enabled(s, Lock(k))
    requires forall j :: 0 <= j < |s.pcs| ==> !s.pcs[j].Unlocked? && !s.pcs[j].Signaled?
    ensures Disciplined(s, Lock(k)) && windowOf[k] in s.merger.windows
    ensures var s1 := Next(windowOf, s, Lock(k)); Disciplined(s1, Signal(k)) && !Fatal(s1, Signal(k))
    ensures var s2 := Next(windowOf, Next(windowOf, s, Lock(k)), Signal(k));
      s2.pcs[k].Signaled? ==> Disciplined(s2, Finish(k)) && !Fatal(s2, Finish(k))
    ensures var s2 := Next(windowOf, Next(windowOf, s, Lock(k)), Signal(k));
      var s3 := if s2.pcs[k].Signaled? then Next(windowOf, s2, Finish(k)) else s2;
      s3.pcs[k].Done? && s3.merger == Completed(s.merger, windowOf[k], k).0 && s3.events == s.events + Completed(s.merger, windowOf[k], k).1
  {
    RunningIsListed(windowOf, s, k);
  }
}
