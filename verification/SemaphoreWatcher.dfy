/**
 * `SemaphoreWatcher`: tasks wait for timeline semaphores to reach a value. Two parallel vectors, edited in place,
 * refine a map from each watched semaphore to the waiters for it, in order.
 */
module SemaphoreWatcher {

  type Semaphore = nat
  type Id = nat

  /** A value / task / condition triplet; `task` stands for a stateful task and the condition to signal it with. */
  datatype Waiter = Waiter(value: nat, task: Id)

  datatype WatchData = WatchData(semaphore: Semaphore, signalValue: nat)

  /** The waiters for each watched semaphore. */
  type Waiters = map<Semaphore, seq<Waiter>>

  datatype Signal = Signal(semaphore: Semaphore, waiter: Waiter)

  // ----- specification -----

  predicate Sorted(waiters: seq<Waiter>) {
    forall i, j :: 0 <= i < j < |waiters| ==> waiters[i].value <= waiters[j].value
  }

  ghost predicate WellFormed(w: Waiters) {
    forall s :: s in w ==> w[s] != [] && Sorted(w[s])
  }

  function Added(w: Waiters, s: Semaphore, waiter: Waiter): Waiters {
    w[s := (if s in w then w[s] else []) + [waiter]]
  }

  /** The number of leading waiters whose value is at most `counter`. */
  function Reached(waiters: seq<Waiter>, counter: nat): (n: nat)
    ensures n <= |waiters|
    ensures forall i :: 0 <= i < n ==> waiters[i].value <= counter
    ensures n < |waiters| ==> counter < waiters[n].value
  {
    if waiters == [] || counter < waiters[0].value then 0 else 1 + Reached(waiters[1..], counter)
  }

  /** What is left to wait for when semaphore `s` was found to have the value `counters[s]`. */
  function Polled(w: Waiters, counters: map<Semaphore, nat>): Waiters
    requires w.Keys <= counters.Keys
  {
    map s | s in w && Reached(w[s], counters[s]) < |w[s]| :: w[s][Reached(w[s], counters[s])..]
  }

  function SignalsFor(s: Semaphore, waiters: seq<Waiter>): seq<Signal> {
    seq(|waiters|, i requires 0 <= i < |waiters| => Signal(s, waiters[i]))
  }

  /** For a sorted list, exactly the waiters whose value was reached are at the front. */
  lemma ReachedIsExact(waiters: seq<Waiter>, counter: nat, i: nat)
    requires Sorted(waiters) && i < |waiters|
    ensures i < Reached(waiters, counter) <==> waiters[i].value <= counter
  {
  }

  /** The waiters for semaphore `s` in `signals`, in order. */
  function Project(signals: seq<Signal>, s: Semaphore): seq<Waiter> {
    if signals == [] then [] else
      var last := signals[|signals| - 1];
      Project(signals[..|signals| - 1], s) + if last.semaphore == s then [last.waiter] else []
  }

  lemma ProjectOne(signals: seq<Signal>, last: Signal, t: Semaphore)
    ensures Project(signals + [last], t) == Project(signals, t) + if last.semaphore == t then [last.waiter] else []
  {
    assert (signals + [last])[..|signals|] == signals;
  }

  lemma SignalsForOne(signals: seq<Signal>, s: Semaphore, fewer: seq<Waiter>, last: Waiter)
    ensures signals + SignalsFor(s, fewer + [last]) == signals + SignalsFor(s, fewer) + [Signal(s, last)]
  {
  }

  lemma {:induction false} ProjectAppend(signals: seq<Signal>, s: Semaphore, waiters: seq<Waiter>, t: Semaphore)
    ensures Project(signals + SignalsFor(s, waiters), t) == Project(signals, t) + if s == t then waiters else []
  {
    if waiters == [] {
      assert signals + SignalsFor(s, waiters) == signals;
    } else {
      var fewer, last := waiters[..|waiters| - 1], waiters[|waiters| - 1];
      ProjectAppend(signals, s, fewer, t);
      ProjectOne(signals + SignalsFor(s, fewer), Signal(s, last), t);
      SignalsForOne(signals, s, fewer, last);
      assert waiters == fewer + [last];
    }
  }

  // ----- the progress of a pass over all semaphores -----

  /** `w` is what becomes of `before` when the semaphores in `done` have been polled. */
  ghost predicate PolledPartly(before: Waiters, counters: map<Semaphore, nat>, done: set<Semaphore>, w: Waiters) {
    && done <= before.Keys <= counters.Keys
    && forall s ::
      if s in done && Reached(before[s], counters[s]) < |before[s]| then
        s in w && w[s] == before[s][Reached(before[s], counters[s])..]
      else if s in before && s !in done then
        s in w && w[s] == before[s]
      else s !in w
  }

  ghost predicate SignaledPartly(before: Waiters, counters: map<Semaphore, nat>, done: set<Semaphore>, signals: seq<Signal>) {
    && done <= before.Keys <= counters.Keys
    && forall s ::
      Project(signals, s) == if s in done then before[s][..Reached(before[s], counters[s])] else []
  }

  lemma PollMore(before: Waiters, counters: map<Semaphore, nat>, done: set<Semaphore>, w: Waiters, s: Semaphore)
    requires PolledPartly(before, counters, done, w) && s in before && s !in done
    ensures s in w && w[s] == before[s]
    ensures var n := Reached(before[s], counters[s]);
      PolledPartly(before, counters, done + {s}, if n < |w[s]| then w[s := w[s][n..]] else w - {s})
  {
  }

  lemma PollDone(before: Waiters, counters: map<Semaphore, nat>, w: Waiters)
    requires PolledPartly(before, counters, before.Keys, w)
    ensures w == Polled(before, counters)
  {
  }

  lemma SignalMore(before: Waiters, counters: map<Semaphore, nat>, done: set<Semaphore>, signals: seq<Signal>, s: Semaphore)
    requires SignaledPartly(before, counters, done, signals) && s in before && s !in done
    ensures SignaledPartly(before, counters, done + {s},
      signals + SignalsFor(s, before[s][..Reached(before[s], counters[s])]))
  {
    var list := before[s][..Reached(before[s], counters[s])];
    forall t
      ensures Project(signals + SignalsFor(s, list), t) ==
        if t in done + {s} then before[t][..Reached(before[t], counters[t])] else []
    {
      ProjectAppend(signals, s, list, t);
      assert Project(signals, t) == if t in done then before[t][..Reached(before[t], counters[t])] else [];
    }
  }

  // ----- what the two vectors stand for -----

  /** One element of both vectors describes a watched semaphore, with the value of its first waiter. */
  predicate Describes(data: WatchData, list: seq<Waiter>, w: Waiters) {
    && data.semaphore in w
    && list == w[data.semaphore]
    && list != []
    && Sorted(list)
    && data.signalValue == list[0].value
  }

  ghost predicate Distinct(watchData: seq<WatchData>) {
    forall i, j :: 0 <= i < j < |watchData| ==> watchData[i].semaphore != watchData[j].semaphore
  }

  ghost predicate IsWatched(watchData: seq<WatchData>, s: Semaphore) {
    exists i :: 0 <= i < |watchData| && watchData[i].semaphore == s
  }

  /** Every watched semaphore is described once. */
  ghost predicate Represents(watchData: seq<WatchData>, notifyData: seq<seq<Waiter>>, w: Waiters) {
    && |watchData| == |notifyData|
    && Distinct(watchData)
    && (forall i :: 0 <= i < |watchData| ==> Describes(watchData[i], notifyData[i], w))
    && (forall s :: s in w ==> IsWatched(watchData, s))
  }

  /** Replacing the waiters for one semaphore replaces one element. */
  lemma Replaced(watchData: seq<WatchData>, notifyData: seq<seq<Waiter>>, w: Waiters, i: nat, list: seq<Waiter>)
    requires Represents(watchData, notifyData, w) && i < |watchData| && list != [] && Sorted(list)
    ensures var s := watchData[i].semaphore;
      Represents(watchData[i := WatchData(s, list[0].value)], notifyData[i := list], w[s := list])
  {
    var s := watchData[i].semaphore;
    var data := watchData[i := WatchData(s, list[0].value)];
    forall j | 0 <= j < |data|
      ensures Describes(data[j], notifyData[i := list][j], w[s := list])
    {
      assert Describes(watchData[j], notifyData[j], w);
      assert j < i ==> watchData[j].semaphore != watchData[i].semaphore;
      assert i < j ==> watchData[i].semaphore != watchData[j].semaphore;
    }
    forall t | t in w[s := list]
      ensures IsWatched(data, t)
    {
      if t == s {
        assert data[i].semaphore == t;
      } else {
        assert IsWatched(watchData, t);
        var j :| 0 <= j < |watchData| && watchData[j].semaphore == t;
        assert data[j].semaphore == t;
      }
    }
  }

  lemma Appended(watchData: seq<WatchData>, notifyData: seq<seq<Waiter>>, w: Waiters, s: Semaphore, waiter: Waiter)
    requires Represents(watchData, notifyData, w) && s !in w
    ensures Represents(watchData + [WatchData(s, waiter.value)], notifyData + [[waiter]], w[s := [waiter]])
  {
    var data := watchData + [WatchData(s, waiter.value)];
    forall j | 0 <= j < |watchData|
      ensures data[j].semaphore != s && Describes(data[j], notifyData[j], w[s := [waiter]])
    {
      assert Describes(watchData[j], notifyData[j], w);
    }
    forall t | t in w[s := [waiter]]
      ensures IsWatched(data, t)
    {
      if t == s {
        assert data[|watchData|].semaphore == t;
      } else {
        assert IsWatched(watchData, t);
        var j :| 0 <= j < |watchData| && watchData[j].semaphore == t;
        assert data[j].semaphore == t;
      }
    }
  }

  /** Moving the last element into a gap leaves a vector that describes all other semaphores. */
  lemma GapFilled(watchData: seq<WatchData>, notifyData: seq<seq<Waiter>>, w: Waiters, i: nat)
    requires Represents(watchData, notifyData, w) && i < |watchData|
    ensures var last := |watchData| - 1;
      Represents(watchData[i := watchData[last]][..last], notifyData[i := notifyData[last]][..last],
                 w - {watchData[i].semaphore})
  {
    var last := |watchData| - 1;
    var s := watchData[i].semaphore;
    var data := watchData[i := watchData[last]][..last];
    var lists := notifyData[i := notifyData[last]][..last];
    forall j | 0 <= j < last
      ensures Describes(data[j], lists[j], w - {s})
    {
      var k := if j == i then last else j;
      assert data[j] == watchData[k] && lists[j] == notifyData[k];
      assert Describes(watchData[k], notifyData[k], w);
      assert k < i ==> watchData[k].semaphore != watchData[i].semaphore;
      assert i < k ==> watchData[i].semaphore != watchData[k].semaphore;
    }
    forall t | t in w - {s}
      ensures IsWatched(data, t)
    {
      assert IsWatched(watchData, t);
      var j :| 0 <= j < |watchData| && watchData[j].semaphore == t;
      assert data[if j == last then i else j].semaphore == t;
    }
  }

  /** In a pass that has reached index `i`, exactly the semaphores before that index have been polled. */
  ghost predicate Split(watchData: seq<WatchData>, i: nat, done: set<Semaphore>) {
    && i <= |watchData|
    && (forall j :: 0 <= j < i ==> watchData[j].semaphore in done)
    && (forall j :: i <= j < |watchData| ==> watchData[j].semaphore !in done)
  }

  /** The semaphore at index `i` stays where it is, or is replaced by the last one. */
  ghost predicate Shifted(before: seq<WatchData>, i: nat, after: seq<WatchData>, stays: bool)
    requires i < |before|
  {
    && |after| == (if stays then |before| else |before| - 1)
    && forall j :: 0 <= j < |after| ==> after[j].semaphore == before[if j == i && !stays then |after| else j].semaphore
  }

  lemma SplitMore(before: seq<WatchData>, i: nat, done: set<Semaphore>, after: seq<WatchData>, stays: bool)
    requires Split(before, i, done) && i < |before|
    requires Distinct(before) && Shifted(before, i, after, stays)
    ensures Split(after, if stays then i + 1 else i, done + {before[i].semaphore})
  {
  }

  lemma AllDone(watchData: seq<WatchData>, notifyData: seq<seq<Waiter>>, w: Waiters,
                before: Waiters, counters: map<Semaphore, nat>, done: set<Semaphore>)
    requires Represents(watchData, notifyData, w) && PolledPartly(before, counters, done, w)
    requires Split(watchData, |watchData|, done)
    ensures done == before.Keys
  {
    forall s | s in before && s in w
      ensures s in done
    {
      assert IsWatched(watchData, s);
    }
  }

  lemma EmptyOrNot(watchData: seq<WatchData>, notifyData: seq<seq<Waiter>>, w: Waiters)
    requires Represents(watchData, notifyData, w)
    ensures watchData == [] <==> w == map[]
  {
    if watchData != [] {
      assert Describes(watchData[0], notifyData[0], w);
    } else {
      assert forall s :: !IsWatched(watchData, s);
    }
  }

  /** The counters of exactly the semaphores in `done` were read, each of them once. */
  ghost predicate ExaminedOnce(examined: seq<Semaphore>, done: set<Semaphore>) {
    && (forall i, j :: 0 <= i < j < |examined| ==> examined[i] != examined[j])
    && (forall s :: s in examined <==> s in done)
  }

  lemma ExamineMore(examined: seq<Semaphore>, done: set<Semaphore>, s: Semaphore)
    requires ExaminedOnce(examined, done) && s !in done
    ensures ExaminedOnce(examined + [s], done + {s})
  {
  }

  ghost predicate Progress(before: Waiters, counters: map<Semaphore, nat>, done: set<Semaphore>,
                           w: Waiters, signals: seq<Signal>, examined: seq<Semaphore>)
  {
    && PolledPartly(before, counters, done, w)
    && SignaledPartly(before, counters, done, signals)
    && ExaminedOnce(examined, done)
  }

  lemma MakeProgress(before: Waiters, counters: map<Semaphore, nat>, done: set<Semaphore>,
                     w: Waiters, signals: seq<Signal>, examined: seq<Semaphore>, s: Semaphore)
    requires Progress(before, counters, done, w, signals, examined) && s in w && s !in done
    ensures s in before && w[s] == before[s]
    ensures var n := Reached(w[s], counters[s]);
      Progress(before, counters, done + {s}, if n < |w[s]| then w[s := w[s][n..]] else w - {s},
               signals + SignalsFor(s, w[s][..n]), examined + [s])
  {
    PollMore(before, counters, done, w, s);
    SignalMore(before, counters, done, signals, s);
    ExamineMore(examined, done, s);
  }

  // ----- the watcher -----

  class Watcher {
    var watchData: seq<WatchData>
    var notifyData: seq<seq<Waiter>>
    var haveSemaphores: bool           // The condition that wakes up the watcher.
    ghost var waiters: Waiters         // What the two vectors stand for.

    ghost predicate Valid()
      reads this
    {
      Represents(watchData, notifyData, waiters)
    }

    constructor ()
      ensures Valid() && waiters == map[] && !haveSemaphores
    {
      watchData, notifyData, haveSemaphores, waiters := [], [], false, map[];
    }

    /** The index of a semaphore, or the number of semaphores when it is not watched; the loop of `add` and `remove`. */
    method Find(semaphore: Semaphore) returns (i: nat)
      requires Valid()
      ensures i <= |watchData|
      ensures i < |watchData| ==> watchData[i].semaphore == semaphore && Describes(watchData[i], notifyData[i], waiters)
      ensures i < |watchData| <==> semaphore in waiters
    {
      i := 0;
      while i != |watchData|
        invariant i <= |watchData|
        invariant forall j :: 0 <= j < i ==> watchData[j].semaphore != semaphore
      {
        if watchData[i].semaphore == semaphore {
          assert Describes(watchData[i], notifyData[i], waiters);
          return;
        }
        i := i + 1;
      }
      assert semaphore in waiters ==> IsWatched(watchData, semaphore);
    }

    /** The precondition on the value is the assertion of the source. */
    method Add(semaphore: Semaphore, value: nat, task: Id)
      requires Valid()
      requires semaphore in waiters && waiters[semaphore] != [] ==> waiters[semaphore][|waiters[semaphore]| - 1].value <= value
      modifies this
      ensures Valid() && waiters == Added(old(waiters), semaphore, Waiter(value, task))
      ensures haveSemaphores == (old(haveSemaphores) || semaphore !in old(waiters))
    {
      var waiter := Waiter(value, task);
      var i := Find(semaphore);
      if i < |watchData| {
        Replaced(watchData, notifyData, waiters, i, notifyData[i] + [waiter]);
        assert watchData[i := WatchData(semaphore, notifyData[i][0].value)] == watchData;
        notifyData := notifyData[i := notifyData[i] + [waiter]];
      } else {
        Appended(watchData, notifyData, waiters, semaphore, waiter);
        watchData := watchData + [WatchData(semaphore, value)];
        notifyData := notifyData + [[waiter]];
        haveSemaphores := true;
      }
      waiters := Added(waiters, semaphore, waiter);
    }

    /** Removal from the middle moves the last element into the gap. */
    method RemoveAt(i: nat, last: nat)
      requires Valid() && i <= last == |watchData| - 1
      modifies this`watchData, this`notifyData, this`waiters
      ensures Valid() && waiters == old(waiters) - {old(watchData)[i].semaphore}
      ensures watchData == old(watchData)[i := old(watchData)[last]][..last]
    {
      GapFilled(watchData, notifyData, waiters, i);
      waiters := waiters - {watchData[i].semaphore};
      if i != last {
        watchData := watchData[i := watchData[last]];
        notifyData := notifyData[i := notifyData[last]];
      }
      assert watchData == old(watchData)[i := old(watchData)[last]];
      assert notifyData == old(notifyData)[i := old(notifyData)[last]];
      watchData := watchData[..last];
      notifyData := notifyData[..last];
    }

    method Remove(semaphore: Semaphore)
      requires Valid()
      modifies this`watchData, this`notifyData, this`waiters
      ensures Valid() && waiters == old(waiters) - {semaphore}
    {
      var i := Find(semaphore);
      if i < |watchData| {
        RemoveAt(i, |watchData| - 1);
      }
    }

    /** The inner loop: signal the waiters at the front of the list whose value was reached. */
    method SignalReached(semaphore: Semaphore, list: seq<Waiter>, counter: nat) returns (n: nat, signals: seq<Signal>)
      ensures n == Reached(list, counter) && signals == SignalsFor(semaphore, list[..n])
    {
      n, signals := 0, [];
      while n != |list|
        invariant n <= Reached(list, counter) && signals == SignalsFor(semaphore, list[..n])
      {
        if counter < list[n].value {
          break;
        }
        signals := signals + [Signal(semaphore, list[n])];
        n := n + 1;
      }
    }

    /** One iteration of the outer loop, for the semaphore at index `i`. The semaphore stays there, or is removed. */
    method PollOne(i: nat, counter: nat) returns (stays: bool, signals: seq<Signal>)
      requires Valid() && i < |watchData|
      modifies this`watchData, this`notifyData, this`waiters
      ensures var s := old(watchData)[i].semaphore;
        && s in old(waiters)
        && var list := old(waiters)[s];
           var n := Reached(list, counter);
        && stays == (n < |list|)
        && signals == SignalsFor(s, list[..n])
        && waiters == if stays then old(waiters)[s := list[n..]] else old(waiters) - {s}
      ensures Valid()
      ensures Shifted(old(watchData), i, watchData, stays)
    {
      assert Describes(watchData[i], notifyData[i], waiters);
      var semaphore := watchData[i].semaphore;
      stays, signals := true, [];
      if counter >= watchData[i].signalValue {
        var n;
        n, signals := SignalReached(semaphore, notifyData[i], counter);
        if n != |notifyData[i]| {
          Replaced(watchData, notifyData, waiters, i, notifyData[i][n..]);
          waiters := waiters[semaphore := waiters[semaphore][n..]];
          notifyData := notifyData[i := notifyData[i][n..]];
          watchData := watchData[i := WatchData(semaphore, notifyData[i][0].value)];
        } else {
          RemoveAt(i, |watchData| - 1);
          stays := false;
        }
      } else {
        assert waiters == waiters[semaphore := waiters[semaphore][0..]];
      }
    }

    /**
     * One pass over the watched semaphores. The counter of a semaphore is read once, so that `counters` can
     * stand for what the reads return, whatever happens to the semaphores in the meantime.
     */
    method Poll(counters: map<Semaphore, nat>) returns (watching: bool, signals: seq<Signal>, ghost examined: seq<Semaphore>)
      requires Valid() && waiters.Keys <= counters.Keys
      modifies this`watchData, this`notifyData, this`waiters
      ensures Valid() && waiters == Polled(old(waiters), counters)
      ensures watching <==> waiters != map[]
      ensures SignaledPartly(old(waiters), counters, old(waiters).Keys, signals)
      ensures ExaminedOnce(examined, old(waiters).Keys)
    {
      signals, examined := [], [];
      ghost var before, done: set<Semaphore> := waiters, {};
      var i := 0;
      while i != |watchData|
        invariant Valid() && i <= |watchData|
        invariant Progress(before, counters, done, waiters, signals, examined) && Split(watchData, i, done)
        decreases |watchData| - i
      {
        var semaphore := watchData[i].semaphore;
        assert Describes(watchData[i], notifyData[i], waiters);
        MakeProgress(before, counters, done, waiters, signals, examined, semaphore);
        ghost var data := watchData;
        var stays, more := PollOne(i, counters[semaphore]);
        SplitMore(data, i, done, watchData, stays);
        signals := signals + more;
        examined := examined + [semaphore];
        done := done + {semaphore};
        if stays {
          i := i + 1;
        }
      }
      AllDone(watchData, notifyData, waiters, before, counters, done);
      PollDone(before, counters, waiters);
      EmptyOrNot(watchData, notifyData, waiters);
      watching := watchData != [];
    }
  }

  // ----- whole runs -----

  datatype Op =
    | AddOp(semaphore: Semaphore, waiter: Waiter)
    | RemoveOp(semaphore: Semaphore)
    | PollOp(counters: map<Semaphore, nat>)

  function WaitingFor(w: Waiters, s: Semaphore): seq<Waiter> {
    if s in w then w[s] else []
  }

  /** The precondition of the method that carries out the operation. */
  predicate Allowed(w: Waiters, op: Op) {
    match op
    case AddOp(s, waiter) => var list := WaitingFor(w, s); list != [] ==> list[|list| - 1].value <= waiter.value
    case RemoveOp(_) => true
    case PollOp(counters) => w.Keys <= counters.Keys
  }

  /** What the methods of `Watcher` do to the waiters. An operation that is not allowed is not carried out. */
  function Apply(w: Waiters, op: Op): Waiters {
    if !Allowed(w, op) then w else
      match op
      case AddOp(s, waiter) => Added(w, s, waiter)
      case RemoveOp(s) => w - {s}
      case PollOp(counters) => Polled(w, counters)
  }

  function Run(ops: seq<Op>): Waiters {
    if ops == [] then map[] else Apply(Run(ops[..|ops| - 1]), ops[|ops| - 1])
  }

  function AddedBy(w: Waiters, op: Op, s: Semaphore): seq<Waiter> {
    if op.AddOp? && op.semaphore == s && Allowed(w, op) then [op.waiter] else []
  }

  function RemovedBy(w: Waiters, op: Op, s: Semaphore): seq<Waiter> {
    if op == RemoveOp(s) then WaitingFor(w, s) else []
  }

  function SignaledBy(w: Waiters, op: Op, s: Semaphore): seq<Waiter> {
    if op.PollOp? && Allowed(w, op) && s in w then w[s][..Reached(w[s], op.counters[s])] else []
  }

  /** All waiters that were added for semaphore `s`, in order; and similar for those removed and signaled. */
  function AllAdded(ops: seq<Op>, s: Semaphore): seq<Waiter> {
    if ops == [] then [] else
      AllAdded(ops[..|ops| - 1], s) + AddedBy(Run(ops[..|ops| - 1]), ops[|ops| - 1], s)
  }

  function AllRemoved(ops: seq<Op>, s: Semaphore): seq<Waiter> {
    if ops == [] then [] else
      AllRemoved(ops[..|ops| - 1], s) + RemovedBy(Run(ops[..|ops| - 1]), ops[|ops| - 1], s)
  }

  function AllSignaled(ops: seq<Op>, s: Semaphore): seq<Waiter> {
    if ops == [] then [] else
      AllSignaled(ops[..|ops| - 1], s) + SignaledBy(Run(ops[..|ops| - 1]), ops[|ops| - 1], s)
  }

  /** One operation adds waiters at the end of the list, or takes them from the front of it. */
  lemma OneStep(w: Waiters, op: Op, s: Semaphore)
    ensures WaitingFor(w, s) + AddedBy(w, op, s) ==
      SignaledBy(w, op, s) + RemovedBy(w, op, s) + WaitingFor(Apply(w, op), s)
  {
    if op.PollOp? && Allowed(w, op) && s in w {
      var n := Reached(w[s], op.counters[s]);
      assert w[s] == w[s][..n] + w[s][n..];
    }
  }

  /** How one step continues the account of all steps before it. */
  lemma Continue(added: seq<Waiter>, a: seq<Waiter>, signaled: seq<Waiter>, g: seq<Waiter>,
                 removed: seq<Waiter>, r: seq<Waiter>, waiting: seq<Waiter>, waiting': seq<Waiter>)
    requires waiting + a == g + r + waiting'
    ensures multiset(added) == multiset(signaled) + multiset(removed) + multiset(waiting) ==>
      multiset(added + a) == multiset(signaled + g) + multiset(removed + r) + multiset(waiting')
    ensures added == signaled + waiting && r == [] ==> added + a == signaled + g + waiting'
  {
    assert multiset(waiting) + multiset(a) == multiset(waiting + a);
    assert multiset(g + r + waiting') == multiset(g) + multiset(r) + multiset(waiting');
    assert added == signaled + waiting ==> added + a == signaled + (waiting + a);
  }

  /**
   * No waiter is lost or signaled twice: what was added was signaled or removed, or still waits. As long as the
   * semaphore is not removed, its waiters are signaled in the order in which they were added.
   */
  lemma {:induction false} WaitersAreConserved(ops: seq<Op>, s: Semaphore)
    ensures multiset(AllAdded(ops, s)) ==
      multiset(AllSignaled(ops, s)) + multiset(AllRemoved(ops, s)) + multiset(WaitingFor(Run(ops), s))
    ensures RemoveOp(s) !in ops ==> AllAdded(ops, s) == AllSignaled(ops, s) + WaitingFor(Run(ops), s)
  {
    if ops != [] {
      var fewer, op := ops[..|ops| - 1], ops[|ops| - 1];
      var w := Run(fewer);
      WaitersAreConserved(fewer, s);
      OneStep(w, op, s);
      assert op in ops;
      Continue(AllAdded(fewer, s), AddedBy(w, op, s), AllSignaled(fewer, s), SignaledBy(w, op, s),
               AllRemoved(fewer, s), RemovedBy(w, op, s), WaitingFor(w, s), WaitingFor(Apply(w, op), s));
    }
  }

  lemma {:induction false} RunIsWellFormed(ops: seq<Op>)
    ensures WellFormed(Run(ops))
  {
    if ops != [] {
      RunIsWellFormed(ops[..|ops| - 1]);
    }
  }

  /** The counter of a timeline semaphore never decreases. */
  ghost predicate Monotone(ops: seq<Op>, s: Semaphore) {
    forall i, j :: 0 <= i < j < |ops| && ops[i].PollOp? && ops[j].PollOp? && s in ops[i].counters && s in ops[j].counters ==>
      ops[i].counters[s] <= ops[j].counters[s]
  }

  /** A waiter is signaled by a poll that found the value that it waits for. */
  lemma {:induction false} SignaledByPoll(ops: seq<Op>, s: Semaphore, waiter: Waiter)
    requires waiter in AllSignaled(ops, s)
    ensures exists i :: 0 <= i < |ops| && ops[i].PollOp? && s in ops[i].counters && waiter.value <= ops[i].counters[s]
  {
    var fewer, last := ops[..|ops| - 1], |ops| - 1;
    if waiter in AllSignaled(fewer, s) {
      SignaledByPoll(fewer, s, waiter);
      var i :| 0 <= i < |fewer| && fewer[i].PollOp? && s in fewer[i].counters && waiter.value <= fewer[i].counters[s];
      assert ops[i] == fewer[i];
    } else {
      assert waiter in SignaledBy(Run(fewer), ops[last], s);
    }
  }

  /** Right after a poll, the waiters that were signaled are those whose value was reached, and those that wait are not. */
  lemma SignaledOnTime(ops: seq<Op>, counters: map<Semaphore, nat>, s: Semaphore, waiter: Waiter)
    requires Allowed(Run(ops), PollOp(counters)) && s in counters && Monotone(ops + [PollOp(counters)], s)
    ensures waiter in AllSignaled(ops + [PollOp(counters)], s) ==> waiter.value <= counters[s]
    ensures waiter in WaitingFor(Run(ops + [PollOp(counters)]), s) ==> waiter.value > counters[s]
  {
    var more := ops + [PollOp(counters)];
    assert more[..|ops|] == ops;
    RunIsWellFormed(ops);
    if waiter in AllSignaled(more, s) {
      SignaledByPoll(more, s, waiter);
    }
  }
}
