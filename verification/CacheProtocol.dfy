/**
 * The protocol that the caches for descriptor set layouts and pipeline layouts share: look up under a read lock,
 * create the missing object, and convert the read lock to a write lock to store it. When two threads try to convert at
 * the same time, one of them gets an exception, drops what it created, and starts again.
 * A request is looked up by its class: requests of the same class compare equal as keys.
 */
module CacheProtocol {

  datatype Pc =
    | Begin
    | Searching                        // Holds the read lock.
    | Creating                         // Holds the read lock, and did not find its class.
    | Converting(handle: nat)          // Holds the read lock, and created an object.
    | Waiting(handle: nat)             // Waits until it is the only one that holds the read lock.
    | Done(entry: nat)                 // Uses the cache entry with this index.

  datatype Thread<C> = Thread(keyClass: C, pc: Pc) {
    predicate Holds() {
      !pc.Begin? && !pc.Done?
    }
    /** The thread knows that its class is not in the cache. */
    predicate Missed() {
      pc.Creating? || pc.Converting? || pc.Waiting?
    }
  }

  /** The class, the handle, and the thread that stored the entry. */
  datatype Entry<C> = Entry(keyClass: C, handle: nat, creator: nat)

  datatype State<C> = State(cache: seq<Entry<C>>, threads: seq<Thread<C>>, nextHandle: nat)

  function Initial<C>(classes: seq<C>): State<C> {
    State([], seq(|classes|, t requires 0 <= t < |classes| => Thread(classes[t], Begin)), 0)
  }

  function Find<C(==)>(cache: seq<Entry<C>>, keyClass: C): (i: nat)
    ensures i <= |cache|
    ensures i < |cache| ==> cache[i].keyClass == keyClass
    ensures forall j :: 0 <= j < i ==> cache[j].keyClass != keyClass
  {
    if cache == [] || cache[0].keyClass == keyClass then 0 else
      var i := Find(cache[1..], keyClass);
      assert forall j :: 0 < j < |cache| ==> cache[j] == cache[1..][j - 1];
      1 + i
  }

  predicate OthersHold<C>(s: State<C>, t: nat) {
    exists u :: 0 <= u < |s.threads| && u != t && s.threads[u].Holds()
  }

  predicate OthersWait<C>(s: State<C>, t: nat) {
    exists u :: 0 <= u < |s.threads| && u != t && s.threads[u].pc.Waiting?
  }

  function Move<C>(s: State<C>, t: nat, pc: Pc): State<C>
    requires t < |s.threads|
  {
    s.(threads := s.threads[t := s.threads[t].(pc := pc)])
  }

  /** One atomic step of thread `t`. A step that cannot be taken changes nothing. */
  function Next<C(==)>(s: State<C>, t: nat): State<C> {
    if t >= |s.threads| then s else
      var thread := s.threads[t];
      match thread.pc
      case Begin => Move(s, t, Searching)
      case Searching =>
        var i := Find(s.cache, thread.keyClass);
        Move(s, t, if i < |s.cache| then Done(i) else Creating)
      case Creating => Move(s, t, Converting(s.nextHandle)).(nextHandle := s.nextHandle + 1)
      case Converting(handle) => Move(s, t, if OthersWait(s, t) then Begin else Waiting(handle))
      case Waiting(handle) =>
        if OthersHold(s, t) then s else
          Move(s, t, Done(|s.cache|)).(cache := s.cache + [Entry(thread.keyClass, handle, t)])
      case Done(_) => s
  }

  function Run<C(==)>(classes: seq<C>, schedule: seq<nat>): State<C> {
    if schedule == [] then Initial(classes) else
      Next(Run(classes, schedule[..|schedule| - 1]), schedule[|schedule| - 1])
  }

  // ----- invariant -----

  ghost predicate CacheInvariant<C>(s: State<C>) {
    && (forall i, j :: 0 <= i < j < |s.cache| ==> s.cache[i].keyClass != s.cache[j].keyClass)
    && (forall i, j :: 0 <= i < j < |s.cache| ==> s.cache[i].handle != s.cache[j].handle)
    && (forall i :: 0 <= i < |s.cache| ==> s.cache[i].handle < s.nextHandle && StoredBy(s, i))
  }

  /** Entry `i` was stored by a thread that asked for its class. */
  ghost predicate StoredBy<C>(s: State<C>, i: nat)
    requires i < |s.cache|
  {
    var entry := s.cache[i];
    entry.creator < |s.threads| && s.threads[entry.creator] == Thread(entry.keyClass, Done(i))
  }

  ghost predicate Absent<C>(cache: seq<Entry<C>>, keyClass: C) {
    forall i :: 0 <= i < |cache| ==> cache[i].keyClass != keyClass
  }

  /** What a thread knows about the cache. */
  ghost predicate Knows<C>(s: State<C>, t: nat)
    requires t < |s.threads|
  {
    var thread := s.threads[t];
    && (thread.Missed() ==> Absent(s.cache, thread.keyClass))
    && (thread.pc.Done? ==> thread.pc.entry < |s.cache| && s.cache[thread.pc.entry].keyClass == thread.keyClass)
    && (thread.pc.Converting? || thread.pc.Waiting? ==>
      thread.pc.handle < s.nextHandle && forall i :: 0 <= i < |s.cache| ==> s.cache[i].handle != thread.pc.handle)
  }

  ghost predicate Invariant<C>(classes: seq<C>, s: State<C>) {
    && CacheInvariant(s)
    && |s.threads| == |classes|
    && (forall t :: 0 <= t < |s.threads| ==> s.threads[t].keyClass == classes[t] && Knows(s, t))
    && (forall t, u :: 0 <= t < |s.threads| && 0 <= u < |s.threads| && s.threads[t].pc.Waiting? && s.threads[u].pc.Waiting? ==>
      t == u)
  }

  /** A step of thread `t` that leaves the cache alone. */
  lemma MoveKeepsInvariant<C>(classes: seq<C>, s: State<C>, t: nat, n: State<C>)
    requires Invariant(classes, s) && t < |s.threads| && !s.threads[t].pc.Done?
    requires n.cache == s.cache && n.nextHandle >= s.nextHandle
    requires |n.threads| == |s.threads| && n.threads[t].keyClass == s.threads[t].keyClass && n.threads == s.threads[t := n.threads[t]]
    requires Knows(n, t) && (n.threads[t].pc.Waiting? ==> !OthersWait(s, t))
    ensures Invariant(classes, n)
  {
    forall i | 0 <= i < |s.cache|
      ensures StoredBy(n, i)
    {
      assert StoredBy(s, i);
    }
    forall u | 0 <= u < |s.threads|
      ensures n.threads[u].keyClass == classes[u] && Knows(n, u)
    {
      assert Knows(s, u);
    }
  }

  /** Storing an entry: no other thread knows that its class is not in the cache, because no other thread holds the lock. */
  lemma StoreKeepsInvariant<C>(classes: seq<C>, s: State<C>, t: nat)
    requires Invariant(classes, s) && t < |s.threads| && s.threads[t].pc.Waiting? && !OthersHold(s, t)
    ensures Invariant(classes, Next(s, t))
  {
    var n := Next(s, t);
    assert Knows(s, t);
    forall i | 0 <= i < |s.cache|
      ensures StoredBy(n, i)
    {
      assert StoredBy(s, i);
    }
    forall u | 0 <= u < |s.threads|
      ensures n.threads[u].keyClass == classes[u] && Knows(n, u)
    {
      assert Knows(s, u);
      assert u != t ==> !s.threads[u].Holds();
    }
  }

  lemma NextKeepsInvariant<C>(classes: seq<C>, s: State<C>, t: nat)
    requires Invariant(classes, s)
    ensures Invariant(classes, Next(s, t))
  {
    if t < |s.threads| && !s.threads[t].pc.Done? {
      if s.threads[t].pc.Waiting? {
        if !OthersHold(s, t) {
          StoreKeepsInvariant(classes, s, t);
        }
      } else {
        assert Knows(s, t);
        MoveKeepsInvariant(classes, s, t, Next(s, t));
      }
    }
  }

  lemma {:induction false} InvariantHolds<C>(classes: seq<C>, schedule: seq<nat>)
    ensures Invariant(classes, Run(classes, schedule))
  {
    if schedule != [] {
      InvariantHolds(classes, schedule[..|schedule| - 1]);
      NextKeepsInvariant(classes, Run(classes, schedule[..|schedule| - 1]), schedule[|schedule| - 1]);
    }
  }

  // ----- what holds in every run -----

  /** There is at most one entry, and one handle, per class. */
  lemma OneEntryPerClass<C>(classes: seq<C>, schedule: seq<nat>, i: nat, j: nat)
    requires i < j < |Run(classes, schedule).cache|
    ensures var cache := Run(classes, schedule).cache;
      cache[i].keyClass != cache[j].keyClass && cache[i].handle != cache[j].handle
  {
    InvariantHolds(classes, schedule);
  }

  /** Threads that asked for the same class use the same entry, and those that did not do not. */
  lemma SameClassSameEntry<C>(classes: seq<C>, schedule: seq<nat>, t: nat, u: nat)
    requires t < |classes| && u < |classes|
    ensures var s := Run(classes, schedule);
      && |s.threads| == |classes|
      && (s.threads[t].pc.Done? && s.threads[u].pc.Done? ==>
        (s.threads[t].pc.entry == s.threads[u].pc.entry <==> classes[t] == classes[u]))
  {
    InvariantHolds(classes, schedule);
    assert Knows(Run(classes, schedule), t) && Knows(Run(classes, schedule), u);
  }

  /** A thread that is done uses an entry that a thread stored that asked for the same class. */
  lemma EntryHasCreator<C>(classes: seq<C>, schedule: seq<nat>, t: nat)
    requires t < |classes|
    ensures var s := Run(classes, schedule);
      && |s.threads| == |classes|
      && (s.threads[t].pc.Done? ==>
        && s.threads[t].pc.entry < |s.cache|
        && var creator := s.cache[s.threads[t].pc.entry].creator;
           creator < |classes| && classes[creator] == classes[t])
  {
    InvariantHolds(classes, schedule);
    var s := Run(classes, schedule);
    assert Knows(s, t);
    if s.threads[t].pc.Done? {
      assert StoredBy(s, s.threads[t].pc.entry);
    }
  }

  /** The assertion after storing an entry: what was not found before is still not there, although the lock was converted. */
  lemma StoredEntryIsNew<C>(classes: seq<C>, schedule: seq<nat>, t: nat)
    requires t < |classes|
    ensures var s := Run(classes, schedule);
      && |s.threads| == |classes|
      && (s.threads[t].pc.Waiting? ==> Absent(s.cache, classes[t]))
  {
    InvariantHolds(classes, schedule);
    assert Knows(Run(classes, schedule), t);
  }

  /** Entries are never changed or removed. */
  lemma {:induction false} EntriesStay<C>(classes: seq<C>, schedule: seq<nat>, more: seq<nat>)
    ensures Run(classes, schedule).cache <= Run(classes, schedule + more).cache
  {
    var all := schedule + more;
    if more == [] {
      assert all == schedule;
    } else {
      assert all[..|all| - 1] == schedule + more[..|more| - 1];
      EntriesStay(classes, schedule, more[..|more| - 1]);
    }
  }

  /** Until all threads are done, one of them can take a step. */
  lemma NoDeadlock<C>(classes: seq<C>, schedule: seq<nat>, t: nat)
    requires t < |classes|
    ensures var s := Run(classes, schedule);
      && |s.threads| == |classes|
      && (!s.threads[t].pc.Done? ==> exists u :: 0 <= u < |classes| && Next(s, u) != s)
  {
    InvariantHolds(classes, schedule);
    var s := Run(classes, schedule);
    if !s.threads[t].pc.Done? && Next(s, t) == s {
      var u :| 0 <= u < |s.threads| && u != t && s.threads[u].Holds();
      assert !s.threads[u].pc.Waiting?;
      assert Next(s, u).threads[u].pc != s.threads[u].pc;
    }
  }

  // ----- all threads can finish -----

  /** The state after more steps. */
  function RunOn<C(==)>(s: State<C>, more: seq<nat>): State<C>
    decreases |more|
  {
    if more == [] then s else RunOn(Next(s, more[0]), more[1..])
  }

  lemma {:induction false} RunContinues<C>(classes: seq<C>, schedule: seq<nat>, more: seq<nat>)
    ensures Run(classes, schedule + more) == RunOn(Run(classes, schedule), more)
    decreases |more|
  {
    if more == [] {
      assert schedule + more == schedule;
    } else {
      var longer := schedule + [more[0]];
      assert longer[..|longer| - 1] == schedule;
      assert longer + more[1..] == schedule + more;
      RunContinues(classes, longer, more[1..]);
    }
  }

  predicate AllDone<C>(s: State<C>) {
    forall t :: 0 <= t < |s.threads| ==> s.threads[t].pc.Done?
  }

  predicate SomeoneWaits<C>(s: State<C>) {
    exists t :: 0 <= t < |s.threads| && s.threads[t].pc.Waiting?
  }

  /** How far a thread is from being done or, while another one waits, from not holding the read lock. */
  function Weight(pc: Pc, waiting: bool): nat {
    match pc
    case Begin => if waiting then 0 else 5
    case Searching => 4
    case Creating => 3
    case Converting(_) => 2
    case Waiting(_) => 1
    case Done(_) => 0
  }

  function Total<C>(threads: seq<Thread<C>>, waiting: bool): nat {
    if threads == [] then 0
    else Total(threads[..|threads| - 1], waiting) + Weight(threads[|threads| - 1].pc, waiting)
  }

  function Unfinished<C>(threads: seq<Thread<C>>): nat {
    if threads == [] then 0
    else Unfinished(threads[..|threads| - 1]) + if threads[|threads| - 1].pc.Done? then 0 else 1
  }

  lemma {:induction false} TotalUpdate<C>(threads: seq<Thread<C>>, t: nat, thread: Thread<C>, waiting: bool)
    requires t < |threads|
    ensures Total(threads[t := thread], waiting) + Weight(threads[t].pc, waiting) == Total(threads, waiting) + Weight(thread.pc, waiting)
  {
    var n := |threads| - 1;
    if t < n {
      TotalUpdate(threads[..n], t, thread, waiting);
      assert threads[t := thread][..n] == threads[..n][t := thread];
    } else {
      assert threads[t := thread][..n] == threads[..n];
    }
  }

  lemma {:induction false} UnfinishedUpdate<C>(threads: seq<Thread<C>>, t: nat, thread: Thread<C>)
    requires t < |threads|
    ensures Unfinished(threads[t := thread]) + (if threads[t].pc.Done? then 0 else 1)
         == Unfinished(threads) + (if thread.pc.Done? then 0 else 1)
  {
    var n := |threads| - 1;
    if t < n {
      UnfinishedUpdate(threads[..n], t, thread);
      assert threads[t := thread][..n] == threads[..n][t := thread];
    } else {
      assert threads[t := thread][..n] == threads[..n];
    }
  }

  /** Which thread to run: if one waits, let the others give up the read lock first. */
  function Choose<C>(s: State<C>): (t: nat)
    requires !AllDone(s)
    ensures t < |s.threads| && !s.threads[t].pc.Done?
    ensures SomeoneWaits(s) ==> s.threads[t].Holds()
    ensures s.threads[t].pc.Waiting? ==> forall u :: 0 <= u < |s.threads| && s.threads[u].Holds() ==> s.threads[u].pc.Waiting?
  {
    if exists t: nat :: t < |s.threads| && s.threads[t].Holds() && !s.threads[t].pc.Waiting? then
      FirstWith(s, (thread: Thread<C>) => thread.Holds() && !thread.pc.Waiting?)
    else if SomeoneWaits(s) then
      FirstWith(s, (thread: Thread<C>) => thread.pc.Waiting?)
    else
      FirstWith(s, (thread: Thread<C>) => !thread.pc.Done?)
  }

  /** The first thread with a property. */
  function FirstWith<C>(s: State<C>, has: Thread<C> -> bool, from: nat := 0): (t: nat)
    requires exists t: nat :: from <= t < |s.threads| && has(s.threads[t])
    ensures t < |s.threads| && has(s.threads[t])
    decreases |s.threads| - from
  {
    if has(s.threads[from]) then from else FirstWith(s, has, from + 1)
  }

  /** One step of that thread brings the end closer: the waiter finishes, or a thread leaves its way, or gets ahead. */
  lemma ChosenGetsCloser<C>(classes: seq<C>, s: State<C>)
    requires Invariant(classes, s) && !AllDone(s)
    ensures var s' := Next(s, Choose(s));
      || Unfinished(s'.threads) < Unfinished(s.threads)
      || (Unfinished(s'.threads) == Unfinished(s.threads) && !SomeoneWaits(s) && SomeoneWaits(s'))
      || (Unfinished(s'.threads) == Unfinished(s.threads) && SomeoneWaits(s') == SomeoneWaits(s)
          && Total(s'.threads, SomeoneWaits(s')) < Total(s.threads, SomeoneWaits(s)))
  {
    var t := Choose(s);
    var s' := Next(s, t);
    var waits := SomeoneWaits(s);
    assert !OthersWait(s, t) ==> !waits || s.threads[t].pc.Waiting?;
    if s.threads[t].pc.Waiting? {
      assert !OthersHold(s, t);
    }
    var thread := s'.threads[t];
    assert s'.threads == s.threads[t := thread];
    UnfinishedUpdate(s.threads, t, thread);
    TotalUpdate(s.threads, t, thread, waits);
    if waits && !s.threads[t].pc.Waiting? {
      var u :| 0 <= u < |s.threads| && s.threads[u].pc.Waiting?;
      assert s'.threads[u].pc.Waiting?;
    }
    if !waits && !thread.pc.Waiting? {
      assert !SomeoneWaits(s');
    }
  }

  lemma Finish<C>(classes: seq<C>, s: State<C>) returns (more: seq<nat>)
    requires Invariant(classes, s)
    ensures AllDone(RunOn(s, more))
    decreases Unfinished(s.threads), if SomeoneWaits(s) then 0 else 1, Total(s.threads, SomeoneWaits(s))
  {
    if AllDone(s) {
      more := [];
    } else {
      var t := Choose(s);
      ChosenGetsCloser(classes, s);
      NextKeepsInvariant(classes, s, t);
      more := Finish(classes, Next(s, t));
      more := [t] + more;
    }
  }

  /** Whatever happened so far, there is a way on in which every thread finishes. */
  lemma AllCanFinish<C>(classes: seq<C>, schedule: seq<nat>) returns (more: seq<nat>)
    ensures AllDone(Run(classes, schedule + more))
  {
    InvariantHolds(classes, schedule);
    more := Finish(classes, Run(classes, schedule));
    RunContinues(classes, schedule, more);
  }
}
