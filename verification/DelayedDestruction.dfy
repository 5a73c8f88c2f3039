/** `DelaySemaphoreDestruction`: a ring of sixteen slots of semaphores that are to be destroyed. */
module DelayedDestruction {

  const SLOTS: nat := 16

  /** When a semaphore is to be destroyed, as the number of a step. */
  datatype Entry = Entry(semaphore: nat, due: nat)

  /** The number of steps that a semaphore really stays. */
  function Stay(delay: nat): (steps: nat)
    ensures 1 <= steps <= SLOTS
    ensures steps % SLOTS == delay % SLOTS
  {
    if delay % SLOTS == 0 then SLOTS else delay % SLOTS
  }

  /** A semaphore is destroyed when it was asked to be for delays of one up to sixteen steps, and for no others. */
  lemma StayIsDelay(delay: nat)
    ensures Stay(delay) == delay <==> 1 <= delay <= SLOTS
    ensures delay > SLOTS ==> Stay(delay) < delay
  {
  }

  /** The semaphores that are destroyed by step `time`, in the order in which they were added. */
  function DueAt(log: seq<Entry>, time: nat): seq<nat> {
    if log == [] then []
    else
      var before := DueAt(log[..|log| - 1], time);
      var last := log[|log| - 1];
      if last.due == time then before + [last.semaphore] else before
  }

  lemma DueAtAppend(log: seq<Entry>, entry: Entry, time: nat)
    ensures DueAt(log + [entry], time) == if entry.due == time then DueAt(log, time) + [entry.semaphore] else DueAt(log, time)
  {
    assert (log + [entry])[..|log|] == log;
  }

  lemma {:induction false} NothingDue(log: seq<Entry>, time: nat)
    requires forall i :: 0 <= i < |log| ==> log[i].due != time
    ensures DueAt(log, time) == []
  {
    if log != [] {
      NothingDue(log[..|log| - 1], time);
    }
  }

  /** Every semaphore is destroyed by the step at which it is due, and by no other. */
  lemma {:induction false} DestroyedWhenDue(log: seq<Entry>, i: nat, time: nat)
    requires i < |log| && forall j, k :: 0 <= j < k < |log| ==> log[j].semaphore != log[k].semaphore
    ensures log[i].semaphore in DueAt(log, time) <==> log[i].due == time
  {
    var n := |log| - 1;
    if i < n {
      DestroyedWhenDue(log[..n], i, time);
    } else {
      NotLogged(log[..n], log[n].semaphore, time);
    }
  }

  lemma {:induction false} NotLogged(log: seq<Entry>, semaphore: nat, time: nat)
    requires forall j :: 0 <= j < |log| ==> log[j].semaphore != semaphore
    ensures semaphore !in DueAt(log, time)
  {
    if log != [] {
      NotLogged(log[..|log| - 1], semaphore, time);
    }
  }

  /** The slot that step `now + k` looks at. */
  function SlotOf(pos: nat, k: nat): (slot: nat)
    ensures slot < SLOTS
  {
    (pos + k) % SLOTS
  }

  lemma SlotsDiffer(pos: nat, j: nat, k: nat)
    requires 1 <= j <= SLOTS && 1 <= k <= SLOTS
    ensures SlotOf(pos, j) == SlotOf(pos, k) <==> j == k
  {
  }

  /** The next sixteen steps find, each in its own slot, what they have to destroy, and nothing is due after them. */
  ghost predicate Represents(pos: nat, queue: seq<seq<nat>>, now: nat, log: seq<Entry>) {
    && |queue| == SLOTS && pos < SLOTS
    && (forall k :: 1 <= k <= SLOTS ==> SlotIs(queue, pos, now, log, k))
    && (forall i :: 0 <= i < |log| ==> 1 <= log[i].due <= now + SLOTS)
  }

  ghost predicate SlotIs(queue: seq<seq<nat>>, pos: nat, now: nat, log: seq<Entry>, k: nat)
    requires |queue| == SLOTS
  {
    queue[SlotOf(pos, k)] == DueAt(log, now + k)
  }

  lemma AddKeepsRepresents(pos: nat, queue: seq<seq<nat>>, now: nat, log: seq<Entry>, semaphore: nat, delay: nat)
    requires Represents(pos, queue, now, log)
    ensures var slot := SlotOf(pos, delay);
      Represents(pos, queue[slot := queue[slot] + [semaphore]], now, log + [Entry(semaphore, now + Stay(delay))])
  {
    var slot := SlotOf(pos, delay);
    var queue' := queue[slot := queue[slot] + [semaphore]];
    var log' := log + [Entry(semaphore, now + Stay(delay))];
    SameSlot(pos, delay);
    forall k | 1 <= k <= SLOTS
      ensures SlotIs(queue', pos, now, log', k)
    {
      assert SlotIs(queue, pos, now, log, k);
      SlotsDiffer(pos, Stay(delay), k);
      DueAtAppend(log, Entry(semaphore, now + Stay(delay)), now + k);
    }
  }

  lemma SameSlot(pos: nat, delay: nat)
    ensures SlotOf(pos, delay) == SlotOf(pos, Stay(delay))
  {
  }

  lemma StepKeepsRepresents(pos: nat, queue: seq<seq<nat>>, now: nat, log: seq<Entry>)
    requires Represents(pos, queue, now, log)
    ensures queue[SlotOf(pos, 1)] == DueAt(log, now + 1)
    ensures Represents(SlotOf(pos, 1), queue[SlotOf(pos, 1) := []], now + 1, log)
  {
    assert SlotIs(queue, pos, now, log, 1);
    var pos', now' := SlotOf(pos, 1), now + 1;
    var queue' := queue[pos' := []];
    forall k | 1 <= k <= SLOTS
      ensures SlotIs(queue', pos', now', log, k)
    {
      assert SlotOf(pos', k) == SlotOf(pos, k + 1);
      if k < SLOTS {
        assert SlotIs(queue, pos, now, log, k + 1);
        SlotsDiffer(pos, 1, k + 1);
      } else {
        NothingDue(log, now' + k);
      }
    }
  }

  class DelaySemaphoreDestruction {
    var pos: nat
    var queue: seq<seq<nat>>
    ghost var now: nat                 // The number of steps that were done.
    ghost var log: seq<Entry>          // Everything that was added.

    ghost predicate Valid()
      reads this
    {
      Represents(pos, queue, now, log)
    }

    constructor ()
      ensures Valid() && now == 0 && log == []
    {
      pos, queue := 0, seq(SLOTS, _ => []);
      now, log := 0, [];
    }

    method Add(semaphore: nat, delay: nat)
      requires Valid()
      modifies this
      ensures Valid() && now == old(now)
      ensures log == old(log) + [Entry(semaphore, now + Stay(delay))]
    {
      AddKeepsRepresents(pos, queue, now, log, semaphore, delay);
      var slot := SlotOf(pos, delay);
      queue := queue[slot := queue[slot] + [semaphore]];
      log := log + [Entry(semaphore, now + Stay(delay))];
    }

    method Step() returns (destroyed: seq<nat>)
      requires Valid()
      modifies this
      ensures Valid() && now == old(now) + 1 && log == old(log)
      ensures destroyed == DueAt(log, now)
    {
      StepKeepsRepresents(pos, queue, now, log);
      pos := (pos + 1) % SLOTS;
      destroyed := queue[pos];
      if queue[pos] != [] {
        queue := queue[pos := []];
      }
      now := now + 1;
      assert old(queue)[pos := []] == queue;
    }
  }

  // ----- conservation -----

  function Semaphores(log: seq<Entry>): multiset<nat> {
    if log == [] then multiset{} else Semaphores(log[..|log| - 1]) + multiset{log[|log| - 1].semaphore}
  }

  /** Everything that the steps `from` up to `to` destroy. */
  function DestroyedBy(log: seq<Entry>, from: nat, to: nat): multiset<nat>
    requires from <= to
  {
    if from == to then multiset{} else DestroyedBy(log, from, to - 1) + multiset(DueAt(log, to - 1))
  }

  lemma {:induction false} DestroyedByAppend(log: seq<Entry>, entry: Entry, from: nat, to: nat)
    requires from <= to
    ensures DestroyedBy(log + [entry], from, to) ==
      DestroyedBy(log, from, to) + if from <= entry.due < to then multiset{entry.semaphore} else multiset{}
  {
    if from < to {
      DestroyedByAppend(log, entry, from, to - 1);
      DueAtAppend(log, entry, to - 1);
    }
  }

  lemma {:induction false} AllAreDestroyed(log: seq<Entry>, from: nat, to: nat)
    requires from <= to && forall i :: 0 <= i < |log| ==> from <= log[i].due < to
    ensures Semaphores(log) == DestroyedBy(log, from, to)
  {
    if log == [] {
      NoneDestroyed(from, to);
    } else {
      var n := |log| - 1;
      AllAreDestroyed(log[..n], from, to);
      DestroyedByAppend(log[..n], log[n], from, to);
      assert log[..n] + [log[n]] == log;
    }
  }

  lemma {:induction false} NoneDestroyed(from: nat, to: nat)
    requires from <= to
    ensures DestroyedBy([], from, to) == multiset{}
  {
    if from < to {
      NoneDestroyed(from, to - 1);
    }
  }

  lemma {:induction false} DestroyedBySplit(log: seq<Entry>, from: nat, middle: nat, to: nat)
    requires from <= middle <= to
    ensures DestroyedBy(log, from, to) == DestroyedBy(log, from, middle) + DestroyedBy(log, middle, to)
  {
    if middle < to {
      DestroyedBySplit(log, from, middle, to - 1);
    }
  }

  /** What the ring still holds, slot by slot. */
  function Queued(pos: nat, queue: seq<seq<nat>>, n: nat): multiset<nat>
    requires |queue| == SLOTS
  {
    if n == 0 then multiset{} else Queued(pos, queue, n - 1) + multiset(queue[SlotOf(pos, n)])
  }

  lemma {:induction false} QueuedIsLater(pos: nat, queue: seq<seq<nat>>, now: nat, log: seq<Entry>, n: nat)
    requires Represents(pos, queue, now, log) && n <= SLOTS
    ensures Queued(pos, queue, n) == DestroyedBy(log, now + 1, now + 1 + n)
  {
    if n > 0 {
      QueuedIsLater(pos, queue, now, log, n - 1);
      assert SlotIs(queue, pos, now, log, n);
    }
  }

  /** Everything that was added was either destroyed by one of the steps so far, or is still in one of the slots. */
  lemma AddedIsQueuedOrDestroyed(ring: DelaySemaphoreDestruction)
    requires ring.Valid()
    ensures Semaphores(ring.log) == DestroyedBy(ring.log, 1, ring.now + 1) + Queued(ring.pos, ring.queue, SLOTS)
  {
    AllAreDestroyed(ring.log, 1, ring.now + 1 + SLOTS);
    DestroyedBySplit(ring.log, 1, ring.now + 1, ring.now + 1 + SLOTS);
    QueuedIsLater(ring.pos, ring.queue, ring.now, ring.log, SLOTS);
  }
}
