/** `QueueReply::acquire_queue` and `LogicalDevice::acquire_queue`: handing out the queues of the replies. */
module QueueAcquire {
  import opened Options
  import opened QueueRequests
  import opened QueueSearch
  import opened QueueAllocation

  // ----- one call at a time -----

  datatype Selection =
    | Reply(q: nat)
    | Unsupported                      // No reply's queue family supports the flags.
    | Retry                            // An empty handle: try again with fewer flags.
    | NotRequested                     // The flag was never requested.
    | Ambiguous                        // More than one request matches.

  class LogicalDevice {
    const families: seq<QueueFamily>
    const replies: seq<QueueReply>
    var acquired: seq<nat>             // The m_acquired of each reply.
    ghost var steps: seq<Step>         // The atomic operations on these, of all calls.
    ghost var handedOut: seq<(nat, nat)>   // The family and index of all queues that were returned.

    ghost predicate Valid()
      reads this
    {
      && |acquired| == |replies|
      && Explains(replies, Run(replies, steps), acquired, handedOut)
      && (forall q :: 0 <= q < |replies| ==> acquired[q] <= replies[q].numberOfQueues)
      && (forall q :: 0 <= q < |replies| ==> replies[q].family < |families|)
      && (forall q :: 0 <= q < |replies| && replies[q].combinedWith.Some? ==> replies[q].combinedWith.value < |replies|)
    }

    constructor (families: seq<QueueFamily>, replies: seq<QueueReply>)
      requires forall q :: 0 <= q < |replies| ==> replies[q].family < |families|
      requires forall q :: 0 <= q < |replies| && replies[q].combinedWith.Some? ==> replies[q].combinedWith.value < |replies|
      ensures Valid() && this.families == families && this.replies == replies
      ensures acquired == seq(|replies|, _ => 0) && steps == [] && handedOut == []
    {
      this.families, this.replies := families, replies;
      acquired := seq(|replies|, _ => 0);
      steps, handedOut := [], [];
    }

    /** Queues of family `f` can be used for `flags`. A device without transfer queues lets graphics or compute stand in. */
    predicate Supports(f: nat, flags: QueueFlags)
      requires f < |families|
    {
      || flags <= families[f].flags
      || (Transfer !in SupportedFlags(families) && flags - {Transfer} <= families[f].flags
          && !(families[f].flags !! {Graphics, Compute}))
    }

    predicate Applies(q: nat, cookie: bv32)
      requires q < |replies|
    {
      replies[q].cookies & cookie != 0
    }

    /** Bit `b` was requested, for this cookie, by reply `q` or by a reply that shares its queues. */
    ghost predicate Requested(q: nat, cookie: bv32, b: QueueFlagBit, n: nat)
      requires n <= |replies|
    {
      exists r :: 0 <= r < n && Applies(r, cookie) && b in replies[r].requestedFlags
                  && (r == q || replies[r].combinedWith == Some(q))
    }

    /** The replies with queues of their own whose family supports `flags`. */
    ghost function Supporting(flags: QueueFlags): set<nat>
      requires forall q :: 0 <= q < |replies| ==> replies[q].family < |families|
    {
      set q: nat | q < |replies| && replies[q].combinedWith.None? && Supports(replies[q].family, flags)
    }

    /** Those of them for which exactly these flags were requested. */
    ghost function Matching(flags: QueueFlags, cookie: bv32): set<nat>
      requires forall q :: 0 <= q < |replies| ==> replies[q].family < |families|
    {
      set q | q in Supporting(flags) && forall b :: b in flags ==> Requested(q, cookie, b, |replies|)
    }

    /** The loop that accumulates the flags of replies that share their queues. */
    method CombineFlags(cookie: bv32) returns (combined: seq<QueueFlags>)
      requires Valid()
      ensures |combined| == |replies|
      ensures forall q, b :: 0 <= q < |replies| ==> (b in combined[q] <==> Requested(q, cookie, b, |replies|))
    {
      combined := seq(|replies|, _ => {});
      for r := 0 to |replies|
        invariant |combined| == |replies|
        invariant forall q, b :: 0 <= q < |replies| ==> (b in combined[q] <==> Requested(q, cookie, b, r))
      {
        if Applies(r, cookie) {
          combined := combined[r := combined[r] + replies[r].requestedFlags];
          if replies[r].combinedWith.Some? {
            var q := replies[r].combinedWith.value;
            combined := combined[q := combined[q] + replies[r].requestedFlags];
          }
        }
      }
    }

    /** The loop that counts the replies to choose from. */
    method CountReplies(flags: QueueFlags, cookie: bv32) returns (supportCount: nat, requestCount: nat, last: nat)
      requires Valid()
      ensures supportCount == |Supporting(flags)| && requestCount == |Matching(flags, cookie)|
      ensures requestCount > 0 ==> last in Matching(flags, cookie)
    {
      var combined := CombineFlags(cookie);
      supportCount, requestCount, last := 0, 0, 0;
      ghost var S, M := Supporting(flags), Matching(flags, cookie);
      MatchingIs(flags, cookie, combined);
      for q := 0 to |replies|
        invariant supportCount == |Below(S, q)| && requestCount == |Below(M, q)|
        invariant requestCount > 0 ==> last in M
      {
        BelowGrows(S, q);
        BelowGrows(M, q);
        if replies[q].combinedWith.None? && Supports(replies[q].family, flags) {
          supportCount := supportCount + 1;
          if flags <= combined[q] {
            last := q;
            requestCount := requestCount + 1;
          }
        }
      }
      assert Below(S, |replies|) == S && Below(M, |replies|) == M;
    }

    lemma MatchingIs(flags: QueueFlags, cookie: bv32, combined: seq<QueueFlags>)
      requires forall q :: 0 <= q < |replies| ==> replies[q].family < |families|
      requires |combined| == |replies|
      requires forall q, b :: 0 <= q < |replies| ==> (b in combined[q] <==> Requested(q, cookie, b, |replies|))
      ensures forall q :: q in Matching(flags, cookie) <==> q in Supporting(flags) && flags <= combined[q]
    {
    }

    /** Which reply to take a queue from: there must be exactly one match. */
    method SelectReply(flags: QueueFlags, cookie: bv32) returns (selection: Selection)
      requires Valid()
      ensures match selection
        case Reply(q) => Matching(flags, cookie) == {q}
        case Unsupported => Supporting(flags) == {}
        case Retry => Supporting(flags) != {} && Matching(flags, cookie) == {} && |flags| != 1
        case NotRequested => Supporting(flags) != {} && Matching(flags, cookie) == {} && |flags| == 1
        case Ambiguous => |Matching(flags, cookie)| > 1
    {
      var supportCount, requestCount, last := CountReplies(flags, cookie);
      if supportCount == 0 {
        return Unsupported;
      }
      if requestCount == 0 {
        return if |flags| != 1 then Retry else NotRequested;
      }
      if requestCount > 1 {
        return Ambiguous;
      }
      SingletonIs(Matching(flags, cookie), last);
      selection := Reply(last);
    }

    /** `QueueReply::acquire_queue`: take the next queue, or give the increment back when there is none. */
    method TakeQueue(q: nat) returns (queue: Option<(nat, nat)>)
      requires Valid() && q < |replies|
      modifies this
      ensures Valid()
      ensures queue.Some? <==> old(acquired)[q] < replies[q].numberOfQueues
      ensures queue.Some? ==> queue.value == (replies[q].family, replies[q].startIndex + old(acquired)[q])
      ensures acquired == if queue.Some? then old(acquired)[q := old(acquired)[q] + 1] else old(acquired)
      ensures handedOut == old(handedOut) + if queue.Some? then [queue.value] else []
      ensures steps == old(steps) + if queue.Some? then [Increment(q)] else [Increment(q), Undo(q)]
    {
      queue := None;
      var next := acquired[q];
      acquired := acquired[q := acquired[q] + 1];
      if next >= replies[q].numberOfQueues {
        acquired := acquired[q := acquired[q] - 1];
        assert acquired == old(acquired);
        FailedCall(replies, steps, acquired, handedOut, q);
        steps := steps + [Increment(q), Undo(q)];
      } else {
        GrantedCall(replies, steps, old(acquired), handedOut, q);
        queue := Some((replies[q].family, replies[q].startIndex + next));
        steps, handedOut := steps + [Increment(q)], handedOut + [queue.value];
      }
    }

    /** The next queue of the only match. */
    method AcquireQueue(flags: QueueFlags, cookie: bv32) returns (selection: Selection, queue: Option<(nat, nat)>)
      requires Valid()
      modifies this
      ensures Valid()
      ensures !selection.Reply? ==> queue.None?
      ensures selection.Reply? ==> Matching(flags, cookie) == {selection.q}
      ensures handedOut == old(handedOut) + if queue.Some? then [queue.value] else []
      ensures steps == old(steps) + CallSteps(selection, queue)
      ensures queue.None? ==> acquired == old(acquired)
      ensures queue.None? && selection.Reply? ==> acquired[selection.q] == replies[selection.q].numberOfQueues
      ensures queue.Some? ==>
        var q := selection.q;
        && queue.value == (replies[q].family, replies[q].startIndex + old(acquired)[q])
        && InRange(replies[q], queue.value.0, queue.value.1)
        && acquired == old(acquired)[q := old(acquired)[q] + 1]
    {
      queue := None;
      selection := SelectReply(flags, cookie);
      if selection.Reply? {
        assert selection.q in Matching(flags, cookie);
        queue := TakeQueue(selection.q);
      }
    }
  }

  ghost function Below(s: set<nat>, n: nat): set<nat> {
    set x | x in s && x < n
  }

  lemma BelowGrows(s: set<nat>, n: nat)
    ensures |Below(s, n + 1)| == |Below(s, n)| + if n in s then 1 else 0
  {
    assert Below(s, n + 1) == Below(s, n) + if n in s then {n} else {};
  }

  lemma SingletonIs(s: set<nat>, x: nat)
    requires |s| == 1 && x in s
    ensures s == {x}
  {
    assert |s - {x}| == 0;
  }

  // ----- many threads at a time -----

  /** The counter of a reply, and the number of threads that incremented it too far and still have to undo that. */
  datatype Pool = Pool(acquired: nat, failing: nat)

  datatype Grant = Grant(q: nat, index: nat)

  /** The grants, in order, of all threads together. */
  datatype State = State(pools: seq<Pool>, grants: seq<Grant>)

  /** The two atomic operations of `QueueReply::acquire_queue`. */
  datatype Step = Increment(q: nat) | Undo(q: nat)

  function Start(replies: seq<QueueReply>): State {
    State(seq(|replies|, _ => Pool(0, 0)), [])
  }

  /** A step that cannot be taken changes nothing. */
  function Next(replies: seq<QueueReply>, s: State, step: Step): State {
    if step.q >= |replies| || step.q >= |s.pools| then s else
      var q := step.q;
      var pool := s.pools[q];
      match step
      case Increment(_) =>
        if pool.acquired < replies[q].numberOfQueues then
          State(s.pools[q := pool.(acquired := pool.acquired + 1)],
                s.grants + [Grant(q, replies[q].startIndex + pool.acquired)])
        else
          s.(pools := s.pools[q := Pool(pool.acquired + 1, pool.failing + 1)])
      case Undo(_) =>
        if pool.failing > 0 && pool.acquired > 0 then
          s.(pools := s.pools[q := Pool(pool.acquired - 1, pool.failing - 1)])
        else s
  }

  function Run(replies: seq<QueueReply>, steps: seq<Step>): State {
    if steps == [] then Start(replies) else
      Next(replies, Run(replies, steps[..|steps| - 1]), steps[|steps| - 1])
  }

  function Granted(grants: seq<Grant>, q: nat): nat {
    if grants == [] then 0 else
      Granted(grants[..|grants| - 1], q) + if grants[|grants| - 1].q == q then 1 else 0
  }

  /** The counter is ahead of the grants by the pending undos, of which there are none before the queues ran out. */
  ghost predicate PoolInvariant(reply: QueueReply, pool: Pool, granted: nat) {
    && pool.acquired == granted + pool.failing
    && granted <= reply.numberOfQueues
    && (pool.failing > 0 ==> granted == reply.numberOfQueues)
  }

  /** A grant gets the index that follows those that were granted from the same reply before. */
  ghost predicate IsNext(replies: seq<QueueReply>, grants: seq<Grant>, i: nat)
    requires i < |grants|
  {
    && grants[i].q < |replies|
    && grants[i].index == replies[grants[i].q].startIndex + Granted(grants[..i], grants[i].q)
  }

  /** The grants of a reply get consecutive indexes. */
  ghost predicate InOrder(replies: seq<QueueReply>, grants: seq<Grant>) {
    forall i :: 0 <= i < |grants| ==> IsNext(replies, grants, i)
  }

  ghost predicate Invariant(replies: seq<QueueReply>, s: State) {
    && |s.pools| == |replies|
    && (forall q :: 0 <= q < |replies| ==> PoolInvariant(replies[q], s.pools[q], Granted(s.grants, q)))
    && InOrder(replies, s.grants)
  }

  lemma InOrderExtends(replies: seq<QueueReply>, grants: seq<Grant>, q: nat)
    requires InOrder(replies, grants) && q < |replies|
    ensures InOrder(replies, grants + [Grant(q, replies[q].startIndex + Granted(grants, q))])
  {
    var more := grants + [Grant(q, replies[q].startIndex + Granted(grants, q))];
    forall i | 0 <= i < |more|
      ensures IsNext(replies, more, i)
    {
      if i < |grants| {
        assert IsNext(replies, grants, i);
        assert more[..i] == grants[..i];
      } else {
        assert more[..i] == grants;
      }
    }
  }

  lemma GrantedAppend(grants: seq<Grant>, grant: Grant, r: nat)
    ensures Granted(grants + [grant], r) == Granted(grants, r) + if grant.q == r then 1 else 0
  {
    assert (grants + [grant])[..|grants|] == grants;
  }

  /** As long as there are queues left, the counter is the number of grants. */
  lemma CountsGrants(replies: seq<QueueReply>, s: State, q: nat)
    requires Invariant(replies, s) && q < |replies| && s.pools[q].acquired < replies[q].numberOfQueues
    ensures s.pools[q].acquired == Granted(s.grants, q)
  {
    assert PoolInvariant(replies[q], s.pools[q], Granted(s.grants, q));
  }

  lemma GrantKeepsPools(replies: seq<QueueReply>, s: State, grant: Grant)
    requires |s.pools| == |replies| && grant.q < |replies| && s.pools[grant.q].acquired < replies[grant.q].numberOfQueues
    requires forall r :: 0 <= r < |replies| ==> PoolInvariant(replies[r], s.pools[r], Granted(s.grants, r))
    ensures var pools := s.pools[grant.q := s.pools[grant.q].(acquired := s.pools[grant.q].acquired + 1)];
      forall r :: 0 <= r < |replies| ==> PoolInvariant(replies[r], pools[r], Granted(s.grants + [grant], r))
  {
    var pools := s.pools[grant.q := s.pools[grant.q].(acquired := s.pools[grant.q].acquired + 1)];
    forall r | 0 <= r < |replies|
      ensures PoolInvariant(replies[r], pools[r], Granted(s.grants + [grant], r))
    {
      GrantedAppend(s.grants, grant, r);
      assert PoolInvariant(replies[r], s.pools[r], Granted(s.grants, r));
    }
  }

  /** A grant keeps the invariant. */
  lemma GrantKeepsInvariant(replies: seq<QueueReply>, s: State, q: nat)
    requires Invariant(replies, s) && q < |replies| && s.pools[q].acquired < replies[q].numberOfQueues
    ensures Invariant(replies, Next(replies, s, Increment(q)))
  {
    var grant := Grant(q, replies[q].startIndex + Granted(s.grants, q));
    var pools := s.pools[q := s.pools[q].(acquired := s.pools[q].acquired + 1)];
    assert Invariant(replies, State(pools, s.grants + [grant])) by {
      InOrderExtends(replies, s.grants, q);
      GrantKeepsPools(replies, s, grant);
    }
    assert Next(replies, s, Increment(q)) == State(pools, s.grants + [grant]) by {
      CountsGrants(replies, s, q);
    }
  }

  /** A step that grants nothing only changes the counter of one reply. */
  lemma NextKeepsInvariant(replies: seq<QueueReply>, s: State, step: Step)
    requires Invariant(replies, s)
    ensures Invariant(replies, Next(replies, s, step))
  {
    if step.q < |replies| {
      if step.Increment? && s.pools[step.q].acquired < replies[step.q].numberOfQueues {
        GrantKeepsInvariant(replies, s, step.q);
      } else {
        var t := Next(replies, s, step);
        assert t.grants == s.grants;
        assert PoolInvariant(replies[step.q], s.pools[step.q], Granted(s.grants, step.q));
      }
    }
  }

  lemma RunOneMore(replies: seq<QueueReply>, steps: seq<Step>, step: Step)
    ensures Run(replies, steps + [step]) == Next(replies, Run(replies, steps), step)
  {
    assert (steps + [step])[..|steps|] == steps;
  }

  // ----- the calls are such steps -----

  /** The counters and the queues that were returned are those of this state, in which no thread has to undo anything. */
  ghost predicate Explains(replies: seq<QueueReply>, s: State, acquired: seq<nat>, handedOut: seq<(nat, nat)>) {
    && |acquired| == |replies| == |s.pools| && |handedOut| == |s.grants|
    && (forall q :: 0 <= q < |acquired| ==> PoolIs(s, acquired, q))
    && (forall i :: 0 <= i < |handedOut| ==> GrantIs(replies, s, handedOut, i))
  }

  predicate PoolIs(s: State, acquired: seq<nat>, q: nat)
    requires q < |acquired| == |s.pools|
  {
    s.pools[q] == Pool(acquired[q], 0)
  }

  predicate GrantIs(replies: seq<QueueReply>, s: State, handedOut: seq<(nat, nat)>, i: nat)
    requires i < |handedOut| == |s.grants|
  {
    var grant := s.grants[i];
    grant.q < |replies| && handedOut[i] == (replies[grant.q].family, grant.index)
  }

  /** One call increments the counter of the reply that it selected, and undoes that when it fails. */
  function CallSteps(selection: Selection, queue: Option<(nat, nat)>): seq<Step> {
    if !selection.Reply? then []
    else if queue.Some? then [Increment(selection.q)]
    else [Increment(selection.q), Undo(selection.q)]
  }

  lemma GrantIsExplained(replies: seq<QueueReply>, s: State, acquired: seq<nat>, handedOut: seq<(nat, nat)>, q: nat)
    requires Explains(replies, s, acquired, handedOut) && q < |replies| && acquired[q] < replies[q].numberOfQueues
    ensures Explains(replies, Next(replies, s, Increment(q)), acquired[q := acquired[q] + 1],
                     handedOut + [(replies[q].family, replies[q].startIndex + acquired[q])])
  {
    var t := Next(replies, s, Increment(q));
    var acquired' := acquired[q := acquired[q] + 1];
    var more := handedOut + [(replies[q].family, replies[q].startIndex + acquired[q])];
    assert PoolIs(s, acquired, q);
    forall r | 0 <= r < |acquired|
      ensures PoolIs(t, acquired', r)
    {
      assert PoolIs(s, acquired, r);
    }
    forall i | 0 <= i < |more|
      ensures GrantIs(replies, t, more, i)
    {
      if i < |handedOut| {
        assert GrantIs(replies, s, handedOut, i);
      }
    }
  }

  lemma FailureIsUndone(replies: seq<QueueReply>, s: State, q: nat)
    requires q < |replies| == |s.pools| && s.pools[q].acquired >= replies[q].numberOfQueues
    ensures Next(replies, Next(replies, s, Increment(q)), Undo(q)) == s
  {
    var pool := s.pools[q];
    var failed := s.pools[q := Pool(pool.acquired + 1, pool.failing + 1)];
    assert Next(replies, s, Increment(q)) == s.(pools := failed);
    assert failed[q := pool] == s.pools;
  }

  lemma GrantedCall(replies: seq<QueueReply>, steps: seq<Step>, acquired: seq<nat>, handedOut: seq<(nat, nat)>, q: nat)
    requires Explains(replies, Run(replies, steps), acquired, handedOut) && q < |replies| && acquired[q] < replies[q].numberOfQueues
    ensures Explains(replies, Run(replies, steps + [Increment(q)]), acquired[q := acquired[q] + 1],
                     handedOut + [(replies[q].family, replies[q].startIndex + acquired[q])])
  {
    RunOneMore(replies, steps, Increment(q));
    GrantIsExplained(replies, Run(replies, steps), acquired, handedOut, q);
  }

  lemma FailedCall(replies: seq<QueueReply>, steps: seq<Step>, acquired: seq<nat>, handedOut: seq<(nat, nat)>, q: nat)
    requires Explains(replies, Run(replies, steps), acquired, handedOut) && q < |replies| && acquired[q] >= replies[q].numberOfQueues
    ensures Explains(replies, Run(replies, steps + [Increment(q), Undo(q)]), acquired, handedOut)
  {
    RunOneMore(replies, steps, Increment(q));
    RunOneMore(replies, steps + [Increment(q)], Undo(q));
    assert steps + [Increment(q), Undo(q)] == steps + [Increment(q)] + [Undo(q)];
    assert PoolIs(Run(replies, steps), acquired, q);
    FailureIsUndone(replies, Run(replies, steps), q);
  }

  lemma {:induction false} RunKeepsInvariant(replies: seq<QueueReply>, steps: seq<Step>)
    ensures Invariant(replies, Run(replies, steps))
  {
    if steps != [] {
      RunKeepsInvariant(replies, steps[..|steps| - 1]);
      NextKeepsInvariant(replies, Run(replies, steps[..|steps| - 1]), steps[|steps| - 1]);
    }
  }

  /** A reply never grants more than its queues, and while threads undo an increment it has granted all of them. */
  lemma NoMoreThanTheQueues(replies: seq<QueueReply>, steps: seq<Step>, q: nat)
    requires q < |replies|
    ensures var s := Run(replies, steps);
      |s.pools| == |replies| && Granted(s.grants, q) <= replies[q].numberOfQueues && s.pools[q].acquired == Granted(s.grants, q) + s.pools[q].failing
    ensures var s := Run(replies, steps);
      q < |s.pools| && s.pools[q].failing > 0 ==> Granted(s.grants, q) == replies[q].numberOfQueues
  {
    RunKeepsInvariant(replies, steps);
    var s := Run(replies, steps);
    assert PoolInvariant(replies[q], s.pools[q], Granted(s.grants, q));
  }

  lemma {:induction false} GrantedGrows(grants: seq<Grant>, i: nat, q: nat)
    requires i < |grants|
    ensures Granted(grants[..i], q) + (if grants[i].q == q then 1 else 0) <= Granted(grants, q)
  {
    var fewer := grants[..|grants| - 1];
    if i < |grants| - 1 {
      GrantedGrows(fewer, i, q);
      assert fewer[..i] == grants[..i];
    }
  }

  /** Every grant lies in the range of its reply. */
  lemma GrantInRange(replies: seq<QueueReply>, steps: seq<Step>, i: nat)
    requires i < |Run(replies, steps).grants|
    ensures var g := Run(replies, steps).grants[i];
      g.q < |replies| && InRange(replies[g.q], replies[g.q].family, g.index)
  {
    var s := Run(replies, steps);
    RunKeepsInvariant(replies, steps);
    assert IsNext(replies, s.grants, i);
    GrantedGrows(s.grants, i, s.grants[i].q);
    assert PoolInvariant(replies[s.grants[i].q], s.pools[s.grants[i].q], Granted(s.grants, s.grants[i].q));
  }

  /** Whatever the interleaving, no queue of the device is handed out twice. */
  lemma QueuesAreExclusive(replies: seq<QueueReply>, steps: seq<Step>, i: nat, j: nat)
    requires i < j < |Run(Started(replies), steps).grants|
    ensures var g, h := Run(Started(replies), steps).grants[i], Run(Started(replies), steps).grants[j];
      g.q < |replies| && h.q < |replies| && (replies[g.q].family, g.index) != (replies[h.q].family, h.index)
  {
    var started := Started(replies);
    var grants := Run(started, steps).grants;
    var g, h := grants[i], grants[j];
    GrantInRange(started, steps, i);
    GrantInRange(started, steps, j);
    if g.q == h.q {
      RunKeepsInvariant(started, steps);
      assert IsNext(started, grants, i) && IsNext(started, grants, j);
      GrantedGrows(grants[..j], i, g.q);
      assert grants[..j][..i] == grants[..i];
      assert g.index < h.index;
    } else if replies[g.q].family == replies[h.q].family {
      if g.q < h.q {
        RangesAreOrdered(replies, g.q, h.q);
      } else {
        RangesAreOrdered(replies, h.q, g.q);
      }
    }
  }

  /** A device never returns a queue for the second time, whatever was asked of it. */
  lemma HandedOutOnce(device: LogicalDevice, i: nat, j: nat)
    requires device.Valid() && device.replies == Started(device.replies) && i < j < |device.handedOut|
    ensures device.handedOut[i] != device.handedOut[j]
  {
    var s := Run(device.replies, device.steps);
    assert GrantIs(device.replies, s, device.handedOut, i) && GrantIs(device.replies, s, device.handedOut, j);
    QueuesAreExclusive(device.replies, device.steps, i, j);
  }

  /** Every queue that is handed out after a successful search exists. */
  lemma GrantedQueuesExist(p: Problem, c: Configuration, steps: seq<Step>, i: nat)
    requires Feasible(p, c) && i < |Run(Started(RepliesOf(p, c)), steps).grants|
    ensures var g := Run(Started(RepliesOf(p, c)), steps).grants[i];
      g.q < |p.requests| && c.family[g.q] < |p.families| && g.index < p.families[c.family[g.q]].queueCount
  {
    var started := Started(RepliesOf(p, c));
    var g := Run(started, steps).grants[i];
    GrantInRange(started, steps, i);
    RangesExist(p, c, g.q, c.family[g.q], g.index);
  }

  /** An increment is granted exactly while the reply has queues left, even while other threads still undo theirs. */
  lemma GrantedWhileQueuesLast(replies: seq<QueueReply>, steps: seq<Step>, q: nat)
    requires q < |replies|
    ensures var before, after := Run(replies, steps), Run(replies, steps + [Increment(q)]);
      |after.grants| == |before.grants| + 1 <==> Granted(before.grants, q) < replies[q].numberOfQueues
  {
    RunKeepsInvariant(replies, steps);
    assert (steps + [Increment(q)])[..|steps|] == steps;
    var before := Run(replies, steps);
    assert PoolInvariant(replies[q], before.pools[q], Granted(before.grants, q));
  }
}
