/**
 * What happens to the replies of the search: `LogicalDevice::prepare` turns them into index ranges per queue family,
 * and `LogicalDevice::acquire_queue` hands out the queues of those ranges, possibly to many threads at once.
 */
module QueueAllocation {
  import opened Options
  import opened QueueRequests
  import opened QueueSearch

  // ----- index ranges -----

  /** The number of queues of family `f` in `replies`. */
  function Handed(replies: seq<QueueReply>, f: nat): nat {
    if replies == [] then 0 else
      var reply := replies[|replies| - 1];
      Handed(replies[..|replies| - 1], f) + if reply.family == f then reply.numberOfQueues else 0
  }

  /** Every reply starts where the earlier replies of its family end. */
  function Started(replies: seq<QueueReply>): seq<QueueReply> {
    seq(|replies|, q requires 0 <= q < |replies| =>
      replies[q].(startIndex := Handed(replies[..q], replies[q].family)))
  }

  predicate InRange(reply: QueueReply, f: nat, index: nat) {
    reply.family == f && reply.startIndex <= index < reply.startIndex + reply.numberOfQueues
  }

  lemma {:induction false} HandedGrows(replies: seq<QueueReply>, q: nat, f: nat)
    requires q < |replies|
    ensures Handed(replies[..q], f) + (if replies[q].family == f then replies[q].numberOfQueues else 0) <= Handed(replies, f)
  {
    var shorter := replies[..|replies| - 1];
    if q < |replies| - 1 {
      HandedGrows(shorter, q, f);
      assert shorter[..q] == replies[..q];
    }
  }

  /** Ranges of the same family do not overlap: they follow each other. */
  lemma RangesAreOrdered(replies: seq<QueueReply>, q: nat, r: nat)
    requires q < r < |replies| && replies[q].family == replies[r].family
    ensures Started(replies)[q].startIndex + replies[q].numberOfQueues <= Started(replies)[r].startIndex
  {
    HandedGrows(replies[..r], q, replies[q].family);
    assert replies[..r][..q] == replies[..q];
  }

  /** The ranges of a family tile the indexes below the number of queues that were handed out. */
  lemma {:induction false} RangesTile(replies: seq<QueueReply>, f: nat, index: nat)
    ensures index < Handed(replies, f) <==> exists q :: 0 <= q < |replies| && InRange(Started(replies)[q], f, index)
  {
    if replies != [] {
      var last := |replies| - 1;
      RangesTile(replies[..last], f, index);
      forall q | 0 <= q < last
        ensures Started(replies)[q] == Started(replies[..last])[q]
      {
        assert replies[..last][..q] == replies[..q];
      }
      assert InRange(Started(replies)[last], f, index) <==>
        replies[last].family == f && Handed(replies[..last], f) <= index < Handed(replies, f);
    }
  }

  lemma {:induction false} HandedIsTaken(p: Problem, c: Configuration, n: nat, f: nat)
    requires |c.family| == |c.handedOut| == |p.requests| && n <= |p.requests|
    ensures Handed(RepliesOf(p, c)[..n], f) == Taken(c.family, c.handedOut[..n], f)
  {
    if n > 0 {
      HandedIsTaken(p, c, n - 1, f);
      assert RepliesOf(p, c)[..n][..n - 1] == RepliesOf(p, c)[..n - 1];
      assert c.handedOut[..n][..n - 1] == c.handedOut[..n - 1];
    }
  }

  /** After a search that found a configuration, every index of every range exists in its family. */
  lemma RangesExist(p: Problem, c: Configuration, q: nat, f: nat, index: nat)
    requires Feasible(p, c) && q < |p.requests| && InRange(Started(RepliesOf(p, c))[q], f, index)
    ensures f < |p.families| && index < p.families[f].queueCount
  {
    var replies := RepliesOf(p, c);
    assert c.family[q] in p.candidates[q];
    RangesTile(replies, f, index);
    HandedIsTaken(p, c, |replies|, f);
    assert replies[..|replies|] == replies && c.handedOut[..|replies|] == c.handedOut;
  }

  /** The queues in the range of `reply` are created with priority `priority`. */
  predicate CreatedWith(priorities: map<nat, seq<real>>, reply: QueueReply, priority: real) {
    var created := Priorities(priorities, reply.family);
    && reply.startIndex + reply.numberOfQueues <= |created|
    && forall index :: reply.startIndex <= index < reply.startIndex + reply.numberOfQueues ==> created[index] == priority
  }

  lemma StartedMore(replies: seq<QueueReply>, q: nat)
    requires q < |replies|
    ensures Started(replies)[..q + 1] ==
      Started(replies)[..q] + [replies[q].(startIndex := Handed(replies[..q], replies[q].family))]
  {
  }

  /** More priorities for a family do not change those that were there. */
  lemma PushKeepsCreated(priorities: map<nat, seq<real>>, family: nat, pushed: seq<real>, started: seq<QueueReply>, requests: seq<QueueRequest>)
    requires Priorities(priorities, family) <= pushed && |started| <= |requests|
    requires forall r :: 0 <= r < |started| ==> CreatedWith(priorities, started[r], requests[r].priority)
    ensures forall r :: 0 <= r < |started| ==> CreatedWith(priorities[family := pushed], started[r], requests[r].priority)
  {
    forall r | 0 <= r < |started|
      ensures CreatedWith(priorities[family := pushed], started[r], requests[r].priority)
    {
      assert CreatedWith(priorities, started[r], requests[r].priority);
    }
  }

  /** The loop of `prepare`, with the priorities of the queues that are created per family. */
  method AssignStartIndexes(requests: seq<QueueRequest>, replies: seq<QueueReply>)
    returns (started: seq<QueueReply>, priorities: map<nat, seq<real>>)
    requires |requests| == |replies|
    ensures started == Started(replies)
    ensures forall f: nat :: |Priorities(priorities, f)| == Handed(replies, f)
    ensures forall q :: 0 <= q < |replies| ==> CreatedWith(priorities, started[q], requests[q].priority)
  {
    started, priorities := [], map[];
    for q := 0 to |replies|
      invariant started == Started(replies)[..q]
      invariant forall f: nat :: |Priorities(priorities, f)| == Handed(replies[..q], f)
      invariant forall r :: 0 <= r < q ==> CreatedWith(priorities, started[r], requests[r].priority)
    {
      var family := replies[q].family;
      var pushed := PushPriority(Priorities(priorities, family), requests[q].priority, replies[q].numberOfQueues);
      assert replies[..q + 1][..q] == replies[..q];
      StartedMore(replies, q);
      PushKeepsCreated(priorities, family, pushed, started, requests);
      started := started + [replies[q].(startIndex := |Priorities(priorities, family)|)];
      priorities := priorities[family := pushed];
    }
    assert replies[..|replies|] == replies;
  }

  /** `std::map::operator[]`: a missing family has no priorities yet. */
  function Priorities(priorities: map<nat, seq<real>>, f: nat): seq<real> {
    if f in priorities then priorities[f] else []
  }

  method PushPriority(priorities: seq<real>, priority: real, count: nat) returns (pushed: seq<real>)
    ensures pushed == priorities + seq(count, _ => priority)
  {
    pushed := priorities;
    for i := 0 to count
      invariant pushed == priorities + seq(i, _ => priority)
    {
      pushed := pushed + [priority];
    }
  }
}
