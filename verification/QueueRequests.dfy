/** The list of queue requests that a `DeviceCreateInfo` builds. */
module QueueRequests {
  import opened Options

  /** The bits of `vulkan::QueueFlagBits`; a `QueueFlags` mask is the set of its bits. */
  datatype QueueFlagBit = Graphics | Compute | Transfer | SparseBinding | Protected | Presentation

  type QueueFlags = set<QueueFlagBit>

  datatype QueueRequest = QueueRequest(
    flags: QueueFlags,
    maxNumberOfQueues: nat,           // 0 means: as many as the device supports.
    priority: real,
    combinedWith: Option<nat>,
    cookies: bv32)

  /** The union of the flags of all `requests`. */
  function AllFlags(requests: seq<QueueRequest>): QueueFlags {
    set q, b | 0 <= q < |requests| && b in requests[q].flags :: b
  }

  /** A request is combined, if at all, with the request directly before it, which is not itself combined. */
  predicate WellCombined(requests: seq<QueueRequest>) {
    forall q :: 0 <= q < |requests| && requests[q].combinedWith.Some? ==>
      q > 0 && requests[q].combinedWith == Some(q - 1) && requests[q - 1].combinedWith.None?
  }

  const ANY_COOKIE: bv32 := 0xffffffff

  /** The requests that are used when none are given, with the given priority. */
  function DefaultQueueRequests(priority: real): seq<QueueRequest> {
    [QueueRequest({Graphics}, 1, priority, None, ANY_COOKIE),
     QueueRequest({Presentation}, 1, priority, Some(0), ANY_COOKIE),
     QueueRequest({Transfer}, 1, priority, None, ANY_COOKIE)]
  }

  /** The part of `DeviceCreateInfo` that collects queue requests. */
  class DeviceCreateInfo {
    var queueRequests: seq<QueueRequest>
    var queueFlags: QueueFlags

    ghost predicate Valid()
      reads this
    {
      WellCombined(queueRequests) && queueFlags == AllFlags(queueRequests)
    }

    constructor ()
      ensures Valid() && queueRequests == []
    {
      queueRequests := [];
      queueFlags := {};
    }

    /** A request may already be combined with the one before it, as one of the default requests is. */
    method AddQueueRequest(request: QueueRequest)
      requires Valid() && WellCombined(queueRequests + [request])
      modifies this
      ensures Valid()
      ensures queueRequests == old(queueRequests) + [request.(priority := if request.priority == 0.0 then 1.0 else request.priority)]
    {
      var queueRequest := request;
      if queueRequest.priority == 0.0 {
        queueRequest := queueRequest.(priority := 1.0);
      }
      PriorityPlaysNoPart(queueRequests + [request], queueRequests + [queueRequest]);
      queueRequests := queueRequests + [queueRequest];
      queueFlags := queueFlags + queueRequest.flags;
      AllFlagsAppend(old(queueRequests), queueRequest);
    }

    /** The precondition on `queueRequests` is the assertion of the source. */
    method SetDefaultQueueRequests()
      requires Valid() && queueRequests == []
      modifies this
      ensures Valid()
      ensures queueRequests == DefaultQueueRequests(1.0)
    {
      var defaults := DefaultQueueRequests(0.0);
      for i := 0 to |defaults|
        invariant Valid() && queueRequests == DefaultQueueRequests(1.0)[..i]
      {
        assert queueRequests + [defaults[i]] == DefaultQueueRequests(1.0)[..i] + [defaults[i]];
        AddQueueRequest(defaults[i]);
      }
    }

    /** The two preconditions on `queueRequests` are the two assertions of the source. */
    method CombineQueueRequest(request: QueueRequest)
      requires Valid()
      requires queueRequests != []
      requires queueRequests[|queueRequests| - 1].combinedWith.None?
      modifies this
      ensures Valid()
      ensures var last := old(queueRequests)[|old(queueRequests)| - 1];
        queueRequests == old(queueRequests) + [request.(
          combinedWith := Some(|old(queueRequests)| - 1),
          maxNumberOfQueues := if request.maxNumberOfQueues == 0 then last.maxNumberOfQueues else request.maxNumberOfQueues,
          priority := if request.priority == 0.0 then last.priority else request.priority)]
    {
      var last := queueRequests[|queueRequests| - 1];
      var queueRequest := request.(combinedWith := Some(|queueRequests| - 1));
      if queueRequest.maxNumberOfQueues == 0 {
        queueRequest := queueRequest.(maxNumberOfQueues := last.maxNumberOfQueues);
      }
      if queueRequest.priority == 0.0 {
        queueRequest := queueRequest.(priority := last.priority);
      }
      queueRequests := queueRequests + [queueRequest];
      queueFlags := queueFlags + queueRequest.flags;
      AllFlagsAppend(old(queueRequests), queueRequest);
    }
  }

  lemma PriorityPlaysNoPart(a: seq<QueueRequest>, b: seq<QueueRequest>)
    requires WellCombined(a) && |a| == |b|
    requires forall q :: 0 <= q < |a| ==> b[q] == a[q].(priority := b[q].priority)
    ensures WellCombined(b)
  {
    forall q | 0 <= q < |b| && b[q].combinedWith.Some?
      ensures q > 0 && b[q].combinedWith == Some(q - 1) && b[q - 1].combinedWith.None?
    {
      assert a[q].combinedWith.Some?;
      assert b[q - 1] == a[q - 1].(priority := b[q - 1].priority);
    }
  }

  lemma AllFlagsAppend(requests: seq<QueueRequest>, request: QueueRequest)
    ensures AllFlags(requests + [request]) == AllFlags(requests) + request.flags
  {
    var longer := requests + [request];
    forall b | b in AllFlags(requests) + request.flags
      ensures b in AllFlags(longer)
    {
      if b in request.flags {
        assert longer[|requests|] == request;
      } else {
        var q :| 0 <= q < |requests| && b in requests[q].flags;
        assert longer[q] == requests[q];
      }
    }
  }
}
