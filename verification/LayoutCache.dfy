/** `LogicalDevice::realize_descriptor_set_layout`, called by any number of threads. */
module LayoutCache {
  import opened BindingNumbers
  import opened CacheProtocol
  import opened LayoutOrder

  datatype Request = Request(bindings: seq<Binding>, flags: seq<bv8>)

  /** The class of a request: `SetLayoutKeyTies` says that two keys compare equal exactly when their classes are equal. */
  function Classes(requests: seq<Request>): seq<seq<Binding>> {
    seq(|requests|, t requires 0 <= t < |requests| => Anonymous(requests[t].bindings))
  }

  // ----- the binding numbers of the caller -----

  /** What a caller leaves with: its own bindings if it stored them as the key, and otherwise what the loop makes of them. */
  function LeavesWith(own: Request, t: nat, key: Request, creator: nat): seq<Binding> {
    if t == creator then own.bindings
    else if |own.bindings| == |key.bindings| then Renumbered(own.bindings, key.bindings)
    else own.bindings
  }

  // ----- what a call returns -----

  /**
   * In the run, thread `t` returns `handle` and leaves with `bindings`. The handle was created with the flags `flags`;
   * its key are the bindings of the thread that created it, which did not find a key and so did not renumber them.
   */
  ghost predicate Returns(requests: seq<Request>, schedule: seq<nat>, t: nat, bindings: seq<Binding>, handle: nat, flags: seq<bv8>)
  {
    var s := Run(Classes(requests), schedule);
    && t < |s.threads| == |requests|
    && s.threads[t].pc.Done?
    && s.threads[t].pc.entry < |s.cache|
    && var entry := s.cache[s.threads[t].pc.entry];
    && entry.handle == handle
    && entry.creator < |requests|
    && requests[entry.creator].flags == flags
    && LeavesWith(requests[t], t, requests[entry.creator], entry.creator) == bindings
  }

  /** `creator` is the thread that created what thread `t` returns. */
  ghost predicate Created(requests: seq<Request>, schedule: seq<nat>, t: nat, creator: nat) {
    var s := Run(Classes(requests), schedule);
    t < |s.threads| && s.threads[t].pc.Done? && s.threads[t].pc.entry < |s.cache|
    && s.cache[s.threads[t].pc.entry].creator == creator < |requests|
  }

  /** A thread that is done returns a handle, and leaves with exactly the bindings that the handle was created from. */
  lemma DoneReturns(requests: seq<Request>, schedule: seq<nat>, t: nat)
    returns (bindings: seq<Binding>, handle: nat, flags: seq<bv8>, creator: nat)
    requires t < |requests| && t < |Run(Classes(requests), schedule).threads|
    requires Run(Classes(requests), schedule).threads[t].pc.Done?
    ensures Returns(requests, schedule, t, bindings, handle, flags)
    ensures Created(requests, schedule, t, creator) && requests[creator] == Request(bindings, flags)
    ensures Anonymous(bindings) == Anonymous(requests[t].bindings)
  {
    var s := Run(Classes(requests), schedule);
    EntryHasCreator(Classes(requests), schedule, t);
    var entry := s.cache[s.threads[t].pc.entry];
    creator := entry.creator;
    assert Classes(requests)[creator] == Anonymous(requests[creator].bindings);
    RenumberedIsKey(requests[t].bindings, requests[creator].bindings);
    bindings, flags := requests[creator].bindings, requests[creator].flags;
    handle := entry.handle;
  }

  /** Whatever a thread returns is as `DoneReturns` says. */
  lemma ReturnsKey(requests: seq<Request>, schedule: seq<nat>, t: nat, bindings: seq<Binding>, handle: nat, flags: seq<bv8>)
    returns (creator: nat)
    requires t < |requests| && Returns(requests, schedule, t, bindings, handle, flags)
    ensures Created(requests, schedule, t, creator) && requests[creator] == Request(bindings, flags)
    ensures Anonymous(bindings) == Anonymous(requests[t].bindings)
  {
    var b, h, f;
    b, h, f, creator := DoneReturns(requests, schedule, t);
  }

  /**
   * Two threads get the same handle exactly when their bindings are equal up to binding numbers, and then they also
   * leave with the same binding numbers. Their binding flags play no part in this.
   */
  lemma SameHandleForSameBindings(requests: seq<Request>, schedule: seq<nat>, t: nat, u: nat,
      b: seq<Binding>, h: nat, f: seq<bv8>, b': seq<Binding>, h': nat, f': seq<bv8>)
    requires t < |requests| && u < |requests|
    requires Returns(requests, schedule, t, b, h, f) && Returns(requests, schedule, u, b', h', f')
    ensures h == h' <==> Anonymous(requests[t].bindings) == Anonymous(requests[u].bindings)
    ensures h == h' ==> b == b' && f == f'
  {
    var classes := Classes(requests);
    var s := Run(classes, schedule);
    SameClassSameEntry(classes, schedule, t, u);
    var i, j := s.threads[t].pc.entry, s.threads[u].pc.entry;
    if i < j {
      OneEntryPerClass(classes, schedule, i, j);
    } else if j < i {
      OneEntryPerClass(classes, schedule, j, i);
    } else {
      var creator := ReturnsKey(requests, schedule, t, b, h, f);
      var creator' := ReturnsKey(requests, schedule, u, b', h', f');
    }
  }

  // ----- binding flags -----

  /** However the threads are scheduled, every one that returns has a layout that was created with its own flags. */
  ghost predicate AlwaysOwnFlags(requests: seq<Request>) {
    forall schedule, t: nat, bindings, handle: nat, flags ::
      t < |requests| && Returns(requests, schedule, t, bindings, handle, flags) ==> flags == requests[t].flags
  }

  /** Bindings that are equal up to their numbers come with the same flags. */
  predicate FlagsFollowBindings(requests: seq<Request>) {
    forall t, u :: 0 <= t < |requests| && 0 <= u < |requests| ==>
      Anonymous(requests[t].bindings) == Anonymous(requests[u].bindings) ==> requests[t].flags == requests[u].flags
  }

  /** The cache does not know about binding flags, so that callers get their own exactly when the bindings tell them. */
  lemma OwnFlagsExactly(requests: seq<Request>)
    ensures AlwaysOwnFlags(requests) <==> FlagsFollowBindings(requests)
  {
    if FlagsFollowBindings(requests) {
      forall schedule, t: nat, bindings, handle: nat, flags | t < |requests| && Returns(requests, schedule, t, bindings, handle, flags)
        ensures flags == requests[t].flags
      {
        var creator := ReturnsKey(requests, schedule, t, bindings, handle, flags);
      }
    } else {
      var t, u :| 0 <= t < |requests| && 0 <= u < |requests|
        && Anonymous(requests[t].bindings) == Anonymous(requests[u].bindings) && requests[t].flags != requests[u].flags;
      var schedule, v, b, h, f := FlagsOfAnother(requests, t, u);
      assert Returns(requests, schedule, v, b, h, f) && f != requests[v].flags;
    }
  }

  /**
   * In every run in which both return, of two threads with the same bindings and different flags at least one gets a
   * layout that was created with other flags than its own.
   */
  lemma FlagsMayBeThoseOfAnother(requests: seq<Request>, schedule: seq<nat>, t: nat, u: nat,
      b: seq<Binding>, h: nat, f: seq<bv8>, b': seq<Binding>, h': nat, f': seq<bv8>)
    requires t < |requests| && u < |requests|
    requires Returns(requests, schedule, t, b, h, f) && Returns(requests, schedule, u, b', h', f')
    requires Anonymous(requests[t].bindings) == Anonymous(requests[u].bindings) && requests[t].flags != requests[u].flags
    ensures f != requests[t].flags || f' != requests[u].flags
  {
    SameHandleForSameBindings(requests, schedule, t, u, b, h, f, b', h', f');
  }

  /** And there is such a run: all threads can finish. */
  lemma FlagsOfAnother(requests: seq<Request>, t: nat, u: nat)
    returns (schedule: seq<nat>, v: nat, bindings: seq<Binding>, handle: nat, flags: seq<bv8>)
    requires t < |requests| && u < |requests|
    requires Anonymous(requests[t].bindings) == Anonymous(requests[u].bindings) && requests[t].flags != requests[u].flags
    ensures v < |requests| && Returns(requests, schedule, v, bindings, handle, flags) && flags != requests[v].flags
  {
    schedule := AllCanFinish(Classes(requests), []);
    assert [] + schedule == schedule;
    InvariantHolds(Classes(requests), schedule);
    var b, h, f, _ := DoneReturns(requests, schedule, t);
    var b', h', f', _ := DoneReturns(requests, schedule, u);
    FlagsMayBeThoseOfAnother(requests, schedule, t, u, b, h, f, b', h', f');
    if f != requests[t].flags {
      v, bindings, handle, flags := t, b, h, f;
    } else {
      v, bindings, handle, flags := u, b', h', f';
    }
  }

  // ----- the handle is a function of the bindings -----

  /** The handle that the cache has for a class of bindings. */
  function HandleOf(cache: seq<Entry<seq<Binding>>>, keyClass: seq<Binding>): nat {
    var i := Find(cache, keyClass);
    if i < |cache| then cache[i].handle else 0
  }

  /**
   * What `realize_pipeline_layout` relies on: the handle of a realized set layout is a function of its bindings up to
   * binding numbers, and that function never changes for bindings that have a handle.
   */
  lemma HandleIsDetermined(requests: seq<Request>, schedule: seq<nat>, more: seq<nat>,
      t: nat, bindings: seq<Binding>, handle: nat, flags: seq<bv8>)
    requires t < |requests| && Returns(requests, schedule, t, bindings, handle, flags)
    ensures handle == HandleOf(Run(Classes(requests), schedule + more).cache, Anonymous(bindings))
  {
    var classes := Classes(requests);
    var s, later := Run(classes, schedule), Run(classes, schedule + more);
    EntriesStay(classes, schedule, more);
    var creator := ReturnsKey(requests, schedule, t, bindings, handle, flags);
    InvariantHolds(classes, schedule);
    var e := s.threads[t].pc.entry;
    assert later.cache[e] == s.cache[e];
    assert Knows(s, t);
    assert s.cache[e].keyClass == Anonymous(bindings);
    var i := Find(later.cache, Anonymous(bindings));
    if i < e {
      OneEntryPerClass(classes, schedule + more, i, e);
    }
  }
}
