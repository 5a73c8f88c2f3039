/**
 * `QueueFamilies::is_compatible_with`: which queue family serves each request, and with how many queues.
 * A configuration picks a family per request and a number of queues per request, where 0 means
 * "use the queues of the previous request". The search looks for the feasible configuration of minimum penalty.
 */
module QueueSearch {
  import opened Options
  import opened QueueRequests

  datatype QueueFamily = QueueFamily(flags: QueueFlags, queueCount: nat)

  datatype QueueReply = QueueReply(
    family: nat,
    numberOfQueues: nat,
    requestedFlags: QueueFlags,
    cookies: bv32,
    combinedWith: Option<nat>,
    startIndex: nat)

  /** `candidates[q]` lists the families that may serve request `q`; a maximum of 0 has been resolved. */
  datatype Problem = Problem(families: seq<QueueFamily>, requests: seq<QueueRequest>, candidates: seq<seq<nat>>)

  datatype Configuration = Configuration(family: seq<nat>, handedOut: seq<nat>)

  // The value of std::numeric_limits<float>::max().
  const FLT_MAX: real := 340282346638528859811704183484516925440.0

  // ----- feasible configurations -----

  predicate WellFormed(p: Problem) {
    && |p.candidates| == |p.requests|
    && WellCombined(p.requests)
    && forall q, f :: 0 <= q < |p.candidates| && f in p.candidates[q] ==> f < |p.families|
  }

  /** Every request has a family that may serve it. */
  predicate Choice(p: Problem, family: seq<nat>)
    requires WellFormed(p)
  {
    && |family| <= |p.requests|
    && forall q :: 0 <= q < |family| ==> family[q] in p.candidates[q]
  }

  /** Request `q` may share the queues of the request before it. */
  predicate MayCombine(p: Problem, family: seq<nat>, q: nat)
    requires q < |family| <= |p.requests|
  {
    q > 0 && p.requests[q].combinedWith.Some? && family[q] == family[q - 1]
  }

  /** The most queues that request `q` can be given. */
  function Limit(p: Problem, family: seq<nat>, q: nat): nat
    requires WellFormed(p) && Choice(p, family) && q < |family|
  {
    var queueCount := p.families[family[q]].queueCount;
    if queueCount < p.requests[q].maxNumberOfQueues then queueCount else p.requests[q].maxNumberOfQueues
  }

  /** The number of queues of family `f` that the first `|handedOut|` requests take. */
  function Taken(family: seq<nat>, handedOut: seq<nat>, f: nat): nat
    requires |handedOut| <= |family|
  {
    if handedOut == [] then 0 else
      var q := |handedOut| - 1;
      Taken(family, handedOut[..q], f) + if family[q] == f then handedOut[q] else 0
  }

  /** The first `|handedOut|` requests are served without taking more queues than there are. */
  ghost predicate Servable(p: Problem, family: seq<nat>, handedOut: seq<nat>) {
    && WellFormed(p)
    && |family| == |p.requests|
    && Choice(p, family)
    && |handedOut| <= |family|
    && (forall q :: 0 <= q < |handedOut| ==> handedOut[q] <= Limit(p, family, q))
    && (forall q :: 0 <= q < |handedOut| && handedOut[q] == 0 ==> MayCombine(p, family, q))
    && (forall f :: 0 <= f < |p.families| ==> Taken(family, handedOut, f) <= p.families[f].queueCount)
  }

  ghost predicate Feasible(p: Problem, c: Configuration) {
    Servable(p, c.family, c.handedOut) && |c.handedOut| == |p.requests|
  }

  // ----- penalty -----

  /** The conversion of a `uint32_t` to `int`. */
  function AsInt(u: nat): int {
    var low := u % 0x1_0000_0000;
    if low < 0x8000_0000 then low else low - 0x1_0000_0000
  }

  /** A request that shares the queues of its predecessor is charged against the queues of that predecessor. */
  predicate Penalizable(p: Problem, handedOut: seq<nat>) {
    && WellCombined(p.requests)
    && |handedOut| == |p.requests|
    && forall q :: 0 <= q < |handedOut| && handedOut[q] == 0 ==>
      p.requests[q].combinedWith.Some? && handedOut[q - 1] > 0
  }

  /** Request `q` shares the queues of a request that was given a smaller maximum. */
  predicate AsksForMore(p: Problem, q: nat)
    requires 0 < q < |p.requests|
  {
    AsInt(p.requests[q].maxNumberOfQueues) > AsInt(p.requests[q - 1].maxNumberOfQueues)
  }

  /** The assertion in the penalty function: of requests that share queues, the second does not ask for more. */
  predicate AssertionHolds(p: Problem, handedOut: seq<nat>)
    requires |handedOut| <= |p.requests|
  {
    HoldsBelow(p, handedOut, |handedOut|)
  }

  predicate HoldsBelow(p: Problem, handedOut: seq<nat>, n: nat)
    requires n <= |handedOut| <= |p.requests|
  {
    forall q :: 0 < q < n && handedOut[q] == 0 ==> !AsksForMore(p, q)
  }

  /** What it costs to hand out `H` of the `R` queues that were asked for. */
  function Charge(priority: real, R: int, H: nat): real
    requires H > 0
  {
    priority * (R - H) as real / H as real
  }

  function PenaltyOf(p: Problem, handedOut: seq<nat>, q: nat): real
    requires Penalizable(p, handedOut) && q < |handedOut|
  {
    var request := p.requests[q];
    var R := AsInt(request.maxNumberOfQueues);
    if handedOut[q] > 0 then
      Charge(request.priority, R, handedOut[q])
    else
      var H := handedOut[q - 1];
      (if H < R then Charge(request.priority, R, H) else 0.0) - 0.4 * p.requests[q - 1].priority
  }

  function PenaltyUpTo(p: Problem, handedOut: seq<nat>, n: nat): real
    requires Penalizable(p, handedOut) && n <= |handedOut|
  {
    if n == 0 then 0.0 else PenaltyUpTo(p, handedOut, n - 1) + PenaltyOf(p, handedOut, n - 1)
  }

  function Penalty(p: Problem, handedOut: seq<nat>): real
    requires Penalizable(p, handedOut)
  {
    PenaltyUpTo(p, handedOut, |handedOut|)
  }

  /**
   * Handing out more queues costs less exactly when the maximum, converted to an `int`, is positive.
   * A maximum of 2^31 or more is converted to a negative number, and makes the search prefer fewer queues.
   */
  lemma MoreQueuesCostLess(priority: real, R: int, fewer: nat, more: nat)
    requires priority > 0.0 && 0 < fewer < more
    ensures Charge(priority, R, more) < Charge(priority, R, fewer) <==> R > 0
  {
    var m, f := more as real, fewer as real;
    var difference := Charge(priority, R, more) - Charge(priority, R, fewer);
    var scaled := priority * R as real;
    assert Charge(priority, R, more) * m == scaled - priority * m;
    assert Charge(priority, R, fewer) * f == scaled - priority * f;
    assert difference * (m * f) == scaled * (f - m);
    SignOfProduct(m * f, difference);
    SignOfProduct(m - f, scaled);
    SignOfProduct(priority, R as real);
  }

  lemma SignOfProduct(k: real, x: real)
    requires k > 0.0
    ensures k * x < 0.0 <==> x < 0.0
    ensures k * x > 0.0 <==> x > 0.0
  {
  }

  lemma FeasibleIsPenalizable(p: Problem, c: Configuration)
    requires Feasible(p, c)
    ensures Penalizable(p, c.handedOut)
  {
    forall q | 0 <= q < |c.handedOut| && c.handedOut[q] == 0
      ensures p.requests[q].combinedWith.Some? && c.handedOut[q - 1] > 0
    {
      assert MayCombine(p, c.family, q);
      assert c.handedOut[q - 1] == 0 ==> MayCombine(p, c.family, q - 1);
    }
  }

  ghost function Cost(p: Problem, c: Configuration): real
    requires Feasible(p, c)
  {
    FeasibleIsPenalizable(p, c);
    Penalty(p, c.handedOut)
  }

  /** `c` is feasible and no feasible configuration has a lower penalty. */
  ghost predicate IsOptimal(p: Problem, c: Configuration) {
    && Feasible(p, c)
    && forall d :: Feasible(p, d) ==> Cost(p, c) <= Cost(p, d)
  }

  // ----- pruning -----

  lemma {:induction false} TakenGrows(family: seq<nat>, handedOut: seq<nat>, n: nat, f: nat)
    requires n <= |handedOut| <= |family|
    ensures Taken(family, handedOut[..n], f) <= Taken(family, handedOut, f)
  {
    if n < |handedOut| {
      TakenGrows(family, handedOut[..|handedOut| - 1], n, f);
      assert handedOut[..|handedOut| - 1][..n] == handedOut[..n];
    } else {
      assert handedOut[..n] == handedOut;
    }
  }

  /**
   * Why the early break is safe: when handing out `count` queues to the next request takes too many queues
   * of its family, no feasible configuration gives that request `count` or more.
   */
  lemma OversubscribedIsInfeasible(p: Problem, family: seq<nat>, handedOut: seq<nat>, count: nat, c: Configuration)
    requires WellFormed(p) && |family| == |p.requests| && Choice(p, family) && |handedOut| < |family|
    requires Taken(family, handedOut + [count], family[|handedOut|]) > p.families[family[|handedOut|]].queueCount
    requires c.family == family && handedOut <= c.handedOut && |c.handedOut| == |family|
    requires count <= c.handedOut[|handedOut|]
    ensures !Feasible(p, c)
  {
    var q := |handedOut|;
    var f := family[q];
    assert f in p.candidates[q];
    var longer := c.handedOut[..q + 1];
    assert longer[..q] == handedOut == (handedOut + [count])[..q];
    assert Taken(family, longer, f) >= Taken(family, handedOut + [count], f);
    TakenGrows(family, c.handedOut, q + 1, f);
  }

  lemma NothingHandedOut(p: Problem, family: seq<nat>)
    requires WellFormed(p) && Choice(p, family) && |family| == |p.requests|
    ensures Servable(p, family, [])
  {
  }

  lemma ChoiceExtends(p: Problem, family: seq<nat>, i: nat)
    requires WellFormed(p) && Choice(p, family) && |family| < |p.requests| && i < |p.candidates[|family|]|
    ensures Choice(p, family + [p.candidates[|family|][i]])
  {
  }

  lemma ServableExtends(p: Problem, family: seq<nat>, handedOut: seq<nat>, count: nat)
    requires Servable(p, family, handedOut) && |handedOut| < |family|
    requires count <= Limit(p, family, |handedOut|)
    requires count == 0 ==> MayCombine(p, family, |handedOut|)
    requires Taken(family, handedOut + [count], family[|handedOut|]) <= p.families[family[|handedOut|]].queueCount
    ensures Servable(p, family, handedOut + [count])
  {
    var longer := handedOut + [count];
    forall f | 0 <= f < |p.families|
      ensures Taken(family, longer, f) <= p.families[f].queueCount
    {
      assert longer[..|handedOut|] == handedOut;
    }
  }

  // ----- what has been searched -----

  /** Every feasible configuration that chooses `family` and starts with `handedOut` was considered. */
  ghost predicate Covers(p: Problem, considered: set<Configuration>, family: seq<nat>, handedOut: seq<nat>) {
    forall c :: Feasible(p, c) && c.family == family && handedOut <= c.handedOut ==> c in considered
  }

  /** The same, for those that hand out less than `count` queues to the next request. */
  ghost predicate CoversBelow(p: Problem, considered: set<Configuration>, family: seq<nat>, handedOut: seq<nat>, count: nat)
    requires |handedOut| < |p.requests|
  {
    forall c :: Feasible(p, c) && c.family == family && handedOut <= c.handedOut && c.handedOut[|handedOut|] < count ==>
      c in considered
  }

  lemma ConfigurationSearched(p: Problem, considered: set<Configuration>, c: Configuration)
    requires Feasible(p, c) && c in considered
    ensures Covers(p, considered, c.family, c.handedOut)
  {
    forall d | Feasible(p, d) && d.family == c.family && c.handedOut <= d.handedOut
      ensures d in considered
    {
      assert d.handedOut == c.handedOut;
      assert d == c;
    }
  }

  lemma CountsStart(p: Problem, considered: set<Configuration>, family: seq<nat>, handedOut: seq<nat>)
    requires |handedOut| < |p.requests| == |family|
    ensures CoversBelow(p, considered, family, handedOut, if MayCombine(p, family, |handedOut|) then 0 else 1)
  {
  }

  lemma CountSearched(p: Problem, considered: set<Configuration>, more: set<Configuration>, family: seq<nat>, handedOut: seq<nat>, count: nat)
    requires |handedOut| < |p.requests|
    requires CoversBelow(p, considered, family, handedOut, count)
    requires considered <= more && Covers(p, more, family, handedOut + [count])
    ensures CoversBelow(p, more, family, handedOut, count + 1)
  {
    forall c | Feasible(p, c) && c.family == family && handedOut <= c.handedOut && c.handedOut[|handedOut|] < count + 1
      ensures c in more
    {
      if c.handedOut[|handedOut|] == count {
        assert handedOut + [count] <= c.handedOut;
      }
    }
  }

  lemma CountsExhausted(p: Problem, considered: set<Configuration>, family: seq<nat>, handedOut: seq<nat>, count: nat)
    requires WellFormed(p) && |family| == |p.requests| && Choice(p, family) && |handedOut| < |family|
    requires CoversBelow(p, considered, family, handedOut, count)
    requires count > Limit(p, family, |handedOut|)
      || Taken(family, handedOut + [count], family[|handedOut|]) > p.families[family[|handedOut|]].queueCount
    ensures Covers(p, considered, family, handedOut)
  {
    forall c | Feasible(p, c) && c.family == family && handedOut <= c.handedOut
      ensures c in considered
    {
      assert c.handedOut[|handedOut|] <= Limit(p, family, |handedOut|);
      if count <= c.handedOut[|handedOut|] {
        OversubscribedIsInfeasible(p, family, handedOut, count, c);
      }
    }
  }

  /** Every feasible configuration whose families start with `family` was considered. */
  ghost predicate CoversFamilies(p: Problem, considered: set<Configuration>, family: seq<nat>) {
    forall c :: Feasible(p, c) && family <= c.family ==> c in considered
  }

  /** The same, for those that choose one of the first `i` candidates for the next request. */
  ghost predicate CoversCandidates(p: Problem, considered: set<Configuration>, family: seq<nat>, i: nat)
    requires |family| < |p.requests| == |p.candidates| && i <= |p.candidates[|family|]|
  {
    forall c :: Feasible(p, c) && family <= c.family && c.family[|family|] in p.candidates[|family|][..i] ==>
      c in considered
  }

  lemma CandidateSearched(p: Problem, considered: set<Configuration>, more: set<Configuration>, family: seq<nat>, i: nat)
    requires |family| < |p.requests| == |p.candidates| && i < |p.candidates[|family|]|
    requires CoversCandidates(p, considered, family, i)
    requires considered <= more && CoversFamilies(p, more, family + [p.candidates[|family|][i]])
    ensures CoversCandidates(p, more, family, i + 1)
  {
    forall c | Feasible(p, c) && family <= c.family && c.family[|family|] in p.candidates[|family|][..i + 1]
      ensures c in more
    {
      if c.family[|family|] == p.candidates[|family|][i] {
        assert family + [p.candidates[|family|][i]] <= c.family;
      } else {
        assert c.family[|family|] in p.candidates[|family|][..i];
      }
    }
  }

  lemma CandidatesExhausted(p: Problem, considered: set<Configuration>, family: seq<nat>)
    requires WellFormed(p) && |family| < |p.requests|
    requires CoversCandidates(p, considered, family, |p.candidates[|family|]|)
    ensures CoversFamilies(p, considered, family)
  {
    forall c | Feasible(p, c) && family <= c.family
      ensures c in considered
    {
      assert c.family[|family|] in p.candidates[|family|];
      assert p.candidates[|family|][..|p.candidates[|family|]|] == p.candidates[|family|];
    }
  }

  lemma HandedOutSearched(p: Problem, considered: set<Configuration>, family: seq<nat>)
    requires |family| == |p.requests| && Covers(p, considered, family, [])
    ensures CoversFamilies(p, considered, family)
  {
    forall c | Feasible(p, c) && family <= c.family
      ensures c in considered
    {
      assert c.family == family && [] <= c.handedOut;
    }
  }

  // ----- the search -----

  /** `best` and `minimum` are what is remembered of all configurations that were considered. */
  ghost predicate Summarizes(p: Problem, considered: set<Configuration>, minimum: real, best: Option<Configuration>) {
    && (forall c {:trigger Feasible(p, c)} :: c in considered ==> Feasible(p, c) && minimum <= Cost(p, c))
    && match best
       case None => minimum == FLT_MAX
       case Some(c) => Feasible(p, c) && minimum == Cost(p, c) < FLT_MAX
  }

  ghost predicate AllAsserted(p: Problem, considered: set<Configuration>) {
    forall c :: c in considered ==> IsAsserted(p, c)
  }

  predicate IsAsserted(p: Problem, c: Configuration) {
    |c.handedOut| <= |p.requests| && AssertionHolds(p, c.handedOut)
  }

  ghost predicate Remembers(p: Problem, considered: set<Configuration>, minimum: real, best: Option<Configuration>, asserted: bool) {
    && WellFormed(p)
    && Summarizes(p, considered, minimum, best)
    && (asserted <==> AllAsserted(p, considered))
  }

  /** One more configuration was considered, and is now the best one if it costs less than the minimum. */
  lemma ConsideredMore(p: Problem, considered: set<Configuration>, minimum: real, best: Option<Configuration>, asserted: bool,
                       c: Configuration)
    requires Remembers(p, considered, minimum, best, asserted) && Feasible(p, c)
    ensures var held := IsAsserted(p, c);
      if Cost(p, c) < minimum then Remembers(p, considered + {c}, Cost(p, c), Some(c), asserted && held)
      else Remembers(p, considered + {c}, minimum, best, asserted && held)
  {
    AssertedMore(p, considered, c);
  }

  lemma AssertedMore(p: Problem, considered: set<Configuration>, c: Configuration)
    ensures AllAsserted(p, considered + {c}) <==> AllAsserted(p, considered) && IsAsserted(p, c)
  {
    if AllAsserted(p, considered + {c}) {
      assert c in considered + {c};
      forall d | d in considered
        ensures IsAsserted(p, d)
      {
        assert d in considered + {c};
      }
    }
  }

  /** The search, with the variables that its loops update. */
  class Search {
    const p: Problem
    var minimumPenalty: real
    var best: Option<Configuration>
    var asserted: bool                        // The assertion in the penalty function held so far.
    ghost var considered: set<Configuration>

    constructor (p: Problem)
      requires WellFormed(p)
      ensures this.p == p && Valid()
    {
      this.p := p;
      minimumPenalty := FLT_MAX;
      best := None;
      asserted := true;
      considered := {};
    }

    ghost predicate Valid()
      reads this
    {
      Remembers(p, considered, minimumPenalty, best, asserted)
    }

    /** The queues of family `f` handed out so far; the loop over `qri <= qri_h`. */
    method HandedOutFrom(family: seq<nat>, handedOut: seq<nat>, f: nat) returns (total: nat)
      requires |handedOut| <= |family|
      ensures total == Taken(family, handedOut, f)
    {
      total := 0;
      for q := 0 to |handedOut|
        invariant total == Taken(family, handedOut[..q], f)
      {
        assert handedOut[..q + 1][..q] == handedOut[..q];
        if family[q] == f {
          total := total + handedOut[q];
        }
      }
      assert handedOut[..|handedOut|] == handedOut;
    }

    /** `held` tells whether the assertion in the loop held for all requests. */
    method CalculatePenalty(c: Configuration) returns (penalty: real, held: bool)
      requires Feasible(p, c)
      ensures penalty == Cost(p, c)
      ensures held <==> IsAsserted(p, c)
    {
      var handedOut := c.handedOut;
      FeasibleIsPenalizable(p, c);
      penalty, held := 0.0, true;
      for q := 0 to |p.requests|
        invariant penalty == PenaltyUpTo(p, handedOut, q)
        invariant held <==> HoldsBelow(p, handedOut, q)
      {
        assert PenaltyUpTo(p, handedOut, q + 1) == PenaltyUpTo(p, handedOut, q) + PenaltyOf(p, handedOut, q);
        var P := p.requests[q].priority;
        var R := AsInt(p.requests[q].maxNumberOfQueues);
        var H := handedOut[q];
        if H > 0 {
          penalty := penalty + Charge(P, R, H);
        } else {
          var q0 := p.requests[q].combinedWith.value;
          H := handedOut[q0];
          held := held && R <= AsInt(p.requests[q0].maxNumberOfQueues);
          if H < R {
            penalty := penalty + Charge(P, R, H);
          }
          penalty := penalty - 0.4 * p.requests[q0].priority;
        }
      }
    }

    /** The body of the innermost loop: remember the configuration if it is the best one so far. */
    method Consider(c: Configuration)
      requires Valid() && Feasible(p, c)
      modifies this
      ensures Valid() && considered == old(considered) + {c}
    {
      var penalty, held := CalculatePenalty(c);
      ConsideredMore(p, considered, minimumPenalty, best, asserted, c);
      asserted := asserted && held;
      considered := considered + {c};
      if penalty < minimumPenalty {
        minimumPenalty := penalty;
        best := Some(c);
      }
    }

    /** The nested loops `ml_h`: loop number `|handedOut|` and all loops inside it. */
    method HandOutLoops(family: seq<nat>, handedOut: seq<nat>)
      requires Valid() && Servable(p, family, handedOut)
      modifies this
      ensures Valid() && old(considered) <= considered
      ensures Covers(p, considered, family, handedOut)
      decreases |p.requests| - |handedOut|
    {
      if |handedOut| == |p.requests| {
        Consider(Configuration(family, handedOut));
        ConfigurationSearched(p, considered, Configuration(family, handedOut));
        return;
      }
      var q := |handedOut|;
      var count := if MayCombine(p, family, q) then 0 else 1;
      CountsStart(p, considered, family, handedOut);
      while count <= Limit(p, family, q)
        invariant Valid() && old(considered) <= considered
        invariant count == 0 ==> MayCombine(p, family, q)
        invariant CoversBelow(p, considered, family, handedOut, count)
      {
        var total := HandedOutFrom(family, handedOut + [count], family[q]);
        if total > p.families[family[q]].queueCount {
          break;
        }
        ServableExtends(p, family, handedOut, count);
        ghost var before := considered;
        HandOutLoops(family, handedOut + [count]);
        CountSearched(p, before, considered, family, handedOut, count);
        count := count + 1;
      }
      CountsExhausted(p, considered, family, handedOut, count);
    }

    /** The nested loops `ml_qf`: loop number `|family|` and all loops inside it. */
    method FamilyLoops(family: seq<nat>)
      requires Valid() && Choice(p, family)
      modifies this
      ensures Valid() && old(considered) <= considered
      ensures CoversFamilies(p, considered, family)
      decreases |p.requests| - |family|
    {
      if |family| == |p.requests| {
        NothingHandedOut(p, family);
        HandOutLoops(family, []);
        HandedOutSearched(p, considered, family);
        return;
      }
      var q := |family|;
      var i := 0;
      while i < |p.candidates[q]|
        invariant 0 <= i <= |p.candidates[q]|
        invariant Valid() && old(considered) <= considered
        invariant CoversCandidates(p, considered, family, i)
      {
        ghost var before := considered;
        ChoiceExtends(p, family, i);
        FamilyLoops(family + [p.candidates[q][i]]);
        CandidateSearched(p, before, considered, family, i);
        i := i + 1;
      }
      CandidatesExhausted(p, considered, family);
    }
  }

  // ----- when there is a feasible configuration -----

  /** Hand out one queue to every request that cannot share, and none to the others. */
  function OneQueueEach(p: Problem, family: seq<nat>): seq<nat>
    requires |family| == |p.requests|
  {
    seq(|family|, q requires 0 <= q < |family| => if MayCombine(p, family, q) then 0 else 1)
  }

  ghost predicate OneQueueEachFits(p: Problem, family: seq<nat>) {
    |family| == |p.requests| && Feasible(p, Configuration(family, OneQueueEach(p, family)))
  }

  /** The requests can be served: some choice of families has a queue for each request that cannot share. */
  ghost predicate CanServe(p: Problem) {
    exists family :: OneQueueEachFits(p, family)
  }

  lemma {:induction false} TakenIsMonotone(family: seq<nat>, less: seq<nat>, more: seq<nat>, f: nat)
    requires |less| == |more| <= |family|
    requires forall q :: 0 <= q < |less| ==> less[q] <= more[q]
    ensures Taken(family, less, f) <= Taken(family, more, f)
  {
    if |less| > 0 {
      TakenIsMonotone(family, less[..|less| - 1], more[..|more| - 1], f);
    }
  }

  /**
   * Whether the requests can be served at all only depends on the families: a feasible configuration exists
   * exactly when one exists that hands out a single queue to each request that cannot share.
   */
  lemma FeasibleIffOneQueueEachFits(p: Problem)
    ensures (exists c :: Feasible(p, c)) <==> CanServe(p)
  {
    forall c | Feasible(p, c)
      ensures OneQueueEachFits(p, c.family)
    {
      OneQueueEachIsFeasible(p, c);
    }
  }

  lemma OneQueueEachIsFeasible(p: Problem, c: Configuration)
    requires Feasible(p, c)
    ensures OneQueueEachFits(p, c.family)
  {
    var one := OneQueueEach(p, c.family);
    forall q | 0 <= q < |one|
      ensures one[q] <= c.handedOut[q] <= Limit(p, c.family, q)
    {
      assert c.handedOut[q] == 0 ==> MayCombine(p, c.family, q);
    }
    forall f | 0 <= f < |p.families|
      ensures Taken(c.family, one, f) <= p.families[f].queueCount
    {
      TakenIsMonotone(c.family, one, c.handedOut, f);
    }
  }

  // ----- when the assertion in the penalty function fails -----

  /** The assertion in the penalty function fails for some configuration that the search considers. */
  ghost predicate AssertionFails(p: Problem) {
    exists c :: Feasible(p, c) && !AssertionHolds(p, c.handedOut)
  }

  /** In `family` the requests fit, and a request that can share asks for more than the one before it. */
  ghost predicate SharesUnequally(p: Problem, family: seq<nat>, q: nat) {
    OneQueueEachFits(p, family) && q < |family| && MayCombine(p, family, q) && AsksForMore(p, q)
  }

  /** The assertion holds for everything that the search considers, unless there is such a choice of families. */
  lemma AssertionFailsExactly(p: Problem)
    ensures AssertionFails(p) <==> exists family, q :: SharesUnequally(p, family, q)
  {
    forall c | Feasible(p, c) && !AssertionHolds(p, c.handedOut)
      ensures exists q :: SharesUnequally(p, c.family, q)
    {
      var q :| 0 < q < |c.handedOut| && c.handedOut[q] == 0 && AsksForMore(p, q);
      OneQueueEachIsFeasible(p, c);
      assert MayCombine(p, c.family, q);
      assert SharesUnequally(p, c.family, q);
    }
    forall family, q: nat | SharesUnequally(p, family, q)
      ensures !AssertionHolds(p, OneQueueEach(p, family))
    {
      assert OneQueueEach(p, family)[q] == 0;
    }
  }

  // ----- when a configuration is cheap enough to be remembered -----

  function TotalPriority(requests: seq<QueueRequest>, n: nat): real
    requires n <= |requests|
  {
    if n == 0 then 0.0 else TotalPriority(requests, n - 1) + requests[n - 1].priority
  }

  /** No configuration can cost FLT_MAX, because less than 2^31 queues are lacking for each request. */
  predicate Affordable(requests: seq<QueueRequest>) {
    && (forall q :: 0 <= q < |requests| ==> requests[q].priority >= 0.0)
    && 2147483648.0 * TotalPriority(requests, |requests|) < FLT_MAX
  }

  lemma ChargeIsBounded(priority: real, R: int, H: nat)
    requires priority >= 0.0 && R < 0x8000_0000 && H > 0
    ensures Charge(priority, R, H) <= 2147483648.0 * priority
  {
    var lacking, h := (R - H) as real, H as real;
    var numerator := priority * lacking;
    assert numerator <= priority * 2147483648.0 by {
      ProductIsMonotone(priority, lacking, 2147483648.0);
    }
    QuotientIsSmaller(numerator, h, priority * 2147483648.0);
  }

  lemma ProductIsMonotone(k: real, x: real, y: real)
    requires k >= 0.0 && x <= y
    ensures k * x <= k * y
  {
  }

  lemma QuotientIsSmaller(x: real, h: real, bound: real)
    requires h >= 1.0 && x <= bound && bound >= 0.0
    ensures x / h <= bound
  {
    var quotient := x / h;
    assert quotient * h == x;
    if quotient > bound {
      ProductIsMonotone(quotient, 1.0, h);
    }
  }

  lemma {:induction false} PenaltyIsBounded(p: Problem, handedOut: seq<nat>, n: nat)
    requires Penalizable(p, handedOut) && n <= |handedOut|
    requires forall q :: 0 <= q < |p.requests| ==> p.requests[q].priority >= 0.0
    ensures PenaltyUpTo(p, handedOut, n) <= 2147483648.0 * TotalPriority(p.requests, n)
  {
    if n > 0 {
      PenaltyIsBounded(p, handedOut, n - 1);
      var q := n - 1;
      var P, R := p.requests[q].priority, AsInt(p.requests[q].maxNumberOfQueues);
      ChargeIsBounded(P, R, if handedOut[q] > 0 then handedOut[q] else handedOut[q - 1]);
      assert PenaltyOf(p, handedOut, q) <= 2147483648.0 * P;
    }
  }

  /** Some feasible configuration costs less than FLT_MAX, so that the search remembers one. */
  ghost predicate IsRemembered(p: Problem) {
    exists c :: Feasible(p, c) && Cost(p, c) < FLT_MAX
  }

  /** For all but astronomical priorities, a configuration is found exactly when one queue each fits. */
  lemma FoundExactly(p: Problem)
    requires Affordable(p.requests)
    ensures IsRemembered(p) <==> CanServe(p)
  {
    FeasibleIffOneQueueEachFits(p);
    forall c | Feasible(p, c)
      ensures Cost(p, c) < FLT_MAX
    {
      FeasibleIsPenalizable(p, c);
      PenaltyIsBounded(p, c.handedOut, |c.handedOut|);
    }
  }

  /** Priorities are meant to be at most 1; then a configuration is always cheap enough. */
  lemma {:induction false} SmallPrioritiesAreAffordable(requests: seq<QueueRequest>)
    requires forall q :: 0 <= q < |requests| ==> 0.0 <= requests[q].priority <= 1.0
    requires |requests| <= 0x1_0000_0000
    ensures Affordable(requests)
  {
    TotalIsBounded(requests, |requests|);
    assert 2147483648.0 * TotalPriority(requests, |requests|) <= 2147483648.0 * 4294967296.0;
  }

  lemma {:induction false} TotalIsBounded(requests: seq<QueueRequest>, n: nat)
    requires n <= |requests| && forall q :: 0 <= q < |requests| ==> 0.0 <= requests[q].priority <= 1.0
    ensures 0.0 <= TotalPriority(requests, n) <= n as real
  {
    if n > 0 {
      TotalIsBounded(requests, n - 1);
    }
  }

  // ----- is_compatible_with -----

  function SupportedFlags(families: seq<QueueFamily>): QueueFlags {
    set f, b | 0 <= f < |families| && b in families[f].flags :: b
  }

  /** Only transfer queues are missing, and graphics or compute queues can stand in for them. */
  predicate OnlyTransferMissing(families: seq<QueueFamily>, requests: seq<QueueRequest>) {
    && AllFlags(requests) - SupportedFlags(families) == {Transfer}
    && !(SupportedFlags(families) !! {Graphics, Compute})
  }

  /** `family` may serve `request`; `standIn` makes the exception for requests for transfer queues. */
  predicate Matches(request: QueueRequest, family: QueueFamily, standIn: bool) {
    var lacking := request.flags - family.flags;
    || lacking == {}
    || (lacking == {Transfer} && standIn && request.flags !! {Graphics, Compute} && !(family.flags !! {Graphics, Compute}))
  }

  function Candidates(families: seq<QueueFamily>, request: QueueRequest, standIn: bool, n: nat): (r: seq<nat>)
    requires n <= |families|
    ensures forall f: int {:trigger f in r} :: f in r <==> 0 <= f < n && Matches(request, families[f], standIn)
  {
    if n == 0 then [] else
      Candidates(families, request, standIn, n - 1) + if Matches(request, families[n - 1], standIn) then [n - 1] else []
  }

  /** The largest queue count of the families that may serve `request`. */
  function LargestCount(families: seq<QueueFamily>, request: QueueRequest, standIn: bool, n: nat): (r: nat)
    requires n <= |families|
    ensures forall f :: 0 <= f < n && Matches(request, families[f], standIn) ==> families[f].queueCount <= r
    ensures r == 0 || exists f :: 0 <= f < n && Matches(request, families[f], standIn) && families[f].queueCount == r
  {
    if n == 0 then 0 else
      var r := LargestCount(families, request, standIn, n - 1);
      if Matches(request, families[n - 1], standIn) && families[n - 1].queueCount > r then families[n - 1].queueCount else r
  }

  /** A maximum of 0 becomes the largest number of queues that any suitable family has. */
  function Resolved(families: seq<QueueFamily>, request: QueueRequest, standIn: bool): QueueRequest {
    if request.maxNumberOfQueues == 0
    then request.(maxNumberOfQueues := LargestCount(families, request, standIn, |families|))
    else request
  }

  function AllResolved(families: seq<QueueFamily>, requests: seq<QueueRequest>, standIn: bool): (r: seq<QueueRequest>)
    ensures |r| == |requests|
    ensures WellCombined(requests) ==> WellCombined(r)
  {
    seq(|requests|, q requires 0 <= q < |requests| => Resolved(families, requests[q], standIn))
  }

  function AllCandidates(families: seq<QueueFamily>, requests: seq<QueueRequest>, standIn: bool): (r: seq<seq<nat>>)
    ensures |r| == |requests|
    ensures forall q, f :: 0 <= q < |r| && f in r[q] ==> f < |families|
  {
    seq(|requests|, q requires 0 <= q < |requests| => Candidates(families, requests[q], standIn, |families|))
  }

  function ProblemOf(families: seq<QueueFamily>, requests: seq<QueueRequest>): (p: Problem)
    requires WellCombined(requests)
    ensures WellFormed(p)
  {
    var standIn := OnlyTransferMissing(families, requests);
    Problem(families, AllResolved(families, requests, standIn), AllCandidates(families, requests, standIn))
  }

  function RepliesOf(p: Problem, c: Configuration): seq<QueueReply>
    requires |c.family| == |c.handedOut| == |p.requests|
  {
    seq(|p.requests|, q requires 0 <= q < |p.requests| =>
      QueueReply(c.family[q], c.handedOut[q], p.requests[q].flags, p.requests[q].cookies,
                 if c.handedOut[q] == 0 then p.requests[q].combinedWith else None, 0))
  }

  /** The replies are those of a feasible configuration of minimum penalty. */
  ghost predicate AreOptimal(p: Problem, replies: seq<QueueReply>) {
    exists c :: IsOptimal(p, c) && Cost(p, c) < FLT_MAX && replies == RepliesOf(p, c)
  }

  /** What the search promises about a problem: when there are replies, what they are, and whether its assertion held. */
  ghost predicate IsAnswer(p: Problem, replies: Option<seq<QueueReply>>, asserted: bool) {
    && (replies.Some? <==> IsRemembered(p))
    && (replies.Some? ==> AreOptimal(p, replies.value))
    && (asserted <==> !AssertionFails(p))
  }

  predicate SomeFamilyMatches(families: seq<QueueFamily>, request: QueueRequest, standIn: bool) {
    exists f :: 0 <= f < |families| && Matches(request, families[f], standIn)
  }

  predicate EachMatches(families: seq<QueueFamily>, requests: seq<QueueRequest>, standIn: bool) {
    forall q :: 0 <= q < |requests| ==> SomeFamilyMatches(families, requests[q], standIn)
  }

  predicate EveryRequestMatches(families: seq<QueueFamily>, requests: seq<QueueRequest>) {
    EachMatches(families, requests, OnlyTransferMissing(families, requests))
  }

  /** The test for unsupported flags rejects nothing that the test per request would not reject. */
  lemma UnsupportedFlagIsUnmatched(families: seq<QueueFamily>, requests: seq<QueueRequest>)
    requires AllFlags(requests) - SupportedFlags(families) != {} && !OnlyTransferMissing(families, requests)
    ensures !EveryRequestMatches(families, requests)
  {
    var b :| b in AllFlags(requests) - SupportedFlags(families);
    var q :| 0 <= q < |requests| && b in requests[q].flags;
    forall f | 0 <= f < |families|
      ensures !Matches(requests[q], families[f], false)
    {
      assert b in requests[q].flags - families[f].flags;
    }
  }

  /**
   * The method returns true when every request has a matching family. Its replies are those of an optimal
   * configuration, unless all feasible configurations cost FLT_MAX or more; then it leaves the replies undefined.
   * For requests with reasonable priorities that is when the requests cannot be served with one queue each.
   * `asserted` tells whether the assertion in the penalty function held throughout.
   */
  method IsCompatibleWith(families: seq<QueueFamily>, info: DeviceCreateInfo)
    returns (ok: bool, replies: Option<seq<QueueReply>>, asserted: bool)
    requires info.Valid()
    ensures ok <==> EveryRequestMatches(families, info.queueRequests)
    ensures if ok then IsAnswer(ProblemOf(families, info.queueRequests), replies, asserted) else replies.None? && asserted
    ensures ok && Affordable(info.queueRequests) ==> (replies.Some? <==> CanServe(ProblemOf(families, info.queueRequests)))
  {
    var supported := CollectSupportedFlags(families);
    var standIn := false;
    var unsupported := info.queueFlags - supported;
    if unsupported != {} {
      if unsupported != {Transfer} || supported !! {Graphics, Compute} {
        UnsupportedFlagIsUnmatched(families, info.queueRequests);
        return false, None, true;
      }
      standIn := true;
    }
    var problem := CollectCandidates(families, info.queueRequests, standIn);
    if problem.None? {
      return false, None, true;
    }
    ok := true;
    replies, asserted := HandOut(problem.value);
    if Affordable(info.queueRequests) {
      AffordableProblem(families, info.queueRequests);
    }
  }

  /** The whole search, for a problem. */
  method HandOut(p: Problem) returns (replies: Option<seq<QueueReply>>, asserted: bool)
    requires WellFormed(p)
    ensures IsAnswer(p, replies, asserted)
  {
    var search := new Search(p);
    search.FamilyLoops([]);
    EverythingSearched(p, search.considered, search.minimumPenalty, search.best);
    asserted := search.asserted;
    replies := None;
    if search.best.Some? {
      replies := Some(RepliesOf(p, search.best.value));
    }
  }

  lemma AffordableProblem(families: seq<QueueFamily>, requests: seq<QueueRequest>)
    requires WellCombined(requests) && Affordable(requests)
    ensures IsRemembered(ProblemOf(families, requests)) <==> CanServe(ProblemOf(families, requests))
  {
    var p := ProblemOf(families, requests);
    SamePriorities(requests, p.requests, |requests|);
    FoundExactly(p);
  }

  lemma {:induction false} SamePriorities(a: seq<QueueRequest>, b: seq<QueueRequest>, n: nat)
    requires n <= |a| == |b| && forall q :: 0 <= q < |a| ==> a[q].priority == b[q].priority
    ensures TotalPriority(a, n) == TotalPriority(b, n)
  {
    if n > 0 {
      SamePriorities(a, b, n - 1);
    }
  }

  method CollectSupportedFlags(families: seq<QueueFamily>) returns (supported: QueueFlags)
    ensures supported == SupportedFlags(families)
  {
    supported := {};
    for f := 0 to |families|
      invariant supported == SupportedFlags(families[..f])
    {
      assert families[..f + 1] == families[..f] + [families[f]];
      SupportedFlagsAppend(families[..f], families[f]);
      supported := supported + families[f].flags;
    }
    assert families[..|families|] == families;
  }

  /** The loop over all requests; it stops at a request that no family may serve. */
  method CollectCandidates(families: seq<QueueFamily>, requests: seq<QueueRequest>, standIn: bool)
    returns (problem: Option<Problem>)
    requires WellCombined(requests) && standIn == OnlyTransferMissing(families, requests)
    ensures problem.Some? <==> EveryRequestMatches(families, requests)
    ensures problem.Some? ==> problem.value == ProblemOf(families, requests)
  {
    var candidates: seq<seq<nat>> := [];
    var resolved: seq<QueueRequest> := [];
    for q := 0 to |requests|
      invariant candidates == AllCandidates(families, requests[..q], standIn)
      invariant resolved == AllResolved(families, requests[..q], standIn)
      invariant EachMatches(families, requests[..q], standIn)
    {
      OneMoreMatches(families, requests, standIn, q);
      OneMoreRequest(families, requests, standIn, q);
      var matching, largest := MatchingFamilies(families, requests[q], standIn);
      if matching == [] {
        return None;
      }
      candidates := candidates + [matching];
      resolved := resolved + [if requests[q].maxNumberOfQueues == 0 then requests[q].(maxNumberOfQueues := largest) else requests[q]];
    }
    assert requests[..|requests|] == requests;
    problem := Some(Problem(families, resolved, candidates));
  }

  lemma OneMoreMatches(families: seq<QueueFamily>, requests: seq<QueueRequest>, standIn: bool, q: nat)
    requires q < |requests|
    ensures EachMatches(families, requests[..q + 1], standIn) <==>
      EachMatches(families, requests[..q], standIn) && SomeFamilyMatches(families, requests[q], standIn)
    ensures EachMatches(families, requests, standIn) ==> SomeFamilyMatches(families, requests[q], standIn)
  {
  }

  lemma OneMoreRequest(families: seq<QueueFamily>, requests: seq<QueueRequest>, standIn: bool, q: nat)
    requires q < |requests|
    ensures AllCandidates(families, requests[..q + 1], standIn) ==
      AllCandidates(families, requests[..q], standIn) + [Candidates(families, requests[q], standIn, |families|)]
    ensures AllResolved(families, requests[..q + 1], standIn) ==
      AllResolved(families, requests[..q], standIn) + [Resolved(families, requests[q], standIn)]
  {
  }

  /** The search considered the feasible configurations, all of them and no others, and remembers the best. */
  lemma EverythingSearched(p: Problem, considered: set<Configuration>, minimum: real, best: Option<Configuration>)
    requires CoversFamilies(p, considered, []) && Summarizes(p, considered, minimum, best)
    ensures forall c :: Feasible(p, c) <==> c in considered
    ensures best.Some? ==> IsOptimal(p, best.value)
    ensures best.None? ==> forall c :: Feasible(p, c) ==> FLT_MAX <= Cost(p, c)
    ensures AllAsserted(p, considered) <==> !AssertionFails(p)
  {
    forall c | Feasible(p, c)
      ensures c in considered
    {
      assert [] <= c.family;
    }
  }

  /** The loop over all families for one request. */
  method MatchingFamilies(families: seq<QueueFamily>, request: QueueRequest, standIn: bool)
    returns (matching: seq<nat>, largest: nat)
    ensures matching == Candidates(families, request, standIn, |families|)
    ensures largest == LargestCount(families, request, standIn, |families|)
    ensures matching != [] <==> SomeFamilyMatches(families, request, standIn)
  {
    matching, largest := [], 0;
    for f := 0 to |families|
      invariant matching == Candidates(families, request, standIn, f)
      invariant largest == LargestCount(families, request, standIn, f)
    {
      if Matches(request, families[f], standIn) {
        matching := matching + [f];
        if families[f].queueCount > largest {
          largest := families[f].queueCount;
        }
      }
    }
    SomeCandidate(families, request, standIn);
  }

  lemma SomeCandidate(families: seq<QueueFamily>, request: QueueRequest, standIn: bool)
    ensures Candidates(families, request, standIn, |families|) != [] <==> SomeFamilyMatches(families, request, standIn)
  {
    var matching := Candidates(families, request, standIn, |families|);
    assert matching != [] ==> matching[0] in matching;
    if SomeFamilyMatches(families, request, standIn) {
      var f :| 0 <= f < |families| && Matches(request, families[f], standIn);
      assert f in matching;
    }
  }

  lemma SupportedFlagsAppend(families: seq<QueueFamily>, family: QueueFamily)
    ensures SupportedFlags(families + [family]) == SupportedFlags(families) + family.flags
  {
    var longer := families + [family];
    forall b | b in SupportedFlags(families) + family.flags
      ensures b in SupportedFlags(longer)
    {
      if b in family.flags {
        assert longer[|families|] == family;
      } else {
        var f :| 0 <= f < |families| && b in families[f].flags;
        assert longer[f] == families[f];
      }
    }
  }

  // ----- inputs with surprises -----

  /** Every request may match a family without a feasible configuration: two requests for the only queue there is. */
  lemma CompatibleWithoutReplies()
    ensures var request := QueueRequest({Graphics}, 1, 1.0, None, 1);
      var families := [QueueFamily({Graphics}, 1)];
      && EveryRequestMatches(families, [request, request])
      && forall c :: !Feasible(ProblemOf(families, [request, request]), c)
  {
    var request := QueueRequest({Graphics}, 1, 1.0, None, 1);
    var families := [QueueFamily({Graphics}, 1)];
    assert Matches(request, families[0], OnlyTransferMissing(families, [request, request]));
    forall c: Configuration | |c.family| == |c.handedOut| == 2 && c.handedOut[0] > 0 && c.handedOut[1] > 0 && c.family == [0, 0]
      ensures Taken(c.family, c.handedOut, 0) >= 2
    {
      assert c.handedOut[..1][..0] == [] && c.handedOut[..1] == [c.handedOut[0]];
    }
    forall c: Configuration | |c.family| == 2 && c.family[0] in [0] && c.family[1] in [0]
      ensures c.family == [0, 0]
    {}
  }

  function SingleQueue(priority: real, maximum: nat): Problem
    requires maximum > 0
  {
    ProblemOf([QueueFamily({Graphics}, 1)], [QueueRequest({Graphics}, maximum, priority, None, 1)])
  }

  lemma SingleQueueIs(priority: real, maximum: nat)
    requires maximum > 0
    ensures var p := SingleQueue(priority, maximum);
      && p.families == [QueueFamily({Graphics}, 1)] && p.requests == [QueueRequest({Graphics}, maximum, priority, None, 1)]
      && |p.candidates| == 1 && forall f: int :: f in p.candidates[0] <==> f == 0
  {
    var request := QueueRequest({Graphics}, maximum, priority, None, 1);
    var families := [QueueFamily({Graphics}, 1)];
    assert Matches(request, families[0], OnlyTransferMissing(families, [request]));
  }

  lemma TakenByOne(family: seq<nat>, handedOut: seq<nat>, f: nat)
    requires |family| == |handedOut| == 1
    ensures Taken(family, handedOut, f) == if family[0] == f then handedOut[0] else 0
  {
    assert handedOut[..0] == [];
  }

  lemma OnlyOneIsFeasible(p: Problem, c: Configuration)
    requires |p.families| == |p.requests| == |p.candidates| == 1
    requires p.families[0].queueCount == 1 && p.requests[0].maxNumberOfQueues > 0 && p.requests[0].combinedWith.None?
    requires forall f: int :: f in p.candidates[0] <==> f == 0
    ensures Feasible(p, c) <==> c == Configuration([0], [1])
  {
    if |c.family| == |c.handedOut| == 1 {
      TakenByOne(c.family, c.handedOut, 0);
    }
    if Feasible(p, c) {
      assert c.family[0] in p.candidates[0];
      assert c.handedOut[0] != 0;
      assert c.family == [0] && c.handedOut == [1];
    }
  }

  lemma CostOfOne(p: Problem)
    requires |p.requests| == 1 && Feasible(p, Configuration([0], [1])) && 0 < p.requests[0].maxNumberOfQueues < 0x8000_0000
    ensures Cost(p, Configuration([0], [1])) == p.requests[0].priority * (p.requests[0].maxNumberOfQueues - 1) as real
  {
    FeasibleIsPenalizable(p, Configuration([0], [1]));
    assert PenaltyUpTo(p, [1], 1) == PenaltyUpTo(p, [1], 0) + PenaltyOf(p, [1], 0);
    assert AsInt(p.requests[0].maxNumberOfQueues) == p.requests[0].maxNumberOfQueues;
  }

  /** Many queues asked for, of the only queue there is: whether the replies are defined depends on the priority. */
  lemma SingleQueueOutcome(priority: real, maximum: nat)
    requires 0 < maximum < 0x8000_0000
    ensures var p := SingleQueue(priority, maximum);
      CanServe(p) && (IsRemembered(p) <==> priority * (maximum - 1) as real < FLT_MAX)
  {
    var p := SingleQueue(priority, maximum);
    SingleQueueIs(priority, maximum);
    forall c
      ensures Feasible(p, c) <==> c == Configuration([0], [1])
    {
      OnlyOneIsFeasible(p, c);
    }
    CostOfOne(p);
    assert OneQueueEach(p, [0]) == [1];
    assert OneQueueEachFits(p, [0]);
  }

  /** A request that can be served may be left without a reply: no configuration costs less than FLT_MAX. */
  lemma AstronomicalPriority()
    ensures var p := SingleQueue(3.0 * FLT_MAX / 4.0, 3);
      CanServe(p) && !IsRemembered(p)
  {
    SingleQueueOutcome(3.0 * FLT_MAX / 4.0, 3);
  }

  /** The maximum of request `q`, after 0 was replaced by the largest count of the families that may serve it. */
  function Maximum(families: seq<QueueFamily>, requests: seq<QueueRequest>, q: nat): int
    requires q < |requests|
  {
    var standIn := OnlyTransferMissing(families, requests);
    AsInt(if requests[q].maxNumberOfQueues != 0 then requests[q].maxNumberOfQueues
          else LargestCount(families, requests[q], standIn, |families|))
  }

  /** `SharesUnequally`, before the call: for requests whose maxima have not been replaced. */
  ghost predicate RequestsUnequally(families: seq<QueueFamily>, requests: seq<QueueRequest>, family: seq<nat>, q: nat)
    requires WellCombined(requests)
  {
    && 0 < q < |requests| == |family|
    && requests[q].combinedWith.Some? && family[q] == family[q - 1]
    && Maximum(families, requests, q) > Maximum(families, requests, q - 1)
    && OneQueueEachFits(ProblemOf(families, requests), family)
  }

  lemma MaximumIs(families: seq<QueueFamily>, requests: seq<QueueRequest>, q: nat)
    requires WellCombined(requests) && q < |requests|
    ensures var p := ProblemOf(families, requests);
      |p.requests| == |requests| && p.requests[q].combinedWith == requests[q].combinedWith
      && AsInt(p.requests[q].maxNumberOfQueues) == Maximum(families, requests, q)
  {
  }

  lemma SharingIs(families: seq<QueueFamily>, requests: seq<QueueRequest>, family: seq<nat>, q: nat)
    requires WellCombined(requests) && 0 < q < |requests| == |family|
    ensures var p := ProblemOf(families, requests);
      |p.requests| == |requests|
      && (MayCombine(p, family, q) <==> requests[q].combinedWith.Some? && family[q] == family[q - 1])
      && (AsksForMore(p, q) <==> Maximum(families, requests, q) > Maximum(families, requests, q - 1))
  {
    MaximumIs(families, requests, q);
    MaximumIs(families, requests, q - 1);
  }

  lemma UnequalRequests(families: seq<QueueFamily>, requests: seq<QueueRequest>, family: seq<nat>, q: nat)
    requires WellCombined(requests)
    ensures SharesUnequally(ProblemOf(families, requests), family, q) <==> RequestsUnequally(families, requests, family, q)
  {
    var p := ProblemOf(families, requests);
    assert |p.requests| == |requests|;
    if 0 < q < |requests| == |family| {
      SharingIs(families, requests, family, q);
    } else {
      assert !RequestsUnequally(families, requests, family, q);
    }
  }

  lemma AssertionFailsForRequests(families: seq<QueueFamily>, requests: seq<QueueRequest>)
    requires WellCombined(requests)
    ensures AssertionFails(ProblemOf(families, requests)) <==> exists family, q :: RequestsUnequally(families, requests, family, q)
  {
    var p := ProblemOf(families, requests);
    AssertionFailsExactly(p);
    forall family, q: nat
      ensures SharesUnequally(p, family, q) <==> RequestsUnequally(families, requests, family, q)
    {
      UnequalRequests(families, requests, family, q);
    }
  }

  /** On no device does it fail when the maxima of combined requests are given and do not increase. */
  lemma GivenMaximaAreSafe(families: seq<QueueFamily>, requests: seq<QueueRequest>)
    requires WellCombined(requests)
    requires forall q :: 0 < q < |requests| && requests[q].combinedWith.Some? ==>
      0 < requests[q].maxNumberOfQueues <= requests[q - 1].maxNumberOfQueues < 0x8000_0000
    ensures !AssertionFails(ProblemOf(families, requests))
  {
    var p := ProblemOf(families, requests);
    forall q: nat | 0 < q < |p.requests| && p.requests[q].combinedWith.Some?
      ensures !AsksForMore(p, q)
    {
      MaximumIs(families, requests, q);
      MaximumIs(families, requests, q - 1);
      SmallMaximum(families, requests, q);
      SmallMaximum(families, requests, q - 1);
    }
    NobodyAsksForMore(p);
  }

  lemma NobodyAsksForMore(p: Problem)
    requires forall q :: 0 < q < |p.requests| && p.requests[q].combinedWith.Some? ==> !AsksForMore(p, q)
    ensures !AssertionFails(p)
  {
    forall c | Feasible(p, c)
      ensures AssertionHolds(p, c.handedOut)
    {
      FeasibleIsPenalizable(p, c);
    }
  }

  lemma SmallMaximum(families: seq<QueueFamily>, requests: seq<QueueRequest>, q: nat)
    requires q < |requests| && 0 < requests[q].maxNumberOfQueues < 0x8000_0000
    ensures Maximum(families, requests, q) == requests[q].maxNumberOfQueues
  {
  }

  /** Both maxima are left at 0, and the larger family only supports presentation. */
  function UnequalPair(): Problem {
    ProblemOf([QueueFamily({Graphics, Presentation}, 1), QueueFamily({Presentation}, 8)],
              [QueueRequest({Graphics}, 0, 1.0, None, 1), QueueRequest({Presentation}, 0, 1.0, Some(0), 1)])
  }

  lemma UnequalPairIs()
    ensures var p := UnequalPair();
      && |p.requests| == |p.families| == 2 && p.families[0].queueCount == 1
      && 0 in p.candidates[0] && 0 in p.candidates[1]
      && p.requests[0].maxNumberOfQueues == 1 && p.requests[1].maxNumberOfQueues == 8 && p.requests[1].combinedWith == Some(0)
  {
    var families := [QueueFamily({Graphics, Presentation}, 1), QueueFamily({Presentation}, 8)];
    var graphics := QueueRequest({Graphics}, 0, 1.0, None, 1);
    var present := QueueRequest({Presentation}, 0, 1.0, Some(0), 1);
    var standIn := OnlyTransferMissing(families, [graphics, present]);
    WhoServesWhat(standIn);
    OneOrBoth(families, graphics, standIn);
    OneOrBoth(families, present, standIn);
  }

  /** A combined request can ask for more queues than the request whose queues it shares, although the source asserts otherwise. */
  lemma CombinedRequestMayAskForMore()
    ensures AssertionFails(UnequalPair())
  {
    UnequalPairIs();
    SharedQueueIsUnequal(UnequalPair());
  }

  lemma WhoServesWhat(standIn: bool)
    ensures var both, presentation := QueueFamily({Graphics, Presentation}, 1), QueueFamily({Presentation}, 8);
      var graphics, present := QueueRequest({Graphics}, 0, 1.0, None, 1), QueueRequest({Presentation}, 0, 1.0, Some(0), 1);
      && Matches(graphics, both, standIn) && !Matches(graphics, presentation, standIn)
      && Matches(present, both, standIn) && Matches(present, presentation, standIn)
  {
    assert Graphics in QueueRequest({Graphics}, 0, 1.0, None, 1).flags - QueueFamily({Presentation}, 8).flags;
  }

  lemma OneOrBoth(families: seq<QueueFamily>, request: QueueRequest, standIn: bool)
    requires |families| == 2 && Matches(request, families[0], standIn) && request.maxNumberOfQueues == 0
    requires families[0].queueCount < families[1].queueCount
    ensures 0 in Candidates(families, request, standIn, |families|)
    ensures Resolved(families, request, standIn).maxNumberOfQueues ==
      families[if Matches(request, families[1], standIn) then 1 else 0].queueCount
  {
  }

  /** The second of two requests can share the only queue of the first. */
  lemma SharedQueueIsFeasible(p: Problem)
    requires WellFormed(p) && |p.requests| == 2 && p.requests[1].combinedWith == Some(0)
    requires 0 in p.candidates[0] && 0 in p.candidates[1]
    requires p.families[0].queueCount >= 1 && p.requests[0].maxNumberOfQueues >= 1
    ensures Feasible(p, Configuration([0, 0], [1, 0]))
  {
    var handedOut: seq<nat> := [1, 0];
    var family: seq<nat> := [0, 0];
    forall f: nat
      ensures Taken(family, handedOut, f) == if f == 0 then 1 else 0
    {
      assert handedOut[..1] == [1] && handedOut[..1][..0] == [];
      assert Taken(family, handedOut[..1], f) == if f == 0 then 1 else 0;
    }
    assert MayCombine(p, family, 1);
  }

  lemma SharedQueueIsUnequal(p: Problem)
    requires WellFormed(p) && |p.requests| == 2 && p.requests[1].combinedWith == Some(0)
    requires 0 in p.candidates[0] && 0 in p.candidates[1]
    requires p.families[0].queueCount >= 1 && p.requests[0].maxNumberOfQueues >= 1 && AsksForMore(p, 1)
    ensures AssertionFails(p)
  {
    SharedQueueIsFeasible(p);
    assert !AssertionHolds(p, Configuration([0, 0], [1, 0]).handedOut);
  }
}
