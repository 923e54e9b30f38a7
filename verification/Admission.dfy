/** Why the API server admits what the policy decides: the target, split over the containers,
    satisfies every LimitRange rule its cap was built from (`internal/eligibility/eligibility.go`,
    `internal/policy/policy.go`, `internal/controller/podinput.go`). */
module Admission {
  import opened Eligibility
  import opened LimitRange
  import opened Policy
  import opened PolicyBounds
  import opened Split
  import opened SplitShares
  import opened Sums

  // ---- A pod after its resize ----

  /** The containers with the split written to them. */
  ghost function Resized(target: nat, rcs: seq<Resizable>): (after: seq<Resizable>)
    requires PodRequest(rcs) > 0
    ensures |after| == |rcs|
    ensures forall i :: 0 <= i < |rcs| ==>
      after[i] == if rcs[i].request > 0 then rcs[i].(limit := Share(target, rcs, i)) else rcs[i]
  {
    seq(|rcs|, i requires 0 <= i < |rcs| =>
      if rcs[i].request > 0 then rcs[i].(limit := Share(target, rcs, i)) else rcs[i])
  }

  ghost predicate SameButLimits(rcs: seq<Resizable>, after: seq<Resizable>) {
    && |after| == |rcs|
    && forall i :: 0 <= i < |rcs| ==>
         && after[i].name == rcs[i].name && after[i].request == rcs[i].request
         && (rcs[i].request <= 0 ==> after[i].limit == rcs[i].limit)
  }

  /** Nothing but the limits of containers that request CPU moves. */
  lemma {:induction false} LimitsAloneMove(rcs: seq<Resizable>, after: seq<Resizable>)
    requires SameButLimits(rcs, after)
    ensures PodRequest(after) == PodRequest(rcs)
    ensures LargestRequest(after) == LargestRequest(rcs)
    ensures Untouched(after) == Untouched(rcs)
  {
    if rcs != [] {
      LimitsAloneMove(rcs[..|rcs| - 1], after[..|after| - 1]);
    }
  }

  lemma {:induction false} SumLimitsIsSum(rcs: seq<Resizable>, limits: seq<int>)
    requires |limits| == |rcs|
    requires forall i :: 0 <= i < |rcs| ==> limits[i] == if rcs[i].request > 0 then rcs[i].limit else 0
    ensures SumLimits(rcs) == Sum(limits)
  {
    if rcs != [] {
      SumLimitsIsSum(rcs[..|rcs| - 1], limits[..|rcs| - 1]);
    }
  }

  function Limits(rcs: seq<Resizable>): (s: seq<int>)
    ensures |s| == |rcs| && forall i :: 0 <= i < |rcs| ==> s[i] == rcs[i].limit
  {
    seq(|rcs|, i requires 0 <= i < |rcs| => rcs[i].limit)
  }

  /** The limits a resize leaves alone: those of the containers that request no CPU. */
  function KeptLimits(rcs: seq<Resizable>): (s: seq<int>)
    ensures |s| == |rcs|
    ensures forall i :: 0 <= i < |rcs| ==> s[i] == if rcs[i].request <= 0 then rcs[i].limit else 0
  {
    seq(|rcs|, i requires 0 <= i < |rcs| => if rcs[i].request <= 0 then rcs[i].limit else 0)
  }

  lemma {:induction false} UntouchedIsKept(rcs: seq<Resizable>)
    ensures Untouched(rcs) == Sum(KeptLimits(rcs))
  {
    if rcs != [] {
      UntouchedIsKept(rcs[..|rcs| - 1]);
      assert KeptLimits(rcs)[..|rcs| - 1] == KeptLimits(rcs[..|rcs| - 1]);
    }
  }

  lemma {:induction false} LimitsInParts(rcs: seq<Resizable>)
    ensures Sum(Limits(rcs)) == SumLimits(rcs) + Untouched(rcs)
  {
    if rcs != [] {
      LimitsInParts(rcs[..|rcs| - 1]);
      assert Limits(rcs)[..|rcs| - 1] == Limits(rcs[..|rcs| - 1]);
    }
  }

  /** All the limits of the pod after a resize, whoever they belong to: the target, and what the
      containers that request no CPU had. */
  lemma {:induction false} WrittenLimitsSum(target: nat, rcs: seq<Resizable>)
    requires RequestsValid(rcs) && 0 < PodRequest(rcs) <= target
    ensures Sum(Limits(Resized(target, rcs))) == target + Sum(KeptLimits(rcs))
  {
    ResizeReadsBack(target, rcs);
    LimitsAloneMove(rcs, Resized(target, rcs));
    LimitsInParts(Resized(target, rcs));
    UntouchedIsKept(rcs);
  }

  lemma SharesOfNothing(target: nat, rcs: seq<Resizable>)
    requires RequestsValid(rcs) && 0 < PodRequest(rcs) <= target
    ensures forall i :: 0 <= i < |rcs| && rcs[i].request <= 0 ==> Share(target, rcs, i) == 0
    ensures forall i :: 0 <= i < |rcs| ==> Share(target, rcs, i) >= rcs[i].request
  {
    forall i | 0 <= i < |rcs|
      ensures Share(target, rcs, i) >= rcs[i].request && (rcs[i].request <= 0 ==> Share(target, rcs, i) == 0)
    {
      ShareIsProRata(target, rcs, i);
    }
  }

  /** Reading the written limits back gives the target: a resize round-trips. */
  lemma {:induction false} ResizeReadsBack(target: nat, rcs: seq<Resizable>)
    requires RequestsValid(rcs) && 0 < PodRequest(rcs) <= target
    ensures SameButLimits(rcs, Resized(target, rcs))
    ensures SumLimits(Resized(target, rcs)) == target
    ensures PodCurrentLimit(Resized(target, rcs)) == target
  {
    var after := Resized(target, rcs);
    SharesOfNothing(target, rcs);
    SharesSumToTarget(target, rcs);
    SumLimitsIsSum(after, Shares(target, rcs));
    forall c | c in after && c.request > 0 ensures c.limit > 0 {
      var i :| 0 <= i < |after| && after[i] == c;
      assert Share(target, rcs, i) >= rcs[i].request;
    }
  }

  // ---- The rules ----

  /** A LimitRange item's rules over the limits a pod would carry. A ratio is exceeded where
      limit/request is more than ratio/1000. A pod rule counts every container's limit. A container
      rule is asked here of the containers a resize writes to, those that request CPU. The API server
      asks it of the others as well, whose limits a resize leaves as they are. */
  ghost predicate Admits(item: LimitItem, after: seq<Resizable>, podRequest: int) {
    match item.kind
    case ContainerType =>
      forall c :: c in after && c.request > 0 ==>
        && (item.max.Some? ==> c.limit <= item.max.value)
        && (item.ratio.Some? ==> 1000 * c.limit <= item.ratio.value * c.request)
    case PodType =>
      var limits := Sum(Limits(after));
      && (item.max.Some? ==> limits <= item.max.value)
      && (item.ratio.Some? ==> 1000 * limits <= item.ratio.value * podRequest)
    case OtherType => true
  }

  /** The ratio rules as the API server's floating-point comparison reads them. */
  ghost predicate ReadsAsAdmitted(item: LimitItem, after: seq<Resizable>, podRequest: int, past: Past) {
    item.ratio.Some? ==>
      match item.kind
      case ContainerType => forall c :: c in after && c.request > 0 ==> !past(c.limit, c.request, item.ratio.value)
      case PodType => !past(Sum(Limits(after)), podRequest, item.ratio.value)
      case OtherType => true
  }

  /** A comparison that, up to a limit of `most`, is off by less than one: it never refuses a limit
      whose successor meets the ratio exactly. */
  ghost predicate OffByLessThanOne(past: Past, most: int) {
    forall limit, request, ratio ::
      0 < limit <= most && request > 0 && 1000 * (limit + 1) <= ratio * request ==> !past(limit, request, ratio)
  }

  /** LimitRanger's comparison without rounding: whether limit/request*1000 is more than the ratio. */
  function ExactPast(limit: int, request: int, ratio: int): bool {
    request != 0 && limit as real / request as real * 1000.0 > ratio as real
  }

  /** A comparison whose quotient is at most a part `error` of itself too high. */
  ghost predicate QuotientWithin(past: Past, error: real) {
    forall limit, request, ratio :: limit > 0 && request > 0 && past(limit, request, ratio) ==>
      1000.0 * limit as real * (1.0 + error) > ratio as real * request as real
  }

  lemma ExactQuotient(limit: int, request: int, ratio: int)
    requires request > 0
    ensures ExactPast(limit, request, ratio) <==> 1000 * limit > ratio * request
  {
    var q, r := limit as real / request as real, request as real;
    assert q * r == limit as real;
    if q * 1000.0 > ratio as real {
      RealScaleLess(r, ratio as real, q * 1000.0);
    } else {
      RealScale(r, q * 1000.0, ratio as real);
    }
    assert r * (q * 1000.0) == 1000.0 * (q * r);
    assert (1000 * limit) as real == 1000.0 * limit as real && (ratio * request) as real == ratio as real * r;
  }

  /** What rounding it takes: a quotient that is no more than one part in `most` too high is off by less
      than one up to `most`. The exact one is, however far. */
  lemma {:induction false} SmallErrorQualifies(past: Past, error: real, most: int)
    requires error >= 0.0 && error * most as real <= 1.0 && QuotientWithin(past, error)
    ensures OffByLessThanOne(past, most)
  {
    forall limit, request, ratio | 0 < limit <= most && request > 0 && 1000 * (limit + 1) <= ratio * request
      ensures !past(limit, request, ratio)
    {
      OneMoreCovers(error, limit as real, most as real);
      assert (1000 * (limit + 1)) as real <= (ratio * request) as real;
    }
  }

  lemma OneMoreCovers(error: real, limit: real, most: real)
    requires error >= 0.0 && error * most <= 1.0 && limit <= most
    ensures 1000.0 * limit * (1.0 + error) <= 1000.0 * (limit + 1.0)
  {
    RealScale(error, limit, most);
    var excess := error * limit;
    assert excess <= 1.0;
    assert limit * (1.0 + error) == limit + excess;
    assert 1000.0 * limit * (1.0 + error) == 1000.0 * (limit * (1.0 + error));
  }

  lemma {:induction false} ExactPastQualifies(most: int)
    ensures OffByLessThanOne(ExactPast, most)
  {
    forall limit, request, ratio | limit > 0 && request > 0 && ExactPast(limit, request, ratio)
      ensures 1000.0 * limit as real * (1.0 + 0.0) > ratio as real * request as real
    {
      ExactQuotient(limit, request, ratio);
      assert (1000 * limit) as real > (ratio * request) as real;
    }
    SmallErrorQualifies(ExactPast, 0.0, most);
  }

  /** The bound past int64 plays no part for a limit: the product fits, or is far past the limit. */
  predicate FarFromInt64(limit: int, ratio: int, request: int) {
    ratio * request < INT64_MAX || 1000 * (limit + 1) <= ratio * request
  }

  /** A limit no higher than `ratioLimitMilli` meets the ratio, exactly and as read. */
  lemma {:induction false} RatioLimitIsSound(limit: int, ratio: int, request: int, past: Past)
    requires 0 < limit <= RatioLimit(ratio, request, past) && FarFromInt64(limit, ratio, request)
    ensures 1000 * limit <= ratio * request
    ensures OffByLessThanOne(past, limit) && request > 0 ==> !past(limit, request, ratio)
  {
    var product := ratio * request;
    if product < INT64_MAX {
      var whole := TruncDiv(product, 1000);
      assert product >= 0;
      assert 1000 * whole <= product;
      if limit < whole {
        assert 1000 * (limit + 1) <= ratio * request;
      }
    }
  }

  /** Every limit that `ratioLimitMilli` lets through meets the ratio. */
  ghost predicate LetsThroughOnlyMet(ratio: int, request: int, past: Past) {
    forall limit :: 0 < limit <= RatioLimit(ratio, request, past) ==> 1000 * limit <= ratio * request
  }

  /** `ratioLimitMilli` bounds limits exactly unless the product is past int64 and less than a
      thousand times past it. There the branch that stands in for it lets a limit through that the
      ratio refuses. */
  lemma {:induction false} RatioLimitIsExact(ratio: int, request: int, past: Past)
    ensures LetsThroughOnlyMet(ratio, request, past) <==>
      ratio * request < INT64_MAX || 1000 * INT64_MAX <= ratio * request
  {
    var product := ratio * request;
    if product < INT64_MAX {
      forall limit | 0 < limit <= RatioLimit(ratio, request, past) ensures 1000 * limit <= ratio * request {
        RatioLimitIsSound(limit, ratio, request, past);
      }
    } else {
      assert RatioLimit(ratio, request, past) == INT64_MAX;
    }
  }

  /** A limit past `ratioLimitMilli` breaks the ratio, or reads as past it. */
  lemma {:induction false} PastRatioLimit(limit: int, ratio: int, request: int, past: Past)
    requires RatioLimit(ratio, request, past) < limit <= INT64_MAX
    ensures 1000 * limit > ratio * request || past(limit, request, ratio)
  {
    var product := ratio * request;
    var whole := TruncDiv(product, 1000);
    assert product < 1000 * (whole + 1);
  }

  // ---- One item at a time ----

  lemma SharesFit(target: nat, rcs: seq<Resizable>, i: nat, limit: int)
    requires RequestsValid(rcs) && 0 < PodRequest(rcs) <= target && i < |rcs|
    requires ShareFits(target, rcs[i].request, limit, PodRequest(rcs))
    ensures Share(target, rcs, i) <= limit
  {
    ShareAtMost(target, rcs, i, limit);
  }

  lemma SmallerShareFits(target: nat, request: int, largest: int, max: int, total: int)
    requires request <= largest && ShareFits(target, largest, max, total)
    ensures ShareFits(target, request, max, total)
  {
    Scale(target, request, largest);
  }

  /** No ratio rule of the item has a product past int64 that a pod total or a share comes near. */
  ghost predicate ItemIsFarFromInt64(t: int, item: LimitItem, rcs: seq<Resizable>, podRequest: int) {
    item.ratio.Some? ==>
      match item.kind
      case ContainerType => forall c :: c in rcs && c.request > 0 ==> FarFromInt64(t, item.ratio.value, c.request)
      case PodType => FarFromInt64(t + Untouched(rcs), item.ratio.value, podRequest)
      case OtherType => true
  }

  ghost predicate AllFarFromInt64(t: int, rcs: seq<Resizable>, podRequest: int, limitRanges: seq<seq<LimitItem>>) {
    forall item :: item in Items(limitRanges) ==> ItemIsFarFromInt64(t, item, rcs, podRequest)
  }

  /** An item that allows a pod total admits the split of that total. */
  lemma AllowedIsAdmitted(target: nat, item: LimitItem, rcs: seq<Resizable>, podRequest: int, past: Past)
    requires RequestsValid(rcs) && 0 < PodRequest(rcs) <= target
    requires Untouched(rcs) >= 0 && ItemIsFarFromInt64(target, item, rcs, podRequest)
    requires ItemAllows(target, item, rcs, podRequest, past)
    ensures Admits(item, Resized(target, rcs), podRequest)
    ensures podRequest > 0 && OffByLessThanOne(past, target + Untouched(rcs)) ==>
      ReadsAsAdmitted(item, Resized(target, rcs), podRequest, past)
  {
    if item.kind.ContainerType? {
      ContainersAreAdmitted(target, item, rcs, podRequest, past);
    } else if item.kind.PodType? {
      PodIsAdmitted(target, item, rcs, podRequest, past);
    }
  }

  lemma PodIsAdmitted(target: nat, item: LimitItem, rcs: seq<Resizable>, podRequest: int, past: Past)
    requires RequestsValid(rcs) && 0 < PodRequest(rcs) <= target
    requires Untouched(rcs) >= 0 && ItemIsFarFromInt64(target, item, rcs, podRequest)
    requires item.kind == PodType && ItemAllows(target, item, rcs, podRequest, past)
    ensures Admits(item, Resized(target, rcs), podRequest)
    ensures podRequest > 0 && OffByLessThanOne(past, target + Untouched(rcs)) ==>
      ReadsAsAdmitted(item, Resized(target, rcs), podRequest, past)
  {
    WrittenLimitsSum(target, rcs);
    UntouchedIsKept(rcs);
    if item.ratio.Some? {
      RatioLimitIsSound(target + Untouched(rcs), item.ratio.value, podRequest, past);
    }
  }

  lemma ContainersAreAdmitted(target: nat, item: LimitItem, rcs: seq<Resizable>, podRequest: int, past: Past)
    requires RequestsValid(rcs) && 0 < PodRequest(rcs) <= target
    requires Untouched(rcs) >= 0 && ItemIsFarFromInt64(target, item, rcs, podRequest)
    requires item.kind == ContainerType && ItemAllows(target, item, rcs, podRequest, past)
    ensures Admits(item, Resized(target, rcs), podRequest)
    ensures podRequest > 0 && OffByLessThanOne(past, target + Untouched(rcs)) ==>
      ReadsAsAdmitted(item, Resized(target, rcs), podRequest, past)
  {
    var after := Resized(target, rcs);
    forall c | c in after && c.request > 0
      ensures item.max.Some? ==> c.limit <= item.max.value
      ensures item.ratio.Some? ==> 1000 * c.limit <= item.ratio.value * c.request
      ensures item.ratio.Some? && OffByLessThanOne(past, target + Untouched(rcs)) ==>
        !past(c.limit, c.request, item.ratio.value)
    {
      var i :| 0 <= i < |after| && after[i] == c;
      ContainerIsAdmitted(target, item, rcs, i, podRequest, past);
    }
  }

  lemma {:induction false} ShareMeetsMax(target: nat, max: int, rcs: seq<Resizable>, i: nat)
    requires RequestsValid(rcs) && 0 < PodRequest(rcs) <= target && i < |rcs|
    requires ShareFits(target, LargestRequest(rcs), max, PodRequest(rcs))
    ensures Share(target, rcs, i) <= max
  {
    LargestRequestHolds(rcs);
    SmallerShareFits(target, rcs[i].request, LargestRequest(rcs), max, PodRequest(rcs));
    SharesFit(target, rcs, i, max);
  }

  lemma {:induction false} ShareMeetsRatio(target: nat, ratio: int, rcs: seq<Resizable>, i: nat, past: Past)
    requires RequestsValid(rcs) && 0 < PodRequest(rcs) <= target && i < |rcs| && rcs[i].request > 0
    requires FarFromInt64(target, ratio, rcs[i].request)
    requires ShareFits(target, rcs[i].request, RatioLimit(ratio, rcs[i].request, past), PodRequest(rcs))
    ensures 1000 * Share(target, rcs, i) <= ratio * rcs[i].request
    ensures OffByLessThanOne(past, target) ==> !past(Share(target, rcs, i), rcs[i].request, ratio)
  {
    SharesFit(target, rcs, i, RatioLimit(ratio, rcs[i].request, past));
    ShareIsProRata(target, rcs, i);
    ShareWithinTarget(target, rcs, i);
    RatioOfSmaller(Share(target, rcs, i), target, ratio, rcs[i].request, past);
  }

  lemma {:induction false} RatioOfSmaller(limit: int, most: int, ratio: int, request: int, past: Past)
    requires 0 < limit <= most && limit <= RatioLimit(ratio, request, past) && FarFromInt64(most, ratio, request)
    ensures 1000 * limit <= ratio * request
    ensures OffByLessThanOne(past, most) && request > 0 ==> !past(limit, request, ratio)
  {
    RatioLimitIsSound(limit, ratio, request, past);
  }

  lemma {:induction false} ContainerIsAdmitted(target: nat, item: LimitItem, rcs: seq<Resizable>, i: nat,
                                               podRequest: int, past: Past)
    requires RequestsValid(rcs) && 0 < PodRequest(rcs) <= target && i < |rcs| && rcs[i].request > 0
    requires Untouched(rcs) >= 0 && ItemIsFarFromInt64(target, item, rcs, podRequest)
    requires item.kind == ContainerType && ItemAllows(target, item, rcs, podRequest, past)
    ensures var share := Share(target, rcs, i);
      && (item.max.Some? ==> share <= item.max.value)
      && (item.ratio.Some? ==> 1000 * share <= item.ratio.value * rcs[i].request)
      && (item.ratio.Some? && OffByLessThanOne(past, target + Untouched(rcs)) ==>
          !past(share, rcs[i].request, item.ratio.value))
  {
    if item.max.Some? {
      ShareMeetsMax(target, item.max.value, rcs, i);
    }
    if item.ratio.Some? {
      assert rcs[i] in rcs;
      ShareMeetsRatio(target, item.ratio.value, rcs, i, past);
    }
  }

  /** No share exceeds the whole target. */
  lemma ShareWithinTarget(target: nat, rcs: seq<Resizable>, i: nat)
    requires RequestsValid(rcs) && 0 < PodRequest(rcs) <= target && i < |rcs|
    ensures Share(target, rcs, i) <= target
  {
    PodRequestSigns(rcs);
    assert rcs[i] in rcs;
    Scale(target, rcs[i].request, PodRequest(rcs));
    ShareAtMost(target, rcs, i, target);
  }

  // ---- End to end ----

  /** A target under a cap that leaves room, split over the containers, satisfies every rule the cap
      was built from. So does any target where the LimitRanges set no cap. */
  lemma {:induction false} UnderCapIsAdmitted(target: nat, rcs: seq<Resizable>, podRequest: int,
                                              limitRanges: seq<seq<LimitItem>>, past: Past)
    requires RequestsValid(rcs) && 0 < PodRequest(rcs) <= target
    requires Untouched(rcs) >= 0 && target <= INT64_MAX && AllFarFromInt64(target, rcs, podRequest, limitRanges)
    requires var cap := LimitRangeCap(rcs, podRequest, limitRanges, past); cap == 0 || (cap > 1 && target <= cap)
    ensures forall item :: item in Items(limitRanges) ==> Admits(item, Resized(target, rcs), podRequest)
    ensures podRequest > 0 && OffByLessThanOne(past, target + Untouched(rcs)) ==>
      forall item :: item in Items(limitRanges) ==> ReadsAsAdmitted(item, Resized(target, rcs), podRequest, past)
  {
    CapIsExact(target, rcs, podRequest, limitRanges, past);
    forall item | item in Items(limitRanges)
      ensures Admits(item, Resized(target, rcs), podRequest)
      ensures podRequest > 0 && OffByLessThanOne(past, target + Untouched(rcs)) ==>
        ReadsAsAdmitted(item, Resized(target, rcs), podRequest, past)
    {
      AllowedIsAdmitted(target, item, rcs, podRequest, past);
    }
  }

  /** A cap at the request leaves a pod that needs no lift its request. */
  lemma CapAtRequest(p: PodInput, s: NodeStats, cfg: Config)
    requires s.managedRequests > 0 ==> s.managedPods > 0
    requires 0 < p.limitRangeCap == p.request && !p.aboveRequest
    ensures Decide(p, s, cfg).target == p.request
  {
    TargetBounds(p, s, cfg);
  }

  /** Whatever the node, the user's cap, the configuration and the QoS lift make of it, the target
      decided for a pod whose LimitRanges leave room above its request splits into limits that
      satisfy every container maximum, container ratio, pod maximum and pod ratio. So does the request
      itself, where they leave room for it alone and the pod needs no lift. */
  lemma {:induction false} DecidedTargetIsAdmitted(p: PodInput, s: NodeStats, cfg: Config, rcs: seq<Resizable>,
                                                   podRequest: int, limitRanges: seq<seq<LimitItem>>, past: Past)
    requires s.managedRequests > 0 ==> s.managedPods > 0
    requires RequestsValid(rcs) && p.request == PodRequest(rcs) > 0
    requires p.limitRangeCap == LimitRangeCap(rcs, podRequest, limitRanges, past)
    requires || p.limitRangeCap == 0 || p.limitRangeCap > p.request
             || (1 < p.limitRangeCap == p.request && !p.aboveRequest)
    requires Untouched(rcs) >= 0 && Decide(p, s, cfg).target <= INT64_MAX
    requires AllFarFromInt64(Decide(p, s, cfg).target, rcs, podRequest, limitRanges)
    ensures Decide(p, s, cfg).target >= 0
    ensures forall item :: item in Items(limitRanges) ==>
      Admits(item, Resized(Decide(p, s, cfg).target, rcs), podRequest)
    ensures podRequest > 0 && OffByLessThanOne(past, Decide(p, s, cfg).target + Untouched(rcs)) ==>
      forall item :: item in Items(limitRanges) ==>
      ReadsAsAdmitted(item, Resized(Decide(p, s, cfg).target, rcs), podRequest, past)
  {
    TargetBounds(p, s, cfg);
    if 0 < p.limitRangeCap == p.request {
      CapAtRequest(p, s, cfg);
    }
    UnderCapIsAdmitted(Decide(p, s, cfg).target, rcs, podRequest, limitRanges, past);
  }

  ghost predicate HasRatio(limitRanges: seq<seq<LimitItem>>) {
    exists item :: item in Items(limitRanges) && item.ratio.Some?
  }

  /** Where a cap is below the request, some rule refuses every target at or above the request, exactly
      or as read: no resize can satisfy that LimitRange. */
  lemma {:induction false} NoRoomMeansRefused(target: nat, rcs: seq<Resizable>, podRequest: int,
                                              limitRanges: seq<seq<LimitItem>>, past: Past)
    requires RequestsValid(rcs) && 0 < PodRequest(rcs) <= target && PodRequest(rcs) <= INT64_MAX
    requires HasRatio(limitRanges) ==> Untouched(rcs) >= 0 && target + Untouched(rcs) <= INT64_MAX
    requires 0 < LimitRangeCap(rcs, podRequest, limitRanges, past) < PodRequest(rcs)
    ensures exists item :: item in Items(limitRanges) && Refuses(item, Resized(target, rcs), podRequest, past)
  {
    CapIsExact(PodRequest(rcs), rcs, podRequest, limitRanges, past);
    var item :| item in Items(limitRanges) && !ItemAllows(PodRequest(rcs), item, rcs, podRequest, past);
    DisallowedIsRefused(target, item, rcs, podRequest, past);
  }

  ghost predicate Refuses(item: LimitItem, after: seq<Resizable>, podRequest: int, past: Past) {
    !(Admits(item, after, podRequest) && ReadsAsAdmitted(item, after, podRequest, past))
  }

  /** An item that leaves no room for the request refuses whatever is no less. */
  lemma {:induction false} DisallowedIsRefused(target: nat, item: LimitItem, rcs: seq<Resizable>, podRequest: int,
                                               past: Past)
    requires RequestsValid(rcs) && 0 < PodRequest(rcs) <= target
    requires item.ratio.Some? ==> Untouched(rcs) >= 0 && target + Untouched(rcs) <= INT64_MAX
    requires !ItemAllows(PodRequest(rcs), item, rcs, podRequest, past)
    ensures Refuses(item, Resized(target, rcs), podRequest, past)
  {
    if item.kind.PodType? {
      WrittenLimitsSum(target, rcs);
      UntouchedIsKept(rcs);
      if item.ratio.Some? && PodRequest(rcs) + Untouched(rcs) > RatioLimit(item.ratio.value, podRequest, past) {
        PastRatioLimit(target + Untouched(rcs), item.ratio.value, podRequest, past);
      }
    } else if item.max.Some? && !ShareFits(PodRequest(rcs), LargestRequest(rcs), item.max.value, PodRequest(rcs)) {
      MaxBelowRequest(target, item, rcs, podRequest);
    } else {
      RatioBelowRequest(target, item, rcs, podRequest, past);
    }
  }

  lemma {:induction false} MaxBelowRequest(target: nat, item: LimitItem, rcs: seq<Resizable>, podRequest: int)
    requires RequestsValid(rcs) && 0 < PodRequest(rcs) <= target && item.kind == ContainerType && item.max.Some?
    requires !ShareFits(PodRequest(rcs), LargestRequest(rcs), item.max.value, PodRequest(rcs))
    ensures !Admits(item, Resized(target, rcs), podRequest)
  {
    if item.max.value >= LargestRequest(rcs) {
      Scale(PodRequest(rcs), LargestRequest(rcs), item.max.value);
    }
    LargestRequestHolds(rcs);
    var i := WhereLargest(rcs);
    ShareIsProRata(target, rcs, i);
    assert Resized(target, rcs)[i] in Resized(target, rcs);
  }

  lemma {:induction false} RatioBelowRequest(target: nat, item: LimitItem, rcs: seq<Resizable>, podRequest: int,
                                             past: Past)
    requires RequestsValid(rcs) && 0 < PodRequest(rcs) <= target <= INT64_MAX
    requires item.kind == ContainerType && item.ratio.Some?
    requires !RatioAllows(PodRequest(rcs), rcs, item.ratio.value, PodRequest(rcs), past)
    ensures Refuses(item, Resized(target, rcs), podRequest, past)
  {
    var total := PodRequest(rcs);
    var c :| c in rcs && c.request > 0
             && !ShareFits(total, c.request, RatioLimit(item.ratio.value, c.request, past), total);
    var limit := RatioLimit(item.ratio.value, c.request, past);
    if limit >= c.request {
      Scale(total, c.request, limit);
    }
    var i :| 0 <= i < |rcs| && rcs[i] == c;
    ShareIsProRata(target, rcs, i);
    ShareWithinTarget(target, rcs, i);
    PastRatioLimit(Share(target, rcs, i), item.ratio.value, c.request, past);
    var written := Resized(target, rcs)[i];
    assert written in Resized(target, rcs) && written.request == c.request && written.limit == Share(target, rcs, i);
  }

  lemma {:induction false} WhereLargest(rcs: seq<Resizable>) returns (i: nat)
    requires LargestRequest(rcs) > 0
    ensures i < |rcs| && rcs[i].request == LargestRequest(rcs)
  {
    i := |rcs| - 1;
    if rcs[i].request != LargestRequest(rcs) {
      i := WhereLargest(rcs[..i]);
    }
  }
}
