/** A namespace's LimitRanges restated as one cap on a pod's target
    (`internal/eligibility/eligibility.go`, `LimitRangeCapMilli`). */
module LimitRange {
  import opened Eligibility
  import opened Options
  import opened Policy
  import opened Sums

  datatype LimitType = ContainerType | PodType | OtherType

  /** One item of a LimitRange, its CPU bounds in milli-units. */
  datatype LimitItem = LimitItem(kind: LimitType, max: Option<int>, ratio: Option<int>)

  /** A running minimum that starts at infinity. */
  datatype Bound = Unbounded | AtMost(r: real)

  const INT64_MAX := 0x7fff_ffff_ffff_ffff

  /** The API server's floating-point ratio comparison: whether a limit reads as past the ratio of a
      request. It is not modelled; every result holds whatever it answers. */
  type Past = (int, int, int) -> bool

  function Tighter(b: Bound, x: real): Bound {
    if b.Unbounded? || x < b.r then AtMost(x) else b
  }

  function TighterBound(b: Bound, c: Bound): Bound {
    if c.Unbounded? then b else Tighter(b, c.r)
  }

  function Trunc(x: real): int {
    if x >= 0.0 then x.Floor else -((-x).Floor)
  }

  /** The largest limit a ratio admits for a request. */
  function RatioLimit(ratio: int, request: int, past: Past): int {
    if ratio * request >= INT64_MAX then INT64_MAX
    else
      var limit := TruncDiv(ratio * request, 1000);
      if past(limit, request, ratio) then limit - 1 else limit
  }

  function LargestRequest(rcs: seq<Resizable>): int {
    if rcs == [] then 0 else Max(LargestRequest(rcs[..|rcs| - 1]), rcs[|rcs| - 1].request)
  }

  /** The limits of request-less containers, which Headroom leaves alone. */
  function Untouched(rcs: seq<Resizable>): int {
    if rcs == [] then 0
    else
      var last := rcs[|rcs| - 1];
      Untouched(rcs[..|rcs| - 1]) + (if last.request <= 0 then last.limit else 0)
  }

  /** A container ratio as a pod total: the container it leaves least room for decides. */
  function ContainerRatioCap(rcs: seq<Resizable>, ratio: int, total: int, past: Past): Bound {
    if rcs == [] then Unbounded
    else
      var front, last := ContainerRatioCap(rcs[..|rcs| - 1], ratio, total, past), rcs[|rcs| - 1];
      if last.request > 0
      then Tighter(front, ShareCap(RatioLimit(ratio, last.request, past), total, last.request))
      else front
  }

  /** A limit on a container that asks for `request`, as a pod total. */
  function ShareCap(limit: int, total: int, request: int): real
    requires request > 0
  {
    limit as real * total as real / request as real
  }

  /** A per-container maximum binds through the largest request. */
  function TightenMax(limit: Bound, max: Option<int>, rcs: seq<Resizable>): Bound
    requires LargestRequest(rcs) > 0
  {
    if max.Some? then Tighter(limit, ShareCap(max.value, PodRequest(rcs), LargestRequest(rcs))) else limit
  }

  function TightenRatio(limit: Bound, ratio: Option<int>, rcs: seq<Resizable>, past: Past): Bound {
    if ratio.Some? then TighterBound(limit, ContainerRatioCap(rcs, ratio.value, PodRequest(rcs), past)) else limit
  }

  /** A per-pod rule also counts the limits that are left alone. */
  function TightenPod(limit: Bound, item: LimitItem, untouched: int, podRequest: int, past: Past): Bound {
    var byMax := if item.max.Some? then Tighter(limit, (item.max.value - untouched) as real) else limit;
    if item.ratio.Some? then Tighter(byMax, (RatioLimit(item.ratio.value, podRequest, past) - untouched) as real)
    else byMax
  }

  /** What one item adds to the running minimum. */
  function Tighten(limit: Bound, item: LimitItem, rcs: seq<Resizable>, podRequest: int, past: Past): Bound
    requires LargestRequest(rcs) > 0
  {
    match item.kind
    case ContainerType => TightenRatio(TightenMax(limit, item.max, rcs), item.ratio, rcs, past)
    case PodType => TightenPod(limit, item, Untouched(rcs), podRequest, past)
    case OtherType => limit
  }

  function TightenAll(items: seq<LimitItem>, rcs: seq<Resizable>, podRequest: int, past: Past): Bound
    requires LargestRequest(rcs) > 0
  {
    if items == [] then Unbounded
    else Tighten(TightenAll(items[..|items| - 1], rcs, podRequest, past), items[|items| - 1], rcs, podRequest, past)
  }

  function Items(limitRanges: seq<seq<LimitItem>>): seq<LimitItem> {
    if limitRanges == [] then [] else Items(limitRanges[..|limitRanges| - 1]) + limitRanges[|limitRanges| - 1]
  }

  /** A cap as the policy takes it: 0 for none, and never below 1 once there is one. */
  function AsCap(limit: Bound): int {
    if limit.Unbounded? || limit.r >= INT64_MAX as real then 0 else Max(Trunc(limit.r), 1)
  }

  function LimitRangeCap(rcs: seq<Resizable>, podRequest: int, limitRanges: seq<seq<LimitItem>>, past: Past): int {
    if PodRequest(rcs) <= 0 || limitRanges == [] || LargestRequest(rcs) <= 0 then 0
    else AsCap(TightenAll(Items(limitRanges), rcs, podRequest, past))
  }

  lemma {:induction false} LargestRequestHolds(rcs: seq<Resizable>)
    ensures LargestRequest(rcs) >= 0
    ensures forall c :: c in rcs ==> c.request <= LargestRequest(rcs)
    ensures PodRequest(rcs) > 0 ==> LargestRequest(rcs) > 0
  {
    if rcs != [] {
      var front, last := rcs[..|rcs| - 1], rcs[|rcs| - 1];
      assert rcs == front + [last];
      LargestRequestHolds(front);
    }
  }

  // ---- The cap as computed ----

  method ComputeContainerRatioCap(rcs: seq<Resizable>, ratio: int, total: int, past: Past) returns (limit: Bound)
    ensures limit == ContainerRatioCap(rcs, ratio, total, past)
  {
    limit := Unbounded;
    for i := 0 to |rcs|
      invariant limit == ContainerRatioCap(rcs[..i], ratio, total, past)
    {
      assert rcs[..i + 1][..i] == rcs[..i];
      var c := rcs[i];
      if c.request > 0 {
        limit := Tighter(limit, ShareCap(RatioLimit(ratio, c.request, past), total, c.request));
      }
    }
    assert rcs[..|rcs|] == rcs;
  }

  method SumContainers(rcs: seq<Resizable>) returns (total: int, largest: int, untouched: int)
    ensures total == PodRequest(rcs) && largest == LargestRequest(rcs) && untouched == Untouched(rcs)
  {
    total, largest, untouched := 0, 0, 0;
    for i := 0 to |rcs|
      invariant total == PodRequest(rcs[..i]) && largest == LargestRequest(rcs[..i]) && untouched == Untouched(rcs[..i])
    {
      assert rcs[..i + 1][..i] == rcs[..i];
      var c := rcs[i];
      total := total + c.request;
      largest := Max(largest, c.request);
      if c.request <= 0 {
        untouched := untouched + c.limit;
      }
    }
    assert rcs[..|rcs|] == rcs;
  }

  /** One turn of the inner loop of `LimitRangeCapMilli`. */
  method ApplyItem(before: Bound, item: LimitItem, rcs: seq<Resizable>, total: int, largest: int, untouched: int,
                   podRequest: int, past: Past)
    returns (limit: Bound)
    requires total == PodRequest(rcs) && largest == LargestRequest(rcs) > 0 && untouched == Untouched(rcs)
    ensures limit == Tighten(before, item, rcs, podRequest, past)
  {
    limit := before;
    match item.kind {
      case ContainerType =>
        if item.max.Some? {
          limit := Tighter(limit, ShareCap(item.max.value, total, largest));
        }
        if item.ratio.Some? {
          var ratioCap := ComputeContainerRatioCap(rcs, item.ratio.value, total, past);
          limit := TighterBound(limit, ratioCap);
        }
      case PodType =>
        if item.max.Some? {
          limit := Tighter(limit, (item.max.value - untouched) as real);
        }
        if item.ratio.Some? {
          limit := Tighter(limit, (RatioLimit(item.ratio.value, podRequest, past) - untouched) as real);
        }
      case OtherType =>
    }
  }

  /** `LimitRangeCapMilli`. */
  method ComputeLimitRangeCap(rcs: seq<Resizable>, podRequest: int, limitRanges: seq<seq<LimitItem>>, past: Past)
    returns (cap: int)
    ensures cap == LimitRangeCap(rcs, podRequest, limitRanges, past)
  {
    var total, largest, untouched := SumContainers(rcs);
    if total <= 0 || |limitRanges| == 0 {
      return 0;
    }
    LargestRequestHolds(rcs);
    var limit := Unbounded;
    for i := 0 to |limitRanges|
      invariant limit == TightenAll(Items(limitRanges[..i]), rcs, podRequest, past)
    {
      var items := limitRanges[i];
      ghost var before := Items(limitRanges[..i]);
      assert limitRanges[..i + 1][..i] == limitRanges[..i];
      assert before + items[..0] == before;
      for j := 0 to |items|
        invariant limit == TightenAll(before + items[..j], rcs, podRequest, past)
      {
        assert (before + items[..j + 1])[..|before| + j] == before + items[..j];
        limit := ApplyItem(limit, items[j], rcs, total, largest, untouched, podRequest, past);
      }
      assert items[..|items|] == items;
    }
    assert limitRanges[..|limitRanges|] == limitRanges;
    if limit.Unbounded? || limit.r >= INT64_MAX as real {
      return 0;
    }
    return Max(Trunc(limit.r), 1);
  }

  // ---- What staying under the cap means ----

  ghost predicate Within(t: int, b: Bound) {
    b.AtMost? ==> t as real <= b.r
  }

  /** A container's share of a pod total fits a limit of its own, without division. */
  ghost predicate ShareFits(t: int, request: int, limit: int, total: int) {
    t * request <= limit * total
  }

  /** What one item asks of a pod total. */
  ghost predicate ItemAllows(t: int, item: LimitItem, rcs: seq<Resizable>, podRequest: int, past: Past) {
    match item.kind
    case ContainerType =>
      && (item.max.Some? ==> ShareFits(t, LargestRequest(rcs), item.max.value, PodRequest(rcs)))
      && (item.ratio.Some? ==> RatioAllows(t, rcs, item.ratio.value, PodRequest(rcs), past))
    case PodType =>
      && (item.max.Some? ==> t + Untouched(rcs) <= item.max.value)
      && (item.ratio.Some? ==> t + Untouched(rcs) <= RatioLimit(item.ratio.value, podRequest, past))
    case OtherType => true
  }

  ghost predicate RatioAllows(t: int, rcs: seq<Resizable>, ratio: int, total: int, past: Past) {
    forall c :: c in rcs && c.request > 0 ==> ShareFits(t, c.request, RatioLimit(ratio, c.request, past), total)
  }

  lemma WithinTighter(t: int, b: Bound, x: real)
    ensures Within(t, Tighter(b, x)) <==> Within(t, b) && t as real <= x
  {
  }

  lemma WithinTighterBound(t: int, b: Bound, c: Bound)
    ensures Within(t, TighterBound(b, c)) <==> Within(t, b) && Within(t, c)
  {
  }

  lemma BelowShareCap(t: int, limit: int, total: int, request: int)
    requires request > 0
    ensures t as real <= ShareCap(limit, total, request) <==> ShareFits(t, request, limit, total)
  {
    var q := ShareCap(limit, total, request);
    assert q * request as real == (limit * total) as real;
    if t as real <= q {
      RealScale(request as real, t as real, q);
      assert (t * request) as real <= (limit * total) as real;
    } else {
      RealScaleLess(request as real, q, t as real);
      assert (limit * total) as real < (t * request) as real;
    }
  }

  lemma {:induction false} WithinContainerRatio(t: int, rcs: seq<Resizable>, ratio: int, total: int, past: Past)
    ensures Within(t, ContainerRatioCap(rcs, ratio, total, past)) <==> RatioAllows(t, rcs, ratio, total, past)
  {
    if rcs != [] {
      var front, last := rcs[..|rcs| - 1], rcs[|rcs| - 1];
      assert rcs == front + [last];
      WithinContainerRatio(t, front, ratio, total, past);
      assert RatioAllows(t, rcs, ratio, total, past) <==>
        RatioAllows(t, front, ratio, total, past)
        && (last.request > 0 ==> ShareFits(t, last.request, RatioLimit(ratio, last.request, past), total));
      if last.request > 0 {
        var limit := RatioLimit(ratio, last.request, past);
        WithinTighter(t, ContainerRatioCap(front, ratio, total, past), ShareCap(limit, total, last.request));
        BelowShareCap(t, limit, total, last.request);
      }
    }
  }

  lemma WithinMax(t: int, limit: Bound, max: Option<int>, rcs: seq<Resizable>)
    requires LargestRequest(rcs) > 0
    ensures Within(t, TightenMax(limit, max, rcs)) <==>
      Within(t, limit) && (max.Some? ==> ShareFits(t, LargestRequest(rcs), max.value, PodRequest(rcs)))
  {
    if max.Some? {
      WithinTighter(t, limit, ShareCap(max.value, PodRequest(rcs), LargestRequest(rcs)));
      BelowShareCap(t, max.value, PodRequest(rcs), LargestRequest(rcs));
    }
  }

  lemma WithinRatio(t: int, limit: Bound, ratio: Option<int>, rcs: seq<Resizable>, past: Past)
    ensures Within(t, TightenRatio(limit, ratio, rcs, past)) <==>
      Within(t, limit) && (ratio.Some? ==> RatioAllows(t, rcs, ratio.value, PodRequest(rcs), past))
  {
    if ratio.Some? {
      WithinContainerRatio(t, rcs, ratio.value, PodRequest(rcs), past);
      WithinTighterBound(t, limit, ContainerRatioCap(rcs, ratio.value, PodRequest(rcs), past));
    }
  }

  lemma WithinTighten(t: int, limit: Bound, item: LimitItem, rcs: seq<Resizable>, podRequest: int, past: Past)
    requires LargestRequest(rcs) > 0
    ensures Within(t, Tighten(limit, item, rcs, podRequest, past)) <==>
      Within(t, limit) && ItemAllows(t, item, rcs, podRequest, past)
  {
    if item.kind.ContainerType? {
      WithinMax(t, limit, item.max, rcs);
      WithinRatio(t, TightenMax(limit, item.max, rcs), item.ratio, rcs, past);
    }
  }

  /** Being within the running minimum is being allowed by every item, and nothing else. */
  lemma {:induction false} WithinAll(t: int, items: seq<LimitItem>, rcs: seq<Resizable>, podRequest: int, past: Past)
    requires LargestRequest(rcs) > 0
    ensures Within(t, TightenAll(items, rcs, podRequest, past)) <==>
      forall item :: item in items ==> ItemAllows(t, item, rcs, podRequest, past)
  {
    if items != [] {
      var front, last := items[..|items| - 1], items[|items| - 1];
      assert items == front + [last];
      WithinAll(t, front, rcs, podRequest, past);
      WithinTighten(t, TightenAll(front, rcs, podRequest, past), last, rcs, podRequest, past);
    }
  }

  /** The cap is exact on pod totals: where it leaves room above the request, a target is under it
      just when every item allows the target. Where there is no cap, every item allows every
      target in range. */
  lemma CapIsExact(t: int, rcs: seq<Resizable>, podRequest: int, limitRanges: seq<seq<LimitItem>>, past: Past)
    requires PodRequest(rcs) > 0 && t <= INT64_MAX
    ensures var cap := LimitRangeCap(rcs, podRequest, limitRanges, past);
      var allowed := forall item :: item in Items(limitRanges) ==> ItemAllows(t, item, rcs, podRequest, past);
      && (cap == 0 ==> allowed)
      && (cap > 1 ==> (t <= cap <==> allowed))
      && (cap == 1 && t > 1 ==> !allowed)
  {
    LargestRequestHolds(rcs);
    WithinAll(t, Items(limitRanges), rcs, podRequest, past);
  }
}
