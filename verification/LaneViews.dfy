/** Views of one plan over a stretch of time: the session timeline and the lane strips of a day,
    each of which says at every instant what the instant answer says. */
module LaneViews {
  import opened Prelude
  import opened Schedule
  import opened LanePlans
  import opened Sorting
  import opened LaneQueries

  // --- instants no boundary separates -----------------------------------------------

  /** No reservation of the weekday starts or ends after `lo` and up to `t`. */
  ghost predicate NoEdgeBetween(rs: Reservations, wd: Weekday, lo: int, t: int) {
    forall r :: r in rs && wd in r.weekdays ==> !(lo < r.time.start <= t) && !(lo < r.time.end <= t)
  }

  lemma {:induction false} FilterAgrees<T>(p: T -> bool, q: T -> bool, s: seq<T>)
    requires forall x :: x in s ==> p(x) == q(x)
    ensures Filter(p, s) == Filter(q, s)
  {
    if s != [] {
      FilterAgrees(p, q, s[..|s| - 1]);
    }
  }

  /** Between boundaries nothing changes: the whole answer at `lo` is the answer at `t`. */
  lemma AvailabilityConstant(plan: LanePlan, wd: Weekday, lo: int, t: int, a: LaneAvailability)
    requires lo <= t && NoEdgeBetween(plan.reservations, wd, lo, t)
    requires IsAvailability(plan, wd, lo, a)
    ensures IsAvailability(plan, wd, t, a)
  {
    var rs := plan.reservations;
    assert same: forall r :: r in rs ==> ActiveAt(r, wd, lo) == ActiveAt(r, wd, t);
    FilterAgrees((r: LaneReservation) => ActiveAt(r, wd, lo), (r: LaneReservation) => ActiveAt(r, wd, t), rs);
    assert PublicLanes(rs, wd, lo) == PublicLanes(rs, wd, t);
    assert ReservedLanes(rs, wd, lo) == ReservedLanes(rs, wd, t);
    PublicUntilConstant(rs, wd, lo, t, a.publicUntil);
  }

  lemma PublicUntilConstant(rs: Reservations, wd: Weekday, lo: int, t: int, end: Option<int>)
    requires lo <= t && NoEdgeBetween(rs, wd, lo, t) && IsPublicUntil(rs, wd, lo, end)
    ensures IsPublicUntil(rs, wd, t, end)
  {
    forall u | lo <= u <= t ensures PublicAt(rs, wd, u) == PublicAt(rs, wd, lo) {
      assert forall r :: r in rs ==> ActiveAt(r, wd, lo) == ActiveAt(r, wd, u);
    }
  }

  // --- the session timeline ---------------------------------------------------------

  datatype LaneSlotAvailability = LaneSlotAvailability(time: TimeRange, availability: LaneAvailability)

  /** In order, each starting where the one before ends, from the start of `within` to its end. */
  ghost predicate Tiles(segments: seq<LaneSlotAvailability>, within: TimeRange) {
    && segments != []
    && segments[0].time.start == within.start && segments[|segments| - 1].time.end == within.end
    && forall k :: 0 < k < |segments| ==> segments[k].time.start == segments[k - 1].time.end
  }

  ghost predicate IsEdge(rs: Reservations, wd: Weekday, t: int) {
    exists r :: r in rs && wd in r.weekdays && (r.time.start == t || r.time.end == t)
  }

  /** Where a timeline of `within` is cut: its two ends, and the boundaries strictly inside. */
  ghost predicate IsMark(rs: Reservations, wd: Weekday, within: TimeRange, t: int) {
    t == within.start || t == within.end || (within.start < t < within.end && IsEdge(rs, wd, t))
  }

  /** Tiled, true at every instant, and cut at exactly the boundaries inside `within`. */
  ghost predicate IsTimeline(plan: LanePlan, wd: Weekday, within: TimeRange, segments: seq<LaneSlotAvailability>) {
    && Tiles(segments, within)
    && (forall k :: 0 <= k < |segments| ==> ConstantOver(plan, wd, segments[k]))
    && (forall t :: within.start < t < within.end
          ==> (IsEdge(plan.reservations, wd, t) <==> exists k :: 0 < k < |segments| && segments[k].time.start == t))
  }

  method Bounds(rs: Reservations, wd: Weekday, within: TimeRange) returns (bounds: set<int>)
    ensures forall t :: t in bounds <==> IsMark(rs, wd, within, t)
  {
    bounds := {within.start, within.end};
    for i := 0 to |rs|
      invariant forall t :: t in bounds <==> IsMark(rs[..i], wd, within, t)
    {
      assert rs[..i + 1] == rs[..i] + [rs[i]];
      assert rs[i] in rs[..i + 1] && forall r :: r in rs[..i + 1] <==> r in rs[..i] || r == rs[i];
      if wd in rs[i].weekdays {
        if within.start < rs[i].time.start < within.end {
          bounds := bounds + {rs[i].time.start};
        }
        if within.start < rs[i].time.end < within.end {
          bounds := bounds + {rs[i].time.end};
        }
      }
    }
    assert rs[..|rs|] == rs;
  }

  ghost predicate AreMarks(rs: Reservations, wd: Weekday, within: TimeRange, bounds: seq<int>) {
    && Ascending(bounds)
    && forall x :: x in bounds <==> IsMark(rs, wd, within, x)
  }

  lemma MarkNotInsideCut(rs: Reservations, wd: Weekday, within: TimeRange, bounds: seq<int>, k: nat, x: int)
    requires AreMarks(rs, wd, within, bounds) && k + 1 < |bounds| && IsEdge(rs, wd, x)
    ensures !(bounds[k] < x < bounds[k + 1])
  {
    assert bounds[k] in bounds && bounds[k + 1] in bounds;
    assert IsMark(rs, wd, within, bounds[k]) && IsMark(rs, wd, within, bounds[k + 1]);
    assert bounds[k] < x < bounds[k + 1] ==> IsMark(rs, wd, within, x);
    if x in bounds {
      var j :| 0 <= j < |bounds| && bounds[j] == x;
      assert j <= k ==> bounds[j] <= bounds[k];
      assert k + 1 <= j ==> bounds[k + 1] <= bounds[j];
    }
  }

  lemma NoEdgeInsideCut(rs: Reservations, wd: Weekday, within: TimeRange, bounds: seq<int>, k: nat, t: int)
    requires AreMarks(rs, wd, within, bounds) && k + 1 < |bounds| && bounds[k] <= t < bounds[k + 1]
    ensures NoEdgeBetween(rs, wd, bounds[k], t)
  {
    forall r | r in rs && wd in r.weekdays
      ensures !(bounds[k] < r.time.start <= t) && !(bounds[k] < r.time.end <= t)
    {
      MarkNotInsideCut(rs, wd, within, bounds, k, r.time.start);
      MarkNotInsideCut(rs, wd, within, bounds, k, r.time.end);
    }
  }

  ghost predicate ConstantOver(plan: LanePlan, wd: Weekday, segment: LaneSlotAvailability) {
    forall t :: segment.time.Contains(t) ==> IsAvailability(plan, wd, t, segment.availability)
  }

  lemma CutIsConstant(plan: LanePlan, wd: Weekday, within: TimeRange, bounds: seq<int>, k: nat, a: LaneAvailability)
    requires AreMarks(plan.reservations, wd, within, bounds) && k + 1 < |bounds|
    requires IsAvailability(plan, wd, bounds[k], a)
    ensures ConstantOver(plan, wd, LaneSlotAvailability(Span(bounds[k], bounds[k + 1]), a))
  {
    forall t | bounds[k] <= t < bounds[k + 1] ensures IsAvailability(plan, wd, t, a) {
      NoEdgeInsideCut(plan.reservations, wd, within, bounds, k, t);
      AvailabilityConstant(plan, wd, bounds[k], t, a);
    }
  }

  lemma CutsMakeTimeline(
    plan: LanePlan, wd: Weekday, within: TimeRange, bounds: seq<int>, segments: seq<LaneSlotAvailability>)
    requires AreMarks(plan.reservations, wd, within, bounds) && |segments| + 1 == |bounds|
    requires forall k {:trigger segments[k]} :: 0 <= k < |segments| ==>
      segments[k].time == Span(bounds[k], bounds[k + 1])
    requires forall k :: 0 <= k < |segments| ==> ConstantOver(plan, wd, segments[k])
    ensures IsTimeline(plan, wd, within, segments)
  {
    assert IsMark(plan.reservations, wd, within, within.start) && IsMark(plan.reservations, wd, within, within.end);
    assert within.start in bounds && within.end in bounds;
    assert bounds[0] in bounds && bounds[|bounds| - 1] in bounds;
    assert bounds[0] == within.start && bounds[|bounds| - 1] == within.end;
    forall t | within.start < t < within.end
      ensures IsEdge(plan.reservations, wd, t) <==> exists k :: 0 < k < |segments| && segments[k].time.start == t
    {
      assert t in bounds <==> IsMark(plan.reservations, wd, within, t);
      if t in bounds {
        var k :| 0 <= k < |bounds| && bounds[k] == t;
        assert segments[k].time.start == t;
      }
      if k :| 0 < k < |segments| && segments[k].time.start == t {
        assert bounds[k] == t;
      }
    }
  }

  method LaneAvailabilityTimeline(plan: LanePlan, wd: Weekday, within: TimeRange)
    returns (segments: seq<LaneSlotAvailability>)
    ensures IsTimeline(plan, wd, within, segments)
  {
    var marks := Bounds(plan.reservations, wd, within);
    var bounds := SortedSet(marks);
    assert AreMarks(plan.reservations, wd, within, bounds);
    assert within.start in bounds;
    segments := [];
    for k := 0 to |bounds| - 1
      invariant |segments| == k
      invariant forall j {:trigger segments[j]} :: 0 <= j < k ==> segments[j].time == Span(bounds[j], bounds[j + 1])
      invariant forall j :: 0 <= j < k ==> ConstantOver(plan, wd, segments[j])
    {
      var a := LaneAvailabilityAt(plan, wd, bounds[k]);
      CutIsConstant(plan, wd, within, bounds, k, a);
      segments := segments + [LaneSlotAvailability(Span(bounds[k], bounds[k + 1]), a)];
    }
    CutsMakeTimeline(plan, wd, within, bounds, segments);
  }

  lemma {:induction false} TileAt(segments: seq<LaneSlotAvailability>, within: TimeRange, t: int, n: nat)
    returns (k: nat)
    requires Tiles(segments, within) && within.start <= t
    requires n < |segments| && t < segments[n].time.end
    ensures k < |segments| && segments[k].time.Contains(t)
    decreases n
  {
    if segments[n].time.start <= t {
      k := n;
    } else {
      k := TileAt(segments, within, t, n - 1);
    }
  }

  /** No gap and no overlap: every instant of `within` is in exactly one segment, and segments
      reach nowhere else. */
  lemma TimelineTilesExactly(segments: seq<LaneSlotAvailability>, within: TimeRange, t: int)
    requires Tiles(segments, within)
    ensures within.Contains(t) <==> exists k :: 0 <= k < |segments| && segments[k].time.Contains(t)
    ensures forall j, k :: 0 <= j < k < |segments| ==> !(segments[j].time.Contains(t) && segments[k].time.Contains(t))
  {
    if within.Contains(t) {
      var k := TileAt(segments, within, t, |segments| - 1);
    }
    forall j, k | 0 <= j <= k < |segments| ensures segments[j].time.start <= segments[k].time.start
                                                && (j < k ==> segments[j].time.end <= segments[k].time.start)
    {
      TilesAscend(segments, within, j, k);
    }
    forall k | 0 <= k < |segments| && segments[k].time.Contains(t) ensures within.Contains(t) {
      TilesAscend(segments, within, 0, k);
      TilesAscend(segments, within, k, |segments| - 1);
    }
  }

  lemma {:induction false} TilesAscend(segments: seq<LaneSlotAvailability>, within: TimeRange, j: nat, k: nat)
    requires Tiles(segments, within) && j <= k < |segments|
    ensures segments[j].time.start <= segments[k].time.start && segments[j].time.end <= segments[k].time.end
    ensures j < k ==> segments[j].time.end <= segments[k].time.start
    decreases k
  {
    if j < k {
      TilesAscend(segments, within, j, k - 1);
    }
  }

  // --- the lane strips of a day -----------------------------------------------------

  datatype LaneSegment = LaneSegment(time: TimeRange, access: Access)

  datatype LaneStrip = LaneStrip(lane: int, segments: seq<LaneSegment>)

  const BY_SEGMENT := (a: LaneSegment, b: LaneSegment) => RangeLeq(a.time, b.time)

  /** What the lane's reservations of the weekday are, in plan order. */
  ghost function LaneSegments(rs: Reservations, wd: Weekday, lane: int): seq<LaneSegment> {
    if rs == [] then [] else
      var r := rs[|rs| - 1];
      LaneSegments(rs[..|rs| - 1], wd, lane)
        + if wd in r.weekdays && lane in r.lanes then [LaneSegment(r.time, r.access)] else []
  }

  ghost predicate IsStrip(plan: LanePlan, wd: Weekday, lane: int, strip: LaneStrip) {
    strip == LaneStrip(lane, Sorted(BY_SEGMENT, LaneSegments(plan.reservations, wd, lane)))
  }

  /** One strip per lane `1..laneCount`, each holding that lane's reservations by start time. */
  ghost predicate IsDayView(plan: LanePlan, wd: Weekday, strips: seq<LaneStrip>) {
    && |strips| == plan.laneCount
    && forall k :: 0 <= k < |strips| ==> IsStrip(plan, wd, k + 1, strips[k])
  }

  method LaneDayView(plan: LanePlan, wd: Weekday) returns (strips: seq<LaneStrip>)
    ensures IsDayView(plan, wd, strips)
  {
    strips := [];
    for lane := 1 to plan.laneCount + 1
      invariant |strips| == lane - 1
      invariant forall k :: 0 <= k < |strips| ==> IsStrip(plan, wd, k + 1, strips[k])
    {
      var segments: seq<LaneSegment> := [];
      for i := 0 to |plan.reservations|
        invariant segments == LaneSegments(plan.reservations[..i], wd, lane)
      {
        var r := plan.reservations[i];
        assert plan.reservations[..i + 1][..i] == plan.reservations[..i];
        if wd in r.weekdays && lane in r.lanes {
          segments := segments + [LaneSegment(r.time, r.access)];
        }
      }
      assert plan.reservations[..|plan.reservations|] == plan.reservations;
      strips := strips + [LaneStrip(lane, Sorted(BY_SEGMENT, segments))];
    }
  }

  lemma {:induction false} LaneSegmentsMembers(rs: Reservations, wd: Weekday, lane: int, s: LaneSegment)
    ensures s in LaneSegments(rs, wd, lane)
            <==> exists r :: r in rs && wd in r.weekdays && lane in r.lanes && LaneSegment(r.time, r.access) == s
  {
    if rs != [] {
      var front, r := rs[..|rs| - 1], rs[|rs| - 1];
      assert rs == front + [r] && r in rs;
      LaneSegmentsMembers(front, wd, lane, s);
    }
  }

  ghost const SEGMENTS_APART := (a: LaneSegment, b: LaneSegment) => !Overlaps(a.time, b.time)

  lemma {:induction false} LaneSegmentsApart(rs: Reservations, laneCount: nat, wd: Weekday, lane: int)
    requires Invariants(rs, laneCount)
    ensures Pairwise(SEGMENTS_APART, LaneSegments(rs, wd, lane))
  {
    if rs != [] {
      var front, r := rs[..|rs| - 1], rs[|rs| - 1];
      LaneSegmentsApart(front, laneCount, wd, lane);
      if wd in r.weekdays && lane in r.lanes {
        var before := LaneSegments(front, wd, lane);
        forall k | 0 <= k < |before| ensures !Overlaps(before[k].time, r.time) {
          LaneSegmentsMembers(front, wd, lane, before[k]);
          var q :| q in front && wd in q.weekdays && lane in q.lanes && LaneSegment(q.time, q.access) == before[k];
          var i :| 0 <= i < |front| && front[i] == q;
          OneHolder(rs, laneCount, i, |rs| - 1, wd, lane);
        }
        assert LaneSegments(rs, wd, lane) == before + [LaneSegment(r.time, r.access)];
      }
    }
  }

  /** A lane's segments run in time order and never overlap. */
  ghost predicate InTimeOrder(segments: seq<LaneSegment>) {
    forall i, j :: 0 <= i < j < |segments| ==> segments[i].time.end <= segments[j].time.start
  }

  lemma StripsInTimeOrder(plan: LanePlan, wd: Weekday, strips: seq<LaneStrip>, k: nat)
    requires Invariants(plan.reservations, plan.laneCount) && IsDayView(plan, wd, strips) && k < |strips|
    ensures InTimeOrder(strips[k].segments)
  {
    var raw, ss := LaneSegments(plan.reservations, wd, k + 1), strips[k].segments;
    LaneSegmentsApart(plan.reservations, plan.laneCount, wd, k + 1);
    SortedPairwise(BY_SEGMENT, raw, SEGMENTS_APART);
    SortedIsSorted(BY_SEGMENT, raw);
    forall i, j | 0 <= i < j < |ss| ensures ss[i].time.end <= ss[j].time.start {
      assert BY_SEGMENT(ss[i], ss[j]) && SEGMENTS_APART(ss[i], ss[j]);
    }
  }

  /** `segments` are those of `raw`, each once, by start and then by end, and alike ones as they stood. */
  ghost predicate ByTime(raw: seq<LaneSegment>, segments: seq<LaneSegment>, places: seq<int>) {
    && |places| == |segments| == |raw|
    && (forall i :: 0 <= i < |segments| ==> 0 <= places[i] < |raw| && segments[i] == raw[places[i]])
    && (forall k :: 0 <= k < |raw| ==> Placed(places, k))
    && forall i, j :: 0 <= i < j < |segments| ==>
         EarlierSegment(segments[i].time, segments[j].time, places[i], places[j])
  }

  ghost predicate EarlierSegment(a: Span, b: Span, p: int, q: int) {
    a.start < b.start || (a.start == b.start && (a.end < b.end || (a.end == b.end && p < q)))
  }

  /** A strip, on any plan, is its lane's reservations of the weekday in order of start and end. */
  lemma StripIsByTime(plan: LanePlan, wd: Weekday, strips: seq<LaneStrip>, k: nat) returns (places: seq<int>)
    requires IsDayView(plan, wd, strips) && k < |strips|
    ensures ByTime(LaneSegments(plan.reservations, wd, k + 1), strips[k].segments, places)
  {
    var raw := LaneSegments(plan.reservations, wd, k + 1);
    places := SortedIsStablyPlaced(BY_SEGMENT, raw);
    var segments := strips[k].segments;
    forall i, j | 0 <= i < j < |segments|
      ensures EarlierSegment(segments[i].time, segments[j].time, places[i], places[j])
    {
      assert InOrder(BY_SEGMENT, segments, places, i, j);
    }
  }

  /** The strips with a segment of the given kind (public or not) at `t`, by lane. */
  ghost function StripsHolding(strips: seq<LaneStrip>, t: int, public: bool): set<int> {
    set strip | strip in strips && HoldsAt(strip, t, public) :: strip.lane
  }

  ghost predicate HoldsAt(strip: LaneStrip, t: int, public: bool) {
    exists s :: s in strip.segments && s.time.Contains(t) && s.access.PublicSwim? == public
  }

  lemma StripHolds(plan: LanePlan, wd: Weekday, strips: seq<LaneStrip>, k: nat, t: int, public: bool)
    requires IsDayView(plan, wd, strips) && k < |strips|
    ensures HoldsAt(strips[k], t, public)
            <==> exists r :: r in plan.reservations && ActiveAt(r, wd, t) && k + 1 in r.lanes
                             && r.access.PublicSwim? == public
  {
    var raw := LaneSegments(plan.reservations, wd, k + 1);
    SortedSameMembers(BY_SEGMENT, raw);
    if s :| s in strips[k].segments && s.time.Contains(t) && s.access.PublicSwim? == public {
      LaneSegmentsMembers(plan.reservations, wd, k + 1, s);
    }
    if r :| r in plan.reservations && ActiveAt(r, wd, t) && k + 1 in r.lanes && r.access.PublicSwim? == public {
      LaneSegmentsMembers(plan.reservations, wd, k + 1, LaneSegment(r.time, r.access));
      assert LaneSegment(r.time, r.access) in strips[k].segments;
    }
  }

  ghost function HeldLanes(rs: Reservations, wd: Weekday, t: int, public: bool): set<int> {
    if public then PublicLanes(rs, wd, t) else ReservedLanes(rs, wd, t)
  }

  lemma HolderOf(rs: Reservations, wd: Weekday, t: int, public: bool, lane: int) returns (i: nat)
    requires lane in HeldLanes(rs, wd, t, public)
    ensures i < |rs| && ActiveAt(rs[i], wd, t) && lane in rs[i].lanes && rs[i].access.PublicSwim? == public
  {
    var r :| r in rs && ActiveAt(r, wd, t) && lane in r.lanes && r.access.PublicSwim? == public;
    i :| 0 <= i < |rs| && rs[i] == r;
  }

  lemma StripOfHeldLane(plan: LanePlan, wd: Weekday, strips: seq<LaneStrip>, t: int, public: bool, lane: int)
    requires Invariants(plan.reservations, plan.laneCount) && IsDayView(plan, wd, strips)
    requires lane in HeldLanes(plan.reservations, wd, t, public)
    ensures lane in StripsHolding(strips, t, public)
  {
    var i := HolderOf(plan.reservations, wd, t, public, lane);
    assert LanesWithin(plan.reservations[i], plan.laneCount);
    var k := lane - 1;
    assert IsStrip(plan, wd, k + 1, strips[k]);
    StripHolds(plan, wd, strips, k, t, public);
    assert plan.reservations[i] in plan.reservations;
    assert HoldsAt(strips[k], t, public);
    assert strips[k] in strips;
  }

  lemma StripsAreHeldLanes(plan: LanePlan, wd: Weekday, strips: seq<LaneStrip>, t: int, public: bool)
    requires Invariants(plan.reservations, plan.laneCount) && IsDayView(plan, wd, strips)
    ensures StripsHolding(strips, t, public) == HeldLanes(plan.reservations, wd, t, public)
  {
    forall k | 0 <= k < |strips| && HoldsAt(strips[k], t, public)
      ensures strips[k].lane in HeldLanes(plan.reservations, wd, t, public)
    {
      assert IsStrip(plan, wd, k + 1, strips[k]);
      StripHolds(plan, wd, strips, k, t, public);
    }
    forall lane | lane in HeldLanes(plan.reservations, wd, t, public) ensures lane in StripsHolding(strips, t, public) {
      StripOfHeldLane(plan, wd, strips, t, public, lane);
    }
  }

  /** The instant answer and the lane strips agree: the public (reserved) count is the number of
      strips with a public (other) segment at the instant, no lane is both, and they fit. */
  lemma AvailabilityAgreesWithStrips(
    plan: LanePlan, wd: Weekday, t: int, a: LaneAvailability, strips: seq<LaneStrip>)
    requires Invariants(plan.reservations, plan.laneCount)
    requires IsAvailability(plan, wd, t, a) && IsDayView(plan, wd, strips)
    ensures a.publicLanes == |StripsHolding(strips, t, true)|
    ensures a.reservedLanes == |StripsHolding(strips, t, false)|
    ensures StripsHolding(strips, t, true) !! StripsHolding(strips, t, false)
    ensures a.publicLanes + a.reservedLanes <= plan.laneCount
  {
    var rs := plan.reservations;
    StripsAreHeldLanes(plan, wd, strips, t, true);
    StripsAreHeldLanes(plan, wd, strips, t, false);
    PublicAndReservedApart(rs, plan.laneCount, wd, t);
    HeldLanesFit(rs, plan.laneCount, wd, t);
  }

  lemma HeldLanesFit(rs: Reservations, laneCount: nat, wd: Weekday, t: int)
    requires Invariants(rs, laneCount)
    ensures |PublicLanes(rs, wd, t)| + |ReservedLanes(rs, wd, t)| <= laneCount
  {
    PublicAndReservedApart(rs, laneCount, wd, t);
    var pub, res := PublicLanes(rs, wd, t), ReservedLanes(rs, wd, t);
    forall lane | lane in pub + res ensures 1 <= lane <= laneCount {
      var r :| r in rs && lane in r.lanes;
      var i :| 0 <= i < |rs| && rs[i] == r;
      assert LanesWithin(rs[i], laneCount);
    }
    BoundedSet(pub + res, laneCount);
    assert |pub + res| == |pub| + |res|;
  }

  lemma PublicAndReservedApart(rs: Reservations, laneCount: nat, wd: Weekday, t: int)
    requires Invariants(rs, laneCount)
    ensures PublicLanes(rs, wd, t) !! ReservedLanes(rs, wd, t)
  {
    forall q, r, lane |
      q in rs && r in rs && ActiveAt(q, wd, t) && ActiveAt(r, wd, t) && lane in q.lanes && lane in r.lanes
      ensures q == r
    {
      var i :| 0 <= i < |rs| && rs[i] == q;
      var j :| 0 <= j < |rs| && rs[j] == r;
      OverlapIsSharedInstant(q.time, r.time);
      OneHolder(rs, laneCount, i, j, wd, lane);
    }
  }

  lemma {:induction false} BoundedSet(s: set<int>, n: nat)
    requires forall x :: x in s ==> 1 <= x <= n
    ensures |s| <= n
  {
    if n == 0 {
      NoMembers(s);
    } else {
      BoundedSet(s - {n}, n - 1);
      assert n in s ==> |s - {n}| == |s| - 1;
      assert n !in s ==> s - {n} == s;
    }
  }
}
