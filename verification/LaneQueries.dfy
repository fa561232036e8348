/** What a stored plan says at one instant of the week: how many lanes are public, who holds the
    others, and until when the public stretch runs. */
module LaneQueries {
  import opened Prelude
  import opened Schedule
  import opened LanePlans
  import opened Sorting

  type Reservations = seq<LaneReservation>

  // --- what the plan says at an instant ---------------------------------------------

  predicate ActiveAt(r: LaneReservation, wd: Weekday, t: int) {
    wd in r.weekdays && r.time.Contains(t)
  }

  ghost predicate PublicAt(rs: Reservations, wd: Weekday, t: int) {
    exists r :: r in rs && ActiveAt(r, wd, t) && r.access.PublicSwim?
  }

  /** Lanes explicitly held by the public; a lane nobody holds is not one of them. */
  ghost function PublicLanes(rs: Reservations, wd: Weekday, t: int): set<int> {
    set r, lane | r in rs && ActiveAt(r, wd, t) && r.access.PublicSwim? && lane in r.lanes :: lane
  }

  ghost function ReservedLanes(rs: Reservations, wd: Weekday, t: int): set<int> {
    set r, lane | r in rs && ActiveAt(r, wd, t) && !r.access.PublicSwim? && lane in r.lanes :: lane
  }

  function MinLane(r: LaneReservation): int {
    if r.lanes == {} then 0 else MinOf(r.lanes)
  }

  const BY_LOWEST_LANE := (a: LaneReservation, b: LaneReservation) => MinLane(a) <= MinLane(b)

  /** Non-public owners, each at its first place. */
  function OwnersOf(rs: Reservations): seq<Access> {
    if rs == [] then [] else
      var r, before := rs[|rs| - 1], OwnersOf(rs[..|rs| - 1]);
      if !r.access.PublicSwim? && r.access !in before then before + [r.access] else before
  }

  function Active(rs: Reservations, wd: Weekday, t: int): Reservations {
    Filter((r: LaneReservation) => ActiveAt(r, wd, t), rs)
  }

  ghost function Owners(rs: Reservations, wd: Weekday, t: int): seq<Access> {
    OwnersOf(Sorted(BY_LOWEST_LANE, Active(rs, wd, t)))
  }

  /** `end` closes the maximal public stretch that covers `t`; there is none iff `t` is not public. */
  ghost predicate IsPublicUntil(rs: Reservations, wd: Weekday, t: int, end: Option<int>) {
    && (end.None? <==> !PublicAt(rs, wd, t))
    && (end.Some? ==> && t < end.value && !PublicAt(rs, wd, end.value)
                      && forall u :: t <= u < end.value ==> PublicAt(rs, wd, u))
  }

  datatype LaneAvailability = LaneAvailability(
    laneCount: nat, publicLanes: nat, reservedLanes: nat, owners: seq<Access>,
    publicUntil: Option<int>, partial: bool)

  /** The answer at (`wd`, `t`), every field of it. */
  ghost predicate IsAvailability(plan: LanePlan, wd: Weekday, t: int, a: LaneAvailability) {
    var rs := plan.reservations;
    && a.laneCount == plan.laneCount
    && a.publicLanes == |PublicLanes(rs, wd, t)|
    && a.reservedLanes == |ReservedLanes(rs, wd, t)|
    && a.owners == Owners(rs, wd, t)
    && IsPublicUntil(rs, wd, t, a.publicUntil)
    && (a.partial <==> exists lane :: lane in plan.coverage.unresolvedLanes
                                      && lane !in PublicLanes(rs, wd, t) + ReservedLanes(rs, wd, t))
  }

  lemma AvailabilityUnique(plan: LanePlan, wd: Weekday, t: int, a: LaneAvailability, b: LaneAvailability)
    requires IsAvailability(plan, wd, t, a) && IsAvailability(plan, wd, t, b)
    ensures a == b
  {
    if a.publicUntil.Some? && b.publicUntil.Some? {
      var x, y := a.publicUntil.value, b.publicUntil.value;
      assert x < y ==> PublicAt(plan.reservations, wd, x);
      assert y < x ==> PublicAt(plan.reservations, wd, y);
    }
  }

  // --- owners -----------------------------------------------------------------------

  /** `places[i]` is where the `i`-th owner first holds anything in `rs`. */
  ghost predicate FirstPlaces(rs: Reservations, os: seq<Access>, places: seq<nat>) {
    && |places| == |os|
    && InFirstOrder(os, places)
    && (forall i :: 0 <= i < |os| ==> HeldAt(rs, os[i], places[i]))
    && (forall p :: 0 <= p < |rs| && !rs[p].access.PublicSwim? ==> OwnedFrom(os, places, rs[p].access, p))
  }

  ghost predicate InFirstOrder(os: seq<Access>, places: seq<nat>)
    requires |places| == |os|
  {
    forall i, j :: 0 <= i < j < |os| ==> os[i] != os[j] && places[i] < places[j]
  }

  ghost predicate HeldAt(rs: Reservations, a: Access, p: nat) {
    p < |rs| && rs[p].access == a && !a.PublicSwim?
  }

  ghost predicate OwnedFrom(os: seq<Access>, places: seq<nat>, a: Access, p: nat)
    requires |places| == |os|
  {
    exists i :: 0 <= i < |os| && os[i] == a && places[i] <= p
  }

  lemma OwnedFromMore(os: seq<Access>, places: seq<nat>, a: Access, p: nat, b: Access, n: nat)
    requires |places| == |os|
    ensures OwnedFrom(os, places, a, p) ==> OwnedFrom(os + [b], places + [n], a, p)
    ensures n <= p && a == b ==> OwnedFrom(os + [b], places + [n], a, p)
  {
    if i :| 0 <= i < |os| && os[i] == a && places[i] <= p {
      assert (os + [b])[i] == a && (places + [n])[i] <= p;
    }
    assert (os + [b])[|os|] == b && (places + [n])[|os|] == n;
  }

  lemma PlacesKept(rs: Reservations, r: LaneReservation, os: seq<Access>, places: seq<nat>)
    requires FirstPlaces(rs, os, places) && (r.access.PublicSwim? || r.access in os)
    ensures FirstPlaces(rs + [r], os, places)
  {
    var longer := rs + [r];
    forall i | 0 <= i < |os| ensures HeldAt(longer, os[i], places[i]) {
      assert HeldAt(rs, os[i], places[i]);
    }
    forall p | 0 <= p < |longer| && !longer[p].access.PublicSwim? ensures OwnedFrom(os, places, longer[p].access, p) {
      if p < |rs| {
        assert longer[p] == rs[p];
      } else {
        var i :| 0 <= i < |os| && os[i] == r.access;
        assert HeldAt(rs, os[i], places[i]);
      }
    }
  }

  lemma PlacesGrown(rs: Reservations, r: LaneReservation, os: seq<Access>, places: seq<nat>)
    requires FirstPlaces(rs, os, places) && !r.access.PublicSwim? && r.access !in os
    ensures FirstPlaces(rs + [r], os + [r.access], places + [|rs|])
  {
    var longer, os', places' := rs + [r], os + [r.access], places + [|rs|];
    forall i | 0 <= i < |os'| ensures HeldAt(longer, os'[i], places'[i]) {
      assert i < |os| ==> HeldAt(rs, os[i], places[i]);
    }
    forall i, j | 0 <= i < j < |os'| ensures os'[i] != os'[j] && places'[i] < places'[j] {
      assert HeldAt(rs, os[i], places[i]) && os[i] in os;
    }
    forall p | 0 <= p < |longer| && !longer[p].access.PublicSwim? ensures OwnedFrom(os', places', longer[p].access, p) {
      assert p < |rs| ==> longer[p] == rs[p];
      OwnedFromMore(os, places, longer[p].access, p, r.access, |rs|);
    }
  }

  lemma {:induction false} OwnersHaveFirstPlaces(rs: Reservations) returns (places: seq<nat>)
    ensures FirstPlaces(rs, OwnersOf(rs), places)
  {
    places := [];
    if rs != [] {
      var front, r := rs[..|rs| - 1], rs[|rs| - 1];
      var os := OwnersOf(front);
      assert rs == front + [r];
      places := OwnersHaveFirstPlaces(front);
      if r.access.PublicSwim? || r.access in os {
        PlacesKept(front, r, os, places);
      } else {
        PlacesGrown(front, r, os, places);
        places := places + [|front|];
      }
    }
  }

  lemma ByLowestLaneIsTotal()
    ensures TotalPreorder(BY_LOWEST_LANE)
  {
  }

  lemma ActiveMembers(rs: Reservations, wd: Weekday, t: int, r: LaneReservation)
    ensures r in Active(rs, wd, t) <==> r in rs && ActiveAt(r, wd, t)
  {
    FilterMembers((x: LaneReservation) => ActiveAt(x, wd, t), rs, r);
  }

  ghost predicate Owns(r: LaneReservation, a: Access) {
    !r.access.PublicSwim? && r.access == a
  }

  lemma OwnersOwn(s: Reservations, os: seq<Access>, places: seq<nat>, a: Access)
    requires FirstPlaces(s, os, places)
    ensures a in os <==> exists r :: r in s && Owns(r, a)
  {
    if i :| 0 <= i < |os| && os[i] == a {
      assert HeldAt(s, os[i], places[i]);
      assert s[places[i]] in s && Owns(s[places[i]], a);
    }
    if r :| r in s && Owns(r, a) {
      var p :| 0 <= p < |s| && s[p] == r;
      assert OwnedFrom(os, places, s[p].access, p);
    }
  }

  /** Whatever an owner holds, it holds no earlier than where it was first met. */
  lemma HeldFromFirstPlace(s: Reservations, os: seq<Access>, places: seq<nat>, j: nat, p: nat)
    requires FirstPlaces(s, os, places) && j < |os| && p < |s| && s[p].access == os[j]
    ensures places[j] <= p
  {
    assert HeldAt(s, os[j], places[j]);
    assert OwnedFrom(os, places, s[p].access, p);
    var i :| 0 <= i < |os| && os[i] == s[p].access && places[i] <= p;
    DistinctOwners(os, places, i, j);
    DistinctOwners(os, places, j, i);
  }

  lemma DistinctOwners(os: seq<Access>, places: seq<nat>, i: nat, j: nat)
    requires |places| == |os| && InFirstOrder(os, places)
    ensures i < j < |os| ==> os[i] != os[j]
  {
  }

  ghost function IsActive(wd: Weekday, t: int): LaneReservation -> bool {
    (r: LaneReservation) => ActiveAt(r, wd, t)
  }

  /** The reservations at the instant, in the order in which their owners are listed. */
  lemma SortedActive(rs: Reservations, wd: Weekday, t: int) returns (places: seq<nat>, at: seq<int>)
    ensures var s := Sorted(BY_LOWEST_LANE, Active(rs, wd, t));
            && FirstPlaces(s, Owners(rs, wd, t), places)
            && KeptInOrder(IsActive(wd, t), BY_LOWEST_LANE, rs, s, at)
  {
    ByLowestLaneIsTotal();
    assert Active(rs, wd, t) == Filter(IsActive(wd, t), rs) by {
      FilterSame((r: LaneReservation) => ActiveAt(r, wd, t), IsActive(wd, t), rs);
    }
    at := SortedFilterIsKept(IsActive(wd, t), BY_LOWEST_LANE, rs);
    places := OwnersHaveFirstPlaces(Sorted(BY_LOWEST_LANE, Active(rs, wd, t)));
  }

  /** `m` is the lowest lane `r` holds, or 0 if it holds none. */
  ghost predicate LowestIs(r: LaneReservation, m: int) {
    if r.lanes == {} then m == 0 else m in r.lanes && forall lane :: lane in r.lanes ==> m <= lane
  }

  lemma MinLaneIsLowest(r: LaneReservation)
    ensures LowestIs(r, MinLane(r))
  {
    if r.lanes != {} {
      assert MinOf(r.lanes) in r.lanes;
    }
  }

  /** The `p`-th reservation holds lanes for the non-public owner `a` at the instant. */
  ghost predicate HoldsFor(rs: Reservations, wd: Weekday, t: int, p: int, a: Access) {
    0 <= p < |rs| && ActiveAt(rs[p], wd, t) && !a.PublicSwim? && rs[p].access == a
  }

  /** Reservation `p` comes before `q`: its lowest lane is lower, or the same and it stands before. */
  ghost predicate Precedes(rs: Reservations, p: int, q: int)
    requires 0 <= p < |rs| && 0 <= q < |rs|
  {
    exists m, n :: LowestIs(rs[p], m) && LowestIs(rs[q], n) && (m < n || (m == n && p < q))
  }

  /** Something `a` holds comes before everything `b` holds. */
  ghost predicate HoldsLower(rs: Reservations, wd: Weekday, t: int, a: Access, b: Access) {
    exists p :: HoldsFor(rs, wd, t, p, a) && forall q :: HoldsFor(rs, wd, t, q, b) ==> Precedes(rs, p, q)
  }

  lemma KeptPrecedes(rs: Reservations, wd: Weekday, t: int, s: Reservations, at: seq<int>, i: nat, k: nat)
    requires KeptInOrder(IsActive(wd, t), BY_LOWEST_LANE, rs, s, at) && i < k < |s|
    ensures Precedes(rs, at[i], at[k])
  {
    assert InOrder(BY_LOWEST_LANE, s, at, i, k);
    MinLaneIsLowest(s[i]);
    MinLaneIsLowest(s[k]);
  }

  lemma EarlierOwnerIsLower(
    rs: Reservations, wd: Weekday, t: int, s: Reservations, at: seq<int>, os: seq<Access>, places: seq<nat>,
    i: nat, j: nat)
    requires KeptInOrder(IsActive(wd, t), BY_LOWEST_LANE, rs, s, at) && FirstPlaces(s, os, places)
    requires i < j < |os|
    ensures HoldsLower(rs, wd, t, os[i], os[j])
  {
    assert HeldAt(s, os[i], places[i]) && places[i] < places[j];
    var p := at[places[i]];
    assert HoldsFor(rs, wd, t, p, os[i]);
    forall q | HoldsFor(rs, wd, t, q, os[j]) ensures Precedes(rs, p, q) {
      assert IsActive(wd, t)(rs[q]) && Placed(at, q);
      var k :| 0 <= k < |at| && at[k] == q;
      HeldFromFirstPlace(s, os, places, j, k);
      KeptPrecedes(rs, wd, t, s, at, places[i], k);
    }
  }

  lemma OwnersHold(
    rs: Reservations, wd: Weekday, t: int, s: Reservations, at: seq<int>, os: seq<Access>, places: seq<nat>, a: Access)
    requires KeptInOrder(IsActive(wd, t), BY_LOWEST_LANE, rs, s, at) && FirstPlaces(s, os, places)
    ensures a in os <==> exists p :: HoldsFor(rs, wd, t, p, a)
  {
    OwnersOwn(s, os, places, a);
    if r :| r in s && Owns(r, a) {
      var i :| 0 <= i < |s| && s[i] == r;
      assert HoldsFor(rs, wd, t, at[i], a);
    }
    if p :| HoldsFor(rs, wd, t, p, a) {
      assert IsActive(wd, t)(rs[p]) && Placed(at, p);
      var k :| 0 <= k < |at| && at[k] == p;
      assert s[k] in s && Owns(s[k], a);
    }
  }

  /** The owners are the non-public holders at the instant, each once, lowest lane first, and of the
      same lowest lane the one the plan names first. */
  lemma OwnersMeaning(rs: Reservations, wd: Weekday, t: int)
    ensures var os := Owners(rs, wd, t);
            && (forall a :: a in os <==> exists p :: HoldsFor(rs, wd, t, p, a))
            && (forall i, j :: 0 <= i < j < |os| ==> os[i] != os[j] && HoldsLower(rs, wd, t, os[i], os[j]))
  {
    var s, os := Sorted(BY_LOWEST_LANE, Active(rs, wd, t)), Owners(rs, wd, t);
    var places, at := SortedActive(rs, wd, t);
    forall a ensures a in os <==> exists p :: HoldsFor(rs, wd, t, p, a) {
      OwnersHold(rs, wd, t, s, at, os, places, a);
    }
    forall i, j | 0 <= i < j < |os| ensures os[i] != os[j] && HoldsLower(rs, wd, t, os[i], os[j]) {
      EarlierOwnerIsLower(rs, wd, t, s, at, os, places, i, j);
    }
  }

  // --- the public run ---------------------------------------------------------------

  function RangeLeq(a: Span, b: Span): bool {
    a.start < b.start || (a.start == b.start && a.end <= b.end)
  }

  const BY_RANGE := (a: TimeRange, b: TimeRange) => RangeLeq(a, b)

  ghost predicate Covered(spans: seq<TimeRange>, t: int) {
    exists i :: 0 <= i < |spans| && spans[i].Contains(t)
  }

  /** Sorted, disjoint and not even touching. */
  ghost predicate WellSeparated(spans: seq<TimeRange>) {
    forall i, j :: 0 <= i < j < |spans| ==> spans[i].end < spans[j].start
  }

  /** Merge overlapping or touching ranges of a start-sorted list. */
  method MergeRanges(ranges: seq<TimeRange>) returns (merged: seq<TimeRange>)
    requires SortedBy(BY_RANGE, ranges)
    ensures WellSeparated(merged)
    ensures forall t :: Covered(merged, t) <==> Covered(ranges, t)
  {
    merged := [];
    for k := 0 to |ranges|
      invariant WellSeparated(merged)
      invariant forall t :: Covered(merged, t) <==> Covered(ranges[..k], t)
      invariant k > 0 ==> merged != [] && merged[|merged| - 1].start <= ranges[k - 1].start
      invariant k == 0 ==> merged == []
    {
      var tr, before := ranges[k], merged;
      assert k > 0 ==> BY_RANGE(ranges[k - 1], ranges[k]);
      if merged != [] && tr.start <= merged[|merged| - 1].end {
        var last := merged[|merged| - 1];
        merged := merged[..|merged| - 1] + [Span(last.start, if last.end < tr.end then tr.end else last.end)];
      } else {
        merged := merged + [tr];
      }
      MergeStep(before, merged, ranges, k);
    }
    assert ranges[..|ranges|] == ranges;
  }

  lemma MergeStep(before: seq<TimeRange>, after: seq<TimeRange>, ranges: seq<TimeRange>, k: nat)
    requires k < |ranges|
    requires forall t :: Covered(before, t) <==> Covered(ranges[..k], t)
    requires if before != [] && ranges[k].start <= before[|before| - 1].end
             then before[|before| - 1].start <= ranges[k].start && |after| == |before|
                  && after[..|after| - 1] == before[..|before| - 1]
                  && after[|after| - 1] == Span(before[|before| - 1].start,
                       if before[|before| - 1].end < ranges[k].end then ranges[k].end else before[|before| - 1].end)
             else after == before + [ranges[k]]
    ensures forall t :: Covered(after, t) <==> Covered(ranges[..k + 1], t)
  {
    var tr := ranges[k];
    forall t ensures Covered(after, t) <==> Covered(before, t) || tr.Contains(t) {
      if tr.Contains(t) {
        assert after[|after| - 1].Contains(t);
      }
      if i :| 0 <= i < |before| && before[i].Contains(t) {
        if |after| == |before| && i < |before| - 1 {
          assert after[..|after| - 1][i] == before[i];
        }
        assert after[i].Contains(t);
      }
      if i :| 0 <= i < |after| && after[i].Contains(t) {
        if |after| == |before| && i < |before| - 1 {
          assert before[..|before| - 1][i] == after[i];
        }
        assert tr.Contains(t) || before[i].Contains(t);
      }
    }
    forall t ensures Covered(ranges[..k + 1], t) <==> Covered(ranges[..k], t) || tr.Contains(t) {
      assert ranges[..k + 1] == ranges[..k] + [tr];
      CoveredSnoc(ranges[..k], tr, t);
    }
  }

  lemma CoveredSnoc(spans: seq<TimeRange>, s: TimeRange, t: int)
    ensures Covered(spans + [s], t) <==> Covered(spans, t) || s.Contains(t)
  {
    var longer := spans + [s];
    assert s.Contains(t) ==> longer[|spans|].Contains(t);
    if i :| 0 <= i < |spans| && spans[i].Contains(t) {
      assert longer[i].Contains(t);
    }
  }

  lemma ByRangeIsTotal()
    ensures TotalPreorder(BY_RANGE)
  {
  }

  method PublicRunEnd(rs: Reservations, wd: Weekday, t: int) returns (end: Option<int>)
    ensures IsPublicUntil(rs, wd, t, end)
  {
    var ranges: seq<TimeRange> := [];
    for i := 0 to |rs|
      invariant forall u :: Covered(ranges, u) <==> PublicAt(rs[..i], wd, u)
    {
      ghost var before := ranges;
      if wd in rs[i].weekdays && rs[i].access.PublicSwim? {
        ranges := ranges + [rs[i].time];
      }
      forall u ensures Covered(ranges, u) <==> PublicAt(rs[..i + 1], wd, u) {
        assert rs[..i + 1] == rs[..i] + [rs[i]];
        CoveredSnoc(before, rs[i].time, u);
      }
    }
    assert rs[..|rs|] == rs;
    ghost var unsorted := ranges;
    ByRangeIsTotal();
    SortedIsSorted(BY_RANGE, ranges);
    SortedSameMembers(BY_RANGE, ranges);
    ranges := Sorted(BY_RANGE, ranges);
    forall u ensures Covered(ranges, u) <==> Covered(unsorted, u) {
      assert forall k :: 0 <= k < |ranges| ==> ranges[k] in unsorted;
      assert forall k :: 0 <= k < |unsorted| ==> unsorted[k] in ranges;
    }
    var merged := MergeRanges(ranges);
    for i := 0 to |merged|
      invariant forall j :: 0 <= j < i ==> !merged[j].Contains(t)
    {
      if merged[i].Contains(t) {
        forall u | t <= u < merged[i].end ensures PublicAt(rs, wd, u) {
          assert merged[i].Contains(u);
          assert Covered(merged, u);
        }
        assert !Covered(merged, merged[i].end);
        assert Covered(merged, t);
        return Some(merged[i].end);
      }
    }
    assert !Covered(merged, t);
    return None;
  }

  ghost function LanesHeld(rs: Reservations, public: bool): set<int> {
    set r, lane | r in rs && r.access.PublicSwim? == public && lane in r.lanes :: lane
  }

  lemma LanesHeldSnoc(rs: Reservations, r: LaneReservation, public: bool)
    ensures LanesHeld(rs + [r], public)
         == LanesHeld(rs, public) + if r.access.PublicSwim? == public then r.lanes else {}
  {
    var longer, lanes := rs + [r], LanesHeld(rs, public) + if r.access.PublicSwim? == public then r.lanes else {};
    forall lane ensures lane in LanesHeld(longer, public) <==> lane in lanes {
      assert r in longer && forall x :: x in longer <==> x in rs || x == r;
      if x :| x in longer && x.access.PublicSwim? == public && lane in x.lanes {
        assert x == r || lane in LanesHeld(rs, public);
      }
      if x :| x in rs && x.access.PublicSwim? == public && lane in x.lanes {
        assert x in longer;
      }
    }
  }

  // --- availability at an instant ---------------------------------------------------

  /** Public lanes, reserved lanes and owners of reservations already in lane order. */
  method SplitLanes(ordered: Reservations) returns (public: set<int>, reserved: set<int>, owners: seq<Access>)
    ensures public == LanesHeld(ordered, true) && reserved == LanesHeld(ordered, false)
    ensures owners == OwnersOf(ordered)
  {
    public, reserved, owners := {}, {}, [];
    for i := 0 to |ordered|
      invariant public == LanesHeld(ordered[..i], true) && reserved == LanesHeld(ordered[..i], false)
      invariant owners == OwnersOf(ordered[..i])
    {
      var r := ordered[i];
      assert ordered[..i + 1] == ordered[..i] + [r];
      LanesHeldSnoc(ordered[..i], r, true);
      LanesHeldSnoc(ordered[..i], r, false);
      if r.access.PublicSwim? {
        public := public + r.lanes;
      } else {
        reserved := reserved + r.lanes;
        if r.access !in owners {
          owners := owners + [r.access];
        }
      }
    }
    assert ordered[..|ordered|] == ordered;
  }

  method LaneAvailabilityAt(plan: LanePlan, wd: Weekday, t: int) returns (a: LaneAvailability)
    ensures IsAvailability(plan, wd, t, a)
  {
    var rs := plan.reservations;
    var public, reserved, owners := SplitLanes(Sorted(BY_LOWEST_LANE, Active(rs, wd, t)));
    OrderedHoldsActive(rs, wd, t);
    var covered := public + reserved;
    var partial := exists lane :: lane in plan.coverage.unresolvedLanes && lane !in covered;
    var until := PublicRunEnd(rs, wd, t);
    a := LaneAvailability(plan.laneCount, |public|, |reserved|, owners, until, partial);
  }

  lemma OrderedHoldsActive(rs: Reservations, wd: Weekday, t: int)
    ensures var ordered := Sorted(BY_LOWEST_LANE, Active(rs, wd, t));
            LanesHeld(ordered, true) == PublicLanes(rs, wd, t) && LanesHeld(ordered, false) == ReservedLanes(rs, wd, t)
  {
    SortedSameMembers(BY_LOWEST_LANE, Active(rs, wd, t));
    forall r ensures r in Sorted(BY_LOWEST_LANE, Active(rs, wd, t)) <==> r in rs && ActiveAt(r, wd, t) {
      ActiveMembers(rs, wd, t, r);
    }
  }
}
