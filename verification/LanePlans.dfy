/** The stored lane-reservation plan: run-length-compressed regions of the weekly grid. */
module LanePlans {
  import opened Prelude
  import opened Schedule
  import opened Sorting

  datatype LaneReservation = LaneReservation(
    weekdays: set<Weekday>, time: TimeRange, lanes: set<int>, access: Access, section: Option<string>)

  datatype PlanConfidence = Complete | Partial

  datatype PlanCoverage = PlanCoverage(
    confidence: PlanConfidence, cellsTotal: nat, cellsResolved: nat, unresolvedLanes: set<int>)

  datatype LanePlan = LanePlan(
    laneCount: nat, reservations: seq<LaneReservation>, validFrom: Option<int>, coverage: PlanCoverage,
    fetchedAt: Option<int>, lanesByWeekday: Option<map<Weekday, nat>>)

  /** What one reservation says: on this weekday and lane, at this instant, the owner is `a`. */
  ghost predicate Holds(r: LaneReservation, wd: Weekday, lane: int, t: int, a: Access) {
    wd in r.weekdays && lane in r.lanes && r.time.start <= t < r.time.end && r.access == a
  }

  predicate LanesWithin(r: LaneReservation, laneCount: nat) {
    forall lane :: lane in r.lanes ==> 1 <= lane <= laneCount
  }

  /** Two reservations that claim one lane at one time of one weekday. */
  predicate Clash(a: LaneReservation, b: LaneReservation) {
    a.weekdays * b.weekdays != {} && Overlaps(a.time, b.time) && a.lanes * b.lanes != {}
  }

  /** What the parser checks before it returns a plan. */
  ghost predicate Invariants(reservations: seq<LaneReservation>, laneCount: nat) {
    && (forall i :: 0 <= i < |reservations| ==> LanesWithin(reservations[i], laneCount))
    && (forall i, j :: 0 <= i < j < |reservations| ==> !Clash(reservations[i], reservations[j]))
  }

  /** The check in plain terms: every reserved lane is a lane of the plan, and no instant of any weekday
      has one lane in two reservations. */
  lemma InvariantsOnData(rs: seq<LaneReservation>, laneCount: nat)
    ensures Invariants(rs, laneCount) <==>
      && (forall r, lane :: r in rs && lane in r.lanes ==> 1 <= lane <= laneCount)
      && (forall i, j, wd, lane, t :: 0 <= i < j < |rs| ==> !SharedAt(rs[i], rs[j], wd, lane, t))
  {
    forall i, j | 0 <= i < j < |rs|
      ensures Clash(rs[i], rs[j]) <==> exists wd, lane, t :: SharedAt(rs[i], rs[j], wd, lane, t)
    {
      ClashIsShared(rs[i], rs[j]);
    }
    if forall r, lane :: r in rs && lane in r.lanes ==> 1 <= lane <= laneCount {
      assert forall i :: 0 <= i < |rs| ==> LanesWithin(rs[i], laneCount);
    }
  }

  /** Both reservations hold this lane at this instant of this weekday. */
  ghost predicate SharedAt(a: LaneReservation, b: LaneReservation, wd: Weekday, lane: int, t: int) {
    && wd in a.weekdays && lane in a.lanes && a.time.start <= t < a.time.end
    && wd in b.weekdays && lane in b.lanes && b.time.start <= t < b.time.end
  }

  lemma ClashIsShared(a: LaneReservation, b: LaneReservation)
    ensures Clash(a, b) <==> exists wd, lane, t :: SharedAt(a, b, wd, lane, t)
  {
    if Clash(a, b) {
      var wd := AnyOf(a.weekdays * b.weekdays);
      var lane := AnyOf(a.lanes * b.lanes);
      var t := if a.time.start < b.time.start then b.time.start else a.time.start;
      assert SharedAt(a, b, wd, lane, t);
    }
    if wd, lane, t :| SharedAt(a, b, wd, lane, t) {
      assert wd in a.weekdays * b.weekdays && lane in a.lanes * b.lanes;
    }
  }

  /** Under the check, reservations that share a weekday, a lane and an instant are the same one. */
  lemma OneHolder(rs: seq<LaneReservation>, laneCount: nat, i: nat, j: nat, wd: Weekday, lane: int)
    requires Invariants(rs, laneCount) && i < |rs| && j < |rs|
    requires wd in rs[i].weekdays && wd in rs[j].weekdays && lane in rs[i].lanes && lane in rs[j].lanes
    ensures Overlaps(rs[i].time, rs[j].time) ==> i == j
  {
    assert wd in rs[i].weekdays * rs[j].weekdays && lane in rs[i].lanes * rs[j].lanes;
    assert wd in rs[j].weekdays * rs[i].weekdays && lane in rs[j].lanes * rs[i].lanes;
    if Overlaps(rs[i].time, rs[j].time) {
      assert Clash(rs[i], rs[j]) && Clash(rs[j], rs[i]);
    }
  }
}
