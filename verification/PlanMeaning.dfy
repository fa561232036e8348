/** The queries of a compressed plan, read back against the dense grid it was compressed from. */
module PlanMeaning {
  import opened Schedule
  import opened LanePlans
  import opened WeekGrid
  import opened Compressor
  import LaneViews
  import opened LaneQueries

  /** The lanes the dense grid shows as public at an instant. */
  ghost function GridPublicLanes(g: Grid, legend: Legend, wd: Weekday, t: int): set<int> {
    set lane | 1 <= lane <= LanesOn(g, wd) && GridHolds(g, legend, wd, lane, t, PublicSwim)
  }

  /** The lanes the dense grid shows as someone else's at an instant. */
  ghost function GridReservedLanes(g: Grid, legend: Legend, wd: Weekday, t: int): set<int> {
    set lane | 1 <= lane <= LanesOn(g, wd) && GridReserved(g, legend, wd, lane, t)
  }

  ghost predicate GridReserved(g: Grid, legend: Legend, wd: Weekday, lane: int, t: int) {
    exists a: Access :: !a.PublicSwim? && GridHolds(g, legend, wd, lane, t, a)
  }

  lemma HeldLanesAreGridLanes(rs: seq<LaneReservation>, g: Grid, legend: Legend, wd: Weekday, t: int)
    requires MeansGrid(rs, g, legend)
    ensures PublicLanes(rs, wd, t) == GridPublicLanes(g, legend, wd, t)
    ensures ReservedLanes(rs, wd, t) == GridReservedLanes(g, legend, wd, t)
  {
    forall lane ensures lane in PublicLanes(rs, wd, t) <==> lane in GridPublicLanes(g, legend, wd, t) {
      assert SomeHolds(rs, wd, lane, t, PublicSwim) <==> lane in GridPublicLanes(g, legend, wd, t);
      HolderIffLane(rs, wd, lane, t, PublicSwim);
    }
    forall lane ensures lane in ReservedLanes(rs, wd, t) <==> lane in GridReservedLanes(g, legend, wd, t) {
      if r :| r in rs && ActiveAt(r, wd, t) && !r.access.PublicSwim? && lane in r.lanes {
        HolderIffLane(rs, wd, lane, t, r.access);
        assert SomeHolds(rs, wd, lane, t, r.access);
        assert GridReserved(g, legend, wd, lane, t);
      }
      if lane in GridReservedLanes(g, legend, wd, t) {
        var a: Access :| !a.PublicSwim? && GridHolds(g, legend, wd, lane, t, a);
        assert SomeHolds(rs, wd, lane, t, a);
        HolderIffLane(rs, wd, lane, t, a);
      }
    }
  }

  lemma HolderIffLane(rs: seq<LaneReservation>, wd: Weekday, lane: int, t: int, a: Access)
    ensures SomeHolds(rs, wd, lane, t, a)
            <==> exists r :: r in rs && ActiveAt(r, wd, t) && r.access == a && lane in r.lanes
  {
    if i :| 0 <= i < |rs| && Holds(rs[i], wd, lane, t, a) {
      assert rs[i] in rs;
    }
    if r :| r in rs && ActiveAt(r, wd, t) && r.access == a && lane in r.lanes {
      var i :| 0 <= i < |rs| && rs[i] == r;
      assert Holds(rs[i], wd, lane, t, a);
    }
  }

  /** End to end: the public (reserved) count served for an instant is the number of lanes the
      dense grid shows as public (someone else's) there; a blank half-hour counts as neither. */
  lemma ServedCountsAreGridCounts(
    plan: LanePlan, g: Grid, legend: Legend, wd: Weekday, t: int, a: LaneAvailability)
    requires MeansGrid(plan.reservations, g, legend) && IsAvailability(plan, wd, t, a)
    ensures a.publicLanes == |GridPublicLanes(g, legend, wd, t)|
    ensures a.reservedLanes == |GridReservedLanes(g, legend, wd, t)|
    ensures (forall row :: 0 <= row < |g.slots| ==> !g.slots[row].Contains(t)) ==> a.publicLanes == a.reservedLanes == 0
  {
    HeldLanesAreGridLanes(plan.reservations, g, legend, wd, t);
  }

  /** The same for the strips: as many strips are public (someone else's) at an instant as the dense
      grid has such lanes. */
  lemma StripsAreGridLanes(
    plan: LanePlan, g: Grid, legend: Legend, wd: Weekday, t: int, strips: seq<LaneViews.LaneStrip>)
    requires MeansGrid(plan.reservations, g, legend) && Invariants(plan.reservations, plan.laneCount)
    requires LaneViews.IsDayView(plan, wd, strips)
    ensures |LaneViews.StripsHolding(strips, t, true)| == |GridPublicLanes(g, legend, wd, t)|
    ensures |LaneViews.StripsHolding(strips, t, false)| == |GridReservedLanes(g, legend, wd, t)|
  {
    HeldLanesAreGridLanes(plan.reservations, g, legend, wd, t);
    LaneViews.StripsAreHeldLanes(plan, wd, strips, t, true);
    LaneViews.StripsAreHeldLanes(plan, wd, strips, t, false);
  }
}
