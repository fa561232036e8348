/** The lane facts an option carries: four derivations of its basin's plan, all about one session. */
module SessionLanes {
  import opened Prelude
  import opened Schedule
  import opened LanePlans
  import opened LaneQueries
  import opened LaneViews
  import opened BestWindow
  import opened Pools

  datatype LaneFacts = LaneFacts(
    availability: LaneAvailability, timeline: seq<LaneSlotAvailability>, dayView: seq<LaneStrip>,
    bestPublic: Option<PublicWindow>)

  /** The instant the option speaks of: the queried one if the session is on, else its start. */
  function Shown(session: TimeRange, now: int): int {
    if session.Contains(now) then now else session.start
  }

  /** It is an instant of the session: the queried one exactly when that is, and the start when not. */
  lemma ShownIsInSession(session: TimeRange, now: int)
    ensures session.start <= Shown(session, now) < session.end
    ensures session.start <= now < session.end <==> Shown(session, now) == now
    ensures Shown(session, now) != now ==> Shown(session, now) == session.start
  {
  }

  ghost predicate AreFacts(plan: LanePlan, wd: Weekday, session: TimeRange, now: int, f: LaneFacts) {
    && IsAvailability(plan, wd, Shown(session, now), f.availability)
    && IsTimeline(plan, wd, session, f.timeline)
    && IsDayView(plan, wd, f.dayView)
    && IsBest(plan.reservations, wd, Some(session), f.bestPublic)
  }

  /** A recorded failure to read a plan yields nothing, like no plan at all. */
  method DeriveLanes(state: PlanState, wd: Weekday, session: TimeRange, now: int) returns (r: Option<LaneFacts>)
    ensures r.Some? <==> state.Parsed?
    ensures r.Some? ==> AreFacts(state.plan, wd, session, now, r.value)
  {
    match state {
      case Parsed(plan) =>
        var availability := LaneAvailabilityAt(plan, wd, Shown(session, now));
        var timeline := LaneAvailabilityTimeline(plan, wd, session);
        var dayView := LaneDayView(plan, wd);
        var best := BestPublicTime(plan.reservations, wd, Some(session));
        r := Some(LaneFacts(availability, timeline, dayView, best));
      case _ =>
        r := None;
    }
  }

  /** The timeline's segment at the shown instant stores the very answer the option shows, and it is
      the only segment there. */
  lemma ShownIsOnTimeline(plan: LanePlan, wd: Weekday, session: TimeRange, now: int, f: LaneFacts) returns (k: nat)
    requires AreFacts(plan, wd, session, now, f)
    ensures k < |f.timeline| && f.timeline[k].time.Contains(Shown(session, now))
    ensures f.timeline[k].availability == f.availability
    ensures forall j :: 0 <= j < |f.timeline| && f.timeline[j].time.Contains(Shown(session, now)) ==> j == k
  {
    var t := Shown(session, now);
    TimelineTilesExactly(f.timeline, session, t);
    k :| 0 <= k < |f.timeline| && f.timeline[k].time.Contains(t);
    assert ConstantOver(plan, wd, f.timeline[k]);
    AvailabilityUnique(plan, wd, t, f.timeline[k].availability, f.availability);
  }

  /** The best window and the shown answer: none means no public lane is shown, otherwise the window
      lies in the session, is never beaten by what is shown, and is matched inside it and not before. */
  lemma BestBoundsShown(plan: LanePlan, wd: Weekday, session: TimeRange, now: int, f: LaneFacts)
    requires AreFacts(plan, wd, session, now, f)
    ensures f.bestPublic.None? ==> f.availability.publicLanes == 0
    ensures f.bestPublic.Some? ==>
      var w, t := f.bestPublic.value, Shown(session, now);
      && session.start <= w.time.start && w.time.end <= session.end
      && f.availability.publicLanes <= w.publicLanes
      && (w.time.Contains(t) ==> f.availability.publicLanes == w.publicLanes)
      && (t < w.time.start ==> f.availability.publicLanes < w.publicLanes)
  {
    var t := Shown(session, now);
    assert InScope(Some(session), t);
    assert f.availability.publicLanes == PublicCount(plan.reservations, wd, t);
    if f.bestPublic.Some? {
      var w := f.bestPublic.value;
      assert w.time.Contains(w.time.start) && w.time.Contains(w.time.end - 1);
    }
  }

  /** One story: for a checked plan the option's four lane facts agree with one another. */
  lemma FactsAgree(plan: LanePlan, wd: Weekday, session: TimeRange, now: int, f: LaneFacts)
    requires Invariants(plan.reservations, plan.laneCount) && AreFacts(plan, wd, session, now, f)
    ensures exists k :: 0 <= k < |f.timeline| && f.timeline[k].time.Contains(Shown(session, now))
                        && f.timeline[k].availability == f.availability
    ensures f.availability.publicLanes == |StripsHolding(f.dayView, Shown(session, now), true)|
    ensures f.availability.reservedLanes == |StripsHolding(f.dayView, Shown(session, now), false)|
    ensures f.bestPublic.None? <==> forall k :: 0 <= k < |f.timeline| ==> f.timeline[k].availability.publicLanes == 0
    ensures f.bestPublic.Some? ==>
      && (exists k :: 0 <= k < |f.timeline| && f.timeline[k].availability.publicLanes == f.bestPublic.value.publicLanes)
      && forall k :: 0 <= k < |f.timeline| ==> f.timeline[k].availability.publicLanes <= f.bestPublic.value.publicLanes
  {
    var k := ShownIsOnTimeline(plan, wd, session, now, f);
    AvailabilityAgreesWithStrips(plan, wd, Shown(session, now), f.availability, f.dayView);
    BestIsTimelinePeak(plan, wd, session, f.bestPublic, f.timeline);
  }
}
