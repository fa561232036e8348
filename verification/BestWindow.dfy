/** The best time to come: the earliest stretch with the most public lanes. */
module BestWindow {
  import opened Prelude
  import opened Schedule
  import opened LanePlans
  import opened Sorting
  import opened LaneQueries
  import LaneViews

  datatype PublicWindow = PublicWindow(time: TimeRange, publicLanes: nat)

  ghost predicate InScope(within: Option<TimeRange>, t: int) {
    within.None? || within.value.start <= t < within.value.end
  }

  ghost function PublicCount(rs: Reservations, wd: Weekday, t: int): nat {
    |PublicLanes(rs, wd, t)|
  }

  /** No window iff no public lane at any instant in scope; otherwise the window lies in scope, its
      count holds throughout and is nowhere exceeded, no earlier instant reaches it, and the next
      instant, if still in scope, differs. */
  ghost predicate IsBest(rs: Reservations, wd: Weekday, within: Option<TimeRange>, best: Option<PublicWindow>) {
    match best
    case None => forall t :: InScope(within, t) ==> PublicCount(rs, wd, t) == 0
    case Some(w) =>
      && w.publicLanes > 0
      && (forall t :: w.time.Contains(t) ==> InScope(within, t) && PublicCount(rs, wd, t) == w.publicLanes)
      && (forall t :: InScope(within, t) ==> PublicCount(rs, wd, t) <= w.publicLanes)
      && (forall t :: InScope(within, t) && t < w.time.start ==> PublicCount(rs, wd, t) < w.publicLanes)
      && (InScope(within, w.time.end) ==> PublicCount(rs, wd, w.time.end) != w.publicLanes)
  }

  lemma BestUnique(
    rs: Reservations, wd: Weekday, within: Option<TimeRange>, p: Option<PublicWindow>, q: Option<PublicWindow>)
    requires IsBest(rs, wd, within, p) && IsBest(rs, wd, within, q)
    ensures p == q
  {
    match (p, q)
    case (None, None) =>
    case (Some(v), None) => assert v.time.Contains(v.time.start);
    case (None, Some(w)) => assert w.time.Contains(w.time.start);
    case (Some(v), Some(w)) =>
      assert v.time.Contains(v.time.start) && w.time.Contains(w.time.start);
      assert v.time.end < w.time.end ==> w.time.Contains(v.time.end);
      assert w.time.end < v.time.end ==> v.time.Contains(w.time.end);
  }

  // --- clipped public reservations --------------------------------------------------

  function ClippedTo(span: TimeRange, within: Option<TimeRange>): Option<TimeRange> {
    match within
    case None => Some(span)
    case Some(w) =>
      var lo := if span.start < w.start then w.start else span.start;
      var hi := if span.end < w.end then span.end else w.end;
      if lo < hi then Some(Span(lo, hi)) else None
  }

  datatype Clip = Clip(span: TimeRange, lanes: set<int>)

  ghost function LanesAt(clips: seq<Clip>, t: int): set<int> {
    set c, lane | c in clips && c.span.Contains(t) && lane in c.lanes :: lane
  }

  ghost predicate Clipped(rs: Reservations, wd: Weekday, within: Option<TimeRange>, clips: seq<Clip>) {
    && (forall c, t :: c in clips && c.span.Contains(t) ==> InScope(within, t))
    && (forall t :: InScope(within, t) ==> LanesAt(clips, t) == PublicLanes(rs, wd, t))
  }

  lemma LanesAtSnoc(clips: seq<Clip>, c: Clip, t: int)
    ensures LanesAt(clips + [c], t) == LanesAt(clips, t) + if c.span.Contains(t) then c.lanes else {}
  {
    var longer := clips + [c];
    assert c in longer && forall x :: x in longer <==> x in clips || x == c;
    forall lane
      ensures lane in LanesAt(longer, t) <==> lane in LanesAt(clips, t) || (c.span.Contains(t) && lane in c.lanes)
    {
      if x :| x in longer && x.span.Contains(t) && lane in x.lanes {
        assert x == c || lane in LanesAt(clips, t);
      }
      if x :| x in clips && x.span.Contains(t) && lane in x.lanes {
        assert x in longer;
      }
    }
  }

  lemma PublicLanesSnoc(rs: Reservations, r: LaneReservation, wd: Weekday, t: int)
    ensures PublicLanes(rs + [r], wd, t)
         == PublicLanes(rs, wd, t) + if ActiveAt(r, wd, t) && r.access.PublicSwim? then r.lanes else {}
  {
    var longer := rs + [r];
    var lanes := PublicLanes(rs, wd, t) + if ActiveAt(r, wd, t) && r.access.PublicSwim? then r.lanes else {};
    assert r in longer && forall x :: x in longer <==> x in rs || x == r;
    forall lane ensures lane in PublicLanes(longer, wd, t) <==> lane in lanes {
      if x :| x in longer && ActiveAt(x, wd, t) && x.access.PublicSwim? && lane in x.lanes {
        assert x == r || lane in PublicLanes(rs, wd, t);
      }
      if x :| x in rs && ActiveAt(x, wd, t) && x.access.PublicSwim? && lane in x.lanes {
        assert x in longer;
      }
    }
  }

  lemma ClipStep(rs: Reservations, i: nat, wd: Weekday, within: Option<TimeRange>, clips: seq<Clip>)
    requires i < |rs| && Clipped(rs[..i], wd, within, clips)
    ensures var r := rs[i];
            var clipped := ClippedTo(r.time, within);
            Clipped(rs[..i + 1], wd, within,
                    if wd in r.weekdays && r.access.PublicSwim? && clipped.Some?
                    then clips + [Clip(clipped.value, r.lanes)] else clips)
  {
    var r := rs[i];
    var clipped := ClippedTo(r.time, within);
    var grown := wd in r.weekdays && r.access.PublicSwim? && clipped.Some?;
    var clips' := if grown then clips + [Clip(clipped.value, r.lanes)] else clips;
    assert rs[..i + 1] == rs[..i] + [r];
    forall t | InScope(within, t) ensures LanesAt(clips', t) == PublicLanes(rs[..i + 1], wd, t) {
      PublicLanesSnoc(rs[..i], r, wd, t);
      if grown {
        LanesAtSnoc(clips, Clip(clipped.value, r.lanes), t);
      }
    }
    if grown {
      assert forall c :: c in clips' <==> c in clips || c == Clip(clipped.value, r.lanes);
    }
  }

  method PublicClips(rs: Reservations, wd: Weekday, within: Option<TimeRange>) returns (clips: seq<Clip>)
    ensures Clipped(rs, wd, within, clips)
  {
    clips := [];
    for i := 0 to |rs|
      invariant Clipped(rs[..i], wd, within, clips)
    {
      ClipStep(rs, i, wd, within, clips);
      if wd in rs[i].weekdays && rs[i].access.PublicSwim? {
        var clipped := ClippedTo(rs[i].time, within);
        if clipped.Some? {
          clips := clips + [Clip(clipped.value, rs[i].lanes)];
        }
      }
    }
    assert rs[..|rs|] == rs;
  }

  // --- the sweep over cut points ----------------------------------------------------

  ghost predicate IsCut(clips: seq<Clip>, x: int) {
    exists c :: c in clips && (c.span.start == x || c.span.end == x)
  }

  ghost predicate AreCuts(clips: seq<Clip>, bounds: seq<int>) {
    && Ascending(bounds)
    && (forall c :: c in clips ==> c.span.start in bounds && c.span.end in bounds)
    && (forall x {:trigger IsCut(clips, x)} :: x in bounds ==> IsCut(clips, x))
  }

  lemma BoundBesideCut(bounds: seq<int>, k: nat, x: int)
    requires Ascending(bounds) && k + 1 < |bounds| && x in bounds
    ensures x <= bounds[k] || bounds[k + 1] <= x
  {
    var i :| 0 <= i < |bounds| && bounds[i] == x;
    assert i < k ==> bounds[i] < bounds[k];
    assert k + 1 < i ==> bounds[k + 1] < bounds[i];
  }

  /** Inside a cut, a clip holds throughout or not at all. */
  lemma ClipSpansCut(clips: seq<Clip>, bounds: seq<int>, k: nat, c: Clip, t: int)
    requires AreCuts(clips, bounds) && k + 1 < |bounds| && bounds[k] <= t < bounds[k + 1] && c in clips
    ensures c.span.Contains(t) <==> c.span.start <= bounds[k] && bounds[k + 1] <= c.span.end
  {
    BoundBesideCut(bounds, k, c.span.start);
    BoundBesideCut(bounds, k, c.span.end);
  }

  method LanesInCut(clips: seq<Clip>, bounds: seq<int>, k: nat) returns (lanes: set<int>)
    requires AreCuts(clips, bounds) && k + 1 < |bounds|
    ensures forall t :: bounds[k] <= t < bounds[k + 1] ==> lanes == LanesAt(clips, t)
  {
    lanes := {};
    for i := 0 to |clips|
      invariant forall t :: bounds[k] <= t < bounds[k + 1] ==> lanes == LanesAt(clips[..i], t)
    {
      var c, before := clips[i], lanes;
      if c.span.start <= bounds[k] && bounds[k + 1] <= c.span.end {
        lanes := lanes + c.lanes;
      }
      ghost var prefix := clips[..i + 1];
      forall t | bounds[k] <= t < bounds[k + 1] ensures lanes == LanesAt(prefix, t) {
        assert prefix == clips[..i] + [c];
        LanesAtSnoc(clips[..i], c, t);
        ClipSpansCut(clips, bounds, k, c, t);
      }
    }
    assert clips[..|clips|] == clips;
  }

  /** Windows found so far: in order, each with its constant positive count, nothing public
      between them, and two that touch differ in count. */
  ghost predicate Swept(clips: seq<Clip>, lo: int, hi: int, ws: seq<PublicWindow>) {
    && InSequence(lo, hi, ws) && Counted(clips, ws)
    && (forall t :: lo <= t < hi && |LanesAt(clips, t)| > 0 ==> InSome(ws, t))
  }

  ghost predicate InSequence(lo: int, hi: int, ws: seq<PublicWindow>) {
    && (forall i :: 0 <= i < |ws| ==> lo <= ws[i].time.start && ws[i].time.end <= hi && ws[i].publicLanes > 0)
    && (forall i, j :: 0 <= i < j < |ws| ==> ws[i].time.end <= ws[j].time.start)
    && (forall i, j :: 0 <= i < j < |ws| && j == i + 1 && ws[i].time.end == ws[j].time.start
          ==> ws[i].publicLanes != ws[j].publicLanes)
  }

  ghost predicate Counted(clips: seq<Clip>, ws: seq<PublicWindow>) {
    forall i, t :: 0 <= i < |ws| && ws[i].time.Contains(t) ==> |LanesAt(clips, t)| == ws[i].publicLanes
  }

  ghost predicate InSome(ws: seq<PublicWindow>, t: int) {
    exists i :: 0 <= i < |ws| && ws[i].time.Contains(t)
  }

  lemma SweepSkips(clips: seq<Clip>, lo: int, mid: int, hi: int, ws: seq<PublicWindow>)
    requires Swept(clips, lo, mid, ws) && mid <= hi
    requires forall t :: mid <= t < hi ==> |LanesAt(clips, t)| == 0
    ensures Swept(clips, lo, hi, ws)
  {
  }

  lemma InSomeSnoc(ws: seq<PublicWindow>, w: PublicWindow, t: int)
    ensures InSome(ws + [w], t) <==> InSome(ws, t) || w.time.Contains(t)
  {
    var longer := ws + [w];
    assert w.time.Contains(t) ==> longer[|ws|].time.Contains(t);
    if i :| 0 <= i < |ws| && ws[i].time.Contains(t) {
      assert longer[i].time.Contains(t);
    }
  }

  lemma OpensInSequence(lo: int, mid: int, hi: int, ws: seq<PublicWindow>, w: PublicWindow)
    requires InSequence(lo, mid, ws) && lo <= mid && w.time.start == mid && w.time.end == hi && w.publicLanes > 0
    requires ws != [] && ws[|ws| - 1].time.end == mid ==> ws[|ws| - 1].publicLanes != w.publicLanes
    ensures InSequence(lo, hi, ws + [w])
  {
    var longer := ws + [w];
    forall i | 0 <= i < |longer|
      ensures lo <= longer[i].time.start && longer[i].time.end <= hi && longer[i].publicLanes > 0
    {
      assert i < |ws| ==> longer[i] == ws[i];
    }
    forall i, j | 0 <= i < j < |longer|
      ensures longer[i].time.end <= longer[j].time.start
      ensures j == i + 1 && longer[i].time.end == longer[j].time.start
              ==> longer[i].publicLanes != longer[j].publicLanes
    {
      assert longer[i] == ws[i];
      assert j < |ws| ==> longer[j] == ws[j];
    }
  }

  lemma CountedSnoc(clips: seq<Clip>, ws: seq<PublicWindow>, w: PublicWindow)
    requires Counted(clips, ws) && forall t :: w.time.Contains(t) ==> |LanesAt(clips, t)| == w.publicLanes
    ensures Counted(clips, ws + [w])
  {
    var longer := ws + [w];
    forall i, t | 0 <= i < |longer| && longer[i].time.Contains(t) ensures |LanesAt(clips, t)| == longer[i].publicLanes {
      assert i < |ws| ==> longer[i] == ws[i];
    }
  }

  lemma SweepOpens(clips: seq<Clip>, lo: int, mid: int, hi: int, ws: seq<PublicWindow>, count: nat)
    requires Swept(clips, lo, mid, ws) && lo <= mid < hi && count > 0
    requires forall t :: mid <= t < hi ==> |LanesAt(clips, t)| == count
    requires ws != [] && ws[|ws| - 1].time.end == mid ==> ws[|ws| - 1].publicLanes != count
    ensures Swept(clips, lo, hi, ws + [PublicWindow(Span(mid, hi), count)])
  {
    var w := PublicWindow(Span(mid, hi), count);
    OpensInSequence(lo, mid, hi, ws, w);
    CountedSnoc(clips, ws, w);
    forall t | lo <= t < hi && |LanesAt(clips, t)| > 0 ensures InSome(ws + [w], t) {
      InSomeSnoc(ws, w, t);
    }
  }

  lemma ExtendsInSequence(lo: int, mid: int, hi: int, ws: seq<PublicWindow>)
    requires InSequence(lo, mid, ws) && mid < hi && ws != [] && ws[|ws| - 1].time.end == mid
    ensures InSequence(lo, hi, Extended(ws, hi))
  {
  }

  function Extended(ws: seq<PublicWindow>, hi: int): seq<PublicWindow>
    requires ws != [] && ws[|ws| - 1].time.end < hi
  {
    var last := ws[|ws| - 1];
    ws[..|ws| - 1] + [PublicWindow(Span(last.time.start, hi), last.publicLanes)]
  }

  lemma SweepExtends(clips: seq<Clip>, lo: int, mid: int, hi: int, ws: seq<PublicWindow>)
    requires Swept(clips, lo, mid, ws) && mid < hi && ws != [] && ws[|ws| - 1].time.end == mid
    requires forall t :: mid <= t < hi ==> |LanesAt(clips, t)| == ws[|ws| - 1].publicLanes
    ensures Swept(clips, lo, hi, Extended(ws, hi))
  {
    var last := |ws| - 1;
    var front, w := ws[..last], Extended(ws, hi)[last];
    ExtendsInSequence(lo, mid, hi, ws);
    forall t | lo <= t < hi && |LanesAt(clips, t)| > 0 ensures InSome(front + [w], t) {
      InSomeSnoc(front, w, t);
      InSomeSnoc(front, ws[last], t);
      assert ws == front + [ws[last]];
    }
    forall i, t | 0 <= i <= last && (front + [w])[i].time.Contains(t)
      ensures |LanesAt(clips, t)| == (front + [w])[i].publicLanes
    {
      assert i < last ==> ws[i].time.Contains(t);
      assert i == last && t < mid ==> ws[last].time.Contains(t);
    }
  }

  method Sweep(clips: seq<Clip>, bounds: seq<int>) returns (ws: seq<PublicWindow>)
    requires AreCuts(clips, bounds) && |bounds| > 0
    ensures Swept(clips, bounds[0], bounds[|bounds| - 1], ws)
  {
    ws := [];
    for k := 0 to |bounds| - 1
      invariant Swept(clips, bounds[0], bounds[k], ws)
    {
      var lo, hi := bounds[k], bounds[k + 1];
      assert bounds[0] <= lo;
      var lanes := LanesInCut(clips, bounds, k);
      var count := |lanes|;
      if count == 0 {
        SweepSkips(clips, bounds[0], lo, hi, ws);
      } else if ws != [] && ws[|ws| - 1].publicLanes == count && ws[|ws| - 1].time.end == lo {
        SweepExtends(clips, bounds[0], lo, hi, ws);
        ws := ws[..|ws| - 1] + [PublicWindow(Span(ws[|ws| - 1].time.start, hi), count)];
      } else {
        SweepOpens(clips, bounds[0], lo, hi, ws, count);
        ws := ws + [PublicWindow(Span(lo, hi), count)];
      }
    }
  }

  /** Python's `max`: the first of the largest. */
  method FirstLargest(ws: seq<PublicWindow>) returns (m: nat)
    requires ws != []
    ensures m < |ws|
    ensures forall i :: 0 <= i < |ws| ==> ws[i].publicLanes <= ws[m].publicLanes
    ensures forall i :: 0 <= i < m ==> ws[i].publicLanes < ws[m].publicLanes
  {
    m := 0;
    for k := 1 to |ws|
      invariant m < k
      invariant forall i :: 0 <= i < k ==> ws[i].publicLanes <= ws[m].publicLanes
      invariant forall i :: 0 <= i < m ==> ws[i].publicLanes < ws[m].publicLanes
    {
      if ws[m].publicLanes < ws[k].publicLanes {
        m := k;
      }
    }
  }

  lemma InsideCuts(clips: seq<Clip>, bounds: seq<int>, c: Clip)
    requires AreCuts(clips, bounds) && |bounds| > 0 && c in clips
    ensures bounds[0] <= c.span.start && c.span.end <= bounds[|bounds| - 1]
  {
    var i :| 0 <= i < |bounds| && bounds[i] == c.span.start;
    var j :| 0 <= j < |bounds| && bounds[j] == c.span.end;
    assert 0 < i ==> bounds[0] < bounds[i];
    assert j < |bounds| - 1 ==> bounds[j] < bounds[|bounds| - 1];
  }

  lemma NothingOutside(clips: seq<Clip>, bounds: seq<int>, t: int)
    requires AreCuts(clips, bounds) && |bounds| > 0 && !(bounds[0] <= t < bounds[|bounds| - 1])
    ensures LanesAt(clips, t) == {}
  {
    forall lane ensures lane !in LanesAt(clips, t) {
      if c :| c in clips && c.span.Contains(t) && lane in c.lanes {
        InsideCuts(clips, bounds, c);
      }
    }
    NoMembers(LanesAt(clips, t));
  }

  lemma LargestIsBest(
    rs: Reservations, wd: Weekday, within: Option<TimeRange>, clips: seq<Clip>, bounds: seq<int>,
    ws: seq<PublicWindow>, m: nat)
    requires Clipped(rs, wd, within, clips) && AreCuts(clips, bounds) && |bounds| > 0
    requires Swept(clips, bounds[0], bounds[|bounds| - 1], ws) && m < |ws|
    requires forall i :: 0 <= i < |ws| ==> ws[i].publicLanes <= ws[m].publicLanes
    requires forall i :: 0 <= i < m ==> ws[i].publicLanes < ws[m].publicLanes
    ensures IsBest(rs, wd, within, Some(ws[m]))
  {
    var w := ws[m];
    forall t | w.time.Contains(t) ensures InScope(within, t) && PublicCount(rs, wd, t) == w.publicLanes {
      WindowInScope(rs, wd, within, clips, ws, t, m);
    }
    forall t | InScope(within, t)
      ensures PublicCount(rs, wd, t) <= w.publicLanes
      ensures t < w.time.start ==> PublicCount(rs, wd, t) < w.publicLanes
      ensures t == w.time.end ==> PublicCount(rs, wd, t) != w.publicLanes
    {
      assert LanesAt(clips, t) == PublicLanes(rs, wd, t);
      if !(bounds[0] <= t < bounds[|bounds| - 1]) {
        NothingOutside(clips, bounds, t);
      } else if |LanesAt(clips, t)| > 0 {
        var i :| 0 <= i < |ws| && ws[i].time.Contains(t);
        WindowBeside(clips, bounds[0], bounds[|bounds| - 1], ws, i, m, t);
      }
    }
  }

  lemma WindowInScope(
    rs: Reservations, wd: Weekday, within: Option<TimeRange>, clips: seq<Clip>, ws: seq<PublicWindow>, t: int, m: nat)
    requires Clipped(rs, wd, within, clips) && m < |ws| && ws[m].time.Contains(t) && ws[m].publicLanes > 0
    requires |LanesAt(clips, t)| == ws[m].publicLanes
    ensures InScope(within, t) && PublicCount(rs, wd, t) == ws[m].publicLanes
  {
    var lane := AnyOf(LanesAt(clips, t));
    var c :| c in clips && c.span.Contains(t) && lane in c.lanes;
    assert LanesAt(clips, t) == PublicLanes(rs, wd, t);
  }

  /** A window that holds an instant before, or just after, another lies on that side of it. */
  lemma WindowBeside(clips: seq<Clip>, lo: int, hi: int, ws: seq<PublicWindow>, i: nat, m: nat, t: int)
    requires Swept(clips, lo, hi, ws) && i < |ws| && m < |ws| && ws[i].time.Contains(t)
    ensures t < ws[m].time.start ==> i < m
    ensures t == ws[m].time.end ==> i == m + 1 && ws[i].publicLanes != ws[m].publicLanes
    ensures |LanesAt(clips, t)| == ws[i].publicLanes
  {
    assert i < m ==> ws[i].time.end <= ws[m].time.start;
    assert m < i ==> ws[m].time.end <= ws[i].time.start;
    if m + 1 < i {
      assert ws[m].time.end <= ws[m + 1].time.start < ws[m + 1].time.end <= ws[i].time.start;
    }
  }

  lemma NoWindowIsBest(
    rs: Reservations, wd: Weekday, within: Option<TimeRange>, clips: seq<Clip>, bounds: seq<int>)
    requires Clipped(rs, wd, within, clips) && AreCuts(clips, bounds)
    requires |bounds| > 0 ==> Swept(clips, bounds[0], bounds[|bounds| - 1], [])
    ensures IsBest(rs, wd, within, None)
  {
    forall t | InScope(within, t) ensures PublicCount(rs, wd, t) == 0 {
      assert LanesAt(clips, t) == PublicLanes(rs, wd, t);
      if |bounds| == 0 {
        NoMembers(LanesAt(clips, t));
      } else if !(bounds[0] <= t < bounds[|bounds| - 1]) {
        NothingOutside(clips, bounds, t);
      }
    }
  }

  method CutPoints(clips: seq<Clip>) returns (bounds: seq<int>)
    ensures AreCuts(clips, bounds)
    ensures clips != [] ==> bounds != []
  {
    var starts := set c | c in clips :: c.span.start;
    var ends := set c | c in clips :: c.span.end;
    bounds := SortedSet(starts + ends);
    forall c | c in clips ensures c.span.start in bounds && c.span.end in bounds {
      assert c.span.start in starts && c.span.end in ends;
    }
    forall x | x in bounds ensures IsCut(clips, x) {
      if x in starts {
        var c :| c in clips && c.span.start == x;
      } else {
        var c :| c in clips && c.span.end == x;
      }
    }
    assert clips != [] ==> clips[0] in clips;
  }

  method BestPublicTime(rs: Reservations, wd: Weekday, within: Option<TimeRange>) returns (best: Option<PublicWindow>)
    ensures IsBest(rs, wd, within, best)
  {
    var clips := PublicClips(rs, wd, within);
    if clips == [] {
      NoWindowIsBest(rs, wd, within, clips, []);
      return None;
    }
    var bounds := CutPoints(clips);
    var ws := Sweep(clips, bounds);
    if ws == [] {
      NoWindowIsBest(rs, wd, within, clips, bounds);
      return None;
    }
    var m := FirstLargest(ws);
    LargestIsBest(rs, wd, within, clips, bounds, ws, m);
    return Some(ws[m]);
  }

  // --- agreement with the timeline --------------------------------------------------

  /** Over one session, the best window's count is the timeline's peak, and there is a window
      exactly when some segment has a public lane. */
  lemma BestIsTimelinePeak(
    plan: LanePlan, wd: Weekday, within: TimeRange, best: Option<PublicWindow>,
    segments: seq<LaneViews.LaneSlotAvailability>)
    requires IsBest(plan.reservations, wd, Some(within), best)
    requires LaneViews.IsTimeline(plan, wd, within, segments)
    ensures best.None? <==> forall k :: 0 <= k < |segments| ==> segments[k].availability.publicLanes == 0
    ensures best.Some? ==>
              && (forall k :: 0 <= k < |segments| ==> segments[k].availability.publicLanes <= best.value.publicLanes)
              && exists k :: 0 <= k < |segments| && segments[k].availability.publicLanes == best.value.publicLanes
  {
    forall k | 0 <= k < |segments|
      ensures within.Contains(segments[k].time.start)
      ensures segments[k].availability.publicLanes == PublicCount(plan.reservations, wd, segments[k].time.start)
    {
      assert LaneViews.ConstantOver(plan, wd, segments[k]) && segments[k].time.Contains(segments[k].time.start);
      LaneViews.TimelineTilesExactly(segments, within, segments[k].time.start);
    }
    if best.Some? {
      var t := best.value.time.start;
      assert best.value.time.Contains(t) && InScope(Some(within), t);
      LaneViews.TimelineTilesExactly(segments, within, t);
      var k :| 0 <= k < |segments| && segments[k].time.Contains(t);
      assert LaneViews.ConstantOver(plan, wd, segments[k]);
    }
  }
}
