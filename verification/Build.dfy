/** The build: four sources through the refresh policy, one composed store, one atomic swap. */
module Build {
  import opened Prelude
  import opened Silver
  import opened Refresh

  /** The composed store: what was composed, and the freshness rows. Composition itself is taken as
      an uninterpreted function of these inputs, so a store is told apart by them. */
  datatype Composition<C, V> = Composition(curated: C, roster: V, prices: V, schedules: V, lanes: V)

  datatype Gold<C, V> = Gold(content: Composition<C, V>, freshness: seq<SilverHeader>, builtAt: Instant)

  datatype Exit = Code(code: int) | Interrupted

  const EXIT_BUILT_STALE := 2

  type Codecs<!V> = Source -> Codec<V>

  /** One invocation: the clock, what is forced, what each fetch would bring, whether the offline
      phases leave a name unresolved or fail to attach, and after how many steps (if ever) an
      exception or a crash cuts it short. */
  datatype Job<C, !V> = Job(
    now: Instant, force: bool, forceSources: set<Source>, fetch: Source -> FetchOutcome<V>, curated: Option<C>,
    unresolvedNames: bool, lanesFatal: bool, steps: nat)
  {
    function RunOf(s: Source): Run<V> { Run(now, fetch(s), force || s in forceSources) }
  }

  datatype HostState<C, V> = HostState(docs: Docs, gold: Option<Gold<C, V>>)

  // --- the build as a function of the state -----------------------------------------

  ghost function Phase<C, V>(docs: Docs, s: Source, job: Job<C, V>, codecs: Codecs<V>)
    : (Docs, Result<Refreshed<V>, RefreshFailure>)
  {
    var before := ReadDoc(docs, s);
    var run := Run(job.now, job.fetch(s), job.force || s in job.forceSources);
    var codec, rule := codecs(s), SilverPolicy(s);
    (StoreAfter(docs, s, before, After(before, s, run, codec, rule)), Answer(before, s, run, codec, rule))
  }

  /** What reached the end of the staged part: the four refreshed sources, in order. */
  datatype Staged<C, V> = Staged(
    curated: C, roster: Refreshed<V>, prices: Refreshed<V>, schedules: Refreshed<V>, lanes: Refreshed<V>)
  {
    ghost function Headers(): seq<SilverHeader> {
      [roster.header, prices.header, schedules.header, lanes.header]
    }

    ghost predicate AnyStale() {
      roster.header.status.Stale? || prices.header.status.Stale? || schedules.header.status.Stale?
      || lanes.header.status.Stale?
    }

    ghost function ToGold(builtAt: Instant): Gold<C, V> {
      Gold(Composition(curated, roster.value, prices.value, schedules.value, lanes.value), Headers(), builtAt)
    }
  }

  datatype Progress<C, V> = Stopped(docs: Docs, exit: Exit) | Ready(docs: Docs, staged: Staged<C, V>)

  /** Everything up to the commit, in phase order, with every early way out. */
  ghost function Stage<C, V>(docs: Docs, job: Job<C, V>, codecs: Codecs<V>): Progress<C, V> {
    if job.steps < 1 then Stopped(docs, Interrupted) else
    var (d1, roster) := Phase(docs, Roster, job, codecs);
    if roster.Err? || job.curated.None? then Stopped(d1, Code(1))
    else if job.steps < 2 then Stopped(d1, Interrupted) else
    var (d2, prices) := Phase(d1, Prices, job, codecs);
    if prices.Err? then Stopped(d2, Code(1))
    else if job.steps < 3 then Stopped(d2, Interrupted) else
    var (d3, schedules) := Phase(d2, Schedules, job, codecs);
    if schedules.Err? then Stopped(d3, Code(1))
    else if job.steps < 4 then Stopped(d3, Interrupted) else
    var (d4, lanes) := Phase(d3, LanePlans, job, codecs);
    if lanes.Err? || job.lanesFatal then Stopped(d4, Code(1))
    else if job.steps < 5 then Stopped(d4, Interrupted)
    else Ready(d4, Staged(job.curated.value, roster.value, prices.value, schedules.value, lanes.value))
  }

  ghost function ExitCode<C, V>(job: Job<C, V>, staged: Staged<C, V>): int {
    if job.unresolvedNames then 1
    else if staged.AnyStale() then 2
    else 0
  }

  ghost function BuildStep<C, V>(h: HostState<C, V>, job: Job<C, V>, codecs: Codecs<V>): (HostState<C, V>, Exit) {
    match Stage(h.docs, job, codecs)
    case Stopped(docs, exit) => (HostState(docs, h.gold), exit)
    case Ready(docs, staged) =>
      if job.steps < 6 then (HostState(docs, h.gold), Interrupted)
      else (HostState(docs, Some(staged.ToGold(job.now))),
            if job.steps < 7 then Interrupted else Code(ExitCode(job, staged)))
  }

  // --- the build as it runs ---------------------------------------------------------

  /** A pending write: it replaces the target at the end only if it was committed. */
  class Staging<G> {
    var content: Option<G>
    var committed: bool

    constructor ()
      ensures content == None && !committed
    {
      content, committed := None, false;
    }

    method Commit()
      modifies this`committed
      ensures committed
    {
      committed := true;
    }
  }

  class Host<C(0), V(0)> {
    const lake: Lake
    var gold: Option<Gold<C, V>>

    constructor (lake: Lake, gold: Option<Gold<C, V>>)
      ensures this.lake == lake && this.gold == gold
    {
      this.lake, this.gold := lake, gold;
    }

    ghost function State(): HostState<C, V>
      reads this, lake
    {
      HostState(lake.docs, gold)
    }

    /** Leaving the swap: an escaping exception or no commit leaves the target alone; otherwise it
        is replaced in one step. */
    method EndSwap(staging: Staging<Gold<C, V>>, raised: bool)
      modifies this`gold
      ensures gold == if !raised && staging.committed && staging.content.Some? then staging.content else old(gold)
    {
      if !raised && staging.committed && staging.content.Some? {
        gold := staging.content;
      }
    }

    method Build(job: Job<C, V>, codecs: Codecs<V>) returns (exit: Exit)
      requires lake.Valid()
      modifies this, lake
      ensures lake.Valid()
      ensures (State(), exit) == BuildStep(old(State()), job, codecs)
    {
      if job.steps < 1 { return Interrupted; }
      var roster := RefreshSource(lake, Roster, job.RunOf(Roster), codecs(Roster), SilverPolicy(Roster));
      if roster.Err? || job.curated.None? { return Code(1); }
      if job.steps < 2 { return Interrupted; }
      var prices := RefreshSource(lake, Prices, job.RunOf(Prices), codecs(Prices), SilverPolicy(Prices));
      if prices.Err? { return Code(1); }
      var staging := new Staging<Gold<C, V>>();
      exit := BuildStaged(job, codecs, roster.value, prices.value, staging);
      EndSwap(staging, exit.Interrupted?);
      if job.steps < 7 && exit.Code? && staging.committed { return Interrupted; }
    }

    /** The store-writing chain inside the swap. */
    method BuildStaged(
      job: Job<C, V>, codecs: Codecs<V>, roster: Refreshed<V>, prices: Refreshed<V>, staging: Staging<Gold<C, V>>)
      returns (exit: Exit)
      requires lake.Valid() && job.curated.Some? && !staging.committed && staging.content.None?
      modifies lake, staging
      ensures lake.Valid() && gold == old(gold)
      ensures var (d3, schedules) := Phase(old(lake.docs), Schedules, job, codecs);
              var (d4, lanes) := Phase(d3, LanePlans, job, codecs);
              if job.steps < 3 then lake.docs == old(lake.docs) && exit == Interrupted && !staging.committed
              else if schedules.Err? then lake.docs == d3 && exit == Code(1) && !staging.committed
              else if job.steps < 4 then lake.docs == d3 && exit == Interrupted && !staging.committed
              else if lanes.Err? || job.lanesFatal then lake.docs == d4 && exit == Code(1) && !staging.committed
              else if job.steps < 5 then lake.docs == d4 && exit == Interrupted && !staging.committed
              else
                var staged := Staged(job.curated.value, roster, prices, schedules.value, lanes.value);
                && lake.docs == d4 && staging.committed && staging.content == Some(staged.ToGold(job.now))
                && exit == if job.steps < 6 then Interrupted else Code(ExitCode(job, staged))
    {
      if job.steps < 3 { return Interrupted; }
      var refreshed := [roster.header, prices.header];
      var schedules := RefreshSource(lake, Schedules, job.RunOf(Schedules), codecs(Schedules), SilverPolicy(Schedules));
      if schedules.Err? { return Code(1); }
      refreshed := refreshed + [schedules.value.header];
      if job.steps < 4 { return Interrupted; }
      var lanes := RefreshSource(lake, LanePlans, job.RunOf(LanePlans), codecs(LanePlans), SilverPolicy(LanePlans));
      if lanes.Err? { return Code(1); }
      refreshed := refreshed + [lanes.value.header];
      if job.lanesFatal { return Code(1); }
      if job.steps < 5 { return Interrupted; }
      staging.content := Some(Gold(
        Composition(job.curated.value, roster.value, prices.value, schedules.value.value, lanes.value.value),
        refreshed, job.now));
      assert refreshed == [roster.header, prices.header, schedules.value.header, lanes.value.header];
      staging.Commit();
      if job.steps < 6 { return Interrupted; }
      var code := if job.unresolvedNames then 1 else 0;
      if code == 0 && (roster.header.status.Stale? || prices.header.status.Stale?
                       || schedules.value.header.status.Stale? || lanes.value.header.status.Stale?) {
        return Code(EXIT_BUILT_STALE);
      }
      return Code(code);
    }
  }

  // --- what one build does ----------------------------------------------------------

  /** The build reaches its end and replaces the store. */
  ghost predicate Replaces<C, V>(h: HostState<C, V>, job: Job<C, V>, codecs: Codecs<V>) {
    Stage(h.docs, job, codecs).Ready? && job.steps >= 6
  }

  /** The lake's four headers, in pipeline order. */
  ghost predicate HeadersAre(docs: Docs, headers: seq<SilverHeader>) {
    && (forall s: Source :: ReadDoc(docs, s).Some?)
    && headers == [ReadDoc(docs, Roster).value.header, ReadDoc(docs, Prices).value.header,
                   ReadDoc(docs, Schedules).value.header, ReadDoc(docs, LanePlans).value.header]
  }

  /** A value a build served, against the document the lake is left with. */
  ghost predicate ServedFrom<V>(r: Refreshed<V>, doc: SilverDoc, now: Instant, codec: Codec<V>) {
    && r.header == doc.header
    && if r.fetched then doc.payload == codec.encode(r.value, now) && doc.header.fetchedAt == now
       else r.value == codec.decode(doc.payload)
  }

  /** A refreshed source leaves its own document, under the header it reports, and nothing else changed. */
  ghost predicate WroteOne<V>(
    docs: Docs, docs': Docs, s: Source, r: Result<Refreshed<V>, RefreshFailure>, now: Instant, codec: Codec<V>)
  {
    && (forall t :: t != s ==> ReadDoc(docs', t) == ReadDoc(docs, t))
    && (r.Ok? ==> ReadDoc(docs', s).Some? && ServedFrom(r.value, ReadDoc(docs', s).value, now, codec))
    && (r.Err? ==> docs' == docs)
  }

  lemma PhaseWritesOne<C, V>(docs: Docs, s: Source, job: Job<C, V>, codecs: Codecs<V>)
    requires Sound(docs)
    ensures var (docs', r) := Phase(docs, s, job, codecs);
            Sound(docs') && WroteOne(docs, docs', s, r, job.now, codecs(s))
  {
  }

  /** A staged build's four values are those of the four documents the lake then holds. */
  ghost predicate StagedFromLake<C, V>(staged: Staged<C, V>, docs: Docs, now: Instant, codecs: Codecs<V>) {
    && (forall s: Source :: ReadDoc(docs, s).Some?)
    && ServedFrom(staged.roster, ReadDoc(docs, Roster).value, now, codecs(Roster))
    && ServedFrom(staged.prices, ReadDoc(docs, Prices).value, now, codecs(Prices))
    && ServedFrom(staged.schedules, ReadDoc(docs, Schedules).value, now, codecs(Schedules))
    && ServedFrom(staged.lanes, ReadDoc(docs, LanePlans).value, now, codecs(LanePlans))
  }

  lemma FourWritten<C, V>(
    d0: Docs, d1: Docs, d2: Docs, d3: Docs, d4: Docs, staged: Staged<C, V>, now: Instant, codecs: Codecs<V>)
    requires WroteOne(d0, d1, Roster, Ok(staged.roster), now, codecs(Roster))
    requires WroteOne(d1, d2, Prices, Ok(staged.prices), now, codecs(Prices))
    requires WroteOne(d2, d3, Schedules, Ok(staged.schedules), now, codecs(Schedules))
    requires WroteOne(d3, d4, LanePlans, Ok(staged.lanes), now, codecs(LanePlans))
    ensures StagedFromLake(staged, d4, now, codecs)
  {
    forall s: Source ensures ReadDoc(d4, s).Some? {
      match s case Roster => case Prices => case Schedules => case LanePlans =>
    }
  }

  lemma StageKeepsSound<C, V>(docs: Docs, job: Job<C, V>, codecs: Codecs<V>)
    requires Sound(docs)
    ensures Sound(Stage(docs, job, codecs).docs)
  {
    PhaseWritesOne(docs, Roster, job, codecs);
    var d1 := Phase(docs, Roster, job, codecs).0;
    PhaseWritesOne(d1, Prices, job, codecs);
    var d2 := Phase(d1, Prices, job, codecs).0;
    PhaseWritesOne(d2, Schedules, job, codecs);
    PhaseWritesOne(Phase(d2, Schedules, job, codecs).0, LanePlans, job, codecs);
  }

  lemma ReadyUsesLake<C, V>(docs: Docs, job: Job<C, V>, codecs: Codecs<V>)
    requires Sound(docs) && Stage(docs, job, codecs).Ready?
    ensures var p := Stage(docs, job, codecs);
            StagedFromLake(p.staged, p.docs, job.now, codecs)
  {
    PhaseWritesOne(docs, Roster, job, codecs);
    var d1 := Phase(docs, Roster, job, codecs).0;
    PhaseWritesOne(d1, Prices, job, codecs);
    var d2 := Phase(d1, Prices, job, codecs).0;
    PhaseWritesOne(d2, Schedules, job, codecs);
    var d3 := Phase(d2, Schedules, job, codecs).0;
    PhaseWritesOne(d3, LanePlans, job, codecs);
    var p := Stage(docs, job, codecs);
    FourWritten(docs, d1, d2, d3, p.docs, p.staged, job.now, codecs);
  }

  /** A run leaves a sound lake, and the four values of one that is ready to commit are those of the
      four documents the lake then holds. */
  lemma StageUsesLake<C, V>(docs: Docs, job: Job<C, V>, codecs: Codecs<V>)
    requires Sound(docs)
    ensures var p := Stage(docs, job, codecs);
            Sound(p.docs) && (p.Ready? ==> StagedFromLake(p.staged, p.docs, job.now, codecs))
  {
    StageKeepsSound(docs, job, codecs);
    if Stage(docs, job, codecs).Ready? {
      ReadyUsesLake(docs, job, codecs);
    }
  }

  /** Exit 0: replaced, no source stale. Exit 2: replaced, some source stale. Exit 1: the store is
      untouched, or replaced with a name left unresolved. No other code; an interrupted build that
      did not reach the swap leaves the store untouched. */
  lemma ExitTells<C, V>(h: HostState<C, V>, job: Job<C, V>, codecs: Codecs<V>)
    ensures var (h', exit) := BuildStep(h, job, codecs);
            && (exit == Code(0) ==> Replaces(h, job, codecs) && !Stage(h.docs, job, codecs).staged.AnyStale())
            && (exit == Code(2) ==> Replaces(h, job, codecs) && Stage(h.docs, job, codecs).staged.AnyStale())
            && (exit == Code(1) ==> h'.gold == h.gold || (Replaces(h, job, codecs) && job.unresolvedNames))
            && (exit.Code? ==> 0 <= exit.code <= 2)
            && (!Replaces(h, job, codecs) ==> h'.gold == h.gold)
            && (Replaces(h, job, codecs) ==> h'.gold == Some(Stage(h.docs, job, codecs).staged.ToGold(job.now)))
  {
  }

  // --- over every sequence of builds ------------------------------------------------

  ghost function RunBuilds<C, V>(h: HostState<C, V>, jobs: seq<Job<C, V>>, codecs: Codecs<V>): HostState<C, V> {
    if jobs == [] then h
    else BuildStep(RunBuilds(h, jobs[..|jobs| - 1], codecs), jobs[|jobs| - 1], codecs).0
  }

  lemma {:induction false} BuildsKeepSound<C, V>(h: HostState<C, V>, jobs: seq<Job<C, V>>, codecs: Codecs<V>)
    requires Sound(h.docs)
    ensures Sound(RunBuilds(h, jobs, codecs).docs)
  {
    if jobs != [] {
      var front := jobs[..|jobs| - 1];
      BuildsKeepSound(h, front, codecs);
      StageUsesLake(RunBuilds(h, front, codecs).docs, jobs[|jobs| - 1], codecs);
    }
  }

  /** The store is the one build `n` completed: composed of the four documents the lake held when it
      committed, with their headers as freshness rows, and no later build has replaced it. */
  ghost predicate StoreOfBuild<C, V>(
    h: HostState<C, V>, jobs: seq<Job<C, V>>, codecs: Codecs<V>, n: nat, gold: Option<Gold<C, V>>)
    requires n < |jobs|
  {
    var before, after := RunBuilds(h, jobs[..n], codecs), RunBuilds(h, jobs[..n + 1], codecs);
    && BuildReplaces(h, jobs, codecs, n)
    && gold.Some? && jobs[n].curated.Some?
    && gold.value.content.curated == jobs[n].curated.value && gold.value.builtAt == jobs[n].now
    && HeadersAre(after.docs, gold.value.freshness)
    && (var staged := Stage(before.docs, jobs[n], codecs).staged;
        StagedFromLake(staged, after.docs, jobs[n].now, codecs) && gold.value == staged.ToGold(jobs[n].now))
    && NoneReplaces(h, jobs, codecs, n + 1)
  }

  /** Build `m` of the run replaces the store. */
  ghost predicate BuildReplaces<C, V>(h: HostState<C, V>, jobs: seq<Job<C, V>>, codecs: Codecs<V>, m: nat)
    requires m < |jobs|
  {
    Replaces(RunBuilds(h, jobs[..m], codecs), jobs[m], codecs)
  }

  ghost predicate NoneReplaces<C, V>(h: HostState<C, V>, jobs: seq<Job<C, V>>, codecs: Codecs<V>, from: nat) {
    forall m :: from <= m < |jobs| ==> !BuildReplaces(h, jobs, codecs, m)
  }

  /** The store right after a build that replaced it. */
  lemma JustReplaced<C, V>(h: HostState<C, V>, jobs: seq<Job<C, V>>, codecs: Codecs<V>)
    requires Sound(h.docs) && jobs != []
    requires BuildReplaces(h, jobs, codecs, |jobs| - 1)
    ensures StoreOfBuild(h, jobs, codecs, |jobs| - 1, RunBuilds(h, jobs, codecs).gold)
  {
    var k := |jobs| - 1;
    var before, job := RunBuilds(h, jobs[..k], codecs), jobs[k];
    BuildsKeepSound(h, jobs[..k], codecs);
    ExitTells(before, job, codecs);
    StageUsesLake(before.docs, job, codecs);
    assert jobs[..k + 1] == jobs;
  }

  /** A build that does not replace the store leaves it the work of the same earlier build. */
  lemma StillOfBuild<C, V>(
    h: HostState<C, V>, jobs: seq<Job<C, V>>, codecs: Codecs<V>, n: nat, gold: Option<Gold<C, V>>)
    requires n < |jobs| - 1 && StoreOfBuild(h, jobs[..|jobs| - 1], codecs, n, gold)
    requires !BuildReplaces(h, jobs, codecs, |jobs| - 1)
    ensures StoreOfBuild(h, jobs, codecs, n, gold)
  {
    var front := jobs[..|jobs| - 1];
    NoneReplacesLonger(h, jobs, codecs, n + 1);
    SamePast(h, jobs, codecs, n);
    assert front[..n] == jobs[..n] && front[..n + 1] == jobs[..n + 1] && front[n] == jobs[n];
  }

  ghost predicate IsPreviousOrComplete<C, V>(
    h: HostState<C, V>, jobs: seq<Job<C, V>>, codecs: Codecs<V>, gold: Option<Gold<C, V>>)
  {
    || (gold == h.gold && NoneReplaces(h, jobs, codecs, 0))
    || exists n :: 0 <= n < |jobs| && StoreOfBuild(h, jobs, codecs, n, gold)
  }

  lemma StillPreviousOrComplete<C, V>(
    h: HostState<C, V>, jobs: seq<Job<C, V>>, codecs: Codecs<V>, gold: Option<Gold<C, V>>)
    requires jobs != [] && IsPreviousOrComplete(h, jobs[..|jobs| - 1], codecs, gold)
    requires !BuildReplaces(h, jobs, codecs, |jobs| - 1)
    ensures IsPreviousOrComplete(h, jobs, codecs, gold)
  {
    var front := jobs[..|jobs| - 1];
    NoneReplacesLonger(h, jobs, codecs, 0);
    if n :| 0 <= n < |front| && StoreOfBuild(h, front, codecs, n, gold) {
      StillOfBuild(h, jobs, codecs, n, gold);
    }
  }

  /** Over every sequence of builds, aborts, exceptions and crashes included, the store is what it was
      before or the complete work of exactly one of them. */
  lemma {:induction false} StoreIsPreviousOrComplete<C, V>(h: HostState<C, V>, jobs: seq<Job<C, V>>, codecs: Codecs<V>)
    requires Sound(h.docs)
    ensures IsPreviousOrComplete(h, jobs, codecs, RunBuilds(h, jobs, codecs).gold)
  {
    if jobs != [] {
      var front := jobs[..|jobs| - 1];
      if BuildReplaces(h, jobs, codecs, |jobs| - 1) {
        JustReplaced(h, jobs, codecs);
      } else {
        StoreIsPreviousOrComplete(h, front, codecs);
        StoreUntouched(h, jobs, codecs);
        StillPreviousOrComplete(h, jobs, codecs, RunBuilds(h, front, codecs).gold);
      }
    }
  }

  lemma StoreUntouched<C, V>(h: HostState<C, V>, jobs: seq<Job<C, V>>, codecs: Codecs<V>)
    requires jobs != [] && !BuildReplaces(h, jobs, codecs, |jobs| - 1)
    ensures RunBuilds(h, jobs, codecs).gold == RunBuilds(h, jobs[..|jobs| - 1], codecs).gold
  {
    ExitTells(RunBuilds(h, jobs[..|jobs| - 1], codecs), jobs[|jobs| - 1], codecs);
  }

  lemma SamePast<C, V>(h: HostState<C, V>, jobs: seq<Job<C, V>>, codecs: Codecs<V>, m: nat)
    requires m < |jobs| - 1
    ensures BuildReplaces(h, jobs[..|jobs| - 1], codecs, m) == BuildReplaces(h, jobs, codecs, m)
  {
    assert jobs[..|jobs| - 1][..m] == jobs[..m];
  }

  lemma NoneReplacesLonger<C, V>(h: HostState<C, V>, jobs: seq<Job<C, V>>, codecs: Codecs<V>, from: nat)
    requires jobs != [] && from <= |jobs| && !BuildReplaces(h, jobs, codecs, |jobs| - 1)
    ensures NoneReplaces(h, jobs[..|jobs| - 1], codecs, from) ==> NoneReplaces(h, jobs, codecs, from)
  {
    var front := jobs[..|jobs| - 1];
    if NoneReplaces(h, front, codecs, from) {
      forall m | from <= m < |jobs| ensures !BuildReplaces(h, jobs, codecs, m) {
        if m < |front| {
          SamePast(h, jobs, codecs, m);
        }
      }
    }
  }

  // --- rerunning --------------------------------------------------------------------

  /** A rerun inside every TTL, nothing forced, nothing stale, nothing cut short. */
  ghost predicate Rerun<C, V>(docs: Docs, first: Job<C, V>, again: Job<C, V>) {
    && !again.force && again.forceSources == {} && again.curated == first.curated
    && !again.lanesFatal && again.steps >= 6
    && forall s: Source :: ReadDoc(docs, s).Some? && ReadDoc(docs, s).value.header.status == Fresh
                           && again.now - ReadDoc(docs, s).value.header.fetchedAt < SilverPolicy(s).ttl
  }

  ghost predicate RoundTrips<V>(r: Refreshed<V>, codec: Codec<V>) {
    r.fetched ==> codec.decode(codec.encode(r.value, r.header.fetchedAt)) == r.value
  }

  lemma RerunReuses<C, V>(docs: Docs, s: Source, again: Job<C, V>, codecs: Codecs<V>)
    requires !again.force && again.forceSources == {} && ReadDoc(docs, s).Some?
    requires ReadDoc(docs, s).value.header.status == Fresh
    requires again.now - ReadDoc(docs, s).value.header.fetchedAt < SilverPolicy(s).ttl
    ensures var doc := ReadDoc(docs, s).value;
      Phase(docs, s, again, codecs) == (docs, Ok(Refreshed(codecs(s).decode(doc.payload), doc.header, false)))
  {
  }

  /** Rerunning inside all TTLs touches neither the network nor the lake, replaces the store, and
      composes the same content exactly when every value the first build fetched survives being
      written and read back. */
  lemma RerunSameComposition<C, V>(h: HostState<C, V>, first: Job<C, V>, again: Job<C, V>, codecs: Codecs<V>)
    requires Sound(h.docs) && Replaces(h, first, codecs)
    requires Rerun(BuildStep(h, first, codecs).0.docs, first, again)
    ensures var h1 := BuildStep(h, first, codecs).0;
            var h2, staged := BuildStep(h1, again, codecs).0, Stage(h.docs, first, codecs).staged;
            && h2.docs == h1.docs && Replaces(h1, again, codecs)
            && h1.gold.Some? && h2.gold.Some? && h2.gold.value.freshness == h1.gold.value.freshness
            && (h2.gold.value.content == h1.gold.value.content
                <==> RoundTrips(staged.roster, codecs(Roster)) && RoundTrips(staged.prices, codecs(Prices))
                     && RoundTrips(staged.schedules, codecs(Schedules)) && RoundTrips(staged.lanes, codecs(LanePlans)))
  {
    StageUsesLake(h.docs, first, codecs);
    var docs := BuildStep(h, first, codecs).0.docs;
    RerunReuses(docs, Roster, again, codecs);
    RerunReuses(docs, Prices, again, codecs);
    RerunReuses(docs, Schedules, again, codecs);
    RerunReuses(docs, LanePlans, again, codecs);
  }

  lemma FirstFetch<C, V>(docs: Docs, s: Source, job: Job<C, V>, codecs: Codecs<V>, value: V)
    requires ReadDoc(docs, s).None? && job.fetch(s) == Fetched(value)
    ensures var (docs', r) := Phase(docs, s, job, codecs);
            && docs' == docs[s := FreshDoc(s, codecs(s).encode(value, job.now), job.now)]
            && r == Ok(Refreshed(value, docs'[s].header, true))
  {
  }

  /** An uninterrupted first build on an empty lake replaces the store with what was fetched. */
  lemma FirstBuild<C, V>(h: HostState<C, V>, job: Job<C, V>, codecs: Codecs<V>, value: V)
    requires h.docs == map[] && job.curated.Some? && !job.lanesFatal && job.steps >= 6
    requires forall s :: job.fetch(s) == Fetched(value)
    ensures Replaces(h, job, codecs)
    ensures var staged := Stage(h.docs, job, codecs).staged;
            staged.roster.fetched && staged.roster.value == value
    ensures var docs := BuildStep(h, job, codecs).0.docs;
            forall s: Source :: ReadDoc(docs, s) == Some(FreshDoc(s, codecs(s).encode(value, job.now), job.now))
  {
    FirstFetch(h.docs, Roster, job, codecs, value);
    var d1 := Phase(h.docs, Roster, job, codecs).0;
    FirstFetch(d1, Prices, job, codecs, value);
    var d2 := Phase(d1, Prices, job, codecs).0;
    FirstFetch(d2, Schedules, job, codecs, value);
    var d3 := Phase(d2, Schedules, job, codecs).0;
    FirstFetch(d3, LanePlans, job, codecs, value);
    forall s: Source
      ensures ReadDoc(Phase(d3, LanePlans, job, codecs).0, s)
           == Some(FreshDoc(s, codecs(s).encode(value, job.now), job.now))
    {
      match s case Roster => case Prices => case Schedules => case LanePlans =>
    }
  }

  /** A rerun can compose something else: a codec that forgets what it was given makes it so. */
  lemma LossyCodecChangesRerun()
    returns (h: HostState<int, bool>, first: Job<int, bool>, again: Job<int, bool>, codecs: Codecs<bool>)
    ensures Sound(h.docs) && Replaces(h, first, codecs)
    ensures Rerun(BuildStep(h, first, codecs).0.docs, first, again)
    ensures var h1 := BuildStep(h, first, codecs).0;
            var h2 := BuildStep(h1, again, codecs).0;
            h1.gold.Some? && h2.gold.Some? && h2.gold.value.content != h1.gold.value.content
  {
    codecs := (s: Source) => Codec((v: bool, now: Instant) => Atom(""), (j: Json) => false);
    h := HostState(map[], None);
    first := Job(0, false, {}, (s: Source) => Fetched(true), Some(0), false, false, 7);
    again := first;
    FirstBuild(h, first, codecs, true);
    RerunSameComposition(h, first, again, codecs);
  }
}
