/** The per-source refresh policy: reuse while young, refetch when due, keep stale on a transient
    failure while not too old, and abort otherwise. */
module Refresh {
  import opened Prelude
  import opened Silver

  datatype ProviderError =
    | Timeout | ConnectionFailed | HttpStatus(status: int) | RateLimited | DecodeError | ParseError
    | SchemaMismatch | TooLarge | Redirect | ProviderSpecific

  predicate Retriable(e: ProviderError) {
    e.Timeout? || e.ConnectionFailed? || e.RateLimited? || e.Redirect?
  }

  predicate Transient(e: ProviderError) {
    Retriable(e) || (e.HttpStatus? && e.status >= 500)
  }

  /** A failure of the network on the way, or of the server at the other end. */
  ghost predicate Passing(e: ProviderError) {
    match e
    case Timeout | ConnectionFailed | RateLimited | Redirect => true
    case HttpStatus(status) => !(status < 500)
    case DecodeError | ParseError | SchemaMismatch | TooLarge | ProviderSpecific => false
  }

  lemma TransientIsPassing(e: ProviderError)
    ensures Transient(e) <==> Passing(e)
  {
  }

  datatype CachePolicy = CachePolicy(ttl: int, maxStale: int)

  const HOUR := 3600
  const DAY := 24 * HOUR

  /** Each source is governed by its provider's policy. */
  function SilverPolicy(s: Source): CachePolicy {
    match s
    case Roster => CachePolicy(14 * DAY, 90 * DAY)
    case Prices => CachePolicy(7 * DAY, 30 * DAY)
    case Schedules => CachePolicy(12 * HOUR, 14 * DAY)
    case LanePlans => CachePolicy(3 * DAY, 21 * DAY)
  }

  /** How long each source stays young and how long it may stand in for a failed fetch, in hours. */
  lemma PoliciesInHours()
    ensures SilverPolicy(Roster) == CachePolicy(336 * 3600, 2160 * 3600)
    ensures SilverPolicy(Prices) == CachePolicy(168 * 3600, 720 * 3600)
    ensures SilverPolicy(Schedules) == CachePolicy(12 * 3600, 336 * 3600)
    ensures SilverPolicy(LanePlans) == CachePolicy(72 * 3600, 504 * 3600)
  {
  }

  datatype FetchOutcome<V> = Fetched(value: V) | Failed(error: ProviderError)

  datatype Refreshed<V> = Refreshed(value: V, header: SilverHeader, fetched: bool)

  datatype RefreshReason = NotTransient | FirstRun | TooStale

  datatype RefreshFailure = RefreshFailure(
    source: Source, reason: RefreshReason, cause: ProviderError, age: Option<int>)

  /** How payloads are written, stamped with the run's clock, and read. */
  datatype Codec<!V> = Codec(encode: (V, Instant) -> Json, decode: Json -> V)

  datatype Run<V> = Run(now: Instant, outcome: FetchOutcome<V>, force: bool)

  /** A fetch is due unless a fresh document younger than the TTL is there and nothing forces one. */
  ghost predicate Due(previous: Option<SilverDoc>, now: Instant, force: bool, rule: CachePolicy) {
    !(previous.Some? && !force && previous.value.header.status != Stale
      && now - previous.value.header.fetchedAt < rule.ttl)
  }

  ghost function Answer<V>(previous: Option<SilverDoc>, source: Source, run: Run<V>, codec: Codec<V>, rule: CachePolicy)
    : Result<Refreshed<V>, RefreshFailure>
  {
    if !Due(previous, run.now, run.force, rule) then
      Ok(Refreshed(codec.decode(previous.value.payload), previous.value.header, false))
    else match run.outcome
      case Fetched(value) => Ok(Refreshed(value, FreshDoc(source, codec.encode(value, run.now), run.now).header, true))
      case Failed(e) =>
        if !Passing(e) then Err(RefreshFailure(source, NotTransient, e, None))
        else if previous.None? then Err(RefreshFailure(source, FirstRun, e, None))
        else
          var age := run.now - previous.value.header.fetchedAt;
          if age > rule.maxStale then Err(RefreshFailure(source, TooStale, e, Some(age)))
          else Ok(Refreshed(codec.decode(previous.value.payload), StaleDoc(previous.value).header, false))
  }

  /** The stored document after a run: a new one when fetched, the old one marked when kept stale,
      and the old one untouched when reused or when the run fails. */
  ghost function After<V>(previous: Option<SilverDoc>, source: Source, run: Run<V>, codec: Codec<V>, rule: CachePolicy)
    : Option<SilverDoc>
  {
    var answer := Answer(previous, source, run, codec, rule);
    if answer.Ok? && answer.value.fetched && run.outcome.Fetched?
    then Some(FreshDoc(source, codec.encode(run.outcome.value, run.now), run.now))
    else if answer.Ok? && previous.Some? && answer.value.header.status == Stale then Some(StaleDoc(previous.value))
    else previous
  }

  ghost function StoreAfter(docs: Docs, source: Source, before: Option<SilverDoc>, after: Option<SilverDoc>): Docs {
    if after.Some? && after != before then docs[source := after.value] else docs
  }

  method RefreshSource<V>(lake: Lake, source: Source, run: Run<V>, codec: Codec<V>, rule: CachePolicy)
    returns (r: Result<Refreshed<V>, RefreshFailure>)
    requires lake.Valid()
    modifies lake
    ensures lake.Valid()
    ensures var previous := old(ReadDoc(lake.docs, source));
            && r == Answer(previous, source, run, codec, rule)
            && lake.docs == StoreAfter(old(lake.docs), source, previous, After(previous, source, run, codec, rule))
    ensures r.Err? ==> lake.docs == old(lake.docs)
  {
    var previous := lake.Read(source);
    if previous.Some? && !run.force && previous.value.header.status != Stale {
      var age := run.now - previous.value.header.fetchedAt;
      if age < rule.ttl {
        return Ok(Refreshed(codec.decode(previous.value.payload), previous.value.header, false));
      }
    }
    match run.outcome {
      case Fetched(value) =>
        var doc := lake.Write(source, codec.encode(value, run.now), run.now);
        return Ok(Refreshed(value, doc.header, true));
      case Failed(e) =>
        TransientIsPassing(e);
        if !Transient(e) {
          return Err(RefreshFailure(source, NotTransient, e, None));
        }
        if previous.None? {
          return Err(RefreshFailure(source, FirstRun, e, None));
        }
        var age := run.now - previous.value.header.fetchedAt;
        if age > rule.maxStale {
          return Err(RefreshFailure(source, TooStale, e, Some(age)));
        }
        var kept := lake.MarkStale(source);
        assert kept == StaleDoc(previous.value);
        return Ok(Refreshed(codec.decode(kept.payload), kept.header, false));
    }
  }

  // --- over every sequence of runs --------------------------------------------------

  ghost function DocAfter<V>(
    start: Option<SilverDoc>, source: Source, runs: seq<Run<V>>, codec: Codec<V>, rule: CachePolicy): Option<SilverDoc>
  {
    if runs == [] then start
    else After(DocAfter(start, source, runs[..|runs| - 1], codec, rule), source, runs[|runs| - 1], codec, rule)
  }

  /** The answer the last of the runs gave. */
  ghost function LastAnswer<V>(
    start: Option<SilverDoc>, source: Source, runs: seq<Run<V>>, codec: Codec<V>, rule: CachePolicy)
    : Result<Refreshed<V>, RefreshFailure>
    requires runs != []
  {
    Answer(DocAfter(start, source, runs[..|runs| - 1], codec, rule), source, runs[|runs| - 1], codec, rule)
  }

  datatype Origin = Origin(payload: Json, fetchedAt: Instant)

  /** What is remembered of the runs so far: what the last successful fetch brought, and whether a
      failure has been ridden out since. */
  datatype History = History(origin: Option<Origin>, kept: bool) {
    ghost function Age(now: Instant): int
      requires origin.Some?
    {
      now - origin.value.fetchedAt
    }

    /** A fetch is due when forced, when nothing was ever fetched, when the last run of it was kept
        past a failure, or when it has outlived its TTL. */
    ghost predicate Due(now: Instant, force: bool, rule: CachePolicy) {
      force || origin.None? || kept || Age(now) >= rule.ttl
    }

    /** An earlier fetch may stand in for a failed one: the failure is transient and it is not too old. */
    ghost predicate StandsIn(now: Instant, e: ProviderError, rule: CachePolicy) {
      Passing(e) && origin.Some? && Age(now) <= rule.maxStale
    }

    ghost function Next<V>(run: Run<V>, codec: Codec<V>, rule: CachePolicy): History {
      if !Due(run.now, run.force, rule) then this
      else match run.outcome
        case Fetched(value) => History(Some(Origin(codec.encode(value, run.now), run.now)), false)
        case Failed(e) => if StandsIn(run.now, e, rule) then History(origin, true) else this
    }
  }

  /** The history of a sequence of runs, told from their clocks and outcomes, never from the lake. */
  ghost function HistoryOf<V>(start: Option<SilverDoc>, runs: seq<Run<V>>, codec: Codec<V>, rule: CachePolicy)
    : History
  {
    if runs == [] then
      if start.None? then History(None, false)
      else History(Some(Origin(start.value.payload, start.value.header.fetchedAt)), start.value.header.status == Stale)
    else HistoryOf(start, runs[..|runs| - 1], codec, rule).Next(runs[|runs| - 1], codec, rule)
  }

  /** The document a source can start from: none, or a readable one that is its own. */
  ghost predicate Startable(start: Option<SilverDoc>, source: Source) {
    start.Some? ==>
      && start.value.header.source == source && start.value.header.schema == 2
      && start.value.header.sha == ContentSha(start.value.payload)
  }

  /** Over every sequence of runs, whatever the fetches did: the stored payload, time and hash are
      those of the last successful fetch, and the status is stale exactly when a transient failure
      was kept since. */
  lemma {:induction false} LakeIsLastFetch<V>(
    start: Option<SilverDoc>, source: Source, runs: seq<Run<V>>, codec: Codec<V>, rule: CachePolicy)
    requires Startable(start, source)
    ensures var doc, h := DocAfter(start, source, runs, codec, rule), HistoryOf(start, runs, codec, rule);
            && (doc.Some? <==> h.origin.Some?)
            && (doc.Some? ==>
                  && doc.value.payload == h.origin.value.payload
                  && doc.value.header
                     == SilverHeader(source, h.origin.value.fetchedAt, if h.kept then Stale else Fresh,
                                     ContentSha(h.origin.value.payload), 2))
  {
    if runs != [] {
      LakeIsLastFetch(start, source, runs[..|runs| - 1], codec, rule);
    }
  }

  ghost predicate ClockRuns<V>(start: Option<SilverDoc>, runs: seq<Run<V>>) {
    && (forall i, j :: 0 <= i < j < |runs| ==> runs[i].now <= runs[j].now)
    && (start.Some? ==> forall i :: 0 <= i < |runs| ==> start.value.header.fetchedAt <= runs[i].now)
  }

  lemma {:induction false} FetchesArePast<V>(
    start: Option<SilverDoc>, runs: seq<Run<V>>, codec: Codec<V>, rule: CachePolicy, now: Instant)
    requires ClockRuns(start, runs) && forall i :: 0 <= i < |runs| ==> runs[i].now <= now
    requires start.Some? ==> start.value.header.fetchedAt <= now
    ensures var origin := HistoryOf(start, runs, codec, rule).origin;
            origin.Some? ==> origin.value.fetchedAt <= now
  {
    if runs != [] {
      FetchesArePast(start, runs[..|runs| - 1], codec, rule, now);
    }
  }

  /** Whatever any run of any sequence serves is either fetched by that run, because a fetch was due,
      or read back from the last successful fetch: not due, under a fresh header and younger than the
      TTL, or else under a stale header after a transient failure and no older than the stale limit.
      A stale document is refetched every time. */
  lemma ServedIsHonest<V>(
    start: Option<SilverDoc>, source: Source, runs: seq<Run<V>>, codec: Codec<V>, rule: CachePolicy)
    requires runs != [] && Startable(start, source) && ClockRuns(start, runs)
    ensures var run, a := runs[|runs| - 1], LastAnswer(start, source, runs, codec, rule);
            var h := HistoryOf(start, runs[..|runs| - 1], codec, rule);
            a.Ok? ==>
              && (a.value.fetched <==> h.Due(run.now, run.force, rule) && run.outcome.Fetched?)
              && if a.value.fetched then
                   && run.outcome == Fetched(a.value.value)
                   && a.value.header.status == Fresh && a.value.header.fetchedAt == run.now
                 else
                   && h.origin.Some? && a.value.value == codec.decode(h.origin.value.payload)
                   && a.value.header.fetchedAt == h.origin.value.fetchedAt <= run.now
                   && if a.value.header.status == Fresh then !run.force && !h.kept && h.Age(run.now) < rule.ttl
                      else run.outcome.Failed? && Passing(run.outcome.error) && h.Age(run.now) <= rule.maxStale
  {
    var before := runs[..|runs| - 1];
    LakeIsLastFetch(start, source, before, codec, rule);
    FetchesArePast(start, before, codec, rule, runs[|runs| - 1].now);
  }

  /** A failing run says why, leaves the document alone, and nothing hides a failure that is not
      transient: the run fails exactly when a fetch was due, failed, and could not be stood in for. */
  lemma FailsExactly<V>(
    start: Option<SilverDoc>, source: Source, runs: seq<Run<V>>, codec: Codec<V>, rule: CachePolicy)
    requires runs != [] && Startable(start, source)
    ensures var run, a := runs[|runs| - 1], LastAnswer(start, source, runs, codec, rule);
            var before := runs[..|runs| - 1];
            var h := HistoryOf(start, before, codec, rule);
            var due := h.Due(run.now, run.force, rule);
            && (a.Err? <==> due && run.outcome.Failed? && !h.StandsIn(run.now, run.outcome.error, rule))
            && (a.Err? ==> DocAfter(start, source, runs, codec, rule) == DocAfter(start, source, before, codec, rule)
                           && a.error.cause == run.outcome.error
                           && (a.error.reason == NotTransient <==> !Passing(run.outcome.error))
                           && (a.error.reason == FirstRun ==> h.origin.None?)
                           && (a.error.reason == TooStale ==> h.origin.Some? && a.error.age == Some(h.Age(run.now))))
            && (a.Ok? && due ==> a.value.fetched || a.value.header.status == Stale)
  {
    LakeIsLastFetch(start, source, runs[..|runs| - 1], codec, rule);
  }
}
