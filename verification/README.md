# swimzh in Dafny

A model of the swimming-pool service's hard core, with proofs. It follows the program from the dense
lane grid printed on a pool's weekly plan to the answer a swimmer is given, and from a failing web
source to the store that answer is read from.

- **The lane plan** (`Clustering`, `Geometry`, `Segmentation`, `WeekGrid`, `Compressor`): page
  coordinates are clustered into rows and columns, rows are paired to time labels, and the resulting
  weekday x lane x slot grid of legend codes is run-length compressed into reservations. The
  compressed plan means exactly the grid, blank half-hours included.
- **Its four views** (`LanePlans`, `LaneQueries`, `LaneViews`, `BestWindow`, `PlanMeaning`,
  `SessionLanes`): the answer at
  an instant, the session timeline, the per-lane strips and the best public window agree with each
  other and with the grid.
- **The day** (`Schedule`, `Resolver`, `SwimQuery`, `Export`): closures, exceptions, seasons, holidays
  and rules are resolved by priority; the query accounts for every pool once; the offline export
  derives the same answer by its own route.
- **The pipeline** (`Silver`, `Refresh`, `Build`): four sources refreshed into a lake of documents, one
  composed store replaced in one atomic step, over every sequence of runs, failures and crashes.
- **The HTTP disk cache** (`Encoding`, `HttpCache`), **the plan-to-basin join** (`Binding`) and **the
  source masker** (`Masker`, in `Mask.dfy`).

`Prelude`, `Sorting`, `OrderedDict`, `Pools`, `Names` and `Text` hold what the others share: option and
result types, Python's stable `sorted`, insertion-ordered dictionaries of sets and of lists, the stored
facilities and basins, sorted names, and rendered numbers and dates.

Conventions. Times of day are minutes, dates carry a day ordinal, page coordinates are reals, instants
are numbers. A legend is a map from code to an optional owner. Where the source loops over mutable
lists and dictionaries there is a method with loop invariants, proved against a specification; the
laws are lemmas about that specification. Text normalisation, great-circle distance, codecs, fetch
outcomes, clocks and faults are parameters. What Python raises is a `Result` error or an outcome.

Three laws do not hold as plainly as they are told. Each is stated with its exact condition and with
an input at which the plain law fails:

- A pool with rules can vanish from an answer: an exception that is *open* with no sessions yields
  neither an option nor a status. `SwimQuery.PoolAccountedOnce` holds exactly when the pool is neither
  silent nor a scheduled pool out of range, `SwimQuery.SilentExactly` says when it is silent, and
  `SwimQuery.EmptyExceptionHidesPool` gives one that is.
- The compressor's output passes the parser's own check exactly when, in every column, owned cells
  with overlapping slots have one owner and lie in chains of one span
  (`Compressor.PassesInvariantsExactly`). Pairwise-disjoint slots guarantee it;
  `Compressor.OverlappingSlotsAreRefused` gives a grid that is refused.
- A rerun composes the same content exactly when every fetched value survives its codec
  (`Build.RerunSameComposition`); `Build.LossyCodecChangesRerun` gives two builds that differ.

Run `dafny verify dfyconfig.toml` here to check the whole project.

## Model

| member | source | states |
|---|---|---|
| Schedule.OverlapIsSharedInstant | src/swimzh/providers/belegungsplan.py:747-748 | two half-open ranges overlap exactly when they share an instant |
| WeekGrid.OwnerIsNamed | src/swimzh/providers/belegungsplan.py:662-669 | a cell is owned by `a` iff it carries a code to which the legend gives `a`; a cell without a code, or with one the legend does not name, is nobody's |
| Schedule.DayWindowIsForwardWalk | src/swimzh/domain/schedule.py:96-144 | a day-precise annual window, wrapping New Year or not, holds a date iff walking forward from its start meets the date no later than its end |
| Schedule.MonthWindowIsForwardWalk | src/swimzh/domain/schedule.py:96-144 | a month-precise window, wrapping New Year or not, holds a date iff walking forward from its first month meets the date's month no later than its last |
| Schedule.WholeMonthsAtEitherPrecision | src/swimzh/domain/schedule.py:115-144 | a published month range means the same whole months at month and at day precision, for every date including leap day and wrapping ranges |
| WeekGrid.BlocksEncodeColumn | src/swimzh/providers/belegungsplan.py:644-684 | a column's runs cover exactly the owned cells, each run is a chain of touching slots of one owner, runs are in order, and no two neighbours could have been one |
| WeekGrid.RunsMeanColumn | src/swimzh/providers/belegungsplan.py:644-684 | at every instant a run of an owner covers it iff some row's slot contains it and that cell carries a code the legend gives to that owner; a blank half-hour is in no run |
| WeekGrid.RunsDisjoint | src/swimzh/providers/belegungsplan.py:644-684 | over pairwise-disjoint slots the runs of a column do not overlap |
| WeekGrid.RunsMaximal | src/swimzh/providers/belegungsplan.py:644-684 | over ascending slots no two runs of one owner in one column meet end to start |
| WeekGrid.BlockIsChain | src/swimzh/providers/belegungsplan.py:644-684 | a block is the whole chain of touching same-owner cells around each of its cells, so runs can be read off the cells |
| WeekGrid.ClashFreeExactly | src/swimzh/providers/belegungsplan.py:644-684 | a column's runs do not overlap iff its overlapping owned cells have one owner and chains of one span, a condition on the grid alone |
| WeekGrid.Flush | src/swimzh/providers/belegungsplan.py:656-664 | closing the open run adds exactly the block that was open, and nothing when none was |
| WeekGrid.ColumnRuns | src/swimzh/providers/belegungsplan.py:644-684 | the loop with its run state computes the reference runs, the number of cells whose code the legend names, and whether a coded cell was not |
| Compressor.AddColumn | src/swimzh/providers/belegungsplan.py:706-718 | after a lane's runs are merged in, the day's blocks hold exactly the runs of the lanes seen so far, each with its section, and stand where the scan first met them |
| Compressor.ResolveDay | src/swimzh/providers/belegungsplan.py:706-718 | one weekday's lanes give that day's blocks, and carry the resolved-cell count and the unrecognised lanes forward exactly |
| Compressor.MergeDays | src/swimzh/providers/belegungsplan.py:720-725 | a region holds a weekday iff that day has the same block on the same set of lanes; regions stand where the days first met them |
| Compressor.CellsTotal | src/swimzh/providers/belegungsplan.py:733-735 | the total is the number of (weekday, lane, slot) cells, ragged days included |
| Compressor.Resolve | src/swimzh/providers/belegungsplan.py:695-741 | the reservations are the compression of the grid, in the order in which the scan by weekday, lane and row first meets their regions, and mean the grid at every instant; the cell counts and unresolved lanes are those of its codes and legend |
| Compressor.CompressionUnique | src/swimzh/providers/belegungsplan.py:695-741 | the grid determines its reservations: there is exactly one list that compresses it in scan order |
| Compressor.CompressionMeansGrid | src/swimzh/providers/belegungsplan.py:695-741 | decompression, told from the grid's own codes, slots and legend: at every weekday, lane and instant some reservation names `a` iff the weekday has that lane and some row's slot holds the instant with a code the legend gives to `a` |
| Compressor.CompressionMeansWholeGrid | src/swimzh/providers/belegungsplan.py:695-741 | the same for the plan as a whole: what it holds and what the grid holds coincide everywhere |
| Compressor.CompressionKeepsSections | src/swimzh/providers/belegungsplan.py:703-718 | every lane of a reservation has that reservation's label on the sheet, and none where the sheet gives none |
| Compressor.CheckInvariants | src/swimzh/providers/belegungsplan.py:751-772 | the check passes iff lanes are in range and no two reservations claim one lane at one time of one weekday; otherwise it reports the first offence in scan order |
| Compressor.PassesInvariantsExactly | src/swimzh/providers/belegungsplan.py:695-772 | with no weekday wider than the plan, the compressor's output passes its own check iff in every column owned cells with overlapping slots have one owner and lie in chains of touching same-owner cells of one span |
| Compressor.OverlappingSlotsAreRefused | src/swimzh/providers/belegungsplan.py:695-772 | a grid of two overlapping slots with two owners whose every compression fails the check |
| Compressor.CompressionPassesInvariants | src/swimzh/providers/belegungsplan.py:695-772 | over pairwise-disjoint slots it always passes, through both merge stages |
| Compressor.EqualCountsAreComplete | src/swimzh/providers/belegungsplan.py:732-741 | counts are equal iff every cell of the week carries a code the legend names, and equal counts alone leave no unresolved lane |
| Compressor.CompleteMeansEveryCell | src/swimzh/providers/belegungsplan.py:808-830 | every field of the stored plan: reservations, lane counts, validity, cell counts, unresolved lanes, and complete iff every cell of the week carries a code the legend names |
| LanePlans.InvariantsOnData | src/swimzh/providers/belegungsplan.py:751-772 | the check passes iff every reserved lane is one of the plan's and no instant of any weekday has one lane in two reservations |
| LanePlans.OneHolder | src/swimzh/providers/belegungsplan.py:751-772 | under the check, reservations sharing a weekday, a lane and overlapping time are the same one |
| Clustering.Cluster | src/swimzh/providers/belegungsplan.py:181-190 | the centres are the means of the sorted values cut at the gaps wider than the tolerance |
| Clustering.ClustersSeparate | src/swimzh/providers/belegungsplan.py:181-190 | no value is lost or moved, and different clusters are more than the tolerance apart |
| Clustering.CentresApart | src/swimzh/providers/belegungsplan.py:181-190 | centres strictly ascend with gaps above the tolerance |
| Clustering.NearestIsClosest | src/swimzh/providers/belegungsplan.py:193-194 | the nearest centre is a closest one, and the first of those |
| Clustering.NearestIsOwnCluster | src/swimzh/providers/belegungsplan.py:181-194 | when a cluster is no wider than the tolerance, each of its values goes back to that cluster's own centre |
| Clustering.NearestMonotone | src/swimzh/providers/belegungsplan.py:193-194 | over ascending centres a larger value never goes to an earlier centre |
| Geometry.PairRowsToLabels | src/swimzh/providers/belegungsplan.py:430-485 | each row gets its nearest label within tolerance, no label twice; a refusal names the first row no label admits or whose label is taken, the short label lists are decided by count, and two labels of one top, which give no pitch to report by, are an error of their own where a row has no label |
| Geometry.PitchIsMeanGap | src/swimzh/providers/belegungsplan.py:430-485 | the pitch that sets the tolerance is the mean of the gaps between neighbouring labels |
| Geometry.PairingKeepsOrder | src/swimzh/providers/belegungsplan.py:430-485 | over ascending rows and labels, accepted rows take strictly increasing labels, each in tolerance |
| Geometry.PairingKeepsDisjoint | src/swimzh/providers/belegungsplan.py:430-485 | disjoint labels give disjoint slots |
| Geometry.ColumnsAreWeekdayLanes | src/swimzh/providers/belegungsplan.py:549-567 | the 7n columns correspond one to one with (weekday, lane) |
| Segmentation.UniformGrid | src/swimzh/providers/belegungsplan.py:549-567 | each cell holds the code of the last word that goes to it, and every word goes to a cell |
| Segmentation.UniformGridIsFaithful | src/swimzh/providers/belegungsplan.py:549-567 | a word in the i-th column cluster and j-th row cluster lands on that weekday, lane and row |
| Segmentation.ClusterCounts | src/swimzh/providers/belegungsplan.py:197-206 | each cluster's mean and number of values |
| Segmentation.MergeFragments | src/swimzh/providers/belegungsplan.py:219-229 | the loop is the left-to-right fold of columns closer than the merge width into what is before them |
| Segmentation.FoldingConserves | src/swimzh/providers/belegungsplan.py:219-229 | folding keeps support and centre of mass, leaves neighbours at least the merge width apart, and changes nothing that was already apart |
| Segmentation.LaneColumns | src/swimzh/providers/belegungsplan.py:209-230 | a day's columns are the centres of its clusters with fragments folded in, and with fewer than three clusters just those |
| Segmentation.PitchIsMedian | src/swimzh/providers/belegungsplan.py:209-230 | the lane pitch is the median gap between neighbouring columns: at most half of the gaps are smaller and more than half no larger |
| Segmentation.LaneColumnsAccount | src/swimzh/providers/belegungsplan.py:209-230 | a day's columns strictly ascend, account for every cell of the day at the cells' own centre of mass, and from three clusters on are at least the merge width apart |
| Segmentation.DayColumnsOf | src/swimzh/providers/belegungsplan.py:581-586 | each weekday's columns are those of the cells in its own band, and none without cells |
| Segmentation.DayCounts | src/swimzh/providers/belegungsplan.py:588-590 | per-weekday lane counts, their maximum, and whether any two days differ |
| Segmentation.RaggedGrid | src/swimzh/providers/belegungsplan.py:570-608 | each word goes to its band's weekday, nearest lane of that day and nearest row; the last word wins; no weekday is wider than the plan; any number of anchors from seven on |
| Segmentation.SegmentGrid | src/swimzh/providers/belegungsplan.py:611-630 | accepts a page iff it has cells, its rows pair off with its labels, and it has 7 x lane-count columns or an anchor for every weekday; the grid is then the uniform rectangle in the first case, else the ragged one; a refusal is by no cells, by what the pairing reports, or by the missing band, in that order |
| Segmentation.DisjointLabelsDisjointSlots | src/swimzh/providers/belegungsplan.py:611-630 | disjoint time labels give a grid with disjoint slots and columns that cannot clash, whichever segmentation was used |
| Segmentation.AscendingLabelsAscendingSlots | src/swimzh/providers/belegungsplan.py:611-630 | labels that ascend down the page and in time give ascending slots, so on such a page the runs of every column are maximal |
| Segmentation.ParseBasin | src/swimzh/providers/belegungsplan.py:833-856 | from words to plan: a page is accepted iff it has a legend, a grid can be read off it, and in that grid overlapping owned cells of a column have one owner and chains of one span; a refusal is by no legend, by what segmentation reports, or by the first offence of the compressed grid; an accepted plan is, field by field, that of its grid: the compression, meaning it at every instant, passing the check, complete iff every cell of the week carries a code the legend names |
| LaneQueries.MergeRanges | src/swimzh/domain/lane_plan.py:130-139 | merging sorted ranges gives sorted, disjoint, non-touching ranges covering the same instants |
| LaneQueries.PublicRunEnd | src/swimzh/domain/lane_plan.py:122-143 | none iff no public reservation covers the instant; otherwise all of [t, end) is public and `end` is not |
| LaneQueries.SplitLanes | src/swimzh/domain/lane_plan.py:146-162 | public lanes, reserved lanes and first-seen owners of the active reservations |
| LaneQueries.LaneAvailabilityAt | src/swimzh/domain/lane_plan.py:146-169 | counts of lanes somebody public, somebody else holds; owners; end of the public stretch; partial iff an unresolved lane is held by neither |
| LaneQueries.OwnersMeaning | src/swimzh/domain/lane_plan.py:116-162 | the owners are exactly the non-public holders at the instant, each once, by lowest lane held and then by place in the plan |
| LaneQueries.AvailabilityUnique | src/swimzh/domain/lane_plan.py:146-169 | the specification of the instant answer has one solution, every field included |
| LaneViews.Bounds | src/swimzh/domain/lane_plan.py:199-205 | the cut points are the session's ends and the day's reservation edges strictly inside it, and no others |
| LaneViews.AvailabilityConstant | src/swimzh/domain/lane_plan.py:192-213 | between two neighbouring edges the whole answer, owners' order and public end included, does not change |
| LaneViews.LaneAvailabilityTimeline | src/swimzh/domain/lane_plan.py:192-213 | the segments tile the session, and at every instant of a segment the instant answer is the stored one |
| LaneViews.TimelineTilesExactly | src/swimzh/domain/lane_plan.py:192-213 | every instant of the session is in exactly one segment and nothing else is in any |
| LaneViews.LaneDayView | src/swimzh/domain/lane_plan.py:293-307 | one strip per lane holding that lane's reservations of the day, ordered by start |
| LaneViews.StripIsByTime | src/swimzh/domain/lane_plan.py:293-307 | on any plan a strip is its lane's reservations of the weekday by start, then end, then place in the plan |
| LaneViews.StripHolds | src/swimzh/domain/lane_plan.py:293-307 | a strip has a public (other) segment at an instant iff some public (other) reservation holds that lane then |
| LaneViews.StripsInTimeOrder | src/swimzh/domain/lane_plan.py:293-307 | for a checked plan each strip is sorted and its segments do not overlap |
| LaneViews.AvailabilityAgreesWithStrips | src/swimzh/domain/lane_plan.py:146-169 | for a checked plan the instant counts are the numbers of strips public, respectively taken, there; no strip is both; together they fit the lane count |
| BestWindow.PublicClips | src/swimzh/domain/lane_plan.py:355-361 | the clipped public reservations hold, at every instant in scope, exactly the public lanes, and nothing out of scope |
| BestWindow.Sweep | src/swimzh/domain/lane_plan.py:364-377 | windows in order, each with its constant positive count, every public instant in one, touching windows differing in count |
| BestWindow.FirstLargest | src/swimzh/domain/lane_plan.py:378-382 | the earliest window of the largest count |
| BestWindow.BestPublicTime | src/swimzh/domain/lane_plan.py:338-382 | none iff no instant in scope has a public lane; otherwise the count is constant over the window, maximal over the scope, reached at no earlier instant, and the window cannot be extended |
| BestWindow.BestUnique | src/swimzh/domain/lane_plan.py:338-382 | that specification has one solution |
| BestWindow.BestIsTimelinePeak | src/swimzh/domain/lane_plan.py:192-213 | the best window's count is the timeline's peak, and there is none iff every segment has no public lane |
| PlanMeaning.HeldLanesAreGridLanes | src/swimzh/domain/lane_plan.py:116-169 | the lanes a compressed plan holds at an instant are the dense grid's lanes |
| PlanMeaning.ServedCountsAreGridCounts | src/swimzh/domain/lane_plan.py:146-169 | end to end: the counts served for an instant are the grid's public and taken cell counts, and both are zero where no slot is |
| PlanMeaning.StripsAreGridLanes | src/swimzh/domain/lane_plan.py:293-307 | end to end for the strips: as many are public, respectively someone else's, at an instant as the dense grid has such lanes |
| SessionLanes.DeriveLanes | src/swimzh/domain/query.py:501-560 | an option's lane facts, none without a parsed plan: the answer at the queried instant if the session is on and else at its start, the session's timeline, the weekday's strips, and the best window inside the session |
| SessionLanes.ShownIsInSession | src/swimzh/domain/query.py:501-560 | the shown instant lies in the session; it is the queried one iff that does, and the start otherwise |
| SessionLanes.ShownIsOnTimeline | src/swimzh/domain/query.py:501-560 | exactly one segment of the timeline holds the shown instant, and it stores the shown answer |
| SessionLanes.BestBoundsShown | src/swimzh/domain/query.py:501-560 | the best window lies in the session, is never beaten by what is shown, equals it inside the window and exceeds it before; without one no public lane is shown |
| SessionLanes.FactsAgree | src/swimzh/domain/query.py:501-560 | for a checked plan the four facts tell one story: shown counts are the strips' counts and a segment's, and the best window's count is the timeline's peak |
| Resolver.FirstClosureIsFirst | src/swimzh/domain/resolver.py:104-108 | the closure reported is the first that covers the date, none iff none does |
| Resolver.FindExceptionIsFirst | src/swimzh/domain/resolver.py:39-40 | the exception used is the first for the date, none iff there is none |
| Resolver.SessionsArePlaced | src/swimzh/domain/resolver.py:43-67 | the sessions are the start-sorted sessions of exactly the rules whose weekday, season and term or school-holiday scope hold on the date, ties in the order written |
| Resolver.SessionsAreRules | src/swimzh/domain/resolver.py:43-160 | where no closure, exception, season or closing holiday answers first, the day has a session iff a rule gives it that is for the effective weekday, in season, and for all year, or for term and no school holiday holds the date, or for school holidays and one does |
| Resolver.EmptyDayReason | src/swimzh/domain/resolver.py:70-88 | out of season iff there are rules, all seasonal and none running; otherwise no sessions |
| Resolver.ResolveHoursMeetsSpec | src/swimzh/domain/resolver.py:91-160 | for all inputs the resolver is its priority order, told from closures, exceptions, season, holidays and rules themselves: closure, exception, season, rule-less season, closing holiday, rules; with the unverified flag exactly on a holiday without a policy |
| Resolver.SessionsUnique | src/swimzh/domain/resolver.py:58-67 | the specification of the sessions has one solution |
| Resolver.ResolutionUnique | src/swimzh/domain/resolver.py:91-160 | the whole specification has one solution |
| Resolver.NoRulesNoSessions | src/swimzh/domain/resolver.py:91-160 | a schedule without rules and exceptions never opens with sessions, which makes the query's open-day arm unreachable |
| SwimQuery.RuledBasinOpenOrClosed | src/swimzh/domain/query.py:644-650 | a basin with rules is never open-unscheduled, so the loop's third arm is unreachable |
| SwimQuery.ResolveFacilities | src/swimzh/domain/query.py:595-672 | options, statuses and notices of the facilities in radius, in order, and exactly the pools whose holiday hours nobody vouches for |
| SwimQuery.FindSwimOptions | src/swimzh/domain/query.py:564-698 | rows are the sorted contributions of facilities and schedule-less roster pools; warnings are the coverage sentence iff the year is unknown, then one naming the unconfirmed pools in order iff there are any |
| SwimQuery.OptionsExactly | src/swimzh/domain/query.py:595-672 | an option is shown iff it describes, field by field, a session which the resolution of a ruled basin of some facility in range holds |
| SwimQuery.NoticesExactly | src/swimzh/domain/query.py:595-606 | a notice is shown iff some facility in range has it active that day |
| SwimQuery.StatusesExactly | src/swimzh/domain/query.py:434-841 | a status is shown iff it is that of a facility in range with a season and no rules - the first closure, or open with the season's weather, dates and precision, or out of season - or of one in range without a session today, with the reason of its last closed basin, or of a schedule-less roster pool |
| SwimQuery.FacilityContribution | src/swimzh/domain/query.py:595-672 | one facility gives options and no status, or one status and no option, or nothing exactly when silent or schedule-less |
| SwimQuery.PoolAccountedOnce | src/swimzh/domain/query.py:564-698 | for any radius, with unique ids and roster freshness derived from the same facilities, a roster pool has options and no status or exactly one status and no option iff it is neither silent nor a scheduled pool out of range; such a pool has neither; a schedule-less pool has its one status at any distance |
| SwimQuery.OnlyScheduleLessLieBeyond | src/swimzh/domain/query.py:595-841 | every option is within the radius, and a status is beyond it iff it is that of a schedule-less roster pool out of range |
| SwimQuery.AtMostOneStatus | src/swimzh/domain/query.py:564-698 | no pool is reported twice, for any radius |
| SwimQuery.SilentExactly | src/swimzh/domain/query.py:595-672 | a pool with rules is silent iff no closure holds the day and every basin with rules has, first for that day, an open exception without sessions |
| SwimQuery.EmptyExceptionHidesPool | src/swimzh/domain/query.py:595-672 | for every query and calendar there are a store of one pool with rules and a roster that agrees with it such that no answer accounts for the pool |
| SwimQuery.ScheduleLessNeverClosed | src/swimzh/domain/query.py:800-841 | a pool with neither rules nor a season is reported unscraped or without source, never closed, for any radius |
| SwimQuery.RowsInOrder | src/swimzh/domain/query.py:378-402 | options rank by distance, start and name, statuses by distance and name, unknown distances last, and rows of one rank in the order found |
| Export.UnverifiedHolidayPools | src/swimzh/etl/ios_export.py:673-687 | the export's own loop names, ascending and once each, exactly the pools with an unverified holiday day |
| Export.WarningRows | src/swimzh/etl/ios_export.py:690-707 | rendering the rows gives the day's warnings verbatim and in order |
| Export.SentencesAgree | src/swimzh/etl/ios_export.py:654-670 | the export's two sentences are, for every year, date and list of pools, those the query writes |
| Export.SameUnverified | src/swimzh/etl/ios_export.py:673-687 | without a radius the export's pools are the query's |
| Export.ResolvedTables | src/swimzh/etl/ios_export.py:767-783 | the tables are each date's own projection, column by column, of the query at noon, date after date, with warning rows that render to that date's warnings |
| Export.RowsAreAnswers | src/swimzh/etl/ios_export.py:619-651 | on each date a pool's day rows number its statuses in the answer, and it has session rows iff it has options |
| Export.DayKeyIsUnique | src/swimzh/etl/ios_export.py:180-188 | the (pool, date) key of the day table never collides |
| Export.SessionsXorDayRow | src/swimzh/etl/ios_export.py:767-783 | a roster pool's date has session rows iff it has no day row, exactly when the pool is not silent that day |
| Export.HorizonIsDistinct | src/swimzh/etl/ios_export.py:736-740 | the horizon has as many dates as asked for, day after day from today, no two alike |
| Names.SortedUnique | src/swimzh/etl/ios_export.py:687-687 | two ascending lists of the same names are equal, so the pools named in a warning are fixed by which they are |
| Names.LeqIsLexicographic | src/swimzh/domain/query.py:378-402 | names are ordered as in a dictionary: a prefix first, otherwise by the first difference |
| Text.IsoReads | src/swimzh/domain/query.py:685-692 | a date is written as four, two and two digits between dashes that read back as the date |
| Text.CommaListGrows | src/swimzh/domain/query.py:685-692 | a list of names grows by a comma and the name at its end |
| Silver.ShaIsFacts | src/swimzh/storage/lake.py:125-147 | two payloads have one content hash iff they agree once run stamps are dropped at every depth |
| Silver.Lake.Read | src/swimzh/storage/lake.py:163-189 | returns the stored document, or none |
| Silver.Lake.Write | src/swimzh/storage/lake.py:191-199 | replaces one source's document by a fresh one and touches no other |
| Silver.Lake.MarkStale | src/swimzh/storage/lake.py:201-214 | changes the status alone, of one source's document alone |
| Refresh.RefreshSource | src/swimzh/etl/refresh.py:100-145 | the answer and the new lake are those of the policy; an error leaves the lake as it was |
| Refresh.TransientIsPassing | src/swimzh/etl/refresh.py:49-59 | a failure may be stood in for iff it is a timeout, a connection failure, a rate limit, a redirect loop or a status of 500 or more |
| Refresh.PoliciesInHours | src/swimzh/core/cache_tiers.py:70-81 | how long each source stays young, and how long it may stand in |
| Refresh.LakeIsLastFetch | src/swimzh/etl/refresh.py:100-145 | over every run sequence the payload, fetch time and hash are those of the last successful fetch, and the status is stale iff a failure was ridden out since, where both are told from the runs alone |
| Refresh.ServedIsHonest | src/swimzh/etl/refresh.py:100-145 | over every run sequence a served value was fetched by that run iff a fetch was due and succeeded; otherwise it is the last fetch, unforced, fresh and younger than its TTL, or it stands in for a transient failure at no more than its stale limit; a stale document is always refetched |
| Refresh.FailsExactly | src/swimzh/etl/refresh.py:100-145 | a run fails iff a fetch was due, failed, and was not transient, had nothing to stand in, or only something too old; it says which, and leaves the document alone |
| Build.Staging.Commit | src/swimzh/storage/atomic.py:38-40 | marks the pending write as complete |
| Build.Host.EndSwap | src/swimzh/storage/atomic.py:47-69 | leaving the swap replaces the target iff it was committed and nothing was raised |
| Build.Host.BuildStaged | src/swimzh/cli.py:661-735 | the phases inside the swap: each early way out leaves the write uncommitted; the end commits the composition with the four headers |
| Build.Host.Build | src/swimzh/cli.py:582-735 | lake, store and exit code after a run are those of the phase order with its early exits, wherever an exception or crash falls |
| Build.PhaseWritesOne | src/swimzh/cli.py:634-712 | a phase leaves its own source's document under the header it reports, no other document changes, and a failed phase changes nothing |
| Build.StageUsesLake | src/swimzh/cli.py:634-712 | the four values of a finished run are those of the four documents the lake then holds |
| Build.ExitTells | src/swimzh/cli.py:715-735 | exit 0: replaced with nothing stale; exit 2: replaced with something stale; exit 1: untouched, or replaced with a name unresolved; short of the swap: untouched |
| Build.BuildsKeepSound | src/swimzh/cli.py:582-735 | every sequence of builds keeps the lake's documents filed under their own source with their own hash |
| Build.StoreIsPreviousOrComplete | src/swimzh/cli.py:582-735 | over every sequence of builds, aborts, exceptions and crashes the store is its previous content or the complete work of one build, composed of the documents the lake held at commit with their headers as freshness rows, and no later build replaced it |
| Build.RerunSameComposition | src/swimzh/cli.py:582-735 | a rerun inside all TTLs fetches nothing, replaces the store with the same freshness rows, and composes the same content iff each fetched value survives encode and decode |
| Build.LossyCodecChangesRerun | src/swimzh/cli.py:582-735 | a first build and a rerun inside all TTLs that compose different contents, by a codec that forgets |
| Encoding.DecodedUtf8Encodes | src/swimzh/core/httpcache.py:134-154 | bytes that decode as UTF-8 (section 3 of RFC 3629) are the encoding of what they decode to |
| Encoding.EncodedUtf8Decodes | src/swimzh/core/httpcache.py:134-154 | every text decodes back from its UTF-8 encoding |
| Encoding.Base64RoundTrip | src/swimzh/core/httpcache.py:134-154 | every byte string decodes back from its Base64 (section 4 of RFC 4648) |
| HttpCache.BodyRoundTrip | src/swimzh/core/httpcache.py:134-154 | a stored body is written in exactly one form, readable iff its type is text and its bytes are, and comes back byte for byte |
| HttpCache.TextMediaTypes | src/swimzh/core/httpcache.py:119-131 | a type is stored readable iff it is empty, `text/`, built on JSON or XML, or one of eight by name |
| HttpCache.MediaTypeReads | src/swimzh/core/httpcache.py:119-120 | the media type is what stands before the first semicolon, trimmed and in lower case |
| HttpCache.WarmEqualsCold | src/swimzh/core/httpcache.py:225-269 | an entry rebuilds to exactly the response the fetching call returned |
| HttpCache.CacheStore.Lookup | src/swimzh/core/httpcache.py:181-201 | a hit is the readable, unexpired entry filed under the request's tier and key |
| HttpCache.CacheStore.Put | src/swimzh/core/httpcache.py:203-222 | files the record under the tier and key, or nothing on a disk fault |
| HttpCache.PathsAreKeys | src/swimzh/core/httpcache.py:90-101 | two requests share an entry iff method, URL, host and stamped tier are the same |
| HttpCache.DiskCacheTransport.FetchAndStore | src/swimzh/core/httpcache.py:364-377 | replays the inner response whether or not it could be stored; a failed fetch stores nothing |
| HttpCache.DiskCacheTransport.HandleRequest | src/swimzh/core/httpcache.py:347-359 | store, response and fetch count after a call are those of its mode |
| HttpCache.EntriesAreFetches | src/swimzh/core/httpcache.py:181-222 | over every run with entries deleted and corrupted at will, each readable entry records, field by field, an actual fetch for its own method, URL, host and tier |
| HttpCache.ResponsesAreSound | src/swimzh/core/httpcache.py:347-377 | in use mode a response is this call's one fetch, or the exact status, storable headers and body of an earlier unexpired fetch for the same method, URL, host and stamped tier |
| HttpCache.WarmUntilExpiry | src/swimzh/core/httpcache.py:347-377 | a stored fetch answers requests of the same key without fetching until it expires, and no longer |
| HttpCache.OtherKeysUntouched | src/swimzh/core/httpcache.py:347-377 | a call changes nothing about what the cache answers to a request that differs in method, URL or tier |
| Binding.BuildUrlBindings | src/swimzh/etl/silver.py:104-138 | indexes every declared source by URL, URLs and bindings in the order they are declared, or fails naming two basins that claim one section of one sheet; it fails on nothing else |
| Binding.DeclaredIsDeclaring | src/swimzh/etl/silver.py:104-138 | a binding is listed under a URL iff some basin declares it |
| Binding.BindGroup | src/swimzh/etl/silver.py:141-201 | the bound and unbound entries of one sheet's plans, in order, each as its route says |
| Binding.RouteExactly | src/swimzh/etl/silver.py:141-201 | every route and every reason, both ways: undeclared; a one-basin sheet bound iff it gave one plan, else split; a shared sheet bound iff just one declared section is named in the header, else none or more than one is |
| Binding.BindPlans | src/swimzh/etl/silver.py:204-236 | the bound and unbound entries, in order, are those of the plans taken sheet by sheet, sheets in the order they are first met, each plan routed by its URL's bindings |
| Binding.SheetOrderConserves | src/swimzh/etl/silver.py:217-224 | taking the plans sheet by sheet loses none and repeats none |
| Binding.EntriesAreRoutes | src/swimzh/etl/silver.py:204-236 | one entry for each plan; an entry is among the bound (unbound) iff some parsed plan is routed to it |
| Binding.BoundOnlyWhereDeclared | src/swimzh/etl/silver.py:141-201 | a plan is bound only to a basin that declares its URL, and on a shared sheet only to the one basin whose token its header contains |
| Binding.FindUnmatchedSections | src/swimzh/etl/silver.py:271-299 | the report, in order: for each URL as indexed, if it was parsed, its tokenised bindings whose token no header of the sheet contains |
| Binding.ReportIsUnmatched | src/swimzh/etl/silver.py:271-299 | a section is reported iff it is a tokenised binding of a parsed URL whose token no header of that sheet contains |
| Binding.NothingLostSilently | src/swimzh/etl/silver.py:162-299 | a tokenised binding of a parsed URL is bound by its token, or listed unmatched, or every header with its token is reported ambiguous and there is one |
| Binding.IndexBoundPlans | src/swimzh/etl/silver.py:253-268 | indexes every bound plan under its basin, or fails naming a basin bound twice |
| Binding.AttachToFacility | src/swimzh/etl/silver.py:344-358 | only the lane plan of indexed basins changes, stamped with the run's time; warnings are the plans older than the schedule they refine |
| Binding.AttachLanePlans | src/swimzh/etl/silver.py:315-367 | success gives every basin the plan bound to it, stamped with the run's time, leaves a basin without one and everything else as it was, and reports the unbound and unmatched; failure names colliding declarations or a basin bound twice |
| Binding.AttachesEveryBoundPlan | src/swimzh/etl/silver.py:315-367 | with unique basin references, after an attach that succeeded exactly as many basins carry a plan that was bound to them as plans were bound |
| Masker.EndOfBlockComment | scripts/crap_swift.py:159-171 | the depth counter ends a comment where its recursive nesting ends, or at the end of the text |
| Masker.NestedEndByBracket | scripts/crap_swift.py:159-171 | a block comment ends just past its first bracket if that closes, where it would after the comment that opens there, or at the end of the text |
| Masker.EndOfString | scripts/crap_swift.py:174-186 | the skipping scan ends a literal at its first quote or newline not behind an odd run of backslashes, or at the end of the text |
| Masker.EndOfSpan | scripts/crap_swift.py:201-210 | the end of whichever comment or literal opens here |
| Masker.SpanEndByText | scripts/crap_swift.py:201-210 | a line comment ends at the next newline, a literal of three quotes just past the next three, either at the end of the text if there is none |
| Masker.Mask | scripts/crap_swift.py:189-217 | the output blanks the comments and literals of a left-to-right tokenisation and copies the rest |
| Masker.MaskByToken | scripts/crap_swift.py:189-217 | code stands as it was; within a comment or literal every character but a newline is a space |
| Masker.MaskKeepsPositions | scripts/crap_swift.py:189-217 | length and every newline position survive, and each other character is itself or a space |
| Masker.MaskLeavesCode | scripts/crap_swift.py:189-217 | nothing in the output opens a comment or a literal |
| Masker.MaskFixesCode | scripts/crap_swift.py:189-217 | a text is its own mask iff nothing in it opens a comment or a literal |
| Masker.MaskIdempotent | scripts/crap_swift.py:189-217 | masking twice is masking once |

## Left out

- Compressor.CompressionPassesInvariants: assumes no weekday is wider than the plan's lane count, which both segmentations guarantee.
- Segmentation.SegmentGrid: starts from detected cell words, time labels and a header; finding words, labels and header on the page is not part of this model.
- Segmentation.LaneColumnsAccount: takes the clustering tolerance as not negative, as it ships.
- SwimQuery.FindSwimOptions: price, eligibility, live occupancy and descriptive fields of an option are not part of this model; its lane facts are those of SessionLanes.DeriveLanes and are not stored in the row; a status's bucket mirrors its code and is not stored twice.
- Build.Host.Build: composition is uninterpreted, so a store is told apart by its inputs, headers and build time; printing and the SQLite file are not part of this model.
- HttpCache.CacheStore.Put: a record that cannot be written leaves the old entry; the temporary file is not modelled.
- HttpCache.PathsAreKeys: the sixteen-digit key hash is taken as injective, so a key is the method and URL it is the hash of.
- Silver.ShaIsFacts: the digest is taken to be injective, so a hash is modelled by what is hashed.
- Encoding.Base64RoundTrip: decoding of non-canonical Base64 follows RFC 4648 and not any one library's leniency.
- Silver.Lake.Read: a document that is present but unreadable makes the source raise; the lake here holds readable documents, and Build.Host.Build takes such a raise as an exception before that phase.
- Pulling and exporting the lake, and the four silver codecs beyond the round trip they are assumed or asked to make.
- PDF word extraction, page scraping, header and legend text, and the sectioned sheet's split into basins.
- The remaining lane views (club roster, lane panel), which are projections of the day view.
- Rendering of export rows as JSON, the static tables, the content hash and the SQLite store.
- Time zones and daylight saving; the query starts from a local date and minute.
- Catalog slugs, feature matching, live temperatures, the web service and every SwiftUI file.
- Counting decision points and measuring complexity in masked Swift text.
