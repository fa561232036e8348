/** The dense weekly grid, and the vertical run-length encoding of one of its columns. */
module WeekGrid {
  import opened Prelude
  import opened Schedule

  datatype Cell = Cell(weekday: Weekday, lane: int, row: int)

  /** Legend codes per cell, one time slot per row. Rows follow the time labels that were
      claimed, so two neighbouring rows may have a blank half-hour between them. */
  datatype Grid = Grid(
    codes: map<Cell, int>, slots: seq<TimeRange>, laneCount: nat, lanesByWeekday: Option<map<Weekday, nat>>)

  /** Legend code to owner; a code with a blank name has none. */
  type Legend = map<int, Option<Access>>

  function Owner(g: Grid, legend: Legend, wd: Weekday, lane: int, row: int): Option<Access> {
    var cell := Cell(wd, lane, row);
    if cell in g.codes && g.codes[cell] in legend then legend[g.codes[cell]] else None
  }

  /** The cell carries a code for which the legend has an owner. */
  ghost predicate Named(g: Grid, legend: Legend, c: Cell) {
    c in g.codes && g.codes[c] in legend && legend[g.codes[c]].Some?
  }

  ghost predicate NamedAs(g: Grid, legend: Legend, c: Cell, a: Access) {
    Named(g, legend, c) && legend[g.codes[c]].value == a
  }

  /** A cell is owned exactly when it is named, and by the owner the legend names; a cell without a
      code is nobody's. */
  lemma OwnerIsNamed(g: Grid, legend: Legend, wd: Weekday, lane: int, row: int)
    ensures Owner(g, legend, wd, lane, row).Some? <==> Named(g, legend, Cell(wd, lane, row))
    ensures forall a :: Owner(g, legend, wd, lane, row) == Some(a) <==> NamedAs(g, legend, Cell(wd, lane, row), a)
  {
  }

  /** Some cell of the first `n` rows carries a code that names no owner. */
  ghost predicate Unrecognised(g: Grid, legend: Legend, wd: Weekday, lane: int, n: int) {
    exists row :: 0 <= row < n && Cell(wd, lane, row) in g.codes && !Named(g, legend, Cell(wd, lane, row))
  }

  ghost function ResolvedInColumn(g: Grid, legend: Legend, wd: Weekday, lane: int, n: int): set<Cell> {
    set row | 0 <= row < n && Named(g, legend, Cell(wd, lane, row)) :: Cell(wd, lane, row)
  }

  /** What the dense grid says: a slot covering `t` has a cell of this column that the legend gives to `a`. */
  ghost predicate GridHolds(g: Grid, legend: Legend, wd: Weekday, lane: int, t: int, a: Access) {
    exists row :: 0 <= row < |g.slots| && g.slots[row].start <= t < g.slots[row].end
                  && NamedAs(g, legend, Cell(wd, lane, row), a)
  }

  ghost predicate DisjointSlots(slots: seq<TimeRange>) {
    forall i, j :: 0 <= i < j < |slots| ==> !Overlaps(slots[i], slots[j])
  }

  // --- the reference encoding: blocks of rows ---------------------------------------

  datatype Run = Run(span: TimeRange, access: Access)

  /** Rows `first..last`, all one owner's. */
  datatype Block = Block(first: nat, last: nat, access: Access)

  ghost predicate Touching(slots: seq<TimeRange>, row: nat) {
    0 < row < |slots| && slots[row].start == slots[row - 1].end
  }

  /** An owned cell extends the last block when it continues it in owner and in time, and opens a
      new one otherwise; a blank cell does neither. */
  ghost function NextBlocks(g: Grid, legend: Legend, wd: Weekday, lane: int, bs: seq<Block>, row: nat): seq<Block> {
    match Owner(g, legend, wd, lane, row)
    case None => bs
    case Some(a) =>
      if bs != [] && bs[|bs| - 1].last == row - 1 && bs[|bs| - 1].access == a && Touching(g.slots, row)
      then bs[..|bs| - 1] + [bs[|bs| - 1].(last := row)]
      else bs + [Block(row, row, a)]
  }

  /** The blocks of the first `n` rows. */
  ghost function Blocks(g: Grid, legend: Legend, wd: Weekday, lane: int, n: nat): seq<Block>
    requires n <= |g.slots|
  {
    if n == 0 then [] else NextBlocks(g, legend, wd, lane, Blocks(g, legend, wd, lane, n - 1), n - 1)
  }

  ghost predicate Chained(slots: seq<TimeRange>, b: Block) {
    && b.first <= b.last < |slots|
    && forall row :: b.first < row <= b.last ==> Touching(slots, row)
  }

  ghost predicate BlockFits(g: Grid, legend: Legend, wd: Weekday, lane: int, b: Block) {
    && Chained(g.slots, b)
    && forall row :: b.first <= row <= b.last ==> Owner(g, legend, wd, lane, row) == Some(b.access)
  }

  /** Ordered, apart, and never two neighbours that one block could have covered. */
  ghost predicate Apart(slots: seq<TimeRange>, b: Block, c: Block) {
    && b.last < c.first
    && (b.last + 1 == c.first ==> b.access != c.access || !Touching(slots, c.first))
  }

  ghost predicate AllFit(g: Grid, legend: Legend, wd: Weekday, lane: int, bs: seq<Block>, n: nat) {
    forall i :: 0 <= i < |bs| ==> bs[i].last < n && BlockFits(g, legend, wd, lane, bs[i])
  }

  ghost predicate AllApart(slots: seq<TimeRange>, bs: seq<Block>) {
    forall i, j :: 0 <= i < j < |bs| ==> Apart(slots, bs[i], bs[j])
  }

  ghost predicate RowCovered(bs: seq<Block>, row: int) {
    exists i :: 0 <= i < |bs| && bs[i].first <= row <= bs[i].last
  }

  ghost predicate AllCovered(g: Grid, legend: Legend, wd: Weekday, lane: int, bs: seq<Block>, n: nat) {
    forall row :: 0 <= row < n && Owner(g, legend, wd, lane, row).Some? ==> RowCovered(bs, row)
  }

  lemma GrowthCovers(before: seq<Block>, after: seq<Block>, row: int)
    requires |before| <= |after|
    requires forall i :: 0 <= i < |before| ==> after[i].first == before[i].first && before[i].last <= after[i].last
    ensures RowCovered(before, row) ==> RowCovered(after, row)
  {
    if i :| 0 <= i < |before| && before[i].first <= row <= before[i].last {
      assert after[i].first <= row <= after[i].last;
    }
  }

  ghost predicate Encoding(g: Grid, legend: Legend, wd: Weekday, lane: int, bs: seq<Block>, n: nat) {
    && AllFit(g, legend, wd, lane, bs, n)
    && AllApart(g.slots, bs)
    && AllCovered(g, legend, wd, lane, bs, n)
  }

  lemma OpenKeepsEncoding(g: Grid, legend: Legend, wd: Weekday, lane: int, bs: seq<Block>, row: nat, a: Access)
    requires row < |g.slots| && Encoding(g, legend, wd, lane, bs, row)
    requires Owner(g, legend, wd, lane, row) == Some(a)
    requires bs != [] && bs[|bs| - 1].last == row - 1 && bs[|bs| - 1].access == a ==> !Touching(g.slots, row)
    ensures Encoding(g, legend, wd, lane, bs + [Block(row, row, a)], row + 1)
  {
    var after := bs + [Block(row, row, a)];
    assert BlockFits(g, legend, wd, lane, after[|bs|]);
    assert AllFit(g, legend, wd, lane, after, row + 1);
    assert forall i :: 0 <= i < |bs| - 1 ==> Apart(g.slots, bs[i], bs[|bs| - 1]);
    assert AllApart(g.slots, after);
    assert after[|bs|].first <= row <= after[|bs|].last;
    forall r | 0 <= r <= row && Owner(g, legend, wd, lane, r).Some? ensures RowCovered(after, r) {
      GrowthCovers(bs, after, r);
    }
  }

  lemma ExtendKeepsEncoding(g: Grid, legend: Legend, wd: Weekday, lane: int, bs: seq<Block>, row: nat)
    requires 0 < row < |g.slots| && bs != [] && Encoding(g, legend, wd, lane, bs, row)
    requires bs[|bs| - 1].last == row - 1 && Touching(g.slots, row)
    requires Owner(g, legend, wd, lane, row) == Some(bs[|bs| - 1].access)
    ensures Encoding(g, legend, wd, lane, bs[..|bs| - 1] + [bs[|bs| - 1].(last := row)], row + 1)
  {
    var k := |bs| - 1;
    var after := bs[..k] + [bs[k].(last := row)];
    assert BlockFits(g, legend, wd, lane, bs[k]);
    assert BlockFits(g, legend, wd, lane, after[k]);
    assert AllFit(g, legend, wd, lane, after, row + 1);
    assert AllApart(g.slots, after);
    assert after[k].first <= row <= after[k].last;
    forall r | 0 <= r <= row && Owner(g, legend, wd, lane, r).Some? ensures RowCovered(after, r) {
      GrowthCovers(bs, after, r);
    }
  }

  lemma NextKeepsEncoding(
    g: Grid, legend: Legend, wd: Weekday, lane: int, bs: seq<Block>, row: nat, next: seq<Block>, n: nat)
    requires row < n == row + 1 <= |g.slots| && Encoding(g, legend, wd, lane, bs, row)
    requires next == NextBlocks(g, legend, wd, lane, bs, row)
    ensures Encoding(g, legend, wd, lane, next, n)
  {
    match Owner(g, legend, wd, lane, row)
    case None =>
    case Some(a) =>
      if bs != [] && bs[|bs| - 1].last == row - 1 && bs[|bs| - 1].access == a && Touching(g.slots, row) {
        ExtendKeepsEncoding(g, legend, wd, lane, bs, row);
      } else {
        OpenKeepsEncoding(g, legend, wd, lane, bs, row, a);
      }
  }

  lemma {:induction false} BlocksEncodeColumn(g: Grid, legend: Legend, wd: Weekday, lane: int, n: nat)
    requires n <= |g.slots|
    ensures Encoding(g, legend, wd, lane, Blocks(g, legend, wd, lane, n), n)
  {
    if n == 0 {
      assert Blocks(g, legend, wd, lane, n) == [];
    } else {
      var before, after := Blocks(g, legend, wd, lane, n - 1), Blocks(g, legend, wd, lane, n);
      BlocksEncodeColumn(g, legend, wd, lane, n - 1);
      NextKeepsEncoding(g, legend, wd, lane, before, n - 1, after, n);
    }
  }

  /** A chain of touching slots covers exactly the time from its first start to its last end. */
  lemma {:induction false} ChainIsSpan(slots: seq<TimeRange>, b: Block, t: int)
    requires Chained(slots, b)
    ensures slots[b.first].start < slots[b.last].end
    ensures Span(slots[b.first].start, slots[b.last].end).Contains(t)
            <==> exists row :: b.first <= row <= b.last && slots[row].Contains(t)
    decreases b.last
  {
    if b.first < b.last {
      var shorter := b.(last := b.last - 1);
      ChainIsSpan(slots, shorter, t);
      assert Touching(slots, b.last);
      if slots[b.last].Contains(t) {
        assert b.first <= b.last;
      }
    }
  }

  ghost function RunOf(slots: seq<TimeRange>, b: Block): Run
    requires Chained(slots, b)
  {
    ChainIsSpan(slots, b, 0);
    Run(Span(slots[b.first].start, slots[b.last].end), b.access)
  }

  /** The runs of a column: its blocks, as time spans. */
  ghost function Runs(g: Grid, legend: Legend, wd: Weekday, lane: int): seq<Run> {
    BlocksEncodeColumn(g, legend, wd, lane, |g.slots|);
    var bs := Blocks(g, legend, wd, lane, |g.slots|);
    seq(|bs|, k requires 0 <= k < |bs| => RunOf(g.slots, bs[k]))
  }

  /** The encoding loses and invents nothing: at every instant a run owned by `a` covers `t`
      exactly when the dense column says so. A blank half-hour is inside no run. */
  lemma RunsMeanColumn(g: Grid, legend: Legend, wd: Weekday, lane: int, t: int, a: Access)
    ensures (exists run :: run in Runs(g, legend, wd, lane) && run.span.Contains(t) && run.access == a)
            <==> GridHolds(g, legend, wd, lane, t, a)
  {
    BlocksEncodeColumn(g, legend, wd, lane, |g.slots|);
    var bs, runs := Blocks(g, legend, wd, lane, |g.slots|), Runs(g, legend, wd, lane);
    forall k | 0 <= k < |runs| && runs[k].span.Contains(t) && runs[k].access == a
      ensures GridHolds(g, legend, wd, lane, t, a)
    {
      ChainIsSpan(g.slots, bs[k], t);
      var row :| bs[k].first <= row <= bs[k].last && g.slots[row].Contains(t);
      assert Owner(g, legend, wd, lane, row) == Some(a);
    }
    if row :| 0 <= row < |g.slots| && g.slots[row].Contains(t) && Owner(g, legend, wd, lane, row) == Some(a) {
      assert RowCovered(bs, row);
      var k :| 0 <= k < |bs| && bs[k].first <= row <= bs[k].last;
      ChainIsSpan(g.slots, bs[k], t);
      assert runs[k] in runs;
    }
  }

  lemma BlocksShareNoInstant(slots: seq<TimeRange>, b: Block, c: Block, t: int)
    requires DisjointSlots(slots) && Chained(slots, b) && Chained(slots, c) && b.last < c.first
    ensures !(RunOf(slots, b).span.Contains(t) && RunOf(slots, c).span.Contains(t))
  {
    ChainIsSpan(slots, b, t);
    ChainIsSpan(slots, c, t);
    forall p, q | b.first <= p <= b.last && c.first <= q <= c.last
      ensures !(slots[p].Contains(t) && slots[q].Contains(t))
    {
      OverlapIsSharedInstant(slots[p], slots[q]);
    }
  }

  /** When the slots are pairwise disjoint, so are the runs of a column. */
  lemma RunsDisjoint(g: Grid, legend: Legend, wd: Weekday, lane: int)
    requires DisjointSlots(g.slots)
    ensures var runs := Runs(g, legend, wd, lane);
            forall i, j :: 0 <= i < j < |runs| ==> !Overlaps(runs[i].span, runs[j].span)
  {
    BlocksEncodeColumn(g, legend, wd, lane, |g.slots|);
    var bs, runs := Blocks(g, legend, wd, lane, |g.slots|), Runs(g, legend, wd, lane);
    forall i, j | 0 <= i < j < |runs| ensures !Overlaps(runs[i].span, runs[j].span) {
      assert Apart(g.slots, bs[i], bs[j]);
      forall t ensures !(runs[i].span.Contains(t) && runs[j].span.Contains(t)) {
        BlocksShareNoInstant(g.slots, bs[i], bs[j], t);
      }
      OverlapIsSharedInstant(runs[i].span, runs[j].span);
    }
  }

  ghost predicate AscendingSlots(slots: seq<TimeRange>) {
    forall i, j :: 0 <= i < j < |slots| ==> slots[i].end <= slots[j].start
  }

  /** Runs are as long as they can be: over ascending slots, two runs of one owner in one column
      never meet end to start. */
  lemma RunsMaximal(g: Grid, legend: Legend, wd: Weekday, lane: int)
    requires AscendingSlots(g.slots)
    ensures var runs := Runs(g, legend, wd, lane);
            forall i, j :: 0 <= i < |runs| && 0 <= j < |runs| && runs[i].span.end == runs[j].span.start
              ==> runs[i].access != runs[j].access
  {
    BlocksEncodeColumn(g, legend, wd, lane, |g.slots|);
    var bs, runs := Blocks(g, legend, wd, lane, |g.slots|), Runs(g, legend, wd, lane);
    forall i, j | 0 <= i < |runs| && 0 <= j < |runs|
      ensures runs[i].span.end == runs[j].span.start ==> runs[i].access != runs[j].access
    {
      var p, q := bs[i], bs[j];
      ChainIsSpan(g.slots, p, 0);
      ChainIsSpan(g.slots, q, 0);
      if j < i {
        assert Apart(g.slots, q, p);
      } else if i < j {
        assert Apart(g.slots, p, q);
        assert p.last + 1 < q.first ==> g.slots[p.last].end < g.slots[p.last + 1].end <= g.slots[q.first].start;
      }
    }
  }

  // --- the chain a cell lies in ---------------------------------------------------------

  /** The cell of this row continues that of the row above in owner and in time. */
  ghost predicate Linked(g: Grid, legend: Legend, wd: Weekday, lane: int, row: int) {
    && 0 < row && Touching(g.slots, row) && Owner(g, legend, wd, lane, row).Some?
    && Owner(g, legend, wd, lane, row - 1) == Owner(g, legend, wd, lane, row)
  }

  /** The first row of the chain of linked cells that `row` lies in. */
  ghost function ChainFirst(g: Grid, legend: Legend, wd: Weekday, lane: int, row: nat): (first: nat)
    ensures first <= row
  {
    if Linked(g, legend, wd, lane, row) then ChainFirst(g, legend, wd, lane, row - 1) else row
  }

  ghost function ChainLast(g: Grid, legend: Legend, wd: Weekday, lane: int, row: nat): (last: nat)
    requires row < |g.slots|
    ensures row <= last < |g.slots|
    decreases |g.slots| - row
  {
    if Linked(g, legend, wd, lane, row + 1) then ChainLast(g, legend, wd, lane, row + 1) else row
  }

  lemma {:induction false} ChainFirstIs(g: Grid, legend: Legend, wd: Weekday, lane: int, first: nat, row: nat)
    requires first <= row && !Linked(g, legend, wd, lane, first)
    requires forall r :: first < r <= row ==> Linked(g, legend, wd, lane, r)
    ensures ChainFirst(g, legend, wd, lane, row) == first
  {
    if first < row {
      ChainFirstIs(g, legend, wd, lane, first, row - 1);
    }
  }

  lemma {:induction false} ChainLastIs(g: Grid, legend: Legend, wd: Weekday, lane: int, last: nat, row: nat)
    requires row <= last < |g.slots| && !Linked(g, legend, wd, lane, last + 1)
    requires forall r :: row < r <= last ==> Linked(g, legend, wd, lane, r)
    ensures ChainLast(g, legend, wd, lane, row) == last
    decreases last - row
  {
    if row < last {
      ChainLastIs(g, legend, wd, lane, last, row + 1);
    }
  }

  lemma ApartAt(slots: seq<TimeRange>, bs: seq<Block>, i: nat, j: nat)
    requires AllApart(slots, bs)
    ensures i < j < |bs| ==> Apart(slots, bs[i], bs[j])
  {
  }

  /** The cells just before and just after a block are not of its chain. */
  lemma BlockEndsChain(g: Grid, legend: Legend, wd: Weekday, lane: int, bs: seq<Block>, k: nat)
    requires Encoding(g, legend, wd, lane, bs, |g.slots|) && k < |bs|
    ensures !Linked(g, legend, wd, lane, bs[k].first) && !Linked(g, legend, wd, lane, bs[k].last + 1)
  {
    var b := bs[k];
    assert BlockFits(g, legend, wd, lane, b);
    if Linked(g, legend, wd, lane, b.first) {
      var j := BlockOfRow(g, legend, wd, lane, bs, b.first - 1);
      ApartAt(g.slots, bs, j, k);
      ApartAt(g.slots, bs, k, j);
    }
    if Linked(g, legend, wd, lane, b.last + 1) {
      var j := BlockOfRow(g, legend, wd, lane, bs, b.last + 1);
      ApartAt(g.slots, bs, j, k);
      ApartAt(g.slots, bs, k, j);
    }
  }

  /** The block an owned cell lies in. */
  lemma BlockOfRow(g: Grid, legend: Legend, wd: Weekday, lane: int, bs: seq<Block>, row: int) returns (k: nat)
    requires Encoding(g, legend, wd, lane, bs, |g.slots|)
    requires 0 <= row < |g.slots| && Owner(g, legend, wd, lane, row).Some?
    ensures k < |bs| && bs[k].first <= row <= bs[k].last && BlockFits(g, legend, wd, lane, bs[k])
    ensures Owner(g, legend, wd, lane, row) == Some(bs[k].access)
  {
    assert RowCovered(bs, row);
    k :| 0 <= k < |bs| && bs[k].first <= row <= bs[k].last;
  }

  /** A block is the whole chain of every cell in it. */
  lemma BlockIsChain(g: Grid, legend: Legend, wd: Weekday, lane: int, bs: seq<Block>, k: nat, row: nat)
    requires Encoding(g, legend, wd, lane, bs, |g.slots|) && k < |bs| && bs[k].first <= row <= bs[k].last
    ensures ChainFirst(g, legend, wd, lane, row) == bs[k].first && ChainLast(g, legend, wd, lane, row) == bs[k].last
  {
    var b := bs[k];
    assert BlockFits(g, legend, wd, lane, b);
    forall r | b.first < r <= b.last ensures Linked(g, legend, wd, lane, r) {
      assert Owner(g, legend, wd, lane, r - 1) == Some(b.access);
    }
    BlockEndsChain(g, legend, wd, lane, bs, k);
    ChainFirstIs(g, legend, wd, lane, b.first, row);
    ChainLastIs(g, legend, wd, lane, b.last, row);
  }

  /** Two cells are of one owner, and their chains start and end at the same times. */
  ghost predicate SameChain(g: Grid, legend: Legend, wd: Weekday, lane: int, p: nat, q: nat)
    requires p < |g.slots| && q < |g.slots|
  {
    && Owner(g, legend, wd, lane, p) == Owner(g, legend, wd, lane, q)
    && g.slots[ChainFirst(g, legend, wd, lane, p)].start == g.slots[ChainFirst(g, legend, wd, lane, q)].start
    && g.slots[ChainLast(g, legend, wd, lane, p)].end == g.slots[ChainLast(g, legend, wd, lane, q)].end
  }

  /** Owned cells of the column whose slots overlap are of one owner and in chains of one span. */
  ghost predicate CellsClashFree(g: Grid, legend: Legend, wd: Weekday, lane: int) {
    forall p: nat, q: nat :: p < |g.slots| && q < |g.slots| && Overlaps(g.slots[p], g.slots[q])
      && Owner(g, legend, wd, lane, p).Some? && Owner(g, legend, wd, lane, q).Some?
      ==> SameChain(g, legend, wd, lane, p, q)
  }

  /** No two different runs overlap in time. */
  ghost predicate RunsClashFree(runs: seq<Run>) {
    forall x, y :: x in runs && y in runs && x != y ==> !Overlaps(x.span, y.span)
  }

  /** Two cells in one chain span lie in equal runs, and conversely. */
  lemma SameChainSameRun(g: Grid, legend: Legend, wd: Weekday, lane: int, i: nat, j: nat, p: nat, q: nat)
    requires var bs := Blocks(g, legend, wd, lane, |g.slots|);
             i < |bs| && j < |bs| && bs[i].first <= p <= bs[i].last && bs[j].first <= q <= bs[j].last
    ensures p < |g.slots| && q < |g.slots|
    ensures var runs := Runs(g, legend, wd, lane);
            runs[i] == runs[j] <==> SameChain(g, legend, wd, lane, p, q)
  {
    BlocksEncodeColumn(g, legend, wd, lane, |g.slots|);
    var bs := Blocks(g, legend, wd, lane, |g.slots|);
    assert BlockFits(g, legend, wd, lane, bs[i]) && BlockFits(g, legend, wd, lane, bs[j]);
    BlockIsChain(g, legend, wd, lane, bs, i, p);
    BlockIsChain(g, legend, wd, lane, bs, j, q);
  }

  lemma CellsGiveRuns(g: Grid, legend: Legend, wd: Weekday, lane: int, i: nat, j: nat)
    requires CellsClashFree(g, legend, wd, lane)
    requires i < |Runs(g, legend, wd, lane)| && j < |Runs(g, legend, wd, lane)|
    ensures var runs := Runs(g, legend, wd, lane);
            runs[i] != runs[j] ==> !Overlaps(runs[i].span, runs[j].span)
  {
    BlocksEncodeColumn(g, legend, wd, lane, |g.slots|);
    var bs, runs := Blocks(g, legend, wd, lane, |g.slots|), Runs(g, legend, wd, lane);
    if Overlaps(runs[i].span, runs[j].span) {
      OverlapIsSharedInstant(runs[i].span, runs[j].span);
      var t :| runs[i].span.Contains(t) && runs[j].span.Contains(t);
      ChainIsSpan(g.slots, bs[i], t);
      ChainIsSpan(g.slots, bs[j], t);
      var p: nat :| bs[i].first <= p <= bs[i].last && g.slots[p].Contains(t);
      var q: nat :| bs[j].first <= q <= bs[j].last && g.slots[q].Contains(t);
      assert BlockFits(g, legend, wd, lane, bs[i]) && BlockFits(g, legend, wd, lane, bs[j]);
      OverlapIsSharedInstant(g.slots[p], g.slots[q]);
      SameChainSameRun(g, legend, wd, lane, i, j, p, q);
    }
  }

  lemma RunsGiveCells(g: Grid, legend: Legend, wd: Weekday, lane: int, p: nat, q: nat)
    requires RunsClashFree(Runs(g, legend, wd, lane))
    requires p < |g.slots| && q < |g.slots| && Overlaps(g.slots[p], g.slots[q])
    requires Owner(g, legend, wd, lane, p).Some? && Owner(g, legend, wd, lane, q).Some?
    ensures SameChain(g, legend, wd, lane, p, q)
  {
    BlocksEncodeColumn(g, legend, wd, lane, |g.slots|);
    var bs, runs := Blocks(g, legend, wd, lane, |g.slots|), Runs(g, legend, wd, lane);
    var i := BlockOfRow(g, legend, wd, lane, bs, p);
    var j := BlockOfRow(g, legend, wd, lane, bs, q);
    OverlapIsSharedInstant(g.slots[p], g.slots[q]);
    var t :| g.slots[p].Contains(t) && g.slots[q].Contains(t);
    ChainIsSpan(g.slots, bs[i], t);
    ChainIsSpan(g.slots, bs[j], t);
    OverlapIsSharedInstant(runs[i].span, runs[j].span);
    assert runs[i] in runs && runs[j] in runs;
    SameChainSameRun(g, legend, wd, lane, i, j, p, q);
  }

  /** Whether a column's runs clash can be read off its cells. */
  lemma ClashFreeExactly(g: Grid, legend: Legend, wd: Weekday, lane: int)
    ensures RunsClashFree(Runs(g, legend, wd, lane)) <==> CellsClashFree(g, legend, wd, lane)
  {
    var runs := Runs(g, legend, wd, lane);
    if CellsClashFree(g, legend, wd, lane) {
      forall x, y | x in runs && y in runs && x != y ensures !Overlaps(x.span, y.span) {
        var i :| 0 <= i < |runs| && runs[i] == x;
        var j :| 0 <= j < |runs| && runs[j] == y;
        CellsGiveRuns(g, legend, wd, lane, i, j);
      }
    }
    if RunsClashFree(runs) {
      forall p: nat, q: nat | p < |g.slots| && q < |g.slots| && Overlaps(g.slots[p], g.slots[q])
        && Owner(g, legend, wd, lane, p).Some? && Owner(g, legend, wd, lane, q).Some?
        ensures SameChain(g, legend, wd, lane, p, q)
      {
        RunsGiveCells(g, legend, wd, lane, p, q);
      }
    }
  }

  // --- the source's loop ------------------------------------------------------------

  /** The block the loop has open before row `row`, if any. */
  ghost function OpenBlock(startRow: Option<nat>, current: Option<Access>, row: nat): seq<Block> {
    if startRow.Some? && current.Some? && row > 0 then [Block(startRow.value, row - 1, current.value)] else []
  }

  ghost predicate Encodes(slots: seq<TimeRange>, runs: seq<Run>, blocks: seq<Block>) {
    && |runs| == |blocks|
    && forall k :: 0 <= k < |blocks| ==> Chained(slots, blocks[k]) && runs[k] == RunOf(slots, blocks[k])
  }

  /** The reference encoding before row `row`, split into what is closed and what is open. */
  ghost predicate SplitAt(
    g: Grid, legend: Legend, wd: Weekday, lane: int, row: nat,
    closed: seq<Block>, startRow: Option<nat>, current: Option<Access>)
    requires row <= |g.slots|
  {
    && startRow.Some? == current.Some?
    && Blocks(g, legend, wd, lane, row) == closed + OpenBlock(startRow, current, row)
    && (current.Some? ==> row > 0 && startRow.value < row)
    && (current.None? && closed != [] ==> closed[|closed| - 1].last + 1 < row)
  }

  lemma SplitStep(
    g: Grid, legend: Legend, wd: Weekday, lane: int, row: nat,
    closed: seq<Block>, startRow: Option<nat>, current: Option<Access>)
    requires row < |g.slots| && SplitAt(g, legend, wd, lane, row, closed, startRow, current)
    ensures var access, shut := Owner(g, legend, wd, lane, row), closed + OpenBlock(startRow, current, row);
            if access.None? then SplitAt(g, legend, wd, lane, row + 1, shut, None, None)
            else if current == access && Touching(g.slots, row)
            then SplitAt(g, legend, wd, lane, row + 1, closed, startRow, current)
            else SplitAt(g, legend, wd, lane, row + 1, shut, Some(row), access)
  {
    BlocksEncodeColumn(g, legend, wd, lane, row);
    var before := Blocks(g, legend, wd, lane, row);
  }

  lemma CountStep(g: Grid, legend: Legend, wd: Weekday, lane: int, row: nat)
    ensures |ResolvedInColumn(g, legend, wd, lane, row + 1)| == |ResolvedInColumn(g, legend, wd, lane, row)|
            + if Owner(g, legend, wd, lane, row).Some? then 1 else 0
    ensures Unrecognised(g, legend, wd, lane, row + 1)
         == (Unrecognised(g, legend, wd, lane, row)
             || (Owner(g, legend, wd, lane, row).None? && Cell(wd, lane, row) in g.codes))
  {
    assert ResolvedInColumn(g, legend, wd, lane, row + 1) == ResolvedInColumn(g, legend, wd, lane, row)
        + if Owner(g, legend, wd, lane, row).Some? then {Cell(wd, lane, row)} else {};
  }

  /** Close the open block, if there is one. */
  method Flush(
    g: Grid, legend: Legend, wd: Weekday, lane: int, row: nat,
    runs: seq<Run>, startRow: Option<nat>, current: Option<Access>, ghost closed: seq<Block>)
    returns (shut: seq<Run>)
    requires row <= |g.slots| && SplitAt(g, legend, wd, lane, row, closed, startRow, current)
    requires Encodes(g.slots, runs, closed)
    ensures Encodes(g.slots, shut, closed + OpenBlock(startRow, current, row))
  {
    shut := runs;
    if startRow.Some? && current.Some? {
      ghost var b := Block(startRow.value, row - 1, current.value);
      BlocksEncodeColumn(g, legend, wd, lane, row);
      assert (closed + [b])[|closed|] == b;
      assert Blocks(g, legend, wd, lane, row)[|closed|] == b;
      ChainIsSpan(g.slots, b, 0);
      shut := runs + [Run(Span(g.slots[startRow.value].start, g.slots[row - 1].end), current.value)];
    }
  }

  /** One column's runs, its resolved-cell count, and whether any coded cell was unresolved. */
  method ColumnRuns(g: Grid, legend: Legend, wd: Weekday, lane: int)
    returns (runs: seq<Run>, resolved: nat, unresolved: bool)
    ensures runs == Runs(g, legend, wd, lane)
    ensures resolved == |ResolvedInColumn(g, legend, wd, lane, |g.slots|)|
    ensures unresolved <==> Unrecognised(g, legend, wd, lane, |g.slots|)
  {
    var n := |g.slots|;
    runs, resolved, unresolved := [], 0, false;
    var startRow: Option<nat>, current: Option<Access> := None, None;
    ghost var closed: seq<Block> := [];
    assert ResolvedInColumn(g, legend, wd, lane, 0) == {};
    for row := 0 to n
      invariant resolved == |ResolvedInColumn(g, legend, wd, lane, row)|
      invariant unresolved <==> Unrecognised(g, legend, wd, lane, row)
      invariant SplitAt(g, legend, wd, lane, row, closed, startRow, current)
      invariant Encodes(g.slots, runs, closed)
    {
      var access := Owner(g, legend, wd, lane, row);
      SplitStep(g, legend, wd, lane, row, closed, startRow, current);
      CountStep(g, legend, wd, lane, row);
      if access.None? {
        unresolved := unresolved || Cell(wd, lane, row) in g.codes;
        runs := Flush(g, legend, wd, lane, row, runs, startRow, current, closed);
        closed := closed + OpenBlock(startRow, current, row);
        startRow, current := None, None;
      } else {
        resolved := resolved + 1;
        if !(current.Some? && access == current && g.slots[row].start == g.slots[row - 1].end) {
          runs := Flush(g, legend, wd, lane, row, runs, startRow, current, closed);
          closed := closed + OpenBlock(startRow, current, row);
          startRow, current := Some(row), access;
        }
      }
    }
    runs := Flush(g, legend, wd, lane, n, runs, startRow, current, closed);
    assert runs == Runs(g, legend, wd, lane);
  }
}
