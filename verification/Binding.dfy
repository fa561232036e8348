/** Reconciling parsed lane plans to basins by the URL they came from: a join that loses nothing
    silently and never guesses. */
module Binding {
  import opened Prelude
  import opened LanePlans
  import opened Pools
  import opened Sorting
  import opened OrderedDict

  type BasinRef = (string, string)

  datatype Binding = Binding(ref: BasinRef, section: Option<string>)

  datatype ParsedPlan = ParsedPlan(basinHint: string, plan: LanePlan, sourceUrl: string)

  datatype BoundPlan = BoundPlan(ref: BasinRef, plan: LanePlan)

  datatype Reason = Undeclared | SplitSheet(sections: nat) | NoTokenMatches | AmbiguousTokens

  datatype UnboundPlan = UnboundPlan(url: string, basinHint: string, reason: Reason)

  datatype UnmatchedSection = UnmatchedSection(url: string, section: string, ref: BasinRef)

  datatype BindError =
    | DuplicateBinding(url: string, section: Option<string>, existing: BasinRef, ref: BasinRef)
    | TwoPlansOneBasin(ref: BasinRef)

  // --- places -----------------------------------------------------------------------

  /** One basin of one facility. */
  datatype Place = Place(facilityId: string, basin: Basin) {
    ghost function Ref(): BasinRef { (facilityId, basin.id) }
  }

  ghost function PlacesOf(f: Facility, bs: seq<Basin>): seq<Place> {
    if bs == [] then [] else PlacesOf(f, bs[..|bs| - 1]) + [Place(f.id, bs[|bs| - 1])]
  }

  /** Every basin, facility by facility. */
  ghost function AllPlaces(fs: seq<Facility>): seq<Place> {
    if fs == [] then [] else AllPlaces(fs[..|fs| - 1]) + PlacesOf(fs[|fs| - 1], fs[|fs| - 1].basins)
  }

  lemma {:induction false} PlacesOfPrefix(f: Facility, bs: seq<Basin>, j: nat)
    requires j <= |bs|
    ensures PlacesOf(f, bs[..j]) <= PlacesOf(f, bs)
  {
    if j == |bs| {
      assert bs[..j] == bs;
    } else {
      PlacesOfPrefix(f, bs[..|bs| - 1], j);
      assert bs[..|bs| - 1][..j] == bs[..j];
    }
  }

  lemma {:induction false} AllPlacesPrefix(fs: seq<Facility>, i: nat)
    requires i <= |fs|
    ensures AllPlaces(fs[..i]) <= AllPlaces(fs)
  {
    if i == |fs| {
      assert fs[..i] == fs;
    } else {
      AllPlacesPrefix(fs[..|fs| - 1], i);
      assert fs[..|fs| - 1][..i] == fs[..i];
    }
  }

  /** The basins the nested loops have met before basin `j` of facility `i`. */
  ghost function Met(fs: seq<Facility>, i: nat, j: nat): seq<Place>
    requires i < |fs| && j <= |fs[i].basins|
  {
    AllPlaces(fs[..i]) + PlacesOf(fs[i], fs[i].basins[..j])
  }

  lemma MetIsPrefix(fs: seq<Facility>, i: nat, j: nat)
    requires i < |fs| && j <= |fs[i].basins|
    ensures Met(fs, i, j) <= AllPlaces(fs)
  {
    PlacesOfPrefix(fs[i], fs[i].basins, j);
    assert fs[..i + 1][..i] == fs[..i];
    AllPlacesPrefix(fs, i + 1);
  }

  lemma MetGrows(fs: seq<Facility>, i: nat, j: nat)
    requires i < |fs| && j < |fs[i].basins|
    ensures Met(fs, i, j + 1) == Met(fs, i, j) + [Place(fs[i].id, fs[i].basins[j])]
  {
    assert fs[i].basins[..j + 1][..j] == fs[i].basins[..j];
  }

  lemma MetAll(fs: seq<Facility>, i: nat)
    requires i < |fs|
    ensures Met(fs, i, 0) == AllPlaces(fs[..i])
    ensures Met(fs, i, |fs[i].basins|) == AllPlaces(fs[..i + 1])
  {
    assert fs[..i + 1][..i] == fs[..i];
    assert fs[i].basins[..|fs[i].basins|] == fs[i].basins;
  }

  // --- declared bindings ------------------------------------------------------------

  ghost predicate Declares(p: Place, url: string, b: Binding) {
    p.basin.source == Some(LanePlanSource(url, b.section)) && b.ref == (p.facilityId, p.basin.id)
  }

  type UrlBindings = Lists<string, Binding>

  function BindingsFor(m: UrlBindings, url: string): seq<Binding> {
    m.Get(url)
  }

  ghost function SourceOf(p: Place): seq<Keyed<string, Binding>> {
    match p.basin.source
    case None => []
    case Some(s) => [Keyed(s.url, Binding(p.Ref(), s.section))]
  }

  /** The bindings of the places that declare a source, each under its URL, in place order. */
  ghost function Sources(places: seq<Place>): seq<Keyed<string, Binding>> {
    if places == [] then [] else Sources(places[..|places| - 1]) + SourceOf(places[|places| - 1])
  }

  ghost predicate Indexes(m: UrlBindings, places: seq<Place>) {
    Collects(m, Sources(places))
  }

  /** Places `i` and `j` declare the same section of the same URL. */
  ghost predicate Collide(places: seq<Place>, i: int, j: int) {
    && 0 <= i < j < |places|
    && places[i].basin.source.Some? && places[i].basin.source == places[j].basin.source
  }

  ghost predicate NoDuplicates(places: seq<Place>) {
    forall i, j :: !Collide(places, i, j)
  }

  ghost predicate ClaimedBy(places: seq<Place>, source: LanePlanSource, ref: BasinRef) {
    exists k :: 0 <= k < |places| && places[k].basin.source == Some(source) && places[k].Ref() == ref
  }

  ghost predicate Seen(places: seq<Place>, seen: map<LanePlanSource, BasinRef>) {
    && (forall k :: 0 <= k < |places| && places[k].basin.source.Some? ==> places[k].basin.source.value in seen)
    && (forall s :: s in seen ==> ClaimedBy(places, s, seen[s]))
  }

  /** The error names two places that collide. */
  ghost predicate NamesOffenders(e: BindError, places: seq<Place>) {
    && e.DuplicateBinding?
    && exists i, j :: (Collide(places, i, j) && places[i].basin.source == Some(LanePlanSource(e.url, e.section))
                       && places[i].Ref() == e.existing && places[j].Ref() == e.ref)
  }

  lemma SeenGrows(places: seq<Place>, seen: map<LanePlanSource, BasinRef>, p: Place)
    requires Seen(places, seen) && NoDuplicates(places)
    requires p.basin.source.Some? ==> p.basin.source.value !in seen
    ensures NoDuplicates(places + [p])
    ensures p.basin.source.None? ==> Seen(places + [p], seen)
    ensures p.basin.source.Some? ==> Seen(places + [p], seen[p.basin.source.value := p.Ref()])
  {
    var all := places + [p];
    forall i, j ensures !Collide(all, i, j) {
      assert !Collide(places, i, j);
    }
    forall s | s in seen ensures ClaimedBy(all, s, seen[s]) {
      var k :| 0 <= k < |places| && places[k].basin.source == Some(s) && places[k].Ref() == seen[s];
      assert all[k] == places[k];
    }
    if p.basin.source.Some? {
      assert all[|places|] == p;
      assert ClaimedBy(all, p.basin.source.value, p.Ref());
    }
  }

  lemma IndexGrows(m: UrlBindings, places: seq<Place>, p: Place)
    requires Indexes(m, places)
    ensures p.basin.source.None? ==> Indexes(m, places + [p])
    ensures p.basin.source.Some? ==> Indexes(m.Append(SourceOf(p)[0]), places + [p])
  {
    assert (places + [p])[..|places|] == places;
    if p.basin.source.Some? {
      CollectsAppend(m, Sources(places), SourceOf(p)[0]);
    } else {
      assert Sources(places + [p]) == Sources(places);
    }
  }

  lemma OffendersNamed(places: seq<Place>, seen: map<LanePlanSource, BasinRef>, p: Place, all: seq<Place>)
    requires Seen(places, seen) && places + [p] <= all
    requires p.basin.source.Some? && p.basin.source.value in seen
    ensures var s := p.basin.source.value;
      NamesOffenders(DuplicateBinding(s.url, s.section, seen[s], p.Ref()), all)
  {
    var s := p.basin.source.value;
    assert ClaimedBy(places, s, seen[s]);
    var k :| 0 <= k < |places| && places[k].basin.source == Some(s) && places[k].Ref() == seen[s];
    assert all[k] == (places + [p])[k] && all[|places|] == (places + [p])[|places|];
    assert Collide(all, k, |places|);
  }

  /** Index every declared source by URL, or fail naming two basins that claim one sheet section. */
  method BuildUrlBindings(fs: seq<Facility>) returns (r: Result<UrlBindings, BindError>)
    ensures r.Ok? ==> NoDuplicates(AllPlaces(fs)) && Indexes(r.value, AllPlaces(fs))
    ensures r.Err? ==> NamesOffenders(r.error, AllPlaces(fs))
  {
    var bindings: UrlBindings := Lists([], map[]);
    var seen: map<LanePlanSource, BasinRef> := map[];
    for i := 0 to |fs|
      invariant NoDuplicates(AllPlaces(fs[..i])) && Indexes(bindings, AllPlaces(fs[..i]))
      invariant Seen(AllPlaces(fs[..i]), seen)
    {
      MetAll(fs, i);
      for j := 0 to |fs[i].basins|
        invariant NoDuplicates(Met(fs, i, j)) && Indexes(bindings, Met(fs, i, j)) && Seen(Met(fs, i, j), seen)
      {
        ghost var p := Place(fs[i].id, fs[i].basins[j]);
        MetGrows(fs, i, j);
        if fs[i].basins[j].source.Some? {
          var ref, source := (fs[i].id, fs[i].basins[j].id), fs[i].basins[j].source.value;
          if source in seen {
            MetIsPrefix(fs, i, j + 1);
            OffendersNamed(Met(fs, i, j), seen, p, AllPlaces(fs));
            return Err(DuplicateBinding(source.url, source.section, seen[source], ref));
          }
          SeenGrows(Met(fs, i, j), seen, p);
          IndexGrows(bindings, Met(fs, i, j), p);
          seen := seen[source := ref];
          bindings := bindings.Append(Keyed(source.url, Binding(ref, source.section)));
        } else {
          SeenGrows(Met(fs, i, j), seen, p);
          IndexGrows(bindings, Met(fs, i, j), p);
        }
      }
    }
    assert fs[..|fs|] == fs;
    return Ok(bindings);
  }

  /** A binding is listed under a URL exactly when some place declares it. */
  lemma {:induction false} SourcesAreDeclared(places: seq<Place>, url: string, b: Binding)
    ensures Keyed(url, b) in Sources(places) <==> exists p :: p in places && Declares(p, url, b)
  {
    if places != [] {
      var front, last := places[..|places| - 1], places[|places| - 1];
      assert places == front + [last];
      SourcesAreDeclared(front, url, b);
      assert Keyed(url, b) in SourceOf(last) <==> Declares(last, url, b);
      if Keyed(url, b) in Sources(front) {
        var p :| p in front && Declares(p, url, b);
        assert p in places;
      }
      if Keyed(url, b) in SourceOf(last) {
        assert last in places && Declares(last, url, b);
      }
    }
  }

  lemma DeclaredIsDeclaring(m: UrlBindings, places: seq<Place>, url: string, b: Binding)
    requires Indexes(m, places)
    ensures b in BindingsFor(m, url) <==> exists p :: p in places && Declares(p, url, b)
  {
    ValuesAtMembers(Sources(places), url, b);
    SourcesAreDeclared(places, url, b);
  }

  /** The indexed URLs are those with a binding. */
  lemma UrlsAreBound(m: UrlBindings, places: seq<Place>, url: string)
    requires Indexes(m, places)
    ensures url in m.keys <==> BindingsFor(m, url) != []
  {
    KeysOfMembers(Sources(places), url);
  }

  // --- routing one plan -------------------------------------------------------------

  predicate OccursAt(text: string, token: string, i: int) {
    0 <= i <= |text| - |token| && text[i..i + |token|] == token
  }

  predicate Contains(text: string, token: string) {
    exists i | 0 <= i <= |text| :: OccursAt(text, token, i)
  }

  /** A binding's declared section token occurs in the normalised header. */
  predicate TokenIn(b: Binding, header: string, normalize: string -> string) {
    b.section.Some? && normalize(b.section.value) != "" && Contains(normalize(header), normalize(b.section.value))
  }

  function Matching(bs: seq<Binding>, header: string, normalize: string -> string): seq<Binding> {
    if bs == [] then [] else
      var b := bs[|bs| - 1];
      Matching(bs[..|bs| - 1], header, normalize) + if TokenIn(b, header, normalize) then [b] else []
  }

  lemma {:induction false} MatchingMembers(bs: seq<Binding>, header: string, normalize: string -> string, b: Binding)
    ensures b in Matching(bs, header, normalize) <==> b in bs && TokenIn(b, header, normalize)
  {
    if bs != [] {
      var front, last := bs[..|bs| - 1], bs[|bs| - 1];
      assert forall x :: x in bs <==> x in front || x == last;
      MatchingMembers(front, header, normalize, b);
    }
  }

  predicate SingleBasin(bs: seq<Binding>) {
    |bs| == 1 && bs[0].section.None?
  }

  datatype Verdict = BindTo(ref: BasinRef) | LeaveUnbound(reason: Reason)

  /** Where a plan goes, given the bindings of its URL and how many plans that sheet gave. */
  function Route(p: ParsedPlan, siblings: nat, bs: seq<Binding>, normalize: string -> string): Verdict {
    if bs == [] then LeaveUnbound(Undeclared)
    else if SingleBasin(bs) then if siblings == 1 then BindTo(bs[0].ref) else LeaveUnbound(SplitSheet(siblings))
    else
      var matches := Matching(bs, p.basinHint, normalize);
      if |matches| == 1 then BindTo(matches[0].ref)
      else LeaveUnbound(if matches == [] then NoTokenMatches else AmbiguousTokens)
  }

  /** The binding's section, when it is not blank once normalised, occurs somewhere in the header. */
  ghost predicate Names(b: Binding, header: string, normalize: string -> string) {
    && b.section.Some? && |normalize(b.section.value)| > 0
    && exists pre: string, post: string :: normalize(header) == pre + normalize(b.section.value) + post
  }

  lemma TokenInIsNames(b: Binding, header: string, normalize: string -> string)
    ensures TokenIn(b, header, normalize) <==> Names(b, header, normalize)
  {
    if b.section.Some? {
      var text, token := normalize(header), normalize(b.section.value);
      if i :| 0 <= i <= |text| && OccursAt(text, token, i) {
        assert text == text[..i] + token + text[i + |token|..];
      }
      if pre: string, post: string :| text == pre + token + post {
        assert OccursAt(text, token, |pre|);
      }
    }
  }

  /** The sheet is one basin's: it has one binding, for the whole of it. */
  ghost predicate Whole(bs: seq<Binding>) {
    |bs| == 1 && bs[0].section == None
  }

  ghost predicate NamedAt(p: ParsedPlan, bs: seq<Binding>, normalize: string -> string, i: int) {
    0 <= i < |bs| && Names(bs[i], p.basinHint, normalize)
  }

  ghost predicate OnlyNamedAt(p: ParsedPlan, bs: seq<Binding>, normalize: string -> string, i: int) {
    NamedAt(p, bs, normalize, i) && forall k :: NamedAt(p, bs, normalize, k) ==> k == i
  }

  ghost predicate TwoNamed(p: ParsedPlan, bs: seq<Binding>, normalize: string -> string) {
    exists i, k :: i < k && NamedAt(p, bs, normalize, i) && NamedAt(p, bs, normalize, k)
  }

  ghost predicate Shared(bs: seq<Binding>) {
    bs != [] && !Whole(bs)
  }

  lemma {:induction false} MatchingIsNamed(p: ParsedPlan, bs: seq<Binding>, normalize: string -> string)
    ensures var matches := Matching(bs, p.basinHint, normalize);
      && (matches == [] <==> forall i :: !NamedAt(p, bs, normalize, i))
      && (|matches| == 1 ==> exists i :: OnlyNamedAt(p, bs, normalize, i) && matches[0] == bs[i])
      && (|matches| > 1 ==> TwoNamed(p, bs, normalize))
  {
    if bs != [] {
      var n := |bs| - 1;
      var front, matches := bs[..n], Matching(bs[..n], p.basinHint, normalize);
      MatchingIsNamed(p, front, normalize);
      TokenInIsNames(bs[n], p.basinHint, normalize);
      forall i ensures NamedAt(p, bs, normalize, i)
        <==> NamedAt(p, front, normalize, i) || (i == n && Names(bs[n], p.basinHint, normalize))
      {
      }
      if |matches| == 1 {
        var i :| OnlyNamedAt(p, front, normalize, i) && matches[0] == front[i];
        if Names(bs[n], p.basinHint, normalize) {
          assert NamedAt(p, bs, normalize, i) && NamedAt(p, bs, normalize, n) && i < n;
        } else {
          assert OnlyNamedAt(p, bs, normalize, i);
        }
      } else if matches == [] && Names(bs[n], p.basinHint, normalize) {
        assert OnlyNamedAt(p, bs, normalize, n);
      } else if |matches| > 1 {
        var i, k :| i < k && NamedAt(p, front, normalize, i) && NamedAt(p, front, normalize, k);
        assert NamedAt(p, bs, normalize, i) && NamedAt(p, bs, normalize, k);
      }
    }
  }

  /** Every route, in terms of the declarations: nobody's sheet; one basin's, bound if it gave one plan
      and left alone if it was split; and a shared one, bound where just one section is named. */
  lemma RouteExactly(p: ParsedPlan, siblings: nat, bs: seq<Binding>, normalize: string -> string)
    ensures var v := Route(p, siblings, bs, normalize);
      && (v == LeaveUnbound(Undeclared) <==> bs == [])
      && (forall n :: v == LeaveUnbound(SplitSheet(n)) <==> Whole(bs) && siblings != 1 && n == siblings)
      && (v == LeaveUnbound(NoTokenMatches) <==> Shared(bs) && forall i :: !NamedAt(p, bs, normalize, i))
      && (v == LeaveUnbound(AmbiguousTokens) <==> Shared(bs) && TwoNamed(p, bs, normalize))
      && (forall ref :: v == BindTo(ref) <==>
            || (Whole(bs) && siblings == 1 && ref == bs[0].ref)
            || (Shared(bs) && exists i :: OnlyNamedAt(p, bs, normalize, i) && ref == bs[i].ref))
  {
    MatchingIsNamed(p, bs, normalize);
  }

  // --- the join ---------------------------------------------------------------------

  /** The plans, each under the URL of the sheet it came from. */
  ghost function ByUrl(plans: seq<ParsedPlan>): seq<Keyed<string, ParsedPlan>> {
    if plans == [] then [] else
      ByUrl(plans[..|plans| - 1]) + [Keyed(plans[|plans| - 1].sourceUrl, plans[|plans| - 1])]
  }

  ghost function FromUrl(plans: seq<ParsedPlan>, url: string): seq<ParsedPlan> {
    ValuesAt(ByUrl(plans), url)
  }

  /** The plans sheet by sheet, sheets in the order they are first met. */
  ghost function InSheetOrder(plans: seq<ParsedPlan>): seq<ParsedPlan> {
    Gathered(KeysOf(ByUrl(plans)), ByUrl(plans))
  }

  lemma {:induction false} ByUrlValues(plans: seq<ParsedPlan>)
    ensures Values(ByUrl(plans)) == plans
  {
    if plans != [] {
      ByUrlValues(plans[..|plans| - 1]);
    }
  }

  lemma {:induction false} ByUrlMembers(plans: seq<ParsedPlan>, url: string, p: ParsedPlan)
    ensures Keyed(url, p) in ByUrl(plans) <==> p in plans && p.sourceUrl == url
  {
    if plans != [] {
      ByUrlMembers(plans[..|plans| - 1], url, p);
      assert plans == plans[..|plans| - 1] + [plans[|plans| - 1]];
    }
  }

  lemma FromUrlMembers(plans: seq<ParsedPlan>, url: string, p: ParsedPlan)
    ensures p in FromUrl(plans, url) <==> p in plans && p.sourceUrl == url
  {
    ByUrlMembers(plans, url, p);
    ValuesAtMembers(ByUrl(plans), url, p);
  }

  /** Grouping by sheet loses no plan and repeats none. */
  lemma SheetOrderConserves(plans: seq<ParsedPlan>)
    ensures multiset(InSheetOrder(plans)) == multiset(plans)
    ensures |InSheetOrder(plans)| == |plans|
    ensures forall p :: p in InSheetOrder(plans) <==> p in plans
  {
    GatheringConserves(ByUrl(plans));
    ByUrlValues(plans);
    assert |multiset(InSheetOrder(plans))| == |multiset(plans)|;
    assert forall p :: p in InSheetOrder(plans) <==> p in multiset(InSheetOrder(plans));
  }

  method GroupByUrl(plans: seq<ParsedPlan>) returns (byUrl: Lists<string, ParsedPlan>)
    ensures Collects(byUrl, ByUrl(plans))
  {
    byUrl := Lists([], map[]);
    for i := 0 to |plans|
      invariant Collects(byUrl, ByUrl(plans[..i]))
    {
      var entry := Keyed(plans[i].sourceUrl, plans[i]);
      assert plans[..i + 1][..i] == plans[..i];
      CollectsAppend(byUrl, ByUrl(plans[..i]), entry);
      byUrl := byUrl.Append(entry);
    }
    assert plans[..|plans|] == plans;
  }

  /** The inputs of one join. */
  datatype Join = Join(plans: seq<ParsedPlan>, bindings: UrlBindings, normalize: string -> string) {
    ghost function Routed(p: ParsedPlan): Verdict {
      Route(p, |FromUrl(plans, p.sourceUrl)|, BindingsFor(bindings, p.sourceUrl), normalize)
    }

    ghost predicate IsBound(b: BoundPlan, p: ParsedPlan) {
      Routed(p) == BindTo(b.ref) && b.plan == p.plan
    }

    ghost predicate IsUnbound(u: UnboundPlan, p: ParsedPlan) {
      u.url == p.sourceUrl && u.basinHint == p.basinHint && Routed(p) == LeaveUnbound(u.reason)
    }

    ghost function BoundOf(ps: seq<ParsedPlan>): seq<BoundPlan> {
      if ps == [] then [] else BoundOf(ps[..|ps| - 1]) + BoundBy(ps[|ps| - 1], Routed(ps[|ps| - 1]))
    }

    ghost function UnboundOf(ps: seq<ParsedPlan>): seq<UnboundPlan> {
      if ps == [] then [] else UnboundOf(ps[..|ps| - 1]) + UnboundBy(ps[|ps| - 1], Routed(ps[|ps| - 1]))
    }

    ghost function Bound(): seq<BoundPlan> { BoundOf(InSheetOrder(plans)) }

    ghost function Unbound(): seq<UnboundPlan> { UnboundOf(InSheetOrder(plans)) }
  }

  ghost function BoundBy(p: ParsedPlan, verdict: Verdict): seq<BoundPlan> {
    if verdict.BindTo? then [BoundPlan(verdict.ref, p.plan)] else []
  }

  ghost function UnboundBy(p: ParsedPlan, verdict: Verdict): seq<UnboundPlan> {
    if verdict.BindTo? then [] else [UnboundPlan(p.sourceUrl, p.basinHint, verdict.reason)]
  }

  lemma OnePlanMore(j: Join, ps: seq<ParsedPlan>, p: ParsedPlan)
    ensures j.BoundOf(ps + [p]) == j.BoundOf(ps) + BoundBy(p, j.Routed(p))
    ensures j.UnboundOf(ps + [p]) == j.UnboundOf(ps) + UnboundBy(p, j.Routed(p))
  {
    assert (ps + [p])[..|ps|] == ps;
  }

  lemma Associates<T>(a: seq<T>, b: seq<T>, c: seq<T>)
    ensures (a + b) + c == a + (b + c)
  {
  }

  lemma EntriesConcatNone(j: Join, ps: seq<ParsedPlan>)
    ensures j.BoundOf(ps + []) == j.BoundOf(ps) + j.BoundOf([])
    ensures j.UnboundOf(ps + []) == j.UnboundOf(ps) + j.UnboundOf([])
  {
    assert ps + [] == ps;
  }

  lemma {:induction false} EntriesConcat(j: Join, ps: seq<ParsedPlan>, more: seq<ParsedPlan>)
    ensures j.BoundOf(ps + more) == j.BoundOf(ps) + j.BoundOf(more)
    ensures j.UnboundOf(ps + more) == j.UnboundOf(ps) + j.UnboundOf(more)
  {
    if more == [] {
      EntriesConcatNone(j, ps);
    } else {
      var front, p := more[..|more| - 1], more[|more| - 1];
      assert more == front + [p];
      Associates(ps, front, [p]);
      EntriesConcat(j, ps, front);
      OnePlanMore(j, front, p);
      OnePlanMore(j, ps + front, p);
      Associates(j.BoundOf(ps), j.BoundOf(front), BoundBy(p, j.Routed(p)));
      Associates(j.UnboundOf(ps), j.UnboundOf(front), UnboundBy(p, j.Routed(p)));
    }
  }

  /** The plans of the sheets at `urls`, sheet by sheet. */
  ghost function Sheets(plans: seq<ParsedPlan>, urls: seq<string>): seq<ParsedPlan> {
    Gathered(urls, ByUrl(plans))
  }

  lemma OneSheetMore(j: Join, urls: seq<string>, i: nat)
    requires i < |urls|
    ensures j.BoundOf(Sheets(j.plans, urls[..i + 1])) ==
            j.BoundOf(Sheets(j.plans, urls[..i])) + j.BoundOf(FromUrl(j.plans, urls[i]))
    ensures j.UnboundOf(Sheets(j.plans, urls[..i + 1])) ==
            j.UnboundOf(Sheets(j.plans, urls[..i])) + j.UnboundOf(FromUrl(j.plans, urls[i]))
  {
    assert urls[..i + 1][..i] == urls[..i];
    EntriesConcat(j, Sheets(j.plans, urls[..i]), FromUrl(j.plans, urls[i]));
  }

  lemma {:induction false} OneEntryEach(j: Join, ps: seq<ParsedPlan>)
    ensures |j.BoundOf(ps)| + |j.UnboundOf(ps)| == |ps|
  {
    if ps != [] {
      OneEntryEach(j, ps[..|ps| - 1]);
    }
  }

  lemma {:induction false} BoundMembers(j: Join, ps: seq<ParsedPlan>, b: BoundPlan)
    ensures b in j.BoundOf(ps) <==> exists p :: p in ps && j.IsBound(b, p)
  {
    if ps != [] {
      var front, last := ps[..|ps| - 1], ps[|ps| - 1];
      assert ps == front + [last];
      BoundMembers(j, front, b);
      assert b in BoundBy(last, j.Routed(last)) <==> j.IsBound(b, last);
      assert forall p :: p in ps <==> p in front || p == last;
    }
  }

  lemma {:induction false} UnboundMembers(j: Join, ps: seq<ParsedPlan>, u: UnboundPlan)
    ensures u in j.UnboundOf(ps) <==> exists p :: p in ps && j.IsUnbound(u, p)
  {
    if ps != [] {
      var front, last := ps[..|ps| - 1], ps[|ps| - 1];
      assert ps == front + [last];
      UnboundMembers(j, front, u);
      assert u in UnboundBy(last, j.Routed(last)) <==> j.IsUnbound(u, last);
      assert forall p :: p in ps <==> p in front || p == last;
    }
  }

  /** What the join makes of its plans: one entry each, bound or unbound as its route says. */
  lemma EntriesAreRoutes(j: Join)
    ensures |j.Bound()| + |j.Unbound()| == |j.plans|
    ensures forall b :: b in j.Bound() <==> exists p :: p in j.plans && j.IsBound(b, p)
    ensures forall u :: u in j.Unbound() <==> exists p :: p in j.plans && j.IsUnbound(u, p)
  {
    var ps := InSheetOrder(j.plans);
    SheetOrderConserves(j.plans);
    OneEntryEach(j, ps);
    forall b ensures b in j.Bound() <==> exists p :: p in j.plans && j.IsBound(b, p) {
      BoundMembers(j, ps, b);
    }
    forall u ensures u in j.Unbound() <==> exists p :: p in j.plans && j.IsUnbound(u, p) {
      UnboundMembers(j, ps, u);
    }
  }

  /** The entries of one sheet's plans, in order. */
  method BindGroup(j: Join, url: string, plans: seq<ParsedPlan>)
    returns (bound: seq<BoundPlan>, unbound: seq<UnboundPlan>)
    requires plans == FromUrl(j.plans, url)
    ensures bound == j.BoundOf(plans) && unbound == j.UnboundOf(plans)
  {
    bound, unbound := [], [];
    var bs := BindingsFor(j.bindings, url);
    for i := 0 to |plans|
      invariant bound == j.BoundOf(plans[..i]) && unbound == j.UnboundOf(plans[..i])
    {
      var p := plans[i];
      FromUrlMembers(j.plans, url, p);
      assert plans[..i + 1][..i] == plans[..i];
      match Route(p, |plans|, bs, j.normalize) {
        case BindTo(ref) => bound := bound + [BoundPlan(ref, p.plan)];
        case LeaveUnbound(reason) => unbound := unbound + [UnboundPlan(url, p.basinHint, reason)];
      }
    }
    assert plans[..|plans|] == plans;
  }

  /** Join parsed plans to bindings by URL. Each plan becomes exactly one bound or one unbound entry. */
  method BindPlans(j: Join) returns (bound: seq<BoundPlan>, unbound: seq<UnboundPlan>)
    ensures bound == j.Bound() && unbound == j.Unbound()
  {
    var byUrl := GroupByUrl(j.plans);
    bound, unbound := [], [];
    for i := 0 to |byUrl.keys|
      invariant bound == j.BoundOf(Sheets(j.plans, byUrl.keys[..i]))
      invariant unbound == j.UnboundOf(Sheets(j.plans, byUrl.keys[..i]))
    {
      var url := byUrl.keys[i];
      var here, notHere := BindGroup(j, url, byUrl.Get(url));
      OneSheetMore(j, byUrl.keys, i);
      bound, unbound := bound + here, unbound + notHere;
    }
    assert byUrl.keys[..|byUrl.keys|] == byUrl.keys;
  }

  ghost predicate OnlyTokenIn(bs: seq<Binding>, header: string, normalize: string -> string, b: Binding) {
    forall other :: other in bs && TokenIn(other, header, normalize) ==> other == b
  }

  lemma OnlyMatch(bs: seq<Binding>, header: string, normalize: string -> string)
    requires |Matching(bs, header, normalize)| == 1
    ensures var b := Matching(bs, header, normalize)[0];
      b in bs && TokenIn(b, header, normalize) && OnlyTokenIn(bs, header, normalize, b)
  {
    var matches := Matching(bs, header, normalize);
    MatchingMembers(bs, header, normalize, matches[0]);
    forall other | other in bs && TokenIn(other, header, normalize) ensures other == matches[0] {
      MatchingMembers(bs, header, normalize, other);
    }
  }

  /** The binding a bound plan was routed by. */
  lemma BoundByBinding(j: Join, b: BoundPlan, p: ParsedPlan) returns (binding: Binding)
    requires j.IsBound(b, p)
    ensures binding in BindingsFor(j.bindings, p.sourceUrl) && binding.ref == b.ref
    ensures binding.section.Some? ==> TokenIn(binding, p.basinHint, j.normalize)
    ensures OnlyTokenIn(BindingsFor(j.bindings, p.sourceUrl), p.basinHint, j.normalize, binding)
  {
    var bs := BindingsFor(j.bindings, p.sourceUrl);
    if SingleBasin(bs) {
      binding := bs[0];
    } else {
      OnlyMatch(bs, p.basinHint, j.normalize);
      binding := Matching(bs, p.basinHint, j.normalize)[0];
    }
  }

  /** A plan is bound only to a basin that declares the URL it came from, and where the sheet is
      shared, only to the one whose section token its header contains. */
  lemma BoundOnlyWhereDeclared(j: Join, places: seq<Place>, b: BoundPlan, p: ParsedPlan)
    returns (place: Place, binding: Binding)
    requires Indexes(j.bindings, places) && j.IsBound(b, p)
    ensures place in places && place.Ref() == b.ref && Declares(place, p.sourceUrl, binding)
    ensures binding.section.Some? ==> TokenIn(binding, p.basinHint, j.normalize)
    ensures OnlyTokenIn(BindingsFor(j.bindings, p.sourceUrl), p.basinHint, j.normalize, binding)
  {
    binding := BoundByBinding(j, b, p);
    DeclaredIsDeclaring(j.bindings, places, p.sourceUrl, binding);
    place :| place in places && Declares(place, p.sourceUrl, binding);
  }

  // --- declared sections no header matched --------------------------------------------

  ghost predicate HeaderHas(j: Join, url: string, b: Binding) {
    exists p :: p in FromUrl(j.plans, url) && TokenIn(b, p.basinHint, j.normalize)
  }

  ghost predicate Tokenised(b: Binding, normalize: string -> string) {
    b.section.Some? && normalize(b.section.value) != ""
  }

  ghost predicate IsParsed(plans: seq<ParsedPlan>, url: string) {
    exists p :: p in plans && p.sourceUrl == url
  }

  /** `u` reports a tokenised binding of a parsed URL whose token no header of that sheet contains. */
  ghost predicate IsUnmatched(j: Join, u: UnmatchedSection) {
    var b := Binding(u.ref, Some(u.section));
    && IsParsed(j.plans, u.url) && b in BindingsFor(j.bindings, u.url)
    && Tokenised(b, j.normalize) && !HeaderHas(j, u.url, b)
  }

  ghost function UnmatchedBy(j: Join, url: string, b: Binding): seq<UnmatchedSection> {
    if Tokenised(b, j.normalize) && !HeaderHas(j, url, b) then [UnmatchedSection(url, b.section.value, b.ref)] else []
  }

  ghost function UnmatchedAmong(j: Join, url: string, bs: seq<Binding>): seq<UnmatchedSection> {
    if bs == [] then [] else UnmatchedAmong(j, url, bs[..|bs| - 1]) + UnmatchedBy(j, url, bs[|bs| - 1])
  }

  ghost function UnmatchedAt(j: Join, url: string): seq<UnmatchedSection> {
    if FromUrl(j.plans, url) == [] then [] else UnmatchedAmong(j, url, BindingsFor(j.bindings, url))
  }

  /** The unmatched sections of the sheets at `urls`, URL by URL. */
  ghost function Unmatched(j: Join, urls: seq<string>): seq<UnmatchedSection> {
    if urls == [] then [] else Unmatched(j, urls[..|urls| - 1]) + UnmatchedAt(j, urls[|urls| - 1])
  }

  lemma {:induction false} UnmatchedAmongMembers(j: Join, url: string, bs: seq<Binding>, u: UnmatchedSection)
    ensures u in UnmatchedAmong(j, url, bs) <==>
      var b := Binding(u.ref, Some(u.section));
      u.url == url && b in bs && Tokenised(b, j.normalize) && !HeaderHas(j, url, b)
  {
    if bs != [] {
      UnmatchedAmongMembers(j, url, bs[..|bs| - 1], u);
      assert bs == bs[..|bs| - 1] + [bs[|bs| - 1]];
    }
  }

  lemma ParsedHasPlans(plans: seq<ParsedPlan>, url: string)
    ensures IsParsed(plans, url) <==> FromUrl(plans, url) != []
  {
    var same := FromUrl(plans, url);
    if same != [] {
      FromUrlMembers(plans, url, same[0]);
    }
    if IsParsed(plans, url) {
      var p :| p in plans && p.sourceUrl == url;
      FromUrlMembers(plans, url, p);
    }
  }

  lemma UnmatchedAtMembers(j: Join, url: string, u: UnmatchedSection)
    ensures u in UnmatchedAt(j, url) <==> u.url == url && IsUnmatched(j, u)
  {
    ParsedHasPlans(j.plans, url);
    UnmatchedAmongMembers(j, url, BindingsFor(j.bindings, url), u);
  }

  lemma {:induction false} UnmatchedMembers(j: Join, urls: seq<string>, u: UnmatchedSection)
    ensures u in Unmatched(j, urls) <==> u.url in urls && IsUnmatched(j, u)
  {
    if urls != [] {
      var front, last := urls[..|urls| - 1], urls[|urls| - 1];
      assert urls == front + [last];
      UnmatchedMembers(j, front, u);
      UnmatchedAtMembers(j, last, u);
      assert u.url in urls <==> u.url in front || u.url == last;
      assert u in Unmatched(j, urls) <==> u in Unmatched(j, front) || u in UnmatchedAt(j, last);
    }
  }

  /** The report lists exactly the unmatched sections. */
  lemma ReportIsUnmatched(j: Join, places: seq<Place>, u: UnmatchedSection)
    requires Indexes(j.bindings, places)
    ensures u in Unmatched(j, j.bindings.keys) <==> IsUnmatched(j, u)
  {
    UnmatchedMembers(j, j.bindings.keys, u);
    UrlsAreBound(j.bindings, places, u.url);
  }

  method AnyHeader(j: Join, url: string, sheet: seq<ParsedPlan>, b: Binding) returns (found: bool)
    requires sheet == FromUrl(j.plans, url)
    ensures found <==> HeaderHas(j, url, b)
  {
    found := false;
    for i := 0 to |sheet|
      invariant found <==> exists p :: p in sheet[..i] && TokenIn(b, p.basinHint, j.normalize)
    {
      assert sheet[..i + 1] == sheet[..i] + [sheet[i]];
      found := found || TokenIn(b, sheet[i].basinHint, j.normalize);
    }
    assert sheet[..|sheet|] == sheet;
  }

  method UnmatchedOf(j: Join, url: string, sheet: seq<ParsedPlan>) returns (unmatched: seq<UnmatchedSection>)
    requires sheet == FromUrl(j.plans, url)
    ensures unmatched == UnmatchedAt(j, url)
  {
    unmatched := [];
    if sheet == [] {
      return;
    }
    var bs := BindingsFor(j.bindings, url);
    for i := 0 to |bs|
      invariant unmatched == UnmatchedAmong(j, url, bs[..i])
    {
      var b := bs[i];
      assert bs[..i + 1][..i] == bs[..i];
      var found := AnyHeader(j, url, sheet, b);
      if b.section.Some? && j.normalize(b.section.value) != "" && !found {
        unmatched := unmatched + [UnmatchedSection(url, b.section.value, b.ref)];
      }
    }
    assert bs[..|bs|] == bs;
  }

  lemma UnmatchedMore(j: Join, urls: seq<string>, i: nat)
    requires i < |urls|
    ensures Unmatched(j, urls[..i + 1]) == Unmatched(j, urls[..i]) + UnmatchedAt(j, urls[i])
  {
    assert urls[..i + 1][..i] == urls[..i];
  }

  method FindUnmatchedSections(j: Join) returns (unmatched: seq<UnmatchedSection>)
    ensures unmatched == Unmatched(j, j.bindings.keys)
  {
    var byUrl := GroupByUrl(j.plans);
    unmatched := [];
    var urls := j.bindings.keys;
    for i := 0 to |urls|
      invariant unmatched == Unmatched(j, urls[..i])
    {
      var here := UnmatchedOf(j, urls[i], byUrl.Get(urls[i]));
      UnmatchedMore(j, urls, i);
      unmatched := unmatched + here;
    }
    assert urls[..|urls|] == urls;
  }

  /** Plan `p` is bound by the token of `b`. */
  ghost predicate BoundByToken(j: Join, b: Binding, p: ParsedPlan) {
    TokenIn(b, p.basinHint, j.normalize) && BoundPlan(b.ref, p.plan) in j.Bound()
  }

  ghost predicate ReportedAmbiguous(j: Join, p: ParsedPlan) {
    UnboundPlan(p.sourceUrl, p.basinHint, AmbiguousTokens) in j.Unbound()
  }

  lemma TokenRoutes(j: Join, b: Binding, p: ParsedPlan)
    requires b in BindingsFor(j.bindings, p.sourceUrl) && TokenIn(b, p.basinHint, j.normalize)
    ensures j.Routed(p) == BindTo(b.ref) || j.Routed(p) == LeaveUnbound(AmbiguousTokens)
  {
    var bs := BindingsFor(j.bindings, p.sourceUrl);
    MatchingMembers(bs, p.basinHint, j.normalize, b);
    if |Matching(bs, p.basinHint, j.normalize)| == 1 {
      OnlyMatch(bs, p.basinHint, j.normalize);
    }
  }

  /** A plan whose header contains the token is bound by it, or reported ambiguous. */
  lemma TokenBindsOrIsAmbiguous(j: Join, b: Binding, p: ParsedPlan)
    requires p in j.plans && b in BindingsFor(j.bindings, p.sourceUrl) && TokenIn(b, p.basinHint, j.normalize)
    ensures BoundByToken(j, b, p) || ReportedAmbiguous(j, p)
  {
    TokenRoutes(j, b, p);
    EntriesAreRoutes(j);
    if j.Routed(p) == BindTo(b.ref) {
      assert j.IsBound(BoundPlan(b.ref, p.plan), p);
    } else {
      assert j.IsUnbound(UnboundPlan(p.sourceUrl, p.basinHint, AmbiguousTokens), p);
    }
  }

  /** No silent loss: a tokenised binding of a parsed URL is bound by its token, or listed
      unmatched, or its token occurs in some header and every such header is reported ambiguous. */
  lemma NothingLostSilently(j: Join, places: seq<Place>, url: string, b: Binding)
    requires Indexes(j.bindings, places)
    requires IsParsed(j.plans, url) && b in BindingsFor(j.bindings, url) && Tokenised(b, j.normalize)
    ensures (
      || (exists p :: p in FromUrl(j.plans, url) && BoundByToken(j, b, p))
      || UnmatchedSection(url, b.section.value, b.ref) in Unmatched(j, j.bindings.keys)
      || (&& HeaderHas(j, url, b)
          && forall p :: p in FromUrl(j.plans, url) && TokenIn(b, p.basinHint, j.normalize) ==>
               ReportedAmbiguous(j, p)))
  {
    ReportIsUnmatched(j, places, UnmatchedSection(url, b.section.value, b.ref));
    if HeaderHas(j, url, b) && !exists p :: p in FromUrl(j.plans, url) && BoundByToken(j, b, p) {
      forall p | p in FromUrl(j.plans, url) && TokenIn(b, p.basinHint, j.normalize) ensures ReportedAmbiguous(j, p) {
        FromUrlMembers(j.plans, url, p);
        TokenBindsOrIsAmbiguous(j, b, p);
      }
    }
  }

  // --- attachment ---------------------------------------------------------------------

  type PlanIndex = map<BasinRef, LanePlan>

  ghost predicate SameBasin(bound: seq<BoundPlan>, i: int, k: int) {
    0 <= i < k < |bound| && bound[i].ref == bound[k].ref
  }

  ghost predicate IndexOfBound(index: PlanIndex, bound: seq<BoundPlan>) {
    && |index| == |bound|
    && (forall ref :: ref in index ==> exists b :: b in bound && b.ref == ref)
    && (forall b :: b in bound ==> b.ref in index && index[b.ref] == b.plan)
  }

  lemma IndexOfOneMore(index: PlanIndex, bound: seq<BoundPlan>, b: BoundPlan)
    requires IndexOfBound(index, bound) && b.ref !in index
    ensures IndexOfBound(index[b.ref := b.plan], bound + [b])
  {
    var grown, all := index[b.ref := b.plan], bound + [b];
    assert b in all;
    forall ref | ref in grown ensures exists c :: c in all && c.ref == ref {
      if ref in index {
        var c :| c in bound && c.ref == ref;
        assert c in all;
      }
    }
  }

  ghost predicate NoneTwice(bound: seq<BoundPlan>) {
    forall i, k :: !SameBasin(bound, i, k)
  }

  lemma OneMoreBound(index: PlanIndex, bound: seq<BoundPlan>, b: BoundPlan)
    requires IndexOfBound(index, bound) && NoneTwice(bound) && b.ref !in index
    ensures NoneTwice(bound + [b])
  {
    var longer := bound + [b];
    forall i, k ensures !SameBasin(longer, i, k) {
      assert !SameBasin(bound, i, k);
      assert 0 <= i < |bound| ==> longer[i] in bound;
    }
  }

  lemma BoundBefore(index: PlanIndex, bound: seq<BoundPlan>, n: nat)
    requires n < |bound| && IndexOfBound(index, bound[..n]) && bound[n].ref in index
    ensures exists i :: SameBasin(bound, i, n)
  {
    var c :| c in bound[..n] && c.ref == bound[n].ref;
    var i :| 0 <= i < n && bound[..n][i] == c;
    assert SameBasin(bound, i, n);
  }

  /** Fails exactly when two plans are bound to one basin. */
  method IndexBoundPlans(bound: seq<BoundPlan>) returns (r: Result<PlanIndex, BindError>)
    ensures r.Ok? ==> IndexOfBound(r.value, bound) && NoneTwice(bound)
    ensures r.Err? ==> exists i, k :: SameBasin(bound, i, k) && r.error == TwoPlansOneBasin(bound[i].ref)
  {
    var index: PlanIndex := map[];
    for n := 0 to |bound|
      invariant IndexOfBound(index, bound[..n]) && NoneTwice(bound[..n])
    {
      var b := bound[n];
      if b.ref in index {
        BoundBefore(index, bound, n);
        return Err(TwoPlansOneBasin(b.ref));
      }
      IndexOfOneMore(index, bound[..n], b);
      OneMoreBound(index, bound[..n], b);
      assert bound[..n + 1] == bound[..n] + [b];
      index := index[b.ref := b.plan];
    }
    assert bound[..|bound|] == bound;
    return Ok(index);
  }

  /** What becomes of a basin: it carries the plan of its index entry, stamped with the run's time, or
      is as it was. */
  ghost predicate IsRefreshed(ref: BasinRef, before: Basin, after: Basin, index: PlanIndex, fetchedAt: int) {
    && after == before.(lanePlan := after.lanePlan)
    && after.lanePlan == if ref in index then Parsed(index[ref].(fetchedAt := Some(fetchedAt))) else before.lanePlan
  }

  datatype Staleness = Staleness(facility: string, basin: string, validFrom: int, validAsOf: int)

  /** The plan's start of validity predates that of the schedule it refines. */
  ghost function StaleIn(f: Facility, b: Basin, index: PlanIndex): seq<Staleness> {
    if (f.id, b.id) !in index then [] else
      match (index[(f.id, b.id)].validFrom, f.validAsOf)
      case (Some(from), Some(asOf)) => if from < asOf then [Staleness(f.name, b.name, from, asOf)] else []
      case _ => []
  }

  ghost function StaleOf(f: Facility, bs: seq<Basin>, index: PlanIndex): seq<Staleness> {
    if bs == [] then [] else StaleOf(f, bs[..|bs| - 1], index) + StaleIn(f, bs[|bs| - 1], index)
  }

  ghost function AllStale(fs: seq<Facility>, index: PlanIndex): seq<Staleness> {
    if fs == [] then [] else AllStale(fs[..|fs| - 1], index) + StaleOf(fs[|fs| - 1], fs[|fs| - 1].basins, index)
  }

  lemma StaleMore(f: Facility, k: nat, index: PlanIndex)
    requires k < |f.basins|
    ensures StaleOf(f, f.basins[..k + 1], index) == StaleOf(f, f.basins[..k], index) + StaleIn(f, f.basins[k], index)
  {
    assert f.basins[..k + 1][..k] == f.basins[..k];
  }

  lemma StaleIs(f: Facility, b: Basin, index: PlanIndex)
    ensures (f.id, b.id) !in index ==> StaleIn(f, b, index) == []
    ensures (f.id, b.id) in index ==>
      var from, asOf := index[(f.id, b.id)].validFrom, f.validAsOf;
      StaleIn(f, b, index) == if from.Some? && asOf.Some? && from.value < asOf.value
                              then [Staleness(f.name, b.name, from.value, asOf.value)] else []
  {
  }

  ghost predicate BasinsAttached(f: Facility, bs: seq<Basin>, index: PlanIndex, fetchedAt: int) {
    && |bs| <= |f.basins|
    && forall k :: 0 <= k < |bs| ==> IsRefreshed((f.id, f.basins[k].id), f.basins[k], bs[k], index, fetchedAt)
  }

  ghost predicate FacilityAttached(f: Facility, g: Facility, index: PlanIndex, fetchedAt: int) {
    g == f.(basins := g.basins) && |g.basins| == |f.basins| && BasinsAttached(f, g.basins, index, fetchedAt)
  }

  ghost predicate AllAttached(fs: seq<Facility>, gs: seq<Facility>, index: PlanIndex, fetchedAt: int) {
    |gs| == |fs| && forall i :: 0 <= i < |fs| ==> FacilityAttached(fs[i], gs[i], index, fetchedAt)
  }

  /** Nothing but the basins' lane plans differs. */
  ghost predicate OnlyPlansDiffer(fs: seq<Facility>, gs: seq<Facility>) {
    |gs| == |fs| && forall i :: 0 <= i < |fs| ==> OnlyPlansDifferIn(fs[i], gs[i])
  }

  ghost predicate OnlyPlansDifferIn(f: Facility, g: Facility) {
    && g == f.(basins := g.basins) && |g.basins| == |f.basins|
    && forall k :: 0 <= k < |f.basins| ==> g.basins[k] == f.basins[k].(lanePlan := g.basins[k].lanePlan)
  }

  lemma AttachingKeepsTheRest(fs: seq<Facility>, gs: seq<Facility>, index: PlanIndex, fetchedAt: int)
    requires AllAttached(fs, gs, index, fetchedAt)
    ensures OnlyPlansDiffer(fs, gs)
  {
    forall i | 0 <= i < |fs| ensures OnlyPlansDifferIn(fs[i], gs[i]) {
      assert FacilityAttached(fs[i], gs[i], index, fetchedAt);
    }
  }

  method AttachToFacility(f: Facility, index: PlanIndex, fetchedAt: int)
    returns (g: Facility, warnings: seq<Staleness>)
    ensures FacilityAttached(f, g, index, fetchedAt) && warnings == StaleOf(f, f.basins, index)
  {
    var basins, changed := [], false;
    warnings := [];
    for k := 0 to |f.basins|
      invariant |basins| == k && BasinsAttached(f, basins, index, fetchedAt)
      invariant !changed ==> basins == f.basins[..k]
      invariant warnings == StaleOf(f, f.basins[..k], index)
    {
      var b := f.basins[k];
      StaleMore(f, k, index);
      StaleIs(f, b, index);
      if (f.id, b.id) in index {
        var plan := index[(f.id, b.id)].(fetchedAt := Some(fetchedAt));
        changed := true;
        assert plan.validFrom == index[(f.id, b.id)].validFrom;
        if plan.validFrom.Some? && f.validAsOf.Some? && plan.validFrom.value < f.validAsOf.value {
          warnings := warnings + [Staleness(f.name, b.name, plan.validFrom.value, f.validAsOf.value)];
        }
        basins := basins + [b.(lanePlan := Parsed(plan))];
      } else {
        basins := basins + [b];
      }
    }
    assert f.basins[..|f.basins|] == f.basins;
    g := if changed then f.(basins := basins) else f;
  }

  /** The basin `before` of the facility has become `after`: with each plan bound to it, stamped with the
      run's time, and as it was when there is none. */
  ghost predicate Carries(before: Basin, after: Basin, ref: BasinRef, bound: seq<BoundPlan>, fetchedAt: int) {
    && after == before.(lanePlan := after.lanePlan)
    && (forall b :: b in bound && b.ref == ref ==> after.lanePlan == Parsed(b.plan.(fetchedAt := Some(fetchedAt))))
    && ((forall b :: b in bound ==> b.ref != ref) ==> after == before)
  }

  /** Every basin of every facility carries what was bound to it, and no facility changes otherwise. */
  ghost predicate AllCarry(fs: seq<Facility>, gs: seq<Facility>, bound: seq<BoundPlan>, fetchedAt: int) {
    && |gs| == |fs|
    && forall i :: 0 <= i < |fs| ==> FacilityCarries(fs[i], gs[i], bound, fetchedAt)
  }

  ghost predicate FacilityCarries(f: Facility, g: Facility, bound: seq<BoundPlan>, fetchedAt: int) {
    && g == f.(basins := g.basins) && |g.basins| == |f.basins|
    && forall k :: 0 <= k < |f.basins| ==>
         Carries(f.basins[k], g.basins[k], (f.id, f.basins[k].id), bound, fetchedAt)
  }

  lemma RefreshedCarries(
    ref: BasinRef, before: Basin, after: Basin, index: PlanIndex, bound: seq<BoundPlan>, fetchedAt: int)
    requires IndexOfBound(index, bound) && IsRefreshed(ref, before, after, index, fetchedAt)
    ensures Carries(before, after, ref, bound, fetchedAt)
  {
    if ref in index {
      var b :| b in bound && b.ref == ref;
    }
  }

  lemma AttachedCarry(
    fs: seq<Facility>, gs: seq<Facility>, index: PlanIndex, bound: seq<BoundPlan>, fetchedAt: int)
    requires IndexOfBound(index, bound) && AllAttached(fs, gs, index, fetchedAt)
    ensures AllCarry(fs, gs, bound, fetchedAt)
  {
    forall i | 0 <= i < |fs| ensures FacilityCarries(fs[i], gs[i], bound, fetchedAt) {
      assert FacilityAttached(fs[i], gs[i], index, fetchedAt);
      forall k | 0 <= k < |fs[i].basins|
        ensures Carries(fs[i].basins[k], gs[i].basins[k], (fs[i].id, fs[i].basins[k].id), bound, fetchedAt)
      {
        var ref := (fs[i].id, fs[i].basins[k].id);
        RefreshedCarries(ref, fs[i].basins[k], gs[i].basins[k], index, bound, fetchedAt);
      }
    }
  }

  datatype Attachment = Attachment(
    facilities: seq<Facility>, warnings: seq<Staleness>, unbound: seq<UnboundPlan>, unmatched: seq<UnmatchedSection>)

  /** What an attachment that succeeded did, by way of the join `j`. */
  ghost predicate Attaches(a: Attachment, fs: seq<Facility>, fetchedAt: int, j: Join, index: PlanIndex) {
    && Indexes(j.bindings, AllPlaces(fs)) && IndexOfBound(index, j.Bound())
    && AllAttached(fs, a.facilities, index, fetchedAt) && a.warnings == AllStale(fs, index)
    && a.unbound == j.Unbound() && a.unmatched == Unmatched(j, j.bindings.keys)
  }

  method AttachAll(fs: seq<Facility>, index: PlanIndex, fetchedAt: int)
    returns (merged: seq<Facility>, warnings: seq<Staleness>)
    ensures AllAttached(fs, merged, index, fetchedAt) && warnings == AllStale(fs, index)
  {
    merged, warnings := [], [];
    for i := 0 to |fs|
      invariant |merged| == i && forall k :: 0 <= k < i ==> FacilityAttached(fs[k], merged[k], index, fetchedAt)
      invariant warnings == AllStale(fs[..i], index)
    {
      var g, stale := AttachToFacility(fs[i], index, fetchedAt);
      assert fs[..i + 1][..i] == fs[..i];
      merged, warnings := merged + [g], warnings + stale;
    }
    assert fs[..|fs|] == fs;
  }

  /** The error names a basin to which the join of these facilities bound two plans. */
  ghost predicate BoundTwice(e: BindError, fs: seq<Facility>, j: Join) {
    && Indexes(j.bindings, AllPlaces(fs))
    && exists i, k :: SameBasin(j.Bound(), i, k) && e == TwoPlansOneBasin(j.Bound()[i].ref)
  }

  method AttachLanePlans(fs: seq<Facility>, plans: seq<ParsedPlan>, fetchedAt: int, normalize: string -> string)
    returns (r: Result<Attachment, BindError>, ghost j: Join, ghost index: PlanIndex)
    ensures j.plans == plans && j.normalize == normalize
    ensures r.Ok? ==> NoDuplicates(AllPlaces(fs)) && OnlyPlansDiffer(fs, r.value.facilities)
    ensures r.Ok? ==> Attaches(r.value, fs, fetchedAt, j, index)
    ensures r.Ok? ==> AllCarry(fs, r.value.facilities, j.Bound(), fetchedAt)
    ensures r.Err? ==> NamesOffenders(r.error, AllPlaces(fs)) || BoundTwice(r.error, fs, j)
  {
    j, index := Join(plans, Lists([], map[]), normalize), map[];
    var bindings := BuildUrlBindings(fs);
    if bindings.Err? {
      return Err(bindings.error), j, index;
    }
    var join := Join(plans, bindings.value, normalize);
    j := join;
    var bound, unbound := BindPlans(join);
    var unmatched := FindUnmatchedSections(join);
    var indexed := IndexBoundPlans(bound);
    if indexed.Err? {
      return Err(indexed.error), j, index;
    }
    index := indexed.value;
    var merged, warnings := AttachAll(fs, indexed.value, fetchedAt);
    AttachingKeepsTheRest(fs, merged, index, fetchedAt);
    AttachedCarry(fs, merged, index, bound, fetchedAt);
    r := Ok(Attachment(merged, warnings, unbound, unmatched));
  }

  // --- exactly the bound basins change --------------------------------------------------

  ghost predicate UniqueRefs(places: seq<Place>) {
    forall i, k :: 0 <= i < k < |places| ==> places[i].Ref() != places[k].Ref()
  }

  ghost function Refs(places: seq<Place>): set<BasinRef> {
    set p | p in places :: p.Ref()
  }

  ghost function RefIn(refs: set<BasinRef>): Place -> bool {
    (p: Place) => p.Ref() in refs
  }

  lemma RefsGrow(front: seq<Place>, last: Place)
    ensures Refs(front + [last]) == Refs(front) + {last.Ref()}
  {
    var all := front + [last];
    assert forall p :: p in all <==> p in front || p == last;
    assert last in all;
  }

  lemma IntersectGrows<T>(s: set<T>, t: set<T>, x: T)
    requires x !in t
    ensures |s * (t + {x})| == |s * t| + if x in s then 1 else 0
  {
    if x in s {
      assert s * (t + {x}) == s * t + {x};
    } else {
      assert s * (t + {x}) == s * t;
    }
  }

  lemma LastRefIsNew(front: seq<Place>, last: Place)
    requires UniqueRefs(front + [last])
    ensures UniqueRefs(front) && last.Ref() !in Refs(front)
  {
    var all := front + [last];
    forall k | 0 <= k < |front| ensures front[k].Ref() != last.Ref() {
      assert all[k] == front[k] && all[|front|] == last;
    }
    forall i, k | 0 <= i < k < |front| ensures front[i].Ref() != front[k].Ref() {
      assert all[i] == front[i] && all[k] == front[k];
    }
  }

  lemma {:induction false} PlacesWithRef(places: seq<Place>, refs: set<BasinRef>)
    requires UniqueRefs(places)
    ensures |Filter(RefIn(refs), places)| == |refs * Refs(places)|
  {
    if places == [] {
      assert refs * Refs(places) == {};
    } else {
      var front, last := places[..|places| - 1], places[|places| - 1];
      assert places == front + [last];
      LastRefIsNew(front, last);
      PlacesWithRef(front, refs);
      IntersectGrows(refs, Refs(front), last.Ref());
      RefsGrow(front, last);
    }
  }

  lemma BoundRefIsPlaced(j: Join, places: seq<Place>, b: BoundPlan)
    requires Indexes(j.bindings, places) && b in j.Bound()
    ensures b.ref in Refs(places)
  {
    EntriesAreRoutes(j);
    var p :| p in j.plans && j.IsBound(b, p);
    var place, binding := BoundOnlyWhereDeclared(j, places, b, p);
  }

  lemma IndexedRefsArePlaced(j: Join, places: seq<Place>, index: PlanIndex)
    requires Indexes(j.bindings, places) && IndexOfBound(index, j.Bound())
    ensures index.Keys <= Refs(places)
  {
    forall ref | ref in index ensures ref in Refs(places) {
      var b :| b in j.Bound() && b.ref == ref;
      BoundRefIsPlaced(j, places, b);
    }
  }

  lemma MeetOfSubset<T>(s: set<T>, t: set<T>)
    requires s <= t
    ensures s * t == s
  {
  }

  lemma {:induction false} PlacesOfAt(f: Facility, bs: seq<Basin>)
    ensures |PlacesOf(f, bs)| == |bs| && forall k :: 0 <= k < |bs| ==> PlacesOf(f, bs)[k] == Place(f.id, bs[k])
  {
    if bs != [] {
      PlacesOfAt(f, bs[..|bs| - 1]);
    }
  }

  /** The places are the facilities' basins. */
  lemma {:induction false} PlaceSource(gs: seq<Facility>, p: Place) returns (i: nat, k: nat)
    requires p in AllPlaces(gs)
    ensures i < |gs| && k < |gs[i].basins| && p == Place(gs[i].id, gs[i].basins[k])
  {
    var n := |gs| - 1;
    if p in AllPlaces(gs[..n]) {
      i, k := PlaceSource(gs[..n], p);
    } else {
      PlacesOfAt(gs[n], gs[n].basins);
      i := n;
      k :| 0 <= k < |gs[n].basins| && PlacesOf(gs[n], gs[n].basins)[k] == p;
    }
  }

  /** The two lists of places have the same references, place by place. */
  ghost predicate SameRefs(ps: seq<Place>, qs: seq<Place>) {
    |ps| == |qs| && forall i :: 0 <= i < |ps| ==> ps[i].Ref() == qs[i].Ref()
  }

  lemma SameRefsIn(f: Facility, g: Facility)
    requires OnlyPlansDifferIn(f, g)
    ensures SameRefs(PlacesOf(f, f.basins), PlacesOf(g, g.basins))
  {
    PlacesOfAt(f, f.basins);
    PlacesOfAt(g, g.basins);
  }

  lemma SameRefsConcat(ps: seq<Place>, qs: seq<Place>, ps': seq<Place>, qs': seq<Place>)
    requires SameRefs(ps, qs) && SameRefs(ps', qs')
    ensures SameRefs(ps + ps', qs + qs')
  {
  }

  lemma FrontDiffers(fs: seq<Facility>, gs: seq<Facility>)
    requires OnlyPlansDiffer(fs, gs) && fs != []
    ensures OnlyPlansDiffer(fs[..|fs| - 1], gs[..|gs| - 1]) && OnlyPlansDifferIn(fs[|fs| - 1], gs[|gs| - 1])
  {
  }

  lemma {:induction false} AttachedSameRefs(fs: seq<Facility>, gs: seq<Facility>)
    requires OnlyPlansDiffer(fs, gs)
    ensures SameRefs(AllPlaces(fs), AllPlaces(gs))
  {
    if fs != [] {
      var n := |fs| - 1;
      FrontDiffers(fs, gs);
      AttachedSameRefs(fs[..n], gs[..n]);
      SameRefsIn(fs[n], gs[n]);
      SameRefsConcat(AllPlaces(fs[..n]), AllPlaces(gs[..n]),
                     PlacesOf(fs[n], fs[n].basins), PlacesOf(gs[n], gs[n].basins));
    }
  }

  lemma SameRefsUnique(ps: seq<Place>, qs: seq<Place>)
    requires SameRefs(ps, qs) && UniqueRefs(ps)
    ensures UniqueRefs(qs) && Refs(qs) == Refs(ps)
  {
    forall ref ensures ref in Refs(ps) <==> ref in Refs(qs) {
      if p :| p in ps && p.Ref() == ref {
        var i :| 0 <= i < |ps| && ps[i] == p;
        assert qs[i] in qs && qs[i].Ref() == ref;
      }
      if q :| q in qs && q.Ref() == ref {
        var i :| 0 <= i < |qs| && qs[i] == q;
        assert ps[i] in ps && ps[i].Ref() == ref;
      }
    }
  }

  /** The basin carries a plan that was bound to it, stamped with the run's time. */
  ghost predicate CarriesBound(p: Place, bound: seq<BoundPlan>, fetchedAt: int) {
    exists b :: b in bound && b.ref == (p.facilityId, p.basin.id)
                && p.basin.lanePlan == Parsed(b.plan.(fetchedAt := Some(fetchedAt)))
  }

  ghost function CarriesOf(bound: seq<BoundPlan>, fetchedAt: int): Place -> bool {
    (p: Place) => CarriesBound(p, bound, fetchedAt)
  }

  lemma CarriersAreIndexed(
    fs: seq<Facility>, gs: seq<Facility>, index: PlanIndex, bound: seq<BoundPlan>, fetchedAt: int, p: Place)
    requires IndexOfBound(index, bound) && AllCarry(fs, gs, bound, fetchedAt) && p in AllPlaces(gs)
    ensures CarriesBound(p, bound, fetchedAt) <==> p.Ref() in index.Keys
  {
    var i, k := PlaceSource(gs, p);
    assert FacilityCarries(fs[i], gs[i], bound, fetchedAt);
    assert Carries(fs[i].basins[k], gs[i].basins[k], p.Ref(), bound, fetchedAt);
    if p.Ref() in index {
      var b :| b in bound && b.ref == p.Ref();
      assert CarriesBound(p, bound, fetchedAt);
    }
  }

  /** After an attachment that succeeded, exactly as many basins carry a plan that was bound to them as
      there are bound plans, provided basin references are unique. */
  lemma AttachesEveryBoundPlan(a: Attachment, fs: seq<Facility>, fetchedAt: int, j: Join, index: PlanIndex)
    requires Attaches(a, fs, fetchedAt, j, index) && UniqueRefs(AllPlaces(fs))
    ensures |Filter(CarriesOf(j.Bound(), fetchedAt), AllPlaces(a.facilities))| == |j.Bound()|
  {
    var places := AllPlaces(a.facilities);
    AttachingKeepsTheRest(fs, a.facilities, index, fetchedAt);
    AttachedSameRefs(fs, a.facilities);
    SameRefsUnique(AllPlaces(fs), places);
    IndexedRefsArePlaced(j, AllPlaces(fs), index);
    MeetOfSubset(index.Keys, Refs(places));
    PlacesWithRef(places, index.Keys);
    AttachedCarry(fs, a.facilities, index, j.Bound(), fetchedAt);
    forall p | p in places ensures CarriesOf(j.Bound(), fetchedAt)(p) == RefIn(index.Keys)(p) {
      CarriersAreIndexed(fs, a.facilities, index, j.Bound(), fetchedAt, p);
    }
    FilterSame(CarriesOf(j.Bound(), fetchedAt), RefIn(index.Keys), places);
  }
}
