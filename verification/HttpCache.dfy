/** The on-disk HTTP cache: one readable entry per (tier, request), and the transport over it. */
module HttpCache {
  import opened Prelude
  import opened Encoding

  // --- requests and responses -------------------------------------------------------

  /** A request extension as a caller may have stamped it. */
  datatype Extension = Absent | Text(text: string) | Number(n: int) | Flag(b: bool)

  datatype Request = Request(method_: string, url: string, host: string, tier: Extension, ttl: Extension)

  type Headers = map<string, string>

  datatype Response = Response(status: int, headers: Headers, body: Bytes)

  const DEFAULT_TIER := "default"
  const DEFAULT_TTL := 3600

  function TierOf(r: Request): string {
    if r.tier.Text? && r.tier.text != "" then r.tier.text else DEFAULT_TIER
  }

  /** Zero, negative and boolean stamps are no usable TTL. */
  function TtlOf(r: Request): (ttl: int)
    ensures ttl > 0
  {
    if r.ttl.Number? && r.ttl.n > 0 then r.ttl.n else DEFAULT_TTL
  }

  /** The entry's place. The key hash is taken as injective, so it is the method and URL themselves. */
  datatype Path = Path(tier: string, host: string, method_: string, url: string)

  function PathOf(r: Request): Path {
    Path(TierOf(r), if r.host == "" then "unknown-host" else r.host, r.method_, r.url)
  }

  /** The tier a request was stamped with, if it was with a text that is not empty. */
  ghost predicate TierIs(r: Request, tier: string) {
    match r.tier
    case Text(text) => if |text| > 0 then tier == text else tier == "default"
    case _ => tier == "default"
  }

  /** The lifetime a request was stamped with, if it was with a positive number, or an hour. */
  ghost predicate TtlIs(r: Request, ttl: int) {
    match r.ttl
    case Number(n) => if n <= 0 then ttl == 3600 else ttl == n
    case _ => ttl == 3600
  }

  /** The two requests are for one resource: method, URL, host and stamped tier are the same. */
  ghost predicate SameKey(a: Request, b: Request) {
    && a.method_ == b.method_ && a.url == b.url && HostOr(a.host) == HostOr(b.host)
    && exists tier :: TierIs(a, tier) && TierIs(b, tier)
  }

  ghost function HostOr(host: string): string {
    if |host| > 0 then host else "unknown-host"
  }

  lemma StampsAre(r: Request)
    ensures forall tier :: TierIs(r, tier) <==> tier == TierOf(r)
    ensures forall ttl :: TtlIs(r, ttl) <==> ttl == TtlOf(r)
  {
  }

  /** Requests share an entry exactly when they are for one resource. */
  lemma PathsAreKeys(a: Request, b: Request)
    ensures PathOf(a) == PathOf(b) <==> SameKey(a, b)
  {
    StampsAre(a);
    StampsAre(b);
    assert TierOf(a) == TierOf(b) ==> TierIs(a, TierOf(a)) && TierIs(b, TierOf(a));
  }

  /** An entry filed under this tier, host, method and URL is this request's. */
  ghost predicate FiledAt(r: Request, p: Path) {
    TierIs(r, p.tier) && p.host == HostOr(r.host) && p.method_ == r.method_ && p.url == r.url
  }

  lemma PathOfFiles(r: Request, p: Path)
    ensures FiledAt(r, p) <==> p == PathOf(r)
  {
    StampsAre(r);
  }

  // --- what is stored ---------------------------------------------------------------

  function LowerChar(c: char): char {
    if 'A' <= c <= 'Z' then (c as int + 32) as char else c
  }

  function Lower(s: string): (r: string)
    ensures |r| == |s|
  {
    seq(|s|, i requires 0 <= i < |s| => LowerChar(s[i]))
  }

  const STRIPPED_HEADERS := {"content-encoding", "content-length", "transfer-encoding"}

  /** Headers minus those that describe wire framing. */
  function StorableHeaders(h: Headers): Headers {
    map k | k in h && Lower(k) !in STRIPPED_HEADERS :: h[k]
  }

  function MediaType(contentType: string): string {
    Lower(Strip(UpTo(contentType, ';')))
  }

  function UpTo(s: string, c: char): string {
    if s == "" || s[0] == c then "" else [s[0]] + UpTo(s[1..], c)
  }

  const WHITE_SPACE := {' ', '\t', '\r', '\n'}

  function Strip(s: string): string
    decreases |s|
  {
    if s != "" && s[0] in WHITE_SPACE then Strip(s[1..])
    else if s != "" && s[|s| - 1] in WHITE_SPACE then Strip(s[..|s| - 1])
    else s
  }

  predicate EndsWith(s: string, suffix: string) {
    |suffix| <= |s| && s[|s| - |suffix|..] == suffix
  }

  const TEXT_MEDIA_TYPES := {
    "application/json", "application/xml", "application/javascript", "application/x-javascript",
    "application/x-www-form-urlencoded", "application/yaml", "application/x-yaml", "application/graphql" }

  /** Text by default: an unknown content type is stored readable. */
  predicate IsTextMediaType(mediaType: string) {
    || mediaType == "" || "text/" <= mediaType
    || EndsWith(mediaType, "+json") || EndsWith(mediaType, "+xml")
    || mediaType in TEXT_MEDIA_TYPES
  }

  lemma EndsWithIsEndsIn(s: string, suffix: string)
    ensures EndsWith(s, suffix) <==> EndsIn(s, suffix)
  {
    if EndsWith(s, suffix) {
      assert s == s[..|s| - |suffix|] + suffix;
    }
    if p: string :| s == p + suffix {
      assert s[|p|..] == suffix;
    }
  }

  /** Eight types are text by name. */
  ghost predicate NamedText(m: string) {
    || m == "application/json" || m == "application/xml" || m == "application/yaml" || m == "application/x-yaml"
    || m == "application/javascript" || m == "application/x-javascript" || m == "application/graphql"
    || m == "application/x-www-form-urlencoded"
  }

  lemma NamedTextIsListed(m: string)
    ensures m in TEXT_MEDIA_TYPES <==> NamedText(m)
  {
  }

  /** Stored readable: no type, any `text/` type, any type built on JSON or XML, and eight by name. */
  lemma TextMediaTypes(m: string)
    ensures IsTextMediaType(m)
      <==> |m| == 0 || (exists sub: string :: m == "text/" + sub)
           || EndsIn(m, "+json") || EndsIn(m, "+xml") || NamedText(m)
  {
    EndsWithIsEndsIn(m, "+json");
    EndsWithIsEndsIn(m, "+xml");
    NamedTextIsListed(m);
    if "text/" <= m {
      assert m == "text/" + m[5..];
    }
  }

  ghost predicate EndsIn(s: string, suffix: string) {
    exists p: string :: s == p + suffix
  }

  datatype StoredBody = StoredBody(body: Option<seq<Scalar>>, base64: Option<string>)

  ghost predicate UpperOf(u: char, l: char) {
    'A' <= u <= 'Z' && u as int + 32 == l as int
  }

  /** Same letters whatever the case, where `lower` is in lower case. */
  ghost predicate FoldsTo(s: string, lower: string) {
    && |s| == |lower|
    && forall i :: 0 <= i < |s| ==> UpperOf(s[i], lower[i]) || (s[i] == lower[i] && !('A' <= s[i] <= 'Z'))
  }

  lemma LowerFolds(s: string, lower: string)
    ensures lower == Lower(s) <==> FoldsTo(s, lower)
  {
  }

  ghost predicate FramesBody(header: string) {
    || FoldsTo(header, "content-encoding") || FoldsTo(header, "content-length")
    || FoldsTo(header, "transfer-encoding")
  }

  /** The headers `kept` are those of `h` that do not describe wire framing, as they were. */
  ghost predicate KeepsHeaders(kept: Headers, h: Headers) {
    forall k :: (k in kept <==> k in h && !FramesBody(k)) && (k in kept ==> kept[k] == h[k])
  }

  lemma StorableAreKept(h: Headers)
    ensures KeepsHeaders(StorableHeaders(h), h)
  {
    forall k ensures k in StorableHeaders(h) <==> k in h && !FramesBody(k) {
      LowerFolds(k, "content-encoding");
      LowerFolds(k, "content-length");
      LowerFolds(k, "transfer-encoding");
    }
  }

  ghost predicate IsSpace(c: char) {
    c == ' ' || c == '\t' || c == '\r' || c == '\n'
  }

  ghost predicate Spaces(s: string) {
    forall i :: 0 <= i < |s| ==> IsSpace(s[i])
  }

  /** The first `cut` characters of `s` are those before its first `c`. */
  ghost predicate CutsAt(s: string, c: char, cut: int) {
    && 0 <= cut <= |s| && (forall i :: 0 <= i < cut ==> s[i] != c)
    && (cut < |s| ==> s[cut] == c)
  }

  lemma {:induction false} UpToCuts(s: string, c: char)
    ensures UpTo(s, c) <= s && CutsAt(s, c, |UpTo(s, c)|)
  {
    if s != "" && s[0] != c {
      UpToCuts(s[1..], c);
      assert s == [s[0]] + s[1..];
    }
  }

  /** `s[lo..hi]` is `s` without the white space around it. */
  ghost predicate Trims(s: string, lo: int, hi: int) {
    && 0 <= lo <= hi <= |s| && Spaces(s[..lo]) && Spaces(s[hi..])
    && (lo < hi ==> !IsSpace(s[lo]) && !IsSpace(s[hi - 1]))
  }

  lemma SpaceIsListed(c: char)
    ensures c in WHITE_SPACE <==> IsSpace(c)
  {
  }

  lemma TrimsAfter(c: char, s: string, lo: nat, hi: nat)
    requires IsSpace(c) && Trims(s, lo, hi)
    ensures Trims([c] + s, lo + 1, hi + 1) && ([c] + s)[lo + 1..hi + 1] == s[lo..hi]
  {
    assert ([c] + s)[..lo + 1] == [c] + s[..lo] && ([c] + s)[hi + 1..] == s[hi..];
  }

  lemma TrimsBefore(s: string, c: char, lo: nat, hi: nat)
    requires IsSpace(c) && Trims(s, lo, hi)
    ensures Trims(s + [c], lo, hi) && (s + [c])[lo..hi] == s[lo..hi]
  {
    assert (s + [c])[..lo] == s[..lo] && (s + [c])[hi..] == s[hi..] + [c];
  }

  lemma TrimmedAlready(s: string)
    requires s == "" || (!IsSpace(s[0]) && !IsSpace(s[|s| - 1]))
    ensures Trims(s, 0, |s|) && s[0..|s|] == s
  {
  }

  lemma {:induction false} StripTrims(s: string) returns (lo: nat, hi: nat)
    ensures Trims(s, lo, hi) && Strip(s) == s[lo..hi]
    decreases |s|
  {
    if s == "" {
      lo, hi := 0, 0;
      return;
    }
    var first, last, rest, front := s[0], s[|s| - 1], s[1..], s[..|s| - 1];
    SpaceIsListed(first);
    SpaceIsListed(last);
    if IsSpace(first) {
      lo, hi := StripTrims(rest);
      TrimsAfter(first, rest, lo, hi);
      assert s == [first] + rest;
      lo, hi := lo + 1, hi + 1;
    } else if IsSpace(last) {
      lo, hi := StripTrims(front);
      TrimsBefore(front, last, lo, hi);
      assert s == front + [last];
    } else {
      lo, hi := 0, |s|;
      TrimmedAlready(s);
    }
  }

  /** The media type of a content type: what stands before the first semicolon, without the white space
      around it, in lower case. */
  lemma MediaTypeReads(contentType: string) returns (cut: nat, lo: nat, hi: nat)
    ensures CutsAt(contentType, ';', cut) && Trims(contentType[..cut], lo, hi)
    ensures FoldsTo(contentType[..cut][lo..hi], MediaType(contentType))
  {
    UpToCuts(contentType, ';');
    cut := |UpTo(contentType, ';')|;
    assert contentType[..cut] == UpTo(contentType, ';');
    lo, hi := StripTrims(contentType[..cut]);
    LowerFolds(contentType[..cut][lo..hi], MediaType(contentType));
  }

  function EncodeBody(body: Bytes, mediaType: string): StoredBody {
    if IsTextMediaType(mediaType) && DecodeUtf8(body).Some? then StoredBody(DecodeUtf8(body), None)
    else StoredBody(None, Some(EncodeBase64(body)))
  }

  /** None where the source raises: neither form present, or undecodable Base64. */
  function DecodeBody(stored: StoredBody): Option<Bytes> {
    if stored.base64.Some? then DecodeBase64(stored.base64.value)
    else if stored.body.Some? then Some(EncodeUtf8(stored.body.value))
    else None
  }

  /** Exactly one form is written - readable for a text type whose bytes are text, Base64 otherwise -
      and either way the body comes back as it was. */
  lemma BodyRoundTrip(body: Bytes, mediaType: string)
    ensures DecodeBody(EncodeBody(body, mediaType)) == Some(body)
    ensures EncodeBody(body, mediaType).body.Some? <==> IsTextMediaType(mediaType) && DecodeUtf8(body).Some?
    ensures EncodeBody(body, mediaType).body.Some? != EncodeBody(body, mediaType).base64.Some?
  {
    if DecodeUtf8(body).Some? {
      DecodedUtf8Encodes(body);
    }
    Base64RoundTrip(body);
  }

  /** `doc` records this response, fetched at `now` to live for `ttl`. */
  ghost predicate Records(doc: Document, response: Response, ttl: int, now: int) {
    && doc.fetchedAt == now && doc.ttl == ttl && doc.expiresAt == now + ttl
    && doc.status == response.status && KeepsHeaders(doc.headers, response.headers)
    && DecodeBody(doc.body) == Some(response.body)
    && doc.contentType == if "content-type" in response.headers then response.headers["content-type"] else ""
  }

  lemma SerializeRecords(response: Response, ttl: int, now: int)
    ensures Records(Serialize(response, ttl, now), response, ttl, now)
  {
    BodyRoundTrip(response.body, MediaType(ContentType(response)));
    StorableAreKept(response.headers);
  }

  /** What a caller is given for a response: the same without the headers of wire framing. */
  ghost predicate Replays(replay: Response, response: Response) {
    replay.status == response.status && replay.body == response.body && KeepsHeaders(replay.headers, response.headers)
  }

  lemma ReplayReplays(response: Response)
    ensures Replays(Replay(response), response)
  {
    StorableAreKept(response.headers);
  }

  datatype Document = Document(
    fetchedAt: int, ttl: int, expiresAt: int, status: int, contentType: string, headers: Headers, body: StoredBody)

  function ContentType(response: Response): string {
    if "content-type" in response.headers then response.headers["content-type"] else ""
  }

  function Serialize(response: Response, ttl: int, now: int): Document {
    Document(now, ttl, now + ttl, response.status, ContentType(response), StorableHeaders(response.headers),
             EncodeBody(response.body, MediaType(ContentType(response))))
  }

  function Rebuild(doc: Document): Option<Response> {
    var body := DecodeBody(doc.body);
    if body.None? then None else Some(Response(doc.status, StorableHeaders(doc.headers), body.value))
  }

  /** What a caller gets for a response fetched just now. */
  function Replay(response: Response): Response {
    Response(response.status, StorableHeaders(response.headers), response.body)
  }

  /** Warm equals cold: an entry rebuilds to exactly what the fetching call returned. */
  lemma WarmEqualsCold(response: Response, ttl: int, now: int)
    ensures Rebuild(Serialize(response, ttl, now)) == Some(Replay(response))
  {
    BodyRoundTrip(response.body, MediaType(ContentType(response)));
    assert StorableHeaders(StorableHeaders(response.headers)) == StorableHeaders(response.headers);
  }

  // --- the store and the transport --------------------------------------------------

  datatype Entry = Readable(doc: Document) | Damaged

  type Entries = map<Path, Entry>

  /** The cached response iff a readable entry is there and has not expired. */
  ghost function Fresh(entries: Entries, r: Request, now: int): Option<Response> {
    var path := PathOf(r);
    if path !in entries || entries[path].Damaged? then None
    else if now >= entries[path].doc.expiresAt then None
    else Rebuild(entries[path].doc)
  }

  datatype Mode = Use | Refresh | Off

  /** One call of the transport. `inner` is what the wrapped transport would do: a response, or
      none when it raises. A disk fault makes the write a no-op. */
  datatype Call = Call(
    request: Request, mode: Mode, readAt: int, inner: Option<Response>, writeAt: int, diskFault: bool)

  datatype Outcome = Outcome(entries: Entries, response: Option<Response>, fetches: nat)

  ghost function Handle(entries: Entries, c: Call): Outcome {
    if c.mode == Off then Outcome(entries, c.inner, 1)
    else if c.mode == Use && Fresh(entries, c.request, c.readAt).Some? then
      Outcome(entries, Fresh(entries, c.request, c.readAt), 0)
    else if c.inner.None? then Outcome(entries, None, 1)
    else
      var doc := Serialize(c.inner.value, TtlOf(c.request), c.writeAt);
      var kept := if c.diskFault then entries else entries[PathOf(c.request) := Readable(doc)];
      Outcome(kept, Some(Replay(c.inner.value)), 1)
  }

  class CacheStore {
    var entries: Entries

    constructor ()
      ensures entries == map[]
    {
      entries := map[];
    }

    method Lookup(r: Request, now: int) returns (hit: Option<Response>)
      ensures hit == Fresh(entries, r, now)
    {
      var path := PathOf(r);
      if path in entries && entries[path].Readable? && now < entries[path].doc.expiresAt {
        hit := Rebuild(entries[path].doc);
      } else {
        hit := None;
      }
    }

    method Put(r: Request, response: Response, tier: string, ttl: int, now: int, diskFault: bool)
      modifies this
      ensures entries == if diskFault then old(entries)
                         else old(entries)[PathOf(r).(tier := tier) := Readable(Serialize(response, ttl, now))]
    {
      if !diskFault {
        entries := entries[PathOf(r).(tier := tier) := Readable(Serialize(response, ttl, now))];
      }
    }
  }

  class DiskCacheTransport {
    const store: CacheStore
    const mode: Mode

    constructor (store: CacheStore, mode: Mode)
      ensures this.store == store && this.mode == mode
    {
      this.store, this.mode := store, mode;
    }

    method HandleRequest(r: Request, readAt: int, inner: Option<Response>, writeAt: int, diskFault: bool)
      returns (response: Option<Response>, fetches: nat)
      modifies store
      ensures Outcome(store.entries, response, fetches)
           == Handle(old(store.entries), Call(r, mode, readAt, inner, writeAt, diskFault))
    {
      match mode {
        case Off => return inner, 1;
        case Use =>
          var hit := store.Lookup(r, readAt);
          if hit.Some? { return hit, 0; }
        case Refresh =>
      }
      response := FetchAndStore(r, inner, writeAt, diskFault);
      fetches := 1;
    }

    method FetchAndStore(r: Request, inner: Option<Response>, writeAt: int, diskFault: bool)
      returns (response: Option<Response>)
      modifies store
      ensures response == if inner.Some? then Some(Replay(inner.value)) else None
      ensures store.entries == if inner.None? || diskFault then old(store.entries)
                               else old(store.entries)[PathOf(r) := Readable(Serialize(inner.value, TtlOf(r), writeAt))]
    {
      if inner.None? { return None; }
      store.Put(r, inner.value, TierOf(r), TtlOf(r), writeAt, diskFault);
      return Some(Replay(inner.value));
    }
  }

  // --- over every run ---------------------------------------------------------------

  /** What can happen to the cache: a call, an entry deleted, an entry made unreadable. */
  datatype Event = Called(call: Call) | Deleted(path: Path) | Corrupted(path: Path)

  ghost function Step(entries: Entries, e: Event): Entries {
    match e
    case Called(c) => Handle(entries, c).entries
    case Deleted(p) => entries - {p}
    case Corrupted(p) => if p in entries then entries[p := Damaged] else entries
  }

  ghost function After(events: seq<Event>): Entries {
    if events == [] then map[] else Step(After(events[..|events| - 1]), events[|events| - 1])
  }

  /** Event `i` fetched from the network, for a request filed at this path, what `doc` records. */
  ghost predicate FetchedBy(events: seq<Event>, i: int, path: Path, doc: Document) {
    && 0 <= i < |events| && events[i].Called?
    && var c := events[i].call;
       c.inner.Some? && FiledAt(c.request, path) && Handle(After(events[..i]), c).fetches == 1
       && TtlIs(c.request, doc.ttl) && Records(doc, c.inner.value, doc.ttl, c.writeAt)
  }

  lemma CallFetches(events: seq<Event>, i: int)
    requires 0 <= i < |events| && events[i].Called? && events[i].call.inner.Some?
    requires Handle(After(events[..i]), events[i].call).fetches == 1
    ensures var c := events[i].call;
      FetchedBy(events, i, PathOf(c.request), Serialize(c.inner.value, TtlOf(c.request), c.writeAt))
  {
    var c := events[i].call;
    StampsAre(c.request);
    PathOfFiles(c.request, PathOf(c.request));
    SerializeRecords(c.inner.value, TtlOf(c.request), c.writeAt);
  }

  /** A record read back is the response that was fetched, without the headers of wire framing. */
  lemma RecordReplays(doc: Document, response: Response, ttl: int, now: int)
    requires Records(doc, response, ttl, now)
    ensures Rebuild(doc).Some? && Replays(Rebuild(doc).value, response)
  {
    StorableAreKept(doc.headers);
  }

  /** Over every run, with entries deleted and corrupted at will, each readable entry is the record of
      an actual fetch for its own tier and key. */
  lemma {:induction false} EntriesAreFetches(events: seq<Event>, path: Path)
    requires path in After(events) && After(events)[path].Readable?
    ensures exists i :: FetchedBy(events, i, path, After(events)[path].doc)
  {
    var k := |events| - 1;
    var before, e := After(events[..k]), events[k];
    var doc := After(events)[path].doc;
    if path in before && before[path] == Readable(doc) {
      EntriesAreFetches(events[..k], path);
      var i :| FetchedBy(events[..k], i, path, doc);
      assert events[..k][..i] == events[..i];
      assert FetchedBy(events, i, path, doc);
    } else {
      CallFetches(events, k);
    }
  }

  /** Event `i` fetched, for the same method, URL, host and tier, the response that `replay` is, and it
      has not expired at `t`. */
  ghost predicate EarlierFetch(events: seq<Event>, i: int, r: Request, replay: Response, t: int) {
    && 0 <= i < |events| && events[i].Called? && events[i].call.inner.Some?
    && var c := events[i].call;
       && Handle(After(events[..i]), c).fetches == 1
       && c.request.method_ == r.method_ && c.request.url == r.url && SameKey(c.request, r)
       && Replays(replay, c.inner.value)
       && exists ttl :: TtlIs(c.request, ttl) && t < c.writeAt + ttl
  }

  /** Cache soundness: after any run, a call made in USE mode answers with this call's single inner
      fetch, or - fetching nothing - with the exact status, storable headers and body of an earlier
      fetch of the same method, URL and tier that has not expired. */
  lemma ResponsesAreSound(events: seq<Event>, c: Call)
    requires c.mode == Use
    ensures var o := Handle(After(events), c);
            || (o.fetches == 1 && o.response.Some? == c.inner.Some?
                && (c.inner.Some? ==> Replays(o.response.value, c.inner.value)))
            || (o.fetches == 0 && o.entries == After(events) && o.response.Some?
                && exists i :: EarlierFetch(events, i, c.request, o.response.value, c.readAt))
  {
    var entries, path := After(events), PathOf(c.request);
    if Fresh(entries, c.request, c.readAt).Some? {
      var doc := entries[path].doc;
      EntriesAreFetches(events, path);
      var i :| FetchedBy(events, i, path, doc);
      var f := events[i].call;
      PathOfFiles(f.request, path);
      PathsAreKeys(f.request, c.request);
      RecordReplays(doc, f.inner.value, doc.ttl, f.writeAt);
      assert EarlierFetch(events, i, c.request, Rebuild(doc).value, c.readAt);
    } else if c.inner.Some? {
      ReplayReplays(c.inner.value);
    }
  }

  /** A successful fetch that reached the disk answers requests of the same key, without fetching, until
      it expires and no longer. */
  lemma WarmUntilExpiry(entries: Entries, c: Call, again: Call, ttl: int)
    requires c.mode != Off && Handle(entries, c).fetches == 1 && c.inner.Some? && !c.diskFault
    requires again.mode == Use && SameKey(again.request, c.request) && TtlIs(c.request, ttl)
    ensures var o := Handle(Handle(entries, c).entries, again);
            if again.readAt < c.writeAt + ttl
            then o.fetches == 0 && o.response == Handle(entries, c).response
            else o.fetches == 1
  {
    StampsAre(c.request);
    PathsAreKeys(again.request, c.request);
    WarmEqualsCold(c.inner.value, TtlOf(c.request), c.writeAt);
  }

  /** A call never answers, nor keeps from being answered, a request that differs from its own in
      method, URL or tier: what the cache holds for that request is as before. */
  lemma OtherKeysUntouched(entries: Entries, c: Call, other: Request, t: int)
    requires other.method_ != c.request.method_ || other.url != c.request.url
             || forall tier :: !(TierIs(other, tier) && TierIs(c.request, tier))
    ensures Fresh(Handle(entries, c).entries, other, t) == Fresh(entries, other, t)
  {
    PathsAreKeys(other, c.request);
  }
}
