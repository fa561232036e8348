/** The lake: one typed document per source, under a header that says where it came from. */
module Silver {
  import opened Prelude

  /** Seconds on the clock the builds read. */
  type Instant = int

  datatype Source = Roster | Prices | Schedules | LanePlans

  datatype Json = Obj(fields: map<string, Json>) | Arr(items: seq<Json>) | Atom(text: string)

  /** Keys that say when a payload was produced rather than what it says. */
  const RUN_STAMP_KEYS := {"fetched_at", "generated_at", "valid_as_of"}

  function WithoutRunStamps(j: Json): Json {
    match j
    case Obj(fields) => Obj(map k | k in fields && k !in RUN_STAMP_KEYS :: WithoutRunStamps(fields[k]))
    case Arr(items) => Arr(seq(|items|, i requires 0 <= i < |items| => WithoutRunStamps(items[i])))
    case Atom(_) => j
  }

  /** The content hash, taken as injective: it is told apart by what it is the hash of. */
  datatype Digest = Digest(of: Json)

  function ContentSha(payload: Json): Digest {
    Digest(WithoutRunStamps(payload))
  }

  /** Two documents say the same up to run stamps, at any depth. */
  ghost predicate IsStamp(k: string) {
    k == "valid_as_of" || k == "generated_at" || k == "fetched_at"
  }

  lemma StampsAreKeys(k: string)
    ensures k in RUN_STAMP_KEYS <==> IsStamp(k)
  {
  }

  ghost predicate SameFacts(a: Json, b: Json) {
    match (a, b)
    case (Obj(f), Obj(g)) =>
      && (forall k :: !IsStamp(k) ==> (k in f <==> k in g))
      && (forall k :: k in f && k in g && !IsStamp(k) ==> SameFacts(f[k], g[k]))
    case (Arr(x), Arr(y)) => |x| == |y| && forall i :: 0 <= i < |x| ==> SameFacts(x[i], y[i])
    case (Atom(s), Atom(t)) => s == t
    case _ => false
  }

  /** A changed hash means changed facts, and only that. */
  lemma {:induction false} ShaIsFacts(a: Json, b: Json)
    ensures ContentSha(a) == ContentSha(b) <==> SameFacts(a, b)
  {
    match (a, b)
    case (Obj(f), Obj(g)) =>
      forall k | k in f && k in g ensures WithoutRunStamps(f[k]) == WithoutRunStamps(g[k]) <==> SameFacts(f[k], g[k]) {
        ShaIsFacts(f[k], g[k]);
      }
      var f', g' := WithoutRunStamps(a).fields, WithoutRunStamps(b).fields;
      forall k ensures (k in f' <==> k in f && !IsStamp(k)) && (k in g' <==> k in g && !IsStamp(k)) {
        StampsAreKeys(k);
      }
    case (Arr(x), Arr(y)) =>
      forall i | 0 <= i < |x| && i < |y|
        ensures WithoutRunStamps(x[i]) == WithoutRunStamps(y[i]) <==> SameFacts(x[i], y[i])
      {
        ShaIsFacts(x[i], y[i]);
      }
      var x', y' := WithoutRunStamps(a).items, WithoutRunStamps(b).items;
      assert |x'| == |x| && |y'| == |y|;
      assert forall i :: 0 <= i < |x| ==> x'[i] == WithoutRunStamps(x[i]);
      assert forall i :: 0 <= i < |y| ==> y'[i] == WithoutRunStamps(y[i]);
    case _ =>
  }

  datatype SilverStatus = Fresh | Stale

  /** The envelope schema this build writes; a document under another one counts as absent. */
  const SILVER_SCHEMA := 2

  datatype SilverHeader = SilverHeader(
    source: Source, fetchedAt: Instant, status: SilverStatus, sha: Digest, schema: int)

  datatype SilverDoc = SilverDoc(header: SilverHeader, payload: Json)

  type Docs = map<Source, SilverDoc>

  ghost function ReadDoc(docs: Docs, source: Source): Option<SilverDoc> {
    if source in docs && docs[source].header.schema == 2 then Some(docs[source]) else None
  }

  ghost function FreshDoc(source: Source, payload: Json, fetchedAt: Instant): SilverDoc {
    SilverDoc(SilverHeader(source, fetchedAt, Fresh, ContentSha(payload), 2), payload)
  }

  ghost function StaleDoc(doc: SilverDoc): SilverDoc {
    doc.(header := doc.header.(status := Stale))
  }

  /** A readable document names its own source and carries its own hash. */
  ghost predicate Sound(docs: Docs) {
    forall s :: s in docs && docs[s].header.schema == 2
      ==> docs[s].header.source == s && docs[s].header.sha == ContentSha(docs[s].payload)
  }

  class Lake {
    var docs: Docs

    constructor (docs: Docs)
      ensures this.docs == docs
    {
      this.docs := docs;
    }

    ghost predicate Valid()
      reads this
    {
      Sound(docs)
    }

    method Read(source: Source) returns (doc: Option<SilverDoc>)
      ensures doc == ReadDoc(docs, source)
    {
      doc := None;
      if source in docs && docs[source].header.schema == SILVER_SCHEMA {
        doc := Some(docs[source]);
      }
    }

    method Write(source: Source, payload: Json, fetchedAt: Instant) returns (doc: SilverDoc)
      requires Valid()
      modifies this
      ensures Valid()
      ensures doc == FreshDoc(source, payload, fetchedAt) && docs == old(docs)[source := doc]
      ensures ReadDoc(docs, source) == Some(doc)
    {
      doc := SilverDoc(SilverHeader(source, fetchedAt, Fresh, ContentSha(payload), SILVER_SCHEMA), payload);
      docs := docs[source := doc];
    }

    /** The source raises when there is nothing to mark. */
    method MarkStale(source: Source) returns (doc: SilverDoc)
      requires Valid() && ReadDoc(docs, source).Some?
      modifies this
      ensures Valid()
      ensures doc == StaleDoc(old(ReadDoc(docs, source).value)) && docs == old(docs)[source := doc]
      ensures ReadDoc(docs, source) == Some(doc)
    {
      var previous := docs[source];
      doc := SilverDoc(previous.header.(status := Stale), previous.payload);
      docs := docs[source := doc];
    }
  }
}
