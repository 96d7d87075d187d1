/**
 * The POST path of the worker's `fetch` handler (src/worker.ts:44-92): the
 * storage key `compositeId`, the defaults for the client address and the
 * optional payload fields, and the upsert of one device row.
 */
module Worker {
  import opened Wrappers
  import opened Text
  import opened Hex
  import opened Ja4h

  /**
   * What the handler reads from the request, given as explicit values: the header
   * names in the order the runtime enumerates them, the values of the headers it
   * looks up by name, and the platform's JA4 (`request.cf.botManagement.ja4`).
   */
  datatype Request = Request(
    httpMethod: string,
    headerNames: seq<string>,
    cookie: Option<string>,
    cfConnectingIp: Option<string>,
    xRealIp: Option<string>,
    ja4: Option<string>)

  /** The JSON body: `id` is required, the other fields may be absent. */
  datatype Payload = Payload(id: string, ua: Option<string>, lang: Option<string>, tz: Option<string>)

  /** `crypto.subtle` is missing, so the first digest (inside hash12) throws. */
  datatype Error = DigestUnavailable

  /** The values one request contributes to the table. */
  datatype Sighting = Sighting(compositeId: string, fpId: string, ip: string, ua: string, lang: string, tz: string)

  const UnknownJa4: string := "unknown"
  const UnknownIp: string := "0.0.0.0"

  /**
   * `CF-Connecting-IP ?? x-real-ip ?? "0.0.0.0"` (src/worker.ts:75). `??` skips
   * only a missing header, so a present but empty header value is kept.
   */
  function ClientIp(cfConnectingIp: Option<string>, xRealIp: Option<string>): (ip: string)
    ensures cfConnectingIp.Some? ==> ip == cfConnectingIp.value
    ensures cfConnectingIp.None? && xRealIp.Some? ==> ip == xRealIp.value
    ensures cfConnectingIp.None? && xRealIp.None? ==> ip == UnknownIp
  {
    cfConnectingIp.GetOr(xRealIp.GetOr(UnknownIp))
  }

  /**
   * `compositeId` (src/worker.ts:77-80): with `crypto.subtle`, the full hexadecimal
   * SHA-256 of `ja4|ja4h`, written by a fold over the digest bytes; without it,
   * `ja4-ja4h`.
   */
  function CompositeId(ja4: string, ja4h: string, subtle: Option<Sha256>, utf8: Utf8): (id: string)
    ensures subtle.Some? ==> id == HexOf(subtle.value(utf8(ja4 + "|" + ja4h)))
    ensures subtle.None? ==> id == ja4 + "-" + ja4h
  {
    match subtle
    case Some(sha) =>
      var digest := sha(utf8(ja4 + "|" + ja4h));
      assert "" + HexOf(digest) == HexOf(digest);
      HexFold("", digest)
    case None => ja4 + "-" + ja4h
  }

  /**
   * With `crypto.subtle` the key is 64 lower-case hexadecimal characters that
   * read back to the digest.
   */
  lemma CompositeIdIsDigest(ja4: string, ja4h: string, sha: Sha256, utf8: Utf8)
    requires Sha256Like(sha)
    ensures |CompositeId(ja4, ja4h, Some(sha), utf8)| == 64
    ensures IsLowerHex(CompositeId(ja4, ja4h, Some(sha), utf8))
    ensures HexDecode(CompositeId(ja4, ja4h, Some(sha), utf8)) == sha(utf8(ja4 + "|" + ja4h))
  {
    HexRoundTrip(sha(utf8(ja4 + "|" + ja4h)));
  }

  /** Two keys agree exactly when the SHA-256 digests of their inputs agree. */
  lemma CompositeIdsAgree(ja4: string, ja4h: string, ja4': string, ja4h': string, sha: Sha256, utf8: Utf8)
    ensures CompositeId(ja4, ja4h, Some(sha), utf8) == CompositeId(ja4', ja4h', Some(sha), utf8)
        <==> sha(utf8(ja4 + "|" + ja4h)) == sha(utf8(ja4' + "|" + ja4h'))
  {
    HexRoundTrip(sha(utf8(ja4 + "|" + ja4h)));
    HexRoundTrip(sha(utf8(ja4' + "|" + ja4h')));
  }

  /** A fallback key contains `-`, so it is never a hexadecimal digest key. */
  lemma FallbackIsNotHex(ja4: string, ja4h: string, utf8: Utf8)
    ensures !IsLowerHex(CompositeId(ja4, ja4h, None, utf8))
  {
    var id := CompositeId(ja4, ja4h, None, utf8);
    assert id[|ja4|] == '-';
  }

  /**
   * Lines 58-80 of `fetch`: the platform JA4 (default `"unknown"`), the
   * fingerprint, the key, the client address and the payload fields with their
   * `""` defaults. It fails exactly when `crypto.subtle` is missing, because the
   * first digest inside `computeJA4H` (line 36) throws before line 77; with
   * 32-byte digests the key is 64 hexadecimal characters.
   */
  function Derive(req: Request, body: Payload, subtle: Option<Sha256>, utf8: Utf8): (r: Result<Sighting, Error>)
    ensures r.Failure? <==> subtle.None?
    ensures subtle.Some? && Sha256Like(subtle.value) ==>
      |r.value.compositeId| == 64 && IsLowerHex(r.value.compositeId)
  {
    match subtle
    case None => Failure(DigestUnavailable)
    case Some(sha) =>
      var ja4 := req.ja4.GetOr(UnknownJa4);
      var ja4h := ComputeJa4h(req.httpMethod, req.headerNames, req.cookie, sha, utf8);
      var id := CompositeId(ja4, ja4h, subtle, utf8);
      assert Sha256Like(sha) ==> |id| == 64 && IsLowerHex(id) by {
        if Sha256Like(sha) { CompositeIdIsDigest(ja4, ja4h, sha, utf8); }
      }
      Success(Sighting(
        id,
        body.id,
        ClientIp(req.cfConnectingIp, req.xRealIp),
        body.ua.GetOr(""),
        body.lang.GetOr(""),
        body.tz.GetOr("")))
  }

  /**
   * With `crypto.subtle` the handler yields the digest key of `ja4|ja4h` and
   * copies the payload, with `""` for each missing field.
   */
  lemma DeriveSpec(req: Request, body: Payload, subtle: Option<Sha256>, utf8: Utf8)
    ensures subtle.Some? ==>
      var s := Derive(req, body, subtle, utf8).value;
      var ja4 := if req.ja4.Some? then req.ja4.value else "unknown";
      && s.compositeId == HexOf(subtle.value(utf8(ja4 + "|" +
           ComputeJa4h(req.httpMethod, req.headerNames, req.cookie, subtle.value, utf8))))
      && s.fpId == body.id
      && s.ip == ClientIp(req.cfConnectingIp, req.xRealIp)
      && s.ua == (if body.ua.Some? then body.ua.value else "")
      && s.lang == (if body.lang.Some? then body.lang.value else "")
      && s.tz == (if body.tz.Some? then body.tz.value else "")
  {
  }

  /**
   * A stored row. The create branch does not set `lastSeen` (src/worker.ts:84-91),
   * so a new row has `None` there.
   */
  datatype Row = Row(compositeId: string, fpId: string, ip: string, ua: string, lang: string,
                     tz: string, lastSeen: Option<int>)

  /** The values of a row other than `lastSeen`. */
  function SightingOf(row: Row): Sighting {
    Sighting(row.compositeId, row.fpId, row.ip, row.ua, row.lang, row.tz)
  }

  /**
   * The `create` branch (src/worker.ts:84-91): a row holding every value of the
   * sighting and no `lastSeen`.
   */
  function NewRow(s: Sighting): (row: Row)
    ensures SightingOf(row) == s && row.lastSeen == None
  {
    Row(s.compositeId, s.fpId, s.ip, s.ua, s.lang, s.tz, None)
  }

  /** Every row is stored under its own key. */
  ghost predicate KeyedById(rows: map<string, Row>) {
    forall k :: k in rows ==> rows[k].compositeId == k
  }

  /**
   * The table after `upsert` (src/worker.ts:81-92): an existing row gets a new
   * `lastSeen` and nothing else; a new key gets a row made from the sighting.
   */
  function Upserted(rows: map<string, Row>, s: Sighting, now: int): (r: map<string, Row>)
    ensures r.Keys == rows.Keys + {s.compositeId}
    ensures forall k :: k in rows && k != s.compositeId ==> r[k] == rows[k]
  {
    if s.compositeId in rows
    then rows[s.compositeId := rows[s.compositeId].(lastSeen := Some(now))]
    else rows[s.compositeId := NewRow(s)]
  }

  lemma UpsertKeepsKeying(rows: map<string, Row>, s: Sighting, now: int)
    requires KeyedById(rows)
    ensures KeyedById(Upserted(rows, s, now))
  {
  }

  /** An existing key: only its `lastSeen` changes and the table keeps its size. */
  lemma UpsertExisting(rows: map<string, Row>, s: Sighting, now: int)
    requires s.compositeId in rows
    ensures Upserted(rows, s, now)[s.compositeId] == rows[s.compositeId].(lastSeen := Some(now))
    ensures |Upserted(rows, s, now)| == |rows|
  {
  }

  /** A new key: one row more, holding the sighting's values and no `lastSeen`. */
  lemma UpsertNew(rows: map<string, Row>, s: Sighting, now: int)
    requires s.compositeId !in rows
    ensures Upserted(rows, s, now)[s.compositeId] == NewRow(s)
    ensures |Upserted(rows, s, now)| == |rows| + 1
  {
  }

  /**
   * A later sighting under the same key, even with other payload values, keeps
   * the row's first values and only moves `lastSeen`; the table has one row for
   * the key either way.
   */
  lemma UpsertTwice(rows: map<string, Row>, s1: Sighting, s2: Sighting, t1: int, t2: int)
    requires s1.compositeId == s2.compositeId
    ensures var once := Upserted(rows, s1, t1);
            var twice := Upserted(once, s2, t2);
            && twice.Keys == once.Keys
            && twice[s1.compositeId] == once[s1.compositeId].(lastSeen := Some(t2))
            && (s1.compositeId !in rows ==> twice[s1.compositeId] == NewRow(s1).(lastSeen := Some(t2)))
  {
  }

  datatype Outcome = Preflight | Stored(sighting: Sighting) | Failed(error: Error)

  /** The device table behind `prisma.deviceFingerprint`, keyed by `compositeId`. */
  class DeviceTable {
    var rows: map<string, Row>

    ghost predicate Valid()
      reads this
    {
      KeyedById(rows)
    }

    constructor ()
      ensures Valid() && rows == map[]
    {
      rows := map[];
    }

    /** `upsert({ where: { compositeId }, update: { lastSeen }, create: { ... } })`. */
    method Upsert(s: Sighting, now: int)
      requires Valid()
      modifies this
      ensures Valid()
      ensures rows == Upserted(old(rows), s, now)
    {
      if s.compositeId in rows {
        var row := rows[s.compositeId];
        rows := rows[s.compositeId := row.(lastSeen := Some(now))];
      } else {
        rows := rows[s.compositeId := NewRow(s)];
      }
    }
  }

  /**
   * `fetch` (src/worker.ts:44-94) against a table: a preflight stores nothing; any
   * other request stores the derived sighting, or fails before the upsert when
   * `crypto.subtle` is missing. `now` stands for `new Date()`.
   */
  method Fetch(table: DeviceTable, req: Request, body: Payload, subtle: Option<Sha256>, utf8: Utf8, now: int)
    returns (outcome: Outcome)
    requires table.Valid()
    modifies table
    ensures table.Valid()
    ensures req.httpMethod == "OPTIONS" ==> outcome == Preflight && table.rows == old(table.rows)
    ensures req.httpMethod != "OPTIONS" ==>
      match Derive(req, body, subtle, utf8)
      case Success(s) => outcome == Stored(s) && table.rows == Upserted(old(table.rows), s, now)
      case Failure(e) => outcome == Failed(e) && table.rows == old(table.rows)
  {
    if req.httpMethod == "OPTIONS" {
      return Preflight;
    }
    var derived := Derive(req, body, subtle, utf8);
    match derived
    case Failure(e) =>
      outcome := Failed(e);
    case Success(s) =>
      table.Upsert(s, now);
      outcome := Stored(s);
  }
}
