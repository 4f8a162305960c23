/** The capture table: entries encoded as encrypted rows, keyed and ordered by id.

    The cipher, the JSON printer and the LIKE operator of SQL are parameters, known only by the laws
    in `Lawful`; nonces and the availability of the database are inputs. */
module Storage {
  import opened Blob
  import opened Options

  type Headers = seq<(string, string)>

  datatype Request = Request(id: nat, timestampMs: int, verb: string, url: string, headers: Headers, body: Bytes,
                             tls: bool)
  datatype Response = Response(requestId: nat, statusCode: nat, headers: Headers, body: Bytes, durationMs: nat)
  datatype Entry = Entry(request: Request, response: Option<Response>)

  /** `enabled` is whether a key is configured; `encrypt` and `decrypt` use that key. */
  datatype Codec = Codec(
    enabled: bool,
    encrypt: (Bytes, Nonce) -> Option<Bytes>,
    decrypt: (Bytes, Nonce) -> Option<Bytes>,
    printJson: Headers -> Bytes,
    parseJson: Bytes -> Option<Headers>,
    like: (string, string) -> bool)

  const TAG: nat := 16

  /** Decryption inverts encryption, which adds a tag; parsing inverts printing. */
  ghost predicate Lawful(c: Codec) {
    && (forall p: Bytes, n: Nonce :: c.encrypt(p, n).Some? ==>
          |c.encrypt(p, n).value| == |p| + TAG && c.decrypt(c.encrypt(p, n).value, n) == Some(p))
    && (forall h: Headers :: c.parseJson(c.printJson(h)) == Some(h))
  }

  // ---------------------------------------------------------------------------------------------
  // Blobs

  function EncryptIfEnabled(c: Codec, plain: Bytes, nonce: Nonce): Result<Bytes> {
    if !c.enabled then Ok(plain)
    else match c.encrypt(plain, nonce)
      case None => Err(CipherFailed)
      case Some(ciphertext) => Ok(Encode(EncryptedData(ciphertext, nonce)))
  }

  function DecryptIfEnabled(c: Codec, data: Bytes): Result<Bytes> {
    if !c.enabled then Ok(data)
    else match Decode(data)
      case Err(e) => Err(e)
      case Ok(e) => match c.decrypt(e.ciphertext, e.nonce) {
        case None => Err(CipherFailed)
        case Some(plain) => Ok(plain)
      }
  }

  /** Plaintexts whose ciphertext length fits the length field. */
  predicate Fits(c: Codec, plain: Bytes) {
    !c.enabled || |plain| + TAG < 0x1_0000_0000
  }

  lemma BlobRoundTrip(c: Codec, plain: Bytes, nonce: Nonce)
    requires Lawful(c) && EncryptIfEnabled(c, plain, nonce).Ok?
    ensures var stored := EncryptIfEnabled(c, plain, nonce).value;
      DecryptIfEnabled(c, stored) == if Fits(c, plain) then Ok(plain) else Err(LengthMismatch)
  {
    if c.enabled {
      DecodeInvertsEncode(EncryptedData(c.encrypt(plain, nonce).value, nonce));
    }
  }

  // ---------------------------------------------------------------------------------------------
  // Rows

  datatype Row = Row(id: int, timestampMs: int, verb: string, url: string, headers: Bytes, body: Option<Bytes>,
                     tls: int, respStatus: Option<int>, respHeaders: Option<Bytes>, respBody: Option<Bytes>,
                     durationMs: Option<int>)

  const I64_MAX: int := 0x7fff_ffff_ffff_ffff

  function ClampI128(v: int): int {
    if v < -0x8000_0000_0000_0000 then -0x8000_0000_0000_0000 else if v > I64_MAX then I64_MAX else v
  }

  function ClampU128(v: nat): int {
    if v > I64_MAX then I64_MAX else v
  }

  /** `u64 as i64`, `i64 as u64`, `i64 as u16` and `i64 as u128` */
  function AsI64(v: nat): int {
    if v % 0x1_0000_0000_0000_0000 <= I64_MAX then v % 0x1_0000_0000_0000_0000
    else v % 0x1_0000_0000_0000_0000 - 0x1_0000_0000_0000_0000
  }

  function AsU64(v: int): nat {
    v % 0x1_0000_0000_0000_0000
  }

  function AsU16(v: int): nat {
    v % 0x1_0000
  }

  function AsU128(v: int): nat {
    v % 0x1_0000_0000_0000_0000_0000_0000_0000_0000
  }

  /** One nonce for each blob of a row. */
  datatype Nonces = Nonces(headers: Nonce, body: Nonce, respHeaders: Nonce, respBody: Nonce)

  /** An empty body is stored as NULL. */
  function EncryptBody(c: Codec, body: Bytes, nonce: Nonce): Result<Option<Bytes>> {
    if body == [] then Ok(None)
    else match EncryptIfEnabled(c, body, nonce)
      case Err(e) => Err(e)
      case Ok(stored) => Ok(Some(stored))
  }

  function WriteRow(c: Codec, entry: Entry, n: Nonces): Result<Row> {
    var q := entry.request;
    var headers := EncryptIfEnabled(c, c.printJson(q.headers), n.headers);
    var body := EncryptBody(c, q.body, n.body);
    if headers.Err? then Err(headers.error)
    else if body.Err? then Err(body.error)
    else
      var row := Row(AsI64(q.id), ClampI128(q.timestampMs), q.verb, q.url, headers.value, body.value,
                     if q.tls then 1 else 0, None, None, None, None);
      match entry.response
      case None => Ok(row)
      case Some(p) =>
        var respHeaders := EncryptIfEnabled(c, c.printJson(p.headers), n.respHeaders);
        var respBody := EncryptBody(c, p.body, n.respBody);
        if respHeaders.Err? then Err(respHeaders.error)
        else if respBody.Err? then Err(respBody.error)
        else Ok(row.(respStatus := Some(p.statusCode), respHeaders := Some(respHeaders.value),
                     respBody := respBody.value, durationMs := Some(ClampU128(p.durationMs))))
  }

  /** Bodies that cannot be decrypted, and absent ones, read as empty. */
  function DecryptBody(c: Codec, stored: Option<Bytes>): Bytes {
    if stored.None? then [] else match DecryptIfEnabled(c, stored.value) { case Err(_) => [] case Ok(plain) => plain }
  }

  function ParseOrEmpty(c: Codec, json: Bytes): Headers {
    match c.parseJson(json) case None => [] case Some(h) => h
  }

  /** Request headers that cannot be decrypted fail the query; everything else falls back to a default. */
  function ReadRow(c: Codec, row: Row): Result<Entry> {
    match DecryptIfEnabled(c, row.headers)
    case Err(e) => Err(e)
    case Ok(json) =>
      var request := Request(AsU64(row.id), row.timestampMs, row.verb, row.url, ParseOrEmpty(c, json),
                             DecryptBody(c, row.body), row.tls == 1);
      match row.respStatus
      case None => Ok(Entry(request, None))
      case Some(status) =>
        var headers := if row.respHeaders.None? then [] else match DecryptIfEnabled(c, row.respHeaders.value) {
          case Err(_) => []
          case Ok(respJson) => ParseOrEmpty(c, respJson)
        };
        Ok(Entry(request, Some(Response(request.id, AsU16(status), headers, DecryptBody(c, row.respBody),
                                        AsU128(if row.durationMs.None? then 0 else row.durationMs.value)))))
  }

  /** What survives storage: times clamped to 64 bits, and the response tied to its request. */
  function Stored(entry: Entry): Entry {
    Entry(entry.request.(timestampMs := ClampI128(entry.request.timestampMs)),
          match entry.response
          case None => None
          case Some(p) => Some(p.(requestId := entry.request.id, durationMs := ClampU128(p.durationMs))))
  }

  /** The widths the program's integer types impose. */
  predicate InRange(entry: Entry) {
    && entry.request.id < 0x1_0000_0000_0000_0000
    && (entry.response.Some? ==>
          entry.response.value.statusCode < 0x1_0000
          && entry.response.value.durationMs < 0x1_0000_0000_0000_0000_0000_0000_0000_0000)
  }

  /** Blobs too long for their length field are lost; an empty response header list reads back anyway. */
  predicate Readable(c: Codec, entry: Entry) {
    && Fits(c, c.printJson(entry.request.headers))
    && (entry.request.body != [] ==> Fits(c, entry.request.body))
    && (entry.response.Some? ==>
          var p := entry.response.value;
          && (p.headers != [] ==> Fits(c, c.printJson(p.headers)))
          && (p.body != [] ==> Fits(c, p.body)))
  }

  lemma BodyRoundTrip(c: Codec, body: Bytes, nonce: Nonce)
    requires Lawful(c) && EncryptBody(c, body, nonce).Ok?
    ensures DecryptBody(c, EncryptBody(c, body, nonce).value) == if body != [] && Fits(c, body) then body else []
  {
    if body != [] {
      BlobRoundTrip(c, body, nonce);
    }
  }

  lemma IdRoundTrip(id: nat)
    requires id < 0x1_0000_0000_0000_0000
    ensures AsU64(AsI64(id)) == id
  {
  }

  lemma StatusAndDuration(status: nat, duration: nat)
    requires status < 0x1_0000
    ensures AsU16(status) == status && AsU128(ClampU128(duration)) == ClampU128(duration)
  {
  }

  lemma ResponseRoundTrip(c: Codec, entry: Entry, n: Nonces)
    requires Lawful(c) && InRange(entry) && WriteRow(c, entry, n).Ok? && entry.response.Some?
    requires ReadRow(c, WriteRow(c, entry, n).value).Ok?
    ensures var p, r := entry.response.value, ReadRow(c, WriteRow(c, entry, n).value).value.response;
      r == Some(p.(requestId := entry.request.id, durationMs := ClampU128(p.durationMs),
                   headers := if Fits(c, c.printJson(p.headers)) then p.headers else [],
                   body := if p.body != [] && Fits(c, p.body) then p.body else []))
  {
    var p := entry.response.value;
    BlobRoundTrip(c, c.printJson(p.headers), n.respHeaders);
    BodyRoundTrip(c, p.body, n.respBody);
    IdRoundTrip(entry.request.id);
    StatusAndDuration(p.statusCode, p.durationMs);
  }

  /** A stored row reads back as the entry with its times clamped and its response tied to the request,
      exactly when every blob fits its length field. */
  lemma RowRoundTrip(c: Codec, entry: Entry, n: Nonces)
    requires Lawful(c) && InRange(entry) && WriteRow(c, entry, n).Ok?
    ensures ReadRow(c, WriteRow(c, entry, n).value) == Ok(Stored(entry)) <==> Readable(c, entry)
    ensures ReadRow(c, WriteRow(c, entry, n).value).Ok? <==> Fits(c, c.printJson(entry.request.headers))
  {
    var q := entry.request;
    BlobRoundTrip(c, c.printJson(q.headers), n.headers);
    BodyRoundTrip(c, q.body, n.body);
    IdRoundTrip(q.id);
    if entry.response.Some? && ReadRow(c, WriteRow(c, entry, n).value).Ok? {
      ResponseRoundTrip(c, entry, n);
    }
  }

  // ---------------------------------------------------------------------------------------------
  // The table, newest id first

  /** INSERT OR REPLACE */
  function Upsert(rows: seq<Row>, row: Row): (r: seq<Row>)
    ensures r != []
  {
    if rows == [] || row.id > rows[0].id then [row] + rows
    else if row.id == rows[0].id then [row] + rows[1..]
    else [rows[0]] + Upsert(rows[1..], row)
  }

  predicate Descending(rows: seq<Row>) {
    forall i, k :: 0 <= i < k < |rows| ==> rows[i].id > rows[k].id
  }

  predicate HasId(rows: seq<Row>, id: int) {
    exists i :: 0 <= i < |rows| && rows[i].id == id
  }

  /** After an upsert the row is in, and rows of other ids stay. */
  lemma {:induction false} UpsertRows(rows: seq<Row>, row: Row)
    requires Descending(rows)
    ensures forall x :: x in Upsert(rows, row) <==> x == row || (x in rows && x.id != row.id)
  {
    if rows != [] && row.id <= rows[0].id {
      assert rows == [rows[0]] + rows[1..];
      assert forall i :: 0 <= i < |rows| - 1 ==> rows[1..][i].id < rows[0].id;
      if row.id < rows[0].id {
        UpsertRows(rows[1..], row);
      }
    } else {
      assert forall x :: x in rows ==> x.id < row.id;
    }
  }

  /** The table stays keyed and ordered. */
  lemma {:induction false} UpsertDescending(rows: seq<Row>, row: Row)
    requires Descending(rows)
    ensures Descending(Upsert(rows, row))
  {
    if rows != [] && row.id < rows[0].id {
      var r := Upsert(rows[1..], row);
      UpsertDescending(rows[1..], row);
      UpsertRows(rows[1..], row);
      forall i | 0 <= i < |r|
        ensures r[i].id < rows[0].id
      {
        assert r[i] in r;
      }
    }
  }

  /** The table grows exactly when the id is new. */
  lemma {:induction false} UpsertSize(rows: seq<Row>, row: Row)
    requires Descending(rows)
    ensures |Upsert(rows, row)| == |rows| + if HasId(rows, row.id) then 0 else 1
  {
    if rows != [] && row.id < rows[0].id {
      UpsertSize(rows[1..], row);
      if i :| 0 <= i < |rows| && rows[i].id == row.id {
        assert rows[1..][i-1].id == row.id;
      }
      if i :| 0 <= i < |rows| - 1 && rows[1..][i].id == row.id {
        assert rows[i+1].id == row.id;
      }
    }
  }

  lemma HasIdIn(rows: seq<Row>, id: int)
    ensures HasId(rows, id) <==> exists x :: x in rows && x.id == id
  {
  }

  lemma UpsertHasId(rows: seq<Row>, row: Row, id: int)
    requires Descending(rows)
    ensures HasId(Upsert(rows, row), id) <==> id == row.id || HasId(rows, id)
  {
    UpsertRows(rows, row);
    HasIdIn(rows, id);
    HasIdIn(Upsert(rows, row), id);
    assert row in Upsert(rows, row);
  }

  datatype Query = Query(verb: Option<string>, host: Option<string>, status: Option<nat>, tls: Option<bool>,
                         search: Option<string>, limit: Option<nat>)

  /** The WHERE clause; a comparison with NULL does not hold. */
  predicate Selects(c: Codec, q: Query, row: Row) {
    && (q.verb.Some? ==> row.verb == q.verb.value)
    && (q.host.Some? ==> c.like("%" + q.host.value + "%", row.url))
    && (q.status.Some? ==> row.respStatus == Some(q.status.value))
    && (q.tls.Some? ==> row.tls == if q.tls.value then 1 else 0)
    && (q.search.Some? ==> c.like("%" + q.search.value + "%", row.url))
  }

  function Select(c: Codec, q: Query, rows: seq<Row>): seq<Row> {
    if rows == [] then [] else (if Selects(c, q, rows[0]) then [rows[0]] else []) + Select(c, q, rows[1..])
  }

  function Take<T>(s: seq<T>, n: nat): seq<T> {
    if n < |s| then s[..n] else s
  }

  function Limit(q: Query): nat {
    if q.limit.Some? then q.limit.value else 500
  }

  function ReadAll(c: Codec, rows: seq<Row>): Result<seq<Entry>> {
    if rows == [] then Ok([])
    else match ReadRow(c, rows[0])
      case Err(e) => Err(e)
      case Ok(entry) => match ReadAll(c, rows[1..]) { case Err(e) => Err(e) case Ok(rest) => Ok([entry] + rest) }
  }

  function QueryRows(c: Codec, q: Query, rows: seq<Row>): Result<seq<Entry>> {
    ReadAll(c, Take(Select(c, q, rows), Limit(q)))
  }

  class CaptureStorage {
    var rows: seq<Row>
    const codec: Codec

    constructor (codec: Codec)
      ensures rows == [] && this.codec == codec
    {
      rows := [];
      this.codec := codec;
    }

    /** `up` is whether the database can be reached. */
    method Insert(entry: Entry, n: Nonces, up: bool) returns (done: bool)
      modifies this`rows
      ensures done == (up && WriteRow(codec, entry, n).Ok?)
      ensures rows == if done then Upsert(old(rows), WriteRow(codec, entry, n).value) else old(rows)
    {
      if !up {
        return false;
      }
      var row := WriteRow(codec, entry, n);
      done := row.Ok?;
      if done {
        rows := Upsert(rows, row.value);
      }
    }

    method Clear(up: bool) returns (done: bool)
      modifies this`rows
      ensures done == up && rows == if up then [] else old(rows)
    {
      if up {
        rows := [];
      }
      done := up;
    }

    method RunQuery(q: Query) returns (r: Result<seq<Entry>>)
      ensures r == QueryRows(codec, q, rows)
    {
      var cursor := Take(Select(codec, q, rows), Limit(q));
      var entries: seq<Entry> := [];
      assert cursor[0..] == cursor && forall rest :: entries + rest == rest;
      for i := 0 to |cursor|
        invariant ReadAll(codec, cursor) == match ReadAll(codec, cursor[i..]) {
                      case Err(e) => Err(e)
                      case Ok(rest) => Ok(entries + rest)
                    }
      {
        assert cursor[i..][1..] == cursor[i + 1..];
        match ReadRow(codec, cursor[i]) {
          case Err(e) => return Err(e);
          case Ok(entry) =>
            assert forall rest :: entries + ([entry] + rest) == (entries + [entry]) + rest;
            entries := entries + [entry];
        }
      }
      assert cursor[|cursor|..] == [] && entries + [] == entries;
      r := Ok(entries);
    }
  }
}
