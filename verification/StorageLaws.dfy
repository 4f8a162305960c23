/** What the capture table stores, and when: in terms of the entry, the cipher and the columns. */
module StorageLaws {
  import opened Options
  import opened Blob
  import opened Storage

  // ---------------------------------------------------------------------------------------------
  // Blobs

  /** Without a key blobs are plain; with one they are stored exactly when the cipher succeeds, as nonce,
      little-endian length and ciphertext. */
  lemma BlobIs(c: Codec, plain: Bytes, nonce: Nonce)
    ensures EncryptIfEnabled(c, plain, nonce).Ok? <==> !c.enabled || c.encrypt(plain, nonce).Some?
    ensures !c.enabled ==> EncryptIfEnabled(c, plain, nonce) == Ok(plain)
    ensures c.enabled && c.encrypt(plain, nonce).Some? ==>
      var blob, cipher := EncryptIfEnabled(c, plain, nonce).value, c.encrypt(plain, nonce).value;
      && |blob| == 16 + |cipher| && blob[..12] == nonce && blob[16..] == cipher
      && blob[12] == |cipher| % 256 && blob[13] == |cipher| / 0x100 % 256
      && blob[14] == |cipher| / 0x1_0000 % 256 && blob[15] == |cipher| / 0x100_0000 % 256
  {
    if c.enabled && c.encrypt(plain, nonce).Some? {
      LayoutIs(EncryptedData(c.encrypt(plain, nonce).value, nonce));
    }
  }

  lemma LayoutIs(e: EncryptedData)
    ensures var bytes, n := Encode(e), |e.ciphertext|;
      && |bytes| == 16 + n && bytes[..12] == e.nonce && bytes[16..] == e.ciphertext
      && bytes[12] == n % 256 && bytes[13] == n / 0x100 % 256
      && bytes[14] == n / 0x1_0000 % 256 && bytes[15] == n / 0x100_0000 % 256
  {
  }

  /** A time is stored as it is within 64 bits, and otherwise as the nearest one. */
  lemma ClampsAre(v: int)
    ensures -0x8000_0000_0000_0000 <= v <= 0x7fff_ffff_ffff_ffff ==> ClampI128(v) == v
    ensures v < -0x8000_0000_0000_0000 ==> ClampI128(v) == -0x8000_0000_0000_0000
    ensures v > 0x7fff_ffff_ffff_ffff ==> ClampI128(v) == 0x7fff_ffff_ffff_ffff
    ensures v >= 0 ==> ClampU128(v) == ClampI128(v)
  {
  }

  // ---------------------------------------------------------------------------------------------
  // Writing

  /** A row is written exactly when no key is configured, or the cipher succeeds on every blob of the
      entry: the request headers, the bodies that are not empty, the response headers. */
  lemma WrittenIff(c: Codec, entry: Entry, n: Nonces)
    ensures WriteRow(c, entry, n).Ok? <==>
      || !c.enabled
      || (&& c.encrypt(c.printJson(entry.request.headers), n.headers).Some?
          && (entry.request.body != [] ==> c.encrypt(entry.request.body, n.body).Some?)
          && (entry.response.Some? ==>
                && c.encrypt(c.printJson(entry.response.value.headers), n.respHeaders).Some?
                && (entry.response.value.body != [] ==> c.encrypt(entry.response.value.body, n.respBody).Some?)))
  {
    BlobIs(c, c.printJson(entry.request.headers), n.headers);
    BlobIs(c, entry.request.body, n.body);
    if entry.response.Some? {
      BlobIs(c, c.printJson(entry.response.value.headers), n.respHeaders);
      BlobIs(c, entry.response.value.body, n.respBody);
    }
  }

  /** The columns: what a query looks at is plain, an empty body is NULL, and so is all of an absent response. */
  lemma ColumnsAre(c: Codec, entry: Entry, n: Nonces)
    requires WriteRow(c, entry, n).Ok? && entry.request.id <= 0x7fff_ffff_ffff_ffff
    ensures var row := WriteRow(c, entry, n).value;
      && row.id == entry.request.id && row.verb == entry.request.verb && row.url == entry.request.url
      && row.tls == (if entry.request.tls then 1 else 0)
      && (row.respStatus.Some? <==> entry.response.Some?)
      && (entry.response.Some? ==> row.respStatus == Some(entry.response.value.statusCode))
      && row.timestampMs == ClampI128(entry.request.timestampMs)
      && (row.body.Some? <==> entry.request.body != [])
      && (row.respHeaders.Some? <==> entry.response.Some?)
      && (row.respBody.Some? <==> entry.response.Some? && entry.response.value.body != [])
      && (row.durationMs.Some? <==> entry.response.Some?)
      && (entry.response.Some? ==> row.durationMs == Some(ClampU128(entry.response.value.durationMs)))
  {
  }

  /** What an entry loses by being stored: nothing, if its times fit 64 bits and its response is its own. */
  lemma StoredIs(entry: Entry)
    ensures var e := Stored(entry);
      && e.request == entry.request.(timestampMs := e.request.timestampMs)
      && e.request.timestampMs == ClampI128(entry.request.timestampMs)
      && (e.response.Some? <==> entry.response.Some?)
      && (entry.response.Some? ==>
            var p := e.response.value;
            && p == entry.response.value.(requestId := p.requestId, durationMs := p.durationMs)
            && p.requestId == entry.request.id && p.durationMs == ClampU128(entry.response.value.durationMs))
  {
  }

  /** After an insert the table holds one row of that id, which reads back to the fields of the entry, up to
      the clamps; all rows of other ids are as before. */
  lemma InsertReadsBack(c: Codec, rows: seq<Row>, entry: Entry, n: Nonces) returns (row: Row, e: Entry)
    requires Lawful(c) && Descending(rows) && InRange(entry) && Readable(c, entry)
    requires entry.request.id <= 0x7fff_ffff_ffff_ffff && WriteRow(c, entry, n).Ok?
    ensures var rows' := Upsert(rows, WriteRow(c, entry, n).value);
      && row in rows' && row.id == entry.request.id
      && (forall other :: other in rows' && other != row ==> other in rows && other.id != entry.request.id)
      && (forall other :: other in rows && other.id != entry.request.id ==> other in rows')
    ensures ReadRow(c, row) == Ok(e)
    ensures e.request == entry.request.(timestampMs := ClampI128(entry.request.timestampMs))
    ensures e.response.Some? <==> entry.response.Some?
    ensures entry.response.Some? ==>
      e.response.value == entry.response.value.(requestId := entry.request.id,
                                                durationMs := ClampU128(entry.response.value.durationMs))
  {
    row, e := WriteRow(c, entry, n).value, Stored(entry);
    UpsertRows(rows, row);
    RowRoundTrip(c, entry, n);
    ColumnsAre(c, entry, n);
    StoredIs(entry);
  }

  // ---------------------------------------------------------------------------------------------
  // Reading any row

  /** Under a key only a well-framed blob that the cipher accepts is readable. */
  lemma DecryptedIff(c: Codec, data: Bytes)
    ensures !c.enabled ==> DecryptIfEnabled(c, data) == Ok(data)
    ensures c.enabled ==>
      (DecryptIfEnabled(c, data).Ok? <==> Framed(data) && c.decrypt(data[16..], data[..12]).Some?)
    ensures c.enabled && DecryptIfEnabled(c, data).Ok? ==>
      DecryptIfEnabled(c, data).value == c.decrypt(data[16..], data[..12]).value
  {
  }

  /** At least sixteen bytes, of which the fifth word counts what follows. */
  predicate Framed(data: Bytes) {
    && |data| >= 16
    && |data| == 16 + (data[12] as nat) + 0x100 * (data[13] as nat) + 0x1_0000 * (data[14] as nat)
                 + 0x100_0000 * (data[15] as nat)
  }

  /** A row reads exactly if its request headers decrypt; anything else that cannot be read is empty. */
  lemma ReadIs(c: Codec, row: Row)
    ensures ReadRow(c, row).Ok? <==> DecryptIfEnabled(c, row.headers).Ok?
    ensures ReadRow(c, row).Ok? ==>
      var e := ReadRow(c, row).value;
      && e.request.id == row.id % 0x1_0000_0000_0000_0000 && e.request.timestampMs == row.timestampMs
      && e.request.verb == row.verb && e.request.url == row.url && (e.request.tls <==> row.tls == 1)
      && e.request.headers == HeadersOf(c, row.headers) && e.request.body == BodyOf(c, row.body)
      && (e.response.Some? <==> row.respStatus.Some?)
      && (row.respStatus.Some? ==>
            var p := e.response.value;
            && p.requestId == e.request.id && p.statusCode == row.respStatus.value % 0x1_0000
            && p.headers == (if row.respHeaders.Some? then HeadersOf(c, row.respHeaders.value) else [])
            && p.body == BodyOf(c, row.respBody))
  {
  }

  function HeadersOf(c: Codec, stored: Bytes): Headers {
    var json := DecryptIfEnabled(c, stored);
    if json.Ok? && c.parseJson(json.value).Some? then c.parseJson(json.value).value else []
  }

  function BodyOf(c: Codec, stored: Option<Bytes>): Bytes {
    if stored.Some? && DecryptIfEnabled(c, stored.value).Ok? then DecryptIfEnabled(c, stored.value).value else []
  }

  // ---------------------------------------------------------------------------------------------
  // Queries

  /** The conditions of the WHERE clause on the columns, with LIKE as the database has it. */
  lemma SelectsIff(c: Codec, q: Query, row: Row)
    ensures Selects(c, q, row) <==>
      && (q.verb.None? || row.verb == q.verb.value)
      && (q.host.None? || c.like("%" + q.host.value + "%", row.url))
      && (q.status.None? || (row.respStatus.Some? && row.respStatus.value == q.status.value))
      && (q.tls.None? || row.tls == (if q.tls.value then 1 else 0))
      && (q.search.None? || c.like("%" + q.search.value + "%", row.url))
  {
  }

  /** The positions of the selected rows. */
  predicate Marks<T(==)>(xs: seq<T>, keep: seq<nat>, ys: seq<T>) {
    && |keep| == |ys|
    && (forall i :: 0 <= i < |keep| ==> keep[i] < |xs| && ys[i] == xs[keep[i]])
    && (forall i, k :: 0 <= i < k < |keep| ==> keep[i] < keep[k])
  }

  function Shifted(keep: seq<nat>): (r: seq<nat>)
    ensures |r| == |keep| && forall i :: 0 <= i < |keep| ==> r[i] == keep[i] + 1
  {
    seq(|keep|, i requires 0 <= i < |keep| => keep[i] + 1)
  }

  /** A selection after one more element in front. */
  lemma MarksCons<T>(x: T, xs: seq<T>, keep: seq<nat>, ys: seq<T>, here: bool)
    requires Marks(xs, keep, ys)
    ensures Marks([x] + xs, (if here then [0] else []) + Shifted(keep), (if here then [x] else []) + ys)
  {
    var all, keep', ys' := [x] + xs, (if here then [0] else []) + Shifted(keep), (if here then [x] else []) + ys;
    forall i | 0 <= i < |keep'|
      ensures keep'[i] < |all| && ys'[i] == all[keep'[i]]
    {
      var k := if here then i - 1 else i;
      if k >= 0 {
        assert keep'[i] == keep[k] + 1 && ys'[i] == ys[k];
      }
    }
  }

  /** The rows a query selects, in the order of the table: all that meet its conditions and no other. */
  lemma {:induction false} SelectIs(c: Codec, q: Query, rows: seq<Row>) returns (keep: seq<nat>)
    ensures Marks(rows, keep, Select(c, q, rows))
    ensures forall k :: 0 <= k < |rows| ==> (k in keep <==> Selects(c, q, rows[k]))
  {
    if rows == [] {
      keep := [];
    } else {
      var rest := SelectIs(c, q, rows[1..]);
      var here := Selects(c, q, rows[0]);
      keep := (if here then [0] else []) + Shifted(rest);
      assert rows == [rows[0]] + rows[1..];
      MarksCons(rows[0], rows[1..], rest, Select(c, q, rows[1..]), here);
      forall k | 0 <= k < |rows|
        ensures k in keep <==> Selects(c, q, rows[k])
      {
        if k > 0 {
          ShiftedHas(rest, k - 1);
        }
      }
    }
  }

  lemma ShiftedHas(keep: seq<nat>, k: nat)
    ensures k in keep <==> k + 1 in Shifted(keep)
    ensures 0 !in Shifted(keep)
  {
    if k in keep {
      var i :| 0 <= i < |keep| && keep[i] == k;
      assert Shifted(keep)[i] == k + 1;
    }
  }

  /** A query reads the first of them, up to its limit, or up to 500. */
  lemma QueryRowsIs(c: Codec, q: Query, rows: seq<Row>)
    ensures var selected, limit := Select(c, q, rows), if q.limit.Some? then q.limit.value else 500;
      QueryRows(c, q, rows) == ReadAll(c, if limit < |selected| then selected[..limit] else selected)
  {
  }

  /** Rows are read one by one, and the first that cannot be read is the answer. */
  lemma {:induction false} ReadAllIs(c: Codec, rows: seq<Row>)
    ensures ReadAll(c, rows).Ok? <==> forall k :: 0 <= k < |rows| ==> ReadRow(c, rows[k]).Ok?
    ensures ReadAll(c, rows).Ok? ==>
      && |ReadAll(c, rows).value| == |rows|
      && forall k :: 0 <= k < |rows| ==> ReadRow(c, rows[k]) == Ok(ReadAll(c, rows).value[k])
  {
    if rows != [] {
      ReadAllIs(c, rows[1..]);
      if ReadAll(c, rows).Ok? {
        forall k | 0 <= k < |rows|
          ensures ReadRow(c, rows[k]) == Ok(ReadAll(c, rows).value[k])
        {
          assert k > 0 ==> rows[k] == rows[1..][k-1];
        }
      } else if ReadRow(c, rows[0]).Ok? {
        var k :| 0 <= k < |rows| - 1 && ReadRow(c, rows[1..][k]).Err?;
        assert rows[k + 1] == rows[1..][k];
      }
    }
  }
}
