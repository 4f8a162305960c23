/** What a capture leaves behind, and what queries of it answer: in terms of the fields. */
module CaptureLaws {
  import opened Options
  import opened Text
  import opened Blob
  import opened Storage
  import opened StorageLaws
  import opened Capture

  // ---------------------------------------------------------------------------------------------
  // What a push stores

  /** The newest entry of the table, read back after a push: all that was captured, up to the clamps. */
  lemma PushIsStored(c: Codec, rows: seq<Row>, id: nat, request: Request, response: Option<Response>, n: Nonces)
      returns (e: Entry)
    requires Lawful(c) && Descending(rows) && id <= 0x7fff_ffff_ffff_ffff
    requires forall k :: 0 <= k < |rows| ==> rows[k].id < id
    requires Accepted(c, request, response, n)
    requires response.Some? ==> response.value.statusCode < 0x1_0000
    requires response.Some? ==> response.value.durationMs < 0x1_0000_0000_0000_0000_0000_0000_0000_0000
    ensures QueryRows(c, AllUpTo(1), Inserted(c, rows, Labelled(id, request, response), n, true)) == Ok([e])
    ensures Carries(e, id, request.(timestampMs := ClampI128(request.timestampMs)),
                    if response.Some? then Some(response.value.(durationMs := ClampU128(response.value.durationMs)))
                    else None)
  {
    var entry := Labelled(id, request, response);
    assert Carries(entry, id, request, response);
    WrittenIff(c, entry, n);
    var row := WriteRow(c, entry, n).value;
    RowRoundTrip(c, entry, n);
    ColumnsAre(c, entry, n);
    StoredIs(entry);
    e := Stored(entry);
    assert Upsert(rows, row) == [row] + rows;
    FirstRowOf(c, row, rows, e);
  }

  /** The cipher, if there is a key, succeeds on every blob of the capture, and each fits its length field. */
  predicate Accepted(c: Codec, request: Request, response: Option<Response>, n: Nonces) {
    c.enabled ==>
      && Takes(c, c.printJson(request.headers), n.headers) && (request.body != [] ==> Takes(c, request.body, n.body))
      && (response.Some? ==>
            && Takes(c, c.printJson(response.value.headers), n.respHeaders)
            && (response.value.body != [] ==> Takes(c, response.value.body, n.respBody)))
  }

  predicate Takes(c: Codec, plain: Bytes, nonce: Nonce) {
    c.encrypt(plain, nonce).Some? && |plain| + 16 < 0x1_0000_0000
  }

  lemma FirstRowOf(c: Codec, row: Row, rows: seq<Row>, e: Entry)
    requires ReadRow(c, row) == Ok(e)
    ensures QueryRows(c, AllUpTo(1), [row] + rows) == Ok([e])
  {
    SelectAll(c, 1, [row] + rows);
    assert Take([row] + rows, 1) == [row];
    assert [row][1..] == [] && ReadAll(c, []) == Ok([]);
    assert [e] + [] == [e];
  }

  // ---------------------------------------------------------------------------------------------
  // Queries of the window

  /** The conditions in memory, on the fields; text filters look for a part of the URL. */
  lemma MatchesIff(q: Query, e: Entry)
    ensures Matches(q, e) <==>
      && (q.verb.None? || e.request.verb == q.verb.value)
      && (q.host.None? || exists a: string, b: string :: e.request.url == a + q.host.value + b)
      && (q.status.None? || (if e.response.Some? then e.response.value.statusCode else 0) == q.status.value)
      && (q.tls.None? || e.request.tls == q.tls.value)
      && (q.search.None? || exists a: string, b: string :: e.request.url == a + q.search.value + b)
  {
    if q.host.Some? {
      ContainsIff(e.request.url, q.host.value);
    }
    if q.search.Some? {
      ContainsIff(e.request.url, q.search.value);
    }
  }

  /** The entries a query finds, in the order of the window: all that match and no other. */
  lemma {:induction false} FilterIs(q: Query, entries: seq<Entry>) returns (keep: seq<nat>)
    ensures Marks(entries, keep, Filter(q, entries))
    ensures forall k :: 0 <= k < |entries| ==> (k in keep <==> Matches(q, entries[k]))
  {
    if entries == [] {
      keep := [];
    } else {
      var rest := FilterIs(q, entries[1..]);
      var here := Matches(q, entries[0]);
      keep := (if here then [0] else []) + Shifted(rest);
      assert entries == [entries[0]] + entries[1..];
      MarksCons(entries[0], entries[1..], rest, Filter(q, entries[1..]), here);
      forall k | 0 <= k < |entries|
        ensures k in keep <==> Matches(q, entries[k])
      {
        if k > 0 {
          ShiftedHas(rest, k - 1);
        }
      }
    }
  }

  /** The answer is the first of them, up to the limit if there is one. */
  lemma QueryWindowIs(q: Query, entries: seq<Entry>) returns (keep: seq<nat>)
    ensures Marks(entries, keep, QueryWindow(q, entries))
    ensures forall i :: 0 <= i < |keep| ==> Matches(q, entries[keep[i]])
    ensures q.limit.Some? ==> |keep| <= q.limit.value
    ensures q.limit.None? || |keep| < q.limit.value ==>
      forall k :: 0 <= k < |entries| && Matches(q, entries[k]) ==> k in keep
    ensures forall i, k :: 0 <= i < |keep| && 0 <= k < keep[i] && Matches(q, entries[k]) ==> k in keep
  {
    var all := FilterIs(q, entries);
    var limit := if q.limit.Some? then q.limit.value else |entries|;
    MarksAtMost(entries, all, Filter(q, entries));
    keep := if limit < |all| then all[..limit] else all;
    forall i, k | 0 <= i < |keep| && 0 <= k < keep[i] && Matches(q, entries[k])
      ensures k in keep
    {
      EarlierIsKept(all, |keep|, i, k);
    }
  }

  /** What stands before a kept position is kept too. */
  lemma EarlierIsKept(all: seq<nat>, n: nat, i: nat, k: nat)
    requires i < n <= |all| && k < all[i] && k in all
    requires forall j, l :: 0 <= j < l < |all| ==> all[j] < all[l]
    ensures k in all[..n]
  {
    var j :| 0 <= j < |all| && all[j] == k;
    assert j < i;
    assert all[..n][j] == k;
  }

  lemma {:induction false} MarksAtMost<T>(xs: seq<T>, keep: seq<nat>, ys: seq<T>)
    requires Marks(xs, keep, ys)
    ensures |keep| <= |xs|
    decreases |keep|
  {
    if keep != [] {
      var last := |keep| - 1;
      var n := keep[last];
      assert Marks(xs[..n], keep[..last], ys[..last]) by {
        forall i | 0 <= i < last
          ensures keep[..last][i] < |xs[..n]| && ys[..last][i] == xs[..n][keep[..last][i]]
        {
          assert keep[i] < keep[last];
        }
      }
      MarksAtMost(xs[..n], keep[..last], ys[..last]);
    }
  }
}
