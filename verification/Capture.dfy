/** The capture buffer: a bounded newest-first window over an unbounded table, with restart. */
module Capture {
  import opened Options
  import opened Blob
  import opened Storage
  import opened Text

  const DEFAULT_CAPACITY: nat := 10_000

  /** The in-memory reading of a query; an absent response counts as status 0. */
  predicate Matches(q: Query, entry: Entry) {
    && (q.verb.Some? ==> entry.request.verb == q.verb.value)
    && (q.host.Some? ==> Contains(entry.request.url, q.host.value))
    && (q.status.Some? ==> (if entry.response.Some? then entry.response.value.statusCode else 0) == q.status.value)
    && (q.tls.Some? ==> entry.request.tls == q.tls.value)
    && (q.search.Some? ==> Contains(entry.request.url, q.search.value))
  }

  function Filter(q: Query, entries: seq<Entry>): seq<Entry> {
    if entries == [] then [] else (if Matches(q, entries[0]) then [entries[0]] else []) + Filter(q, entries[1..])
  }

  function QueryWindow(q: Query, entries: seq<Entry>): seq<Entry> {
    Take(Filter(q, entries), if q.limit.Some? then q.limit.value else |entries|)
  }

  /** The entry a push makes. */
  function Labelled(id: nat, request: Request, response: Option<Response>): Entry {
    Entry(request.(id := id), if response.Some? then Some(response.value.(requestId := id)) else None)
  }

  /** An entry has what was captured, under an identifier: every field of the request but its id, and a
      response exactly if one was given, with every field of that but the id of its request. */
  predicate Carries(entry: Entry, id: nat, request: Request, response: Option<Response>) {
    && entry.request.id == id
    && entry.request.timestampMs == request.timestampMs && entry.request.verb == request.verb
    && entry.request.url == request.url && entry.request.headers == request.headers
    && entry.request.body == request.body && entry.request.tls == request.tls
    && (entry.response.Some? <==> response.Some?)
    && (response.Some? ==>
          var p, q := entry.response.value, response.value;
          && p.requestId == id && p.statusCode == q.statusCode && p.headers == q.headers
          && p.body == q.body && p.durationMs == q.durationMs)
  }

  function AllUpTo(limit: nat): Query {
    Query(None, None, None, None, None, Some(limit))
  }

  function MaxId(entries: seq<Entry>): nat {
    if entries == [] then 0
    else
      var rest := MaxId(entries[..|entries|-1]);
      if entries[|entries|-1].request.id > rest then entries[|entries|-1].request.id else rest
  }

  function Reverse<T>(s: seq<T>): (r: seq<T>)
    ensures |r| == |s| && forall i :: 0 <= i < |s| ==> r[i] == s[|s| - 1 - i]
  {
    if s == [] then [] else [s[|s|-1]] + Reverse(s[..|s|-1])
  }

  /** The window a restart loads: nothing if the query fails. */
  function Loaded(c: Codec, rows: seq<Row>, capacity: nat, up: bool): seq<Entry> {
    if !up then []
    else match QueryRows(c, AllUpTo(capacity), rows) { case Err(_) => [] case Ok(entries) => Reverse(entries) }
  }

  /** The table after an attempt to insert an entry. */
  function Inserted(c: Codec, rows: seq<Row>, entry: Entry, n: Nonces, up: bool): seq<Row> {
    var row := WriteRow(c, entry, n);
    if up && row.Ok? then Upsert(rows, row.value) else rows
  }

  class RequestCapture {
    const capacity: nat
    var entries: seq<Entry>      // front first
    var counter: nat             // u64
    const storage: CaptureStorage?

    /** Reload from the storage, if there is one; `up` is whether it can be reached. */
    constructor WithStorage(capacity: nat, storage: CaptureStorage?, up: bool)
      ensures this.capacity == (if capacity == 0 then 10_000 else capacity) && this.storage == storage
      ensures entries == if storage == null then [] else Loaded(storage.codec, storage.rows, capacity, up)
      ensures counter == (MaxId(entries) + 1) % 0x1_0000_0000_0000_0000
    {
      var window: seq<Entry> := [];
      var maxId := 0;
      if storage != null && up {
        var loaded := storage.RunQuery(AllUpTo(capacity));
        if loaded.Ok? {
          var reversed := Reverse(loaded.value);
          for i := 0 to |reversed|
            invariant window == reversed[..i] && maxId == MaxId(window)
          {
            if reversed[i].request.id > maxId {
              maxId := reversed[i].request.id;
            }
            window := window + [reversed[i]];
            assert window[..i] == reversed[..i];
          }
          assert reversed[..|reversed|] == reversed;
        }
      }
      this.capacity := if capacity == 0 then DEFAULT_CAPACITY else capacity;
      this.storage := storage;
      this.entries := window;
      this.counter := (maxId + 1) % 0x1_0000_0000_0000_0000;
    }

    method Push(request: Request, response: Option<Response>, n: Nonces, up: bool) returns (id: nat)
      requires counter < 0x1_0000_0000_0000_0000
      modifies this`entries, this`counter, storage
      ensures id == old(counter) && counter == (old(counter) + 1) % 0x1_0000_0000_0000_0000
      ensures entries == Take([Labelled(id, request, response)] + old(entries), capacity)
      ensures |entries| == if |old(entries)| < capacity then |old(entries)| + 1 else capacity
      ensures forall k :: 1 <= k < |entries| ==> entries[k] == old(entries)[k - 1]
      ensures capacity > 0 ==> Carries(entries[0], id, request, response)
      ensures storage != null ==>
                storage.rows == Inserted(storage.codec, old(storage.rows), Labelled(id, request, response), n, up)
    {
      id := counter;
      counter := (counter + 1) % 0x1_0000_0000_0000_0000;
      var entry := Labelled(id, request, response);
      var window := [entry] + entries;
      ghost var pushed := window;
      while |window| > capacity
        invariant window == pushed[..|window|]
        invariant |window| == |pushed| || |window| >= capacity
      {
        window := window[..|window| - 1];
      }
      entries := window;
      if storage != null {
        var done := storage.Insert(entry, n, up);
      }
    }

    method Get(id: nat) returns (found: Option<Entry>)
      ensures found.Some? ==> found.value in entries && found.value.request.id == id
      ensures found.None? ==> forall e :: e in entries ==> e.request.id != id
    {
      for i := 0 to |entries|
        invariant forall k :: 0 <= k < i ==> entries[k].request.id != id
      {
        if entries[i].request.id == id {
          return Some(entries[i]);
        }
      }
      found := None;
    }

    method Clear(up: bool)
      modifies this`entries, storage
      ensures entries == []
      ensures storage != null ==> storage.rows == if up then [] else old(storage.rows)
    {
      entries := [];
      if storage != null {
        var done := storage.Clear(up);
      }
    }

    method RunQuery(q: Query) returns (found: seq<Entry>)
      ensures found == if storage == null then QueryWindow(q, entries)
                       else match QueryRows(storage.codec, q, storage.rows) { case Err(_) => [] case Ok(es) => es }
    {
      if storage != null {
        var r := storage.RunQuery(q);
        return if r.Ok? then r.value else [];
      }
      found := QueryWindow(q, entries);
    }
  }

  // ---------------------------------------------------------------------------------------------
  // Identifiers, over interleaved pushes, clears and restarts

  /** A push in progress: it has its id, and has yet to enter the window and the table. */
  datatype Pending = Pending(entry: Entry, inWindow: bool)

  datatype State = State(capacity: nat, entries: seq<Entry>, counter: nat, rows: seq<Row>, pending: seq<Pending>)

  datatype Event =
    | TakeId(request: Request, response: Option<Response>)
    | EnterWindow(i: nat)
    | InsertRow(i: nat, nonces: Nonces, up: bool)   // the end of a push
    | ClearWindow
    | ClearTable(up: bool)
    | Restart(capacity: nat, up: bool)              // pushes in progress are lost

  function Step(c: Codec, s: State, e: Event): State {
    match e
    case TakeId(request, response) =>
      s.(counter := (s.counter + 1) % 0x1_0000_0000_0000_0000,
         pending := s.pending + [Pending(Labelled(s.counter, request, response), false)])
    case EnterWindow(i) =>
      if i < |s.pending| && !s.pending[i].inWindow
      then s.(entries := Take([s.pending[i].entry] + s.entries, s.capacity),
              pending := s.pending[i := s.pending[i].(inWindow := true)])
      else s
    case InsertRow(i, nonces, up) =>
      if i < |s.pending| && s.pending[i].inWindow then
        s.(rows := Inserted(c, s.rows, s.pending[i].entry, nonces, up),
           pending := s.pending[..i] + s.pending[i+1..])
      else s
    case ClearWindow => s.(entries := [])
    case ClearTable(up) => if up then s.(rows := []) else s
    case Restart(capacity, up) =>
      var window := Loaded(c, s.rows, capacity, up);
      State(if capacity == 0 then DEFAULT_CAPACITY else capacity, window,
            (MaxId(window) + 1) % 0x1_0000_0000_0000_0000, s.rows, [])
  }

  function Run(c: Codec, s: State, es: seq<Event>): State
    decreases |es|
  {
    if es == [] then s else Run(c, Step(c, s, es[0]), es[1..])
  }

  function Start(capacity: nat): State {
    State(if capacity == 0 then DEFAULT_CAPACITY else capacity, [], 1, [], [])
  }

  /** A restart finds the newest stored entry, or there is none: the table is empty, or the reload asks
      for at least one row, reaches the database, and reads back every row it asked for. */
  predicate SafeRestart(c: Codec, rows: seq<Row>, capacity: nat, up: bool) {
    rows == [] || (capacity >= 1 && up && QueryRows(c, AllUpTo(capacity), rows).Ok?)
  }

  predicate GoodEvent(c: Codec, s: State, e: Event) {
    && (e.Restart? ==> SafeRestart(c, s.rows, e.capacity, e.up))
    && (e.TakeId? ==> s.counter < 0x7fff_ffff_ffff_ffff)
  }

  predicate GoodRun(c: Codec, s: State, es: seq<Event>)
    decreases |es|
  {
    es == [] || (GoodEvent(c, s, es[0]) && GoodRun(c, Step(c, s, es[0]), es[1..]))
  }

  ghost predicate Inv(s: State) {
    && 1 <= s.counter <= 0x7fff_ffff_ffff_ffff
    && Descending(s.rows)
    && (forall k :: 0 <= k < |s.rows| ==> 1 <= s.rows[k].id < s.counter)
    && (forall k :: 0 <= k < |s.pending| ==> 1 <= s.pending[k].entry.request.id < s.counter)
    && (forall k :: 0 <= k < |s.pending| ==> !HasId(s.rows, s.pending[k].entry.request.id))
    && (forall i, k :: 0 <= i < k < |s.pending| ==> s.pending[i].entry.request.id != s.pending[k].entry.request.id)
  }

  lemma WrittenId(c: Codec, entry: Entry, n: Nonces)
    requires entry.request.id < 0x7fff_ffff_ffff_ffff && WriteRow(c, entry, n).Ok?
    ensures WriteRow(c, entry, n).value.id == entry.request.id
  {
  }

  lemma {:induction false} SelectAll(c: Codec, limit: nat, rows: seq<Row>)
    ensures Select(c, AllUpTo(limit), rows) == rows
  {
    if rows != [] {
      SelectAll(c, limit, rows[1..]);
    }
  }

  lemma {:induction false} MaxIdIs(entries: seq<Entry>)
    ensures forall k :: 0 <= k < |entries| ==> entries[k].request.id <= MaxId(entries)
    ensures entries != [] ==> exists k :: 0 <= k < |entries| && entries[k].request.id == MaxId(entries)
  {
    if entries != [] {
      var last := |entries| - 1;
      MaxIdIs(entries[..last]);
      if entries[last].request.id <= MaxId(entries[..last]) && last > 0 {
        var k :| 0 <= k < last && entries[..last][k].request.id == MaxId(entries[..last]);
        assert entries[k].request.id == MaxId(entries);
      } else {
        assert entries[last].request.id == MaxId(entries);
      }
    }
  }

  ghost predicate SmallIds(rows: seq<Row>) {
    forall k :: 0 <= k < |rows| ==> 1 <= rows[k].id < 0x7fff_ffff_ffff_ffff
  }

  lemma LoadedAre(c: Codec, rows: seq<Row>, capacity: nat)
    requires QueryRows(c, AllUpTo(capacity), rows).Ok?
    ensures ReadAll(c, Take(rows, capacity)).Ok?
    ensures Loaded(c, rows, capacity, true) == Reverse(ReadAll(c, Take(rows, capacity)).value)
  {
    SelectAll(c, capacity, rows);
  }

  lemma ReadAllSmallIds(c: Codec, rows: seq<Row>)
    requires SmallIds(rows) && ReadAll(c, rows).Ok?
    ensures var es := ReadAll(c, rows).value;
      |es| == |rows| && forall k :: 0 <= k < |rows| ==> es[k].request.id == rows[k].id
  {
  }

  lemma TakenIds(c: Codec, rows: seq<Row>, n: nat)
    requires SmallIds(rows) && ReadAll(c, Take(rows, n)).Ok?
    ensures var es := ReadAll(c, Take(rows, n)).value;
      |es| == |Take(rows, n)| <= |rows| && forall k :: 0 <= k < |es| ==> es[k].request.id == rows[k].id
  {
    ReadAllSmallIds(c, Take(rows, n));
  }

  lemma ReversedIds(es: seq<Entry>, rows: seq<Row>)
    requires |es| <= |rows| && forall k :: 0 <= k < |es| ==> es[k].request.id == rows[k].id
    ensures forall k :: 0 <= k < |es| ==> Reverse(es)[k].request.id == rows[|es| - 1 - k].id
  {
  }

  /** The loaded window holds the newest rows, the newest of them last. */
  lemma LoadedIds(c: Codec, rows: seq<Row>, capacity: nat)
    requires SmallIds(rows) && QueryRows(c, AllUpTo(capacity), rows).Ok?
    ensures var window := Loaded(c, rows, capacity, true); var n := |Take(rows, capacity)|;
      |window| == n && forall k :: 0 <= k < n ==> window[k].request.id == rows[n - 1 - k].id
  {
    LoadedAre(c, rows, capacity);
    TakenIds(c, rows, capacity);
    ReversedIds(ReadAll(c, Take(rows, capacity)).value, rows);
  }

  lemma MaxIdAt(entries: seq<Entry>, m: nat)
    requires entries != [] && entries[|entries|-1].request.id == m
    requires forall k :: 0 <= k < |entries| ==> entries[k].request.id <= m
    ensures MaxId(entries) == m
  {
    MaxIdIs(entries);
  }

  /** A reload asking for at least one row finds the largest id, because the table is ordered. */
  lemma ReloadFindsMax(c: Codec, rows: seq<Row>, capacity: nat)
    requires Descending(rows) && SmallIds(rows)
    requires QueryRows(c, AllUpTo(capacity), rows).Ok?
    ensures MaxId(Loaded(c, rows, capacity, true)) == if capacity == 0 || rows == [] then 0 else rows[0].id
  {
    LoadedIds(c, rows, capacity);
    if capacity > 0 && rows != [] {
      MaxIdAt(Loaded(c, rows, capacity, true), rows[0].id);
    }
  }

  lemma BadReloadIsEmpty(c: Codec, rows: seq<Row>, capacity: nat, up: bool)
    requires rows == [] || !SafeRestart(c, rows, capacity, up)
    ensures Loaded(c, rows, capacity, up) == []
  {
    if up && QueryRows(c, AllUpTo(capacity), rows).Ok? {
      LoadedAre(c, rows, capacity);
      assert Take(rows, capacity) == [];
    }
  }

  /** A restart keeps the counter above every stored id exactly when it is safe.  A failed reload, of an
      unreachable database or of one row that no longer reads back, is not reported: the program loads
      nothing and counts from 1, as it does when configured with capacity 0. */
  lemma RestartSafeIff(c: Codec, s: State, capacity: nat, up: bool)
    requires Inv(s)
    ensures Inv(Step(c, s, Restart(capacity, up))) <==> SafeRestart(c, s.rows, capacity, up)
  {
    if s.rows == [] || !SafeRestart(c, s.rows, capacity, up) {
      BadReloadIsEmpty(c, s.rows, capacity, up);
      assert s.rows != [] ==> s.rows[0].id >= Step(c, s, Restart(capacity, up)).counter;
    } else {
      SafeReload(c, s, capacity);
    }
  }

  lemma SafeReload(c: Codec, s: State, capacity: nat)
    requires Inv(s) && s.rows != [] && capacity >= 1 && QueryRows(c, AllUpTo(capacity), s.rows).Ok?
    ensures Inv(Step(c, s, Restart(capacity, true)))
  {
    ReloadFindsMax(c, s.rows, capacity);
    assert Step(c, s, Restart(capacity, true)).counter == s.rows[0].id + 1;
  }

  /** One completed push, and `m` of them. */
  function WholePush(request: Request, response: Option<Response>, n: Nonces): seq<Event> {
    [TakeId(request, response), EnterWindow(0), InsertRow(0, n, true)]
  }

  function Pushes(request: Request, response: Option<Response>, n: Nonces, m: nat): seq<Event> {
    if m == 0 then [] else Pushes(request, response, n, m - 1) + WholePush(request, response, n)
  }

  lemma {:induction false} RunAppend(c: Codec, s: State, es: seq<Event>, more: seq<Event>)
    ensures Run(c, s, es + more) == Run(c, Run(c, s, es), more)
    decreases |es|
  {
    if es == [] {
      assert es + more == more;
    } else {
      assert (es + more)[1..] == es[1..] + more;
      RunAppend(c, Step(c, s, es[0]), es[1..], more);
    }
  }

  lemma RunOfOne(c: Codec, s: State, e: Event)
    ensures Run(c, s, [e]) == Step(c, s, e)
  {
    assert [e][1..] == [];
  }

  lemma OnePush(c: Codec, s: State, request: Request, response: Option<Response>, n: Nonces)
    requires s.pending == []
    ensures var s' := Run(c, s, WholePush(request, response, n));
      && s'.pending == [] && s'.counter == (s.counter + 1) % 0x1_0000_0000_0000_0000
      && s'.rows == Inserted(c, s.rows, Labelled(s.counter, request, response), n, true)
  {
    var s1 := Step(c, s, TakeId(request, response));
    var s2 := Step(c, s1, EnterWindow(0));
    assert s2.pending == [Pending(Labelled(s.counter, request, response), true)];
    assert [EnterWindow(0), InsertRow(0, n, true)][1..] == [InsertRow(0, n, true)];
    assert WholePush(request, response, n)[1..] == [EnterWindow(0), InsertRow(0, n, true)];
    RunOfOne(c, s2, InsertRow(0, n, true));
    assert Run(c, s1, [EnterWindow(0), InsertRow(0, n, true)]) == Run(c, s2, [InsertRow(0, n, true)]);
  }

  lemma OnePushKeepsOrder(c: Codec, s: State, request: Request, response: Option<Response>, n: Nonces)
    requires s.pending == [] && Descending(s.rows)
    ensures Descending(Run(c, s, WholePush(request, response, n)).rows)
  {
    OnePush(c, s, request, response, n);
    var row := WriteRow(c, Labelled(s.counter, request, response), n);
    if row.Ok? {
      UpsertDescending(s.rows, row.value);
    }
  }

  lemma {:induction false} PushesCount(c: Codec, s: State, request: Request, response: Option<Response>, n: Nonces,
                                       m: nat)
    requires s.pending == [] && s.counter == 1 && Descending(s.rows) && m < 0x7fff_ffff_ffff_ffff
    ensures var s' := Run(c, s, Pushes(request, response, n, m));
      s'.pending == [] && s'.counter == m + 1 && Descending(s'.rows)
    decreases m
  {
    if m > 0 {
      var s1 := Run(c, s, Pushes(request, response, n, m - 1));
      PushesCount(c, s, request, response, n, m - 1);
      RunAppend(c, s, Pushes(request, response, n, m - 1), WholePush(request, response, n));
      OnePush(c, s1, request, response, n);
      OnePushKeepsOrder(c, s1, request, response, n);
    }
  }

  /** After any other restart captures are lost without a sign: for every stored id, that many completed
      pushes put another entry in its place. */
  lemma BadRestartOverwrites(c: Codec, s: State, capacity: nat, up: bool, m: nat,
                             request: Request, response: Option<Response>, n: Nonces)
    requires Inv(s) && !SafeRestart(c, s.rows, capacity, up) && HasId(s.rows, m)
    requires WriteRow(c, Labelled(m, request, response), n).Ok?
    ensures var s' := Run(c, s, [Restart(capacity, up)] + Pushes(request, response, n, m));
      HoldsOnly(s'.rows, m, WriteRow(c, Labelled(m, request, response), n).value)
  {
    AfterBadRestart(c, s, capacity, up);
    StoredIdIsSmall(s, m);
    RunAppend(c, s, [Restart(capacity, up)], Pushes(request, response, n, m));
    RunOfOne(c, s, Restart(capacity, up));
    PushesReplace(c, Step(c, s, Restart(capacity, up)), m, request, response, n);
  }

  lemma AfterBadRestart(c: Codec, s: State, capacity: nat, up: bool)
    requires !SafeRestart(c, s.rows, capacity, up)
    ensures var s' := Step(c, s, Restart(capacity, up)); s'.pending == [] && s'.counter == 1 && s'.rows == s.rows
  {
    BadReloadIsEmpty(c, s.rows, capacity, up);
  }

  lemma StoredIdIsSmall(s: State, m: nat)
    requires Inv(s) && HasId(s.rows, m)
    ensures 0 < m < 0x7fff_ffff_ffff_ffff
  {
  }

  lemma PushesReplace(c: Codec, s: State, m: nat, request: Request, response: Option<Response>, n: Nonces)
    requires s.pending == [] && s.counter == 1 && Descending(s.rows) && 0 < m < 0x7fff_ffff_ffff_ffff
    requires WriteRow(c, Labelled(m, request, response), n).Ok?
    ensures var s' := Run(c, s, Pushes(request, response, n, m));
      HoldsOnly(s'.rows, m, WriteRow(c, Labelled(m, request, response), n).value)
  {
    var pushes := Pushes(request, response, n, m - 1);
    PushesCount(c, s, request, response, n, m - 1);
    RunAppend(c, s, pushes, WholePush(request, response, n));
    LastPushReplaces(c, Run(c, s, pushes), m, request, response, n);
  }

  /** The table holds one row of id `m`, that of an entry. */
  ghost predicate HoldsOnly(rows: seq<Row>, m: nat, row: Row) {
    row.id == m && row in rows && forall other :: other in rows && other.id == m ==> other == row
  }

  lemma LastPushReplaces(c: Codec, s: State, m: nat, request: Request, response: Option<Response>, n: Nonces)
    requires s.pending == [] && s.counter == m < 0x7fff_ffff_ffff_ffff && Descending(s.rows)
    requires WriteRow(c, Labelled(m, request, response), n).Ok?
    ensures HoldsOnly(Run(c, s, WholePush(request, response, n)).rows, m,
                      WriteRow(c, Labelled(m, request, response), n).value)
  {
    OnePush(c, s, request, response, n);
    UpsertRows(s.rows, WriteRow(c, Labelled(m, request, response), n).value);
    WrittenId(c, Labelled(m, request, response), n);
  }

  lemma InsertKeepsInv(c: Codec, s: State, i: nat, n: Nonces, up: bool)
    requires Inv(s) && i < |s.pending| && s.pending[i].inWindow
    ensures Inv(Step(c, s, InsertRow(i, n, up)))
  {
    var s' := Step(c, s, InsertRow(i, n, up));
    assert forall k :: 0 <= k < |s'.pending| ==> s'.pending[k] == s.pending[if k < i then k else k + 1];
    var row := WriteRow(c, s.pending[i].entry, n);
    if up && row.Ok? {
      WrittenId(c, s.pending[i].entry, n);
      InsertedRowFits(s, s.pending[i].entry.request.id, row.value);
      forall k | 0 <= k < |s'.pending|
        ensures !HasId(s'.rows, s'.pending[k].entry.request.id)
      {
        UpsertHasId(s.rows, row.value, s'.pending[k].entry.request.id);
      }
    }
  }

  lemma InsertedRowFits(s: State, id: nat, row: Row)
    requires Inv(s) && row.id == id && 1 <= id < s.counter
    ensures Descending(Upsert(s.rows, row))
    ensures forall k :: 0 <= k < |Upsert(s.rows, row)| ==> 1 <= Upsert(s.rows, row)[k].id < s.counter
  {
    UpsertDescending(s.rows, row);
    UpsertRows(s.rows, row);
    var rows := Upsert(s.rows, row);
    forall k | 0 <= k < |rows|
      ensures 1 <= rows[k].id < s.counter
    {
      assert rows[k] in rows;
    }
  }

  lemma TakeIdKeepsInv(c: Codec, s: State, request: Request, response: Option<Response>)
    requires Inv(s) && s.counter < 0x7fff_ffff_ffff_ffff
    ensures Inv(Step(c, s, TakeId(request, response)))
  {
  }

  lemma EnterKeepsInv(c: Codec, s: State, i: nat)
    requires Inv(s)
    ensures Inv(Step(c, s, EnterWindow(i)))
  {
  }

  lemma StepKeepsInv(c: Codec, s: State, e: Event)
    requires Inv(s) && GoodEvent(c, s, e)
    ensures Inv(Step(c, s, e))
  {
    match e
    case TakeId(request, response) => TakeIdKeepsInv(c, s, request, response);
    case EnterWindow(i) => EnterKeepsInv(c, s, i);
    case InsertRow(i, n, up) =>
      if i < |s.pending| && s.pending[i].inWindow {
        InsertKeepsInv(c, s, i, n, up);
      }
    case Restart(capacity, up) => RestartSafeIff(c, s, capacity, up);
    case ClearWindow =>
    case ClearTable(up) =>
  }

  lemma {:induction false} RunKeepsInv(c: Codec, s: State, es: seq<Event>)
    requires Inv(s) && GoodRun(c, s, es)
    ensures Inv(Run(c, s, es))
    decreases |es|
  {
    if es != [] {
      StepKeepsInv(c, s, es[0]);
      RunKeepsInv(c, Step(c, s, es[0]), es[1..]);
    }
  }

  /** Over any run of interleaved pushes, clears and restarts, failing inserts and clears included,
      every stored id is below the counter and no insert ever replaces an earlier capture. */
  lemma NeverOverwrites(c: Codec, capacity: nat, es: seq<Event>, e: Event)
    requires GoodRun(c, Start(capacity), es)
    ensures var s := Run(c, Start(capacity), es); var s' := Step(c, s, e);
      && (forall k :: 0 <= k < |s.rows| ==> s.rows[k].id < s.counter)
      && (e.InsertRow? ==> (forall row :: row in s.rows ==> row in s'.rows) && |s.rows| <= |s'.rows| <= |s.rows| + 1
                           && (s'.rows != s.rows ==> |s'.rows| == |s.rows| + 1))
  {
    RunKeepsInv(c, Start(capacity), es);
    var s := Run(c, Start(capacity), es);
    if e.InsertRow? && e.i < |s.pending| && s.pending[e.i].inWindow {
      var row := WriteRow(c, s.pending[e.i].entry, e.nonces);
      if e.up && row.Ok? {
        WrittenId(c, s.pending[e.i].entry, e.nonces);
        UpsertSize(s.rows, row.value);
        UpsertRows(s.rows, row.value);
        HasIdIn(s.rows, row.value.id);
      }
    }
  }

  // ---------------------------------------------------------------------------------------------
  // The order of a reloaded window

  /** A restart loads the stored rows oldest first, while pushes put the newest first: with ids all
      different, the window has the order of the running program only if it can hold at most one entry. */
  lemma ReloadReversesWindow(c: Codec, rows: seq<Row>, capacity: nat)
    requires Descending(rows) && SmallIds(rows)
    requires QueryRows(c, AllUpTo(capacity), rows).Ok?
    ensures var newestFirst := QueryRows(c, AllUpTo(capacity), rows).value;
      && Loaded(c, rows, capacity, true) == Reverse(newestFirst)
      && (Loaded(c, rows, capacity, true) == newestFirst <==> capacity <= 1 || |rows| <= 1)
  {
    LoadedIds(c, rows, capacity);
    var newestFirst := QueryRows(c, AllUpTo(capacity), rows).value;
    if capacity > 1 && |rows| > 1 {
      var window := Reverse(newestFirst);
      assert window[0].request.id != window[|window|-1].request.id;
    } else {
      assert Reverse(newestFirst) == newestFirst;
    }
  }

  // ---------------------------------------------------------------------------------------------
  // In-memory and stored queries

  /** Whole pushes and clears, each finished before the next. */
  datatype Feed = Push(request: Request, response: Option<Response>, nonces: Nonces) | Clear

  datatype Both = Both(entries: seq<Entry>, counter: nat, rows: seq<Row>)

  function FeedOne(c: Codec, capacity: nat, s: Both, f: Feed): Both {
    match f
    case Clear => s.(entries := [], rows := [])
    case Push(request, response, n) =>
      var entry := Labelled(s.counter, request, response);
      Both(Take([entry] + s.entries, capacity), (s.counter + 1) % 0x1_0000_0000_0000_0000,
           Inserted(c, s.rows, entry, n, true))
  }

  function FeedAll(c: Codec, capacity: nat, s: Both, fs: seq<Feed>): Both
    decreases |fs|
  {
    if fs == [] then s else FeedAll(c, capacity, FeedOne(c, capacity, s, fs[0]), fs[1..])
  }

  /** Every push can be stored and read back; ids stay below 2^63. */
  predicate Storable(c: Codec, counter: nat, fs: seq<Feed>)
    decreases |fs|
  {
    fs != [] ==>
      && (fs[0].Push? ==>
            var entry := Labelled(counter, fs[0].request, fs[0].response);
            && counter < 0x7fff_ffff_ffff_ffff && InRange(entry) && Readable(c, entry)
            && WriteRow(c, entry, fs[0].nonces).Ok?)
      && Storable(c, if fs[0].Push? then counter + 1 else counter, fs[1..])
  }

  function StoredAll(entries: seq<Entry>): (r: seq<Entry>)
    ensures |r| == |entries|
  {
    if entries == [] then [] else [Stored(entries[0])] + StoredAll(entries[1..])
  }

  /** The rows read back to `all`, of which the window is the newest part. */
  ghost predicate InStep(c: Codec, capacity: nat, s: Both, all: seq<Entry>) {
    && s.entries == Take(all, capacity)
    && |s.rows| == |all|
    && (forall k :: 0 <= k < |all| ==> ReadRow(c, s.rows[k]) == Ok(Stored(all[k])) && RowOf(c, s.rows[k], all[k]))
    && (forall k :: 0 <= k < |s.rows| ==> s.rows[k].id < s.counter)
  }

  /** The columns of a row that filters look at. */
  predicate RowOf(c: Codec, row: Row, entry: Entry) {
    && row.verb == entry.request.verb && row.tls == (if entry.request.tls then 1 else 0)
    && row.respStatus == if entry.response.Some? then Some(entry.response.value.statusCode) else None
  }

  lemma PushedRow(c: Codec, entry: Entry, n: Nonces)
    requires Lawful(c) && entry.request.id < 0x7fff_ffff_ffff_ffff && InRange(entry) && Readable(c, entry)
    requires WriteRow(c, entry, n).Ok?
    ensures var row := WriteRow(c, entry, n).value;
      ReadRow(c, row) == Ok(Stored(entry)) && RowOf(c, row, entry) && row.id == entry.request.id
  {
    RowRoundTrip(c, entry, n);
    WrittenId(c, entry, n);
  }

  lemma TakeOfTake<T>(x: T, s: seq<T>, n: nat)
    requires n >= 1
    ensures Take([x] + Take(s, n), n) == Take([x] + s, n)
  {
  }

  lemma PushInStep(c: Codec, capacity: nat, s: Both, entry: Entry, row: Row, all: seq<Entry>)
    requires capacity >= 1 && InStep(c, capacity, s, all)
    requires ReadRow(c, row) == Ok(Stored(entry)) && RowOf(c, row, entry) && row.id == s.counter
    ensures InStep(c, capacity, Both(Take([entry] + s.entries, capacity), s.counter + 1, [row] + s.rows), [entry] + all)
  {
    TakeOfTake(entry, all, capacity);
    var rows, entries := [row] + s.rows, [entry] + all;
    forall k | 0 <= k < |entries|
      ensures ReadRow(c, rows[k]) == Ok(Stored(entries[k])) && RowOf(c, rows[k], entries[k])
      ensures rows[k].id < s.counter + 1
    {
      if k > 0 {
        assert rows[k] == s.rows[k-1] && entries[k] == all[k-1];
      }
    }
  }

  lemma FeedInStep(c: Codec, capacity: nat, s: Both, f: Feed, all: seq<Entry>) returns (all': seq<Entry>)
    requires Lawful(c) && capacity >= 1 && InStep(c, capacity, s, all) && Storable(c, s.counter, [f])
    ensures InStep(c, capacity, FeedOne(c, capacity, s, f), all')
    ensures FeedOne(c, capacity, s, f).counter == if f.Push? then s.counter + 1 else s.counter
  {
    match f
    case Clear => all' := [];
    case Push(request, response, n) =>
      var entry := Labelled(s.counter, request, response);
      var row := WriteRow(c, entry, n);
      PushedRow(c, entry, n);
      assert Upsert(s.rows, row.value) == [row.value] + s.rows;
      PushInStep(c, capacity, s, entry, row.value, all);
      all' := [entry] + all;
      assert FeedOne(c, capacity, s, f)
          == Both(Take([entry] + s.entries, capacity), s.counter + 1, [row.value] + s.rows);
  }

  lemma {:induction false} FeedAllInStep(c: Codec, capacity: nat, s: Both, fs: seq<Feed>, all: seq<Entry>)
      returns (all': seq<Entry>)
    requires Lawful(c) && capacity >= 1 && InStep(c, capacity, s, all) && Storable(c, s.counter, fs)
    ensures InStep(c, capacity, FeedAll(c, capacity, s, fs), all')
    decreases |fs|
  {
    if fs == [] {
      all' := all;
    } else {
      assert [fs[0]][1..] == [];
      all' := FeedInStep(c, capacity, s, fs[0], all);
      all' := FeedAllInStep(c, capacity, FeedOne(c, capacity, s, fs[0]), fs[1..], all');
    }
  }

  /** Filters that do not go through LIKE: on method, TLS and status, with a limit. */
  predicate Comparable(q: Query) {
    q.host.None? && q.search.None? && q.limit.Some?
  }

  /** In memory an absent response counts as status 0; in the table it has no status. */
  predicate Kept(q: Query, entry: Entry) {
    Matches(q, entry) && (q.status == Some(0) ==> entry.response.Some?)
  }

  function KeptOf(q: Query, entries: seq<Entry>): seq<Entry> {
    if entries == [] then [] else (if Kept(q, entries[0]) then [entries[0]] else []) + KeptOf(q, entries[1..])
  }

  lemma {:induction false} SelectionsAgree(c: Codec, q: Query, rows: seq<Row>, all: seq<Entry>)
    requires Comparable(q) && |rows| == |all|
    requires forall k :: 0 <= k < |all| ==> ReadRow(c, rows[k]) == Ok(Stored(all[k])) && RowOf(c, rows[k], all[k])
    ensures |Select(c, q, rows)| == |KeptOf(q, all)|
    ensures forall k :: 0 <= k < |KeptOf(q, all)| ==> ReadRow(c, Select(c, q, rows)[k]) == Ok(Stored(KeptOf(q, all)[k]))
  {
    if rows != [] {
      SelectionsAgree(c, q, rows[1..], all[1..]);
      assert Selects(c, q, rows[0]) <==> Kept(q, all[0]);
    }
  }

  lemma {:induction false} ReadAllStored(c: Codec, rows: seq<Row>, all: seq<Entry>)
    requires |rows| == |all| && forall k :: 0 <= k < |all| ==> ReadRow(c, rows[k]) == Ok(Stored(all[k]))
    ensures ReadAll(c, rows) == Ok(StoredAll(all))
  {
    if rows != [] {
      ReadAllStored(c, rows[1..], all[1..]);
    }
  }

  lemma {:induction false} KeptPrefix(q: Query, entries: seq<Entry>, n: nat)
    requires n <= |entries|
    ensures KeptOf(q, entries[..n]) <= KeptOf(q, entries)
    decreases n
  {
    if n > 0 {
      assert entries[..n][1..] == entries[1..][..n-1];
      KeptPrefix(q, entries[1..], n - 1);
    }
  }

  /** A filter on status 0 finds only entries with a response. */
  predicate AllAnswered(q: Query, entries: seq<Entry>) {
    q.status == Some(0) ==> forall k :: 0 <= k < |entries| ==> entries[k].response.Some?
  }

  lemma {:induction false} KeptAreAnswered(q: Query, entries: seq<Entry>)
    ensures AllAnswered(q, KeptOf(q, entries))
  {
    if entries != [] {
      KeptAreAnswered(q, entries[1..]);
    }
  }

  /** As long as its answers have responses, the in-memory filter keeps what the table keeps. */
  lemma {:induction false} AnsweredAreKept(q: Query, entries: seq<Entry>, n: nat)
    requires AllAnswered(q, Take(Filter(q, entries), n))
    ensures Take(Filter(q, entries), n) <= Take(KeptOf(q, entries), n)
    decreases |entries|
  {
    if entries != [] {
      var rest := Filter(q, entries[1..]);
      if !Matches(q, entries[0]) {
        assert Filter(q, entries) == rest && KeptOf(q, entries) == KeptOf(q, entries[1..]);
        AnsweredAreKept(q, entries[1..], n);
      } else if n > 0 {
        TakeCons(entries[0], rest, n);
        AnsweredSplit(q, entries[0], Take(rest, n - 1));
        AnsweredAreKept(q, entries[1..], n - 1);
        TakeCons(entries[0], KeptOf(q, entries[1..]), n);
      }
    }
  }

  lemma AnsweredSplit(q: Query, entry: Entry, rest: seq<Entry>)
    requires AllAnswered(q, [entry] + rest)
    ensures AllAnswered(q, rest) && (q.status == Some(0) ==> entry.response.Some?)
  {
    assert ([entry] + rest)[0] == entry;
    assert forall k {:trigger rest[k]} :: 0 <= k < |rest| ==> ([entry] + rest)[k + 1] == rest[k];
  }

  lemma TakeCons<T>(x: T, s: seq<T>, n: nat)
    requires n > 0
    ensures Take([x] + s, n) == [x] + Take(s, n - 1)
  {
  }

  lemma TakePrefix<T>(a: seq<T>, b: seq<T>, n: nat)
    requires a <= b
    ensures Take(a, n) <= Take(b, n)
  {
  }

  lemma {:induction false} StoredAllPrefix(a: seq<Entry>, b: seq<Entry>)
    requires a <= b
    ensures StoredAll(a) <= StoredAll(b)
  {
    if a != [] {
      assert a[1..] <= b[1..];
      StoredAllPrefix(a[1..], b[1..]);
    }
  }

  lemma {:induction false} StoredAllAt(entries: seq<Entry>, k: nat)
    requires k < |entries|
    ensures StoredAll(entries)[k] == Stored(entries[k])
  {
    if k > 0 {
      StoredAllAt(entries[1..], k - 1);
    }
  }

  lemma PrefixIsAnswered(q: Query, answers: seq<Entry>, stored: seq<Entry>)
    requires StoredAll(answers) <= StoredAll(stored) && AllAnswered(q, stored)
    ensures AllAnswered(q, answers)
  {
    forall k | 0 <= k < |answers|
      ensures q.status == Some(0) ==> answers[k].response.Some?
    {
      StoredAllAt(answers, k);
      StoredAllAt(stored, k);
      assert StoredAll(answers)[k] == StoredAll(stored)[k];
    }
  }

  /** Fed the same pushes and clears from empty, the in-memory answer to a query on method, TLS or status,
      with its entries as storage keeps them, is a prefix of the stored answer exactly if the query is not
      for status 0 or finds only entries with a response. */
  lemma MemoryIsPrefixOfStorage(c: Codec, capacity: nat, fs: seq<Feed>, q: Query)
    requires Lawful(c) && capacity >= 1 && Storable(c, 1, fs) && Comparable(q)
    ensures var s := FeedAll(c, capacity, Both([], 1, []), fs);
      && QueryRows(c, q, s.rows).Ok?
      && (AllAnswered(q, QueryWindow(q, s.entries))
          <==> StoredAll(QueryWindow(q, s.entries)) <= QueryRows(c, q, s.rows).value)
  {
    var all := FeedAllInStep(c, capacity, Both([], 1, []), fs, []);
    var s := FeedAll(c, capacity, Both([], 1, []), fs);
    var n := q.limit.value;
    SelectionsAgree(c, q, s.rows, all);
    ReadAllStored(c, Take(Select(c, q, s.rows), n), Take(KeptOf(q, all), n));
    PrefixIff(q, s.entries, all, n);
  }

  lemma PrefixIff(q: Query, window: seq<Entry>, all: seq<Entry>, n: nat)
    requires window <= all
    ensures StoredAll(Take(Filter(q, window), n)) <= StoredAll(Take(KeptOf(q, all), n))
      <==> AllAnswered(q, Take(Filter(q, window), n))
  {
    KeptAreAnswered(q, all);
    if AllAnswered(q, Take(Filter(q, window), n)) {
      AnsweredAreKept(q, window, n);
      KeptPrefix(q, all, |window|);
      assert all[..|window|] == window;
      TakePrefix(KeptOf(q, window), KeptOf(q, all), n);
      StoredAllPrefix(Take(Filter(q, window), n), Take(KeptOf(q, all), n));
    }
    if StoredAll(Take(Filter(q, window), n)) <= StoredAll(Take(KeptOf(q, all), n)) {
      PrefixIsAnswered(q, Take(Filter(q, window), n), Take(KeptOf(q, all), n));
    }
  }

  /** Overlapping pushes can enter the window in another order than their identifiers, which the table
      follows: the in-memory answer then is no prefix of the stored one. */
  lemma OverlappingPushesReorder(c: Codec, request: Request, response: Option<Response>, n: Nonces)
    requires Lawful(c) && WriteRow(c, Labelled(1, request, response), n).Ok?
    requires WriteRow(c, Labelled(2, request, response), n).Ok?
    ensures var s := Run(c, Start(0), TwoPushes(request, response, n));
      && s.entries == [Labelled(1, request, response), Labelled(2, request, response)]
      && |s.rows| == 2 && s.rows[0].id == 2 && s.rows[1].id == 1
  {
    var take, es := TakeId(request, response), TwoPushes(request, response, n);
    var one, two := Labelled(1, request, response), Labelled(2, request, response);
    var rest := [EnterWindow(1), EnterWindow(0), InsertRow(0, n, true), InsertRow(0, n, true)];
    assert es == [take, take] + rest;
    RunAppend(c, Start(0), [take, take], rest);
    var s1 := Run(c, Start(0), [take, take]);
    assert [take, take][1..] == [take];
    RunOfOne(c, Step(c, Start(0), take), take);
    assert s1 == State(DEFAULT_CAPACITY, [], 3, [], [Pending(one, false), Pending(two, false)]);
    RunOfFour(c, s1, EnterWindow(1), EnterWindow(0), InsertRow(0, n, true), InsertRow(0, n, true));
    EnteredInTurn(c, s1, one, two);
    var s2 := Step(c, Step(c, s1, EnterWindow(1)), EnterWindow(0));
    InsertedInTurn(c, s2, one, two, n);
  }

  function TwoPushes(request: Request, response: Option<Response>, n: Nonces): seq<Event> {
    [TakeId(request, response), TakeId(request, response), EnterWindow(1), EnterWindow(0),
     InsertRow(0, n, true), InsertRow(0, n, true)]
  }

  lemma RunOfFour(c: Codec, s: State, e1: Event, e2: Event, e3: Event, e4: Event)
    ensures Run(c, s, [e1, e2, e3, e4]) == Step(c, Step(c, Step(c, Step(c, s, e1), e2), e3), e4)
  {
    RunAppend(c, s, [e1], [e2, e3, e4]);
    RunAppend(c, Step(c, s, e1), [e2], [e3, e4]);
    RunAppend(c, Step(c, Step(c, s, e1), e2), [e3], [e4]);
    assert [e1, e2, e3, e4] == [e1] + [e2, e3, e4] && [e2, e3, e4] == [e2] + [e3, e4] && [e3, e4] == [e3] + [e4];
    RunOfOne(c, s, e1);
    RunOfOne(c, Step(c, s, e1), e2);
    RunOfOne(c, Step(c, Step(c, s, e1), e2), e3);
    RunOfOne(c, Step(c, Step(c, Step(c, s, e1), e2), e3), e4);
  }

  lemma EnteredInTurn(c: Codec, s: State, one: Entry, two: Entry)
    requires s.capacity >= 2 && s.entries == [] && s.pending == [Pending(one, false), Pending(two, false)]
    ensures var s' := Step(c, Step(c, s, EnterWindow(1)), EnterWindow(0));
      s' == s.(entries := [one, two], pending := [Pending(one, true), Pending(two, true)])
  {
    assert Step(c, s, EnterWindow(1)) == s.(entries := [two], pending := [Pending(one, false), Pending(two, true)]);
  }

  lemma InsertedInTurn(c: Codec, s: State, one: Entry, two: Entry, n: Nonces)
    requires s.rows == [] && s.pending == [Pending(one, true), Pending(two, true)]
    requires one.request.id == 1 && two.request.id == 2 && WriteRow(c, one, n).Ok? && WriteRow(c, two, n).Ok?
    ensures var s' := Step(c, Step(c, s, InsertRow(0, n, true)), InsertRow(0, n, true));
      s'.entries == s.entries && |s'.rows| == 2 && s'.rows[0].id == 2 && s'.rows[1].id == 1
  {
    WrittenId(c, one, n);
    WrittenId(c, two, n);
    var s1 := Step(c, s, InsertRow(0, n, true));
    assert s1.rows == [WriteRow(c, one, n).value] && s1.pending == [Pending(two, true)];
  }
}
