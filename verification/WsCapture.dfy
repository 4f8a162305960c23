/** The WebSocket frame store: a global and a per-connection limit, enforced by two evictions in turn. */
module WsCapture {
  import opened Options

  const MAX_PAYLOAD_SIZE: nat := 10 * 1024 * 1024

  datatype FrameType = Text | Binary | Ping | Pong | Close
  datatype Direction = ClientToServer | ServerToClient

  datatype Frame = Frame(id: int, connectionId: string, timestamp: int, direction: Direction,
                         frameType: FrameType, payload: seq<bv8>, masked: bool)

  datatype Result<T> = Ok(value: T) | PayloadTooLarge(size: nat)

  datatype Connection = Connection(id: string, url: string, establishedAt: int, closedAt: Option<int>, framesCount: nat)

  // ---------------------------------------------------------------------------------------------
  // The frame list

  /** The frames of one connection, in order. */
  function FramesOf(frames: seq<Frame>, c: string): seq<Frame> {
    if frames == [] then []
    else
      var last := |frames| - 1;
      FramesOf(frames[..last], c) + if frames[last].connectionId == c then [frames[last]] else []
  }

  function Without(frames: seq<Frame>, i: nat): seq<Frame>
    requires i < |frames|
  {
    frames[..i] + frames[i+1..]
  }

  /** The first frame of a connection. */
  function First(frames: seq<Frame>, c: string): (i: nat)
    requires FramesOf(frames, c) != []
    ensures i < |frames| && frames[i].connectionId == c
    ensures forall k :: 0 <= k < i ==> frames[k].connectionId != c
  {
    var last := |frames| - 1;
    if FramesOf(frames[..last], c) != [] then First(frames[..last], c)
    else
      NoFrames(frames[..last], c);
      last
  }

  lemma {:induction false} NoFrames(frames: seq<Frame>, c: string)
    ensures FramesOf(frames, c) == [] <==> forall k :: 0 <= k < |frames| ==> frames[k].connectionId != c
  {
    if frames != [] {
      var last := |frames| - 1;
      NoFrames(frames[..last], c);
      assert frames == frames[..last] + [frames[last]];
    }
  }

  function PushBounded(frames: seq<Frame>, f: Frame, maxFrames: nat): seq<Frame> {
    var pushed := frames + [f];
    if |pushed| > maxFrames then pushed[1..] else pushed
  }

  function EvictOwn(frames: seq<Frame>, c: string, maxPerConnection: nat): seq<Frame> {
    if |FramesOf(frames, c)| > maxPerConnection then Without(frames, First(frames, c)) else frames
  }

  /** Push, evict the oldest frame of all if there are too many, then the oldest of this connection. */
  function Admit(frames: seq<Frame>, f: Frame, maxFrames: nat, maxPerConnection: nat): seq<Frame> {
    EvictOwn(PushBounded(frames, f, maxFrames), f.connectionId, maxPerConnection)
  }

  /** The first connection of that id counts one frame more. */
  function Bump(connections: seq<Connection>, c: string): seq<Connection> {
    if connections == [] then []
    else if connections[0].id == c
    then [connections[0].(framesCount := connections[0].framesCount + 1)] + connections[1..]
    else [connections[0]] + Bump(connections[1..], c)
  }

  function CloseFirst(connections: seq<Connection>, c: string, now: int): seq<Connection> {
    if connections == [] then []
    else if connections[0].id == c then [connections[0].(closedAt := Some(now))] + connections[1..]
    else [connections[0]] + CloseFirst(connections[1..], c, now)
  }

  /** Counting and closing change one field of the connection registered first under an id. */
  lemma {:induction false} FirstRegistered(connections: seq<Connection>, c: string, now: int, i: nat)
    requires i < |connections| && connections[i].id == c && forall k :: 0 <= k < i ==> connections[k].id != c
    ensures Bump(connections, c) == connections[i := connections[i].(framesCount := connections[i].framesCount + 1)]
    ensures CloseFirst(connections, c, now) == connections[i := connections[i].(closedAt := Some(now))]
    decreases i
  {
    if i > 0 {
      FirstRegistered(connections[1..], c, now, i - 1);
    }
  }

  lemma {:induction false} Unregistered(connections: seq<Connection>, c: string, now: int)
    requires forall k :: 0 <= k < |connections| ==> connections[k].id != c
    ensures Bump(connections, c) == connections == CloseFirst(connections, c, now)
  {
    if connections != [] {
      Unregistered(connections[1..], c, now);
    }
  }

  // ---------------------------------------------------------------------------------------------
  // The store

  class WsCapture {
    var connections: seq<Connection>
    var frames: seq<Frame>
    const maxFrames: nat
    const maxPerConnection: nat

    constructor WithLimits(maxFrames: nat, maxPerConnection: nat)
      ensures connections == [] && frames == []
      ensures this.maxFrames == maxFrames && this.maxPerConnection == maxPerConnection
    {
      connections, frames := [], [];
      this.maxFrames, this.maxPerConnection := maxFrames, maxPerConnection;
    }

    method RegisterConnection(id: string, url: string, now: int)
      modifies this`connections
      ensures connections == old(connections) + [Connection(id, url, now, None, 0)]
    {
      connections := connections + [Connection(id, url, now, None, 0)];
    }

    method CloseConnection(id: string, now: int)
      modifies this`connections
      ensures connections == CloseFirst(old(connections), id, now)
    {
      for i := 0 to |connections|
        invariant connections == old(connections)
        invariant forall k :: 0 <= k < i ==> connections[k].id != id
      {
        if connections[i].id == id {
          FirstRegistered(connections, id, now, i);
          connections := connections[i := connections[i].(closedAt := Some(now))];
          return;
        }
      }
      Unregistered(connections, id, now);
    }

    method EvictOldest(connectionId: string)
      requires FramesOf(frames, connectionId) != []
      modifies this`frames
      ensures frames == Without(old(frames), First(old(frames), connectionId))
    {
      for i := 0 to |frames|
        invariant frames == old(frames)
        invariant forall k :: 0 <= k < i ==> frames[k].connectionId != connectionId
      {
        if frames[i].connectionId == connectionId {
          assert First(frames, connectionId) == i;
          frames := frames[..i] + frames[i+1..];
          return;
        }
      }
      NoFrames(frames, connectionId);
    }

    method CountOne(connectionId: string)
      modifies this`connections
      ensures connections == Bump(old(connections), connectionId)
    {
      for i := 0 to |connections|
        invariant connections == old(connections)
        invariant forall k :: 0 <= k < i ==> connections[k].id != connectionId
      {
        if connections[i].id == connectionId {
          FirstRegistered(connections, connectionId, 0, i);
          connections := connections[i := connections[i].(framesCount := connections[i].framesCount + 1)];
          return;
        }
      }
      Unregistered(connections, connectionId, 0);
    }

    /** The part of a capture done under the write lock on the frames. */
    method StoreFrame(frame: Frame)
      modifies this`frames
      ensures frames == Admit(old(frames), frame, maxFrames, maxPerConnection)
    {
      frames := frames + [frame];
      if |frames| > maxFrames {
        frames := frames[1..];
      }
      assert frames == PushBounded(old(frames), frame, maxFrames);
      var own := GetFrames(frame.connectionId);
      if |own| > maxPerConnection {
        EvictOldest(frame.connectionId);
      }
    }

    method CaptureFrame(connectionId: string, direction: Direction, frameType: FrameType, payload: seq<bv8>,
                        masked: bool, now: int) returns (r: Result<int>)
      modifies this
      ensures |payload| > 10_485_760 ==>
                r == PayloadTooLarge(|payload|) && frames == old(frames) && connections == old(connections)
      ensures |payload| <= 10_485_760 ==>
                && r == Ok(|old(frames)| + 1)
                && frames == Admit(old(frames),
                                   Frame(r.value, connectionId, now, direction, frameType, payload, masked),
                                   maxFrames, maxPerConnection)
                && connections == Bump(old(connections), connectionId)
    {
      if |payload| > MAX_PAYLOAD_SIZE {
        return PayloadTooLarge(|payload|);
      }
      var frameId := |frames| + 1;
      StoreFrame(Frame(frameId, connectionId, now, direction, frameType, payload, masked));
      CountOne(connectionId);
      r := Ok(frameId);
    }

    method GetFrames(connectionId: string) returns (found: seq<Frame>)
      ensures found == FramesOf(frames, connectionId)
    {
      found := [];
      for i := 0 to |frames|
        invariant found == FramesOf(frames[..i], connectionId)
      {
        assert frames[..i + 1][..i] == frames[..i];
        if frames[i].connectionId == connectionId {
          found := found + [frames[i]];
        }
      }
      assert frames[..|frames|] == frames;
    }

    method Clear()
      modifies this
      ensures connections == [] && frames == []
    {
      connections := [];
      frames := [];
    }
  }

  // ---------------------------------------------------------------------------------------------
  // One admission

  lemma {:induction false} FramesOfAppend(a: seq<Frame>, b: seq<Frame>, c: string)
    ensures FramesOf(a + b, c) == FramesOf(a, c) + FramesOf(b, c)
    decreases |b|
  {
    if b == [] {
      assert a + b == a;
    } else {
      var last := |b| - 1;
      assert (a + b)[..|a + b| - 1] == a + b[..last];
      FramesOfAppend(a, b[..last], c);
    }
  }

  lemma FramesOfOne(f: Frame, c: string)
    ensures FramesOf([f], c) == if f.connectionId == c then [f] else []
  {
  }

  lemma FramesOfThree(a: seq<Frame>, f: Frame, b: seq<Frame>, c: string)
    ensures FramesOf(a + [f] + b, c) == FramesOf(a, c) + (if f.connectionId == c then [f] else []) + FramesOf(b, c)
  {
    FramesOfAppend(a + [f], b, c);
    FramesOfAppend(a, [f], c);
    FramesOfOne(f, c);
  }

  /** Removing the first frame of a connection drops its head and touches no other connection. */
  lemma WithoutFirst(frames: seq<Frame>, i: nat, c: string)
    requires i < |frames| && forall k :: 0 <= k < i ==> frames[k].connectionId != frames[i].connectionId
    ensures frames[i].connectionId == c ==>
              FramesOf(frames, c) != [] && FramesOf(Without(frames, i), c) == FramesOf(frames, c)[1..]
    ensures frames[i].connectionId != c ==> FramesOf(Without(frames, i), c) == FramesOf(frames, c)
  {
    var a, b := frames[..i], frames[i+1..];
    assert frames == a + [frames[i]] + b;
    WithoutMiddle(a, frames[i], b, c);
  }

  lemma WithoutMiddle(a: seq<Frame>, f: Frame, b: seq<Frame>, c: string)
    requires forall k :: 0 <= k < |a| ==> a[k].connectionId != f.connectionId
    ensures f.connectionId == c ==> FramesOf(a + [f] + b, c) == [f] + FramesOf(a + b, c)
    ensures f.connectionId != c ==> FramesOf(a + [f] + b, c) == FramesOf(a + b, c)
  {
    FramesOfThree(a, f, b, c);
    FramesOfAppend(a, b, c);
    if f.connectionId == c {
      NoFrames(a, c);
    }
  }

  lemma PushBoundedFrames(frames: seq<Frame>, f: Frame, maxFrames: nat, c: string)
    ensures var own := FramesOf(frames, c) + if f.connectionId == c then [f] else [];
      var r := FramesOf(PushBounded(frames, f, maxFrames), c);
      r == own || (own != [] && r == own[1..])
  {
    FramesOfAppend(frames, [f], c);
    FramesOfOne(f, c);
    if |frames| + 1 > maxFrames {
      WithoutFirst(frames + [f], 0, c);
      assert Without(frames + [f], 0) == (frames + [f])[1..];
    }
  }

  lemma EvictOwnFrames(frames: seq<Frame>, c: string, maxPerConnection: nat, d: string)
    ensures var r := FramesOf(EvictOwn(frames, c, maxPerConnection), d); var own := FramesOf(frames, d);
      r == if d == c && |own| > maxPerConnection then own[1..] else own
  {
    if |FramesOf(frames, c)| > maxPerConnection {
      WithoutFirst(frames, First(frames, c), d);
    }
  }

  ghost predicate Bounded(frames: seq<Frame>, maxFrames: nat, maxPerConnection: nat) {
    |frames| <= maxFrames && forall c :: |FramesOf(frames, c)| <= maxPerConnection
  }

  lemma AdmitKeepsBounds(frames: seq<Frame>, f: Frame, maxFrames: nat, maxPerConnection: nat)
    requires Bounded(frames, maxFrames, maxPerConnection)
    ensures Bounded(Admit(frames, f, maxFrames, maxPerConnection), maxFrames, maxPerConnection)
  {
    var pushed := PushBounded(frames, f, maxFrames);
    forall c
      ensures |FramesOf(Admit(frames, f, maxFrames, maxPerConnection), c)| <= maxPerConnection
    {
      PushBoundedFrames(frames, f, maxFrames, c);
      EvictOwnFrames(pushed, f.connectionId, maxPerConnection, c);
    }
  }

  predicate Suffix<T(==)>(a: seq<T>, b: seq<T>) {
    |a| <= |b| && b[|b| - |a|..] == a
  }

  lemma SuffixTail<T>(a: seq<T>, b: seq<T>)
    requires Suffix(a, b) && a != []
    ensures Suffix(a[1..], b)
  {
  }

  lemma SuffixAppend<T>(a: seq<T>, b: seq<T>, x: seq<T>)
    requires Suffix(a, b)
    ensures Suffix(a + x, b + x)
  {
  }

  /** What is kept of a connection is a suffix of what it was given, although one admission may evict
      two frames. */
  lemma AdmitKeepsSuffix(frames: seq<Frame>, f: Frame, maxFrames: nat, maxPerConnection: nat, log: seq<Frame>,
                         c: string)
    requires Suffix(FramesOf(frames, c), FramesOf(log, c))
    ensures Suffix(FramesOf(Admit(frames, f, maxFrames, maxPerConnection), c), FramesOf(log + [f], c))
  {
    var x := if f.connectionId == c then [f] else [];
    var own, pushed := FramesOf(frames, c) + x, PushBounded(frames, f, maxFrames);
    FramesOfAppend(log, [f], c);
    FramesOfOne(f, c);
    SuffixAppend(FramesOf(frames, c), FramesOf(log, c), x);
    PushBoundedFrames(frames, f, maxFrames, c);
    EvictOwnFrames(pushed, f.connectionId, maxPerConnection, c);
    if own != [] {
      SuffixTail(own, FramesOf(log + [f], c));
    }
    if FramesOf(pushed, c) != [] {
      SuffixTail(FramesOf(pushed, c), FramesOf(log + [f], c));
    }
  }

  /** A new frame survives its own admission exactly when both limits are positive. */
  lemma SurvivesIffPositive(frames: seq<Frame>, f: Frame, maxFrames: nat, maxPerConnection: nat)
    requires Bounded(frames, maxFrames, maxPerConnection)
    ensures var kept := Admit(frames, f, maxFrames, maxPerConnection);
      && (f in kept <==> maxFrames >= 1 && maxPerConnection >= 1)
      && (f in kept ==> kept[|kept|-1] == f)
  {
    var c := f.connectionId;
    var pushed, kept := PushBounded(frames, f, maxFrames), Admit(frames, f, maxFrames, maxPerConnection);
    if maxFrames == 0 {
      assert pushed == [];
      assert FramesOf(pushed, c) == [];
      assert kept == [];
    } else {
      assert pushed[|pushed|-1] == f;
      PushBoundedFrames(frames, f, maxFrames, c);
      EvictOwnFrames(pushed, c, maxPerConnection, c);
      if maxPerConnection == 0 {
        AdmitKeepsBounds(frames, f, maxFrames, maxPerConnection);
        assert |FramesOf(kept, c)| == 0;
        NoFrames(kept, c);
      } else if |FramesOf(pushed, c)| > maxPerConnection {
        var i := First(pushed, c);
        OnlyLast(pushed, c, i);
      }
    }
  }

  /** If the first frame of a connection is the last of the list, it is its only one. */
  lemma OnlyLast(frames: seq<Frame>, c: string, i: nat)
    requires i < |frames| && frames[i].connectionId == c && forall k :: 0 <= k < i ==> frames[k].connectionId != c
    ensures i == |frames| - 1 ==> |FramesOf(frames, c)| == 1
  {
    if i == |frames| - 1 {
      NoFrames(frames[..i], c);
    }
  }

  /** One admission evicts two frames exactly when the store is full, the connection is at its limit,
      and the oldest frame of the store belongs to another connection (limits positive). */
  lemma TwoEvictions(frames: seq<Frame>, f: Frame, maxFrames: nat, maxPerConnection: nat)
    requires Bounded(frames, maxFrames, maxPerConnection) && maxFrames >= 1 && maxPerConnection >= 1
    ensures var kept := Admit(frames, f, maxFrames, maxPerConnection);
      && |frames| - 1 <= |kept| <= |frames| + 1
      && (|kept| == |frames| - 1 <==>
            |frames| == maxFrames && |FramesOf(frames, f.connectionId)| == maxPerConnection
            && frames[0].connectionId != f.connectionId)
  {
    var c, pushed := f.connectionId, PushBounded(frames, f, maxFrames);
    PushBoundedSizes(frames, f, maxFrames);
    if |FramesOf(pushed, c)| > maxPerConnection {
      assert |Without(pushed, First(pushed, c))| == |pushed| - 1;
    }
  }

  lemma PushBoundedSizes(frames: seq<Frame>, f: Frame, maxFrames: nat)
    requires |frames| <= maxFrames && maxFrames >= 1
    ensures var c, pushed := f.connectionId, PushBounded(frames, f, maxFrames);
      && |pushed| == (if |frames| == maxFrames then |frames| else |frames| + 1)
      && |FramesOf(pushed, c)| == |FramesOf(frames, c)|
           + if |frames| == maxFrames && frames[0].connectionId == c then 0 else 1
  {
    var c := f.connectionId;
    FramesOfAppend(frames, [f], c);
    FramesOfOne(f, c);
    WithoutFirst(frames + [f], 0, c);
    assert Without(frames + [f], 0) == (frames + [f])[1..];
  }

  // ---------------------------------------------------------------------------------------------
  // Concurrent calls, one lock scope per step.  A call counts its frame while it still holds the lock on
  // the frames; the model lets other steps come between, so its runs include those of the program.

  datatype Phase = Begun | Numbered(id: int) | Stored | Returned

  /** A call of `capture_frame` past its size check. */
  datatype Call = Call(frame: Frame, phase: Phase)

  /** `log` holds the frames stored since the frames were last cleared. */
  datatype Store = Store(frames: seq<Frame>, connections: seq<Connection>, calls: seq<Call>, log: seq<Frame>)

  datatype Event =
    | Begin(frame: Frame)
    | ReadLength(i: nat)                   // read lock on the frames
    | Insert(i: nat, now: int)             // write lock on the frames
    | CountFrame(i: nat)                   // write lock on the connections
    | Register(id: string, url: string, at: int)
    | CloseOne(id: string, at: int)
    | ClearConnections
    | ClearFrames

  function Step(s: Store, e: Event, maxFrames: nat, maxPerConnection: nat): Store {
    match e
    case Begin(f) => if |f.payload| > MAX_PAYLOAD_SIZE then s else s.(calls := s.calls + [Call(f, Begun)])
    case ReadLength(i) =>
      if i < |s.calls| && s.calls[i].phase.Begun?
      then s.(calls := s.calls[i := s.calls[i].(phase := Numbered(|s.frames| + 1))]) else s
    case Insert(i, now) =>
      if i < |s.calls| && s.calls[i].phase.Numbered? then
        var f := s.calls[i].frame.(id := s.calls[i].phase.id, timestamp := now);
        s.(frames := Admit(s.frames, f, maxFrames, maxPerConnection), log := s.log + [f],
           calls := s.calls[i := Call(f, Stored)])
      else s
    case CountFrame(i) =>
      if i < |s.calls| && s.calls[i].phase.Stored?
      then s.(connections := Bump(s.connections, s.calls[i].frame.connectionId),
              calls := s.calls[i := s.calls[i].(phase := Returned)])
      else s
    case Register(id, url, at) => s.(connections := s.connections + [Connection(id, url, at, None, 0)])
    case CloseOne(id, at) => s.(connections := CloseFirst(s.connections, id, at))
    case ClearConnections => s.(connections := [])
    case ClearFrames => s.(frames := [], log := [])
  }

  function Run(s: Store, es: seq<Event>, maxFrames: nat, maxPerConnection: nat): Store
    decreases |es|
  {
    if es == [] then s else Run(Step(s, es[0], maxFrames, maxPerConnection), es[1..], maxFrames, maxPerConnection)
  }

  ghost predicate Inv(s: Store, maxFrames: nat, maxPerConnection: nat) {
    && Bounded(s.frames, maxFrames, maxPerConnection)
    && (forall c :: Suffix(FramesOf(s.frames, c), FramesOf(s.log, c)))
    && (forall k :: 0 <= k < |s.calls| ==> |s.calls[k].frame.payload| <= MAX_PAYLOAD_SIZE)
    && (forall k :: 0 <= k < |s.log| ==> |s.log[k].payload| <= MAX_PAYLOAD_SIZE)
  }

  lemma StepKeepsInv(s: Store, e: Event, maxFrames: nat, maxPerConnection: nat)
    requires Inv(s, maxFrames, maxPerConnection)
    ensures Inv(Step(s, e, maxFrames, maxPerConnection), maxFrames, maxPerConnection)
  {
    if e.Insert? && e.i < |s.calls| && s.calls[e.i].phase.Numbered? {
      var f := s.calls[e.i].frame.(id := s.calls[e.i].phase.id, timestamp := e.now);
      AdmitKeepsBounds(s.frames, f, maxFrames, maxPerConnection);
      forall c
        ensures Suffix(FramesOf(Admit(s.frames, f, maxFrames, maxPerConnection), c), FramesOf(s.log + [f], c))
      {
        AdmitKeepsSuffix(s.frames, f, maxFrames, maxPerConnection, s.log, c);
      }
    }
  }

  lemma {:induction false} RunKeepsInv(s: Store, es: seq<Event>, maxFrames: nat, maxPerConnection: nat)
    requires Inv(s, maxFrames, maxPerConnection)
    ensures Inv(Run(s, es, maxFrames, maxPerConnection), maxFrames, maxPerConnection)
    decreases |es|
  {
    if es != [] {
      StepKeepsInv(s, es[0], maxFrames, maxPerConnection);
      RunKeepsInv(Step(s, es[0], maxFrames, maxPerConnection), es[1..], maxFrames, maxPerConnection);
    }
  }

  /** In every interleaving of captures, registrations and clears the total stays within `maxFrames`,
      every connection within its own limit, and what `get_frames` returns for a connection is a
      suffix of the frames stored for it since the frames were last cleared. */
  lemma EveryInterleaving(es: seq<Event>, maxFrames: nat, maxPerConnection: nat, c: string)
    ensures var s := Run(Store([], [], [], []), es, maxFrames, maxPerConnection);
      && |s.frames| <= maxFrames
      && |FramesOf(s.frames, c)| <= maxPerConnection
      && Suffix(FramesOf(s.frames, c), FramesOf(s.log, c))
  {
    RunKeepsInv(Store([], [], [], []), es, maxFrames, maxPerConnection);
  }
}
