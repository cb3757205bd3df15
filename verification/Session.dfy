/**
 One `LocalHost::go_out` session as a step system (src/localclient.cpp).

 Every completion handler is one atomic step.  The environment chooses which outstanding
 operation completes next, with which bytes and with or without an error.  A write reads its
 buffer when it completes and an armed read may store bytes at any moment, so a buffer that
 were reused too early would show up in the recorded streams.
 */
module Session {
  import opened Bytes

  const MAX_LENGTH: nat := 1024

  datatype Phase = Handshaking | Running | Ended

  /** An outstanding `async_write` of the first `length` bytes of a shared buffer. */
  datatype Write = Write(id: nat, length: nat)

  /** Remote to local: the shared buffer, the counter, the outstanding operations.
      The last three fields are what an observer of the sockets records. */
  datatype Down = Down(
    buffer: ByteString,                      // m_remote_data
    writeCount: int,                         // m_write_count, not initialised by the constructor
    armed: nat,                              // armed remote reads
    writes: multiset<Write>,                 // outstanding local writes
    chunks: seq<ByteString>,                 // remote chunks read, in order
    joined: map<nat, nat>,                   // |chunks| when the socket was listed
    delivered: map<nat, seq<ByteString>>)    // chunks written to each local socket

  /** Local to remote, likewise. */
  datatype Up = Up(
    buffer: ByteString,                      // m_local_data
    armed: multiset<nat>,                    // sockets with an armed local read
    writes: multiset<Write>,                 // outstanding remote writes, by originating socket
    read: seq<ByteString>,                   // chunks read from local sockets, in order
    sent: seq<ByteString>)                   // chunks written to the remote socket

  datatype State = State(
    maxConnections: int,
    autoReconnect: bool,
    phase: Phase,
    sockets: seq<nat>,                       // m_local_sockets, by LocalHostSocket::id
    nextId: nat,                             // LocalHostSocket::id_gen
    accepts: nat,                            // outstanding accepts
    down: Down,
    up: Up)

  datatype Event =
    | Handshake(ok: bool)
    | RemoteFill(data: ByteString)
    | LocalFill(data: ByteString)
    | RemoteRead(chunk: Option<ByteString>)
    | LocalWriteDone(write: Write, ok: bool)
    | LocalRead(id: nat, chunk: Option<ByteString>, logging: bool)
    | RemoteWriteDone(write: Write, ok: bool)
    | Accept(id: nat, ok: bool)
    | DeadlineExpired

  type Buffer = b: ByteString | |b| == MAX_LENGTH + 1 witness seq(MAX_LENGTH + 1, i => 0)

  /** What a session starts from: configuration, the first socket's id, and whatever
      `m_write_count` and the buffers happen to hold. */
  datatype Setup = Setup(
    maxConnections: int, autoReconnect: bool, first: nat, garbage: int, remoteData: Buffer, localData: Buffer)

  /** The state in which `go_out` starts: one accepted socket with its read armed. */
  function Start(c: Setup): State {
    State(c.maxConnections, c.autoReconnect, Handshaking, [c.first], c.first + 1, 1,
          Down(c.remoteData, c.garbage, 0, multiset{}, [], map[c.first := 0], map[c.first := []]),
          Up(c.localData, multiset{c.first}, multiset{}, [], []))
  }

  /** `data` stored at the front of a buffer. */
  function Overlay(buffer: ByteString, data: ByteString): ByteString
    requires |data| <= |buffer|
  {
    data + buffer[|data|..]
  }

  predicate Fits(chunk: ByteString) {
    |chunk| <= MAX_LENGTH
  }

  predicate BuffersOk(s: State) {
    |s.down.buffer| == MAX_LENGTH + 1 && |s.up.buffer| == MAX_LENGTH + 1
  }

  /** An event can happen only if the operation it completes is outstanding. */
  predicate Enabled(s: State, e: Event) {
    && BuffersOk(s)
    && s.phase != Ended
    && match e
       case Handshake(_) => s.phase == Handshaking
       case RemoteFill(data) => s.down.armed > 0 && Fits(data)
       case LocalFill(data) => s.up.armed != multiset{} && Fits(data)
       case RemoteRead(chunk) => s.down.armed > 0 && (chunk.Some? ==> Fits(chunk.value))
       case LocalWriteDone(w, _) => w in s.down.writes && w.length <= MAX_LENGTH
       case LocalRead(id, chunk, _) => id in s.up.armed && (chunk.Some? ==> Fits(chunk.value))
       case RemoteWriteDone(w, _) => w in s.up.writes && w.length <= MAX_LENGTH
       case Accept(id, _) => s.accepts > 0 && id >= s.nextId
       case DeadlineExpired => true
  }

  /** One write of `length` bytes for every listed socket. */
  function Writes(sockets: seq<nat>, length: nat): (r: seq<Write>)
    ensures |r| == |sockets|
  {
    seq(|sockets|, i requires 0 <= i < |sockets| => Write(sockets[i], length))
  }

  /** A remote chunk arrived: fan it out to all listed sockets. */
  function ChunkRead(d: Down, sockets: seq<nat>, chunk: ByteString): Down
    requires d.armed > 0 && |chunk| < |d.buffer|
  {
    d.(armed := d.armed - 1,
       buffer := Overlay(d.buffer, chunk)[|chunk| := 0],
       writeCount := |sockets|,
       writes := d.writes + multiset(Writes(sockets, |chunk|)),
       chunks := d.chunks + [chunk])
  }

  /** A local write completed, `listed` being whether sockets remain. */
  function WriteDone(d: Down, w: Write, ok: bool, listed: bool): Down
    requires w.length <= |d.buffer|
  {
    d.(writeCount := d.writeCount - 1,
       writes := d.writes - multiset{w},
       armed := d.armed + (if d.writeCount == 1 && listed then 1 else 0),
       delivered := if ok && w.id in d.delivered
                    then d.delivered[w.id := d.delivered[w.id] + [d.buffer[..w.length]]]
                    else d.delivered)
  }

  /** A local read completed: pass the bytes on to the remote socket. */
  function Forward(u: Up, id: nat, chunk: ByteString, logging: bool): Up
    requires |chunk| < |u.buffer|
  {
    var buffer := Overlay(u.buffer, chunk);
    u.(armed := u.armed - multiset{id},
       buffer := if logging then buffer[|chunk| := 0] else buffer,
       writes := u.writes + multiset{Write(id, |chunk|)},
       read := u.read + [chunk])
  }

  /** A remote write completed: read again, if the socket is still listed. */
  function Forwarded(u: Up, w: Write, listed: bool): Up
    requires w.length <= |u.buffer|
  {
    u.(writes := u.writes - multiset{w},
       armed := if listed then u.armed + multiset{w.id} else u.armed,
       sent := u.sent + [u.buffer[..w.length]])
  }

  /** The session goes on as long as a local socket is listed. */
  function Shrink(s: State, sockets: seq<nat>): State {
    s.(sockets := sockets, phase := if sockets == [] then Ended else s.phase)
  }

  function OnAccept(s: State, id: nat, ok: bool): State
    requires s.accepts > 0
  {
    var t :=
      if ok && |s.sockets| < s.maxConnections then
        s.(sockets := s.sockets + [id], nextId := id + 1,
           up := s.up.(armed := s.up.armed + multiset{id}),
           down := s.down.(joined := s.down.joined[id := |s.down.chunks|],
                           delivered := s.down.delivered[id := []]))
      else s;
    t.(accepts := s.accepts - 1 + (if t.sockets != [] then 1 else 0))
  }

  function Step(s: State, e: Event): State
    requires Enabled(s, e)
  {
    match e
    case Handshake(ok) =>
      if ok then s.(phase := Running, down := s.down.(armed := s.down.armed + 1)) else s.(phase := Ended)
    case RemoteFill(data) => s.(down := s.down.(buffer := Overlay(s.down.buffer, data)))
    case LocalFill(data) => s.(up := s.up.(buffer := Overlay(s.up.buffer, data)))
    case RemoteRead(None) => s.(phase := Ended, down := s.down.(armed := s.down.armed - 1))
    case RemoteRead(Some(chunk)) => s.(down := ChunkRead(s.down, s.sockets, chunk))
    case LocalWriteDone(w, ok) =>
      var sockets := if ok then s.sockets else Without(s.sockets, w.id);
      Shrink(s, sockets).(down := WriteDone(s.down, w, ok, sockets != []))
    case LocalRead(id, None, _) =>
      Shrink(s, Without(s.sockets, id)).(up := s.up.(armed := s.up.armed - multiset{id}))
    case LocalRead(id, Some(chunk), logging) => s.(up := Forward(s.up, id, chunk, logging))
    case RemoteWriteDone(w, true) => s.(up := Forwarded(s.up, w, w.id in s.sockets))
    case RemoteWriteDone(w, false) => s.(phase := Ended, up := s.up.(writes := s.up.writes - multiset{w}))
    case Accept(id, ok) => OnAccept(s, id, ok)
    case DeadlineExpired => if s.autoReconnect then s else s.(phase := Ended)
  }

  /** `t` is reached from `s` by the events `es`. */
  predicate Reaches(s: State, es: seq<Event>, t: State)
    decreases es
  {
    if es == [] then s == t
    else Enabled(s, es[0]) && Reaches(Step(s, es[0]), es[1..], t)
  }

  // ---------------------------------------------------------------- the run invariant

  /** The list of local sockets. */
  ghost predicate ListOk(maxConnections: int, sockets: seq<nat>, nextId: nat) {
    && NoDup(sockets)
    && 0 < |sockets| <= Max(1, maxConnections)
    && (forall id :: id in sockets ==> id < nextId)
  }

  /** `w` sends the last chunk read, and the buffer still holds it. */
  ghost predicate Sending(d: Down, w: Write) {
    && d.chunks != []
    && w.length == |d.chunks[|d.chunks| - 1]| <= MAX_LENGTH < |d.buffer|
    && d.buffer[..w.length] == d.chunks[|d.chunks| - 1]
  }

  /** Remote chunks are fanned out one at a time. */
  ghost predicate FanOutOk(phase: Phase, nextId: nat, d: Down) {
    && |d.buffer| == MAX_LENGTH + 1
    && d.armed <= 1
    && (phase == Handshaking ==> d.armed == 0 && d.chunks == [])
    && (phase == Running ==> (d.armed == 1 <==> d.writes == multiset{}))
    && (if d.chunks == [] then d.writes == multiset{} else d.writeCount == |d.writes|)
    && (forall w :: w in d.writes ==> d.writes[w] == 1 && Sending(d, w) && w.id < nextId)
  }

  ghost predicate Outstanding(d: Down, id: nat) {
    exists w :: w in d.writes && w.id == id
  }

  /** Socket `id` was sent the chunks since it joined, but for one still outstanding. */
  ghost predicate StreamOk(d: Down, id: nat) {
    && id in d.joined && id in d.delivered
    && var upTo := |d.chunks| - (if Outstanding(d, id) then 1 else 0);
       0 <= d.joined[id] <= upTo && d.delivered[id] == d.chunks[d.joined[id]..upTo]
  }

  ghost predicate StreamsOk(sockets: seq<nat>, d: Down) {
    forall id :: id in sockets ==> StreamOk(d, id)
  }

  /** `w` is the only remote write of socket `id`. */
  ghost predicate OnlyWrite(u: Up, w: Write, id: nat) {
    w in u.writes && w.id == id && u.writes[w] == 1 && forall v :: v in u.writes && v.id == id ==> v == w
  }

  /** Exactly one of: an armed read, one outstanding remote write. */
  ghost predicate OneOperation(u: Up, id: nat) {
    || (u.armed[id] == 1 && forall w :: w in u.writes ==> w.id != id)
    || (u.armed[id] == 0 && exists w :: OnlyWrite(u, w, id))
  }

  ghost predicate LocalOk(sockets: seq<nat>, nextId: nat, u: Up) {
    && |u.buffer| == MAX_LENGTH + 1
    && (forall id :: id in sockets ==> OneOperation(u, id))
    && (forall id :: id in u.armed ==> id < nextId)
    && (forall w :: w in u.writes ==> w.id < nextId)
  }

  /** `w` sends the last chunk read, and the buffer still holds it. */
  ghost predicate Forwarding(u: Up, w: Write) {
    && u.read != []
    && w.length == |u.read[|u.read| - 1]| <= MAX_LENGTH < |u.buffer|
    && u.buffer[..w.length] == u.read[|u.read| - 1]
  }

  /** The chunks sent are the chunks read, but for one still outstanding. */
  ghost predicate OutgoingOk(sockets: seq<nat>, u: Up) {
    && |sockets| == 1
    && (forall id :: id in u.armed ==> id == sockets[0])
    && (forall w :: w in u.writes ==> w.id == sockets[0] && Forwarding(u, w))
    && var upTo := |u.read| - (if u.writes == multiset{} then 0 else 1);
       0 <= upTo && u.sent == u.read[..upTo]
  }

  ghost predicate Inv(s: State) {
    s.phase != Ended ==>
      && ListOk(s.maxConnections, s.sockets, s.nextId)
      && FanOutOk(s.phase, s.nextId, s.down)
      && StreamsOk(s.sockets, s.down)
      && LocalOk(s.sockets, s.nextId, s.up)
      && (s.maxConnections <= 1 ==> OutgoingOk(s.sockets, s.up))
  }

  lemma StartInv(c: Setup)
    ensures Inv(Start(c))
  {
  }

  // ---------------------------------------------------------------- remote to local

  lemma FanOutAnyId(phase: Phase, nextId: nat, d: Down, e: Down, larger: nat)
    requires FanOutOk(phase, nextId, d) && nextId <= larger && e == d.(joined := e.joined, delivered := e.delivered)
    ensures FanOutOk(phase, larger, e)
  {
  }

  lemma WritesOnce(sockets: seq<nat>, n: nat)
    requires NoDup(sockets)
    ensures forall w :: w in multiset(Writes(sockets, n)) <==> w.id in sockets && w.length == n
    ensures forall w :: w in multiset(Writes(sockets, n)) ==> multiset(Writes(sockets, n))[w] == 1
  {
    var ws := Writes(sockets, n);
    forall w: Write | w.id in sockets && w.length == n ensures w in ws {
      var i :| 0 <= i < |sockets| && sockets[i] == w.id;
      assert ws[i] == w;
    }
    NoDupOnce(ws);
  }

  /** The fan-out of a chunk read: one fresh write of it for every socket. */
  lemma ChunkFannedOut(sockets: seq<nat>, d: Down, chunk: ByteString)
    requires NoDup(sockets) && d.armed > 0 && |chunk| <= MAX_LENGTH && |d.buffer| == MAX_LENGTH + 1 && d.writes == multiset{}
    ensures var e := ChunkRead(d, sockets, chunk);
            && e.buffer[..|chunk|] == chunk && |e.buffer| == |d.buffer| && |e.writes| == |sockets|
            && (forall w :: w in e.writes <==> w.id in sockets && w.length == |chunk|)
            && (forall w :: w in e.writes ==> e.writes[w] == 1)
  {
    hide Writes;
    WritesOnce(sockets, |chunk|);
    assert ChunkRead(d, sockets, chunk).writes == multiset(Writes(sockets, |chunk|));
  }

  lemma ChunkReadKeeps(s: State, chunk: ByteString)
    requires s.phase != Ended && ListOk(s.maxConnections, s.sockets, s.nextId) && FanOutOk(s.phase, s.nextId, s.down)
    requires StreamsOk(s.sockets, s.down) && s.down.armed > 0 && |chunk| <= MAX_LENGTH
    ensures var d := ChunkRead(s.down, s.sockets, chunk);
            FanOutOk(s.phase, s.nextId, d) && StreamsOk(s.sockets, d)
  {
    hide Writes, Overlay;
    var d := ChunkRead(s.down, s.sockets, chunk);
    ChunkFannedOut(s.sockets, s.down, chunk);
    assert d.writes != multiset{} by { assert Write(s.sockets[0], |chunk|) in d.writes; }
    forall id | id in s.sockets ensures StreamOk(d, id) {
      ChunkStream(s.down, d, id, chunk);
    }
  }

  /** A socket that had everything now lacks just the new chunk. */
  lemma ChunkStream(d: Down, e: Down, id: nat, chunk: ByteString)
    requires StreamOk(d, id) && d.writes == multiset{} && e.chunks == d.chunks + [chunk]
    requires e.joined == d.joined && e.delivered == d.delivered && Write(id, |chunk|) in e.writes
    ensures StreamOk(e, id)
  {
    assert Outstanding(e, id) && !Outstanding(d, id);
  }

  lemma WriteDoneKeeps(s: State, w: Write, ok: bool, sockets: seq<nat>)
    requires s.phase != Ended && FanOutOk(s.phase, s.nextId, s.down) && w in s.down.writes && w.length <= MAX_LENGTH
    requires StreamsOk(s.sockets, s.down) && sockets != []
    requires forall id :: id in sockets ==> id in s.sockets && (ok || id != w.id)
    ensures var d := WriteDone(s.down, w, ok, true);
            FanOutOk(s.phase, s.nextId, d) && StreamsOk(sockets, d)
  {
    hide StreamOk;
    forall id | id in sockets ensures StreamOk(WriteDone(s.down, w, ok, true), id) {
      WriteDoneStream(s.phase, s.nextId, s.down, w, ok, id);
    }
  }

  lemma WriteDoneStream(phase: Phase, nextId: nat, d: Down, w: Write, ok: bool, id: nat)
    requires phase != Ended && FanOutOk(phase, nextId, d) && w in d.writes && w.length <= MAX_LENGTH
    requires StreamOk(d, id) && (ok || id != w.id)
    ensures StreamOk(WriteDone(d, w, ok, true), id)
  {
    assert Sending(d, w) && forall v :: v in d.writes ==> Sending(d, v);
    if id == w.id {
      assert Outstanding(d, id);
    }
  }

  // ---------------------------------------------------------------- local to remote

  lemma ForwardKeeps(sockets: seq<nat>, nextId: nat, u: Up, id: nat, chunk: ByteString, logging: bool)
    requires LocalOk(sockets, nextId, u) && id in u.armed && |chunk| <= MAX_LENGTH
    ensures LocalOk(sockets, nextId, Forward(u, id, chunk, logging))
  {
    hide OneOperation;
    forall i | i in sockets ensures OneOperation(Forward(u, id, chunk, logging), i) {
      ForwardOperation(u, id, chunk, logging, i);
    }
  }

  lemma ForwardOperation(u: Up, id: nat, chunk: ByteString, logging: bool, i: nat)
    requires OneOperation(u, i) && id in u.armed && |chunk| < |u.buffer|
    ensures OneOperation(Forward(u, id, chunk, logging), i)
  {
    hide Overlay;
    var v := Forward(u, id, chunk, logging);
    if i == id {
      assert OnlyWrite(v, Write(id, |chunk|), id);
    } else if u.armed[i] == 0 {
      var w :| OnlyWrite(u, w, i);
      assert OnlyWrite(v, w, i);
    }
  }

  lemma ForwardedKeeps(sockets: seq<nat>, nextId: nat, u: Up, w: Write)
    requires LocalOk(sockets, nextId, u) && w in u.writes && w.length <= MAX_LENGTH
    ensures LocalOk(sockets, nextId, Forwarded(u, w, w.id in sockets))
  {
    var v := Forwarded(u, w, w.id in sockets);
    forall i | i in sockets ensures OneOperation(v, i) {
      assert OneOperation(u, i);
      if i != w.id && u.armed[i] == 0 {
        var x :| OnlyWrite(u, x, i);
        assert OnlyWrite(v, x, i);
      }
    }
  }

  /** Dropping or adding the armed read of a socket leaves the other sockets' operations alone. */
  lemma OtherOperations(u: Up, v: Up, id: nat)
    requires u.writes == v.writes && u.armed[id := 0] == v.armed[id := 0]
    ensures forall i :: i != id && OneOperation(u, i) ==> OneOperation(v, i)
  {
    forall i | i != id && OneOperation(u, i) ensures OneOperation(v, i) {
      assert u.armed[i] == u.armed[id := 0][i] == v.armed[i];
      if u.armed[i] == 0 {
        var w :| OnlyWrite(u, w, i);
        assert OnlyWrite(v, w, i);
      }
    }
  }

  lemma ReadAloneMeansNoWrite(sockets: seq<nat>, nextId: nat, u: Up)
    requires LocalOk(sockets, nextId, u) && OutgoingOk(sockets, u) && u.armed != multiset{}
    ensures u.writes == multiset{}
  {
    var id :| id in u.armed;
    assert OneOperation(u, sockets[0]);
    assert forall w :: w !in u.writes;
  }

  lemma ForwardOutgoing(sockets: seq<nat>, nextId: nat, u: Up, id: nat, chunk: ByteString, logging: bool)
    requires LocalOk(sockets, nextId, u) && OutgoingOk(sockets, u) && id in u.armed && |chunk| <= MAX_LENGTH
    ensures OutgoingOk(sockets, Forward(u, id, chunk, logging))
  {
    ReadAloneMeansNoWrite(sockets, nextId, u);
    var v := Forward(u, id, chunk, logging);
    assert v.buffer[..|chunk|] == chunk;
    assert v.read[..|u.read|] == u.read;
    assert v.writes == multiset{Write(id, |chunk|)};
    assert Forwarding(v, Write(id, |chunk|));
  }

  lemma ForwardedOutgoing(sockets: seq<nat>, nextId: nat, u: Up, w: Write)
    requires LocalOk(sockets, nextId, u) && OutgoingOk(sockets, u) && w in u.writes && w.length <= MAX_LENGTH
    ensures OutgoingOk(sockets, Forwarded(u, w, w.id in sockets))
  {
  }

  // ---------------------------------------------------------------- every step keeps the invariant

  lemma AcceptKeeps(s: State, id: nat, ok: bool)
    requires Inv(s) && Enabled(s, Accept(id, ok))
    ensures Inv(OnAccept(s, id, ok))
  {
    hide FanOutOk, StreamsOk, LocalOk, OutgoingOk;
    var t := OnAccept(s, id, ok);
    if ok && |s.sockets| < s.maxConnections {
      assert NoDup(t.sockets) by { assert forall i :: 0 <= i < |s.sockets| ==> s.sockets[i] in s.sockets; }
      FanOutAnyId(s.phase, s.nextId, s.down, t.down, t.nextId);
      AcceptLocal(s.sockets, s.nextId, s.up, id);
      AcceptStreams(s.sockets, s.nextId, s.down, id, s.phase);
    }
  }

  /** A new socket has its read armed and nothing to send. */
  lemma AcceptLocal(sockets: seq<nat>, nextId: nat, u: Up, id: nat)
    requires LocalOk(sockets, nextId, u) && id >= nextId
    ensures LocalOk(sockets + [id], id + 1, u.(armed := u.armed + multiset{id}))
  {
    var v := u.(armed := u.armed + multiset{id});
    OtherOperations(u, v, id);
    assert u.armed[id] == 0;
    forall i | i in sockets + [id] ensures OneOperation(v, i) {
      assert i in sockets ==> OneOperation(u, i);
    }
  }

  /** And its stream begins with the next chunk. */
  lemma AcceptStreams(sockets: seq<nat>, nextId: nat, d: Down, id: nat, phase: Phase)
    requires StreamsOk(sockets, d) && FanOutOk(phase, nextId, d) && (forall i :: i in sockets ==> i < nextId) && id >= nextId
    ensures StreamsOk(sockets + [id], d.(joined := d.joined[id := |d.chunks|], delivered := d.delivered[id := []]))
  {
    var e := d.(joined := d.joined[id := |d.chunks|], delivered := d.delivered[id := []]);
    assert !Outstanding(e, id);
    forall i | i in sockets + [id] ensures StreamOk(e, i) {
      if i in sockets {
        assert StreamOk(d, i) && i != id;
        assert Outstanding(e, i) <==> Outstanding(d, i);
      }
    }
  }

  /** StreamOk does not depend on the buffer, the counter or the armed read. */
  lemma StreamsKept(sockets: seq<nat>, d: Down, e: Down)
    requires StreamsOk(sockets, d) && e == d.(buffer := e.buffer, armed := e.armed)
    ensures StreamsOk(sockets, e)
  {
  }

  lemma LocalWriteKeeps(s: State, w: Write, ok: bool)
    requires Inv(s) && Enabled(s, LocalWriteDone(w, ok))
    ensures Inv(Step(s, LocalWriteDone(w, ok)))
  {
    hide FanOutOk, StreamsOk, LocalOk, OutgoingOk, WriteDone;
    var t := Step(s, LocalWriteDone(w, ok));
    if !ok {
      WithoutElements(s.sockets, w.id);
      if w.id !in s.sockets { WithoutAbsent(s.sockets, w.id); }
    }
    if t.sockets != [] {
      WriteDoneKeeps(s, w, ok, t.sockets);
      FewerLocal(s.sockets, t.sockets, s.nextId, s.up);
    }
  }

  lemma FewerLocal(sockets: seq<nat>, fewer: seq<nat>, nextId: nat, u: Up)
    requires LocalOk(sockets, nextId, u) && forall id :: id in fewer ==> id in sockets
    ensures LocalOk(fewer, nextId, u)
  {
    hide OneOperation;
  }

  lemma DownKeeps(s: State, e: Event)
    requires Inv(s) && Enabled(s, e) && (e.RemoteFill? || e.RemoteRead? || e.LocalWriteDone?)
    ensures Inv(Step(s, e))
  {
    match e
    case RemoteFill(data) => StreamsKept(s.sockets, s.down, Step(s, e).down);
    case RemoteRead(None) =>
    case RemoteRead(Some(chunk)) => ChunkReadKeeps(s, chunk);
    case LocalWriteDone(w, ok) => LocalWriteKeeps(s, w, ok);
  }

  /** Overwriting the local buffer, or losing a socket with its armed read. */
  lemma ReadKeeps(sockets: seq<nat>, nextId: nat, u: Up, v: Up, id: nat)
    requires LocalOk(sockets, nextId, u) && |v.buffer| == |u.buffer|
    requires v == u.(buffer := v.buffer) || v == u.(armed := u.armed - multiset{id})
    ensures forall i :: i in sockets && (i != id || v.armed == u.armed) ==> OneOperation(v, i)
    ensures v.armed <= u.armed
  {
    OtherOperations(u, v, id);
    if v.armed == u.armed {
      OtherOperations(u, v, id + 1);
      assert forall i :: i in sockets ==> OneOperation(u, i);
    }
  }

  lemma LocalFillKeeps(s: State, data: ByteString)
    requires Inv(s) && Enabled(s, LocalFill(data))
    ensures Inv(Step(s, LocalFill(data)))
  {
    ReadKeeps(s.sockets, s.nextId, s.up, Step(s, LocalFill(data)).up, 0);
    if s.maxConnections <= 1 {
      ReadAloneMeansNoWrite(s.sockets, s.nextId, s.up);
    }
  }

  lemma LocalReadFailedKeeps(s: State, id: nat, logging: bool)
    requires Inv(s) && Enabled(s, LocalRead(id, None, logging))
    ensures Inv(Step(s, LocalRead(id, None, logging)))
  {
    hide FanOutOk, StreamOk, Forwarding;
    var t := Step(s, LocalRead(id, None, logging));
    WithoutElements(s.sockets, id);
    ReadKeeps(s.sockets, s.nextId, s.up, t.up, id);
    assert StreamsOk(t.sockets, t.down);
    assert s.maxConnections <= 1 ==> t.sockets == [];
  }

  lemma UpKeeps(s: State, e: Event)
    requires Inv(s) && Enabled(s, e) && (e.LocalFill? || e.LocalRead? || e.RemoteWriteDone?)
    ensures Inv(Step(s, e))
  {
    hide FanOutOk, StreamsOk, LocalOk, OutgoingOk, Forward, Forwarded;
    match e
    case LocalFill(data) => LocalFillKeeps(s, data);
    case LocalRead(id, None, logging) => LocalReadFailedKeeps(s, id, logging);
    case LocalRead(id, Some(chunk), logging) =>
      ForwardKeeps(s.sockets, s.nextId, s.up, id, chunk, logging);
      if s.maxConnections <= 1 { ForwardOutgoing(s.sockets, s.nextId, s.up, id, chunk, logging); }
    case RemoteWriteDone(w, false) =>
    case RemoteWriteDone(w, true) =>
      ForwardedKeeps(s.sockets, s.nextId, s.up, w);
      if s.maxConnections <= 1 { ForwardedOutgoing(s.sockets, s.nextId, s.up, w); }
  }

  lemma StepKeeps(s: State, e: Event)
    requires Inv(s) && Enabled(s, e)
    ensures Inv(Step(s, e))
  {
    hide StreamsOk, LocalOk, OutgoingOk, ListOk;
    match e
    case RemoteFill(_) => DownKeeps(s, e);
    case RemoteRead(_) => DownKeeps(s, e);
    case LocalWriteDone(_, _) => DownKeeps(s, e);
    case LocalFill(_) => UpKeeps(s, e);
    case LocalRead(_, _, _) => UpKeeps(s, e);
    case RemoteWriteDone(_, _) => UpKeeps(s, e);
    case Accept(id, ok) => AcceptKeeps(s, id, ok);
    case Handshake(ok) => StreamsKept(s.sockets, s.down, Step(s, e).down);
    case DeadlineExpired =>
  }

  lemma {:induction false} RunKeeps(s: State, es: seq<Event>, t: State)
    requires Inv(s) && Reaches(s, es, t)
    ensures Inv(t)
    decreases es
  {
    hide Inv, Step, Enabled;
    if es != [] {
      StepKeeps(s, es[0]);
      RunKeeps(Step(s, es[0]), es[1..], t);
    }
  }

  /** Nobody has written `m_write_count` yet. */
  ghost predicate Untouched(s: State, garbage: int) {
    s.phase != Ended && s.down.chunks == [] ==> s.down.writeCount == garbage
  }

  lemma CountStep(s: State, e: Event, garbage: int)
    requires Inv(s) && Enabled(s, e) && Untouched(s, garbage)
    ensures Untouched(Step(s, e), garbage)
  {
    hide StreamsOk, LocalOk, OutgoingOk, ListOk, Overlay, Writes, OnAccept;
    if e.Accept? {
      AcceptCount(s, e.id, e.ok);
    }
  }

  lemma AcceptCount(s: State, id: nat, ok: bool)
    requires s.accepts > 0
    ensures var t := OnAccept(s, id, ok);
            t.phase == s.phase && t.down.chunks == s.down.chunks && t.down.writeCount == s.down.writeCount
  {
  }

  /** Until the first remote chunk, nobody writes `m_write_count`. */
  lemma {:induction false} CountBeforeFirstChunk(s: State, es: seq<Event>, t: State, garbage: int)
    requires Inv(s) && Reaches(s, es, t) && Untouched(s, garbage)
    ensures Untouched(t, garbage)
    decreases es
  {
    hide Inv, Step, Enabled, Untouched;
    if es != [] {
      StepKeeps(s, es[0]);
      CountStep(s, es[0], garbage);
      CountBeforeFirstChunk(Step(s, es[0]), es[1..], t, garbage);
    }
  }
}
