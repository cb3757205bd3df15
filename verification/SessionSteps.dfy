/** What each event does to a session: whether it goes on, and with which local sockets. */
module SessionSteps {
  import opened Bytes
  import opened Session
  import opened SessionRuns

  /** What ends a session. */
  predicate Ends(s: State, e: Event) {
    match e
    case Handshake(ok) => !ok
    case RemoteRead(chunk) => chunk.None?
    case RemoteWriteDone(_, ok) => !ok
    case DeadlineExpired => !s.autoReconnect
    case LocalWriteDone(_, _) => Drops(e) && forall id :: id in s.sockets ==> id == Of(e)
    case LocalRead(_, _, _) => Drops(e) && forall id :: id in s.sockets ==> id == Of(e)
    case _ => false
  }

  /** A local read or write failed. */
  predicate Drops(e: Event) {
    (e.LocalWriteDone? && !e.ok) || (e.LocalRead? && e.chunk.None?)
  }

  /** The socket it failed on. */
  function Of(e: Event): nat {
    if e.LocalWriteDone? then e.write.id else if e.LocalRead? then e.id else 0
  }

  /** In every state of every run: a session ends with a failed handshake, a failed remote read or write,
      an expired timeout without auto-reconnect, or the loss of its only local socket, and goes on
      otherwise; it begins to run with a successful handshake, and with its end arms no remote read. */
  lemma EndsIff(c: Setup, es: seq<Event>, t: State, e: Event)
    requires Reaches(Start(c), es, t) && Enabled(t, e)
    ensures Step(t, e).phase == Ended <==> Ends(t, e)
    ensures !Ends(t, e) ==> Step(t, e).phase == if e.Handshake? then Running else t.phase
    ensures Ends(t, e) ==> Step(t, e).down.armed <= t.down.armed
  {
    hide FanOutOk, StreamsOk, LocalOk, OutgoingOk, Overlay, ChunkRead, WriteDone, Forward, Forwarded, Reaches;
    StartInv(c);
    RunKeeps(Start(c), es, t);
    if e.LocalWriteDone? {
      EndArmsNothing(t.down, e.write, e.ok);
    }
    if Drops(e) {
      WithoutElements(t.sockets, Of(e));
      if Without(t.sockets, Of(e)) != [] {
        assert Without(t.sockets, Of(e))[0] in Without(t.sockets, Of(e));
      }
    }
  }

  lemma EndArmsNothing(d: Down, w: Write, ok: bool)
    requires w.length <= |d.buffer|
    ensures WriteDone(d, w, ok, false).armed == d.armed
  {
  }

  /** In every state of every run: a failed local operation takes its socket off the list, if it is there;
      a new connection below the limit is added at the end; nothing else changes the list or its order.
      One accept is always waiting. */
  lemma SocketsExact(c: Setup, es: seq<Event>, t: State, e: Event) returns (k: nat)
    requires Reaches(Start(c), es, t) && Enabled(t, e)
    ensures t.accepts == 1
    ensures if Drops(e) && Of(e) in t.sockets then
              k < |t.sockets| && t.sockets[k] == Of(e) && Step(t, e).sockets == t.sockets[..k] + t.sockets[k + 1..]
            else if e.Accept? && e.ok && |t.sockets| < c.maxConnections then
              Step(t, e).sockets == t.sockets + [e.id] && Step(t, e).up.armed[e.id] == 1
            else
              Step(t, e).sockets == t.sockets
  {
    hide Overlay, ChunkRead, WriteDone, Forward, Forwarded, OnAccept, Reaches, Without;
    LiveAndListed(c, es, t);
    k := 0;
    if Drops(e) {
      k := DroppedSocket(t.sockets, Of(e));
    }
    if e.Accept? {
      AcceptedSocket(t, e.id, e.ok);
    }
  }

  lemma LiveAndListed(c: Setup, es: seq<Event>, t: State)
    requires Reaches(Start(c), es, t) && t.phase != Ended
    ensures t.accepts == 1 && t.maxConnections == c.maxConnections && (forall id :: id in t.up.armed ==> id < t.nextId)
  {
    hide FanOutOk, StreamsOk, OutgoingOk, OneOperation, ListOk;
    StartInv(c);
    RunKeeps(Start(c), es, t);
    ConfigKept(Start(c), es, t);
    OneAccept(Start(c), es, t);
  }

  /** As long as a session lives, one accept is waiting. */
  lemma {:induction false} OneAccept(s: State, es: seq<Event>, t: State)
    requires Inv(s) && Reaches(s, es, t) && (s.phase != Ended ==> s.accepts == 1)
    ensures t.phase != Ended ==> t.accepts == 1
    decreases es
  {
    hide Inv, Step, Enabled;
    if es != [] {
      StepKeeps(s, es[0]);
      OneAcceptStep(s, es[0]);
      OneAccept(Step(s, es[0]), es[1..], t);
    }
  }

  lemma OneAcceptStep(s: State, e: Event)
    requires Inv(s) && Enabled(s, e) && (s.phase != Ended ==> s.accepts == 1)
    ensures Step(s, e).phase != Ended ==> Step(s, e).accepts == 1
  {
    hide FanOutOk, StreamsOk, LocalOk, OutgoingOk, Overlay, ChunkRead, WriteDone, Forward, Forwarded;
  }

  lemma {:induction false} DroppedSocket(sockets: seq<nat>, id: nat) returns (k: nat)
    ensures id in sockets ==> k < |sockets| && sockets[k] == id && Without(sockets, id) == sockets[..k] + sockets[k + 1..]
    ensures id !in sockets ==> Without(sockets, id) == sockets
  {
    k := 0;
    if id in sockets && sockets[0] != id {
      k := DroppedSocket(sockets[1..], id);
      k := k + 1;
      assert sockets[..k] == [sockets[0]] + sockets[1..][..k - 1];
    } else if id !in sockets {
      WithoutAbsent(sockets, id);
    }
  }

  lemma AcceptedSocket(s: State, id: nat, ok: bool)
    requires s.accepts > 0 && s.up.armed[id] == 0
    ensures var t := OnAccept(s, id, ok);
            if ok && |s.sockets| < s.maxConnections then t.sockets == s.sockets + [id] && t.up.armed[id] == 1
            else t.sockets == s.sockets
  {
  }

  /** No read is armed on a socket that is not listed any more. */
  lemma NoReadArmedUnlisted(s: State, e: Event, id: nat)
    requires Enabled(s, e) && id < s.nextId && id !in s.sockets
    ensures Step(s, e).up.armed[id] <= s.up.armed[id]
  {
    hide Overlay, ChunkRead, WriteDone, Forward, Forwarded, OnAccept;
    match e
    case LocalRead(i, Some(chunk), logging) => ForwardArmed(s.up, i, chunk, logging, id);
    case RemoteWriteDone(w, true) => ForwardedArmed(s.up, w, w.id in s.sockets, id);
    case Accept(i, ok) => AcceptArmed(s, i, ok, id);
    case _ =>
  }

  lemma ForwardArmed(u: Up, i: nat, chunk: ByteString, logging: bool, id: nat)
    requires |chunk| < |u.buffer|
    ensures Forward(u, i, chunk, logging).armed[id] <= u.armed[id]
  {
    hide Overlay;
  }

  lemma ForwardedArmed(u: Up, w: Write, listed: bool, id: nat)
    requires w.length <= |u.buffer| && (listed ==> w.id != id)
    ensures Forwarded(u, w, listed).armed[id] <= u.armed[id]
  {
  }

  lemma AcceptArmed(s: State, i: nat, ok: bool, id: nat)
    requires s.accepts > 0 && i != id
    ensures OnAccept(s, i, ok).up.armed[id] <= s.up.armed[id]
  {
  }
}
