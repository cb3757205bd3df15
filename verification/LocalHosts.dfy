/**
 The handlers of class `LocalHost` as they are written, each proved to be one step of the
 session step system.  A thrown exception leaves `io_service.run` and ends the session.
 */
module LocalHosts {
  import opened Bytes
  import opened Session

  lemma WritesNext(sockets: seq<nat>, n: nat, i: nat)
    requires i < |sockets|
    ensures multiset(Writes(sockets[..i + 1], n)) == multiset(Writes(sockets[..i], n)) + multiset{Write(sockets[i], n)}
  {
    assert Writes(sockets[..i + 1], n) == Writes(sockets[..i], n) + [Write(sockets[i], n)];
  }

  class LocalHost {
    const maxConnections: int
    const autoReconnect: bool
    var phase: Phase
    var sockets: seq<nat>
    var nextId: nat
    var accepts: nat
    var down: Down   // m_remote_data, m_write_count and the operations they belong to
    var up: Up       // m_local_data and the operations it belongs to

    ghost function Abs(): State
      reads this
    {
      State(maxConnections, autoReconnect, phase, sockets, nextId, accepts, down, up)
    }

    /** `threadproc` up to `go_out`: the first socket is accepted, its read and one accept are armed. */
    constructor (c: Setup)
      ensures Abs() == Start(c)
    {
      maxConnections, autoReconnect := c.maxConnections, c.autoReconnect;
      phase, sockets, nextId, accepts := Handshaking, [c.first], c.first + 1, 1;
      down := Down(c.remoteData, c.garbage, 0, multiset{}, [], map[c.first := 0], map[c.first := []]);
      up := Up(c.localData, multiset{c.first}, multiset{}, [], []);
    }

    method RemoveSocket(id: nat)
      modifies this`sockets
      ensures sockets == Without(old(sockets), id)
    {
      var i := 0;
      while i < |sockets|
        invariant 0 <= i <= |sockets| && sockets == old(sockets)
        invariant forall k :: 0 <= k < i ==> sockets[k] != id
      {
        if sockets[i] == id {
          WithoutAt(sockets, id, i);
          sockets := sockets[..i] + sockets[i + 1..];
          return;
        }
        i := i + 1;
      }
      WithoutAbsent(sockets, id);
    }

    /** The bytes are already at the front of the buffer when the handler runs. */
    method HandleLocalRead(id: nat, error: bool, bytesTransferred: nat, logging: bool)
      requires Enabled(Abs(), LocalRead(id, None, logging)) && bytesTransferred <= MAX_LENGTH
      modifies this
      ensures var chunk := if error then None else Some(old(up).buffer[..bytesTransferred]);
              Enabled(old(Abs()), LocalRead(id, chunk, logging)) && Abs() == Step(old(Abs()), LocalRead(id, chunk, logging))
    {
      up := up.(armed := up.armed - multiset{id});
      if !error {
        var chunk := up.buffer[..bytesTransferred];
        assert Overlay(up.buffer, chunk) == up.buffer;
        if logging {
          up := up.(buffer := up.buffer[bytesTransferred := 0]);
        }
        up := up.(writes := up.writes + multiset{Write(id, bytesTransferred)}, read := up.read + [chunk]);
      } else {
        RemoveSocket(id);
        if |sockets| == 0 {
          phase := Ended;
        }
      }
    }

    method HandleLocalWrite(write: Write, error: bool)
      requires Enabled(Abs(), LocalWriteDone(write, !error))
      modifies this
      ensures Abs() == Step(old(Abs()), LocalWriteDone(write, !error))
    {
      hide Without, Overlay, Writes, OnAccept, ChunkRead, Forward, Forwarded;
      down := down.(writes := down.writes - multiset{write}, writeCount := down.writeCount - 1);
      if !error {
        if write.id in down.delivered {
          down := down.(delivered := down.delivered[write.id := down.delivered[write.id] + [down.buffer[..write.length]]]);
        }
      } else {
        RemoveSocket(write.id);
      }
      if down.writeCount == 0 && |sockets| > 0 {
        down := down.(armed := down.armed + 1);
      }
      if |sockets| == 0 {
        phase := Ended;
      }
    }

    method HandleRemoteRead(error: bool, bytesTransferred: nat)
      requires Enabled(Abs(), RemoteRead(None)) && bytesTransferred <= MAX_LENGTH
      modifies this
      ensures var chunk := if error then None else Some(old(down).buffer[..bytesTransferred]);
              Enabled(old(Abs()), RemoteRead(chunk)) && Abs() == Step(old(Abs()), RemoteRead(chunk))
    {
      down := down.(armed := down.armed - 1);
      if !error {
        var chunk := down.buffer[..bytesTransferred];
        assert Overlay(down.buffer, chunk) == down.buffer;
        down := down.(buffer := down.buffer[bytesTransferred := 0], chunks := down.chunks + [chunk]);
        down := down.(writeCount := |sockets|);
        FanOut(bytesTransferred);
      } else {
        phase := Ended;
      }
    }

    /** The loop of `handle_remote_read` that starts one write for every listed socket. */
    method FanOut(bytesTransferred: nat)
      requires down.writeCount == |sockets|
      modifies this`down
      ensures down == old(down).(writes := old(down).writes + multiset(Writes(sockets, bytesTransferred)))
    {
      hide Writes;
      var index := 0;
      while index < down.writeCount
        invariant 0 <= index <= down.writeCount == |sockets|
        invariant down == old(down).(writes := old(down).writes + multiset(Writes(sockets[..index], bytesTransferred)))
      {
        WritesNext(sockets, bytesTransferred, index);
        down := down.(writes := down.writes + multiset{Write(sockets[index], bytesTransferred)});
        index := index + 1;
      }
      assert sockets[..index] == sockets;
    }

    method HandleRemoteWrite(write: Write, error: bool)
      requires Enabled(Abs(), RemoteWriteDone(write, !error))
      modifies this
      ensures Abs() == Step(old(Abs()), RemoteWriteDone(write, !error))
    {
      up := up.(writes := up.writes - multiset{write});
      if !error {
        up := up.(sent := up.sent + [up.buffer[..write.length]]);
        Rearm(write.id);
      } else {
        phase := Ended;
      }
    }

    /** The loop of `handle_remote_write` that looks the socket up by its id. */
    method Rearm(id: nat)
      modifies this`up
      ensures up == if id in sockets then old(up).(armed := old(up).armed + multiset{id}) else old(up)
    {
      var i := 0;
      while i < |sockets|
        invariant 0 <= i <= |sockets| && up == old(up)
        invariant id !in sockets[..i]
      {
        if sockets[i] == id {
          up := up.(armed := up.armed + multiset{id});
          return;
        }
        i := i + 1;
      }
    }

    method HandleAccept(id: nat, error: bool)
      requires Enabled(Abs(), Accept(id, !error))
      modifies this
      ensures Abs() == Step(old(Abs()), Accept(id, !error))
    {
      accepts := accepts - 1;
      if !error && |sockets| < maxConnections {
        sockets, nextId := sockets + [id], id + 1;
        up := up.(armed := up.armed + multiset{id});
        down := down.(joined := down.joined[id := |down.chunks|], delivered := down.delivered[id := []]);
      }
      if |sockets| > 0 {
        accepts := accepts + 1;
      }
    }

    method HandleHandshake(error: bool)
      requires Enabled(Abs(), Handshake(!error))
      modifies this
      ensures Abs() == Step(old(Abs()), Handshake(!error))
    {
      if !error {
        phase, down := Running, down.(armed := down.armed + 1);
      } else {
        phase := Ended;
      }
    }

    /** The wait for the read timeout ended: it was aborted, as by every read and write that moves the
        timeout, or it has expired or not.  Under auto-reconnect only the remote socket is closed, and
        its outstanding operations will complete with errors. */
    method CheckDeadline(aborted: bool, expired: bool)
      requires Enabled(Abs(), DeadlineExpired)
      modifies this
      ensures Abs() == if aborted || !expired then old(Abs()) else Step(old(Abs()), DeadlineExpired)
    {
      if aborted {
        return;
      }
      if expired && !autoReconnect {
        phase := Ended;
      }
    }
  }
}
