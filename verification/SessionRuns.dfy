/** What holds in every state of every run of a session. */
module SessionRuns {
  import opened Bytes
  import opened Session

  /** Fan-out, in every state of every run after the handshake:
      the next remote read is armed exactly when no local write is outstanding; each listed socket has
      been sent exactly the chunks since it joined, but for one it is still being sent; and
      `m_write_count` counts the outstanding writes, except that it holds whatever it was created with
      until the first chunk arrives. */
  lemma FanOutExact(c: Setup, es: seq<Event>, t: State)
    requires Reaches(Start(c), es, t) && t.phase == Running
    ensures t.down.armed <= 1 && (t.down.armed == 1 <==> t.down.writes == multiset{})
    ensures t.down.writeCount == |t.down.writes| <==> (t.down.chunks != [] || c.garbage == 0)
    ensures forall id :: id in t.sockets ==> StreamOk(t.down, id)
    ensures forall w :: w in t.down.writes ==> Sending(t.down, w)
  {
    StartInv(c);
    RunKeeps(Start(c), es, t);
    CountBeforeFirstChunk(Start(c), es, t, c.garbage);
  }

  /** No step stores into the remote buffer while a local write is still sending from it. */
  lemma BufferNotReused(c: Setup, es: seq<Event>, t: State, e: Event)
    requires Reaches(Start(c), es, t) && t.phase == Running && Enabled(t, e)
    requires Step(t, e).down.buffer != t.down.buffer
    ensures t.down.writes == multiset{}
  {
    FanOutExact(c, es, t);
  }

  /** The local side, in every state of every run: the list is bounded, its sockets are distinct,
      and each has exactly one of an armed read or an outstanding remote write. */
  lemma LocalSideExact(c: Setup, es: seq<Event>, t: State)
    requires Reaches(Start(c), es, t) && t.phase != Ended
    ensures NoDup(t.sockets) && 0 < |t.sockets| <= Max(1, c.maxConnections)
    ensures forall id :: id in t.sockets ==> OneOperation(t.up, id)
  {
    StartInv(c);
    RunKeeps(Start(c), es, t);
    ConfigKept(Start(c), es, t);
  }

  lemma {:induction false} ConfigKept(s: State, es: seq<Event>, t: State)
    requires Reaches(s, es, t)
    ensures t.maxConnections == s.maxConnections
    decreases es
  {
    if es != [] {
      ConfigKept(Step(s, es[0]), es[1..], t);
    }
  }

  /** In every run with this limit, what was sent to the remote is what was read locally, in order. */
  ghost predicate OutgoingIntact(maxConnections: int) {
    forall c: Setup, es, t :: c.maxConnections == maxConnections && Reaches(Start(c), es, t) && t.phase != Ended ==> t.up.sent <= t.up.read
  }

  /** One connection: sent is read, but for at most one chunk, which waits untouched in the buffer. */
  lemma OneConnectionOutgoing(c: Setup, es: seq<Event>, t: State)
    requires c.maxConnections <= 1 && Reaches(Start(c), es, t) && t.phase != Ended
    ensures OutgoingOk(t.sockets, t.up)
  {
    StartInv(c);
    RunKeeps(Start(c), es, t);
    ConfigKept(Start(c), es, t);
  }

  /** All sockets read into one buffer, so a limit above one breaks the outgoing stream. */
  lemma OutgoingIntactIff(maxConnections: int)
    ensures OutgoingIntact(maxConnections) <==> maxConnections <= 1
  {
    if maxConnections <= 1 {
      forall c: Setup, es, t | c.maxConnections == maxConnections && Reaches(Start(c), es, t) && t.phase != Ended
        ensures t.up.sent <= t.up.read
      {
        OneConnectionOutgoing(c, es, t);
      }
    } else {
      var zero: Buffer := seq(MAX_LENGTH + 1, i => 0);
      var c := Setup(maxConnections, false, 0, 0, zero, zero);
      var es, t := SecondSocketOverwrites(c);
      assert t.up.sent[0] != t.up.read[0];
    }
  }

  lemma SecondSocketOverwrites(c: Setup) returns (es: seq<Event>, t: State)
    requires c.maxConnections > 1
    ensures Reaches(Start(c), es, t) && t.phase != Ended
    ensures t.up.read == [[1], [2]] && t.up.sent == [[2]]
  {
    var s := Step(Start(c), Accept(c.first + 1, true));
    es, t := Collide(s, c.first, c.first + 1);
    es := Prepend(Start(c), Accept(c.first + 1, true), es, t);
  }

  /** Two armed sockets: the second read lands in the buffer the first is still being sent from. */
  lemma Collide(s: State, i: nat, j: nat) returns (es: seq<Event>, t: State)
    requires BuffersOk(s) && s.phase != Ended && i != j && s.up.armed == multiset{i, j}
    requires s.up.writes == multiset{} && s.up.read == [] && s.up.sent == []
    ensures Reaches(s, es, t) && t.phase != Ended
    ensures t.up.read == [[1], [2]] && t.up.sent == [[2]]
  {
    hide Reaches;
    var s1 := FirstRead(s, i, j);
    es, t := CollideEnd(s1, i, j);
    es := Prepend(s, LocalRead(i, Some([1]), false), es, t);
  }

  lemma FirstRead(s: State, i: nat, j: nat) returns (t: State)
    requires BuffersOk(s) && s.phase != Ended && i != j && s.up.armed == multiset{i, j}
    requires s.up.writes == multiset{} && s.up.read == [] && s.up.sent == []
    ensures Enabled(s, LocalRead(i, Some([1]), false)) && t == Step(s, LocalRead(i, Some([1]), false))
    ensures BuffersOk(t) && t.phase != Ended && t.up.armed == multiset{j}
    ensures t.up.writes == multiset{Write(i, 1)} && t.up.read == [[1]] && t.up.sent == []
  {
    hide OnAccept, ChunkRead, WriteDone, Forward, Forwarded, Overlay;
    FirstForward(s.up, i, j);
    t := Step(s, LocalRead(i, Some([1]), false));
  }

  lemma FirstForward(u: Up, i: nat, j: nat)
    requires |u.buffer| > 1 && i != j && u.armed == multiset{i, j} && u.writes == multiset{} && u.read == []
    ensures var v := Forward(u, i, [1], false);
            && |v.buffer| == |u.buffer| && v.armed == multiset{j} && v.writes == multiset{Write(i, 1)} && v.read == [[1]] && v.sent == u.sent
  {
  }

  lemma CollideEnd(s: State, i: nat, j: nat) returns (es: seq<Event>, t: State)
    requires BuffersOk(s) && s.phase != Ended && s.up.armed == multiset{j}
    requires s.up.writes == multiset{Write(i, 1)} && s.up.read == [[1]] && s.up.sent == []
    ensures Reaches(s, es, t) && t.phase != Ended
    ensures t.up.read == [[1], [2]] && t.up.sent == [[2]]
  {
    hide Reaches;
    var second, sent := LocalRead(j, Some([2]), false), RemoteWriteDone(Write(i, 1), true);
    var s1 := Step(s, second);
    assert Write(i, 1) in s1.up.writes && s1.up.buffer[..1] == [2] && s1.up.read == [[1], [2]];
    t := Step(s1, sent);
    es := Prepend(s1, sent, [], t);
    es := Prepend(s, second, es, t);
  }

  lemma Prepend(s: State, e: Event, es: seq<Event>, t: State) returns (fs: seq<Event>)
    requires Enabled(s, e) && Reaches(Step(s, e), es, t)
    ensures Reaches(s, fs, t)
  {
    fs := [e] + es;
    assert fs[1..] == es;
  }
}
