/**
 The sessions of a remote host and the timer that clears away those that ended
 (src/remoteclient.cpp:147-156, 469, 533-548, 675-723, 755-772, src/remoteclient.h:78-91).
 Stopping a session joins its threads; it is taken as instantaneous, as is one sweep of the timer.
 */
module Reaper {
  import opened Bytes

  /** Times are microseconds. */
  const SECOND: nat := 1_000_000

  datatype Session = Session(
    id: nat,
    ended: Option<nat>,          // thread_ended
    stopped: Option<nat>,        // m_stopped
    late: nat)                   // sweeps it outlived 2 seconds or more after its end

  /** A session erased by the sweep at that time. */
  datatype Erased = Erased(session: Session, at: nat)

  datatype State = State(
    now: nat,                    // time of the last event
    deadline: nat,               // expiry of m_pdeadline
    clients: seq<Session>,       // m_clients
    nextId: nat,                 // sessions are numbered as they are accepted
    erased: seq<Erased>,         // by the sweep
    removed: set<nat>)           // sessions erased by a reconfiguration

  datatype Event =
    | Accept(at: nat)
    | ThreadEnded(at: nat, id: nat)
    | Stop(at: nat, ids: set<nat>)         // stop_by_name, or the stop of the whole host
    | RemoveAny(at: nat, ids: set<nat>)    // the sessions whose endpoint is not configured any more
    | CheckDeadline(at: nat)
    | Restart(at: nat)                     // the timer is set up anew

  function Start(now: nat): State {
    State(now, now + 5 * SECOND, [], 0, [], {})
  }

  // ---------------------------------------------------------------- one session

  predicate ThreadActive(c: Session, now: nat) {
    c.ended.None? || now - c.ended.value < 2 * SECOND
  }

  function Stopped(c: Session, now: nat): (r: Session)
    ensures r.stopped.Some? && r.id == c.id && r.late == c.late
    ensures c.ended.Some? ==> r.ended == c.ended
  {
    if c.stopped.Some? then c
    else c.(stopped := Some(now), ended := if c.ended.Some? then c.ended else Some(now))
  }

  /** Whether the sweep keeps the session. */
  predicate Kept(c: Session, now: nat) {
    ThreadActive(c, now) || now <= Stopped(c, now).stopped.value + 2 * SECOND
  }

  function Visited(c: Session, now: nat): Session {
    if ThreadActive(c, now) then c else Stopped(c, now).(late := c.late + 1)
  }

  function Swept(cs: seq<Session>, now: nat): seq<Session> {
    if cs == [] then []
    else
      var n := |cs| - 1;
      Swept(cs[..n], now) + if Kept(cs[n], now) then [Visited(cs[n], now)] else []
  }

  function Lost(cs: seq<Session>, now: nat): seq<Erased> {
    if cs == [] then []
    else
      var n := |cs| - 1;
      Lost(cs[..n], now) + if Kept(cs[n], now) then [] else [Erased(Visited(cs[n], now), now)]
  }

  // ---------------------------------------------------------------- steps

  function Ended(c: Session, at: nat, id: nat): Session {
    if c.id == id && c.ended.None? then c.(ended := Some(at)) else c
  }

  /** What `remove_any` leaves. */
  function Remaining(cs: seq<Session>, ids: set<nat>): seq<Session> {
    if cs == [] then []
    else
      var n := |cs| - 1;
      Remaining(cs[..n], ids) + if cs[n].id in ids then [] else [cs[n]]
  }

  function Ids(cs: seq<Session>): set<nat> {
    set i | 0 <= i < |cs| :: cs[i].id
  }

  function StoppedIn(c: Session, at: nat, ids: set<nat>): Session {
    if c.id in ids then Stopped(c, at) else c
  }

  function Step(s: State, e: Event): State
    requires e.at >= s.now
  {
    match e
    case Accept(at) => s.(now := at, clients := s.clients + [Session(s.nextId, None, None, 0)], nextId := s.nextId + 1)
    case ThreadEnded(at, id) => s.(now := at, clients := Map(s.clients, (c: Session) => Ended(c, at, id)))
    case Stop(at, ids) => s.(now := at, clients := Map(s.clients, (c: Session) => StoppedIn(c, at, ids)))
    case RemoveAny(at, ids) => s.(now := at, clients := Remaining(s.clients, ids), removed := s.removed + Ids(s.clients) * ids)
    case CheckDeadline(at) =>
      if at >= s.deadline
      then s.(now := at, deadline := at + 3 * SECOND, clients := Swept(s.clients, at), erased := s.erased + Lost(s.clients, at))
      else s.(now := at)
    case Restart(at) => s.(now := at, deadline := at + 5 * SECOND)
  }

  predicate Reaches(s: State, es: seq<Event>, t: State)
    decreases es
  {
    if es == [] then s == t else es[0].at >= s.now && Reaches(Step(s, es[0]), es[1..], t)
  }

  // ---------------------------------------------------------------- the run invariant

  /** A session that outlived a late sweep was stopped by then, so the next sweep takes it. */
  ghost predicate SessionOk(c: Session, now: nat, deadline: nat) {
    && c.late <= 1
    && (c.ended.Some? ==> c.ended.value <= now)
    && (c.stopped.Some? ==> c.ended.Some? && c.stopped.value <= now)
    && (c.late == 1 ==> c.stopped.Some? && c.stopped.value + 3 * SECOND <= deadline && c.ended.value + 2 * SECOND <= deadline)
  }

  /** Rightly erased. */
  ghost predicate ErasedOk(x: Erased) {
    && x.session.ended.Some? && x.session.stopped.Some?
    && x.at >= x.session.ended.value + 2 * SECOND
    && x.at > x.session.stopped.value + 2 * SECOND
    && x.session.late <= 2
  }

  ghost predicate Ordered(cs: seq<Session>, bound: nat) {
    && (forall i, j :: 0 <= i < j < |cs| ==> cs[i].id < cs[j].id)
    && (forall i :: 0 <= i < |cs| ==> cs[i].id < bound)
  }

  ghost predicate Listed(cs: seq<Session>, id: nat) {
    exists i :: 0 <= i < |cs| && cs[i].id == id
  }

  ghost predicate Gone(xs: seq<Erased>, id: nat) {
    exists i :: 0 <= i < |xs| && xs[i].session.id == id
  }

  ghost predicate Inv(s: State) {
    && (forall i :: 0 <= i < |s.clients| ==> SessionOk(s.clients[i], s.now, s.deadline))
    && (forall i :: 0 <= i < |s.erased| ==> ErasedOk(s.erased[i]))
    && Ordered(s.clients, s.nextId)
    && (forall id: nat :: id < s.nextId ==> Accounted(s, id))
    && (forall id :: id in s.removed ==> id < s.nextId)
  }

  /** Every accepted session is listed, or was erased by the sweep or by a reconfiguration. */
  ghost predicate Accounted(s: State, id: nat) {
    Listed(s.clients, id) || Gone(s.erased, id) || id in s.removed
  }

  /** What one sweep does to a list in which no session is overdue. */
  lemma {:induction false} SweepKeeps(cs: seq<Session>, now: nat, deadline: nat, bound: nat)
    requires forall i :: 0 <= i < |cs| ==> SessionOk(cs[i], now, deadline)
    requires Ordered(cs, bound) && now >= deadline
    ensures forall i :: 0 <= i < |Swept(cs, now)| ==> SessionOk(Swept(cs, now)[i], now, now + 3 * SECOND)
    ensures forall i :: 0 <= i < |Lost(cs, now)| ==> ErasedOk(Lost(cs, now)[i])
    ensures Ordered(Swept(cs, now), bound)
    decreases |cs|
  {
    if cs != [] {
      var n := |cs| - 1;
      assert SessionOk(cs[n], now, deadline);
      assert Ordered(cs[..n], cs[n].id);
      SweepKeeps(cs[..n], now, deadline, cs[n].id);
    }
  }

  lemma {:induction false} SweepAccounts(cs: seq<Session>, now: nat, id: nat)
    requires Listed(cs, id)
    ensures Listed(Swept(cs, now), id) || Gone(Lost(cs, now), id)
    decreases |cs|
  {
    var n, i := |cs| - 1, 0;
    i :| 0 <= i < |cs| && cs[i].id == id;
    var front, gone := Swept(cs[..n], now), Lost(cs[..n], now);
    if i == n {
      if Kept(cs[n], now) {
        assert Swept(cs, now)[|front|].id == id;
      } else {
        assert Lost(cs, now)[|gone|].session.id == id;
      }
    } else {
      assert cs[..n][i].id == id;
      SweepAccounts(cs[..n], now, id);
      if Listed(front, id) {
        var j :| 0 <= j < |front| && front[j].id == id;
        assert Swept(cs, now)[j] == front[j];
      } else {
        var j :| 0 <= j < |gone| && gone[j].session.id == id;
        assert Lost(cs, now)[j] == gone[j];
      }
    }
  }

  lemma SweepStep(s: State, at: nat)
    requires Inv(s) && at >= s.now && at >= s.deadline
    ensures Inv(Step(s, CheckDeadline(at)))
  {
    var t := Step(s, CheckDeadline(at));
    forall i | 0 <= i < |s.clients| ensures SessionOk(s.clients[i], at, s.deadline) {
      assert SessionOk(s.clients[i], s.now, s.deadline);
    }
    SweepKeeps(s.clients, at, s.deadline, s.nextId);
    forall id: nat | id < s.nextId ensures Accounted(t, id) {
      assert Accounted(s, id);
      if Gone(s.erased, id) {
        var j :| 0 <= j < |s.erased| && s.erased[j].session.id == id;
        assert t.erased[j] == s.erased[j];
      } else if Listed(s.clients, id) {
        SweepAccounts(s.clients, at, id);
        if Gone(Lost(s.clients, at), id) {
          var j :| 0 <= j < |Lost(s.clients, at)| && Lost(s.clients, at)[j].session.id == id;
          assert t.erased[|s.erased| + j] == Lost(s.clients, at)[j];
        }
      }
    }
  }

  /** The other steps change sessions one by one and move the deadline only forward. */
  lemma OthersStep(s: State, t: State)
    requires Inv(s) && t.now >= s.now && t.deadline >= Min(s.deadline, t.now + 3 * SECOND)
    requires t.nextId == s.nextId && t.erased == s.erased && t.removed == s.removed && |t.clients| == |s.clients|
    requires forall i :: 0 <= i < |s.clients| ==>
      var c, d := s.clients[i], t.clients[i];
      && d.id == c.id && d.late == c.late
      && (d.ended == c.ended || (c.ended.None? && d.ended == Some(t.now)))
      && (d.stopped == c.stopped || (c.stopped.None? && d.stopped == Some(t.now) && d.ended.Some?))
    ensures Inv(t)
  {
    forall id: nat | id < s.nextId ensures Accounted(t, id) {
      assert Accounted(s, id);
      if Listed(s.clients, id) {
        var i :| 0 <= i < |s.clients| && s.clients[i].id == id;
        assert t.clients[i].id == id;
      }
    }
  }

  function Min(a: int, b: int): int {
    if a < b then a else b
  }

  lemma AcceptStep(s: State, at: nat)
    requires Inv(s) && at >= s.now
    ensures Inv(Step(s, Accept(at)))
  {
    var t := Step(s, Accept(at));
    var u := s.(now := at);
    OthersStep(s, u);
    forall id: nat | id < t.nextId ensures Accounted(t, id) {
      assert id < s.nextId ==> Accounted(s, id);
      if id == s.nextId {
        assert t.clients[|s.clients|].id == id;
      } else if Listed(s.clients, id) {
        var i :| 0 <= i < |s.clients| && s.clients[i].id == id;
        assert t.clients[i].id == id;
      }
    }
    assert SessionOk(t.clients[|s.clients|], at, s.deadline);
    assert forall i :: 0 <= i < |s.clients| ==> t.clients[i] == u.clients[i];
  }

  /** What `remove_any` leaves is in order, and nothing else is lost. */
  lemma {:induction false} RemainingExact(cs: seq<Session>, ids: set<nat>, bound: nat)
    requires Ordered(cs, bound)
    ensures Ordered(Remaining(cs, ids), bound)
    ensures forall c :: c in Remaining(cs, ids) <==> c in cs && c.id !in ids
    decreases |cs|
  {
    hide Ordered;
    if cs != [] {
      var n := |cs| - 1;
      OrderedParts(cs, bound);
      RemainingExact(cs[..n], ids, cs[n].id);
      assert cs == cs[..n] + [cs[n]];
      assert Remaining(cs[..n], ids) + [] == Remaining(cs[..n], ids);
      OrderedMore(Remaining(cs[..n], ids), cs[n], bound);
    } else {
      assert Remaining(cs, ids) == cs;
    }
  }

  lemma OrderedParts(cs: seq<Session>, bound: nat)
    requires Ordered(cs, bound) && cs != []
    ensures Ordered(cs[..|cs| - 1], cs[|cs| - 1].id) && cs[|cs| - 1].id < bound
  {
  }

  lemma OrderedMore(cs: seq<Session>, c: Session, bound: nat)
    requires Ordered(cs, c.id) && c.id < bound
    ensures Ordered(cs + [c], bound) && Ordered(cs, bound)
  {
  }

  lemma RemoveStep(s: State, at: nat, ids: set<nat>)
    requires Inv(s) && at >= s.now
    ensures Inv(Step(s, RemoveAny(at, ids)))
  {
    hide Remaining;
    var t := Step(s, RemoveAny(at, ids));
    RemainingExact(s.clients, ids, s.nextId);
    forall i | 0 <= i < |t.clients| ensures SessionOk(t.clients[i], at, t.deadline) {
      assert t.clients[i] in s.clients;
      var j :| 0 <= j < |s.clients| && s.clients[j] == t.clients[i];
      assert SessionOk(s.clients[j], s.now, s.deadline);
    }
    forall id: nat | id < s.nextId ensures Accounted(t, id) {
      assert Accounted(s, id);
      if Listed(s.clients, id) {
        var i :| 0 <= i < |s.clients| && s.clients[i].id == id;
        assert id !in ids ==> s.clients[i] in t.clients;
      }
    }
  }

  lemma StepKeeps(s: State, e: Event)
    requires Inv(s) && e.at >= s.now
    ensures Inv(Step(s, e))
  {
    hide Inv, Swept, Lost, Remaining;
    match e
    case Accept(at) => AcceptStep(s, at);
    case CheckDeadline(at) => if at >= s.deadline { SweepStep(s, at); } else { OthersStep(s, Step(s, e)); }
    case ThreadEnded(at, id) => OthersStep(s, Step(s, e));
    case Stop(at, ids) => OthersStep(s, Step(s, e));
    case RemoveAny(at, ids) => RemoveStep(s, at, ids);
    case Restart(at) => OthersStep(s, Step(s, e));
  }

  lemma {:induction false} RunKeeps(s: State, es: seq<Event>, t: State)
    requires Inv(s) && Reaches(s, es, t)
    ensures Inv(t)
    decreases es
  {
    hide Inv, Step;
    if es != [] {
      StepKeeps(s, es[0]);
      RunKeeps(Step(s, es[0]), es[1..], t);
    }
  }

  // ---------------------------------------------------------------- main results

  /** Over every run: what the sweep erased had ended 2 seconds before and been stopped more than 2
      seconds before; every other accepted session is still listed, in the order of acceptance, unless
      a reconfiguration removed its endpoint. */
  lemma ErasedOnlyWhenOver(start: nat, es: seq<Event>, t: State)
    requires Reaches(Start(start), es, t)
    ensures forall i :: 0 <= i < |t.erased| ==> ErasedOk(t.erased[i])
    ensures Ordered(t.clients, t.nextId)
    ensures forall id: nat :: id < t.nextId ==> Accounted(t, id)
    ensures forall id :: id in t.removed ==> id < t.nextId
  {
    RunKeeps(Start(start), es, t);
  }

  /** Over every run: no session outlives a second sweep that falls 2 seconds or more after its end. */
  lemma GoneBySecondSweep(start: nat, es: seq<Event>, t: State)
    requires Reaches(Start(start), es, t)
    ensures forall i :: 0 <= i < |t.clients| ==> t.clients[i].late <= 1
    ensures forall i :: 0 <= i < |t.clients| && t.clients[i].late == 1 ==> forall at: nat :: at >= t.deadline ==> !Kept(t.clients[i], at)
  {
    RunKeeps(Start(start), es, t);
    forall i, at: nat | 0 <= i < |t.clients| && t.clients[i].late == 1 && at >= t.deadline ensures !Kept(t.clients[i], at) {
      assert SessionOk(t.clients[i], t.now, t.deadline);
    }
  }

  // ---------------------------------------------------------------- what each event does

  /** The thread ended 2 seconds ago or more. */
  predicate Over(c: Session, at: nat) {
    c.ended.Some? && at - c.ended.value >= 2_000_000
  }

  /** It was stopped more than 2 seconds ago as well. */
  predicate Due(c: Session, at: nat) {
    Over(c, at) && c.stopped.Some? && at > c.stopped.value + 2_000_000
  }

  /** A session that is over has been seen so, and stopped if it was not. */
  function Seen(c: Session, at: nat): Session {
    if Over(c, at) then Session(c.id, c.ended, Some(if c.stopped.Some? then c.stopped.value else at), c.late + 1) else c
  }

  ghost function DueMarks(cs: seq<Session>, at: nat): (r: seq<bool>)
    ensures |r| == |cs| && forall i :: 0 <= i < |r| ==> r[i] == !Due(cs[i], at)
  {
    seq(|cs|, i requires 0 <= i < |cs| => !Due(cs[i], at))
  }

  /** A sweep takes exactly the sessions that are due, keeps the others in order and stops those that are
      over, and sets the timer to 3 seconds later; before its time the timer does nothing. */
  lemma SweepExact(s: State, at: nat) returns (kept: seq<nat>)
    requires at >= s.now
    ensures var t := Step(s, CheckDeadline(at));
            if at < s.deadline then t == s.(now := at)
            else
              && t.deadline == at + 3_000_000 && t.nextId == s.nextId && t.removed == s.removed
              && Picks(t.clients, kept, Map(s.clients, (c: Session) => Seen(c, at)))
              && Exactly(kept, DueMarks(s.clients, at))
  {
    kept := [];
    if at >= s.deadline {
      kept := SweptExact(s.clients, at);
    }
  }

  lemma VisitExact(c: Session, at: nat)
    ensures Kept(c, at) <==> !Due(c, at)
    ensures Visited(c, at) == Seen(c, at)
  {
  }

  lemma {:induction false} SweptExact(cs: seq<Session>, at: nat) returns (kept: seq<nat>)
    ensures Picks(Swept(cs, at), kept, Map(cs, (c: Session) => Seen(c, at)))
    ensures Exactly(kept, DueMarks(cs, at))
    decreases |cs|
  {
    hide Kept, Visited, Seen, Due, Picks, Exactly;
    kept := [];
    var seen, marks := Map(cs, (c: Session) => Seen(c, at)), DueMarks(cs, at);
    if cs != [] {
      var n := |cs| - 1;
      kept := SweptExact(cs[..n], at);
      VisitExact(cs[n], at);
      assert seen[..n] == Map(cs[..n], (c: Session) => Seen(c, at)) && marks[..n] == DueMarks(cs[..n], at);
      assert Swept(cs[..n], at) + [] == Swept(cs[..n], at);
      PickMore(Swept(cs[..n], at), kept, seen, marks);
      if marks[n] {
        kept := kept + [n];
      }
    } else {
      PickNone(seen, marks);
    }
  }

  /** An accepted session comes last; the end of a thread and a stop are noted once, at the time; a
      reconfiguration removes exactly the sessions it names; the timer is moved only when set up anew. */
  lemma OthersExact(s: State, e: Event, i: nat)
    requires e.at >= s.now && !e.CheckDeadline?
    ensures var t := Step(s, e);
            && t.erased == s.erased && t.deadline == (if e.Restart? then e.at + 5_000_000 else s.deadline)
            && (e.Accept? ==> t.clients == s.clients + [Session(s.nextId, None, None, 0)])
            && (e.RemoveAny? ==> forall c :: c in t.clients <==> c in s.clients && c.id !in e.ids)
            && (!e.Accept? && !e.RemoveAny? ==> |t.clients| == |s.clients|)
            && (i < |s.clients| && e.ThreadEnded? ==>
                  var c := s.clients[i];
                  t.clients[i] == if c.id == e.id && c.ended == None then Session(c.id, Some(e.at), c.stopped, c.late) else c)
            && (i < |s.clients| && e.Stop? ==>
                  var c := s.clients[i];
                  var ended := if c.ended == None then Some(e.at) else c.ended;
                  t.clients[i] == if c.id in e.ids && c.stopped == None then Session(c.id, ended, Some(e.at), c.late) else c)
            && (e.Restart? ==> t.clients == s.clients)
  {
    if e.RemoveAny? {
      RemainingMembers(s.clients, e.ids);
    }
  }

  lemma {:induction false} RemainingMembers(cs: seq<Session>, ids: set<nat>)
    ensures forall c :: c in Remaining(cs, ids) <==> c in cs && c.id !in ids
    decreases |cs|
  {
    if cs != [] {
      RemainingMembers(cs[..|cs| - 1], ids);
      assert cs == cs[..|cs| - 1] + [cs[|cs| - 1]];
    }
  }

  // ---------------------------------------------------------------- two sweeps

  /** A session that was over at a sweep at `since`, if it is still listed. */
  ghost predicate Doomed(s: State, id: nat, since: nat) {
    && id < s.nextId && s.now >= since && s.deadline >= since + 3 * SECOND
    && forall i :: 0 <= i < |s.clients| && s.clients[i].id == id ==> DoomedSession(s.clients[i], since)
  }

  ghost predicate DoomedSession(c: Session, since: nat) {
    && c.ended.Some? && c.ended.value + 2 * SECOND <= since
    && c.stopped.Some? && c.stopped.value <= since
  }

  lemma {:induction false} SweptDoomed(cs: seq<Session>, at: nat, id: nat, since: nat)
    requires forall i :: 0 <= i < |cs| && cs[i].id == id ==> DoomedSession(cs[i], since)
    ensures forall i :: 0 <= i < |Swept(cs, at)| && Swept(cs, at)[i].id == id ==> DoomedSession(Swept(cs, at)[i], since)
    ensures at >= since + 3 * SECOND ==> !Listed(Swept(cs, at), id)
    decreases |cs|
  {
    if cs != [] {
      SweptDoomed(cs[..|cs| - 1], at, id, since);
    }
  }

  lemma DoomedStep(s: State, e: Event, id: nat, since: nat)
    requires Doomed(s, id, since) && e.at >= s.now
    ensures Doomed(Step(s, e), id, since)
  {
    hide Swept, Remaining, Lost;
    match e
    case CheckDeadline(at) => SweptDoomed(s.clients, at, id, since);
    case RemoveAny(at, ids) =>
      RemainingMembers(s.clients, ids);
      var left := Remaining(s.clients, ids);
      forall i | 0 <= i < |left| && left[i].id == id ensures DoomedSession(left[i], since) {
        assert left[i] in s.clients;
      }
    case _ =>
  }

  lemma {:induction false} DoomedRun(s: State, es: seq<Event>, t: State, id: nat, since: nat)
    requires Doomed(s, id, since) && Reaches(s, es, t)
    ensures Doomed(t, id, since)
    decreases es
  {
    hide Doomed, Step;
    if es != [] {
      DoomedStep(s, es[0], id, since);
      DoomedRun(Step(s, es[0]), es[1..], t, id, since);
    }
  }

  lemma {:induction false} SweptOnce(cs: seq<Session>, at: nat, c: Session, bound: nat)
    requires Ordered(cs, bound) && c in cs && c.ended.Some? && c.ended.value + 2 * SECOND <= at
    requires forall i :: 0 <= i < |cs| && cs[i].stopped.Some? ==> cs[i].stopped.value <= at
    ensures forall i :: 0 <= i < |Swept(cs, at)| && Swept(cs, at)[i].id == c.id ==> DoomedSession(Swept(cs, at)[i], at)
  {
    SweptTwice(cs, at, c, bound);
  }

  lemma {:induction false} SweptTwice(cs: seq<Session>, at: nat, c: Session, bound: nat)
    requires Ordered(cs, bound) && c.ended.Some? && c.ended.value + 2 * SECOND <= at
    requires forall i :: 0 <= i < |cs| ==> (cs[i].id == c.id ==> cs[i] == c) && (cs[i].stopped.Some? ==> cs[i].stopped.value <= at)
    ensures forall i :: 0 <= i < |Swept(cs, at)| && Swept(cs, at)[i].id == c.id ==> DoomedSession(Swept(cs, at)[i], at)
    decreases |cs|
  {
    if cs != [] {
      SweptTwice(cs[..|cs| - 1], at, c, bound);
    }
  }

  /** Over every run: a session whose thread has ended is gone, for good, by the second sweep that falls 2
      seconds or more after its end, whatever happens in between. */
  lemma GoneAfterTwoSweeps(start: nat, es: seq<Event>, s: State, c: Session, first: nat, between: seq<Event>, u: State, second: nat)
    requires Reaches(Start(start), es, s) && c in s.clients && c.ended.Some?
    requires first >= s.now && first >= s.deadline && first >= c.ended.value + 2_000_000
    requires Reaches(Step(s, CheckDeadline(first)), between, u)
    requires second >= u.now && second >= u.deadline
    ensures !Listed(Step(u, CheckDeadline(second)).clients, c.id)
  {
    hide Swept, Lost, Reaches;
    RunKeeps(Start(start), es, s);
    var t := Step(s, CheckDeadline(first));
    SweptOnce(s.clients, first, c, s.nextId);
    assert Doomed(t, c.id, first);
    DoomedRun(t, between, u, c.id, first);
    SweptDoomed(u.clients, second, c.id, first);
  }

  // ---------------------------------------------------------------- the host

  lemma SweptNone(cs: seq<Session>, now: nat)
    ensures Swept(cs[..0], now) == [] && Lost(cs[..0], now) == []
  {
  }

  lemma SweptNext(cs: seq<Session>, k: nat, now: nat)
    requires k < |cs|
    ensures Swept(cs[..k + 1], now) == Swept(cs[..k], now) + if Kept(cs[k], now) then [Visited(cs[k], now)] else []
    ensures Lost(cs[..k + 1], now) == Lost(cs[..k], now) + if Kept(cs[k], now) then [] else [Erased(Visited(cs[k], now), now)]
  {
    assert cs[..k + 1][..k] == cs[..k];
  }

  class RemoteHost {
    var clients: seq<Session>
    var deadline: nat
    ghost var now: nat
    ghost var nextId: nat
    ghost var erased: seq<Erased>
    ghost var removed: set<nat>

    ghost function Abs(): State
      reads this
    {
      State(now, deadline, clients, nextId, erased, removed)
    }

    constructor (at: nat)
      ensures Abs() == Start(at) && Inv(Abs())
    {
      clients, deadline, now, nextId, erased, removed := [], at + 5 * SECOND, at, 0, [], {};
    }

    /** The timer handler; an aborted wait is only waited for again. */
    method CheckDeadline(at: nat, aborted: bool)
      requires Inv(Abs()) && at >= now
      modifies this
      ensures Inv(Abs())
      ensures Abs() == if aborted then old(Abs()).(now := at) else Step(old(Abs()), Event.CheckDeadline(at))
    {
      hide Inv;
      StepKeeps(Abs(), Event.CheckDeadline(at));
      if aborted {
        OthersStep(Abs(), Abs().(now := at));
      }
      now := at;
      if !aborted && at >= deadline {
        deadline := at + 3 * SECOND;
        Sweep(at);
      }
    }

    method Sweep(at: nat)
      modifies this`clients, this`erased
      ensures clients == Swept(old(clients), at)
      ensures erased == old(erased) + Lost(old(clients), at)
    {
      hide Swept, Lost, Kept, Visited;
      ghost var all, k, done := clients, 0, [];
      SweptNone(all, at);
      var i := 0;
      while i < |clients|
        invariant 0 <= k <= |all| && done == Swept(all[..k], at) && i == |done|
        invariant clients == done + all[k..]
        invariant erased == old(erased) + Lost(all[..k], at)
        decreases |all| - k
      {
        SweptNext(all, k, at);
        assert clients[..i] == done && clients[i] == all[k] && clients[i + 1..] == all[k + 1..];
        k := k + 1;
        var keep, c := Visit(clients[i], at);
        if keep {
          done := done + [c];
          clients := clients[..i] + [c] + clients[i + 1..];
          i := i + 1;
        } else {
          erased := erased + [Erased(c, at)];
          clients := clients[..i] + clients[i + 1..];
        }
      }
      assert all[..k] == all;
    }

    method Visit(c: Session, at: nat) returns (keep: bool, d: Session)
      ensures keep == Kept(c, at) && d == Visited(c, at)
    {
      keep, d := true, c;
      if !ThreadActive(c, at) {
        d := Stopped(c, at).(late := c.late + 1);
        keep := at <= d.stopped.value + 2 * SECOND;
      }
    }
  }
}
