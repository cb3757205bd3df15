/**
 The timed list of names that may exchange certificates, and the thread that serves them
 (src/proxy_global.cpp:1231-1351).  Time does not run backwards.
 */
module Activation {
  import opened Bytes
  import opened Certificates

  datatype Entry = Entry(stamp: int, name: string)

  /** A permission given by `add`: from when until when. */
  datatype Grant = Grant(name: string, at: int, until: int)

  /** A connection being served: when it was accepted, the names then permitted, and the name under
      which a certificate was stored; an empty name is a failed exchange. */
  datatype Serving = Serving(at: int, names: seq<string>, stored: Option<string>)

  /** What an observer records. */
  datatype Trace = Trace(
    grants: set<Grant>,
    added: multiset<string>,             // names that `add` put on the list
    stores: seq<(string, int)>,          // certificates stored, with the time of the accept
    completed: multiset<string>)         // exchanges that went both ways

  datatype State = State(
    now: int,
    list: seq<Entry>,                    // m_activate
    serving: Option<Serving>,
    certs: Certificates.State,
    trace: Trace)

  datatype Event =
    | Add(at: int, name: string, timeout: int)
    | Remove(at: int, name: string)
    | Look(at: int)                                // is_in_list
    | Accept(at: int)
    | Serve(at: int, received: Option<seq<Cert>>)
    | Answer(at: int, ok: bool)
    | Abort(at: int)                               // an exception ends the connection
    | Other(at: int, e: Certificates.Event)        // merges, deletions and reloads elsewhere

  function Start(now: int, certs: Certificates.State): State {
    State.State(now, [], None, certs, Trace({}, multiset{}, [], multiset{}))
  }

  predicate Listed(list: seq<Entry>, name: string) {
    exists i :: 0 <= i < |list| && list[i].name == name
  }

  /** What `cleanup` leaves. */
  function Fresh(list: seq<Entry>, now: int): seq<Entry> {
    if list == [] then []
    else
      var n := |list| - 1;
      Fresh(list[..n], now) + if list[n].stamp <= now then [] else [list[n]]
  }

  /** Without the first entry of that name. */
  function Dropped(list: seq<Entry>, name: string): seq<Entry> {
    if list == [] then [] else if list[0].name == name then list[1..] else [list[0]] + Dropped(list[1..], name)
  }

  function NamesOf(list: seq<Entry>): seq<string> {
    Map(list, (e: Entry) => e.name)
  }

  function StoredName(certs: Certificates.State, received: Option<seq<Cert>>, names: seq<string>): string {
    if Accepted(certs, received, names) then received.value[0].name else ""
  }

  predicate Enabled(s: State, e: Event) {
    && e.at >= s.now
    && match e
       case Accept(_) => s.serving.None?
       case Serve(_, _) => s.serving.Some? && s.serving.value.stored.None?
       case Answer(_, _) => s.serving.Some? && s.serving.value.stored.Some?
       case Abort(_) => s.serving.Some?
       case Other(_, f) => !f.Exchange?
       case _ => true
  }

  function OnAdd(s: State, name: string, timeout: int): State {
    var list := Fresh(s.list, s.now);
    if Listed(list, name) then s.(list := list)
    else s.(list := list + [Entry(s.now + timeout, name)],
            trace := s.trace.(grants := s.trace.grants + {Grant(name, s.now, s.now + timeout)},
                              added := s.trace.added + multiset{name}))
  }

  function OnServe(s: State, received: Option<seq<Cert>>): State
    requires s.serving.Some?
  {
    var v := s.serving.value;
    s.(serving := Some(v.(stored := Some(StoredName(s.certs, received, v.names)))),
       certs := Certificates.Step(s.certs, Exchange(received, v.names)),
       trace := if Accepted(s.certs, received, v.names)
                then s.trace.(stores := s.trace.stores + [(received.value[0].name, v.at)]) else s.trace)
  }

  function OnAnswer(s: State, ok: bool): State
    requires s.serving.Some? && s.serving.value.stored.Some?
  {
    var name := s.serving.value.stored.value;
    if name != "" && ok
    then s.(serving := None, list := Dropped(s.list, name), trace := s.trace.(completed := s.trace.completed + multiset{name}))
    else s.(serving := None)
  }

  function Next(s0: State, e: Event): State
    requires Enabled(s0, e)
  {
    var s := s0.(now := e.at);
    match e
    case Add(_, name, timeout) => OnAdd(s, name, timeout)
    case Remove(at, name) => s.(list := Dropped(Fresh(s.list, at), name))
    case Look(at) => s.(list := Fresh(s.list, at))
    case Accept(at) => s.(serving := Some(Serving(at, NamesOf(Fresh(s.list, at)), None)))
    case Serve(_, received) => OnServe(s, received)
    case Answer(_, ok) => OnAnswer(s, ok)
    case Abort(_) => s.(serving := None)
    case Other(_, f) => s.(certs := Certificates.Step(s.certs, f))
  }

  predicate Reaches(s: State, es: seq<Event>, t: State)
    decreases es
  {
    if es == [] then s == t else Enabled(s, es[0]) && Reaches(Next(s, es[0]), es[1..], t)
  }

  // ---------------------------------------------------------------- the run invariant

  /** Somebody added the name, and the permission held at that time. */
  ghost predicate Permitted(grants: set<Grant>, name: string, at: int) {
    exists g :: g in grants && g.name == name && g.at <= at < g.until
  }

  ghost predicate UniqueNames(list: seq<Entry>) {
    forall i, j :: 0 <= i < j < |list| ==> list[i].name != list[j].name
  }

  ghost predicate Granted(e: Entry, grants: set<Grant>, now: int) {
    exists g :: g in grants && g.name == e.name && g.until == e.stamp && g.at <= now
  }

  ghost predicate ListOk(list: seq<Entry>, grants: set<Grant>, now: int) {
    && UniqueNames(list)
    && forall i :: 0 <= i < |list| ==> Granted(list[i], grants, now)
  }

  ghost predicate ServingOk(serving: Option<Serving>, grants: set<Grant>) {
    serving.Some? ==>
      && (forall n :: n in serving.value.names ==> Permitted(grants, n, serving.value.at))
      && (serving.value.stored.Some? && serving.value.stored.value != "" ==> serving.value.stored.value in serving.value.names)
  }

  /** A permission not used up yet: on the list, or being served. */
  ghost predicate Open(list: seq<Entry>, serving: Option<Serving>, name: string) {
    Listed(list, name) || (serving.Some? && name in serving.value.names)
  }

  ghost predicate UsedOnce(list: seq<Entry>, serving: Option<Serving>, trace: Trace) {
    forall n :: trace.completed[n] + (if Open(list, serving, n) then 1 else 0) <= trace.added[n]
  }

  ghost predicate StoresOk(trace: Trace) {
    forall i :: 0 <= i < |trace.stores| ==> Permitted(trace.grants, trace.stores[i].0, trace.stores[i].1)
  }

  ghost predicate Inv(s: State) {
    && ListOk(s.list, s.trace.grants, s.now)
    && ServingOk(s.serving, s.trace.grants)
    && UsedOnce(s.list, s.serving, s.trace)
    && StoresOk(s.trace)
  }

  /** `sub` has no entry that `list` has not. */
  ghost predicate Within(sub: seq<Entry>, list: seq<Entry>) {
    forall e :: e in sub ==> e in list
  }

  lemma {:induction false} FreshExact(list: seq<Entry>, now: int)
    ensures forall e :: e in Fresh(list, now) <==> e in list && e.stamp > now
    ensures UniqueNames(list) ==> UniqueNames(Fresh(list, now))
  {
    hide UniqueNames;
    if list != [] {
      var n := |list| - 1;
      FreshExact(list[..n], now);
      assert list == list[..n] + [list[n]];
      assert Fresh(list[..n], now) + [] == Fresh(list[..n], now);
      if UniqueNames(list) {
        UniqueLast(list);
        UniqueMore(Fresh(list[..n], now), list[n]);
      }
    } else {
      assert Fresh(list, now) == list;
    }
  }

  lemma UniqueLast(list: seq<Entry>)
    requires UniqueNames(list) && list != []
    ensures var n := |list| - 1; UniqueNames(list[..n]) && forall e :: e in list[..n] ==> e.name != list[n].name
  {
  }

  lemma UniqueMore(list: seq<Entry>, e: Entry)
    requires UniqueNames(list) && forall d :: d in list ==> d.name != e.name
    ensures UniqueNames(list + [e])
  {
  }

  lemma UniqueFirst(list: seq<Entry>)
    requires UniqueNames(list) && list != []
    ensures UniqueNames(list[1..]) && forall e :: e in list[1..] ==> e.name != list[0].name
  {
  }

  lemma UniqueCons(e: Entry, list: seq<Entry>)
    requires UniqueNames(list) && forall d :: d in list ==> d.name != e.name
    ensures UniqueNames([e] + list)
  {
  }

  lemma {:induction false} DroppedExact(list: seq<Entry>, name: string)
    requires UniqueNames(list)
    ensures forall e :: e in Dropped(list, name) <==> e in list && e.name != name
    ensures UniqueNames(Dropped(list, name))
  {
    hide UniqueNames;
    if list != [] {
      UniqueFirst(list);
      DroppedExact(list[1..], name);
      assert list == [list[0]] + list[1..];
      UniqueCons(list[0], Dropped(list[1..], name));
    } else {
      assert Dropped(list, name) == list;
    }
  }

  /** Entries may leave the list and time may pass. */
  lemma ShrinkKeeps(s: State, list: seq<Entry>, now: int)
    requires Inv(s) && now >= s.now && UniqueNames(list) && Within(list, s.list)
    ensures Inv(s.(now := now, list := list))
  {
    forall i | 0 <= i < |list| ensures Granted(list[i], s.trace.grants, now) {
      assert list[i] in s.list;
      assert Granted(list[i], s.trace.grants, s.now);
    }
    forall n | Open(list, s.serving, n) ensures Open(s.list, s.serving, n) {
      if Listed(list, n) {
        var i :| 0 <= i < |list| && list[i].name == n;
        assert list[i] in s.list;
      }
    }
  }

  lemma FreshKeeps(s: State, at: int)
    requires Inv(s) && at >= s.now
    ensures Inv(s.(now := at, list := Fresh(s.list, at)))
  {
    FreshExact(s.list, at);
    ShrinkKeeps(s, Fresh(s.list, at), at);
  }

  lemma AddKeeps(s: State, name: string, timeout: int)
    requires Inv(s) && !Listed(s.list, name)
    ensures Inv(s.(list := s.list + [Entry(s.now + timeout, name)],
                   trace := s.trace.(grants := s.trace.grants + {Grant(name, s.now, s.now + timeout)},
                                     added := s.trace.added + multiset{name})))
  {
  }

  lemma AcceptKeeps(s: State)
    requires Inv(s) && s.serving.None?
    ensures Inv(s.(serving := Some(Serving(s.now, NamesOf(Fresh(s.list, s.now)), None))))
  {
    FreshExact(s.list, s.now);
    var fresh_ := Fresh(s.list, s.now);
    forall n | n in NamesOf(fresh_) ensures Permitted(s.trace.grants, n, s.now) && Listed(s.list, n) {
      var i :| 0 <= i < |fresh_| && fresh_[i].name == n;
      assert fresh_[i] in s.list;
      var j :| 0 <= j < |s.list| && s.list[j] == fresh_[i];
      assert Granted(s.list[j], s.trace.grants, s.now);
    }
  }

  lemma ServeKeeps(s: State, received: Option<seq<Cert>>)
    requires Inv(s) && s.serving.Some?
    ensures Inv(OnServe(s, received))
  {
  }

  lemma AnswerKeeps(s: State, ok: bool)
    requires Inv(s) && s.serving.Some? && s.serving.value.stored.Some?
    ensures Inv(OnAnswer(s, ok))
  {
    var name, t := s.serving.value.stored.value, OnAnswer(s, ok);
    if name != "" && ok {
      DroppedExact(s.list, name);
      ShrinkKeeps(s, t.list, s.now);
      assert Open(s.list, s.serving, name);
      assert !Listed(t.list, name) by {
        forall i | 0 <= i < |t.list| ensures t.list[i].name != name { assert t.list[i] in t.list; }
      }
      forall n | Open(t.list, None, n) ensures Open(t.list, s.serving, n) && n != name {
      }
    } else {
      forall n | Open(t.list, None, n) ensures Open(s.list, s.serving, n) {
      }
    }
  }

  lemma StepKeeps(s: State, e: Event)
    requires Inv(s) && Enabled(s, e)
    ensures Inv(Next(s, e))
  {
    hide Inv, Fresh, Dropped, OnServe, OnAnswer;
    var later := s.(now := e.at);
    LaterKeeps(s, e.at);
    match e
    case Add(at, name, timeout) =>
      FreshKeeps(s, at);
      if !Listed(Fresh(s.list, at), name) { AddKeeps(later.(list := Fresh(s.list, at)), name, timeout); }
    case Remove(at, name) => RemoveKeeps(s, at, name);
    case Look(at) => FreshKeeps(s, at);
    case Accept(at) => AcceptKeeps(later);
    case Serve(_, received) => ServeKeeps(later, received);
    case Answer(_, ok) => AnswerKeeps(later, ok);
    case Abort(_) => AbortKeeps(later);
    case Other(_, f) => CertsKeep(later, Certificates.Step(s.certs, f));
  }

  lemma LaterKeeps(s: State, now: int)
    requires Inv(s) && now >= s.now
    ensures Inv(s.(now := now))
  {
  }

  lemma RemoveKeeps(s: State, at: int, name: string)
    requires Inv(s) && at >= s.now
    ensures Inv(s.(now := at, list := Dropped(Fresh(s.list, at), name)))
  {
    FreshExact(s.list, at);
    DroppedExact(Fresh(s.list, at), name);
    ShrinkKeeps(s, Dropped(Fresh(s.list, at), name), at);
  }

  lemma AbortKeeps(s: State)
    requires Inv(s)
    ensures Inv(s.(serving := None))
  {
  }

  lemma CertsKeep(s: State, certs: Certificates.State)
    requires Inv(s)
    ensures Inv(s.(certs := certs))
  {
  }

  lemma {:induction false} RunKeeps(s: State, es: seq<Event>, t: State)
    requires Inv(s) && Reaches(s, es, t)
    ensures Inv(t)
    decreases es
  {
    hide Inv, Next, Enabled;
    if es != [] {
      StepKeeps(s, es[0]);
      RunKeeps(Next(s, es[0]), es[1..], t);
    }
  }

  // ---------------------------------------------------------------- main results

  /** Over every run: listed names are distinct, and for each name the completed exchanges, plus one
      that is still open, do not outnumber the times it was put on the list. */
  lemma EachGrantUsedOnce(now: int, certs: Certificates.State, es: seq<Event>, t: State)
    requires Reaches(Start(now, certs), es, t)
    ensures UniqueNames(t.list) && UsedOnce(t.list, t.serving, t.trace)
  {
    RunKeeps(Start(now, certs), es, t);
  }

  /** Over every run: a certificate was stored only if its name had been added and the permission had
      not run out when the connection was accepted. */
  lemma StoredOnlyIfPermitted(now: int, certs: Certificates.State, es: seq<Event>, t: State)
    requires Reaches(Start(now, certs), es, t)
    ensures forall i :: 0 <= i < |t.trace.stores| ==> Permitted(t.trace.grants, t.trace.stores[i].0, t.trace.stores[i].1)
  {
    RunKeeps(Start(now, certs), es, t);
  }

  /** And these stores are all the thread does to the certificate file: a step of it that changes the
      file leaves there exactly one certificate that is new, under a name permitted at the accept. */
  lemma FileChangesArePermitted(now: int, certs: Certificates.State, es: seq<Event>, t: State, e: Event)
    requires Reaches(Start(now, certs), es, t) && Enabled(t, e) && !e.Other?
    requires Next(t, e).certs.file != t.certs.file
    ensures t.serving.Some? && Next(t, e).certs.file.Some?
    ensures var file := Next(t, e).certs.file.value;
            && file != []
            && Permitted(t.trace.grants, file[|file| - 1].name, t.serving.value.at)
            && t.certs.file.Some? && file[..|file| - 1] == Others(t.certs.file.value, file[|file| - 1].name)
  {
    hide Inv, Fresh, Dropped, Others;
    StartInv(now, certs);
    RunKeeps(Start(now, certs), es, t);
    ServingPermits(t);
  }

  lemma StartInv(now: int, certs: Certificates.State)
    ensures Inv(Start(now, certs))
  {
  }

  lemma ServingPermits(s: State)
    requires Inv(s)
    ensures s.serving.Some? ==> forall n :: n in s.serving.value.names ==> Permitted(s.trace.grants, n, s.serving.value.at)
  {
  }

  // ---------------------------------------------------------------- the loops

  class ActivateHost {
    const store: CertificateStore
    var list: seq<Entry>
    var serving: Option<Serving>
    ghost var now: int
    ghost var trace: Trace

    ghost function Abs(): State
      reads this, store
    {
      State.State(now, list, serving, store.Abs(), trace)
    }

    constructor (store: CertificateStore, now: int)
      ensures this.store == store && Abs() == Start(now, store.Abs())
    {
      this.store, this.now, list, serving, trace := store, now, [], None, Trace({}, multiset{}, [], multiset{});
    }

    method Cleanup(at: int)
      modifies this`list
      ensures list == Fresh(old(list), at)
    {
      hide Fresh;
      ghost var all, k, done := list, 0, [];
      FreshNone(all, at);
      var i := 0;
      while i < |list|
        invariant 0 <= k <= |all| && done == Fresh(all[..k], at) && i == |done|
        invariant list == done + all[k..]
        decreases |all| - k
      {
        FreshNext(all, at, k);
        assert list[..i] == done && list[i] == all[k] && list[i + 1..] == all[k + 1..];
        k := k + 1;
        if list[i].stamp <= at {
          list := list[..i] + list[i + 1..];
        } else {
          done := done + [list[i]];
          i := i + 1;
        }
      }
      assert all[..k] == all;
    }

    method Find(name: string) returns (i: nat)
      ensures i <= |list| && (i < |list| <==> Listed(list, name))
      ensures i < |list| ==> list[i].name == name
      ensures Dropped(list, name) == if i < |list| then list[..i] + list[i + 1..] else list
    {
      i := 0;
      while i < |list| && list[i].name != name
        invariant i <= |list| && forall j :: 0 <= j < i ==> list[j].name != name
      {
        i := i + 1;
      }
      if i < |list| {
        DroppedAt(list, name, i);
      } else {
        DroppedAbsent(list, name);
      }
    }

    method Add(at: int, name: string, timeout: int)
      requires at >= now
      modifies this
      ensures Abs() == Next(old(Abs()), Event.Add(at, name, timeout))
    {
      hide Fresh, Dropped, Listed;
      now := at;
      Cleanup(at);
      var i := Find(name);
      if i == |list| {
        list := list + [Entry(at + timeout, name)];
        trace := trace.(grants := trace.grants + {Grant(name, at, at + timeout)}, added := trace.added + multiset{name});
      }
    }

    method Remove(at: int, name: string) returns (found: bool)
      requires at >= now
      modifies this
      ensures Abs() == Next(old(Abs()), Event.Remove(at, name))
      ensures found == Listed(Fresh(old(list), at), name)
    {
      hide Fresh, Dropped, Listed;
      now := at;
      Cleanup(at);
      var i := Find(name);
      found := i < |list|;
      if found {
        list := list[..i] + list[i + 1..];
      }
    }

    method IsInList(at: int, name: string) returns (until: Option<int>)
      requires at >= now
      modifies this
      ensures Abs() == Next(old(Abs()), Look(at))
      ensures until.Some? <==> Listed(Fresh(old(list), at), name)
      ensures until.Some? ==> Entry(until.value, name) in list && until.value > at
    {
      hide Fresh, Dropped, Listed;
      now := at;
      FreshExact(list, at);
      Cleanup(at);
      var i := Find(name);
      until := None;
      if i < |list| {
        assert list[i] in list;
        until := Some(list[i].stamp);
      }
    }

    /** The names permitted when a connection comes in. */
    method AcceptConnection(at: int)
      requires at >= now && serving.None?
      modifies this
      ensures Abs() == Next(old(Abs()), Event.Accept(at))
    {
      hide Fresh;
      var names: seq<string> := [];
      FreshNone(list, at);
      for i := 0 to |list|
        modifies {}
        invariant names == NamesOf(Fresh(list[..i], at))
      {
        FreshNext(list, at, i);
        if list[i].stamp > at {
          names := names + [list[i].name];
        }
      }
      assert list[..|list|] == list;
      now, serving := at, Some(Serving(at, names, None));
    }

    method ServeConnection(at: int, received: Option<seq<Cert>>)
      requires at >= now && serving.Some? && serving.value.stored.None?
      modifies this, store
      ensures Abs() == Next(old(Abs()), Event.Serve(at, received))
    {
      hide Others;
      now := at;
      var v := serving.value;
      if Accepted(store.Abs(), received, v.names) {
        trace := trace.(stores := trace.stores + [(received.value[0].name, v.at)]);
      }
      var name := store.Exchange(received, v.names);
      serving := Some(v.(stored := Some(name)));
    }

    /** The own certificate was sent, or not. */
    method AnswerConnection(at: int, ok: bool)
      requires at >= now && serving.Some? && serving.value.stored.Some?
      modifies this
      ensures Abs() == Next(old(Abs()), Event.Answer(at, ok))
    {
      hide Dropped, Listed;
      now := at;
      var name := serving.value.stored.value;
      if |name| > 0 && ok {
        var i := Find(name);
        if i < |list| {
          list := list[..i] + list[i + 1..];
        }
        trace := trace.(completed := trace.completed + multiset{name});
      }
      serving := None;
    }
  }

  lemma FreshNone(list: seq<Entry>, now: int)
    ensures Fresh(list[..0], now) == []
  {
  }

  lemma FreshNext(list: seq<Entry>, now: int, k: nat)
    requires k < |list|
    ensures Fresh(list[..k + 1], now) == Fresh(list[..k], now) + if list[k].stamp <= now then [] else [list[k]]
  {
    assert list[..k + 1][..k] == list[..k];
  }

  lemma {:induction false} DroppedAt(list: seq<Entry>, name: string, i: nat)
    requires i < |list| && list[i].name == name && forall j :: 0 <= j < i ==> list[j].name != name
    ensures Dropped(list, name) == list[..i] + list[i + 1..]
  {
    if i > 0 {
      DroppedAt(list[1..], name, i - 1);
      assert list[..i] == [list[0]] + list[1..][..i - 1];
    }
  }

  lemma {:induction false} DroppedAbsent(list: seq<Entry>, name: string)
    requires !Listed(list, name)
    ensures Dropped(list, name) == list
  {
    if list != [] {
      assert !Listed(list[1..], name);
      DroppedAbsent(list[1..], name);
    }
  }
}
