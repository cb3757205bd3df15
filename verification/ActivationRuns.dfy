/** What the permission list does, said of the events of a run alone. */
module ActivationRuns {
  import opened Bytes
  import Certificates
  import opened Activation

  // ---------------------------------------------------------------- permissions

  /** Event k adds the name at that time, until then. */
  ghost predicate Adds(es: seq<Event>, k: int, name: string, at: int, until: int) {
    0 <= k < |es| && es[k].Add? && es[k].name == name && es[k].at == at && until == at + es[k].timeout
  }

  /** Some event adds the name until then, no later than `now`. */
  ghost predicate AddedUntil(es: seq<Event>, name: string, now: int, until: int) {
    exists k, at :: Adds(es, k, name, at, until) && at <= now
  }

  /** Some event permits the name at that time. */
  ghost predicate PermittedBy(es: seq<Event>, name: string, time: int) {
    exists k, at, until :: Adds(es, k, name, at, until) && at <= time < until
  }

  /** Every recorded grant is an event of the run. */
  lemma {:induction false} GrantsAreEvents(s: State, es: seq<Event>, t: State, g: Grant) returns (k: nat)
    requires Reaches(s, es, t) && g in t.trace.grants && g !in s.trace.grants
    ensures Adds(es, k, g.name, g.at, g.until)
    decreases es
  {
    hide Fresh, Dropped;
    k := 0;
    var u := Next(s, es[0]);
    if g in u.trace.grants {
      assert Adds(es, 0, g.name, g.at, g.until);
    } else {
      k := GrantsAreEvents(u, es[1..], t, g);
      assert es[1..][k] == es[k + 1];
      k := k + 1;
    }
  }

  lemma PermittedIsEvent(now: int, certs: Certificates.State, es: seq<Event>, t: State, name: string, time: int)
    requires Reaches(Start(now, certs), es, t) && Permitted(t.trace.grants, name, time)
    ensures PermittedBy(es, name, time)
  {
    hide Reaches;
    var g :| g in t.trace.grants && g.name == name && g.at <= time < g.until;
    var k := GrantsAreEvents(Start(now, certs), es, t, g);
  }

  /** After every run: listed names are distinct, and each entry's stamp is the time plus the timeout of
      an event that added its name. */
  lemma EntriesAreEvents(now: int, certs: Certificates.State, es: seq<Event>, t: State)
    requires Reaches(Start(now, certs), es, t)
    ensures UniqueNames(t.list)
    ensures forall i :: 0 <= i < |t.list| ==> AddedUntil(es, t.list[i].name, t.now, t.list[i].stamp)
  {
    hide Reaches;
    StartInv(now, certs);
    RunKeeps(Start(now, certs), es, t);
    forall i | 0 <= i < |t.list| ensures AddedUntil(es, t.list[i].name, t.now, t.list[i].stamp) {
      assert Granted(t.list[i], t.trace.grants, t.now);
      var g :| g in t.trace.grants && g.name == t.list[i].name && g.until == t.list[i].stamp && g.at <= t.now;
      var k := GrantsAreEvents(Start(now, certs), es, t, g);
      assert Adds(es, k, t.list[i].name, g.at, t.list[i].stamp);
    }
  }

  /** Event k is the last accept of the run. */
  ghost predicate LastAccept(es: seq<Event>, k: int, at: int) {
    0 <= k < |es| && es[k] == Accept(at) && forall m :: k < m < |es| ==> !es[m].Accept?
  }

  lemma {:induction false} ServingSince(s: State, es: seq<Event>, t: State) returns (k: int)
    requires Reaches(s, es, t) && t.serving.Some?
    ensures if k >= 0 then LastAccept(es, k, t.serving.value.at)
            else s.serving.Some? && s.serving.value.at == t.serving.value.at && forall m :: 0 <= m < |es| ==> !es[m].Accept?
    decreases es
  {
    hide Fresh, Dropped;
    k := -1;
    if es != [] {
      k := ServingSince(Next(s, es[0]), es[1..], t);
      assert forall m :: 0 < m < |es| ==> es[m] == es[1..][m - 1];
      if k >= 0 {
        k := k + 1;
      } else if es[0].Accept? {
        k := 0;
      }
    }
  }

  /** Over every run: if the thread stores a certificate, an event of the run had added its name, and that
      permission held when the connection it came over, the last one, was accepted. */
  lemma StoredMeansAdded(now: int, certs: Certificates.State, es: seq<Event>, t: State, received: Option<seq<Certificates.Cert>>, at: int)
    returns (k: int)
    requires Reaches(Start(now, certs), es, t) && Enabled(t, Serve(at, received))
    requires Next(t, Serve(at, received)).certs != t.certs
    ensures received.Some? && |received.value| == 1
    ensures LastAccept(es, k, t.serving.value.at) && PermittedBy(es, received.value[0].name, t.serving.value.at)
  {
    hide Reaches, Inv, Permitted, PermittedBy;
    StartInv(now, certs);
    RunKeeps(Start(now, certs), es, t);
    ServingPermits(t);
    k := ServingSince(Start(now, certs), es, t);
    PermittedIsEvent(now, certs, es, t, received.value[0].name, t.serving.value.at);
  }

  // ---------------------------------------------------------------- how often

  /** How often the events add the name. */
  function AddEvents(es: seq<Event>, name: string): nat {
    if es == [] then 0 else (if es[0].Add? && es[0].name == name then 1 else 0) + AddEvents(es[1..], name)
  }

  /** How often an exchange for the name is completed: answered after its certificate was stored. */
  function Completions(s: State, es: seq<Event>, name: string): nat
    decreases es
  {
    if es == [] || !Enabled(s, es[0]) then 0
    else
      var e := es[0];
      (if e.Answer? && e.ok && s.serving.value.stored.value == name && name != "" then 1 else 0)
      + Completions(Next(s, e), es[1..], name)
  }

  lemma {:induction false} Counted(s: State, es: seq<Event>, t: State, name: string)
    requires Reaches(s, es, t)
    ensures t.trace.completed[name] == s.trace.completed[name] + Completions(s, es, name)
    ensures t.trace.added[name] <= s.trace.added[name] + AddEvents(es, name)
    decreases es
  {
    hide Fresh, Dropped;
    if es != [] {
      Counted(Next(s, es[0]), es[1..], t, name);
    }
  }

  /** Over every run: completed exchanges for a name do not outnumber the events that add it, even with one
      that is still open counted as complete. */
  lemma NoMoreThanAdded(now: int, certs: Certificates.State, es: seq<Event>, t: State, name: string)
    requires Reaches(Start(now, certs), es, t)
    ensures Completions(Start(now, certs), es, name) + (if Open(t.list, t.serving, name) then 1 else 0) <= AddEvents(es, name)
  {
    hide Reaches, Open, Completions, AddEvents;
    Counted(Start(now, certs), es, t, name);
    EachGrantUsedOnce(now, certs, es, t);
  }

  // ---------------------------------------------------------------- one event

  /** What each event leaves on the list: only a removal, a completed exchange and the passing of time take
      an entry off, and only an addition puts one on, if its name is not permitted already. */
  lemma ListExact(s: State, e: Event, x: Entry)
    requires Inv(s) && Enabled(s, e)
    ensures x in Next(s, e).list <==>
      match e
      case Add(at, name, timeout) =>
        (x in s.list && x.stamp > at) || (x == Entry(at + timeout, name) && forall y :: y in s.list && y.name == name ==> y.stamp <= at)
      case Remove(at, name) => x in s.list && x.stamp > at && x.name != name
      case Look(at) => x in s.list && x.stamp > at
      case Answer(_, ok) => x in s.list && !(ok && x.name != "" && s.serving.value.stored.value == x.name)
      case _ => x in s.list
  {
    hide Fresh, Dropped, UsedOnce, ServingOk, StoresOk;
    FreshExact(s.list, e.at);
    match e
    case Add(at, name, timeout) =>
    case Remove(at, name) => DroppedExact(Fresh(s.list, at), name);
    case Answer(_, ok) => DroppedExact(s.list, s.serving.value.stored.value);
    case _ =>
  }

  /** A connection is served with exactly the names permitted when it is accepted. */
  lemma AcceptExact(s: State, at: int, name: string)
    requires Enabled(s, Accept(at))
    ensures Next(s, Accept(at)).serving.Some? && Next(s, Accept(at)).serving.value.at == at
    ensures name in Next(s, Accept(at)).serving.value.names <==> exists y :: y in s.list && y.name == name && y.stamp > at
  {
    hide Fresh;
    var list := Fresh(s.list, at);
    FreshExact(s.list, at);
    if name in NamesOf(list) {
      var i :| 0 <= i < |list| && NamesOf(list)[i] == name;
      assert list[i] in list;
    }
    if Listed(list, name) {
      var i :| 0 <= i < |list| && list[i].name == name;
      assert NamesOf(list)[i] == name;
    }
  }

  /** What is served is stored, and waits for the answer, exactly if its name is one of them. */
  lemma ServeExact(s: State, at: int, received: Option<seq<Certificates.Cert>>)
    requires Enabled(s, Serve(at, received))
    ensures var t := Next(s, Serve(at, received));
            if received.Some? && |received.value| == 1 && received.value[0].name in s.serving.value.names && s.certs.file.Some? then
              && t.serving.Some? && t.serving.value.stored == Some(received.value[0].name)
              && t.certs.file.Some? && received.value[0] in t.certs.file.value
            else
              t.certs == s.certs && t.serving.Some? && t.serving.value.stored == Some("")
  {
  }

  /** A connection is over with its answer or an exception, and only then; only serving it and what happens
      elsewhere touch the certificates. */
  lemma ConnectionExact(s: State, e: Event)
    requires Enabled(s, e)
    ensures e.Answer? || e.Abort? ==> Next(s, e).serving == None
    ensures !e.Answer? && !e.Abort? && !e.Accept? && !e.Serve? ==> Next(s, e).serving == s.serving
    ensures !e.Serve? && !e.Other? ==> Next(s, e).certs == s.certs
    ensures e.Other? ==> Next(s, e).certs == Certificates.Step(s.certs, e.e)
  {
    hide Fresh, Dropped;
  }
}
