/**
 Live reconfiguration: `unpopulate_json` removes or trims the running hosts that differ from the
 new configuration, then `populate_json` completes the others and creates the missing ones
 (src/proxy_global.cpp:285-425, 515-584, src/remoteclient.cpp:507-529, 755-772).
 */
module Reconfig {
  import opened Bytes

  datatype RemoteEndpoint = RemoteEndpoint(name: string, hostname: string, password: string, username: string, port: nat)

  datatype LocalEndpoint = LocalEndpoint(hostname: string, port: nat)

  /** `operator==` of remote endpoints leaves out the port. */
  datatype Key = Key(name: string, hostname: string, password: string, username: string)

  function KeyOf(e: RemoteEndpoint): Key {
    Key(e.name, e.hostname, e.password, e.username)
  }

  predicate Same(a: RemoteEndpoint, b: RemoteEndpoint) {
    KeyOf(a) == KeyOf(b)
  }

  /** Two endpoints are the same if they differ at most in the port. */
  lemma SameIff(a: RemoteEndpoint, b: RemoteEndpoint)
    ensures Same(a, b) <==> a == b.(port := a.port)
  {
  }

  /** A connected session and the remote endpoint it belongs to. */
  datatype Session = Session(id: nat, endpoint: RemoteEndpoint)

  datatype Host = Host(
    port: nat, remotes: seq<RemoteEndpoint>, locals: seq<LocalEndpoint>, plugin: string, sessions: seq<Session>)

  /** One entry of "hosts".  A list that is not an array is None, as is an item that cannot be loaded;
      a missing port is 0 and a missing plugin type is empty. */
  datatype HostConfig = HostConfig(
    port: nat, remotes: Option<seq<Option<RemoteEndpoint>>>, locals: Option<seq<Option<LocalEndpoint>>>, plugin: string)

  /** Why a configuration was refused: the two assertions. */
  datatype Failure = BadRemotes | ShouldHaveBeenDeleted

  datatype Outcome<+T> = Done(value: T) | Failed(why: Failure)

  // ---------------------------------------------------------------- endpoint lists

  ghost predicate Has(es: seq<RemoteEndpoint>, e: RemoteEndpoint) {
    exists i :: 0 <= i < |es| && Same(es[i], e)
  }

  ghost function Keys(es: seq<RemoteEndpoint>): set<Key> {
    set i | 0 <= i < |es| :: KeyOf(es[i])
  }

  /** Those of `es` that are, or are not, in `other`; in order. */
  ghost function Select(es: seq<RemoteEndpoint>, other: seq<RemoteEndpoint>, within: bool): seq<RemoteEndpoint> {
    if es == [] then []
    else
      var n := |es| - 1;
      Select(es[..n], other, within) + if Has(other, es[n]) == within then [es[n]] else []
  }

  /** `es` without its first element that is `e`. */
  function Erased(es: seq<RemoteEndpoint>, e: RemoteEndpoint): seq<RemoteEndpoint> {
    if es == [] then [] else if Same(es[0], e) then es[1..] else [es[0]] + Erased(es[1..], e)
  }

  /** `remove_remotes`. */
  function ErasedAll(es: seq<RemoteEndpoint>, gone: seq<RemoteEndpoint>): seq<RemoteEndpoint> {
    if gone == [] then es else Erased(ErasedAll(es, gone[..|gone| - 1]), gone[|gone| - 1])
  }

  lemma HasKey(es: seq<RemoteEndpoint>, e: RemoteEndpoint)
    ensures Has(es, e) <==> KeyOf(e) in Keys(es)
  {
  }

  lemma {:induction false} SelectKeys(es: seq<RemoteEndpoint>, other: seq<RemoteEndpoint>, within: bool)
    ensures Keys(Select(es, other, within)) == if within then Keys(es) * Keys(other) else Keys(es) - Keys(other)
  {
    if es != [] {
      var n := |es| - 1;
      SelectKeys(es[..n], other, within);
      HasKey(other, es[n]);
      KeysAppend(es[..n], [es[n]]);
      assert es[..n] + [es[n]] == es;
      KeysAppend(Select(es[..n], other, within), [es[n]]);
      assert Keys([es[n]]) == {KeyOf(es[n])} by { assert [es[n]][0] == es[n]; }
      if Has(other, es[n]) != within {
        assert Select(es, other, within) == Select(es[..n], other, within);
      }
    }
  }

  lemma KeysAppend(a: seq<RemoteEndpoint>, b: seq<RemoteEndpoint>)
    ensures Keys(a + b) == Keys(a) + Keys(b)
  {
    forall k | k in Keys(a) + Keys(b) ensures k in Keys(a + b) {
      if k in Keys(a) {
        var i :| 0 <= i < |a| && KeyOf(a[i]) == k;
        assert (a + b)[i] == a[i];
      } else {
        var i :| 0 <= i < |b| && KeyOf(b[i]) == k;
        assert (a + b)[|a| + i] == b[i];
      }
    }
  }

  lemma {:induction false} ErasedAt(good: seq<RemoteEndpoint>, e: RemoteEndpoint, rest: seq<RemoteEndpoint>)
    requires !Has(good, e)
    ensures Erased(good + [e] + rest, e) == good + rest
  {
    var all := good + [e] + rest;
    if good == [] {
      assert all == [e] + rest;
    } else {
      assert !Same(good[0], e);
      assert all[1..] == good[1..] + [e] + rest;
      assert !Has(good[1..], e);
      ErasedAt(good[1..], e, rest);
    }
  }

  /** Erasing, one by one, the elements of `old` that are not in `new` erases exactly those:
      the first element like each is itself. */
  lemma {:induction false} ErasedExactly(old_: seq<RemoteEndpoint>, rest: seq<RemoteEndpoint>, new_: seq<RemoteEndpoint>)
    ensures ErasedAll(old_ + rest, Select(old_, new_, false)) == Select(old_, new_, true) + rest
    decreases |old_|
  {
    hide Has;
    if old_ == [] {
      assert old_ + rest == rest;
    } else {
      var n := |old_| - 1;
      var e := old_[n];
      var front, bad, good := old_[..n], Select(old_[..n], new_, false), Select(old_[..n], new_, true);
      assert old_ + rest == front + ([e] + rest);
      ErasedExactly(front, [e] + rest, new_);
      if Has(new_, e) {
        assert Select(old_, new_, false) == bad;
        assert good + ([e] + rest) == Select(old_, new_, true) + rest;
      } else {
        assert Select(old_, new_, false)[..|bad|] == bad;
        assert good + ([e] + rest) == good + [e] + rest;
        NoneLike(front, new_, e);
        ErasedAt(good, e, rest);
      }
    }
  }

  lemma NoneLike(es: seq<RemoteEndpoint>, other: seq<RemoteEndpoint>, e: RemoteEndpoint)
    requires !Has(other, e)
    ensures !Has(Select(es, other, true), e)
  {
  }

  /** The remotes a kept host ends up with: those still wanted, then those it lacked. */
  ghost function Adjusted(running: seq<RemoteEndpoint>, wanted: seq<RemoteEndpoint>): seq<RemoteEndpoint> {
    ErasedAll(running + Select(wanted, running, false), Select(running, wanted, false))
  }

  /** For all lists, duplicates included, adding and removing the differences leaves the wanted set. */
  lemma RemotesByDifference(running: seq<RemoteEndpoint>, wanted: seq<RemoteEndpoint>)
    ensures Adjusted(running, wanted) == Select(running, wanted, true) + Select(wanted, running, false)
    ensures Keys(Adjusted(running, wanted)) == Keys(wanted)
  {
    hide Keys, Select, ErasedAll;
    ErasedExactly(running, Select(wanted, running, false), wanted);
    KeysAppend(Select(running, wanted, true), Select(wanted, running, false));
    SelectKeys(running, wanted, true);
    SelectKeys(wanted, running, false);
  }

  // ---------------------------------------------------------------- sessions

  /** `remove_any`: the sessions whose endpoint was not removed, in order. */
  ghost function Staying(sessions: seq<Session>, removed: seq<RemoteEndpoint>): seq<Session> {
    if sessions == [] then []
    else
      var n := |sessions| - 1;
      Staying(sessions[..n], removed) + if Has(removed, sessions[n].endpoint) then [] else [sessions[n]]
  }

  ghost function StayMarks(sessions: seq<Session>, removed: seq<RemoteEndpoint>): (r: seq<bool>)
    ensures |r| == |sessions| && forall i :: 0 <= i < |r| ==> (r[i] <==> !Has(removed, sessions[i].endpoint))
  {
    seq(|sessions|, i requires 0 <= i < |sessions| => !Has(removed, sessions[i].endpoint))
  }

  /** The sessions that stay are those whose endpoint is none of the removed ones, in order. */
  lemma {:induction false} StayingExact(sessions: seq<Session>, removed: seq<RemoteEndpoint>) returns (at: seq<nat>)
    ensures Picks(Staying(sessions, removed), at, sessions)
    ensures Exactly(at, StayMarks(sessions, removed))
  {
    hide Has, Picks, Exactly;
    at := [];
    if sessions != [] {
      var n := |sessions| - 1;
      at := StayingExact(sessions[..n], removed);
      assert StayMarks(sessions, removed)[..n] == StayMarks(sessions[..n], removed);
      PickMore(Staying(sessions[..n], removed), at, sessions, StayMarks(sessions, removed));
      assert Staying(sessions[..n], removed) + [] == Staying(sessions[..n], removed);
      if StayMarks(sessions, removed)[n] {
        at := at + [n];
      }
    } else {
      PickNone(sessions, StayMarks(sessions, removed));
    }
  }

  /** A session stays exactly when its endpoint is still wanted, or was never configured. */
  lemma {:induction false} StayingIff(sessions: seq<Session>, running: seq<RemoteEndpoint>, wanted: seq<RemoteEndpoint>)
    ensures forall x :: x in Staying(sessions, Select(running, wanted, false)) <==>
      x in sessions && (Has(wanted, x.endpoint) || !Has(running, x.endpoint))
  {
    hide Has, Select;
    if sessions != [] {
      var n := |sessions| - 1;
      StayingIff(sessions[..n], running, wanted);
      RemovedHas(running, wanted, sessions[n].endpoint);
      assert sessions == sessions[..n] + [sessions[n]];
    }
  }

  lemma RemovedHas(running: seq<RemoteEndpoint>, wanted: seq<RemoteEndpoint>, e: RemoteEndpoint)
    ensures Has(Select(running, wanted, false), e) <==> Has(running, e) && !Has(wanted, e)
  {
    hide Has, Select, Keys;
    SelectKeys(running, wanted, false);
    HasKey(Select(running, wanted, false), e);
    HasKey(running, e);
    HasKey(wanted, e);
  }

  // ---------------------------------------------------------------- is_same

  /** The items that could be loaded. */
  function Loaded<T>(items: Option<seq<Option<T>>>): seq<T> {
    if items.None? then [] else LoadedItems(items.value)
  }

  function LoadedItems<T>(items: seq<Option<T>>): seq<T> {
    if items == [] then []
    else
      var n := |items| - 1;
      LoadedItems(items[..n]) + if items[n].Some? then [items[n].value] else []
  }

  predicate AllLoad<T>(items: Option<seq<Option<T>>>) {
    items.Some? && forall i :: 0 <= i < |items.value| ==> items.value[i].Some?
  }

  lemma {:induction false} LoadedAll<T>(items: seq<Option<T>>)
    requires forall i :: 0 <= i < |items| ==> items[i].Some?
    ensures |LoadedItems(items)| == |items| && forall i :: 0 <= i < |items| ==> LoadedItems(items)[i] == items[i].value
  {
    if items != [] {
      LoadedAll(items[..|items| - 1]);
    }
  }

  ghost function LoadMarks<T>(items: seq<Option<T>>): (r: seq<bool>)
    ensures |r| == |items| && forall i :: 0 <= i < |r| ==> (r[i] <==> items[i].Some?)
  {
    seq(|items|, i requires 0 <= i < |items| => items[i].Some?)
  }

  ghost function Items<T>(values: seq<T>): (r: seq<Option<T>>)
    ensures |r| == |values| && forall i :: 0 <= i < |r| ==> r[i] == Some(values[i])
  {
    seq(|values|, i requires 0 <= i < |values| => Some(values[i]))
  }

  /** The items that could be loaded, in order. */
  lemma {:induction false} LoadedExact<T>(items: seq<Option<T>>) returns (at: seq<nat>)
    ensures Picks(Items(LoadedItems(items)), at, items)
    ensures Exactly(at, LoadMarks(items))
  {
    hide Picks, Exactly;
    at := [];
    if items != [] {
      var n := |items| - 1;
      var front := LoadedItems(items[..n]);
      at := LoadedExact(items[..n]);
      assert LoadMarks(items)[..n] == LoadMarks(items[..n]);
      PickMore(Items(front), at, items, LoadMarks(items));
      assert front + [] == front;
      if items[n].Some? {
        at := at + [n];
        assert Items(front + [items[n].value]) == Items(front) + [items[n]];
      }
    } else {
      PickNone(items, LoadMarks(items));
      assert Items(LoadedItems(items)) == [];
    }
  }

  datatype Difference = Difference(param: bool, locals: bool, added: seq<RemoteEndpoint>, removed: seq<RemoteEndpoint>)

  /** The local lists agree item by item. */
  predicate SameLocals(running: seq<LocalEndpoint>, locals: Option<seq<Option<LocalEndpoint>>>) {
    && locals.Some? && |locals.value| == |running|
    && forall i :: 0 <= i < |running| ==> locals.value[i] == Some(running[i])
  }

  /** That is, the configured list is the running one, all items loaded. */
  lemma SameLocalsIff(running: seq<LocalEndpoint>, locals: Option<seq<Option<LocalEndpoint>>>)
    ensures SameLocals(running, locals) <==> locals == Some(Items(running))
  {
    if SameLocals(running, locals) {
      assert locals.value == Items(running);
    }
  }

  predicate SamePort(host: Host, c: HostConfig) {
    host.port == c.port && c.port > 0
  }

  ghost function DifferenceOf(host: Host, c: HostConfig): Difference {
    var wanted := Loaded(c.remotes);
    Difference(host.plugin != c.plugin, !SameLocals(host.locals, c.locals),
               Select(wanted, host.remotes, false), Select(host.remotes, wanted, false))
  }

  /** None: another port. */
  ghost function Compared(host: Host, c: HostConfig): Outcome<Option<Difference>> {
    if !SamePort(host, c) then Done(None)
    else if !AllLoad(c.remotes) then Failed(BadRemotes)
    else Done(Some(DifferenceOf(host, c)))
  }

  // ---------------------------------------------------------------- unpopulate

  datatype Verdict = Verdict(keep: bool, removed: seq<RemoteEndpoint>)

  /** Entry after entry, the last one with the host's port decides; the removed remotes pile up. */
  ghost function Judged(host: Host, cs: seq<HostConfig>): Outcome<Verdict> {
    if cs == [] then Done(Verdict(false, []))
    else
      var n := |cs| - 1;
      match Judged(host, cs[..n])
      case Failed(why) => Failed(why)
      case Done(v) =>
        match Compared(host, cs[n])
        case Failed(why) => Failed(why)
        case Done(None) => Done(v)
        case Done(Some(d)) => Done(Verdict(!(d.param || d.locals), v.removed + d.removed))
  }

  ghost function Trimmed(host: Host, removed: seq<RemoteEndpoint>): Host {
    host.(sessions := Staying(host.sessions, removed))
  }

  ghost function Unpopulated(hosts: seq<Host>, cs: seq<HostConfig>): Outcome<seq<Host>> {
    if hosts == [] then Done([])
    else
      var n := |hosts| - 1;
      match Unpopulated(hosts[..n], cs)
      case Failed(why) => Failed(why)
      case Done(kept) =>
        match Judged(hosts[n], cs)
        case Failed(why) => Failed(why)
        case Done(v) => Done(if v.keep then kept + [Trimmed(hosts[n], v.removed)] else kept)
  }

  // ---------------------------------------------------------------- populate

  ghost function Completed(host: Host, d: Difference): Host {
    host.(remotes := ErasedAll(host.remotes + d.added, d.removed))
  }

  ghost function UpdatedOne(host: Host, c: HostConfig): Outcome<Host> {
    match Compared(host, c)
    case Failed(why) => Failed(why)
    case Done(None) => Done(host)
    case Done(Some(d)) => if d.param || d.locals then Failed(ShouldHaveBeenDeleted) else Done(Completed(host, d))
  }

  /** All hosts, those with the entry's port completed. */
  ghost function Updated(hosts: seq<Host>, c: HostConfig): Outcome<seq<Host>> {
    if hosts == [] then Done([])
    else
      var n := |hosts| - 1;
      match Updated(hosts[..n], c)
      case Failed(why) => Failed(why)
      case Done(done) =>
        match UpdatedOne(hosts[n], c)
        case Failed(why) => Failed(why)
        case Done(h) => Done(done + [h])
  }

  predicate Found(hosts: seq<Host>, c: HostConfig) {
    exists i :: 0 <= i < |hosts| && SamePort(hosts[i], c)
  }

  /** A plugin type nobody registered falls back to the standard plugin, whose type is empty. */
  function Resolve(plugins: set<string>, kind: string): string {
    if kind in plugins then kind else ""
  }

  function Created(c: HostConfig, plugins: set<string>): seq<Host> {
    var remotes, locals := Loaded(c.remotes), Loaded(c.locals);
    if remotes != [] && locals != [] then [Host(c.port, remotes, locals, Resolve(plugins, c.plugin), [])] else []
  }

  /** An entry creates a host exactly if a remote and a local can be loaded: one with those that can. */
  lemma CreatedExact(c: HostConfig, plugins: set<string>)
    ensures Created(c, plugins) != [] <==> SomeLoads(c.remotes) && SomeLoads(c.locals)
    ensures Created(c, plugins) != [] ==>
      var plugin := if c.plugin in plugins then c.plugin else "";
      Created(c, plugins) == [Host(c.port, LoadedItems(c.remotes.value), LoadedItems(c.locals.value), plugin, [])]
  {
    LoadsSome(c.remotes);
    LoadsSome(c.locals);
  }

  ghost predicate SomeLoads<T>(items: Option<seq<Option<T>>>) {
    items.Some? && exists i :: 0 <= i < |items.value| && items.value[i].Some?
  }

  lemma LoadsSome<T>(items: Option<seq<Option<T>>>)
    ensures Loaded(items) != [] <==> SomeLoads(items)
  {
    if items.Some? {
      var at := LoadedExact(items.value);
      if at != [] {
        assert items.value[at[0]].Some?;
      }
    }
  }

  ghost function Populated(hosts: seq<Host>, cs: seq<HostConfig>, plugins: set<string>): Outcome<seq<Host>> {
    if cs == [] then Done(hosts)
    else
      var n := |cs| - 1;
      match Populated(hosts, cs[..n], plugins)
      case Failed(why) => Failed(why)
      case Done(hs) =>
        match Updated(hs, cs[n])
        case Failed(why) => Failed(why)
        case Done(us) => Done(if Found(hs, cs[n]) then us else us + Created(cs[n], plugins))
  }

  /** `config_upload`. */
  ghost function Reconfigured(hosts: seq<Host>, cs: seq<HostConfig>, plugins: set<string>): Outcome<seq<Host>> {
    match Unpopulated(hosts, cs)
    case Failed(why) => Failed(why)
    case Done(kept) => Populated(kept, cs, plugins)
  }

  /** The first failure is the outcome. */
  lemma {:induction false} PopulatedFailed(hosts: seq<Host>, cs: seq<HostConfig>, plugins: set<string>, k: nat)
    requires k <= |cs| && Populated(hosts, cs[..k], plugins).Failed?
    ensures Populated(hosts, cs, plugins) == Populated(hosts, cs[..k], plugins)
    decreases |cs|
  {
    hide Updated, Created;
    var n := |cs| - 1;
    if k < |cs| {
      assert cs[..n][..k] == cs[..k];
      PopulatedFailed(hosts, cs[..n], plugins, k);
    } else {
      assert cs[..k] == cs;
    }
  }
}
