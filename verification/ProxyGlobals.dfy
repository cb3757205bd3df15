/** The running hosts as objects, and the loops that edit them in place. */
module ProxyGlobals {
  import opened Bytes
  import opened Reconfig

  /** `std::find_if` with `operator==`. */
  method FindSame(es: seq<RemoteEndpoint>, e: RemoteEndpoint) returns (at: nat)
    ensures at <= |es| && (at < |es| <==> Has(es, e))
    ensures Erased(es, e) == if at < |es| then es[..at] + es[at + 1..] else es
  {
    at := 0;
    while at < |es| && !Same(es[at], e)
      invariant at <= |es| && forall i :: 0 <= i < at ==> !Same(es[i], e)
    {
      at := at + 1;
    }
    ErasedFirst(es, e, at);
  }

  lemma {:induction false} ErasedFirst(es: seq<RemoteEndpoint>, e: RemoteEndpoint, at: nat)
    requires at <= |es| && (forall i :: 0 <= i < at ==> !Same(es[i], e)) && (at < |es| ==> Same(es[at], e))
    ensures Erased(es, e) == if at < |es| then es[..at] + es[at + 1..] else es
  {
    if at > 0 {
      ErasedFirst(es[1..], e, at - 1);
    }
  }

  lemma StayingNone(sessions: seq<Session>, removed: seq<RemoteEndpoint>)
    ensures Staying(sessions[..0], removed) == []
  {
  }

  lemma StayingNext(sessions: seq<Session>, removed: seq<RemoteEndpoint>, k: nat)
    requires k < |sessions|
    ensures var before := Staying(sessions[..k], removed);
            Staying(sessions[..k + 1], removed) == if Has(removed, sessions[k].endpoint) then before else before + [sessions[k]]
  {
    hide Has;
    assert sessions[..k + 1][..k] == sessions[..k];
  }

  class RemoteProxyHost {
    const port: nat
    const plugin: string
    const locals: seq<LocalEndpoint>
    var remotes: seq<RemoteEndpoint>
    var sessions: seq<Session>

    ghost function View(): Host
      reads this
    {
      Host(port, remotes, locals, plugin, sessions)
    }

    constructor (port: nat, remotes: seq<RemoteEndpoint>, locals: seq<LocalEndpoint>, plugin: string)
      ensures View() == Host(port, remotes, locals, plugin, [])
    {
      this.port, this.remotes, this.locals, this.plugin, sessions := port, remotes, locals, plugin, [];
    }

    method AddRemotes(added: seq<RemoteEndpoint>)
      modifies this`remotes
      ensures remotes == old(remotes) + added
    {
      for i := 0 to |added|
        invariant remotes == old(remotes) + added[..i]
      {
        remotes := remotes + [added[i]];
      }
    }

    method RemoveRemotes(gone: seq<RemoteEndpoint>)
      modifies this`remotes
      ensures remotes == ErasedAll(old(remotes), gone)
    {
      hide Erased, Has;
      for i := 0 to |gone|
        invariant remotes == ErasedAll(old(remotes), gone[..i])
      {
        assert gone[..i + 1][..i] == gone[..i];
        var at := FindSame(remotes, gone[i]);
        if at < |remotes| {
          remotes := remotes[..at] + remotes[at + 1..];
        }
      }
      assert gone[..|gone|] == gone;
    }

    /** Stops and forgets the sessions of removed remotes. */
    method RemoveAny(removed: seq<RemoteEndpoint>)
      modifies this`sessions
      ensures sessions == Staying(old(sessions), removed)
    {
      hide Has, Erased, Staying;
      ghost var all, k, done := sessions, 0, [];
      StayingNone(all, removed);
      var i := 0;
      while i < |sessions|
        invariant 0 <= k <= |all| && done == Staying(all[..k], removed) && i == |done|
        invariant sessions == done + all[k..]
        decreases |all| - k
      {
        StayingNext(all, removed, k);
        AtHead(sessions, done, all, k);
        k := k + 1;
        var at := FindSame(removed, sessions[i].endpoint);
        if at < |removed| {
          sessions := sessions[..i] + sessions[i + 1..];
        } else {
          done := done + [sessions[i]];
          i := i + 1;
        }
      }
      assert all[..k] == all;
    }
  }

  // ---------------------------------------------------------------- is_same

  lemma SelectNothing(other: seq<RemoteEndpoint>, within: bool)
    ensures Select([], other, within) == []
  {
  }

  lemma SelectMore(es: seq<RemoteEndpoint>, e: RemoteEndpoint, other: seq<RemoteEndpoint>)
    ensures Select(es + [e], other, false) == if Has(other, e) then Select(es, other, false) else Select(es, other, false) + [e]
  {
    hide Has;
    assert (es + [e])[..|es|] == es;
  }

  lemma LoadedMore(items: seq<Option<RemoteEndpoint>>, i: nat)
    requires i < |items| && items[i].Some?
    ensures LoadedItems(items[..i + 1]) == LoadedItems(items[..i]) + [items[i].value]
  {
    assert items[..i + 1][..i] == items[..i];
  }

  /** The configured remotes a host does not have; None when one of them cannot be loaded. */
  method Added(items: seq<Option<RemoteEndpoint>>, running: seq<RemoteEndpoint>) returns (r: Option<seq<RemoteEndpoint>>)
    ensures r.Some? <==> AllLoad(Some(items))
    ensures r.Some? ==> r.value == Select(LoadedItems(items), running, false)
  {
    hide Has, Erased, Select;
    var added := [];
    SelectNothing(running, false);
    for i := 0 to |items|
      invariant forall j :: 0 <= j < i ==> items[j].Some?
      invariant added == Select(LoadedItems(items[..i]), running, false)
    {
      if items[i].None? {
        return None;
      }
      LoadedMore(items, i);
      SelectMore(LoadedItems(items[..i]), items[i].value, running);
      var at := FindSame(running, items[i].value);
      if at == |running| {
        added := added + [items[i].value];
      }
    }
    assert items[..|items|] == items;
    return Some(added);
  }

  /** The remotes of a host that are not configured any more. */
  method Removed(running: seq<RemoteEndpoint>, items: seq<Option<RemoteEndpoint>>) returns (removed: seq<RemoteEndpoint>)
    requires AllLoad(Some(items))
    ensures removed == Select(running, LoadedItems(items), false)
  {
    hide Has, Select, LoadedItems;
    removed := [];
    SelectNothing(LoadedItems(items), false);
    for i := 0 to |running|
      invariant removed == Select(running[..i], LoadedItems(items), false)
    {
      assert running[..i + 1] == running[..i] + [running[i]];
      SelectMore(running[..i], running[i], LoadedItems(items));
      var hit := Configured(running[i], items);
      if !hit {
        removed := removed + [running[i]];
      }
    }
    assert running[..|running|] == running;
  }

  method Configured(e: RemoteEndpoint, items: seq<Option<RemoteEndpoint>>) returns (hit: bool)
    requires AllLoad(Some(items))
    ensures hit <==> Has(LoadedItems(items), e)
  {
    LoadedAll(items);
    hit := false;
    for j := 0 to |items|
      invariant hit <==> exists i :: 0 <= i < j && Same(LoadedItems(items)[i], e)
    {
      if Same(e, items[j].value) {
        hit := true;
      }
    }
  }

  method LocalsChanged(running: seq<LocalEndpoint>, locals: Option<seq<Option<LocalEndpoint>>>) returns (changed: bool)
    ensures changed <==> !SameLocals(running, locals)
  {
    changed := true;
    if locals.Some? && |locals.value| == |running| {
      changed := false;
      for i := 0 to |running|
        invariant changed <==> exists j :: 0 <= j < i && locals.value[j] != Some(running[j])
      {
        if locals.value[i].None? || locals.value[i].value != running[i] {
          changed := true;
        }
      }
    }
  }

  method IsSame(host: RemoteProxyHost, c: HostConfig) returns (r: Outcome<Option<Difference>>)
    ensures r == Compared(host.View(), c)
  {
    hide Select, SameLocals, LoadedItems;
    if host.port != c.port || c.port == 0 {
      return Done(None);
    }
    if c.remotes.None? {
      return Failed(BadRemotes);
    }
    var added := Added(c.remotes.value, host.remotes);
    if added.None? {
      return Failed(BadRemotes);
    }
    var removed := Removed(host.remotes, c.remotes.value);
    var locals := LocalsChanged(host.locals, c.locals);
    return Done(Some(Difference(host.plugin != c.plugin, locals, added.value, removed)));
  }

  // ---------------------------------------------------------------- the hosts

  ghost function Views(hs: seq<RemoteProxyHost>): (r: seq<Host>)
    reads hs
    ensures |r| == |hs| && forall i :: 0 <= i < |hs| ==> r[i] == hs[i].View()
  {
    if hs == [] then [] else Views(hs[..|hs| - 1]) + [hs[|hs| - 1].View()]
  }

  /** Whether any entry keeps the host, and the remotes it loses. */
  method Judge(host: RemoteProxyHost, cs: seq<HostConfig>) returns (r: Outcome<Verdict>)
    ensures r == Judged(host.View(), cs)
  {
    hide Compared;
    var keep, removed := false, [];
    for i := 0 to |cs|
      invariant Judged(host.View(), cs[..i]) == Done(Verdict(keep, removed))
    {
      assert cs[..i + 1][..i] == cs[..i];
      var same := IsSame(host, cs[i]);
      if same.Failed? {
        JudgedFailed(host.View(), cs, i + 1);
        return Failed(same.why);
      }
      if same.value.Some? {
        var d := same.value.value;
        keep, removed := !(d.param || d.locals), removed + d.removed;
      }
    }
    assert cs[..|cs|] == cs;
    return Done(Verdict(keep, removed));
  }

  /** The first failure is the outcome. */
  lemma {:induction false} JudgedFailed(host: Host, cs: seq<HostConfig>, k: nat)
    requires k <= |cs| && Judged(host, cs[..k]).Failed?
    ensures Judged(host, cs) == Judged(host, cs[..k])
    decreases |cs|
  {
    var n := |cs| - 1;
    if k < |cs| {
      assert cs[..n][..k] == cs[..k];
      JudgedFailed(host, cs[..n], k);
    } else {
      assert cs[..k] == cs;
    }
  }

  lemma UnpopulatedNext(hosts: seq<Host>, cs: seq<HostConfig>, k: nat)
    requires k < |hosts| && Unpopulated(hosts[..k], cs).Done?
    ensures var kept, judged := Unpopulated(hosts[..k], cs).value, Judged(hosts[k], cs);
            Unpopulated(hosts[..k + 1], cs) ==
              if judged.Failed? then Failed(judged.why)
              else Done(kept + if judged.value.keep then [Trimmed(hosts[k], judged.value.removed)] else [])
  {
    hide Judged, Trimmed;
    assert hosts[..k + 1][..k] == hosts[..k];
    assert forall kept: seq<Host> :: kept + [] == kept;
  }

  lemma UpdatedNext(hosts: seq<Host>, c: HostConfig, k: nat)
    requires k < |hosts| && Updated(hosts[..k], c).Done?
    ensures var one := UpdatedOne(hosts[k], c);
            Updated(hosts[..k + 1], c) == if one.Failed? then Failed(one.why) else Done(Updated(hosts[..k], c).value + [one.value])
  {
    assert hosts[..k + 1][..k] == hosts[..k];
  }

  lemma PopulatedNext(hosts: seq<Host>, cs: seq<HostConfig>, plugins: set<string>, k: nat)
    requires k < |cs| && Populated(hosts, cs[..k], plugins).Done?
    ensures var hs := Populated(hosts, cs[..k], plugins).value;
            var us := Updated(hs, cs[k]);
            Populated(hosts, cs[..k + 1], plugins) ==
              if us.Failed? then Failed(us.why) else Done(if Found(hs, cs[k]) then us.value else us.value + Created(cs[k], plugins))
  {
    assert cs[..k + 1][..k] == cs[..k];
  }

  lemma NothingDone(hosts: seq<Host>, cs: seq<HostConfig>, plugins: set<string>)
    ensures Unpopulated(hosts[..0], cs) == Done([]) && (forall c :: Updated(hosts[..0], c) == Done([]))
    ensures Populated(hosts, cs[..0], plugins) == Done(hosts) && Views([]) == []
  {
  }

  lemma {:induction false} UnpopulatedFailed(hosts: seq<Host>, cs: seq<HostConfig>, k: nat)
    requires k <= |hosts| && Unpopulated(hosts[..k], cs).Failed?
    ensures Unpopulated(hosts, cs) == Unpopulated(hosts[..k], cs)
    decreases |hosts|
  {
    hide Judged, Staying;
    var n := |hosts| - 1;
    if k < |hosts| {
      assert hosts[..n][..k] == hosts[..k];
      UnpopulatedFailed(hosts[..n], cs, k);
    } else {
      assert hosts[..k] == hosts;
    }
  }

  lemma {:induction false} UpdatedFailed(hosts: seq<Host>, c: HostConfig, k: nat)
    requires k <= |hosts| && Updated(hosts[..k], c).Failed?
    ensures Updated(hosts, c) == Updated(hosts[..k], c)
    decreases |hosts|
  {
    hide UpdatedOne;
    var n := |hosts| - 1;
    if k < |hosts| {
      assert hosts[..n][..k] == hosts[..k];
      UpdatedFailed(hosts[..n], c, k);
    } else {
      assert hosts[..k] == hosts;
    }
  }

  lemma ViewsFirst(hs: seq<RemoteProxyHost>, i: nat)
    requires i < |hs|
    ensures Views(hs[i..])[0] == hs[i].View() && Views(hs[i..])[1..] == Views(hs[i + 1..])
  {
  }

  /** An element of a list without duplicates is apart from the rest, which has none either. */
  lemma Apart<T>(s: seq<T>, i: nat)
    requires NoDup(s) && i < |s|
    ensures s[i] !in s[..i] && s[i] !in s[i + 1..] && NoDup(s[..i] + s[i + 1..])
  {
  }

  lemma NoDupMore<T>(s: seq<T>, more: seq<T>)
    requires NoDup(s) && |more| <= 1 && forall x :: x in more ==> x !in s
    ensures NoDup(s + more)
  {
    assert forall i :: 0 <= i < |s| ==> s[i] in s;
  }

  lemma ViewsLast(hs: seq<RemoteProxyHost>, i: nat)
    requires i < |hs|
    ensures Views(hs[..i + 1]) == Views(hs[..i]) + [hs[i].View()]
  {
  }

  lemma FoundNone(c: HostConfig)
    ensures !Found([], c)
  {
  }

  lemma FoundNext(hosts: seq<Host>, c: HostConfig, k: nat)
    requires k < |hosts|
    ensures Found(hosts[..k + 1], c) <==> Found(hosts[..k], c) || SamePort(hosts[k], c)
  {
    hide SamePort;
    if Found(hosts[..k], c) {
      var i :| 0 <= i < k && SamePort(hosts[..k][i], c);
      assert hosts[..k + 1][i] == hosts[..k][i];
    }
    if SamePort(hosts[k], c) {
      assert hosts[..k + 1][k] == hosts[k];
    }
    if Found(hosts[..k + 1], c) && !SamePort(hosts[k], c) {
      var i :| 0 <= i < k + 1 && SamePort(hosts[..k + 1][i], c);
      assert hosts[..k][i] == hosts[..k + 1][i];
    }
  }

  method UpdateHost(host: RemoteProxyHost, c: HostConfig) returns (failed: Option<Failure>, matched: bool)
    modifies host
    ensures failed.None? ==> UpdatedOne(old(host.View()), c) == Done(host.View()) && matched == SamePort(old(host.View()), c)
    ensures failed.Some? ==> UpdatedOne(old(host.View()), c) == Failed(failed.value) && unchanged(host)
  {
    hide Select, SameLocals, ErasedAll, Loaded;
    var same := IsSame(host, c);
    if same.Failed? {
      return Some(same.why), false;
    }
    if same.value.None? {
      return None, false;
    }
    var d := same.value.value;
    if d.param || d.locals {
      return Some(ShouldHaveBeenDeleted), true;
    }
    host.AddRemotes(d.added);
    host.RemoveRemotes(d.removed);
    return None, true;
  }

  class ProxyGlobal {
    var remotehosts: seq<RemoteProxyHost>
    const plugins: seq<string>

    ghost function Hosts(): seq<Host>
      reads this, remotehosts
    {
      Views(remotehosts)
    }

    ghost function Objects(): set<object>
      reads this
    {
      set h | h in remotehosts
    }

    ghost function Types(): set<string> {
      set p | p in plugins
    }

    constructor (plugins: seq<string>)
      ensures remotehosts == [] && this.plugins == plugins
    {
      this.plugins, remotehosts := plugins, [];
    }

    /** Erases or trims host i, and says where the next one is. */
    method UnpopulateOne(i: nat, cs: seq<HostConfig>) returns (failed: Option<Failure>, next: nat)
      requires NoDup(remotehosts) && i < |remotehosts|
      modifies this, remotehosts[i]
      ensures NoDup(remotehosts) && Objects() <= old(Objects())
      ensures i <= next <= |remotehosts| && |remotehosts| - next == old(|remotehosts|) - i - 1
      ensures Views(remotehosts[next..]) == old(Views(remotehosts[i + 1..]))
      ensures var judged := Judged(old(remotehosts[i].View()), cs);
              && failed == (if judged.Failed? then Some(judged.why) else None)
              && (judged.Done? ==>
                    Views(remotehosts[..next]) == old(Views(remotehosts[..i]))
                      + if judged.value.keep then [Trimmed(old(remotehosts[i].View()), judged.value.removed)] else [])
    {
      hide Judged, Staying, Views, NoDup;
      ghost var done, rest := remotehosts[..i], remotehosts[i + 1..];
      Apart(remotehosts, i);
      failed, next := None, i + 1;
      var verdict := Judge(remotehosts[i], cs);
      if verdict.Failed? {
        failed := Some(verdict.why);
      } else if verdict.value.keep {
        remotehosts[i].RemoveAny(verdict.value.removed);
        ViewsLast(remotehosts, i);
      } else {
        remotehosts := remotehosts[..i] + remotehosts[i + 1..];
        next := i;
        assert remotehosts[..i] == done && remotehosts[i..] == rest;
      }
      assert Views(done) == old(Views(remotehosts[..i])) && Views(rest) == old(Views(remotehosts[i + 1..]));
    }

    /** Erases or trims the hosts in place.  A failure leaves the caller to start all over. */
    method Unpopulate(cs: seq<HostConfig>) returns (failed: Option<Failure>)
      requires NoDup(remotehosts)
      modifies this, Objects()
      ensures NoDup(remotehosts) && Objects() <= old(Objects())
      ensures failed.None? ==> Unpopulated(old(Hosts()), cs) == Done(Hosts())
      ensures failed.Some? ==> Unpopulated(old(Hosts()), cs) == Failed(failed.value)
    {
      hide Judged, Trimmed, Views, Unpopulated, NoDup;
      ghost var before, k := Hosts(), 0;
      NothingDone(before, cs, Types());
      var i := 0;
      while i < |remotehosts|
        invariant 0 <= k <= |before| && i <= |remotehosts| && |remotehosts| - i == |before| - k
        invariant NoDup(remotehosts) && Objects() <= old(Objects())
        invariant Views(remotehosts[i..]) == before[k..]
        invariant Unpopulated(before[..k], cs) == Done(Views(remotehosts[..i]))
        decreases |before| - k
      {
        UnpopulatedNext(before, cs, k);
        ViewsFirst(remotehosts, i);
        assert remotehosts[i].View() == before[k] && Views(remotehosts[i + 1..]) == before[k + 1..];
        failed, i := UnpopulateOne(i, cs);
        if failed.Some? {
          UnpopulatedFailed(before, cs, k + 1);
          return;
        }
        k := k + 1;
      }
      assert remotehosts[..i] == remotehosts && before[..k] == before;
      return None;
    }

    method UpdateAt(i: nat, c: HostConfig) returns (failed: Option<Failure>, matched: bool)
      requires NoDup(remotehosts) && i < |remotehosts|
      modifies remotehosts[i]
      ensures Views(remotehosts[i + 1..]) == old(Views(remotehosts[i + 1..]))
      ensures var one := UpdatedOne(old(remotehosts[i].View()), c);
              && failed == (if one.Failed? then Some(one.why) else None)
              && (one.Done? ==>
                    && Views(remotehosts[..i + 1]) == old(Views(remotehosts[..i])) + [one.value]
                    && matched == SamePort(old(remotehosts[i].View()), c))
    {
      hide UpdatedOne, SamePort, Views, NoDup;
      ghost var done, rest := remotehosts[..i], remotehosts[i + 1..];
      Apart(remotehosts, i);
      failed, matched := UpdateHost(remotehosts[i], c);
      ViewsLast(remotehosts, i);
      assert Views(done) == old(Views(remotehosts[..i])) && Views(rest) == old(Views(remotehosts[i + 1..]));
    }

    /** Completes the hosts an entry speaks about. */
    method Update(c: HostConfig) returns (failed: Option<Failure>, found: bool)
      requires NoDup(remotehosts)
      modifies Objects()
      ensures failed.None? ==> Updated(old(Hosts()), c) == Done(Hosts()) && found == Found(old(Hosts()), c)
      ensures failed.Some? ==> Updated(old(Hosts()), c) == Failed(failed.value)
    {
      hide UpdatedOne, SamePort, Views, Updated, NoDup, Found;
      ghost var before := Hosts();
      NothingDone(before, [], Types());
      FoundNone(c);
      failed, found := None, false;
      for i := 0 to |remotehosts|
        invariant |before| == |remotehosts| && Views(remotehosts[i..]) == before[i..]
        invariant Updated(before[..i], c) == Done(Views(remotehosts[..i]))
        invariant failed == None && found == Found(before[..i], c)
      {
        UpdatedNext(before, c, i);
        FoundNext(before, c, i);
        ViewsFirst(remotehosts, i);
        assert remotehosts[i].View() == before[i] && Views(remotehosts[i + 1..]) == before[i + 1..];
        var matched;
        failed, matched := UpdateAt(i, c);
        if failed.Some? {
          UpdatedFailed(before, c, i + 1);
          return;
        }
        found := found || matched;
      }
      assert before[..|before|] == before && remotehosts[..|remotehosts|] == remotehosts;
    }

    method Plugin(kind: string) returns (r: string)
      ensures r == Resolve(Types(), kind)
    {
      r := "";
      if |kind| > 0 {
        for i := 0 to |plugins|
          invariant r == if kind in plugins[..i] then kind else ""
        {
          if plugins[i] == kind {
            r := plugins[i];
          }
        }
        assert plugins[..|plugins|] == plugins;
      }
    }

    method Create(c: HostConfig) returns (r: seq<RemoteProxyHost>)
      ensures |r| <= 1 && forall h :: h in r ==> fresh(h)
      ensures Views(r) == Created(c, Types())
    {
      var locals := LoadAll(c.locals);
      var remotes := LoadAll(c.remotes);
      var plugin := Plugin(c.plugin);
      r := [];
      if |remotes| > 0 && |locals| > 0 {
        var host := new RemoteProxyHost(c.port, remotes, locals, plugin);
        r := [host];
      }
    }

    /** One entry: completes the hosts it speaks about, or creates one. */
    method PopulateOne(c: HostConfig) returns (failed: Option<Failure>)
      requires NoDup(remotehosts)
      modifies this, Objects()
      ensures NoDup(remotehosts) && forall h :: h in remotehosts ==> h in old(remotehosts) || fresh(h)
      ensures var us := Updated(old(Hosts()), c);
              if failed.Some? then us == Failed(failed.value)
              else us.Done? && Hosts() == if Found(old(Hosts()), c) then us.value else us.value + Created(c, Types())
    {
      hide Updated, Created, Views, NoDup, Found;
      var error, found := Update(c);
      if error.Some? {
        return error;
      }
      if !found {
        ghost var views := Hosts();
        var more := Create(c);
        NoDupMore(remotehosts, more);
        assert Views(remotehosts) == views;
        remotehosts := remotehosts + more;
      }
      return None;
    }

    method Populate(cs: seq<HostConfig>) returns (failed: Option<Failure>)
      requires NoDup(remotehosts)
      modifies this, Objects()
      ensures failed.None? ==> NoDup(remotehosts) && Populated(old(Hosts()), cs, Types()) == Done(Hosts())
      ensures failed.Some? ==> Populated(old(Hosts()), cs, Types()) == Failed(failed.value)
    {
      hide Updated, Created, Views, Populated, NoDup, Found;
      ghost var before := Hosts();
      NothingDone(before, cs, Types());
      for i := 0 to |cs|
        invariant NoDup(remotehosts) && forall h :: h in remotehosts ==> h in old(remotehosts) || fresh(h)
        invariant Populated(before, cs[..i], Types()) == Done(Hosts())
      {
        PopulatedNext(before, cs, Types(), i);
        var error := PopulateOne(cs[i]);
        if error.Some? {
          PopulatedFailed(before, cs, Types(), i + 1);
          return error;
        }
      }
      assert cs[..|cs|] == cs;
      return None;
    }

    /** A new configuration, uploaded. */
    method Upload(cs: seq<HostConfig>) returns (failed: Option<Failure>)
      requires NoDup(remotehosts)
      modifies this, Objects()
      ensures failed.None? ==> NoDup(remotehosts) && Reconfigured(old(Hosts()), cs, Types()) == Done(Hosts())
      ensures failed.Some? ==> Reconfigured(old(Hosts()), cs, Types()) == Failed(failed.value)
    {
      hide Unpopulated, Populated;
      failed := Unpopulate(cs);
      if failed.None? {
        failed := Populate(cs);
      }
    }
  }

  method LoadAll<T>(items: Option<seq<Option<T>>>) returns (r: seq<T>)
    ensures r == Loaded(items)
  {
    r := [];
    if items.Some? {
      for i := 0 to |items.value|
        invariant r == LoadedItems(items.value[..i])
      {
        assert items.value[..i + 1][..i] == items.value[..i];
        if items.value[i].Some? {
          r := r + [items.value[i].value];
        }
      }
      assert items.value[..|items.value|] == items.value;
    }
  }
}
