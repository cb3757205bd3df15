/** What a reconfiguration makes of the running hosts. */
module ReconfigProofs {
  import opened Bytes
  import opened Reconfig

  /** No port is configured twice; a port of 0 is never matched. */
  ghost predicate DistinctPorts(cs: seq<HostConfig>) {
    forall i, j :: 0 <= i < j < |cs| ==> cs[i].port != cs[j].port || cs[i].port == 0
  }

  ghost predicate WellFormed(cs: seq<HostConfig>) {
    && DistinctPorts(cs)
    && forall j :: 0 <= j < |cs| ==> EntryOk(cs[j])
  }

  ghost predicate EntryOk(c: HostConfig) {
    && c.port > 0
    && AllLoad(c.remotes) && c.remotes.value != []
    && AllLoad(c.locals) && c.locals.value != []
  }

  /** Entries that share a port ask for the same registered plugin and the same locals. */
  ghost predicate Agreeing(cs: seq<HostConfig>, plugins: set<string>) {
    forall j, k :: 0 <= j < k < |cs| && cs[j].port == cs[k].port > 0 ==> AgreeingPair(cs[j], cs[k], plugins)
  }

  ghost predicate AgreeingPair(c: HostConfig, later: HostConfig, plugins: set<string>) {
    c.plugin == later.plugin && later.plugin in plugins && c.locals == later.locals && AllLoad(c.locals)
  }

  /** Nothing but the remotes may differ. */
  ghost predicate Settled(host: Host, c: HostConfig) {
    host.plugin == c.plugin && SameLocals(host.locals, c.locals)
  }

  ghost predicate HasEntry(host: Host, cs: seq<HostConfig>) {
    exists j :: 0 <= j < |cs| && SamePort(host, cs[j])
  }

  // ---------------------------------------------------------------- unpopulate

  /** With distinct ports, at most one entry speaks about a host. */
  lemma {:induction false} JudgedBy(host: Host, cs: seq<HostConfig>, j: nat)
    requires DistinctPorts(cs) && j < |cs| && SamePort(host, cs[j])
    ensures Judged(host, cs) == if AllLoad(cs[j].remotes)
                                then Done(Verdict(Settled(host, cs[j]), DifferenceOf(host, cs[j]).removed))
                                else Failed(BadRemotes)
    decreases |cs|
  {
    hide DifferenceOf;
    var n := |cs| - 1;
    if j < n {
      JudgedBy(host, cs[..n], j);
    } else {
      assert !HasEntry(host, cs[..n]);
      JudgedByNone(host, cs[..n]);
      assert [] + DifferenceOf(host, cs[j]).removed == DifferenceOf(host, cs[j]).removed;
      SettledDifference(host, cs[j]);
    }
  }

  lemma SettledDifference(host: Host, c: HostConfig)
    ensures !(DifferenceOf(host, c).param || DifferenceOf(host, c).locals) <==> Settled(host, c)
  {
  }

  lemma {:induction false} JudgedByNone(host: Host, cs: seq<HostConfig>)
    requires !HasEntry(host, cs)
    ensures Judged(host, cs) == Done(Verdict(false, []))
    decreases |cs|
  {
    if cs != [] {
      assert !SamePort(host, cs[|cs| - 1]);
      JudgedByNone(host, cs[..|cs| - 1]);
    }
  }

  /** The last entry for the host's port agrees with it. */
  ghost predicate StaysFor(host: Host, cs: seq<HostConfig>, j: int) {
    && 0 <= j < |cs| && SamePort(host, cs[j]) && Settled(host, cs[j])
    && forall m :: j < m < |cs| ==> !SamePort(host, cs[m])
  }

  ghost predicate Stays(host: Host, cs: seq<HostConfig>) {
    exists j :: StaysFor(host, cs, j)
  }

  /** Some entry for the host's port does not want the remote. */
  ghost predicate Unwanted(host: Host, cs: seq<HostConfig>, e: RemoteEndpoint) {
    exists j :: 0 <= j < |cs| && SamePort(host, cs[j]) && !Has(Loaded(cs[j].remotes), e)
  }

  /** `gone` are the host's remotes that some entry for its port does not want. */
  ghost predicate Gone(host: Host, cs: seq<HostConfig>, gone: seq<RemoteEndpoint>) {
    forall e :: Has(gone, e) <==> Has(host.remotes, e) && Unwanted(host, cs, e)
  }

  /** The host as it stays: without the sessions of those remotes. */
  ghost predicate StaysAs(host: Host, cs: seq<HostConfig>, kept: Host) {
    exists gone :: Gone(host, cs, gone) && kept == Trimmed(host, gone)
  }

  lemma HasAppend(a: seq<RemoteEndpoint>, b: seq<RemoteEndpoint>, e: RemoteEndpoint)
    ensures Has(a + b, e) <==> Has(a, e) || Has(b, e)
  {
    hide Keys;
    KeysAppend(a, b);
    HasKey(a + b, e);
    HasKey(a, e);
    HasKey(b, e);
  }

  lemma UnwantedNext(host: Host, cs: seq<HostConfig>, e: RemoteEndpoint)
    requires cs != []
    ensures var n := |cs| - 1;
            Unwanted(host, cs, e) <==> Unwanted(host, cs[..n], e) || (SamePort(host, cs[n]) && !Has(Loaded(cs[n].remotes), e))
  {
    hide Has, SamePort, Loaded;
    var n := |cs| - 1;
    if j :| 0 <= j < n && SamePort(host, cs[..n][j]) && !Has(Loaded(cs[..n][j].remotes), e) {
      assert SamePort(host, cs[j]) && !Has(Loaded(cs[j].remotes), e);
    }
    if j :| 0 <= j < |cs| && SamePort(host, cs[j]) && !Has(Loaded(cs[j].remotes), e) {
      assert j < n ==> cs[..n][j] == cs[j];
    }
  }

  /** A host is kept exactly if the last entry for its port agrees with it; what it loses piles up. */
  lemma {:induction false} JudgedExact(host: Host, cs: seq<HostConfig>)
    requires Judged(host, cs).Done?
    ensures Judged(host, cs).value.keep <==> Stays(host, cs)
    ensures Gone(host, cs, Judged(host, cs).value.removed)
    decreases |cs|
  {
    hide Has, Select, Settled, Loaded, SameLocals, Stays, Unwanted;
    if cs != [] {
      var n := |cs| - 1;
      var before := Judged(host, cs[..n]).value;
      JudgedExact(host, cs[..n]);
      StaysNext(host, cs);
      SettledDifference(host, cs[n]);
      forall e ensures Has(Judged(host, cs).value.removed, e) <==> Has(host.remotes, e) && Unwanted(host, cs, e) {
        UnwantedNext(host, cs, e);
        if SamePort(host, cs[n]) {
          HasAppend(before.removed, DifferenceOf(host, cs[n]).removed, e);
          RemovedHas(host.remotes, Loaded(cs[n].remotes), e);
        }
      }
    } else {
      NoneStays(host);
    }
  }

  lemma NoneStays(host: Host)
    ensures !Stays(host, []) && Gone(host, [], [])
  {
  }

  lemma StaysNext(host: Host, cs: seq<HostConfig>)
    requires cs != []
    ensures var n := |cs| - 1;
            Stays(host, cs) <==> if SamePort(host, cs[n]) then Settled(host, cs[n]) else Stays(host, cs[..n])
  {
    hide Settled, SamePort;
    var n := |cs| - 1;
    if SamePort(host, cs[n]) {
      assert Settled(host, cs[n]) ==> StaysFor(host, cs, n);
    } else {
      if j :| StaysFor(host, cs[..n], j) {
        assert forall m :: j < m < n ==> !SamePort(host, cs[..n][m]);
        assert StaysFor(host, cs, j);
      }
      if j :| StaysFor(host, cs, j) {
        assert StaysFor(host, cs[..n], j);
      }
    }
  }

  /** With agreeing entries it then agrees with all that have its port. */
  lemma AgreesWithAll(host: Host, cs: seq<HostConfig>, plugins: set<string>, j: nat)
    requires Agreeing(cs, plugins) && StaysFor(host, cs, j)
    ensures forall k :: 0 <= k < |cs| && SamePort(host, cs[k]) ==> Settled(host, cs[k])
  {
    forall k | 0 <= k < |cs| && SamePort(host, cs[k]) ensures Settled(host, cs[k]) {
      assert k < j ==> AgreeingPair(cs[k], cs[j], plugins);
    }
  }

  lemma {:induction false} KeptPending(hosts: seq<Host>, cs: seq<HostConfig>, plugins: set<string>)
    requires Agreeing(cs, plugins) && Unpopulated(hosts, cs).Done?
    ensures Pending(Unpopulated(hosts, cs).value, cs, 0)
    decreases |hosts|
  {
    hide Judged, Staying, Agreeing;
    if hosts != [] {
      var n := |hosts| - 1;
      KeptPending(hosts[..n], cs, plugins);
      if Judged(hosts[n], cs).value.keep {
        JudgedExact(hosts[n], cs);
        var j :| StaysFor(hosts[n], cs, j);
        AgreesWithAll(hosts[n], cs, plugins, j);
      }
    }
  }

  /** For every configuration: exactly the hosts that stay are left, in order, each with the sessions
      it keeps. */
  lemma {:induction false} UnpopulatedExact(hosts: seq<Host>, cs: seq<HostConfig>) returns (from: seq<nat>)
    requires Unpopulated(hosts, cs).Done?
    ensures var kept := Unpopulated(hosts, cs).value;
            && |from| == |kept|
            && (forall m :: 0 <= m < |kept| ==> from[m] < |hosts| && Stays(hosts[from[m]], cs) && StaysAs(hosts[from[m]], cs, kept[m]))
            && (forall m, n :: 0 <= m < n < |kept| ==> from[m] < from[n])
            && (forall i :: 0 <= i < |hosts| && Stays(hosts[i], cs) ==> i in from)
    decreases |hosts|
  {
    hide Judged, Gone, Stays, Trimmed;
    from := [];
    if hosts != [] {
      var n := |hosts| - 1;
      from := UnpopulatedExact(hosts[..n], cs);
      JudgedExact(hosts[n], cs);
      if Judged(hosts[n], cs).value.keep {
        assert StaysAs(hosts[n], cs, Trimmed(hosts[n], Judged(hosts[n], cs).value.removed));
        from := from + [n];
      }
    }
  }

  lemma {:induction false} UnpopulatedDone(hosts: seq<Host>, cs: seq<HostConfig>)
    requires WellFormed(cs)
    ensures Unpopulated(hosts, cs).Done?
    decreases |hosts|
  {
    hide Judged;
    if hosts != [] {
      var h := hosts[|hosts| - 1];
      UnpopulatedDone(hosts[..|hosts| - 1], cs);
      if HasEntry(h, cs) {
        var j :| 0 <= j < |cs| && SamePort(h, cs[j]);
        JudgedBy(h, cs, j);
      } else {
        JudgedByNone(h, cs);
      }
    }
  }

  // ---------------------------------------------------------------- populate

  ghost function CompletedFor(host: Host, c: HostConfig): Host {
    if SamePort(host, c) then host.(remotes := Adjusted(host.remotes, Loaded(c.remotes))) else host
  }

  /** If every host with the entry's port is settled, the assertion holds. */
  lemma {:induction false} UpdatedSettled(hosts: seq<Host>, c: HostConfig)
    requires forall i :: 0 <= i < |hosts| && SamePort(hosts[i], c) ==> Settled(hosts[i], c)
    ensures Updated(hosts, c) != Failed(ShouldHaveBeenDeleted)
    ensures AllLoad(c.remotes) ==> Updated(hosts, c).Done?
    ensures Updated(hosts, c).Done? ==>
      && |Updated(hosts, c).value| == |hosts|
      && forall i :: 0 <= i < |hosts| ==> Updated(hosts, c).value[i] == CompletedFor(hosts[i], c)
    decreases |hosts|
  {
    hide Select, SameLocals, ErasedAll, Loaded;
    if hosts != [] {
      UpdatedSettled(hosts[..|hosts| - 1], c);
    }
  }

  /** After k entries: hosts with a later entry are still as `Unpopulated` left them, but for remotes. */
  ghost predicate Pending(hs: seq<Host>, cs: seq<HostConfig>, k: nat) {
    forall i, j :: 0 <= i < |hs| && k <= j < |cs| && SamePort(hs[i], cs[j]) ==> Settled(hs[i], cs[j])
  }

  lemma PendingStep(hs: seq<Host>, cs: seq<HostConfig>, k: nat, us: seq<Host>, plugins: set<string>)
    requires Agreeing(cs, plugins) && k < |cs| && Pending(hs, cs, k) && |us| == |hs|
    requires forall i :: 0 <= i < |hs| ==> us[i] == CompletedFor(hs[i], cs[k])
    ensures Pending(us, cs, k + 1) && Pending(us + Created(cs[k], plugins), cs, k + 1)
  {
    hide Adjusted, Created, Settled;
    var all := us + Created(cs[k], plugins);
    forall i, j | 0 <= i < |us| && k + 1 <= j < |cs| && SamePort(us[i], cs[j]) ensures Settled(us[i], cs[j]) {
      assert SamePort(hs[i], cs[j]);
      CompletedSettled(hs[i], cs[k], cs[j]);
    }
    forall i, j | 0 <= i < |all| && k + 1 <= j < |cs| && SamePort(all[i], cs[j]) ensures Settled(all[i], cs[j]) {
      if i < |us| {
        assert all[i] == us[i];
      } else {
        CreatedSettled(cs[k], cs[j], plugins, i - |us|);
      }
    }
  }

  lemma CompletedSettled(host: Host, c: HostConfig, later: HostConfig)
    ensures Settled(CompletedFor(host, c), later) <==> Settled(host, later)
  {
    hide Adjusted, SameLocals;
  }

  /** A host just created agrees with any later entry for its port. */
  lemma CreatedSettled(c: HostConfig, later: HostConfig, plugins: set<string>, i: nat)
    requires i < |Created(c, plugins)|
    requires c.port == later.port > 0 ==> AgreeingPair(c, later, plugins)
    ensures SamePort(Created(c, plugins)[i], later) ==> Settled(Created(c, plugins)[i], later)
    ensures Created(c, plugins)[i].port == c.port
  {
    if AgreeingPair(c, later, plugins) {
      LoadedAll(c.locals.value);
    }
  }

  lemma {:induction false} PopulatedPending(kept: seq<Host>, cs: seq<HostConfig>, k: nat, plugins: set<string>)
    requires Agreeing(cs, plugins) && Pending(kept, cs, 0) && k <= |cs|
    ensures var r := Populated(kept, cs[..k], plugins);
            r != Failed(ShouldHaveBeenDeleted) && (r.Done? ==> Pending(r.value, cs, k))
    decreases k
  {
    hide Updated, Created, Adjusted, Loaded;
    if k > 0 {
      PopulatedPending(kept, cs, k - 1, plugins);
      assert cs[..k][..k - 1] == cs[..k - 1];
      var r := Populated(kept, cs[..k - 1], plugins);
      if r.Done? {
        assert forall i :: 0 <= i < |r.value| && SamePort(r.value[i], cs[k - 1]) ==> Settled(r.value[i], cs[k - 1]);
        UpdatedSettled(r.value, cs[k - 1]);
        if Updated(r.value, cs[k - 1]).Done? {
          PendingStep(r.value, cs, k - 1, Updated(r.value, cs[k - 1]).value, plugins);
        }
      }
    }
  }

  /** For every running state and every configuration whose entries agree wherever they share a port,
      well-formed or not, the assertion "Host should have been deleted" holds. */
  lemma AssertionHolds(hosts: seq<Host>, cs: seq<HostConfig>, plugins: set<string>)
    requires Agreeing(cs, plugins)
    ensures Reconfigured(hosts, cs, plugins) != Failed(ShouldHaveBeenDeleted)
  {
    hide Populated, Unpopulated, Agreeing;
    NeverDeleted(hosts, cs);
    if Unpopulated(hosts, cs).Done? {
      KeptPending(hosts, cs, plugins);
      PopulatedPending(Unpopulated(hosts, cs).value, cs, |cs|, plugins);
      assert cs[..|cs|] == cs;
    }
  }

  lemma {:induction false} NeverDeleted(hosts: seq<Host>, cs: seq<HostConfig>)
    ensures Unpopulated(hosts, cs) != Failed(ShouldHaveBeenDeleted)
    decreases |hosts|
  {
    if hosts != [] {
      NeverDeleted(hosts[..|hosts| - 1], cs);
      NeverJudged(hosts[|hosts| - 1], cs);
    }
  }

  lemma {:induction false} NeverJudged(host: Host, cs: seq<HostConfig>)
    ensures Judged(host, cs) != Failed(ShouldHaveBeenDeleted)
    decreases |cs|
  {
    if cs != [] {
      NeverJudged(host, cs[..|cs| - 1]);
    }
  }

  // ---------------------------------------------------------------- the result

  ghost predicate Registered(hosts: seq<Host>, plugins: set<string>) {
    forall i :: 0 <= i < |hosts| ==> hosts[i].plugin in plugins
  }

  ghost predicate DistinctHosts(hosts: seq<Host>) {
    forall i, j :: 0 <= i < j < |hosts| ==> hosts[i].port != hosts[j].port
  }

  /** The host has the entry's plugin and locals. */
  ghost predicate Follows(host: Host, c: HostConfig, plugins: set<string>) {
    host.plugin == Resolve(plugins, c.plugin) && SameLocals(host.locals, c.locals)
  }

  /** And its set of remotes. */
  ghost predicate Conforms(host: Host, c: HostConfig, plugins: set<string>) {
    Follows(host, c, plugins) && Keys(host.remotes) == Keys(Loaded(c.remotes))
  }

  ghost predicate Configured(host: Host, cs: seq<HostConfig>, plugins: set<string>) {
    exists j :: 0 <= j < |cs| && SamePort(host, cs[j]) && Conforms(host, cs[j], plugins)
  }

  /** After k entries: each host follows its entry, and conforms if that was one of the k. */
  ghost predicate HostsAt(hs: seq<Host>, cs: seq<HostConfig>, k: nat, plugins: set<string>) {
    && (forall i :: 0 <= i < |hs| ==> HasEntry(hs[i], cs))
    && (forall i, j :: 0 <= i < |hs| && 0 <= j < |cs| && SamePort(hs[i], cs[j]) ==> Follows(hs[i], cs[j], plugins))
    && (forall i, j :: 0 <= i < |hs| && 0 <= j < k <= |cs| && SamePort(hs[i], cs[j]) ==> Conforms(hs[i], cs[j], plugins))
  }

  /** The kept hosts come first, with their sessions; new hosts have none. */
  ghost predicate KeptFirst(kept: seq<Host>, hs: seq<Host>) {
    && |kept| <= |hs|
    && (forall i :: 0 <= i < |kept| ==> hs[i] == kept[i].(remotes := hs[i].remotes))
    && (forall i :: |kept| <= i < |hs| ==> hs[i].sessions == [])
    && (DistinctHosts(kept) ==> DistinctHosts(hs))
  }

  ghost predicate AllFound(hs: seq<Host>, cs: seq<HostConfig>, k: nat) {
    forall j :: 0 <= j < k <= |cs| ==> Found(hs, cs[j])
  }

  lemma CreatedConforms(c: HostConfig, plugins: set<string>)
    requires EntryOk(c)
    ensures |Created(c, plugins)| == 1
    ensures var h := Created(c, plugins)[0]; SamePort(h, c) && Conforms(h, c, plugins) && h.sessions == []
  {
    LoadedAll(c.remotes.value);
    LoadedAll(c.locals.value);
  }

  lemma CompletedConforms(host: Host, c: HostConfig, plugins: set<string>)
    requires SamePort(host, c) && Follows(host, c, plugins)
    ensures Conforms(CompletedFor(host, c), c, plugins)
  {
    hide Keys, Adjusted, Loaded, SameLocals;
    RemotesByDifference(host.remotes, Loaded(c.remotes));
  }

  lemma HostsStep(hs: seq<Host>, us: seq<Host>, cs: seq<HostConfig>, k: nat, plugins: set<string>)
    requires WellFormed(cs) && k < |cs| && HostsAt(hs, cs, k, plugins)
    requires |us| == |hs| && forall i :: 0 <= i < |hs| ==> us[i] == CompletedFor(hs[i], cs[k])
    ensures HostsAt(us, cs, k + 1, plugins)
  {
    hide Follows, Conforms, EntryOk, Adjusted;
    forall i | 0 <= i < |us| ensures HasEntry(us[i], cs) {
      var j :| 0 <= j < |cs| && SamePort(hs[i], cs[j]);
      assert SamePort(us[i], cs[j]);
    }
    forall i, j | 0 <= i < |us| && 0 <= j < |cs| && SamePort(us[i], cs[j])
      ensures Follows(us[i], cs[j], plugins) && (j < k + 1 ==> Conforms(us[i], cs[j], plugins))
    {
      assert SamePort(hs[i], cs[j]);
      if SamePort(hs[i], cs[k]) {
        assert j == k;
        CompletedConforms(hs[i], cs[k], plugins);
        ConformsFollows(us[i], cs[k], plugins);
      }
    }
  }

  lemma ConformsFollows(host: Host, c: HostConfig, plugins: set<string>)
    requires Conforms(host, c, plugins)
    ensures Follows(host, c, plugins)
  {
  }

  lemma HostsCreated(hs: seq<Host>, cs: seq<HostConfig>, k: nat, h: Host, plugins: set<string>)
    requires DistinctPorts(cs) && k < |cs| && HostsAt(hs, cs, k + 1, plugins) && SamePort(h, cs[k]) && Conforms(h, cs[k], plugins)
    ensures HostsAt(hs + [h], cs, k + 1, plugins)
  {
  }

  lemma FoundStep(hs: seq<Host>, us: seq<Host>, more: seq<Host>, cs: seq<HostConfig>, k: nat)
    requires k < |cs| && AllFound(hs, cs, k)
    requires |us| == |hs| && forall i :: 0 <= i < |hs| ==> us[i].port == hs[i].port
    requires Found(hs, cs[k]) || (more != [] && SamePort(more[0], cs[k]))
    ensures AllFound(us + more, cs, k + 1)
  {
    var all := us + more;
    forall j | 0 <= j < k + 1 ensures Found(all, cs[j]) {
      if Found(hs, cs[j]) {
        var i :| 0 <= i < |hs| && SamePort(hs[i], cs[j]);
        assert SamePort(all[i], cs[j]);
      } else {
        assert SamePort(all[|us|], cs[j]);
      }
    }
  }

  lemma KeptFirstStep(kept: seq<Host>, hs: seq<Host>, us: seq<Host>, more: seq<Host>, c: HostConfig)
    requires KeptFirst(kept, hs)
    requires |us| == |hs| && forall i :: 0 <= i < |hs| ==> us[i] == CompletedFor(hs[i], c)
    requires more == [] || (|more| == 1 && SamePort(more[0], c) && more[0].sessions == [] && !Found(hs, c))
    ensures KeptFirst(kept, us + more)
  {
  }

  /** One entry of a well-formed configuration. */
  lemma EntryPopulated(kept: seq<Host>, hs: seq<Host>, cs: seq<HostConfig>, k: nat, plugins: set<string>) returns (next: seq<Host>)
    requires WellFormed(cs) && k < |cs| && Pending(hs, cs, k)
    requires HostsAt(hs, cs, k, plugins) && KeptFirst(kept, hs) && AllFound(hs, cs, k)
    ensures Updated(hs, cs[k]).Done?
    ensures next == Updated(hs, cs[k]).value + if Found(hs, cs[k]) then [] else Created(cs[k], plugins)
    ensures HostsAt(next, cs, k + 1, plugins) && KeptFirst(kept, next) && AllFound(next, cs, k + 1)
  {
    hide HostsAt, KeptFirst, AllFound, Updated, Created, Conforms, CompletedFor;
    var c := cs[k];
    assert forall i :: 0 <= i < |hs| && SamePort(hs[i], c) ==> Settled(hs[i], c);
    assert EntryOk(c);
    UpdatedSettled(hs, c);
    var us := Updated(hs, c).value;
    var more := if Found(hs, c) then [] else Created(c, plugins);
    next := us + more;
    CreatedConforms(c, plugins);
    HostsStep(hs, us, cs, k, plugins);
    forall i | 0 <= i < |hs| ensures us[i].port == hs[i].port {
      PortKept(hs[i], c);
    }
    FoundStep(hs, us, more, cs, k);
    KeptFirstStep(kept, hs, us, more, c);
    if Found(hs, c) {
      assert next == us;
    } else {
      HostsCreated(us, cs, k, more[0], plugins);
      assert next == us + [more[0]];
    }
  }

  lemma PortKept(host: Host, c: HostConfig)
    ensures CompletedFor(host, c).port == host.port
  {
  }

  lemma {:induction false} PopulatedStages(kept: seq<Host>, cs: seq<HostConfig>, k: nat, plugins: set<string>)
    requires WellFormed(cs) && k <= |cs| && Pending(kept, cs, 0)
    requires HostsAt(kept, cs, 0, plugins)
    ensures var r := Populated(kept, cs[..k], plugins);
            r.Done? && HostsAt(r.value, cs, k, plugins) && KeptFirst(kept, r.value) && AllFound(r.value, cs, k)
    decreases k
  {
    hide Updated, Created, HostsAt, Pending, KeptFirst, AllFound, EntryOk;
    StagesBegin(kept, cs, plugins);
    if k > 0 {
      PopulatedStages(kept, cs, k - 1, plugins);
      PopulatedPending(kept, cs, k - 1, plugins);
      assert cs[..k][..k - 1] == cs[..k - 1];
      var next := EntryPopulated(kept, Populated(kept, cs[..k - 1], plugins).value, cs, k - 1, plugins);
      if Found(Populated(kept, cs[..k - 1], plugins).value, cs[k - 1]) {
        assert next == Updated(Populated(kept, cs[..k - 1], plugins).value, cs[k - 1]).value;
      }
    }
  }

  lemma StagesBegin(kept: seq<Host>, cs: seq<HostConfig>, plugins: set<string>)
    ensures Populated(kept, cs[..0], plugins) == Done(kept) && KeptFirst(kept, kept) && AllFound(kept, cs, 0)
  {
  }

  /** What `Unpopulated` leaves follows its entries. */
  lemma KeptFollows(hosts: seq<Host>, cs: seq<HostConfig>, plugins: set<string>)
    requires DistinctPorts(cs) && Unpopulated(hosts, cs).Done? && Registered(hosts, plugins)
    ensures HostsAt(Unpopulated(hosts, cs).value, cs, 0, plugins)
    ensures DistinctHosts(hosts) ==> DistinctHosts(Unpopulated(hosts, cs).value)
  {
    hide Unpopulated, DifferenceOf, Staying, SameLocals;
    var kept := Unpopulated(hosts, cs).value;
    var from := UnpopulatedExact(hosts, cs);
    forall m | 0 <= m < |kept|
      ensures HasEntry(kept[m], cs) && kept[m].port == hosts[from[m]].port && kept[m].plugin in plugins
    {
      assert StaysAs(hosts[from[m]], cs, kept[m]) && Stays(hosts[from[m]], cs);
      var j :| StaysFor(hosts[from[m]], cs, j);
      assert SamePort(kept[m], cs[j]);
    }
    KeptPending(hosts, cs, plugins);
  }

  /** For every set of running hosts and every well-formed configuration: unpopulate then populate
      succeeds and leaves exactly the configured ports, each host with the configured plugin, locals
      and set of remotes. */
  lemma ReconfiguredExactly(hosts: seq<Host>, cs: seq<HostConfig>, plugins: set<string>)
    requires WellFormed(cs) && "" in plugins && Registered(hosts, plugins)
    ensures Unpopulated(hosts, cs).Done? && Reconfigured(hosts, cs, plugins).Done?
    ensures var kept, rs := Unpopulated(hosts, cs).value, Reconfigured(hosts, cs, plugins).value;
            && (forall i :: 0 <= i < |rs| ==> Configured(rs[i], cs, plugins))
            && (forall j :: 0 <= j < |cs| ==> Found(rs, cs[j]))
            && (DistinctHosts(hosts) ==> DistinctHosts(rs))
            && KeptFirst(kept, rs)
            && Registered(rs, plugins)
  {
    hide Populated, Unpopulated, KeptFirst, Follows, Conforms, EntryOk, Pending;
    UnpopulatedDone(hosts, cs);
    var kept := Unpopulated(hosts, cs).value;
    KeptPending(hosts, cs, plugins);
    KeptFollows(hosts, cs, plugins);
    PopulatedStages(kept, cs, |cs|, plugins);
    assert cs[..|cs|] == cs;
    var rs := Populated(kept, cs, plugins).value;
    KeptFirstDistinct(kept, rs);
    forall i | 0 <= i < |rs| ensures Configured(rs[i], cs, plugins) && rs[i].plugin in plugins {
      HostConfigured(rs, cs, plugins, i);
    }
  }

  lemma HostConfigured(rs: seq<Host>, cs: seq<HostConfig>, plugins: set<string>, i: nat)
    requires HostsAt(rs, cs, |cs|, plugins) && i < |rs| && "" in plugins
    ensures Configured(rs[i], cs, plugins) && rs[i].plugin in plugins
  {
    hide Keys, SameLocals, Loaded;
    assert HasEntry(rs[i], cs);
    var j :| 0 <= j < |cs| && SamePort(rs[i], cs[j]);
    assert Conforms(rs[i], cs[j], plugins);
  }

  /** The configured item is this endpoint, but for the port. */
  ghost predicate UpToPort(item: Option<RemoteEndpoint>, e: RemoteEndpoint) {
    item.Some? && item.value == e.(port := item.value.port)
  }

  /** Some remote of the host is the configured item, up to the port. */
  ghost predicate Provided(item: Option<RemoteEndpoint>, remotes: seq<RemoteEndpoint>) {
    exists k :: 0 <= k < |remotes| && UpToPort(item, remotes[k])
  }

  /** Some configured item is the remote, up to the port. */
  ghost predicate AskedFor(e: RemoteEndpoint, items: seq<Option<RemoteEndpoint>>) {
    exists i :: 0 <= i < |items| && UpToPort(items[i], e)
  }

  /** The host is what the entry asks for. */
  ghost predicate AsConfigured(h: Host, c: HostConfig, plugins: set<string>) {
    && h.port == c.port && h.plugin == (if c.plugin in plugins then c.plugin else "")
    && c.locals.Some? && |c.locals.value| == |h.locals|
    && (forall i :: 0 <= i < |h.locals| ==> c.locals.value[i] == Some(h.locals[i]))
    && c.remotes.Some?
    && (forall i :: 0 <= i < |c.remotes.value| ==> Provided(c.remotes.value[i], h.remotes))
    && (forall k :: 0 <= k < |h.remotes| ==> AskedFor(h.remotes[k], c.remotes.value))
  }

  ghost predicate IsConfigured(h: Host, cs: seq<HostConfig>, plugins: set<string>) {
    exists j :: 0 <= j < |cs| && AsConfigured(h, cs[j], plugins)
  }

  ghost predicate IsThere(c: HostConfig, hosts: seq<Host>, plugins: set<string>) {
    exists i :: 0 <= i < |hosts| && AsConfigured(hosts[i], c, plugins)
  }

  /** Said plainly: each configured host is there and each host is a configured one, with the configured
      plugin if it is registered, the configured locals, and the configured remotes up to their ports. */
  lemma ReconfiguredPlainly(hosts: seq<Host>, cs: seq<HostConfig>, plugins: set<string>)
    requires WellFormed(cs) && "" in plugins && Registered(hosts, plugins)
    ensures Reconfigured(hosts, cs, plugins).Done?
    ensures var rs := Reconfigured(hosts, cs, plugins).value;
            && (forall i :: 0 <= i < |rs| ==> IsConfigured(rs[i], cs, plugins))
            && (forall j :: 0 <= j < |cs| ==> IsThere(cs[j], rs, plugins))
  {
    hide Reconfigured, Conforms, KeptFirst, DistinctHosts, AsConfigured, EntryOk, DistinctPorts;
    ReconfiguredExactly(hosts, cs, plugins);
    var rs := Reconfigured(hosts, cs, plugins).value;
    forall i | 0 <= i < |rs| ensures IsConfigured(rs[i], cs, plugins) {
      var j := EntryOf(rs[i], cs, plugins);
    }
    forall j | 0 <= j < |cs| ensures IsThere(cs[j], rs, plugins) {
      assert Found(rs, cs[j]);
      var i :| 0 <= i < |rs| && SamePort(rs[i], cs[j]);
      var k := EntryOf(rs[i], cs, plugins);
      OneEntry(rs[i], cs, j, k);
    }
  }

  lemma OneEntry(h: Host, cs: seq<HostConfig>, j: nat, k: nat)
    requires DistinctPorts(cs) && j < |cs| && k < |cs| && SamePort(h, cs[j]) && SamePort(h, cs[k])
    ensures j == k
  {
  }

  lemma EntryOf(h: Host, cs: seq<HostConfig>, plugins: set<string>) returns (j: nat)
    requires WellFormed(cs) && Configured(h, cs, plugins)
    ensures j < |cs| && SamePort(h, cs[j]) && AsConfigured(h, cs[j], plugins)
  {
    hide Conforms, AsConfigured, EntryOk, DistinctPorts;
    j :| 0 <= j < |cs| && SamePort(h, cs[j]) && Conforms(h, cs[j], plugins);
    assert EntryOk(cs[j]);
    ConformsPlainly(h, cs[j], plugins);
  }

  lemma ConformsPlainly(h: Host, c: HostConfig, plugins: set<string>)
    requires EntryOk(c) && SamePort(h, c) && Conforms(h, c, plugins)
    ensures AsConfigured(h, c, plugins)
  {
    hide Keys, LoadedItems, Provided, AskedFor;
    var items, wanted := c.remotes.value, Loaded(c.remotes);
    LoadedAll(items);
    forall i | 0 <= i < |items| ensures Provided(items[i], h.remotes) {
      HasSame(wanted, h.remotes, i);
      SomeProvides(items[i], wanted[i], h.remotes);
    }
    forall k | 0 <= k < |h.remotes| ensures AskedFor(h.remotes[k], items) {
      HasSame(h.remotes, wanted, k);
      SomeAsks(h.remotes[k], items, wanted);
    }
  }

  lemma SomeProvides(item: Option<RemoteEndpoint>, e: RemoteEndpoint, remotes: seq<RemoteEndpoint>)
    requires item == Some(e) && Has(remotes, e)
    ensures Provided(item, remotes)
  {
    var k :| 0 <= k < |remotes| && Same(remotes[k], e);
    SameIff(e, remotes[k]);
    assert UpToPort(item, remotes[k]);
  }

  lemma SomeAsks(e: RemoteEndpoint, items: seq<Option<RemoteEndpoint>>, wanted: seq<RemoteEndpoint>)
    requires |wanted| == |items| && (forall i :: 0 <= i < |items| ==> items[i] == Some(wanted[i])) && Has(wanted, e)
    ensures AskedFor(e, items)
  {
    var i :| 0 <= i < |wanted| && Same(wanted[i], e);
    SameIff(wanted[i], e);
    assert UpToPort(items[i], e);
  }

  lemma HasSame(a: seq<RemoteEndpoint>, b: seq<RemoteEndpoint>, i: nat)
    requires Keys(a) == Keys(b) && i < |a|
    ensures Has(b, a[i])
  {
    assert KeyOf(a[i]) in Keys(a);
    HasKey(b, a[i]);
  }

  lemma KeptFirstDistinct(kept: seq<Host>, hs: seq<Host>)
    requires KeptFirst(kept, hs)
    ensures DistinctHosts(kept) ==> DistinctHosts(hs)
  {
  }

  // ---------------------------------------------------------------- sessions and restarts

  /** A host whose plugin and locals are unchanged keeps its sessions, but for those of removed remotes. */
  lemma SessionsSurvive(hosts: seq<Host>, cs: seq<HostConfig>, plugins: set<string>, i: nat, j: nat) returns (m: nat)
    requires WellFormed(cs) && "" in plugins && Registered(hosts, plugins)
    requires i < |hosts| && StaysFor(hosts[i], cs, j)
    ensures Reconfigured(hosts, cs, plugins).Done?
    ensures var rs, h := Reconfigured(hosts, cs, plugins).value, hosts[i];
            m < |rs| && rs[m].port == h.port && rs[m].sessions == Staying(h.sessions, Select(h.remotes, Loaded(cs[j].remotes), false))
  {
    hide Unpopulated, Reconfigured, Conforms, Staying, Select, Loaded, SameLocals, Has;
    ReconfiguredExactly(hosts, cs, plugins);
    var h, kept, wanted := hosts[i], Unpopulated(hosts, cs).value, Loaded(cs[j].remotes);
    var from := UnpopulatedExact(hosts, cs);
    assert Stays(h, cs);
    m :| 0 <= m < |from| && from[m] == i;
    assert StaysAs(h, cs, kept[m]);
    var gone :| Gone(h, cs, gone) && kept[m] == Trimmed(h, gone);
    forall e ensures Has(gone, e) <==> Has(Select(h.remotes, wanted, false), e) {
      RemovedHas(h.remotes, wanted, e);
      assert Unwanted(h, cs, e) <==> !Has(wanted, e);
    }
    StayingSame(h.sessions, gone, Select(h.remotes, wanted, false));
  }

  lemma {:induction false} StayingSame(sessions: seq<Session>, a: seq<RemoteEndpoint>, b: seq<RemoteEndpoint>)
    requires forall e :: Has(a, e) <==> Has(b, e)
    ensures Staying(sessions, a) == Staying(sessions, b)
  {
    hide Has;
    if sessions != [] {
      StayingSame(sessions[..|sessions| - 1], a, b);
    }
  }

  /** Every plugin type the configuration names is registered. */
  ghost predicate AllKnown(cs: seq<HostConfig>, plugins: set<string>) {
    forall j :: 0 <= j < |cs| ==> cs[j].plugin in plugins
  }

  lemma SelectNone(es: seq<RemoteEndpoint>, other: seq<RemoteEndpoint>)
    requires Keys(es) == Keys(other)
    ensures Select(es, other, false) == [] && Select(es, other, true) == es
  {
    SelectIn(es, other);
  }

  lemma {:induction false} SelectIn(es: seq<RemoteEndpoint>, other: seq<RemoteEndpoint>)
    requires Keys(es) <= Keys(other)
    ensures Select(es, other, false) == [] && Select(es, other, true) == es
  {
    if es != [] {
      var n := |es| - 1;
      assert es == es[..n] + [es[n]];
      KeysAppend(es[..n], [es[n]]);
      assert KeyOf(es[n]) in Keys(es);
      SelectIn(es[..n], other);
      HasKey(other, es[n]);
    }
  }

  lemma {:induction false} AllStay(sessions: seq<Session>)
    ensures Staying(sessions, []) == sessions
  {
    if sessions != [] {
      AllStay(sessions[..|sessions| - 1]);
    }
  }

  /** A conforming host is judged unchanged, if its plugin type is the configured one. */
  lemma ConformingJudged(host: Host, cs: seq<HostConfig>, plugins: set<string>, j: nat)
    requires WellFormed(cs) && "" in plugins && j < |cs| && SamePort(host, cs[j]) && Conforms(host, cs[j], plugins)
    ensures Judged(host, cs) == Done(Verdict(cs[j].plugin in plugins, [])) && Trimmed(host, []) == host
    ensures CompletedFor(host, cs[j]) == host
  {
    hide Judged, Keys, SameLocals, Loaded, Select;
    JudgedBy(host, cs, j);
    SelectNone(host.remotes, Loaded(cs[j].remotes));
    SelectNone(Loaded(cs[j].remotes), host.remotes);
    RemotesByDifference(host.remotes, Loaded(cs[j].remotes));
    AllStay(host.sessions);
  }

  lemma {:induction false} ConformingKept(rs: seq<Host>, cs: seq<HostConfig>, plugins: set<string>)
    requires WellFormed(cs) && "" in plugins
    requires forall i :: 0 <= i < |rs| ==> Configured(rs[i], cs, plugins)
    ensures Unpopulated(rs, cs).Done? && |Unpopulated(rs, cs).value| <= |rs|
    ensures AllKnown(cs, plugins) ==> Unpopulated(rs, cs).value == rs
    ensures |Unpopulated(rs, cs).value| == |rs| ==>
      forall i, j :: 0 <= i < |rs| && 0 <= j < |cs| && SamePort(rs[i], cs[j]) ==> cs[j].plugin in plugins
    decreases |rs|
  {
    hide Judged, Configured, Trimmed, DistinctPorts, EntryOk;
    if rs != [] {
      var n := |rs| - 1;
      ConformingKept(rs[..n], cs, plugins);
      var j := ConformingStays(rs[n], cs, plugins);
      assert rs[..n] + [rs[n]] == rs;
    }
  }

  lemma ConformingStays(host: Host, cs: seq<HostConfig>, plugins: set<string>) returns (j: nat)
    requires WellFormed(cs) && "" in plugins && Configured(host, cs, plugins)
    ensures j < |cs| && Judged(host, cs) == Done(Verdict(cs[j].plugin in plugins, [])) && Trimmed(host, []) == host
    ensures forall i :: 0 <= i < |cs| && SamePort(host, cs[i]) ==> i == j
  {
    hide Judged, Conforms, Trimmed, EntryOk;
    j :| 0 <= j < |cs| && SamePort(host, cs[j]) && Conforms(host, cs[j], plugins);
    ConformingJudged(host, cs, plugins, j);
  }

  lemma ConformingFixed(host: Host, cs: seq<HostConfig>, plugins: set<string>, k: nat)
    requires WellFormed(cs) && "" in plugins && Configured(host, cs, plugins) && k < |cs| && cs[k].plugin in plugins
    ensures CompletedFor(host, cs[k]) == host && (SamePort(host, cs[k]) ==> Settled(host, cs[k]))
  {
    hide Conforms, Judged, Trimmed, EntryOk;
    var j :| 0 <= j < |cs| && SamePort(host, cs[j]) && Conforms(host, cs[j], plugins);
    if SamePort(host, cs[k]) {
      assert j == k;
      ConformingJudged(host, cs, plugins, j);
      ConformsSettled(host, cs[k], plugins);
    }
  }

  lemma {:induction false} ConformingUpdated(rs: seq<Host>, cs: seq<HostConfig>, plugins: set<string>, k: nat)
    requires WellFormed(cs) && "" in plugins && AllKnown(cs, plugins) && k <= |cs|
    requires forall i :: 0 <= i < |rs| ==> Configured(rs[i], cs, plugins)
    requires forall j :: 0 <= j < |cs| ==> Found(rs, cs[j])
    ensures Populated(rs, cs[..k], plugins) == Done(rs)
    decreases k
  {
    hide Configured, CompletedFor, Settled, SamePort, Updated, Created, DistinctPorts;
    if k > 0 {
      var c := cs[k - 1];
      ConformingUpdated(rs, cs, plugins, k - 1);
      assert cs[..k][..k - 1] == cs[..k - 1];
      forall i | 0 <= i < |rs| ensures CompletedFor(rs[i], c) == rs[i] && (SamePort(rs[i], c) ==> Settled(rs[i], c)) {
        ConformingFixed(rs[i], cs, plugins, k - 1);
      }
      assert EntryOk(c);
      UpdatedSettled(rs, c);
      assert Updated(rs, c).value == rs;
    }
  }

  lemma ConformsSettled(host: Host, c: HostConfig, plugins: set<string>)
    requires Conforms(host, c, plugins) && c.plugin in plugins
    ensures Settled(host, c)
  {
  }

  /** Uploading the same configuration again restarts no host exactly when every plugin type it names
      is registered; and then it changes nothing at all. */
  lemma ReappliedIff(hosts: seq<Host>, cs: seq<HostConfig>, plugins: set<string>)
    requires WellFormed(cs) && "" in plugins && Registered(hosts, plugins)
    ensures Reconfigured(hosts, cs, plugins).Done?
    ensures var rs := Reconfigured(hosts, cs, plugins).value;
            && (Unpopulated(rs, cs) == Done(rs) <==> AllKnown(cs, plugins))
            && (AllKnown(cs, plugins) ==> Reconfigured(rs, cs, plugins) == Done(rs))
  {
    hide Unpopulated, Populated, Conforms, KeptFirst;
    ReconfiguredExactly(hosts, cs, plugins);
    var rs := Reconfigured(hosts, cs, plugins).value;
    ConformingKept(rs, cs, plugins);
    if AllKnown(cs, plugins) {
      ConformingUpdated(rs, cs, plugins, |cs|);
      assert cs[..|cs|] == cs;
    } else {
      var j :| 0 <= j < |cs| && cs[j].plugin !in plugins;
      assert Found(rs, cs[j]);
    }
  }

  // ---------------------------------------------------------------- entries without a port

  /** A host on port 0 is stopped by every upload, whatever is configured. */
  lemma ZeroPortStopped(host: Host, cs: seq<HostConfig>)
    requires host.port == 0
    ensures Judged(host, cs) == Done(Verdict(false, []))
  {
    JudgedByNone(host, cs);
  }

  lemma ZeroPortApart(host: Host, c: HostConfig)
    requires c.port == 0
    ensures !SamePort(host, c) && UpdatedOne(host, c) == Done(host)
  {
  }

  /** And an entry without a port, which is an entry of port 0, matches no host: it creates another one
      whenever its lists are not empty, and no running host is compared with it. */
  lemma {:induction false} ZeroPortCreated(hosts: seq<Host>, c: HostConfig)
    requires c.port == 0
    ensures !Found(hosts, c) && Updated(hosts, c) == Done(hosts)
    decreases |hosts|
  {
    hide UpdatedOne, SamePort;
    if hosts != [] {
      var n := |hosts| - 1;
      ZeroPortCreated(hosts[..n], c);
      ZeroPortApart(hosts[n], c);
      assert hosts[..n] + [hosts[n]] == hosts;
    }
  }
}
