/** Exactly when the assertion of `populate_json` can be relied on. */
module ReconfigAssertion {
  import opened Bytes
  import opened Reconfig
  import opened ReconfigProofs

  /** What every host that the program creates has: a registered plugin, and locals. */
  ghost predicate Possible(hosts: seq<Host>, plugins: set<string>) {
    forall i :: 0 <= i < |hosts| ==> hosts[i].plugin in plugins && hosts[i].locals != []
  }

  /** The assertion holds whatever hosts are running. */
  ghost predicate NeverTrips(cs: seq<HostConfig>, plugins: set<string>) {
    forall hosts :: Possible(hosts, plugins) ==> Reconfigured(hosts, cs, plugins) != Failed(ShouldHaveBeenDeleted)
  }

  predicate SharePort(c: HostConfig, d: HostConfig) {
    c.port == d.port && d.port > 0
  }

  predicate Creates(c: HostConfig) {
    Loaded(c.remotes) != [] && Loaded(c.locals) != []
  }

  /** The host that an entry creates. */
  function HostOf(c: HostConfig, plugins: set<string>): Host {
    Host(c.port, Loaded(c.remotes), Loaded(c.locals), Resolve(plugins, c.plugin), [])
  }

  /** Up to entry k, remotes that do not load stand only where no entry before created a host. */
  ghost predicate Reached(cs: seq<HostConfig>, k: int) {
    forall i, m :: 0 <= i < m <= k && m < |cs| && SharePort(cs[i], cs[m]) && Creates(cs[i]) ==> AllLoad(cs[m].remotes)
  }

  /** Entry k is the last for its port, and there can be a host that it keeps. */
  ghost predicate Keeps(cs: seq<HostConfig>, k: int, plugins: set<string>) {
    && 0 <= k < |cs| && cs[k].port > 0
    && (forall m :: k < m < |cs| ==> cs[m].port != cs[k].port)
    && (forall m :: 0 <= m < |cs| && SharePort(cs[m], cs[k]) ==> AllLoad(cs[m].remotes))
    && AllLoad(cs[k].locals) && cs[k].locals.value != [] && cs[k].plugin in plugins
  }

  /** The host that an entry creates agrees with each later entry for its port. */
  ghost predicate CreatedAgrees(cs: seq<HostConfig>, plugins: set<string>) {
    forall j, k :: 0 <= j < k < |cs| && SharePort(cs[j], cs[k]) && Creates(cs[j]) && Reached(cs, k) ==> Settled(HostOf(cs[j], plugins), cs[k])
  }

  /** The host that the last entry for a port keeps agrees with each earlier one. */
  ghost predicate LastAgrees(cs: seq<HostConfig>, plugins: set<string>) {
    forall j, k :: 0 <= j < k < |cs| && SharePort(cs[j], cs[k]) && Keeps(cs, k, plugins) && Reached(cs, j) ==>
      cs[j].plugin == cs[k].plugin && cs[j].locals == cs[k].locals
  }

  // ---------------------------------------------------------------- one entry

  /** Hosts that differ at most in remotes and sessions. */
  ghost predicate Alike(h: Host, g: Host) {
    h.port == g.port && h.plugin == g.plugin && h.locals == g.locals
  }

  lemma SettledAlike(h: Host, g: Host, c: HostConfig)
    requires Alike(h, g)
    ensures Settled(g, c) <==> Settled(h, c)
    ensures SamePort(g, c) <==> SamePort(h, c)
  {
  }

  lemma SettledBoth(h: Host, c: HostConfig, d: HostConfig)
    requires Settled(h, c) && Settled(h, d)
    ensures c.plugin == d.plugin == h.plugin && c.locals == d.locals
  {
    assert c.locals.value == d.locals.value;
  }

  /** An entry that agrees with a possible host would create a host like it. */
  lemma SettledCreates(h: Host, c: HostConfig, plugins: set<string>)
    requires Settled(h, c) && SamePort(h, c) && h.plugin in plugins
    ensures Alike(h, HostOf(c, plugins))
  {
    LoadedAll(c.locals.value);
  }

  /** A successful update found every host with the port settled, and changes only remotes. */
  lemma {:induction false} UpdatedDone(hosts: seq<Host>, c: HostConfig)
    requires Updated(hosts, c).Done?
    ensures |Updated(hosts, c).value| == |hosts|
    ensures forall i :: 0 <= i < |hosts| ==>
      && Updated(hosts, c).value[i] == hosts[i].(remotes := Updated(hosts, c).value[i].remotes)
      && (SamePort(hosts[i], c) ==> Settled(hosts[i], c) && AllLoad(c.remotes))
    decreases |hosts|
  {
    hide Select, SameLocals, ErasedAll, Loaded;
    if hosts != [] {
      UpdatedDone(hosts[..|hosts| - 1], c);
    }
  }

  /** An unsuccessful one found a host with the port, and remotes that do not load or a host not settled. */
  lemma {:induction false} UpdatedFails(hosts: seq<Host>, c: HostConfig) returns (i: nat)
    requires Updated(hosts, c).Failed?
    ensures i < |hosts| && SamePort(hosts[i], c)
    ensures Updated(hosts, c).why == if AllLoad(c.remotes) then ShouldHaveBeenDeleted else BadRemotes
    ensures AllLoad(c.remotes) ==> !Settled(hosts[i], c)
    decreases |hosts|
  {
    hide Select, SameLocals, ErasedAll, Loaded;
    var n := |hosts| - 1;
    if Updated(hosts[..n], c).Failed? {
      i := UpdatedFails(hosts[..n], c);
    } else {
      i := n;
    }
  }

  // ---------------------------------------------------------------- stages

  ghost function Stage(hosts: seq<Host>, cs: seq<HostConfig>, plugins: set<string>, k: nat): Outcome<seq<Host>>
    requires k <= |cs|
  {
    Populated(hosts, cs[..k], plugins)
  }

  lemma StageNext(hosts: seq<Host>, cs: seq<HostConfig>, plugins: set<string>, k: nat)
    requires k < |cs| && Stage(hosts, cs, plugins, k + 1).Done?
    ensures Stage(hosts, cs, plugins, k).Done?
    ensures var hs := Stage(hosts, cs, plugins, k).value;
            && Updated(hs, cs[k]).Done?
            && Stage(hosts, cs, plugins, k + 1).value
            == Updated(hs, cs[k]).value + if Found(hs, cs[k]) then [] else Created(cs[k], plugins)
  {
    hide Updated, Created, Found;
    assert cs[..k + 1][..k] == cs[..k];
  }

  lemma StageNone(hosts: seq<Host>, cs: seq<HostConfig>, plugins: set<string>)
    ensures Stage(hosts, cs, plugins, 0) == Done(hosts)
  {
  }

  lemma StageStops(hosts: seq<Host>, cs: seq<HostConfig>, plugins: set<string>, k: nat)
    requires k < |cs| && Stage(hosts, cs, plugins, k).Done?
    ensures var us := Updated(Stage(hosts, cs, plugins, k).value, cs[k]);
            if us.Failed? then Stage(hosts, cs, plugins, k + 1) == Failed(us.why) else Stage(hosts, cs, plugins, k + 1).Done?
  {
    hide Updated, Created, Found;
    assert cs[..k + 1][..k] == cs[..k];
  }

  /** A host found after the first a entries was settled for each later entry with its port. */
  lemma {:induction false} StageHost(hosts: seq<Host>, cs: seq<HostConfig>, plugins: set<string>, a: nat, b: nat, i: nat)
    requires a <= b <= |cs| && Stage(hosts, cs, plugins, b).Done?
    ensures Stage(hosts, cs, plugins, a).Done?
    ensures i < |Stage(hosts, cs, plugins, a).value| ==>
      var h := Stage(hosts, cs, plugins, a).value[i];
      && i < |Stage(hosts, cs, plugins, b).value|
      && Stage(hosts, cs, plugins, b).value[i] == h.(remotes := Stage(hosts, cs, plugins, b).value[i].remotes)
      && forall m :: a <= m < b && SamePort(h, cs[m]) ==> Settled(h, cs[m])
    decreases b - a
  {
    hide Stage, Updated, Created, Settled;
    if a < b {
      StageNext(hosts, cs, plugins, b - 1);
      StageHost(hosts, cs, plugins, a, b - 1, i);
      var hs := Stage(hosts, cs, plugins, b - 1).value;
      UpdatedDone(hs, cs[b - 1]);
      if i < |Stage(hosts, cs, plugins, a).value| {
        SettledAlike(Stage(hosts, cs, plugins, a).value[i], hs[i], cs[b - 1]);
      }
    }
  }

  lemma {:induction false} StagePossible(hosts: seq<Host>, cs: seq<HostConfig>, plugins: set<string>, k: nat)
    requires Possible(hosts, plugins) && "" in plugins && k <= |cs| && Stage(hosts, cs, plugins, k).Done?
    ensures Possible(Stage(hosts, cs, plugins, k).value, plugins)
    decreases k
  {
    hide Updated, Found, Loaded;
    if k > 0 {
      StageNext(hosts, cs, plugins, k - 1);
      StagePossible(hosts, cs, plugins, k - 1);
      UpdatedDone(Stage(hosts, cs, plugins, k - 1).value, cs[k - 1]);
    }
  }

  /** After an entry that creates hosts, there is one like it. */
  lemma StageFound(hosts: seq<Host>, cs: seq<HostConfig>, plugins: set<string>, k: nat) returns (i: nat)
    requires k < |cs| && Creates(cs[k]) && cs[k].port > 0 && Stage(hosts, cs, plugins, k + 1).Done?
    requires Possible(hosts, plugins) && "" in plugins
    ensures i < |Stage(hosts, cs, plugins, k + 1).value|
    ensures Alike(Stage(hosts, cs, plugins, k + 1).value[i], HostOf(cs[k], plugins))
  {
    hide Stage, Updated, Settled, Resolve, Loaded;
    StageNext(hosts, cs, plugins, k);
    StagePossible(hosts, cs, plugins, k);
    var hs := Stage(hosts, cs, plugins, k).value;
    UpdatedDone(hs, cs[k]);
    if Found(hs, cs[k]) {
      i :| 0 <= i < |hs| && SamePort(hs[i], cs[k]);
      SettledCreates(hs[i], cs[k], plugins);
    } else {
      i := |hs|;
    }
  }

  /** Where host i of a stage comes from: it was kept, or an entry created it. */
  ghost predicate Origin(h: Host, i: nat, kept: seq<Host>, cs: seq<HostConfig>, plugins: set<string>, k: nat) {
    || (i < |kept| && Alike(h, kept[i]))
    || exists j :: 0 <= j < k <= |cs| && Creates(cs[j]) && Alike(h, HostOf(cs[j], plugins))
  }

  lemma {:induction false} StageOrigin(kept: seq<Host>, cs: seq<HostConfig>, plugins: set<string>, k: nat, i: nat)
    requires k <= |cs| && Stage(kept, cs, plugins, k).Done? && i < |Stage(kept, cs, plugins, k).value|
    ensures Origin(Stage(kept, cs, plugins, k).value[i], i, kept, cs, plugins, k)
    decreases k
  {
    hide Stage, Updated, Found, Loaded;
    if k > 0 {
      StageNext(kept, cs, plugins, k - 1);
      var hs := Stage(kept, cs, plugins, k - 1).value;
      UpdatedDone(hs, cs[k - 1]);
      if i < |hs| {
        StageOrigin(kept, cs, plugins, k - 1, i);
      }
    } else {
      StageNone(kept, cs, plugins);
    }
  }

  /** As far as populating gets, no entry finds a host and remotes that do not load. */
  lemma ReachedSoFar(hosts: seq<Host>, cs: seq<HostConfig>, plugins: set<string>, k: nat)
    requires Possible(hosts, plugins) && "" in plugins && k <= |cs| && Stage(hosts, cs, plugins, k).Done?
    ensures Reached(cs, k - 1)
  {
    hide Stage, Updated, Creates, AllLoad;
    forall i, m | 0 <= i < m <= k - 1 && m < |cs| && SharePort(cs[i], cs[m]) && Creates(cs[i]) ensures AllLoad(cs[m].remotes) {
      StageHost(hosts, cs, plugins, m + 1, k, 0);
      StageNext(hosts, cs, plugins, m);
      StageHost(hosts, cs, plugins, i + 1, m, 0);
      var h := StageFound(hosts, cs, plugins, i);
      StageHost(hosts, cs, plugins, i + 1, m, h);
      UpdatedDone(Stage(hosts, cs, plugins, m).value, cs[m]);
      assert SamePort(Stage(hosts, cs, plugins, m).value[h], cs[m]);
    }
  }

  // ---------------------------------------------------------------- the condition suffices

  lemma {:induction false} JudgedLoads(host: Host, cs: seq<HostConfig>)
    ensures Judged(host, cs).Done? <==> forall m :: 0 <= m < |cs| && SamePort(host, cs[m]) ==> AllLoad(cs[m].remotes)
    decreases |cs|
  {
    hide DifferenceOf, AllLoad, SamePort;
    if cs != [] {
      var n := |cs| - 1;
      JudgedLoads(host, cs[..n]);
      assert forall m :: 0 <= m < n ==> cs[..n][m] == cs[m];
      assert Compared(host, cs[n]).Failed? <==> SamePort(host, cs[n]) && !AllLoad(cs[n].remotes);
    }
  }

  /** The entry that settles a kept host is one that keeps it. */
  lemma KeptMeansKeeps(host: Host, cs: seq<HostConfig>, plugins: set<string>, k: nat)
    requires host.plugin in plugins && host.locals != [] && Judged(host, cs).Done? && StaysFor(host, cs, k)
    ensures Keeps(cs, k, plugins)
  {
    hide Judged;
    JudgedLoads(host, cs);
  }

  /** A host that was kept agrees with every entry that populating reaches. */
  lemma KeptAgrees(host: Host, cs: seq<HostConfig>, plugins: set<string>, m: nat)
    requires LastAgrees(cs, plugins) && host.plugin in plugins && host.locals != []
    requires Judged(host, cs).Done? && Stays(host, cs) && m < |cs| && SamePort(host, cs[m]) && Reached(cs, m)
    ensures Settled(host, cs[m])
  {
    hide Judged, Reached;
    var k :| StaysFor(host, cs, k);
    KeptMeansKeeps(host, cs, plugins, k);
    if m != k {
      assert SharePort(cs[m], cs[k]);
    }
  }

  /** The kept hosts agree with every entry that populating reaches. */
  ghost predicate HostsAgree(kept: seq<Host>, cs: seq<HostConfig>) {
    forall i, m :: 0 <= i < |kept| && 0 <= m < |cs| && SamePort(kept[i], cs[m]) && Reached(cs, m) ==> Settled(kept[i], cs[m])
  }

  lemma KeptHostsAgree(hosts: seq<Host>, cs: seq<HostConfig>, plugins: set<string>)
    requires LastAgrees(cs, plugins) && Possible(hosts, plugins) && Unpopulated(hosts, cs).Done?
    ensures HostsAgree(Unpopulated(hosts, cs).value, cs)
  {
    hide Unpopulated, Judged, Settled, Reached, Stays, LastAgrees;
    var kept := Unpopulated(hosts, cs).value;
    forall i, m | 0 <= i < |kept| && 0 <= m < |cs| && SamePort(kept[i], cs[m]) && Reached(cs, m) ensures Settled(kept[i], cs[m]) {
      var r := KeptFrom(hosts, cs, i);
      SettledAlike(kept[i], hosts[r], cs[m]);
      KeptAgrees(hosts[r], cs, plugins, m);
    }
  }

  /** So does every host at each stage. */
  lemma HostAgrees(kept: seq<Host>, cs: seq<HostConfig>, plugins: set<string>, m: nat, i: nat)
    requires CreatedAgrees(cs, plugins) && HostsAgree(kept, cs) && Possible(kept, plugins) && "" in plugins
    requires m < |cs| && Stage(kept, cs, plugins, m).Done? && i < |Stage(kept, cs, plugins, m).value|
    requires SamePort(Stage(kept, cs, plugins, m).value[i], cs[m]) && AllLoad(cs[m].remotes)
    ensures Settled(Stage(kept, cs, plugins, m).value[i], cs[m])
  {
    hide Stage, Settled, Creates, AllLoad, CreatedAgrees;
    ReachedSoFar(kept, cs, plugins, m);
    assert Reached(cs, m);
    StageOrigin(kept, cs, plugins, m, i);
    var h := Stage(kept, cs, plugins, m).value[i];
    if i < |kept| && Alike(h, kept[i]) {
      SettledAlike(h, kept[i], cs[m]);
    } else {
      var j :| 0 <= j < m && Creates(cs[j]) && Alike(h, HostOf(cs[j], plugins));
      CreatedSettles(cs, plugins, j, m);
      SettledAlike(h, HostOf(cs[j], plugins), cs[m]);
    }
  }

  lemma CreatedSettles(cs: seq<HostConfig>, plugins: set<string>, j: nat, k: nat)
    requires CreatedAgrees(cs, plugins) && j < k < |cs| && SharePort(cs[j], cs[k]) && Creates(cs[j]) && Reached(cs, k)
    ensures Settled(HostOf(cs[j], plugins), cs[k])
  {
  }

  /** The running host that a kept one was. */
  lemma {:induction false} KeptFrom(hosts: seq<Host>, cs: seq<HostConfig>, i: nat) returns (r: nat)
    requires Unpopulated(hosts, cs).Done? && i < |Unpopulated(hosts, cs).value|
    ensures r < |hosts| && Alike(Unpopulated(hosts, cs).value[i], hosts[r])
    ensures Judged(hosts[r], cs).Done? && Stays(hosts[r], cs)
    decreases |hosts|
  {
    hide Judged, Stays, Staying;
    var n := |hosts| - 1;
    if i < |Unpopulated(hosts[..n], cs).value| {
      r := KeptFrom(hosts[..n], cs, i);
    } else {
      r := n;
      JudgedExact(hosts[n], cs);
    }
  }

  lemma KeptPossible(hosts: seq<Host>, cs: seq<HostConfig>, plugins: set<string>)
    requires Possible(hosts, plugins) && Unpopulated(hosts, cs).Done?
    ensures Possible(Unpopulated(hosts, cs).value, plugins)
  {
    hide Unpopulated, Judged;
    forall i | 0 <= i < |Unpopulated(hosts, cs).value|
      ensures Unpopulated(hosts, cs).value[i].plugin in plugins && Unpopulated(hosts, cs).value[i].locals != []
    {
      var r := KeptFrom(hosts, cs, i);
    }
  }

  lemma {:induction false} StagesHold(kept: seq<Host>, cs: seq<HostConfig>, plugins: set<string>, k: nat)
    requires CreatedAgrees(cs, plugins) && HostsAgree(kept, cs) && Possible(kept, plugins) && "" in plugins && k <= |cs|
    ensures Stage(kept, cs, plugins, k) != Failed(ShouldHaveBeenDeleted)
    decreases k
  {
    hide Stage, Updated, Settled, AllLoad, CreatedAgrees, HostsAgree;
    if k > 0 {
      StagesHold(kept, cs, plugins, k - 1);
      if Stage(kept, cs, plugins, k - 1).Done? {
        StageStops(kept, cs, plugins, k - 1);
        var hs := Stage(kept, cs, plugins, k - 1).value;
        if Updated(hs, cs[k - 1]).Failed? {
          var i := UpdatedFails(hs, cs[k - 1]);
          if AllLoad(cs[k - 1].remotes) {
            HostAgrees(kept, cs, plugins, k - 1, i);
            assert false;
          }
        }
      } else {
        StageFailed(kept, cs, plugins, k - 1, k);
      }
    } else {
      StageNone(kept, cs, plugins);
    }
  }

  lemma StageFailed(hosts: seq<Host>, cs: seq<HostConfig>, plugins: set<string>, a: nat, b: nat)
    requires a <= b <= |cs| && Stage(hosts, cs, plugins, a).Failed?
    ensures Stage(hosts, cs, plugins, b) == Stage(hosts, cs, plugins, a)
  {
    hide Populated;
    assert cs[..b][..a] == cs[..a];
    PopulatedFailed(hosts, cs[..b], plugins, a);
  }

  lemma ConditionSuffices(hosts: seq<Host>, cs: seq<HostConfig>, plugins: set<string>)
    requires CreatedAgrees(cs, plugins) && LastAgrees(cs, plugins) && Possible(hosts, plugins) && "" in plugins
    ensures Reconfigured(hosts, cs, plugins) != Failed(ShouldHaveBeenDeleted)
  {
    hide Populated, Unpopulated, CreatedAgrees, LastAgrees, HostsAgree, Possible;
    NeverDeleted(hosts, cs);
    if Unpopulated(hosts, cs).Done? {
      KeptPossible(hosts, cs, plugins);
      KeptHostsAgree(hosts, cs, plugins);
      StagesHold(Unpopulated(hosts, cs).value, cs, plugins, |cs|);
      assert cs[..|cs|] == cs;
    }
  }

  // ---------------------------------------------------------------- and is necessary

  lemma WholeRun(hosts: seq<Host>, kept: seq<Host>, cs: seq<HostConfig>, plugins: set<string>)
    requires Unpopulated(hosts, cs) == Done(kept)
    ensures Reconfigured(hosts, cs, plugins) == Stage(kept, cs, plugins, |cs|)
  {
    hide Populated, Unpopulated;
    assert cs[..|cs|] == cs;
  }

  /** Without a trip, populating fails only where remotes do not load and a host is there. */
  lemma {:induction false} StagesDone(kept: seq<Host>, cs: seq<HostConfig>, plugins: set<string>, k: nat)
    requires Stage(kept, cs, plugins, |cs|) != Failed(ShouldHaveBeenDeleted)
    requires k <= |cs| && Reached(cs, k - 1)
    requires forall i, m :: 0 <= i < |kept| && 0 <= m < k && SamePort(kept[i], cs[m]) ==> AllLoad(cs[m].remotes)
    ensures Stage(kept, cs, plugins, k).Done?
    decreases k
  {
    hide Stage, Updated, Settled, AllLoad, Creates;
    if k > 0 {
      StagesDone(kept, cs, plugins, k - 1);
      StageStops(kept, cs, plugins, k - 1);
      var hs := Stage(kept, cs, plugins, k - 1).value;
      if Updated(hs, cs[k - 1]).Failed? {
        var i := UpdatedFails(hs, cs[k - 1]);
        StageOrigin(kept, cs, plugins, k - 1, i);
        assert AllLoad(cs[k - 1].remotes);
        StageFailed(kept, cs, plugins, k, |cs|);
      }
    } else {
      StageNone(kept, cs, plugins);
    }
  }

  lemma CreatedNeeded(cs: seq<HostConfig>, plugins: set<string>, j: nat, k: nat)
    requires NeverTrips(cs, plugins) && "" in plugins
    requires j < k < |cs| && SharePort(cs[j], cs[k]) && Creates(cs[j]) && Reached(cs, k)
    ensures Settled(HostOf(cs[j], plugins), cs[k])
  {
    hide Reconfigured, Stage, Settled, Creates;
    WholeRun([], [], cs, plugins);
    StagesDone([], cs, plugins, k + 1);
    StageHost([], cs, plugins, j + 1, k + 1, 0);
    var i := StageFound([], cs, plugins, j);
    StageHost([], cs, plugins, j + 1, k + 1, i);
    SettledAlike(Stage([], cs, plugins, j + 1).value[i], HostOf(cs[j], plugins), cs[k]);
  }

  /** The host that entry k keeps: the one it would create. */
  lemma KeptByLast(cs: seq<HostConfig>, k: nat, plugins: set<string>) returns (kept: Host)
    requires Keeps(cs, k, plugins)
    ensures var host := HostOf(cs[k], plugins);
            && Possible([host], plugins) && Settled(host, cs[k]) && Alike(kept, host)
            && Unpopulated([host], cs) == Done([kept])
  {
    hide Judged, Unpopulated;
    var host := HostOf(cs[k], plugins);
    LoadedAll(cs[k].locals.value);
    assert StaysFor(host, cs, k);
    JudgedLoads(host, cs);
    JudgedExact(host, cs);
    OneHost(host, cs);
    kept := Trimmed(host, Judged(host, cs).value.removed);
  }

  lemma OneHost(host: Host, cs: seq<HostConfig>)
    requires Judged(host, cs).Done? && Judged(host, cs).value.keep
    ensures Unpopulated([host], cs) == Done([Trimmed(host, Judged(host, cs).value.removed)])
  {
    hide Judged, Trimmed;
    assert [host][..0] == [];
    assert Unpopulated([host][..0], cs) == Done([]);
    assert [] + [Trimmed(host, Judged(host, cs).value.removed)] == [Trimmed(host, Judged(host, cs).value.removed)];
  }

  lemma LastNeeded(cs: seq<HostConfig>, plugins: set<string>, j: nat, k: nat)
    requires NeverTrips(cs, plugins) && "" in plugins
    requires j < k < |cs| && SharePort(cs[j], cs[k]) && Keeps(cs, k, plugins) && Reached(cs, j)
    ensures cs[j].plugin == cs[k].plugin && cs[j].locals == cs[k].locals
  {
    hide Reconfigured, Stage, Settled, Unpopulated, Possible;
    var host := HostOf(cs[k], plugins);
    var kept := KeptByLast(cs, k, plugins);
    WholeRun([host], [kept], cs, plugins);
    StagesDone([kept], cs, plugins, j + 1);
    StageHost([kept], cs, plugins, 0, j + 1, 0);
    StageNone([kept], cs, plugins);
    SettledAlike(kept, host, cs[j]);
    SettledBoth(host, cs[j], cs[k]);
  }

  /** For every configuration: the assertion holds whatever is running exactly if the host that an entry
      creates agrees with each later entry for its port, and the host that the last entry for a port
      keeps agrees with each earlier one. */
  lemma AssertionIff(cs: seq<HostConfig>, plugins: set<string>)
    requires "" in plugins
    ensures NeverTrips(cs, plugins) <==> CreatedAgrees(cs, plugins) && LastAgrees(cs, plugins)
  {
    hide Reconfigured, Reached, Keeps, Creates, Settled, HostOf, Possible;
    if NeverTrips(cs, plugins) {
      forall j, k | 0 <= j < k < |cs| && SharePort(cs[j], cs[k]) && Creates(cs[j]) && Reached(cs, k)
        ensures Settled(HostOf(cs[j], plugins), cs[k])
      {
        CreatedNeeded(cs, plugins, j, k);
      }
      forall j, k | 0 <= j < k < |cs| && SharePort(cs[j], cs[k]) && Keeps(cs, k, plugins) && Reached(cs, j)
        ensures cs[j].plugin == cs[k].plugin && cs[j].locals == cs[k].locals
      {
        LastNeeded(cs, plugins, j, k);
      }
    } else if CreatedAgrees(cs, plugins) && LastAgrees(cs, plugins) {
      var hosts :| Possible(hosts, plugins) && Reconfigured(hosts, cs, plugins) == Failed(ShouldHaveBeenDeleted);
      ConditionSuffices(hosts, cs, plugins);
      assert false;
    }
  }

  /** What is possible stays so: a reconfiguration leaves possible hosts. */
  lemma AlwaysPossible(hosts: seq<Host>, cs: seq<HostConfig>, plugins: set<string>)
    requires Possible(hosts, plugins) && "" in plugins && Reconfigured(hosts, cs, plugins).Done?
    ensures Possible(Reconfigured(hosts, cs, plugins).value, plugins)
  {
    hide Unpopulated, Populated, Possible;
    KeptPossible(hosts, cs, plugins);
    assert cs[..|cs|] == cs;
    StagePossible(Unpopulated(hosts, cs).value, cs, plugins, |cs|);
  }

  // ---------------------------------------------------------------- the ways it fails

  /** With nothing running: an entry creates a host that a later one does not agree with. */
  lemma CreatedTrips(c: HostConfig, d: HostConfig, plugins: set<string>)
    requires "" in plugins && SharePort(c, d) && Creates(c) && AllLoad(d.remotes) && !Settled(HostOf(c, plugins), d)
    ensures Reconfigured([], [c, d], plugins) == Failed(ShouldHaveBeenDeleted)
  {
    hide Stage, Populated, Settled, Creates, AllLoad;
    var cs := [c, d];
    StageNone([], cs, plugins);
    StageStops([], cs, plugins, 0);
    StageStops([], cs, plugins, 1);
    var hs := Stage([], cs, plugins, 1).value;
    var i := StageFound([], cs, plugins, 0);
    SettledAlike(hs[i], HostOf(c, plugins), d);
    if Updated(hs, d).Done? {
      UpdatedDone(hs, d);
      assert false;
    }
    var k := UpdatedFails(hs, d);
    WholeRun([], [], cs, plugins);
  }

  /** So an entry of unknown plugin type trips when it is given twice: its host has the standard plugin. */
  lemma UnknownTypeTrips(c: HostConfig, plugins: set<string>)
    requires "" in plugins && c.port > 0 && Creates(c) && AllLoad(c.remotes) && c.plugin !in plugins
    ensures Reconfigured([], [c, c], plugins) == Failed(ShouldHaveBeenDeleted)
  {
    hide Reconfigured, Creates, AllLoad;
    CreatedTrips(c, c, plugins);
  }

  /** And so does one with a local that cannot be loaded: its host has the others only. */
  lemma PartialLocalsTrips(c: HostConfig, plugins: set<string>)
    requires "" in plugins && c.port > 0 && Creates(c) && AllLoad(c.remotes) && !AllLoad(c.locals)
    ensures Reconfigured([], [c, c], plugins) == Failed(ShouldHaveBeenDeleted)
  {
    hide Reconfigured, Creates;
    CreatedTrips(c, c, plugins);
  }

  /** With a host running that the last entry keeps: an earlier entry does not agree with it. */
  lemma EarlierEntryTrips(c: HostConfig, d: HostConfig, plugins: set<string>)
    requires SharePort(c, d) && AllLoad(c.remotes) && Keeps([c, d], 1, plugins) && (c.plugin != d.plugin || c.locals != d.locals)
    ensures Possible([HostOf(d, plugins)], plugins)
    ensures Reconfigured([HostOf(d, plugins)], [c, d], plugins) == Failed(ShouldHaveBeenDeleted)
  {
    hide Stage, Unpopulated, Settled, AllLoad, Reconfigured;
    var host, cs := HostOf(d, plugins), [c, d];
    var kept := KeptByLast(cs, 1, plugins);
    StageNone([kept], cs, plugins);
    StageStops([kept], cs, plugins, 0);
    SettledAlike(kept, host, c);
    if Updated([kept], c).Done? {
      UpdatedDone([kept], c);
      assert Settled([kept][0], c);
      SettledBoth(host, c, d);
      assert false;
    }
    var k := UpdatedFails([kept], c);
    StageFailed([kept], cs, plugins, 1, 2);
    WholeRun([host], [kept], cs, plugins);
  }
}
