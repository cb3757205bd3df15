/**
 Certificates spreading between peers that pull from each other
 (src/proxy_global.cpp:1126-1163).  Any peer may pull from any other at any time, and what it is
 served may be long out of date when it merges it into its own file.
 */
module Gossip {
  import opened Bytes
  import opened Certificates

  type Store = seq<Cert>

  /** Peer `at` merges what peer `from` served after the first `seen` pulls. */
  datatype Pull = Pull(at: nat, from: nat, seen: nat)

  ghost predicate Possible(n: nat, ps: seq<Pull>) {
    forall k :: 0 <= k < |ps| ==> ps[k].at < n && ps[k].from < n && ps[k].seen <= k
  }

  /** The stores after the pulls. */
  function Run(stores: seq<Store>, ps: seq<Pull>): (r: seq<Store>)
    requires Possible(|stores|, ps)
    ensures |r| == |stores|
    decreases |ps|
  {
    if ps == [] then stores
    else
      var p, before := ps[|ps| - 1], ps[..|ps| - 1];
      var now := Run(stores, before);
      now[p.at := Merged(now[p.at], Run(stores, before[..p.seen])[p.from])]
  }

  /** Who peer i has heard of, directly or through others: who its news comes from. */
  function Heard(n: nat, ps: seq<Pull>, i: nat): (r: set<nat>)
    requires Possible(n, ps) && i < n
    ensures forall k :: k in r ==> k < n
    decreases |ps|
  {
    if ps == [] then {i}
    else
      var p, before := ps[|ps| - 1], ps[..|ps| - 1];
      Heard(n, before, i) + if p.at == i then Heard(n, before[..p.seen], p.from) else {}
  }

  // ---------------------------------------------------------------- stores only grow

  lemma {:induction false} StoresGrow(stores: seq<Store>, ps: seq<Pull>, i: nat)
    requires Possible(|stores|, ps) && i < |stores|
    ensures stores[i] <= Run(stores, ps)[i]
    ensures Unique(stores[i]) ==> Unique(Run(stores, ps)[i])
    decreases |ps|
  {
    hide Merged, Unique;
    if ps != [] {
      var p, before := ps[|ps| - 1], ps[..|ps| - 1];
      var own, served := Run(stores, before)[i], Run(stores, before[..p.seen])[p.from];
      StoresGrow(stores, before, i);
      MergedGrows(own, served);
      if Unique(stores[i]) {
        MergedUnique(own, served);
      }
    }
  }

  /** So a name that a peer has keeps the certificate that peer has for it. */
  lemma OwnKept(stores: seq<Store>, ps: seq<Pull>, i: nat, c: Cert)
    requires Possible(|stores|, ps) && i < |stores| && Unique(stores[i]) && c in stores[i]
    ensures c in Run(stores, ps)[i]
    ensures forall d :: d in Run(stores, ps)[i] && d.name == c.name ==> d == c
  {
    hide Run;
    StoresGrow(stores, ps, i);
    var after := Run(stores, ps)[i];
    var k :| 0 <= k < |stores[i]| && stores[i][k] == c;
    assert after[k] == c;
    forall d | d in after && d.name == c.name ensures d == c {
      var j :| 0 <= j < |after| && after[j] == d;
      assert Names(after)[j] == Names(after)[k];
    }
  }

  /** Nothing is invented: every certificate was some heard peer's from the start. */
  lemma {:induction false} FromTheStart(stores: seq<Store>, ps: seq<Pull>, i: nat, c: Cert)
    requires Possible(|stores|, ps) && i < |stores| && c in Run(stores, ps)[i]
    ensures exists k :: k in Heard(|stores|, ps, i) && c in stores[k]
    decreases |ps|
  {
    hide Merged;
    if ps == [] {
      assert i in Heard(|stores|, ps, i);
    } else {
      var p, before := ps[|ps| - 1], ps[..|ps| - 1];
      var own, served := Run(stores, before)[i], Run(stores, before[..p.seen])[p.from];
      var j, past := i, before;
      if c !in own {
        var merged := Merged(own, served);
        MergedGrows(own, served);
        var m :| 0 <= m < |merged| && merged[m] == c;
        assert m >= |own|;
        j, past := p.from, before[..p.seen];
      }
      FromTheStart(stores, past, j, c);
      var k :| k in Heard(|stores|, past, j) && c in stores[k];
      assert k in Heard(|stores|, ps, i);
    }
  }

  // ---------------------------------------------------------------- who knows which names

  ghost predicate SomeoneHeldIt(stores: seq<Store>, heard: set<nat>, name: string) {
    exists k :: k in heard && k < |stores| && Holds(stores[k], name)
  }

  /** After any pulls, a peer holds a name exactly if someone it has heard of started with it. */
  lemma {:induction false} NamesAreHeard(stores: seq<Store>, ps: seq<Pull>, i: nat, name: string)
    requires Possible(|stores|, ps) && i < |stores|
    ensures Holds(Run(stores, ps)[i], name) <==> SomeoneHeldIt(stores, Heard(|stores|, ps, i), name)
    decreases |ps|
  {
    hide Merged, Holds;
    if ps == [] {
      assert i in Heard(|stores|, ps, i);
    } else {
      var p, before := ps[|ps| - 1], ps[..|ps| - 1];
      NamesAreHeard(stores, before, i, name);
      if p.at == i {
        NamesAreHeard(stores, before[..p.seen], p.from, name);
        MergedNames(Run(stores, before)[i], Run(stores, before[..p.seen])[p.from], name);
      } else {
        assert Heard(|stores|, ps, i) == Heard(|stores|, before, i);
      }
    }
  }

  // ---------------------------------------------------------------- convergence

  ghost predicate HasPulled(ps: seq<Pull>, i: nat, j: nat) {
    exists k :: 0 <= k < |ps| && ps[k].at == i && ps[k].from == j
  }

  /** Every peer has pulled from every other, in whatever order and from whatever state. */
  ghost predicate AllPulled(n: nat, ps: seq<Pull>) {
    forall i: nat, j: nat :: i < n && j < n && i != j ==> HasPulled(ps, i, j)
  }

  lemma {:induction false} HeardFrom(n: nat, ps: seq<Pull>, i: nat, j: nat)
    requires Possible(n, ps) && i < n && j < n && (i == j || HasPulled(ps, i, j))
    ensures j in Heard(n, ps, i)
    decreases |ps|
  {
    if ps != [] {
      var p, before := ps[|ps| - 1], ps[..|ps| - 1];
      if i != j && p.at == i && p.from == j {
        HeardFrom(n, before[..p.seen], j, j);
      } else {
        if i != j {
          var k :| 0 <= k < |ps| && ps[k].at == i && ps[k].from == j;
          assert before[k] == ps[k];
        }
        HeardFrom(n, before, i, j);
      }
    }
  }

  /** Then all of them hold exactly the names that anyone started with. */
  lemma Converged(stores: seq<Store>, ps: seq<Pull>, i: nat, name: string)
    requires Possible(|stores|, ps) && AllPulled(|stores|, ps) && i < |stores|
    ensures Holds(Run(stores, ps)[i], name) <==> exists k :: 0 <= k < |stores| && Holds(stores[k], name)
  {
    hide Holds, Run;
    NamesAreHeard(stores, ps, i, name);
    forall k: nat | k < |stores| ensures k in Heard(|stores|, ps, i) {
      HeardFrom(|stores|, ps, i, k);
    }
  }

  /** Only peer k starts with the name. */
  ghost predicate OnlyAt(stores: seq<Store>, k: nat, name: string) {
    k < |stores| && forall j: nat :: j < |stores| ==> (Holds(stores[j], name) <==> j == k)
  }

  /** A name that only peer k started with has reached peer i exactly when i has heard of k, so
      nothing less than everyone hearing of everyone makes all of them agree. */
  lemma ReachedIff(stores: seq<Store>, ps: seq<Pull>, i: nat, k: nat, name: string)
    requires Possible(|stores|, ps) && i < |stores| && OnlyAt(stores, k, name)
    ensures Holds(Run(stores, ps)[i], name) <==> k in Heard(|stores|, ps, i)
  {
    hide Holds, Run, Heard;
    NamesAreHeard(stores, ps, i, name);
  }
}
