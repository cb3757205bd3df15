/**
 The certificate file and the cached list of its names: server exchange, merge from a peer, deletion
 (src/proxy_global.cpp:905-974, 1126-1163, src/applutil.cpp:370-394, src/main.cpp:186-203).
 Each operation is one atomic step on the file.
 */
module Certificates {
  import opened Bytes

  /** An opaque certificate with its common name. */
  datatype Cert = Cert(name: string, content: ByteString)

  datatype State = State(
    file: Option<seq<Cert>>,     // None: there is no file
    names: seq<string>,          // m_cert_names
    reloading: bool)             // a reload was asked for

  datatype Event =
    | Exchange(received: Option<seq<Cert>>, expected: seq<string>)   // None: nothing usable was received
    | Merge(served: Option<seq<Cert>>)
    | Delete(name: string, clientUsesIt: bool)
    | Reload

  function Names(certs: seq<Cert>): seq<string> {
    Map(certs, (c: Cert) => c.name)
  }

  function FileValue(file: Option<seq<Cert>>): seq<Cert> {
    if file.None? then [] else file.value
  }

  function FileNames(file: Option<seq<Cert>>): seq<string> {
    Names(FileValue(file))
  }

  predicate Holds(certs: seq<Cert>, name: string) {
    exists i :: 0 <= i < |certs| && certs[i].name == name
  }

  /** All but those with this name. */
  function Others(certs: seq<Cert>, name: string): seq<Cert> {
    if certs == [] then []
    else
      var n := |certs| - 1;
      Others(certs[..n], name) + if certs[n].name == name then [] else [certs[n]]
  }

  /** Each served certificate is added, unless its name is there already. */
  function Merged(own: seq<Cert>, served: seq<Cert>): seq<Cert> {
    if served == [] then own
    else
      var n := |served| - 1;
      var certs := Merged(own, served[..n]);
      if Holds(certs, served[n].name) then certs else certs + [served[n]]
  }

  predicate Accepted(s: State, received: Option<seq<Cert>>, expected: seq<string>) {
    received.Some? && |received.value| == 1 && received.value[0].name in expected && s.file.Some?
  }

  function Step(s: State, e: Event): State {
    match e
    case Exchange(received, expected) =>
      if Accepted(s, received, expected) then
        var cert := received.value[0];
        var certs := Others(s.file.value, cert.name) + [cert];
        s.(file := Some(certs), names := Names(certs))
      else s
    case Merge(served) =>
      if served.None? then s
      else
        var own := FileValue(s.file);
        var certs := Merged(own, served.value);
        if |certs| == |own| then s else s.(file := Some(certs), names := Names(certs))
    case Delete(name, clientUsesIt) =>
      if s.file.None? then s
      else
        var certs := Others(s.file.value, name);
        if clientUsesIt then s.(file := Some(certs), reloading := true)
        else s.(file := Some(certs), names := Names(certs))
    case Reload => s.(names := FileNames(s.file), reloading := false)
  }

  predicate Reaches(s: State, es: seq<Event>, t: State)
    decreases es
  {
    if es == [] then s == t else Reaches(Step(s, es[0]), es[1..], t)
  }

  // ---------------------------------------------------------------- lists of certificates

  ghost predicate Unique(certs: seq<Cert>) {
    NoDup(Names(certs))
  }

  /** `sub` is `all` with some certificates left out. */
  ghost predicate InOrder(sub: seq<Cert>, at: seq<nat>, all: seq<Cert>) {
    && |at| == |sub|
    && (forall i :: 0 <= i < |at| ==> at[i] < |all| && all[at[i]] == sub[i])
    && (forall i, j :: 0 <= i < j < |at| ==> at[i] < at[j])
  }

  /** `at` are the positions of the certificates with another name. */
  ghost predicate AllOthers(at: seq<nat>, certs: seq<Cert>, name: string) {
    && (forall i :: 0 <= i < |certs| ==> (i in at <==> certs[i].name != name))
    && (forall i :: i in at ==> i < |certs|)
  }

  /** What is left is exactly what has another name, in order. */
  lemma {:induction false} OthersExact(certs: seq<Cert>, name: string) returns (at: seq<nat>)
    ensures InOrder(Others(certs, name), at, certs)
    ensures AllOthers(at, certs, name)
    ensures !Holds(Others(certs, name), name)
  {
    hide InOrder, AllOthers, Holds;
    at := [];
    if certs != [] {
      var n := |certs| - 1;
      var rest := Others(certs[..n], name);
      at := OthersExact(certs[..n], name);
      assert rest + [] == rest;
      OneLess(rest, at, certs, name);
      if certs[n].name != name {
        OneMore(rest, at, certs, name);
        HoldsAppend(rest, certs[n], name);
        at := at + [n];
      }
    } else {
      NoOthers(name);
    }
  }

  lemma NoOthers(name: string)
    ensures InOrder([], [], []) && AllOthers([], [], name) && !Holds([], name)
  {
  }

  lemma OneMore(sub: seq<Cert>, at: seq<nat>, all: seq<Cert>, name: string)
    requires all != [] && InOrder(sub, at, all[..|all| - 1]) && AllOthers(at, all[..|all| - 1], name)
    requires all[|all| - 1].name != name
    ensures InOrder(sub + [all[|all| - 1]], at + [|all| - 1], all) && AllOthers(at + [|all| - 1], all, name)
  {
    var n := |all| - 1;
    forall i | 0 <= i < |all| ensures i in at + [n] <==> all[i].name != name {
      if i < n { assert all[..n][i] == all[i]; }
    }
  }

  lemma OneLess(sub: seq<Cert>, at: seq<nat>, all: seq<Cert>, name: string)
    requires all != [] && InOrder(sub, at, all[..|all| - 1]) && AllOthers(at, all[..|all| - 1], name)
    ensures all[|all| - 1].name == name ==> InOrder(sub, at, all) && AllOthers(at, all, name)
  {
    var n := |all| - 1;
    if all[n].name == name {
      forall i | 0 <= i < |all| ensures i in at <==> all[i].name != name {
        if i < n { assert all[..n][i] == all[i]; }
      }
    }
  }

  lemma {:induction false} OthersUnique(certs: seq<Cert>, name: string)
    requires Unique(certs)
    ensures Unique(Others(certs, name))
  {
    var at := OthersExact(certs, name);
    var rest := Others(certs, name);
    forall i, j | 0 <= i < j < |rest| ensures Names(rest)[i] != Names(rest)[j] {
      assert Names(certs)[at[i]] != Names(certs)[at[j]];
    }
  }

  lemma {:induction false} MergedUnique(own: seq<Cert>, served: seq<Cert>)
    requires Unique(own)
    ensures Unique(Merged(own, served))
  {
    if served != [] {
      MergedUnique(own, served[..|served| - 1]);
      var certs := Merged(own, served[..|served| - 1]);
      if !Holds(certs, served[|served| - 1].name) {
      }
    }
  }

  /** A merge keeps the own certificates in place and adds only served ones with names not held. */
  lemma {:induction false} MergedGrows(own: seq<Cert>, served: seq<Cert>)
    ensures own <= Merged(own, served)
    ensures forall i :: |own| <= i < |Merged(own, served)| ==>
      Merged(own, served)[i] in served && !Holds(own, Merged(own, served)[i].name)
  {
    if served != [] {
      var n := |served| - 1;
      var certs := Merged(own, served[..n]);
      MergedGrows(own, served[..n]);
      assert Holds(own, served[n].name) ==> Holds(certs, served[n].name) by {
        if Holds(own, served[n].name) {
          var i :| 0 <= i < |own| && own[i].name == served[n].name;
          assert certs[i] == own[i];
        }
      }
    }
  }

  /** The names held afterwards are the own names and the served names. */
  lemma {:induction false} MergedNames(own: seq<Cert>, served: seq<Cert>, name: string)
    ensures Holds(Merged(own, served), name) <==> Holds(own, name) || Holds(served, name)
  {
    if served != [] {
      var n := |served| - 1;
      var certs := Merged(own, served[..n]);
      MergedNames(own, served[..n], name);
      assert served == served[..n] + [served[n]];
      HoldsAppend(served[..n], served[n], name);
      HoldsAppend(certs, served[n], name);
    }
  }

  lemma HoldsAppend(certs: seq<Cert>, c: Cert, name: string)
    ensures Holds(certs + [c], name) <==> Holds(certs, name) || c.name == name
  {
    if Holds(certs, name) {
      var i :| 0 <= i < |certs| && certs[i].name == name;
      assert (certs + [c])[i].name == name;
    }
    assert (certs + [c])[|certs|] == c;
  }

  // ---------------------------------------------------------------- runs

  ghost predicate Cached(s: State) {
    s.names == FileNames(s.file)
  }

  ghost predicate Inv(s: State) {
    (s.file.Some? ==> Unique(s.file.value)) && (!s.reloading ==> Cached(s))
  }

  lemma StepKeeps(s: State, e: Event)
    requires Inv(s)
    ensures Inv(Step(s, e))
  {
    match e
    case Exchange(received, expected) =>
      if Accepted(s, received, expected) {
        var cert := received.value[0];
        var at := OthersExact(s.file.value, cert.name);
        OthersUnique(s.file.value, cert.name);
      }
    case Merge(served) =>
      if served.Some? { MergedUnique(FileValue(s.file), served.value); }
    case Delete(name, _) =>
      if s.file.Some? { OthersUnique(s.file.value, name); }
    case Reload =>
  }

  /** Over every run that starts with a loaded file without repeated names: no two certificates ever
      share a name, and the cached names are those in the file except while a reload is pending. */
  lemma {:induction false} RunKeeps(s: State, es: seq<Event>, t: State)
    requires Inv(s) && Reaches(s, es, t)
    ensures Inv(t)
    decreases es
  {
    hide Inv, Step;
    if es != [] {
      StepKeeps(s, es[0]);
      RunKeeps(Step(s, es[0]), es[1..], t);
    }
  }

  /** A successful exchange leaves exactly the received certificate under its name and the others in
      order, and the cache matches whatever it held before; a refused one changes nothing. */
  lemma ExchangeExact(s: State, received: Option<seq<Cert>>, expected: seq<string>)
    returns (at: seq<nat>)
    ensures var t := Step(s, Exchange(received, expected));
            if received.Some? && |received.value| == 1 && received.value[0].name in expected && s.file.Some? then
              && t.file.Some? && t.file.value != [] && Cached(t) && t.reloading == s.reloading
              && var certs := t.file.value;
                 var n := |certs| - 1;
                 && certs[n] == received.value[0] && !Holds(certs[..n], certs[n].name)
                 && InOrder(certs[..n], at, s.file.value)
                 && AllOthers(at, s.file.value, certs[n].name)
            else t == s
  {
    at := [];
    if Accepted(s, received, expected) {
      at := OthersExact(s.file.value, received.value[0].name);
      var certs := Step(s, Exchange(received, expected)).file.value;
      assert certs[..|certs| - 1] == Others(s.file.value, received.value[0].name);
    }
  }

  /** A deletion leaves exactly the certificates with another name, in order, whoever uses the deleted one,
      and asks for a reload exactly if a client does; without a file it changes nothing. */
  lemma DeleteExact(s: State, name: string, clientUsesIt: bool) returns (at: seq<nat>)
    ensures var t := Step(s, Delete(name, clientUsesIt));
            if s.file.None? then t == s
            else
              && t.file.Some? && InOrder(t.file.value, at, s.file.value) && AllOthers(at, s.file.value, name)
              && !Holds(t.file.value, name)
              && t.reloading == (s.reloading || clientUsesIt)
              && t.names == if clientUsesIt then s.names else Names(t.file.value)
  {
    hide InOrder, AllOthers, Holds;
    at := [];
    if s.file.Some? {
      at := OthersExact(s.file.value, name);
    }
  }

  /** A merge leaves what was there in place and appends served certificates, so that the names held are
      the own and the served ones; if it appends nothing, it changes nothing. */
  lemma MergeExact(s: State, served: Option<seq<Cert>>)
    ensures var t := Step(s, Merge(served));
            var own := FileValue(s.file);
            var certs := if served.Some? then served.value else [];
            && own <= FileValue(t.file) && t.reloading == s.reloading
            && (forall i :: |own| <= i < |FileValue(t.file)| ==> FileValue(t.file)[i] in certs && !Holds(own, FileValue(t.file)[i].name))
            && (forall name :: Holds(FileValue(t.file), name) <==> Holds(own, name) || Holds(certs, name))
            && (if |FileValue(t.file)| == |own| then t == s else t.file.Some? && Cached(t))
  {
    hide Holds, Merged;
    var own, certs := FileValue(s.file), if served.Some? then served.value else [];
    MergedGrows(own, certs);
    forall name ensures Holds(Merged(own, certs), name) <==> Holds(own, name) || Holds(certs, name) {
      MergedNames(own, certs, name);
    }
    MergedNothing(own);
    assert FileValue(Step(s, Merge(served)).file) == Merged(own, certs);
  }

  /** A reload renews the names and is then over. */
  lemma ReloadExact(s: State)
    ensures var t := Step(s, Reload); t.file == s.file && Cached(t) && !t.reloading
  {
  }

  /** A merge adds something exactly when a name that is not held is served. */
  lemma AddsIff(own: seq<Cert>, served: seq<Cert>)
    ensures |Merged(own, served)| > |own| <==> exists i :: 0 <= i < |served| && !Holds(own, served[i].name)
  {
    hide Holds, Merged;
    var certs := Merged(own, served);
    MergedGrows(own, served);
    if i :| 0 <= i < |served| && !Holds(own, served[i].name) {
      MergedNames(own, served, served[i].name);
      HoldsAt(served, i);
      assert certs != own;
    }
    if |certs| > |own| {
      assert certs[|own|] in served && !Holds(own, certs[|own|].name);
    }
  }

  lemma HoldsAt(certs: seq<Cert>, i: nat)
    requires i < |certs|
    ensures Holds(certs, certs[i].name)
  {
  }

  /** After a merge the cache matches exactly if it matched before or a name not held was served. */
  lemma MergeCachedIff(s: State, served: Option<seq<Cert>>)
    ensures var own := FileValue(s.file);
            Cached(Step(s, Merge(served))) <==>
              Cached(s) || (served.Some? && exists i :: 0 <= i < |served.value| && !Holds(own, served.value[i].name))
  {
    hide Holds, Merged;
    if served.Some? {
      AddsIff(FileValue(s.file), served.value);
      MergedGrows(FileValue(s.file), served.value);
    }
  }

  lemma {:induction false} OthersShorter(certs: seq<Cert>, name: string)
    ensures |Others(certs, name)| <= |certs|
    ensures Holds(certs, name) ==> |Others(certs, name)| < |certs|
  {
    if certs != [] {
      var n := |certs| - 1;
      OthersShorter(certs[..n], name);
      HoldsAppend(certs[..n], certs[n], name);
      assert certs == certs[..n] + [certs[n]];
    }
  }

  /** A deletion leaves a matching cache matching exactly unless it asks for a reload and the name was there. */
  lemma DeleteCachedIff(s: State, name: string, clientUsesIt: bool)
    requires Cached(s)
    ensures Cached(Step(s, Delete(name, clientUsesIt))) <==> s.file.None? || !clientUsesIt || !Holds(s.file.value, name)
  {
    hide Holds, Others;
    if s.file.Some? {
      OthersShorter(s.file.value, name);
      if !Holds(s.file.value, name) {
        OthersAll(s.file.value, name);
      }
    }
  }

  /** Until that reload comes the cache is stale, and stays so with every merge that adds nothing. */
  lemma StaleAfterDelete(s: State, name: string, served: seq<Cert>)
    requires s.file.Some? && Cached(s) && Holds(s.file.value, name)
    requires forall i :: 0 <= i < |served| ==> Holds(Others(s.file.value, name), served[i].name)
    ensures var deleted := Step(s, Delete(name, true));
            !Cached(deleted) && Step(deleted, Merge(Some(served))) == deleted
  {
    hide Holds, Merged, Others;
    DeleteCachedIff(s, name, true);
    AddsIff(Others(s.file.value, name), served);
    MergedGrows(Others(s.file.value, name), served);
  }

  // ---------------------------------------------------------------- the loops

  class CertificateStore {
    var file: Option<seq<Cert>>
    var names: seq<string>
    var reloading: bool

    ghost function Abs(): State
      reads this
    {
      State(file, names, reloading)
    }

    /** Starts from the file that is there. */
    constructor (file: Option<seq<Cert>>)
      ensures Abs() == State(file, FileNames(file), false)
    {
      this.file, reloading := file, false;
      names := FileNames(file);
    }

    method LoadNames()
      modifies this`names
      ensures names == FileNames(file)
    {
      names := [];
      if file.Some? {
        for i := 0 to |file.value|
          invariant names == Names(file.value[..i])
        {
          names := names + [file.value[i].name];
        }
        assert file.value[..|file.value|] == file.value;
      }
    }

    /** `SetupCertificatesServer`: the stored name, or nothing. */
    method Exchange(received: Option<seq<Cert>>, expected: seq<string>) returns (stored: string)
      modifies this
      ensures Abs() == Step(old(Abs()), Event.Exchange(received, expected))
      ensures stored == if Accepted(old(Abs()), received, expected) then received.value[0].name else ""
    {
      if |expected| == 0 || received.None? || |received.value| != 1 {
        return "";
      }
      var cert := received.value[0];
      if cert.name !in expected || file.None? {
        return "";
      }
      var certs := EraseName(file.value, cert.name);
      file := Some(certs + [cert]);
      LoadNames();
      return cert.name;
    }

    /** One peer's answer in `client_certificate_exchange`; `added` is taken off the activation list. */
    method Merge(served: Option<seq<Cert>>) returns (added: seq<string>)
      modifies this
      ensures Abs() == Step(old(Abs()), Event.Merge(served))
      ensures Names(FileValue(file)) == Names(FileValue(old(file))) + added
    {
      hide Holds, Merged, Names;
      added := [];
      MergedNothing(FileValue(file));
      if served.None? || |served.value| == 0 {
        return;
      }
      var own, own_size := FileValue(file), |FileValue(file)|;
      own, added := MergeAll(own, served.value);
      MergedGrows(FileValue(file), served.value);
      if own_size != |own| {
        file := Some(own);
        LoadNames();
      }
    }

    /** `certificate_delete`. */
    method Delete(name: string, clientUsesIt: bool)
      modifies this
      ensures Abs() == Step(old(Abs()), Event.Delete(name, clientUsesIt))
    {
      hide Others, Names;
      if file.None? {
        return;
      }
      var certs := DeleteName(file.value, name);
      file := Some(certs);
      if clientUsesIt {
        reloading := true;
        return;
      }
      LoadNames();
    }

    /** The reload that `Delete` asked for. */
    method Restart()
      modifies this
      ensures Abs() == Step(old(Abs()), Reload)
    {
      reloading := false;
      LoadNames();
    }
  }

  lemma OthersNone(certs: seq<Cert>, name: string)
    ensures Others(certs[..0], name) == []
  {
  }

  lemma OthersNext(certs: seq<Cert>, name: string, k: nat)
    requires k < |certs|
    ensures Others(certs[..k + 1], name) == if certs[k].name == name then Others(certs[..k], name) else Others(certs[..k], name) + [certs[k]]
  {
    assert certs[..k + 1][..k] == certs[..k];
  }

  /** `delete_certificate_file`: starts the search again after each hit. */
  method DeleteName(all: seq<Cert>, name: string) returns (certs: seq<Cert>)
    ensures certs == Others(all, name)
  {
    hide Others, Holds;
    certs := all;
    var hit := true;
    while hit
      invariant Others(certs, name) == Others(all, name)
      invariant !hit ==> !Holds(certs, name)
      decreases hit, |certs|
    {
      var i := FirstNamed(certs, name);
      hit := i < |certs|;
      if hit {
        OthersErase(certs, name, i);
        certs := certs[..i] + certs[i + 1..];
      }
    }
    OthersAll(certs, name);
  }

  method FirstNamed(certs: seq<Cert>, name: string) returns (i: nat)
    ensures i <= |certs| && (i < |certs| <==> Holds(certs, name))
    ensures i < |certs| ==> certs[i].name == name
  {
    i := 0;
    while i < |certs| && certs[i].name != name
      invariant i <= |certs| && forall j :: 0 <= j < i ==> certs[j].name != name
    {
      i := i + 1;
    }
  }

  method EraseName(all: seq<Cert>, name: string) returns (certs: seq<Cert>)
    ensures certs == Others(all, name)
  {
    hide Others;
    certs := all;
    var i := 0;
    ghost var k, done := 0, [];
    OthersNone(all, name);
    while i < |certs|
      invariant 0 <= k <= |all| && done == Others(all[..k], name) && i == |done|
      invariant certs == done + all[k..]
      decreases |all| - k
    {
      OthersNext(all, name, k);
      AtHead(certs, done, all, k);
      k := k + 1;
      if certs[i].name == name {
        certs := certs[..i] + certs[i + 1..];
      } else {
        done := done + [certs[i]];
        i := i + 1;
      }
    }
    assert all[..k] == all;
  }

  /** The loop over the served certificates. */
  method MergeAll(before: seq<Cert>, served: seq<Cert>) returns (own: seq<Cert>, added: seq<string>)
    ensures own == Merged(before, served)
    ensures |own| == |before| + |added| && Names(own) == Names(before) + added
  {
    hide Holds, Merged;
    own, added := before, [];
    MergedNothing(before);
    for n := 0 to |served|
      invariant own == Merged(before, served[..n])
      invariant |own| == |before| + |added| && Names(own) == Names(before) + added
    {
      MergedNext(before, served, n);
      var ok := FindName(own, served[n].name);
      if !ok {
        own := own + [served[n]];
        added := added + [served[n].name];
      }
    }
    assert served[..|served|] == served;
  }

  lemma MergedNothing(own: seq<Cert>)
    ensures Merged(own, []) == own && Names(own) + [] == Names(own)
  {
  }

  lemma MergedNext(own: seq<Cert>, served: seq<Cert>, n: nat)
    requires n < |served|
    ensures var certs := Merged(own, served[..n]);
            Merged(own, served[..n + 1]) == if Holds(certs, served[n].name) then certs else certs + [served[n]]
  {
    hide Holds;
    assert served[..n + 1][..n] == served[..n];
  }

  method FindName(certs: seq<Cert>, name: string) returns (ok: bool)
    ensures ok == Holds(certs, name)
  {
    ok := false;
    for i := 0 to |certs|
      invariant ok == Holds(certs[..i], name)
    {
      assert certs[..i + 1] == certs[..i] + [certs[i]];
      HoldsAppend(certs[..i], certs[i], name);
      if certs[i].name == name {
        ok := true;
      }
    }
    assert certs[..|certs|] == certs;
  }

  lemma {:induction false} OthersErase(certs: seq<Cert>, name: string, i: nat)
    requires i < |certs| && certs[i].name == name
    ensures Others(certs[..i] + certs[i + 1..], name) == Others(certs, name)
  {
    var n := |certs| - 1;
    var rest := certs[..i] + certs[i + 1..];
    if i < n {
      assert rest[..n - 1] == certs[..n][..i] + certs[..n][i + 1..];
      OthersErase(certs[..n], name, i);
    } else {
      assert rest == certs[..n];
    }
  }

  lemma {:induction false} OthersAll(certs: seq<Cert>, name: string)
    requires !Holds(certs, name)
    ensures Others(certs, name) == certs
  {
    if certs != [] {
      var n := |certs| - 1;
      assert !Holds(certs[..n], name) && certs == certs[..n] + [certs[n]];
      OthersAll(certs[..n], name);
    }
  }
}
