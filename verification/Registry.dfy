/** Provider routing: a host is looked up as it is and then by suffix, over a map whose
    iteration order is arbitrary. */
module Registry {
  import opened Common
  import opened Text

  datatype Provider = Provider(name: string, hosts: seq<string>)

  datatype Answer = Found(provider: Provider) | NoProvider | ParseError

  // ---- host names ----

  /** What precedes the first colon. */
  function CutPort(s: string): string {
    if s == "" || s[0] == ':' then "" else [s[0]] + CutPort(s[1..])
  }

  predicate EndsWith(s: string, suffix: string) {
    |suffix| <= |s| && s[|s| - |suffix|..] == suffix
  }

  /** Lower case, the port cut off, and one trailing dot removed. */
  function Normalized(host: string): string {
    var h := CutPort(Lower(host));
    if EndsWith(h, ".") then h[..|h| - 1] else h
  }

  /** A registered host serves itself and everything below it. */
  predicate Below(host: string, h: string) {
    EndsWith(host, "." + h)
  }

  // ---- registration ----

  function AddHosts(m: map<string, Provider>, hosts: seq<string>, p: Provider): map<string, Provider> {
    if hosts == [] then m else AddHosts(m, hosts[..|hosts| - 1], p)[Lower(hosts[|hosts| - 1]) := p]
  }

  function HostMap(ps: seq<Provider>): map<string, Provider> {
    if ps == [] then map[] else AddHosts(HostMap(ps[..|ps| - 1]), ps[|ps| - 1].hosts, ps[|ps| - 1])
  }

  /** One of the hosts is h, up to case. */
  predicate Names(hosts: seq<string>, h: string) {
    exists i :: 0 <= i < |hosts| && Lower(hosts[i]) == h
  }

  predicate Registers(p: Provider, h: string) {
    Names(p.hosts, h)
  }

  lemma NamesSnoc(front: seq<string>, host: string, h: string)
    ensures Names(front + [host], h) <==> Names(front, h) || Lower(host) == h
  {
    var hosts := front + [host];
    assert hosts[|front|] == host;
    if Names(front, h) {
      var i :| 0 <= i < |front| && Lower(front[i]) == h;
      assert hosts[i] == front[i];
    }
    if Names(hosts, h) {
      var i :| 0 <= i < |hosts| && Lower(hosts[i]) == h;
      assert i < |front| ==> hosts[i] == front[i];
    }
  }

  lemma {:induction false} AddHostsKeys(m: map<string, Provider>, hosts: seq<string>, p: Provider, h: string)
    ensures h in AddHosts(m, hosts, p) <==> h in m || Names(hosts, h)
    ensures h in AddHosts(m, hosts, p) ==> AddHosts(m, hosts, p)[h] == if Names(hosts, h) then p else m[h]
  {
    if hosts == [] {
    } else {
      var front, host := hosts[..|hosts| - 1], hosts[|hosts| - 1];
      AddHostsKeys(m, front, p, h);
      assert hosts == front + [host];
      NamesSnoc(front, host, h);
    }
  }

  /** The i-th provider is the last one that registers h. */
  predicate Owns(ps: seq<Provider>, i: int, h: string) {
    0 <= i < |ps| && Registers(ps[i], h) && forall j :: i < j < |ps| ==> !Registers(ps[j], h)
  }

  lemma OwnsSnoc(front: seq<Provider>, last: Provider, i: int, h: string)
    ensures 0 <= i < |front| ==> (Owns(front + [last], i, h) <==> Owns(front, i, h) && !Registers(last, h))
    ensures Owns(front + [last], |front|, h) <==> Registers(last, h)
  {
    var ps := front + [last];
    assert forall j :: 0 <= j < |front| ==> ps[j] == front[j];
    assert ps[|front|] == last;
  }

  /** The map holds exactly the registered hosts, each with the last provider that registered it. */
  lemma {:induction false} HostMapHolds(ps: seq<Provider>, h: string)
    ensures h in HostMap(ps) <==> exists p :: p in ps && Registers(p, h)
    ensures h in HostMap(ps) ==> exists i :: Owns(ps, i, h) && HostMap(ps)[h] == ps[i]
  {
    if ps == [] {
    } else {
      var front, last := ps[..|ps| - 1], ps[|ps| - 1];
      HostMapHolds(front, h);
      AddHostsKeys(HostMap(front), last.hosts, last, h);
      assert ps == front + [last];
      if Registers(last, h) {
        OwnsSnoc(front, last, |front|, h);
      } else if h in HostMap(front) {
        var i :| Owns(front, i, h) && HostMap(front)[h] == front[i];
        OwnsSnoc(front, last, i, h);
        assert ps[i] == front[i];
      }
    }
  }

  // ---- lookup ----

  /** The range loop over the map in one particular order. */
  function FirstBelow(m: map<string, Provider>, host: string, order: seq<string>): Answer
    requires forall h :: h in order ==> h in m
  {
    if order == [] then NoProvider
    else if Below(host, order[0]) then Found(m[order[0]])
    else FirstBelow(m, host, order[1..])
  }

  function Resolve(m: map<string, Provider>, host: string, order: seq<string>): Answer
    requires forall h :: h in order ==> h in m
  {
    if host in m then Found(m[host]) else FirstBelow(m, host, order)
  }

  /** An order in which a range loop may visit the map: every key once. */
  ghost predicate IsOrder(m: map<string, Provider>, order: seq<string>) {
    && (forall h :: h in order <==> h in m)
    && (forall i, j :: 0 <= i < j < |order| ==> order[i] != order[j])
  }

  class Registry {
    var providers: map<string, Provider>
    var hostMap: map<string, Provider>

    ghost var registered: seq<Provider>  // every call of Register, in order

    ghost predicate Valid()
      reads this
    {
      hostMap == HostMap(registered)
    }

    constructor ()
      ensures Valid() && registered == [] && providers == map[]
    {
      providers, hostMap, registered := map[], map[], [];
    }

    method Register(p: Provider)
      requires Valid()
      modifies this
      ensures Valid() && registered == old(registered) + [p]
      ensures providers == old(providers)[p.name := p]
    {
      providers := providers[p.name := p];
      for i := 0 to |p.hosts|
        invariant hostMap == AddHosts(old(hostMap), p.hosts[..i], p)
        invariant registered == old(registered) && providers == old(providers)[p.name := p]
      {
        assert p.hosts[..i + 1][..i] == p.hosts[..i];
        hostMap := hostMap[Lower(p.hosts[i]) := p];
      }
      assert p.hosts[..|p.hosts|] == p.hosts;
      registered := registered + [p];
      assert registered[..|registered| - 1] == old(registered);
    }

    /** The URL's host arrives parsed, or not at all; the loop's order is the runtime's choice. */
    method ResolveProvider(parsedHost: Option<string>, order: seq<string>) returns (a: Answer)
      requires Valid() && IsOrder(hostMap, order)
      ensures a == if parsedHost.None? then ParseError else Resolve(hostMap, Normalized(parsedHost.value), order)
    {
      if parsedHost.None? {
        return ParseError;
      }
      var host := CutPort(Lower(parsedHost.value));
      if EndsWith(host, ".") {
        host := host[..|host| - 1];
      }
      if host in hostMap {
        return Found(hostMap[host]);
      }
      for i := 0 to |order|
        invariant FirstBelow(hostMap, host, order) == FirstBelow(hostMap, host, order[i..])
      {
        var h := order[i];
        assert order[i..][0] == h && order[i..][1..] == order[i + 1..];
        if EndsWith(host, "." + h) {
          return Found(hostMap[h]);
        }
      }
      assert order[|order|..] == [];
      a := NoProvider;
    }
  }

  // ---- independence of the order ----

  lemma {:induction false} FirstBelowFinds(m: map<string, Provider>, host: string, order: seq<string>)
    requires forall h :: h in order ==> h in m
    ensures FirstBelow(m, host, order) == NoProvider <==> forall h :: h in order ==> !Below(host, h)
    ensures FirstBelow(m, host, order) != NoProvider ==>
      exists h :: h in order && Below(host, h) && FirstBelow(m, host, order) == Found(m[h])
  {
    if order == [] || Below(host, order[0]) {
    } else {
      FirstBelowFinds(m, host, order[1..]);
      assert forall h :: h in order <==> h == order[0] || h in order[1..];
    }
  }

  /** For every order, a lookup succeeds exactly when the host is registered or lies below a
      registered host. */
  lemma ResolvesExactly(m: map<string, Provider>, host: string, order: seq<string>)
    requires IsOrder(m, order)
    ensures Resolve(m, host, order).Found? <==> host in m || exists h :: h in m && Below(host, h)
  {
    FirstBelowFinds(m, host, order);
  }

  /** A text that some request can be normalized to. */
  predicate Reachable(host: string) {
    ':' !in host && Lower(host) == host
  }

  /** No host of one provider lies below a host of another. A host with a colon, or with upper
      case, does not count: no request is ever looked up below it. */
  predicate NoNesting(m: map<string, Provider>) {
    forall h1, h2 :: h1 in m && h2 in m && Below(h2, h1) && Reachable(h2) ==> m[h1] == m[h2]
  }

  /** One lookup has one answer, whatever order the runtime chooses. */
  ghost predicate OneAnswer(m: map<string, Provider>, host: string) {
    forall o1, o2 :: IsOrder(m, o1) && IsOrder(m, o2) ==> Resolve(m, host, o1) == Resolve(m, host, o2)
  }

  /** Every request has one answer, if any text can be the host of a request. */
  ghost predicate OrderIndependent(m: map<string, Provider>) {
    forall raw: string {:trigger Normalized(raw)} :: OneAnswer(m, Normalized(raw))
  }

  lemma {:induction false} NothingToCut(s: string)
    requires ':' !in s
    ensures CutPort(s) == s
  {
    if s == "" {
    } else {
      NothingToCut(s[1..]);
      assert s == [s[0]] + s[1..];
    }
  }

  lemma ReachableIsNormalized(host: string)
    requires Reachable(host)
    ensures Normalized(host + ".") == host
  {
    var raw := host + ".";
    assert Lower(raw) == raw;
    NothingToCut(raw);
  }

  lemma NormalizedIsReachable(raw: string)
    ensures Reachable(Normalized(raw))
  {
    var low := Lower(raw);
    var cut := CutPort(low);
    CutPortExact(low);
    assert cut == low[..|cut|];
    LowerTwice(raw);
    LowerPrefix(low, |cut|);
    if EndsWith(cut, ".") {
      LowerPrefix(cut, |cut| - 1);
    }
  }

  /** Normalizing reaches exactly these texts. */
  lemma NormalizedExactly(host: string)
    ensures Reachable(host) <==> exists raw :: Normalized(raw) == host
  {
    if Reachable(host) {
      ReachableIsNormalized(host);
    }
    forall raw
      ensures Reachable(Normalized(raw))
    {
      NormalizedIsReachable(raw);
    }
  }

  lemma ReachableBelow(host: string, h: string)
    requires Reachable(host) && Below(host, h)
    ensures Reachable(h)
  {
    var n := |host| - |h|;
    assert host[n..] == h by {
      assert host[n - 1..][1..] == host[n..];
      assert ("." + h)[1..] == h;
    }
    assert forall i :: 0 <= i < |h| ==> h[i] == host[n + i] && LowerChar(host[n + i]) == host[n + i];
  }

  /** Two hosts with a common subdomain are equal or one lies below the other. */
  lemma CommonSubdomain(host: string, h1: string, h2: string)
    requires Below(host, h1) && Below(host, h2) && |h1| <= |h2|
    ensures h1 == h2 || Below(h2, h1)
  {
    var n := |host|;
    assert host[n - |h2|..] == h2 by {
      assert host[n - |h2| - 1..][1..] == host[n - |h2|..];
      assert ("." + h2)[1..] == h2;
    }
    if |h1| == |h2| {
      assert ("." + h1)[1..] == h1;
      assert host[n - |h1| - 1..][1..] == host[n - |h1|..];
    } else {
      assert h2[|h2| - |h1| - 1..] == host[n - |h1| - 1..];
    }
  }

  lemma NestedBelow(host: string, h1: string, h2: string)
    requires Below(host, h2) && Below(h2, h1)
    ensures Below(host, h1)
  {
    var n := |host|;
    assert host[n - |h2|..] == h2 by {
      assert host[n - |h2| - 1..][1..] == host[n - |h2|..];
      assert ("." + h2)[1..] == h2;
    }
    assert host[n - |h1| - 1..] == h2[|h2| - |h1| - 1..];
  }

  /** A key set can be visited starting from any of its keys. */
  lemma {:induction false} SomeOrder(keys: set<string>) returns (order: seq<string>)
    ensures forall h :: h in order <==> h in keys
    ensures forall i, j :: 0 <= i < j < |order| ==> order[i] != order[j]
  {
    if keys == {} {
      order := [];
    } else {
      var k :| k in keys;
      var rest := SomeOrder(keys - {k});
      order := [k] + rest;
    }
  }

  /** Some subdomain of h is longer than every key. */
  lemma {:induction false} LongerThanAll(keys: set<string>) returns (n: nat)
    ensures forall k :: k in keys ==> |k| < n
  {
    if keys == {} {
      n := 0;
    } else {
      var k :| k in keys;
      var n' := LongerThanAll(keys - {k});
      n := if |k| < n' then n' else |k| + 1;
    }
  }

  /** A request below h that is not registered itself. */
  lemma LongSubdomain(m: map<string, Provider>, h: string) returns (host: string)
    requires Reachable(h)
    ensures Reachable(host) && Below(host, h) && host !in m
  {
    var n := LongerThanAll(m.Keys);
    host := seq(n, i => 'x') + ("." + h);
    assert |host| > n;
    assert Lower(host) == host;
  }

  lemma FirstIsTaken(m: map<string, Provider>, host: string, h: string, rest: seq<string>)
    requires forall k :: k in [h] + rest ==> k in m
    requires host !in m && Below(host, h) && h in m
    ensures Resolve(m, host, [h] + rest) == Found(m[h])
  {
  }

  /** A lookup has one answer exactly when its host is registered itself, or no two providers have
      hosts above it. This is about one host, so it holds of whatever hosts requests can have. */
  lemma OneAnswerExactly(m: map<string, Provider>, host: string)
    ensures OneAnswer(m, host) <==>
            host in m || forall h1, h2 :: h1 in m && h2 in m && Below(host, h1) && Below(host, h2) ==> m[h1] == m[h2]
  {
    if host in m {
    } else if h1, h2 :| h1 in m && h2 in m && Below(host, h1) && Below(host, h2) && m[h1] != m[h2] {
      TwoAnswers(m, host, h1, h2);
    } else {
      forall o1, o2 | IsOrder(m, o1) && IsOrder(m, o2)
        ensures Resolve(m, host, o1) == Resolve(m, host, o2)
      {
        FirstBelowFinds(m, host, o1);
        FirstBelowFinds(m, host, o2);
      }
    }
  }

  lemma TwoAnswers(m: map<string, Provider>, host: string, h1: string, h2: string)
    requires host !in m && h1 in m && h2 in m && Below(host, h1) && Below(host, h2) && m[h1] != m[h2]
    ensures !OneAnswer(m, host)
  {
    var r1 := SomeOrder(m.Keys - {h1});
    var r2 := SomeOrder(m.Keys - {h2});
    assert IsOrder(m, [h1] + r1) && IsOrder(m, [h2] + r2);
    FirstIsTaken(m, host, h1, r1);
    FirstIsTaken(m, host, h2, r2);
  }

  lemma NoNestingIndependent(m: map<string, Provider>, raw: string)
    requires NoNesting(m)
    ensures OneAnswer(m, Normalized(raw))
  {
    var host := Normalized(raw);
    NormalizedIsReachable(raw);
    forall h1, h2 | h1 in m && h2 in m && Below(host, h1) && Below(host, h2)
      ensures m[h1] == m[h2]
    {
      ReachableBelow(host, h1);
      ReachableBelow(host, h2);
      if |h1| <= |h2| {
        CommonSubdomain(host, h1, h2);
      } else {
        CommonSubdomain(host, h2, h1);
      }
    }
    OneAnswerExactly(m, host);
  }

  lemma NestingDepends(m: map<string, Provider>, h1: string, h2: string)
    requires h1 in m && h2 in m && Below(h2, h1) && Reachable(h2) && m[h1] != m[h2]
    ensures !OrderIndependent(m)
  {
    var host := LongSubdomain(m, h2);
    NestedBelow(host, h1, h2);
    TwoAnswers(m, host, h1, h2);
    ReachableIsNormalized(host);
    assert !OneAnswer(m, Normalized(host + "."));
  }

  /** If any text can be a request's host, then routing is independent of the map's iteration
      order exactly when no host of one provider, of those a request can lie below, lies below a
      host of another. */
  lemma RoutingIndependentExactly(m: map<string, Provider>)
    ensures OrderIndependent(m) <==> NoNesting(m)
  {
    if NoNesting(m) {
      forall raw: string {:trigger Normalized(raw)}
        ensures OneAnswer(m, Normalized(raw))
      {
        NoNestingIndependent(m, raw);
      }
    } else {
      var h1, h2 :| h1 in m && h2 in m && Below(h2, h1) && Reachable(h2) && m[h1] != m[h2];
      NestingDepends(m, h1, h2);
    }
  }

  /** A lookup below h2 could also be one below h1. */
  predicate Clash(h1: string, h2: string) {
    h1 == h2 || Below(h2, h1)
  }

  /** The registrations as a caller sees them: hosts of different providers are neither equal nor nested. */
  ghost predicate Separate(ps: seq<Provider>) {
    forall p, r, h1, h2 :: p in ps && r in ps && Registers(p, h1) && Registers(r, h2) && Clash(h1, h2) ==> p == r
  }

  lemma OwnHost(ps: seq<Provider>, p: Provider, h: string)
    requires Separate(ps) && p in ps && Registers(p, h)
    ensures h in HostMap(ps) && HostMap(ps)[h] == p
  {
    HostMapHolds(ps, h);
    var a :| Owns(ps, a, h) && HostMap(ps)[h] == ps[a];
    assert Clash(h, h) && ps[a] in ps;
  }

  lemma SomeOwner(ps: seq<Provider>, h: string) returns (p: Provider)
    requires h in HostMap(ps)
    ensures p in ps && Registers(p, h) && HostMap(ps)[h] == p
  {
    HostMapHolds(ps, h);
    var a :| Owns(ps, a, h) && HostMap(ps)[h] == ps[a];
    p := ps[a];
  }

  /** Among such registrations no host at all lies below one of another provider. */
  lemma SeparateIsNotNested(ps: seq<Provider>, h1: string, h2: string)
    requires Separate(ps) && h1 in HostMap(ps) && h2 in HostMap(ps) && Below(h2, h1)
    ensures HostMap(ps)[h1] == HostMap(ps)[h2]
  {
    var p := SomeOwner(ps, h1);
    var r := SomeOwner(ps, h2);
    assert Clash(h1, h2);
  }

  /** With such registrations every lookup has one answer, whatever the order: the provider that
      registered a host which is, or lies above, the one looked up; and none if there is none. */
  lemma SeparateRouting(ps: seq<Provider>, host: string, order: seq<string>, p: Provider, h: string)
    requires Separate(ps) && IsOrder(HostMap(ps), order)
    requires p in ps && Registers(p, h) && (host == h || Below(host, h))
    ensures Resolve(HostMap(ps), host, order) == Found(p)
  {
    var m := HostMap(ps);
    OwnHost(ps, p, h);
    if host in m {
      var r := SomeOwner(ps, host);
      assert Clash(h, host);
    } else {
      FirstBelowFinds(m, host, order);
      var g :| g in order && Below(host, g) && FirstBelow(m, host, order) == Found(m[g]);
      if |g| <= |h| {
        CommonSubdomain(host, g, h);
        if g != h {
          SeparateIsNotNested(ps, g, h);
        }
      } else {
        CommonSubdomain(host, h, g);
        SeparateIsNotNested(ps, h, g);
      }
    }
  }

  /** What Normalized does, part by part: no port, no upper case, and at most one dot fewer. */
  lemma {:induction false} CutPortExact(s: string)
    ensures CutPort(s) <= s && ':' !in CutPort(s)
    ensures CutPort(s) == s || s[|CutPort(s)|] == ':'
  {
    if s == "" || s[0] == ':' {
    } else {
      CutPortExact(s[1..]);
      assert s == [s[0]] + s[1..];
    }
  }

  lemma {:induction false} CutPortAt(a: string, rest: string)
    requires ':' !in a && (rest == "" || rest[0] == ':')
    ensures CutPort(a + rest) == a
  {
    if a == "" {
      assert a + rest == rest;
    } else {
      CutPortAt(a[1..], rest);
      assert (a + rest)[0] == a[0] && (a + rest)[1..] == a[1..] + rest;
      assert a == [a[0]] + a[1..];
    }
  }

  predicate DotFree(s: string) {
    s == "" || s[|s| - 1] != '.'
  }

  /** A host without a port and without a trailing dot is looked up as itself, up to case; and so
      it is with a port, with one trailing dot, or both. */
  lemma NormalizedVariants(host: string, raw: string, dot: string, port: string)
    requires ':' !in host && DotFree(host) && SameButCase(raw, host)
    requires (dot == "" || dot == ".") && (port == "" || port[0] == ':')
    ensures Normalized(raw + dot + port) == Lower(host)
  {
    var low := Lower(host);
    LowerExactly(raw, host);
    LowerConcat(raw + dot, port);
    LowerConcat(raw, dot);
    assert Lower(dot) == dot && (Lower(port) == "" || Lower(port)[0] == ':');
    LowerKeepsOthers(host, ':');
    CutPortAt(low + dot, Lower(port));
    assert Lower(raw + dot + port) == low + dot + Lower(port);
    if dot == "" {
      assert low + dot == low;
      assert low != "" ==> low[|low| - 1] == LowerChar(host[|host| - 1]);
    } else {
      assert (low + dot)[..|low + dot| - 1] == low;
    }
  }

  lemma LowerHostIsItself(host: string)
    requires ':' !in host && DotFree(host) && forall c :: c in host ==> c !in UPPERS
    ensures Normalized(host) == host
  {
    LowerIsLower(host);
    LowerExactly(host, host);
    NormalizedVariants(host, host, "", "");
    assert host + "" + "" == host;
  }

  /** Nothing but case, one trailing dot and what starts at the first colon is ever removed. */
  lemma NormalizedParts(raw: string) returns (dot: string, port: string)
    ensures Lower(raw) == Normalized(raw) + dot + port
    ensures (dot == "" && DotFree(Normalized(raw))) || dot == "."
    ensures (port == "" || port[0] == ':') && ':' !in Normalized(raw) + dot
  {
    var low := Lower(raw);
    var cut := CutPort(low);
    CutPortExact(low);
    port := low[|cut|..];
    dot := if EndsWith(cut, ".") then "." else "";
    assert cut == Normalized(raw) + dot;
  }

  /** Below says what it should: something, a dot, and the host. */
  lemma BelowExactly(host: string, h: string)
    ensures Below(host, h) <==> exists x :: host == x + "." + h
  {
    if Below(host, h) {
      var x := host[..|host| - |"." + h|];
      assert host == x + ("." + h) == x + "." + h;
    }
    if x :| host == x + "." + h {
      assert host == x + ("." + h);
    }
  }

  /** End to end: with separate registrations, a request for a registered host or one below it, in
      any case, with or without a port and a trailing dot, answers the provider that registered it. */
  lemma RequestReachesProvider(ps: seq<Provider>, p: Provider, i: nat, sub: string, raw: string, dot: string, port: string,
                               order: seq<string>)
    requires Separate(ps) && IsOrder(HostMap(ps), order) && p in ps && i < |p.hosts|
    requires ':' !in sub + p.hosts[i] && DotFree(sub + p.hosts[i]) && (sub == "" || sub[|sub| - 1] == '.')
    requires SameButCase(raw, sub + p.hosts[i])
    requires (dot == "" || dot == ".") && (port == "" || port[0] == ':')
    ensures Resolve(HostMap(ps), Normalized(raw + dot + port), order) == Found(p)
  {
    var h := Lower(p.hosts[i]);
    NormalizedVariants(sub + p.hosts[i], raw, dot, port);
    LowerConcat(sub, p.hosts[i]);
    assert Registers(p, h);
    if sub == "" {
      assert Lower(sub) + h == h;
    } else {
      var front := sub[..|sub| - 1];
      assert sub == front + ".";
      LowerConcat(front, ".");
      assert Lower(".") == ".";
      assert Lower(sub) + h == Lower(front) + "." + h;
      BelowExactly(Lower(sub) + h, h);
    }
    SeparateRouting(ps, Lower(sub) + h, order, p, h);
  }

  /** And it answers nobody exactly when no registered host is the one looked up or above it. */
  lemma RequestReachesNobody(ps: seq<Provider>, host: string, order: seq<string>)
    requires IsOrder(HostMap(ps), order)
    ensures !Resolve(HostMap(ps), host, order).Found? <==>
            forall p, h :: p in ps && Registers(p, h) ==> host != h && !Below(host, h)
  {
    var m := HostMap(ps);
    ResolvesExactly(m, host, order);
    forall h
      ensures h in m <==> exists p :: p in ps && Registers(p, h)
    {
      HostMapHolds(ps, h);
    }
  }
}
