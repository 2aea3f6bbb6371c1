/** The difference between two readings of the conf.d directory (src/client/client.cpp) and what the server makes of
    the messages sent for it (src/server/server.cpp). Only the tcp and udp listener lists of the server are kept. */
module ConfDiff {
  import opened Bytes

  datatype ProxyConfig = ProxyConfig(
    name: string,
    kind: string,
    localIp: string,
    localPort: u16,
    remotePort: u16,
    customDomains: seq<string>,
    bandwidthLimit: int)

  datatype Message = RegisterProxy(config: ProxyConfig) | UnregisterProxy(name: string)

  function NameOf(m: Message): string {
    if m.RegisterProxy? then m.config.name else m.name
  }

  type Configs = map<string, ProxyConfig>

  /** Configurations are filed under their own names. */
  predicate Keyed(c: Configs) {
    forall n :: n in c ==> c[n].name == n
  }

  // ---------- what the server does with a message ----------

  datatype Listener = Listener(name: string, port: u16)

  datatype Server = Server(proxies: seq<Listener>, udpProxies: seq<Listener>)

  /** An empty type means tcp. */
  function KindOf(c: ProxyConfig): string {
    if c.kind == "" then "tcp" else c.kind
  }

  predicate IsVhost(c: ProxyConfig) {
    KindOf(c) == "http" || KindOf(c) == "https"
  }

  /** The registration ends in a listener; `allowed` is the server's list of ports, and binding succeeds. */
  predicate Listens(allowed: iset<u16>, c: ProxyConfig) {
    !IsVhost(c) && c.remotePort in allowed
  }

  predicate IsUdp(c: ProxyConfig) {
    KindOf(c) == "udp"
  }

  /** The index of the first listener of that name, or the length. */
  function Find(l: seq<Listener>, name: string): (i: nat)
    ensures i <= |l| && (i < |l| ==> l[i].name == name) && forall k :: 0 <= k < i ==> l[k].name != name
  {
    if l == [] || l[0].name == name then 0 else 1 + Find(l[1..], name)
  }

  function Handle(allowed: iset<u16>, s: Server, m: Message): Server {
    match m
    case RegisterProxy(c) =>
      var listener := Listener(c.name, c.remotePort);
      if !Listens(allowed, c) then s
      else if IsUdp(c) then s.(udpProxies := s.udpProxies + [listener])
      else s.(proxies := s.proxies + [listener])
    case UnregisterProxy(name) =>
      var i, j := Find(s.proxies, name), Find(s.udpProxies, name);
      if i < |s.proxies| then s.(proxies := s.proxies[..i] + s.proxies[i + 1..])
      else if j < |s.udpProxies| then s.(udpProxies := s.udpProxies[..j] + s.udpProxies[j + 1..])
      else s
  }

  function HandleAll(allowed: iset<u16>, s: Server, ms: seq<Message>): Server {
    if ms == [] then s else Handle(allowed, HandleAll(allowed, s, ms[..|ms| - 1]), ms[|ms| - 1])
  }

  // ---------- the messages for one difference ----------

  /** The fields compared; the bandwidth limit is not one of them. */
  predicate Changed(a: ProxyConfig, b: ProxyConfig) {
    || a.kind != b.kind
    || a.localIp != b.localIp
    || a.localPort != b.localPort
    || a.remotePort != b.remotePort
    || a.customDomains != b.customDomains
  }

  /** The messages about one name. */
  function DiffFor(was: Configs, now: Configs, n: string): seq<Message> {
    if n in was && n !in now then [UnregisterProxy(n)]
    else if n !in was && n in now then [RegisterProxy(now[n])]
    else if n in was && n in now && Changed(was[n], now[n]) then [UnregisterProxy(n), RegisterProxy(now[n])]
    else []
  }

  function About(ms: seq<Message>, n: string): seq<Message> {
    if ms == [] then []
    else
      var last := ms[|ms| - 1];
      About(ms[..|ms| - 1], n) + if NameOf(last) == n then [last] else []
  }

  /** In whatever order the maps are gone over, these are the messages sent. */
  ghost predicate IsDiff(was: Configs, now: Configs, ms: seq<Message>) {
    forall n :: About(ms, n) == DiffFor(was, now, n)
  }

  lemma AboutSnoc(ms: seq<Message>, m: Message, n: string)
    ensures About(ms + [m], n) == About(ms, n) + if NameOf(m) == n then [m] else []
  {
    assert (ms + [m])[..|ms|] == ms;
  }

  lemma HandleSnoc(allowed: iset<u16>, s: Server, ms: seq<Message>, m: Message)
    ensures HandleAll(allowed, s, ms + [m]) == Handle(allowed, HandleAll(allowed, s, ms), m)
  {
    assert (ms + [m])[..|ms|] == ms;
  }

  // ---------- when nothing is sent ----------

  /** Two configurations that agree in all but the bandwidth limit. */
  predicate SameProxy(a: ProxyConfig, b: ProxyConfig) {
    b == a.(bandwidthLimit := b.bandwidthLimit)
  }

  /** A message about a name is sent exactly if the name comes, goes, or changes in something other than its bandwidth
      limit. */
  lemma SilentIff(was: Configs, now: Configs, ms: seq<Message>, n: string)
    requires Keyed(was) && Keyed(now) && IsDiff(was, now, ms)
    ensures (forall k :: 0 <= k < |ms| ==> NameOf(ms[k]) != n)
            <==> (n in was <==> n in now) && (n in was && n in now ==> SameProxy(was[n], now[n]))
  {
    AboutNone(ms, n);
    assert About(ms, n) == DiffFor(was, now, n);
    hide About;
  }

  lemma {:induction false} AboutNone(ms: seq<Message>, n: string)
    ensures About(ms, n) == [] <==> forall k :: 0 <= k < |ms| ==> NameOf(ms[k]) != n
    decreases |ms|
  {
    if ms != [] {
      AboutNone(ms[..|ms| - 1], n);
      assert forall k :: 0 <= k < |ms| - 1 ==> ms[..|ms| - 1][k] == ms[k];
    }
  }

  /** So a poll that reads what the last one read, up to bandwidth limits, sends nothing at all, and only such a one. */
  lemma QuietPollIff(was: Configs, now: Configs, ms: seq<Message>)
    requires Keyed(was) && Keyed(now) && IsDiff(was, now, ms)
    ensures ms == [] <==> was.Keys == now.Keys && forall n :: n in was && n in now ==> SameProxy(was[n], now[n])
  {
    hide IsDiff;
    if ms == [] {
      forall n
        ensures (n in was <==> n in now) && (n in was && n in now ==> SameProxy(was[n], now[n]))
      {
        SilentIff(was, now, ms, n);
      }
      assert was.Keys == now.Keys;
    } else {
      SilentIff(was, now, ms, NameOf(ms[0]));
      var n := NameOf(ms[0]);
      assert (n in was <==> n in was.Keys) && (n in now <==> n in now.Keys);
    }
  }

  /** A name that changes is told to go, and then to come with its new configuration; nothing else is said about it. */
  lemma ChangeIsGoAndCome(was: Configs, now: Configs, ms: seq<Message>, n: string)
    requires Keyed(was) && Keyed(now) && IsDiff(was, now, ms)
    ensures n in was && n in now && !SameProxy(was[n], now[n]) ==> About(ms, n) == [UnregisterProxy(n), RegisterProxy(now[n])]
    ensures n in was && n !in now ==> About(ms, n) == [UnregisterProxy(n)]
    ensures n !in was && n in now ==> About(ms, n) == [RegisterProxy(now[n])]
  {
    assert About(ms, n) == DiffFor(was, now, n);
  }

  // ---------- what a registration adds ----------

  /** A udp proxy adds one udp listener, an http or https proxy none, any other kind one tcp listener; nothing is added on a
      port that is not allowed, and nothing is taken away. */
  lemma RegisterAdds(allowed: iset<u16>, s: Server, c: ProxyConfig)
    ensures var r := Handle(allowed, s, RegisterProxy(c));
            var one := [Listener(c.name, c.remotePort)];
            if c.kind == "http" || c.kind == "https" || c.remotePort !in allowed then r == s
            else if c.kind == "udp" then r.udpProxies == s.udpProxies + one && r.proxies == s.proxies
            else r.proxies == s.proxies + one && r.udpProxies == s.udpProxies
  {
  }

  // ---------- one name at a time ----------

  /** The ports listened on under a name. */
  function Ports(l: seq<Listener>, n: string): seq<u16> {
    if l == [] then [] else (if l[0].name == n then [l[0].port] else []) + Ports(l[1..], n)
  }

  lemma {:induction false} PortsAppend(a: seq<Listener>, b: seq<Listener>, n: string)
    ensures Ports(a + b, n) == Ports(a, n) + Ports(b, n)
    decreases |a|
  {
    if a == [] {
      assert a + b == b;
    } else {
      assert (a + b)[0] == a[0] && (a + b)[1..] == a[1..] + b;
      PortsAppend(a[1..], b, n);
      Assoc(if a[0].name == n then [a[0].port] else [], Ports(a[1..], n), Ports(b, n));
    }
  }

  lemma {:induction false} NoPorts(l: seq<Listener>, n: string)
    ensures (forall k :: 0 <= k < |l| ==> l[k].name != n) <==> Ports(l, n) == []
    decreases |l|
  {
    if l != [] {
      NoPorts(l[1..], n);
      assert forall k :: 0 < k < |l| ==> l[k] == l[1..][k - 1];
      assert forall k :: 0 <= k < |l| - 1 ==> l[1..][k] == l[k + 1];
    }
  }

  /** Erasing the first listener of a name takes its first port away and leaves every other name alone. */
  lemma ErasePorts(l: seq<Listener>, name: string, n: string)
    requires Find(l, name) < |l|
    ensures var i := Find(l, name);
            Ports(l, name) != [] &&
            Ports(l[..i] + l[i + 1..], n) == if n == name then Ports(l, n)[1..] else Ports(l, n)
  {
    hide Ports, Find;
    var i := Find(l, name);
    NoPorts(l[..i], name);
    assert l == l[..i] + [l[i]] + l[i + 1..];
    PortsAround(l[..i], l[i], l[i + 1..], name);
    PortsAround(l[..i], l[i], l[i + 1..], n);
  }

  lemma PortsAround(a: seq<Listener>, x: Listener, b: seq<Listener>, n: string)
    ensures Ports(a + [x] + b, n) == Ports(a, n) + (if x.name == n then [x.port] else []) + Ports(b, n)
    ensures Ports(a + b, n) == Ports(a, n) + Ports(b, n)
  {
    hide Ports;
    OnePort(x, n);
    PortsAppend(a + [x], b, n);
    PortsAppend(a, [x], n);
    PortsAppend(a, b, n);
  }

  lemma OnePort(x: Listener, n: string)
    ensures Ports([x], n) == if x.name == n then [x.port] else []
  {
    assert [x][1..] == [];
  }

  /** What is listened on under one name. */
  datatype Ends = Ends(tcp: seq<u16>, udp: seq<u16>)

  function EndsOf(s: Server, n: string): Ends {
    Ends(Ports(s.proxies, n), Ports(s.udpProxies, n))
  }

  /** The effect of a message on the ends of its own name. */
  function Effect(allowed: iset<u16>, e: Ends, m: Message): Ends {
    match m
    case RegisterProxy(c) =>
      if !Listens(allowed, c) then e
      else if IsUdp(c) then e.(udp := e.udp + [c.remotePort])
      else e.(tcp := e.tcp + [c.remotePort])
    case UnregisterProxy(_) =>
      if e.tcp != [] then e.(tcp := e.tcp[1..]) else if e.udp != [] then e.(udp := e.udp[1..]) else e
  }

  function EffectAll(allowed: iset<u16>, e: Ends, ms: seq<Message>): Ends {
    if ms == [] then e else Effect(allowed, EffectAll(allowed, e, ms[..|ms| - 1]), ms[|ms| - 1])
  }

  /** A message touches no name but its own. */
  lemma HandleOne(allowed: iset<u16>, s: Server, m: Message, n: string)
    ensures EndsOf(Handle(allowed, s, m), n) ==
            if NameOf(m) == n then Effect(allowed, EndsOf(s, n), m) else EndsOf(s, n)
  {
    hide Ports, Find, KindOf;
    match m
    case RegisterProxy(c) =>
      var l := Listener(c.name, c.remotePort);
      OnePort(l, n);
      PortsAppend(s.proxies, [l], n);
      PortsAppend(s.udpProxies, [l], n);
    case UnregisterProxy(name) => UnregisterOne(allowed, s, name, n);
  }

  lemma UnregisterOne(allowed: iset<u16>, s: Server, name: string, n: string)
    ensures EndsOf(Handle(allowed, s, UnregisterProxy(name)), n) ==
            if name == n then Effect(allowed, EndsOf(s, n), UnregisterProxy(name)) else EndsOf(s, n)
  {
    hide Ports, Find;
    NoPorts(s.proxies, name);
    NoPorts(s.udpProxies, name);
    if Find(s.proxies, name) < |s.proxies| {
      ErasePorts(s.proxies, name, n);
    } else if Find(s.udpProxies, name) < |s.udpProxies| {
      ErasePorts(s.udpProxies, name, n);
    }
  }

  lemma {:induction false} HandleEach(allowed: iset<u16>, s: Server, ms: seq<Message>, n: string)
    ensures EndsOf(HandleAll(allowed, s, ms), n) == EffectAll(allowed, EndsOf(s, n), About(ms, n))
    decreases |ms|
  {
    if ms != [] {
      var init, last := ms[..|ms| - 1], ms[|ms| - 1];
      HandleEach(allowed, s, init, n);
      HandleOne(allowed, HandleAll(allowed, s, init), last, n);
      if NameOf(last) == n {
        assert About(ms, n)[..|About(init, n)|] == About(init, n);
      } else {
        assert About(ms, n) == About(init, n);
      }
    }
  }

  // ---------- convergence ----------

  /** What should be listened on under a name. */
  function Wanted(allowed: iset<u16>, configs: Configs, n: string): Ends {
    if n !in configs || !Listens(allowed, configs[n]) then Ends([], [])
    else if IsUdp(configs[n]) then Ends([], [configs[n].remotePort])
    else Ends([configs[n].remotePort], [])
  }

  /** The server listens on exactly what `configs` ask for, apart from the names of `others`. */
  ghost predicate Shows(allowed: iset<u16>, s: Server, configs: Configs, others: set<string>) {
    forall n :: n !in others ==> EndsOf(s, n) == Wanted(allowed, configs, n)
  }

  lemma EffectOfDiff(allowed: iset<u16>, was: Configs, now: Configs, n: string)
    requires Keyed(was) && Keyed(now)
    ensures EffectAll(allowed, Wanted(allowed, was, n), DiffFor(was, now, n)) == Wanted(allowed, now, n)
  {
    var e, d := Wanted(allowed, was, n), DiffFor(was, now, n);
    if |d| == 1 {
      assert d[..0] == [];
      assert EffectAll(allowed, e, d) == Effect(allowed, e, d[0]);
    } else if |d| == 2 {
      assert d[..1] == [d[0]] && [d[0]][..0] == [];
      assert EffectAll(allowed, e, [d[0]]) == Effect(allowed, e, d[0]);
      assert EffectAll(allowed, e, d) == Effect(allowed, Effect(allowed, e, d[0]), d[1]);
    }
  }

  /** After a poll the server listens on exactly the new configuration, and every name outside both is as before. */
  lemma DiffConverges(allowed: iset<u16>, s: Server, was: Configs, now: Configs, ms: seq<Message>, others: set<string>)
    requires Keyed(was) && Keyed(now) && IsDiff(was, now, ms) && Shows(allowed, s, was, others)
    ensures Shows(allowed, HandleAll(allowed, s, ms), now, others)
    ensures forall n :: n !in was && n !in now ==> EndsOf(HandleAll(allowed, s, ms), n) == EndsOf(s, n)
  {
    hide Wanted;
    forall n
      ensures n !in others ==> EndsOf(HandleAll(allowed, s, ms), n) == Wanted(allowed, now, n)
      ensures n !in was && n !in now ==> EndsOf(HandleAll(allowed, s, ms), n) == EndsOf(s, n)
    {
      HandleEach(allowed, s, ms, n);
      assert About(ms, n) == DiffFor(was, now, n);
      if n !in others {
        EffectOfDiff(allowed, was, now, n);
      }
    }
  }

  /** A message fits the state it meets: a name is registered only when nothing listens under it, and unregistered
      only when something does, unless its configuration never got a listener. */
  ghost predicate Fits(allowed: iset<u16>, s: Server, was: Configs, m: Message) {
    match m
    case RegisterProxy(c) => EndsOf(s, c.name) == Ends([], [])
    case UnregisterProxy(n) => n in was && (Listens(allowed, was[n]) ==> EndsOf(s, n) != Ends([], []))
  }

  lemma {:induction false} AboutPrefix(ms: seq<Message>, k: nat, n: string)
    requires k <= |ms|
    ensures About(ms[..k], n) <= About(ms, n)
    decreases |ms|
  {
    if k < |ms| {
      assert ms[..|ms| - 1][..k] == ms[..k];
      AboutPrefix(ms[..|ms| - 1], k, n);
    } else {
      assert ms[..k] == ms;
    }
  }

  /** No live name is registered and no absent one unregistered, at any point of a poll. */
  lemma EveryMessageFits(allowed: iset<u16>, s: Server, was: Configs, now: Configs, ms: seq<Message>, others: set<string>, k: nat)
    requires Keyed(was) && Keyed(now) && IsDiff(was, now, ms) && Shows(allowed, s, was, others)
    requires k < |ms| && NameOf(ms[k]) !in others
    ensures Fits(allowed, HandleAll(allowed, s, ms[..k]), was, ms[k])
  {
    hide EndsOf, HandleAll, EffectAll, DiffFor, Wanted, About, Effect, Listens;
    var n := NameOf(ms[k]);
    HandleEach(allowed, s, ms[..k], n);
    AboutPrefix(ms, k + 1, n);
    assert ms[..k + 1] == ms[..k] + [ms[k]];
    AboutSnoc(ms[..k], ms[k], n);
    assert About(ms, n) == DiffFor(was, now, n);
    FitsNext(allowed, was, now, n, About(ms[..k], n), ms[k]);
  }

  lemma FitsNext(allowed: iset<u16>, was: Configs, now: Configs, n: string, done: seq<Message>, m: Message)
    requires Keyed(was) && Keyed(now) && NameOf(m) == n && done + [m] <= DiffFor(was, now, n)
    ensures var e := EffectAll(allowed, Wanted(allowed, was, n), done);
            match m
            case RegisterProxy(_) => e == Ends([], [])
            case UnregisterProxy(_) => n in was && (Listens(allowed, was[n]) ==> e != Ends([], []))
  {
    var d := DiffFor(was, now, n);
    assert m == d[|done|];
    if |done| == 1 {
      assert done == [d[0]] && done[..0] == [];
    } else {
      assert done == [];
    }
  }

  // ---------- a series of polls ----------

  /** What poll `i` compares its reading with. */
  function Before(was: Configs, readings: seq<Configs>, i: nat): Configs
    requires i <= |readings|
  {
    if i == 0 then was else readings[i - 1]
  }

  /** `dynamic_proxies_` and the server after polls that read `readings` and sent `sent`. */
  ghost predicate Polled(was: Configs, readings: seq<Configs>, sent: seq<seq<Message>>) {
    && |readings| == |sent|
    && forall i :: 0 <= i < |readings| ==>
         Keyed(readings[i]) && IsDiff(Before(was, readings, i), readings[i], sent[i])
  }

  function HandlePolls(allowed: iset<u16>, s: Server, sent: seq<seq<Message>>): Server {
    if sent == [] then s else HandleAll(allowed, HandlePolls(allowed, s, sent[..|sent| - 1]), sent[|sent| - 1])
  }

  /** After any series of polls the server listens on exactly what the last one read. */
  lemma {:induction false} EveryPollConverges(
      allowed: iset<u16>, s: Server, was: Configs, readings: seq<Configs>, sent: seq<seq<Message>>, others: set<string>)
    requires Keyed(was) && Shows(allowed, s, was, others) && Polled(was, readings, sent)
    ensures Shows(allowed, HandlePolls(allowed, s, sent), Before(was, readings, |readings|), others)
    decreases |readings|
  {
    hide Shows, IsDiff;
    if readings != [] {
      var last := |readings| - 1;
      assert forall i :: 0 <= i <= last ==> Before(was, readings[..last], i) == Before(was, readings, i);
      EveryPollConverges(allowed, s, was, readings[..last], sent[..last], others);
      DiffConverges(allowed, HandlePolls(allowed, s, sent[..last]), Before(was, readings, last), readings[last], sent[last], others);
    }
  }

  /** Why names of static proxies are kept apart. `s` listens under a name for static proxies, and a configuration of
      that name comes and goes, on a port nobody listens on. The listeners are as before if and only if the erased
      slot was the new one: a tcp configuration finds no tcp listener there, a udp configuration none at all. */
  lemma NameClashIff(allowed: iset<u16>, s: Server, c: ProxyConfig)
    requires Listens(allowed, c)
    requires c.remotePort !in (if IsUdp(c) then EndsOf(s, c.name).udp else EndsOf(s, c.name).tcp)
    ensures EndsOf(HandleAll(allowed, s, [RegisterProxy(c), UnregisterProxy(c.name)]), c.name) == EndsOf(s, c.name)
            <==> EndsOf(s, c.name).tcp == [] && (IsUdp(c) ==> EndsOf(s, c.name).udp == [])
  {
    ComeAndGo(allowed, s, c);
    hide HandleAll, EndsOf, Listens, IsUdp;
    var e := EndsOf(s, c.name);
    if IsUdp(c) {
      ShiftedIn(e.udp, c.remotePort);
    } else {
      ShiftedIn(e.tcp, c.remotePort);
    }
  }

  /** What is left of the listeners of a name when a configuration has come and gone. */
  function ComeAndGone(e: Ends, p: u16, udp: bool): Ends {
    if !udp then Ends((e.tcp + [p])[1..], e.udp)
    else if e.tcp != [] then Ends(e.tcp[1..], e.udp + [p])
    else Ends([], (e.udp + [p])[1..])
  }

  lemma ComeAndGo(allowed: iset<u16>, s: Server, c: ProxyConfig)
    requires Listens(allowed, c)
    ensures EndsOf(HandleAll(allowed, s, [RegisterProxy(c), UnregisterProxy(c.name)]), c.name)
            == ComeAndGone(EndsOf(s, c.name), c.remotePort, IsUdp(c))
  {
    var register, unregister := RegisterProxy(c), UnregisterProxy(c.name);
    assert [register] == [] + [register] && [register, unregister] == [register] + [unregister];
    HandleSnoc(allowed, s, [], register);
    HandleSnoc(allowed, s, [register], unregister);
    HandleOne(allowed, s, register, c.name);
    HandleOne(allowed, Handle(allowed, s, register), unregister, c.name);
    hide HandleAll, Ports, Handle;
  }

  lemma ShiftedIn(l: seq<u16>, p: u16)
    requires p !in l
    ensures (l + [p])[1..] == l <==> l == []
  {
    var n := |l|;
    if n > 0 {
      assert (l + [p])[1..][n - 1] == p && l[n - 1] in l;
    }
  }
}
