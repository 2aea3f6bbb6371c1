/** The two ends of a conf.d difference, step by step, against ConfDiff: the last part of `Client::PollConfDirectory`
    (src/client/client.cpp) and the register and unregister branches of `ControlSession::HandleMessage`
    (src/server/server.cpp). */
module ConfMonitor {
  import opened Bytes
  import opened ConfDiff

  class Client {
    var dynamicProxies: Configs
    /** The messages sent, in order. */
    var sent: seq<Message>

    constructor ()
      ensures dynamicProxies == map[] && sent == []
    {
      dynamicProxies, sent := map[], [];
    }

    /** Both maps are gone over in any order. */
    method ApplyReading(newProxies: Configs)
      requires Keyed(dynamicProxies) && Keyed(newProxies)
      modifies this
      ensures dynamicProxies == newProxies
      ensures exists ms :: sent == old(sent) + ms && IsDiff(old(dynamicProxies), newProxies, ms)
    {
      var removals := Removals(newProxies);
      var updates := Updates(newProxies, removals);
      sent := sent + updates;
      dynamicProxies := newProxies;
    }

    method Removals(newProxies: Configs) returns (ms: seq<Message>)
      ensures Removed(dynamicProxies, newProxies, {}, ms)
    {
      ms := [];
      var ahead := dynamicProxies.Keys;
      RemovedNone(dynamicProxies, newProxies);
      hide Removed;
      while ahead != {}
        invariant ahead <= dynamicProxies.Keys && Removed(dynamicProxies, newProxies, ahead, ms)
        decreases ahead
      {
        var name :| name in ahead;
        RemovedOne(dynamicProxies, newProxies, ahead, ms, name);
        if name !in newProxies {
          ms := ms + [UnregisterProxy(name)];
        }
        ahead := ahead - {name};
      }
    }

    method Updates(newProxies: Configs, removals: seq<Message>) returns (ms: seq<Message>)
      requires Keyed(newProxies) && Removed(dynamicProxies, newProxies, {}, removals)
      ensures IsDiff(dynamicProxies, newProxies, ms)
    {
      ms := removals;
      var ahead := newProxies.Keys;
      assert Updated(dynamicProxies, newProxies, ahead, ms);
      hide Updated, Changed;
      while ahead != {}
        invariant ahead <= newProxies.Keys && Updated(dynamicProxies, newProxies, ahead, ms)
        decreases ahead
      {
        var name :| name in ahead;
        var pc := newProxies[name];
        UpdatedOne(dynamicProxies, newProxies, ahead, ms, name);
        if name !in dynamicProxies {
          ms := ms + [RegisterProxy(pc)];
        } else if Changed(dynamicProxies[name], pc) {
          ms := ms + [UnregisterProxy(name)] + [RegisterProxy(pc)];
        }
        ahead := ahead - {name};
      }
      UpdatedAll(dynamicProxies, newProxies, ms);
    }
  }

  /** The removals are sent, except for the names in `ahead`. */
  ghost predicate Removed(was: Configs, now: Configs, ahead: set<string>, ms: seq<Message>) {
    forall n :: About(ms, n) == if n in was && n !in ahead && n !in now then [UnregisterProxy(n)] else []
  }

  /** Everything is sent, except for the names in `ahead`. */
  ghost predicate Updated(was: Configs, now: Configs, ahead: set<string>, ms: seq<Message>) {
    forall n :: About(ms, n) == if n in ahead then [] else DiffFor(was, now, n)
  }

  lemma RemovedNone(was: Configs, now: Configs)
    ensures Removed(was, now, was.Keys, [])
  {
  }

  lemma RemovedOne(was: Configs, now: Configs, ahead: set<string>, ms: seq<Message>, name: string)
    requires Removed(was, now, ahead, ms) && name in ahead && ahead <= was.Keys
    ensures Removed(was, now, ahead - {name}, if name in now then ms else ms + [UnregisterProxy(name)])
  {
    hide About;
    AboutAll(ms, UnregisterProxy(name));
  }

  lemma UpdatedOne(was: Configs, now: Configs, ahead: set<string>, ms: seq<Message>, name: string)
    requires Keyed(now) && Updated(was, now, ahead, ms) && name in ahead && ahead <= now.Keys
    ensures Updated(was, now, ahead - {name},
                    if name !in was then ms + [RegisterProxy(now[name])]
                    else if Changed(was[name], now[name]) then ms + [UnregisterProxy(name)] + [RegisterProxy(now[name])]
                    else ms)
  {
    hide About, Changed;
    AboutAll(ms, RegisterProxy(now[name]));
    AboutAll(ms, UnregisterProxy(name));
    AboutAll(ms + [UnregisterProxy(name)], RegisterProxy(now[name]));
  }

  lemma UpdatedAll(was: Configs, now: Configs, ms: seq<Message>)
    requires Updated(was, now, {}, ms)
    ensures IsDiff(was, now, ms)
  {
  }

  lemma AboutAll(ms: seq<Message>, m: Message)
    ensures forall n :: About(ms + [m], n) == About(ms, n) + if NameOf(m) == n then [m] else []
  {
    forall n ensures About(ms + [m], n) == About(ms, n) + if NameOf(m) == n then [m] else [] {
      AboutSnoc(ms, m, n);
    }
  }

  class ControlSession {
    ghost const allowed: iset<u16>
    var proxies: seq<Listener>
    var udpProxies: seq<Listener>

    ghost function State(): Server
      reads this
    {
      Server(proxies, udpProxies)
    }

    constructor (ghost allowed: iset<u16>)
      ensures State() == Server([], []) && this.allowed == allowed
    {
      this.allowed := allowed;
      proxies, udpProxies := [], [];
    }

    /** `mayListen` is what `IsPortAllowed` answers. */
    method OnRegister(config: ProxyConfig, mayListen: bool)
      requires mayListen <==> config.remotePort in allowed
      modifies this
      ensures State() == Handle(allowed, old(State()), RegisterProxy(config))
    {
      var kind := config.kind;
      if kind == "" {
        kind := "tcp";
      }
      if kind != "http" && kind != "https" && !mayListen {
        return;
      }
      var listener := Listener(config.name, config.remotePort);
      if kind == "udp" {
        udpProxies := udpProxies + [listener];
      } else if kind != "http" && kind != "https" {
        proxies := proxies + [listener];
      }
    }

    method OnUnregister(name: string)
      modifies this
      ensures State() == Handle(allowed, old(State()), UnregisterProxy(name))
    {
      var it := Find(proxies, name);
      if it != |proxies| {
        proxies := proxies[..it] + proxies[it + 1..];
        return;
      }
      var itUdp := Find(udpProxies, name);
      if itUdp != |udpProxies| {
        udpProxies := udpProxies[..itUdp] + udpProxies[itUdp + 1..];
      }
    }
  }
}
