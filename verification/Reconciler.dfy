/** The kernel half of apply (cmd/apply.go): removals and reaping first, additions after. */
module Reconciler {
  import opened Collections
  import opened StateDiff
  import opened Kernel

  datatype Kind =
    | Ethernet | Wifi | Dummy | Bridge | Bond | Vlan | Vxlan | Vrf | Tunnel | Veth | Macvlan | Ipvlan | Tun | Tap
  {
    /** Physical devices are never created or removed on purpose. */
    predicate System() { Ethernet? || Wifi? }
    predicate HasAddresses() { !Vrf? }
    predicate HasNdProxy() { Ethernet? || Bridge? || Bond? || Vlan? }
  }

  /** One device of the configuration.  A namespace maps each name to one device, so no
      name is used for two kinds at once; routes are already rendered as text. */
  datatype DeviceConfig = DeviceConfig(kind: Kind, addresses: seq<string>, routes: seq<string>, ndProxy: seq<string>)
  datatype LocalSid = LocalSid(sid: string, dev: string)
  datatype NsConfig = NsConfig(devices: map<string, DeviceConfig>, sidDevice: string, sids: seq<LocalSid>)
  type Config = map<string, NsConfig>

  const SRV6_DUMMY := "srv6"

  // ----- buildStateFromConfig -----

  function BuildDevice(d: DeviceConfig): DeviceState {
    DeviceState(if d.kind.HasAddresses() then d.addresses else [], d.routes,
                if d.kind.HasNdProxy() then d.ndProxy else [], if d.kind.System() then SYSTEM else NETCFG)
  }

  function SidNames(sids: seq<LocalSid>): seq<string> {
    seq(|sids|, i requires 0 <= i < |sids| => sids[i].sid)
  }

  function BuildState(cfg: Config): State {
    map ns | ns in cfg ::
      NsState(map dev | dev in cfg[ns].devices :: BuildDevice(cfg[ns].devices[dev]), SidNames(cfg[ns].sids))
  }

  function SidSet(s: State, ns: string): set<string> {
    if ns in s then Elems(s[ns].sids) else {}
  }

  function ProxySet(s: State, ns: string, dev: string): set<string> {
    if HasDevice(s, ns, dev) then Elems(s[ns].devices[dev].ndProxy) else {}
  }

  // ----- What a state asks of a link -----

  ghost function WantAddrs(c: Codec, s: State, l: Link): set<Addr> {
    Canon(c.addr, AddressSet(s, l.ns, l.dev))
  }

  ghost function WantProxies(c: Codec, s: State, l: Link): set<Ip> {
    Canon(c.ip, ProxySet(s, l.ns, l.dev))
  }

  ghost function WantSids(c: Codec, s: State, ns: string): set<Ip> {
    Canon(c.sid, SidSet(s, ns))
  }

  // ----- applyRemovals -----

  function At(m: PerDevice, l: Link): seq<string> {
    if Listed(m, l.ns, l.dev) then m[l.ns][l.dev] else []
  }

  /** The network without the listed addresses. */
  ghost function Sans(n: Net, c: Codec, m: PerDevice): Net {
    n.(links := map l | l in n.links ::
         n.links[l].(addrs := n.links[l].addrs - Canon(c.addr, Elems(At(m, l)))))
  }

  ghost function Pairs<T>(l: Link, xs: set<T>): set<(Link, T)> {
    set x | x in xs :: (l, x)
  }

  lemma CanonStep<T(!new)>(parse: string -> Option<T>, xs: seq<string>, i: nat)
    requires i < |xs|
    ensures Canon(parse, Elems(xs[..i + 1])) ==
            Canon(parse, Elems(xs[..i])) + (if parse(xs[i]).Some? then {parse(xs[i]).value} else {})
  {
  }

  method DeleteAddresses(h: Host, l: Link, addrs: seq<string>)
    modifies h
    ensures h.net == DropAddrs(old(h.net), Pairs(l, Canon(h.codec.addr, Elems(addrs))))
  {
    DropNothing(h.net);
    assert Pairs(l, Canon(h.codec.addr, Elems(addrs[..0]))) == {};
    for i := 0 to |addrs|
      invariant h.net == DropAddrs(old(h.net), Pairs(l, Canon(h.codec.addr, Elems(addrs[..i]))))
    {
      h.DeleteAddress(l, addrs[i]);
      CanonStep(h.codec.addr, addrs, i);
      var a := h.codec.addr(addrs[i]);
      var before := Pairs(l, Canon(h.codec.addr, Elems(addrs[..i])));
      if a.Some? {
        DropAddrsTwice(old(h.net), before, {(l, a.value)});
        assert Pairs(l, Canon(h.codec.addr, Elems(addrs[..i + 1]))) == before + {(l, a.value)};
      } else {
        assert Pairs(l, Canon(h.codec.addr, Elems(addrs[..i + 1]))) == before;
      }
    }
    assert addrs[..|addrs|] == addrs;
  }

  lemma DropIsSans(n: Net, c: Codec, m: PerDevice, gone: set<(Link, Addr)>)
    requires forall l, a :: l in n.links ==> ((l, a) in gone <==> a in Canon(c.addr, Elems(At(m, l))))
    ensures DropAddrs(n, gone) == Sans(n, c, m)
  {
    var x, y := DropAddrs(n, gone), Sans(n, c, m);
    forall l | l in n.links
      ensures x.links[l] == y.links[l]
    {
      assert x.links[l].addrs == y.links[l].addrs;
    }
    assert x.links == y.links;
  }

  /** Deletes the listed addresses of one namespace. */
  method RemoveAddressesIn(h: Host, ns: string, m: PerDevice, ghost n: Net, ghost before: set<(Link, Addr)>)
    returns (ghost gone: set<(Link, Addr)>)
    requires ns in m && h.net == DropAddrs(n, before)
    requires forall l, a :: (l, a) in before ==> l.ns != ns
    modifies h
    ensures h.net == DropAddrs(n, gone)
    ensures forall l, a :: (l, a) in gone <==>
              (l, a) in before || (l.ns == ns && l in n.links && a in Canon(h.codec.addr, Elems(At(m, l))))
  {
    gone := before;
    var devs := m[ns].Keys;
    while devs != {}
      invariant devs <= m[ns].Keys && h.net == DropAddrs(n, gone)
      invariant forall l, a :: (l, a) in gone <==>
                  (l, a) in before ||
                  (l.ns == ns && l in n.links && l.dev !in devs && a in Canon(h.codec.addr, Elems(At(m, l))))
    {
      var dev :| dev in devs;
      devs := devs - {dev};
      var l := Link(ns, dev);
      var exists_ := h.LinkExists(l);
      if exists_ {
        DeleteAddresses(h, l, m[ns][dev]);
        ghost var more := Pairs(l, Canon(h.codec.addr, Elems(At(m, l))));
        DropAddrsTwice(n, gone, more);
        gone := gone + more;
      }
    }
  }

  method RemoveAddresses(h: Host, m: PerDevice)
    requires Wf(h.net)
    modifies h
    ensures h.net == Sans(old(h.net), h.codec, m)
  {
    ghost var n := h.net;
    ghost var gone: set<(Link, Addr)> := {};
    DropNothing(n);
    var nss := m.Keys;
    while nss != {}
      invariant nss <= m.Keys && h.net == DropAddrs(n, gone)
      invariant forall l, a :: l in n.links ==>
                  ((l, a) in gone <==> l.ns !in nss && a in Canon(h.codec.addr, Elems(At(m, l))))
      invariant forall l, a :: (l, a) in gone ==> l in n.links
    {
      var ns :| ns in nss;
      nss := nss - {ns};
      var present := h.NetnsExists(ns);
      if ns == "" || present {
        gone := RemoveAddressesIn(h, ns, m, n, gone);
      }
    }
    DropIsSans(n, h.codec, m, gone);
  }

  ghost function LinksOf(m: PerNs): set<Link> {
    set ns, dev | ns in m && dev in m[ns] :: Link(ns, dev)
  }

  method RemoveDevices(h: Host, m: PerNs)
    requires Wf(h.net)
    modifies h
    ensures h.net == DropLinks(old(h.net), LinksOf(m))
  {
    ghost var n := h.net;
    ghost var gone: set<Link> := {};
    DropNothing(n);
    var nss := m.Keys;
    while nss != {}
      invariant nss <= m.Keys && h.net == DropLinks(n, gone)
      invariant forall l :: l in gone <==> l in LinksOf(m) && l.ns !in nss
    {
      var ns :| ns in nss;
      nss := nss - {ns};
      ghost var here := set dev | dev in m[ns] :: Link(ns, dev);
      DropLinksTwice(n, gone, here);
      gone := gone + here;
      assert forall l :: l in here <==> l in LinksOf(m) && l.ns == ns;
      var present := h.NetnsExists(ns);
      if ns == "" || present {
        DeleteLinks(h, ns, m[ns]);
      } else {
        DropAbsent(h.net, here);
      }
    }
    assert gone == LinksOf(m);
  }

  lemma DropAbsent(n: Net, gone: set<Link>)
    requires forall l :: l in gone ==> l !in n.links
    ensures DropLinks(n, gone) == n
  {
  }

  method DeleteLinks(h: Host, ns: string, devs: seq<string>)
    modifies h
    ensures h.net == DropLinks(old(h.net), set dev | dev in devs :: Link(ns, dev))
  {
    ghost var n := h.net;
    DropNothing(n);
    ghost var gone: set<Link> := {};
    for i := 0 to |devs|
      invariant h.net == DropLinks(n, gone)
      invariant gone == set dev | dev in devs[..i] :: Link(ns, dev)
    {
      var l := Link(ns, devs[i]);
      var exists_ := h.LinkExists(l);
      DropLinksTwice(n, gone, {l});
      if exists_ {
        h.DeleteLink(l);
      } else {
        DropAbsent(h.net, {l});
      }
      assert devs[..i + 1] == devs[..i] + [devs[i]];
      gone := gone + {l};
    }
    assert devs[..|devs|] == devs;
  }

  method RemoveNamespaces(h: Host, nss: seq<string>)
    requires Wf(h.net)
    modifies h
    ensures h.net == DropNetns(old(h.net), Elems(nss) - {""})
  {
    ghost var n := h.net;
    DropNothing(n);
    ghost var gone: set<string> := {};
    for i := 0 to |nss|
      invariant h.net == DropNetns(n, gone) && Wf(h.net)
      invariant gone == Elems(nss[..i]) - {""}
    {
      var ns := nss[i];
      assert nss[..i + 1] == nss[..i] + [ns];
      if ns != "" {
        DropNetnsTwice(n, gone, {ns});
        gone := gone + {ns};
        var present := h.NetnsExists(ns);
        if present {
          h.DeleteNetns(ns);
        } else {
          DropAbsentNs(h.net, ns);
        }
      }
      assert gone == Elems(nss[..i + 1]) - {""};
    }
    assert nss[..|nss|] == nss;
  }

  lemma DropAbsentNs(n: Net, ns: string)
    requires Wf(n) && !NsPresent(n, ns)
    ensures DropNetns(n, {ns}) == n
  {
  }

  ghost function Removed(n: Net, c: Codec, d: Diff): Net {
    DropNetns(DropLinks(Sans(n, c, d.addressesToRemove), LinksOf(d.devicesToRemove)), Elems(d.nsToRemove) - {""})
  }

  lemma WfKept(n: Net, c: Codec, m: PerDevice, gone: set<Link>)
    requires Wf(n)
    ensures Wf(Sans(n, c, m))
    ensures Wf(DropLinks(n, gone))
  {
  }

  method ApplyRemovals(h: Host, d: Diff)
    requires Wf(h.net)
    modifies h
    ensures h.net == Removed(old(h.net), h.codec, d)
  {
    RemoveAddresses(h, d.addressesToRemove);
    WfKept(old(h.net), h.codec, d.addressesToRemove, {});
    ghost var n := h.net;
    RemoveDevices(h, d.devicesToRemove);
    WfKept(n, h.codec, map[], LinksOf(d.devicesToRemove));
    RemoveNamespaces(h, d.nsToRemove);
  }

  // ----- reapSRv6Orphans -----

  ghost function SidKeys(ns: string, sids: set<Ip>): set<SidKey> {
    set s | s in sids :: SidKey(ns, s)
  }

  ghost function LostSids(c: Codec, old_: State, new_: State, ns: string): set<SidKey> {
    SidKeys(ns, Canon(c.sid, SidSet(old_, ns) - SidSet(new_, ns)))
  }

  ghost function GoneSids(c: Codec, old_: State, new_: State): set<SidKey> {
    set ns, k | ns in old_ && k in LostSids(c, old_, new_, ns) :: k
  }

  method DeleteSids(h: Host, ns: string, sids: seq<string>)
    modifies h
    ensures h.net == DropSids(old(h.net), SidKeys(ns, Canon(h.codec.sid, Elems(sids))))
  {
    DropNothing(h.net);
    assert SidKeys(ns, Canon(h.codec.sid, Elems(sids[..0]))) == {};
    for i := 0 to |sids|
      invariant h.net == DropSids(old(h.net), SidKeys(ns, Canon(h.codec.sid, Elems(sids[..i]))))
    {
      h.DeleteLocalSid(ns, sids[i]);
      CanonStep(h.codec.sid, sids, i);
      var s := h.codec.sid(sids[i]);
      var before := SidKeys(ns, Canon(h.codec.sid, Elems(sids[..i])));
      if s.Some? {
        DropSidsTwice(old(h.net), before, {SidKey(ns, s.value)});
        assert SidKeys(ns, Canon(h.codec.sid, Elems(sids[..i + 1]))) == before + {SidKey(ns, s.value)};
      } else {
        assert SidKeys(ns, Canon(h.codec.sid, Elems(sids[..i + 1]))) == before;
      }
    }
    assert sids[..|sids|] == sids;
  }

  /** The identifiers of `sids` outside `keep`, in order. */
  method Unkept(sids: seq<string>, keep: set<string>) returns (removed: seq<string>)
    ensures Elems(removed) == Elems(sids) - keep
  {
    removed := [];
    for i := 0 to |sids|
      invariant Elems(removed) == Elems(sids[..i]) - keep
    {
      assert Elems(sids[..i + 1]) == Elems(sids[..i]) + {sids[i]};
      if sids[i] !in keep {
        assert Elems(removed + [sids[i]]) == Elems(removed) + {sids[i]};
        removed := removed + [sids[i]];
      }
    }
    assert sids[..|sids|] == sids;
  }

  method ReapSRv6Orphans(h: Host, old_: State, new_: State)
    requires Wf(h.net)
    modifies h
    ensures h.net == DropSids(old(h.net), GoneSids(h.codec, old_, new_))
  {
    ghost var n := h.net;
    DropNothing(n);
    ghost var gone: set<SidKey> := {};
    var nss := old_.Keys;
    while nss != {}
      invariant nss <= old_.Keys && h.net == DropSids(n, gone)
      invariant forall k :: k in gone <==> k in GoneSids(h.codec, old_, new_) && k.ns !in nss
    {
      var ns :| ns in nss;
      nss := nss - {ns};
      var removed := Unkept(old_[ns].sids, SidSet(new_, ns));
      var present := h.NetnsExists(ns);
      ghost var here := LostSids(h.codec, old_, new_, ns);
      DropSidsTwice(n, gone, here);
      assert forall k :: k in here <==> k in GoneSids(h.codec, old_, new_) && k.ns == ns;
      if ns == "" || present {
        DeleteSids(h, ns, removed);
      } else {
        assert DropSids(h.net, here).sids == h.net.sids;
      }
      gone := gone + here;
    }
    assert gone == GoneSids(h.codec, old_, new_);
  }

  // ----- reapNDProxyOrphans -----

  function ProxyKey(dev: string, ip: string): string {
    dev + "|" + ip
  }

  lemma LastBar(dev: string, ip: string)
    requires '|' !in ip
    ensures ProxyKey(dev, ip)[|dev|] == '|'
    ensures forall i :: |dev| < i < |ProxyKey(dev, ip)| ==> ProxyKey(dev, ip)[i] != '|'
  {
  }

  /** The separator is found again from the right, because addresses do not contain it;
      device names may. */
  lemma ProxyKeyInjective(dev: string, ip: string, dev': string, ip': string)
    requires ProxyKey(dev, ip) == ProxyKey(dev', ip') && '|' !in ip && '|' !in ip'
    ensures dev == dev' && ip == ip'
  {
    LastBar(dev, ip);
    LastBar(dev', ip');
    assert |dev| == |dev'|;
    assert dev == ProxyKey(dev, ip)[..|dev|] == dev';
    assert ip == ProxyKey(dev, ip)[|dev| + 1..] == ip';
  }

  /** Validation accepts only proxy addresses that parse. */
  ghost predicate ValidProxies(c: Codec, s: State) {
    forall ns, dev, ip :: ip in ProxySet(s, ns, dev) ==> c.ip(ip).Some?
  }

  /** The keys of all proxy entries the new state keeps in a namespace. */
  function KeepKeys(s: State, ns: string): set<string> {
    if ns !in s then {} else
      set dev, ip | dev in s[ns].devices && ip in s[ns].devices[dev].ndProxy :: ProxyKey(dev, ip)
  }

  ghost function LostProxies(c: Codec, old_: State, new_: State, l: Link): set<(Link, Ip)> {
    Pairs(l, Canon(c.ip, ProxySet(old_, l.ns, l.dev) - ProxySet(new_, l.ns, l.dev)))
  }

  /** Keeping by key is keeping by device and address. */
  lemma KeptByKey(c: Codec, new_: State, ns: string, dev: string, ip: string)
    requires ValidCodec(c) && ValidProxies(c, new_) && c.ip(ip).Some?
    ensures ProxyKey(dev, ip) in KeepKeys(new_, ns) <==> ip in ProxySet(new_, ns, dev)
  {
    if ProxyKey(dev, ip) in KeepKeys(new_, ns) {
      var dev', ip' :| dev' in new_[ns].devices && ip' in new_[ns].devices[dev'].ndProxy &&
                       ProxyKey(dev, ip) == ProxyKey(dev', ip');
      assert ip' in ProxySet(new_, ns, dev');
      ProxyKeyInjective(dev, ip, dev', ip');
    }
  }

  /** Deletes the proxy entries of one device that the new state does not keep. */
  method DeleteProxies(h: Host, l: Link, old_: State, new_: State)
    requires ValidCodec(h.codec) && ValidProxies(h.codec, new_) && HasDevice(old_, l.ns, l.dev)
    modifies h
    ensures h.net == DropProxies(old(h.net), LostProxies(h.codec, old_, new_, l))
  {
    var ips := old_[l.ns].devices[l.dev].ndProxy;
    var c := h.codec;
    ghost var n := h.net;
    ghost var kept := ProxySet(new_, l.ns, l.dev);
    DropNothing(n);
    ghost var gone: set<(Link, Ip)> := {};
    for i := 0 to |ips|
      invariant h.net == DropProxies(n, gone)
      invariant gone == Pairs(l, Canon(c.ip, Elems(ips[..i]) - kept))
    {
      assert Elems(ips[..i + 1]) == Elems(ips[..i]) + {ips[i]};
      var p := c.ip(ips[i]);
      if p.Some? {
        KeptByKey(c, new_, l.ns, l.dev, ips[i]);
        DropProxiesTwice(n, gone, {(l, p.value)});
      }
      if ProxyKey(l.dev, ips[i]) !in KeepKeys(new_, l.ns) {
        h.DeleteProxy(l, ips[i]);
        if p.Some? {
          gone := gone + {(l, p.value)};
        }
      }
      assert gone == Pairs(l, Canon(c.ip, Elems(ips[..i + 1]) - kept));
    }
    assert ips[..|ips|] == ips;
  }

  ghost function GoneProxies(c: Codec, old_: State, new_: State): set<(Link, Ip)> {
    set ns, dev, k | ns in old_ && dev in old_[ns].devices && k in LostProxies(c, old_, new_, Link(ns, dev)) :: k
  }

  method ReapNDProxyOrphans(h: Host, old_: State, new_: State)
    requires Wf(h.net) && ValidCodec(h.codec) && ValidProxies(h.codec, new_)
    modifies h
    ensures h.net == DropProxies(old(h.net), GoneProxies(h.codec, old_, new_))
  {
    ghost var n := h.net;
    DropNothing(n);
    ghost var gone: set<(Link, Ip)> := {};
    var nss := old_.Keys;
    while nss != {}
      invariant nss <= old_.Keys && h.net == DropProxies(n, gone)
      invariant forall l, p :: (l, p) in gone ==> (l, p) in GoneProxies(h.codec, old_, new_)
      invariant forall l, p :: (l, p) in GoneProxies(h.codec, old_, new_) && l.ns !in nss && l in n.links ==> (l, p) in gone
    {
      var ns :| ns in nss;
      nss := nss - {ns};
      var present := h.NetnsExists(ns);
      if ns == "" || present {
        gone := ReapProxiesIn(h, ns, old_, new_, n, gone);
      }
    }
    SameProxies(n, gone, GoneProxies(h.codec, old_, new_));
  }

  lemma SameProxies(n: Net, g: set<(Link, Ip)>, g': set<(Link, Ip)>)
    requires forall l, p :: l in n.links ==> ((l, p) in g <==> (l, p) in g')
    ensures DropProxies(n, g) == DropProxies(n, g')
  {
    forall l | l in n.links
      ensures DropProxies(n, g).links[l] == DropProxies(n, g').links[l]
    {
      assert DropProxies(n, g).links[l].proxies == DropProxies(n, g').links[l].proxies;
    }
    assert DropProxies(n, g).links == DropProxies(n, g').links;
  }

  method ReapProxiesIn(h: Host, ns: string, old_: State, new_: State, ghost n: Net, ghost before: set<(Link, Ip)>)
    returns (ghost gone: set<(Link, Ip)>)
    requires ns in old_ && h.net == DropProxies(n, before)
    requires ValidCodec(h.codec) && ValidProxies(h.codec, new_)
    modifies h
    ensures h.net == DropProxies(n, gone)
    ensures before <= gone
    ensures forall l, p :: (l, p) in gone && (l, p) !in before ==> (l, p) in GoneProxies(h.codec, old_, new_)
    ensures forall l, p :: (l, p) in GoneProxies(h.codec, old_, new_) && l.ns == ns ==> (l, p) in gone
  {
    gone := before;
    var devs := old_[ns].devices.Keys;
    while devs != {}
      invariant devs <= old_[ns].devices.Keys && h.net == DropProxies(n, gone)
      invariant before <= gone
      invariant forall l, p :: (l, p) in gone && (l, p) !in before ==> (l, p) in GoneProxies(h.codec, old_, new_)
      invariant forall l, p :: (l, p) in GoneProxies(h.codec, old_, new_) && l.ns == ns && l.dev !in devs ==> (l, p) in gone
    {
      var dev :| dev in devs;
      devs := devs - {dev};
      var l := Link(ns, dev);
      DeleteProxies(h, l, old_, new_);
      DropProxiesTwice(n, gone, LostProxies(h.codec, old_, new_, l));
      gone := gone + LostProxies(h.codec, old_, new_, l);
    }
  }

  // ----- Additions -----

  function LinkOr(n: Net, l: Link): LinkState {
    if l in n.links then n.links[l] else LinkState(false, {}, {})
  }

  /** setupDevice: an address already shown by the link is skipped, the others are added. */
  method AddAddresses(h: Host, l: Link, addrs: seq<string>)
    requires ValidCodec(h.codec) && l in h.net.links
    modifies h
    ensures h.net == old(h.net).(links := old(h.net).links[l := old(h.net).links[l].(
                       addrs := old(h.net).links[l].addrs + Canon(h.codec.addr, Elems(addrs)))])
  {
    ghost var n := h.net;
    assert n.links[l].addrs + Canon(h.codec.addr, Elems(addrs[..0])) == n.links[l].addrs;
    assert n.links[l := n.links[l]] == n.links;
    for i := 0 to |addrs|
      invariant h.net == n.(links := n.links[l := n.links[l].(
                           addrs := n.links[l].addrs + Canon(h.codec.addr, Elems(addrs[..i])))])
    {
      ghost var m := h.net;
      var has := h.HasAddress(l, addrs[i]);
      if !has {
        h.AddAddress(l, addrs[i]);
      }
      CanonStep(h.codec.addr, addrs, i);
      assert h.net.links[l].addrs == n.links[l].addrs + Canon(h.codec.addr, Elems(addrs[..i + 1]));
      assert h.net.links == n.links[l := h.net.links[l]];
    }
    assert addrs[..|addrs|] == addrs;
  }

  method AddProxies(h: Host, l: Link, ips: seq<string>)
    requires l in h.net.links
    modifies h
    ensures h.net == old(h.net).(links := old(h.net).links[l := old(h.net).links[l].(
                       proxies := old(h.net).links[l].proxies + Canon(h.codec.ip, Elems(ips)))])
  {
    ghost var n := h.net;
    assert n.links[l].proxies + Canon(h.codec.ip, Elems(ips[..0])) == n.links[l].proxies;
    assert n.links[l := n.links[l]] == n.links;
    for i := 0 to |ips|
      invariant h.net == n.(links := n.links[l := n.links[l].(
                           proxies := n.links[l].proxies + Canon(h.codec.ip, Elems(ips[..i])))])
    {
      h.AddProxy(l, ips[i]);
      CanonStep(h.codec.ip, ips, i);
      assert h.net.links[l].proxies == n.links[l].proxies + Canon(h.codec.ip, Elems(ips[..i + 1]));
      assert h.net.links == n.links[l := h.net.links[l]];
    }
    assert ips[..|ips|] == ips;
  }

  /** The link `l` after its device has been set up on top of `was`. */
  ghost function Fed(c: Codec, was: LinkState, s: State, l: Link): LinkState {
    was.(addrs := was.addrs + WantAddrs(c, s, l), proxies := was.proxies + WantProxies(c, s, l))
  }

  predicate Configured(cfg: Config, l: Link) {
    l.ns in cfg && l.dev in cfg[l.ns].devices
  }

  predicate Virtual(cfg: Config, l: Link) {
    Configured(cfg, l) && !cfg[l.ns].devices[l.dev].kind.System()
  }

  /** The device is configured and its link is there or gets created. */
  ghost predicate Reached(n: Net, cfg: Config, l: Link) {
    Configured(cfg, l) && (l in n.links || Virtual(cfg, l))
  }

  /** The device a segment identifier is anchored on. */
  function Anchor(cfg: NsConfig, s: LocalSid): string {
    if s.dev != "" then s.dev else cfg.sidDevice
  }

  /** The device it ends up on. */
  function AnchorDevice(cfg: NsConfig, s: LocalSid): string {
    if Anchor(cfg, s) != "" then Anchor(cfg, s) else SRV6_DUMMY
  }

  /** The identifier is there, on the device of an entry that denotes it. */
  ghost predicate OnAnchor(n: Net, c: Codec, cfg: Config, k: SidKey) {
    && k in n.sids && k.ns in cfg
    && exists s :: s in cfg[k.ns].sids && c.sid(s.sid) == Some(k.sid) && n.sids[k] == AnchorDevice(cfg[k.ns], s)
  }

  ghost predicate AnchorReady(n: Net, cfg: NsConfig, ns: string, s: LocalSid) {
    Anchor(cfg, s) == "" || Link(ns, Anchor(cfg, s)) in n.links
  }

  /** The anchor exists before the apply, is created by it, or is the automatic dummy. */
  ghost predicate Anchored(n: Net, cfg: Config, ns: string, s: LocalSid) {
    ns in cfg && (AnchorReady(n, cfg[ns], ns, s) || Virtual(cfg, Link(ns, Anchor(cfg[ns], s))))
  }

  /** What the additions do to one link; `on` says whether its namespace was processed. */
  ghost predicate LinkAdded(n: Net, n': Net, c: Codec, cfg: Config, l: Link, on: bool) {
    && (l in n.links ==> l in n'.links)
    && (l in n'.links && l !in n.links ==> on && (Virtual(cfg, l) || l.dev == SRV6_DUMMY))
    && (on && Virtual(cfg, l) ==> l in n'.links)
    && (l in n'.links ==>
          n'.links[l] == if on && Reached(n, cfg, l) then Fed(c, LinkOr(n, l), BuildState(cfg), l) else LinkOr(n, l))
  }

  ghost predicate SidsAdded(n: Net, n': Net, c: Codec, cfg: Config, nss: set<string>) {
    && (forall k :: k in n.sids ==> k in n'.sids)
    && (forall k :: k in n'.sids && !(k.ns in nss && k.sid in WantSids(c, BuildState(cfg), k.ns)) ==>
          k in n.sids && n'.sids[k] == n.sids[k])
    && (forall k :: k in n'.sids ==> (k in n.sids && n'.sids[k] == n.sids[k]) || Link(k.ns, n'.sids[k]) in n'.links)
    && (forall ns, s :: ns in nss && ns in cfg && s in cfg[ns].sids && Anchored(n, cfg, ns, s) && c.sid(s.sid).Some? ==>
          OnAnchor(n', c, cfg, SidKey(ns, c.sid(s.sid).value)))
  }

  /** The effect of configuring the namespaces `nss`. */
  ghost predicate Additions(n: Net, n': Net, c: Codec, cfg: Config, nss: set<string>) {
    && n'.netns == n.netns
    && (forall l: Link :: LinkAdded(n, n', c, cfg, l, l.ns in nss))
    && SidsAdded(n, n', c, cfg, nss)
  }

  lemma AdditionsCompose(n: Net, m: Net, n': Net, c: Codec, cfg: Config, d: set<string>, e: set<string>)
    requires Additions(n, m, c, cfg, d) && Additions(m, n', c, cfg, e) && d !! e
    ensures Additions(n, n', c, cfg, d + e)
  {
    forall l: Link
      ensures LinkAdded(n, n', c, cfg, l, l.ns in d + e)
    {
      assert LinkAdded(n, m, c, cfg, l, l.ns in d);
      assert LinkAdded(m, n', c, cfg, l, l.ns in e);
    }
    assert forall l :: l in m.links ==> l in n'.links by {
      forall l | l in m.links
        ensures l in n'.links
      {
        assert LinkAdded(m, n', c, cfg, l, l.ns in e);
      }
    }
    forall ns, s | ns in d + e && ns in cfg && s in cfg[ns].sids && Anchored(n, cfg, ns, s) && c.sid(s.sid).Some?
      ensures OnAnchor(n', c, cfg, SidKey(ns, c.sid(s.sid).value))
    {
      assert LinkAdded(n, m, c, cfg, Link(ns, Anchor(cfg[ns], s)), ns in d);
      assert Anchored(m, cfg, ns, s);
      if ns in d {
        assert OnAnchor(m, c, cfg, SidKey(ns, c.sid(s.sid).value));
        assert n'.sids[SidKey(ns, c.sid(s.sid).value)] == m.sids[SidKey(ns, c.sid(s.sid).value)];
      }
    }
  }

  /** Nothing but the link `l` differs. */
  ghost predicate OnlyLink(n: Net, n': Net, l: Link) {
    && n'.netns == n.netns && n'.sids == n.sids
    && forall m: Link :: m != l ==> (m in n'.links <==> m in n.links) && LinkOr(n', m) == LinkOr(n, m)
  }

  lemma WantedOf(c: Codec, cfg: Config, l: Link)
    requires Configured(cfg, l)
    ensures var d := cfg[l.ns].devices[l.dev];
            && WantAddrs(c, BuildState(cfg), l) == Canon(c.addr, Elems(if d.kind.HasAddresses() then d.addresses else []))
            && WantProxies(c, BuildState(cfg), l) == Canon(c.ip, Elems(if d.kind.HasNdProxy() then d.ndProxy else []))
  {
  }

  /** A physical device that is missing is skipped; a virtual one is created. */
  method SetupDevice(h: Host, l: Link, cfg: Config)
    requires ValidCodec(h.codec) && Configured(cfg, l)
    modifies h
    ensures OnlyLink(old(h.net), h.net, l)
    ensures l in h.net.links <==> l in old(h.net).links || Virtual(cfg, l)
    ensures l in h.net.links ==> h.net.links[l] == Fed(h.codec, LinkOr(old(h.net), l), BuildState(cfg), l)
  {
    var d := cfg[l.ns].devices[l.dev];
    var exists_ := h.LinkExists(l);
    if !exists_ {
      if d.kind.System() {
        return;
      }
      h.AddLink(l);
    }
    ghost var m := h.net;
    WantedOf(h.codec, cfg, l);
    AddAddresses(h, l, if d.kind.HasAddresses() then d.addresses else []);
    AddProxies(h, l, if d.kind.HasNdProxy() then d.ndProxy else []);
    assert h.net.links[l] == Fed(h.codec, m.links[l], BuildState(cfg), l);
  }

  /** The devices of one namespace, in an arbitrary order. */
  method SetupDevices(h: Host, ns: string, cfg: Config)
    requires ValidCodec(h.codec) && ns in cfg
    modifies h
    ensures h.net.netns == old(h.net).netns && h.net.sids == old(h.net).sids
    ensures forall l: Link :: LinkAdded(old(h.net), h.net, h.codec, cfg, l, l.ns == ns)
    ensures forall l: Link :: l in h.net.links && l !in old(h.net).links ==> Virtual(cfg, l)
  {
    ghost var n := h.net;
    var devs := cfg[ns].devices.Keys;
    while devs != {}
      invariant devs <= cfg[ns].devices.Keys
      invariant DevicesDone(n, h.net, h.codec, cfg, ns, devs)
    {
      var dev :| dev in devs;
      assert devs - {dev} + {dev} == devs;
      devs := devs - {dev};
      ghost var m := h.net;
      var t := Link(ns, dev);
      SetupDevice(h, t, cfg);
      DevicesStep(n, m, h.net, h.codec, cfg, t, devs);
    }
    DevicesAdded(n, h.net, h.codec, cfg, ns);
  }

  /** The devices of a namespace outside `devs` have been set up. */
  ghost predicate DevicesDone(n: Net, n': Net, c: Codec, cfg: Config, ns: string, devs: set<string>) {
    && n'.netns == n.netns && n'.sids == n.sids
    && forall l: Link :: DeviceDone(n, n', c, cfg, l, l.ns == ns && l.dev !in devs)
  }

  lemma DevicesStep(n: Net, m: Net, n': Net, c: Codec, cfg: Config, t: Link, devs: set<string>)
    requires Configured(cfg, t) && t.dev !in devs && DevicesDone(n, m, c, cfg, t.ns, devs + {t.dev}) && OnlyLink(m, n', t)
    requires t in n'.links <==> t in m.links || Virtual(cfg, t)
    requires t in n'.links ==> n'.links[t] == Fed(c, LinkOr(m, t), BuildState(cfg), t)
    ensures DevicesDone(n, n', c, cfg, t.ns, devs)
  {
    assert DeviceDone(n, m, c, cfg, t, t.ns == t.ns && t.dev !in devs + {t.dev});
    forall l: Link
      ensures DeviceDone(n, n', c, cfg, l, l.ns == t.ns && l.dev !in devs)
    {
      assert DeviceDone(n, m, c, cfg, l, l.ns == t.ns && l.dev !in devs + {t.dev});
      DeviceStep(n, m, n', c, cfg, t, l, l.ns == t.ns && l.dev !in devs + {t.dev});
    }
  }

  lemma DevicesAdded(n: Net, n': Net, c: Codec, cfg: Config, ns: string)
    requires DevicesDone(n, n', c, cfg, ns, {})
    ensures forall l: Link :: LinkAdded(n, n', c, cfg, l, l.ns == ns)
    ensures forall l: Link :: l in n'.links && l !in n.links ==> Virtual(cfg, l)
  {
    forall l: Link
      ensures LinkAdded(n, n', c, cfg, l, l.ns == ns)
      ensures l in n'.links && l !in n.links ==> Virtual(cfg, l)
    {
      assert DeviceDone(n, n', c, cfg, l, l.ns == ns && l.dev !in {});
      DoneAdded(n, n', c, cfg, l, l.ns == ns);
    }
  }

  /** Setting up `t`, seen from any link. */
  lemma DeviceStep(n: Net, m: Net, n': Net, c: Codec, cfg: Config, t: Link, l: Link, on: bool)
    requires Configured(cfg, t) && DeviceDone(n, m, c, cfg, t, false) && OnlyLink(m, n', t)
    requires t in n'.links <==> t in m.links || Virtual(cfg, t)
    requires t in n'.links ==> n'.links[t] == Fed(c, LinkOr(m, t), BuildState(cfg), t)
    requires DeviceDone(n, m, c, cfg, l, on)
    ensures DeviceDone(n, n', c, cfg, l, on || l == t)
  {
  }

  lemma DoneAdded(n: Net, n': Net, c: Codec, cfg: Config, l: Link, on: bool)
    requires DeviceDone(n, n', c, cfg, l, on)
    ensures LinkAdded(n, n', c, cfg, l, on) && (l in n'.links && l !in n.links ==> Virtual(cfg, l))
  {
  }

  /** The link `l` after the devices marked `on` have been set up. */
  ghost predicate DeviceDone(n: Net, n': Net, c: Codec, cfg: Config, l: Link, on: bool) {
    if on && Configured(cfg, l) then
      && (l in n'.links <==> l in n.links || Virtual(cfg, l))
      && (l in n'.links ==> n'.links[l] == Fed(c, LinkOr(n, l), BuildState(cfg), l))
    else
      (l in n'.links <==> l in n.links) && LinkOr(n', l) == LinkOr(n, l)
  }

  /** The state after the first `i` identifiers of a namespace. */
  ghost predicate SidsDone(n: Net, n': Net, c: Codec, cfg: Config, ns: string, i: nat)
    requires ns in cfg && i <= |cfg[ns].sids|
  {
    && n'.netns == n.netns
    && (forall l: Link :: l in n'.links && l !in n.links ==> l == Link(ns, SRV6_DUMMY))
    && (forall l: Link :: l in n.links ==> l in n'.links)
    && (forall l: Link :: LinkOr(n', l) == LinkOr(n, l))
    && (forall k :: k in n.sids ==> k in n'.sids)
    && (forall k :: k in n'.sids && !(k.ns == ns && k.sid in WantSids(c, BuildState(cfg), ns)) ==>
          k in n.sids && n'.sids[k] == n.sids[k])
    && (forall k :: k in n'.sids ==> (k in n.sids && n'.sids[k] == n.sids[k]) || Link(k.ns, n'.sids[k]) in n'.links)
    && (forall j :: 0 <= j < i && c.sid(cfg[ns].sids[j].sid).Some? && AnchorReady(n, cfg[ns], ns, cfg[ns].sids[j]) ==>
          OnAnchor(n', c, cfg, SidKey(ns, c.sid(cfg[ns].sids[j].sid).value)))
  }

  /** Makes the automatic anchor exist. */
  method EnsureDummy(h: Host, ns: string)
    modifies h
    ensures WithDummy(old(h.net), h.net, ns)
  {
    var exists_ := h.LinkExists(Link(ns, SRV6_DUMMY));
    if !exists_ {
      h.AddLink(Link(ns, SRV6_DUMMY));
    }
  }

  /** Only the automatic anchor has been added, if it was missing. */
  ghost predicate WithDummy(n: Net, n': Net, ns: string) {
    && n'.netns == n.netns && n'.sids == n.sids
    && (forall l: Link :: l in n'.links <==> l in n.links || l == Link(ns, SRV6_DUMMY))
    && (forall l: Link :: LinkOr(n', l) == LinkOr(n, l))
  }

  lemma DummyAdded(n: Net, m: Net, n': Net, c: Codec, cfg: Config, ns: string, i: nat)
    requires ns in cfg && i <= |cfg[ns].sids| && SidsDone(n, m, c, cfg, ns, i) && WithDummy(m, n', ns)
    ensures SidsDone(n, n', c, cfg, ns, i) && Link(ns, SRV6_DUMMY) in n'.links
  {
    forall j | 0 <= j < i && c.sid(cfg[ns].sids[j].sid).Some? && AnchorReady(n, cfg[ns], ns, cfg[ns].sids[j])
      ensures OnAnchor(n', c, cfg, SidKey(ns, c.sid(cfg[ns].sids[j].sid).value))
    {
      assert OnAnchor(m, c, cfg, SidKey(ns, c.sid(cfg[ns].sids[j].sid).value));
    }
  }

  lemma SidAdded(n: Net, m: Net, n': Net, c: Codec, cfg: Config, ns: string, i: nat, dev: string)
    requires ns in cfg && i < |cfg[ns].sids| && SidsDone(n, m, c, cfg, ns, i)
    requires var s := c.sid(cfg[ns].sids[i].sid);
             n' == if Link(ns, dev) in m.links && s.Some? then m.(sids := m.sids[SidKey(ns, s.value) := dev]) else m
    requires AnchorReady(n, cfg[ns], ns, cfg[ns].sids[i]) ==> Link(ns, dev) in m.links
    requires dev == AnchorDevice(cfg[ns], cfg[ns].sids[i])
    ensures SidsDone(n, n', c, cfg, ns, i + 1)
  {
    WantedSid(c, cfg, ns, i);
    forall j | 0 <= j < i + 1 && c.sid(cfg[ns].sids[j].sid).Some? && AnchorReady(n, cfg[ns], ns, cfg[ns].sids[j])
      ensures OnAnchor(n', c, cfg, SidKey(ns, c.sid(cfg[ns].sids[j].sid).value))
    {
      assert cfg[ns].sids[i] in cfg[ns].sids;
      if j < i {
        assert OnAnchor(m, c, cfg, SidKey(ns, c.sid(cfg[ns].sids[j].sid).value));
      }
    }
  }

  method SetupSRv6(h: Host, ns: string, cfg: Config)
    requires ns in cfg
    modifies h
    ensures SidsDone(old(h.net), h.net, h.codec, cfg, ns, |cfg[ns].sids|)
  {
    ghost var n := h.net;
    var sids := cfg[ns].sids;
    var autoReady := false;
    for i := 0 to |sids|
      invariant autoReady ==> Link(ns, SRV6_DUMMY) in h.net.links
      invariant SidsDone(n, h.net, h.codec, cfg, ns, i)
    {
      var dev := Anchor(cfg[ns], sids[i]);
      if dev == "" {
        dev := SRV6_DUMMY;
        if !autoReady {
          ghost var before := h.net;
          EnsureDummy(h, ns);
          DummyAdded(n, before, h.net, h.codec, cfg, ns, i);
          autoReady := true;
        }
      }
      ghost var m := h.net;
      h.AddLocalSid(ns, dev, sids[i].sid);
      SidAdded(n, m, h.net, h.codec, cfg, ns, i, dev);
    }
  }

  lemma WantedSid(c: Codec, cfg: Config, ns: string, i: nat)
    requires ns in cfg && i < |cfg[ns].sids|
    ensures var s := c.sid(cfg[ns].sids[i].sid); s.Some? ==> s.value in WantSids(c, BuildState(cfg), ns)
  {
    assert BuildState(cfg)[ns].sids[i] == cfg[ns].sids[i].sid;
    assert cfg[ns].sids[i].sid in SidSet(BuildState(cfg), ns);
  }

  method ApplyNamespaceConfig(h: Host, ns: string, cfg: Config)
    requires ValidCodec(h.codec) && ns in cfg
    modifies h
    ensures Additions(old(h.net), h.net, h.codec, cfg, {ns})
    ensures Wf(old(h.net)) && NsPresent(old(h.net), ns) ==> Wf(h.net)
  {
    ghost var n := h.net;
    SetupDevices(h, ns, cfg);
    ghost var m := h.net;
    SetupSRv6(h, ns, cfg);
    forall l: Link
      ensures LinkAdded(n, h.net, h.codec, cfg, l, l.ns == ns)
    {
      assert LinkAdded(n, m, h.codec, cfg, l, l.ns == ns);
      assert LinkOr(h.net, l) == LinkOr(m, l);
    }
    forall s | s in cfg[ns].sids && Anchored(n, cfg, ns, s) && h.codec.sid(s.sid).Some?
      ensures OnAnchor(h.net, h.codec, cfg, SidKey(ns, h.codec.sid(s.sid).value))
    {
      assert LinkAdded(n, m, h.codec, cfg, Link(ns, Anchor(cfg[ns], s)), true);
      var j :| 0 <= j < |cfg[ns].sids| && cfg[ns].sids[j] == s;
      assert AnchorReady(m, cfg[ns], ns, cfg[ns].sids[j]);
    }
    if Wf(n) && NsPresent(n, ns) {
      AdditionsWf(n, h.net, h.codec, cfg, {ns});
    }
  }

  // ----- Apply -----

  /** What is left when removal and reaping are done and namespaces have been created. */
  ghost function Cleared(n: Net, c: Codec, d: Diff, old_: State, new_: State): Net {
    var m := DropProxies(DropSids(Removed(n, c, d), GoneSids(c, old_, new_)), GoneProxies(c, old_, new_));
    m.(netns := m.netns + (new_.Keys - {""}))
  }

  /** A completed apply of `cfg` over saved state `old_` takes `n` to `n'`. */
  ghost predicate Applied(n: Net, n': Net, c: Codec, old_: State, cfg: Config) {
    exists d :: IsDiff(d, old_, BuildState(cfg)) &&
                Additions(Cleared(n, c, d, old_, BuildState(cfg)), n', c, cfg, cfg.Keys)
  }

  /** The first half of apply: everything that takes away. */
  method Clear(h: Host, old_: State, new_: State) returns (d: Diff)
    requires Wf(h.net) && ValidCodec(h.codec) && ValidProxies(h.codec, new_)
    modifies h
    ensures IsDiff(d, old_, new_)
    ensures h.net == Cleared(old(h.net), h.codec, d, old_, new_)
    ensures Wf(h.net) && forall ns :: ns in new_ ==> NsPresent(h.net, ns)
  {
    d := ComputeDiff(old_, new_);
    ApplyRemovals(h, d);
    RemovedWf(old(h.net), h.codec, d);
    WfSansSids(h.net, GoneSids(h.codec, old_, new_));
    ReapSRv6Orphans(h, old_, new_);
    ReapNDProxyOrphans(h, old_, new_);
    CreateNamespaces(h, new_.Keys - {""});
  }

  /** The second half: everything that adds. */
  method AddAll(h: Host, cfg: Config)
    requires ValidCodec(h.codec)
    modifies h
    ensures Additions(old(h.net), h.net, h.codec, cfg, cfg.Keys)
    ensures Wf(old(h.net)) && (forall ns :: ns in cfg ==> NsPresent(old(h.net), ns)) ==> Wf(h.net)
  {
    ghost var m := h.net;
    AdditionsNone(m, h.codec, cfg);
    var nss := cfg.Keys;
    while nss != {}
      invariant nss <= cfg.Keys
      invariant Additions(m, h.net, h.codec, cfg, cfg.Keys - nss)
    {
      var ns :| ns in nss;
      ghost var before := h.net;
      ApplyNamespaceConfig(h, ns, cfg);
      AdditionsCompose(m, before, h.net, h.codec, cfg, cfg.Keys - nss, {ns});
      assert cfg.Keys - nss + {ns} == cfg.Keys - (nss - {ns});
      nss := nss - {ns};
    }
    assert cfg.Keys - {} == cfg.Keys;
    if Wf(m) && forall ns :: ns in cfg ==> NsPresent(m, ns) {
      AdditionsWf(m, h.net, h.codec, cfg, cfg.Keys);
    }
  }

  /** Additions in namespaces that exist keep the network well-formed. */
  lemma AdditionsWf(n: Net, n': Net, c: Codec, cfg: Config, nss: set<string>)
    requires Wf(n) && Additions(n, n', c, cfg, nss) && forall ns :: ns in nss ==> NsPresent(n, ns)
    ensures Wf(n')
  {
    forall l | l in n'.links
      ensures NsPresent(n', l.ns)
    {
      assert LinkAdded(n, n', c, cfg, l, l.ns in nss);
    }
    forall k | k in n'.sids
      ensures NsPresent(n', k.ns) && Link(k.ns, n'.sids[k]) in n'.links
    {
      assert LinkAdded(n, n', c, cfg, Link(k.ns, n'.sids[k]), k.ns in nss);
    }
  }

  method Apply(h: Host, old_: State, cfg: Config) returns (saved: State)
    requires Wf(h.net) && ValidCodec(h.codec) && ValidProxies(h.codec, BuildState(cfg))
    modifies h
    ensures saved == BuildState(cfg)
    ensures Applied(old(h.net), h.net, h.codec, old_, cfg) && Wf(h.net)
  {
    saved := BuildState(cfg);
    var d := Clear(h, old_, saved);
    AddAll(h, cfg);
  }

  lemma AdditionsNone(n: Net, c: Codec, cfg: Config)
    ensures Additions(n, n, c, cfg, cfg.Keys - cfg.Keys)
  {
  }

  lemma WfSansNetns(n: Net, gone: set<string>)
    requires Wf(n) && "" !in gone
    ensures Wf(DropNetns(n, gone))
  {
  }

  lemma WfSansSids(n: Net, gone: set<SidKey>)
    requires Wf(n)
    ensures Wf(DropSids(n, gone))
  {
  }

  lemma RemovedWf(n: Net, c: Codec, d: Diff)
    requires Wf(n)
    ensures Wf(Removed(n, c, d))
  {
  }

  method CreateNamespaces(h: Host, names: set<string>)
    modifies h
    ensures h.net == old(h.net).(netns := old(h.net).netns + names)
  {
    ghost var n := h.net;
    var rest := names;
    while rest != {}
      invariant rest <= names && h.net == n.(netns := h.net.netns) && h.net.netns == n.netns + (names - rest)
    {
      var ns :| ns in rest;
      rest := rest - {ns};
      var present := h.NetnsExists(ns);
      if !present {
        h.CreateNetns(ns);
      }
    }
  }
}
