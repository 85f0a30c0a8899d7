/** The kernel as the reconciler sees it: namespaces, links with their addresses and
    proxy-NDP entries, and seg6local routes anchored on links.  Text parsing belongs to
    libraries and is a parameter (`Codec`). */
module Kernel {
  import opened Collections

  datatype Addr = Addr(ip: nat, plen: nat)
  type Ip = nat

  /** `addr` parses an address with prefix length and `show` prints one; `ip` parses an
      address and `sid` a segment identifier with or without its prefix length. */
  datatype Codec = Codec(addr: string -> Option<Addr>, show: Addr -> string,
                         ip: string -> Option<Ip>, sid: string -> Option<Ip>)

  /** Printing an address and parsing it again gives it back, and no accepted IPv6
      address contains the separator of the reaper's keys. */
  ghost predicate ValidCodec(c: Codec) {
    && (forall a :: c.addr(c.show(a)) == Some(a))
    && (forall s :: c.ip(s).Some? ==> '|' !in s)
  }

  /** What a set of spellings denotes; spellings that do not parse denote nothing. */
  ghost function Canon<T(!new)>(parse: string -> Option<T>, spellings: set<string>): set<T> {
    set s | s in spellings && parse(s).Some? :: parse(s).value
  }

  datatype Link = Link(ns: string, dev: string)
  datatype LinkState = LinkState(physical: bool, addrs: set<Addr>, proxies: set<Ip>)
  datatype SidKey = SidKey(ns: string, sid: Ip)

  datatype Net = Net(netns: set<string>, links: map<Link, LinkState>, sids: map<SidKey, string>)

  ghost predicate NsPresent(n: Net, ns: string) {
    ns == "" || ns in n.netns
  }

  /** Links and routes live in existing namespaces and routes on existing links. */
  ghost predicate Wf(n: Net) {
    && (forall l :: l in n.links ==> NsPresent(n, l.ns))
    && (forall k :: k in n.sids ==> NsPresent(n, k.ns) && Link(k.ns, n.sids[k]) in n.links)
  }

  // ----- Effects of bulk removal, as functions -----

  /** Removes from every link the addresses `gone` lists for it. */
  ghost function DropAddrs(n: Net, gone: set<(Link, Addr)>): Net {
    n.(links := map l | l in n.links ::
         n.links[l].(addrs := set a | a in n.links[l].addrs && (l, a) !in gone))
  }

  ghost function DropProxies(n: Net, gone: set<(Link, Ip)>): Net {
    n.(links := map l | l in n.links ::
         n.links[l].(proxies := set p | p in n.links[l].proxies && (l, p) !in gone))
  }

  ghost predicate Deleted(n: Net, gone: set<Link>, l: Link) {
    l in gone && l in n.links && !n.links[l].physical
  }

  /** Deletes the listed links, with the routes anchored on them; the kernel refuses
      to delete physical ones. */
  ghost function DropLinks(n: Net, gone: set<Link>): Net {
    n.(links := map l | l in n.links && !Deleted(n, gone, l) :: n.links[l],
       sids := map k | k in n.sids && !Deleted(n, gone, Link(k.ns, n.sids[k])) :: n.sids[k])
  }

  ghost function DropNetns(n: Net, gone: set<string>): Net {
    Net(n.netns - gone,
        map l | l in n.links && l.ns !in gone :: n.links[l],
        map k | k in n.sids && k.ns !in gone :: n.sids[k])
  }

  ghost function DropSids(n: Net, gone: set<SidKey>): Net {
    n.(sids := map k | k in n.sids && k !in gone :: n.sids[k])
  }

  class Host {
    const codec: Codec
    var net: Net

    constructor (codec: Codec, net: Net)
      ensures this.codec == codec && this.net == net
    {
      this.codec, this.net := codec, net;
    }

    method LinkExists(l: Link) returns (b: bool)
      ensures b <==> l in net.links
    {
      b := l in net.links;
    }

    method NetnsExists(ns: string) returns (b: bool)
      ensures b <==> ns in net.netns
    {
      b := ns in net.netns;
    }

    /** Compares printed forms, as the source does. */
    method HasAddress(l: Link, cidr: string) returns (b: bool)
      ensures b <==> l in net.links && exists a :: a in net.links[l].addrs && codec.show(a) == cidr
    {
      if l !in net.links {
        return false;
      }
      var rest := net.links[l].addrs;
      while rest != {}
        invariant rest <= net.links[l].addrs
        invariant forall a :: a in net.links[l].addrs && a !in rest ==> codec.show(a) != cidr
      {
        var a :| a in rest;
        if codec.show(a) == cidr {
          return true;
        }
        rest := rest - {a};
      }
      return false;
    }

    method AddAddress(l: Link, cidr: string)
      modifies this
      ensures net == if l in old(net).links && codec.addr(cidr).Some?
                     then old(net).(links := old(net).links[l :=
                            old(net).links[l].(addrs := old(net).links[l].addrs + {codec.addr(cidr).value})])
                     else old(net)
    {
      var a := codec.addr(cidr);
      if l in net.links && a.Some? {
        net := net.(links := net.links[l := net.links[l].(addrs := net.links[l].addrs + {a.value})]);
      }
    }

    method DeleteAddress(l: Link, cidr: string)
      modifies this
      ensures net == if codec.addr(cidr).Some? then DropAddrs(old(net), {(l, codec.addr(cidr).value)}) else old(net)
    {
      var a := codec.addr(cidr);
      if l in net.links && a.Some? {
        net := net.(links := net.links[l := net.links[l].(addrs := net.links[l].addrs - {a.value})]);
      }
      if a.Some? {
        DropOneAddr(old(net), l, a.value);
      }
    }

    method AddProxy(l: Link, ip: string)
      modifies this
      ensures net == if l in old(net).links && codec.ip(ip).Some?
                     then old(net).(links := old(net).links[l :=
                            old(net).links[l].(proxies := old(net).links[l].proxies + {codec.ip(ip).value})])
                     else old(net)
    {
      var p := codec.ip(ip);
      if l in net.links && p.Some? {
        net := net.(links := net.links[l := net.links[l].(proxies := net.links[l].proxies + {p.value})]);
      }
    }

    method DeleteProxy(l: Link, ip: string)
      modifies this
      ensures net == if codec.ip(ip).Some? then DropProxies(old(net), {(l, codec.ip(ip).value)}) else old(net)
    {
      var p := codec.ip(ip);
      if l in net.links && p.Some? {
        net := net.(links := net.links[l := net.links[l].(proxies := net.links[l].proxies - {p.value})]);
      }
      if p.Some? {
        DropOneProxy(old(net), l, p.value);
      }
    }

    /** Replaces the seg6local route; fails when the anchor device is missing. */
    method AddLocalSid(ns: string, dev: string, sid: string)
      modifies this
      ensures net == if Link(ns, dev) in old(net).links && codec.sid(sid).Some?
                     then old(net).(sids := old(net).sids[SidKey(ns, codec.sid(sid).value) := dev])
                     else old(net)
    {
      var s := codec.sid(sid);
      if Link(ns, dev) in net.links && s.Some? {
        net := net.(sids := net.sids[SidKey(ns, s.value) := dev]);
      }
    }

    method DeleteLocalSid(ns: string, sid: string)
      modifies this
      ensures net == if codec.sid(sid).Some? then DropSids(old(net), {SidKey(ns, codec.sid(sid).value)}) else old(net)
    {
      var s := codec.sid(sid);
      if s.Some? {
        net := net.(sids := net.sids - {SidKey(ns, s.value)});
        assert net.sids == DropSids(old(net), {SidKey(ns, s.value)}).sids;
      }
    }

    method DeleteLink(l: Link)
      modifies this
      ensures net == DropLinks(old(net), {l})
    {
      if l in net.links && !net.links[l].physical {
        net := net.(links := net.links - {l},
                    sids := map k | k in net.sids && Link(k.ns, net.sids[k]) != l :: net.sids[k]);
      }
      assert net.links == DropLinks(old(net), {l}).links;
      assert net.sids == DropLinks(old(net), {l}).sids;
    }

    method DeleteNetns(ns: string)
      modifies this
      ensures net == DropNetns(old(net), {ns})
    {
      net := Net(net.netns - {ns},
                 map l | l in net.links && l.ns != ns :: net.links[l],
                 map k | k in net.sids && k.ns != ns :: net.sids[k]);
    }

    method CreateNetns(ns: string)
      modifies this
      ensures net == old(net).(netns := old(net).netns + {ns})
    {
      net := net.(netns := net.netns + {ns});
    }

    /** Creates a virtual link without addresses. */
    method AddLink(l: Link)
      requires l !in net.links
      modifies this
      ensures net == old(net).(links := old(net).links[l := LinkState(false, {}, {})])
    {
      net := net.(links := net.links[l := LinkState(false, {}, {})]);
    }
  }

  lemma DropOneAddr(n: Net, l: Link, a: Addr)
    ensures DropAddrs(n, {(l, a)}).links ==
            if l in n.links then n.links[l := n.links[l].(addrs := n.links[l].addrs - {a})] else n.links
  {
    var after := DropAddrs(n, {(l, a)}).links;
    forall m | m in n.links
      ensures after[m] == if m == l then n.links[m].(addrs := n.links[m].addrs - {a}) else n.links[m]
    {
      assert after[m].addrs == if m == l then n.links[m].addrs - {a} else n.links[m].addrs;
    }
    if l in n.links {
      assert after == n.links[l := n.links[l].(addrs := n.links[l].addrs - {a})];
    } else {
      assert after == n.links;
    }
  }

  lemma DropOneProxy(n: Net, l: Link, p: Ip)
    ensures DropProxies(n, {(l, p)}).links ==
            if l in n.links then n.links[l := n.links[l].(proxies := n.links[l].proxies - {p})] else n.links
  {
    var after := DropProxies(n, {(l, p)}).links;
    forall m | m in n.links
      ensures after[m] == if m == l then n.links[m].(proxies := n.links[m].proxies - {p}) else n.links[m]
    {
      assert after[m].proxies == if m == l then n.links[m].proxies - {p} else n.links[m].proxies;
    }
    if l in n.links {
      assert after == n.links[l := n.links[l].(proxies := n.links[l].proxies - {p})];
    } else {
      assert after == n.links;
    }
  }

  // ----- Removing in two steps is removing at once -----

  lemma DropAddrsTwice(n: Net, g: set<(Link, Addr)>, h: set<(Link, Addr)>)
    ensures DropAddrs(DropAddrs(n, g), h) == DropAddrs(n, g + h)
  {
    var a, b := DropAddrs(DropAddrs(n, g), h), DropAddrs(n, g + h);
    assert a.links.Keys == b.links.Keys;
    forall l | l in a.links
      ensures a.links[l] == b.links[l]
    {
      assert a.links[l].addrs == b.links[l].addrs;
    }
    assert a.links == b.links;
  }

  lemma DropProxiesTwice(n: Net, g: set<(Link, Ip)>, h: set<(Link, Ip)>)
    ensures DropProxies(DropProxies(n, g), h) == DropProxies(n, g + h)
  {
    var a, b := DropProxies(DropProxies(n, g), h), DropProxies(n, g + h);
    assert a.links.Keys == b.links.Keys;
    forall l | l in a.links
      ensures a.links[l] == b.links[l]
    {
      assert a.links[l].proxies == b.links[l].proxies;
    }
    assert a.links == b.links;
  }

  lemma DropLinksTwice(n: Net, g: set<Link>, h: set<Link>)
    ensures DropLinks(DropLinks(n, g), h) == DropLinks(n, g + h)
  {
  }

  lemma DropNetnsTwice(n: Net, g: set<string>, h: set<string>)
    ensures DropNetns(DropNetns(n, g), h) == DropNetns(n, g + h)
  {
  }

  lemma DropSidsTwice(n: Net, g: set<SidKey>, h: set<SidKey>)
    ensures DropSids(DropSids(n, g), h) == DropSids(n, g + h)
  {
  }

  lemma DropNothing(n: Net)
    ensures DropAddrs(n, {}) == n && DropProxies(n, {}) == n && DropLinks(n, {}) == n
    ensures DropNetns(n, {}) == n && DropSids(n, {}) == n
  {
    forall l | l in n.links
      ensures DropAddrs(n, {}).links[l] == n.links[l] && DropProxies(n, {}).links[l] == n.links[l]
    {
      assert DropAddrs(n, {}).links[l].addrs == n.links[l].addrs;
      assert DropProxies(n, {}).links[l].proxies == n.links[l].proxies;
    }
    assert DropAddrs(n, {}).links == n.links && DropProxies(n, {}).links == n.links;
    assert DropLinks(n, {}).links == n.links && DropLinks(n, {}).sids == n.sids;
    assert DropNetns(n, {}).netns == n.netns && DropNetns(n, {}).links == n.links && DropNetns(n, {}).sids == n.sids;
    assert DropSids(n, {}).sids == n.sids;
  }
}
