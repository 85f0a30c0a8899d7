/** The rollback of an unconfirmed try (cmd/try.go).  The diff is computed from the
    current to the old state, but its add lists are deleted and its remove lists are
    added, so the step runs in the wrong direction. */
module Rollback {
  import opened Collections
  import opened StateDiff
  import opened Kernel
  import opened Reconciler
  import opened Convergence

  /** The network with the listed addresses added to the links that exist. */
  ghost function Plus(n: Net, c: Codec, m: PerDevice): Net {
    n.(links := map l | l in n.links ::
         n.links[l].(addrs := n.links[l].addrs + Canon(c.addr, Elems(At(m, l)))))
  }

  ghost function PlusOn(n: Net, c: Codec, m: PerDevice, done: set<Link>): Net {
    n.(links := map l | l in n.links ::
         if l in done then n.links[l].(addrs := n.links[l].addrs + Canon(c.addr, Elems(At(m, l)))) else n.links[l])
  }

  method RestoreAddresses(h: Host, l: Link, addrs: seq<string>)
    requires l in h.net.links
    modifies h
    ensures h.net == old(h.net).(links := old(h.net).links[l := old(h.net).links[l].(
                       addrs := old(h.net).links[l].addrs + Canon(h.codec.addr, Elems(addrs)))])
  {
    ghost var n := h.net;
    assert n.links[l].addrs + Canon(h.codec.addr, Elems(addrs[..0])) == n.links[l].addrs;
    assert n.links[l := n.links[l]] == n.links;
    for i := 0 to |addrs|
      invariant h.net == n.(links := n.links[l := n.links[l].(
                           addrs := n.links[l].addrs + Canon(h.codec.addr, Elems(addrs[..i])))])
    {
      h.AddAddress(l, addrs[i]);
      CanonStep(h.codec.addr, addrs, i);
      assert h.net.links[l].addrs == n.links[l].addrs + Canon(h.codec.addr, Elems(addrs[..i + 1]));
      assert h.net.links == n.links[l := h.net.links[l]];
    }
    assert addrs[..|addrs|] == addrs;
  }

  lemma PlusOne(n: Net, c: Codec, m: PerDevice, done: set<Link>, l: Link)
    requires l in n.links && l !in done
    ensures var p := PlusOn(n, c, m, done);
            PlusOn(n, c, m, done + {l}) ==
            p.(links := p.links[l := p.links[l].(addrs := p.links[l].addrs + Canon(c.addr, Elems(At(m, l))))])
  {
  }

  lemma PlusDone(n: Net, c: Codec, m: PerDevice, done: set<Link>)
    requires forall l :: l in n.links && Listed(m, l.ns, l.dev) ==> l in done
    ensures PlusOn(n, c, m, done) == Plus(n, c, m)
  {
    forall l | l in n.links
      ensures PlusOn(n, c, m, done).links[l] == Plus(n, c, m).links[l]
    {
      if l !in done {
        assert n.links[l].addrs + Canon(c.addr, Elems(At(m, l))) == n.links[l].addrs;
      }
    }
    assert PlusOn(n, c, m, done).links == Plus(n, c, m).links;
  }

  method ApplyRollbackAdditions(h: Host, m: PerDevice)
    requires Wf(h.net)
    modifies h
    ensures h.net == Plus(old(h.net), h.codec, m)
  {
    ghost var n := h.net;
    ghost var done: set<Link> := {};
    assert PlusOn(n, h.codec, m, {}).links == n.links;
    var nss := m.Keys;
    while nss != {}
      invariant nss <= m.Keys && h.net == PlusOn(n, h.codec, m, done)
      invariant forall l :: l in n.links && Listed(m, l.ns, l.dev) ==> (l in done <==> l.ns !in nss)
    {
      var ns :| ns in nss;
      nss := nss - {ns};
      var present := h.NetnsExists(ns);
      if ns == "" || present {
        var devs := m[ns].Keys;
        while devs != {}
          invariant devs <= m[ns].Keys && h.net == PlusOn(n, h.codec, m, done)
          invariant forall l :: l in n.links && Listed(m, l.ns, l.dev) ==>
                      (l in done <==> l.ns !in nss && (l.ns == ns ==> l.dev !in devs))
        {
          var dev :| dev in devs;
          devs := devs - {dev};
          var l := Link(ns, dev);
          var exists_ := h.LinkExists(l);
          if exists_ {
            PlusOne(n, h.codec, m, done, l);
            RestoreAddresses(h, l, m[ns][dev]);
            done := done + {l};
          }
        }
      }
    }
    PlusDone(n, h.codec, m, done);
  }

  /** Both passes of the rollback, as a function of the diff they are given. */
  ghost function RolledBack(n: Net, c: Codec, d: Diff): Net {
    Plus(DropNetns(DropLinks(Sans(n, c, d.addressesToAdd), LinksOf(d.devicesToAdd)), Elems(d.nsToAdd) - {""}),
         c, d.addressesToRemove)
  }

  method ApplyRollbackRemovals(h: Host, d: Diff)
    requires Wf(h.net)
    modifies h
    ensures Wf(h.net)
    ensures h.net == DropNetns(DropLinks(Sans(old(h.net), h.codec, d.addressesToAdd), LinksOf(d.devicesToAdd)),
                               Elems(d.nsToAdd) - {""})
  {
    RemoveAddresses(h, d.addressesToAdd);
    WfKept(old(h.net), h.codec, d.addressesToAdd, {});
    ghost var n := h.net;
    RemoveDevices(h, d.devicesToAdd);
    WfKept(n, h.codec, map[], LinksOf(d.devicesToAdd));
    WfSansNetns(h.net, Elems(d.nsToAdd) - {""});
    RemoveNamespaces(h, d.nsToAdd);
  }

  /** rollback: returns the state it saves. */
  method DoRollback(h: Host, current: State, before: State) returns (saved: State)
    requires Wf(h.net)
    modifies h
    ensures saved == before
    ensures exists d :: IsDiff(d, current, before) && h.net == RolledBack(old(h.net), h.codec, d)
  {
    var d := ComputeDiff(current, before);
    ApplyRollbackRemovals(h, d);
    ApplyRollbackAdditions(h, d.addressesToRemove);
    saved := before;
    assert h.net == RolledBack(old(h.net), h.codec, d);
  }

  /** What the diff from `a` to `b` adds at one link. */
  ghost predicate AddedAt(d: Diff, a: State, b: State, l: Link) {
    && (l in LinksOf(d.devicesToAdd) <==> l.dev in NewDevices(a, b, l.ns))
    && (l.ns in Elems(d.nsToAdd) <==> l.ns in b && l.ns !in a)
  }

  lemma AddedAtLink(d: Diff, a: State, b: State, l: Link)
    requires IsDiff(d, a, b)
    ensures AddedAt(d, a, b, l)
  {
  }

  /** The two passes on one link of a namespace both states have. */
  lemma RolledBackLink(n: Net, c: Codec, d: Diff, a: State, b: State, l: Link)
    requires DiffAt(d, a, b, l) && AddedAt(d, a, b, l) && l in n.links && (l.ns in a || l.ns !in b)
    ensures var n' := RolledBack(n, c, d);
            && (l in n'.links <==> (l.dev in NewDevices(a, b, l.ns) ==> n.links[l].physical))
            && (l in n'.links ==>
                  AddrsOn(n', l) == AddrsOn(n, l) - Canon(c.addr, LostAddresses(b, a, l.ns, l.dev)) +
                                    Canon(c.addr, LostAddresses(a, b, l.ns, l.dev)))
  {
  }

  /** The two passes on a device both states have, for a diff from `a` to `b`. */
  lemma {:induction false} RollbackOnCommon(n: Net, c: Codec, d: Diff, a: State, b: State, l: Link)
    requires IsDiff(d, a, b) && l in n.links
    requires HasDevice(a, l.ns, l.dev) && HasDevice(b, l.ns, l.dev)
    ensures var n' := RolledBack(n, c, d);
            && l in n'.links
            && AddrsOn(n', l) == AddrsOn(n, l) - Canon(c.addr, LostAddresses(b, a, l.ns, l.dev)) +
                                 Canon(c.addr, LostAddresses(a, b, l.ns, l.dev))
  {
    DiffAtLink(d, a, b, l);
    AddedAtLink(d, a, b, l);
    RolledBackLink(n, c, d, a, b, l);
  }

  /** Some address is both newly dropped under one spelling and kept under another. */
  ghost predicate Respelled(c: Codec, before: State, current: State, l: Link) {
    exists x :: && x in Canon(c.addr, LostAddresses(before, current, l.ns, l.dev))
                && x in WantAddrs(c, current, l)
                && x !in Canon(c.addr, LostAddresses(current, before, l.ns, l.dev))
  }

  lemma WantSplit(c: Codec, a: State, b: State, l: Link)
    requires HasDevice(a, l.ns, l.dev) && HasDevice(b, l.ns, l.dev)
    ensures var both := Canon(c.addr, AddressSet(a, l.ns, l.dev) * AddressSet(b, l.ns, l.dev));
            && WantAddrs(c, a, l) == both + Canon(c.addr, LostAddresses(a, b, l.ns, l.dev))
            && WantAddrs(c, b, l) == both + Canon(c.addr, LostAddresses(b, a, l.ns, l.dev))
  {
  }

  /** As written, rolling back after a converged apply changes no address of a common
      device, except that it deletes a respelled one; so the saved state and the kernel
      agree afterwards exactly when the two address sets were equal all along and
      nothing was respelled. */
  lemma {:induction false} RollbackAsWritten(n: Net, c: Codec, d: Diff, current: State, before: State, l: Link, seen: set<Addr>)
    requires IsDiff(d, current, before) && l in n.links
    requires HasDevice(current, l.ns, l.dev) && HasDevice(before, l.ns, l.dev)
    requires WantAddrs(c, before, l) <= seen && AddrsOn(n, l) * seen == WantAddrs(c, current, l)
    ensures var n' := RolledBack(n, c, d);
            && (AddrsOn(n', l) == AddrsOn(n, l) <==> !Respelled(c, before, current, l))
            && (AddrsOn(n', l) * seen == WantAddrs(c, before, l) <==>
                WantAddrs(c, before, l) == WantAddrs(c, current, l) && !Respelled(c, before, current, l))
  {
    RollbackOnCommon(n, c, d, current, before, l);
    WantSplit(c, current, before, l);
    var k := AddrsOn(n, l);
    var lost := Canon(c.addr, LostAddresses(before, current, l.ns, l.dev));
    var gained := Canon(c.addr, LostAddresses(current, before, l.ns, l.dev));
    var both := Canon(c.addr, AddressSet(current, l.ns, l.dev) * AddressSet(before, l.ns, l.dev));
    WrongWay(k, seen, both, lost, gained);
    assert Respelled(c, before, current, l) <==> !(lost * (both + gained) <= gained);
  }

  /** The same over whole runs: after any run that ends in the apply of a try, rolling
      back to the state saved before it. */
  lemma {:induction false} UnconfirmedTry(c: Codec, trace: seq<Sys>, steps: seq<Step>, d: Diff, l: Link)
    requires ValidRun(c, trace, steps) && |steps| > 0 && steps[|steps| - 1].ApplyStep?
    requires var n := |steps| - 1;
             && Clean(c, trace, steps, l, n)
             && Reached(trace[n].net, steps[n].cfg, l) && l in trace[n + 1].net.links
             && HasDevice(trace[n].saved, l.ns, l.dev) && IsDiff(d, trace[n + 1].saved, trace[n].saved)
    ensures var n := |steps| - 1;
            var before, current, net := trace[n].saved, trace[n + 1].saved, trace[n + 1].net;
            var after := RolledBack(net, c, d);
            && (AddrsOn(after, l) == AddrsOn(net, l) <==> !Respelled(c, before, current, l))
            && (AddrsOn(after, l) * SeenAddrs(c, steps, l) == WantAddrs(c, before, l) <==>
                WantAddrs(c, before, l) == WantAddrs(c, current, l) && !Respelled(c, before, current, l))
  {
    var n := |steps| - 1;
    TriedAddresses(c, trace, steps, l);
    RollbackAsWritten(trace[n + 1].net, c, d, trace[n + 1].saved, trace[n].saved, l, SeenAddrs(c, steps, l));
  }

  lemma TriedAddresses(c: Codec, trace: seq<Sys>, steps: seq<Step>, l: Link)
    requires ValidRun(c, trace, steps) && |steps| > 0 && steps[|steps| - 1].ApplyStep?
    requires var n := |steps| - 1; Clean(c, trace, steps, l, n) && Reached(trace[n].net, steps[n].cfg, l)
    ensures var n, seen := |steps| - 1, SeenAddrs(c, steps, l);
            && WantAddrs(c, trace[n].saved, l) <= seen
            && AddrsOn(trace[n + 1].net, l) * seen == WantAddrs(c, trace[n + 1].saved, l)
            && HasDevice(trace[n + 1].saved, l.ns, l.dev)
  {
    var n := |steps| - 1;
    ConvergesIff(c, trace, steps, l, n);
    RunStep(c, trace, steps, n);
    assert steps[..n + 1] == steps;
    SeenAfter(c, steps, n, l, "");
    AddressStep(c, trace[n], trace[n + 1], steps[..n], steps[n].cfg, l);
  }

  /** One physical device of the default namespace. */
  function OneDevice(addresses: seq<string>): State {
    map["" := NsState(map["eth0" := DeviceState(addresses, [], [], SYSTEM)], [])]
  }

  function OneLink(addrs: set<Addr>): Net {
    Net({}, map[ETH := LinkState(true, addrs, {})], map[])
  }

  /** For instance, a try that replaces the only address: the rollback keeps the new one. */
  lemma NewAddressStays(c: Codec, was: string, tried: string, d: Diff)
    requires c.addr(was).Some? && c.addr(tried).Some? && c.addr(was) != c.addr(tried)
    requires IsDiff(d, OneDevice([tried]), OneDevice([was]))
    ensures AddrsOn(RolledBack(OneLink({c.addr(tried).value}), c, d), ETH) == {c.addr(tried).value}
  {
    RollbackOnCommon(OneLink({c.addr(tried).value}), c, d, OneDevice([tried]), OneDevice([was]), ETH);
  }

  /** And a try that drops the second spelling of an address: the rollback drops the
      address itself. */
  lemma RespelledAddressLost(c: Codec, s: string, t: string, d: Diff)
    requires s != t && c.addr(s) == c.addr(t) && c.addr(s).Some?
    requires IsDiff(d, OneDevice([t]), OneDevice([s, t]))
    ensures AddrsOn(RolledBack(OneLink({c.addr(t).value}), c, d), ETH) == {}
  {
    RollbackOnCommon(OneLink({c.addr(t).value}), c, d, OneDevice([t]), OneDevice([s, t]), ETH);
    assert s in LostAddresses(OneDevice([s, t]), OneDevice([t]), "", "eth0");
  }

  lemma WrongWay<T>(k: set<T>, seen: set<T>, both: set<T>, lost: set<T>, gained: set<T>)
    requires k * seen == both + gained && both + lost <= seen
    ensures k - lost + gained == k <==> lost * (both + gained) <= gained
    ensures (k - lost + gained) * seen == both + lost <==>
            both + lost == both + gained && lost * (both + gained) <= gained
  {
  }

  /** With the diff taken from the old to the current state the same two passes undo the
      apply exactly when the device held none of the newly configured addresses (other
      than under a spelling that was dropped) and lacked no old one, apart from those
      that the try configured anew. */
  lemma {:induction false} RollbackInOrder(n0: Net, n1: Net, c: Codec, d: Diff, before: State, cfg: Config, l: Link)
    requires Applied(n0, n1, c, before, cfg) && IsDiff(d, before, BuildState(cfg))
    requires HasDevice(before, l.ns, l.dev) && Configured(cfg, l) && l in n0.links
    ensures l in n1.links
    ensures var lost := Canon(c.addr, LostAddresses(before, BuildState(cfg), l.ns, l.dev));
            var gained := Canon(c.addr, LostAddresses(BuildState(cfg), before, l.ns, l.dev));
            AddrsOn(RolledBack(n1, c, d), l) == AddrsOn(n0, l) <==>
            AddrsOn(n0, l) * gained <= lost && WantAddrs(c, before, l) - (gained - lost) <= AddrsOn(n0, l)
  {
    var current := BuildState(cfg);
    AppliedLink(n0, n1, c, before, cfg, l);
    PhysicalStays(n0, n1, c, before, cfg, l);
    RollbackOnCommon(n1, c, d, before, current, l);
    WantSplit(c, current, before, l);
    var lost := Canon(c.addr, LostAddresses(before, current, l.ns, l.dev));
    var gained := Canon(c.addr, LostAddresses(current, before, l.ns, l.dev));
    var both := Canon(c.addr, AddressSet(current, l.ns, l.dev) * AddressSet(before, l.ns, l.dev));
    RightWay(AddrsOn(n0, l), both, lost, gained);
  }

  lemma RightWay<T>(a: set<T>, both: set<T>, lost: set<T>, gained: set<T>)
    ensures a - lost + (both + gained) - gained + lost == a <==>
            a * gained <= lost && both + lost - (gained - lost) <= a
  {
    var r := a - lost + (both + gained) - gained + lost;
    if r == a {
      forall x | x in a * gained
        ensures x in lost
      {
        assert x in r;
      }
      forall x | x in both + lost - (gained - lost)
        ensures x in a
      {
        assert x in r;
      }
    }
    if a * gained <= lost && both + lost - (gained - lost) <= a {
      forall x | x in r || x in a
        ensures x in r && x in a
      {
        assert x in a && x in gained ==> x in a * gained;
        assert x in r ==> x in a || x in both + lost - (gained - lost);
      }
    }
  }

  /** The inversion on devices: what the try created stays. */
  lemma RollbackKeepsCreated(n: Net, c: Codec, d: Diff, current: State, before: State, l: Link)
    requires IsDiff(d, current, before) && l in n.links && l.ns in current && l.ns in before
    requires HasDevice(current, l.ns, l.dev) && !HasDevice(before, l.ns, l.dev)
    ensures l in RolledBack(n, c, d).links && AddrsOn(RolledBack(n, c, d), l) == AddrsOn(n, l)
  {
    DiffAtLink(d, current, before, l);
    AddedAtLink(d, current, before, l);
    RolledBackLink(n, c, d, current, before, l);
    assert LostAddresses(before, current, l.ns, l.dev) == {};
    assert LostAddresses(current, before, l.ns, l.dev) == {};
  }

  /** And a virtual device that the try dropped without deleting is deleted now. */
  lemma RollbackDeletesDropped(n: Net, c: Codec, d: Diff, current: State, before: State, l: Link)
    requires IsDiff(d, current, before) && l in n.links && l.ns in current && l.ns in before
    requires HasDevice(before, l.ns, l.dev) && !HasDevice(current, l.ns, l.dev)
    ensures l in RolledBack(n, c, d).links <==> n.links[l].physical
  {
    DiffAtLink(d, current, before, l);
    AddedAtLink(d, current, before, l);
    RolledBackLink(n, c, d, current, before, l);
  }

  /** And on namespaces: what the try created stays, and one that it dropped is deleted
      again should it have come back. */
  lemma RollbackNetns(n: Net, c: Codec, d: Diff, current: State, before: State, ns: string)
    requires IsDiff(d, current, before) && ns != ""
    ensures ns in RolledBack(n, c, d).netns <==> ns in n.netns && !(ns in before && ns !in current)
  {
    assert ns in Elems(d.nsToAdd) <==> ns in before && ns !in current;
  }
}
