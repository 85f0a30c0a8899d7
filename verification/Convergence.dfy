/** Convergence of the reconciler over whole runs.  A run interleaves completed applies
    with drift of the kernel; drift may do anything to foreign resources and may take
    managed ones away, but does not bring back a managed one. */
module Convergence {
  import opened Collections
  import opened StateDiff
  import opened Kernel
  import opened Reconciler

  // ----- One apply, seen from one link -----

  /** The link is neither deleted as a device nor with its namespace. */
  ghost predicate Survives(n: Net, old_: State, new_: State, l: Link) {
    && l in n.links
    && (l.ns == "" || l.ns !in old_ || l.ns in new_)
    && (l.dev in GoneDevices(old_, new_, l.ns) ==> n.links[l].physical)
  }

  /** What the diff says about one link. */
  ghost predicate DiffAt(d: Diff, old_: State, new_: State, l: Link) {
    && (l in LinksOf(d.devicesToRemove) <==> l.dev in GoneDevices(old_, new_, l.ns))
    && (l.ns in Elems(d.nsToRemove) <==> l.ns in old_ && l.ns !in new_)
    && Elems(At(d.addressesToRemove, l)) == LostAddresses(old_, new_, l.ns, l.dev)
    && Elems(At(d.addressesToAdd, l)) == LostAddresses(new_, old_, l.ns, l.dev)
  }

  lemma DiffAtLink(d: Diff, old_: State, new_: State, l: Link)
    requires IsDiff(d, old_, new_)
    ensures DiffAt(d, old_, new_, l)
  {
    assert ExactAt(d.devicesToRemove, l.ns, GoneDevices(old_, new_, l.ns));
    assert ExactOn(d.addressesToRemove, l.ns, l.dev, AddressLoss(old_, new_)(l.ns, l.dev));
    assert ExactOn(d.addressesToAdd, l.ns, l.dev, AddressLoss(new_, old_)(l.ns, l.dev));
    if l.ns in d.devicesToRemove {
      assert l.dev in d.devicesToRemove[l.ns] <==> l.dev in Elems(d.devicesToRemove[l.ns]);
      assert l.dev in d.devicesToRemove[l.ns] <==> Link(l.ns, l.dev) in LinksOf(d.devicesToRemove);
    }
  }

  /** The link `l` after removal and reaping. */
  ghost predicate LinkCleared(n: Net, m: Net, c: Codec, old_: State, new_: State, l: Link) {
    && (l in m.links <==> Survives(n, old_, new_, l))
    && (l in m.links ==>
          && m.links[l].physical == n.links[l].physical
          && m.links[l].addrs == n.links[l].addrs - Canon(c.addr, LostAddresses(old_, new_, l.ns, l.dev))
          && m.links[l].proxies ==
             n.links[l].proxies - Canon(c.ip, ProxySet(old_, l.ns, l.dev) - ProxySet(new_, l.ns, l.dev)))
  }

  lemma RemovedLink(n: Net, c: Codec, d: Diff, old_: State, new_: State, l: Link)
    requires DiffAt(d, old_, new_, l)
    ensures var r := Removed(n, c, d);
            && (l in r.links <==> Survives(n, old_, new_, l))
            && (l in r.links ==> r.links[l] == n.links[l].(
                  addrs := n.links[l].addrs - Canon(c.addr, LostAddresses(old_, new_, l.ns, l.dev))))
  {
  }

  lemma ClearedLink(n: Net, c: Codec, d: Diff, old_: State, new_: State, l: Link)
    requires DiffAt(d, old_, new_, l)
    ensures LinkCleared(n, Cleared(n, c, d, old_, new_), c, old_, new_, l)
  {
    RemovedLink(n, c, d, old_, new_, l);
    GoneProxyOf(c, old_, new_, l);
    var m := Cleared(n, c, d, old_, new_);
    if l in m.links {
      assert m.links[l].proxies ==
             n.links[l].proxies - Canon(c.ip, ProxySet(old_, l.ns, l.dev) - ProxySet(new_, l.ns, l.dev));
    }
  }

  lemma GoneProxyOf(c: Codec, old_: State, new_: State, l: Link)
    ensures forall p :: (l, p) in GoneProxies(c, old_, new_) <==>
              p in Canon(c.ip, ProxySet(old_, l.ns, l.dev) - ProxySet(new_, l.ns, l.dev))
  {
    forall p | p in Canon(c.ip, ProxySet(old_, l.ns, l.dev) - ProxySet(new_, l.ns, l.dev))
      ensures (l, p) in GoneProxies(c, old_, new_)
    {
      assert HasDevice(old_, l.ns, l.dev);
      assert (l, p) in LostProxies(c, old_, new_, Link(l.ns, l.dev));
    }
  }

  ghost function AddrsOn(n: Net, l: Link): set<Addr> {
    LinkOr(n, l).addrs
  }

  ghost function ProxiesOn(n: Net, l: Link): set<Ip> {
    LinkOr(n, l).proxies
  }

  ghost function SidsOn(n: Net, ns: string): set<Ip> {
    set k | k in n.sids && k.ns == ns :: k.sid
  }

  /** One apply as set equations on a link. */
  ghost predicate LinkEquations(n: Net, n': Net, c: Codec, old_: State, cfg: Config, l: Link) {
    var new_ := BuildState(cfg);
    var was := if Survives(n, old_, new_, l) then n.links[l] else LinkState(false, {}, {});
    && AddrsOn(n', l) == was.addrs - Canon(c.addr, LostAddresses(old_, new_, l.ns, l.dev)) +
         (if Reached(n, cfg, l) then WantAddrs(c, new_, l) else {})
    && ProxiesOn(n', l) ==
         was.proxies - Canon(c.ip, ProxySet(old_, l.ns, l.dev) - ProxySet(new_, l.ns, l.dev)) +
         (if Reached(n, cfg, l) then WantProxies(c, new_, l) else {})
  }

  lemma ClearThenAdd(n: Net, m: Net, n': Net, c: Codec, old_: State, cfg: Config, l: Link)
    requires LinkCleared(n, m, c, old_, BuildState(cfg), l)
    requires LinkAdded(m, n', c, cfg, l, l.ns in cfg.Keys)
    ensures LinkEquations(n, n', c, old_, cfg, l)
  {
  }

  lemma {:induction false} AppliedLink(n: Net, n': Net, c: Codec, old_: State, cfg: Config, l: Link)
    requires Applied(n, n', c, old_, cfg)
    ensures LinkEquations(n, n', c, old_, cfg, l)
  {
    var d :| IsDiff(d, old_, BuildState(cfg)) &&
             Additions(Cleared(n, c, d, old_, BuildState(cfg)), n', c, cfg, cfg.Keys);
    DiffAtLink(d, old_, BuildState(cfg), l);
    ClearedLink(n, c, d, old_, BuildState(cfg), l);
    assert LinkAdded(Cleared(n, c, d, old_, BuildState(cfg)), n', c, cfg, l, l.ns in cfg.Keys);
    ClearThenAdd(n, Cleared(n, c, d, old_, BuildState(cfg)), n', c, old_, cfg, l);
  }

  // ----- The set argument -----

  lemma CanonSplit<T(!new)>(parse: string -> Option<T>, a: set<string>, b: set<string>)
    ensures Canon(parse, a) <= Canon(parse, b) + Canon(parse, a - b)
    ensures Canon(parse, a - b) <= Canon(parse, a)
  {
  }

  lemma SettleSets<T>(k: set<T>, seen: set<T>, had: set<T>, lost: set<T>, want: set<T>)
    requires k * seen <= had <= seen && lost <= had <= want + lost
    ensures (k - lost + want) * (seen + want) == want
    ensures (k - lost + want) - (seen + want) == k - (seen + want)
    ensures (k - had) * seen == {}
  {
    forall x | x in k && x in seen
      ensures x in had
    {
      assert x in k * seen;
    }
  }

  /** Removing before adding is what makes this work for every canonicalisation: a
      spelling removed for another one of the same address is added back afterwards. */
  lemma Settle<T(!new)>(parse: string -> Option<T>, k: set<T>, seen: set<T>, a: set<string>, b: set<string>)
    requires k * seen <= Canon(parse, a) <= seen
    ensures (k - Canon(parse, a - b) + Canon(parse, b)) * (seen + Canon(parse, b)) == Canon(parse, b)
    ensures (k - Canon(parse, a - b) + Canon(parse, b)) - (seen + Canon(parse, b)) == k - (seen + Canon(parse, b))
    ensures (k - Canon(parse, a)) * seen == {}
  {
    CanonSplit(parse, a, b);
    SettleSets(k, seen, Canon(parse, a), Canon(parse, a - b), Canon(parse, b));
  }

  // ----- Runs -----

  datatype Step = ApplyStep(cfg: Config) | DriftStep
  datatype Sys = Sys(net: Net, saved: State)

  ghost function SeenAddrs(c: Codec, steps: seq<Step>, l: Link): set<Addr> {
    if steps == [] then {} else
      var last := steps[|steps| - 1];
      SeenAddrs(c, steps[..|steps| - 1], l) +
      (if last.ApplyStep? then WantAddrs(c, BuildState(last.cfg), l) else {})
  }

  ghost function SeenProxies(c: Codec, steps: seq<Step>, l: Link): set<Ip> {
    if steps == [] then {} else
      var last := steps[|steps| - 1];
      SeenProxies(c, steps[..|steps| - 1], l) +
      (if last.ApplyStep? then WantProxies(c, BuildState(last.cfg), l) else {})
  }

  ghost function SeenSids(c: Codec, steps: seq<Step>, ns: string): set<Ip> {
    if steps == [] then {} else
      var last := steps[|steps| - 1];
      SeenSids(c, steps[..|steps| - 1], ns) +
      (if last.ApplyStep? then WantSids(c, BuildState(last.cfg), ns) else {})
  }

  /** Drift does not bring back anything ever configured. */
  ghost predicate Drift(c: Codec, a: Net, b: Net, before: seq<Step>) {
    && (forall l :: AddrsOn(b, l) * SeenAddrs(c, before, l) <= AddrsOn(a, l))
    && (forall l :: ProxiesOn(b, l) * SeenProxies(c, before, l) <= ProxiesOn(a, l))
    && (forall ns :: SidsOn(b, ns) * SeenSids(c, before, ns) <= SidsOn(a, ns))
  }

  ghost predicate StepOk(c: Codec, a: Sys, b: Sys, before: seq<Step>, step: Step) {
    match step
    case ApplyStep(cfg) => Applied(a.net, b.net, c, a.saved, cfg) && b.saved == BuildState(cfg)
    case DriftStep => Drift(c, a.net, b.net, before) && b.saved == a.saved
  }

  /** The first apply starts without a saved state; the kernel keeps its own house. */
  ghost predicate ValidRun(c: Codec, trace: seq<Sys>, steps: seq<Step>) {
    && |trace| == |steps| + 1
    && trace[0].saved == map[] && (forall i :: 0 <= i <= |steps| ==> Wf(trace[i].net))
    && forall i :: 0 <= i < |steps| ==> StepAt(c, trace, steps, i)
  }

  ghost predicate StepAt(c: Codec, trace: seq<Sys>, steps: seq<Step>, i: nat)
    requires |trace| == |steps| + 1 && i < |steps|
  {
    StepOk(c, trace[i], trace[i + 1], steps[..i], steps[i])
  }

  /** What convergence promises of the addresses of a link after one apply. */
  ghost predicate Settled(c: Codec, a: Sys, b: Sys, before: seq<Step>, cfg: Config, l: Link) {
    AddrsOn(b.net, l) * (SeenAddrs(c, before, l) + WantAddrs(c, b.saved, l)) ==
    if Reached(a.net, cfg, l) then WantAddrs(c, b.saved, l) else {}
  }

  /** The link is configured, or goes, or has nothing on it that was ever configured. */
  ghost predicate LeavesCleanly(c: Codec, s: Sys, before: seq<Step>, cfg: Config, l: Link) {
    || Configured(cfg, l)
    || !Survives(s.net, s.saved, BuildState(cfg), l)
    || AddrsOn(s.net, l) * SeenAddrs(c, before, l) == {}
  }

  /** What has been seen after one apply more. */
  lemma SeenAfter(c: Codec, steps: seq<Step>, i: nat, l: Link, ns: string)
    requires i < |steps| && steps[i].ApplyStep?
    ensures var new_ := BuildState(steps[i].cfg);
            && SeenAddrs(c, steps[..i + 1], l) == SeenAddrs(c, steps[..i], l) + WantAddrs(c, new_, l)
            && SeenProxies(c, steps[..i + 1], l) == SeenProxies(c, steps[..i], l) + WantProxies(c, new_, l)
            && SeenSids(c, steps[..i + 1], ns) == SeenSids(c, steps[..i], ns) + WantSids(c, new_, ns)
  {
    assert steps[..i + 1][..i] == steps[..i];
  }

  lemma {:induction false} RunStep(c: Codec, trace: seq<Sys>, steps: seq<Step>, i: nat)
    requires ValidRun(c, trace, steps) && i < |steps|
    ensures StepOk(c, trace[i], trace[i + 1], steps[..i], steps[i]) && Wf(trace[i].net) && steps[..i + 1][..i] == steps[..i]
    ensures steps[i].DriftStep? ==>
              forall l :: SeenAddrs(c, steps[..i + 1], l) == SeenAddrs(c, steps[..i], l) &&
                          SeenProxies(c, steps[..i + 1], l) == SeenProxies(c, steps[..i], l)
    ensures steps[i].DriftStep? ==> forall ns :: SeenSids(c, steps[..i + 1], ns) == SeenSids(c, steps[..i], ns)
  {
    assert StepAt(c, trace, steps, i);
    assert steps[..i + 1][..i] == steps[..i];
  }

  /** What was ever configured on a link and is still there is configured now. */
  ghost predicate AddrInv(c: Codec, s: Sys, before: seq<Step>, l: Link) {
    AddrsOn(s.net, l) * SeenAddrs(c, before, l) <= WantAddrs(c, s.saved, l) <= SeenAddrs(c, before, l)
  }

  /** One apply converges on a link exactly when the link leaves cleanly, if it leaves. */
  lemma {:induction false} AddressStep(c: Codec, a: Sys, b: Sys, before: seq<Step>, cfg: Config, l: Link)
    requires StepOk(c, a, b, before, ApplyStep(cfg)) && AddrInv(c, a, before, l)
    ensures Settled(c, a, b, before, cfg, l) <==> LeavesCleanly(c, a, before, cfg, l)
    ensures Survives(a.net, a.saved, BuildState(cfg), l) ==>
              AddrsOn(b.net, l) - (SeenAddrs(c, before, l) + WantAddrs(c, b.saved, l)) ==
              AddrsOn(a.net, l) - (SeenAddrs(c, before, l) + WantAddrs(c, b.saved, l))
  {
    var new_ := BuildState(cfg);
    AppliedLink(a.net, b.net, c, a.saved, cfg, l);
    assert Configured(cfg, l) <==> HasDevice(new_, l.ns, l.dev);
    if Configured(cfg, l) {
      if l in a.net.links {
        assert Survives(a.net, a.saved, new_, l);
        Settle(c.addr, AddrsOn(a.net, l), SeenAddrs(c, before, l), AddressSet(a.saved, l.ns, l.dev),
               AddressSet(new_, l.ns, l.dev));
      }
    } else {
      assert WantAddrs(c, b.saved, l) == {} && LostAddresses(a.saved, new_, l.ns, l.dev) == {};
    }
  }

  ghost predicate CleanAt(c: Codec, trace: seq<Sys>, steps: seq<Step>, l: Link, i: nat)
    requires |trace| == |steps| + 1 && i < |steps|
  {
    steps[i].ApplyStep? ==> LeavesCleanly(c, trace[i], steps[..i], steps[i].cfg, l)
  }

  ghost predicate SettledAt(c: Codec, trace: seq<Sys>, steps: seq<Step>, l: Link, i: nat)
    requires |trace| == |steps| + 1 && i < |steps|
  {
    steps[i].ApplyStep? ==> Settled(c, trace[i], trace[i + 1], steps[..i], steps[i].cfg, l)
  }

  ghost predicate Clean(c: Codec, trace: seq<Sys>, steps: seq<Step>, l: Link, n: nat)
    requires |trace| == |steps| + 1 && n <= |steps|
  {
    forall i :: 0 <= i < n ==> CleanAt(c, trace, steps, l, i)
  }

  ghost predicate SettledTo(c: Codec, trace: seq<Sys>, steps: seq<Step>, l: Link, n: nat)
    requires |trace| == |steps| + 1 && n <= |steps|
  {
    forall i :: 0 <= i < n ==> SettledAt(c, trace, steps, l, i)
  }

  lemma InvStep(c: Codec, trace: seq<Sys>, steps: seq<Step>, l: Link, i: nat)
    requires ValidRun(c, trace, steps) && i < |steps| && AddrInv(c, trace[i], steps[..i], l)
    ensures SettledAt(c, trace, steps, l, i) <==> CleanAt(c, trace, steps, l, i)
    ensures CleanAt(c, trace, steps, l, i) ==> AddrInv(c, trace[i + 1], steps[..i + 1], l)
  {
    RunStep(c, trace, steps, i);
    if steps[i].ApplyStep? {
      AddressStep(c, trace[i], trace[i + 1], steps[..i], steps[i].cfg, l);
      SeenAfter(c, steps, i, l, "");
    }
  }

  lemma InvStart(c: Codec, trace: seq<Sys>, steps: seq<Step>, l: Link)
    requires ValidRun(c, trace, steps)
    ensures AddrInv(c, trace[0], steps[..0], l)
  {
  }

  lemma LastOfRun(c: Codec, trace: seq<Sys>, steps: seq<Step>, l: Link, n: nat)
    requires |trace| == |steps| + 1 && 0 < n <= |steps|
    ensures Clean(c, trace, steps, l, n) <==> Clean(c, trace, steps, l, n - 1) && CleanAt(c, trace, steps, l, n - 1)
    ensures SettledTo(c, trace, steps, l, n) <==> SettledTo(c, trace, steps, l, n - 1) && SettledAt(c, trace, steps, l, n - 1)
  {
  }

  /** Over runs: up to any point, every apply has converged on the link exactly when the
      link has left cleanly whenever it left. */
  lemma {:induction false} ConvergesIff(c: Codec, trace: seq<Sys>, steps: seq<Step>, l: Link, n: nat)
    requires ValidRun(c, trace, steps) && n <= |steps|
    ensures SettledTo(c, trace, steps, l, n) <==> Clean(c, trace, steps, l, n)
    ensures Clean(c, trace, steps, l, n) ==> AddrInv(c, trace[n], steps[..n], l)
  {
    if n == 0 {
      InvStart(c, trace, steps, l);
    } else {
      ConvergesIff(c, trace, steps, l, n - 1);
      LastOfRun(c, trace, steps, l, n);
      if Clean(c, trace, steps, l, n - 1) {
        InvStep(c, trace, steps, l, n - 1);
      }
    }
  }

  /** Convergence: after every apply of every run in which the link has left cleanly, the
      addresses ever configured on it that are present are exactly those of the
      configuration just applied, and the apply left all others of a surviving link alone. */
  lemma {:induction false} Converges(c: Codec, trace: seq<Sys>, steps: seq<Step>, l: Link, i: nat)
    requires ValidRun(c, trace, steps) && i < |steps| && steps[i].ApplyStep? && Clean(c, trace, steps, l, i + 1)
    ensures var seen, new_ := SeenAddrs(c, steps[..i + 1], l), BuildState(steps[i].cfg);
            && AddrsOn(trace[i + 1].net, l) * seen ==
               (if Reached(trace[i].net, steps[i].cfg, l) then WantAddrs(c, new_, l) else {})
            && (Survives(trace[i].net, trace[i].saved, new_, l) ==>
                  AddrsOn(trace[i + 1].net, l) - seen == AddrsOn(trace[i].net, l) - seen)
  {
    ConvergesIff(c, trace, steps, l, i);
    assert CleanAt(c, trace, steps, l, i);
    RunStep(c, trace, steps, i);
    AddressStep(c, trace[i], trace[i + 1], steps[..i], steps[i].cfg, l);
    SeenAfter(c, steps, i, l, "");
  }

  /** Which links stay when their device leaves the configuration: all that netcfg did not
      create, while the namespace is configured; and in the default namespace, should its
      whole section go, the physical ones, which the kernel refuses to delete. */
  lemma WhoStays(a: Sys, cfg: Config, l: Link)
    requires HasDevice(a.saved, l.ns, l.dev) && !Configured(cfg, l) && l in a.net.links
    ensures Survives(a.net, a.saved, BuildState(cfg), l) <==>
            if l.ns in cfg then a.saved[l.ns].devices[l.dev].createdBy != NETCFG || a.net.links[l].physical
            else l.ns == "" && a.net.links[l].physical
  {
  }

  /** And a link that stays keeps every address, configured or not. */
  lemma StaysWithAddresses(c: Codec, a: Sys, b: Sys, before: seq<Step>, cfg: Config, l: Link)
    requires StepOk(c, a, b, before, ApplyStep(cfg))
    requires !Configured(cfg, l) && Survives(a.net, a.saved, BuildState(cfg), l)
    ensures AddrsOn(b.net, l) == AddrsOn(a.net, l)
  {
    AppliedLink(a.net, b.net, c, a.saved, cfg, l);
    assert LostAddresses(a.saved, BuildState(cfg), l.ns, l.dev) == {};
  }

  // ----- Proxy entries: no condition on leaving -----

  ghost predicate ProxyInv(c: Codec, s: Sys, before: seq<Step>, l: Link) {
    ProxiesOn(s.net, l) * SeenProxies(c, before, l) <= WantProxies(c, s.saved, l) <= SeenProxies(c, before, l)
  }

  lemma ProxyStep(c: Codec, a: Sys, b: Sys, before: seq<Step>, cfg: Config, l: Link)
    requires StepOk(c, a, b, before, ApplyStep(cfg)) && ProxyInv(c, a, before, l)
    ensures ProxiesOn(b.net, l) * (SeenProxies(c, before, l) + WantProxies(c, b.saved, l)) ==
            if Reached(a.net, cfg, l) then WantProxies(c, b.saved, l) else {}
    ensures Survives(a.net, a.saved, BuildState(cfg), l) ==>
              ProxiesOn(b.net, l) - (SeenProxies(c, before, l) + WantProxies(c, b.saved, l)) ==
              ProxiesOn(a.net, l) - (SeenProxies(c, before, l) + WantProxies(c, b.saved, l))
  {
    var new_ := BuildState(cfg);
    AppliedLink(a.net, b.net, c, a.saved, cfg, l);
    assert Configured(cfg, l) <==> HasDevice(new_, l.ns, l.dev);
    Settle(c.ip, ProxiesOn(a.net, l), SeenProxies(c, before, l),
           ProxySet(a.saved, l.ns, l.dev), ProxySet(new_, l.ns, l.dev));
    if !Configured(cfg, l) {
      assert ProxySet(new_, l.ns, l.dev) == {} && WantProxies(c, b.saved, l) == {};
      assert ProxySet(a.saved, l.ns, l.dev) - {} == ProxySet(a.saved, l.ns, l.dev);
    }
  }

  lemma {:induction false} ProxyInvariant(c: Codec, trace: seq<Sys>, steps: seq<Step>, l: Link, n: nat)
    requires ValidRun(c, trace, steps) && n <= |steps|
    ensures ProxyInv(c, trace[n], steps[..n], l)
  {
    if n > 0 {
      ProxyInvariant(c, trace, steps, l, n - 1);
      RunStep(c, trace, steps, n - 1);
      if steps[n - 1].ApplyStep? {
        ProxyStep(c, trace[n - 1], trace[n], steps[..n - 1], steps[n - 1].cfg, l);
        SeenAfter(c, steps, n - 1, l, "");
      }
    }
  }

  /** Proxy-NDP entries converge on every link, however devices leave and return, and
      foreign ones on a surviving link are untouched. */
  lemma {:induction false} ProxiesConverge(c: Codec, trace: seq<Sys>, steps: seq<Step>, l: Link, i: nat)
    requires ValidRun(c, trace, steps) && i < |steps| && steps[i].ApplyStep?
    ensures var seen, new_ := SeenProxies(c, steps[..i + 1], l), BuildState(steps[i].cfg);
            && ProxiesOn(trace[i + 1].net, l) * seen ==
               (if Reached(trace[i].net, steps[i].cfg, l) then WantProxies(c, new_, l) else {})
            && (Survives(trace[i].net, trace[i].saved, new_, l) ==>
                  ProxiesOn(trace[i + 1].net, l) - seen == ProxiesOn(trace[i].net, l) - seen)
  {
    ProxyInvariant(c, trace, steps, l, i);
    RunStep(c, trace, steps, i);
    ProxyStep(c, trace[i], trace[i + 1], steps[..i], steps[i].cfg, l);
    SeenAfter(c, steps, i, l, "");
  }

  // ----- Kinds of devices -----

  /** What is recorded of a device, kind by kind. */
  lemma RecordedByKind(cfg: Config, l: Link)
    requires Configured(cfg, l)
    ensures HasDevice(BuildState(cfg), l.ns, l.dev)
    ensures var d, r := cfg[l.ns].devices[l.dev], BuildState(cfg)[l.ns].devices[l.dev];
            && r.routes == d.routes
            && r.addresses == (if d.kind.Vrf? then [] else d.addresses)
            && r.ndProxy == (if d.kind.Ethernet? || d.kind.Bridge? || d.kind.Bond? || d.kind.Vlan? then d.ndProxy else [])
            && r.createdBy == if d.kind.Ethernet? || d.kind.Wifi? then "system" else "netcfg"
  {
  }

  /** Which links an apply creates: a missing ethernet or WiFi device is passed over, every
      other kind gets its link. */
  lemma CreatedByKind(n: Net, n': Net, c: Codec, old_: State, cfg: Config, l: Link)
    requires Applied(n, n', c, old_, cfg) && Configured(cfg, l) && l !in n.links && l.dev != "srv6"
    ensures var kind := cfg[l.ns].devices[l.dev].kind;
            if kind.Ethernet? || kind.Wifi? then l !in n'.links else l in n'.links
  {
    var d :| IsDiff(d, old_, BuildState(cfg)) &&
             Additions(Cleared(n, c, d, old_, BuildState(cfg)), n', c, cfg, cfg.Keys);
    DiffAtLink(d, old_, BuildState(cfg), l);
    ClearedLink(n, c, d, old_, BuildState(cfg), l);
    assert LinkAdded(Cleared(n, c, d, old_, BuildState(cfg)), n', c, cfg, l, l.ns in cfg.Keys);
  }

  /** And which go when their device leaves: a virtual link of a kind that netcfg creates is
      deleted, an ethernet or WiFi link stays while its namespace is configured. */
  lemma LeavesByKind(n: Net, n': Net, c: Codec, cfg: Config, cfg': Config, l: Link)
    requires Applied(n, n', c, BuildState(cfg), cfg') && Configured(cfg, l) && !Configured(cfg', l)
    requires l in n.links && !n.links[l].physical && l.dev != "srv6"
    ensures var kind := cfg[l.ns].devices[l.dev].kind;
            if kind.Ethernet? || kind.Wifi? then (l.ns in cfg' ==> l in n'.links && AddrsOn(n', l) == AddrsOn(n, l))
            else l !in n'.links
  {
    var old_ := BuildState(cfg);
    RecordedByKind(cfg, l);
    LeaverFate(n, n', c, old_, cfg', l);
    WhoStays(Sys(n, old_), cfg', l);
    if Survives(n, old_, BuildState(cfg'), l) {
      StaysWithAddresses(c, Sys(n, old_), Sys(n', BuildState(cfg')), [], cfg', l);
    }
  }

  lemma LeaverFate(n: Net, n': Net, c: Codec, old_: State, cfg: Config, l: Link)
    requires Applied(n, n', c, old_, cfg) && !Configured(cfg, l) && l.dev != "srv6"
    ensures l in n'.links <==> Survives(n, old_, BuildState(cfg), l)
  {
    var d :| IsDiff(d, old_, BuildState(cfg)) &&
             Additions(Cleared(n, c, d, old_, BuildState(cfg)), n', c, cfg, cfg.Keys);
    DiffAtLink(d, old_, BuildState(cfg), l);
    ClearedLink(n, c, d, old_, BuildState(cfg), l);
    assert LinkAdded(Cleared(n, c, d, old_, BuildState(cfg)), n', c, cfg, l, l.ns in cfg.Keys);
  }

  /** Which addresses and proxy entries reach a link, kind by kind. */
  lemma ReachesByKind(n: Net, n': Net, c: Codec, old_: State, cfg: Config, l: Link)
    requires Applied(n, n', c, old_, cfg) && Configured(cfg, l) && l in n.links
    ensures var d := cfg[l.ns].devices[l.dev];
            && (!d.kind.Vrf? ==> Canon(c.addr, Elems(d.addresses)) <= AddrsOn(n', l))
            && (d.kind.Ethernet? || d.kind.Bridge? || d.kind.Bond? || d.kind.Vlan? ==>
                  Canon(c.ip, Elems(d.ndProxy)) <= ProxiesOn(n', l))
  {
    AppliedLink(n, n', c, old_, cfg, l);
    RecordedByKind(cfg, l);
  }

  /** The namespaces after an apply: those that left the configuration are gone, those in
      it exist, the others are as before. */
  lemma AppliedNetns(n: Net, n': Net, c: Codec, old_: State, cfg: Config, ns: string)
    requires Applied(n, n', c, old_, cfg) && ns != ""
    ensures ns in n'.netns <==> ns in cfg || (ns in n.netns && ns !in old_)
  {
    var d :| IsDiff(d, old_, BuildState(cfg)) &&
             Additions(Cleared(n, c, d, old_, BuildState(cfg)), n', c, cfg, cfg.Keys);
    assert ns in Elems(d.nsToRemove) <==> ns in old_ && ns !in BuildState(cfg);
  }

  // ----- Segment identifiers -----

  /** Every identifier of the namespace finds its anchor. */
  ghost predicate AllAnchored(a: Sys, cfg: Config, ns: string) {
    ns in cfg ==> forall s :: s in cfg[ns].sids ==>
      var anchor := Link(ns, Anchor(cfg[ns], s));
      anchor.dev == "" || Virtual(cfg, anchor) || Survives(a.net, a.saved, BuildState(cfg), anchor)
  }

  lemma GoneSidOf(c: Codec, old_: State, new_: State, k: SidKey)
    ensures k in GoneSids(c, old_, new_) <==> k.sid in Canon(c.sid, SidSet(old_, k.ns) - SidSet(new_, k.ns))
  {
    if k.sid in Canon(c.sid, SidSet(old_, k.ns) - SidSet(new_, k.ns)) {
      assert k.ns in old_ && k in LostSids(c, old_, new_, k.ns);
    }
  }

  lemma WantedByConfig(c: Codec, cfg: Config, ns: string, x: Ip)
    requires x in WantSids(c, BuildState(cfg), ns)
    ensures ns in cfg && exists s :: s in cfg[ns].sids && c.sid(s.sid) == Some(x)
  {
  }

  lemma UnwantedSid(m: Net, n': Net, c: Codec, cfg: Config, k: SidKey)
    requires SidsAdded(m, n', c, cfg, cfg.Keys) && k.sid !in WantSids(c, BuildState(cfg), k.ns)
    ensures (k in n'.sids <==> k in m.sids) && (k in n'.sids ==> n'.sids[k] == m.sids[k])
  {
  }

  /** No identifier outside the kept and the wanted ones is left. */
  lemma AppliedSids(n: Net, n': Net, c: Codec, old_: State, cfg: Config, ns: string)
    requires Applied(n, n', c, old_, cfg)
    ensures var new_ := BuildState(cfg);
            SidsOn(n', ns) <= SidsOn(n, ns) - Canon(c.sid, SidSet(old_, ns) - SidSet(new_, ns)) + WantSids(c, new_, ns)
  {
    var new_ := BuildState(cfg);
    var d :| IsDiff(d, old_, new_) && Additions(Cleared(n, c, d, old_, new_), n', c, cfg, cfg.Keys);
    forall x | x in SidsOn(n', ns) && x !in WantSids(c, new_, ns)
      ensures x in SidsOn(n, ns) && x !in Canon(c.sid, SidSet(old_, ns) - SidSet(new_, ns))
    {
      UnwantedSid(Cleared(n, c, d, old_, new_), n', c, cfg, SidKey(ns, x));
      GoneSidOf(c, old_, new_, SidKey(ns, x));
      ClearedSidsShrink(n, c, d, old_, new_, SidKey(ns, x));
    }
  }

  /** Wanted identifiers with an anchor are there. */
  lemma AppliedWantedSids(n: Net, n': Net, c: Codec, old_: State, cfg: Config, ns: string)
    requires Applied(n, n', c, old_, cfg) && AllAnchored(Sys(n, old_), cfg, ns)
    ensures WantSids(c, BuildState(cfg), ns) <= SidsOn(n', ns)
  {
    var new_ := BuildState(cfg);
    var d :| IsDiff(d, old_, new_) && Additions(Cleared(n, c, d, old_, new_), n', c, cfg, cfg.Keys);
    var m := Cleared(n, c, d, old_, new_);
    assert SidsAdded(m, n', c, cfg, cfg.Keys);
    forall x | x in WantSids(c, new_, ns)
      ensures x in SidsOn(n', ns)
    {
      WantedByConfig(c, cfg, ns, x);
      var s :| s in cfg[ns].sids && c.sid(s.sid) == Some(x);
      var anchor := Link(ns, Anchor(cfg[ns], s));
      DiffAtLink(d, old_, new_, anchor);
      ClearedLink(n, c, d, old_, new_, anchor);
      assert Anchored(m, cfg, ns, s);
      assert OnAnchor(n', c, cfg, SidKey(ns, x));
    }
  }

  /** The device an identifier ends up on: its own, else that of the section, else the
      automatic dummy. */
  lemma AnchorRule(n: Net, n': Net, c: Codec, old_: State, cfg: Config, ns: string, s: LocalSid, x: Ip)
    requires Applied(n, n', c, old_, cfg) && AllAnchored(Sys(n, old_), cfg, ns)
    requires ns in cfg && s in cfg[ns].sids && c.sid(s.sid) == Some(x)
    requires forall t :: t in cfg[ns].sids && c.sid(t.sid) == Some(x) ==> t == s
    ensures SidKey(ns, x) in n'.sids
    ensures n'.sids[SidKey(ns, x)] ==
            if s.dev != "" then s.dev else if cfg[ns].sidDevice != "" then cfg[ns].sidDevice else "srv6"
  {
    var new_ := BuildState(cfg);
    var d :| IsDiff(d, old_, new_) && Additions(Cleared(n, c, d, old_, new_), n', c, cfg, cfg.Keys);
    var m := Cleared(n, c, d, old_, new_);
    var anchor := Link(ns, Anchor(cfg[ns], s));
    DiffAtLink(d, old_, new_, anchor);
    ClearedLink(n, c, d, old_, new_, anchor);
    assert SidsAdded(m, n', c, cfg, cfg.Keys) && Anchored(m, cfg, ns, s);
    assert OnAnchor(n', c, cfg, SidKey(ns, x));
  }

  lemma ClearedSidsShrink(n: Net, c: Codec, d: Diff, old_: State, new_: State, k: SidKey)
    requires k in Cleared(n, c, d, old_, new_).sids
    ensures k in n.sids && k !in GoneSids(c, old_, new_)
  {
  }

  /** A foreign identifier: it stays, on the same anchor, exactly while its anchor does. */
  ghost predicate SidUntouched(n: Net, n': Net, old_: State, new_: State, k: SidKey) {
    && (k in n'.sids <==> k in n.sids && Survives(n, old_, new_, Link(k.ns, n.sids[k])))
    && (k in n'.sids ==> n'.sids[k] == n.sids[k])
  }

  lemma ClearedSid(n: Net, c: Codec, d: Diff, old_: State, new_: State, k: SidKey)
    requires IsDiff(d, old_, new_) && Wf(n) && k !in GoneSids(c, old_, new_)
    ensures SidUntouched(n, Cleared(n, c, d, old_, new_), old_, new_, k)
  {
    if k in n.sids {
      var l := Link(k.ns, n.sids[k]);
      DiffAtLink(d, old_, new_, l);
      RemovedLink(n, c, d, old_, new_, l);
    }
  }

  lemma ForeignSid(n: Net, n': Net, c: Codec, old_: State, cfg: Config, k: SidKey)
    requires Applied(n, n', c, old_, cfg) && Wf(n)
    requires k.sid !in WantSids(c, old_, k.ns) && k.sid !in WantSids(c, BuildState(cfg), k.ns)
    ensures SidUntouched(n, n', old_, BuildState(cfg), k)
  {
    var new_ := BuildState(cfg);
    var d :| IsDiff(d, old_, new_) && Additions(Cleared(n, c, d, old_, new_), n', c, cfg, cfg.Keys);
    GoneSidOf(c, old_, new_, k);
    CanonSplit(c.sid, SidSet(old_, k.ns), SidSet(new_, k.ns));
    ClearedSid(n, c, d, old_, new_, k);
    UnwantedSid(Cleared(n, c, d, old_, new_), n', c, cfg, k);
  }

  ghost predicate SidInv(c: Codec, s: Sys, before: seq<Step>, ns: string) {
    SidsOn(s.net, ns) * SeenSids(c, before, ns) <= WantSids(c, s.saved, ns) <= SeenSids(c, before, ns)
  }

  lemma SidStep(c: Codec, a: Sys, b: Sys, before: seq<Step>, cfg: Config, ns: string)
    requires StepOk(c, a, b, before, ApplyStep(cfg)) && SidInv(c, a, before, ns)
    ensures SidsOn(b.net, ns) * (SeenSids(c, before, ns) + WantSids(c, b.saved, ns)) <= WantSids(c, b.saved, ns)
    ensures AllAnchored(a, cfg, ns) ==>
              SidsOn(b.net, ns) * (SeenSids(c, before, ns) + WantSids(c, b.saved, ns)) == WantSids(c, b.saved, ns)
  {
    AppliedSids(a.net, b.net, c, a.saved, cfg, ns);
    if AllAnchored(a, cfg, ns) {
      assert a == Sys(a.net, a.saved);
      AppliedWantedSids(a.net, b.net, c, a.saved, cfg, ns);
    }
    Settle(c.sid, SidsOn(a.net, ns), SeenSids(c, before, ns), SidSet(a.saved, ns), SidSet(b.saved, ns));
  }

  lemma {:induction false} SidInvariant(c: Codec, trace: seq<Sys>, steps: seq<Step>, ns: string, n: nat)
    requires ValidRun(c, trace, steps) && n <= |steps|
    ensures SidInv(c, trace[n], steps[..n], ns)
  {
    if n > 0 {
      SidInvariant(c, trace, steps, ns, n - 1);
      RunStep(c, trace, steps, n - 1);
      if steps[n - 1].ApplyStep? {
        SidStep(c, trace[n - 1], trace[n], steps[..n - 1], steps[n - 1].cfg, ns);
        SeenAfter(c, steps, n - 1, Link("", ""), ns);
      }
    }
  }

  /** Segment identifiers converge in every namespace, however they leave and return:
      none ever configured and now unwanted is left, all wanted ones with an anchor are
      there, and a foreign one is untouched while its anchor stays. */
  lemma {:induction false} SidsConverge(c: Codec, trace: seq<Sys>, steps: seq<Step>, ns: string, i: nat)
    requires ValidRun(c, trace, steps) && i < |steps| && steps[i].ApplyStep?
    ensures var seen, want := SeenSids(c, steps[..i + 1], ns), WantSids(c, BuildState(steps[i].cfg), ns);
            && SidsOn(trace[i + 1].net, ns) * seen <= want
            && (AllAnchored(trace[i], steps[i].cfg, ns) ==> SidsOn(trace[i + 1].net, ns) * seen == want)
    ensures forall x :: x !in SeenSids(c, steps[..i + 1], ns) ==>
              SidUntouched(trace[i].net, trace[i + 1].net, trace[i].saved, BuildState(steps[i].cfg), SidKey(ns, x))
  {
    SidInvariant(c, trace, steps, ns, i);
    RunStep(c, trace, steps, i);
    SidStep(c, trace[i], trace[i + 1], steps[..i], steps[i].cfg, ns);
    SeenAfter(c, steps, i, Link("", ""), ns);
    forall x | x !in SeenSids(c, steps[..i + 1], ns)
      ensures SidUntouched(trace[i].net, trace[i + 1].net, trace[i].saved, BuildState(steps[i].cfg), SidKey(ns, x))
    {
      ForeignSid(trace[i].net, trace[i + 1].net, c, trace[i].saved, steps[i].cfg, SidKey(ns, x));
    }
  }

  // ----- The program makes such runs -----

  lemma RunGrows(c: Codec, trace: seq<Sys>, steps: seq<Step>, b: Sys, step: Step)
    requires ValidRun(c, trace, steps) && StepOk(c, trace[|steps|], b, steps, step) && Wf(b.net)
    ensures ValidRun(c, trace + [b], steps + [step])
  {
    var trace', steps' := trace + [b], steps + [step];
    forall i | 0 <= i < |steps'|
      ensures StepAt(c, trace', steps', i)
    {
      assert steps'[..i] == steps[..i];
      assert i < |steps| ==> StepAt(c, trace, steps, i);
      assert steps[..|steps|] == steps;
    }
  }

  /** From wherever a run has come, the next apply is a step of the run. */
  method ApplyNext(h: Host, saved: State, cfg: Config, ghost trace: seq<Sys>, ghost steps: seq<Step>) returns (saved': State)
    requires Wf(h.net) && ValidCodec(h.codec) && ValidProxies(h.codec, BuildState(cfg))
    requires ValidRun(h.codec, trace, steps) && trace[|steps|] == Sys(h.net, saved)
    modifies h
    ensures Wf(h.net) && ValidRun(h.codec, trace + [Sys(h.net, saved')], steps + [ApplyStep(cfg)])
  {
    saved' := Apply(h, saved, cfg);
    RunGrows(h.codec, trace, steps, Sys(h.net, saved'), ApplyStep(cfg));
  }

  /** Applies one configuration after another, on whatever network it finds. */
  method ApplyRun(h: Host, cfgs: seq<Config>) returns (saved: State, ghost trace: seq<Sys>, ghost steps: seq<Step>)
    requires Wf(h.net) && ValidCodec(h.codec)
    requires forall k :: 0 <= k < |cfgs| ==> ValidProxies(h.codec, BuildState(cfgs[k]))
    modifies h
    ensures Wf(h.net) && |steps| == |cfgs| && ValidRun(h.codec, trace, steps)
    ensures trace[|cfgs|] == Sys(h.net, saved)
    ensures forall k :: 0 <= k < |cfgs| ==> steps[k] == ApplyStep(cfgs[k])
  {
    saved := map[];
    trace, steps := [Sys(h.net, saved)], [];
    for k := 0 to |cfgs|
      invariant Wf(h.net) && |steps| == k && ValidRun(h.codec, trace, steps)
      invariant trace[k] == Sys(h.net, saved)
      invariant forall j :: 0 <= j < k ==> steps[j] == ApplyStep(cfgs[j])
    {
      saved := ApplyNext(h, saved, cfgs[k], trace, steps);
      trace, steps := trace + [Sys(h.net, saved)], steps + [ApplyStep(cfgs[k])];
    }
  }

  /** So after the last of them the kernel holds what it says, of all that was configured
      on the way. */
  method ApplyEnds(h: Host, cfgs: seq<Config>, l: Link) returns (saved: State, ghost trace: seq<Sys>, ghost steps: seq<Step>)
    requires Wf(h.net) && ValidCodec(h.codec) && cfgs != []
    requires forall k :: 0 <= k < |cfgs| ==> ValidProxies(h.codec, BuildState(cfgs[k]))
    modifies h
    ensures |trace| == |steps| + 1 && |steps| == |cfgs| && trace[|cfgs|] == Sys(h.net, saved)
    ensures var last, was := cfgs[|cfgs| - 1], trace[|cfgs| - 1].net;
            && (Clean(h.codec, trace, steps, l, |cfgs|) ==>
                  AddrsOn(h.net, l) * SeenAddrs(h.codec, steps, l) ==
                  if Reached(was, last, l) then WantAddrs(h.codec, BuildState(last), l) else {})
            && ProxiesOn(h.net, l) * SeenProxies(h.codec, steps, l) ==
               (if Reached(was, last, l) then WantProxies(h.codec, BuildState(last), l) else {})
            && SidsOn(h.net, l.ns) * SeenSids(h.codec, steps, l.ns) <= WantSids(h.codec, BuildState(last), l.ns)
  {
    saved, trace, steps := ApplyRun(h, cfgs);
    var i := |cfgs| - 1;
    assert steps[..i + 1] == steps;
    if Clean(h.codec, trace, steps, l, |cfgs|) {
      Converges(h.codec, trace, steps, l, i);
    }
    ProxiesConverge(h.codec, trace, steps, l, i);
    SidsConverge(h.codec, trace, steps, l.ns, i);
  }

  // ----- A run that leaks -----

  const ETH := Link("", "eth0")

  function Addressed(address: string): Config {
    map["" := NsConfig(map["eth0" := DeviceConfig(Ethernet, [address], [], [])], "", [])]
  }

  const BARE: Config := map["" := NsConfig(map[], "", [])]

  lemma AddressedWants(c: Codec, address: string)
    requires c.addr(address).Some?
    ensures WantAddrs(c, BuildState(Addressed(address)), ETH) == {c.addr(address).value}
    ensures ValidProxies(c, BuildState(Addressed(address)))
  {
    var s := BuildState(Addressed(address));
    assert s[""].devices["eth0"] == DeviceState([address], [], [], SYSTEM);
    assert AddressSet(s, "", "eth0") == {address};
  }

  lemma BareWants(c: Codec)
    ensures ValidProxies(c, BuildState(BARE)) && ValidProxies(c, BuildState(map[]))
  {
  }

  /** The first apply gives a bare physical link exactly what is wanted. */
  lemma FirstApply(c: Codec, n: Net, n': Net, cfg: Config, l: Link)
    requires Applied(n, n', c, map[], cfg) && Configured(cfg, l)
    requires l in n.links && n.links[l] == LinkState(true, {}, {})
    ensures l in n'.links && n'.links[l].physical && AddrsOn(n', l) == WantAddrs(c, BuildState(cfg), l)
  {
    AppliedLink(n, n', c, map[], cfg, l);
    PhysicalStays(n, n', c, map[], cfg, l);
  }

  /** An apply that takes a physical device out of the default namespace leaves its addresses. */
  lemma SecondApply(c: Codec, n: Net, n': Net, old_: State, cfg: Config, l: Link)
    requires Applied(n, n', c, old_, cfg) && !Configured(cfg, l) && HasDevice(old_, l.ns, l.dev)
    requires l.ns == "" && l in n.links && n.links[l].physical
    ensures AddrsOn(n', l) == AddrsOn(n, l)
  {
    WhoStays(Sys(n, old_), cfg, l);
    StaysWithAddresses(c, Sys(n, old_), Sys(n', BuildState(cfg)), [], cfg, l);
  }

  /** A physical device gets an address and leaves the configuration: the address stays,
      whether the default namespace keeps a section or not. */
  method LeakingRun(h: Host, address: string, section: bool)
    requires ValidCodec(h.codec) && h.codec.addr(address).Some?
    requires h.net == Net({}, map[ETH := LinkState(true, {}, {})], map[])
    modifies h
    ensures AddrsOn(h.net, ETH) == {h.codec.addr(address).value}
  {
    AddressedWants(h.codec, address);
    BareWants(h.codec);
    ghost var n := h.net;
    var saved := Apply(h, map[], Addressed(address));
    FirstApply(h.codec, n, h.net, Addressed(address), ETH);
    n := h.net;
    var last: Config := if section then BARE else map[];
    ghost var old_ := saved;
    saved := Apply(h, saved, last);
    SecondApply(h.codec, n, h.net, old_, last, ETH);
  }

  lemma PhysicalStays(n: Net, n': Net, c: Codec, old_: State, cfg: Config, l: Link)
    requires Applied(n, n', c, old_, cfg) && Configured(cfg, l) && l in n.links
    ensures l in n'.links && n'.links[l].physical == n.links[l].physical && Survives(n, old_, BuildState(cfg), l)
  {
    var d :| IsDiff(d, old_, BuildState(cfg)) &&
             Additions(Cleared(n, c, d, old_, BuildState(cfg)), n', c, cfg, cfg.Keys);
    DiffAtLink(d, old_, BuildState(cfg), l);
    ClearedLink(n, c, d, old_, BuildState(cfg), l);
    assert LinkAdded(Cleared(n, c, d, old_, BuildState(cfg)), n', c, cfg, l, l.ns in cfg.Keys);
  }
}
