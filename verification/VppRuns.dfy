/** Runs of setupVPP (cmd/vpp.go): apply, then reap against the recorded state, then
    record.  Interfaces are applied by tag but some are deleted by the recorded handle,
    so everything depends on the records telling the truth. */
module VppRuns {
  import opened Collections
  import opened VppApplier
  import opened VppReaper
  import Reconciler

  // ----- buildDesiredVPPState -----

  function Plain(typ: DevType): DevInfo {
    DevInfo(typ, "", 0, 0, "", "", 0)
  }

  function InfoOf(d: Device): DevInfo {
    match d
    case AfPacketPort(host) => Plain(AfPacketDev).(hostIf := host)
    case LoopbackPort => Plain(LoopbackDev)
    case AvfPort => Plain(AvfDev)
    case DpdkPort => Plain(DpdkDev)
    case OtherPort => Plain(OtherDev)
    case BondDevice(_) => Plain(BondDev)
    case VlanDevice(_) => Plain(VlanDev)
    case VxlanDevice(id, local, remote, destPort, port) =>
      DevInfo(VxlanDev, "", 0, id % TWO32, local, remote, if destPort == 0 then port else destPort)
    case BridgeDevice(bd, _, _, _) => Plain(BridgeDev).(bdId := bd)
  }

  function TapInfo(tap: string): DevInfo {
    Plain(NdpTapDev).(hostIf := tap)
  }

  /** What is recorded for a configuration. */
  function Entries(cfg: VppConfig): Devices {
    map n | n in cfg.Keys + Bvis(cfg) + Taps(cfg) ::
      if n in cfg then InfoOf(cfg[n]) else if n in Bvis(cfg) then Plain(LoopbackDev) else TapInfo(n)
  }

  lemma EntriesAt(cfg: VppConfig, boot: set<string>, n: string)
    requires ValidConfig(cfg, boot)
    ensures n in cfg ==> n in Entries(cfg) && Entries(cfg)[n] == InfoOf(cfg[n])
    ensures n in Bvis(cfg) ==> n in Entries(cfg) && Entries(cfg)[n] == Plain(LoopbackDev)
    ensures n in Taps(cfg) ==> n in Entries(cfg) && Entries(cfg)[n] == TapInfo(n)
  {
  }

  /** The entries one device contributes. */
  method AddEntries(devs: Devices, cfg: VppConfig, n: string, ghost boot: set<string>) returns (devs': Devices)
    requires ValidConfig(cfg, boot) && n in cfg
    ensures forall m :: m in devs' <==> m in devs || m in EntriesOf(n, cfg[n])
    ensures forall m :: m in EntriesOf(n, cfg[n]) ==> m in Entries(cfg) && devs'[m] == Entries(cfg)[m]
    ensures forall m :: m in devs && m !in EntriesOf(n, cfg[n]) ==> devs'[m] == devs[m]
  {
    devs' := devs[n := InfoOf(cfg[n])];
    EntriesAt(cfg, boot, n);
    if cfg[n].BridgeDevice? {
      if cfg[n].bvi {
        assert BviName(n) in Bvis(cfg);
        EntriesAt(cfg, boot, BviName(n));
        devs' := devs'[BviName(n) := Plain(LoopbackDev)];
      }
      if cfg[n].tap.Some? {
        assert cfg[n].tap.value in Taps(cfg);
        EntriesAt(cfg, boot, cfg[n].tap.value);
        devs' := devs'[cfg[n].tap.value := TapInfo(cfg[n].tap.value)];
      }
    }
  }

  method BuildDesired(cfg: VppConfig, ghost boot: set<string>) returns (devs: Devices)
    requires ValidConfig(cfg, boot)
    ensures devs == Entries(cfg)
  {
    devs := map[];
    var rest := cfg.Keys;
    while rest != {}
      invariant rest <= cfg.Keys
      invariant forall n :: n in devs <==> Made(cfg, rest, n)
      invariant forall n :: n in devs ==> n in Entries(cfg) && devs[n] == Entries(cfg)[n]
    {
      var n :| n in rest;
      ghost var before := rest;
      rest := rest - {n};
      MadeStep(cfg, before, n);
      devs := AddEntries(devs, cfg, n, boot);
    }
    EntriesMade(cfg);
    assert devs == Entries(cfg);
  }

  /** An entry of a device visited so far. */
  ghost predicate Made(cfg: VppConfig, rest: set<string>, n: string) {
    exists b :: b in cfg && b !in rest && n in EntriesOf(b, cfg[b])
  }

  function EntriesOf(b: string, d: Device): set<string> {
    {b} + (if d.BridgeDevice? && d.bvi then {BviName(b)} else {}) +
    (if d.BridgeDevice? && d.tap.Some? then {d.tap.value} else {})
  }

  lemma EntriesMade(cfg: VppConfig)
    ensures forall n :: n in Entries(cfg) <==> Made(cfg, {}, n)
  {
  }

  lemma MadeStep(cfg: VppConfig, rest: set<string>, b: string)
    requires b in rest && b in cfg
    ensures forall n :: Made(cfg, rest - {b}, n) <==> Made(cfg, rest, n) || n in EntriesOf(b, cfg[b])
  {
    forall n
      ensures Made(cfg, rest - {b}, n) <==> Made(cfg, rest, n) || n in EntriesOf(b, cfg[b])
    {
      if Made(cfg, rest - {b}, n) && n !in EntriesOf(b, cfg[b]) {
        var x :| x in cfg && x !in rest - {b} && n in EntriesOf(x, cfg[x]);
        assert x !in rest;
      }
    }
  }

  /** A tunnel is recorded with the port it was created with. */
  predicate Truthful(d: Device) {
    d.VxlanDevice? ==> CreatedPort(d.destPort, d.port) == PortOf(InfoOf(d).port)
  }

  /** The two port rules differ only for a negative destination port beside a positive one. */
  lemma TruthfulIff(d: Device)
    ensures Truthful(d) <==> !(d.VxlanDevice? && d.destPort < 0 < d.port && d.port % 65536 != 4789)
  {
  }

  ghost predicate AllTruthful(cfg: VppConfig) {
    forall n :: n in cfg ==> Truthful(cfg[n])
  }

  /** What is recorded for a wanted interface is what it would be created as, and nothing
      else is recorded as an interface. */
  lemma EntrySpec(parse: Parser, cfg: VppConfig, boot: set<string>, n: string)
    requires ValidConfig(cfg, boot) && AllTruthful(cfg)
    ensures n in IfaceTags(cfg) ==> n in Entries(cfg) && Recorded(parse, Entries(cfg)[n]) == Some(Specs(parse, cfg)[n])
    ensures n in Entries(cfg) && n !in IfaceTags(cfg) ==> Recorded(parse, Entries(cfg)[n]) == None
  {
    EntriesAt(cfg, boot, n);
    SpecsByKind(parse, cfg, boot, n);
    if n in cfg {
      DeviceRecorded(parse, cfg[n]);
    }
  }

  lemma SpecsByKind(parse: Parser, cfg: VppConfig, boot: set<string>, n: string)
    requires ValidConfig(cfg, boot)
    ensures n in IfaceTags(cfg) <==> (n in cfg && cfg[n].HasIface()) || n in Bvis(cfg) || n in Taps(cfg)
    ensures n in cfg && cfg[n].HasIface() ==> Specs(parse, cfg)[n] == SpecFor(parse, cfg[n])
    ensures n in Bvis(cfg) ==> Specs(parse, cfg)[n] == Spec(Loopback, NoHandle)
    ensures n in Taps(cfg) ==> Specs(parse, cfg)[n] == Spec(NdpTap, NoHandle)
  {
  }

  lemma DeviceRecorded(parse: Parser, d: Device)
    requires Truthful(d)
    ensures Recorded(parse, InfoOf(d)) == if d.HasIface() then Some(SpecFor(parse, d)) else None
  {
  }

  // ----- When records tell the truth -----

  /** The records of a configuration tell the truth about the interfaces its apply leaves
      exactly when they do about those it finds: nothing there changed its kind or handle
      under its name. */
  lemma {:induction false} RecordsStayTrue(parse: Parser, a: Ifs, b: Ifs, boot: set<string>, cfg: VppConfig)
    requires ValidConfig(cfg, boot) && AllTruthful(cfg) && Grown(a, b, Specs(parse, cfg))
    ensures OwnHandles(parse, Entries(cfg), b) <==> OwnHandles(parse, Entries(cfg), a)
  {
    assert "" !in Entries(cfg);
    if OwnHandles(parse, Entries(cfg), b) {
      forall i | i in a && a[i].tag in Entries(cfg)
        ensures Recorded(parse, Entries(cfg)[a[i].tag]) == Some(SpecOf(a[i]))
      {
        assert b[i].tag == a[i].tag && SpecOf(b[i]) == SpecOf(a[i]);
      }
    }
    if OwnHandles(parse, Entries(cfg), a) {
      forall i | i in b && b[i].tag in Entries(cfg)
        ensures Recorded(parse, Entries(cfg)[b[i].tag]) == Some(SpecOf(b[i]))
      {
        EntrySpec(parse, cfg, boot, b[i].tag);
      }
    }
  }

  // ----- The cache across the reap -----

  /** Deletion never evicts: after the reap the cache is coherent exactly when no cached
      name belongs to an interface that some orphan's handle fits. */
  lemma ReapCoherence(idx: map<string, nat>, p: Plane, parse: Parser, prev: Devices, desired: Devices, log: seq<string>)
    requires IsReapLog(log, prev, desired) && Coherent(idx, p.ifs)
    ensures Coherent(idx, DeletedAll(p, parse, prev, log).ifs) <==>
            forall name :: name in idx && name != "" ==>
              !Claimed(parse, prev, Orphans(prev, desired, UNLISTED), p.ifs[idx[name]])
  {
    ReapExact(p, parse, prev, desired, log);
  }

  /** The name is an orphan that gets deleted. */
  predicate Doomed(prev: Devices, desired: Devices, name: string) {
    name in prev && name !in desired && Rank(prev[name].typ) < UNLISTED && !Kept(prev[name])
  }

  /** Every interface under a name of either record is what that record says, no orphan
      shares its handle with a desired device, and none fits an unrecorded interface. */
  ghost predicate TrueRecords(parse: Parser, prev: Devices, desired: Devices, ifs: Ifs) {
    && (forall i :: i in ifs && ifs[i].tag in prev && ifs[i].tag !in desired ==>
          Recorded(parse, prev[ifs[i].tag]) == Some(SpecOf(ifs[i])))
    && OwnHandles(parse, desired, ifs)
    && (forall m :: m in desired ==> HandleApart(parse, prev, desired, m))
    && (forall i :: i in ifs && ifs[i].tag !in prev && ifs[i].tag !in desired ==>
          !Claimed(parse, prev, Orphans(prev, desired, UNLISTED), ifs[i]))
  }

  /** When the records tell the truth, an interface is deleted exactly when its name is doomed. */
  lemma ClaimedIffDoomed(p: Plane, parse: Parser, prev: Devices, desired: Devices, log: seq<string>, i: nat)
    requires IsReapLog(log, prev, desired) && TrueRecords(parse, prev, desired, p.ifs) && i in p.ifs
    ensures Claimed(parse, prev, Orphans(prev, desired, UNLISTED), p.ifs[i]) <==> Doomed(prev, desired, p.ifs[i].tag)
  {
    var n := p.ifs[i].tag;
    if n in desired {
      UnclaimedIff(parse, prev, desired, p.ifs[i]);
    } else if n in prev {
      assert Recorded(parse, prev[n]).Some?;
      ReapedByTag(p, parse, prev, desired, log, i);
      NoOrphanLeft(p, parse, prev, desired, log, i);
    }
  }

  datatype ProxyItem = ProxyItem(iface: string, ip: string)

  function ProxyKey(it: ProxyItem): string {
    Reconciler.ProxyKey(it.iface, it.ip)
  }

  function ProxyKeys(items: seq<ProxyItem>): set<string> {
    set it | it in items :: ProxyKey(it)
  }

  /** The interfaces of recorded proxy entries that are not desired any more. */
  function StaleOn(prev: seq<ProxyItem>, desired: seq<ProxyItem>): set<string> {
    set it | it in prev && ProxyKey(it) !in ProxyKeys(desired) :: it.iface
  }

  /** By key is by interface and address, as no address contains the separator. */
  lemma StaleByItem(prev: seq<ProxyItem>, desired: seq<ProxyItem>, it: ProxyItem)
    requires it in prev && '|' !in it.ip && forall d :: d in desired ==> '|' !in d.ip
    ensures ProxyKey(it) in ProxyKeys(desired) <==> it in desired
    ensures it !in desired ==> it.iface in StaleOn(prev, desired)
  {
    if ProxyKey(it) in ProxyKeys(desired) {
      var d :| d in desired && ProxyKey(d) == ProxyKey(it);
      Reconciler.ProxyKeyInjective(it.iface, it.ip, d.iface, d.ip);
    }
  }

  /** reapVPPNDProxyOrphans: what it leaves in the cache is exactly the interfaces of the
      entries it deletes, as far as they exist. */
  method ReapProxies(a: Applier, prev: seq<ProxyItem>, desired: seq<ProxyItem>)
    requires a.Valid() && forall it :: it in prev ==> it.iface != ""
    modifies a
    ensures a.Valid()
    ensures forall name :: name in a.idx <==>
              name in old(a.idx) || (name in StaleOn(prev, desired) && name in Tags(a.vpp.ifs))
  {
    var want := ProxyKeys(desired);
    assert StaleOn(prev[..0], desired) == {};
    for k := 0 to |prev|
      invariant a.Valid()
      invariant forall name :: name in a.idx <==>
                  name in old(a.idx) || (name in StaleOn(prev[..k], desired) && name in Tags(a.vpp.ifs))
    {
      var it := prev[k];
      assert it in prev;
      StaleStep(prev, desired, k);
      if ProxyKey(it) !in want {
        ghost var before := a.idx;
        var r := a.Resolve(it.iface);
        assert it.iface in before ==> it.iface in Tags(a.vpp.ifs);
        assert r.Some? <==> it.iface in Tags(a.vpp.ifs);
      }
    }
    assert prev[..|prev|] == prev;
  }

  lemma StaleStep(prev: seq<ProxyItem>, desired: seq<ProxyItem>, k: nat)
    requires k < |prev|
    ensures StaleOn(prev[..k + 1], desired) ==
            StaleOn(prev[..k], desired) + (if ProxyKey(prev[k]) in ProxyKeys(desired) then {} else {prev[k].iface})
  {
    assert prev[..k + 1] == prev[..k] + [prev[k]];
  }

  /** What both reapers leave of a plane. */
  ghost predicate Reaped(p: Plane, q: Plane, parse: Parser, prev: Devices, desired: Devices) {
    var orphans := Orphans(prev, desired, UNLISTED);
    && q.ifs == Unclaimed(p.ifs, parse, prev, orphans)
    && forall bd :: bd in q.bds <==> bd in p.bds && !(DropsDomain(parse, prev, orphans, bd) && !Occupied(q.ifs, bd))
  }

  /** Both reapers.  With true records the cache stays coherent exactly when neither a name
      in it nor the interface of a stale proxy entry is an orphan that gets deleted. */
  method ReapAll(a: Applier, prev: Devices, desired: Devices, proxies: seq<ProxyItem>, wanted: seq<ProxyItem>)
    requires a.Valid() && (forall n :: n in prev ==> n != "") && forall it :: it in proxies ==> it.iface != ""
    modifies a, a.vpp`ifs, a.vpp`bds
    ensures Reaped(old(PlaneOf(a.vpp)), PlaneOf(a.vpp), a.vpp.parse, prev, desired) && Sound(a.vpp)
    ensures old(a.idx).Keys <= a.idx.Keys && Coherent(a.idx, old(a.vpp.ifs))
    ensures TrueRecords(a.vpp.parse, prev, desired, old(a.vpp.ifs)) ==>
              (a.Valid() <==>
               forall n :: n in old(a.idx) || (n in StaleOn(proxies, wanted) && n in Tags(old(a.vpp.ifs))) ==>
                 !Doomed(prev, desired, n))
  {
    ReapProxies(a, proxies, wanted);
    ghost var p := PlaneOf(a.vpp);
    var log := ReapOrphans(a, prev, desired);
    ReapExact(p, a.vpp.parse, prev, desired, log);
    ReapCoherence(a.idx, p, a.vpp.parse, prev, desired, log);
    if TrueRecords(a.vpp.parse, prev, desired, p.ifs) {
      forall n | n in a.idx && n != ""
        ensures Claimed(a.vpp.parse, prev, Orphans(prev, desired, UNLISTED), p.ifs[a.idx[n]]) <==> Doomed(prev, desired, n)
      {
        ClaimedIffDoomed(p, a.vpp.parse, prev, desired, log, a.idx[n]);
      }
    }
  }

  /** Staleness by the program's own steps: the entry's interface is resolved, the orphan
      deleted by its record, and resolving again answers an index that is gone. */
  method StaleAfterReap(a: Applier, orphan: string, info: DevInfo) returns (stale: Option<nat>, found: Option<nat>)
    requires a.Valid() && orphan != "" && orphan in Tags(a.vpp.ifs) && !Kept(info)
    requires forall i :: i in a.vpp.ifs && a.vpp.ifs[i].tag == orphan ==>
               Recorded(a.vpp.parse, info) == Some(SpecOf(a.vpp.ifs[i]))
    modifies a, a.vpp
    ensures stale.Some? && stale.value !in a.vpp.ifs && found.None? && !a.Valid()
  {
    var i := a.Resolve(orphan);
    RecordNames(a.vpp.parse, orphan, info, a.vpp.ifs[i.value]);
    Delete(a, orphan, info);
    stale := a.Resolve(orphan);
    found := a.FindByTag(orphan);
    assert !Finds(a.vpp.ifs, orphan, stale);
  }

  // ----- One setup -----

  /** What one setup makes of VPP, through the plane `mid` that its apply phase leaves. */
  ghost predicate SetUpVia(a: Plane, mid: Plane, b: Plane, parse: Parser, prev: Devices, cfg: VppConfig, ok: bool) {
    && Grown(a.ifs, mid.ifs, Specs(parse, cfg)) && a.bds <= mid.bds <= a.bds + Domains(cfg)
    && (ok ==> IfaceTags(cfg) <= Tags(mid.ifs) && Domains(cfg) <= mid.bds)
    && Reaped(mid, b, parse, prev, Entries(cfg))
  }

  /** setupVPP, with the names that NAT rules and proxy entries look up.  The applier goes
      on to the NAT reaper: its cache is still right exactly when no name resolved on the
      way was an orphan that got deleted. */
  method SetupVpp(v: Dataplane, prev: Devices, proxies: seq<ProxyItem>, cfg: VppConfig, looked: seq<string>,
                  wanted: seq<ProxyItem>)
    returns (a: Applier, saved: Devices, ok: bool, ghost mid: Plane, ghost cached: set<string>)
    requires Sound(v) && ValidConfig(cfg, v.boot) && forall m :: m in looked ==> m != ""
    requires (forall n :: n in prev ==> n != "") && forall it :: it in proxies ==> it.iface != ""
    modifies v
    ensures fresh(a) && a.vpp == v && Sound(v) && saved == Entries(cfg)
    ensures SetUpVia(old(PlaneOf(v)), mid, PlaneOf(v), v.parse, prev, cfg, ok)
    ensures ok ==> WellPlaced(mid.ifs, cfg) && TapsPlaced(mid.ifs, cfg)
    ensures v.failures >= old(v.failures) && (Feasible(old(v.ifs), v.parse, cfg) && v.failures == old(v.failures) ==> ok)
    ensures cached <= Mentioned(cfg) + Elems(looked) && Cached(cached, looked, old(v.ifs))
    ensures ok ==> forall n :: n in cfg ==> Cached(cached, MembersOf(cfg[n]), old(v.ifs))
    ensures cached <= a.idx.Keys && Coherent(a.idx, mid.ifs)
    ensures TrueRecords(v.parse, prev, saved, mid.ifs) ==>
              (a.Valid() <==>
               forall n :: n in cached || (n in StaleOn(proxies, wanted) && n in Tags(mid.ifs)) ==> !Doomed(prev, saved, n))
  {
    a := new Applier(v);
    ok := a.ApplyAll(cfg, looked);
    mid, cached := PlaneOf(v), a.idx.Keys;
    saved := BuildDesired(cfg, v.boot);
    ReapAll(a, prev, saved, proxies, wanted);
  }

  // ----- One setup, seen from one name -----

  /** There is an interface under the tag, and it is the one described. */
  ghost predicate Holds(ifs: Ifs, tag: string, spec: Spec) {
    tag in Tags(ifs) && forall i :: i in ifs && ifs[i].tag == tag ==> SpecOf(ifs[i]) == spec
  }

  predicate Fits(k: Key, tag: string, spec: Spec) {
    match k
    case ByTag(kind, t) => spec.kind == kind && t == tag
    case ByHandle(kind, handle) => spec == Spec(kind, handle)
    case _ => false
  }

  /** Some orphan's handle fits what is under the tag. */
  ghost predicate Hit(parse: Parser, prev: Devices, desired: Devices, tag: string, spec: Spec) {
    exists n :: n in Orphans(prev, desired, UNLISTED) && Fits(DeleteKey(parse, n, prev[n]), tag, spec)
  }

  lemma HitIffClaimed(parse: Parser, prev: Devices, desired: Devices, f: Iface)
    ensures Claimed(parse, prev, Orphans(prev, desired, UNLISTED), f) <==> Hit(parse, prev, desired, f.tag, SpecOf(f))
  {
    if Claimed(parse, prev, Orphans(prev, desired, UNLISTED), f) {
      var n :| n in Orphans(prev, desired, UNLISTED) && n in prev && Matches(DeleteKey(parse, n, prev[n]), f);
      assert Fits(DeleteKey(parse, n, prev[n]), f.tag, SpecOf(f));
    }
    if Hit(parse, prev, desired, f.tag, SpecOf(f)) {
      var n :| n in Orphans(prev, desired, UNLISTED) && Fits(DeleteKey(parse, n, prev[n]), f.tag, SpecOf(f));
      assert Matches(DeleteKey(parse, n, prev[n]), f);
    }
  }

  /** What is there stays what it is through the apply, and goes in the reap exactly when hit. */
  lemma SetUpHeld(a: Plane, mid: Plane, b: Plane, parse: Parser, prev: Devices, cfg: VppConfig, ok: bool, tag: string, spec: Spec)
    requires SetUpVia(a, mid, b, parse, prev, cfg, ok) && tag != "" && Holds(a.ifs, tag, spec)
    ensures Holds(mid.ifs, tag, spec)
    ensures if Hit(parse, prev, Entries(cfg), tag, spec) then tag !in Tags(b.ifs) else Holds(b.ifs, tag, spec)
  {
    TagsKept(a.ifs, mid.ifs, Specs(parse, cfg), tag);
    forall i | i in mid.ifs && mid.ifs[i].tag == tag
      ensures SpecOf(mid.ifs[i]) == spec
      ensures i in b.ifs <==> !Hit(parse, prev, Entries(cfg), tag, spec)
    {
      assert i in a.ifs && SpecOf(mid.ifs[i]) == SpecOf(a.ifs[i]);
      HitIffClaimed(parse, prev, Entries(cfg), mid.ifs[i]);
    }
    var i :| i in mid.ifs && mid.ifs[i].tag == tag;
    assert i in b.ifs ==> b.ifs[i].tag in Tags(b.ifs);
  }

  /** What is missing is created as asked, and stays unless hit. */
  lemma SetUpMade(a: Plane, mid: Plane, b: Plane, parse: Parser, prev: Devices, cfg: VppConfig, tag: string)
    requires SetUpVia(a, mid, b, parse, prev, cfg, true) && tag in IfaceTags(cfg) && tag !in Tags(a.ifs)
    ensures Holds(mid.ifs, tag, Specs(parse, cfg)[tag])
    ensures !Hit(parse, prev, Entries(cfg), tag, Specs(parse, cfg)[tag]) ==> Holds(b.ifs, tag, Specs(parse, cfg)[tag])
  {
    var spec := Specs(parse, cfg)[tag];
    forall i | i in mid.ifs && mid.ifs[i].tag == tag
      ensures SpecOf(mid.ifs[i]) == spec
      ensures i in b.ifs <==> !Hit(parse, prev, Entries(cfg), tag, spec)
    {
      assert i in a.ifs ==> a.ifs[i].tag in Tags(a.ifs);
      HitIffClaimed(parse, prev, Entries(cfg), mid.ifs[i]);
    }
    var i :| i in mid.ifs && mid.ifs[i].tag == tag;
    assert i in b.ifs ==> b.ifs[i].tag in Tags(b.ifs);
  }

  // ----- Setups that go wrong -----

  /** One setup of a name that is there. */
  method SetupHeld(v: Dataplane, prev: Devices, cfg: VppConfig, ghost tag: string, ghost spec: Spec)
    returns (saved: Devices, ok: bool)
    requires Sound(v) && ValidConfig(cfg, v.boot) && "" !in prev && tag != "" && Holds(v.ifs, tag, spec)
    modifies v
    ensures Sound(v) && saved == Entries(cfg)
    ensures if Hit(v.parse, prev, Entries(cfg), tag, spec) then tag !in Tags(v.ifs) else Holds(v.ifs, tag, spec)
  {
    ghost var p := PlaneOf(v);
    var a, now, done, mid, cached := SetupVpp(v, prev, [], cfg, [], []);
    saved, ok := now, done;
    SetUpHeld(p, mid, PlaneOf(v), v.parse, prev, cfg, ok, tag, spec);
  }

  /** A first setup. */
  method SetupFirst(v: Dataplane, cfg: VppConfig, ghost tag: string) returns (saved: Devices, ok: bool)
    requires Sound(v) && ValidConfig(cfg, v.boot) && tag in IfaceTags(cfg) && tag !in Tags(v.ifs)
    modifies v
    ensures Sound(v) && saved == Entries(cfg)
    ensures ok ==> Holds(v.ifs, tag, Specs(v.parse, cfg)[tag])
  {
    ghost var p := PlaneOf(v);
    var a, now, done, mid, cached := SetupVpp(v, map[], [], cfg, [], []);
    saved, ok := now, done;
    if ok {
      SetUpMade(p, mid, PlaneOf(v), v.parse, map[], cfg, tag);
    }
  }

  ghost predicate Simple(d: Device) {
    d.HasIface() && !d.DpdkPort? && d.NamesOk()
  }

  lemma PairConfig(parse: Parser, boot: set<string>, n: string, d: Device, m: string, e: Device)
    requires n != "" && m != "" && n != m && Simple(d) && Simple(e)
    ensures var cfg: VppConfig := map[n := d, m := e];
            && ValidConfig(cfg, boot) && IfaceTags(cfg) == {n, m} && Specs(parse, cfg)[n] == SpecFor(parse, d)
            && Entries(cfg) == map[n := InfoOf(d), m := InfoOf(e)]
  {
    var cfg: VppConfig := map[n := d, m := e];
    assert cfg[n] == d && cfg[m] == e;
    NoBridges(parse, cfg, boot);
  }

  lemma OneConfig(parse: Parser, boot: set<string>, n: string, d: Device)
    requires n != "" && Simple(d)
    ensures var cfg: VppConfig := map[n := d];
            && ValidConfig(cfg, boot) && IfaceTags(cfg) == {n} && Specs(parse, cfg)[n] == SpecFor(parse, d)
            && Entries(cfg) == map[n := InfoOf(d)]
  {
    var cfg: VppConfig := map[n := d];
    assert cfg[n] == d;
    NoBridges(parse, cfg, boot);
  }

  /** A configuration without bridges records and wants its devices, and only those. */
  lemma NoBridges(parse: Parser, cfg: VppConfig, boot: set<string>)
    requires forall n :: n in cfg ==> n != "" && Simple(cfg[n])
    ensures ValidConfig(cfg, boot) && IfaceTags(cfg) == cfg.Keys == Entries(cfg).Keys
    ensures forall n :: n in cfg ==> Entries(cfg)[n] == InfoOf(cfg[n]) && Specs(parse, cfg)[n] == SpecFor(parse, cfg[n])
  {
    assert Bvis(cfg) == {} && Taps(cfg) == {};
  }

  function TunnelTo(id: nat, local: string, remote: string): Device {
    VxlanDevice(id, local, remote, 0, 0)
  }

  function TunnelSpec(parse: Parser, id: nat, local: string, remote: string): Spec {
    SpecFor(parse, TunnelTo(id, local, remote))
  }

  /** Which tunnels the record of one fits. */
  lemma TunnelFits(parse: Parser, n: string, id: nat, tag: string, id': nat, local: string, remote: string)
    requires id < TWO32 && id' < TWO32
    ensures Fits(DeleteKey(parse, n, InfoOf(TunnelTo(id, local, remote))), tag, TunnelSpec(parse, id', local, remote)) <==> id == id'
  {
  }

  /** A tunnel is set up, renumbered under its name, and taken out: the second setup keeps
      the interface and records the new number, so the third does not find it. */
  method RenumberedTunnelStays(v: Dataplane, local: string, remote: string) returns (ok: bool)
    requires Sound(v) && v.parse(local).Some? && v.parse(remote).Some? && "n" !in Tags(v.ifs)
    modifies v
    ensures ok ==> "n" in Tags(v.ifs)
  {
    var one: VppConfig := map["n" := TunnelTo(1, local, remote)];
    var two: VppConfig := map["n" := TunnelTo(2, local, remote)];
    var none: VppConfig := map[];
    NoBridges(v.parse, one, v.boot);
    NoBridges(v.parse, two, v.boot);
    NoBridges(v.parse, none, v.boot);
    ghost var spec := TunnelSpec(v.parse, 1, local, remote);
    TunnelFits(v.parse, "n", 2, "n", 1, local, remote);
    var saved, done := SetupFirst(v, one, "n");
    ok := done;
    if ok {
      saved, done := SetupHeld(v, saved, two, "n", spec);
      saved, done := SetupHeld(v, saved, none, "n", spec);
    }
  }

  /** A tunnel is renumbered while another is given its old number, and that one leaves: the
      desired tunnel's interface is deleted in its place, although no recorded handles are
      shared; whether the second tunnel could be created does not matter. */
  method DesiredTunnelDeleted(v: Dataplane, local: string, remote: string) returns (ok: bool)
    requires Sound(v) && v.parse(local).Some? && v.parse(remote).Some? && "m" !in Tags(v.ifs)
    modifies v
    ensures ok ==> "m" !in Tags(v.ifs)
  {
    var one: VppConfig := map["m" := TunnelTo(1, local, remote)];
    var two: VppConfig := map["m" := TunnelTo(2, local, remote), "n" := TunnelTo(1, local, remote)];
    var three: VppConfig := map["m" := TunnelTo(2, local, remote)];
    ghost var spec := TunnelSpec(v.parse, 1, local, remote);
    NoBridges(v.parse, one, v.boot);
    ReplacedHit(v.parse, v.boot, two, three, local, remote);
    var saved, done := SetupFirst(v, one, "m");
    ok := done;
    if ok {
      saved, done := SetupHeld(v, saved, two, "m", spec);
      saved, done := SetupHeld(v, saved, three, "m", spec);
    }
  }

  lemma ReplacedHit(parse: Parser, boot: set<string>, two: VppConfig, three: VppConfig, local: string, remote: string)
    requires two == map["m" := TunnelTo(2, local, remote), "n" := TunnelTo(1, local, remote)]
    requires three == map["m" := TunnelTo(2, local, remote)]
    ensures ValidConfig(two, boot) && ValidConfig(three, boot) && "m" in Entries(two) && "" !in Entries(two)
    ensures Hit(parse, Entries(two), Entries(three), "m", TunnelSpec(parse, 1, local, remote))
  {
    PairConfig(parse, boot, "m", TunnelTo(2, local, remote), "n", TunnelTo(1, local, remote));
    OneConfig(parse, boot, "m", TunnelTo(2, local, remote));
    TunnelHit(parse, Entries(two), Entries(three), "n", "m", 1, local, remote);
  }

  /** The record of a tunnel that left fits any tunnel with its number. */
  lemma TunnelHit(parse: Parser, prev: Devices, desired: Devices, n: string, tag: string, id: nat, local: string, remote: string)
    requires n in prev && n !in desired && prev[n] == InfoOf(TunnelTo(id, local, remote)) && id < TWO32
    ensures Hit(parse, prev, desired, tag, TunnelSpec(parse, id, local, remote))
  {
    TunnelFits(parse, n, id, tag, id, local, remote);
    assert n in Orphans(prev, desired, UNLISTED);
  }

  const BONDED: VppConfig := map["eth" := AfPacketPort("eth"), "bond" := BondDevice(["eth"])]
  const UNPLUGGED: VppConfig := map["bond" := BondDevice(["eth"])]

  /** A name that was there, got cached and is hit leaves a stale entry. */
  lemma CachedGone(p: Plane, mid: Plane, q: Plane, parse: Parser, prev: Devices, cfg: VppConfig, ok: bool,
                   tag: string, spec: Spec, idx: map<string, nat>)
    requires SetUpVia(p, mid, q, parse, prev, cfg, ok) && tag != "" && Holds(p.ifs, tag, spec)
    requires tag in idx && Coherent(idx, mid.ifs) && Hit(parse, prev, Entries(cfg), tag, spec)
    ensures idx[tag] !in q.ifs && tag !in Tags(q.ifs)
  {
    SetUpHeld(p, mid, q, parse, prev, cfg, ok, tag, spec);
    HitIffClaimed(parse, prev, Entries(cfg), mid.ifs[idx[tag]]);
  }

  lemma BondedConfigs(parse: Parser, boot: set<string>)
    ensures ValidConfig(BONDED, boot) && ValidConfig(UNPLUGGED, boot)
    ensures IfaceTags(BONDED) == Entries(BONDED).Keys == {"eth", "bond"} && Entries(UNPLUGGED).Keys == {"bond"}
    ensures Specs(parse, BONDED)["eth"] == Spec(AfPacket, HostIf("eth"))
    ensures Entries(BONDED)["eth"] == InfoOf(AfPacketPort("eth"))
  {
    PairConfig(parse, boot, "eth", AfPacketPort("eth"), "bond", BondDevice(["eth"]));
    OneConfig(parse, boot, "bond", BondDevice(["eth"]));
  }

  /** The record of a name that left fits what was truthfully recorded under it. */
  lemma LeaverHit(parse: Parser, prev: Devices, desired: Devices, n: string, spec: Spec)
    requires n in prev && n !in desired && Recorded(parse, prev[n]) == Some(spec) && !Kept(prev[n])
    ensures Hit(parse, prev, desired, n, spec)
  {
    assert n in Orphans(prev, desired, UNLISTED) && Fits(DeleteKey(parse, n, prev[n]), n, spec);
  }

  lemma UnpluggedHit(parse: Parser, boot: set<string>)
    ensures Hit(parse, Entries(BONDED), Entries(UNPLUGGED), "eth", Spec(AfPacket, HostIf("eth")))
    ensures "bond" in UNPLUGGED && "eth" in MembersOf(UNPLUGGED["bond"])
  {
    BondedConfigs(parse, boot);
    LeaverHit(parse, Entries(BONDED), Entries(UNPLUGGED), "eth", Spec(AfPacket, HostIf("eth")));
    assert MembersOf(UNPLUGGED["bond"])[0] == "eth";
  }

  /** A setup in which a member of the device `n` is hit. */
  method SetupStale(v: Dataplane, prev: Devices, cfg: VppConfig, ghost n: string, tag: string, ghost spec: Spec)
    returns (ok: bool, stale: Option<nat>, found: Option<nat>)
    requires Sound(v) && ValidConfig(cfg, v.boot) && "" !in prev && tag != "" && Holds(v.ifs, tag, spec)
    requires n in cfg && tag in MembersOf(cfg[n]) && Hit(v.parse, prev, Entries(cfg), tag, spec)
    modifies v
    ensures ok ==> stale.Some? && stale.value !in v.ifs && found.None?
  {
    ghost var p := PlaneOf(v);
    var a, saved, done, mid, cached := SetupVpp(v, prev, [], cfg, [], []);
    ok := done;
    if ok {
      assert Cached(cached, MembersOf(cfg[n]), p.ifs);
      CachedGone(p, mid, PlaneOf(v), v.parse, prev, cfg, ok, tag, spec, a.idx);
    }
    stale := a.Resolve(tag);
    found := a.FindByTag(tag);
  }

  /** A bond still lists a member that left the configuration: the apply caches it, the reap
      deletes it, and the applier goes on with an index that is gone. */
  method StaleMember(v: Dataplane) returns (ok: bool, stale: Option<nat>, found: Option<nat>)
    requires Sound(v) && "eth" !in Tags(v.ifs)
    modifies v
    ensures ok ==> stale.Some? && stale.value !in v.ifs && found.None?
  {
    BondedConfigs(v.parse, v.boot);
    UnpluggedHit(v.parse, v.boot);
    stale, found := None, None;
    var saved;
    saved, ok := SetupFirst(v, BONDED, "eth");
    if ok {
      ok, stale, found := SetupStale(v, saved, UNPLUGGED, "bond", "eth", Spec(AfPacket, HostIf("eth")));
    }
  }

  // ----- Runs -----

  datatype VppSys = VppSys(plane: Plane, saved: Devices)

  /** Between setups VPP may restart: interfaces and domains vanish, foreign ones come. */
  datatype VppStep = SetupStep(cfg: VppConfig, ok: bool) | DriftStep

  /** The names recorded by the first `n` steps. */
  function Seen(steps: seq<VppStep>, n: nat): set<string>
    requires n <= |steps|
  {
    if n == 0 then {} else
      Seen(steps, n - 1) + (if steps[n - 1].SetupStep? then Entries(steps[n - 1].cfg).Keys else {})
  }

  function SeenDomains(steps: seq<VppStep>, n: nat): set<nat>
    requires n <= |steps|
  {
    if n == 0 then {} else
      SeenDomains(steps, n - 1) + (if steps[n - 1].SetupStep? then Domains(steps[n - 1].cfg) else {})
  }

  ghost predicate SetUp(a: Plane, b: Plane, parse: Parser, prev: Devices, cfg: VppConfig, ok: bool) {
    exists mid :: SetUpVia(a, mid, b, parse, prev, cfg, ok)
  }

  /** Drift does not bring back anything under a name or domain ever recorded. */
  ghost predicate Drift(a: Plane, b: Plane, names: set<string>, bds: set<nat>) {
    && (forall i :: i in b.ifs && b.ifs[i].tag in names ==> i in a.ifs && Same(a.ifs[i], b.ifs[i]))
    && b.bds * bds <= a.bds
  }

  ghost predicate StepOk(parse: Parser, boot: set<string>, a: VppSys, b: VppSys, names: set<string>, bds: set<nat>, step: VppStep) {
    match step
    case SetupStep(cfg, ok) =>
      ValidConfig(cfg, boot) && SetUp(a.plane, b.plane, parse, a.saved, cfg, ok) && b.saved == Entries(cfg)
    case DriftStep => Drift(a.plane, b.plane, names, bds) && b.saved == a.saved
  }

  ghost predicate ValidRun(parse: Parser, boot: set<string>, trace: seq<VppSys>, steps: seq<VppStep>) {
    && |trace| == |steps| + 1 && trace[0].saved == map[]
    && forall k :: 0 <= k < |steps| ==> StepAt(parse, boot, trace, steps, k)
  }

  ghost predicate StepAt(parse: Parser, boot: set<string>, trace: seq<VppSys>, steps: seq<VppStep>, k: nat)
    requires |trace| == |steps| + 1 && k < |steps|
  {
    StepOk(parse, boot, trace[k], trace[k + 1], Seen(steps, k), SeenDomains(steps, k), steps[k])
  }

  predicate IsPort(k: Kind) {
    k.Dpdk? || k.Avf?
  }

  /** No interface that is there changes its kind or handle under its name. */
  ghost predicate SteadyAt(parse: Parser, a: VppSys, step: VppStep) {
    step.SetupStep? ==> AllTruthful(step.cfg) && OwnHandles(parse, Entries(step.cfg), a.plane.ifs)
  }

  ghost predicate Steady(parse: Parser, trace: seq<VppSys>, steps: seq<VppStep>, n: nat)
    requires |trace| == |steps| + 1 && n <= |steps|
  {
    forall k :: 0 <= k < n ==> SteadyAt(parse, trace[k], steps[k])
  }

  ghost predicate SaneRecords(devs: Devices) {
    forall n :: n in devs ==> n != "" && (devs[n].typ.AfPacketDev? ==> devs[n].hostIf != "")
  }

  /** The records tell the truth, and an interface under a name ever recorded is recorded
      still, unless it is a port that is never deleted. */
  ghost predicate RunInv(parse: Parser, s: VppSys, names: set<string>) {
    && SaneRecords(s.saved) && s.saved.Keys <= names && OwnHandles(parse, s.saved, s.plane.ifs)
    && forall i :: i in s.plane.ifs && s.plane.ifs[i].tag in names && !IsPort(s.plane.ifs[i].kind) ==>
         s.plane.ifs[i].tag in s.saved
  }

  lemma EntriesNamed(cfg: VppConfig, boot: set<string>)
    requires ValidConfig(cfg, boot)
    ensures SaneRecords(Entries(cfg))
  {
    forall n | n in Entries(cfg)
      ensures n != "" && (Entries(cfg)[n].typ.AfPacketDev? ==> Entries(cfg)[n].hostIf != "")
    {
      if n in cfg {
        assert cfg[n].NamesOk();
      }
    }
  }

  /** A truthfully recorded interface of a deletable kind goes when its name leaves. */
  lemma OrphanHit(parse: Parser, prev: Devices, desired: Devices, f: Iface)
    requires SaneRecords(prev) && f.tag in prev && f.tag !in desired && !IsPort(f.kind)
    requires Recorded(parse, prev[f.tag]) == Some(SpecOf(f))
    ensures Claimed(parse, prev, Orphans(prev, desired, UNLISTED), f)
  {
    RecordNames(parse, f.tag, prev[f.tag], f);
    assert f.tag in Orphans(prev, desired, UNLISTED);
  }

  lemma SetupKeepsInv(parse: Parser, boot: set<string>, a: VppSys, mid: Plane, b: VppSys, names: set<string>, cfg: VppConfig, ok: bool)
    requires RunInv(parse, a, names) && ValidConfig(cfg, boot) && SetUpVia(a.plane, mid, b.plane, parse, a.saved, cfg, ok)
    requires b.saved == Entries(cfg) && SteadyAt(parse, a, SetupStep(cfg, ok))
    ensures OwnHandles(parse, Entries(cfg), mid.ifs) && RunInv(parse, b, names + Entries(cfg).Keys)
  {
    RecordsStayTrue(parse, a.plane.ifs, mid.ifs, boot, cfg);
    EntriesNamed(cfg, boot);
    forall i | i in b.plane.ifs && b.plane.ifs[i].tag in names + Entries(cfg).Keys && !IsPort(b.plane.ifs[i].kind)
      ensures b.plane.ifs[i].tag in b.saved
    {
      var f := mid.ifs[i];
      EntrySpec(parse, cfg, boot, f.tag);
      if f.tag !in Entries(cfg) {
        assert i in a.plane.ifs && a.plane.ifs[i].tag == f.tag && SpecOf(a.plane.ifs[i]) == SpecOf(f);
        OrphanHit(parse, a.saved, Entries(cfg), f);
      }
    }
  }

  lemma DriftKeepsInv(parse: Parser, a: VppSys, b: VppSys, names: set<string>, bds: set<nat>)
    requires RunInv(parse, a, names) && Drift(a.plane, b.plane, names, bds) && b.saved == a.saved
    ensures RunInv(parse, b, names)
  {
  }

  lemma {:induction false} RunKeepsInv(parse: Parser, boot: set<string>, trace: seq<VppSys>, steps: seq<VppStep>, n: nat)
    requires ValidRun(parse, boot, trace, steps) && n <= |steps| && Steady(parse, trace, steps, n)
    ensures RunInv(parse, trace[n], Seen(steps, n))
  {
    if n > 0 {
      var a, b, step := trace[n - 1], trace[n], steps[n - 1];
      RunKeepsInv(parse, boot, trace, steps, n - 1);
      assert StepAt(parse, boot, trace, steps, n - 1);
      assert SteadyAt(parse, a, step);
      match step
      case SetupStep(cfg, ok) =>
        var mid :| SetUpVia(a.plane, mid, b.plane, parse, a.saved, cfg, ok);
        SetupKeepsInv(parse, boot, a, mid, b, Seen(steps, n - 1), cfg, ok);
      case DriftStep =>
        DriftKeepsInv(parse, a, b, Seen(steps, n - 1), SeenDomains(steps, n - 1));
    }
  }

  /** No orphan shares its handle with a wanted interface. */
  ghost predicate Apart(parse: Parser, prev: Devices, cfg: VppConfig) {
    forall m :: m in IfaceTags(cfg) ==> m in Entries(cfg) && HandleApart(parse, prev, Entries(cfg), m)
  }

  /** All wanted interfaces survive the reap exactly when none shares its handle. */
  lemma AllSurvive(parse: Parser, boot: set<string>, prev: Devices, mid: Plane, b: Plane, cfg: VppConfig)
    requires ValidConfig(cfg, boot) && OwnHandles(parse, Entries(cfg), mid.ifs) && IfaceTags(cfg) <= Tags(mid.ifs)
    requires Reaped(mid, b, parse, prev, Entries(cfg))
    ensures IfaceTags(cfg) <= Tags(b.ifs) <==> Apart(parse, prev, cfg)
  {
    forall n | n in IfaceTags(cfg)
      ensures n in Entries(cfg) && (n in Tags(b.ifs) <==> HandleApart(parse, prev, Entries(cfg), n))
    {
      EntriesAt(cfg, boot, n);
      OneSurvives(parse, prev, mid, b, Entries(cfg), n);
    }
  }

  lemma OneSurvives(parse: Parser, prev: Devices, mid: Plane, b: Plane, devs: Devices, n: string)
    requires OwnHandles(parse, devs, mid.ifs) && Reaped(mid, b, parse, prev, devs) && n in Tags(mid.ifs) && n in devs
    ensures n in Tags(b.ifs) <==> HandleApart(parse, prev, devs, n)
  {
    forall i | i in mid.ifs && mid.ifs[i].tag == n
      ensures i in b.ifs <==> HandleApart(parse, prev, devs, n)
    {
      UnclaimedIff(parse, prev, devs, mid.ifs[i]);
    }
    var i :| i in mid.ifs && mid.ifs[i].tag == n;
    assert i in b.ifs ==> b.ifs[i].tag in Tags(b.ifs);
  }

  /** An interface under a name never recorded stays unless an orphan's handle fits it. */
  lemma ForeignIface(a: Plane, mid: Plane, b: Plane, parse: Parser, prev: Devices, cfg: VppConfig, ok: bool, i: nat)
    requires SetUpVia(a, mid, b, parse, prev, cfg, ok) && SaneRecords(prev)
    requires i in a.ifs && a.ifs[i].tag !in prev && a.ifs[i].tag != ""
    ensures i in b.ifs <==> !Claimed(parse, prev, Orphans(prev, Entries(cfg), UNLISTED), a.ifs[i])
    ensures i in b.ifs ==> Same(a.ifs[i], b.ifs[i])
  {
    HitIffClaimed(parse, prev, Entries(cfg), a.ifs[i]);
    HitIffClaimed(parse, prev, Entries(cfg), mid.ifs[i]);
  }

  /** Convergence in VPP: after every setup of every run in which nothing changes under its
      name while it is there, however devices leave and return, no deletable interface is
      left under a name ever recorded but the wanted ones; if the apply phase succeeded,
      all wanted ones are there exactly when no orphan shared a handle with one; and an
      interface under a name never recorded is touched only if an orphan's handle fits it. */
  lemma {:induction false} VppConverges(parse: Parser, boot: set<string>, trace: seq<VppSys>, steps: seq<VppStep>, k: nat)
    requires ValidRun(parse, boot, trace, steps) && k < |steps| && steps[k].SetupStep? && Steady(parse, trace, steps, k + 1)
    ensures var a, b, cfg := trace[k], trace[k + 1], steps[k].cfg;
            && (forall i :: i in b.plane.ifs && b.plane.ifs[i].tag in Seen(steps, k + 1) && !IsPort(b.plane.ifs[i].kind) ==>
                  b.plane.ifs[i].tag in IfaceTags(cfg))
            && (steps[k].ok ==> (IfaceTags(cfg) <= Tags(b.plane.ifs) <==> Apart(parse, a.saved, cfg)))
            && (forall i :: i in a.plane.ifs && a.plane.ifs[i].tag !in Seen(steps, k + 1) && a.plane.ifs[i].tag != "" ==>
                  && (i in b.plane.ifs <==>
                      !Claimed(parse, a.saved, Orphans(a.saved, Entries(cfg), UNLISTED), a.plane.ifs[i]))
                  && (i in b.plane.ifs ==> Same(a.plane.ifs[i], b.plane.ifs[i])))
  {
    var a, b, cfg, ok := trace[k], trace[k + 1], steps[k].cfg, steps[k].ok;
    assert Steady(parse, trace, steps, k) && SteadyAt(parse, a, steps[k]);
    RunKeepsInv(parse, boot, trace, steps, k);
    assert StepAt(parse, boot, trace, steps, k);
    var mid :| SetUpVia(a.plane, mid, b.plane, parse, a.saved, cfg, ok);
    SetupKeepsInv(parse, boot, a, mid, b, Seen(steps, k), cfg, ok);
    forall i | i in b.plane.ifs && b.plane.ifs[i].tag in Seen(steps, k + 1) && !IsPort(b.plane.ifs[i].kind)
      ensures b.plane.ifs[i].tag in IfaceTags(cfg)
    {
      EntrySpec(parse, cfg, boot, b.plane.ifs[i].tag);
    }
    if ok {
      AllSurvive(parse, boot, a.saved, mid, b.plane, cfg);
    }
    forall i | i in a.plane.ifs && a.plane.ifs[i].tag !in Seen(steps, k + 1) && a.plane.ifs[i].tag != ""
      ensures i in b.plane.ifs <==> !Claimed(parse, a.saved, Orphans(a.saved, Entries(cfg), UNLISTED), a.plane.ifs[i])
      ensures i in b.plane.ifs ==> Same(a.plane.ifs[i], b.plane.ifs[i])
    {
      ForeignIface(a.plane, mid, b.plane, parse, a.saved, cfg, ok, i);
    }
  }

  // ----- Bridge domains over runs -----

  function RecordedDomains(devs: Devices): set<nat> {
    set n | n in devs && devs[n].typ.BridgeDev? :: devs[n].bdId
  }

  lemma EntriesDomains(cfg: VppConfig, boot: set<string>)
    requires ValidConfig(cfg, boot)
    ensures RecordedDomains(Entries(cfg)) == Domains(cfg)
  {
    forall bd | bd in Domains(cfg)
      ensures bd in RecordedDomains(Entries(cfg))
    {
      var n :| n in cfg && cfg[n].BridgeDevice? && cfg[n].bd == bd;
      assert n in Entries(cfg) && Entries(cfg)[n] == InfoOf(cfg[n]);
    }
  }

  /** A domain ever recorded and still there is recorded now. */
  ghost predicate DomainInv(s: VppSys, bds: set<nat>) {
    s.plane.bds * bds <= RecordedDomains(s.saved) <= bds
  }

  /** The domains ever recorded that are left are the desired ones. */
  ghost predicate DomainsSettledAt(trace: seq<VppSys>, steps: seq<VppStep>, k: nat)
    requires |trace| == |steps| + 1 && k < |steps|
  {
    steps[k].SetupStep? ==> trace[k + 1].plane.bds * SeenDomains(steps, k + 1) <= Domains(steps[k].cfg)
  }

  /** The domains of bridges that left. */
  function LeftDomains(prev: Devices, desired: Devices): set<nat> {
    set n | n in prev && n !in desired && prev[n].typ.BridgeDev? :: prev[n].bdId
  }

  function InUse(ifs: Ifs): set<nat> {
    set i | i in ifs && ifs[i].bd.Some? :: ifs[i].bd.value
  }

  lemma DroppedIff(parse: Parser, prev: Devices, desired: Devices, ifs: Ifs, bd: nat)
    ensures bd in LeftDomains(prev, desired) <==> DropsDomain(parse, prev, Orphans(prev, desired, UNLISTED), bd)
    ensures bd in InUse(ifs) <==> Occupied(ifs, bd)
  {
    if bd in LeftDomains(prev, desired) {
      var n :| n in prev && n !in desired && prev[n].typ.BridgeDev? && prev[n].bdId == bd;
      assert n in Orphans(prev, desired, UNLISTED) && DeleteKey(parse, n, prev[n]) == ByDomain(bd);
    }
  }

  /** Every recorded domain that is there and not desired any more belonged to a bridge that
      left, rather than changed its number, and nothing that survives is still in it. */
  ghost predicate DomainsFreeAt(trace: seq<VppSys>, steps: seq<VppStep>, k: nat)
    requires |trace| == |steps| + 1 && k < |steps|
  {
    var a, b := trace[k], trace[k + 1];
    steps[k].SetupStep? ==>
      a.plane.bds * RecordedDomains(a.saved) - Domains(steps[k].cfg) <=
      LeftDomains(a.saved, Entries(steps[k].cfg)) - InUse(b.plane.ifs)
  }

  ghost predicate DomainsSettled(trace: seq<VppSys>, steps: seq<VppStep>, n: nat)
    requires |trace| == |steps| + 1 && n <= |steps|
  {
    forall k :: 0 <= k < n ==> DomainsSettledAt(trace, steps, k)
  }

  ghost predicate DomainsFree(trace: seq<VppSys>, steps: seq<VppStep>, n: nat)
    requires |trace| == |steps| + 1 && n <= |steps|
  {
    forall k :: 0 <= k < n ==> DomainsFreeAt(trace, steps, k)
  }

  lemma DomainStep(parse: Parser, boot: set<string>, trace: seq<VppSys>, steps: seq<VppStep>, k: nat)
    requires ValidRun(parse, boot, trace, steps) && k < |steps| && DomainInv(trace[k], SeenDomains(steps, k))
    ensures DomainsSettledAt(trace, steps, k) <==> DomainsFreeAt(trace, steps, k)
    ensures DomainsFreeAt(trace, steps, k) ==> DomainInv(trace[k + 1], SeenDomains(steps, k + 1))
  {
    var a, b, step := trace[k], trace[k + 1], steps[k];
    assert StepAt(parse, boot, trace, steps, k);
    if step.SetupStep? {
      EntriesDomains(step.cfg, boot);
      var mid :| SetUpVia(a.plane, mid, b.plane, parse, a.saved, step.cfg, step.ok);
      DomainsReaped(parse, a.plane, mid, b.plane, a.saved, step.cfg, step.ok);
    }
  }

  lemma DomainsReaped(parse: Parser, a: Plane, mid: Plane, b: Plane, prev: Devices, cfg: VppConfig, ok: bool)
    requires SetUpVia(a, mid, b, parse, prev, cfg, ok)
    ensures b.bds == mid.bds - (LeftDomains(prev, Entries(cfg)) - InUse(b.ifs))
    ensures a.bds <= mid.bds <= a.bds + Domains(cfg)
  {
    forall bd
      ensures bd in b.bds <==> bd in mid.bds && !(bd in LeftDomains(prev, Entries(cfg)) && bd !in InUse(b.ifs))
    {
      DroppedIff(parse, prev, Entries(cfg), b.ifs, bd);
    }
  }

  lemma DomainStart(parse: Parser, boot: set<string>, trace: seq<VppSys>, steps: seq<VppStep>)
    requires ValidRun(parse, boot, trace, steps)
    ensures DomainInv(trace[0], SeenDomains(steps, 0))
  {
  }

  lemma LastDomains(trace: seq<VppSys>, steps: seq<VppStep>, n: nat)
    requires |trace| == |steps| + 1 && 0 < n <= |steps|
    ensures DomainsSettled(trace, steps, n) <==> DomainsSettled(trace, steps, n - 1) && DomainsSettledAt(trace, steps, n - 1)
    ensures DomainsFree(trace, steps, n) <==> DomainsFree(trace, steps, n - 1) && DomainsFreeAt(trace, steps, n - 1)
  {
  }

  lemma {:induction false} DomainInvariant(parse: Parser, boot: set<string>, trace: seq<VppSys>, steps: seq<VppStep>, n: nat)
    requires ValidRun(parse, boot, trace, steps) && n <= |steps| && DomainsFree(trace, steps, n)
    ensures DomainInv(trace[n], SeenDomains(steps, n))
  {
    if n == 0 {
      DomainStart(parse, boot, trace, steps);
    } else {
      assert DomainsFreeAt(trace, steps, n - 1);
      DomainInvariant(parse, boot, trace, steps, n - 1);
      DomainStep(parse, boot, trace, steps, n - 1);
    }
  }

  lemma {:induction false} SettledWasFree(parse: Parser, boot: set<string>, trace: seq<VppSys>, steps: seq<VppStep>, n: nat)
    requires ValidRun(parse, boot, trace, steps) && n <= |steps| && DomainsSettled(trace, steps, n)
    ensures DomainsFree(trace, steps, n)
  {
    if n > 0 {
      LastDomains(trace, steps, n);
      SettledWasFree(parse, boot, trace, steps, n - 1);
      DomainInvariant(parse, boot, trace, steps, n - 1);
      DomainStep(parse, boot, trace, steps, n - 1);
    }
  }

  /** Over runs: after every setup up to any point only desired domains are left of all
      ever recorded, exactly when every domain that stopped being desired was free. */
  lemma DomainsConvergeIff(parse: Parser, boot: set<string>, trace: seq<VppSys>, steps: seq<VppStep>, n: nat)
    requires ValidRun(parse, boot, trace, steps) && n <= |steps|
    ensures DomainsSettled(trace, steps, n) <==> DomainsFree(trace, steps, n)
  {
    if DomainsSettled(trace, steps, n) {
      SettledWasFree(parse, boot, trace, steps, n);
    }
    if DomainsFree(trace, steps, n) {
      forall k | 0 <= k < n
        ensures DomainsSettledAt(trace, steps, k)
      {
        assert DomainsFreeAt(trace, steps, k) && DomainsFree(trace, steps, k);
        DomainInvariant(parse, boot, trace, steps, k);
        DomainStep(parse, boot, trace, steps, k);
      }
    }
  }

  // ----- The program makes such runs -----

  lemma SeenPrefix(steps: seq<VppStep>, step: VppStep, n: nat)
    requires n <= |steps|
    ensures Seen(steps + [step], n) == Seen(steps, n) && SeenDomains(steps + [step], n) == SeenDomains(steps, n)
  {
    if n > 0 {
      SeenPrefix(steps, step, n - 1);
    }
  }

  lemma RunGrows(parse: Parser, boot: set<string>, trace: seq<VppSys>, steps: seq<VppStep>, b: VppSys, step: VppStep)
    requires ValidRun(parse, boot, trace, steps)
    requires StepOk(parse, boot, trace[|steps|], b, Seen(steps, |steps|), SeenDomains(steps, |steps|), step)
    ensures ValidRun(parse, boot, trace + [b], steps + [step])
  {
    var trace', steps' := trace + [b], steps + [step];
    forall k | 0 <= k < |steps'|
      ensures StepAt(parse, boot, trace', steps', k)
    {
      SeenPrefix(steps, step, k);
      if k < |steps| {
        assert StepAt(parse, boot, trace, steps, k);
      }
    }
  }

  /** The saved names of a run are never empty. */
  lemma RunNamed(parse: Parser, boot: set<string>, trace: seq<VppSys>, steps: seq<VppStep>, n: nat)
    requires ValidRun(parse, boot, trace, steps) && n <= |steps|
    ensures "" !in trace[n].saved
  {
    if n > 0 {
      RunNamed(parse, boot, trace, steps, n - 1);
      assert StepAt(parse, boot, trace, steps, n - 1);
      if steps[n - 1].SetupStep? {
        EntriesNamed(steps[n - 1].cfg, boot);
      }
    }
  }

  /** From wherever a run has come, the next setup is a step of the run. */
  method SetupNext(v: Dataplane, saved: Devices, proxies: seq<ProxyItem>, cfg: VppConfig, looked: seq<string>,
                   wanted: seq<ProxyItem>, ghost trace: seq<VppSys>, ghost steps: seq<VppStep>)
    returns (saved': Devices, ok: bool)
    requires Sound(v) && ValidConfig(cfg, v.boot)
    requires (forall m :: m in looked ==> m != "") && forall it :: it in proxies ==> it.iface != ""
    requires ValidRun(v.parse, v.boot, trace, steps) && trace[|steps|] == VppSys(PlaneOf(v), saved)
    modifies v
    ensures Sound(v) && saved' == Entries(cfg)
    ensures ValidRun(v.parse, v.boot, trace + [VppSys(PlaneOf(v), saved')], steps + [SetupStep(cfg, ok)])
  {
    RunNamed(v.parse, v.boot, trace, steps, |steps|);
    var a, now, done, mid, cached := SetupVpp(v, saved, proxies, cfg, looked, wanted);
    saved', ok := now, done;
    RunGrows(v.parse, v.boot, trace, steps, VppSys(PlaneOf(v), saved'), SetupStep(cfg, ok));
  }
}
