/** The VPP applier (vpp/apply.go): interfaces are found again by tag, through a
    name-to-index cache that lives for one apply.  RPCs that create may fail; tagging
    succeeds. */
module VppApplier {
  import opened Collections

  datatype Kind = AfPacket | Loopback | Dpdk | Avf | Bond | Vlan | Vxlan | NdpTap

  /** How the deletion RPC of a kind names its interface, where that is not the index. */
  datatype Handle = NoHandle | HostIf(host: string) | Tunnel(vni: nat, src: nat, dst: nat, port: nat)

  /** `bd` is the bridge domain the interface is in, if any. */
  datatype Iface = Iface(name: string, tag: string, kind: Kind, handle: Handle, bd: Option<nat>)

  /** What an interface was created as. */
  datatype Spec = Spec(kind: Kind, handle: Handle)

  type Ifs = map<nat, Iface>

  /** The library's address parser. */
  type Parser = string -> Option<nat>

  function SpecOf(f: Iface): Spec {
    Spec(f.kind, f.handle)
  }

  ghost function Tags(ifs: Ifs): set<string> {
    set i | i in ifs :: ifs[i].tag
  }

  ghost predicate TagsUnique(ifs: Ifs) {
    forall i, j :: i in ifs && j in ifs && ifs[i].tag == ifs[j].tag && ifs[i].tag != "" ==> i == j
  }

  /** An interface under a name of the start-up configuration is a port that VPP made at
      boot, and carries no tag or its own name. */
  ghost predicate BootPorts(ifs: Ifs, boot: set<string>) {
    forall i :: i in ifs && ifs[i].name in boot ==>
      SpecOf(ifs[i]) == Spec(Dpdk, NoHandle) && (ifs[i].tag == "" || ifs[i].tag == ifs[i].name)
  }

  /** What a dump search by tag returns. */
  ghost predicate Finds(ifs: Ifs, tag: string, r: Option<nat>) {
    match r
    case None => tag !in Tags(ifs)
    case Some(i) => i in ifs && ifs[i].tag == tag
  }

  /** Every cached index is the one the dump search finds. */
  ghost predicate Coherent(idx: map<string, nat>, ifs: Ifs) {
    forall name :: name in idx && name != "" ==> Finds(ifs, name, Some(idx[name]))
  }

  /** With unique tags the search has one answer. */
  lemma FindsUnique(ifs: Ifs, tag: string, r: Option<nat>, s: Option<nat>)
    requires TagsUnique(ifs) && tag != "" && Finds(ifs, tag, r) && Finds(ifs, tag, s)
    ensures r == s
  {
  }

  /** How one ensure step may change the interfaces: nothing when the tag is known;
      otherwise one new interface, or an untagged one of the boot that gets the tag. */
  ghost predicate Ensured(ifs: Ifs, ifs': Ifs, tag: string, spec: Spec) {
    || ifs' == ifs
    || (tag !in Tags(ifs) &&
        exists i :: i in ifs' && ifs'[i].tag == tag && SpecOf(ifs'[i]) == spec &&
                    (i in ifs ==> ifs[i].tag == "" && ifs'[i] == ifs[i].(tag := tag)) && ifs' == ifs[i := ifs'[i]])
  }

  /** The same interface, perhaps in another bridge domain. */
  predicate Same(f: Iface, g: Iface) {
    f.(bd := g.bd) == g
  }

  /** Only the bridge domains of the interfaces may differ. */
  ghost predicate Rejoined(ifs: Ifs, ifs': Ifs) {
    ifs'.Keys == ifs.Keys && forall i :: i in ifs ==> Same(ifs[i], ifs'[i])
  }

  /** The interfaces, after any number of ensure steps for what `want` asks, and joins:
      tagged ones keep all but their domain, and new or newly tagged ones are what `want`
      says of a tag that was missing. */
  ghost predicate Grown(ifs: Ifs, ifs': Ifs, want: map<string, Spec>) {
    && (forall i :: i in ifs ==>
          i in ifs' && Same(ifs[i].(tag := ifs'[i].tag), ifs'[i]) && (ifs[i].tag != "" ==> ifs'[i].tag == ifs[i].tag))
    && (forall i :: i in ifs' ==>
          || (i in ifs && ifs'[i].tag == ifs[i].tag)
          || (ifs'[i].tag in want && ifs'[i].tag !in Tags(ifs) && SpecOf(ifs'[i]) == want[ifs'[i].tag]))
  }

  /** Joining a domain changes nothing that tags or the cache depend on. */
  lemma RejoinedGrows(ifs: Ifs, ifs': Ifs, boot: set<string>, want: map<string, Spec>)
    requires Rejoined(ifs, ifs')
    ensures Tags(ifs') == Tags(ifs) && Grown(ifs, ifs', want)
    ensures TagsUnique(ifs) ==> TagsUnique(ifs')
    ensures BootPorts(ifs, boot) ==> BootPorts(ifs', boot)
    ensures forall idx :: Coherent(idx, ifs) ==> Coherent(idx, ifs')
  {
    assert Tags(ifs') == Tags(ifs) by {
      forall t | t in Tags(ifs)
        ensures t in Tags(ifs')
      {
        var i :| i in ifs && ifs[i].tag == t;
        assert ifs'[i].tag == t;
      }
    }
  }

  lemma GrownWider(ifs: Ifs, ifs': Ifs, tag: string, want: map<string, Spec>)
    requires tag in want && Grown(ifs, ifs', map[tag := want[tag]])
    ensures Grown(ifs, ifs', want)
  {
  }

  lemma EnsuredGrows(ifs: Ifs, ifs': Ifs, tag: string, want: map<string, Spec>)
    requires tag != "" && tag in want && Ensured(ifs, ifs', tag, want[tag])
    ensures Grown(ifs, ifs', want)
    ensures TagsUnique(ifs) ==> TagsUnique(ifs')
    ensures forall idx :: TagsUnique(ifs) && Coherent(idx, ifs) ==> Coherent(idx, ifs')
  {
  }

  lemma GrownTrans(a: Ifs, b: Ifs, c: Ifs, want: map<string, Spec>)
    requires Grown(a, b, want) && Grown(b, c, want) && "" !in want
    ensures Grown(a, c, want)
  {
  }

  lemma TagsKept(ifs: Ifs, ifs': Ifs, want: map<string, Spec>, tag: string)
    requires Grown(ifs, ifs', want) && tag in Tags(ifs) && tag != ""
    ensures tag in Tags(ifs')
  {
  }

  /** Once everything wanted is there, nothing grows. */
  lemma GrownStill(ifs: Ifs, ifs': Ifs, want: map<string, Spec>)
    requires Grown(ifs, ifs', want) && want.Keys <= Tags(ifs)
    ensures Rejoined(ifs, ifs')
  {
    forall i | i in ifs'
      ensures i in ifs && ifs'[i].tag == ifs[i].tag
    {
      assert ifs'[i].tag in want.Keys ==> ifs'[i].tag in Tags(ifs);
    }
  }

  /** `boot` holds the port names of the generated start-up configuration; VPP chooses
      other names for what is created at run time.  `failures` counts the creations that
      VPP refused. */
  class Dataplane {
    var ifs: Ifs
    var bds: set<nat>
    ghost var failures: nat
    const boot: set<string>
    const parse: Parser

    constructor (boot: set<string>, parse: Parser, ifs: Ifs, bds: set<nat>)
      ensures this.boot == boot && this.parse == parse && this.ifs == ifs && this.bds == bds
    {
      this.boot, this.parse, this.ifs, this.bds := boot, parse, ifs, bds;
      failures := 0;
    }

    /** Creates an untagged interface under a free index and a name of VPP's own
        choice; or fails. */
    method Create(spec: Spec) returns (r: Option<nat>)
      modifies this`ifs, this`failures
      ensures r.None? ==> ifs == old(ifs)
      ensures failures == old(failures) + if r.None? then 1 else 0
      ensures r.Some? ==> r.value !in old(ifs) && ifs.Keys == old(ifs).Keys + {r.value} &&
                          ifs == old(ifs)[r.value := ifs[r.value]] && ifs[r.value].tag == "" &&
                          ifs[r.value].name !in boot && SpecOf(ifs[r.value]) == spec
    {
      var fails: bool, i: nat, name: string := *, *, *;
      if fails || i in ifs || name in boot {
        failures := failures + 1;
        return None;
      }
      ifs := ifs[i := Iface(name, "", spec.kind, spec.handle, None)];
      return Some(i);
    }

    method TagInterface(i: nat, tag: string)
      requires i in ifs
      modifies this`ifs
      ensures ifs == old(ifs)[i := old(ifs)[i].(tag := tag)]
    {
      ifs := ifs[i := ifs[i].(tag := tag)];
    }

    /** Puts an interface into a domain, out of any other. */
    method Join(i: nat, bd: nat)
      requires i in ifs
      modifies this`ifs
      ensures ifs == old(ifs)[i := old(ifs)[i].(bd := Some(bd))]
    {
      ifs := ifs[i := ifs[i].(bd := Some(bd))];
    }

    /** Creates the domain, or finds it there; or fails. */
    method CreateDomain(bd: nat) returns (ok: bool)
      modifies this`bds, this`failures
      ensures bds == if ok then old(bds) + {bd} else old(bds)
      ensures failures == old(failures) + if ok then 0 else 1
    {
      ok := *;
      if ok {
        bds := bds + {bd};
      } else {
        failures := failures + 1;
      }
    }
  }

  ghost predicate Sound(v: Dataplane)
    reads v
  {
    TagsUnique(v.ifs) && BootPorts(v.ifs, v.boot)
  }

  lemma CreateThenTag(ifs: Ifs, i: nat, f: Iface, tag: string, boot: set<string>)
    requires i !in ifs && tag !in Tags(ifs) && f.tag == "" && f.name !in boot && BootPorts(ifs, boot)
    ensures Ensured(ifs, ifs[i := f][i := f.(tag := tag)], tag, SpecOf(f))
    ensures BootPorts(ifs[i := f][i := f.(tag := tag)], boot)
  {
  }

  lemma TagExisting(ifs: Ifs, i: nat, tag: string, boot: set<string>)
    requires i in ifs && ifs[i].name == tag && tag in boot && BootPorts(ifs, boot) && tag !in Tags(ifs)
    ensures Ensured(ifs, ifs[i := ifs[i].(tag := tag)], tag, Spec(Dpdk, NoHandle))
    ensures BootPorts(ifs[i := ifs[i].(tag := tag)], boot)
  {
  }

  // ----- Configuration -----

  /** A VPP device; an ethernet by its mode.  `bvi` says that a bridge has addresses, and
      `tap` is the responder tap it needs, if any. */
  datatype Device =
    | AfPacketPort(host: string) | LoopbackPort | AvfPort | DpdkPort | OtherPort
    | BondDevice(members: seq<string>)
    | VlanDevice(parent: string)
    | VxlanDevice(id: nat, local: string, remote: string, destPort: int, port: int)
    | BridgeDevice(bd: nat, members: seq<string>, bvi: bool, tap: Option<string>)
  {
    /** The phase of the apply that creates it. */
    function Phase(): nat {
      match this
      case BondDevice(_) => 1 case VlanDevice(_) => 2 case VxlanDevice(_, _, _, _, _) => 3
      case BridgeDevice(_, _, _, _) => 4 case _ => 0
    }

    /** The interface itself; a bridge is none. */
    predicate HasIface() { !OtherPort? && !BridgeDevice? }

    ghost predicate NamesOk() {
      && (BondDevice? || BridgeDevice? ==> forall m :: m in members ==> m != "")
      && (AfPacketPort? ==> host != "") && (VlanDevice? ==> parent != "") && (BridgeDevice? && tap.Some? ==> tap.value != "")
    }
  }

  /** Names to devices: no name is used for two kinds. */
  type VppConfig = map<string, Device>

  const BRIDGES := 4

  function BviName(bridge: string): string {
    bridge + "-bvi"
  }

  function ZeroOr(a: Option<nat>): nat {
    if a.Some? then a.value else 0
  }

  /** The port a tunnel is created with. */
  function CreatedPort(destPort: int, port: int): nat {
    if destPort > 0 then destPort % 65536 else if port > 0 then port % 65536 else 4789
  }

  /** What a device is created as. */
  function SpecFor(parse: Parser, d: Device): Spec
    requires d.HasIface()
  {
    match d
    case AfPacketPort(host) => Spec(AfPacket, HostIf(host))
    case LoopbackPort => Spec(Loopback, NoHandle)
    case AvfPort => Spec(Avf, NoHandle)
    case DpdkPort => Spec(Dpdk, NoHandle)
    case BondDevice(_) => Spec(Bond, NoHandle)
    case VlanDevice(_) => Spec(Vlan, NoHandle)
    case VxlanDevice(id, local, remote, destPort, port) =>
      Spec(Vxlan, Tunnel(id % TWO32, ZeroOr(parse(local)), ZeroOr(parse(remote)), CreatedPort(destPort, port)))
  }

  function Bvis(cfg: VppConfig): set<string> {
    set b | b in cfg && cfg[b].BridgeDevice? && cfg[b].bvi :: BviName(b)
  }

  function Taps(cfg: VppConfig): set<string> {
    set b | b in cfg && cfg[b].BridgeDevice? && cfg[b].tap.Some? :: cfg[b].tap.value
  }

  /** The tags of the interfaces a configuration wants. */
  function IfaceTags(cfg: VppConfig): set<string> {
    (set n | n in cfg && cfg[n].HasIface()) + Bvis(cfg) + Taps(cfg)
  }

  function Specs(parse: Parser, cfg: VppConfig): map<string, Spec> {
    map t | t in IfaceTags(cfg) ::
      if t in cfg && cfg[t].HasIface() then SpecFor(parse, cfg[t])
      else Spec(if t in Bvis(cfg) then Loopback else NdpTap, NoHandle)
  }

  /** Device names, names of bridge loopbacks and tap names do not collide, and ports
      taken over at boot are in the start-up configuration. */
  ghost predicate ValidConfig(cfg: VppConfig, boot: set<string>) {
    && cfg.Keys !! Bvis(cfg) && cfg.Keys !! Taps(cfg) && Bvis(cfg) !! Taps(cfg)
    && (forall n :: n in cfg ==> n != "" && cfg[n].NamesOk() && (cfg[n].DpdkPort? ==> n in boot))
  }

  // ----- The applier -----

  class Applier {
    const vpp: Dataplane
    var idx: map<string, nat>

    constructor (vpp: Dataplane)
      ensures this.vpp == vpp && idx == map[]
    {
      this.vpp, idx := vpp, map[];
    }

    ghost predicate Valid()
      reads this, vpp
    {
      Sound(vpp) && Coherent(idx, vpp.ifs)
    }

    /** The dump loop, in an arbitrary order. */
    method FindByTag(tag: string) returns (r: Option<nat>)
      ensures Finds(vpp.ifs, tag, r)
    {
      var rest := vpp.ifs.Keys;
      while rest != {}
        invariant rest <= vpp.ifs.Keys
        invariant forall i :: i in vpp.ifs && i !in rest ==> vpp.ifs[i].tag != tag
      {
        var i :| i in rest;
        rest := rest - {i};
        if vpp.ifs[i].tag == tag {
          return Some(i);
        }
      }
      return None;
    }

    method FindByName(name: string) returns (r: Option<nat>)
      ensures r.Some? ==> r.value in vpp.ifs && vpp.ifs[r.value].name == name
      ensures r.None? ==> forall i :: i in vpp.ifs ==> vpp.ifs[i].name != name
    {
      var rest := vpp.ifs.Keys;
      while rest != {}
        invariant rest <= vpp.ifs.Keys
        invariant forall i :: i in vpp.ifs && i !in rest ==> vpp.ifs[i].name != name
      {
        var i :| i in rest;
        rest := rest - {i};
        if vpp.ifs[i].name == name {
          return Some(i);
        }
      }
      return None;
    }

    /** A cached answer stands, even one that is out of date.  While the cache is
        coherent, resolving refines the plain search and keeps it so. */
    method Resolve(name: string) returns (r: Option<nat>)
      modifies this
      ensures name in old(idx) ==> r == Some(old(idx)[name]) && idx == old(idx)
      ensures name !in old(idx) ==> Finds(vpp.ifs, name, r) && idx == Caching(old(idx), name, r)
      ensures old(Valid()) && name != "" ==> Valid() && Finds(vpp.ifs, name, r)
    {
      if name in idx {
        return Some(idx[name]);
      }
      r := FindByTag(name);
      if r.Some? {
        idx := idx[name := r.value];
      }
    }

    /** ensureAfPacket, ensureLoopback, ensureAvf, ApplyBond and ApplyVxlan: reuse by
        tag or create, tag and cache. */
    method Ensure(name: string, spec: Spec) returns (r: Option<nat>)
      requires Valid() && name != ""
      modifies this, vpp`ifs, vpp`failures
      ensures Valid() && Ensured(old(vpp.ifs), vpp.ifs, name, spec) && Finds(vpp.ifs, name, r)
      ensures name in Tags(old(vpp.ifs)) ==> r.Some?
      ensures vpp.failures == old(vpp.failures) + if r.None? then 1 else 0
      ensures old(idx).Keys <= idx.Keys <= old(idx).Keys + {name}
    {
      r := Resolve(name);
      if r.Some? {
        return;
      }
      ghost var before := vpp.ifs;
      r := vpp.Create(spec);
      if r.None? {
        return;
      }
      CreateThenTag(before, r.value, vpp.ifs[r.value], name, vpp.boot);
      vpp.TagInterface(r.value, name);
      EnsuredGrows(before, vpp.ifs, name, map[name := spec]);
      idx := idx[name := r.value];
      assert vpp.ifs[r.value].tag == name;
    }

    /** ensureDpdk: adopts the interface VPP created at boot under the device's name. */
    method EnsureDpdk(name: string) returns (r: Option<nat>)
      requires Valid() && name != "" && name in vpp.boot
      modifies this, vpp`ifs
      ensures Valid() && Ensured(old(vpp.ifs), vpp.ifs, name, Spec(Dpdk, NoHandle)) && Finds(vpp.ifs, name, r)
      ensures vpp.ifs.Keys == old(vpp.ifs).Keys
      ensures r.None? <==> forall i :: i in old(vpp.ifs) ==> old(vpp.ifs)[i].tag != name && old(vpp.ifs)[i].name != name
      ensures old(idx).Keys <= idx.Keys <= old(idx).Keys + {name}
    {
      r := Resolve(name);
      if r.Some? {
        return;
      }
      r := FindByName(name);
      if r.None? {
        return;
      }
      ghost var before := vpp.ifs;
      TagExisting(before, r.value, name, vpp.boot);
      vpp.TagInterface(r.value, name);
      EnsuredGrows(before, vpp.ifs, name, map[name := Spec(Dpdk, NoHandle)]);
      idx := idx[name := r.value];
      assert vpp.ifs[r.value].tag == name;
    }

    /** ApplyVlan: the parent must be there before a sub-interface is created. */
    method ApplyVlan(name: string, parent: string) returns (r: Option<nat>)
      requires Valid() && name != "" && parent != ""
      modifies this, vpp`ifs, vpp`failures
      ensures Valid() && Ensured(old(vpp.ifs), vpp.ifs, name, Spec(Vlan, NoHandle)) && Finds(vpp.ifs, name, r)
      ensures vpp.failures >= old(vpp.failures)
      ensures r.None? ==> vpp.failures > old(vpp.failures) || parent !in Tags(old(vpp.ifs))
      ensures name in Tags(old(vpp.ifs)) ==> r.Some?
      ensures vpp.ifs != old(vpp.ifs) ==> parent in Tags(old(vpp.ifs))
      ensures old(idx).Keys <= idx.Keys <= old(idx).Keys + {name, parent}
    {
      r := Resolve(name);
      if r.Some? {
        return;
      }
      var p := Resolve(parent);
      if p.None? {
        return None;
      }
      r := Ensure(name, Spec(Vlan, NoHandle));
    }

    /** Members of a bond are only looked up, and so are the interfaces of NAT rules and
        proxy entries. */
    method ResolveMembers(members: seq<string>)
      requires Valid() && forall m :: m in members ==> m != ""
      modifies this
      ensures Valid() && old(idx).Keys <= idx.Keys <= old(idx).Keys + Elems(members)
      ensures Cached(idx.Keys, members, vpp.ifs)
    {
      for i := 0 to |members|
        invariant Valid() && old(idx).Keys <= idx.Keys <= old(idx).Keys + Elems(members)
        invariant Cached(idx.Keys, members[..i], vpp.ifs)
      {
        assert members[i] in members && members[..i + 1] == members[..i] + [members[i]];
        var r := Resolve(members[i]);
      }
      assert members[..|members|] == members;
    }

    /** Members of a bridge are looked up and put into its domain. */
    method JoinMembers(members: seq<string>, bd: nat)
      requires Valid() && forall m :: m in members ==> m != ""
      modifies this, vpp`ifs
      ensures Valid() && vpp.ifs == Joined(old(vpp.ifs), Elems(members), bd)
      ensures old(idx).Keys <= idx.Keys <= old(idx).Keys + Elems(members)
      ensures Cached(idx.Keys, members, vpp.ifs)
    {
      JoinedNone(vpp.ifs, bd);
      assert Elems(members[..0]) == {};
      for k := 0 to |members|
        invariant Valid() && vpp.ifs == Joined(old(vpp.ifs), Elems(members[..k]), bd)
        invariant old(idx).Keys <= idx.Keys <= old(idx).Keys + Elems(members)
        invariant Cached(idx.Keys, members[..k], vpp.ifs)
      {
        assert members[k] in members && members[..k + 1] == members[..k] + [members[k]];
        JoinedMore(old(vpp.ifs), Elems(members[..k]), members[k], bd);
        assert Elems(members[..k + 1]) == Elems(members[..k]) + {members[k]};
        JoinMember(members[k], bd);
      }
      assert members[..|members|] == members;
    }

    method JoinMember(m: string, bd: nat)
      requires Valid() && m != ""
      modifies this, vpp`ifs
      ensures Valid() && vpp.ifs == Joined(old(vpp.ifs), {m}, bd) && Tags(vpp.ifs) == Tags(old(vpp.ifs))
      ensures old(idx).Keys <= idx.Keys <= old(idx).Keys + {m} && (m in Tags(vpp.ifs) ==> m in idx)
    {
      var r := Resolve(m);
      if r.Some? {
        ghost var before := vpp.ifs;
        vpp.Join(r.value, bd);
        JoinedOne(before, r.value, bd);
        RejoinedGrows(before, vpp.ifs, vpp.boot, map[]);
      } else {
        assert forall i :: i in vpp.ifs ==> vpp.ifs[i].tag in Tags(vpp.ifs);
        assert vpp.ifs == Joined(vpp.ifs, {m}, bd);
      }
    }

    /** EnsureNDPTap searches by tag without the cache, creates the tap with its tag, and
        puts it into the bridge's domain. */
    method EnsureNdpTap(tap: string, bd: nat) returns (r: Option<nat>)
      requires Valid() && tap != ""
      modifies vpp`ifs, vpp`failures
      ensures Valid() && Grown(old(vpp.ifs), vpp.ifs, map[tap := Spec(NdpTap, NoHandle)]) && Finds(vpp.ifs, tap, r)
      ensures tap in Tags(old(vpp.ifs)) ==> r.Some?
      ensures vpp.failures == old(vpp.failures) + if r.None? then 1 else 0
      ensures BdKept(old(vpp.ifs), vpp.ifs, {tap}) && (r.Some? ==> PlacedAt(vpp.ifs, tap, bd))
    {
      r := FindByTag(tap);
      if r.None? {
        ghost var before := vpp.ifs;
        r := vpp.Create(Spec(NdpTap, NoHandle));
        if r.None? {
          GrownSelf(vpp.ifs, map[tap := Spec(NdpTap, NoHandle)]);
          return;
        }
        CreateThenTag(before, r.value, vpp.ifs[r.value], tap, vpp.boot);
        vpp.TagInterface(r.value, tap);
        EnsuredGrows(before, vpp.ifs, tap, map[tap := Spec(NdpTap, NoHandle)]);
      }
      EnsureThenJoin(old(vpp.ifs), vpp.ifs, r.value, tap, Spec(NdpTap, NoHandle), bd, vpp.boot);
      vpp.Join(r.value, bd);
    }

    /** ApplyBridge: unless the domain cannot be created, puts its members into it, then
        the loopback that carries its addresses, if it has any. */
    method ApplyBridge(name: string, bd: nat, members: seq<string>, bvi: bool) returns (ok: bool)
      requires Valid() && forall m :: m in members ==> m != ""
      modifies this, vpp
      ensures Valid() && Grown(old(vpp.ifs), vpp.ifs, map[BviName(name) := Spec(Loopback, NoHandle)])
      ensures !bvi ==> Rejoined(old(vpp.ifs), vpp.ifs)
      ensures old(vpp.bds) <= vpp.bds <= old(vpp.bds) + {bd}
      ensures vpp.failures == old(vpp.failures) + if ok then 0 else 1
      ensures ok ==> bd in vpp.bds && (bvi ==> BviName(name) in Tags(vpp.ifs))
      ensures BdKept(old(vpp.ifs), vpp.ifs, Elems(members) + if bvi then {BviName(name)} else {})
      ensures ok ==> forall t :: t in Tags(vpp.ifs) && (t in members || (bvi && t == BviName(name))) ==> PlacedAt(vpp.ifs, t, bd)
      ensures old(idx).Keys <= idx.Keys <= old(idx).Keys + Elems(members) + {BviName(name)}
      ensures ok ==> Cached(idx.Keys, members, old(vpp.ifs))
    {
      ghost var want := map[BviName(name) := Spec(Loopback, NoHandle)];
      ok := vpp.CreateDomain(bd);
      if !ok {
        return;
      }
      JoinMembers(members, bd);
      ghost var mid := vpp.ifs;
      RejoinedGrows(old(vpp.ifs), mid, vpp.boot, want);
      if bvi {
        ok := JoinLoopback(BviName(name), bd);
        GrownTrans(old(vpp.ifs), mid, vpp.ifs, want);
        MembersStay(mid, vpp.ifs, want, members, BviName(name), bd);
      }
    }

    /** The loopback of a bridge. */
    method JoinLoopback(name: string, bd: nat) returns (ok: bool)
      requires Valid() && name != ""
      modifies this, vpp`ifs, vpp`failures
      ensures Valid() && Grown(old(vpp.ifs), vpp.ifs, map[name := Spec(Loopback, NoHandle)])
      ensures vpp.failures == old(vpp.failures) + if ok then 0 else 1
      ensures old(idx).Keys <= idx.Keys <= old(idx).Keys + {name}
      ensures BdKept(old(vpp.ifs), vpp.ifs, {name}) && (ok ==> PlacedAt(vpp.ifs, name, bd))
    {
      var r := Ensure(name, Spec(Loopback, NoHandle));
      ok := r.Some?;
      if ok {
        EnsureThenJoin(old(vpp.ifs), vpp.ifs, r.value, name, Spec(Loopback, NoHandle), bd, vpp.boot);
        vpp.Join(r.value, bd);
      } else {
        EnsuredGrows(old(vpp.ifs), vpp.ifs, name, map[name := Spec(Loopback, NoHandle)]);
        EnsuredPlaces(old(vpp.ifs), vpp.ifs, name, Spec(Loopback, NoHandle));
      }
    }

    /** One device, by kind. */
    method ApplyDevice(name: string, d: Device, ghost want: map<string, Spec>) returns (ok: bool)
      requires Valid() && name != "" && d.NamesOk() && (d.DpdkPort? ==> name in vpp.boot)
      requires d.HasIface() ==> name in want && want[name] == SpecFor(vpp.parse, d)
      requires d.BridgeDevice? && d.bvi ==> BviName(name) in want && want[BviName(name)] == Spec(Loopback, NoHandle)
      modifies this, vpp
      ensures Valid() && Grown(old(vpp.ifs), vpp.ifs, want)
      ensures old(vpp.bds) <= vpp.bds <= old(vpp.bds) + DomainsOf(d)
      ensures ok ==> DomainsOf(d) <= vpp.bds && TagsOf(name, d) <= Tags(vpp.ifs)
      ensures old(idx).Keys <= idx.Keys <= old(idx).Keys + NamesOf(name, d)
      ensures ok ==> Cached(idx.Keys, MembersOf(d), old(vpp.ifs))
      ensures BdKept(old(vpp.ifs), vpp.ifs, JoinsOf(name, d))
      ensures ok && d.BridgeDevice? ==> forall t :: t in Tags(vpp.ifs) && t in JoinsOf(name, d) ==> PlacedAt(vpp.ifs, t, d.bd)
      ensures vpp.failures >= old(vpp.failures)
      ensures CanApply(old(vpp.ifs), vpp.parse, name, d) && vpp.failures == old(vpp.failures) ==> ok
    {
      if d.OtherPort? {
        GrownSelf(vpp.ifs, want);
        ok := true;
      } else if d.BridgeDevice? {
        ok := ApplyBridge(name, d.bd, d.members, d.bvi);
        if d.bvi {
          GrownWider(old(vpp.ifs), vpp.ifs, BviName(name), want);
        } else {
          RejoinedGrows(old(vpp.ifs), vpp.ifs, vpp.boot, want);
        }
      } else {
        ok := ApplyInterface(name, d);
        EnsuredGrows(old(vpp.ifs), vpp.ifs, name, want);
        EnsuredPlaces(old(vpp.ifs), vpp.ifs, name, want[name]);
      }
    }

    /** A device that is an interface, by kind. */
    method ApplyInterface(name: string, d: Device) returns (ok: bool)
      requires Valid() && name != "" && d.HasIface() && d.NamesOk() && (d.DpdkPort? ==> name in vpp.boot)
      modifies this, vpp`ifs, vpp`failures
      ensures Valid() && Ensured(old(vpp.ifs), vpp.ifs, name, SpecFor(vpp.parse, d))
      ensures ok ==> name in Tags(vpp.ifs)
      ensures old(idx).Keys <= idx.Keys <= old(idx).Keys + NamesOf(name, d)
      ensures ok ==> Cached(idx.Keys, MembersOf(d), old(vpp.ifs))
      ensures vpp.failures >= old(vpp.failures)
      ensures CanApply(old(vpp.ifs), vpp.parse, name, d) && vpp.failures == old(vpp.failures) ==> ok
    {
      var r: Option<nat> := None;
      if d.DpdkPort? {
        r := EnsureDpdk(name);
      } else if d.VlanDevice? {
        r := ApplyVlan(name, d.parent);
      } else if d.VxlanDevice? {
        r := Resolve(name);
        if r.None? && vpp.parse(d.local).Some? && vpp.parse(d.remote).Some? {
          r := Ensure(name, SpecFor(vpp.parse, d));
        }
      } else {
        r := Ensure(name, SpecFor(vpp.parse, d));
        if r.Some? && d.BondDevice? {
          ResolveMembers(d.members);
          EnsuredGrows(old(vpp.ifs), vpp.ifs, name, map[name := SpecFor(vpp.parse, d)]);
          MembersTagged(old(vpp.ifs), vpp.ifs, map[name := SpecFor(vpp.parse, d)], d.members, idx.Keys);
        }
      }
      ok := r.Some?;
    }

    /** One device of the configuration, in a phase that began with `start`. */
    method ApplyConfigured(cfg: VppConfig, n: string, ghost start: Ifs) returns (ok: bool)
      requires Valid() && ValidConfig(cfg, vpp.boot) && n in cfg && Grown(start, vpp.ifs, Specs(vpp.parse, cfg))
      modifies this, vpp
      ensures Valid() && Grown(start, vpp.ifs, Specs(vpp.parse, cfg))
      ensures old(vpp.bds) <= vpp.bds <= old(vpp.bds) + Domains(cfg)
      ensures ok ==> DoneWith(start, vpp.ifs, vpp.bds, idx.Keys, cfg, n)
      ensures forall m :: m in cfg && m != n && DoneWith(start, old(vpp.ifs), old(vpp.bds), old(idx).Keys, cfg, m) ==>
                DoneWith(start, vpp.ifs, vpp.bds, idx.Keys, cfg, m)
      ensures old(idx).Keys <= idx.Keys <= old(idx).Keys + Mentioned(cfg)
      ensures vpp.failures >= old(vpp.failures)
      ensures CanApply(start, vpp.parse, n, cfg[n]) && vpp.failures == old(vpp.failures) ==> ok
    {
      ghost var ifs, bds, names := vpp.ifs, vpp.bds, idx.Keys;
      ghost var want := Specs(vpp.parse, cfg);
      SpecsAt(vpp.parse, cfg, n, vpp.boot);
      CanApplyLater(start, ifs, want, vpp.parse, n, cfg[n]);
      ok := ApplyDevice(n, cfg[n], want);
      AppliedOne(start, ifs, vpp.ifs, bds, vpp.bds, vpp.parse, cfg, vpp.boot);
      CachedBefore(start, ifs, cfg, vpp.parse, idx.Keys);
      if ok {
        NowDone(start, ifs, vpp.ifs, vpp.bds, idx.Keys, vpp.parse, cfg, n, vpp.boot);
      }
      forall m | m in cfg && m != n && DoneWith(start, ifs, bds, names, cfg, m)
        ensures DoneWith(start, vpp.ifs, vpp.bds, idx.Keys, cfg, m)
      {
        StillDone(start, ifs, vpp.ifs, bds, vpp.bds, names, idx.Keys, want, cfg, n, m);
      }
    }

    /** The devices of one phase, in an arbitrary order; one that fails is skipped. */
    method ApplyPhase(cfg: VppConfig, phase: nat) returns (ok: bool)
      requires Valid() && ValidConfig(cfg, vpp.boot)
      modifies this, vpp
      ensures Valid() && Grown(old(vpp.ifs), vpp.ifs, Specs(vpp.parse, cfg))
      ensures old(vpp.bds) <= vpp.bds <= old(vpp.bds) + Domains(cfg)
      ensures ok ==> forall n :: n in cfg && cfg[n].Phase() == phase ==>
                       DoneWith(old(vpp.ifs), vpp.ifs, vpp.bds, idx.Keys, cfg, n)
      ensures old(idx).Keys <= idx.Keys <= old(idx).Keys + Mentioned(cfg)
      ensures vpp.failures >= old(vpp.failures)
      ensures CanApplyPhase(old(vpp.ifs), vpp.parse, cfg, phase) && vpp.failures == old(vpp.failures) ==> ok
    {
      ok := true;
      GrownSelf(vpp.ifs, Specs(vpp.parse, cfg));
      var rest := cfg.Keys;
      while rest != {}
        invariant rest <= cfg.Keys && Valid() && Grown(old(vpp.ifs), vpp.ifs, Specs(vpp.parse, cfg))
        invariant old(vpp.bds) <= vpp.bds <= old(vpp.bds) + Domains(cfg)
        invariant ok ==> forall n :: n in cfg && n !in rest && cfg[n].Phase() == phase ==>
                           DoneWith(old(vpp.ifs), vpp.ifs, vpp.bds, idx.Keys, cfg, n)
        invariant old(idx).Keys <= idx.Keys <= old(idx).Keys + Mentioned(cfg)
        invariant vpp.failures >= old(vpp.failures)
        invariant CanApplyPhase(old(vpp.ifs), vpp.parse, cfg, phase) && vpp.failures == old(vpp.failures) ==> ok
      {
        var n :| n in rest;
        rest := rest - {n};
        if cfg[n].Phase() == phase {
          var one := ApplyConfigured(cfg, n, old(vpp.ifs));
          ok := ok && one;
        }
      }
    }

    /** provisionNDPTaps: the taps, when the bridges are done. */
    method ApplyTaps(cfg: VppConfig) returns (ok: bool)
      requires Valid() && ValidConfig(cfg, vpp.boot)
      modifies vpp`ifs, vpp`failures
      ensures Valid() && Grown(old(vpp.ifs), vpp.ifs, Specs(vpp.parse, cfg))
      ensures ok ==> Taps(cfg) <= Tags(vpp.ifs)
      ensures BdKept(old(vpp.ifs), vpp.ifs, Taps(cfg))
      ensures ok ==> TapsPlaced(vpp.ifs, cfg)
      ensures vpp.failures >= old(vpp.failures) && (vpp.failures == old(vpp.failures) ==> ok)
    {
      ok := true;
      GrownSelf(vpp.ifs, Specs(vpp.parse, cfg));
      var rest := cfg.Keys;
      while rest != {}
        invariant rest <= cfg.Keys && Valid() && Grown(old(vpp.ifs), vpp.ifs, Specs(vpp.parse, cfg))
        invariant BdKept(old(vpp.ifs), vpp.ifs, Taps(cfg))
        invariant ok ==> forall b :: b in cfg && b !in rest && HasTap(cfg, b) ==> cfg[b].tap.value in Tags(vpp.ifs)
        invariant ok ==> forall b :: b in cfg && b !in rest && OwnTap(cfg, b) ==> PlacedAt(vpp.ifs, cfg[b].tap.value, cfg[b].bd)
        invariant vpp.failures >= old(vpp.failures) && (vpp.failures == old(vpp.failures) ==> ok)
      {
        var b :| b in rest;
        rest := rest - {b};
        if cfg[b].BridgeDevice? && cfg[b].tap.Some? {
          var one := ApplyTap(cfg, b, old(vpp.ifs));
          ok := ok && one;
        }
      }
    }

    method ApplyTap(cfg: VppConfig, b: string, ghost start: Ifs) returns (ok: bool)
      requires Valid() && ValidConfig(cfg, vpp.boot) && b in cfg && HasTap(cfg, b)
      requires Grown(start, vpp.ifs, Specs(vpp.parse, cfg)) && BdKept(start, vpp.ifs, Taps(cfg))
      modifies vpp`ifs, vpp`failures
      ensures Valid() && Grown(start, vpp.ifs, Specs(vpp.parse, cfg)) && BdKept(start, vpp.ifs, Taps(cfg))
      ensures ok ==> PlacedAt(vpp.ifs, cfg[b].tap.value, cfg[b].bd)
      ensures forall t :: t in Tags(old(vpp.ifs)) && t != "" ==> t in Tags(vpp.ifs)
      ensures forall m :: m in cfg && m != b && OwnTap(cfg, m) && PlacedAt(old(vpp.ifs), cfg[m].tap.value, cfg[m].bd) ==>
                PlacedAt(vpp.ifs, cfg[m].tap.value, cfg[m].bd)
      ensures vpp.failures == old(vpp.failures) + if ok then 0 else 1
    {
      ghost var ifs := vpp.ifs;
      ghost var want := Specs(vpp.parse, cfg);
      TapWanted(vpp.parse, cfg, b, vpp.boot);
      var t := cfg[b].tap.value;
      var r := EnsureNdpTap(t, cfg[b].bd);
      ok := r.Some?;
      GrownWider(ifs, vpp.ifs, t, want);
      AppliedOne(start, ifs, vpp.ifs, vpp.bds, vpp.bds, vpp.parse, cfg, vpp.boot);
      BdKeptTrans(start, ifs, vpp.ifs, want, Taps(cfg));
      forall m | m in cfg && m != b && OwnTap(cfg, m) && PlacedAt(ifs, cfg[m].tap.value, cfg[m].bd)
        ensures PlacedAt(vpp.ifs, cfg[m].tap.value, cfg[m].bd)
      {
        TapWanted(vpp.parse, cfg, m, vpp.boot);
        PlaceKept(ifs, vpp.ifs, want, {t}, cfg[m].tap.value, cfg[m].bd);
      }
    }

    /** The devices but for the bridges, phase by phase: ethernets, bonds, VLANs, VXLANs. */
    method ApplyMembers(cfg: VppConfig) returns (ok: bool)
      requires Valid() && ValidConfig(cfg, vpp.boot)
      modifies this, vpp
      ensures Valid() && Grown(old(vpp.ifs), vpp.ifs, Specs(vpp.parse, cfg))
      ensures old(vpp.bds) <= vpp.bds <= old(vpp.bds) + Domains(cfg)
      ensures ok ==> forall n :: n in cfg && cfg[n].Phase() < BRIDGES ==> StaysDone(old(vpp.ifs), vpp.ifs, vpp.bds, idx.Keys, cfg, n)
      ensures old(idx).Keys <= idx.Keys <= old(idx).Keys + Mentioned(cfg)
      ensures vpp.failures >= old(vpp.failures)
      ensures Feasible(old(vpp.ifs), vpp.parse, cfg) && vpp.failures == old(vpp.failures) ==> ok
    {
      ok := true;
      ghost var start := vpp.ifs;
      GrownSelf(start, Specs(vpp.parse, cfg));
      for phase := 0 to BRIDGES
        invariant Valid() && Grown(start, vpp.ifs, Specs(vpp.parse, cfg))
        invariant old(vpp.bds) <= vpp.bds <= old(vpp.bds) + Domains(cfg)
        invariant ok ==> forall n :: n in cfg && cfg[n].Phase() < phase ==> StaysDone(start, vpp.ifs, vpp.bds, idx.Keys, cfg, n)
        invariant old(idx).Keys <= idx.Keys <= old(idx).Keys + Mentioned(cfg)
        invariant vpp.failures >= old(vpp.failures)
        invariant Feasible(start, vpp.parse, cfg) && vpp.failures == old(vpp.failures) ==> ok
      {
        var one := ApplyNextPhase(cfg, phase, start, ok);
        ok := ok && one;
      }
    }

    /** One phase after those before it. */
    method ApplyNextPhase(cfg: VppConfig, phase: nat, ghost start: Ifs, ghost sofar: bool) returns (ok: bool)
      requires Valid() && ValidConfig(cfg, vpp.boot) && Grown(start, vpp.ifs, Specs(vpp.parse, cfg))
      requires sofar ==> forall n :: n in cfg && cfg[n].Phase() < phase ==> StaysDone(start, vpp.ifs, vpp.bds, idx.Keys, cfg, n)
      modifies this, vpp
      ensures Valid() && Grown(start, vpp.ifs, Specs(vpp.parse, cfg))
      ensures old(vpp.bds) <= vpp.bds <= old(vpp.bds) + Domains(cfg)
      ensures sofar && ok ==> forall n :: n in cfg && cfg[n].Phase() <= phase ==> StaysDone(start, vpp.ifs, vpp.bds, idx.Keys, cfg, n)
      ensures sofar && ok ==> forall n :: n in cfg && cfg[n].BridgeDevice? && cfg[n].Phase() == phase ==>
                                Placed(Tags(old(vpp.ifs)), vpp.ifs, cfg, n)
      ensures old(idx).Keys <= idx.Keys <= old(idx).Keys + Mentioned(cfg)
      ensures vpp.failures >= old(vpp.failures)
      ensures sofar && Feasible(start, vpp.parse, cfg) && vpp.failures == old(vpp.failures) ==> ok
    {
      ghost var ifs, bds, names := vpp.ifs, vpp.bds, idx.Keys;
      ghost var want := Specs(vpp.parse, cfg);
      if sofar && Feasible(start, vpp.parse, cfg) {
        PhaseFeasible(start, ifs, bds, names, vpp.parse, cfg, phase);
      }
      ok := ApplyPhase(cfg, phase);
      AppliedOne(start, ifs, vpp.ifs, bds, vpp.bds, vpp.parse, cfg, vpp.boot);
      if sofar && ok {
        forall n | n in cfg && cfg[n].Phase() <= phase
          ensures StaysDone(start, vpp.ifs, vpp.bds, idx.Keys, cfg, n)
        {
          if cfg[n].Phase() == phase {
            NowKept(start, ifs, vpp.ifs, vpp.bds, names, idx.Keys, want, cfg, n, bds);
          } else {
            assert StaysDone(start, ifs, bds, names, cfg, n);
          }
        }
      }
    }

    /** The apply phase of setupVPP: the devices, the bridges last, then the look-ups of NAT
        rules and proxy entries (`looked`), then the taps.  On success every interface that
        one bridge alone lists, its loopback and its tap end in the bridge's domain; and
        where nothing stands in the way it succeeds unless VPP refuses a creation. */
    method ApplyAll(cfg: VppConfig, looked: seq<string>) returns (ok: bool)
      requires Valid() && ValidConfig(cfg, vpp.boot) && forall m :: m in looked ==> m != ""
      modifies this, vpp
      ensures Valid() && Grown(old(vpp.ifs), vpp.ifs, Specs(vpp.parse, cfg))
      ensures old(vpp.bds) <= vpp.bds <= old(vpp.bds) + Domains(cfg)
      ensures ok ==> IfaceTags(cfg) <= Tags(vpp.ifs) && Domains(cfg) <= vpp.bds
      ensures ok ==> WellPlaced(vpp.ifs, cfg) && TapsPlaced(vpp.ifs, cfg)
      ensures old(idx).Keys <= idx.Keys <= old(idx).Keys + Mentioned(cfg) + Elems(looked)
      ensures ok ==> forall n :: n in cfg ==> Cached(idx.Keys, MembersOf(cfg[n]), old(vpp.ifs))
      ensures ok ==> MembersCached(idx.Keys, cfg)
      ensures Cached(idx.Keys, looked, old(vpp.ifs))
      ensures vpp.failures >= old(vpp.failures)
      ensures Feasible(old(vpp.ifs), vpp.parse, cfg) && vpp.failures == old(vpp.failures) ==> ok
    {
      ghost var start := vpp.ifs;
      ghost var want := Specs(vpp.parse, cfg);
      ok := ApplyMembers(cfg);
      ghost var there := Tags(vpp.ifs);
      assert ok ==> forall m :: m in cfg && cfg[m].Phase() < BRIDGES ==> TagsOf(m, cfg[m]) <= there;
      var bridges := ApplyNextPhase(cfg, BRIDGES, start, ok);
      ok := ok && bridges;
      if ok {
        AllThere(start, there, vpp.ifs, vpp.bds, idx.Keys, cfg);
      }
      ok := ApplyRest(cfg, looked, start, there, ok);
    }

    /** What comes after the bridges. */
    method ApplyRest(cfg: VppConfig, looked: seq<string>, ghost start: Ifs, ghost there: set<string>, sofar: bool) returns (ok: bool)
      requires Valid() && ValidConfig(cfg, vpp.boot) && forall m :: m in looked ==> m != ""
      requires Grown(start, vpp.ifs, Specs(vpp.parse, cfg))
      requires sofar ==> BridgesDone(start, there, vpp.ifs, vpp.bds, idx.Keys, cfg)
      modifies this, vpp`ifs, vpp`failures
      ensures Valid() && Grown(start, vpp.ifs, Specs(vpp.parse, cfg))
      ensures ok ==> IfaceTags(cfg) <= Tags(vpp.ifs) && Domains(cfg) <= vpp.bds
      ensures ok ==> WellPlaced(vpp.ifs, cfg) && TapsPlaced(vpp.ifs, cfg)
      ensures old(idx).Keys <= idx.Keys <= old(idx).Keys + Elems(looked)
      ensures ok ==> forall n :: n in cfg ==> Cached(idx.Keys, MembersOf(cfg[n]), start)
      ensures ok ==> MembersCached(idx.Keys, cfg)
      ensures Cached(idx.Keys, looked, start)
      ensures vpp.failures >= old(vpp.failures) && (sofar && vpp.failures == old(vpp.failures) ==> ok)
    {
      ghost var ifs, names := vpp.ifs, idx.Keys;
      ghost var want := Specs(vpp.parse, cfg);
      ResolveMembers(looked);
      MembersTagged(start, vpp.ifs, want, looked, idx.Keys);
      var taps := ApplyTaps(cfg);
      AppliedOne(start, ifs, vpp.ifs, vpp.bds, vpp.bds, vpp.parse, cfg, vpp.boot);
      ok := sofar && taps;
      if ok {
        AllPresent(vpp.ifs, vpp.bds, cfg);
        AllCached(start, ifs, vpp.bds, names, idx.Keys, cfg);
        AllPlaced(start, ifs, vpp.ifs, there, vpp.bds, names, want, cfg, vpp.boot);
      }
    }
  }

  /** The state after a bridge phase in which all went well. */
  ghost predicate BridgesDone(start: Ifs, there: set<string>, ifs: Ifs, bds: set<nat>, names: set<string>, cfg: VppConfig) {
    && (forall n :: n in cfg ==> StaysDone(start, ifs, bds, names, cfg, n))
    && (forall n :: n in cfg && cfg[n].BridgeDevice? ==> Placed(there, ifs, cfg, n))
    && (forall m :: m in cfg && cfg[m].HasIface() ==> m in there)
  }

  lemma AllThere(start: Ifs, there: set<string>, ifs: Ifs, bds: set<nat>, names: set<string>, cfg: VppConfig)
    requires forall n :: n in cfg && cfg[n].Phase() <= BRIDGES ==> StaysDone(start, ifs, bds, names, cfg, n)
    requires forall n :: n in cfg && cfg[n].BridgeDevice? && cfg[n].Phase() == BRIDGES ==> Placed(there, ifs, cfg, n)
    requires forall m :: m in cfg && cfg[m].Phase() < BRIDGES ==> TagsOf(m, cfg[m]) <= there
    ensures BridgesDone(start, there, ifs, bds, names, cfg)
  {
    forall m | m in cfg && cfg[m].HasIface()
      ensures m in there
    {
      assert m in TagsOf(m, cfg[m]);
    }
  }

  function Caching(idx: map<string, nat>, name: string, r: Option<nat>): map<string, nat> {
    if r.Some? then idx[name := r.value] else idx
  }

  // ----- What one device is responsible for -----

  function DomainsOf(d: Device): set<nat> {
    if d.BridgeDevice? then {d.bd} else {}
  }

  function TagsOf(name: string, d: Device): set<string> {
    if d.BridgeDevice? then (if d.bvi then {BviName(name)} else {}) else if d.HasIface() then {name} else {}
  }

  /** The names its apply resolves. */
  function NamesOf(name: string, d: Device): set<string> {
    match d
    case BondDevice(members) => {name} + Elems(members)
    case VlanDevice(parent) => {name, parent}
    case BridgeDevice(_, members, _, _) => {BviName(name)} + Elems(members)
    case _ => {name}
  }

  /** The names a bond or bridge collects. */
  function MembersOf(d: Device): seq<string> {
    if d.BondDevice? || d.BridgeDevice? then d.members else []
  }

  // Bridge domains of interfaces.

  /** Interfaces outside `tags` keep their domain. */
  ghost predicate BdKept(ifs: Ifs, ifs': Ifs, tags: set<string>) {
    forall i :: i in ifs && i in ifs' && ifs[i].tag !in tags && ifs'[i].tag !in tags ==> ifs'[i].bd == ifs[i].bd
  }

  /** The interface with the tag is there, in the domain. */
  ghost predicate PlacedAt(ifs: Ifs, t: string, bd: nat) {
    t in Tags(ifs) && forall i :: i in ifs && ifs[i].tag == t ==> ifs[i].bd == Some(bd)
  }

  lemma BdKeptTrans(a: Ifs, b: Ifs, c: Ifs, want: map<string, Spec>, tags: set<string>)
    requires BdKept(a, b, tags) && BdKept(b, c, tags) && Grown(a, b, want) && Grown(b, c, want) && "" !in tags
    ensures BdKept(a, c, tags)
  {
  }

  lemma PlaceKept(ifs: Ifs, ifs': Ifs, want: map<string, Spec>, tags: set<string>, t: string, bd: nat)
    requires Grown(ifs, ifs', want) && BdKept(ifs, ifs', tags) && t != "" && t !in tags && PlacedAt(ifs, t, bd)
    ensures PlacedAt(ifs', t, bd)
  {
    TagsKept(ifs, ifs', want, t);
  }

  lemma EnsuredPlaces(ifs: Ifs, ifs': Ifs, tag: string, spec: Spec)
    requires Ensured(ifs, ifs', tag, spec)
    ensures BdKept(ifs, ifs', {})
  {
  }

  /** An interface is ensured and put into a domain. */
  lemma EnsureThenJoin(ifs: Ifs, mid: Ifs, i: nat, tag: string, spec: Spec, bd: nat, boot: set<string>)
    requires Ensured(ifs, mid, tag, spec) && tag != "" && TagsUnique(mid) && BootPorts(mid, boot) && i in mid && mid[i].tag == tag
    ensures var ifs' := mid[i := mid[i].(bd := Some(bd))];
            && Grown(ifs, ifs', map[tag := spec]) && TagsUnique(ifs') && BootPorts(ifs', boot)
            && BdKept(ifs, ifs', {tag}) && PlacedAt(ifs', tag, bd) && tag in Tags(ifs')
            && forall idx :: Coherent(idx, mid) ==> Coherent(idx, ifs')
  {
    var ifs' := mid[i := mid[i].(bd := Some(bd))];
    EnsuredGrows(ifs, mid, tag, map[tag := spec]);
    EnsuredPlaces(ifs, mid, tag, spec);
    RejoinedGrows(mid, ifs', boot, map[tag := spec]);
    GrownTrans(ifs, mid, ifs', map[tag := spec]);
    JoinedOne(mid, i, bd);
    assert mid[i].tag in Tags(mid);
  }

  /** Members that have joined stay while the loopback joins. */
  lemma MembersStay(ifs: Ifs, ifs': Ifs, want: map<string, Spec>, members: seq<string>, bvi: string, bd: nat)
    requires Grown(ifs, ifs', want) && BdKept(ifs, ifs', {bvi}) && want.Keys == {bvi}
    requires forall i :: i in ifs && ifs[i].tag in members ==> ifs[i].bd == Some(bd)
    requires forall m :: m in members ==> m != ""
    ensures forall t :: t in Tags(ifs') && t in members && t != bvi ==> PlacedAt(ifs', t, bd)
  {
  }

  /** The tags a bridge puts into its domain. */
  function JoinsOf(name: string, d: Device): set<string> {
    if d.BridgeDevice? then Elems(d.members) + (if d.bvi then {BviName(name)} else {}) else {}
  }

  /** Of all bridges only `n` claims the tag. */
  ghost predicate OnlyIn(cfg: VppConfig, n: string, t: string) {
    n in cfg && t in JoinsOf(n, cfg[n]) && forall m :: m in cfg && m != n ==> t !in JoinsOf(m, cfg[m])
  }

  predicate HasTap(cfg: VppConfig, b: string)
    requires b in cfg
  {
    cfg[b].BridgeDevice? && cfg[b].tap.Some?
  }

  /** The bridge shares its tap with no other. */
  ghost predicate OwnTap(cfg: VppConfig, b: string)
    requires b in cfg
  {
    HasTap(cfg, b) && forall m :: m in cfg && m != b && HasTap(cfg, m) ==> cfg[m].tap != cfg[b].tap
  }

  /** What only this bridge claims and was there when it was applied, or is its loopback, is
      in its domain. */
  ghost predicate Placed(there: set<string>, ifs: Ifs, cfg: VppConfig, n: string)
    requires n in cfg && cfg[n].BridgeDevice?
  {
    forall t :: t != "" && OnlyIn(cfg, n, t) && (t in there || (cfg[n].bvi && t == BviName(n))) ==> PlacedAt(ifs, t, cfg[n].bd)
  }

  predicate IsPortDevice(d: Device) {
    d.AfPacketPort? || d.LoopbackPort? || d.AvfPort? || d.DpdkPort?
  }

  // When a device can be applied.

  ghost predicate CanApply(ifs: Ifs, parse: Parser, name: string, d: Device) {
    match d
    case VxlanDevice(_, local, remote, _, _) => name in Tags(ifs) || (parse(local).Some? && parse(remote).Some?)
    case DpdkPort => name in Tags(ifs) || exists i :: i in ifs && ifs[i].name == name
    case VlanDevice(parent) => name in Tags(ifs) || parent in Tags(ifs)
    case _ => true
  }

  ghost predicate CanApplyPhase(ifs: Ifs, parse: Parser, cfg: VppConfig, phase: nat) {
    forall n :: n in cfg && cfg[n].Phase() == phase ==> CanApply(ifs, parse, n, cfg[n])
  }

  lemma CanApplyLater(ifs: Ifs, ifs': Ifs, want: map<string, Spec>, parse: Parser, name: string, d: Device)
    requires Grown(ifs, ifs', want) && name != "" && d.NamesOk()
    ensures CanApply(ifs, parse, name, d) ==> CanApply(ifs', parse, name, d)
  {
    if name in Tags(ifs) {
      TagsKept(ifs, ifs', want, name);
    }
    if d.VlanDevice? && d.parent in Tags(ifs) {
      TagsKept(ifs, ifs', want, d.parent);
    }
    if d.DpdkPort? && exists i :: i in ifs && ifs[i].name == name {
      var i :| i in ifs && ifs[i].name == name;
      assert ifs'[i].name == name;
    }
  }

  /** Addresses parse, boot-time ports exist, and the parent of every VLAN is there or is a
      port or bond of the configuration. */
  ghost predicate Feasible(ifs: Ifs, parse: Parser, cfg: VppConfig) {
    forall n :: n in cfg ==>
      || CanApply(ifs, parse, n, cfg[n])
      || (cfg[n].VlanDevice? && cfg[n].parent in cfg &&
          (IsPortDevice(cfg[cfg[n].parent]) || cfg[cfg[n].parent].BondDevice?))
  }

  lemma GrownSelf(ifs: Ifs, want: map<string, Spec>)
    ensures Grown(ifs, ifs, want)
  {
  }

  // Devices done with.

  /** The device is there, its members of the start of the phase are cached, and a bridge
      holds what it should. */
  ghost predicate DoneWith(start: Ifs, ifs: Ifs, bds: set<nat>, names: set<string>, cfg: VppConfig, n: string)
    requires n in cfg
  {
    && Present(ifs, bds, n, cfg[n]) && Cached(names, MembersOf(cfg[n]), start)
    && (cfg[n].BridgeDevice? ==> Placed(Tags(start), ifs, cfg, n))
  }

  lemma NowDone(start: Ifs, ifs: Ifs, ifs': Ifs, bds: set<nat>, names: set<string>, parse: Parser, cfg: VppConfig, n: string,
                boot: set<string>)
    requires ValidConfig(cfg, boot) && n in cfg && Grown(start, ifs, Specs(parse, cfg)) && Grown(ifs, ifs', Specs(parse, cfg))
    requires Present(ifs', bds, n, cfg[n]) && Cached(names, MembersOf(cfg[n]), start)
    requires cfg[n].BridgeDevice? ==> forall t :: t in Tags(ifs') && t in JoinsOf(n, cfg[n]) ==> PlacedAt(ifs', t, cfg[n].bd)
    ensures DoneWith(start, ifs', bds, names, cfg, n)
  {
    if cfg[n].BridgeDevice? {
      forall t | t != "" && OnlyIn(cfg, n, t) && (t in Tags(start) || (cfg[n].bvi && t == BviName(n)))
        ensures PlacedAt(ifs', t, cfg[n].bd)
      {
        if t in Tags(start) {
          TagsKept(start, ifs, Specs(parse, cfg), t);
          TagsKept(ifs, ifs', Specs(parse, cfg), t);
        }
      }
    }
  }

  lemma StillDone(start: Ifs, ifs: Ifs, ifs': Ifs, bds: set<nat>, bds': set<nat>, names: set<string>, names': set<string>,
                  want: map<string, Spec>, cfg: VppConfig, n: string, m: string)
    requires n in cfg && m in cfg && m != n && DoneWith(start, ifs, bds, names, cfg, m)
    requires Grown(ifs, ifs', want) && BdKept(ifs, ifs', JoinsOf(n, cfg[n])) && names <= names'
    requires Present(ifs', bds', m, cfg[m])
    ensures DoneWith(start, ifs', bds', names', cfg, m)
  {
    if cfg[m].BridgeDevice? {
      forall t | t != "" && OnlyIn(cfg, m, t) && (t in Tags(start) || (cfg[m].bvi && t == BviName(m)))
        ensures PlacedAt(ifs', t, cfg[m].bd)
      {
        assert t !in JoinsOf(n, cfg[n]);
        PlaceKept(ifs, ifs', want, JoinsOf(n, cfg[n]), t, cfg[m].bd);
      }
    }
  }

  /** What later phases keep of a device: it is there, and the members that were there at
      the start, or are devices of an earlier phase, are cached. */
  ghost predicate StaysDone(start: Ifs, ifs: Ifs, bds: set<nat>, names: set<string>, cfg: VppConfig, n: string)
    requires n in cfg
  {
    && Present(ifs, bds, n, cfg[n]) && Cached(names, MembersOf(cfg[n]), start)
    && forall m :: m in MembersOf(cfg[n]) && m in cfg && cfg[m].HasIface() && cfg[m].Phase() < cfg[n].Phase() ==> m in names
  }

  lemma NowKept(start: Ifs, ifs: Ifs, ifs': Ifs, bds': set<nat>, names: set<string>, names': set<string>,
                want: map<string, Spec>, cfg: VppConfig, n: string, bds: set<nat>)
    requires n in cfg && Grown(start, ifs, want) && DoneWith(ifs, ifs', bds', names', cfg, n) && cfg[n].NamesOk()
    requires forall m :: m in cfg && cfg[m].Phase() < cfg[n].Phase() ==> StaysDone(start, ifs, bds, names, cfg, m)
    ensures StaysDone(start, ifs', bds', names', cfg, n)
  {
    MembersTagged(start, ifs, want, MembersOf(cfg[n]), names');
    forall m | m in MembersOf(cfg[n]) && m in cfg && cfg[m].HasIface() && cfg[m].Phase() < cfg[n].Phase()
      ensures m in names'
    {
      assert StaysDone(start, ifs, bds, names, cfg, m);
      assert m in TagsOf(m, cfg[m]) && m != "";
    }
  }

  /** With the earlier phases done, the devices of a phase can be applied. */
  lemma PhaseFeasible(start: Ifs, ifs: Ifs, bds: set<nat>, names: set<string>, parse: Parser, cfg: VppConfig, phase: nat)
    requires Grown(start, ifs, Specs(parse, cfg)) && Feasible(start, parse, cfg)
    requires forall n :: n in cfg ==> n != "" && cfg[n].NamesOk()
    requires forall n :: n in cfg && cfg[n].Phase() < phase ==> StaysDone(start, ifs, bds, names, cfg, n)
    ensures CanApplyPhase(ifs, parse, cfg, phase)
  {
    forall n | n in cfg && cfg[n].Phase() == phase
      ensures CanApply(ifs, parse, n, cfg[n])
    {
      CanApplyLater(start, ifs, Specs(parse, cfg), parse, n, cfg[n]);
      if !CanApply(start, parse, n, cfg[n]) {
        var p := cfg[n].parent;
        assert StaysDone(start, ifs, bds, names, cfg, p);
        assert p in TagsOf(p, cfg[p]);
      }
    }
  }

  lemma AllCached(start: Ifs, ifs: Ifs, bds: set<nat>, names: set<string>, names': set<string>, cfg: VppConfig)
    requires forall n :: n in cfg ==> StaysDone(start, ifs, bds, names, cfg, n)
    requires names <= names'
    ensures forall n :: n in cfg ==> Cached(names', MembersOf(cfg[n]), start)
    ensures MembersCached(names', cfg)
  {
    forall n | n in cfg
      ensures Cached(names', MembersOf(cfg[n]), start)
      ensures forall m :: m in cfg && Follows(cfg, m, n) ==> m in names'
    {
      assert StaysDone(start, ifs, bds, names, cfg, n);
    }
  }

  /** The member comes before its bond or bridge: any interface before a bridge, a port
      before a bond. */
  predicate Follows(cfg: VppConfig, m: string, n: string)
    requires m in cfg && n in cfg
  {
    m in MembersOf(cfg[n]) && cfg[m].HasIface() && (cfg[n].BridgeDevice? || IsPortDevice(cfg[m]))
  }

  ghost predicate MembersCached(names: set<string>, cfg: VppConfig) {
    forall n, m :: n in cfg && m in cfg && Follows(cfg, m, n) ==> m in names
  }

  /** Every interface that one bridge alone lists, and its loopback, are in its domain. */
  ghost predicate WellPlaced(ifs: Ifs, cfg: VppConfig) {
    && (forall n, m :: n in cfg && cfg[n].BridgeDevice? && m in cfg && cfg[m].HasIface() && OnlyIn(cfg, n, m) ==>
          PlacedAt(ifs, m, cfg[n].bd))
    && (forall n :: n in cfg && cfg[n].BridgeDevice? && cfg[n].bvi && OnlyIn(cfg, n, n + "-bvi") ==>
          PlacedAt(ifs, n + "-bvi", cfg[n].bd))
  }

  /** And the tap that a bridge shares with no other. */
  ghost predicate TapsPlaced(ifs: Ifs, cfg: VppConfig) {
    forall n :: n in cfg && OwnTap(cfg, n) ==> PlacedAt(ifs, cfg[n].tap.value, cfg[n].bd)
  }

  lemma AllPlaced(start: Ifs, ifs: Ifs, ifs': Ifs, there: set<string>, bds: set<nat>, names: set<string>,
                  want: map<string, Spec>, cfg: VppConfig, boot: set<string>)
    requires ValidConfig(cfg, boot) && Grown(ifs, ifs', want) && BdKept(ifs, ifs', Taps(cfg))
    requires forall n :: n in cfg && cfg[n].BridgeDevice? ==> Placed(there, ifs, cfg, n)
    requires forall m :: m in cfg && cfg[m].HasIface() ==> m in there
    ensures WellPlaced(ifs', cfg)
  {
    forall n, m | n in cfg && cfg[n].BridgeDevice? && m in cfg && cfg[m].HasIface() && OnlyIn(cfg, n, m)
      ensures PlacedAt(ifs', m, cfg[n].bd)
    {
      assert Placed(there, ifs, cfg, n);
      PlaceKept(ifs, ifs', want, Taps(cfg), m, cfg[n].bd);
    }
    forall n | n in cfg && cfg[n].BridgeDevice? && cfg[n].bvi && OnlyIn(cfg, n, BviName(n))
      ensures PlacedAt(ifs', BviName(n), cfg[n].bd)
    {
      assert Placed(there, ifs, cfg, n);
      assert BviName(n) in Bvis(cfg);
      PlaceKept(ifs, ifs', want, Taps(cfg), BviName(n), cfg[n].bd);
    }
  }

  /** Those of the names that exist have been resolved. */
  ghost predicate Cached(names: set<string>, members: seq<string>, ifs: Ifs) {
    forall m :: m in members && m != "" && m in Tags(ifs) ==> m in names
  }

  function Domains(cfg: VppConfig): set<nat> {
    set n | n in cfg && cfg[n].BridgeDevice? :: cfg[n].bd
  }

  function Mentioned(cfg: VppConfig): set<string> {
    set n, m | n in cfg && m in NamesOf(n, cfg[n]) :: m
  }

  ghost predicate Present(ifs: Ifs, bds: set<nat>, name: string, d: Device) {
    DomainsOf(d) <= bds && TagsOf(name, d) <= Tags(ifs)
  }

  /** The interfaces with one of the tags, put into the domain. */
  ghost function Joined(ifs: Ifs, tags: set<string>, bd: nat): Ifs {
    map i | i in ifs :: if ifs[i].tag in tags then ifs[i].(bd := Some(bd)) else ifs[i]
  }

  lemma JoinedNone(ifs: Ifs, bd: nat)
    ensures Joined(ifs, {}, bd) == ifs
  {
  }

  lemma JoinedOne(ifs: Ifs, i: nat, bd: nat)
    requires TagsUnique(ifs) && i in ifs && ifs[i].tag != ""
    ensures ifs[i := ifs[i].(bd := Some(bd))] == Joined(ifs, {ifs[i].tag}, bd)
  {
  }

  lemma JoinedMore(ifs: Ifs, tags: set<string>, m: string, bd: nat)
    ensures Joined(Joined(ifs, tags, bd), {m}, bd) == Joined(ifs, tags + {m}, bd)
  {
  }

  lemma MembersTagged(ifs: Ifs, ifs': Ifs, want: map<string, Spec>, members: seq<string>, names: set<string>)
    requires Grown(ifs, ifs', want) && Cached(names, members, ifs')
    ensures Cached(names, members, ifs)
  {
    forall m | m in members && m != "" && m in Tags(ifs)
      ensures m in Tags(ifs')
    {
      TagsKept(ifs, ifs', want, m);
    }
  }

  /** What was resolved of the names there later covers those there before. */
  lemma CachedBefore(a: Ifs, b: Ifs, cfg: VppConfig, parse: Parser, names: set<string>)
    requires Grown(a, b, Specs(parse, cfg))
    ensures forall n :: n in cfg && Cached(names, MembersOf(cfg[n]), b) ==> Cached(names, MembersOf(cfg[n]), a)
  {
    forall n | n in cfg && Cached(names, MembersOf(cfg[n]), b)
      ensures Cached(names, MembersOf(cfg[n]), a)
    {
      MembersTagged(a, b, Specs(parse, cfg), MembersOf(cfg[n]), names);
    }
  }

  lemma SpecsAt(parse: Parser, cfg: VppConfig, n: string, boot: set<string>)
    requires ValidConfig(cfg, boot) && n in cfg
    ensures cfg[n].HasIface() ==> n in Specs(parse, cfg) && Specs(parse, cfg)[n] == SpecFor(parse, cfg[n])
    ensures cfg[n].BridgeDevice? && cfg[n].bvi ==>
              BviName(n) in Specs(parse, cfg) && Specs(parse, cfg)[BviName(n)] == Spec(Loopback, NoHandle)
    ensures DomainsOf(cfg[n]) <= Domains(cfg) && NamesOf(n, cfg[n]) <= Mentioned(cfg)
  {
    if cfg[n].BridgeDevice? && cfg[n].bvi {
      assert BviName(n) in Bvis(cfg);
    }
  }

  lemma TapWanted(parse: Parser, cfg: VppConfig, b: string, boot: set<string>)
    requires ValidConfig(cfg, boot) && b in cfg && cfg[b].BridgeDevice? && cfg[b].tap.Some?
    ensures var t := cfg[b].tap.value; t != "" && t in Specs(parse, cfg) && Specs(parse, cfg)[t] == Spec(NdpTap, NoHandle)
  {
    assert cfg[b].NamesOk() && cfg[b].tap.value in Taps(cfg);
  }

  /** What an apply creates under a tag, by the kind of the device: a port of its mode, a
      bond, a sub-interface, a tunnel with its number in 32 bits, its two addresses in their
      places and the destination port, the port or the standard one; a loopback and a tap
      for a bridge, and nothing for a mode that is not implemented. */
  lemma CreatedByKind(ifs: Ifs, ifs': Ifs, parse: Parser, cfg: VppConfig, boot: set<string>, i: nat, n: string)
    requires ValidConfig(cfg, boot) && Grown(ifs, ifs', Specs(parse, cfg)) && n in cfg && i in ifs' && ifs'[i].tag !in Tags(ifs)
    ensures var f, d := ifs'[i], cfg[n];
            && (f.tag == n ==>
                  && !d.OtherPort? && !d.BridgeDevice?
                  && (d.AfPacketPort? ==> f.kind == AfPacket && f.handle == HostIf(d.host))
                  && (d.LoopbackPort? ==> f.kind == Loopback) && (d.AvfPort? ==> f.kind == Avf)
                  && (d.DpdkPort? ==> f.kind == Dpdk)
                  && (d.BondDevice? ==> f.kind == Bond) && (d.VlanDevice? ==> f.kind == Vlan)
                  && (d.VxlanDevice? ==> f.kind == Vxlan && TunnelFits(parse, d, f.handle)))
            && (d.BridgeDevice? && d.bvi && f.tag == n + "-bvi" ==> f.kind == Loopback)
            && (d.BridgeDevice? && d.tap == Some(f.tag) ==> f.kind == NdpTap)
  {
    SpecsAt(parse, cfg, n, boot);
    if HasTap(cfg, n) {
      TapWanted(parse, cfg, n, boot);
    }
  }

  predicate TunnelFits(parse: Parser, d: Device, h: Handle)
    requires d.VxlanDevice?
  {
    && h.Tunnel? && h.vni == d.id % 0x1_0000_0000
    && (parse(d.local).Some? ==> h.src == parse(d.local).value) && (parse(d.remote).Some? ==> h.dst == parse(d.remote).value)
    && (0 < d.destPort < 65536 ==> h.port == d.destPort)
    && (d.destPort <= 0 && 0 < d.port < 65536 ==> h.port == d.port)
    && (d.destPort <= 0 && d.port <= 0 ==> h.port == 4789)
  }

  /** One step more of an apply. */
  lemma AppliedOne(a: Ifs, b: Ifs, c: Ifs, bds: set<nat>, bds': set<nat>, parse: Parser, cfg: VppConfig, boot: set<string>)
    requires ValidConfig(cfg, boot) && Grown(a, b, Specs(parse, cfg)) && Grown(b, c, Specs(parse, cfg)) && bds <= bds'
    ensures Grown(a, c, Specs(parse, cfg))
    ensures forall t :: t in Tags(b) && t != "" ==> t in Tags(c)
    ensures forall n :: n in cfg && Present(b, bds, n, cfg[n]) ==> Present(c, bds', n, cfg[n])
  {
    assert "" !in IfaceTags(cfg);
    GrownTrans(a, b, c, Specs(parse, cfg));
    forall t | t in Tags(b) && t != ""
      ensures t in Tags(c)
    {
      TagsKept(b, c, Specs(parse, cfg), t);
    }
    forall n | n in cfg && Present(b, bds, n, cfg[n])
      ensures Present(c, bds', n, cfg[n])
    {
      assert "" !in TagsOf(n, cfg[n]);
    }
  }

  lemma AllPresent(ifs: Ifs, bds: set<nat>, cfg: VppConfig)
    requires forall n :: n in cfg ==> Present(ifs, bds, n, cfg[n])
    requires Taps(cfg) <= Tags(ifs)
    ensures IfaceTags(cfg) <= Tags(ifs) && Domains(cfg) <= bds
  {
    forall t | t in IfaceTags(cfg)
      ensures t in Tags(ifs)
    {
      if t in cfg && cfg[t].HasIface() {
        assert Present(ifs, bds, t, cfg[t]);
      } else if t in Bvis(cfg) {
        var b :| b in cfg && cfg[b].BridgeDevice? && cfg[b].bvi && BviName(b) == t;
        assert Present(ifs, bds, b, cfg[b]);
      }
    }
    forall bd | bd in Domains(cfg)
      ensures bd in bds
    {
      var n :| n in cfg && cfg[n].BridgeDevice? && cfg[n].bd == bd;
      assert Present(ifs, bds, n, cfg[n]);
    }
  }

  /** Applying the same configuration again, with a fresh cache, creates nothing; only a
      member that two bridges claim can change its domain. */
  method ApplyTwice(v: Dataplane, cfg: VppConfig) returns (ok: bool, ghost between: Ifs, ghost domains: set<nat>)
    requires Sound(v) && ValidConfig(cfg, v.boot)
    modifies v
    ensures Sound(v) && Grown(old(v.ifs), between, Specs(v.parse, cfg))
    ensures ok ==> Rejoined(between, v.ifs) && v.bds == domains
  {
    var first := new Applier(v);
    ok := first.ApplyAll(cfg, []);
    between, domains := v.ifs, v.bds;
    var second := new Applier(v);
    var again := second.ApplyAll(cfg, []);
    if ok {
      GrownStill(between, v.ifs, Specs(v.parse, cfg));
    }
  }
}
