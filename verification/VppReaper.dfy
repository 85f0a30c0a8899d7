/** Reaping of VPP devices that left the configuration (cmd/vpp.go, vpp/apply.go). */
module VppReaper {
  import opened Collections
  import opened VppApplier

  /** The recorded type; modes that are accepted but not implemented are `OtherDev`. */
  datatype DevType =
    | VxlanDev | VlanDev | BondDev | LoopbackDev | AfPacketDev | DpdkDev | AvfDev | NdpTapDev | BridgeDev | OtherDev

  /** What the VPP state file records to delete a device. */
  datatype DevInfo = DevInfo(typ: DevType, hostIf: string, bdId: nat, vni: nat, local: string, remote: string, port: int)

  type Devices = map<string, DevInfo>

  /** The part of VPP's state that reaping changes. */
  datatype Plane = Plane(ifs: Ifs, bds: set<nat>)

  ghost function PlaneOf(v: Dataplane): Plane
    reads v
  {
    Plane(v.ifs, v.bds)
  }

  const ORDER := [VxlanDev, VlanDev, BondDev, LoopbackDev, AfPacketDev, DpdkDev, AvfDev, NdpTapDev, BridgeDev]
  const UNLISTED := 9

  function Rank(typ: DevType): nat {
    match typ
    case VxlanDev => 0 case VlanDev => 1 case BondDev => 2 case LoopbackDev => 3 case AfPacketDev => 4
    case DpdkDev => 5 case AvfDev => 6 case NdpTapDev => 7 case BridgeDev => 8 case OtherDev => UNLISTED
  }

  lemma RankIsIndex(i: nat)
    requires i < |ORDER|
    ensures forall typ :: Rank(typ) == i <==> typ == ORDER[i]
  {
  }

  function PortOf(p: int): nat {
    if p > 0 then p % 65536 else 4789
  }

  function TagKind(typ: DevType): Option<Kind> {
    match typ
    case LoopbackDev => Some(Loopback)
    case BondDev => Some(Bond)
    case VlanDev => Some(Vlan)
    case NdpTapDev => Some(NdpTap)
    case _ => None
  }

  /** How a recorded device is named to VPP when it is deleted. */
  datatype Key = ByTag(kind: Kind, tag: string) | ByHandle(kind': Kind, handle: Handle) | ByDomain(bd: nat) | Nothing

  /** Addresses that do not parse are sent as the zero address. */
  function TunnelOf(parse: Parser, info: DevInfo): Handle {
    Tunnel(info.vni, ZeroOr(parse(info.local)), ZeroOr(parse(info.remote)), PortOf(info.port))
  }

  function DeleteKey(parse: Parser, name: string, info: DevInfo): Key {
    match info.typ
    case AfPacketDev => if info.hostIf == "" then Nothing else ByHandle(AfPacket, HostIf(info.hostIf))
    case VxlanDev => ByHandle(Vxlan, TunnelOf(parse, info))
    case BridgeDev => ByDomain(info.bdId)
    case _ => if TagKind(info.typ).Some? then ByTag(TagKind(info.typ).value, name) else Nothing
  }

  predicate Matches(k: Key, f: Iface) {
    match k
    case ByTag(kind, tag) => f.kind == kind && f.tag == tag
    case ByHandle(kind, handle) => f.kind == kind && f.handle == handle
    case ByDomain(_) => false
    case Nothing => false
  }

  function Without(ifs: Ifs, k: Key): Ifs {
    map i | i in ifs && !Matches(k, ifs[i]) :: ifs[i]
  }

  predicate Occupied(ifs: Ifs, bd: nat) {
    exists i :: i in ifs && ifs[i].bd == Some(bd)
  }

  /** Effect of one deletion; VPP refuses to delete a bridge domain with members. */
  function Deleted(p: Plane, k: Key): Plane {
    if k.ByDomain? then (if Occupied(p.ifs, k.bd) then p else p.(bds := p.bds - {k.bd}))
    else p.(ifs := Without(p.ifs, k))
  }

  /** Deleting the one interface with the tag is deleting all that match. */
  lemma DeleteByTag(ifs: Ifs, k: Key, r: Option<nat>)
    requires TagsUnique(ifs) && k.ByTag? && k.tag != "" && Finds(ifs, k.tag, r)
    ensures Without(ifs, k) == if r.Some? && ifs[r.value].kind == k.kind then ifs - {r.value} else ifs
  {
  }

  /** Dispatches on the recorded type; kinds found by tag are deleted by index, and
      the RPC of a kind refuses an index of another kind.  The cache is left alone. */
  method Delete(a: Applier, name: string, info: DevInfo)
    requires TagsUnique(a.vpp.ifs) && name != ""
    modifies a.vpp`ifs, a.vpp`bds
    ensures PlaneOf(a.vpp) == Deleted(old(PlaneOf(a.vpp)), DeleteKey(a.vpp.parse, name, info))
    ensures TagsUnique(a.vpp.ifs)
  {
    var v := a.vpp;
    var k := DeleteKey(v.parse, name, info);
    if k.ByTag? {
      var r := a.FindByTag(name);
      if r.Some? && v.ifs[r.value].kind == k.kind {
        v.ifs := v.ifs - {r.value};
      }
      DeleteByTag(old(v.ifs), k, r);
    } else if k.ByHandle? {
      v.ifs := Without(v.ifs, k);
    } else if k.ByDomain? {
      if !Occupied(v.ifs, k.bd) {
        v.bds := v.bds - {k.bd};
      }
    } else {
      assert v.ifs == Without(v.ifs, k);
    }
  }

  /** The pass over the previous devices for one type. */
  method ReapType(a: Applier, t: nat, prev: Devices, desired: Devices) returns (part: seq<string>)
    requires t < |ORDER| && TagsUnique(a.vpp.ifs) && forall name :: name in prev ==> name != ""
    modifies a.vpp`ifs, a.vpp`bds
    ensures TagsUnique(a.vpp.ifs)
    ensures Lists(part, OfType(prev, desired, t, {}))
    ensures PlaneOf(a.vpp) == DeletedAll(old(PlaneOf(a.vpp)), a.vpp.parse, prev, part)
  {
    part := [];
    RankIsIndex(t);
    var rest := prev.Keys;
    while rest != {}
      invariant rest <= prev.Keys && TagsUnique(a.vpp.ifs)
      invariant Lists(part, OfType(prev, desired, t, rest))
      invariant PlaneOf(a.vpp) == DeletedAll(old(PlaneOf(a.vpp)), a.vpp.parse, prev, part)
    {
      var name :| name in rest;
      ghost var seen := OfType(prev, desired, t, rest);
      rest := rest - {name};
      if name !in desired && prev[name].typ == ORDER[t] {
        Delete(a, name, prev[name]);
        ListsAppend(part, seen, name);
        assert (part + [name])[..|part|] == part;
        part := part + [name];
        assert seen + {name} == OfType(prev, desired, t, rest);
      } else {
        assert seen == OfType(prev, desired, t, rest);
      }
    }
  }

  /** reapVPPOrphans, returning the names in the order of deletion. */
  method ReapOrphans(a: Applier, prev: Devices, desired: Devices) returns (log: seq<string>)
    requires TagsUnique(a.vpp.ifs) && forall name :: name in prev ==> name != ""
    modifies a.vpp`ifs, a.vpp`bds
    ensures IsReapLog(log, prev, desired)
    ensures PlaneOf(a.vpp) == DeletedAll(old(PlaneOf(a.vpp)), a.vpp.parse, prev, log)
  {
    log := [];
    for t := 0 to |ORDER|
      invariant TagsUnique(a.vpp.ifs)
      invariant Lists(log, Orphans(prev, desired, t)) && Ordered(log, prev)
      invariant PlaneOf(a.vpp) == DeletedAll(old(PlaneOf(a.vpp)), a.vpp.parse, prev, log)
    {
      var part := ReapType(a, t, prev, desired);
      DeletedInTurn(old(PlaneOf(a.vpp)), a.vpp.parse, prev, log, part);
      LogGrows(log, part, prev, desired, t);
      log := log + part;
    }
  }

  /** The orphans of one rank outside `rest`. */
  ghost function OfType(prev: Devices, desired: Devices, t: nat, rest: set<string>): set<string> {
    set n | n in prev && n !in desired && n !in rest && Rank(prev[n].typ) == t
  }

  lemma LogGrows(log: seq<string>, part: seq<string>, prev: Devices, desired: Devices, t: nat)
    requires Lists(log, Orphans(prev, desired, t)) && Ordered(log, prev) && Lists(part, OfType(prev, desired, t, {}))
    ensures Lists(log + part, Orphans(prev, desired, t + 1)) && Ordered(log + part, prev)
  {
    assert forall n :: n in log ==> n in Elems(log);
    assert forall n :: n in part ==> n in Elems(part);
    assert Elems(log + part) == Elems(log) + Elems(part);
    forall i, j | 0 <= i < j < |log + part|
      ensures (log + part)[i] != (log + part)[j]
    {
      if i < |log| <= j {
        assert log[i] in log && part[j - |log|] in part;
      }
    }
    assert forall k :: 0 <= k < |log + part| ==> (log + part)[k] in prev by {
      forall k | 0 <= k < |log + part|
        ensures (log + part)[k] in prev
      {
        assert (log + part)[k] in Elems(log + part);
      }
    }
    forall i, j | 0 <= i < j < |log + part|
      ensures Rank(prev[(log + part)[i]].typ) <= Rank(prev[(log + part)[j]].typ)
    {
      if |log| <= j {
        assert part[j - |log|] in part;
        assert i < |log| ==> log[i] in log;
        assert |log| <= i ==> part[i - |log|] in part;
      }
    }
  }

  ghost function Orphans(prev: Devices, desired: Devices, below: nat): set<string> {
    set n | n in prev && n !in desired && Rank(prev[n].typ) < below
  }

  ghost predicate Ordered(log: seq<string>, prev: Devices) {
    && (forall n :: n in log ==> n in prev)
    && forall i, j :: 0 <= i < j < |log| ==> Rank(prev[log[i]].typ) <= Rank(prev[log[j]].typ)
  }

  /** Each orphan of a listed type exactly once, nothing desired, in dependency order:
      VLANs before bonds before ports, and members of every kind before any bridge. */
  ghost predicate IsReapLog(log: seq<string>, prev: Devices, desired: Devices) {
    Lists(log, Orphans(prev, desired, UNLISTED)) && Ordered(log, prev)
  }

  predicate IsPortDev(typ: DevType) {
    typ.AfPacketDev? || typ.DpdkDev? || typ.AvfDev?
  }

  /** The order, type by type: a VLAN goes before every bond and port, a bond before every
      port, VXLANs and loopbacks before the ports they may ride on or replace, a tap and
      every other member before any bridge. */
  lemma ReapOrder(log: seq<string>, prev: Devices, desired: Devices, i: nat, j: nat)
    requires IsReapLog(log, prev, desired) && i < j < |log|
    ensures log[i] in prev && log[j] in prev
    ensures var first, second := prev[log[i]].typ, prev[log[j]].typ;
            && (second.VxlanDev? ==> first.VxlanDev?)
            && (second.VlanDev? ==> !first.BondDev? && !first.LoopbackDev? && !IsPortDev(first))
            && (second.BondDev? ==> !first.LoopbackDev? && !IsPortDev(first))
            && (second.LoopbackDev? ==> !IsPortDev(first))
            && (IsPortDev(second) || second.VlanDev? || second.BondDev? || second.LoopbackDev? ==> !first.NdpTapDev?)
            && (first.BridgeDev? ==> second.BridgeDev?)
  {
    assert log[i] in log && log[j] in log;
    assert log[i] in Elems(log) && log[j] in Elems(log);
  }

  /** Every orphan of a type that can be deleted is in the log, once; modes that are not
      implemented never are. */
  lemma ReapComplete(log: seq<string>, prev: Devices, desired: Devices, n: string)
    requires IsReapLog(log, prev, desired)
    ensures n in log <==> n in prev && n !in desired && !prev[n].typ.OtherDev?
    ensures forall i, j :: 0 <= i < j < |log| ==> log[i] != log[j]
  {
    assert n in log <==> n in Elems(log);
  }

  /** The deletions of the log, in its order; the names are those of `prev`. */
  ghost function DeletedAll(p: Plane, parse: Parser, prev: Devices, log: seq<string>): Plane {
    if log == [] then p else
      var last := log[|log| - 1];
      var q := DeletedAll(p, parse, prev, log[..|log| - 1]);
      if last in prev then Deleted(q, DeleteKey(parse, last, prev[last])) else q
  }

  lemma {:induction false} DeletedInTurn(p: Plane, parse: Parser, prev: Devices, a: seq<string>, b: seq<string>)
    ensures DeletedAll(DeletedAll(p, parse, prev, a), parse, prev, b) == DeletedAll(p, parse, prev, a + b)
  {
    if b == [] {
      assert a + b == a;
    } else {
      DeletedInTurn(p, parse, prev, a, b[..|b| - 1]);
      assert (a + b)[..|a + b| - 1] == a + b[..|b| - 1];
    }
  }

  // ----- What is left -----

  /** Some device of `names` has a deletion handle that fits the interface. */
  ghost predicate Claimed(parse: Parser, prev: Devices, names: set<string>, f: Iface) {
    exists n :: n in names && n in prev && Matches(DeleteKey(parse, n, prev[n]), f)
  }

  ghost predicate DropsDomain(parse: Parser, prev: Devices, names: set<string>, bd: nat) {
    exists n :: n in names && n in prev && DeleteKey(parse, n, prev[n]) == ByDomain(bd)
  }

  ghost function Unclaimed(ifs: Ifs, parse: Parser, prev: Devices, names: set<string>): Ifs {
    map i | i in ifs && !Claimed(parse, prev, names, ifs[i]) :: ifs[i]
  }

  lemma {:induction false} IfsLeft(p: Plane, parse: Parser, prev: Devices, log: seq<string>)
    requires forall n :: n in log ==> n in prev
    ensures DeletedAll(p, parse, prev, log).ifs == Unclaimed(p.ifs, parse, prev, Elems(log))
  {
    if log == [] {
      assert Unclaimed(p.ifs, parse, prev, Elems(log)) == p.ifs;
    } else {
      var front, last := log[..|log| - 1], log[|log| - 1];
      IfsLeft(p, parse, prev, front);
      var k := DeleteKey(parse, last, prev[last]);
      forall i | i in p.ifs
        ensures Claimed(parse, prev, Elems(log), p.ifs[i]) <==>
                Claimed(parse, prev, Elems(front), p.ifs[i]) || Matches(k, p.ifs[i])
      {
        assert Elems(log) == Elems(front) + {last};
        if Claimed(parse, prev, Elems(log), p.ifs[i]) && !Matches(k, p.ifs[i]) {
          var n :| n in Elems(log) && n in prev && Matches(DeleteKey(parse, n, prev[n]), p.ifs[i]);
          assert n in Elems(front);
        }
      }
      assert DeletedAll(p, parse, prev, log).ifs == Unclaimed(p.ifs, parse, prev, Elems(log));
    }
  }

  lemma DropsStep(parse: Parser, prev: Devices, log: seq<string>, bd: nat)
    requires log != [] && forall n :: n in log ==> n in prev
    ensures var last := log[|log| - 1];
            DropsDomain(parse, prev, Elems(log), bd) <==>
            DropsDomain(parse, prev, Elems(log[..|log| - 1]), bd) || DeleteKey(parse, last, prev[last]) == ByDomain(bd)
  {
  }

  /** Bridges come last, so before anything else there is none. */
  lemma NoBridgeBefore(parse: Parser, prev: Devices, log: seq<string>, bd: nat)
    requires log != [] && Ordered(log, prev) && DropsDomain(parse, prev, Elems(log), bd)
    requires forall n :: n in log ==> Rank(prev[n].typ) < UNLISTED
    ensures prev[log[|log| - 1]].typ.BridgeDev?
  {
  }

  lemma OrderedFront(log: seq<string>, prev: Devices)
    requires log != [] && Ordered(log, prev)
    ensures Ordered(log[..|log| - 1], prev)
    ensures forall n :: n in log[..|log| - 1] ==> n in log
  {
  }

  lemma {:induction false} DomainsLeft(p: Plane, parse: Parser, prev: Devices, log: seq<string>, bd: nat)
    requires Ordered(log, prev) && forall n :: n in log ==> Rank(prev[n].typ) < UNLISTED
    ensures var q := DeletedAll(p, parse, prev, log);
            bd in q.bds <==> bd in p.bds && !(DropsDomain(parse, prev, Elems(log), bd) && !Occupied(q.ifs, bd))
  {
    if log != [] {
      var last := log[|log| - 1];
      assert last in log;
      OrderedFront(log, prev);
      DomainsLeft(p, parse, prev, log[..|log| - 1], bd);
      DropsStep(parse, prev, log, bd);
      var k := DeleteKey(parse, last, prev[last]);
      DeletedDomain(DeletedAll(p, parse, prev, log[..|log| - 1]), k, bd);
      if DropsDomain(parse, prev, Elems(log), bd) {
        NoBridgeBefore(parse, prev, log, bd);
        assert k.ByDomain?;
      }
    }
  }

  /** What one deletion does to one domain. */
  lemma DeletedDomain(q: Plane, k: Key, bd: nat)
    ensures k.ByDomain? ==> Deleted(q, k).ifs == q.ifs
    ensures bd in Deleted(q, k).bds <==> bd in q.bds && !(k == ByDomain(bd) && !Occupied(q.ifs, bd))
  {
  }

  /** What reaping leaves, exactly: the interfaces no orphan claims, and the bridge
      domains that are not an orphan's or still hold such an interface. */
  lemma ReapExact(p: Plane, parse: Parser, prev: Devices, desired: Devices, log: seq<string>)
    requires IsReapLog(log, prev, desired)
    ensures var q := DeletedAll(p, parse, prev, log);
            var orphans := Orphans(prev, desired, UNLISTED);
            && q.ifs == Unclaimed(p.ifs, parse, prev, orphans)
            && (forall bd :: bd in q.bds <==>
                  bd in p.bds && !(DropsDomain(parse, prev, orphans, bd) && !Occupied(q.ifs, bd)))
  {
    IfsLeft(p, parse, prev, log);
    forall n | n in log
      ensures Rank(prev[n].typ) < UNLISTED
    {
      assert n in Elems(log);
    }
    forall bd
      ensures var q := DeletedAll(p, parse, prev, log);
              bd in q.bds <==> bd in p.bds && !(DropsDomain(parse, prev, Elems(log), bd) && !Occupied(q.ifs, bd))
    {
      DomainsLeft(p, parse, prev, log, bd);
    }
  }

  // ----- Seen by tag -----

  /** What the record says the interface of the device is; bridges and modes that are not
      implemented have none. */
  function Recorded(parse: Parser, info: DevInfo): Option<Spec> {
    match info.typ
    case AfPacketDev => Some(Spec(AfPacket, HostIf(info.hostIf)))
    case VxlanDev => Some(Spec(Vxlan, TunnelOf(parse, info)))
    case DpdkDev => Some(Spec(Dpdk, NoHandle))
    case AvfDev => Some(Spec(Avf, NoHandle))
    case _ => if TagKind(info.typ).Some? then Some(Spec(TagKind(info.typ).value, NoHandle)) else None
  }

  /** Every interface with the tag of a recorded device is what the record says. */
  ghost predicate OwnHandles(parse: Parser, devs: Devices, ifs: Ifs) {
    forall i :: i in ifs && ifs[i].tag in devs ==> Recorded(parse, devs[ifs[i].tag]) == Some(SpecOf(ifs[i]))
  }

  /** Types that are not deleted at run time. */
  predicate Kept(info: DevInfo) {
    info.typ.DpdkDev? || info.typ.AvfDev? || (info.typ.AfPacketDev? && info.hostIf == "")
  }

  /** Whatever its tag, an interface is gone exactly when some orphan's handle fits it. */
  lemma ReapedByTag(p: Plane, parse: Parser, prev: Devices, desired: Devices, log: seq<string>, i: nat)
    requires IsReapLog(log, prev, desired) && i in p.ifs
    ensures var q := DeletedAll(p, parse, prev, log);
            if Claimed(parse, prev, Orphans(prev, desired, UNLISTED), p.ifs[i]) then i !in q.ifs
            else i in q.ifs && q.ifs[i] == p.ifs[i]
  {
    ReapExact(p, parse, prev, desired, log);
  }

  /** A record that tells the truth about its interface names it for deletion. */
  lemma RecordNames(parse: Parser, n: string, info: DevInfo, f: Iface)
    requires f.tag == n && Recorded(parse, info) == Some(SpecOf(f))
    ensures Matches(DeleteKey(parse, n, info), f) <==> !Kept(info)
  {
  }

  /** No orphan is left: the interface with its tag goes, provided the record tells the
      truth about it, and exactly unless its type is not deleted at run time. */
  lemma NoOrphanLeft(p: Plane, parse: Parser, prev: Devices, desired: Devices, log: seq<string>, i: nat)
    requires IsReapLog(log, prev, desired) && i in p.ifs && p.ifs[i].tag in Orphans(prev, desired, UNLISTED)
    requires Recorded(parse, prev[p.ifs[i].tag]) == Some(SpecOf(p.ifs[i]))
    ensures i in DeletedAll(p, parse, prev, log).ifs <==> Kept(prev[p.ifs[i].tag])
  {
    var n := p.ifs[i].tag;
    ReapedByTag(p, parse, prev, desired, log, i);
    RecordNames(parse, n, prev[n], p.ifs[i]);
  }

  /** An orphan's domain stays exactly while a surviving interface is in it. */
  lemma OrphanDomain(p: Plane, parse: Parser, prev: Devices, desired: Devices, log: seq<string>, n: string)
    requires IsReapLog(log, prev, desired) && n in Orphans(prev, desired, UNLISTED) && prev[n].typ.BridgeDev?
    ensures var q := DeletedAll(p, parse, prev, log);
            prev[n].bdId in q.bds <==> prev[n].bdId in p.bds && Occupied(q.ifs, prev[n].bdId)
  {
    ReapExact(p, parse, prev, desired, log);
    assert DropsDomain(parse, prev, Orphans(prev, desired, UNLISTED), prev[n].bdId);
  }

  /** Boot-time and hardware ports survive every reap. */
  lemma PortsSurvive(p: Plane, parse: Parser, prev: Devices, desired: Devices, log: seq<string>, i: nat)
    requires IsReapLog(log, prev, desired) && i in p.ifs && (p.ifs[i].kind.Dpdk? || p.ifs[i].kind.Avf?)
    ensures var q := DeletedAll(p, parse, prev, log); i in q.ifs && q.ifs[i] == p.ifs[i]
  {
    ReapExact(p, parse, prev, desired, log);
  }

  /** The device `m` shares its deletion handle with no orphan. */
  ghost predicate HandleApart(parse: Parser, prev: Devices, desired: Devices, m: string)
    requires m in desired
  {
    forall n :: n in Orphans(prev, desired, UNLISTED) ==>
      DeleteKey(parse, n, prev[n]) != DeleteKey(parse, m, desired[m]) || DeleteKey(parse, n, prev[n]) == Nothing
  }

  /** One interface answers to one handle. */
  lemma OneKey(parse: Parser, n: string, a: DevInfo, m: string, b: DevInfo, f: Iface)
    requires Matches(DeleteKey(parse, n, a), f) && Matches(DeleteKey(parse, m, b), f)
    ensures DeleteKey(parse, n, a) == DeleteKey(parse, m, b) != Nothing
  {
  }

  /** An interface whose record tells the truth is out of the orphans' reach exactly when no
      orphan has the same handle. */
  lemma UnclaimedIff(parse: Parser, prev: Devices, desired: Devices, f: Iface)
    requires f.tag in desired && Recorded(parse, desired[f.tag]) == Some(SpecOf(f))
    ensures !Claimed(parse, prev, Orphans(prev, desired, UNLISTED), f) <==> HandleApart(parse, prev, desired, f.tag)
  {
    RecordNames(parse, f.tag, desired[f.tag], f);
    forall n | n in Orphans(prev, desired, UNLISTED) && Matches(DeleteKey(parse, n, prev[n]), f)
      ensures DeleteKey(parse, n, prev[n]) == DeleteKey(parse, f.tag, desired[f.tag]) != Nothing
    {
      OneKey(parse, n, prev[n], f.tag, desired[f.tag], f);
    }
  }

  /** The interface of a desired device, if the new record tells the truth about it,
      survives untouched exactly when no orphan has the same handle. */
  lemma DesiredSpared(p: Plane, parse: Parser, prev: Devices, desired: Devices, log: seq<string>, i: nat)
    requires IsReapLog(log, prev, desired) && i in p.ifs && p.ifs[i].tag in desired
    requires Recorded(parse, desired[p.ifs[i].tag]) == Some(SpecOf(p.ifs[i]))
    ensures var q := DeletedAll(p, parse, prev, log);
            i in q.ifs && q.ifs[i] == p.ifs[i] <==> HandleApart(parse, prev, desired, p.ifs[i].tag)
  {
    ReapedByTag(p, parse, prev, desired, log, i);
    UnclaimedIff(parse, prev, desired, p.ifs[i]);
  }

  /** The domain of a desired bridge that shares it with no orphan stays. */
  lemma DesiredDomain(p: Plane, parse: Parser, prev: Devices, desired: Devices, log: seq<string>, m: string)
    requires IsReapLog(log, prev, desired) && m in desired && desired[m].typ.BridgeDev?
    requires HandleApart(parse, prev, desired, m)
    ensures desired[m].bdId in DeletedAll(p, parse, prev, log).bds <==> desired[m].bdId in p.bds
  {
    ReapExact(p, parse, prev, desired, log);
  }
}
