/** Loading a configuration from several files (config/config.go): each file is
    normalised and folded into the result in the order of the sorted file names. */
module ConfigMerge {
  import opened Collections

  /** The device maps other than tunnels and VXLANs, keyed by section and name. */
  datatype DevKey = DevKey(section: nat, name: string)
  type Device = nat

  /** A tunnel entry may be null; its mode decides whether it is a VXLAN.  `body` stands
      for the remaining fields, which the conversion copies. */
  datatype Tunnel = Null | Tunnel(mode: string, body: nat)
  datatype VxlanDev = VxlanDev(body: nat)

  type Tunnels = map<string, Tunnel>
  type Vxlans = map<string, VxlanDev>

  datatype Namespace = Namespace(
    loopback: Option<Device>,
    devices: map<DevKey, Device>,
    tunnels: Tunnels,
    vxlans: Vxlans,
    srv6: Option<nat>,
    postScript: string)

  datatype Config = Config(
    version: int,
    renderer: string,
    devices: map<DevKey, Device>,
    tunnels: Tunnels,
    vxlans: Vxlans,
    vpp: Option<nat>,
    srv6: Option<nat>,
    netns: map<string, Namespace>,
    legacyNetns: map<string, Namespace>)

  const EMPTY := Config(0, "", map[], map[], map[], None, None, map[], map[])

  predicate IsVxlan(t: Tunnel) {
    t.Tunnel? && EqualFold(t.mode, "vxlan")
  }

  // ----- Normalize -----

  function PlainTunnels(ts: Tunnels): Tunnels {
    map n | n in ts && !IsVxlan(ts[n]) :: ts[n]
  }

  function VxlanTunnels(ts: Tunnels): Vxlans {
    map n | n in ts && IsVxlan(ts[n]) :: VxlanDev(ts[n].body)
  }

  /** normalizeTunnelVxlans: moves the VXLAN entries while iterating. */
  method NormalizeTunnels(tunnels: Tunnels, vxlans: Vxlans) returns (ts: Tunnels, vs: Vxlans)
    ensures ts == PlainTunnels(tunnels) && vs == vxlans + VxlanTunnels(tunnels)
  {
    ts, vs := tunnels, vxlans;
    var rest := tunnels.Keys;
    while rest != {}
      invariant rest <= tunnels.Keys
      invariant forall n :: n in ts <==> n in tunnels && (n in rest || !IsVxlan(tunnels[n]))
      invariant forall n :: n in ts ==> ts[n] == tunnels[n]
      invariant forall n :: n in vs <==> n in vxlans || (n in tunnels && n !in rest && IsVxlan(tunnels[n]))
      invariant forall n :: n in vs ==>
                  vs[n] == if n in tunnels && n !in rest && IsVxlan(tunnels[n]) then VxlanDev(tunnels[n].body) else vxlans[n]
    {
      var n :| n in rest;
      rest := rest - {n};
      if IsVxlan(tunnels[n]) {
        vs := vs[n := VxlanDev(tunnels[n].body)];
        ts := ts - {n};
      }
    }
    assert ts == PlainTunnels(tunnels);
    assert vs == vxlans + VxlanTunnels(tunnels);
  }

  function NormalNs(ns: Namespace): Namespace {
    ns.(tunnels := PlainTunnels(ns.tunnels), vxlans := ns.vxlans + VxlanTunnels(ns.tunnels))
  }

  function Modern(c: Config): Config {
    var d := if c.version == 0 && c.legacyNetns != map[] then c.(netns := c.legacyNetns, legacyNetns := map[]) else c;
    if d.version == 0 then d.(version := 2) else d
  }

  function NormalNetns(netns: map<string, Namespace>): map<string, Namespace> {
    map n | n in netns :: NormalNs(netns[n])
  }

  function Normal(c: Config): Config {
    var d := Modern(c);
    d.(tunnels := PlainTunnels(d.tunnels), vxlans := d.vxlans + VxlanTunnels(d.tunnels), netns := NormalNetns(d.netns))
  }

  method NormalizeNetns(netns: map<string, Namespace>) returns (r: map<string, Namespace>)
    ensures r == NormalNetns(netns)
  {
    r := netns;
    var rest := netns.Keys;
    while rest != {}
      invariant rest <= netns.Keys == r.Keys
      invariant forall n :: n in netns ==> r[n] == if n in rest then netns[n] else NormalNs(netns[n])
    {
      var n :| n in rest;
      rest := rest - {n};
      var ts, vs := NormalizeTunnels(r[n].tunnels, r[n].vxlans);
      r := r[n := r[n].(tunnels := ts, vxlans := vs)];
    }
    assert r == NormalNetns(netns);
  }

  method Normalize(c: Config) returns (r: Config)
    ensures r == Normal(c)
  {
    r := c;
    if r.version == 0 && r.legacyNetns != map[] {
      r := r.(netns := r.legacyNetns, legacyNetns := map[]);
    }
    if r.version == 0 {
      r := r.(version := 2);
    }
    var ts, vs := NormalizeTunnels(r.tunnels, r.vxlans);
    var netns := NormalizeNetns(r.netns);
    r := r.(tunnels := ts, vxlans := vs, netns := netns);
  }

  lemma PlainTwice(ts: Tunnels, vs: Vxlans)
    ensures PlainTunnels(PlainTunnels(ts)) == PlainTunnels(ts)
    ensures vs + VxlanTunnels(PlainTunnels(ts)) == vs
  {
  }

  /** Normalising twice is normalising once. */
  lemma NormalizeIdempotent(c: Config)
    ensures Normal(Normal(c)) == Normal(c)
  {
    var d := Normal(c);
    PlainTwice(Modern(c).tunnels, d.vxlans);
    assert Modern(d) == d;
    forall n | n in d.netns
      ensures NormalNs(d.netns[n]) == d.netns[n]
    {
      PlainTwice(Modern(c).netns[n].tunnels, d.netns[n].vxlans);
    }
    assert NormalNetns(d.netns) == d.netns;
  }

  // ----- mergeConfig -----

  method MergeMap<K, V>(dst: map<K, V>, src: map<K, V>) returns (r: map<K, V>)
    ensures r == dst + src
  {
    r := dst;
    var rest := src.Keys;
    while rest != {}
      invariant rest <= src.Keys
      invariant r.Keys == dst.Keys + (src.Keys - rest)
      invariant forall k :: k in r ==> r[k] == if k in src && k !in rest then src[k] else dst[k]
    {
      var k :| k in rest;
      rest := rest - {k};
      r := r[k := src[k]];
    }
    assert r == dst + src;
  }

  /** A repeated namespace collects devices; its loopback and SRv6 section stay. */
  function MergedNs(dst: Namespace, src: Namespace): Namespace {
    dst.(devices := dst.devices + src.devices, tunnels := dst.tunnels + src.tunnels, vxlans := dst.vxlans + src.vxlans,
         postScript := if src.postScript != "" then src.postScript else dst.postScript)
  }

  function MergedEntry(dst: map<string, Namespace>, src: map<string, Namespace>, n: string): Namespace
    requires n in dst || n in src
  {
    if n !in dst then src[n] else if n !in src then dst[n] else MergedNs(dst[n], src[n])
  }

  function MergedNetns(dst: map<string, Namespace>, src: map<string, Namespace>): map<string, Namespace> {
    map n | n in dst.Keys + src.Keys :: MergedEntry(dst, src, n)
  }

  function Merged(dst: Config, src: Config): Config {
    Config(if src.version > dst.version then src.version else dst.version,
           if src.renderer != "" then src.renderer else dst.renderer,
           dst.devices + src.devices, dst.tunnels + src.tunnels, dst.vxlans + src.vxlans,
           if src.vpp.Some? then src.vpp else dst.vpp, if src.srv6.Some? then src.srv6 else dst.srv6,
           MergedNetns(dst.netns, src.netns), dst.legacyNetns)
  }

  method MergeNamespace(dst: Namespace, src: Namespace) returns (r: Namespace)
    ensures r == MergedNs(dst, src)
  {
    var devices := MergeMap(dst.devices, src.devices);
    var tunnels := MergeMap(dst.tunnels, src.tunnels);
    var vxlans := MergeMap(dst.vxlans, src.vxlans);
    r := dst.(devices := devices, tunnels := tunnels, vxlans := vxlans);
    if src.postScript != "" {
      r := r.(postScript := src.postScript);
    }
  }

  method MergeNetns(dst: map<string, Namespace>, src: map<string, Namespace>) returns (r: map<string, Namespace>)
    ensures r == MergedNetns(dst, src)
  {
    r := dst;
    var rest := src.Keys;
    while rest != {}
      invariant rest <= src.Keys && r.Keys == dst.Keys + (src.Keys - rest)
      invariant forall n :: n in r ==> r[n] == if n in rest then dst[n] else MergedEntry(dst, src, n)
    {
      var n :| n in rest;
      rest := rest - {n};
      var m := src[n];
      if n in r {
        m := MergeNamespace(r[n], src[n]);
      }
      assert m == MergedEntry(dst, src, n);
      r := r[n := m];
    }
    assert r == MergedNetns(dst, src);
  }

  method MergeConfig(dst: Config, src: Config) returns (r: Config)
    ensures r == Merged(dst, src)
  {
    var devices := MergeMap(dst.devices, src.devices);
    var vxlans := MergeMap(dst.vxlans, src.vxlans);
    var tunnels := MergeMap(dst.tunnels, src.tunnels);
    var netns := MergeNetns(dst.netns, src.netns);
    r := Config(if src.version > dst.version then src.version else dst.version,
                if src.renderer != "" then src.renderer else dst.renderer,
                devices, tunnels, vxlans,
                if src.vpp.Some? then src.vpp else dst.vpp, if src.srv6.Some? then src.srv6 else dst.srv6,
                netns, dst.legacyNetns);
  }

  // ----- LoadConfig -----

  /** The result of loading: normalise each file, then merge. */
  function Loaded(files: seq<Config>): Config {
    if files == [] then EMPTY else Merged(Loaded(files[..|files| - 1]), Normal(files[|files| - 1]))
  }

  /** Merging the files as they are. */
  function RawMerged(files: seq<Config>): Config {
    if files == [] then EMPTY else Merged(RawMerged(files[..|files| - 1]), files[|files| - 1])
  }

  method LoadConfig(files: seq<Config>) returns (r: Config)
    ensures r == Loaded(files)
  {
    r := EMPTY;
    for i := 0 to |files|
      invariant r == Loaded(files[..i])
    {
      var c := Normalize(files[i]);
      r := MergeConfig(r, c);
      assert files[..i + 1][..i] == files[..i];
    }
    assert files[..|files|] == files;
  }

  /** A place that holds tunnels: the top level (None) or a network namespace. */
  type Place = Option<string>

  function NsTunnels(netns: map<string, Namespace>, ns: string): Tunnels {
    if ns in netns then netns[ns].tunnels else map[]
  }

  function NsVxlans(netns: map<string, Namespace>, ns: string): Vxlans {
    if ns in netns then netns[ns].vxlans else map[]
  }

  function TunnelsAt(c: Config, p: Place): Tunnels {
    match p
    case None => c.tunnels
    case Some(ns) => NsTunnels(c.netns, ns)
  }

  function VxlansAt(c: Config, p: Place): Vxlans {
    match p
    case None => c.vxlans
    case Some(ns) => NsVxlans(c.netns, ns)
  }

  /** Files carry VXLANs only as tunnels, and are not in the legacy format. */
  ghost predicate Plain(c: Config) {
    c.legacyNetns == map[] && forall p :: VxlansAt(c, p) == map[]
  }

  /** The tunnel sections of one place, file by file. */
  function Sections(files: seq<Config>, p: Place): seq<Tunnels> {
    if files == [] then [] else Sections(files[..|files| - 1], p) + [TunnelsAt(files[|files| - 1], p)]
  }

  function EachPlain(ts: seq<Tunnels>): Tunnels {
    if ts == [] then map[] else EachPlain(ts[..|ts| - 1]) + PlainTunnels(ts[|ts| - 1])
  }

  function EachVxlan(ts: seq<Tunnels>): Vxlans {
    if ts == [] then map[] else EachVxlan(ts[..|ts| - 1]) + VxlanTunnels(ts[|ts| - 1])
  }

  function AllTunnels(ts: seq<Tunnels>): Tunnels {
    if ts == [] then map[] else AllTunnels(ts[..|ts| - 1]) + ts[|ts| - 1]
  }

  lemma AddEmpty<K, V>(m: map<K, V>)
    ensures map[] + m == m && m + map[] == m
  {
  }

  lemma NormalNsAt(netns: map<string, Namespace>, ns: string)
    requires NsVxlans(netns, ns) == map[]
    ensures NsTunnels(NormalNetns(netns), ns) == PlainTunnels(NsTunnels(netns, ns))
    ensures NsVxlans(NormalNetns(netns), ns) == VxlanTunnels(NsTunnels(netns, ns))
  {
  }

  /** Normalising acts on every place alike. */
  lemma NormalAt(c: Config, p: Place)
    requires Plain(c)
    ensures TunnelsAt(Normal(c), p) == PlainTunnels(TunnelsAt(c, p))
    ensures VxlansAt(Normal(c), p) == VxlanTunnels(TunnelsAt(c, p))
  {
    assert VxlansAt(c, p) == map[];
    match p
    case None => AddEmpty(VxlanTunnels(c.tunnels));
    case Some(ns) => NormalNsAt(c.netns, ns);
  }

  lemma MergedNsAt(dst: map<string, Namespace>, src: map<string, Namespace>, ns: string)
    ensures NsTunnels(MergedNetns(dst, src), ns) == NsTunnels(dst, ns) + NsTunnels(src, ns)
    ensures NsVxlans(MergedNetns(dst, src), ns) == NsVxlans(dst, ns) + NsVxlans(src, ns)
  {
  }

  /** So does merging, a missing namespace counting as one without tunnels. */
  lemma MergedAt(dst: Config, src: Config, p: Place)
    ensures TunnelsAt(Merged(dst, src), p) == TunnelsAt(dst, p) + TunnelsAt(src, p)
    ensures VxlansAt(Merged(dst, src), p) == VxlansAt(dst, p) + VxlansAt(src, p)
  {
    if p.Some? {
      MergedNsAt(dst.netns, src.netns, p.value);
    }
  }

  lemma {:induction false} LoadedAt(files: seq<Config>, p: Place)
    requires forall c :: c in files ==> Plain(c)
    ensures TunnelsAt(Loaded(files), p) == EachPlain(Sections(files, p))
    ensures VxlansAt(Loaded(files), p) == EachVxlan(Sections(files, p))
  {
    if files != [] {
      var before, last := files[..|files| - 1], files[|files| - 1];
      LoadedAt(before, p);
      NormalAt(last, p);
      MergedAt(Loaded(before), Normal(last), p);
      assert Sections(files, p)[..|Sections(before, p)|] == Sections(before, p);
    }
  }

  lemma {:induction false} RawAt(files: seq<Config>, p: Place)
    requires forall c :: c in files ==> Plain(c)
    ensures TunnelsAt(RawMerged(files), p) == AllTunnels(Sections(files, p))
    ensures VxlansAt(RawMerged(files), p) == map[]
    ensures RawMerged(files).legacyNetns == map[]
  {
    if files != [] {
      var before, last := files[..|files| - 1], files[|files| - 1];
      RawAt(before, p);
      MergedAt(RawMerged(before), last, p);
      assert Plain(last);
      assert VxlansAt(last, p) == map[];
      assert Sections(files, p)[..|Sections(before, p)|] == Sections(before, p);
    }
  }

  predicate HasVxlan(ts: seq<Tunnels>, n: string) {
    ts != [] && ((n in ts[|ts| - 1] && IsVxlan(ts[|ts| - 1][n])) ||
                 HasVxlan(ts[..|ts| - 1], n))
  }

  predicate HasPlain(ts: seq<Tunnels>, n: string) {
    ts != [] && ((n in ts[|ts| - 1] && !IsVxlan(ts[|ts| - 1][n])) ||
                 HasPlain(ts[..|ts| - 1], n))
  }

  /** What the two orders make of one name. */
  lemma {:induction false} OrdersAt(ts: seq<Tunnels>, n: string)
    ensures n in EachPlain(ts) <==> HasPlain(ts, n)
    ensures n in EachVxlan(ts) <==> HasVxlan(ts, n)
    ensures n in AllTunnels(ts) <==> HasPlain(ts, n) || HasVxlan(ts, n)
    ensures n in AllTunnels(ts) && !IsVxlan(AllTunnels(ts)[n]) ==>
              n in EachPlain(ts) && EachPlain(ts)[n] == AllTunnels(ts)[n]
    ensures n in AllTunnels(ts) && IsVxlan(AllTunnels(ts)[n]) ==>
              n in EachVxlan(ts) && EachVxlan(ts)[n] == VxlanDev(AllTunnels(ts)[n].body)
  {
    if ts != [] {
      OrdersAt(ts[..|ts| - 1], n);
    }
  }

  ghost predicate OneKind(ts: seq<Tunnels>) {
    forall n :: !(HasVxlan(ts, n) && HasPlain(ts, n))
  }

  lemma OneKindAgrees(ts: seq<Tunnels>)
    requires OneKind(ts)
    ensures EachPlain(ts) == PlainTunnels(AllTunnels(ts))
    ensures EachVxlan(ts) == VxlanTunnels(AllTunnels(ts))
  {
    var all := AllTunnels(ts);
    forall n
      ensures n in EachPlain(ts) <==> n in PlainTunnels(all)
      ensures n in EachPlain(ts) ==> EachPlain(ts)[n] == PlainTunnels(all)[n]
      ensures n in EachVxlan(ts) <==> n in VxlanTunnels(all)
      ensures n in EachVxlan(ts) ==> EachVxlan(ts)[n] == VxlanTunnels(all)[n]
    {
      OrdersAt(ts, n);
    }
    assert EachPlain(ts) == PlainTunnels(all);
    assert EachVxlan(ts) == VxlanTunnels(all);
  }

  lemma AgreesOneKind(ts: seq<Tunnels>)
    requires EachPlain(ts) == PlainTunnels(AllTunnels(ts))
    requires EachVxlan(ts) == VxlanTunnels(AllTunnels(ts))
    ensures OneKind(ts)
  {
    forall n
      ensures !(HasVxlan(ts, n) && HasPlain(ts, n))
    {
      OrdersAt(ts, n);
      assert !(n in PlainTunnels(AllTunnels(ts)) && n in VxlanTunnels(AllTunnels(ts)));
    }
  }

  /** Normalising each file first gives the same tunnels and VXLANs as normalising the
      merged configuration exactly when no name is a VXLAN tunnel in one file and
      another kind of tunnel in another; at the top level and in every namespace. */
  lemma NormalizeThenMerge(files: seq<Config>, p: Place)
    requires forall c :: c in files ==> Plain(c)
    ensures var each, whole := Loaded(files), Normal(RawMerged(files));
            TunnelsAt(each, p) == TunnelsAt(whole, p) && VxlansAt(each, p) == VxlansAt(whole, p) <==>
            OneKind(Sections(files, p))
  {
    var ts := Sections(files, p);
    LoadedAt(files, p);
    forall q
      ensures VxlansAt(RawMerged(files), q) == map[]
    {
      RawAt(files, q);
    }
    RawAt(files, p);
    NormalAt(RawMerged(files), p);
    if OneKind(ts) {
      OneKindAgrees(ts);
    }
    if EachPlain(ts) == PlainTunnels(AllTunnels(ts)) && EachVxlan(ts) == VxlanTunnels(AllTunnels(ts)) {
      AgreesOneKind(ts);
    }
  }

  // ----- Which file wins -----

  /** Loading one file more. */
  lemma LoadedLast(files: seq<Config>)
    requires files != []
    ensures Loaded(files).devices == Loaded(files[..|files| - 1]).devices + files[|files| - 1].devices
  {
  }

  /** The last file that defines the device decides it. */
  lemma {:induction false} LastDefinitionWins(files: seq<Config>, k: DevKey, i: nat)
    requires i < |files| && k in files[i].devices
    requires forall j :: i < j < |files| ==> k !in files[j].devices
    ensures k in Loaded(files).devices && Loaded(files).devices[k] == files[i].devices[k]
  {
    var n := |files| - 1;
    LoadedLast(files);
    if i < n {
      assert k !in files[n].devices;
      forall j | i < j < |files[..n]|
        ensures k !in files[..n][j].devices
      {
        assert files[..n][j] == files[j];
      }
      LastDefinitionWins(files[..n], k, i);
    }
  }

  lemma {:induction false} SectionsAt(files: seq<Config>, p: Place, j: nat)
    requires j < |files|
    ensures |Sections(files, p)| == |files| && Sections(files, p)[j] == TunnelsAt(files[j], p)
  {
    var n := |files| - 1;
    if n > 0 {
      SectionsAt(files[..n], p, if j < n then j else 0);
    }
  }

  lemma {:induction false} KindsAt(ts: seq<Tunnels>, n: string)
    ensures HasVxlan(ts, n) <==> exists j :: 0 <= j < |ts| && n in ts[j] && IsVxlan(ts[j][n])
    ensures HasPlain(ts, n) <==> exists j :: 0 <= j < |ts| && n in ts[j] && !IsVxlan(ts[j][n])
  {
    if ts != [] {
      var front := ts[..|ts| - 1];
      KindsAt(front, n);
      assert forall j :: 0 <= j < |front| ==> front[j] == ts[j];
    }
  }

  lemma {:induction false} LastOfAll(ts: seq<Tunnels>, n: string, i: nat)
    requires i < |ts| && n in ts[i] && forall j :: i < j < |ts| ==> n !in ts[j]
    ensures n in AllTunnels(ts) && AllTunnels(ts)[n] == ts[i][n]
  {
    if i < |ts| - 1 {
      LastOfAll(ts[..|ts| - 1], n, i);
    }
  }

  /** The loaded maps hold the definition `t` of the name, and only that. */
  predicate HoldsOnly(tunnels: Tunnels, vxlans: Vxlans, n: string, t: Tunnel) {
    if IsVxlan(t) then n !in tunnels && n in vxlans && vxlans[n] == VxlanDev(t.body)
    else n !in vxlans && n in tunnels && tunnels[n] == t
  }

  /** Some section gives the name the kind that its last definition has not. */
  predicate OtherKind(ts: seq<Tunnels>, n: string, t: Tunnel) {
    if IsVxlan(t) then HasPlain(ts, n) else HasVxlan(ts, n)
  }

  lemma OtherKindIsEarlier(ts: seq<Tunnels>, n: string, i: nat)
    requires i < |ts| && n in ts[i] && forall j :: i < j < |ts| ==> n !in ts[j]
    ensures OtherKind(ts, n, ts[i][n]) <==>
            exists j :: 0 <= j < i && n in ts[j] && IsVxlan(ts[j][n]) != IsVxlan(ts[i][n])
  {
    KindsAt(ts, n);
  }

  lemma LastTunnelOf(ts: seq<Tunnels>, n: string, i: nat)
    requires i < |ts| && n in ts[i] && forall j :: i < j < |ts| ==> n !in ts[j]
    ensures HoldsOnly(EachPlain(ts), EachVxlan(ts), n, ts[i][n]) <==> !OtherKind(ts, n, ts[i][n])
  {
    OrdersAt(ts, n);
    LastOfAll(ts, n, i);
  }

  /** For tunnels and VXLANs, at the top level and in every namespace, the last file that
      defines the name decides it, and alone, exactly when no earlier file gives the name
      the other kind; otherwise it ends up in both maps. */
  lemma LastTunnelWins(files: seq<Config>, p: Place, n: string, i: nat)
    requires (forall c :: c in files ==> Plain(c)) && i < |files| && n in TunnelsAt(files[i], p)
    requires forall j :: i < j < |files| ==> n !in TunnelsAt(files[j], p)
    ensures HoldsOnly(TunnelsAt(Loaded(files), p), VxlansAt(Loaded(files), p), n, TunnelsAt(files[i], p)[n]) <==>
            forall j :: 0 <= j < i && n in TunnelsAt(files[j], p) ==>
              IsVxlan(TunnelsAt(files[j], p)[n]) == IsVxlan(TunnelsAt(files[i], p)[n])
  {
    LoadedAt(files, p);
    forall j | 0 <= j < |files|
      ensures |Sections(files, p)| == |files| && Sections(files, p)[j] == TunnelsAt(files[j], p)
    {
      SectionsAt(files, p, j);
    }
    LastTunnelOf(Sections(files, p), n, i);
    OtherKindIsEarlier(Sections(files, p), n, i);
  }

  /** The renderer is that of the last file that names one. */
  lemma {:induction false} LastRendererWins(files: seq<Config>, i: nat)
    requires i < |files| && files[i].renderer != "" && forall k :: i < k < |files| ==> files[k].renderer == ""
    ensures Loaded(files).renderer == files[i].renderer
  {
    if i < |files| - 1 {
      LastRendererWins(files[..|files| - 1], i);
    }
  }

  function VersionOf(c: Config): int {
    if c.version == 0 then 2 else c.version
  }

  /** The version is the highest of the files', 2 standing for none. */
  lemma {:induction false} HighestVersion(files: seq<Config>)
    ensures forall j :: 0 <= j < |files| ==> Loaded(files).version >= VersionOf(files[j])
    ensures Loaded(files).version == 0 || exists j :: 0 <= j < |files| && Loaded(files).version == VersionOf(files[j])
  {
    if files != [] {
      var front := files[..|files| - 1];
      HighestVersion(front);
      assert forall j :: 0 <= j < |front| ==> front[j] == files[j];
      if Loaded(files).version == Loaded(front).version != 0 {
        var j :| 0 <= j < |front| && Loaded(front).version == VersionOf(front[j]);
        assert Loaded(files).version == VersionOf(files[j]);
      }
    }
  }

  /** Which namespaces a file defines: in the legacy form, without a version, those at the
      top, otherwise those of the network section. */
  lemma LegacyAdopted(c: Config, ns: string)
    ensures var from := if c.version == 0 && c.legacyNetns != map[] then c.legacyNetns else c.netns;
            && (ns in Normal(c).netns <==> ns in from)
            && (ns in from ==> Normal(c).netns[ns].devices == from[ns].devices &&
                               Normal(c).netns[ns].loopback == from[ns].loopback)
  {
  }

  /** Which tunnels are moved: those whose mode is vxlan in either case of its letters. */
  lemma MovedByMode(c: Config, n: string)
    requires c.vxlans == map[] && n in c.tunnels
    ensures n in Normal(c).vxlans <==>
            c.tunnels[n].Tunnel? && |c.tunnels[n].mode| == 5 &&
            forall i :: 0 <= i < 5 ==> c.tunnels[n].mode[i] == "vxlan"[i] || c.tunnels[n].mode[i] == "VXLAN"[i]
    ensures n in Normal(c).tunnels <==> n !in Normal(c).vxlans
  {
    if c.tunnels[n].Tunnel? {
      VxlanFold(c.tunnels[n].mode);
    }
  }

  lemma VxlanFold(mode: string)
    ensures EqualFold(mode, "vxlan") <==>
            |mode| == 5 && forall i :: 0 <= i < 5 ==> mode[i] == "vxlan"[i] || mode[i] == "VXLAN"[i]
  {
    FoldIff(mode, "vxlan");
    assert forall i :: 0 <= i < 5 ==> "VXLAN"[i] as int + 32 == "vxlan"[i] as int && 'a' <= "vxlan"[i] <= 'z';
  }

  /** The top-level SRv6 section comes whole from the last file that has one. */
  lemma {:induction false} SectionWins(files: seq<Config>, i: nat)
    requires i < |files| && files[i].srv6.Some? && forall k :: i < k < |files| ==> files[k].srv6.None?
    ensures Loaded(files).srv6 == files[i].srv6
  {
    if i < |files| - 1 {
      SectionWins(files[..|files| - 1], i);
    }
  }

  /** And so does the VPP section. */
  lemma {:induction false} SectionWinsVpp(files: seq<Config>, j: nat)
    requires j < |files| && files[j].vpp.Some? && forall k :: j < k < |files| ==> files[k].vpp.None?
    ensures Loaded(files).vpp == files[j].vpp
  {
    if j < |files| - 1 {
      SectionWinsVpp(files[..|files| - 1], j);
    }
  }

  type Netns = map<string, Namespace>

  /** `ms` are the namespaces of the normalised files. */
  ghost predicate NetnsOf(files: seq<Config>, ms: seq<Netns>) {
    |ms| == |files| && forall j :: 0 <= j < |files| ==> ms[j] == Normal(files[j]).netns
  }

  /** A sequence of namespace sections, merged. */
  function Folded(ms: seq<Netns>): Netns {
    if ms == [] then map[] else MergedNetns(Folded(ms[..|ms| - 1]), ms[|ms| - 1])
  }

  /** The namespaces of the loaded configuration, on their own. */
  function NetnsLoaded(files: seq<Config>): Netns {
    if files == [] then map[] else MergedNetns(NetnsLoaded(files[..|files| - 1]), Normal(files[|files| - 1]).netns)
  }

  lemma LoadedNetnsStep(files: seq<Config>)
    requires files != []
    ensures Loaded(files).netns == MergedNetns(Loaded(files[..|files| - 1]).netns, Normal(files[|files| - 1]).netns)
  {
  }

  lemma {:induction false} NetnsAlone(files: seq<Config>)
    ensures Loaded(files).netns == NetnsLoaded(files)
  {
    if files != [] {
      LoadedNetnsStep(files);
      NetnsAlone(files[..|files| - 1]);
    }
  }

  lemma FoldedStep(ms: seq<Netns>, m: Netns)
    ensures Folded(ms + [m]) == MergedNetns(Folded(ms), m)
  {
  }

  lemma {:induction false} NetnsFolded(files: seq<Config>) returns (ms: seq<Netns>)
    ensures NetnsOf(files, ms) && NetnsLoaded(files) == Folded(ms)
  {
    ms := [];
    if files != [] {
      var before := NetnsFolded(files[..|files| - 1]);
      var m := Normal(files[|files| - 1]).netns;
      FoldedStep(before, m);
      ms := before + [m];
    }
  }

  /** Normalising a file keeps everything about a namespace but its tunnels. */
  lemma NormalKeeps(c: Config, ns: string, k: DevKey)
    ensures ns in Normal(c).netns <==> DefinesNs(c, ns)
    ensures HasIn(Normal(c).netns, ns, k) <==> DefinesInNs(c, ns, k)
    ensures DefinesNs(c, ns) ==>
              var a, b := Normal(c).netns[ns], Modern(c).netns[ns];
              a.loopback == b.loopback && a.srv6 == b.srv6 && a.devices == b.devices
  {
  }

  /** One section more, for the parts a namespace keeps from its first one. */
  lemma HeadStep(dst: Netns, src: Netns, ns: string)
    ensures ns in MergedNetns(dst, src) <==> ns in dst || ns in src
    ensures ns in dst || ns in src ==>
              var r, from := MergedNetns(dst, src)[ns], if ns in dst then dst[ns] else src[ns];
              r.loopback == from.loopback && r.srv6 == from.srv6
  {
  }

  lemma {:induction false} NoEarlierNs(ms: seq<Netns>, ns: string)
    requires forall j :: 0 <= j < |ms| ==> ns !in ms[j]
    ensures ns !in Folded(ms)
  {
    if ms != [] {
      NoEarlierNs(ms[..|ms| - 1], ns);
      HeadStep(Folded(ms[..|ms| - 1]), ms[|ms| - 1], ns);
    }
  }

  lemma {:induction false} FoldKeepsFirst(ms: seq<Netns>, ns: string, i: nat)
    requires i < |ms| && ns in ms[i]
    requires forall j :: 0 <= j < i ==> ns !in ms[j]
    ensures ns in Folded(ms)
    ensures Folded(ms)[ns].loopback == ms[i][ns].loopback && Folded(ms)[ns].srv6 == ms[i][ns].srv6
  {
    var before := ms[..|ms| - 1];
    if i < |before| {
      FoldKeepsFirst(before, ns, i);
    } else {
      NoEarlierNs(before, ns);
    }
    HeadStep(Folded(before), ms[|ms| - 1], ns);
  }

  predicate DefinesNs(c: Config, ns: string) {
    ns in Modern(c).netns
  }

  /** A namespace repeated in several files keeps the loopback and SRv6 section of its
      first file, although the devices come from the last. */
  lemma {:induction false} FirstFileKeepsLoopback(files: seq<Config>, ns: string, i: nat)
    requires i < |files| && DefinesNs(files[i], ns)
    requires forall j :: 0 <= j < i ==> !DefinesNs(files[j], ns)
    ensures ns in Loaded(files).netns
    ensures Loaded(files).netns[ns].loopback == Modern(files[i]).netns[ns].loopback
    ensures Loaded(files).netns[ns].srv6 == Modern(files[i]).netns[ns].srv6
  {
    NetnsAlone(files);
    var ms := NetnsFolded(files);
    forall j | 0 <= j < |files|
      ensures ns in ms[j] <==> DefinesNs(files[j], ns)
    {
      NormalKeeps(files[j], ns, DevKey(0, ""));
    }
    NormalKeeps(files[i], ns, DevKey(0, ""));
    FoldKeepsFirst(ms, ns, i);
  }

  predicate HasIn(m: Netns, ns: string, k: DevKey) {
    ns in m && k in m[ns].devices
  }

  /** One section more, for one device of one namespace. */
  lemma DeviceStep(dst: Netns, src: Netns, ns: string, k: DevKey)
    requires HasIn(dst, ns, k) || HasIn(src, ns, k)
    ensures var r := MergedNetns(dst, src);
            HasIn(r, ns, k) && r[ns].devices[k] == if HasIn(src, ns, k) then src[ns].devices[k] else dst[ns].devices[k]
  {
  }

  lemma {:induction false} FoldTakesLast(ms: seq<Netns>, ns: string, k: DevKey, i: nat)
    requires i < |ms| && HasIn(ms[i], ns, k)
    requires forall j :: i < j < |ms| ==> !HasIn(ms[j], ns, k)
    ensures HasIn(Folded(ms), ns, k) && Folded(ms)[ns].devices[k] == ms[i][ns].devices[k]
  {
    var before := ms[..|ms| - 1];
    if i < |before| {
      FoldTakesLast(before, ns, k, i);
    }
    DeviceStep(Folded(before), ms[|ms| - 1], ns, k);
  }

  predicate DefinesInNs(c: Config, ns: string, k: DevKey) {
    HasIn(Modern(c).netns, ns, k)
  }

  /** Inside a repeated namespace the last file that defines a device wins too. */
  lemma {:induction false} LastDefinitionWinsInNs(files: seq<Config>, ns: string, k: DevKey, i: nat)
    requires i < |files| && DefinesInNs(files[i], ns, k)
    requires forall j :: i < j < |files| ==> !DefinesInNs(files[j], ns, k)
    ensures HasIn(Loaded(files).netns, ns, k)
    ensures Loaded(files).netns[ns].devices[k] == Modern(files[i]).netns[ns].devices[k]
  {
    NetnsAlone(files);
    var ms := NetnsFolded(files);
    forall j | 0 <= j < |files|
      ensures HasIn(ms[j], ns, k) <==> DefinesInNs(files[j], ns, k)
    {
      NormalKeeps(files[j], ns, k);
    }
    NormalKeeps(files[i], ns, k);
    FoldTakesLast(ms, ns, k, i);
  }

  predicate HasScript(m: Netns, ns: string) {
    ns in m && m[ns].postScript != ""
  }

  /** One section more, for the script of one namespace. */
  lemma ScriptStep(dst: Netns, src: Netns, ns: string)
    requires HasScript(dst, ns) || HasScript(src, ns)
    ensures var r := MergedNetns(dst, src);
            HasScript(r, ns) && r[ns].postScript == if HasScript(src, ns) then src[ns].postScript else dst[ns].postScript
  {
  }

  lemma {:induction false} FoldTakesScript(ms: seq<Netns>, ns: string, i: nat)
    requires i < |ms| && HasScript(ms[i], ns)
    requires forall j :: i < j < |ms| ==> !HasScript(ms[j], ns)
    ensures HasScript(Folded(ms), ns) && Folded(ms)[ns].postScript == ms[i][ns].postScript
  {
    var before := ms[..|ms| - 1];
    if i < |before| {
      FoldTakesScript(before, ns, i);
    }
    ScriptStep(Folded(before), ms[|ms| - 1], ns);
  }

  lemma NormalScript(c: Config, ns: string)
    ensures HasScript(Normal(c).netns, ns) <==> HasScript(Modern(c).netns, ns)
    ensures ns in Modern(c).netns ==> Normal(c).netns[ns].postScript == Modern(c).netns[ns].postScript
  {
  }

  /** The script of a repeated namespace is that of the last file that has one. */
  lemma LastScriptWins(files: seq<Config>, ns: string, i: nat)
    requires i < |files| && HasScript(Modern(files[i]).netns, ns)
    requires forall j :: i < j < |files| ==> !HasScript(Modern(files[j]).netns, ns)
    ensures HasScript(Loaded(files).netns, ns)
    ensures Loaded(files).netns[ns].postScript == Modern(files[i]).netns[ns].postScript
  {
    NetnsAlone(files);
    var ms := NetnsFolded(files);
    forall j | 0 <= j < |files|
      ensures HasScript(ms[j], ns) <==> HasScript(Modern(files[j]).netns, ns)
    {
      NormalScript(files[j], ns);
    }
    NormalScript(files[i], ns);
    FoldTakesScript(ms, ns, i);
  }
}
