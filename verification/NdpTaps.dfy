/** Responder taps of VPP bridges: apply, the state file, the daemon's rebuild specs and
    its responders each derive them from the configuration on their own (cmd/vpp.go,
    cmd/ndp.go, cmd/ndptap_daemon.go, vpp/ndptap.go, vpp/state.go). */
module NdpTaps {
  import opened Collections
  import opened NdpManager

  datatype NdpRule = NdpRule(prefix: string, neighbor: string, mode: string)

  /** `bdId` is the configured bridge-domain id inside a vpp block, 0 when not set. */
  datatype VppBlock = VppBlock(bdId: int)
  datatype Bridge = Bridge(vpp: Option<VppBlock>, renderer: string, rules: seq<NdpRule>)
  type Bridges = map<string, Bridge>

  /** Library functions: the 32-bit hash of a name, and which texts the two prefix
      parsers and the MAC parser accept. */
  datatype Library = Library(hash: string -> nat, cidrOk: string -> bool, prefixOk: string -> bool, macOk: string -> bool)

  ghost predicate ValidLibrary(lib: Library) {
    forall s :: lib.hash(s) < TWO32
  }

  predicate VppManaged(b: Bridge, global: string) {
    b.vpp.Some? || EqualFold(if b.renderer == "" then global else b.renderer, "vpp")
  }

  // ----- Names and ids -----

  function HexDigit(d: nat): char
    requires d < 16
  {
    if d < 10 then '0' + d as char else 'a' + (d - 10) as char
  }

  /** The low `k` hexadecimal digits. */
  function Hex(n: nat, k: nat): (s: string)
    ensures |s| == k
  {
    if k == 0 then "" else Hex(n / 16, k - 1) + [HexDigit(n % 16)]
  }

  function TapName(lib: Library, bridge: string): (s: string)
    ensures |s| == 13
  {
    "ncndp" + Hex(lib.hash(bridge), 8)
  }

  function AutoBdId(lib: Library, bridge: string): (id: nat)
    ensures 1 <= id <= 16_000_000
  {
    lib.hash(bridge) % 16_000_000 + 1
  }

  function BdId(lib: Library, name: string, b: Bridge): nat {
    if b.vpp.Some? && b.vpp.value.bdId > 0 then b.vpp.value.bdId % TWO32 else AutoBdId(lib, name)
  }

  lemma {:induction false} HexInjective(m: nat, n: nat, k: nat, bound: nat)
    requires Hex(m, k) == Hex(n, k) && m < bound && n < bound && bound <= Power16(k)
    ensures m == n
  {
    if k > 0 {
      assert Hex(m, k)[..k - 1] == Hex(m / 16, k - 1) && Hex(n, k)[..k - 1] == Hex(n / 16, k - 1);
      assert Hex(m, k)[k - 1] == HexDigit(m % 16) && Hex(n, k)[k - 1] == HexDigit(n % 16);
      HexInjective(m / 16, n / 16, k - 1, Power16(k - 1));
    }
  }

  function Power16(k: nat): (p: nat)
    ensures p > 0
  {
    if k == 0 then 1 else 16 * Power16(k - 1)
  }

  lemma Power16Of8()
    ensures Power16(8) == TWO32
  {
  }

  /** Two bridges share a tap exactly when their hashes collide. */
  lemma TapNameInjective(lib: Library, a: string, b: string)
    requires ValidLibrary(lib)
    ensures TapName(lib, a) == TapName(lib, b) <==> lib.hash(a) == lib.hash(b)
  {
    if TapName(lib, a) == TapName(lib, b) {
      assert TapName(lib, a)[5..] == Hex(lib.hash(a), 8) && TapName(lib, b)[5..] == Hex(lib.hash(b), 8);
      Power16Of8();
      HexInjective(lib.hash(a), lib.hash(b), 8, TWO32);
    }
  }

  function HexValue(c: char): nat {
    if '0' <= c <= '9' then (c as int - '0' as int) as nat
    else if 'a' <= c <= 'f' then (c as int - 'a' as int + 10) as nat
    else 0
  }

  function ReadHex(s: string): nat {
    if s == "" then 0 else ReadHex(s[..|s| - 1]) * 16 + HexValue(s[|s| - 1])
  }

  lemma {:induction false} ReadsHex(n: nat, k: nat)
    requires n < Power16(k)
    ensures ReadHex(Hex(n, k)) == n
  {
    if k > 0 {
      assert n / 16 < Power16(k - 1);
      ReadsHex(n / 16, k - 1);
      assert Hex(n, k)[..k - 1] == Hex(n / 16, k - 1);
      assert HexValue(HexDigit(n % 16)) == n % 16;
    }
  }

  /** The name of a tap: five letters, and the hash in eight hexadecimal digits. */
  lemma TapNameText(lib: Library, bridge: string)
    requires ValidLibrary(lib)
    ensures TapName(lib, bridge)[..5] == "ncndp" && ReadHex(TapName(lib, bridge)[5..]) == lib.hash(bridge)
  {
    Power16Of8();
    ReadsHex(lib.hash(bridge), 8);
    assert TapName(lib, bridge)[5..] == Hex(lib.hash(bridge), 8);
  }

  /** The domain of a bridge: the configured one, as far as 32 bits hold it, else one that
      depends on the name. */
  lemma DomainRule(lib: Library, name: string, b: Bridge)
    ensures b.vpp.Some? && 0 < b.vpp.value.bdId < 0x1_0000_0000 ==> BdId(lib, name, b) == b.vpp.value.bdId
    ensures b.vpp.None? || b.vpp.value.bdId <= 0 ==> BdId(lib, name, b) == lib.hash(name) % 16_000_000 + 1
  {
  }

  /** Which bridges VPP manages: those with a section of their own, or with the renderer
      named on them, or else globally. */
  lemma ManagedRule(b: Bridge, global: string)
    ensures b.vpp.Some? ==> VppManaged(b, global)
    ensures b.vpp.None? && b.renderer != "" ==> (VppManaged(b, global) <==> EqualFold(b.renderer, "vpp"))
    ensures b.vpp.None? && b.renderer == "" ==> (VppManaged(b, global) <==> EqualFold(global, "vpp"))
  {
  }

  // ----- Which rules a tap can carry -----

  predicate External(r: NdpRule) {
    r.neighbor != "" && !EqualFold(r.mode, "auto")
  }

  /** The static rules with an explicit neighbour, in order. */
  function ExternalRules(rules: seq<NdpRule>): seq<NdpRule> {
    if rules == [] then [] else
      var last := rules[|rules| - 1];
      ExternalRules(rules[..|rules| - 1]) + (if External(last) then [last] else [])
  }

  /** They keep their order, on which it depends which one is matched first. */
  lemma {:induction false} ExternalInOrder(a: seq<NdpRule>, b: seq<NdpRule>)
    ensures ExternalRules(a + b) == ExternalRules(a) + ExternalRules(b)
  {
    if b == [] {
      assert a + b == a;
    } else {
      assert (a + b)[..|a + b| - 1] == a + b[..|b| - 1];
      ExternalInOrder(a, b[..|b| - 1]);
    }
  }

  /** vppNDPTapRules: those rules, and how many are skipped. */
  method TapRules(rules: seq<NdpRule>) returns (ok: seq<NdpRule>, skipped: nat)
    ensures ok == ExternalRules(rules) && |ok| + skipped == |rules|
    ensures forall r :: r in ok <==> r in rules && r.neighbor != "" && !EqualFold(r.mode, "auto")
  {
    ok, skipped := [], 0;
    for i := 0 to |rules|
      invariant ok == ExternalRules(rules[..i]) && |ok| + skipped == i
      invariant forall r :: r in ok <==> r in rules[..i] && External(r)
    {
      var r := rules[i];
      assert rules[..i + 1] == rules[..i] + [r];
      if r.neighbor == "" || EqualFold(r.mode, "auto") {
        skipped := skipped + 1;
      } else {
        ok := ok + [r];
      }
    }
    assert rules[..|rules|] == rules;
  }

  ghost predicate NeedsTap(b: Bridge, global: string) {
    VppManaged(b, global) && exists r :: r in b.rules && External(r)
  }

  ghost function TapBridges(bs: Bridges, global: string): set<string> {
    set n | n in bs && NeedsTap(bs[n], global)
  }

  ghost function TapNames(lib: Library, bs: Bridges, global: string): set<string> {
    set n | n in TapBridges(bs, global) :: TapName(lib, n)
  }

  // ----- The four derivations -----

  /** buildDesiredVPPState: the taps recorded for reaping. */
  method DesiredTaps(lib: Library, bs: Bridges, global: string) returns (taps: set<string>)
    ensures taps == TapNames(lib, bs, global)
  {
    taps := {};
    var rest := bs.Keys;
    while rest != {}
      invariant rest <= bs.Keys
      invariant forall t :: t in taps <==> exists n :: n in TapBridges(bs, global) && n !in rest && TapName(lib, n) == t
    {
      var n :| n in rest;
      rest := rest - {n};
      var ok, _ := TapRules(bs[n].rules);
      if VppManaged(bs[n], global) && |ok| > 0 {
        assert ok[0] in ok;
        taps := taps + {TapName(lib, n)};
      }
      assert VppManaged(bs[n], global) && |ok| == 0 ==> !NeedsTap(bs[n], global);
    }
  }

  /** The tap belongs to the bridge `n`, and `bd` is that bridge's domain. */
  ghost predicate Owned(lib: Library, bs: Bridges, global: string, t: string, bd: nat, n: string) {
    n in TapBridges(bs, global) && TapName(lib, n) == t && bd == BdId(lib, n, bs[n])
  }

  /** provisionNDPTaps: the taps made to exist, each with the domain it joins. */
  method ProvisionTaps(lib: Library, bs: Bridges, global: string) returns (made: map<string, nat>)
    ensures made.Keys == TapNames(lib, bs, global)
    ensures forall t :: t in made ==> exists n :: Owned(lib, bs, global, t, made[t], n)
  {
    made := map[];
    var rest := bs.Keys;
    while rest != {}
      invariant rest <= bs.Keys
      invariant forall t :: t in made <==> exists n :: n in TapBridges(bs, global) && n !in rest && TapName(lib, n) == t
      invariant forall t :: t in made ==> exists n :: Owned(lib, bs, global, t, made[t], n)
    {
      var n :| n in rest;
      rest := rest - {n};
      var ok, _ := TapRules(bs[n].rules);
      if VppManaged(bs[n], global) && |ok| > 0 {
        assert ok[0] in ok;
        made := made[TapName(lib, n) := BdId(lib, n, bs[n])];
        assert Owned(lib, bs, global, TapName(lib, n), BdId(lib, n, bs[n]), n);
      }
      assert VppManaged(bs[n], global) && |ok| == 0 ==> !NeedsTap(bs[n], global);
    }
  }

  /** ndpTapSpecs: what the daemon needs to rebuild each tap. */
  method TapSpecs(lib: Library, bs: Bridges, global: string) returns (specs: map<string, TapSpec>)
    ensures specs.Keys == TapNames(lib, bs, global)
    ensures forall t :: t in specs ==>
              && specs[t].bridge in TapBridges(bs, global) && TapName(lib, specs[t].bridge) == t
              && specs[t].bdId == BdId(lib, specs[t].bridge, bs[specs[t].bridge])
  {
    specs := map[];
    var rest := bs.Keys;
    while rest != {}
      invariant rest <= bs.Keys
      invariant forall t :: t in specs <==> exists n :: n in TapBridges(bs, global) && n !in rest && TapName(lib, n) == t
      invariant forall t :: t in specs ==>
                  && specs[t].bridge in TapBridges(bs, global) && TapName(lib, specs[t].bridge) == t
                  && specs[t].bdId == BdId(lib, specs[t].bridge, bs[specs[t].bridge])
    {
      var n :| n in rest;
      rest := rest - {n};
      var ok, _ := TapRules(bs[n].rules);
      if VppManaged(bs[n], global) && |ok| > 0 {
        assert ok[0] in ok;
        specs := specs[TapName(lib, n) := TapSpec(n, BdId(lib, n, bs[n]))];
      }
      assert VppManaged(bs[n], global) && |ok| == 0 ==> !NeedsTap(bs[n], global);
    }
  }

  /** Some rule survives the daemon's own filter. */
  ghost predicate Carries(lib: Library, b: Bridge) {
    exists r :: r in b.rules && External(r) && lib.prefixOk(r.prefix) && lib.macOk(r.neighbor)
  }

  /** The rule loop of ndpResponderConfigs on a VPP bridge: how many rules are kept. */
  method KeptRules(lib: Library, rules: seq<NdpRule>) returns (kept: nat)
    ensures kept > 0 <==> exists r :: r in rules && External(r) && lib.prefixOk(r.prefix) && lib.macOk(r.neighbor)
  {
    kept := 0;
    for i := 0 to |rules|
      invariant kept > 0 <==> exists r :: r in rules[..i] && External(r) && lib.prefixOk(r.prefix) && lib.macOk(r.neighbor)
    {
      var r := rules[i];
      assert forall q :: q in rules[..i + 1] <==> q in rules[..i] || q == r;
      if !lib.prefixOk(r.prefix) {
        continue;
      }
      if r.neighbor != "" && !lib.macOk(r.neighbor) {
        continue;
      }
      if r.neighbor == "" || EqualFold(r.mode, "auto") {
        continue;
      }
      kept := kept + 1;
    }
    assert rules[..|rules|] == rules;
  }

  ghost function BoundNames(lib: Library, bs: Bridges, global: string): set<string> {
    set n | n in bs && VppManaged(bs[n], global) && Carries(lib, bs[n]) :: TapName(lib, n)
  }

  /** ndpResponderConfigs: the taps the daemon binds responders to. */
  method BoundTaps(lib: Library, bs: Bridges, global: string) returns (bound: set<string>)
    ensures bound == BoundNames(lib, bs, global)
  {
    bound := {};
    var rest := bs.Keys;
    while rest != {}
      invariant rest <= bs.Keys
      invariant forall t :: t in bound <==>
                  exists n :: n in bs && n !in rest && VppManaged(bs[n], global) && Carries(lib, bs[n]) && TapName(lib, n) == t
    {
      var n :| n in rest;
      rest := rest - {n};
      if VppManaged(bs[n], global) {
        var kept := KeptRules(lib, bs[n].rules);
        if kept > 0 {
          bound := bound + {TapName(lib, n)};
        }
      }
    }
  }

  // ----- They agree -----

  /** validateNDProxyBlock on every bridge. */
  ghost predicate Validated(lib: Library, bs: Bridges) {
    forall n, r :: n in bs && r in bs[n].rules ==>
      lib.cidrOk(r.prefix) && (r.neighbor != "" ==> lib.macOk(r.neighbor)) && r.mode in ["", "static", "auto"]
  }

  /** What the validator's prefix parser accepts, the responder's accepts too. */
  ghost predicate ParsersAgree(lib: Library) {
    forall p :: lib.cidrOk(p) ==> lib.prefixOk(p)
  }

  /** On a validated configuration the recorded, the provisioned, the rebuildable and the
      bound taps are one set. */
  lemma BoundIsProvisioned(lib: Library, bs: Bridges, global: string)
    requires Validated(lib, bs)
    ensures BoundNames(lib, bs, global) <= TapNames(lib, bs, global)
    ensures ParsersAgree(lib) ==> BoundNames(lib, bs, global) == TapNames(lib, bs, global)
  {
  }

  /** Whatever order each of them visits the bridges in, the four derivations give one
      set of taps, and apply and daemon put each tap into the same domain as long as
      bridges whose hashes collide have one domain. */
  method TapsAgree(lib: Library, bs: Bridges, global: string)
    returns (made: map<string, nat>, specs: map<string, TapSpec>, taps: set<string>, bound: set<string>)
    requires ValidLibrary(lib) && Validated(lib, bs) && ParsersAgree(lib)
    ensures made.Keys == specs.Keys == taps == bound == TapNames(lib, bs, global)
    ensures (forall a, b :: a in TapBridges(bs, global) && b in TapBridges(bs, global) && lib.hash(a) == lib.hash(b) ==>
               BdId(lib, a, bs[a]) == BdId(lib, b, bs[b])) ==>
            forall t :: t in made ==> made[t] == specs[t].bdId
  {
    made := ProvisionTaps(lib, bs, global);
    specs := TapSpecs(lib, bs, global);
    taps := DesiredTaps(lib, bs, global);
    bound := BoundTaps(lib, bs, global);
    BoundIsProvisioned(lib, bs, global);
    forall t | t in made
      ensures exists n :: Owned(lib, bs, global, t, made[t], n) && lib.hash(n) == lib.hash(specs[t].bridge)
    {
      var n :| Owned(lib, bs, global, t, made[t], n);
      TapNameInjective(lib, n, specs[t].bridge);
    }
  }
}
