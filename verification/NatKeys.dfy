/** NAT rules in the VPP state and their reaping by key (vpp/state.go, cmd/vpp.go). */
module NatKeys {
  import opened Collections
  import opened Decimal

  datatype NatItem = NatItem(
    kind: string, iface: string, role: string, proto: string, local: string, localPort: int,
    external: string, externalIf: string, externalPort: int, start: string, end: string,
    prefix: string, vrf: int, twiceNat: bool)

  const BLANK := NatItem("", "", "", "", "", 0, "", "", 0, "", "", "", 0, false)

  function Join(fields: seq<string>): string {
    if fields == [] then "" else if |fields| == 1 then fields[0] else fields[0] + "|" + Join(fields[1..])
  }

  function ShowBool(b: bool): string {
    if b then "true" else "false"
  }

  /** The fields that enter the key: all but the prefix. */
  function KeyFields(i: NatItem): (f: seq<string>)
    ensures |f| == 13
  {
    [i.kind, i.iface, i.role, i.proto, i.local, ShowInt(i.localPort), i.external, i.externalIf,
     ShowInt(i.externalPort), i.start, i.end, ShowInt(i.vrf), ShowBool(i.twiceNat)]
  }

  function Key(i: NatItem): string {
    Join(KeyFields(i))
  }

  predicate BarFree(s: string) {
    '|' !in s
  }

  predicate AllBarFree(fields: seq<string>) {
    forall k :: 0 <= k < |fields| ==> BarFree(fields[k])
  }

  lemma FirstBar(a: string, x: string, b: string, y: string)
    requires BarFree(a) && BarFree(b) && a + "|" + x == b + "|" + y
    ensures a == b && x == y
  {
    var s := a + "|" + x;
    assert s[|a|] == '|' && s[|b|] == '|';
    assert forall i :: 0 <= i < |a| ==> s[i] == a[i];
    assert forall i :: 0 <= i < |b| ==> s[i] == b[i];
    assert |a| == |b|;
    assert a == s[..|a|] == b && x == s[|a| + 1..] == y;
  }

  lemma {:induction false} JoinInjective(f: seq<string>, g: seq<string>)
    requires |f| == |g| && AllBarFree(f) && AllBarFree(g) && Join(f) == Join(g)
    ensures f == g
  {
    if |f| == 1 {
      assert f == [f[0]] && g == [g[0]];
    } else if |f| > 1 {
      FirstBar(f[0], Join(f[1..]), g[0], Join(g[1..]));
      JoinInjective(f[1..], g[1..]);
      assert f == [f[0]] + f[1..] && g == [g[0]] + g[1..];
    }
  }

  predicate BarFreeItem(i: NatItem) {
    && BarFree(i.kind) && BarFree(i.iface) && BarFree(i.role) && BarFree(i.proto) && BarFree(i.local)
    && BarFree(i.external) && BarFree(i.externalIf) && BarFree(i.start) && BarFree(i.end)
  }

  lemma FieldsBarFree(i: NatItem)
    requires BarFreeItem(i)
    ensures AllBarFree(KeyFields(i))
  {
  }

  /** The key identifies an item up to its prefix, and no further. */
  lemma KeyInjective(i: NatItem, j: NatItem)
    requires BarFreeItem(i) && BarFreeItem(j)
    ensures Key(i) == Key(j) <==> i.(prefix := "") == j.(prefix := "")
  {
    if Key(i) == Key(j) {
      FieldsBarFree(i);
      FieldsBarFree(j);
      JoinInjective(KeyFields(i), KeyFields(j));
      SameFields(i, j);
    }
    assert KeyFields(i) == KeyFields(i.(prefix := "")) && KeyFields(j) == KeyFields(j.(prefix := ""));
  }

  lemma SameFields(i: NatItem, j: NatItem)
    requires KeyFields(i) == KeyFields(j)
    ensures i.(prefix := "") == j.(prefix := "")
  {
    var f, g := KeyFields(i), KeyFields(j);
    assert f[0] == g[0] && f[1] == g[1] && f[2] == g[2] && f[3] == g[3] && f[4] == g[4];
    assert f[6] == g[6] && f[7] == g[7] && f[9] == g[9] && f[10] == g[10];
    assert f[5] == g[5] && f[8] == g[8] && f[11] == g[11] && f[12] == g[12];
    ShowIntInjective(i.localPort, j.localPort);
    ShowIntInjective(i.externalPort, j.externalPort);
    ShowIntInjective(i.vrf, j.vrf);
    assert ShowBool(true)[0] == 't' && ShowBool(false)[0] == 'f';
  }

  // ----- natItemsFromConfig -----

  /** The rules of a configuration; roles and protocols are already in lower case. */
  datatype NatRule =
    | Nat44If(iface: string, role: string)
    | Nat44Pool(start: string, end: string, vrf: int, twice: bool)
    | Nat44Static(proto: string, local: string, localPort: int, external: string, externalIf: string,
                  externalPort: int, vrf: int, twice: bool)
    | Nat64Prefix(prefix: string)
    | Nat64If(iface: string, role: string)
    | Nat64Pool(start: string, end: string, vrf: int)
    | Nat66Static(local: string, external: string, vrf: int)

  function ItemOf(r: NatRule): NatItem {
    match r
    case Nat44If(iface, role) => BLANK.(kind := "nat44-if", iface := iface, role := role)
    case Nat44Pool(s, e, vrf, twice) => BLANK.(kind := "nat44-pool", start := s, end := e, vrf := vrf, twiceNat := twice)
    case Nat44Static(proto, local, lp, ext, extIf, ep, vrf, twice) =>
      BLANK.(kind := "nat44-static", proto := proto, local := local, localPort := lp, external := ext,
             externalIf := extIf, externalPort := ep, vrf := vrf, twiceNat := twice)
    case Nat64Prefix(p) => BLANK.(kind := "nat64-prefix", prefix := p)
    case Nat64If(iface, role) => BLANK.(kind := "nat64-if", iface := iface, role := role)
    case Nat64Pool(s, e, vrf) => BLANK.(kind := "nat64-pool", start := s, end := e, vrf := vrf)
    case Nat66Static(local, ext, vrf) => BLANK.(kind := "nat66-static", local := local, external := ext, vrf := vrf)
  }

  /** Reads a rule back from an item, by its kind. */
  function RuleOf(i: NatItem): Option<NatRule> {
    if i.kind == "nat44-if" then Some(Nat44If(i.iface, i.role))
    else if i.kind == "nat44-pool" then Some(Nat44Pool(i.start, i.end, i.vrf, i.twiceNat))
    else if i.kind == "nat44-static" then
      Some(Nat44Static(i.proto, i.local, i.localPort, i.external, i.externalIf, i.externalPort, i.vrf, i.twiceNat))
    else if i.kind == "nat64-prefix" then Some(Nat64Prefix(i.prefix))
    else if i.kind == "nat64-if" then Some(Nat64If(i.iface, i.role))
    else if i.kind == "nat64-pool" then Some(Nat64Pool(i.start, i.end, i.vrf))
    else if i.kind == "nat66-static" then Some(Nat66Static(i.local, i.external, i.vrf))
    else None
  }

  /** An item records its rule, field by field. */
  lemma ItemRoundTrip(r: NatRule)
    ensures RuleOf(ItemOf(r)) == Some(r)
    ensures var i := ItemOf(r);
            && (r.Nat44If? || r.Nat64If? ==> i.iface == r.iface && i.role == r.role)
            && (r.Nat44Pool? || r.Nat64Pool? ==> i.start == r.start && i.end == r.end)
            && (r.Nat44Static? || r.Nat66Static? ==> i.local == r.local && i.external == r.external)
            && (r.Nat44Static? ==> i.localPort == r.localPort && i.externalPort == r.externalPort && i.externalIf == r.externalIf)
            && (r.Nat44Pool? || r.Nat44Static? ==> i.twiceNat == r.twice)
            && (r.Nat64Prefix? ==> i.prefix == r.prefix)
  {
    assert "nat44-if"[6] == 'i' && "nat44-pool"[6] == 'p' && "nat44-static"[6] == 's';
    assert "nat64-if"[6] == 'i' && "nat64-pool"[8] == 'o' && "nat64-prefix"[8] == 'e' && "nat66-static"[4] == '6';
    assert "nat44-if"[3] == '4' && "nat64-if"[3] == '6' && "nat66-static"[3] == '6' && "nat64-if"[4] == '4';
  }

  predicate Sane(r: NatRule) {
    BarFreeItem(ItemOf(r))
  }

  /** Two rules of a configuration share a key only if they are equal, or both set the
      NAT64 prefix. */
  lemma RuleKeys(r: NatRule, q: NatRule)
    requires Sane(r) && Sane(q)
    ensures Key(ItemOf(r)) == Key(ItemOf(q)) <==> r == q || (r.Nat64Prefix? && q.Nat64Prefix?)
  {
    KeyInjective(ItemOf(r), ItemOf(q));
  }

  // ----- reapNatOrphans -----

  function Keys(items: seq<NatItem>): set<string> {
    set i | i in items :: Key(i)
  }

  /** The items of `prev` whose key nothing desired has, in order. */
  function Stale(prev: seq<NatItem>, want: set<string>): seq<NatItem> {
    if prev == [] then [] else
      Stale(prev[..|prev| - 1], want) + (if Key(prev[|prev| - 1]) in want then [] else [prev[|prev| - 1]])
  }

  method ReapNatOrphans(prev: seq<NatItem>, desired: seq<NatItem>) returns (deleted: seq<NatItem>)
    ensures deleted == Stale(prev, Keys(desired))
  {
    var want: set<string> := {};
    for i := 0 to |desired|
      invariant want == Keys(desired[..i])
    {
      assert desired[..i + 1] == desired[..i] + [desired[i]];
      want := want + {Key(desired[i])};
    }
    assert desired[..|desired|] == desired;
    deleted := [];
    for i := 0 to |prev|
      invariant deleted == Stale(prev[..i], want)
    {
      assert prev[..i + 1][..i] == prev[..i];
      if Key(prev[i]) !in want {
        deleted := deleted + [prev[i]];
      }
    }
    assert prev[..|prev|] == prev;
  }

  lemma {:induction false} StaleMembers(prev: seq<NatItem>, want: set<string>, it: NatItem)
    ensures it in Stale(prev, want) <==> it in prev && Key(it) !in want
  {
    if prev != [] {
      StaleMembers(prev[..|prev| - 1], want, it);
    }
  }

  function ItemsOf(rules: seq<NatRule>): seq<NatItem> {
    seq(|rules|, k requires 0 <= k < |rules| => ItemOf(rules[k]))
  }

  lemma KeyWanted(desired: seq<NatRule>, key: string)
    ensures key in Keys(ItemsOf(desired)) <==> exists q :: q in desired && Key(ItemOf(q)) == key
  {
    if key in Keys(ItemsOf(desired)) {
      var it :| it in ItemsOf(desired) && Key(it) == key;
      var j :| 0 <= j < |desired| && ItemsOf(desired)[j] == it;
      assert desired[j] in desired && ItemOf(desired[j]) == it;
    }
    forall q | q in desired
      ensures Key(ItemOf(q)) in Keys(ItemsOf(desired))
    {
      var j :| 0 <= j < |desired| && desired[j] == q;
      assert ItemsOf(desired)[j] == ItemOf(q);
    }
  }

  /** Some desired rule has the key of `r`. */
  ghost predicate Matched(desired: seq<NatRule>, r: NatRule) {
    if r.Nat64Prefix? then exists q :: q in desired && q.Nat64Prefix? else r in desired
  }

  lemma MatchedIff(desired: seq<NatRule>, r: NatRule)
    requires Sane(r) && forall q :: q in desired ==> Sane(q)
    ensures Key(ItemOf(r)) in Keys(ItemsOf(desired)) <==> Matched(desired, r)
  {
    KeyWanted(desired, Key(ItemOf(r)));
    forall q | q in desired
      ensures Key(ItemOf(r)) == Key(ItemOf(q)) <==> r == q || (r.Nat64Prefix? && q.Nat64Prefix?)
    {
      RuleKeys(r, q);
    }
  }

  /** Reaping removes exactly the previous rules absent from the desired ones, except
      that a NAT64 prefix is removed only when no prefix is desired at all. */
  lemma ReapedRules(prev: seq<NatRule>, desired: seq<NatRule>, r: NatRule)
    requires r in prev && Sane(r) && forall q :: q in desired ==> Sane(q)
    ensures ItemOf(r) in Stale(ItemsOf(prev), Keys(ItemsOf(desired))) <==>
            if r.Nat64Prefix? then forall q :: q in desired ==> !q.Nat64Prefix? else r !in desired
  {
    var k :| 0 <= k < |prev| && prev[k] == r;
    assert ItemsOf(prev)[k] == ItemOf(r);
    StaleMembers(ItemsOf(prev), Keys(ItemsOf(desired)), ItemOf(r));
    MatchedIff(desired, r);
  }

  /** A changed prefix stays behind: the old one is not deleted. */
  lemma ChangedPrefixStays(p: string, q: string)
    requires p != q
    ensures Stale([ItemOf(Nat64Prefix(p))], Keys([ItemOf(Nat64Prefix(q))])) == []
  {
    var a, b := ItemOf(Nat64Prefix(p)), ItemOf(Nat64Prefix(q));
    assert Key(a) == Key(b) by {
      assert KeyFields(a) == KeyFields(b);
    }
    assert b in [b];
    assert [a][..0] == [];
  }
}
