/** The neighbour discovery responder (ndpproxy/responder.go).  Packets follow section 3
    of RFC 8200 and sections 4.3 and 4.4 of RFC 4861. */
module NdpResponder {
  import opened Collections

  newtype byte = x: int | 0 <= x < 256
  type Bytes = seq<byte>
  type Addr = a: Bytes | |a| == 16 witness [0, 0, 0, 0, 0, 0, 0, 0, 0, 0, 0, 0, 0, 0, 0, 0]

  const UNSPECIFIED: Addr := [0, 0, 0, 0, 0, 0, 0, 0, 0, 0, 0, 0, 0, 0, 0, 0]
  const ALL_NODES: Addr := [0xff, 0x02, 0, 0, 0, 0, 0, 0, 0, 0, 0, 0, 0, 0, 0, 1]
  const ALL_NODES_MAC: Bytes := [0x33, 0x33, 0, 0, 0, 1]
  const ICMPV6: byte := 58
  const SOLICITATION: byte := 135
  const ADVERTISEMENT: byte := 136

  // ----- Prefixes and rules -----

  function Value(b: Bytes): nat {
    if b == [] then 0 else Value(b[..|b| - 1]) * 256 + b[|b| - 1] as nat
  }

  /** Shifts out the low bits. */
  function Shr(x: nat, n: nat): nat {
    if n == 0 then x else Shr(x / 2, n - 1)
  }

  datatype Prefix = Prefix(addr: Addr, bits: nat)

  predicate ValidPrefix(p: Prefix) {
    p.bits <= 128
  }

  /** The addresses agree on the first `bits` bits. */
  predicate Contains(p: Prefix, a: Addr)
    requires ValidPrefix(p)
  {
    Shr(Value(a), 128 - p.bits) == Shr(Value(p.addr), 128 - p.bits)
  }

  // Containment, bit by bit.

  function TwoTo(n: nat): (p: nat)
    ensures p > 0
  {
    if n == 0 then 1 else 2 * TwoTo(n - 1)
  }

  /** Bit `i` of an address as it is written, the first one being the highest of the first byte. */
  function Bit(b: Bytes, i: nat): nat
    requires i < 8 * |b|
  {
    b[i / 8] as nat / TwoTo(7 - i % 8) % 2
  }

  /** The first `bits` bits agree. */
  predicate Agrees(p: Prefix, a: Addr)
    requires ValidPrefix(p)
  {
    forall i :: 0 <= i < p.bits ==> Bit(a, i) == Bit(p.addr, i)
  }

  lemma ByteShr(l: nat, k: nat)
    requires k < 8
    ensures Shr(l, k) == l / TwoTo(k) && TwoTo(7) == 128
  {
    assert TwoTo(1) == 2 && TwoTo(2) == 2 * TwoTo(1) && TwoTo(3) == 2 * TwoTo(2) && TwoTo(4) == 2 * TwoTo(3);
    assert TwoTo(5) == 2 * TwoTo(4) && TwoTo(6) == 2 * TwoTo(5) && TwoTo(7) == 2 * TwoTo(6);
    ShrNext(l, 0);
    ShrNext(l, 1);
    ShrNext(l, 2);
    ShrNext(l, 3);
    ShrNext(l, 4);
    ShrNext(l, 5);
    ShrNext(l, 6);
  }

  lemma ShrByte(v: nat)
    ensures Shr(v, 8) == v / 256
  {
    ByteShr(v, 7);
    ShrNext(v, 7);
  }

  lemma ShrNext(x: nat, n: nat)
    ensures Shr(x, n + 1) == Shr(x, n) / 2
  {
    ShrShr(x, n, 1);
  }

  /** Low bits do not depend on what stands above. */
  lemma {:induction false} ShrLow(f: nat, l: nat, j: nat, k: nat)
    requires k < j
    ensures Shr(f * TwoTo(j) + l, k) % 2 == Shr(l, k) % 2
  {
    var g := f * TwoTo(j - 1);
    assert f * TwoTo(j) == 2 * g;
    if k > 0 {
      ShrLow(f, l / 2, j - 1, k - 1);
      assert (2 * g + l) / 2 == g + l / 2;
    }
  }

  /** Bit `i` of an `n`-bit number, counted from the highest. */
  function HighBit(x: nat, n: nat, i: nat): nat
    requires i < n
  {
    Shr(x, n - 1 - i) % 2
  }

  lemma {:induction false} BitOfValue(b: Bytes, i: nat)
    requires i < 8 * |b|
    ensures HighBit(Value(b), 8 * |b|, i) == Bit(b, i)
  {
    var front, last := b[..|b| - 1], b[|b| - 1] as nat;
    var k := 8 * |b| - 1 - i;
    if k < 8 {
      assert TwoTo(8) == 2 * TwoTo(7) == 256;
      ShrLow(Value(front), last, 8, k);
      ByteShr(last, k);
      assert i / 8 == |b| - 1 && 7 - i % 8 == k;
    } else {
      ShrShr(Value(b), 8, k - 8);
      ShrByte(Value(b));
      assert Value(b) / 256 == Value(front);
      BitOfValue(front, i);
      assert i / 8 < |front| && front[i / 8] == b[i / 8];
    }
  }

  lemma {:induction false} ValueEnds(b: Bytes)
    ensures Shr(Value(b), 8 * |b|) == 0
  {
    if b != [] {
      var front := b[..|b| - 1];
      ValueEnds(front);
      ShrShr(Value(b), 8, 8 * |front|);
      ShrByte(Value(b));
      assert Value(b) / 256 == Value(front);
    }
  }

  /** Numbers of `n` bits agree above bit `k` exactly when they do on all higher bits. */
  lemma {:induction false} SameBits(x: nat, y: nat, k: nat, n: nat)
    requires k <= n && Shr(x, n) == Shr(y, n)
    ensures Shr(x, k) == Shr(y, k) <==> forall i :: 0 <= i < n - k ==> HighBit(x, n, i) == HighBit(y, n, i)
    decreases n - k
  {
    if k < n {
      SameBits(x, y, k + 1, n);
      ShrNext(x, k);
      ShrNext(y, k);
      assert HighBit(x, n, n - 1 - k) == Shr(x, k) % 2 && HighBit(y, n, n - 1 - k) == Shr(y, k) % 2;
    }
  }

  lemma HighBits(b: Bytes, c: Bytes, bits: nat)
    requires |b| == |c| && bits <= 8 * |b|
    ensures Shr(Value(b), 8 * |b| - bits) == Shr(Value(c), 8 * |b| - bits) <==>
            forall i :: 0 <= i < bits ==> Bit(b, i) == Bit(c, i)
  {
    var n := 8 * |b|;
    ValueEnds(b);
    ValueEnds(c);
    SameBits(Value(b), Value(c), n - bits, n);
    forall i | 0 <= i < n
      ensures HighBit(Value(b), n, i) == Bit(b, i) && HighBit(Value(c), n, i) == Bit(c, i)
    {
      BitOfValue(b, i);
      BitOfValue(c, i);
    }
  }

  /** A prefix contains exactly the addresses that agree with it on its first bits. */
  lemma ContainsIffAgrees(p: Prefix, a: Addr)
    requires ValidPrefix(p)
    ensures Contains(p, a) <==> Agrees(p, a)
  {
    HighBits(a, p.addr, p.bits);
  }

  /** `p` is the shorter prefix and contains the address of `q`. */
  predicate Covers(p: Prefix, q: Prefix)
    requires ValidPrefix(p) && ValidPrefix(q)
  {
    p.bits <= q.bits && Contains(p, q.addr)
  }

  lemma {:induction false} ShrShr(x: nat, m: nat, n: nat)
    ensures Shr(x, m + n) == Shr(Shr(x, m), n)
  {
    if m > 0 {
      ShrShr(x / 2, m - 1, n);
    }
  }

  /** Masked containment is transitive. */
  lemma CoveredContains(p: Prefix, q: Prefix, t: Addr)
    requires ValidPrefix(p) && ValidPrefix(q) && Covers(p, q) && Contains(q, t)
    ensures Contains(p, t)
  {
    var m, n := 128 - q.bits, q.bits - p.bits;
    ShrShr(Value(t), m, n);
    ShrShr(Value(q.addr), m, n);
  }

  datatype Rule = Rule(prefix: Prefix, neighbor: Option<Bytes>, auto: bool)

  predicate ValidRules(rules: seq<Rule>) {
    forall i :: 0 <= i < |rules| ==> ValidPrefix(rules[i].prefix)
  }

  function FirstMatch(rules: seq<Rule>, t: Addr): Option<Rule>
    requires ValidRules(rules)
  {
    if rules == [] then None
    else if Contains(rules[0].prefix, t) then Some(rules[0])
    else FirstMatch(rules[1..], t)
  }

  /** The rule at index `i` is the first whose prefix agrees with the target. */
  ghost predicate FirstAt(rules: seq<Rule>, t: Addr, i: nat)
    requires ValidRules(rules)
  {
    i < |rules| && Agrees(rules[i].prefix, t) && forall j :: 0 <= j < i ==> !Agrees(rules[j].prefix, t)
  }

  method Match(rules: seq<Rule>, t: Addr) returns (r: Option<Rule>)
    requires ValidRules(rules)
    ensures r == FirstMatch(rules, t)
    ensures r.None? <==> forall i :: 0 <= i < |rules| ==> !Agrees(rules[i].prefix, t)
    ensures forall i :: 0 <= i < |rules| && FirstAt(rules, t, i) ==> r == Some(rules[i])
    ensures r.Some? ==> exists i :: 0 <= i < |rules| && FirstAt(rules, t, i)
  {
    for i := 0 to |rules|
      invariant FirstMatch(rules, t) == FirstMatch(rules[i..], t)
      invariant forall j :: 0 <= j < i ==> !Agrees(rules[j].prefix, t)
    {
      ContainsIffAgrees(rules[i].prefix, t);
      if Contains(rules[i].prefix, t) {
        assert FirstAt(rules, t, i);
        return Some(rules[i]);
      }
    }
    return None;
  }

  /** The same of the function. */
  lemma {:induction false} FirstMatchAt(rules: seq<Rule>, t: Addr, i: nat)
    requires ValidRules(rules) && FirstAt(rules, t, i)
    ensures FirstMatch(rules, t) == Some(rules[i])
  {
    ContainsIffAgrees(rules[0].prefix, t);
    if i > 0 {
      assert !Agrees(rules[0].prefix, t);
      forall j | 0 <= j < i - 1
        ensures !Agrees(rules[1..][j].prefix, t)
      {
        assert !Agrees(rules[j + 1].prefix, t);
      }
      FirstMatchAt(rules[1..], t, i - 1);
    }
  }

  lemma {:induction false} FirstMatchIndex(rules: seq<Rule>, t: Addr) returns (i: nat)
    requires ValidRules(rules) && FirstMatch(rules, t).Some?
    ensures FirstAt(rules, t, i)
  {
    ContainsIffAgrees(rules[0].prefix, t);
    i := 0;
    if !Contains(rules[0].prefix, t) {
      var j := FirstMatchIndex(rules[1..], t);
      i := j + 1;
      forall k | 0 <= k < i
        ensures !Agrees(rules[k].prefix, t)
      {
        assert k > 0 ==> rules[k] == rules[1..][k - 1];
      }
    }
  }

  function Drop(rules: seq<Rule>, j: nat): (r: seq<Rule>)
    requires j < |rules|
    ensures ValidRules(rules) ==> ValidRules(r)
  {
    rules[..j] + rules[j + 1..]
  }

  /** A rule behind one that covers it is never the first match. */
  lemma {:induction false} ShadowedRule(rules: seq<Rule>, i: nat, j: nat, t: Addr)
    requires ValidRules(rules) && i < j < |rules| && Covers(rules[i].prefix, rules[j].prefix)
    ensures FirstMatch(Drop(rules, j), t) == FirstMatch(rules, t)
  {
    var rest := Drop(rules, j);
    assert rest[0] == rules[0] && rest[1..] == Drop(rules[1..], j - 1);
    if !Contains(rules[0].prefix, t) {
      if i == 0 {
        if Contains(rules[j].prefix, t) {
          CoveredContains(rules[0].prefix, rules[j].prefix, t);
        }
        DropMiss(rules, j, t);
      } else {
        ShadowedRule(rules[1..], i - 1, j - 1, t);
      }
    }
  }

  lemma {:induction false} DropMiss(rules: seq<Rule>, j: nat, t: Addr)
    requires ValidRules(rules) && j < |rules| && !Contains(rules[j].prefix, t)
    ensures FirstMatch(Drop(rules, j), t) == FirstMatch(rules, t)
  {
    if j == 0 {
      assert Drop(rules, j) == rules[1..];
    } else {
      assert Drop(rules, j)[0] == rules[0] && Drop(rules, j)[1..] == Drop(rules[1..], j - 1);
      DropMiss(rules[1..], j - 1, t);
    }
  }

  // ----- The IPv6 header -----

  function Packet(src: Addr, dst: Addr, payload: Bytes): (p: Bytes)
    ensures |p| == 40 + |payload|
  {
    var n := |payload| % 65536;
    [0x60, 0, 0, 0, (n / 256) as byte, (n % 256) as byte, ICMPV6, 255] + src + dst + payload
  }

  /** buildIPv6 fills a buffer in place; an uint16 holds the payload length. */
  method BuildIPv6(src: Addr, dst: Addr, payload: Bytes) returns (b: array<byte>)
    ensures fresh(b) && b[..] == Packet(src, dst, payload)
  {
    b := new byte[40 + |payload|](i => 0);
    PutHeader(b, |payload|);
    ghost var head := b[..8];
    Copy(b, 8, src);
    assert b[..24] == b[..8] + b[8..24] == head + src;
    Copy(b, 24, dst);
    assert b[..40] == b[..24] + b[24..40] == head + src + dst;
    Copy(b, 40, payload);
    assert b[..] == b[..40] + b[40..40 + |payload|] == head + src + dst + payload;
  }

  /** The fixed part of the header, in a zeroed buffer. */
  method PutHeader(b: array<byte>, length: nat)
    requires b.Length >= 40 && forall i :: 0 <= i < 8 ==> b[i] == 0
    modifies b
    ensures b[..8] == [0x60, 0, 0, 0, (length % 65536 / 256) as byte, (length % 65536 % 256) as byte, ICMPV6, 255]
  {
    b[0] := 0x60;
    b[4], b[5] := (length % 65536 / 256) as byte, (length % 65536 % 256) as byte;
    b[6] := ICMPV6;
    b[7] := 255;
  }

  method Copy(b: array<byte>, at: nat, from: Bytes)
    requires at + |from| <= b.Length
    modifies b
    ensures b[..at] == old(b[..at]) && b[at..at + |from|] == from && b[at + |from|..] == old(b[at + |from|..])
  {
    for i := 0 to |from|
      invariant forall j :: 0 <= j < i ==> b[at + j] == from[j]
      invariant forall j :: 0 <= j < b.Length && !(at <= j < at + i) ==> b[j] == old(b[j])
    {
      b[at + i] := from[i];
    }
  }

  /** Version 6, ICMPv6 without extension headers, hop limit 255. */
  predicate PassesFilter(p: Bytes) {
    |p| >= 40 && p[0] / 16 == 6 && p[6] == ICMPV6 && p[7] == 255
  }

  function SourceOf(p: Bytes): Addr
    requires PassesFilter(p)
  {
    p[8..24]
  }

  function DestinationOf(p: Bytes): Addr
    requires PassesFilter(p)
  {
    p[24..40]
  }

  function PayloadLength(p: Bytes): nat
    requires PassesFilter(p)
  {
    p[4] as nat * 256 + p[5] as nat
  }

  /** What is built passes the filter and reads back; the length field is right exactly
      for payloads below 64 KiB. */
  lemma HeaderRoundTrip(src: Addr, dst: Addr, payload: Bytes)
    ensures var p := Packet(src, dst, payload);
            && PassesFilter(p) && SourceOf(p) == src && DestinationOf(p) == dst && p[40..] == payload
            && (PayloadLength(p) == |payload| <==> |payload| < 65536)
  {
  }

  // ----- Neighbour discovery messages -----

  datatype Advertisement = Advertisement(router: bool, solicited: bool, overrides: bool, target: Addr, tlla: Bytes)

  datatype Message = Solicitation(target: Addr) | Advertised(na: Advertisement) | OtherMessage

  /** The parts of the message library that the responder does not look into. */
  datatype Library = Library(optionsOk: Bytes -> bool, checksum: (Bytes, Addr, Addr) -> (byte, byte))

  function Flags(na: Advertisement): byte {
    (if na.router then 0x80 else 0) + (if na.solicited then 0x40 else 0) + (if na.overrides then 0x20 else 0)
  }

  /** A target link-layer option carries exactly six bytes, otherwise encoding fails. */
  function Marshal(lib: Library, na: Advertisement, src: Addr, dst: Addr): Option<Bytes> {
    if |na.tlla| != 6 then None else
      var body := [Flags(na), 0, 0, 0] + na.target + [2, 1] + na.tlla;
      var (c, d) := lib.checksum(body, src, dst);
      Some([ADVERTISEMENT, 0, c, d] + body)
  }

  function Parse(lib: Library, b: Bytes): Option<Message> {
    if |b| < 4 then None
    else if b[0] == SOLICITATION then
      (if |b| < 24 || !lib.optionsOk(b[24..]) then None else Some(Solicitation(b[8..24])))
    else if b[0] == ADVERTISEMENT then
      (if |b| < 24 || !lib.optionsOk(b[24..]) then None
       else Some(Advertised(Advertisement(b[4] / 0x80 == 1, b[4] / 0x40 % 2 == 1, b[4] / 0x20 % 2 == 1, b[8..24],
                                          if |b| == 32 && b[24] == 2 && b[25] == 1 then b[26..] else []))))
    else if 133 <= b[0] <= 137 && lib.optionsOk(b[4..]) then Some(OtherMessage)
    else None
  }

  lemma MarshalParses(lib: Library, na: Advertisement, src: Addr, dst: Addr)
    requires |na.tlla| == 6 && lib.optionsOk([2, 1] + na.tlla)
    ensures Parse(lib, Marshal(lib, na, src, dst).value) == Some(Advertised(na))
  {
    var b := Marshal(lib, na, src, dst).value;
    assert b[4] == Flags(na) && b[8..24] == na.target;
    assert b[24..] == [2, 1] + na.tlla && b[26..] == na.tlla;
  }

  // ----- The responder -----

  /** `elsewhere` answers whether the kernel routes a target out of another interface. */
  datatype Responder = Responder(router: bool, rules: seq<Rule>, hwaddr: Bytes, elsewhere: Addr -> bool)

  datatype Reply = Reply(packet: Bytes, dstMac: Bytes)

  function Advertise(r: Responder, rule: Rule, target: Addr, solicited: bool): Advertisement {
    Advertisement(r.router, solicited, true, target, if rule.neighbor.Some? then rule.neighbor.value else r.hwaddr)
  }

  function BuildReply(lib: Library, r: Responder, target: Addr, src: Addr, srcMac: Bytes): Option<Reply>
    requires ValidRules(r.rules)
  {
    match FirstMatch(r.rules, target)
    case None => None
    case Some(rule) =>
      if rule.auto && !r.elsewhere(target) then None else
        var solicited := src != UNSPECIFIED;
        var dst: Addr := if solicited then src else ALL_NODES;
        var dstMac := if solicited && |srcMac| == 6 then srcMac else ALL_NODES_MAC;
        match Marshal(lib, Advertise(r, rule, target, solicited), target, dst)
        case None => None
        case Some(icmp) => Some(Reply(Packet(target, dst, icmp), dstMac))
  }

  function Handle(lib: Library, r: Responder, p: Bytes, srcMac: Bytes): Option<Reply>
    requires ValidRules(r.rules)
  {
    if !PassesFilter(p) then None else
      match Parse(lib, p[40..])
      case Some(Solicitation(target)) => BuildReply(lib, r, target, SourceOf(p), srcMac)
      case _ => None
  }

  /** When a packet is answered, and with what: the reply comes from the solicited
      target, is solicited and unicast exactly when the asker has an address, and goes to
      all nodes otherwise. */
  lemma {:induction false} ReplyExact(lib: Library, r: Responder, p: Bytes, srcMac: Bytes)
    requires ValidRules(r.rules) && forall mac :: |mac| == 6 ==> lib.optionsOk([2, 1] + mac)
    ensures match Handle(lib, r, p, srcMac)
            case None =>
              !(PassesFilter(p) && Parse(lib, p[40..]).Some? && Parse(lib, p[40..]).value.Solicitation? &&
                var t := Parse(lib, p[40..]).value.target;
                var m := FirstMatch(r.rules, t);
                m.Some? && (m.value.auto ==> r.elsewhere(t)) && |Advertise(r, m.value, t, true).tlla| == 6)
            case Some(reply) =>
              && PassesFilter(p) && PassesFilter(reply.packet)
              && exists t, rule ::
                   && Parse(lib, p[40..]) == Some(Solicitation(t)) && FirstMatch(r.rules, t) == Some(rule)
                   && SourceOf(reply.packet) == t
                   && DestinationOf(reply.packet) == (if SourceOf(p) != UNSPECIFIED then SourceOf(p) else ALL_NODES)
                   && Parse(lib, reply.packet[40..]) ==
                      Some(Advertised(Advertisement(r.router, SourceOf(p) != UNSPECIFIED, true, t,
                                                    if rule.neighbor.Some? then rule.neighbor.value else r.hwaddr)))
                   && (SourceOf(p) == UNSPECIFIED ==> reply.dstMac == ALL_NODES_MAC)
                   && (SourceOf(p) != UNSPECIFIED && |srcMac| == 6 ==> reply.dstMac == srcMac)
  {
    var answer := Handle(lib, r, p, srcMac);
    if answer.Some? {
      var t := Parse(lib, p[40..]).value.target;
      var rule := FirstMatch(r.rules, t).value;
      var solicited := SourceOf(p) != UNSPECIFIED;
      var dst: Addr := if solicited then SourceOf(p) else ALL_NODES;
      var na := Advertise(r, rule, t, solicited);
      MarshalParses(lib, na, t, dst);
      HeaderRoundTrip(t, dst, Marshal(lib, na, t, dst).value);
    }
  }

  // ----- On the wire -----

  /** A neighbour solicitation as it arrives: version 6, ICMPv6, hop limit 255, type 135. */
  predicate Asks(lib: Library, p: Bytes) {
    && |p| >= 64 && 0x60 <= p[0] <= 0x6f && p[6] == 58 && p[7] == 255 && p[40] == 135 && lib.optionsOk(p[64..])
  }

  function Neighbor(r: Responder, rule: Rule): Bytes {
    match rule.neighbor
    case Some(mac) => mac
    case None => r.hwaddr
  }

  lemma AskedTarget(lib: Library, p: Bytes)
    ensures Asks(lib, p) <==>
            PassesFilter(p) && Parse(lib, p[40..]).Some? && Parse(lib, p[40..]).value.Solicitation?
    ensures Asks(lib, p) ==> Parse(lib, p[40..]).value.target == p[48..64]
  {
    if |p| >= 64 {
      assert p[40..][0] == p[40] && p[40..][8..24] == p[48..64] && p[40..][24..] == p[64..];
    }
  }

  /** A packet is answered exactly when it is such a solicitation and the first rule that
      agrees with its target has a six-byte neighbour and, if automatic, the kernel routes
      the target elsewhere. */
  lemma {:induction false} AnsweredIff(lib: Library, r: Responder, p: Bytes, srcMac: Bytes)
    requires ValidRules(r.rules)
    ensures Handle(lib, r, p, srcMac).Some? <==>
            Asks(lib, p) && exists i :: 0 <= i < |r.rules| && FirstAt(r.rules, p[48..64], i) &&
                                        |Neighbor(r, r.rules[i])| == 6 && (r.rules[i].auto ==> r.elsewhere(p[48..64]))
  {
    AskedTarget(lib, p);
    if Asks(lib, p) {
      var t: Addr := p[48..64];
      if Handle(lib, r, p, srcMac).Some? {
        var i := FirstMatchIndex(r.rules, t);
        FirstMatchAt(r.rules, t, i);
      }
      forall i | 0 <= i < |r.rules| && FirstAt(r.rules, t, i)
        ensures FirstMatch(r.rules, t) == Some(r.rules[i])
      {
        FirstMatchAt(r.rules, t, i);
      }
    }
  }

  predicate Zero(a: Bytes) {
    forall i :: 0 <= i < |a| ==> a[i] == 0
  }

  /** The bytes of the reply: an ICMPv6 packet from the target, an advertisement of type 136
      with the router, solicited and override flags, the target again, and the target
      link-layer option. */
  lemma {:induction false} ReplyBytes(lib: Library, r: Responder, p: Bytes, srcMac: Bytes, i: nat)
    requires ValidRules(r.rules) && Handle(lib, r, p, srcMac).Some? && |p| >= 64 && FirstAt(r.rules, p[48..64], i)
    ensures var b, mac, dad := Handle(lib, r, p, srcMac).value.packet, Handle(lib, r, p, srcMac).value.dstMac, Zero(p[8..24]);
            && |b| == 72 && b[..8] == [0x60, 0, 0, 0, 0, 32, 58, 255]
            && b[8..24] == p[48..64]
            && b[24..40] == (if dad then [0xff, 0x02, 0, 0, 0, 0, 0, 0, 0, 0, 0, 0, 0, 0, 0, 0x01] else p[8..24])
            && b[40] == 136 && b[41] == 0
            && b[44] == (if r.router then 128 else 0) + (if dad then 0 else 64) + 32
            && b[48..64] == p[48..64] && b[64] == 2 && b[65] == 1 && b[66..72] == Neighbor(r, r.rules[i])
            && mac == if !dad && |srcMac| == 6 then srcMac else [0x33, 0x33, 0, 0, 0, 0x01]
  {
    AskedTarget(lib, p);
    var t: Addr := p[48..64];
    FirstMatchAt(r.rules, t, i);
    assert Zero(p[8..24]) <==> p[8..24] == UNSPECIFIED;
    var solicited := SourceOf(p) != UNSPECIFIED;
    var dst: Addr := if solicited then SourceOf(p) else ALL_NODES;
    MarshalBytes(lib, Advertise(r, r.rules[i], t, solicited), t, dst);
    ReplyLayout(t, dst, Marshal(lib, Advertise(r, r.rules[i], t, solicited), t, dst).value);
  }

  lemma MarshalBytes(lib: Library, na: Advertisement, src: Addr, dst: Addr)
    requires |na.tlla| == 6
    ensures var b := Marshal(lib, na, src, dst).value;
            && |b| == 32 && b[0] == 136 && b[1] == 0 && b[8..24] == na.target && b[24] == 2 && b[25] == 1 && b[26..32] == na.tlla
            && b[4] == (if na.router then 128 else 0) + (if na.solicited then 64 else 0) + (if na.overrides then 32 else 0)
  {
    var b := Marshal(lib, na, src, dst).value;
    assert b[8..24] == na.target && b[26..32] == na.tlla;
  }

  lemma ReplyLayout(src: Addr, dst: Addr, icmp: Bytes)
    requires |icmp| == 32
    ensures var b := Packet(src, dst, icmp);
            && |b| == 72 && b[..8] == [0x60, 0, 0, 0, 0, 32, 58, 255] && b[8..24] == src && b[24..40] == dst
            && b[40] == icmp[0] && b[41] == icmp[1] && b[44] == icmp[4] && b[48..64] == icmp[8..24]
            && b[64] == icmp[24] && b[65] == icmp[25] && b[66..72] == icmp[26..32]
  {
    var b := Packet(src, dst, icmp);
    assert b[40..] == icmp;
    assert b[48..64] == icmp[8..24] && b[66..72] == icmp[26..32];
  }

  /** No responder answers a responder's reply, whatever the two are configured to do. */
  lemma NoReplyToReply(lib: Library, r: Responder, r': Responder, p: Bytes, srcMac: Bytes, srcMac': Bytes)
    requires ValidRules(r.rules) && ValidRules(r'.rules) && Handle(lib, r, p, srcMac).Some?
    ensures Handle(lib, r', Handle(lib, r, p, srcMac).value.packet, srcMac') == None
  {
  }

  /** A shadowed rule can be deleted without any packet noticing. */
  lemma ShadowedRuleUnobservable(lib: Library, r: Responder, i: nat, j: nat, p: Bytes, srcMac: Bytes)
    requires ValidRules(r.rules) && i < j < |r.rules| && Covers(r.rules[i].prefix, r.rules[j].prefix)
    ensures Handle(lib, r.(rules := Drop(r.rules, j)), p, srcMac) == Handle(lib, r, p, srcMac)
  {
    if PassesFilter(p) && Parse(lib, p[40..]).Some? && Parse(lib, p[40..]).value.Solicitation? {
      ShadowedRule(r.rules, i, j, Parse(lib, p[40..]).value.target);
    }
  }
}
