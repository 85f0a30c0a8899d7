/** SRv6 local SIDs: what validation accepts can be encoded (config/srv6.go, netlink/srv6.go).
    The behaviours are those of section 4 of RFC 8986. */
module Srv6 {
  import opened Collections

  datatype Ip = V4(v4: nat) | V6(v6: nat)

  /** The library's address parser. */
  type Parser = string -> Option<Ip>

  datatype LocalSid = LocalSid(sid: string, action: string, table: int, vrfTable: int,
                               nh4: string, nh6: string, iif: string, oif: string, segments: seq<string>)

  datatype Field = Table | VrfTable | Nh4 | Nh6 | Oif | Segments

  const ACTIONS: map<string, seq<Field>> := map[
    "End" := [], "End.X" := [Nh6], "End.T" := [Table], "End.DX2" := [Oif], "End.DX4" := [Nh4],
    "End.DX6" := [Nh6], "End.DT4" := [VrfTable], "End.DT6" := [Table], "End.DT46" := [VrfTable],
    "End.B6" := [Segments], "End.B6.Encaps" := [Segments]]

  datatype Action = End | EndX | EndT | EndDX2 | EndDX4 | EndDX6 | EndDT4 | EndDT6 | EndDT46 | EndB6 | EndB6Encaps

  const CODES: map<string, Action> := map[
    "End" := End, "End.X" := EndX, "End.T" := EndT, "End.DX2" := EndDX2, "End.DX4" := EndDX4,
    "End.DX6" := EndDX6, "End.DT4" := EndDT4, "End.DT6" := EndDT6, "End.DT46" := EndDT46,
    "End.B6" := EndB6, "End.B6.Encaps" := EndB6Encaps]

  predicate IsV6(parse: Parser, s: string) {
    parse(s).Some? && parse(s).value.V6?
  }

  predicate IsV4(parse: Parser, s: string) {
    parse(s).Some? && parse(s).value.V4?
  }

  /** The text before the first slash. */
  function Cut(s: string): string {
    if s == [] || s[0] == '/' then [] else [s[0]] + Cut(s[1..])
  }

  // ----- validateLocalSID -----

  predicate Provides(parse: Parser, s: LocalSid, f: Field) {
    match f
    case Table => s.table > 0
    case VrfTable => s.vrfTable > 0
    case Nh4 => IsV4(parse, s.nh4)
    case Nh6 => IsV6(parse, s.nh6)
    case Oif => s.oif != ""
    case Segments => |s.segments| > 0
  }

  predicate Valid(parse: Parser, s: LocalSid) {
    && s.sid != "" && IsV6(parse, Cut(s.sid))
    && s.action in ACTIONS
    && (forall f :: f in ACTIONS[s.action] ==> Provides(parse, s, f))
    && (s.nh4 != "" ==> IsV4(parse, s.nh4))
    && (s.nh6 != "" ==> IsV6(parse, s.nh6))
    && (forall seg :: seg in s.segments ==> IsV6(parse, seg))
  }

  method Validate(parse: Parser, s: LocalSid) returns (ok: bool)
    ensures ok <==> Valid(parse, s)
  {
    if s.sid == "" || !IsV6(parse, Cut(s.sid)) || s.action !in ACTIONS {
      return false;
    }
    var req := ACTIONS[s.action];
    for i := 0 to |req|
      invariant forall j :: 0 <= j < i ==> Provides(parse, s, req[j])
    {
      if !Provides(parse, s, req[i]) {
        assert req[i] in req;
        return false;
      }
    }
    if (s.nh4 != "" && !IsV4(parse, s.nh4)) || (s.nh6 != "" && !IsV6(parse, s.nh6)) {
      return false;
    }
    for i := 0 to |s.segments|
      invariant forall j :: 0 <= j < i ==> IsV6(parse, s.segments[j])
    {
      if !IsV6(parse, s.segments[i]) {
        assert s.segments[i] in s.segments;
        return false;
      }
    }
    return true;
  }

  // ----- AddLocalSID -----

  datatype Flag = FAction | FTable | FVrfTable | FNh4 | FNh6 | FOif | FIif | FSrh

  datatype Encap = Encap(flags: set<Flag>, action: Action, table: int, vrfTable: int, nh4: Option<Ip>, nh6: Option<Ip>,
                         oif: Option<nat>, iif: Option<nat>, segments: seq<Ip>)

  datatype Error = UnknownAction | BadSid | BadNh4 | BadNh6 | NoOif | NoIif | BadSegment
  datatype Result = Route(dst: Ip, encap: Encap) | Failed(error: Error)

  method ParseSegments(parse: Parser, segs: seq<string>) returns (r: Option<seq<Ip>>)
    ensures r.Some? <==> forall s :: s in segs ==> parse(s).Some?
    ensures r.Some? ==> |r.value| == |segs| && forall i :: 0 <= i < |segs| ==> parse(segs[i]) == Some(r.value[i])
  {
    var out: seq<Ip> := [];
    for i := 0 to |segs|
      invariant |out| == i && forall j :: 0 <= j < i ==> parse(segs[j]) == Some(out[j])
    {
      if parse(segs[i]).None? {
        assert segs[i] in segs;
        return None;
      }
      out := out + [parse(segs[i]).value];
    }
    return Some(out);
  }

  /** When the encoder gets through, for links present under the given indices. */
  predicate Encodable(parse: Parser, links: map<string, nat>, s: LocalSid) {
    && s.action in CODES && IsV6(parse, Cut(s.sid))
    && (s.nh4 != "" ==> IsV4(parse, s.nh4))
    && (s.nh6 != "" ==> parse(s.nh6).Some?)
    && (s.oif != "" ==> s.oif in links) && (s.iif != "" ==> s.iif in links)
    && (forall seg :: seg in s.segments ==> parse(seg).Some?)
  }

  /** A flag is set for a field exactly when the field is filled. */
  predicate FlagsFit(s: LocalSid, flags: set<Flag>) {
    && FAction in flags
    && (FTable in flags <==> s.table > 0) && (FVrfTable in flags <==> s.vrfTable > 0)
    && (FNh4 in flags <==> s.nh4 != "") && (FNh6 in flags <==> s.nh6 != "")
    && (FOif in flags <==> s.oif != "") && (FIif in flags <==> s.iif != "")
    && (FSrh in flags <==> |s.segments| > 0)
  }

  ghost predicate HopsFit(parse: Parser, s: LocalSid, e: Encap) {
    (s.nh4 != "" ==> e.nh4 == parse(s.nh4)) && (s.nh6 != "" ==> e.nh6 == parse(s.nh6))
  }

  method EncodeHops(parse: Parser, s: LocalSid, e0: Encap) returns (e: Encap, err: Option<Error>)
    ensures err.None? <==> (s.nh4 != "" ==> IsV4(parse, s.nh4)) && (s.nh6 != "" ==> parse(s.nh6).Some?)
    ensures err.None? ==> HopsFit(parse, s, e) && e == e0.(nh4 := e.nh4, nh6 := e.nh6, flags := e.flags)
    ensures err.None? ==> forall f :: f in e.flags <==> f in e0.flags || (f.FNh4? && s.nh4 != "") || (f.FNh6? && s.nh6 != "")
  {
    e := e0;
    if s.nh4 != "" {
      if !IsV4(parse, s.nh4) { return e, Some(BadNh4); }
      e := e.(nh4 := parse(s.nh4), flags := e.flags + {FNh4});
    }
    if s.nh6 != "" {
      if parse(s.nh6).None? { return e, Some(BadNh6); }
      e := e.(nh6 := parse(s.nh6), flags := e.flags + {FNh6});
    }
    err := None;
  }

  ghost predicate LinksFit(links: map<string, nat>, s: LocalSid, e: Encap) {
    && (s.oif != "" ==> s.oif in links && e.oif == Some(links[s.oif]))
    && (s.iif != "" ==> s.iif in links && e.iif == Some(links[s.iif]))
  }

  method EncodeLinks(links: map<string, nat>, s: LocalSid, e0: Encap) returns (e: Encap, err: Option<Error>)
    ensures err.None? <==> (s.oif != "" ==> s.oif in links) && (s.iif != "" ==> s.iif in links)
    ensures err.None? ==> LinksFit(links, s, e) && e == e0.(oif := e.oif, iif := e.iif, flags := e.flags)
    ensures err.None? ==> forall f :: f in e.flags <==> f in e0.flags || (f.FOif? && s.oif != "") || (f.FIif? && s.iif != "")
  {
    e := e0;
    if s.oif != "" {
      if s.oif !in links { return e, Some(NoOif); }
      e := e.(oif := Some(links[s.oif]), flags := e.flags + {FOif});
    }
    if s.iif != "" {
      if s.iif !in links { return e, Some(NoIif); }
      e := e.(iif := Some(links[s.iif]), flags := e.flags + {FIif});
    }
    err := None;
  }

  ghost predicate SegmentsFit(parse: Parser, s: LocalSid, e: Encap) {
    |e.segments| == |s.segments| && forall i :: 0 <= i < |s.segments| ==> parse(s.segments[i]) == Some(e.segments[i])
  }

  method EncodeTables(s: LocalSid, code: Action) returns (e: Encap)
    ensures e == Encap(e.flags, code, if s.table > 0 then s.table else 0, if s.vrfTable > 0 then s.vrfTable else 0,
                       None, None, None, None, [])
    ensures forall f :: f in e.flags <==> f.FAction? || (f.FTable? && s.table > 0) || (f.FVrfTable? && s.vrfTable > 0)
  {
    e := Encap({FAction}, code, 0, 0, None, None, None, None, []);
    if s.table > 0 { e := e.(table := s.table, flags := e.flags + {FTable}); }
    if s.vrfTable > 0 { e := e.(vrfTable := s.vrfTable, flags := e.flags + {FVrfTable}); }
  }

  /** The field-by-field part, once the action code is known. */
  method EncodeFields(parse: Parser, links: map<string, nat>, s: LocalSid, code: Action) returns (e: Encap, err: Option<Error>)
    ensures err.None? <==>
              && (s.nh4 != "" ==> IsV4(parse, s.nh4)) && (s.nh6 != "" ==> parse(s.nh6).Some?)
              && (s.oif != "" ==> s.oif in links) && (s.iif != "" ==> s.iif in links)
              && (forall seg :: seg in s.segments ==> parse(seg).Some?)
    ensures err.None? ==>
              && e.action == code && FlagsFit(s, e.flags)
              && (s.table > 0 ==> e.table == s.table) && (s.vrfTable > 0 ==> e.vrfTable == s.vrfTable)
              && HopsFit(parse, s, e) && LinksFit(links, s, e) && SegmentsFit(parse, s, e)
  {
    e := EncodeTables(s, code);
    e, err := EncodeHops(parse, s, e);
    if err.Some? { return; }
    e, err := EncodeLinks(links, s, e);
    if err.Some? { return; }
    var segs := ParseSegments(parse, s.segments);
    if segs.None? { return e, Some(BadSegment); }
    if |s.segments| > 0 { e := e.(segments := segs.value, flags := e.flags + {FSrh}); }
    assert FlagsFit(s, e.flags);
  }

  /** The encoder succeeds exactly on encodable identifiers and carries every field. */
  method Encode(parse: Parser, links: map<string, nat>, s: LocalSid) returns (r: Result)
    ensures r.Route? <==> Encodable(parse, links, s)
    ensures r.Route? ==>
              && Some(r.dst) == parse(Cut(s.sid)) && r.encap.action == CODES[s.action] && FlagsFit(s, r.encap.flags)
              && (s.table > 0 ==> r.encap.table == s.table) && (s.vrfTable > 0 ==> r.encap.vrfTable == s.vrfTable)
              && HopsFit(parse, s, r.encap) && LinksFit(links, s, r.encap) && SegmentsFit(parse, s, r.encap)
  {
    if s.action !in CODES { return Failed(UnknownAction); }
    if !IsV6(parse, Cut(s.sid)) { return Failed(BadSid); }
    var e, err := EncodeFields(parse, links, s, CODES[s.action]);
    if err.Some? { return Failed(err.value); }
    return Route(parse(Cut(s.sid)).value, e);
  }

  // ----- Agreement -----

  function FlagOf(f: Field): Flag {
    match f
    case Table => FTable
    case VrfTable => FVrfTable
    case Nh4 => FNh4
    case Nh6 => FNh6
    case Oif => FOif
    case Segments => FSrh
  }

  lemma SameActions()
    ensures ACTIONS.Keys == CODES.Keys
  {
  }

  /** Every identifier validation accepts is encodable once its links exist, and the
      encoding carries every flag its behaviour needs; the empty string must not parse. */
  lemma ValidEncodes(parse: Parser, links: map<string, nat>, s: LocalSid, flags: set<Flag>)
    requires Valid(parse, s) && parse("").None?
    requires (s.oif != "" ==> s.oif in links) && (s.iif != "" ==> s.iif in links)
    ensures Encodable(parse, links, s)
    ensures FlagsFit(s, flags) ==> forall f :: f in ACTIONS[s.action] ==> FlagOf(f) in flags
  {
  }

  /** An IPv4 next hop where an IPv6 one belongs. */
  const MIXED := LocalSid("::1", "End.X", 0, 0, "", "10.0.0.1", "", "", [])

  /** The encoder alone is more permissive: it takes this identifier, validation does not. */
  lemma EncoderIsWeaker(parse: Parser, links: map<string, nat>)
    requires IsV6(parse, "::1") && IsV4(parse, "10.0.0.1")
    ensures Encodable(parse, links, MIXED) && !Valid(parse, MIXED)
  {
    assert Cut(":1") == ":1" by {
      assert ":1"[1..] == "1" && "1"[1..] == "";
      assert Cut("1") == "1";
    }
    assert "::1"[1..] == ":1";
    assert Cut("::1") == "::1";
  }

  /** The names of the behaviours. */
  function NameOf(a: Action): string {
    match a
    case End => "End"
    case EndX => "End.X"
    case EndT => "End.T"
    case EndDX2 => "End.DX2"
    case EndDX4 => "End.DX4"
    case EndDX6 => "End.DX6"
    case EndDT4 => "End.DT4"
    case EndDT6 => "End.DT6"
    case EndDT46 => "End.DT46"
    case EndB6 => "End.B6"
    case EndB6Encaps => "End.B6.Encaps"
  }

  /** The encoder's table names every behaviour and no other. */
  lemma CodesByName(name: string, a: Action)
    ensures name in CODES && CODES[name] == a <==> name == NameOf(a)
  {
  }

  /** What a behaviour needs is there in every accepted identifier: an IPv6 next hop to
      cross-connect, an IPv4 one for IPv4, a table for a table lookup, a VRF table where
      IPv4 is decapsulated, an interface at layer 2, segments for a policy. */
  lemma NeedsByBehaviour(parse: Parser, s: LocalSid)
    requires Valid(parse, s)
    ensures s.action in CODES
    ensures match CODES[s.action]
            case End => true
            case EndX => IsV6(parse, s.nh6)
            case EndDX6 => IsV6(parse, s.nh6)
            case EndDX4 => IsV4(parse, s.nh4)
            case EndT => s.table > 0
            case EndDT6 => s.table > 0
            case EndDT4 => s.vrfTable > 0
            case EndDT46 => s.vrfTable > 0
            case EndDX2 => s.oif != ""
            case EndB6 => |s.segments| > 0
            case EndB6Encaps => |s.segments| > 0
  {
    SameActions();
    CodesByName(s.action, CODES[s.action]);
    FieldsByBehaviour(CODES[s.action]);
    if ACTIONS[s.action] != [] {
      assert ACTIONS[s.action][0] in ACTIONS[s.action];
      assert Provides(parse, s, ACTIONS[s.action][0]);
    }
  }

  lemma FieldsByBehaviour(a: Action)
    ensures NameOf(a) in ACTIONS
    ensures ACTIONS[NameOf(a)] ==
            match a
            case End => []
            case EndX => [Nh6]
            case EndDX6 => [Nh6]
            case EndDX4 => [Nh4]
            case EndT => [Table]
            case EndDT6 => [Table]
            case EndDT4 => [VrfTable]
            case EndDT46 => [VrfTable]
            case EndDX2 => [Oif]
            case EndB6 => [Segments]
            case EndB6Encaps => [Segments]
  {
  }

  /** The prefix length of an identifier is cut off. */
  lemma {:induction false} CutAtSlash(a: string, b: string)
    requires '/' !in a
    ensures Cut(a) == a && Cut(a + "/" + b) == a
  {
    if a == "" {
      assert (a + "/" + b)[0] == '/';
    } else {
      assert a[0] in a && a[0] != '/';
      CutAtSlash(a[1..], b);
      assert (a + "/" + b)[1..] == a[1..] + "/" + b;
    }
  }
}
