/** Routes as text (cmd/apply.go): the saved state keeps them rendered, and removals
    parse them back. */
module RouteText {
  import opened Collections
  import opened Decimal

  datatype Route = Route(to: string, via: string, table: int)

  /** White space as the standard library's field splitter sees it. */
  predicate IsSpace(c: char) {
    var n := c as int;
    || 9 <= n <= 13 || n == 32 || n == 0x85 || n == 0xA0 || n == 0x1680 || 0x2000 <= n <= 0x200A
    || n == 0x2028 || n == 0x2029 || n == 0x202F || n == 0x205F || n == 0x3000
  }

  predicate SpaceFree(s: string) {
    forall i :: 0 <= i < |s| ==> !IsSpace(s[i])
  }

  /** The length of the leading word. */
  function WordLen(s: string): (n: nat)
    ensures n <= |s| && SpaceFree(s[..n]) && (n < |s| ==> IsSpace(s[n]))
  {
    if s != [] && !IsSpace(s[0]) then
      var n := 1 + WordLen(s[1..]);
      assert s[..n] == [s[0]] + s[1..][..n - 1];
      n
    else 0
  }

  function Fields(s: string): seq<string>
    decreases |s|
  {
    if s == [] then []
    else if IsSpace(s[0]) then Fields(s[1..])
    else [s[..WordLen(s)]] + Fields(s[WordLen(s)..])
  }

  lemma FieldsWord(w: string, rest: string)
    requires w != [] && SpaceFree(w) && (rest == [] || IsSpace(rest[0]))
    ensures Fields(w + rest) == [w] + Fields(rest)
  {
    var s := w + rest;
    var n := WordLen(s);
    assert forall i :: 0 <= i < |w| ==> s[i] == w[i];
    assert rest != [] ==> s[|w|] == rest[0];
    assert n == |w|;
    assert s[..n] == w && s[n..] == rest;
  }

  lemma FieldsSpace(rest: string)
    ensures Fields(" " + rest) == Fields(rest)
  {
  }

  // ----- routesToStrings -----

  function Clause(word: string, arg: string): string {
    " " + word + " " + arg
  }

  function ViaText(r: Route): string {
    if r.via != "" then Clause("via", r.via) else ""
  }

  function TableText(r: Route): string {
    if r.table > 0 then Clause("table", Show(r.table)) else ""
  }

  function Print(r: Route): string {
    r.to + ViaText(r) + TableText(r)
  }

  function Tokens(r: Route): seq<string> {
    (if r.to != "" then [r.to] else []) + (if r.via != "" then ["via", r.via] else []) +
    (if r.table > 0 then ["table", Show(r.table)] else [])
  }

  lemma ClauseShape(word: string, arg: string, tail: string)
    ensures Clause(word, arg) + tail == " " + (word + (" " + (arg + tail)))
    ensures (Clause(word, arg) + tail)[0] == ' '
  {
  }

  lemma ClauseFields(word: string, arg: string, tail: string)
    requires word != "" && SpaceFree(word) && arg != "" && SpaceFree(arg) && (tail == "" || IsSpace(tail[0]))
    ensures Fields(Clause(word, arg) + tail) == [word, arg] + Fields(tail)
    ensures IsSpace((Clause(word, arg) + tail)[0])
  {
    ClauseShape(word, arg, tail);
    SpaceWord(arg, tail);
    SpaceWord(word, " " + (arg + tail));
  }

  lemma SpaceWord(w: string, rest: string)
    requires w != [] && SpaceFree(w) && (rest == [] || IsSpace(rest[0]))
    ensures Fields(" " + (w + rest)) == [w] + Fields(rest)
  {
    FieldsSpace(w + rest);
    FieldsWord(w, rest);
  }

  lemma TableFields(r: Route)
    ensures Fields(TableText(r)) == if r.table > 0 then ["table", Show(r.table)] else []
    ensures TableText(r) == "" || IsSpace(TableText(r)[0])
  {
    if r.table > 0 {
      ClauseFields("table", Show(r.table), "");
      assert TableText(r) + "" == TableText(r);
    }
  }

  lemma ViaFields(r: Route, tail: string)
    requires SpaceFree(r.via) && (tail == "" || IsSpace(tail[0]))
    ensures Fields(ViaText(r) + tail) == (if r.via != "" then ["via", r.via] else []) + Fields(tail)
    ensures ViaText(r) + tail == "" || IsSpace((ViaText(r) + tail)[0])
  {
    if r.via != "" {
      ClauseFields("via", r.via, tail);
    } else {
      assert ViaText(r) + tail == tail;
    }
  }

  lemma ToFields(to: string, tail: string)
    requires SpaceFree(to) && (tail == "" || IsSpace(tail[0]))
    ensures Fields(to + tail) == (if to != "" then [to] else []) + Fields(tail)
  {
    if to != "" {
      FieldsWord(to, tail);
    } else {
      assert to + tail == tail;
    }
  }

  lemma Assoc<T>(a: seq<T>, b: seq<T>, c: seq<T>)
    ensures (a + b) + c == a + (b + c)
  {
  }

  /** Splitting the text gives back its words. */
  lemma FieldsPrint(r: Route)
    requires SpaceFree(r.to) && SpaceFree(r.via)
    ensures Fields(Print(r)) == Tokens(r)
  {
    TableFields(r);
    ViaFields(r, TableText(r));
    ToFields(r.to, ViaText(r) + TableText(r));
    Assoc(r.to, ViaText(r), TableText(r));
    var to := if r.to != "" then [r.to] else [];
    var via := if r.via != "" then ["via", r.via] else [];
    Assoc(to, via, Fields(TableText(r)));
  }

  // ----- parseRouteString -----

  /** The gateway after `n` steps of the loop. */
  function GatewayOf(parts: seq<string>, n: nat): string
    requires n < |parts| || n == 0
  {
    if n == 0 then "" else if parts[n - 1] == "via" then parts[n] else GatewayOf(parts, n - 1)
  }

  function TableOf(parts: seq<string>, n: nat): int
    requires n < |parts| || n == 0
  {
    if n == 0 then 0
    else if parts[n - 1] == "table" && ScanInt(parts[n]).Some? then ScanInt(parts[n]).value
    else TableOf(parts, n - 1)
  }

  function ParseTokens(parts: seq<string>): Route {
    if parts == [] then Route("", "", 0)
    else Route(parts[0], GatewayOf(parts, |parts| - 1), TableOf(parts, |parts| - 1))
  }

  predicate IsGateway(parts: seq<string>, i: nat) {
    i + 1 < |parts| && parts[i] == "via"
  }

  predicate IsTable(parts: seq<string>, i: nat) {
    i + 1 < |parts| && parts[i] == "table" && ScanInt(parts[i + 1]).Some?
  }

  lemma {:induction false} LastUpTo(parts: seq<string>, n: nat, i: int)
    requires -1 <= i < n < |parts| || (n == 0 && i == -1)
    ensures (i >= 0 ==> IsGateway(parts, i)) && (forall j :: i < j < n ==> !IsGateway(parts, j)) ==>
              GatewayOf(parts, n) == if i >= 0 then parts[i + 1] else ""
    ensures (i >= 0 ==> IsTable(parts, i)) && (forall j :: i < j < n ==> !IsTable(parts, j)) ==>
              TableOf(parts, n) == if i >= 0 then ScanInt(parts[i + 1]).value else 0
  {
    if i < n - 1 {
      LastUpTo(parts, n - 1, i);
      assert IsGateway(parts, n - 1) <==> parts[n - 1] == "via";
      assert IsTable(parts, n - 1) <==> parts[n - 1] == "table" && ScanInt(parts[n]).Some?;
    }
  }

  /** The gateway is the word after the last "via" that has one, the table the number after
      the last "table" that has one; without such a word (`i` is -1) it is blank. */
  lemma LastClauseCounts(parts: seq<string>, i: int)
    requires -1 <= i < |parts|
    ensures (i >= 0 ==> IsGateway(parts, i)) && (forall j :: i < j < |parts| ==> !IsGateway(parts, j)) ==>
              ParseTokens(parts).via == if i >= 0 then parts[i + 1] else ""
    ensures (i >= 0 ==> IsTable(parts, i)) && (forall j :: i < j < |parts| ==> !IsTable(parts, j)) ==>
              ParseTokens(parts).table == if i >= 0 then ScanInt(parts[i + 1]).value else 0
  {
    if parts != [] && i < |parts| - 1 {
      LastUpTo(parts, |parts| - 1, i);
    }
  }

  /** What is written: the destination, the gateway after "via", the table after "table". */
  lemma WrittenAs(r: Route)
    ensures r.via != "" && r.table > 0 ==> Print(r) == r.to + " via " + r.via + " table " + Show(r.table)
    ensures r.via != "" && r.table <= 0 ==> Print(r) == r.to + " via " + r.via
    ensures r.via == "" && r.table > 0 ==> Print(r) == r.to + " table " + Show(r.table)
    ensures r.via == "" && r.table <= 0 ==> Print(r) == r.to
  {
    assert " " + "via" + " " == " via " && " " + "table" + " " == " table ";
    assert Clause("via", r.via) == " via " + r.via;
    if r.table > 0 {
      assert Clause("table", Show(r.table)) == " table " + Show(r.table);
      assert r.to + (" via " + r.via) + (" table " + Show(r.table)) == r.to + " via " + r.via + " table " + Show(r.table);
    }
  }

  method ParseRoute(s: string) returns (r: Route)
    ensures r == ParseTokens(Fields(s))
  {
    var parts := Fields(s);
    var dst, gw, table := "", "", 0;
    if |parts| > 0 {
      dst := parts[0];
    }
    var i := 0;
    while i < |parts| - 1
      invariant 0 <= i && (parts == [] ==> i == 0) && (parts != [] ==> i < |parts|)
      invariant gw == GatewayOf(parts, i) && table == TableOf(parts, i)
    {
      if parts[i] == "via" {
        gw := parts[i + 1];
      }
      if parts[i] == "table" && ScanInt(parts[i + 1]).Some? {
        table := ScanInt(parts[i + 1]).value;
      }
      i := i + 1;
    }
    r := Route(dst, gw, table);
  }

  /** The routes whose text means what they say.  The word "via" as a gateway, or as a
      destination without one, swallows the table clause that follows it. */
  predicate Faithful(r: Route) {
    && 0 <= r.table <= MAX_INT64
    && (r.to == "" ==> r.via == "" && r.table == 0)
    && !(r.table > 0 && (r.via == "via" || (r.to == "via" && r.via == "")))
  }

  lemma WordsAreNoNumbers()
    ensures ScanInt("via").None? && ScanInt("table").None?
  {
  }

  lemma NumbersAreNoWords(n: nat)
    ensures Show(n) != "via" && Show(n) != "table" && ScanInt(Show(n)) == if n <= MAX_INT64 then Some(n) else None
  {
    ScanShow(n);
    assert IsDigit(Show(n)[0]);
  }

  lemma GatewayUnfold(parts: seq<string>)
    requires 1 <= |parts| <= 5
    ensures GatewayOf(parts, |parts| - 1) ==
            if |parts| >= 5 && parts[3] == "via" then parts[4]
            else if |parts| >= 4 && parts[2] == "via" then parts[3]
            else if |parts| >= 3 && parts[1] == "via" then parts[2]
            else if |parts| >= 2 && parts[0] == "via" then parts[1]
            else ""
  {
    assert GatewayOf(parts, 0) == "";
    if |parts| >= 2 { assert GatewayOf(parts, 1) == if parts[0] == "via" then parts[1] else ""; }
    if |parts| >= 3 { assert GatewayOf(parts, 2) == if parts[1] == "via" then parts[2] else GatewayOf(parts, 1); }
    if |parts| >= 4 { assert GatewayOf(parts, 3) == if parts[2] == "via" then parts[3] else GatewayOf(parts, 2); }
  }

  /** The table clause is last, and no word before it reads as a number after "table". */
  lemma TableUnfold(r: Route)
    requires SpaceFree(r.to) && SpaceFree(r.via) && r.to != ""
    ensures TableOf(Tokens(r), |Tokens(r)| - 1) == if 0 < r.table <= MAX_INT64 then r.table else 0
  {
    WordsAreNoNumbers();
    var p := Tokens(r);
    assert TableOf(p, 0) == 0;
    if r.table > 0 {
      NumbersAreNoWords(r.table);
      assert p[|p| - 2] == "table" && p[|p| - 1] == Show(r.table);
      NoEarlierTable(r);
    } else if r.via != "" {
      assert p == [r.to, "via", r.via];
      assert TableOf(p, 1) == 0;
      assert TableOf(p, 2) == TableOf(p, 1);
    }
  }

  /** Before the table clause no word reads as a table. */
  lemma NoEarlierTable(r: Route)
    requires r.to != "" && r.table > 0
    ensures var p := Tokens(r); TableOf(p, |p| - 2) == 0
  {
    WordsAreNoNumbers();
    var p := Tokens(r);
    assert TableOf(p, 0) == 0;
    if r.via != "" {
      assert p[1] == "via" && p[3] == "table";
      assert TableOf(p, 1) == 0;
      assert TableOf(p, 2) == 0;
      assert TableOf(p, 3) == 0;
    } else {
      assert p[1] == "table";
      assert TableOf(p, 1) == 0;
    }
  }

  lemma GatewayTokens(r: Route)
    requires r.to != ""
    ensures var p := Tokens(r);
            GatewayOf(p, |p| - 1) == r.via <==> !(r.table > 0 && (r.via == "via" || (r.to == "via" && r.via == "")))
  {
    var p := Tokens(r);
    GatewayUnfold(p);
    if r.table > 0 {
      NumbersAreNoWords(r.table);
      if r.via != "" {
        assert p == [r.to, "via", r.via, "table", Show(r.table)];
      } else {
        assert p == [r.to, "table", Show(r.table)];
      }
    } else if r.via != "" {
      assert p == [r.to, "via", r.via];
    } else {
      assert p == [r.to];
    }
  }

  /** Printing and parsing gives the route back exactly when it is faithful. */
  lemma RouteRoundTrip(r: Route)
    requires SpaceFree(r.to) && SpaceFree(r.via)
    ensures ParseTokens(Fields(Print(r))) == r <==> Faithful(r)
  {
    FieldsPrint(r);
    var p := Tokens(r);
    if r.to != "" {
      TableUnfold(r);
      GatewayTokens(r);
    } else if p != [] {
      assert p[0] == "via" || p[0] == "table";
    }
  }

  lemma GatewayOfFive(p: seq<string>)
    requires |p| == 5 && p[3] == "table" && p[2] == "via"
    ensures GatewayOf(p, 4) == p[3]
  {
    assert GatewayOf(p, 3) == p[3];
  }

  /** The failing family by example: the keyword as a gateway comes back as the next word. */
  lemma ViaAsGateway(to: string, table: nat)
    requires SpaceFree(to) && to != "" && 0 < table <= MAX_INT64
    ensures ParseTokens(Fields(Print(Route(to, "via", table)))) == Route(to, "table", table)
  {
    var r := Route(to, "via", table);
    FieldsPrint(r);
    TableUnfold(r);
    var p := Tokens(r);
    assert p == [to, "via", "via", "table", Show(table)];
    GatewayOfFive(p);
  }

  predicate Renderable(r: Route) {
    SpaceFree(r.to) && SpaceFree(r.via) && Faithful(r)
  }

  /** So comparing rendered routes is comparing routes. */
  lemma PrintedDiff(a: set<Route>, b: set<Route>)
    requires forall r :: r in a || r in b ==> Renderable(r)
    ensures (set r | r in a :: Print(r)) - (set r | r in b :: Print(r)) == (set r | r in a - b :: Print(r))
  {
    forall r, q | r in a && q in b && Print(r) == Print(q)
      ensures r == q
    {
      RouteRoundTrip(r);
      RouteRoundTrip(q);
    }
  }
}
