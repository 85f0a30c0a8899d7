/** The DHCPv4 lease clock (netlink/dhcp_daemon.go, netlink/purego/dhcp4_client.go).
    Times and durations are nanoseconds, as in the source; time 0 is its zero time. */
module DhcpLease {
  import opened Collections

  const SECOND := 1_000_000_000
  const MINUTE := 60 * SECOND
  const HOUR := 60 * MINUTE

  /** The renewal ticker's period. */
  const TICK := MINUTE
  const LAST_CALL := 5 * MINUTE

  /** A server's answer: a lease of some length, or none. */
  datatype Answer = Granted(leaseTime: int) | Refused

  datatype LeaseState = LeaseState(v4: bool, v6: bool, obtained: int, renewAt: int, expireAt: int)

  // ----- The state changes as functions -----

  /** An IPv4 lease obtained now: due at half its time. */
  function Fresh(now: int, leaseTime: int): LeaseState {
    LeaseState(true, false, now, now + leaseTime / 2, now + leaseTime)
  }

  /** A lease as first requested; nothing is recorded when no family got one. */
  function Requested(now: int, v4: Option<Answer>, v6: bool): Option<LeaseState> {
    if v4.Some? && v4.value.Granted? then
      var t := v4.value.leaseTime;
      Some(Fresh(now, if t > 0 then t else 24 * HOUR).(v6 := v6))
    else if v6 then Some(LeaseState(false, true, now, 0, 0))
    else None
  }

  predicate Due(s: LeaseState, now: int) {
    s.v4 && now > s.renewAt
  }

  predicate LastCall(s: LeaseState, now: int) {
    now > s.expireAt - LAST_CALL
  }

  /** The length of the lease a tick obtains, if any. */
  function Obtained(s: LeaseState, now: int, renew: Answer, request: Answer): Option<int> {
    if !Due(s, now) then None
    else if renew.Granted? then Some(renew.leaseTime)
    else if LastCall(s, now) && request.Granted? then Some(request.leaseTime)
    else None
  }

  /** One tick: a granted lease of zero length moves the start but not the timers. */
  function Ticked(s: LeaseState, now: int, renew: Answer, request: Answer): LeaseState {
    match Obtained(s, now, renew, request)
    case None => s
    case Some(t) =>
      if t > 0 then Fresh(now, t).(v6 := s.v6) else s.(obtained := now)
  }

  predicate InOrder(s: LeaseState) {
    s.v4 ==> s.obtained <= s.renewAt <= s.expireAt
  }

  type Leases = map<string, LeaseState>

  /** What happens to the daemon; the answers of servers are part of it. */
  datatype Op =
    | Request(iface: string, now: int, v4: Option<Answer>, v6: bool)
    | Release(iface: string)
    | Check(now: int, renew: string -> Answer, request: string -> Answer)
    | Load(now: int, files: seq<(string, LeaseState)>)

  function After(leases: Leases, op: Op): Leases {
    match op
    case Request(iface, now, v4, v6) =>
      var s := Requested(now, v4, v6);
      if s.Some? then leases[iface := s.value] else leases
    case Release(iface) => leases - {iface}
    case Check(now, renew, request) => map i | i in leases :: Ticked(leases[i], now, renew(i), request(i))
    case Load(now, files) => Adopted(leases, now, files)
  }

  class Daemon {
    var leases: Leases

    constructor ()
      ensures leases == map[]
    {
      leases := map[];
    }

    method RequestLease(iface: string, now: int, v4: Option<Answer>, v6: bool)
      modifies this
      ensures leases == After(old(leases), Request(iface, now, v4, v6))
      ensures forall i :: i != iface ==> (i in leases <==> i in old(leases)) && (i in leases ==> leases[i] == old(leases)[i])
      ensures v4.Some? && v4.value.Granted? && v4.value.leaseTime > 0 ==>
                iface in leases &&
                leases[iface] == LeaseState(true, v6, now, now + v4.value.leaseTime / 2, now + v4.value.leaseTime)
      ensures v4.Some? && v4.value.Granted? && v4.value.leaseTime <= 0 ==>
                iface in leases &&
                leases[iface] == LeaseState(true, v6, now, now + 43_200_000_000_000, now + 86_400_000_000_000)
      ensures !(v4.Some? && v4.value.Granted?) && v6 ==> iface in leases && leases[iface] == LeaseState(false, true, now, 0, 0)
      ensures !(v4.Some? && v4.value.Granted?) && !v6 ==> leases == old(leases)
    {
      var s := LeaseState(false, false, now, 0, 0);
      if v4.Some? && v4.value.Granted? {
        s := s.(v4 := true);
        if v4.value.leaseTime > 0 {
          s := s.(renewAt := now + v4.value.leaseTime / 2, expireAt := now + v4.value.leaseTime);
        } else {
          s := s.(renewAt := now + 12 * HOUR, expireAt := now + 24 * HOUR);
        }
      }
      if v6 {
        s := s.(v6 := true);
      }
      if s.v4 || s.v6 {
        leases := leases[iface := s];
      }
    }

    method ReleaseLease(iface: string)
      modifies this
      ensures leases == After(old(leases), Release(iface))
      ensures iface !in leases
      ensures forall i :: i != iface ==> (i in leases <==> i in old(leases)) && (i in leases ==> leases[i] == old(leases)[i])
    {
      leases := leases - {iface};
    }

    /** The renewal pass over all leases, in an arbitrary order. */
    method CheckRenewals(now: int, renew: string -> Answer, request: string -> Answer)
      modifies this
      ensures leases == After(old(leases), Check(now, renew, request))
    {
      ghost var before := leases;
      var rest := leases.Keys;
      while rest != {}
        invariant rest <= before.Keys == leases.Keys
        invariant forall i :: i in before ==>
                    leases[i] == if i in rest then before[i] else Ticked(before[i], now, renew(i), request(i))
      {
        var i :| i in rest;
        rest := rest - {i};
        var s := leases[i];
        if s.v4 && now > s.renewAt {
          var got := renew(i);
          if got.Refused? && now > s.expireAt - LAST_CALL {
            got := request(i);
          }
          if got.Granted? {
            s := s.(obtained := now);
            if got.leaseTime > 0 {
              s := s.(renewAt := now + got.leaseTime / 2, expireAt := now + got.leaseTime);
            }
            assert s == Ticked(before[i], now, renew(i), request(i));
            leases := leases[i := s];
          }
        }
      }
    }

    /** Start-up: leases that have run out are dropped, the others adopted. */
    method LoadLeases(now: int, files: seq<(string, LeaseState)>)
      modifies this
      ensures leases == After(old(leases), Load(now, files))
    {
      for k := 0 to |files|
        invariant leases == Adopted(old(leases), now, files[..k])
      {
        var (iface, s) := files[k];
        assert files[..k + 1][..k] == files[..k];
        if !(now > s.expireAt) {
          leases := leases[iface := s];
        }
      }
      assert files[..|files|] == files;
    }
  }

  // ----- Start-up -----

  function Adopted(leases: Leases, now: int, files: seq<(string, LeaseState)>): Leases {
    if files == [] then leases
    else
      var before, (iface, s) := Adopted(leases, now, files[..|files| - 1]), files[|files| - 1];
      if now > s.expireAt then before else before[iface := s]
  }

  /** The file holds a lease of the interface that has not run out. */
  predicate Current(f: (string, LeaseState), iface: string, now: int) {
    f.0 == iface && f.1.expireAt >= now
  }

  /** An interface gets the last of its leases that have not run out. */
  lemma {:induction false} LastCurrentAdopted(leases: Leases, now: int, files: seq<(string, LeaseState)>,
                                              iface: string, k: nat)
    requires k < |files| && Current(files[k], iface, now)
    requires forall j :: k < j < |files| ==> !Current(files[j], iface, now)
    ensures iface in Adopted(leases, now, files) && Adopted(leases, now, files)[iface] == files[k].1
  {
    if k < |files| - 1 {
      LastCurrentAdopted(leases, now, files[..|files| - 1], iface, k);
    }
  }

  /** An interface without such a file keeps what it had; so a start-up adopts no lease
      that has run out. */
  lemma {:induction false} OthersKept(leases: Leases, now: int, files: seq<(string, LeaseState)>, iface: string)
    requires forall j :: 0 <= j < |files| ==> !Current(files[j], iface, now)
    ensures iface in Adopted(leases, now, files) <==> iface in leases
    ensures iface in leases ==> Adopted(leases, now, files)[iface] == leases[iface]
  {
    if files != [] {
      assert !Current(files[|files| - 1], iface, now);
      OthersKept(leases, now, files[..|files| - 1], iface);
    }
  }

  // ----- Order of the three times -----

  /** A tick keeps the order exactly when it does not obtain a lease without length. */
  lemma TickOrder(s: LeaseState, now: int, renew: Answer, request: Answer)
    requires InOrder(s)
    ensures InOrder(Ticked(s, now, renew, request)) <==>
            !(Obtained(s, now, renew, request).Some? && Obtained(s, now, renew, request).value <= 0)
  {
  }

  /** One tick, case by case, in nanoseconds: nothing before the renewal time; a granted
      renewal sets the timers to half and all of its length, one without length only the
      start; a refused one leads to a new request in the last five minutes. */
  lemma TickCases(s: LeaseState, now: int, renew: Answer, request: Answer)
    ensures var r := Ticked(s, now, renew, request);
            && (!s.v4 || now <= s.renewAt ==> r == s)
            && (s.v4 && now > s.renewAt ==>
                  var got := if renew.Granted? then renew
                             else if now > s.expireAt - 300_000_000_000 then request else Refused;
                  match got
                  case Refused => r == s
                  case Granted(t) =>
                    if t > 0 then r == LeaseState(true, s.v6, now, now + t / 2, now + t)
                    else r == s.(obtained := now))
  {
  }

  /** For instance, a two-hour lease renewed after an hour with one of no length. */
  lemma ZeroLengthBreaksOrder()
    ensures InOrder(Fresh(0, 2 * HOUR)) && !InOrder(Ticked(Fresh(0, 2 * HOUR), HOUR + 1, Granted(0), Refused))
  {
  }

  ghost predicate AllInOrder(leases: Leases) {
    forall i :: i in leases ==> InOrder(leases[i])
  }

  /** No tick of the pass obtains a lease without length. */
  ghost predicate Harmless(leases: Leases, op: Op) {
    op.Check? ==> forall i :: i in leases ==> !ObtainsNothing(leases[i], op.now, op.renew(i), op.request(i))
  }

  predicate ObtainsNothing(s: LeaseState, now: int, renew: Answer, request: Answer) {
    Obtained(s, now, renew, request).Some? && Obtained(s, now, renew, request).value <= 0
  }

  /** Lease files hold leases that are in order, as the daemon wrote them. */
  ghost predicate FilesOk(op: Op) {
    op.Load? ==> forall f :: f in op.files ==> InOrder(f.1)
  }

  lemma {:induction false} AdoptedInOrder(leases: Leases, now: int, files: seq<(string, LeaseState)>)
    requires AllInOrder(leases) && forall f :: f in files ==> InOrder(f.1)
    ensures AllInOrder(Adopted(leases, now, files))
  {
    if files != [] {
      assert files[|files| - 1] in files;
      AdoptedInOrder(leases, now, files[..|files| - 1]);
    }
  }

  lemma OpOrder(leases: Leases, op: Op)
    requires AllInOrder(leases) && FilesOk(op)
    ensures AllInOrder(After(leases, op)) <==> Harmless(leases, op)
  {
    match op
    case Check(now, renew, request) =>
      forall i | i in leases
        ensures InOrder(After(leases, op)[i]) <==> !ObtainsNothing(leases[i], now, renew(i), request(i))
      {
        TickOrder(leases[i], now, renew(i), request(i));
      }
    case Load(now, files) => AdoptedInOrder(leases, now, files);
    case _ =>
  }

  /** The leases after the first `n` operations on a new daemon. */
  function Held(ops: seq<Op>, n: nat): Leases
    requires n <= |ops|
  {
    if n == 0 then map[] else After(Held(ops, n - 1), ops[n - 1])
  }

  ghost predicate OrderedAt(ops: seq<Op>, k: nat)
    requires k <= |ops|
  {
    AllInOrder(Held(ops, k))
  }

  ghost predicate HarmlessAt(ops: seq<Op>, k: nat)
    requires k < |ops|
  {
    Harmless(Held(ops, k), ops[k])
  }

  ghost predicate OrderedTo(ops: seq<Op>, n: nat)
    requires n <= |ops|
  {
    forall k :: 0 <= k <= n ==> OrderedAt(ops, k)
  }

  ghost predicate HarmlessTo(ops: seq<Op>, n: nat)
    requires n <= |ops|
  {
    forall k :: 0 <= k < n ==> HarmlessAt(ops, k)
  }

  lemma LastOp(ops: seq<Op>, n: nat)
    requires 0 < n <= |ops|
    ensures OrderedTo(ops, n) <==> OrderedTo(ops, n - 1) && OrderedAt(ops, n)
    ensures HarmlessTo(ops, n) <==> HarmlessTo(ops, n - 1) && HarmlessAt(ops, n - 1)
  {
  }

  lemma OpAt(ops: seq<Op>, k: nat)
    requires k < |ops| && FilesOk(ops[k]) && OrderedAt(ops, k)
    ensures OrderedAt(ops, k + 1) <==> HarmlessAt(ops, k)
  {
    OpOrder(Held(ops, k), ops[k]);
  }

  /** Over every run of requests, releases, renewal passes and start-ups from an empty
      daemon, every lease is in order in every state exactly when no tick ever obtained
      a lease without length. */
  lemma {:induction false} RunOrder(ops: seq<Op>, n: nat)
    requires n <= |ops| && forall k :: 0 <= k < n ==> FilesOk(ops[k])
    ensures OrderedTo(ops, n) <==> HarmlessTo(ops, n)
  {
    if n > 0 {
      RunOrder(ops, n - 1);
      LastOp(ops, n);
      if OrderedTo(ops, n - 1) {
        assert OrderedAt(ops, n - 1);
        OpAt(ops, n - 1);
      }
    }
  }

  datatype Tick = Tick(now: int, renew: Answer, request: Answer)

  function RunTicks(s: LeaseState, ticks: seq<Tick>): LeaseState {
    if ticks == [] then s else
      var t := ticks[|ticks| - 1];
      Ticked(RunTicks(s, ticks[..|ticks| - 1]), t.now, t.renew, t.request)
  }

  predicate Positive(a: Answer) {
    a.Granted? ==> a.leaseTime > 0
  }

  predicate NoLength(a: Answer) {
    a.Granted? ==> a.leaseTime <= 0
  }

  /** And it does not recover by itself: once renewed without length, and as long as the
      answers have none, the timers never move, every tick renews again, and the lease
      stays out of order. */
  lemma {:induction false} StaysDue(s: LeaseState, ticks: seq<Tick>)
    requires s.v4 && s.obtained > s.renewAt
    requires forall t :: t in ticks ==> t.now > s.renewAt && NoLength(t.renew) && NoLength(t.request)
    ensures var r := RunTicks(s, ticks);
            && r.v4 && r.renewAt == s.renewAt && r.expireAt == s.expireAt && r.obtained > r.renewAt && !InOrder(r)
            && forall t :: t in ticks ==> Due(r, t.now)
  {
    if ticks != [] {
      var n := |ticks| - 1;
      assert ticks[n] in ticks;
      StaysDue(s, ticks[..n]);
    }
  }

  // ----- Renewal happens in time -----

  /** From `from` on, ticks come at most one period apart until `to`. */
  predicate Covers(ts: seq<int>, from: int, to: int) {
    from < to ==> ts != [] && from < ts[0] <= from + TICK && Covers(ts[1..], ts[0], to)
  }

  /** Whether some tick inside the lease finds it due, the lease being untouched until then. */
  predicate Attempted(s: LeaseState, ts: seq<int>) {
    ts != [] && ((Due(s, ts[0]) && ts[0] < s.expireAt) || (!Due(s, ts[0]) && Attempted(s, ts[1..])))
  }

  lemma {:induction false} AttemptFrom(s: LeaseState, ts: seq<int>, from: int)
    requires s.v4 && from <= s.renewAt && s.renewAt + TICK < s.expireAt && Covers(ts, from, s.expireAt)
    ensures Attempted(s, ts)
  {
    if !Due(s, ts[0]) {
      AttemptFrom(s, ts[1..], ts[0]);
    }
  }

  /** A lease of more than two periods is due for renewal at a tick strictly before it
      expires, whatever the phase of the ticker; and for no shorter one is that so. */
  lemma RenewalInTime(now: int, leaseTime: int)
    requires leaseTime > 0
    ensures (forall ts :: Covers(ts, now, now + leaseTime) ==> Attempted(Fresh(now, leaseTime), ts)) <==>
            leaseTime > 120_000_000_000
  {
    var s := Fresh(now, leaseTime);
    if leaseTime > 2 * TICK {
      forall ts | Covers(ts, now, now + leaseTime)
        ensures Attempted(s, ts)
      {
        AttemptFrom(s, ts, now);
      }
    } else {
      MissingSchedule(now, leaseTime);
    }
  }

  /** The ticker fires when the lease becomes due, not after it, and next at its end. */
  lemma MissingSchedule(now: int, leaseTime: int)
    requires 0 < leaseTime <= 2 * TICK
    ensures exists ts :: Covers(ts, now, now + leaseTime) && !Attempted(Fresh(now, leaseTime), ts)
  {
    var s := Fresh(now, leaseTime);
    var ts := if s.renewAt > now then [s.renewAt, s.expireAt] else [s.expireAt];
    assert Covers([], s.expireAt, s.expireAt);
    if s.renewAt > now {
      assert ts[1..] == [s.expireAt] && ts[1..][1..] == [];
      assert Covers([s.expireAt], s.renewAt, s.expireAt);
      assert Covers(ts, now, s.expireAt);
      assert !Attempted(s, [s.expireAt]);
      assert !Attempted(s, ts);
    } else {
      assert ts[1..] == [];
      assert Covers(ts, now, s.expireAt) && !Attempted(s, ts);
    }
  }

  // ----- The last five minutes -----

  /** Ticks strictly between two instants. */
  function Count(ts: seq<int>, lo: int, hi: int): nat {
    if ts == [] then 0 else (if lo < ts[0] < hi then 1 else 0) + Count(ts[1..], lo, hi)
  }

  function Max(a: int, b: int): int {
    if a >= b then a else b
  }

  /** Ticks one period apart cannot leave much of a window empty. */
  lemma {:induction false} CountBound(ts: seq<int>, from: int, lo: int, hi: int)
    requires Covers(ts, from, hi)
    ensures (Count(ts, lo, hi) + 1) * TICK >= hi - Max(lo, from)
  {
    if from < hi {
      CountBound(ts[1..], ts[0], lo, hi);
    }
  }

  /** New requests sent before expiry while every answer is a refusal. */
  function Rerequests(s: LeaseState, ts: seq<int>): nat {
    if ts == [] then 0 else
      (if Due(s, ts[0]) && LastCall(s, ts[0]) && ts[0] < s.expireAt then 1 else 0) +
      Rerequests(Ticked(s, ts[0], Refused, Refused), ts[1..])
  }

  lemma {:induction false} RerequestsAreTicks(s: LeaseState, ts: seq<int>)
    requires s.v4 && s.renewAt <= s.expireAt - LAST_CALL
    ensures Rerequests(s, ts) == Count(ts, s.expireAt - LAST_CALL, s.expireAt)
  {
    if ts != [] {
      RerequestsAreTicks(s, ts[1..]);
    }
  }

  /** A lease of at least ten minutes whose renewals all fail is requested anew at least
      four times in its last five minutes. */
  lemma FourLastCalls(now: int, leaseTime: int, ts: seq<int>)
    requires leaseTime >= 600_000_000_000 && Covers(ts, now, now + leaseTime)
    ensures Rerequests(Fresh(now, leaseTime), ts) >= 4
  {
    var s := Fresh(now, leaseTime);
    RerequestsAreTicks(s, ts);
    CountBound(ts, now, s.expireAt - LAST_CALL, s.expireAt);
  }

  // ----- The fallback timers of the client, in 64-bit arithmetic -----

  const TWO63 := MAX_INT64 + 1
  const TWO64 := 2 * TWO63
  const MAX_UINT32 := 0xFFFF_FFFF

  function Wrap64(x: int): (r: int)
    ensures -TWO63 <= r <= MAX_INT64
  {
    (x + TWO63) % TWO64 - TWO63
  }

  /** Division that truncates toward zero. */
  function Quo(a: int, b: int): int
    requires b > 0
  {
    if a >= 0 then a / b else -(-a / b)
  }

  datatype Timers = Timers(lease: int, t1: int, t2: int)

  /** The three times of an acknowledgement; an option that is absent is zero. */
  function ParseTimers(leaseOption: int, t1Option: int, t2Option: int): Timers {
    var lease := if leaseOption > 0 then leaseOption else 24 * HOUR;
    Timers(lease,
           if t1Option > 0 then t1Option else Quo(lease, 2),
           if t2Option > 0 then t2Option else Quo(Wrap64(lease * 7), 8))
  }

  /** The defaults of section 4.4.5 of RFC 2131 are ordered exactly while seven times the
      lease fits in 64 bits, for every length the 32-bit option can carry. */
  lemma FallbackOrder(seconds: nat)
    requires seconds <= MAX_UINT32
    ensures var t := ParseTimers(seconds * SECOND, 0, 0);
            && t.lease > 0
            && (0 <= t.t1 <= t.t2 <= t.lease <==> 7 * t.lease <= MAX_INT64)
  {
  }

  /** The values: options that are present are taken; the defaults are a day, half the lease,
      and seven eighths of it while that can be computed. */
  lemma TimerValues(leaseOption: int, t1Option: int, t2Option: int)
    ensures var t := ParseTimers(leaseOption, t1Option, t2Option);
            && t.lease == (if leaseOption > 0 then leaseOption else 86_400_000_000_000)
            && t.t1 == (if t1Option > 0 then t1Option else t.lease / 2)
            && (t2Option > 0 ==> t.t2 == t2Option)
            && (t2Option <= 0 && 7 * t.lease <= MAX_INT64 ==> 8 * t.t2 <= 7 * t.lease < 8 * t.t2 + 8)
  {
  }

  /** The infinite lease is one of the lengths that overflow: it gets a negative T2. */
  lemma InfiniteLeaseOverflows()
    ensures ParseTimers(MAX_UINT32 * SECOND, 0, 0).t2 < 0
  {
  }

  // ----- Which client gives which length -----

  /** An exchange of the built-in client: acknowledged with a lease option, zero if absent. */
  datatype Exchange = Acknowledged(leaseOption: int) | Failed

  /** An external client, whose lease is read off the interface, without a length. */
  datatype External = NoClient | ClientFailed | ClientRan

  function BuiltIn(e: Exchange): Answer {
    if e.Acknowledged? then Granted(ParseTimers(e.leaseOption, 0, 0).lease) else Refused
  }

  /** RequestDHCPv4: the built-in client, then the external one. */
  function RequestAnswer(exchange: Exchange, external: External): Answer {
    if exchange.Acknowledged? then BuiltIn(exchange) else if external.ClientRan? then Granted(0) else Refused
  }

  /** RenewDHCPv4: from the server of the lease if known, then a full request. */
  function RenewAnswer(server: bool, unicast: Exchange, exchange: Exchange, external: External): Answer {
    if server && unicast.Acknowledged? then BuiltIn(unicast) else RequestAnswer(exchange, external)
  }

  /** The built-in client gives positive lengths only; a renewal or new request that falls
      back to an external client, and only such a one, gives none.  A length the server
      names is the one that counts, and a renewal asks the server of the lease first. */
  lemma LengthsByClient(server: bool, unicast: Exchange, exchange: Exchange, external: External)
    ensures Positive(BuiltIn(exchange))
    ensures Positive(RequestAnswer(exchange, external)) <==> exchange.Acknowledged? || !external.ClientRan?
    ensures Positive(RenewAnswer(server, unicast, exchange, external)) <==>
            (server && unicast.Acknowledged?) || exchange.Acknowledged? || !external.ClientRan?
    ensures exchange.Acknowledged? && exchange.leaseOption > 0 ==> RequestAnswer(exchange, external) == Granted(exchange.leaseOption)
    ensures server && unicast.Acknowledged? && unicast.leaseOption > 0 ==>
              RenewAnswer(server, unicast, exchange, external) == Granted(unicast.leaseOption)
    ensures !(server && unicast.Acknowledged?) ==> RenewAnswer(server, unicast, exchange, external) == RequestAnswer(exchange, external)
  {
  }
}
