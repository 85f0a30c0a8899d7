/** The daemon's responder manager (cmd/ndp.go) and its methods, each atomic under the lock. */
module NdpManager {
  /** A responder configuration; `rules` stands for the rule list and router flag. */
  datatype Responder = Responder(iface: string, rules: nat)

  datatype TapSpec = TapSpec(bridge: string, bdId: nat)

  /** What the daemon takes from a loaded configuration. */
  datatype DaemonConfig = DaemonConfig(responders: seq<Responder>, taps: map<string, TapSpec>)

  /** `running` maps an interface to its responder goroutine, `live` the goroutines that
      have not exited to what they serve; `allmulti` holds the interfaces whose last
      all-multicast request was "on". */
  datatype Core = Core(
    running: map<string, nat>,
    configs: map<string, Responder>,
    tapSpecs: map<string, TapSpec>,
    watching: bool,
    live: map<nat, Responder>,
    nextId: nat,
    allmulti: set<string>)

  const EMPTY := Core(map[], map[], map[], false, map[], 0, {})

  // ----- The locked sections as functions -----

  /** startLocked; `ok` is whether opening the packet socket succeeds. */
  function Started(m: Core, c: Responder, ok: bool): Core {
    if ok then
      m.(running := m.running[c.iface := m.nextId], live := m.live[m.nextId := c],
         nextId := m.nextId + 1, allmulti := m.allmulti + {c.iface})
    else
      m.(allmulti := m.allmulti - {c.iface})
  }

  function Cancelled(m: Core, iface: string): Core {
    if iface in m.running then m.(running := m.running - {iface}, live := m.live - {m.running[iface]}) else m
  }

  function Restarted(m: Core, iface: string, ok: bool): Core {
    var s := Cancelled(m, iface);
    if iface in s.configs then Started(s, s.configs[iface], ok) else s
  }

  ghost function Stopped(m: Core): Core {
    m.(running := map[], live := m.live - m.running.Values, allmulti := m.allmulti - m.running.Keys)
  }

  /** The list part of Reload: configure and start the responders one by one. */
  function StartedAll(m: Core, cs: seq<Responder>, oks: seq<bool>): Core
    requires |oks| == |cs|
  {
    if cs == [] then m else
      var before := StartedAll(m, cs[..|cs| - 1], oks[..|cs| - 1]);
      var c := cs[|cs| - 1];
      Started(before.(configs := before.configs[c.iface := c]), c, oks[|cs| - 1])
  }

  /** The second locked section of Reload. */
  function Reloaded(m: Core, cfg: DaemonConfig, oks: seq<bool>): Core
    requires |oks| == |cfg.responders|
  {
    StartedAll(m.(configs := map[]), cfg.responders, oks).(tapSpecs := cfg.taps)
  }

  function Watched(m: Core): Core {
    if m.watching || m.tapSpecs == map[] then m else m.(watching := true)
  }

  class Manager {
    var m: Core

    constructor ()
      ensures m == EMPTY
    {
      m := EMPTY;
    }

    method StartLocked(c: Responder, ok: bool)
      modifies this
      ensures m == Started(old(m), c, ok)
      ensures ok ==> c.iface in m.running && c.iface in m.allmulti && m.running[c.iface] in m.live &&
                     m.live[m.running[c.iface]] == c
      ensures !ok ==> m.running == old(m).running && m.live == old(m).live && c.iface !in m.allmulti
      ensures m.configs == old(m).configs && m.tapSpecs == old(m).tapSpecs && m.watching == old(m).watching
    {
      m := m.(allmulti := m.allmulti + {c.iface});
      if !ok {
        m := m.(allmulti := m.allmulti - {c.iface});
        assert m.allmulti == old(m).allmulti - {c.iface};
        return;
      }
      m := m.(running := m.running[c.iface := m.nextId], live := m.live[m.nextId := c], nextId := m.nextId + 1);
    }

    method Restart(iface: string, ok: bool)
      modifies this
      ensures m == Restarted(old(m), iface, ok)
    {
      if iface in m.running {
        m := m.(live := m.live - {m.running[iface]}, running := m.running - {iface});
      }
      if iface in m.configs {
        StartLocked(m.configs[iface], ok);
      }
    }

    method Stop()
      modifies this
      ensures m == Stopped(old(m))
      ensures m.running == map[] && (forall i :: i in old(m).running ==> i !in m.allmulti && old(m).running[i] !in m.live)
      ensures m.configs == old(m).configs && m.tapSpecs == old(m).tapSpecs && m.watching == old(m).watching
    {
      ghost var o := m;
      var rest := m.running.Keys;
      while rest != {}
        invariant rest == m.running.Keys <= o.running.Keys
        invariant m == o.(running := o.running - (o.running.Keys - rest),
                          live := o.live - (set i | i in o.running.Keys - rest :: o.running[i]),
                          allmulti := o.allmulti - (o.running.Keys - rest))
      {
        var iface :| iface in rest;
        ghost var done := o.running.Keys - rest;
        rest := rest - {iface};
        assert o.running.Keys - rest == done + {iface};
        assert m.running[iface] == o.running[iface];
        m := m.(live := m.live - {m.running[iface]}, allmulti := m.allmulti - {iface}, running := m.running - {iface});
        assert m.running == o.running - (done + {iface});
        assert m.live == o.live - (set i | i in done + {iface} :: o.running[i]);
        assert m.allmulti == o.allmulti - (done + {iface});
      }
      assert o.running.Keys - {} == o.running.Keys;
      assert m.running == map[];
      assert (set i | i in o.running.Keys :: o.running[i]) == o.running.Values;
    }

    method ReloadLocked(cfg: DaemonConfig, oks: seq<bool>)
      requires |oks| == |cfg.responders|
      modifies this
      ensures m == Reloaded(old(m), cfg, oks) && m.tapSpecs == cfg.taps
    {
      m := m.(configs := map[]);
      ghost var o := m;
      var cs := cfg.responders;
      for i := 0 to |cs|
        invariant m == StartedAll(o, cs[..i], oks[..i])
      {
        m := m.(configs := m.configs[cs[i].iface := cs[i]]);
        StartLocked(cs[i], oks[i]);
        assert cs[..i + 1][..i] == cs[..i] && oks[..i + 1][..i] == oks[..i];
      }
      assert cs[..|cs|] == cs && oks[..|cs|] == oks;
      m := m.(tapSpecs := cfg.taps);
    }

    method EnsureWatcher()
      modifies this
      ensures m == Watched(old(m))
      ensures m == old(m).(watching := old(m).watching || old(m).tapSpecs != map[])
    {
      if m.watching || m.tapSpecs == map[] {
        return;
      }
      m := m.(watching := true);
    }
  }

  // ----- The invariant of the manager -----

  /** A live goroutine is the running one of its interface and serves its latest configuration. */
  ghost predicate Current(m: Core, g: nat) {
    g in m.live ==>
      var i := m.live[g].iface;
      g < m.nextId && i in m.running && m.running[i] == g && i in m.configs && m.live[g] == m.configs[i]
  }

  /** Everything running is configured, all-multicast is requested exactly on running
      interfaces, and no goroutine is left behind or serves an old configuration. */
  ghost predicate Inv(m: Core) {
    && m.running.Keys <= m.configs.Keys
    && m.allmulti == m.running.Keys
    && (forall i :: i in m.running ==> m.running[i] < m.nextId)
    && (forall g :: Current(m, g))
    && (forall i :: i in m.configs ==> m.configs[i].iface == i)
  }

  lemma StoppedInv(m: Core)
    requires Inv(m)
    ensures Inv(Stopped(m)) && Stopped(m).live == map[]
  {
    forall g | g in m.live
      ensures g in m.running.Values
    {
      assert Current(m, g);
      assert m.running[m.live[g].iface] == g;
    }
    assert Stopped(m).live == map[];
  }

  lemma CancelledInv(m: Core, iface: string)
    requires Inv(m)
    ensures Inv(Cancelled(m, iface).(allmulti := m.allmulti - {iface}))
  {
    var s := Cancelled(m, iface).(allmulti := m.allmulti - {iface});
    forall g
      ensures Current(s, g)
    {
      assert Current(m, g);
    }
  }

  /** Starting what is configured and not yet running. */
  lemma StartedInv(m: Core, c: Responder, ok: bool)
    requires Inv(m) && c.iface !in m.running
    ensures Inv(Started(m.(configs := m.configs[c.iface := c]), c, ok))
  {
    var s := Started(m.(configs := m.configs[c.iface := c]), c, ok);
    forall g
      ensures Current(s, g)
    {
      assert Current(m, g);
    }
  }

  lemma RestartedInv(m: Core, iface: string, ok: bool)
    requires Inv(m)
    ensures Inv(Restarted(m, iface, ok))
  {
    CancelledInv(m, iface);
    var s := Cancelled(m, iface).(allmulti := m.allmulti - {iface});
    if iface in m.configs {
      var c := m.configs[iface];
      StartedInv(s, c, ok);
      assert s.configs[c.iface := c] == s.configs;
      assert s.allmulti + {iface} == m.allmulti + {iface} && s.allmulti - {iface} == m.allmulti - {iface};
      assert Restarted(m, iface, ok) == Started(s, c, ok);
    } else {
      assert m.allmulti - {iface} == m.allmulti;
    }
  }

  // ----- Reload -----

  predicate Named(cs: seq<Responder>, iface: string) {
    cs != [] && (cs[|cs| - 1].iface == iface || Named(cs[..|cs| - 1], iface))
  }

  predicate StartsOk(cs: seq<Responder>, oks: seq<bool>, iface: string)
    requires |oks| == |cs|
  {
    cs != [] && ((cs[|cs| - 1].iface == iface && oks[|cs| - 1]) ||
                 StartsOk(cs[..|cs| - 1], oks[..|cs| - 1], iface))
  }

  /** No interface is configured twice. */
  predicate Distinct(cs: seq<Responder>) {
    cs != [] ==> !Named(cs[..|cs| - 1], cs[|cs| - 1].iface) && Distinct(cs[..|cs| - 1])
  }

  /** What the list part of Reload does to one interface. */
  ghost predicate StartedAt(m: Core, s: Core, named: bool, ok: bool, i: string) {
    && (i in s.configs <==> i in m.configs || named)
    && (i in s.running <==> i in m.running || ok)
    && (i in m.running && !ok ==> s.running[i] == m.running[i])
    && (ok ==> m.nextId <= s.running[i] < s.nextId)
    && (i in s.allmulti <==> ok || (i in m.allmulti && !named))
    && (ok ==> named)
  }

  lemma {:induction false} StartedAllAt(m: Core, cs: seq<Responder>, oks: seq<bool>, i: string)
    requires |oks| == |cs| && Distinct(cs)
    ensures StartedAt(m, StartedAll(m, cs, oks), Named(cs, i), StartsOk(cs, oks, i), i)
    ensures m.nextId <= StartedAll(m, cs, oks).nextId
  {
    if cs != [] {
      StartedAllAt(m, cs[..|cs| - 1], oks[..|cs| - 1], i);
    }
  }

  /** Goroutines already live are not cancelled by it. */
  lemma {:induction false} StartedAllLive(m: Core, cs: seq<Responder>, oks: seq<bool>, g: nat)
    requires |oks| == |cs| && g in m.live && g < m.nextId
    ensures var s := StartedAll(m, cs, oks); g in s.live && s.live[g] == m.live[g] && m.nextId <= s.nextId
  {
    if cs != [] {
      StartedAllLive(m, cs[..|cs| - 1], oks[..|cs| - 1], g);
    }
  }

  lemma {:induction false} StartedAllInv(m: Core, cs: seq<Responder>, oks: seq<bool>)
    requires |oks| == |cs| && Distinct(cs) && Inv(m) && m.running == map[]
    ensures Inv(StartedAll(m, cs, oks))
  {
    if cs != [] {
      var n := |cs| - 1;
      StartedAllInv(m, cs[..n], oks[..n]);
      StartedAllAt(m, cs[..n], oks[..n], cs[n].iface);
      StartedInv(StartedAll(m, cs[..n], oks[..n]), cs[n], oks[n]);
    }
  }

  /** A reload whose two locked sections meet keeps the invariant. */
  lemma ReloadedInv(m: Core, cfg: DaemonConfig, oks: seq<bool>)
    requires |oks| == |cfg.responders| && Distinct(cfg.responders)
    requires Inv(m) && m.running == map[]
    ensures Inv(Reloaded(m, cfg, oks))
  {
    var b := m.(configs := map[]);
    forall g
      ensures Current(b, g)
    {
      assert Current(m, g);
    }
    StartedAllInv(b, cfg.responders, oks);
    var s := StartedAll(b, cfg.responders, oks);
    forall g
      ensures Current(s.(tapSpecs := cfg.taps), g)
    {
      assert Current(s, g);
    }
  }

  /** What was running between the sections has died and is started again. */
  ghost predicate Absorbed(m: Core, cfg: DaemonConfig, oks: seq<bool>)
    requires |oks| == |cfg.responders|
  {
    m.live == map[] && forall i :: i in m.running ==> StartsOk(cfg.responders, oks, i)
  }

  /** When a restart got in between, the second section breaks the invariant exactly
      when an interface then running is dropped by the new configuration or fails to
      start again, or an old goroutine is still live. */
  lemma GapExact(m: Core, cfg: DaemonConfig, oks: seq<bool>)
    requires |oks| == |cfg.responders| && Distinct(cfg.responders) && Inv(m)
    ensures Inv(Reloaded(m, cfg, oks)) <==> Absorbed(m, cfg, oks)
  {
    if Inv(Reloaded(m, cfg, oks)) {
      InvAbsorbs(m, cfg, oks);
    }
    if Absorbed(m, cfg, oks) {
      AbsorbedInv(m, cfg, oks);
    }
  }

  lemma InvAbsorbs(m: Core, cfg: DaemonConfig, oks: seq<bool>)
    requires |oks| == |cfg.responders| && Distinct(cfg.responders) && Inv(m)
    requires Inv(Reloaded(m, cfg, oks))
    ensures Absorbed(m, cfg, oks)
  {
    var b := m.(configs := map[]);
    var r := Reloaded(m, cfg, oks);
    forall i | i in m.running
      ensures StartsOk(cfg.responders, oks, i)
    {
      StartedAllAt(b, cfg.responders, oks, i);
      assert i in r.running && i in r.allmulti;
    }
    forall g | g in m.live
      ensures !Current(r, g)
    {
      assert Current(m, g);
      StaleGoroutine(m, cfg, oks, g);
    }
    assert forall g :: g !in m.live;
    assert m.live == map[];
  }

  lemma StaleGoroutine(m: Core, cfg: DaemonConfig, oks: seq<bool>, g: nat)
    requires |oks| == |cfg.responders| && Distinct(cfg.responders) && Inv(m)
    requires g in m.live && StartsOk(cfg.responders, oks, m.live[g].iface)
    ensures !Current(Reloaded(m, cfg, oks), g)
  {
    assert Current(m, g);
    StartedAllLive(m.(configs := map[]), cfg.responders, oks, g);
    StartedAllAt(m.(configs := map[]), cfg.responders, oks, m.live[g].iface);
  }

  lemma AbsorbedInv(m: Core, cfg: DaemonConfig, oks: seq<bool>)
    requires |oks| == |cfg.responders| && Distinct(cfg.responders) && Inv(m)
    requires Absorbed(m, cfg, oks)
    ensures Inv(Reloaded(m, cfg, oks))
  {
    var b := m.(configs := map[]);
    var e := m.(configs := map[], running := map[], allmulti := {});
    StartedAllInv(e, cfg.responders, oks);
    var x, y := StartedAll(b, cfg.responders, oks), StartedAll(e, cfg.responders, oks);
    forall i
      ensures (i in x.running <==> i in y.running) && (i in x.running ==> x.running[i] == y.running[i])
      ensures i in x.allmulti <==> i in y.allmulti
    {
      Forgets(b, e, cfg.responders, oks, i);
      StartedAllAt(b, cfg.responders, oks, i);
      StartedAllAt(e, cfg.responders, oks, i);
    }
    Forgets(b, e, cfg.responders, oks, "");
    assert x.running == y.running && x.allmulti == y.allmulti;
    assert x == y;
    var r := Reloaded(m, cfg, oks);
    forall g
      ensures Current(r, g)
    {
      assert Current(y, g);
    }
  }

  /** The list part depends on what ran before only in what it leaves alone. */
  lemma {:induction false} Forgets(b: Core, e: Core, cs: seq<Responder>, oks: seq<bool>, i: string)
    requires |oks| == |cs| && Distinct(cs) && e == b.(running := map[], allmulti := {})
    ensures var x, y := StartedAll(b, cs, oks), StartedAll(e, cs, oks);
            && x == y.(running := x.running, allmulti := x.allmulti)
            && (StartsOk(cs, oks, i) ==> i in x.running && i in y.running && x.running[i] == y.running[i])
  {
    if cs != [] {
      var n := |cs| - 1;
      Forgets(b, e, cs[..n], oks[..n], i);
    }
  }
}
