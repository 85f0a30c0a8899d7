/** The self-healing protocol of the responder taps: the daemon's main loop, its link
    watcher, one-shot applies and the administrator interleave at lock granularity
    (cmd/ndp.go, cmd/ndptap_daemon.go, cmd/daemon.go). */
module NdpProtocol {
  import opened NdpManager

  /** Where the main loop is inside a reload; `MainGap` lies between its two locked sections. */
  datatype MainPc = MainIdle | MainRead(cfg: DaemonConfig) | MainGap(cfg: DaemonConfig) | MainTail

  /** Where the watcher is inside a pass for one deleted link. */
  datatype WatchPc =
    | WatchIdle
    | WatchSeen(name: string)
    | WatchLoaded(name: string, specs: map<string, TapSpec>)
    | WatchBuilding(name: string)
    | WatchRestarting(name: string)

  /** `taps` are the responder taps that exist, `applies` the one-shot applies under way
      with the configuration each has read, `loaded` the configuration of the latest
      completed second section of a reload. */
  datatype World = World(
    core: Core,
    disk: DaemonConfig,
    main: MainPc,
    watch: WatchPc,
    applies: map<nat, DaemonConfig>,
    taps: set<string>,
    loaded: DaemonConfig)

  datatype Action =
    | MainLoad | MainStop | MainReload(oks: seq<bool>) | MainEnsure | Shutdown
    | Die(g: nat)
    | Event(link: string) | LoadOk | LoadFail | Commit | Rebuild(built: bool) | WatchRestart(ok: bool)
    | Edit(cfg: DaemonConfig) | DeleteTap(tap: string)
    | ApplyRead(p: nat) | ApplyProvision(p: nat, tap: string) | ApplyReap(p: nat, tap: string) | ApplyEnd(p: nat)

  /** Link events are unconstrained: the watcher may be told of any deletion at any time. */
  ghost predicate Enabled(w: World, a: Action) {
    match a
    case MainLoad => w.main.MainIdle?
    case MainStop => w.main.MainRead?
    case MainReload(oks) => w.main.MainGap? && |oks| == |w.main.cfg.responders|
    case MainEnsure => w.main.MainTail?
    case Shutdown => w.main.MainIdle?
    case Die(g) => g in w.core.live
    case Event(_) => w.core.watching && w.watch.WatchIdle?
    case LoadOk => w.watch.WatchSeen?
    case LoadFail => w.watch.WatchSeen?
    case Commit => w.watch.WatchLoaded?
    case Rebuild(_) => w.watch.WatchBuilding?
    case WatchRestart(_) => w.watch.WatchRestarting?
    case Edit(cfg) => Distinct(cfg.responders)
    case DeleteTap(t) => t in w.taps
    case ApplyRead(p) => p !in w.applies
    case ApplyProvision(p, t) => p in w.applies && t in w.applies[p].taps
    case ApplyReap(p, t) => p in w.applies && t !in w.applies[p].taps
    case ApplyEnd(p) => p in w.applies
  }

  ghost function Next(w: World, a: Action): World
    requires Enabled(w, a)
  {
    match a
    case MainLoad => w.(main := MainRead(w.disk))
    case MainStop => w.(main := MainGap(w.main.cfg), core := Stopped(w.core))
    case MainReload(oks) => w.(main := MainTail, core := Reloaded(w.core, w.main.cfg, oks), loaded := w.main.cfg)
    case MainEnsure => w.(main := MainIdle, core := Watched(w.core))
    case Shutdown => w.(core := Stopped(w.core))
    case Die(g) => w.(core := w.core.(live := w.core.live - {g}))
    case Event(name) => if name in w.core.tapSpecs then w.(watch := WatchSeen(name)) else w
    case LoadOk => w.(watch := WatchLoaded(w.watch.name, w.disk.taps))
    case LoadFail =>
      w.(watch := if w.watch.name in w.core.tapSpecs then WatchBuilding(w.watch.name) else WatchIdle)
    case Commit =>
      w.(core := w.core.(tapSpecs := w.watch.specs),
         watch := if w.watch.name in w.watch.specs then WatchBuilding(w.watch.name) else WatchIdle)
    case Rebuild(built) =>
      if built then w.(taps := w.taps + {w.watch.name}, watch := WatchRestarting(w.watch.name))
      else w.(taps := w.taps - {w.watch.name}, watch := WatchIdle)
    case WatchRestart(ok) => w.(core := Restarted(w.core, w.watch.name, ok), watch := WatchIdle)
    case Edit(cfg) => w.(disk := cfg)
    case DeleteTap(t) => w.(taps := w.taps - {t})
    case ApplyRead(p) => w.(applies := w.applies[p := w.disk])
    case ApplyProvision(p, t) => w.(taps := w.taps + {t})
    case ApplyReap(p, t) => w.(taps := w.taps - {t})
    case ApplyEnd(p) => w.(applies := w.applies - {p})
  }

  ghost predicate Start(w: World) {
    && w.core == EMPTY && w.main.MainIdle? && w.watch.WatchIdle? && w.applies == map[]
    && Distinct(w.disk.responders) && w.loaded == DaemonConfig([], map[])
  }

  ghost predicate Run(ws: seq<World>, acts: seq<Action>) {
    && |ws| == |acts| + 1
    && forall k :: 0 <= k < |acts| ==> StepAt(ws, acts, k)
  }

  ghost predicate StepAt(ws: seq<World>, acts: seq<Action>, k: nat)
    requires |ws| == |acts| + 1 && k < |acts|
  {
    Enabled(ws[k], acts[k]) && ws[k + 1] == Next(ws[k], acts[k])
  }

  lemma RunFront(ws: seq<World>, acts: seq<Action>)
    requires Run(ws, acts) && |acts| > 0
    ensures Run(ws[..|acts|], acts[..|acts| - 1]) && StepAt(ws, acts, |acts| - 1)
  {
    var n := |acts| - 1;
    var ws', acts' := ws[..n + 1], acts[..n];
    forall k | 0 <= k < n
      ensures StepAt(ws', acts', k)
    {
      assert StepAt(ws, acts, k);
    }
  }

  // ----- The manager's invariant over runs -----

  ghost predicate FromList(configs: map<string, Responder>, cs: seq<Responder>) {
    forall i :: i in configs ==> configs[i] in cs
  }

  /** What holds whatever the interleaving: the manager's configurations are those of the
      latest reload, and no list names an interface twice. */
  ghost predicate Shape(w: World) {
    && FromList(w.core.configs, w.loaded.responders)
    && Distinct(w.disk.responders)
    && (w.main.MainRead? || w.main.MainGap? ==> Distinct(w.main.cfg.responders))
  }

  /** Should the action be the second section of a reload, it repairs what happened since
      the first: all that was restarted has died and is started again. */
  ghost predicate AbsorbedAt(w: World, a: Action)
    requires Enabled(w, a)
  {
    a.MainReload? ==> Absorbed(w.core, w.main.cfg, a.oks)
  }

  lemma {:induction false} StartedAllConfigs(m: Core, cs: seq<Responder>, oks: seq<bool>)
    requires |oks| == |cs| && m.configs == map[]
    ensures FromList(StartedAll(m, cs, oks).configs, cs)
  {
    if cs != [] {
      var n := |cs| - 1;
      StartedAllConfigs(m, cs[..n], oks[..n]);
      assert forall c :: c in cs[..n] ==> c in cs;
    }
  }

  lemma ReframeInv(m: Core, m': Core)
    requires Inv(m) && m' == m.(tapSpecs := m'.tapSpecs, watching := m'.watching)
    ensures Inv(m')
  {
    forall g
      ensures Current(m', g)
    {
      assert Current(m, g);
    }
  }

  lemma DieInv(m: Core, g: nat)
    requires Inv(m)
    ensures Inv(m.(live := m.live - {g}))
  {
    forall h
      ensures Current(m.(live := m.live - {g}), h)
    {
      assert Current(m, h);
    }
  }

  lemma StepShape(w: World, a: Action)
    requires Shape(w) && Enabled(w, a)
    ensures Shape(Next(w, a))
  {
    if a.MainReload? {
      StartedAllConfigs(w.core.(configs := map[]), w.main.cfg.responders, a.oks);
    }
  }

  /** One step breaks the manager's invariant exactly when it is a second section that
      does not absorb a restart. */
  lemma StepInvIff(w: World, a: Action)
    requires Shape(w) && Inv(w.core) && Enabled(w, a)
    ensures Inv(Next(w, a).core) <==> AbsorbedAt(w, a)
  {
    match a
    case MainStop => StoppedInv(w.core);
    case Shutdown => StoppedInv(w.core);
    case MainReload(oks) => GapExact(w.core, w.main.cfg, oks);
    case MainEnsure => ReframeInv(w.core, Watched(w.core));
    case Commit => ReframeInv(w.core, w.core.(tapSpecs := w.watch.specs));
    case Die(g) => DieInv(w.core, g);
    case WatchRestart(ok) => RestartedInv(w.core, w.watch.name, ok);
    case _ =>
  }

  ghost predicate InvTo(ws: seq<World>, n: nat)
    requires n < |ws|
  {
    forall k :: 0 <= k <= n ==> Inv(ws[k].core)
  }

  ghost predicate AbsorbedTo(ws: seq<World>, acts: seq<Action>, n: nat)
    requires Run(ws, acts) && n <= |acts|
  {
    forall k :: 0 <= k < n ==> StepAt(ws, acts, k) && AbsorbedAt(ws[k], acts[k])
  }

  lemma StartInv(w: World)
    requires Start(w)
    ensures Shape(w) && Inv(w.core)
  {
  }

  /** Over every interleaving: what runs is configured, all-multicast is on exactly for it,
      and no goroutine serves an old configuration, in every state up to any point,
      exactly when every second section of a reload absorbed what was restarted since
      the first. */
  lemma {:induction false} RunsKeepInv(ws: seq<World>, acts: seq<Action>, n: nat)
    requires Run(ws, acts) && Start(ws[0]) && n <= |acts|
    ensures InvTo(ws, n) <==> AbsorbedTo(ws, acts, n)
    ensures Shape(ws[n])
  {
    if n == 0 {
      StartInv(ws[0]);
    } else {
      RunsKeepInv(ws, acts, n - 1);
      assert StepAt(ws, acts, n - 1);
      StepShape(ws[n - 1], acts[n - 1]);
      if Inv(ws[n - 1].core) {
        StepInvIff(ws[n - 1], acts[n - 1]);
      }
      assert InvTo(ws, n) <==> InvTo(ws, n - 1) && Inv(ws[n].core);
      assert AbsorbedTo(ws, acts, n) <==> AbsorbedTo(ws, acts, n - 1) && AbsorbedAt(ws[n - 1], acts[n - 1]);
    }
  }

  /** In such a run every live responder serves the configuration of the latest reload. */
  lemma LatestServed(ws: seq<World>, acts: seq<Action>, n: nat, g: nat)
    requires Run(ws, acts) && Start(ws[0]) && n <= |acts| && AbsorbedTo(ws, acts, n) && g in ws[n].core.live
    ensures ws[n].core.live[g] in ws[n].loaded.responders
    ensures ws[n].core.live[g].iface in ws[n].core.running && ws[n].core.running[ws[n].core.live[g].iface] == g
  {
    RunsKeepInv(ws, acts, n);
    assert Current(ws[n].core, g);
  }

  /** The action does not put a responder between the two sections of a reload. */
  ghost predicate Quiet(w: World, a: Action) {
    !(w.main.MainGap? && a.WatchRestart? && w.watch.WatchRestarting? && a.ok && w.watch.name in w.core.configs)
  }

  ghost predicate GapEmpty(w: World) {
    w.main.MainGap? ==> w.core.running == map[]
  }

  lemma LiveRuns(m: Core)
    requires Inv(m)
    ensures forall g :: g in m.live ==> m.live[g].iface in m.running
  {
    forall g | g in m.live
      ensures m.live[g].iface in m.running
    {
      assert Current(m, g);
    }
  }

  lemma QuietStep(w: World, a: Action)
    requires Shape(w) && Inv(w.core) && GapEmpty(w) && Enabled(w, a) && Quiet(w, a)
    ensures AbsorbedAt(w, a) && GapEmpty(Next(w, a))
  {
    if a.MainReload? {
      LiveRuns(w.core);
      assert w.core.live == map[];
    }
  }

  /** In particular when no restart lands between the two sections. */
  lemma {:induction false} QuietRunsAbsorb(ws: seq<World>, acts: seq<Action>, n: nat)
    requires Run(ws, acts) && Start(ws[0]) && n <= |acts|
    requires forall k :: 0 <= k < n ==> Quiet(ws[k], acts[k])
    ensures AbsorbedTo(ws, acts, n) && GapEmpty(ws[n])
  {
    if n > 0 {
      QuietRunsAbsorb(ws, acts, n - 1);
      QuietLast(ws, acts, n - 1);
      assert forall k :: 0 <= k < n - 1 ==> StepAt(ws, acts, k) && AbsorbedAt(ws[k], acts[k]);
    }
  }

  lemma QuietLast(ws: seq<World>, acts: seq<Action>, k: nat)
    requires Run(ws, acts) && Start(ws[0]) && k < |acts| && AbsorbedTo(ws, acts, k) && GapEmpty(ws[k]) && Quiet(ws[k], acts[k])
    ensures StepAt(ws, acts, k) && AbsorbedAt(ws[k], acts[k]) && GapEmpty(ws[k + 1])
  {
    RunsKeepInv(ws, acts, k);
    assert StepAt(ws, acts, k) && Inv(ws[k].core);
    QuietStep(ws[k], acts[k]);
  }

  lemma Extend(ws: seq<World>, acts: seq<Action>, a: Action) returns (ws': seq<World>, acts': seq<Action>)
    requires Run(ws, acts) && Enabled(ws[|acts|], a)
    ensures Run(ws', acts') && ws'[0] == ws[0] && ws'[|acts'|] == Next(ws[|acts|], a)
  {
    ws', acts' := ws + [Next(ws[|acts|], a)], acts + [a];
    forall k | 0 <= k < |acts'|
      ensures StepAt(ws', acts', k)
    {
      if k < |acts| {
        assert StepAt(ws, acts, k);
      }
    }
  }

  /** A daemon serving one tap and watching it. */
  lemma Serving(tap: Responder, spec: TapSpec) returns (ws: seq<World>, acts: seq<Action>)
    ensures Run(ws, acts) && Start(ws[0])
    ensures var w := ws[|acts|];
            && w.main.MainIdle? && w.watch.WatchIdle? && w.core.watching && w.applies == map[]
            && w.disk == DaemonConfig([tap], map[tap.iface := spec])
            && w.core.tapSpecs == map[tap.iface := spec] && w.core.configs == map[tap.iface := tap]
  {
    var with := DaemonConfig([tap], map[tap.iface := spec]);
    assert [tap][..0] == [] && Distinct([tap]);
    ws, acts := [World(EMPTY, with, MainIdle, WatchIdle, map[], {tap.iface}, DaemonConfig([], map[]))], [];
    ws, acts := Extend(ws, acts, MainLoad);
    ws, acts := Extend(ws, acts, MainStop);
    assert ws[|acts|].core == EMPTY;
    assert StartedAll(EMPTY, [tap], [true]) == Started(EMPTY.(configs := map[tap.iface := tap]), tap, true);
    ws, acts := Extend(ws, acts, MainReload([true]));
    assert tap.iface in ws[|acts|].core.tapSpecs;
    ws, acts := Extend(ws, acts, MainEnsure);
  }

  /** The race is reachable: a tap is deleted and rebuilt while the administrator drops it
      from the configuration and reloads. */
  lemma RaceReachable(tap: Responder, spec: TapSpec) returns (ws: seq<World>, acts: seq<Action>)
    ensures Run(ws, acts) && Start(ws[0])
    ensures var w := ws[|acts|]; w.main.MainTail? && tap.iface in w.core.running && tap.iface !in w.core.configs
  {
    ws, acts := Serving(tap, spec);
    ws, acts := Extend(ws, acts, Event(tap.iface));
    ws, acts := Extend(ws, acts, LoadOk);
    ws, acts := Extend(ws, acts, Commit);
    ws, acts := Extend(ws, acts, Rebuild(true));
    ws, acts := Extend(ws, acts, Edit(DaemonConfig([], map[])));
    ws, acts := Extend(ws, acts, MainLoad);
    ws, acts := Extend(ws, acts, MainStop);
    ws, acts := Extend(ws, acts, WatchRestart(true));
    ws, acts := Extend(ws, acts, MainReload([]));
  }

  // ----- What a reload and a stop leave running -----

  /** A live responder serves the configuration on its interface. */
  ghost predicate Serves(m: Core, c: Responder) {
    c.iface in m.running && m.running[c.iface] in m.live && m.live[m.running[c.iface]] == c
  }

  lemma {:induction false} NamedAt(cs: seq<Responder>, k: nat)
    requires k < |cs|
    ensures Named(cs, cs[k].iface)
  {
    if k < |cs| - 1 {
      NamedAt(cs[..|cs| - 1], k);
    }
  }

  lemma {:induction false} StartedAllServes(m: Core, cs: seq<Responder>, oks: seq<bool>, k: nat)
    requires |oks| == |cs| && Distinct(cs) && k < |cs| && oks[k]
    ensures var s := StartedAll(m, cs, oks); Serves(s, cs[k]) && s.running[cs[k].iface] < s.nextId
  {
    var n := |cs| - 1;
    if k < n {
      StartedAllServes(m, cs[..n], oks[..n], k);
      NamedAt(cs[..n], k);
    }
  }

  /** Goroutine numbers are used once: no two interfaces run the same one. */
  ghost predicate Separate(m: Core) {
    && (forall i :: i in m.running ==> m.running[i] < m.nextId)
    && (forall i, j :: i in m.running && j in m.running && m.running[i] == m.running[j] ==> i == j)
  }

  lemma {:induction false} StartedAllSeparate(m: Core, cs: seq<Responder>, oks: seq<bool>)
    requires |oks| == |cs| && Separate(m)
    ensures Separate(StartedAll(m, cs, oks))
  {
    if cs != [] {
      StartedAllSeparate(m, cs[..|cs| - 1], oks[..|cs| - 1]);
    }
  }

  lemma RestartSeparate(m: Core, iface: string, ok: bool)
    requires Separate(m)
    ensures Separate(Restarted(m, iface, ok))
  {
  }

  lemma SeparateStep(w: World, a: Action)
    requires Separate(w.core) && Enabled(w, a)
    ensures Separate(Next(w, a).core)
  {
    if a.WatchRestart? {
      RestartSeparate(w.core, w.watch.name, a.ok);
    } else if a.MainReload? {
      StartedAllSeparate(w.core.(configs := map[]), w.main.cfg.responders, a.oks);
    }
  }

  lemma {:induction false} RunsSeparate(ws: seq<World>, acts: seq<Action>, n: nat)
    requires Run(ws, acts) && Start(ws[0]) && n <= |acts|
    ensures Separate(ws[n].core)
  {
    if n > 0 {
      RunsSeparate(ws, acts, n - 1);
      assert StepAt(ws, acts, n - 1);
      SeparateStep(ws[n - 1], acts[n - 1]);
    }
  }

  /** The action neither stops nor reloads, no goroutine dies and no restart fails. */
  predicate Harmless(a: Action) {
    !a.MainStop? && !a.MainReload? && !a.Shutdown? && !a.Die? && a != WatchRestart(false)
  }

  lemma RestartServes(m: Core, iface: string, c: Responder)
    requires Inv(m) && Separate(m) && Serves(m, c)
    ensures Serves(Restarted(m, iface, true), c)
  {
    assert Current(m, m.running[c.iface]);
  }

  lemma ServesStep(w: World, a: Action, c: Responder)
    requires Inv(w.core) && Separate(w.core) && Serves(w.core, c) && Enabled(w, a) && Harmless(a)
    ensures Serves(Next(w, a).core, c)
  {
    if a.WatchRestart? {
      RestartServes(w.core, w.watch.name, c);
    }
  }

  lemma ReloadServes(w: World, a: Action, k: nat)
    requires Shape(w) && Enabled(w, a) && a.MainReload? && k < |a.oks| && a.oks[k]
    ensures Serves(Next(w, a).core, w.main.cfg.responders[k])
  {
    StartedAllServes(w.core.(configs := map[]), w.main.cfg.responders, a.oks, k);
  }

  lemma InvAt(ws: seq<World>, acts: seq<Action>, k: nat, n: nat)
    requires Run(ws, acts) && Start(ws[0]) && k <= n <= |acts| && AbsorbedTo(ws, acts, n)
    ensures Inv(ws[k].core) && Shape(ws[k]) && AbsorbedTo(ws, acts, k)
  {
    RunsKeepInv(ws, acts, k);
  }

  lemma ServesNext(ws: seq<World>, acts: seq<Action>, k: nat, c: Responder)
    requires Run(ws, acts) && Start(ws[0]) && k < |acts| && AbsorbedTo(ws, acts, k)
    requires Serves(ws[k].core, c) && Harmless(acts[k])
    ensures Serves(ws[k + 1].core, c)
  {
    InvAt(ws, acts, k, k);
    RunsSeparate(ws, acts, k);
    assert StepAt(ws, acts, k);
    ServesStep(ws[k], acts[k], c);
  }

  lemma ReloadServesAt(ws: seq<World>, acts: seq<Action>, i: nat, k: nat)
    requires Run(ws, acts) && Start(ws[0]) && i < |acts| && acts[i].MainReload? && k < |acts[i].oks| && acts[i].oks[k]
    ensures ws[i].main.MainGap? && k < |ws[i].main.cfg.responders| && Serves(ws[i + 1].core, ws[i].main.cfg.responders[k])
  {
    RunsKeepInv(ws, acts, i);
    assert StepAt(ws, acts, i);
    ReloadServes(ws[i], acts[i], k);
  }

  /** Every responder of the configuration whose socket opened at the reload is served from
      then on, whatever the watcher and the applies do, until it is stopped or dies. */
  lemma {:induction false} ServedAfterReload(ws: seq<World>, acts: seq<Action>, i: nat, n: nat, k: nat)
    requires Run(ws, acts) && Start(ws[0]) && i < n <= |acts| && AbsorbedTo(ws, acts, n - 1)
    requires acts[i].MainReload? && k < |acts[i].oks| && acts[i].oks[k]
    requires forall j :: i < j < n ==> Harmless(acts[j])
    ensures ws[i].main.MainGap? && k < |ws[i].main.cfg.responders| && Serves(ws[n].core, ws[i].main.cfg.responders[k])
  {
    if n == i + 1 {
      ReloadServesAt(ws, acts, i, k);
    } else {
      InvAt(ws, acts, n - 2, n - 1);
      ServedAfterReload(ws, acts, i, n - 1, k);
      ServesNext(ws, acts, n - 1, ws[i].main.cfg.responders[k]);
    }
  }

  /** Nothing runs, no goroutine is live and no interface is in all-multicast mode. */
  ghost predicate Silent(m: Core) {
    m.running == map[] && m.live == map[] && m.allmulti == {}
  }

  lemma SilentIff(m: Core)
    requires Inv(m)
    ensures Silent(m) <==> m.running == map[]
  {
    LiveRuns(m);
  }

  lemma SilentStep(w: World, a: Action)
    requires Inv(w.core) && Enabled(w, a) && !a.MainReload? && !a.WatchRestart?
    requires a.MainStop? || a.Shutdown? || Silent(w.core)
    ensures Next(w, a).core.running == map[]
  {
  }

  lemma SilentNext(ws: seq<World>, acts: seq<Action>, k: nat)
    requires Run(ws, acts) && Start(ws[0]) && k < |acts| && AbsorbedTo(ws, acts, k + 1)
    requires !acts[k].MainReload? && !acts[k].WatchRestart? && (acts[k].MainStop? || acts[k].Shutdown? || Silent(ws[k].core))
    ensures Silent(ws[k + 1].core)
  {
    InvAt(ws, acts, k, k + 1);
    InvAt(ws, acts, k + 1, k + 1);
    assert StepAt(ws, acts, k);
    SilentStep(ws[k], acts[k]);
    SilentIff(ws[k + 1].core);
  }

  /** After a stop all is silent until a reload or a restart by the watcher. */
  lemma {:induction false} SilentAfterStop(ws: seq<World>, acts: seq<Action>, i: nat, n: nat)
    requires Run(ws, acts) && Start(ws[0]) && i < n <= |acts| && AbsorbedTo(ws, acts, n)
    requires acts[i].MainStop? || acts[i].Shutdown?
    requires forall j :: i < j < n ==> !acts[j].MainReload? && !acts[j].WatchRestart?
    ensures Silent(ws[n].core)
  {
    if n > i + 1 {
      InvAt(ws, acts, n - 1, n);
      SilentAfterStop(ws, acts, i, n - 1);
    }
    SilentNext(ws, acts, n - 1);
  }

  // ----- Which taps exist -----

  /** The action makes the tap, or takes it away. */
  ghost predicate Makes(w: World, a: Action, t: string) {
    (a.ApplyProvision? && a.tap == t) || (a == Rebuild(true) && w.watch == WatchBuilding(t))
  }

  ghost predicate Takes(w: World, a: Action, t: string) {
    a == DeleteTap(t) || (a.ApplyReap? && a.tap == t) || (a == Rebuild(false) && w.watch == WatchBuilding(t))
  }

  lemma TapStep(w: World, a: Action, t: string)
    requires Enabled(w, a)
    ensures t in Next(w, a).taps <==> Makes(w, a, t) || (t in w.taps && !Takes(w, a, t))
  {
  }

  /** A tap exists exactly when the last step that concerned it made it. */
  lemma {:induction false} TapsByLast(ws: seq<World>, acts: seq<Action>, t: string, i: nat, n: nat)
    requires Run(ws, acts) && i < n <= |acts| && (Makes(ws[i], acts[i], t) || Takes(ws[i], acts[i], t))
    requires forall k :: i < k < n ==> !Makes(ws[k], acts[k], t) && !Takes(ws[k], acts[k], t)
    ensures t in ws[n].taps <==> Makes(ws[i], acts[i], t)
  {
    assert StepAt(ws, acts, n - 1);
    TapStep(ws[n - 1], acts[n - 1], t);
    if n > i + 1 {
      TapsByLast(ws, acts, t, i, n - 1);
      assert !Makes(ws[n - 1], acts[n - 1], t) && !Takes(ws[n - 1], acts[n - 1], t);
    }
  }

  // ----- A dropped tap stays dropped -----

  /** The tap is off the disk and gone, and nobody who read it before still holds it. */
  ghost predicate Dropped(w: World, t: string) {
    && t !in w.disk.taps && t !in w.taps
    && (forall p :: p in w.applies ==> t !in w.applies[p].taps)
    && w.watch != WatchBuilding(t)
    && (w.watch.WatchLoaded? && w.watch.name == t ==> t !in w.watch.specs)
  }

  /** In addition the daemon's own memory has forgotten it. */
  ghost predicate Forgotten(w: World, t: string) {
    && Dropped(w, t) && t !in w.core.tapSpecs
    && (w.main.MainRead? || w.main.MainGap? ==> t !in w.main.cfg.taps)
    && (w.watch.WatchLoaded? ==> t !in w.watch.specs)
  }

  ghost predicate Readds(a: Action, t: string) {
    a.Edit? && t in a.cfg.taps
  }

  lemma DroppedStep(w: World, a: Action, t: string)
    requires Dropped(w, t) && Enabled(w, a) && !Readds(a, t)
    ensures !a.LoadFail? ==> Dropped(Next(w, a), t)
    ensures a.LoadFail? ==> (Dropped(Next(w, a), t) <==> !(w.watch.name == t && t in w.core.tapSpecs))
    ensures Forgotten(w, t) ==> Forgotten(Next(w, a), t)
  {
    if a.MainReload? {
      StartedAllSpecs(w.core.(configs := map[]), w.main.cfg.responders, a.oks);
    }
  }

  lemma {:induction false} StartedAllSpecs(m: Core, cs: seq<Responder>, oks: seq<bool>)
    requires |oks| == |cs|
    ensures StartedAll(m, cs, oks).tapSpecs == m.tapSpecs
  {
    if cs != [] {
      StartedAllSpecs(m, cs[..|cs| - 1], oks[..|cs| - 1]);
    }
  }

  /** From the moment a tap is off the disk and every reader from before is done, no pass
      of the watcher and no apply brings it back, as long as the configuration can be
      read; and not even a failed read does once the daemon has reloaded. */
  lemma {:induction false} DroppedStaysDropped(ws: seq<World>, acts: seq<Action>, t: string)
    requires Run(ws, acts) && Dropped(ws[0], t)
    requires forall k :: 0 <= k < |acts| ==> !Readds(acts[k], t)
    requires Forgotten(ws[0], t) || forall k :: 0 <= k < |acts| ==> !acts[k].LoadFail?
    ensures t !in ws[|acts|].taps
    ensures Dropped(ws[|acts|], t) && (Forgotten(ws[0], t) ==> Forgotten(ws[|acts|], t))
  {
    var n := |acts|;
    if n > 0 {
      RunFront(ws, acts);
      DroppedStaysDropped(ws[..n], acts[..n - 1], t);
      DroppedStep(ws[n - 1], acts[n - 1], t);
    }
  }

  lemma SpecsStep(w: World, a: Action)
    requires Enabled(w, a)
    ensures a.MainReload? ==> Next(w, a).core.tapSpecs == w.main.cfg.taps
    ensures a.Commit? ==> w.watch.WatchLoaded? && Next(w, a).core.tapSpecs == w.watch.specs
    ensures !a.MainReload? && !a.Commit? ==> Next(w, a).core.tapSpecs == w.core.tapSpecs
  {
  }

  /** From a reload until the watcher next commits what it read, the daemon remembers
      exactly the taps of the configuration it loaded. */
  lemma {:induction false} SpecsAfterReload(ws: seq<World>, acts: seq<Action>, i: nat, n: nat)
    requires Run(ws, acts) && i < n <= |acts| && acts[i].MainReload?
    requires forall k :: i < k < n ==> !acts[k].MainReload? && !acts[k].Commit?
    ensures ws[i].main.MainGap? && ws[n].core.tapSpecs == ws[i].main.cfg.taps
  {
    SpecsAt(ws, acts, n - 1);
    if n > i + 1 {
      SpecsAfterReload(ws, acts, i, n - 1);
    }
  }

  lemma SpecsAt(ws: seq<World>, acts: seq<Action>, k: nat)
    requires Run(ws, acts) && k < |acts|
    ensures acts[k].MainReload? ==> ws[k].main.MainGap? && ws[k + 1].core.tapSpecs == ws[k].main.cfg.taps
    ensures acts[k].Commit? ==> ws[k].watch.WatchLoaded? && ws[k + 1].core.tapSpecs == ws[k].watch.specs
    ensures !acts[k].MainReload? && !acts[k].Commit? ==> ws[k + 1].core.tapSpecs == ws[k].core.tapSpecs
  {
    assert StepAt(ws, acts, k);
    SpecsStep(ws[k], acts[k]);
  }

  lemma ReadStep(w: World, a: Action)
    requires Enabled(w, a)
    ensures a.LoadOk? ==> Next(w, a).watch == WatchLoaded(w.watch.name, w.disk.taps)
    ensures w.watch.WatchLoaded? && !a.Commit? ==> Next(w, a).watch == w.watch
  {
  }

  /** What the watcher reads stays what it is until it commits it. */
  lemma {:induction false} ReadUntilCommit(ws: seq<World>, acts: seq<Action>, j: nat, i: nat)
    requires Run(ws, acts) && j < i <= |acts| && acts[j].LoadOk?
    requires forall k :: j < k < i ==> !acts[k].Commit?
    ensures ws[j].watch.WatchSeen? && ws[i].watch == WatchLoaded(ws[j].watch.name, ws[j].disk.taps)
  {
    assert StepAt(ws, acts, i - 1);
    ReadStep(ws[i - 1], acts[i - 1]);
    if i > j + 1 {
      ReadUntilCommit(ws, acts, j, i - 1);
    }
  }

  /** From a commit until the next reload or commit, the daemon remembers exactly the taps
      that were on the disk when the watcher read it. */
  lemma {:induction false} SpecsAfterCommit(ws: seq<World>, acts: seq<Action>, j: nat, i: nat, n: nat)
    requires Run(ws, acts) && j < i < n <= |acts| && acts[j].LoadOk? && acts[i].Commit?
    requires forall k :: j < k < i ==> !acts[k].Commit?
    requires forall k :: i < k < n ==> !acts[k].MainReload? && !acts[k].Commit?
    ensures ws[n].core.tapSpecs == ws[j].disk.taps
  {
    SpecsAt(ws, acts, n - 1);
    if n > i + 1 {
      SpecsAfterCommit(ws, acts, j, i, n - 1);
    } else {
      ReadUntilCommit(ws, acts, j, i);
    }
  }

  /** As a forgotten tap, but for the daemon's memory; the main loop holds no configuration
      with the tap. */
  ghost predicate Forgetting(w: World, t: string) {
    && Dropped(w, t) && !w.main.MainIdle? && !w.main.MainTail?
    && t !in w.main.cfg.taps && (w.watch.WatchLoaded? ==> t !in w.watch.specs)
  }

  lemma ForgettingStep(w: World, a: Action, t: string)
    requires Forgetting(w, t) && Enabled(w, a) && !Readds(a, t) && !a.LoadFail?
    ensures if a.MainReload? then Forgotten(Next(w, a), t) else Forgetting(Next(w, a), t)
  {
    DroppedStep(w, a, t);
    SpecsStep(w, a);
  }

  /** A reload forgets: a tap that is off the disk and dropped when the main loop reads the
      configuration, and that no pass under way has read, is forgotten once the second
      section of that reload is done. */
  lemma {:induction false} ReloadForgets(ws: seq<World>, acts: seq<Action>, t: string, i: nat, n: nat)
    requires Run(ws, acts) && i < n < |acts| && acts[i].MainLoad?
    requires Dropped(ws[i], t) && (ws[i].watch.WatchLoaded? ==> t !in ws[i].watch.specs)
    requires forall k :: i <= k <= n ==> !Readds(acts[k], t) && !acts[k].LoadFail?
    requires forall k :: i < k < n ==> !acts[k].MainReload?
    ensures Forgetting(ws[n], t)
    ensures if acts[n].MainReload? then Forgotten(ws[n + 1], t) else Forgetting(ws[n + 1], t)
  {
    if n == i + 1 {
      assert StepAt(ws, acts, i);
      LoadForgets(ws[i], t);
    } else {
      ReloadForgets(ws, acts, t, i, n - 1);
      assert StepAt(ws, acts, n - 1);
    }
    assert StepAt(ws, acts, n) && !Readds(acts[n], t) && !acts[n].LoadFail?;
    ForgettingStep(ws[n], acts[n], t);
  }

  lemma LoadForgets(w: World, t: string)
    requires Enabled(w, MainLoad) && Dropped(w, t) && (w.watch.WatchLoaded? ==> t !in w.watch.specs)
    ensures Forgetting(Next(w, MainLoad), t)
  {
  }

  // ----- Healing -----

  /** The watcher is in a pass for the tap, and has not missed it. */
  ghost predicate InPass(w: World, t: string) {
    match w.watch
    case WatchIdle => false
    case WatchSeen(name) => name == t
    case WatchLoaded(name, specs) => name == t && t in specs
    case WatchBuilding(name) => name == t
    case WatchRestarting(name) => name == t && t in w.taps
  }

  /** Neither the rebuild nor its inputs fail, and nobody deletes the tap. */
  ghost predicate Undisturbed(w: World, a: Action, t: string) {
    && t in w.disk.taps
    && a != Rebuild(false) && a != WatchRestart(false) && a != DeleteTap(t) && !(a.ApplyReap? && a.tap == t)
    && (a.LoadFail? ==> t in w.core.tapSpecs)
  }

  /** The tap exists and a live responder serves its configuration on it. */
  ghost predicate Healed(w: World, t: string) {
    && t in w.taps && t in w.core.running && t in w.core.configs
    && w.core.running[t] in w.core.live && w.core.live[w.core.running[t]] == w.core.configs[t]
  }

  lemma PassStep(w: World, a: Action, t: string)
    requires InPass(w, t) && Enabled(w, a) && Undisturbed(w, a, t)
    ensures !a.WatchRestart? ==> InPass(Next(w, a), t)
    ensures a.WatchRestart? && Inv(w.core) && t in w.core.configs ==> Healed(Next(w, a), t)
  {
  }

  /** The protocol heals: a pass for a deleted tap that stays on the disk, undisturbed but
      among any other steps, does not end before the restart, and ends with the tap there
      and its responder live if the tap is then configured. */
  lemma {:induction false} PassHeals(ws: seq<World>, acts: seq<Action>, t: string, n: nat)
    requires Run(ws, acts) && n < |acts| && InPass(ws[0], t)
    requires forall k :: 0 <= k <= n ==> Undisturbed(ws[k], acts[k], t)
    requires forall k :: 0 <= k < n ==> !acts[k].WatchRestart?
    ensures InPass(ws[n], t)
    ensures acts[n].WatchRestart? && Inv(ws[n].core) && t in ws[n].core.configs ==> Healed(ws[n + 1], t)
  {
    assert Undisturbed(ws[n], acts[n], t) && StepAt(ws, acts, n);
    if n > 0 {
      PassHeals(ws, acts, t, n - 1);
      assert Undisturbed(ws[n - 1], acts[n - 1], t) && StepAt(ws, acts, n - 1);
      PassStep(ws[n - 1], acts[n - 1], t);
    }
    PassStep(ws[n], acts[n], t);
  }

  /** A deletion the watcher hears of, for a tap it remembers, begins such a pass. */
  lemma PassBegins(w: World, t: string)
    requires Enabled(w, Event(t)) && t in w.core.tapSpecs
    ensures InPass(Next(w, Event(t)), t)
  {
  }
}
