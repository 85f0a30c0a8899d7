/** The saved state of an apply and the difference of two states (state/state.go). */
module StateDiff {
  import opened Collections

  const NETCFG := "netcfg"
  const SYSTEM := "system"

  datatype DeviceState = DeviceState(
    addresses: seq<string>,
    routes: seq<string>,
    ndProxy: seq<string>,
    createdBy: string)

  datatype NsState = NsState(devices: map<string, DeviceState>, sids: seq<string>)

  /** Namespace name to its state; the empty name is the default namespace. */
  type State = map<string, NsState>

  type PerNs = map<string, seq<string>>
  type PerDevice = map<string, map<string, seq<string>>>

  datatype Diff = Diff(
    devicesToRemove: PerNs,
    addressesToRemove: PerDevice,
    routesToRemove: PerDevice,
    nsToRemove: seq<string>,
    devicesToAdd: PerNs,
    addressesToAdd: PerDevice,
    routesToAdd: PerDevice,
    nsToAdd: seq<string>)
  {
    predicate IsEmpty() {
      && |devicesToRemove| == 0
      && |addressesToRemove| == 0
      && |routesToRemove| == 0
      && |nsToRemove| == 0
      && |devicesToAdd| == 0
      && |addressesToAdd| == 0
      && |routesToAdd| == 0
      && |nsToAdd| == 0
    }
  }

  // ----- What a difference is, as sets -----

  predicate HasDevice(s: State, ns: string, dev: string) {
    ns in s && dev in s[ns].devices
  }

  function AddressSet(s: State, ns: string, dev: string): set<string> {
    if HasDevice(s, ns, dev) then Elems(s[ns].devices[dev].addresses) else {}
  }

  function RouteSet(s: State, ns: string, dev: string): set<string> {
    if HasDevice(s, ns, dev) then Elems(s[ns].devices[dev].routes) else {}
  }

  /** Addresses that a device present in both states loses on the way from `a` to `b`. */
  function LostAddresses(a: State, b: State, ns: string, dev: string): set<string> {
    if HasDevice(b, ns, dev) then AddressSet(a, ns, dev) - AddressSet(b, ns, dev) else {}
  }

  function LostRoutes(a: State, b: State, ns: string, dev: string): set<string> {
    if HasDevice(b, ns, dev) then RouteSet(a, ns, dev) - RouteSet(b, ns, dev) else {}
  }

  /** Devices only `a` has.  While the namespace survives, only devices that
      netcfg created are listed; when it goes, every device is. */
  function GoneDevices(a: State, b: State, ns: string): set<string> {
    if ns !in a then {} else
      set dev | dev in a[ns].devices && !HasDevice(b, ns, dev) &&
                (ns !in b || a[ns].devices[dev].createdBy == NETCFG)
  }

  function NewDevices(a: State, b: State, ns: string): set<string> {
    if ns !in b then {} else set dev | dev in b[ns].devices && !HasDevice(a, ns, dev)
  }

  /** A per-namespace list holds exactly `s`, and no entry at all when `s` is empty. */
  ghost predicate ExactAt(m: PerNs, ns: string, s: set<string>) {
    if s == {} then ns !in m else ns in m && Lists(m[ns], s)
  }

  predicate Listed(m: PerDevice, ns: string, dev: string) {
    ns in m && dev in m[ns]
  }

  ghost predicate ExactOn(m: PerDevice, ns: string, dev: string, s: set<string>) {
    if s == {} then !Listed(m, ns, dev) else Listed(m, ns, dev) && Lists(m[ns][dev], s)
  }

  /** No namespace is mentioned without a device in it. */
  ghost predicate NoHollowNs(m: PerDevice) {
    forall ns :: ns in m ==> m[ns] != map[]
  }

  type Wanted = (string, string) -> set<string>

  /** `m` gives every device the set `f` asks for. */
  ghost predicate Exact(m: PerDevice, f: Wanted) {
    NoHollowNs(m) && forall ns, dev :: ExactOn(m, ns, dev, f(ns, dev))
  }

  ghost function AddressLoss(a: State, b: State): Wanted {
    (ns, dev) => LostAddresses(a, b, ns, dev)
  }

  ghost function RouteLoss(a: State, b: State): Wanted {
    (ns, dev) => LostRoutes(a, b, ns, dev)
  }

  ghost predicate IsDiff(d: Diff, old_: State, new_: State) {
    && Lists(d.nsToRemove, old_.Keys - new_.Keys)
    && Lists(d.nsToAdd, new_.Keys - old_.Keys)
    && (forall ns :: ExactAt(d.devicesToRemove, ns, GoneDevices(old_, new_, ns)))
    && (forall ns :: ExactAt(d.devicesToAdd, ns, NewDevices(old_, new_, ns)))
    && Exact(d.addressesToRemove, AddressLoss(old_, new_))
    && Exact(d.addressesToAdd, AddressLoss(new_, old_))
    && Exact(d.routesToRemove, RouteLoss(old_, new_))
    && Exact(d.routesToAdd, RouteLoss(new_, old_))
  }

  // ----- The computation -----

  /** The strings of `xs` that are not in `ys`, each once, in an arbitrary order:
      one of the two result lists of diffStrings. */
  method Minus(xs: seq<string>, ys: seq<string>) returns (r: seq<string>)
    ensures Lists(r, Elems(xs) - Elems(ys))
  {
    r := [];
    var rest := Elems(xs);
    while rest != {}
      invariant rest <= Elems(xs)
      invariant Lists(r, Elems(xs) - Elems(ys) - rest)
    {
      var s :| s in rest;
      rest := rest - {s};
      if s !in Elems(ys) {
        ListsAppend(r, Elems(xs) - Elems(ys) - rest - {s}, s);
        assert Elems(xs) - Elems(ys) - rest - {s} + {s} == Elems(xs) - Elems(ys) - rest;
        r := r + [s];
      }
      assert s in Elems(ys) ==> Elems(xs) - Elems(ys) - rest == Elems(xs) - Elems(ys) - (rest + {s});
    }
    assert Elems(xs) - Elems(ys) - {} == Elems(xs) - Elems(ys);
  }

  /** diffStrings: what the old list has and the new one has not, and the reverse. */
  method DiffStrings(old_: seq<string>, new_: seq<string>) returns (removed: seq<string>, added: seq<string>)
    ensures Lists(removed, Elems(old_) - Elems(new_))
    ensures Lists(added, Elems(new_) - Elems(old_))
  {
    removed := Minus(old_, new_);
    added := Minus(new_, old_);
  }

  function Append(m: PerNs, ns: string, x: string): PerNs {
    m[ns := (if ns in m then m[ns] else []) + [x]]
  }

  lemma AppendExact(m: PerNs, ns: string, x: string, s: set<string>)
    requires ExactAt(m, ns, s) && x !in s
    ensures ExactAt(Append(m, ns, x), ns, s + {x})
  {
  }

  /** Records a non-empty list for a device, as the four guarded assignments do. */
  function Record(m: PerDevice, ns: string, dev: string, xs: seq<string>): PerDevice {
    if xs == [] then m
    else m[ns := (if ns in m then m[ns] else map[])[dev := xs]]
  }

  /** The collected lists, once the main loop has visited the devices in `done`. */
  ghost predicate Collected(m: PerDevice, f: Wanted, done: set<(string, string)>) {
    NoHollowNs(m) && forall ns, dev :: ExactOn(m, ns, dev, if (ns, dev) in done then f(ns, dev) else {})
  }

  lemma CollectOne(m: PerDevice, f: Wanted, done: set<(string, string)>, ns: string, dev: string, xs: seq<string>)
    requires Collected(m, f, done) && (ns, dev) !in done && Lists(xs, f(ns, dev))
    ensures Collected(Record(m, ns, dev, xs), f, done + {(ns, dev)})
  {
    var m' := Record(m, ns, dev, xs);
    assert !Listed(m, ns, dev) by {
      assert ExactOn(m, ns, dev, {});
    }
    assert xs == [] <==> f(ns, dev) == {} by {
      if xs != [] {
        assert xs[0] in Elems(xs);
      }
    }
    assert NoHollowNs(m') by {
      if xs != [] {
        assert dev in m'[ns];
      }
    }
    forall n, d
      ensures ExactOn(m', n, d, if (n, d) in done + {(ns, dev)} then f(n, d) else {})
    {
      assert ExactOn(m, n, d, if (n, d) in done then f(n, d) else {});
    }
  }

  lemma CollectNone(m: PerDevice, f: Wanted, done: set<(string, string)>, ns: string, dev: string)
    requires Collected(m, f, done) && f(ns, dev) == {}
    ensures Collected(m, f, done + {(ns, dev)})
  {
  }

  lemma CollectAll(m: PerDevice, f: Wanted, done: set<(string, string)>)
    requires Collected(m, f, done)
    requires forall ns, dev :: (ns, dev) !in done ==> f(ns, dev) == {}
    ensures Exact(m, f)
  {
  }

  /** The part of `GoneDevices` the main loop has visited. */
  ghost function GoneSofar(a: State, b: State, ns: string, done: set<(string, string)>): set<string> {
    set dev | dev in GoneDevices(a, b, ns) && (ns, dev) in done
  }

  ghost predicate GoneCollected(m: PerNs, a: State, b: State, done: set<(string, string)>) {
    forall ns :: ExactAt(m, ns, GoneSofar(a, b, ns, done))
  }

  lemma CollectGone(m: PerNs, a: State, b: State, done: set<(string, string)>, ns: string, dev: string)
    requires GoneCollected(m, a, b, done) && (ns, dev) !in done
    ensures dev in GoneDevices(a, b, ns) ==> GoneCollected(Append(m, ns, dev), a, b, done + {(ns, dev)})
    ensures dev !in GoneDevices(a, b, ns) ==> GoneCollected(m, a, b, done + {(ns, dev)})
  {
    var m' := if dev in GoneDevices(a, b, ns) then Append(m, ns, dev) else m;
    forall n
      ensures ExactAt(m', n, GoneSofar(a, b, n, done + {(ns, dev)}))
    {
      assert ExactAt(m, n, GoneSofar(a, b, n, done));
      if n == ns && dev in GoneDevices(a, b, ns) {
        AppendExact(m, ns, dev, GoneSofar(a, b, ns, done));
        assert GoneSofar(a, b, ns, done) + {dev} == GoneSofar(a, b, ns, done + {(ns, dev)});
      } else {
        assert GoneSofar(a, b, n, done) == GoneSofar(a, b, n, done + {(ns, dev)});
      }
    }
  }

  ghost predicate Sofar(d: Diff, old_: State, new_: State, done: set<(string, string)>) {
    && GoneCollected(d.devicesToRemove, old_, new_, done)
    && Collected(d.addressesToRemove, AddressLoss(old_, new_), done)
    && Collected(d.addressesToAdd, AddressLoss(new_, old_), done)
    && Collected(d.routesToRemove, RouteLoss(old_, new_), done)
    && Collected(d.routesToAdd, RouteLoss(new_, old_), done)
  }

  lemma NothingCommon(d: Diff, old_: State, new_: State, done: set<(string, string)>, ns: string, dev: string)
    requires Sofar(d, old_, new_, done) && !HasDevice(new_, ns, dev)
    ensures Collected(d.addressesToRemove, AddressLoss(old_, new_), done + {(ns, dev)})
    ensures Collected(d.addressesToAdd, AddressLoss(new_, old_), done + {(ns, dev)})
    ensures Collected(d.routesToRemove, RouteLoss(old_, new_), done + {(ns, dev)})
    ensures Collected(d.routesToAdd, RouteLoss(new_, old_), done + {(ns, dev)})
  {
    CollectNone(d.addressesToRemove, AddressLoss(old_, new_), done, ns, dev);
    CollectNone(d.addressesToAdd, AddressLoss(new_, old_), done, ns, dev);
    CollectNone(d.routesToRemove, RouteLoss(old_, new_), done, ns, dev);
    CollectNone(d.routesToAdd, RouteLoss(new_, old_), done, ns, dev);
  }

  /** Records what one list of a common device loses and gains. */
  method RecordDiff(removed: PerDevice, added: PerDevice, ns: string, dev: string, xs: seq<string>, ys: seq<string>,
                    ghost f: Wanted, ghost g: Wanted, ghost done: set<(string, string)>)
    returns (removed': PerDevice, added': PerDevice)
    requires Collected(removed, f, done) && Collected(added, g, done) && (ns, dev) !in done
    requires f(ns, dev) == Elems(xs) - Elems(ys) && g(ns, dev) == Elems(ys) - Elems(xs)
    ensures Collected(removed', f, done + {(ns, dev)}) && Collected(added', g, done + {(ns, dev)})
  {
    var lost, gained := DiffStrings(xs, ys);
    CollectOne(removed, f, done, ns, dev, lost);
    CollectOne(added, g, done, ns, dev, gained);
    removed', added' := Record(removed, ns, dev, lost), Record(added, ns, dev, gained);
  }

  /** One iteration of the main loop: device `dev` of namespace `ns` of the old state. */
  method DiffDevice(d: Diff, old_: State, new_: State, ns: string, dev: string,
                    ghost done: set<(string, string)>) returns (r: Diff)
    requires HasDevice(old_, ns, dev) && (ns, dev) !in done && Sofar(d, old_, new_, done)
    ensures Sofar(r, old_, new_, done + {(ns, dev)})
    ensures r.nsToRemove == d.nsToRemove && r.nsToAdd == d.nsToAdd && r.devicesToAdd == d.devicesToAdd
  {
    CollectGone(d.devicesToRemove, old_, new_, done, ns, dev);
    var oldDev := old_[ns].devices[dev];
    if !HasDevice(new_, ns, dev) {
      NothingCommon(d, old_, new_, done, ns, dev);
      r := d;
      if ns !in new_ || oldDev.createdBy == NETCFG {
        r := d.(devicesToRemove := Append(d.devicesToRemove, ns, dev));
      }
    } else {
      var newDev := new_[ns].devices[dev];
      var ra, aa := RecordDiff(d.addressesToRemove, d.addressesToAdd, ns, dev, oldDev.addresses, newDev.addresses,
                               AddressLoss(old_, new_), AddressLoss(new_, old_), done);
      var rr, ar := RecordDiff(d.routesToRemove, d.routesToAdd, ns, dev, oldDev.routes, newDev.routes,
                               RouteLoss(old_, new_), RouteLoss(new_, old_), done);
      r := d.(addressesToRemove := ra, addressesToAdd := aa, routesToRemove := rr, routesToAdd := ar);
    }
  }

  lemma GoneAll(m: PerNs, old_: State, new_: State, done: set<(string, string)>)
    requires GoneCollected(m, old_, new_, done)
    requires forall ns, dev :: HasDevice(old_, ns, dev) ==> (ns, dev) in done
    ensures forall ns :: ExactAt(m, ns, GoneDevices(old_, new_, ns))
  {
    forall ns
      ensures ExactAt(m, ns, GoneDevices(old_, new_, ns))
    {
      assert ExactAt(m, ns, GoneSofar(old_, new_, ns, done));
      assert GoneSofar(old_, new_, ns, done) == GoneDevices(old_, new_, ns) by {
        assert forall dev :: dev in GoneDevices(old_, new_, ns) ==> HasDevice(old_, ns, dev);
      }
    }
  }

  lemma SofarAll(d: Diff, old_: State, new_: State, done: set<(string, string)>)
    requires Sofar(d, old_, new_, done)
    requires forall ns, dev :: HasDevice(old_, ns, dev) ==> (ns, dev) in done
    ensures forall ns :: ExactAt(d.devicesToRemove, ns, GoneDevices(old_, new_, ns))
    ensures Exact(d.addressesToRemove, AddressLoss(old_, new_))
    ensures Exact(d.addressesToAdd, AddressLoss(new_, old_))
    ensures Exact(d.routesToRemove, RouteLoss(old_, new_))
    ensures Exact(d.routesToAdd, RouteLoss(new_, old_))
  {
    GoneAll(d.devicesToRemove, old_, new_, done);
    CollectAll(d.addressesToRemove, AddressLoss(old_, new_), done);
    CollectAll(d.addressesToAdd, AddressLoss(new_, old_), done);
    CollectAll(d.routesToRemove, RouteLoss(old_, new_), done);
    CollectAll(d.routesToAdd, RouteLoss(new_, old_), done);
  }

  /** The loop over the devices of one namespace of the old state. */
  method DiffNamespace(d: Diff, old_: State, new_: State, ns: string,
                       ghost before: set<(string, string)>) returns (r: Diff, ghost done: set<(string, string)>)
    requires ns in old_ && Sofar(d, old_, new_, before)
    requires forall dev :: (ns, dev) !in before
    ensures Sofar(r, old_, new_, done)
    ensures forall n, dev :: (n, dev) in done <==> (n, dev) in before || (n == ns && HasDevice(old_, n, dev))
    ensures r.nsToRemove == d.nsToRemove && r.nsToAdd == d.nsToAdd && r.devicesToAdd == d.devicesToAdd
  {
    r, done := d, before;
    var devs := old_[ns].devices.Keys;
    while devs != {}
      invariant devs <= old_[ns].devices.Keys
      invariant Sofar(r, old_, new_, done)
      invariant r.nsToRemove == d.nsToRemove && r.nsToAdd == d.nsToAdd && r.devicesToAdd == d.devicesToAdd
      invariant forall n, dev :: (n, dev) in done <==>
                  (n, dev) in before || (n == ns && HasDevice(old_, n, dev) && dev !in devs)
    {
      var dev :| dev in devs;
      devs := devs - {dev};
      r := DiffDevice(r, old_, new_, ns, dev, done);
      done := done + {(ns, dev)};
    }
  }

  /** ComputeDiff: the difference is exact and lists nothing twice. */
  method ComputeDiff(old_: State, new_: State) returns (d: Diff)
    ensures IsDiff(d, old_, new_)
  {
    var gone := KeysOnlyIn(old_, new_);
    var fresh_ := KeysOnlyIn(new_, old_);
    d := Diff(map[], map[], map[], gone, map[], map[], map[], fresh_);
    ghost var done: set<(string, string)> := {};
    var nss := old_.Keys;
    while nss != {}
      invariant nss <= old_.Keys
      invariant Sofar(d, old_, new_, done)
      invariant d.nsToRemove == gone && d.nsToAdd == fresh_
      invariant forall n, dev :: (n, dev) in done <==> HasDevice(old_, n, dev) && n !in nss
    {
      var ns :| ns in nss;
      nss := nss - {ns};
      d, done := DiffNamespace(d, old_, new_, ns, done);
    }
    SofarAll(d, old_, new_, done);
    var added := AddedDevices(old_, new_);
    d := d.(devicesToAdd := added);
  }

  method KeysOnlyIn(a: State, b: State) returns (r: seq<string>)
    ensures Lists(r, a.Keys - b.Keys)
  {
    r := [];
    var rest := a.Keys;
    while rest != {}
      invariant rest <= a.Keys
      invariant Lists(r, a.Keys - b.Keys - rest)
    {
      var ns :| ns in rest;
      ghost var seen := a.Keys - b.Keys - rest;
      rest := rest - {ns};
      if ns !in b {
        ListsAppend(r, seen, ns);
        assert seen + {ns} == a.Keys - b.Keys - rest;
        r := r + [ns];
      } else {
        assert seen == a.Keys - b.Keys - rest;
      }
    }
    assert a.Keys - b.Keys - {} == a.Keys - b.Keys;
  }

  method AddedDevices(old_: State, new_: State) returns (m: PerNs)
    ensures forall ns :: ExactAt(m, ns, NewDevices(old_, new_, ns))
  {
    m := map[];
    var nss := new_.Keys;
    while nss != {}
      invariant nss <= new_.Keys
      invariant forall n :: ExactAt(m, n, if n in nss then {} else NewDevices(old_, new_, n))
    {
      var ns :| ns in nss;
      nss := nss - {ns};
      var devs := new_[ns].devices.Keys;
      assert NewDevices(old_, new_, ns) - devs == {};
      while devs != {}
        invariant devs <= new_[ns].devices.Keys
        invariant ExactAt(m, ns, NewDevices(old_, new_, ns) - devs)
        invariant forall n :: n != ns ==> ExactAt(m, n, if n in nss then {} else NewDevices(old_, new_, n))
      {
        var dev :| dev in devs;
        ghost var seen := NewDevices(old_, new_, ns) - devs;
        devs := devs - {dev};
        if !HasDevice(old_, ns, dev) {
          AppendExact(m, ns, dev, seen);
          assert seen + {dev} == NewDevices(old_, new_, ns) - devs;
          m := Append(m, ns, dev);
        } else {
          assert seen == NewDevices(old_, new_, ns) - devs;
        }
      }
      assert NewDevices(old_, new_, ns) - {} == NewDevices(old_, new_, ns);
    }
  }

  // ----- What the difference means -----

  lemma EmptyIff(m: PerDevice, f: Wanted)
    requires Exact(m, f)
    ensures m == map[] <==> forall ns, dev :: f(ns, dev) == {}
  {
    if m == map[] {
      forall ns, dev
        ensures f(ns, dev) == {}
      {
        assert ExactOn(m, ns, dev, f(ns, dev));
      }
    } else {
      var ns :| ns in m;
      var dev :| dev in m[ns];
      assert ExactOn(m, ns, dev, f(ns, dev));
    }
  }

  lemma SetsMeet<T>(a: set<T>, b: set<T>)
    ensures a == b <==> a - b == {} && b - a == {}
  {
  }

  lemma EmptyListIff<T>(xs: seq<T>, s: set<T>)
    requires Lists(xs, s)
    ensures |xs| == 0 <==> s == {}
  {
    if |xs| != 0 {
      assert xs[0] in Elems(xs);
    }
  }

  /** On devices both states have, the address and route sets agree. */
  ghost predicate AgreeOnCommon(old_: State, new_: State) {
    forall ns, dev :: HasDevice(old_, ns, dev) && HasDevice(new_, ns, dev) ==>
      && AddressSet(old_, ns, dev) == AddressSet(new_, ns, dev)
      && RouteSet(old_, ns, dev) == RouteSet(new_, ns, dev)
  }

  lemma NothingLostIff(old_: State, new_: State)
    ensures AgreeOnCommon(old_, new_) <==>
            forall ns, dev :: LostAddresses(old_, new_, ns, dev) == {} && LostAddresses(new_, old_, ns, dev) == {} &&
                              LostRoutes(old_, new_, ns, dev) == {} && LostRoutes(new_, old_, ns, dev) == {}
  {
    forall ns, dev
      ensures (HasDevice(old_, ns, dev) && HasDevice(new_, ns, dev) ==>
               AddressSet(old_, ns, dev) == AddressSet(new_, ns, dev) && RouteSet(old_, ns, dev) == RouteSet(new_, ns, dev))
         <==> (LostAddresses(old_, new_, ns, dev) == {} && LostAddresses(new_, old_, ns, dev) == {} &&
               LostRoutes(old_, new_, ns, dev) == {} && LostRoutes(new_, old_, ns, dev) == {})
    {
      SetsMeet(AddressSet(old_, ns, dev), AddressSet(new_, ns, dev));
      SetsMeet(RouteSet(old_, ns, dev), RouteSet(new_, ns, dev));
    }
  }

  lemma NoDeviceMoveIff(d: Diff, old_: State, new_: State)
    requires IsDiff(d, old_, new_)
    ensures |d.devicesToRemove| == 0 <==> forall ns :: GoneDevices(old_, new_, ns) == {}
    ensures |d.devicesToAdd| == 0 <==> forall ns :: NewDevices(old_, new_, ns) == {}
  {
    if |d.devicesToRemove| == 0 {
      forall ns
        ensures GoneDevices(old_, new_, ns) == {}
      {
        assert ExactAt(d.devicesToRemove, ns, GoneDevices(old_, new_, ns));
      }
    } else {
      var ns :| ns in d.devicesToRemove;
      assert ExactAt(d.devicesToRemove, ns, GoneDevices(old_, new_, ns));
    }
    if |d.devicesToAdd| == 0 {
      forall ns
        ensures NewDevices(old_, new_, ns) == {}
      {
        assert ExactAt(d.devicesToAdd, ns, NewDevices(old_, new_, ns));
      }
    } else {
      var ns :| ns in d.devicesToAdd;
      assert ExactAt(d.devicesToAdd, ns, NewDevices(old_, new_, ns));
    }
  }

  lemma NoDeviceMoves(old_: State, new_: State)
    requires old_.Keys == new_.Keys
    ensures (forall ns :: NewDevices(old_, new_, ns) == {}) <==>
            (forall ns, dev :: HasDevice(new_, ns, dev) ==> HasDevice(old_, ns, dev))
    ensures (forall ns :: GoneDevices(old_, new_, ns) == {}) <==>
            (forall ns, dev :: HasDevice(old_, ns, dev) && !HasDevice(new_, ns, dev) ==>
               old_[ns].devices[dev].createdBy != NETCFG)
  {
    assert forall ns, dev :: HasDevice(new_, ns, dev) && !HasDevice(old_, ns, dev) <==> dev in NewDevices(old_, new_, ns);
    assert forall ns, dev :: dev in GoneDevices(old_, new_, ns) <==>
             HasDevice(old_, ns, dev) && !HasDevice(new_, ns, dev) && old_[ns].devices[dev].createdBy == NETCFG;
  }

  lemma NoLossIff(addresses: PerDevice, routes: PerDevice, a: State, b: State)
    requires Exact(addresses, AddressLoss(a, b)) && Exact(routes, RouteLoss(a, b))
    ensures addresses == map[] <==> forall ns, dev :: LostAddresses(a, b, ns, dev) == {}
    ensures routes == map[] <==> forall ns, dev :: LostRoutes(a, b, ns, dev) == {}
  {
    EmptyIff(addresses, AddressLoss(a, b));
    EmptyIff(routes, RouteLoss(a, b));
    assert forall ns, dev :: AddressLoss(a, b)(ns, dev) == LostAddresses(a, b, ns, dev);
    assert forall ns, dev :: RouteLoss(a, b)(ns, dev) == LostRoutes(a, b, ns, dev);
  }

  lemma NoChangeOnCommonIff(d: Diff, old_: State, new_: State)
    requires IsDiff(d, old_, new_)
    ensures AgreeOnCommon(old_, new_) <==>
            && d.addressesToRemove == map[] && d.addressesToAdd == map[]
            && d.routesToRemove == map[] && d.routesToAdd == map[]
  {
    NoLossIff(d.addressesToRemove, d.routesToRemove, old_, new_);
    NoLossIff(d.addressesToAdd, d.routesToAdd, new_, old_);
    NothingLostIff(old_, new_);
  }

  /** IsEmpty answers exactly whether nothing is left to do: the namespaces match, no
      device is new, every missing device is a system one, and common devices agree. */
  lemma EmptyIffAgree(d: Diff, old_: State, new_: State)
    requires IsDiff(d, old_, new_)
    ensures d.IsEmpty() <==>
            && old_.Keys == new_.Keys
            && (forall ns, dev :: HasDevice(new_, ns, dev) ==> HasDevice(old_, ns, dev))
            && (forall ns, dev :: HasDevice(old_, ns, dev) && !HasDevice(new_, ns, dev) ==>
                  old_[ns].devices[dev].createdBy != NETCFG)
            && AgreeOnCommon(old_, new_)
  {
    EmptyListIff(d.nsToRemove, old_.Keys - new_.Keys);
    EmptyListIff(d.nsToAdd, new_.Keys - old_.Keys);
    SetsMeet(old_.Keys, new_.Keys);
    NoDeviceMoveIff(d, old_, new_);
    NoChangeOnCommonIff(d, old_, new_);
    if old_.Keys == new_.Keys {
      NoDeviceMoves(old_, new_);
    }
  }

  /** The two lists recorded for one device are permutations of each other. */
  ghost predicate SameEntry(m: PerDevice, n: PerDevice, ns: string, dev: string) {
    && (Listed(m, ns, dev) <==> Listed(n, ns, dev))
    && (Listed(m, ns, dev) ==> multiset(m[ns][dev]) == multiset(n[ns][dev]))
  }

  lemma ExactUnique(m: PerDevice, n: PerDevice, f: Wanted, ns: string, dev: string)
    requires Exact(m, f) && Exact(n, f)
    ensures SameEntry(m, n, ns, dev)
  {
    assert ExactOn(m, ns, dev, f(ns, dev)) && ExactOn(n, ns, dev, f(ns, dev));
    if f(ns, dev) != {} {
      ListsPermute(m[ns][dev], n[ns][dev], f(ns, dev));
    }
  }

  /** Exchanging the arguments exchanges the add and remove lists, entry by entry
      and up to order. */
  lemma DiffReverses(d: Diff, e: Diff, a: State, b: State)
    requires IsDiff(d, a, b) && IsDiff(e, b, a)
    ensures multiset(d.nsToAdd) == multiset(e.nsToRemove)
    ensures forall ns, dev :: SameEntry(d.addressesToAdd, e.addressesToRemove, ns, dev)
    ensures forall ns, dev :: SameEntry(d.routesToAdd, e.routesToRemove, ns, dev)
  {
    ListsPermute(d.nsToAdd, e.nsToRemove, b.Keys - a.Keys);
    forall ns, dev
      ensures SameEntry(d.addressesToAdd, e.addressesToRemove, ns, dev)
      ensures SameEntry(d.routesToAdd, e.routesToRemove, ns, dev)
    {
      ExactUnique(d.addressesToAdd, e.addressesToRemove, AddressLoss(b, a), ns, dev);
      ExactUnique(d.routesToAdd, e.routesToRemove, RouteLoss(b, a), ns, dev);
    }
  }

  /** A device that netcfg did not create is listed for removal exactly when its
      whole namespace goes. */
  lemma SystemDeviceListedIff(d: Diff, old_: State, new_: State, ns: string, dev: string)
    requires IsDiff(d, old_, new_)
    requires HasDevice(old_, ns, dev) && old_[ns].devices[dev].createdBy != NETCFG
    ensures (ns in d.devicesToRemove && dev in d.devicesToRemove[ns]) <==> ns !in new_
  {
    assert ExactAt(d.devicesToRemove, ns, GoneDevices(old_, new_, ns));
    if ns !in new_ {
      assert dev in GoneDevices(old_, new_, ns);
    } else {
      assert dev !in GoneDevices(old_, new_, ns);
    }
  }

  predicate ListsEntry(m: PerDevice, ns: string, dev: string, x: string) {
    Listed(m, ns, dev) && x in m[ns][dev]
  }

  lemma ListedExactly(m: PerDevice, f: Wanted, ns: string, dev: string, x: string)
    requires Exact(m, f)
    ensures ListsEntry(m, ns, dev, x) <==> x in f(ns, dev)
  {
    assert ExactOn(m, ns, dev, f(ns, dev));
    if Listed(m, ns, dev) {
      assert x in m[ns][dev] <==> x in Elems(m[ns][dev]);
    }
  }

  /** Every entry of the address and route lists, by the lists of the two states. */
  lemma ListedIff(d: Diff, old_: State, new_: State, ns: string, dev: string, x: string)
    requires IsDiff(d, old_, new_)
    ensures var both := HasDevice(old_, ns, dev) && HasDevice(new_, ns, dev);
            && (ListsEntry(d.addressesToRemove, ns, dev, x) <==>
                both && x in old_[ns].devices[dev].addresses && x !in new_[ns].devices[dev].addresses)
            && (ListsEntry(d.addressesToAdd, ns, dev, x) <==>
                both && x in new_[ns].devices[dev].addresses && x !in old_[ns].devices[dev].addresses)
            && (ListsEntry(d.routesToRemove, ns, dev, x) <==>
                both && x in old_[ns].devices[dev].routes && x !in new_[ns].devices[dev].routes)
            && (ListsEntry(d.routesToAdd, ns, dev, x) <==>
                both && x in new_[ns].devices[dev].routes && x !in old_[ns].devices[dev].routes)
  {
    ListedExactly(d.addressesToRemove, AddressLoss(old_, new_), ns, dev, x);
    ListedExactly(d.addressesToAdd, AddressLoss(new_, old_), ns, dev, x);
    ListedExactly(d.routesToRemove, RouteLoss(old_, new_), ns, dev, x);
    ListedExactly(d.routesToAdd, RouteLoss(new_, old_), ns, dev, x);
  }

  /** And of the device and namespace lists. */
  lemma DevicesListedIff(d: Diff, old_: State, new_: State, ns: string, dev: string)
    requires IsDiff(d, old_, new_)
    ensures ns in d.nsToRemove <==> ns in old_ && ns !in new_
    ensures ns in d.nsToAdd <==> ns in new_ && ns !in old_
    ensures (ns in d.devicesToAdd && dev in d.devicesToAdd[ns]) <==> HasDevice(new_, ns, dev) && !HasDevice(old_, ns, dev)
    ensures (ns in d.devicesToRemove && dev in d.devicesToRemove[ns]) <==>
            HasDevice(old_, ns, dev) && !HasDevice(new_, ns, dev) &&
            (ns !in new_ || old_[ns].devices[dev].createdBy == "netcfg")
  {
    assert ns in d.nsToRemove <==> ns in Elems(d.nsToRemove);
    assert ns in d.nsToAdd <==> ns in Elems(d.nsToAdd);
    assert ExactAt(d.devicesToRemove, ns, GoneDevices(old_, new_, ns));
    assert ExactAt(d.devicesToAdd, ns, NewDevices(old_, new_, ns));
    ExactMember(d.devicesToRemove, ns, GoneDevices(old_, new_, ns), dev);
    ExactMember(d.devicesToAdd, ns, NewDevices(old_, new_, ns), dev);
  }

  lemma ExactMember(m: PerNs, ns: string, s: set<string>, dev: string)
    requires ExactAt(m, ns, s)
    ensures (ns in m && dev in m[ns]) <==> dev in s
  {
    if ns in m {
      assert dev in m[ns] <==> dev in Elems(m[ns]);
    }
  }
}
