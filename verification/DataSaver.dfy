/**
 internal/api/datasaver_watcher.go: the watchdog that switches data saving off
 when the proxy of an exit stops answering. Probe results, whether the device list
 loads and how each switch ends are inputs of a tick; devices change freely
 between ticks. The running service sends through the proxy what it read at its
 last restart, which need not be what is saved.
 */
module DataSaver {

  const FAIL_K := 2

  datatype Device = Device(name: string, exit: string, on: bool)

  /** Switching off can also fail after the configuration was saved, when the service does not restart. */
  datatype Switch = Done | SavedOnly | Refused

  datatype Tick = Tick(listed: bool, up: set<string>, switches: map<string, Switch>)

  type Devices = map<string, Device>
  type Fails = map<string, nat>

  function Count(fails: Fails, exit: string): (n: nat) {
    if exit in fails then fails[exit] else 0
  }

  function SwitchOf(t: Tick, uuid: string): (s: Switch) {
    if uuid in t.switches then t.switches[uuid] else Done
  }

  /** The exits that get probed: those of devices with data saving on. */
  function Watched(devices: Devices): (exits: set<string>) {
    set uuid | uuid in devices && devices[uuid].on :: devices[uuid].exit
  }

  function CountAfter(fails: Fails, exit: string, up: bool): (n: nat) {
    if up || Count(fails, exit) + 1 >= FAIL_K then 0 else Count(fails, exit) + 1
  }

  predicate Reverts(fails: Fails, exit: string, up: bool) {
    !up && Count(fails, exit) + 1 >= FAIL_K
  }

  function AfterSwitch(d: Device, s: Switch): (d': Device) {
    if s.Refused? then d else d.(on := false)
  }

  /** A set of devices switched off, each as far as its own switch goes. */
  function Switched(devices: Devices, uuids: set<string>, t: Tick): (devices': Devices) {
    map uuid | uuid in devices :: if uuid in uuids then AfterSwitch(devices[uuid], SwitchOf(t, uuid)) else devices[uuid]
  }

  lemma SwitchedStep(devices: Devices, uuids: set<string>, t: Tick, uuid: string)
    requires uuid in devices && uuid !in uuids
    ensures uuid in Switched(devices, uuids, t) && Switched(devices, uuids, t)[uuid] == devices[uuid]
    ensures Switched(devices, uuids + {uuid}, t)
         == Switched(devices, uuids, t)[uuid := AfterSwitch(devices[uuid], SwitchOf(t, uuid))]
    ensures SwitchedCleanly(uuids + {uuid}, t)
         == if SwitchOf(t, uuid) == Done then SwitchedCleanly(uuids, t) + {uuid} else SwitchedCleanly(uuids, t)
  {
    hide AfterSwitch, SwitchOf;
  }

  lemma SwitchedNone(devices: Devices, t: Tick, live: set<string>)
    ensures Switched(devices, {}, t) == devices && SwitchedCleanly({}, t) == {}
    ensures Routed(devices, {}, live, devices, live)
  {
    hide AfterSwitch, SwitchOf, On;
  }

  function SwitchedCleanly(uuids: set<string>, t: Tick): (clean: set<string>) {
    set uuid | uuid in uuids && SwitchOf(t, uuid) == Done
  }

  function On(devices: Devices): (uuids: set<string>) {
    set uuid | uuid in devices && devices[uuid].on
  }

  /** What the service routes through the proxy, from `live` to `live'`, while the devices went from `before` to `after`
      and those in `clean` were switched off with a restart. A restart applies all that is saved by then; without one
      nothing changes. */
  predicate Routed(before: Devices, clean: set<string>, live: set<string>, after: Devices, live': set<string>) {
    if clean == {} then live' == live else On(after) <= live' <= On(before) && live' !! clean
  }

  lemma RoutedInTurn(a: Devices, d1: set<string>, l0: set<string>, b: Devices, l1: set<string>,
                     d2: set<string>, c: Devices, l2: set<string>)
    requires Routed(a, d1, l0, b, l1) && Routed(b, d2, l1, c, l2)
    requires On(c) <= On(b) <= On(a) && d1 !! On(b)
    ensures Routed(a, d1 + d2, l0, c, l2)
  {
    hide On;
  }

  lemma SwitchedIsOff(devices: Devices, uuids: set<string>, t: Tick)
    requires uuids <= devices.Keys
    ensures On(Switched(devices, uuids, t)) <= On(devices)
    ensures SwitchedCleanly(uuids, t) !! On(Switched(devices, uuids, t))
  {
  }

  /** The devices of an exit with data saving on. */
  function OnAt(devices: Devices, exit: string): (uuids: set<string>) {
    set uuid | uuid in devices && devices[uuid].on && devices[uuid].exit == exit
  }

  datatype State = State(devices: Devices, fails: Fails)

  /** The state after the exits in `done` were handled. */
  function Handled(st: State, t: Tick, done: set<string>): (st': State) {
    State(map uuid | uuid in st.devices ::
            if st.devices[uuid].on && st.devices[uuid].exit in done
               && Reverts(st.fails, st.devices[uuid].exit, st.devices[uuid].exit in t.up)
            then AfterSwitch(st.devices[uuid], SwitchOf(t, uuid)) else st.devices[uuid],
          map exit | exit in st.fails.Keys + done ::
            if exit in done then CountAfter(st.fails, exit, exit in t.up) else Count(st.fails, exit))
  }

  function AfterTick(st: State, t: Tick): (st': State) {
    if t.listed then Handled(st, t, Watched(st.devices)) else st
  }

  /** The devices switched off with a restart when the exits in `done` were handled. */
  function Clean(st: State, t: Tick, done: set<string>): (uuids: set<string>) {
    set uuid | uuid in st.devices && st.devices[uuid].on && st.devices[uuid].exit in done
             && Reverts(st.fails, st.devices[uuid].exit, st.devices[uuid].exit in t.up) && SwitchOf(t, uuid) == Done
  }

  function CleanOf(st: State, t: Tick): (uuids: set<string>) {
    if t.listed then Clean(st, t, Watched(st.devices)) else {}
  }

  class Watch {
    var devices: Devices
    var fails: Fails
    var live: set<string>

    ghost function View(): (st: State)
      reads this
    {
      State(devices, fails)
    }

    /** One switch of the configuration; only a restart reaches the running service. */
    method SwitchOff(uuid: string, s: Switch)
      requires uuid in devices
      modifies this
      ensures fails == old(fails) && devices == old(devices)[uuid := AfterSwitch(old(devices)[uuid], s)]
      ensures Routed(old(devices), if s == Done then {uuid} else {}, old(live), devices, live)
    {
      if s == Refused { return; }
      devices := devices[uuid := devices[uuid].(on := false)];
      if s == Done {
        live := On(devices);
      }
    }

    /** Switches a list of devices off, one call each; a failed call does not stop the others. */
    method Revert(uuids: set<string>, t: Tick) returns (reverted: set<string>)
      requires uuids <= devices.Keys
      modifies this
      ensures fails == old(fails) && devices == Switched(old(devices), uuids, t)
      ensures reverted == SwitchedCleanly(uuids, t)
      ensures Routed(old(devices), reverted, old(live), devices, live)
    {
      hide AfterSwitch, SwitchOf, On, Switched, SwitchedCleanly, Routed;
      reverted := {};
      var todo := uuids;
      assert uuids - todo == {};
      SwitchedNone(devices, t, live);
      while todo != {}
        invariant todo <= uuids && fails == old(fails)
        invariant devices == Switched(old(devices), uuids - todo, t)
        invariant reverted == SwitchedCleanly(uuids - todo, t)
        invariant Routed(old(devices), reverted, old(live), devices, live)
        decreases |todo|
      {
        var uuid :| uuid in todo;
        SwitchedStep(old(devices), uuids - todo, t, uuid);
        SwitchedIsOff(old(devices), uuids - todo, t);
        SwitchShrinks(devices, uuid, SwitchOf(t, uuid));
        assert uuids - (todo - {uuid}) == uuids - todo + {uuid};
        var s := SwitchOf(t, uuid);
        ghost var mid, routed := devices, live;
        SwitchOff(uuid, s);
        RoutedInTurn(old(devices), reverted, old(live), mid, routed, if s == Done then {uuid} else {}, devices, live);
        assert reverted + {} == reverted;
        if s == Done {
          reverted := reverted + {uuid};
        }
        todo := todo - {uuid};
      }
      assert uuids - todo == uuids;
    }

    /** One exit: a success resets its count, the second failure in a row switches its devices off and resets it. */
    method HandleExit(exit: string, uuids: set<string>, t: Tick) returns (reverted: set<string>)
      requires uuids <= devices.Keys
      modifies this
      ensures fails == old(fails)[exit := CountAfter(old(fails), exit, exit in t.up)]
      ensures devices == if Reverts(old(fails), exit, exit in t.up) then Switched(old(devices), uuids, t) else old(devices)
      ensures reverted == if Reverts(old(fails), exit, exit in t.up) then SwitchedCleanly(uuids, t) else {}
      ensures Routed(old(devices), reverted, old(live), devices, live)
    {
      hide Switched, SwitchedCleanly;
      reverted := {};
      if exit in t.up {
        fails := fails[exit := 0];
        return;
      }
      var n := Count(fails, exit) + 1;
      fails := fails[exit := n];
      if n < FAIL_K { return; }
      reverted := Revert(uuids, t);
      fails := fails[exit := 0];
    }

    method RunTick(t: Tick)
      modifies this
      ensures View() == AfterTick(old(View()), t)
      ensures Routed(old(devices), CleanOf(old(View()), t), old(live), devices, live)
    {
      hide Reverts, CountAfter, Handled, Switched, On, SwitchedCleanly, Clean;
      if !t.listed { return; }
      var listing := devices;
      var exits := Watched(listing);
      var todo := exits;
      assert exits - todo == {};
      HandledNone(View(), t);
      CleanNone(View(), t);
      while todo != {}
        invariant todo <= exits
        invariant View() == Handled(old(View()), t, exits - todo)
        invariant Routed(old(devices), Clean(old(View()), t, exits - todo), old(live), devices, live)
        decreases |todo|
      {
        var exit :| exit in todo;
        var uuids := OnAt(listing, exit);
        HandledStep(old(View()), t, exits - todo, exit);
        assert exits - (todo - {exit}) == exits - todo + {exit};
        CleanStep(old(View()), t, exits - todo, exit);
        ghost var mid, routed := devices, live;
        var reverted := HandleExit(exit, uuids, t);
        SwitchedIsOff(mid, uuids, t);
        RoutedInTurn(old(devices), Clean(old(View()), t, exits - todo), old(live), mid, routed, reverted, devices, live);
        todo := todo - {exit};
      }
      assert exits - todo == exits;
    }
  }

  lemma HandledNone(st: State, t: Tick)
    ensures Handled(st, t, {}) == st
  {
  }

  lemma CleanNone(st: State, t: Tick)
    ensures Clean(st, t, {}) == {}
  {
  }

  lemma SwitchShrinks(devices: Devices, uuid: string, s: Switch)
    requires uuid in devices
    ensures var devices' := devices[uuid := AfterSwitch(devices[uuid], s)];
      && On(devices') <= On(devices) && (s.Refused? ==> devices' == devices) && (s.Done? ==> uuid !in On(devices'))
  {
  }

  lemma CleanStep(st: State, t: Tick, done: set<string>, exit: string)
    requires exit !in done
    ensures var before := Handled(st, t, done);
      && OnAt(st.devices, exit) <= before.devices.Keys
      && Clean(st, t, done + {exit})
         == Clean(st, t, done)
            + (if Reverts(before.fails, exit, exit in t.up) then SwitchedCleanly(OnAt(st.devices, exit), t) else {})
      && On(before.devices) <= On(st.devices) && Clean(st, t, done) !! On(before.devices)
  {
    hide SwitchOf;
    var before := Handled(st, t, done);
    assert Count(before.fails, exit) == Count(st.fails, exit);
  }

  /** Exits are independent: handling one more changes its own count and devices only. */
  lemma HandledStep(st: State, t: Tick, done: set<string>, exit: string)
    requires exit !in done
    ensures var before, after := Handled(st, t, done), Handled(st, t, done + {exit});
      && before.devices.Keys == st.devices.Keys
      && after.fails == before.fails[exit := CountAfter(before.fails, exit, exit in t.up)]
      && after.devices == if Reverts(before.fails, exit, exit in t.up)
                          then Switched(before.devices, OnAt(st.devices, exit), t) else before.devices
  {
    hide AfterSwitch, SwitchOf;
    var before, after := Handled(st, t, done), Handled(st, t, done + {exit});
    assert Count(before.fails, exit) == Count(st.fails, exit);
    assert after.fails == before.fails[exit := CountAfter(before.fails, exit, exit in t.up)];
  }

  // ---------------------------------------------------------------- whole runs

  datatype Op = Probe(t: Tick) | Edit(devices: Devices)

  function Next(st: State, op: Op): (st': State) {
    match op
    case Probe(t) => AfterTick(st, t)
    case Edit(devices) => st.(devices := devices)
  }

  function Run(devices: Devices, ops: seq<Op>): (st: State) {
    if ops == [] then State(devices, map[]) else Next(Run(devices, ops[..|ops| - 1]), ops[|ops| - 1])
  }

  predicate Probes(st: State, op: Op, exit: string) {
    op.Probe? && op.t.listed && exit in Watched(st.devices)
  }

  /** How many probes of an exit have failed since the last one that succeeded. */
  function Streak(devices: Devices, ops: seq<Op>, exit: string): (n: nat) {
    if ops == [] then 0
    else
      var before, op := ops[..|ops| - 1], ops[|ops| - 1];
      var n := Streak(devices, before, exit);
      if !Probes(Run(devices, before), op, exit) then n else if exit in op.t.up then 0 else n + 1
  }

  lemma CountNext(st: State, op: Op, exit: string)
    ensures Count(Next(st, op).fails, exit)
         == if Probes(st, op, exit) then CountAfter(st.fails, exit, exit in op.t.up) else Count(st.fails, exit)
  {
    hide CountAfter, Watched, Reverts;
  }

  /** In every run the count of an exit stays below FAIL_K after each step and never exceeds the failed probes it has
      actually seen in a row. */
  lemma {:induction false} CountIsBacked(devices: Devices, ops: seq<Op>, exit: string)
    ensures Count(Run(devices, ops).fails, exit) < 2
    ensures Count(Run(devices, ops).fails, exit) <= Streak(devices, ops, exit)
  {
    if ops != [] {
      hide Next;
      var before, op := ops[..|ops| - 1], ops[|ops| - 1];
      CountIsBacked(devices, before, exit);
      CountNext(Run(devices, before), op, exit);
    }
  }

  /** Only exits with a device on are probed and counted, and without a device list nothing happens at all. */
  lemma UnwatchedIsUntouched(st: State, t: Tick, exit: string)
    ensures (forall uuid | uuid in st.devices && st.devices[uuid].on :: st.devices[uuid].exit != exit) ==>
              Count(AfterTick(st, t).fails, exit) == Count(st.fails, exit)
    ensures !t.listed ==> AfterTick(st, t) == st
  {
    hide CountAfter, Reverts;
    CountNext(st, Probe(t), exit);
  }

  lemma DeviceNext(st: State, t: Tick, uuid: string)
    requires uuid in st.devices
    ensures var d := st.devices[uuid];
      && uuid in AfterTick(st, t).devices
      && AfterTick(st, t).devices[uuid]
         == if t.listed && d.on && Reverts(st.fails, d.exit, d.exit in t.up) then AfterSwitch(d, SwitchOf(t, uuid)) else d
  {
    hide Reverts, AfterSwitch, CountAfter;
    if st.devices[uuid].on {
      assert st.devices[uuid].exit in Watched(st.devices);
    }
  }

  /** A device is switched off by a tick only when its exit has failed at least FAIL_K probes, this one included,
      without a success between them. */
  lemma RevertNeedsTwoFailures(devices: Devices, ops: seq<Op>, t: Tick, uuid: string)
    requires var st := Run(devices, ops); uuid in st.devices && st.devices[uuid].on
    requires !AfterTick(Run(devices, ops), t).devices[uuid].on
    ensures Streak(devices, ops + [Probe(t)], Run(devices, ops).devices[uuid].exit) >= 2
  {
    var st := Run(devices, ops);
    var exit := st.devices[uuid].exit;
    DeviceNext(st, t, uuid);
    CountIsBacked(devices, ops, exit);
    assert (ops + [Probe(t)])[..|ops|] == ops;
    assert exit in Watched(st.devices);
  }

  /** After any run: when switching off is not refused, no device stays on through two failing ticks in a row, and
      nothing but its data saving is changed; and when the service restarts with it, its traffic has left the proxy. */
  lemma NoDeviceStaysOnThroughTwoFailures(devices: Devices, ops: seq<Op>, t1: Tick, t2: Tick, uuid: string,
                                          live: set<string>, live1: set<string>, live2: set<string>)
    requires var st := Run(devices, ops);
      && uuid in st.devices && st.devices[uuid].on
      && st.devices[uuid].exit !in t1.up && st.devices[uuid].exit !in t2.up
      && TickRoutes(st, t1, live, live1) && TickRoutes(AfterTick(st, t1), t2, live1, live2)
    requires t1.listed && t2.listed && SwitchOf(t1, uuid) != Refused && SwitchOf(t2, uuid) != Refused
    ensures var after := AfterTick(AfterTick(Run(devices, ops), t1), t2);
      uuid in after.devices && after.devices[uuid] == Run(devices, ops).devices[uuid].(on := false)
    ensures SwitchOf(t1, uuid) == SwitchOf(t2, uuid) == Done ==> uuid !in live2
  {
    hide AfterTick, Run, Reverts, AfterSwitch;
    var st := Run(devices, ops);
    var exit := st.devices[uuid].exit;
    var mid := AfterTick(st, t1);
    DeviceNext(st, t1, uuid);
    DeviceNext(mid, t2, uuid);
    CountNext(st, Probe(t1), exit);
    assert exit in Watched(st.devices);
    TwoFailures(st.fails, mid.fails, exit);
    SwitchEnds(st.devices[uuid], SwitchOf(t1, uuid));
    SwitchEnds(st.devices[uuid], SwitchOf(t2, uuid));
  }

  lemma TwoFailures(fails: Fails, fails': Fails, exit: string)
    requires Count(fails', exit) == CountAfter(fails, exit, false)
    ensures Reverts(fails, exit, false) || Reverts(fails', exit, false)
  {
  }

  lemma SwitchEnds(d: Device, s: Switch)
    requires !s.Refused?
    ensures AfterSwitch(d, s) == d.(on := false)
  {
  }

  /** What a tick does to the running service. */
  predicate TickRoutes(st: State, t: Tick, live: set<string>, live': set<string>) {
    Routed(st.devices, CleanOf(st, t), live, AfterTick(st, t).devices, live')
  }

  function AfterTicks(st: State, ts: seq<Tick>): (st': State) {
    if ts == [] then st else AfterTick(AfterTicks(st, ts[..|ts| - 1]), ts[|ts| - 1])
  }

  ghost predicate TicksRoute(st: State, ts: seq<Tick>, lives: seq<set<string>>) {
    && |lives| == |ts| + 1
    && (ts == [] ||
        var n := |ts| - 1;
        TicksRoute(st, ts[..n], lives[..n + 1]) && TickRoutes(AfterTicks(st, ts[..n]), ts[n], lives[n], lives[n + 1]))
  }

  /** Some tick switched a device off with a restart. */
  predicate AnyClean(st: State, ts: seq<Tick>) {
    ts != [] && var n := |ts| - 1; AnyClean(st, ts[..n]) || CleanOf(AfterTicks(st, ts[..n]), ts[n]) != {}
  }

  /** A device that was saved as off while the service did not restart is no longer watched: through any ticks it keeps
      going through the proxy of its exit, dead or not, if and only if none of them restarts the service for a device. */
  lemma {:induction false} SavedOnlyStaysRouted(st: State, ts: seq<Tick>, lives: seq<set<string>>, uuid: string)
    requires uuid in st.devices && !st.devices[uuid].on
    requires TicksRoute(st, ts, lives) && uuid in lives[0]
    ensures var after := AfterTicks(st, ts); uuid in after.devices && !after.devices[uuid].on
    ensures uuid in lives[|ts|] <==> !AnyClean(st, ts)
  {
    hide AfterTick, CleanOf;
    if ts != [] {
      var n := |ts| - 1;
      SavedOnlyStaysRouted(st, ts[..n], lives[..n + 1], uuid);
      DeviceNext(AfterTicks(st, ts[..n]), ts[n], uuid);
    }
  }
}
