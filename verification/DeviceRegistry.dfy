/** The devices of the daemon: devicesManager.cpp, with the part of keyboardDriver.cpp that opens and
    closes a device. One driver is loaded, as the daemon does. */
module DeviceRegistry {

  type DeviceID = string

  /** What is known of a plugged device; `name` stands for everything but the driver's ID. */
  datatype Device = Device(driverID: nat, name: string)

  type Devices = map<DeviceID, Device>

  /** Which devices fail to be brought up: no memory for the device, USB requests that fail, threads that
      can't be spawned. */
  datatype Failures = Failures(noMemory: set<DeviceID>, noOpen: set<DeviceID>, noThread: set<DeviceID>) {
    function All(): set<DeviceID> { noMemory + noOpen + noThread }
  }

  /** The containers of the manager, and the devices its driver has initialized. */
  datatype Registry = Registry(
    driverID: nat,
    detected: Devices,
    started: Devices,
    stopped: Devices,
    unplugged: Devices,
    sleeping: set<DeviceID>,
    initialized: set<DeviceID>)

  function Only(m: Devices, ids: set<DeviceID>): (r: Devices)
    ensures r.Keys == m.Keys * ids
    ensures forall id | id in r :: r[id] == m[id]
  {
    map id | id in m && id in ids :: m[id]
  }

  /** No device is both started and stopped, the driver knows the started ones, and all of them are the
      driver's. */
  predicate Valid(s: Registry) {
    && s.started.Keys !! s.stopped.Keys
    && s.started.Keys <= s.initialized
    && (forall id | id in s.started :: s.started[id].driverID == s.driverID)
    && (forall id | id in s.stopped :: s.stopped[id].driverID == s.driverID)
  }

  function Known(s: Registry): set<DeviceID> {
    s.started.Keys + s.stopped.Keys + s.unplugged.Keys
  }

  // ----- the driver -----

  function Initialize(known: set<DeviceID>, f: Failures, id: DeviceID): set<DeviceID> {
    if id in f.noMemory then known else known + {id}
  }

  /** An open that fails leaves the device initialized, unless it is the threads that fail. */
  function Open(known: set<DeviceID>, f: Failures, id: DeviceID): (set<DeviceID>, bool) {
    if id !in known || id in f.noOpen then (known, false)
    else if id in f.noThread then (known - {id}, false)
    else (known, true)
  }

  function BringUp(known: set<DeviceID>, f: Failures, id: DeviceID): (set<DeviceID>, bool) {
    Open(Initialize(known, f, id), f, id)
  }

  // ----- the operations, one device at a time -----

  function InitializeOne(s: Registry, open: bool, f: Failures, id: DeviceID): Registry
    requires id in s.detected
  {
    var d := s.detected[id];
    if id in s.started || id in s.stopped || d.driverID != s.driverID then s
    else if open then
      var (known, ok) := BringUp(s.initialized, f, id);
      if ok then s.(started := s.started[id := d], initialized := known) else s.(initialized := known)
    else s.(stopped := s.stopped[id := d], initialized := Initialize(s.initialized, f, id))
  }

  function Start(s: Registry, id: DeviceID, f: Failures): (Registry, bool) {
    if id !in s.stopped || s.stopped[id].driverID != s.driverID then (s, false)
    else
      var (known, ok) := BringUp(s.initialized, f, id);
      if ok then
        (s.(started := s.started[id := s.stopped[id]], stopped := s.stopped - {id}, initialized := known), true)
      else (s.(initialized := known), false)
  }

  function Stop(s: Registry, id: DeviceID): (Registry, bool) {
    if id !in s.started || s.started[id].driverID != s.driverID then (s, false)
    else
      (s.(stopped := s.stopped[id := s.started[id]], started := s.started - {id},
          initialized := s.initialized - {id}), true)
  }

  // ----- and on all devices at once -----

  /** Does a device that is brought up open, given whether the driver knows it? */
  predicate Opens(isKnown: bool, f: Failures, id: DeviceID) {
    (isKnown || id !in f.noMemory) && id !in f.noOpen && id !in f.noThread
  }

  /** The devices, of some that are brought up, that open. */
  function Opening(known: set<DeviceID>, f: Failures, ids: set<DeviceID>): set<DeviceID> {
    set id | id in ids && Opens(id in known, f, id)
  }

  /** What the driver knows once some devices were brought up. */
  function KnownAfter(known: set<DeviceID>, f: Failures, ids: set<DeviceID>): set<DeviceID> {
    (known - ids) +
    set id | id in ids && (id in known || id !in f.noMemory) && (id in f.noOpen || id !in f.noThread)
  }

  /** The detected devices that are neither started nor stopped. */
  function NewDevices(s: Registry): set<DeviceID> {
    set id | id in s.detected && id !in s.started && id !in s.stopped && s.detected[id].driverID == s.driverID
  }

  /** Brings up some of the new devices, or leaves them stopped. */
  function InitializeSome(s: Registry, open: bool, f: Failures, ids: set<DeviceID>): Registry {
    var news := NewDevices(s) * ids;
    if open then
      s.(started := s.started + Only(s.detected, Opening(s.initialized, f, news)),
         initialized := KnownAfter(s.initialized, f, news))
    else
      s.(stopped := s.stopped + Only(s.detected, news), initialized := s.initialized + (news - f.noMemory))
  }

  function StopSome(s: Registry, ids: set<DeviceID>): Registry {
    s.(started := s.started - ids, stopped := s.stopped + Only(s.started, ids),
       initialized := s.initialized - (s.started.Keys * ids))
  }

  function StartSome(s: Registry, ids: set<DeviceID>, f: Failures): Registry {
    var opening := Opening(s.initialized, f, ids * s.stopped.Keys);
    s.(started := s.started + Only(s.stopped, opening), stopped := s.stopped - opening,
       initialized := KnownAfter(s.initialized, f, ids * s.stopped.Keys))
  }

  function InitializeAll(s: Registry, open: bool, f: Failures): Registry {
    InitializeSome(s, open, f, s.detected.Keys).(detected := map[])
  }

  function Sleep(s: Registry): Registry {
    StopSome(s, s.started.Keys).(sleeping := s.started.Keys)
  }

  function Resume(s: Registry, f: Failures): Registry {
    StartSome(s, s.sleeping, f).(sleeping := {})
  }

  /** Moves the started devices that are not detected to the unplugged ones. */
  function UnplugStarted(s: Registry, gone: set<DeviceID>): Registry {
    s.(started := s.started - gone, unplugged := s.unplugged + Only(s.started, gone),
       initialized := s.initialized - gone)
  }

  function UnplugStopped(s: Registry, gone: set<DeviceID>): Registry {
    s.(stopped := s.stopped - gone, unplugged := s.unplugged + Only(s.stopped, gone))
  }

  function Unplug(s: Registry): Registry {
    s.(started := Only(s.started, s.detected.Keys),
       stopped := Only(s.stopped, s.detected.Keys),
       unplugged := s.unplugged + (s.started - s.detected.Keys) + (s.stopped - s.detected.Keys),
       initialized := s.initialized - (s.started.Keys - s.detected.Keys),
       detected := map[])
  }

  /** No device was found earlier at this ID. */
  predicate FirstAtID(found: seq<(DeviceID, Device)>, i: nat)
    requires i < |found|
  {
    forall j | 0 <= j < i :: found[j].0 != found[i].0
  }

  lemma FirstBehind(found: seq<(DeviceID, Device)>)
    requires found != []
    ensures forall i | 0 < i < |found| && FirstAtID(found, i) ::
              FirstAtID(found[1..], i - 1) && found[i].0 != found[0].0
  {
    forall i | 0 < i < |found| && FirstAtID(found, i)
      ensures FirstAtID(found[1..], i - 1) && found[i].0 != found[0].0
    {
      assert forall j | 0 <= j < i - 1 :: found[1..][j] == found[j + 1];
    }
  }

  /** What a search adds to the detected devices: the first device found at an ID is kept. */
  function Detect(detected: Devices, found: seq<(DeviceID, Device)>): (r: Devices)
    ensures forall id :: id in r <==> id in detected || exists d :: (id, d) in found
    ensures forall id | id in detected :: r[id] == detected[id]
    ensures forall i | 0 <= i < |found| && found[i].0 !in detected && FirstAtID(found, i) :: r[found[i].0] == found[i].1
    decreases found
  {
    if found == [] then detected
    else
      assert found == [found[0]] + found[1..];
      FirstBehind(found);
      Detect(if found[0].0 in detected then detected else detected[found[0].0 := found[0].1], found[1..])
  }

  // ----- the devices can be taken one at a time, in any order -----

  lemma OnlyStep(m: Devices, ids: set<DeviceID>, id: DeviceID, into: Devices)
    requires id in m
    ensures Only(m, ids + {id}) == Only(m, ids)[id := m[id]]
    ensures into + Only(m, ids + {id}) == (into + Only(m, ids))[id := m[id]]
  {
  }

  lemma WithoutStep(m: Devices, ids: set<DeviceID>, id: DeviceID)
    ensures m - (ids + {id}) == m - ids - {id}
  {
  }

  lemma InitializeStep(s: Registry, open: bool, f: Failures, ids: set<DeviceID>, id: DeviceID)
    requires id in s.detected && id !in ids
    ensures InitializeOne(InitializeSome(s, open, f, ids), open, f, id) == InitializeSome(s, open, f, ids + {id})
  {
    var known, news := s.initialized, NewDevices(s) * ids;
    if id in NewDevices(s) {
      assert NewDevices(s) * (ids + {id}) == news + {id};
      BringUpStep(known, f, news, id);
      OnlyStep(s.detected, news, id, s.stopped);
      OnlyStep(s.detected, Opening(known, f, news), id, s.started);
      assert id !in s.started && id !in s.stopped && s.detected[id].driverID == s.driverID;
      hide NewDevices, Opening, KnownAfter, BringUp, Only, Initialize;
    } else {
      assert NewDevices(s) * (ids + {id}) == news;
      assert id in s.started || id in s.stopped || s.detected[id].driverID != s.driverID;
      hide NewDevices, Opening, KnownAfter, BringUp, Only, Initialize;
    }
  }

  lemma BringUpStep(known: set<DeviceID>, f: Failures, ids: set<DeviceID>, id: DeviceID)
    requires id !in ids
    ensures var r := BringUp(KnownAfter(known, f, ids), f, id);
      && KnownAfter(known, f, ids + {id}) == r.0
      && Opening(known, f, ids + {id}) == if r.1 then Opening(known, f, ids) + {id} else Opening(known, f, ids)
    ensures id !in Opening(known, f, ids)
    ensures Initialize(known + (ids - f.noMemory), f, id) == known + (ids + {id} - f.noMemory)
  {
    assert id in KnownAfter(known, f, ids) <==> id in known;
  }

  lemma StartStep(s: Registry, ids: set<DeviceID>, f: Failures, id: DeviceID)
    requires Valid(s) && id !in ids
    ensures Start(StartSome(s, ids, f), id, f).0 == StartSome(s, ids + {id}, f)
  {
    var known, news := s.initialized, ids * s.stopped.Keys;
    if id in s.stopped {
      var opening := Opening(known, f, news);
      assert (ids + {id}) * s.stopped.Keys == news + {id};
      BringUpStep(known, f, news, id);
      OnlyStep(s.stopped, opening, id, s.started);
      WithoutStep(s.stopped, opening, id);
      assert s.stopped[id].driverID == s.driverID;
      assert id in s.stopped - opening;
      hide Valid, Opening, KnownAfter, BringUp, Only, Initialize;
    } else {
      assert (ids + {id}) * s.stopped.Keys == news;
      hide Valid, Opening, KnownAfter, BringUp, Only, Initialize;
    }
  }

  lemma StopStep(s: Registry, ids: set<DeviceID>, id: DeviceID)
    requires Valid(s) && id !in ids
    ensures Stop(StopSome(s, ids), id).0 == StopSome(s, ids + {id})
    ensures Stop(StopSome(s, ids), id).1 == (id in s.started)
  {
    if id in s.started {
      OnlyStep(s.started, ids, id, s.stopped);
      WithoutStep(s.started, ids, id);
      assert s.started[id].driverID == s.driverID;
      assert s.initialized - s.started.Keys * ids - {id} == s.initialized - s.started.Keys * (ids + {id});
      hide Valid, Only;
    } else {
      assert Only(s.started, ids + {id}) == Only(s.started, ids);
      assert s.started - (ids + {id}) == s.started - ids;
      assert s.started.Keys * (ids + {id}) == s.started.Keys * ids;
      hide Valid, Only;
    }
  }

  lemma NoDevice(m: Devices, m': Devices, known: set<DeviceID>, f: Failures)
    ensures m + Only(m', {}) == m && m - {} == m
    ensures KnownAfter(known, f, {}) == known && Opening(known, f, {}) == {}
  {
  }

  lemma NoneInitialized(s: Registry, open: bool, f: Failures)
    ensures InitializeSome(s, open, f, {}) == s
  {
    assert NewDevices(s) * {} == {};
    NoDevice(s.started, s.detected, s.initialized, f);
    NoDevice(s.stopped, s.detected, s.initialized, f);
    hide Only, KnownAfter, Opening, NewDevices;
  }

  lemma NoneMoved(s: Registry, f: Failures)
    ensures StopSome(s, {}) == s && StartSome(s, {}, f) == s
    ensures UnplugStarted(s, {}) == s && UnplugStopped(s, {}) == s
  {
    assert {} * s.stopped.Keys == {} && s.started.Keys * {} == {};
    NoDevice(s.started, s.stopped, s.initialized, f);
    NoDevice(s.stopped, s.started, s.initialized, f);
    NoDevice(s.unplugged, s.started, s.initialized, f);
    NoDevice(s.unplugged, s.stopped, s.initialized, f);
    hide Only, KnownAfter, Opening;
  }

  lemma UnplugStartedStep(s: Registry, gone: set<DeviceID>, id: DeviceID)
    requires Valid(s) && id in s.started && id !in gone
    ensures var s1 := Stop(UnplugStarted(s, gone), id).0;
      && Stop(UnplugStarted(s, gone), id).1 && id in s1.stopped
      && UnplugStarted(s, gone + {id}) ==
         s1.(unplugged := s1.unplugged[id := s1.stopped[id]], stopped := s1.stopped - {id})
  {
    OnlyStep(s.started, gone, id, s.unplugged);
    WithoutStep(s.started, gone, id);
    var d := s.started[id];
    assert d.driverID == s.driverID && id !in s.stopped;
    assert s.stopped[id := d] - {id} == s.stopped;
    hide Valid, Only;
  }

  lemma UnplugStoppedStep(s: Registry, gone: set<DeviceID>, id: DeviceID)
    requires id in s.stopped && id !in gone
    ensures var s1 := UnplugStopped(s, gone);
      && id in s1.stopped
      && UnplugStopped(s, gone + {id}) ==
         s1.(unplugged := s1.unplugged[id := s1.stopped[id]], stopped := s1.stopped - {id})
  {
    OnlyStep(s.stopped, gone, id, s.unplugged);
    WithoutStep(s.stopped, gone, id);
    hide Only;
  }

  lemma UnplugBoth(s: Registry)
    ensures Unplug(s) == UnplugStopped(UnplugStarted(s, s.started.Keys - s.detected.Keys),
                                       s.stopped.Keys - s.detected.Keys).(detected := map[])
    ensures var s1 := UnplugStarted(s, s.started.Keys - s.detected.Keys);
      s1.stopped == s.stopped && s1.detected == s.detected && s1.driverID == s.driverID
    ensures var s' := Unplug(s);
      && s'.started == Only(s.started, s.detected.Keys) && s'.stopped == Only(s.stopped, s.detected.Keys)
      && s'.sleeping == s.sleeping
  {
    assert s.started - s.detected.Keys == Only(s.started, s.started.Keys - s.detected.Keys);
    assert s.stopped - s.detected.Keys == Only(s.stopped, s.stopped.Keys - s.detected.Keys);
    assert Only(s.started, s.detected.Keys) == s.started - (s.started.Keys - s.detected.Keys);
    assert Only(s.stopped, s.detected.Keys) == s.stopped - (s.stopped.Keys - s.detected.Keys);
  }

  // ----- what the operations keep -----

  lemma InitializeKeeps(s: Registry, open: bool, f: Failures, ids: set<DeviceID>)
    requires Valid(s)
    ensures Valid(InitializeSome(s, open, f, ids)) && Known(s) <= Known(InitializeSome(s, open, f, ids))
  {
  }

  lemma StopKeeps(s: Registry, ids: set<DeviceID>)
    requires Valid(s)
    ensures Valid(StopSome(s, ids)) && Known(StopSome(s, ids)) == Known(s)
  {
  }

  lemma StartKeeps(s: Registry, ids: set<DeviceID>, f: Failures)
    requires Valid(s)
    ensures Valid(StartSome(s, ids, f)) && Known(StartSome(s, ids, f)) == Known(s)
  {
  }

  lemma UnplugStartedKeeps(s: Registry, gone: set<DeviceID>)
    requires Valid(s)
    ensures Valid(UnplugStarted(s, gone))
  {
  }

  lemma UnplugKeeps(s: Registry)
    requires Valid(s)
    ensures Valid(Unplug(s)) && Known(Unplug(s)) == Known(s)
  {
  }

  lemma ResumeKeeps(s: Registry, f: Failures)
    requires Valid(s)
    ensures Valid(Resume(s, f)) && Known(Resume(s, f)) == Known(s)
  {
    StartKeeps(s, s.sleeping, f);
  }

  lemma SleepKeeps(s: Registry)
    requires Valid(s)
    ensures Valid(Sleep(s)) && Known(Sleep(s)) == Known(s)
  {
    StopKeeps(s, s.started.Keys);
  }

  /** Noting the devices that will sleep before they are stopped, or after, is the same. */
  lemma SleepIsAll(s: Registry, s1: Registry)
    requires s1 == s.(sleeping := s.started.Keys)
    ensures StopSome(s1, s.started.Keys) == Sleep(s) && Sleep(s).started == map[]
  {
  }

  lemma OneIsSome(s: Registry, id: DeviceID, f: Failures)
    requires Valid(s)
    ensures Start(s, id, f).0 == StartSome(s, {id}, f) && Stop(s, id).0 == StopSome(s, {id})
  {
    NoneMoved(s, f);
    StartStep(s, {}, f, id);
    StopStep(s, {}, id);
    assert {} + {id} == {id};
  }

  // ----- where each device ends -----

  /** A container after some devices were put in it, with what is known of them. */
  ghost predicate Added(before: Devices, after: Devices, ids: set<DeviceID>, from: Devices)
    requires ids <= from.Keys
  {
    && (forall id :: id in after <==> id in before || id in ids)
    && (forall id | id in ids :: after[id] == from[id])
    && forall id | id in before && id !in ids :: after[id] == before[id]
  }

  /** Where the detected devices end: those of the driver that are neither started nor stopped are started if
      they are to be opened and nothing fails, and are not kept if something does; they are stopped if they
      are not to be opened. No other device moves. */
  ghost predicate BroughtUp(s: Registry, s': Registry, open: bool, f: Failures) {
    && (forall id :: id in s'.started <==>
                       id in s.started ||
                       (open && IsNew(s, id) && (id in s.initialized || id !in f.noMemory)
                        && id !in f.noOpen && id !in f.noThread))
    && (forall id :: id in s'.stopped <==> id in s.stopped || (!open && IsNew(s, id)))
    && (forall id | id in s'.started :: s'.started[id] == (if id in s.started then s.started else s.detected)[id])
    && (forall id | id in s'.stopped :: s'.stopped[id] == (if id in s.stopped then s.stopped else s.detected)[id])
    && (forall id :: id in s'.initialized <==>
                       if !IsNew(s, id) then id in s.initialized
                       else (id in s.initialized || id !in f.noMemory)
                            && (open ==> id in f.noOpen || id !in f.noThread))
    && s'.unplugged == s.unplugged && s'.sleeping == s.sleeping && s'.detected == map[]
  }

  /** A detected device of the driver that is neither started nor stopped. */
  predicate IsNew(s: Registry, id: DeviceID) {
    id in s.detected && id !in s.started && id !in s.stopped && s.detected[id].driverID == s.driverID
  }

  lemma InitializeOutcome(s: Registry, open: bool, f: Failures)
    ensures BroughtUp(s, InitializeAll(s, open, f), open, f)
  {
    hide *;
    if open {
      OpenedOutcome(s, f);
    } else {
      ListedOutcome(s, f);
    }
  }

  lemma NewExactly(s: Registry)
    ensures NewDevices(s) * s.detected.Keys == NewDevices(s) && NewDevices(s) <= s.detected.Keys
    ensures forall id :: id in NewDevices(s) <==> IsNew(s, id)
    ensures forall id | IsNew(s, id) :: id !in s.started && id !in s.stopped
  {
  }

  lemma OpenedOutcome(s: Registry, f: Failures)
    ensures BroughtUp(s, InitializeAll(s, true, f), true, f)
  {
    NewExactly(s);
    hide NewDevices, Only, IsNew;
  }

  lemma ListedOutcome(s: Registry, f: Failures)
    ensures BroughtUp(s, InitializeAll(s, false, f), false, f)
  {
    NewExactly(s);
    hide NewDevices, Only, IsNew;
  }

  /** The same for one device. */
  lemma InitializeOneOutcome(s: Registry, open: bool, f: Failures, id: DeviceID)
    requires id in s.detected && id !in s.started && id !in s.stopped && s.detected[id].driverID == s.driverID
    ensures var s' := InitializeOne(s, open, f, id);
      && (id in s'.started <==>
            open && (id in s.initialized || id !in f.noMemory) && id !in f.noOpen && id !in f.noThread)
      && (id in s'.stopped <==> !open)
      && (id in s'.started ==> s'.started == s.started[id := s.detected[id]])
      && (id !in s'.started ==> s'.started == s.started)
      && s'.stopped == if open then s.stopped else s.stopped[id := s.detected[id]]
  {
  }

  /** A stopped device that is started by hand moves to the started ones exactly if nothing fails. */
  lemma StartOutcome(s: Registry, id: DeviceID, f: Failures)
    requires Valid(s)
    ensures var (s', ok) := Start(s, id, f);
      && (ok <==> id in s.stopped && (id in s.initialized || id !in f.noMemory) && id !in f.noOpen && id !in f.noThread)
      && s' == s.(started := if ok then s.started[id := s.stopped[id]] else s.started,
                  stopped := if ok then s.stopped - {id} else s.stopped,
                  initialized := s'.initialized)
      && (id in s.stopped ==>
            (id in s'.initialized <==>
               (id in s.initialized || id !in f.noMemory) && (id in f.noOpen || id !in f.noThread)))
      && s'.initialized - {id} == s.initialized - {id}
  {
  }

  /** A started device that is stopped moves to the stopped ones, and the driver forgets it. */
  lemma StopOutcome(s: Registry, id: DeviceID)
    requires Valid(s)
    ensures var (s', ok) := Stop(s, id);
      && (ok <==> id in s.started)
      && (ok ==> s' == s.(started := s.started - {id}, stopped := s.stopped[id := s.started[id]],
                          initialized := s.initialized - {id}))
      && (!ok ==> s' == s)
  {
  }

  /** Suspending moves every started device to the stopped ones, notes it, and makes the driver forget it. */
  lemma SleepOutcome(s: Registry)
    requires Valid(s)
    ensures var s' := Sleep(s);
      && s'.started == map[] && s'.sleeping == s.started.Keys && Added(s.stopped, s'.stopped, s.started.Keys, s.started)
      && s'.initialized == s.initialized - s.started.Keys
      && s'.detected == s.detected && s'.unplugged == s.unplugged
  {
    Asleep(s);
    hide Sleep, Valid;
  }

  /** Devices whose threads ended are stopped, all others stay. */
  lemma StopDeadOutcome(s: Registry, dead: set<DeviceID>)
    requires dead <= s.started.Keys
    ensures var s' := StopSome(s, dead);
      && s'.started == s.started - dead && Added(s.stopped, s'.stopped, dead, s.started)
      && s'.initialized == s.initialized - dead
      && s' == s.(started := s'.started, stopped := s'.stopped, initialized := s'.initialized)
  {
    assert s.started.Keys * dead == dead;
  }

  /** A device that is not detected any more moves from where it was to the unplugged ones, with what was known
      of it, and the driver forgets it if it was started. All others stay. */
  lemma UnplugOutcome(s: Registry)
    requires Valid(s)
    ensures var s' := Unplug(s);
      && (forall id :: id in s'.started <==> id in s.started && id in s.detected)
      && (forall id :: id in s'.stopped <==> id in s.stopped && id in s.detected)
      && (forall id | id in s'.started :: s'.started[id] == s.started[id])
      && (forall id | id in s'.stopped :: s'.stopped[id] == s.stopped[id])
      && (forall id :: id in s'.unplugged <==>
                         id in s.unplugged || ((id in s.started || id in s.stopped) && id !in s.detected))
      && (forall id | id in s.started && id !in s.detected :: s'.unplugged[id] == s.started[id])
      && (forall id | id in s.stopped && id !in s.detected :: s'.unplugged[id] == s.stopped[id])
      && (forall id | id in s.unplugged && id !in s.started && id !in s.stopped :: s'.unplugged[id] == s.unplugged[id])
      && (forall id :: id in s'.initialized <==> id in s.initialized && (id in s.started ==> id in s.detected))
      && s'.sleeping == s.sleeping && s'.detected == map[]
  {
  }

  // ----- the status of a device -----

  function Status(s: Registry, id: DeviceID): string {
    if id in s.started then "started"
    else if id in s.stopped then "stopped"
    else if id in s.unplugged then "unplugged"
    else "unknown"
  }

  /** A known device has exactly one of the statuses, and follows the calls: stopping makes a started
      device stopped, starting without failure a stopped one started, and a scan tells the devices that
      were unplugged from the others. */
  lemma {:induction false} StatusFollows(s: Registry, id: DeviceID, f: Failures)
    requires Valid(s) && id in Known(s)
    ensures Status(s, id) != "unknown"
    ensures Status(s, id) == "started" ==> Status(Stop(s, id).0, id) == "stopped"
    ensures Status(s, id) == "stopped" && id !in f.All() ==> Status(Start(s, id, f).0, id) == "started"
    ensures Status(Unplug(s), id) == if id in s.detected then Status(s, id) else "unplugged"
  {
  }

  // ----- runs -----

  datatype Op =
    | SearchOp(found: seq<(DeviceID, Device)>)
    | InitializeOp(open: bool, failures: Failures)
    | StartOp(id: DeviceID, failures: Failures)
    | StopOp(id: DeviceID)
    | SleepOp
    | ResumeOp(failures: Failures)
    | CheckThreadsOp(dead: set<DeviceID>)
    | UnplugOp

  function Apply(s: Registry, op: Op): Registry {
    match op
    case SearchOp(found) => s.(detected := Detect(s.detected, found))
    case InitializeOp(open, f) => InitializeAll(s, open, f)
    case StartOp(id, f) => Start(s, id, f).0
    case StopOp(id) => Stop(s, id).0
    case SleepOp => Sleep(s)
    case ResumeOp(f) => Resume(s, f)
    case CheckThreadsOp(dead) => StopSome(s, s.started.Keys * dead)
    case UnplugOp => Unplug(s)
  }

  function Run(s: Registry, ops: seq<Op>): Registry
    decreases ops
  {
    if ops == [] then s else Run(Apply(s, ops[0]), ops[1..])
  }

  lemma ApplyKeeps(s: Registry, op: Op)
    requires Valid(s)
    ensures Valid(Apply(s, op)) && Known(s) <= Known(Apply(s, op))
  {
    match op
    case SearchOp(found) =>
    case InitializeOp(open, f) => InitializeKeeps(s, open, f, s.detected.Keys);
    case StartOp(id, f) => OneIsSome(s, id, f); StartKeeps(s, {id}, f);
    case StopOp(id) => OneIsSome(s, id, Failures({}, {}, {})); StopKeeps(s, {id});
    case SleepOp => SleepKeeps(s);
    case ResumeOp(f) => ResumeKeeps(s, f);
    case CheckThreadsOp(dead) => StopKeeps(s, s.started.Keys * dead);
    case UnplugOp => UnplugKeeps(s);
  }

  /** In every registry that can be reached no device is started and stopped at once, the driver knows
      the started ones, and no device the daemon knew is lost. */
  lemma {:induction false} ReachableValid(s: Registry, ops: seq<Op>)
    requires Valid(s)
    ensures Valid(Run(s, ops)) && Known(s) <= Known(Run(s, ops))
    decreases ops
  {
    if ops != [] {
      ApplyKeeps(s, ops[0]);
      hide Valid, Known, Apply;
      ReachableValid(Apply(s, ops[0]), ops[1..]);
    }
  }

  /** Suspending and resuming restores the started and the stopped devices, and what the driver knows,
      exactly when no device that was started fails to be brought up again. */
  lemma {:induction false} SleepThenResume(s: Registry, f: Failures)
    requires Valid(s)
    ensures var s' := Resume(Sleep(s), f);
      (s'.started == s.started && s'.stopped == s.stopped) <==> s.started.Keys !! f.All()
    ensures s.started.Keys !! f.All() ==> Resume(Sleep(s), f) == s.(sleeping := {})
  {
    Asleep(s);
    Awake(Sleep(s), s.started, s.stopped, f);
    OnlyAll(s.started, f.All());
    hide Sleep, Resume, Failures.All, Only;
    assert s.initialized - s.started.Keys + s.started.Keys == s.initialized;
  }

  lemma OnlyAll(m: Devices, all: set<DeviceID>)
    ensures Only(m, m.Keys - all) == m <==> m.Keys !! all
    ensures m.Keys !! all ==> Only(m, all) == map[]
  {
    if Only(m, m.Keys - all) == m {
      assert m.Keys == Only(m, m.Keys - all).Keys;
    }
  }

  /** Resuming with nothing started, when the driver knows none of the sleeping devices: those that fail to
      be brought up are left stopped. */
  lemma Awake(s: Registry, up: Devices, down: Devices, f: Failures)
    requires s.started == map[] && s.stopped == down + up && up.Keys !! down.Keys
    requires s.sleeping * s.stopped.Keys == up.Keys && s.initialized !! up.Keys
    ensures Resume(s, f).started == Only(up, up.Keys - f.All())
    ensures Resume(s, f).stopped == down + Only(up, f.All())
    ensures up.Keys !! f.All() ==> Resume(s, f).initialized == s.initialized + up.Keys
  {
    hide Opening, KnownAfter, Only, Failures.All;
    OpeningUnknown(s.initialized, f, up.Keys);
    Parted(up, down, f.All());
  }

  lemma OpeningUnknown(known: set<DeviceID>, f: Failures, ids: set<DeviceID>)
    requires known !! ids
    ensures Opening(known, f, ids) == ids - f.All()
    ensures ids !! f.All() ==> KnownAfter(known, f, ids) == known + ids
  {
  }

  lemma Parted(up: Devices, down: Devices, all: set<DeviceID>)
    requires up.Keys !! down.Keys
    ensures Only(down + up, up.Keys - all) == Only(up, up.Keys - all)
    ensures (down + up) - (up.Keys - all) == down + Only(up, all)
  {
  }

  /** Suspending and resuming, with devices plugged or unplugged in between: what is restored is what was
      started or stopped and is still there, but for the started devices that fail to be brought up again,
      which are left stopped. */
  lemma {:induction false} SleepUnplugResume(s: Registry, found: seq<(DeviceID, Device)>, f: Failures)
    requires Valid(s)
    ensures var s1 := Apply(Sleep(s), SearchOp(found));
      var s' := Resume(Unplug(s1), f);
      && s'.started == Only(s.started, s1.detected.Keys - f.All())
      && s'.stopped == Only(s.stopped, s1.detected.Keys) + Only(s.started, s1.detected.Keys * f.All())
    ensures s.started.Keys !! f.All() ==>
              var s1 := Apply(Sleep(s), SearchOp(found));
              var s' := Resume(Unplug(s1), f);
              && s'.started == Only(s.started, s1.detected.Keys)
              && s'.stopped == Only(s.stopped, s1.detected.Keys)
  {
    var s1 := Apply(Sleep(s), SearchOp(found));
    var up, down := Only(s.started, s1.detected.Keys), Only(s.stopped, s1.detected.Keys);
    hide Sleep, Unplug, Valid, Resume, Only, Failures.All, Detect;
    SleepUnplug(s, s1.detected);
    Awake(Unplug(s1), up, down, f);
    OnlyTwice(s.started, s1.detected.Keys, f.All());
    NoneFails(s.started, down, s1.detected.Keys, f.All());
  }

  lemma OnlyTwice(m: Devices, ids: set<DeviceID>, all: set<DeviceID>)
    ensures var up := Only(m, ids);
      Only(up, up.Keys - all) == Only(m, ids - all) && Only(up, all) == Only(m, ids * all)
  {
  }

  lemma NoneFails(m: Devices, down: Devices, ids: set<DeviceID>, all: set<DeviceID>)
    ensures m.Keys !! all ==> Only(m, ids - all) == Only(m, ids) && down + Only(m, ids * all) == down
  {
  }

  lemma SleepUnplug(s: Registry, detected: Devices)
    requires Valid(s)
    ensures var s2 := Unplug(Sleep(s).(detected := detected));
      var up, down := Only(s.started, detected.Keys), Only(s.stopped, detected.Keys);
      && s2.started == map[] && s2.stopped == down + up && up.Keys !! down.Keys
      && s2.sleeping * s2.stopped.Keys == up.Keys && s2.initialized !! up.Keys
  {
    Asleep(s);
    OnlyOfSum(s.stopped, s.started, detected.Keys);
    hide Only, Sleep;
  }

  /** The registry of a sleeping daemon. */
  lemma Asleep(s: Registry)
    requires Valid(s)
    ensures var s1 := Sleep(s);
      && s1 == s.(started := map[], stopped := s.stopped + s.started, sleeping := s.started.Keys,
                  initialized := s1.initialized)
      && s1.initialized == s.initialized - s.started.Keys
  {
    assert Only(s.started, s.started.Keys) == s.started;
    hide Only;
  }

  lemma OnlyOfSum(a: Devices, b: Devices, ids: set<DeviceID>)
    ensures Only(a + b, ids) == Only(a, ids) + Only(b, ids)
  {
  }

  /** A run that neither starts this device nor finds it unplugged. */
  predicate LeftAlone(s: Registry, ops: seq<Op>, id: DeviceID)
    decreases ops
  {
    ops == [] || (
      && !(ops[0].StartOp? && ops[0].id == id)
      && (ops[0].UnplugOp? ==> id in s.detected)
      && LeftAlone(Apply(s, ops[0]), ops[1..], id))
  }

  /** A stopped device that is not noted as sleeping stays stopped, through every suspend and resume, until
      it is started or unplugged. */
  lemma {:induction false} StaysStopped(s: Registry, ops: seq<Op>, id: DeviceID)
    requires Valid(s) && id in s.stopped && id !in s.sleeping && LeftAlone(s, ops, id)
    ensures var s' := Run(s, ops);
      id in s'.stopped && s'.stopped[id] == s.stopped[id] && id !in s'.started
    decreases ops
  {
    if ops != [] {
      ApplyKeeps(s, ops[0]);
      StaysStoppedOnce(s, ops[0], id);
      hide Apply, Valid;
      StaysStopped(Apply(s, ops[0]), ops[1..], id);
    }
  }

  lemma StaysStoppedOnce(s: Registry, op: Op, id: DeviceID)
    requires Valid(s) && id in s.stopped && id !in s.sleeping
    requires !(op.StartOp? && op.id == id) && (op.UnplugOp? ==> id in s.detected)
    ensures var s' := Apply(s, op);
      id in s'.stopped && s'.stopped[id] == s.stopped[id] && id !in s'.sleeping
  {
  }

  /** But the user who stops a device last does not always find it stopped: a device that was started and
      stopped again between a suspend and the resume is still noted as sleeping, and the resume starts it. */
  lemma ResumeStartsStopped(s: Registry, id: DeviceID, f: Failures)
    requires Valid(s) && id in s.started && id !in f.All()
    ensures var s3 := Run(s, [SleepOp, StartOp(id, f), StopOp(id)]);
      id in s3.stopped && Run(s3, [ResumeOp(f)]) == Resume(s3, f) && id in Resume(s3, f).started
  {
    assert Opens(false, f, id) && Opens(true, f, id);
    var s1 := Sleep(s);
    var s2 := Start(s1, id, f).0;
    var s3 := Stop(s2, id).0;
    RunThree(s, SleepOp, StartOp(id, f), StopOp(id));
    RunIs(s3, ResumeOp(f), []);
    hide Run, Opens, Sleep, Start, Stop, Resume, Valid;
    SleepKeeps(s);
    Restarted(s, s1, f, id);
    StoppedAgain(s2, s3, id);
    hide *;
    ResumeStarts(s3, f, id);
  }

  lemma RunIs(s: Registry, op: Op, ops: seq<Op>)
    ensures Run(s, [op] + ops) == Run(Apply(s, op), ops)
    ensures Run(s, []) == s
  {
    assert ([op] + ops)[1..] == ops;
  }

  lemma RunThree(s: Registry, a: Op, b: Op, c: Op)
    ensures Run(s, [a, b, c]) == Apply(Apply(Apply(s, a), b), c)
  {
    hide Apply;
    assert [a, b, c] == [a] + [b, c] && [b, c] == [b] + [c] && [c] == [c] + [];
    RunIs(s, a, [b, c]);
    RunIs(Apply(s, a), b, [c]);
    RunIs(Apply(Apply(s, a), b), c, []);
  }

  lemma Restarted(s: Registry, s1: Registry, f: Failures, id: DeviceID)
    requires Valid(s) && id in s.started && s1 == Sleep(s) && Valid(s1) && Opens(false, f, id)
    ensures var s2 := Start(s1, id, f).0; Valid(s2) && id in s2.started && id in s2.sleeping
  {
    assert id in s1.stopped && s1.stopped[id] == s.started[id];
    ApplyKeeps(s1, StartOp(id, f));
  }

  lemma StoppedAgain(s: Registry, s': Registry, id: DeviceID)
    requires Valid(s) && id in s.started && s' == Stop(s, id).0
    ensures Valid(s') && id in s'.stopped && id !in s'.started && s'.sleeping == s.sleeping
  {
    ApplyKeeps(s, StopOp(id));
  }

  /** Resuming starts a stopped device exactly if it is noted as sleeping and opens. */
  lemma ResumeStarts(s: Registry, f: Failures, id: DeviceID)
    requires Valid(s) && id in s.stopped
    ensures id in Resume(s, f).started <==> id in s.sleeping && Opens(id in s.initialized, f, id)
    ensures id in Resume(s, f).stopped <==> id !in Resume(s, f).started
  {
    hide Opens;
  }

  /** Is the first suspend or resume of the run a resume with which the device opens? */
  predicate Wakes(isKnown: bool, ops: seq<Op>, id: DeviceID) {
    ops != [] &&
    match ops[0]
    case SleepOp => false
    case ResumeOp(f) => Opens(isKnown, f, id)
    case _ => Wakes(isKnown, ops[1..], id)
  }

  predicate StoppedThroughout(s: Registry, ops: seq<Op>, id: DeviceID)
    decreases ops
  {
    id in s.stopped && (ops == [] || StoppedThroughout(Apply(s, ops[0]), ops[1..], id))
  }

  /** A stopped device that is neither started nor unplugged in a run is stopped in all of it, unless it is
      noted as sleeping and the first suspend or resume is a resume with which it opens. */
  lemma {:induction false} StaysStoppedExactly(s: Registry, ops: seq<Op>, id: DeviceID)
    requires Valid(s) && id in s.stopped && LeftAlone(s, ops, id)
    ensures StoppedThroughout(s, ops, id) <==> !(id in s.sleeping && Wakes(id in s.initialized, ops, id))
    decreases ops
  {
    if ops != [] {
      ApplyKeeps(s, ops[0]);
      StepOfStopped(s, ops[0], id);
      hide Apply, Valid, Opens;
      if id in Apply(s, ops[0]).stopped {
        StaysStoppedExactly(Apply(s, ops[0]), ops[1..], id);
      }
    }
  }

  /** What one call does to a stopped device it does not start or find unplugged. */
  lemma StepOfStopped(s: Registry, op: Op, id: DeviceID)
    requires Valid(s) && id in s.stopped
    requires !(op.StartOp? && op.id == id) && (op.UnplugOp? ==> id in s.detected)
    ensures var s' := Apply(s, op);
      if op.SleepOp? then id in s'.stopped && id !in s'.sleeping
      else if op.ResumeOp? then
        && (id in s'.stopped <==> !(id in s.sleeping && Opens(id in s.initialized, op.failures, id)))
        && id !in s'.sleeping
      else
        && id in s'.stopped && (id in s'.sleeping <==> id in s.sleeping)
        && (id in s'.initialized <==> id in s.initialized)
  {
    hide Opens;
    if op.ResumeOp? {
      ResumeStarts(s, op.failures, id);
    }
  }

  // ----- the manager and its driver -----

  /** The driver's record of the devices it has initialized. */
  class Driver {
    const driverID: nat
    var initializedDevices: set<DeviceID>

    constructor (driverID: nat)
      ensures this.driverID == driverID && initializedDevices == {}
    {
      this.driverID := driverID;
      initializedDevices := {};
    }

    method InitializeDevice(id: DeviceID, f: Failures)
      modifies this
      ensures initializedDevices == Initialize(old(initializedDevices), f, id)
    {
      if id in initializedDevices {
        return;
      }
      if id in f.noMemory {
        return;
      }
      initializedDevices := initializedDevices + {id};
    }

    method OpenDevice(id: DeviceID, f: Failures) returns (ok: bool)
      modifies this
      ensures (initializedDevices, ok) == Open(old(initializedDevices), f, id)
    {
      if id !in initializedDevices {
        return false;
      }
      if id in f.noOpen {
        return false;
      }
      if id in f.noThread {
        CloseDevice(id);
        return false;
      }
      ok := true;
    }

    method CloseDevice(id: DeviceID)
      modifies this
      ensures initializedDevices == old(initializedDevices) - {id}
    {
      if id in initializedDevices {
        initializedDevices := initializedDevices - {id};
      }
    }
  }

  /** `done` and `todo` split `whole`. */
  ghost predicate Parts(whole: set<DeviceID>, done: set<DeviceID>, todo: set<DeviceID>) {
    done !! todo && whole == done + todo
  }

  lemma OneMore(whole: set<DeviceID>, done: set<DeviceID>, todo: set<DeviceID>, id: DeviceID)
    requires Parts(whole, done, todo) && id in todo
    ensures id !in done && id in whole && Parts(whole, done + {id}, todo - {id})
  {
  }

  lemma NoMore(whole: set<DeviceID>, done: set<DeviceID>)
    ensures Parts(whole, {}, whole)
    ensures Parts(whole, done, {}) ==> done == whole
  {
  }

  lemma PartsGrow(whole: set<DeviceID>, done: set<DeviceID>, todo: set<DeviceID>, id: DeviceID)
    ensures Parts(whole, whole, {})
    ensures Parts(whole, done, todo) ==> todo == whole - done
    ensures Parts(whole, done, todo) && id !in whole ==> Parts(whole + {id}, done, todo + {id})
  {
  }

  predicate Distinct(ids: seq<DeviceID>) {
    forall i, j | 0 <= i < j < |ids| :: ids[i] != ids[j]
  }

  function Elements(ids: seq<DeviceID>): set<DeviceID> {
    set id | id in ids
  }

  /** The first `i` of the devices listed. */
  function First(ids: seq<DeviceID>, i: nat): set<DeviceID>
    requires i <= |ids|
  {
    Elements(ids[..i])
  }

  lemma NextElement(ids: seq<DeviceID>, i: nat)
    requires i < |ids| && Distinct(ids)
    ensures First(ids, i + 1) == First(ids, i) + {ids[i]} && ids[i] !in First(ids, i)
  {
    assert ids[..i + 1] == ids[..i] + [ids[i]];
  }

  lemma FirstAndLast(ids: seq<DeviceID>)
    ensures Elements([]) == {} && First(ids, 0) == {} && First(ids, |ids|) == Elements(ids)
  {
    assert ids[..|ids|] == ids;
  }

  lemma StopDeadNext(s: Registry, ids: seq<DeviceID>, i: nat, dead: set<DeviceID>)
    requires Valid(s) && i < |ids| && Distinct(ids) && Elements(ids) == s.started.Keys
    ensures var s1 := StopSome(s, First(ids, i) * dead);
      && ids[i] in s1.started
      && (if ids[i] in dead then Stop(s1, ids[i]).0 == StopSome(s, First(ids, i + 1) * dead)
          else s1 == StopSome(s, First(ids, i + 1) * dead))
    ensures First(ids, i + 1) * dead == if ids[i] in dead then First(ids, i) * dead + {ids[i]} else First(ids, i) * dead
  {
    NextElement(ids, i);
    assert ids[i] in Elements(ids);
    if ids[i] in dead {
      StopStep(s, First(ids, i) * dead, ids[i]);
      assert First(ids, i + 1) * dead == First(ids, i) * dead + {ids[i]};
    } else {
      assert First(ids, i + 1) * dead == First(ids, i) * dead;
    }
    hide Valid, Elements, First;
  }

  lemma UnplugStartedNext(s: Registry, ids: seq<DeviceID>, i: nat)
    requires Valid(s) && i < |ids| && Distinct(ids) && Elements(ids) <= s.started.Keys
    ensures Valid(UnplugStarted(s, First(ids, i + 1)))
    ensures var s1 := UnplugStarted(s, First(ids, i));
      var s2 := Stop(s1, ids[i]).0;
      && ids[i] in s1.started && Stop(s1, ids[i]).1 && ids[i] in s2.stopped
      && UnplugStarted(s, First(ids, i + 1)) ==
         s2.(unplugged := s2.unplugged[ids[i] := s2.stopped[ids[i]]], stopped := s2.stopped - {ids[i]})
  {
    NextElement(ids, i);
    assert ids[i] in Elements(ids);
    UnplugStartedStep(s, First(ids, i), ids[i]);
    UnplugStartedKeeps(s, First(ids, i + 1));
    hide Valid, Elements, First;
  }

  lemma UnplugStoppedNext(s: Registry, ids: seq<DeviceID>, i: nat)
    requires i < |ids| && Distinct(ids) && Elements(ids) <= s.stopped.Keys
    ensures var s1 := UnplugStopped(s, First(ids, i));
      && ids[i] in s1.stopped
      && UnplugStopped(s, First(ids, i + 1)) ==
         s1.(unplugged := s1.unplugged[ids[i] := s1.stopped[ids[i]]], stopped := s1.stopped - {ids[i]})
  {
    NextElement(ids, i);
    assert ids[i] in Elements(ids);
    UnplugStoppedStep(s, First(ids, i), ids[i]);
    hide Valid, Elements, First;
  }

  lemma OneElementMore(ids: seq<DeviceID>, id: DeviceID)
    ensures Elements([]) == {} && Distinct([])
    ensures Elements(ids + [id]) == Elements(ids) + {id}
    ensures Distinct(ids) && id !in Elements(ids) ==> Distinct(ids + [id])
  {
  }

  /** `ids` lists the devices of `m` that `other` does not hold, but for those still to be looked at. */
  predicate Listed(ids: seq<DeviceID>, m: Devices, other: Devices, todo: set<DeviceID>) {
    Distinct(ids) && todo <= m.Keys && Elements(ids) == m.Keys - todo - other.Keys
  }

  lemma ListMore(ids: seq<DeviceID>, m: Devices, other: Devices, todo: set<DeviceID>, id: DeviceID)
    requires Listed(ids, m, other, todo) && id in todo
    ensures id in m && Listed(if id in other then ids else ids + [id], m, other, todo - {id})
  {
    OneElementMore(ids, id);
    hide Distinct, Elements;
  }

  /** The started devices, all noted as sleeping. */
  lemma Noted(s: Registry, ids: seq<DeviceID>)
    requires Valid(s) && Listed(ids, s.started, map[], {})
    ensures Distinct(ids) && Elements(ids) == s.started.Keys && Valid(s.(sleeping := s.started.Keys))
  {
    hide Distinct, Elements;
  }

  method KeysNotIn(m: Devices, other: Devices) returns (ids: seq<DeviceID>)
    ensures Listed(ids, m, other, {})
  {
    ids := [];
    OneElementMore(ids, "");
    var todo := m.Keys;
    assert Listed(ids, m, other, todo);
    hide Listed;
    while todo != {}
      invariant Listed(ids, m, other, todo)
      decreases |todo|
    {
      var id :| id in todo;
      ListMore(ids, m, other, todo, id);
      if id !in other {
        ids := ids + [id];
      }
      todo := todo - {id};
    }
  }

  class DevicesManager {
    const driver: Driver
    var detectedDevices: Devices
    var startedDevices: Devices
    var stoppedDevices: Devices
    var unpluggedDevices: Devices
    var sleepingDevices: seq<DeviceID>

    function State(): Registry
      reads this, driver
    {
      Registry(driver.driverID, detectedDevices, startedDevices, stoppedDevices, unpluggedDevices,
               Elements(sleepingDevices), driver.initializedDevices)
    }

    predicate WellFormed()
      reads this, driver
    {
      Valid(State()) && Distinct(sleepingDevices)
    }

    /** The devices that are started or stopped. */
    function Managed(): set<DeviceID>
      reads this
    {
      startedDevices.Keys + stoppedDevices.Keys
    }

    constructor (driver: Driver)
      ensures this.driver == driver && WellFormed()
      ensures State() == Registry(driver.driverID, map[], map[], map[], map[], {}, driver.initializedDevices)
    {
      this.driver := driver;
      detectedDevices, startedDevices, stoppedDevices, unpluggedDevices := map[], map[], map[], map[];
      sleepingDevices := [];
    }

    /** `found` lists the supported devices that udev enumerates. */
    method SearchSupportedDevices(found: seq<(DeviceID, Device)>)
      requires WellFormed()
      modifies this`detectedDevices
      ensures WellFormed() && State() == Apply(old(State()), SearchOp(found))
    {
      var i := 0;
      while i < |found|
        invariant i <= |found|
        invariant Detect(detectedDevices, found[i..]) == Detect(old(detectedDevices), found)
      {
        assert found[i..][0] == found[i] && found[i..][1..] == found[i + 1..];
        if found[i].0 !in detectedDevices {
          detectedDevices := detectedDevices[found[i].0 := found[i].1];
        }
        i := i + 1;
      }
      assert found[i..] == [];
    }

    method InitializeOneDevice(id: DeviceID, openDevices: bool, f: Failures) returns (ok: bool)
      requires id in detectedDevices
      modifies this`startedDevices, this`stoppedDevices, driver
      ensures State() == InitializeOne(old(State()), openDevices, f, id)
      ensures if ok then id !in old(Managed()) && Managed() == old(Managed()) + {id}
              else Managed() == old(Managed())
      ensures IsNew(old(State()), id) ==>
                && (id in startedDevices <==>
                      openDevices && (id in old(driver.initializedDevices) || id !in f.noMemory)
                      && id !in f.noOpen && id !in f.noThread)
                && (id in stoppedDevices <==> !openDevices)
    {
      if IsNew(State(), id) {
        InitializeOneOutcome(State(), openDevices, f, id);
      }
      if id in startedDevices {
        return false;
      }
      if id in stoppedDevices {
        return false;
      }
      hide Initialize, Open;
      var device := detectedDevices[id];
      if device.driverID != driver.driverID {
        return false;
      }
      driver.InitializeDevice(id, f);
      ok := true;
      if openDevices {
        ok := driver.OpenDevice(id, f);
        if ok {
          startedDevices := startedDevices[id := device];
        }
      } else {
        stoppedDevices := stoppedDevices[id := device];
      }
    }

    /** Returns the devices that the clients are told about. */
    method InitializeDevices(openDevices: bool, f: Failures) returns (initialized: set<DeviceID>)
      requires WellFormed()
      modifies this`startedDevices, this`stoppedDevices, this`detectedDevices, driver
      ensures WellFormed() && State() == InitializeAll(old(State()), openDevices, f)
      ensures initialized == Managed() - old(Managed())
      ensures BroughtUp(old(State()), State(), openDevices, f)
      ensures detectedDevices == map[]
    {
      InitializeKeeps(State(), openDevices, f, detectedDevices.Keys);
      InitializeOutcome(State(), openDevices, f);
      hide InitializeSome, BroughtUp;
      initialized := InitializeEach(openDevices, f);
      detectedDevices := map[];
    }

    /** Takes the detected devices in any order. */
    method InitializeEach(openDevices: bool, f: Failures) returns (initialized: set<DeviceID>)
      modifies this`startedDevices, this`stoppedDevices, driver
      ensures State() == InitializeSome(old(State()), openDevices, f, detectedDevices.Keys)
      ensures initialized == Managed() - old(Managed())
    {
      hide InitializeSome, InitializeOne, Parts, Elements, Managed;
      ghost var before, done := State(), {};
      NoneInitialized(before, openDevices, f);
      NoMore(detectedDevices.Keys, done);
      PartsGrow(Managed(), Managed(), {}, "");
      var todo := detectedDevices.Keys;
      initialized := {};
      while todo != {}
        invariant Parts(detectedDevices.Keys, done, todo)
        invariant State() == InitializeSome(before, openDevices, f, done)
        invariant Parts(Managed(), old(Managed()), initialized)
        decreases |todo|
      {
        var id :| id in todo;
        OneMore(detectedDevices.Keys, done, todo, id);
        InitializeStep(before, openDevices, f, done, id);
        ghost var managed := Managed();
        var ok := InitializeOneDevice(id, openDevices, f);
        if ok {
          PartsGrow(managed, old(Managed()), initialized, id);
          initialized := initialized + {id};
        }
        done, todo := done + {id}, todo - {id};
      }
      NoMore(detectedDevices.Keys, done);
      PartsGrow(Managed(), old(Managed()), initialized, "");
    }

    method StartDevice(id: DeviceID, f: Failures) returns (ok: bool)
      requires WellFormed()
      modifies this`startedDevices, this`stoppedDevices, driver
      ensures WellFormed() && (State(), ok) == Start(old(State()), id, f)
      ensures ok <==> id in old(stoppedDevices) && (id in old(driver.initializedDevices) || id !in f.noMemory)
                      && id !in f.noOpen && id !in f.noThread
    {
      StartOutcome(State(), id, f);
      OneIsSome(State(), id, f);
      StartKeeps(State(), {id}, f);
      hide Valid, StartSome, StopSome, Stop, Distinct, Elements, Initialize, Open;
      if id !in stoppedDevices {
        return false;
      }
      var device := stoppedDevices[id];
      if device.driverID != driver.driverID {
        return false;
      }
      driver.InitializeDevice(id, f);
      ok := driver.OpenDevice(id, f);
      if ok {
        startedDevices := startedDevices[id := device];
        stoppedDevices := stoppedDevices - {id};
      }
    }

    /** The USB requests that a hard stop skips are not part of this state. */
    method StopDevice(id: DeviceID) returns (ok: bool)
      requires WellFormed()
      modifies this`startedDevices, this`stoppedDevices, driver
      ensures WellFormed() && (State(), ok) == Stop(old(State()), id)
    {
      OneIsSome(State(), id, Failures({}, {}, {}));
      StopKeeps(State(), {id});
      hide Valid, StartSome, StopSome, Start, Distinct, Elements;
      if id !in startedDevices {
        return false;
      }
      var device := startedDevices[id];
      if device.driverID != driver.driverID {
        return false;
      }
      driver.CloseDevice(id);
      stoppedDevices := stoppedDevices[id := device];
      startedDevices := startedDevices - {id};
      ok := true;
    }

    method StartSleepingDevices(f: Failures)
      requires WellFormed()
      modifies this`startedDevices, this`stoppedDevices, this`sleepingDevices, driver
      ensures WellFormed() && State() == Resume(old(State()), f)
    {
      ghost var before := State();
      ResumeKeeps(before, f);
      NoneMoved(before, f);
      FirstAndLast(sleepingDevices);
      assert Distinct([]);
      hide Valid, StartSome, Start, Elements, First, Distinct;
      var i := 0;
      while i < |sleepingDevices|
        invariant i <= |sleepingDevices| && WellFormed() && sleepingDevices == old(sleepingDevices)
        invariant State() == StartSome(before, First(sleepingDevices, i), f)
      {
        NextElement(sleepingDevices, i);
        StartStep(before, First(sleepingDevices, i), f, sleepingDevices[i]);
        var ok := StartDevice(sleepingDevices[i], f);
        i := i + 1;
      }
      sleepingDevices := [];
    }

    /** Every device is stopped before the started ones are forgotten. */
    method StopInitializedDevices()
      requires WellFormed()
      modifies this`startedDevices, this`stoppedDevices, this`sleepingDevices, driver
      ensures WellFormed() && State() == Sleep(old(State()))
    {
      ghost var was := State();
      SleepKeeps(was);
      hide Valid, StopSome, Sleep, Elements, Distinct, Listed;
      sleepingDevices := KeysNotIn(startedDevices, map[]);
      Noted(was, sleepingDevices);
      SleepIsAll(was, State());
      StopSleepingDevices();
      startedDevices := map[];
    }

    /** Its loop. */
    method StopSleepingDevices()
      requires WellFormed()
      modifies this`startedDevices, this`stoppedDevices, driver
      ensures WellFormed() && State() == StopSome(old(State()), old(State()).sleeping)
    {
      ghost var before := State();
      NoneMoved(before, Failures({}, {}, {}));
      FirstAndLast(sleepingDevices);
      hide Valid, StopSome, Stop, Elements, First, Distinct;
      var i := 0;
      while i < |sleepingDevices|
        invariant i <= |sleepingDevices| && WellFormed() && sleepingDevices == old(sleepingDevices)
        invariant State() == StopSome(before, First(sleepingDevices, i))
      {
        NextElement(sleepingDevices, i);
        StopStep(before, First(sleepingDevices, i), sleepingDevices[i]);
        var ok := StopDevice(sleepingDevices[i]);
        i := i + 1;
      }
    }

    /** `dead` are the devices one of whose threads has ended. Returns the devices that the clients are told
        about; every device looked at is still a started one. */
    method CheckInitializedDevicesThreadsStatus(dead: set<DeviceID>) returns (toSend: seq<DeviceID>)
      requires WellFormed()
      modifies this`startedDevices, this`stoppedDevices, driver
      ensures WellFormed() && State() == StopSome(old(State()), old(startedDevices).Keys * dead)
      ensures Elements(toSend) == old(startedDevices).Keys * dead
    {
      ghost var before := State();
      var toCheck := KeysNotIn(startedDevices, map[]);
      toSend := [];
      assert Elements(toCheck) == before.started.Keys && {} * dead == {};
      NoneMoved(before, Failures({}, {}, {}));
      FirstAndLast(toCheck);
      hide Valid, StopSome, Stop, Elements, First, Distinct, Listed;
      var i := 0;
      while i < |toCheck|
        invariant i <= |toCheck| && WellFormed()
        invariant State() == StopSome(before, First(toCheck, i) * dead)
        invariant Elements(toSend) == First(toCheck, i) * dead
      {
        StopDeadNext(before, toCheck, i, dead);
        assert toCheck[i] in startedDevices;
        if toCheck[i] in dead {
          var ok := StopDevice(toCheck[i]);
          OneElementMore(toSend, toCheck[i]);
          toSend := toSend + [toCheck[i]];
        }
        i := i + 1;
      }
    }

    /** Returns the devices that the clients are told about. */
    method CheckForUnpluggedDevices() returns (toSend: seq<DeviceID>)
      requires WellFormed()
      modifies this`startedDevices, this`stoppedDevices, this`unpluggedDevices, this`detectedDevices, driver
      ensures WellFormed() && State() == Unplug(old(State()))
      ensures startedDevices == Only(old(startedDevices), old(detectedDevices).Keys)
      ensures stoppedDevices == Only(old(stoppedDevices), old(detectedDevices).Keys)
      ensures detectedDevices == map[]
      ensures Elements(toSend) == old(startedDevices).Keys + old(stoppedDevices).Keys - old(detectedDevices).Keys
    {
      ghost var before := State();
      UnplugBoth(before);
      UnplugKeeps(before);
      hide UnplugStarted, UnplugStopped, Only, Valid, Elements, Distinct, Unplug;
      var started := UnplugStartedDevices();
      var stopped := UnplugStoppedDevices();
      detectedDevices := map[];
      toSend := started + stopped;
      TwoLists(started, stopped, before.started.Keys, before.stopped.Keys, before.detected.Keys);
    }

    static lemma TwoLists(ids: seq<DeviceID>, others: seq<DeviceID>, a: set<DeviceID>, b: set<DeviceID>,
                          but: set<DeviceID>)
      requires Elements(ids) == a - but && Elements(others) == b - but
      ensures Elements(ids + others) == a + b - but
    {
      assert Elements(ids + others) == Elements(ids) + Elements(others);
    }

    /** Devices that were not stopped before they were unplugged. */
    method UnplugStartedDevices() returns (toClean: seq<DeviceID>)
      requires WellFormed()
      modifies this`startedDevices, this`stoppedDevices, this`unpluggedDevices, driver
      ensures WellFormed()
      ensures State() == UnplugStarted(old(State()), old(startedDevices).Keys - detectedDevices.Keys)
      ensures Elements(toClean) == old(startedDevices).Keys - detectedDevices.Keys
    {
      ghost var before := State();
      toClean := KeysNotIn(startedDevices, detectedDevices);
      NoneMoved(before, Failures({}, {}, {}));
      FirstAndLast(toClean);
      assert Elements(toClean) == before.started.Keys - before.detected.Keys && Distinct(toClean);
      hide Valid, UnplugStarted, Stop, Elements, First, Distinct, Listed;
      var i := 0;
      while i < |toClean|
        invariant i <= |toClean| && WellFormed() && sleepingDevices == old(sleepingDevices)
        invariant State() == UnplugStarted(before, First(toClean, i))
      {
        UnplugStartedNext(before, toClean, i);
        assert toClean[i] in startedDevices;
        UnplugStartedDevice(toClean[i]);
        i := i + 1;
      }
    }

    /** One of them. */
    method UnplugStartedDevice(id: DeviceID)
      requires WellFormed()
      requires Stop(State(), id).1 && id in Stop(State(), id).0.stopped
      modifies this`startedDevices, this`stoppedDevices, this`unpluggedDevices, driver
      ensures var s := Stop(old(State()), id).0;
        State() == s.(unplugged := s.unplugged[id := s.stopped[id]], stopped := s.stopped - {id})
    {
      hide Valid, Stop, Elements, Distinct;
      var ok := StopDevice(id);
      if ok {
        unpluggedDevices := unpluggedDevices[id := stoppedDevices[id]];
        stoppedDevices := stoppedDevices - {id};
      }
    }

    /** Devices that were unplugged once stopped. */
    method UnplugStoppedDevices() returns (toClean: seq<DeviceID>)
      requires WellFormed()
      modifies this`stoppedDevices, this`unpluggedDevices
      ensures State() == UnplugStopped(old(State()), old(stoppedDevices).Keys - detectedDevices.Keys)
      ensures Elements(toClean) == old(stoppedDevices).Keys - detectedDevices.Keys
    {
      ghost var before := State();
      toClean := KeysNotIn(stoppedDevices, detectedDevices);
      NoneMoved(before, Failures({}, {}, {}));
      FirstAndLast(toClean);
      assert Elements(toClean) == before.stopped.Keys - before.detected.Keys && Distinct(toClean);
      hide Valid, UnplugStopped, Elements, First, Distinct, Listed;
      var i := 0;
      while i < |toClean|
        invariant i <= |toClean|
        invariant State() == UnplugStopped(before, First(toClean, i))
      {
        UnplugStoppedNext(before, toClean, i);
        assert toClean[i] in stoppedDevices;
        unpluggedDevices := unpluggedDevices[toClean[i] := stoppedDevices[toClean[i]]];
        stoppedDevices := stoppedDevices - {toClean[i]};
        i := i + 1;
      }
    }

    /** What the clients are told of a device. */
    method GetDeviceStatus(id: DeviceID) returns (status: string)
      requires WellFormed()
      ensures status == Status(State(), id)
    {
      if id in startedDevices {
        return "started";
      }
      if id in stoppedDevices {
        return "stopped";
      }
      if id in unpluggedDevices {
        return "unplugged";
      }
      status := "unknown";
    }
  }
}
