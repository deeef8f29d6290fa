/** The connection and the cached sensor list of the camera shim's SensorManager
    (libshims/camera/SensorManager.cpp:121-278, libshims/include/camera/SensorManager.h). Binder calls,
    allocation and the other end of the connection are inputs of each query. Locked calls follow one
    another; the constructor's query runs without the lock, so notices that the service died may fall
    between its steps. */
module SensorManagerModel {

  type StatusT = int

  const NO_ERROR: StatusT := 0
  const NAME_NOT_FOUND: StatusT := -2   // -ENOENT, utils/Errors.h

  // sensors.h
  const SENSOR_TYPE_PROXIMITY := 8
  const SENSOR_TYPE_SIGNIFICANT_MOTION := 17
  const SENSOR_TYPE_TILT_DETECTOR := 22
  const SENSOR_TYPE_WAKE_GESTURE := 23
  const SENSOR_TYPE_GLANCE_GESTURE := 24
  const SENSOR_TYPE_PICK_UP_GESTURE := 25
  const SENSOR_TYPE_WRIST_TILT_GESTURE := 26

  /** The types whose default sensor is a wake-up sensor. */
  const WAKE_UP_TYPES := {SENSOR_TYPE_PROXIMITY, SENSOR_TYPE_SIGNIFICANT_MOTION, SENSOR_TYPE_TILT_DETECTOR,
                          SENSOR_TYPE_WAKE_GESTURE, SENSOR_TYPE_GLANCE_GESTURE, SENSOR_TYPE_PICK_UP_GESTURE,
                          SENSOR_TYPE_WRIST_TILT_GESTURE}

  datatype Option<T> = None | Some(value: T)

  datatype Sensor = Sensor(sensorType: int, wakeUp: bool)

  /** mSensors.array() + index: an address into one particular buffer; an empty mSensors has none (0). */
  datatype SensorPtr = SensorPtr(buffer: nat, index: nat)

  /** A malloc'ed list of sensor pointers, as far as it is filled. */
  datatype Block = Block(id: nat, entries: seq<SensorPtr>)

  /** One answer of getService: its status and what it stored in mSensorServer. */
  datatype Attempt = Attempt(err: StatusT, server: Option<nat>)

  /** What the outside world does during one assertStateLocked. */
  datatype World = World(
    ping: StatusT,
    attempts: nat -> Attempt,
    sensors: seq<Sensor>,       // what the service lists
    buffer: nat,                // where the new mSensors keeps them
    mallocFails: bool)

  datatype View = View(
    server: Option<nat>,
    list: Option<Block>,        // mSensorList; None is NULL
    sensors: seq<Sensor>,
    buffer: nat,
    blocks: nat,                // blocks malloc'ed so far, numbered from 0
    freed: seq<nat>)            // blocks passed to free, in order

  /** Fatal is a fatal log call, NullAccess an access through a NULL pointer; both end the process. */
  datatype Outcome = Fatal | NullAccess | Done(view: View, status: StatusT)

  datatype Connection = Failed(server: Option<nat>, err: StatusT) | Settled(server: Option<nat>)

  /** Where a death notice can fall once the observer is linked. */
  datatype Window =
    | BeforeFetch           // before mSensorServer is asked for its sensors
    | BeforeStore           // before the answer is stored in mSensors
    | BeforeCount           // before mSensors.size() is read
    | BeforeMalloc          // before the new list is stored in mSensorList
    | BeforeCheck           // before mSensorList is compared with NULL
    | BeforeFill(i: nat)    // before entry i is written; for i == count, before the return

  /** The windows of a call that holds mLock: none is hit. */
  function Never(): Window -> bool { _ => false }

  /** The retry loop from its i-th turn on. */
  function Connect(server: Option<nat>, attempts: nat -> Attempt, i: nat): Connection
    decreases 60 - i
  {
    if i >= 60 then Settled(server)
    else
      var a := attempts(i);
      if a.err == NAME_NOT_FOUND then Connect(a.server, attempts, i + 1)
      else if a.err != NO_ERROR then Failed(a.server, a.err)
      else Settled(a.server)
  }

  function PointersInto(buffer: nat, count: nat): seq<SensorPtr> {
    seq(count, i requires 0 <= i => SensorPtr(buffer, i))
  }

  /** sensorManagerDied: free(NULL) does nothing. */
  function Died(v: View): View {
    v.(server := None, list := None, sensors := [], buffer := 0,
       freed := if v.list.Some? then v.freed + [v.list.value.id] else v.freed)
  }

  function Noticed(v: View, hit: bool): View { if hit then Died(v) else v }

  /** The list-filling loop from entry i on. */
  function Fill(v: View, count: nat, i: nat, at: Window -> bool): Outcome
    decreases count - i
  {
    var v' := Noticed(v, at(BeforeFill(i)));
    if i >= count then Done(v', NO_ERROR)
    else if v'.list.None? then NullAccess
    else
      var b := v'.list.value;
      Fill(v'.(list := Some(b.(entries := b.entries + [SensorPtr(v'.buffer, i)]))), count, i + 1, at)
  }

  /** From the allocation of a list of count entries to the return. */
  function StoreList(v: View, count: nat, mallocFails: bool, at: Window -> bool): Outcome {
    if mallocFails then Fatal
    else
      var v' := Noticed(v.(list := Some(Block(v.blocks, [])), blocks := v.blocks + 1), at(BeforeCheck));
      if v'.list.None? then Fatal else Fill(v', count, 0, at)
  }

  /** From the linked observer to the return, with a notice in every window that at names. */
  function Initialise(v: View, w: World, at: Window -> bool): Outcome {
    var v0 := Noticed(v, at(BeforeFetch));
    if v0.server.None? then NullAccess
    else
      var v1 := Noticed(v0, at(BeforeStore)).(sensors := w.sensors, buffer := w.buffer);
      var v2 := Noticed(v1, at(BeforeCount));
      StoreList(Noticed(v2, at(BeforeMalloc)), |v2.sensors|, w.mallocFails, at)
  }

  predicate NeedsInit(v: View, w: World) { v.server.None? || w.ping != NO_ERROR }

  function AssertState(v: View, w: World, at: Window -> bool): Outcome {
    if !NeedsInit(v, w) then Done(v, NO_ERROR)
    else match Connect(v.server, w.attempts, 0)
      case Failed(server, err) => Done(v.(server := server), err)
      case Settled(None) => Fatal
      case Settled(Some(server)) => Initialise(v.(server := Some(server)), w, at)
  }

  /** A query that holds mLock. */
  function Query(v: View, w: World): Outcome { AssertState(v, w, Never()) }

  const FRESH := View(None, None, [], 0, 0, [])

  /** The constructor's query, which does not hold mLock. */
  function Construct(w: World, at: Window -> bool): Outcome { AssertState(FRESH, w, at) }

  datatype Event = Death | Asked(world: World)

  /** What happens to a manager after its constructor: deaths and locked queries, until one of them
      ends the process. */
  function Run(start: View, events: seq<Event>): Outcome
    decreases |events|
  {
    if events == [] then Done(start, NO_ERROR)
    else
      var before := Run(start, events[..|events| - 1]);
      if !before.Done? then before
      else match events[|events| - 1]
        case Death => Done(Died(before.view), NO_ERROR)
        case Asked(w) => Query(before.view, w)
  }

  /** The entries of the list are exactly the addresses of the cached sensors, in order; without a
      list there are none. */
  ghost predicate Agrees(v: View) {
    match v.list
    case None => v.sensors == []
    case Some(b) =>
      && |b.entries| == |v.sensors|
      && forall i :: 0 <= i < |b.entries| ==> b.entries[i] == SensorPtr(v.buffer, i)
  }

  /** What keeps every access through the list in bounds, even where the list does not agree. */
  ghost predicate InBounds(v: View) { v.sensors == [] || Agrees(v) }

  /** No block was freed twice, and the block in use is allocated and not freed. */
  ghost predicate HeapSafe(v: View) {
    && (forall i :: 0 <= i < |v.freed| ==> v.freed[i] < v.blocks)
    && (forall i, j :: 0 <= i < j < |v.freed| ==> v.freed[i] != v.freed[j])
    && (v.list.Some? ==> v.list.value.id < v.blocks && v.list.value.id !in v.freed)
  }

  // ---------------------------------------------------------------------------------------------
  // Steps
  // ---------------------------------------------------------------------------------------------

  lemma DiedKeeps(v: View)
    requires HeapSafe(v)
    ensures HeapSafe(Died(v)) && Agrees(Died(v)) && Died(Died(v)) == Died(v)
  {
    if v.list.Some? {
      var freed := Died(v).freed;
      forall i, j | 0 <= i < j < |freed| ensures freed[i] != freed[j] {
        if j == |v.freed| {
          assert freed[i] in v.freed;
        }
      }
    }
  }

  lemma {:induction false} ConnectFails(server: Option<nat>, attempts: nat -> Attempt, i: nat)
    ensures var c := Connect(server, attempts, i);
            c.Failed? ==> c.err != NO_ERROR && c.err != NAME_NOT_FOUND
    decreases 60 - i
  {
    if i < 60 {
      ConnectFails(attempts(i).server, attempts, i + 1);
    }
  }

  /** The loop survives exactly when no notice falls before one of its writes; then the list holds
      every address, unless a notice before the return took it away. */
  lemma {:induction false} FillExact(v: View, count: nat, i: nat, at: Window -> bool)
    requires i <= count && v.list.Some? && v.list.value.entries == PointersInto(v.buffer, i)
    ensures var r := Fill(v, count, i, at);
            && (r.Done? <==> forall k :: i <= k < count ==> !at(BeforeFill(k)))
            && (r.Done? ==>
                  r == Done(Noticed(v.(list := Some(Block(v.list.value.id, PointersInto(v.buffer, count)))),
                                    at(BeforeFill(count))), NO_ERROR))
            && !r.Fatal?
    decreases count - i
  {
    if i < count {
      if at(BeforeFill(i)) {
        assert Fill(v, count, i, at) == NullAccess;
      } else {
        var b := v.list.value;
        var v' := v.(list := Some(b.(entries := b.entries + [SensorPtr(v.buffer, i)])));
        assert v'.list.value.entries == PointersInto(v.buffer, i + 1);
        FillExact(v', count, i + 1, at);
      }
    }
  }

  /** The number of entries the new list gets. */
  function Counted(w: World, at: Window -> bool): nat {
    if at(BeforeCount) then 0 else |w.sensors|
  }

  predicate Survives(w: World, at: Window -> bool) {
    && !at(BeforeFetch) && !w.mallocFails && !at(BeforeCheck)
    && forall k :: 0 <= k < Counted(w, at) ==> !at(BeforeFill(k))
  }

  lemma NoticedKeeps(v: View, hit: bool)
    requires HeapSafe(v)
    ensures HeapSafe(Noticed(v, hit))
    ensures hit ==> Agrees(Noticed(v, hit))
  {
    DiedKeeps(v);
  }

  /** The view in which the list is stored: what the notices so far have left. */
  function Prepared(v: View, w: World, at: Window -> bool): View {
    Noticed(Noticed(Noticed(v, at(BeforeStore)).(sensors := w.sensors, buffer := w.buffer), at(BeforeCount)),
            at(BeforeMalloc))
  }

  /** The view an initialisation that survives returns with. */
  function Initialised(v: View, w: World, at: Window -> bool): View {
    var v3, n := Prepared(v, w, at), Counted(w, at);
    Noticed(v3.(list := Some(Block(v3.blocks, PointersInto(v3.buffer, n))), blocks := v3.blocks + 1),
            at(BeforeFill(n)))
  }

  lemma InitialiseExact(v: View, w: World, at: Window -> bool)
    requires v.server.Some?
    ensures Initialise(v, w, at).Done? <==> Survives(w, at)
    ensures Survives(w, at) ==> Initialise(v, w, at) == Done(Initialised(v, w, at), NO_ERROR)
    ensures Initialise(v, w, at).Fatal? <==> !at(BeforeFetch) && (w.mallocFails || at(BeforeCheck))
  {
    if !at(BeforeFetch) && !w.mallocFails && !at(BeforeCheck) {
      var v3 := Prepared(v, w, at);
      var v4 := v3.(list := Some(Block(v3.blocks, [])), blocks := v3.blocks + 1);
      assert [] == PointersInto(v4.buffer, 0);
      FillExact(v4, Counted(w, at), 0, at);
    }
  }

  lemma PreparedKeeps(v: View, w: World, at: Window -> bool)
    requires HeapSafe(v)
    ensures var r := Prepared(v, w, at);
            && HeapSafe(r)
            && r.sensors == (if at(BeforeCount) || at(BeforeMalloc) then [] else w.sensors)
            && r.server == (if at(BeforeStore) || at(BeforeCount) || at(BeforeMalloc) then None else v.server)
  {
    NoticedKeeps(v, at(BeforeStore));
    var v1 := Noticed(v, at(BeforeStore)).(sensors := w.sensors, buffer := w.buffer);
    assert HeapSafe(v1);
    NoticedKeeps(v1, at(BeforeCount));
    NoticedKeeps(Noticed(v1, at(BeforeCount)), at(BeforeMalloc));
  }

  lemma NewListKeeps(v: View, count: nat)
    requires HeapSafe(v)
    ensures var r := v.(list := Some(Block(v.blocks, PointersInto(v.buffer, count))), blocks := v.blocks + 1);
            HeapSafe(r) && (Agrees(r) <==> |v.sensors| == count)
  {
  }

  lemma {:induction false} InitialisedKeeps(v: View, w: World, at: Window -> bool)
    requires HeapSafe(v)
    ensures var r := Initialised(v, w, at);
            && HeapSafe(r) && InBounds(r)
            && r.sensors == (if at(BeforeCount) || at(BeforeMalloc) || at(BeforeFill(Counted(w, at))) then []
                             else w.sensors)
            && (Agrees(r) <==> Counted(w, at) == 0 || !at(BeforeMalloc) || at(BeforeFill(Counted(w, at))))
            && (r.server == if at(BeforeStore) || at(BeforeCount) || at(BeforeMalloc) || at(BeforeFill(Counted(w, at)))
                            then None else v.server)
  {
    PreparedKeeps(v, w, at);
    var v3, n := Prepared(v, w, at), Counted(w, at);
    NewListKeeps(v3, n);
    NoticedKeeps(v3.(list := Some(Block(v3.blocks, PointersInto(v3.buffer, n))), blocks := v3.blocks + 1),
                 at(BeforeFill(n)));
  }

  /** One query, with notices in any windows, keeps the heap safe and every access in bounds; it
      answers NO_ERROR with a server at hand if no notice fell, and any other answer changes nothing
      but the server. A locked query that re-initialises ends in agreement. */
  lemma AssertStateKeeps(v: View, w: World, at: Window -> bool)
    requires HeapSafe(v) && InBounds(v)
    ensures var r := AssertState(v, w, at);
            r.Done? ==>
              && HeapSafe(r.view) && InBounds(r.view)
              && (r.status != NO_ERROR ==> r.view == v.(server := r.view.server))
              && (at == Never() ==>
                    && (r.status == NO_ERROR ==> r.view.server.Some?)
                    && (Agrees(r.view) <==>
                          Agrees(v) || ((v.server.None? || w.ping != NO_ERROR) && r.status == NO_ERROR)))
  {
    ConnectFails(v.server, w.attempts, 0);
    match Connect(v.server, w.attempts, 0)
    case Settled(Some(server)) =>
      var v' := v.(server := Some(server));
      InitialiseExact(v', w, at);
      InitialisedKeeps(v', w, at);
    case _ =>
  }

  /** What a locked query returns with when it re-initialises. */
  lemma QueryValue(v: View, w: World)
    ensures Query(v, w) ==
            if v.server.Some? && w.ping == NO_ERROR then Done(v, NO_ERROR)
            else match Connect(v.server, w.attempts, 0)
              case Failed(server, err) => Done(v.(server := server), err)
              case Settled(None) => Fatal
              case Settled(Some(server)) =>
                if w.mallocFails then Fatal
                else Done(View(Some(server), Some(Block(v.blocks, PointersInto(w.buffer, |w.sensors|))),
                               w.sensors, w.buffer, v.blocks + 1, v.freed), NO_ERROR)
  {
    match Connect(v.server, w.attempts, 0)
    case Settled(Some(server)) => InitialiseExact(v.(server := Some(server)), w, Never());
    case _ =>
  }

  // ---------------------------------------------------------------------------------------------
  // The constructor
  // ---------------------------------------------------------------------------------------------

  /** For every choice of windows hit by death notices: when the constructor finishes and how it ends
      otherwise, when it is connected, what mSensors holds, and when its list agrees with that. */
  lemma ConstructionExact(w: World, at: Window -> bool)
    ensures var c, r := Connect(None, w.attempts, 0), Construct(w, at);
            var n := if at(BeforeCount) then 0 else |w.sensors|;
            var lost := exists k :: 0 <= k < n && at(BeforeFill(k));
            && (r.Fatal? <==> c.Settled? && (c.server.None? ||
                                             (!at(BeforeFetch) && (w.mallocFails || at(BeforeCheck)))))
            && (r.NullAccess? <==> c.Settled? && c.server.Some? &&
                                   (at(BeforeFetch) || (!w.mallocFails && !at(BeforeCheck) && lost)))
            && (c.Failed? ==> r == Done(FRESH.(server := c.server), c.err))
            && (!c.Failed? && r.Done? ==>
                  && r.status == NO_ERROR
                  && r.view.server == (if at(BeforeStore) || at(BeforeCount) || at(BeforeMalloc) || at(BeforeFill(n))
                                       then None else c.server)
                  && r.view.sensors == (if at(BeforeCount) || at(BeforeMalloc) || at(BeforeFill(n))
                                        then [] else w.sensors)
                  && (Agrees(r.view) <==> n == 0 || !at(BeforeMalloc) || at(BeforeFill(n))))
  {
    match Connect(None, w.attempts, 0)
    case Settled(Some(server)) =>
      var v := FRESH.(server := Some(server));
      InitialiseExact(v, w, at);
      InitialisedKeeps(v, w, at);
    case _ =>
  }

  /** Whenever the service lists a sensor, one notice between reading the count and storing the list
      makes the constructor answer NO_ERROR with a list that does not agree and without a server. */
  lemma NoticeDuringConstruction(w: World)
    requires Connect(None, w.attempts, 0).Settled? && Connect(None, w.attempts, 0).server.Some?
    requires w.sensors != [] && !w.mallocFails
    ensures var r := Construct(w, x => x == BeforeMalloc);
            r.Done? && r.status == NO_ERROR && !Agrees(r.view) && r.view.server == None
  {
    ConstructionExact(w, x => x == BeforeMalloc);
  }

  /** And one before the sensors are fetched ends the process. */
  lemma NoticeBeforeFetch(w: World, at: Window -> bool)
    requires Connect(None, w.attempts, 0).Settled? && Connect(None, w.attempts, 0).server.Some?
    requires at(BeforeFetch)
    ensures Construct(w, at) == NullAccess
  {
  }

  // ---------------------------------------------------------------------------------------------
  // Whole histories
  // ---------------------------------------------------------------------------------------------

  /** Some event since start left the list in agreement: a death, or a query that re-initialised. */
  predicate Refreshed(start: View, events: seq<Event>)
    decreases |events|
  {
    if events == [] then false
    else
      var front, e := events[..|events| - 1], events[|events| - 1];
      var before := Run(start, front);
      Refreshed(start, front) ||
      (before.Done? &&
       (e.Death? || ((before.view.server.None? || e.world.ping != NO_ERROR) && Query(before.view, e.world).Done?
                     && Query(before.view, e.world).status == NO_ERROR)))
  }

  /** From any safe view, and so from every finished constructor: the heap stays safe, every access
      stays in bounds, a query that answers NO_ERROR is connected, and the list agrees with mSensors
      exactly when it did at the start or was refreshed since. */
  lemma {:induction false} HistoryExact(start: View, events: seq<Event>)
    requires HeapSafe(start) && InBounds(start)
    ensures var r := Run(start, events);
            r.Done? ==>
              && HeapSafe(r.view) && InBounds(r.view)
              && (Agrees(r.view) <==> Agrees(start) || Refreshed(start, events))
              && (events != [] && events[|events| - 1].Asked? && r.status == NO_ERROR ==> r.view.server.Some?)
    decreases |events|
  {
    if events != [] {
      var front, e := events[..|events| - 1], events[|events| - 1];
      HistoryExact(start, front);
      var before := Run(start, front);
      if before.Done? {
        DiedKeeps(before.view);
        if e.Asked? {
          AssertStateKeeps(before.view, e.world, Never());
        }
      }
    }
  }

  /** Every history of a manager, from its constructor on, whatever notices the constructor met. */
  lemma ManagerHistory(w: World, at: Window -> bool, events: seq<Event>)
    requires Construct(w, at).Done?
    ensures var start := Construct(w, at).view;
            var r := Run(start, events);
            r.Done? ==>
              && HeapSafe(r.view) && InBounds(r.view)
              && (Agrees(r.view) <==> Agrees(start) || Refreshed(start, events))
              && (events != [] && events[|events| - 1].Asked? && r.status == NO_ERROR ==> r.view.server.Some?)
  {
    AssertStateKeeps(FRESH, w, at);
    HistoryExact(Construct(w, at).view, events);
  }

  /** getService stores a server only together with NO_ERROR. */
  ghost predicate HonestService(w: World) {
    forall k: nat :: w.attempts(k).err != NO_ERROR ==> w.attempts(k).server.None?
  }

  ghost predicate HonestHistory(events: seq<Event>) {
    forall k :: 0 <= k < |events| ==> events[k].Asked? ==> HonestService(events[k].world)
  }

  lemma {:induction false} HonestConnect(server: Option<nat>, attempts: nat -> Attempt, i: nat)
    requires forall k: nat :: attempts(k).err != NO_ERROR ==> attempts(k).server.None?
    ensures Connect(server, attempts, i).Failed? ==> Connect(server, attempts, i).server.None?
    decreases 60 - i
  {
    if i < 60 {
      HonestConnect(attempts(i).server, attempts, i + 1);
    }
  }

  /** With such a service, having a server means having a list that agrees, after every constructor and
      every event; so every query that answers NO_ERROR, the first after a disturbed constructor
      included, restores the agreement. */
  lemma {:induction false} AnswersAgree(w: World, at: Window -> bool, events: seq<Event>)
    requires Construct(w, at).Done? && HonestHistory(events)
    ensures var r := Run(Construct(w, at).view, events);
            r.Done? ==>
              && (r.view.server.Some? ==> Agrees(r.view))
              && (events != [] && events[|events| - 1].Asked? && r.status == NO_ERROR ==>
                    Agrees(r.view) && HeapSafe(r.view))
    decreases |events|
  {
    var start := Construct(w, at).view;
    ManagerHistory(w, at, events);
    if events == [] {
      ConstructionExact(w, at);
    } else {
      var front, e := events[..|events| - 1], events[|events| - 1];
      AnswersAgree(w, at, front);
      ManagerHistory(w, at, front);
      var before := Run(start, front);
      if before.Done? && e.Asked? {
        AssertStateKeeps(before.view, e.world, Never());
        QueryValue(before.view, e.world);
        assert HonestService(events[|events| - 1].world);
        HonestConnect(before.view.server, e.world.attempts, 0);
      }
    }
  }

  /** The retry loop settles on the first of its 60 attempts that is not NAME_NOT_FOUND, at position
      k; when there is none (k == 60) it settles on what the last attempt stored. */
  lemma {:induction false} ConnectAnswers(server: Option<nat>, attempts: nat -> Attempt, i: nat) returns (k: nat)
    requires i < 60
    ensures i <= k <= 60 && forall j :: i <= j < k ==> attempts(j).err == NAME_NOT_FOUND
    ensures k < 60 ==> attempts(k).err != NAME_NOT_FOUND
    ensures Connect(server, attempts, i) ==
            if k == 60 then Settled(attempts(59).server)
            else if attempts(k).err == NO_ERROR then Settled(attempts(k).server)
            else Failed(attempts(k).server, attempts(k).err)
    decreases 60 - i
  {
    k := i;
    if attempts(i).err == NAME_NOT_FOUND {
      if i == 59 {
        k := 60;
      } else {
        k := ConnectAnswers(attempts(i).server, attempts, i + 1);
      }
    }
  }

  /** Queries that replaced a list still in use; assertStateLocked does not free it. */
  function Replaced(start: View, events: seq<Event>): nat
    decreases |events|
  {
    if events == [] then 0
    else
      var before, e := Run(start, events[..|events| - 1]), events[|events| - 1];
      Replaced(start, events[..|events| - 1]) +
      if before.Done? && e.Asked? && before.view.list.Some?
         && (before.view.server.None? || e.world.ping != NO_ERROR)
         && Query(before.view, e.world).Done? && Query(before.view, e.world).status == NO_ERROR
      then 1 else 0
  }

  ghost predicate Accounted(v: View, replaced: nat) {
    v.blocks == |v.freed| + (if v.list.Some? then 1 else 0) + replaced
  }

  lemma ConstructionAccounted(w: World, at: Window -> bool)
    ensures Construct(w, at).Done? ==> Accounted(Construct(w, at).view, 0)
  {
    match Connect(None, w.attempts, 0)
    case Settled(Some(server)) => InitialiseExact(FRESH.(server := Some(server)), w, at);
    case _ =>
  }

  /** Every block is freed, in use, or was dropped by a re-initialisation over a live list. */
  lemma {:induction false} BlocksAccountedFor(w: World, at: Window -> bool, events: seq<Event>)
    requires Construct(w, at).Done?
    ensures var start := Construct(w, at).view;
            Run(start, events).Done? ==> Accounted(Run(start, events).view, Replaced(start, events))
    decreases |events|
  {
    if events == [] {
      ConstructionAccounted(w, at);
    } else {
      var front, e := events[..|events| - 1], events[|events| - 1];
      BlocksAccountedFor(w, at, front);
      var before := Run(Construct(w, at).view, front);
      if before.Done? && e.Asked? {
        ConnectFails(before.view.server, e.world.attempts, 0);
        QueryValue(before.view, e.world);
      }
    }
  }

  /** Events during which a list handed out by getSensorList stays the current one. */
  predicate Undisturbed(events: seq<Event>) {
    forall k :: 0 <= k < |events| ==> events[k].Asked? && events[k].world.ping == NO_ERROR
  }

  /** A connected manager whose service answers pings keeps its list, its sensors and its server,
      whatever else the world offers; the pointers it handed out stay good. */
  lemma {:induction false} StableWhileAlive(start: View, events: seq<Event>)
    requires start.server.Some? && Undisturbed(events)
    ensures Run(start, events) == Done(start, NO_ERROR)
    decreases |events|
  {
    if events != [] {
      StableWhileAlive(start, events[..|events| - 1]);
    }
  }

  /** A list handed out by getSensorList stays the current one until, and no longer than until, a death
      is noticed or a query re-initialises: exactly when it goes stale. */
  lemma {:induction false} ListGoesStaleExactly(start: View, events: seq<Event>)
    requires start.list.Some? && start.list.value.id < start.blocks
    ensures var r := Run(start, events);
            r.Done? ==>
              && start.blocks <= r.view.blocks
              && (r.view.list == start.list <==> !Refreshed(start, events))
              && (r.view.list.Some? ==> r.view.list == start.list || r.view.list.value.id != start.list.value.id)
    decreases |events|
  {
    if events != [] {
      var front, e := events[..|events| - 1], events[|events| - 1];
      ListGoesStaleExactly(start, front);
      var before := Run(start, front);
      if before.Done? && e.Asked? {
        ConnectFails(before.view.server, e.world.attempts, 0);
        QueryValue(before.view, e.world);
      }
    }
  }

  /** Which successful queries keep the list of a connected manager, after any history: exactly those
      whose ping answers NO_ERROR. After any other ping the manager has the server its attempts settled
      on, what that one lists, and a new list of the addresses. */
  lemma FailedPingRefreshes(start: View, events: seq<Event>, w: World)
    requires HeapSafe(start) && InBounds(start) && Run(start, events).Done?
    requires Run(start, events).view.server.Some?
    ensures var v, q := Run(start, events).view, Run(start, events + [Asked(w)]);
            q.Done? && q.status == NO_ERROR ==>
              && (q.view.list == v.list <==> w.ping == NO_ERROR)
              && (w.ping == NO_ERROR ==> q.view == v)
              && (w.ping != NO_ERROR ==>
                    && q.view.server.Some? && Connect(v.server, w.attempts, 0) == Settled(q.view.server)
                    && q.view.sensors == w.sensors && q.view.buffer == w.buffer
                    && q.view.list.Some? && q.view.list.value.id == v.blocks
                    && |q.view.list.value.entries| == |w.sensors|
                    && forall i :: 0 <= i < |w.sensors| ==> q.view.list.value.entries[i] == SensorPtr(w.buffer, i))
  {
    var v := Run(start, events).view;
    assert (events + [Asked(w)])[..|events|] == events;
    HistoryExact(start, events);
    ConnectFails(v.server, w.attempts, 0);
    QueryValue(v, w);
  }

  /** After a death, whoever reported it and however often, the next query that answers NO_ERROR has
      asked the service again and holds exactly what it listed. */
  lemma DeathForcesRefresh(start: View, events: seq<Event>, w: World)
    requires Run(start, events).Done?
    ensures var r := Run(start, events + [Death, Asked(w)]);
            r.Done? && r.status == NO_ERROR ==>
              && r.view.sensors == w.sensors && r.view.buffer == w.buffer
              && r.view.list == Some(Block(Run(start, events).view.blocks, PointersInto(w.buffer, |w.sensors|)))
  {
    var died := events + [Death];
    assert events + [Death, Asked(w)] == died + [Asked(w)];
    assert died[..|died| - 1] == events;
    assert (died + [Asked(w)])[..|died|] == died;
    ConnectFails(None, w.attempts, 0);
    QueryValue(Run(start, died).view, w);
  }

  // ---------------------------------------------------------------------------------------------
  // The class
  // ---------------------------------------------------------------------------------------------

  class SensorManager {
    const opPackageName: string
    var sensorServer: Option<nat>
    var sensorList: array?<SensorPtr>
    var sensors: seq<Sensor>
    var sensorsArray: nat            // mSensors.array()
    var aborted: bool                // the process has ended
    ghost var listId: nat
    ghost var blocks: nat
    ghost var freed: seq<nat>

    /** The state with the first n entries of the list. */
    ghost function UpTo(n: nat): View
      requires sensorList != null ==> n <= sensorList.Length
      reads this, sensorList
    {
      View(sensorServer, if sensorList == null then None else Some(Block(listId, sensorList[..n])),
           sensors, sensorsArray, blocks, freed)
    }

    ghost function Abstract(): View
      reads this, sensorList
    {
      UpTo(if sensorList == null then 0 else sensorList.Length)
    }

    ghost predicate Valid()
      reads this, sensorList
    {
      !aborted ==> HeapSafe(Abstract()) && InBounds(Abstract())
    }

    /** at names the windows in which a death notice reaches the manager under construction. */
    constructor (packageName: string, w: World, at: Window -> bool)
      ensures opPackageName == packageName && Valid()
      ensures aborted <==> !Construct(w, at).Done?
      ensures !aborted ==> Abstract() == Construct(w, at).view
    {
      opPackageName := packageName;
      sensorServer, sensorList, sensors, sensorsArray, aborted := None, null, [], 0, false;
      listId, blocks, freed := 0, 0, [];
      new;
      var _ := AssertStateLocked(w, at);
    }

    /** Dereferencing an entry of the list: the address must lie in the live buffer of mSensors. */
    function Deref(p: SensorPtr): Sensor
      requires p.buffer == sensorsArray && p.index < |sensors|
      reads this
    {
      sensors[p.index]
    }

    /** What is freed is NULL, or a block that was allocated and not freed yet. */
    method FreeList()
      requires sensorList != null ==> listId < blocks && listId !in freed
      modifies this`freed
      ensures freed == if sensorList == null then old(freed) else old(freed) + [listId]
    {
      if sensorList != null {
        freed := freed + [listId];
      }
    }

    method SensorManagerDied()
      requires !aborted && HeapSafe(Abstract())
      modifies this`sensorServer, this`sensorList, this`sensors, this`sensorsArray, this`freed
      ensures Valid() && Abstract() == Died(old(Abstract())) && sensorList == null
    {
      DiedKeeps(Abstract());
      sensorServer := None;
      FreeList();
      sensorList := null;
      sensors, sensorsArray := [], 0;
    }

    /** A death notice, if one falls here. */
    method Notice(hit: bool)
      requires !aborted && HeapSafe(Abstract())
      modifies this`sensorServer, this`sensorList, this`sensors, this`sensorsArray, this`freed
      ensures Abstract() == Noticed(old(Abstract()), hit) && HeapSafe(Abstract())
      ensures sensorList == if hit then null else old(sensorList)
    {
      if hit {
        SensorManagerDied();
      }
    }

    /** assertStateLocked; callers that hold mLock pass Never(). */
    method AssertStateLocked(w: World, at: Window -> bool) returns (status: StatusT)
      requires !aborted && Valid()
      modifies this
      ensures Valid()
      ensures aborted <==> !AssertState(old(Abstract()), w, at).Done?
      ensures !aborted ==> Done(Abstract(), status) == AssertState(old(Abstract()), w, at)
    {
      AssertStateKeeps(Abstract(), w, at);
      status := NO_ERROR;
      var initSensorManager := false;
      if sensorServer == None {
        initSensorManager := true;
      } else if w.ping != NO_ERROR {
        initSensorManager := true;
      }
      if initSensorManager {
        status := ConnectToService(w);
        if status != NO_ERROR {
          return;
        }
        if sensorServer == None {
          aborted := true;
          return;
        }
        InitialiseList(w, at);
      }
    }

    /** The retry loop: up to 60 attempts while the service is not found; any other error is final. */
    method ConnectToService(w: World) returns (status: StatusT)
      modifies this`sensorServer
      ensures Connect(old(sensorServer), w.attempts, 0) ==
              if status == NO_ERROR then Settled(sensorServer) else Failed(sensorServer, status)
    {
      status := NO_ERROR;
      var i := 0;
      while i < 60
        invariant 0 <= i <= 60
        invariant Connect(sensorServer, w.attempts, i) == Connect(old(sensorServer), w.attempts, 0)
        decreases 60 - i
      {
        var a := w.attempts(i);
        sensorServer := a.server;
        if a.err == NAME_NOT_FOUND {
          i := i + 1;
          continue;
        }
        if a.err != NO_ERROR {
          return a.err;
        }
        break;
      }
    }

    /** From the linked observer to the return. A NULL server, or a NULL list in the filling loop, ends
        the process where it is used. */
    method InitialiseList(w: World, at: Window -> bool)
      requires !aborted && HeapSafe(Abstract())
      modifies this
      ensures aborted <==> !Initialise(old(Abstract()), w, at).Done?
      ensures !aborted ==> Done(Abstract(), NO_ERROR) == Initialise(old(Abstract()), w, at)
    {
      Notice(at(BeforeFetch));
      if sensorServer == None {
        aborted := true;
        return;
      }
      var fetched := w.sensors;
      Notice(at(BeforeStore));
      sensors, sensorsArray := fetched, w.buffer;
      Notice(at(BeforeCount));
      var count := |sensors|;
      Notice(at(BeforeMalloc));
      NewList(count, w.mallocFails, at);
    }

    /** The allocation, its check and the filling loop. */
    method NewList(count: nat, mallocFails: bool, at: Window -> bool)
      requires !aborted && HeapSafe(Abstract())
      modifies this
      ensures aborted <==> !StoreList(old(Abstract()), count, mallocFails, at).Done?
      ensures !aborted ==> Done(Abstract(), NO_ERROR) == StoreList(old(Abstract()), count, mallocFails, at)
    {
      NewListKeeps(Abstract(), count);
      if mallocFails {
        sensorList := null;
        aborted := true;
        return;
      }
      sensorList := new SensorPtr[count];
      listId, blocks := blocks, blocks + 1;
      Notice(at(BeforeCheck));
      if sensorList == null {
        aborted := true;
        return;
      }
      FillList(count, at);
    }

    /** Writes the address of every cached sensor into the list. */
    method FillList(count: nat, at: Window -> bool)
      requires !aborted && HeapSafe(Abstract())
      requires sensorList != null && sensorList.Length == count
      modifies this, sensorList
      ensures aborted <==> !Fill(old(UpTo(0)), count, 0, at).Done?
      ensures !aborted ==> Done(Abstract(), NO_ERROR) == Fill(old(UpTo(0)), count, 0, at)
    {
      var i := 0;
      while i < count
        invariant 0 <= i <= count && !aborted && HeapSafe(Abstract())
        invariant sensorList != null && sensorList == old(sensorList)
        invariant Fill(UpTo(i), count, i, at) == Fill(old(UpTo(0)), count, 0, at)
      {
        ghost var before := UpTo(i);
        Notice(at(BeforeFill(i)));
        if sensorList == null {
          aborted := true;
          return;
        }
        sensorList[i] := SensorPtr(sensorsArray, i);
        assert sensorList[..i + 1] == before.list.value.entries + [SensorPtr(sensorsArray, i)];
        i := i + 1;
      }
      Notice(at(BeforeFill(count)));
    }

    /** A negative status is passed on; otherwise the list and the number of sensors. */
    method GetSensorList(w: World) returns (count: int, list: array?<SensorPtr>)
      requires !aborted && Valid()
      modifies this
      ensures Valid()
      ensures aborted <==> !Query(old(Abstract()), w).Done?
      ensures !aborted ==>
                var r := Query(old(Abstract()), w);
                && Abstract() == r.view
                && (r.status < 0 ==> count == r.status && list == null)
                && (r.status >= 0 ==> count == |sensors| && list == sensorList)
                && (r.status >= 0 && Agrees(r.view) ==> count == if list == null then 0 else list.Length)
      ensures !aborted && Query(old(Abstract()), w).status >= 0 ==>
                forall i :: 0 <= i < count ==> list != null && i < list.Length && list[i] == SensorPtr(sensorsArray, i)
    {
      list := null;
      count := 0;
      var err := AssertStateLocked(w, Never());
      if aborted {
        return;
      }
      if err < 0 {
        return err, null;
      }
      if sensorList != null {
        assert forall i :: 0 <= i < sensorList.Length ==> sensorList[..][i] == sensorList[i];
      }
      return |sensors|, sensorList;
    }

    /** The first sensor of the type with the wake-up flag the type calls for. */
    method GetDefaultSensor(sensorType: int, w: World) returns (p: Option<SensorPtr>)
      requires !aborted && Valid()
      modifies this
      ensures Valid()
      ensures aborted <==> !Query(old(Abstract()), w).Done?
      ensures !aborted ==> Abstract() == Query(old(Abstract()), w).view
      ensures !aborted && Query(old(Abstract()), w).status != NO_ERROR ==> p == None
      ensures !aborted && Query(old(Abstract()), w).status == NO_ERROR ==>
                var wanted := Sensor(sensorType, sensorType in WAKE_UP_TYPES);
                if p == None then wanted !in sensors
                else && p.value.buffer == sensorsArray && p.value.index < |sensors|
                     && sensors[p.value.index] == wanted && wanted !in sensors[..p.value.index]
    {
      p := None;
      var err := AssertStateLocked(w, Never());
      if aborted || err != NO_ERROR {
        return;
      }
      var wakeUpSensor := false;
      if sensorType == SENSOR_TYPE_PROXIMITY || sensorType == SENSOR_TYPE_SIGNIFICANT_MOTION
         || sensorType == SENSOR_TYPE_TILT_DETECTOR || sensorType == SENSOR_TYPE_WAKE_GESTURE
         || sensorType == SENSOR_TYPE_GLANCE_GESTURE || sensorType == SENSOR_TYPE_PICK_UP_GESTURE
         || sensorType == SENSOR_TYPE_WRIST_TILT_GESTURE {
        wakeUpSensor := true;
      }
      var i := 0;
      while i < |sensors|
        invariant 0 <= i <= |sensors|
        invariant Sensor(sensorType, wakeUpSensor) !in sensors[..i]
      {
        assert Agrees(Abstract());
        assert sensorList != null && sensorList[..][i] == SensorPtr(sensorsArray, i);
        if Deref(sensorList[i]).sensorType == sensorType && Deref(sensorList[i]).wakeUp == wakeUpSensor {
          return Some(sensorList[i]);
        }
        i := i + 1;
      }
    }

    /** createEventQueue's loop runs its body at most once; connection is the service's answer. The
        call on the server is made only with a server at hand. */
    method CreateEventQueue(w: World, connection: Option<nat>) returns (queue: Option<nat>)
      requires !aborted && Valid()
      modifies this
      ensures Valid()
      ensures aborted <==> !Query(old(Abstract()), w).Done?
      ensures !aborted ==> Abstract() == Query(old(Abstract()), w).view
      ensures !aborted ==> queue == if Query(old(Abstract()), w).status == NO_ERROR then connection else None
      ensures !aborted && queue != None ==> sensorServer != None
    {
      AssertStateKeeps(Abstract(), w, Never());
      queue := None;
      var err := AssertStateLocked(w, Never());
      if aborted {
        return;
      }
      if err == NO_ERROR {
        assert sensorServer != None;
        if connection == None {
          return None;
        }
        queue := connection;
      }
    }
  }
}
