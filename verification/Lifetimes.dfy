/** The life of a command in both tables of the Wi-Fi HAL: wifi_start_gscan, wifi_cancel_cmd and the
    commands shaped like them (mtk/hal/libwifi-hal-mt66xx/gscan.cpp:707-771, wifi_hal.cpp:1155-1194,
    rtt.cpp:624-643, common.cpp:231-244, cpp_bindings.h:253-265), one API call or event at a time. */
module Lifetimes {
  import opened Lists
  import opened WifiTypes
  import E = EventTable
  import C = CommandTable

  /** A vendor event, as registerVendorHandler names it. */
  datatype Topic = Topic(vendorId: int, subcmd: int)

  /** What the constructor, start() and cancel() of a command class fix: the request id, the topics that
      start() registers and those that cancel() unregisters, each in its own order. */
  datatype Client = Client(id: int, topics: seq<Topic>, undo: seq<Topic>)

  datatype Object = Object(client: Client, refs: nat)

  /** misused records a call on, or a reference to, a deleted command. */
  datatype World = World(events: seq<E.CbInfo>, commands: C.State, objects: map<Address, Object>, misused: bool)

  datatype Room = Room(events: nat, commands: nat)

  datatype Result = Runs | FailsBefore | FailsAfter   // start(), and whether it had registered its topics

  datatype Op =
    | Start(cmd: Address, client: Client, result: Result)
    | Cancel(id: int)
    | Sweep(topics: seq<Topic>)               // cancel() of a throwaway command (gscan.cpp:738-748)
    | Event(topic: Topic, completes: bool)    // with or without the last result (rtt.cpp:608-619)

  /** WifiCommand::event_handler; which function it is does not matter here. */
  const EVENT_HANDLER: Address := 1

  const NOTHING := World([], C.EMPTY, map[], false)

  function TopicKey(tp: Topic): E.Key { E.Key(E.NL80211_CMD_VENDOR, tp.vendorId, tp.subcmd) }

  /** The queue of a topic. */
  function Queue(t: seq<E.CbInfo>, tp: Topic): seq<E.CbInfo> { Filter(t, E.HasKey(TopicKey(tp))) }

  predicate Alive(w: World, cmd: Address) { cmd in w.objects && w.objects[cmd].refs > 0 }

  function Subscribe(t: seq<E.CbInfo>, room: Room, topics: seq<Topic>, cmd: Address): seq<E.CbInfo>
    decreases |topics|
  {
    if topics == [] then t
    else
      var front, tp := topics[..|topics| - 1], topics[|topics| - 1];
      E.Apply(Subscribe(t, room, front, cmd), room.events,
              E.RegisterVendor(tp.vendorId, tp.subcmd, EVENT_HANDLER, cmd)).table
  }

  function Unsubscribe(t: seq<E.CbInfo>, room: Room, topics: seq<Topic>): seq<E.CbInfo>
    decreases |topics|
  {
    if topics == [] then t
    else
      var front, tp := topics[..|topics| - 1], topics[|topics| - 1];
      E.Apply(Unsubscribe(t, room, front), room.events, E.UnregisterVendor(tp.vendorId, tp.subcmd)).table
  }

  /** releaseRef. */
  function Release(w: World, cmd: Address): World {
    if cmd == NULL then w
    else if !Alive(w, cmd) then w.(misused := true)
    else
      var o := w.objects[cmd];
      w.(objects := w.objects[cmd := o.(refs := o.refs - 1)])
  }

  /** The command the next removal under id takes, or NULL. */
  function Holder(w: World, id: int): Address { C.Oldest(w.commands.table, id) }

  /** new, wifi_register_cmd and start(). new answers with an address that no living object has. */
  function Started(w: World, room: Room, cmd: Address, client: Client, result: Result): World {
    if cmd == NULL || Alive(w, cmd) then w
    else
      var created := w.(objects := w.objects[cmd := Object(client, 1)]);
      if |w.commands.table| >= room.commands then Release(created, cmd)
      else
        var entered := created.(commands := C.Do(w.commands, room.commands, C.Register(client.id, cmd)));
        var subscribed := Subscribe(w.events, room, client.topics, cmd);
        match result
        case Runs => entered.(events := subscribed)
        case FailsBefore => Withdrawn(entered, room, cmd, client.id)
        case FailsAfter =>
          Withdrawn(entered.(events := Unsubscribe(subscribed, room, client.undo)), room, cmd, client.id)
  }

  /** wifi_unregister_cmd(id), whatever that takes, and releaseRef on the command that did not start. */
  function Withdrawn(w: World, room: Room, cmd: Address, id: int): World {
    Release(w.(commands := C.Do(w.commands, room.commands, C.UnregisterId(id))), cmd)
  }

  /** wifi_cancel_cmd: the command taken undoes its topics and is released. */
  function Cancelled(w: World, room: Room, id: int): World {
    var a := Holder(w, id);
    var taken := w.(commands := C.Do(w.commands, room.commands, C.Cancel(id, [])));
    if a == NULL then taken
    else if !Alive(w, a) then taken.(misused := true)
    else Release(taken.(events := Unsubscribe(w.events, room, w.objects[a].client.undo)), a)
  }

  /** Dispatch: a reference is taken, the callback runs, the reference is given back. */
  function Happened(w: World, room: Room, tp: Topic, completes: bool): World {
    var r := E.Apply(w.events, room.events, E.Dispatch(E.NL80211_CMD_VENDOR, tp.vendorId, tp.subcmd)).reply;
    if !r.Found? || r.arg == NULL then w
    else if !Alive(w, r.arg) then w.(misused := true)
    else
      var o := w.objects[r.arg];
      var held := w.(objects := w.objects[r.arg := o.(refs := o.refs + 1)]);
      Release(if completes then Completed(held, room, o.client) else held, r.arg)
  }

  /** The command undoes its topics and releases what wifi_unregister_cmd takes. */
  function Completed(w: World, room: Room, client: Client): World {
    Withdrawn(w.(events := Unsubscribe(w.events, room, client.undo)), room, Holder(w, client.id), client.id)
  }

  function Do(w: World, room: Room, op: Op): World {
    match op
    case Start(cmd, client, result) => Started(w, room, cmd, client, result)
    case Cancel(id) => Cancelled(w, room, id)
    case Sweep(topics) => w.(events := Unsubscribe(w.events, room, topics))
    case Event(tp, completes) => Happened(w, room, tp, completes)
  }

  function Play(w: World, room: Room, ops: seq<Op>): World
    decreases |ops|
  {
    if ops == [] then w else Do(Play(w, room, ops[..|ops| - 1]), room, ops[|ops| - 1])
  }

  /** Nothing deleted was used, and no entry of either table names a deleted command. */
  predicate Healthy(w: World) {
    && !w.misused
    && (forall k :: 0 <= k < |w.events| ==> Alive(w, w.events[k].cbArg))
    && (forall k :: 0 <= k < |w.commands.table| ==> Alive(w, w.commands.table[k].cmd))
  }

  /** cancel() unregisters what start() registered. */
  predicate Tidy(client: Client) { multiset(client.topics) == multiset(client.undo) }

  /** Neither the id nor a topic of the client is in use. */
  predicate Clear(w: World, client: Client) {
    && (forall k :: 0 <= k < |w.commands.table| ==> w.commands.table[k].id != client.id)
    && (forall k :: 0 <= k < |client.topics| ==> Queue(w.events, client.topics[k]) == [])
  }

  /** Every start of the run is by a tidy client and clear when it is made. */
  ghost predicate Careful(w: World, room: Room, ops: seq<Op>)
    decreases |ops|
  {
    ops == [] ||
    (var front, op := ops[..|ops| - 1], ops[|ops| - 1];
     Careful(w, room, front) && (op.Start? ==> Tidy(op.client) && Clear(Play(w, room, front), op.client)))
  }

  // ---------------------------------------------------------------------------------------------
  // What subscribing and unsubscribing do to the queue of one topic
  // ---------------------------------------------------------------------------------------------

  /** The queue without its first n entries. */
  function Drop(q: seq<E.CbInfo>, n: nat): seq<E.CbInfo> { if n <= |q| then q[n..] else [] }

  ghost predicate VendorOnly(t: seq<E.CbInfo>) {
    forall k :: 0 <= k < |t| ==> t[k].nlCmd == E.NL80211_CMD_VENDOR
  }

  /** q' is q and then at most n entries of cmd, exactly n if nothing was refused. */
  ghost predicate Extended(q: seq<E.CbInfo>, q': seq<E.CbInfo>, n: nat, cmd: Address, accepted: bool) {
    && q <= q' && |q'| <= |q| + n && (accepted ==> |q'| == |q| + n)
    && forall k :: |q| <= k < |q'| ==> q'[k].cbArg == cmd
  }

  lemma VendorOnlyStep(t: seq<E.CbInfo>, alloc: nat, c: E.Call)
    requires VendorOnly(t) && (c.RegisterVendor? || c.UnregisterVendor?)
    ensures VendorOnly(E.Apply(t, alloc, c).table)
  {
    if c.UnregisterVendor? {
      E.RemovalAt(t, c, FirstIndex(t, E.Matching(c)));
    }
  }

  lemma {:induction false} SubscribeQueue(t: seq<E.CbInfo>, room: Room, topics: seq<Topic>, cmd: Address, tp: Topic)
    requires VendorOnly(t)
    ensures var t' := Subscribe(t, room, topics, cmd);
            && VendorOnly(t') && |t'| <= |t| + |topics|
            && Extended(Queue(t, tp), Queue(t', tp), multiset(topics)[tp], cmd, |t| + |topics| <= room.events)
    decreases |topics|
  {
    if topics != [] {
      var front, last := topics[..|topics| - 1], topics[|topics| - 1];
      assert topics == front + [last];
      SubscribeQueue(t, room, front, cmd, tp);
      var before := Subscribe(t, room, front, cmd);
      var c := E.RegisterVendor(last.vendorId, last.subcmd, EVENT_HANDLER, cmd);
      VendorOnlyStep(before, room.events, c);
      E.ProjectionStep(before, room.events, c, TopicKey(tp));
      assert E.KeyOfCall(c) == TopicKey(tp) <==> last == tp;
    }
  }

  lemma UnsubscribeOne(t: seq<E.CbInfo>, room: Room, last: Topic, tp: Topic)
    requires VendorOnly(t)
    ensures var t' := E.Apply(t, room.events, E.UnregisterVendor(last.vendorId, last.subcmd)).table;
            VendorOnly(t') && Queue(t', tp) == if last == tp then Tail(Queue(t, tp)) else Queue(t, tp)
  {
    var c := E.UnregisterVendor(last.vendorId, last.subcmd);
    VendorOnlyStep(t, room.events, c);
    E.ProjectionStep(t, room.events, c, TopicKey(tp));
    assert E.KeyOfCall(c) == TopicKey(tp) <==> last == tp;
  }

  lemma {:induction false} UnsubscribeQueue(t: seq<E.CbInfo>, room: Room, topics: seq<Topic>, tp: Topic)
    requires VendorOnly(t)
    ensures var t' := Unsubscribe(t, room, topics);
            VendorOnly(t') && Queue(t', tp) == Drop(Queue(t, tp), multiset(topics)[tp])
    decreases |topics|
  {
    if topics != [] {
      var front, last := topics[..|topics| - 1], topics[|topics| - 1];
      UnsubscribeQueue(t, room, front, tp);
      UnsubscribeOne(Unsubscribe(t, room, front), room, last, tp);
      CountLast(topics, tp);
      DropOneMore(Queue(t, tp), multiset(front)[tp]);
    }
  }

  lemma CountLast(topics: seq<Topic>, tp: Topic)
    requires topics != []
    ensures multiset(topics)[tp] ==
            multiset(topics[..|topics| - 1])[tp] + if topics[|topics| - 1] == tp then 1 else 0
  {
    assert topics == topics[..|topics| - 1] + [topics[|topics| - 1]];
  }

  lemma DropOneMore(q: seq<E.CbInfo>, n: nat)
    ensures Tail(Drop(q, n)) == Drop(q, n + 1)
  {
  }

  /** An entry of a vendor-only table is in the queue of its topic, and only there. */
  lemma InQueue(t: seq<E.CbInfo>, k: nat) returns (tp: Topic, i: nat)
    requires VendorOnly(t) && k < |t|
    ensures i < |Queue(t, tp)| && Queue(t, tp)[i] == t[k]
  {
    tp := Topic(t[k].vendorId, t[k].vendorSubcmd);
    FilterMembers(t, E.HasKey(TopicKey(tp)));
    assert t[k] in Queue(t, tp);
    i :| 0 <= i < |Queue(t, tp)| && Queue(t, tp)[i] == t[k];
  }

  // ---------------------------------------------------------------------------------------------
  // The invariant of careful runs
  // ---------------------------------------------------------------------------------------------

  /** cmd is started and not yet cancelled. */
  predicate Active(w: World, cmd: Address) {
    exists k :: 0 <= k < |w.commands.table| && w.commands.table[k].cmd == cmd
  }

  /** Each command in the table is held by that one reference, under its own id, which no other has. */
  ghost predicate CommandsGood(w: World) {
    var t := w.commands.table;
    && (forall k :: 0 <= k < |t| ==>
          && t[k].cmd != NULL && t[k].cmd in w.objects
          && w.objects[t[k].cmd].refs == 1 && w.objects[t[k].cmd].client.id == t[k].id)
    && (forall j, k :: 0 <= j < k < |t| ==> t[j].id != t[k].id)
  }

  /** The handlers of one topic belong to one active command, which will unregister at least as often. */
  ghost predicate QueueGood(w: World, tp: Topic) {
    var q := Queue(w.events, tp);
    q != [] ==>
      && Active(w, q[0].cbArg) && q[0].cbArg in w.objects
      && (forall k :: 0 <= k < |q| ==> q[k].cbArg == q[0].cbArg)
      && |q| <= multiset(w.objects[q[0].cbArg].client.undo)[tp]
  }

  ghost predicate Good(w: World) {
    !w.misused && VendorOnly(w.events) && CommandsGood(w) && forall tp :: QueueGood(w, tp)
  }

  lemma GoodIsHealthy(w: World)
    requires Good(w)
    ensures Healthy(w)
  {
    forall k | 0 <= k < |w.events| ensures Alive(w, w.events[k].cbArg) {
      var tp, i := InQueue(w.events, k);
      assert QueueGood(w, tp);
      var j :| 0 <= j < |w.commands.table| && w.commands.table[j].cmd == w.events[k].cbArg;
    }
  }

  /** Commands and objects stay, and every queue keeps a suffix. */
  lemma SweepGood(w: World, room: Room, topics: seq<Topic>)
    requires Good(w)
    ensures Good(w.(events := Unsubscribe(w.events, room, topics)))
  {
    var w' := w.(events := Unsubscribe(w.events, room, topics));
    UnsubscribeQueue(w.events, room, topics, Topic(0, 0));
    forall tp ensures QueueGood(w', tp) {
      UnsubscribeQueue(w.events, room, topics, tp);
      assert QueueGood(w, tp);
      if Queue(w'.events, tp) != [] {
        assert Queue(w'.events, tp)[0] in Queue(w.events, tp);
        assert Active(w, Queue(w.events, tp)[0].cbArg);
      }
    }
  }

  /** Only an object that is not in use changes, and some queues are emptied. */
  lemma FrameGood(w: World, w': World, cmd: Address, o: Object)
    requires Good(w) && !Active(w, cmd) && !w'.misused
    requires w'.commands.table == w.commands.table && w'.objects == w.objects[cmd := o]
    requires VendorOnly(w'.events)
    requires forall tp :: Queue(w'.events, tp) == Queue(w.events, tp) || Queue(w'.events, tp) == []
    ensures Good(w')
  {
    forall k | 0 <= k < |w.commands.table| ensures w.commands.table[k].cmd != cmd {
      assert Active(w, w.commands.table[k].cmd);
    }
    forall tp ensures QueueGood(w', tp) {
      assert QueueGood(w, tp);
      if Queue(w'.events, tp) != [] {
        assert Active(w, Queue(w.events, tp)[0].cbArg);
      }
    }
  }

  lemma CancelTable(s: C.State, alloc: nat, id: int)
    ensures C.Do(s, alloc, C.Cancel(id, [])).table == C.Do(s, alloc, C.UnregisterId(id)).table
  {
  }

  /** Where a removal under id takes place. */
  lemma HolderAt(w: World, room: Room, id: int) returns (i: nat)
    ensures i == FirstIndex(w.commands.table, C.HasId(id)) <= |w.commands.table|
    ensures Holder(w, id) == if i < |w.commands.table| then w.commands.table[i].cmd else NULL
    ensures var t' := C.Do(w.commands, room.commands, C.UnregisterId(id)).table;
            && t' == C.Do(w.commands, room.commands, C.Cancel(id, [])).table
            && t' == if i < |w.commands.table| then WithoutIndex(w.commands.table, i) else w.commands.table
  {
    i := FirstIndex(w.commands.table, C.HasId(id));
    FilterRemoved(w.commands.table, C.HasId(id));
    C.TakeAt(w.commands, C.HasId(id), C.TakenById);
    CancelTable(w.commands, room.commands, id);
  }

  /** The i-th command undoes its topics, leaves its table and loses its reference. */
  ghost predicate Finishes(w: World, w': World, room: Room, i: nat) {
    && i < |w.commands.table|
    && var a := w.commands.table[i].cmd;
    && a in w.objects
    && w'.events == Unsubscribe(w.events, room, w.objects[a].client.undo)
    && w'.objects == w.objects[a := w.objects[a].(refs := 0)]
    && w'.commands.table == WithoutIndex(w.commands.table, i)
    && !w'.misused
  }

  lemma FinishCommands(w: World, w': World, room: Room, i: nat)
    requires Good(w) && Finishes(w, w', room, i)
    ensures CommandsGood(w')
    ensures forall b :: Active(w, b) && b != w.commands.table[i].cmd ==> Active(w', b)
  {
    var t, t', a := w.commands.table, w'.commands.table, w.commands.table[i].cmd;
    forall k | 0 <= k < |t| && k != i ensures t[k].cmd != a {
      assert w.objects[t[k].cmd].client.id == t[k].id;
    }
    forall b | Active(w, b) && b != a ensures Active(w', b) {
      var k :| 0 <= k < |t| && t[k].cmd == b;
      assert t'[if k < i then k else k - 1] == t[k];
    }
  }

  /** The queue of a topic after one command undid its own. */
  lemma OthersKeepQueue(w: World, room: Room, a: Address, tp: Topic)
    requires Good(w) && a in w.objects
    ensures var t', q := Unsubscribe(w.events, room, w.objects[a].client.undo), Queue(w.events, tp);
            && VendorOnly(t') && |Queue(t', tp)| <= |q|
            && (forall k :: 0 <= k < |Queue(t', tp)| ==> Queue(t', tp)[k].cbArg == q[0].cbArg)
            && (Queue(t', tp) != [] ==> q[0].cbArg != a)
  {
    UnsubscribeQueue(w.events, room, w.objects[a].client.undo, tp);
    assert QueueGood(w, tp);
  }

  lemma FinishQueue(w: World, w': World, room: Room, i: nat, tp: Topic)
    requires Good(w) && Finishes(w, w', room, i)
    requires forall b :: Active(w, b) && b != w.commands.table[i].cmd ==> Active(w', b)
    ensures VendorOnly(w'.events) && QueueGood(w', tp)
  {
    OthersKeepQueue(w, room, w.commands.table[i].cmd, tp);
    assert QueueGood(w, tp);
  }

  lemma FinishGood(w: World, w': World, room: Room, i: nat)
    requires Good(w) && Finishes(w, w', room, i)
    ensures Good(w')
  {
    FinishCommands(w, w', room, i);
    FinishQueue(w, w', room, i, Topic(0, 0));
    forall tp ensures QueueGood(w', tp) {
      FinishQueue(w, w', room, i, tp);
    }
  }

  lemma CancelFinishes(w: World, room: Room, id: int, i: nat)
    requires Good(w) && i == FirstIndex(w.commands.table, C.HasId(id)) < |w.commands.table|
    ensures Finishes(w, Cancelled(w, room, id), room, i)
  {
    var at := HolderAt(w, room, id);
  }

  lemma CancelGood(w: World, room: Room, id: int)
    requires Good(w)
    ensures Good(Cancelled(w, room, id))
  {
    var i := HolderAt(w, room, id);
    if i < |w.commands.table| {
      CancelFinishes(w, room, id, i);
      FinishGood(w, Cancelled(w, room, id), room, i);
    }
  }

  /** What a dispatch finds is active. */
  lemma FoundActive(w: World, room: Room, tp: Topic) returns (i: nat)
    requires Good(w)
    ensures var r := E.Apply(w.events, room.events, E.Dispatch(E.NL80211_CMD_VENDOR, tp.vendorId, tp.subcmd)).reply;
            r.Found? ==> i < |w.commands.table| && w.commands.table[i].cmd == r.arg
  {
    var d := E.Dispatch(E.NL80211_CMD_VENDOR, tp.vendorId, tp.subcmd);
    var k := FirstIndex(w.events, E.Matching(d));
    i := 0;
    if k < |w.events| {
      var topic, at := InQueue(w.events, k);
      assert QueueGood(w, topic);
      assert Active(w, w.events[k].cbArg);
      i :| 0 <= i < |w.commands.table| && w.commands.table[i].cmd == w.events[k].cbArg;
    }
  }

  lemma EventGood(w: World, room: Room, tp: Topic, completes: bool)
    requires Good(w)
    ensures Good(Happened(w, room, tp, completes))
  {
    var r := E.Apply(w.events, room.events, E.Dispatch(E.NL80211_CMD_VENDOR, tp.vendorId, tp.subcmd)).reply;
    var i := FoundActive(w, room, tp);
    if r.Found? {
      var o := w.objects[r.arg];
      var held := w.(objects := w.objects[r.arg := o.(refs := o.refs + 1)]);
      if !completes {
        assert Release(held, r.arg).objects == w.objects;
      } else {
        CompletionFinishes(w, held, room, i);
        FinishGood(w, Release(Completed(held, room, o.client), r.arg), room, i);
      }
    }
  }

  /** The dispatched command after its last result, still under the reference of the dispatch. */
  lemma {:induction false} CompletedState(w: World, held: World, room: Room, i: nat)
    requires Good(w) && i < |w.commands.table|
    requires var a := w.commands.table[i].cmd;
             held == w.(objects := w.objects[a := w.objects[a].(refs := 2)])
    ensures var a := w.commands.table[i].cmd;
            var o := w.objects[a];
            var done := Completed(held, room, o.client);
            && done.events == Unsubscribe(w.events, room, o.client.undo) && !done.misused
            && done.commands.table == WithoutIndex(w.commands.table, i)
            && done.objects == w.objects[a := o.(refs := 1)]
  {
    var client := w.objects[w.commands.table[i].cmd].client;
    var at := HolderAt(held, room, client.id);
    FirstIndexUnique(w.commands.table, C.HasId(client.id), i);
  }

  lemma CompletionFinishes(w: World, held: World, room: Room, i: nat)
    requires Good(w) && i < |w.commands.table|
    requires var a := w.commands.table[i].cmd;
             held == w.(objects := w.objects[a := w.objects[a].(refs := 2)])
    ensures var a := w.commands.table[i].cmd;
            Finishes(w, Release(Completed(held, room, w.objects[a].client), a), room, i)
  {
    var a := w.commands.table[i].cmd;
    var done := Completed(held, room, w.objects[a].client);
    CompletedState(w, held, room, i);
    assert Release(done, a).objects == w.objects[a := w.objects[a].(refs := 0)];
  }

  lemma FreshNotActive(w: World, cmd: Address)
    requires Good(w) && !Alive(w, cmd)
    ensures !Active(w, cmd)
  {
  }

  /** A client that is clear, in the topics' own queues. */
  lemma ClearQueue(w: World, client: Client, tp: Topic)
    requires Clear(w, client) && multiset(client.topics)[tp] > 0
    ensures Queue(w.events, tp) == []
  {
    assert tp in client.topics;
    var k :| 0 <= k < |client.topics| && client.topics[k] == tp;
  }

  /** cmd enters both tables. */
  ghost predicate Enters(w: World, w': World, room: Room, cmd: Address, client: Client) {
    && w'.commands.table == w.commands.table + [C.CmdInfo(client.id, cmd)]
    && w'.objects == w.objects[cmd := Object(client, 1)]
    && w'.events == Subscribe(w.events, room, client.topics, cmd)
    && !w'.misused
  }

  lemma RunsCommands(w: World, w': World, room: Room, cmd: Address, client: Client)
    requires Good(w) && Clear(w, client) && cmd != NULL && !Alive(w, cmd) && Enters(w, w', room, cmd, client)
    ensures CommandsGood(w') && Active(w', cmd)
    ensures forall b :: Active(w, b) ==> Active(w', b) && b != cmd
  {
    FreshNotActive(w, cmd);
    var t, t' := w.commands.table, w'.commands.table;
    assert t'[|t|].cmd == cmd;
    forall b | Active(w, b) ensures Active(w', b) {
      var k :| 0 <= k < |t| && t[k].cmd == b;
      assert t'[k] == t[k];
    }
    forall k | 0 <= k < |t| ensures t'[k] == t[k] && t[k].cmd != cmd {
      assert Active(w, t[k].cmd);
    }
  }

  lemma RunsQueue(w: World, w': World, room: Room, cmd: Address, client: Client, tp: Topic)
    requires Good(w) && Tidy(client) && Clear(w, client) && Enters(w, w', room, cmd, client) && Active(w', cmd)
    requires forall b :: Active(w, b) ==> Active(w', b) && b != cmd
    ensures VendorOnly(w'.events) && QueueGood(w', tp)
  {
    SubscribeQueue(w.events, room, client.topics, cmd, tp);
    assert QueueGood(w, tp);
    if multiset(client.topics)[tp] > 0 {
      ClearQueue(w, client, tp);
    } else {
      assert Queue(w'.events, tp) == Queue(w.events, tp);
    }
  }

  lemma RunsGood(w: World, w': World, room: Room, cmd: Address, client: Client)
    requires Good(w) && Tidy(client) && Clear(w, client) && cmd != NULL && !Alive(w, cmd)
    requires Enters(w, w', room, cmd, client)
    ensures Good(w')
  {
    RunsCommands(w, w', room, cmd, client);
    RunsQueue(w, w', room, cmd, client, Topic(0, 0));
    forall tp ensures QueueGood(w', tp) {
      RunsQueue(w, w', room, cmd, client, tp);
    }
  }

  /** Subscribing and unsubscribing again leaves no trace, when nobody else has the topics. */
  lemma UndoneQueues(w: World, room: Room, client: Client, cmd: Address, tp: Topic)
    requires VendorOnly(w.events) && Tidy(client) && Clear(w, client)
    ensures var events := Unsubscribe(Subscribe(w.events, room, client.topics, cmd), room, client.undo);
            VendorOnly(events) && Queue(events, tp) == Queue(w.events, tp)
  {
    var subscribed := Subscribe(w.events, room, client.topics, cmd);
    SubscribeQueue(w.events, room, client.topics, cmd, tp);
    UnsubscribeQueue(subscribed, room, client.undo, tp);
    if multiset(client.topics)[tp] > 0 {
      ClearQueue(w, client, tp);
    } else {
      assert Queue(subscribed, tp) == Queue(w.events, tp);
    }
  }

  lemma WithdrawnTable(w: World, room: Room, client: Client, cmd: Address)
    requires forall k :: 0 <= k < |w.commands.table| ==> w.commands.table[k].id != client.id
    requires |w.commands.table| < room.commands
    ensures var entered := C.Do(w.commands, room.commands, C.Register(client.id, cmd));
            C.Do(entered, room.commands, C.UnregisterId(client.id)).table == w.commands.table
  {
    var e := C.CmdInfo(client.id, cmd);
    var t := w.commands.table;
    var entered := C.Do(w.commands, room.commands, C.Register(client.id, cmd));
    assert entered.table == t + [e];
    FirstIndexUnique(t + [e], C.HasId(client.id), |t|);
    C.TakeAt(entered, C.HasId(client.id), C.TakenById);
    assert WithoutIndex(t + [e], |t|) == t;
  }

  lemma StartGood(w: World, room: Room, cmd: Address, client: Client, result: Result)
    requires Good(w) && Tidy(client) && Clear(w, client)
    ensures Good(Started(w, room, cmd, client, result))
  {
    if cmd != NULL && !Alive(w, cmd) {
      var w' := Started(w, room, cmd, client, result);
      FreshNotActive(w, cmd);
      if |w.commands.table| >= room.commands {
        FrameGood(w, w', cmd, Object(client, 0));
      } else if result.Runs? {
        RunsGood(w, w', room, cmd, client);
      } else {
        WithdrawnTable(w, room, client, cmd);
        UndoneQueues(w, room, client, cmd, Topic(0, 0));
        forall tp ensures Queue(w'.events, tp) == Queue(w.events, tp) {
          UndoneQueues(w, room, client, cmd, tp);
        }
        FrameGood(w, w', cmd, Object(client, 0));
      }
    }
  }

  lemma {:induction false} PlayGood(w: World, room: Room, ops: seq<Op>)
    requires Good(w) && Careful(w, room, ops)
    ensures Good(Play(w, room, ops))
    decreases |ops|
  {
    if ops != [] {
      var front, op := ops[..|ops| - 1], ops[|ops| - 1];
      PlayGood(w, room, front);
      var before := Play(w, room, front);
      match op
      case Start(cmd, client, result) => StartGood(before, room, cmd, client, result);
      case Cancel(id) => CancelGood(before, room, id);
      case Sweep(topics) => SweepGood(before, room, topics);
      case Event(tp, completes) => EventGood(before, room, tp, completes);
    }
  }

  // ---------------------------------------------------------------------------------------------
  // What each operation does
  // ---------------------------------------------------------------------------------------------

  /** a is over and done with: its entry is out of the command table, it is deleted, every queue is
      shorter by what a undoes, and nothing else changed. */
  ghost predicate Leaves(w: World, w': World, a: Address) {
    var t := w.commands.table;
    && a in w.objects && !w'.misused && !Alive(w', a)
    && (exists i :: 0 <= i < |t| && t[i].cmd == a && w'.commands.table == t[..i] + t[i + 1..])
    && (forall k :: 0 <= k < |w'.commands.table| ==> w'.commands.table[k].id != w.objects[a].client.id)
    && (forall tp :: Queue(w'.events, tp) == Drop(Queue(w.events, tp), multiset(w.objects[a].client.undo)[tp]))
    && w'.objects.Keys == w.objects.Keys
    && (forall b :: b in w.objects && b != a ==> w'.objects[b] == w.objects[b])
  }

  lemma {:induction false} FinishLeaves(w: World, w': World, room: Room, i: nat)
    requires Good(w) && Finishes(w, w', room, i)
    ensures Leaves(w, w', w.commands.table[i].cmd)
  {
    var t, a := w.commands.table, w.commands.table[i].cmd;
    assert w'.commands.table == t[..i] + t[i + 1..];
    forall k | 0 <= k < |w'.commands.table| ensures w'.commands.table[k].id != w.objects[a].client.id {
      assert w'.commands.table[k] == t[if k < i then k else k + 1];
    }
    forall tp ensures Queue(w'.events, tp) == Drop(Queue(w.events, tp), multiset(w.objects[a].client.undo)[tp]) {
      UnsubscribeQueue(w.events, room, w.objects[a].client.undo, tp);
    }
  }

  /** wifi_cancel_cmd finishes the command of that id, if there is one. */
  lemma {:induction false} CancelEffect(room: Room, ops: seq<Op>, id: int)
    requires Careful(NOTHING, room, ops)
    ensures var w := Play(NOTHING, room, ops);
            var w', t := Do(w, room, Cancel(id)), w.commands.table;
            && (forall k :: 0 <= k < |t| && t[k].id == id ==> Leaves(w, w', t[k].cmd))
            && ((forall k :: 0 <= k < |t| ==> t[k].id != id) ==> w' == w)
  {
    var w := Play(NOTHING, room, ops);
    PlayGood(NOTHING, room, ops);
    var i := HolderAt(w, room, id);
    forall k | 0 <= k < |w.commands.table| && w.commands.table[k].id == id
      ensures Leaves(w, Cancelled(w, room, id), w.commands.table[k].cmd)
    {
      FirstIndexUnique(w.commands.table, C.HasId(id), k);
      CancelFinishes(w, room, id, k);
      FinishLeaves(w, Cancelled(w, room, id), room, k);
    }
  }

  /** An event without a handler, or with a callback that is not the last, leaves everything as it was.
      The last result of a command finishes it. */
  lemma {:induction false} EventEffect(room: Room, ops: seq<Op>, tp: Topic, completes: bool)
    requires Careful(NOTHING, room, ops)
    ensures var w := Play(NOTHING, room, ops);
            var w', q := Do(w, room, Event(tp, completes)), Queue(w.events, tp);
            if q == [] || !completes then w' == w else Leaves(w, w', q[0].cbArg)
  {
    var w := Play(NOTHING, room, ops);
    PlayGood(NOTHING, room, ops);
    var i := FoundActive(w, room, tp);
    DispatchByQueue(w, room, tp);
    if Queue(w.events, tp) != [] {
      var a := w.commands.table[i].cmd;
      var held := w.(objects := w.objects[a := w.objects[a].(refs := 2)]);
      if completes {
        CompletionFinishes(w, held, room, i);
        FinishLeaves(w, Release(Completed(held, room, w.objects[a].client), a), room, i);
      } else {
        assert Release(held, a).objects == w.objects;
      }
    }
  }

  /** A dispatch finds the head of the queue of its topic. */
  lemma DispatchByQueue(w: World, room: Room, tp: Topic)
    requires VendorOnly(w.events)
    ensures var r := E.Apply(w.events, room.events, E.Dispatch(E.NL80211_CMD_VENDOR, tp.vendorId, tp.subcmd)).reply;
            var q := Queue(w.events, tp);
            r == if q == [] then E.NoHandler else E.Found(q[0].cbFunc, q[0].cbArg)
  {
    var d := E.Dispatch(E.NL80211_CMD_VENDOR, tp.vendorId, tp.subcmd);
    E.ScanIsByKey(w.events, d);
    FilterRemoved(w.events, E.HasKey(TopicKey(tp)));
    assert E.KeyOfCall(d) == TopicKey(tp);
  }

  /** A throwaway cancel() takes the oldest handlers of its topics, whoever they belong to. */
  lemma SweepEffect(room: Room, ops: seq<Op>, topics: seq<Topic>, tp: Topic)
    requires Careful(NOTHING, room, ops)
    ensures var w := Play(NOTHING, room, ops);
            var w' := Do(w, room, Sweep(topics));
            && w'.commands == w.commands && w'.objects == w.objects && !w'.misused
            && Queue(w'.events, tp) == Drop(Queue(w.events, tp), multiset(topics)[tp])
  {
    var w := Play(NOTHING, room, ops);
    PlayGood(NOTHING, room, ops);
    UnsubscribeQueue(w.events, room, topics, tp);
  }

  /** A clear start of a tidy client. With room, one that runs is entered under its id with one reference
      and its handlers are the queues of its topics. One that fails, or finds the command table full, is
      deleted and leaves both tables as they were. */
  lemma {:induction false} StartEffect(
    room: Room, ops: seq<Op>, cmd: Address, client: Client, result: Result, tp: Topic)
    requires Careful(NOTHING, room, ops) && Tidy(client)
    requires var w := Play(NOTHING, room, ops); Clear(w, client) && cmd != NULL && !Alive(w, cmd)
    ensures var w := Play(NOTHING, room, ops);
            var w' := Do(w, room, Start(cmd, client, result));
            var t, q, n := w.commands.table, Queue(w.events, tp), multiset(client.topics)[tp];
            && !w'.misused && w'.objects.Keys == w.objects.Keys + {cmd} && w'.objects[cmd].client == client
            && (forall b :: b in w.objects && b != cmd ==> w'.objects[b] == w.objects[b])
            && if result.Runs? && |t| < room.commands then
                 && w'.objects[cmd].refs == 1 && w'.commands.table == t + [C.CmdInfo(client.id, cmd)]
                 && Extended(q, Queue(w'.events, tp), n, cmd, |w.events| + |client.topics| <= room.events)
               else w'.objects[cmd].refs == 0 && w'.commands.table == t && Queue(w'.events, tp) == q
  {
    var w := Play(NOTHING, room, ops);
    PlayGood(NOTHING, room, ops);
    if |w.commands.table| < room.commands {
      if result.Runs? {
        SubscribeQueue(w.events, room, client.topics, cmd, tp);
      } else {
        FailedStart(w, room, cmd, client, result, tp);
      }
    }
  }

  /** A failed start with room in the command table. */
  lemma {:induction false} FailedStart(w: World, room: Room, cmd: Address, client: Client, result: Result, tp: Topic)
    requires VendorOnly(w.events) && Tidy(client) && Clear(w, client) && cmd != NULL && !Alive(w, cmd)
    requires |w.commands.table| < room.commands && !result.Runs?
    ensures var w' := Started(w, room, cmd, client, result);
            && w'.misused == w.misused && w'.objects == w.objects[cmd := Object(client, 0)]
            && w'.commands.table == w.commands.table && Queue(w'.events, tp) == Queue(w.events, tp)
  {
    WithdrawnTable(w, room, client, cmd);
    UndoneQueues(w, room, client, cmd, tp);
  }

  // ---------------------------------------------------------------------------------------------
  // Results
  // ---------------------------------------------------------------------------------------------

  /** If every start is by a tidy client and finds its id and its topics unused, no run of starts (that
      succeed or fail), cancels, throwaway cancels and events ever uses a deleted command, and no entry
      of either table ever names one. */
  lemma CarefulRunsAreHealthy(room: Room, ops: seq<Op>)
    requires Careful(NOTHING, room, ops)
    ensures Healthy(Play(NOTHING, room, ops))
  {
    PlayGood(NOTHING, room, ops);
    GoodIsHealthy(Play(NOTHING, room, ops));
  }

  ghost predicate StaysHealthy(w: World, room: Room, cmd: Address, client: Client) {
    forall result: Result, more: seq<Op> ::
      Careful(Started(w, room, cmd, client, result), room, more) ==>
        Healthy(Play(Started(w, room, cmd, client, result), room, more))
  }

  /** Care is exactly what is needed: with room in both tables, starting a tidy client after a careful
      run stays healthy, however the start ends and whatever careful run follows, if and only if its id
      and its topics were unused. */
  lemma StartExactly(room: Room, ops: seq<Op>, cmd: Address, client: Client)
    requires Careful(NOTHING, room, ops) && Tidy(client)
    requires var w := Play(NOTHING, room, ops);
             && cmd != NULL && !Alive(w, cmd)
             && |w.events| + |client.topics| <= room.events && |w.commands.table| < room.commands
    ensures StaysHealthy(Play(NOTHING, room, ops), room, cmd, client) <==> Clear(Play(NOTHING, room, ops), client)
  {
    var w := Play(NOTHING, room, ops);
    PlayGood(NOTHING, room, ops);
    if Clear(w, client) {
      forall result: Result, more: seq<Op> | Careful(Started(w, room, cmd, client, result), room, more)
        ensures Healthy(Play(Started(w, room, cmd, client, result), room, more))
      {
        StartGood(w, room, cmd, client, result);
        PlayGood(Started(w, room, cmd, client, result), room, more);
        GoodIsHealthy(Play(Started(w, room, cmd, client, result), room, more));
      }
    } else if k :| 0 <= k < |w.commands.table| && w.commands.table[k].id == client.id {
      IdInUse(w, room, cmd, client, k);
      assert Careful(Started(w, room, cmd, client, FailsBefore), room, []);
      assert Play(Started(w, room, cmd, client, FailsBefore), room, []) ==
             Started(w, room, cmd, client, FailsBefore);
    } else {
      var k :| 0 <= k < |client.topics| && Queue(w.events, client.topics[k]) != [];
      var started := Started(w, room, cmd, client, Runs);
      TopicInUse(w, room, cmd, client, client.topics[k]);
      PlayOne(started, room, Cancel(client.id));
      assert Careful(started, room, [Cancel(client.id)]);
      assert !Healthy(Play(started, room, [Cancel(client.id)]));
    }
  }

  lemma PlayOne(w: World, room: Room, op: Op)
    ensures Play(w, room, [op]) == Do(w, room, op)
    ensures !op.Start? ==> Careful(w, room, [op])
  {
    assert [op][..0] == [];
    assert Play(w, room, []) == w && Careful(w, room, []);
  }

  /** With the id in use, a start that fails unregisters the older command and releases the new one,
      which stays in the table. */
  lemma IdInUse(w: World, room: Room, cmd: Address, client: Client, k: nat)
    requires k < |w.commands.table| < room.commands && w.commands.table[k].id == client.id
    requires cmd != NULL && !Alive(w, cmd)
    ensures !Healthy(Started(w, room, cmd, client, FailsBefore))
  {
    var t, e := w.commands.table, C.CmdInfo(client.id, cmd);
    var entered := C.Do(w.commands, room.commands, C.Register(client.id, cmd));
    LastStays(entered, room.commands, t, e, k);
    var left := Started(w, room, cmd, client, FailsBefore);
    assert left.commands.table[|t| - 1] == e;
    assert !Alive(left, cmd);
  }

  lemma LastStays(s: C.State, alloc: nat, t: seq<C.CmdInfo>, e: C.CmdInfo, k: nat)
    requires s.table == t + [e] && k < |t| && t[k].id == e.id
    ensures var t' := C.Do(s, alloc, C.UnregisterId(e.id)).table;
            |t'| == |t| && t'[|t| - 1] == e
  {
    var i := FirstIndex(s.table, C.HasId(e.id));
    assert C.HasId(e.id)(s.table[k]);
    C.TakeAt(s, C.HasId(e.id), C.TakenById);
  }

  /** A start that fails before it registered its topics, whoever wifi_unregister_cmd takes. */
  lemma {:induction false} FailsBeforeState(w: World, room: Room, cmd: Address, client: Client)
    requires |w.commands.table| < room.commands && cmd != NULL && !Alive(w, cmd)
    ensures var left := Started(w, room, cmd, client, FailsBefore);
            var entered := C.Do(w.commands, room.commands, C.Register(client.id, cmd));
            && left.commands == C.Do(entered, room.commands, C.UnregisterId(client.id))
            && left.events == w.events && left.misused == w.misused
            && left.objects == w.objects[cmd := Object(client, 0)]
  {
  }

  lemma {:induction false} NewIsLeft(w: World, room: Room, cmd: Address, client: Client, k: nat)
    requires k < |w.commands.table| < room.commands && cmd != NULL && !Alive(w, cmd)
    requires forall j :: 0 <= j < |w.commands.table| ==> (w.commands.table[j].id == client.id <==> j == k)
    ensures var left := Started(w, room, cmd, client, FailsBefore);
            Holder(left, client.id) == cmd && !Alive(left, cmd)
  {
    var t, e := w.commands.table, C.CmdInfo(client.id, cmd);
    var entered := C.Do(w.commands, room.commands, C.Register(client.id, cmd));
    FailsBeforeState(w, room, cmd, client);
    OnlyNewLeft(entered, room.commands, t, e, k);
    var left := C.Do(entered, room.commands, C.UnregisterId(client.id)).table;
    C.OldestExact(left, client.id, |t| - 1);
  }

  /** Where the older command was the only one of the id, cancelling the id then uses the deleted one. */
  lemma {:induction false} SharedIdMisused(w: World, room: Room, cmd: Address, client: Client, k: nat)
    requires k < |w.commands.table| < room.commands && cmd != NULL && !Alive(w, cmd)
    requires forall j :: 0 <= j < |w.commands.table| ==> (w.commands.table[j].id == client.id <==> j == k)
    ensures Cancelled(Started(w, room, cmd, client, FailsBefore), room, client.id).misused
  {
    NewIsLeft(w, room, cmd, client, k);
  }

  lemma {:induction false} OnlyNewLeft(s: C.State, alloc: nat, t: seq<C.CmdInfo>, e: C.CmdInfo, k: nat)
    requires s.table == t + [e] && k < |t|
    requires forall j :: 0 <= j < |t| ==> (t[j].id == e.id <==> j == k)
    ensures var t' := C.Do(s, alloc, C.UnregisterId(e.id)).table;
            && |t'| == |t| && t'[|t| - 1] == e
            && FirstIndex(t', C.HasId(e.id)) == |t| - 1
  {
    FirstIndexUnique(t + [e], C.HasId(e.id), k);
    C.TakeAt(s, C.HasId(e.id), C.TakenById);
    LastOfItsId(WithoutIndex(t + [e], k), t, e, k);
  }

  lemma {:induction false} LastOfItsId(t': seq<C.CmdInfo>, t: seq<C.CmdInfo>, e: C.CmdInfo, k: nat)
    requires k < |t| && t' == WithoutIndex(t + [e], k)
    requires forall j :: 0 <= j < |t| ==> (t[j].id == e.id <==> j == k)
    ensures t'[|t| - 1] == e && FirstIndex(t', C.HasId(e.id)) == |t| - 1
  {
    forall j | 0 <= j < |t| - 1 ensures t'[j].id != e.id {
      assert t'[j] == t[if j < k then j else j + 1];
    }
    FirstIndexUnique(t', C.HasId(e.id), |t| - 1);
  }

  /** A last result releases whatever holds the id of its command: a deleted command, if that does. */
  lemma {:induction false} SharedIdCompletion(w: World, room: Room, tp: Topic)
    requires VendorOnly(w.events) && Queue(w.events, tp) != []
    requires var a := Queue(w.events, tp)[0].cbArg;
             && a != NULL && Alive(w, a)
             && var held := Holder(w, w.objects[a].client.id);
             held != NULL && held != a && !Alive(w, held)
    ensures Happened(w, room, tp, true).misused
  {
    DispatchByQueue(w, room, tp);
  }

  /** What the cancel of a new command with a fresh id leaves. */
  lemma CancelOfNew(w: World, room: Room, cmd: Address, client: Client)
    requires forall k :: 0 <= k < |w.commands.table| ==> w.commands.table[k].id != client.id
    requires cmd != NULL && !Alive(w, cmd) && |w.commands.table| < room.commands
    ensures var left := Cancelled(Started(w, room, cmd, client, Runs), room, client.id);
            && left.events == Unsubscribe(Subscribe(w.events, room, client.topics, cmd), room, client.undo)
            && !Alive(left, cmd)
  {
    var started, t := Started(w, room, cmd, client, Runs), w.commands.table;
    var i := HolderAt(started, room, client.id);
    assert started.commands.table == t + [C.CmdInfo(client.id, cmd)];
    FirstIndexUnique(started.commands.table, C.HasId(client.id), |t|);
    assert Holder(started, client.id) == cmd;
  }

  /** The queue of a topic after subscribing and undoing: as long as it was, the newest entry the
      subscriber's. */
  lemma OwnEntryStays(t: seq<E.CbInfo>, room: Room, client: Client, cmd: Address, tp: Topic)
    requires VendorOnly(t) && Tidy(client) && tp in client.topics && Queue(t, tp) != []
    requires |t| + |client.topics| <= room.events
    ensures var t', q := Unsubscribe(Subscribe(t, room, client.topics, cmd), room, client.undo), Queue(t, tp);
            && VendorOnly(t') && |Queue(t', tp)| == |q| && Queue(t', tp)[|q| - 1].cbArg == cmd
  {
    var n, q := multiset(client.topics)[tp], Queue(t, tp);
    var subscribed := Subscribe(t, room, client.topics, cmd);
    SubscribeQueue(t, room, client.topics, cmd, tp);
    UnsubscribeQueue(subscribed, room, client.undo, tp);
    assert n > 0 && multiset(client.undo)[tp] == n;
    var q' := Queue(subscribed, tp);
    assert q'[n..][|q| - 1] == q'[|q| - 1 + n];
  }

  /** With a topic in use, the cancel of the new command takes the older handler and leaves its own. */
  lemma {:induction false} TopicInUse(w: World, room: Room, cmd: Address, client: Client, tp: Topic)
    requires VendorOnly(w.events) && Tidy(client) && tp in client.topics && Queue(w.events, tp) != []
    requires forall k :: 0 <= k < |w.commands.table| ==> w.commands.table[k].id != client.id
    requires cmd != NULL && !Alive(w, cmd)
    requires |w.events| + |client.topics| <= room.events && |w.commands.table| < room.commands
    ensures !Healthy(Cancelled(Started(w, room, cmd, client, Runs), room, client.id))
    ensures !Healthy(Started(w, room, cmd, client, FailsAfter))
  {
    var events := Unsubscribe(Subscribe(w.events, room, client.topics, cmd), room, client.undo);
    CancelOfNew(w, room, cmd, client);
    WithdrawnTable(w, room, client, cmd);
    OwnEntryStays(w.events, room, client, cmd, tp);
    var last := Queue(events, tp)[|Queue(w.events, tp)| - 1];
    FilterMembers(events, E.HasKey(TopicKey(tp)));
    assert last in Queue(events, tp);
    var at :| 0 <= at < |events| && events[at] == last;
    assert Started(w, room, cmd, client, FailsAfter).events[at].cbArg == cmd;
  }

  /** Where the older handler was the only one of the topic, the next event of the topic then goes to the
      deleted command. */
  lemma SharedTopicMisused(w: World, room: Room, cmd: Address, client: Client, tp: Topic)
    requires VendorOnly(w.events) && Tidy(client) && tp in client.topics && |Queue(w.events, tp)| == 1
    requires forall k :: 0 <= k < |w.commands.table| ==> w.commands.table[k].id != client.id
    requires cmd != NULL && !Alive(w, cmd)
    requires |w.events| + |client.topics| <= room.events && |w.commands.table| < room.commands
    ensures Happened(Cancelled(Started(w, room, cmd, client, Runs), room, client.id), room, tp, false).misused
  {
    var left := Cancelled(Started(w, room, cmd, client, Runs), room, client.id);
    CancelOfNew(w, room, cmd, client);
    OwnEntryStays(w.events, room, client, cmd, tp);
    var d := E.Dispatch(E.NL80211_CMD_VENDOR, tp.vendorId, tp.subcmd);
    E.ScanIsByKey(left.events, d);
    FilterRemoved(left.events, E.HasKey(TopicKey(tp)));
    assert E.KeyOfCall(d) == TopicKey(tp);
  }

  /** A concrete run: a gscan a and full scan results b under different ids (gscan.cpp:425, 636-638),
      the second cancelled, then a full scan event. */
  lemma GscanExample(s: Topic, c: Topic, f: Topic, a: Address, b: Address)
    requires s != c && c != f && s != f && a != NULL && b != NULL && a != b
    ensures var scan, full := Client(1, [s, c, f], [c, s, f]), Client(2, [f], [f]);
            var ops := [Start(a, scan, Runs), Start(b, full, Runs), Cancel(2), Event(f, false)];
            Play(NOTHING, Room(64, 64), ops).misused
  {
    var scan, full := Client(1, [s, c, f], [c, s, f]), Client(2, [f], [f]);
    var room := Room(64, 64);
    var w := Started(NOTHING, room, a, scan, Runs);
    SubscribeQueue([], room, scan.topics, a, f);
    assert multiset(scan.topics)[f] == 1;
    SharedTopicMisused(w, room, b, full, f);
    PlayFour(NOTHING, room, Start(a, scan, Runs), Start(b, full, Runs), Cancel(2), Event(f, false));
  }

  lemma PlayAppend(w: World, room: Room, ops: seq<Op>, op: Op)
    ensures Play(w, room, ops + [op]) == Do(Play(w, room, ops), room, op)
  {
    assert (ops + [op])[..|ops|] == ops;
  }

  lemma PlayFour(w: World, room: Room, o1: Op, o2: Op, o3: Op, o4: Op)
    ensures Play(w, room, [o1, o2, o3, o4]) == Do(Do(Do(Do(w, room, o1), room, o2), room, o3), room, o4)
  {
    PlayOne(w, room, o1);
    PlayAppend(w, room, [o1], o2);
    PlayAppend(w, room, [o1] + [o2], o3);
    PlayAppend(w, room, [o1] + [o2] + [o3], o4);
    assert [o1] + [o2] + [o3] + [o4] == [o1, o2, o3, o4];
  }
}
