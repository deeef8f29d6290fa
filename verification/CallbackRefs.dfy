/** The references a dispatch takes on the command it calls back into
    (mtk/hal/libwifi-hal-mt66xx/wifi_hal.cpp:527-540, cpp_bindings.h:213-265), on top of the single
    steps of LockedEventTable: addRef inside the lock when the handler is found, the callback after the
    unlock, releaseRef before the return. */
module CallbackRefs {
  import opened WifiTypes
  import opened EventTable
  import opened LockedEventTable
  import opened Lists

  /** refs is mRefs of each command ever created; 0 means deleted. clients counts the references held
      outside the dispatcher. misused records a reference or a callback to a deleted command. */
  datatype World = World(table: State, refs: map<Address, nat>, clients: map<Address, nat>, misused: bool)

  datatype Action =
    | New(cmd: Address)     // a command is created, with one reference
    | Share(cmd: Address)   // a client takes another reference
    | Drop(cmd: Address)    // a client releases one
    | Thread(choice: Choice)

  /** The command a dispatch that found its handler holds a reference on, or NULL. */
  function Carried(pc: Pc): Address {
    if (pc.Releasing? || pc.Returning?) && pc.call.Dispatch? && pc.reply.Found? then pc.reply.arg else NULL
  }

  /** A registration of cmd that has not taken effect yet. */
  predicate Registering(pc: Pc, cmd: Address) {
    !pc.Idle? && !pc.Returning? && pc.call.Registers() && pc.call.arg == cmd
  }

  /** cmd is a handler argument, or about to become one. */
  ghost predicate Pledged(s: State, cmd: Address) {
    Handles(Table(s), cmd) || exists t :: 0 <= t < |s.pcs| && Registering(s.pcs[t], cmd)
  }

  predicate Owned(w: World, cmd: Address) { cmd in w.clients && w.clients[cmd] > 0 }

  /** The rule for clients: register only a command they hold, and keep the last reference until the
      command is unregistered. */
  ghost predicate Permitted(w: World, a: Action) {
    match a
    case New(cmd) => cmd != NULL && cmd !in w.refs
    case Share(cmd) => Owned(w, cmd)
    case Drop(cmd) => Owned(w, cmd) && (w.clients[cmd] == 1 ==> !Pledged(w.table, cmd))
    case Thread(ch) =>
      ch.tid < |w.table.pcs| && w.table.pcs[ch.tid].Idle? && ch.call.Registers() && ch.call.arg != NULL ==>
        Owned(w, ch.call.arg)
  }

  predicate Alive(w: World, cmd: Address) { cmd in w.refs && w.refs[cmd] > 0 }

  /** What thread t's step does to the references, given the command it carries before and after: the
      step that finds a handler takes one, the step that returns calls back and gives it up. */
  function ThreadStep(w: World, ch: Choice): World {
    var s, t := w.table, ch.tid;
    var s' := Step(s, ch);
    if t >= |s.pcs| || t >= |s'.pcs| then w.(table := s')
    else
      var before, after := Carried(s.pcs[t]), Carried(s'.pcs[t]);
      if before == after then w.(table := s')
      else if before == NULL then
        if Alive(w, after) then w.(table := s', refs := w.refs[after := w.refs[after] + 1])
        else w.(table := s', misused := true)
      else if Alive(w, before) then w.(table := s', refs := w.refs[before := w.refs[before] - 1])
      else w.(table := s', misused := true)
  }

  /** An action that is not permitted is not taken. */
  ghost function Act(w: World, a: Action): World {
    if !Permitted(w, a) then w
    else match a
      case New(cmd) => w.(refs := w.refs[cmd := 1], clients := w.clients[cmd := 1])
      case Share(cmd) => Adjust(w, cmd, 1)
      case Drop(cmd) => Adjust(w, cmd, -1)
      case Thread(ch) => ThreadStep(w, ch)
  }

  /** A client's addRef or releaseRef. */
  function Adjust(w: World, cmd: Address, delta: int): World
    requires Owned(w, cmd) && -1 <= delta
  {
    if !Alive(w, cmd) then w.(misused := true)
    else w.(refs := w.refs[cmd := w.refs[cmd] + delta], clients := w.clients[cmd := w.clients[cmd] + delta])
  }

  function Beginning(garbage: seq<CbInfo>, threads: nat): World {
    World(Start(garbage, threads), map[], map[], false)
  }

  ghost function Play(w: World, acts: seq<Action>): World
    decreases |acts|
  {
    if acts == [] then w else Act(Play(w, acts[..|acts| - 1]), acts[|acts| - 1])
  }

  // ---------------------------------------------------------------------------------------------
  // Counting the dispatches in flight
  // ---------------------------------------------------------------------------------------------

  function InFlight(pcs: seq<Pc>, cmd: Address): nat {
    if pcs == [] then 0 else (if Carried(pcs[0]) == cmd then 1 else 0) + InFlight(pcs[1..], cmd)
  }

  lemma {:induction false} InFlightUpdate(pcs: seq<Pc>, t: nat, pc: Pc, cmd: Address)
    requires t < |pcs|
    ensures InFlight(pcs[t := pc], cmd) + (if Carried(pcs[t]) == cmd then 1 else 0) ==
            InFlight(pcs, cmd) + (if Carried(pc) == cmd then 1 else 0)
  {
    if t == 0 {
      assert pcs[t := pc][1..] == pcs[1..];
    } else {
      assert pcs[t := pc][1..] == pcs[1..][t - 1 := pc];
      InFlightUpdate(pcs[1..], t - 1, pc, cmd);
    }
  }

  lemma {:induction false} InFlightSome(pcs: seq<Pc>, t: nat, cmd: Address)
    requires t < |pcs| && Carried(pcs[t]) == cmd
    ensures InFlight(pcs, cmd) > 0
  {
    if t > 0 {
      InFlightSome(pcs[1..], t - 1, cmd);
    }
  }

  lemma {:induction false} InFlightNone(threads: nat, cmd: Address)
    requires cmd != NULL
    ensures InFlight(seq(threads, _ => Idle), cmd) == 0
    decreases threads
  {
    if threads > 0 {
      assert seq(threads, _ => Idle)[1..] == seq(threads - 1, _ => Idle);
      InFlightNone(threads - 1, cmd);
    }
  }

  // ---------------------------------------------------------------------------------------------
  // One step of the table
  // ---------------------------------------------------------------------------------------------

  /** A step changes the table of whole operations only where it releases the lock. */
  lemma StepShape(s: State, ch: Choice)
    requires ch.tid < |s.pcs|
    ensures var t, s' := ch.tid, Step(s, ch);
            && |s'.pcs| == |s.pcs| && s'.pcs == s.pcs[t := s'.pcs[t]] && |s'.slots| == |s.slots|
            && Table(s') == (if s.pcs[t].Releasing? then Apply(Table(s), |s.slots|, s.pcs[t].call).table else Table(s))
  {
    StepFrame(s, ch);
    TableStep(s, ch, Step(s, ch));
  }

  lemma TableStep(s: State, ch: Choice, s': State)
    requires ch.tid < |s.pcs|
    requires s'.log == s.log + NewEvents(s, ch) && |s'.slots| == |s.slots|
    ensures Table(s') == if s.pcs[ch.tid].Releasing? then Apply(Table(s), |s.slots|, s.pcs[ch.tid].call).table
                         else Table(s)
  {
    var added := NewEvents(s, ch);
    if added == [] {
      assert s'.log == s.log;
    } else {
      LogAppend(s.log, added[0]);
      if added[0].Commit? {
        RunOne(|s.slots|, Calls(s.log), added[0].call);
      }
    }
  }

  /** Entries after an operation were there before, or are the one it registers. */
  lemma ApplyHandles(t: seq<CbInfo>, alloc: nat, c: Call, cmd: Address)
    ensures Handles(Apply(t, alloc, c).table, cmd) ==> Handles(t, cmd) || (c.Registers() && c.arg == cmd)
  {
    var t' := Apply(t, alloc, c).table;
    if c.Removes() {
      RemoveFirstAt(t, Matching(c));
    }
    if k :| 0 <= k < |t'| && t'[k].cbArg == cmd {
      var i := FirstIndex(t, Matching(c));
      if k < |t| && t[k].cbArg == cmd {
      } else if c.Removes() {
        assert t'[k] == t[k + 1];
      }
    }
  }

  /** A thread comes to carry a command only by finding it in the table. */
  lemma ScanFinds(s: State, t: nat, c: Call, i: nat)
    requires Inv(s) && t < |s.pcs| && s.pcs[t] == Scanning(c, i)
    ensures var after := Carried(ScanSlot(s, t, c, i).pcs[t]);
            after == NULL || Handles(Table(s), after)
  {
    assert Holding(s.pcs[t]) && s.owner == Held(t);
    if i < s.count {
      assert s.slots[..s.count][i] == Table(s)[i];
    }
  }

  lemma OtherStepsFindNothing(s: State, ch: Choice)
    requires ch.tid < |s.pcs| && !s.pcs[ch.tid].Scanning?
    ensures var before, after := Carried(s.pcs[ch.tid]), Carried(Step(s, ch).pcs[ch.tid]);
            after == before || after == NULL
  {
  }

  lemma {:induction false} CarriedFromTable(s: State, ch: Choice)
    requires Inv(s) && ch.tid < |s.pcs|
    ensures var before, after := Carried(s.pcs[ch.tid]), Carried(Step(s, ch).pcs[ch.tid]);
            && (after != NULL && after != before ==> before == NULL && Handles(Table(s), after))
            && (before != NULL && after != before ==> after == NULL)
  {
    var pc := s.pcs[ch.tid];
    if pc.Scanning? {
      ScanFinds(s, ch.tid, pc.call, pc.i);
      assert Step(s, ch) == ScanSlot(s, ch.tid, pc.call, pc.i);
    } else {
      OtherStepsFindNothing(s, ch);
    }
  }

  lemma RegisteringFromCall(s: State, ch: Choice, cmd: Address)
    requires ch.tid < |s.pcs| && Registering(Step(s, ch).pcs[ch.tid], cmd)
    ensures Registering(s.pcs[ch.tid], cmd) || (s.pcs[ch.tid].Idle? && ch.call.Registers() && ch.call.arg == cmd)
  {
    if !s.pcs[ch.tid].Idle? {
      SameCall(s, ch);
    }
  }

  /** What is pledged after a step was pledged before, or is what the step's call registers. */
  lemma PledgedStep(s: State, ch: Choice, cmd: Address)
    requires Inv(s) && ch.tid < |s.pcs| && Pledged(Step(s, ch), cmd)
    ensures Pledged(s, cmd) || (s.pcs[ch.tid].Idle? && ch.call.Registers() && ch.call.arg == cmd)
  {
    var t, s' := ch.tid, Step(s, ch);
    StepShape(s, ch);
    if Handles(Table(s'), cmd) {
      if s.pcs[t].Releasing? {
        ApplyHandles(Table(s), |s.slots|, s.pcs[t].call, cmd);
        assert s.pcs[t].call.Registers() && s.pcs[t].call.arg == cmd ==> Registering(s.pcs[t], cmd);
      }
    } else {
      var u :| 0 <= u < |s'.pcs| && Registering(s'.pcs[u], cmd);
      if u == t {
        RegisteringFromCall(s, ch, cmd);
      } else {
        assert Registering(s.pcs[u], cmd);
      }
    }
  }

  // ---------------------------------------------------------------------------------------------
  // The invariant
  // ---------------------------------------------------------------------------------------------

  /** mRefs of every command is what the clients hold plus the dispatches in flight; nothing else is
      carried; and what is pledged is owned. */
  ghost predicate RefsInv(w: World) {
    && Inv(w.table) && !w.misused
    && w.refs.Keys == w.clients.Keys && NULL !in w.refs
    && (forall a :: a in w.refs ==> w.refs[a] == w.clients[a] + InFlight(w.table.pcs, a))
    && (forall a: Address :: a != NULL && a !in w.refs ==> InFlight(w.table.pcs, a) == 0)
    && (forall a: Address :: a != NULL && Pledged(w.table, a) ==> Owned(w, a))
  }

  lemma BeginningInv(garbage: seq<CbInfo>, threads: nat)
    ensures RefsInv(Beginning(garbage, threads))
  {
    StartInv(garbage, threads);
    forall a: Address | a != NULL ensures InFlight(Start(garbage, threads).pcs, a) == 0 {
      InFlightNone(threads, a);
    }
  }

  lemma OwnedIsAlive(w: World, cmd: Address)
    requires RefsInv(w) && Owned(w, cmd)
    ensures Alive(w, cmd)
  {
  }

  lemma AdjustInv(w: World, cmd: Address, delta: int)
    requires RefsInv(w) && Owned(w, cmd) && -1 <= delta
    requires w.clients[cmd] + delta == 0 ==> !Pledged(w.table, cmd)
    ensures RefsInv(Adjust(w, cmd, delta))
  {
    OwnedIsAlive(w, cmd);
    var w' := Adjust(w, cmd, delta);
    assert w'.table == w.table;
    forall a: Address | a != NULL && Pledged(w.table, a) ensures Owned(w', a) {
      assert Owned(w, a);
    }
  }

  lemma {:induction false} ClientInv(w: World, a: Action)
    requires RefsInv(w) && !a.Thread?
    ensures RefsInv(Act(w, a))
  {
    if Permitted(w, a) {
      match a
      case New(cmd) =>
        assert w.refs[cmd := 1].Keys == w.refs.Keys + {cmd} == w.clients[cmd := 1].Keys;
        assert InFlight(w.table.pcs, cmd) == 0;
      case Share(cmd) => AdjustInv(w, cmd, 1);
      case Drop(cmd) => AdjustInv(w, cmd, -1);
    }
  }

  /** The references after the step are again what clients hold plus what is in flight. */
  lemma ThreadCounts(w: World, ch: Choice)
    requires RefsInv(w) && ch.tid < |w.table.pcs|
    ensures var w' := ThreadStep(w, ch);
            && !w'.misused && w'.refs.Keys == w.refs.Keys && w'.clients == w.clients
            && (forall a :: a in w'.refs ==> w'.refs[a] == w'.clients[a] + InFlight(w'.table.pcs, a))
            && (forall a: Address :: a != NULL && a !in w'.refs ==> InFlight(w'.table.pcs, a) == 0)
  {
    var s, t := w.table, ch.tid;
    var s' := Step(s, ch);
    StepShape(s, ch);
    CarriedFromTable(s, ch);
    var before, after := Carried(s.pcs[t]), Carried(s'.pcs[t]);
    forall a: Address ensures InFlight(s'.pcs, a) + (if before == a then 1 else 0) ==
                              InFlight(s.pcs, a) + (if after == a then 1 else 0) {
      InFlightUpdate(s.pcs, t, s'.pcs[t], a);
    }
    if before != after {
      if before == NULL {
        assert Pledged(s, after);
        OwnedIsAlive(w, after);
      } else {
        InFlightSome(s.pcs, t, before);
        assert before in w.refs;
      }
    }
  }

  /** What is pledged after a thread's step is owned. */
  lemma {:induction false} ThreadOwns(w: World, ch: Choice, cmd: Address)
    requires RefsInv(w) && Permitted(w, Thread(ch)) && ch.tid < |w.table.pcs|
    requires cmd != NULL && Pledged(Step(w.table, ch), cmd)
    ensures Owned(w, cmd)
  {
    PledgedStep(w.table, ch, cmd);
  }

  lemma ThreadInv(w: World, ch: Choice)
    requires RefsInv(w) && Permitted(w, Thread(ch))
    ensures RefsInv(ThreadStep(w, ch))
  {
    StepInv(w.table, ch);
    if ch.tid < |w.table.pcs| {
      ThreadCounts(w, ch);
      var w' := ThreadStep(w, ch);
      assert w'.table == Step(w.table, ch);
      forall a: Address | a != NULL && Pledged(w'.table, a) ensures Owned(w', a) {
        ThreadOwns(w, ch, a);
      }
    }
  }

  lemma {:induction false} PlayInv(garbage: seq<CbInfo>, threads: nat, acts: seq<Action>)
    ensures RefsInv(Play(Beginning(garbage, threads), acts))
    decreases |acts|
  {
    if acts == [] {
      BeginningInv(garbage, threads);
    } else {
      var before, a := Play(Beginning(garbage, threads), acts[..|acts| - 1]), acts[|acts| - 1];
      PlayInv(garbage, threads, acts[..|acts| - 1]);
      if a.Thread? {
        if Permitted(before, a) {
          ThreadInv(before, a.choice);
        }
      } else {
        ClientInv(before, a);
      }
    }
  }

  // ---------------------------------------------------------------------------------------------
  // References and steps, read off the actions
  // ---------------------------------------------------------------------------------------------

  /** The steps the threads of a run take: all but registrations of a command nobody holds. */
  ghost function Scheduled(garbage: seq<CbInfo>, threads: nat, acts: seq<Action>): seq<Choice>
    decreases |acts|
  {
    if acts == [] then []
    else
      var front, a := acts[..|acts| - 1], acts[|acts| - 1];
      var before := Scheduled(garbage, threads, front);
      var s := Execute(Start(garbage, threads), before);
      if !a.Thread? then before
      else
        var ch := a.choice;
        var held := if ch.call.Registers() then Holds(garbage, threads, front, ch.call.arg) else 0;
        if RegistersUnheld(s, ch, held) then before else before + [ch]
  }

  /** The choice begins a registration of a command of which clients hold no reference. */
  predicate RegistersUnheld(s: State, ch: Choice, held: nat) {
    ch.tid < |s.pcs| && s.pcs[ch.tid].Idle? && ch.call.Registers() && ch.call.arg != NULL && held == 0
  }

  /** The references clients hold on cmd: one since it was created, one more for each they shared while
      they held any, one less for each they dropped; the last one only while nothing pledges cmd. */
  ghost function Holds(garbage: seq<CbInfo>, threads: nat, acts: seq<Action>, cmd: Address): nat
    decreases |acts|
  {
    if acts == [] then 0
    else
      var front, a := acts[..|acts| - 1], acts[|acts| - 1];
      var n := Holds(garbage, threads, front, cmd);
      match a
      case New(c) => if c == cmd && c != NULL && a !in front then 1 else n
      case Share(c) => if c == cmd && n > 0 then n + 1 else n
      case Drop(c) =>
        if c == cmd && n > 0
           && (n == 1 ==> !Pledged(Execute(Start(garbage, threads), Scheduled(garbage, threads, front)), cmd))
        then n - 1 else n
      case Thread(_) => n
  }

  /** The world agrees with what the actions say about one command. */
  ghost predicate Tells(w: World, garbage: seq<CbInfo>, threads: nat, acts: seq<Action>, cmd: Address) {
    && (cmd in w.refs <==> cmd != NULL && New(cmd) in acts)
    && (cmd in w.clients <==> cmd in w.refs)
    && Holds(garbage, threads, acts, cmd) == if cmd in w.clients then w.clients[cmd] else 0
  }

  lemma {:induction false} ClientTells(
    w: World, garbage: seq<CbInfo>, threads: nat, front: seq<Action>, a: Action, cmd: Address)
    requires RefsInv(w) && !a.Thread? && Tells(w, garbage, threads, front, cmd)
    requires w.table == Execute(Start(garbage, threads), Scheduled(garbage, threads, front))
    ensures Tells(Act(w, a), garbage, threads, front + [a], cmd)
    ensures Act(w, a).table == w.table && Scheduled(garbage, threads, front + [a]) == Scheduled(garbage, threads, front)
  {
    assert (front + [a])[..|front|] == front;
    assert a in front + [a];
    assert New(cmd) in front + [a] <==> New(cmd) in front || a == New(cmd);
    if Permitted(w, a) && !a.New? {
      OwnedIsAlive(w, a.cmd);
    }
  }

  ghost predicate AllTells(w: World, garbage: seq<CbInfo>, threads: nat, acts: seq<Action>) {
    && w.table == Execute(Start(garbage, threads), Scheduled(garbage, threads, acts))
    && forall cmd :: Tells(w, garbage, threads, acts, cmd)
  }

  /** A thread's step changes no client's references. */
  lemma {:induction false} ThreadKeepsClients(w: World, ch: Choice)
    requires RefsInv(w)
    ensures var w' := Act(w, Thread(ch));
            w'.refs.Keys == w.refs.Keys && w'.clients == w.clients
  {
    if ch.tid < |w.table.pcs| {
      ThreadCounts(w, ch);
    }
  }

  lemma {:induction false} ThreadTable(w: World, ch: Choice, held: nat)
    requires ch.call.Registers() ==> held == if ch.call.arg in w.clients then w.clients[ch.call.arg] else 0
    ensures Act(w, Thread(ch)).table == if RegistersUnheld(w.table, ch, held) then w.table else Step(w.table, ch)
  {
    assert ThreadStep(w, ch).table == Step(w.table, ch);
  }

  lemma {:induction false} ExecuteMore(s: State, schedule: seq<Choice>, ch: Choice)
    ensures Execute(s, schedule + [ch]) == Step(Execute(s, schedule), ch)
  {
    assert (schedule + [ch])[..|schedule|] == schedule;
  }

  lemma {:induction false} ThreadScheduled(
    w: World, garbage: seq<CbInfo>, threads: nat, front: seq<Action>, ch: Choice)
    requires AllTells(w, garbage, threads, front)
    ensures Act(w, Thread(ch)).table ==
            Execute(Start(garbage, threads), Scheduled(garbage, threads, front + [Thread(ch)]))
  {
    var held := if ch.call.Registers() then Holds(garbage, threads, front, ch.call.arg) else 0;
    assert (front + [Thread(ch)])[..|front|] == front;
    if ch.call.Registers() {
      assert Tells(w, garbage, threads, front, ch.call.arg);
    }
    ThreadTable(w, ch, held);
    ExecuteMore(Start(garbage, threads), Scheduled(garbage, threads, front), ch);
  }

  lemma {:induction false} ThreadTells(
    w: World, garbage: seq<CbInfo>, threads: nat, front: seq<Action>, ch: Choice, cmd: Address)
    requires RefsInv(w) && Tells(w, garbage, threads, front, cmd)
    ensures Tells(Act(w, Thread(ch)), garbage, threads, front + [Thread(ch)], cmd)
  {
    ThreadKeepsClients(w, ch);
    assert (front + [Thread(ch)])[..|front|] == front;
    assert New(cmd) in front + [Thread(ch)] <==> New(cmd) in front;
    assert cmd in Act(w, Thread(ch)).refs.Keys <==> cmd in w.refs.Keys;
  }

  lemma {:induction false} ActTells(w: World, garbage: seq<CbInfo>, threads: nat, front: seq<Action>, a: Action)
    requires RefsInv(w) && AllTells(w, garbage, threads, front)
    ensures AllTells(Act(w, a), garbage, threads, front + [a])
  {
    if a.Thread? {
      ThreadScheduled(w, garbage, threads, front, a.choice);
    } else {
      ClientTells(w, garbage, threads, front, a, NULL);
    }
    forall cmd ensures Tells(Act(w, a), garbage, threads, front + [a], cmd) {
      if a.Thread? {
        ThreadTells(w, garbage, threads, front, a.choice, cmd);
      } else {
        ClientTells(w, garbage, threads, front, a, cmd);
      }
    }
  }

  lemma {:induction false} PlayTells(garbage: seq<CbInfo>, threads: nat, acts: seq<Action>)
    ensures AllTells(Play(Beginning(garbage, threads), acts), garbage, threads, acts)
    decreases |acts|
  {
    var start := Beginning(garbage, threads);
    if acts != [] {
      var front, a := acts[..|acts| - 1], acts[|acts| - 1];
      PlayInv(garbage, threads, front);
      PlayTells(garbage, threads, front);
      ActTells(Play(start, front), garbage, threads, front, a);
      PlayAppend(start, front, a);
      assert front + [a] == acts;
    }
  }

  // ---------------------------------------------------------------------------------------------
  // Results
  // ---------------------------------------------------------------------------------------------

  /** For any number of threads and any run of clients that keep to the rule: no reference is taken on,
      and no callback goes into, a deleted command; a command in flight is alive; and a command is
      deleted exactly when no client holds it and no dispatch is in flight to it. */
  lemma {:induction false} CallbacksHitLiveCommands(garbage: seq<CbInfo>, threads: nat, acts: seq<Action>)
    ensures var w := Play(Beginning(garbage, threads), acts);
            && !w.misused
            && (forall t :: 0 <= t < |w.table.pcs| && Carried(w.table.pcs[t]) != NULL ==>
                  Alive(w, Carried(w.table.pcs[t])))
            && (forall a :: a in w.refs ==>
                  (!Alive(w, a) <==> (!Owned(w, a) &&
                     (forall t :: 0 <= t < |w.table.pcs| ==> Carried(w.table.pcs[t]) != a))))
  {
    var w := Play(Beginning(garbage, threads), acts);
    PlayInv(garbage, threads, acts);
    forall t | 0 <= t < |w.table.pcs| && Carried(w.table.pcs[t]) != NULL
      ensures Alive(w, Carried(w.table.pcs[t]))
    {
      InFlightSome(w.table.pcs, t, Carried(w.table.pcs[t]));
    }
    forall a | a in w.refs
      ensures InFlight(w.table.pcs, a) == 0 <==> forall t :: 0 <= t < |w.table.pcs| ==> Carried(w.table.pcs[t]) != a
    {
      InFlightZero(w.table.pcs, a);
    }
  }

  /** The life of a command, read off the actions: the threads do exactly the steps scheduled, mRefs is
      what its clients hold and the dispatches in flight to it, and it is deleted if and only if its
      clients gave up all they held and no dispatch is in flight to it. */
  lemma {:induction false} LifeExact(garbage: seq<CbInfo>, threads: nat, acts: seq<Action>, cmd: Address)
    requires cmd != NULL && New(cmd) in acts
    ensures var w := Play(Beginning(garbage, threads), acts);
            var s := Execute(Start(garbage, threads), Scheduled(garbage, threads, acts));
            && w.table == s && !w.misused && cmd in w.refs
            && w.refs[cmd] == Holds(garbage, threads, acts, cmd) + InFlight(s.pcs, cmd)
            && (!Alive(w, cmd) <==> Holds(garbage, threads, acts, cmd) == 0 && !SomeoneCarries(s, cmd))
  {
    var w := Play(Beginning(garbage, threads), acts);
    PlayTells(garbage, threads, acts);
    PlayInv(garbage, threads, acts);
    assert Tells(w, garbage, threads, acts, cmd);
    InFlightZero(w.table.pcs, cmd);
  }

  /** A concrete life: created, shared, dropped twice, and only then deleted. */
  lemma DroppedExample(garbage: seq<CbInfo>, cmd: Address)
    requires cmd != NULL
    ensures var once := [New(cmd), Share(cmd), Drop(cmd)];
            && Alive(Play(Beginning(garbage, 0), once), cmd)
            && !Alive(Play(Beginning(garbage, 0), once + [Drop(cmd)]), cmd)
  {
    var w := Beginning(garbage, 0);
    PlayAppend(w, [], New(cmd));
    PlayAppend(w, [New(cmd)], Share(cmd));
    PlayAppend(w, [New(cmd), Share(cmd)], Drop(cmd));
    PlayAppend(w, [New(cmd), Share(cmd), Drop(cmd)], Drop(cmd));
    assert [New(cmd)] + [Share(cmd)] == [New(cmd), Share(cmd)] && [] + [New(cmd)] == [New(cmd)];
    assert [New(cmd), Share(cmd)] + [Drop(cmd)] == [New(cmd), Share(cmd), Drop(cmd)];
    assert Table(w.table) == [];
  }

  lemma {:induction false} PlayAppend(w: World, acts: seq<Action>, a: Action)
    ensures Play(w, acts + [a]) == Act(Play(w, acts), a)
  {
    assert (acts + [a])[..|acts|] == acts;
  }

  /** For clients that share no key the rule is one each can keep with what it knows itself: give up
      the last reference only with no registration of its own under way, and none outstanding under
      any key it registered. */
  lemma RuleByOwnCalls(w: World, cmd: Address)
    requires RefsInv(w) && NoSharing(Calls(w.table.log))
    ensures Permitted(w, Drop(cmd)) <==>
            && Owned(w, cmd)
            && (w.clients[cmd] == 1 ==>
                  && (forall t :: 0 <= t < |w.table.pcs| ==> !Registering(w.table.pcs[t], cmd))
                  && !StillOut(|w.table.slots|, Calls(w.table.log), cmd))
  {
    HandledExactly(|w.table.slots|, Calls(w.table.log), cmd);
  }

  lemma {:induction false} InFlightZero(pcs: seq<Pc>, cmd: Address)
    ensures InFlight(pcs, cmd) == 0 <==> forall t :: 0 <= t < |pcs| ==> Carried(pcs[t]) != cmd
  {
    if pcs != [] {
      InFlightZero(pcs[1..], cmd);
      assert forall t :: 0 <= t < |pcs[1..]| ==> pcs[1..][t] == pcs[t + 1];
      assert forall t :: 1 <= t < |pcs| ==> pcs[t] == pcs[1..][t - 1];
    }
  }

  /** Why the rule is needed: when clients give up n references while a dispatch is about to find the
      command, that dispatch misuses it if and only if those were all of theirs and no other dispatch
      is in flight to it. The rule forbids the last of them, as the command is still pledged. */
  lemma RuleIsNeeded(w: World, ch: Choice, cmd: Address, n: nat)
    requires RefsInv(w) && cmd in w.refs && n <= w.clients[cmd]
    requires ch.tid < |w.table.pcs| && w.table.pcs[ch.tid].Scanning? && w.table.pcs[ch.tid].call.Dispatch?
    requires var i := w.table.pcs[ch.tid].i;
             i < w.table.count && Matches(w.table.pcs[ch.tid].call, w.table.slots[i]) && w.table.slots[i].cbArg == cmd
    ensures Pledged(w.table, cmd)
    ensures var dropped := w.(refs := w.refs[cmd := w.refs[cmd] - n], clients := w.clients[cmd := w.clients[cmd] - n]);
            ThreadStep(dropped, ch).misused <==>
            n == w.clients[cmd] && forall t :: 0 <= t < |w.table.pcs| ==> Carried(w.table.pcs[t]) != cmd
  {
    var s, t := w.table, ch.tid;
    assert Holding(s.pcs[t]) && s.owner == Held(t);
    var i := s.pcs[t].i;
    assert s.slots[..s.count][i] == Table(s)[i];
    assert Handles(Table(s), cmd);
    InFlightZero(s.pcs, cmd);
  }

  /** No choice of the schedule registers cmd. */
  predicate NotRegistering(schedule: seq<Choice>, cmd: Address) {
    forall k :: 0 <= k < |schedule| ==> !(schedule[k].call.Registers() && schedule[k].call.arg == cmd)
  }

  predicate SomeoneCarries(s: State, cmd: Address) {
    exists t :: 0 <= t < |s.pcs| && Carried(s.pcs[t]) == cmd
  }

  lemma {:induction false} NoNewCallbacks(s: State, schedule: seq<Choice>, cmd: Address)
    requires Inv(s) && cmd != NULL && !Pledged(s, cmd) && NotRegistering(schedule, cmd)
    ensures var s' := Execute(s, schedule);
            && Inv(s') && !Pledged(s', cmd) && |s'.pcs| == |s.pcs|
            && forall t :: 0 <= t < |s.pcs| && Carried(s'.pcs[t]) == cmd ==> Carried(s.pcs[t]) == cmd
    decreases |schedule|
  {
    if schedule != [] {
      var front, ch := schedule[..|schedule| - 1], schedule[|schedule| - 1];
      NoNewCallbacks(s, front, cmd);
      var before := Execute(s, front);
      StepInv(before, ch);
      if ch.tid < |before.pcs| {
        StepShape(before, ch);
        if Pledged(Step(before, ch), cmd) {
          PledgedStep(before, ch, cmd);
        }
        CarriedFromTable(before, ch);
      }
    }
  }

  /** The choice makes its thread call back into cmd: the step after the unlock. */
  predicate CallsBack(s: State, ch: Choice, cmd: Address) {
    ch.tid < |s.pcs| && s.pcs[ch.tid].Returning? && Carried(s.pcs[ch.tid]) == cmd
  }

  /** Once a command is unregistered everywhere, and nobody registers it again, a callback can still go
      into it if and only if a dispatch in flight had found it before. */
  lemma LateCallbackExact(s: State, cmd: Address)
    requires Inv(s) && cmd != NULL && !Pledged(s, cmd)
    ensures SomeoneCarries(s, cmd) <==>
            exists schedule: seq<Choice>, ch: Choice ::
              NotRegistering(schedule, cmd) && CallsBack(Execute(s, schedule), ch, cmd)
  {
    if SomeoneCarries(s, cmd) {
      var schedule, ch := DispatchCompletes(s, cmd);
    }
    if schedule: seq<Choice>, ch: Choice :| NotRegistering(schedule, cmd) && CallsBack(Execute(s, schedule), ch, cmd) {
      NoNewCallbacks(s, schedule, cmd);
      assert Carried(s.pcs[ch.tid]) == cmd;
    }
  }

  /** The same, in what the owner of the command can look up: its count of references against those
      that clients hold. */
  lemma {:induction false} LateCallbackByCount(w: World, cmd: Address)
    requires RefsInv(w) && cmd in w.refs && !Pledged(w.table, cmd)
    ensures w.refs[cmd] > w.clients[cmd] <==>
            exists schedule: seq<Choice>, ch: Choice ::
              NotRegistering(schedule, cmd) && CallsBack(Execute(w.table, schedule), ch, cmd)
  {
    LateCallbackExact(w.table, cmd);
    InFlightZero(w.table.pcs, cmd);
  }

  /** The dispatch of thread t up to its unlock, when the first slot matches. */
  lemma FourSteps(s: State, t: nat, d: Call, e: CbInfo)
    requires t < |s.pcs| && s.pcs[t].Idle? && s.owner.Free?
    requires 0 < s.count <= |s.slots| && s.slots[0] == e && d.Dispatch? && Matches(d, e)
    ensures var ch, found := Choice(t, d), Found(e.cbFunc, e.cbArg);
            Step(Step(Step(Step(s, ch), ch), ch), ch) ==
            s.(pcs := s.pcs[t := Returning(d, found)], log := s.log + [Invoke(t, d), Commit(t, d, found)])
  {
    var ch, found := Choice(t, d), Found(e.cbFunc, e.cbArg);
    var invoked := s.log + [Invoke(t, d)];
    var s1 := s.(pcs := s.pcs[t := Waiting(d)], log := invoked);
    var s2 := s.(pcs := s.pcs[t := Scanning(d, 0)], log := invoked, owner := Held(t));
    var s3 := s2.(pcs := s.pcs[t := Releasing(d, found)]);
    assert Step(s, ch) == s1;
    assert s1.pcs[t := Scanning(d, 0)] == s2.pcs;
    assert Step(s1, ch) == s2;
    assert s2.pcs[t := Releasing(d, found)] == s3.pcs;
    assert Step(s2, ch) == ScanSlot(s2, t, d, 0) == s3;
    assert s3.pcs[t := Returning(d, found)] == s.pcs[t := Returning(d, found)];
    assert invoked + [Commit(t, d, found)] == s.log + [Invoke(t, d), Commit(t, d, found)];
  }

  lemma ExecuteFour(s: State, ch: Choice)
    ensures Execute(s, Times(ch, 4)) == Step(Step(Step(Step(s, ch), ch), ch), ch)
  {
    ExecuteRepeat(s, ch, 3);
    ExecuteRepeat(Step(s, ch), ch, 2);
    ExecuteRepeat(Step(Step(s, ch), ch), ch, 1);
    ExecuteRepeat(Step(Step(Step(s, ch), ch), ch), ch, 0);
    ExecuteRepeat(Step(Step(Step(Step(s, ch), ch), ch), ch), ch, 0);
  }

  lemma {:induction false} DispatchToUnlock(s: State, t: nat, d: Call, e: CbInfo)
    requires Inv(s) && t < |s.pcs| && s.pcs[t].Idle? && s.owner.Free?
    requires Table(s) == [e] && d.Dispatch? && Matches(d, e)
    ensures var s' := Execute(s, Times(Choice(t, d), 4));
            && s'.pcs == s.pcs[t := Returning(d, Found(e.cbFunc, e.cbArg))]
            && s'.owner.Free? && |s'.slots| == |s.slots|
            && s'.log == s.log + [Invoke(t, d), Commit(t, d, Found(e.cbFunc, e.cbArg))]
  {
    assert s.slots[..s.count] == [e];
    assert s.slots[..s.count][0] == s.slots[0];
    FourSteps(s, t, d, e);
    ExecuteFour(s, Choice(t, d));
  }

  /** Thread 0 registers r, then thread 1 dispatches d as far as its unlock. */
  lemma {:induction false} FoundBefore(garbage: seq<CbInfo>, r: Call, d: Call) returns (schedule: seq<Choice>)
    requires garbage != [] && r.Registers() && d.Dispatch? && KeyOfCall(d) == KeyOfCall(r)
    ensures var s := Execute(Start(garbage, 2), schedule);
            && Inv(s) && s.owner.Free? && |s.slots| == |garbage| && Table(s) == [EntryOf(r)]
            && s.pcs == [Idle, Returning(d, Found(r.func, r.arg))]
  {
    var start, e := Start(garbage, 2), EntryOf(r);
    StartInv(garbage, 2);
    assert start.pcs == [Idle, Idle];
    var n := CallAlone(start, 0, r);
    var first, second := Times(Choice(0, r), n), Times(Choice(1, d), 4);
    var s1 := Execute(start, first);
    assert Table(start) == [] && Table(s1) == [e];
    DispatchToUnlock(s1, 1, d, e);
    var s2 := Execute(s1, second);
    ExecuteInv(s1, second);
    CommitOfDispatch(s1, s2, d, Found(e.cbFunc, e.cbArg));
    schedule := first + second;
    ExecuteAppend(start, first, second);
  }

  /** A run from the start in which the callback is still to come although the unregister of the only
      handler has returned: thread 1 had found it before thread 0 took the lock. */
  lemma {:induction false} LateCallbackRun(garbage: seq<CbInfo>, r: Call, d: Call, u: Call)
    returns (schedule: seq<Choice>)
    requires garbage != [] && r.Registers() && r.arg != NULL && d.Dispatch? && u.Removes()
    requires KeyOfCall(d) == KeyOfCall(u) == KeyOfCall(r)
    ensures var s := Execute(Start(garbage, 2), schedule);
            && s.log != [] && s.log[|s.log| - 1] == LockedEventTable.Return(0, u, Nothing)
            && Table(s) == [] && !Pledged(s, r.arg)
            && CallsBack(s, Choice(1, d), r.arg)
  {
    var found := FoundBefore(garbage, r, d);
    var s := Execute(Start(garbage, 2), found);
    var m := CallAlone(s, 0, u);
    LastHandlerGone(s, Execute(s, Times(Choice(0, u), m)), r, d, u);
    schedule := found + Times(Choice(0, u), m);
    ExecuteAppend(Start(garbage, 2), found, Times(Choice(0, u), m));
  }

  lemma LastHandlerGone(s: State, s': State, r: Call, d: Call, u: Call)
    requires r.Registers() && u.Removes() && d.Dispatch? && KeyOfCall(u) == KeyOfCall(r)
    requires s.pcs == [Idle, Returning(d, Found(r.func, r.arg))] && Table(s) == [EntryOf(r)]
    requires Called(s, s', 0, u)
    ensures Table(s') == [] && !Pledged(s', r.arg) && s'.pcs == s.pcs
    ensures s'.log != [] && s'.log[|s'.log| - 1] == LockedEventTable.Return(0, u, Nothing)
  {
    RemovalAt([EntryOf(r)], u, 0);
    assert WithoutIndex([EntryOf(r)], 0) == [];
  }

  lemma {:induction false} CommitOfDispatch(s: State, s': State, d: Call, reply: Reply)
    requires d.Dispatch? && |s'.slots| == |s.slots|
    requires s'.log == s.log + [Invoke(1, d), Commit(1, d, reply)]
    ensures Table(s') == Table(s)
  {
    CallsCommitted(s.log, 1, d, reply);
    RunOne(|s.slots|, Calls(s.log), d);
    assert Apply(Table(s), |s.slots|, d).table == Table(s);
  }

  lemma {:induction false} CallsCommitted(log: seq<Event>, t: nat, c: Call, r: Reply)
    ensures Calls(log + [Invoke(t, c), Commit(t, c, r)]) == Calls(log) + [c]
  {
    var invoked := log + [Invoke(t, c)];
    assert log + [Invoke(t, c), Commit(t, c, r)] == invoked + [Commit(t, c, r)];
    LogAppend(log, Invoke(t, c));
    LogAppend(invoked, Commit(t, c, r));
  }

  lemma DispatchCompletes(s: State, cmd: Address) returns (schedule: seq<Choice>, ch: Choice)
    requires cmd != NULL && SomeoneCarries(s, cmd)
    ensures NotRegistering(schedule, cmd) && CallsBack(Execute(s, schedule), ch, cmd)
  {
    var t: nat :| t < |s.pcs| && Carried(s.pcs[t]) == cmd;
    ch := Choice(t, s.pcs[t].call);
    if s.pcs[t].Returning? {
      schedule := [];
    } else {
      schedule := [ch];
      assert schedule[..0] == [];
      assert Execute(s, schedule) == Step(s, ch);
      assert Step(s, ch).pcs[t] == Returning(s.pcs[t].call, s.pcs[t].reply);
    }
  }
}
