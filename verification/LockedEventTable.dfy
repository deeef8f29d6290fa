/** The event table shared by any number of threads, in small steps: a lock operation, one field of a
    new slot, one turn of a scan, one slot of a shift, one change of the count
    (mtk/hal/libwifi-hal-mt66xx/common.cpp:52-150, wifi_hal.cpp:513-547). A step inside the lock may
    read several words. The lock is abstract: a thread that asks for it while another holds it does
    not move. */
module LockedEventTable {
  import opened Lists
  import opened WifiTypes
  import opened EventTable

  /** Where a thread is. From Testing to Releasing it holds cb_lock. */
  datatype Pc =
    | Idle
    | Waiting(call: Call)                   // called, pthread_mutex_lock not yet passed
    | Testing(call: Call)                   // before num_event_cb < alloc_event_cb
    | Writing(call: Call, fields: nat)      // that many fields of the new slot are written
    | Counting(call: Call)                  // before num_event_cb++
    | Scanning(call: Call, i: nat)          // before the test of slot i
    | Shifting(call: Call, i: nat, j: nat)  // memmove from i, before slot j is overwritten
    | Releasing(call: Call, reply: Reply)   // before pthread_mutex_unlock
    | Returning(call: Call, reply: Reply)   // unlocked, before return

  predicate Holding(pc: Pc) {
    pc.Testing? || pc.Writing? || pc.Counting? || pc.Scanning? || pc.Shifting? || pc.Releasing?
  }

  datatype Event =
    | Invoke(tid: nat, call: Call)
    | Commit(tid: nat, call: Call, reply: Reply)   // the lock release, or the early return
    | Return(tid: nat, call: Call, reply: Reply)

  datatype Owner = Free | Held(tid: nat)

  /** fault records an access outside the allocated slots. */
  datatype State = State(slots: seq<CbInfo>, count: nat, owner: Owner, pcs: seq<Pc>, log: seq<Event>, fault: bool)

  /** What the scheduler picks: a thread, and the call it makes if it is idle. */
  datatype Choice = Choice(tid: nat, call: Call)

  function Start(garbage: seq<CbInfo>, threads: nat): State {
    State(garbage, 0, Free, seq(threads, _ => Idle), [], false)
  }

  function WriteField(slot: CbInfo, e: CbInfo, field: nat): CbInfo {
    if field == 0 then slot.(nlCmd := e.nlCmd)
    else if field == 1 then slot.(vendorId := e.vendorId)
    else if field == 2 then slot.(vendorSubcmd := e.vendorSubcmd)
    else if field == 3 then slot.(cbFunc := e.cbFunc)
    else slot.(cbArg := e.cbArg)
  }

  function Goto(s: State, t: nat, pc: Pc): State
    requires t < |s.pcs|
  {
    s.(pcs := s.pcs[t := pc])
  }

  function Logged(s: State, e: Event): State { s.(log := s.log + [e]) }

  /** The pointer arithmetic of every access is checked against the allocation. */
  function Store(s: State, k: nat, e: CbInfo): State {
    if k < |s.slots| then s.(slots := s.slots[k := e]) else s.(fault := true)
  }

  predicate Blocked(s: State, t: nat) {
    t < |s.pcs| && s.pcs[t].Waiting? && !s.pcs[t].call.ReturnsEarly() && s.owner.Held?
  }

  /** One field of the new slot. */
  function WriteSlot(s: State, t: nat, c: Call, f: nat): State
    requires t < |s.pcs|
  {
    if s.count >= |s.slots| || !c.Registers() then s.(fault := true)
    else Goto(Store(s, s.count, WriteField(s.slots[s.count], EntryOf(c), f)), t,
              if f < 4 then Writing(c, f + 1) else Counting(c))
  }

  /** One turn of a scanning loop. */
  function ScanSlot(s: State, t: nat, c: Call, i: nat): State
    requires t < |s.pcs|
  {
    if i >= s.count then Goto(s, t, Releasing(c, MissReply(c)))
    else if i >= |s.slots| then s.(fault := true)
    else if !Matches(c, s.slots[i]) then Goto(s, t, Scanning(c, i + 1))
    else if c.Dispatch? then Goto(s, t, Releasing(c, Found(s.slots[i].cbFunc, s.slots[i].cbArg)))
    else Goto(s, t, Shifting(c, i, i))
  }

  /** One slot of the memmove, or the decrement after it. */
  function ShiftSlot(s: State, t: nat, c: Call, i: nat, j: nat): State
    requires t < |s.pcs|
  {
    if j + 1 < s.count then
      if j + 1 >= |s.slots| then s.(fault := true)
      else Goto(Store(s, j, s.slots[j + 1]), t, Shifting(c, i, j + 1))
    else if s.count == 0 then s.(fault := true)
    else Goto(s.(count := s.count - 1), t, Releasing(c, Nothing))
  }

  /** One step of the chosen thread. */
  function Step(s: State, ch: Choice): State {
    var t := ch.tid;
    if t >= |s.pcs| || Blocked(s, t) then s
    else match s.pcs[t]
      case Idle => Goto(Logged(s, Invoke(t, ch.call)), t, Waiting(ch.call))
      case Waiting(c) =>
        if c.ReturnsEarly() then Goto(Logged(s, Commit(t, c, Nothing)), t, Returning(c, Nothing))
        else Goto(s.(owner := Held(t)), t, if c.Registers() then Testing(c) else Scanning(c, 0))
      case Testing(c) =>
        Goto(s, t, if s.count < |s.slots| then Writing(c, 0) else Releasing(c, Status(WIFI_ERROR_OUT_OF_MEMORY)))
      case Writing(c, f) => WriteSlot(s, t, c, f)
      case Counting(c) => Goto(s.(count := s.count + 1), t, Releasing(c, Status(WIFI_SUCCESS)))
      case Scanning(c, i) => ScanSlot(s, t, c, i)
      case Shifting(c, i, j) => ShiftSlot(s, t, c, i, j)
      case Releasing(c, r) => Goto(Logged(s, Commit(t, c, r)).(owner := Free), t, Returning(c, r))
      case Returning(c, r) => Goto(Logged(s, Return(t, c, r)), t, Idle)
  }

  function Execute(s: State, schedule: seq<Choice>): State
    decreases |schedule|
  {
    if schedule == [] then s
    else Step(Execute(s, schedule[..|schedule| - 1]), schedule[|schedule| - 1])
  }

  // ---------------------------------------------------------------------------------------------
  // Reading the log
  // ---------------------------------------------------------------------------------------------

  /** The calls in the order they released the lock. */
  function Calls(log: seq<Event>): seq<Call>
    decreases |log|
  {
    if log == [] then []
    else
      var e := log[|log| - 1];
      Calls(log[..|log| - 1]) + if e.Commit? then [e.call] else []
  }

  /** What those calls answered. */
  function Answers(log: seq<Event>): seq<Reply>
    decreases |log|
  {
    if log == [] then []
    else
      var e := log[|log| - 1];
      Answers(log[..|log| - 1]) + if e.Commit? then [e.reply] else []
  }

  datatype Last = Never | Last(event: Event)

  /** The latest event of thread t. */
  function LastOf(log: seq<Event>, t: nat): Last
    decreases |log|
  {
    if log == [] then Never
    else if log[|log| - 1].tid == t then Last(log[|log| - 1])
    else LastOf(log[..|log| - 1], t)
  }

  /** e may follow a thread's latest event: calls are invoked, committed and returned in that order,
      a commit keeps the call and a return keeps the call and the answer. */
  predicate Follows(last: Last, e: Event) {
    match e
    case Invoke(_, _) => last.Never? || last.event.Return?
    case Commit(t, c, _) => last == Last(Invoke(t, c))
    case Return(t, c, r) => last == Last(Commit(t, c, r))
  }

  ghost predicate Bracketed(log: seq<Event>) {
    forall k :: 0 <= k < |log| ==> Follows(LastOf(log[..k], log[k].tid), log[k])
  }

  lemma {:induction false} LogAppend(log: seq<Event>, e: Event)
    ensures Calls(log + [e]) == if e.Commit? then Calls(log) + [e.call] else Calls(log)
    ensures Answers(log + [e]) == if e.Commit? then Answers(log) + [e.reply] else Answers(log)
    ensures forall t: nat :: LastOf(log + [e], t) == if e.tid == t then Last(e) else LastOf(log, t)
    ensures Bracketed(log) && Follows(LastOf(log, e.tid), e) ==> Bracketed(log + [e])
  {
    assert (log + [e])[..|log|] == log;
    if Bracketed(log) && Follows(LastOf(log, e.tid), e) {
      forall k | 0 <= k < |log + [e]| ensures Follows(LastOf((log + [e])[..k], (log + [e])[k].tid), (log + [e])[k]) {
        if k < |log| {
          assert (log + [e])[..k] == log[..k];
        }
      }
    }
  }

  // ---------------------------------------------------------------------------------------------
  // The invariant
  // ---------------------------------------------------------------------------------------------

  /** The whole-operation table: the committed calls run one at a time. */
  function Table(s: State): seq<CbInfo> { Run(|s.slots|, Calls(s.log)) }

  /** The first f fields of slot agree with e. */
  predicate Written(slot: CbInfo, e: CbInfo, f: nat) {
    && (f > 0 ==> slot.nlCmd == e.nlCmd)
    && (f > 1 ==> slot.vendorId == e.vendorId)
    && (f > 2 ==> slot.vendorSubcmd == e.vendorSubcmd)
    && (f > 3 ==> slot.cbFunc == e.cbFunc)
    && (f > 4 ==> slot.cbArg == e.cbArg)
  }

  /** What the memory looks like while the holder of the lock is at pc and t is the table of whole
      operations. */
  ghost predicate InProgress(slots: seq<CbInfo>, count: nat, pc: Pc, t: seq<CbInfo>) {
    && count <= |slots|
    && match pc
       case Testing(c) => c.Registers() && slots[..count] == t
       case Writing(c, f) =>
         && c.Registers() && slots[..count] == t && count < |slots|
         && f <= 4 && Written(slots[count], EntryOf(c), f)
       case Counting(c) => c.Registers() && slots[..count] == t && count < |slots| && slots[count] == EntryOf(c)
       case Scanning(c, i) =>
         && !c.Registers() && !c.ReturnsEarly()
         && slots[..count] == t && i <= count
         && forall k :: 0 <= k < i ==> !Matches(c, t[k])
       case Shifting(c, i, j) =>
         && c.Removes()
         && count == |t| && FirstIndex(t, Matching(c)) == i && PartlyShifted(slots, t, i, j)
       case Releasing(c, r) => Apply(t, |slots|, c) == Outcome(slots[..count], r)
       case _ => true
  }

  /** The thread's place agrees with what the log says it last did. */
  predicate AtLast(pc: Pc, t: nat, last: Last) {
    match pc
    case Idle => last.Never? || last.event.Return?
    case Returning(c, r) => last == Last(Commit(t, c, r))
    case _ => last == Last(Invoke(t, pc.call))
  }

  ghost predicate Places(pcs: seq<Pc>, log: seq<Event>) {
    forall t :: 0 <= t < |pcs| ==> AtLast(pcs[t], t, LastOf(log, t))
  }

  /** The commits so far are a run of whole operations with these answers. */
  ghost predicate History(alloc: nat, log: seq<Event>) {
    Answers(log) == Replies(alloc, Calls(log)) && Bracketed(log)
  }

  /** Exactly the owner of the lock is inside. */
  ghost predicate Exclusive(pcs: seq<Pc>, owner: Owner) {
    && (forall t :: 0 <= t < |pcs| ==> (Holding(pcs[t]) <==> owner == Held(t)))
    && (owner.Held? ==> owner.tid < |pcs|)
  }

  ghost predicate Inv(s: State) {
    && !s.fault
    && s.count <= |s.slots|
    && Exclusive(s.pcs, s.owner)
    && (s.owner.Held? ==> InProgress(s.slots, s.count, s.pcs[s.owner.tid], Table(s)))
    && (s.owner.Free? ==> s.slots[..s.count] == Table(s))
    && History(|s.slots|, s.log)
    && Places(s.pcs, s.log)
  }

  lemma StartInv(garbage: seq<CbInfo>, threads: nat)
    ensures Inv(Start(garbage, threads))
  {
  }

  lemma {:induction false} HistoryAppend(alloc: nat, log: seq<Event>, e: Event)
    requires History(alloc, log) && Follows(LastOf(log, e.tid), e)
    requires e.Commit? ==> Apply(Run(alloc, Calls(log)), alloc, e.call).reply == e.reply
    ensures History(alloc, log + [e])
    ensures Run(alloc, Calls(log + [e])) ==
            if e.Commit? then Apply(Run(alloc, Calls(log)), alloc, e.call).table else Run(alloc, Calls(log))
  {
    LogAppend(log, e);
    if e.Commit? {
      RunOne(alloc, Calls(log), e.call);
    }
  }

  lemma PlacesAppend(pcs: seq<Pc>, log: seq<Event>, e: Event, pc: Pc)
    requires Places(pcs, log) && e.tid < |pcs| && AtLast(pc, e.tid, Last(e))
    ensures Places(pcs[e.tid := pc], log + [e])
  {
    LogAppend(log, e);
  }

  lemma PlacesMove(pcs: seq<Pc>, log: seq<Event>, t: nat, pc: Pc)
    requires Places(pcs, log) && t < |pcs|
    requires AtLast(pcs[t], t, LastOf(log, t)) ==> AtLast(pc, t, LastOf(log, t))
    ensures Places(pcs[t := pc], log)
  {
  }

  /** A step inside the lock that logs nothing keeps everything but the work in progress. */
  lemma QuietStep(s: State, s': State, t: nat, pc: Pc)
    requires Inv(s) && t < |s.pcs| && s.owner == Held(t)
    requires Holding(pc) && pc.call == s.pcs[t].call
    requires |s'.slots| == |s.slots| && s'.owner == s.owner && s'.log == s.log && !s'.fault
    requires s'.pcs == s.pcs[t := pc]
    requires InProgress(s'.slots, s'.count, pc, Table(s))
    ensures Inv(s')
  {
    assert Holding(s.pcs[t]);
    PlacesMove(s.pcs, s.log, t, pc);
  }

  lemma WriteStep(s: State, t: nat, c: Call, f: nat)
    requires Inv(s) && t < |s.pcs| && s.pcs[t] == Writing(c, f)
    ensures Inv(WriteSlot(s, t, c, f))
  {
    var s' := WriteSlot(s, t, c, f);
    assert Holding(s.pcs[t]) && s.owner == Held(t);
    assert s'.slots[..s.count] == s.slots[..s.count];
    QuietStep(s, s', t, s'.pcs[t]);
  }

  lemma CountStep(s: State, ch: Choice)
    requires Inv(s) && ch.tid < |s.pcs| && s.pcs[ch.tid].Counting?
    ensures Inv(Step(s, ch))
  {
    var t := ch.tid;
    var s' := Step(s, ch);
    assert s.owner == Held(t);
    assert s.slots[..s.count + 1] == s.slots[..s.count] + [s.slots[s.count]];
    QuietStep(s, s', t, s'.pcs[t]);
  }

  lemma ScanEnds(s: State, t: nat, c: Call, i: nat)
    requires Inv(s) && t < |s.pcs| && s.pcs[t] == Scanning(c, i)
    requires i < s.count ==> Matches(c, s.slots[i])
    ensures Inv(ScanSlot(s, t, c, i))
  {
    assert Holding(s.pcs[t]) && s.owner == Held(t);
    var s' := ScanSlot(s, t, c, i);
    assert s.slots[..s.count] == Table(s);
    RemovalAt(Table(s), c, i);
    QuietStep(s, s', t, s'.pcs[t]);
  }

  lemma ScanGoesOn(s: State, t: nat, c: Call, i: nat)
    requires Inv(s) && t < |s.pcs| && s.pcs[t] == Scanning(c, i)
    requires i < s.count && !Matches(c, s.slots[i])
    ensures Inv(ScanSlot(s, t, c, i))
  {
    assert Holding(s.pcs[t]) && s.owner == Held(t);
    assert s.slots[..s.count][i] == Table(s)[i];
    QuietStep(s, Goto(s, t, Scanning(c, i + 1)), t, Scanning(c, i + 1));
  }

  lemma ScanStep(s: State, t: nat, c: Call, i: nat)
    requires Inv(s) && t < |s.pcs| && s.pcs[t] == Scanning(c, i)
    ensures Inv(ScanSlot(s, t, c, i))
  {
    if i < s.count && !Matches(c, s.slots[i]) {
      ScanGoesOn(s, t, c, i);
    } else {
      ScanEnds(s, t, c, i);
    }
  }

  /** The part of the table already shifted, and the part not yet. */
  ghost predicate PartlyShifted(slots: seq<CbInfo>, t: seq<CbInfo>, i: nat, j: nat) {
    && i <= j < |t| <= |slots|
    && (forall k :: 0 <= k < i ==> slots[k] == t[k])
    && (forall k :: i <= k < j ==> slots[k] == t[k + 1])
    && (forall k :: j <= k < |t| ==> slots[k] == t[k])
  }

  lemma ShiftMore(slots: seq<CbInfo>, slots': seq<CbInfo>, t: seq<CbInfo>, i: nat, j: nat)
    requires PartlyShifted(slots, t, i, j) && j + 1 < |t|
    requires slots' == slots[j := slots[j + 1]]
    ensures PartlyShifted(slots', t, i, j + 1)
  {
  }

  lemma ShiftDone(slots: seq<CbInfo>, t: seq<CbInfo>, alloc: nat, c: Call, i: nat)
    requires |t| > 0 && PartlyShifted(slots, t, i, |t| - 1)
    requires c.Removes() && FirstIndex(t, Matching(c)) == i
    ensures Apply(t, alloc, c) == Outcome(slots[..|t| - 1], Nothing)
  {
    RemoveFirstAt(t, Matching(c));
    assert slots[..|t| - 1] == WithoutIndex(t, i);
  }

  lemma ShiftStep(s: State, t: nat, c: Call, i: nat, j: nat)
    requires Inv(s) && t < |s.pcs| && s.pcs[t] == Shifting(c, i, j)
    ensures Inv(ShiftSlot(s, t, c, i, j))
  {
    assert Holding(s.pcs[t]) && s.owner == Held(t);
    if j + 1 < s.count {
      ShiftMore(s.slots, s.slots[j := s.slots[j + 1]], Table(s), i, j);
      QuietStep(s, Goto(Store(s, j, s.slots[j + 1]), t, Shifting(c, i, j + 1)), t, Shifting(c, i, j + 1));
    } else {
      ShiftDone(s.slots, Table(s), |s.slots|, c, i);
      QuietStep(s, Goto(s.(count := s.count - 1), t, Releasing(c, Nothing)), t, Releasing(c, Nothing));
    }
  }

  lemma ExclusiveRelease(pcs: seq<Pc>, t: nat, pc: Pc)
    requires Exclusive(pcs, Held(t)) && !Holding(pc)
    ensures Exclusive(pcs[t := pc], Free)
  {
  }

  /** A commit adds one whole operation to the history. */
  lemma {:induction false} ReleaseStep(s: State, s': State, t: nat, c: Call, r: Reply)
    requires Inv(s) && t < |s.pcs| && s.pcs[t] == Releasing(c, r)
    requires s' == State(s.slots, s.count, Free, s.pcs[t := Returning(c, r)], s.log + [Commit(t, c, r)], s.fault)
    ensures Inv(s')
  {
    assert Holding(s.pcs[t]) && s.owner == Held(t);
    assert AtLast(s.pcs[t], t, LastOf(s.log, t));
    ExclusiveRelease(s.pcs, t, Returning(c, r));
    assert Apply(Table(s), |s.slots|, c) == Outcome(s.slots[..s.count], r);
    HistoryAppend(|s.slots|, s.log, Commit(t, c, r));
    assert Table(s') == s.slots[..s.count];
    PlacesAppend(s.pcs, s.log, Commit(t, c, r), Returning(c, r));
  }

  /** A step that moves thread t between two places outside the lock and logs e. */
  lemma {:induction false} LoggedStep(s: State, t: nat, pc: Pc, e: Event)
    requires Inv(s) && t < |s.pcs| && !Holding(s.pcs[t]) && !Holding(pc) && e.tid == t
    requires Follows(LastOf(s.log, t), e) && AtLast(pc, t, Last(e))
    requires e.Commit? ==> e.call.ReturnsEarly() && e.reply == Nothing
    ensures Inv(Goto(Logged(s, e), t, pc))
  {
    HistoryAppend(|s.slots|, s.log, e);
    PlacesAppend(s.pcs, s.log, e, pc);
    ExclusiveOutside(s.pcs, s.owner, t, pc);
    assert Table(Goto(Logged(s, e), t, pc)) == Table(s);
  }

  lemma ExclusiveOutside(pcs: seq<Pc>, owner: Owner, t: nat, pc: Pc)
    requires Exclusive(pcs, owner) && t < |pcs| && !Holding(pcs[t]) && !Holding(pc)
    ensures Exclusive(pcs[t := pc], owner)
    ensures owner.Held? ==> owner.tid != t && pcs[t := pc][owner.tid] == pcs[owner.tid]
  {
  }

  lemma AcquireStep(s: State, t: nat)
    requires Inv(s) && t < |s.pcs| && s.pcs[t].Waiting? && !s.pcs[t].call.ReturnsEarly() && s.owner.Free?
    ensures var c := s.pcs[t].call;
            Inv(Goto(s.(owner := Held(t)), t, if c.Registers() then Testing(c) else Scanning(c, 0)))
  {
    var c := s.pcs[t].call;
    PlacesMove(s.pcs, s.log, t, if c.Registers() then Testing(c) else Scanning(c, 0));
  }

  lemma OutsideStep(s: State, ch: Choice)
    requires Inv(s) && ch.tid < |s.pcs| && !Holding(s.pcs[ch.tid])
    ensures Inv(Step(s, ch))
  {
    var t := ch.tid;
    assert AtLast(s.pcs[t], t, LastOf(s.log, t));
    match s.pcs[t]
    case Idle => LoggedStep(s, t, Waiting(ch.call), Invoke(t, ch.call));
    case Waiting(c) =>
      if c.ReturnsEarly() {
        LoggedStep(s, t, Returning(c, Nothing), Commit(t, c, Nothing));
      } else if s.owner.Free? {
        AcquireStep(s, t);
      }
    case Returning(c, r) => LoggedStep(s, t, Idle, Return(t, c, r));
  }

  lemma TestStep(s: State, ch: Choice)
    requires Inv(s) && ch.tid < |s.pcs| && s.pcs[ch.tid].Testing?
    ensures Inv(Step(s, ch))
  {
    var t, s' := ch.tid, Step(s, ch);
    assert Holding(s.pcs[t]) && s.owner == Held(t);
    QuietStep(s, s', t, s'.pcs[t]);
  }

  lemma {:induction false} StepInv(s: State, ch: Choice)
    requires Inv(s)
    ensures Inv(Step(s, ch))
  {
    var t := ch.tid;
    if t >= |s.pcs| {
    } else if !Holding(s.pcs[t]) {
      OutsideStep(s, ch);
    } else if s.pcs[t].Testing? {
      TestStep(s, ch);
    } else if s.pcs[t].Writing? {
      WriteStep(s, t, s.pcs[t].call, s.pcs[t].fields);
    } else if s.pcs[t].Counting? {
      CountStep(s, ch);
    } else if s.pcs[t].Scanning? {
      ScanStep(s, t, s.pcs[t].call, s.pcs[t].i);
    } else if s.pcs[t].Shifting? {
      ShiftStep(s, t, s.pcs[t].call, s.pcs[t].i, s.pcs[t].j);
    } else {
      ReleaseStep(s, Step(s, ch), t, s.pcs[t].call, s.pcs[t].reply);
    }
  }

  lemma {:induction false} ExecuteInv(s: State, schedule: seq<Choice>)
    requires Inv(s)
    ensures Inv(Execute(s, schedule))
    decreases |schedule|
  {
    if schedule != [] {
      ExecuteInv(s, schedule[..|schedule| - 1]);
      StepInv(Execute(s, schedule[..|schedule| - 1]), schedule[|schedule| - 1]);
    }
  }

  lemma {:induction false} ReachableInv(garbage: seq<CbInfo>, threads: nat, schedule: seq<Choice>)
    ensures Inv(Execute(Start(garbage, threads), schedule))
  {
    StartInv(garbage, threads);
    ExecuteInv(Start(garbage, threads), schedule);
  }

  // ---------------------------------------------------------------------------------------------
  // Every schedule is a run of whole operations
  // ---------------------------------------------------------------------------------------------

  /** What one step logs, if anything. */
  function NewEvents(s: State, ch: Choice): seq<Event> {
    var t := ch.tid;
    if t >= |s.pcs| || Blocked(s, t) then []
    else match s.pcs[t]
      case Idle => [Invoke(t, ch.call)]
      case Waiting(c) => if c.ReturnsEarly() then [Commit(t, c, Nothing)] else []
      case Releasing(c, r) => [Commit(t, c, r)]
      case Returning(c, r) => [Return(t, c, r)]
      case _ => []
  }

  /** A step changes one place. */
  lemma StepFrame(s: State, ch: Choice)
    requires ch.tid < |s.pcs|
    ensures var t, s' := ch.tid, Step(s, ch);
            && |s'.pcs| == |s.pcs| && s'.pcs == s.pcs[t := s'.pcs[t]] && |s'.slots| == |s.slots|
    ensures Step(s, ch).log == s.log + NewEvents(s, ch)
  {
    var pc, s' := s.pcs[ch.tid], Step(s, ch);
    if pc.Writing? {
      assert s' == WriteSlot(s, ch.tid, pc.call, pc.fields);
    } else if pc.Scanning? {
      assert s' == ScanSlot(s, ch.tid, pc.call, pc.i);
    } else if pc.Shifting? {
      assert s' == ShiftSlot(s, ch.tid, pc.call, pc.i, pc.j);
    }
  }

  lemma {:induction false} SameShape(s: State, schedule: seq<Choice>)
    ensures |Execute(s, schedule).slots| == |s.slots| && |Execute(s, schedule).pcs| == |s.pcs|
    decreases |schedule|
  {
    if schedule != [] {
      var before, ch := Execute(s, schedule[..|schedule| - 1]), schedule[|schedule| - 1];
      SameShape(s, schedule[..|schedule| - 1]);
      if ch.tid < |before.pcs| {
        StepFrame(before, ch);
      }
    }
  }

  /** For any number of threads and any schedule of single steps: the calls, in the order they
      released the lock, answered exactly what they answer one at a time from the empty table; when
      the lock is free the memory holds exactly their table; no access leaves the allocation; and
      every commit lies between the call and the return it belongs to. */
  lemma {:induction false} Linearizable(garbage: seq<CbInfo>, threads: nat, schedule: seq<Choice>)
    ensures var s := Execute(Start(garbage, threads), schedule);
            && Answers(s.log) == Replies(|garbage|, Calls(s.log))
            && !s.fault && s.count <= |s.slots| == |garbage|
            && (s.owner.Free? ==> s.slots[..s.count] == Run(|garbage|, Calls(s.log)))
            && Bracketed(s.log)
  {
    ReachableInv(garbage, threads, schedule);
    SameShape(Start(garbage, threads), schedule);
  }

  /** The projection of the shared table onto one key is a FIFO queue under every schedule. */
  lemma {:induction false} ConcurrentKeyQueue(garbage: seq<CbInfo>, threads: nat, schedule: seq<Choice>, k: Key)
    ensures var s := Execute(Start(garbage, threads), schedule);
            s.owner.Free? && s.count <= |s.slots| ==>
              Filter(Accepted(|garbage|, Calls(s.log)), HasKey(k)) ==
              Filter(Removed(|garbage|, Calls(s.log)), HasKey(k)) + Filter(s.slots[..s.count], HasKey(k))
  {
    Linearizable(garbage, threads, schedule);
    KeyQueue(|garbage|, Calls(Execute(Start(garbage, threads), schedule).log), k);
  }

  /** log[i] is the latest event of its thread before position n. */
  ghost predicate IsLatest(log: seq<Event>, i: nat, n: nat) {
    i < n <= |log| && forall k :: i < k < n ==> log[k].tid != log[i].tid
  }

  lemma {:induction false} LastOfIndex(log: seq<Event>, n: nat, t: nat) returns (i: nat)
    requires n <= |log| && LastOf(log[..n], t).Last?
    ensures IsLatest(log, i, n) && log[i].tid == t && LastOf(log[..n], t) == Last(log[i])
  {
    assert log[..n][..n - 1] == log[..n - 1];
    if log[n - 1].tid == t {
      i := n - 1;
    } else {
      i := LastOfIndex(log, n - 1, t);
    }
  }

  /** A call takes effect once, between its invocation and its return, with the answer it returns. */
  lemma TakesEffectInside(log: seq<Event>, ret: nat) returns (inv: nat, com: nat)
    requires Bracketed(log) && ret < |log| && log[ret].Return?
    ensures IsLatest(log, com, ret) && IsLatest(log, inv, com)
    ensures log[com] == Commit(log[ret].tid, log[ret].call, log[ret].reply)
    ensures log[inv] == Invoke(log[ret].tid, log[ret].call)
  {
    assert Follows(LastOf(log[..ret], log[ret].tid), log[ret]);
    com := LastOfIndex(log, ret, log[ret].tid);
    assert Follows(LastOf(log[..com], log[com].tid), log[com]);
    inv := LastOfIndex(log, com, log[com].tid);
  }

  /** Real-time order: a call that returned before another was invoked comes before it in the order
      of commits. */
  lemma RealTimeOrder(log: seq<Event>, retA: nat, retB: nat)
    returns (comA: nat, invB: nat, comB: nat)
    requires Bracketed(log) && retA < |log| && retB < |log| && log[retA].Return? && log[retB].Return?
    ensures IsLatest(log, comA, retA) && log[comA] == Commit(log[retA].tid, log[retA].call, log[retA].reply)
    ensures IsLatest(log, comB, retB) && log[comB] == Commit(log[retB].tid, log[retB].call, log[retB].reply)
    ensures IsLatest(log, invB, comB) && log[invB] == Invoke(log[retB].tid, log[retB].call)
    ensures retA < invB ==> comA < comB
  {
    var invA;
    invA, comA := TakesEffectInside(log, retA);
    invB, comB := TakesEffectInside(log, retB);
  }

  // ---------------------------------------------------------------------------------------------
  // Progress
  // ---------------------------------------------------------------------------------------------

  /** Steps a call still needs at most, apart from waiting. */
  function Work(pc: Pc, alloc: nat): nat {
    match pc
    case Idle => 0
    case Returning(_, _) => 1
    case Releasing(_, _) => 2
    case Counting(_) => 3
    case Writing(_, f) => if f <= 4 then 8 - f else 4
    case Testing(_) => 9
    case Shifting(_, _, j) => if j <= alloc then 3 + alloc - j else 3
    case Scanning(_, i) => if i <= alloc then 4 + 2 * (alloc - i) else 4
    case Waiting(_) => 10 + 2 * alloc
  }

  function TotalWork(pcs: seq<Pc>, alloc: nat): nat {
    if pcs == [] then 0 else Work(pcs[0], alloc) + TotalWork(pcs[1..], alloc)
  }

  lemma {:induction false} WorkUpdate(pcs: seq<Pc>, alloc: nat, t: nat, pc: Pc)
    requires t < |pcs|
    ensures TotalWork(pcs[t := pc], alloc) + Work(pcs[t], alloc) == TotalWork(pcs, alloc) + Work(pc, alloc)
  {
    if t > 0 {
      assert pcs[t := pc][1..] == pcs[1..][t - 1 := pc];
      WorkUpdate(pcs[1..], alloc, t - 1, pc);
    } else {
      assert pcs[t := pc][1..] == pcs[1..];
    }
  }

  predicate Active(s: State, t: nat) {
    t < |s.pcs| && !s.pcs[t].Idle? && !Blocked(s, t)
  }

  /** s' differs from s in the place of thread t, which has less to do. */
  ghost predicate Advanced(s: State, s': State, t: nat) {
    && t < |s.pcs| == |s'.pcs| && |s'.slots| == |s.slots|
    && s'.pcs == s.pcs[t := s'.pcs[t]]
    && Work(s'.pcs[t], |s.slots|) < Work(s.pcs[t], |s.slots|)
  }

  lemma WriteAdvances(s: State, t: nat, c: Call, f: nat)
    requires t < |s.pcs| && s.pcs[t] == Writing(c, f) && InProgress(s.slots, s.count, s.pcs[t], Table(s))
    ensures Advanced(s, WriteSlot(s, t, c, f), t) && WriteSlot(s, t, c, f).owner == s.owner
  {
  }

  lemma ScanAdvances(s: State, t: nat, c: Call, i: nat)
    requires t < |s.pcs| && s.pcs[t] == Scanning(c, i) && InProgress(s.slots, s.count, s.pcs[t], Table(s))
    ensures Advanced(s, ScanSlot(s, t, c, i), t) && ScanSlot(s, t, c, i).owner == s.owner
  {
  }

  lemma ShiftAdvances(s: State, t: nat, c: Call, i: nat, j: nat)
    requires t < |s.pcs| && s.pcs[t] == Shifting(c, i, j) && InProgress(s.slots, s.count, s.pcs[t], Table(s))
    ensures Advanced(s, ShiftSlot(s, t, c, i, j), t) && ShiftSlot(s, t, c, i, j).owner == s.owner
  {
  }

  /** Whatever an active thread does next brings its call closer to its return; inside the lock it
      either lets go of it or stays the owner. */
  lemma {:induction false} ActiveAdvances(s: State, ch: Choice)
    requires Inv(s) && Active(s, ch.tid)
    ensures Advanced(s, Step(s, ch), ch.tid)
    ensures Holding(s.pcs[ch.tid]) ==> Step(s, ch).owner == if s.pcs[ch.tid].Releasing? then Free else s.owner
  {
    var t := ch.tid;
    if Holding(s.pcs[t]) {
      assert s.owner == Held(t);
      if s.pcs[t].Writing? {
        WriteAdvances(s, t, s.pcs[t].call, s.pcs[t].fields);
      } else if s.pcs[t].Scanning? {
        ScanAdvances(s, t, s.pcs[t].call, s.pcs[t].i);
      } else if s.pcs[t].Shifting? {
        ShiftAdvances(s, t, s.pcs[t].call, s.pcs[t].i, s.pcs[t].j);
      }
    }
  }

  lemma {:induction false} ActiveStepWorks(s: State, ch: Choice)
    requires Inv(s) && Active(s, ch.tid)
    ensures TotalWork(Step(s, ch).pcs, |s.slots|) < TotalWork(s.pcs, |s.slots|)
  {
    ActiveAdvances(s, ch);
    WorkUpdate(s.pcs, |s.slots|, ch.tid, Step(s, ch).pcs[ch.tid]);
  }

  /** The holder of the lock never waits: its next step lets go of the lock or stays inside with
      less to do. */
  lemma HolderAdvances(s: State, ch: Choice)
    requires Inv(s) && s.owner == Held(ch.tid)
    ensures Active(s, ch.tid) && Advanced(s, Step(s, ch), ch.tid)
    ensures Step(s, ch).owner == if s.pcs[ch.tid].Releasing? then Free else s.owner
  {
    assert Holding(s.pcs[ch.tid]);
    ActiveAdvances(s, ch);
  }

  /** The table and the holder's place are the same in both states. */
  ghost predicate Untouched(s: State, s': State, t: nat) {
    && s'.owner == s.owner && s'.slots == s.slots && s'.count == s.count
    && t < |s.pcs| == |s'.pcs| && s'.pcs[t] == s.pcs[t]
  }

  lemma OthersStep(s: State, ch: Choice, t: nat)
    requires Inv(s) && s.owner == Held(t) && ch.tid != t
    ensures Untouched(s, Step(s, ch), t)
  {
    if ch.tid < |s.pcs| {
      assert !Holding(s.pcs[ch.tid]);
    }
  }

  /** While one thread holds the lock and does not move, no run of other threads touches the slots,
      the count or its place: the half-shifted table is the holder's alone. */
  lemma {:induction false} OthersKeepOut(s: State, schedule: seq<Choice>, t: nat)
    requires Inv(s) && s.owner == Held(t) && forall k :: 0 <= k < |schedule| ==> schedule[k].tid != t
    ensures Untouched(s, Execute(s, schedule), t)
    decreases |schedule|
  {
    if schedule != [] {
      var front := schedule[..|schedule| - 1];
      OthersKeepOut(s, front, t);
      ExecuteInv(s, front);
      OthersStep(Execute(s, front), schedule[|schedule| - 1], t);
    }
  }

  /** How often the schedule picks thread t. */
  function Turns(schedule: seq<Choice>, t: nat): nat
    decreases |schedule|
  {
    if schedule == [] then 0
    else Turns(schedule[..|schedule| - 1], t) + if schedule[|schedule| - 1].tid == t then 1 else 0
  }

  /** t holds the lock from s on through the whole schedule. */
  ghost predicate NeverLetsGo(s: State, schedule: seq<Choice>, t: nat) {
    forall n :: 0 <= n <= |schedule| ==> Execute(s, schedule[..n]).owner == Held(t)
  }

  lemma {:induction false} HoldStep(s: State, ch: Choice, t: nat)
    requires Inv(s) && s.owner == Held(t)
    ensures t < |s.pcs| == |Step(s, ch).pcs|
    ensures Work(Step(s, ch).pcs[t], |s.slots|) + (if ch.tid == t then 1 else 0) <= Work(s.pcs[t], |s.slots|)
  {
    if ch.tid == t {
      HolderAdvances(s, ch);
    } else {
      OthersStep(s, ch, t);
    }
  }

  lemma HeldThroughout(s: State, schedule: seq<Choice>, t: nat)
    requires NeverLetsGo(s, schedule, t)
    ensures s.owner == Held(t) && Execute(s, schedule).owner == Held(t)
    ensures schedule != [] ==> NeverLetsGo(s, schedule[..|schedule| - 1], t)
  {
    assert schedule[..0] == [] && schedule[..|schedule|] == schedule;
    assert Execute(s, schedule[..0]).owner == Held(t) && Execute(s, schedule[..|schedule|]).owner == Held(t);
    if schedule != [] {
      var front := schedule[..|schedule| - 1];
      forall n | 0 <= n <= |front| ensures Execute(s, front[..n]).owner == Held(t) {
        assert front[..n] == schedule[..n];
      }
    }
  }

  /** A thread that keeps the lock spends one unit of its work per turn. */
  lemma {:induction false} HoldSpends(s: State, schedule: seq<Choice>, t: nat)
    requires Inv(s) && NeverLetsGo(s, schedule, t)
    ensures t < |s.pcs| == |Execute(s, schedule).pcs|
    ensures Turns(schedule, t) + Work(Execute(s, schedule).pcs[t], |s.slots|) <= Work(s.pcs[t], |s.slots|)
    decreases |schedule|
  {
    HeldThroughout(s, schedule, t);
    SameShape(s, schedule);
    if schedule != [] {
      var front := schedule[..|schedule| - 1];
      HoldSpends(s, front, t);
      HeldThroughout(s, front, t);
      ExecuteInv(s, front);
      SameShape(s, front);
      HoldStep(Execute(s, front), schedule[|schedule| - 1], t);
    }
  }

  /** Whatever the other threads do in between, a thread has let go of the lock after at most
      9 + 2 * alloc turns of its own. */
  lemma {:induction false} HoldIsBounded(s: State, schedule: seq<Choice>, t: nat)
    requires Inv(s) && NeverLetsGo(s, schedule, t)
    ensures Turns(schedule, t) < 9 + 2 * |s.slots|
  {
    HoldSpends(s, schedule, t);
    HeldThroughout(s, schedule, t);
    ExecuteInv(s, schedule);
    assert Holding(s.pcs[t]) && Holding(Execute(s, schedule).pcs[t]);
  }

  /** wifi_unregister_handler(NL80211_CMD_VENDOR) goes from call to return without the lock, even
      while another thread holds it. */
  lemma {:induction false} EarlyReturnNeverLocks(s: State, t: nat, any: Call)
    requires Inv(s) && t < |s.pcs| && s.pcs[t].Waiting? && s.pcs[t].call.ReturnsEarly()
    ensures var s' := Execute(s, [Choice(t, any), Choice(t, any)]);
            && s'.pcs == s.pcs[t := Idle]
            && s'.slots == s.slots && s'.count == s.count && s'.owner == s.owner
  {
    var ch := Choice(t, any);
    assert [ch, ch][..1] == [ch] && [ch][..0] == [];
    assert Execute(s, [ch]) == Step(s, ch);
  }

  /** If some call is unfinished, some thread can move. */
  lemma NoDeadlock(s: State, t: nat) returns (u: nat)
    requires Inv(s) && t < |s.pcs| && !s.pcs[t].Idle?
    ensures Active(s, u)
  {
    u := t;
    if Blocked(s, t) {
      u := s.owner.tid;
      assert Holding(s.pcs[u]);
    }
  }

  /** Each choice names a thread that can work on the call it is in. */
  ghost predicate Productive(s: State, schedule: seq<Choice>)
    decreases |schedule|
  {
    schedule == [] ||
    (var front := schedule[..|schedule| - 1];
     Productive(s, front) && Active(Execute(s, front), schedule[|schedule| - 1].tid))
  }

  /** Without new calls, nothing can go on for longer than the work that is left. */
  lemma {:induction false} ProductiveIsBounded(s: State, schedule: seq<Choice>)
    requires Inv(s) && Productive(s, schedule)
    ensures |schedule| + TotalWork(Execute(s, schedule).pcs, |s.slots|) <= TotalWork(s.pcs, |s.slots|)
    decreases |schedule|
  {
    if schedule != [] {
      var front := schedule[..|schedule| - 1];
      ProductiveIsBounded(s, front);
      ExecuteInv(s, front);
      SameShape(s, front);
      ActiveStepWorks(Execute(s, front), schedule[|schedule| - 1]);
    }
  }

  predicate AllIdle(s: State) {
    forall t :: 0 <= t < |s.pcs| ==> s.pcs[t].Idle?
  }

  lemma OneMore(s: State, schedule: seq<Choice>, ch: Choice)
    requires Productive(s, schedule) && Active(Execute(s, schedule), ch.tid)
    ensures Productive(s, schedule + [ch])
  {
    assert (schedule + [ch])[..|schedule|] == schedule;
  }

  /** From every reachable state all calls can finish, in at most the work that is left; wherever a
      productive schedule has got to, it can be carried on to the end. */
  lemma {:induction false} AllCallsCanFinish(s: State, schedule: seq<Choice>) returns (whole: seq<Choice>)
    requires Inv(s) && Productive(s, schedule)
    ensures schedule <= whole && Productive(s, whole) && |whole| <= TotalWork(s.pcs, |s.slots|)
    ensures AllIdle(Execute(s, whole))
    decreases TotalWork(s.pcs, |s.slots|) - |schedule|
  {
    var now := Execute(s, schedule);
    ProductiveIsBounded(s, schedule);
    ExecuteInv(s, schedule);
    SameShape(s, schedule);
    if !AllIdle(now) {
      var t: nat :| t < |now.pcs| && !now.pcs[t].Idle?;
      var u := NoDeadlock(now, t);
      var longer := schedule + [Choice(u, Unregister(0))];
      OneMore(s, schedule, Choice(u, Unregister(0)));
      ProductiveIsBounded(s, longer);
      whole := AllCallsCanFinish(s, longer);
    } else {
      whole := schedule;
    }
  }

  lemma {:induction false} WorkBound(pcs: seq<Pc>, alloc: nat)
    ensures TotalWork(pcs, alloc) <= |pcs| * (10 + 2 * alloc)
  {
    if pcs != [] {
      WorkBound(pcs[1..], alloc);
      assert |pcs| * (10 + 2 * alloc) == (10 + 2 * alloc) + |pcs[1..]| * (10 + 2 * alloc);
    }
  }

  /** No schedule leads to a deadlock: whatever has happened, every thread can return from its call
      within a number of steps known in advance. */
  lemma {:induction false} EveryRunCanFinish(garbage: seq<CbInfo>, threads: nat, schedule: seq<Choice>)
    returns (more: seq<Choice>)
    ensures var s := Execute(Start(garbage, threads), schedule);
            && Productive(s, more) && AllIdle(Execute(s, more))
            && |more| <= threads * (10 + 2 * |garbage|)
  {
    var start := Start(garbage, threads);
    var s := Execute(start, schedule);
    ReachableInv(garbage, threads, schedule);
    SameShape(start, schedule);
    more := AllCallsCanFinish(s, []);
    WorkBound(s.pcs, |garbage|);
  }

  // ---------------------------------------------------------------------------------------------
  // Every run of whole operations is a schedule
  // ---------------------------------------------------------------------------------------------

  /** A step keeps its thread's call, unless it invokes one. */
  lemma SameCall(s: State, ch: Choice)
    requires ch.tid < |s.pcs| && !s.pcs[ch.tid].Idle?
    ensures var pc := Step(s, ch).pcs[ch.tid];
            !pc.Idle? ==> pc.call == s.pcs[ch.tid].call
  {
  }

  lemma {:induction false} ExecuteAppend(s: State, a: seq<Choice>, b: seq<Choice>)
    ensures Execute(s, a + b) == Execute(Execute(s, a), b)
    decreases |b|
  {
    if b == [] {
      assert a + b == a;
    } else {
      assert (a + b)[..|a + b| - 1] == a + b[..|b| - 1];
      ExecuteAppend(s, a, b[..|b| - 1]);
    }
  }

  /** n turns of one thread. */
  function Times(ch: Choice, n: nat): seq<Choice> { seq(n, _ => ch) }

  lemma {:induction false} ExecuteRepeat(s: State, ch: Choice, n: nat)
    ensures Execute(s, Times(ch, n + 1)) == Execute(Step(s, ch), Times(ch, n))
    ensures Execute(s, Times(ch, 0)) == s
  {
    assert Times(ch, n + 1) == [ch] + Times(ch, n);
    assert [ch][..0] == [];
    assert Execute(s, [ch]) == Step(s, ch);
    ExecuteAppend(s, [ch], Times(ch, n));
  }

  /** What is left to log for a call at pc, if nobody interferes. */
  function EventsLeft(s: State, t: nat): seq<Event>
    requires t < |s.pcs| && !s.pcs[t].Idle?
  {
    var c := s.pcs[t].call;
    if s.pcs[t].Returning? then [Return(t, c, s.pcs[t].reply)]
    else
      var r := Apply(Table(s), |s.slots|, c).reply;
      [Commit(t, c, r), Return(t, c, r)]
  }

  /** Thread t is in a call and nobody else has the lock. */
  predicate Alone(s: State, t: nat) {
    t < |s.pcs| && !s.pcs[t].Idle? && (s.owner.Free? || s.owner == Held(t))
  }

  lemma QuietTable(s: State, s': State)
    requires s'.log == s.log && |s'.slots| == |s.slots|
    ensures Table(s') == Table(s)
  {
  }

  lemma AloneOwner(s: State, ch: Choice)
    requires Inv(s) && Alone(s, ch.tid)
    ensures Active(s, ch.tid)
    ensures var s' := Step(s, ch);
            s'.owner.Free? || s'.owner == Held(ch.tid)
  {
    ActiveAdvances(s, ch);
  }

  lemma CommitsAsWhole(s: State, t: nat, c: Call, r: Reply)
    requires Inv(s) && t < |s.pcs| && s.pcs[t] == Releasing(c, r)
    ensures Apply(Table(s), |s.slots|, c).reply == r
  {
    assert Holding(s.pcs[t]) && s.owner == Held(t);
  }

  lemma {:induction false} AloneQuiet(s: State, ch: Choice)
    requires Inv(s) && Alone(s, ch.tid) && Active(s, ch.tid) && NewEvents(s, ch) == []
    ensures var s' := Step(s, ch);
            && ch.tid < |s'.pcs| && !s'.pcs[ch.tid].Idle?
            && s'.log + EventsLeft(s', ch.tid) == s.log + EventsLeft(s, ch.tid)
  {
    StepFrame(s, ch);
    SameCall(s, ch);
    QuietTable(s, Step(s, ch));
    QuietMove(s, ch);
  }

  lemma {:induction false} AloneStep(s: State, ch: Choice)
    requires Inv(s) && Alone(s, ch.tid)
    ensures var s' := Step(s, ch);
            && ch.tid < |s'.pcs| == |s.pcs|
            && s'.log + (if s'.pcs[ch.tid].Idle? then [] else EventsLeft(s', ch.tid)) ==
               s.log + EventsLeft(s, ch.tid)
  {
    var pc := s.pcs[ch.tid];
    StepFrame(s, ch);
    AloneOwner(s, ch);
    if NewEvents(s, ch) == [] {
      AloneQuiet(s, ch);
    } else if pc.Releasing? {
      CommitsAsWhole(s, ch.tid, pc.call, pc.reply);
    }
  }

  /** A step that logs nothing does not get as far as the return. */
  lemma QuietMove(s: State, ch: Choice)
    requires Inv(s) && Active(s, ch.tid) && NewEvents(s, ch) == []
    ensures var pc := Step(s, ch).pcs[ch.tid];
            !pc.Idle? && !pc.Returning?
  {
    var pc := s.pcs[ch.tid];
    assert Holding(pc) ==> s.owner == Held(ch.tid);
    if pc.Writing? {
      assert Step(s, ch) == WriteSlot(s, ch.tid, pc.call, pc.fields);
    } else if pc.Scanning? {
      assert Step(s, ch) == ScanSlot(s, ch.tid, pc.call, pc.i);
    } else if pc.Shifting? {
      assert Step(s, ch) == ShiftSlot(s, ch.tid, pc.call, pc.i, pc.j);
    }
  }

  /** s' follows s by a step of t that nobody interfered with. */
  ghost predicate Closer(s: State, s': State, t: nat) {
    && Inv(s') && Advanced(s, s', t)
    && (if s'.pcs[t].Idle? then s'.owner.Free? else Alone(s', t))
    && s'.log + (if s'.pcs[t].Idle? then [] else EventsLeft(s', t)) == s.log + EventsLeft(s, t)
  }

  lemma {:induction false} AloneIsCloser(s: State, ch: Choice)
    requires Inv(s) && Alone(s, ch.tid)
    ensures Closer(s, Step(s, ch), ch.tid)
  {
    StepInv(s, ch);
    AloneOwner(s, ch);
    ActiveAdvances(s, ch);
    AloneStep(s, ch);
    if Step(s, ch).pcs[ch.tid].Idle? {
      IdleLetsGo(Step(s, ch), ch.tid);
    }
  }

  lemma IdleLetsGo(s: State, t: nat)
    requires Inv(s) && t < |s.pcs| && s.pcs[t].Idle?
    ensures s.owner != Held(t)
  {
    assert !Holding(s.pcs[t]);
  }

  /** t is back from its call and everything else is as it was. */
  ghost predicate Finished(s: State, s': State, t: nat) {
    && Alone(s, t)
    && Inv(s') && s'.pcs == s.pcs[t := Idle] && s'.owner.Free? && |s'.slots| == |s.slots|
    && s'.log == s.log + EventsLeft(s, t)
  }

  lemma CloserIdle(s: State, s': State, t: nat)
    requires Alone(s, t) && Closer(s, s', t) && s'.pcs[t].Idle?
    ensures Finished(s, s', t)
  {
  }

  lemma CloserFinished(s: State, s': State, s'': State, t: nat)
    requires Alone(s, t) && Closer(s, s', t) && Finished(s', s'', t)
    ensures Finished(s, s'', t)
  {
    assert s.pcs[t := s'.pcs[t]][t := Idle] == s.pcs[t := Idle];
  }

  lemma {:induction false} FinishesAlone(s: State, ch: Choice) returns (n: nat)
    requires Inv(s) && Alone(s, ch.tid)
    ensures Finished(s, Execute(s, Times(ch, n)), ch.tid)
    decreases Work(s.pcs[ch.tid], |s.slots|)
  {
    AloneIsCloser(s, ch);
    if Step(s, ch).pcs[ch.tid].Idle? {
      n := 1;
      LastTurn(s, ch);
    } else {
      var m := FinishesAlone(Step(s, ch), ch);
      n := m + 1;
      OneTurnMore(s, ch, m);
    }
  }

  lemma LastTurn(s: State, ch: Choice)
    requires Alone(s, ch.tid) && Closer(s, Step(s, ch), ch.tid) && Step(s, ch).pcs[ch.tid].Idle?
    ensures Finished(s, Execute(s, Times(ch, 1)), ch.tid)
  {
    ExecuteRepeat(s, ch, 0);
    ExecuteRepeat(Step(s, ch), ch, 0);
    CloserIdle(s, Step(s, ch), ch.tid);
  }

  lemma {:induction false} OneTurnMore(s: State, ch: Choice, m: nat)
    ensures && Alone(s, ch.tid) && Closer(s, Step(s, ch), ch.tid)
            && Finished(Step(s, ch), Execute(Step(s, ch), Times(ch, m)), ch.tid) ==>
              Finished(s, Execute(s, Times(ch, m + 1)), ch.tid)
  {
    var s' := Step(s, ch);
    ExecuteRepeat(s, ch, m);
    if Alone(s, ch.tid) && Closer(s, s', ch.tid) && Finished(s', Execute(s', Times(ch, m)), ch.tid) {
      CloserFinished(s, s', Execute(s', Times(ch, m)), ch.tid);
    }
  }

  /** t made the call c and returned from it; nothing else happened. */
  ghost predicate Called(s: State, s': State, t: nat, c: Call) {
    var o := Apply(Table(s), |s.slots|, c);
    && Inv(s') && s'.pcs == s.pcs && s'.owner.Free? && |s'.slots| == |s.slots|
    && s'.log == s.log + [Invoke(t, c), Commit(t, c, o.reply), Return(t, c, o.reply)]
    && Calls(s'.log) == Calls(s.log) + [c] && Table(s') == o.table
  }

  lemma {:induction false} InvokeAlone(s: State, t: nat, c: Call)
    requires Inv(s) && t < |s.pcs| && s.pcs[t].Idle? && s.owner.Free?
    ensures var s1, r := Step(s, Choice(t, c)), Apply(Table(s), |s.slots|, c).reply;
            && Inv(s1) && Alone(s1, t) && |s1.slots| == |s.slots|
            && s1.pcs == s.pcs[t := Waiting(c)] && s1.log == s.log + [Invoke(t, c)]
            && EventsLeft(s1, t) == [Commit(t, c, r), Return(t, c, r)]
  {
    var s1 := Step(s, Choice(t, c));
    StepInv(s, Choice(t, c));
    LogAppend(s.log, Invoke(t, c));
    assert s1.log == s.log + [Invoke(t, c)];
    assert Table(s1) == Table(s);
  }

  lemma CalledOnce(s: State, s': State, t: nat, c: Call)
    requires Inv(s') && s'.pcs == s.pcs && s'.owner.Free? && |s'.slots| == |s.slots|
    requires var r := Apply(Table(s), |s.slots|, c).reply;
             s'.log == s.log + [Invoke(t, c), Commit(t, c, r), Return(t, c, r)]
    ensures Called(s, s', t, c)
  {
    CallsOfOne(s.log, t, c, Apply(Table(s), |s.slots|, c).reply);
    RunOne(|s.slots|, Calls(s.log), c);
  }

  lemma InvokedThenFinished(s: State, s1: State, s': State, t: nat, c: Call, r: Reply)
    requires t < |s.pcs| && s.pcs[t].Idle?
    requires s1.pcs == s.pcs[t := Waiting(c)] && s1.log == s.log + [Invoke(t, c)]
    requires Finished(s1, s', t) && EventsLeft(s1, t) == [Commit(t, c, r), Return(t, c, r)]
    ensures s'.pcs == s.pcs && s'.log == s.log + [Invoke(t, c), Commit(t, c, r), Return(t, c, r)]
  {
    assert s.pcs[t := Waiting(c)][t := Idle] == s.pcs;
  }

  /** With the lock free, an idle thread can make a call and return from it, with the answer of the
      whole operation, before anyone else moves. */
  lemma {:induction false} CallAlone(s: State, t: nat, c: Call) returns (n: nat)
    requires Inv(s) && t < |s.pcs| && s.pcs[t].Idle? && s.owner.Free?
    ensures Called(s, Execute(s, Times(Choice(t, c), n)), t, c)
  {
    var ch := Choice(t, c);
    InvokeAlone(s, t, c);
    var m := FinishesAlone(Step(s, ch), ch);
    n := m + 1;
    ExecuteRepeat(s, ch, m);
    var s' := Execute(s, Times(ch, n));
    InvokedThenFinished(s, Step(s, ch), s', t, c, Apply(Table(s), |s.slots|, c).reply);
    CalledOnce(s, s', t, c);
  }

  lemma CallsOfOne(log: seq<Event>, t: nat, c: Call, r: Reply)
    ensures Calls(log + [Invoke(t, c), Commit(t, c, r), Return(t, c, r)]) == Calls(log) + [c]
  {
    var invoked := log + [Invoke(t, c)];
    var committed := invoked + [Commit(t, c, r)];
    assert log + [Invoke(t, c), Commit(t, c, r), Return(t, c, r)] == committed + [Return(t, c, r)];
    LogAppend(log, Invoke(t, c));
    LogAppend(invoked, Commit(t, c, r));
    LogAppend(committed, Return(t, c, r));
  }

  /** The converse of Linearizable: every run of whole operations is what some schedule commits, so the
      threads can get exactly the answers that calls one at a time get. */
  lemma EveryRunHappens(garbage: seq<CbInfo>, threads: nat, t: nat, calls: seq<Call>)
    returns (schedule: seq<Choice>)
    requires t < threads
    ensures var s := Execute(Start(garbage, threads), schedule);
            && Calls(s.log) == calls && Answers(s.log) == Replies(|garbage|, calls)
            && AllIdle(s) && s.owner.Free?
            && s.count <= |s.slots| && s.slots[..s.count] == Run(|garbage|, calls)
    decreases |calls|
  {
    schedule := EveryRunReached(garbage, threads, t, calls);
    Linearizable(garbage, threads, schedule);
  }

  /** s has committed these calls, and all threads are back. */
  ghost predicate Reached(s: State, start: State, calls: seq<Call>) {
    && Inv(s) && Calls(s.log) == calls && s.pcs == start.pcs && s.owner.Free? && AllIdle(s)
  }

  lemma {:induction false} EveryRunReached(garbage: seq<CbInfo>, threads: nat, t: nat, calls: seq<Call>)
    returns (schedule: seq<Choice>)
    requires t < threads
    ensures Reached(Execute(Start(garbage, threads), schedule), Start(garbage, threads), calls)
    decreases |calls|
  {
    var start := Start(garbage, threads);
    if calls == [] {
      schedule := [];
      StartInv(garbage, threads);
    } else {
      var c := calls[|calls| - 1];
      var front := EveryRunReached(garbage, threads, t, calls[..|calls| - 1]);
      var n := CallAlone(Execute(start, front), t, c);
      schedule := front + Times(Choice(t, c), n);
      ExecuteAppend(start, front, Times(Choice(t, c), n));
      assert calls == calls[..|calls| - 1] + [c];
    }
  }
}
