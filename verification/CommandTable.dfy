/** The table of outstanding commands as an abstract list with a log of what happened to each command
    (mtk/hal/libwifi-hal-mt66xx/common.cpp:153-244). A cancel runs whatever cancel() does to the table,
    further cancels included, between taking the command and releasing its reference. */
module CommandTable {
  import opened Lists
  import opened WifiTypes

  datatype CmdInfo = CmdInfo(id: int, cmd: Address)

  datatype Call =
    | Register(id: int, cmd: Address)
    | UnregisterId(id: int)
    | UnregisterPtr(cmd: Address)
    | Get(id: int)
    | Cancel(id: int, during: seq<Call>)

  datatype Kind = Added | TakenById | TakenByPtr | TakenByCancel | CancelCalled | RefReleased

  datatype Event = Event(kind: Kind, entry: CmdInfo)

  datatype State = State(table: seq<CmdInfo>, log: seq<Event>)

  const EMPTY := State([], [])

  function HasId(id: int): CmdInfo -> bool { (e: CmdInfo) => e.id == id }

  function HasCmd(cmd: Address): CmdInfo -> bool { (e: CmdInfo) => e.cmd == cmd }

  /** Remove the first match and log how it left. */
  function Take(s: State, p: CmdInfo -> bool, kind: Kind): State {
    var i := FirstIndex(s.table, p);
    if i == |s.table| then s
    else State(RemoveFirst(s.table, p), s.log + [Event(kind, s.table[i])])
  }

  function Do(s: State, alloc: nat, c: Call): State
    decreases c
  {
    match c
    case Register(id, cmd) =>
      if |s.table| < alloc
      then State(s.table + [CmdInfo(id, cmd)], s.log + [Event(Added, CmdInfo(id, cmd))])
      else s
    case UnregisterId(id) => Take(s, HasId(id), TakenById)
    case UnregisterPtr(cmd) => Take(s, HasCmd(cmd), TakenByPtr)
    case Get(_) => s
    case Cancel(id, during) =>
      var i := FirstIndex(s.table, HasId(id));
      var taken := Take(s, HasId(id), TakenByCancel);
      if i == |s.table| || s.table[i].cmd == NULL then taken
      else Release(DoAll(Note(taken, CancelCalled, s.table[i]), alloc, during), s.table[i])
  }

  function DoAll(s: State, alloc: nat, calls: seq<Call>): State
    decreases calls
  {
    if calls == [] then s else DoAll(Do(s, alloc, calls[0]), alloc, calls[1..])
  }

  function Note(s: State, kind: Kind, e: CmdInfo): State {
    s.(log := s.log + [Event(kind, e)])
  }

  function Release(s: State, e: CmdInfo): State { Note(s, RefReleased, e) }

  /** The command registered first under id among those still present, or NULL. */
  function Oldest(t: seq<CmdInfo>, id: int): Address {
    var q := Filter(t, HasId(id));
    if q == [] then NULL else q[0].cmd
  }

  /** Entries of the events of the given kinds, in order. */
  function Select(log: seq<Event>, kinds: set<Kind>): seq<CmdInfo> {
    if log == [] then []
    else (if log[0].kind in kinds then [log[0].entry] else []) + Select(log[1..], kinds)
  }

  /** Entries of one id among the events of the given kinds. */
  function Of(log: seq<Event>, kinds: set<Kind>, id: int): seq<CmdInfo> {
    Filter(Select(log, kinds), HasId(id))
  }

  /** Take, in terms of the position of the match. */
  lemma TakeAt(s: State, p: CmdInfo -> bool, kind: Kind)
    ensures var i := FirstIndex(s.table, p);
            Take(s, p, kind) ==
            if i < |s.table| then State(WithoutIndex(s.table, i), s.log + [Event(kind, s.table[i])]) else s
  {
    RemoveFirstAt(s.table, p);
  }

  lemma {:induction false} SelectAppend(log: seq<Event>, e: Event, kinds: set<Kind>)
    ensures Select(log + [e], kinds) == Select(log, kinds) + if e.kind in kinds then [e.entry] else []
  {
    if log != [] {
      assert (log + [e])[1..] == log[1..] + [e];
      SelectAppend(log[1..], e, kinds);
    }
  }

  lemma {:induction false} SelectConcat(log: seq<Event>, more: seq<Event>, kinds: set<Kind>)
    ensures Select(log + more, kinds) == Select(log, kinds) + Select(more, kinds)
    decreases |more|
  {
    if more == [] {
      assert log + more == log;
    } else {
      var front, e := more[..|more| - 1], more[|more| - 1];
      assert more == front + [e] && log + more == (log + front) + [e];
      SelectConcat(log, front, kinds);
      SelectAppend(log + front, e, kinds);
      SelectAppend(front, e, kinds);
    }
  }

  lemma OfAppend(log: seq<Event>, e: Event, kinds: set<Kind>, id: int)
    ensures Of(log + [e], kinds, id) ==
            if e.kind in kinds && e.entry.id == id then Of(log, kinds, id) + [e.entry] else Of(log, kinds, id)
  {
    SelectAppend(log, e, kinds);
    FilterAppend(Select(log, kinds), if e.kind in kinds then [e.entry] else [], HasId(id));
  }

  // ---------------------------------------------------------------------------------------------
  // FIFO order and conservation, for one id
  // ---------------------------------------------------------------------------------------------

  const IN_ORDER: set<Kind> := {TakenById, TakenByCancel}

  /** Commands taken by id or by cancel, then those still present, are the commands added, in the
      order they were added, except those the pointer overload took out. Nothing else is lost and
      nothing appears from nowhere. */
  ghost predicate Balanced(added: seq<CmdInfo>, taken: seq<CmdInfo>, dropped: seq<CmdInfo>, present: seq<CmdInfo>) {
    && Subsequence(taken + present, added)
    && multiset(added) == multiset(taken) + multiset(dropped) + multiset(present)
    && |added| == |taken| + |dropped| + |present|
  }

  ghost predicate Ledger(s: State, id: int) {
    Balanced(Of(s.log, {Added}, id), Of(s.log, IN_ORDER, id), Of(s.log, {TakenByPtr}, id), Filter(s.table, HasId(id)))
  }

  lemma BalancedAdd(
    added: seq<CmdInfo>, taken: seq<CmdInfo>, dropped: seq<CmdInfo>, present: seq<CmdInfo>, e: CmdInfo)
    requires Balanced(added, taken, dropped, present)
    ensures Balanced(added + [e], taken, dropped, present + [e])
  {
    SubsequenceAppend(taken + present, added, [e]);
    assert taken + (present + [e]) == (taken + present) + [e];
  }

  lemma BalancedTake(
    added: seq<CmdInfo>, taken: seq<CmdInfo>, dropped: seq<CmdInfo>, present: seq<CmdInfo>)
    requires Balanced(added, taken, dropped, present) && present != []
    ensures Balanced(added, taken + [present[0]], dropped, present[1..])
  {
    assert present == [present[0]] + present[1..];
    assert taken + present == (taken + [present[0]]) + present[1..];
  }

  lemma BalancedDrop(
    added: seq<CmdInfo>, taken: seq<CmdInfo>, dropped: seq<CmdInfo>, present: seq<CmdInfo>, e: CmdInfo,
    left: seq<CmdInfo>)
    requires Balanced(added, taken, dropped, present)
    requires Subsequence(left, present) && multiset(present) == multiset(left) + multiset{e}
    requires |present| == |left| + 1
    ensures Balanced(added, taken, dropped + [e], left)
  {
    SubsequencePrepend(taken, left, present);
    SubsequenceTrans(taken + left, taken + present, added);
  }

  lemma {:induction false} LogAppend(log: seq<Event>, e: Event, id: int)
    ensures Of(log + [e], {Added}, id) ==
            if e.kind == Added && e.entry.id == id then Of(log, {Added}, id) + [e.entry] else Of(log, {Added}, id)
    ensures Of(log + [e], IN_ORDER, id) ==
            if e.kind in IN_ORDER && e.entry.id == id then Of(log, IN_ORDER, id) + [e.entry] else Of(log, IN_ORDER, id)
    ensures Of(log + [e], {TakenByPtr}, id) ==
            if e.kind == TakenByPtr && e.entry.id == id then Of(log, {TakenByPtr}, id) + [e.entry]
            else Of(log, {TakenByPtr}, id)
  {
    OfAppend(log, e, {Added}, id);
    OfAppend(log, e, IN_ORDER, id);
    OfAppend(log, e, {TakenByPtr}, id);
  }

  lemma LedgerNote(s: State, kind: Kind, e: CmdInfo, id: int)
    requires Ledger(s, id) && (kind == CancelCalled || kind == RefReleased)
    ensures Ledger(Note(s, kind, e), id)
  {
    LogAppend(s.log, Event(kind, e), id);
  }

  lemma LedgerAdd(s: State, e: CmdInfo, id: int)
    requires Ledger(s, id)
    ensures Ledger(State(s.table + [e], s.log + [Event(Added, e)]), id)
  {
    LogAppend(s.log, Event(Added, e), id);
    FilterAppendOne(s.table, e, HasId(id));
    if e.id == id {
      BalancedAdd(Of(s.log, {Added}, id), Of(s.log, IN_ORDER, id), Of(s.log, {TakenByPtr}, id),
                  Filter(s.table, HasId(id)), e);
    }
  }

  /** A removal by id, seen by the bookkeeping of one id. */
  lemma TakeByIdEffect(s: State, at: int, kind: Kind, id: int)
    requires kind in IN_ORDER
    ensures var s', present := Take(s, HasId(at), kind), Filter(s.table, HasId(id));
            && Of(s'.log, {Added}, id) == Of(s.log, {Added}, id)
            && Of(s'.log, {TakenByPtr}, id) == Of(s.log, {TakenByPtr}, id)
            && (if at == id && present != []
                then && Of(s'.log, IN_ORDER, id) == Of(s.log, IN_ORDER, id) + [present[0]]
                     && Filter(s'.table, HasId(id)) == present[1..]
                else && Of(s'.log, IN_ORDER, id) == Of(s.log, IN_ORDER, id)
                     && Filter(s'.table, HasId(id)) == present)
  {
    FilterRemoved(s.table, HasId(at));
    var i := FirstIndex(s.table, HasId(at));
    if i < |s.table| {
      LogAppend(s.log, Event(kind, s.table[i]), id);
      if at != id {
        FilterKept(s.table, HasId(at), HasId(id));
      }
    }
  }

  lemma LedgerTakeById(s: State, at: int, kind: Kind, id: int)
    requires Ledger(s, id) && kind in IN_ORDER
    ensures Ledger(Take(s, HasId(at), kind), id)
  {
    TakeByIdEffect(s, at, kind, id);
    var present := Filter(s.table, HasId(id));
    if at == id && present != [] {
      BalancedTake(Of(s.log, {Added}, id), Of(s.log, IN_ORDER, id), Of(s.log, {TakenByPtr}, id), present);
    }
  }

  lemma LedgerDrop(s: State, s': State, e: CmdInfo, id: int)
    requires Ledger(s, id) && s'.log == s.log + [Event(TakenByPtr, e)] && e.id == id
    requires var left, present := Filter(s'.table, HasId(id)), Filter(s.table, HasId(id));
             && Subsequence(left, present)
             && multiset(present) == multiset(left) + multiset{e}
             && |present| == |left| + 1
    ensures Ledger(s', id)
  {
    LogAppend(s.log, Event(TakenByPtr, e), id);
    BalancedDrop(Of(s.log, {Added}, id), Of(s.log, IN_ORDER, id), Of(s.log, {TakenByPtr}, id),
                 Filter(s.table, HasId(id)), e, Filter(s'.table, HasId(id)));
  }

  lemma LedgerTakeByPtr(s: State, cmd: Address, id: int)
    requires Ledger(s, id)
    ensures Ledger(Take(s, HasCmd(cmd), TakenByPtr), id)
  {
    var i := FirstIndex(s.table, HasCmd(cmd));
    if i < |s.table| {
      FilterLoses(s.table, HasCmd(cmd), HasId(id));
      if s.table[i].id == id {
        FilterSubsequence(s.table, HasCmd(cmd), HasId(id));
        LedgerDrop(s, Take(s, HasCmd(cmd), TakenByPtr), s.table[i], id);
      } else {
        LogAppend(s.log, Event(TakenByPtr, s.table[i]), id);
      }
    }
  }

  lemma {:induction false} LedgerDo(s: State, alloc: nat, c: Call, id: int)
    requires Ledger(s, id)
    ensures Ledger(Do(s, alloc, c), id)
    decreases c
  {
    match c
    case Register(at, cmd) => LedgerAdd(s, CmdInfo(at, cmd), id);
    case UnregisterId(at) => LedgerTakeById(s, at, TakenById, id);
    case UnregisterPtr(cmd) => LedgerTakeByPtr(s, cmd, id);
    case Get(_) =>
    case Cancel(at, during) =>
      var i := FirstIndex(s.table, HasId(at));
      var taken := Take(s, HasId(at), TakenByCancel);
      LedgerTakeById(s, at, TakenByCancel, id);
      if i < |s.table| && s.table[i].cmd != NULL {
        var e := s.table[i];
        LedgerNote(taken, CancelCalled, e, id);
        LedgerDoAll(Note(taken, CancelCalled, e), alloc, during, id);
        LedgerNote(DoAll(Note(taken, CancelCalled, e), alloc, during), RefReleased, e, id);
      }
  }

  lemma {:induction false} LedgerDoAll(s: State, alloc: nat, calls: seq<Call>, id: int)
    requires Ledger(s, id)
    ensures Ledger(DoAll(s, alloc, calls), id)
    decreases calls
  {
    if calls != [] {
      LedgerDo(s, alloc, calls[0], id);
      LedgerDoAll(Do(s, alloc, calls[0]), alloc, calls[1..], id);
    }
  }

  /** Over every run, re-entrant cancels included, and for every id: by-id removals and cancels take
      commands in registration order, the commands taken and still present keep that order, and they
      are all the commands added exactly when no pointer removal hit the id. */
  lemma FifoPerId(alloc: nat, calls: seq<Call>, id: int)
    ensures var s := DoAll(EMPTY, alloc, calls);
            var added, taken := Of(s.log, {Added}, id), Of(s.log, IN_ORDER, id);
            var present := Filter(s.table, HasId(id));
            && Subsequence(taken + present, added)
            && (taken + present == added <==> Of(s.log, {TakenByPtr}, id) == [])
  {
    var s := DoAll(EMPTY, alloc, calls);
    assert Ledger(EMPTY, id);
    LedgerDoAll(EMPTY, alloc, calls, id);
    SubsequenceLength(Of(s.log, IN_ORDER, id) + Filter(s.table, HasId(id)), Of(s.log, {Added}, id));
  }

  /** Without pointer hits on the id, the n-th removal takes the n-th command added. */
  lemma NthTakenIsNthAdded(alloc: nat, calls: seq<Call>, id: int, n: nat)
    requires var s := DoAll(EMPTY, alloc, calls);
             Of(s.log, {TakenByPtr}, id) == [] && n < |Of(s.log, IN_ORDER, id)|
    ensures var s := DoAll(EMPTY, alloc, calls);
            n < |Of(s.log, {Added}, id)| && Of(s.log, IN_ORDER, id)[n] == Of(s.log, {Added}, id)[n]
  {
    FifoPerId(alloc, calls, id);
  }

  /** Every command added under an id is present, or was taken by id, by cancel or by pointer, with
      the multiplicity it was added. */
  lemma Conservation(alloc: nat, calls: seq<Call>, id: int)
    ensures var s := DoAll(EMPTY, alloc, calls);
            multiset(Of(s.log, {Added}, id)) ==
            multiset(Of(s.log, {TakenById}, id)) + multiset(Of(s.log, {TakenByCancel}, id)) +
            multiset(Of(s.log, {TakenByPtr}, id)) + multiset(Filter(s.table, HasId(id)))
  {
    var s := DoAll(EMPTY, alloc, calls);
    assert Ledger(EMPTY, id);
    LedgerDoAll(EMPTY, alloc, calls, id);
    SplitInOrder(s.log, id);
  }

  lemma {:induction false} SplitInOrder(log: seq<Event>, id: int)
    ensures multiset(Of(log, IN_ORDER, id)) ==
            multiset(Of(log, {TakenById}, id)) + multiset(Of(log, {TakenByCancel}, id))
  {
    if log != [] {
      var front, e := log[..|log| - 1], log[|log| - 1];
      assert log == front + [e];
      SplitInOrder(front, id);
      OfAppend(front, e, IN_ORDER, id);
      OfAppend(front, e, {TakenById}, id);
      OfAppend(front, e, {TakenByCancel}, id);
    }
  }

  // ---------------------------------------------------------------------------------------------
  // Cancels that report failure after removing
  // ---------------------------------------------------------------------------------------------

  /** wifi_cancel_cmd reports success only when the command it took is not NULL. */
  function CancelReply(t: seq<CmdInfo>, id: int): WifiError {
    if Oldest(t, id) != NULL then WIFI_SUCCESS else WIFI_ERROR_INVALID_ARGS
  }

  function IsNull(): CmdInfo -> bool { (e: CmdInfo) => e.cmd == NULL }

  function NotNull(): CmdInfo -> bool { (e: CmdInfo) => e.cmd != NULL }

  lemma {:induction false} SplitByNull(s: seq<CmdInfo>)
    ensures |s| == |Filter(s, IsNull())| + |Filter(s, NotNull())|
  {
    if s != [] {
      SplitByNull(s[1..]);
    }
  }

  /** The log of a cancel that took an object: it leaves the table, and its cancel() is called. */
  ghost predicate TookObject(before: seq<Event>, after: seq<Event>, id: int) {
    exists e: CmdInfo, rest: seq<Event> ::
      e.id == id && e.cmd != NULL && after == before + [Event(TakenByCancel, e), Event(CancelCalled, e)] + rest
  }

  /** What a log gains depends on the table alone. */
  lemma {:induction false} LogGained(s: State, alloc: nat, c: Call)
    ensures var alone := Do(State(s.table, []), alloc, c);
            Do(s, alloc, c) == State(alone.table, s.log + alone.log)
    decreases c
  {
    match c
    case Cancel(id, during) =>
      var i := FirstIndex(s.table, HasId(id));
      if i < |s.table| && s.table[i].cmd != NULL {
        var e, t := s.table[i], RemoveFirst(s.table, HasId(id));
        var begun := [Event(TakenByCancel, e), Event(CancelCalled, e)];
        AllGained(State(t, s.log + begun), alloc, during);
        AllGained(State(t, begun), alloc, during);
        CancelUnfolds(s, alloc, id, during);
        CancelUnfolds(State(s.table, []), alloc, id, during);
        assert [] + begun == begun;
        var gained := DoAll(State(t, []), alloc, during).log;
        assert s.log + begun + gained + [Event(RefReleased, e)] == s.log + (begun + gained + [Event(RefReleased, e)]);
      }
    case _ =>
  }

  /** A cancel that takes an object, with its own events written out. */
  lemma {:induction false} CancelUnfolds(s: State, alloc: nat, id: int, during: seq<Call>)
    ensures var i := FirstIndex(s.table, HasId(id));
            i < |s.table| && s.table[i].cmd != NULL ==>
              var begun := s.log + [Event(TakenByCancel, s.table[i]), Event(CancelCalled, s.table[i])];
              Do(s, alloc, Cancel(id, during)) ==
              Release(DoAll(State(RemoveFirst(s.table, HasId(id)), begun), alloc, during), s.table[i])
  {
    var i := FirstIndex(s.table, HasId(id));
    if i < |s.table| {
      var e := s.table[i];
      assert s.log + [Event(TakenByCancel, e)] + [Event(CancelCalled, e)] ==
             s.log + [Event(TakenByCancel, e), Event(CancelCalled, e)];
    }
  }

  lemma {:induction false} AllGained(s: State, alloc: nat, calls: seq<Call>)
    ensures var alone := DoAll(State(s.table, []), alloc, calls);
            DoAll(s, alloc, calls) == State(alone.table, s.log + alone.log)
    decreases calls
  {
    if calls != [] {
      LogGained(s, alloc, calls[0]);
      var once := Do(State(s.table, []), alloc, calls[0]);
      AllGained(Do(s, alloc, calls[0]), alloc, calls[1..]);
      AllGained(once, alloc, calls[1..]);
      assert s.log + once.log + DoAll(State(once.table, []), alloc, calls[1..]).log ==
             s.log + (once.log + DoAll(State(once.table, []), alloc, calls[1..]).log);
    }
  }

  /** wifi_cancel_cmd answers success if and only if it took an object and called its cancel(), and
      invalid arguments in every other case. */
  lemma {:induction false} CancelReplyExact(s: State, alloc: nat, id: int, during: seq<Call>)
    ensures CancelReply(s.table, id) ==
            if TookObject(s.log, Do(s, alloc, Cancel(id, during)).log, id) then WIFI_SUCCESS
            else WIFI_ERROR_INVALID_ARGS
  {
    var i := FirstIndex(s.table, HasId(id));
    FilterRemoved(s.table, HasId(id));
    var after := Do(s, alloc, Cancel(id, during)).log;
    if i < |s.table| && s.table[i].cmd != NULL {
      var e := s.table[i];
      var inside := Note(Take(s, HasId(id), TakenByCancel), CancelCalled, e);
      AllGained(inside, alloc, during);
      var rest := DoAll(State(inside.table, []), alloc, during).log + [Event(RefReleased, e)];
      assert after == s.log + [Event(TakenByCancel, e), Event(CancelCalled, e)] + rest;
    } else {
      assert |after| <= |s.log| + 1;
    }
  }

  /** Cancels of id that answered success during a run, those made inside a cancel() included. */
  function Successes(s: State, alloc: nat, c: Call, id: int): nat
    decreases c
  {
    match c
    case Cancel(at, during) =>
      var i := FirstIndex(s.table, HasId(at));
      (if at == id && CancelReply(s.table, at) == WIFI_SUCCESS then 1 else 0) +
      (if i < |s.table| && s.table[i].cmd != NULL
       then AllSuccesses(Note(Take(s, HasId(at), TakenByCancel), CancelCalled, s.table[i]), alloc, during, id)
       else 0)
    case _ => 0
  }

  function AllSuccesses(s: State, alloc: nat, calls: seq<Call>, id: int): nat
    decreases calls
  {
    if calls == [] then 0
    else Successes(s, alloc, calls[0], id) + AllSuccesses(Do(s, alloc, calls[0]), alloc, calls[1..], id)
  }

  /** Objects of id that cancels took. */
  function Objects(log: seq<Event>, id: int): nat { |Filter(Of(log, {TakenByCancel}, id), NotNull())| }

  lemma {:induction false} ObjectsAppend(log: seq<Event>, e: Event, id: int)
    ensures Objects(log + [e], id) ==
            Objects(log, id) + if e.kind == TakenByCancel && e.entry.id == id && e.entry.cmd != NULL then 1 else 0
  {
    OfAppend(log, e, {TakenByCancel}, id);
    FilterAppendOne(Of(log, {TakenByCancel}, id), e.entry, NotNull());
  }

  lemma {:induction false} SuccessesCount(s: State, alloc: nat, c: Call, id: int)
    ensures Objects(Do(s, alloc, c).log, id) == Objects(s.log, id) + Successes(s, alloc, c, id)
    decreases c
  {
    match c
    case Register(at, cmd) => ObjectsAppend(s.log, Event(Added, CmdInfo(at, cmd)), id);
    case UnregisterId(at) => ObjectsTaken(s, HasId(at), TakenById, id);
    case UnregisterPtr(cmd) => ObjectsTaken(s, HasCmd(cmd), TakenByPtr, id);
    case Get(_) =>
    case Cancel(at, during) =>
      ObjectsTaken(s, HasId(at), TakenByCancel, id);
      FilterRemoved(s.table, HasId(at));
      var i := FirstIndex(s.table, HasId(at));
      if i < |s.table| && s.table[i].cmd != NULL {
        var e, taken := s.table[i], Take(s, HasId(at), TakenByCancel);
        var inside := Note(taken, CancelCalled, e);
        ObjectsAppend(taken.log, Event(CancelCalled, e), id);
        AllSuccessesCount(inside, alloc, during, id);
        ObjectsAppend(DoAll(inside, alloc, during).log, Event(RefReleased, e), id);
      }
  }

  lemma {:induction false} ObjectsTaken(s: State, p: CmdInfo -> bool, kind: Kind, id: int)
    ensures var i := FirstIndex(s.table, p);
            Objects(Take(s, p, kind).log, id) ==
            Objects(s.log, id) +
            if i < |s.table| && kind == TakenByCancel && s.table[i].id == id && s.table[i].cmd != NULL then 1 else 0
  {
    var i := FirstIndex(s.table, p);
    if i < |s.table| {
      ObjectsAppend(s.log, Event(kind, s.table[i]), id);
    }
  }

  lemma {:induction false} AllSuccessesCount(s: State, alloc: nat, calls: seq<Call>, id: int)
    ensures Objects(DoAll(s, alloc, calls).log, id) == Objects(s.log, id) + AllSuccesses(s, alloc, calls, id)
    decreases calls
  {
    if calls != [] {
      SuccessesCount(s, alloc, calls[0], id);
      AllSuccessesCount(Do(s, alloc, calls[0]), alloc, calls[1..], id);
    }
  }

  /** The books of an id after a run, with only the cancels that answered success counted as removals. */
  predicate Balances(alloc: nat, calls: seq<Call>, id: int) {
    var s := DoAll(EMPTY, alloc, calls);
    |Of(s.log, {Added}, id)| ==
      |Of(s.log, {TakenById}, id)| + AllSuccesses(EMPTY, alloc, calls, id) +
      |Of(s.log, {TakenByPtr}, id)| + |Filter(s.table, HasId(id))|
  }

  /** They balance exactly when no cancel of that id took a NULL command. */
  lemma SuccessfulCancelsBalance(alloc: nat, calls: seq<Call>, id: int)
    ensures var s := DoAll(EMPTY, alloc, calls);
            Balances(alloc, calls, id) <==> Filter(Of(s.log, {TakenByCancel}, id), IsNull()) == []
  {
    var s := DoAll(EMPTY, alloc, calls);
    AllSuccessesCount(EMPTY, alloc, calls, id);
    Conservation(alloc, calls, id);
    var added := multiset(Of(s.log, {Added}, id));
    assert |added| == |Of(s.log, {Added}, id)|;
    SplitByNull(Of(s.log, {TakenByCancel}, id));
  }

  /** n cancels of id whose cancel() leaves the table alone. */
  function Cancels(id: int, n: nat): seq<Call> {
    seq(n, _ => Cancel(id, []))
  }

  lemma {:induction false} DoAllAppend(s: State, alloc: nat, calls: seq<Call>, more: seq<Call>)
    ensures DoAll(s, alloc, calls + more) == DoAll(DoAll(s, alloc, calls), alloc, more)
    decreases calls
  {
    if calls == [] {
      assert calls + more == more;
    } else {
      assert (calls + more)[1..] == calls[1..] + more;
      DoAllAppend(Do(s, alloc, calls[0]), alloc, calls[1..], more);
    }
  }

  lemma CancelTakesHead(s: State, alloc: nat, id: int)
    ensures var s', q := Do(s, alloc, Cancel(id, [])), Filter(s.table, HasId(id));
            && Filter(s'.table, HasId(id)) == Tail(q)
            && Of(s'.log, {TakenByCancel}, id) ==
               Of(s.log, {TakenByCancel}, id) + if q == [] then [] else [q[0]]
  {
    FilterRemoved(s.table, HasId(id));
    var i := FirstIndex(s.table, HasId(id));
    if i < |s.table| {
      var e, taken := s.table[i], Take(s, HasId(id), TakenByCancel);
      OfAppend(s.log, Event(TakenByCancel, e), {TakenByCancel}, id);
      OfAppend(taken.log, Event(CancelCalled, e), {TakenByCancel}, id);
      OfAppend(Note(taken, CancelCalled, e).log, Event(RefReleased, e), {TakenByCancel}, id);
    }
  }

  /** k + 1 cancels take the entry at position k of the queue of the id. */
  lemma {:induction false} CancelsReach(s: State, alloc: nat, id: int, k: nat)
    requires k < |Filter(s.table, HasId(id))|
    ensures Filter(s.table, HasId(id))[k] in Of(DoAll(s, alloc, Cancels(id, k + 1)).log, {TakenByCancel}, id)
    decreases k
  {
    var s' := Do(s, alloc, Cancel(id, []));
    assert Cancels(id, k + 1)[1..] == Cancels(id, k);
    CancelTakesHead(s, alloc, id);
    if k == 0 {
      assert DoAll(s', alloc, Cancels(id, 0)) == s';
    } else {
      CancelsReach(s', alloc, id, k - 1);
    }
  }

  predicate RegistersOnlyObjects(c: Call)
    decreases c
  {
    match c
    case Register(_, cmd) => cmd != NULL
    case Cancel(_, during) => AllRegisterOnlyObjects(during)
    case _ => true
  }

  predicate AllRegisterOnlyObjects(calls: seq<Call>)
    decreases calls
  {
    calls == [] || (RegistersOnlyObjects(calls[0]) && AllRegisterOnlyObjects(calls[1..]))
  }

  lemma {:induction false} CancelsRegisterNothing(id: int, n: nat)
    ensures AllRegisterOnlyObjects(Cancels(id, n))
    decreases n
  {
    if n > 0 {
      assert Cancels(id, n)[1..] == Cancels(id, n - 1);
      assert RegistersOnlyObjects(Cancel(id, []));
      CancelsRegisterNothing(id, n - 1);
    }
  }

  /** No NULL under id, neither present nor taken by a cancel. */
  ghost predicate CleanUnder(s: State, id: int) {
    && (forall k :: 0 <= k < |s.table| ==> s.table[k] != CmdInfo(id, NULL))
    && CmdInfo(id, NULL) !in Of(s.log, {TakenByCancel}, id)
  }

  lemma CleanTake(s: State, p: CmdInfo -> bool, kind: Kind, id: int)
    requires CleanUnder(s, id)
    ensures CleanUnder(Take(s, p, kind), id)
  {
    TakeAt(s, p, kind);
    var i := FirstIndex(s.table, p);
    if i < |s.table| {
      OfAppend(s.log, Event(kind, s.table[i]), {TakenByCancel}, id);
    }
  }

  lemma CleanNote(s: State, kind: Kind, e: CmdInfo, id: int)
    requires CleanUnder(s, id) && kind != TakenByCancel
    ensures CleanUnder(Note(s, kind, e), id)
  {
    OfAppend(s.log, Event(kind, e), {TakenByCancel}, id);
  }

  lemma {:induction false} CleanDo(s: State, alloc: nat, c: Call, id: int)
    requires CleanUnder(s, id) && RegistersOnlyObjects(c)
    ensures CleanUnder(Do(s, alloc, c), id)
    decreases c
  {
    match c
    case Register(at, cmd) => OfAppend(s.log, Event(Added, CmdInfo(at, cmd)), {TakenByCancel}, id);
    case UnregisterId(at) => CleanTake(s, HasId(at), TakenById, id);
    case UnregisterPtr(cmd) => CleanTake(s, HasCmd(cmd), TakenByPtr, id);
    case Get(_) =>
    case Cancel(at, during) =>
      CleanTake(s, HasId(at), TakenByCancel, id);
      var i := FirstIndex(s.table, HasId(at));
      if i < |s.table| {
        var e, taken := s.table[i], Take(s, HasId(at), TakenByCancel);
        CleanNote(taken, CancelCalled, e, id);
        CleanDoAll(Note(taken, CancelCalled, e), alloc, during, id);
        CleanNote(DoAll(Note(taken, CancelCalled, e), alloc, during), RefReleased, e, id);
      }
  }

  lemma {:induction false} CleanDoAll(s: State, alloc: nat, calls: seq<Call>, id: int)
    requires CleanUnder(s, id) && AllRegisterOnlyObjects(calls)
    ensures CleanUnder(DoAll(s, alloc, calls), id)
    decreases calls
  {
    if calls != [] {
      CleanDo(s, alloc, calls[0], id);
      CleanDoAll(Do(s, alloc, calls[0]), alloc, calls[1..], id);
    }
  }

  /** The books balance exactly when no cancel of that id took a NULL command. */
  lemma BalanceByMembership(alloc: nat, calls: seq<Call>, id: int)
    ensures var s := DoAll(EMPTY, alloc, calls);
            Balances(alloc, calls, id) <==> CmdInfo(id, NULL) !in Of(s.log, {TakenByCancel}, id)
  {
    var log := DoAll(EMPTY, alloc, calls).log;
    var taken := Of(log, {TakenByCancel}, id);
    SuccessfulCancelsBalance(alloc, calls, id);
    FilterEmpty(taken, IsNull());
    FilterMembers(Select(log, {TakenByCancel}), HasId(id));
    assert forall k :: 0 <= k < |taken| ==> taken[k] in taken && HasId(id)(taken[k]);
  }

  /** After any run whose books balance, some further run that registers no NULL, whatever its cancel()
      calls do, unbalances them if and only if an entry of the id with a NULL command is in the table. */
  lemma CancelsUnbalance(alloc: nat, calls: seq<Call>, id: int)
    requires Balances(alloc, calls, id)
    ensures (exists more: seq<Call> ::
               AllRegisterOnlyObjects(more) && !Balances(alloc, calls + more, id)) <==>
            CmdInfo(id, NULL) in DoAll(EMPTY, alloc, calls).table
  {
    var s := DoAll(EMPTY, alloc, calls);
    BalanceByMembership(alloc, calls, id);
    if CmdInfo(id, NULL) in s.table {
      var n := NullCancelled(alloc, calls, id);
      assert AllRegisterOnlyObjects(Cancels(id, n));
    } else {
      forall more: seq<Call> | AllRegisterOnlyObjects(more) ensures Balances(alloc, calls + more, id) {
        DoAllAppend(EMPTY, alloc, calls, more);
        CleanDoAll(s, alloc, more, id);
        BalanceByMembership(alloc, calls + more, id);
      }
    }
  }

  lemma NullCancelled(alloc: nat, calls: seq<Call>, id: int) returns (n: nat)
    requires CmdInfo(id, NULL) in DoAll(EMPTY, alloc, calls).table
    ensures AllRegisterOnlyObjects(Cancels(id, n))
    ensures !Balances(alloc, calls + Cancels(id, n), id)
  {
    var s := DoAll(EMPTY, alloc, calls);
    var q := Filter(s.table, HasId(id));
    FilterMembers(s.table, HasId(id));
    assert CmdInfo(id, NULL) in q;
    var k :| 0 <= k < |q| && q[k] == CmdInfo(id, NULL);
    n := k + 1;
    CancelsRegisterNothing(id, n);
    CancelsReach(s, alloc, id, k);
    DoAllAppend(EMPTY, alloc, calls, Cancels(id, n));
    BalanceByMembership(alloc, calls + Cancels(id, n), id);
  }

  /** Callers that never register NULL get the full balance. */
  lemma ObjectsOnlyBalance(alloc: nat, calls: seq<Call>, id: int)
    requires AllRegisterOnlyObjects(calls)
    ensures Balances(alloc, calls, id)
  {
    CleanDoAll(EMPTY, alloc, calls, id);
    BalanceByMembership(alloc, calls, id);
  }

  /** A concrete run: a NULL command is registered, then cancelled; it is gone and nobody says so. */
  lemma NullCancelExample(id: int)
    ensures var s := DoAll(EMPTY, 64, [Register(id, NULL)]);
            && s.table == [CmdInfo(id, NULL)]
            && CancelReply(s.table, id) == WIFI_ERROR_INVALID_ARGS
            && Do(s, 64, Cancel(id, [])).table == []
  {
    var s := Do(EMPTY, 64, Register(id, NULL));
    assert DoAll(EMPTY, 64, [Register(id, NULL)]) == DoAll(s, 64, []);
  }

  // ---------------------------------------------------------------------------------------------
  // cancel() and releaseRef()
  // ---------------------------------------------------------------------------------------------

  /** Reads a log as nested brackets: a cancel that took an object must call cancel() on it at once,
      and releaseRef() closes the innermost open cancel() and names the same entry. */
  datatype Brackets = Broken | Brackets(open: seq<CmdInfo>, armed: seq<CmdInfo>)

  function Advance(b: Brackets, e: Event): Brackets {
    if b.Broken? then Broken
    else if b.armed != [] then
      if e.kind == CancelCalled && b.armed == [e.entry] then Brackets(b.open + [e.entry], []) else Broken
    else match e.kind
      case TakenByCancel => if e.entry.cmd == NULL then b else Brackets(b.open, [e.entry])
      case CancelCalled => Broken
      case RefReleased =>
        if b.open != [] && b.open[|b.open| - 1] == e.entry then Brackets(b.open[..|b.open| - 1], []) else Broken
      case _ => b
  }

  function Read(log: seq<Event>): Brackets
    decreases |log|
  {
    if log == [] then Brackets([], []) else Advance(Read(log[..|log| - 1]), log[|log| - 1])
  }

  lemma ReadAppend(log: seq<Event>, e: Event)
    ensures Read(log + [e]) == Advance(Read(log), e)
  {
    assert (log + [e])[..|log|] == log;
  }

  lemma {:induction false} BracketsDo(s: State, alloc: nat, c: Call, open: seq<CmdInfo>)
    requires Read(s.log) == Brackets(open, [])
    ensures Read(Do(s, alloc, c).log) == Brackets(open, [])
    decreases c
  {
    match c
    case Register(id, cmd) => ReadAppend(s.log, Event(Added, CmdInfo(id, cmd)));
    case UnregisterId(id) => BracketsTake(s, HasId(id), TakenById);
    case UnregisterPtr(cmd) => BracketsTake(s, HasCmd(cmd), TakenByPtr);
    case Get(_) =>
    case Cancel(id, during) =>
      BracketsTake(s, HasId(id), TakenByCancel);
      var i := FirstIndex(s.table, HasId(id));
      if i < |s.table| && s.table[i].cmd != NULL {
        var e := s.table[i];
        var taken := Take(s, HasId(id), TakenByCancel);
        var inside := Note(taken, CancelCalled, e);
        BracketsOpen(taken, e, open);
        BracketsDoAll(inside, alloc, during, open + [e]);
        BracketsClose(DoAll(inside, alloc, during), e, open);
      }
  }

  lemma BracketsOpen(s: State, e: CmdInfo, open: seq<CmdInfo>)
    requires Read(s.log) == Brackets(open, [e])
    ensures Read(Note(s, CancelCalled, e).log) == Brackets(open + [e], [])
  {
    ReadAppend(s.log, Event(CancelCalled, e));
  }

  lemma BracketsClose(s: State, e: CmdInfo, open: seq<CmdInfo>)
    requires Read(s.log) == Brackets(open + [e], [])
    ensures Read(Release(s, e).log) == Brackets(open, [])
  {
    ReadAppend(s.log, Event(RefReleased, e));
    assert (open + [e])[..|open|] == open;
  }

  lemma {:induction false} BracketsTake(s: State, p: CmdInfo -> bool, kind: Kind)
    requires Read(s.log).Brackets? && Read(s.log).armed == []
    requires kind == TakenById || kind == TakenByPtr || kind == TakenByCancel
    ensures var i := FirstIndex(s.table, p);
            Read(Take(s, p, kind).log) ==
            if i < |s.table| && kind == TakenByCancel && s.table[i].cmd != NULL
            then Brackets(Read(s.log).open, [s.table[i]]) else Read(s.log)
  {
    var i := FirstIndex(s.table, p);
    if i < |s.table| {
      var e := Event(kind, s.table[i]);
      ReadAppend(s.log, e);
      assert Take(s, p, kind).log == s.log + [e];
    }
  }

  lemma {:induction false} BracketsDoAll(s: State, alloc: nat, calls: seq<Call>, open: seq<CmdInfo>)
    requires Read(s.log) == Brackets(open, [])
    ensures Read(DoAll(s, alloc, calls).log) == Brackets(open, [])
    decreases calls
  {
    if calls != [] {
      BracketsDo(s, alloc, calls[0], open);
      BracketsDoAll(Do(s, alloc, calls[0]), alloc, calls[1..], open);
    }
  }

  /** Over every run, each cancel that took an object calls cancel() on it at once, and releaseRef()
      on it exactly once, after everything cancel() did, properly nested; no other call does either. */
  lemma CancelsAreBracketed(alloc: nat, calls: seq<Call>)
    ensures Read(DoAll(EMPTY, alloc, calls).log) == Brackets([], [])
  {
    BracketsDoAll(EMPTY, alloc, calls, []);
  }

  /** One event more: what is released or still open keeps step with what cancel() was called on. */
  lemma OpenAndClosedStep(b: Brackets, e: Event, called: multiset<CmdInfo>, released: multiset<CmdInfo>)
    requires Advance(b, e).Brackets? && called == released + multiset(b.open)
    ensures (if e.kind == CancelCalled then called + multiset{e.entry} else called) ==
            (if e.kind == RefReleased then released + multiset{e.entry} else released) + multiset(Advance(b, e).open)
  {
    if e.kind == RefReleased {
      assert b.open == b.open[..|b.open| - 1] + [e.entry];
    }
  }

  /** In a well-formed log, what cancel() was called on is what was released and what is still open. */
  lemma {:induction false} OpenAndClosed(log: seq<Event>)
    requires Read(log).Brackets?
    ensures multiset(Select(log, {CancelCalled})) ==
            multiset(Select(log, {RefReleased})) + multiset(Read(log).open)
    decreases |log|
  {
    if log != [] {
      var front, e := log[..|log| - 1], log[|log| - 1];
      assert log == front + [e];
      OpenAndClosed(front);
      SelectAppend(front, e, {CancelCalled});
      SelectAppend(front, e, {RefReleased});
      OpenAndClosedStep(Read(front), e, multiset(Select(front, {CancelCalled})),
                        multiset(Select(front, {RefReleased})));
    }
  }

  // ---------------------------------------------------------------------------------------------
  // What wifi_get_cmd promises
  // ---------------------------------------------------------------------------------------------

  /** Get answers with the command the next by-id removal or cancel of that id takes. */
  lemma GetPredictsRemoval(s: State, alloc: nat, id: int)
    ensures var taken := Do(s, alloc, UnregisterId(id));
            if Filter(s.table, HasId(id)) == [] then Oldest(s.table, id) == NULL && taken == s
            else && taken.log == s.log + [Event(TakenById, CmdInfo(id, Oldest(s.table, id)))]
                 && Filter(taken.table, HasId(id)) == Filter(s.table, HasId(id))[1..]
    ensures Take(s, HasId(id), TakenByCancel).table == Do(s, alloc, UnregisterId(id)).table
  {
    FilterRemoved(s.table, HasId(id));
    RemoveFirstAt(s.table, HasId(id));
  }

  /** Entry i left the table, and everything else kept its order. */
  ghost predicate Without(before: seq<CmdInfo>, after: seq<CmdInfo>, i: nat) {
    i < |before| && after == before[..i] + before[i + 1..]
  }

  lemma {:induction false} TakeExact(s: State, p: CmdInfo -> bool, kind: Kind) returns (i: nat)
    ensures i == FirstIndex(s.table, p) <= |s.table| && forall k :: 0 <= k < i ==> !p(s.table[k])
    ensures var s' := Take(s, p, kind);
            if i == |s.table| then s' == s
            else p(s.table[i]) && Without(s.table, s'.table, i) && s'.log == s.log + [Event(kind, s.table[i])]
  {
    i := FirstIndex(s.table, p);
    TakeAt(s, p, kind);
  }

  /** wifi_get_cmd and the removal answer with the oldest command of the id. */
  lemma {:induction false} OldestExact(t: seq<CmdInfo>, id: int, i: nat)
    requires i == FirstIndex(t, HasId(id))
    ensures Oldest(t, id) == if i < |t| then t[i].cmd else NULL
  {
    FilterRemoved(t, HasId(id));
  }

  /** A removal by id takes the oldest entry with that id and answers with its command; without one it
      changes nothing and answers NULL. */
  lemma {:induction false} RemovalById(s: State, alloc: nat, id: int) returns (i: nat)
    ensures i <= |s.table| && forall k :: 0 <= k < i ==> s.table[k].id != id
    ensures var s', answer := Do(s, alloc, UnregisterId(id)), Oldest(s.table, id);
            if i == |s.table| then s' == s && answer == NULL
            else && s.table[i].id == id && Without(s.table, s'.table, i)
                 && s'.log == s.log + [Event(TakenById, s.table[i])] && answer == s.table[i].cmd
  {
    i := TakeExact(s, HasId(id), TakenById);
    OldestExact(s.table, id, i);
    assert forall k :: 0 <= k < i ==> !HasId(id)(s.table[k]);
  }

  /** The pointer overload takes the oldest entry that holds the pointer, if there is one. */
  lemma {:induction false} RemovalByPointer(s: State, alloc: nat, cmd: Address) returns (i: nat)
    ensures i <= |s.table| && forall k :: 0 <= k < i ==> s.table[k].cmd != cmd
    ensures var s' := Do(s, alloc, UnregisterPtr(cmd));
            if i == |s.table| then s' == s
            else && s.table[i].cmd == cmd && Without(s.table, s'.table, i)
                 && s'.log == s.log + [Event(TakenByPtr, s.table[i])]
  {
    i := TakeExact(s, HasCmd(cmd), TakenByPtr);
    assert forall k :: 0 <= k < i ==> !HasCmd(cmd)(s.table[k]);
  }

  /** A registration is the newest entry of the table, if there is room. */
  lemma RegistrationExact(alloc: nat, calls: seq<Call>, id: int, cmd: Address)
    ensures var t := DoAll(EMPTY, alloc, calls).table;
            var t' := DoAll(EMPTY, alloc, calls + [Register(id, cmd)]).table;
            && |t'| <= alloc
            && (if |t| < alloc then |t'| == |t| + 1 && t'[..|t|] == t && t'[|t|].id == id && t'[|t|].cmd == cmd
                else t' == t)
  {
    DoAllAppend(EMPTY, alloc, calls, [Register(id, cmd)]);
    var s := DoAll(EMPTY, alloc, calls);
    assert DoAll(s, alloc, [Register(id, cmd)]) == DoAll(Do(s, alloc, Register(id, cmd)), alloc, []);
    BoundedDoAll(EMPTY, alloc, calls);
  }

  /** The pointer overload takes one entry out of one projection and leaves the others alone. */
  lemma PointerRemoval(s: State, alloc: nat, cmd: Address, id: int)
    ensures var i := FirstIndex(s.table, HasCmd(cmd));
            var before := Filter(s.table, HasId(id));
            var after := Filter(Do(s, alloc, UnregisterPtr(cmd)).table, HasId(id));
            && Subsequence(after, before)
            && (if i < |s.table| && s.table[i].id == id
                then multiset(before) == multiset(after) + multiset{CmdInfo(id, cmd)}
                else after == before)
  {
    FilterSubsequence(s.table, HasCmd(cmd), HasId(id));
    FilterLoses(s.table, HasCmd(cmd), HasId(id));
    SubsequenceRefl(Filter(s.table, HasId(id)));
    RemoveFirstAt(s.table, HasCmd(cmd));
  }

  /** Calls that take nothing out of the projection of id. */
  predicate Quiet(c: Call, id: int)
    decreases c
  {
    match c
    case Register(_, _) => true
    case Get(_) => true
    case UnregisterId(at) => at != id
    case UnregisterPtr(_) => false
    case Cancel(at, during) => at != id && AllQuiet(during, id)
  }

  predicate AllQuiet(calls: seq<Call>, id: int)
    decreases calls
  {
    calls == [] || (Quiet(calls[0], id) && AllQuiet(calls[1..], id))
  }

  /** after is before with some commands added under id at the end of its queue. */
  ghost predicate Extends(before: State, after: State, id: int, added: seq<CmdInfo>) {
    && Filter(after.table, HasId(id)) == Filter(before.table, HasId(id)) + added
    && Of(after.log, {Added}, id) == Of(before.log, {Added}, id) + added
  }

  lemma QuietTake(s: State, at: int, kind: Kind, id: int)
    requires at != id && kind in IN_ORDER
    ensures Extends(s, Take(s, HasId(at), kind), id, [])
  {
    FilterKept(s.table, HasId(at), HasId(id));
    var i := FirstIndex(s.table, HasId(at));
    if i < |s.table| {
      OfAppend(s.log, Event(kind, s.table[i]), {Added}, id);
    }
  }

  lemma ExtendsTrans(s0: State, s1: State, s2: State, id: int, a: seq<CmdInfo>, b: seq<CmdInfo>)
    requires Extends(s0, s1, id, a) && Extends(s1, s2, id, b)
    ensures Extends(s0, s2, id, a + b)
  {
    assert Filter(s0.table, HasId(id)) + a + b == Filter(s0.table, HasId(id)) + (a + b);
    assert Of(s0.log, {Added}, id) + a + b == Of(s0.log, {Added}, id) + (a + b);
  }

  lemma QuietRegister(s: State, alloc: nat, at: int, cmd: Address, id: int)
    ensures Extends(s, Do(s, alloc, Register(at, cmd)), id,
                    if at == id && |s.table| < alloc then [CmdInfo(at, cmd)] else [])
  {
    var e := CmdInfo(at, cmd);
    OfAppend(s.log, Event(Added, e), {Added}, id);
    FilterAppendOne(s.table, e, HasId(id));
  }

  lemma ExtendsNote(s: State, kind: Kind, e: CmdInfo, id: int)
    requires kind != Added
    ensures Extends(s, Note(s, kind, e), id, [])
  {
    OfAppend(s.log, Event(kind, e), {Added}, id);
  }

  lemma {:induction false} QuietDo(s: State, alloc: nat, c: Call, id: int) returns (added: seq<CmdInfo>)
    requires Quiet(c, id)
    ensures Extends(s, Do(s, alloc, c), id, added)
    decreases c, 0
  {
    added := [];
    match c
    case Register(at, cmd) =>
      QuietRegister(s, alloc, at, cmd, id);
      added := if at == id && |s.table| < alloc then [CmdInfo(at, cmd)] else [];
    case Get(_) =>
    case UnregisterId(at) => QuietTake(s, at, TakenById, id);
    case Cancel(at, during) =>
      QuietTake(s, at, TakenByCancel, id);
      var i := FirstIndex(s.table, HasId(at));
      if i < |s.table| && s.table[i].cmd != NULL {
        added := QuietCancel(Take(s, HasId(at), TakenByCancel), s.table[i], alloc, during, id);
      }
  }

  /** From the call of cancel() to the release of the reference. */
  lemma {:induction false} QuietCancel(taken: State, e: CmdInfo, alloc: nat, during: seq<Call>, id: int)
      returns (added: seq<CmdInfo>)
    requires AllQuiet(during, id)
    ensures Extends(taken, Release(DoAll(Note(taken, CancelCalled, e), alloc, during), e), id, added)
    decreases during, 1
  {
    ExtendsNote(taken, CancelCalled, e, id);
    added := QuietDoAll(Note(taken, CancelCalled, e), alloc, during, id);
    ExtendsNote(DoAll(Note(taken, CancelCalled, e), alloc, during), RefReleased, e, id);
  }

  lemma {:induction false} QuietDoAll(s: State, alloc: nat, calls: seq<Call>, id: int) returns (added: seq<CmdInfo>)
    requires AllQuiet(calls, id)
    ensures Extends(s, DoAll(s, alloc, calls), id, added)
    decreases calls, 0
  {
    added := [];
    if calls != [] {
      var first := QuietDo(s, alloc, calls[0], id);
      var rest := QuietDoAll(Do(s, alloc, calls[0]), alloc, calls[1..], id);
      added := first + rest;
      ExtendsTrans(s, Do(s, alloc, calls[0]), DoAll(s, alloc, calls), id, first, rest);
    }
  }

  /** The answer of Get survives any run of by-id operations on other ids and any registrations if,
      and only if, the id had an entry, or none was added under it, or the first one added is NULL. */
  lemma GetStable(s: State, alloc: nat, calls: seq<Call>, id: int)
    requires AllQuiet(calls, id)
    ensures var s' := DoAll(s, alloc, calls);
            var n := |Of(s.log, {Added}, id)|;
            var added := Of(s'.log, {Added}, id);
            && n <= |added|
            && (Oldest(s'.table, id) == Oldest(s.table, id) <==>
                  || Filter(s.table, HasId(id)) != []
                  || |added| == n
                  || added[n].cmd == NULL)
  {
    var added := QuietDoAll(s, alloc, calls, id);
  }

  /** A concrete run: the answer for an id without an entry changes when a command is registered. */
  lemma GetChangedExample(id: int, cmd: Address)
    requires cmd != NULL
    ensures Oldest(EMPTY.table, id) == NULL
    ensures Oldest(DoAll(EMPTY, 64, [Register(id, cmd)]).table, id) == cmd
  {
    var s := Do(EMPTY, 64, Register(id, cmd));
    assert DoAll(EMPTY, 64, [Register(id, cmd)]) == DoAll(s, 64, []);
    assert Filter(s.table, HasId(id)) == [CmdInfo(id, cmd)];
  }

  /** The count never passes the capacity. */
  lemma {:induction false} BoundedDo(s: State, alloc: nat, c: Call)
    requires |s.table| <= alloc
    ensures |Do(s, alloc, c).table| <= alloc
    decreases c
  {
    match c
    case Cancel(id, during) =>
      var i := FirstIndex(s.table, HasId(id));
      if i < |s.table| {
        BoundedDoAll(Note(Take(s, HasId(id), TakenByCancel), CancelCalled, s.table[i]), alloc, during);
      }
    case _ =>
  }

  lemma {:induction false} BoundedDoAll(s: State, alloc: nat, calls: seq<Call>)
    requires |s.table| <= alloc
    ensures |DoAll(s, alloc, calls).table| <= alloc
    decreases calls
  {
    if calls != [] {
      BoundedDo(s, alloc, calls[0]);
      BoundedDoAll(Do(s, alloc, calls[0]), alloc, calls[1..]);
    }
  }
}
