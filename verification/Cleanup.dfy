/** The loop of wifi_cleanup that cancels what is left in the command table
    (mtk/hal/libwifi-hal-mt66xx/wifi_hal.cpp:374-400). What the n-th cancel() does to the table is the
    n-th element of an arbitrary family of call sequences. */
module Cleanup {
  import opened Lists
  import opened WifiTypes
  import C = CommandTable

  /** bad counts the commands whose cancel() did not change the number of commands. */
  datatype State = State(commands: C.State, bad: nat)

  predicate Finished(s: State) { |s.commands.table| <= s.bad }

  /** The command in turn is NULL: the loop body does nothing, and cb_lock stays held. */
  predicate Stuck(s: State) { !Finished(s) && s.commands.table[s.bad].cmd == NULL }

  /** One turn of the loop. */
  function Turn(s: State, alloc: nat, during: seq<C.Call>): State {
    if Finished(s) || Stuck(s) then s
    else
      var e := s.commands.table[s.bad];
      var after := C.DoAll(C.Note(s.commands, C.CancelCalled, e), alloc, during);
      State(C.Release(after, e), if |after.table| == |s.commands.table| then s.bad + 1 else s.bad)
  }

  function After(s: State, alloc: nat, during: nat -> seq<C.Call>, n: nat): State
    decreases n
  {
    if n == 0 then s else Turn(After(s, alloc, during, n - 1), alloc, during(n - 1))
  }

  ghost predicate Terminates(s: State, alloc: nat, during: nat -> seq<C.Call>) {
    exists n: nat :: Finished(After(s, alloc, during, n))
  }

  lemma {:induction false} FinishedOrStuckStays(s: State, alloc: nat, during: nat -> seq<C.Call>, n: nat, m: nat)
    requires n <= m
    requires Finished(After(s, alloc, during, n)) || Stuck(After(s, alloc, during, n))
    ensures After(s, alloc, during, m) == After(s, alloc, during, n)
    decreases m
  {
    if n < m {
      FinishedOrStuckStays(s, alloc, during, n, m - 1);
    }
  }

  // ---------------------------------------------------------------------------------------------
  // What the loop calls
  // ---------------------------------------------------------------------------------------------

  /** A turn that is neither finished nor stuck calls cancel() on the command in turn, lets it do what it
      does, properly nested, and releases that same command; the loop goes on to the next place exactly if
      the number of commands is what it was. Any other turn does nothing. */
  lemma TurnExact(s: State, alloc: nat, during: nat -> seq<C.Call>, n: nat)
    ensures var now, next := After(s, alloc, during, n), After(s, alloc, during, n + 1);
            var t := now.commands.table;
            if |t| <= now.bad || t[now.bad].cmd == NULL then next == now
            else
              var e, done := t[now.bad], C.DoAll(C.State(t, []), alloc, during(n));
              && next.commands.table == done.table
              && next.commands.log ==
                 now.commands.log + [C.Event(C.CancelCalled, e)] + done.log + [C.Event(C.RefReleased, e)]
              && C.Read(done.log) == C.Brackets([], [])
              && next.bad == if |done.table| == |t| then now.bad + 1 else now.bad
  {
    var now := After(s, alloc, during, n);
    if !Finished(now) && !Stuck(now) {
      var t, e := now.commands.table, now.commands.table[now.bad];
      C.AllGained(C.Note(now.commands, C.CancelCalled, e), alloc, during(n));
      C.BracketsDoAll(C.State(t, []), alloc, during(n), []);
    }
  }

  /** cancel() and releaseRef() were called on the same commands, equally often. */
  ghost predicate Even(log: seq<C.Event>) {
    multiset(C.Select(log, {C.CancelCalled})) == multiset(C.Select(log, {C.RefReleased}))
  }

  lemma {:induction false} SelectTurn(log: seq<C.Event>, inner: seq<C.Event>, e: C.CmdInfo, kinds: set<C.Kind>)
    ensures C.Select(log + [C.Event(C.CancelCalled, e)] + inner + [C.Event(C.RefReleased, e)], kinds) ==
            C.Select(log, kinds) + (if C.CancelCalled in kinds then [e] else []) + C.Select(inner, kinds) +
            (if C.RefReleased in kinds then [e] else [])
  {
    var called := log + [C.Event(C.CancelCalled, e)];
    C.SelectAppend(log, C.Event(C.CancelCalled, e), kinds);
    C.SelectConcat(called, inner, kinds);
    C.SelectAppend(called + inner, C.Event(C.RefReleased, e), kinds);
  }

  lemma {:induction false} EvenTurn(log: seq<C.Event>, inner: seq<C.Event>, e: C.CmdInfo)
    requires Even(log) && C.Read(inner) == C.Brackets([], [])
    ensures Even(log + [C.Event(C.CancelCalled, e)] + inner + [C.Event(C.RefReleased, e)])
  {
    SelectTurn(log, inner, e, {C.CancelCalled});
    SelectTurn(log, inner, e, {C.RefReleased});
    C.OpenAndClosed(inner);
  }

  lemma {:induction false} EvenStep(s: State, alloc: nat, during: nat -> seq<C.Call>, n: nat)
    requires Even(After(s, alloc, during, n).commands.log)
    ensures Even(After(s, alloc, during, n + 1).commands.log)
  {
    var now := After(s, alloc, during, n);
    TurnExact(s, alloc, during, n);
    if !Finished(now) && !Stuck(now) {
      var done := C.DoAll(C.State(now.commands.table, []), alloc, during(n));
      EvenTurn(now.commands.log, done.log, now.commands.table[now.bad]);
    }
  }

  /** However many turns the loop makes, from a table whose log is even: each command on which it, or a
      cancel() inside, calls cancel() is released exactly as often. */
  lemma {:induction false} ReleasedOnceEach(s: State, alloc: nat, during: nat -> seq<C.Call>, n: nat)
    requires Even(s.commands.log)
    ensures Even(After(s, alloc, during, n).commands.log)
    decreases n
  {
    if n > 0 {
      ReleasedOnceEach(s, alloc, during, n - 1);
      EvenStep(s, alloc, during, n - 1);
    }
  }

  // ---------------------------------------------------------------------------------------------
  // cancel() may remove anything, to any depth, but registers nothing
  // ---------------------------------------------------------------------------------------------

  predicate AddsNothing(c: C.Call)
    decreases c
  {
    match c
    case Register(_, _) => false
    case Cancel(_, during) => AllAddNothing(during)
    case _ => true
  }

  predicate AllAddNothing(calls: seq<C.Call>)
    decreases calls
  {
    calls == [] || (AddsNothing(calls[0]) && AllAddNothing(calls[1..]))
  }

  ghost predicate NeverAdds(during: nat -> seq<C.Call>) {
    forall k: nat :: AllAddNothing(during(k))
  }

  lemma {:induction false} DoShrinks(s: C.State, alloc: nat, c: C.Call)
    requires AddsNothing(c)
    ensures |C.Do(s, alloc, c).table| <= |s.table|
    decreases c
  {
    match c
    case Cancel(id, during) =>
      var i := FirstIndex(s.table, C.HasId(id));
      if i < |s.table| {
        DoAllShrinks(C.Note(C.Take(s, C.HasId(id), C.TakenByCancel), C.CancelCalled, s.table[i]), alloc, during);
      }
    case _ =>
  }

  lemma {:induction false} DoAllShrinks(s: C.State, alloc: nat, calls: seq<C.Call>)
    requires AllAddNothing(calls)
    ensures |C.DoAll(s, alloc, calls).table| <= |s.table|
    decreases calls
  {
    if calls != [] {
      DoShrinks(s, alloc, calls[0]);
      DoAllShrinks(C.Do(s, alloc, calls[0]), alloc, calls[1..]);
    }
  }

  /** Every turn that does something brings the end closer. */
  lemma {:induction false} Progress(s: State, alloc: nat, during: nat -> seq<C.Call>, n: nat)
    requires NeverAdds(during)
    requires forall k :: 0 <= k < n ==> !Stuck(After(s, alloc, during, k))
    requires !Finished(After(s, alloc, during, n))
    ensures var now := After(s, alloc, during, n);
            |now.commands.table| - now.bad <= |s.commands.table| - s.bad - n
    decreases n
  {
    if n > 0 {
      var before := After(s, alloc, during, n - 1);
      if !Finished(before) {
        Progress(s, alloc, during, n - 1);
        DoAllShrinks(C.Note(before.commands, C.CancelCalled, before.commands.table[before.bad]), alloc, during(n - 1));
      }
    }
  }

  lemma FinishedNeverStuck(s: State, alloc: nat, during: nat -> seq<C.Call>, n: nat, k: nat)
    requires Finished(After(s, alloc, during, n))
    ensures !Stuck(After(s, alloc, during, k))
  {
    if n <= k {
      FinishedOrStuckStays(s, alloc, during, n, k);
    } else if Stuck(After(s, alloc, during, k)) {
      FinishedOrStuckStays(s, alloc, during, k, n);
    }
  }

  ghost predicate NeverStuck(s: State, alloc: nat, during: nat -> seq<C.Call>) {
    forall n: nat :: !Stuck(After(s, alloc, during, n))
  }

  /** When no cancel() registers a command, the loop ends if and only if no NULL command ever comes in
      turn, and then within as many turns as there were commands. */
  lemma TerminatesExactly(s: State, alloc: nat, during: nat -> seq<C.Call>)
    requires s.bad == 0 && NeverAdds(during)
    ensures Terminates(s, alloc, during) <==> NeverStuck(s, alloc, during)
    ensures Terminates(s, alloc, during) <==> Finished(After(s, alloc, during, |s.commands.table|))
  {
    var last := |s.commands.table|;
    if Terminates(s, alloc, during) {
      var n: nat :| Finished(After(s, alloc, during, n));
      forall k: nat ensures !Stuck(After(s, alloc, during, k)) {
        FinishedNeverStuck(s, alloc, during, n, k);
      }
    }
    if NeverStuck(s, alloc, during) && !Finished(After(s, alloc, during, last)) {
      Progress(s, alloc, during, last);
    }
  }

  // ---------------------------------------------------------------------------------------------
  // cancel() unregisters its own entry, or nothing
  // ---------------------------------------------------------------------------------------------

  /** Each turn leaves the table as it was, or without the entry in turn. */
  ghost predicate OwnEntryOnly(s: State, alloc: nat, during: nat -> seq<C.Call>) {
    forall n: nat ::
      var now, next := After(s, alloc, during, n), After(s, alloc, during, n + 1);
      !Finished(now) ==>
        || next.commands.table == now.commands.table
        || next.commands.table == WithoutIndex(now.commands.table, now.bad)
  }

  /** Up to the first NULL command, n turns deal with the first n commands in order. */
  lemma {:induction false} InTurn(s: State, alloc: nat, during: nat -> seq<C.Call>, n: nat)
    requires s.bad == 0 && OwnEntryOnly(s, alloc, during)
    requires n <= |s.commands.table| && forall k :: 0 <= k < n ==> s.commands.table[k].cmd != NULL
    ensures var now := After(s, alloc, during, n);
            && now.bad <= |now.commands.table|
            && now.commands.table[now.bad..] == s.commands.table[n..]
    decreases n
  {
    if n > 0 {
      InTurn(s, alloc, during, n - 1);
      var before, now := After(s, alloc, during, n - 1), After(s, alloc, during, n);
      assert before.commands.table[before.bad] == before.commands.table[before.bad..][0] == s.commands.table[n - 1];
      assert now == After(s, alloc, during, n - 1 + 1);
      assert s.commands.table[n..] == s.commands.table[n - 1..][1..];
      if now.commands.table == before.commands.table {
        assert now.commands.table[now.bad..] == before.commands.table[before.bad..][1..];
      } else {
        var left := WithoutIndex(before.commands.table, before.bad);
        assert left[before.bad..] == before.commands.table[before.bad..][1..];
      }
    }
  }

  /** For commands whose cancel() at most unregisters themselves, cleanup ends if and only if no command
      in the table is NULL. */
  lemma OwnEntryExact(s: State, alloc: nat, during: nat -> seq<C.Call>)
    requires s.bad == 0 && OwnEntryOnly(s, alloc, during)
    ensures Terminates(s, alloc, during) <==>
            forall k :: 0 <= k < |s.commands.table| ==> s.commands.table[k].cmd != NULL
  {
    var i := FirstIndex(s.commands.table, C.IsNull());
    assert forall k :: 0 <= k < i ==> !C.IsNull()(s.commands.table[k]);
    InTurn(s, alloc, during, i);
    var now := After(s, alloc, during, i);
    if i < |s.commands.table| {
      assert now.commands.table[now.bad] == now.commands.table[now.bad..][0] == s.commands.table[i];
      assert Stuck(now);
      if Terminates(s, alloc, during) {
        var n: nat :| Finished(After(s, alloc, during, n));
        FinishedNeverStuck(s, alloc, during, n, i);
      }
    } else {
      assert Finished(now);
    }
  }

  // ---------------------------------------------------------------------------------------------
  // Read off the table at the call
  // ---------------------------------------------------------------------------------------------

  predicate AllObjects(t: seq<C.CmdInfo>) {
    forall k :: 0 <= k < |t| ==> t[k].cmd != NULL
  }

  lemma {:induction false} DoKeepsObjects(s: C.State, alloc: nat, c: C.Call)
    requires AllObjects(s.table) && AddsNothing(c)
    ensures AllObjects(C.Do(s, alloc, c).table)
    decreases c
  {
    match c
    case UnregisterId(id) => C.TakeAt(s, C.HasId(id), C.TakenById);
    case UnregisterPtr(cmd) => C.TakeAt(s, C.HasCmd(cmd), C.TakenByPtr);
    case Get(_) =>
    case Cancel(id, during) =>
      C.TakeAt(s, C.HasId(id), C.TakenByCancel);
      var i := FirstIndex(s.table, C.HasId(id));
      if i < |s.table| {
        var taken := C.Take(s, C.HasId(id), C.TakenByCancel);
        DoAllKeepsObjects(C.Note(taken, C.CancelCalled, s.table[i]), alloc, during);
      }
  }

  lemma {:induction false} DoAllKeepsObjects(s: C.State, alloc: nat, calls: seq<C.Call>)
    requires AllObjects(s.table) && AllAddNothing(calls)
    ensures AllObjects(C.DoAll(s, alloc, calls).table)
    decreases calls
  {
    if calls != [] {
      DoKeepsObjects(s, alloc, calls[0]);
      DoAllKeepsObjects(C.Do(s, alloc, calls[0]), alloc, calls[1..]);
    }
  }

  lemma {:induction false} ObjectsThroughout(s: State, alloc: nat, during: nat -> seq<C.Call>, n: nat)
    requires AllObjects(s.commands.table) && NeverAdds(during)
    ensures AllObjects(After(s, alloc, during, n).commands.table)
    decreases n
  {
    if n > 0 {
      ObjectsThroughout(s, alloc, during, n - 1);
      var before := After(s, alloc, during, n - 1);
      if !Finished(before) {
        DoAllKeepsObjects(C.Note(before.commands, C.CancelCalled, before.commands.table[before.bad]), alloc,
                          during(n - 1));
      }
    }
  }

  function Idle(): nat -> seq<C.Call> { n => [] }

  /** Cleanup ends for every behaviour of cancel() that registers nothing, if and only if no command in
      the table is NULL when it is called. */
  lemma EndsWhateverCancelRemoves(s: State, alloc: nat)
    requires s.bad == 0
    ensures (forall during: nat -> seq<C.Call> :: NeverAdds(during) ==> Terminates(s, alloc, during)) <==>
            AllObjects(s.commands.table)
  {
    if AllObjects(s.commands.table) {
      forall during: nat -> seq<C.Call> | NeverAdds(during) ensures Terminates(s, alloc, during) {
        forall n: nat ensures !Stuck(After(s, alloc, during, n)) {
          ObjectsThroughout(s, alloc, during, n);
        }
        TerminatesExactly(s, alloc, during);
      }
    } else {
      IdleOwnsEntry(s, alloc);
      OwnEntryExact(s, alloc, Idle());
      assert NeverAdds(Idle());
    }
  }

  lemma IdleOwnsEntry(s: State, alloc: nat)
    ensures OwnEntryOnly(s, alloc, Idle())
  {
    forall n: nat ensures After(s, alloc, Idle(), n + 1).commands.table == After(s, alloc, Idle(), n).commands.table {
      assert Idle()(n) == [];
    }
  }

  /** A concrete table on which the loop spins: the second command is NULL and stays in turn. */
  lemma SpinsExample(n: nat)
    ensures var s := State(C.State([C.CmdInfo(1, 10), C.CmdInfo(2, NULL)], []), 0);
            n > 0 ==> Stuck(After(s, 64, Idle(), n)) && After(s, 64, Idle(), n) == After(s, 64, Idle(), 1)
  {
    if n > 0 {
      var s := State(C.State([C.CmdInfo(1, 10), C.CmdInfo(2, NULL)], []), 0);
      assert After(s, 64, Idle(), 0) == s && Idle()(0) == [];
      assert After(s, 64, Idle(), 1).bad == 1;
      FinishedOrStuckStays(s, 64, Idle(), 1, n);
    }
  }

  // ---------------------------------------------------------------------------------------------
  // cancel() that registers
  // ---------------------------------------------------------------------------------------------

  /** One cancel() removes the other command, the next puts it back, and so on. */
  function Alternating(id: int, cmd: Address): nat -> seq<C.Call> {
    n => if n % 2 == 0 then [C.UnregisterId(id)] else [C.Register(id, cmd)]
  }

  /** Without the condition on cancel(), the loop need not end although it is never stuck. */
  lemma {:induction false} RegisteringForever(n: nat)
    ensures var s := State(C.State([C.CmdInfo(1, 10), C.CmdInfo(2, 20)], []), 0);
            var now := After(s, 64, Alternating(2, 20), n);
            && !Finished(now) && !Stuck(now) && now.bad == 0
            && now.commands.table == if n % 2 == 0 then [C.CmdInfo(1, 10), C.CmdInfo(2, 20)] else [C.CmdInfo(1, 10)]
    decreases n
  {
    if n > 0 {
      RegisteringForever(n - 1);
      var s := State(C.State([C.CmdInfo(1, 10), C.CmdInfo(2, 20)], []), 0);
      var before := After(s, 64, Alternating(2, 20), n - 1);
      if n % 2 == 1 {
        TurnRemoves(before);
      } else {
        TurnPutsBack(before);
      }
    }
  }

  lemma TurnRemoves(s: State)
    requires s.bad == 0 && s.commands.table == [C.CmdInfo(1, 10), C.CmdInfo(2, 20)]
    ensures var s' := Turn(s, 64, [C.UnregisterId(2)]);
            s'.bad == 0 && s'.commands.table == [C.CmdInfo(1, 10)]
  {
    var inside := C.Note(s.commands, C.CancelCalled, C.CmdInfo(1, 10));
    FirstIndexUnique(inside.table, C.HasId(2), 1);
    C.TakeAt(inside, C.HasId(2), C.TakenById);
    assert WithoutIndex(inside.table, 1) == [C.CmdInfo(1, 10)];
    OneCall(inside, C.UnregisterId(2));
  }

  lemma TurnPutsBack(s: State)
    requires s.bad == 0 && s.commands.table == [C.CmdInfo(1, 10)]
    ensures var s' := Turn(s, 64, [C.Register(2, 20)]);
            s'.bad == 0 && s'.commands.table == [C.CmdInfo(1, 10), C.CmdInfo(2, 20)]
  {
    OneCall(C.Note(s.commands, C.CancelCalled, C.CmdInfo(1, 10)), C.Register(2, 20));
  }

  lemma OneCall(s: C.State, c: C.Call)
    ensures C.DoAll(s, 64, [c]) == C.Do(s, 64, c)
  {
    assert C.DoAll(s, 64, [c]) == C.DoAll(C.Do(s, 64, c), 64, []);
  }
}
