/** The two registries as the HAL keeps them: bounded arrays updated in place
    (mtk/hal/libwifi-hal-mt66xx/common.h:157-196, common.cpp:52-244). Every method is proved against
    the list operations of EventTable and CommandTable. */
module HalInfoModel {
  import opened Lists
  import opened WifiTypes
  import E = EventTable
  import C = CommandTable
  import L = Cleanup

  /** Moves the entries after slot i down by one slot, one after the other. */
  method MoveTailDown<T>(a: array<T>, i: int, count: int)
    requires 0 <= i < count <= a.Length
    modifies a
    ensures a[..count - 1] == WithoutIndex(old(a[..count]), i)
    ensures a[count - 1..] == old(a[count - 1..])
  {
    var j := i;
    while j + 1 < count
      invariant i <= j < count
      invariant a[..i] == old(a[..i])
      invariant forall k :: i <= k < j ==> a[k] == old(a[k + 1])
      invariant a[j..] == old(a[j..])
    {
      assert a[j + 1] == a[j..][1] == old(a[j + 1]);
      a[j] := a[j + 1];
      assert a[j + 1..] == old(a[j..])[1..];
      j := j + 1;
    }
  }

  class HalInfo {
    const eventCb: array<E.CbInfo>
    const allocEventCb: int
    var numEventCb: int
    var cbLocked: bool
    const cmd: array<C.CmdInfo>
    const allocCmd: int
    var numCmd: int
    ghost var log: seq<C.Event>   // what happened to the commands so far

    /** Holds between calls; in particular no call is left holding cb_lock. */
    ghost predicate Valid()
      reads this
    {
      && !cbLocked
      && allocEventCb == eventCb.Length && 0 <= numEventCb <= allocEventCb
      && allocCmd == cmd.Length && 0 <= numCmd <= allocCmd
    }

    ghost function Events(): seq<E.CbInfo>
      requires 0 <= numEventCb <= eventCb.Length
      reads this, eventCb
    {
      eventCb[..numEventCb]
    }

    ghost function Commands(): C.State
      requires 0 <= numCmd <= cmd.Length
      reads this, cmd
    {
      C.State(cmd[..numCmd], log)
    }

    /** The part of wifi_initialize that builds the tables. */
    constructor ()
      ensures Valid() && fresh(eventCb) && fresh(cmd)
      ensures allocEventCb == 64 && allocCmd == 64
      ensures Events() == E.Run(64, []) && Commands() == C.EMPTY
    {
      eventCb := new E.CbInfo[64];
      allocEventCb := 64;
      numEventCb := 0;
      cmd := new C.CmdInfo[64];
      allocCmd := 64;
      numCmd := 0;
      cbLocked := false;
      log := [];
    }

    method Lock()
      requires !cbLocked
      modifies this`cbLocked
      ensures cbLocked
    {
      cbLocked := true;
    }

    method Unlock()
      requires cbLocked
      modifies this`cbLocked
      ensures !cbLocked
    {
      cbLocked := false;
    }

    method WifiRegisterHandler(nlCmd: int, func: Address, arg: Address) returns (result: WifiError)
      requires Valid()
      modifies this`numEventCb, this`cbLocked, eventCb
      ensures Valid()
      ensures E.Outcome(Events(), E.Status(result)) ==
              E.Apply(old(Events()), allocEventCb, E.Register(nlCmd, func, arg))
    {
      Lock();
      result := WIFI_ERROR_OUT_OF_MEMORY;
      if numEventCb < allocEventCb {
        eventCb[numEventCb] := eventCb[numEventCb].(nlCmd := nlCmd);
        eventCb[numEventCb] := eventCb[numEventCb].(vendorId := 0);
        eventCb[numEventCb] := eventCb[numEventCb].(vendorSubcmd := 0);
        eventCb[numEventCb] := eventCb[numEventCb].(cbFunc := func);
        eventCb[numEventCb] := eventCb[numEventCb].(cbArg := arg);
        assert eventCb[..numEventCb] == old(Events());
        numEventCb := numEventCb + 1;
        result := WIFI_SUCCESS;
      }
      Unlock();
    }

    method WifiRegisterVendorHandler(id: int, subcmd: int, func: Address, arg: Address) returns (result: WifiError)
      requires Valid()
      modifies this`numEventCb, this`cbLocked, eventCb
      ensures Valid()
      ensures E.Outcome(Events(), E.Status(result)) ==
              E.Apply(old(Events()), allocEventCb, E.RegisterVendor(id, subcmd, func, arg))
    {
      Lock();
      result := WIFI_ERROR_OUT_OF_MEMORY;
      if numEventCb < allocEventCb {
        eventCb[numEventCb] := eventCb[numEventCb].(nlCmd := E.NL80211_CMD_VENDOR);
        eventCb[numEventCb] := eventCb[numEventCb].(vendorId := id);
        eventCb[numEventCb] := eventCb[numEventCb].(vendorSubcmd := subcmd);
        eventCb[numEventCb] := eventCb[numEventCb].(cbFunc := func);
        eventCb[numEventCb] := eventCb[numEventCb].(cbArg := arg);
        assert eventCb[..numEventCb] == old(Events());
        numEventCb := numEventCb + 1;
        result := WIFI_SUCCESS;
      }
      Unlock();
    }

    /** The memmove and decrement of a removal whose scan stopped at i. */
    method RemoveEvent(i: int, ghost c: E.Call)
      requires 0 <= i < numEventCb <= eventCb.Length && E.Matches(c, eventCb[i])
      requires forall k :: 0 <= k < i ==> !E.Matches(c, eventCb[k])
      modifies this`numEventCb, eventCb
      ensures numEventCb == old(numEventCb) - 1
      ensures Events() == RemoveFirst(old(Events()), E.Matching(c))
    {
      E.RemovalAt(Events(), c, i);
      MoveTailDown(eventCb, i, numEventCb);
      numEventCb := numEventCb - 1;
    }

    method WifiUnregisterHandler(nlCmd: int)
      requires Valid()
      modifies this`numEventCb, this`cbLocked, eventCb
      ensures Valid()
      ensures Events() == E.Apply(old(Events()), allocEventCb, E.Unregister(nlCmd)).table
    {
      if nlCmd == E.NL80211_CMD_VENDOR {
        return;
      }
      ghost var t, c := Events(), E.Unregister(nlCmd);
      Lock();
      var i := 0;
      while i < numEventCb
        invariant 0 <= i <= numEventCb <= eventCb.Length && Events() == t
        invariant forall k :: 0 <= k < i ==> !E.Matches(c, t[k])
      {
        if eventCb[i].nlCmd == nlCmd {
          RemoveEvent(i, c);
          Unlock();
          return;
        }
        i := i + 1;
      }
      E.RemovalAt(t, c, i);
      Unlock();
    }

    method WifiUnregisterVendorHandler(id: int, subcmd: int)
      requires Valid()
      modifies this`numEventCb, this`cbLocked, eventCb
      ensures Valid()
      ensures Events() == E.Apply(old(Events()), allocEventCb, E.UnregisterVendor(id, subcmd)).table
    {
      ghost var t, c := Events(), E.UnregisterVendor(id, subcmd);
      Lock();
      var i := 0;
      while i < numEventCb
        invariant 0 <= i <= numEventCb <= eventCb.Length && Events() == t
        invariant forall k :: 0 <= k < i ==> !E.Matches(c, t[k])
      {
        if eventCb[i].nlCmd == E.NL80211_CMD_VENDOR && eventCb[i].vendorId == id && eventCb[i].vendorSubcmd == subcmd {
          RemoveEvent(i, c);
          Unlock();
          return;
        }
        i := i + 1;
      }
      E.RemovalAt(t, c, i);
      Unlock();
    }

    /** The scan of internal_valid_message_handler for an event already parsed: the handler that will
        be called once the lock is released. */
    method FindHandler(nlCmd: int, id: int, subcmd: int) returns (reply: E.Reply)
      requires Valid()
      modifies this`cbLocked
      ensures Valid()
      ensures E.Outcome(Events(), reply) == E.Apply(old(Events()), allocEventCb, E.Dispatch(nlCmd, id, subcmd))
    {
      ghost var t, p := Events(), E.Matching(E.Dispatch(nlCmd, id, subcmd));
      Lock();
      reply := E.NoHandler;
      var i := 0;
      while i < numEventCb
        invariant 0 <= i <= numEventCb == |t|
        invariant forall k :: 0 <= k < i ==> !p(t[k])
        invariant reply == E.NoHandler
      {
        if nlCmd == eventCb[i].nlCmd {
          if !(nlCmd == E.NL80211_CMD_VENDOR && (id != eventCb[i].vendorId || subcmd != eventCb[i].vendorSubcmd)) {
            reply := E.Found(eventCb[i].cbFunc, eventCb[i].cbArg);
            break;
          }
        }
        i := i + 1;
      }
      FirstIndexUnique(t, p, i);
      Unlock();
    }

    method WifiRegisterCmd(id: int, c: Address) returns (result: WifiError)
      requires Valid()
      modifies this`numCmd, this`log, cmd
      ensures Valid()
      ensures Commands() == C.Do(old(Commands()), allocCmd, C.Register(id, c))
      ensures result == if old(numCmd) < allocCmd then WIFI_SUCCESS else WIFI_ERROR_OUT_OF_MEMORY
    {
      result := WIFI_ERROR_OUT_OF_MEMORY;
      if numCmd < allocCmd {
        cmd[numCmd] := cmd[numCmd].(id := id);
        cmd[numCmd] := cmd[numCmd].(cmd := c);
        assert cmd[..numCmd] == old(cmd[..numCmd]);
        log := log + [C.Event(C.Added, cmd[numCmd])];
        numCmd := numCmd + 1;
        result := WIFI_SUCCESS;
      }
    }

    /** The memmove and decrement of a removal whose scan stopped at i. */
    method RemoveCmd(i: int, ghost p: C.CmdInfo -> bool, ghost kind: C.Kind)
      requires Valid() && 0 <= i < numCmd && FirstIndex(cmd[..numCmd], p) == i
      modifies this`numCmd, this`log, cmd
      ensures Valid()
      ensures Commands() == C.Take(old(Commands()), p, kind)
    {
      ghost var s := Commands();
      C.TakeAt(s, p, kind);
      MoveTailDown(cmd, i, numCmd);
      numCmd := numCmd - 1;
      log := log + [C.Event(kind, s.table[i])];
    }

    /** The scan and removal shared by wifi_unregister_cmd(handle, id) and its use in wifi_cancel_cmd;
        kind is how the log names it. */
    method WifiUnregisterCmd(id: int, ghost kind: C.Kind := C.TakenById) returns (c: Address)
      requires Valid()
      modifies this`numCmd, this`log, cmd
      ensures Valid()
      ensures Commands() == C.Take(old(Commands()), C.HasId(id), kind)
      ensures c == C.Oldest(old(Commands()).table, id)
    {
      ghost var s, p := Commands(), C.HasId(id);
      FilterRemoved(s.table, p);
      c := NULL;
      var i := 0;
      while i < numCmd
        invariant Valid() && 0 <= i <= numCmd
        invariant Commands() == s && c == NULL
        invariant forall k :: 0 <= k < i ==> !p(s.table[k])
      {
        if cmd[i].id == id {
          FirstIndexUnique(s.table, p, i);
          c := cmd[i].cmd;
          RemoveCmd(i, p, kind);
          return;
        }
        i := i + 1;
      }
      FirstIndexUnique(s.table, p, i);
    }

    method WifiGetCmd(id: int) returns (c: Address)
      requires Valid()
      ensures c == C.Oldest(Commands().table, id)
    {
      ghost var t, p := Commands().table, C.HasId(id);
      c := NULL;
      var i := 0;
      while i < numCmd
        invariant 0 <= i <= numCmd == |t|
        invariant forall k :: 0 <= k < i ==> !p(t[k])
        invariant c == NULL
      {
        if cmd[i].id == id {
          c := cmd[i].cmd;
          break;
        }
        i := i + 1;
      }
      FirstIndexUnique(t, p, i);
      FilterRemoved(t, p);
    }

    method WifiUnregisterCmdPtr(c: Address)
      requires Valid()
      modifies this`numCmd, this`log, cmd
      ensures Valid()
      ensures Commands() == C.Do(old(Commands()), allocCmd, C.UnregisterPtr(c))
    {
      ghost var s, p := Commands(), C.HasCmd(c);
      var i := 0;
      while i < numCmd
        invariant Valid() && 0 <= i <= numCmd
        invariant Commands() == s
        invariant forall k :: 0 <= k < i ==> !p(s.table[k])
      {
        if cmd[i].cmd == c {
          FirstIndexUnique(s.table, p, i);
          RemoveCmd(i, p, C.TakenByPtr);
          return;
        }
        i := i + 1;
      }
      FirstIndexUnique(s.table, p, i);
    }

    /** during is what the command's cancel() does to the table before it returns. */
    method WifiCancelCmd(id: int, during: seq<C.Call>) returns (result: WifiError)
      requires Valid()
      modifies this`numCmd, this`log, cmd
      ensures Valid()
      ensures Commands() == C.Do(old(Commands()), allocCmd, C.Cancel(id, during))
      ensures result == C.CancelReply(old(Commands()).table, id)
      decreases during, 1
    {
      ghost var t := Commands().table;
      FilterRemoved(t, C.HasId(id));
      var c := WifiUnregisterCmd(id, C.TakenByCancel);
      if c != NULL {
        ghost var e := t[FirstIndex(t, C.HasId(id))];
        log := log + [C.Event(C.CancelCalled, e)];
        PerformAll(during);
        log := log + [C.Event(C.RefReleased, e)];
        return WIFI_SUCCESS;
      }
      return WIFI_ERROR_INVALID_ARGS;
    }

    /** One call made from inside a command's cancel(). */
    method Perform(c: C.Call)
      requires Valid()
      modifies this`numCmd, this`log, cmd
      ensures Valid()
      ensures Commands() == C.Do(old(Commands()), allocCmd, c)
      decreases c, 0
    {
      match c
      case Register(id, cmd) => var _ := WifiRegisterCmd(id, cmd);
      case UnregisterId(id) => var _ := WifiUnregisterCmd(id);
      case UnregisterPtr(cmd) => WifiUnregisterCmdPtr(cmd);
      case Get(id) => var _ := WifiGetCmd(id);
      case Cancel(id, during) => var _ := WifiCancelCmd(id, during);
    }

    method PerformAll(calls: seq<C.Call>)
      requires Valid()
      modifies this`numCmd, this`log, cmd
      ensures Valid()
      ensures Commands() == C.DoAll(old(Commands()), allocCmd, calls)
      decreases calls, 0
    {
      if calls != [] {
        Perform(calls[0]);
        PerformAll(calls[1..]);
      }
    }

    /** The cancelling loop of wifi_cleanup, for the inputs on which it ends; during(n) is what the n-th
        cancel() does to the table. cb_lock is let go around each cancel(). */
    method WifiCleanup(during: nat -> seq<C.Call>) returns (turns: nat, bad: int)
      requires Valid()
      requires L.Terminates(L.State(Commands(), 0), allocCmd, during)
      modifies this`numCmd, this`log, this`cbLocked, cmd
      ensures Valid() && 0 <= bad && numCmd <= bad
      ensures L.State(Commands(), bad) == L.After(L.State(old(Commands()), 0), allocCmd, during, turns)
    {
      ghost var start := L.State(Commands(), 0);
      ghost var last: nat :| L.Finished(L.After(start, allocCmd, during, last));
      Lock();
      bad, turns := 0, 0;
      while numCmd > bad
        invariant cbLocked && 0 <= bad && allocCmd == cmd.Length && 0 <= numCmd <= allocCmd
        invariant allocEventCb == eventCb.Length && 0 <= numEventCb <= allocEventCb
        invariant L.State(Commands(), bad) == L.After(start, allocCmd, during, turns)
        invariant turns <= last
        decreases last - turns
      {
        assert turns != last;
        var num, c := numCmd, cmd[bad].cmd;
        if c != NULL {
          ghost var e := cmd[bad];
          Unlock();
          log := log + [C.Event(C.CancelCalled, e)];
          PerformAll(during(turns));
          Lock();
          if num == numCmd {
            bad := bad + 1;
          }
          log := log + [C.Event(C.RefReleased, e)];
        }
        turns := turns + 1;
      }
      Unlock();
    }
  }
}
