/** The event-handler table of the Wi-Fi HAL as an abstract list, one operation at a time
    (mtk/hal/libwifi-hal-mt66xx/common.cpp:52-150 and the dispatcher of wifi_hal.cpp:489-548). */
module EventTable {
  import opened Lists
  import opened WifiTypes

  /** nl80211.h of the Linux kernel; no proof uses the number. */
  const NL80211_CMD_VENDOR: int := 103

  datatype CbInfo = CbInfo(nlCmd: int, vendorId: int, vendorSubcmd: int, cbFunc: Address, cbArg: Address)

  datatype Key = Key(nlCmd: int, vendorId: int, vendorSubcmd: int)

  datatype Call =
    | Register(cmd: int, func: Address, arg: Address)
    | RegisterVendor(id: int, subcmd: int, func: Address, arg: Address)
    | Unregister(cmd: int)
    | UnregisterVendor(id: int, subcmd: int)
    | Dispatch(cmd: int, id: int, subcmd: int)
  {
    predicate Registers() { Register? || RegisterVendor? }

    /** wifi_unregister_handler returns before taking the lock. */
    predicate ReturnsEarly() { Unregister? && cmd == NL80211_CMD_VENDOR }

    predicate Removes() { (Unregister? && cmd != NL80211_CMD_VENDOR) || UnregisterVendor? }
  }

  datatype Reply =
    | Status(error: WifiError)
    | Nothing
    | Found(func: Address, arg: Address)   // the handler a dispatch copies out of the table
    | NoHandler

  datatype Callback = NoCall | Invoked(func: Address, arg: Address)

  /** What a dispatch calls once the lock is released: a NULL function is skipped. */
  function CallbackOf(r: Reply): Callback {
    if r.Found? && r.func != NULL then Invoked(r.func, r.arg) else NoCall
  }

  datatype Outcome = Outcome(table: seq<CbInfo>, reply: Reply)

  /** The slot contents a registration writes. */
  function EntryOf(c: Call): CbInfo
    requires c.Registers()
  {
    match c
    case Register(cmd, func, arg) => CbInfo(cmd, 0, 0, func, arg)
    case RegisterVendor(id, subcmd, func, arg) => CbInfo(NL80211_CMD_VENDOR, id, subcmd, func, arg)
  }

  /** The test a scan makes on one slot. */
  predicate Matches(c: Call, e: CbInfo) {
    match c
    case Unregister(cmd) => e.nlCmd == cmd
    case UnregisterVendor(id, subcmd) =>
      e.nlCmd == NL80211_CMD_VENDOR && e.vendorId == id && e.vendorSubcmd == subcmd
    case Dispatch(cmd, id, subcmd) =>
      e.nlCmd == cmd && !(cmd == NL80211_CMD_VENDOR && (id != e.vendorId || subcmd != e.vendorSubcmd))
    case _ => false
  }

  function Matching(c: Call): CbInfo -> bool { e => Matches(c, e) }

  function KeyOf(e: CbInfo): Key { Key(e.nlCmd, e.vendorId, e.vendorSubcmd) }

  function HasKey(k: Key): CbInfo -> bool { e => KeyOf(e) == k }

  /** The key a call is about. */
  function KeyOfCall(c: Call): Key {
    match c
    case Register(cmd, _, _) => Key(cmd, 0, 0)
    case RegisterVendor(id, subcmd, _, _) => Key(NL80211_CMD_VENDOR, id, subcmd)
    case Unregister(cmd) => Key(cmd, 0, 0)
    case UnregisterVendor(id, subcmd) => Key(NL80211_CMD_VENDOR, id, subcmd)
    case Dispatch(cmd, id, subcmd) =>
      if cmd == NL80211_CMD_VENDOR then Key(cmd, id, subcmd) else Key(cmd, 0, 0)
  }

  /** What a scan that met no match, or a removal, answers. */
  function MissReply(c: Call): Reply { if c.Dispatch? then NoHandler else Nothing }

  /** One whole operation on a table of capacity alloc. */
  function Apply(t: seq<CbInfo>, alloc: nat, c: Call): Outcome {
    if c.Registers() then
      if |t| < alloc then Outcome(t + [EntryOf(c)], Status(WIFI_SUCCESS))
      else Outcome(t, Status(WIFI_ERROR_OUT_OF_MEMORY))
    else if c.ReturnsEarly() then Outcome(t, Nothing)
    else if c.Dispatch? then
      var i := FirstIndex(t, Matching(c));
      Outcome(t, if i < |t| then Found(t[i].cbFunc, t[i].cbArg) else NoHandler)
    else
      Outcome(RemoveFirst(t, Matching(c)), Nothing)
  }

  /** A removal whose scan stopped at i. */
  lemma RemovalAt(t: seq<CbInfo>, c: Call, i: nat)
    requires i <= |t| && forall k :: 0 <= k < i ==> !Matches(c, t[k])
    requires i < |t| ==> Matches(c, t[i])
    ensures FirstIndex(t, Matching(c)) == i
    ensures RemoveFirst(t, Matching(c)) == if i < |t| then WithoutIndex(t, i) else t
  {
    FirstIndexUnique(t, Matching(c), i);
    RemoveFirstAt(t, Matching(c));
  }

  /** Operations one at a time, from the empty table wifi_initialize builds. */
  function Run(alloc: nat, calls: seq<Call>): (t: seq<CbInfo>)
    decreases |calls|
  {
    if calls == [] then []
    else Apply(Run(alloc, calls[..|calls| - 1]), alloc, calls[|calls| - 1]).table
  }

  function Replies(alloc: nat, calls: seq<Call>): (r: seq<Reply>)
    decreases |calls|
  {
    if calls == [] then []
    else
      var before := calls[..|calls| - 1];
      Replies(alloc, before) + [Apply(Run(alloc, before), alloc, calls[|calls| - 1]).reply]
  }

  /** The entry a registration adds to t, as a sequence of length 0 or 1. */
  function Added(t: seq<CbInfo>, alloc: nat, c: Call): seq<CbInfo> {
    if c.Registers() && |t| < alloc then [EntryOf(c)] else []
  }

  /** Entries added by the registrations of a run that succeeded, in order. */
  function Accepted(alloc: nat, calls: seq<Call>): seq<CbInfo>
    decreases |calls|
  {
    if calls == [] then []
    else
      var before := calls[..|calls| - 1];
      Accepted(alloc, before) + Added(Run(alloc, before), alloc, calls[|calls| - 1])
  }

  /** The entry a removal takes out of t, as a sequence of length 0 or 1. */
  function Taken(t: seq<CbInfo>, c: Call): seq<CbInfo> {
    var i := FirstIndex(t, Matching(c));
    if c.Removes() && i < |t| then [t[i]] else []
  }

  /** Entries taken out during a run, in order. */
  function Removed(alloc: nat, calls: seq<Call>): seq<CbInfo>
    decreases |calls|
  {
    if calls == [] then []
    else
      var before := calls[..|calls| - 1];
      Removed(alloc, before) + Taken(Run(alloc, before), calls[|calls| - 1])
  }

  // ---------------------------------------------------------------------------------------------
  // What every reachable table satisfies
  // ---------------------------------------------------------------------------------------------

  predicate PlainKey(e: CbInfo) {
    e.nlCmd != NL80211_CMD_VENDOR ==> e.vendorId == 0 && e.vendorSubcmd == 0
  }

  /** Plain entries carry vendor id 0 and subcommand 0. */
  ghost predicate WellKeyed(t: seq<CbInfo>) {
    forall k :: 0 <= k < |t| ==> PlainKey(t[k])
  }

  lemma ApplyWellKeyed(t: seq<CbInfo>, alloc: nat, c: Call)
    requires WellKeyed(t)
    ensures WellKeyed(Apply(t, alloc, c).table)
    ensures |t| <= alloc ==> |Apply(t, alloc, c).table| <= alloc
  {
    RemoveFirstAt(t, Matching(c));
  }

  /** Capacity and key shape hold after every run. */
  lemma {:induction false} ReachableTable(alloc: nat, calls: seq<Call>)
    ensures WellKeyed(Run(alloc, calls))
    ensures |Run(alloc, calls)| <= alloc
    decreases |calls|
  {
    if calls != [] {
      ReachableTable(alloc, calls[..|calls| - 1]);
      ApplyWellKeyed(Run(alloc, calls[..|calls| - 1]), alloc, calls[|calls| - 1]);
    }
  }

  /** On a reachable table every scan is a scan for one key triple. */
  lemma {:induction false} ScanIsByKey(t: seq<CbInfo>, c: Call)
    requires WellKeyed(t) && (c.Removes() || c.Dispatch?)
    ensures forall k :: 0 <= k < |t| ==> (Matching(c)(t[k]) <==> HasKey(KeyOfCall(c))(t[k]))
    ensures RemoveFirst(t, Matching(c)) == RemoveFirst(t, HasKey(KeyOfCall(c)))
    ensures FirstIndex(t, Matching(c)) == FirstIndex(t, HasKey(KeyOfCall(c)))
  {
    forall k | 0 <= k < |t| ensures Matching(c)(t[k]) <==> HasKey(KeyOfCall(c))(t[k]) {
      assert PlainKey(t[k]);
    }
    RemoveFirstSame(t, Matching(c), HasKey(KeyOfCall(c)));
  }

  /** Both unregister functions are one remove-first over the key triple, after every run. */
  lemma UnregisterIsRemoveFirstOfKey(alloc: nat, calls: seq<Call>, c: Call)
    requires c.Removes()
    ensures var t := Run(alloc, calls);
            Apply(t, alloc, c) == Outcome(RemoveFirst(t, HasKey(KeyOfCall(c))), Nothing)
  {
    ReachableTable(alloc, calls);
    ScanIsByKey(Run(alloc, calls), c);
  }

  // ---------------------------------------------------------------------------------------------
  // Per-key queues
  // ---------------------------------------------------------------------------------------------

  /** One operation seen through the projection onto one key. */
  lemma {:induction false} ProjectionStep(t: seq<CbInfo>, alloc: nat, c: Call, k: Key)
    requires WellKeyed(t)
    ensures var t' := Apply(t, alloc, c).table;
            Filter(t', HasKey(k)) ==
            if KeyOfCall(c) != k then Filter(t, HasKey(k))
            else if c.Registers() && |t| < alloc then Filter(t, HasKey(k)) + [EntryOf(c)]
            else if c.Removes() then Tail(Filter(t, HasKey(k)))
            else Filter(t, HasKey(k))
    ensures Filter(Taken(t, c), HasKey(k)) ==
            if c.Removes() && KeyOfCall(c) == k && Filter(t, HasKey(k)) != []
            then [Filter(t, HasKey(k))[0]] else []
  {
    if c.Registers() {
      FilterAppend(t, [EntryOf(c)], HasKey(k));
    } else if c.Removes() {
      ScanIsByKey(t, c);
      FilterRemoved(t, HasKey(KeyOfCall(c)));
      if KeyOfCall(c) != k {
        FilterKept(t, HasKey(KeyOfCall(c)), HasKey(k));
      }
    }
  }

  /** What enters a projection and what leaves it, in order. */
  lemma ProjectionBalance(t: seq<CbInfo>, alloc: nat, c: Call, k: Key)
    requires WellKeyed(t)
    ensures Filter(t, HasKey(k)) + Filter(Added(t, alloc, c), HasKey(k)) ==
            Filter(Taken(t, c), HasKey(k)) + Filter(Apply(t, alloc, c).table, HasKey(k))
  {
    ProjectionStep(t, alloc, c, k);
    var live := Filter(t, HasKey(k));
    if live != [] {
      assert live == [live[0]] + Tail(live);
    }
  }

  lemma KeyQueueStep(
    accepted: seq<CbInfo>, removed: seq<CbInfo>, t: seq<CbInfo>, alloc: nat, c: Call, k: Key)
    requires WellKeyed(t)
    requires Filter(accepted, HasKey(k)) == Filter(removed, HasKey(k)) + Filter(t, HasKey(k))
    ensures Filter(accepted + Added(t, alloc, c), HasKey(k)) ==
            Filter(removed + Taken(t, c), HasKey(k)) + Filter(Apply(t, alloc, c).table, HasKey(k))
  {
    ProjectionBalance(t, alloc, c, k);
    FilterAppend(removed, Taken(t, c), HasKey(k));
    FilterAppend(accepted, Added(t, alloc, c), HasKey(k));
    Regroup(Filter(removed, HasKey(k)), Filter(t, HasKey(k)), Filter(Added(t, alloc, c), HasKey(k)),
            Filter(Taken(t, c), HasKey(k)), Filter(Apply(t, alloc, c).table, HasKey(k)));
  }

  /** Over every run the table is one FIFO queue per key: the n-th removal under a key takes the n-th
      registration accepted under it, whatever happens to other keys in between. */
  lemma {:induction false} KeyQueue(alloc: nat, calls: seq<Call>, k: Key)
    ensures Filter(Accepted(alloc, calls), HasKey(k)) ==
            Filter(Removed(alloc, calls), HasKey(k)) + Filter(Run(alloc, calls), HasKey(k))
    decreases |calls|
  {
    if calls != [] {
      var before, c := calls[..|calls| - 1], calls[|calls| - 1];
      KeyQueue(alloc, before, k);
      ReachableTable(alloc, before);
      KeyQueueStep(Accepted(alloc, before), Removed(alloc, before), Run(alloc, before), alloc, c, k);
    }
  }

  /** An event goes to the oldest handler registered for its key and not yet removed, the very one
      the next unregister of that key removes; delivering it leaves the table alone. */
  lemma DispatchIsOldest(alloc: nat, calls: seq<Call>, d: Call, u: Call)
    requires d.Dispatch? && u.Removes() && KeyOfCall(u) == KeyOfCall(d)
    ensures var t := Run(alloc, calls);
            var live := Filter(t, HasKey(KeyOfCall(d)));
            && Apply(t, alloc, d).table == t
            && Taken(t, u) == (if live == [] then [] else [live[0]])
            && Apply(t, alloc, d).reply ==
               (if live == [] then NoHandler else Found(live[0].cbFunc, live[0].cbArg))
  {
    var t := Run(alloc, calls);
    ReachableTable(alloc, calls);
    ScanIsByKey(t, d);
    ScanIsByKey(t, u);
    FilterRemoved(t, HasKey(KeyOfCall(d)));
  }

  /** A registration succeeds exactly when there is room; then its entry is the newest and carries the
      key, function and argument it was given, and otherwise the full table stays as it was. */
  lemma RegistrationAnswer(alloc: nat, calls: seq<Call>, r: Call)
    requires r.Registers()
    ensures var t, t' := Run(alloc, calls), Run(alloc, calls + [r]);
            var replies := Replies(alloc, calls + [r]);
            if |t| < alloc
            then && replies == Replies(alloc, calls) + [Status(WIFI_SUCCESS)]
                 && |t'| == |t| + 1 && t'[..|t|] == t
                 && KeyOf(t'[|t|]) == KeyOfCall(r) && t'[|t|].cbFunc == r.func && t'[|t|].cbArg == r.arg
            else && replies == Replies(alloc, calls) + [Status(WIFI_ERROR_OUT_OF_MEMORY)]
                 && |t| == alloc && t' == t
  {
    RunOne(alloc, calls, r);
    ReachableTable(alloc, calls);
  }

  /** Removals under different keys commute. */
  lemma UnregistersCommute(alloc: nat, calls: seq<Call>, u: Call, v: Call)
    requires u.Removes() && v.Removes() && KeyOfCall(u) != KeyOfCall(v)
    ensures Run(alloc, calls + [u, v]) == Run(alloc, calls + [v, u])
  {
    var t := Run(alloc, calls);
    RunTwo(alloc, calls, u, v);
    RunTwo(alloc, calls, v, u);
    UnregisterIsRemoveFirstOfKey(alloc, calls, u);
    UnregisterIsRemoveFirstOfKey(alloc, calls, v);
    RunOne(alloc, calls, u);
    RunOne(alloc, calls, v);
    UnregisterIsRemoveFirstOfKey(alloc, calls + [u], v);
    UnregisterIsRemoveFirstOfKey(alloc, calls + [v], u);
    RemovalsCommute(t, HasKey(KeyOfCall(u)), HasKey(KeyOfCall(v)));
  }

  lemma RunOne(alloc: nat, calls: seq<Call>, c: Call)
    ensures Run(alloc, calls + [c]) == Apply(Run(alloc, calls), alloc, c).table
    ensures Replies(alloc, calls + [c]) == Replies(alloc, calls) + [Apply(Run(alloc, calls), alloc, c).reply]
  {
    assert (calls + [c])[..|calls|] == calls;
  }

  lemma RunTwo(alloc: nat, calls: seq<Call>, c: Call, d: Call)
    ensures Run(alloc, calls + [c, d]) == Apply(Run(alloc, calls + [c]), alloc, d).table
  {
    assert calls + [c, d] == (calls + [c]) + [d];
    RunOne(alloc, calls + [c], d);
  }

  // ---------------------------------------------------------------------------------------------
  // Registering and unregistering again
  // ---------------------------------------------------------------------------------------------

  /** Register then unregister under one key. The oldest entry of the key goes, so the old table is
      restored only if the key was absent, or if everything from its oldest entry on equals the entry
      just written; a full table refuses the registration and the unregister still takes an entry. */
  lemma RegisterThenUnregister(alloc: nat, calls: seq<Call>, r: Call, u: Call)
    requires r.Registers() && u.Removes() && KeyOfCall(u) == KeyOfCall(r)
    ensures var t := Run(alloc, calls);
            var older := RemoveFirst(t, HasKey(KeyOfCall(r)));
            var i := FirstIndex(t, HasKey(KeyOfCall(r)));
            var after := Run(alloc, calls + [r, u]);
            && (|t| < alloc ==> after == if i == |t| then t else older + [EntryOf(r)])
            && (|t| < alloc ==> (after == t <==> forall k :: i <= k < |t| ==> t[k] == EntryOf(r)))
            && (|t| == alloc ==> Run(alloc, calls + [r]) == t && after == older)
  {
    var t := Run(alloc, calls);
    var p := HasKey(KeyOfCall(r));
    ReachableTable(alloc, calls);
    RunOne(alloc, calls, r);
    RunTwo(alloc, calls, r, u);
    UnregisterIsRemoveFirstOfKey(alloc, calls + [r], u);
    RemovedAfterAppend(t, EntryOf(r), p);
  }

  /** A concrete run: the key is present, yet registering the same handler again and unregistering it
      restores the table. */
  lemma RestoredWhilePresentExample(cmd: int, f: Address, a: Address)
    requires cmd != NL80211_CMD_VENDOR
    ensures var r, u := Register(cmd, f, a), Unregister(cmd);
            Run(64, [r]) == [EntryOf(r)] == Run(64, [r] + [r, u])
  {
    var r, u := Register(cmd, f, a), Unregister(cmd);
    assert [] + [r] == [r];
    RunOne(64, [], r);
    var t := Run(64, [r]);
    assert t == [EntryOf(r)];
    RegisterThenUnregister(64, [r], r, u);
    assert forall k :: FirstIndex(t, HasKey(KeyOfCall(r))) <= k < |t| ==> t[k] == EntryOf(r);
  }

  lemma {:induction false} RemovedAfterAppend(t: seq<CbInfo>, e: CbInfo, p: CbInfo -> bool)
    requires p(e)
    ensures var i, after := FirstIndex(t, p), RemoveFirst(t + [e], p);
            && after == (if i == |t| then t else RemoveFirst(t, p) + [e])
            && (after == t <==> forall k :: i <= k < |t| ==> t[k] == e)
  {
    var i := FirstIndex(t, p);
    RemoveFirstAppendAbsent(t, e, p);
    FilterRemoved(t, p);
    if i < |t| {
      RemoveFirstAt(t, p);
      ShiftAppendFixed(t, i, e);
    }
  }

  // ---------------------------------------------------------------------------------------------
  // Which function's entries an unregister can take
  // ---------------------------------------------------------------------------------------------

  /** The registrations whose entries are in the table, oldest first: the table with its history. */
  function Live(alloc: nat, calls: seq<Call>): (r: seq<Call>)
    ensures AllRegister(r)
    decreases |calls|
  {
    if calls == [] then []
    else LiveAfter(Live(alloc, calls[..|calls| - 1]), alloc, calls[|calls| - 1])
  }

  function LiveAfter(live: seq<Call>, alloc: nat, c: Call): (r: seq<Call>)
    requires AllRegister(live)
    ensures AllRegister(r)
  {
    if c.Registers() then if |live| < alloc then live + [c] else live
    else if c.Removes() then WithoutTarget(live, c)
    else live
  }

  predicate AllRegister(live: seq<Call>) {
    forall k :: 0 <= k < |live| ==> live[k].Registers()
  }

  ghost predicate EntriesOf(live: seq<Call>, t: seq<CbInfo>) {
    |live| == |t| && AllRegister(live) && forall k :: 0 <= k < |t| ==> t[k] == EntryOf(live[k])
  }

  function Target(live: seq<Call>, u: Call): (i: nat)
    ensures i <= |live|
    ensures i < |live| ==> live[i].Registers() && Matches(u, EntryOf(live[i]))
    ensures forall k :: 0 <= k < i ==> !(live[k].Registers() && Matches(u, EntryOf(live[k])))
  {
    FirstIndex(live, (c: Call) => c.Registers() && Matches(u, EntryOf(c)))
  }

  function WithoutTarget(live: seq<Call>, u: Call): (r: seq<Call>)
    requires AllRegister(live)
    ensures AllRegister(r)
  {
    var i := Target(live, u);
    if i < |live| then WithoutIndex(live, i) else live
  }

  /** The table is exactly the entries of the live registrations. */
  lemma {:induction false} LiveIsTable(alloc: nat, calls: seq<Call>)
    ensures EntriesOf(Live(alloc, calls), Run(alloc, calls))
    decreases |calls|
  {
    if calls != [] {
      LiveIsTable(alloc, calls[..|calls| - 1]);
      LiveStep(Live(alloc, calls[..|calls| - 1]), Run(alloc, calls[..|calls| - 1]), alloc, calls[|calls| - 1]);
    }
  }

  lemma LiveStep(live: seq<Call>, t: seq<CbInfo>, alloc: nat, c: Call)
    requires EntriesOf(live, t)
    ensures EntriesOf(LiveAfter(live, alloc, c), Apply(t, alloc, c).table)
  {
    if c.Removes() {
      LiveRemoval(live, t, c);
      assert Apply(t, alloc, c).table == RemoveFirst(t, Matching(c));
    }
  }

  lemma LiveRemoval(live: seq<Call>, t: seq<CbInfo>, u: Call)
    requires EntriesOf(live, t)
    ensures EntriesOf(WithoutTarget(live, u), RemoveFirst(t, Matching(u)))
  {
    TargetIsFirstIndex(live, t, u);
    RemoveFirstAt(t, Matching(u));
  }

  lemma TargetIsFirstIndex(live: seq<Call>, t: seq<CbInfo>, u: Call)
    requires EntriesOf(live, t)
    ensures Target(live, u) == FirstIndex(t, Matching(u))
  {
    var i := Target(live, u);
    forall k | 0 <= k < i ensures !Matching(u)(t[k]) {
      assert live[k].Registers();
    }
    FirstIndexUnique(t, Matching(u), i);
  }

  /** i is the oldest live registration under key k, or past the end if there is none. */
  ghost predicate OldestUnder(live: seq<Call>, k: Key, i: nat) {
    && i <= |live|
    && (i < |live| ==> KeyOfCall(live[i]) == k)
    && forall j :: 0 <= j < i ==> KeyOfCall(live[j]) != k
  }

  /** An event finds the function and argument of the oldest live registration of its key, and calls
      the function unless it is NULL; a younger registration is not tried instead. */
  lemma {:induction false} DispatchReachesRegistrant(alloc: nat, calls: seq<Call>, d: Call) returns (i: nat)
    requires d.Dispatch?
    ensures var live, r := Live(alloc, calls), Apply(Run(alloc, calls), alloc, d).reply;
            && OldestUnder(live, KeyOfCall(d), i)
            && r == (if i < |live| then Found(live[i].func, live[i].arg) else NoHandler)
            && CallbackOf(r) ==
               (if i < |live| && live[i].func != NULL then Invoked(live[i].func, live[i].arg) else NoCall)
            && Replies(alloc, calls + [d]) == Replies(alloc, calls) + [r]
  {
    var live, t := Live(alloc, calls), Run(alloc, calls);
    LiveIsTable(alloc, calls);
    ReachableTable(alloc, calls);
    ScanIsByKey(t, d);
    RunOne(alloc, calls, d);
    i := FirstIndex(t, HasKey(KeyOfCall(d)));
    forall j | 0 <= j < i ensures KeyOfCall(live[j]) != KeyOfCall(d) {
      assert !HasKey(KeyOfCall(d))(t[j]) && live[j].Registers();
    }
  }

  /** The plain unregister only ever takes what the plain register put there. The vendor unregister
      takes a plain registration in one case: the plain register was given NL80211_CMD_VENDOR, and the
      vendor unregister is given id 0 and subcommand 0. */
  lemma TakenRegistration(alloc: nat, calls: seq<Call>, u: Call)
    requires u.Removes()
    ensures |Live(alloc, calls)| == |Run(alloc, calls)|
    ensures var live := Live(alloc, calls);
            var i := Target(live, u);
            i < |live| ==>
              && EntryOf(live[i]) == Run(alloc, calls)[i]
              && Taken(Run(alloc, calls), u) == [EntryOf(live[i])]
              && (u.Unregister? ==> live[i].Register? && live[i].cmd == u.cmd)
              && (u.UnregisterVendor? && live[i].Register? ==>
                    live[i].cmd == NL80211_CMD_VENDOR && u.id == 0 && u.subcmd == 0)
  {
    LiveIsTable(alloc, calls);
    TargetIsFirstIndex(Live(alloc, calls), Run(alloc, calls), u);
  }

  /** n calls of wifi_unregister_vendor_handler(0, 0). */
  function Zeros(n: nat): seq<Call> {
    seq(n, _ => UnregisterVendor(0, 0))
  }

  predicate TakesPlain(live: seq<Call>, u: Call) {
    u.UnregisterVendor? && Target(live, u) < |live| && live[Target(live, u)].Register?
  }

  predicate VendorUnregisters(us: seq<Call>) {
    forall j :: 0 <= j < |us| ==> us[j].UnregisterVendor?
  }

  predicate Misfiled(c: Call) {
    c.Register? && c.cmd == NL80211_CMD_VENDOR
  }

  /** The separation of the two interfaces is exact: some further sequence of vendor unregisters ends
      by taking a plain registration if and only if one made with NL80211_CMD_VENDOR is live. */
  lemma SeparationExact(alloc: nat, calls: seq<Call>)
    ensures (exists k :: 0 <= k < |Live(alloc, calls)| && Misfiled(Live(alloc, calls)[k])) <==>
            (exists us: seq<Call>, u: Call ::
               VendorUnregisters(us) && TakesPlain(Live(alloc, calls + us), u))
  {
    if k :| 0 <= k < |Live(alloc, calls)| && Misfiled(Live(alloc, calls)[k]) {
      var n := MisfiledReached(alloc, calls, k);
      var us, u := Zeros(n), UnregisterVendor(0, 0);
      assert TakesPlain(Live(alloc, calls + us), u);
    }
    if us: seq<Call>, u: Call :| VendorUnregisters(us) && TakesPlain(Live(alloc, calls + us), u) {
      var i := Target(Live(alloc, calls + us), u);
      assert Misfiled(Live(alloc, calls + us)[i]);
      var k := SurvivorWasLive(alloc, calls, us, i);
    }
  }

  /** Every live registration is one of the calls made. */
  lemma {:induction false} LiveWasCalled(alloc: nat, calls: seq<Call>, k: nat)
    requires k < |Live(alloc, calls)|
    ensures Live(alloc, calls)[k] in calls
    decreases |calls|
  {
    var front, c := calls[..|calls| - 1], calls[|calls| - 1];
    var before := Live(alloc, front);
    if k < |before| && Live(alloc, calls)[k] == before[k] {
      LiveWasCalled(alloc, front, k);
    } else if c.Removes() {
      LiveWasCalled(alloc, front, k + 1);
    }
  }

  /** Callers that never pass NL80211_CMD_VENDOR to the plain register keep the two interfaces apart in
      every run: a vendor unregister takes only vendor registrations. */
  lemma InterfacesStayApart(alloc: nat, calls: seq<Call>, u: Call)
    requires forall c :: c in calls ==> !Misfiled(c)
    ensures !TakesPlain(Live(alloc, calls), u)
  {
    if TakesPlain(Live(alloc, calls), u) {
      LiveWasCalled(alloc, calls, Target(Live(alloc, calls), u));
    }
  }

  lemma {:induction false} MisfiledReached(alloc: nat, calls: seq<Call>, k: nat) returns (n: nat)
    requires k < |Live(alloc, calls)| && Misfiled(Live(alloc, calls)[k])
    ensures TakesPlain(Live(alloc, calls + Zeros(n)), UnregisterVendor(0, 0))
    decreases k
  {
    var live, u := Live(alloc, calls), UnregisterVendor(0, 0);
    var i := Target(live, u);
    assert Matches(u, EntryOf(live[k]));
    if live[i].Register? {
      n := 0;
      assert calls + Zeros(0) == calls;
    } else {
      assert (calls + [u])[..|calls|] == calls;
      assert Live(alloc, calls + [u]) == WithoutIndex(live, i);
      var m := MisfiledReached(alloc, calls + [u], k - 1);
      n := m + 1;
      assert (calls + [u]) + Zeros(m) == calls + Zeros(n);
    }
  }

  lemma {:induction false} SurvivorWasLive(alloc: nat, calls: seq<Call>, us: seq<Call>, i: nat) returns (k: nat)
    requires VendorUnregisters(us)
    requires i < |Live(alloc, calls + us)|
    ensures k < |Live(alloc, calls)| && Live(alloc, calls)[k] == Live(alloc, calls + us)[i]
    decreases |us|
  {
    if us == [] {
      assert calls + us == calls;
      k := i;
    } else {
      var front := us[..|us| - 1];
      assert (calls + us)[..|calls + us| - 1] == calls + front;
      var live := Live(alloc, calls + front);
      var at := Target(live, us[|us| - 1]);
      k := SurvivorWasLive(alloc, calls, front, if at < |live| && at <= i then i + 1 else i);
    }
  }

  // ---------------------------------------------------------------------------------------------
  // Whose entry an unregister takes
  // ---------------------------------------------------------------------------------------------

  /** cmd is the argument of some entry. */
  predicate Handles(t: seq<CbInfo>, cmd: Address) {
    exists k :: 0 <= k < |t| && t[k].cbArg == cmd
  }

  /** cmd has one live registration, the i-th. Unregistering its key leaves no entry of cmd if and only
      if no older live registration has that key. */
  lemma {:induction false} OwnUnregisterExact(alloc: nat, calls: seq<Call>, i: nat, cmd: Address, u: Call)
    requires var live := Live(alloc, calls);
             && i < |live| && u.Removes() && KeyOfCall(u) == KeyOfCall(live[i])
             && forall j :: 0 <= j < |live| ==> (live[j].arg == cmd <==> j == i)
    ensures !Handles(Run(alloc, calls + [u]), cmd) <==>
            forall j :: 0 <= j < i ==> KeyOfCall(Live(alloc, calls)[j]) != KeyOfCall(u)
  {
    var live, t := Live(alloc, calls), Run(alloc, calls);
    LiveIsTable(alloc, calls);
    ReachableTable(alloc, calls);
    ScanIsByKey(t, u);
    RunOne(alloc, calls, u);
    var at := FirstIndex(t, HasKey(KeyOfCall(u)));
    RemovalAt(t, u, at);
    KeysOfLive(live, t);
    var t' := WithoutIndex(t, at);
    assert at <= i;
    if at < i {
      assert t'[i - 1] == t[i];
    }
  }

  lemma KeysOfLive(live: seq<Call>, t: seq<CbInfo>)
    requires EntriesOf(live, t)
    ensures forall j :: 0 <= j < |t| ==> KeyOf(t[j]) == KeyOfCall(live[j]) && t[j].cbArg == live[j].arg
  {
    forall j | 0 <= j < |t| ensures KeyOf(t[j]) == KeyOfCall(live[j]) && t[j].cbArg == live[j].arg {
      assert live[j].Registers();
    }
  }

  /** A concrete run, in which the scan command a and the full-scan-results command b have the same key
      (gscan.cpp:425, 638). b unregisters (gscan.cpp:451) and takes the entry of a; an event then finds
      b, which wifi_cancel_cmd goes on to release. */
  lemma SharedKeyExample(id: int, sub: int, f: Address, a: Address, b: Address)
    requires a != b
    ensures var ra, rb, u := RegisterVendor(id, sub, f, a), RegisterVendor(id, sub, f, b), UnregisterVendor(id, sub);
            var t := Run(64, [ra, rb, u]);
            && Handles(t, b) && !Handles(t, a)
            && Apply(t, 64, Dispatch(NL80211_CMD_VENDOR, id, sub)).reply == Found(f, b)
  {
    var ra, rb, u := RegisterVendor(id, sub, f, a), RegisterVendor(id, sub, f, b), UnregisterVendor(id, sub);
    RunRegistrations(ra, rb);
    assert [ra, rb] + [u] == [ra, rb, u];
    RunOne(64, [ra, rb], u);
    OldestOfTwoGoes(EntryOf(ra), EntryOf(rb), u);
    assert Run(64, [ra, rb, u])[0].cbArg == b;
    OnlyEntryFound(EntryOf(rb), Dispatch(NL80211_CMD_VENDOR, id, sub));
  }

  lemma OldestOfTwoGoes(e: CbInfo, e': CbInfo, u: Call)
    requires u.Removes() && Matches(u, e)
    ensures Apply([e, e'], 64, u).table == [e']
  {
    RemovalAt([e, e'], u, 0);
    assert WithoutIndex([e, e'], 0) == [e'];
  }

  lemma OnlyEntryFound(e: CbInfo, d: Call)
    requires d.Dispatch? && Matches(d, e)
    ensures Apply([e], 64, d).reply == Found(e.cbFunc, e.cbArg)
  {
    FirstIndexUnique([e], Matching(d), 0);
  }

  lemma RunRegistrations(c: Call, d: Call)
    requires c.Registers() && d.Registers()
    ensures Run(64, [c, d]) == [EntryOf(c), EntryOf(d)]
  {
    assert [] + [c] == [c];
    RunOne(64, [], c);
    assert [] + [c, d] == [c, d];
    RunTwo(64, [], c, d);
  }

  /** Registrations under k that reported success, less the unregisters of k that had one to take: a
      count the callers that use k can keep from their own answers. */
  function Outstanding(alloc: nat, calls: seq<Call>, k: Key): nat
    decreases |calls|
  {
    if calls == [] then 0
    else
      var front, c := calls[..|calls| - 1], calls[|calls| - 1];
      var n := Outstanding(alloc, front, k);
      if KeyOfCall(c) != k then n
      else if Apply(Run(alloc, front), alloc, c).reply == Status(WIFI_SUCCESS) then n + 1
      else if c.Removes() && n > 0 then n - 1
      else n
  }

  lemma {:induction false} OutstandingExact(alloc: nat, calls: seq<Call>, k: Key)
    ensures |Filter(Run(alloc, calls), HasKey(k))| == Outstanding(alloc, calls, k)
    decreases |calls|
  {
    if calls != [] {
      var front, c := calls[..|calls| - 1], calls[|calls| - 1];
      OutstandingExact(alloc, front, k);
      ReachableTable(alloc, front);
      ProjectionStep(Run(alloc, front), alloc, c, k);
    }
  }

  /** Registrations under one key all name the same command. */
  ghost predicate NoSharing(calls: seq<Call>) {
    forall c, d :: c in calls && d in calls && c.Registers() && d.Registers() && KeyOfCall(c) == KeyOfCall(d) ==>
      c.arg == d.arg
  }

  /** cmd was registered under a key on which registrations are outstanding. */
  ghost predicate StillOut(alloc: nat, calls: seq<Call>, cmd: Address) {
    exists c :: c in calls && c.Registers() && c.arg == cmd && Outstanding(alloc, calls, KeyOfCall(c)) > 0
  }

  /** When no key is shared, whether the table still names a command is what its owner counts. */
  lemma HandledExactly(alloc: nat, calls: seq<Call>, cmd: Address)
    requires NoSharing(calls)
    ensures Handles(Run(alloc, calls), cmd) <==> StillOut(alloc, calls, cmd)
  {
    var live, t := Live(alloc, calls), Run(alloc, calls);
    LiveIsTable(alloc, calls);
    KeysOfLive(live, t);
    if k :| 0 <= k < |t| && t[k].cbArg == cmd {
      var c := live[k];
      assert c.Registers();
      LiveWasCalled(alloc, calls, k);
      OutstandingExact(alloc, calls, KeyOfCall(c));
      FilterMembers(t, HasKey(KeyOfCall(c)));
      assert t[k] in Filter(t, HasKey(KeyOfCall(c)));
    }
    if c :| c in calls && c.Registers() && c.arg == cmd && Outstanding(alloc, calls, KeyOfCall(c)) > 0 {
      OutstandingExact(alloc, calls, KeyOfCall(c));
      FilterMembers(t, HasKey(KeyOfCall(c)));
      var e := Filter(t, HasKey(KeyOfCall(c)))[0];
      assert e in Filter(t, HasKey(KeyOfCall(c)));
      var k :| 0 <= k < |t| && t[k] == e;
      assert live[k].Registers();
      LiveWasCalled(alloc, calls, k);
    }
  }

  /** A concrete run: the plain unregister of NL80211_CMD_VENDOR leaves the plain registration in
      place and the vendor unregister takes it. */
  lemma MisfiledExample(f: Address, a: Address)
    ensures var r := Register(NL80211_CMD_VENDOR, f, a);
            && Run(64, [r, Unregister(NL80211_CMD_VENDOR)]) == [EntryOf(r)]
            && Run(64, [r, UnregisterVendor(0, 0)]) == []
  {
    var r := Register(NL80211_CMD_VENDOR, f, a);
    assert [] + [r] == [r];
    RunOne(64, [], r);
    assert [] + [r, Unregister(NL80211_CMD_VENDOR)] == [r, Unregister(NL80211_CMD_VENDOR)];
    assert [] + [r, UnregisterVendor(0, 0)] == [r, UnregisterVendor(0, 0)];
    RunTwo(64, [], r, Unregister(NL80211_CMD_VENDOR));
    RunTwo(64, [], r, UnregisterVendor(0, 0));
  }
}
