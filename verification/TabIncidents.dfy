/** Runs in which the idle clocks and the log come apart, and what a reconcile may adopt. */
module TabIncidents {
  import opened Bytes
  import opened RpcLog
  import opened TabIdle
  import opened TabRecovery
  import TabRegistry

  lemma Continue(c: Codec, ds: seq<Daemon>, evs: seq<Event>, ev: Event, e: Daemon)
    requires Run(c, ds, evs) && Step(c, ds[|evs|], ev, e)
    ensures Run(c, ds + [e], evs + [ev])
  {
    hide Step;
  }

  function Note(action: string, tab: Str, at: int): LogRecord {
    LogRecord(action, [], tab, [], 0, true, [], at)
  }

  /** A daemon that has just opened its first tab, at time 0. */
  lemma FirstTab(c: Codec, tid: Str) returns (ds: seq<Daemon>, evs: seq<Event>, short: Str)
    requires |TabRegistry.HexDigits(tid)| >= TabRegistry.MIN_SHORT
    ensures Run(c, ds, evs) && |evs| == 1 && evs[0] == NewTab(tid, Note(TAB_NEW, short, 0), 0)
    ensures var d := ds[1];
            && TabRegistry.Inv(d.reg) && d.reg.short == map[tid := short] && d.clocks == map[tid := 0]
            && d.logged == [] && d.since == 0 && d.pending == [Note(TAB_NEW, short, 0)] && d.clock == 0
            && short != [] && TrimSpace(short) == short && short == TabRegistry.LastFour(tid)
            && TabRegistry.Compatible({tid}) && TabRegistry.FourDistinct({tid})
  {
    hide TrimSpace, TabRegistry.HexDigits, TabRegistry.NewShort, TabRegistry.IsSuffix;
    var start := Daemon(TabRegistry.Empty, map[], [], 0, [], 0);
    assert TabRegistry.Compatible({tid}) && TabRegistry.FourDistinct({tid});
    assert TabRegistry.Empty.short.Keys + {tid} == {tid};
    TabRegistry.EmptyIsGood();
    TabRegistry.AssignKeeps(TabRegistry.Empty, tid);
    TabRegistry.AssignLastFour(TabRegistry.Empty, tid);
    short := TabRegistry.ShortOf(TabRegistry.Empty, tid);
    var rec := Note(TAB_NEW, short, 0);
    var d := Daemon(TabRegistry.Assign(TabRegistry.Empty, tid), map[tid := 0], [], 0, [rec], 0);
    ShortTrimmed(d.reg, tid);
    assert d.reg.short == map[tid := short];
    assert [] + [rec] == [rec];
    ds, evs := [start, d], [NewTab(tid, rec, 0)];
  }

  /** A focus call that asks for one tab and answers with another: the run's last event puts the log ahead of
      memory. */
  lemma FocusPutsLogAhead(c: Codec, tid: Str, asked: Str) returns (ds: seq<Daemon>, evs: seq<Event>)
    requires |TabRegistry.HexDigits(tid)| >= TabRegistry.MIN_SHORT
    requires TrimSpace(asked) != TabRegistry.LastFour(tid)
    ensures Run(c, ds, evs) && |evs| == 2 && Inv(c, ds[1]) && !Inv(c, ds[2])
    ensures evs[1] == Rpc(asked, Note("tab_focus", TabRegistry.LastFour(tid), 100), 100)
  {
    hide TrimSpace, TabRegistry.HexDigits, TabRegistry.Inv, TabRegistry.LastFour, Inv, Behind;
    var short;
    ds, evs, short := FirstTab(c, tid);
    var d := ds[1];
    var rec := Note("tab_focus", short, 100);
    var e := d.(clocks := Touched(d.reg, d.clocks, asked, 100), pending := d.pending + [rec], clock := 100);
    assert Step(c, d, Rpc(asked, rec, 100), e);
    RunsKeepLogBehind(c, ds, evs, 1);
    OneOwed(c, d, short);
    InverseAt(d.reg, tid);
    assert Misdirected(Owed(c, d), d.reg, d.clocks, asked, short, 100);
    RpcKeepsInvIff(c, d, asked, rec, 100, e);
    Continue(c, ds, evs, Rpc(asked, rec, 100), e);
    ds, evs := ds + [e], evs + [Rpc(asked, rec, 100)];
  }

  lemma OneOwed(c: Codec, d: Daemon, short: Str)
    requires d.logged + d.pending == [Note(TAB_NEW, short, 0)] && short != []
    ensures Owed(c, d) == map[short := 0]
  {
    FoldOne(c, map[], Note(TAB_NEW, short, 0));
  }

  lemma InverseAt(reg: TabRegistry.Reg, tid: Str)
    requires TabRegistry.Inv(reg) && tid in reg.short
    ensures reg.short[tid] in reg.target && reg.target[reg.short[tid]] == tid
  {
    hide TabRegistry.IsSuffix;
  }

  /** The same daemon once the tab's record is in the log. */
  lemma WrittenTab(c: Codec, tid: Str) returns (ds: seq<Daemon>, evs: seq<Event>, short: Str)
    requires |TabRegistry.HexDigits(tid)| >= TabRegistry.MIN_SHORT
    ensures Run(c, ds, evs) && |ds| == 3 && |evs| == 2 && evs[0].NewTab? && evs[0].tid == tid && evs[1] == Write
    ensures var d := ds[2];
            && TabRegistry.Inv(d.reg) && d.reg.short == map[tid := short] && d.clocks == map[tid := 0]
            && d.logged == [Note(TAB_NEW, short, 0)] && d.since == 0 && d.pending == [] && d.clock == 0
            && short != [] && TrimSpace(short) == short && short == TabRegistry.LastFour(tid)
            && TabRegistry.Compatible({tid}) && TabRegistry.FourDistinct({tid})
  {
    hide TrimSpace, TabRegistry.HexDigits, TabRegistry.Inv, TabRegistry.LastFour, TabRegistry.Compatible,
         TabRegistry.FourDistinct;
    ds, evs, short := FirstTab(c, tid);
    var d := ds[1];
    var e := d.(logged := d.pending, pending := []);
    assert d.logged + [d.pending[0]] == d.pending && d.pending[1..] == [];
    Continue(c, ds, evs, Write, e);
    ds, evs := ds + [e], evs + [Write];
  }

  /** A daemon restarted while its browser listed no targets, that has since seen its tab again: registered
      under the same short id, in the log, but not tracked. */
  lemma MissedTab(c: Codec, tid: Str) returns (ds: seq<Daemon>, evs: seq<Event>, short: Str)
    requires |TabRegistry.HexDigits(tid)| >= TabRegistry.MIN_SHORT
    ensures Run(c, ds, evs) && |ds| == 5 && |evs| == 4
    ensures evs[0].NewTab? && evs[1] == Write && evs[2] == Restart({}) && evs[3] == SyncTo({tid})
    ensures var d := ds[4];
            && TabRegistry.Inv(d.reg) && d.reg.short == map[tid := short] && d.clocks == map[]
            && d.logged == [Note(TAB_NEW, short, 0)] && d.since == 1 && d.pending == [] && d.clock == 0
            && short != [] && TrimSpace(short) == short && short == TabRegistry.LastFour(tid)
  {
    hide TrimSpace, TabRegistry.HexDigits, TabRegistry.Sync, TabRegistry.Inv, TabRegistry.LastFour,
         TabRegistry.Compatible, TabRegistry.FourDistinct, TabRegistry.AllLastFour;
    ds, evs, short := WrittenTab(c, tid);
    var d2 := ds[2];
    NoneCompatible();
    TabRegistry.EmptyIsGood();
    var none := TabRegistry.Sync(TabRegistry.Empty, {});
    var d3 := Restarted(d2, none);
    Continue(c, ds, evs, Restart({}), d3);
    SyncFour(TabRegistry.Empty, {});
    SyncFour(none, {tid});
    var reg := TabRegistry.Sync(none, {tid});
    assert reg.short == map[tid := short];
    var d4 := Daemon(reg, map[], d2.logged, 1, [], 0);
    assert d2.logged + d2.pending == d2.logged;
    Continue(c, ds + [d3], evs + [Restart({})], SyncTo({tid}), d4);
    ds, evs := ds + [d3] + [d4], evs + [Restart({})] + [SyncTo({tid})];
  }

  lemma NoneCompatible()
    ensures TabRegistry.Compatible({}) && TabRegistry.FourDistinct({})
  {
  }

  lemma SyncFour(reg: TabRegistry.Reg, present: set<Str>)
    requires TabRegistry.Inv(reg) && TabRegistry.AllLastFour(reg)
    requires TabRegistry.Compatible(present) && TabRegistry.FourDistinct(present)
    ensures var r := TabRegistry.Sync(reg, present);
            && TabRegistry.Inv(r) && TabRegistry.AllLastFour(r) && r.short.Keys == present
            && forall t :: t in present ==> r.short[t] == TabRegistry.LastFour(t)
  {
    hide TabRegistry.HexDigits, TabRegistry.Inv, TabRegistry.Sync, TabRegistry.LastFour;
    TabRegistry.StepKeeps(reg, TabRegistry.SyncTo(present));
    TabRegistry.StepLastFour(reg, TabRegistry.SyncTo(present));
  }

  lemma MissedTabInv(c: Codec, ds: seq<Daemon>, evs: seq<Event>)
    requires Run(c, ds, evs) && |evs| == 4 && evs[0].NewTab? && evs[1] == Write && evs[2].Restart? && evs[3].SyncTo?
    ensures Inv(c, ds[4])
  {
    hide Inv, Step;
    assert forall i :: 0 <= i < 4 ==> Harmless(c, ds[i], evs[i]);
    RunsKeepLogBehind(c, ds, evs, 4);
  }

  /** The same daemon with a renewal of that tab still queued. */
  lemma RenewedTab(c: Codec, tid: Str) returns (ds: seq<Daemon>, evs: seq<Event>, short: Str)
    requires |TabRegistry.HexDigits(tid)| >= TabRegistry.MIN_SHORT
    ensures Run(c, ds, evs) && |ds| == 6 && |evs| == 5 && Inv(c, ds[5])
    ensures var d := ds[5];
            && TabRegistry.Inv(d.reg) && d.reg.short == map[tid := short] && d.clocks == map[]
            && d.logged == [Note(TAB_NEW, short, 0)] && d.since == 1
            && d.pending == [Note("goto", short, 100)] && d.clock == 100
            && short != [] && TrimSpace(short) == short
  {
    hide TrimSpace, TabRegistry.HexDigits, TabRegistry.Inv, Inv, Behind, ReadingHarmless;
    ds, evs, short := MissedTab(c, tid);
    var d := ds[4];
    var rec := Note("goto", short, 100);
    var d5 := d.(pending := [rec], clock := 100);
    assert d.pending + [rec] == [rec] && Touched(d.reg, d.clocks, short, 100) == d.clocks;
    Continue(c, ds, evs, Rpc(short, rec, 100), d5);
    MissedTabInv(c, ds, evs);
    hide Run;
    RpcKeepsInvIff(c, d, short, rec, 100, d5);
    ds, evs := ds + [d5], evs + [Rpc(short, rec, 100)];
  }

  /** A reconcile that read the log when it had one record restores the tab with the clamped time of that
      record; the renewal it did not read is later. */
  lemma OldReading(c: Codec, ds: seq<Daemon>, evs: seq<Event>, tid: Str, short: Str)
    returns (after: seq<Daemon>, more: seq<Event>)
    requires |ds| == |evs| + 1 && Run(c, ds, evs) && Inv(c, ds[|evs|])
    requires var d := ds[|evs|];
             && d.reg.short == map[tid := short] && d.clocks == map[] && d.since == 1 && |d.logged| >= 1
             && d.logged[0] == Note(TAB_NEW, short, 0) && Unread(d, 1) == [Note("goto", short, 100)]
             && short != [] && TrimSpace(short) == short
    ensures Run(c, after, more) && |after| == |more| + 1 == |evs| + 2
    ensures more == evs + [Reconcile({tid}, 1, 100, 50, 10)]
    ensures after[|evs|] == ds[|evs|] && !Inv(c, after[|more|])
  {
    hide TrimSpace, TabRegistry.HexDigits, TabRegistry.Inv, Behind, ReadingHarmless, EffectiveTab, Fold, Recorded;
    var d := ds[|evs|];
    var e := d.(clocks := map[tid := 60]);
    OneLoaded(c, d, short);
    InverseAt(d.reg, tid);
    OneReconciled(d.reg, tid, short);
    hide Inv;
    Continue(c, ds, evs, Reconcile({tid}, 1, 100, 50, 10), e);
    UnreadRenewal(c, d, tid, short);
    ReconcileKeepsInvIff(c, d, {tid}, 1, 100, 50, 10, e);
    hide Run;
    after, more := ds + [e], evs + [Reconcile({tid}, 1, 100, 50, 10)];
  }

  /** A reconcile while a renewal is still queued: the renewal, written later, puts the log ahead of memory. */
  lemma QueuePutsLogAhead(c: Codec, tid: Str) returns (ds: seq<Daemon>, evs: seq<Event>)
    requires |TabRegistry.HexDigits(tid)| >= TabRegistry.MIN_SHORT
    ensures Run(c, ds, evs) && |evs| == 6 && Inv(c, ds[5]) && !Inv(c, ds[6])
    ensures evs[5] == Reconcile({tid}, 1, 100, 50, 10) && |ds[5].pending| == 1
  {
    hide TrimSpace, TabRegistry.HexDigits, TabRegistry.Inv, Inv, Run;
    var short;
    ds, evs, short := RenewedTab(c, tid);
    assert Unread(ds[5], 1) == ds[5].pending;
    ds, evs := OldReading(c, ds, evs, tid, short);
    assert evs[5] == Reconcile({tid}, 1, 100, 50, 10);
  }

  /** A reconcile whose reading of the log is older than a renewal that has been written since: nothing is
      queued, and still the log is ahead of memory. */
  lemma OldReadingPutsLogAhead(c: Codec, tid: Str) returns (ds: seq<Daemon>, evs: seq<Event>)
    requires |TabRegistry.HexDigits(tid)| >= TabRegistry.MIN_SHORT
    ensures Run(c, ds, evs) && |evs| == 7 && Inv(c, ds[6]) && !Inv(c, ds[7])
    ensures evs[6] == Reconcile({tid}, 1, 100, 50, 10) && ds[6].pending == []
  {
    hide TrimSpace, TabRegistry.HexDigits, TabRegistry.Inv, Inv, Behind, Recorded;
    var short;
    ds, evs, short := RenewedTab(c, tid);
    var d := ds[5];
    var e := d.(logged := d.logged + [d.pending[0]], pending := []);
    assert d.pending[1..] == [];
    Continue(c, ds, evs, Write, e);
    StepKeepsInvIff(c, d, Write, e);
    hide Run;
    assert Unread(e, 1) == [Note("goto", short, 100)];
    ds, evs := OldReading(c, ds + [e], evs + [Write], tid, short);
  }

  /** The missed tab has gone as well. */
  lemma GoneTab(c: Codec, tid: Str) returns (ds: seq<Daemon>, evs: seq<Event>)
    requires |TabRegistry.HexDigits(tid)| >= TabRegistry.MIN_SHORT
    ensures Run(c, ds, evs) && |ds| == 6 && |evs| == 5 && Inv(c, ds[5]) && evs[4] == Gone(tid)
    ensures tid !in ds[5].reg.short && tid !in ds[5].clocks
  {
    hide TrimSpace, TabRegistry.HexDigits, TabRegistry.Inv, Inv, Behind, Recorded;
    var short;
    ds, evs, short := MissedTab(c, tid);
    MissedTabInv(c, ds, evs);
    var d := ds[4];
    var e := d.(reg := TabRegistry.Remove(d.reg, tid), clocks := d.clocks - {tid});
    Continue(c, ds, evs, Gone(tid), e);
    hide Run;
    StepKeepsInvIff(c, d, Gone(tid), e);
    ds, evs := ds + [e], evs + [Gone(tid)];
  }

  /** A mark whose target went away after it was looked up: the tab is tracked though it is gone. */
  lemma LateMarkTracksTheGone(c: Codec, tid: Str, at: int) returns (ds: seq<Daemon>, evs: seq<Event>)
    requires |TabRegistry.HexDigits(tid)| >= TabRegistry.MIN_SHORT
    ensures Run(c, ds, evs) && |ds| == 7 && |evs| == 6 && Inv(c, ds[5]) && !Inv(c, ds[6])
    ensures evs[4] == Gone(tid) && evs[5] == Mark(tid, at) && tid !in ds[6].reg.short && tid in ds[6].clocks
  {
    hide TrimSpace, TabRegistry.Inv, Inv, Behind, Recorded, Owed;
    ds, evs := GoneTab(c, tid);
    assert tid != [];
    hide TabRegistry.HexDigits;
    var d := ds[5];
    var e := d.(clocks := d.clocks[tid := at]);
    Continue(c, ds, evs, Mark(tid, at), e);
    hide Run;
    MarkKeepsInvIff(c, d, tid, at, e);
    ds, evs := ds + [e], evs + [Mark(tid, at)];
  }

  lemma OneReconciled(reg: TabRegistry.Reg, tid: Str, short: Str)
    requires short != [] && TrimSpace(short) == short && short in reg.target && reg.target[short] == tid
    ensures Reconciled(map[], map[tid := 60], reg, map[short := 0], {tid}, 60)
  {
    hide TrimSpace;
    assert Names(reg, {tid}, short, tid);
    assert Gives(reg, map[short := 0], {tid}, 60, short, tid, 60);
  }

  lemma OneLoaded(c: Codec, d: Daemon, short: Str)
    requires |d.logged| >= 1 && d.logged[0] == Note(TAB_NEW, short, 0) && short != []
    ensures Loaded(c, d, 1) == map[short := 0]
  {
    assert d.logged[..1] == [d.logged[0]];
    FoldOne(c, map[], Note(TAB_NEW, short, 0));
  }

  lemma UnreadRenewal(c: Codec, d: Daemon, tid: Str, short: Str)
    requires d.reg.short == map[tid := short] && d.clocks == map[] && short != [] && |d.logged| >= 1
    requires Loaded(c, d, 1) == map[short := 0] && Unread(d, 1) == [Note("goto", short, 100)]
    ensures !ReadingHarmless(c, d, {tid}, 1, 60)
  {
    assert LastRenewal(c, Unread(d, 1), short, 0);
    assert !Undisturbed(c, Unread(d, 1), short, 60);
  }

  // ---- A target adopted ------------------------------------------------------------------------

  /** An idle close has left a tab in the log. */
  lemma ClosedTab(c: Codec, closed: Str) returns (ds: seq<Daemon>, evs: seq<Event>, short: Str)
    requires |TabRegistry.HexDigits(closed)| >= TabRegistry.MIN_SHORT
    ensures Run(c, ds, evs) && |ds| == 4 && |evs| == 3
    ensures evs[0].NewTab? && evs[0].tid == closed && evs[1] == Write && evs[2] == Gone(closed)
    ensures var d := ds[3];
            && TabRegistry.Inv(d.reg) && d.reg.short == map[] && TabRegistry.AllLastFour(d.reg) && d.clocks == map[]
            && d.logged == [Note(TAB_NEW, short, 0)] && d.since == 0 && d.pending == []
            && short != [] && TrimSpace(short) == short && short == TabRegistry.LastFour(closed)
  {
    hide TrimSpace, TabRegistry.HexDigits, TabRegistry.Inv, TabRegistry.LastFour, TabRegistry.Remove,
         TabRegistry.Compatible, TabRegistry.FourDistinct, TabRegistry.AllLastFour;
    ds, evs, short := WrittenTab(c, closed);
    var d := ds[2];
    var e := d.(reg := TabRegistry.Remove(d.reg, closed), clocks := d.clocks - {closed});
    Continue(c, ds, evs, Gone(closed), e);
    EmptiedRegistry(d.reg, closed);
    ds, evs := ds + [e], evs + [Gone(closed)];
  }

  /** And another target, never opened by the daemon, has its short id. */
  lemma ReusedShort(c: Codec, closed: Str, stranger: Str)
    returns (ds: seq<Daemon>, evs: seq<Event>, short: Str)
    requires |TabRegistry.HexDigits(closed)| >= TabRegistry.MIN_SHORT && closed != stranger
    requires |TabRegistry.HexDigits(stranger)| >= TabRegistry.MIN_SHORT
    requires TabRegistry.LastFour(closed) == TabRegistry.LastFour(stranger)
    ensures Run(c, ds, evs) && |ds| == 5 && |evs| == 4
    ensures evs[0].NewTab? && evs[0].tid == closed
    ensures evs[1] == Write && evs[2] == Gone(closed) && evs[3] == SyncTo({stranger})
    ensures var d := ds[4];
            && TabRegistry.Inv(d.reg) && d.reg.short == map[stranger := short] && d.clocks == map[]
            && d.logged == [Note(TAB_NEW, short, 0)] && d.since == 0 && d.pending == []
            && short != [] && TrimSpace(short) == short
  {
    hide TrimSpace, TabRegistry.HexDigits, TabRegistry.Inv, TabRegistry.LastFour, TabRegistry.Sync,
         TabRegistry.Compatible, TabRegistry.FourDistinct, TabRegistry.AllLastFour;
    ds, evs, short := ClosedTab(c, closed);
    var d := ds[3];
    SoleTarget(stranger);
    SyncFour(d.reg, {stranger});
    var e := d.(reg := TabRegistry.Sync(d.reg, {stranger}));
    Continue(c, ds, evs, SyncTo({stranger}), e);
    assert e.reg.short == map[stranger := short];
    ds, evs := ds + [e], evs + [SyncTo({stranger})];
  }

  /** A reconcile tracks a target the daemon never opened: the log still has a tab whose idle close left no
      record, and the target holds its short id now. */
  lemma ReconcileAdopts(c: Codec, closed: Str, stranger: Str) returns (ds: seq<Daemon>, evs: seq<Event>)
    requires |TabRegistry.HexDigits(closed)| >= TabRegistry.MIN_SHORT && closed != stranger
    requires |TabRegistry.HexDigits(stranger)| >= TabRegistry.MIN_SHORT
    requires TabRegistry.LastFour(closed) == TabRegistry.LastFour(stranger)
    ensures Run(c, ds, evs) && |ds| == 6 && |evs| == 5 && stranger in ds[5].clocks
    ensures forall i :: 0 <= i < |evs| && evs[i].NewTab? ==> evs[i].tid != stranger
  {
    hide TrimSpace, TabRegistry.HexDigits, TabRegistry.Inv, TabRegistry.LastFour, Run;
    var short;
    ds, evs, short := ReusedShort(c, closed, stranger);
    var d := ds[4];
    OneLoaded(c, d, short);
    InverseAt(d.reg, stranger);
    OneReconciled(d.reg, stranger, short);
    var ev, e := Reconcile({stranger}, 1, 100, 50, 10), d.(clocks := map[stranger := 60]);
    Continue(c, ds, evs, ev, e);
    ds, evs := ds + [e], evs + [ev];
  }

  lemma EmptiedRegistry(reg: TabRegistry.Reg, tid: Str)
    requires TabRegistry.Inv(reg) && reg.short.Keys == {tid}
    ensures var r := TabRegistry.Remove(reg, tid);
            TabRegistry.Inv(r) && r.short == map[] && TabRegistry.AllLastFour(r)
  {
    hide TabRegistry.HexDigits, TabRegistry.IsSuffix;
    TabRegistry.RemoveKeeps(reg, tid);
  }

  lemma SoleTarget(tid: Str)
    requires |TabRegistry.HexDigits(tid)| >= TabRegistry.MIN_SHORT
    ensures TabRegistry.Compatible({tid}) && TabRegistry.FourDistinct({tid})
  {
    hide TabRegistry.HexDigits;
  }
}
