/** The idle clocks against the log: what a restart restores, and when a restored tab expires. */
module TabRecovery {
  import opened Bytes
  import opened RpcLog
  import opened TabIdle
  import TabRegistry

  /** `logged` is in the log; its first `since` records were there when this process opened it. `pending` has
      the records of finished calls that are not in the log yet, in completion order: queued, or still with a
      handler that has renewed its tab and not yet queued them. No event so far happened after `clock`. */
  datatype Daemon = Daemon(
    reg: TabRegistry.Reg, clocks: Clocks, logged: seq<LogRecord>, since: nat, pending: seq<LogRecord>, clock: int)

  /** The log's map as it was when the log had `read` records. */
  function Loaded(c: Codec, d: Daemon, read: nat): Managed
    requires read <= |d.logged|
  {
    Fold(c, map[], d.logged[..read])
  }

  /** The records the log got since then, or has yet to get. */
  function Unread(d: Daemon, read: nat): seq<LogRecord>
    requires read <= |d.logged|
  {
    d.logged[read..] + d.pending
  }

  /** What replay restores once the queue has been written. */
  function Owed(c: Codec, d: Daemon): Managed {
    Fold(c, map[], d.logged + d.pending)
  }

  /** Rpc is any successful call that renews a tab; `asked` is the tab id the renewal looks up in memory,
      which a focus call may give as another than its record carries. Gone is an idle close or a close
      outside the daemon. Reconcile marks what the log's map names, as read when the log had `read` records and
      clamped for the time `at`, both of which may be past; a reconcile whose marks others interleave is several
      such events, one for the targets of each stretch. Mark is a single mark by a call whose lookup or
      registration of the target is past as well. */
  datatype Event =
    | NewTab(tid: Str, rec: LogRecord, now: int)
    | Rpc(asked: Str, rec: LogRecord, now: int)
    | CloseTab(asked: Str, rec: LogRecord, now: int)
    | Passive(rec: LogRecord)
    | Gone(tid: Str)
    | SyncTo(present: set<Str>)
    | Write
    | Reconcile(present: set<Str>, read: nat, at: int, timeout: int, grace: int)
    | Mark(tid: Str, at: int)
    | Restart(present: set<Str>)

  function Touched(reg: TabRegistry.Reg, clocks: Clocks, asked: Str, now: int): Clocks {
    var short := TrimSpace(asked);
    if short != [] && short in reg.target && reg.target[short] in clocks then clocks[reg.target[short] := now]
    else clocks
  }

  function Restarted(d: Daemon, reg: TabRegistry.Reg): Daemon {
    Daemon(reg, map[], d.logged + d.pending, |d.logged + d.pending|, [], d.clock)
  }

  /** A record was made at its request's arrival, so never after the event that completes it. */
  predicate Timely(d: Daemon, rec: LogRecord, now: int) {
    d.clock <= now && rec.time <= now && rec.ok
  }

  ghost predicate Step(c: Codec, d: Daemon, ev: Event, e: Daemon) {
    match ev
    case NewTab(tid, rec, now) =>
      var short := TabRegistry.ShortOf(d.reg, tid);
      && TabRegistry.Compatible(d.reg.short.Keys + {tid}) && Timely(d, rec, now)
      && rec.action == TAB_NEW && EffectiveTab(c, rec) == short
      && e == d.(reg := TabRegistry.Assign(d.reg, tid), clocks := d.clocks[tid := now],
                 pending := d.pending + [rec], clock := now)
    case Rpc(asked, rec, now) =>
      && Timely(d, rec, now)
      && rec.action in TAB_METHODS - {TAB_NEW, TAB_CLOSE, TAB_LIST}
      && e == d.(clocks := Touched(d.reg, d.clocks, asked, now), pending := d.pending + [rec], clock := now)
    case CloseTab(asked, rec, now) =>
      var short := TrimSpace(asked);
      && Timely(d, rec, now) && rec.action == TAB_CLOSE && short != [] && short in d.reg.target
      && TrimSpace(EffectiveTab(c, rec)) == short
      && e == d.(reg := TabRegistry.Remove(d.reg, d.reg.target[short]), clocks := d.clocks - {d.reg.target[short]},
                 pending := d.pending + [rec], clock := now)
    case Passive(rec) =>
      && (!rec.ok || rec.action !in TAB_METHODS || rec.action == TAB_LIST)
      && e == d.(pending := d.pending + [rec])
    case Gone(tid) =>
      e == d.(reg := TabRegistry.Remove(d.reg, tid), clocks := d.clocks - {tid})
    case SyncTo(present) =>
      && TabRegistry.Compatible(present)
      && e == d.(reg := TabRegistry.Sync(d.reg, present),
                 clocks := map t | t in d.clocks && t in present :: d.clocks[t])
    case Write =>
      d.pending != [] && e == d.(logged := d.logged + [d.pending[0]], pending := d.pending[1..])
    case Reconcile(present, read, at, timeout, grace) =>
      && d.since <= read <= |d.logged| && e == d.(clocks := e.clocks)
      && Reconciled(d.clocks, e.clocks, d.reg, Loaded(c, d, read), present, MinLast(at, timeout, grace))
    case Mark(tid, at) =>
      e == d.(clocks := if tid in d.clocks || tid == [] then d.clocks else d.clocks[tid := at])
    case Restart(present) =>
      TabRegistry.Compatible(present) && e == Restarted(d, TabRegistry.Sync(TabRegistry.Empty, present))
  }

  /** The targets an event stops tracking: one that is closed or gone, those a sync no longer lists, and all of them
      at a restart. */
  ghost predicate Untracks(d: Daemon, ev: Event, tid: Str) {
    match ev
    case CloseTab(asked, _, _) => TrimSpace(asked) in d.reg.target && tid == d.reg.target[TrimSpace(asked)]
    case Gone(gone) => tid == gone
    case SyncTo(present) => tid !in present
    case Restart(_) => true
    case _ => false
  }

  /** The targets whose clock an event sets to its own time. */
  ghost predicate Renews(d: Daemon, ev: Event, tid: Str) {
    match ev
    case NewTab(made, _, _) => tid == made
    case Rpc(asked, _, _) =>
      tid in d.clocks && TrimSpace(asked) in d.reg.target && tid == d.reg.target[TrimSpace(asked)]
    case _ => false
  }

  /** Only a new tab, a reconcile or a mark starts tracking a target, only the events above stop it, and a tracked
      clock moves only when it is renewed, to the time of the call. */
  lemma ClocksMove(c: Codec, d: Daemon, ev: Event, e: Daemon, tid: Str)
    requires Step(c, d, ev, e) && [] !in d.reg.target
    ensures tid in d.clocks ==> (tid in e.clocks <==> !Untracks(d, ev, tid))
    ensures tid !in d.clocks && tid in e.clocks ==>
              (ev.NewTab? && ev.tid == tid) || ev.Reconcile? || (ev.Mark? && ev.tid == tid && e.clocks[tid] == ev.at)
    ensures Renews(d, ev, tid) ==> tid in e.clocks && e.clocks[tid] == ev.now
    ensures tid in d.clocks && tid in e.clocks && !Renews(d, ev, tid) ==> e.clocks[tid] == d.clocks[tid]
  {
    hide Fold, TrimSpace, TabRegistry.Sync, TabRegistry.Remove, TabRegistry.Assign, TabRegistry.Compatible,
         EffectiveTab;
  }

  /** Each call adds its record behind those finished before; writing moves the first of them to the log; nothing is
      lost and nothing else is added. */
  lemma RecordsMove(c: Codec, d: Daemon, ev: Event, e: Daemon)
    requires Step(c, d, ev, e)
    ensures ev.NewTab? || ev.Rpc? || ev.CloseTab? || ev.Passive? ==>
              e.logged == d.logged && e.pending == d.pending + [ev.rec]
    ensures ev.Write? ==> |e.logged| == |d.logged| + 1 && d.pending != [] && e.logged[|d.logged|] == d.pending[0]
    ensures !ev.NewTab? && !ev.Rpc? && !ev.CloseTab? && !ev.Passive? ==>
              d.logged <= e.logged && e.logged + e.pending == d.logged + d.pending
  {
    hide Fold, TrimSpace, TabRegistry.Sync, TabRegistry.Remove, TabRegistry.Assign, TabRegistry.Compatible,
         EffectiveTab, Reconciled;
  }

  // ---- The log stays behind memory -----------------------------------------------------

  /** Every tracked tab is in the log's map under its short id, with a time no later than memory's. */
  ghost predicate Behind(m: Managed, reg: TabRegistry.Reg, clocks: Clocks) {
    forall tid :: tid in clocks ==>
      tid in reg.short && reg.short[tid] in m && m[reg.short[tid]] <= clocks[tid]
  }

  ghost predicate Sound(m: Managed, clock: int) {
    forall short :: short in m ==> TrimSpace(short) == short && m[short] <= clock
  }

  /** A record that opens a tab carries the trimmed id, and none that counts is from the future. */
  predicate Recorded(c: Codec, r: LogRecord, clock: int) {
    r.ok && r.action in TAB_METHODS - {TAB_LIST} ==>
      r.time <= clock && (r.action == TAB_NEW ==> TrimSpace(EffectiveTab(c, r)) == EffectiveTab(c, r))
  }

  ghost predicate AllRecorded(c: Codec, rs: seq<LogRecord>, clock: int) {
    forall r :: r in rs ==> Recorded(c, r, clock)
  }

  ghost predicate Inv(c: Codec, d: Daemon) {
    && TabRegistry.Inv(d.reg)
    && Behind(Owed(c, d), d.reg, d.clocks)
    && AllRecorded(c, d.logged + d.pending, d.clock)
  }

  lemma {:induction false} RecordedSound(c: Codec, m: Managed, rs: seq<LogRecord>, clock: int)
    requires AllRecorded(c, rs, clock) && Sound(m, clock)
    ensures Sound(Fold(c, m, rs), clock)
    decreases |rs|
  {
    hide TrimSpace;
    if rs != [] {
      assert rs[0] in rs;
      RecordedSound(c, Apply(c, m, rs[0]), rs[1..], clock);
    }
  }

  /** The log's map, at any reading and once the queue is written, has trimmed ids and no time after the clock. */
  lemma InvSound(c: Codec, d: Daemon, read: nat)
    requires Inv(c, d) && read <= |d.logged|
    ensures Sound(Owed(c, d), d.clock) && Sound(Loaded(c, d, read), d.clock)
  {
    hide TrimSpace, TabRegistry.Inv, Behind, Recorded;
    RecordedSound(c, map[], d.logged + d.pending, d.clock);
    forall r | r in d.logged[..read] ensures r in d.logged + d.pending {}
    RecordedSound(c, map[], d.logged[..read], d.clock);
  }

  lemma RecordedMore(c: Codec, d: Daemon, rec: LogRecord, clock: int)
    requires AllRecorded(c, d.logged + d.pending, d.clock) && d.clock <= clock && Recorded(c, rec, clock)
    ensures AllRecorded(c, d.logged + (d.pending + [rec]), clock)
  {
    hide TrimSpace;
    forall r | r in d.logged + (d.pending + [rec]) ensures Recorded(c, r, clock) {
      assert r in d.logged + d.pending || r == rec;
    }
  }

  lemma OwedAfter(c: Codec, d: Daemon, rec: LogRecord)
    ensures Owed(c, d.(pending := d.pending + [rec])) == Apply(c, Owed(c, d), rec)
  {
    hide Apply;
    FoldAppend(c, map[], d.logged + d.pending, [rec]);
    assert d.logged + (d.pending + [rec]) == d.logged + d.pending + [rec];
    assert [rec][1..] == [];
  }

  lemma {:induction false} HexInert(s: Str)
    ensures forall i :: 0 <= i < |TabRegistry.HexDigits(s)| ==> Inert(TabRegistry.HexDigits(s)[i])
    decreases |s|
  {
    if s != [] { HexInert(s[1..]); }
  }

  /** Short ids have no white space at either end. */
  lemma ShortTrimmed(reg: TabRegistry.Reg, id: Str)
    requires TabRegistry.Inv(reg) && id in reg.short
    ensures reg.short[id] != [] && TrimSpace(reg.short[id]) == reg.short[id]
  {
    hide TabRegistry.HexDigits, TrimSpace;
    var short, hex := reg.short[id], TabRegistry.HexDigits(id);
    HexInert(id);
    assert short[0] == hex[|hex| - |short|] && short[|short| - 1] == hex[|hex| - 1];
    InertEnds(short);
    TrimSpaceIsProjection(short);
  }

  lemma NewTabKeeps(m: Managed, reg: TabRegistry.Reg, clocks: Clocks, tid: Str, at: int, now: int, clock: int)
    requires TabRegistry.Inv(reg) && Behind(m, reg, clocks) && Sound(m, clock) && clock <= now && at <= now
    requires TabRegistry.Compatible(reg.short.Keys + {tid})
    ensures var short := TabRegistry.ShortOf(reg, tid); var r := TabRegistry.Assign(reg, tid);
            TabRegistry.Inv(r) && short != [] && TrimSpace(short) == short
            && Behind(m[short := at], r, clocks[tid := now])
  {
    hide TabRegistry.NewShort, TabRegistry.Assign, TrimSpace, TabRegistry.HexDigits, TabRegistry.Compatible;
    TabRegistry.AssignKeeps(reg, tid);
    ShortTrimmed(TabRegistry.Assign(reg, tid), tid);
  }

  /** The renewal in memory misses a tracked tab that the record renews in the log, to a later time. */
  predicate Misdirected(m: Managed, reg: TabRegistry.Reg, clocks: Clocks, asked: Str, tab: Str, at: int) {
    && tab != [] && tab in m && tab != TrimSpace(asked)
    && tab in reg.target && reg.target[tab] in clocks && clocks[reg.target[tab]] < at
  }

  lemma RenewKeepsIff(
    m: Managed, reg: TabRegistry.Reg, clocks: Clocks, tab: Str, asked: Str, at: int, now: int, clock: int)
    requires TabRegistry.Inv(reg) && Behind(m, reg, clocks) && Sound(m, clock) && clock <= now && at <= now
    ensures var n := if tab != [] && tab in m then m[tab := at] else m;
            Behind(n, reg, Touched(reg, clocks, asked, now)) <==> !Misdirected(m, reg, clocks, asked, tab, at)
  {
    hide TrimSpace, TabRegistry.HexDigits, TabRegistry.IsSuffix;
    var after := Touched(reg, clocks, asked, now);
    if tab in m && tab in reg.target && reg.target[tab] in clocks {
      assert reg.short[reg.target[tab]] == tab && reg.target[tab] in after;
      assert tab != TrimSpace(asked) ==> after[reg.target[tab]] == clocks[reg.target[tab]];
    }
  }

  lemma CloseKeeps(m: Managed, reg: TabRegistry.Reg, clocks: Clocks, tab: Str, asked: Str, clock: int)
    requires TabRegistry.Inv(reg) && Behind(m, reg, clocks) && Sound(m, clock)
    requires TrimSpace(tab) == TrimSpace(asked) && TrimSpace(asked) in reg.target
    ensures var tid := reg.target[TrimSpace(asked)]; var r := TabRegistry.Remove(reg, tid);
            TabRegistry.Inv(r) && Behind(m - {tab}, r, clocks - {tid})
  {
    hide TrimSpace, TabRegistry.HexDigits, TabRegistry.Remove;
    var tid := reg.target[TrimSpace(asked)];
    TabRegistry.RemoveKeeps(reg, tid);
    RemoveRest(reg, tid);
    forall t | t in clocks - {tid} ensures reg.short[t] != tab {
      assert reg.short[t] in m;
      assert t == reg.target[reg.short[t]];
    }
  }

  lemma RemoveRest(reg: TabRegistry.Reg, tid: Str)
    ensures forall t :: t in reg.short && t != tid ==>
              t in TabRegistry.Remove(reg, tid).short && TabRegistry.Remove(reg, tid).short[t] == reg.short[t]
  {
  }

  /** What a reconcile adds: the untracked present targets whose short ids the log has, with clamped times. */
  lemma ReconcileAdds(
    m: Managed, reg: TabRegistry.Reg, clocks: Clocks, after: Clocks, present: set<Str>, floor: int, tid: Str)
    requires TabRegistry.Inv(reg) && Reconciled(clocks, after, reg, m, present, floor)
    requires forall short :: short in m ==> TrimSpace(short) == short
    ensures tid in after && tid !in clocks <==>
            tid in present && tid !in clocks && tid in reg.short && reg.short[tid] in m
    ensures tid in after && tid !in clocks ==> after[tid] == Clamp(m[reg.short[tid]], floor)
  {
    hide TrimSpace, TabRegistry.HexDigits, TabRegistry.IsSuffix;
    if tid in after && tid !in clocks {
      var short :| Gives(reg, m, present, floor, short, tid, after[tid]);
      assert TrimSpace(short) == short && reg.short[tid] == short;
    }
    if tid in present && tid !in clocks && tid in reg.short && reg.short[tid] in m {
      ShortTrimmed(reg, tid);
      assert Names(reg, present, reg.short[tid], tid);
    }
  }

  /** A reconcile from an older log keeps a newer one behind memory exactly when the newer one still has each
      added tab, with a time no later than the one the reconcile gives it. */
  lemma ReconcileKeepsIff(
    loaded: Managed, owed: Managed, reg: TabRegistry.Reg, clocks: Clocks, after: Clocks, present: set<Str>, floor: int)
    requires TabRegistry.Inv(reg) && Behind(owed, reg, clocks)
    requires forall short :: short in loaded ==> TrimSpace(short) == short
    requires Reconciled(clocks, after, reg, loaded, present, floor)
    ensures Behind(owed, reg, after) <==>
            forall tid :: tid in present && tid !in clocks && tid in reg.short && reg.short[tid] in loaded ==>
              reg.short[tid] in owed && owed[reg.short[tid]] <= Clamp(loaded[reg.short[tid]], floor)
  {
    hide TrimSpace, TabRegistry.Inv;
    forall tid
      ensures tid in after && tid !in clocks <==>
              tid in present && tid !in clocks && tid in reg.short && reg.short[tid] in loaded
      ensures tid in after && tid !in clocks ==> after[tid] == Clamp(loaded[reg.short[tid]], floor)
    {
      ReconcileAdds(loaded, reg, clocks, after, present, floor, tid);
    }
  }

  /** The records leave alone what a reconcile restores: none closes the restored tab for good, and the last
      that renews it does so no later than the clock the reconcile gives it. */
  ghost predicate Undisturbed(c: Codec, unread: seq<LogRecord>, short: Str, given: int) {
    && StaysOpen(c, unread, short)
    && forall i: nat :: LastRenewal(c, unread, short, i) ==> unread[i].time <= given
  }

  /** Every untracked target that the reconcile's reading of the log names is left alone by the records that
      reading did not have. */
  ghost predicate ReadingHarmless(c: Codec, d: Daemon, present: set<Str>, read: nat, floor: int)
    requires read <= |d.logged|
  {
    forall tid :: tid in present && tid in d.reg.short && tid !in d.clocks && d.reg.short[tid] in Loaded(c, d, read) ==>
      Undisturbed(c, Unread(d, read), d.reg.short[tid], Clamp(Loaded(c, d, read)[d.reg.short[tid]], floor))
  }

  lemma UndisturbedIff(c: Codec, m: Managed, queued: seq<LogRecord>, short: Str, floor: int)
    requires short != [] && short in m
    ensures var f := Fold(c, m, queued); var given := Clamp(m[short], floor);
            Undisturbed(c, queued, short, given) <==> short in f && f[short] <= given
  {
    hide StaysOpen, Fold;
    FoldOver(c, m, queued, short);
    var f := Fold(c, m, queued);
    if short in f {
      if i: nat :| LastRenewal(c, queued, short, i) && f[short] == queued[i].time {
        forall j: nat | LastRenewal(c, queued, short, j) ensures j == i { OneLastRenewal(c, queued, short, i, j); }
      }
    }
  }

  lemma OneLastRenewal(c: Codec, rs: seq<LogRecord>, tab: Str, i: nat, j: nat)
    requires LastRenewal(c, rs, tab, i) && LastRenewal(c, rs, tab, j)
    ensures i == j
  {
  }

  lemma OwedSince(c: Codec, d: Daemon, read: nat)
    requires read <= |d.logged|
    ensures Owed(c, d) == Fold(c, Loaded(c, d, read), Unread(d, read))
  {
    hide Fold;
    FoldAppend(c, map[], d.logged[..read], Unread(d, read));
    assert d.logged[..read] + Unread(d, read) == d.logged + d.pending;
  }

  /** A reconcile keeps the log behind memory if and only if the records its reading of the log did not have
      leave alone what it restores. */
  lemma ReconcileKeepsInvIff(
    c: Codec, d: Daemon, present: set<Str>, read: nat, at: int, timeout: int, grace: int, e: Daemon)
    requires Inv(c, d) && Step(c, d, Reconcile(present, read, at, timeout, grace), e)
    ensures Inv(c, e) <==> ReadingHarmless(c, d, present, read, MinLast(at, timeout, grace))
  {
    hide Fold, TrimSpace, Undisturbed, Sound, Reconciled, TabRegistry.Inv, Behind, Recorded, Loaded, Owed, Unread;
    var floor := MinLast(at, timeout, grace);
    var loaded := Loaded(c, d, read);
    InvSound(c, d, read);
    SoundTrimmed(loaded, d.clock);
    OwedSince(c, d, read);
    ReconcileKeepsIff(loaded, Owed(c, d), d.reg, d.clocks, e.clocks, present, floor);
    OwedUnmoved(c, d, e);
    forall tid | tid in present && tid !in d.clocks && tid in d.reg.short && d.reg.short[tid] in loaded
      ensures var short := d.reg.short[tid]; var given := Clamp(loaded[short], floor);
              Undisturbed(c, Unread(d, read), short, given) <==> short in Owed(c, d) && Owed(c, d)[short] <= given
    {
      ShortTrimmed(d.reg, tid);
      UndisturbedIff(c, loaded, Unread(d, read), d.reg.short[tid], floor);
    }
  }

  lemma OwedUnmoved(c: Codec, d: Daemon, e: Daemon)
    requires e.logged == d.logged && e.pending == d.pending
    ensures Owed(c, e) == Owed(c, d)
  {
  }

  /** What a reconcile adopts: exactly the untracked registered targets of those listed whose short id some
      record it read opened and none closed since, whichever target that was for. */
  lemma ReconcileTracksIff(
    c: Codec, d: Daemon, present: set<Str>, read: nat, at: int, timeout: int, grace: int, e: Daemon, tid: Str)
    requires read <= |d.logged|
    requires Inv(c, d) && Step(c, d, Reconcile(present, read, at, timeout, grace), e)
    ensures tid in e.clocks <==>
            tid in d.clocks
            || (tid in present && tid in d.reg.short
                && exists i: nat :: LiveSince(c, d.logged[..read], d.reg.short[tid], i))
  {
    hide Fold, TrimSpace, Sound, Reconciled, TabRegistry.Inv, Behind, Recorded, LiveSince;
    InvSound(c, d, read);
    SoundTrimmed(Loaded(c, d, read), d.clock);
    ReconcileAdds(Loaded(c, d, read), d.reg, d.clocks, e.clocks, present, MinLast(at, timeout, grace), tid);
    TrackedStay(d.clocks, e.clocks, d.reg, Loaded(c, d, read), present, MinLast(at, timeout, grace));
    if tid in d.reg.short {
      ShortTrimmed(d.reg, tid);
      FoldMeaning(c, d.logged[..read], d.reg.short[tid]);
    }
  }

  lemma TrackedStay(
    before: Clocks, after: Clocks, reg: TabRegistry.Reg, loaded: map<Str, int>, present: set<Str>, floor: int)
    requires Reconciled(before, after, reg, loaded, present, floor)
    ensures before.Keys <= after.Keys
  {
    hide Gives, Names;
  }

  /** The log has a target that is registered, at a time no later than the mark. */
  ghost predicate Vouched(c: Codec, d: Daemon, tid: Str, at: int) {
    tid in d.reg.short && d.reg.short[tid] in Owed(c, d) && Owed(c, d)[d.reg.short[tid]] <= at
  }

  /** A single mark keeps the log behind memory if and only if it changes nothing or the log vouches for the
      target under the short id it has by then. */
  lemma MarkKeepsInvIff(c: Codec, d: Daemon, tid: Str, at: int, e: Daemon)
    requires Inv(c, d) && Step(c, d, Mark(tid, at), e)
    ensures Inv(c, e) <==> tid == [] || tid in d.clocks || Vouched(c, d, tid, at)
  {
    hide TabRegistry.Inv, Recorded, Owed;
    OwedUnmoved(c, d, e);
  }

  /** A renewal keeps the log behind memory if and only if it is not misdirected. */
  lemma RpcKeepsInvIff(c: Codec, d: Daemon, asked: Str, rec: LogRecord, now: int, e: Daemon)
    requires Inv(c, d) && Step(c, d, Rpc(asked, rec, now), e)
    ensures Inv(c, e) <==> !Misdirected(Owed(c, d), d.reg, d.clocks, asked, EffectiveTab(c, rec), rec.time)
  {
    hide Fold, TrimSpace, Sound, TabRegistry.Inv, Behind, Touched, EffectiveTab, Misdirected;
    InvSound(c, d, 0);
    OwedAfter(c, d, rec);
    RenewKeepsIff(Owed(c, d), d.reg, d.clocks, EffectiveTab(c, rec), asked, rec.time, now, d.clock);
    RecordedMore(c, d, rec, now);
    assert e.logged + e.pending == d.logged + (d.pending + [rec]);
  }

  /** The events that can put the log ahead of memory, when they do not. */
  ghost predicate Harmless(c: Codec, d: Daemon, ev: Event) {
    match ev
    case Rpc(asked, rec, now) =>
      !Misdirected(Owed(c, d), d.reg, d.clocks, asked, EffectiveTab(c, rec), rec.time)
    case Reconcile(present, read, at, timeout, grace) =>
      read <= |d.logged| ==> ReadingHarmless(c, d, present, read, MinLast(at, timeout, grace))
    case Mark(tid, at) => tid == [] || tid in d.clocks || Vouched(c, d, tid, at)
    case _ => true
  }

  /** An event keeps the log behind memory if and only if it is harmless. */
  lemma StepKeepsInvIff(c: Codec, d: Daemon, ev: Event, e: Daemon)
    requires Inv(c, d) && Step(c, d, ev, e)
    ensures Inv(c, e) <==> Harmless(c, d, ev)
  {
    hide Inv, Misdirected, ReadingHarmless, Vouched, Reconciled, Fold, TrimSpace, TabRegistry.Assign,
         TabRegistry.Sync, TabRegistry.Remove, TabRegistry.Compatible, Touched;
    match ev
    case Rpc(asked, rec, now) => RpcKeepsInvIff(c, d, asked, rec, now, e);
    case Reconcile(present, read, at, timeout, grace) =>
      ReconcileKeepsInvIff(c, d, present, read, at, timeout, grace, e);
    case Mark(tid, at) => MarkKeepsInvIff(c, d, tid, at, e);
    case NewTab(tid, rec, now) => NewTabKeepsInv(c, d, tid, rec, now, e);
    case CloseTab(asked, rec, now) => CloseKeepsInv(c, d, asked, rec, now, e);
    case _ => OtherKeepsInv(c, d, ev, e);
  }

  lemma NewTabKeepsInv(c: Codec, d: Daemon, tid: Str, rec: LogRecord, now: int, e: Daemon)
    requires Inv(c, d) && Step(c, d, NewTab(tid, rec, now), e)
    ensures Inv(c, e)
  {
    hide Fold, TrimSpace, TabRegistry.Assign, TabRegistry.Compatible, TabRegistry.NewShort, Behind, Sound,
         TabRegistry.Inv;
    InvSound(c, d, 0);
    OwedAfter(c, d, rec);
    NewTabKeeps(Owed(c, d), d.reg, d.clocks, tid, rec.time, now, d.clock);
    RecordedMore(c, d, rec, now);
  }

  lemma CloseKeepsInv(c: Codec, d: Daemon, asked: Str, rec: LogRecord, now: int, e: Daemon)
    requires Inv(c, d) && Step(c, d, CloseTab(asked, rec, now), e)
    ensures Inv(c, e)
  {
    hide Fold, TrimSpace, TabRegistry.Remove, Behind, Sound, TabRegistry.Inv;
    InvSound(c, d, 0);
    OwedAfter(c, d, rec);
    TrimSpaceIsProjection([]);
    CloseKeeps(Owed(c, d), d.reg, d.clocks, EffectiveTab(c, rec), asked, d.clock);
    RecordedMore(c, d, rec, now);
  }

  lemma OtherKeepsInv(c: Codec, d: Daemon, ev: Event, e: Daemon)
    requires Inv(c, d) && Step(c, d, ev, e) && (ev.Passive? || ev.Gone? || ev.SyncTo? || ev.Write? || ev.Restart?)
    ensures Inv(c, e)
  {
    hide Fold, TrimSpace, TabRegistry.Sync, TabRegistry.Remove, TabRegistry.Compatible, Behind, TabRegistry.Inv;
    match ev
    case Passive(rec) =>
      OwedAfter(c, d, rec);
      RecordedMore(c, d, rec, d.clock);
    case Gone(tid) => GoneKeeps(Owed(c, d), d.reg, d.clocks, tid);
    case SyncTo(present) => SyncKeeps(Owed(c, d), d.reg, d.clocks, present);
    case Write => assert d.logged + [d.pending[0]] + d.pending[1..] == d.logged + d.pending;
    case Restart(present) =>
      assert d.logged + d.pending + [] == d.logged + d.pending;
      RestartKeeps(Owed(c, d), present);
  }

  lemma RestartKeeps(m: Managed, present: set<Str>)
    requires TabRegistry.Compatible(present)
    ensures var r := TabRegistry.Sync(TabRegistry.Empty, present);
            TabRegistry.Inv(r) && r.short.Keys == present && Behind(m, r, map[])
  {
    hide TabRegistry.HexDigits, TabRegistry.Sync, TabRegistry.Compatible;
    SyncKeeps(m, TabRegistry.Empty, map[], present);
  }

  lemma SoundTrimmed(m: Managed, clock: int)
    requires Sound(m, clock)
    ensures forall short :: short in m ==> TrimSpace(short) == short
  {
    hide TrimSpace;
  }

  lemma GoneKeeps(m: Managed, reg: TabRegistry.Reg, clocks: Clocks, tid: Str)
    requires TabRegistry.Inv(reg) && Behind(m, reg, clocks)
    ensures TabRegistry.Inv(TabRegistry.Remove(reg, tid)) && Behind(m, TabRegistry.Remove(reg, tid), clocks - {tid})
  {
    hide TabRegistry.HexDigits, TabRegistry.Remove, TabRegistry.Inv;
    TabRegistry.RemoveKeeps(reg, tid);
    RemoveRest(reg, tid);
  }

  lemma SyncKeeps(m: Managed, reg: TabRegistry.Reg, clocks: Clocks, present: set<Str>)
    requires TabRegistry.Compatible(present) && TabRegistry.Inv(reg) && Behind(m, reg, clocks)
    ensures var r := TabRegistry.Sync(reg, present);
            && TabRegistry.Inv(r) && r.short.Keys == present
            && Behind(m, r, map t | t in clocks && t in present :: clocks[t])
  {
    hide TabRegistry.HexDigits, TabRegistry.Sync, TabRegistry.Inv, TabRegistry.Compatible;
    TabRegistry.StepKeeps(reg, TabRegistry.SyncTo(present));
  }

  ghost predicate Run(c: Codec, ds: seq<Daemon>, evs: seq<Event>) {
    && |ds| == |evs| + 1
    && ds[0].reg == TabRegistry.Empty && ds[0].clocks == map[] && ds[0].logged == ds[0].pending == []
    && forall i :: 0 <= i < |evs| ==> Step(c, ds[i], evs[i], ds[i + 1])
  }

  /** Over every run from a fresh daemon and an empty log, restarts included, each tracked tab is in the log
      under its short id with a time no later than memory's, as long as every event was harmless. */
  lemma {:induction false} RunsKeepLogBehind(c: Codec, ds: seq<Daemon>, evs: seq<Event>, k: nat)
    requires Run(c, ds, evs) && k <= |evs|
    requires forall i :: 0 <= i < k ==> Harmless(c, ds[i], evs[i])
    ensures Inv(c, ds[k])
    decreases k
  {
    hide TrimSpace, Step, Harmless;
    if k > 0 {
      RunsKeepLogBehind(c, ds, evs, k - 1);
      StepKeepsInvIff(c, ds[k - 1], evs[k - 1], ds[k]);
    }
  }

  // ---- Expiry after a restart ---------------------------------------------------------------

  function Min(a: int, b: int): int {
    if a < b then a else b
  }

  function Max(a: int, b: int): int {
    if a < b then b else a
  }

  /** A tab tracked before a restart, present after it and then holding the same short id, is tracked again
      by the reconcile; it expires no earlier than the smaller of timeout and grace from then, and no later
      than that or its old expiry, whichever is later. */
  lemma RestoredExpiry(
    c: Codec, d: Daemon, d1: Daemon, d2: Daemon, present: set<Str>, read: nat, now: int, timeout: int, grace: int,
    tid: Str)
    requires Inv(c, d) && Step(c, d, Restart(present), d1)
    requires Step(c, d1, Reconcile(present, read, now, timeout, grace), d2)
    requires tid in d.clocks && tid in present && tid in d.reg.short && tid in d1.reg.short
    requires d1.reg.short[tid] == d.reg.short[tid]
    ensures tid in d2.clocks
    ensures now + Min(timeout, grace) <= d2.clocks[tid] + timeout
            <= Max(now + Min(timeout, grace), d.clocks[tid] + timeout)
  {
    hide Fold, TrimSpace, TabRegistry.Sync, TabRegistry.Compatible, TabRegistry.Inv, Behind, Sound, Reconciled;
    InvSound(c, d, 0);
    assert d1.logged[..read] == d.logged + d.pending;
    RestartKeeps(Owed(c, d), present);
    ClockRestored(
      Owed(c, d), d.reg, d.clocks, d.clock, d1.reg, d2.clocks, present, MinLast(now, timeout, grace), tid);
  }

  lemma ClockRestored(
    m: Managed, reg: TabRegistry.Reg, clocks: Clocks, clock: int, reg1: TabRegistry.Reg, after: Clocks,
    present: set<Str>, floor: int, tid: Str)
    requires Behind(m, reg, clocks) && Sound(m, clock) && tid in clocks && tid in present
    requires TabRegistry.Inv(reg1) && tid in reg1.short && reg1.short[tid] == reg.short[tid]
    requires Reconciled(map[], after, reg1, m, present, floor)
    ensures tid in after && after[tid] == Clamp(m[reg.short[tid]], floor) && m[reg.short[tid]] <= clocks[tid]
  {
    hide TrimSpace, TabRegistry.IsSuffix;
    var short := reg.short[tid];
    ShortTrimmed(reg1, tid);
    assert Names(reg1, present, short, tid);
    var s :| Gives(reg1, m, present, floor, s, tid, after[tid]);
    assert s == short;
  }

  /** Whatever a restart restores is left its grace. */
  lemma RestoredGrace(
    c: Codec, d: Daemon, d1: Daemon, d2: Daemon, present: set<Str>, read: nat, now: int, timeout: int, grace: int)
    requires Step(c, d, Restart(present), d1) && Step(c, d1, Reconcile(present, read, now, timeout, grace), d2)
    ensures forall tid :: tid in d2.clocks ==> now + Min(timeout, grace) <= d2.clocks[tid] + timeout
  {
    hide Fold, TrimSpace, TabRegistry.HexDigits, TabRegistry.Sync, TabRegistry.Compatible;
    forall tid | tid in d2.clocks ensures now + Min(timeout, grace) <= d2.clocks[tid] + timeout {
      var s :| Gives(d1.reg, Loaded(c, d1, read), present, MinLast(now, timeout, grace), s, tid, d2.clocks[tid]);
    }
  }

  // ---- When short ids survive a restart ------------------------------------------------------

  /** Over a run whose targets alive together differ in their last four hex digits, every short id is those
      digits: a restart gives each target that stays the short id it had. */
  lemma {:induction false} RunsKeepLastFour(c: Codec, ds: seq<Daemon>, evs: seq<Event>, k: nat)
    requires Run(c, ds, evs) && k <= |evs|
    requires forall i :: 0 <= i < |ds| ==> TabRegistry.FourDistinct(ds[i].reg.short.Keys)
    ensures TabRegistry.Inv(ds[k].reg) && TabRegistry.AllLastFour(ds[k].reg)
    decreases k
  {
    hide TrimSpace, TabRegistry.FourDistinct;
    if k > 0 {
      hide Step;
      RunsKeepLastFour(c, ds, evs, k - 1);
      assert Step(c, ds[k - 1], evs[k - 1], ds[k]);
      StepKeepsLastFour(c, ds[k - 1], evs[k - 1], ds[k]);
    }
  }

  lemma StepKeepsLastFour(c: Codec, d: Daemon, ev: Event, e: Daemon)
    requires TabRegistry.Inv(d.reg) && Step(c, d, ev, e)
    requires TabRegistry.AllLastFour(d.reg) && TabRegistry.FourDistinct(e.reg.short.Keys)
    ensures TabRegistry.Inv(e.reg) && TabRegistry.AllLastFour(e.reg)
  {
    hide TrimSpace, Fold, TabRegistry.HexDigits, TabRegistry.FourDistinct, TabRegistry.Compatible, TabRegistry.Inv,
         TabRegistry.AllLastFour, TabRegistry.Sync, TabRegistry.Assign, TabRegistry.Remove, TabRegistry.NewShort,
         Reconciled, Touched;
    match ev
    case NewTab(tid, rec, now) =>
      TabRegistry.StepLastFour(d.reg, TabRegistry.RegisterId(tid));
      TabRegistry.StepKeeps(d.reg, TabRegistry.RegisterId(tid));
    case CloseTab(asked, rec, now) =>
      TabRegistry.StepLastFour(d.reg, TabRegistry.RemoveId(d.reg.target[TrimSpace(asked)]));
      TabRegistry.StepKeeps(d.reg, TabRegistry.RemoveId(d.reg.target[TrimSpace(asked)]));
    case Gone(tid) =>
      TabRegistry.StepLastFour(d.reg, TabRegistry.RemoveId(tid));
      TabRegistry.StepKeeps(d.reg, TabRegistry.RemoveId(tid));
    case SyncTo(present) =>
      TabRegistry.StepLastFour(d.reg, TabRegistry.SyncTo(present));
      TabRegistry.StepKeeps(d.reg, TabRegistry.SyncTo(present));
    case Restart(present) =>
      TabRegistry.EmptyIsGood();
      TabRegistry.StepLastFour(TabRegistry.Empty, TabRegistry.SyncTo(present));
      TabRegistry.StepKeeps(TabRegistry.Empty, TabRegistry.SyncTo(present));
    case Rpc(asked, rec, now) =>
    case Passive(rec) =>
    case Write =>
    case Reconcile(present, read, at, timeout, grace) =>
    case Mark(tid, at) =>
  }

  /** Over every run of harmless events, a tab that was tracked before a restart, is present after it and
      keeps its short id is restored, with the expiry bounds of RestoredExpiry. */
  lemma RunsRestore(
    c: Codec, ds: seq<Daemon>, evs: seq<Event>, k: nat, present: set<Str>, read: nat, now: int, timeout: int,
    grace: int, tid: Str)
    requires Run(c, ds, evs) && k + 2 <= |evs|
    requires forall i :: 0 <= i < k ==> Harmless(c, ds[i], evs[i])
    requires evs[k] == Restart(present) && evs[k + 1] == Reconcile(present, read, now, timeout, grace)
    requires tid in ds[k].clocks && tid in present
    requires tid in ds[k].reg.short ==> TabRegistry.KeepsShort(ds[k].reg, present, tid)
    ensures tid in ds[k + 2].clocks
    ensures now + Min(timeout, grace) <= ds[k + 2].clocks[tid] + timeout
            <= Max(now + Min(timeout, grace), ds[k].clocks[tid] + timeout)
  {
    hide TrimSpace, Fold, TabRegistry.HexDigits, TabRegistry.Inv, TabRegistry.Sync, Step, Reconciled, Owed, Harmless,
         TabRegistry.KeepsShort, TabRegistry.Compatible;
    RunsKeepLogBehind(c, ds, evs, k);
    assert Step(c, ds[k], evs[k], ds[k + 1]);
    assert Step(c, ds[k + 1], evs[k + 1], ds[k + 2]);
    RestartRegisters(c, ds[k], ds[k + 1], present);
    TabRegistry.SurvivesFreshSyncIff(ds[k].reg, present, tid);
    RestoredExpiry(c, ds[k], ds[k + 1], ds[k + 2], present, read, now, timeout, grace, tid);
  }

  /** While the targets alive differ in their last four digits, every restart keeps every short id. */
  lemma RunsKeepShorts(c: Codec, ds: seq<Daemon>, evs: seq<Event>, k: nat, present: set<Str>, tid: Str)
    requires Run(c, ds, evs) && k < |evs| && evs[k] == Restart(present)
    requires forall i :: 0 <= i < |ds| ==> TabRegistry.FourDistinct(ds[i].reg.short.Keys)
    requires tid in ds[k].reg.short && tid in present
    ensures TabRegistry.KeepsShort(ds[k].reg, present, tid)
  {
    hide TrimSpace, Fold, TabRegistry.HexDigits, TabRegistry.FourDistinct, TabRegistry.Inv, TabRegistry.Sync, Step,
         TabRegistry.LastFour, TabRegistry.KeepsShort, TabRegistry.Compatible;
    RunsKeepLastFour(c, ds, evs, k);
    RunsKeepLastFour(c, ds, evs, k + 1);
    assert Step(c, ds[k], evs[k], ds[k + 1]);
    RestartRegisters(c, ds[k], ds[k + 1], present);
    TabRegistry.SurvivesFreshSyncIff(ds[k].reg, present, tid);
  }

  lemma RestartRegisters(c: Codec, d: Daemon, d1: Daemon, present: set<Str>)
    requires Step(c, d, Restart(present), d1)
    ensures TabRegistry.Compatible(present)
    ensures d1.reg == TabRegistry.Sync(TabRegistry.Empty, present) && d1.reg.short.Keys == present
  {
    hide TrimSpace, Fold, TabRegistry.HexDigits, TabRegistry.Sync, TabRegistry.Compatible;
    RestartKeeps(map[], present);
  }
}
