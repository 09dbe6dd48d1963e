/** The store that owns the RPC log: open, append, rotate, crash and reopen. */
module RpcStore {
  import opened Bytes
  import opened RpcLog

  const MAX_BACKUPS: nat := 3
  const DEFAULT_MAX_LOG_BYTES: nat := 8388608
  const ZERO_TIME := 0

  // ---- What each operation does to files and memory -----------------------

  /** File 0 is the current log and file k > 0 its k-th backup. */
  type Files = map<nat, Str>

  datatype LogState = LogState(files: Files, managed: Managed, logBytes: nat)

  /** Every backup moves up one place, the oldest is dropped, and the current log becomes backup 1. */
  function Shift(files: Files): Files {
    map k: nat | k in files.Keys + {1, 2, 3} && (if 1 <= k <= MAX_BACKUPS then k - 1 in files else k > MAX_BACKUPS)
      :: if k <= MAX_BACKUPS then files[k - 1] else files[k]
  }

  /** What a shift leaves: each backup stands one place up with its content, only the oldest is lost, place 0 is
      free and files beyond the backups are untouched. */
  lemma ShiftMeans(files: Files)
    ensures var n := Shift(files);
            && 0 !in n
            && (forall k: nat :: k < MAX_BACKUPS ==>
                  (k + 1 in n <==> k in files) && (k in files ==> n[k + 1] == files[k]))
            && (forall k: nat :: k > MAX_BACKUPS ==>
                  (k in n <==> k in files) && (k in files ==> n[k] == files[k]))
  {
  }

  function Renamed(files: Files, from: nat, to: nat): Files {
    if from in files then files[to := files[from]] - {from} else files
  }

  /** The backups above k have moved up one place; place k + 1 is free. */
  function ShiftAbove(files: Files, k: nat): Files {
    map j: nat | j in files.Keys + {1, 2, 3}
                 && (if k + 1 < j <= MAX_BACKUPS then j - 1 in files else j != k + 1 && j in files)
      :: if k + 1 < j <= MAX_BACKUPS then files[j - 1] else files[j]
  }

  lemma FirstAbove(files: Files)
    ensures files - {MAX_BACKUPS} == ShiftAbove(files, MAX_BACKUPS - 1)
    ensures forall k: nat :: k + 1 !in ShiftAbove(files, k)
  {
  }

  lemma ShiftOne(files: Files, k: nat)
    requires k < MAX_BACKUPS
    ensures k > 0 ==> Renamed(ShiftAbove(files, k), k, k + 1) == ShiftAbove(files, k - 1)
    ensures Renamed(ShiftAbove(files, 0), 0, 1) == Shift(files)
  {
  }

  /** Managed tabs that a snapshot can write back. */
  ghost predicate Restorable(c: Codec, m: Managed) {
    forall k :: k in m ==> k != [] && Stampable(c, m[k])
  }

  lemma SnapshotEncodable(c: Codec, m: Managed, keys: seq<Str>)
    requires Restorable(c, m) && forall k :: k in keys ==> k in m
    ensures Encodable(c, SnapshotRecords(c, m, keys))
  {
  }

  ghost predicate SpelledKeys(c: Codec, m: Managed) {
    forall k :: k in m ==> Spelled(c, k)
  }

  ghost function Snapshot(c: Codec, m: Managed): Str
    requires Restorable(c, m)
  {
    SnapshotEncodable(c, m, SortedElements(m.Keys));
    Render(c, SnapshotRecords(c, m, SortedElements(m.Keys)))
  }

  /** A snapshot replays to the managed tabs it was taken from. */
  lemma SnapshotRestores(c: Codec, m: Managed)
    requires Lawful(c) && Restorable(c, m) && SpelledKeys(c, m)
    ensures Replay(c, Snapshot(c, m)) == m
    ensures Recover(Reader(c), Snapshot(c, m)).kept == |Snapshot(c, m)| && EndsLine(Snapshot(c, m))
  {
    hide Recover, Lawful, Stampable;
    var rs := SnapshotRecords(c, m, SortedElements(m.Keys));
    SnapshotEncodable(c, m, SortedElements(m.Keys));
    RenderRecovers(c, rs);
    StoredSpelled(c, rs);
    SnapshotFolds(c, m, SortedElements(m.Keys));
  }

  lemma ApplyRestorable(c: Codec, m: Managed, r: LogRecord)
    requires Restorable(c, m) && Stampable(c, r.time)
    ensures Restorable(c, Apply(c, m, r))
  {
  }

  lemma {:induction false} FoldRestorable(c: Codec, m: Managed, rs: seq<LogRecord>)
    requires Restorable(c, m) && forall r :: r in rs ==> Stampable(c, r.time)
    ensures Restorable(c, Fold(c, m, rs))
    decreases |rs|
  {
    if rs != [] {
      ApplyRestorable(c, m, rs[0]);
      FoldRestorable(c, Apply(c, m, rs[0]), rs[1..]);
    }
  }

  lemma {:induction false} RecoveredStampable(c: Codec, file: Str)
    requires Lawful(c)
    ensures forall r :: r in Recover(Reader(c), file).recs ==> Stampable(c, r.time)
    decreases |file|
  {
    if file != [] {
      RecoverUnfold(Reader(c), file);
      RecoveredStampable(c, file[LineEnd(file)..]);
    }
  }

  /** Memory is what a replay of the current log would restore, and the byte count is the file's. */
  ghost predicate Consistent(c: Codec, st: LogState) {
    && 0 in st.files
    && Restorable(c, st.managed)
    && Recover(Reader(c), st.files[0]).kept == |st.files[0]|
    && Replay(c, st.files[0]) == st.managed
    && st.logBytes == |st.files[0]|
  }

  ghost function Appended(c: Codec, max: nat, st: LogState, r: LogRecord): LogState
    requires Lawful(c) && 0 in st.files && Restorable(c, st.managed) && c.encode(r).Some?
  {
    EncodedStampable(c, r);
    ApplyRestorable(c, st.managed, r);
    var m := Apply(c, st.managed, r);
    var grown := st.files[0 := st.files[0] + LineOf(c, r)];
    var n := st.logBytes + |LineOf(c, r)|;
    if n < max then LogState(grown, m, n)
    else LogState(Shift(grown)[0 := Snapshot(c, m)], m, |Snapshot(c, m)|)
  }

  /** What an append does to the files: while the log stays below its limit it grows by the record's line and no
      other file changes; otherwise the grown log becomes backup 1, each backup moves up, and the log is a snapshot. */
  lemma AppendedMeans(c: Codec, max: nat, st: LogState, r: LogRecord)
    requires Lawful(c) && 0 in st.files && Restorable(c, st.managed) && c.encode(r).Some?
    ensures var n := Appended(c, max, st, r); var grown := st.files[0] + LineOf(c, r);
            && 0 in n.files && n.managed == Apply(c, st.managed, r)
            && (st.logBytes + |LineOf(c, r)| < max ==>
                  n.files == st.files[0 := grown] && n.logBytes == st.logBytes + |LineOf(c, r)|)
            && (st.logBytes + |LineOf(c, r)| >= max ==>
                  && Restorable(c, n.managed) && n.files[0] == Snapshot(c, n.managed) && n.logBytes == |n.files[0]|
                  && 1 in n.files && n.files[1] == grown
                  && forall k: nat :: 1 <= k < MAX_BACKUPS ==>
                       (k + 1 in n.files <==> k in st.files) && (k in st.files ==> n.files[k + 1] == st.files[k]))
  {
    hide Lawful, Stampable, Snapshot, Shift, Apply;
    EncodedStampable(c, r);
    ApplyRestorable(c, st.managed, r);
    var grown := st.files[0 := st.files[0] + LineOf(c, r)];
    ShiftMeans(grown);
    assert forall k: nat :: k >= 1 ==> (k in grown <==> k in st.files) && (k in st.files ==> grown[k] == st.files[k]);
  }

  lemma AppendedConsistent(c: Codec, max: nat, st: LogState, r: LogRecord)
    requires Lawful(c) && Consistent(c, st) && AppendSafe(st.files[0])
    requires c.encode(r).Some? && Spelled(c, EffectiveTab(c, r))
    ensures var next := Appended(c, max, st, r); Consistent(c, next) && EndsLine(next.files[0])
  {
    hide Recover, Lawful, Stampable, AppendSafe, EffectiveTab, Shift;
    EncodedStampable(c, r);
    ApplyRestorable(c, st.managed, r);
    SafeAppend(c, st.files[0], r);
    ReplaySpelled(c, st.files[0]);
    SnapshotRestores(c, Apply(c, st.managed, r));
  }

  ghost function Reopened(c: Codec, files: Files): LogState {
    var file := if 0 in files then files[0] else [];
    var kept := Recover(Reader(c), file).kept;
    LogState(files[0 := file[..kept]], Replay(c, file), kept)
  }

  /** Opening any file at all gives a consistent store. */
  lemma ReopenedConsistent(c: Codec, files: Files)
    requires Lawful(c)
    ensures Consistent(c, Reopened(c, files))
  {
    hide Recover;
    var file := if 0 in files then files[0] else [];
    RecoverIdempotent(Reader(c), file);
    RecoveredStampable(c, file);
    FoldRestorable(c, map[], Recover(Reader(c), file).recs);
  }

  /** A clean restart changes nothing: it restores the very memory the daemon had. */
  lemma RestartRestores(c: Codec, st: LogState)
    requires Consistent(c, st)
    ensures Reopened(c, st.files) == st
  {
    hide Recover;
    assert st.files[0][..|st.files[0]|] == st.files[0];
    assert st.files[0 := st.files[0]] == st.files;
  }

  lemma JoinFrom(es: seq<Str>, i: nat)
    requires i < |es|
    ensures Join(es[i..]) == es[i] + [NEWLINE] + Join(es[i + 1..])
  {
    assert es[i..][1..] == es[i + 1..];
  }

  // ---- Runs ----------------------------------------------------------------

  /** A crash loses memory and leaves the first `written` bytes of the record's line in the file. */
  datatype Event = Append(rec: LogRecord) | Reopen | CrashInAppend(rec: LogRecord, written: nat)

  ghost predicate Possible(c: Codec, ev: Event) {
    match ev
    case Append(r) => Writable(c, r)
    case Reopen => true
    case CrashInAppend(r, written) => Writable(c, r) && written <= |LineOf(c, r)|
  }

  /** The daemon takes its tab ids out of JSON texts, so they are spelled. */
  ghost predicate Writable(c: Codec, r: LogRecord) {
    c.encode(r).Some? && Spelled(c, EffectiveTab(c, r))
  }

  /** Crashed exactly between a record and its newline. */
  ghost predicate LosesNewline(c: Codec, ev: Event)
    requires Possible(c, ev)
  {
    ev.CrashInAppend? && ev.written == |LineOf(c, ev.rec)| - 1
  }

  ghost function Next(c: Codec, max: nat, st: LogState, ev: Event): LogState
    requires Lawful(c) && Consistent(c, st) && Possible(c, ev)
  {
    match ev
    case Append(r) => Appended(c, max, st, r)
    case Reopen => Reopened(c, st.files)
    case CrashInAppend(r, written) =>
      Reopened(c, st.files[0 := st.files[0] + LineOf(c, r)[..written]])
  }

  /** What a crash leaves behind: the record counts exactly when all of it but its newline was written,
      and only then, when the newline alone is missing, is the file not safe to append to. */
  lemma CrashOutcome(c: Codec, st: LogState, r: LogRecord, written: nat)
    requires Lawful(c) && Consistent(c, st) && AppendSafe(st.files[0])
    requires Writable(c, r) && written <= |LineOf(c, r)|
    ensures var file := st.files[0] + LineOf(c, r)[..written]; var n := |LineOf(c, r)|;
            && Replay(c, file) == (if written >= n - 1 then Apply(c, st.managed, r) else st.managed)
            && Recover(Reader(c), file).kept
               == (if written >= n - 1 || written == 0 then |file| else |st.files[0]| - |LastLine(st.files[0])|)
            && (AppendSafe(file[..Recover(Reader(c), file).kept]) <==> written != n - 1)
  {
    var before, line := st.files[0], LineOf(c, r);
    hide Recover, LastLine, AppendSafe, ReadLine, Consistent, TrimLeft, TrimSpace, Lawful, Apply;
    ConsistentIs(c, st);
    if written == 0 {
      assert before + line[..0] == before && before[..|before|] == before;
    } else if written == |line| {
      assert line[..written] == line;
      SafeAppend(c, before, r);
      var file := before + line;
      assert file[..|file|] == file;
      EndsLineIsSafe(file);
    } else {
      CrashInside(c, before, r, written);
    }
  }

  lemma ConsistentIs(c: Codec, st: LogState)
    requires Consistent(c, st)
    ensures Recover(Reader(c), st.files[0]).kept == |st.files[0]| && Replay(c, st.files[0]) == st.managed
  {
    hide Recover, Replay;
  }

  /** What is read back after a crash that wrote some of the line but not its newline. */
  lemma CrashReads(c: Codec, before: Str, r: LogRecord, written: nat) returns (good: Str)
    requires Lawful(c) && Recover(Reader(c), before).kept == |before| && AppendSafe(before)
    requires c.encode(r).Some? && 0 < written < |LineOf(c, r)|
    ensures Splits(before, good, LastLine(before)) && c.parse(c.encode(r).value).Some?
    ensures Recover(Reader(c), before).recs == Recover(Reader(c), good).recs
    ensures var file := before + LineOf(c, r)[..written]; var recs := Recover(Reader(c), before).recs;
            Recover(Reader(c), file)
            == if written == |LineOf(c, r)| - 1 then Recovered(recs + [c.parse(c.encode(r).value).value], |file|)
               else Recovered(recs, |good|)
  {
    hide Recover, LastLine, ReadLine, TrimLeft, TrimSpace, Lawful;
    var x, e := LastLine(before), c.encode(r).value;
    var part := LineOf(c, r)[..written];
    good := LastLineSplits(before);
    assert before == good + x && before + part == good + (x + part) && part == e[..written];
    RecoverLastLine(Reader(c), good, x);
    PartReads(c, r, x, written);
    assert Reader(c)(x) == ReadLine(c, x) && Reader(c)(x + part) == ReadLine(c, x + part);
    RecoverAppend(Reader(c), good, x + part);
    RecoverSingle(Reader(c), x + part);
    var recs := Recover(Reader(c), good).recs;
    assert recs + [] == recs;
  }

  lemma CrashInside(c: Codec, before: Str, r: LogRecord, written: nat)
    requires Lawful(c) && Recover(Reader(c), before).kept == |before| && AppendSafe(before)
    requires Writable(c, r) && 0 < written < |LineOf(c, r)|
    ensures var file := before + LineOf(c, r)[..written]; var whole := written == |LineOf(c, r)| - 1;
            && Replay(c, file) == (if whole then Apply(c, Replay(c, before), r) else Replay(c, before))
            && Recover(Reader(c), file).kept == (if whole then |file| else |before| - |LastLine(before)|)
            && (AppendSafe(file[..Recover(Reader(c), file).kept]) <==> !whole)
  {
    hide Recover, LastLine, ReadLine, TrimLeft, TrimSpace, Lawful, Apply, EffectiveTab;
    var x, e := LastLine(before), c.encode(r).value;
    var good := CrashReads(c, before, r, written);
    var file := before + LineOf(c, r)[..written];
    if written == |e| {
      EncodedUpdates(c, r);
      FoldAppend(c, map[], Recover(Reader(c), before).recs, [c.parse(e).value]);
      FoldOne(c, Replay(c, before), c.parse(e).value);
      assert file == good + (x + e) && file[..|file|] == file;
      PartReads(c, r, x, |e|);
      assert e[..|e|] == e;
      LastLineIs(good, x + e);
    } else {
      assert file[..|good|] == good;
      EndsLineIsSafe(good);
    }
  }

  /** A blank tail and part of a record read as that record when only the newline is missing, else as corrupt. */
  lemma PartReads(c: Codec, r: LogRecord, blank: Str, written: nat)
    requires Lawful(c) && c.encode(r).Some? && TrimLeft(blank) == [] && NEWLINE !in blank
    requires 0 < written <= |c.encode(r).value|
    ensures var e := c.encode(r).value; var part := e[..written];
            && c.parse(e).Some? && NEWLINE !in blank + part && TrimLeft(blank + part) != []
            && ReadLine(c, blank + part) == (if written == |e| then Entry(c.parse(e).value) else Corrupt)
            && (blank != [] ==> ReadLine(c, blank) == Blank)
  {
    hide TrimLeft, TrimRight;
    var e := c.encode(r).value;
    var part := e[..written];
    ReadEncoded(c, r, blank);
    TrimLeftSkips(blank, part);
    StartsInert(part);
    BlankOrNot(blank);
    if written < |e| {
      ReadCut(c, r, written);
      assert TrimSpace(blank + part) == TrimSpace(part);
    } else {
      assert part == e;
    }
  }

  lemma {:induction false} LastLineIs(good: Str, x: Str)
    requires EndsLine(good) && NEWLINE !in x
    ensures LastLine(good + x) == x
    decreases |x|
  {
    if x == [] {
      assert good + x == good;
    } else {
      var n := |x| - 1;
      assert (good + x)[..|good| + n] == good + x[..n];
      assert x == x[..n] + [x[n]] && x[n] in x;
      LastLineIs(good, x[..n]);
    }
  }

  lemma EndsLineIsSafe(file: Str)
    requires EndsLine(file)
    ensures AppendSafe(file)
  {
  }

  ghost predicate Healthy(c: Codec, st: LogState) {
    Consistent(c, st) && AppendSafe(st.files[0])
  }

  lemma StepHealthy(c: Codec, max: nat, st: LogState, ev: Event)
    requires Lawful(c) && Healthy(c, st) && Possible(c, ev) && !LosesNewline(c, ev)
    ensures Healthy(c, Next(c, max, st, ev))
  {
    hide Recover;
    match ev
    case Append(r) =>
      AppendedConsistent(c, max, st, r);
      EndsLineIsSafe(Appended(c, max, st, r).files[0]);
    case Reopen =>
      RestartRestores(c, st);
    case CrashInAppend(r, written) =>
      ReopenedConsistent(c, st.files[0 := st.files[0] + LineOf(c, r)[..written]]);
      CrashOutcome(c, st, r, written);
  }

  ghost predicate AllPossible(c: Codec, evs: seq<Event>) {
    forall i :: 0 <= i < |evs| ==> Possible(c, evs[i]) && !LosesNewline(c, evs[i])
  }

  ghost function Exec(c: Codec, max: nat, st: LogState, evs: seq<Event>): (r: LogState)
    requires Lawful(c) && Healthy(c, st) && AllPossible(c, evs)
    ensures Healthy(c, r)
    decreases |evs|
  {
    if evs == [] then st
    else
      StepHealthy(c, max, st, evs[0]);
      Exec(c, max, Next(c, max, st, evs[0]), evs[1..])
  }

  /** Over every run of appends, rotations, restarts and crashes that do not lose a lone newline,
      replaying the current log restores exactly the tabs in memory, the byte count is the file's
      length, and one more restart would change nothing. */
  lemma RunsAgree(c: Codec, max: nat, disk: Files, evs: seq<Event>)
    requires Lawful(c) && AllPossible(c, evs) && AppendSafe(Reopened(c, disk).files[0])
    ensures Consistent(c, Reopened(c, disk))
    ensures var st := Exec(c, max, Reopened(c, disk), evs);
            && 0 in st.files && Replay(c, st.files[0]) == st.managed && st.logBytes == |st.files[0]|
            && Reopened(c, st.files) == st
  {
    hide Recover, Next;
    ReopenedConsistent(c, disk);
    RestartRestores(c, Exec(c, max, Reopened(c, disk), evs));
  }

  /** The one crash that is excluded: the store it reopens is consistent, yet some append after it
      leaves memory and log apart. */
  lemma LostNewlineBreaksNextAppend(c: Codec, st: LogState, r: LogRecord)
    requires Lawful(c) && Healthy(c, st) && Writable(c, r)
    ensures var ev := CrashInAppend(r, |LineOf(c, r)| - 1); var next := Next(c, 0, st, ev);
            && Consistent(c, next) && next.managed == Apply(c, st.managed, r)
            && exists r' :: Writable(c, r')
                 && Replay(c, next.files[0] + LineOf(c, r')) != Apply(c, next.managed, r')
  {
    hide Recover;
    var written := |LineOf(c, r)| - 1;
    var file := st.files[0] + LineOf(c, r)[..written];
    ReopenedConsistent(c, st.files[0 := file]);
    CrashOutcome(c, st, r, written);
    assert file[..|file|] == file;
    AppendAgreesIffSafe(c, file);
  }

  // ---- The store -------------------------------------------------------------

  datatype AppendResult = Ok | NoAction | NoBody | NotEncodable | LogClosed

  function Stamped(c: Codec, rec: LogRecord, now: int): LogRecord {
    rec.(time := if rec.time == ZERO_TIME then now else rec.time, body := c.compact(rec.body))
  }

  /** A record keeps its own time, and gets the current one only if it has none; its body is compacted and nothing
      else changes. */
  lemma StampedMeans(c: Codec, rec: LogRecord, now: int)
    ensures var r := Stamped(c, rec, now);
            && (rec.time != ZERO_TIME ==> r.time == rec.time) && (rec.time == ZERO_TIME ==> r.time == now)
            && r.body == c.compact(rec.body)
            && (r.action, r.tab, r.senderIP, r.seqNo, r.ok, r.error)
               == (rec.action, rec.tab, rec.senderIP, rec.seqNo, rec.ok, rec.error)
  {
  }

  lemma OpenSets(c: Codec, m: Managed, r: LogRecord)
    requires r.ok && r.action == TAB_NEW && r.tab != []
    ensures r.tab in Apply(c, m, r) && Apply(c, m, r)[r.tab] == r.time
  {
  }

  /** The loop that writes one line per managed tab. */
  method MarshalSnapshot(c: Codec, m: Managed, shorts: seq<Str>) returns (buf: Str)
    requires forall k :: k in shorts ==> k in m
    requires Encodable(c, SnapshotRecords(c, m, shorts))
    ensures buf == Render(c, SnapshotRecords(c, m, shorts))
  {
    ghost var rs := SnapshotRecords(c, m, shorts);
    ghost var es := Encode(c, rs);
    buf := [];
    var i := 0;
    assert es[0..] == es;
    while i < |shorts|
      invariant i <= |shorts|
      invariant buf + Join(es[i..]) == Join(es)
    {
      assert rs[i] == SnapshotRecord(c, shorts[i], m[shorts[i]]);
      var data := c.encode(SnapshotRecord(c, shorts[i], m[shorts[i]]));
      JoinFrom(es, i);
      var line := data.value + [NEWLINE];
      assert buf + (line + Join(es[i + 1..])) == (buf + line) + Join(es[i + 1..]);
      buf := buf + line;
      i := i + 1;
    }
    assert es[i..] == [] && buf + [] == buf;
  }

  /** What recovery makes of the line at `from`, n bytes long. */
  lemma OnePiece(c: Codec, file: Str, from: nat, n: nat, m: Managed)
    requires from < |file| && n == LineEnd(file[from..])
    ensures from + n <= |file|
    ensures var line := ReadLine(c, file[from..from + n]);
            var here, rest := Recover(Reader(c), file[from..]), Recover(Reader(c), file[from + n..]);
            && (line.Corrupt? ==> here.kept == 0 && Fold(c, m, here.recs) == m)
            && (line.Blank? ==> here.kept == n + rest.kept && Fold(c, m, here.recs) == Fold(c, m, rest.recs))
            && (line.Entry? ==> here.kept == n + rest.kept
                                && Fold(c, m, here.recs) == Fold(c, Apply(c, m, line.rec), rest.recs))
  {
    hide Recover, ReadLine, Apply, Fold;
    var tail := file[from..];
    assert file[from..from + n] == tail[..n] && file[from + n..] == tail[n..];
    RecoverUnfold(Reader(c), tail);
    var recs := Recover(Reader(c), tail[n..]).recs;
    var line := ReadLine(c, tail[..n]);
    FoldNone(c, m);
    if line.Entry? { FoldCons(c, m, line.rec, recs); }
    assert [] + recs == recs;
  }

  lemma FoldNone(c: Codec, m: Managed)
    ensures Fold(c, m, []) == m
  {
  }

  lemma FoldCons(c: Codec, m: Managed, r: LogRecord, rs: seq<LogRecord>)
    ensures Fold(c, m, [r] + rs) == Fold(c, Apply(c, m, r), rs)
  {
    hide Apply;
    assert ([r] + rs)[1..] == rs;
  }

  class Store {
    const codec: Codec
    const inMemory: bool
    const maxLogBytes: nat
    var files: Files
    var logOpen: bool
    var logBytes: nat
    var managed: Managed
    var memLogs: seq<LogRecord>

    ghost predicate Valid()
      reads this
    {
      && Lawful(codec) && maxLogBytes > 0 && Restorable(codec, managed)
      && (logOpen ==> !inMemory && 0 in files)
    }

    ghost function State(): LogState
      reads this
    {
      LogState(files, managed, logBytes)
    }

    constructor (c: Codec, disk: Files, inMemory: bool, maxLogBytes: int)
      requires Lawful(c)
      ensures Valid() && codec == c && this.inMemory == inMemory && memLogs == []
      ensures this.maxLogBytes == if maxLogBytes <= 0 then DEFAULT_MAX_LOG_BYTES else maxLogBytes
      ensures inMemory ==> !logOpen && managed == map[] && files == disk
      ensures !inMemory ==> logOpen && State() == Reopened(c, disk)
    {
      hide Lawful, Recover, Stampable;
      codec := c;
      this.inMemory := inMemory;
      this.maxLogBytes := if maxLogBytes <= 0 then DEFAULT_MAX_LOG_BYTES else maxLogBytes;
      files := disk;
      logOpen := false;
      logBytes := 0;
      managed := map[];
      memLogs := [];
      new;
      if !inMemory {
        if 0 !in files { files := files[0 := []]; }
        var kept := ReplayLog();
        files := files[0 := files[0][..kept]];
        logBytes := kept;
        logOpen := true;
        ReopenedConsistent(c, disk);
      }
    }

    /** The offset loop of replayLog, folding each good line into the managed tabs. */
    method ReplayLog() returns (goodEnd: nat)
      requires 0 in files && managed == map[]
      modifies this`managed
      ensures goodEnd == Recover(Reader(codec), files[0]).kept
      ensures managed == Replay(codec, files[0])
    {
      hide Recover, ReadLine;
      var file := files[0];
      goodEnd := 0;
      assert file[0..] == file;
      while goodEnd < |file|
        invariant goodEnd <= |file|
        invariant var rest := Recover(Reader(codec), file[goodEnd..]);
                  && goodEnd + rest.kept == Recover(Reader(codec), file).kept
                  && Fold(codec, managed, rest.recs) == Replay(codec, file)
      {
        var n := ReadBytes(file, goodEnd);
        OnePiece(codec, file, goodEnd, n, managed);
        hide Replay, Reader, Fold, Apply;
        match ReadLine(codec, file[goodEnd..goodEnd + n]) {
          case Blank =>
          case Corrupt => return;
          case Entry(rec) => managed := Apply(codec, managed, rec);
        }
        goodEnd := goodEnd + n;
      }
      assert file[goodEnd..] == [];
      RecoverEmpty(Reader(codec));
    }

    /** Length of the line that starts at `from`, with its newline if it has one. */
    static method ReadBytes(file: Str, from: nat) returns (n: nat)
      requires from < |file|
      ensures n == LineEnd(file[from..])
    {
      n := 0;
      while from + n < |file| && file[from + n] != NEWLINE
        invariant from + n <= |file|
        invariant forall i :: from <= i < from + n ==> file[i] != NEWLINE
      {
        n := n + 1;
      }
      ghost var rest := file[from..];
      if from + n < |file| {
        assert rest == rest[..n] + [NEWLINE] + rest[n + 1..];
        LineEndIs(rest[..n], rest[n + 1..]);
        n := n + 1;
      } else {
        LineEndWhole(rest);
      }
    }

    method AppendRPC(rec: LogRecord, now: int) returns (res: AppendResult)
      requires Valid()
      modifies this`files, this`logBytes, this`managed, this`memLogs
      ensures Valid()
      ensures res in {Ok, LogClosed} && rec.ok && rec.action == TAB_NEW && rec.tab != [] ==>
                rec.tab in managed && managed[rec.tab] == if rec.time == ZERO_TIME then now else rec.time
      ensures rec.action == "" ==> res == NoAction
      ensures rec.action != "" && rec.body == [] ==> res == NoBody
      ensures var r := Stamped(codec, rec, now);
              && (rec.action != "" && rec.body != [] && codec.encode(r).None? ==> res == NotEncodable)
              && (res in {NoAction, NoBody, NotEncodable} ==> State() == old(State()) && memLogs == old(memLogs))
              && (res in {Ok, LogClosed} ==> codec.encode(r).Some? && managed == Apply(codec, old(managed), r))
              && (res == Ok && inMemory ==> files == old(files) && memLogs == old(memLogs) + [r])
              && (res == LogClosed ==> !inMemory && !logOpen && files == old(files) && memLogs == old(memLogs))
              && (res == Ok && !inMemory ==> old(logOpen) && State() == Appended(codec, maxLogBytes, old(State()), r))
      ensures res == Ok && !inMemory && old(Consistent(codec, State()) && AppendSafe(files[0]))
              && Spelled(codec, EffectiveTab(codec, Stamped(codec, rec, now))) ==>
                Consistent(codec, State()) && EndsLine(files[0])
    {
      hide Lawful, Recover, Consistent, AppendSafe, Stampable, Snapshot, EffectiveTab;
      if rec.action == "" { return NoAction; }
      if rec.body == [] { return NoBody; }
      var r := Stamped(codec, rec, now);
      var encoded := codec.encode(r);
      if encoded.None? { return NotEncodable; }
      var line := encoded.value + [NEWLINE];
      ghost var before := State();
      EncodedStampable(codec, r);
      ApplyRestorable(codec, managed, r);
      if r.ok && r.action == TAB_NEW && r.tab != [] { OpenSets(codec, managed, r); }
      managed := Apply(codec, managed, r);
      if inMemory {
        memLogs := memLogs + [r];
        return Ok;
      }
      if !logOpen { return LogClosed; }
      files := files[0 := files[0] + line];
      logBytes := logBytes + |line|;
      if logBytes >= maxLogBytes { Rotate(); }
      res := Ok;
      assert State() == Appended(codec, maxLogBytes, before, r);
      if Consistent(codec, before) && AppendSafe(before.files[0]) && Spelled(codec, EffectiveTab(codec, r)) {
        AppendedConsistent(codec, maxLogBytes, before, r);
      }
    }

    method Rotate()
      requires Valid() && logOpen
      modifies this`files, this`logBytes
      ensures Valid()
      ensures files == Shift(old(files))[0 := Snapshot(codec, managed)] && logBytes == |files[0]|
      ensures forall k: nat :: k < MAX_BACKUPS ==>
                (k + 1 in files <==> k in old(files)) && (k in old(files) ==> files[k + 1] == old(files)[k])
    {
      hide Lawful, Recover, Stampable, Shift;
      ShiftMeans(files);
      ShiftBackups();
      files := files[0 := []];
      logBytes := 0;
      WriteManagedSnapshot();
      assert [] + Snapshot(codec, managed) == Snapshot(codec, managed);
    }

    method ShiftBackups()
      modifies this`files
      ensures files == Shift(old(files))
      ensures 0 !in files
      ensures forall k: nat :: k < MAX_BACKUPS ==>
                (k + 1 in files <==> k in old(files)) && (k in old(files) ==> files[k + 1] == old(files)[k])
    {
      ghost var before := files;
      ShiftMeans(before);
      hide Shift, ShiftAbove, Renamed;
      FirstAbove(before);
      files := files - {MAX_BACKUPS};
      var k := MAX_BACKUPS - 1;
      while k >= 1
        invariant 0 <= k < MAX_BACKUPS
        invariant files == ShiftAbove(before, k)
      {
        Rename(k, k + 1);
        ShiftOne(before, k);
        k := k - 1;
      }
      Rename(0, 1);
      ShiftOne(before, 0);
    }

    method Rename(from: nat, to: nat)
      requires from != to && to !in files
      modifies this`files
      ensures files == Renamed(old(files), from, to)
    {
      if from in files { files := files[to := files[from]] - {from}; }
    }

    method WriteManagedSnapshot()
      requires Lawful(codec) && Restorable(codec, managed) && 0 in files
      modifies this`files, this`logBytes
      ensures files == old(files)[0 := old(files)[0] + Snapshot(codec, managed)]
      ensures logBytes == old(logBytes) + |Snapshot(codec, managed)|
    {
      hide Lawful, Stampable;
      var shorts := SortedKeys(managed);
      SortedUnique(shorts, SortedElements(managed.Keys));
      SnapshotEncodable(codec, managed, shorts);
      var buf := MarshalSnapshot(codec, managed, shorts);
      files := files[0 := files[0] + buf];
      logBytes := logBytes + |buf|;
    }

    method Close()
      requires Valid()
      modifies this`logOpen
      ensures Valid() && !logOpen
    {
      logOpen := false;
    }
  }
}
