/** The RPC log: one line per record, the fold that replays it into the managed tabs, recovery of a damaged
    file, and the records of a snapshot. */
module RpcLog {
  import opened Bytes

  const TAB_NEW := "tab_new"
  const TAB_CLOSE := "tab_close"
  const TAB_LIST := "tab_list"

  const TAB_METHODS: set<string> := {
    "tab_list", "tab_focus", "tab_select", "tab_new", "goto", "reload", "tab_close",
    "screenshot", "eval", "click", "fill", "network", "network_clear", "network_route",
    "network_unroute", "fetch", "snapshot", "console", "console_clear", "errors", "errors_clear"
  }

  datatype LogRecord = LogRecord(
    action: string, body: Str, tab: Str, senderIP: Str, seqNo: nat, ok: bool, error: Str, time: int)

  /** Last activity of each managed tab, by short id. */
  type Managed = map<Str, int>

  /** The JSON library as the log uses it. `tabOf` reads params.tab out of a request body, `compact`
      shortens a body for the log, and `respell` is what encoding makes of a string: its bytes that are
      not UTF-8 come back as replacement characters. */
  datatype Codec = Codec(
    encode: LogRecord -> Option<Str>,
    parse: Str -> Option<LogRecord>,
    tabOf: Str -> Str,
    compact: Str -> Str,
    respell: Str -> Str,
    snapshotBody: Str)

  // ---- The fold ----------------------------------------------------------

  function EffectiveTab(c: Codec, r: LogRecord): Str {
    if r.tab != [] then r.tab else c.tabOf(r.body)
  }

  function Apply(c: Codec, m: Managed, r: LogRecord): Managed {
    var tab := EffectiveTab(c, r);
    if !r.ok || tab == [] then m
    else if r.action == TAB_NEW then m[tab := r.time]
    else if r.action == TAB_CLOSE then m - {tab}
    else if r.action in TAB_METHODS && r.action != TAB_LIST && tab in m then m[tab := r.time]
    else m
  }

  /** By name: a failed record, one without a tab and a listing change nothing; tab_new opens, tab_close closes, and
      any other method of a tab renews a managed one only. */
  lemma ApplyNames(c: Codec, m: Managed, r: LogRecord)
    ensures !r.ok || EffectiveTab(c, r) == [] || r.action == "tab_list" ==> Apply(c, m, r) == m
    ensures r.ok && EffectiveTab(c, r) != [] ==>
              var tab := EffectiveTab(c, r);
              && (r.action == "tab_new" ==> Apply(c, m, r) == m[tab := r.time])
              && (r.action == "tab_close" ==> Apply(c, m, r) == m - {tab})
              && (r.action in TAB_METHODS - {"tab_new", "tab_close", "tab_list"} ==>
                    Apply(c, m, r) == if tab in m then m[tab := r.time] else m)
  {
  }

  function Fold(c: Codec, m: Managed, rs: seq<LogRecord>): Managed
    decreases |rs|
  {
    if rs == [] then m else Fold(c, Apply(c, m, rs[0]), rs[1..])
  }

  lemma {:induction false} FoldAppend(c: Codec, m: Managed, a: seq<LogRecord>, b: seq<LogRecord>)
    ensures Fold(c, m, a + b) == Fold(c, Fold(c, m, a), b)
    decreases |a|
  {
    if a == [] {
      assert a + b == b;
    } else {
      assert (a + b)[1..] == a[1..] + b;
      FoldAppend(c, Apply(c, m, a[0]), a[1..], b);
    }
  }

  /** r opens, closes or renews the tab. */
  predicate Opens(c: Codec, r: LogRecord, tab: Str) {
    r.ok && EffectiveTab(c, r) == tab && r.action == TAB_NEW
  }

  predicate Closes(c: Codec, r: LogRecord, tab: Str) {
    r.ok && EffectiveTab(c, r) == tab && r.action == TAB_CLOSE
  }

  predicate Renews(c: Codec, r: LogRecord, tab: Str) {
    r.ok && EffectiveTab(c, r) == tab
    && r.action in TAB_METHODS && r.action != TAB_LIST && r.action != TAB_CLOSE
  }

  /** What one record does to one tab. */
  lemma ApplyToTab(c: Codec, m: Managed, r: LogRecord, tab: Str)
    requires tab != []
    ensures var n := Apply(c, m, r);
            && (tab in n <==> Opens(c, r, tab) || (tab in m && !Closes(c, r, tab)))
            && (tab in n ==> n[tab] == if Renews(c, r, tab) then r.time else m[tab])
    ensures Opens(c, r, tab) ==> Renews(c, r, tab) && !Closes(c, r, tab)
    ensures Closes(c, r, tab) ==> !Renews(c, r, tab)
  {
  }

  /** Record i is where the tab's current life began: it opens the tab and no later record closes it. */
  ghost predicate LiveSince(c: Codec, rs: seq<LogRecord>, tab: Str, i: nat) {
    i < |rs| && Opens(c, rs[i], tab) && forall j :: i <= j < |rs| ==> !Closes(c, rs[j], tab)
  }

  /** Record i is the last one that opens or renews the tab. */
  ghost predicate LastRenewal(c: Codec, rs: seq<LogRecord>, tab: Str, i: nat) {
    i < |rs| && Renews(c, rs[i], tab) && forall j :: i < j < |rs| ==> !Renews(c, rs[j], tab)
  }

  /** What replay restores, read off the log without folding: a tab is managed when some record
      opened it and none closed it since, and its time is that of the last record renewing it. */
  lemma {:induction false} FoldMeaning(c: Codec, rs: seq<LogRecord>, tab: Str)
    requires tab != []
    ensures tab in Fold(c, map[], rs) <==> exists i: nat :: LiveSince(c, rs, tab, i)
    ensures tab in Fold(c, map[], rs) ==>
              exists i: nat :: LastRenewal(c, rs, tab, i) && Fold(c, map[], rs)[tab] == rs[i].time
    decreases |rs|
  {
    if rs != [] {
      hide Fold;
      var n := |rs| - 1;
      var init, last := rs[..n], rs[n];
      assert rs == init + [last];
      FoldAppend(c, map[], init, [last]);
      FoldMeaning(c, init, tab);
      var before := Fold(c, map[], init);
      FoldOne(c, before, last);
      ApplyToTab(c, before, last, tab);
      hide Apply, Opens, Closes, Renews;
      forall i: nat ensures LiveSince(c, rs, tab, i) <==>
                            !Closes(c, last, tab) && ((i == n && Opens(c, last, tab)) || LiveSince(c, init, tab, i))
      {
        LiveSinceAppend(c, init, last, tab, i);
      }
      forall i: nat ensures LastRenewal(c, rs, tab, i) <==>
                            if Renews(c, last, tab) then i == n else LastRenewal(c, init, tab, i)
      {
        LastRenewalAppend(c, init, last, tab, i);
      }
      hide LiveSince;
      if Opens(c, last, tab) { assert LiveSince(c, rs, tab, n); }
      if Renews(c, last, tab) {
        assert LastRenewal(c, rs, tab, n);
      } else if tab in before && !Closes(c, last, tab) {
        var i: nat :| LastRenewal(c, init, tab, i) && before[tab] == init[i].time;
        assert LastRenewal(c, rs, tab, i);
      }
    }
  }

  lemma LiveSinceAppend(c: Codec, rs: seq<LogRecord>, last: LogRecord, tab: Str, i: nat)
    ensures LiveSince(c, rs + [last], tab, i) <==>
            !Closes(c, last, tab) && ((i == |rs| && Opens(c, last, tab)) || LiveSince(c, rs, tab, i))
  {
    var n, all := |rs|, rs + [last];
    assert all[n] == last;
    assert forall j :: 0 <= j < n ==> all[j] == rs[j];
    if LiveSince(c, all, tab, i) { assert !Closes(c, all[n], tab); }
  }

  /** Every record that closes the tab is followed by one that opens it again. */
  ghost predicate StaysOpen(c: Codec, rs: seq<LogRecord>, tab: Str) {
    forall j :: 0 <= j < |rs| && Closes(c, rs[j], tab) ==> exists i :: j < i < |rs| && Opens(c, rs[i], tab)
  }

  lemma StaysOpenAppend(c: Codec, rs: seq<LogRecord>, last: LogRecord, tab: Str)
    ensures StaysOpen(c, rs + [last], tab) <==>
            Opens(c, last, tab) || (!Closes(c, last, tab) && StaysOpen(c, rs, tab))
  {
    var n, all := |rs|, rs + [last];
    assert all[n] == last;
    assert forall j :: 0 <= j < n ==> all[j] == rs[j];
    if !Opens(c, last, tab) && !Closes(c, last, tab) && StaysOpen(c, all, tab) {
      forall j | 0 <= j < n && Closes(c, rs[j], tab) ensures exists i :: j < i < n && Opens(c, rs[i], tab) {
        assert Closes(c, all[j], tab);
        var i :| j < i < |all| && Opens(c, all[i], tab);
        assert rs[i] == all[i];
      }
    }
  }

  lemma LastRenewalAppend(c: Codec, rs: seq<LogRecord>, last: LogRecord, tab: Str, i: nat)
    ensures LastRenewal(c, rs + [last], tab, i) <==>
            if Renews(c, last, tab) then i == |rs| else LastRenewal(c, rs, tab, i)
  {
    var n, all := |rs|, rs + [last];
    assert all[n] == last;
    assert forall j :: 0 <= j < n ==> all[j] == rs[j];
    if i == n && Renews(c, last, tab) { assert LastRenewal(c, all, tab, i); }
    if LastRenewal(c, rs, tab, i) && !Renews(c, last, tab) { assert Renews(c, all[i], tab); }
  }

  /** What more records make of a managed tab: it stays unless one closes it for good, with the time of the
      last record renewing it, if any does. */
  lemma {:induction false} FoldOver(c: Codec, m: Managed, rs: seq<LogRecord>, tab: Str)
    requires tab != [] && tab in m
    ensures var f := Fold(c, m, rs);
            && (tab in f <==> StaysOpen(c, rs, tab))
            && (tab in f ==>
                  || (f[tab] == m[tab] && forall i: nat :: !LastRenewal(c, rs, tab, i))
                  || exists i: nat :: LastRenewal(c, rs, tab, i) && f[tab] == rs[i].time)
    decreases |rs|
  {
    hide StaysOpen;
    if rs == [] {
      NoRecords(c, tab);
    } else {
      var n := |rs| - 1;
      var init, last := rs[..n], rs[n];
      assert rs == init + [last];
      FoldAppend(c, m, init, [last]);
      FoldOver(c, m, init, tab);
      StaysOpenAppend(c, init, last, tab);
      forall i: nat ensures LastRenewal(c, rs, tab, i) <==>
                            if Renews(c, last, tab) then i == n else LastRenewal(c, init, tab, i)
      {
        LastRenewalAppend(c, init, last, tab, i);
      }
      var before := Fold(c, m, init);
      FoldOne(c, before, last);
      ApplyToTab(c, before, last, tab);
      hide Fold, Apply, Opens, Closes, Renews;
      if tab in before && !Renews(c, last, tab) && !Closes(c, last, tab) {
        assert Apply(c, before, last)[tab] == before[tab];
        if i: nat :| LastRenewal(c, init, tab, i) && before[tab] == init[i].time {
          assert LastRenewal(c, rs, tab, i) && rs[i] == init[i];
        }
      } else if Renews(c, last, tab) {
        assert LastRenewal(c, rs, tab, n);
      }
    }
  }

  lemma NoRecords(c: Codec, tab: Str)
    ensures StaysOpen(c, [], tab) && forall i: nat :: !LastRenewal(c, [], tab, i)
  {
  }

  // ---- Lines -------------------------------------------------------------

  /** End of the first line of s, counting its newline. */
  function LineEnd(s: Str): (n: nat)
    requires s != []
    ensures 1 <= n <= |s|
    ensures forall i :: 0 <= i < n - 1 ==> s[i] != NEWLINE
    ensures n < |s| ==> s[n - 1] == NEWLINE
  {
    if s[0] == NEWLINE || |s| == 1 then 1 else 1 + LineEnd(s[1..])
  }

  datatype Line = Blank | Corrupt | Entry(rec: LogRecord)

  function ReadLine(c: Codec, line: Str): Line {
    var trimmed := TrimSpace(line);
    if trimmed == [] then Blank
    else
      match c.parse(trimmed)
      case None => Corrupt
      case Some(r) => Entry(r)
  }

  // ---- Recovery ----------------------------------------------------------

  /** What replay keeps of a file: the records of its good lines and the length of the prefix they fill. */
  datatype Recovered = Recovered(recs: seq<LogRecord>, kept: nat)

  function Recover(read: Str -> Line, file: Str): (r: Recovered)
    ensures r.kept <= |file|
    decreases |file|
  {
    if file == [] then Recovered([], 0)
    else
      var n := LineEnd(file);
      RecoverLine(read(file[..n]), n, Recover(read, file[n..]))
  }

  /** A corrupt line abandons itself and everything after it. */
  function RecoverLine(line: Line, n: nat, rest: Recovered): Recovered {
    if line.Corrupt? then Recovered([], 0)
    else Recovered((if line.Entry? then [line.rec] else []) + rest.recs, n + rest.kept)
  }

  function Reader(c: Codec): Str -> Line {
    line => ReadLine(c, line)
  }

  function Replay(c: Codec, file: Str): Managed {
    Fold(c, map[], Recover(Reader(c), file).recs)
  }

  /** Recovering a recovered file finds the same records and cuts nothing more, whatever the file held. */
  lemma {:induction false} RecoverIdempotent(read: Str -> Line, file: Str)
    ensures var r := Recover(read, file); Recover(read, file[..r.kept]) == r
    decreases |file|
  {
    var r := Recover(read, file);
    if r.kept > 0 {
      var n := LineEnd(file);
      var rest := Recover(read, file[n..]);
      var cut := file[..r.kept];
      LineEndOfPrefix(file, r.kept);
      assert cut[..n] == file[..n];
      assert cut[n..] == file[n..][..rest.kept];
      RecoverIdempotent(read, file[n..]);
      RecoverUnfold(read, cut);
    }
  }

  lemma RecoverUnfold(read: Str -> Line, file: Str)
    requires file != []
    ensures var n := LineEnd(file);
            Recover(read, file) == RecoverLine(read(file[..n]), n, Recover(read, file[n..]))
  {
  }

  lemma {:induction false} LineEndOfPrefix(s: Str, k: nat)
    requires s != [] && LineEnd(s) <= k <= |s|
    ensures LineEnd(s[..k]) == LineEnd(s)
  {
    if !(s[0] == NEWLINE || |s| == 1) {
      LineEndOfPrefix(s[1..], k - 1);
      assert s[..k][1..] == s[1..][..k - 1];
    }
  }

  lemma {:induction false} LineEndIs(line: Str, rest: Str)
    requires NEWLINE !in line
    ensures LineEnd(line + [NEWLINE] + rest) == |line| + 1
  {
    var s := line + [NEWLINE] + rest;
    if line == [] {
      assert s[0] == NEWLINE;
    } else {
      assert s[0] == line[0] && line[0] in line;
      assert s[1..] == line[1..] + [NEWLINE] + rest;
      LineEndIs(line[1..], rest);
    }
  }

  lemma {:induction false} LineEndWhole(line: Str)
    requires line != [] && NEWLINE !in line
    ensures LineEnd(line) == |line|
  {
    if |line| > 1 {
      assert line[0] in line;
      LineEndWhole(line[1..]);
    }
  }

  /** The file ends where a line ends. */
  predicate EndsLine(file: Str) {
    file == [] || file[|file| - 1] == NEWLINE
  }

  /** A file that recovers whole and ends a line can be extended: recovery goes on with what was added. */
  lemma {:induction false} RecoverAppend(read: Str -> Line, file: Str, more: Str)
    requires EndsLine(file) && Recover(read, file).kept == |file|
    ensures var a, b := Recover(read, file), Recover(read, more);
            Recover(read, file + more) == Recovered(a.recs + b.recs, |file| + b.kept)
    decreases |file|
  {
    if file == [] {
      assert file + more == more;
    } else {
      var n := LineEnd(file);
      var tail := file[n..];
      LineEndStable(file, more);
      SplitAfter(file, more, n);
      RecoverUnfold(read, file);
      RecoverUnfold(read, file + more);
      RecoverAppend(read, tail, more);
      var line := read(file[..n]);
      RecoverLineAppend(line, n, Recover(read, tail), Recover(read, more), Recover(read, tail + more));
    }
  }

  lemma SplitAfter(file: Str, more: Str, n: nat)
    requires n <= |file|
    ensures (file + more)[..n] == file[..n] && (file + more)[n..] == file[n..] + more
    ensures EndsLine(file) ==> EndsLine(file[n..])
  {
  }

  lemma RecoverLineAppend(line: Line, n: nat, a: Recovered, b: Recovered, ab: Recovered)
    requires ab.recs == a.recs + b.recs && ab.kept == a.kept + b.kept && !line.Corrupt?
    ensures RecoverLine(line, n, ab)
            == Recovered(RecoverLine(line, n, a).recs + b.recs, n + a.kept + b.kept)
  {
  }

  lemma {:induction false} LineEndStable(file: Str, more: Str)
    requires file != [] && file[|file| - 1] == NEWLINE
    ensures LineEnd(file + more) == LineEnd(file)
  {
    if file[0] != NEWLINE {
      assert |file| > 1;
      assert (file + more)[1..] == file[1..] + more;
      LineEndStable(file[1..], more);
    }
  }

  // ---- What the log needs of the JSON library ----------------------------

  function SnapshotRecord(c: Codec, tab: Str, time: int): LogRecord {
    LogRecord(TAB_NEW, c.snapshotBody, tab, [], 0, true, [], time)
  }

  /** Two records that update the managed tabs alike. */
  predicate SameUpdate(c: Codec, a: LogRecord, b: LogRecord) {
    a.ok == b.ok && a.action == b.action && a.time == b.time && EffectiveTab(c, a) == EffectiveTab(c, b)
  }

  predicate Spelled(c: Codec, s: Str) {
    c.respell(s) == s
  }

  /** The record as the log gives it back. */
  function Respelled(c: Codec, r: LogRecord): LogRecord {
    if r.tab == [] then r else r.(tab := c.respell(r.tab))
  }

  /** A time that can be written back in a snapshot record. */
  ghost predicate Stampable(c: Codec, time: int) {
    forall tab :: c.encode(SnapshotRecord(c, tab, time)).Some?
  }

  /** An encoded record is one JSON object on one line (sections 2 and 4 of RFC 8259). It parses back
      to a record with the same effect, its tab respelled; no proper prefix of it is a JSON text, and
      neither is a JSON text followed by it. */
  ghost predicate EncodesWell(c: Codec, r: LogRecord, e: Str) {
    && |e| >= 2 && e[0] == OPEN_BRACE && e[|e| - 1] == CLOSE_BRACE && NEWLINE !in e
    && c.parse(e).Some? && SameUpdate(c, c.parse(e).value, Respelled(c, r))
    && Unambiguous(c, e) && Stampable(c, r.time)
  }

  ghost predicate Unambiguous(c: Codec, e: Str) {
    && (forall k :: 0 < k < |e| ==> c.parse(e[..k]).None?)
    && (forall x :: c.parse(TrimSpace(x)).Some? ==> c.parse(TrimSpace(x + e + [NEWLINE])).None?)
  }

  ghost predicate Lawful(c: Codec) {
    && (forall r :: c.encode(r).Some? ==> EncodesWell(c, r, c.encode(r).value))
    && (forall x :: c.parse(x).Some? ==> Stampable(c, c.parse(x).value.time) && Spelled(c, c.parse(x).value.tab))
    && SpellsWell(c)
  }

  /** Respelling is done after one round, keeps ASCII and loses no string; decoded tabs need none. */
  ghost predicate SpellsWell(c: Codec) {
    && (forall s :: Spelled(c, c.respell(s)) && (c.respell(s) == [] <==> s == []))
    && (forall s: Str :: (forall i :: 0 <= i < |s| ==> s[i] < 128) ==> Spelled(c, s))
    && (forall body :: Spelled(c, c.tabOf(body)))
  }

  lemma RespelledTab(c: Codec, r: LogRecord)
    requires SpellsWell(c)
    ensures EffectiveTab(c, Respelled(c, r)) == c.respell(EffectiveTab(c, r))
    ensures Spelled(c, EffectiveTab(c, r)) ==> Respelled(c, r) == r
  {
    assert Spelled(c, c.tabOf(r.body));
  }

  /** An encoded record is read back from its line, with or without the newline. */
  lemma ReadEncoded(c: Codec, r: LogRecord, blank: Str)
    requires Lawful(c) && c.encode(r).Some? && TrimLeft(blank) == []
    ensures var e := c.encode(r).value;
            && EncodesWell(c, r, e)
            && ReadLine(c, blank + e) == Entry(c.parse(e).value)
            && ReadLine(c, blank + e + [NEWLINE]) == Entry(c.parse(e).value)
  {
    hide TrimLeft, TrimSpace, Unambiguous, Stampable, SpellsWell;
    assert EncodesWell(c, r, c.encode(r).value);
    TrimAround(blank, c.encode(r).value);
  }

  lemma TrimCut(e: Str, k: nat) returns (j: nat)
    requires 0 < k < |e| && e[0] == OPEN_BRACE
    ensures 0 < j <= k && TrimSpace(e[..k]) == e[..j]
  {
    var cut := e[..k];
    TrimRightKeepsInert(cut);
    assert TrimLeft(cut) == cut;
    j := |TrimRight(cut)|;
    assert cut[..j] == e[..j];
  }

  lemma ReadCut(c: Codec, r: LogRecord, k: nat)
    requires Lawful(c) && c.encode(r).Some? && 0 < k < |c.encode(r).value|
    ensures ReadLine(c, c.encode(r).value[..k]) == Corrupt
  {
    var e := c.encode(r).value;
    assert EncodesWell(c, r, e);
    var j := TrimCut(e, k);
  }

  // ---- Damage ------------------------------------------------------------

  /** A line body that reads as rec, whole or with its newline, and as nothing when cut short. */
  ghost predicate Framed(read: Str -> Line, e: Str, rec: LogRecord) {
    && e != [] && NEWLINE !in e
    && read(e) == Entry(rec) && read(e + [NEWLINE]) == Entry(rec)
    && forall k :: 0 < k < |e| ==> read(e[..k]) == Corrupt
  }

  ghost predicate AllFramed(read: Str -> Line, es: seq<Str>, recs: seq<LogRecord>) {
    |es| == |recs| && forall i :: 0 <= i < |es| ==> Framed(read, es[i], recs[i])
  }

  function Join(es: seq<Str>): Str {
    if es == [] then [] else es[0] + [NEWLINE] + Join(es[1..])
  }

  /** Lines that are complete in the first n bytes; the last may lack its newline only. */
  function Complete(es: seq<Str>, n: nat): (k: nat)
    ensures k <= |es|
  {
    if es == [] || n < |es[0]| then 0
    else if n == |es[0]| then 1
    else 1 + Complete(es[1..], n - |es[0]| - 1)
  }

  /** The bytes those lines fill. */
  function CompleteBytes(es: seq<Str>, n: nat): (k: nat)
    ensures k <= n
  {
    if es == [] || n < |es[0]| then 0
    else if n == |es[0]| then n
    else |es[0]| + 1 + CompleteBytes(es[1..], n - |es[0]| - 1)
  }

  lemma {:induction false} CutLines(read: Str -> Line, es: seq<Str>, recs: seq<LogRecord>, n: nat)
    requires AllFramed(read, es, recs) && n <= |Join(es)|
    ensures Recover(read, Join(es)[..n]) == Recovered(recs[..Complete(es, n)], CompleteBytes(es, n))
    decreases |es|
  {
    if es != [] {
      var e, tail := es[0], Join(es[1..]);
      assert Framed(read, e, recs[0]);
      if n > |e| {
        hide Recover;
        var n' := n - |e| - 1;
        assert AllFramed(read, es[1..], recs[1..]);
        CutLines(read, es[1..], recs[1..], n');
        RecoverEntry(read, e, recs[0], tail[..n']);
        assert Join(es)[..n] == e + [NEWLINE] + tail[..n'];
        PrependTake(recs, Complete(es[1..], n'));
      } else if n > 0 {
        hide Recover;
        assert Join(es)[..n] == e[..n];
        RecoverLast(read, e, recs[0], n);
        assert recs[..1] == [recs[0]];
      }
    }
  }

  lemma PrependTake<T>(s: seq<T>, k: nat)
    requires k < |s|
    ensures [s[0]] + s[1..][..k] == s[..1 + k]
  {
  }

  lemma RecoverLast(read: Str -> Line, e: Str, rec: LogRecord, n: nat)
    requires Framed(read, e, rec) && 0 < n <= |e|
    ensures Recover(read, e[..n]) == if n == |e| then Recovered([rec], n) else Recovered([], 0)
  {
    var cut := e[..n];
    LineEndWhole(cut);
    RecoverUnfold(read, cut);
    assert cut[..n] == cut && cut[n..] == [];
    assert n == |e| ==> cut == e;
  }

  lemma RecoverEntry(read: Str -> Line, e: Str, rec: LogRecord, rest: Str)
    requires NEWLINE !in e && read(e + [NEWLINE]) == Entry(rec)
    ensures var tail := Recover(read, rest);
            Recover(read, e + [NEWLINE] + rest) == Recovered([rec] + tail.recs, |e| + 1 + tail.kept)
  {
    var s := e + [NEWLINE] + rest;
    LineEndIs(e, rest);
    assert s[..|e| + 1] == e + [NEWLINE] && s[|e| + 1..] == rest;
    RecoverUnfold(read, s);
  }

  lemma {:induction false} CutNothing(es: seq<Str>)
    ensures Complete(es, |Join(es)|) == |es| && CompleteBytes(es, |Join(es)|) == |Join(es)|
    ensures EndsLine(Join(es))
  {
    if es != [] { CutNothing(es[1..]); }
  }

  lemma CorruptLine(read: Str -> Line, es: seq<Str>, recs: seq<LogRecord>, tail: Str)
    requires AllFramed(read, es, recs)
    requires tail != [] && read(tail[..LineEnd(tail)]) == Corrupt
    ensures Recover(read, Join(es) + tail) == Recovered(recs, |Join(es)|)
  {
    RecoverUnfold(read, tail);
    CutNothing(es);
    CutLines(read, es, recs, |Join(es)|);
    assert Join(es)[..|Join(es)|] == Join(es) && recs[..|recs|] == recs;
    RecoverAppend(read, Join(es), tail);
    assert recs + [] == recs;
  }

  // ---- Damage to a log of records ----------------------------------------

  ghost predicate Encodable(c: Codec, rs: seq<LogRecord>) {
    forall i :: 0 <= i < |rs| ==> c.encode(rs[i]).Some?
  }

  function Encode(c: Codec, rs: seq<LogRecord>): (es: seq<Str>)
    requires Encodable(c, rs)
    ensures |es| == |rs|
  {
    seq(|rs|, i requires 0 <= i < |rs| => c.encode(rs[i]).value)
  }

  function LineOf(c: Codec, r: LogRecord): Str
    requires c.encode(r).Some?
  {
    c.encode(r).value + [NEWLINE]
  }

  /** The log file that appending rs to an empty one writes. */
  function Render(c: Codec, rs: seq<LogRecord>): Str
    requires Encodable(c, rs)
  {
    Join(Encode(c, rs))
  }

  function Decode(c: Codec, rs: seq<LogRecord>): (ds: seq<LogRecord>)
    requires Lawful(c) && Encodable(c, rs)
    ensures |ds| == |rs|
  {
    seq(|rs|, i requires 0 <= i < |rs| =>
      assert EncodesWell(c, rs[i], c.encode(rs[i]).value);
      c.parse(c.encode(rs[i]).value).value)
  }

  ghost predicate SameUpdates(c: Codec, a: seq<LogRecord>, b: seq<LogRecord>) {
    |a| == |b| && forall i :: 0 <= i < |a| ==> SameUpdate(c, a[i], b[i])
  }

  lemma {:induction false} FoldSame(c: Codec, m: Managed, a: seq<LogRecord>, b: seq<LogRecord>)
    requires SameUpdates(c, a, b)
    ensures Fold(c, m, a) == Fold(c, m, b)
    decreases |a|
  {
    if a != [] {
      assert SameUpdate(c, a[0], b[0]);
      FoldSame(c, Apply(c, m, a[0]), a[1..], b[1..]);
    }
  }

  lemma RecordFramed(c: Codec, r: LogRecord)
    requires Lawful(c) && c.encode(r).Some?
    ensures var e := c.encode(r).value; EncodesWell(c, r, e) && Framed(Reader(c), e, c.parse(e).value)
  {
    var e := c.encode(r).value;
    ReadEncoded(c, r, []);
    assert [] + e == e;
    forall k | 0 < k < |e| ensures ReadLine(c, e[..k]) == Corrupt { ReadCut(c, r, k); }
  }

  lemma EncodedFrames(c: Codec, rs: seq<LogRecord>)
    requires Lawful(c) && Encodable(c, rs)
    ensures AllFramed(Reader(c), Encode(c, rs), Decode(c, rs))
    ensures SameUpdates(c, Decode(c, rs), Stored(c, rs))
  {
    forall i | 0 <= i < |rs|
      ensures Framed(Reader(c), Encode(c, rs)[i], Decode(c, rs)[i])
      ensures SameUpdate(c, Decode(c, rs)[i], Stored(c, rs)[i])
    {
      RecordFramed(c, rs[i]);
    }
  }

  /** The records as the log gives them back. */
  function Stored(c: Codec, rs: seq<LogRecord>): (st: seq<LogRecord>)
    ensures |st| == |rs| && forall i :: 0 <= i < |rs| ==> st[i] == Respelled(c, rs[i])
  {
    seq(|rs|, i requires 0 <= i < |rs| => Respelled(c, rs[i]))
  }

  /** Records whose tabs are spelled are given back as they were. */
  lemma StoredSpelled(c: Codec, rs: seq<LogRecord>)
    requires Lawful(c) && forall i :: 0 <= i < |rs| ==> Spelled(c, EffectiveTab(c, rs[i]))
    ensures Stored(c, rs) == rs
  {
    hide SpellsWell, EncodesWell, Stampable, EffectiveTab;
    forall i | 0 <= i < |rs| ensures Respelled(c, rs[i]) == rs[i] { RespelledTab(c, rs[i]); }
  }

  /** Cut anywhere, a log recovers to the fold of exactly the records complete before the cut, and
      the file is truncated to their bytes. */
  lemma CutRecovers(c: Codec, rs: seq<LogRecord>, n: nat)
    requires Lawful(c) && Encodable(c, rs) && n <= |Render(c, rs)|
    ensures var k := Complete(Encode(c, rs), n); var file := Render(c, rs)[..n];
            && Replay(c, file) == Fold(c, map[], Stored(c, rs)[..k])
            && Recover(Reader(c), file).kept == CompleteBytes(Encode(c, rs), n)
  {
    EncodedFrames(c, rs);
    CutLines(Reader(c), Encode(c, rs), Decode(c, rs), n);
    var k := Complete(Encode(c, rs), n);
    FoldSame(c, map[], Decode(c, rs)[..k], Stored(c, rs)[..k]);
  }

  /** Uncut, it recovers to all of them and loses nothing. */
  lemma RenderRecovers(c: Codec, rs: seq<LogRecord>)
    requires Lawful(c) && Encodable(c, rs)
    ensures Replay(c, Render(c, rs)) == Fold(c, map[], Stored(c, rs))
    ensures Recover(Reader(c), Render(c, rs)).kept == |Render(c, rs)|
    ensures EndsLine(Render(c, rs))
  {
    var es := Encode(c, rs);
    CutNothing(es);
    assert Render(c, rs)[..|Join(es)|] == Render(c, rs) && Stored(c, rs)[..|rs|] == Stored(c, rs);
    CutRecovers(c, rs, |Join(es)|);
  }

  /** A corrupt line, ended or not, abandons itself and whatever follows; the records before it survive. */
  lemma CorruptLineRecovers(c: Codec, rs: seq<LogRecord>, tail: Str)
    requires Lawful(c) && Encodable(c, rs)
    requires tail != [] && ReadLine(c, tail[..LineEnd(tail)]) == Corrupt
    ensures var file := Render(c, rs) + tail;
            && Replay(c, file) == Fold(c, map[], Stored(c, rs))
            && Recover(Reader(c), file).kept == |Render(c, rs)|
  {
    EncodedFrames(c, rs);
    CorruptLine(Reader(c), Encode(c, rs), Decode(c, rs), tail);
    FoldSame(c, map[], Decode(c, rs), Stored(c, rs));
  }

  /** What the cut leaves: line j is kept when all of it but its newline is there. */
  lemma {:induction false} CompleteMeaning(es: seq<Str>, n: nat, j: nat)
    requires j <= |es| && n <= |Join(es)|
    ensures j <= Complete(es, n) <==> j == 0 || |Join(es[..j])| <= n + 1
    ensures j == Complete(es, n) ==> CompleteBytes(es, n) == if |Join(es[..j])| <= n then |Join(es[..j])| else n
  {
    if es == [] || j == 0 {
      assert es[..j] == [];
      if es != [] && n > |es[0]| { CompleteMeaning(es[1..], n - |es[0]| - 1, 0); }
    } else {
      assert es[..j][1..] == es[1..][..j - 1];
      if n > |es[0]| { CompleteMeaning(es[1..], n - |es[0]| - 1, j - 1); }
    }
  }

  // ---- The unterminated last line ----------------------------------------

  /** The bytes after the last newline. */
  function LastLine(file: Str): Str
    decreases |file|
  {
    if EndsLine(file) then [] else LastLine(file[..|file| - 1]) + [file[|file| - 1]]
  }

  /** A file as its ended lines and its last line. */
  ghost predicate Splits(file: Str, good: Str, x: Str) {
    file == good + x && EndsLine(good) && NEWLINE !in x
  }

  lemma {:induction false} LastLineSplits(file: Str) returns (good: Str)
    ensures Splits(file, good, LastLine(file))
    decreases |file|
  {
    if EndsLine(file) {
      good := file;
      assert file == good + [];
    } else {
      var n := |file| - 1;
      good := LastLineSplits(file[..n]);
      assert file == file[..n] + [file[n]];
    }
  }

  /** Nothing but white space follows the last newline, so a record can be appended. */
  predicate AppendSafe(file: Str) {
    TrimLeft(LastLine(file)) == []
  }

  lemma {:induction false} RecoverSplit(read: Str -> Line, a: Str, b: Str)
    requires EndsLine(a) && Recover(read, a + b).kept == |a + b|
    ensures Recover(read, a).kept == |a|
    decreases |a|
  {
    if a != [] {
      var n := LineEnd(a);
      LineEndStable(a, b);
      SplitAfter(a, b, n);
      RecoverUnfold(read, a);
      RecoverUnfold(read, a + b);
      RecoverSplit(read, a[n..], b);
    }
  }

  lemma RecoverSingle(read: Str -> Line, x: Str)
    requires x != [] && NEWLINE !in x
    ensures Recover(read, x) == RecoverLine(read(x), |x|, Recovered([], 0))
  {
    LineEndWhole(x);
    assert x[..|x|] == x && x[|x|..] == [];
    RecoverUnfold(read, x);
  }

  /** A file that recovers whole is good lines and then its last line. */
  lemma RecoverLastLine(read: Str -> Line, good: Str, x: Str)
    requires Splits(good + x, good, x) && Recover(read, good + x).kept == |good + x|
    ensures Recover(read, good).kept == |good|
    ensures x == [] ==> Recover(read, good + x).recs == Recover(read, good).recs
    ensures x != [] ==> !read(x).Corrupt? && Recover(read, good + x).recs
                        == Recover(read, good).recs + (if read(x).Entry? then [read(x).rec] else [])
  {
    RecoverSplit(read, good, x);
    RecoverAppend(read, good, x);
    if x != [] { RecoverSingle(read, x); } else { assert good + x == good; }
  }

  /** A line glued onto the last line of a file is read as one line with it. */
  lemma RecoverGlued(read: Str -> Line, good: Str, x: Str, e: Str)
    requires Splits(good + x, good, x) && NEWLINE !in e && Recover(read, good).kept == |good|
    ensures var line := read(x + e + [NEWLINE]); var next := good + x + (e + [NEWLINE]);
            && Recover(read, next).recs
               == Recover(read, good).recs + (if line.Entry? then [line.rec] else [])
            && (!line.Corrupt? ==> Recover(read, next).kept == |next|)
  {
    hide Recover;
    var last := x + e + [NEWLINE];
    LineEndIs(x + e, []);
    assert last + [] == last;
    assert last[..|last|] == last && last[|last|..] == [];
    RecoverUnfold(read, last);
    RecoverEmpty(read);
    assert good + x + (e + [NEWLINE]) == good + last;
    RecoverAppend(read, good, last);
  }

  lemma RecoverEmpty(read: Str -> Line)
    ensures Recover(read, []) == Recovered([], 0)
  {
  }

  /** Appending to a safe file keeps it whole and reads back as just that line's record more. */
  lemma SafeAppendReads(c: Codec, file: Str, r: LogRecord)
    requires Lawful(c) && c.encode(r).Some?
    requires Recover(Reader(c), file).kept == |file| && AppendSafe(file)
    ensures var next := file + LineOf(c, r);
            && c.parse(c.encode(r).value).Some?
            && Recover(Reader(c), next).recs == Recover(Reader(c), file).recs + [c.parse(c.encode(r).value).value]
            && Recover(Reader(c), next).kept == |next| && EndsLine(next)
  {
    hide Recover, LastLine;
    var x, e := LastLine(file), c.encode(r).value;
    var good := LastLineSplits(file);
    RecoverLastLine(Reader(c), good, x);
    BlankOrNot(x);
    ReadEncoded(c, r, x);
    hide ReadLine;
    RecoverGlued(Reader(c), good, x, e);
  }

  /** It applies just that record, as the log gives it back. */
  lemma SafeAppend(c: Codec, file: Str, r: LogRecord)
    requires Lawful(c) && c.encode(r).Some?
    requires Recover(Reader(c), file).kept == |file| && AppendSafe(file)
    ensures var next := file + LineOf(c, r);
            && Replay(c, next) == Apply(c, Replay(c, file), Respelled(c, r))
            && (Spelled(c, EffectiveTab(c, r)) ==> Replay(c, next) == Apply(c, Replay(c, file), r))
            && Recover(Reader(c), next).kept == |next| && EndsLine(next)
  {
    hide Recover, LastLine, ReadLine, TrimSpace, AppendSafe, Lawful;
    SafeAppendReads(c, file, r);
    EncodedUpdates(c, r);
    var rec := c.parse(c.encode(r).value).value;
    FoldAppend(c, map[], Recover(Reader(c), file).recs, [rec]);
    hide EffectiveTab;
    FoldOne(c, Replay(c, file), rec);
  }

  lemma FoldOne(c: Codec, m: Managed, r: LogRecord)
    ensures Fold(c, m, [r]) == Apply(c, m, r)
  {
    hide Apply;
    assert [r][1..] == [];
  }

  lemma EncodedStampable(c: Codec, r: LogRecord)
    requires Lawful(c) && c.encode(r).Some?
    ensures Stampable(c, r.time)
  {
    hide Unambiguous, Stampable, SpellsWell;
    assert EncodesWell(c, r, c.encode(r).value);
  }

  /** What an encoded record does to the managed tabs when it is read back. */
  lemma EncodedUpdates(c: Codec, r: LogRecord)
    requires Lawful(c) && c.encode(r).Some?
    ensures c.parse(c.encode(r).value).Some?
    ensures forall m :: Apply(c, m, c.parse(c.encode(r).value).value) == Apply(c, m, Respelled(c, r))
    ensures Spelled(c, EffectiveTab(c, r)) ==> Respelled(c, r) == r
  {
    hide Unambiguous, Stampable, SpellsWell;
    assert EncodesWell(c, r, c.encode(r).value);
    RespelledTab(c, r);
  }

  lemma {:induction false} FoldKeysSpelled(c: Codec, m: Managed, rs: seq<LogRecord>)
    requires forall t :: t in m ==> Spelled(c, t)
    requires forall r :: r in rs ==> Spelled(c, EffectiveTab(c, r))
    ensures forall t :: t in Fold(c, m, rs) ==> Spelled(c, t)
    decreases |rs|
  {
    if rs != [] {
      assert rs[0] in rs;
      FoldKeysSpelled(c, Apply(c, m, rs[0]), rs[1..]);
    }
  }

  lemma {:induction false} RecoveredSpelled(c: Codec, file: Str)
    requires Lawful(c)
    ensures forall r :: r in Recover(Reader(c), file).recs ==> Spelled(c, EffectiveTab(c, r))
    decreases |file|
  {
    if file != [] {
      RecoverUnfold(Reader(c), file);
      RecoveredSpelled(c, file[LineEnd(file)..]);
    }
  }

  /** A replay manages spelled tabs only. */
  lemma ReplaySpelled(c: Codec, file: Str)
    requires Lawful(c)
    ensures forall t :: t in Replay(c, file) ==> Spelled(c, t)
  {
    hide Recover;
    RecoveredSpelled(c, file);
    FoldKeysSpelled(c, map[], Recover(Reader(c), file).recs);
  }

  /** A record that opens a tab leaves memory and log in agreement exactly when the tab is spelled. */
  lemma OpenAgreesIffSpelled(c: Codec, file: Str, r: LogRecord, tab: Str)
    requires Lawful(c) && Recover(Reader(c), file).kept == |file| && AppendSafe(file)
    requires c.encode(r).Some? && tab != [] && Opens(c, r, tab)
    ensures Replay(c, file + LineOf(c, r)) == Apply(c, Replay(c, file), r) <==> Spelled(c, tab)
  {
    hide Recover, LastLine;
    SafeAppend(c, file, r);
    ReplaySpelled(c, file + LineOf(c, r));
    assert tab in Apply(c, Replay(c, file), r);
  }

  lemma GluedLine(c: Codec, x: Str, r: LogRecord)
    requires Lawful(c) && c.encode(r).Some? && ReadLine(c, x).Entry?
    ensures !ReadLine(c, x + c.encode(r).value + [NEWLINE]).Entry?
    ensures Stampable(c, ReadLine(c, x).rec.time)
    ensures NEWLINE !in c.encode(r).value
  {
    assert EncodesWell(c, r, c.encode(r).value);
  }

  lemma LastEntry(c: Codec, file: Str, good: Str)
    requires Recover(Reader(c), file).kept == |file| && !AppendSafe(file)
    requires Splits(file, good, LastLine(file))
    ensures ReadLine(c, LastLine(file)).Entry?
    ensures Recover(Reader(c), good).kept == |good|
    ensures Recover(Reader(c), file).recs
            == Recover(Reader(c), good).recs + [ReadLine(c, LastLine(file)).rec]
  {
    hide Recover, LastLine;
    BlankOrNot(LastLine(file));
    RecoverLastLine(Reader(c), good, LastLine(file));
  }

  /** Appending to any other file glues the record onto the last one: replay then loses both. */
  lemma GluedAppend(c: Codec, file: Str, good: Str, r: LogRecord)
    requires Lawful(c) && c.encode(r).Some?
    requires Recover(Reader(c), file).kept == |file| && !AppendSafe(file)
    requires Splits(file, good, LastLine(file))
    ensures var line := ReadLine(c, LastLine(file));
            && line.Entry? && Stampable(c, line.rec.time)
            && Replay(c, file + LineOf(c, r)) == Replay(c, good)
            && Replay(c, file) == Apply(c, Replay(c, good), line.rec)
  {
    hide Recover, LastLine, ReadLine;
    var x, e := LastLine(file), c.encode(r).value;
    LastEntry(c, file, good);
    GluedLine(c, x, r);
    RecoverGlued(Reader(c), good, x, e);
    var recs := Recover(Reader(c), good).recs;
    FoldAppend(c, map[], recs, [ReadLine(c, x).rec]);
    assert recs + [] == recs;
  }

  lemma FreshTab(c: Codec, m: Managed) returns (tab: Str)
    requires SpellsWell(c)
    ensures tab != [] && tab !in m && Spelled(c, tab)
  {
    var n := LongestBelow(m.Keys);
    tab := seq(n + 1, _ => SPACE);
  }

  lemma LongestBelow(keys: set<Str>) returns (n: nat)
    ensures forall k :: k in keys ==> |k| <= n
  {
    n := 0;
    if keys != {} {
      var k :| k in keys;
      n := LongestBelow(keys - {k});
      if n < |k| { n := |k|; }
    }
  }

  /** Memory and a replay of the file agree after every append of a spelled record exactly when the file is
      append-safe. */
  lemma AppendAgreesIffSafe(c: Codec, file: Str)
    requires Lawful(c) && Recover(Reader(c), file).kept == |file|
    ensures (forall r :: c.encode(r).Some? && Spelled(c, EffectiveTab(c, r)) ==>
               Replay(c, file + LineOf(c, r)) == Apply(c, Replay(c, file), r))
            <==> AppendSafe(file)
  {
    hide Recover, LastLine;
    if AppendSafe(file) {
      forall r | c.encode(r).Some? && Spelled(c, EffectiveTab(c, r))
        ensures Replay(c, file + LineOf(c, r)) == Apply(c, Replay(c, file), r)
      {
        SafeAppend(c, file, r);
      }
    } else {
      var good := LastLineSplits(file);
      var tab := FreshTab(c, Replay(c, good));
      var x := LastLine(file);
      LastEntry(c, file, good);
      var r := SnapshotRecord(c, tab, ReadLine(c, x).rec.time);
      GluedAppend(c, file, good, r);
      assert tab in Apply(c, Replay(c, file), r);
    }
  }

  // ---- The snapshot a rotation writes ------------------------------------

  function SnapshotRecords(c: Codec, m: Managed, keys: seq<Str>): (rs: seq<LogRecord>)
    requires forall k :: k in keys ==> k in m
    ensures |rs| == |keys|
  {
    seq(|keys|, i requires 0 <= i < |keys| => SnapshotRecord(c, keys[i], m[keys[i]]))
  }

  /** Replaying a snapshot restores the map it was written from, in whatever order its keys come. */
  lemma {:induction false} SnapshotFolds(c: Codec, m: Managed, keys: seq<Str>)
    requires forall k :: k in keys ==> k in m && k != []
    ensures var f := Fold(c, map[], SnapshotRecords(c, m, keys));
            forall k :: (k in f <==> k in keys) && (k in f ==> f[k] == m[k])
    decreases |keys|
  {
    if keys != [] {
      var n := |keys| - 1;
      var init, last := keys[..n], SnapshotRecord(c, keys[n], m[keys[n]]);
      assert keys == init + [keys[n]];
      assert forall k :: k in init ==> k in keys;
      SnapshotFolds(c, m, init);
      assert SnapshotRecords(c, m, keys) == SnapshotRecords(c, m, init) + [last];
      FoldAppend(c, map[], SnapshotRecords(c, m, init), [last]);
    }
  }
}
