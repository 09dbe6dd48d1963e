/** The client pool: which backend owns a tab id, and what each call sends to the backends. */
module ClientPool {
  import opened Bytes
  import opened PoolIds
  import opened PoolOrder

  type Tabs = map<Str, nat>

  // ---- Ownership of external tab ids -----------------------------------------------

  /** A bound id spells the key of the backend it is bound to. */
  ghost predicate OwnedBy(keys: seq<Str>, ext: Str, i: nat) {
    i < |keys| && SplitTabId(ext).Some? && SplitTabId(ext).value.0 == keys[i] && Trimmed(ext)
  }

  ghost predicate Owned(keys: seq<Str>, tabs: Tabs) {
    forall ext :: ext in tabs ==> OwnedBy(keys, ext, tabs[ext])
  }

  datatype BindError = EmptyTabId | Collision(tab: Str)

  datatype Bound = Bound(tabs: Tabs, err: Option<BindError>)

  function Bind(tabs: Tabs, tab: Str, i: nat): Bound {
    var ext := TrimSpace(tab);
    if ext == [] then Bound(tabs, Some(EmptyTabId))
    else if ext in tabs && tabs[ext] != i then Bound(tabs, Some(Collision(ext)))
    else Bound(tabs[ext := i], None)
  }

  /** No bound id is empty. */
  lemma NothingEmpty(keys: seq<Str>, tabs: Tabs)
    requires Owned(keys, tabs)
    ensures [] !in tabs
  {
    TrimSpaceIsProjection([]);
    assert SplitTabId([]).None?;
    hide TrimSpace, SplitTabId;
    forall t | t in tabs ensures t != [] { assert OwnedBy(keys, t, tabs[t]); }
  }

  lemma BindFailureKeeps(tabs: Tabs, tab: Str, i: nat)
    ensures Bind(tabs, tab, i).err.Some? ==> Bind(tabs, tab, i).tabs == tabs
  {
  }

  function Unbind(tabs: Tabs, tab: Str): Tabs {
    var ext := TrimSpace(tab);
    if ext == [] then tabs else tabs - {ext}
  }

  /** A daemon's tab id as pool callers see it; an empty id stays empty. */
  function Prefixed(key: Str, native: Str): Str {
    var short := TrimSpace(native);
    if short == [] then [] else FormatTabId(key, short)
  }

  /** An id made from a backend's answer is that backend's, and binding it to that backend never collides. */
  lemma BindsToMaker(keys: seq<Str>, tabs: Tabs, i: nat, native: Str)
    requires KeysOk(keys) && Owned(keys, tabs) && i < |keys| && TrimSpace(native) != []
    ensures var ext := Prefixed(keys[i], native); var b := Bind(tabs, ext, i);
            && TrimSpace(ext) == ext && OwnedBy(keys, ext, i)
            && SplitTabId(ext) == Some((keys[i], TrimSpace(native)))
            && b.err.None? && b.tabs == tabs[ext := i] && Owned(keys, b.tabs)
  {
    hide TrimSpace, SplitTabId, IndexOf;
    var short := TrimSpace(native);
    var ext := Prefixed(keys[i], native);
    assert GoodKey(keys[i]);
    TrimSpaceIsProjection(native);
    RoundTripIff(keys[i], short);
    TrimmedFormat(keys[i], short);
    TrimSpaceIsProjection(ext);
    if ext in tabs { assert OwnedBy(keys, ext, tabs[ext]); }
  }

  // ---- Resolving -----------------------------------------------------------------------

  datatype Resolution =
    | Malformed(tab: Str) | UnknownKey(tab: Str, key: Str) | UnknownTab(tab: Str) | Resolved(i: nat, short: Str)

  function Resolve(byKey: map<Str, nat>, tabs: Tabs, tab: Str): Resolution {
    var ext := TrimSpace(tab);
    match SplitTabId(ext)
    case None => Malformed(ext)
    case Some(parts) =>
      if parts.0 !in byKey then UnknownKey(ext, parts.0)
      else if ext !in tabs then UnknownTab(ext)
      else Resolved(byKey[parts.0], parts.1)
  }

  /** Routing by prefix is routing by the map: an id resolves exactly when it is bound, to the backend it is
      bound to, and the short id sent there spells the id again. */
  lemma ResolvesIffBound(keys: seq<Str>, byKey: map<Str, nat>, tabs: Tabs, tab: Str)
    requires KeysOk(keys) && Indexes(byKey, keys) && Owned(keys, tabs)
    ensures var r := Resolve(byKey, tabs, tab); var ext := TrimSpace(tab);
            && (r.Resolved? <==> ext in tabs)
            && (r.Resolved? ==> r.i == tabs[ext] && r.i < |keys| && ext == FormatTabId(keys[r.i], r.short))
  {
    hide TrimSpace, SplitTabId, IndexOf;
    var ext := TrimSpace(tab);
    TrimSpaceIsProjection(tab);
    TrimSpaceIsProjection(ext);
    if ext in tabs { assert OwnedBy(keys, ext, tabs[ext]); }
    if SplitTabId(ext).Some? { SplitMeaning(ext, SplitTabId(ext).value.0, SplitTabId(ext).value.1); }
  }

  /** Why an id is refused: it does not spell a key, a colon and a short id; or no backend has that key; or the id
      is not bound. */
  lemma RefusesWhen(keys: seq<Str>, byKey: map<Str, nat>, tabs: Tabs, tab: Str)
    requires Indexes(byKey, keys)
    ensures var r, ext := Resolve(byKey, tabs, tab), TrimSpace(tab);
            && (r.Malformed? <==> forall k, short :: !Spells(ext, k, short))
            && (r.UnknownKey? <==> exists k, short :: r == UnknownKey(ext, k) && Spells(ext, k, short) && k !in keys)
            && (r.UnknownTab? <==> r == UnknownTab(ext) && ext !in tabs
                                   && exists k, short :: Spells(ext, k, short) && k in keys)
  {
    hide TrimSpace, SplitTabId, IndexOf;
    var ext := TrimSpace(tab);
    TrimSpaceIsProjection(tab);
    TrimSpaceIsProjection(ext);
    forall k, short ensures Spells(ext, k, short) <==> SplitTabId(ext) == Some((k, short)) {
      SplitMeaning(ext, k, short);
    }
    if SplitTabId(ext).Some? { assert Spells(ext, SplitTabId(ext).value.0, SplitTabId(ext).value.1); }
    forall k ensures k in byKey <==> k in keys {
      if k in byKey { assert keys[byKey[k]] == k; }
    }
  }

  ghost predicate Spells(ext: Str, key: Str, short: Str) {
    ext == FormatTabId(key, short) && key != [] && COLON !in key && short != []
  }

  // ---- Any interleaving of pool calls ---------------------------------------------------

  /** What pool calls do to the shared map, one critical section each: bind an id a backend answered with,
      release an id, or resolve an id and send to the backend found. */
  datatype Act = Observe(i: nat, native: Str) | Release(tab: Str) | Use(tab: Str)

  /** `routed` lists every external id bound or sent to a backend, with that backend. */
  datatype Pooled = Pooled(tabs: Tabs, routed: seq<(Str, nat)>, collisions: nat)

  function Do(keys: seq<Str>, byKey: map<Str, nat>, p: Pooled, act: Act): Pooled {
    match act
    case Observe(i, native) =>
      var ext := if i < |keys| then Prefixed(keys[i], native) else [];
      if ext == [] then p
      else
        var b := Bind(p.tabs, ext, i);
        if b.err.None? then Pooled(b.tabs, p.routed + [(TrimSpace(ext), i)], p.collisions)
        else p.(collisions := p.collisions + 1)
    case Release(tab) => p.(tabs := Unbind(p.tabs, tab))
    case Use(tab) =>
      var r := Resolve(byKey, p.tabs, tab);
      if r.Resolved? then p.(routed := p.routed + [(TrimSpace(tab), r.i)]) else p
  }

  /** What the critical sections do: an observed id is bound to its backend, a released one is bound no more, a use
      is routed where its id is bound and nowhere if it is not; no other id is touched. */
  lemma DoMeans(keys: seq<Str>, byKey: map<Str, nat>, p: Pooled, act: Act)
    requires KeysOk(keys) && Indexes(byKey, keys) && Owned(keys, p.tabs)
    ensures var n := Do(keys, byKey, p, act);
            match act
            case Observe(i, native) =>
              && (i < |keys| && TrimSpace(native) != [] ==>
                    var ext := FormatTabId(keys[i], TrimSpace(native));
                    n.tabs == p.tabs[ext := i] && n.routed == p.routed + [(ext, i)])
              && (i >= |keys| || TrimSpace(native) == [] ==> n == p)
            case Release(tab) =>
              && TrimSpace(tab) !in n.tabs && n.routed == p.routed
              && forall t :: t != TrimSpace(tab) ==>
                   (t in n.tabs <==> t in p.tabs) && (t in n.tabs ==> n.tabs[t] == p.tabs[t])
            case Use(tab) =>
              && n.tabs == p.tabs
              && n.routed == p.routed +
                             if TrimSpace(tab) in p.tabs then [(TrimSpace(tab), p.tabs[TrimSpace(tab)])] else []
  {
    hide TrimSpace, SplitTabId, Resolve, Bind;
    NothingEmpty(keys, p.tabs);
    match act
    case Observe(i, native) => if i < |keys| && TrimSpace(native) != [] { BindsToMaker(keys, p.tabs, i, native); }
    case Release(tab) =>
    case Use(tab) => ResolvesIffBound(keys, byKey, p.tabs, tab);
  }

  function DoAll(keys: seq<Str>, byKey: map<Str, nat>, acts: seq<Act>): Pooled
    decreases |acts|
  {
    if acts == [] then Pooled(map[], [], 0)
    else Do(keys, byKey, DoAll(keys, byKey, acts[..|acts| - 1]), acts[|acts| - 1])
  }

  ghost predicate PooledInv(keys: seq<Str>, p: Pooled) {
    && Owned(keys, p.tabs) && p.collisions == 0
    && forall k :: 0 <= k < |p.routed| ==> OwnedBy(keys, p.routed[k].0, p.routed[k].1)
  }

  lemma DoKeepsInv(keys: seq<Str>, byKey: map<Str, nat>, p: Pooled, act: Act)
    requires KeysOk(keys) && Indexes(byKey, keys) && PooledInv(keys, p)
    ensures PooledInv(keys, Do(keys, byKey, p, act))
  {
    hide TrimSpace, SplitTabId, Resolve;
    match act
    case Observe(i, native) => if i < |keys| && TrimSpace(native) != [] { BindsToMaker(keys, p.tabs, i, native); }
    case Release(tab) =>
    case Use(tab) => ResolvesIffBound(keys, byKey, p.tabs, tab);
  }

  lemma {:induction false} RunsKeepInv(keys: seq<Str>, byKey: map<Str, nat>, acts: seq<Act>)
    requires KeysOk(keys) && Indexes(byKey, keys)
    ensures PooledInv(keys, DoAll(keys, byKey, acts))
    decreases |acts|
  {
    if acts != [] {
      var n := |acts| - 1;
      RunsKeepInv(keys, byKey, acts[..n]);
      DoKeepsInv(keys, byKey, DoAll(keys, byKey, acts[..n]), acts[n]);
    }
  }

  /** Over every interleaving of creates, lists, focuses, uses, closes and forgets: every bound id splits to
      the key of its backend, no bind ever collides, and no external id is ever bound or sent to two backends. */
  lemma NeverTwoBackends(keys: seq<Str>, byKey: map<Str, nat>, acts: seq<Act>)
    requires KeysOk(keys) && Indexes(byKey, keys)
    ensures var p := DoAll(keys, byKey, acts);
            && (forall ext :: ext in p.tabs ==>
                  p.tabs[ext] < |keys| && SplitTabId(ext).Some? && SplitTabId(ext).value.0 == keys[p.tabs[ext]])
            && p.collisions == 0
            && forall j, k :: 0 <= j < |p.routed| && 0 <= k < |p.routed| && p.routed[j].0 == p.routed[k].0 ==>
                 p.routed[j].1 == p.routed[k].1
  {
    hide SplitTabId, DoAll;
    RunsKeepInv(keys, byKey, acts);
  }

  // ---- The walk of a create ----------------------------------------------------------------

  datatype Request = TabNew | TabClose(short: Str) | Forward(action: string, short: Str) | TabList | TabFocus

  /** A request sent to backend `to` while the in-flight counts were `loads`. */
  datatype Sent = Sent(to: nat, what: Request, loads: seq<int>)

  function Sending(loads: seq<int>, i: nat, what: Request): Sent
    requires i < |loads|
  {
    Sent(i, what, loads[i := loads[i] + 1])
  }

  datatype Reply = Failed | Replied(tab: Str)

  /** What a create meets: whether the caller's result can hold an answer, whether its context is done before
      backend i is tried, what backend i answers, and whether the final answer decodes. */
  datatype World = World(usable: bool, done: nat -> bool, reply: nat -> Reply, decodes: bool)

  datatype CallError = BackendFailed(i: nat) | NoTabId(i: nat) | NotBound(err: BindError)

  datatype CreateResult =
    | Created(ext: Str) | Unusable | Cancelled | Undecodable | AllFailed(errs: seq<CallError>) | Panicked

  datatype Creation = Creation(tabs: Tabs, log: seq<Sent>, res: CreateResult)

  datatype Verdict = Next(err: CallError) | Stop(res: CreateResult)

  datatype Tried = Tried(tabs: Tabs, log: seq<Sent>, verdict: Verdict)

  /** One backend's turn in a create. */
  function Try(keys: seq<Str>, loads: seq<int>, i: nat, tabs: Tabs, w: World): Tried
    requires |loads| == |keys| && i < |keys|
  {
    var ask := Sending(loads, i, TabNew);
    if w.reply(i).Failed? then Tried(tabs, [ask], Next(BackendFailed(i)))
    else
      var short := TrimSpace(w.reply(i).tab);
      if short == [] then Tried(tabs, [ask], Next(NoTabId(i)))
      else
        var ext := FormatTabId(keys[i], short);
        var b := Bind(tabs, ext, i);
        var close := Sending(loads, i, TabClose(short));
        if b.err.Some? then Tried(tabs, [ask, close], Next(NotBound(b.err.value)))
        else if !w.decodes then Tried(Unbind(b.tabs, ext), [ask, close], Stop(Undecodable))
        else Tried(b.tabs, [ask], Stop(Created(ext)))
  }

  function CreateWalk(
    keys: seq<Str>, loads: seq<int>, order: seq<nat>, tabs: Tabs, errs: seq<CallError>, w: World): Creation
    requires |loads| == |keys| && forall k :: 0 <= k < |order| ==> order[k] < |keys|
    decreases |order|
  {
    if order == [] then Creation(tabs, [], AllFailed(errs))
    else if w.done(order[0]) then Creation(tabs, [], Cancelled)
    else
      var t := Try(keys, loads, order[0], tabs, w);
      match t.verdict
      case Next(err) => After(t.log, CreateWalk(keys, loads, order[1..], t.tabs, errs + [err], w))
      case Stop(res) => Creation(t.tabs, t.log, res)
  }

  function After(log: seq<Sent>, rest: Creation): Creation {
    rest.(log := log + rest.log)
  }

  lemma WalkEnds(keys: seq<Str>, loads: seq<int>, order: seq<nat>, tabs: Tabs, errs: seq<CallError>, w: World)
    requires |loads| == |keys| && forall k :: 0 <= k < |order| ==> order[k] < |keys|
    ensures CreateWalk(keys, loads, order[|order|..], tabs, errs, w) == Creation(tabs, [], AllFailed(errs))
  {
  }

  lemma WalkOn(
    keys: seq<Str>, loads: seq<int>, order: seq<nat>, k: nat, tabs: Tabs, errs: seq<CallError>, w: World,
    log: seq<Sent>)
    requires |loads| == |keys| && k < |order| && forall j :: 0 <= j < |order| ==> order[j] < |keys|
    ensures var whole := After(log, CreateWalk(keys, loads, order[k..], tabs, errs, w));
            var t := Try(keys, loads, order[k], tabs, w);
            if w.done(order[k]) then whole == Creation(tabs, log, Cancelled)
            else if t.verdict.Stop? then whole == Creation(t.tabs, log + t.log, t.verdict.res)
            else
              whole == After(log + t.log, CreateWalk(keys, loads, order[k + 1..], t.tabs, errs + [t.verdict.err], w))
  {
    hide Try;
    assert order[k..][0] == order[k] && order[k..][1..] == order[k + 1..];
    var t := Try(keys, loads, order[k], tabs, w);
    assert forall rest: seq<Sent> :: log + (t.log + rest) == log + t.log + rest;
  }

  /** tab_close requests in a log that went to backend i. */
  function Closes(log: seq<Sent>, i: nat): seq<Str> {
    if log == [] then []
    else (if log[0].to == i && log[0].what.TabClose? then [log[0].what.short] else []) + Closes(log[1..], i)
  }

  predicate Asked(log: seq<Sent>, i: nat) {
    exists k :: 0 <= k < |log| && log[k].to == i && log[k].what == TabNew
  }

  function ShortFrom(w: World, i: nat): Str {
    if w.reply(i).Failed? then [] else TrimSpace(w.reply(i).tab)
  }

  /** The pool's id for what backend i answers. */
  function ExtFrom(keys: seq<Str>, w: World, i: nat): Str
    requires i < |keys|
  {
    FormatTabId(keys[i], ShortFrom(w, i))
  }

  /** The create obtained a tab from backend i. */
  predicate Obtained(w: World, log: seq<Sent>, i: nat) {
    Asked(log, i) && ShortFrom(w, i) != []
  }

  predicate BoundTo(tabs: Tabs, ext: Str, i: nat) {
    ext in tabs && tabs[ext] == i
  }

  /** An obtained tab is the result and bound to its maker, or its maker was sent one tab_close for it;
      a backend that gave no tab was sent none. */
  ghost predicate Settled(keys: seq<Str>, w: World, c: Creation, i: nat)
    requires i < |keys|
  {
    if !Obtained(w, c.log, i) then Closes(c.log, i) == []
    else
      var ext := ExtFrom(keys, w, i);
      && (BoundTo(c.tabs, ext, i) <==> c.res == Created(ext))
      && Closes(c.log, i) == if BoundTo(c.tabs, ext, i) then [] else [ShortFrom(w, i)]
  }

  lemma FormatInjective(k1: Str, s1: Str, k2: Str, s2: Str)
    requires COLON !in k1 && COLON !in k2 && FormatTabId(k1, s1) == FormatTabId(k2, s2)
    ensures k1 == k2 && s1 == s2
  {
    var t := FormatTabId(k1, s1);
    assert t[..|k1|] == k1 && t[|k1|] == COLON && t[..|k2|] == k2 && t[|k2|] == COLON;
    IndexIsFirst(t, COLON, |k1|);
    IndexIsFirst(t, COLON, |k2|);
    assert t[|k1| + 1..] == s1 && t[|k2| + 1..] == s2;
  }

  lemma ExtsDiffer(keys: seq<Str>, w: World, i: nat, j: nat)
    requires KeysOk(keys) && i < |keys| && j < |keys| && i != j
    ensures ExtFrom(keys, w, i) != ExtFrom(keys, w, j)
  {
    hide ShortFrom;
    assert GoodKey(keys[i]) && GoodKey(keys[j]);
    if ExtFrom(keys, w, i) == ExtFrom(keys, w, j) {
      FormatInjective(keys[i], ShortFrom(w, i), keys[j], ShortFrom(w, j));
    }
  }

  lemma ExtIsTrimmed(keys: seq<Str>, w: World, i: nat)
    requires KeysOk(keys) && i < |keys| && ShortFrom(w, i) != []
    ensures var ext := ExtFrom(keys, w, i); ext != [] && TrimSpace(ext) == ext
  {
    hide TrimSpace;
    assert GoodKey(keys[i]);
    TrimSpaceIsProjection(w.reply(i).tab);
    TrimmedFormat(keys[i], ShortFrom(w, i));
    TrimSpaceIsProjection(ExtFrom(keys, w, i));
  }

  lemma {:induction false} ClosesAppend(a: seq<Sent>, b: seq<Sent>, i: nat)
    ensures Closes(a + b, i) == Closes(a, i) + Closes(b, i)
    ensures Asked(a + b, i) <==> Asked(a, i) || Asked(b, i)
  {
    hide Asked;
    AskedAppend(a, b, i);
    if a == [] {
      assert a + b == b;
    } else {
      assert (a + b)[1..] == a[1..] + b;
      ClosesAppend(a[1..], b, i);
    }
  }

  lemma AskedAppend(a: seq<Sent>, b: seq<Sent>, i: nat)
    ensures Asked(a + b, i) <==> Asked(a, i) || Asked(b, i)
  {
    var all := a + b;
    assert forall k :: 0 <= k < |a| ==> all[k] == a[k];
    assert forall k :: 0 <= k < |b| ==> all[|a| + k] == b[k];
  }

  lemma {:induction false} ClosesOnlyOf(log: seq<Sent>, i: nat)
    requires forall k :: 0 <= k < |log| ==> log[k].to != i
    ensures Closes(log, i) == [] && !Asked(log, i)
  {
    if log != [] { ClosesOnlyOf(log[1..], i); }
  }

  /** Outside the ids the listed backends answer with, nothing changes. */
  ghost predicate TouchesOnly(keys: seq<Str>, w: World, order: seq<nat>, before: Tabs, after: Tabs)
    requires forall k :: 0 <= k < |order| ==> order[k] < |keys|
  {
    forall t, i :: (forall k :: 0 <= k < |order| ==> t != ExtFrom(keys, w, order[k])) ==>
      (BoundTo(after, t, i) <==> BoundTo(before, t, i))
  }

  ghost predicate Walkable(keys: seq<Str>, loads: seq<int>, order: seq<nat>) {
    && KeysOk(keys) && |loads| == |keys| && Distinct(order)
    && forall k :: 0 <= k < |order| ==> order[k] < |keys|
  }

  /** How the walk's state after its first backend extends to the whole walk. */
  ghost predicate Accounted(keys: seq<Str>, order: seq<nat>, tabs: Tabs, errs: seq<CallError>, w: World, c: Creation)
    requires forall k :: 0 <= k < |order| ==> order[k] < |keys|
  {
    && (forall k :: 0 <= k < |c.log| ==> c.log[k].to in order)
    && (forall i :: 0 <= i < |keys| ==> Settled(keys, w, c, i))
    && TouchesOnly(keys, w, order, tabs, c.tabs)
    && (c.res.AllFailed? ==> c.tabs == tabs && |c.res.errs| == |errs| + |order|)
    && (c.res.Created? ==> exists i :: 0 <= i < |keys| && Obtained(w, c.log, i) && c.res.ext == ExtFrom(keys, w, i))
  }

  /** The log of a walk that goes on after its first backend: asked, and closed if a tab came back. */
  function Ahead(loads: seq<int>, i: nat, w: World): seq<Sent>
    requires i < |loads|
  {
    [Sending(loads, i, TabNew)]
    + if ShortFrom(w, i) == [] then [] else [Sending(loads, i, TabClose(ShortFrom(w, i)))]
  }

  lemma AheadCloses(loads: seq<int>, i: nat, w: World, j: nat)
    requires i < |loads|
    ensures Asked(Ahead(loads, i, w), j) <==> j == i
    ensures Closes(Ahead(loads, i, w), j) == if j == i && ShortFrom(w, i) != [] then [ShortFrom(w, i)] else []
  {
    hide ShortFrom;
    var log := Ahead(loads, i, w);
    assert log[0].to == i && log[0].what == TabNew;
    assert Closes(log, j) == Closes(log[1..], j);
    if ShortFrom(w, i) != [] { assert log[1..][1..] == []; }
  }

  lemma SkipSettles(
    keys: seq<Str>, loads: seq<int>, order: seq<nat>, tabs: Tabs, errs: seq<CallError>, w: World, c: Creation, j: nat)
    requires order != [] && Walkable(keys, loads, order) && j < |keys|
    requires Accounted(keys, order[1..], tabs, errs, w, c)
    requires ShortFrom(w, order[0]) != [] ==> !BoundTo(tabs, ExtFrom(keys, w, order[0]), order[0])
    ensures Settled(keys, w, After(Ahead(loads, order[0], w), c), j)
  {
    hide ShortFrom, ExtFrom, Ahead, Closes, BoundTo, Asked, KeysOk;
    var i, rest := order[0], order[1..];
    AheadCloses(loads, i, w, j);
    ClosesAppend(Ahead(loads, i, w), c.log, j);
    assert Settled(keys, w, c, j);
    if j == i {
      assert i !in rest;
      forall k | 0 <= k < |c.log| ensures c.log[k].to != i { assert c.log[k].to in rest; }
      ClosesOnlyOf(c.log, i);
      forall k | 0 <= k < |rest| ensures ExtFrom(keys, w, i) != ExtFrom(keys, w, rest[k]) {
        assert rest[k] == order[k + 1];
        ExtsDiffer(keys, w, i, rest[k]);
      }
      if c.res.Created? {
        var x :| 0 <= x < |keys| && Obtained(w, c.log, x) && c.res.ext == ExtFrom(keys, w, x);
        assert x != i;
        ExtsDiffer(keys, w, i, x);
      }
    }
  }

  lemma SkipAccounts(
    keys: seq<Str>, loads: seq<int>, order: seq<nat>, tabs: Tabs, errs: seq<CallError>, err: CallError, w: World,
    c: Creation)
    requires order != [] && Walkable(keys, loads, order)
    requires Accounted(keys, order[1..], tabs, errs + [err], w, c)
    requires ShortFrom(w, order[0]) != [] ==> !BoundTo(tabs, ExtFrom(keys, w, order[0]), order[0])
    ensures Accounted(keys, order, tabs, errs, w, After(Ahead(loads, order[0], w), c))
  {
    hide ShortFrom, ExtFrom, Closes, BoundTo, Asked, Settled, KeysOk;
    var i, rest := order[0], order[1..];
    var all := After(Ahead(loads, i, w), c);
    forall j | 0 <= j < |keys| ensures Settled(keys, w, all, j) {
      SkipSettles(keys, loads, order, tabs, errs + [err], w, c, j);
    }
    assert order == [i] + rest;
    forall k | 0 <= k < |all.log| ensures all.log[k].to in order {
      assert k >= |Ahead(loads, i, w)| ==> all.log[k] == c.log[k - |Ahead(loads, i, w)|];
    }
    forall t, x | forall k :: 0 <= k < |order| ==> t != ExtFrom(keys, w, order[k])
      ensures BoundTo(all.tabs, t, x) <==> BoundTo(tabs, t, x)
    {
      forall k | 0 <= k < |rest| ensures t != ExtFrom(keys, w, rest[k]) { assert rest[k] == order[k + 1]; }
    }
    if c.res.Created? {
      var x :| 0 <= x < |keys| && Obtained(w, c.log, x) && c.res.ext == ExtFrom(keys, w, x);
      ClosesAppend(Ahead(loads, i, w), c.log, x);
      assert Obtained(w, all.log, x);
    }
  }

  /** A walk that ends at its first backend, which gave a tab: kept, or closed because the answer did not decode. */
  lemma StopAccounts(keys: seq<Str>, loads: seq<int>, order: seq<nat>, tabs: Tabs, errs: seq<CallError>, w: World)
    requires order != [] && Walkable(keys, loads, order)
    requires ShortFrom(w, order[0]) != [] && Bind(tabs, ExtFrom(keys, w, order[0]), order[0]).err.None?
    ensures var ext := ExtFrom(keys, w, order[0]);
            Accounted(keys, order, tabs, errs, w,
              if w.decodes then Creation(tabs[ext := order[0]], Ahead(loads, order[0], w)[..1], Created(ext))
              else Creation(tabs - {ext}, Ahead(loads, order[0], w), Undecodable))
  {
    hide ShortFrom, ExtFrom, KeysOk, Closes, Asked, Bind;
    var i := order[0];
    var ext := ExtFrom(keys, w, i);
    var c := if w.decodes then Creation(tabs[ext := i], Ahead(loads, i, w)[..1], Created(ext))
             else Creation(tabs - {ext}, Ahead(loads, i, w), Undecodable);
    forall j | 0 <= j < |keys| ensures Settled(keys, w, c, j) {
      AheadCloses(loads, i, w, j);
      AskedOnly(loads, i, j);
    }
    AskedOnly(loads, i, i);
    assert Obtained(w, c.log, i) by { AheadCloses(loads, i, w, i); }
  }

  lemma AheadSpelled(loads: seq<int>, i: nat, w: World)
    requires i < |loads|
    ensures var ask, close := Sending(loads, i, TabNew), Sending(loads, i, TabClose(ShortFrom(w, i)));
            Ahead(loads, i, w) == (if ShortFrom(w, i) == [] then [ask] else [ask, close])
            && Ahead(loads, i, w)[..1] == [ask]
  {
  }

  lemma AskedOnly(loads: seq<int>, i: nat, j: nat)
    requires i < |loads|
    ensures var log := [Sending(loads, i, TabNew)]; Closes(log, j) == [] && (Asked(log, j) <==> j == i)
  {
    var log := [Sending(loads, i, TabNew)];
    assert log[0].to == i && log[0].what == TabNew;
  }

  lemma {:induction false} WalkAccounts(
    keys: seq<Str>, loads: seq<int>, order: seq<nat>, tabs: Tabs, errs: seq<CallError>, w: World)
    requires Walkable(keys, loads, order)
    ensures Accounted(keys, order, tabs, errs, w, CreateWalk(keys, loads, order, tabs, errs, w))
    decreases |order|
  {
    hide TrimSpace, Accounted, KeysOk;
    if order == [] || w.done(order[0]) {
      NothingAccounts(keys, order, tabs, errs, w);
    } else {
      var i, rest := order[0], order[1..];
      AheadSpelled(loads, i, w);
      if ShortFrom(w, i) == [] {
        var err := if w.reply(i).Failed? then BackendFailed(i) else NoTabId(i);
        WalkAccounts(keys, loads, rest, tabs, errs + [err], w);
        SkipAccounts(keys, loads, order, tabs, errs, err, w, CreateWalk(keys, loads, rest, tabs, errs + [err], w));
      } else {
        ExtIsTrimmed(keys, w, i);
        var b := Bind(tabs, ExtFrom(keys, w, i), i);
        if b.err.Some? {
          var err := NotBound(b.err.value);
          WalkAccounts(keys, loads, rest, tabs, errs + [err], w);
          SkipAccounts(keys, loads, order, tabs, errs, err, w, CreateWalk(keys, loads, rest, tabs, errs + [err], w));
        } else {
          assert tabs[ExtFrom(keys, w, i) := i] - {ExtFrom(keys, w, i)} == tabs - {ExtFrom(keys, w, i)};
          StopAccounts(keys, loads, order, tabs, errs, w);
        }
      }
    }
  }

  lemma NothingAccounts(keys: seq<Str>, order: seq<nat>, tabs: Tabs, errs: seq<CallError>, w: World)
    requires forall k :: 0 <= k < |order| ==> order[k] < |keys|
    ensures Accounted(keys, order, tabs, errs, w, Creation(tabs, [], Cancelled))
    ensures order == [] ==> Accounted(keys, order, tabs, errs, w, Creation(tabs, [], AllFailed(errs)))
  {
    hide ShortFrom, ExtFrom;
  }

  ghost predicate KeptFrom(keys: seq<Str>, w: World, c: Creation, i: nat) {
    i < |keys| && Obtained(w, c.log, i) && BoundTo(c.tabs, ExtFrom(keys, w, i), i)
  }

  /** When a create returns, each tab it obtained is the bound result, or its maker was sent exactly one
      tab_close for it; at most one is bound; a total failure carries one error per backend. */
  lemma CreateAccounts(keys: seq<Str>, loads: seq<int>, order: seq<nat>, tabs: Tabs, w: World)
    requires Walkable(keys, loads, order)
    ensures var c := CreateWalk(keys, loads, order, tabs, [], w);
            && (forall i :: 0 <= i < |keys| ==> Settled(keys, w, c, i))
            && (forall i, j :: KeptFrom(keys, w, c, i) && KeptFrom(keys, w, c, j) ==> i == j)
            && (c.res.AllFailed? ==> c.tabs == tabs && |c.res.errs| == |order|)
  {
    hide CreateWalk, ShortFrom, ExtFrom, KeysOk, Obtained;
    var c := CreateWalk(keys, loads, order, tabs, [], w);
    WalkAccounts(keys, loads, order, tabs, [], w);
    forall i, j | KeptFrom(keys, w, c, i) && KeptFrom(keys, w, c, j) ensures i == j {
      assert Settled(keys, w, c, i) && Settled(keys, w, c, j);
      if i != j { ExtsDiffer(keys, w, i, j); }
    }
  }

  lemma {:induction false} WalkKeepsOwned(
    keys: seq<Str>, loads: seq<int>, order: seq<nat>, tabs: Tabs, errs: seq<CallError>, w: World)
    requires Walkable(keys, loads, order) && Owned(keys, tabs)
    ensures var c := CreateWalk(keys, loads, order, tabs, errs, w);
            && Owned(keys, c.tabs)
            && (c.res.AllFailed? ==> |c.res.errs| >= |errs| && c.res.errs[..|errs|] == errs
                                     && forall k :: |errs| <= k < |c.res.errs| ==> !c.res.errs[k].NotBound?)
    decreases |order|
  {
    hide TrimSpace, SplitTabId, Bind;
    if order != [] && !w.done(order[0]) {
      var i, rest := order[0], order[1..];
      if ShortFrom(w, i) == [] {
        var err := if w.reply(i).Failed? then BackendFailed(i) else NoTabId(i);
        WalkKeepsOwned(keys, loads, rest, tabs, errs + [err], w);
        var c := CreateWalk(keys, loads, rest, tabs, errs + [err], w);
        if c.res.AllFailed? {
          assert c.res.errs[|errs|] == c.res.errs[..|errs| + 1][|errs|] == err;
          assert c.res.errs[..|errs|] == c.res.errs[..|errs| + 1][..|errs|] == errs;
        }
      } else {
        BindsToMaker(keys, tabs, i, w.reply(i).tab);
      }
    }
  }

  // ---- How a create ends -----------------------------------------------------------------

  /** The request went to backend i, counted in flight there and nowhere else. */
  ghost predicate IsSent(e: Sent, loads: seq<int>, i: nat, what: Request) {
    && e.to == i && e.what == what && |e.loads| == |loads|
    && forall x :: 0 <= x < |loads| ==> e.loads[x] == if x == i then loads[x] + 1 else loads[x]
  }

  /** The log is one tab_new to each of the first m backends of the order, in turn. */
  ghost predicate AsksInTurn(log: seq<Sent>, loads: seq<int>, order: seq<nat>, m: nat) {
    m == |log| <= |order| && forall k :: 0 <= k < m ==> IsSent(log[k], loads, order[k], TabNew)
  }

  /** Position j is the first whose backend gives a tab, or before which the caller's context is done. */
  ghost predicate StopsAt(order: seq<nat>, w: World, j: nat) {
    && j < |order| && (w.done(order[j]) || ShortFrom(w, order[j]) != [])
    && forall i :: 0 <= i < j ==> !w.done(order[i]) && ShortFrom(w, order[i]) == []
  }

  /** How a create ends: with one error per backend when none gives a tab; cancelled where the context is done
      first; else at the first backend that gives a tab, which is bound and returned if the answer decodes, and
      closed again if it does not. It asked the backends up to there, in turn, and sent nothing else. */
  ghost predicate EndsRightly(
    keys: seq<Str>, loads: seq<int>, order: seq<nat>, tabs: Tabs, errs: seq<CallError>, w: World, c: Creation)
    requires forall k :: 0 <= k < |order| ==> order[k] < |keys|
  {
    && ((forall j: nat :: !StopsAt(order, w, j)) ==>
          && c.res.AllFailed? && c.tabs == tabs && AsksInTurn(c.log, loads, order, |order|)
          && |c.res.errs| >= |errs| && c.res.errs[..|errs|] == errs && AllFail(w, order, c.res.errs[|errs|..]))
    && (forall j: nat :: StopsAt(order, w, j) ==> EndsAt(keys, loads, order, tabs, w, j, c))
  }

  ghost predicate AllFail(w: World, order: seq<nat>, errs: seq<CallError>) {
    |errs| == |order| && forall k :: 0 <= k < |order| ==> FailedWith(w, order[k], errs[k])
  }

  ghost predicate EndsAt(
    keys: seq<Str>, loads: seq<int>, order: seq<nat>, tabs: Tabs, w: World, j: nat, c: Creation)
    requires j < |order| && order[j] < |keys|
  {
    var i := order[j];
    var ext := ExtFrom(keys, w, i);
    if w.done(i) then c.res == Cancelled && c.tabs == tabs && AsksInTurn(c.log, loads, order, j)
    else if w.decodes then
      c.res == Created(ext) && c.tabs == tabs[ext := i] && AsksInTurn(c.log, loads, order, j + 1)
    else
      && c.res == Undecodable && c.tabs == tabs - {ext}
      && |c.log| == j + 2 && AsksInTurn(c.log[..j + 1], loads, order, j + 1)
      && IsSent(c.log[j + 1], loads, i, TabClose(ShortFrom(w, i)))
  }

  /** What becomes of one backend's turn: it failed or gave no tab; its tab's id is bound to another backend, and the
      tab is closed again; the tab is bound and the create done; or the answer does not decode and the tab is
      released and closed. */
  ghost predicate TurnRight(keys: seq<Str>, loads: seq<int>, i: nat, tabs: Tabs, w: World, t: Tried)
    requires i < |keys|
  {
    var ext := ExtFrom(keys, w, i);
    var taken := ext in tabs && tabs[ext] != i;
    var closes := ShortFrom(w, i) != [] && (taken || !w.decodes);
    && |t.log| == (if closes then 2 else 1) && IsSent(t.log[0], loads, i, TabNew)
    && (closes ==> IsSent(t.log[1], loads, i, TabClose(ShortFrom(w, i))))
    && if ShortFrom(w, i) == [] then t.verdict.Next? && FailedWith(w, i, t.verdict.err) && t.tabs == tabs
       else if taken then t.verdict == Next(NotBound(Collision(ext))) && t.tabs == tabs
       else if w.decodes then t.verdict == Stop(Created(ext)) && t.tabs == tabs[ext := i]
       else t.verdict == Stop(Undecodable) && t.tabs == tabs - {ext}
  }

  lemma TurnMeans(keys: seq<Str>, loads: seq<int>, i: nat, tabs: Tabs, w: World)
    requires |loads| == |keys| && i < |keys| && KeysOk(keys)
    ensures TurnRight(keys, loads, i, tabs, w, Try(keys, loads, i, tabs, w))
  {
    hide TrimSpace;
    SendingIsSent(loads, i, TabNew);
    SendingIsSent(loads, i, TabClose(ShortFrom(w, i)));
    if ShortFrom(w, i) != [] {
      assert GoodKey(keys[i]);
      TrimSpaceIsProjection(w.reply(i).tab);
      TrimmedFormat(keys[i], ShortFrom(w, i));
      TrimSpaceIsProjection(ExtFrom(keys, w, i));
      assert TrimSpace(ExtFrom(keys, w, i)) == ExtFrom(keys, w, i) != [];
      assert FormatTabId(keys[i], ShortFrom(w, i)) == ExtFrom(keys, w, i);
    }
  }

  predicate FailedWith(w: World, i: nat, err: CallError) {
    err == if w.reply(i).Failed? then BackendFailed(i) else NoTabId(i)
  }

  lemma SendingIsSent(loads: seq<int>, i: nat, what: Request)
    requires i < |loads|
    ensures IsSent(Sending(loads, i, what), loads, i, what)
  {
  }

  /** The first backend gives no tab: what holds of the rest of the walk holds of the whole, one place on. */
  lemma EndsLater(
    keys: seq<Str>, loads: seq<int>, order: seq<nat>, tabs: Tabs, errs: seq<CallError>, w: World, err: CallError,
    c: Creation)
    requires order != [] && |loads| == |keys| && forall k :: 0 <= k < |order| ==> order[k] < |keys|
    requires !w.done(order[0]) && ShortFrom(w, order[0]) == [] && FailedWith(w, order[0], err)
    requires EndsRightly(keys, loads, order[1..], tabs, errs + [err], w, c)
    ensures EndsRightly(keys, loads, order, tabs, errs, w, After([Sending(loads, order[0], TabNew)], c))
  {
    hide ShortFrom, ExtFrom, IsSent, FailedWith, StopsAt, AsksInTurn, EndsAt, AllFail;
    var ask := Sending(loads, order[0], TabNew);
    var all := After([ask], c);
    if forall j: nat :: !StopsAt(order, w, j) {
      forall j: nat ensures !StopsAt(order[1..], w, j) { StopsLater(order, w, j + 1); }
      FailsLater(order, w, errs, err, c.res.errs);
      AsksOneMore(loads, order, c.log, |order| - 1);
    }
    forall j: nat | StopsAt(order, w, j) ensures j < |order| && EndsAt(keys, loads, order, tabs, w, j, all) {
      StopsLater(order, w, j);
      EndsAtLater(keys, loads, order, tabs, w, j, c);
    }
  }

  lemma AsksOneMore(loads: seq<int>, order: seq<nat>, log: seq<Sent>, m: nat)
    requires order != [] && order[0] < |loads| && AsksInTurn(log, loads, order[1..], m)
    ensures AsksInTurn([Sending(loads, order[0], TabNew)] + log, loads, order, m + 1)
  {
    hide IsSent;
    SendingIsSent(loads, order[0], TabNew);
    var all := [Sending(loads, order[0], TabNew)] + log;
    forall k | 0 <= k < m + 1 ensures IsSent(all[k], loads, order[k], TabNew) {
      if k > 0 { assert all[k] == log[k - 1] && order[k] == order[1..][k - 1]; }
    }
  }

  lemma EndsAtLater(
    keys: seq<Str>, loads: seq<int>, order: seq<nat>, tabs: Tabs, w: World, j: nat, c: Creation)
    requires 0 < j < |order| && |loads| == |keys| && forall k :: 0 <= k < |order| ==> order[k] < |keys|
    requires EndsAt(keys, loads, order[1..], tabs, w, j - 1, c)
    ensures EndsAt(keys, loads, order, tabs, w, j, After([Sending(loads, order[0], TabNew)], c))
  {
    hide ShortFrom, ExtFrom, IsSent, AsksInTurn;
    var ask := Sending(loads, order[0], TabNew);
    var i := order[j];
    assert order[1..][j - 1] == i;
    if w.done(i) {
      AsksOneMore(loads, order, c.log, j - 1);
    } else if w.decodes {
      AsksOneMore(loads, order, c.log, j);
    } else {
      AsksOneMore(loads, order, c.log[..j], j);
      assert ([ask] + c.log)[..j + 1] == [ask] + c.log[..j];
      assert ([ask] + c.log)[j + 1] == c.log[j];
    }
  }

  lemma StopsLater(order: seq<nat>, w: World, j: nat)
    requires order != [] && !w.done(order[0]) && ShortFrom(w, order[0]) == []
    ensures StopsAt(order, w, j) <==> j > 0 && StopsAt(order[1..], w, j - 1)
    ensures StopsAt(order, w, j) ==> j < |order|
  {
    hide ShortFrom;
    assert forall k :: 0 <= k < |order| - 1 ==> order[1..][k] == order[k + 1];
    if j > 0 && StopsAt(order[1..], w, j - 1) {
      forall i | 0 <= i < j ensures !w.done(order[i]) && ShortFrom(w, order[i]) == [] {
        if i > 0 { assert order[1..][i - 1] == order[i]; }
      }
    }
  }

  lemma FailsLater(order: seq<nat>, w: World, errs: seq<CallError>, err: CallError, all: seq<CallError>)
    requires order != [] && FailedWith(w, order[0], err)
    requires |all| >= |errs| + 1 && all[..|errs| + 1] == errs + [err]
    requires AllFail(w, order[1..], all[|errs| + 1..])
    ensures all[..|errs|] == errs && AllFail(w, order, all[|errs|..])
  {
    hide FailedWith;
    assert all[..|errs|] == all[..|errs| + 1][..|errs|];
    assert all[|errs|] == all[..|errs| + 1][|errs|];
    assert all[|errs|..] == [err] + all[|errs| + 1..];
    assert order == [order[0]] + order[1..];
  }

  /** The walk ends at its first backend. */
  lemma EndsNow(
    keys: seq<Str>, loads: seq<int>, order: seq<nat>, tabs: Tabs, errs: seq<CallError>, w: World, c: Creation)
    requires order != [] && |loads| == |keys| && forall k :: 0 <= k < |order| ==> order[k] < |keys|
    requires StopsAt(order, w, 0) && EndsAt(keys, loads, order, tabs, w, 0, c)
    ensures EndsRightly(keys, loads, order, tabs, errs, w, c)
  {
    hide ShortFrom, ExtFrom, IsSent;
    forall j: nat | StopsAt(order, w, j) ensures j == 0 {}
  }

  /** Every create over backends whose ids are owned ends rightly, whatever the backends answer. */
  lemma {:induction false} WalkEndsRightly(
    keys: seq<Str>, loads: seq<int>, order: seq<nat>, tabs: Tabs, errs: seq<CallError>, w: World)
    requires Walkable(keys, loads, order) && Owned(keys, tabs)
    ensures EndsRightly(keys, loads, order, tabs, errs, w, CreateWalk(keys, loads, order, tabs, errs, w))
    decreases |order|
  {
    hide TrimSpace, SplitTabId, Bind, EndsRightly, KeysOk, Owned;
    if order == [] {
      NothingEnds(keys, loads, tabs, errs, w);
    } else {
      var i, rest := order[0], order[1..];
      if w.done(i) {
        EndsNow(keys, loads, order, tabs, errs, w, Creation(tabs, [], Cancelled));
      } else if ShortFrom(w, i) == [] {
        var err := if w.reply(i).Failed? then BackendFailed(i) else NoTabId(i);
        WalkEndsRightly(keys, loads, rest, tabs, errs + [err], w);
        EndsLater(
          keys, loads, order, tabs, errs, w, err, CreateWalk(keys, loads, rest, tabs, errs + [err], w));
      } else {
        FirstGives(keys, loads, order, tabs, errs, w);
      }
    }
  }

  lemma NothingEnds(keys: seq<Str>, loads: seq<int>, tabs: Tabs, errs: seq<CallError>, w: World)
    ensures EndsRightly(keys, loads, [], tabs, errs, w, Creation(tabs, [], AllFailed(errs)))
  {
    assert errs[..|errs|] == errs && errs[|errs|..] == [];
  }

  lemma FirstGives(keys: seq<Str>, loads: seq<int>, order: seq<nat>, tabs: Tabs, errs: seq<CallError>, w: World)
    requires Walkable(keys, loads, order) && Owned(keys, tabs)
    requires order != [] && !w.done(order[0]) && ShortFrom(w, order[0]) != []
    ensures EndsRightly(keys, loads, order, tabs, errs, w, CreateWalk(keys, loads, order, tabs, errs, w))
  {
    hide TrimSpace, SplitTabId, Bind, EndsRightly, KeysOk, Owned, IsSent;
    var i := order[0];
    var short, ext := ShortFrom(w, i), ExtFrom(keys, w, i);
    BindsToMaker(keys, tabs, i, w.reply(i).tab);
    SendingIsSent(loads, i, TabNew);
    SendingIsSent(loads, i, TabClose(short));
    var c := CreateWalk(keys, loads, order, tabs, errs, w);
    assert tabs[ext := i] - {ext} == tabs - {ext};
    if !w.decodes { assert c.log[..1] == [Sending(loads, i, TabNew)]; }
    EndsNow(keys, loads, order, tabs, errs, w, c);
  }

  // ---- Listing and focus ------------------------------------------------------------------

  datatype Item = Item(tab: Str, title: Str, url: Str)

  datatype ListReply = ListFailed | Listed(tab: Str, focus: Str, seqNo: nat, items: seq<Item>)

  datatype ListWorld = ListWorld(done: nat -> bool, reply: nat -> ListReply, decodes: bool)

  datatype Listing = Listing(tab: Str, focus: Str, seqNo: nat, items: seq<Item>)

  function PrefixItems(key: Str, items: seq<Item>): (out: seq<Item>)
    ensures |out| == |items|
    ensures forall k :: 0 <= k < |items| ==> out[k] == items[k].(tab := Prefixed(key, items[k].tab))
  {
    seq(|items|, k requires 0 <= k < |items| => items[k].(tab := Prefixed(key, items[k].tab)))
  }

  function FirstOf(a: Str, b: Str): Str {
    if a != [] then a else b
  }

  /** One more backend's answer, its ids prefixed, merged into the listing. */
  function Merged(key: Str, m: Listing, r: ListReply): Listing
    requires r.Listed?
  {
    Listing(
      FirstOf(m.tab, Prefixed(key, r.tab)), FirstOf(m.focus, Prefixed(key, r.focus)),
      if r.seqNo > m.seqNo then r.seqNo else m.seqNo,
      m.items + PrefixItems(key, r.items))
  }

  /** The merge of the first n backends' answers. */
  function Merge(keys: seq<Str>, w: ListWorld, n: nat): Listing
    requires n <= |keys|
  {
    if n == 0 then Listing([], [], 0, [])
    else
      var m, r := Merge(keys, w, n - 1), w.reply(n - 1);
      if r.ListFailed? then m else Merged(keys[n - 1], m, r)
  }

  function BindAll(tabs: Tabs, i: nat, ids: seq<Str>): Tabs
    decreases |ids|
  {
    if ids == [] then tabs
    else BindAll(if TrimSpace(ids[0]) == [] then tabs else Bind(tabs, ids[0], i).tabs, i, ids[1..])
  }

  function IdsOf(items: seq<Item>): (ids: seq<Str>)
    ensures |ids| == |items| && forall k :: 0 <= k < |items| ==> ids[k] == items[k].tab
  {
    seq(|items|, k requires 0 <= k < |items| => items[k].tab)
  }

  function ObservedIn(key: Str, r: ListReply): seq<Str> {
    if r.ListFailed? then []
    else [Prefixed(key, r.tab), Prefixed(key, r.focus)] + IdsOf(PrefixItems(key, r.items))
  }

  /** The map once the first n backends' answers have been observed. */
  function BoundAfter(keys: seq<Str>, tabs: Tabs, w: ListWorld, n: nat): Tabs
    requires n <= |keys|
  {
    if n == 0 then tabs
    else BindAll(BoundAfter(keys, tabs, w, n - 1), n - 1, ObservedIn(keys[n - 1], w.reply(n - 1)))
  }

  function ListErrors(w: ListWorld, n: nat): seq<CallError> {
    if n == 0 then []
    else ListErrors(w, n - 1) + if w.reply(n - 1).ListFailed? then [BackendFailed(n - 1)] else []
  }

  /** Everything bound before stays bound as it was. */
  ghost predicate Extends(small: Tabs, big: Tabs) {
    forall t :: t in small ==> t in big && big[t] == small[t]
  }

  lemma {:induction false} BindAllBinds(keys: seq<Str>, tabs: Tabs, i: nat, natives: seq<Str>, ids: seq<Str>)
    requires KeysOk(keys) && Owned(keys, tabs) && i < |keys| && |ids| == |natives|
    requires forall k :: 0 <= k < |ids| ==> ids[k] == Prefixed(keys[i], natives[k])
    ensures var b := BindAll(tabs, i, ids);
            Owned(keys, b) && Extends(tabs, b) && forall k :: 0 <= k < |ids| && ids[k] != [] ==> BoundTo(b, ids[k], i)
    decreases |ids|
  {
    hide TrimSpace, Bind, Prefixed, Owned, KeysOk;
    if ids != [] {
      var next := if TrimSpace(ids[0]) == [] then tabs else Bind(tabs, ids[0], i).tabs;
      BindOne(keys, tabs, i, natives[0]);
      BindAllBinds(keys, next, i, natives[1..], ids[1..]);
      forall k | 0 <= k < |ids| && ids[k] != [] ensures BoundTo(BindAll(tabs, i, ids), ids[k], i) {
        if k > 0 { assert ids[k] == ids[1..][k - 1]; }
      }
    }
  }

  lemma BindOne(keys: seq<Str>, tabs: Tabs, i: nat, native: Str)
    requires KeysOk(keys) && Owned(keys, tabs) && i < |keys|
    ensures var id := Prefixed(keys[i], native);
            var next := if TrimSpace(id) == [] then tabs else Bind(tabs, id, i).tabs;
            Owned(keys, next) && Extends(tabs, next) && (id != [] ==> BoundTo(next, id, i))
  {
    hide TrimSpace, Owned, KeysOk, Bind;
    if TrimSpace(native) != [] {
      BindsToMaker(keys, tabs, i, native);
      hide *;
      BindExtends(tabs, Prefixed(keys[i], native), i);
    } else {
      TrimSpaceIsProjection([]);
    }
  }

  lemma BindExtends(tabs: Tabs, tab: Str, i: nat)
    ensures Extends(tabs, Bind(tabs, tab, i).tabs)
  {
    hide TrimSpace;
  }

  /** The listing's ids are all bound, and those of backend i are bound to it and listed. */
  ghost predicate AllBound(m: Listing, b: Tabs) {
    && (m.tab != [] ==> m.tab in b) && (m.focus != [] ==> m.focus in b)
    && forall k :: 0 <= k < |m.items| && m.items[k].tab != [] ==> m.items[k].tab in b
  }

  ghost predicate ListedAt(keys: seq<Str>, w: ListWorld, i: nat, m: Listing, b: Tabs)
    requires i < |keys|
  {
    w.reply(i).Listed? ==>
      forall k :: 0 <= k < |w.reply(i).items| ==>
        var id := Prefixed(keys[i], w.reply(i).items[k].tab);
        (id != [] ==> BoundTo(b, id, i)) && exists x :: 0 <= x < |m.items| && m.items[x].tab == id
  }

  lemma ObserveBinds(keys: seq<Str>, tabs: Tabs, i: nat, r: ListReply)
    requires KeysOk(keys) && Owned(keys, tabs) && i < |keys|
    ensures var b := BindAll(tabs, i, ObservedIn(keys[i], r));
            && Owned(keys, b) && Extends(tabs, b)
            && (r.ListFailed? ==> b == tabs)
            && (r.Listed? ==>
                  && (forall id :: id in [Prefixed(keys[i], r.tab), Prefixed(keys[i], r.focus)] && id != [] ==> id in b)
                  && forall k :: 0 <= k < |r.items| ==>
                       var id := PrefixItems(keys[i], r.items)[k].tab; id != [] ==> BoundTo(b, id, i))
  {
    hide Owned, KeysOk, Prefixed, Bind;
    if r.Listed? {
      var natives := [r.tab, r.focus] + IdsOf(r.items);
      var ids := ObservedIn(keys[i], r);
      hide BindAll;
      BindAllBinds(keys, tabs, i, natives, ids);
      assert ids[0] == Prefixed(keys[i], r.tab) && ids[1] == Prefixed(keys[i], r.focus);
      forall k | 0 <= k < |r.items| ensures ids[k + 2] == PrefixItems(keys[i], r.items)[k].tab {}
    }
  }

  /** Every id a listing returns is bound to the backend that listed it and can be used at once; nothing that
      was bound is lost or moved. */
  lemma {:induction false} ListedAreBound(keys: seq<Str>, tabs: Tabs, w: ListWorld, n: nat)
    requires KeysOk(keys) && Owned(keys, tabs) && n <= |keys|
    ensures var b := BoundAfter(keys, tabs, w, n); var m := Merge(keys, w, n);
            && Owned(keys, b) && Extends(tabs, b) && AllBound(m, b)
            && forall i :: 0 <= i < n ==> ListedAt(keys, w, i, m, b)
  {
    hide Owned, KeysOk, Prefixed, BindAll, ObservedIn;
    if n > 0 {
      var b, m := BoundAfter(keys, tabs, w, n - 1), Merge(keys, w, n - 1);
      var r := w.reply(n - 1);
      ListedAreBound(keys, tabs, w, n - 1);
      ObserveBinds(keys, b, n - 1, r);
      var b', m' := BoundAfter(keys, tabs, w, n), Merge(keys, w, n);
      if r.Listed? {
        var added := PrefixItems(keys[n - 1], r.items);
        MergeKeepsBound(m, m', added, b, b');
        ListedNow(keys, w, n - 1, m, m', b');
      }
      assert ListedAt(keys, w, n - 1, m', b');
      hide ListedAt;
      forall i | 0 <= i < n - 1 ensures ListedAt(keys, w, i, m', b') {
        assert ListedAt(keys, w, i, m, b);
        ListedStays(keys, w, i, m, m', b, b');
      }
    }
  }

  /** The items of the backend just merged are there, and bound to it if they have an id. */
  lemma ListedNow(keys: seq<Str>, w: ListWorld, i: nat, m: Listing, m': Listing, b: Tabs)
    requires i < |keys| && w.reply(i).Listed? && m'.items == m.items + PrefixItems(keys[i], w.reply(i).items)
    requires var r := w.reply(i);
             forall k :: 0 <= k < |r.items| ==>
               var id := PrefixItems(keys[i], r.items)[k].tab; id != [] ==> BoundTo(b, id, i)
    ensures ListedAt(keys, w, i, m', b)
  {
    hide Prefixed, BoundTo;
    var r := w.reply(i);
    var added := PrefixItems(keys[i], r.items);
    forall k | 0 <= k < |r.items|
      ensures var id := Prefixed(keys[i], r.items[k].tab);
              (id != [] ==> BoundTo(b, id, i)) && exists x :: 0 <= x < |m'.items| && m'.items[x].tab == id
    {
      assert m'.items[|m.items| + k] == added[k];
    }
  }

  lemma MergeKeepsBound(m: Listing, m': Listing, added: seq<Item>, b: Tabs, b': Tabs)
    requires AllBound(m, b) && Extends(b, b') && m'.items == m.items + added
    requires m.tab != [] ==> m'.tab == m.tab
    requires m.focus != [] ==> m'.focus == m.focus
    requires m.tab == [] && m'.tab != [] ==> m'.tab in b'
    requires m.focus == [] && m'.focus != [] ==> m'.focus in b'
    requires forall k :: 0 <= k < |added| && added[k].tab != [] ==> added[k].tab in b'
    ensures AllBound(m', b')
  {
  }

  lemma ListedStays(keys: seq<Str>, w: ListWorld, i: nat, m: Listing, m': Listing, b: Tabs, b': Tabs)
    requires i < |keys| && ListedAt(keys, w, i, m, b) && Extends(b, b') && m.items <= m'.items
    ensures ListedAt(keys, w, i, m', b')
  {
    hide Prefixed;
    if w.reply(i).Listed? {
      forall k | 0 <= k < |w.reply(i).items|
        ensures exists x :: 0 <= x < |m'.items| && m'.items[x].tab == Prefixed(keys[i], w.reply(i).items[k].tab)
      {
        var x :| 0 <= x < |m.items| && m.items[x].tab == Prefixed(keys[i], w.reply(i).items[k].tab);
        assert m'.items[x] == m.items[x];
      }
    }
  }

  lemma ListStart(keys: seq<Str>, tabs: Tabs, w: ListWorld)
    ensures BoundAfter(keys, tabs, w, 0) == tabs && ListErrors(w, 0) == []
    ensures Merge(keys, w, 0) == Listing([], [], 0, [])
  {
  }

  lemma ListStep(keys: seq<Str>, tabs: Tabs, w: ListWorld, i: nat)
    requires i < |keys|
    ensures var r := w.reply(i); var m := Merge(keys, w, i);
            && BoundAfter(keys, tabs, w, i + 1) == BindAll(BoundAfter(keys, tabs, w, i), i, ObservedIn(keys[i], r))
            && Merge(keys, w, i + 1) == (if r.ListFailed? then m else Merged(keys[i], m, r))
            && ListErrors(w, i + 1) == ListErrors(w, i) + if r.ListFailed? then [BackendFailed(i)] else []
  {
    hide BindAll, ObservedIn, Merged;
  }

  // ---- What a listing says ------------------------------------------------------------------

  /** Backend i is the first of the first n to name such a tab. */
  ghost predicate FirstNamed(keys: seq<Str>, w: ListWorld, n: nat, i: nat, focus: bool)
    requires n <= |keys|
  {
    && i < n && NamedBy(keys, w, i, focus) != []
    && forall j :: 0 <= j < i ==> NamedBy(keys, w, j, focus) == []
  }

  /** The tab or focus backend i answers with, as the pool's callers see it. */
  function NamedBy(keys: seq<Str>, w: ListWorld, i: nat, focus: bool): Str
    requires i < |keys|
  {
    if w.reply(i).ListFailed? then [] else Prefixed(keys[i], if focus then w.reply(i).focus else w.reply(i).tab)
  }

  ghost predicate IsFirstNamed(keys: seq<Str>, w: ListWorld, n: nat, focus: bool, named: Str)
    requires n <= |keys|
  {
    && (forall i: nat :: FirstNamed(keys, w, n, i, focus) ==> named == NamedBy(keys, w, i, focus))
    && ((forall i :: 0 <= i < n ==> NamedBy(keys, w, i, focus) == []) ==> named == [])
  }

  /** How many items the first n backends list. */
  function ListedBefore(w: ListWorld, n: nat): nat {
    if n == 0 then 0 else ListedBefore(w, n - 1) + if w.reply(n - 1).ListFailed? then 0 else |w.reply(n - 1).items|
  }

  /** The merged items of backend i stand together behind those of the backends before it, in its own order and
      with nothing changed but their ids, now prefixed. */
  ghost predicate ItemsOf(keys: seq<Str>, w: ListWorld, i: nat, items: seq<Item>)
    requires i < |keys|
  {
    w.reply(i).Listed? ==>
      var from, own := ListedBefore(w, i), w.reply(i).items;
      from + |own| <= |items|
      && forall k :: 0 <= k < |own| ==> items[from + k] == own[k].(tab := Prefixed(keys[i], own[k].tab))
  }

  ghost predicate IsLargestSeq(w: ListWorld, n: nat, seqNo: nat) {
    && (forall i :: 0 <= i < n && w.reply(i).Listed? ==> w.reply(i).seqNo <= seqNo)
    && (seqNo == 0 || exists i :: 0 <= i < n && w.reply(i).Listed? && w.reply(i).seqNo == seqNo)
  }

  lemma {:induction false} MergeNames(keys: seq<Str>, w: ListWorld, n: nat)
    requires n <= |keys|
    ensures IsFirstNamed(keys, w, n, false, Merge(keys, w, n).tab)
    ensures IsFirstNamed(keys, w, n, true, Merge(keys, w, n).focus)
  {
    hide Prefixed;
    if n > 0 {
      MergeNames(keys, w, n - 1);
      NamedNext(keys, w, n - 1, false, Merge(keys, w, n - 1).tab);
      NamedNext(keys, w, n - 1, true, Merge(keys, w, n - 1).focus);
      hide IsFirstNamed, PrefixItems;
    }
  }

  lemma {:induction false} MergeSeq(keys: seq<Str>, w: ListWorld, n: nat)
    requires n <= |keys|
    ensures IsLargestSeq(w, n, Merge(keys, w, n).seqNo)
  {
    hide Prefixed, PrefixItems, FirstOf;
    if n > 0 {
      MergeSeq(keys, w, n - 1);
      LargestNext(w, n - 1, Merge(keys, w, n - 1).seqNo);
      hide IsLargestSeq;
    }
  }

  lemma {:induction false} MergeItems(keys: seq<Str>, w: ListWorld, n: nat)
    requires n <= |keys|
    ensures |Merge(keys, w, n).items| == ListedBefore(w, n)
    ensures forall i :: 0 <= i < n ==> ItemsOf(keys, w, i, Merge(keys, w, n).items)
  {
    hide ItemsOf, PrefixItems, FirstOf, Prefixed;
    if n > 0 {
      var j := n - 1;
      MergeItems(keys, w, j);
      var before, after := Merge(keys, w, j).items, Merge(keys, w, n).items;
      MergeNext(keys, w, j);
      hide Merge, ListedBefore;
      forall i | 0 <= i < n ensures ItemsOf(keys, w, i, after) {
        if i < j { ItemsStay(keys, w, i, before, after); }
      }
    }
  }

  lemma MergeNext(keys: seq<Str>, w: ListWorld, j: nat)
    requires j < |keys| && |Merge(keys, w, j).items| == ListedBefore(w, j)
    ensures var before, after := Merge(keys, w, j).items, Merge(keys, w, j + 1).items;
            before <= after && |after| == ListedBefore(w, j + 1) && ItemsOf(keys, w, j, after)
  {
    hide Prefixed, FirstOf, PrefixItems;
    var before, after := Merge(keys, w, j).items, Merge(keys, w, j + 1).items;
    var r := w.reply(j);
    assert after == before + if r.ListFailed? then [] else PrefixItems(keys[j], r.items);
    hide Merge;
  }

  lemma ItemsStay(keys: seq<Str>, w: ListWorld, i: nat, before: seq<Item>, after: seq<Item>)
    requires i < |keys| && ItemsOf(keys, w, i, before) && before <= after
    ensures ItemsOf(keys, w, i, after)
  {
    hide Prefixed;
  }

  /** A merged listing has the largest sequence number answered, the first tab and the first focus named, and the
      items of every backend that answered, one after the other. */
  lemma MergeSays(keys: seq<Str>, w: ListWorld, n: nat)
    requires n <= |keys|
    ensures var m := Merge(keys, w, n);
            && IsLargestSeq(w, n, m.seqNo)
            && IsFirstNamed(keys, w, n, false, m.tab) && IsFirstNamed(keys, w, n, true, m.focus)
            && |m.items| == ListedBefore(w, n)
            && forall i :: 0 <= i < n ==> ItemsOf(keys, w, i, m.items)
  {
    hide *;
    MergeSeq(keys, w, n);
    MergeNames(keys, w, n);
    MergeItems(keys, w, n);
  }

  lemma NamedNext(keys: seq<Str>, w: ListWorld, n: nat, focus: bool, named: Str)
    requires n < |keys| && IsFirstNamed(keys, w, n, focus, named)
    ensures IsFirstNamed(keys, w, n + 1, focus, FirstOf(named, NamedBy(keys, w, n, focus)))
  {
    hide NamedBy;
    var more := n + 1;
    if i: nat :| i < n && NamedBy(keys, w, i, focus) != [] {
      var j := FirstNaming(keys, w, i, focus);
      assert FirstNamed(keys, w, n, j, focus);
      forall x: nat | FirstNamed(keys, w, more, x, focus) ensures x == j {}
    } else {
      forall x: nat | FirstNamed(keys, w, more, x, focus) ensures x == n {}
    }
  }

  lemma {:induction false} FirstNaming(keys: seq<Str>, w: ListWorld, i: nat, focus: bool) returns (j: nat)
    requires i < |keys| && NamedBy(keys, w, i, focus) != []
    ensures j <= i && NamedBy(keys, w, j, focus) != [] && forall x :: 0 <= x < j ==> NamedBy(keys, w, x, focus) == []
    decreases i
  {
    hide NamedBy;
    if x: nat :| x < i && NamedBy(keys, w, x, focus) != [] { j := FirstNaming(keys, w, x, focus); } else { j := i; }
  }

  lemma LargestNext(w: ListWorld, n: nat, seqNo: nat)
    requires IsLargestSeq(w, n, seqNo)
    ensures var r := w.reply(n);
            IsLargestSeq(w, n + 1, if r.Listed? && r.seqNo > seqNo then r.seqNo else seqNo)
  {
  }

  /** A listing fails as a whole exactly when every backend failed, with one error for each in order. */
  lemma {:induction false} ListFailsIff(w: ListWorld, n: nat)
    ensures |ListErrors(w, n)| <= n
    ensures |ListErrors(w, n)| == n <==> forall i :: 0 <= i < n ==> w.reply(i).ListFailed?
    ensures |ListErrors(w, n)| == n ==> forall i :: 0 <= i < n ==> ListErrors(w, n)[i] == BackendFailed(i)
  {
    if n > 0 { ListFailsIff(w, n - 1); }
  }

  /** Binding observed ids binds no other. */
  lemma {:induction false} BindAllOnly(tabs: Tabs, i: nat, ids: seq<Str>)
    ensures forall t :: t in BindAll(tabs, i, ids) ==>
              t in tabs || exists k :: 0 <= k < |ids| && t == TrimSpace(ids[k])
    decreases |ids|
  {
    hide TrimSpace;
    if ids != [] {
      var next := if TrimSpace(ids[0]) == [] then tabs else Bind(tabs, ids[0], i).tabs;
      BindAllOnly(next, i, ids[1..]);
      forall t | t in BindAll(tabs, i, ids) && t !in tabs ensures exists k :: 0 <= k < |ids| && t == TrimSpace(ids[k]) {
        if t in next {
          assert t == TrimSpace(ids[0]);
        } else {
          var k :| 0 <= k < |ids| - 1 && t == TrimSpace(ids[1..][k]);
          assert ids[k + 1] == ids[1..][k];
        }
      }
    }
  }

  datatype ListResult = ListOk(value: Listing) | ListCancelled | ListUndecodable | ListAllFailed(errs: seq<CallError>)

  datatype FocusReply = FocusFailed | FocusAt(tab: Str, focus: Str)

  datatype FocusWorld = FocusWorld(done: nat -> bool, reply: nat -> FocusReply, decodes: bool)

  datatype FocusResult =
    | Focused(i: nat, tab: Str, focus: Str) | FocusCancelled | FocusUndecodable | FocusAllFailed(errs: seq<CallError>)

  datatype BoundResult =
    | Refused(why: Resolution) | TabRequired | BadParams | BackendError(i: nat) | BoundUndecodable | Answered

  /** The same request to backends 0 to n, one after the other. */
  function AskEach(loads: seq<int>, what: Request, n: nat): (log: seq<Sent>)
    requires n <= |loads|
    ensures |log| == n && forall i :: 0 <= i < n ==> log[i] == Sending(loads, i, what)
  {
    seq(n, i requires 0 <= i < n => Sending(loads, i, what))
  }

  lemma AskOneMore(loads: seq<int>, what: Request, i: nat)
    requires i < |loads|
    ensures AskEach(loads, what, i + 1) == AskEach(loads, what, i) + [Sending(loads, i, what)]
  {
  }

  lemma AskNone(loads: seq<int>, what: Request)
    ensures AskEach(loads, what, 0) == []
  {
  }

  // ---- The pool ------------------------------------------------------------------------------

  class Pool {
    const keys: seq<Str>
    const byKey: map<Str, nat>
    var inFlight: seq<int>
    var counter: nat
    var tabs: Tabs
    ghost var sent: seq<Sent>

    ghost predicate Shape()
      reads this
    {
      |keys| > 0 && |inFlight| == |keys| && counter < TWO64 && KeysOk(keys) && Indexes(byKey, keys)
    }

    ghost predicate Valid()
      reads this
    {
      Shape() && Owned(keys, tabs)
    }

    constructor (k: Keys)
      requires |k.keys| > 0 && KeysOk(k.keys) && Indexes(k.byKey, k.keys)
      ensures Valid() && keys == k.keys && byKey == k.byKey && tabs == map[] && sent == []
      ensures forall i :: 0 <= i < |inFlight| ==> inFlight[i] == 0
    {
      keys, byKey := k.keys, k.byKey;
      inFlight := seq(|k.keys|, _ => 0);
      counter := 0;
      tabs := map[];
      sent := [];
    }

    method Order() returns (out: Option<seq<nat>>)
      requires Shape()
      modifies this`counter
      ensures Shape() && counter == (old(counter) + 1) % TWO64
      ensures out == OrderFor(inFlight, old(counter))
    {
      var n := |keys|;
      var start := GoRem(Signed(counter), n);
      counter := (counter + 1) % TWO64;
      if start < 0 { return None; }
      var best, bestN := start, inFlight[start];
      for i := 1 to n
        invariant best == Best(inFlight, start, i) && bestN == inFlight[best]
      {
        var idx := (start + i) % n;
        var v := inFlight[idx];
        if v < bestN { best, bestN := idx, v; }
      }
      var order: seq<nat> := [];
      for i := 0 to n
        invariant order == Ring(best, n)[..i]
      {
        order := order + [(best + i) % n];
      }
      assert Ring(best, n)[..n] == Ring(best, n);
      return Some(order);
    }

    /** One request to backend i, counted as in flight until it is answered. */
    method Send(i: nat, what: Request)
      requires Shape() && i < |keys|
      modifies this`inFlight, this`sent
      ensures inFlight == old(inFlight)
      ensures sent == old(sent) + [Sending(inFlight, i, what)]
    {
      inFlight := inFlight[i := inFlight[i] + 1];
      sent := sent + [Sent(i, what, inFlight)];
      inFlight := inFlight[i := inFlight[i] - 1];
      assert inFlight == old(inFlight);
    }

    method BindTab(tab: Str, i: nat) returns (err: Option<BindError>)
      modifies this`tabs
      ensures Bind(old(tabs), tab, i) == Bound(tabs, err)
    {
      var ext := TrimSpace(tab);
      if ext == [] { return Some(EmptyTabId); }
      if ext in tabs && tabs[ext] != i { return Some(Collision(ext)); }
      tabs := tabs[ext := i];
      return None;
    }

    method UnbindTab(tab: Str)
      modifies this`tabs
      ensures tabs == Unbind(old(tabs), tab)
      ensures TrimSpace(tab) != [] ==> TrimSpace(tab) !in tabs
      ensures forall t :: t != TrimSpace(tab) ==>
                (t in tabs <==> t in old(tabs)) && (t in tabs ==> tabs[t] == old(tabs)[t])
    {
      var ext := TrimSpace(tab);
      if ext == [] { return; }
      tabs := tabs - {ext};
    }

    method ForgetTab(tab: Str)
      requires Valid()
      modifies this`tabs
      ensures Valid() && TrimSpace(tab) !in tabs
      ensures forall t :: t != TrimSpace(tab) ==>
                (t in tabs <==> t in old(tabs)) && (t in tabs ==> tabs[t] == old(tabs)[t])
    {
      NothingEmpty(keys, tabs);
      UnbindTab(tab);
    }

    method AbandonCreated(i: int, tab: Str)
      requires Shape()
      modifies this`inFlight, this`sent
      ensures inFlight == old(inFlight)
      ensures sent == if TrimSpace(tab) == [] || i < 0 || i >= |keys| then old(sent)
                      else old(sent) + [Sending(inFlight, i, TabClose(TrimSpace(tab)))]
    {
      var short := TrimSpace(tab);
      if short == [] || i < 0 || i >= |keys| { return; }
      Send(i, TabClose(short));
    }

    /** The new state is that of the walk over the order drawn; in-flight counts are back where they were. */
    method CallCreate(w: World) returns (res: CreateResult)
      requires Valid()
      modifies this
      ensures Valid() && inFlight == old(inFlight)
      ensures var order := OrderFor(inFlight, old(counter));
              if !w.usable then res == Unusable && tabs == old(tabs) && sent == old(sent) && counter == old(counter)
              else if order.None? then res == Panicked && tabs == old(tabs) && sent == old(sent)
              else var c := CreateWalk(keys, inFlight, order.value, old(tabs), [], w);
                   tabs == c.tabs && sent == old(sent) + c.log && res == c.res
      ensures w.usable ==> counter == (old(counter) + 1) % TWO64
      ensures var order := OrderFor(inFlight, old(counter));
              w.usable && order.Some? && Walkable(keys, inFlight, order.value) ==>
                && old(sent) <= sent
                && EndsRightly(keys, inFlight, order.value, old(tabs), [], w,
                               Creation(tabs, sent[|old(sent)|..], res))
      ensures OrderFor(inFlight, old(counter)).Some? ==>
                Walkable(keys, inFlight, OrderFor(inFlight, old(counter)).value)
    {
      hide Owned, KeysOk, Indexes, TrimSpace, Bind, CreateWalk, OrderFor, EndsRightly;
      if OrderFor(inFlight, counter).Some? { OrderWalkable(keys, inFlight, counter); }
      if !w.usable { return Unusable; }
      var drawn := Order();
      if drawn.None? { return Panicked; }
      WalkEndsRightly(keys, inFlight, drawn.value, tabs, [], w);
      WalkKeepsOwned(keys, inFlight, drawn.value, tabs, [], w);
      res := Walk(drawn.value, w);
    }

    method Walk(order: seq<nat>, w: World) returns (res: CreateResult)
      requires Shape() && Walkable(keys, inFlight, order)
      modifies this`inFlight, this`sent, this`tabs
      ensures inFlight == old(inFlight)
      ensures var c := CreateWalk(keys, inFlight, order, old(tabs), [], w);
              tabs == c.tabs && sent == old(sent) + c.log && res == c.res
    {
      hide KeysOk, Indexes, Try, CreateWalk, TurnRight;
      var errs: seq<CallError> := [];
      ghost var log: seq<Sent> := [];
      for k := 0 to |order|
        invariant inFlight == old(inFlight) && sent == old(sent) + log
        invariant CreateWalk(keys, inFlight, order, old(tabs), [], w)
                  == After(log, CreateWalk(keys, inFlight, order[k..], tabs, errs, w))
      {
        WalkOn(keys, inFlight, order, k, tabs, errs, w, log);
        if w.done(order[k]) { return Cancelled; }
        log := log + Try(keys, inFlight, order[k], tabs, w).log;
        var verdict := TryBackend(order[k], w);
        if verdict.Stop? { return verdict.res; }
        errs := errs + [verdict.err];
      }
      WalkEnds(keys, inFlight, order, tabs, errs, w);
      return AllFailed(errs);
    }

    method TryBackend(i: nat, w: World) returns (verdict: Verdict)
      requires Shape() && i < |keys|
      modifies this`inFlight, this`sent, this`tabs
      ensures inFlight == old(inFlight)
      ensures var t := Try(keys, inFlight, i, old(tabs), w);
              tabs == t.tabs && sent == old(sent) + t.log && verdict == t.verdict
      ensures KeysOk(keys) ==>
                exists t :: TurnRight(keys, inFlight, i, old(tabs), w, t)
                  && tabs == t.tabs && sent == old(sent) + t.log && verdict == t.verdict
    {
      hide KeysOk, Indexes, TrimSpace, Bind, Unbind, TurnRight;
      if KeysOk(keys) { TurnMeans(keys, inFlight, i, tabs, w); }
      Send(i, TabNew);
      var reply := w.reply(i);
      if reply.Failed? { return Next(BackendFailed(i)); }
      var short := TrimSpace(reply.tab);
      if short == [] { return Next(NoTabId(i)); }
      TrimSpaceIsProjection(reply.tab);
      TrimSpaceIsProjection(short);
      var ext := FormatTabId(keys[i], short);
      BindFailureKeeps(tabs, ext, i);
      var err := BindTab(ext, i);
      if err.Some? {
        AbandonCreated(i, short);
        return Next(NotBound(err.value));
      }
      if !w.decodes {
        UnbindTab(ext);
        AbandonCreated(i, short);
        return Stop(Undecodable);
      }
      return Stop(Created(ext));
    }

    method LookupTab(tab: Str) returns (i: Option<nat>)
      ensures i == if TrimSpace(tab) in tabs && TrimSpace(tab) != [] then Some(tabs[TrimSpace(tab)]) else None
    {
      var ext := TrimSpace(tab);
      if ext == [] || ext !in tabs { return None; }
      return Some(tabs[ext]);
    }

    method ResolveTab(tab: Str) returns (r: Resolution)
      requires Shape()
      ensures r == Resolve(byKey, tabs, tab)
    {
      hide TrimSpace;
      var ext := TrimSpace(tab);
      TrimSpaceIsProjection(tab);
      TrimSpaceIsProjection(ext);
      var parts := SplitTabId(ext);
      if parts.None? { return Malformed(ext); }
      if parts.value.0 !in byKey { return UnknownKey(ext, parts.value.0); }
      var i := byKey[parts.value.0];
      var mapped := LookupTab(ext);
      if mapped.None? { return UnknownTab(ext); }
      if mapped.value != i { return Resolved(i, parts.value.1); }
      return Resolved(i, parts.value.1);
    }

    /** A call about a tab goes to the backend its prefix names and to no other, at most once. */
    method CallBound(tab: Str, action: string, strips: bool, answered: bool, decodes: bool) returns (res: BoundResult)
      requires Shape()
      modifies this`inFlight, this`sent
      ensures inFlight == old(inFlight)
      ensures var r := Resolve(byKey, tabs, tab);
              if !r.Resolved? then res == Refused(r) && sent == old(sent)
              else if !strips then res == BadParams && sent == old(sent)
              else
                && sent == old(sent) + [Sending(inFlight, r.i, Forward(action, r.short))]
                && res == if !answered then BackendError(r.i) else if !decodes then BoundUndecodable else Answered
    {
      var r := ResolveTab(tab);
      if !r.Resolved? { return Refused(r); }
      if !strips { return BadParams; }
      Send(r.i, Forward(action, r.short));
      if !answered { return BackendError(r.i); }
      if !decodes { return BoundUndecodable; }
      return Answered;
    }

    /** A tab is released exactly when its close succeeded. */
    method CallClose(tab: Str, strips: bool, answered: bool, decodes: bool) returns (res: BoundResult)
      requires Valid()
      modifies this`inFlight, this`sent, this`tabs
      ensures Valid() && inFlight == old(inFlight)
      ensures res != Answered ==> tabs == old(tabs)
      ensures res == Answered ==> TrimSpace(tab) !in tabs
      ensures forall t :: t != TrimSpace(tab) ==>
                (t in tabs <==> t in old(tabs)) && (t in tabs ==> tabs[t] == old(tabs)[t])
      ensures tab == [] <==> res == TabRequired
      ensures res == Answered <==> tab != [] && TrimSpace(tab) in old(tabs) && strips && answered && decodes
      ensures tab != [] && TrimSpace(tab) in old(tabs) && strips ==>
                exists short :: FormatTabId(keys[old(tabs)[TrimSpace(tab)]], short) == TrimSpace(tab)
                  && sent == old(sent) + [Sending(inFlight, old(tabs)[TrimSpace(tab)], Forward("tab_close", short))]
    {
      hide KeysOk, Indexes, TrimSpace, SplitTabId;
      if tab == [] { return TabRequired; }
      NothingEmpty(keys, tabs);
      ResolvesIffBound(keys, byKey, tabs, tab);
      res := CallBound(tab, "tab_close", strips, answered, decodes);
      if res == Answered { UnbindTab(tab); }
    }

    /** The first backend whose turn finds the caller's context done, or the number of backends. */
    static function StopAt(done: nat -> bool, from: nat, n: nat): (k: nat)
      requires from <= n
      ensures from <= k <= n && (k < n ==> done(k)) && forall i :: from <= i < k ==> !done(i)
      decreases n - from
    {
      if from == n || done(from) then from else StopAt(done, from + 1, n)
    }

    method CallTabList(w: ListWorld) returns (res: ListResult)
      requires Valid()
      modifies this`inFlight, this`sent, this`tabs
      ensures Valid() && inFlight == old(inFlight)
      ensures var n := |keys|; var stop := StopAt(w.done, 0, n);
              && tabs == BoundAfter(keys, old(tabs), w, stop)
              && sent == old(sent) + AskEach(inFlight, TabList, stop)
              && res == if stop < n then ListCancelled
                        else if |ListErrors(w, n)| == n then ListAllFailed(ListErrors(w, n))
                        else if !w.decodes then ListUndecodable
                        else ListOk(Merge(keys, w, n))
    {
      hide Owned, KeysOk, Indexes, TrimSpace, BindAll, Bind, Merged, AskEach, ObservedIn, Prefixed, BoundAfter,
           Merge, ListErrors, Sending;
      AskNone(inFlight, TabList);
      ListStart(keys, tabs, w);
      var merged := Listing([], [], 0, []);
      var errs: seq<CallError> := [];
      var anyOk := false;
      var n := |keys|;
      for i := 0 to n
        invariant inFlight == old(inFlight) && StopAt(w.done, 0, n) == StopAt(w.done, i, n)
        invariant sent == old(sent) + AskEach(inFlight, TabList, i)
        invariant tabs == BoundAfter(keys, old(tabs), w, i) && Owned(keys, tabs)
        invariant merged == Merge(keys, w, i) && errs == ListErrors(w, i)
        invariant |errs| <= i && (anyOk <==> |errs| < i)
      {
        if w.done(i) { return ListCancelled; }
        Send(i, TabList);
        AskOneMore(inFlight, TabList, i);
        var reply := w.reply(i);
        ObserveBinds(keys, tabs, i, reply);
        ListStep(keys, old(tabs), w, i);
        if reply.ListFailed? {
          errs := errs + [BackendFailed(i)];
          continue;
        }
        anyOk := true;
        BindObserved(i, ObservedIn(keys[i], reply));
        merged := Merged(keys[i], merged, reply);
      }
      if !anyOk { return ListAllFailed(errs); }
      if !w.decodes { return ListUndecodable; }
      return ListOk(merged);
    }

    method BindObserved(i: nat, ids: seq<Str>)
      modifies this`tabs
      ensures tabs == BindAll(old(tabs), i, ids)
    {
      hide TrimSpace, Bind;
      for k := 0 to |ids|
        invariant BindAll(tabs, i, ids[k..]) == BindAll(old(tabs), i, ids)
      {
        assert ids[k..][1..] == ids[k + 1..];
        if TrimSpace(ids[k]) == [] { continue; }
        var _ := BindTab(ids[k], i);
      }
      assert ids[|ids|..] == [];
    }

    /** The first backend to answer, in constructor order; its ids come back prefixed and bound to it. */
    method CallTabFocus(w: FocusWorld) returns (res: FocusResult)
      requires Valid()
      modifies this`inFlight, this`sent, this`tabs
      ensures Valid() && inFlight == old(inFlight)
      ensures Extends(old(tabs), tabs)
      ensures res.Focused? && res.tab != [] ==> BoundTo(tabs, res.tab, res.i)
      ensures res.Focused? && res.focus != [] ==> BoundTo(tabs, res.focus, res.i)
      ensures exists k :: 0 <= k <= |keys|
                && (forall j :: 0 <= j < k ==> !w.done(j) && w.reply(j).FocusFailed?)
                && FocusEnds(w, k, old(tabs), old(sent), res)
    {
      hide Owned, KeysOk, Indexes, TrimSpace, BindAll, Bind, Prefixed;
      var errs: seq<CallError> := [];
      for i := 0 to |keys|
        invariant inFlight == old(inFlight) && tabs == old(tabs) && |errs| == i
        invariant sent == old(sent) + AskEach(inFlight, TabFocus, i)
        invariant forall j :: 0 <= j < i ==> !w.done(j) && w.reply(j).FocusFailed? && errs[j] == BackendFailed(j)
      {
        if w.done(i) {
          assert FocusEnds(w, i, old(tabs), old(sent), FocusCancelled);
          return FocusCancelled;
        }
        Send(i, TabFocus);
        AskOneMore(inFlight, TabFocus, i);
        var reply := w.reply(i);
        if reply.FocusFailed? {
          errs := errs + [BackendFailed(i)];
          continue;
        }
        var tab, focus := Prefixed(keys[i], reply.tab), Prefixed(keys[i], reply.focus);
        BindAllBinds(keys, tabs, i, [reply.tab, reply.focus], [tab, focus]);
        BindObserved(i, [tab, focus]);
        res := if w.decodes then Focused(i, tab, focus) else FocusUndecodable;
        assert FocusEnds(w, i, old(tabs), old(sent), res);
        assert [tab, focus][0] == tab && [tab, focus][1] == focus;
        return;
      }
      res := FocusAllFailed(errs);
      assert FocusEnds(w, |keys|, old(tabs), old(sent), res);
    }

    /** How a focus call ends at backend k, all before it having failed. */
    ghost predicate FocusEnds(w: FocusWorld, k: nat, tabs0: Tabs, sent0: seq<Sent>, res: FocusResult)
      requires k <= |keys| == |inFlight|
      reads this
    {
      if k == |keys| then
        && res.FocusAllFailed? && |res.errs| == k && (forall j :: 0 <= j < k ==> res.errs[j] == BackendFailed(j))
        && tabs == tabs0 && sent == sent0 + AskEach(inFlight, TabFocus, k)
      else if w.done(k) then
        res == FocusCancelled && tabs == tabs0 && sent == sent0 + AskEach(inFlight, TabFocus, k)
      else
        && w.reply(k).FocusAt?
        && sent == sent0 + AskEach(inFlight, TabFocus, k + 1)
        && var tab, focus := Prefixed(keys[k], w.reply(k).tab), Prefixed(keys[k], w.reply(k).focus);
           && tabs == BindAll(tabs0, k, [tab, focus])
           && res == if w.decodes then Focused(k, tab, focus) else FocusUndecodable
    }
  }

  lemma OrderWalkable(keys: seq<Str>, loads: seq<int>, counter: nat)
    requires KeysOk(keys) && |loads| == |keys| > 0 && counter < TWO64 && OrderFor(loads, counter).Some?
    ensures Walkable(keys, loads, OrderFor(loads, counter).value)
  {
    var n := |loads|;
    var first := Best(loads, GoRem(Signed(counter), n), n);
    RingIsPermutation(first, n);
  }

  method NewPoolBackends(backends: seq<PoolBackend>) returns (r: KeyResult, pool: Pool?)
    ensures r.Ok? <==> |backends| > 0 && forall i :: 0 <= i < |backends| ==> Fault(backends, i).None?
    ensures r.Ok? <==> pool != null
    ensures pool != null ==>
              fresh(pool) && pool.Valid() && |pool.keys| == |backends| && pool.tabs == map[]
              && forall i :: 0 <= i < |backends| ==> pool.keys[i] == KeyOf(backends[i], i)
  {
    hide Fault, KeyOf;
    r := CheckBackends(backends);
    pool := null;
    if r.Ok? { pool := new Pool(r.value); }
  }
}
