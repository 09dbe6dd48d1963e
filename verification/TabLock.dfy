/** The per-tab operation lock: reference-counted entries in a map keyed by short id, each with a
    one-token channel, that target removal may forget while operations still use them. */
module TabLock {
  import opened Bytes

  /** `token` says whether the channel holds its token. */
  datatype Entry = Entry(key: Str, token: bool, refs: int, forgotten: bool)

  /** Where a thread is in lockTab or in the unlock closure. */
  datatype Pc = Waiting(entry: nat) | Locked(entry: nat) | Leaving(entry: nat)

  /** `entries` are all entries ever made; `locks` is the map the server keeps. */
  datatype State = State(entries: seq<Entry>, locks: map<Str, nat>, threads: map<nat, Pc>)

  const Init := State([], map[], map[])

  datatype Event =
    | Lock(thread: nat, key: Str)     // look the entry up or make it, and count the reference
    | Receive(thread: nat)            // take the token
    | Timeout(thread: nat)            // the context ended first
    | Unlock(thread: nat)             // put the token back
    | Release(thread: nat)            // drop the reference
    | Forget(key: Str)

  predicate Enabled(s: State, ev: Event) {
    match ev
    case Lock(t, key) => t !in s.threads && key != []
    case Receive(t) =>
      t in s.threads && s.threads[t].Waiting? && s.threads[t].entry < |s.entries|
      && s.entries[s.threads[t].entry].token
    case Timeout(t) => t in s.threads && s.threads[t].Waiting?
    case Unlock(t) => t in s.threads && s.threads[t].Locked? && s.threads[t].entry < |s.entries|
    case Release(t) => t in s.threads && s.threads[t].Leaving? && s.threads[t].entry < |s.entries|
    case Forget(key) => true
  }

  function Next(s: State, ev: Event): State
    requires Enabled(s, ev)
  {
    match ev
    case Lock(t, key) =>
      if key in s.locks && s.locks[key] < |s.entries| then
        var e := s.locks[key];
        s.(entries := s.entries[e := s.entries[e].(refs := s.entries[e].refs + 1)],
           threads := s.threads[t := Waiting(e)])
      else
        s.(entries := s.entries + [Entry(key, true, 1, false)], locks := s.locks[key := |s.entries|],
           threads := s.threads[t := Waiting(|s.entries|)])
    case Receive(t) =>
      var e := s.threads[t].entry;
      s.(entries := s.entries[e := s.entries[e].(token := false)], threads := s.threads[t := Locked(e)])
    case Timeout(t) => s.(threads := s.threads[t := Leaving(s.threads[t].entry)])
    case Unlock(t) =>
      var e := s.threads[t].entry;
      s.(entries := s.entries[e := s.entries[e].(token := true)], threads := s.threads[t := Leaving(e)])
    case Release(t) =>
      var e := s.threads[t].entry;
      var ent := s.entries[e].(refs := s.entries[e].refs - 1);
      s.(entries := s.entries[e := ent], threads := s.threads - {t},
         locks := if ent.refs == 0 && ent.forgotten && ent.key in s.locks && s.locks[ent.key] == e
                  then s.locks - {ent.key} else s.locks)
    case Forget(key) =>
      if key == [] || key !in s.locks || s.locks[key] >= |s.entries| then s
      else
        var e := s.locks[key];
        s.(entries := s.entries[e := s.entries[e].(forgotten := true)],
           locks := if s.entries[e].refs == 0 then s.locks - {key} else s.locks)
  }

  /** Threads that hold a reference to entry e. */
  ghost function Users(s: State, e: nat): set<nat> {
    set t | t in s.threads && s.threads[t].entry == e
  }

  /** Threads between taking entry e's token and putting it back. */
  ghost function Holders(s: State, e: nat): set<nat> {
    set t | t in s.threads && s.threads[t] == Locked(e)
  }

  ghost predicate EntryRight(s: State, e: nat)
    requires e < |s.entries|
  {
    var ent := s.entries[e];
    && ent.refs == |Users(s, e)|
    && One(ent.token) + |Holders(s, e)| == 1
    && (ent.refs > 0 || !ent.forgotten ==> ent.key in s.locks && s.locks[ent.key] == e)
    && (ent.refs == 0 && ent.forgotten ==> !(ent.key in s.locks && s.locks[ent.key] == e))
  }

  ghost predicate LinksRight(s: State) {
    && (forall t :: t in s.threads ==> s.threads[t].entry < |s.entries|)
    && (forall key :: key in s.locks ==> s.locks[key] < |s.entries| && s.entries[s.locks[key]].key == key)
  }

  ghost predicate Inv(s: State) {
    && LinksRight(s)
    && (forall e :: 0 <= e < |s.entries| ==> EntryRight(s, e))
  }

  function One(b: bool): int {
    if b then 1 else 0
  }

  /** Adding or dropping thread t's reference changes the users of its own entry only. */
  lemma UsersStep(s: State, n: State, t: nat, e: nat)
    requires forall u :: u != t ==>
               (u in s.threads <==> u in n.threads) && (u in s.threads ==> s.threads[u] == n.threads[u])
    ensures |Users(n, e)| - One(t in Users(n, e)) == |Users(s, e)| - One(t in Users(s, e))
    ensures |Holders(n, e)| - One(t in Holders(n, e)) == |Holders(s, e)| - One(t in Holders(s, e))
  {
    SameBut(Users(s, e), Users(n, e), t);
    SameBut(Holders(s, e), Holders(n, e), t);
  }

  lemma SameBut(a: set<nat>, b: set<nat>, t: nat)
    requires a - {t} == b - {t}
    ensures |a| - One(t in a) == |b| - One(t in b)
  {
    assert |a - {t}| == |a| - One(t in a);
    assert |b - {t}| == |b| - One(t in b);
  }

  function Thread(ev: Event): nat {
    if ev.Forget? then 0 else ev.thread
  }

  lemma KeepsLinks(s: State, ev: Event)
    requires Inv(s) && Enabled(s, ev)
    ensures LinksRight(Next(s, ev))
  {
    hide EntryRight;
  }

  /** An entry no thread of the step uses keeps its state but may lose its place in the map when forgotten. */
  lemma KeepsEntry(s: State, ev: Event, e: nat)
    requires Inv(s) && Enabled(s, ev) && !ev.Forget? && e < |s.entries|
    ensures e < |Next(s, ev).entries| && EntryRight(Next(s, ev), e)
  {
    UsersStep(s, Next(s, ev), Thread(ev), e);
    assert EntryRight(s, e);
  }

  lemma ForgetKeepsEntry(s: State, key: Str, e: nat)
    requires Inv(s) && e < |s.entries|
    ensures e < |Next(s, Forget(key)).entries| && EntryRight(Next(s, Forget(key)), e)
  {
    var n := Next(s, Forget(key));
    assert Users(n, e) == Users(s, e) && Holders(n, e) == Holders(s, e);
    assert EntryRight(s, e);
  }

  lemma NewEntryRight(s: State, ev: Event, e: nat)
    requires Inv(s) && Enabled(s, ev) && |s.entries| <= e < |Next(s, ev).entries|
    ensures EntryRight(Next(s, ev), e)
  {
    UsersStep(s, Next(s, ev), Thread(ev), e);
    assert Users(s, e) == {} && Holders(s, e) == {};
  }

  lemma StepKeepsInv(s: State, ev: Event)
    requires Inv(s) && Enabled(s, ev)
    ensures Inv(Next(s, ev))
  {
    hide Next, Enabled, EntryRight, LinksRight;
    KeepsLinks(s, ev);
    var n := Next(s, ev);
    forall e | 0 <= e < |n.entries| ensures EntryRight(n, e) {
      if e >= |s.entries| {
        NewEntryRight(s, ev, e);
      } else if ev.Forget? {
        ForgetKeepsEntry(s, ev.key, e);
      } else {
        KeepsEntry(s, ev, e);
      }
    }
  }

  ghost predicate Run(sts: seq<State>, evs: seq<Event>) {
    && |sts| == |evs| + 1 && sts[0] == Init
    && forall i :: 0 <= i < |evs| ==> Enabled(sts[i], evs[i]) && sts[i + 1] == Next(sts[i], evs[i])
  }

  lemma {:induction false} RunKeepsInv(sts: seq<State>, evs: seq<Event>, k: nat)
    requires Run(sts, evs) && k <= |evs|
    ensures Inv(sts[k])
    decreases k
  {
    if k > 0 {
      RunKeepsInv(sts, evs, k - 1);
      StepKeepsInv(sts[k - 1], evs[k - 1]);
    }
  }

  /** In every interleaving at most one thread holds a tab's lock, even across forgets that leave two
      entries of one tab behind; and unlocking never blocks, for the channel is empty then. */
  lemma MutualExclusion(sts: seq<State>, evs: seq<Event>, k: nat, a: nat, b: nat)
    requires Run(sts, evs) && k <= |evs|
    requires var s := sts[k];
             && a in s.threads && s.threads[a].Locked? && b in s.threads && s.threads[b].Locked?
             && s.threads[a].entry < |s.entries| && s.threads[b].entry < |s.entries|
             && s.entries[s.threads[a].entry].key == s.entries[s.threads[b].entry].key
    ensures a == b
    ensures !sts[k].entries[sts[k].threads[a].entry].token
  {
    RunKeepsInv(sts, evs, k);
    var s := sts[k];
    var e, f := s.threads[a].entry, s.threads[b].entry;
    assert EntryRight(s, e) && EntryRight(s, f);
    assert a in Users(s, e) && b in Users(s, f);
    assert e == f;
    assert a in Holders(s, e) && b in Holders(s, e);
    if a != b { assert {a, b} <= Holders(s, e); OneOrTwo(Holders(s, e), a, b); }
  }

  lemma OneOrTwo(h: set<nat>, a: nat, b: nat)
    requires a in h && b in h && a != b
    ensures |h| >= 2
  {
    assert |h - {a}| == |h| - 1 && b in h - {a};
  }

  /** Nothing leaks: once no thread uses a forgotten entry, the map has let it go; and an entry in use, or not
      forgotten, is the mapped one, so a newcomer queues behind it. */
  lemma ForgottenEntriesGo(sts: seq<State>, evs: seq<Event>, k: nat, e: nat)
    requires Run(sts, evs) && k <= |evs| && e < |sts[k].entries|
    ensures var s := sts[k]; var ent := s.entries[e];
            && (ent.forgotten && Users(s, e) == {} ==> e !in s.locks.Values)
            && (Users(s, e) != {} || !ent.forgotten ==> ent.key in s.locks && s.locks[ent.key] == e)
  {
    RunKeepsInv(sts, evs, k);
    assert EntryRight(sts[k], e);
  }

  /** What a forget does is lasting: from then on, whenever no thread uses the entry that was mapped, the map does
      not have it. */
  lemma {:induction false} ForgetTakesEffect(sts: seq<State>, evs: seq<Event>, j: nat, k: nat, key: Str)
    requires Run(sts, evs) && j < k <= |evs| && evs[j] == Forget(key) && key != [] && key in sts[j].locks
    ensures var e, s := sts[j].locks[key], sts[k];
            && e < |s.entries| && s.entries[e].key == key
            && (s.entries[e].forgotten || e !in s.locks.Values)
            && (Users(s, e) == {} ==> e !in s.locks.Values)
    decreases k
  {
    hide Next, Enabled, Users, Holders;
    RunKeepsInv(sts, evs, k - 1);
    RunKeepsInv(sts, evs, k);
    var e := sts[j].locks[key];
    if j + 1 < k {
      ForgetTakesEffect(sts, evs, j, k - 1, key);
      ForgottenStays(sts[k - 1], evs[k - 1], e);
    } else {
      ForgetMarks(sts[j], key);
    }
    assert EntryRight(sts[k], e);
    OnlyItsKey(sts[k], e);
  }

  lemma ForgetMarks(s: State, key: Str)
    requires Inv(s) && key != [] && key in s.locks
    ensures var e, n := s.locks[key], Next(s, Forget(key));
            e < |n.entries| && n.entries[e].key == key && (n.entries[e].forgotten || e !in n.locks.Values)
  {
    hide EntryRight;
    var n := Next(s, Forget(key));
    assert n.entries[s.locks[key]].forgotten;
  }

  lemma ForgottenStays(s: State, ev: Event, e: nat)
    requires Inv(s) && Enabled(s, ev) && e < |s.entries| && (s.entries[e].forgotten || e !in s.locks.Values)
    ensures var n := Next(s, ev);
            e < |n.entries| && n.entries[e].key == s.entries[e].key && (n.entries[e].forgotten || e !in n.locks.Values)
  {
    hide EntryRight;
  }

  /** Only a forget of its own key marks an entry forgotten. */
  lemma {:induction false} ForgottenByForget(sts: seq<State>, evs: seq<Event>, k: nat, e: nat) returns (j: nat)
    requires Run(sts, evs) && k <= |evs| && e < |sts[k].entries| && sts[k].entries[e].forgotten
    ensures j < k && evs[j] == Forget(sts[k].entries[e].key)
    decreases k
  {
    hide Next, Enabled, EntryRight;
    j := k - 1;
    RunKeepsInv(sts, evs, j);
    MarkedByForget(sts[j], evs[j], e);
    if evs[j] != Forget(sts[k].entries[e].key) {
      j := ForgottenByForget(sts, evs, j, e);
    }
  }

  lemma MarkedByForget(s: State, ev: Event, e: nat)
    requires Inv(s) && Enabled(s, ev) && e < |Next(s, ev).entries| && Next(s, ev).entries[e].forgotten
    ensures var key := Next(s, ev).entries[e].key;
            ev == Forget(key) || (e < |s.entries| && s.entries[e].forgotten && s.entries[e].key == key)
  {
    hide EntryRight;
  }

  /** An entry is mapped under its own key or not at all. */
  lemma OnlyItsKey(s: State, e: nat)
    requires Inv(s) && e < |s.entries|
    ensures e in s.locks.Values <==> s.entries[e].key in s.locks && s.locks[s.entries[e].key] == e
  {
    hide EntryRight;
  }

  /** The thread alone: what its own steps bring it. */
  lemma LockWorks(s: State, t: nat, key: Str)
    requires Inv(s) && Enabled(s, Lock(t, key))
    ensures var n := Next(s, Lock(t, key));
            && key in n.locks && n.locks[key] < |n.entries| && n.threads == s.threads[t := Waiting(n.locks[key])]
            && n.entries[n.locks[key]].key == key
            && (if key in s.locks then n.locks == s.locks else !n.entries[n.locks[key]].forgotten)
            && (Holders(s, n.locks[key]) == {} ==> Enabled(n, Receive(t)))
  {
    var e := if key in s.locks then s.locks[key] else |s.entries|;
    if key in s.locks { assert EntryRight(s, e); }
  }

  /** A thread that finds the token holds the lock; its unlock gives the token back, a timeout leaves it alone, and
      its release takes it out. Nobody else's place changes. */
  lemma HoldingWorks(s: State, t: nat)
    requires Inv(s) && t in s.threads
    ensures s.threads[t].Waiting? && Enabled(s, Receive(t)) ==>
              var n := Next(s, Receive(t));
              n.threads == s.threads[t := Locked(s.threads[t].entry)] && Enabled(n, Unlock(t)) && n.locks == s.locks
    ensures s.threads[t].Waiting? ==>
              && Enabled(s, Timeout(t))
              && Next(s, Timeout(t)) == s.(threads := s.threads[t := Leaving(s.threads[t].entry)])
    ensures s.threads[t].Locked? ==>
              var n := Next(s, Unlock(t)); var e := s.threads[t].entry;
              n.threads == s.threads[t := Leaving(e)] && n.entries[e].token && n.locks == s.locks
    ensures s.threads[t].Leaving? ==> Enabled(s, Release(t)) && Next(s, Release(t)).threads == s.threads - {t}
  {
    hide EntryRight;
  }

  /** A waiting thread gets the lock as soon as the holder unlocks: the token is back in the channel. */
  lemma HandOver(s: State, holder: nat, waiter: nat)
    requires Inv(s) && Enabled(s, Unlock(holder))
    requires waiter in s.threads && s.threads[waiter] == Waiting(s.threads[holder].entry)
    ensures Enabled(Next(s, Unlock(holder)), Receive(waiter))
  {
    assert waiter != holder;
  }
}
