/** The audit hand-off: handlers send records to a bounded channel or append them themselves, one writer
    drains the channel, and shutdown closes the channel, waits for the writer and closes the store. */
module Audit {
  import opened Bytes

  /** A call of enqueueAudit, named like its record: about to lock, locked, decided to append by itself,
      or about to unlock. */
  datatype Handler = Entering | Inside | Appending | Unlocking

  datatype Writer = Receiving | Writing(rec: nat) | Stopped

  /** A call of closeAudit: it locks, closes the channel and unlocks; waits for the writer; locks again,
      closes the store and unlocks. */
  datatype Closer = Requesting | Marking | Releasing | Awaiting | Closing | Leaving

  datatype Owner = ByHandler(rec: nat) | ByCloser(closer: nat) | Nobody

  /** What the threads share. The last fields record the run: records whose handler locked before the
      store closed, those given to AppendRPC while the store was open and after, in order, and whether anything was
      ever sent on the closed channel or the channel closed twice. */
  datatype Shared = Shared(
    capacity: nat, mu: Owner, closed: bool, channel: seq<nat>, channelClosed: bool, storeOpen: bool,
    early: set<nat>, saved: seq<nat>, lost: seq<nat>, panicked: bool)

  datatype State = State(
    sh: Shared, handlers: map<nat, Handler>, closers: map<nat, Closer>, writer: Writer, submitted: set<nat>)

  function Start(capacity: nat): State {
    State(Shared(capacity, Nobody, false, [], false, true, {}, [], [], false),
          map[], map[], Receiving, {})
  }

  datatype Event =
    | Enqueue(rec: nat)
    | Handle(rec: nat)
    | Receive
    | Write
    | Stop                        // the writer finds the channel closed and drained
    | Shutdown(closer: nat)
    | Close(closer: nat)

  predicate Enabled(s: State, ev: Event) {
    match ev
    case Enqueue(r) => r !in s.submitted && r !in s.handlers
    case Handle(r) => r in s.handlers && (s.handlers[r].Entering? ==> s.sh.mu.Nobody?)
    case Receive => s.writer.Receiving? && s.sh.channel != []
    case Write => s.writer.Writing?
    case Stop => s.writer.Receiving? && s.sh.channel == [] && s.sh.channelClosed
    case Shutdown(c) => c !in s.closers
    case Close(c) =>
      && c in s.closers
      && (s.closers[c].Requesting? ==> s.sh.mu.Nobody?)
      && (s.closers[c].Awaiting? ==> s.writer.Stopped? && s.sh.mu.Nobody?)
  }

  /** AppendRPC, into a store that is open or no longer is. */
  function Append(sh: Shared, r: nat): Shared {
    if sh.storeOpen then sh.(saved := sh.saved + [r]) else sh.(lost := sh.lost + [r])
  }

  /** enqueueAudit: under auditMu, append if closed, else send without blocking, else append. */
  function Handled(sh: Shared, r: nat, pc: Handler): (Shared, Option<Handler>) {
    match pc
    case Entering => (sh.(mu := ByHandler(r), early := if sh.storeOpen then sh.early + {r} else sh.early), Some(Inside))
    case Inside =>
      if sh.closed || |sh.channel| >= sh.capacity then (sh, Some(Appending))
      else (sh.(channel := sh.channel + [r], panicked := sh.panicked || sh.channelClosed), Some(Unlocking))
    case Appending => (Append(sh, r), Some(Unlocking))
    case Unlocking => (sh.(mu := Nobody), None)
  }

  function Closed(sh: Shared, c: nat, pc: Closer): (Shared, Option<Closer>) {
    match pc
    case Requesting => (sh.(mu := ByCloser(c)), Some(Marking))
    case Marking =>
      (if sh.closed then sh
       else sh.(closed := true, channelClosed := true, panicked := sh.panicked || sh.channelClosed), Some(Releasing))
    case Releasing => (sh.(mu := Nobody), Some(Awaiting))
    case Awaiting => (sh.(mu := ByCloser(c)), Some(Closing))
    case Closing => (sh.(storeOpen := false), Some(Leaving))
    case Leaving => (sh.(mu := Nobody), None)
  }

  function Moved<T>(m: map<nat, T>, t: nat, pc: Option<T>): map<nat, T> {
    if pc.Some? then m[t := pc.value] else m - {t}
  }

  function Next(s: State, ev: Event): State
    requires Enabled(s, ev)
  {
    match ev
    case Enqueue(r) => s.(handlers := s.handlers[r := Entering], submitted := s.submitted + {r})
    case Handle(r) =>
      var o := Handled(s.sh, r, s.handlers[r]);
      s.(sh := o.0, handlers := Moved(s.handlers, r, o.1))
    case Receive => s.(sh := s.sh.(channel := s.sh.channel[1..]), writer := Writing(s.sh.channel[0]))
    case Write => s.(sh := Append(s.sh, s.writer.rec), writer := Receiving)
    case Stop => s.(writer := Stopped)
    case Shutdown(c) => s.(closers := s.closers[c := Requesting])
    case Close(c) =>
      var o := Closed(s.sh, c, s.closers[c]);
      s.(sh := o.0, closers := Moved(s.closers, c, o.1))
  }

  // ---- Invariants ------------------------------------------------------------------

  predicate HandlerOwns(pc: Handler) {
    !pc.Entering?
  }

  predicate CloserOwns(pc: Closer) {
    pc.Marking? || pc.Releasing? || pc.Closing? || pc.Leaving?
  }

  ghost predicate MutexRight(s: State) {
    && (forall r :: r in s.handlers && HandlerOwns(s.handlers[r]) <==> s.sh.mu == ByHandler(r))
    && (forall c :: c in s.closers && CloserOwns(s.closers[c]) <==> s.sh.mu == ByCloser(c))
  }

  /** The order of shutdown: channel closed, then drained by the writer, then the store. */
  ghost predicate ShutdownOrder(s: State) {
    && s.sh.channelClosed == s.sh.closed && !s.sh.panicked
    && (s.writer.Stopped? ==> s.sh.closed && s.sh.channel == [])
    && (!s.sh.storeOpen ==> s.writer.Stopped?)
    && (forall c :: c in s.closers && s.closers[c].Closing? ==> s.writer.Stopped?)
    && (forall r :: r in s.handlers && r in s.sh.early ==> s.sh.storeOpen || s.handlers[r].Unlocking?)
  }

  function Count(b: bool): nat {
    if b then 1 else 0
  }

  predicate Waits(handlers: map<nat, Handler>, r: nat) {
    r in handlers && !handlers[r].Unlocking?
  }

  function Appended(sh: Shared, r: nat): nat {
    multiset(sh.saved)[r] + multiset(sh.lost)[r]
  }

  /** Places where record r is: with its handler, in the channel, in the writer's hands, or appended. */
  function Places(s: State, r: nat): nat {
    Count(Waits(s.handlers, r)) + multiset(s.sh.channel)[r] + Count(s.writer == Writing(r)) + Appended(s.sh, r)
  }

  ghost predicate OncePlaced(s: State) {
    forall r :: Places(s, r) == Count(r in s.submitted)
  }

  ghost predicate EarlySaved(s: State) {
    && (forall r :: r in s.sh.early ==> r in s.submitted && r !in s.sh.lost)
    && (forall r :: r in s.handlers ==> r in s.submitted && (s.handlers[r].Entering? ==> r !in s.sh.early))
  }

  ghost predicate Inv(s: State) {
    MutexRight(s) && ShutdownOrder(s) && OncePlaced(s) && EarlySaved(s)
  }

  lemma OwnersApart(s: State, r: nat, c: nat)
    requires MutexRight(s)
    ensures !(r in s.handlers && HandlerOwns(s.handlers[r]) && c in s.closers && CloserOwns(s.closers[c]))
  {
  }

  /** What a step of a handler or a closer does to the mutex and to its own claim on it. */
  lemma HandledMutex(sh: Shared, r: nat, pc: Handler)
    ensures var o := Handled(sh, r, pc); var owns := o.1.Some? && HandlerOwns(o.1.value);
            if pc.Entering? then o.0.mu == ByHandler(r) && owns
            else if pc.Unlocking? then o.0.mu == Nobody && !owns
            else o.0.mu == sh.mu && owns
  {
    AppendFrame(sh, r);
    hide Append;
  }

  lemma ClosedMutex(sh: Shared, c: nat, pc: Closer)
    ensures var o := Closed(sh, c, pc); var owns := o.1.Some? && CloserOwns(o.1.value);
            if pc.Requesting? || pc.Awaiting? then o.0.mu == ByCloser(c) && owns
            else if pc.Releasing? || pc.Leaving? then o.0.mu == Nobody && !owns
            else o.0.mu == sh.mu && owns
  {
  }

  lemma HandlersKeepMutex(s: State, ev: Event, r: nat)
    requires MutexRight(s) && Enabled(s, ev)
    ensures var n := Next(s, ev); r in n.handlers && HandlerOwns(n.handlers[r]) <==> n.sh.mu == ByHandler(r)
  {
    hide Append, Handled, Closed;
    if ev.Write? { AppendFrame(s.sh, s.writer.rec); }
    assert r in s.handlers && HandlerOwns(s.handlers[r]) <==> s.sh.mu == ByHandler(r);
    if ev.Handle? { HandledMutex(s.sh, ev.rec, s.handlers[ev.rec]); }
    if ev.Close? {
      ClosedMutex(s.sh, ev.closer, s.closers[ev.closer]);
      OwnersApart(s, r, ev.closer);
    }
  }

  lemma ClosersKeepMutex(s: State, ev: Event, c: nat)
    requires MutexRight(s) && Enabled(s, ev)
    ensures var n := Next(s, ev); c in n.closers && CloserOwns(n.closers[c]) <==> n.sh.mu == ByCloser(c)
  {
    hide Append, Handled, Closed;
    if ev.Write? { AppendFrame(s.sh, s.writer.rec); }
    assert c in s.closers && CloserOwns(s.closers[c]) <==> s.sh.mu == ByCloser(c);
    if ev.Close? { ClosedMutex(s.sh, ev.closer, s.closers[ev.closer]); }
    if ev.Handle? {
      HandledMutex(s.sh, ev.rec, s.handlers[ev.rec]);
      OwnersApart(s, ev.rec, c);
    }
  }

  lemma KeepsMutex(s: State, ev: Event)
    requires MutexRight(s) && Enabled(s, ev)
    ensures MutexRight(Next(s, ev))
  {
    hide Next, Enabled, HandlerOwns, CloserOwns;
    var n := Next(s, ev);
    forall r ensures r in n.handlers && HandlerOwns(n.handlers[r]) <==> n.sh.mu == ByHandler(r) {
      HandlersKeepMutex(s, ev, r);
    }
    forall c ensures c in n.closers && CloserOwns(n.closers[c]) <==> n.sh.mu == ByCloser(c) {
      ClosersKeepMutex(s, ev, c);
    }
  }

  lemma AppendFrame(sh: Shared, r: nat)
    ensures Append(sh, r) == sh.(saved := Append(sh, r).saved, lost := Append(sh, r).lost)
    ensures sh.storeOpen ==> Append(sh, r).lost == sh.lost
  {
  }

  lemma AppendCounts(sh: Shared, q: nat, r: nat)
    ensures Appended(Append(sh, q), r) == Appended(sh, r) + Count(q == r)
    ensures q != r ==> (r in Append(sh, q).lost <==> r in sh.lost)
  {
  }

  lemma KeepsOrder(s: State, ev: Event)
    requires Inv(s) && Enabled(s, ev)
    ensures ShutdownOrder(Next(s, ev))
  {
    hide Append, OncePlaced;
    AppendFrame(s.sh, if ev.Write? then s.writer.rec else if ev.Handle? then ev.rec else 0);
    var n := Next(s, ev);
    forall r | r in n.handlers && r in n.sh.early ensures n.sh.storeOpen || n.handlers[r].Unlocking? {
      if ev.Close? { OwnersApart(s, r, ev.closer); }
    }
  }

  lemma HandlePlaces(s: State, q: nat, r: nat)
    requires q in s.handlers
    ensures var o := Handled(s.sh, q, s.handlers[q]); var handlers := Moved(s.handlers, q, o.1);
            Count(Waits(handlers, r)) + multiset(o.0.channel)[r] + Appended(o.0, r)
            == Count(Waits(s.handlers, r)) + multiset(s.sh.channel)[r] + Appended(s.sh, r)
  {
    hide Append, Appended;
    AppendFrame(s.sh, q);
    AppendCounts(s.sh, q, r);
    var o := Handled(s.sh, q, s.handlers[q]);
    SameAppended(s.sh, o.0, r);
    hide Handled;
    MovedWaits(s.handlers, q, o.1, r);
  }

  lemma MovedWaits(handlers: map<nat, Handler>, q: nat, pc: Option<Handler>, r: nat)
    requires q in handlers
    ensures r != q ==> Waits(Moved(handlers, q, pc), r) == Waits(handlers, r)
    ensures Waits(Moved(handlers, q, pc), q) <==> pc.Some? && !pc.value.Unlocking?
  {
  }

  lemma SameAppended(a: Shared, b: Shared, r: nat)
    ensures a.saved == b.saved && a.lost == b.lost ==> Appended(a, r) == Appended(b, r)
  {
  }

  lemma ReceivePlaces(s: State, r: nat)
    requires Enabled(s, Receive)
    ensures Places(Next(s, Receive), r) == Places(s, r)
  {
    hide Appended;
    assert s.sh.channel == [s.sh.channel[0]] + s.sh.channel[1..];
    SameAppended(s.sh, Next(s, Receive).sh, r);
  }

  lemma WritePlaces(s: State, r: nat)
    requires Enabled(s, Write)
    ensures Places(Next(s, Write), r) == Places(s, r)
  {
    hide Append, Appended;
    AppendFrame(s.sh, s.writer.rec);
    AppendCounts(s.sh, s.writer.rec, r);
  }

  lemma StepPlaces(s: State, ev: Event, r: nat)
    requires Enabled(s, ev) && !ev.Enqueue?
    ensures Places(Next(s, ev), r) == Places(s, r)
  {
    hide Append, Appended, Handled;
    match ev
    case Receive => ReceivePlaces(s, r);
    case Write => WritePlaces(s, r);
    case Handle(q) => HandlePlaces(s, q, r);
    case Stop =>
    case Shutdown(c) =>
    case Close(c) => SameAppended(s.sh, Next(s, ev).sh, r);
  }

  lemma KeepsPlaces(s: State, ev: Event)
    requires Inv(s) && Enabled(s, ev)
    ensures OncePlaced(Next(s, ev))
  {
    hide MutexRight, ShutdownOrder, EarlySaved, Append, Handled, Closed;
    var n := Next(s, ev);
    forall r ensures Places(n, r) == Count(r in n.submitted) {
      assert Places(s, r) == Count(r in s.submitted);
      if !ev.Enqueue? { StepPlaces(s, ev, r); }
    }
  }

  lemma KeepsEarly(s: State, ev: Event)
    requires Inv(s) && Enabled(s, ev)
    ensures EarlySaved(Next(s, ev))
  {
    hide MutexRight, OncePlaced, Append;
    var n := Next(s, ev);
    var q := if ev.Write? then s.writer.rec else if ev.Handle? then ev.rec else 0;
    AppendFrame(s.sh, q);
    forall r | r in n.sh.early ensures r in n.submitted && r !in n.sh.lost {
      AppendCounts(s.sh, q, r);
      if r !in s.sh.early { NotLostYet(s, r); }
    }
    forall r | r in n.handlers
      ensures r in n.submitted && (n.handlers[r].Entering? ==> r !in n.sh.early)
    {
    }
  }

  /** A record still with its handler has not been appended. */
  lemma NotLostYet(s: State, r: nat)
    requires OncePlaced(s)
    ensures r in s.handlers && s.handlers[r].Entering? ==> r !in s.sh.lost
  {
    assert Places(s, r) == Count(r in s.submitted);
  }

  lemma StepKeepsInv(s: State, ev: Event)
    requires Inv(s) && Enabled(s, ev)
    ensures Inv(Next(s, ev))
  {
    hide Next, Enabled, MutexRight, ShutdownOrder, OncePlaced, EarlySaved;
    KeepsMutex(s, ev);
    KeepsOrder(s, ev);
    KeepsPlaces(s, ev);
    KeepsEarly(s, ev);
  }

  ghost predicate Run(capacity: nat, sts: seq<State>, evs: seq<Event>) {
    && |sts| == |evs| + 1 && sts[0] == Start(capacity)
    && forall i :: 0 <= i < |evs| ==> Enabled(sts[i], evs[i]) && sts[i + 1] == Next(sts[i], evs[i])
  }

  lemma {:induction false} RunKeepsInv(capacity: nat, sts: seq<State>, evs: seq<Event>, k: nat)
    requires Run(capacity, sts, evs) && k <= |evs|
    ensures Inv(sts[k])
    decreases k
  {
    if k > 0 {
      RunKeepsInv(capacity, sts, evs, k - 1);
      hide Next, Enabled, Inv;
      StepKeepsInv(sts[k - 1], evs[k - 1]);
    }
  }

  /** In every interleaving of handlers, writer and shutdowns: nothing is sent on the closed channel and
      it is closed at most once; a record is appended at most once, and exactly once when its handler is
      done and neither channel nor writer has it; and once the store is closed, the channel is drained
      and every record whose handler had locked before is saved, exactly once, by the open store. */
  lemma HandedOverOnce(capacity: nat, sts: seq<State>, evs: seq<Event>, k: nat, r: nat)
    requires Run(capacity, sts, evs) && k <= |evs|
    ensures var s := sts[k];
            && !s.sh.panicked
            && Appended(s.sh, r) <= 1
            && (r in s.submitted && !Waits(s.handlers, r) && r !in s.sh.channel && s.writer != Writing(r) ==>
                  Appended(s.sh, r) == 1)
            && (!s.sh.storeOpen ==> s.sh.channel == [] && s.writer.Stopped?)
            && (!s.sh.storeOpen && r in s.sh.early ==> multiset(s.sh.saved)[r] == 1)
            && (r in s.sh.early ==> r !in s.sh.lost)
  {
    RunKeepsInv(capacity, sts, evs, k);
    var s := sts[k];
    assert Places(s, r) == Count(r in s.submitted);
    assert r !in s.sh.channel ==> multiset(s.sh.channel)[r] == 0;
  }

  lemma {:induction false} EarlyStays(
    capacity: nat, sts: seq<State>, evs: seq<Event>, j: nat, k: nat, r: nat)
    requires Run(capacity, sts, evs) && j < k <= |evs|
    requires evs[j] == Handle(r) && r in sts[j].handlers && sts[j].handlers[r].Entering? && sts[j].sh.storeOpen
    ensures r in sts[k].sh.early
    decreases k
  {
    hide Next, Enabled;
    EarlyGrows(sts[k - 1], evs[k - 1]);
    if j + 1 < k { EarlyStays(capacity, sts, evs, j, k - 1, r); }
  }

  lemma EarlyGrows(s: State, ev: Event)
    requires Enabled(s, ev)
    ensures s.sh.early <= Next(s, ev).sh.early
    ensures ev.Handle? && s.handlers[ev.rec].Entering? && s.sh.storeOpen ==> ev.rec in Next(s, ev).sh.early
  {
  }

  /** A record whose handler locked auditMu at event j, before the store closed, reaches the open store: by the time
      the store is closed it has been appended there exactly once. */
  lemma LockedBeforeCloseIsSaved(
    capacity: nat, sts: seq<State>, evs: seq<Event>, j: nat, k: nat, r: nat)
    requires Run(capacity, sts, evs) && j < k <= |evs|
    requires evs[j] == Handle(r) && r in sts[j].handlers && sts[j].handlers[r].Entering? && sts[j].sh.storeOpen
    ensures r !in sts[k].sh.lost
    ensures !sts[k].sh.storeOpen ==> multiset(sts[k].sh.saved)[r] == 1
  {
    hide Next, Enabled;
    EarlyStays(capacity, sts, evs, j, k, r);
    HandedOverOnce(capacity, sts, evs, k, r);
  }

  // ---- Order ---------------------------------------------------------------------------------------

  /** The records sent on the channel in the first k events, in sending order. */
  function SentBy(sts: seq<State>, evs: seq<Event>, k: nat): seq<nat>
    requires k <= |evs| < |sts|
  {
    if k == 0 then [] else SentBy(sts, evs, k - 1) + SentAt(sts[k - 1], evs[k - 1])
  }

  /** A handler sends when it finds the channel open and with room. */
  function SentAt(s: State, ev: Event): seq<nat> {
    if ev.Handle? && ev.rec in s.handlers && s.handlers[ev.rec].Inside?
       && !s.sh.closed && |s.sh.channel| < s.sh.capacity
    then [ev.rec] else []
  }

  /** The records the writer appended, in order. */
  function WrittenBy(sts: seq<State>, evs: seq<Event>, k: nat): seq<nat>
    requires k <= |evs| < |sts|
  {
    if k == 0 then [] else WrittenBy(sts, evs, k - 1) + WrittenAt(sts[k - 1], evs[k - 1])
  }

  function WrittenAt(s: State, ev: Event): seq<nat> {
    if ev.Write? && s.writer.Writing? then [s.writer.rec] else []
  }

  /** The records given to AppendRPC, by the writer or by their own handlers, in order. */
  function AppendedBy(sts: seq<State>, evs: seq<Event>, k: nat): seq<nat>
    requires k <= |evs| < |sts|
  {
    if k == 0 then []
    else AppendedBy(sts, evs, k - 1) + WrittenAt(sts[k - 1], evs[k - 1]) + SelfAppendedAt(sts[k - 1], evs[k - 1])
  }

  function SelfAppendedAt(s: State, ev: Event): seq<nat> {
    if ev.Handle? && ev.rec in s.handlers && s.handlers[ev.rec].Appending? then [ev.rec] else []
  }

  function InHand(w: Writer): seq<nat> {
    if w.Writing? then [w.rec] else []
  }

  lemma StepFifo(s: State, ev: Event)
    requires Enabled(s, ev)
    ensures var n := Next(s, ev);
            InHand(s.writer) + s.sh.channel + SentAt(s, ev) == WrittenAt(s, ev) + InHand(n.writer) + n.sh.channel
  {
    hide Append, Handled, Closed, SentAt, WrittenAt;
    match ev
    case Handle(r) =>
      HandleSends(s, r);
      WritesOnly(s, ev);
      var before := InHand(s.writer);
      assert before + (s.sh.channel + SentAt(s, ev)) == before + s.sh.channel + SentAt(s, ev);
    case Receive =>
      SendsOnly(s, ev);
      WritesOnly(s, ev);
      assert s.sh.channel == [s.sh.channel[0]] + s.sh.channel[1..];
    case Write =>
      SendsOnly(s, ev);
      WritesOnly(s, ev);
      AppendFrame(s.sh, s.writer.rec);
    case Close(c) =>
      SendsOnly(s, ev);
      WritesOnly(s, ev);
      CloseFrame(s.sh, c, s.closers[c]);
    case _ =>
      SendsOnly(s, ev);
      WritesOnly(s, ev);
  }

  lemma SendsOnly(s: State, ev: Event)
    ensures !ev.Handle? ==> SentAt(s, ev) == []
  {
  }

  lemma WritesOnly(s: State, ev: Event)
    ensures WrittenAt(s, ev) == if ev.Write? then InHand(s.writer) else []
  {
  }

  /** A handler's step puts on the channel what it sends and appends what it appends. */
  lemma HandleSends(s: State, r: nat)
    requires r in s.handlers
    ensures var sh := Handled(s.sh, r, s.handlers[r]).0;
            && sh.channel == s.sh.channel + SentAt(s, Handle(r)) && sh.storeOpen == s.sh.storeOpen
            && sh.saved == s.sh.saved + (if s.sh.storeOpen then SelfAppendedAt(s, Handle(r)) else [])
            && sh.lost == s.sh.lost + (if s.sh.storeOpen then [] else SelfAppendedAt(s, Handle(r)))
  {
  }

  lemma CloseFrame(sh: Shared, c: nat, pc: Closer)
    ensures var n := Closed(sh, c, pc).0;
            n.channel == sh.channel && n.saved == sh.saved && n.lost == sh.lost && (n.storeOpen ==> sh.storeOpen)
  {
  }

  lemma StepAppends(s: State, ev: Event)
    requires Enabled(s, ev) && (s.sh.storeOpen ==> s.sh.lost == [])
    ensures var n := Next(s, ev);
            && n.sh.saved + n.sh.lost == s.sh.saved + s.sh.lost + WrittenAt(s, ev) + SelfAppendedAt(s, ev)
            && (n.sh.storeOpen ==> n.sh.lost == []) && (!s.sh.storeOpen ==> n.sh.saved == s.sh.saved && !n.sh.storeOpen)
  {
    hide Handled, Closed, SentAt;
    match ev
    case Handle(r) =>
      HandleSends(s, r);
      hide SelfAppendedAt;
    case Close(c) => CloseFrame(s.sh, c, s.closers[c]);
    case _ =>
  }

  /** Over every run the writer appends records in the order they were sent: those it has appended, the one in its
      hands and those in the channel are exactly the records sent, in sending order. And the store got the records
      in the order of the appends, those before it closed and then those after. */
  lemma {:induction false} FirstInFirstOut(capacity: nat, sts: seq<State>, evs: seq<Event>, k: nat)
    requires Run(capacity, sts, evs) && k <= |evs|
    ensures |evs| < |sts|
    ensures SentBy(sts, evs, k) == WrittenBy(sts, evs, k) + InHand(sts[k].writer) + sts[k].sh.channel
    ensures AppendedBy(sts, evs, k) == sts[k].sh.saved + sts[k].sh.lost
    ensures sts[k].sh.storeOpen ==> sts[k].sh.lost == []
    decreases k
  {
    hide Next, Enabled, SentAt, WrittenAt, SelfAppendedAt;
    if k > 0 {
      var j := k - 1;
      FirstInFirstOut(capacity, sts, evs, j);
      StepFifo(sts[j], evs[j]);
      StepAppends(sts[j], evs[j]);
      Regroup(WrittenBy(sts, evs, j), WrittenAt(sts[j], evs[j]), SentAt(sts[j], evs[j]),
              InHand(sts[j].writer), sts[j].sh.channel, InHand(sts[k].writer), sts[k].sh.channel);
    }
  }

  lemma Regroup(
    written: seq<nat>, more: seq<nat>, sent: seq<nat>, hand: seq<nat>, channel: seq<nat>, hand': seq<nat>,
    channel': seq<nat>)
    requires hand + channel + sent == more + hand' + channel'
    ensures (written + hand + channel) + sent == (written + more) + hand' + channel'
  {
    assert (written + hand + channel) + sent == written + (hand + channel + sent);
    assert (written + more) + hand' + channel' == written + (more + hand' + channel');
  }

  // ---- Shutdown -----------------------------------------------------------------------------------

  /** A closer past its marking has the channel closed, and past its closing the store. */
  ghost predicate ClosersRight(s: State) {
    forall c :: c in s.closers ==>
      && (!s.closers[c].Requesting? && !s.closers[c].Marking? ==> s.sh.closed)
      && (s.closers[c].Leaving? ==> !s.sh.storeOpen)
  }

  lemma KeepsClosersRight(s: State, ev: Event)
    requires ClosersRight(s) && Enabled(s, ev)
    ensures ClosersRight(Next(s, ev)) && (!s.sh.storeOpen ==> !Next(s, ev).sh.storeOpen)
    ensures s.sh.closed ==> Next(s, ev).sh.closed
  {
    hide Append;
    AppendFrame(s.sh, if ev.Write? then s.writer.rec else if ev.Handle? then ev.rec else 0);
  }

  lemma {:induction false} RunKeepsClosersRight(capacity: nat, sts: seq<State>, evs: seq<Event>, k: nat)
    requires Run(capacity, sts, evs) && k <= |evs|
    ensures ClosersRight(sts[k])
    decreases k
  {
    hide Next, Enabled;
    if k > 0 {
      RunKeepsClosersRight(capacity, sts, evs, k - 1);
      KeepsClosersRight(sts[k - 1], evs[k - 1]);
    }
  }

  /** Once a shutdown has returned, the store is closed and stays so. */
  lemma {:induction false} ShutdownCloses(capacity: nat, sts: seq<State>, evs: seq<Event>, j: nat, k: nat, c: nat)
    requires Run(capacity, sts, evs) && j < k <= |evs|
    requires evs[j] == Close(c) && c in sts[j].closers && c !in sts[j + 1].closers
    ensures !sts[k].sh.storeOpen && sts[k].sh.closed
    decreases k
  {
    hide Next, Enabled;
    RunKeepsClosersRight(capacity, sts, evs, k - 1);
    KeepsClosersRight(sts[k - 1], evs[k - 1]);
    if j + 1 < k {
      ShutdownCloses(capacity, sts, evs, j, k - 1, c);
    } else {
      ReturnsFromLeaving(sts[j], c);
    }
  }

  lemma ReturnsFromLeaving(s: State, c: nat)
    requires Enabled(s, Close(c)) && c !in Next(s, Close(c)).closers && ClosersRight(s)
    ensures !s.sh.storeOpen && s.sh.closed
  {
  }

  /** Steps a handler or a shutdown still has to take at most. */
  function HandlerSteps(pc: Handler): nat {
    match pc
    case Entering => 4
    case Inside => 3
    case Appending => 2
    case Unlocking => 1
  }

  function CloserSteps(pc: Closer): nat {
    match pc
    case Requesting => 6
    case Marking => 5
    case Releasing => 4
    case Awaiting => 3
    case Closing => 2
    case Leaving => 1
  }

  /** Nothing hangs: each step of a handler or a shutdown brings it nearer its end; one that cannot step waits for
      the mutex, whose holder can, or is a shutdown waiting for the writer, which can step too. */
  lemma EveryoneEnds(s: State)
    requires Inv(s) && ClosersRight(s)
    ensures forall r :: r in s.handlers && Enabled(s, Handle(r)) && r in Next(s, Handle(r)).handlers ==>
              HandlerSteps(Next(s, Handle(r)).handlers[r]) < HandlerSteps(s.handlers[r])
    ensures forall c :: c in s.closers && Enabled(s, Close(c)) && c in Next(s, Close(c)).closers ==>
              CloserSteps(Next(s, Close(c)).closers[c]) < CloserSteps(s.closers[c])
    ensures forall r :: r in s.handlers && !Enabled(s, Handle(r)) ==> HolderSteps(s)
    ensures forall c :: c in s.closers && !Enabled(s, Close(c)) ==> HolderSteps(s) || WriterSteps(s)
  {
    hide Append, OncePlaced, EarlySaved;
  }

  ghost predicate HolderSteps(s: State) {
    match s.sh.mu
    case ByHandler(r) => r in s.handlers && Enabled(s, Handle(r))
    case ByCloser(c) => c in s.closers && Enabled(s, Close(c))
    case Nobody => false
  }

  ghost predicate WriterSteps(s: State) {
    Enabled(s, Receive) || Enabled(s, Write) || Enabled(s, Stop)
  }
}
