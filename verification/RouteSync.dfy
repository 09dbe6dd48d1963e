/** The route protocol of one tab: calls change the rules and then synchronise CDP under a mutex, while
    target removal clears the tab without that mutex and beats them by a generation counter. Threads
    interleave at every lock boundary and every read of the generation. */
module RouteSync {
  import opened Bytes
  import opened Wildcard

  /** A call changes the rules in one of three ways. */
  datatype Op = SetRules(rules: seq<Rule>) | AppendRule(rule: Rule) | RemoveRules(pattern: Str)

  /** The rules without those of exactly this pattern. */
  function Without(rules: seq<Rule>, pat: Str): (r: seq<Rule>)
    ensures forall x :: x in r <==> x in rules && x.urlPattern != pat
  {
    if rules == [] then []
    else (if rules[0].urlPattern != pat then [rules[0]] else []) + Without(rules[1..], pat)
  }

  function Change(rules: seq<Rule>, op: Op): seq<Rule> {
    match op
    case SetRules(rs) => rs
    case AppendRule(r) => rules + [r]
    case RemoveRules(p) => if TrimSpace(p) == [] then [] else Without(rules, TrimSpace(p))
  }

  predicate NonBlank(rules: seq<Rule>) {
    forall r :: r in rules ==> TrimSpace(r.urlPattern) != []
  }

  /** Patterns that reach CDP: each rule's trimmed pattern, blank ones skipped. */
  function RoutePatterns(rules: seq<Rule>): seq<Str> {
    if rules == [] then []
    else
      var p := TrimSpace(rules[0].urlPattern);
      (if p == [] then [] else [p]) + RoutePatterns(rules[1..])
  }

  lemma {:induction false} PatternPerRule(rules: seq<Rule>)
    requires NonBlank(rules)
    ensures var ps := RoutePatterns(rules);
            |ps| == |rules| && forall i :: 0 <= i < |ps| ==> ps[i] == TrimSpace(rules[i].urlPattern)
  {
    if rules != [] {
      assert rules[0] in rules;
      PatternPerRule(rules[1..]);
    }
  }

  /** The Fetch domain of the tab as the browser has it. */
  datatype Fetch = Off | On(patterns: seq<Str>)

  function Wanted(rules: seq<Rule>): Fetch {
    if rules == [] then Off else On(RoutePatterns(rules))
  }

  /** `stop` is listenCancel; `born` is the generation under which the worker was made. */
  datatype Worker = Worker(born: nat, cancelled: bool, listening: bool, stop: Option<nat>, loop: Loop)

  /** The worker goroutine: on cancellation it stops listening in two steps. */
  datatype Loop = Looping | Exiting(taken: Option<nat>) | Exited

  datatype Listener = Listener(worker: nat, attached: bool, cancelled: bool)

  datatype Pc =
    // a route call: rules changed; cdpMu held; snapshot taken
    | Changed
    | Holding
    | Snapped(rules: seq<Rule>, gen: nat)
    // no rules: fetch disabled; worker found and about to stop listening
    | FetchOff(gen: nat)
    | StopOff(gen: nat, w: nat)
    // rules: worker ensured; first generation check passed
    | Ensured(rules: seq<Rule>, gen: nat, w: nat)
    | Checked(rules: seq<Rule>, gen: nat, w: nat)
    // it was listening already
    | Rejoining(rules: seq<Rule>, gen: nat, w: nat)
    // listener context made; second check passed; listener attached
    | Armed(rules: seq<Rule>, gen: nat, w: nat, l: nat)
    | Attaching(rules: seq<Rule>, gen: nat, w: nat, l: nat)
    | Attached(rules: seq<Rule>, gen: nat, w: nat, l: nat)
    // a check failed: about to stop listening; stop taken, about to be called
    | Abort(gen: nat, w: nat)
    | Cancelling(gen: nat, taken: Option<nat>)
    // startListening returned true; about to unlock
    | Started(rules: seq<Rule>, gen: nat)
    | Finishing
    // target removal, after it bumped the generation and unmapped worker w
    | ClearStop(w: nat)
    | ClearCancelling(w: nat, taken: Option<nat>)
    | ClearKill(w: nat)

  /** What the threads share: the rule, worker and generation entries of the tab, the browser's Fetch
      domain, and the holder of cdpMu. */
  datatype Shared = Shared(
    rules: seq<Rule>, gen: nat, mapped: Option<nat>, workers: seq<Worker>, listeners: seq<Listener>,
    fetch: Fetch, mu: Option<nat>)

  datatype State = State(sh: Shared, threads: map<nat, Pc>)

  const Init := State(Shared([], 0, None, [], [], Off, None), map[])

  /** A step of a thread: the shared state after it and where the thread is then, if it goes on. */
  datatype Outcome = Outcome(sh: Shared, pc: Option<Pc>)

  datatype Event =
    | Call(thread: nat, op: Op)
    | Clear(thread: nat)
    | Step(thread: nat)
    | LoopStep(worker: nat)

  predicate Enabled(s: State, ev: Event) {
    match ev
    case Call(t, op) => t !in s.threads && NonBlank(Change([], op))
    case Clear(t) => t !in s.threads
    case Step(t) => t in s.threads && (s.threads[t].Changed? ==> s.sh.mu.None?)
    case LoopStep(w) => w < |s.sh.workers| && s.sh.workers[w].cancelled && !s.sh.workers[w].loop.Exited?
  }

  function StopOf(sh: Shared, w: nat): Option<nat> {
    if w < |sh.workers| then sh.workers[w].stop else None
  }

  /** First half of stopListening: take the cancel function under the worker's lock. */
  function TakeStop(sh: Shared, w: nat): Shared {
    if w < |sh.workers| then sh.(workers := sh.workers[w := sh.workers[w].(stop := None, listening := false)])
    else sh
  }

  /** Second half: call it. */
  function CallStop(sh: Shared, taken: Option<nat>): Shared {
    if taken.Some? && taken.value < |sh.listeners| then
      sh.(listeners := sh.listeners[taken.value := sh.listeners[taken.value].(cancelled := true)])
    else sh
  }

  function MarkAttached(sh: Shared, l: nat): Shared {
    if l < |sh.listeners| then sh.(listeners := sh.listeners[l := sh.listeners[l].(attached := true)]) else sh
  }

  function Kill(sh: Shared, w: nat): Shared {
    if w < |sh.workers| then sh.(workers := sh.workers[w := sh.workers[w].(cancelled := true)]) else sh
  }

  /** ensureWorker under rs.mu. */
  function EnsureWorker(sh: Shared, rules: seq<Rule>, gen: nat): Outcome {
    if sh.gen != gen || sh.rules == [] then Outcome(sh, Some(Finishing))
    else if sh.mapped.Some? then Outcome(sh, Some(Ensured(rules, gen, sh.mapped.value)))
    else
      var w := |sh.workers|;
      Outcome(sh.(workers := sh.workers + [Worker(sh.gen, false, false, None, Looping)], mapped := Some(w)),
              Some(Ensured(rules, gen, w)))
  }

  /** The section of startListening under the worker's lock. */
  function Arm(sh: Shared, rules: seq<Rule>, gen: nat, w: nat): Outcome {
    if w >= |sh.workers| || sh.workers[w].listening then Outcome(sh, Some(Rejoining(rules, gen, w)))
    else
      var l := |sh.listeners|;
      Outcome(sh.(listeners := sh.listeners + [Listener(w, false, false)],
                  workers := sh.workers[w := sh.workers[w].(stop := Some(l), listening := true)]),
              Some(Armed(rules, gen, w, l)))
  }

  function Advance(sh: Shared, t: nat, pc: Pc): Outcome {
    match pc
    case Changed => Outcome(sh.(mu := Some(t)), Some(Holding))
    case Holding => Outcome(sh, Some(Snapped(sh.rules, sh.gen)))
    case Snapped(rules, gen) =>
      if rules == [] then Outcome(sh.(fetch := Off), Some(FetchOff(gen))) else EnsureWorker(sh, rules, gen)
    case FetchOff(gen) => Outcome(sh, Some(if sh.mapped.Some? then StopOff(gen, sh.mapped.value) else Finishing))
    case StopOff(gen, w) => Outcome(TakeStop(sh, w), Some(Cancelling(gen, StopOf(sh, w))))
    case Ensured(rules, gen, w) => Outcome(sh, Some(if sh.gen == gen then Checked(rules, gen, w) else Finishing))
    case Checked(rules, gen, w) => Arm(sh, rules, gen, w)
    case Rejoining(rules, gen, w) => Outcome(sh, Some(if sh.gen == gen then Started(rules, gen) else Abort(gen, w)))
    case Armed(rules, gen, w, l) =>
      Outcome(sh, Some(if sh.gen == gen then Attaching(rules, gen, w, l) else Abort(gen, w)))
    case Attaching(rules, gen, w, l) => Outcome(MarkAttached(sh, l), Some(Attached(rules, gen, w, l)))
    case Attached(rules, gen, w, l) => Outcome(sh, Some(if sh.gen == gen then Started(rules, gen) else Abort(gen, w)))
    case Abort(gen, w) => Outcome(TakeStop(sh, w), Some(Cancelling(gen, StopOf(sh, w))))
    case Cancelling(gen, taken) => Outcome(CallStop(sh, taken), Some(Finishing))
    case Started(rules, gen) =>
      Outcome(if RoutePatterns(rules) == [] then sh else sh.(fetch := On(RoutePatterns(rules))), Some(Finishing))
    case Finishing => Outcome(sh.(mu := None), None)
    case ClearStop(w) => Outcome(TakeStop(sh, w), Some(ClearCancelling(w, StopOf(sh, w))))
    case ClearCancelling(w, taken) => Outcome(CallStop(sh, taken), Some(ClearKill(w)))
    case ClearKill(w) => Outcome(Kill(sh, w), None)
  }

  /** ClearRoutesForTarget under rs.mu: no rules, a new generation, no worker. */
  function Unmap(sh: Shared): Outcome {
    Outcome(sh.(rules := [], gen := sh.gen + 1, mapped := None),
            if sh.mapped.Some? then Some(ClearStop(sh.mapped.value)) else None)
  }

  function LoopAct(sh: Shared, w: nat): Shared
    requires w < |sh.workers|
  {
    var wk := sh.workers[w];
    if wk.loop.Exiting? then
      CallStop(sh.(workers := sh.workers[w := wk.(loop := Exited)]), wk.loop.taken)
    else sh.(workers := sh.workers[w := wk.(loop := Exiting(wk.stop), stop := None, listening := false)])
  }

  function Effect(s: State, ev: Event): Outcome
    requires Enabled(s, ev) && !ev.LoopStep?
  {
    match ev
    case Call(t, op) => Outcome(s.sh.(rules := Change(s.sh.rules, op)), Some(Changed))
    case Clear(t) => Unmap(s.sh)
    case Step(t) => Advance(s.sh, t, s.threads[t])
  }

  function Next(s: State, ev: Event): State
    requires Enabled(s, ev)
  {
    if ev.LoopStep? then s.(sh := LoopAct(s.sh, ev.worker))
    else
      var o := Effect(s, ev);
      State(o.sh, if o.pc.Some? then s.threads[ev.thread := o.pc.value] else s.threads - {ev.thread})
  }

  // ---- Invariants ---------------------------------------------------------------

  predicate Clearing(pc: Pc) {
    pc.ClearStop? || pc.ClearCancelling? || pc.ClearKill?
  }

  predicate InLock(pc: Pc) {
    !pc.Changed? && !Clearing(pc)
  }

  /** The pc of a call that works on a worker under the generation it snapshotted. */
  predicate OnWorker(pc: Pc) {
    || pc.StopOff? || pc.Ensured? || pc.Checked? || pc.Rejoining?
    || pc.Armed? || pc.Attaching? || pc.Attached? || pc.Abort?
  }

  predicate OnListener(pc: Pc) {
    pc.Armed? || pc.Attaching? || pc.Attached?
  }

  predicate HasGen(pc: Pc) {
    InLock(pc) && !pc.Holding? && !pc.Finishing?
  }

  predicate HasRules(pc: Pc) {
    pc.Snapped? || pc.Ensured? || pc.Checked? || pc.Rejoining? || OnListener(pc) || pc.Started?
  }

  function Taken(pc: Pc): Option<nat> {
    match pc
    case Cancelling(_, taken) => taken
    case ClearCancelling(_, taken) => taken
    case _ => None
  }

  /** cdpMu is held by exactly the call inside its critical section. */
  ghost predicate MutexRight(s: State) {
    forall t :: t in s.threads && InLock(s.threads[t]) <==> s.sh.mu == Some(t)
  }

  /** Workers and listeners refer to each other, and pcs to both. */
  ghost predicate LinksRight(s: State) {
    && SharedLinks(s.sh)
    && forall t :: t in s.threads ==> PcLinks(s.sh, s.threads[t])
  }

  ghost predicate SharedLinks(sh: Shared) {
    && (sh.mapped.Some? ==> sh.mapped.value < |sh.workers|)
    && (forall w :: 0 <= w < |sh.workers| ==> WorkerLinks(sh, w))
    && (forall l :: 0 <= l < |sh.listeners| ==> sh.listeners[l].worker < |sh.workers|)
  }

  ghost predicate WorkerLinks(sh: Shared, w: nat)
    requires w < |sh.workers|
  {
    var wk := sh.workers[w];
    && (wk.listening <==> wk.stop.Some?)
    && (wk.stop.Some? ==> StopLinks(sh, w, wk.stop.value))
    && (!wk.loop.Looping? ==> wk.cancelled)
    && (wk.loop.Exiting? ==> TakenLinks(sh, wk.loop.taken))
    && (wk.loop.Exiting? && wk.loop.taken.Some? ==> sh.listeners[wk.loop.taken.value].worker == w)
  }

  ghost predicate StopLinks(sh: Shared, w: nat, l: nat) {
    l < |sh.listeners| && sh.listeners[l].worker == w && !sh.listeners[l].cancelled
  }

  /** A taken listener is no worker's any more. */
  ghost predicate TakenLinks(sh: Shared, taken: Option<nat>) {
    taken.Some? ==>
      && taken.value < |sh.listeners| && sh.listeners[taken.value].worker < |sh.workers|
      && sh.workers[sh.listeners[taken.value].worker].stop != taken
  }

  ghost predicate PcLinks(sh: Shared, pc: Pc) {
    && (OnWorker(pc) ==> pc.w < |sh.workers| && sh.workers[pc.w].born == pc.gen)
    && (Clearing(pc) ==> pc.w < |sh.workers| && sh.workers[pc.w].born < sh.gen)
    && (OnListener(pc) ==> pc.l < |sh.listeners| && sh.listeners[pc.l].worker == pc.w)
    && TakenLinks(sh, Taken(pc))
    && (pc.Cancelling? && pc.taken.Some? ==> sh.workers[sh.listeners[pc.taken.value].worker].born == pc.gen)
    && (HasGen(pc) ==> pc.gen <= sh.gen)
    && (HasRules(pc) ==> NonBlank(pc.rules))
    && (HasRules(pc) && !pc.Snapped? ==> pc.rules != [])
  }

  /** Only the mapped worker is of the current generation, and it is alive. */
  ghost predicate GenerationsRight(sh: Shared) {
    forall w :: 0 <= w < |sh.workers| ==>
      if sh.mapped == Some(w) then sh.workers[w].born == sh.gen && !sh.workers[w].cancelled
      else sh.workers[w].born < sh.gen
  }

  /** While a call is past its snapshot, a worker is mapped only if no removal came since: making one
      needs the mutex the call holds. */
  ghost predicate MappedFresh(s: State) {
    forall t :: t in s.threads ==> PcFresh(s.sh, s.threads[t])
  }

  predicate PcFresh(sh: Shared, pc: Pc) {
    HasGen(pc) && sh.mapped.Some? ==> pc.gen == sh.gen
  }

  /** The removal that unmapped w is about to cancel it. */
  ghost predicate Dies(s: State, w: nat) {
    exists t :: t in s.threads && Clearing(s.threads[t]) && s.threads[t].w == w
  }

  /** An unmapped worker is cancelled, or the removal that unmapped it is about to do so. */
  ghost predicate UnmappedDie(s: State) {
    forall w :: 0 <= w < |s.sh.workers| && s.sh.mapped != Some(w) ==> s.sh.workers[w].cancelled || Dies(s, w)
  }

  /** An unmapped worker that still listens has someone about to stop it. */
  ghost predicate UnmappedStop(s: State) {
    forall w :: 0 <= w < |s.sh.workers| && s.sh.mapped != Some(w) && s.sh.workers[w].listening ==>
      exists t :: t in s.threads && Stops(s.threads[t], w)
  }

  predicate Stops(pc: Pc, w: nat) {
    pc == ClearStop(w) || ((pc.Armed? || pc.Abort?) && pc.w == w)
  }

  /** A live listener can still be reached: its worker has the cancel function, or someone took it. */
  ghost predicate Reachable(s: State) {
    forall l :: 0 <= l < |s.sh.listeners| && !s.sh.listeners[l].cancelled ==> Reached(s, l)
  }

  ghost predicate Reached(s: State, l: nat)
    requires l < |s.sh.listeners|
  {
    var w := s.sh.listeners[l].worker;
    || (w < |s.sh.workers| && s.sh.workers[w].stop == Some(l))
    || (w < |s.sh.workers| && s.sh.workers[w].loop == Exiting(Some(l)))
    || exists t :: t in s.threads && Taken(s.threads[t]) == Some(l)
  }

  ghost predicate Inv(s: State) {
    && NonBlank(s.sh.rules) && MutexRight(s) && LinksRight(s) && GenerationsRight(s.sh) && MappedFresh(s)
    && UnmappedDie(s) && UnmappedStop(s) && Reachable(s)
  }

  // ---- Every step keeps them -------------------------------------------------------

  /** What any step may do to workers and listeners: make new ones, cancel, take and attach; a worker
      only ever gets the cancel function of a listener made in that step. */
  ghost predicate Evolves(a: Shared, b: Shared) {
    && a.gen <= b.gen && |a.workers| <= |b.workers| && |a.listeners| <= |b.listeners|
    && (forall w :: 0 <= w < |a.workers| ==> WorkerEvolves(a, b, w))
    && (forall l :: 0 <= l < |a.listeners| ==> b.listeners[l].worker == a.listeners[l].worker)
  }

  ghost predicate WorkerEvolves(a: Shared, b: Shared, w: nat)
    requires w < |a.workers| <= |b.workers|
  {
    && b.workers[w].born == a.workers[w].born
    && (b.workers[w].stop == a.workers[w].stop || b.workers[w].stop.None? || b.workers[w].stop.value >= |a.listeners|)
  }

  lemma AdvanceEvolves(sh: Shared, t: nat, pc: Pc)
    ensures Evolves(sh, Advance(sh, t, pc).sh)
  {
    hide RoutePatterns;
  }

  lemma NextEvolves(s: State, ev: Event)
    requires Enabled(s, ev)
    ensures Evolves(s.sh, Next(s, ev).sh)
  {
    hide NonBlank, Change, Advance;
    if ev.Step? { AdvanceEvolves(s.sh, ev.thread, s.threads[ev.thread]); }
  }

  lemma PcLinksEvolve(a: Shared, b: Shared, pc: Pc)
    requires Evolves(a, b) && PcLinks(a, pc)
    ensures PcLinks(b, pc)
  {
    hide NonBlank;
    var taken := Taken(pc);
    if taken.Some? { assert WorkerEvolves(a, b, a.listeners[taken.value].worker); }
    if OnWorker(pc) || Clearing(pc) { assert WorkerEvolves(a, b, pc.w); }
  }

  lemma EmptyNonBlank()
    ensures NonBlank([])
  {
  }

  lemma ChangeNonBlank(rules: seq<Rule>, op: Op)
    requires NonBlank(rules) && NonBlank(Change([], op))
    ensures NonBlank(Change(rules, op))
  {
    if op.AppendRule? { assert Change([], op) == [op.rule]; assert op.rule in Change([], op); }
  }

  lemma KeepsNonBlank(s: State, ev: Event)
    requires NonBlank(s.sh.rules) && Enabled(s, ev)
    ensures NonBlank(Next(s, ev).sh.rules)
  {
    hide NonBlank, RoutePatterns, Change;
    EmptyNonBlank();
    if ev.Call? { ChangeNonBlank(s.sh.rules, ev.op); }
  }

  lemma KeepsMutex(s: State, ev: Event)
    requires MutexRight(s) && Enabled(s, ev)
    ensures MutexRight(Next(s, ev))
  {
    hide RoutePatterns, Change, NonBlank;
    var n := Next(s, ev);
    forall t ensures t in n.threads && InLock(n.threads[t]) <==> n.sh.mu == Some(t) {
      assert t in s.threads && InLock(s.threads[t]) <==> s.sh.mu == Some(t);
    }
  }

  lemma AdvanceGenerations(sh: Shared, t: nat, pc: Pc)
    requires GenerationsRight(sh) && PcLinks(sh, pc)
    ensures GenerationsRight(Advance(sh, t, pc).sh)
  {
    hide RoutePatterns, NonBlank;
    var n := Advance(sh, t, pc).sh;
    forall w | 0 <= w < |n.workers|
      ensures if n.mapped == Some(w) then n.workers[w].born == n.gen && !n.workers[w].cancelled
              else n.workers[w].born < n.gen
    {
    }
  }

  lemma KeepsGenerations(s: State, ev: Event)
    requires Inv(s) && Enabled(s, ev)
    ensures GenerationsRight(Next(s, ev).sh)
  {
    hide NonBlank, Change, Advance, Reachable, UnmappedStop, UnmappedDie, MutexRight, PcLinks;
    if ev.Step? { AdvanceGenerations(s.sh, ev.thread, s.threads[ev.thread]); }
  }

  /** A worker, if not new, changes only by being cancelled, armed or stopped; listeners keep their worker. */
  lemma AdvanceWorker(sh: Shared, t: nat, pc: Pc, w: nat)
    requires (OnListener(pc) ==> pc.l < |sh.listeners|) && w < |Advance(sh, t, pc).sh.workers|
    ensures var n := Advance(sh, t, pc).sh; var wk := n.workers[w];
            if w >= |sh.workers| then !wk.listening && wk.stop.None? && wk.loop.Looping?
            else
              && wk.loop == sh.workers[w].loop && (sh.workers[w].cancelled ==> wk.cancelled)
              && ((wk.listening == sh.workers[w].listening && wk.stop == sh.workers[w].stop)
                  || (!wk.listening && wk.stop.None?)
                  || (wk.listening && wk.stop == Some(|sh.listeners|) && |n.listeners| == |sh.listeners| + 1
                      && n.listeners[|sh.listeners|] == Listener(w, false, false)))
  {
    hide RoutePatterns, NonBlank;
  }

  /** Only a taken cancel function is ever called. */
  lemma AdvanceListener(sh: Shared, t: nat, pc: Pc, l: nat)
    requires l < |sh.listeners|
    ensures var n := Advance(sh, t, pc).sh;
            && l < |n.listeners| && n.listeners[l].worker == sh.listeners[l].worker
            && (Taken(pc) != Some(l) ==> n.listeners[l].cancelled == sh.listeners[l].cancelled)
  {
    hide RoutePatterns, NonBlank;
  }

  lemma AdvanceWorkerLinks(sh: Shared, t: nat, pc: Pc, w: nat)
    requires SharedLinks(sh) && PcLinks(sh, pc) && w < |Advance(sh, t, pc).sh.workers|
    ensures WorkerLinks(Advance(sh, t, pc).sh, w)
  {
    hide Advance, NonBlank;
    AdvanceWorker(sh, t, pc, w);
    AdvanceEvolves(sh, t, pc);
    var n := Advance(sh, t, pc).sh;
    if w < |sh.workers| {
      var wk := sh.workers[w];
      assert WorkerLinks(sh, w) && WorkerEvolves(sh, n, w);
      if wk.stop.Some? { AdvanceListener(sh, t, pc, wk.stop.value); }
      if wk.loop.Exiting? && wk.loop.taken.Some? {
        assert WorkerEvolves(sh, n, sh.listeners[wk.loop.taken.value].worker);
        AdvanceListener(sh, t, pc, wk.loop.taken.value);
      }
    }
  }

  lemma AdvanceLinks(sh: Shared, t: nat, pc: Pc)
    requires SharedLinks(sh) && PcLinks(sh, pc)
    ensures SharedLinks(Advance(sh, t, pc).sh)
  {
    var n := Advance(sh, t, pc).sh;
    forall w | 0 <= w < |n.workers| ensures WorkerLinks(n, w) { AdvanceWorkerLinks(sh, t, pc, w); }
    hide RoutePatterns, NonBlank, WorkerLinks;
  }

  lemma TakeStopLinks(sh: Shared, w: nat)
    requires SharedLinks(sh) && w < |sh.workers|
    ensures var n, taken := TakeStop(sh, w), StopOf(sh, w);
            TakenLinks(n, taken) && (taken.Some? ==> n.listeners[taken.value].worker == w)
  {
    assert WorkerLinks(sh, w);
  }

  predicate Takes(pc: Pc) {
    pc.StopOff? || pc.Abort? || pc.ClearStop?
  }

  predicate Makes(pc: Pc) {
    pc.Snapped? || pc.Checked? || pc.Attaching?
  }

  lemma TakingPc(sh: Shared, t: nat, pc: Pc)
    requires Takes(pc) && SharedLinks(sh) && PcLinks(sh, pc)
    ensures var o := Advance(sh, t, pc); o.pc.Some? && PcLinks(o.sh, o.pc.value)
  {
    hide RoutePatterns, NonBlank, SharedLinks, TakenLinks;
    TakeStopLinks(sh, pc.w);
  }

  lemma MakingPc(sh: Shared, t: nat, pc: Pc)
    requires Makes(pc) && SharedLinks(sh) && PcLinks(sh, pc) && GenerationsRight(sh)
    ensures var o := Advance(sh, t, pc); o.pc.Some? && PcLinks(o.sh, o.pc.value)
  {
    hide RoutePatterns, NonBlank, WorkerLinks, TakenLinks;
    NothingTaken(Advance(sh, t, pc).sh);
  }

  lemma MovingPc(sh: Shared, t: nat, pc: Pc)
    requires !Takes(pc) && !Makes(pc) && SharedLinks(sh) && PcLinks(sh, pc) && PcFresh(sh, pc)
    requires GenerationsRight(sh) && NonBlank(sh.rules)
    ensures var o := Advance(sh, t, pc); o.pc.Some? ==> PcLinks(o.sh, o.pc.value)
  {
    hide RoutePatterns, NonBlank, WorkerLinks, TakenLinks, EnsureWorker, Arm, TakeStop, MarkAttached;
    NothingTaken(Advance(sh, t, pc).sh);
  }

  lemma AdvancePc(sh: Shared, t: nat, pc: Pc)
    requires SharedLinks(sh) && PcLinks(sh, pc) && PcFresh(sh, pc)
    requires GenerationsRight(sh) && NonBlank(sh.rules)
    ensures var o := Advance(sh, t, pc); o.pc.Some? ==> PcLinks(o.sh, o.pc.value)
  {
    hide Advance, NonBlank, SharedLinks, PcLinks, GenerationsRight;
    if Takes(pc) { TakingPc(sh, t, pc); } else if Makes(pc) { MakingPc(sh, t, pc); } else { MovingPc(sh, t, pc); }
  }

  lemma NothingTaken(sh: Shared)
    ensures TakenLinks(sh, None)
  {
  }

  lemma LoopLinks(sh: Shared, w: nat)
    requires SharedLinks(sh) && w < |sh.workers| && sh.workers[w].cancelled && !sh.workers[w].loop.Exited?
    ensures SharedLinks(LoopAct(sh, w))
  {
    var n := LoopAct(sh, w);
    assert WorkerLinks(sh, w);
    forall v | 0 <= v < |n.workers| ensures WorkerLinks(n, v) { assert WorkerLinks(sh, v); }
  }

  lemma KeepsSharedLinks(s: State, ev: Event)
    requires Inv(s) && Enabled(s, ev)
    ensures SharedLinks(Next(s, ev).sh)
  {
    hide NonBlank, Change, Advance, LoopAct, Reachable, UnmappedStop, UnmappedDie, MutexRight, GenerationsRight,
         SharedLinks;
    match ev
    case Step(t) => AdvanceLinks(s.sh, t, s.threads[t]);
    case LoopStep(w) => LoopLinks(s.sh, w);
    case Call(_, op) => SameLinks(s.sh, s.sh.(rules := Change(s.sh.rules, op)));
    case Clear(_) => SameLinks(s.sh, Unmap(s.sh).sh);
  }

  lemma SameLinks(a: Shared, b: Shared)
    requires SharedLinks(a) && a.workers == b.workers && a.listeners == b.listeners
    requires b.mapped == a.mapped || b.mapped.None?
    ensures SharedLinks(b)
  {
    forall w | 0 <= w < |b.workers| ensures WorkerLinks(b, w) { assert WorkerLinks(a, w); }
  }

  lemma KeepsOwnLinks(s: State, ev: Event)
    requires Inv(s) && Enabled(s, ev) && !ev.LoopStep?
    ensures var o := Effect(s, ev); o.pc.Some? ==> PcLinks(o.sh, o.pc.value)
  {
    hide NonBlank, Change, Advance, Reachable, UnmappedStop, UnmappedDie, MutexRight;
    if ev.Step? {
      assert PcFresh(s.sh, s.threads[ev.thread]);
      AdvancePc(s.sh, ev.thread, s.threads[ev.thread]);
    }
  }

  lemma KeepsLinks(s: State, ev: Event)
    requires Inv(s) && Enabled(s, ev)
    ensures LinksRight(Next(s, ev))
  {
    hide NonBlank, Change, Effect, LoopAct, PcLinks, SharedLinks, Evolves;
    hide Reachable, UnmappedStop, UnmappedDie, MutexRight, GenerationsRight;
    var n := Next(s, ev);
    KeepsSharedLinks(s, ev);
    NextEvolves(s, ev);
    if !ev.LoopStep? { KeepsOwnLinks(s, ev); }
    forall t | t in n.threads ensures PcLinks(n.sh, n.threads[t]) {
      if ev.LoopStep? || t != ev.thread { PcLinksEvolve(s.sh, n.sh, s.threads[t]); }
    }
  }

  lemma KeepsMappedFresh(s: State, ev: Event)
    requires Inv(s) && Enabled(s, ev)
    ensures MappedFresh(Next(s, ev))
  {
    hide RoutePatterns, Change, NonBlank, Reachable, UnmappedStop, UnmappedDie, LinksRight, GenerationsRight;
    var n := Next(s, ev);
    forall t | t in n.threads ensures PcFresh(n.sh, n.threads[t]) {
      if t in s.threads { assert PcFresh(s.sh, s.threads[t]); }
      if ev.Step? { assert PcFresh(s.sh, s.threads[ev.thread]); }
    }
  }

  /** An unmapped worker stays cancelled, and its remover goes on until it has cancelled it. */
  lemma DyingAdvances(sh: Shared, t: nat, pc: Pc, w: nat)
    requires w < |sh.workers|
    ensures var o := Advance(sh, t, pc);
            && w < |o.sh.workers| && (sh.workers[w].cancelled ==> o.sh.workers[w].cancelled)
            && (Clearing(pc) && pc.w == w ==>
                  o.sh.workers[w].cancelled || (o.pc.Some? && Clearing(o.pc.value) && o.pc.value.w == w))
  {
    hide RoutePatterns, NonBlank;
  }

  lemma NewIsMapped(sh: Shared, t: nat, pc: Pc)
    ensures var n := Advance(sh, t, pc).sh;
            && (|n.workers| > |sh.workers| ==> n.mapped == Some(|sh.workers|) && |n.workers| == |sh.workers| + 1)
            && (n.mapped == sh.mapped || sh.mapped.None?)
  {
    hide RoutePatterns, NonBlank;
  }

  lemma DyingGoesOn(s: State, ev: Event, w: nat)
    requires Enabled(s, ev) && w < |s.sh.workers| && Dies(s, w)
    ensures w < |Next(s, ev).sh.workers| && (Next(s, ev).sh.workers[w].cancelled || Dies(Next(s, ev), w))
  {
    hide Advance, Change, NonBlank;
    var n := Next(s, ev);
    var t :| t in s.threads && Clearing(s.threads[t]) && s.threads[t].w == w;
    if ev.Step? { DyingAdvances(s.sh, ev.thread, s.threads[ev.thread], w); }
    assert !n.sh.workers[w].cancelled ==> t in n.threads && Clearing(n.threads[t]) && n.threads[t].w == w;
  }

  lemma CancelledStays(s: State, ev: Event, w: nat)
    requires Enabled(s, ev) && w < |s.sh.workers| && s.sh.workers[w].cancelled
    ensures w < |Next(s, ev).sh.workers| && Next(s, ev).sh.workers[w].cancelled
  {
    hide Advance, Change, NonBlank;
    if ev.Step? { DyingAdvances(s.sh, ev.thread, s.threads[ev.thread], w); }
  }

  lemma UnmappingDies(s: State, ev: Event, w: nat)
    requires Enabled(s, ev) && w < |Next(s, ev).sh.workers| && Next(s, ev).sh.mapped != Some(w)
    requires w >= |s.sh.workers| || s.sh.mapped == Some(w)
    ensures Dies(Next(s, ev), w)
  {
    hide Advance, Change, NonBlank;
    if ev.Step? { NewIsMapped(s.sh, ev.thread, s.threads[ev.thread]); }
    assert ev.Clear? && Next(s, ev).threads[ev.thread] == ClearStop(w);
  }

  lemma KeepsUnmappedDie(s: State, ev: Event)
    requires Inv(s) && Enabled(s, ev)
    ensures UnmappedDie(Next(s, ev))
  {
    hide Next, Enabled, NonBlank, Reachable, UnmappedStop, MutexRight, LinksRight, GenerationsRight, MappedFresh,
         Clearing;
    var n := Next(s, ev);
    forall w | 0 <= w < |n.sh.workers| && n.sh.mapped != Some(w) ensures n.sh.workers[w].cancelled || Dies(n, w) {
      if w >= |s.sh.workers| || s.sh.mapped == Some(w) {
        UnmappingDies(s, ev, w);
      } else if s.sh.workers[w].cancelled {
        CancelledStays(s, ev, w);
      } else {
        DyingGoesOn(s, ev, w);
      }
    }
  }

  /** Whoever is about to stop an unmapped worker stays so until it has stopped it. */
  lemma StopperMoves(sh: Shared, t: nat, pc: Pc, w: nat)
    requires GenerationsRight(sh) && PcLinks(sh, pc) && w < |sh.workers| && sh.mapped != Some(w) && Stops(pc, w)
    ensures var o := Advance(sh, t, pc);
            w < |o.sh.workers| && ((o.pc.Some? && Stops(o.pc.value, w)) || !o.sh.workers[w].listening)
  {
    hide RoutePatterns, NonBlank, TakenLinks;
  }

  lemma ListeningBegins(sh: Shared, t: nat, pc: Pc, w: nat)
    requires w < |Advance(sh, t, pc).sh.workers| && Advance(sh, t, pc).sh.workers[w].listening
    requires w < |sh.workers| ==> !sh.workers[w].listening
    ensures var o := Advance(sh, t, pc); w < |sh.workers| && o.pc.Some? && Stops(o.pc.value, w)
  {
    hide RoutePatterns, NonBlank;
  }

  lemma KeepsUnmappedStop(s: State, ev: Event)
    requires Inv(s) && Enabled(s, ev)
    ensures UnmappedStop(Next(s, ev))
  {
    hide Advance, Change, NonBlank, Reachable, UnmappedDie, MutexRight, SharedLinks, PcLinks, GenerationsRight;
    var n := Next(s, ev);
    forall w | 0 <= w < |n.sh.workers| && n.sh.mapped != Some(w) && n.sh.workers[w].listening
      ensures exists t :: t in n.threads && Stops(n.threads[t], w)
    {
      if w < |s.sh.workers| && s.sh.workers[w].listening {
        if s.sh.mapped == Some(w) {
          MappingStays(s, ev);
          assert n.threads[ev.thread] == ClearStop(w);
        } else {
          var t :| t in s.threads && Stops(s.threads[t], w);
          if ev == Step(t) { StopperMoves(s.sh, t, s.threads[t], w); }
          assert t in n.threads && Stops(n.threads[t], w);
        }
      } else {
        assert ev.Step?;
        ListeningBegins(s.sh, ev.thread, s.threads[ev.thread], w);
        assert Stops(n.threads[ev.thread], w);
      }
    }
  }

  /** Only a clear unmaps a worker. */
  lemma MappingStays(s: State, ev: Event)
    requires Enabled(s, ev) && s.sh.mapped.Some?
    ensures !ev.Clear? ==> Next(s, ev).sh.mapped == s.sh.mapped
  {
    hide RoutePatterns, Change, NonBlank;
  }

  /** A step of a call or a removal leaves a worker its cancel function, or has taken it. */
  lemma AdvanceReaches(sh: Shared, t: nat, pc: Pc, w: nat, l: nat)
    requires w < |sh.workers| && sh.workers[w].stop == Some(l)
    ensures var o := Advance(sh, t, pc);
            && w < |o.sh.workers| && o.sh.workers[w].loop == sh.workers[w].loop
            && (o.sh.workers[w].stop == Some(l) || pc.Checked? || (o.pc.Some? && Taken(o.pc.value) == Some(l)))
            && (o.sh.workers[w].stop == Some(l) || !pc.Checked? || !sh.workers[w].listening)
  {
    hide RoutePatterns, NonBlank;
  }

  /** A taken cancel function stays taken until it is called. */
  lemma AdvanceCalls(sh: Shared, t: nat, pc: Pc, l: nat)
    requires Taken(pc) == Some(l) && l < |sh.listeners|
    ensures var o := Advance(sh, t, pc); l < |o.sh.listeners| && o.sh.listeners[l].cancelled
  {
  }

  lemma AdvanceLoops(sh: Shared, t: nat, pc: Pc, w: nat, l: nat)
    requires w < |sh.workers| && l < |sh.listeners|
    ensures var n := Advance(sh, t, pc).sh;
            && w < |n.workers| && n.workers[w].loop == sh.workers[w].loop
            && l < |n.listeners| && n.listeners[l].worker == sh.listeners[l].worker
  {
    hide RoutePatterns, NonBlank;
  }

  lemma StepReached(s: State, t: nat, l: nat)
    requires SharedLinks(s.sh) && Enabled(s, Step(t)) && l < |s.sh.listeners| && Reached(s, l)
    requires l < |Next(s, Step(t)).sh.listeners| && !Next(s, Step(t)).sh.listeners[l].cancelled
    ensures Reached(Next(s, Step(t)), l)
  {
    hide Advance, SharedLinks, Taken;
    var n, pc := Next(s, Step(t)), s.threads[t];
    var w := s.sh.listeners[l].worker;
    LinksAt(s.sh, l);
    AdvanceLoops(s.sh, t, pc, w, l);
    if s.sh.workers[w].stop == Some(l) {
      AdvanceReaches(s.sh, t, pc, w, l);
      if n.sh.workers[w].stop != Some(l) { assert Taken(n.threads[t]) == Some(l); }
    } else if s.sh.workers[w].loop != Exiting(Some(l)) {
      var u :| u in s.threads && Taken(s.threads[u]) == Some(l);
      if u == t { AdvanceCalls(s.sh, t, pc, l); }
      assert u in n.threads && Taken(n.threads[u]) == Some(l);
    }
  }

  lemma LinksAt(sh: Shared, l: nat)
    requires SharedLinks(sh) && l < |sh.listeners|
    ensures sh.listeners[l].worker < |sh.workers| && WorkerLinks(sh, sh.listeners[l].worker)
  {
  }

  lemma OtherReached(s: State, ev: Event, l: nat)
    requires SharedLinks(s.sh) && Enabled(s, ev) && !ev.Step? && l < |s.sh.listeners| && Reached(s, l)
    requires l < |Next(s, ev).sh.listeners| && !Next(s, ev).sh.listeners[l].cancelled
    ensures Reached(Next(s, ev), l)
  {
    hide Change, NonBlank;
    var n := Next(s, ev);
    var w := s.sh.listeners[l].worker;
    LinksAt(s.sh, l);
    if s.sh.workers[w].stop != Some(l) && s.sh.workers[w].loop != Exiting(Some(l)) {
      var t :| t in s.threads && Taken(s.threads[t]) == Some(l);
      assert t in n.threads && Taken(n.threads[t]) == Some(l);
    }
  }

  lemma KeepsReachable(s: State, ev: Event)
    requires Inv(s) && Enabled(s, ev)
    ensures Reachable(Next(s, ev))
  {
    hide RoutePatterns, Change, NonBlank, UnmappedStop, UnmappedDie, MutexRight, GenerationsRight, PcLinks, SharedLinks,
         Reached;
    var n := Next(s, ev);
    forall l | 0 <= l < |n.sh.listeners| && !n.sh.listeners[l].cancelled ensures Reached(n, l) {
      if l < |s.sh.listeners| {
        assert !s.sh.listeners[l].cancelled;
        if ev.Step? { StepReached(s, ev.thread, l); } else { OtherReached(s, ev, l); }
      } else {
        NewlyReached(s, ev, l);
      }
    }
  }

  lemma NewlyReached(s: State, ev: Event, l: nat)
    requires Enabled(s, ev) && |s.sh.listeners| <= l < |Next(s, ev).sh.listeners|
    ensures Reached(Next(s, ev), l)
  {
    hide RoutePatterns, Change, NonBlank;
  }

  lemma StepKeepsInv(s: State, ev: Event)
    requires Inv(s) && Enabled(s, ev)
    ensures Inv(Next(s, ev))
  {
    hide Next, NonBlank, LinksRight, GenerationsRight, MappedFresh, UnmappedDie, UnmappedStop, Reachable, MutexRight;
    KeepsNonBlank(s, ev);
    KeepsMutex(s, ev);
    KeepsLinks(s, ev);
    KeepsGenerations(s, ev);
    KeepsMappedFresh(s, ev);
    KeepsUnmappedDie(s, ev);
    KeepsUnmappedStop(s, ev);
    KeepsReachable(s, ev);
  }

  ghost predicate Run(sts: seq<State>, evs: seq<Event>) {
    && |sts| == |evs| + 1 && sts[0] == Init
    && forall i :: 0 <= i < |evs| ==> Enabled(sts[i], evs[i]) && sts[i + 1] == Next(sts[i], evs[i])
  }

  lemma {:induction false} RunKeepsInv(sts: seq<State>, evs: seq<Event>, k: nat)
    requires Run(sts, evs) && k <= |evs|
    ensures Inv(sts[k])
    decreases k
  {
    if k > 0 {
      RunKeepsInv(sts, evs, k - 1);
      hide Next, Enabled, Inv;
      StepKeepsInv(sts[k - 1], evs[k - 1]);
    } else {
      EmptyNonBlank();
      assert Inv(Init);
    }
  }

  // ---- Removal wins --------------------------------------------------------------------

  /** No removal is under way, and the syncs that took their snapshot before the last one are over. */
  ghost predicate OldSyncsDone(s: State) {
    forall t :: t in s.threads ==>
      !Clearing(s.threads[t]) && (HasGen(s.threads[t]) ==> s.threads[t].gen == s.sh.gen)
  }

  /** In every interleaving, once removals and the syncs of older generations are over, every worker
      but the mapped one is cancelled, and so is every listener those syncs started, up to the one a
      cancelled worker's own goroutine has taken and is about to cancel. */
  lemma RemovalWins(sts: seq<State>, evs: seq<Event>, k: nat)
    requires Run(sts, evs) && k <= |evs| && OldSyncsDone(sts[k])
    ensures var sh := sts[k].sh;
            && (forall w :: 0 <= w < |sh.workers| ==> sh.mapped == Some(w) || sh.workers[w].cancelled)
            && (forall l :: 0 <= l < |sh.listeners| ==>
                  sh.listeners[l].worker < |sh.workers| &&
                  (sh.workers[sh.listeners[l].worker].born < sh.gen ==>
                     sh.listeners[l].cancelled || sh.workers[sh.listeners[l].worker].loop == Exiting(Some(l))))
  {
    RunKeepsInv(sts, evs, k);
    var s := sts[k];
    var sh := s.sh;
    forall l | 0 <= l < |sh.listeners| && sh.workers[sh.listeners[l].worker].born < sh.gen && !sh.listeners[l].cancelled
      ensures sh.workers[sh.listeners[l].worker].loop == Exiting(Some(l))
    {
      var w := sh.listeners[l].worker;
      assert Reached(s, l) && WorkerLinks(sh, w);
      forall t | t in s.threads ensures !Stops(s.threads[t], w) && Taken(s.threads[t]) != Some(l) {
        assert PcLinks(sh, s.threads[t]);
      }
    }
  }

  // ---- A quiet tab agrees with its rules ---------------------------------------------------

  /** The mapped worker has an attached listener. */
  ghost predicate Live(sh: Shared) {
    && sh.mapped.Some? && sh.mapped.value < |sh.workers|
    && var wk := sh.workers[sh.mapped.value];
       wk.listening && wk.stop.Some? && wk.stop.value < |sh.listeners| && sh.listeners[wk.stop.value].attached
  }

  ghost predicate Quiet(sh: Shared) {
    sh.mapped.Some? && sh.mapped.value < |sh.workers| ==> !sh.workers[sh.mapped.value].listening
  }

  ghost predicate Matches(sh: Shared) {
    sh.fetch == Wanted(sh.rules) && if sh.rules == [] then Quiet(sh) else Live(sh)
  }

  ghost predicate ArmedWith(sh: Shared, w: nat, l: nat) {
    sh.mapped == Some(w) && w < |sh.workers| && sh.workers[w].listening && sh.workers[w].stop == Some(l)
  }

  /** What the call inside the mutex has achieved, if no rule change came after its snapshot. */
  ghost predicate Achieved(sh: Shared, pc: Pc) {
    && (HasGen(pc) ==> pc.gen == sh.gen)
    && match pc
       case Snapped(rules, _) => rules == sh.rules
       case FetchOff(_) => sh.rules == [] && sh.fetch == Off
       case StopOff(_, w) => sh.rules == [] && sh.fetch == Off && sh.mapped == Some(w)
       case Cancelling(_, _) => sh.rules == [] && sh.fetch == Off && Quiet(sh)
       case Ensured(rules, _, w) => rules == sh.rules && sh.mapped == Some(w)
       case Checked(rules, _, w) => rules == sh.rules && sh.mapped == Some(w)
       case Rejoining(rules, _, w) => rules == sh.rules && Live(sh)
       case Armed(rules, _, w, l) => rules == sh.rules && ArmedWith(sh, w, l)
       case Attaching(rules, _, w, l) => rules == sh.rules && ArmedWith(sh, w, l)
       case Attached(rules, _, w, l) => rules == sh.rules && Live(sh)
       case Started(rules, _) => rules == sh.rules && Live(sh)
       case Finishing => Matches(sh)
       case _ => false
  }

  predicate ToSync(pc: Pc) {
    pc.Changed? || pc.Holding?
  }

  ghost predicate Awaited(s: State) {
    exists t :: t in s.threads && ToSync(s.threads[t])
  }

  /** Either some call has yet to take its snapshot, or the last snapshot is of the current rules. */
  ghost predicate Tracked(s: State) {
    || Awaited(s)
    || (if s.sh.mu.None? then Matches(s.sh)
        else s.sh.mu.value in s.threads && Achieved(s.sh, s.threads[s.sh.mu.value]))
  }

  /** No snapshot was taken since the last removal: nothing is mapped, and syncs under way are outdated. */
  ghost predicate Abandoned(s: State) {
    && s.sh.mapped.None? && (s.sh.rules == [] || Awaited(s))
    && forall t :: t in s.threads && HasGen(s.threads[t]) ==> s.threads[t].gen < s.sh.gen
  }

  /** If the mapped worker's listener is still unattached, it is the one being armed. */
  ghost predicate AttachedRight(s: State) {
    s.sh.mapped.Some? && s.sh.mapped.value < |s.sh.workers| && s.sh.workers[s.sh.mapped.value].stop.Some? ==>
      ListenerAttached(s, s.sh.workers[s.sh.mapped.value].stop.value)
  }

  ghost predicate ListenerAttached(s: State, l: nat) {
    || (l < |s.sh.listeners| && s.sh.listeners[l].attached)
    || exists t :: t in s.threads && (s.threads[t].Armed? || s.threads[t].Attaching?) && s.threads[t].l == l
  }

  /** `synced`: some call took its snapshot since the last removal, or there was no removal. */
  ghost predicate LiveInv(s: State, synced: bool) {
    AttachedRight(s) && if synced then Tracked(s) else Abandoned(s)
  }

  /** The step is a call's snapshot of rules and generation. */
  predicate Snapshots(s: State, ev: Event) {
    ev.Step? && ev.thread in s.threads && s.threads[ev.thread].Holding?
  }

  predicate SyncedAfter(s: State, ev: Event, synced: bool) {
    Snapshots(s, ev) || (synced && !ev.Clear?)
  }

  /** Listeners stay attached, and the thread arming one under the current generation attaches it. */
  lemma AttachAdvances(sh: Shared, t: nat, pc: Pc, l: nat)
    requires l < |sh.listeners| && (HasGen(pc) ==> pc.gen == sh.gen)
    ensures var o := Advance(sh, t, pc);
            && l < |o.sh.listeners| && (sh.listeners[l].attached ==> o.sh.listeners[l].attached)
            && ((pc.Armed? || pc.Attaching?) && pc.l == l ==>
                  o.sh.listeners[l].attached || (o.pc.Some? && o.pc.value.Attaching? && o.pc.value.l == l))
  {
    hide RoutePatterns, NonBlank, TakenLinks;
  }

  lemma LoopListeners(sh: Shared, w: nat, l: nat)
    requires w < |sh.workers| && l < |sh.listeners|
    ensures var n := LoopAct(sh, w); l < |n.listeners| && n.listeners[l].attached == sh.listeners[l].attached
  {
  }

  lemma KeepsListenerAttached(s: State, ev: Event, l: nat)
    requires MappedFresh(s) && Enabled(s, ev) && s.sh.mapped.Some? && !ev.Clear?
    requires l < |s.sh.listeners| && ListenerAttached(s, l)
    ensures ListenerAttached(Next(s, ev), l)
  {
    hide Advance, Change, NonBlank, LoopAct, HasGen;
    var n := Next(s, ev);
    if ev.Step? {
      assert PcFresh(s.sh, s.threads[ev.thread]);
      AttachAdvances(s.sh, ev.thread, s.threads[ev.thread], l);
    }
    if ev.LoopStep? { LoopListeners(s.sh, ev.worker, l); }
    if !s.sh.listeners[l].attached {
      var t :| t in s.threads && (s.threads[t].Armed? || s.threads[t].Attaching?) && s.threads[t].l == l;
      assert n.sh.listeners[l].attached
             || (t in n.threads && (n.threads[t].Armed? || n.threads[t].Attaching?) && n.threads[t].l == l);
    }
  }

  /** A worker gets a cancel function only by arming. */
  lemma ArmingGives(sh: Shared, t: nat, pc: Pc, w: nat)
    requires w < |Advance(sh, t, pc).sh.workers| && Advance(sh, t, pc).sh.workers[w].stop.Some?
    requires w < |sh.workers| ==> sh.workers[w].stop != Advance(sh, t, pc).sh.workers[w].stop
    ensures var o := Advance(sh, t, pc);
            o.pc.Some? && o.pc.value.Armed? && o.pc.value.l == o.sh.workers[w].stop.value
  {
    hide RoutePatterns, NonBlank;
  }

  /** A worker newly mapped has no listener yet. */
  lemma MappingIsFresh(sh: Shared, t: nat, pc: Pc)
    requires SharedLinks(sh)
    ensures var n := Advance(sh, t, pc).sh;
            n.mapped.Some? && n.mapped != sh.mapped ==>
              n.mapped.value < |n.workers| && n.workers[n.mapped.value].stop.None?
  {
    hide RoutePatterns, NonBlank;
  }

  lemma LoopStops(sh: Shared, w: nat, v: nat)
    requires w < |sh.workers|
    ensures var n := LoopAct(sh, w);
            && |n.workers| == |sh.workers| && n.mapped == sh.mapped
            && (v < |sh.workers| ==> n.workers[v].stop == sh.workers[v].stop || n.workers[v].stop.None?)
  {
  }

  lemma KeepsAttached(s: State, ev: Event)
    requires Inv(s) && AttachedRight(s) && Enabled(s, ev)
    ensures AttachedRight(Next(s, ev))
  {
    hide Advance, Change, NonBlank, LoopAct, Reachable, UnmappedStop, UnmappedDie, MutexRight, PcLinks, TakenLinks,
         GenerationsRight, MappedFresh, ListenerAttached;
    var n := Next(s, ev);
    if n.sh.mapped.Some? && n.sh.mapped.value < |n.sh.workers| && n.sh.workers[n.sh.mapped.value].stop.Some? {
      var w := n.sh.mapped.value;
      var l := n.sh.workers[w].stop.value;
      if ev.Step? { MappingIsFresh(s.sh, ev.thread, s.threads[ev.thread]); }
      if ev.LoopStep? { LoopStops(s.sh, ev.worker, w); }
      assert s.sh.mapped == Some(w) && WorkerLinks(s.sh, w);
      if s.sh.workers[w].stop == Some(l) {
        KeepsListenerAttached(s, ev, l);
      } else {
        ArmedAttaches(s, ev, w);
      }
    }
  }

  lemma ArmedAttaches(s: State, ev: Event, w: nat)
    requires Enabled(s, ev) && ev.Step? && w < |Next(s, ev).sh.workers| && Next(s, ev).sh.workers[w].stop.Some?
    requires w < |s.sh.workers| ==> s.sh.workers[w].stop != Next(s, ev).sh.workers[w].stop
    ensures ListenerAttached(Next(s, ev), Next(s, ev).sh.workers[w].stop.value)
  {
    hide Advance;
    ArmingGives(s.sh, ev.thread, s.threads[ev.thread], w);
    assert Next(s, ev).threads[ev.thread].Armed?;
  }

  // ---- The holder goes on ------------------------------------------------------------------

  /** The holder of an empty snapshot switches interception off and stops the worker. */
  lemma DisableAdvances(sh: Shared, t: nat, pc: Pc)
    requires SharedLinks(sh) && Achieved(sh, pc)
    requires (pc.Snapped? && pc.rules == []) || pc.FetchOff? || pc.StopOff? || pc.Cancelling?
    ensures var o := Advance(sh, t, pc); o.pc.Some? && Achieved(o.sh, o.pc.value)
  {
    hide RoutePatterns, NonBlank, WorkerLinks;
  }

  /** The holder of a snapshot with rules finds or makes the worker and joins or makes its listener. */
  lemma EnableAdvances(sh: Shared, t: nat, pc: Pc)
    requires SharedLinks(sh) && Achieved(sh, pc)
    requires (pc.Snapped? && pc.rules != []) || pc.Ensured? || pc.Checked? || pc.Rejoining?
    requires pc.Checked? && pc.w < |sh.workers| && sh.workers[pc.w].listening ==> Live(sh)
    ensures var o := Advance(sh, t, pc); o.pc.Some? && Achieved(o.sh, o.pc.value)
  {
    hide RoutePatterns, NonBlank, WorkerLinks;
  }

  /** The holder that made a listener attaches it and enables the patterns. */
  lemma ArmAdvances(sh: Shared, t: nat, pc: Pc)
    requires PcLinks(sh, pc) && Achieved(sh, pc)
    requires pc.Armed? || pc.Attaching? || pc.Attached? || pc.Started? || pc.Finishing?
    ensures var o := Advance(sh, t, pc);
            if o.pc.Some? then Achieved(o.sh, o.pc.value) else o.sh.mu.None? && Matches(o.sh)
  {
    hide RoutePatterns, NonBlank;
    if pc.Started? { NonEmptyPatterns(pc.rules); }
  }

  lemma HolderAlone(s: State, t: nat)
    requires MutexRight(s) && s.sh.mu == Some(t)
    ensures forall u :: u in s.threads && InLock(s.threads[u]) ==> u == t
  {
    forall u | u in s.threads && InLock(s.threads[u]) ensures u == t {
      assert s.sh.mu == Some(u);
    }
  }

  lemma NonEmptyPatterns(rules: seq<Rule>)
    requires NonBlank(rules) && rules != []
    ensures RoutePatterns(rules) != []
  {
    PatternPerRule(rules);
  }

  /** A listening worker that the holder finds has its listener attached: nobody else can be arming it. */
  lemma FoundLive(s: State, t: nat)
    requires MutexRight(s) && SharedLinks(s.sh) && AttachedRight(s) && s.sh.mu == Some(t)
    requires t in s.threads && s.threads[t].Checked? && s.sh.mapped == Some(s.threads[t].w)
    requires s.threads[t].w < |s.sh.workers| && s.sh.workers[s.threads[t].w].listening
    ensures Live(s.sh)
  {
    var w := s.threads[t].w;
    assert WorkerLinks(s.sh, w);
    HolderAlone(s, t);
  }

  /** The holder's own step carries its achievement on. */
  lemma AchievedAdvances(s: State, t: nat)
    requires Inv(s) && AttachedRight(s) && Enabled(s, Step(t)) && s.sh.mu == Some(t)
    requires t in s.threads && Achieved(s.sh, s.threads[t])
    ensures var o := Advance(s.sh, t, s.threads[t]);
            if o.pc.Some? then Achieved(o.sh, o.pc.value) else o.sh.mu.None? && Matches(o.sh)
  {
    hide Advance, NonBlank, Reachable, UnmappedStop, UnmappedDie, MappedFresh, GenerationsRight, SharedLinks, PcLinks,
         AttachedRight, MutexRight, Matches;
    var sh, pc := s.sh, s.threads[t];
    assert PcLinks(sh, pc);
    if pc.Checked? && pc.w < |sh.workers| && sh.workers[pc.w].listening { FoundLive(s, t); }
    if (pc.Snapped? && pc.rules == []) || pc.FetchOff? || pc.StopOff? || pc.Cancelling? {
      DisableAdvances(sh, t, pc);
    } else if pc.Snapped? || pc.Ensured? || pc.Checked? || pc.Rejoining? {
      EnableAdvances(sh, t, pc);
    } else {
      ArmAdvances(sh, t, pc);
    }
  }

  // ---- The others leave it alone -------------------------------------------------------------

  /** Rules, mapping, interception and the mapped worker look the same. */
  ghost predicate SameView(a: Shared, b: Shared) {
    && a.rules == b.rules && a.gen == b.gen && a.mapped == b.mapped && a.fetch == b.fetch && a.mu == b.mu
    && |a.workers| == |b.workers| && |a.listeners| == |b.listeners|
    && (forall l :: 0 <= l < |a.listeners| ==> a.listeners[l].attached == b.listeners[l].attached)
    && (a.mapped.Some? && a.mapped.value < |a.workers| ==>
          var v, w := a.workers[a.mapped.value], b.workers[a.mapped.value];
          v.listening == w.listening && v.stop == w.stop)
  }

  lemma AchievedSame(a: Shared, b: Shared, pc: Pc)
    requires SameView(a, b)
    ensures Achieved(a, pc) ==> Achieved(b, pc)
    ensures Matches(a) ==> Matches(b)
  {
    hide RoutePatterns;
  }

  lemma LoopSameView(s: State, w: nat)
    requires GenerationsRight(s.sh) && Enabled(s, LoopStep(w))
    ensures SameView(s.sh, LoopAct(s.sh, w))
  {
    assert s.sh.mapped != Some(w);
  }

  lemma ClearingSameView(sh: Shared, t: nat, pc: Pc)
    requires GenerationsRight(sh) && Clearing(pc) && PcLinks(sh, pc)
    ensures var o := Advance(sh, t, pc);
            SameView(sh, o.sh) && (o.pc.Some? ==> Clearing(o.pc.value))
  {
    hide RoutePatterns, NonBlank;
    assert sh.mapped != Some(pc.w);
  }

  lemma StillToSync(s: State, ev: Event, u: nat)
    requires Enabled(s, ev) && u in s.threads && ToSync(s.threads[u]) && !(Snapshots(s, ev) && ev.thread == u)
    ensures var n := Next(s, ev); u in n.threads && ToSync(n.threads[u])
  {
    hide RoutePatterns, Change;
  }

  /** Unless it is a snapshot, no step leaves the calls that have yet to synchronise fewer. */
  lemma KeepsAwaited(s: State, ev: Event)
    requires Enabled(s, ev) && Awaited(s) && !Snapshots(s, ev)
    ensures Awaited(Next(s, ev))
  {
    hide Next;
    var u :| u in s.threads && ToSync(s.threads[u]);
    StillToSync(s, ev, u);
  }

  lemma SnapshotTracks(s: State, ev: Event)
    requires MutexRight(s) && Enabled(s, ev) && Snapshots(s, ev)
    ensures Tracked(Next(s, ev))
  {
    hide Change, RoutePatterns;
  }

  lemma AdvanceMutex(sh: Shared, t: nat, pc: Pc)
    ensures pc.Changed? || pc.Finishing? || Advance(sh, t, pc).sh.mu == sh.mu
    ensures pc.Finishing? <==> Advance(sh, t, pc).pc.None? && !pc.ClearKill?
  {
    hide RoutePatterns;
  }

  /** With no call waiting, the holder's step goes on from its snapshot. */
  lemma HolderTracks(s: State, t: nat)
    requires Inv(s) && AttachedRight(s) && Enabled(s, Step(t)) && s.sh.mu == Some(t)
    requires t in s.threads && Achieved(s.sh, s.threads[t])
    ensures Tracked(Next(s, Step(t)))
  {
    hide Inv, AttachedRight, Advance, Achieved, Matches;
    AchievedAdvances(s, t);
    AdvanceMutex(s.sh, t, s.threads[t]);
    AchievedIsPast(s.sh, s.threads[t]);
  }

  lemma AchievedIsPast(sh: Shared, pc: Pc)
    requires Achieved(sh, pc)
    ensures !ToSync(pc) && !pc.ClearKill?
  {
    hide Live, ArmedWith, Matches, Quiet;
  }

  lemma ViewTracks(s: State, n: State)
    requires SameView(s.sh, n.sh) && Tracked(s) && !Awaited(s)
    requires s.sh.mu.Some? && s.sh.mu.value in s.threads ==>
               s.sh.mu.value in n.threads && n.threads[s.sh.mu.value] == s.threads[s.sh.mu.value]
    ensures Tracked(n)
  {
    hide Achieved, Matches;
    AchievedSame(s.sh, n.sh, if s.sh.mu.None? then Finishing else s.threads[s.sh.mu.value]);
  }

  lemma KeepsTracked(s: State, ev: Event, synced: bool)
    requires Inv(s) && LiveInv(s, synced) && Enabled(s, ev) && SyncedAfter(s, ev, synced)
    ensures Tracked(Next(s, ev))
  {
    hide Advance, Change, NonBlank, Reachable, UnmappedStop, UnmappedDie, MappedFresh, SharedLinks, GenerationsRight,
         AttachedRight, Achieved, Matches, LoopAct, Tracked, Awaited, PcLinks, SameView;
    if Snapshots(s, ev) {
      SnapshotTracks(s, ev);
    } else if Awaited(s) {
      KeepsAwaited(s, ev);
      AwaitedTracks(Next(s, ev));
    } else {
      NotAwaited(s);
      match ev
      case Call(t, op) =>
        CallAwaits(s, t, op);
        AwaitedTracks(Next(s, ev));
      case LoopStep(w) =>
        LoopSameView(s, w);
        ViewTracks(s, Next(s, ev));
      case Step(t) =>
        if Clearing(s.threads[t]) {
          assert PcLinks(s.sh, s.threads[t]);
          ClearingSameView(s.sh, t, s.threads[t]);
          ViewTracks(s, Next(s, ev));
        } else {
          HolderHasAchieved(s, t);
          HolderTracks(s, t);
        }
    }
  }

  lemma AwaitedTracks(s: State)
    requires Awaited(s)
    ensures Tracked(s)
  {
  }

  lemma NotAwaited(s: State)
    requires !Awaited(s)
    ensures forall t :: t in s.threads ==> !ToSync(s.threads[t])
  {
  }

  lemma CallAwaits(s: State, t: nat, op: Op)
    requires Enabled(s, Call(t, op))
    ensures Awaited(Next(s, Call(t, op)))
  {
    hide Change, NonBlank;
    assert ToSync(Next(s, Call(t, op)).threads[t]);
  }

  lemma HolderHasAchieved(s: State, t: nat)
    requires MutexRight(s) && Tracked(s) && !Awaited(s) && t in s.threads && InLock(s.threads[t])
    ensures s.sh.mu == Some(t) && Achieved(s.sh, s.threads[t])
  {
    hide Achieved, Matches;
  }

  // ---- After a removal -----------------------------------------------------------------------

  /** What a call at pc, outdated by a removal, leaves of the browser's Fetch domain. */
  function Leaves(pc: Pc, fetch: Fetch): Fetch {
    match pc
    case Snapped(rules, _) => if rules == [] then Off else fetch
    case Started(rules, _) => if RoutePatterns(rules) == [] then fetch else On(RoutePatterns(rules))
    case _ => fetch
  }

  /** What the call inside the mutex, if any, leaves of it. */
  function Left(s: State): Fetch {
    if s.sh.mu.Some? && s.sh.mu.value in s.threads then Leaves(s.threads[s.sh.mu.value], s.sh.fetch) else s.sh.fetch
  }

  /** An outdated sync neither maps a worker nor gets to enabling its patterns. */
  lemma OutdatedAdvances(sh: Shared, t: nat, pc: Pc)
    requires sh.mapped.None? && !pc.Holding? && (HasGen(pc) ==> pc.gen < sh.gen)
    ensures var o := Advance(sh, t, pc);
            && o.sh.mapped.None? && o.sh.rules == sh.rules && o.sh.gen == sh.gen
            && (o.pc.Some? && HasGen(o.pc.value) ==> o.pc.value.gen < sh.gen)
            && (if o.pc.Some? then Leaves(o.pc.value, o.sh.fetch) else o.sh.fetch) == Leaves(pc, sh.fetch)
            && (Clearing(pc) || pc.Changed? ==> o.sh.fetch == sh.fetch)
  {
    hide RoutePatterns;
  }

  lemma ClearAbandons(s: State, t: nat)
    requires Inv(s) && Enabled(s, Clear(t))
    ensures Abandoned(Next(s, Clear(t))) && Left(Next(s, Clear(t))) == Left(s)
  {
    hide NonBlank, SharedLinks, Reachable, UnmappedStop, UnmappedDie, MappedFresh, GenerationsRight;
  }

  lemma KeepsAbandoned(s: State, ev: Event)
    requires Abandoned(s) && Enabled(s, ev) && !Snapshots(s, ev) && !ev.Clear?
    ensures Abandoned(Next(s, ev))
  {
    hide Advance, LoopAct, Change, NonBlank, Awaited;
    if ev.Step? { OutdatedAdvances(s.sh, ev.thread, s.threads[ev.thread]); }
    if ev.LoopStep? { LoopLeaves(s.sh, ev.worker); }
    if ev.Call? { CallAwaits(s, ev.thread, ev.op); } else if Awaited(s) { KeepsAwaited(s, ev); }
  }

  lemma LoopLeaves(sh: Shared, w: nat)
    requires w < |sh.workers|
    ensures var n := LoopAct(sh, w);
            n.mapped == sh.mapped && n.rules == sh.rules && n.gen == sh.gen && n.fetch == sh.fetch && n.mu == sh.mu
  {
  }

  /** Until the next snapshot, what is left of the Fetch domain is settled. */
  lemma KeepsLeft(s: State, ev: Event)
    requires MutexRight(s) && Abandoned(s) && Enabled(s, ev) && !Snapshots(s, ev)
    ensures Left(Next(s, ev)) == Left(s)
  {
    hide Advance, LoopAct, Change, NonBlank, Awaited, Leaves;
    LeavesOthers(s.sh.fetch);
    match ev
    case Step(t) =>
      var pc := s.threads[t];
      OutdatedAdvances(s.sh, t, pc);
      AdvanceMutex(s.sh, t, pc);
      StepLeaves(s.sh, t, pc);
    case LoopStep(w) => LoopLeaves(s.sh, w);
    case Call(t, op) =>
    case Clear(t) =>
  }

  lemma LeavesOthers(fetch: Fetch)
    ensures Leaves(Holding, fetch) == fetch && Leaves(Finishing, fetch) == fetch && Leaves(Changed, fetch) == fetch
  {
  }

  lemma StepLeaves(sh: Shared, t: nat, pc: Pc)
    ensures pc.Changed? ==> Advance(sh, t, pc) == Outcome(sh.(mu := Some(t)), Some(Holding))
    ensures pc.Finishing? ==> Advance(sh, t, pc) == Outcome(sh.(mu := None), None)
  {
  }

  // ---- Runs ------------------------------------------------------------------------------------

  /** No call took its snapshot between the removal at i and state k. */
  ghost predicate LastRemoval(sts: seq<State>, evs: seq<Event>, i: nat, k: nat)
    requires k <= |evs| < |sts|
  {
    i < k && evs[i].Clear? && forall j :: i < j < k ==> !Snapshots(sts[j], evs[j])
  }

  ghost predicate Synced(sts: seq<State>, evs: seq<Event>, k: nat)
    requires k <= |evs| < |sts|
  {
    k == 0 || SyncedAfter(sts[k - 1], evs[k - 1], Synced(sts, evs, k - 1))
  }

  lemma {:induction false} SyncedIff(sts: seq<State>, evs: seq<Event>, k: nat)
    requires k <= |evs| < |sts|
    ensures Synced(sts, evs, k) <==> forall i: nat :: !LastRemoval(sts, evs, i, k)
    decreases k
  {
    hide Snapshots;
    if k > 0 {
      var j := k - 1;
      SyncedIff(sts, evs, j);
      if Snapshots(sts[j], evs[j]) {
        assert forall i: nat :: LastRemoval(sts, evs, i, k) ==> i == j;
        SnapshotIsStep(sts[j], evs[j]);
      } else if evs[j].Clear? {
        assert LastRemoval(sts, evs, j, k);
      } else {
        forall i: nat ensures LastRemoval(sts, evs, i, k) == LastRemoval(sts, evs, i, j) {
          if LastRemoval(sts, evs, i, k) { assert i != j; }
        }
        if i: nat :| LastRemoval(sts, evs, i, j) { assert LastRemoval(sts, evs, i, k); }
      }
    }
  }

  lemma SnapshotIsStep(s: State, ev: Event)
    requires Snapshots(s, ev)
    ensures !ev.Clear?
  {
  }

  lemma StepKeepsLiveInv(s: State, ev: Event, synced: bool)
    requires Inv(s) && LiveInv(s, synced) && Enabled(s, ev)
    ensures LiveInv(Next(s, ev), SyncedAfter(s, ev, synced))
  {
    hide Next, Inv, Enabled, Tracked, AttachedRight, Abandoned;
    KeepsAttached(s, ev);
    if SyncedAfter(s, ev, synced) {
      KeepsTracked(s, ev, synced);
    } else if ev.Clear? {
      ClearAbandons(s, ev.thread);
    } else {
      KeepsAbandoned(s, ev);
    }
  }

  lemma {:induction false} RunKeepsLiveInv(sts: seq<State>, evs: seq<Event>, k: nat)
    requires Run(sts, evs) && k <= |evs|
    ensures LiveInv(sts[k], Synced(sts, evs, k))
    decreases k
  {
    if k > 0 {
      RunKeepsLiveInv(sts, evs, k - 1);
      RunKeepsInv(sts, evs, k - 1);
      hide Next, Enabled, Inv, LiveInv, SyncedAfter;
      StepKeepsLiveInv(sts[k - 1], evs[k - 1], Synced(sts, evs, k - 1));
    }
  }

  /** Without a snapshot since the removal, the Fetch domain ends up as the call then inside the mutex
      leaves it. */
  lemma {:induction false} RemovalLeaves(sts: seq<State>, evs: seq<Event>, i: nat, k: nat)
    requires Run(sts, evs) && k <= |evs| && LastRemoval(sts, evs, i, k)
    ensures Abandoned(sts[k]) && Left(sts[k]) == Left(sts[i])
    decreases k
  {
    hide Next, Enabled, Inv, Abandoned, Left, Snapshots;
    RunKeepsInv(sts, evs, k - 1);
    if i == k - 1 {
      ClearAbandons(sts[i], evs[i].thread);
    } else {
      RemovalLeaves(sts, evs, i, k - 1);
      OnwardLeaves(sts[k - 1], evs[k - 1]);
    }
  }

  lemma OnwardLeaves(s: State, ev: Event)
    requires Inv(s) && Abandoned(s) && Enabled(s, ev) && !Snapshots(s, ev)
    ensures Abandoned(Next(s, ev)) && Left(Next(s, ev)) == Left(s)
  {
    hide Next, Enabled, Abandoned, Left, Snapshots, MutexRight;
    if ev.Clear? {
      ClearAbandons(s, ev.thread);
    } else {
      KeepsAbandoned(s, ev);
      KeepsLeft(s, ev);
    }
  }

  /** For any number of concurrent calls and removals, whenever none of them is under way: if rules are
      stored, the patterns enabled in CDP are theirs and the mapped worker's listener is attached; if none
      are, interception is off exactly when no removal came after the last snapshot, or the call inside the
      mutex at that removal left it off. No other listener is live but one a cancelled worker is stopping. */
  lemma CallsConverge(sts: seq<State>, evs: seq<Event>, k: nat)
    requires Run(sts, evs) && k <= |evs| && sts[k].threads == map[]
    ensures var sh := sts[k].sh;
            && (sh.rules != [] ==> sh.fetch == On(RoutePatterns(sh.rules)) && Live(sh))
            && (sh.rules == [] ==>
                  (sh.fetch == Off <==> forall i: nat :: LastRemoval(sts, evs, i, k) ==> Left(sts[i]) == Off))
            && (forall i: nat :: LastRemoval(sts, evs, i, k) ==> sh.fetch == Left(sts[i]))
            && (forall l :: 0 <= l < |sh.listeners| && !sh.listeners[l].cancelled ==>
                  || (sh.rules != [] && sh.listeners[l].attached && sh.mapped == Some(sh.listeners[l].worker))
                  || (sh.listeners[l].worker < |sh.workers|
                      && sh.workers[sh.listeners[l].worker].loop == Exiting(Some(l))))
  {
    hide Left, Snapshots, Next, Enabled, RoutePatterns, NonBlank, SyncedAfter, Synced;
    RunKeepsInv(sts, evs, k);
    RunKeepsLiveInv(sts, evs, k);
    SyncedIff(sts, evs, k);
    NobodyLeft(sts[k]);
    forall i: nat | LastRemoval(sts, evs, i, k) ensures sts[k].sh.fetch == Left(sts[i]) {
      RemovalLeaves(sts, evs, i, k);
    }
    SettledListeners(sts[k], Synced(sts, evs, k));
  }

  lemma NobodyLeft(s: State)
    requires s.threads == map[]
    ensures !Awaited(s) && Left(s) == s.sh.fetch
  {
  }

  lemma SettledListeners(s: State, synced: bool)
    requires Inv(s) && LiveInv(s, synced) && s.threads == map[]
    ensures var sh := s.sh;
            && (synced ==> Matches(sh)) && (!synced ==> sh.rules == [])
            && forall l :: 0 <= l < |sh.listeners| && !sh.listeners[l].cancelled ==>
                 || (sh.rules != [] && sh.listeners[l].attached && sh.mapped == Some(sh.listeners[l].worker))
                 || (sh.listeners[l].worker < |sh.workers|
                     && sh.workers[sh.listeners[l].worker].loop == Exiting(Some(l)))
  {
    hide RoutePatterns, NonBlank, UnmappedDie, MappedFresh, GenerationsRight;
    var sh := s.sh;
    if sh.mu.Some? { HolderExists(s); }
    forall l | 0 <= l < |sh.listeners| && !sh.listeners[l].cancelled
               && sh.workers[sh.listeners[l].worker].loop != Exiting(Some(l))
      ensures sh.rules != [] && sh.listeners[l].attached && sh.mapped == Some(sh.listeners[l].worker)
    {
      assert Reached(s, l) && WorkerLinks(sh, sh.listeners[l].worker);
    }
  }

  lemma HolderExists(s: State)
    requires MutexRight(s) && s.sh.mu.Some?
    ensures s.sh.mu.value in s.threads
  {
  }

  /** One call in nobody's way, up to its worker and up to the step that enables its patterns. */
  lemma CallEnsures(r: Rule) returns (sts: seq<State>, evs: seq<Event>)
    requires TrimSpace(r.urlPattern) != []
    ensures |sts| == |evs| + 1 && Run(sts, evs)
    ensures sts[|evs|] == State(Shared([r], 0, Some(0), [Worker(0, false, false, None, Looping)], [], Off, Some(0)),
                                map[0 := Ensured([r], 0, 0)])
  {
    hide RoutePatterns, TrimSpace;
    var call := Call(0, SetRules([r]));
    assert NonBlank(Change([], SetRules([r])));
    var s1 := Next(Init, call);
    var s2 := Next(s1, Step(0));
    var s3 := Next(s2, Step(0));
    var s4 := Next(s3, Step(0));
    evs := [call, Step(0), Step(0), Step(0)];
    sts := [Init, s1, s2, s3, s4];
  }

  lemma CallArms(r: Rule) returns (sts: seq<State>, evs: seq<Event>)
    requires TrimSpace(r.urlPattern) != []
    ensures |sts| == |evs| + 1 && Run(sts, evs)
    ensures sts[|evs|] == State(Shared([r], 0, Some(0), [Worker(0, false, true, Some(0), Looping)],
                                       [Listener(0, true, false)], Off, Some(0)),
                                map[0 := Started([r], 0)])
  {
    hide RoutePatterns, TrimSpace, Run;
    sts, evs := CallEnsures(r);
    var last := sts[|evs|];
    sts, evs, last := Extended(sts, evs, Step(0));
    sts, evs, last := Extended(sts, evs, Step(0));
    assert last.threads == map[0 := Armed([r], 0, 0, 0)];
    sts, evs, last := Extended(sts, evs, Step(0));
    sts, evs, last := Extended(sts, evs, Step(0));
    sts, evs, last := Extended(sts, evs, Step(0));
  }

  lemma RunOn(sts: seq<State>, evs: seq<Event>, ev: Event)
    requires |sts| == |evs| + 1 && Run(sts, evs) && Enabled(sts[|evs|], ev)
    ensures Run(sts + [Next(sts[|evs|], ev)], evs + [ev])
  {
    hide Next, Enabled;
  }

  lemma CallReturns(r: Rule) returns (sts: seq<State>, evs: seq<Event>)
    requires TrimSpace(r.urlPattern) != []
    ensures |sts| == |evs| + 1 && Run(sts, evs)
    ensures sts[|evs|] == State(Shared([r], 0, Some(0), [Worker(0, false, true, Some(0), Looping)],
                                       [Listener(0, true, false)], On([TrimSpace(r.urlPattern)]), None),
                                map[])
  {
    hide TrimSpace, Run;
    sts, evs := CallArms(r);
    assert RoutePatterns([r]) == [TrimSpace(r.urlPattern)];
    hide RoutePatterns;
    var last := sts[|evs|];
    sts, evs, last := Extended(sts, evs, Step(0));
    sts, evs, last := Extended(sts, evs, Step(0));
  }

  /** CDP can keep the old patterns: after one call and one removal, nothing is stored and nobody listens,
      yet the call's pattern is still enabled. */
  lemma OldPatternsStay(r: Rule) returns (sts: seq<State>, evs: seq<Event>)
    requires TrimSpace(r.urlPattern) != []
    ensures |sts| == |evs| + 1 && Run(sts, evs) && sts[|evs|].threads == map[]
    ensures sts[|evs|].sh.rules == [] && sts[|evs|].sh.fetch == On([TrimSpace(r.urlPattern)])
  {
    hide TrimSpace, Run, RoutePatterns, Change, NonBlank;
    sts, evs := CallReturns(r);
    var last := sts[|evs|];
    sts, evs, last := Extended(sts, evs, Clear(0));
    assert last.threads == map[0 := ClearStop(0)];
    sts, evs, last := Extended(sts, evs, Step(0));
    assert last.threads == map[0 := ClearCancelling(0, Some(0))];
    sts, evs, last := Extended(sts, evs, Step(0));
    sts, evs, last := Extended(sts, evs, Step(0));
  }

  lemma Extended(sts: seq<State>, evs: seq<Event>, ev: Event) returns (ts: seq<State>, es: seq<Event>, last: State)
    requires |sts| == |evs| + 1 && Run(sts, evs) && Enabled(sts[|evs|], ev)
    ensures |ts| == |es| + 1 && Run(ts, es) && last == ts[|es|] == Next(sts[|evs|], ev)
  {
    hide Next, Enabled;
    RunOn(sts, evs, ev);
    ts, es, last := sts + [Next(sts[|evs|], ev)], evs + [ev], Next(sts[|evs|], ev);
  }

  // ---- Which rules are stored -------------------------------------------------------------------

  /** The picked rules are exactly those of other patterns, in their order and as often as they occur. */
  ghost predicate PicksOthers(a: seq<Rule>, picks: seq<nat>, b: seq<Rule>, pat: Str) {
    && |picks| == |b|
    && (forall i :: 0 <= i < |picks| ==> picks[i] < |a| && b[i] == a[picks[i]] && b[i].urlPattern != pat)
    && (forall i, j :: 0 <= i < j < |picks| ==> picks[i] < picks[j])
    && (forall x :: 0 <= x < |a| && a[x].urlPattern != pat ==> x in picks)
  }

  /** Where, from place i on, the rules of other patterns stand. */
  function OtherPlaces(rules: seq<Rule>, pat: Str, i: nat): seq<nat>
    decreases |rules| - i
  {
    if i >= |rules| then []
    else (if rules[i].urlPattern != pat then [i] else []) + OtherPlaces(rules, pat, i + 1)
  }

  lemma {:induction false} PlacesIn(rules: seq<Rule>, pat: Str, i: nat, x: nat)
    ensures x in OtherPlaces(rules, pat, i) <==> i <= x < |rules| && rules[x].urlPattern != pat
    decreases |rules| - i
  {
    if i < |rules| {
      PlacesIn(rules, pat, i + 1, x);
      var here := if rules[i].urlPattern != pat then [i] else [];
      assert OtherPlaces(rules, pat, i) == here + OtherPlaces(rules, pat, i + 1);
      assert x in here <==> x == i && rules[i].urlPattern != pat;
    }
  }

  lemma {:induction false} PlacesRise(rules: seq<Rule>, pat: Str, i: nat, a: nat, b: nat)
    requires a < b < |OtherPlaces(rules, pat, i)|
    ensures OtherPlaces(rules, pat, i)[a] < OtherPlaces(rules, pat, i)[b]
    decreases |rules| - i
  {
    var rest := OtherPlaces(rules, pat, i + 1);
    if rules[i].urlPattern == pat {
      PlacesRise(rules, pat, i + 1, a, b);
    } else if a > 0 {
      PlacesRise(rules, pat, i + 1, a - 1, b - 1);
    } else {
      PlacesIn(rules, pat, i + 1, rest[b - 1]);
      assert rest[b - 1] in rest;
    }
  }

  lemma PlacesMeaning(rules: seq<Rule>, pat: Str)
    ensures var picks := OtherPlaces(rules, pat, 0);
            && (forall x :: x in picks <==> 0 <= x < |rules| && rules[x].urlPattern != pat)
            && (forall a, b :: 0 <= a < b < |picks| ==> picks[a] < picks[b])
  {
    hide OtherPlaces;
    var picks := OtherPlaces(rules, pat, 0);
    forall x: nat ensures x in picks <==> 0 <= x < |rules| && rules[x].urlPattern != pat { PlacesIn(rules, pat, 0, x); }
    forall a, b | 0 <= a < b < |picks| ensures picks[a] < picks[b] { PlacesRise(rules, pat, 0, a, b); }
  }

  function At(rules: seq<Rule>, picks: seq<nat>): seq<Rule> {
    if picks == [] then []
    else (if picks[0] < |rules| then [rules[picks[0]]] else []) + At(rules, picks[1..])
  }

  lemma {:induction false} AtMeaning(rules: seq<Rule>, picks: seq<nat>)
    requires forall a :: 0 <= a < |picks| ==> picks[a] < |rules|
    ensures |At(rules, picks)| == |picks| && forall a :: 0 <= a < |picks| ==> At(rules, picks)[a] == rules[picks[a]]
    decreases |picks|
  {
    if picks != [] { AtMeaning(rules, picks[1..]); }
  }

  lemma {:induction false} WithoutPicks(rules: seq<Rule>, pat: Str, i: nat)
    requires i <= |rules|
    ensures Without(rules[i..], pat) == At(rules, OtherPlaces(rules, pat, i))
    decreases |rules| - i
  {
    if i < |rules| {
      WithoutPicks(rules, pat, i + 1);
      assert rules[i..][1..] == rules[i + 1..];
      var rest := OtherPlaces(rules, pat, i + 1);
      assert ([i] + rest)[1..] == rest && [] + rest == rest;
    }
  }

  lemma WithoutIsOthers(rules: seq<Rule>, pat: Str) returns (picks: seq<nat>)
    ensures PicksOthers(rules, picks, Without(rules, pat), pat)
  {
    hide Without, OtherPlaces, At;
    picks := OtherPlaces(rules, pat, 0);
    PlacesMeaning(rules, pat);
    WithoutPicks(rules, pat, 0);
    assert rules[0..] == rules;
    forall a | 0 <= a < |picks| ensures picks[a] < |rules| && rules[picks[a]].urlPattern != pat {
      assert picks[a] in picks;
    }
    AtMeaning(rules, picks);
  }

  /** What each call stores: a set exactly its rules; an append every stored rule where it was and its own
      behind them; a remove none for a blank pattern, and otherwise exactly the rules of other patterns. */
  lemma CallStores(s: State, t: nat, op: Op)
    requires Enabled(s, Call(t, op))
    ensures var before, after := s.sh.rules, Next(s, Call(t, op)).sh.rules;
            match op
            case SetRules(rules) => after == rules
            case AppendRule(rule) =>
              |after| == |before| + 1 && after[..|before|] == before && after[|before|] == rule
            case RemoveRules(pattern) =>
              if TrimSpace(pattern) == [] then after == []
              else exists picks :: PicksOthers(before, picks, after, TrimSpace(pattern))
  {
    hide TrimSpace, NonBlank;
    if op.RemoveRules? && TrimSpace(op.pattern) != [] {
      var picks := WithoutIsOthers(s.sh.rules, TrimSpace(op.pattern));
    }
  }

  /** The event is a remove call that takes away rules of this pattern. */
  predicate Drops(ev: Event, rule: Rule) {
    ev.Call? && ev.op.RemoveRules? && (TrimSpace(ev.op.pattern) == [] || TrimSpace(ev.op.pattern) == rule.urlPattern)
  }

  predicate Survives(evs: seq<Event>, rule: Rule, from: nat, k: nat)
    requires k <= |evs|
  {
    forall j :: from <= j < k ==> !Drops(evs[j], rule)
  }

  /** Those of the rules that no remove among the events drops. */
  function Surviving(evs: seq<Event>, rules: seq<Rule>, from: nat, k: nat): seq<Rule>
    requires k <= |evs|
  {
    if rules == [] then []
    else (if Survives(evs, rules[0], from, k) then [rules[0]] else []) + Surviving(evs, rules[1..], from, k)
  }

  /** The rules appended by the events from `from` on that no later remove drops. */
  function Appended(evs: seq<Event>, from: nat, k: nat): seq<Rule>
    requires from <= k <= |evs|
    decreases k - from
  {
    if from == k then [] else Surviving(evs, AppendedBy(evs[from]), from + 1, k) + Appended(evs, from + 1, k)
  }

  /** The rule the event appends, if it is an append call. */
  function AppendedBy(ev: Event): seq<Rule> {
    if ev.Call? && ev.op.AppendRule? then [ev.op.rule] else []
  }

  /** The event stores a whole list of rules: a set call its own, a removal of the tab none. */
  predicate Resets(ev: Event) {
    ev.Clear? || (ev.Call? && ev.op.SetRules?)
  }

  function ResetTo(ev: Event): seq<Rule> {
    if ev.Call? && ev.op.SetRules? then ev.op.rules else []
  }

  /** Event b is the last before k that stores a whole list. */
  ghost predicate LastReset(evs: seq<Event>, b: nat, k: nat)
    requires k <= |evs|
  {
    b < k && Resets(evs[b]) && forall j :: b < j < k ==> !Resets(evs[j])
  }

  lemma SurvivesMore(evs: seq<Event>, rule: Rule, from: nat, k: nat)
    requires from <= k < |evs|
    ensures Survives(evs, rule, from, k + 1) <==> Survives(evs, rule, from, k) && !Drops(evs[k], rule)
  {
    hide Drops;
  }

  /** The rules of a list that the event leaves. */
  function Undropped(rules: seq<Rule>, ev: Event): seq<Rule> {
    if rules == [] then []
    else (if Drops(ev, rules[0]) then [] else [rules[0]]) + Undropped(rules[1..], ev)
  }

  lemma {:induction false} UndroppedAppend(a: seq<Rule>, b: seq<Rule>, ev: Event)
    ensures Undropped(a + b, ev) == Undropped(a, ev) + Undropped(b, ev)
    decreases |a|
  {
    hide Drops;
    if a == [] {
      assert a + b == b;
    } else {
      assert (a + b)[1..] == a[1..] + b;
      UndroppedAppend(a[1..], b, ev);
    }
  }

  lemma {:induction false} SurvivingMore(evs: seq<Event>, rules: seq<Rule>, from: nat, k: nat)
    requires from <= k < |evs|
    ensures Surviving(evs, rules, from, k + 1) == Undropped(Surviving(evs, rules, from, k), evs[k])
    decreases |rules|
  {
    hide Drops, Survives;
    if rules != [] {
      SurvivesMore(evs, rules[0], from, k);
      SurvivingMore(evs, rules[1..], from, k);
      var head := if Survives(evs, rules[0], from, k) then [rules[0]] else [];
      UndroppedAppend(head, Surviving(evs, rules[1..], from, k), evs[k]);
    }
  }

  lemma {:induction false} AppendedMore(evs: seq<Event>, from: nat, k: nat)
    requires from <= k < |evs|
    ensures Appended(evs, from, k + 1)
            == Undropped(Appended(evs, from, k), evs[k])
               + AppendedBy(evs[k])
    decreases k - from
  {
    hide Drops, Surviving, Undropped, AppendedBy;
    var head := AppendedBy(evs[from]);
    if from == k {
      SurvivingAll(evs, head, k + 1);
      UndroppedNone(evs[k]);
      assert Appended(evs, k + 1, k + 1) == [] && head + [] == [] + head;
    } else {
      SurvivingMore(evs, head, from + 1, k);
      AppendedMore(evs, from + 1, k);
      UndroppedAppend(Surviving(evs, head, from + 1, k), Appended(evs, from + 1, k), evs[k]);
    }
  }

  lemma UndroppedNone(ev: Event)
    ensures Undropped([], ev) == []
  {
  }

  lemma {:induction false} RemoveUndrops(rules: seq<Rule>, ev: Event)
    requires !Resets(ev)
    ensures ev.Call? && ev.op.RemoveRules? ==> Change(rules, ev.op) == Undropped(rules, ev)
    ensures !(ev.Call? && ev.op.RemoveRules?) ==> Undropped(rules, ev) == rules
    decreases |rules|
  {
    hide TrimSpace;
    if rules != [] { RemoveUndrops(rules[1..], ev); }
  }

  /** How an event that stores no whole list changes the stored rules. */
  lemma StepStores(s: State, ev: Event)
    requires Enabled(s, ev) && !Resets(ev)
    ensures Next(s, ev).sh.rules
            == Undropped(s.sh.rules, ev) + AppendedBy(ev)
  {
    hide RoutePatterns, NonBlank, TrimSpace;
    RemoveUndrops(s.sh.rules, ev);
  }

  lemma ResetStores(s: State, ev: Event)
    requires Enabled(s, ev) && Resets(ev)
    ensures Next(s, ev).sh.rules == ResetTo(ev)
  {
    hide NonBlank;
  }

  lemma {:induction false} SurvivingAll(evs: seq<Event>, rules: seq<Rule>, k: nat)
    requires k <= |evs|
    ensures Surviving(evs, rules, k, k) == rules
    decreases |rules|
  {
    hide Drops;
    if rules != [] { SurvivingAll(evs, rules[1..], k); }
  }

  /** One more event leaves of given and appended rules what it does not drop, and may append one. */
  lemma StoresMore(evs: seq<Event>, given: seq<Rule>, from: nat, j: nat)
    requires from <= j < |evs|
    ensures Surviving(evs, given, from, j + 1) + Appended(evs, from, j + 1)
            == Undropped(Surviving(evs, given, from, j) + Appended(evs, from, j), evs[j])
               + AppendedBy(evs[j])
  {
    hide Surviving, Appended, Undropped;
    SurvivingMore(evs, given, from, j);
    AppendedMore(evs, from, j);
    UndroppedAppend(Surviving(evs, given, from, j), Appended(evs, from, j), evs[j]);
  }

  lemma LastResetBefore(evs: seq<Event>, b: nat, j: nat)
    requires j < |evs| && !Resets(evs[j]) && LastReset(evs, b, j + 1)
    ensures LastReset(evs, b, j)
  {
    hide Resets;
    assert b != j;
  }

  /** Over every run, the rules stored are those of the last set call, if no removal of the tab came later,
      and behind them those appended since, each unless a remove call since then dropped it. */
  lemma {:induction false} RunStores(sts: seq<State>, evs: seq<Event>, k: nat)
    requires Run(sts, evs) && k <= |evs|
    ensures forall b: nat :: b < k && LastReset(evs, b, k) ==>
              sts[k].sh.rules == Surviving(evs, ResetTo(evs[b]), b + 1, k) + Appended(evs, b + 1, k)
    ensures (forall j :: 0 <= j < k ==> !Resets(evs[j])) ==> sts[k].sh.rules == Appended(evs, 0, k)
    decreases k
  {
    hide Next, Enabled, Resets, Drops, Surviving, Appended, Undropped, ResetTo, LastReset;
    if k == 0 {
      AppendedNone(evs, 0);
    } else {
      var j := k - 1;
      RunStores(sts, evs, j);
      if Resets(evs[j]) {
        ResetStores(sts[j], evs[j]);
        SurvivingAll(evs, ResetTo(evs[j]), k);
        AppendedNone(evs, k);
        forall b: nat | LastReset(evs, b, k) ensures b == j { OneReset(evs, b, j); }
      } else {
        StepStores(sts[j], evs[j]);
        NoneGiven(evs, 0, j);
        StoresMore(evs, [], 0, j);
        NoneGiven(evs, 0, k);
        forall b: nat | b < k && LastReset(evs, b, k)
          ensures sts[k].sh.rules == Surviving(evs, ResetTo(evs[b]), b + 1, k) + Appended(evs, b + 1, k)
        {
          LastResetBefore(evs, b, j);
          ResetIsBefore(evs, b, j);
          StoresMore(evs, ResetTo(evs[b]), b + 1, j);
        }
      }
    }
  }

  lemma ResetIsBefore(evs: seq<Event>, b: nat, k: nat)
    requires k <= |evs| && LastReset(evs, b, k)
    ensures b < k
  {
  }

  lemma OneReset(evs: seq<Event>, b: nat, j: nat)
    requires j < |evs| && Resets(evs[j]) && LastReset(evs, b, j + 1)
    ensures b == j
  {
    hide Resets;
  }

  lemma NoneGiven(evs: seq<Event>, from: nat, k: nat)
    requires from <= k <= |evs|
    ensures Surviving(evs, [], from, k) == [] && [] + Appended(evs, from, k) == Appended(evs, from, k)
  {
    hide Appended;
  }

  lemma AppendedNone(evs: seq<Event>, k: nat)
    requires k <= |evs|
    ensures Appended(evs, k, k) == []
  {
  }

  // ---- Workers ------------------------------------------------------------------------------------

  /** A worker is made only while rules are stored, by a call whose snapshot is of the current generation, when none
      is mapped; it is then the mapped one. */
  lemma WorkerMadeForRules(s: State, ev: Event)
    requires Enabled(s, ev) && |Next(s, ev).sh.workers| != |s.sh.workers|
    ensures s.sh.rules != [] && s.sh.mapped.None? && Next(s, ev).sh.mapped == Some(|s.sh.workers|)
    ensures ev.Step? && s.threads[ev.thread].Snapped? && s.threads[ev.thread].gen == s.sh.gen
  {
    hide RoutePatterns, Change;
  }

  /** The two last steps of a cancelled worker's goroutine stop its listening: the first takes the listener's
      cancel function, the second calls it. */
  lemma DyingWorkerStops(s: State, w: nat)
    requires SharedLinks(s.sh) && Enabled(s, LoopStep(w)) && s.sh.workers[w].loop.Looping?
    ensures var n := Next(s, LoopStep(w));
            && !n.sh.workers[w].listening && n.sh.workers[w].stop.None? && Enabled(n, LoopStep(w))
            && n.threads == s.threads
            && var e := Next(n, LoopStep(w));
               && e.sh.workers[w].loop == Exited
               && (s.sh.workers[w].stop.Some? ==>
                     var l := s.sh.workers[w].stop.value; l < |e.sh.listeners| && e.sh.listeners[l].cancelled)
  {
    assert WorkerLinks(s.sh, w);
  }

  // ---- Every call ends ----------------------------------------------------------------------------

  /** Steps a thread still has to take at most. */
  function StepsLeft(pc: Pc): nat {
    match pc
    case Changed => 12
    case Holding => 11
    case Snapped(_, _) => 10
    case Ensured(_, _, _) => 9
    case Checked(_, _, _) => 8
    case Armed(_, _, _, _) => 7
    case Attaching(_, _, _, _) => 6
    case Attached(_, _, _, _) => 5
    case Rejoining(_, _, _) => 5
    case FetchOff(_) => 4
    case StopOff(_, _) => 3
    case Abort(_, _) => 3
    case Cancelling(_, _) => 2
    case Started(_, _) => 2
    case Finishing => 1
    case ClearStop(_) => 3
    case ClearCancelling(_, _) => 2
    case ClearKill(_) => 1
  }

  /** Every step of a thread brings it nearer its end, and only a call waiting for the mutex can be kept from
      stepping, by another call that is not. */
  lemma EveryCallEnds(s: State, t: nat)
    requires MutexRight(s) && t in s.threads
    ensures Enabled(s, Step(t)) ==>
              var n := Next(s, Step(t)); t in n.threads ==> StepsLeft(n.threads[t]) < StepsLeft(s.threads[t])
    ensures !Enabled(s, Step(t)) ==>
              s.threads[t].Changed? && s.sh.mu.Some? && s.sh.mu.value in s.threads && Enabled(s, Step(s.sh.mu.value))
  {
    hide RoutePatterns;
  }
}
