/** The worker that resolves paused requests: listener callbacks append to its queue and signal a
    one-slot channel; one goroutine drains the queue and parks on that channel. */
module RouteWorker {
  import opened Bytes
  import opened Wildcard

  /** `answered` marks a pause in the response stage. */
  datatype Request = Request(id: nat, url: Str, answered: bool)

  datatype Resolution = Continue | Fail | Fulfil(status: int, contentType: Str, body: Str)

  const JSON_TYPE: Str :=
    [97, 112, 112, 108, 105, 99, 97, 116, 105, 111, 110, 47, 106, 115, 111, 110]

  function Resolve(rules: seq<Rule>, req: Request, urlMatch: (Str, Str) -> bool): Resolution {
    if req.answered then Continue
    else
      match FirstMatch(rules, req.url, urlMatch)
      case None => Continue
      case Some(rule) =>
        if rule.abort then Fail
        else
          var ct := TrimSpace(rule.contentType);
          Fulfil(if rule.status <= 0 then 200 else rule.status,
                 if ct == [] then JSON_TYPE else ct,
                 rule.mockBody)
  }

  /** Rule i is the first of the rules that matches. */
  ghost predicate FirstHit(rules: seq<Rule>, url: Str, urlMatch: (Str, Str) -> bool, i: nat) {
    && i < |rules| && urlMatch(rules[i].urlPattern, url)
    && forall j :: 0 <= j < i ==> !urlMatch(rules[j].urlPattern, url)
  }

  /** What a paused request must become under these rules: it continues when it pauses in the response stage
      or no rule matches; otherwise its first matching rule either fails it or fulfils it with the rule's
      body, its status if positive and else 200, and its content type, trimmed, or that of JSON. */
  ghost predicate Decided(rules: seq<Rule>, req: Request, res: Resolution, urlMatch: (Str, Str) -> bool) {
    && (res.Continue? <==>
          req.answered || forall i :: 0 <= i < |rules| ==> !urlMatch(rules[i].urlPattern, req.url))
    && (res.Fail? <==>
          !req.answered && exists i: nat :: FirstHit(rules, req.url, urlMatch, i) && rules[i].abort)
    && (res.Fulfil? ==>
          !req.answered && exists i: nat :: FirstHit(rules, req.url, urlMatch, i) && Mocks(rules[i], res))
  }

  ghost predicate Mocks(rule: Rule, res: Resolution) {
    && res.Fulfil? && !rule.abort && res.body == rule.mockBody
    && (rule.status > 0 ==> res.status == rule.status) && (rule.status <= 0 ==> res.status == 200)
    && (TrimSpace(rule.contentType) != [] ==> res.contentType == TrimSpace(rule.contentType))
    && (TrimSpace(rule.contentType) == [] ==> IsText(res.contentType, "application/json"))
  }

  /** The bytes spell the text. */
  ghost predicate IsText(s: Str, text: string) {
    |s| == |text| && forall i :: 0 <= i < |s| ==> s[i] as int == text[i] as int
  }

  lemma {:induction false} FirstMatchHits(rules: seq<Rule>, url: Str, urlMatch: (Str, Str) -> bool)
    returns (i: nat)
    ensures FirstMatch(rules, url, urlMatch).Some? ==>
              FirstHit(rules, url, urlMatch, i) && FirstMatch(rules, url, urlMatch) == Some(rules[i])
    ensures FirstMatch(rules, url, urlMatch).None? ==>
              forall j :: 0 <= j < |rules| ==> !urlMatch(rules[j].urlPattern, url)
  {
    i := 0;
    if rules != [] && !urlMatch(rules[0].urlPattern, url) {
      var k := FirstMatchHits(rules[1..], url, urlMatch);
      i := k + 1;
      assert forall j :: 1 <= j < |rules| ==> rules[j] == rules[1..][j - 1];
    }
  }

  lemma OneFirstHit(rules: seq<Rule>, url: Str, urlMatch: (Str, Str) -> bool, i: nat, j: nat)
    requires FirstHit(rules, url, urlMatch, i) && FirstHit(rules, url, urlMatch, j)
    ensures i == j
  {
  }

  lemma ResolveDecides(rules: seq<Rule>, req: Request, urlMatch: (Str, Str) -> bool)
    ensures Decided(rules, req, Resolve(rules, req, urlMatch), urlMatch)
  {
    hide TrimSpace, FirstMatch;
    var i := FirstMatchHits(rules, req.url, urlMatch);
    if FirstMatch(rules, req.url, urlMatch).Some? {
      forall j: nat | FirstHit(rules, req.url, urlMatch, j) ensures j == i {
        OneFirstHit(rules, req.url, urlMatch, i, j);
      }
    }
  }

  /** Where the worker goroutine is. `last` marks the drain after its context ended. */
  datatype Pc =
    | Dispatching(last: bool)
    | Popped(req: Request, last: bool)
    | Ruled(req: Request, rules: seq<Rule>, last: bool)
    | Parked
    | Exited

  /** `signalling` holds the callbacks between their append and their signal. `arrived` and `resolved`
      record what the queue was given and what became of it; `changed` counts the requests that had
      arrived when the rules last changed. */
  datatype State = State(
    queue: seq<Request>, token: bool, cancelled: bool, pc: Pc, signalling: set<nat>, rules: seq<Rule>,
    arrived: seq<Request>, resolved: seq<(Request, Resolution)>, changed: nat)

  const Init := State([], false, false, Dispatching(false), {}, [], [], [], 0)

  datatype Event =
    | Arrive(callback: nat, req: Request)
    | Signal(callback: nat)
    | ChangeRules(rules: seq<Rule>)
    | Cancel
    | Work
    | Wake
    | Done

  predicate Enabled(s: State, ev: Event) {
    match ev
    case Arrive(t, _) => t !in s.signalling
    case Signal(t) => t in s.signalling
    case Work => s.pc.Dispatching? || s.pc.Popped? || s.pc.Ruled?
    case Wake => s.pc.Parked? && s.token
    case Done => s.pc.Parked? && s.cancelled
    case _ => true
  }

  function Next(s: State, ev: Event, urlMatch: (Str, Str) -> bool): State
    requires Enabled(s, ev)
  {
    match ev
    case Arrive(t, req) =>
      s.(queue := s.queue + [req], arrived := s.arrived + [req], signalling := s.signalling + {t})
    case Signal(t) => s.(token := true, signalling := s.signalling - {t})
    case ChangeRules(rules) => s.(rules := rules, changed := |s.arrived|)
    case Cancel => s.(cancelled := true)
    case Wake => s.(token := false, pc := Dispatching(false))
    case Done => s.(pc := Dispatching(true))
    case Work =>
      match s.pc
      case Dispatching(last) =>
        if s.queue == [] then s.(pc := if last then Exited else Parked)
        else s.(queue := s.queue[1..], pc := Popped(s.queue[0], last))
      case Popped(req, last) => s.(pc := Ruled(req, s.rules, last))
      case Ruled(req, rules, last) =>
        s.(resolved := s.resolved + [(req, Resolve(rules, req, urlMatch))], pc := Dispatching(last))
  }

  function Requests(rs: seq<(Request, Resolution)>): (q: seq<Request>)
    ensures |q| == |rs|
  {
    seq(|rs|, i requires 0 <= i < |rs| => rs[i].0)
  }

  function InHand(pc: Pc): seq<Request> {
    if pc.Popped? || pc.Ruled? then [pc.req] else []
  }

  ghost predicate Inv(s: State, urlMatch: (Str, Str) -> bool) {
    && s.arrived == Requests(s.resolved) + InHand(s.pc) + s.queue
    && (s.pc.Parked? && s.queue != [] ==> s.token || s.signalling != {})
    && s.changed <= |s.arrived|
    && (s.pc.Exited? || (!s.pc.Parked? && s.pc.last) ==> s.cancelled)
    && (s.pc.Ruled? && |s.resolved| >= s.changed ==> s.pc.rules == s.rules)
    && (forall i :: s.changed <= i < |s.resolved| ==>
          s.resolved[i].1 == Resolve(s.rules, s.resolved[i].0, urlMatch))
  }

  lemma StepKeepsInv(s: State, ev: Event, urlMatch: (Str, Str) -> bool)
    requires Inv(s, urlMatch) && Enabled(s, ev)
    ensures Inv(Next(s, ev, urlMatch), urlMatch)
  {
    if ev.Work? {
      WorkKeepsInv(s, urlMatch);
    } else if ev.Arrive? {
      var n := Next(s, ev, urlMatch);
      assert n.arrived == Requests(n.resolved) + InHand(n.pc) + n.queue;
      assert ev.callback in n.signalling;
    }
  }

  lemma WorkKeepsInv(s: State, urlMatch: (Str, Str) -> bool)
    requires Inv(s, urlMatch) && Enabled(s, Work)
    ensures Inv(Next(s, Work, urlMatch), urlMatch)
  {
    hide Resolve;
    var n := Next(s, Work, urlMatch);
    if s.pc.Ruled? {
      assert Requests(n.resolved) == Requests(s.resolved) + [s.pc.req];
    } else if s.pc.Dispatching? && s.queue != [] {
      assert s.queue == [s.queue[0]] + s.queue[1..];
    }
    assert n.arrived == Requests(n.resolved) + InHand(n.pc) + n.queue;
  }

  ghost predicate Run(sts: seq<State>, evs: seq<Event>, urlMatch: (Str, Str) -> bool) {
    && |sts| == |evs| + 1 && sts[0] == Init
    && forall i :: 0 <= i < |evs| ==> Enabled(sts[i], evs[i]) && sts[i + 1] == Next(sts[i], evs[i], urlMatch)
  }

  lemma {:induction false} RunKeepsInv(sts: seq<State>, evs: seq<Event>, urlMatch: (Str, Str) -> bool, k: nat)
    requires Run(sts, evs, urlMatch) && k <= |evs|
    ensures Inv(sts[k], urlMatch)
    decreases k
  {
    if k > 0 {
      RunKeepsInv(sts, evs, urlMatch, k - 1);
      StepKeepsInv(sts[k - 1], evs[k - 1], urlMatch);
    }
  }

  /** In every run: a parked worker with requests waiting has a wake token or a callback about to send
      one; requests are resolved in arrival order, each once, and those that arrive after the last rule
      change are decided by the rules it set. */
  lemma NoLostWakeup(sts: seq<State>, evs: seq<Event>, urlMatch: (Str, Str) -> bool, k: nat)
    requires Run(sts, evs, urlMatch) && k <= |evs|
    ensures var s := sts[k];
            && (s.pc.Parked? && s.queue != [] ==> s.token || s.signalling != {})
            && Requests(s.resolved) <= s.arrived
            && (s.pc.Parked? && s.queue == [] ==> Requests(s.resolved) == s.arrived)
            && forall i :: s.changed <= i < |s.resolved| ==>
                 s.resolved[i].0 == s.arrived[i] && Decided(s.rules, s.arrived[i], s.resolved[i].1, urlMatch)
  {
    hide Resolve, Decided;
    RunKeepsInv(sts, evs, urlMatch, k);
    var s := sts[k];
    assert forall i :: 0 <= i < |s.resolved| ==> Requests(s.resolved)[i] == s.arrived[i];
    forall i | s.changed <= i < |s.resolved| ensures Decided(s.rules, s.arrived[i], s.resolved[i].1, urlMatch) {
      ResolveDecides(s.rules, s.resolved[i].0, urlMatch);
    }
  }

  /** A worker exits only after a last look at an empty queue: all that had arrived by then is resolved. */
  lemma ExitsDrained(sts: seq<State>, evs: seq<Event>, urlMatch: (Str, Str) -> bool, j: nat)
    requires Run(sts, evs, urlMatch) && j < |evs| && !sts[j].pc.Exited? && sts[j + 1].pc.Exited?
    ensures sts[j + 1].queue == [] && Requests(sts[j + 1].resolved) == sts[j + 1].arrived && sts[j + 1].cancelled
  {
    hide Resolve;
    RunKeepsInv(sts, evs, urlMatch, j);
    RunKeepsInv(sts, evs, urlMatch, j + 1);
  }

  /** The requests whose callbacks ran in the first k events, in order. */
  function Arrivals(evs: seq<Event>, k: nat): seq<Request>
    requires k <= |evs|
  {
    if k == 0 then []
    else Arrivals(evs, k - 1) + if evs[k - 1].Arrive? then [evs[k - 1].req] else []
  }

  /** The rules set by the last rule change among the first k events. */
  function LastRules(evs: seq<Event>, k: nat): seq<Rule>
    requires k <= |evs|
  {
    if k == 0 then [] else if evs[k - 1].ChangeRules? then evs[k - 1].rules else LastRules(evs, k - 1)
  }

  /** How many requests had arrived by the last rule change among the first k events. */
  function EarlierArrivals(evs: seq<Event>, k: nat): nat
    requires k <= |evs|
  {
    if k == 0 then 0 else if evs[k - 1].ChangeRules? then |Arrivals(evs, k - 1)| else EarlierArrivals(evs, k - 1)
  }

  /** The rules the worker finds, its requests, the mark of the last change and its cancellation are those of the
      run's events. */
  lemma {:induction false} RunHistory(sts: seq<State>, evs: seq<Event>, urlMatch: (Str, Str) -> bool, k: nat)
    requires Run(sts, evs, urlMatch) && k <= |evs|
    ensures sts[k].arrived == Arrivals(evs, k) && sts[k].rules == LastRules(evs, k)
    ensures sts[k].changed == EarlierArrivals(evs, k)
    ensures sts[k].cancelled <==> exists j :: 0 <= j < k && evs[j].Cancel?
    decreases k
  {
    hide Next, Enabled;
    if k > 0 {
      var j := k - 1;
      RunHistory(sts, evs, urlMatch, j);
      StepHistory(sts[j], evs[j], urlMatch);
      hide Run, Arrivals;
      ArrivalsNext(evs, j);
    }
  }

  lemma ArrivalsNext(evs: seq<Event>, j: nat)
    requires j < |evs|
    ensures Arrivals(evs, j + 1) == Arrivals(evs, j) + if evs[j].Arrive? then [evs[j].req] else []
  {
  }

  lemma StepHistory(s: State, ev: Event, urlMatch: (Str, Str) -> bool)
    requires Enabled(s, ev)
    ensures var n := Next(s, ev, urlMatch);
            && n.arrived == s.arrived + (if ev.Arrive? then [ev.req] else [])
            && n.rules == (if ev.ChangeRules? then ev.rules else s.rules)
            && n.changed == (if ev.ChangeRules? then |s.arrived| else s.changed)
            && n.cancelled == (s.cancelled || ev.Cancel?)
  {
    hide Resolve;
  }

  /** At some moment before the k-th, after request i had arrived, rules were stored that decide it so. */
  ghost predicate DecidedBefore(
    sts: seq<State>, urlMatch: (Str, Str) -> bool, i: nat, res: (Request, Resolution), k: nat)
    requires k <= |sts|
  {
    exists j :: 0 <= j < k && |sts[j].arrived| > i && Decided(sts[j].rules, res.0, res.1, urlMatch)
  }

  ghost predicate StoredBefore(sts: seq<State>, rules: seq<Rule>, i: nat, k: nat)
    requires k <= |sts|
  {
    exists j :: 0 <= j < k && |sts[j].arrived| > i && sts[j].rules == rules
  }

  lemma StoredDecides(
    sts: seq<State>, urlMatch: (Str, Str) -> bool, rules: seq<Rule>, req: Request, i: nat, k: nat)
    requires k <= |sts| && StoredBefore(sts, rules, i, k)
    ensures DecidedBefore(sts, urlMatch, i, (req, Resolve(rules, req, urlMatch)), k)
  {
    hide Resolve, Decided;
    ResolveDecides(rules, req, urlMatch);
  }

  /** Every request, also one resolved across a rule change, was decided by rules in force at some moment
      between its arrival and its resolution. */
  lemma {:induction false} DecidedByRulesInForce(
    sts: seq<State>, evs: seq<Event>, urlMatch: (Str, Str) -> bool, k: nat)
    requires Run(sts, evs, urlMatch) && k <= |evs|
    ensures forall i :: 0 <= i < |sts[k].resolved| ==> DecidedBefore(sts, urlMatch, i, sts[k].resolved[i], k)
    ensures sts[k].pc.Ruled? ==> StoredBefore(sts, sts[k].pc.rules, |sts[k].resolved|, k)
    decreases k
  {
    hide Decided, Next, Enabled;
    if k > 0 {
      DecidedByRulesInForce(sts, evs, urlMatch, k - 1);
      RunKeepsInv(sts, evs, urlMatch, k - 1);
      var s, n := sts[k - 1], sts[k];
      StepDecides(s, evs[k - 1], urlMatch);
      if n.resolved != s.resolved { StoredDecides(sts, urlMatch, s.pc.rules, s.pc.req, |s.resolved|, k); }
    }
  }

  /** A step resolves at most the request in hand, with the rules snapshotted for it. */
  lemma StepDecides(s: State, ev: Event, urlMatch: (Str, Str) -> bool)
    requires Inv(s, urlMatch) && Enabled(s, ev)
    ensures var n := Next(s, ev, urlMatch);
            && (n.resolved != s.resolved ==>
                  s.pc.Ruled? && n.resolved == s.resolved + [(s.pc.req, Resolve(s.pc.rules, s.pc.req, urlMatch))]
                  && !n.pc.Ruled?)
            && (n.pc.Ruled? ==> n.resolved == s.resolved
                                && (if s.pc.Ruled? then n.pc.rules == s.pc.rules
                                    else n.pc.rules == s.rules && |s.arrived| > |s.resolved|))
  {
    hide Resolve;
  }

  // ---- Progress -------------------------------------------------------------

  /** The worker's own next step, when it has one. */
  function Own(s: State): Option<Event> {
    if s.pc.Exited? then None
    else if !s.pc.Parked? then Some(Work)
    else if s.token then Some(Wake)
    else if s.cancelled then Some(Done)
    else None
  }

  function Alone(s: State, n: nat, urlMatch: (Str, Str) -> bool): State
    decreases n
  {
    if n == 0 || Own(s).None? then s else Alone(Next(s, Own(s).value, urlMatch), n - 1, urlMatch)
  }

  function Weight(s: State): nat {
    6 * |s.queue| + (if s.token then 2 else 0) +
    match s.pc
    case Dispatching(last) => if last then 1 else 3
    case Popped(_, _) => 5
    case Ruled(_, _, _) => 4
    case Parked => 2
    case Exited => 0
  }

  /** Once the callbacks have signalled, the worker left to itself resolves everything that arrived, and then
      parks, or exits if its context has ended. */
  lemma {:induction false} Drains(s: State, urlMatch: (Str, Str) -> bool) returns (n: nat)
    requires Inv(s, urlMatch) && s.signalling == {} && !s.pc.Exited?
    ensures var e := Alone(s, n, urlMatch);
            && (if e.cancelled then e.pc.Exited? else e.pc.Parked?) && e.cancelled == s.cancelled
            && e.queue == [] && Requests(e.resolved) == s.arrived
    decreases Weight(s)
  {
    if Own(s).None? {
      n := 0;
    } else {
      var t := Next(s, Own(s).value, urlMatch);
      StepKeepsInv(s, Own(s).value, urlMatch);
      if t.pc.Exited? {
        n := 1;
        assert Alone(s, 1, urlMatch) == Alone(t, 0, urlMatch) == t;
      } else {
        var m := Drains(t, urlMatch);
        n := m + 1;
      }
    }
  }
}
