/** The observation pipeline of one tab: a listener reserves a sequence number and enqueues, a writer
    moves items into the ring of their kind, and clients poll with the cursor they were last given. */
module Observation {
  import opened Bytes
  import opened ObsRing

  datatype Kind = Network | Console | Errors

  /** A value for each kind. */
  datatype Each<T> = Each(network: T, console: T, errors: T) {
    function At(k: Kind): T {
      match k
      case Network => network
      case Console => console
      case Errors => errors
    }

    function With(k: Kind, v: T): Each<T> {
      match k
      case Network => this.(network := v)
      case Console => this.(console := v)
      case Errors => this.(errors := v)
    }
  }

  /** `data` is the marshalled payload; None when marshalling fails. */
  datatype Item = Item(kind: Kind, seqNo: nat, data: Option<Str>)

  /** The listener callback: it reserves, then publishes lastSeen, then enqueues. */
  datatype Listener = Idle | Reserved(item: Item) | Published(item: Item)

  datatype Writer = Waiting | Holding(item: Item)

  /** A client of one kind. `since` is its cursor and `ringDropped` the eviction count its last query
      read. The rest records what happened to it: `seen` pushes preceded that query, `got` are the
      positions of the pushes it was sent, and `totalThen` was the true loss at the query. */
  datatype Client = Client(
    kind: Kind, since: nat, received: seq<Entry>, ringDropped: nat,
    seen: nat, got: seq<nat>, totalThen: nat)

  /** `reserved`, `pushed` and `cleared` record the run: numbers reserved, entries pushed, and how many
      pushes preceded the last clear. */
  datatype State = State(
    queueCap: nat, caps: Each<int>, counter: nat, queue: seq<Item>, listener: Listener, writer: Writer,
    rings: Each<Ring>, lastSeen: Each<nat>, dropped: Each<nat>, clients: map<nat, Client>,
    reserved: Each<nat>, pushed: Each<seq<Entry>>, cleared: Each<nat>, neverCleared: bool)

  function Start(queueCap: nat, caps: Each<int>, seed: nat): State {
    State(queueCap, caps, seed, [], Idle, Waiting,
          Each(NewRing(caps.network), NewRing(caps.console), NewRing(caps.errors)),
          Each(0, 0, 0), Each(0, 0, 0), map[], Each(0, 0, 0), Each([], [], []), Each(0, 0, 0), true)
  }

  datatype Event =
    | Tick                                      // another caller reserves a number
    | Listen(kind: Kind, data: Option<Str>)
    | Publish
    | Enqueue
    | Take
    | Write
    | Clear(kind: Kind)
    | Join(client: nat, kind: Kind)
    | Query(client: nat)

  predicate Enabled(s: State, ev: Event) {
    match ev
    case Listen(_, _) => s.listener.Idle?
    case Publish => s.listener.Reserved?
    case Enqueue => s.listener.Published?
    case Take => s.writer.Waiting? && s.queue != []
    case Write => s.writer.Holding?
    case Join(c, _) => c !in s.clients
    case Query(c) => c in s.clients
    case _ => true
  }

  function Total(s: State, k: Kind): nat {
    s.rings.At(k).dropped + s.dropped.At(k)
  }

  /** First position among the pushes that the ring still holds. */
  function Oldest(s: State, k: Kind): int {
    |s.pushed.At(k)| - |s.rings.At(k).q|
  }

  function Range(a: int, b: int): seq<nat>
    requires 0 <= a
    decreases b - a
  {
    if a >= b then [] else [a] + Range(a + 1, b)
  }

  function Next(s: State, ev: Event): State
    requires Enabled(s, ev)
  {
    match ev
    case Tick => s.(counter := s.counter + 1)
    case Listen(k, data) =>
      s.(counter := s.counter + 1, reserved := s.reserved.With(k, s.reserved.At(k) + 1),
         listener := Reserved(Item(k, s.counter + 1, data)))
    case Publish =>
      var item := s.listener.item;
      var seen := s.lastSeen.At(item.kind);
      s.(lastSeen := s.lastSeen.With(item.kind, if item.seqNo > seen then item.seqNo else seen),
         listener := Published(item))
    case Enqueue =>
      var item := s.listener.item;
      if |s.queue| < s.queueCap then s.(queue := s.queue + [item], listener := Idle)
      else s.(dropped := s.dropped.With(item.kind, s.dropped.At(item.kind) + 1), listener := Idle)
    case Take => s.(queue := s.queue[1..], writer := Holding(s.queue[0]))
    case Write =>
      var item := s.writer.item;
      var k := item.kind;
      if item.data.None? then s.(dropped := s.dropped.With(k, s.dropped.At(k) + 1), writer := Waiting)
      else
        var e := Entry(item.seqNo, item.data.value);
        s.(rings := s.rings.With(k, PushTo(s.rings.At(k), e)),
           pushed := s.pushed.With(k, s.pushed.At(k) + [e]), writer := Waiting)
    case Clear(k) =>
      s.(rings := s.rings.With(k, NewRing(s.caps.At(k))),
         cleared := s.cleared.With(k, |s.pushed.At(k)|), neverCleared := false)
    case Join(c, k) => s.(clients := s.clients[c := Client(k, 0, [], 0, 0, [], 0)])
    case Query(c) => s.(clients := s.clients[c := Polled(s, s.clients[c])])
  }

  function First(s: State, cl: Client): int {
    if Oldest(s, cl.kind) > cl.seen then Oldest(s, cl.kind) else cl.seen
  }

  /** The client after a query: what the ring holds past its cursor, and the cursor the ring gives. */
  function Polled(s: State, cl: Client): Client {
    var ring := s.rings.At(cl.kind);
    cl.(since := Cursor(ring.q, cl.since), received := cl.received + After(ring.q, cl.since),
        ringDropped := ring.dropped, seen := |s.pushed.At(cl.kind)|,
        got := cl.got + Range(First(s, cl), |s.pushed.At(cl.kind)|), totalThen := Total(s, cl.kind))
  }

  /** The dropped count the client is told: evictions as of its query, losses as of now. */
  function Reported(s: State, c: nat): nat
    requires c in s.clients
  {
    s.clients[c].ringDropped + s.dropped.At(s.clients[c].kind)
  }

  // ---- Invariants -------------------------------------------------------------

  function InWriter(w: Writer): seq<Item> {
    if w.Holding? then [w.item] else []
  }

  function InListener(l: Listener): seq<Item> {
    if l.Idle? then [] else [l.item]
  }

  /** Items reserved and not yet pushed or dropped, oldest first. */
  function Flight(s: State): seq<Item> {
    InWriter(s.writer) + s.queue + InListener(s.listener)
  }

  function Count(items: seq<Item>, k: Kind): nat {
    if items == [] then 0 else (if items[0].kind == k then 1 else 0) + Count(items[1..], k)
  }

  lemma {:induction false} CountAppend(a: seq<Item>, b: seq<Item>, k: Kind)
    ensures Count(a + b, k) == Count(a, k) + Count(b, k)
    decreases |a|
  {
    if a == [] {
      assert a + b == b;
    } else {
      assert (a + b)[1..] == a[1..] + b;
      CountAppend(a[1..], b, k);
    }
  }

  /** Numbers grow along the pipeline: pushed entries first, then items in flight, then the counter. */
  ghost predicate Rising(f: seq<Item>, pushed: Each<seq<Entry>>, counter: nat) {
    && (forall i, j :: 0 <= i < j < |f| ==> f[i].seqNo < f[j].seqNo)
    && (forall i :: 0 <= i < |f| ==> 0 < f[i].seqNo <= counter)
    && (forall k :: Increasing(pushed.At(k)))
    && (forall k, i :: 0 <= i < |pushed.At(k)| ==> 0 < pushed.At(k)[i].seqNo <= counter)
    && (forall k, i, j :: 0 <= i < |pushed.At(k)| && 0 <= j < |f| ==> pushed.At(k)[i].seqNo < f[j].seqNo)
  }

  ghost predicate Ordered(s: State) {
    Rising(Flight(s), s.pushed, s.counter)
  }

  /** The ring is what the pushes since the last clear leave of an empty one. */
  ghost predicate RingRight(s: State, k: Kind) {
    && s.cleared.At(k) <= |s.pushed.At(k)|
    && s.rings.At(k) == PushAll(NewRing(s.caps.At(k)), s.pushed.At(k)[s.cleared.At(k)..])
    && (s.neverCleared ==> s.cleared.At(k) == 0)
  }

  ghost predicate RingsRight(s: State) {
    forall k :: RingRight(s, k)
  }

  /** Every number reserved for a kind is in flight, pushed or counted as dropped. */
  ghost predicate Conserved(s: State) {
    forall k :: s.reserved.At(k) == Count(Flight(s), k) + |s.pushed.At(k)| + s.dropped.At(k)
  }

  ghost predicate ClientRight(s: State, cl: Client) {
    var p := s.pushed.At(cl.kind);
    && cl.seen <= |p|
    && (forall i :: 0 <= i < cl.seen && i >= Oldest(s, cl.kind) ==> p[i].seqNo <= cl.since)
    && (cl.since == 0 || exists i :: 0 <= i < cl.seen && p[i].seqNo == cl.since)
    && |cl.received| == |cl.got|
    && (forall i, j :: 0 <= i < j < |cl.got| ==> cl.got[i] < cl.got[j])
    && (forall i :: 0 <= i < |cl.got| ==> cl.got[i] < cl.seen && cl.received[i] == p[cl.got[i]])
    && (s.neverCleared ==>
          cl.ringDropped <= s.rings.At(cl.kind).dropped
          && cl.totalThen <= cl.ringDropped + s.dropped.At(cl.kind))
  }

  ghost predicate ClientsRight(s: State) {
    forall c :: c in s.clients ==> ClientRight(s, s.clients[c])
  }

  /** lastSeen runs ahead: it covers everything published, pushed or not. */
  ghost predicate Ahead(s: State) {
    && (forall i :: 0 <= i < |s.queue| ==> s.queue[i].seqNo <= s.lastSeen.At(s.queue[i].kind))
    && (s.writer.Holding? ==> s.writer.item.seqNo <= s.lastSeen.At(s.writer.item.kind))
    && (s.listener.Published? ==> s.listener.item.seqNo <= s.lastSeen.At(s.listener.item.kind))
  }

  ghost predicate Inv(s: State) {
    Ordered(s) && RingsRight(s) && Conserved(s) && ClientsRight(s) && Ahead(s)
  }

  lemma RingIsSuffix(s: State, k: Kind)
    requires RingsRight(s)
    ensures var p := s.pushed.At(k); var o := Oldest(s, k);
            0 <= s.cleared.At(k) <= o <= |p| && s.rings.At(k).q == p[o..]
  {
    assert RingRight(s, k);
    var es := s.pushed.At(k)[s.cleared.At(k)..];
    RingHoldsLast(s.caps.At(k), es);
    var p, o := s.pushed.At(k), Oldest(s, k);
    assert p[o..] == es[o - s.cleared.At(k)..];
  }

  // ---- Every step keeps the invariant ------------------------------------------

  lemma FlightListen(s: State, k: Kind, data: Option<Str>)
    requires s.listener.Idle?
    ensures Flight(Next(s, Listen(k, data))) == Flight(s) + [Item(k, s.counter + 1, data)]
  {
  }

  lemma FlightEnqueue(s: State)
    requires s.listener.Published?
    ensures var f := Flight(s);
            && f != [] && f[|f| - 1] == s.listener.item
            && Flight(Next(s, Enqueue)) == if |s.queue| < s.queueCap then f else f[..|f| - 1]
  {
    assert Flight(s) == InWriter(s.writer) + (s.queue + [s.listener.item]) + [];
    assert InWriter(s.writer) + s.queue + [] == Flight(s)[..|Flight(s)| - 1];
  }

  lemma FlightTake(s: State)
    requires s.writer.Waiting? && s.queue != []
    ensures Flight(Next(s, Take)) == Flight(s)
  {
    assert s.queue == [s.queue[0]] + s.queue[1..];
  }

  lemma FlightWrite(s: State)
    requires s.writer.Holding?
    ensures Flight(s) != [] && Flight(s)[0] == s.writer.item && Flight(Next(s, Write)) == Flight(s)[1..]
  {
  }

  /** Items leave the flight only by the listener dropping the newest or the writer finishing the oldest. */
  predicate Moves(ev: Event) {
    ev.Listen? || ev.Enqueue? || ev.Take? || ev.Write?
  }

  lemma FlightSame(s: State, ev: Event)
    requires Enabled(s, ev) && !Moves(ev)
    ensures Flight(Next(s, ev)) == Flight(s)
  {
    hide Polled;
  }

  lemma RisingPush(f: seq<Item>, pushed: Each<seq<Entry>>, counter: nat, data: Str)
    requires Rising(f, pushed, counter) && f != []
    ensures var k := f[0].kind;
            Rising(f[1..], pushed.With(k, pushed.At(k) + [Entry(f[0].seqNo, data)]), counter)
  {
    var k0 := f[0].kind;
    var after := pushed.With(k0, pushed.At(k0) + [Entry(f[0].seqNo, data)]);
    assert forall j :: 0 <= j < |f[1..]| ==> f[1..][j] == f[j + 1];
    forall k
      ensures Increasing(after.At(k))
      ensures forall i :: 0 <= i < |after.At(k)| ==> 0 < after.At(k)[i].seqNo <= counter
      ensures forall i, j :: 0 <= i < |after.At(k)| && 0 <= j < |f[1..]| ==> after.At(k)[i].seqNo < f[1..][j].seqNo
    {
      assert Increasing(pushed.At(k));
      var p := pushed.At(k);
      assert after.At(k) == if k == k0 then p + [Entry(f[0].seqNo, data)] else p;
      forall i | 0 <= i < |after.At(k)| ensures 0 < after.At(k)[i].seqNo <= f[0].seqNo {
        assert i < |p| ==> after.At(k)[i] == p[i];
      }
    }
  }

  lemma RisingLater(f: seq<Item>, pushed: Each<seq<Entry>>, counter: nat)
    requires Rising(f, pushed, counter)
    ensures Rising(f, pushed, counter + 1)
  {
    hide Increasing;
  }

  lemma RisingListen(f: seq<Item>, pushed: Each<seq<Entry>>, counter: nat, item: Item)
    requires Rising(f, pushed, counter) && item.seqNo == counter + 1
    ensures Rising(f + [item], pushed, counter + 1)
  {
    hide Increasing;
  }

  lemma RisingPart(f: seq<Item>, pushed: Each<seq<Entry>>, counter: nat, i: nat, j: nat)
    requires Rising(f, pushed, counter) && i <= j <= |f|
    ensures Rising(f[i..j], pushed, counter)
  {
    hide Increasing;
  }

  lemma StepOrdered(s: State, ev: Event)
    requires Ordered(s) && Enabled(s, ev)
    ensures Ordered(Next(s, ev))
  {
    hide Polled, PushTo, Flight, Rising;
    var f := Flight(s);
    RisingLater(f, s.pushed, s.counter);
    match ev
    case Listen(k, data) =>
      FlightListen(s, k, data);
      RisingListen(f, s.pushed, s.counter, Item(k, s.counter + 1, data));
    case Enqueue =>
      FlightEnqueue(s);
      RisingPart(f, s.pushed, s.counter, 0, |f| - 1);
    case Take => FlightTake(s);
    case Write =>
      FlightWrite(s);
      assert f[1..|f|] == f[1..];
      RisingPart(f, s.pushed, s.counter, 1, |f|);
      if s.writer.item.data.Some? {
        RisingPush(Flight(s), s.pushed, s.counter, s.writer.item.data.value);
      }
    case _ => FlightSame(s, ev);
  }

  lemma StepConserved(s: State, ev: Event)
    requires Conserved(s) && Enabled(s, ev)
    ensures Conserved(Next(s, ev))
  {
    hide Polled, PushTo, Flight, Count;
    var n := Next(s, ev);
    forall k ensures n.reserved.At(k) == Count(Flight(n), k) + |n.pushed.At(k)| + n.dropped.At(k) {
      CountStep(s, ev, k);
    }
  }

  /** How a step changes the items of a kind in flight. */
  lemma CountStep(s: State, ev: Event, k: Kind)
    requires Enabled(s, ev)
    ensures var before, after := Count(Flight(s), k), Count(Flight(Next(s, ev)), k);
            match ev
            case Listen(k0, _) => after == before + if k0 == k then 1 else 0
            case Enqueue =>
              after == before - if |s.queue| >= s.queueCap && s.listener.item.kind == k then 1 else 0
            case Write => after == before - if s.writer.item.kind == k then 1 else 0
            case _ => after == before
  {
    hide Polled, PushTo, Flight;
    var f := Flight(s);
    match ev
    case Listen(k0, data) =>
      FlightListen(s, k0, data);
      CountAppend(f, [Item(k0, s.counter + 1, data)], k);
    case Enqueue =>
      FlightEnqueue(s);
      CountAppend(f[..|f| - 1], [s.listener.item], k);
      assert f[..|f| - 1] + [s.listener.item] == f;
    case Take => FlightTake(s);
    case Write => FlightWrite(s);
    case _ => FlightSame(s, ev);
  }

  lemma StepRings(s: State, ev: Event)
    requires RingsRight(s) && Enabled(s, ev)
    ensures RingsRight(Next(s, ev))
  {
    hide Next, Enabled, RingRight;
    forall k ensures RingRight(Next(s, ev), k) {
      if ev.Write? {
        WriteRing(s, k);
      } else {
        OtherRing(s, ev, k);
      }
    }
  }

  lemma WriteRing(s: State, k: Kind)
    requires RingRight(s, k) && Enabled(s, Write)
    ensures RingRight(Next(s, Write), k)
  {
    hide PushTo, PushAll;
    if s.writer.item.kind == k && s.writer.item.data.Some? {
      var e := Entry(s.writer.item.seqNo, s.writer.item.data.value);
      var p, c := s.pushed.At(k), s.cleared.At(k);
      PushAllAppend(NewRing(s.caps.At(k)), p[c..], e);
      assert (p + [e])[c..] == p[c..] + [e];
    }
  }

  lemma OtherRing(s: State, ev: Event, k: Kind)
    requires RingRight(s, k) && Enabled(s, ev) && !ev.Write?
    ensures RingRight(Next(s, ev), k)
  {
    hide Polled, PushTo;
    if ev == Clear(k) { assert s.pushed.At(k)[|s.pushed.At(k)|..] == []; }
  }

  lemma StepAhead(s: State, ev: Event)
    requires Ahead(s) && Enabled(s, ev)
    ensures Ahead(Next(s, ev))
  {
  }

  lemma RangeIs(a: int, b: int)
    requires 0 <= a
    ensures var r := Range(a, b);
            |r| == (if a < b then b - a else 0) && forall i :: 0 <= i < |r| ==> r[i] == a + i
    decreases b - a
  {
    if a < b {
      RangeIs(a + 1, b);
    }
  }

  lemma QueryEntries(s: State, cl: Client)
    requires Ordered(s) && RingsRight(s) && ClientRight(s, cl)
    ensures var p := s.pushed.At(cl.kind); var first := First(s, cl); var q := s.rings.At(cl.kind).q;
            && 0 <= first <= |p|
            && After(q, cl.since) == p[first..]
            && Cursor(q, cl.since) == if first < |p| then p[|p| - 1].seqNo else cl.since
  {
    hide PushAll, After, Cursor, Flight;
    RingIsSuffix(s, cl.kind);
    assert Increasing(s.pushed.At(cl.kind));
    SuffixQuery(s.pushed.At(cl.kind), Oldest(s, cl.kind), cl.seen, cl.since);
  }

  lemma SuffixIncreasing(p: seq<Entry>, o: nat)
    requires Increasing(p) && o <= |p|
    ensures Increasing(p[o..])
  {
  }

  lemma SuffixSplit(p: seq<Entry>, o: nat, first: nat, since: nat)
    requires o <= first <= |p|
    requires forall i :: o <= i < first ==> p[i].seqNo <= since
    requires forall i :: first <= i < |p| ==> p[i].seqNo > since
    ensures var q := p[o..];
            && (forall i :: 0 <= i < first - o ==> q[i].seqNo <= since)
            && (forall i :: first - o <= i < |q| ==> q[i].seqNo > since)
            && q[first - o..] == p[first..]
  {
  }

  lemma BeyondCursor(p: seq<Entry>, seen: nat, since: nat)
    requires Increasing(p) && seen <= |p| && forall i :: 0 <= i < |p| ==> p[i].seqNo > 0
    requires since == 0 || exists i :: 0 <= i < seen && p[i].seqNo == since
    ensures forall i :: seen <= i < |p| ==> p[i].seqNo > since
  {
    if since != 0 {
      var j :| 0 <= j < seen && p[j].seqNo == since;
      assert forall i :: seen <= i < |p| ==> p[j].seqNo < p[i].seqNo;
    }
  }

  /** Querying what is left of an increasing push history, for a cursor that covers its first `seen`. */
  lemma SuffixQuery(p: seq<Entry>, o: nat, seen: nat, since: nat)
    requires Increasing(p) && o <= |p| && seen <= |p|
    requires forall i :: 0 <= i < seen && i >= o ==> p[i].seqNo <= since
    requires forall i :: 0 <= i < |p| ==> p[i].seqNo > 0
    requires since == 0 || exists i :: 0 <= i < seen && p[i].seqNo == since
    ensures var first := if o > seen then o else seen;
            && After(p[o..], since) == p[first..]
            && Cursor(p[o..], since) == if first < |p| then p[|p| - 1].seqNo else since
  {
    hide *;
    var q, first := p[o..], if o > seen then o else seen;
    BeyondCursor(p, seen, since);
    SuffixIncreasing(p, o);
    SuffixSplit(p, o, first, since);
    QueryIsSuffix(q, since, first - o);
  }

  /** What a query hands over, in any state the pipeline reaches: exactly the pushes after the client's
      last query that the ring still holds, a cursor below everything still in flight, and the losses so far. */
  lemma QueryDelivers(s: State, c: nat)
    requires Ordered(s) && RingsRight(s) && c in s.clients && ClientRight(s, s.clients[c])
    ensures var cl := s.clients[c]; var p := s.pushed.At(cl.kind); var first := First(s, cl);
            var after := Next(s, Query(c)).clients[c];
            && 0 <= first <= |p|
            && after.received == cl.received + p[first..]
            && after.since == (if first < |p| then p[|p| - 1].seqNo else cl.since)
            && (forall i :: 0 <= i < |Flight(s)| ==> after.since < Flight(s)[i].seqNo)
            && Reported(Next(s, Query(c)), c) == Total(s, cl.kind)
            && Next(s, Query(c)) == s.(clients := s.clients[c := after])
  {
    var cl := s.clients[c];
    QueryEntries(s, cl);
    hide After, Cursor, Range, First;
    var after := Next(s, Query(c)).clients[c];
    assert after == Polled(s, cl);
    forall i | 0 <= i < |Flight(s)| ensures after.since < Flight(s)[i].seqNo { }
  }

  lemma StepClients(s: State, ev: Event)
    requires Inv(s) && Enabled(s, ev)
    ensures ClientsRight(Next(s, ev))
  {
    hide Next, Enabled, ClientRight, Ordered, RingsRight, Conserved, Ahead;
    var n := Next(s, ev);
    StepRings(s, ev);
    forall c | c in n.clients ensures ClientRight(n, n.clients[c]) {
      ClientsStay(s, ev, c);
      if ev == Query(c) {
        QueryRight(s, c);
      } else if c in s.clients {
        OthersRight(s, ev, c);
      } else {
        JoinRight(s, ev, c);
      }
    }
  }

  lemma ClientsStay(s: State, ev: Event, c: nat)
    requires Enabled(s, ev)
    ensures c in s.clients ==> c in Next(s, ev).clients && (ev != Query(c) ==> Next(s, ev).clients[c] == s.clients[c])
    ensures ev == Query(c) ==> c in s.clients
  {
    hide Polled, PushTo;
  }

  lemma JoinRight(s: State, ev: Event, c: nat)
    requires Enabled(s, ev) && RingsRight(s) && c !in s.clients && c in Next(s, ev).clients
    ensures ClientRight(Next(s, ev), Next(s, ev).clients[c])
  {
    hide Polled, PushTo, RingsRight;
  }

  lemma OthersRight(s: State, ev: Event, c: nat)
    requires Enabled(s, ev) && ev != Query(c) && c in s.clients && ClientRight(s, s.clients[c])
    requires RingsRight(s) && RingsRight(Next(s, ev))
    ensures ClientRight(Next(s, ev), s.clients[c])
  {
    var cl, n := s.clients[c], Next(s, ev);
    var k := cl.kind;
    RingIsSuffix(s, k);
    RingIsSuffix(n, k);
    HistoryGrows(s, ev, k);
    hide Next, RingsRight, Enabled;
    ClientRightLater(s, n, cl);
  }

  /** A client's account stays right while its ring only loses old entries and gains new ones. */
  lemma ClientRightLater(s: State, n: State, cl: Client)
    requires ClientRight(s, cl)
    requires var k := cl.kind;
             && s.pushed.At(k) <= n.pushed.At(k) && 0 <= Oldest(s, k) <= Oldest(n, k)
             && (n.neverCleared ==> s.neverCleared && n.rings.At(k).dropped >= s.rings.At(k).dropped
                                    && n.dropped.At(k) >= s.dropped.At(k))
    ensures ClientRight(n, cl)
  {
    hide Oldest;
    var p, q := s.pushed.At(cl.kind), n.pushed.At(cl.kind);
    assert forall i :: 0 <= i < |p| ==> q[i] == p[i];
  }

  lemma HistoryGrows(s: State, ev: Event, k: Kind)
    requires Enabled(s, ev)
    ensures var n := Next(s, ev);
            && s.pushed.At(k) <= n.pushed.At(k) && Oldest(n, k) >= Oldest(s, k)
            && (n.neverCleared ==> s.neverCleared && n.rings.At(k).dropped >= s.rings.At(k).dropped
                                   && n.dropped.At(k) >= s.dropped.At(k))
  {
    hide Polled;
  }

  lemma QueryRight(s: State, c: nat)
    requires Inv(s) && c in s.clients
    ensures ClientRight(Next(s, Query(c)), Next(s, Query(c)).clients[c])
  {
    var cl, n := s.clients[c], Next(s, Query(c));
    assert n.clients[c] == Polled(s, cl);
    QueryEntries(s, cl);
    RangeIs(First(s, cl), |s.pushed.At(cl.kind)|);
    PolledRight(s, n, cl);
  }

  lemma PolledRight(s: State, n: State, cl: Client)
    requires Inv(s) && ClientRight(s, cl) && n.pushed == s.pushed && n.rings == s.rings
    requires n.dropped == s.dropped && n.neverCleared == s.neverCleared
    requires var p := s.pushed.At(cl.kind); var first := First(s, cl); var q := s.rings.At(cl.kind).q;
             var r := Range(first, |p|);
             && 0 <= first <= |p|
             && After(q, cl.since) == p[first..]
             && Cursor(q, cl.since) == (if first < |p| then p[|p| - 1].seqNo else cl.since)
             && |r| == |p| - first && (forall i :: 0 <= i < |r| ==> r[i] == first + i)
    ensures ClientRight(n, Polled(s, cl))
  {
    hide After, Cursor, Range, PushAll;
    var after := Polled(s, cl);
    var p, first := s.pushed.At(cl.kind), First(s, cl);
    assert Increasing(p);
    if first < |p| { assert p[|p| - 1].seqNo == after.since; }
    forall i | 0 <= i < |after.got|
      ensures after.got[i] < after.seen && after.received[i] == p[after.got[i]]
    {
      if i >= |cl.got| { assert after.got[i] == first + (i - |cl.got|); }
    }
    forall i | 0 <= i < |p| && i >= Oldest(n, cl.kind) ensures p[i].seqNo <= after.since { }
  }

  lemma StepKeepsInv(s: State, ev: Event)
    requires Inv(s) && Enabled(s, ev)
    ensures Inv(Next(s, ev))
  {
    hide Next, Enabled, Ordered, RingsRight, Conserved, ClientsRight, Ahead;
    StepOrdered(s, ev);
    StepRings(s, ev);
    StepConserved(s, ev);
    StepClients(s, ev);
    StepAhead(s, ev);
  }

  ghost predicate Run(queueCap: nat, caps: Each<int>, seed: nat, sts: seq<State>, evs: seq<Event>) {
    && |sts| == |evs| + 1 && sts[0] == Start(queueCap, caps, seed)
    && forall i :: 0 <= i < |evs| ==> Enabled(sts[i], evs[i]) && sts[i + 1] == Next(sts[i], evs[i])
  }

  lemma {:induction false} RunKeepsInv(
    queueCap: nat, caps: Each<int>, seed: nat, sts: seq<State>, evs: seq<Event>, n: nat)
    requires Run(queueCap, caps, seed, sts, evs) && n <= |evs|
    ensures Inv(sts[n]) && sts[n].caps == caps
    decreases n
  {
    hide Next, Enabled, Inv, Start;
    if n > 0 {
      RunKeepsInv(queueCap, caps, seed, sts, evs, n - 1);
      StepKeepsInv(sts[n - 1], evs[n - 1]);
      CapsStay(sts[n - 1], evs[n - 1]);
    } else {
      StartInv(queueCap, caps, seed);
    }
  }

  lemma StartInv(queueCap: nat, caps: Each<int>, seed: nat)
    ensures Inv(Start(queueCap, caps, seed)) && Start(queueCap, caps, seed).caps == caps
  {
    hide NewRing, Polled;
    var s := Start(queueCap, caps, seed);
    assert Flight(s) == [];
    forall k ensures s.pushed.At(k) == [] && s.rings.At(k) == NewRing(s.caps.At(k)) && s.cleared.At(k) == 0 {}
    hide Start, Flight;
    NothingFlies(s);
  }

  lemma NothingFlies(s: State)
    requires Flight(s) == [] && s.queue == [] && s.listener.Idle? && s.writer.Waiting? && s.clients == map[]
    requires forall k :: s.pushed.At(k) == [] && s.rings.At(k) == NewRing(s.caps.At(k)) && s.cleared.At(k) == 0
    requires forall k :: s.reserved.At(k) == 0 && s.dropped.At(k) == 0
    ensures Inv(s)
  {
    hide NewRing, Flight;
  }

  lemma CapsStay(s: State, ev: Event)
    requires Enabled(s, ev)
    ensures Next(s, ev).caps == s.caps
  {
    hide Polled, PushTo;
  }

  /** A client that joins has received nothing and starts from cursor 0, so its first query is sent the whole ring;
      nobody else notices. */
  lemma JoinStarts(s: State, c: nat, k: Kind)
    requires Inv(s) && c !in s.clients
    ensures var n := Next(s, Join(c, k));
            && c in n.clients && n.clients[c].kind == k && n.clients[c].received == [] && n.clients[c].since == 0
            && n.clients == s.clients[c := n.clients[c]] && n == s.(clients := n.clients)
            && Next(n, Query(c)).clients[c].received == s.rings.At(k).q
  {
    hide Inv, Polled;
    var n := Next(s, Join(c, k));
    StepKeepsInv(s, Join(c, k));
    FirstQuery(n, c);
  }

  lemma FirstQuery(s: State, c: nat)
    requires Inv(s) && c in s.clients
    requires var cl := s.clients[c]; cl.received == [] && cl.since == 0 && cl.seen == 0
    ensures Next(s, Query(c)).clients[c].received == s.rings.At(s.clients[c].kind).q
  {
    var k := s.clients[c].kind;
    assert ClientRight(s, s.clients[c]);
    RingIsSuffix(s, k);
    QueryDelivers(s, c);
    hide Inv, Next, ClientRight, RingRight, RingsRight, Ordered, Flight;
    assert First(s, s.clients[c]) == Oldest(s, k);
  }

  // ---- What runs guarantee ---------------------------------------------------------

  /** Exactly once, in order: over any run a client has received entries of strictly increasing number,
      no push twice, and its next query adds exactly the pushes since its last one that were neither
      evicted nor cleared by then. */
  lemma DeliveredExactlyOnce(
    queueCap: nat, caps: Each<int>, seed: nat, sts: seq<State>, evs: seq<Event>, n: nat, c: nat)
    requires Run(queueCap, caps, seed, sts, evs) && n <= |evs| && c in sts[n].clients
    ensures var s := sts[n]; var cl := s.clients[c]; var p := s.pushed.At(cl.kind);
            var after := Next(s, Query(c)).clients[c];
            && Increasing(cl.received)
            && (forall i :: cl.seen <= i < |p| ==> p[i] !in cl.received)
            && cl.received <= after.received
            && (forall i :: cl.seen <= i < |p| ==>
                  (p[i] in after.received <==> p[i] in s.rings.At(cl.kind).q))
            && (forall i :: 0 <= i < |Flight(s)| ==> after.since < Flight(s)[i].seqNo)
  {
    RunKeepsInv(queueCap, caps, seed, sts, evs, n);
    var s := sts[n];
    var cl := s.clients[c];
    var k := cl.kind;
    RingIsSuffix(s, k);
    QueryDelivers(s, c);
    assert ClientRight(s, cl) && Increasing(s.pushed.At(k));
    hide Next, Flight;
    SelectedOnce(s.pushed.At(k), cl.seen, cl.received, cl.got);
    SuffixMembers(s.pushed.At(k), Oldest(s, k), cl.seen, cl.received);
  }

  /** Entries picked at growing positions are increasing, and none lies past the last position. */
  lemma SelectedOnce(p: seq<Entry>, seen: nat, received: seq<Entry>, got: seq<nat>)
    requires Increasing(p) && seen <= |p| && |received| == |got|
    requires forall i, j :: 0 <= i < j < |got| ==> got[i] < got[j]
    requires forall i :: 0 <= i < |got| ==> got[i] < seen && received[i] == p[got[i]]
    ensures Increasing(received)
    ensures forall i :: seen <= i < |p| ==> p[i] !in received
  {
    forall i, j | 0 <= i < j < |received| ensures received[i].seqNo < received[j].seqNo {
      assert got[i] < got[j] < seen;
    }
    forall i | seen <= i < |p| ensures p[i] !in received {
      forall j | 0 <= j < |received| ensures received[j] != p[i] { assert got[j] < i; }
    }
  }

  lemma SuffixMembers(p: seq<Entry>, o: nat, seen: nat, received: seq<Entry>)
    requires Increasing(p) && o <= |p| && seen <= |p|
    requires forall i :: seen <= i < |p| ==> p[i] !in received
    ensures var first := if o > seen then o else seen;
            forall i :: seen <= i < |p| ==> (p[i] in received + p[first..] <==> p[i] in p[o..])
  {
    var first := if o > seen then o else seen;
    forall i | seen <= i < |p| ensures p[i] in received + p[first..] <==> p[i] in p[o..] {
      MemberOfSuffix(p, o, i);
      MemberOfSuffix(p, first, i);
    }
  }

  lemma MemberOfSuffix(p: seq<Entry>, o: nat, i: nat)
    requires Increasing(p) && o <= |p| && i < |p|
    ensures p[i] in p[o..] <==> i >= o
  {
    if i >= o {
      assert p[o..][i - o] == p[i];
    } else {
      forall j | 0 <= j < |p[o..]| ensures p[o..][j] != p[i] { assert p[o..][j] == p[o + j]; }
    }
  }

  /** Without clears and with positive capacity, the numbers reserved for a kind are those queued, in
      the listener's or the writer's hands, in the ring, or counted as dropped; and the dropped count
      a client is told lies between the true loss at its query and the true loss now. */
  lemma NothingUnaccounted(
    queueCap: nat, caps: Each<int>, seed: nat, sts: seq<State>, evs: seq<Event>, n: nat, k: Kind)
    requires Run(queueCap, caps, seed, sts, evs) && n <= |evs| && sts[n].neverCleared && caps.At(k) > 0
    ensures var s := sts[n];
            && s.reserved.At(k) == Count(s.queue, k) + Count(InListener(s.listener), k)
                                   + Count(InWriter(s.writer), k) + |s.rings.At(k).q| + Total(s, k)
            && s.rings.At(k).q == Last(s.pushed.At(k), caps.At(k))
            && forall c :: c in s.clients && s.clients[c].kind == k ==>
                 s.clients[c].totalThen <= Reported(s, c) <= Total(s, k)
  {
    RunKeepsInv(queueCap, caps, seed, sts, evs, n);
    var s := sts[n];
    assert RingRight(s, k);
    RingHoldsLast(caps.At(k), s.pushed.At(k)[0..]);
    assert s.pushed.At(k)[0..] == s.pushed.At(k);
    CountAppend(InWriter(s.writer) + s.queue, InListener(s.listener), k);
    CountAppend(InWriter(s.writer), s.queue, k);
    forall c | c in s.clients && s.clients[c].kind == k
      ensures s.clients[c].totalThen <= Reported(s, c) <= Total(s, k)
    {
      assert ClientRight(s, s.clients[c]);
    }
  }

  /** Why lastSeen must not be the cursor: a client polling from it would never be sent an item that was
      still queued, whatever the ring holds later. */
  lemma LastSeenSkipsQueued(
    queueCap: nat, caps: Each<int>, seed: nat, sts: seq<State>, evs: seq<Event>, n: nat, i: nat,
    later: seq<Entry>)
    requires Run(queueCap, caps, seed, sts, evs) && n <= |evs| && i < |sts[n].queue|
    ensures var s := sts[n]; var item := s.queue[i];
            && (forall e :: e in After(later, s.lastSeen.At(item.kind)) ==> e.seqNo != item.seqNo)
            && Cursor(s.rings.At(item.kind).q, 0) < item.seqNo
  {
    RunKeepsInv(queueCap, caps, seed, sts, evs, n);
    var s := sts[n];
    var item := s.queue[i];
    var k := item.kind;
    AfterIsAbove(later, s.lastSeen.At(k));
    RingIsSuffix(s, k);
    assert Flight(s)[|InWriter(s.writer)| + i] == item;
  }

  lemma {:induction false} AfterIsAbove(q: seq<Entry>, since: nat)
    ensures forall e :: e in After(q, since) ==> e.seqNo > since
    decreases |q|
  {
    if q != [] { AfterIsAbove(q[1..], since); }
  }
}
