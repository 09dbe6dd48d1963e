/** What became of every item a tab's listener was given, read off the events of a run. */
module ObservationRuns {
  import opened Bytes
  import opened ObsRing
  import opened Observation

  /** The items the listener was given in the first k events, in the order of their numbers. */
  function Given(sts: seq<State>, evs: seq<Event>, k: nat): seq<Item>
    requires k <= |evs| && |evs| < |sts|
  {
    if k == 0 then []
    else
      Given(sts, evs, k - 1)
      + if evs[k - 1].Listen? then [Item(evs[k - 1].kind, sts[k - 1].counter + 1, evs[k - 1].data)] else []
  }

  /** The item met a full queue. */
  ghost predicate MetFullQueue(sts: seq<State>, evs: seq<Event>, k: nat, item: Item)
    requires k <= |evs| && |evs| < |sts|
  {
    exists j :: 0 <= j < k && FullQueueAt(sts[j], evs[j], item)
  }

  predicate FullQueueAt(s: State, ev: Event, item: Item) {
    ev.Enqueue? && s.listener == Published(item) && |s.queue| >= s.queueCap
  }

  /** Those of the items that met no full queue. */
  ghost function Queued(sts: seq<State>, evs: seq<Event>, k: nat, items: seq<Item>): seq<Item>
    requires k <= |evs| && |evs| < |sts|
  {
    if items == [] then []
    else
      (if MetFullQueue(sts, evs, k, items[0]) then [] else [items[0]]) + Queued(sts, evs, k, items[1..])
  }

  /** The entries that items of a kind make: one per item with a payload, with its number and that payload. */
  function Entries(items: seq<Item>, k: Kind): seq<Entry> {
    if items == [] then []
    else
      (if items[0].kind == k && items[0].data.Some? then [Entry(items[0].seqNo, items[0].data.value)] else [])
      + Entries(items[1..], k)
  }

  lemma {:induction false} EntriesAppend(a: seq<Item>, b: seq<Item>, k: Kind)
    ensures Entries(a + b, k) == Entries(a, k) + Entries(b, k)
    decreases |a|
  {
    if a == [] {
      assert a + b == b;
    } else {
      assert (a + b)[1..] == a[1..] + b;
      EntriesAppend(a[1..], b, k);
    }
  }

  lemma {:induction false} QueuedAppend(sts: seq<State>, evs: seq<Event>, k: nat, a: seq<Item>, b: seq<Item>)
    requires k <= |evs| && |evs| < |sts|
    ensures Queued(sts, evs, k, a + b) == Queued(sts, evs, k, a) + Queued(sts, evs, k, b)
    decreases |a|
  {
    hide MetFullQueue;
    if a == [] {
      assert a + b == b;
    } else {
      assert (a + b)[1..] == a[1..] + b;
      QueuedAppend(sts, evs, k, a[1..], b);
    }
  }

  lemma MetMore(sts: seq<State>, evs: seq<Event>, j: nat, item: Item)
    requires j < |evs| && |evs| < |sts|
    ensures MetFullQueue(sts, evs, j + 1, item) <==>
            MetFullQueue(sts, evs, j, item) || FullQueueAt(sts[j], evs[j], item)
  {
    hide FullQueueAt;
  }

  /** Without a full queue at event j, the items that met none stay the same. */
  lemma {:induction false} QueuedSame(sts: seq<State>, evs: seq<Event>, j: nat, items: seq<Item>)
    requires j < |evs| && |evs| < |sts|
    requires forall i :: 0 <= i < |items| ==> !FullQueueAt(sts[j], evs[j], items[i])
    ensures Queued(sts, evs, j + 1, items) == Queued(sts, evs, j, items)
    decreases |items|
  {
    hide MetFullQueue, FullQueueAt;
    if items != [] {
      MetMore(sts, evs, j, items[0]);
      QueuedSame(sts, evs, j, items[1..]);
    }
  }

  ghost predicate Ascending(items: seq<Item>) {
    forall i, j :: 0 <= i < j < |items| ==> items[i].seqNo < items[j].seqNo
  }

  /** The given items are numbered upward, and no number is beyond the counter; neither is that of an item that
      met a full queue. */
  lemma {:induction false} GivenAscends(
    queueCap: nat, caps: Each<int>, seed: nat, sts: seq<State>, evs: seq<Event>, k: nat)
    requires Run(queueCap, caps, seed, sts, evs) && k <= |evs|
    ensures Ascending(Given(sts, evs, k))
    ensures forall item :: item in Given(sts, evs, k) ==> item.seqNo <= sts[k].counter
    ensures forall item :: MetFullQueue(sts, evs, k, item) ==> item.seqNo <= sts[k].counter
    decreases k
  {
    hide Next, Enabled, FullQueueAt;
    if k > 0 {
      var j := k - 1;
      GivenAscends(queueCap, caps, seed, sts, evs, j);
      RunKeepsInv(queueCap, caps, seed, sts, evs, j);
      CounterGrows(sts[j], evs[j]);
      forall item | MetFullQueue(sts, evs, k, item) ensures item.seqNo <= sts[k].counter {
        MetMore(sts, evs, j, item);
        if FullQueueAt(sts[j], evs[j], item) { PublishedIsNumbered(sts[j], item); }
      }
      forall item | item in Given(sts, evs, k) ensures item.seqNo <= sts[k].counter {
        assert item in Given(sts, evs, j) || item.seqNo == sts[j].counter + 1;
      }
      assert forall i :: 0 <= i < |Given(sts, evs, j)| ==> Given(sts, evs, j)[i] in Given(sts, evs, j);
    }
  }

  lemma CounterGrows(s: State, ev: Event)
    requires Enabled(s, ev)
    ensures Next(s, ev).counter >= s.counter && (ev.Listen? ==> Next(s, ev).counter == s.counter + 1)
  {
    hide Polled, PushTo;
  }

  lemma PublishedIsNumbered(s: State, item: Item)
    requires Inv(s) && (exists ev :: FullQueueAt(s, ev, item))
    ensures item.seqNo <= s.counter
  {
    hide RingsRight, Conserved, ClientsRight, Ahead;
    var f := Flight(s);
    assert f[|f| - 1] == item;
  }

  /** Meeting a full queue takes away exactly the last of the items that met none before. */
  lemma {:induction false} QueuedLast(
    sts: seq<State>, evs: seq<Event>, j: nat, items: seq<Item>, front: seq<Item>, item: Item)
    requires j < |evs| && |evs| < |sts| && Ascending(items) && FullQueueAt(sts[j], evs[j], item)
    requires Queued(sts, evs, j, items) == front + [item]
    ensures Queued(sts, evs, j + 1, items) == front
    decreases |items|
  {
    hide MetFullQueue;
    MetMore(sts, evs, j, items[0]);
    if MetFullQueue(sts, evs, j, items[0]) {
      QueuedLast(sts, evs, j, items[1..], front, item);
    } else if front == [] {
      var rest := Queued(sts, evs, j, items[1..]);
      assert ([items[0]] + rest)[0] == item && |rest| == 0;
      QueuedSame(sts, evs, j, items[1..]);
    } else {
      var rest := Queued(sts, evs, j, items[1..]);
      assert ([items[0]] + rest)[1..] == rest && (front + [item])[1..] == front[1..] + [item];
      assert ([items[0]] + rest)[0] == items[0] && (front + [item])[0] == front[0];
      QueuedLast(sts, evs, j, items[1..], front[1..], item);
      QueuedIn(sts, evs, j, items[1..], item);
      assert items[0] != item;
    }
  }

  lemma {:induction false} QueuedIn(sts: seq<State>, evs: seq<Event>, k: nat, items: seq<Item>, item: Item)
    requires k <= |evs| && |evs| < |sts|
    ensures item in Queued(sts, evs, k, items) <==> item in items && !MetFullQueue(sts, evs, k, item)
    decreases |items|
  {
    hide MetFullQueue;
    if items != [] {
      assert items == [items[0]] + items[1..];
      QueuedIn(sts, evs, k, items[1..], item);
    }
  }

  /** `written` has left the writer: with what is in flight it makes up the given items that met no full queue,
      and the pushes of each kind are its entries of that kind. */
  ghost predicate Split(sts: seq<State>, evs: seq<Event>, k: nat, written: seq<Item>)
    requires k <= |evs| && |evs| < |sts|
  {
    && Queued(sts, evs, k, Given(sts, evs, k)) == written + Flight(sts[k])
    && forall kind :: sts[k].pushed.At(kind) == Entries(written, kind)
  }

  lemma NothingGiven(sts: seq<State>, evs: seq<Event>, j: nat)
    requires j < |evs| && |evs| < |sts| && !evs[j].Listen?
    ensures Given(sts, evs, j + 1) == Given(sts, evs, j)
  {
    assert Given(sts, evs, j) + [] == Given(sts, evs, j);
  }

  lemma SplitListen(
    queueCap: nat, caps: Each<int>, seed: nat, sts: seq<State>, evs: seq<Event>, j: nat, written: seq<Item>)
    requires Run(queueCap, caps, seed, sts, evs) && j < |evs| && evs[j].Listen? && Split(sts, evs, j, written)
    ensures Split(sts, evs, j + 1, written)
  {
    hide Flight, Queued, MetFullQueue, Inv;
    var s, ev := sts[j], evs[j];
    var item := Item(ev.kind, s.counter + 1, ev.data);
    GivenAscends(queueCap, caps, seed, sts, evs, j);
    QueuedSame(sts, evs, j, Given(sts, evs, j + 1));
    QueuedAppend(sts, evs, j, Given(sts, evs, j), [item]);
    QueuedIn(sts, evs, j, [item], item);
    QueuedOne(sts, evs, j, item);
    FlightListen(s, ev.kind, ev.data);
    assert written + (Flight(s) + [item]) == (written + Flight(s)) + [item];
  }

  lemma QueuedOne(sts: seq<State>, evs: seq<Event>, k: nat, item: Item)
    requires k <= |evs| && |evs| < |sts| && !MetFullQueue(sts, evs, k, item)
    ensures Queued(sts, evs, k, [item]) == [item]
  {
    hide MetFullQueue;
    assert [item][1..] == [];
  }

  lemma SplitEnqueue(
    queueCap: nat, caps: Each<int>, seed: nat, sts: seq<State>, evs: seq<Event>, j: nat, written: seq<Item>)
    requires Run(queueCap, caps, seed, sts, evs) && j < |evs| && evs[j].Enqueue? && Split(sts, evs, j, written)
    ensures Split(sts, evs, j + 1, written)
  {
    hide Flight, Queued, MetFullQueue, Inv;
    var s := sts[j];
    var f := Flight(s);
    FlightEnqueue(s);
    if |s.queue| < s.queueCap {
      QueuedSame(sts, evs, j, Given(sts, evs, j));
      NothingGiven(sts, evs, j);
    } else {
      NothingGiven(sts, evs, j);
      GivenAscends(queueCap, caps, seed, sts, evs, j);
      assert written + f == (written + f[..|f| - 1]) + [s.listener.item];
      QueuedLast(sts, evs, j, Given(sts, evs, j), written + f[..|f| - 1], s.listener.item);
    }
  }

  lemma SplitWrite(sts: seq<State>, evs: seq<Event>, j: nat, written: seq<Item>)
    requires j < |evs| && |evs| < |sts| && evs[j].Write? && Split(sts, evs, j, written)
    requires Enabled(sts[j], evs[j]) && sts[j + 1] == Next(sts[j], evs[j])
    ensures Split(sts, evs, j + 1, written + [sts[j].writer.item])
  {
    hide Flight, Queued, MetFullQueue;
    var s := sts[j];
    var item := s.writer.item;
    FlightWrite(s);
    QueuedSame(sts, evs, j, Given(sts, evs, j));
    NothingGiven(sts, evs, j);
    assert written + Flight(s) == (written + [item]) + Flight(s)[1..];
    forall kind ensures sts[j + 1].pushed.At(kind) == Entries(written + [item], kind) {
      EntriesAppend(written, [item], kind);
      EntriesOne(item, kind);
    }
  }

  lemma EntriesOne(item: Item, k: Kind)
    ensures Entries([item], k)
            == if item.kind == k && item.data.Some? then [Entry(item.seqNo, item.data.value)] else []
  {
    assert [item][1..] == [];
  }

  lemma SplitOther(sts: seq<State>, evs: seq<Event>, j: nat, written: seq<Item>)
    requires j < |evs| && |evs| < |sts| && Split(sts, evs, j, written)
    requires !evs[j].Listen? && !evs[j].Enqueue? && !evs[j].Write?
    requires Enabled(sts[j], evs[j]) && sts[j + 1] == Next(sts[j], evs[j])
    ensures Split(sts, evs, j + 1, written)
  {
    hide Flight, Queued, MetFullQueue, Polled;
    if evs[j].Take? { FlightTake(sts[j]); } else { FlightSame(sts[j], evs[j]); }
    QueuedSame(sts, evs, j, Given(sts, evs, j));
    NothingGiven(sts, evs, j);
  }

  /** Over every run the pushes of a kind are exactly the items of that kind that have a payload and have left the
      writer, in the order of their numbers, each with its own payload; and what has left the writer is all the
      listener was given but what is in flight or met a full queue. */
  lemma {:induction false} PushesAreGiven(
    queueCap: nat, caps: Each<int>, seed: nat, sts: seq<State>, evs: seq<Event>, k: nat) returns (written: seq<Item>)
    requires Run(queueCap, caps, seed, sts, evs) && k <= |evs|
    ensures Queued(sts, evs, k, Given(sts, evs, k)) == written + Flight(sts[k])
    ensures forall kind :: sts[k].pushed.At(kind) == Entries(written, kind)
    decreases k
  {
    hide Flight, Queued, MetFullQueue, Next;
    if k == 0 {
      written := [];
      StartIsEmpty(queueCap, caps, seed, sts, evs);
    } else {
      var j := k - 1;
      written := PushesAreGiven(queueCap, caps, seed, sts, evs, j);
      if evs[j].Listen? {
        SplitListen(queueCap, caps, seed, sts, evs, j, written);
      } else if evs[j].Enqueue? {
        SplitEnqueue(queueCap, caps, seed, sts, evs, j, written);
      } else if evs[j].Write? {
        SplitWrite(sts, evs, j, written);
        written := written + [sts[j].writer.item];
      } else {
        SplitOther(sts, evs, j, written);
      }
    }
  }

  lemma StartIsEmpty(queueCap: nat, caps: Each<int>, seed: nat, sts: seq<State>, evs: seq<Event>)
    requires |evs| < |sts| && sts[0] == Start(queueCap, caps, seed)
    ensures Split(sts, evs, 0, [])
  {
    hide NewRing;
  }

  /** A payload is lost only at a full queue: each item given with one is on its way, pushed, or met one. */
  lemma LostOnlyAtFullQueue(
    queueCap: nat, caps: Each<int>, seed: nat, sts: seq<State>, evs: seq<Event>, k: nat, item: Item)
    requires Run(queueCap, caps, seed, sts, evs) && k <= |evs|
    requires item in Given(sts, evs, k) && item.data.Some?
    ensures || item in Flight(sts[k]) || MetFullQueue(sts, evs, k, item)
            || Entry(item.seqNo, item.data.value) in sts[k].pushed.At(item.kind)
  {
    hide Flight, Queued, MetFullQueue, Run;
    var written := PushesAreGiven(queueCap, caps, seed, sts, evs, k);
    RunSizes(queueCap, caps, seed, sts, evs);
    QueuedIn(sts, evs, k, Given(sts, evs, k), item);
    EntriesIn(written, item);
  }

  lemma RunSizes(queueCap: nat, caps: Each<int>, seed: nat, sts: seq<State>, evs: seq<Event>)
    requires Run(queueCap, caps, seed, sts, evs)
    ensures |evs| < |sts|
  {
  }

  lemma {:induction false} EntriesIn(items: seq<Item>, item: Item)
    requires item.data.Some?
    ensures item in items ==> Entry(item.seqNo, item.data.value) in Entries(items, item.kind)
    decreases |items|
  {
    if items != [] { EntriesIn(items[1..], item); }
  }

  // ---- Numbers, dropped counts and lastSeen -----------------------------------------------------

  /** Over every run a kind's reserved numbers are those of the items given, and its dropped count is that of the
      items that met a full queue or were written without a payload. */
  lemma {:induction false} DroppedAreThese(
    queueCap: nat, caps: Each<int>, seed: nat, sts: seq<State>, evs: seq<Event>, k: nat, kind: Kind)
    returns (written: seq<Item>)
    requires Run(queueCap, caps, seed, sts, evs) && k <= |evs|
    ensures Queued(sts, evs, k, Given(sts, evs, k)) == written + Flight(sts[k])
    ensures sts[k].reserved.At(kind) == Count(Given(sts, evs, k), kind)
    ensures sts[k].dropped.At(kind)
            == Count(Given(sts, evs, k), kind) - Count(Queued(sts, evs, k, Given(sts, evs, k)), kind)
               + Count(written, kind) - |Entries(written, kind)|
  {
    hide Flight, Queued, MetFullQueue, Run;
    written := PushesAreGiven(queueCap, caps, seed, sts, evs, k);
    ReservedAreGiven(queueCap, caps, seed, sts, evs, k, kind);
    RunKeepsInv(queueCap, caps, seed, sts, evs, k);
    CountAppend(written, Flight(sts[k]), kind);
    ConservedAt(sts[k], kind);
  }

  lemma ConservedAt(s: State, kind: Kind)
    requires Inv(s)
    ensures s.reserved.At(kind) == Count(Flight(s), kind) + |s.pushed.At(kind)| + s.dropped.At(kind)
  {
    hide Flight, RingsRight, ClientsRight, Ahead, Ordered;
  }

  lemma {:induction false} ReservedAreGiven(
    queueCap: nat, caps: Each<int>, seed: nat, sts: seq<State>, evs: seq<Event>, k: nat, kind: Kind)
    requires Run(queueCap, caps, seed, sts, evs) && k <= |evs|
    ensures |evs| < |sts| && sts[k].reserved.At(kind) == Count(Given(sts, evs, k), kind)
    decreases k
  {
    hide Next, Enabled;
    if k > 0 {
      var j := k - 1;
      ReservedAreGiven(queueCap, caps, seed, sts, evs, j, kind);
      ReservedStep(sts[j], evs[j], kind);
      if evs[j].Listen? {
        CountAppend(Given(sts, evs, j), [Item(evs[j].kind, sts[j].counter + 1, evs[j].data)], kind);
      } else {
        NothingGiven(sts, evs, j);
      }
    }
  }

  lemma ReservedStep(s: State, ev: Event, kind: Kind)
    requires Enabled(s, ev)
    ensures Next(s, ev).reserved.At(kind)
            == s.reserved.At(kind) + if ev.Listen? then Count([Item(ev.kind, s.counter + 1, ev.data)], kind) else 0
  {
    hide Polled, PushTo;
    if ev.Listen? { assert [Item(ev.kind, s.counter + 1, ev.data)][1..] == []; }
  }

  /** The numbers handed out in the first k events, to the listener or to other callers. */
  function Numbered(evs: seq<Event>, k: nat): nat
    requires k <= |evs|
  {
    if k == 0 then 0 else Numbered(evs, k - 1) + if evs[k - 1].Listen? || evs[k - 1].Tick? then 1 else 0
  }

  /** Every number is handed out once: the counter stands that many above its seed. */
  lemma {:induction false} CounterCounts(
    queueCap: nat, caps: Each<int>, seed: nat, sts: seq<State>, evs: seq<Event>, k: nat)
    requires Run(queueCap, caps, seed, sts, evs) && k <= |evs|
    ensures sts[k].counter == seed + Numbered(evs, k)
    decreases k
  {
    hide Next, Enabled;
    if k > 0 {
      CounterCounts(queueCap, caps, seed, sts, evs, k - 1);
      CounterStep(sts[k - 1], evs[k - 1]);
    }
  }

  lemma CounterStep(s: State, ev: Event)
    requires Enabled(s, ev)
    ensures Next(s, ev).counter == s.counter + if ev.Listen? || ev.Tick? then 1 else 0
  {
    hide Polled, PushTo;
  }

  /** The number of the last item of a kind, 0 if there is none. */
  function LastNumber(items: seq<Item>, kind: Kind): nat {
    if items == [] then 0
    else if items[|items| - 1].kind == kind then items[|items| - 1].seqNo
    else LastNumber(items[..|items| - 1], kind)
  }

  /** The items given whose number has been published. */
  function Announced(sts: seq<State>, evs: seq<Event>, k: nat): seq<Item>
    requires k <= |evs| && |evs| < |sts|
  {
    var given := Given(sts, evs, k);
    if sts[k].listener.Reserved? && given != [] then given[..|given| - 1] else given
  }

  ghost predicate SeenRight(s: State, announced: seq<Item>) {
    forall kind :: s.lastSeen.At(kind) == LastNumber(announced, kind)
  }

  /** A reserved item is the last one given. */
  ghost predicate ReservedLast(s: State, given: seq<Item>) {
    s.listener.Reserved? ==> given != [] && given[|given| - 1] == s.listener.item
  }

  /** lastSeen is the number of the last item of its kind that the listener has published. */
  lemma {:induction false} LastSeenIsPublished(
    queueCap: nat, caps: Each<int>, seed: nat, sts: seq<State>, evs: seq<Event>, k: nat)
    requires Run(queueCap, caps, seed, sts, evs) && k <= |evs|
    ensures SeenRight(sts[k], Announced(sts, evs, k)) && ReservedLast(sts[k], Given(sts, evs, k))
    decreases k
  {
    if k == 0 {
      hide NewRing;
    } else {
      hide Next, Enabled, SeenRight, ReservedLast, Given, Announced, Ascending;
      var j := k - 1;
      LastSeenIsPublished(queueCap, caps, seed, sts, evs, j);
      GivenAscends(queueCap, caps, seed, sts, evs, j);
      GivenStep(sts, evs, j);
      AnnouncedIs(sts, evs, j);
      AnnouncedIs(sts, evs, k);
      if evs[j].Listen? {
        ListenSeen(sts[j], evs[j], Given(sts, evs, j));
      } else {
        NothingGiven(sts, evs, j);
        OtherSeen(sts[j], evs[j], Given(sts, evs, j));
      }
    }
  }

  /** The given items but one that is only reserved yet. */
  function Said(s: State, given: seq<Item>): seq<Item> {
    if s.listener.Reserved? && given != [] then given[..|given| - 1] else given
  }

  lemma AnnouncedIs(sts: seq<State>, evs: seq<Event>, k: nat)
    requires k <= |evs| && |evs| < |sts|
    ensures Announced(sts, evs, k) == Said(sts[k], Given(sts, evs, k))
  {
  }

  lemma GivenStep(sts: seq<State>, evs: seq<Event>, j: nat)
    requires j < |evs| && |evs| < |sts|
    ensures evs[j].Listen? ==>
              Given(sts, evs, j + 1)
              == Given(sts, evs, j) + [Item(evs[j].kind, sts[j].counter + 1, evs[j].data)]
  {
  }

  lemma ListenSeen(s: State, ev: Event, given: seq<Item>)
    requires Enabled(s, ev) && ev.Listen? && SeenRight(s, Said(s, given))
    ensures var more := given + [Item(ev.kind, s.counter + 1, ev.data)]; var n := Next(s, ev);
            SeenRight(n, Said(n, more)) && ReservedLast(n, more)
  {
    hide LastNumber;
    var more := given + [Item(ev.kind, s.counter + 1, ev.data)];
    assert more[..|more| - 1] == given;
  }

  lemma OtherSeen(s: State, ev: Event, given: seq<Item>)
    requires Enabled(s, ev) && !ev.Listen? && Ascending(given)
    requires SeenRight(s, Said(s, given)) && ReservedLast(s, given)
    ensures var n := Next(s, ev); SeenRight(n, Said(n, given)) && ReservedLast(n, given)
  {
    hide Polled, PushTo, LastNumber;
    if ev.Publish? {
      var item := s.listener.item;
      LastNumberBelow(given[..|given| - 1], item);
      forall kind ensures Next(s, ev).lastSeen.At(kind) == LastNumber(given, kind) { LastNumberOne(given, kind); }
    }
  }

  lemma LastNumberOne(items: seq<Item>, kind: Kind)
    requires items != []
    ensures LastNumber(items, kind)
            == if items[|items| - 1].kind == kind then items[|items| - 1].seqNo
               else LastNumber(items[..|items| - 1], kind)
  {
  }

  lemma {:induction false} LastNumberBelow(items: seq<Item>, item: Item)
    requires forall i :: 0 <= i < |items| ==> items[i].seqNo < item.seqNo
    ensures forall kind :: LastNumber(items, kind) <= item.seqNo
    decreases |items|
  {
    if items != [] { LastNumberBelow(items[..|items| - 1], item); }
  }

  // ---- Clears -------------------------------------------------------------------------------------

  /** A clear empties the ring of its kind and no other; and from then on the ring holds no push made before. */
  lemma {:induction false} ClearedStayGone(
    queueCap: nat, caps: Each<int>, seed: nat, sts: seq<State>, evs: seq<Event>, j: nat, k: nat, kind: Kind)
    requires Run(queueCap, caps, seed, sts, evs) && j < k <= |evs| && evs[j] == Clear(kind)
    ensures sts[j + 1].rings.At(kind).q == [] && sts[j + 1].rings.At(kind).dropped == 0
    ensures forall other :: other != kind ==> sts[j + 1].rings.At(other) == sts[j].rings.At(other)
    ensures sts[j + 1].pushed == sts[j].pushed
    ensures Oldest(sts[k], kind) >= |sts[j].pushed.At(kind)|
    decreases k
  {
    hide Polled, PushTo;
    if j + 1 < k {
      ClearedStayGone(queueCap, caps, seed, sts, evs, j, k - 1, kind);
      HistoryGrows(sts[k - 1], evs[k - 1], kind);
    }
  }
}
