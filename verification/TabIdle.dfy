/** Idle clocks of managed tabs, and taking them over from the log. */
module TabIdle {
  import opened Bytes
  import TabRegistry

  /** Last activity of each tracked target. */
  type Clocks = map<Str, int>

  /** The earliest last-activity time a restored tab is given, so that it gets its grace period. */
  function MinLast(now: int, timeout: int, grace: int): int {
    if timeout > grace then now - (timeout - grace) else now
  }

  function Clamp(lastAt: int, floor: int): int {
    if lastAt < floor then floor else lastAt
  }

  /** The target a logged short id names, when that target is present. */
  ghost predicate Names(reg: TabRegistry.Reg, present: set<Str>, short: Str, tid: Str) {
    && TrimSpace(short) != [] && TrimSpace(short) in reg.target && reg.target[TrimSpace(short)] == tid
    && tid in present
  }

  /** One logged tab gives the target its clock. */
  ghost predicate Gives(
    reg: TabRegistry.Reg, loaded: map<Str, int>, present: set<Str>, floor: int, short: Str, tid: Str, at: int)
  {
    short in loaded && Names(reg, present, short, tid) && at == Clamp(loaded[short], floor)
  }

  /** What a reconcile may do, in whatever order it walks the log's tabs: tracked targets keep their clocks,
      and exactly the untracked present targets named by a logged tab are added with its clamped time. */
  ghost predicate Reconciled(
    before: Clocks, after: Clocks, reg: TabRegistry.Reg, loaded: map<Str, int>, present: set<Str>, floor: int)
  {
    && (forall tid :: tid in before ==> tid in after && after[tid] == before[tid])
    && (forall tid :: tid in after && tid !in before ==>
          exists short :: Gives(reg, loaded, present, floor, short, tid, after[tid]))
    && (forall short, tid :: short in loaded && Names(reg, present, short, tid) ==> tid in after)
  }

  /** Reconciling again, whenever and with whatever times in the log, changes no tracked tab; with the same
      tabs named it changes nothing at all. */
  lemma ReconcileAgain(
    first: Clocks, second: Clocks, third: Clocks, reg: TabRegistry.Reg, loaded: map<Str, int>, later: map<Str, int>,
    present: set<Str>, floor: int, laterFloor: int)
    requires Reconciled(first, second, reg, loaded, present, floor)
    requires Reconciled(second, third, reg, later, present, laterFloor)
    ensures forall tid :: tid in second ==> tid in third && third[tid] == second[tid]
    ensures later.Keys <= loaded.Keys ==> third == second
  {
    if later.Keys <= loaded.Keys {
      forall tid, short, at | Gives(reg, later, present, laterFloor, short, tid, at) ensures tid in second {
        assert short in loaded && Names(reg, present, short, tid);
      }
    }
  }

  class TabIdleTracker {
    var managed: Clocks

    constructor ()
      ensures managed == map[]
    {
      managed := map[];
    }

    method MarkManagedAt(id: Str, at: int)
      modifies this
      ensures managed == if id == [] then old(managed) else old(managed)[id := at]
    {
      if id == [] { return; }
      managed := managed[id := at];
    }

    method MarkManagedIfAbsentAt(id: Str, at: int)
      modifies this
      ensures managed == if id == [] || id in old(managed) then old(managed) else old(managed)[id := at]
    {
      if id == [] { return; }
      if id in managed { return; }
      managed := managed[id := at];
    }

    method Touch(id: Str, now: int)
      modifies this
      ensures managed.Keys == old(managed).Keys
      ensures forall k :: k in managed ==> managed[k] == if k == id && id != [] then now else old(managed)[k]
    {
      if id == [] { return; }
      if id in managed { managed := managed[id := now]; }
    }

    method Forget(id: Str)
      modifies this
      ensures managed == if id == [] then old(managed) else old(managed) - {id}
    {
      if id == [] { return; }
      managed := managed - {id};
    }

    /** Walks the map in any order while deleting from it. */
    method SyncPresentReturnRemoved(present: set<Str>) returns (removed: seq<Str>)
      modifies this
      ensures managed == map id | id in old(managed) && id in present :: old(managed)[id]
      ensures Distinct(removed) && forall id :: id in removed <==> id in old(managed) && id !in present
    {
      removed := [];
      var todo := managed.Keys;
      while todo != {}
        invariant todo <= managed.Keys
        invariant managed == map id | id in old(managed) && (id in present || id in todo) :: old(managed)[id]
        invariant Distinct(removed)
        invariant forall id :: id in removed <==> id in old(managed) && id !in present && id !in todo
        decreases todo
      {
        var id :| id in todo;
        todo := todo - {id};
        if id !in present {
          removed := removed + [id];
          managed := managed - {id};
        }
      }
    }

    /** Every tracked target whose idle time has reached the timeout, in id order. */
    method Expired(now: int, timeout: int) returns (out: seq<Str>)
      ensures Sorted(out)
      ensures forall id :: id in out <==> timeout > 0 && id in managed && now - managed[id] >= timeout
    {
      if timeout <= 0 { return []; }
      var found: seq<Str> := [];
      var todo := managed.Keys;
      while todo != {}
        invariant todo <= managed.Keys && Distinct(found)
        invariant forall id :: id in found <==> id in managed && id !in todo && now >= managed[id] + timeout
        decreases todo
      {
        var id :| id in todo;
        todo := todo - {id};
        if !(now < managed[id] + timeout) { found := found + [id]; }
      }
      SortSorts(found);
      out := Sort(found);
    }

    method IsExpired(id: Str, now: int, timeout: int) returns (expired: bool)
      ensures expired <==> timeout > 0 && id != [] && id in managed && now - managed[id] >= timeout
    {
      if id == [] || timeout <= 0 { return false; }
      expired := id in managed && !(now < managed[id] + timeout);
    }
  }

  method PresentTargets(snaps: seq<TabRegistry.Snapshot>) returns (present: set<Str>)
    ensures forall tid :: tid in present <==> tid != [] && exists i :: 0 <= i < |snaps| && snaps[i].targetId == tid
  {
    present := {};
    for i := 0 to |snaps|
      invariant forall tid :: tid in present <==> tid != [] && exists j :: 0 <= j < i && snaps[j].targetId == tid
    {
      if snaps[i].targetId == [] { continue; }
      present := present + {snaps[i].targetId};
    }
  }

  /** Takes the log's managed tabs over into the tracker. */
  method ReconcileIdleFromLog(
    tracker: TabIdleTracker, registry: TabRegistry.Registry, loaded: map<Str, int>, snaps: seq<TabRegistry.Snapshot>,
    now: int, timeout: int, grace: int)
    returns (present: set<Str>)
    modifies tracker
    ensures forall tid :: tid in present <==> tid != [] && exists i :: 0 <= i < |snaps| && snaps[i].targetId == tid
    ensures Reconciled(
              old(tracker.managed), tracker.managed, registry.View(), loaded, present, MinLast(now, timeout, grace))
  {
    hide TrimSpace;
    var minLast := now;
    if timeout > grace { minLast := now - (timeout - grace); }
    present := PresentTargets(snaps);
    ghost var reg, before := registry.View(), tracker.managed;
    var todo := loaded.Keys;
    while todo != {}
      invariant todo <= loaded.Keys && registry.View() == reg
      invariant Reconciled(before, tracker.managed, reg, loaded - todo, present, minLast)
      decreases todo
    {
      var short :| short in todo;
      assert todo - {short} + {short} == todo;
      todo := todo - {short};
      ghost var clocks := tracker.managed;
      var tid, ok := registry.Lookup(short);
      if !ok || tid !in present {
        ReconcileNone(before, clocks, reg, loaded, todo, present, minLast, short);
        continue;
      }
      var effective := loaded[short];
      if effective < minLast { effective := minLast; }
      tracker.MarkManagedIfAbsentAt(tid, effective);
      ReconcileOne(before, clocks, tracker.managed, reg, loaded, todo, present, minLast, short, tid);
    }
    assert loaded - todo == loaded;
  }

  lemma ReconcileNone(
    before: Clocks, clocks: Clocks, reg: TabRegistry.Reg, loaded: map<Str, int>, todo: set<Str>,
    present: set<Str>, floor: int, short: Str)
    requires short in loaded && short !in todo
    requires Reconciled(before, clocks, reg, loaded - (todo + {short}), present, floor)
    requires forall tid :: !Names(reg, present, short, tid)
    ensures Reconciled(before, clocks, reg, loaded - todo, present, floor)
  {
    hide TrimSpace;
    var small, big := loaded - (todo + {short}), loaded - todo;
    forall t | t in clocks && t !in before ensures exists s :: Gives(reg, big, present, floor, s, t, clocks[t]) {
      var s :| Gives(reg, small, present, floor, s, t, clocks[t]);
      assert Gives(reg, big, present, floor, s, t, clocks[t]);
    }
    forall s, t | s in big && Names(reg, present, s, t) ensures t in clocks {
      assert s != short && s in small;
    }
  }

  lemma ReconcileOne(
    before: Clocks, clocks: Clocks, after: Clocks, reg: TabRegistry.Reg, loaded: map<Str, int>, todo: set<Str>,
    present: set<Str>, floor: int, short: Str, tid: Str)
    requires short in loaded && short !in todo
    requires Reconciled(before, clocks, reg, loaded - (todo + {short}), present, floor)
    requires Names(reg, present, short, tid) && tid != []
    requires after == if tid in clocks then clocks else clocks[tid := Clamp(loaded[short], floor)]
    ensures Reconciled(before, after, reg, loaded - todo, present, floor)
  {
    hide TrimSpace;
    var small, big := loaded - (todo + {short}), loaded - todo;
    forall t | t in after && t !in before ensures exists s :: Gives(reg, big, present, floor, s, t, after[t]) {
      if t in clocks {
        var s :| Gives(reg, small, present, floor, s, t, clocks[t]);
        assert Gives(reg, big, present, floor, s, t, after[t]);
      } else {
        assert Gives(reg, big, present, floor, short, tid, after[tid]);
      }
    }
    forall s, t | s in big && Names(reg, present, s, t) ensures t in after {
      if s != short { assert s in small; }
    }
  }
}
