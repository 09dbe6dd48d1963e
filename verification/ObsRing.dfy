/** The bounded observation ring: a push evicts the oldest entries, a query returns those after a cursor. */
module ObsRing {
  import opened Bytes

  datatype Entry = Entry(seqNo: nat, data: Str)

  /** Ring contents as a value; `dropped` counts evictions. */
  datatype Ring = Ring(cap: nat, q: seq<Entry>, dropped: nat)

  function NewRing(cap: int): Ring {
    Ring(if cap < 0 then 0 else cap, [], 0)
  }

  function PushTo(r: Ring, e: Entry): Ring {
    if r.cap == 0 then r
    else if |r.q| + 1 <= r.cap then r.(q := r.q + [e])
    else
      var n := |r.q| + 1 - r.cap;
      r.(q := (r.q + [e])[n..], dropped := r.dropped + n)
  }

  function After(q: seq<Entry>, since: nat): seq<Entry> {
    if q == [] then []
    else (if q[0].seqNo > since then [q[0]] else []) + After(q[1..], since)
  }

  function Cursor(q: seq<Entry>, since: nat): (c: nat)
    ensures since <= c && forall i :: 0 <= i < |q| ==> q[i].seqNo <= c
    ensures c == since || exists i :: 0 <= i < |q| && q[i].seqNo == c
  {
    if q == [] then since
    else
      var c := Cursor(q[..|q| - 1], since);
      if q[|q| - 1].seqNo > c then q[|q| - 1].seqNo else c
  }

  function Last<T>(s: seq<T>, n: nat): seq<T> {
    if |s| <= n then s else s[|s| - n..]
  }

  function PushAll(r: Ring, es: seq<Entry>): Ring
    decreases |es|
  {
    if es == [] then r else PushAll(PushTo(r, es[0]), es[1..])
  }

  lemma {:induction false} PushAllAppend(r: Ring, es: seq<Entry>, e: Entry)
    ensures PushAll(r, es + [e]) == PushTo(PushAll(r, es), e)
    decreases |es|
  {
    if es == [] {
      assert [] + [e] == [e] && [e][1..] == [];
    } else {
      assert (es + [e])[1..] == es[1..] + [e];
      PushAllAppend(PushTo(r, es[0]), es[1..], e);
    }
  }

  /** A ring holds exactly the last min(capacity, pushed) entries and counts the others as dropped.
      The count is exact precisely when the capacity is positive or nothing was pushed. */
  lemma {:induction false} RingHoldsLast(cap: int, es: seq<Entry>)
    ensures var r := PushAll(NewRing(cap), es);
            && r.cap == NewRing(cap).cap
            && r.q == Last(es, r.cap)
            && r.dropped == (if cap > 0 then |es| - |r.q| else 0)
            && (r.dropped + |r.q| == |es| <==> cap > 0 || es == [])
    decreases |es|
  {
    if es != [] {
      var n := |es| - 1;
      assert es == es[..n] + [es[n]];
      RingHoldsLast(cap, es[..n]);
      PushAllAppend(NewRing(cap), es[..n], es[n]);
      LastAppend(es[..n], es[n], NewRing(cap).cap);
    }
  }

  lemma LastAppend<T>(s: seq<T>, x: T, n: nat)
    ensures n > 0 ==> Last(s + [x], n) == (if |s| < n then s + [x] else Last(s, n)[1..] + [x])
    ensures n == 0 ==> Last(s + [x], n) == Last(s, n)
  {
  }

  ghost predicate Increasing(q: seq<Entry>) {
    forall i, j :: 0 <= i < j < |q| ==> q[i].seqNo < q[j].seqNo
  }

  /** In an increasing ring a query returns a suffix: everything past the first k entries, which are
      those at or below the cursor asked for; and the cursor it returns is the last entry's. */
  lemma QueryIsSuffix(q: seq<Entry>, since: nat, k: nat)
    requires Increasing(q) && k <= |q|
    requires forall i :: 0 <= i < k ==> q[i].seqNo <= since
    requires forall i :: k <= i < |q| ==> q[i].seqNo > since
    ensures After(q, since) == q[k..]
    ensures Cursor(q, since) == if k < |q| then q[|q| - 1].seqNo else since
  {
    hide After, Cursor;
    AfterIsSuffix(q, since, k);
    CursorIsLast(q, since, k);
  }

  lemma CursorIsLast(q: seq<Entry>, since: nat, k: nat)
    requires Increasing(q) && k <= |q|
    requires forall i :: 0 <= i < k ==> q[i].seqNo <= since
    requires forall i :: k <= i < |q| ==> q[i].seqNo > since
    ensures Cursor(q, since) == if k < |q| then q[|q| - 1].seqNo else since
  {
    hide Cursor;
    if k < |q| { assert forall i :: 0 <= i < |q| ==> q[i].seqNo <= q[|q| - 1].seqNo; }
  }

  lemma {:induction false} AfterIsSuffix(q: seq<Entry>, since: nat, k: nat)
    requires k <= |q|
    requires forall i :: 0 <= i < k ==> q[i].seqNo <= since
    requires forall i :: k <= i < |q| ==> q[i].seqNo > since
    ensures After(q, since) == q[k..]
    decreases |q|
  {
    if q != [] {
      if k > 0 {
        AfterIsSuffix(q[1..], since, k - 1);
        assert q[k..] == q[1..][k - 1..];
      } else {
        AfterIsSuffix(q[1..], since, 0);
        assert q[0..] == [q[0]] + q[1..];
      }
    }
  }

  class RingBuffer {
    const cap: nat
    var q: seq<Entry>
    var dropped: nat

    ghost function View(): Ring
      reads this
    {
      Ring(cap, q, dropped)
    }

    constructor (capacity: int)
      ensures View() == NewRing(capacity)
    {
      cap := if capacity < 0 then 0 else capacity;
      q := [];
      dropped := 0;
    }

    method Push(seqNo: nat, data: Str)
      modifies this
      ensures View() == PushTo(old(View()), Entry(seqNo, data))
      ensures old(|q|) <= cap ==> q == Last(old(q) + [Entry(seqNo, data)], cap)
      ensures cap > 0 ==> dropped + |q| == old(dropped + |q|) + 1
    {
      if cap <= 0 { return; }
      q := q + [Entry(seqNo, data)];
      if |q| > cap {
        var n := |q| - cap;
        dropped := dropped + n;
        q := q[n..];
      }
    }

    method QuerySince(since: nat) returns (events: seq<Entry>, cursor: nat, droppedCount: nat)
      ensures droppedCount == dropped
      ensures events == After(q, since)
      ensures cursor == Cursor(q, since)
    {
      droppedCount := dropped;
      events := [];
      var maxSeq := 0;
      for i := 0 to |q|
        invariant events + After(q[i..], since) == After(q, since)
        invariant forall j :: 0 <= j < i ==> q[j].seqNo <= maxSeq
        invariant maxSeq == 0 || exists j :: 0 <= j < i && q[j].seqNo == maxSeq
      {
        var e := q[i];
        assert q[i..][1..] == q[i + 1..];
        if e.seqNo > maxSeq { maxSeq := e.seqNo; }
        if e.seqNo > since {
          assert events + ([e] + After(q[i + 1..], since)) == events + [e] + After(q[i + 1..], since);
          events := events + [e];
        }
      }
      assert q[|q|..] == [];
      cursor := maxSeq;
      if cursor < since { cursor := since; }
    }
  }
}
