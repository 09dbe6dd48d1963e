/** The order in which the pool tries its backends: least load first, round-robin among ties. */
module PoolOrder {
  import opened Bytes

  const TWO63: nat := 0x8000_0000_0000_0000
  const TWO64: nat := 0x1_0000_0000_0000_0000

  /** A uint64 converted to a signed 64-bit int. */
  function Signed(v: nat): int {
    if v < TWO63 then v else v - TWO64
  }

  /** Go's %, which truncates toward zero. */
  function GoRem(a: int, n: nat): int
    requires n > 0
  {
    if a >= 0 then a % n else -((-a) % n)
  }

  /** The first backend of least load among the i backends that follow start on the ring. */
  function Best(loads: seq<int>, start: nat, i: nat): (b: nat)
    requires start < |loads| && 1 <= i
    ensures b < |loads|
    decreases i
  {
    if i == 1 then start
    else
      var b := Best(loads, start, i - 1);
      var next := (start + i - 1) % |loads|;
      if loads[next] < loads[b] then next else b
  }

  function Ring(first: nat, n: nat): (out: seq<nat>)
    requires n > 0
    ensures |out| == n && forall i :: 0 <= i < n ==> out[i] == (first + i) % n
  {
    seq(n, i requires 0 <= i < n => (first + i) % n)
  }

  /** The walk for a counter value; None is the index panic on a negative start. */
  function OrderFor(loads: seq<int>, counter: nat): Option<seq<nat>>
    requires |loads| > 0
  {
    var start := GoRem(Signed(counter), |loads|);
    if start < 0 then None else Some(Ring(Best(loads, start, |loads|), |loads|))
  }

  lemma ModOnce(x: nat, n: nat)
    requires x < 2 * n
    ensures x % n == if x < n then x else x - n
  {
    if x >= n {
      assert x == n * 1 + (x - n);
      ModUnique(x, n, 1, x - n);
    }
  }

  lemma ModUnique(x: nat, n: nat, q: nat, r: nat)
    requires x == n * q + r && r < n
    ensures x % n == r
  {
    var d := x / n - q;
    if d != 0 { Multiples(n, d); }
    assert n * d == r - x % n;
  }

  lemma Multiples(n: nat, d: int)
    requires n > 0 && d != 0
    ensures n * d >= n || n * d <= 0 - n
  {
    if d > 0 {
      AtLeast(n, d);
    } else {
      AtLeast(n, 0 - d);
      assert n * d + n * (0 - d) == n * (d + (0 - d)) == 0;
    }
  }

  lemma {:induction false} AtLeast(n: nat, d: nat)
    requires d > 0
    ensures n * d >= n
    decreases d
  {
    if d > 1 {
      AtLeast(n, d - 1);
      assert n * d == n * (d - 1) + n;
    }
  }

  /** Steps along the ring from one backend to another. */
  function Distance(from: nat, to: nat, n: nat): int {
    if to >= from then to - from else to + n - from
  }

  /** Best is a least load, and no backend of that load comes earlier on the ring. */
  lemma {:induction false} BestIsRingFirst(loads: seq<int>, start: nat, i: nat)
    requires start < |loads| && 1 <= i <= |loads|
    ensures var b := Best(loads, start, i); var n := |loads|;
            && Distance(start, b, n) < i
            && forall x :: 0 <= x < n && Distance(start, x, n) < i ==>
                 loads[b] < loads[x] || (loads[b] == loads[x] && Distance(start, b, n) <= Distance(start, x, n))
    decreases i
  {
    var n := |loads|;
    if i > 1 {
      BestIsRingFirst(loads, start, i - 1);
      ModOnce(start + i - 1, n);
      var next := (start + i - 1) % n;
      assert Distance(start, next, n) == i - 1;
      forall x | 0 <= x < n && Distance(start, x, n) == i - 1 ensures x == next {}
    }
  }

  lemma RingIsPermutation(first: nat, n: nat)
    requires first < n
    ensures var out := Ring(first, n);
            && out[0] == first && Distinct(out)
            && (forall b :: 0 <= b < n <==> b in out)
  {
    var out := Ring(first, n);
    forall i | 0 <= i < n ensures out[i] == if first + i < n then first + i else first + i - n {
      ModOnce(first + i, n);
    }
    forall b | 0 <= b < n ensures b in out {
      assert out[Distance(first, b, n)] == b;
    }
  }

  /** While the counter is below 2^63 the walk tries every backend exactly once, in ring order, from the one
      of least load; among equal loads the one soonest after the counter's position goes first. */
  lemma OrderMeaning(loads: seq<int>, counter: nat)
    requires |loads| > 0 && counter < TWO63
    ensures var n := |loads|; var start := counter % n;
            && OrderFor(loads, counter).Some?
            && var out := OrderFor(loads, counter).value;
            && |out| == n && Distinct(out) && (forall b :: 0 <= b < n <==> b in out)
            && (forall i :: 0 <= i < n - 1 ==> out[i + 1] == if out[i] + 1 == n then 0 else out[i] + 1)
            && forall b :: 0 <= b < n ==>
                 loads[out[0]] < loads[b]
                 || (loads[out[0]] == loads[b] && Distance(start, out[0], n) <= Distance(start, b, n))
  {
    var n := |loads|;
    var start := counter % n;
    BestIsRingFirst(loads, start, n);
    var first := Best(loads, start, n);
    RingIsPermutation(first, n);
    var out := Ring(first, n);
    forall i | 0 <= i < n - 1 ensures out[i + 1] == if out[i] + 1 == n then 0 else out[i] + 1 {
      ModOnce(first + i, n);
      ModOnce(first + i + 1, n);
    }
  }

  /** When the walk survives at all: past 2^63 only counters whose distance to 2^64 is a multiple of the
      number of backends avoid the panic. */
  lemma OrderDefinedIff(loads: seq<int>, counter: nat)
    requires |loads| > 0 && counter < TWO64
    ensures OrderFor(loads, counter).Some? <==> counter < TWO63 || (TWO64 - counter) % |loads| == 0
  {
  }

  /** And it does panic: three idle backends, the counter just past the largest signed value. */
  lemma OrderPanics()
    ensures OrderFor([0, 0, 0], TWO63) == None
  {
    OrderDefinedIff([0, 0, 0], TWO63);
  }

  // ---- Fair turns --------------------------------------------------------------

  ghost predicate Level(loads: seq<int>) {
    forall i, j :: 0 <= i < |loads| && 0 <= j < |loads| ==> loads[i] == loads[j]
  }

  /** How many of the calls that found the loads listed, one after the other, put backend b first. */
  function TurnsOf(b: nat, n: nat, loads: seq<seq<int>>, counter: nat): nat
    requires n > 0 && forall i :: 0 <= i < |loads| ==> |loads[i]| == n
  {
    if loads == [] then 0
    else
      var m := |loads| - 1;
      var out := OrderFor(loads[m], counter + m);
      TurnsOf(b, n, loads[..m], counter) + if out.Some? && out.value[0] == b then 1 else 0
  }

  function Hits(b: nat, n: nat, from: nat, count: nat): nat
    requires n > 0
  {
    if count == 0 then 0 else Hits(b, n, from, count - 1) + if (from + count - 1) % n == b then 1 else 0
  }

  lemma {:induction false} LevelBest(loads: seq<int>, start: nat, i: nat)
    requires Level(loads) && start < |loads| && 1 <= i
    ensures Best(loads, start, i) == start
    decreases i
  {
    if i > 1 { LevelBest(loads, start, i - 1); }
  }

  lemma LevelHead(loads: seq<int>, counter: nat)
    requires Level(loads) && |loads| > 0 && counter < TWO63
    ensures var out := OrderFor(loads, counter); out.Some? && out.value[0] == counter % |loads|
  {
    var n := |loads|;
    LevelBest(loads, counter % n, n);
    ModOnce(counter % n, n);
  }

  lemma {:induction false} TurnsAreHits(b: nat, n: nat, loads: seq<seq<int>>, counter: nat)
    requires n > 0 && counter + |loads| <= TWO63
    requires forall i :: 0 <= i < |loads| ==> |loads[i]| == n && Level(loads[i])
    ensures TurnsOf(b, n, loads, counter) == Hits(b, n, counter, |loads|)
    decreases |loads|
  {
    hide OrderFor, Level;
    if loads != [] {
      var m := |loads| - 1;
      TurnsAreHits(b, n, loads[..m], counter);
      LevelHead(loads[m], counter + m);
    }
  }

  lemma {:induction false} HitsFront(b: nat, n: nat, from: nat, count: nat)
    requires n > 0 && count > 0
    ensures Hits(b, n, from, count) == (if from % n == b then 1 else 0) + Hits(b, n, from + 1, count - 1)
    decreases count
  {
    if count > 1 { HitsFront(b, n, from, count - 1); }
  }

  lemma {:induction false} HitsFromZero(b: nat, n: nat, count: nat)
    requires b < n && count <= n
    ensures Hits(b, n, 0, count) == if b < count then 1 else 0
    decreases count
  {
    if count > 0 {
      HitsFromZero(b, n, count - 1);
      ModOnce(count - 1, n);
    }
  }

  lemma ModPeriod(x: nat, n: nat)
    requires n > 0
    ensures (x + n) % n == x % n
  {
    assert n * (x / n + 1) == n * (x / n) + n;
    ModUnique(x + n, n, x / n + 1, x % n);
  }

  lemma {:induction false} HitsInOneRound(b: nat, n: nat, from: nat)
    requires b < n
    ensures Hits(b, n, from, n) == 1
    decreases from
  {
    if from == 0 {
      HitsFromZero(b, n, n);
    } else {
      HitsInOneRound(b, n, from - 1);
      HitsFront(b, n, from - 1, n);
      ModPeriod(from - 1, n);
    }
  }

  lemma {:induction false} HitsSplit(b: nat, n: nat, from: nat, x: nat, y: nat)
    requires n > 0
    ensures Hits(b, n, from, x + y) == Hits(b, n, from, x) + Hits(b, n, from + x, y)
    decreases y
  {
    if y > 0 { HitsSplit(b, n, from, x, y - 1); }
  }

  lemma {:induction false} HitsInRounds(b: nat, n: nat, from: nat, k: nat)
    requires b < n
    ensures Hits(b, n, from, k * n) == k
    decreases k
  {
    if k > 0 {
      var before := (k - 1) * n;
      assert k * n == before + n;
      HitsInRounds(b, n, from, k - 1);
      HitsSplit(b, n, from, before, n);
      HitsInOneRound(b, n, from + before);
    }
  }

  /** Any k·n consecutive calls that each find the n loads level put every backend first exactly k times. */
  lemma FairTurns(b: nat, n: nat, loads: seq<seq<int>>, counter: nat, k: nat)
    requires b < n && |loads| == k * n && counter + |loads| <= TWO63
    requires forall i :: 0 <= i < |loads| ==> |loads[i]| == n && Level(loads[i])
    ensures TurnsOf(b, n, loads, counter) == k
  {
    TurnsAreHits(b, n, loads, counter);
    HitsInRounds(b, n, counter, k);
  }
}
