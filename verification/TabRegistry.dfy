/** Short ids for browser targets: two maps kept mutually inverse while targets come and go. */
module TabRegistry {
  import opened Bytes

  // ---- Hex digits ----------------------------------------------------------------

  predicate IsHex(b: Byte) {
    48 <= b <= 57 || 97 <= b <= 102 || 65 <= b <= 70
  }

  function Lower(b: Byte): Byte {
    if 65 <= b <= 70 then b + 32 else b
  }

  /** The hex digits of an id in order, lower-cased. */
  function HexDigits(s: Str): Str {
    if s == [] then [] else (if IsHex(s[0]) then [Lower(s[0])] else []) + HexDigits(s[1..])
  }

  method HexRunes(s: Str) returns (out: Str)
    ensures out == HexDigits(s)
  {
    out := [];
    for i := 0 to |s|
      invariant out + HexDigits(s[i..]) == HexDigits(s)
    {
      HexDigitsFrom(s, i);
      hide HexDigits;
      if IsHex(s[i]) {
        assert out + ([Lower(s[i])] + HexDigits(s[i + 1..])) == out + [Lower(s[i])] + HexDigits(s[i + 1..]);
        out := out + [Lower(s[i])];
      }
    }
    assert s[|s|..] == [];
  }

  lemma HexDigitsFrom(s: Str, i: nat)
    requires i < |s|
    ensures HexDigits(s[i..]) == (if IsHex(s[i]) then [Lower(s[i])] else []) + HexDigits(s[i + 1..])
  {
    assert s[i..][1..] == s[i + 1..];
  }

  /** The places of the hex bytes of s from place i on. */
  function HexPlaces(s: Str, i: nat): seq<nat>
    decreases |s| - i
  {
    if i >= |s| then [] else (if IsHex(s[i]) then [i] else []) + HexPlaces(s, i + 1)
  }

  lemma {:induction false} HexPlaceIn(s: Str, i: nat, x: nat)
    ensures x in HexPlaces(s, i) <==> i <= x < |s| && IsHex(s[x])
    decreases |s| - i
  {
    if i < |s| {
      HexPlaceIn(s, i + 1, x);
      assert x in [i] <==> x == i;
    }
  }

  lemma {:induction false} HexPlacesRise(s: Str, i: nat, a: nat, b: nat)
    requires a < b < |HexPlaces(s, i)|
    ensures HexPlaces(s, i)[a] < HexPlaces(s, i)[b]
    decreases |s| - i
  {
    var rest := HexPlaces(s, i + 1);
    if !IsHex(s[i]) {
      HexPlacesRise(s, i + 1, a, b);
    } else if a > 0 {
      HexPlacesRise(s, i + 1, a - 1, b - 1);
    } else {
      HexPlaceIn(s, i + 1, rest[b - 1]);
      assert rest[b - 1] in rest;
    }
  }

  lemma {:induction false} DigitsAtPlaces(s: Str, i: nat, a: nat)
    requires i <= |s| && a < |HexPlaces(s, i)|
    ensures |HexDigits(s[i..])| == |HexPlaces(s, i)| && HexPlaces(s, i)[a] < |s|
    ensures HexDigits(s[i..])[a] == Lower(s[HexPlaces(s, i)[a]])
    decreases |s| - i
  {
    assert s[i..][1..] == s[i + 1..];
    var rest := HexPlaces(s, i + 1);
    if rest == [] {
      NoPlaces(s, i + 1);
    } else {
      DigitsAtPlaces(s, i + 1, if IsHex(s[i]) && a > 0 then a - 1 else if IsHex(s[i]) then 0 else a);
    }
  }

  lemma {:induction false} NoPlaces(s: Str, i: nat)
    requires i <= |s| && HexPlaces(s, i) == []
    ensures HexDigits(s[i..]) == []
    decreases |s| - i
  {
    if i < |s| {
      assert s[i..][1..] == s[i + 1..];
      NoPlaces(s, i + 1);
    }
  }

  /** The digits of an id are its bytes that are hex digits, all of them and in order; upper case becomes lower. */
  lemma HexDigitsMean(s: Str)
    ensures var hex, places := HexDigits(s), HexPlaces(s, 0);
            && |hex| == |places|
            && (forall x: nat :: x in places <==> x < |s| && IsHex(s[x]))
            && (forall a, b :: 0 <= a < b < |places| ==> places[a] < places[b])
            && forall a :: 0 <= a < |hex| ==>
                 && places[a] < |s|
                 && hex[a] == (if 'A' as int <= s[places[a]] as int <= 'F' as int then s[places[a]] + 32
                               else s[places[a]])
  {
    var hex, places := HexDigits(s), HexPlaces(s, 0);
    assert s[0..] == s;
    if places == [] { NoPlaces(s, 0); } else { DigitsAtPlaces(s, 0, 0); }
    hide HexDigits, HexPlaces;
    forall x: nat ensures x in places <==> x < |s| && IsHex(s[x]) { HexPlaceIn(s, 0, x); }
    forall a, b | 0 <= a < b < |places| ensures places[a] < places[b] { HexPlacesRise(s, 0, a, b); }
    forall a | 0 <= a < |hex| ensures places[a] < |s| && hex[a] == Lower(s[places[a]]) { DigitsAtPlaces(s, 0, a); }
  }

  /** A byte is a hex digit when it is one of these characters. */
  lemma HexIs(b: Byte)
    ensures IsHex(b) <==> exists c :: c in "0123456789abcdefABCDEF" && c as int == b as int
  {
    var digits := "0123456789abcdefABCDEF";
    if IsHex(b) {
      var k := if b <= 57 then b as int - 48 else if b <= 70 then b as int - 65 + 16 else b as int - 97 + 10;
      assert digits[k] in digits && digits[k] as int == b as int;
    }
  }

  function Tail(s: Str, n: nat): Str
    requires n <= |s|
  {
    s[|s| - n..]
  }

  predicate IsSuffix(a: Str, b: Str) {
    |a| <= |b| && Tail(b, |a|) == a
  }

  const MAX_SANITIZED := 64

  function SanitizeShort(s: Str): Str {
    var t := TrimSpace(s);
    if |t| > MAX_SANITIZED then Tail(t, MAX_SANITIZED) else t
  }

  // ---- The registry as a value ------------------------------------------------------

  datatype Reg = Reg(short: map<Str, Str>, target: map<Str, Str>, selected: Str)

  const Empty := Reg(map[], map[], [])

  const MIN_SHORT: nat := 4

  predicate Free(reg: Reg, id: Str, cand: Str) {
    !(cand in reg.target && reg.target[cand] != id)
  }

  /** Shortest length, from n up, whose hex suffix no other id has. */
  function FreeLength(reg: Reg, id: Str, hex: Str, n: nat): (m: Option<nat>)
    ensures m.Some? ==> n <= m.value <= |hex| && Free(reg, id, Tail(hex, m.value))
    ensures m.Some? ==> forall j :: n <= j < m.value ==> !Free(reg, id, Tail(hex, j))
    ensures m.None? ==> forall j :: n <= j <= |hex| ==> !Free(reg, id, Tail(hex, j))
    decreases |hex| + 1 - n
  {
    if n > |hex| then None
    else if Free(reg, id, Tail(hex, n)) then Some(n)
    else FreeLength(reg, id, hex, n + 1)
  }

  function Register(reg: Reg, id: Str, short: Str): Reg {
    reg.(short := reg.short[id := short], target := reg.target[short := id])
  }

  function NewShort(reg: Reg, id: Str): Str {
    var hex := HexDigits(id);
    if hex == [] then
      var s := SanitizeShort(id);
      if Free(reg, id, s) then s else id
    else
      match FreeLength(reg, id, hex, MIN_SHORT)
      case Some(n) => Tail(hex, n)
      case None => hex
  }

  function ShortOf(reg: Reg, id: Str): Str {
    if id in reg.short then reg.short[id] else NewShort(reg, id)
  }

  function Assign(reg: Reg, id: Str): Reg {
    if id in reg.short then reg else Register(reg, id, NewShort(reg, id))
  }

  function AssignAll(reg: Reg, ids: seq<Str>): Reg
    decreases |ids|
  {
    if ids == [] then reg else AssignAll(Assign(reg, ids[0]), ids[1..])
  }

  function Remove(reg: Reg, id: Str): Reg {
    if id !in reg.short then reg
    else
      var s := reg.short[id];
      Reg(reg.short - {id}, reg.target - {s}, if reg.selected == s then [] else reg.selected)
  }

  /** All ids that are not present are gone, and with them their short ids. */
  function Drop(reg: Reg, present: set<Str>): Reg {
    var gone := set id | id in reg.short && id !in present;
    var shorts := set id | id in gone :: reg.short[id];
    Reg(reg.short - gone, reg.target - shorts, if reg.selected in shorts then [] else reg.selected)
  }

  ghost function Sync(reg: Reg, present: set<Str>): Reg {
    AssignAll(Drop(reg, present), SortedElements(present))
  }

  function Select(reg: Reg, short: Str): Reg {
    var s := TrimSpace(short);
    if s != [] && s in reg.target then reg.(selected := s) else reg
  }

  // ---- What ids must be like, and what then always holds ---------------------------------

  /** Ids that can live together: at least four hex digits each, none the suffix of another's. */
  ghost predicate Compatible(ids: set<Str>) {
    && (forall a :: a in ids ==> |HexDigits(a)| >= MIN_SHORT)
    && (forall a, b :: a in ids && b in ids && a != b ==> !IsSuffix(HexDigits(a), HexDigits(b)))
  }

  ghost predicate Inverse(reg: Reg) {
    && (forall id :: id in reg.short ==> reg.short[id] in reg.target && reg.target[reg.short[id]] == id)
    && (forall s :: s in reg.target ==> reg.target[s] in reg.short && reg.short[reg.target[s]] == s)
  }

  ghost predicate Inv(reg: Reg) {
    && Inverse(reg)
    && (reg.selected == [] || reg.selected in reg.target)
    && (forall id :: id in reg.short ==> |reg.short[id]| >= MIN_SHORT && IsSuffix(reg.short[id], HexDigits(id)))
  }

  /** Among compatible ids a free suffix always exists, so the overwriting fallback is never reached. */
  lemma NeverFallsBack(reg: Reg, id: Str)
    requires Inv(reg) && Compatible(reg.short.Keys + {id}) && id !in reg.short
    ensures FreeLength(reg, id, HexDigits(id), MIN_SHORT).Some?
    ensures NewShort(reg, id) !in reg.target
    ensures |NewShort(reg, id)| >= MIN_SHORT && IsSuffix(NewShort(reg, id), HexDigits(id))
  {
    WholeIsFree(reg, id);
    var m := FreeLength(reg, id, HexDigits(id), MIN_SHORT);
    if m.Some? { TargetsAreOthers(reg, id); }
  }

  lemma TargetsAreOthers(reg: Reg, id: Str)
    requires Inverse(reg) && id !in reg.short
    ensures forall s :: s in reg.target ==> !Free(reg, id, s)
  {
    forall s | s in reg.target ensures !Free(reg, id, s) {
      assert reg.target[s] in reg.short;
    }
  }

  lemma WholeIsFree(reg: Reg, id: Str)
    requires Inv(reg) && Compatible(reg.short.Keys + {id}) && id !in reg.short
    ensures var hex := HexDigits(id); Tail(hex, |hex|) == hex && Free(reg, id, hex) && |hex| >= MIN_SHORT
  {
    hide HexDigits;
    var hex := HexDigits(id);
    var all := reg.short.Keys + {id};
    assert id in all;
    forall s | s in reg.target && reg.target[s] != id ensures s != hex {
      var oid := reg.target[s];
      assert reg.short[oid] == s && IsSuffix(s, HexDigits(oid));
      assert oid in all;
    }
  }

  lemma AssignKeeps(reg: Reg, id: Str)
    requires Inv(reg) && Compatible(reg.short.Keys + {id})
    ensures var n := Assign(reg, id);
            && Inv(n) && n.short.Keys == reg.short.Keys + {id} && n.selected == reg.selected
            && n.short[id] == ShortOf(reg, id)
            && forall x :: x in reg.short ==> n.short[x] == reg.short[x]
  {
    hide FreeLength, HexDigits, NewShort, Compatible;
    if id !in reg.short {
      NeverFallsBack(reg, id);
      RegisterKeeps(reg, id, NewShort(reg, id));
    }
  }

  lemma RegisterKeeps(reg: Reg, id: Str, short: Str)
    requires Inv(reg) && id !in reg.short && short !in reg.target
    requires |short| >= MIN_SHORT && IsSuffix(short, HexDigits(id))
    ensures Inv(Register(reg, id, short))
  {
    hide HexDigits, IsSuffix;
  }

  lemma DropKeeps(reg: Reg, present: set<Str>)
    requires Inv(reg)
    ensures var n := Drop(reg, present);
            && Inv(n) && n.short.Keys == reg.short.Keys * present
            && forall x :: x in n.short ==> n.short[x] == reg.short[x]
  {
    var gone := set id | id in reg.short && id !in present;
    var shorts := set id | id in gone :: reg.short[id];
    var n := Drop(reg, present);
    forall id | id in n.short ensures n.short[id] in n.target && n.target[n.short[id]] == id {
      assert reg.short[id] !in shorts;
    }
    forall s | s in n.target ensures n.target[s] in n.short && n.short[n.target[s]] == s {
      assert s !in shorts && reg.short[reg.target[s]] == s;
      assert reg.target[s] in gone ==> s in shorts;
    }
  }

  lemma {:induction false} AssignAllKeeps(reg: Reg, ids: seq<Str>, present: set<Str>)
    requires Inv(reg) && reg.short.Keys <= present && Compatible(present) && forall x :: x in ids ==> x in present
    ensures var n := AssignAll(reg, ids);
            && Inv(n) && (forall x :: x in n.short <==> x in reg.short || x in ids) && n.selected == reg.selected
            && forall x :: x in reg.short ==> n.short[x] == reg.short[x]
    decreases |ids|
  {
    hide HexDigits, Compatible, Inv, Assign, ShortOf;
    if ids != [] {
      assert ids[0] in ids;
      CompatibleSubset(present, reg.short.Keys + {ids[0]});
      AssignKeeps(reg, ids[0]);
      AssignAllKeeps(Assign(reg, ids[0]), ids[1..], present);
      assert ids == [ids[0]] + ids[1..];
    }
  }

  lemma CompatibleSubset(big: set<Str>, small: set<Str>)
    requires Compatible(big) && small <= big
    ensures Compatible(small)
  {
  }

  // ---- Runs ---------------------------------------------------------------------------

  datatype Event = SyncTo(present: set<Str>) | RegisterId(id: Str) | RemoveId(id: Str) | SelectShort(short: Str)

  ghost function Step(reg: Reg, ev: Event): Reg {
    match ev
    case SyncTo(present) => Sync(reg, present)
    case RegisterId(id) => Assign(reg, id)
    case RemoveId(id) => Remove(reg, id)
    case SelectShort(short) => Select(reg, short)
  }

  /** The ids that live together once the event has happened. */
  ghost predicate Admissible(reg: Reg, ev: Event) {
    match ev
    case SyncTo(present) => Compatible(present)
    case RegisterId(id) => Compatible(reg.short.Keys + {id})
    case _ => true
  }

  /** Every operation keeps the maps mutually inverse, and no operation changes the short id of a target that stays.
      A select selects a registered short id; every other operation keeps the selection if its target stays and
      drops it if not. */
  lemma StepKeeps(reg: Reg, ev: Event)
    requires Inv(reg) && Admissible(reg, ev)
    ensures var n := Step(reg, ev);
            && Inv(n)
            && (forall x :: x in reg.short && x in n.short ==> n.short[x] == reg.short[x])
            && n.selected == (match ev
                              case SelectShort(short) =>
                                if TrimSpace(short) != [] && TrimSpace(short) in reg.target then TrimSpace(short)
                                else reg.selected
                              case _ =>
                                if reg.selected in reg.target && reg.target[reg.selected] in n.short then reg.selected
                                else [])
            && n.short.Keys == (match ev
                                case SyncTo(present) => present
                                case RegisterId(id) => reg.short.Keys + {id}
                                case RemoveId(id) => reg.short.Keys - {id}
                                case SelectShort(_) => reg.short.Keys)
  {
    match ev
    case SyncTo(present) =>
      DropKeeps(reg, present);
      AssignAllKeeps(Drop(reg, present), SortedElements(present), present);
    case RegisterId(id) => AssignKeeps(reg, id);
    case RemoveId(id) => RemoveKeeps(reg, id);
    case SelectShort(short) =>
  }

  lemma RemoveKeeps(reg: Reg, id: Str)
    requires Inv(reg)
    ensures Inv(Remove(reg, id)) && Remove(reg, id).short.Keys == reg.short.Keys - {id}
  {
    hide HexDigits, IsSuffix;
  }

  ghost predicate Run(regs: seq<Reg>, evs: seq<Event>) {
    && |regs| == |evs| + 1 && regs[0] == Empty
    && forall i :: 0 <= i < |evs| ==> Admissible(regs[i], evs[i]) && regs[i + 1] == Step(regs[i], evs[i])
  }

  /** Over every run whose ids are compatible while they live together, the maps stay mutually inverse,
      the selection is registered or empty, and a target keeps one short id for as long as it stays. */
  lemma {:induction false} RunsKeepBijection(regs: seq<Reg>, evs: seq<Event>, j: nat, k: nat)
    requires Run(regs, evs) && j <= k <= |evs|
    ensures Inv(regs[k])
    ensures forall x :: (forall i :: j <= i <= k ==> x in regs[i].short) ==> regs[k].short[x] == regs[j].short[x]
    decreases k
  {
    if j < k {
      RunsKeepBijection(regs, evs, j, k - 1);
      StepKeeps(regs[k - 1], evs[k - 1]);
      forall x | forall i :: j <= i <= k ==> x in regs[i].short
        ensures regs[k].short[x] == regs[j].short[x]
      {
        assert x in regs[k - 1].short && x in regs[k].short;
      }
    } else if k > 0 {
      RunsKeepBijection(regs, evs, k - 1, k - 1);
      StepKeeps(regs[k - 1], evs[k - 1]);
    }
  }

  /** Some target's short id now names another target. */
  ghost predicate Overwritten(before: Reg, after: Reg) {
    exists oid :: oid in before.short && before.short[oid] in after.target && after.target[before.short[oid]] != oid
  }

  /** When a registration takes away another target's short id: with hex digits, exactly when every suffix it
      may try is taken by others, and its whole digit string is one of those taken; without, exactly when both
      its trimmed form and the id itself are. */
  lemma OverwritesIff(reg: Reg, id: Str)
    requires Inverse(reg)
    ensures var hex := HexDigits(id);
            Overwritten(reg, Assign(reg, id)) <==>
              && id !in reg.short
              && if hex == [] then SanitizeShort(id) in reg.target && id in reg.target
                 else hex in reg.target && forall j :: MIN_SHORT <= j <= |hex| ==> Tail(hex, j) in reg.target
  {
    hide HexDigits, SanitizeShort;
    if id !in reg.short {
      var s := NewShort(reg, id);
      TargetsAreOthers(reg, id);
      OverwritesItsShort(reg, id, s);
    }
  }

  /** An id without hex digits goes by its trimmed form, cut to its last bytes, or by itself if that is taken. */
  lemma NoDigitsShort(reg: Reg, id: Str)
    requires Inverse(reg) && HexDigits(id) == [] && id !in reg.short
    ensures var short, t := Assign(reg, id).short[id], TrimSpace(id);
            var cut := if |t| > 64 then t[|t| - 64..] else t;
            short == if cut in reg.target then id else cut
  {
    hide HexDigits, TrimSpace;
    TargetsAreOthers(reg, id);
  }

  lemma OverwritesItsShort(reg: Reg, id: Str, s: Str)
    requires Inverse(reg) && id !in reg.short
    ensures Overwritten(reg, Register(reg, id, s)) <==> s in reg.target
  {
    if s in reg.target { assert reg.target[s] in reg.short && reg.short[reg.target[s]] == s; }
  }

  /** Both happen: two ids without hex digits, one the other with a space in front, and two ids with the same
      single digit. */
  lemma OverwriteHappens()
    ensures var spaced: Str, plain: Str := [SPACE, 120, 121, 122], [120, 121, 122]; var reg := Assign(Empty, spaced);
            Inverse(reg) && Overwritten(reg, Assign(reg, plain))
    ensures var lower: Str, upper: Str := [97], [65]; var reg := Assign(Empty, lower);
            Inverse(reg) && Overwritten(reg, Assign(reg, upper))
  {
    var spaced: Str, plain: Str := [SPACE, 120, 121, 122], [120, 121, 122];
    assert TrimLeft([SPACE]) == [] by { assert LeadingSpace([SPACE]) == 1; }
    TrimAround([SPACE], plain);
    assert [SPACE] + plain == spaced;
    InertEnds(plain);
    TrimSpaceIsProjection(plain);
    NoDigits(plain);
    NoDigits(spaced);
    hide TrimSpace;
    SoleShort(spaced, plain);
    OverwritesIff(Assign(Empty, spaced), plain);
    var lower: Str, upper: Str := [97], [65];
    assert HexDigits(lower) == [97] && HexDigits(upper) == [97];
    SoleShort(lower, lower);
    OverwritesIff(Assign(Empty, lower), upper);
  }

  lemma {:induction false} NoDigits(s: Str)
    requires forall i :: 0 <= i < |s| ==> !IsHex(s[i])
    ensures HexDigits(s) == []
    decreases |s|
  {
    if s != [] { NoDigits(s[1..]); }
  }

  /** The first registration. */
  lemma SoleShort(id: Str, short: Str)
    requires NewShort(Empty, id) == short
    ensures Assign(Empty, id) == Reg(map[id := short], map[short := id], []) && Inverse(Assign(Empty, id))
  {
    hide NewShort;
  }

  // ---- Short ids that do not depend on history -------------------------------------------

  /** Ids that differ in their last four hex digits already. */
  ghost predicate FourDistinct(ids: set<Str>) {
    && (forall a :: a in ids ==> |HexDigits(a)| >= MIN_SHORT)
    && (forall a, b :: a in ids && b in ids && a != b ==> LastFour(a) != LastFour(b))
  }

  function LastFour(id: Str): Str {
    if |HexDigits(id)| < MIN_SHORT then [] else Tail(HexDigits(id), MIN_SHORT)
  }

  ghost predicate AllLastFour(reg: Reg) {
    forall id :: id in reg.short ==> reg.short[id] == LastFour(id)
  }

  lemma FourDistinctCompatible(ids: set<Str>)
    requires FourDistinct(ids)
    ensures Compatible(ids)
  {
    hide HexDigits;
    forall a, b | a in ids && b in ids && a != b ensures !IsSuffix(HexDigits(a), HexDigits(b)) {
      if IsSuffix(HexDigits(a), HexDigits(b)) {
        assert LastFour(a) != LastFour(b);
        TailOfTail(HexDigits(b), |HexDigits(a)|, MIN_SHORT);
      }
    }
  }

  lemma TailOfTail(s: Str, n: nat, m: nat)
    requires m <= n <= |s|
    ensures Tail(Tail(s, n), m) == Tail(s, m)
  {
  }

  lemma AssignLastFour(reg: Reg, id: Str)
    requires Inv(reg) && AllLastFour(reg) && FourDistinct(reg.short.Keys + {id})
    ensures AllLastFour(Assign(reg, id))
  {
    hide HexDigits;
    if id !in reg.short {
      var all := reg.short.Keys + {id};
      assert id in all;
      forall s | s in reg.target ensures s != LastFour(id) {
        assert reg.target[s] in all && LastFour(reg.target[s]) == s;
      }
      assert FreeLength(reg, id, HexDigits(id), MIN_SHORT) == Some(MIN_SHORT);
    }
  }

  lemma {:induction false} AssignAllLastFour(reg: Reg, ids: seq<Str>, present: set<Str>)
    requires Inv(reg) && AllLastFour(reg) && reg.short.Keys <= present && FourDistinct(present)
    requires forall x :: x in ids ==> x in present
    ensures AllLastFour(AssignAll(reg, ids))
    decreases |ids|
  {
    hide HexDigits, Inv, AllLastFour, Assign, LastFour;
    if ids != [] {
      assert ids[0] in present;
      var small := reg.short.Keys + {ids[0]};
      assert small <= present;
      FourDistinctSubset(present, small);
      FourDistinctCompatible(small);
      AssignKeeps(reg, ids[0]);
      AssignLastFour(reg, ids[0]);
      AssignAllLastFour(Assign(reg, ids[0]), ids[1..], present);
    }
  }

  lemma FourDistinctSubset(big: set<Str>, small: set<Str>)
    requires FourDistinct(big) && small <= big
    ensures FourDistinct(small)
  {
    hide HexDigits, LastFour;
  }

  /** While the ids alive differ in their last four digits, every short id is those digits, whatever the
      order of events; so a restarted daemon gives a target the short id it had. */
  lemma StepLastFour(reg: Reg, ev: Event)
    requires Inv(reg) && Admissible(reg, ev) && AllLastFour(reg) && FourDistinct(Step(reg, ev).short.Keys)
    ensures AllLastFour(Step(reg, ev))
  {
    hide HexDigits, LastFour, NewShort, FourDistinct, Compatible;
    StepKeeps(reg, ev);
    match ev
    case SyncTo(present) =>
      DropKeeps(reg, present);
      AssignAllLastFour(Drop(reg, present), SortedElements(present), present);
    case RegisterId(id) => AssignLastFour(reg, id);
    case RemoveId(id) =>
    case SelectShort(short) =>
  }

  lemma {:induction false} AssignAllAppend(reg: Reg, a: seq<Str>, b: seq<Str>)
    ensures AssignAll(reg, a + b) == AssignAll(AssignAll(reg, a), b)
    decreases |a|
  {
    hide Assign;
    if a == [] {
      assert a + b == b;
    } else {
      assert (a + b)[1..] == a[1..] + b;
      AssignAllAppend(Assign(reg, a[0]), a[1..], b);
    }
  }

  /** A target listed before id in sorted order has this short id. */
  ghost predicate TakenBefore(reg: Reg, present: set<Str>, id: Str, short: Str) {
    exists b :: b in present && b in reg.short && Less(b, id) && reg.short[b] == short
  }

  /** A registration takes a suffix exactly when it is free and no shorter one is. */
  lemma NewShortIff(reg: Reg, id: Str, n: nat)
    requires Inv(reg) && Compatible(reg.short.Keys + {id}) && id !in reg.short && MIN_SHORT <= n <= |HexDigits(id)|
    ensures var hex := HexDigits(id);
            NewShort(reg, id) == Tail(hex, n) <==>
              Tail(hex, n) !in reg.target && forall m :: MIN_SHORT <= m < n ==> Tail(hex, m) in reg.target
  {
    hide HexDigits, Compatible;
    NeverFallsBack(reg, id);
    TargetsAreOthers(reg, id);
    var hex := HexDigits(id);
    var m := FreeLength(reg, id, hex, MIN_SHORT).value;
    assert NewShort(reg, id) == Tail(hex, m);
    assert |Tail(hex, m)| == m && |Tail(hex, n)| == n;
  }

  /** A fresh sync is the registration of the targets before the k-th, of the k-th, and of the rest. */
  lemma FreshSplit(present: set<Str>, ids: seq<Str>, k: nat)
    requires ids == SortedElements(present) && k < |ids|
    ensures Sync(Empty, present) == AssignAll(Assign(AssignAll(Empty, ids[..k]), ids[k]), ids[k + 1..])
  {
    hide Assign, SortedElements;
    var pre, id, rest := ids[..k], ids[k], ids[k + 1..];
    assert ids == pre + ([id] + rest);
    AssignAllAppend(Empty, pre, [id] + rest);
    assert ([id] + rest)[1..] == rest;
    assert Drop(Empty, present) == Empty;
  }

  /** Where the targets before the k-th stand when a fresh sync comes to it. */
  lemma FreshUpTo(present: set<Str>, ids: seq<Str>, k: nat)
    requires Compatible(present) && ids == SortedElements(present) && k < |ids|
    ensures var before, id, anew := AssignAll(Empty, ids[..k]), ids[k], Sync(Empty, present);
            && Inv(before) && before.short.Keys <= present && id !in before.short
            && id in anew.short && anew.short[id] == NewShort(before, id)
            && (forall b :: b in before.short <==> b in present && Less(b, id))
            && (forall b :: b in before.short ==> b in anew.short && anew.short[b] == before.short[b])
  {
    hide HexDigits, Inv, NewShort, Compatible, AssignAll, Assign, Sync, SortedElements, Less;
    EmptyIsGood();
    FreshSplit(present, ids, k);
    var pre, id, rest := ids[..k], ids[k], ids[k + 1..];
    forall x | x in pre || x in rest || x == id ensures x in present { assert x in ids; }
    AssignAllKeeps(Empty, pre, present);
    var before := AssignAll(Empty, pre);
    forall b ensures b in pre <==> b in present && Less(b, id) { PrefixIsLess(ids, k, b); }
    LessTotal(id, id);
    CompatibleSubset(present, before.short.Keys + {id});
    AssignKeeps(before, id);
    AssignAllKeeps(Assign(before, id), rest, present);
  }

  lemma EmptyIsGood()
    ensures Inv(Empty) && AllLastFour(Empty)
  {
  }

  lemma PrefixIsLess(ids: seq<Str>, k: nat, b: Str)
    requires Sorted(ids) && k < |ids|
    ensures b in ids[..k] <==> b in ids && Less(b, ids[k])
  {
    hide Less;
    LessTotal(b, ids[k]);
    if b in ids && Less(b, ids[k]) {
      var j :| 0 <= j < |ids| && ids[j] == b;
      LessTotal(b, b);
      assert j < k;
      assert ids[..k][j] == b;
    }
  }

  /** In a fresh sync no target before id in sorted order takes id's short id, and targets before it take
      every shorter suffix. */
  ghost predicate KeepsShort(reg: Reg, present: set<Str>, id: Str)
    requires id in reg.short
  {
    var anew, short := Sync(Empty, present), reg.short[id];
    && !TakenBefore(anew, present, id, short)
    && forall m :: MIN_SHORT <= m < |short| && m <= |HexDigits(id)| ==>
         TakenBefore(anew, present, id, Tail(HexDigits(id), m))
  }

  /** A target has the short id it had again after a restart if and only if the targets before it leave it. */
  lemma SurvivesFreshSyncIff(reg: Reg, present: set<Str>, id: Str)
    requires Inv(reg) && Compatible(present) && id in reg.short && id in present
    ensures var anew := Sync(Empty, present);
            id in anew.short && (anew.short[id] == reg.short[id] <==> KeepsShort(reg, present, id))
  {
    hide HexDigits, NewShort, Compatible, AssignAll, Sync, Less, TakenBefore, SortedElements, FreeLength;
    var ids := SortedElements(present);
    var k :| 0 <= k < |ids| && ids[k] == id;
    FreshUpTo(present, ids, k);
    var before, anew := AssignAll(Empty, ids[..k]), Sync(Empty, present);
    CompatibleSubset(present, before.short.Keys + {id});
    assert Tail(HexDigits(id), |reg.short[id]|) == reg.short[id];
    NewShortIff(before, id, |reg.short[id]|);
    forall s ensures s in before.target <==> TakenBefore(anew, present, id, s) {
      TargetIsTaken(before, anew, present, id, s);
    }
  }

  lemma TargetIsTaken(before: Reg, anew: Reg, present: set<Str>, id: Str, s: Str)
    requires Inverse(before)
    requires forall b :: b in before.short <==> b in present && Less(b, id)
    requires forall b :: b in before.short ==> b in anew.short && anew.short[b] == before.short[b]
    ensures s in before.target <==> TakenBefore(anew, present, id, s)
  {
    hide Less;
    if s in before.target {
      var b := before.target[s];
      assert b in before.short && before.short[b] == s;
    }
    if TakenBefore(anew, present, id, s) {
      var b :| b in present && b in anew.short && Less(b, id) && anew.short[b] == s;
      assert b in before.short && before.short[b] == s;
    }
  }

  /** Without that, history shows: registered in one order and synced afresh in another, two targets swap
      the four-digit id. */
  lemma ShortsCanSwap()
    ensures var a: Str, b: Str := [50, 65, 66, 67, 68], [49, 65, 66, 67, 68];
            var lived, anew := Assign(Assign(Empty, a), b), Sync(Empty, {a, b});
            Compatible({a, b}) && a in lived.short && b in anew.short && lived.short[a] == anew.short[b]
  {
    var a: Str, b: Str := [50, 65, 66, 67, 68], [49, 65, 66, 67, 68];
    var four: Str := [97, 98, 99, 100];
    FiveDigits(a);
    FiveDigits(b);
    assert Less(b, a) && a != b;
    hide HexDigits;
    assert Tail(HexDigits(a), 4) == four && Tail(HexDigits(b), 4) == four;
    assert HexDigits(a)[0] != HexDigits(b)[0];
    PairSwaps(a, b);
  }

  lemma PairSwaps(a: Str, b: Str)
    requires |HexDigits(a)| == |HexDigits(b)| == 5 && HexDigits(a) != HexDigits(b) && Less(b, a)
    requires Tail(HexDigits(a), 4) == Tail(HexDigits(b), 4)
    ensures var lived, anew := Assign(Assign(Empty, a), b), Sync(Empty, {a, b});
            Compatible({a, b}) && a in lived.short && b in anew.short && lived.short[a] == anew.short[b]
  {
    hide HexDigits, Assign, Less, Tail, SortedElements, IsSuffix;
    LessTotal(a, b);
    NeverFallsBackPair(a, b);
    var none := Drop(Empty, {a, b});
    assert none == Empty;
    FirstGetsFour(Empty, a);
    FirstGetsFour(Empty, b);
    SortedUnique(SortedElements({a, b}), [b, a]);
    var one := Assign(Empty, b);
    PairAssigned(one, b, a);
    PairAssigned(Assign(Empty, a), a, b);
    TwoAssigned(Empty, b, a);
  }

  lemma TwoAssigned(reg: Reg, x: Str, y: Str)
    ensures AssignAll(reg, [x, y]) == Assign(Assign(reg, x), y)
  {
    hide Assign;
    assert [x, y][1..] == [y] && [y][1..] == [];
    assert AssignAll(Assign(reg, x), [y]) == Assign(Assign(reg, x), y);
  }

  lemma PairAssigned(reg: Reg, x: Str, y: Str)
    requires x in reg.short && x != y
    ensures x in Assign(reg, y).short && Assign(reg, y).short[x] == reg.short[x]
  {
    hide NewShort;
  }

  lemma FiveDigits(id: Str)
    requires |id| == 5 && forall i :: 0 <= i < 5 ==> IsHex(id[i])
    ensures HexDigits(id) == [Lower(id[0]), Lower(id[1]), Lower(id[2]), Lower(id[3]), Lower(id[4])]
  {
    assert id[1..][1..] == id[2..] && id[2..][1..] == id[3..] && id[3..][1..] == id[4..] && id[4..][1..] == [];
    assert HexDigits(id[4..]) == [Lower(id[4])];
    assert HexDigits(id[3..]) == [Lower(id[3]), Lower(id[4])];
    assert HexDigits(id[2..]) == [Lower(id[2]), Lower(id[3]), Lower(id[4])];
    assert HexDigits(id[1..]) == [Lower(id[1]), Lower(id[2]), Lower(id[3]), Lower(id[4])];
  }

  lemma FirstGetsFour(reg: Reg, id: Str)
    requires reg.target == map[] && reg.short == map[] && |HexDigits(id)| >= 5
    ensures Assign(reg, id).short == map[id := Tail(HexDigits(id), 4)]
  {
    assert FreeLength(reg, id, HexDigits(id), MIN_SHORT) == Some(MIN_SHORT);
  }

  lemma NeverFallsBackPair(a: Str, b: Str)
    requires |HexDigits(a)| == |HexDigits(b)| == 5 && HexDigits(a) != HexDigits(b)
    ensures Compatible({a, b})
  {
    hide HexDigits;
  }

  // ---- The registry -----------------------------------------------------------------------

  datatype Info = Info(id: Str, kind: string, title: Str, url: Str)

  datatype Snapshot = Snapshot(shortId: Str, targetId: Str, title: Str, url: Str)

  predicate IsPageTarget(info: Info) {
    info.kind == "page" || info.kind == "tab"
  }

  /** Ids of the page targets listed; a nil entry is None. */
  function PageIds(infos: seq<Option<Info>>): set<Str> {
    set i | 0 <= i < |infos| && infos[i].Some? && IsPageTarget(infos[i].value) :: infos[i].value.id
  }

  /** The entry an id's title and URL are taken from. */
  ghost predicate FirstFor(infos: seq<Option<Info>>, id: Str, i: int) {
    && 0 <= i < |infos| && infos[i].Some? && infos[i].value.id == id
    && forall j :: 0 <= j < i && infos[j].Some? ==> infos[j].value.id != id
  }

  /** Title and URL come from the first entry for the id, and are empty when there is none. */
  ghost predicate Describes(infos: seq<Option<Info>>, id: Str, title: Str, url: Str) {
    && (forall i :: FirstFor(infos, id, i) ==> title == infos[i].value.title && url == infos[i].value.url)
    && ((forall i :: !FirstFor(infos, id, i)) ==> title == url == [])
  }

  class Registry {
    var targetToShort: map<Str, Str>
    var shortToTarget: map<Str, Str>
    var selected: Str

    ghost function View(): Reg
      reads this
    {
      Reg(targetToShort, shortToTarget, selected)
    }

    constructor ()
      ensures View() == Empty
    {
      targetToShort := map[];
      shortToTarget := map[];
      selected := [];
    }

    method RemoveLocked(id: Str)
      modifies this
      ensures View() == Remove(old(View()), id)
    {
      if id !in targetToShort { return; }
      var short := targetToShort[id];
      targetToShort := targetToShort - {id};
      shortToTarget := shortToTarget - {short};
      if selected == short { selected := []; }
    }

    method RemoveTarget(id: Str) returns (short: Str, ok: bool)
      modifies this
      ensures ok <==> id in old(targetToShort)
      ensures short == if ok then old(targetToShort)[id] else []
      ensures View() == Remove(old(View()), id)
    {
      if id !in targetToShort { return [], false; }
      short := targetToShort[id];
      RemoveLocked(id);
      ok := true;
    }

    method AssignShortLocked(id: Str) returns (short: Str)
      modifies this
      ensures View() == Assign(old(View()), id)
      ensures short == ShortOf(old(View()), id)
    {
      if id in targetToShort { return targetToShort[id]; }
      var hex := HexRunes(id);
      if |hex| == 0 {
        short := SanitizeShort(id);
        if short in shortToTarget && shortToTarget[short] != id { short := id; }
        RegisterLocked(id, short);
        return;
      }
      var n := MIN_SHORT;
      while n <= |hex|
        invariant View() == old(View())
        invariant MIN_SHORT <= n
        invariant FreeLength(View(), id, hex, MIN_SHORT) == FreeLength(View(), id, hex, n)
      {
        var cand := Tail(hex, n);
        if cand in shortToTarget && shortToTarget[cand] != id {
          n := n + 1;
          continue;
        }
        RegisterLocked(id, cand);
        return cand;
      }
      short := hex;
      RegisterLocked(id, short);
    }

    method RegisterLocked(id: Str, short: Str)
      modifies this
      ensures View() == Register(old(View()), id, short)
    {
      targetToShort := targetToShort[id := short];
      shortToTarget := shortToTarget[short := id];
    }

    method Lookup(short: Str) returns (id: Str, ok: bool)
      ensures ok <==> TrimSpace(short) != [] && TrimSpace(short) in shortToTarget
      ensures ok ==> id == shortToTarget[TrimSpace(short)]
    {
      var s := TrimSpace(short);
      if s == [] || s !in shortToTarget { return [], false; }
      return shortToTarget[s], true;
    }

    method SelectShort(short: Str) returns (ok: bool)
      modifies this
      ensures View() == Select(old(View()), short)
      ensures selected == if ok then TrimSpace(short) else old(selected)
      ensures targetToShort == old(targetToShort) && shortToTarget == old(shortToTarget)
      ensures ok <==> TrimSpace(short) != [] && TrimSpace(short) in shortToTarget
    {
      var s := TrimSpace(short);
      if s == [] || s !in shortToTarget { return false; }
      selected := s;
      ok := true;
    }

    /** Sync from the targets the browser lists, in whatever order maps and lists are walked. */
    method SyncPageTargets(infos: seq<Option<Info>>) returns (snaps: seq<Snapshot>, removed: seq<(Str, Str)>)
      modifies this
      ensures View() == Sync(old(View()), PageIds(infos))
      ensures Distinct(removed)
      ensures forall r :: r in removed <==>
                r.0 in old(targetToShort) && r.0 !in PageIds(infos) && r.1 == old(targetToShort)[r.0]
      ensures |snaps| == |SortedElements(PageIds(infos))|
      ensures forall i :: 0 <= i < |snaps| ==> snaps[i].targetId == SortedElements(PageIds(infos))[i]
      ensures forall i :: 0 <= i < |snaps| ==>
                Describes(infos, snaps[i].targetId, snaps[i].title, snaps[i].url)
      ensures forall i :: 0 <= i < |snaps| ==> snaps[i].targetId in targetToShort
                                                && snaps[i].shortId == targetToShort[snaps[i].targetId]
    {
      var present := PresentIds(infos);
      removed := DropAbsent(present);
      var ids := SortedKeys(map id | id in present :: id);
      SortedUnique(ids, SortedElements(present));
      snaps := AssignEach(infos, ids);
    }

    method AssignEach(infos: seq<Option<Info>>, ids: seq<Str>) returns (snaps: seq<Snapshot>)
      modifies this
      ensures View() == AssignAll(old(View()), ids)
      ensures |snaps| == |ids|
      ensures forall i :: 0 <= i < |ids| ==> Describes(infos, ids[i], snaps[i].title, snaps[i].url)
      ensures forall i :: 0 <= i < |ids| ==> snaps[i].targetId == ids[i]
      ensures forall i :: 0 <= i < |ids| ==> ids[i] in targetToShort && snaps[i].shortId == targetToShort[ids[i]]
    {
      hide Assign, ShortOf, Describes, AssignAll;
      snaps := [];
      for i := 0 to |ids|
        invariant AssignAll(View(), ids[i..]) == AssignAll(old(View()), ids)
        invariant |snaps| == i && forall j :: 0 <= j < i ==> snaps[j].targetId == ids[j]
        invariant forall j :: 0 <= j < i ==> Describes(infos, ids[j], snaps[j].title, snaps[j].url)
        invariant forall j :: 0 <= j < i ==> ids[j] in targetToShort && snaps[j].shortId == targetToShort[ids[j]]
      {
        AssignAllUnfold(View(), ids, i);
        AssignGrows(View(), ids[i]);
        var short := AssignShortLocked(ids[i]);
        var title, url := Describe(infos, ids[i]);
        snaps := snaps + [Snapshot(short, ids[i], title, url)];
      }
      AssignAllDone(View(), ids);
    }

    static method PresentIds(infos: seq<Option<Info>>) returns (present: set<Str>)
      ensures present == PageIds(infos)
    {
      present := {};
      for i := 0 to |infos|
        invariant present == PageIds(infos[..i])
      {
        assert infos[..i + 1] == infos[..i] + [infos[i]];
        if infos[i].Some? && IsPageTarget(infos[i].value) { present := present + {infos[i].value.id}; }
        PageIdsAppend(infos[..i], infos[i]);
      }
      assert infos[..|infos|] == infos;
    }

    static method Describe(infos: seq<Option<Info>>, id: Str) returns (title: Str, url: Str)
      ensures Describes(infos, id, title, url)
    {
      for i := 0 to |infos|
        invariant forall j :: 0 <= j < i && infos[j].Some? ==> infos[j].value.id != id
      {
        if infos[i].Some? && infos[i].value.id == id {
          assert FirstFor(infos, id, i);
          return infos[i].value.title, infos[i].value.url;
        }
      }
      return [], [];
    }

    method DropAbsent(present: set<Str>) returns (removed: seq<(Str, Str)>)
      modifies this
      ensures View() == Drop(old(View()), present)
      ensures Distinct(removed)
      ensures forall r :: r in removed <==>
                r.0 in old(targetToShort) && r.0 !in present && r.1 == old(targetToShort)[r.0]
    {
      removed := [];
      var todo := targetToShort.Keys;
      ghost var reg := View();
      while todo != {}
        invariant todo <= reg.short.Keys
        invariant View() == Drop(reg, present + todo)
        invariant forall id :: id in todo ==> id in targetToShort && targetToShort[id] == reg.short[id]
        invariant Distinct(removed)
        invariant forall r :: r in removed <==>
                    r.0 in reg.short && r.0 !in present && r.0 !in todo && r.1 == reg.short[r.0]
        decreases todo
      {
        var id :| id in todo;
        DropOne(reg, present, todo, id);
        todo := todo - {id};
        if id !in present {
          removed := removed + [(id, targetToShort[id])];
          RemoveLocked(id);
        }
      }
      assert present + todo == present;
    }
  }

  /** Whatever the ids, no registered target loses or changes the short id it goes by. */
  lemma AssignGrows(reg: Reg, id: Str)
    ensures var n := Assign(reg, id);
            && id in n.short && n.short[id] == ShortOf(reg, id)
            && forall x :: x in reg.short ==> x in n.short && n.short[x] == reg.short[x]
  {
    hide NewShort;
  }

  lemma AssignAllUnfold(reg: Reg, ids: seq<Str>, i: nat)
    requires i < |ids|
    ensures AssignAll(reg, ids[i..]) == AssignAll(Assign(reg, ids[i]), ids[i + 1..])
  {
    assert ids[i..][1..] == ids[i + 1..];
  }

  lemma AssignAllDone(reg: Reg, ids: seq<Str>)
    ensures AssignAll(reg, ids[|ids|..]) == reg && AssignAll(reg, []) == reg
  {
  }

  lemma PageIdsAppend(infos: seq<Option<Info>>, x: Option<Info>)
    ensures PageIds(infos + [x]) ==
            PageIds(infos) + if x.Some? && IsPageTarget(x.value) then {x.value.id} else {}
  {
    var all := infos + [x];
    forall id | id in PageIds(infos) ensures id in PageIds(all) {
      var i :| 0 <= i < |infos| && infos[i].Some? && IsPageTarget(infos[i].value) && infos[i].value.id == id;
      assert all[i] == infos[i];
    }
    if x.Some? && IsPageTarget(x.value) { assert all[|infos|] == x; }
  }

  /** Dropping one more absent id, in any order. */
  lemma DropOne(reg: Reg, present: set<Str>, todo: set<Str>, id: Str)
    requires id in todo && id in reg.short
    ensures var less := present + (todo - {id}); var before := Drop(reg, present + todo);
            Drop(reg, less) == if id in present then before else Remove(before, id)
  {
    var a, b := present + todo, present + (todo - {id});
    var goneA, goneB := set x | x in reg.short && x !in a, set x | x in reg.short && x !in b;
    var shortsA, shortsB := set x | x in goneA :: reg.short[x], set x | x in goneB :: reg.short[x];
    if id in present {
      assert a == b;
    } else {
      assert goneB == goneA + {id};
      assert shortsB == shortsA + {reg.short[id]};
    }
  }

  ghost predicate Lists(infos: seq<Option<Info>>, id: Str) {
    exists i :: 0 <= i < |infos| && infos[i].Some? && infos[i].value.id == id && infos[i].value.kind in {"page", "tab"}
  }

  lemma SamePageIds(a: seq<Option<Info>>, b: seq<Option<Info>>)
    requires forall id :: Lists(a, id) <==> Lists(b, id)
    ensures PageIds(a) == PageIds(b)
  {
    forall id ensures id in PageIds(a) <==> id in PageIds(b) {
      assert id in PageIds(a) <==> Lists(a, id);
      assert id in PageIds(b) <==> Lists(b, id);
    }
  }

  /** Two syncs from empty that list the same page targets, in whatever order and however often, give the same
      registry and the same short id to each target, whatever order each walks its maps in. */
  method SyncsAgree(a: seq<Option<Info>>, b: seq<Option<Info>>)
    returns (x: Registry, y: Registry, xs: seq<Snapshot>, ys: seq<Snapshot>)
    requires forall id :: Lists(a, id) <==> Lists(b, id)
    ensures x.View() == y.View() && |xs| == |ys|
    ensures forall i :: 0 <= i < |xs| ==> xs[i].targetId == ys[i].targetId && xs[i].shortId == ys[i].shortId
  {
    hide Sync, SortedElements, PageIds, Lists;
    SamePageIds(a, b);
    var removed;
    x := new Registry();
    xs, removed := x.SyncPageTargets(a);
    y := new Registry();
    ys, removed := y.SyncPageTargets(b);
  }
}
