/** Tab ids at the pool: a backend key, a colon, and the daemon's own short id. */
module PoolIds {
  import opened Bytes

  function FormatTabId(key: Str, short: Str): Str {
    key + [COLON] + short
  }

  /** Position of the first occurrence of b in s, -1 if there is none. */
  function IndexOf(s: Str, b: Byte): (i: int)
    ensures -1 <= i < |s|
    ensures i >= 0 ==> s[i] == b && b !in s[..i]
    ensures i < 0 ==> b !in s
  {
    if s == [] then -1
    else if s[0] == b then 0
    else
      var rest := IndexOf(s[1..], b);
      assert s == [s[0]] + s[1..];
      assert rest >= 0 ==> s[..rest + 1] == [s[0]] + s[1..][..rest];
      if rest < 0 then -1 else rest + 1
  }

  lemma {:induction false} IndexIsFirst(s: Str, b: Byte, k: nat)
    requires k < |s| && s[k] == b && b !in s[..k]
    ensures IndexOf(s, b) == k
    decreases k
  {
    if k > 0 {
      assert s[0] in s[..k];
      assert s[1..][..k - 1] == s[..k][1..];
      IndexIsFirst(s[1..], b, k - 1);
    }
  }

  function SplitTabId(tab: Str): Option<(Str, Str)> {
    var t := TrimSpace(tab);
    var i := IndexOf(t, COLON);
    if i <= 0 || i + 1 == |t| then None else Some((t[..i], t[i + 1..]))
  }

  /** Splitting finds exactly the two parts that spell the trimmed id, cut at its first colon. */
  lemma SplitMeaning(tab: Str, key: Str, short: Str)
    ensures SplitTabId(tab) == Some((key, short)) <==>
            TrimSpace(tab) == FormatTabId(key, short) && key != [] && COLON !in key && short != []
  {
    var t := TrimSpace(tab);
    var i := IndexOf(t, COLON);
    if SplitTabId(tab) == Some((key, short)) {
      assert t == t[..i] + [t[i]] + t[i + 1..];
    }
    if t == FormatTabId(key, short) && key != [] && COLON !in key && short != [] {
      assert t[|key|] == COLON && t[..|key|] == key && t[|key| + 1..] == short;
      IndexIsFirst(t, COLON, |key|);
    }
  }

  lemma TrimmedFormat(key: Str, short: Str)
    requires key != [] && short != [] && LeadingSpace(key) == 0 && TrailingSpace(short) == 0
    ensures Trimmed(FormatTabId(key, short))
  {
    var t := FormatTabId(key, short);
    assert t[|key|] == COLON;
    assert forall i :: 0 <= i < |key| ==> t[i] == key[i];
    assert forall i :: 0 <= i < |short| ==> t[|key| + 1 + i] == short[i];
  }

  lemma TrimmedParts(key: Str, short: Str)
    requires key != [] && short != [] && Trimmed(FormatTabId(key, short))
    ensures LeadingSpace(key) == 0 && TrailingSpace(short) == 0
  {
    var t := FormatTabId(key, short);
    assert t == key + ([COLON] + short);
    if LeadingSpace(key) > 0 { LeadingSpaceExtends(key, [COLON] + short); }
    hide LeadingSpace;
    if TrailingSpace(short) > 0 { TrailingSpaceExtends(key + [COLON], short); }
  }

  /** Which pairs survive the round trip: a key without colon or white space in front, a short id without
      white space behind, neither empty. */
  lemma RoundTripIff(key: Str, short: Str)
    ensures SplitTabId(FormatTabId(key, short)) == Some((key, short)) <==>
            key != [] && COLON !in key && short != [] && LeadingSpace(key) == 0 && TrailingSpace(short) == 0
  {
    var t := FormatTabId(key, short);
    SplitMeaning(t, key, short);
    TrimSpaceIsProjection(t);
    if key != [] && short != [] {
      if LeadingSpace(key) == 0 && TrailingSpace(short) == 0 { TrimmedFormat(key, short); }
      if TrimSpace(t) == t { TrimmedParts(key, short); }
    }
  }

  // ---- Backend keys --------------------------------------------------------------

  datatype Client = Client(baseURL: Str)

  datatype PoolBackend = PoolBackend(key: Str, client: Option<Client>)

  datatype KeyError =
    | EmptyPool
    | NilClient(index: nat)
    | EmptyBaseURL(index: nat)
    | ColonInKey(key: Str)
    | DuplicateKey(key: Str)

  function Decimal(n: nat): (s: Str)
    ensures s != [] && forall i :: 0 <= i < |s| ==> 48 <= s[i] <= 57
  {
    (if n < 10 then [] else Decimal(n / 10)) + [48 + (n % 10) as Byte]
  }

  lemma {:induction false} DecimalInjective(a: nat, b: nat)
    requires Decimal(a) == Decimal(b)
    ensures a == b
  {
    var x, y := Decimal(a), Decimal(b);
    assert x[|x| - 1] == y[|y| - 1] && x[..|x| - 1] == y[..|y| - 1];
    if a >= 10 && b >= 10 {
      assert x[..|x| - 1] == Decimal(a / 10) && y[..|y| - 1] == Decimal(b / 10);
      DecimalInjective(a / 10, b / 10);
    }
  }

  /** The number that decimal digits spell. */
  function Spelled(s: Str): int {
    if s == [] then 0 else 10 * Spelled(s[..|s| - 1]) + s[|s| - 1] as int - 48
  }

  /** A default key spells its index, without a leading zero unless it is "0". */
  lemma {:induction false} DecimalSpells(n: nat)
    ensures Spelled(Decimal(n)) == n && (Decimal(n)[0] == 48 ==> n == 0 && Decimal(n) == [48])
  {
    var s := Decimal(n);
    if n < 10 {
      assert s[..|s| - 1] == [];
    } else {
      DecimalSpells(n / 10);
      assert s[..|s| - 1] == Decimal(n / 10);
    }
  }

  function KeyOf(b: PoolBackend, i: nat): Str {
    var key := TrimSpace(b.key);
    if key == [] then Decimal(i) else key
  }

  /** What is wrong with backend i, given those before it. */
  ghost function Fault(backends: seq<PoolBackend>, i: nat): Option<KeyError>
    requires i < |backends|
  {
    var key := KeyOf(backends[i], i);
    if backends[i].client.None? then Some(NilClient(i))
    else if TrimSpace(backends[i].client.value.baseURL) == [] then Some(EmptyBaseURL(i))
    else if COLON in key then Some(ColonInKey(key))
    else if exists j :: 0 <= j < i && KeyOf(backends[j], j) == key then Some(DuplicateKey(key))
    else None
  }

  predicate GoodKey(key: Str) {
    key != [] && COLON !in key && Trimmed(key)
  }

  ghost predicate KeysOk(keys: seq<Str>) {
    Distinct(keys) && forall i :: 0 <= i < |keys| ==> GoodKey(keys[i])
  }

  lemma KeyIsTrimmed(b: PoolBackend, i: nat)
    ensures KeyOf(b, i) != [] && Trimmed(KeyOf(b, i))
  {
    TrimSpaceIsProjection(b.key);
    InertEnds(Decimal(i));
  }

  /** A pool without explicit keys accepts any usable clients: decimal defaults never clash. */
  lemma DefaultKeysNeverClash(backends: seq<PoolBackend>, i: nat)
    requires i < |backends|
    requires forall j :: 0 <= j < |backends| ==>
               backends[j].key == [] && backends[j].client.Some? && TrimSpace(backends[j].client.value.baseURL) != []
    ensures Fault(backends, i).None?
  {
    hide Decimal, TrimSpace;
    TrimSpaceIsProjection([]);
    assert COLON !in Decimal(i);
    forall j | 0 <= j < i ensures KeyOf(backends[j], j) != KeyOf(backends[i], i) {
      if Decimal(j) == Decimal(i) { DecimalInjective(j, i); }
    }
  }

  /** A string used as a key indexes back to its place. */
  ghost predicate Indexes(byKey: map<Str, nat>, keys: seq<Str>) {
    && (forall i :: 0 <= i < |keys| ==> keys[i] in byKey && byKey[keys[i]] == i)
    && (forall k :: k in byKey ==> byKey[k] < |keys| && keys[byKey[k]] == k)
  }

  datatype Keys = Keys(keys: seq<Str>, byKey: map<Str, nat>)

  datatype KeyResult = Ok(value: Keys) | Err(error: KeyError)

  /** Validation of the backends: the first fault is reported, and without one the keys are in order. */
  method CheckBackends(backends: seq<PoolBackend>) returns (r: KeyResult)
    ensures r.Ok? ==> |backends| > 0 && forall i :: 0 <= i < |backends| ==> Fault(backends, i).None?
    ensures r.Ok? ==> |r.value.keys| == |backends| && KeysOk(r.value.keys) && Indexes(r.value.byKey, r.value.keys)
    ensures r.Ok? ==> forall i :: 0 <= i < |backends| ==> r.value.keys[i] == KeyOf(backends[i], i)
    ensures r.Err? ==>
              || (backends == [] && r.error == EmptyPool)
              || exists i :: 0 <= i < |backends| && Fault(backends, i) == Some(r.error)
                             && forall j :: 0 <= j < i ==> Fault(backends, j).None?
  {
    hide Fault, KeyOf, KeysOk;
    if |backends| == 0 { return Err(EmptyPool); }
    var keys: seq<Str>, byKey: map<Str, nat> := [], map[];
    for i := 0 to |backends|
      invariant |keys| == i && Indexes(byKey, keys)
      invariant forall j :: 0 <= j < i ==> Fault(backends, j).None? && keys[j] == KeyOf(backends[j], j)
    {
      var fault, key := CheckBackend(backends, i, keys, byKey);
      if fault.Some? { return Err(fault.value); }
      keys := keys + [key];
      byKey := byKey[key := i];
    }
    KeysAreOk(backends, keys, byKey);
    return Ok(Keys(keys, byKey));
  }

  method CheckBackend(backends: seq<PoolBackend>, i: nat, ghost keys: seq<Str>, byKey: map<Str, nat>)
    returns (fault: Option<KeyError>, key: Str)
    requires i < |backends| && |keys| == i && Indexes(byKey, keys)
    requires forall j :: 0 <= j < i ==> keys[j] == KeyOf(backends[j], j)
    ensures fault == Fault(backends, i)
    ensures fault.None? ==> key == KeyOf(backends[i], i) && key !in byKey
  {
    hide TrimSpace, Decimal;
    key := [];
    if backends[i].client.None? { return Some(NilClient(i)), key; }
    if TrimSpace(backends[i].client.value.baseURL) == [] { return Some(EmptyBaseURL(i)), key; }
    key := TrimSpace(backends[i].key);
    if key == [] { key := Decimal(i); }
    if IndexOf(key, COLON) >= 0 { return Some(ColonInKey(key)), key; }
    assert forall j :: 0 <= j < i ==> KeyOf(backends[j], j) == keys[j];
    if key in byKey { return Some(DuplicateKey(key)), key; }
    return None, key;
  }

  lemma KeysAreOk(backends: seq<PoolBackend>, keys: seq<Str>, byKey: map<Str, nat>)
    requires |keys| == |backends| && Indexes(byKey, keys)
    requires forall i :: 0 <= i < |keys| ==> Fault(backends, i).None? && keys[i] == KeyOf(backends[i], i)
    ensures KeysOk(keys)
  {
    hide Decimal, TrimSpace;
    forall i | 0 <= i < |keys| ensures GoodKey(keys[i]) {
      KeyIsTrimmed(backends[i], i);
      assert Fault(backends, i).None?;
    }
  }
}
