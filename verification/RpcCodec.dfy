/** The laws asked of the record codec can be met: a small codec for snapshot records that, like the real one,
    replaces the bytes it cannot spell. */
module RpcCodec {
  import opened Bytes
  import opened RpcLog

  /** A tab id as pairs of letters, then a sign letter and the time in unary. */
  function Body(tab: Str, at: int): (s: Str)
    ensures s != [] && forall i :: 0 <= i < |s| ==> 65 <= s[i] <= 83
  {
    if tab == [] then
      [if at < 0 then 81 else 82] + seq(if at < 0 then 0 - at else at, _ => 83)
    else [65 + tab[0] / 16, 65 + tab[0] % 16] + Body(tab[1..], at)
  }

  lemma {:induction false} BodyInjective(a: Str, at: int, b: Str, bt: int)
    requires Body(a, at) == Body(b, bt)
    ensures a == b && at == bt
    decreases |a|
  {
    var x, y := Body(a, at), Body(b, bt);
    assert x[0] == y[0];
    if a == [] && b == [] {
      assert |x| == |y|;
    } else if a != [] && b != [] {
      assert x[1] == y[1];
      assert x[2..] == Body(a[1..], at) && y[2..] == Body(b[1..], bt);
      BodyInjective(a[1..], at, b[1..], bt);
      assert a == [a[0]] + a[1..] && b == [b[0]] + b[1..];
    }
  }

  function Text(tab: Str, at: int): (s: Str)
    ensures |s| >= 2 && s[0] == OPEN_BRACE && s[|s| - 1] == CLOSE_BRACE
    ensures forall i :: 0 < i < |s| - 1 ==> 65 <= s[i] <= 83
  {
    [OPEN_BRACE] + Body(tab, at) + [CLOSE_BRACE]
  }

  lemma TextInjective(a: Str, at: int, b: Str, bt: int)
    requires Text(a, at) == Text(b, bt)
    ensures a == b && at == bt
  {
    var x, y := Text(a, at), Text(b, bt);
    assert x[1..|x| - 1] == Body(a, at) && y[1..|y| - 1] == Body(b, bt);
    BodyInjective(a, at, b, bt);
  }

  function Braces(s: Str): nat {
    if s == [] then 0 else (if s[0] == OPEN_BRACE then 1 else 0) + Braces(s[1..])
  }

  lemma {:induction false} BracesAppend(a: Str, b: Str)
    ensures Braces(a + b) == Braces(a) + Braces(b)
    decreases |a|
  {
    if a == [] {
      assert a + b == b;
    } else {
      assert (a + b)[1..] == a[1..] + b;
      BracesAppend(a[1..], b);
    }
  }

  lemma {:induction false} NoBraces(s: Str)
    requires OPEN_BRACE !in s
    ensures Braces(s) == 0
    decreases |s|
  {
    if s != [] { NoBraces(s[1..]); }
  }

  lemma {:induction false} TrimLeftKeepsBraces(s: Str)
    ensures Braces(TrimLeft(s)) == Braces(s)
    decreases |s|
  {
    var n := LeadingSpace(s);
    if n > 0 {
      assert s == s[..n] + s[n..];
      NoBraces(s[..n]);
      BracesAppend(s[..n], s[n..]);
      TrimLeftKeepsBraces(s[n..]);
    }
  }

  lemma {:induction false} TrimRightKeepsBraces(s: Str)
    ensures Braces(TrimRight(s)) == Braces(s)
    decreases |s|
  {
    var n := TrailingSpace(s);
    if n > 0 {
      var k := |s| - n;
      assert s == s[..k] + s[k..];
      NoBraces(s[k..]);
      BracesAppend(s[..k], s[k..]);
      TrimRightKeepsBraces(s[..k]);
    }
  }

  lemma TextBraces(tab: Str, at: int)
    ensures Braces(Text(tab, at)) == 1
  {
    var s := Text(tab, at);
    assert s == [OPEN_BRACE] + s[1..];
    NoBraces(s[1..]);
  }

  const REPLACEMENT: Byte := 63

  /** Bytes outside ASCII are replaced. */
  function Respell(s: Str): (r: Str)
    ensures |r| == |s| && forall i :: 0 <= i < |s| ==> r[i] == if s[i] < 128 then s[i] else REPLACEMENT
  {
    seq(|s|, i requires 0 <= i < |s| => if s[i] < 128 then s[i] else REPLACEMENT)
  }

  lemma RespellOnce(s: Str)
    ensures Respell(Respell(s)) == Respell(s) && (Respell(s) == [] <==> s == [])
    ensures (forall i :: 0 <= i < |s| ==> s[i] < 128) ==> Respell(s) == s
  {
  }

  ghost predicate Spells(x: Str, tab: Str, at: int) {
    x == Text(tab, at) && Respell(tab) == tab
  }

  function Rec(tab: Str, at: int): LogRecord {
    LogRecord(TAB_NEW, [], tab, [], 0, true, [], at)
  }

  ghost function Parse(x: Str): Option<LogRecord> {
    if exists tab, at :: Spells(x, tab, at) then
      var tab, at :| Spells(x, tab, at);
      Some(Rec(tab, at))
    else None
  }

  ghost function Small(): Codec {
    Codec(
      (r: LogRecord) => if r == Rec(r.tab, r.time) then Some(Text(Respell(r.tab), r.time)) else None,
      (x: Str) => Parse(x), _ => [], x => x, Respell, [])
  }

  lemma ParsesText(tab: Str, at: int)
    requires Respell(tab) == tab
    ensures Parse(Text(tab, at)) == Some(Rec(tab, at))
  {
    assert Spells(Text(tab, at), tab, at);
    forall t, a | Spells(Text(tab, at), t, a) ensures t == tab && a == at { TextInjective(tab, at, t, a); }
  }

  lemma OneBrace(x: Str)
    requires Parse(x).Some?
    ensures Braces(x) == 1 && x != [] && x[|x| - 1] == CLOSE_BRACE
  {
    var tab, at :| Spells(x, tab, at);
    TextBraces(tab, at);
  }

  lemma NotTwo(x: Str, tab: Str, at: int)
    requires Parse(TrimSpace(x)).Some?
    ensures Parse(TrimSpace(x + Text(tab, at) + [NEWLINE])).None?
  {
    hide Parse, TrimLeft, TrimRight;
    var e := Text(tab, at);
    var y := x + e + [NEWLINE];
    TrimLeftKeepsBraces(x);
    TrimRightKeepsBraces(TrimLeft(x));
    TrimLeftKeepsBraces(y);
    TrimRightKeepsBraces(TrimLeft(y));
    OneBrace(TrimSpace(x));
    TextBraces(tab, at);
    BracesAppend(x, e);
    BracesAppend(x + e, [NEWLINE]);
    NoBraces([NEWLINE]);
    if Parse(TrimSpace(y)).Some? { OneBrace(TrimSpace(y)); }
  }

  lemma NoPrefix(tab: Str, at: int, k: nat)
    requires 0 < k < |Text(tab, at)|
    ensures Parse(Text(tab, at)[..k]).None?
  {
    hide Parse;
    var x := Text(tab, at)[..k];
    assert x[k - 1] == Text(tab, at)[k - 1];
    if Parse(x).Some? { OneBrace(x); }
  }

  /** The laws do not contradict each other. */
  lemma SmallIsLawful()
    ensures Lawful(Small())
  {
    hide Text, Parse, TrimSpace, Respell;
    var c := Small();
    forall time ensures Stampable(c, time) {}
    forall r | c.encode(r).Some? ensures EncodesWell(c, r, c.encode(r).value) {
      var tab, e := Respell(r.tab), c.encode(r).value;
      assert e == Text(tab, r.time);
      RespellOnce(r.tab);
      ParsesText(tab, r.time);
      forall k | 0 < k < |e| ensures c.parse(e[..k]).None? { NoPrefix(tab, r.time, k); }
      forall x | c.parse(TrimSpace(x)).Some? ensures c.parse(TrimSpace(x + e + [NEWLINE])).None? {
        NotTwo(x, tab, r.time);
      }
    }
    forall s ensures Respell(Respell(s)) == Respell(s) && (Respell(s) == [] <==> s == []) { RespellOnce(s); }
    forall s: Str | forall i :: 0 <= i < |s| ==> s[i] < 128 ensures Respell(s) == s { RespellOnce(s); }
    RespellOnce([]);
    forall x | c.parse(x).Some? ensures Respell(c.parse(x).value.tab) == c.parse(x).value.tab { ParsedIsSpelled(x); }
  }

  lemma ParsedIsSpelled(x: Str)
    requires Parse(x).Some?
    ensures Respell(Parse(x).value.tab) == Parse(x).value.tab
  {
  }

  /** A tab that is one byte above ASCII, opened in an empty log: memory and a replay of the log disagree. */
  lemma UnspelledOpenDisagrees()
    ensures var c, r := Small(), Rec([255], 0);
            Lawful(c) && c.encode(r).Some? && Replay(c, [] + LineOf(c, r)) != Apply(c, Replay(c, []), r)
  {
    hide Recover, Text, Parse;
    SmallIsLawful();
    var c, r := Small(), Rec([255], 0);
    RecoverEmpty(Reader(c));
    assert LastLine([]) == [];
    assert Respell([255])[0] == REPLACEMENT;
    hide Respell, Lawful;
    OpenAgreesIffSpelled(c, [], r, [255]);
  }
}
