/** Byte strings as Go handles them: white-space trimming, the byte order used
    by its sort functions, and the key order of a sorted map walk. */
module Bytes {

  newtype Byte = x: int | 0 <= x < 256

  type Str = seq<Byte>

  datatype Option<+T> = None | Some(value: T)

  const NEWLINE: Byte := 10
  const SPACE: Byte := 32
  const COLON: Byte := 58
  const STAR: Byte := 42
  const SLASH: Byte := 47
  const OPEN_BRACE: Byte := 123
  const CLOSE_BRACE: Byte := 125

  // ---- White space -------------------------------------------------------

  /** A white-space code point of three UTF-8 bytes. */
  predicate IsWideSpace(a: Byte, b: Byte, c: Byte) {
    || (a == 0xE1 && b == 0x9A && c == 0x80)
    || (a == 0xE2 && b == 0x80 && (0x80 <= c <= 0x8A || c == 0xA8 || c == 0xA9 || c == 0xAF))
    || (a == 0xE2 && b == 0x81 && c == 0x9F)
    || (a == 0xE3 && b == 0x80 && c == 0x80)
  }

  predicate IsNarrowSpace(a: Byte) {
    9 <= a <= 13 || a == SPACE
  }

  /** The code points Unicode calls white space. */
  predicate IsWhiteRune(r: int) {
    || r in {0x9, 0xA, 0xB, 0xC, 0xD, 0x20, 0x85, 0xA0, 0x1680, 0x2028, 0x2029, 0x202F, 0x205F, 0x3000}
    || 0x2000 <= r <= 0x200A
  }

  /** The byte patterns are the UTF-8 encodings of the white-space code points, of one, two and three bytes. */
  lemma SpacesAreWhite(a: Byte, b: Byte, c: Byte)
    ensures a < 0x80 ==> (LeadingSpace([a]) == 1 <==> IsWhiteRune(a as int))
    ensures 0xC2 <= a < 0xE0 && 0x80 <= b < 0xC0 ==>
              (LeadingSpace([a, b]) == 2 <==> IsWhiteRune((a as int - 0xC0) * 0x40 + (b as int - 0x80)))
    ensures 0xE1 <= a < 0xF0 && 0x80 <= b < 0xC0 && 0x80 <= c < 0xC0 ==>
              (LeadingSpace([a, b, c]) == 3 <==>
               IsWhiteRune((a as int - 0xE0) * 0x1000 + (b as int - 0x80) * 0x40 + (c as int - 0x80)))
  {
  }

  /** Bytes taken by the white-space code point at the front of s; 0 if none is there. */
  function LeadingSpace(s: Str): (n: nat)
    ensures n <= |s|
  {
    if |s| >= 1 && IsNarrowSpace(s[0]) then 1
    else if |s| >= 2 && s[0] == 0xC2 && (s[1] == 0x85 || s[1] == 0xA0) then 2
    else if |s| >= 3 && IsWideSpace(s[0], s[1], s[2]) then 3
    else 0
  }

  /** Bytes taken by the white-space code point at the end of s; 0 if none is there. */
  function TrailingSpace(s: Str): (n: nat)
    ensures n <= |s|
  {
    var k := |s|;
    if k >= 1 && IsNarrowSpace(s[k - 1]) then 1
    else if k >= 2 && s[k - 2] == 0xC2 && (s[k - 1] == 0x85 || s[k - 1] == 0xA0) then 2
    else if k >= 3 && IsWideSpace(s[k - 3], s[k - 2], s[k - 1]) then 3
    else 0
  }

  function TrimLeft(s: Str): (r: Str)
    ensures LeadingSpace(r) == 0
    decreases |s|
  {
    var n := LeadingSpace(s);
    if n == 0 then s else TrimLeft(s[n..])
  }

  function TrimRight(s: Str): (r: Str)
    ensures |r| <= |s| && r == s[..|r|]
    ensures TrailingSpace(r) == 0
    decreases |s|
  {
    var n := TrailingSpace(s);
    if n == 0 then s else TrimRight(s[..|s| - n])
  }

  function TrimSpace(s: Str): Str {
    TrimRight(TrimLeft(s))
  }

  /** White space only, one code point after the other. */
  ghost predicate White(s: Str) {
    s == [] || (LeadingSpace(s) > 0 && White(s[LeadingSpace(s)..]))
  }

  ghost predicate WhiteFromBehind(s: Str) {
    s == [] || (TrailingSpace(s) > 0 && WhiteFromBehind(s[..|s| - TrailingSpace(s)]))
  }

  lemma LeadingSpaceExtends(s: Str, rest: Str)
    requires LeadingSpace(s) > 0
    ensures LeadingSpace(s + rest) == LeadingSpace(s)
  {
  }

  lemma WhiteAfter(front: Str, back: Str)
    requires White(back) && front != [] && LeadingSpace(front) == |front|
    ensures White(front + back)
  {
    LeadingSpaceExtends(front, back);
    hide LeadingSpace;
    assert (front + back)[|front|..] == back;
  }

  lemma LeadingSpaceAlone(s: Str)
    requires LeadingSpace(s) > 0
    ensures LeadingSpace(s[..LeadingSpace(s)]) == LeadingSpace(s)
  {
  }

  lemma TrimLeftStep(s: Str)
    ensures var n := LeadingSpace(s); TrimLeft(s) == if n == 0 then s else TrimLeft(s[n..])
  {
  }

  lemma {:induction false} TrimLeftCuts(s: Str) returns (cut: Str)
    ensures s == cut + TrimLeft(s) && White(cut)
    decreases |s|
  {
    hide LeadingSpace, TrimLeft;
    var n := LeadingSpace(s);
    TrimLeftStep(s);
    if n == 0 {
      cut := [];
    } else {
      hide White;
      var rest := TrimLeftCuts(s[n..]);
      LeadingSpaceAlone(s);
      WhiteAfter(s[..n], rest);
      cut := s[..n] + rest;
      assert s == s[..n] + s[n..] && cut + TrimLeft(s) == s[..n] + (rest + TrimLeft(s));
    }
  }

  lemma TrailingSpaceExtends(front: Str, s: Str)
    requires TrailingSpace(s) > 0
    ensures TrailingSpace(front + s) == TrailingSpace(s)
  {
    var t := front + s;
    assert forall i :: 0 <= i < |s| ==> t[|front| + i] == s[i];
  }

  lemma TrailingSpaceAlone(s: Str)
    requires TrailingSpace(s) > 0
    ensures TrailingSpace(s[|s| - TrailingSpace(s)..]) == TrailingSpace(s)
  {
  }

  lemma TrimRightStep(s: Str)
    ensures var n := TrailingSpace(s);
            TrimRight(s) == if n == 0 then s else TrimRight(s[..|s| - n])
  {
  }

  lemma WhiteMore(front: Str, back: Str)
    requires WhiteFromBehind(front) && back != [] && TrailingSpace(back) == |back|
    ensures WhiteFromBehind(front + back)
  {
    TrailingSpaceExtends(front, back);
    hide TrailingSpace;
    var s := front + back;
    assert s[..|s| - |back|] == front;
  }

  lemma {:induction false} TrimRightCuts(s: Str) returns (cut: Str)
    ensures s == TrimRight(s) + cut && WhiteFromBehind(cut)
    decreases |s|
  {
    hide TrailingSpace, TrimRight;
    var n := TrailingSpace(s);
    var k := |s| - n;
    TrimRightStep(s);
    if n == 0 {
      cut := [];
    } else {
      hide WhiteFromBehind;
      var rest := TrimRightCuts(s[..k]);
      var back := s[k..];
      TrailingSpaceAlone(s);
      WhiteMore(rest, back);
      cut := rest + back;
      assert s == s[..k] + back && TrimRight(s) + cut == (TrimRight(s) + rest) + back;
    }
  }

  /** Trimming cuts white space in front and behind, and nothing else. */
  lemma TrimSpaceCuts(s: Str) returns (front: Str, behind: Str)
    ensures s == front + TrimSpace(s) + behind && White(front) && WhiteFromBehind(behind)
  {
    hide TrimLeft, TrimRight, White, WhiteFromBehind;
    front := TrimLeftCuts(s);
    behind := TrimRightCuts(TrimLeft(s));
    assert front + (TrimSpace(s) + behind) == front + TrimSpace(s) + behind;
  }

  predicate Trimmed(s: Str) {
    LeadingSpace(s) == 0 && TrailingSpace(s) == 0
  }

  lemma PrefixKeepsStart(s: Str, k: nat)
    requires k <= |s| && LeadingSpace(s) == 0
    ensures LeadingSpace(s[..k]) == 0
  {
  }

  /** Trimming yields a trimmed string and leaves trimmed strings alone. */
  lemma TrimSpaceIsProjection(s: Str)
    ensures Trimmed(TrimSpace(s))
    ensures Trimmed(s) ==> TrimSpace(s) == s
  {
    var l := TrimLeft(s);
    PrefixKeepsStart(l, |TrimRight(l)|);
  }

  /** A byte that is part of no white-space code point stops trimming from the right. */
  predicate Inert(b: Byte) {
    b == COLON || 0x21 <= b <= 0x7E
  }

  lemma TrimRightKeepsInert(s: Str)
    requires s != [] && Inert(s[0])
    ensures TrimRight(s) != []
    decreases |s|
  {
    var n := TrailingSpace(s);
    if n != 0 {
      assert n < |s|;
      TrimRightKeepsInert(s[..|s| - n]);
    }
  }

  /** Only white space trims to nothing, so nothing in front of an inert byte survives it. */
  lemma {:induction false} AllTrailing(s: Str)
    requires s != [] && TrimRight(s) == []
    ensures LeadingSpace(s) > 0
    decreases |s|
  {
    var n := TrailingSpace(s);
    var t := s[..|s| - n];
    if t != [] {
      AllTrailing(t);
      assert LeadingSpace(s) == LeadingSpace(t);
    }
  }

  lemma BlankOrNot(s: Str)
    ensures TrimSpace(s) == [] <==> TrimLeft(s) == []
  {
    if TrimLeft(s) != [] && TrimSpace(s) == [] { AllTrailing(TrimLeft(s)); }
  }

  lemma {:induction false} TrimLeftSkips(blank: Str, rest: Str)
    requires TrimLeft(blank) == []
    ensures TrimLeft(blank + rest) == TrimLeft(rest)
    decreases |blank|
  {
    if blank == [] {
      assert blank + rest == rest;
    } else {
      var n := LeadingSpace(blank);
      LeadingSpaceExtends(blank, rest);
      var t := blank[n..];
      assert (blank + rest)[n..] == t + rest;
      TrimLeftSkips(t, rest);
    }
  }

  lemma InertEnds(s: Str)
    requires s != [] && Inert(s[0]) && Inert(s[|s| - 1])
    ensures Trimmed(s)
  {
  }

  lemma TrimRightNewline(s: Str)
    ensures TrimRight(s + [NEWLINE]) == TrimRight(s)
  {
    var t := s + [NEWLINE];
    assert TrailingSpace(t) == 1;
    assert t[..|t| - 1] == s;
  }

  /** White space in front and a newline behind are trimmed off a text with inert ends. */
  lemma TrimAround(blank: Str, s: Str)
    requires TrimLeft(blank) == [] && s != [] && Inert(s[0]) && Inert(s[|s| - 1])
    ensures TrimSpace(blank + s) == s && TrimSpace(blank + s + [NEWLINE]) == s
  {
    InertEnds(s);
    TrimLeftSkips(blank, s);
    var t := s + [NEWLINE];
    TrimLeftSkips(blank, t);
    assert blank + s + [NEWLINE] == blank + t;
    StartsInert(t);
    TrimRightNewline(s);
  }

  lemma StartsInert(s: Str)
    requires s != [] && Inert(s[0])
    ensures TrimLeft(s) == s
  {
  }

  // ---- Byte order --------------------------------------------------------

  /** Lexicographic byte order, the order of Go's < on strings. */
  predicate Less(a: Str, b: Str) {
    if b == [] then false
    else if a == [] then true
    else if a[0] != b[0] then a[0] < b[0]
    else Less(a[1..], b[1..])
  }

  /** a and b agree before place i, where a ends first or has the smaller byte. */
  ghost predicate FirstLess(a: Str, b: Str, i: nat) {
    i <= |a| && i < |b| && a[..i] == b[..i] && (i == |a| || a[i] < b[i])
  }

  lemma {:induction false} LessMeans(a: Str, b: Str)
    ensures Less(a, b) <==> exists i: nat :: FirstLess(a, b, i)
  {
    if a != [] && b != [] && a[0] == b[0] {
      LessMeans(a[1..], b[1..]);
      if i: nat :| FirstLess(a[1..], b[1..], i) {
        assert a[..i + 1] == [a[0]] + a[1..][..i] && b[..i + 1] == [b[0]] + b[1..][..i];
        assert FirstLess(a, b, i + 1);
      }
      if i: nat :| FirstLess(a, b, i) {
        assert i > 0;
        assert a[1..][..i - 1] == a[..i][1..] && b[1..][..i - 1] == b[..i][1..];
        assert FirstLess(a[1..], b[1..], i - 1);
      }
    } else if a != [] && b != [] {
      assert a[0] < b[0] ==> FirstLess(a, b, 0);
      if i: nat :| FirstLess(a, b, i) { assert i > 0 ==> a[..i][0] == b[..i][0]; }
    } else if b != [] {
      assert FirstLess(a, b, 0);
    }
  }

  lemma {:induction false} LessTotal(a: Str, b: Str)
    ensures Less(a, b) || a == b || Less(b, a)
    ensures !(Less(a, b) && Less(b, a))
    ensures !Less(a, a)
  {
    if a != [] {
      if b != [] {
        LessTotal(a[1..], b[1..]);
        if a[0] == b[0] && a[1..] == b[1..] {
          assert a == [a[0]] + a[1..] == b;
        }
      }
      LessTotal(a[1..], a[1..]);
    }
  }

  lemma {:induction false} LessTransitive(a: Str, b: Str, c: Str)
    requires Less(a, b) && Less(b, c)
    ensures Less(a, c)
  {
    if a != [] && a[0] == b[0] == c[0] {
      LessTransitive(a[1..], b[1..], c[1..]);
    }
  }

  ghost predicate Sorted(s: seq<Str>) {
    forall i, j :: 0 <= i < j < |s| ==> Less(s[i], s[j])
  }

  function Insert(x: Str, s: seq<Str>): (r: seq<Str>)
    ensures forall y :: y in r <==> y == x || y in s
  {
    if s == [] then [x]
    else if Less(x, s[0]) then [x] + s
    else
      assert s == [s[0]] + s[1..];
      [s[0]] + Insert(x, s[1..])
  }

  lemma {:induction false} InsertSorts(x: Str, s: seq<Str>)
    requires Sorted(s) && x !in s
    ensures Sorted(Insert(x, s))
  {
    if s != [] {
      LessTotal(x, s[0]);
      if Less(x, s[0]) {
        forall j | 0 < j < |s| ensures Less(x, s[j]) { LessTransitive(x, s[0], s[j]); }
      } else {
        InsertSorts(x, s[1..]);
        var t := Insert(x, s[1..]);
        forall j | 0 <= j < |t| ensures Less(s[0], t[j]) { assert t[j] in t; }
      }
    }
  }

  /** The elements of a set in sorted order. */
  ghost function SortedElements(elements: set<Str>): (s: seq<Str>)
    ensures Sorted(s) && forall x :: x in s <==> x in elements
  {
    if elements == {} then []
    else
      var x :| x in elements;
      InsertSorts(x, SortedElements(elements - {x}));
      Insert(x, SortedElements(elements - {x}))
  }

  /** The result of sorting a duplicate-free slice of strings. */
  function Sort(s: seq<Str>): (r: seq<Str>)
    ensures forall x :: x in r <==> x in s
  {
    if s == [] then []
    else
      assert s == [s[0]] + s[1..];
      Insert(s[0], Sort(s[1..]))
  }

  ghost predicate Distinct<T>(s: seq<T>) {
    forall i, j :: 0 <= i < j < |s| ==> s[i] != s[j]
  }

  lemma {:induction false} SortSorts(s: seq<Str>)
    requires Distinct(s)
    ensures Sorted(Sort(s))
  {
    if s != [] {
      SortSorts(s[1..]);
      assert s[0] !in s[1..];
      InsertSorts(s[0], Sort(s[1..]));
    }
  }

  lemma HasElement<T>(s: seq<T>)
    requires s != []
    ensures exists x :: x in s
  {
    assert s[0] in s;
  }

  /** Sorting forgets the order it was given: the elements decide the result. */
  lemma {:induction false} SortedUnique(a: seq<Str>, b: seq<Str>)
    requires Sorted(a) && Sorted(b)
    requires forall x :: x in a <==> x in b
    ensures a == b
  {
    if a == [] {
      if b != [] { HasElement(b); }
    } else {
      assert a[0] in b;
      assert b != [] && b[0] in a;
      LessTotal(a[0], b[0]);
      LessTotal(a[0], a[0]);
      assert a[0] == b[0];
      assert a == [a[0]] + a[1..] && b == [b[0]] + b[1..];
      forall x ensures x in a[1..] <==> x in b[1..] {
        assert x in a[1..] ==> x in b && x != b[0];
        assert x in b[1..] ==> x in a && x != a[0];
      }
      SortedUnique(a[1..], b[1..]);
    }
  }

  /** The keys of a map in sorted order: a walk in any order, then a sort. */
  method SortedKeys<V>(m: map<Str, V>) returns (keys: seq<Str>)
    ensures Sorted(keys)
    ensures forall k :: k in keys <==> k in m
  {
    var walked: seq<Str> := [];
    var todo := m.Keys;
    while todo != {}
      invariant todo <= m.Keys
      invariant forall k :: k in m <==> k in todo || k in walked
      invariant forall k :: k in walked ==> k !in todo
      invariant Distinct(walked)
      decreases todo
    {
      var k :| k in todo;
      todo := todo - {k};
      walked := walked + [k];
    }
    keys := Sort(walked);
    SortSorts(walked);
  }
}
