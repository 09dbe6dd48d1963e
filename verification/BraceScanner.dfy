/** Finding the brace that closes an adapter's function body, and rewriting the adapter around it. */
module BraceScanner {
  import opened Bytes

  const BACKSLASH: Byte := 92
  const OPEN_PAREN: Byte := 40

  predicate IsQuote(b: Byte) {
    b == 34 || b == 39 || b == 96
  }

  // ---- The lexer, one byte at a time -----------------------------------------------

  /** Slash: the last byte was a slash that may yet start a comment. BlockStar: the last byte of a block
      comment was a star that may yet end it. */
  datatype Mode = Code | Slash | Line | Block | BlockStar | Quoted(quote: Byte) | Escaped(quote: Byte)

  function InCode(b: Byte): Mode {
    if b == SLASH then Slash else if IsQuote(b) then Quoted(b) else Code
  }

  function NextMode(m: Mode, b: Byte): Mode {
    match m
    case Code => InCode(b)
    case Slash => if b == SLASH then Line else if b == STAR then Block else InCode(b)
    case Line => if b == NEWLINE then Code else Line
    case Block => if b == STAR then BlockStar else Block
    case BlockStar => if b == SLASH then Code else if b == STAR then BlockStar else Block
    case Quoted(q) => if b == BACKSLASH then Escaped(q) else if b == q then Code else Quoted(q)
    case Escaped(q) => Quoted(q)
  }

  datatype Lex = Lex(mode: Mode, depth: int)

  predicate CodeLevel(m: Mode) {
    m.Code? || m.Slash?
  }

  function NextLex(l: Lex, b: Byte): Lex {
    Lex(NextMode(l.mode, b),
        if !CodeLevel(l.mode) then l.depth
        else if b == OPEN_BRACE then l.depth + 1
        else if b == CLOSE_BRACE then l.depth - 1
        else l.depth)
  }

  /** The lexer's state before byte i, having started in code behind the brace at `open`. */
  function LexAt(s: Str, open: int, i: int): Lex
    requires 0 <= open < i <= |s|
    decreases i
  {
    if i == open + 1 then Lex(Code, 1) else NextLex(LexAt(s, open, i - 1), s[i - 1])
  }

  /** Byte r is a code-level closing brace that brings the depth to zero. */
  predicate Closes(s: Str, open: int, r: int) {
    && 0 <= open < r < |s| && s[r] == CLOSE_BRACE
    && CodeLevel(LexAt(s, open, r).mode) && LexAt(s, open, r).depth == 1
  }

  ghost predicate Matches(s: Str, open: int, r: int) {
    Closes(s, open, r) && forall j :: open < j < r ==> !Closes(s, open, j)
  }

  ghost predicate Unmatched(s: Str, open: int) {
    forall j :: !Closes(s, open, j)
  }

  predicate InBlock(m: Mode) {
    m.Block? || m.BlockStar?
  }

  predicate OpensAt(s: Str, open: int) {
    0 <= open < |s| && s[open] == OPEN_BRACE
  }

  /** Nothing closes the brace, and the last byte is a closing brace at depth one inside the body of a
      block comment. */
  ghost predicate Slips(s: Str, open: int) {
    && 0 <= open < |s| - 1 && s[|s| - 1] == CLOSE_BRACE
    && InBlock(LexAt(s, open, |s| - 1).mode) && LexAt(s, open, |s| - 1).depth == 1
    && Unmatched(s, open)
  }

  /** The lexer reads code before byte i. */
  ghost predicate InCodeAt(s: Str, open: int, i: int, depth: int)
    requires 0 <= open < i <= |s|
  {
    LexAt(s, open, i) == Lex(Code, depth)
  }

  predicate IsChar(b: Byte, c: char) {
    b as int == c as int
  }

  /** Between slash-slash and the line's end nothing counts; behind it is code at the same depth. */
  lemma {:induction false} LineHides(s: Str, open: int, i: int, j: int, depth: int)
    requires 0 <= open < i && i + 2 <= j < |s| && InCodeAt(s, open, i, depth)
    requires IsChar(s[i], '/') && IsChar(s[i + 1], '/') && forall k :: i + 2 <= k < j ==> !IsChar(s[k], '\n')
    ensures LexAt(s, open, j) == Lex(Line, depth)
    ensures IsChar(s[j], '\n') ==> InCodeAt(s, open, j + 1, depth)
    decreases j
  {
    if j > i + 2 {
      LineHides(s, open, i, j - 1, depth);
    } else {
      assert LexAt(s, open, i + 1) == Lex(Slash, depth);
    }
  }

  /** Between slash-star and the first star-slash nothing counts; behind it is code at the same depth. */
  lemma {:induction false} BlockHides(s: Str, open: int, i: int, j: int, depth: int)
    requires 0 <= open < i && i + 2 <= j <= |s| && InCodeAt(s, open, i, depth)
    requires IsChar(s[i], '/') && IsChar(s[i + 1], '*')
    requires forall k :: i + 2 <= k < j - 1 ==> !(IsChar(s[k], '*') && IsChar(s[k + 1], '/'))
    ensures InBlock(LexAt(s, open, j).mode) && LexAt(s, open, j).depth == depth
    ensures LexAt(s, open, j).mode.BlockStar? <==> j > i + 2 && IsChar(s[j - 1], '*')
    ensures j < |s| && j > i + 2 && IsChar(s[j - 1], '*') && IsChar(s[j], '/') ==> InCodeAt(s, open, j + 1, depth)
    decreases j
  {
    if j > i + 2 {
      BlockHides(s, open, i, j - 1, depth);
      assert j > i + 3 ==> !(IsChar(s[j - 2], '*') && IsChar(s[j - 1], '/'));
    } else {
      assert LexAt(s, open, i + 1) == Lex(Slash, depth);
    }
  }

  /** Place k of a quoted text is escaped: an odd number of backslashes, counted from the opening quote at i, stands
      right before it. */
  predicate Escapes(s: Str, i: int, k: int)
    requires 0 <= i < k <= |s|
    decreases k
  {
    k > i + 1 && IsChar(s[k - 1], '\\') && !Escapes(s, i, k - 1)
  }

  /** Between a quote and the next quote of its kind that is not escaped nothing counts; behind it is code at the
      same depth. */
  lemma {:induction false} QuoteHides(s: Str, open: int, i: int, j: int, depth: int)
    requires 0 <= open < i < j < |s| && InCodeAt(s, open, i, depth)
    requires IsChar(s[i], '"') || IsChar(s[i], '\'') || IsChar(s[i], '`')
    requires forall k :: i < k < j ==> s[k] != s[i] || Escapes(s, i, k)
    ensures LexAt(s, open, j) == Lex(if Escapes(s, i, j) then Escaped(s[i]) else Quoted(s[i]), depth)
    ensures s[j] == s[i] && !Escapes(s, i, j) ==> InCodeAt(s, open, j + 1, depth)
    decreases j
  {
    if j > i + 1 {
      QuoteHides(s, open, i, j - 1, depth);
      assert s[j - 1] != s[i] || Escapes(s, i, j - 1);
    }
  }

  /** In code every other byte counts as it is: braces move the depth, the rest does not. */
  lemma CodeCounts(s: Str, open: int, i: int, depth: int)
    requires 0 <= open < i < |s| && InCodeAt(s, open, i, depth)
    requires !IsChar(s[i], '/') && !IsChar(s[i], '"') && !IsChar(s[i], '\'') && !IsChar(s[i], '`')
    ensures InCodeAt(s, open, i + 1,
                     if IsChar(s[i], '{') then depth + 1 else if IsChar(s[i], '}') then depth - 1 else depth)
  {
  }

  /** A slash that no slash or star follows is code, and so is what follows it. */
  lemma SlashCounts(s: Str, open: int, i: int, depth: int)
    requires 0 <= open < i && i + 1 < |s| && InCodeAt(s, open, i, depth) && IsChar(s[i], '/')
    requires !IsChar(s[i + 1], '/') && !IsChar(s[i + 1], '*')
    ensures NextLex(LexAt(s, open, i + 1), s[i + 1]) == NextLex(Lex(Code, depth), s[i + 1])
  {
    assert LexAt(s, open, i + 1) == Lex(Slash, depth);
  }

  // ---- The scanner -----------------------------------------------------------------

  /** At i the scanner reads code: a slash just read starts no comment, or a line comment ends here. */
  ghost predicate Scanning(s: Str, open: int, i: int)
    requires 0 <= open < i <= |s|
  {
    var m := LexAt(s, open, i).mode;
    || m.Code?
    || (m.Slash? && (i < |s| ==> s[i] != SLASH && s[i] != STAR))
    || (m.Line? && (i < |s| ==> s[i] == NEWLINE))
  }

  /** No byte before i closes the brace at open. */
  ghost predicate Clear(s: Str, open: int, i: int) {
    forall j :: open < j < i ==> !Closes(s, open, j)
  }

  lemma SlipsStayInBlock(s: Str, open: int)
    requires Slips(s, open)
    ensures InBlock(LexAt(s, open, |s|).mode)
  {
  }

  method SkipLine(s: Str, ghost open: int, from: int) returns (i: int)
    requires 0 <= open < from <= |s| && Clear(s, open, from) && LexAt(s, open, from).mode.Line?
    ensures from <= i <= |s| && Clear(s, open, i) && LexAt(s, open, i) == LexAt(s, open, from)
    ensures i < |s| ==> s[i] == NEWLINE
  {
    i := from;
    while i < |s| && s[i] != NEWLINE
      invariant from <= i <= |s| && Clear(s, open, i) && LexAt(s, open, i) == LexAt(s, open, from)
    {
      i := i + 1;
    }
  }

  /** Ends behind the comment, or on the input's last byte still inside it. */
  method SkipBlock(s: Str, ghost open: int, from: int) returns (i: int)
    requires 0 <= open < from <= |s| && Clear(s, open, from) && LexAt(s, open, from).mode.Block?
    ensures from <= i <= |s| && Clear(s, open, i) && LexAt(s, open, i).depth == LexAt(s, open, from).depth
    ensures LexAt(s, open, i).mode.Code? || (InBlock(LexAt(s, open, i).mode) && (i == |s| - 1 || i == from == |s|))
  {
    i := from;
    while i + 1 < |s| && !(s[i] == STAR && s[i + 1] == SLASH)
      invariant from <= i <= |s| && Clear(s, open, i)
      invariant i == from || i < |s|
      invariant InBlock(LexAt(s, open, i).mode) && LexAt(s, open, i).depth == LexAt(s, open, from).depth
      invariant LexAt(s, open, i).mode.BlockStar? ==> i < |s| ==> s[i] != SLASH
    {
      i := i + 1;
    }
    if i + 1 < |s| {
      assert LexAt(s, open, i + 1).mode.BlockStar?;
      i := i + 2;
    }
  }

  method SkipQuoted(s: Str, ghost open: int, from: int, quote: Byte) returns (i: int)
    requires 0 <= open < from <= |s| && Clear(s, open, from) && IsQuote(quote)
    requires from == |s| || LexAt(s, open, from).mode == Quoted(quote)
    ensures from <= i <= |s| && Clear(s, open, i)
    ensures i < |s| ==> LexAt(s, open, i) == Lex(Code, LexAt(s, open, from).depth)
    ensures from < |s| ==> !InBlock(LexAt(s, open, i).mode)
  {
    i := from;
    while i < |s|
      invariant from <= i <= |s| && Clear(s, open, i)
      invariant LexAt(s, open, i) == LexAt(s, open, from)
                || (i == |s| && LexAt(s, open, i) == Lex(Escaped(quote), LexAt(s, open, from).depth))
    {
      if s[i] == BACKSLASH && i + 1 < |s| {
        assert LexAt(s, open, i + 1).mode == Escaped(quote);
        i := i + 2;
        continue;
      }
      if s[i] == quote {
        i := i + 1;
        break;
      }
      i := i + 1;
    }
  }

  /** The first closing brace that brings the code-level depth to zero, or -1 if there is none; except that
      a brace ending the input inside a block comment at depth one is taken for code. */
  method MatchingJSBrace(s: Str, open: int) returns (r: int)
    ensures !OpensAt(s, open) ==> r == -1
    ensures OpensAt(s, open) && !Slips(s, open) ==> if r == -1 then Unmatched(s, open) else Matches(s, open, r)
    ensures OpensAt(s, open) && Slips(s, open) ==> r == |s| - 1
  {
    if open < 0 || open >= |s| || s[open] != OPEN_BRACE { return -1; }
    if Slips(s, open) { SlipsStayInBlock(s, open); }
    var depth := 1;
    var i := open + 1;
    while i < |s|
      invariant open < i <= |s| && Clear(s, open, i)
      invariant i < |s| ==> LexAt(s, open, i).depth == depth
      invariant i < |s| ==> Scanning(s, open, i) || (i == |s| - 1 && InBlock(LexAt(s, open, i).mode))
      invariant i == |s| ==> !Slips(s, open)
      decreases |s| - i
    {
      if i + 1 < |s| && s[i] == SLASH && s[i + 1] == SLASH {
        assert LexAt(s, open, i + 1).mode.Slash?;
        i := SkipLine(s, open, i + 2);
        continue;
      }
      if i + 1 < |s| && s[i] == SLASH && s[i + 1] == STAR {
        assert LexAt(s, open, i + 1).mode.Slash?;
        i := SkipBlock(s, open, i + 2);
        continue;
      }
      var c := s[i];
      assert LexAt(s, open, i + 1) == NextLex(LexAt(s, open, i), c);
      if IsQuote(c) {
        i := SkipQuoted(s, open, i + 1, c);
        continue;
      }
      if c == OPEN_BRACE {
        depth := depth + 1;
      } else if c == CLOSE_BRACE {
        depth := depth - 1;
        if depth == 0 {
          assert Scanning(s, open, i) ==> Closes(s, open, i);
          return i;
        }
      }
      i := i + 1;
    }
    return -1;
  }

  /** The scanner's one slip happens: a block comment that never ends, its last byte a brace. */
  lemma SlipHappens()
    ensures var s := [OPEN_BRACE, SLASH, STAR, CLOSE_BRACE]; OpensAt(s, 0) && Slips(s, 0)
  {
    var s := [OPEN_BRACE, SLASH, STAR, CLOSE_BRACE];
    assert LexAt(s, 0, 2) == Lex(Slash, 1);
    assert LexAt(s, 0, 3) == Lex(Block, 1);
    forall j ensures !Closes(s, 0, j) {}
  }

  // ---- The rewrite -----------------------------------------------------------------

  function Ascii(text: string): (s: Str)
    ensures |s| == |text| && forall i :: 0 <= i < |text| ==> s[i] == (text[i] as int % 256) as Byte
  {
    seq(|text|, i requires 0 <= i < |text| => (text[i] as int % 256) as Byte)
  }

  const FUNCTION_KEYWORD: string := "function"
  const RUN_HEAD: string := "const __bb_run = async function"
  const RUN_TAIL: string := "}; return await __bb_run(__args);"

  predicate IsBlank(b: Byte) {
    b == SPACE || b == 9 || b == NEWLINE || b == 13
  }

  lemma BlanksAre(b: Byte)
    ensures IsBlank(b) <==> b in Ascii(" \t\n\r")
  {
    var blanks := Ascii(" \t\n\r");
    assert blanks[0] == 32 && blanks[1] == 9 && blanks[2] == 10 && blanks[3] == 13;
  }

  predicate OccursAt(s: Str, sub: Str, i: int) {
    0 <= i <= |s| - |sub| && s[i..i + |sub|] == sub
  }

  method Index(s: Str, sub: Str) returns (i: int)
    ensures i == -1 ==> forall j :: !OccursAt(s, sub, j)
    ensures i != -1 ==> OccursAt(s, sub, i) && forall j :: 0 <= j < i ==> !OccursAt(s, sub, j)
  {
    i := 0;
    while i + |sub| <= |s|
      invariant 0 <= i
      invariant forall j :: 0 <= j < i ==> !OccursAt(s, sub, j)
    {
      if s[i..i + |sub|] == sub { return; }
      i := i + 1;
    }
    i := -1;
  }

  /** Byte r opens the parameter list: the first "function" of the header stands before it, with nothing but
      spaces, tabs and line breaks in between. */
  ghost predicate OpensParams(s: Str, from: int, to: int, f: int, r: int)
    requires 0 <= from <= to <= |s|
  {
    var word := Ascii(FUNCTION_KEYWORD);
    && OccursAt(s[from..to], word, f) && (forall j :: 0 <= j < f ==> !OccursAt(s[from..to], word, j))
    && from + f + |word| <= r < to && s[r] == OPEN_PAREN
    && forall k :: from + f + |word| <= k < r ==> IsBlank(s[k])
  }

  method ParamListOpenParen(s: Str, from: int, to: int) returns (r: int)
    requires 0 <= from <= to <= |s|
    ensures r == -1 || exists f :: OpensParams(s, from, to, f, r)
    ensures r == -1 ==> forall f, p :: !OpensParams(s, from, to, f, p)
  {
    var word := Ascii(FUNCTION_KEYWORD);
    var f := Index(s[from..to], word);
    if f < 0 { return -1; }
    r := from + f + |word|;
    while r < to && IsBlank(s[r])
      invariant from + f + |word| <= r <= to
      invariant forall k :: from + f + |word| <= k < r ==> IsBlank(s[k])
    {
      r := r + 1;
    }
    if r < to && s[r] == OPEN_PAREN {
      assert OpensParams(s, from, to, f, r);
      return;
    }
    r := -1;
  }

  /** The adapter with its header replaced up to the parameter list, and its closing brace by the call. */
  function Spliced(s: Str, header: int, params: int, close: int): Str
    requires 0 <= header <= params <= close < |s|
  {
    s[..header] + Ascii(RUN_HEAD) + s[params..close] + Ascii(RUN_TAIL) + s[close + 1..]
  }

  /** Where a byte of the kept body stands in the rewritten text. */
  function Moved(header: int, params: int, i: int): int {
    header + |RUN_HEAD| + i - params
  }

  lemma SplicedKeeps(s: Str, header: int, params: int, close: int)
    requires 0 <= header <= params <= close < |s|
    ensures var out := Spliced(s, header, params, close);
            && out[..header] == s[..header]
            && |out| == |s| + |RUN_HEAD| + |RUN_TAIL| - (params - header) - 1
            && out[|out| - (|s| - close - 1)..] == s[close + 1..]
            && (forall i :: params <= i < close ==> out[Moved(header, params, i)] == s[i])
            && out[Moved(header, params, close)] == CLOSE_BRACE
  {
    var out := Spliced(s, header, params, close);
    var a, b, c, d, e := s[..header], Ascii(RUN_HEAD), s[params..close], Ascii(RUN_TAIL), s[close + 1..];
    assert out == a + b + c + d + e;
    assert d[0] == CLOSE_BRACE;
    forall i | params <= i < close ensures out[Moved(header, params, i)] == s[i] {
      assert (a + b + c)[|a| + |b| + (i - params)] == c[i - params];
    }
  }

  /** What stands before and behind the kept body: the declaration of __bb_run, and the call of it. */
  lemma SplicedSpells(s: Str, header: int, params: int, close: int)
    requires 0 <= header <= params <= close < |s|
    ensures var out := Spliced(s, header, params, close);
            && OccursAt(out, Ascii("const __bb_run = async function"), header)
            && OccursAt(out, Ascii("}; return await __bb_run(__args);"), Moved(header, params, close))
            && Moved(header, params, params) == header + |"const __bb_run = async function"|
  {
    var a, b, c, d, e := s[..header], Ascii(RUN_HEAD), s[params..close], Ascii(RUN_TAIL), s[close + 1..];
    var out := a + b + c + d + e;
    assert out[|a|..|a| + |b|] == b;
    assert out[|a + b + c|..|a + b + c| + |d|] == d;
  }

  lemma {:induction false} LexMoves(s: Str, header: int, params: int, open: int, close: int, i: int)
    requires 0 <= header <= params <= open < i <= close < |s|
    ensures var out := Spliced(s, header, params, close);
            Moved(header, params, i) <= |out|
            && LexAt(out, Moved(header, params, open), Moved(header, params, i)) == LexAt(s, open, i)
    decreases i
  {
    hide Spliced;
    SplicedKeeps(s, header, params, close);
    if i > open + 1 { LexMoves(s, header, params, open, close, i - 1); }
  }

  /** In the rewritten text the function body's brace is closed by the brace put in for the original one. */
  lemma SplicedMatches(s: Str, header: int, params: int, open: int, close: int)
    requires 0 <= header <= params <= open && Matches(s, open, close)
    ensures Matches(Spliced(s, header, params, close), Moved(header, params, open), Moved(header, params, close))
  {
    hide Spliced, LexAt;
    SplicedKeeps(s, header, params, close);
    var out := Spliced(s, header, params, close);
    LexMoves(s, header, params, open, close, close);
    forall j | Moved(header, params, open) < j < Moved(header, params, close)
      ensures !Closes(out, Moved(header, params, open), j)
    {
      var i := j - header - |RUN_HEAD| + params;
      assert j == Moved(header, params, i);
      LexMoves(s, header, params, open, close, i);
      assert !Closes(s, open, i);
    }
  }

  ghost predicate Rewritten(s: Str, from: int, to: int, f: int, p: int, close: int, out: Str)
    requires 0 <= from < to <= |s|
  {
    && OpensParams(s, from, to, f, p) && p <= close < |s|
    && out == Spliced(s, from, p, close)
  }

  /** `found` is the span of the first anonymous async function header; the regular expression that finds it
      ends at the body's opening brace. */
  method RewriteAnonymousAsyncAdapter(s: Str, found: Option<(int, int)>) returns (out: Str)
    requires found.Some? ==> 0 <= found.value.0 < found.value.1 <= |s|
    ensures found.None? || !OpensAt(s, found.value.1 - 1) ==> out == s
    ensures found.Some? && OpensAt(s, found.value.1 - 1) && !Slips(s, found.value.1 - 1) ==>
              var (from, to) := found.value;
              if Unmatched(s, to - 1) || (forall f, p :: !OpensParams(s, from, to, f, p)) then out == s
              else exists f, p, close :: Rewritten(s, from, to, f, p, close, out) && Matches(s, to - 1, close)
    ensures found.Some? && Slips(s, found.value.1 - 1) && OpensAt(s, found.value.1 - 1) ==>
              var (from, to) := found.value;
              if forall f, p :: !OpensParams(s, from, to, f, p) then out == s
              else exists f, p, close :: Rewritten(s, from, to, f, p, close, out) && close == |s| - 1
  {
    if found.None? { return s; }
    var (from, to) := found.value;
    var bodyOpen := to - 1;
    if s[bodyOpen] != OPEN_BRACE { return s; }
    var closeBrace := MatchingJSBrace(s, bodyOpen);
    if closeBrace < 0 { return s; }
    var po := ParamListOpenParen(s, from, to);
    if po < 0 { return s; }
    ghost var f :| OpensParams(s, from, to, f, po);
    assert po <= bodyOpen < closeBrace;
    out := s[..from] + Ascii(RUN_HEAD) + s[po..closeBrace] + Ascii(RUN_TAIL) + s[closeBrace + 1..];
    assert Rewritten(s, from, to, f, po, closeBrace, out);
  }
}
