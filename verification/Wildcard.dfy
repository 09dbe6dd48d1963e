/** The URL-pattern matcher of the fetch routes, against the language its patterns denote. */
module Wildcard {
  import opened Bytes

  const QUESTION: Byte := 63

  /** Text that one pattern byte stands for: any string, any one byte, or the byte itself. */
  predicate Fits(p: Byte, part: Str) {
    p == STAR || (|part| == 1 && (p == QUESTION || part[0] == p))
  }

  function Concat(parts: seq<Str>): Str {
    if parts == [] then [] else parts[0] + Concat(parts[1..])
  }

  /** The parts are what each byte of the pattern stands for in s. */
  ghost predicate Reading(pattern: Str, s: Str, parts: seq<Str>) {
    && |parts| == |pattern|
    && (forall i :: 0 <= i < |pattern| ==> Fits(pattern[i], parts[i]))
    && Concat(parts) == s
  }

  /** s is in the language of the pattern. */
  ghost predicate InLanguage(pattern: Str, s: Str) {
    exists parts :: Reading(pattern, s, parts)
  }

  lemma ReadingCons(pattern: Str, s: Str, k: nat)
    requires pattern != [] && k <= |s| && Fits(pattern[0], s[..k]) && InLanguage(pattern[1..], s[k..])
    ensures InLanguage(pattern, s)
  {
    var parts :| Reading(pattern[1..], s[k..], parts);
    var all := [s[..k]] + parts;
    assert all[1..] == parts;
    assert Concat(all) == s[..k] + s[k..] == s;
    assert Reading(pattern, s, all);
  }

  lemma ReadingHead(pattern: Str, s: Str) returns (k: nat)
    requires pattern != [] && InLanguage(pattern, s)
    ensures k <= |s| && Fits(pattern[0], s[..k]) && InLanguage(pattern[1..], s[k..])
  {
    var parts :| Reading(pattern, s, parts);
    k := |parts[0]|;
    assert s == parts[0] + Concat(parts[1..]);
    assert s[..k] == parts[0] && s[k..] == Concat(parts[1..]);
    assert Reading(pattern[1..], s[k..], parts[1..]);
  }

  lemma EmptyPattern(s: Str)
    ensures InLanguage([], s) <==> s == []
  {
    assert Reading([], [], []);
    if InLanguage([], s) {
      var parts :| Reading([], s, parts);
      assert parts == [];
    }
  }

  /** A pattern byte other than a star takes exactly the first byte of the text. */
  lemma OneByte(pattern: Str, s: Str)
    requires pattern != [] && pattern[0] != STAR
    ensures InLanguage(pattern, s) <==>
              s != [] && (pattern[0] == QUESTION || pattern[0] == s[0]) && InLanguage(pattern[1..], s[1..])
  {
    if InLanguage(pattern, s) {
      var k := ReadingHead(pattern, s);
      assert k == |s[..k]| == 1;
    }
    if s != [] && (pattern[0] == QUESTION || pattern[0] == s[0]) && InLanguage(pattern[1..], s[1..]) {
      ReadingCons(pattern, s, 1);
    }
  }

  lemma TrailingStar(pattern: Str, s: Str)
    requires pattern == [STAR]
    ensures InLanguage(pattern, s)
  {
    EmptyPattern([]);
    assert s[|s|..] == [] && pattern[1..] == [];
    ReadingCons(pattern, s, |s|);
  }

  /** True exactly on the strings the pattern denotes. */
  method WildcardMatch(pattern: Str, s: Str) returns (r: bool)
    ensures r <==> InLanguage(pattern, s)
    decreases |pattern|
  {
    var p, str := pattern, s;
    while |p| > 0
      invariant |p| <= |pattern|
      invariant InLanguage(p, str) <==> InLanguage(pattern, s)
    {
      if p[0] == STAR {
        if |p| == 1 {
          TrailingStar(p, str);
          return true;
        }
        for i := 0 to |str| + 1
          invariant forall k :: 0 <= k < i ==> !InLanguage(p[1..], str[k..])
        {
          var rest := WildcardMatch(p[1..], str[i..]);
          if rest {
            ReadingCons(p, str, i);
            return true;
          }
        }
        if InLanguage(p, str) {
          var k := ReadingHead(p, str);
          assert false;
        }
        return false;
      }
      OneByte(p, str);
      if |str| == 0 { return false; }
      if p[0] == QUESTION {
        p, str := p[1..], str[1..];
        continue;
      }
      if p[0] != str[0] { return false; }
      p, str := p[1..], str[1..];
    }
    EmptyPattern(str);
    return |str| == 0;
  }

  datatype Rule = Rule(urlPattern: Str, abort: bool, mockBody: Str, contentType: Str, status: int)

  /** The first rule whose pattern matches decides. `urlMatch` also covers host patterns. */
  method MatchRoute(rules: seq<Rule>, url: Str, urlMatch: (Str, Str) -> bool) returns (r: Option<Rule>)
    ensures r.None? ==> forall i :: 0 <= i < |rules| ==> !urlMatch(rules[i].urlPattern, url)
    ensures r.Some? ==> exists i :: 0 <= i < |rules| && r.value == rules[i] && urlMatch(rules[i].urlPattern, url)
                          && forall j :: 0 <= j < i ==> !urlMatch(rules[j].urlPattern, url)
    ensures r == FirstMatch(rules, url, urlMatch)
  {
    for i := 0 to |rules|
      invariant forall j :: 0 <= j < i ==> !urlMatch(rules[j].urlPattern, url)
      invariant FirstMatch(rules, url, urlMatch) == FirstMatch(rules[i..], url, urlMatch)
    {
      if urlMatch(rules[i].urlPattern, url) { return Some(rules[i]); }
    }
    return None;
  }

  function FirstMatch(rules: seq<Rule>, url: Str, urlMatch: (Str, Str) -> bool): Option<Rule> {
    if rules == [] then None
    else if urlMatch(rules[0].urlPattern, url) then Some(rules[0])
    else FirstMatch(rules[1..], url, urlMatch)
  }
}
