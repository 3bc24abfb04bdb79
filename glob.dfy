/**
 * Shell-style pattern matching with the meaning of Python's `fnmatch.fnmatch`
 * on a POSIX system (no case folding): `*` matches any run of characters,
 * `/` included; `?` matches one character; `[...]` matches one character of a
 * class, `[!...]` one character outside it, with `a-z` ranges and a `]`
 * allowed as the first member; a `[` with no closing `]` is an ordinary
 * character. The whole string must match. A `!` is a negation only as the
 * first character of the class text; a reversed range before it does not
 * move it to the front.
 */
module Glob {

  /** One element of a parsed pattern. */
  datatype Token =
    | Literal(c: char)
    | AnyChar
    | AnyString
    | Class(negated: bool, members: string)

  /** The first index at or after `j` holding `]`, or `|p|` when there is none. */
  function FindClose(p: string, j: nat): (k: nat)
    requires j <= |p|
    ensures j <= k <= |p|
    ensures k < |p| ==> p[k] == ']'
    ensures forall m :: j <= m < k ==> p[m] != ']'
    decreases |p| - j
  {
    if j == |p| || p[j] == ']' then j else FindClose(p, j + 1)
  }

  /**
   * Index of the `]` closing a bracket expression whose `[` is `p[0]`, or
   * `|p|`: a `!` right after `[` and a `]` right after that are members, not
   * the end.
   */
  function CloseIndex(p: string): (k: nat)
    requires |p| >= 1
    ensures 1 <= k <= |p|
    ensures k < |p| ==> p[k] == ']'
  {
    var j0 := if 1 < |p| && p[1] == '!' then 2 else 1;
    var j1 := if j0 < |p| && p[j0] == ']' then j0 + 1 else j0;
    FindClose(p, j1)
  }

  /** The class token for the text between `[` and `]`. */
  function MakeClass(body: string): (r: Token)
  {
    if |body| > 0 && body[0] == '!' then Class(true, body[1..]) else Class(false, body)
  }

  /** Splits a pattern into tokens, left to right. */
  function Parse(p: string): (r: seq<Token>)
    decreases |p|
  {
    if p == [] then []
    else if p[0] == '*' then [AnyString] + Parse(p[1..])
    else if p[0] == '?' then [AnyChar] + Parse(p[1..])
    else if p[0] == '[' then
      var k := CloseIndex(p);
      if k < |p| then [MakeClass(p[1..k])] + Parse(p[k + 1..])
      else [Literal('[')] + Parse(p[1..])
    else [Literal(p[0])] + Parse(p[1..])
  }

  /** `c` is one of the class members: `x-y` is the range from `x` to `y`, anything else itself. */
  predicate InClass(c: char, members: string)
    decreases |members|
  {
    if members == [] then false
    else if |members| >= 3 && members[1] == '-' then
      (members[0] <= c <= members[2]) || InClass(c, members[3..])
    else c == members[0] || InClass(c, members[1..])
  }

  /** The single-character tokens: which characters each accepts. */
  predicate Accepts(t: Token, c: char)
  {
    match t
    case Literal(l) => c == l
    case AnyChar => true
    case AnyString => true
    case Class(negated, members) => InClass(c, members) != negated
  }

  /** The whole of `s` is matched by the token sequence `ts`. */
  predicate MatchTokens(s: string, ts: seq<Token>)
    decreases |s| + |ts|
  {
    if ts == [] then s == []
    else if ts[0].AnyString? then
      MatchTokens(s, ts[1..]) || (s != [] && MatchTokens(s[1..], ts))
    else
      s != [] && Accepts(ts[0], s[0]) && MatchTokens(s[1..], ts[1..])
  }

  /** A leading `*` token lets the remaining tokens match any suffix of `s`. */
  lemma {:induction false} StarTokenLaw(s: string, ts: seq<Token>)
    ensures MatchTokens(s, [AnyString] + ts) <==> exists k :: 0 <= k <= |s| && MatchTokens(s[k..], ts)
    decreases |s|
  {
    assert ([AnyString] + ts)[1..] == ts;
    assert s[0..] == s;
    if s != [] {
      StarTokenLaw(s[1..], ts);
      if exists k :: 0 <= k <= |s| && MatchTokens(s[k..], ts) {
        var k :| 0 <= k <= |s| && MatchTokens(s[k..], ts);
        if k > 0 {
          assert s[1..][k - 1..] == s[k..];
        }
      }
      if exists k :: 0 <= k <= |s[1..]| && MatchTokens(s[1..][k..], ts) {
        var k :| 0 <= k <= |s[1..]| && MatchTokens(s[1..][k..], ts);
        assert s[1..][k..] == s[k + 1..];
      }
    }
  }

  /** Python's `fnmatch.fnmatch(s, pattern)` on POSIX. */
  predicate Matches(s: string, pattern: string)
  {
    MatchTokens(s, Parse(pattern))
  }

  /**
   * `fnmatch` read off the pattern text from its first character: `*` lets
   * the rest match any suffix, `?` takes one character, a closed bracket
   * expression one character of its class, and anything else (an unclosed
   * `[` included) only itself; the empty pattern matches only the empty string.
   */
  lemma MatchesByPatternText(s: string, pattern: string)
    ensures pattern == [] ==> (Matches(s, pattern) <==> s == [])
    ensures pattern != [] && pattern[0] == '*' ==>
      (Matches(s, pattern) <==> exists k :: 0 <= k <= |s| && Matches(s[k..], pattern[1..]))
    ensures pattern != [] && pattern[0] == '?' ==>
      (Matches(s, pattern) <==> s != [] && Matches(s[1..], pattern[1..]))
    ensures pattern != [] && pattern[0] == '[' && CloseIndex(pattern) < |pattern| ==>
      (Matches(s, pattern) <==> (s != [] && Accepts(MakeClass(pattern[1..CloseIndex(pattern)]), s[0]) &&
                                 Matches(s[1..], pattern[CloseIndex(pattern) + 1..])))
    ensures (pattern != [] && pattern[0] != '*' && pattern[0] != '?' &&
             (pattern[0] != '[' || CloseIndex(pattern) == |pattern|)) ==>
      (Matches(s, pattern) <==> s != [] && s[0] == pattern[0] && Matches(s[1..], pattern[1..]))
  {
    if pattern != [] && pattern[0] == '*' {
      StarTokenLaw(s, Parse(pattern[1..]));
    }
  }

  /** Python's `any(fnmatch.fnmatch(s, p) for p in patterns)`. */
  predicate MatchesAny(s: string, patterns: seq<string>)
  {
    exists i :: 0 <= i < |patterns| && Matches(s, patterns[i])
  }

  /** A pattern with none of the characters `*`, `?` and `[`. */
  predicate IsLiteral(p: string)
  {
    forall i :: 0 <= i < |p| ==> p[i] != '*' && p[i] != '?' && p[i] != '['
  }

  lemma {:induction false} StarTokenMatchesEverything(s: string)
    ensures MatchTokens(s, [AnyString])
    decreases |s|
  {
    if s != [] {
      StarTokenMatchesEverything(s[1..]);
    } else {
      assert [AnyString][1..] == [];
    }
  }

  /** The pattern `"*"` matches every string, `/` and the empty string included. */
  lemma StarMatchesEverything(s: string)
    ensures Matches(s, "*")
  {
    assert "*"[1..] == [];
    assert Parse("*") == [AnyString];
    StarTokenMatchesEverything(s);
  }

  /** A list of patterns holding `"*"` matches every string. */
  lemma StarInListMatchesEverything(s: string, patterns: seq<string>)
    requires "*" in patterns
    ensures MatchesAny(s, patterns)
  {
    var i :| 0 <= i < |patterns| && patterns[i] == "*";
    StarMatchesEverything(s);
  }

  /** A pattern without wildcards matches exactly itself. */
  lemma {:induction false} LiteralMatchesOnlyItself(s: string, p: string)
    requires IsLiteral(p)
    ensures Matches(s, p) <==> s == p
  {
    if p != [] {
      assert Parse(p) == [Literal(p[0])] + Parse(p[1..]);
      assert IsLiteral(p[1..]) by {
        forall i | 0 <= i < |p[1..]| ensures p[1..][i] == p[i + 1] { }
      }
      if s != [] {
        LiteralMatchesOnlyItself(s[1..], p[1..]);
        assert s == [s[0]] + s[1..] && p == [p[0]] + p[1..];
      }
    }
  }

  /** `literal + "*"` matches exactly the strings that start with `literal`. */
  lemma {:induction false} PrefixPatternMatchesPrefixes(s: string, literal: string)
    requires IsLiteral(literal)
    ensures Matches(s, literal + "*") <==> literal <= s
  {
    if literal == [] {
      assert literal + "*" == "*";
      StarMatchesEverything(s);
    } else {
      var p := literal + "*";
      assert p[0] == literal[0] && p[1..] == literal[1..] + "*";
      assert Parse(p) == [Literal(literal[0])] + Parse(p[1..]);
      assert IsLiteral(literal[1..]) by {
        forall i | 0 <= i < |literal[1..]| ensures literal[1..][i] == literal[i + 1] { }
      }
      if s != [] {
        PrefixPatternMatchesPrefixes(s[1..], literal[1..]);
        assert literal <= s <==> literal[0] == s[0] && literal[1..] <= s[1..];
      }
    }
  }
}
