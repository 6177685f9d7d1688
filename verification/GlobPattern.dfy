/** Glob patterns compiled to regular expressions: internal/pattern/match.go, for ASCII patterns. */
module GlobPatterns {
  import opened Common

  datatype CompileError = InvalidEscape(c: char) | UnterminatedEscape

  // ----- the glob language -----

  /** An escape is a backslash before a star, a question mark or a backslash, and nothing else. */
  predicate ValidGlob(p: string) {
    if p == "" then true
    else if p[0] == '\\' then |p| >= 2 && (p[1] == '*' || p[1] == '?' || p[1] == '\\') && ValidGlob(p[2..])
    else ValidGlob(p[1..])
  }

  ghost predicate Wild(c: char, newlines: bool) { newlines || c != '\n' }

  /** Which strings a pattern stands for; `newlines` says whether wildcards match them too. */
  ghost predicate GlobAccepts(p: string, s: string, newlines: bool)
    decreases p
  {
    if p == "" then s == ""
    else if p[0] == '*' then
      exists k :: 0 <= k <= |s| && AllWild(s[..k], newlines) && GlobAccepts(p[1..], s[k..], newlines)
    else if p[0] == '?' then s != "" && Wild(s[0], newlines) && GlobAccepts(p[1..], s[1..], newlines)
    else if p[0] == '\\' then |p| >= 2 && s != "" && s[0] == p[1] && GlobAccepts(p[2..], s[1..], newlines)
    else s != "" && s[0] == p[0] && GlobAccepts(p[1..], s[1..], newlines)
  }

  ghost predicate AllWild(s: string, newlines: bool) {
    forall i :: 0 <= i < |s| ==> Wild(s[i], newlines)
  }

  // ----- the regular expressions in use: RE2 syntax without classes, groups or alternation -----

  datatype Atom = Lit(c: char) | Dot
  datatype Item = Item(atom: Atom, star: bool)

  const SPECIAL := ".()+|^$[]{}*?\\"

  /** An escaped special character, a dot, or any other character; a star may follow. */
  function ParseItems(t: string): Option<seq<Item>>
    decreases |t|, 0
  {
    if t == "" then Some([])
    else if t[0] == '\\' then
      if |t| < 2 || t[1] !in SPECIAL then None else ParseStar(Lit(t[1]), t[2..])
    else if t[0] == '.' then ParseStar(Dot, t[1..])
    else if t[0] in SPECIAL then None
    else ParseStar(Lit(t[0]), t[1..])
  }

  function ParseStar(a: Atom, t: string): Option<seq<Item>>
    decreases |t|, 1
  {
    var star := t != "" && t[0] == '*';
    var rest := ParseItems(if star then t[1..] else t);
    if rest.None? then None else Some([Item(a, star)] + rest.value)
  }

  /** A dot does not match a newline unless the s flag is on. */
  ghost predicate AtomMatches(a: Atom, c: char) { if a.Dot? then c != '\n' else a.c == c }

  ghost predicate Matches(items: seq<Item>, s: string)
    decreases |items|, |s|
  {
    if items == [] then s == ""
    else if items[0].star then
      Matches(items[1..], s) || (s != "" && AtomMatches(items[0].atom, s[0]) && Matches(items, s[1..]))
    else s != "" && AtomMatches(items[0].atom, s[0]) && Matches(items[1..], s[1..])
  }

  /** ^...$ without the m flag: the whole text must match. */
  ghost predicate RegexAccepts(regex: string, s: string) {
    && |regex| >= 2 && regex[0] == '^' && regex[|regex| - 1] == '$'
    && var items := ParseItems(regex[1..|regex| - 1]); items.Some? && Matches(items.value, s)
  }

  // ----- compilation -----

  /** What one character adds, and whether it opens an escape. */
  function Piece(c: char): string {
    if c == '*' then ".*"
    else if c == '?' then "."
    else if c in ".()+|^$[]{}" then ['\\', c]
    else [c]
  }

  function CompileFrom(p: string, escaped: bool): Result<string, CompileError> {
    if p == "" then if escaped then Err(UnterminatedEscape) else Ok("")
    else if escaped then
      if p[0] == '*' || p[0] == '?' || p[0] == '\\' then Prepend(['\\', p[0]], CompileFrom(p[1..], false))
      else Err(InvalidEscape(p[0]))
    else if p[0] == '\\' then CompileFrom(p[1..], true)
    else Prepend(Piece(p[0]), CompileFrom(p[1..], false))
  }

  function Prepend(s: string, r: Result<string, CompileError>): Result<string, CompileError> {
    if r.Err? then r else Ok(s + r.value)
  }

  function Anchored(r: Result<string, CompileError>): Result<string, CompileError> {
    if r.Err? then r else Ok("^" + r.value + "$")
  }

  /** matchCompile: one pass over the bytes with the flag `escaped`. */
  method Compile(pattern: string) returns (r: Result<string, CompileError>)
    ensures r == Anchored(CompileFrom(pattern, false))
  {
    hide CompileFrom;
    var regex, escaped := "", false;
    EmptyPrepend(CompileFrom(pattern, false));
    assert pattern[0..] == pattern;
    for i := 0 to |pattern|
      invariant CompileFrom(pattern, false) == Prepend(regex, CompileFrom(pattern[i..], escaped))
    {
      var c := pattern[i];
      CompileStep(pattern, i, escaped);
      ghost var was := regex;
      if escaped {
        escaped := false;
        if c == '*' || c == '?' || c == '\\' {
          regex := regex + "\\" + [c];
          assert regex == was + ['\\', c];
          PrependTwice(was, ['\\', c], CompileFrom(pattern[i + 1..], false));
        } else {
          return Err(InvalidEscape(c));
        }
      } else {
        if c == '\\' {
          escaped := true;
        } else {
          regex := regex + Piece(c);
          PrependTwice(was, Piece(c), CompileFrom(pattern[i + 1..], false));
        }
      }
    }
    CompileEnd(escaped);
    assert pattern[|pattern|..] == "";
    if escaped {
      return Err(UnterminatedEscape);
    }
    assert regex + "" == regex;
    r := Ok("^" + regex + "$");
  }

  lemma {:induction false} CompileStep(p: string, i: nat, escaped: bool)
    requires i < |p|
    ensures CompileFrom(p[i..], escaped) ==
            if escaped then
              if p[i] == '*' || p[i] == '?' || p[i] == '\\' then Prepend(['\\', p[i]], CompileFrom(p[i + 1..], false))
              else Err(InvalidEscape(p[i]))
            else if p[i] == '\\' then CompileFrom(p[i + 1..], true)
            else Prepend(Piece(p[i]), CompileFrom(p[i + 1..], false))
  {
    assert p[i..][1..] == p[i + 1..];
  }

  lemma {:induction false} CompileEnd(escaped: bool)
    ensures CompileFrom("", escaped) == if escaped then Err(UnterminatedEscape) else Ok("")
  {
  }

  lemma {:induction false} EmptyPrepend(r: Result<string, CompileError>)
    ensures Prepend("", r) == r
  {
    if r.Ok? {
      assert "" + r.value == r.value;
    }
  }

  lemma {:induction false} PrependTwice(a: string, b: string, r: Result<string, CompileError>)
    ensures Prepend(a, Prepend(b, r)) == Prepend(a + b, r)
  {
    if r.Ok? {
      AppendAssoc(a, b, r.value);
    }
  }

  /** Compilation fails exactly on an illegal or dangling escape. */
  lemma {:induction false} CompilesIffValid(p: string)
    ensures CompileFrom(p, false).Ok? <==> ValidGlob(p)
    decreases |p|
  {
    if p != "" {
      if p[0] == '\\' {
        if |p| >= 2 {
          assert p[1..][1..] == p[2..];
          assert p[1..][0] == p[1];
          CompilesIffValid(p[2..]);
        }
      } else {
        CompilesIffValid(p[1..]);
      }
    }
  }

  // ----- the emitted text, read back -----

  /** The text never starts with a bare star, so a star always belongs to the dot before it. */
  lemma {:induction false} NoBareStar(p: string)
    requires CompileFrom(p, false).Ok?
    ensures var t := CompileFrom(p, false).value; t == "" || t[0] != '*'
  {
    if p != "" && p[0] != '\\' {
      assert Piece(p[0])[0] != '*';
    }
  }

  lemma {:induction false} ParseEscaped(c: char, t: string)
    requires c in SPECIAL && (t == "" || t[0] != '*')
    ensures ParseItems(['\\', c] + t) ==
            if ParseItems(t).None? then None else Some([Item(Lit(c), false)] + ParseItems(t).value)
  {
    var u := ['\\', c] + t;
    assert u[0] == '\\' && u[1] == c && u[2..] == t;
  }

  lemma {:induction false} ParsePlain(c: char, t: string)
    requires c !in SPECIAL && (t == "" || t[0] != '*')
    ensures ParseItems([c] + t) ==
            if ParseItems(t).None? then None else Some([Item(Lit(c), false)] + ParseItems(t).value)
  {
    var u := [c] + t;
    assert '.' in SPECIAL && '\\' in SPECIAL;
    assert u[0] == c && u[1..] == t;
  }

  lemma {:induction false} ParseDot(t: string)
    requires t == "" || t[0] != '*'
    ensures ParseItems("." + t) == if ParseItems(t).None? then None else Some([Item(Dot, false)] + ParseItems(t).value)
  {
    var u := "." + t;
    assert u[0] == '.' && u[1..] == t;
  }

  lemma {:induction false} ParseDotStar(t: string)
    ensures ParseItems(".*" + t) == if ParseItems(t).None? then None else Some([Item(Dot, true)] + ParseItems(t).value)
  {
    var u := ".*" + t;
    assert u[0] == '.' && u[1] == '*' && u[1..] == "*" + t && u[1..][1..] == t;
  }

  /** How the first piece of a valid pattern reads back: an item, and the pattern that is left. */
  function FirstItem(p: string): Item
    requires p != "" && ValidGlob(p)
  {
    if p[0] == '\\' then Item(Lit(p[1]), false)
    else if p[0] == '*' then Item(Dot, true)
    else if p[0] == '?' then Item(Dot, false)
    else Item(Lit(p[0]), false)
  }

  function RestOf(p: string): (r: string)
    requires p != "" && ValidGlob(p)
    ensures ValidGlob(r) && |r| < |p|
  {
    if p[0] == '\\' then p[2..] else p[1..]
  }

  lemma {:induction false} CompileEscape(p: string)
    requires p != "" && p[0] == '\\' && ValidGlob(p)
    ensures CompileFrom(p, false) == Prepend(['\\', p[1]], CompileFrom(p[2..], false))
  {
    assert p[1..][0] == p[1] && p[1..][1..] == p[2..];
  }

  lemma {:induction false} ReadsBack(p: string)
    requires p != "" && ValidGlob(p)
    ensures CompileFrom(p, false).Ok? && CompileFrom(RestOf(p), false).Ok?
    ensures ParseItems(CompileFrom(p, false).value) ==
            var rest := ParseItems(CompileFrom(RestOf(p), false).value);
            if rest.None? then None else Some([FirstItem(p)] + rest.value)
  {
    CompilesIffValid(p);
    CompilesIffValid(RestOf(p));
    NoBareStar(RestOf(p));
    var t := CompileFrom(RestOf(p), false).value;
    if p[0] == '\\' {
      CompileEscape(p);
      hide ParseItems, CompileFrom;
      ParseEscaped(p[1], t);
    } else {
      assert CompileFrom(p, false) == Prepend(Piece(p[0]), Ok(t));
      hide ParseItems, CompileFrom;
      if p[0] == '*' {
        ParseDotStar(t);
      } else if p[0] == '?' {
        ParseDot(t);
      } else if p[0] in ".()+|^$[]{}" {
        ParseEscaped(p[0], t);
      } else {
        ParsePlain(p[0], t);
      }
    }
  }

  // ----- the same language -----

  /** A starred dot takes any run of characters that are not newlines. */
  lemma {:induction false} StarSplits(items: seq<Item>, s: string)
    requires items != [] && items[0] == Item(Dot, true)
    ensures Matches(items, s) <==>
            exists k :: 0 <= k <= |s| && AllWild(s[..k], false) && Matches(items[1..], s[k..])
    decreases |s|
  {
    if Matches(items[1..], s) {
      assert s[0..] == s && AllWild(s[..0], false);
    } else if s != "" {
      StarSplits(items, s[1..]);
      if Matches(items, s) {
        var k :| 0 <= k <= |s[1..]| && AllWild(s[1..][..k], false) && Matches(items[1..], s[1..][k..]);
        assert s[1..][k..] == s[k + 1..];
        StretchWild(s, k);
      }
      if k :| 0 <= k <= |s| && AllWild(s[..k], false) && Matches(items[1..], s[k..]) {
        assert s[0..] == s;
        ShrinkWild(s, k);
        assert s[1..][k - 1..] == s[k..];
      }
    } else {
      assert s[0..] == s;
    }
  }

  lemma {:induction false} StretchWild(s: string, k: nat)
    requires s != "" && s[0] != '\n' && k < |s| && AllWild(s[1..][..k], false)
    ensures AllWild(s[..k + 1], false)
  {
    var longer := s[..k + 1];
    forall i | 0 <= i < k + 1
      ensures Wild(longer[i], false)
    {
      if i > 0 {
        assert Wild(s[1..][..k][i - 1], false);
      }
    }
  }

  lemma {:induction false} ShrinkWild(s: string, k: nat)
    requires 1 <= k <= |s| && AllWild(s[..k], false)
    ensures s[0] != '\n' && AllWild(s[1..][..k - 1], false)
  {
    assert Wild(s[..k][0], false);
    var shorter := s[1..][..k - 1];
    forall i | 0 <= i < k - 1
      ensures Wild(shorter[i], false)
    {
      assert Wild(s[..k][i + 1], false);
    }
  }

  /** The items a compiled pattern reads back as accept what the pattern stands for, wildcards
      stopping at newlines. */
  lemma {:induction false} ItemsAccept(p: string, s: string)
    requires ValidGlob(p)
    ensures CompileFrom(p, false).Ok? && ParseItems(CompileFrom(p, false).value).Some?
    ensures Matches(ParseItems(CompileFrom(p, false).value).value, s) <==> GlobAccepts(p, s, false)
    decreases |p|
  {
    if p != "" {
      ReadsBack(p);
      var rest := RestOf(p);
      ItemsAccept(rest, s);
      var tail := ParseItems(CompileFrom(rest, false).value).value;
      var items := [FirstItem(p)] + tail;
      assert items[1..] == tail;
      hide ParseItems, CompileFrom;
      if p[0] == '*' {
        StarSplits(items, s);
        forall k | 0 <= k <= |s|
          ensures Matches(tail, s[k..]) <==> GlobAccepts(rest, s[k..], false)
        {
          ItemsAccept(rest, s[k..]);
        }
      } else if s != "" {
        ItemsAccept(rest, s[1..]);
      }
    }
  }

  /** A pattern compiles exactly when it is valid, and then the expression accepts exactly the strings
      the glob stands for with wildcards that stop at newlines. */
  lemma {:induction false} CompilePreservesMeaning(p: string, s: string)
    ensures var r := Anchored(CompileFrom(p, false));
            && (r.Ok? <==> ValidGlob(p))
            && (r.Ok? ==> (RegexAccepts(r.value, s) <==> GlobAccepts(p, s, false)))
  {
    hide ParseItems, Matches, GlobAccepts, CompileFrom, ValidGlob;
    CompilesIffValid(p);
    if ValidGlob(p) {
      ItemsAccept(p, s);
      var t := CompileFrom(p, false).value;
      var regex := "^" + t + "$";
      assert regex[1..|regex| - 1] == t;
    }
  }

  // ----- newlines -----

  lemma {:induction false} NoNewlineSame(p: string, s: string)
    requires '\n' !in s
    ensures GlobAccepts(p, s, false) <==> GlobAccepts(p, s, true)
    decreases |p|
  {
    if p != "" {
      if p[0] == '*' {
        forall k | 0 <= k <= |s|
          ensures AllWild(s[..k], false) && AllWild(s[..k], true)
          ensures GlobAccepts(p[1..], s[k..], false) <==> GlobAccepts(p[1..], s[k..], true)
        {
          NoNewlineSame(p[1..], s[k..]);
        }
      } else if s != "" {
        if p[0] == '\\' && |p| >= 2 {
          NoNewlineSame(p[2..], s[1..]);
        }
        NoNewlineSame(p[1..], s[1..]);
      }
    }
  }

  /** On text without newlines the expression and the glob agree, for every valid pattern. */
  lemma {:induction false} AgreeWithoutNewlines(p: string, s: string)
    requires ValidGlob(p) && '\n' !in s
    ensures Anchored(CompileFrom(p, false)).Ok?
    ensures RegexAccepts(Anchored(CompileFrom(p, false)).value, s) <==> GlobAccepts(p, s, true)
  {
    hide GlobAccepts, CompileFrom, ValidGlob, RegexAccepts;
    CompilePreservesMeaning(p, s);
    NoNewlineSame(p, s);
  }

  lemma {:induction false} PlainPatternStops(p: string, s: string)
    requires '\n' !in p && GlobAccepts(p, s, false)
    ensures '\n' !in s
    decreases |p|
  {
    if p != "" {
      if p[0] == '*' {
        var k :| 0 <= k <= |s| && AllWild(s[..k], false) && GlobAccepts(p[1..], s[k..], false);
        PlainPatternStops(p[1..], s[k..]);
        forall i | 0 <= i < |s|
          ensures s[i] != '\n'
        {
          if i < k {
            assert Wild(s[..k][i], false);
          } else {
            assert s[k..][i - k] in s[k..];
          }
        }
      } else if p[0] == '\\' {
        PlainPatternStops(p[2..], s[1..]);
        assert s == [s[0]] + s[1..];
      } else {
        PlainPatternStops(p[1..], s[1..]);
        assert s == [s[0]] + s[1..];
      }
    }
  }

  /** For a pattern without a newline the expression accepts exactly the newline-free strings of the
      glob. */
  lemma {:induction false} ExactWithoutNewlines(p: string, s: string)
    requires ValidGlob(p) && '\n' !in p
    ensures Anchored(CompileFrom(p, false)).Ok?
    ensures RegexAccepts(Anchored(CompileFrom(p, false)).value, s) <==> '\n' !in s && GlobAccepts(p, s, true)
  {
    hide GlobAccepts, CompileFrom, ValidGlob, RegexAccepts;
    CompilePreservesMeaning(p, s);
    if GlobAccepts(p, s, false) {
      PlainPatternStops(p, s);
    }
    if '\n' !in s {
      NoNewlineSame(p, s);
    }
  }

  /** What a pattern matches literally: its own characters, one for each wildcard. */
  function Sample(p: string): string
    requires ValidGlob(p)
    decreases |p|
  {
    if p == "" then ""
    else if p[0] == '\\' then [p[1]] + Sample(p[2..])
    else if p[0] == '*' then Sample(p[1..])
    else if p[0] == '?' then "?" + Sample(p[1..])
    else [p[0]] + Sample(p[1..])
  }

  lemma {:induction false} SampleAccepted(p: string)
    requires ValidGlob(p)
    ensures GlobAccepts(p, Sample(p), false)
    ensures '\n' in p ==> '\n' in Sample(p)
    decreases |p|
  {
    if p != "" {
      var rest := RestOf(p);
      SampleAccepted(rest);
      if p[0] == '*' {
        var s := Sample(p);
        assert s[0..] == s && AllWild(s[..0], false);
      } else {
        var s := Sample(p);
        assert s[1..] == Sample(rest);
      }
      if p[0] == '\\' {
        assert p == ['\\', p[1]] + p[2..];
      } else {
        assert p == [p[0]] + p[1..];
      }
    }
  }

  /** A pattern with a newline accepts some string that has one. */
  lemma {:induction false} NewlinePatternAccepts(p: string)
    requires ValidGlob(p) && '\n' in p
    ensures Anchored(CompileFrom(p, false)).Ok?
    ensures exists s :: '\n' in s && RegexAccepts(Anchored(CompileFrom(p, false)).value, s)
  {
    SampleAccepted(p);
    hide GlobAccepts, CompileFrom, ValidGlob, RegexAccepts, Sample;
    CompilePreservesMeaning(p, Sample(p));
  }

  /** The expression accepts exactly the newline-free strings of the glob if and only if the pattern
      holds no newline itself. */
  lemma {:induction false} ExactIffNoNewline(p: string)
    requires ValidGlob(p)
    ensures Anchored(CompileFrom(p, false)).Ok?
    ensures (forall s :: RegexAccepts(Anchored(CompileFrom(p, false)).value, s) <==> '\n' !in s && GlobAccepts(p, s, true))
            <==> '\n' !in p
  {
    hide GlobAccepts, CompileFrom, ValidGlob, RegexAccepts;
    if '\n' in p {
      NewlinePatternAccepts(p);
    } else {
      ExactWithoutNewlines(p, "");
      forall s
        ensures RegexAccepts(Anchored(CompileFrom(p, false)).value, s) <==> '\n' !in s && GlobAccepts(p, s, true)
      {
        ExactWithoutNewlines(p, s);
      }
    }
  }

  // ----- the cache -----

  /** matchCache: compiled patterns, shared; a failed compilation is not kept. */
  class MatchCache {
    var entries: map<string, string>

    ghost predicate Valid()
      reads this
    {
      forall p :: p in entries ==> Anchored(CompileFrom(p, false)) == Ok(entries[p])
    }

    constructor ()
      ensures Valid() && entries == map[]
    {
      entries := map[];
    }

    method MatchCompile(pattern: string) returns (r: Result<string, CompileError>)
      requires Valid()
      modifies this
      ensures Valid() && r == Anchored(CompileFrom(pattern, false))
      ensures entries == if r.Ok? then old(entries)[pattern := r.value] else old(entries)
    {
      hide CompileFrom;
      if pattern in entries {
        return Ok(entries[pattern]);
      }
      r := Compile(pattern);
      if r.Ok? {
        entries := entries[pattern := r.value];
      }
    }
  }
}
