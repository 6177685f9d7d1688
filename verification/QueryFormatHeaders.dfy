/** Which lines of a file `sqlc fmt` takes for comments above a statement, and which for comments behind
    one, told from the lines themselves. */
module QueryFormatHeaders {
  import opened Common
  import opened Text
  import opened QueryFormat
  import opened QueryFormatLines

  // ----- comment lines -----

  /** Line j is the first with a comment end on it, and ends with it. */
  ghost predicate ClosesAt(lines: seq<string>, j: int) {
    && 0 <= j < |lines| && Closings(TrimSpace(lines[j])) == 1 && HasSuffix(TrimSpace(lines[j]), "*/")
    && forall k :: 0 <= k < j ==> Closings(TrimSpace(lines[k])) == 0
  }

  /** A block comment from line 0 to line j. */
  ghost predicate BlockTo(lines: seq<string>, j: int) {
    0 < j < |lines| && OpensBlock(TrimSpace(lines[0])) && ClosesAt(lines[1..], j - 1)
  }

  /** Blank lines, line comments, block comments on a line, and block comments over several lines. */
  ghost predicate CommentRun(lines: seq<string>)
    decreases |lines|
  {
    || lines == []
    || (IsCommentLine(TrimSpace(lines[0])) && CommentRun(lines[1..]))
    || exists j :: BlockTo(lines, j) && CommentRun(lines[j + 1..])
  }

  /** Nothing that could be a comment above a statement starts here. */
  ghost predicate StartsStatement(lines: seq<string>) {
    lines != [] && !IsCommentLine(TrimSpace(lines[0])) && forall j :: !BlockTo(lines, j)
  }

  /** A line as it is kept: without the space around it, or inside a block without that behind it. */
  ghost predicate KeptLine(line: string, kept: string) {
    kept == TrimSpace(line) || kept == TrimRightOf(line, " \t\r")
  }

  ghost predicate KeptLines(lines: seq<string>, kept: seq<string>) {
    |kept| <= |lines| && forall k :: 0 <= k < |kept| ==> KeptLine(lines[k], kept[k])
  }

  /** The text after the first n lines. */
  ghost predicate After(lines: seq<string>, n: nat, rest: string) {
    n <= |lines| && if n < |lines| then Lines(rest) == lines[n..] else rest == ""
  }

  lemma {:induction false} BlockMeans(s: string)
    ensures var b, lines := CloseBlock(s, true), Lines(s);
            if b.Closed? then
              b.lines != [] && ClosesAt(lines, |b.lines| - 1) && KeptLines(lines, b.lines) && After(lines, |b.lines|, b.rest)
            else forall j :: !ClosesAt(lines, j)
    decreases |s|
  {
    hide TrimSpace, TrimRightOf, CutLine, CloseBlock, Lines, HasSuffix;
    CloseBlockStep(s, true);
    CutParts(s);
    LinesStep(s);
    NoLines();
    var l, lines := CutLine(s), Lines(s);
    assert lines[0] == l.text;
    var end := TrimSpace(l.text);
    if s != "" && Closings(end) == 0 {
      if l.found {
        LineShorter(s);
        BlockMeans(l.rest);
        assert lines[1..] == Lines(l.rest);
        LaterCloses(lines);
        var b := CloseBlock(l.rest, true);
        if b.Closed? {
          NextKept(lines, TrimRightOf(l.text, " \t\r"), b.lines);
          AfterNext(lines, |b.lines|, b.rest);
        }
      } else {
        CloseBlockStep(l.rest, false);
      }
    }
  }

  lemma {:induction false} NoLines()
    ensures Lines("") == [""] && Closings(TrimSpace("")) == 0
  {
  }

  lemma {:induction false} LaterCloses(lines: seq<string>)
    requires lines != [] && Closings(TrimSpace(lines[0])) == 0
    ensures forall j :: ClosesAt(lines, j + 1) <==> j >= 0 && ClosesAt(lines[1..], j)
    ensures forall j :: ClosesAt(lines, j) ==> j > 0 && ClosesAt(lines[1..], j - 1)
  {
    hide TrimSpace, Closings, HasSuffix;
    forall j: int
      ensures ClosesAt(lines, j + 1) <==> j >= 0 && ClosesAt(lines[1..], j)
    {
      if j >= 0 && ClosesAt(lines[1..], j) {
        forall k | 0 <= k < j + 1
          ensures Closings(TrimSpace(lines[k])) == 0
        {
          assert k > 0 ==> lines[k] == lines[1..][k - 1];
        }
      }
      if ClosesAt(lines, j + 1) {
        assert lines[1..][j] == lines[j + 1] by { assert j >= 0; }
      }
    }
    forall j | ClosesAt(lines, j)
      ensures j > 0 && ClosesAt(lines[1..], j - 1)
    {
      assert j == (j - 1) + 1;
    }
  }

  lemma {:induction false} NextKept(lines: seq<string>, first: string, kept: seq<string>)
    requires lines != [] && KeptLine(lines[0], first) && KeptLines(lines[1..], kept)
    ensures KeptLines(lines, [first] + kept)
  {
    hide KeptLine;
  }

  lemma {:induction false} AfterNext(lines: seq<string>, n: nat, rest: string)
    requires lines != [] && After(lines[1..], n, rest)
    ensures After(lines, n + 1, rest)
  {
    hide Lines;
    if n < |lines| - 1 {
      assert lines[1..][n..] == lines[n + 1..];
    }
  }

  /** The header is the longest run of comment lines from the start, line for line; what follows starts
      with the first line that is none, or with a block comment that does not close at the end of a line. */
  ghost predicate HeaderOf(lines: seq<string>, h: Header) {
    && KeptLines(lines, h.lines) && CommentRun(lines[..|h.lines|]) && After(lines, |h.lines|, h.rest)
    && (h.rest != "" ==> StartsStatement(Lines(h.rest)))
  }

  lemma {:induction false} LeadingMeans(s: string)
    ensures HeaderOf(Lines(s), Leading(s))
    decreases |s|
  {
    hide TrimSpace, CutLine, CloseBlock, Lines, Leading, ClosesAt, KeptLine;
    if s == "" {
      LeadingEnd();
      NoLines();
    } else {
      LeadingStep(s);
      CutParts(s);
      LinesStep(s);
      var l, lines := CutLine(s), Lines(s);
      var trimmed := TrimSpace(l.text);
      assert lines[0] == l.text;
      LineShorter(s);
      if OpensBlock(trimmed) {
        if l.found {
          assert lines[1..] == Lines(l.rest);
          LeadingBlock(s);
        } else {
          CloseBlockStep(l.rest, false);
          NotComment(trimmed);
        }
      } else if IsCommentLine(trimmed) {
        if l.found {
          LeadingMeans(l.rest);
          assert lines[1..] == Lines(l.rest);
          LeadingLine(lines, trimmed, Leading(l.rest));
        } else {
          LeadingEnd();
          assert lines[..1] == lines && lines[1..] == [];
          assert [trimmed] + [] == [trimmed];
          assert KeptLine(lines[0], trimmed) by { KeptTrimmed(lines[0]); }
          assert CommentRun([]);
        }
      }
    }
  }

  lemma {:induction false} KeptTrimmed(line: string)
    ensures KeptLine(line, TrimSpace(line))
  {
  }

  lemma {:induction false} NotComment(line: string)
    requires OpensBlock(line)
    ensures !IsCommentLine(line) && !LineComment(line)
  {
    assert line[..2][0] == line[0] && line[..1] == "/";
  }

  /** One comment line, then the rest. */
  lemma {:induction false} LeadingLine(lines: seq<string>, trimmed: string, h: Header)
    requires lines != [] && trimmed == TrimSpace(lines[0]) && IsCommentLine(trimmed)
    requires HeaderOf(lines[1..], h)
    ensures HeaderOf(lines, AddLines([trimmed], h))
  {
    hide TrimSpace, KeptLine, IsCommentLine, After, StartsStatement;
    KeptTrimmed(lines[0]);
    NextKept(lines, trimmed, h.lines);
    AfterNext(lines, |h.lines|, h.rest);
    assert lines[..|h.lines| + 1][1..] == lines[1..][..|h.lines|];
  }

  /** A block comment over several lines. */
  lemma {:induction false} LeadingBlock(s: string)
    requires s != "" && CutLine(s).found && OpensBlock(TrimSpace(CutLine(s).text))
    requires Lines(s)[0] == CutLine(s).text && Lines(s)[1..] == Lines(CutLine(s).rest)
    ensures HeaderOf(Lines(s), Leading(s))
    decreases |s|, 0
  {
    hide TrimSpace, CutLine, CloseBlock, Lines, Leading, KeptLine, ClosesAt, KeptLines, OpensBlock, CommentRun, HeaderOf, After;
    LeadingStep(s);
    LineShorter(s);
    var l, lines := CutLine(s), Lines(s);
    var trimmed, b := TrimSpace(l.text), CloseBlock(l.rest, l.found);
    BlockMeans(l.rest);
    if b.Closed? {
      BlockShorter(l.rest, l.found);
      LeadingMeans(b.rest);
      LeadingEnd();
      KeptTrimmed(lines[0]);
      NextKept(lines, trimmed, b.lines);
      AfterNext(lines, |b.lines|, b.rest);
      BlockThenRest(lines, [trimmed] + b.lines, b.rest, Leading(b.rest));
    } else {
      OpenBlock(lines, s);
    }
  }

  /** A block comment that does not close at the end of a line belongs to the statement. */
  lemma {:induction false} OpenBlock(lines: seq<string>, s: string)
    requires lines == Lines(s) && OpensBlock(TrimSpace(lines[0])) && forall j :: !ClosesAt(lines[1..], j)
    ensures HeaderOf(lines, Header([], s, true))
  {
    hide TrimSpace, Lines, OpensBlock, IsCommentLine, ClosesAt;
    NotComment(TrimSpace(lines[0]));
    assert lines[0..] == lines && lines[..0] == [];
  }

  lemma {:induction false} BlockThenRest(lines: seq<string>, block: seq<string>, rest: string, h: Header)
    requires |block| > 1 && KeptLines(lines, block) && After(lines, |block|, rest) && OpensBlock(TrimSpace(lines[0]))
    requires ClosesAt(lines[1..], |block| - 2) && HeaderOf(Lines(rest), h)
    requires rest == "" ==> h.lines == [] && h.rest == ""
    ensures HeaderOf(lines, AddLines(block, h))
  {
    hide TrimSpace, KeptLine, Lines, Closings, OpensBlock, HasSuffix, StartsStatement;
    var n, m := |block|, block + h.lines;
    if n < |lines| {
      forall k | 0 <= k < |m|
        ensures KeptLine(lines[k], m[k])
      {
        assert k >= n ==> lines[n..][k - n] == lines[k];
      }
      if |h.lines| < |lines| - n {
        assert lines[n..][|h.lines|..] == lines[|m|..];
      }
      assert lines[..|m|][n..] == lines[n..][..|h.lines|];
    } else {
      assert lines[..|m|][n..] == [];
      assert CommentRun([]);
    }
    BlockWithin(lines, n, |m|);
    assert BlockTo(lines[..|m|], n - 1);
    assert CommentRun(lines[..|m|][n..]);
  }

  lemma {:induction false} BlockWithin(lines: seq<string>, n: nat, m: nat)
    requires 1 < n <= m <= |lines| && OpensBlock(TrimSpace(lines[0])) && ClosesAt(lines[1..], n - 2)
    ensures BlockTo(lines[..m], n - 1)
  {
    hide TrimSpace, Closings, OpensBlock, HasSuffix;
    assert lines[..m][1..] == lines[1..][..m - 1];
    assert forall k :: 0 <= k < n - 1 ==> lines[1..][..m - 1][k] == lines[1..][k];
  }

  /** The lines above a statement: that run of comment lines, without the blank lines at its end unless
      the run stops inside a block comment. */
  lemma {:induction false} HeaderMeans(s: string)
    ensures var h, all := SplitLeading(s), Leading(s).lines;
            && HeaderOf(Lines(s), Header(all, h.rest, h.cut))
            && h.lines <= all && (forall k :: |h.lines| <= k < |all| ==> all[k] == "")
            && (if h.cut then h.lines == all else h.lines != [] ==> h.lines[|h.lines| - 1] != "")
  {
    hide Leading, HeaderOf, DropBlank;
    LeadingMeans(s);
    DropBlankPrefix(Leading(s).lines);
  }

  // ----- the statement below -----

  lemma {:induction false} TrimStartStep(s: string)
    ensures TrimStart(s) == if s != "" && IsSpace(s[0]) then TrimStart(s[1..]) else s
  {
  }

  lemma {:induction false} TrimStartOver(x: string, y: string)
    requires TrimStart(x) != ""
    ensures TrimStart(x + y) == TrimStart(x) + y
  {
    hide TrimStart, IsSpace;
    TrimStartStep(x);
    TrimStartStep(x + y);
    assert x != "" ==> (x + y)[0] == x[0] && (x + y)[1..] == x[1..] + y;
    if x != "" && IsSpace(x[0]) {
      TrimStartOver(x[1..], y);
    }
  }

  /** The first characters of a trimmed text stand on its first line that is not blank. */
  lemma {:induction false} SameBeginning(s: string)
    requires TrimSpace(CutLine(s).text) != ""
    ensures LineComment(TrimSpace(s)) ==> LineComment(TrimSpace(CutLine(s).text))
  {
    hide CutLine, LineComment, TrimStart, TrimEnd;
    var l := CutLine(s);
    var a := TrimStart(l.text);
    var y := if l.found then "\n" + l.rest else "";
    assert s == l.text + y;
    assert a != "" by { TrimEndEmpty(); }
    TrimStartOver(l.text, y);
    TwoFirst(a, y);
  }

  lemma {:induction false} TrimEndEmpty()
    ensures TrimEnd("") == ""
  {
  }

  /** Trimming at the end leaves two characters at the start that are no spaces. */
  lemma {:induction false} TwoFirst(a: string, y: string)
    requires a != "" && !IsSpace(a[0]) && (y == "" || y[0] == '\n')
    ensures LineComment(TrimEnd(a + y)) ==> LineComment(TrimEnd(a))
  {
    var b := TrimEnd(a + y);
    if HasPrefix(b, "--") {
      assert b[..2] == "--" && b[0] == '-' && b[1] == '-';
      assert (a + y)[..|b|] == b && (a + y)[1] == '-';
      assert |a| >= 2 && a[0] == '-' && a[1] == '-';
      TrimEndKeeps(a, 1);
      assert TrimEnd(a)[..2] == "--";
    } else if HasPrefix(b, "#") {
      assert b[..1] == "#" && b[0] == '#';
      assert a[0] == '#';
      TrimEndKeeps(a, 0);
      assert TrimEnd(a)[..1] == "#";
    }
  }

  lemma {:induction false} TrimEndKeeps(s: string, i: nat)
    requires i < |s| && !IsSpace(s[i])
    ensures |TrimEnd(s)| > i && TrimEnd(s) == s[..|TrimEnd(s)|]
  {
    if IsSpace(s[|s| - 1]) {
      TrimEndKeeps(s[..|s| - 1], i);
    }
  }

  /** A statement that keeps its own text does not start as a line comment: the line it starts on is no
      comment line. */
  lemma {:induction false} StatementIsNoComment(s: string)
    requires SplitLeading(s).rest != ""
    ensures !LineComment(Fallback(SplitLeading(s).rest))
  {
    hide Leading, TrimSpace, DropBlank, CommentRun, KeptLines, After, CutLine, LineComment;
    LeadingMeans(s);
    var rest := Leading(s).rest;
    LinesStep(rest);
    CutParts(rest);
    var first := TrimSpace(CutLine(rest).text);
    assert Lines(rest)[0] == CutLine(rest).text by { FirstOfLines(rest); }
    assert !IsCommentLine(first);
    SameBeginning(rest);
    FallbackBegins(rest);
  }

  lemma {:induction false} FirstOfLines(s: string)
    ensures Lines(s)[0] == CutLine(s).text
  {
  }

  lemma {:induction false} FallbackBegins(orig: string)
    ensures LineComment(Fallback(orig)) ==> LineComment(TrimSpace(orig))
  {
    hide TrimSpace, LineComment;
    var t, f := TrimSpace(orig), Fallback(orig);
    if HasSuffix(t, ";") {
      assert t[|t| - 1..] == ";";
      assert f == t;
    } else {
      assert f == t + ";";
      CommentBegins(t, ";");
    }
  }

  lemma {:induction false} CommentBegins(t: string, end: string)
    requires end != "" && end[0] != '-' && end[0] != '#'
    ensures LineComment(t + end) ==> LineComment(t)
  {
    var f := t + end;
    assert f[|t|] == end[0];
    if HasPrefix(f, "--") {
      TwoDashes(f);
      assert |t| >= 2;
      assert t[..2] == f[..2];
    } else if HasPrefix(f, "#") {
      assert f[0] == f[..1][0] == '#';
      assert |t| >= 1;
      assert t[..1] == f[..1];
    }
  }

  lemma {:induction false} TwoDashes(f: string)
    requires HasPrefix(f, "--")
    ensures f[0] == '-' && f[1] == '-'
  {
    assert f[0] == f[..2][0] && f[1] == f[..2][1];
  }

  /** Falling back ends the text with a terminator, and doing it again changes nothing. */
  lemma {:induction false} FallbackFixed(orig: string)
    ensures HasSuffix(Fallback(orig), ";") && Fallback(Fallback(orig)) == Fallback(orig)
    ensures TrimSpace(orig) <= Fallback(orig)
  {
    var t, f := TrimSpace(orig), Fallback(orig);
    assert t != "" ==> !IsSpace(t[0]) && !IsSpace(t[|t| - 1]) by { TrimmedEnds(orig); }
    if HasSuffix(t, ";") {
      assert t[|t| - 1..] == ";";
      assert f == t;
    } else {
      assert f == t + ";";
    }
    assert f[|f| - 1] == ';' && f[|f| - 1..] == ";";
    TrimNothing(f);
  }

  lemma {:induction false} TrimmedEnds(s: string)
    ensures TrimSpace(s) != "" ==> !IsSpace(TrimSpace(s)[0]) && !IsSpace(TrimSpace(s)[|TrimSpace(s)| - 1])
  {
    var a := TrimStart(s);
    var b := TrimEnd(a);
    if b != "" {
      assert b == a[..|b|] && b[0] == a[0];
    }
  }

  // ----- the comment behind a statement -----

  /** What stands on the terminator's line, terminators and space aside. */
  function BehindTerminator(seg: string): string { TrimSpace(TrimLeftOf(Lines(seg)[0], "; \t\r")) }

  lemma {:induction false} LeadIsTrim(seg: string)
    ensures var line := CutLine(seg).text;
            && Lead(seg) <= |line| && CutLine(seg[Lead(seg)..]).text == TrimLeftOf(line, "; \t\r")
            && |CutLine(seg[Lead(seg)..]).text| == |line| - Lead(seg)
    decreases |seg|
  {
    hide CutLine;
    if seg != "" && OnTerminatorLine(seg[0]) {
      LeadIsTrim(seg[1..]);
      CutSecond(seg);
      assert seg[1..][Lead(seg[1..])..] == seg[Lead(seg)..];
    } else {
      assert seg[0..] == seg;
      CutFirst(seg);
    }
  }

  lemma {:induction false} CutFirst(seg: string)
    ensures CutLine(seg).text != "" ==> seg != "" && CutLine(seg).text[0] == seg[0]
  {
    hide IndexOf;
  }

  /** A first character that is no line break goes to the first line. */
  lemma {:induction false} CutSecond(seg: string)
    requires seg != "" && seg[0] != '\n'
    ensures CutLine(seg).text == [seg[0]] + CutLine(seg[1..]).text
  {
    var i, j := IndexOf(seg, '\n'), IndexOf(seg[1..], '\n');
    assert i == if j < 0 then -1 else j + 1;
    hide IndexOf;
    assert seg == [seg[0]] + seg[1..];
    if j >= 0 {
      assert seg[..i] == [seg[0]] + seg[1..][..j];
    }
  }

  /** A line that can be put behind a statement whole. */
  predicate GoesBehind(line: string) { LineComment(line) || BlockOnLine(line) }

  /** The text without its first line, from the line break on. */
  function FromBreak(seg: string): string {
    if CutLine(seg).found then "\n" + CutLine(seg).rest else ""
  }

  /** A comment goes behind the statement before exactly when it is all that stands on the terminator's
      line: a line comment, or a block comment on that line. The rest starts at the line break. */
  lemma {:induction false} TrailingMeans(seg: string)
    ensures SplitTrailing(seg) ==
            if GoesBehind(BehindTerminator(seg)) then Split(BehindTerminator(seg), FromBreak(seg)) else Split("", seg)
  {
    hide Lead, CutLine, TrimSpace, LineComment, BlockOnLine, TrimLeftOf, Lines;
    LeadIsTrim(seg);
    FirstOfLines(seg);
    var l := CutLine(seg);
    assert seg[|l.text|..] == FromBreak(seg);
  }

  // ----- what is left of a segment -----

  lemma {:induction false} LeftStep(s: string, cutset: string)
    ensures TrimLeftOf(s, cutset) == if s != "" && s[0] in cutset then TrimLeftOf(s[1..], cutset) else s
  {
  }

  lemma {:induction false} LeftSuffix(s: string, cutset: string)
    ensures var r := TrimLeftOf(s, cutset);
            |r| <= |s| && r == s[|s| - |r|..] && (r != "" ==> r[0] !in cutset)
  {
    hide TrimLeftOf;
    LeftStep(s, cutset);
    if s != "" && s[0] in cutset {
      LeftSuffix(s[1..], cutset);
      var r := TrimLeftOf(s[1..], cutset);
      assert s[1..][|s| - 1 - |r|..] == s[|s| - |r|..];
    }
  }

  lemma {:induction false} LeftGone(s: string, cutset: string, k: nat)
    requires k < |s| - |TrimLeftOf(s, cutset)|
    ensures s[k] in cutset
  {
    hide TrimLeftOf;
    LeftStep(s, cutset);
    if k > 0 {
      LeftGone(s[1..], cutset, k - 1);
    }
  }

  lemma {:induction false} StartTrimmed(s: string)
    ensures forall k :: 0 <= k < |s| - |TrimStart(s)| ==> IsSpace(s[k])
  {
    if s != "" && IsSpace(s[0]) {
      StartTrimmed(s[1..]);
    }
  }

  lemma {:induction false} EndTrimmed(s: string)
    ensures forall k :: |TrimEnd(s)| <= k < |s| ==> IsSpace(s[k])
  {
    if s != "" && IsSpace(s[|s| - 1]) {
      EndTrimmed(s[..|s| - 1]);
    }
  }

  /** Only terminators and space go from before a statement, and only space from behind it. */
  ghost predicate BodyAt(seg: string, body: string, i: nat, j: nat) {
    && i <= j <= |seg| && body == seg[i..j]
    && (forall k :: 0 <= k < i ==> Dropped(seg[k])) && (forall k :: j <= k < |seg| ==> IsSpace(seg[k]))
    && (i < j ==> !IsSpace(seg[i]) && !IsSpace(seg[j - 1]))
  }

  lemma {:induction false} SpaceAt(s: string)
    ensures exists i: nat, j: nat :: SpaceOutside(s, i, j)
  {
    hide TrimStart, TrimEnd, IsSpace;
    var a := TrimStart(s);
    var b := TrimEnd(a);
    StartTrimmed(s);
    EndTrimmed(a);
    TrimmedEnds(s);
    var i := |s| - |a|;
    assert forall k :: 0 <= k < |a| ==> a[k] == s[i + k];
    assert b == s[i..i + |b|];
    assert SpaceOutside(s, i, i + |b|);
  }

  ghost predicate SpaceOutside(s: string, i: nat, j: nat) {
    && i <= j <= |s| && TrimSpace(s) == s[i..j]
    && (forall k :: 0 <= k < i || j <= k < |s| ==> IsSpace(s[k]))
    && (i < j ==> !IsSpace(s[i]) && !IsSpace(s[j - 1]))
  }

  lemma {:induction false} BodyMeans(seg: string)
    ensures exists i: nat, j: nat :: BodyAt(seg, Body(seg), i, j)
  {
    hide TrimLeftOf, TrimSpace;
    var a := TrimLeftOf(seg, "; \t\r\n");
    LeftSuffix(seg, "; \t\r\n");
    SpaceAt(a);
    var i: nat, j: nat :| SpaceOutside(a, i, j);
    var off := |seg| - |a|;
    assert forall k :: 0 <= k < |a| ==> a[k] == seg[off + k];
    forall k: nat | k < off + i
      ensures Dropped(seg[k])
    {
      if k >= off {
        assert IsSpace(a[k - off]);
      } else {
        LeftGone(seg, "; \t\r\n", k);
      }
    }
    forall k | off + j <= k < |seg|
      ensures IsSpace(seg[k])
    {
      assert IsSpace(a[k - off]);
    }
    assert seg[off + i..off + j] == a[i..j];
    assert BodyAt(seg, Body(seg), off + i, off + j);
  }

  // ----- the forms of comments -----

  predicate EndsAt(s: string, i: nat) { i + 1 < |s| && s[i] == '*' && s[i + 1] == '/' }

  /** Where block comments end. */
  ghost function Ends(s: string): set<nat> { set i: nat | i < |s| && EndsAt(s, i) }

  ghost function Moved(a: set<nat>, k: nat): set<nat> { set i | i in a :: i + k }

  lemma {:induction false} MovedSize(a: set<nat>, k: nat)
    ensures |Moved(a, k)| == |a|
    decreases |a|
  {
    if a == {} {
      assert Moved(a, k) == {};
    } else {
      var x :| x in a;
      MovedSize(a - {x}, k);
      assert a == (a - {x}) + {x};
      forall i: nat
        ensures i in Moved(a, k) <==> i in Moved(a - {x}, k) || i == x + k
      {
        if i >= k && i - k in a {
          assert i - k == x || i - k in a - {x};
        }
      }
      assert Moved(a, k) == Moved(a - {x}, k) + {x + k};
    }
  }

  lemma {:induction false} EndsMoved(s: string, k: nat, i: nat)
    requires k <= |s|
    ensures i in Moved(Ends(s[k..]), k) <==> i >= k && i in Ends(s)
  {
    if i >= k && i in Ends(s) {
      assert i - k in Ends(s[k..]);
    }
  }

  lemma {:induction false} EndsNone(s: string)
    requires |s| < 2
    ensures Ends(s) == {}
  {
  }

  lemma {:induction false} EndsHere(s: string)
    requires |s| >= 2
    ensures 0 in Ends(s) <==> s[0] == '*' && s[1] == '/'
    ensures s[1] == '/' ==> 1 !in Ends(s)
  {
  }

  lemma {:induction false} EndsSplit(s: string, k: nat)
    requires |s| >= 2 && k == (if s[0] == '*' && s[1] == '/' then 2 else 1)
    ensures Ends(s) == Moved(Ends(s[k..]), k) + if k == 2 then {0} else {}
  {
    hide Moved, Ends;
    EndsHere(s);
    forall i: nat
      ensures i in Ends(s) <==> i in Moved(Ends(s[k..]), k) || (k == 2 && i == 0)
    {
      EndsMoved(s, k, i);
    }
  }

  lemma {:induction false} ClosingsStep(s: string, k: nat)
    requires |s| >= 2 && k == (if s[0] == '*' && s[1] == '/' then 2 else 1)
    ensures Closings(s) == Closings(s[k..]) + if k == 2 then 1 else 0
  {
  }

  /** Comment ends are counted, each once. */
  lemma {:induction false} ClosingsMeans(s: string)
    ensures Closings(s) == |Ends(s)|
    decreases |s|
  {
    if |s| < 2 {
      EndsNone(s);
    } else {
      hide Closings, Ends, Moved;
      var k := if s[0] == '*' && s[1] == '/' then 2 else 1;
      ClosingsStep(s, k);
      ClosingsMeans(s[k..]);
      MovedSize(Ends(s[k..]), k);
      EndsSplit(s, k);
      EndsMoved(s, k, 0);
    }
  }

  /** Two dashes or a hash start a comment, a blank line counts as one, and so does a block comment whose
      only end is the end of the line. */
  lemma {:induction false} CommentForms(x: string)
    ensures IsCommentLine("") && IsCommentLine("--" + x) && IsCommentLine("#" + x)
    ensures LineComment("--" + x) && LineComment("#" + x)
    ensures Closings("/*" + x + "*/") == 1 ==> IsCommentLine("/*" + x + "*/")
    ensures Closings("/*" + x) == 0 ==> OpensBlock("/*" + x)
  {
    var b := "/*" + x + "*/";
    assert ("--" + x)[..2] == "--" && ("#" + x)[..1] == "#" && ("/*" + x)[..2] == "/*";
    assert b[..2] == "/*" && b[|b| - 2..] == "*/";
  }
}
