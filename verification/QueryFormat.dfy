/** `sqlc fmt` outside the statements: internal/cmd/fmt.go cuts a query file into headers, statements,
    trailing comments and a tail. For ASCII files. The text a statement is printed as is a parameter. */
module QueryFormat {
  import opened Common
  import opened Text

  // ----- the characters that must survive -----

  predicate Dropped(c: char) { IsSpace(c) || c == ';' }

  /** The text without whitespace and semicolons. */
  function Squash(s: string): string {
    if s == "" then "" else (if Dropped(s[0]) then "" else [s[0]]) + Squash(s[1..])
  }

  lemma {:induction false} SquashAppend(a: string, b: string)
    ensures Squash(a + b) == Squash(a) + Squash(b)
  {
    if a == "" {
      assert a + b == b;
    } else {
      SquashAppend(a[1..], b);
      assert (a + b)[1..] == a[1..] + b && (a + b)[0] == a[0];
      AppendAssoc(if Dropped(a[0]) then "" else [a[0]], Squash(a[1..]), Squash(b));
    }
  }

  lemma {:induction false} SquashNothing(s: string)
    requires forall i :: 0 <= i < |s| ==> Dropped(s[i])
    ensures Squash(s) == ""
  {
    if s != "" {
      SquashNothing(s[1..]);
    }
  }

  // ----- trimming -----

  function TrimLeftOf(s: string, cutset: string): string {
    if s != "" && s[0] in cutset then TrimLeftOf(s[1..], cutset) else s
  }

  function TrimRightOf(s: string, cutset: string): string {
    if s != "" && s[|s| - 1] in cutset then TrimRightOf(s[..|s| - 1], cutset) else s
  }

  ghost predicate AllDropped(cutset: string) { forall i :: 0 <= i < |cutset| ==> Dropped(cutset[i]) }

  lemma {:induction false} SquashLast(s: string)
    requires s != "" && Dropped(s[|s| - 1])
    ensures Squash(s) == Squash(s[..|s| - 1])
  {
    assert s == s[..|s| - 1] + [s[|s| - 1]];
    SquashAppend(s[..|s| - 1], [s[|s| - 1]]);
    SquashNothing([s[|s| - 1]]);
  }

  lemma {:induction false} SquashTrimLeft(s: string, cutset: string)
    requires AllDropped(cutset)
    ensures Squash(TrimLeftOf(s, cutset)) == Squash(s)
  {
    if s != "" && s[0] in cutset {
      SquashTrimLeft(s[1..], cutset);
    }
  }

  lemma {:induction false} SquashTrimRight(s: string, cutset: string)
    requires AllDropped(cutset)
    ensures Squash(TrimRightOf(s, cutset)) == Squash(s)
  {
    if s != "" && s[|s| - 1] in cutset {
      SquashTrimRight(s[..|s| - 1], cutset);
      SquashLast(s);
    }
  }

  lemma {:induction false} SquashTrimStart(s: string)
    ensures Squash(TrimStart(s)) == Squash(s)
  {
    if s != "" && IsSpace(s[0]) {
      SquashTrimStart(s[1..]);
    }
  }

  lemma {:induction false} SquashTrimEnd(s: string)
    ensures Squash(TrimEnd(s)) == Squash(s)
  {
    if s != "" && IsSpace(s[|s| - 1]) {
      SquashTrimEnd(s[..|s| - 1]);
      SquashLast(s);
    }
  }

  lemma {:induction false} SquashTrimSpace(s: string)
    ensures Squash(TrimSpace(s)) == Squash(s)
  {
    hide Squash;
    SquashTrimStart(s);
    SquashTrimEnd(TrimStart(s));
  }

  // ----- lines -----

  /** strings.Cut at the first newline. */
  datatype Line = Line(text: string, rest: string, found: bool)

  function CutLine(s: string): (r: Line)
    ensures r.found ==> s == r.text + "\n" + r.rest
    ensures !r.found ==> s == r.text && r.rest == ""
  {
    var i := IndexOf(s, '\n');
    if i < 0 then Line(s, "", false) else Line(s[..i], s[i + 1..], true)
  }

  lemma {:induction false} SquashCut(s: string)
    ensures Squash(s) == Squash(CutLine(s).text) + Squash(CutLine(s).rest)
  {
    hide Squash, IndexOf;
    var l := CutLine(s);
    if l.found {
      SquashAppend(l.text + "\n", l.rest);
      SquashAppend(l.text, "\n");
      SquashNothing("\n");
      assert Squash(l.text) + "" == Squash(l.text);
    } else {
      SquashNothing("");
      assert Squash(s) + "" == Squash(s);
    }
  }

  // ----- what is a comment -----

  /** strings.Count(s, "*" + "/"). */
  function Closings(s: string): nat {
    if |s| < 2 then 0
    else if s[0] == '*' && s[1] == '/' then 1 + Closings(s[2..])
    else Closings(s[1..])
  }

  predicate BlockOnLine(line: string) { HasPrefix(line, "/*") && HasSuffix(line, "*/") && Closings(line) == 1 }

  predicate LineComment(line: string) { HasPrefix(line, "--") || HasPrefix(line, "#") }

  predicate IsCommentLine(line: string) { line == "" || LineComment(line) || BlockOnLine(line) }

  // ----- splitTrailingComment -----

  datatype Split = Split(comment: string, remainder: string)

  predicate OnTerminatorLine(c: char) { c == ';' || c == ' ' || c == '\t' || c == '\r' }

  function Lead(seg: string): (k: nat)
    ensures k <= |seg| && forall i :: 0 <= i < k ==> OnTerminatorLine(seg[i])
  {
    if seg != "" && OnTerminatorLine(seg[0]) then 1 + Lead(seg[1..]) else 0
  }

  function SplitTrailing(seg: string): Split {
    var k := Lead(seg);
    var line := CutLine(seg[k..]).text;
    var trimmed := TrimSpace(line);
    if LineComment(trimmed) || BlockOnLine(trimmed) then Split(trimmed, seg[k + |line|..]) else Split("", seg)
  }

  method SplitTrailingComment(seg: string) returns (comment: string, remainder: string)
    ensures Split(comment, remainder) == SplitTrailing(seg)
  {
    hide Lead, CutLine, TrimSpace, LineComment, BlockOnLine;
    var k := 0;
    assert seg[0..] == seg;
    while k < |seg| && OnTerminatorLine(seg[k])
      invariant k <= |seg| && Lead(seg) == k + Lead(seg[k..])
    {
      LeadStep(seg, k);
      k := k + 1;
    }
    LeadStops(seg, k);
    var rest := seg[k..];
    var line := CutLine(rest).text;
    var trimmed := TrimSpace(line);
    if LineComment(trimmed) {
      return trimmed, seg[k + |line|..];
    }
    if BlockOnLine(trimmed) {
      return trimmed, seg[k + |line|..];
    }
    return "", seg;
  }

  lemma {:induction false} LeadStep(seg: string, k: nat)
    requires k < |seg| && OnTerminatorLine(seg[k])
    ensures Lead(seg[k..]) == 1 + Lead(seg[k + 1..])
  {
    assert seg[k..][1..] == seg[k + 1..];
  }

  lemma {:induction false} LeadStops(seg: string, k: nat)
    requires k <= |seg| && (k < |seg| ==> !OnTerminatorLine(seg[k]))
    ensures Lead(seg[k..]) == 0
  {
  }

  /** Text whose first k characters do not count, split further on. */
  lemma {:induction false} SquashSplit(s: string, k: nat, end: nat)
    requires k <= end <= |s| && forall i :: 0 <= i < k ==> Dropped(s[i])
    ensures Squash(s) == Squash(s[k..end]) + Squash(s[end..])
  {
    hide Squash;
    assert s == s[..k] + s[k..];
    assert s[k..] == s[k..end] + s[end..];
    SquashAppend(s[..k], s[k..]);
    SquashNothing(s[..k]);
    SquashAppend(s[k..end], s[end..]);
    EmptyLeft(Squash(s[k..]));
  }

  lemma {:induction false} FirstLine(s: string, k: nat)
    requires k <= |s|
    ensures var line := CutLine(s[k..]).text; k + |line| <= |s| && line == s[k..k + |line|]
  {
    hide IndexOf;
    var l := CutLine(s[k..]);
    assert l.text <= s[k..];
  }

  lemma {:induction false} SquashTrailing(seg: string)
    ensures var s := SplitTrailing(seg); Squash(s.comment) + Squash(s.remainder) == Squash(seg)
  {
    hide *;
    var k := Lead(seg);
    FirstLine(seg, k);
    var line := CutLine(seg[k..]).text;
    SplitTrailingShape(seg, k, line);
    LeadDropped(seg);
    SquashSplit(seg, k, k + |line|);
    SquashTrimSpace(line);
    SquashNothing("");
    EmptyLeft(Squash(seg));
  }

  lemma {:induction false} LeadDropped(seg: string)
    ensures forall i :: 0 <= i < Lead(seg) ==> Dropped(seg[i])
  {
  }

  lemma {:induction false} SplitTrailingShape(seg: string, k: nat, line: string)
    requires k == Lead(seg) && line == CutLine(seg[k..]).text && k + |line| <= |seg|
    ensures SplitTrailing(seg) == Split("", seg) || SplitTrailing(seg) == Split(TrimSpace(line), seg[k + |line|..])
  {
    hide Lead, CutLine, TrimSpace, LineComment, BlockOnLine;
  }

  // ----- splitLeadingComments -----

  /** The rest of a block comment that starts on an earlier line: its lines, when it closes at the end
      of one. */
  datatype Block = Unclosed | Closed(lines: seq<string>, rest: string)

  function AddLine(line: string, b: Block): Block {
    if b.Unclosed? then Unclosed else Closed([line] + b.lines, b.rest)
  }

  function CloseBlock(s: string, found: bool): (b: Block)
    ensures b.Closed? ==> |b.rest| < |s|
    decreases |s|
  {
    if !found || s == "" then Unclosed
    else
      var l := CutLine(s);
      var line, end := TrimRightOf(l.text, " \t\r"), TrimSpace(l.text);
      if Closings(end) > 0 then
        if HasSuffix(end, "*/") && Closings(end) == 1 then Closed([line], l.rest) else Unclosed
      else AddLine(line, CloseBlock(l.rest, l.found))
  }

  /** The comment lines above a statement and what follows them. `cut` is set when the scan stopped
      inside a block comment that belongs to the statement. */
  datatype Header = Header(lines: seq<string>, rest: string, cut: bool)

  function AddLines(lines: seq<string>, h: Header): Header { h.(lines := lines + h.lines) }

  predicate OpensBlock(trimmed: string) { HasPrefix(trimmed, "/*") && Closings(trimmed) == 0 }

  function Leading(s: string): Header
    decreases |s|
  {
    if s == "" then Header([], "", false)
    else
      var l := CutLine(s);
      var trimmed := TrimSpace(l.text);
      if OpensBlock(trimmed) then
        var b := CloseBlock(l.rest, l.found);
        if b.Unclosed? then Header([], s, true) else AddLines([trimmed] + b.lines, Leading(b.rest))
      else if !IsCommentLine(trimmed) then Header([], s, false)
      else AddLines([trimmed], Leading(l.rest))
  }

  function DropBlank(lines: seq<string>): seq<string> {
    if lines != [] && lines[|lines| - 1] == "" then DropBlank(lines[..|lines| - 1]) else lines
  }

  function SplitLeading(s: string): Header {
    var h := Leading(s);
    if h.cut then h else h.(lines := DropBlank(h.lines))
  }

  method SplitLeadingComments(text: string) returns (header: seq<string>, rest: string)
    ensures header == SplitLeading(text).lines && rest == SplitLeading(text).rest
  {
    hide Leading, CloseBlock, TrimSpace, DropBlank;
    header, rest := [], text;
    AddNothing(Leading(text));
    while rest != ""
      invariant Leading(text) == AddLines(header, Leading(rest))
      decreases |rest|
    {
      var l := CutLine(rest);
      var trimmed := TrimSpace(l.text);
      LeadingStep(rest);
      if OpensBlock(trimmed) {
        var closed, block, blockRest := TakeBlock(trimmed, l.rest, l.found);
        if !closed {
          return header, rest;
        }
        AddLinesTwice(header, block, Leading(blockRest));
        header := header + block;
        rest := blockRest;
        continue;
      }
      if !IsCommentLine(trimmed) {
        break;
      }
      AddLinesTwice(header, [trimmed], Leading(l.rest));
      header := header + [trimmed];
      if !l.found {
        rest := "";
        break;
      }
      rest := l.rest;
    }
    LeadingEnd();
    assert header + [] == header;
    while header != [] && header[|header| - 1] == ""
      invariant SplitLeading(text).lines == DropBlank(header)
    {
      DropBlankStep(header);
      header := header[..|header| - 1];
    }
    DropBlankStep(header);
  }

  /** The inner loop: the lines of a block comment, up to the one that closes it. */
  method TakeBlock(first: string, s: string, more: bool) returns (closed: bool, block: seq<string>, blockRest: string)
    ensures closed <==> CloseBlock(s, more).Closed?
    ensures closed ==> block == [first] + CloseBlock(s, more).lines && blockRest == CloseBlock(s, more).rest
  {
    hide CloseBlock, TrimSpace, TrimRightOf;
    block, blockRest, closed := [first], s, false;
    var found := more;
    ghost var taken := [];
    while !closed
      invariant block == [first] + taken
      invariant !closed ==> CloseBlock(s, more) == Extend(taken, CloseBlock(blockRest, found))
      invariant closed ==> CloseBlock(s, more) == Closed(taken, blockRest)
      decreases |blockRest|, !closed
    {
      CloseBlockStep(blockRest, found);
      if !found || blockRest == "" {
        return;
      }
      var l := CutLine(blockRest);
      blockRest, found := l.rest, l.found;
      var end := TrimSpace(l.text);
      if Closings(end) > 0 {
        if !HasSuffix(end, "*/") || Closings(end) != 1 {
          return;
        }
        closed := true;
      }
      ghost var line := TrimRightOf(l.text, " \t\r");
      ExtendLine(taken, line, if closed then Closed([], blockRest) else CloseBlock(blockRest, found));
      taken := taken + [line];
      block := block + [TrimRightOf(l.text, " \t\r")];
    }
  }

  function Extend(lines: seq<string>, b: Block): Block {
    if b.Unclosed? then Unclosed else Closed(lines + b.lines, b.rest)
  }

  lemma {:induction false} ExtendLine(lines: seq<string>, line: string, b: Block)
    ensures Extend(lines, AddLine(line, b)) == Extend(lines + [line], b)
    ensures b.Closed? && b.lines == [] ==> Extend(lines + [line], b) == Closed(lines + [line], b.rest)
  {
    if b.Closed? {
      assert lines + ([line] + b.lines) == (lines + [line]) + b.lines;
    }
  }

  lemma {:induction false} CloseBlockStep(s: string, found: bool)
    ensures CloseBlock(s, found) ==
            if !found || s == "" then Unclosed
            else
              var l := CutLine(s);
              var line, end := TrimRightOf(l.text, " \t\r"), TrimSpace(l.text);
              if Closings(end) > 0 then
                if HasSuffix(end, "*/") && Closings(end) == 1 then AddLine(line, Closed([], l.rest)) else Unclosed
              else AddLine(line, CloseBlock(l.rest, l.found))
  {
  }

  lemma {:induction false} LeadingStep(s: string)
    requires s != ""
    ensures var l := CutLine(s);
            var trimmed := TrimSpace(l.text);
            var b := CloseBlock(l.rest, l.found);
            Leading(s) ==
            if OpensBlock(trimmed) then
              if b.Unclosed? then Header([], s, true) else AddLines([trimmed] + b.lines, Leading(b.rest))
            else if !IsCommentLine(trimmed) then Header([], s, false)
            else AddLines([trimmed], Leading(l.rest))
  {
  }

  lemma {:induction false} LeadingEnd()
    ensures Leading("") == Header([], "", false)
  {
  }

  lemma {:induction false} DropBlankStep(lines: seq<string>)
    ensures DropBlank(lines) == if lines != [] && lines[|lines| - 1] == "" then DropBlank(lines[..|lines| - 1]) else lines
  {
  }

  lemma {:induction false} AddNothing(h: Header)
    ensures AddLines([], h) == h
  {
    assert [] + h.lines == h.lines;
  }

  lemma {:induction false} AddLinesTwice(a: seq<string>, b: seq<string>, h: Header)
    ensures AddLines(a, AddLines(b, h)) == AddLines(a + b, h)
  {
    AppendAssoc(a, b, h.lines);
  }

  // ----- formatQueries -----

  function Join(parts: seq<string>, sep: string): string {
    if parts == [] then ""
    else if |parts| == 1 then parts[0]
    else Join(parts[..|parts| - 1], sep) + sep + parts[|parts| - 1]
  }

  /** The original text of a statement, with one terminator. */
  function Fallback(orig: string): string {
    var text := TrimSpace(orig);
    (if HasSuffix(text, ";") then text[..|text| - 1] else text) + ";"
  }

  /** What the printer makes of statement i, when it is proven to be faithful. */
  type Printer = (nat, string) -> Option<string>

  function FormatStmt(pretty: Printer, i: nat, orig: string): string {
    var out := pretty(i, orig);
    if out.Some? then out.value else Fallback(orig)
  }

  /** Where the parser found a statement; an unterminated last one has length zero. */
  datatype Stmt = Stmt(start: int, length: int)

  datatype FormatError = OutOfBounds

  /** The blocks so far, and the end of the last statement taken. */
  datatype State = State(blocks: seq<string>, prevEnd: nat)

  function EndOf(src: string, s: Stmt): int { s.start + if s.length == 0 then |src| - s.start else s.length }

  /** A comment on the terminator's line goes to the block before. */
  function TakeTrailing(blocks: seq<string>, seg: string): Split {
    if blocks == [] then Split("", seg) else SplitTrailing(seg)
  }

  function AddTrailing(blocks: seq<string>, comment: string): seq<string> {
    if blocks == [] || comment == "" then blocks
    else blocks[..|blocks| - 1] + [blocks[|blocks| - 1] + " " + comment]
  }

  function Body(remainder: string): string { TrimSpace(TrimLeftOf(remainder, "; \t\r\n")) }

  function Segment(pretty: Printer, blocks: seq<string>, i: nat, seg: string): seq<string> {
    var split := TakeTrailing(blocks, seg);
    var orig := Body(split.remainder);
    AddTrailing(blocks, split.comment) +
    if orig == "" then [] else [Join(SplitLeading(orig).lines + [FormatStmt(pretty, i, SplitLeading(orig).rest)], "\n")]
  }

  function Step(src: string, pretty: Printer, st: State, i: nat, s: Option<Stmt>): Result<State, FormatError>
    requires st.prevEnd <= |src|
  {
    if s.None? then Ok(st)
    else
      var start, end := s.value.start, EndOf(src, s.value);
      if start < 0 || end > |src| then Err(OutOfBounds)
      else if end <= st.prevEnd then Ok(st)
      else
        var segStart := if start < st.prevEnd then start else st.prevEnd;
        Ok(State(Segment(pretty, st.blocks, i, src[segStart..end]), end))
  }

  function Steps(src: string, pretty: Printer, stmts: seq<Option<Stmt>>): (r: Result<State, FormatError>)
    ensures r.Ok? ==> r.value.prevEnd <= |src|
  {
    if stmts == [] then Ok(State([], 0))
    else
      var st := Steps(src, pretty, stmts[..|stmts| - 1]);
      if st.Err? then st else Step(src, pretty, st.value, |stmts| - 1, stmts[|stmts| - 1])
  }

  /** The tail keeps its comments. */
  function Finish(src: string, st: State): string
    requires st.prevEnd <= |src|
  {
    var split := TakeTrailing(st.blocks, src[st.prevEnd..]);
    var tail := Body(split.remainder);
    var blocks := AddTrailing(st.blocks, split.comment) + if tail == "" then [] else [tail];
    if blocks == [] then src else Join(blocks, "\n\n") + "\n"
  }

  function Format(src: string, pretty: Printer, stmts: seq<Option<Stmt>>): Result<string, FormatError> {
    var st := Steps(src, pretty, stmts);
    if st.Err? then Err(st.error) else Ok(Finish(src, st.value))
  }

  method FormatQueries(src: string, pretty: Printer, stmts: seq<Option<Stmt>>) returns (r: Result<string, FormatError>)
    ensures r == Format(src, pretty, stmts)
  {
    hide Steps, Segment, Body;
    var blocks: seq<string>, prevEnd: nat := [], 0;
    assert Steps(src, pretty, stmts[..0]) == Ok(State([], 0)) by { StepsNone(src, pretty); }
    for i := 0 to |stmts|
      invariant prevEnd <= |src| && Steps(src, pretty, stmts[..i]) == Ok(State(blocks, prevEnd))
    {
      StepsMore(src, pretty, stmts, i);
      if stmts[i].None? {
        continue;
      }
      var start, length := stmts[i].value.start, stmts[i].value.length;
      if length == 0 {
        length := |src| - start;
      }
      if start < 0 || start + length > |src| {
        StepsErr(src, pretty, stmts, i + 1);
        return Err(OutOfBounds);
      }
      var segStart := prevEnd;
      if start < segStart {
        segStart := start;
      }
      if start + length <= prevEnd {
        continue;
      }
      prevEnd := start + length;
      blocks := TakeSegment(pretty, blocks, i, src[segStart..start + length]);
    }
    assert stmts[..|stmts|] == stmts;
    var text := TakeTail(src, blocks, prevEnd);
    r := Ok(text);
  }

  method TakeSegment(pretty: Printer, blocks: seq<string>, i: nat, segment: string) returns (r: seq<string>)
    ensures r == Segment(pretty, blocks, i, segment)
  {
    hide SplitTrailing, SplitLeading, Join, FormatStmt, Body;
    r := blocks;
    var seg := segment;
    if |r| > 0 {
      var trailing, remainder := SplitTrailingComment(seg);
      if trailing != "" {
        r := r[..|r| - 1] + [r[|r| - 1] + " " + trailing];
        seg := remainder;
      } else {
        EmptyTrailing(seg);
      }
    }
    assert r == AddTrailing(blocks, TakeTrailing(blocks, segment).comment);
    assert seg == TakeTrailing(blocks, segment).remainder;
    var orig := Body(seg);
    if orig == "" {
      return;
    }
    var header, rest := SplitLeadingComments(orig);
    var block := header + [FormatStmt(pretty, i, rest)];
    r := r + [Join(block, "\n")];
  }

  lemma {:induction false} EmptyTrailing(seg: string)
    requires SplitTrailing(seg).comment == ""
    ensures SplitTrailing(seg).remainder == seg
  {
    assert !LineComment("") && !BlockOnLine("");
  }

  method TakeTail(src: string, blocks: seq<string>, prevEnd: nat) returns (r: string)
    requires prevEnd <= |src|
    ensures r == Finish(src, State(blocks, prevEnd))
  {
    hide SplitTrailing, Join, Body;
    var all, tailSeg := blocks, src[prevEnd..];
    if |all| > 0 {
      var trailing, remainder := SplitTrailingComment(tailSeg);
      if trailing != "" {
        all := all[..|all| - 1] + [all[|all| - 1] + " " + trailing];
        tailSeg := remainder;
      } else {
        EmptyTrailing(tailSeg);
      }
    }
    assert all == AddTrailing(blocks, TakeTrailing(blocks, src[prevEnd..]).comment);
    assert all + [] == all;
    var tail := Body(tailSeg);
    if tail != "" {
      all := all + [tail];
    }
    if all == [] {
      return src;
    }
    return Join(all, "\n\n") + "\n";
  }

  lemma {:induction false} StepsNone(src: string, pretty: Printer)
    ensures Steps(src, pretty, []) == Ok(State([], 0))
  {
  }

  lemma {:induction false} StepsMore(src: string, pretty: Printer, stmts: seq<Option<Stmt>>, i: nat)
    requires i < |stmts| && Steps(src, pretty, stmts[..i]).Ok?
    ensures Steps(src, pretty, stmts[..i + 1]) == Step(src, pretty, Steps(src, pretty, stmts[..i]).value, i, stmts[i])
  {
    hide Step;
    assert stmts[..i + 1][..i] == stmts[..i];
  }

  lemma {:induction false} StepsErr(src: string, pretty: Printer, stmts: seq<Option<Stmt>>, i: nat)
    requires i <= |stmts| && Steps(src, pretty, stmts[..i]).Err?
    ensures Steps(src, pretty, stmts) == Steps(src, pretty, stmts[..i])
    decreases |stmts| - i
  {
    hide Step;
    if i == |stmts| {
      assert stmts[..i] == stmts;
    } else {
      assert stmts[..i + 1][..i] == stmts[..i];
      StepsErr(src, pretty, stmts, i + 1);
    }
  }

  // ----- nothing is lost, doubled or moved -----

  function SquashAll(parts: seq<string>): string {
    if parts == [] then "" else SquashAll(parts[..|parts| - 1]) + Squash(parts[|parts| - 1])
  }

  lemma {:induction false} SquashAllMore(parts: seq<string>, p: string)
    ensures SquashAll(parts + [p]) == SquashAll(parts) + Squash(p)
  {
    assert (parts + [p])[..|parts|] == parts;
  }

  lemma {:induction false} SquashAllAppend(a: seq<string>, b: seq<string>)
    ensures SquashAll(a + b) == SquashAll(a) + SquashAll(b)
  {
    hide Squash;
    if b == [] {
      assert a + b == a;
    } else {
      var init := b[..|b| - 1];
      SquashAllAppend(a, init);
      assert (a + b)[..|a + b| - 1] == a + init;
      AppendAssoc(SquashAll(a), SquashAll(init), Squash(b[|b| - 1]));
    }
  }

  lemma {:induction false} SquashOne(p: string)
    ensures SquashAll([p]) == Squash(p)
  {
    hide Squash;
    assert [p][..0] == [];
    EmptyLeft(Squash(p));
  }

  lemma {:induction false} SquashJoin(parts: seq<string>, sep: string)
    requires Squash(sep) == ""
    ensures Squash(Join(parts, sep)) == SquashAll(parts)
  {
    if parts == [] {
    } else if |parts| == 1 {
      assert parts == [parts[0]];
      SquashOne(parts[0]);
    } else {
      hide Squash;
      var init, last := parts[..|parts| - 1], parts[|parts| - 1];
      SquashJoin(init, sep);
      SquashAppend(Join(init, sep) + sep, last);
      SquashAppend(Join(init, sep), sep);
      assert Squash(Join(init, sep)) + "" == Squash(Join(init, sep));
    }
  }

  lemma {:induction false} SquashCutset(cutset: string)
    requires cutset == "; \t\r\n" || cutset == " \t\r"
    ensures AllDropped(cutset)
  {
  }

  lemma {:induction false} SquashBody(s: string)
    ensures Squash(Body(s)) == Squash(s)
  {
    hide Squash, TrimSpace, TrimLeftOf, AllDropped;
    SquashCutset("; \t\r\n");
    SquashTrimLeft(s, "; \t\r\n");
    SquashTrimSpace(TrimLeftOf(s, "; \t\r\n"));
  }

  lemma {:induction false} SquashFallback(orig: string)
    ensures Squash(Fallback(orig)) == Squash(orig)
  {
    hide Squash, TrimSpace;
    var text := TrimSpace(orig);
    SquashTrimSpace(orig);
    SquashNothing(";");
    if HasSuffix(text, ";") {
      assert text[..|text| - 1] + ";" == text;
    } else {
      SquashAppend(text, ";");
      assert Squash(text) + "" == Squash(text);
    }
  }

  lemma {:induction false} SquashBlock(s: string, found: bool)
    requires CloseBlock(s, found).Closed?
    ensures SquashAll(CloseBlock(s, found).lines) + Squash(CloseBlock(s, found).rest) == Squash(s)
    decreases |s|
  {
    hide Squash, TrimSpace, TrimRightOf, SquashAll, AllDropped, CloseBlock, CutLine;
    CloseBlockStep(s, found);
    var l := CutLine(s);
    var line := TrimRightOf(l.text, " \t\r");
    SquashCutset(" \t\r");
    SquashTrimRight(l.text, " \t\r");
    SquashCut(s);
    LineShorter(s);
    SquashOne(line);
    if Closings(TrimSpace(l.text)) > 0 {
      assert [line] + [] == [line];
    } else {
      SquashBlock(l.rest, l.found);
      var b := CloseBlock(l.rest, l.found);
      SquashAllAppend([line], b.lines);
      AppendAssoc(Squash(line), SquashAll(b.lines), Squash(b.rest));
    }
  }

  lemma {:induction false} LineShorter(s: string)
    ensures s != "" ==> |CutLine(s).rest| < |s|
  {
  }

  lemma {:induction false} SquashHeader(s: string)
    ensures SquashAll(Leading(s).lines) + Squash(Leading(s).rest) == Squash(s)
    decreases |s|
  {
    if s != "" {
      hide Squash, TrimSpace, SquashAll, CloseBlock, Leading, CutLine;
      LeadingStep(s);
      var l := CutLine(s);
      var trimmed := TrimSpace(l.text);
      SquashCut(s);
      SquashTrimSpace(l.text);
      LineShorter(s);
      SquashOne(trimmed);
      SquashEmpty(s);
      if OpensBlock(trimmed) {
        var b := CloseBlock(l.rest, l.found);
        if b.Closed? {
          SquashBlock(l.rest, l.found);
          SquashHeader(b.rest);
          SquashThree(trimmed, b.lines, b.rest);
        }
      } else if IsCommentLine(trimmed) {
        SquashHeader(l.rest);
        var h := Leading(l.rest);
        SquashAllAppend([trimmed], h.lines);
        AppendAssoc(Squash(trimmed), SquashAll(h.lines), Squash(h.rest));
      }
    }
  }

  lemma {:induction false} SquashEmpty(s: string)
    ensures SquashAll([]) + Squash(s) == Squash(s)
  {
    hide Squash;
    EmptyLeft(Squash(s));
  }

  /** A block comment's lines, then what the rest of the header gives. */
  lemma {:induction false} SquashThree(trimmed: string, lines: seq<string>, rest: string)
    ensures var h := AddLines([trimmed] + lines, Leading(rest));
            SquashAll(h.lines) + Squash(h.rest)
            == Squash(trimmed) + (SquashAll(lines) + (SquashAll(Leading(rest).lines) + Squash(Leading(rest).rest)))
  {
    hide Squash, SquashAll, Leading;
    var more := Leading(rest);
    SquashAllAppend([trimmed] + lines, more.lines);
    SquashAllAppend([trimmed], lines);
    SquashOne(trimmed);
    AppendAssoc(Squash(trimmed) + SquashAll(lines), SquashAll(more.lines), Squash(more.rest));
    AppendAssoc(Squash(trimmed), SquashAll(lines), SquashAll(more.lines) + Squash(more.rest));
  }

  lemma {:induction false} SquashDropBlank(lines: seq<string>)
    ensures SquashAll(DropBlank(lines)) == SquashAll(lines)
  {
    if lines != [] && lines[|lines| - 1] == "" {
      SquashDropBlank(lines[..|lines| - 1]);
      assert SquashAll(lines[..|lines| - 1]) + "" == SquashAll(lines[..|lines| - 1]);
    }
  }

  lemma {:induction false} SquashLeading(s: string)
    ensures SquashAll(SplitLeading(s).lines) + Squash(SplitLeading(s).rest) == Squash(s)
  {
    hide Squash, SquashAll, Leading, DropBlank;
    SquashHeader(s);
    SquashDropBlank(Leading(s).lines);
  }

  // ----- the whole file -----

  /** What the printer makes of a statement keeps its characters. Falling back always does. */
  ghost predicate Faithful(pretty: Printer) {
    forall i, orig :: pretty(i, orig).Some? ==> Squash(pretty(i, orig).value) == Squash(orig)
  }

  lemma {:induction false} SquashStmt(pretty: Printer, i: nat, orig: string)
    requires Faithful(pretty)
    ensures Squash(FormatStmt(pretty, i, orig)) == Squash(orig)
  {
    hide Squash, Fallback;
    SquashFallback(orig);
  }

  lemma {:induction false} SquashAddTrailing(blocks: seq<string>, comment: string)
    requires blocks == [] ==> comment == ""
    ensures SquashAll(AddTrailing(blocks, comment)) == SquashAll(blocks) + Squash(comment)
  {
    SquashNothing("");
    if blocks == [] || comment == "" {
      assert SquashAll(blocks) + "" == SquashAll(blocks);
    } else {
      hide Squash, SquashAll;
      var init, last := blocks[..|blocks| - 1], blocks[|blocks| - 1];
      assert blocks == init + [last];
      SquashAllMore(init, last);
      SquashAllMore(init, last + " " + comment);
      SquashAppend(last + " ", comment);
      SquashAppend(last, " ");
      SquashNothing(" ");
      assert Squash(last) + "" == Squash(last);
      AppendAssoc(SquashAll(init), Squash(last), Squash(comment));
    }
  }

  lemma {:induction false} SquashTake(blocks: seq<string>, seg: string)
    ensures var s := TakeTrailing(blocks, seg);
            SquashAll(AddTrailing(blocks, s.comment)) + Squash(s.remainder) == SquashAll(blocks) + Squash(seg)
  {
    hide Squash, SquashAll, SplitTrailing, AddTrailing;
    var s := TakeTrailing(blocks, seg);
    SquashAddTrailing(blocks, s.comment);
    if blocks == [] {
      SquashNothing("");
      assert SquashAll(blocks) + "" == SquashAll(blocks);
    } else {
      SquashTrailing(seg);
      AppendAssoc(SquashAll(blocks), Squash(s.comment), Squash(s.remainder));
    }
  }

  lemma {:induction false} SquashSegment(pretty: Printer, blocks: seq<string>, i: nat, seg: string)
    requires Faithful(pretty)
    ensures SquashAll(Segment(pretty, blocks, i, seg)) == SquashAll(blocks) + Squash(seg)
  {
    hide Squash, SquashAll, TakeTrailing, AddTrailing, Body, SplitLeading, FormatStmt, Join, Faithful;
    var s := TakeTrailing(blocks, seg);
    var orig := Body(s.remainder);
    var before := AddTrailing(blocks, s.comment);
    SquashTake(blocks, seg);
    SquashBody(s.remainder);
    if orig == "" {
      SquashNothing("");
      assert before + [] == before;
      assert SquashAll(before) + "" == SquashAll(before);
    } else {
      var block := Join(SplitLeading(orig).lines + [FormatStmt(pretty, i, SplitLeading(orig).rest)], "\n");
      SquashNewBlock(pretty, i, orig);
      SquashAllMore(before, block);
    }
  }

  lemma {:induction false} SquashNewBlock(pretty: Printer, i: nat, orig: string)
    requires Faithful(pretty)
    ensures Squash(Join(SplitLeading(orig).lines + [FormatStmt(pretty, i, SplitLeading(orig).rest)], "\n")) == Squash(orig)
  {
    hide Squash, SquashAll, SplitLeading, FormatStmt, Join, Faithful;
    var h := SplitLeading(orig);
    var stmt := FormatStmt(pretty, i, h.rest);
    SquashNothing("\n");
    SquashJoin(h.lines + [stmt], "\n");
    SquashAllMore(h.lines, stmt);
    SquashStmt(pretty, i, h.rest);
    SquashLeading(orig);
  }

  /** Statements lie in the file one after the other. */
  ghost predicate InOrder(src: string, stmts: seq<Option<Stmt>>) {
    && (forall i :: 0 <= i < |stmts| && stmts[i].Some? ==>
          0 <= stmts[i].value.start <= EndOf(src, stmts[i].value) <= |src|)
    && (forall i, j :: 0 <= i < j < |stmts| && stmts[i].Some? && stmts[j].Some? ==>
          EndOf(src, stmts[i].value) <= stmts[j].value.start)
  }

  /** After each statement the blocks hold the characters of the file up to its end. */
  lemma {:induction false} StepsConserve(src: string, pretty: Printer, stmts: seq<Option<Stmt>>)
    requires Faithful(pretty) && InOrder(src, stmts)
    ensures var r := Steps(src, pretty, stmts);
            && r.Ok? && SquashAll(r.value.blocks) == Squash(src[..r.value.prevEnd])
            && (r.value.prevEnd == 0 || exists i :: 0 <= i < |stmts| && stmts[i].Some? && EndOf(src, stmts[i].value) == r.value.prevEnd)
  {
    hide Faithful, Squash, SquashAll, Segment;
    if stmts == [] {
      assert src[..0] == "";
      SquashNothing("");
      assert SquashAll([]) == "" by { SquashAllNone(); }
    } else {
      var init, s := stmts[..|stmts| - 1], stmts[|stmts| - 1];
      StepsConserve(src, pretty, init);
      var st := Steps(src, pretty, init).value;
      if s.Some? && EndOf(src, s.value) > st.prevEnd {
        var end := EndOf(src, s.value);
        SegmentStart(src, stmts, init, st.prevEnd);
        assert src[..end] == src[..st.prevEnd] + src[st.prevEnd..end];
        SquashAppend(src[..st.prevEnd], src[st.prevEnd..end]);
        SquashSegment(pretty, st.blocks, |stmts| - 1, src[st.prevEnd..end]);
        assert EndOf(src, stmts[|stmts| - 1].value) == end;
      } else if st.prevEnd > 0 {
        var i :| 0 <= i < |init| && init[i].Some? && EndOf(src, init[i].value) == st.prevEnd;
        assert stmts[i] == init[i];
      }
    }
  }

  lemma {:induction false} SquashAllNone()
    ensures SquashAll([]) == ""
  {
  }

  lemma {:induction false} SegmentStart(src: string, stmts: seq<Option<Stmt>>, init: seq<Option<Stmt>>, prevEnd: nat)
    requires InOrder(src, stmts) && stmts != [] && stmts[|stmts| - 1].Some? && init == stmts[..|stmts| - 1]
    requires prevEnd == 0 || exists i :: 0 <= i < |init| && init[i].Some? && EndOf(src, init[i].value) == prevEnd
    ensures prevEnd <= stmts[|stmts| - 1].value.start
  {
    if prevEnd > 0 {
      var i :| 0 <= i < |init| && init[i].Some? && EndOf(src, init[i].value) == prevEnd;
      assert stmts[i] == init[i];
    }
  }

  lemma {:induction false} FinishConserves(src: string, st: State)
    requires st.prevEnd <= |src| && SquashAll(st.blocks) == Squash(src[..st.prevEnd])
    ensures Squash(Finish(src, st)) == Squash(src)
  {
    hide Squash, SquashAll, TakeTrailing, AddTrailing, Body, Join;
    var rest := src[st.prevEnd..];
    assert src == src[..st.prevEnd] + rest;
    SquashAppend(src[..st.prevEnd], rest);
    var s := TakeTrailing(st.blocks, rest);
    var before, tail := AddTrailing(st.blocks, s.comment), Body(s.remainder);
    SquashTake(st.blocks, rest);
    SquashBody(s.remainder);
    var blocks := before + if tail == "" then [] else [tail];
    assert SquashAll(blocks) == Squash(src) by {
      if tail == "" {
        SquashNothing("");
        assert blocks == before;
        assert SquashAll(before) + "" == SquashAll(before);
      } else {
        SquashAllMore(before, tail);
      }
    }
    if blocks != [] {
      SquashNothing("\n\n");
      SquashNothing("\n");
      SquashJoin(blocks, "\n\n");
      SquashAppend(Join(blocks, "\n\n"), "\n");
      assert Squash(src) + "" == Squash(src);
    }
  }

  /** The formatter conserves text: headers, block comments, trailing comments, statements and the tail
      come out in order, with nothing lost or doubled but whitespace and semicolons. */
  lemma {:induction false} FormatConserves(src: string, pretty: Printer, stmts: seq<Option<Stmt>>)
    requires Faithful(pretty) && InOrder(src, stmts)
    ensures Format(src, pretty, stmts).Ok? && Squash(Format(src, pretty, stmts).value) == Squash(src)
  {
    hide Faithful, InOrder, Squash, SquashAll, Steps, Finish;
    StepsConserve(src, pretty, stmts);
    FinishConserves(src, Steps(src, pretty, stmts).value);
  }

  /** In particular when every statement falls back to its own text. */
  lemma {:induction false} FallbackConserves(src: string, pretty: Printer, stmts: seq<Option<Stmt>>)
    requires InOrder(src, stmts) && forall i, orig :: pretty(i, orig).None?
    ensures Format(src, pretty, stmts).Ok? && Squash(Format(src, pretty, stmts).value) == Squash(src)
  {
    hide InOrder, Squash, Format;
    FormatConserves(src, pretty, stmts);
  }

  // ----- sameComments -----

  function Texts(comments: seq<string>): multiset<string> {
    if comments == [] then multiset{}
    else Texts(comments[..|comments| - 1]) + multiset{TrimSpace(comments[|comments| - 1])}
  }

  function CountOf(counts: map<string, int>, text: string): int { if text in counts then counts[text] else 0 }

  lemma {:induction false} TextsMore(comments: seq<string>, i: nat, t: string)
    requires i < |comments|
    ensures Texts(comments[..i + 1])[t] == Texts(comments[..i])[t] + if t == TrimSpace(comments[i]) then 1 else 0
  {
    hide TrimSpace;
    assert comments[..i + 1][..i] == comments[..i];
  }

  method CountUp(a: seq<string>) returns (counts: map<string, int>)
    ensures forall t :: CountOf(counts, t) == Texts(a)[t]
  {
    hide TrimSpace, Texts;
    counts := map[];
    assert forall t :: Texts(a[..0])[t] == 0 by { NoTexts(); }
    for i := 0 to |a|
      invariant forall t :: CountOf(counts, t) == Texts(a[..i])[t]
    {
      var text, was := TrimSpace(a[i]), counts;
      counts := counts[text := CountOf(counts, text) + 1];
      forall t
        ensures CountOf(counts, t) == Texts(a[..i + 1])[t]
      {
        TextsMore(a, i, t);
        assert CountOf(was, t) == Texts(a[..i])[t];
      }
    }
    assert a[..|a|] == a;
  }

  lemma {:induction false} NoTexts()
    ensures Texts([]) == multiset{}
  {
  }

  method CountDown(b: seq<string>, before: map<string, int>) returns (counts: map<string, int>)
    ensures forall t :: CountOf(counts, t) == CountOf(before, t) - Texts(b)[t]
  {
    hide TrimSpace, Texts;
    counts := before;
    assert forall t :: Texts(b[..0])[t] == 0 by { NoTexts(); }
    for i := 0 to |b|
      invariant forall t :: CountOf(counts, t) == CountOf(before, t) - Texts(b[..i])[t]
    {
      var text, was := TrimSpace(b[i]), counts;
      counts := counts[text := CountOf(counts, text) - 1];
      forall t
        ensures CountOf(counts, t) == CountOf(before, t) - Texts(b[..i + 1])[t]
      {
        TextsMore(b, i, t);
        assert CountOf(was, t) == CountOf(before, t) - Texts(b[..i])[t];
      }
    }
    assert b[..|b|] == b;
  }

  method AllZero(counts: map<string, int>) returns (zero: bool)
    ensures zero <==> forall t :: CountOf(counts, t) == 0
  {
    var todo := counts.Keys;
    while todo != {}
      invariant todo <= counts.Keys && forall t :: t in counts && t !in todo ==> counts[t] == 0
    {
      var t :| t in todo;
      if counts[t] != 0 {
        assert CountOf(counts, t) != 0;
        return false;
      }
      todo := todo - {t};
    }
    return true;
  }

  /** Counting up over one list and down over the other compares them as multisets. */
  method SameComments(a: seq<string>, b: seq<string>) returns (same: bool)
    ensures same <==> Texts(a) == Texts(b)
  {
    hide TrimSpace, Texts;
    SameSize(a);
    SameSize(b);
    if |a| != |b| {
      return false;
    }
    var up := CountUp(a);
    var counts := CountDown(b, up);
    same := AllZero(counts);
    assert same <==> forall t :: Texts(a)[t] == Texts(b)[t] by {
      assert forall t :: CountOf(counts, t) + Texts(b)[t] == Texts(a)[t];
    }
  }

  lemma {:induction false} SameSize(comments: seq<string>)
    ensures |Texts(comments)| == |comments|
  {
    if comments != [] {
      SameSize(comments[..|comments| - 1]);
    }
  }
}
