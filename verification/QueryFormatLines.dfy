/** `sqlc fmt` line by line. A line comment ends with its line, so where lines begin and end is what keeps
    a comment a comment and a statement a statement. */
module QueryFormatLines {
  import opened Common
  import opened Text
  import opened QueryFormat

  // ----- lines -----

  /** strings.Split(s, "\n") */
  function Lines(s: string): (r: seq<string>)
    ensures r != []
    decreases |s|
  {
    var l := CutLine(s);
    if l.found then [l.text] + Lines(l.rest) else [l.text]
  }

  lemma {:induction false} CutAt(x: string, y: string)
    requires '\n' !in x
    ensures CutLine(x + "\n" + y) == Line(x, y, true)
  {
    hide IndexOf;
    IndexOfFirst(x, '\n', y);
    assert (x + "\n" + y)[..|x|] == x && (x + "\n" + y)[|x| + 1..] == y;
  }

  lemma {:induction false} CutParts(s: string)
    ensures '\n' !in CutLine(s).text
    ensures CutLine(s).found <==> '\n' in s
  {
    hide IndexOf;
  }

  lemma {:induction false} OneLine(x: string)
    requires '\n' !in x
    ensures Lines(x) == [x]
  {
    hide IndexOf;
  }

  lemma {:induction false} LinesStep(s: string)
    ensures Lines(s) == if CutLine(s).found then [CutLine(s).text] + Lines(CutLine(s).rest) else [s]
  {
    hide IndexOf;
  }

  /** Lines before a line break, and lines after it. */
  lemma {:induction false} LinesAppend(a: string, b: string)
    ensures Lines(a + "\n" + b) == Lines(a) + Lines(b)
    decreases |a|
  {
    hide Lines, CutLine;
    var l := CutLine(a);
    CutParts(a);
    LinesStep(a);
    if l.found {
      var more := l.rest + "\n" + b;
      assert a + "\n" + b == l.text + "\n" + more;
      CutAt(l.text, more);
      LinesStep(a + "\n" + b);
      LinesAppend(l.rest, b);
    } else {
      CutAt(a, b);
      LinesStep(a + "\n" + b);
    }
  }

  function AddToLast(lines: seq<string>, c: string): seq<string>
    requires lines != []
  {
    lines[..|lines| - 1] + [lines[|lines| - 1] + c]
  }

  /** Text without a line break goes to the end of the last line. */
  lemma {:induction false} LinesGlue(a: string, c: string)
    requires '\n' !in c
    ensures Lines(a + c) == AddToLast(Lines(a), c)
    decreases |a|
  {
    hide Lines, CutLine;
    var l := CutLine(a);
    CutParts(a);
    LinesStep(a);
    if l.found {
      assert a + c == l.text + "\n" + (l.rest + c);
      CutAt(l.text, l.rest + c);
      LinesStep(a + c);
      LinesGlue(l.rest, c);
    } else {
      OneLine(a + c);
    }
  }

  lemma {:induction false} LinesOfJoin(header: seq<string>, text: string)
    requires forall h :: h in header ==> '\n' !in h
    ensures Lines(Join(header + [text], "\n")) == header + Lines(text)
    decreases |header|
  {
    hide Lines;
    if header == [] {
      assert header + [text] == [text] && [] + Lines(text) == Lines(text);
    } else {
      JoinFirst(header[0], header[1..] + [text]);
      assert header + [text] == [header[0]] + (header[1..] + [text]);
      LinesAppend(header[0], Join(header[1..] + [text], "\n"));
      OneLine(header[0]);
      LinesOfJoin(header[1..], text);
      assert header == [header[0]] + header[1..];
    }
  }

  lemma {:induction false} JoinFirst(first: string, rest: seq<string>)
    requires rest != []
    ensures Join([first] + rest, "\n") == first + "\n" + Join(rest, "\n")
    decreases |rest|
  {
    var all := [first] + rest;
    assert all[..|all| - 1] == [first] + rest[..|rest| - 1];
    if |rest| > 1 {
      JoinFirst(first, rest[..|rest| - 1]);
    } else {
      assert Join([first], "\n") == first;
    }
  }

  // ----- the file as pieces -----

  /** A block of the output: comment lines, a statement, and the comments behind its terminator. */
  datatype Piece = Piece(header: seq<string>, text: string, trailing: seq<string>)

  /** The header's lines, each a line; the statement from a line of its own on; the comments behind it at
      the end of its last line. */
  function BodyLines(p: Piece): (r: seq<string>)
    ensures r != []
  {
    p.header + WithTrailing(Lines(p.text), p.trailing)
  }

  function WithTrailing(lines: seq<string>, trailing: seq<string>): (r: seq<string>)
    requires lines != []
    ensures |r| == |lines|
  {
    if trailing == [] then lines
    else AddToLast(WithTrailing(lines, trailing[..|trailing| - 1]), " " + trailing[|trailing| - 1])
  }

  /** Each body, and an empty line after it. */
  function Paragraphs(ps: seq<Piece>): seq<string> {
    if ps == [] then [] else Paragraphs(ps[..|ps| - 1]) + BodyLines(ps[|ps| - 1]) + [""]
  }

  ghost predicate OneLiners(p: Piece) {
    (forall h :: h in p.header ==> '\n' !in h) && (forall c :: c in p.trailing ==> '\n' !in c)
  }

  function Render(p: Piece): string
    decreases |p.trailing|
  {
    if p.trailing == [] then Join(p.header + [p.text], "\n")
    else Render(p.(trailing := p.trailing[..|p.trailing| - 1])) + " " + p.trailing[|p.trailing| - 1]
  }

  function RenderAll(ps: seq<Piece>): (r: seq<string>)
    ensures |r| == |ps|
  {
    if ps == [] then [] else RenderAll(ps[..|ps| - 1]) + [Render(ps[|ps| - 1])]
  }

  lemma {:induction false} LinesOfPiece(p: Piece)
    requires OneLiners(p)
    ensures Lines(Render(p)) == BodyLines(p)
    decreases |p.trailing|
  {
    hide Lines;
    if p.trailing == [] {
      LinesOfJoin(p.header, p.text);
    } else {
      var n := |p.trailing| - 1;
      var q, c := p.(trailing := p.trailing[..n]), p.trailing[n];
      LinesOfPiece(q);
      assert Render(p) == Render(q) + (" " + c);
      LinesGlue(Render(q), " " + c);
      GlueBehind(p.header, WithTrailing(Lines(p.text), q.trailing), " " + c);
    }
  }

  lemma {:induction false} GlueBehind(header: seq<string>, lines: seq<string>, c: string)
    requires lines != []
    ensures AddToLast(header + lines, c) == header + AddToLast(lines, c)
  {
  }

  lemma {:induction false} LinesOfPieces(ps: seq<Piece>)
    requires ps != [] && forall p :: p in ps ==> OneLiners(p)
    ensures Lines(Join(RenderAll(ps), "\n\n") + "\n") == Paragraphs(ps)
    decreases |ps|
  {
    hide Lines, BodyLines, Render, OneLiners;
    var init, last := ps[..|ps| - 1], ps[|ps| - 1];
    var text := Render(last);
    LinesOfPiece(last);
    OneLine("");
    LinesAppend(text, "");
    assert text + "\n" + "" == text + "\n";
    if init == [] {
      assert RenderAll(ps) == [text];
      assert Paragraphs(ps) == BodyLines(last) + [""];
    } else {
      var front := Join(RenderAll(init), "\n\n") + "\n";
      LinesOfPieces(init);
      JoinLast(RenderAll(init), text);
      LinesAppend(front, text + "\n");
    }
  }

  lemma {:induction false} JoinLast(parts: seq<string>, last: string)
    requires parts != []
    ensures Join(parts + [last], "\n\n") + "\n" == (Join(parts, "\n\n") + "\n") + "\n" + (last + "\n")
  {
    hide Join;
    JoinMore(parts, last);
    var a := Join(parts, "\n\n");
    assert a + "\n\n" + last + "\n" == (a + "\n") + "\n" + (last + "\n");
  }

  lemma {:induction false} JoinMore(parts: seq<string>, last: string)
    requires parts != []
    ensures Join(parts + [last], "\n\n") == Join(parts, "\n\n") + "\n\n" + last
  {
    assert (parts + [last])[..|parts|] == parts;
  }

  // ----- the pieces of a file -----

  function AddComment(ps: seq<Piece>, c: string): seq<Piece> {
    if ps == [] || c == "" then ps
    else
      var last := ps[|ps| - 1];
      ps[..|ps| - 1] + [last.(trailing := last.trailing + [c])]
  }

  function NewPiece(pretty: Printer, i: nat, orig: string): Piece {
    Piece(SplitLeading(orig).lines, FormatStmt(pretty, i, SplitLeading(orig).rest), [])
  }

  /** One segment: a comment behind the terminator goes to the piece before, the rest is a new one. */
  function AddSegment(pretty: Printer, ps: seq<Piece>, i: nat, seg: string): seq<Piece> {
    var split := if ps == [] then Split("", seg) else SplitTrailing(seg);
    var orig := Body(split.remainder);
    AddComment(ps, split.comment) + if orig == "" then [] else [NewPiece(pretty, i, orig)]
  }

  /** The pieces up to the last statement, and where it ended. */
  datatype Taken = Taken(pieces: seq<Piece>, prevEnd: nat)

  function Take(src: string, pretty: Printer, stmts: seq<Option<Stmt>>): (r: Result<Taken, FormatError>)
    ensures r.Ok? ==> r.value.prevEnd <= |src|
  {
    if stmts == [] then Ok(Taken([], 0))
    else
      var before := Take(src, pretty, stmts[..|stmts| - 1]);
      var s := stmts[|stmts| - 1];
      if before.Err? || s.None? then before
      else
        var start, end := s.value.start, EndOf(src, s.value);
        if start < 0 || end > |src| then Err(OutOfBounds)
        else if end <= before.value.prevEnd then before
        else
          var from := if start < before.value.prevEnd then start else before.value.prevEnd;
          Ok(Taken(AddSegment(pretty, before.value.pieces, |stmts| - 1, src[from..end]), end))
  }

  /** And what follows the last statement. */
  function AddTail(src: string, t: Taken): seq<Piece>
    requires t.prevEnd <= |src|
  {
    var seg := src[t.prevEnd..];
    var split := if t.pieces == [] then Split("", seg) else SplitTrailing(seg);
    var tail := Body(split.remainder);
    AddComment(t.pieces, split.comment) + if tail == "" then [] else [Piece([], tail, [])]
  }

  lemma {:induction false} RenderMore(ps: seq<Piece>, p: Piece)
    ensures RenderAll(ps + [p]) == RenderAll(ps) + [Render(p)]
  {
    assert (ps + [p])[..|ps|] == ps;
  }

  lemma {:induction false} RenderComment(ps: seq<Piece>, c: string)
    ensures RenderAll(AddComment(ps, c)) == AddTrailing(RenderAll(ps), c)
  {
    if ps != [] && c != "" {
      hide Join;
      var init, last := ps[..|ps| - 1], ps[|ps| - 1];
      var more := last.(trailing := last.trailing + [c]);
      assert more.trailing[..|last.trailing|] == last.trailing;
      assert Render(more) == Render(last) + " " + c;
      RenderMore(init, more);
    }
  }

  lemma {:induction false} RenderNone(ps: seq<Piece>)
    ensures RenderAll(ps) == [] <==> ps == []
  {
  }

  lemma {:induction false} RenderSegment(pretty: Printer, ps: seq<Piece>, i: nat, seg: string)
    ensures RenderAll(AddSegment(pretty, ps, i, seg)) == Segment(pretty, RenderAll(ps), i, seg)
  {
    hide SplitTrailing, SplitLeading, FormatStmt, Body, Join, RenderAll, AddComment, AddTrailing;
    RenderNone(ps);
    var split := if ps == [] then Split("", seg) else SplitTrailing(seg);
    var orig, before := Body(split.remainder), AddComment(ps, split.comment);
    RenderComment(ps, split.comment);
    if orig == "" {
      assert before + [] == before;
      assert RenderAll(before) + [] == RenderAll(before);
    } else {
      RenderMore(before, NewPiece(pretty, i, orig));
    }
  }

  lemma {:induction false} RenderTake(src: string, pretty: Printer, stmts: seq<Option<Stmt>>)
    ensures var t, st := Take(src, pretty, stmts), Steps(src, pretty, stmts);
            && (t.Ok? <==> st.Ok?) && (t.Err? ==> st.error == t.error)
            && (t.Ok? ==> st.value == State(RenderAll(t.value.pieces), t.value.prevEnd))
  {
    hide AddSegment, Segment;
    if stmts != [] {
      var init, s := stmts[..|stmts| - 1], stmts[|stmts| - 1];
      RenderTake(src, pretty, init);
      var t := Take(src, pretty, init);
      if t.Ok? && s.Some? {
        var start, end := s.value.start, EndOf(src, s.value);
        if 0 <= start && t.value.prevEnd < end <= |src| {
          var from := if start < t.value.prevEnd then start else t.value.prevEnd;
          RenderSegment(pretty, t.value.pieces, |stmts| - 1, src[from..end]);
        }
      }
    }
  }

  lemma {:induction false} RenderTail(src: string, t: Taken)
    requires t.prevEnd <= |src|
    ensures Finish(src, State(RenderAll(t.pieces), t.prevEnd)) ==
            if AddTail(src, t) == [] then src else Join(RenderAll(AddTail(src, t)), "\n\n") + "\n"
  {
    hide SplitTrailing, Body, Join, RenderAll, AddComment, AddTrailing;
    var seg := src[t.prevEnd..];
    RenderNone(t.pieces);
    var split := if t.pieces == [] then Split("", seg) else SplitTrailing(seg);
    var tail, before := Body(split.remainder), AddComment(t.pieces, split.comment);
    RenderComment(t.pieces, split.comment);
    if tail == "" {
      assert before + [] == before;
      assert RenderAll(before) + [] == RenderAll(before);
    } else {
      RenderMore(before, Piece([], tail, []));
      JoinOne(tail);
    }
    RenderNone(AddTail(src, t));
  }

  lemma {:induction false} JoinOne(tail: string)
    ensures Render(Piece([], tail, [])) == tail
  {
    assert [] + [tail] == [tail];
  }

  // ----- no line break inside a comment line -----

  lemma {:induction false} TrimKeepsOut(s: string, cutset: string, c: char)
    requires c !in s
    ensures c !in TrimSpace(s) && c !in TrimRightOf(s, cutset)
  {
    TrimRightPrefix(s, cutset);
    hide TrimRightOf;
    var a := TrimStart(s);
    assert a == s[|s| - |a|..];
    var b := TrimEnd(a);
    assert b == a[..|b|];
  }

  lemma {:induction false} TrimRightPrefix(s: string, cutset: string)
    ensures TrimRightOf(s, cutset) <= s
  {
    if s != "" && s[|s| - 1] in cutset {
      TrimRightPrefix(s[..|s| - 1], cutset);
    }
  }

  lemma {:induction false} BlockOneLiners(s: string, found: bool)
    requires CloseBlock(s, found).Closed?
    ensures forall h :: h in CloseBlock(s, found).lines ==> '\n' !in h
    decreases |s|
  {
    hide TrimSpace, TrimRightOf, CloseBlock, CutLine;
    CloseBlockStep(s, found);
    var l := CutLine(s);
    CutParts(s);
    TrimKeepsOut(l.text, " \t\r", '\n');
    LineShorter(s);
    if Closings(TrimSpace(l.text)) == 0 {
      BlockOneLiners(l.rest, l.found);
    }
  }

  lemma {:induction false} LeadingOneLiners(s: string)
    ensures forall h :: h in Leading(s).lines ==> '\n' !in h
    decreases |s|
  {
    if s != "" {
      hide TrimSpace, CloseBlock, Leading, CutLine;
      LeadingStep(s);
      var l := CutLine(s);
      CutParts(s);
      TrimKeepsOut(l.text, "", '\n');
      LineShorter(s);
      if OpensBlock(TrimSpace(l.text)) {
        var b := CloseBlock(l.rest, l.found);
        if b.Closed? {
          BlockOneLiners(l.rest, l.found);
          BlockShorter(l.rest, l.found);
          LeadingOneLiners(b.rest);
        }
      } else if IsCommentLine(TrimSpace(l.text)) {
        LeadingOneLiners(l.rest);
      }
    }
  }

  lemma {:induction false} BlockShorter(s: string, found: bool)
    requires CloseBlock(s, found).Closed?
    ensures |CloseBlock(s, found).rest| < |s|
  {
  }

  lemma {:induction false} DropBlankPrefix(lines: seq<string>)
    ensures DropBlank(lines) <= lines
    ensures forall k :: |DropBlank(lines)| <= k < |lines| ==> lines[k] == ""
    ensures DropBlank(lines) != [] ==> DropBlank(lines)[|DropBlank(lines)| - 1] != ""
  {
    if lines != [] && lines[|lines| - 1] == "" {
      DropBlankPrefix(lines[..|lines| - 1]);
    }
  }

  lemma {:induction false} HeaderOneLiners(s: string)
    ensures forall h :: h in SplitLeading(s).lines ==> '\n' !in h
  {
    hide Leading, DropBlank;
    LeadingOneLiners(s);
    DropBlankPrefix(Leading(s).lines);
  }

  lemma {:induction false} TrailingOneLiner(seg: string)
    ensures '\n' !in SplitTrailing(seg).comment
  {
    hide Lead, CutLine, TrimSpace, LineComment, BlockOnLine;
    var line := CutLine(seg[Lead(seg)..]).text;
    CutParts(seg[Lead(seg)..]);
    TrimKeepsOut(line, "", '\n');
  }

  ghost predicate AllOneLiners(ps: seq<Piece>) { forall p :: p in ps ==> OneLiners(p) }

  lemma {:induction false} CommentKeeps(ps: seq<Piece>, c: string)
    requires AllOneLiners(ps) && '\n' !in c
    ensures AllOneLiners(AddComment(ps, c))
  {
    if ps != [] && c != "" {
      assert ps[|ps| - 1] in ps;
    }
  }

  lemma {:induction false} SegmentKeeps(pretty: Printer, ps: seq<Piece>, i: nat, seg: string)
    requires AllOneLiners(ps)
    ensures AllOneLiners(AddSegment(pretty, ps, i, seg))
  {
    hide SplitTrailing, SplitLeading, FormatStmt, Body, AddComment;
    TrailingOneLiner(seg);
    var split := if ps == [] then Split("", seg) else SplitTrailing(seg);
    CommentKeeps(ps, split.comment);
    HeaderOneLiners(Body(split.remainder));
  }

  lemma {:induction false} TakeKeeps(src: string, pretty: Printer, stmts: seq<Option<Stmt>>)
    ensures Take(src, pretty, stmts).Ok? ==> AllOneLiners(Take(src, pretty, stmts).value.pieces)
  {
    hide AddSegment, AllOneLiners;
    if stmts == [] {
      assert AllOneLiners([]) by { NoPieces(); }
    } else {
      var init, s := stmts[..|stmts| - 1], stmts[|stmts| - 1];
      TakeKeeps(src, pretty, init);
      var t := Take(src, pretty, init);
      if t.Ok? && s.Some? {
        var start, end := s.value.start, EndOf(src, s.value);
        if 0 <= start && t.value.prevEnd < end <= |src| {
          var from := if start < t.value.prevEnd then start else t.value.prevEnd;
          SegmentKeeps(pretty, t.value.pieces, |stmts| - 1, src[from..end]);
        }
      }
    }
  }

  lemma {:induction false} NoPieces()
    ensures AllOneLiners([])
  {
  }

  // ----- the lines of the output -----

  /** The output line by line: for every piece its header lines, each a whole line; its statement, from a
      line of its own on, with the comments behind it at the end of its last line; and one empty line. */
  lemma {:induction false} FormatLines(src: string, pretty: Printer, stmts: seq<Option<Stmt>>)
    requires Format(src, pretty, stmts).Ok?
    ensures Take(src, pretty, stmts).Ok?
    ensures var ps := AddTail(src, Take(src, pretty, stmts).value);
            var out := Format(src, pretty, stmts).value;
            if ps == [] then out == src else Lines(out) == Paragraphs(ps)
  {
    hide Steps, Take, Finish, AddTail, Lines, Paragraphs;
    RenderTake(src, pretty, stmts);
    var t := Take(src, pretty, stmts).value;
    RenderTail(src, t);
    var ps := AddTail(src, t);
    TailKeeps(src, pretty, stmts);
    if ps != [] {
      LinesOfPieces(ps);
    }
  }

  lemma {:induction false} TailKeeps(src: string, pretty: Printer, stmts: seq<Option<Stmt>>)
    requires Take(src, pretty, stmts).Ok?
    ensures forall p :: p in AddTail(src, Take(src, pretty, stmts).value) ==> OneLiners(p)
  {
    hide SplitTrailing, Body, AddComment, Take;
    TakeKeeps(src, pretty, stmts);
    var t := Take(src, pretty, stmts).value;
    var seg := src[t.prevEnd..];
    TrailingOneLiner(seg);
    CommentKeeps(t.pieces, if t.pieces == [] then "" else SplitTrailing(seg).comment);
  }

  /** Where the lines of piece j start. */
  function Offset(ps: seq<Piece>, j: nat): nat
    requires j <= |ps|
  {
    |Paragraphs(ps[..j])|
  }

  /** In order: the lines of each piece stand together, followed by an empty line. */
  lemma {:induction false} PieceAt(ps: seq<Piece>, j: nat)
    requires j < |ps|
    ensures Offset(ps, j) + |BodyLines(ps[j])| + 1 == Offset(ps, j + 1) <= |Paragraphs(ps)|
    ensures Paragraphs(ps)[Offset(ps, j)..Offset(ps, j + 1)] == BodyLines(ps[j]) + [""]
    decreases |ps|
  {
    hide BodyLines;
    var init := ps[..|ps| - 1];
    assert ps[..j + 1][..j] == ps[..j];
    if j == |ps| - 1 {
      assert ps[..j + 1] == ps;
    } else {
      PieceAt(init, j);
      assert init[..j] == ps[..j] && init[..j + 1] == ps[..j + 1];
    }
  }
}
