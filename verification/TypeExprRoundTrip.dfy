/** ParseTypeExpr undoes String on plain expressions, so Key tells them apart. */
module TypeExprRoundTrip {
  import opened Common
  import opened Text
  import opened TypeExprs

  // ----- the fragment -----

  /** Characters that mean nothing to the scanner, the trimmer or the label rules. */
  predicate WordChar(c: char) {
    !IsSpace(c) && !IsQuote(c) && c !in {'(', ')', ',', ':', '\\', '[', ']'}
  }

  predicate Word(w: string) { w != "" && forall i :: 0 <= i < |w| ==> WordChar(w[i]) }

  predicate Lower(w: string) { forall i :: 0 <= i < |w| ==> !('A' <= w[i] <= 'Z') }

  /** A lower-case word that does not read as a number or a boolean. */
  predicate PlainName(w: string) {
    Word(w) && Lower(w) && ParseInt(w).None? && w != "true" && w != "false"
  }

  predicate DoubledAt(s: string, i: nat)
    requires i + 1 < |s|
  {
    s[i] == '\'' && s[i + 1] == '\''
  }

  /** No backslash, and no two quotes side by side. */
  predicate PlainText(s: string) {
    && (forall i :: 0 <= i < |s| ==> s[i] != '\\')
    && (forall i :: 0 <= i < |s| - 1 ==> !DoubledAt(s, i))
  }

  lemma {:induction false} PlainTextTail(s: string)
    requires PlainText(s) && s != ""
    ensures PlainText(s[1..])
  {
    forall i | 0 <= i < |s[1..]| - 1
      ensures !DoubledAt(s[1..], i)
    {
      assert !DoubledAt(s, i + 1);
    }
  }

  predicate Plain(t: TypeExpr)
    decreases t, 2
  {
    PlainRoot(t) && !(t.name == "nullable" && |t.args| == 1)
  }

  predicate PlainRoot(t: TypeExpr)
    decreases t, 1
  {
    !t.nullable && PlainName(t.name) && PlainArgs(t.args)
  }

  predicate PlainArgs(args: seq<TypeArg>)
    decreases args, 0
  {
    args == [] || (PlainArg(args[0]) && PlainArgs(args[1..]))
  }

  /** Labels stand on type arguments only, and a bare word is never an argument of its own. */
  predicate PlainArg(a: TypeArg)
    decreases a, 3
  {
    match a.value
    case TypeVal(t) => (a.tag == "" || Word(a.tag)) && Plain(t)
    case IntVal(n) => a.tag == "" && Int64(n)
    case BoolVal(_) => a.tag == ""
    case StringVal(s) => a.tag == "" && PlainText(s)
    case IdentVal(_) => false
    case NoVal => false
  }

  // ----- the scanner passes over printed text -----

  lemma {:induction false} FindWord(w: string, rest: string, depth: int, closing: bool)
    requires forall i :: 0 <= i < |w| ==> WordChar(w[i]) || w[i] in {' ', ':'}
    ensures Find(w + rest, depth, None, closing) == Shift(|w|, Find(rest, depth, None, closing))
  {
    if w == "" {
      assert w + rest == rest;
    } else {
      assert (w + rest)[1..] == w[1..] + rest;
      FindWord(w[1..], rest, depth, closing);
    }
  }

  lemma {:induction false} FindQuoted(s: string, rest: string, depth: int, closing: bool)
    requires PlainText(s)
    ensures Find(Escape(s) + "'" + rest, depth, Some('\''), closing)
            == Shift(|Escape(s)| + 1, Find(rest, depth, None, closing))
  {
    hide Find;
    var text := Escape(s) + "'" + rest;
    if s == "" {
      assert text == "'" + rest;
      FindInQuotes(rest, depth, closing, '\'');
    } else {
      PlainTextTail(s);
      FindQuoted(s[1..], rest, depth, closing);
      var tail := Escape(s[1..]) + "'" + rest;
      FindInQuotes(tail, depth, closing, s[0]);
      if s[0] == '\'' {
        assert text == "\\'" + tail;
      } else {
        assert text == [s[0]] + tail;
      }
    }
  }

  /** Inside quotes: an escaped quote, the closing quote, and any other character but a backslash. */
  lemma {:induction false} FindInQuotes(rest: string, depth: int, closing: bool, c: char)
    ensures Find("\\'" + rest, depth, Some('\''), closing) == Shift(2, Find(rest, depth, Some('\''), closing))
    ensures Find("'" + rest, depth, Some('\''), closing) == Shift(1, Find(rest, depth, None, closing))
    ensures c != '\\' && c != '\'' ==>
              Find([c] + rest, depth, Some('\''), closing) == Shift(1, Find(rest, depth, Some('\''), closing))
  {
    assert ("\\'" + rest)[2..] == rest && ("'" + rest)[1..] == rest && ([c] + rest)[1..] == rest;
  }

  lemma {:induction false} FindString(s: string, rest: string, depth: int, closing: bool)
    requires PlainText(s)
    ensures var v := "'" + Escape(s) + "'";
            Find(v + rest, depth, None, closing) == Shift(|v|, Find(rest, depth, None, closing))
  {
    var v := "'" + Escape(s) + "'";
    assert (v + rest)[1..] == Escape(s) + "'" + rest;
    hide Escape;
    FindQuoted(s, rest, depth, closing);
  }

  lemma {:induction false} DigitsAreWord(n: int)
    ensures forall i :: 0 <= i < |FormatInt(n)| ==> WordChar(FormatInt(n)[i])
  {
    assert forall c: char :: IsDigit(c) ==> WordChar(c);
  }

  lemma {:induction false} FindType(t: TypeExpr, rest: string, depth: int, closing: bool)
    requires Plain(t) && depth >= 0 && (closing ==> depth >= 1)
    ensures Find(String(t) + rest, depth, None, closing) == Shift(|String(t)|, Find(rest, depth, None, closing))
    decreases t, 1
  {
    hide Find, ArgsString;
    if t.args == [] {
      assert String(t) == t.name;
      FindWord(t.name, rest, depth, closing);
    } else {
      var inner := ArgsString(t.args) + (")" + rest);
      assert String(t) + rest == t.name + ("(" + inner);
      FindWord(t.name, "(" + inner, depth, closing);
      FindOpen(inner, depth, closing);
      FindArgs(t.args, ")" + rest, depth + 1, closing);
      FindClose(rest, depth + 1, closing);
    }
  }

  lemma {:induction false} FindOpen(s: string, depth: int, closing: bool)
    ensures Find("(" + s, depth, None, closing) == Shift(1, Find(s, depth + 1, None, closing))
  {
    assert ("(" + s)[1..] == s;
  }

  lemma {:induction false} FindClose(s: string, depth: int, closing: bool)
    requires closing ==> depth != 1
    ensures Find(")" + s, depth, None, closing) == Shift(1, Find(s, depth - 1, None, closing))
  {
    assert (")" + s)[1..] == s;
  }

  lemma {:induction false} FindComma(s: string, depth: int, closing: bool)
    requires closing || depth != 0
    ensures Find("," + s, depth, None, closing) == Shift(1, Find(s, depth, None, closing))
  {
    assert ("," + s)[1..] == s;
  }

  lemma {:induction false} FindArgs(args: seq<TypeArg>, rest: string, depth: int, closing: bool)
    requires PlainArgs(args) && depth >= 1
    ensures Find(ArgsString(args) + rest, depth, None, closing) == Shift(|ArgsString(args)|, Find(rest, depth, None, closing))
    decreases args, 0
  {
    hide Find, ArgString, PlainArg;
    if args == [] {
      assert ArgsString(args) + rest == rest;
    } else if |args| == 1 {
      FindArg(args[0], rest, depth, closing);
    } else {
      var more := ArgsString(args[1..]) + rest;
      assert ArgsString(args) + rest == ArgString(args[0]) + ("," + (" " + more));
      FindArg(args[0], "," + (" " + more), depth, closing);
      FindComma(" " + more, depth, closing);
      FindWord(" ", more, depth, closing);
      FindArgs(args[1..], rest, depth, closing);
    }
  }

  lemma {:induction false} FindArg(a: TypeArg, rest: string, depth: int, closing: bool)
    requires PlainArg(a) && depth >= 0 && (closing ==> depth >= 1)
    ensures Find(ArgString(a) + rest, depth, None, closing) == Shift(|ArgString(a)|, Find(rest, depth, None, closing))
    decreases a, 2
  {
    hide Find, String, FormatInt, Escape, Plain;
    match a.value
    case TypeVal(t) =>
      FindType(t, rest, depth, closing);
      if a.tag != "" {
        var lead := a.tag + ": ";
        assert ArgString(a) + rest == lead + (String(t) + rest);
        FindWord(lead, String(t) + rest, depth, closing);
      } else {
        assert ArgString(a) == String(t);
      }
    case IntVal(n) =>
      DigitsAreWord(n);
      assert ArgString(a) == FormatInt(n);
      FindWord(FormatInt(n), rest, depth, closing);
    case BoolVal(b) =>
      FindWord(ArgString(a), rest, depth, closing);
    case StringVal(s) =>
      FindString(s, rest, depth, closing);
      assert ArgString(a) == "'" + Escape(s) + "'";
    case IdentVal(_) =>
    case NoVal =>
  }

  // ----- splitting what was printed -----

  /** Text that trimming leaves alone. */
  predicate Tight(s: string) { s != "" && !IsSpace(s[0]) && !IsSpace(s[|s| - 1]) }

  lemma {:induction false} TypeIsTight(t: TypeExpr)
    requires PlainRoot(t)
    ensures Tight(String(t)) && String(t)[0] == t.name[0] && String(t)[|String(t)| - 1] != ']'
  {
    hide ArgsString, PlainArgs, ParseInt;
    if t.args != [] {
      var s := String(t);
      assert s == t.name + ("(" + ArgsString(t.args)) + ")";
      assert s[|s| - 1] == ')';
    } else {
      assert String(t) == t.name;
    }
  }

  lemma {:induction false} ArgIsTight(a: TypeArg)
    requires PlainArg(a)
    ensures Tight(ArgString(a))
  {
    hide String, FormatInt, Escape, PlainRoot;
    match a.value
    case TypeVal(t) =>
      TypeIsTight(t);
      if a.tag != "" {
        var s := ArgString(a);
        assert s == (a.tag + ": ") + String(t);
        assert s[0] == a.tag[0] && s[|s| - 1] == String(t)[|String(t)| - 1];
      } else {
        assert ArgString(a) == String(t);
      }
    case IntVal(n) =>
      DigitsAreWord(n);
      assert ArgString(a) == FormatInt(n);
    case BoolVal(b) =>
    case StringVal(s) =>
      var v := "'" + Escape(s) + "'";
      assert ArgString(a) == v && v[0] == '\'' && v[|v| - 1] == '\'';
    case IdentVal(_) =>
    case NoVal =>
  }

  function ArgStrings(args: seq<TypeArg>): (r: seq<string>)
    ensures |r| == |args|
  {
    if args == [] then [] else [ArgString(args[0])] + ArgStrings(args[1..])
  }

  lemma {:induction false} FindAtComma(a: TypeArg, rest: string)
    requires PlainArg(a)
    ensures Find(ArgString(a) + ("," + rest), 0, None, false) == Some(|ArgString(a)|)
    ensures Find(" " + (ArgString(a) + ("," + rest)), 0, None, false) == Some(1 + |ArgString(a)|)
  {
    FindArg(a, "," + rest, 0, false);
    hide ArgString, PlainArg;
    FindWord(" ", ArgString(a) + ("," + rest), 0, false);
  }

  lemma {:induction false} FindNoComma(a: TypeArg)
    requires PlainArg(a)
    ensures Find(ArgString(a), 0, None, false) == None && Find(" " + ArgString(a), 0, None, false) == None
  {
    hide ArgString, PlainArg;
    FindArg(a, "", 0, false);
    assert ArgString(a) + "" == ArgString(a);
    FindWord(" ", ArgString(a), 0, false);
  }

  lemma {:induction false} PieceUpto(w: string, rest: string)
    requires Find(w + ("," + rest), 0, None, false) == Some(|w|)
    ensures Pieces(w + ("," + rest)) == [w] + Pieces(rest)
  {
    hide Find;
    var s := w + ("," + rest);
    assert s[..|w|] == w && s[|w| + 1..] == rest;
  }

  /** A piece starts with the blank that followed the comma, except the first one. */
  lemma {:induction false} PieceOf(lead: string, a: TypeArg, rest: string)
    requires PlainArg(a) && (lead == "" || lead == " ")
    ensures Pieces(lead + (ArgString(a) + ("," + rest))) == [lead + ArgString(a)] + Pieces(rest)
  {
    hide ArgString, PlainArg, Find, Pieces;
    FindAtComma(a, rest);
    var s := ArgString(a) + ("," + rest);
    assert "" + s == s;
    AppendAssoc(lead, ArgString(a), "," + rest);
    PieceUpto(lead + ArgString(a), rest);
  }

  lemma {:induction false} TrimLead(lead: string, s: string)
    requires Tight(s) && (lead == "" || lead == " ")
    ensures TrimSpace(lead + s) == s
  {
    assert "" + s == s;
    TrimNothing(s);
    TrimLeading(s);
  }

  lemma {:induction false} SplitArgs(lead: string, args: seq<TypeArg>)
    requires args != [] && PlainArgs(args) && (lead == "" || lead == " ")
    ensures TrimAll(Pieces(lead + ArgsString(args))) == ArgStrings(args)
    decreases |args|
  {
    hide ArgString, PlainArg, Pieces, Find, TrimSpace, TrimAll, ArgsString, ArgStrings;
    ArgIsTight(args[0]);
    TrimLead(lead, ArgString(args[0]));
    PrintedSteps(args);
    if |args| == 1 {
      LastPiece(lead, args[0]);
      TrimCons(lead + ArgString(args[0]), []);
    } else {
      var rest := " " + ArgsString(args[1..]);
      PieceOf(lead, args[0], rest);
      SplitArgs(" ", args[1..]);
      TrimCons(lead + ArgString(args[0]), Pieces(rest));
    }
  }

  lemma {:induction false} PrintedSteps(args: seq<TypeArg>)
    requires args != []
    ensures ArgStrings(args) == [ArgString(args[0])] + ArgStrings(args[1..])
    ensures |args| == 1 ==> ArgsString(args) == ArgString(args[0]) && ArgStrings(args) == [ArgString(args[0])]
    ensures |args| > 1 ==> ArgsString(args) == ArgString(args[0]) + ("," + (" " + ArgsString(args[1..])))
  {
    hide ArgString;
    if |args| == 1 {
      assert args[1..] == [];
    }
  }

  lemma {:induction false} LastPiece(lead: string, a: TypeArg)
    requires PlainArg(a) && (lead == "" || lead == " ")
    ensures Pieces(lead + ArgString(a)) == [lead + ArgString(a)]
  {
    hide ArgString, PlainArg, Find;
    FindNoComma(a);
    assert "" + ArgString(a) == ArgString(a);
  }

  lemma {:induction false} TrimCons(p: string, ps: seq<string>)
    ensures TrimAll([p] + ps) == [TrimSpace(p)] + TrimAll(ps)
    ensures TrimAll([p]) == [TrimSpace(p)]
  {
    hide TrimSpace;
    assert ([p] + ps)[1..] == ps && [p][1..] == [];
  }

  lemma {:induction false} ArgStringsTight(args: seq<TypeArg>)
    requires PlainArgs(args)
    ensures forall i :: 0 <= i < |args| ==> ArgStrings(args)[i] == ArgString(args[i]) && Tight(ArgStrings(args)[i]) && PlainArg(args[i])
  {
    hide ArgString, PlainArg;
    if args != [] {
      ArgIsTight(args[0]);
      ArgStringsTight(args[1..]);
    }
  }

  lemma {:induction false} ArgListOf(t: TypeExpr)
    requires PlainRoot(t) && t.args != []
    ensures ArgList(String(t)) == Some((|t.name|, |String(t)| - 1))
  {
    hide String, ArgList;
    ArgListThen(t, "");
    assert String(t) + "" == String(t);
  }

  lemma {:induction false} SplitPrinted(t: TypeExpr)
    requires PlainRoot(t)
    ensures SplitTypeArgs(String(t)) == Split(t.name, ArgStrings(t.args))
  {
    hide PlainArgs, ParseInt, ArgList, TrimSpace, ArgStrings, ArgsBetween;
    var s := String(t);
    TrimNothing(t.name);
    if t.args == [] {
      NoArgs(t);
    } else {
      ArgListOf(t);
      hide String, ArgsString;
      BetweenPrinted(t);
      assert s[..|t.name|] == t.name && s[|s|..] == "" by { PrintedParts(t); }
      TrimEmpty();
      assert t.name + "" == t.name;
    }
  }

  lemma {:induction false} TrimEmpty()
    ensures TrimSpace("") == ""
  {
  }

  lemma {:induction false} NoArgs(t: TypeExpr)
    requires PlainRoot(t) && t.args == []
    ensures ArgList(String(t)) == None && String(t) == t.name && ArgStrings(t.args) == []
  {
    assert String(t) == t.name;
  }

  lemma {:induction false} PrintedParts(t: TypeExpr)
    requires !t.nullable && t.args != []
    ensures |String(t)| == |t.name| + |ArgsString(t.args)| + 2
    ensures String(t)[..|t.name|] == t.name
    ensures String(t)[|t.name| + 1..|String(t)| - 1] == ArgsString(t.args)
  {
    assert String(t) == t.name + ("(" + ArgsString(t.args) + ")");
  }

  lemma {:induction false} InnerPrinted(args: seq<TypeArg>)
    requires args != [] && PlainArgs(args)
    ensures InnerArgs(ArgsString(args)) == ArgStrings(args)
  {
    hide ArgsString, Pieces, PlainArgs, ArgStrings, TrimSpace;
    SplitArgs("", args);
    ArgStringsTight(args);
    assert "" + ArgsString(args) == ArgsString(args);
    assert Tight(ArgStrings(args)[0]);
  }

  lemma {:induction false} BetweenPrinted(t: TypeExpr)
    requires PlainRoot(t) && t.args != []
    ensures |t.name| <= |String(t)| - 1 && ArgsBetween(String(t), |t.name|, |String(t)| - 1) == ArgStrings(t.args)
  {
    hide String, ArgsString, PlainName, InnerArgs, ArgStrings;
    PrintedParts(t);
    InnerPrinted(t.args);
  }

  // ----- literals -----

  lemma {:induction false} DigitsRoundTrip(n: nat)
    ensures DigitsValue(Digits(n)) == n
  {
    if n >= 10 {
      var s := Digits(n);
      assert s[..|s| - 1] == Digits(n / 10);
      DigitsRoundTrip(n / 10);
    } else {
      assert Digits(n)[..0] == "";
    }
  }

  lemma {:induction false} IntRoundTrip(n: int)
    requires Int64(n)
    ensures ParseInt(FormatInt(n)) == Some(n)
  {
    hide Digits, DigitsValue;
    var s := FormatInt(n);
    if n < 0 {
      DigitsRoundTrip(-n);
      assert s[1..] == Digits(-n) && s[..1] == "-";
    } else {
      DigitsRoundTrip(n);
      assert IsDigit(s[0]) && s[..1] == [s[0]];
    }
  }

  lemma {:induction false} QuotedEndOf(p: string, s: string, rest: string)
    requires PlainText(s) && (rest == "" || rest[0] != '\'')
    ensures QuotedEnd(p + (Escape(s) + ("'" + rest)), |p|) == |p| + |Escape(s)| + 1
    decreases |s|
  {
    var a := p + (Escape(s) + ("'" + rest));
    if s != "" {
      var c := Escape(s)[..|Escape(s)| - |Escape(s[1..])|];
      assert a == (p + c) + (Escape(s[1..]) + ("'" + rest));
      PlainTextTail(s);
      QuotedEndOf(p + c, s[1..], rest);
    }
  }

  lemma {:induction false} FirstReplace(s: string)
    requires PlainText(s)
    ensures Replace2(Escape(s), '\\', '\'', '\'') == s
  {
    if s != "" {
      PlainTextTail(s);
      FirstReplace(s[1..]);
      if s[0] == '\'' {
        assert Escape(s)[2..] == Escape(s[1..]);
      } else if s[1..] != "" {
        assert Escape(s)[1..] == Escape(s[1..]) && |Escape(s)| >= 2;
      }
    }
  }

  lemma {:induction false} SecondReplace(s: string)
    requires PlainText(s)
    ensures Replace2(s, '\'', '\'', '\'') == s
  {
    if |s| >= 2 {
      assert !DoubledAt(s, 0);
      PlainTextTail(s);
      SecondReplace(s[1..]);
    }
  }

  lemma {:induction false} UnescapeEscape(s: string)
    requires PlainText(s)
    ensures Unescape(Escape(s)) == s
  {
    hide Replace2, Escape;
    FirstReplace(s);
    SecondReplace(s);
  }

  // ----- ParseTypeExpr(String(t)) == t -----

  lemma {:induction false} NotLiteral(a: string, i: nat)
    requires 0 < i < |a| && a[i] in {'(', ':', ' '}
    ensures ParseInt(a).None? && ToLower(a) != "true" && ToLower(a) != "false"
  {
    hide DigitsValue, ToLower;
    ToLowerAt(a, i);
    var body := if HasPrefix(a, "-") || HasPrefix(a, "+") then a[1..] else a;
    assert a[i] == body[i - (|a| - |body|)];
  }

  lemma {:induction false} SameTrim(x: string, y: string)
    requires TrimSpace(x) == TrimSpace(y)
    ensures ParseTypeExpr(x) == ParseTypeExpr(y)
  {
    hide TrimSpace, SplitTypeArgs;
  }

  lemma {:induction false} ParseType(t: TypeExpr)
    requires Plain(t)
    ensures ParseTypeExpr(String(t)) == t
    decreases t, 1
  {
    hide String, SplitTypeArgs, TrimSpace, ArgStrings, ParseInt;
    TypeIsTight(t);
    TrimNothing(String(t));
    SplitPrinted(t);
    LowerNothing(t.name);
    if t.args != [] {
      ParseAllArgs(t.args, |String(t)| - 1);
    }
  }

  lemma {:induction false} ParseAllArgs(args: seq<TypeArg>, bound: nat)
    requires PlainArgs(args) && forall a :: a in ArgStrings(args) ==> |a| <= bound
    ensures ParseArgs(ArgStrings(args), bound) == args
    decreases args, 0
  {
    hide ParseTypeArg, ArgString, PlainArg;
    if args != [] {
      ParseArg(args[0]);
      assert ArgStrings(args)[1..] == ArgStrings(args[1..]);
      ParseAllArgs(args[1..], bound);
    }
  }

  lemma {:induction false} ParseArg(a: TypeArg)
    requires PlainArg(a)
    ensures ParseTypeArg(ArgString(a)) == a
    decreases a, 2
  {
    hide ParseTypeExpr, ParseInt, TrimSpace, ToLower, Plain, ParseWordArg, String, Escape, Unescape, QuotedEnd, FormatInt;
    ArgIsTight(a);
    TrimNothing(ArgString(a));
    match a.value
    case TypeVal(t) =>
      ParseType(t);
      if a.tag == "" {
        assert ArgString(a) == String(t);
        BareArg(t);
      } else {
        LabelledArg(a.tag, t);
      }
    case IntVal(n) =>
      IntRoundTrip(n);
      DigitsAreWord(n);
      assert ArgString(a) == FormatInt(n);
      assert WordChar(FormatInt(n)[0]);
    case BoolVal(b) =>
      assert ArgString(a) == if b then "true" else "false";
      BoolArg(b);
    case StringVal(s) =>
      assert ArgString(a) == "'" + Escape(s) + "'";
      StringArg(s);
    case IdentVal(_) =>
    case NoVal =>
  }

  lemma {:induction false} BoolArg(b: bool)
    ensures ParseTypeArg(if b then "true" else "false") == TypeArg("", BoolVal(b))
  {
    var s := if b then "true" else "false";
    TrimNothing(s);
    LowerNothing(s);
    hide ToLower, TrimSpace;
    assert !IsDigit(s[0]);
  }

  lemma {:induction false} StringArg(s: string)
    requires PlainText(s)
    ensures ParseTypeArg("'" + Escape(s) + "'") == TypeArg("", StringVal(s))
  {
    hide Escape, Unescape, ParseInt, ToLower, TrimSpace, QuotedEnd, ParseTypeExpr;
    var a := "'" + Escape(s) + "'";
    assert a == "'" + (Escape(s) + "'") && a[0] == '\'' && a[|a| - 1] == '\'' && a[..1] == "'";
    TrimNothing(a);
    QuotedEndOf("'", s, "");
    assert "'" + "" == "'";
    assert a[1..|a| - 1] == Escape(s) && a[|a|..] == "";
    TrimEmpty();
    UnescapeEscape(s);
  }

  lemma {:induction false} HeadOf(t: TypeExpr, lead: string)
    requires Plain(t) && '(' !in lead
    ensures Head(lead + String(t)) == lead + t.name
    ensures t.args != [] ==> |String(t)| > |t.name| && (lead + String(t))[|lead| + |t.name|] == '('
  {
    hide ArgsString, PlainArgs, ParseInt;
    var a := lead + String(t);
    if t.args == [] {
      assert a == lead + t.name && '(' !in a;
    } else {
      assert a == (lead + t.name) + ['('] + (ArgsString(t.args) + ")");
      assert '(' !in lead + t.name;
      IndexOfFirst(lead + t.name, '(', ArgsString(t.args) + ")");
      assert a[..|lead + t.name|] == lead + t.name;
    }
  }

  lemma {:induction false} BareWord(t: TypeExpr)
    requires Plain(t) && ParseTypeExpr(String(t)) == t
    ensures ParseWordArg(String(t)) == TypeArg("", TypeVal(t))
  {
    hide ParseTypeExpr, TrimSpace, String, PlainArgs, ParseInt, Head;
    HeadOf(t, "");
    assert "" + String(t) == String(t) && "" + t.name == t.name;
    assert ':' !in t.name && ' ' !in t.name;
  }

  lemma {:induction false} BareNotLiteral(t: TypeExpr)
    requires Plain(t)
    ensures ParseInt(String(t)).None? && ToLower(String(t)) != "true" && ToLower(String(t)) != "false"
  {
    hide String, PlainArgs, ToLower, ParseInt, Head;
    HeadOf(t, "");
    assert "" + String(t) == String(t);
    LowerNothing(t.name);
    if t.args == [] {
      NoArgs(t);
    } else {
      NotLiteral(String(t), |t.name|);
    }
  }

  lemma {:induction false} BareArg(t: TypeExpr)
    requires Plain(t) && ParseTypeExpr(String(t)) == t
    ensures ParseTypeArg(String(t)) == TypeArg("", TypeVal(t))
  {
    hide ParseTypeExpr, TrimSpace, String, PlainArgs, ToLower, ParseInt, ParseWordArg, QuotedEnd, Unescape;
    TypeIsTight(t);
    TrimNothing(String(t));
    BareNotLiteral(t);
    BareWord(t);
    assert WordChar(t.name[0]);
    assert String(t)[..1] == [t.name[0]];
  }

  lemma {:induction false} LabelledArg(tag: string, t: TypeExpr)
    requires Plain(t) && Word(tag) && ParseTypeExpr(String(t)) == t
    ensures ParseTypeArg(tag + ": " + String(t)) == TypeArg(tag, TypeVal(t))
  {
    hide ParseTypeExpr, TrimSpace, String, ToLower, ParseInt, PlainRoot, ParseWordArg;
    var a := tag + ": " + String(t);
    TypeIsTight(t);
    assert a[0] == tag[0] && a[|a| - 1] == String(t)[|String(t)| - 1] && a[|tag|] == ':';
    TrimNothing(a);
    NotLiteral(a, |tag|);
    assert WordChar(tag[0]) && a[..1] == [tag[0]];
    LabelledWord(tag, t);
  }

  lemma {:induction false} LabelParts(tag: string, s: string)
    ensures var a := tag + ": " + s;
            a[..|tag|] == tag && a[|tag| + 1..] == " " + s && a == tag + [':'] + (" " + s)
  {
  }

  lemma {:induction false} AfterLabel(t: TypeExpr)
    requires Plain(t) && ParseTypeExpr(String(t)) == t
    ensures ParseTypeExpr(" " + String(t)) == t
  {
    hide ParseTypeExpr, TrimSpace, String;
    TypeIsTight(t);
    TrimLeading(String(t));
    TrimNothing(String(t));
    SameTrim(" " + String(t), String(t));
  }

  lemma {:induction false} LabelledWord(tag: string, t: TypeExpr)
    requires Plain(t) && Word(tag) && ParseTypeExpr(String(t)) == t
    ensures ParseWordArg(tag + ": " + String(t)) == TypeArg(tag, TypeVal(t))
  {
    hide ParseTypeExpr, TrimSpace, String, Plain, Head, IndexOf;
    HeadOf(t, tag + ": ");
    LabelParts(tag, t.name);
    LabelParts(tag, String(t));
    IndexOfFirst(tag, ':', " " + t.name);
    AfterLabel(t);
    TrimNothing(tag);
  }

  // ----- other spellings -----

  /** `'label' = value` */
  lemma {:induction false} ParseQuotedLabel(tag: string, b: TypeArg)
    requires PlainText(tag) && PlainArg(b) && b.tag == ""
    ensures ParseTypeArg("'" + Escape(tag) + "' = " + ArgString(b)) == b.(tag := tag)
  {
    hide Escape, Unescape, ParseInt, ToLower, TrimSpace, QuotedEnd, ParseTypeExpr, ArgString, PlainArg, ParseWordArg;
    var v := ArgString(b);
    var a := "'" + Escape(tag) + "' = " + v;
    ArgIsTight(b);
    QuotedEndOf("'", tag, " = " + v);
    var end := 1 + |Escape(tag)| + 1;
    assert a == "'" + (Escape(tag) + ("'" + (" = " + v)));
    assert a[1..end - 1] == Escape(tag) && a[end..] == " = " + v && a[..1] == "'";
    assert a[0] == '\'' && a[|a| - 1] == v[|v| - 1];
    TrimNothing(a);
    UnescapeEscape(tag);
    AfterEquals(v);
    ParseArg(b);
    ParseTypeArgTrimmed(" " + v, v);
    assert ("= " + v)[..1] == "=" && ("= " + v)[1..] == " " + v;
  }

  lemma {:induction false} AfterEquals(v: string)
    requires Tight(v)
    ensures TrimSpace(" = " + v) == "= " + v && TrimSpace(" " + v) == TrimSpace(v)
  {
    var w := "= " + v;
    assert " = " + v == " " + w && w[0] == '=' && w[|w| - 1] == v[|v| - 1];
    TrimLeading(w);
    TrimLeading(v);
    TrimNothing(v);
  }

  lemma {:induction false} ParseTypeArgTrimmed(x: string, y: string)
    requires TrimSpace(x) == TrimSpace(y)
    ensures ParseTypeArg(x) == ParseTypeArg(y)
  {
    hide TrimSpace, ParseInt, ToLower, QuotedEnd, Unescape, ParseWordArg, ParseTypeExpr;
  }

  /** A quote inside a string may be doubled as well as escaped. */
  function Doubled(s: string): string {
    if s == "" then "" else (if s[0] == '\'' then "''" else [s[0]]) + Doubled(s[1..])
  }

  lemma {:induction false} DoubledEnd(p: string, s: string)
    requires '\\' !in s
    ensures QuotedEnd(p + (Doubled(s) + "'"), |p|) == |p| + |Doubled(s)| + 1
    decreases |s|
  {
    var a := p + (Doubled(s) + "'");
    if s != "" {
      var c := if s[0] == '\'' then "''" else [s[0]];
      assert Doubled(s) == c + Doubled(s[1..]);
      assert a == (p + c) + (Doubled(s[1..]) + "'");
      DoubledEnd(p + c, s[1..]);
    }
  }

  lemma {:induction false} NothingEscaped(s: string)
    requires '\\' !in s
    ensures Replace2(s, '\\', '\'', '\'') == s
  {
    if |s| >= 2 {
      NothingEscaped(s[1..]);
    }
  }

  lemma {:induction false} DoubledBack(s: string)
    requires '\\' !in s
    ensures '\\' !in Doubled(s) && Replace2(Doubled(s), '\'', '\'', '\'') == s
  {
    if s != "" {
      DoubledBack(s[1..]);
      var d := Doubled(s[1..]);
      if s[0] == '\'' {
        assert Doubled(s)[2..] == d;
      } else {
        assert Doubled(s)[1..] == d;
        assert s == [s[0]] + s[1..];
        if d == "" {
          assert s[1..] == "";
        }
      }
    }
  }

  lemma {:induction false} ParseDoubled(s: string)
    requires '\\' !in s
    ensures ParseTypeArg("'" + Doubled(s) + "'") == TypeArg("", StringVal(s))
  {
    hide Doubled, Replace2, ParseInt, ToLower, TrimSpace, QuotedEnd, ParseTypeExpr;
    var a := "'" + Doubled(s) + "'";
    assert a == "'" + (Doubled(s) + "'") && a[0] == '\'' && a[|a| - 1] == '\'' && a[..1] == "'";
    TrimNothing(a);
    DoubledEnd("'", s);
    assert a[1..|a| - 1] == Doubled(s) && a[|a|..] == "";
    TrimEmpty();
    DoubledBack(s);
    NothingEscaped(Doubled(s));
  }

  /** `timestamp(6) with time zone`: words behind the arguments belong to the name. */
  lemma {:induction false} ParseWordsBehind(t: TypeExpr, words: string)
    requires Plain(t) && t.args != [] && Tight(words) && Lower(words) && words[|words| - 1] != ']'
    ensures ParseTypeExpr(String(t) + " " + words) == t.(name := t.name + " " + words)
  {
    hide String, SplitTypeArgs, TrimSpace, ArgStrings, ParseInt, PlainArgs, PlainName, ToLower, IsSpace, ParseArgs;
    var s := String(t) + " " + words;
    TypeIsTight(t);
    assert s[0] == String(t)[0] && s[|s| - 1] == words[|words| - 1];
    TrimNothing(s);
    SplitWordsBehind(t, words);
    var name := t.name + " " + words;
    LowerBoth(t.name, words);
    WithSpace(t.name, words);
    NoSuffix(s);
    ParseAllArgs(t.args, |s| - 1);
    ParseSplit(s, name, ArgStrings(t.args));
  }

  lemma {:induction false} NoSuffix(s: string)
    requires s != "" && s[|s| - 1] != ']'
    ensures !HasSuffix(s, "[]")
  {
    if |s| >= 2 {
      assert s[|s| - 2..][1] == s[|s| - 1];
    }
  }

  /** What is parsed once the text is split. */
  lemma {:induction false} ParseSplit(s: string, name: string, args: seq<string>)
    requires TrimSpace(s) == s && !HasSuffix(s, "[]") && SplitTypeArgs(s) == Split(name, args) && args != []
    requires ToLower(name) == name && name != "nullable"
    requires forall a :: a in args ==> |a| <= |s| - 1
    ensures ParseTypeExpr(s) == TypeExpr(name, false, ParseArgs(args, |s| - 1))
  {
    hide SplitTypeArgs, TrimSpace, ToLower, ParseArgs;
  }

  lemma {:induction false} WithSpace(a: string, b: string)
    ensures ' ' in a + " " + b && a + " " + b != "nullable" && (a + " " + b)[|a|] == ' '
  {
    assert (a + " " + b)[|a|] == ' ';
    assert ' ' !in "nullable";
  }

  lemma {:induction false} LowerBoth(a: string, b: string)
    requires PlainName(a) && Lower(b)
    ensures ToLower(a + " " + b) == a + " " + b
  {
    hide ParseInt;
    LowerNothing(a + " " + b);
  }

  lemma {:induction false} SplitWordsBehind(t: TypeExpr, words: string)
    requires Plain(t) && t.args != [] && Tight(words)
    ensures SplitTypeArgs(String(t) + " " + words) == Split(t.name + " " + words, ArgStrings(t.args))
  {
    hide PlainArgs, ParseInt, ArgList, TrimSpace, ArgStrings, ArgsBetween, String, ArgsString;
    var s, n := String(t) + " " + words, |String(t)|;
    PrintedParts(t);
    ArgListThen(t, " " + words);
    assert String(t) + (" " + words) == s;
    BetweenPrinted(t);
    BetweenPrefix(String(t), " " + words, |t.name|, n - 1);
    assert s[..|t.name|] == t.name && s[n..] == " " + words;
    TrimNothing(t.name);
    TrimLeading(words);
  }

  lemma {:induction false} BetweenPrefix(s: string, rest: string, open: nat, close: nat)
    requires open < close < |s|
    ensures ArgsBetween(s + rest, open, close) == ArgsBetween(s, open, close)
  {
    hide InnerArgs;
    SliceAppend(s, rest, open + 1, close);
  }

  lemma {:induction false} ArgListThen(t: TypeExpr, rest: string)
    requires PlainRoot(t) && t.args != []
    ensures ArgList(String(t) + rest) == Some((|t.name|, |String(t)| - 1))
  {
    hide ArgsString, PlainArgs, Find, ParseInt, IndexOf;
    var inner := ArgsString(t.args);
    var s := String(t) + rest;
    assert String(t) == t.name + "(" + inner + ")";
    assert s == t.name + ['('] + (inner + (")" + rest));
    assert '(' !in t.name;
    IndexOfFirst(t.name, '(', inner + (")" + rest));
    assert s[|t.name|..] == "(" + (inner + (")" + rest));
    FindOpen(inner + (")" + rest), 0, true);
    FindArgs(t.args, ")" + rest, 1, true);
    assert Find(")" + rest, 1, None, true) == Some(0) by { FindEndThen(rest); }
  }

  lemma {:induction false} FindEndThen(rest: string)
    ensures Find(")" + rest, 1, None, true) == Some(0)
  {
  }

  /** `nullable(t)` */
  lemma {:induction false} ParseNullable(t: TypeExpr)
    requires Plain(t)
    ensures ParseTypeExpr("nullable(" + String(t) + ")") == t.(nullable := true)
  {
    hide String, SplitTypeArgs, TrimSpace, ParseInt, ToLower;
    var a := TypeArg("", TypeVal(t));
    var u := TypeExpr("nullable", false, [a]);
    NullableRoot(t);
    PrintedNullable(t);
    TypeIsTight(u);
    TrimNothing(String(u));
    SplitPrinted(u);
    LowerNothing("nullable");
    ParseType(t);
  }

  lemma {:induction false} NullableRoot(t: TypeExpr)
    requires Plain(t)
    ensures PlainRoot(TypeExpr("nullable", false, [TypeArg("", TypeVal(t))]))
  {
    hide Plain, DigitsValue;
    var args := [TypeArg("", TypeVal(t))];
    assert args[1..] == [] && PlainArgs([]) && PlainArg(args[0]);
    assert PlainName("nullable") by { NullableName(); }
  }

  lemma {:induction false} NullableName()
    ensures PlainName("nullable")
  {
    hide DigitsValue;
    var w := "nullable";
    assert |w| == 8 && |"true"| == 4 && |"false"| == 5 && w[0] == 'n' && w[..1] == "n";
    assert !AllDigits(w);
  }

  lemma {:induction false} PrintedNullable(t: TypeExpr)
    ensures var u := TypeExpr("nullable", false, [TypeArg("", TypeVal(t))]);
            String(u) == "nullable(" + String(t) + ")" && ArgStrings(u.args) == [String(t)]
  {
    hide String;
    var a := TypeArg("", TypeVal(t));
    assert ArgString(a) == String(t);
    assert ArgsString([a]) == ArgString(a) && [a][1..] == [];
    PrintedOne(TypeExpr("nullable", false, [a]));
  }

  lemma {:induction false} PrintedOne(u: TypeExpr)
    requires u.args != [] && !u.nullable
    ensures String(u) == u.name + "(" + ArgsString(u.args) + ")"
  {
    hide ArgsString;
  }

  /** `t[]` */
  lemma {:induction false} ParseArray(t: TypeExpr)
    requires Plain(t)
    ensures ParseTypeExpr(String(t) + "[]") == ArrayOf(t)
  {
    hide String, SplitTypeArgs, TrimSpace;
    TypeIsTight(t);
    var s := String(t) + "[]";
    assert s[0] == String(t)[0] && s[|s| - 1] == ']';
    TrimNothing(s);
    assert s[..|s| - 2] == String(t) && s[|s| - 2..] == "[]";
    ParseType(t);
  }

  /** `label t` */
  lemma {:induction false} ParseSpaceLabel(tag: string, t: TypeExpr)
    requires Plain(t) && Word(tag)
    ensures ParseTypeArg(tag + " " + String(t)) == TypeArg(tag, TypeVal(t))
  {
    hide ParseTypeExpr, TrimSpace, String, ToLower, ParseInt, PlainRoot, ParseWordArg;
    var a := tag + " " + String(t);
    TypeIsTight(t);
    assert a[0] == tag[0] && a[|a| - 1] == String(t)[|String(t)| - 1] && a[|tag|] == ' ';
    TrimNothing(a);
    NotLiteral(a, |tag|);
    assert WordChar(tag[0]) && a[..1] == [tag[0]];
    SpaceWord(tag, t);
  }

  lemma {:induction false} SpaceWord(tag: string, t: TypeExpr)
    requires Plain(t) && Word(tag)
    ensures ParseWordArg(tag + " " + String(t)) == TypeArg(tag, TypeVal(t))
  {
    hide ParseTypeExpr, TrimSpace, String, Head, IndexOf, PlainArgs, ParseInt;
    var a := tag + " " + String(t);
    HeadOf(t, tag + " ");
    assert Head(a) == tag + [' '] + t.name;
    IndexOfFirst(tag, ' ', t.name);
    assert ':' !in Head(a);
    assert (tag + " " + t.name)[|tag| + 1..] == t.name && a[..|tag|] == tag && a[|tag| + 1..] == String(t);
    TrimNothing(t.name);
    assert ' ' !in t.name;
    ParseType(t);
  }

  /** The parser undoes the printer on plain expressions. */
  lemma {:induction false} ParseUndoesString(t: TypeExpr)
    requires Plain(t)
    ensures ParseTypeExpr(String(t)) == t
  {
    ParseType(t);
  }

  /** Hence distinct plain expressions never share a spelling. */
  lemma {:induction false} KeyInjective(t: TypeExpr, u: TypeExpr)
    requires Plain(t) && Plain(u) && Key(t) == Key(u)
    ensures t == u
  {
    ParseType(t);
    ParseType(u);
  }

  // ----- outside the fragment -----

  /** A bare word and a type of that name print alike: this is why `Ident` arguments are excluded. */
  lemma {:induction false} IdentPrintsAsType(name: string, word: string)
    ensures var t := TypeExpr(name, false, [TypeArg("", IdentVal(word))]);
            var u := TypeExpr(name, false, [TypeArg("", TypeVal(TypeExpr(word, false, [])))]);
            t != u && Key(t) == Key(u)
  {
    var a, b := TypeArg("", IdentVal(word)), TypeArg("", TypeVal(TypeExpr(word, false, [])));
    assert ArgString(a) == word;
    assert String(TypeExpr(word, false, [])) == word;
    assert ArgString(b) == word;
    assert ArgsString([a]) == ArgString(a) && ArgsString([b]) == ArgString(b);
  }
}
