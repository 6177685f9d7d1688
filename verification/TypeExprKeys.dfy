/** Keys tell types apart: the printed form can be read in one way only, nullable marks at any depth
    included. No parser is involved; each part ends where a character shows that it does. */
module TypeExprKeys {
  import opened Common
  import opened Text
  import opened TypeExprs
  import TypeExprRoundTrip

  // ----- the fragment -----

  const MARK := " nullable"

  predicate NameChar(c: char) { c !in {'(', ')', ',', ':', '\''} }

  predicate Unbroken(w: string) { forall i :: 0 <= i < |w| ==> NameChar(w[i]) }

  /** A name, of several words perhaps, that does not end like a mark and reads as no literal. */
  predicate ReadableName(w: string) {
    Unbroken(w) && !HasSuffix(w, MARK) && ParseInt(w).None? && w != "true" && w != "false"
  }

  /** Marks and labels may stand anywhere; bare-word arguments print like types and are excluded. */
  predicate Readable(t: TypeExpr)
    decreases t, 1
  {
    ReadableName(t.name) && ReadableArgs(t.args)
  }

  predicate ReadableArgs(args: seq<TypeArg>)
    decreases args, 0
  {
    args == [] || (ReadableArg(args[0]) && ReadableArgs(args[1..]))
  }

  predicate ReadableArg(a: TypeArg)
    decreases a, 2
  {
    Unbroken(a.tag) && ReadableValue(a.value)
  }

  predicate ReadableValue(v: ArgValue)
    decreases v, 2
  {
    match v
    case TypeVal(t) => Readable(t)
    case IntVal(n) => Int64(n)
    case BoolVal(_) => true
    case StringVal(s) => '\\' !in s
    case IdentVal(_) => false
    case NoVal => false
  }

  // ----- where a part ends -----

  ghost predicate Breaks(x: string) { x == "" || !NameChar(x[0]) }

  /** What may follow an argument: nothing, the next argument, or the end of the list. */
  ghost predicate Stop(x: string) { x == "" || x[0] == ',' || x[0] == ')' }

  lemma {:induction false} FirstOf(w: string, x: string)
    ensures w != "" ==> (w + x)[0] == w[0]
  {
  }

  lemma {:induction false} SameSpan(w: string, x: string, v: string, y: string)
    requires Unbroken(w) && Unbroken(v) && Breaks(x) && Breaks(y) && w + x == v + y
    ensures w == v && x == y
  {
    if w == "" || v == "" {
      assert "" + x == x && "" + y == y;
      FirstOf(w, x);
      FirstOf(v, y);
    } else {
      assert (w + x)[0] == w[0] && (v + y)[0] == v[0];
      assert (w + x)[1..] == w[1..] + x && (v + y)[1..] == v[1..] + y;
      SameSpan(w[1..], x, v[1..], y);
      assert w == [w[0]] + w[1..] && v == [v[0]] + v[1..];
    }
  }

  function Mark(nullable: bool): string { if nullable then MARK else "" }

  lemma {:induction false} SameMarked(w: string, m: bool, v: string, n: bool)
    requires !HasSuffix(w, MARK) && !HasSuffix(v, MARK) && w + Mark(m) == v + Mark(n)
    ensures w == v && m == n
  {
    assert |MARK| == 9;
    assert w + "" == w && v + "" == v;
    if m {
      assert (w + MARK)[|w|..] == MARK;
    }
    if n {
      assert (v + MARK)[|v|..] == MARK;
    }
    if m == n {
      assert (w + Mark(m))[..|w|] == w && (v + Mark(n))[..|v|] == v;
    }
  }

  lemma {:induction false} MarkThenStop(m: bool, x: string, n: bool, y: string)
    requires Stop(x) && Stop(y) && Mark(m) + x == Mark(n) + y
    ensures m == n && x == y
  {
    assert MARK[0] == ' ';
    assert "" + x == x && "" + y == y && (MARK + x)[0] == ' ' && (MARK + y)[0] == ' ';
    if m == n {
      assert (Mark(m) + x)[|Mark(m)|..] == x && (Mark(n) + y)[|Mark(n)|..] == y;
    }
  }

  // ----- what a value starts with -----

  function Head(v: ArgValue): string {
    match v
    case TypeVal(t) => if t.args == [] then t.name + Mark(t.nullable) else t.name
    case StringVal(_) => ""
    case _ => ValueString(v)
  }

  function Tail(v: ArgValue): string {
    match v
    case TypeVal(t) => if t.args == [] then "" else "(" + ArgsString(t.args) + ")" + Mark(t.nullable)
    case StringVal(s) => "'" + Escape(s) + "'"
    case _ => ""
  }

  lemma {:induction false} TypeParts(t: TypeExpr)
    ensures t.args == [] ==> String(t) == t.name + Mark(t.nullable)
    ensures t.args != [] ==> String(t) == t.name + ("(" + ArgsString(t.args) + ")" + Mark(t.nullable))
  {
    hide ArgsString;
  }

  lemma {:induction false} HeadTail(v: ArgValue)
    requires ReadableValue(v)
    ensures ValueString(v) == Head(v) + Tail(v) && Unbroken(Head(v))
    ensures match v
            case TypeVal(t) => Tail(v) == "" || Tail(v)[0] == '('
            case StringVal(_) => Tail(v) != "" && Tail(v)[0] == '\''
            case _ => Tail(v) == ""
  {
    hide Escape, FormatInt, ArgsString, String;
    match v
    case TypeVal(t) => TypeParts(t);
    case IntVal(n) => IntUnbroken(n);
    case BoolVal(_) =>
    case StringVal(s) =>
  }

  lemma {:induction false} IntUnbroken(n: int)
    ensures Unbroken(FormatInt(n))
  {
    assert forall c: char :: IsDigit(c) ==> NameChar(c);
  }

  /** Values that end at the same place in the same text have one beginning. */
  lemma {:induction false} SameHead(v: ArgValue, x: string, u: ArgValue, y: string)
    requires ReadableValue(v) && ReadableValue(u) && Stop(x) && Stop(y) && ValueString(v) + x == ValueString(u) + y
    ensures Head(v) == Head(u) && Tail(v) + x == Tail(u) + y
  {
    hide Head, Tail, ValueString;
    HeadTail(v);
    HeadTail(u);
    AppendAssoc(Head(v), Tail(v), x);
    AppendAssoc(Head(u), Tail(u), y);
    BreakAfter(Tail(v), x);
    BreakAfter(Tail(u), y);
    SameSpan(Head(v), Tail(v) + x, Head(u), Tail(u) + y);
  }

  lemma {:induction false} BreakAfter(a: string, x: string)
    requires Breaks(a) && Stop(x)
    ensures Breaks(a + x)
    ensures a != "" ==> (a + x)[0] == a[0]
    ensures a == "" ==> a + x == x
  {
  }

  // ----- literals -----

  lemma {:induction false} SameInt(m: int, n: int)
    requires Int64(m) && Int64(n) && FormatInt(m) == FormatInt(n)
    ensures m == n
  {
    hide FormatInt, ParseInt;
    TypeExprRoundTrip.IntRoundTrip(m);
    TypeExprRoundTrip.IntRoundTrip(n);
  }

  lemma {:induction false} MarkedNoInt(w: string)
    ensures ParseInt(w + MARK).None?
  {
    hide DigitsValue;
    var s := w + MARK;
    assert s[|s| - 1] == 'e';
    var body := if HasPrefix(s, "-") || HasPrefix(s, "+") then s[1..] else s;
    assert body[|body| - 1] == 'e';
  }

  /** A type without arguments never prints as a literal. */
  lemma {:induction false} TypeNoLiteral(t: TypeExpr, v: ArgValue)
    requires Readable(t) && t.args == [] && (v.IntVal? || v.BoolVal?) && ReadableValue(v)
    ensures t.name + Mark(t.nullable) != ValueString(v)
  {
    hide FormatInt, ParseInt, ReadableArgs;
    assert t.name + "" == t.name && |MARK| == 9;
    if v.IntVal? {
      TypeExprRoundTrip.IntRoundTrip(v.n);
      MarkedNoInt(t.name);
    }
  }

  lemma {:induction false} IntNoBool(n: int, b: bool)
    requires Int64(n)
    ensures FormatInt(n) != if b then "true" else "false"
  {
    TypeExprRoundTrip.IntRoundTrip(n);
    hide FormatInt, DigitsValue;
    assert "true"[0] == 't' && "false"[0] == 'f';
    assert ParseInt("true").None? && ParseInt("false").None?;
  }

  lemma {:induction false} SameText(s: string, x: string, t: string, y: string)
    requires '\\' !in s && '\\' !in t && Escape(s) + ("'" + x) == Escape(t) + ("'" + y)
    ensures s == t && x == y
  {
    EscapeFirst(s, "'" + x);
    EscapeFirst(t, "'" + y);
    if s == "" && t == "" {
      assert ("'" + x)[1..] == x && ("'" + y)[1..] == y;
    } else if s != "" && t != "" {
      SameText(s[1..], x, t[1..], y);
      assert s == [s[0]] + s[1..] && t == [t[0]] + t[1..];
    }
  }

  lemma {:induction false} EscapeFirst(s: string, rest: string)
    requires '\\' !in s && rest != "" && rest[0] == '\''
    ensures s == "" ==> Escape(s) + rest == rest
    ensures s != "" && s[0] == '\'' ==> (Escape(s) + rest)[0] == '\\' && (Escape(s) + rest)[2..] == Escape(s[1..]) + rest
    ensures s != "" && s[0] != '\'' ==> (Escape(s) + rest)[0] == s[0] && (Escape(s) + rest)[1..] == Escape(s[1..]) + rest
  {
    if s != "" {
      if s[0] == '\'' {
        assert Escape(s) == "\\'" + Escape(s[1..]);
      } else {
        assert Escape(s) == [s[0]] + Escape(s[1..]);
      }
    }
  }

  lemma {:induction false} SameString(s: string, x: string, t: string, y: string)
    requires '\\' !in s && '\\' !in t && ("'" + Escape(s) + "'") + x == ("'" + Escape(t) + "'") + y
    ensures s == t && x == y
  {
    hide Escape;
    var a, b := ("'" + Escape(s) + "'") + x, ("'" + Escape(t) + "'") + y;
    assert a[1..] == Escape(s) + ("'" + x) && b[1..] == Escape(t) + ("'" + y);
    SameText(s, x, t, y);
  }

  // ----- one reading -----

  lemma {:induction false} OneType(t: TypeExpr, x: string, u: TypeExpr, y: string)
    requires Readable(t) && Readable(u) && Stop(x) && Stop(y) && String(t) + x == String(u) + y
    ensures t == u && x == y
    decreases t, 1
  {
    hide String, ArgsString, ParseInt, ReadableArgs, NameChar, HasSuffix;
    SameHead(TypeVal(t), x, TypeVal(u), y) by { hide Head, Tail; ValueOfType(t); ValueOfType(u); }
    TailOfType(t, x);
    TailOfType(u, y);
    if t.args == [] && u.args == [] {
      SameMarked(t.name, t.nullable, u.name, u.nullable);
    } else if t.args != [] && u.args != [] {
      OneArgs(t.args, ")" + (Mark(t.nullable) + x), u.args, ")" + (Mark(u.nullable) + y));
      assert (")" + (Mark(t.nullable) + x))[1..] == Mark(t.nullable) + x;
      assert (")" + (Mark(u.nullable) + y))[1..] == Mark(u.nullable) + y;
      MarkThenStop(t.nullable, x, u.nullable, y);
    }
  }

  lemma {:induction false} ValueOfType(t: TypeExpr)
    ensures ValueString(TypeVal(t)) == String(t) && (ReadableValue(TypeVal(t)) <==> Readable(t))
  {
  }

  /** After its beginning a type goes on with its arguments, if it has any. */
  lemma {:induction false} TailOfType(t: TypeExpr, x: string)
    ensures t.args == [] ==> Tail(TypeVal(t)) + x == x
    ensures t.args != [] ==>
              var rest := Tail(TypeVal(t)) + x;
              rest != "" && rest[0] == '(' && rest[1..] == ArgsString(t.args) + (")" + (Mark(t.nullable) + x))
  {
    hide ArgsString, Mark;
    if t.args == [] {
      assert "" + x == x;
    } else {
      var a := ArgsString(t.args);
      assert ("(" + a + ")" + Mark(t.nullable)) + x == "(" + (a + (")" + (Mark(t.nullable) + x)));
    }
  }

  lemma {:induction false} OneValue(v: ArgValue, x: string, u: ArgValue, y: string)
    requires ReadableValue(v) && ReadableValue(u) && Stop(x) && Stop(y) && ValueString(v) + x == ValueString(u) + y
    ensures v == u && x == y
    decreases v, 2
  {
    hide String, ParseInt, FormatInt, Escape, Readable, Head, Tail;
    if v.TypeVal? && u.TypeVal? {
      OneType(v.t, x, u.t, y);
    } else if v.StringVal? && u.StringVal? {
      SameString(v.s, x, u.s, y);
    } else {
      SameHead(v, x, u, y);
      HeadTail(v);
      HeadTail(u);
      BreakAfter(Tail(v), x);
      BreakAfter(Tail(u), y);
      Literals(v, u);
    }
  }

  /** Values without a tail that print alike are equal. */
  lemma {:induction false} Literals(v: ArgValue, u: ArgValue)
    requires ReadableValue(v) && ReadableValue(u) && !(v.TypeVal? && u.TypeVal?)
    ensures Head(v) == Head(u) && Tail(v) == "" && Tail(u) == "" ==> v == u
  {
    hide String, ParseInt, FormatInt, Escape, ArgsString, Readable;
    if v.TypeVal? && v.t.args == [] && (u.IntVal? || u.BoolVal?) {
      TypeNoLiteral(v.t, u);
    }
    if u.TypeVal? && u.t.args == [] && (v.IntVal? || v.BoolVal?) {
      TypeNoLiteral(u.t, v);
    }
    if v.IntVal? && u.IntVal? && Head(v) == Head(u) {
      SameInt(v.n, u.n);
    }
    if v.IntVal? && u.BoolVal? {
      IntNoBool(v.n, u.b);
    }
    if u.IntVal? && v.BoolVal? {
      IntNoBool(u.n, v.b);
    }
    if v.BoolVal? && u.BoolVal? {
      assert |"true"| != |"false"|;
    }
  }

  lemma {:induction false} OneArg(a: TypeArg, x: string, b: TypeArg, y: string)
    requires ReadableArg(a) && ReadableArg(b) && Stop(x) && Stop(y) && ArgString(a) + x == ArgString(b) + y
    ensures a == b && x == y
    decreases a, 2
  {
    hide ValueString, ReadableValue;
    ArgParts(a, x);
    ArgParts(b, y);
    if a.tag != "" && b.tag != "" {
      var v, w := ValueString(a.value) + x, ValueString(b.value) + y;
      SameSpan(a.tag, ": " + v, b.tag, ": " + w);
      assert (": " + v)[2..] == v && (": " + w)[2..] == w;
      OneValue(a.value, x, b.value, y);
    } else if a.tag == "" && b.tag == "" {
      OneValue(a.value, x, b.value, y);
    } else if a.tag != "" {
      LabelShows(a.tag, ValueString(a.value) + x, b.value, y);
    } else {
      LabelShows(b.tag, ValueString(b.value) + y, a.value, x);
    }
  }

  lemma {:induction false} ArgParts(a: TypeArg, x: string)
    ensures a.tag == "" ==> ArgString(a) + x == ValueString(a.value) + x
    ensures a.tag != "" ==> ArgString(a) + x == a.tag + (": " + (ValueString(a.value) + x))
  {
    hide ValueString;
    var v := ValueString(a.value);
    if a.tag == "" {
      assert "" + v == v;
    } else {
      assert (a.tag + ": " + v) + x == a.tag + (": " + (v + x));
    }
  }

  /** An argument with a label is told from one without by the colon. */
  lemma {:induction false} LabelShows(tag: string, rest: string, v: ArgValue, x: string)
    requires Unbroken(tag) && ReadableValue(v) && Stop(x)
    ensures tag + (": " + rest) != ValueString(v) + x
  {
    hide ValueString, ReadableValue, Head, Tail;
    HeadTail(v);
    AppendAssoc(Head(v), Tail(v), x);
    BreakAfter(Tail(v), x);
    if tag + (": " + rest) == ValueString(v) + x {
      assert (": " + rest)[0] == ':';
      assert Tail(v) + x == "" || (Tail(v) + x)[0] != ':';
      SameSpan(tag, ": " + rest, Head(v), Tail(v) + x);
    }
  }

  lemma {:induction false} OneArgs(a: seq<TypeArg>, x: string, b: seq<TypeArg>, y: string)
    requires a != [] && b != [] && ReadableArgs(a) && ReadableArgs(b)
    requires x != "" && y != "" && x[0] == ')' && y[0] == ')' && ArgsString(a) + x == ArgsString(b) + y
    ensures a == b && x == y
    decreases a, 0
  {
    hide ArgString, ReadableArg;
    var p := if |a| == 1 then x else ", " + (ArgsString(a[1..]) + x);
    var q := if |b| == 1 then y else ", " + (ArgsString(b[1..]) + y);
    ArgsParts(a, x);
    ArgsParts(b, y);
    OneArg(a[0], p, b[0], q);
    assert a == [a[0]] + a[1..] && b == [b[0]] + b[1..];
    if |a| > 1 && |b| > 1 {
      assert p[2..] == ArgsString(a[1..]) + x && q[2..] == ArgsString(b[1..]) + y;
      OneArgs(a[1..], x, b[1..], y);
    } else {
      assert p[0] == if |a| == 1 then ')' else ',';
      assert q[0] == if |b| == 1 then ')' else ',';
    }
  }

  lemma {:induction false} ArgsParts(a: seq<TypeArg>, x: string)
    requires a != []
    ensures ArgsString(a) + x == ArgString(a[0]) + if |a| == 1 then x else ", " + (ArgsString(a[1..]) + x)
  {
    hide ArgString;
    if |a| > 1 {
      var s, r := ArgString(a[0]), ArgsString(a[1..]);
      assert (s + ", " + r) + x == s + (", " + (r + x));
    }
  }

  // ----- keys -----

  /** The key leaves out the expression's own mark and nothing else. */
  lemma {:induction false} KeyIff(t: TypeExpr, u: TypeExpr)
    requires Readable(t) && Readable(u)
    ensures Key(t) == Key(u) <==> t.(nullable := false) == u.(nullable := false)
  {
    hide String, ReadableArgs, ReadableName;
    if Key(t) == Key(u) {
      OneType(t.(nullable := false), "", u.(nullable := false), "");
    }
  }

  /** An array of nullable elements has another key than one of elements that are not. */
  lemma {:induction false} ElementMarkCounts(t: TypeExpr)
    requires Readable(t)
    ensures Key(ArrayOf(t.(nullable := true))) != Key(ArrayOf(t.(nullable := false)))
  {
    hide String, ReadableName;
    var a, b := ArrayOf(t.(nullable := true)), ArrayOf(t.(nullable := false));
    ArrayReadable(t.(nullable := true));
    ArrayReadable(t.(nullable := false));
    KeyIff(a, b);
  }

  lemma {:induction false} ArrayReadable(t: TypeExpr)
    requires Readable(t)
    ensures Readable(ArrayOf(t))
  {
    hide ReadableName;
    assert ReadableName(ARRAY) by { ArrayName(); }
    var args := ArrayOf(t).args;
    assert args[1..] == [] && ReadableArg(args[0]);
    assert ReadableArgs([]);
  }

  lemma {:induction false} ArrayName()
    ensures ReadableName(ARRAY)
  {
    assert |MARK| == 9 && "array"[0] == 'a' && |"true"| == 4 && "false"[0] == 'f';
  }

  /** The plain expressions of the parser's round trip are among these. */
  lemma {:induction false} PlainIsReadable(t: TypeExpr)
    requires TypeExprRoundTrip.Plain(t)
    ensures Readable(t) && !t.nullable
    decreases t, 1
  {
    hide ParseInt;
    WordNoMark(t.name);
    PlainArgsReadable(t.args);
  }

  lemma {:induction false} WordNoMark(w: string)
    requires TypeExprRoundTrip.Word(w)
    ensures Unbroken(w) && !HasSuffix(w, MARK)
  {
    assert MARK[0] == ' ';
    var suffix := if |w| >= 9 then w[|w| - 9..] else w;
    assert suffix[0] in w;
  }

  lemma {:induction false} PlainArgsReadable(args: seq<TypeArg>)
    requires TypeExprRoundTrip.PlainArgs(args)
    ensures ReadableArgs(args)
    decreases args, 0
  {
    hide Readable, TypeExprRoundTrip.Plain;
    if args != [] {
      PlainArgReadable(args[0]);
      PlainArgsReadable(args[1..]);
    }
  }

  lemma {:induction false} PlainArgReadable(a: TypeArg)
    requires TypeExprRoundTrip.PlainArg(a)
    ensures ReadableArg(a)
    decreases a, 2
  {
    hide Readable, TypeExprRoundTrip.Plain;
    if a.tag != "" {
      WordNoMark(a.tag);
    }
    if a.value.TypeVal? {
      PlainIsReadable(a.value.t);
    }
  }
}
