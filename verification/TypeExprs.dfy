/** Type expressions: the printer and the parser of internal/core/typeexpr.go. Strings are ASCII. */
module TypeExprs {
  import opened Common
  import opened Text

  datatype TypeExpr = TypeExpr(name: string, nullable: bool, args: seq<TypeArg>)

  /** `tag` is the Go field Label; empty means unlabelled. */
  datatype TypeArg = TypeArg(tag: string, value: ArgValue)

  /** Exactly one of the pointers of a Go TypeArg is set; NoVal stands for none. */
  datatype ArgValue =
    | TypeVal(t: TypeExpr)
    | IntVal(n: int)
    | BoolVal(b: bool)
    | StringVal(s: string)
    | IdentVal(word: string)
    | NoVal

  const ARRAY := "array"

  function ArrayOf(element: TypeExpr): TypeExpr {
    TypeExpr(ARRAY, false, [TypeArg("", TypeVal(element))])
  }

  // ----- numbers -----

  function DigitChar(d: nat): char
    requires d < 10
  {
    ('0' as int + d) as char
  }

  predicate IsDigit(c: char) { '0' <= c <= '9' }

  function Digits(n: nat): (s: string)
    ensures s != "" && forall i :: 0 <= i < |s| ==> IsDigit(s[i])
  {
    if n < 10 then [DigitChar(n)] else Digits(n / 10) + [DigitChar(n % 10)]
  }

  /** strconv.FormatInt(n, 10) */
  function FormatInt(n: int): (s: string)
    ensures s != ""
  {
    if n < 0 then "-" + Digits(-n) else Digits(n)
  }

  predicate AllDigits(s: string) { s != "" && forall i :: 0 <= i < |s| ==> IsDigit(s[i]) }

  function DigitValue(c: char): (d: nat)
    requires IsDigit(c)
    ensures d < 10 && DigitChar(d) == c
  {
    c as int - '0' as int
  }

  function DigitsValue(s: string): nat
    requires forall i :: 0 <= i < |s| ==> IsDigit(s[i])
  {
    if s == "" then 0 else DigitsValue(s[..|s| - 1]) * 10 + DigitValue(s[|s| - 1])
  }

  predicate Int64(n: int) { -0x8000_0000_0000_0000 <= n < 0x8000_0000_0000_0000 }

  /** strconv.ParseInt(s, 10, 64): an optional sign, digits, and a value that fits. */
  function ParseInt(s: string): Option<int> {
    var negative := HasPrefix(s, "-");
    var body := if negative || HasPrefix(s, "+") then s[1..] else s;
    if !AllDigits(body) then None
    else
      var n: int := if negative then 0 - DigitsValue(body) else DigitsValue(body);
      if Int64(n) then Some(n) else None
  }

  // ----- String and Key -----

  /** strings.ReplaceAll(s, "'", `\'`) */
  function Escape(s: string): string {
    if s == "" then "" else (if s[0] == '\'' then "\\'" else [s[0]]) + Escape(s[1..])
  }

  function String(t: TypeExpr): string
    decreases t, 1
  {
    t.name
    + (if t.args == [] then "" else "(" + ArgsString(t.args) + ")")
    + (if t.nullable then " nullable" else "")
  }

  function ArgsString(args: seq<TypeArg>): string
    decreases args, 0
  {
    if args == [] then ""
    else if |args| == 1 then ArgString(args[0])
    else ArgString(args[0]) + ", " + ArgsString(args[1..])
  }

  function ArgString(a: TypeArg): string
    decreases a, 2
  {
    (if a.tag != "" then a.tag + ": " else "") + ValueString(a.value)
  }

  function ValueString(v: ArgValue): string
    decreases v, 2
  {
    match v
    case TypeVal(t) => String(t)
    case IntVal(n) => FormatInt(n)
    case BoolVal(b) => if b then "true" else "false"
    case StringVal(s) => "'" + Escape(s) + "'"
    case IdentVal(w) => w
    case NoVal => ""
  }

  /** The spelling that identifies a row: the expression's own nullability is not part of it. */
  function Key(t: TypeExpr): string {
    String(t.(nullable := false))
  }

  // ----- scanning -----

  predicate IsQuote(c: char) { c == '\'' || c == '"' || c == '`' }

  function Shift(k: nat, r: Option<nat>): Option<nat> {
    if r.Some? then Some(r.value + k) else None
  }

  /** The scan shared by matchingParen and splitTypeArgs: nested parentheses and quoted strings are
      passed over, a backslash inside quotes hides the next character. With `closing` it looks for
      the parenthesis that brings the depth to 0, otherwise for a comma at depth 0. */
  function Find(s: string, depth: int, quote: Option<char>, closing: bool): (r: Option<nat>)
    ensures r.Some? ==> r.value < |s|
    decreases |s|
  {
    if s == "" then None
    else if quote.Some? then
      if s[0] == '\\' then
        if |s| == 1 then None else Shift(2, Find(s[2..], depth, quote, closing))
      else Shift(1, Find(s[1..], depth, if s[0] == quote.value then None else quote, closing))
    else if IsQuote(s[0]) then Shift(1, Find(s[1..], depth, Some(s[0]), closing))
    else if s[0] == '(' then Shift(1, Find(s[1..], depth + 1, None, closing))
    else if s[0] == ')' then
      if closing && depth == 1 then Some(0) else Shift(1, Find(s[1..], depth - 1, None, closing))
    else if s[0] == ',' && depth == 0 && !closing then Some(0)
    else Shift(1, Find(s[1..], depth, None, closing))
  }

  /** The pieces between the top-level commas. */
  function Pieces(s: string): (r: seq<string>)
    ensures r != [] && forall p :: p in r ==> |p| <= |s|
    decreases |s|
  {
    match Find(s, 0, None, false)
    case None => [s]
    case Some(i) => [s[..i]] + Pieces(s[i + 1..])
  }

  function TrimAll(ps: seq<string>): (r: seq<string>)
    ensures |r| == |ps| && forall i :: 0 <= i < |r| ==> r[i] == TrimSpace(ps[i])
  {
    hide TrimSpace;
    if ps == [] then [] else [TrimSpace(ps[0])] + TrimAll(ps[1..])
  }

  function InnerArgs(inner: string): (r: seq<string>)
    ensures forall a :: a in r ==> |a| <= |inner|
  {
    var ps := TrimAll(Pieces(inner));
    if ps == [""] then [] else ps
  }

  datatype Split = Split(base: string, args: seq<string>)

  /** The parentheses of the argument list: where they open and close, if they do. */
  function ArgList(t: string): (r: Option<(nat, nat)>)
    ensures r.Some? ==> r.value.0 <= r.value.1 < |t|
  {
    var open := IndexOf(t, '(');
    if open < 0 then None
    else
      match Find(t[open..], 0, None, true)
      case None => None
      case Some(k) => Some((open, open + k))
  }

  /** splitTypeArgs: `base(arg, arg) rest` into "base rest" and its arguments. */
  function SplitTypeArgs(t: string): (r: Split)
    ensures forall a :: a in r.args ==> |a| < |t|
  {
    match ArgList(t)
    case None => Split(t, [])
    case Some(p) =>
      var rest := TrimSpace(t[p.1 + 1..]);
      Split(TrimSpace(t[..p.0]) + (if rest != "" then " " + rest else ""), ArgsBetween(t, p.0, p.1))
  }

  function ArgsBetween(t: string, open: nat, close: nat): (r: seq<string>)
    requires open <= close < |t|
    ensures forall a :: a in r ==> |a| < |t|
  {
    if open == close then [] else InnerArgs(t[open + 1..close])
  }

  /** quotedEnd: just past the literal that starts s, honouring \x and ''. */
  function QuotedEnd(s: string, i: nat): (r: nat)
    requires i <= |s|
    ensures r <= |s| && (i < |s| ==> r > i)
    decreases |s| - i
  {
    if i == |s| then |s|
    else if s[i] == '\\' && i + 1 < |s| then QuotedEnd(s, i + 2)
    else if s[i] == '\'' && i + 1 < |s| && s[i + 1] == '\'' then QuotedEnd(s, i + 2)
    else if s[i] == '\'' then i + 1
    else QuotedEnd(s, i + 1)
  }

  /** strings.ReplaceAll of the two characters [a, b] by c, left to right. */
  function Replace2(s: string, a: char, b: char, c: char): string {
    if |s| < 2 then s
    else if s[0] == a && s[1] == b then [c] + Replace2(s[2..], a, b, c)
    else [s[0]] + Replace2(s[1..], a, b, c)
  }

  function Unescape(s: string): string {
    Replace2(Replace2(s, '\\', '\'', '\''), '\'', '\'', '\'')
  }

  // ----- ParseTypeExpr -----

  function ParseTypeExpr(spelling: string): TypeExpr
    decreases |spelling|, 0
  {
    var s := TrimSpace(spelling);
    if HasSuffix(s, "[]") then ArrayOf(ParseTypeExpr(s[..|s| - 2]))
    else
      var Split(base, args) := SplitTypeArgs(s);
      var name := ToLower(base);
      if name == "nullable" && |args| == 1 then ParseTypeExpr(args[0]).(nullable := true)
      else if args == [] then TypeExpr(name, false, [])
      else TypeExpr(name, false, ParseArgs(args, |s| - 1))
  }

  function ParseArgs(args: seq<string>, bound: nat): (r: seq<TypeArg>)
    requires forall a :: a in args ==> |a| <= bound
    ensures |r| == |args|
    decreases bound, 2, |args|
  {
    if args == [] then [] else [ParseTypeArg(args[0])] + ParseArgs(args[1..], bound)
  }

  function ParseTypeArg(spelling: string): TypeArg
    decreases |spelling|, 1
  {
    var a := TrimSpace(spelling);
    if HasPrefix(a, "'") then
      var end := QuotedEnd(a, 1);
      var lit := Unescape(if end >= 2 then a[1..end - 1] else "");
      var rest := TrimSpace(a[end..]);
      if HasPrefix(rest, "=") then ParseTypeArg(rest[1..]).(tag := lit)
      else TypeArg("", StringVal(lit))
    else if ParseInt(a).Some? then TypeArg("", IntVal(ParseInt(a).value))
    else if ToLower(a) == "true" || ToLower(a) == "false" then TypeArg("", BoolVal(ToLower(a) == "true"))
    else ParseWordArg(a)
  }

  /** What stands before the first parenthesis. */
  function Head(a: string): string {
    if IndexOf(a, '(') >= 0 then a[..IndexOf(a, '(')] else a
  }

  predicate NoneOf(s: string, bad: set<char>) { forall i :: 0 <= i < |s| ==> s[i] !in bad }

  /** `lat: Float64` and `lat Float64` carry a label; `timestamp with time zone` does not. */
  function ParseWordArg(a: string): TypeArg
    decreases |a|, 1, 0
  {
    var head := Head(a);
    var colon, space := IndexOf(head, ':'), IndexOf(head, ' ');
    if colon > 0 && NoneOf(head[..colon], {' ', '\'', '"'}) then
      TypeArg(TrimSpace(a[..colon]), TypeVal(ParseTypeExpr(a[colon + 1..])))
    else if space > 0 && ' ' !in TrimSpace(head[space + 1..]) then
      TypeArg(a[..space], TypeVal(ParseTypeExpr(a[space + 1..])))
    else TypeArg("", TypeVal(ParseTypeExpr(a)))
  }

  // ----- the loops behind the scanner -----

  /** One turn of the scanning loops that does not stop: what the scan of the rest must be. */
  lemma {:induction false} FindStep(s: string, depth: int, quote: Option<char>, closing: bool)
    requires s != ""
    ensures quote.Some? && s[0] == '\\' && |s| >= 2 ==>
              Find(s, depth, quote, closing) == Shift(2, Find(s[2..], depth, quote, closing))
    ensures quote.Some? && s[0] == '\\' && |s| == 1 ==> Find(s, depth, quote, closing) == None
    ensures quote.Some? && s[0] != '\\' ==>
              Find(s, depth, quote, closing)
              == Shift(1, Find(s[1..], depth, if s[0] == quote.value then None else quote, closing))
    ensures quote.None? && IsQuote(s[0]) ==>
              Find(s, depth, quote, closing) == Shift(1, Find(s[1..], depth, Some(s[0]), closing))
    ensures quote.None? && s[0] == '(' ==>
              Find(s, depth, quote, closing) == Shift(1, Find(s[1..], depth + 1, None, closing))
    ensures quote.None? && s[0] == ')' && !(closing && depth == 1) ==>
              Find(s, depth, quote, closing) == Shift(1, Find(s[1..], depth - 1, None, closing))
    ensures quote.None? && s[0] == ')' && closing && depth == 1 ==> Find(s, depth, quote, closing) == Some(0)
    ensures quote.None? && s[0] == ',' && !closing && depth == 0 ==> Find(s, depth, quote, closing) == Some(0)
    ensures quote.None? && !IsQuote(s[0]) && s[0] !in {'(', ')'} && !(s[0] == ',' && !closing && depth == 0) ==>
              Find(s, depth, quote, closing) == Shift(1, Find(s[1..], depth, None, closing))
  {
  }

  /** Where a scan that began at `from` stands once it has reached `i`; past the end it found nothing. */
  ghost predicate Scanned(t: string, from: nat, i: nat, depth: int, quote: Option<char>, closing: bool)
    requires from <= |t|
  {
    if i <= |t| then
      from <= i && Find(t[from..], 0, None, closing) == Shift(i - from, Find(t[i..], depth, quote, closing))
    else Find(t[from..], 0, None, closing) == None
  }

  lemma {:induction false} ScannedEnd(t: string, from: nat, i: nat, depth: int, quote: Option<char>, closing: bool)
    requires from <= |t| <= i && Scanned(t, from, i, depth, quote, closing)
    ensures Find(t[from..], 0, None, closing) == None
  {
  }

  /** The switch of matchingParen and splitTypeArgs for a character that ends neither. */
  method ScanChar(t: string, i: nat, depth: int, quote: Option<char>, ghost from: nat, ghost closing: bool)
    returns (i': nat, depth': int, quote': Option<char>)
    requires from <= i < |t| && Scanned(t, from, i, depth, quote, closing)
    requires quote.None? && t[i] == ')' && closing ==> depth != 1
    requires quote.None? && t[i] == ',' && !closing ==> depth != 0
    ensures i < i' && Scanned(t, from, i', depth', quote', closing)
  {
    hide Find;
    FindStep(t[i..], depth, quote, closing);
    DropDrop(t, i, 1);
    if i + 2 <= |t| {
      DropDrop(t, i, 2);
    }
    i', depth', quote' := i + 1, depth, quote;
    var c := t[i];
    if quote.Some? {
      if c == '\\' {
        i' := i + 2;
      } else if c == quote.value {
        quote' := None;
      }
    } else if IsQuote(c) {
      quote' := Some(c);
    } else if c == '(' {
      depth' := depth + 1;
    } else if c == ')' {
      depth' := depth - 1;
    }
  }

  method MatchingParen(t: string, open: nat) returns (r: int)
    requires open <= |t|
    ensures r == var k := Find(t[open..], 0, None, true); if k.Some? then open + k.value else -1
  {
    hide Find;
    var i, depth: int, quote := open, 0, None;
    while i < |t|
      invariant open <= i && Scanned(t, open, i, depth, quote, true)
      decreases |t| - i
    {
      if quote.None? && t[i] == ')' && depth == 1 {
        FindStep(t[i..], depth, quote, true);
        return i;
      }
      i, depth, quote := ScanChar(t, i, depth, quote, open, true);
    }
    ScannedEnd(t, open, i, depth, quote, true);
    return -1;
  }

  lemma {:induction false} CutPiece(s: string, i: nat)
    requires i < |s| && Find(s, 0, None, false) == Some(i)
    ensures TrimAll(Pieces(s)) == [TrimSpace(s[..i])] + TrimAll(Pieces(s[i + 1..]))
  {
    hide Find, TrimSpace;
    assert ([s[..i]] + Pieces(s[i + 1..]))[1..] == Pieces(s[i + 1..]);
  }

  /** The arguments cut off so far, followed by what the rest will be cut into, are all of them. */
  ghost predicate CutUpto(inner: string, start: nat, args: seq<string>) {
    start <= |inner| && TrimAll(Pieces(inner)) == args + TrimAll(Pieces(inner[start..]))
  }

  lemma {:induction false} CutNext(inner: string, start: nat, i: nat, args: seq<string>)
    requires CutUpto(inner, start, args) && start <= i < |inner|
    requires Find(inner[start..], 0, None, false) == Some(i - start)
    ensures CutUpto(inner, i + 1, args + [TrimSpace(inner[start..i])])
    ensures Scanned(inner, i + 1, i + 1, 0, None, false)
  {
    hide Find, TrimSpace, Pieces, TrimAll;
    CutPiece(inner[start..], i - start);
    assert inner[start..][..i - start] == inner[start..i];
    DropDrop(inner, start, i - start + 1);
  }

  lemma {:induction false} CutLast(inner: string, start: nat, args: seq<string>)
    requires CutUpto(inner, start, args) && Find(inner[start..], 0, None, false) == None
    ensures TrimAll(Pieces(inner)) == args + [TrimSpace(inner[start..])]
  {
    hide Find, TrimSpace, Pieces, TrimAll;
    OnePiece(inner[start..]);
  }

  /** The splitting loop of splitTypeArgs over the text between the parentheses. */
  method SplitInner(inner: string) returns (args: seq<string>)
    ensures args == InnerArgs(inner)
  {
    hide Find, TrimSpace, Pieces, TrimAll, CutUpto;
    args := [];
    var i, start, depth: int, quote := 0, 0, 0, None;
    CutStart(inner);
    while i < |inner|
      invariant 0 <= start <= i && start <= |inner| && Scanned(inner, start, i, depth, quote, false)
      invariant CutUpto(inner, start, args)
      decreases |inner| - i
    {
      if quote.None? && inner[i] == ',' && depth == 0 {
        FindStep(inner[i..], depth, quote, false);
        CutNext(inner, start, i, args);
        args := args + [TrimSpace(inner[start..i])];
        start := i + 1;
        i := i + 1;
      } else {
        i, depth, quote := ScanChar(inner, i, depth, quote, start, false);
      }
    }
    ScannedEnd(inner, start, i, depth, quote, false);
    CutLast(inner, start, args);
    var last := TrimSpace(inner[start..]);
    assert args == [] ==> args + [last] == [last];
    assert args != [] ==> |args + [last]| > 1;
    if last != "" || |args| > 0 {
      args := args + [last];
    }
  }

  lemma {:induction false} CutStart(inner: string)
    ensures CutUpto(inner, 0, []) && Scanned(inner, 0, 0, 0, None, false)
  {
    hide Find, Pieces, TrimAll;
    assert inner[0..] == inner;
  }

  lemma {:induction false} OnePiece(s: string)
    requires Find(s, 0, None, false) == None
    ensures TrimAll(Pieces(s)) == [TrimSpace(s)]
  {
    hide TrimSpace, Find;
  }

  /** quotedEnd's loop; the literal starts at index 0. */
  method QuotedEndLoop(s: string) returns (r: nat)
    requires s != ""
    ensures r == QuotedEnd(s, 1)
  {
    var i := 1;
    while i < |s|
      invariant 1 <= i <= |s| && QuotedEnd(s, 1) == QuotedEnd(s, i)
      decreases |s| - i
    {
      if s[i] == '\\' && i + 1 < |s| {
        i := i + 1;
      } else if s[i] == '\'' && i + 1 < |s| && s[i + 1] == '\'' {
        i := i + 1;
      } else if s[i] == '\'' {
        return i + 1;
      }
      i := i + 1;
    }
    return |s|;
  }

  /** String's builder loop over the arguments. */
  method PrintType(t: TypeExpr) returns (b: string)
    ensures b == String(t)
    decreases t
  {
    hide ArgString;
    b := t.name;
    if |t.args| > 0 {
      b := b + "(";
      var i := 0;
      ghost var all := ArgsString(t.args);
      while i < |t.args|
        invariant 0 <= i <= |t.args|
        invariant i == 0 ==> b == t.name + "("
        invariant i > 0 && i < |t.args| ==> b + ", " + ArgsString(t.args[i..]) == t.name + "(" + all
        invariant i == |t.args| ==> b == t.name + "(" + all
      {
        ghost var before := b;
        ghost var rest := t.args[i..];
        assert rest[0] == t.args[i] && rest[1..] == t.args[i + 1..];
        if i > 0 {
          b := b + ", ";
        } else {
          assert rest == t.args;
        }
        var v := PrintArg(t, i);
        b := b + v;
        i := i + 1;
      }
      b := b + ")";
    }
    if t.nullable {
      b := b + " nullable";
    }
  }

  method PrintArg(t: TypeExpr, i: nat) returns (b: string)
    requires i < |t.args|
    ensures b == ArgString(t.args[i])
    decreases t, 0
  {
    var a := t.args[i];
    b := if a.tag != "" then a.tag + ": " else "";
    match a.value
    case TypeVal(u) =>
      var v := PrintType(u);
      b := b + v;
    case _ =>
      b := b + ValueString(a.value);
  }
}
