/** What a dialect does to a type expression before it is interned: internal/core/rewrite.go. */
module TypeRewrites {
  import opened Common
  import opened Text
  import opened TypeExprs

  datatype Op = Lt | Le | Eq | Ge | Gt | Ne

  /** "$1 <= 24": a bound on an integer binding. */
  datatype Cond = Always | Bound(binding: string, op: Op, limit: int)

  datatype Rewrite = Rewrite(pattern: TypeExpr, template: TypeExpr, cond: Cond)

  datatype Rules = Rules(rewrites: seq<Rewrite>, idents: set<string>, identArgs: map<string, seq<int>>)

  type Bindings = map<string, TypeArg>

  predicate Holds(cond: Cond, bound: Bindings) {
    match cond
    case Always => true
    case Bound(b, op, limit) =>
      b in bound && bound[b].value.IntVal? &&
      var n := bound[b].value.n;
      match op
      case Lt => n < limit
      case Le => n <= limit
      case Eq => n == limit
      case Ge => n >= limit
      case Gt => n > limit
      case Ne => n != limit
  }

  predicate IsHole(v: ArgValue) { v.TypeVal? && HasPrefix(v.t.name, "$") }

  /** identify: the bare words the dialect calls identifiers become identifier arguments. */
  function Identify(r: Rules, t: TypeExpr): TypeExpr {
    var positions := if ToLower(t.name) in r.identArgs then r.identArgs[ToLower(t.name)] else [];
    t.(args := IdentifyArgs(r, positions, t.args, 1))
  }

  function IdentifyArgs(r: Rules, positions: seq<int>, args: seq<TypeArg>, at: int): (out: seq<TypeArg>)
    ensures |out| == |args|
  {
    if args == [] then []
    else
      var a := args[0];
      var word := a.value.TypeVal? && a.value.t.args == []
                  && (ToLower(a.value.t.name) in r.idents || at in positions);
      [if word then TypeArg(a.tag, IdentVal(ToLower(a.value.t.name))) else a]
      + IdentifyArgs(r, positions, args[1..], at + 1)
  }

  /** matchArgs for one argument: a hole binds whatever stands there, a literal must be equal, and a
      type pattern compares names only. */
  function MatchArg(p: TypeArg, a: TypeArg, bound: Bindings): Option<Bindings> {
    if IsHole(p.value) then Some(bound[p.value.t.name := a])
    else
      var same :=
        match p.value
        case TypeVal(t) => a.value.TypeVal? && ToLower(a.value.t.name) == ToLower(t.name)
        case IntVal(n) => a.value == IntVal(n)
        case StringVal(s) => a.value == StringVal(s)
        case IdentVal(w) => a.value == IdentVal(w)
        case BoolVal(_) => false
        case NoVal => false;
      if same then Some(bound) else None
  }

  function MatchArgs(pattern: seq<TypeArg>, args: seq<TypeArg>, bound: Bindings): Option<Bindings>
    requires |pattern| == |args|
  {
    if pattern == [] then Some(bound)
    else
      match MatchArg(pattern[0], args[0], bound)
      case None => None
      case Some(b) => MatchArgs(pattern[1..], args[1..], b)
  }

  function Substitute(template: TypeExpr, bound: Bindings): TypeExpr
    decreases template, 1
  {
    template.(args := SubstituteArgs(template.args, bound))
  }

  function SubstituteArgs(args: seq<TypeArg>, bound: Bindings): seq<TypeArg>
    decreases args, 0
  {
    if args == [] then [] else [SubstituteArg(args[0], bound)] + SubstituteArgs(args[1..], bound)
  }

  /** A label in the template wins over the label of what was bound. */
  function SubstituteArg(a: TypeArg, bound: Bindings): TypeArg
    decreases a, 2
  {
    match a.value
    case TypeVal(t) =>
      if HasPrefix(t.name, "$") then
        if t.name in bound then
          if a.tag != "" then bound[t.name].(tag := a.tag) else bound[t.name]
        else a
      else TypeArg(a.tag, TypeVal(Substitute(t, bound)))
    case _ => a
  }

  /** rewrite: the first rewrite whose pattern matches and whose condition holds. */
  function Apply(rws: seq<Rewrite>, t: TypeExpr): Option<TypeExpr> {
    if rws == [] then None
    else
      var rw := rws[0];
      if ToLower(rw.pattern.name) == ToLower(t.name) && |rw.pattern.args| == |t.args|
         && var b := MatchArgs(rw.pattern.args, t.args, map[]); b.Some? && Holds(rw.cond, b.value) then
        Some(Substitute(rw.template, MatchArgs(rw.pattern.args, t.args, map[]).value).(nullable := t.nullable))
      else Apply(rws[1..], t)
  }

  lemma {:induction false} ApplyNeedsName(rws: seq<Rewrite>, t: TypeExpr)
    requires forall rw :: rw in rws ==> ToLower(rw.pattern.name) != ToLower(t.name)
    ensures Apply(rws, t) == None
  {
    if rws != [] {
      ApplyNeedsName(rws[1..], t);
    }
  }

  // ----- a property of all names in an expression -----

  /** Every family name at any depth satisfies `p`. */
  ghost predicate Names(t: TypeExpr, p: string -> bool)
    decreases t, 1
  {
    p(t.name) && ArgNames(t.args, p)
  }

  ghost predicate ArgNames(args: seq<TypeArg>, p: string -> bool)
    decreases args, 0
  {
    args == [] || (ArgName(args[0], p) && ArgNames(args[1..], p))
  }

  ghost predicate ArgName(a: TypeArg, p: string -> bool)
    decreases a, 2
  {
    a.value.TypeVal? ==> Names(a.value.t, p)
  }

  ghost predicate RuleNames(r: Rules, p: string -> bool) {
    forall rw :: rw in r.rewrites ==> Names(rw.template, p)
  }

  ghost predicate BoundNames(bound: Bindings, p: string -> bool) {
    forall k :: k in bound ==> ArgName(bound[k], p)
  }

  lemma {:induction false} IdentifyNames(r: Rules, positions: seq<int>, args: seq<TypeArg>, at: int, p: string -> bool)
    requires ArgNames(args, p)
    ensures ArgNames(IdentifyArgs(r, positions, args, at), p)
  {
    if args != [] {
      IdentifyNames(r, positions, args[1..], at + 1, p);
      var out := IdentifyArgs(r, positions, args, at);
      assert out[1..] == IdentifyArgs(r, positions, args[1..], at + 1);
    }
  }

  lemma {:induction false} MatchNames(pattern: seq<TypeArg>, args: seq<TypeArg>, bound: Bindings, p: string -> bool)
    requires |pattern| == |args| && ArgNames(args, p) && BoundNames(bound, p)
    requires MatchArgs(pattern, args, bound).Some?
    ensures BoundNames(MatchArgs(pattern, args, bound).value, p)
  {
    if pattern != [] {
      MatchNames(pattern[1..], args[1..], MatchArg(pattern[0], args[0], bound).value, p);
    }
  }

  lemma {:induction false} SubstituteNames(t: TypeExpr, bound: Bindings, p: string -> bool)
    requires Names(t, p) && BoundNames(bound, p)
    ensures Names(Substitute(t, bound), p)
    decreases t, 1
  {
    SubstituteArgsNames(t.args, bound, p);
  }

  lemma {:induction false} SubstituteArgsNames(args: seq<TypeArg>, bound: Bindings, p: string -> bool)
    requires ArgNames(args, p) && BoundNames(bound, p)
    ensures ArgNames(SubstituteArgs(args, bound), p)
    decreases args, 0
  {
    if args != [] {
      var a := args[0];
      if a.value.TypeVal? && !HasPrefix(a.value.t.name, "$") {
        SubstituteNames(a.value.t, bound, p);
      }
      SubstituteArgsNames(args[1..], bound, p);
      var out := SubstituteArgs(args, bound);
      assert out[0] == SubstituteArg(a, bound) && out[1..] == SubstituteArgs(args[1..], bound);
    }
  }

  lemma {:induction false} ApplyNames(rws: seq<Rewrite>, t: TypeExpr, p: string -> bool)
    requires ArgNames(t.args, p) && Apply(rws, t).Some? && forall rw :: rw in rws ==> Names(rw.template, p)
    ensures Names(Apply(rws, t).value, p)
  {
    hide MatchArgs, Substitute, Holds;
    var rw := rws[0];
    if ToLower(rw.pattern.name) == ToLower(t.name) && |rw.pattern.args| == |t.args|
       && var b := MatchArgs(rw.pattern.args, t.args, map[]); b.Some? && Holds(rw.cond, b.value) {
      var b := MatchArgs(rw.pattern.args, t.args, map[]).value;
      MatchNames(rw.pattern.args, t.args, map[], p);
      SubstituteNames(rw.template, b, p);
    } else {
      ApplyNames(rws[1..], t, p);
    }
  }
}
