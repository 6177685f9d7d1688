/** What the rewrites of a dialect mean, rule by rule: which rule fires, what its holes stand for, and what
    comes out. Stated position by position, apart from how internal/core/rewrite.go goes about it. */
module TypeRewriteMeaning {
  import opened Common
  import opened Text
  import opened TypeExprs
  import opened TypeRewrites
  import opened TypeStore

  // ----- matching -----

  /** What a pattern compares of an argument: of a type its name only, whatever the case. */
  datatype Shape = TypeShape(lower: string) | IntShape(n: int) | StringShape(s: string) | IdentShape(w: string) | Incomparable

  function ShapeOf(v: ArgValue): Shape {
    match v
    case TypeVal(t) => TypeShape(ToLower(t.name))
    case IntVal(n) => IntShape(n)
    case StringVal(s) => StringShape(s)
    case IdentVal(w) => IdentShape(w)
    case BoolVal(_) => Incomparable
    case NoVal => Incomparable
  }

  /** `$name` at position i. */
  ghost predicate HoleAt(args: seq<TypeArg>, i: int, name: string) {
    0 <= i < |args| && args[i].value.TypeVal? && args[i].value.t.name == name && name != "" && name[0] == '$'
  }

  /** Every argument of the pattern is a hole or is compared alike. */
  ghost predicate Fits(pattern: seq<TypeArg>, args: seq<TypeArg>) {
    |pattern| == |args| &&
    forall i :: 0 <= i < |pattern| ==>
      HoleAt(pattern, i, HoleName(pattern[i])) || (ShapeOf(pattern[i].value) == ShapeOf(args[i].value) != Incomparable)
  }

  function HoleName(a: TypeArg): string { if a.value.TypeVal? then a.value.t.name else "" }

  /** Each hole stands for what is at its place; a hole that occurs again for what is at the last one. */
  ghost predicate Binds(pattern: seq<TypeArg>, args: seq<TypeArg>, bound: Bindings) {
    && |pattern| == |args|
    && (forall i :: 0 <= i < |pattern| && HoleAt(pattern, i, HoleName(pattern[i])) ==> HoleName(pattern[i]) in bound)
    && (forall h :: h in bound ==> exists i :: LastHole(pattern, i, h) && bound[h] == args[i])
  }

  ghost predicate LastHole(pattern: seq<TypeArg>, i: int, h: string) {
    0 <= i < |pattern| && HoleAt(pattern, i, h) && forall j :: i < j ==> !HoleAt(pattern, j, h)
  }

  lemma {:induction false} HoleIsHole(a: TypeArg)
    ensures IsHole(a.value) <==> a.value.TypeVal? && a.value.t.name != "" && a.value.t.name[0] == '$'
  {
    if a.value.TypeVal? && a.value.t.name != "" {
      assert a.value.t.name[..1] == [a.value.t.name[0]];
    }
  }

  lemma {:induction false} BindsOnce(pattern: seq<TypeArg>, args: seq<TypeArg>, a: Bindings, b: Bindings)
    requires Binds(pattern, args, a) && Binds(pattern, args, b)
    ensures a == b
  {
    hide HoleAt;
    forall h
      ensures h in a <==> h in b
      ensures h in a && h in b ==> a[h] == b[h]
    {
      if h in a {
        var i :| LastHole(pattern, i, h) && a[h] == args[i];
        assert HoleAt(pattern, i, h) && HoleName(pattern[i]) == h by { HoleNamed(pattern, i, h); }
        assert h in b;
        var j :| LastHole(pattern, j, h) && b[h] == args[j];
        assert i == j;
      }
      if h in b {
        var i :| LastHole(pattern, i, h) && b[h] == args[i];
        assert HoleAt(pattern, i, h) && HoleName(pattern[i]) == h by { HoleNamed(pattern, i, h); }
      }
    }
  }

  lemma {:induction false} HoleNamed(pattern: seq<TypeArg>, i: int, h: string)
    requires HoleAt(pattern, i, h)
    ensures 0 <= i < |pattern| && HoleName(pattern[i]) == h
  {
  }

  // ----- the matching loop, seen from its end -----

  lemma {:induction false} MatchLast(pattern: seq<TypeArg>, args: seq<TypeArg>, bound: Bindings)
    requires |pattern| == |args| && pattern != []
    ensures var n := |pattern| - 1;
            var init := MatchArgs(pattern[..n], args[..n], bound);
            MatchArgs(pattern, args, bound) == if init.None? then None else MatchArg(pattern[n], args[n], init.value)
  {
    hide MatchArg;
    var n := |pattern| - 1;
    if n == 0 {
      assert pattern[1..] == [] && pattern[..0] == [] && args[..0] == [];
    } else {
      var b := MatchArg(pattern[0], args[0], bound);
      if b.Some? {
        MatchLast(pattern[1..], args[1..], b.value);
        assert pattern[1..][..n - 1] == pattern[..n][1..] && args[1..][..n - 1] == args[..n][1..];
      }
    }
  }

  lemma {:induction false} MatchOne(p: TypeArg, a: TypeArg, bound: Bindings)
    ensures IsHole(p.value) ==> MatchArg(p, a, bound) == Some(bound[HoleName(p) := a])
    ensures !IsHole(p.value) ==>
              MatchArg(p, a, bound) == if ShapeOf(p.value) == ShapeOf(a.value) != Incomparable then Some(bound) else None
  {
    hide ToLower, HasPrefix;
  }

  /** Matching succeeds exactly when the pattern fits, with the binding of its holes. */
  lemma {:induction false} MatchIff(pattern: seq<TypeArg>, args: seq<TypeArg>)
    requires |pattern| == |args|
    ensures MatchArgs(pattern, args, map[]).Some? <==> Fits(pattern, args)
    ensures MatchArgs(pattern, args, map[]).Some? ==> Binds(pattern, args, MatchArgs(pattern, args, map[]).value)
    decreases |pattern|
  {
    if pattern != [] {
      hide MatchArgs, ShapeOf, MatchArg, IsHole;
      var n := |pattern| - 1;
      MatchLast(pattern, args, map[]);
      MatchIff(pattern[..n], args[..n]);
      MatchOne(pattern[n], args[n], if MatchArgs(pattern[..n], args[..n], map[]).Some? then MatchArgs(pattern[..n], args[..n], map[]).value else map[]);
      FitsLast(pattern, args);
      if MatchArgs(pattern, args, map[]).Some? {
        BindsLast(pattern, args, MatchArgs(pattern[..n], args[..n], map[]).value);
      }
    }
  }

  lemma {:induction false} FitsLast(pattern: seq<TypeArg>, args: seq<TypeArg>)
    requires |pattern| == |args| && pattern != []
    ensures var n := |pattern| - 1;
            Fits(pattern, args) <==> Fits(pattern[..n], args[..n]) &&
                                     (IsHole(pattern[n].value) || ShapeOf(pattern[n].value) == ShapeOf(args[n].value) != Incomparable)
  {
    hide ShapeOf, IsHole;
    var n := |pattern| - 1;
    HoleIsHole(pattern[n]);
    assert forall i :: 0 <= i < n ==> (HoleAt(pattern, i, HoleName(pattern[i])) <==> HoleAt(pattern[..n], i, HoleName(pattern[..n][i])));
  }

  lemma {:induction false} HoleBefore(pattern: seq<TypeArg>, i: int, h: string)
    requires pattern != []
    ensures var n := |pattern| - 1; i != n ==> (HoleAt(pattern, i, h) <==> HoleAt(pattern[..n], i, h))
  {
  }

  lemma {:induction false} BindsLast(pattern: seq<TypeArg>, args: seq<TypeArg>, bound: Bindings)
    requires |pattern| == |args| && pattern != [] && Binds(pattern[..|pattern| - 1], args[..|pattern| - 1], bound)
    ensures var n := |pattern| - 1;
            Binds(pattern, args, if IsHole(pattern[n].value) then bound[HoleName(pattern[n]) := args[n]] else bound)
  {
    hide HoleAt, IsHole;
    var n := |pattern| - 1;
    var p, name := pattern[..n], HoleName(pattern[n]);
    var more := if IsHole(pattern[n].value) then bound[name := args[n]] else bound;
    forall i, h: string
      ensures i != n ==> (HoleAt(pattern, i, h) <==> HoleAt(p, i, h))
    {
      HoleBefore(pattern, i, h);
    }
    assert IsHole(pattern[n].value) <==> HoleAt(pattern, n, name) by { HoleThere(pattern, n); }
    forall h | h in more
      ensures exists i :: LastHole(pattern, i, h) && more[h] == args[i]
    {
      assert forall j :: n < j ==> !HoleAt(pattern, j, h) by { PastEnd(pattern, h); }
      if IsHole(pattern[n].value) && h == name {
        assert LastHole(pattern, n, h);
      } else {
        var i :| LastHole(p, i, h) && bound[h] == args[..n][i];
        HoleNamed(p, i, h);
        assert !HoleAt(pattern, n, h) by { if HoleAt(pattern, n, h) { HoleNamed(pattern, n, h); } }
        assert LastHole(pattern, i, h);
      }
    }
  }

  lemma {:induction false} HoleThere(pattern: seq<TypeArg>, n: nat)
    requires n < |pattern|
    ensures IsHole(pattern[n].value) <==> HoleAt(pattern, n, HoleName(pattern[n]))
  {
    HoleIsHole(pattern[n]);
  }

  lemma {:induction false} PastEnd(pattern: seq<TypeArg>, h: string)
    ensures forall j :: |pattern| <= j ==> !HoleAt(pattern, j, h)
  {
  }

  // ----- the condition -----

  /** The comparisons that hold between two integers. */
  function Relations(n: int, limit: int): set<Op> {
    if n < limit then {Lt, Le, Ne} else if n == limit then {Le, Eq, Ge} else {Gt, Ge, Ne}
  }

  /** No condition, or one on a hole that stands for an integer in the named relation to the limit. */
  ghost predicate Met(cond: Cond, bound: Bindings) {
    cond.Bound? ==> exists n :: cond.binding in bound && bound[cond.binding].value == IntVal(n) && cond.op in Relations(n, cond.limit)
  }

  lemma {:induction false} HoldsIff(cond: Cond, bound: Bindings)
    ensures Holds(cond, bound) <==> Met(cond, bound)
  {
  }

  // ----- the template -----

  /** The expression u is the template with every hole filled, at any depth. */
  ghost predicate Filled(template: TypeExpr, bound: Bindings, u: TypeExpr)
    decreases template, 1
  {
    u.name == template.name && u.nullable == template.nullable && |u.args| == |template.args|
    && forall i :: 0 <= i < |u.args| ==> FilledArg(template.args[i], bound, u.args[i])
  }

  /** A hole that is bound gives way to what it stands for, under the template's label if it has one. */
  ghost predicate FilledArg(a: TypeArg, bound: Bindings, b: TypeArg)
    decreases a, 2
  {
    if HoleAt([a], 0, HoleName(a)) then
      if HoleName(a) in bound then
        b.value == bound[HoleName(a)].value && b.tag == (if a.tag == "" then bound[HoleName(a)].tag else a.tag)
      else b == a
    else if a.value.TypeVal? then b.tag == a.tag && b.value.TypeVal? && Filled(a.value.t, bound, b.value.t)
    else b == a
  }

  lemma {:induction false} SubstituteAt(args: seq<TypeArg>, bound: Bindings, i: nat)
    requires i < |args|
    ensures |SubstituteArgs(args, bound)| == |args| && SubstituteArgs(args, bound)[i] == SubstituteArg(args[i], bound)
    decreases |args|
  {
    hide SubstituteArg;
    if |args| > 1 {
      SubstituteAt(args[1..], bound, if i > 0 then i - 1 else 0);
    }
  }

  lemma {:induction false} SubstituteSize(args: seq<TypeArg>, bound: Bindings)
    ensures |SubstituteArgs(args, bound)| == |args|
  {
    if args != [] {
      SubstituteAt(args, bound, 0);
    }
  }

  lemma {:induction false} SubstituteIff(template: TypeExpr, bound: Bindings, u: TypeExpr)
    ensures Filled(template, bound, u) <==> u == Substitute(template, bound)
    decreases template, 1
  {
    hide FilledArg, SubstituteArg, SubstituteArgs;
    SubstituteSize(template.args, bound);
    var v := Substitute(template, bound);
    forall i | 0 <= i < |template.args| && |u.args| == |template.args|
      ensures FilledArg(template.args[i], bound, u.args[i]) <==> u.args[i] == v.args[i]
    {
      SubstituteAt(template.args, bound, i);
      SubstituteArgIff(template.args[i], bound, u.args[i]);
    }
    if |u.args| == |v.args| && forall i :: 0 <= i < |u.args| ==> u.args[i] == v.args[i] {
      assert u.args == v.args;
    }
  }

  lemma {:induction false} SubstituteArgIff(a: TypeArg, bound: Bindings, b: TypeArg)
    ensures FilledArg(a, bound, b) <==> b == SubstituteArg(a, bound)
    decreases a, 2
  {
    hide Filled, Substitute;
    HoleIsHole(a);
    if a.value.TypeVal? && !IsHole(a.value) && b.value.TypeVal? {
      SubstituteIff(a.value.t, bound, b.value.t);
    }
  }

  /** Substituting what a pattern bound into the pattern itself gives back, at every hole that occurs
      once, the argument that stood there. */
  lemma {:induction false} PatternGivesBack(rw: Rewrite, t: TypeExpr, i: nat)
    requires |rw.pattern.args| == |t.args| && MatchArgs(rw.pattern.args, t.args, map[]).Some? && i < |t.args|
    requires LastHole(rw.pattern.args, i, HoleName(rw.pattern.args[i]))
    ensures var u := Substitute(rw.pattern, MatchArgs(rw.pattern.args, t.args, map[]).value);
            |u.args| == |t.args| && u.args[i].value == t.args[i].value
  {
    hide MatchArgs, SubstituteArgs;
    var bound := MatchArgs(rw.pattern.args, t.args, map[]).value;
    MatchIff(rw.pattern.args, t.args);
    SubstituteSize(rw.pattern.args, bound);
    SubstituteAt(rw.pattern.args, bound, i);
    HoleIsHole(rw.pattern.args[i]);
    var h := HoleName(rw.pattern.args[i]);
    var j :| LastHole(rw.pattern.args, j, h) && bound[h] == t.args[j];
    assert i == j;
  }

  // ----- rules -----

  /** The rule applies to the expression, its holes standing for `bound`. */
  ghost predicate Fires(rw: Rewrite, t: TypeExpr, bound: Bindings) {
    && ToLower(rw.pattern.name) == ToLower(t.name)
    && Fits(rw.pattern.args, t.args) && Binds(rw.pattern.args, t.args, bound) && Met(rw.cond, bound)
  }

  ghost predicate Silent(rw: Rewrite, t: TypeExpr) { forall bound :: !Fires(rw, t, bound) }

  /** The rule k is the first that fires, and u is what it makes of t: nullable exactly when t is. */
  ghost predicate RewritesTo(rws: seq<Rewrite>, t: TypeExpr, u: TypeExpr) {
    exists k, bound :: FirstFires(rws, k, t, bound) && Filled(rws[k].template, bound, u.(nullable := rws[k].template.nullable))
                       && u.nullable == t.nullable
  }

  ghost predicate FirstFires(rws: seq<Rewrite>, k: int, t: TypeExpr, bound: Bindings) {
    0 <= k < |rws| && Fires(rws[k], t, bound) && forall j :: 0 <= j < k ==> Silent(rws[j], t)
  }

  ghost predicate AllSilent(rws: seq<Rewrite>, t: TypeExpr) { forall j :: 0 <= j < |rws| ==> Silent(rws[j], t) }

  /** The code's test of one rule. */
  predicate Tries(rw: Rewrite, t: TypeExpr) {
    ToLower(rw.pattern.name) == ToLower(t.name) && |rw.pattern.args| == |t.args|
    && var b := MatchArgs(rw.pattern.args, t.args, map[]); b.Some? && Holds(rw.cond, b.value)
  }

  lemma {:induction false} TriesIff(rw: Rewrite, t: TypeExpr)
    ensures Tries(rw, t) <==> !Silent(rw, t)
    ensures Tries(rw, t) ==> forall bound :: Fires(rw, t, bound) <==> bound == MatchArgs(rw.pattern.args, t.args, map[]).value
  {
    hide Fits, Binds, Met, MatchArgs, Holds, ToLower;
    if |rw.pattern.args| == |t.args| {
      MatchIff(rw.pattern.args, t.args);
      var b := MatchArgs(rw.pattern.args, t.args, map[]);
      if b.Some? {
        HoldsIff(rw.cond, b.value);
        forall bound | Binds(rw.pattern.args, t.args, bound)
          ensures bound == b.value
        {
          BindsOnce(rw.pattern.args, t.args, bound, b.value);
        }
        assert Tries(rw, t) ==> Fires(rw, t, b.value);
      }
    } else {
      assert forall bound :: !Fires(rw, t, bound) by { FitsSize(rw, t); }
    }
  }

  lemma {:induction false} FitsSize(rw: Rewrite, t: TypeExpr)
    ensures Fits(rw.pattern.args, t.args) ==> |rw.pattern.args| == |t.args|
  {
  }

  lemma {:induction false} ApplyStep(rws: seq<Rewrite>, t: TypeExpr)
    requires rws != []
    ensures Tries(rws[0], t) ==>
              Apply(rws, t) == Some(Substitute(rws[0].template, MatchArgs(rws[0].pattern.args, t.args, map[]).value).(nullable := t.nullable))
    ensures !Tries(rws[0], t) ==> Apply(rws, t) == Apply(rws[1..], t)
  {
    hide MatchArgs, Holds, Substitute, ToLower;
  }

  /** What the first rule that fires makes of an expression, and nothing when none does. */
  lemma {:induction false} ApplyIff(rws: seq<Rewrite>, t: TypeExpr)
    ensures Apply(rws, t).None? <==> AllSilent(rws, t)
    ensures forall u :: Apply(rws, t) == Some(u) <==> RewritesTo(rws, t, u)
  {
    if rws != [] {
      hide Apply, Silent, Tries, Fires, Filled, MatchArgs, Substitute;
      ApplyStep(rws, t);
      TriesIff(rws[0], t);
      if Tries(rws[0], t) {
        HeadFires(rws, t);
      } else {
        ApplyIff(rws[1..], t);
        AllSilentTail(rws, t);
        forall u
          ensures RewritesTo(rws, t, u) <==> RewritesTo(rws[1..], t, u)
        {
          TailFires(rws, t, u);
        }
      }
    }
  }

  lemma {:induction false} AllSilentTail(rws: seq<Rewrite>, t: TypeExpr)
    requires rws != [] && Silent(rws[0], t)
    ensures AllSilent(rws, t) <==> AllSilent(rws[1..], t)
  {
    hide Silent;
    if AllSilent(rws, t) {
      forall j | 0 <= j < |rws| - 1
        ensures Silent(rws[1..][j], t)
      {
        assert rws[1..][j] == rws[j + 1];
      }
    }
    if AllSilent(rws[1..], t) {
      forall j | 0 <= j < |rws|
        ensures Silent(rws[j], t)
      {
        if j > 0 {
          assert rws[1..][j - 1] == rws[j];
        }
      }
    }
  }

  lemma {:induction false} HeadFires(rws: seq<Rewrite>, t: TypeExpr)
    requires rws != [] && Tries(rws[0], t)
    ensures var b := MatchArgs(rws[0].pattern.args, t.args, map[]).value;
            forall u :: RewritesTo(rws, t, u) <==> u == Substitute(rws[0].template, b).(nullable := t.nullable)
    ensures !AllSilent(rws, t)
  {
    TriesIff(rws[0], t);
    hide Fires, Filled, MatchArgs, Substitute, Tries, Silent;
    var b := MatchArgs(rws[0].pattern.args, t.args, map[]).value;
    assert FirstFires(rws, 0, t, b);
    forall u
      ensures RewritesTo(rws, t, u) <==> u == Substitute(rws[0].template, b).(nullable := t.nullable)
    {
      var v := u.(nullable := rws[0].template.nullable);
      SubstituteIff(rws[0].template, b, v);
      SubstituteNullable(rws[0].template, b);
      if RewritesTo(rws, t, u) {
        var k, bound :| FirstFires(rws, k, t, bound) && Filled(rws[k].template, bound, u.(nullable := rws[k].template.nullable))
                        && u.nullable == t.nullable;
        assert k == 0;
        assert bound == b;
      }
      if u == Substitute(rws[0].template, b).(nullable := t.nullable) {
        assert v == Substitute(rws[0].template, b);
        assert FirstFires(rws, 0, t, b) && Filled(rws[0].template, b, v);
      }
    }
  }

  lemma {:induction false} SubstituteNullable(template: TypeExpr, bound: Bindings)
    ensures Substitute(template, bound).nullable == template.nullable
  {
  }

  lemma {:induction false} TailFires(rws: seq<Rewrite>, t: TypeExpr, u: TypeExpr)
    requires rws != [] && Silent(rws[0], t)
    ensures RewritesTo(rws, t, u) <==> RewritesTo(rws[1..], t, u)
  {
    hide Fires, Filled;
    if RewritesTo(rws, t, u) {
      var k, bound :| FirstFires(rws, k, t, bound) && Filled(rws[k].template, bound, u.(nullable := rws[k].template.nullable))
                      && u.nullable == t.nullable;
      assert k > 0 && rws[1..][k - 1] == rws[k];
      forall j | 0 <= j < k - 1
        ensures Silent(rws[1..][j], t)
      {
        assert rws[1..][j] == rws[j + 1];
      }
      assert FirstFires(rws[1..], k - 1, t, bound);
    }
    if RewritesTo(rws[1..], t, u) {
      var k, bound :| FirstFires(rws[1..], k, t, bound) && Filled(rws[1..][k].template, bound, u.(nullable := rws[1..][k].template.nullable))
                      && u.nullable == t.nullable;
      assert rws[k + 1] == rws[1..][k];
      forall j | 0 <= j < k + 1
        ensures Silent(rws[j], t)
      {
        if j > 0 {
          assert rws[1..][j - 1] == rws[j];
        }
      }
      assert FirstFires(rws, k + 1, t, bound);
    }
  }

  // ----- identifiers -----

  /** Argument i, counting from 0, is a bare word that the dialect calls an identifier: everywhere, or at
      this place in this family. */
  predicate WordAt(r: Rules, t: TypeExpr, i: nat)
    requires i < |t.args|
  {
    t.args[i].value.TypeVal? && t.args[i].value.t.args == [] &&
    (ToLower(t.args[i].value.t.name) in r.idents || (ToLower(t.name) in r.identArgs && i + 1 in r.identArgs[ToLower(t.name)]))
  }

  /** Those words become identifiers in lower case, keeping their labels, and all else stays. */
  ghost predicate IdentifiedAs(r: Rules, t: TypeExpr, u: TypeExpr) {
    && u.name == t.name && u.nullable == t.nullable && |u.args| == |t.args|
    && forall i :: 0 <= i < |t.args| ==>
         if WordAt(r, t, i) then u.args[i].tag == t.args[i].tag && u.args[i].value == IdentVal(ToLower(t.args[i].value.t.name))
         else u.args[i] == t.args[i]
  }

  lemma {:induction false} IdentifyAt(r: Rules, positions: seq<int>, args: seq<TypeArg>, at: int, i: nat)
    requires i < |args|
    ensures var a := args[i];
            var word := a.value.TypeVal? && a.value.t.args == [] && (ToLower(a.value.t.name) in r.idents || at + i in positions);
            IdentifyArgs(r, positions, args, at)[i] == if word then TypeArg(a.tag, IdentVal(ToLower(a.value.t.name))) else a
    decreases |args|
  {
    hide ToLower;
    if i > 0 {
      IdentifyAt(r, positions, args[1..], at + 1, i - 1);
    }
  }

  lemma {:induction false} IdentifyIff(r: Rules, t: TypeExpr, u: TypeExpr)
    ensures IdentifiedAs(r, t, u) <==> u == Identify(r, t)
  {
    hide ToLower, IdentifyArgs;
    var v := Identify(r, t);
    var positions := if ToLower(t.name) in r.identArgs then r.identArgs[ToLower(t.name)] else [];
    forall i | 0 <= i < |t.args|
      ensures v.args[i] == if WordAt(r, t, i) then TypeArg(t.args[i].tag, IdentVal(ToLower(t.args[i].value.t.name))) else t.args[i]
    {
      IdentifyAt(r, positions, t.args, 1, i);
    }
    if IdentifiedAs(r, t, u) {
      assert u.args == v.args;
    }
  }

  // ----- aliases -----

  /** The row a is an alias of the row b. */
  predicate AliasOf(types: seq<TypeRow>, a: nat, b: nat) { 1 <= a <= |types| && types[a - 1].canonical == b != 0 }

  predicate Genuine(types: seq<TypeRow>, a: nat) { 1 <= a <= |types| && types[a - 1].canonical == 0 }

  /** Rows from oid, each an alias of the next, to one that is no alias; at most `bound` of them. */
  ghost predicate AliasChain(types: seq<TypeRow>, oid: nat, path: seq<nat>, bound: nat) {
    && 1 <= |path| <= bound && path[0] == oid && Genuine(types, path[|path| - 1])
    && (forall i :: 0 < i < |path| ==> AliasOf(types, path[i - 1], path[i]))
  }

  lemma {:induction false} ChainStep(types: seq<TypeRow>, oid: nat, path: seq<nat>, bound: nat)
    requires AliasChain(types, oid, path, bound)
    ensures bound > 0 && 1 <= oid <= |types|
    ensures |path| == 1 ==> types[oid - 1].canonical == 0
    ensures |path| > 1 ==> types[oid - 1].canonical == path[1] != 0 && AliasChain(types, path[1], path[1..], bound - 1)
  {
    if |path| > 1 {
      assert AliasOf(types, path[0], path[1]);
      assert forall i :: 0 < i < |path| - 1 ==> path[1..][i] == path[i + 1] && path[1..][i - 1] == path[i];
    }
  }

  lemma {:induction false} ChainGrows(types: seq<TypeRow>, oid: nat, next: nat, path: seq<nat>, bound: nat)
    requires AliasChain(types, next, path, bound) && AliasOf(types, oid, next)
    ensures AliasChain(types, oid, [oid] + path, bound + 1)
  {
    var more := [oid] + path;
    forall i | 0 < i < |more|
      ensures AliasOf(types, more[i - 1], more[i])
    {
      if i > 1 {
        assert more[i - 1] == path[i - 2] && more[i] == path[i - 1];
      }
    }
  }

  /** The canonical row of a family is the end of its alias chain. */
  lemma {:induction false} CanonicalIff(types: seq<TypeRow>, oid: nat, steps: nat, c: nat)
    ensures c > 0 && CanonicalFrom(types, oid, steps) == c <==>
            exists path :: AliasChain(types, oid, path, steps) && path[|path| - 1] == c
    decreases steps
  {
    hide AliasOf;
    if steps > 0 && 1 <= oid <= |types| && types[oid - 1].canonical == 0 {
      assert AliasChain(types, oid, [oid], steps) && [oid][|[oid]| - 1] == oid;
    }
    if path :| AliasChain(types, oid, path, steps) && path[|path| - 1] == c {
      ChainStep(types, oid, path, steps);
      if |path| > 1 {
        assert path[1..][|path| - 2] == c;
        CanonicalIff(types, path[1], steps - 1, c);
      }
    }
    if steps > 0 && 1 <= oid <= |types| && types[oid - 1].canonical != 0 && c > 0 && CanonicalFrom(types, oid, steps) == c {
      var next := types[oid - 1].canonical;
      CanonicalIff(types, next, steps - 1, c);
      var path :| AliasChain(types, next, path, steps - 1) && path[|path| - 1] == c;
      assert AliasOf(types, oid, next) by { IsAlias(types, oid); }
      ChainGrows(types, oid, next, path, steps - 1);
      assert ([oid] + path)[|path|] == c;
    }
  }

  lemma {:induction false} IsAlias(types: seq<TypeRow>, oid: nat)
    requires 1 <= oid <= |types| && types[oid - 1].canonical != 0
    ensures AliasOf(types, oid, types[oid - 1].canonical)
  {
  }

  /** The catalog spells the family `name` as n. */
  ghost predicate SpelledAs(db: Db, d: Dialect, name: string, n: string) {
    exists path :: AliasChain(db.types, Family(db, d, Normal(name)), path, 16) && n == QualifiedName(db, d, Row(db, path[|path| - 1]))
  }

  lemma {:induction false} CanonicalNameIff(db: Db, d: Dialect, name: string, n: string)
    ensures CanonicalName(db, d, name) == Some(n) <==> SpelledAs(db, d, name, n)
  {
    hide Family, QualifiedName, Normal, CanonicalFrom, AliasChain;
    var oid := Family(db, d, Normal(name));
    var c := Canonical(db, oid);
    if c > 0 {
      CanonicalIff(db.types, oid, 16, c);
    }
    forall path | AliasChain(db.types, oid, path, 16)
      ensures oid > 0 && c > 0 && |path| > 0 && c == path[|path| - 1]
    {
      ChainParts(db.types, oid, path);
      CanonicalIff(db.types, oid, 16, path[|path| - 1]);
    }
  }

  lemma {:induction false} ChainParts(types: seq<TypeRow>, oid: nat, path: seq<nat>)
    requires AliasChain(types, oid, path, 16)
    ensures |path| > 0 && oid > 0 && path[|path| - 1] > 0
  {
    ChainStep(types, oid, path, 16);
  }

  // ----- canonicalize -----

  /** The rules say nothing of the expression under the name the catalog spells its family by. */
  ghost predicate NoOtherName(db: Db, d: Dialect, u: TypeExpr) {
    forall n :: SpelledAs(db, d, u.name, n) && ToLower(n) != ToLower(u.name) ==> AllSilent(d.rules.rewrites, u.(name := n))
  }

  /** What becomes of an expression before it is interned: identifiers first; then the first rule that
      fires; if none does, the first that fires once an alias is spelled out; if none does, nothing. */
  ghost predicate CanonicalizedAs(db: Db, d: Dialect, t: TypeExpr, v: TypeExpr) {
    exists u :: IdentifiedAs(d.rules, t, u) &&
      (|| RewritesTo(d.rules.rewrites, u, v)
       || (AllSilent(d.rules.rewrites, u) && RewrittenByAlias(db, d, u, v))
       || (AllSilent(d.rules.rewrites, u) && NoOtherName(db, d, u) && v == u))
  }

  ghost predicate RewrittenByAlias(db: Db, d: Dialect, u: TypeExpr, v: TypeExpr) {
    exists n :: SpelledAs(db, d, u.name, n) && ToLower(n) != ToLower(u.name) && RewritesTo(d.rules.rewrites, u.(name := n), v)
  }

  lemma {:induction false} CanonicalizeIff(db: Db, d: Dialect, t: TypeExpr, v: TypeExpr)
    ensures Canonicalize(db, d, t) == v <==> CanonicalizedAs(db, d, t, v)
  {
    hide Identify, IdentifiedAs, Apply, RewritesTo, AllSilent, CanonicalName, SpelledAs, ToLower;
    var u := Identify(d.rules, t);
    forall w
      ensures IdentifiedAs(d.rules, t, w) <==> w == u
    {
      IdentifyIff(d.rules, t, w);
    }
    ApplyIff(d.rules.rewrites, u);
    var name := CanonicalName(db, d, u.name);
    forall n
      ensures SpelledAs(db, d, u.name, n) <==> name == Some(n)
    {
      CanonicalNameIff(db, d, u.name, n);
    }
    if name.Some? {
      ApplyIff(d.rules.rewrites, u.(name := name.value));
    }
  }

  // ----- an example of each comparison -----

  const FLOAT := Rewrite(TypeExpr("float", false, [TypeArg("", TypeVal(TypeExpr("$1", false, [])))]),
                         TypeExpr("real", false, []), Bound("$1", Le, 24))

  function FloatOf(n: int): TypeExpr { TypeExpr("float", false, [TypeArg("", IntVal(n))]) }

  /** float(24) is a real, and float(25) is left to the rules that follow. */
  lemma {:induction false} FloatIsReal(n: int)
    ensures Apply([FLOAT], FloatOf(n)) == if n <= 24 then Some(TypeExpr("real", false, [])) else None
  {
    hide ToLower;
    var hole := FLOAT.pattern.args[0];
    assert "$1"[..1] == "$";
    assert FLOAT.pattern.args[1..] == [] && FloatOf(n).args[1..] == [] && [FLOAT][1..] == [];
    assert MatchArgs(FLOAT.pattern.args, FloatOf(n).args, map[]) == Some(map["$1" := TypeArg("", IntVal(n))]);
  }
}
