/** The catalog object of internal/core/types.go: the tables, the memo that hands out copies of type
    expressions, and the imperative interner over them. */
module Catalogs {
  import opened Common
  import opened Text
  import opened TypeExprs
  import opened TypeRewrites
  import opened TypeStore
  import opened TypeStoreInvariant

  // ----- type expressions as callers hold them: mutable and linked by pointers -----

  datatype NodeArg = NodeArg(tag: string, value: NodeValue)
  datatype NodeValue = NodeType(node: ExprNode) | NodeLiteral(v: ArgValue)

  class ExprNode {
    var name: string
    var nullable: bool
    var args: seq<NodeArg>
    ghost var Kids: set<object>  // the objects below this one

    ghost predicate Valid()
      reads this, Kids
      decreases Kids, 2
    {
      this !in Kids && ArgsOk(args, Kids)
    }

    /** The expression this object stands for. */
    ghost function Value(): TypeExpr
      requires Valid()
      reads this, Kids
      decreases Kids, 2
    {
      TypeExpr(name, nullable, ArgsValue(args, Kids))
    }

    constructor (name: string, nullable: bool, args: seq<NodeArg>, ghost below: set<object>)
      requires ArgsOk(args, below)
      ensures Valid() && Kids == below && Value() == TypeExpr(name, nullable, ArgsValue(args, below))
    {
      this.name, this.nullable, this.args := name, nullable, args;
      Kids := below;
    }

    method CloneArg(i: nat) returns (c: NodeArg, ghost own: set<object>)
      requires Valid() && i < |args|
      ensures fresh(own) && ArgOk(c, own) && ArgOk(args[i], Kids) && ArgValueOf(c, own) == ArgValueOf(args[i], Kids)
      decreases Kids, 0
    {
      c, own := args[i], {};
      assert ArgOk(args[i], Kids);
      if c.value.NodeType? {
        var n := c.value.node.Clone();
        c, own := NodeArg(c.tag, NodeType(n)), {n} + n.Kids;
      }
    }

    /** Clone copies the expression, arguments and all: the copy shares no object with the original. */
    method Clone() returns (out: ExprNode)
      requires Valid()
      ensures out.Valid() && fresh(out) && fresh(out.Kids) && out.Value() == Value()
      decreases Kids, 1
    {
      var copies: seq<NodeArg> := [];
      ghost var below: set<object> := {};
      var i := 0;
      while i < |args|
        invariant 0 <= i <= |args| && fresh(below) && ArgsOk(copies, below)
        invariant ArgsValue(copies, below) == ArgsValue(args, Kids)[..i]
      {
        var c, own := CloneArg(i);
        ArgsValueAt(args, Kids, i);
        ArgWiden(c, own, below + own);
        ArgsValueSnoc(copies, below, below + own, c);
        copies, below := copies + [c], below + own;
        i := i + 1;
      }
      out := new ExprNode(name, nullable, copies, below);
    }
  }

  lemma {:induction false} ArgWiden(a: NodeArg, below: set<object>, more: set<object>)
    requires ArgOk(a, below) && below <= more
    ensures ArgOk(a, more) && ArgValueOf(a, more) == ArgValueOf(a, below)
  {
  }

  ghost predicate ArgOk(a: NodeArg, below: set<object>)
    reads below
    decreases below, 0
  {
    a.value.NodeType? ==>
      var n := a.value.node;
      n in below && n.Kids < below && n.Valid()
  }

  ghost predicate ArgsOk(args: seq<NodeArg>, below: set<object>)
    reads below
    decreases below, 1
  {
    forall i :: 0 <= i < |args| ==> ArgOk(args[i], below)
  }

  ghost function ArgValueOf(a: NodeArg, below: set<object>): TypeArg
    requires ArgOk(a, below)
    reads below
    decreases below, 0
  {
    match a.value
    case NodeType(n) => TypeArg(a.tag, TypeVal(n.Value()))
    case NodeLiteral(v) => TypeArg(a.tag, v)
  }

  ghost function ArgsValue(args: seq<NodeArg>, below: set<object>): (r: seq<TypeArg>)
    requires ArgsOk(args, below)
    reads below
    ensures |r| == |args|
    decreases below, 1, |args|
  {
    if args == [] then [] else ArgsValue(args[..|args| - 1], below) + [ArgValueOf(args[|args| - 1], below)]
  }

  lemma {:induction false} ArgsValueAt(args: seq<NodeArg>, below: set<object>, i: nat)
    requires ArgsOk(args, below) && i < |args|
    ensures ArgsValue(args, below)[i] == ArgValueOf(args[i], below)
    decreases |args|
  {
    if i < |args| - 1 {
      ArgsValueAt(args[..|args| - 1], below, i);
    }
  }

  lemma {:induction false} ArgsValueWiden(args: seq<NodeArg>, below: set<object>, more: set<object>)
    requires ArgsOk(args, below) && below <= more
    ensures ArgsOk(args, more) && ArgsValue(args, more) == ArgsValue(args, below)
    decreases |args|
  {
    assert forall i :: 0 <= i < |args| ==> ArgOk(args[i], below) ==> ArgOk(args[i], more);
    if args != [] {
      ArgsValueWiden(args[..|args| - 1], below, more);
    }
  }

  lemma {:induction false} ArgsValueSnoc(args: seq<NodeArg>, below: set<object>, more: set<object>, a: NodeArg)
    requires ArgsOk(args, below) && below <= more && ArgOk(a, more)
    ensures ArgsOk(args + [a], more)
    ensures ArgsValue(args + [a], more) == ArgsValue(args, below) + [ArgValueOf(a, more)]
  {
    ArgsValueWiden(args, below, more);
    assert (args + [a])[..|args|] == args;
  }

  // ----- the catalog -----

  class Catalog {
    const d: Dialect
    var db: Db
    var infos: map<nat, TypeRow>     // typeCache.infos
    var exprs: map<nat, ExprNode>    // typeCache.exprs
    ghost var Memo: set<object>      // every object the memo reaches

    /** A memoised expression is the one its row is rebuilt to. */
    ghost predicate MemoOk(oid: nat)
      requires oid in exprs && Shape(db)
      reads this, Memo
    {
      var e := exprs[oid];
      IsOid(db, oid) && e in Memo && e.Kids <= Memo && e.Valid() && e.Value() == Rebuild(db, d, oid)
    }

    ghost predicate Valid()
      reads this, Memo
    {
      && this !in Memo
      && TypeStoreInvariant.Valid(db, d)
      && (forall oid :: oid in infos ==> IsOid(db, oid) && infos[oid] == Row(db, oid))
      && (forall oid :: oid in exprs ==> MemoOk(oid))
    }

    constructor (d: Dialect, seeded: Db)
      requires TypeStoreInvariant.Valid(seeded, d)
      ensures Valid() && fresh(Memo) && this.d == d && db == seeded
    {
      this.d, db, infos, exprs, Memo := d, seeded, map[], map[], {};
    }

    /** LookupType: the row, remembered once read. */
    method LookupType(oid: nat) returns (r: Option<TypeRow>)
      requires Valid()
      modifies this`infos
      ensures Valid()
      ensures r == if IsOid(db, oid) then Some(Row(db, oid)) else None
    {
      hide TypeStoreInvariant.Valid;
      if oid in infos {
        return Some(infos[oid]);
      }
      if !IsOid(db, oid) {
        return None;
      }
      infos := infos[oid := Row(db, oid)];
      return Some(Row(db, oid));
    }

    /** canonicalOID's loop; 0 is its error. */
    method CanonicalOID(start: nat) returns (r: nat)
      requires Valid()
      modifies this`infos
      ensures Valid() && r == Canonical(db, start)
    {
      hide TypeStoreInvariant.Valid, Valid;
      var oid, i := start, 0;
      while i < 16
        invariant 0 <= i <= 16 && Valid()
        invariant Canonical(db, start) == CanonicalFrom(db.types, oid, 16 - i)
      {
        var info := LookupType(oid);
        if info.None? {
          return 0;
        }
        if info.value.canonical == 0 {
          return oid;
        }
        oid, i := info.value.canonical, i + 1;
      }
      return 0;
    }

    /** Rebuilds one argument; the copy that comes back has its own nullability set on it. */
    method ArgExpr(row: ArgRow, ghost bound: nat) returns (a: NodeArg, ghost own: set<object>)
      requires Valid() && bound <= |db.types| && (row.value.TypeRef? ==> 1 <= row.value.oid <= bound)
      modifies this`infos, this`exprs, this`Memo
      ensures Valid() && old(Memo) <= Memo && fresh(Memo - old(Memo))
      ensures fresh(own) && own !! Memo && ArgOk(a, own)
      ensures ArgValueOf(a, own) == RebuildArg(db, d, bound, row)
      decreases bound, 3
    {
      hide TypeStoreInvariant.Valid, Rebuild;
      match row.value
      case Literal(v) =>
        a, own := NodeArg(row.tag, NodeLiteral(v)), {};
      case TypeRef(oid, nullable) =>
        var e := TypeExprOf(oid);
        var n := e.value;
        n.nullable := nullable;
        a, own := NodeArg(row.tag, NodeType(n)), {n} + n.Kids;
    }

    /** TypeExprOf: the memoised expression or the one the argument rows give, as a fresh copy the
        caller may change. */
    method TypeExprOf(oid: nat) returns (r: Option<ExprNode>)
      requires Valid()
      modifies this`infos, this`exprs, this`Memo
      ensures Valid() && old(Memo) <= Memo && fresh(Memo - old(Memo))
      ensures r.Some? <==> IsOid(db, oid)
      ensures r.Some? ==>
                && r.value.Valid() && fresh(r.value) && fresh(r.value.Kids)
                && r.value !in Memo && r.value.Kids !! Memo
                && r.value.Value() == Rebuild(db, d, oid)
      decreases oid, 2
    {
      if oid in exprs {
        assert MemoOk(oid);
        var hit := exprs[oid].Clone();
        return Some(hit);
      }
      var info := LookupType(oid);
      if info.None? {
        return None;
      }
      var built := BuildAnew(oid, info.value);
      return Some(built);
    }

    /** A miss: the expression is built and remembered, and a copy handed out. */
    method BuildAnew(oid: nat, info: TypeRow) returns (copy: ExprNode)
      requires Valid() && IsOid(db, oid) && info == Row(db, oid)
      modifies this`infos, this`exprs, this`Memo
      ensures Valid() && old(Memo) <= Memo && fresh(Memo - old(Memo))
      ensures copy.Valid() && fresh(copy) && fresh(copy.Kids) && copy !in Memo && copy.Kids !! Memo
      ensures copy.Value() == Rebuild(db, d, oid)
      decreases oid, 1
    {
      var e := BuildExpr(oid, info);
      Remember(oid, e);
      copy := e.Clone();
    }

    /** The body of TypeExprOf behind the memo: the name, and the arguments of an instance. */
    method BuildExpr(oid: nat, info: TypeRow) returns (e: ExprNode)
      requires Valid() && IsOid(db, oid) && info == Row(db, oid)
      modifies this`infos, this`exprs, this`Memo
      ensures Valid() && old(Memo) <= Memo && fresh(Memo - old(Memo))
      ensures e.Valid() && fresh(e) && fresh(e.Kids) && e !in Memo && e.Kids !! Memo && e.Value() == Rebuild(db, d, oid)
      decreases oid, 0
    {
      var args: seq<NodeArg> := [];
      ghost var below: set<object> := {};
      if info.family != 0 {
        args, below := BuildArgs(oid, db.args[oid - 1]);
      }
      e := new ExprNode(QualifiedName(db, d, info), false, args, below);
    }

    method BuildArgs(ghost oid: nat, rows: seq<ArgRow>) returns (args: seq<NodeArg>, ghost below: set<object>)
      requires Valid() && IsOid(db, oid) && rows == ArgsOf(db, oid)
      modifies this`infos, this`exprs, this`Memo
      ensures Valid() && old(Memo) <= Memo && fresh(Memo - old(Memo))
      ensures fresh(below) && below !! Memo && ArgsOk(args, below)
      ensures ArgsValue(args, below) == RebuildArgs(db, d, oid - 1, rows)
      decreases oid - 1, 4
    {
      hide Rebuild, RebuildArgs, RebuildArg, String, RowOk;
      args, below := [], {};
      var i := 0;
      while i < |rows|
        invariant 0 <= i <= |rows| && Valid() && old(Memo) <= Memo && fresh(Memo - old(Memo))
        invariant fresh(below) && below !! Memo && ArgsOk(args, below)
        invariant ArgsValue(args, below) == RebuildArgs(db, d, oid - 1, rows)[..i]
      {
        var a, own := ArgExpr(rows[i], oid - 1);
        RebuildArgsAt(db, d, oid - 1, rows, i);
        ArgWiden(a, own, below + own);
        ArgsValueSnoc(args, below, below + own, a);
        args, below := args + [a], below + own;
        i := i + 1;
      }
    }

    // ----- internType -----

    /** The tables have grown: what was remembered stays right, since rows never change. */
    method Write(later: Db)
      requires Valid() && TypeStoreInvariant.Valid(later, d) && Extends(db, later)
      modifies this`db
      ensures Valid() && db == later
    {
      forall oid | oid in exprs
        ensures IsOid(later, oid) && Rebuild(later, d, oid) == Rebuild(db, d, oid)
      {
        assert MemoOk(oid);
        RebuildStable(db, later, d, oid);
      }
      db := later;
    }

    /** The loop of internType over the arguments: each argument type is interned first. */
    method InternArgLoop(args: seq<TypeArg>, write: bool, fuel: nat) returns (out: ArgsOutcome)
      requires Valid()
      modifies this`db, this`infos
      ensures Valid() && ArgsStep(db, out) == InternArgs(old(db), d, args, write, fuel)
      decreases fuel, 2
    {
      hide Valid, Intern, InternArgs;
      var canon: seq<TypeArg>, rows: seq<ArgRow>, known, i := [], [], true, 0;
      PrependNothing(InternArgs(db, d, args, write, fuel));
      assert args[0..] == args;
      while i < |args|
        invariant 0 <= i <= |args| && Valid()
        invariant InternArgs(old(db), d, args, write, fuel)
                  == Prepend(canon, rows, known, InternArgs(db, d, args[i..], write, fuel))
      {
        var a := args[i];
        ghost var before := db;
        assert args[i..][0] == a && args[i..][1..] == args[i + 1..];
        InternArgsStep(db, d, args[i..], write, fuel);
        if !a.value.TypeVal? {
          PrependCons(canon, rows, known, a, ArgRow(a.tag, Literal(a.value)), true, InternArgs(db, d, args[i + 1..], write, fuel));
          canon, rows := canon + [a], rows + [ArgRow(a.tag, Literal(a.value))];
        } else {
          var r := InternType(a.value.t, write, fuel);
          if r.Failed? || r == Unknown(None) {
            return ArgsFailed(r);
          }
          var expr, oid, ok := if r.Found? then r.canon else r.partial.value, if r.Found? then r.oid else 0, r.Found?;
          var arg := TypeArg(a.tag, TypeVal(expr.(nullable := a.value.t.nullable)));
          var row := ArgRow(a.tag, TypeRef(oid, a.value.t.nullable));
          PrependCons(canon, rows, known, arg, row, ok, InternArgs(db, d, args[i + 1..], write, fuel));
          canon, rows, known := canon + [arg], rows + [row], known && ok;
        }
        i := i + 1;
      }
      InternArgsEnd(db, d, args[i..], write, fuel);
      out := FoundArgs(canon, rows, known);
    }

    /** internType: resolves an expression to its row, writing family and instance rows as it goes
        when `write` allows it. */
    method InternType(t0: TypeExpr, write: bool, fuel: nat) returns (out: Outcome)
      requires Valid()
      modifies this`db, this`infos
      ensures Valid() && Step(db, out) == Intern(old(db), d, t0, write, fuel)
      decreases fuel, 1
    {
      hide Valid, Canonicalize, InternFamily, InternArgs, InternInstance, TypeStoreInvariant.Valid, TrimSpace,
        CanonicalFrom, QualifiedName;
      if fuel == 0 || TrimSpace(t0.name) == "" {
        return Failed;
      }
      var t := Canonicalize(db, d, t0);
      var made := WriteFamily(t.name, write);
      if made == 0 {
        return if write then Failed else Unknown(None);
      }
      var fam := CanonicalOID(made);
      if fam == 0 {
        return Failed;
      }
      if t.args == [] {
        return Found(fam, TypeExpr(QualifiedName(db, d, Row(db, fam)), false, []));
      }
      ghost var mid := db;
      ValidTables();
      CanonicalIsFamily(mid, d, made, 16);
      ArgsKeep(mid, d, t.args, write, fuel - 1);
      var args := InternArgLoop(t.args, write, fuel - 1);
      if args.ArgsFailed? {
        return args.out;
      }
      ExtendsRow(mid, db, fam);
      out := WriteInstance(fam, args, write);
    }

    lemma {:induction false} ValidTables()
      requires Valid()
      ensures TypeStoreInvariant.Valid(db, d) && Shape(db)
    {
    }

    /** The family of a name, registered when there is none and writing is allowed; 0 is the error. */
    method WriteFamily(name: string, write: bool) returns (oid: nat)
      requires Valid()
      modifies this`db
      ensures Valid() && Insert(db, oid) == InternFamily(old(db), d, Normal(name), write)
      ensures oid > 0 ==> IsOid(db, oid) && Row(db, oid).family == 0
    {
      hide Valid, TypeStoreInvariant.Valid, Family, CreateUserType, CreateArray, Normal;
      ValidTables();
      FamilyKeeps(db, d, Normal(name), write);
      FamilyStays(db, d, Normal(name), write);
      oid := Family(db, d, Normal(name));
      if oid == 0 && write {
        var made := if Normal(name) == ARRAY then CreateArray(db) else CreateUserType(db, d, Normal(name));
        Write(made.db);
        oid := made.oid;
      }
    }

    /** The instance row: found by its spelling, or inserted with its argument rows. */
    method WriteInstance(fam: nat, args: ArgsOutcome, write: bool) returns (out: Outcome)
      requires Valid() && IsOid(db, fam) && Row(db, fam).family == 0
      requires args.FoundArgs? && args.canon != [] && args.rows != [] && ArgsGood(db, d, args)
      modifies this`db
      ensures Valid() && Step(db, out) == InternInstance(old(db), d, fam, args, write)
    {
      hide Valid, TypeStoreInvariant.Valid, QualifiedName, String, ExprIn, InsertType, InstanceRow, ArgsGood, Rebuild;
      ValidTables();
      InstanceKeeps(db, d, fam, args, write);
      var family := Row(db, fam);
      var canon := TypeExpr(QualifiedName(db, d, family), false, args.canon);
      if !args.known {
        return Unknown(Some(canon));
      }
      var existing := ExprIn(db.types, family.ns, Key(canon));
      if existing > 0 {
        return Found(existing, canon);
      }
      if !write {
        return Unknown(Some(canon));
      }
      var made := InsertType(db, InstanceRow(family, fam, Key(canon), args.rows), args.rows);
      Write(made.db);
      return if made.oid > 0 then Found(made.oid, canon) else Failed;
    }

    /** typeCache.put */
    method Remember(oid: nat, e: ExprNode)
      requires Valid() && IsOid(db, oid)
      requires e.Valid() && e != this as object && this !in e.Kids && e.Value() == Rebuild(db, d, oid)
      modifies this`exprs, this`Memo
      ensures Valid() && Memo == old(Memo) + {e} + e.Kids
    {
      hide TypeStoreInvariant.Valid, Rebuild;
      exprs := exprs[oid := e];
      Memo := Memo + {e} + e.Kids;
    }
  }

  lemma {:induction false} RebuildArgsAt(db: Db, d: Dialect, below: nat, rows: seq<ArgRow>, i: nat)
    requires Shape(db) && below <= |db.types| && RefsWithin(rows, below) && i < |rows|
    ensures RebuildArgs(db, d, below, rows)[i] == RebuildArg(db, d, below, rows[i])
    decreases |rows|
  {
    if i > 0 {
      RebuildArgsAt(db, d, below, rows[1..], i - 1);
    }
  }

  // ----- internType -----

  /** What was collected so far, followed by the outcome for the remaining arguments. */
  ghost function Prepend(canon: seq<TypeArg>, rows: seq<ArgRow>, known: bool, rest: ArgsStep): ArgsStep {
    if rest.out.ArgsFailed? then rest
    else ArgsStep(rest.db, FoundArgs(canon + rest.out.canon, rows + rest.out.rows, known && rest.out.known))
  }

  lemma {:induction false} PrependNothing(rest: ArgsStep)
    ensures Prepend([], [], true, rest) == rest
  {
    if rest.out.FoundArgs? {
      assert [] + rest.out.canon == rest.out.canon && [] + rest.out.rows == rest.out.rows;
    }
  }

  lemma {:induction false} PrependCons(canon: seq<TypeArg>, rows: seq<ArgRow>, known: bool, a: TypeArg, row: ArgRow, ok: bool, rest: ArgsStep)
    ensures Prepend(canon, rows, known, ConsArg(a, row, ok, rest)) == Prepend(canon + [a], rows + [row], known && ok, rest)
  {
    if rest.out.FoundArgs? {
      AppendAssoc(canon, [a], rest.out.canon);
      AppendAssoc(rows, [row], rest.out.rows);
    }
  }

  lemma {:induction false} InternArgsEnd(db: Db, d: Dialect, args: seq<TypeArg>, write: bool, fuel: nat)
    requires args == []
    ensures InternArgs(db, d, args, write, fuel) == ArgsStep(db, FoundArgs([], [], true))
  {
  }

  lemma {:induction false} InternArgsStep(db: Db, d: Dialect, args: seq<TypeArg>, write: bool, fuel: nat)
    requires args != []
    ensures !args[0].value.TypeVal? ==>
              InternArgs(db, d, args, write, fuel)
              == ConsArg(args[0], ArgRow(args[0].tag, Literal(args[0].value)), true, InternArgs(db, d, args[1..], write, fuel))
    ensures args[0].value.TypeVal? ==>
              var r := Intern(db, d, args[0].value.t, write, fuel);
              var n := args[0].value.t.nullable;
              && (r.out.Failed? || r.out == Unknown(None) ==> InternArgs(db, d, args, write, fuel) == ArgsStep(r.db, ArgsFailed(r.out)))
              && (r.out.Unknown? && r.out.partial.Some? ==>
                    InternArgs(db, d, args, write, fuel)
                    == ConsArg(TypeArg(args[0].tag, TypeVal(r.out.partial.value.(nullable := n))),
                               ArgRow(args[0].tag, TypeRef(0, n)), false, InternArgs(r.db, d, args[1..], write, fuel)))
              && (r.out.Found? ==>
                    InternArgs(db, d, args, write, fuel)
                    == ConsArg(TypeArg(args[0].tag, TypeVal(r.out.canon.(nullable := n))),
                               ArgRow(args[0].tag, TypeRef(r.out.oid, n)), true, InternArgs(r.db, d, args[1..], write, fuel)))
  {
    hide Intern;
  }

  // ----- what callers do to an answer does not reach the memo -----

  /** A caller may set nullability on an answer; the next answer is the rebuilt expression all the same. */
  method AnswerTwice(c: Catalog, oid: nat, nullable: bool) returns (first: Option<ExprNode>, second: Option<ExprNode>)
    requires c.Valid()
    modifies c
    ensures c.Valid() && c.db == old(c.db)
    ensures IsOid(c.db, oid) ==>
              && first.Some? && first.value.Valid() && first.value.nullable == nullable
              && second.Some? && second.value.Valid() && second.value.Value() == Rebuild(c.db, c.d, oid)
  {
    hide Rebuild, TypeStoreInvariant.Valid;
    first := c.TypeExprOf(oid);
    if first.Some? {
      first.value.nullable := nullable;
    }
    second := c.TypeExprOf(oid);
  }
}
