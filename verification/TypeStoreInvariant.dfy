/** What every run of the interner keeps: each instance row is spelled as the expression its argument
    rows rebuild, rows refer to older rows only, and no two rows share a namespace and a spelling. */
module TypeStoreInvariant {
  import opened Common
  import opened Text
  import opened TypeExprs
  import opened TypeRewrites
  import opened TypeStore
  import TypeExprKeys

  /** Arguments refer to rows up to `last` only. */
  ghost predicate RefsWithin(rows: seq<ArgRow>, last: int) {
    forall i :: 0 <= i < |rows| ==> rows[i].value.TypeRef? ==> 1 <= rows[i].value.oid <= last
  }

  ghost function ArgsOf(db: Db, oid: nat): seq<ArgRow>
    requires IsOid(db, oid) && |db.args| == |db.types|
  {
    db.args[oid - 1]
  }

  /** Every row has its argument rows, and they refer to older rows. */
  ghost predicate Shape(db: Db) {
    && |db.args| == |db.types|
    && forall oid :: 1 <= oid <= |db.types| ==> RefsWithin(ArgsOf(db, oid), oid - 1)
  }

  /** TypeExprOf without its memo: the expression a row stands for, read back from its arguments. */
  ghost function Rebuild(db: Db, d: Dialect, oid: nat): (t: TypeExpr)
    requires Shape(db) && IsOid(db, oid)
    ensures !t.nullable
    decreases oid, 0, 0
  {
    TypeExpr(QualifiedName(db, d, Row(db, oid)), false,
             if Row(db, oid).family == 0 then [] else RebuildArgs(db, d, oid - 1, ArgsOf(db, oid)))
  }

  ghost function RebuildArgs(db: Db, d: Dialect, below: nat, rows: seq<ArgRow>): (args: seq<TypeArg>)
    requires Shape(db) && below <= |db.types| && RefsWithin(rows, below)
    ensures |args| == |rows|
    decreases below, 1, |rows|
  {
    if rows == [] then [] else [RebuildArg(db, d, below, rows[0])] + RebuildArgs(db, d, below, rows[1..])
  }

  ghost function RebuildArg(db: Db, d: Dialect, below: nat, row: ArgRow): TypeArg
    requires Shape(db) && below <= |db.types| && (row.value.TypeRef? ==> 1 <= row.value.oid <= below)
    decreases below, 1, 0
  {
    match row.value
    case TypeRef(oid, nullable) => TypeArg(row.tag, TypeVal(Rebuild(db, d, oid).(nullable := nullable)))
    case Literal(v) => TypeArg(row.tag, v)
  }

  /** A family is spelled by its name, which carries no dot off the default namespaces. An alias
      stands for another family. */
  ghost predicate FamilyOk(db: Db, d: Dialect, r: TypeRow) {
    && r.expr == r.name && (QualifiedName(db, d, r) == r.name || '.' !in r.name)
    && (r.canonical != 0 ==> IsOid(db, r.canonical) && Row(db, r.canonical).family == 0)
  }

  /** An instance is of its family's kind and no alias; an array's element is its first argument's type. */
  ghost predicate KindOk(r: TypeRow, family: TypeRow, args: seq<ArgRow>) {
    && r.typtype == family.typtype && r.category == family.category && r.base == 0 && r.canonical == 0
    && r.element == if r.name == ARRAY && args != [] && args[0].value.TypeRef? then args[0].value.oid else 0
  }

  ghost predicate InstanceOk(db: Db, d: Dialect, oid: nat)
    requires Shape(db) && IsOid(db, oid)
  {
    var r := Row(db, oid);
    && 1 <= r.family < oid && Row(db, r.family).family == 0
    && Row(db, r.family).ns == r.ns && Row(db, r.family).name == r.name
    && ArgsOf(db, oid) != [] && KindOk(r, Row(db, r.family), ArgsOf(db, oid))
    && r.expr == String(Rebuild(db, d, oid))
  }

  ghost predicate RowOk(db: Db, d: Dialect, oid: nat)
    requires Shape(db) && IsOid(db, oid)
  {
    && 1 <= Row(db, oid).ns <= |db.namespaces|
    && if Row(db, oid).family == 0 then FamilyOk(db, d, Row(db, oid)) else InstanceOk(db, d, oid)
  }

  ghost predicate Unique(types: seq<TypeRow>) {
    forall i, j :: 0 <= i < j < |types| ==> !(types[i].ns == types[j].ns && types[i].expr == types[j].expr)
  }

  ghost predicate Valid(db: Db, d: Dialect) {
    Shape(db) && Unique(db.types) && forall oid :: 1 <= oid <= |db.types| ==> RowOk(db, d, oid)
  }

  /** Rows never change: a later database holds the earlier one. */
  ghost predicate Extends(db: Db, db': Db) {
    db.types <= db'.types && db.args <= db'.args && db.namespaces <= db'.namespaces
  }

  lemma {:induction false} RebuildStable(db: Db, db': Db, d: Dialect, oid: nat)
    requires Valid(db, d) && Shape(db') && Extends(db, db') && IsOid(db, oid)
    ensures Rebuild(db', d, oid) == Rebuild(db, d, oid)
    decreases oid, 0, 0
  {
    assert RowOk(db, d, oid);
    assert Row(db', oid) == Row(db, oid) && ArgsOf(db', oid) == ArgsOf(db, oid);
    if Row(db, oid).family != 0 {
      RebuildArgsStable(db, db', d, oid - 1, ArgsOf(db, oid));
    }
  }

  lemma {:induction false} RebuildArgsStable(db: Db, db': Db, d: Dialect, below: nat, rows: seq<ArgRow>)
    requires Valid(db, d) && Shape(db') && Extends(db, db') && below <= |db.types| && RefsWithin(rows, below)
    ensures RebuildArgs(db', d, below, rows) == RebuildArgs(db, d, below, rows)
    decreases below, 1, |rows|
  {
    hide Rebuild, Valid;
    if rows != [] {
      if rows[0].value.TypeRef? {
        RebuildStable(db, db', d, rows[0].value.oid);
      }
      RebuildArgsStable(db, db', d, below, rows[1..]);
    }
  }

  lemma {:induction false} ShapeAppend(db: Db, row: TypeRow, rows: seq<ArgRow>)
    requires Shape(db) && RefsWithin(rows, |db.types|)
    ensures Shape(Db(db.types + [row], db.args + [rows], db.namespaces))
  {
    var db' := Db(db.types + [row], db.args + [rows], db.namespaces);
    assert forall oid :: 1 <= oid <= |db.types| ==> ArgsOf(db', oid) == ArgsOf(db, oid);
  }

  lemma {:induction false} RowOkStable(db: Db, db': Db, d: Dialect, oid: nat)
    requires Valid(db, d) && Shape(db') && Extends(db, db') && IsOid(db, oid)
    ensures RowOk(db', d, oid)
  {
    hide Rebuild;
    RebuildStable(db, db', d, oid);
    assert RowOk(db, d, oid);
    assert Row(db', oid) == Row(db, oid) && ArgsOf(db', oid) == ArgsOf(db, oid);
    var fam, alias := Row(db, oid).family, Row(db, oid).canonical;
    if fam != 0 {
      assert Row(db', fam) == Row(db, fam);
    } else if alias != 0 {
      assert Row(db', alias) == Row(db, alias);
    }
  }

  lemma {:induction false} ValidAppend(db: Db, d: Dialect, row: TypeRow, rows: seq<ArgRow>)
    requires Valid(db, d) && RefsWithin(rows, |db.types|) && ExprIn(db.types, row.ns, row.expr) == 0
    requires Shape(Db(db.types + [row], db.args + [rows], db.namespaces))
    requires RowOk(Db(db.types + [row], db.args + [rows], db.namespaces), d, |db.types| + 1)
    ensures Valid(Db(db.types + [row], db.args + [rows], db.namespaces), d)
  {
    hide Rebuild, Shape, RowOk, ExprIn;
    var db' := Db(db.types + [row], db.args + [rows], db.namespaces);
    assert Shape(db) && |db.args| == |db.types| by { ShapeSizes(db, d); }
    forall oid | 1 <= oid <= |db'.types|
      ensures RowOk(db', d, oid)
    {
      if oid <= |db.types| {
        RowOkStable(db, db', d, oid);
      }
    }
  }

  lemma {:induction false} ShapeSizes(db: Db, d: Dialect)
    requires Valid(db, d)
    ensures Shape(db) && |db.args| == |db.types|
  {
  }

  lemma {:induction false} NamespaceAppend(db: Db, d: Dialect, ns: string)
    requires Valid(db, d)
    ensures Valid(db.(namespaces := db.namespaces + [ns]), d)
  {
    hide Rebuild, RowOk;
    var db' := db.(namespaces := db.namespaces + [ns]);
    assert Shape(db') by {
      assert forall oid :: 1 <= oid <= |db.types| ==> ArgsOf(db', oid) == ArgsOf(db, oid);
    }
    forall oid | 1 <= oid <= |db'.types|
      ensures RowOk(db', d, oid)
    {
      RowOkStable(db, db', d, oid);
    }
  }

  lemma {:induction false} InsertFamily(db: Db, d: Dialect, ns: nat, name: string, category: string, base: nat)
    requires Valid(db, d) && 1 <= ns <= |db.namespaces|
    requires IsDefault(d, db.namespaces[ns - 1]) || '.' !in name
    ensures var r := InsertType(db, FamilyRow(ns, name, category, base), []);
            Valid(r.db, d) && Extends(db, r.db) && (r.oid > 0 ==> IsOid(r.db, r.oid))
  {
    hide Rebuild, ExprIn;
    if ExprIn(db.types, ns, name) == 0 {
      var row := FamilyRow(ns, name, category, base);
      ShapeSizes(db, d);
      ShapeAppend(db, row, []);
      ValidAppend(db, d, row, []);
    }
  }

  lemma {:induction false} NoDotAfterLast(name: string)
    ensures '.' !in name[LastDot(name) + 1..]
  {
    if name != "" && name[|name| - 1] != '.' {
      var init := name[..|name| - 1];
      NoDotAfterLast(init);
      assert name[LastDot(name) + 1..] == init[LastDot(init) + 1..] + [name[|name| - 1]];
    }
  }

  /** A declared name goes to a default namespace, or its own part of the name holds no dot. */
  lemma {:induction false} BareNoDot(d: Dialect, name: string)
    ensures IsDefault(d, Schema(d, name)) || '.' !in Bare(name)
  {
    hide LastDot;
    NoDotAfterLast(name);
  }

  lemma {:induction false} FamilyKeeps(db: Db, d: Dialect, name: string, write: bool)
    requires Valid(db, d)
    ensures var r := InternFamily(db, d, name, write);
            Valid(r.db, d) && Extends(db, r.db) && (r.oid > 0 ==> IsOid(r.db, r.oid))
  {
    hide Valid, Family, NsOid, UserTypeBase, InsertType, Contains, Qualifier, Bare;
    BareNoDot(d, name);
    if Family(db, d, name) == 0 && write {
      if name == ARRAY {
        var ns := NsOid(db.namespaces, "public");
        if ns > 0 {
          InsertFamily(db, d, ns, ARRAY, "A", 0);
        }
      } else {
        NamespaceAppend(db, d, Schema(d, name));
        var db1 := WithSchema(db, d, name);
        var ns := NsOid(db1.namespaces, Schema(d, name));
        var base := UserTypeBase(d.affinity, Bare(name));
        if ns > 0 {
          if base == 0 {
            InsertFamily(db1, d, ns, Bare(name), "U", 0);
          } else if IsOid(db1, base) {
            InsertFamily(db1, d, ns, Bare(name), Row(db1, base).category, base);
          }
        }
      }
    }
  }

  // ----- the interner keeps the store valid -----

  lemma {:induction false} CanonicalizeNames(db: Db, d: Dialect, t: TypeExpr, p: string -> bool)
    requires Names(t, p) && RuleNames(d.rules, p)
    ensures Names(Canonicalize(db, d, t), p)
  {
    hide Apply, IdentifyArgs, CanonicalName;
    var u := Identify(d.rules, t);
    var positions := if ToLower(t.name) in d.rules.identArgs then d.rules.identArgs[ToLower(t.name)] else [];
    IdentifyNames(d.rules, positions, t.args, 1, p);
    if Apply(d.rules.rewrites, u).Some? {
      ApplyNames(d.rules.rewrites, u, p);
    } else {
      match CanonicalName(db, d, u.name)
      case None =>
      case Some(name) =>
        if Apply(d.rules.rewrites, u.(name := name)).Some? {
          ApplyNames(d.rules.rewrites, u.(name := name), p);
        }
    }
  }

  /** Two argument lists that print alike make expressions that print alike. */
  lemma {:induction false} SpelledAlike(name: string, a: seq<TypeArg>, b: seq<TypeArg>)
    requires a != [] && b != [] && ArgsString(a) == ArgsString(b)
    ensures String(TypeExpr(name, false, a)) == String(TypeExpr(name, false, b))
  {
  }

  lemma {:induction false} KeyStartsWithName(t: TypeExpr)
    ensures t.name <= Key(t)
  {
    var u := t.(nullable := false);
    if u.args != [] {
      assert String(u) == u.name + ("(" + ArgsString(u.args) + ")") + "";
    }
  }

  lemma {:induction false} ArgsKept(a: TypeArg, b: TypeArg, as': seq<TypeArg>, bs: seq<TypeArg>)
    requires ArgString(a) == ArgString(b) && ArgsString(as') == ArgsString(bs) && |as'| == |bs|
    ensures ArgsString([a] + as') == ArgsString([b] + bs)
  {
    hide ArgString;
    assert ([a] + as')[1..] == as' && ([b] + bs)[1..] == bs;
  }

  lemma {:induction false} TypeArgAlike(tag: string, e: TypeExpr, f: TypeExpr, nullable: bool)
    requires String(e) == String(f) && !e.nullable && !f.nullable
    ensures ArgString(TypeArg(tag, TypeVal(e.(nullable := nullable)))) == ArgString(TypeArg(tag, TypeVal(f.(nullable := nullable))))
  {
    hide ArgsString;
    assert String(e) + "" == String(e) && String(f) + "" == String(f);
    assert String(e.(nullable := true)) == String(e) + " nullable";
    assert String(f.(nullable := true)) == String(f) + " nullable";
  }

  /** The arguments found are spelled as their rows are rebuilt. */
  ghost predicate ArgsGood(db: Db, d: Dialect, out: ArgsOutcome)
    requires Shape(db)
  {
    if out.ArgsFailed? then !out.out.Found?
    else out.known ==>
      && RefsWithin(out.rows, |db.types|)
      && |out.canon| == |out.rows|
      && ArgsString(out.canon) == ArgsString(RebuildArgs(db, d, |db.types|, out.rows))
  }

  /** What was found is spelled as the row it was found at is rebuilt. */
  ghost predicate Good(db: Db, d: Dialect, out: Outcome)
    requires Shape(db)
  {
    out.Found? ==> IsOid(db, out.oid) && !out.canon.nullable && String(out.canon) == String(Rebuild(db, d, out.oid))
  }

  /** The row found under the spelling of an instance of `fam` rebuilds to that spelling, even when it
      is a family that happens to be called so. */
  lemma {:induction false} InstanceFound(db: Db, d: Dialect, fam: nat, oid: nat, key: string)
    requires Valid(db, d) && IsOid(db, oid) && IsOid(db, fam)
    requires Row(db, oid).expr == key && Row(db, oid).ns == Row(db, fam).ns
    requires QualifiedName(db, d, Row(db, fam)) <= key
    ensures String(Rebuild(db, d, oid)) == key
  {
    hide String;
    assert RowOk(db, d, oid);
    var r := Row(db, oid);
    if r.family == 0 {
      QualifiedHasDot(db, d, r, Row(db, fam));
      assert forall c :: c in QualifiedName(db, d, Row(db, fam)) ==> c in key;
      PlainSpelling(r.name);
    }
  }

  lemma {:induction false} QualifiedHasDot(db: Db, d: Dialect, r: TypeRow, s: TypeRow)
    requires r.ns == s.ns
    ensures QualifiedName(db, d, r) == r.name || '.' in QualifiedName(db, d, s)
  {
    if QualifiedName(db, d, r) != r.name {
      assert QualifiedName(db, d, s)[|db.namespaces[r.ns - 1]|] == '.';
    }
  }

  lemma {:induction false} PlainSpelling(name: string)
    ensures String(TypeExpr(name, false, [])) == name
  {
  }

  lemma {:induction false} InstanceInserted(db: Db, d: Dialect, fam: nat, canon: seq<TypeArg>, rows: seq<ArgRow>)
    requires Valid(db, d) && IsOid(db, fam) && Row(db, fam).family == 0 && rows != []
    requires ArgsGood(db, d, FoundArgs(canon, rows, true))
    requires var e := TypeExpr(QualifiedName(db, d, Row(db, fam)), false, canon);
             ExprIn(db.types, Row(db, fam).ns, Key(e)) == 0
    ensures var e := TypeExpr(QualifiedName(db, d, Row(db, fam)), false, canon);
            var r := InsertType(db, InstanceRow(Row(db, fam), fam, Key(e), rows), rows);
            Valid(r.db, d) && Extends(db, r.db) && Good(r.db, d, Found(r.oid, e))
  {
    hide String, ExprIn, RebuildArgs, Valid;
    ShapeSizes(db, d);
    var e := TypeExpr(QualifiedName(db, d, Row(db, fam)), false, canon);
    var row := InstanceRow(Row(db, fam), fam, Key(e), rows);
    var db' := Db(db.types + [row], db.args + [rows], db.namespaces);
    ShapeAppend(db, row, rows);
    RebuildArgsStable(db, db', d, |db.types|, rows);
    SpelledAlike(e.name, canon, RebuildArgs(db', d, |db.types|, rows));
    assert Rebuild(db', d, |db'.types|) == TypeExpr(e.name, false, RebuildArgs(db', d, |db.types|, rows));
    NewRowOk(db, d, fam, rows, row);
    ValidAppend(db, d, row, rows);
  }

  lemma {:induction false} NewRowOk(db: Db, d: Dialect, fam: nat, rows: seq<ArgRow>, row: TypeRow)
    requires Valid(db, d) && IsOid(db, fam) && Row(db, fam).family == 0 && rows != [] && RefsWithin(rows, |db.types|)
    requires row == InstanceRow(Row(db, fam), fam, row.expr, rows)
    requires Shape(Db(db.types + [row], db.args + [rows], db.namespaces))
    requires row.expr == String(Rebuild(Db(db.types + [row], db.args + [rows], db.namespaces), d, |db.types| + 1))
    ensures RowOk(Db(db.types + [row], db.args + [rows], db.namespaces), d, |db.types| + 1)
  {
    hide String, Rebuild;
    var db' := Db(db.types + [row], db.args + [rows], db.namespaces);
    assert RowOk(db, d, fam);
    assert Row(db', fam) == Row(db, fam) && Row(db', |db'.types|) == row && ArgsOf(db', |db'.types|) == rows;
  }

  lemma {:induction false} InstanceKeeps(db: Db, d: Dialect, fam: nat, args: ArgsOutcome, write: bool)
    requires Valid(db, d) && IsOid(db, fam) && Row(db, fam).family == 0
    requires args.FoundArgs? && args.canon != [] && args.rows != [] && ArgsGood(db, d, args)
    ensures var r := InternInstance(db, d, fam, args, write);
            Valid(r.db, d) && Extends(db, r.db) && Good(r.db, d, r.out)
  {
    hide Valid, String, ExprIn, Rebuild, ArgsGood, InsertType, QualifiedName, InstanceRow;
    ShapeSizes(db, d);
    var e := TypeExpr(QualifiedName(db, d, Row(db, fam)), false, args.canon);
    KeyStartsWithName(e);
    if args.known {
      var existing := ExprIn(db.types, Row(db, fam).ns, Key(e));
      if existing > 0 {
        InstanceFound(db, d, fam, existing, Key(e));
      } else if write {
        InstanceInserted(db, d, fam, args.canon, args.rows);
      }
    }
  }

  lemma {:induction false} InternKeeps(db: Db, d: Dialect, t0: TypeExpr, write: bool, fuel: nat)
    requires Valid(db, d)
    ensures var r := Intern(db, d, t0, write, fuel);
            Valid(r.db, d) && Extends(db, r.db) && Good(r.db, d, r.out)
    decreases fuel, 1, 0
  {
    hide Valid, Canonicalize, InternFamily, CanonicalFrom, InternArgs, InternInstance, Rebuild, String, TrimSpace;
    ShapeSizes(db, d);
    if fuel > 0 && TrimSpace(t0.name) != "" {
      var t := Canonicalize(db, d, t0);
      FamilyKeeps(db, d, Normal(t.name), write);
      var made := InternFamily(db, d, Normal(t.name), write);
      ShapeSizes(made.db, d);
      if made.oid > 0 {
        var fam := Canonical(made.db, made.oid);
        if fam > 0 {
          FamilyStays(db, d, Normal(t.name), write);
          CanonicalIsFamily(made.db, d, made.oid, 16);
          if t.args == [] {
            FamilyIsGood(made.db, d, fam);
          } else {
            ArgsKeep(made.db, d, t.args, write, fuel - 1);
            var done := InternArgs(made.db, d, t.args, write, fuel - 1);
            ShapeSizes(done.db, d);
            FailedGood(done.db, d);
            if done.out.FoundArgs? {
              ExtendsRow(made.db, done.db, fam);
              InstanceKeeps(done.db, d, fam, done.out, write);
            }
          }
        }
      }
    }
  }

  lemma {:induction false} FamilyStays(db: Db, d: Dialect, name: string, write: bool)
    ensures var r := InternFamily(db, d, name, write); r.oid > 0 ==> IsOid(r.db, r.oid) && Row(r.db, r.oid).family == 0
  {
    hide Family, UserTypeBase, Contains, NsOid, ExprIn;
  }

  lemma {:induction false} ExtendsRow(db: Db, db': Db, oid: nat)
    requires Extends(db, db') && IsOid(db, oid)
    ensures IsOid(db', oid) && Row(db', oid) == Row(db, oid)
  {
  }

  lemma {:induction false} CanonicalIsFamily(db: Db, d: Dialect, oid: nat, steps: nat)
    requires Valid(db, d) && IsOid(db, oid) && Row(db, oid).family == 0
    ensures var c := CanonicalFrom(db.types, oid, steps); c > 0 ==> Row(db, c).family == 0
    decreases steps
  {
    hide Rebuild, String;
    assert RowOk(db, d, oid);
    if steps > 0 && Row(db, oid).canonical != 0 {
      CanonicalIsFamily(db, d, Row(db, oid).canonical, steps - 1);
    }
  }

  lemma {:induction false} FamilyIsGood(db: Db, d: Dialect, fam: nat)
    requires Valid(db, d) && IsOid(db, fam) && Row(db, fam).family == 0
    ensures Good(db, d, Found(fam, TypeExpr(QualifiedName(db, d, Row(db, fam)), false, [])))
  {
    hide String;
  }

  lemma {:induction false} ArgsGoodLater(db: Db, db': Db, d: Dialect, a: TypeArg, row: ArgRow, rest: ArgsOutcome)
    requires Valid(db, d) && Valid(db', d) && Extends(db, db')
    requires (row.value.TypeRef? ==> 1 <= row.value.oid <= |db.types|)
    requires ArgString(a) == ArgString(RebuildArg(db, d, |db.types|, row))
    requires rest.FoundArgs? && rest.known && ArgsGood(db', d, rest)
    ensures ArgsGood(db', d, FoundArgs([a] + rest.canon, [row] + rest.rows, true))
  {
    hide Valid, Rebuild, ArgString, ArgsString;
    ShapeSizes(db, d);
    ShapeSizes(db', d);
    var rows := [row] + rest.rows;
    assert rows[1..] == rest.rows && rows[0] == row;
    if row.value.TypeRef? {
      RebuildStable(db, db', d, row.value.oid);
    }
    var first := RebuildArg(db', d, |db'.types|, row);
    assert first == RebuildArg(db, d, |db.types|, row);
    ArgsKept(a, first, rest.canon, RebuildArgs(db', d, |db'.types|, rest.rows));
  }

  lemma {:induction false} ArgsKeep(db: Db, d: Dialect, args: seq<TypeArg>, write: bool, fuel: nat)
    requires Valid(db, d)
    ensures var r := InternArgs(db, d, args, write, fuel);
            Valid(r.db, d) && Extends(db, r.db) && ArgsGood(r.db, d, r.out)
    decreases fuel, 2, |args|
  {
    hide Valid, Intern, Rebuild, String, ArgString, Good, ArgsGood;
    ShapeSizes(db, d);
    if args == [] {
      NoArgsGood(db, d);
    } else if !args[0].value.TypeVal? {
      ArgsKeep(db, d, args[1..], write, fuel);
      var rest := InternArgs(db, d, args[1..], write, fuel);
      if rest.out.FoundArgs? {
        LiteralArg(db, rest.db, d, args[0], rest.out);
      }
      FailedGood(rest.db, d);
    } else {
      var r := Intern(db, d, args[0].value.t, write, fuel);
      InternKeeps(db, d, args[0].value.t, write, fuel);
      ArgsKeep(r.db, d, args[1..], write, fuel);
      var rest := InternArgs(r.db, d, args[1..], write, fuel);
      if r.out.Found? && rest.out.FoundArgs? {
        TypeArgument(r.db, rest.db, d, args[0], r.out, rest.out);
      }
      FailedGood(r.db, d);
      FailedGood(rest.db, d);
    }
  }

  lemma {:induction false} NoArgsGood(db: Db, d: Dialect)
    requires Valid(db, d)
    ensures ArgsGood(db, d, FoundArgs([], [], true))
  {
  }

  /** Little is claimed of arguments that were not all found. */
  lemma {:induction false} FailedGood(db: Db, d: Dialect)
    requires Valid(db, d)
    ensures forall bad: Outcome :: ArgsGood(db, d, ArgsFailed(bad)) <==> !bad.Found?
    ensures forall bad: ArgsOutcome :: bad.FoundArgs? && !bad.known ==> ArgsGood(db, d, bad)
  {
  }

  lemma {:induction false} LiteralArg(db: Db, db': Db, d: Dialect, a: TypeArg, rest: ArgsOutcome)
    requires Valid(db, d) && Valid(db', d) && Extends(db, db') && !a.value.TypeVal?
    requires rest.FoundArgs? && ArgsGood(db', d, rest)
    ensures ArgsGood(db', d, FoundArgs([a] + rest.canon, [ArgRow(a.tag, Literal(a.value))] + rest.rows, rest.known))
  {
    hide Valid, ArgString, Rebuild, RebuildArgs;
    ShapeSizes(db, d);
    if rest.known {
      ArgsGoodLater(db, db', d, a, ArgRow(a.tag, Literal(a.value)), rest);
    }
  }

  lemma {:induction false} TypeArgument(db: Db, db': Db, d: Dialect, a: TypeArg, found: Outcome, rest: ArgsOutcome)
    requires Valid(db, d) && Valid(db', d) && Extends(db, db') && a.value.TypeVal?
    requires found.Found? && Good(db, d, found) && rest.FoundArgs? && ArgsGood(db', d, rest)
    ensures var n := a.value.t.nullable;
            ArgsGood(db', d, FoundArgs([TypeArg(a.tag, TypeVal(found.canon.(nullable := n)))] + rest.canon,
                                       [ArgRow(a.tag, TypeRef(found.oid, n))] + rest.rows, rest.known))
  {
    hide Valid, ArgString, Rebuild, RebuildArgs, String;
    ShapeSizes(db, d);
    if rest.known {
      var n := a.value.t.nullable;
      TypeArgAlike(a.tag, found.canon, Rebuild(db, d, found.oid), n);
      ArgsGoodLater(db, db', d, TypeArg(a.tag, TypeVal(found.canon.(nullable := n))), ArgRow(a.tag, TypeRef(found.oid, n)), rest);
    }
  }

  // ----- whole runs -----

  /** One call of ResolveTypeExpr, or of LookupTypeExpr when it does not write. */
  datatype Request = Request(t: TypeExpr, write: bool)

  function Serve(db: Db, d: Dialect, requests: seq<Request>, fuel: nat): Db {
    if requests == [] then db
    else
      var last := requests[|requests| - 1];
      Intern(Serve(db, d, requests[..|requests| - 1], fuel), d, last.t, last.write, fuel).db
  }

  /** After any run of resolves and lookups every instance row is spelled as its arguments rebuild it,
      no two rows share a namespace and a spelling, and no row has changed. */
  lemma {:induction false} RunKeepsValid(db: Db, d: Dialect, requests: seq<Request>, fuel: nat)
    requires Valid(db, d)
    ensures Valid(Serve(db, d, requests, fuel), d) && Extends(db, Serve(db, d, requests, fuel))
  {
    hide Valid, Intern;
    if requests != [] {
      var init, last := requests[..|requests| - 1], requests[|requests| - 1];
      RunKeepsValid(db, d, init, fuel);
      InternKeeps(Serve(db, d, init, fuel), d, last.t, last.write, fuel);
    }
  }

  /** ... so an answer rebuilt before the run is the answer rebuilt after it. */
  lemma {:induction false} RunKeepsAnswers(db: Db, d: Dialect, requests: seq<Request>, fuel: nat, oid: nat)
    requires Valid(db, d) && IsOid(db, oid)
    ensures var later := Serve(db, d, requests, fuel);
            Shape(later) && IsOid(later, oid) && Rebuild(later, d, oid) == Rebuild(db, d, oid)
  {
    RunKeepsValid(db, d, requests, fuel);
    hide Serve, Rebuild;
    RebuildStable(db, Serve(db, d, requests, fuel), d, oid);
  }

  /** Distinct types never share a row: whatever happens in between, two canonical expressions found at
      one row are equal, nullable marks included. */
  lemma {:induction false} OneRowOneType(db: Db, d: Dialect, t: Request, between: seq<Request>, u: Request, fuel: nat)
    requires Valid(db, d)
    requires var first := Intern(db, d, t.t, t.write, fuel);
             var second := Intern(Serve(first.db, d, between, fuel), d, u.t, u.write, fuel);
             && first.out.Found? && second.out.Found? && first.out.oid == second.out.oid
             && TypeExprKeys.Readable(first.out.canon) && TypeExprKeys.Readable(second.out.canon)
    ensures var first := Intern(db, d, t.t, t.write, fuel);
            first.out.canon == Intern(Serve(first.db, d, between, fuel), d, u.t, u.write, fuel).out.canon
  {
    hide Valid, Intern, Serve, Rebuild, String, TypeExprKeys.Readable;
    var first := Intern(db, d, t.t, t.write, fuel);
    var mid := Serve(first.db, d, between, fuel);
    var second := Intern(mid, d, u.t, u.write, fuel);
    InternKeeps(db, d, t.t, t.write, fuel);
    RunKeepsValid(first.db, d, between, fuel);
    InternKeeps(mid, d, u.t, u.write, fuel);
    ShapeSizes(first.db, d);
    ShapeSizes(second.db, d);
    RebuildStable(first.db, second.db, d, first.out.oid);
    NotNullableKey(first.out.canon);
    NotNullableKey(second.out.canon);
    TypeExprKeys.KeyIff(first.out.canon, second.out.canon);
  }

  lemma {:induction false} NotNullableKey(t: TypeExpr)
    ensures !t.nullable ==> Key(t) == String(t)
  {
  }
}
