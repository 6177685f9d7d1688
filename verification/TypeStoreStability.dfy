/** Resolving an expression again: names keep meaning what they meant, so the second resolve finds
    the row the first one made, and the read-only lookup finds it too. */
module TypeStoreStability {
  import opened Common
  import opened Text
  import opened TypeExprs
  import opened TypeRewrites
  import opened TypeStore
  import TypeStoreInvariant

  // ----- appending to the tables -----

  lemma {:induction false} FamilyInAppend(types: seq<TypeRow>, row: TypeRow, ns: nat, name: string)
    ensures FamilyIn(types + [row], ns, name) ==
            if FamilyIn(types, ns, name) > 0 then FamilyIn(types, ns, name)
            else if IsFamilyRow(row, ns, name) then |types| + 1 else 0
  {
    assert (types + [row])[..|types|] == types;
  }

  lemma {:induction false} ExprInPrefix(types: seq<TypeRow>, more: seq<TypeRow>, ns: nat, expr: string)
    requires types <= more && ExprIn(types, ns, expr) > 0
    ensures ExprIn(more, ns, expr) == ExprIn(types, ns, expr)
    decreases |more|
  {
    if |types| < |more| {
      assert types <= more[..|more| - 1];
      ExprInPrefix(types, more[..|more| - 1], ns, expr);
    } else {
      assert types == more;
    }
  }

  lemma {:induction false} ExprInAppended(types: seq<TypeRow>, row: TypeRow)
    requires ExprIn(types, row.ns, row.expr) == 0
    ensures ExprIn(types + [row], row.ns, row.expr) == |types| + 1
  {
    assert (types + [row])[..|types|] == types;
  }

  lemma {:induction false} NsOidPrefix(nss: seq<string>, more: seq<string>, name: string)
    requires nss <= more && NsOid(nss, name) > 0
    ensures NsOid(more, name) == NsOid(nss, name)
    decreases |more|
  {
    if |nss| < |more| {
      assert nss <= more[..|more| - 1];
      assert name in more[..|more| - 1];
      NsOidPrefix(nss, more[..|more| - 1], name);
    } else {
      assert nss == more;
    }
  }

  // ----- growth that shadows nothing -----

  /** Every row's namespace exists, and an alias points at a row that does. */
  ghost predicate RowsOk(db: Db) {
    forall i :: 0 <= i < |db.types| ==> 1 <= db.types[i].ns <= |db.namespaces| && db.types[i].canonical <= |db.types|
  }

  /** A name that carries one of the default namespaces. */
  predicate DefaultQualified(d: Dialect, name: string) { Qualifier(name) != "" && IsDefault(d, Qualifier(name)) }

  /** A name that was known still means the same row, and one that became known is its own
      canonical name. */
  ghost predicate NameGrows(db: Db, db': Db, d: Dialect, name: string) {
    && (Family(db, d, name) > 0 ==> Family(db', d, name) == Family(db, d, name))
    && (Family(db, d, name) == 0 && Family(db', d, name) > 0 && !DefaultQualified(d, name) ==>
          var oid := Family(db', d, name);
          Row(db', oid).canonical == 0 && QualifiedName(db', d, Row(db', oid)) == name)
  }

  ghost predicate Grows(db: Db, db': Db, d: Dialect) {
    && db.types <= db'.types && db.namespaces <= db'.namespaces
    && RowsOk(db) && RowsOk(db')
    && forall name :: NameGrows(db, db', d, name)
  }

  lemma {:induction false} CanonicalStable(db: Db, db': Db, oid: nat, steps: nat)
    requires db.types <= db'.types && RowsOk(db) && oid <= |db.types|
    ensures CanonicalFrom(db'.types, oid, steps) == CanonicalFrom(db.types, oid, steps)
    decreases steps
  {
    if steps > 0 && oid > 0 && db.types[oid - 1].canonical != 0 {
      CanonicalStable(db, db', db.types[oid - 1].canonical, steps - 1);
    }
  }

  lemma {:induction false} QualifiedStable(db: Db, db': Db, d: Dialect, oid: nat)
    requires db.types <= db'.types && db.namespaces <= db'.namespaces && RowsOk(db) && IsOid(db, oid)
    ensures IsOid(db', oid) && Row(db', oid) == Row(db, oid)
    ensures QualifiedName(db', d, Row(db', oid)) == QualifiedName(db, d, Row(db, oid))
  {
    var ns := db.types[oid - 1].ns;
    assert db'.namespaces[ns - 1] == db.namespaces[ns - 1];
  }

  lemma {:induction false} GrowsRefl(db: Db, d: Dialect)
    requires RowsOk(db)
    ensures Grows(db, db, d)
  {
    hide Family;
  }

  lemma {:induction false} GrowsTrans(a: Db, b: Db, c: Db, d: Dialect)
    requires Grows(a, b, d) && Grows(b, c, d)
    ensures Grows(a, c, d)
  {
    hide Family, QualifiedName;
    forall name
      ensures NameGrows(a, c, d, name)
    {
      assert NameGrows(a, b, d, name) && NameGrows(b, c, d, name);
      if Family(b, d, name) > 0 {
        QualifiedStable(b, c, d, Family(b, d, name));
      }
    }
  }

  lemma {:induction false} GrowsKnown(db: Db, db': Db, d: Dialect, name: string)
    requires Grows(db, db', d)
    ensures NameGrows(db, db', d, name)
  {
  }

  // ----- inserting an instance changes no family -----

  lemma {:induction false} InstanceGrows(db: Db, d: Dialect, row: TypeRow, rows: seq<ArgRow>)
    requires RowsOk(db) && row.family > 0 && row.canonical == 0 && 1 <= row.ns <= |db.namespaces|
    ensures Grows(db, Db(db.types + [row], db.args + [rows], db.namespaces), d)
    ensures forall name :: Family(Db(db.types + [row], db.args + [rows], db.namespaces), d, name) == Family(db, d, name)
  {
    hide FamilyIn, NsOid, Qualifier, Bare;
    var db' := Db(db.types + [row], db.args + [rows], db.namespaces);
    forall name
      ensures Family(db', d, name) == Family(db, d, name) && NameGrows(db, db', d, name)
    {
      forall ns: string, bare: string
        ensures FamilyInNamed(db', ns, bare) == FamilyInNamed(db, ns, bare)
      {
        FamilyInAppend(db.types, row, NsOid(db.namespaces, ns), bare);
      }
    }
  }

  // ----- registering a family shadows nothing, unless its name carries a default namespace -----

  /** `db` with schema `ns` (created if missing) and one more row in it. */
  ghost predicate AddsFamily(db: Db, db': Db, ns: string, row: TypeRow) {
    && db'.namespaces == (if ns in db.namespaces then db.namespaces else db.namespaces + [ns])
    && db'.types == db.types + [row]
    && row.ns == NsOid(db'.namespaces, ns) && row.family == 0 && row.canonical == 0
  }

  lemma {:induction false} NoRowsThere(types: seq<TypeRow>, ns: nat, name: string)
    requires forall i :: 0 <= i < |types| ==> types[i].ns != ns
    ensures FamilyIn(types, ns, name) == 0
  {
    if types != [] {
      NoRowsThere(types[..|types| - 1], ns, name);
    }
  }

  lemma {:induction false} NsOidAppend(nss: seq<string>, ns: string, x: string)
    requires ns !in nss
    ensures NsOid(nss + [ns], x) == if NsOid(nss, x) > 0 then NsOid(nss, x) else if x == ns then |nss| + 1 else 0
  {
    assert (nss + [ns])[..|nss|] == nss;
  }

  lemma {:induction false} NsOidAfter(db: Db, db': Db, ns: string, row: TypeRow, x: string)
    requires AddsFamily(db, db', ns, row)
    ensures NsOid(db'.namespaces, x) ==
            if NsOid(db.namespaces, x) > 0 then NsOid(db.namespaces, x)
            else if x == ns then |db.namespaces| + 1 else 0
  {
    hide NsOid;
    if ns !in db.namespaces {
      NsOidAppend(db.namespaces, ns, x);
    }
  }

  lemma {:induction false} NsOidInjective(nss: seq<string>, x: string, y: string)
    requires NsOid(nss, x) > 0 && NsOid(nss, x) == NsOid(nss, y)
    ensures x == y
  {
  }

  lemma {:induction false} FamilyAfter(db: Db, db': Db, ns: string, row: TypeRow, x: string, name: string)
    requires RowsOk(db) && AddsFamily(db, db', ns, row) && FamilyInNamed(db, ns, row.name) == 0
    ensures FamilyInNamed(db', x, name) ==
            if FamilyInNamed(db, x, name) > 0 then FamilyInNamed(db, x, name)
            else if x == ns && name == row.name then |db'.types| else 0
  {
    hide FamilyIn, NsOid;
    NsOidAfter(db, db', ns, row, x);
    NsOidAfter(db, db', ns, row, ns);
    var oid := NsOid(db'.namespaces, x);
    FamilyInAppend(db.types, row, oid, name);
    if oid > 0 && NsOid(db.namespaces, x) == 0 {
      NoRowsThere(db.types, oid, name);
    }
    if oid > 0 && oid == row.ns {
      NsOidInjective(db'.namespaces, x, ns);
    }
  }

  lemma {:induction false} Rejoin(name: string)
    requires Qualifier(name) != ""
    ensures Qualifier(name) + "." + Bare(name) == name
  {
    DotThere(name);
  }

  lemma {:induction false} DotThere(name: string)
    ensures LastDot(name) >= 0 ==> name[LastDot(name)] == '.'
  {
    if name != "" && name[|name| - 1] != '.' {
      DotThere(name[..|name| - 1]);
    }
  }

  /** The schema and name a new family is put under match the name it was asked by. */
  ghost predicate PutAs(d: Dialect, name: string, ns: string, bare: string) {
    if Qualifier(name) == "" then IsDefault(d, ns) && bare == name
    else ns == Qualifier(name) && bare == Bare(name) && !IsDefault(d, ns)
  }

  lemma {:induction false} UnknownThere(db: Db, d: Dialect, name: string, ns: string, bare: string)
    requires Family(db, d, name) == 0 && PutAs(d, name, ns, bare)
    ensures FamilyInNamed(db, ns, bare) == 0
  {
    hide FamilyInNamed, LastDot;
  }

  /** The names that reach a family `bare` put in namespace `ns`. */
  ghost predicate Reaches(d: Dialect, ns: string, bare: string, name: string) {
    Bare(name) == bare && if Qualifier(name) == "" then IsDefault(d, ns) else Qualifier(name) == ns
  }

  lemma {:induction false} NewFamilyOf(db: Db, db': Db, d: Dialect, name: string, ns: string, row: TypeRow, other: string)
    requires RowsOk(db) && AddsFamily(db, db', ns, row) && Family(db, d, name) == 0 && PutAs(d, name, ns, row.name)
    ensures Family(db', d, other) ==
            if Family(db, d, other) > 0 then Family(db, d, other)
            else if Reaches(d, ns, row.name, other) then |db'.types| else 0
  {
    hide FamilyInNamed, LastDot, NsOid, AddsFamily;
    UnknownThere(db, d, name, ns, row.name);
    var bare := Bare(other);
    FamilyAfter(db, db', ns, row, Qualifier(other), bare);
    FamilyAfter(db, db', ns, row, "pg_catalog", bare);
    FamilyAfter(db, db', ns, row, "public", bare);
    FamilyAfter(db, db', ns, row, d.defaultSchema, bare);
    if IsDefault(d, ns) && bare == row.name && Qualifier(other) == "" {
      assert Qualifier(name) == "" && Bare(name) == bare;
    }
  }

  lemma {:induction false} NewNameQualifies(db: Db, db': Db, d: Dialect, ns: string, row: TypeRow, other: string)
    requires AddsFamily(db, db', ns, row) && ns != "" && Reaches(d, ns, row.name, other) && !DefaultQualified(d, other)
    ensures QualifiedName(db', d, row) == other
  {
    hide LastDot;
    assert 1 <= row.ns && db'.namespaces[row.ns - 1] == ns by { NsOidAfter(db, db', ns, row, ns); }
    if Qualifier(other) != "" {
      Rejoin(other);
    }
  }

  lemma {:induction false} NewNameGrows(db: Db, db': Db, d: Dialect, name: string, ns: string, row: TypeRow, other: string)
    requires RowsOk(db) && AddsFamily(db, db', ns, row) && Family(db, d, name) == 0 && PutAs(d, name, ns, row.name)
    requires ns != ""
    ensures NameGrows(db, db', d, other)
    ensures Family(db', d, name) == |db'.types|
  {
    hide Family, QualifiedName, LastDot, NsOid;
    NewFamilyOf(db, db', d, name, ns, row, other);
    NewFamilyOf(db, db', d, name, ns, row, name);
    assert Row(db', |db'.types|) == row;
    if Reaches(d, ns, row.name, other) && !DefaultQualified(d, other) {
      NewNameQualifies(db, db', d, ns, row, other);
    }
  }

  lemma {:induction false} FamilyGrows(db: Db, db': Db, d: Dialect, name: string, ns: string, row: TypeRow)
    requires RowsOk(db) && AddsFamily(db, db', ns, row) && Family(db, d, name) == 0 && PutAs(d, name, ns, row.name)
    requires ns != ""
    ensures Grows(db, db', d) && Family(db', d, name) == |db'.types|
  {
    hide Family, AddsFamily, NameGrows;
    assert RowsOk(db') && db.types <= db'.types && db.namespaces <= db'.namespaces by { AddedRowsOk(db, db', ns, row); }
    forall other
      ensures NameGrows(db, db', d, other)
    {
      NewNameGrows(db, db', d, name, ns, row, other);
    }
    NewNameGrows(db, db', d, name, ns, row, name);
  }

  lemma {:induction false} AddedRowsOk(db: Db, db': Db, ns: string, row: TypeRow)
    requires RowsOk(db) && AddsFamily(db, db', ns, row)
    ensures RowsOk(db') && db.types <= db'.types && db.namespaces <= db'.namespaces
  {
    hide NsOid;
  }

  lemma {:induction false} NoDots()
    ensures Qualifier(ARRAY) == "" && Bare(ARRAY) == ARRAY
  {
    assert LastDot("array") == -1 by {
      assert "array"[..4] == "arra" && "arra"[..3] == "arr" && "arr"[..2] == "ar" && "ar"[..1] == "a" && "a"[..0] == "";
      assert LastDot("a") == -1;
      assert LastDot("ar") == -1;
      assert LastDot("arr") == -1;
      assert LastDot("arra") == -1;
    }
  }

  lemma {:induction false} InternFamilyGrows(db: Db, d: Dialect, name: string, write: bool)
    requires RowsOk(db) && (DefaultQualified(d, name) ==> Family(db, d, name) > 0)
    requires InternFamily(db, d, name, write).oid > 0
    ensures var r := InternFamily(db, d, name, write);
            Grows(db, r.db, d) && Family(r.db, d, name) == r.oid
  {
    hide Family, UserTypeBase, Contains, NsOid, ExprIn, LastDot, Grows;
    var r := InternFamily(db, d, name, write);
    if Family(db, d, name) > 0 {
      GrowsRefl(db, d);
    } else if name == ARRAY {
      NoDots();
      FamilyGrows(db, r.db, d, name, "public", r.db.types[|db.types|]);
    } else {
      assert AddsFamily(db, r.db, Schema(d, name), r.db.types[|db.types|]);
      FamilyGrows(db, r.db, d, name, Schema(d, name), r.db.types[|db.types|]);
    }
  }

  // ----- resolving twice -----

  /** A name carries a default namespace only if the catalog already holds it. */
  function Ready(db: Db, d: Dialect): string -> bool {
    (n: string) => DefaultQualified(d, Normal(n)) ==> Family(db, d, Normal(n)) > 0
  }

  /** The rewrites name only families the catalog holds. */
  ghost predicate PatternsKnown(db: Db, d: Dialect) {
    forall rw :: rw in d.rules.rewrites ==> Family(db, d, ToLower(rw.pattern.name)) > 0
  }

  /** The conditions under which a resolve can be repeated, to be checked before the first one. */
  ghost predicate Repeatable(db: Db, d: Dialect) {
    RowsOk(db) && PatternsKnown(db, d) && RuleNames(d.rules, Ready(db, d))
  }

  lemma {:induction false} NamesMono(t: TypeExpr, p: string -> bool, q: string -> bool)
    requires Names(t, p) && forall n :: p(n) ==> q(n)
    ensures Names(t, q)
    decreases t, 1
  {
    ArgNamesMono(t.args, p, q);
  }

  lemma {:induction false} ArgNamesMono(args: seq<TypeArg>, p: string -> bool, q: string -> bool)
    requires ArgNames(args, p) && forall n :: p(n) ==> q(n)
    ensures ArgNames(args, q)
    decreases args, 0
  {
    if args != [] {
      if args[0].value.TypeVal? {
        NamesMono(args[0].value.t, p, q);
      }
      ArgNamesMono(args[1..], p, q);
    }
  }

  lemma {:induction false} ReadyGrows(db: Db, db': Db, d: Dialect)
    requires Grows(db, db', d)
    ensures forall n :: Ready(db, d)(n) ==> Ready(db', d)(n)
  {
    hide Family, Normal, DefaultQualified;
    forall n | Ready(db, d)(n)
      ensures Ready(db', d)(n)
    {
      GrowsKnown(db, db', d, Normal(n));
    }
  }

  lemma {:induction false} RepeatableGrows(db: Db, db': Db, d: Dialect)
    requires Grows(db, db', d) && Repeatable(db, d)
    ensures Repeatable(db', d)
  {
    hide Family, Ready;
    ReadyGrows(db, db', d);
    RuleNamesMono(d.rules, Ready(db, d), Ready(db', d));
    forall rw | rw in d.rules.rewrites
      ensures Family(db', d, ToLower(rw.pattern.name)) > 0
    {
      GrowsKnown(db, db', d, ToLower(rw.pattern.name));
    }
  }

  lemma {:induction false} RuleNamesMono(r: Rules, p: string -> bool, q: string -> bool)
    requires RuleNames(r, p) && forall n :: p(n) ==> q(n)
    ensures RuleNames(r, q)
  {
    hide Names;
    forall rw | rw in r.rewrites
      ensures Names(rw.template, q)
    {
      NamesMono(rw.template, p, q);
    }
  }

  lemma {:induction false} LowerTwice(s: string)
    ensures ToLower(ToLower(s)) == ToLower(s)
  {
    if s != "" {
      LowerTwice(s[1..]);
      assert ToLower(s)[1..] == ToLower(s[1..]);
    }
  }

  lemma {:induction false} CanonicalNameStable(db: Db, db': Db, d: Dialect, name: string)
    requires Grows(db, db', d) && Ready(db, d)(name)
    ensures Family(db, d, Normal(name)) > 0 ==> CanonicalName(db', d, name) == CanonicalName(db, d, name)
    ensures Family(db, d, Normal(name)) == 0 ==>
              CanonicalName(db, d, name) == None
              && (CanonicalName(db', d, name) == None || CanonicalName(db', d, name) == Some(Normal(name)))
  {
    hide Family, QualifiedName, Normal, DefaultQualified;
    var n := Normal(name);
    GrowsKnown(db, db', d, n);
    var oid := Family(db, d, n);
    if oid > 0 {
      CanonicalStable(db, db', oid, 16);
      var c := Canonical(db, oid);
      if c > 0 {
        QualifiedStable(db, db', d, c);
      }
    } else if Family(db', d, n) > 0 {
      assert CanonicalFrom(db'.types, Family(db', d, n), 16) == Family(db', d, n);
    }
  }

  /** A name that has become known in between is not one a rewrite waits for. */
  lemma {:induction false} CanonicalizeStable(db: Db, db': Db, d: Dialect, t: TypeExpr)
    requires Grows(db, db', d) && PatternsKnown(db, d) && Ready(db, d)(t.name)
    ensures Canonicalize(db', d, t) == Canonicalize(db, d, t)
  {
    hide Grows, Family, CanonicalName, Apply, IdentifyArgs, Ready, ToLower, TrimSpace;
    var u := Identify(d.rules, t);
    CanonicalNameStable(db, db', d, u.name);
    var n := Normal(u.name);
    if Family(db, d, n) == 0 {
      LowerTwice(TrimSpace(u.name));
      ApplyNeedsName(d.rules.rewrites, u.(name := n));
    }
  }

  lemma {:induction false} InternGrows(db: Db, d: Dialect, t0: TypeExpr, fuel: nat)
    requires Repeatable(db, d) && Names(t0, Ready(db, d)) && Intern(db, d, t0, true, fuel).out.Found?
    ensures Grows(db, Intern(db, d, t0, true, fuel).db, d)
    decreases fuel, 1, 0
  {
    hide Grows, Repeatable, Ready, Canonicalize, InternFamily, CanonicalFrom, InternArgs, InternInstance, TrimSpace, ArgNames, QualifiedName;
    var t := Canonicalize(db, d, t0);
    var made := InternFamily(db, d, Normal(t.name), true);
    FirstStep(db, d, t0);
    if t.args != [] {
      ReadyGrows(db, made.db, d);
      RepeatableGrows(db, made.db, d);
      ArgNamesMono(t.args, Ready(db, d), Ready(made.db, d));
      FoundMeans(db, d, t0, true, fuel);
      ArgsGrow(made.db, d, t.args, fuel - 1);
      var done := InternArgs(made.db, d, t.args, true, fuel - 1);
      GrowsTrans(db, made.db, done.db, d);
      LastStep(done.db, d, Canonical(made.db, made.oid), done.out);
      GrowsTrans(db, done.db, Intern(db, d, t0, true, fuel).db, d);
    }
  }

  lemma {:induction false} ArgsNotFound(db: Db, d: Dialect, args: seq<TypeArg>, write: bool, fuel: nat)
    ensures var r := InternArgs(db, d, args, write, fuel); r.out.ArgsFailed? ==> !r.out.out.Found?
    decreases |args|
  {
    hide Intern;
    if args != [] {
      ArgsNotFound(db, d, args[1..], write, fuel);
      if args[0].value.TypeVal? {
        ArgsNotFound(Intern(db, d, args[0].value.t, write, fuel).db, d, args[1..], write, fuel);
      }
    }
  }

  /** An instance that was found or made had all its arguments found. */
  lemma {:induction false} FoundMeans(db: Db, d: Dialect, t0: TypeExpr, write: bool, fuel: nat)
    requires fuel > 0 && Intern(db, d, t0, write, fuel).out.Found? && Canonicalize(db, d, t0).args != []
    ensures var t := Canonicalize(db, d, t0);
            var made := InternFamily(db, d, Normal(t.name), write);
            var done := InternArgs(made.db, d, t.args, write, fuel - 1);
            && made.oid > 0 && Canonical(made.db, made.oid) > 0 && done.out.FoundArgs? && done.out.known
            && InternInstance(done.db, d, Canonical(made.db, made.oid), done.out, write).out.Found?
  {
    hide Canonicalize, InternFamily, CanonicalFrom, InternArgs, TrimSpace, QualifiedName, ExprIn, String, InsertType;
    var t := Canonicalize(db, d, t0);
    var made := InternFamily(db, d, Normal(t.name), write);
    ArgsNotFound(made.db, d, t.args, write, fuel - 1);
  }

  lemma {:induction false} FirstStep(db: Db, d: Dialect, t0: TypeExpr)
    requires Repeatable(db, d) && Names(t0, Ready(db, d))
    requires InternFamily(db, d, Normal(Canonicalize(db, d, t0).name), true).oid > 0
    ensures var t := Canonicalize(db, d, t0);
            var made := InternFamily(db, d, Normal(t.name), true);
            && Names(t, Ready(db, d)) && Grows(db, made.db, d) && RowsOk(made.db)
            && Family(made.db, d, Normal(t.name)) == made.oid
  {
    hide Canonicalize, InternFamily, Family, ArgNames, RuleNames, PatternsKnown, Normal, DefaultQualified;
    var t := Canonicalize(db, d, t0);
    TypeStoreInvariant.CanonicalizeNames(db, d, t0, Ready(db, d));
    assert Ready(db, d)(t.name);
    InternFamilyGrows(db, d, Normal(t.name), true);
  }

  lemma {:induction false} LastStep(db: Db, d: Dialect, fam: nat, args: ArgsOutcome)
    requires args.FoundArgs? && InternInstance(db, d, fam, args, true).out.Found? && fam > 0
    requires RowsOk(db)
    ensures var r := InternInstance(db, d, fam, args, true);
            && Grows(db, r.db, d) && args.known
            && ExprIn(r.db.types, Row(db, fam).ns, Key(r.out.canon)) == r.out.oid
  {
    hide Grows, ExprIn, QualifiedName, String;
    var family := Row(db, fam);
    var canon := TypeExpr(QualifiedName(db, d, family), false, args.canon);
    if ExprIn(db.types, family.ns, Key(canon)) > 0 {
      GrowsRefl(db, d);
    } else {
      var row := InstanceRow(family, fam, Key(canon), args.rows);
      assert family == db.types[fam - 1];
      InstanceGrows(db, d, row, args.rows);
      ExprInAppended(db.types, row);
    }
  }

  lemma {:induction false} ArgsGrow(db: Db, d: Dialect, args: seq<TypeArg>, fuel: nat)
    requires Repeatable(db, d) && ArgNames(args, Ready(db, d)) && InternArgs(db, d, args, true, fuel).out.FoundArgs?
    requires InternArgs(db, d, args, true, fuel).out.known
    ensures Grows(db, InternArgs(db, d, args, true, fuel).db, d) && RowsOk(InternArgs(db, d, args, true, fuel).db)
    decreases fuel, 2, |args|
  {
    hide Grows, Ready, Intern, Names, RuleNames, PatternsKnown;
    if args == [] {
      GrowsRefl(db, d);
    } else if !args[0].value.TypeVal? {
      ArgsGrow(db, d, args[1..], fuel);
    } else {
      var u := args[0].value.t;
      var r := Intern(db, d, u, true, fuel);
      InternGrows(db, d, u, fuel);
      ReadyGrows(db, r.db, d);
      RepeatableGrows(db, r.db, d);
      ArgNamesMono(args[1..], Ready(db, d), Ready(r.db, d));
      ArgsGrow(r.db, d, args[1..], fuel);
      GrowsTrans(db, r.db, InternArgs(r.db, d, args[1..], true, fuel).db, d);
    }
  }

  lemma {:induction false} SameInstance(db: Db, db2: Db, d: Dialect, fam: nat, args: ArgsOutcome, write: bool)
    requires args.FoundArgs? && fam > 0 && RowsOk(db) && InternInstance(db, d, fam, args, true).out.Found?
    requires var r := InternInstance(db, d, fam, args, true);
             r.db.types <= db2.types && db.namespaces <= db2.namespaces && db.types <= db2.types
    ensures InternInstance(db2, d, fam, args, write) == Step(db2, InternInstance(db, d, fam, args, true).out)
  {
    hide ExprIn, QualifiedName, String, Grows, InsertType;
    var r := InternInstance(db, d, fam, args, true);
    LastStep(db, d, fam, args);
    QualifiedStable(db, db2, d, fam);
    ExprInPrefix(r.db.types, db2.types, Row(db, fam).ns, Key(r.out.canon));
  }

  /** Whatever was resolved once is found again, in any later state, whether or not writing is
      allowed, and finding it writes nothing. */
  lemma {:induction false} Again(db: Db, d: Dialect, t0: TypeExpr, fuel: nat, db2: Db, write: bool)
    requires Repeatable(db, d) && Names(t0, Ready(db, d)) && Intern(db, d, t0, true, fuel).out.Found?
    requires Grows(Intern(db, d, t0, true, fuel).db, db2, d)
    ensures Intern(db2, d, t0, write, fuel) == Step(db2, Intern(db, d, t0, true, fuel).out)
    decreases fuel, 1, 0
  {
    hide Grows, Repeatable, Ready, Canonicalize, InternFamily, CanonicalFrom, InternArgs, InternInstance, TrimSpace, ArgNames, QualifiedName;
    var t := Canonicalize(db, d, t0);
    var made := InternFamily(db, d, Normal(t.name), true);
    var r := Intern(db, d, t0, true, fuel);
    FirstStep(db, d, t0);
    InternGrows(db, d, t0, fuel);
    GrowsTrans(db, r.db, db2, d);
    SameStart(db, db2, d, t0, write);
    if t.args == [] {
      assert r.db == made.db;
      SameFamily(made.db, db2, d, Normal(t.name), made.oid);
    } else {
      ReadyGrows(db, made.db, d);
      RepeatableGrows(db, made.db, d);
      ArgNamesMono(t.args, Ready(db, d), Ready(made.db, d));
      FoundMeans(db, d, t0, true, fuel);
      ArgsGrow(made.db, d, t.args, fuel - 1);
      var done := InternArgs(made.db, d, t.args, true, fuel - 1);
      var fam := Canonical(made.db, made.oid);
      LastStep(done.db, d, fam, done.out);
      GrowsTrans(done.db, r.db, db2, d);
      GrowsTrans(made.db, done.db, db2, d);
      ArgsAgain(made.db, d, t.args, fuel - 1, db2, write);
      SameFamily(made.db, db2, d, Normal(t.name), made.oid);
      GrowsTables(r.db, db2, d);
      GrowsTables(done.db, db2, d);
      SameInstance(done.db, db2, d, fam, done.out, write);
    }
  }

  lemma {:induction false} GrowsTables(db: Db, db': Db, d: Dialect)
    requires Grows(db, db', d)
    ensures db.types <= db'.types && db.namespaces <= db'.namespaces && RowsOk(db) && RowsOk(db')
  {
  }

  lemma {:induction false} SameStart(db: Db, db2: Db, d: Dialect, t0: TypeExpr, write: bool)
    requires Repeatable(db, d) && Names(t0, Ready(db, d)) && Grows(db, db2, d)
    ensures Canonicalize(db2, d, t0) == Canonicalize(db, d, t0)
  {
    hide Grows, Ready, Canonicalize, ArgNames, RuleNames;
    CanonicalizeStable(db, db2, d, t0);
  }

  lemma {:induction false} SameFamily(db: Db, db2: Db, d: Dialect, name: string, oid: nat)
    requires Grows(db, db2, d) && Family(db, d, name) == oid > 0
    ensures forall write :: InternFamily(db2, d, name, write) == Insert(db2, oid)
    ensures Canonical(db2, oid) == Canonical(db, oid)
    ensures Canonical(db, oid) > 0 ==>
              QualifiedName(db2, d, Row(db2, Canonical(db, oid))) == QualifiedName(db, d, Row(db, Canonical(db, oid)))
  {
    hide Family, QualifiedName;
    GrowsKnown(db, db2, d, name);
    CanonicalStable(db, db2, oid, 16);
    if Canonical(db, oid) > 0 {
      QualifiedStable(db, db2, d, Canonical(db, oid));
    }
  }

  lemma {:induction false} ArgsAgain(db: Db, d: Dialect, args: seq<TypeArg>, fuel: nat, db2: Db, write: bool)
    requires Repeatable(db, d) && ArgNames(args, Ready(db, d))
    requires InternArgs(db, d, args, true, fuel).out.FoundArgs? && InternArgs(db, d, args, true, fuel).out.known
    requires Grows(InternArgs(db, d, args, true, fuel).db, db2, d)
    ensures InternArgs(db2, d, args, write, fuel) == ArgsStep(db2, InternArgs(db, d, args, true, fuel).out)
    decreases fuel, 2, |args|
  {
    hide Grows, Ready, Intern, Names, RuleNames, PatternsKnown;
    if args == [] {
    } else if !args[0].value.TypeVal? {
      ArgsAgain(db, d, args[1..], fuel, db2, write);
    } else {
      var u := args[0].value.t;
      var r := Intern(db, d, u, true, fuel);
      InternGrows(db, d, u, fuel);
      ReadyGrows(db, r.db, d);
      RepeatableGrows(db, r.db, d);
      ArgNamesMono(args[1..], Ready(db, d), Ready(r.db, d));
      ArgsGrow(r.db, d, args[1..], fuel);
      GrowsTrans(r.db, InternArgs(r.db, d, args[1..], true, fuel).db, db2, d);
      Again(db, d, u, fuel, db2, write);
      ArgsAgain(r.db, d, args[1..], fuel, db2, write);
    }
  }

  /** A second ResolveTypeExpr returns the same row and inserts nothing. */
  lemma {:induction false} ResolveTwice(db: Db, d: Dialect, t: TypeExpr, fuel: nat)
    requires Repeatable(db, d) && Names(t, Ready(db, d)) && Intern(db, d, t, true, fuel).out.Found?
    ensures var first := Intern(db, d, t, true, fuel);
            Intern(first.db, d, t, true, fuel) == first
  {
    hide Grows, Repeatable, Ready, Intern, Names;
    var first := Intern(db, d, t, true, fuel);
    InternGrows(db, d, t, fuel);
    GrowsTables(db, first.db, d);
    GrowsRefl(first.db, d);
    Again(db, d, t, fuel, first.db, true);
  }

  // ----- LookupTypeExpr -----

  datatype TypeLookup = TypeLookup(oid: nat, family: nat, expr: TypeExpr)

  /** The family a row belongs to: itself when it is one. */
  function FamilyOfRow(db: Db, oid: nat): nat {
    if IsOid(db, oid) && Row(db, oid).family != 0 then Row(db, oid).family else oid
  }

  /** LookupTypeExpr: the instance row if there is one, else the family of the canonical name. */
  function LookupTypeExpr(db: Db, d: Dialect, t: TypeExpr, fuel: nat): Option<TypeLookup> {
    match Intern(db, d, t, false, fuel).out
    case Failed => None
    case Unknown(None) => None
    case Unknown(Some(canon)) =>
      var fam := Intern(db, d, TypeExpr(canon.name, false, []), false, fuel).out;
      if fam.Found? then Some(TypeLookup(fam.oid, fam.oid, canon)) else None
    case Found(oid, canon) =>
      if !IsOid(db, oid) then None
      else Some(TypeLookup(oid, if Row(db, oid).family == 0 then oid else Row(db, oid).family, canon))
  }

  /** A lookup never writes. */
  lemma {:induction false} LookupWritesNothing(db: Db, d: Dialect, t: TypeExpr, fuel: nat)
    ensures Intern(db, d, t, false, fuel).db == db
    decreases fuel, 1, 0
  {
    hide Canonicalize, Family, CanonicalFrom, TrimSpace, ExprIn, String, QualifiedName;
    if fuel > 0 {
      LookupArgsWriteNothing(db, d, Canonicalize(db, d, t).args, fuel - 1);
    }
  }

  lemma {:induction false} LookupArgsWriteNothing(db: Db, d: Dialect, args: seq<TypeArg>, fuel: nat)
    ensures InternArgs(db, d, args, false, fuel).db == db
    decreases fuel, 2, |args|
  {
    hide Intern;
    if args != [] {
      if args[0].value.TypeVal? {
        LookupWritesNothing(db, d, args[0].value.t, fuel);
      }
      LookupArgsWriteNothing(db, d, args[1..], fuel);
    }
  }

  lemma {:induction false} FoundIsRow(db: Db, d: Dialect, t: TypeExpr, write: bool, fuel: nat)
    ensures var r := Intern(db, d, t, write, fuel); r.out.Found? ==> IsOid(r.db, r.out.oid)
  {
    hide Canonicalize, InternFamily, CanonicalFrom, InternArgs, TrimSpace, QualifiedName, ExprIn, String;
    if fuel > 0 && Canonicalize(db, d, t).args != [] && Intern(db, d, t, write, fuel).out.Found? {
      FoundMeans(db, d, t, write, fuel);
    }
  }

  /** A lookup after a resolve returns the row the resolve returned, with the same canonical
      expression at every depth. */
  lemma {:induction false} LookupAgrees(db: Db, d: Dialect, t: TypeExpr, fuel: nat)
    requires Repeatable(db, d) && Names(t, Ready(db, d)) && Intern(db, d, t, true, fuel).out.Found?
    ensures var first := Intern(db, d, t, true, fuel);
            var found := LookupTypeExpr(first.db, d, t, fuel);
            && Intern(first.db, d, t, false, fuel) == first
            && found.Some? && found.value.oid == first.out.oid && found.value.expr == first.out.canon
            && found.value.family == FamilyOfRow(first.db, first.out.oid)
  {
    hide Grows, Repeatable, Ready, Intern, Names;
    FoundIsRow(db, d, t, true, fuel);
    var first := Intern(db, d, t, true, fuel);
    InternGrows(db, d, t, fuel);
    GrowsTables(db, first.db, d);
    GrowsRefl(first.db, d);
    Again(db, d, t, fuel, first.db, false);
  }

  // ----- aliases -----

  /** Two known names of one canonical family. */
  ghost predicate SameName(db: Db, d: Dialect, a: string, b: string) {
    && TrimSpace(a) != "" && TrimSpace(b) != ""
    && Family(db, d, Normal(a)) > 0 && Family(db, d, Normal(b)) > 0
    && Canonical(db, Family(db, d, Normal(a))) == Canonical(db, Family(db, d, Normal(b)))
  }

  /** The expressions differ in alias spellings only, at any depth. */
  ghost predicate AliasEqual(db: Db, d: Dialect, t: TypeExpr, u: TypeExpr)
    decreases t, 1
  {
    SameName(db, d, t.name, u.name) && AliasEqualArgs(db, d, t.args, u.args)
  }

  ghost predicate AliasEqualArgs(db: Db, d: Dialect, a: seq<TypeArg>, b: seq<TypeArg>)
    decreases a, 0
  {
    |a| == |b| && (a != [] ==> AliasEqualArg(db, d, a[0], b[0]) && AliasEqualArgs(db, d, a[1..], b[1..]))
  }

  ghost predicate AliasEqualArg(db: Db, d: Dialect, a: TypeArg, b: TypeArg)
    decreases a, 2
  {
    a.tag == b.tag &&
    if a.value.TypeVal? && b.value.TypeVal? then
      a.value.t.nullable == b.value.t.nullable && AliasEqual(db, d, a.value.t, b.value.t)
    else !a.value.TypeVal? && a.value == b.value
  }

  ghost predicate SameFamilies(db: Db, db': Db, d: Dialect) {
    && db.types <= db'.types && RowsOk(db) && RowsOk(db')
    && forall name :: Family(db', d, name) == Family(db, d, name)
  }

  predicate NoRules(r: Rules) { r.rewrites == [] && r.idents == {} && r.identArgs == map[] }

  lemma {:induction false} NoIdentifiers(r: Rules, args: seq<TypeArg>, at: int)
    requires NoRules(r)
    ensures IdentifyArgs(r, [], args, at) == args
  {
    if args != [] {
      NoIdentifiers(r, args[1..], at + 1);
    }
  }

  lemma {:induction false} NothingCanonicalized(db: Db, d: Dialect, t: TypeExpr)
    requires NoRules(d.rules)
    ensures Canonicalize(db, d, t) == t
  {
    hide IdentifyArgs, CanonicalName;
    NoIdentifiers(d.rules, t.args, 1);
  }

  lemma {:induction false} AliasStable(db: Db, db': Db, d: Dialect, t: TypeExpr, u: TypeExpr)
    requires SameFamilies(db, db', d) && AliasEqual(db, d, t, u)
    ensures AliasEqual(db', d, t, u)
    decreases t, 1
  {
    hide Family, TrimSpace, Normal;
    CanonicalStable(db, db', Family(db, d, Normal(t.name)), 16);
    CanonicalStable(db, db', Family(db, d, Normal(u.name)), 16);
    AliasArgsStable(db, db', d, t.args, u.args);
  }

  lemma {:induction false} AliasArgsStable(db: Db, db': Db, d: Dialect, a: seq<TypeArg>, b: seq<TypeArg>)
    requires SameFamilies(db, db', d) && AliasEqualArgs(db, d, a, b)
    ensures AliasEqualArgs(db', d, a, b)
    decreases a, 0
  {
    hide SameFamilies, SameName;
    if a != [] {
      if a[0].value.TypeVal? && b[0].value.TypeVal? {
        AliasStable(db, db', d, a[0].value.t, b[0].value.t);
      }
      AliasArgsStable(db, db', d, a[1..], b[1..]);
    }
  }

  lemma {:induction false} KnownFamily(db: Db, d: Dialect, name: string, write: bool)
    requires Family(db, d, name) > 0
    ensures InternFamily(db, d, name, write) == Insert(db, Family(db, d, name))
  {
  }

  lemma {:induction false} SameFamiliesRefl(db: Db, d: Dialect)
    requires RowsOk(db)
    ensures SameFamilies(db, db, d)
  {
    hide Family;
  }

  lemma {:induction false} InstanceSameFamilies(db: Db, d: Dialect, fam: nat, args: ArgsOutcome, write: bool)
    requires args.FoundArgs? && fam > 0 && RowsOk(db)
    ensures SameFamilies(db, InternInstance(db, d, fam, args, write).db, d)
  {
    hide Family, ExprIn, QualifiedName, String;
    if IsOid(db, fam) {
      var row := InstanceRow(Row(db, fam), fam, Key(TypeExpr(QualifiedName(db, d, Row(db, fam)), false, args.canon)), args.rows);
      assert Row(db, fam) == db.types[fam - 1];
      InstanceGrows(db, d, row, args.rows);
      GrowsTables(db, Db(db.types + [row], db.args + [args.rows], db.namespaces), d);
    }
  }

  lemma {:induction false} SameFamiliesTrans(a: Db, b: Db, c: Db, d: Dialect)
    requires SameFamilies(a, b, d) && SameFamilies(b, c, d)
    ensures SameFamilies(a, c, d)
  {
    hide Family;
  }

  /** Expressions that differ only in alias spellings intern to one row and one canonical
      expression, whether the row is there already or made now. */
  lemma {:induction false} AliasInvariance(db: Db, d: Dialect, t: TypeExpr, u: TypeExpr, write: bool, fuel: nat)
    requires NoRules(d.rules) && RowsOk(db) && AliasEqual(db, d, t, u)
    ensures Intern(db, d, t, write, fuel) == Intern(db, d, u, write, fuel)
    ensures SameFamilies(db, Intern(db, d, t, write, fuel).db, d)
    decreases fuel, 1, 0
  {
    hide Canonicalize, InternFamily, Family, CanonicalFrom, TrimSpace, Normal, InternInstance, InternArgs, SameFamilies,
      AliasEqualArgs, QualifiedName;
    SameFamiliesRefl(db, d);
    if fuel > 0 {
      NothingCanonicalized(db, d, t);
      NothingCanonicalized(db, d, u);
      KnownFamily(db, d, Normal(t.name), write);
      KnownFamily(db, d, Normal(u.name), write);
      EmptyTogether(db, d, t.args, u.args);
      if t.args != [] {
        AliasArgs(db, d, t.args, u.args, write, fuel - 1);
        var done := InternArgs(db, d, t.args, write, fuel - 1);
        var fam := Canonical(db, Family(db, d, Normal(t.name)));
        if fam > 0 && done.out.FoundArgs? {
          assert RowsOk(done.db) by { SameFamiliesRows(db, done.db, d); }
          InstanceSameFamilies(done.db, d, fam, done.out, write);
          SameFamiliesTrans(db, done.db, InternInstance(done.db, d, fam, done.out, write).db, d);
        }
      }
    }
  }

  /** Names of known families at every depth are ready to be resolved twice. */
  lemma {:induction false} AliasNamesReady(db: Db, d: Dialect, t: TypeExpr, u: TypeExpr)
    requires AliasEqual(db, d, t, u)
    ensures Names(t, Ready(db, d))
    decreases t, 1
  {
    hide Family, TrimSpace, Normal, DefaultQualified;
    AliasArgNamesReady(db, d, t.args, u.args);
  }

  lemma {:induction false} AliasArgNamesReady(db: Db, d: Dialect, a: seq<TypeArg>, b: seq<TypeArg>)
    requires AliasEqualArgs(db, d, a, b)
    ensures ArgNames(a, Ready(db, d))
    decreases a, 0
  {
    hide SameName, Ready, Names;
    if a != [] {
      if a[0].value.TypeVal? && b[0].value.TypeVal? {
        AliasNamesReady(db, d, a[0].value.t, b[0].value.t);
      }
      AliasArgNamesReady(db, d, a[1..], b[1..]);
    }
  }

  /** One after the other, as a catalog sees them: resolving the second spelling returns the row of the
      first and inserts nothing. */
  lemma {:induction false} AliasAfterwards(db: Db, d: Dialect, t: TypeExpr, u: TypeExpr, fuel: nat)
    requires NoRules(d.rules) && RowsOk(db) && AliasEqual(db, d, t, u) && Intern(db, d, t, true, fuel).out.Found?
    ensures var first := Intern(db, d, t, true, fuel); Intern(first.db, d, u, true, fuel) == first
  {
    hide Intern, SameFamilies, AliasEqual, Names, Ready, Grows;
    var first := Intern(db, d, t, true, fuel);
    AliasInvariance(db, d, t, u, true, fuel);
    AliasStable(db, first.db, d, t, u);
    SameFamiliesRows(db, first.db, d);
    AliasInvariance(first.db, d, t, u, true, fuel);
    AliasNamesReady(db, d, t, u);
    ResolveTwice(db, d, t, fuel);
  }

  lemma {:induction false} SameFamiliesRows(db: Db, db': Db, d: Dialect)
    requires SameFamilies(db, db', d)
    ensures RowsOk(db')
  {
  }

  lemma {:induction false} EmptyTogether(db: Db, d: Dialect, a: seq<TypeArg>, b: seq<TypeArg>)
    requires AliasEqualArgs(db, d, a, b)
    ensures a == [] <==> b == []
  {
  }

  lemma {:induction false} AliasArgs(db: Db, d: Dialect, a: seq<TypeArg>, b: seq<TypeArg>, write: bool, fuel: nat)
    requires NoRules(d.rules) && RowsOk(db) && AliasEqualArgs(db, d, a, b)
    ensures InternArgs(db, d, a, write, fuel) == InternArgs(db, d, b, write, fuel)
    ensures SameFamilies(db, InternArgs(db, d, a, write, fuel).db, d)
    decreases fuel, 2, |a|
  {
    hide Intern, SameFamilies, SameName, AliasEqual;
    if a == [] {
      SameFamiliesRefl(db, d);
    } else if a[0].value.TypeVal? {
      var r := Intern(db, d, a[0].value.t, write, fuel);
      AliasInvariance(db, d, a[0].value.t, b[0].value.t, write, fuel);
      SameFamiliesRows(db, r.db, d);
      AliasArgsStable(db, r.db, d, a[1..], b[1..]);
      AliasArgs(r.db, d, a[1..], b[1..], write, fuel);
      SameFamiliesTrans(db, r.db, InternArgs(r.db, d, a[1..], write, fuel).db, d);
    } else {
      AliasArgs(db, d, a[1..], b[1..], write, fuel);
    }
  }
}
