/** Exactly when resolving an expression again returns the row it returned first. Without rewrites, what
    a resolve does to names can be followed without any table: a name denotes a slot, a namespace and a
    bare name, and a new slot in a preferred default namespace takes over the bare name. */
module TypeStoreTakeover {
  import opened Common
  import opened Text
  import opened TypeExprs
  import opened TypeRewrites
  import opened TypeStore
  import opened TypeStoreStability
  import TypeExprKeys
  import TypeStoreInvariant

  // ----- names and slots -----

  datatype Slot = Slot(ns: string, name: string)

  predicate InBase(base: Db, s: Slot) { FamilyInNamed(base, s.ns, s.name) > 0 }

  /** A family of the first tables, or one registered since. */
  predicate Has(base: Db, added: set<Slot>, s: Slot) { InBase(base, s) || s in added }

  /** Where an unknown name is registered. */
  function Home(d: Dialect, name: string): string { if name == ARRAY then "public" else Schema(d, name) }

  /** The slot a normalised name denotes: its own when it is qualified, else the first of the default
      namespaces that has the name, else the one it would be registered in. */
  function Lookup(base: Db, d: Dialect, added: set<Slot>, name: string): Slot {
    var b := Bare(name);
    if Qualifier(name) != "" then Slot(Qualifier(name), b)
    else if Has(base, added, Slot("pg_catalog", b)) then Slot("pg_catalog", b)
    else if Has(base, added, Slot("public", b)) then Slot("public", b)
    else if d.defaultSchema != "" && Has(base, added, Slot(d.defaultSchema, b)) then Slot(d.defaultSchema, b)
    else Slot(Home(d, name), b)
  }

  function Learn(base: Db, d: Dialect, added: set<Slot>, name: string): set<Slot> {
    var s := Lookup(base, d, added, name);
    if Has(base, added, s) then added else added + {s}
  }

  // ----- what a slot stands for -----

  /** An alias chain of the first tables ends; a new family is no alias. */
  predicate Settles(base: Db, s: Slot) {
    InBase(base, s) ==> Canonical(base, FamilyInNamed(base, s.ns, s.name)) > 0
  }

  function Spelled(base: Db, d: Dialect, s: Slot): string {
    if InBase(base, s) then
      var c := Canonical(base, FamilyInNamed(base, s.ns, s.name));
      if c > 0 then QualifiedName(base, d, Row(base, c)) else ""
    else if s.ns != "" && !IsDefault(d, s.ns) then s.ns + "." + s.name
    else s.name
  }

  function HomeNs(base: Db, s: Slot): string {
    if InBase(base, s) then
      var c := Canonical(base, FamilyInNamed(base, s.ns, s.name));
      if c > 0 && 1 <= Row(base, c).ns <= |base.namespaces| then base.namespaces[Row(base, c).ns - 1] else ""
    else s.ns
  }

  // ----- a resolve, seen as names only -----

  datatype Met = Met(added: set<Slot>, canon: TypeExpr)
  datatype MetArgs = MetArgs(added: set<Slot>, canon: seq<TypeArg>)

  /** Names are looked up, and registered if need be, from the outside in and from left to right. */
  function Meet(base: Db, d: Dialect, added: set<Slot>, t: TypeExpr): Met
    decreases t, 1
  {
    var known := Learn(base, d, added, Normal(t.name));
    var rest := MeetArgs(base, d, known, t.args);
    Met(rest.added, TypeExpr(Spelled(base, d, Lookup(base, d, known, Normal(t.name))), false, rest.canon))
  }

  function MeetArgs(base: Db, d: Dialect, added: set<Slot>, args: seq<TypeArg>): (r: MetArgs)
    ensures |r.canon| == |args|
    decreases args, 0
  {
    if args == [] then MetArgs(added, [])
    else
      var first := MeetArg(base, d, added, args[0]);
      var rest := MeetArgs(base, d, first.0, args[1..]);
      MetArgs(rest.added, [first.1] + rest.canon)
  }

  function MeetArg(base: Db, d: Dialect, added: set<Slot>, a: TypeArg): (set<Slot>, TypeArg)
    decreases a, 2
  {
    if !a.value.TypeVal? then (added, a)
    else
      var m := Meet(base, d, added, a.value.t);
      (m.added, TypeArg(a.tag, TypeVal(m.canon.(nullable := a.value.t.nullable))))
  }

  // ----- tables that hold the slots -----

  ghost predicate DistinctNames(nss: seq<string>) {
    forall i, j :: 0 <= i < j < |nss| ==> nss[i] != nss[j]
  }

  ghost predicate SlotOk(base: Db, db: Db, added: set<Slot>, s: Slot) {
    var oid := FamilyInNamed(db, s.ns, s.name);
    && (oid > 0 <==> Has(base, added, s))
    && (InBase(base, s) ==> oid == FamilyInNamed(base, s.ns, s.name))
    && (oid > 0 && !InBase(base, s) ==> Row(db, oid).canonical == 0)
  }

  /** Later tables, whose families are those of the first tables and the added ones. */
  ghost predicate Tracks(base: Db, db: Db, added: set<Slot>) {
    && base.types <= db.types && base.namespaces <= db.namespaces
    && RowsOk(base) && RowsOk(db) && DistinctNames(db.namespaces)
    && forall s :: SlotOk(base, db, added, s)
  }

  lemma {:induction false} TracksItself(db: Db)
    requires RowsOk(db) && DistinctNames(db.namespaces)
    ensures Tracks(db, db, {})
  {
    hide FamilyInNamed;
  }

  lemma {:induction false} LookupIs(base: Db, db: Db, d: Dialect, added: set<Slot>, name: string)
    requires Tracks(base, db, added)
    ensures var s := Lookup(base, d, added, name); Family(db, d, name) == FamilyInNamed(db, s.ns, s.name)
    ensures Family(db, d, name) > 0 <==> Has(base, added, Lookup(base, d, added, name))
  {
    hide FamilyInNamed, Qualifier, Bare;
    var b := Bare(name);
    assert SlotOk(base, db, added, Slot(Qualifier(name), b));
    assert SlotOk(base, db, added, Slot("pg_catalog", b));
    assert SlotOk(base, db, added, Slot("public", b));
    assert SlotOk(base, db, added, Slot(d.defaultSchema, b));
    NoDots();
  }

  lemma {:induction false} HomeIs(d: Dialect, name: string)
    requires Qualifier(name) == ""
    ensures Home(d, name) == "public" || (d.defaultSchema != "" && Home(d, name) == d.defaultSchema)
  {
  }

  lemma {:induction false} Registered(base: Db, db: Db, db': Db, added: set<Slot>, s: Slot, row: TypeRow)
    requires Tracks(base, db, added) && AddsFamily(db, db', s.ns, row) && row.name == s.name && !Has(base, added, s)
    ensures Tracks(base, db', added + {s}) && FamilyInNamed(db', s.ns, s.name) == |db'.types|
  {
    hide FamilyInNamed, NsOid;
    assert SlotOk(base, db, added, s);
    AddedRowsOk(db, db', s.ns, row);
    forall x: Slot
      ensures SlotOk(base, db', added + {s}, x)
    {
      assert SlotOk(base, db, added, x);
      FamilyAfter(db, db', s.ns, row, x.ns, x.name);
    }
    FamilyAfter(db, db', s.ns, row, s.ns, s.name);
  }

  /** Looking up a family, and registering it when it is unknown, learns its name. */
  lemma {:induction false} FamilyLearns(base: Db, db: Db, d: Dialect, added: set<Slot>, name: string)
    requires Tracks(base, db, added) && InternFamily(db, d, name, true).oid > 0
    ensures var r := InternFamily(db, d, name, true);
            var s := Lookup(base, d, Learn(base, d, added, name), name);
            && Tracks(base, r.db, Learn(base, d, added, name))
            && r.oid == FamilyInNamed(r.db, s.ns, s.name) && Has(base, Learn(base, d, added, name), s)
            && db.types <= r.db.types && db.namespaces <= r.db.namespaces
  {
    hide Family, UserTypeBase, Contains, NsOid, ExprIn, LastDot, FamilyInNamed, Tracks;
    LookupIs(base, db, d, added, name);
    var r, s := InternFamily(db, d, name, true), Lookup(base, d, added, name);
    if Family(db, d, name) == 0 {
      UnknownHome(base, d, added, name);
      NoDots();
      var row := r.db.types[|db.types|];
      assert AddsFamily(db, r.db, s.ns, row);
      Registered(base, db, r.db, added, s, row);
      LearnedLookup(base, d, added, name);
    }
  }

  lemma {:induction false} UnknownHome(base: Db, d: Dialect, added: set<Slot>, name: string)
    requires !Has(base, added, Lookup(base, d, added, name))
    ensures Lookup(base, d, added, name) == Slot(Home(d, name), Bare(name))
  {
    hide FamilyInNamed, LastDot;
    NoDots();
  }

  /** A name that has just been learned denotes the slot it was given. */
  lemma {:induction false} LearnedLookup(base: Db, d: Dialect, added: set<Slot>, name: string)
    ensures Lookup(base, d, Learn(base, d, added, name), name) == Lookup(base, d, added, name)
    ensures Has(base, Learn(base, d, added, name), Lookup(base, d, added, name))
  {
    hide FamilyInNamed, LastDot;
    if Qualifier(name) == "" {
      HomeIs(d, name);
    }
  }

  // ----- what the rows say of a slot -----

  lemma {:induction false} NsOidOf(nss: seq<string>, i: nat)
    requires DistinctNames(nss) && i < |nss|
    ensures NsOid(nss, nss[i]) == i + 1
  {
  }

  lemma {:induction false} SlotMeans(base: Db, db: Db, d: Dialect, added: set<Slot>, s: Slot)
    requires Tracks(base, db, added) && Has(base, added, s)
    ensures var oid := FamilyInNamed(db, s.ns, s.name);
            var c := Canonical(db, oid);
            && oid > 0 && (c > 0 <==> Settles(base, s))
            && (c > 0 ==> QualifiedName(db, d, Row(db, c)) == Spelled(base, d, s)
                          && Row(db, c).ns == NsOid(db.namespaces, HomeNs(base, s)) > 0)
  {
    hide FamilyIn, Tracks;
    var oid := FamilyInNamed(db, s.ns, s.name);
    assert SlotOk(base, db, added, s) && RowsOk(db) && RowsOk(base) && DistinctNames(db.namespaces)
           && base.types <= db.types && base.namespaces <= db.namespaces by { TracksParts(base, db, added, s); }
    var c := Canonical(db, oid);
    if InBase(base, s) {
      CanonicalStable(base, db, oid, 16);
      if c > 0 {
        QualifiedStable(base, db, d, c);
        NsOidOf(db.namespaces, Row(db, c).ns - 1);
      }
    }
  }

  lemma {:induction false} TracksParts(base: Db, db: Db, added: set<Slot>, s: Slot)
    requires Tracks(base, db, added)
    ensures SlotOk(base, db, added, s) && RowsOk(db) && RowsOk(base) && DistinctNames(db.namespaces)
    ensures base.types <= db.types && base.namespaces <= db.namespaces
  {
  }

  lemma {:induction false} InstanceTracks(base: Db, db: Db, d: Dialect, added: set<Slot>, fam: nat, args: ArgsOutcome, write: bool)
    requires Tracks(base, db, added) && args.FoundArgs? && fam > 0
    ensures var r := InternInstance(db, d, fam, args, write);
            Tracks(base, r.db, added) && db.types <= r.db.types && db.namespaces == r.db.namespaces
  {
    hide ExprIn, QualifiedName, String, FamilyInNamed, Tracks;
    assert RowsOk(db) by { TracksParts(base, db, added, Slot("", "")); }
    if IsOid(db, fam) {
      var row := InstanceRow(Row(db, fam), fam, Key(TypeExpr(QualifiedName(db, d, Row(db, fam)), false, args.canon)), args.rows);
      assert Row(db, fam) == db.types[fam - 1];
      InstanceRowTracks(base, db, added, row, args.rows);
    }
  }

  lemma {:induction false} InstanceRowTracks(base: Db, db: Db, added: set<Slot>, row: TypeRow, rows: seq<ArgRow>)
    requires Tracks(base, db, added) && row.family > 0 && row.canonical == 0 && 1 <= row.ns <= |db.namespaces|
    ensures Tracks(base, Db(db.types + [row], db.args + [rows], db.namespaces), added)
  {
    hide FamilyIn, NsOid;
    var db' := Db(db.types + [row], db.args + [rows], db.namespaces);
    forall s: Slot
      ensures SlotOk(base, db', added, s)
    {
      assert SlotOk(base, db, added, s);
      FamilyInAppend(db.types, row, NsOid(db.namespaces, s.ns), s.name);
    }
  }

  // ----- a resolve does what its names say -----

  /** The slot the outermost name is given. */
  function RootSlot(base: Db, d: Dialect, added: set<Slot>, t: TypeExpr): Slot {
    Lookup(base, d, Learn(base, d, added, Normal(t.name)), Normal(t.name))
  }

  /** Where the answer for an expression with arguments is: the row of its spelling in the namespace
      of its outermost family. */
  ghost predicate RowFor(db: Db, base: Db, s: Slot, canon: TypeExpr, oid: nat) {
    oid > 0 && oid == ExprIn(db.types, NsOid(db.namespaces, HomeNs(base, s)), Key(canon))
  }

  ghost predicate Answered(db: Db, base: Db, s: Slot, t: TypeExpr, canon: TypeExpr, oid: nat) {
    if t.args == [] then oid == Canonical(db, FamilyInNamed(db, s.ns, s.name)) else RowFor(db, base, s, canon, oid)
  }

  /** The outermost name is registered and settles. */
  lemma {:induction false} InternRoot(base: Db, db: Db, d: Dialect, added: set<Slot>, t: TypeExpr, fuel: nat)
    requires NoRules(d.rules) && Tracks(base, db, added) && Intern(db, d, t, true, fuel).out.Found?
    ensures var made := InternFamily(db, d, Normal(t.name), true);
            var s := RootSlot(base, d, added, t);
            && fuel > 0 && made.oid > 0 && Tracks(base, made.db, Learn(base, d, added, Normal(t.name)))
            && made.oid == FamilyInNamed(made.db, s.ns, s.name) && Has(base, Learn(base, d, added, Normal(t.name)), s)
            && Settles(base, s) && Canonical(made.db, made.oid) > 0
            && db.types <= made.db.types && db.namespaces <= made.db.namespaces
  {
    hide Canonicalize, InternFamily, Lookup, Learn, FamilyInNamed, CanonicalFrom, Tracks, TrimSpace, Normal, QualifiedName,
      InternArgs, InternInstance;
    NothingCanonicalized(db, d, t);
    var n := Normal(t.name);
    FamilyLearns(base, db, d, added, n);
    var made := InternFamily(db, d, n, true);
    SlotMeans(base, made.db, d, Learn(base, d, added, n), RootSlot(base, d, added, t));
  }

  lemma {:induction false} InternMeets(base: Db, db: Db, d: Dialect, added: set<Slot>, t: TypeExpr, fuel: nat)
    requires NoRules(d.rules) && Tracks(base, db, added) && Intern(db, d, t, true, fuel).out.Found?
    ensures var r, m := Intern(db, d, t, true, fuel), Meet(base, d, added, t);
            && Tracks(base, r.db, m.added) && r.out.canon == m.canon
            && Answered(r.db, base, RootSlot(base, d, added, t), t, m.canon, r.out.oid)
            && db.types <= r.db.types && db.namespaces <= r.db.namespaces
    decreases fuel, 1, 0
  {
    hide Canonicalize, InternFamily, Lookup, Learn, FamilyInNamed, CanonicalFrom, Tracks, TrimSpace, Normal, QualifiedName,
      InternArgs, InternInstance, Spelled, Settles, RowFor;
    InternRoot(base, db, d, added, t, fuel);
    NothingCanonicalized(db, d, t);
    var n, s := Normal(t.name), RootSlot(base, d, added, t);
    var made, known := InternFamily(db, d, n, true), Learn(base, d, added, n);
    SlotMeans(base, made.db, d, known, s);
    if t.args != [] {
      FoundMeans(db, d, t, true, fuel);
      MeetsArgs(base, made.db, d, known, t.args, fuel - 1);
      var done := InternArgs(made.db, d, t.args, true, fuel - 1);
      InstanceMeets(base, made.db, done.db, d, known, MeetArgs(base, d, known, t.args).added, s, done.out);
    }
  }

  /** The instance row of a family that was looked up before its arguments were. */
  lemma {:induction false} InstanceMeets(base: Db, db: Db, db': Db, d: Dialect, known: set<Slot>, added: set<Slot>, s: Slot, args: ArgsOutcome)
    requires Tracks(base, db, known) && Tracks(base, db', added) && Has(base, known, s) && Settles(base, s)
    requires db.types <= db'.types && db.namespaces <= db'.namespaces && args.FoundArgs?
    requires var fam := Canonical(db, FamilyInNamed(db, s.ns, s.name)); InternInstance(db', d, fam, args, true).out.Found?
    ensures var fam := Canonical(db, FamilyInNamed(db, s.ns, s.name));
            var r := InternInstance(db', d, fam, args, true);
            && Tracks(base, r.db, added) && r.out.canon == TypeExpr(Spelled(base, d, s), false, args.canon)
            && RowFor(r.db, base, s, r.out.canon, r.out.oid)
            && db'.types <= r.db.types && db'.namespaces <= r.db.namespaces
  {
    hide FamilyInNamed, CanonicalFrom, Tracks, Spelled, Settles, QualifiedName, ExprIn, String, HomeNs, NsOid;
    SlotMeans(base, db, d, known, s);
    var fam := Canonical(db, FamilyInNamed(db, s.ns, s.name));
    assert RowsOk(db) by { TracksParts(base, db, known, s); }
    QualifiedStable(db, db', d, fam);
    InstanceTracks(base, db', d, added, fam, args, true);
    NsOidPrefix(db.namespaces, db'.namespaces, HomeNs(base, s));
    assert RowsOk(db') by { TracksParts(base, db', added, s); }
    var r := InternInstance(db', d, fam, args, true);
    LastStep(db', d, fam, args);
  }

  lemma {:induction false} MeetsArgs(base: Db, db: Db, d: Dialect, added: set<Slot>, args: seq<TypeArg>, fuel: nat)
    requires NoRules(d.rules) && Tracks(base, db, added)
    requires InternArgs(db, d, args, true, fuel).out.FoundArgs? && InternArgs(db, d, args, true, fuel).out.known
    ensures var r, m := InternArgs(db, d, args, true, fuel), MeetArgs(base, d, added, args);
            && Tracks(base, r.db, m.added) && r.out.canon == m.canon
            && db.types <= r.db.types && db.namespaces <= r.db.namespaces
    decreases fuel, 2, |args|
  {
    hide Intern, Meet, Tracks, Answered;
    if args != [] {
      if args[0].value.TypeVal? {
        var r := Intern(db, d, args[0].value.t, true, fuel);
        InternMeets(base, db, d, added, args[0].value.t, fuel);
        MeetsArgs(base, r.db, d, Meet(base, d, added, args[0].value.t).added, args[1..], fuel);
      } else {
        MeetsArgs(base, db, d, added, args[1..], fuel);
      }
    }
  }

  // ----- resolving again -----

  /** Slots are registered only where the first tables have no family. */
  ghost predicate Clean(base: Db, added: set<Slot>) { forall s :: s in added ==> !InBase(base, s) }

  /** Registering only adds. */
  lemma {:induction false} MeetGrows(base: Db, d: Dialect, added: set<Slot>, t: TypeExpr)
    requires Clean(base, added)
    ensures Learn(base, d, added, Normal(t.name)) <= Meet(base, d, added, t).added
    ensures added <= Meet(base, d, added, t).added && Clean(base, Meet(base, d, added, t).added)
    decreases t, 1
  {
    hide Lookup, FamilyInNamed, Normal, Spelled;
    MeetArgsGrow(base, d, Learn(base, d, added, Normal(t.name)), t.args);
  }

  lemma {:induction false} MeetArgsGrow(base: Db, d: Dialect, added: set<Slot>, args: seq<TypeArg>)
    requires Clean(base, added)
    ensures added <= MeetArgs(base, d, added, args).added && Clean(base, MeetArgs(base, d, added, args).added)
    decreases args, 0
  {
    hide Meet, FamilyInNamed;
    if args != [] {
      if args[0].value.TypeVal? {
        MeetGrows(base, d, added, args[0].value.t);
      }
      MeetArgsGrow(base, d, MeetArg(base, d, added, args[0]).0, args[1..]);
    }
  }

  /** With more slots a known name keeps its slot, or a new slot of a preferred namespace takes it over. */
  lemma {:induction false} LookupLater(base: Db, d: Dialect, known: set<Slot>, later: set<Slot>, name: string)
    requires known <= later && Clean(base, later) && Has(base, known, Lookup(base, d, known, name))
    ensures Has(base, later, Lookup(base, d, later, name))
    ensures Lookup(base, d, later, name) != Lookup(base, d, known, name) ==>
              var s := Lookup(base, d, later, name);
              && Qualifier(name) == "" && s.name == name && s in later && s !in known && !InBase(base, s)
              && (s.ns == "pg_catalog" || s.ns == "public") && Lookup(base, d, known, name).ns != s.ns
  {
    hide FamilyInNamed, LastDot;
    NoDots();
    if Qualifier(name) == "" {
      HomeIs(d, name);
    }
  }

  /** Every name is known and settles, and the nesting fits. */
  ghost predicate Feasible(base: Db, d: Dialect, added: set<Slot>, t: TypeExpr, fuel: nat)
    decreases t, 1
  {
    var s := Lookup(base, d, added, Normal(t.name));
    && fuel > 0 && TrimSpace(t.name) != "" && Has(base, added, s) && Settles(base, s)
    && (t.args != [] ==> FeasibleArgs(base, d, added, t.args, fuel - 1))
  }

  ghost predicate FeasibleArgs(base: Db, d: Dialect, added: set<Slot>, args: seq<TypeArg>, fuel: nat)
    decreases args, 0
  {
    args == [] || (FeasibleArg(base, d, added, args[0], fuel) && FeasibleArgs(base, d, added, args[1..], fuel))
  }

  ghost predicate FeasibleArg(base: Db, d: Dialect, added: set<Slot>, a: TypeArg, fuel: nat)
    decreases a, 2
  {
    a.value.TypeVal? ==> Feasible(base, d, added, a.value.t, fuel)
  }

  lemma {:induction false} FirstMeansFeasible(base: Db, db: Db, d: Dialect, added: set<Slot>, t: TypeExpr, fuel: nat, later: set<Slot>)
    requires NoRules(d.rules) && Tracks(base, db, added) && Intern(db, d, t, true, fuel).out.Found?
    requires Clean(base, added) && Clean(base, later) && Meet(base, d, added, t).added <= later
    ensures Feasible(base, d, later, t, fuel)
    decreases fuel, 1, 0
  {
    hide Canonicalize, InternFamily, Lookup, Learn, FamilyInNamed, CanonicalFrom, Tracks, TrimSpace, Normal, QualifiedName,
      InternArgs, InternInstance, Spelled, Clean;
    InternRoot(base, db, d, added, t, fuel);
    NothingCanonicalized(db, d, t);
    var n := Normal(t.name);
    var made, known := InternFamily(db, d, n, true), Learn(base, d, added, n);
    MeetGrows(base, d, added, t);
    LookupLater(base, d, known, later, n);
    if t.args != [] {
      FoundMeans(db, d, t, true, fuel);
      assert Clean(base, known) by { LearnClean(base, d, added, n); }
      FirstArgsFeasible(base, made.db, d, known, t.args, fuel - 1, later);
    }
  }

  lemma {:induction false} LearnClean(base: Db, d: Dialect, added: set<Slot>, name: string)
    requires Clean(base, added)
    ensures Clean(base, Learn(base, d, added, name))
  {
    hide FamilyInNamed, Lookup;
  }

  lemma {:induction false} FirstArgsFeasible(base: Db, db: Db, d: Dialect, added: set<Slot>, args: seq<TypeArg>, fuel: nat, later: set<Slot>)
    requires NoRules(d.rules) && Tracks(base, db, added)
    requires InternArgs(db, d, args, true, fuel).out.FoundArgs? && InternArgs(db, d, args, true, fuel).out.known
    requires Clean(base, added) && Clean(base, later) && MeetArgs(base, d, added, args).added <= later
    ensures FeasibleArgs(base, d, later, args, fuel)
    decreases fuel, 2, |args|
  {
    hide Intern, Meet, Tracks, Answered, Feasible, Clean;
    if args != [] {
      if args[0].value.TypeVal? {
        var u := args[0].value.t;
        var r, m := Intern(db, d, u, true, fuel), Meet(base, d, added, u);
        InternMeets(base, db, d, added, u, fuel);
        MeetGrows(base, d, added, u);
        MeetArgsGrow(base, d, m.added, args[1..]);
        FirstMeansFeasible(base, db, d, added, u, fuel, later);
        FirstArgsFeasible(base, r.db, d, m.added, args[1..], fuel, later);
      } else {
        FirstArgsFeasible(base, db, d, added, args[1..], fuel, later);
      }
    }
  }

  lemma {:induction false} FeasibleFound(base: Db, db: Db, d: Dialect, added: set<Slot>, t: TypeExpr, fuel: nat)
    requires NoRules(d.rules) && Tracks(base, db, added) && Feasible(base, d, added, t, fuel)
    ensures Intern(db, d, t, true, fuel).out.Found? && Tracks(base, Intern(db, d, t, true, fuel).db, added)
    decreases fuel, 1, 0
  {
    hide Canonicalize, Family, Lookup, FamilyInNamed, CanonicalFrom, Tracks, TrimSpace, Normal, QualifiedName,
      InternArgs, InternInstance, Settles;
    NothingCanonicalized(db, d, t);
    var n := Normal(t.name);
    var s := Lookup(base, d, added, n);
    LookupIs(base, db, d, added, n);
    SlotMeans(base, db, d, added, s);
    if t.args != [] {
      FeasibleArgsFound(base, db, d, added, t.args, fuel - 1);
      var done := InternArgs(db, d, t.args, true, fuel - 1);
      var fam := Canonical(db, FamilyInNamed(db, s.ns, s.name));
      InstanceTracks(base, done.db, d, added, fam, done.out, true);
      KnownInstance(done.db, d, fam, done.out);
    }
  }

  lemma {:induction false} KnownInstance(db: Db, d: Dialect, fam: nat, args: ArgsOutcome)
    requires args.FoundArgs? && args.known && IsOid(db, fam)
    ensures InternInstance(db, d, fam, args, true).out.Found?
  {
    hide ExprIn, QualifiedName, String;
  }

  lemma {:induction false} FeasibleArgsFound(base: Db, db: Db, d: Dialect, added: set<Slot>, args: seq<TypeArg>, fuel: nat)
    requires NoRules(d.rules) && Tracks(base, db, added) && FeasibleArgs(base, d, added, args, fuel)
    ensures var r := InternArgs(db, d, args, true, fuel);
            r.out.FoundArgs? && r.out.known && Tracks(base, r.db, added) && db.types <= r.db.types
    decreases fuel, 2, |args|
  {
    hide Intern, Tracks, Feasible;
    if args != [] {
      if args[0].value.TypeVal? {
        var u := args[0].value.t;
        FeasibleFound(base, db, d, added, u, fuel);
        InternExtends(base, db, d, added, u, fuel);
        FeasibleArgsFound(base, Intern(db, d, u, true, fuel).db, d, added, args[1..], fuel);
      } else {
        FeasibleArgsFound(base, db, d, added, args[1..], fuel);
      }
    }
  }

  lemma {:induction false} InternExtends(base: Db, db: Db, d: Dialect, added: set<Slot>, t: TypeExpr, fuel: nat)
    requires NoRules(d.rules) && Tracks(base, db, added) && Intern(db, d, t, true, fuel).out.Found?
    ensures db.types <= Intern(db, d, t, true, fuel).db.types
  {
    hide Intern, Tracks, Meet, Answered;
    InternMeets(base, db, d, added, t, fuel);
  }

  // ----- the second answer -----

  /** The slots registered by the first resolve. */
  function After(db: Db, d: Dialect, t: TypeExpr): set<Slot> { Meet(db, d, {}, t).added }

  /** The row with this spelling in this namespace. */
  ghost predicate RowAt(db: Db, s: Slot, oid: nat) {
    NsOid(db.namespaces, s.ns) > 0 && oid > 0 && oid == ExprIn(db.types, NsOid(db.namespaces, s.ns), s.name)
  }

  lemma {:induction false} RowsDiffer(db: Db, db': Db, s: Slot, s': Slot, oid: nat, oid': nat)
    requires db.types <= db'.types && db.namespaces <= db'.namespaces && RowAt(db, s, oid) && RowAt(db', s', oid')
    ensures oid == oid' <==> s == s'
  {
    hide NsOid;
    NsOidPrefix(db.namespaces, db'.namespaces, s.ns);
    ExprInPrefix(db.types, db'.types, NsOid(db.namespaces, s.ns), s.name);
    if NsOid(db'.namespaces, s.ns) == NsOid(db'.namespaces, s'.ns) {
      NsOidInjective(db'.namespaces, s.ns, s'.ns);
    }
  }

  /** Without rewrites, a second resolve finds a row, spelled by the slots the first one left. It is the
      first row if and only if the outermost name still stands for a family of the same namespace and
      the expression is still spelled the same. All of it can be told from the tables before the first
      resolve, by looking up names. */
  lemma {:induction false} SecondRow(db: Db, d: Dialect, t: TypeExpr, fuel: nat)
    requires NoRules(d.rules) && RowsOk(db) && DistinctNames(db.namespaces) && Intern(db, d, t, true, fuel).out.Found?
    ensures var first := Intern(db, d, t, true, fuel);
            var second := Intern(first.db, d, t, true, fuel);
            var m, n := Meet(db, d, {}, t), Meet(db, d, After(db, d, t), t);
            && second.out.Found? && first.out.canon == m.canon && second.out.canon == n.canon
            && (second.out.oid == first.out.oid <==>
                  t.args == [] || (HomeNs(db, RootSlot(db, d, {}, t)) == HomeNs(db, RootSlot(db, d, After(db, d, t), t))
                                   && Key(m.canon) == Key(n.canon)))
  {
    hide Intern, Meet, Tracks, Lookup, Learn, FamilyInNamed, CanonicalFrom, Feasible, HomeNs, Normal, NsOid, ExprIn, Key;
    TracksItself(db);
    var first := Intern(db, d, t, true, fuel);
    var after := After(db, d, t);
    assert Clean(db, {});
    MeetGrows(db, d, {}, t);
    InternMeets(db, db, d, {}, t, fuel);
    FirstMeansFeasible(db, db, d, {}, t, fuel, after);
    FeasibleFound(db, first.db, d, after, t, fuel);
    InternMeets(db, first.db, d, after, t, fuel);
    RootHome(db, db, d, {}, t, fuel);
    RootHome(db, first.db, d, after, t, fuel);
    if t.args == [] {
      NoArgsSameSlot(db, first.db, d, t, fuel);
    } else {
      var second := Intern(first.db, d, t, true, fuel);
      RowsDiffer(first.db, second.db, Slot(HomeNs(db, RootSlot(db, d, {}, t)), Key(first.out.canon)),
                 Slot(HomeNs(db, RootSlot(db, d, after, t)), Key(second.out.canon)), first.out.oid, second.out.oid);
    }
  }

  lemma {:induction false} RootHome(base: Db, db: Db, d: Dialect, added: set<Slot>, t: TypeExpr, fuel: nat)
    requires NoRules(d.rules) && Tracks(base, db, added) && Intern(db, d, t, true, fuel).out.Found?
    ensures NsOid(Intern(db, d, t, true, fuel).db.namespaces, HomeNs(base, RootSlot(base, d, added, t))) > 0
  {
    hide Intern, Meet, Tracks, Lookup, Learn, FamilyInNamed, CanonicalFrom, HomeNs, Normal, Answered, NsOid, Settles;
    InternRoot(base, db, d, added, t, fuel);
    InternMeets(base, db, d, added, t, fuel);
    var made := InternFamily(db, d, Normal(t.name), true);
    var s := RootSlot(base, d, added, t);
    SlotMeans(base, made.db, d, Learn(base, d, added, Normal(t.name)), s);
    MadeBefore(db, d, t, fuel, base, added);
    NsOidPrefix(made.db.namespaces, Intern(db, d, t, true, fuel).db.namespaces, HomeNs(base, s));
  }

  lemma {:induction false} MadeBefore(db: Db, d: Dialect, t: TypeExpr, fuel: nat, base: Db, added: set<Slot>)
    requires NoRules(d.rules) && Tracks(base, db, added) && Intern(db, d, t, true, fuel).out.Found?
    ensures InternFamily(db, d, Normal(t.name), true).db.namespaces <= Intern(db, d, t, true, fuel).db.namespaces
  {
    hide Canonicalize, InternFamily, Lookup, Learn, FamilyInNamed, CanonicalFrom, Tracks, TrimSpace, Normal, QualifiedName,
      InternArgs, InternInstance, Settles, MeetArgs;
    InternRoot(base, db, d, added, t, fuel);
    NothingCanonicalized(db, d, t);
    if t.args != [] {
      var made, known := InternFamily(db, d, Normal(t.name), true), Learn(base, d, added, Normal(t.name));
      FoundMeans(db, d, t, true, fuel);
      MeetsArgs(base, made.db, d, known, t.args, fuel - 1);
      var done := InternArgs(made.db, d, t.args, true, fuel - 1);
      InstanceTracks(base, done.db, d, MeetArgs(base, d, known, t.args).added, Canonical(made.db, made.oid), done.out, true);
    }
  }

  lemma {:induction false} NoArgsSameSlot(db: Db, db': Db, d: Dialect, t: TypeExpr, fuel: nat)
    requires t.args == [] && Tracks(db, db', After(db, d, t))
    requires NoRules(d.rules) && RowsOk(db) && DistinctNames(db.namespaces)
    requires Intern(db, d, t, true, fuel).out.Found? && db' == Intern(db, d, t, true, fuel).db
    requires Intern(db', d, t, true, fuel).out.Found?
    ensures Intern(db', d, t, true, fuel).out.oid == Intern(db, d, t, true, fuel).out.oid
  {
    hide Canonicalize, Lookup, Learn, Family, InternFamily, FamilyInNamed, CanonicalFrom, Tracks, TrimSpace, Normal,
      QualifiedName, Spelled, After;
    var n := Normal(t.name);
    NothingCanonicalized(db, d, t);
    NothingCanonicalized(db', d, t);
    TracksItself(db);
    FamilyLearns(db, db, d, {}, n);
    NoArgsLearns(db, d, t);
    LookupIs(db, db', d, After(db, d, t), n);
    KnownFamily(db', d, n, true);
  }

  lemma {:induction false} NoArgsLearns(db: Db, d: Dialect, t: TypeExpr)
    requires t.args == []
    ensures After(db, d, t) == Learn(db, d, {}, Normal(t.name))
  {
    hide Learn, Lookup, Spelled, Normal;
    var known := Learn(db, d, {}, Normal(t.name));
    assert MeetArgs(db, d, known, t.args) == MetArgs(known, []);
  }

  // ----- in terms of names that are taken over -----

  /** The name denotes another slot than it did when it was met. */
  predicate TakenOver(base: Db, d: Dialect, known: set<Slot>, later: set<Slot>, name: string) {
    Lookup(base, d, later, name) != Lookup(base, d, known, name)
  }

  /** Taken over, and spelled otherwise before: the name was an alias. */
  predicate Disturbed(base: Db, d: Dialect, known: set<Slot>, later: set<Slot>, name: string) {
    TakenOver(base, d, known, later, name) && Spelled(base, d, Lookup(base, d, known, name)) != name
  }

  /** No name in the arguments is disturbed by what was registered after it. */
  ghost predicate Undisturbed(base: Db, d: Dialect, added: set<Slot>, later: set<Slot>, t: TypeExpr)
    decreases t, 1
  {
    var known := Learn(base, d, added, Normal(t.name));
    !Disturbed(base, d, known, later, Normal(t.name)) && UndisturbedArgs(base, d, known, later, t.args)
  }

  ghost predicate UndisturbedArgs(base: Db, d: Dialect, added: set<Slot>, later: set<Slot>, args: seq<TypeArg>)
    decreases args, 0
  {
    args == [] ||
    (UndisturbedArg(base, d, added, later, args[0]) && UndisturbedArgs(base, d, MeetArg(base, d, added, args[0]).0, later, args[1..]))
  }

  ghost predicate UndisturbedArg(base: Db, d: Dialect, added: set<Slot>, later: set<Slot>, a: TypeArg)
    decreases a, 2
  {
    a.value.TypeVal? ==> Undisturbed(base, d, added, later, a.value.t)
  }

  /** What takes a name over is spelled as the name. */
  lemma {:induction false} NewSpelling(base: Db, d: Dialect, known: set<Slot>, later: set<Slot>, name: string)
    requires known <= later && Clean(base, later) && Has(base, known, Lookup(base, d, known, name))
    ensures Spelled(base, d, Lookup(base, d, later, name)) == Spelled(base, d, Lookup(base, d, known, name))
            <==> !Disturbed(base, d, known, later, name)
  {
    hide FamilyInNamed, Lookup, CanonicalFrom, QualifiedName, Qualifier;
    LookupLater(base, d, known, later, name);
  }

  /** Once every name is known, meeting the expression changes nothing. */
  lemma {:induction false} KnownRoot(base: Db, d: Dialect, added: set<Slot>, t: TypeExpr, fuel: nat)
    requires Feasible(base, d, added, t, fuel)
    ensures Learn(base, d, added, Normal(t.name)) == added
    ensures RootSlot(base, d, added, t) == Lookup(base, d, added, Normal(t.name))
  {
    hide Lookup, FamilyInNamed, Normal, Settles, TrimSpace;
  }

  lemma {:induction false} MeetKnown(base: Db, d: Dialect, added: set<Slot>, t: TypeExpr, fuel: nat)
    requires Feasible(base, d, added, t, fuel)
    ensures Meet(base, d, added, t).added == added
    decreases t, 1
  {
    hide Lookup, Learn, FamilyInNamed, Normal, Settles, TrimSpace, Spelled;
    KnownRoot(base, d, added, t, fuel);
    if t.args != [] {
      MeetArgsKnown(base, d, added, t.args, fuel - 1);
    }
  }

  lemma {:induction false} MeetArgsKnown(base: Db, d: Dialect, added: set<Slot>, args: seq<TypeArg>, fuel: nat)
    requires FeasibleArgs(base, d, added, args, fuel)
    ensures MeetArgs(base, d, added, args).added == added
    decreases args, 0
  {
    hide Meet, Feasible;
    if args != [] {
      if args[0].value.TypeVal? {
        MeetKnown(base, d, added, args[0].value.t, fuel);
      }
      MeetArgsKnown(base, d, added, args[1..], fuel);
    }
  }

  /** The two spellings are equal exactly when no name is disturbed. */
  lemma {:induction false} SameCanon(base: Db, d: Dialect, added: set<Slot>, later: set<Slot>, t: TypeExpr, fuel: nat)
    requires Clean(base, added) && Clean(base, later) && Meet(base, d, added, t).added <= later
    requires Feasible(base, d, later, t, fuel)
    ensures Meet(base, d, added, t).canon == Meet(base, d, later, t).canon <==> Undisturbed(base, d, added, later, t)
    decreases t, 1
  {
    hide Lookup, FamilyInNamed, Normal, Settles, TrimSpace, Spelled, Clean, Disturbed;
    var n := Normal(t.name);
    var known := Learn(base, d, added, n);
    MeetGrows(base, d, added, t);
    LearnedLookup(base, d, added, n);
    NewSpelling(base, d, known, later, n);
    KnownRoot(base, d, later, t, fuel);
    if t.args != [] {
      LearnClean(base, d, added, n);
      SameCanonArgs(base, d, known, later, t.args, fuel - 1);
    }
  }

  lemma {:induction false} SameCanonArgs(base: Db, d: Dialect, added: set<Slot>, later: set<Slot>, args: seq<TypeArg>, fuel: nat)
    requires Clean(base, added) && Clean(base, later) && MeetArgs(base, d, added, args).added <= later
    requires FeasibleArgs(base, d, later, args, fuel)
    ensures MeetArgs(base, d, added, args).canon == MeetArgs(base, d, later, args).canon
            <==> UndisturbedArgs(base, d, added, later, args)
    decreases args, 0
  {
    hide Meet, Feasible, Undisturbed, Clean;
    if args != [] {
      var a := args[0];
      var x, y := MeetArg(base, d, added, a), MeetArg(base, d, later, a);
      if a.value.TypeVal? {
        MeetGrows(base, d, added, a.value.t);
        MeetArgsGrow(base, d, x.0, args[1..]);
        SameCanon(base, d, added, later, a.value.t, fuel);
        MeetKnown(base, d, later, a.value.t, fuel);
        SameButNullable(base, d, added, later, a);
      }
      SameCanonArgs(base, d, x.0, later, args[1..], fuel);
      var us, vs := MeetArgs(base, d, x.0, args[1..]).canon, MeetArgs(base, d, later, args[1..]).canon;
      assert ([x.1] + us)[1..] == us && ([y.1] + vs)[1..] == vs;
    }
  }

  lemma {:induction false} SameButNullable(base: Db, d: Dialect, added: set<Slot>, later: set<Slot>, a: TypeArg)
    requires a.value.TypeVal?
    ensures MeetArg(base, d, added, a).1 == MeetArg(base, d, later, a).1 <==>
            Meet(base, d, added, a.value.t).canon == Meet(base, d, later, a.value.t).canon
  {
    hide Meet;
    var m, n := Meet(base, d, added, a.value.t).canon, Meet(base, d, later, a.value.t).canon;
    assert !m.nullable && !n.nullable by { NeverNullable(base, d, added, a.value.t); NeverNullable(base, d, later, a.value.t); }
  }

  lemma {:induction false} NeverNullable(base: Db, d: Dialect, added: set<Slot>, t: TypeExpr)
    ensures !Meet(base, d, added, t).canon.nullable
  {
  }

  lemma {:induction false} FamilyRowFound(types: seq<TypeRow>, i: nat)
    requires i < |types| && types[i].family == 0
    ensures FamilyIn(types, types[i].ns, types[i].name) > 0
  {
    var init := types[..|types| - 1];
    if i < |init| {
      FamilyRowFound(init, i);
    }
  }

  /** A family of the first tables is found under its namespace and name. */
  lemma {:induction false} FamilyInBase(base: Db, oid: nat)
    requires RowsOk(base) && DistinctNames(base.namespaces) && IsOid(base, oid) && Row(base, oid).family == 0
    ensures InBase(base, Slot(base.namespaces[Row(base, oid).ns - 1], Row(base, oid).name))
  {
    hide FamilyIn, NsOid;
    FamilyRowFound(base.types, oid - 1);
    NsOidOf(base.namespaces, Row(base, oid).ns - 1);
  }

  /** An outermost name that is taken over leads to another namespace or another spelling. */
  lemma {:induction false} TakenOverMoves(base: Db, d: Dialect, known: set<Slot>, later: set<Slot>, name: string)
    requires TypeStoreInvariant.Valid(base, d) && RowsOk(base) && DistinctNames(base.namespaces)
    requires known <= later && Clean(base, later) && TakenOver(base, d, known, later, name)
    requires Has(base, known, Lookup(base, d, known, name)) && Settles(base, Lookup(base, d, known, name))
    ensures var s, s' := Lookup(base, d, known, name), Lookup(base, d, later, name);
            HomeNs(base, s) != HomeNs(base, s') || Spelled(base, d, s) != Spelled(base, d, s')
  {
    hide FamilyIn, NsOid, Lookup, CanonicalFrom, Qualifier, TypeStoreInvariant.Valid;
    LookupLater(base, d, known, later, name);
    var s, s' := Lookup(base, d, known, name), Lookup(base, d, later, name);
    if InBase(base, s) {
      var oid := FamilyInNamed(base, s.ns, s.name);
      var c := Canonical(base, oid);
      TypeStoreInvariant.CanonicalIsFamily(base, d, oid, 16);
      FamilyInBase(base, c);
    }
  }

  /** Resolving twice in a row returns one row. */
  ghost predicate SameRowAgain(db: Db, d: Dialect, t: TypeExpr, fuel: nat) {
    var first := Intern(db, d, t, true, fuel);
    var second := Intern(first.db, d, t, true, fuel);
    first.out.Found? && second.out.Found? && second.out.oid == first.out.oid
  }

  /** On expressions that can be read in one way, a second resolve returns the same row if and only if the
      outermost name is not taken over by a name registered after it, and no name in the arguments that
      was spelled otherwise, being an alias, is taken over by one registered after it. */
  lemma {:induction false} ResolveTwiceIff(db: Db, d: Dialect, t: TypeExpr, fuel: nat)
    requires NoRules(d.rules) && TypeStoreInvariant.Valid(db, d) && RowsOk(db) && DistinctNames(db.namespaces)
    requires Intern(db, d, t, true, fuel).out.Found? && t.args != []
    requires TypeExprKeys.Readable(Meet(db, d, {}, t).canon)
    requires TypeExprKeys.Readable(Meet(db, d, After(db, d, t), t).canon)
    ensures var known, later := Learn(db, d, {}, Normal(t.name)), After(db, d, t);
            SameRowAgain(db, d, t, fuel) <==>
            !TakenOver(db, d, known, later, Normal(t.name)) && UndisturbedArgs(db, d, known, later, t.args)
  {
    hide Intern, Tracks, Lookup, Learn, FamilyInNamed, CanonicalFrom, HomeNs, Normal, Spelled, Settles, Feasible,
      TypeStoreInvariant.Valid, TypeExprKeys.Readable, Key, Meet;
    SecondRow(db, d, t, fuel);
    var later, n := After(db, d, t), Normal(t.name);
    var known := Learn(db, d, {}, n);
    var m, m' := Meet(db, d, {}, t).canon, Meet(db, d, later, t).canon;
    if Key(m) == Key(m') {
      NeverNullable(db, d, {}, t);
      NeverNullable(db, d, later, t);
      TypeExprKeys.KeyIff(m, m');
    }
    TracksItself(db);
    assert Clean(db, {});
    MeetGrows(db, d, {}, t);
    FirstMeansFeasible(db, db, d, {}, t, fuel, later);
    SameCanon(db, d, {}, later, t, fuel);
    KnownRoot(db, d, later, t, fuel);
    InternRoot(db, db, d, {}, t, fuel);
    LearnedLookup(db, d, {}, n);
    if TakenOver(db, d, known, later, n) {
      TakenOverMoves(db, d, known, later, n);
      RootSpelling(db, d, {}, t);
      RootSpelling(db, d, later, t);
    }
  }

  lemma {:induction false} RootSpelling(base: Db, d: Dialect, added: set<Slot>, t: TypeExpr)
    ensures Meet(base, d, added, t).canon.name == Spelled(base, d, RootSlot(base, d, added, t))
  {
    hide Lookup, Learn, Spelled, Normal;
  }

  // ----- who takes a name over -----

  /** The normalised names of an expression, at every depth. */
  function NamesOf(t: TypeExpr): set<string>
    decreases t, 1
  {
    {Normal(t.name)} + NamesOfArgs(t.args)
  }

  function NamesOfArgs(args: seq<TypeArg>): set<string>
    decreases args, 0
  {
    if args == [] then {} else NamesOfArg(args[0]) + NamesOfArgs(args[1..])
  }

  function NamesOfArg(a: TypeArg): set<string>
    decreases a, 2
  {
    if a.value.TypeVal? then NamesOf(a.value.t) else {}
  }

  /** Some name spells out the slot. */
  ghost predicate SpellsOut(names: set<string>, s: Slot) {
    exists m :: m in names && Qualifier(m) == s.ns && Bare(m) == s.name
  }

  /** While a bare name is known, only a qualified name registers another slot of that name. */
  lemma {:induction false} AddedBy(base: Db, d: Dialect, added: set<Slot>, t: TypeExpr, s: Slot)
    requires Clean(base, added) && Qualifier(s.name) == "" && Has(base, added, Lookup(base, d, added, s.name))
    requires s in Meet(base, d, added, t).added && s !in added
    ensures SpellsOut(NamesOf(t), s)
    decreases t, 1
  {
    hide Lookup, FamilyInNamed, Normal, Spelled, LastDot;
    var n := Normal(t.name);
    var known := Learn(base, d, added, n);
    if s in known {
      LearnedBy(base, d, added, n, s);
      assert n in NamesOf(t);
    } else {
      LearnClean(base, d, added, n);
      LookupLater(base, d, added, known, s.name);
      AddedByArgs(base, d, known, t.args, s);
      WiderNames(NamesOfArgs(t.args), NamesOf(t), s);
    }
  }

  lemma {:induction false} WiderNames(names: set<string>, more: set<string>, s: Slot)
    requires SpellsOut(names, s) && names <= more
    ensures SpellsOut(more, s)
  {
  }

  lemma {:induction false} LearnedBy(base: Db, d: Dialect, added: set<Slot>, n: string, s: Slot)
    requires Qualifier(s.name) == "" && Has(base, added, Lookup(base, d, added, s.name))
    requires s in Learn(base, d, added, n) && s !in added
    ensures Qualifier(n) == s.ns && Bare(n) == s.name
  {
    hide FamilyInNamed, LastDot;
    UnknownHome(base, d, added, n);
  }

  lemma {:induction false} AddedByArgs(base: Db, d: Dialect, added: set<Slot>, args: seq<TypeArg>, s: Slot)
    requires Clean(base, added) && Qualifier(s.name) == "" && Has(base, added, Lookup(base, d, added, s.name))
    requires s in MeetArgs(base, d, added, args).added && s !in added
    ensures SpellsOut(NamesOfArgs(args), s)
    decreases args, 0
  {
    hide Lookup, FamilyInNamed, Meet, NamesOf, LastDot;
    if args != [] {
      var next := MeetArg(base, d, added, args[0]).0;
      if s in next {
        AddedBy(base, d, added, args[0].value.t, s);
        WiderNames(NamesOfArg(args[0]), NamesOfArgs(args), s);
      } else {
        if args[0].value.TypeVal? {
          MeetGrows(base, d, added, args[0].value.t);
        }
        LookupLater(base, d, added, next, s.name);
        AddedByArgs(base, d, next, args[1..], s);
        WiderNames(NamesOfArgs(args[1..]), NamesOfArgs(args), s);
      }
    }
  }

  /** A qualified name that has been met is known. */
  lemma {:induction false} MetIsKnown(base: Db, d: Dialect, added: set<Slot>, t: TypeExpr, m: string)
    requires Clean(base, added) && m in NamesOf(t) && Qualifier(m) != ""
    ensures Has(base, Meet(base, d, added, t).added, Slot(Qualifier(m), Bare(m)))
    decreases t, 1
  {
    hide FamilyInNamed, Normal, Spelled, LastDot, Learn;
    var n := Normal(t.name);
    MeetGrows(base, d, added, t);
    if m == n {
      LearnedLookup(base, d, added, n);
    } else {
      LearnClean(base, d, added, n);
      MetArgsKnown(base, d, Learn(base, d, added, n), t.args, m);
    }
  }

  lemma {:induction false} MetArgsKnown(base: Db, d: Dialect, added: set<Slot>, args: seq<TypeArg>, m: string)
    requires Clean(base, added) && m in NamesOfArgs(args) && Qualifier(m) != ""
    ensures Has(base, MeetArgs(base, d, added, args).added, Slot(Qualifier(m), Bare(m)))
    decreases args, 0
  {
    hide FamilyInNamed, Meet, NamesOf, LastDot;
    var next := MeetArg(base, d, added, args[0]).0;
    if args[0].value.TypeVal? {
      MeetGrows(base, d, added, args[0].value.t);
      if m in NamesOf(args[0].value.t) {
        MetIsKnown(base, d, added, args[0].value.t, m);
      }
    }
    MeetArgsGrow(base, d, next, args[1..]);
    if !Has(base, next, Slot(Qualifier(m), Bare(m))) {
      MetArgsKnown(base, d, next, args[1..], m);
    }
  }

  /** The namespaces a bare name is looked for in before the one it was found in. */
  predicate Preferred(ns: string, found: string) {
    (ns == "pg_catalog" && found != "pg_catalog") || (ns == "public" && found != "pg_catalog" && found != "public")
  }

  /** Some argument spells out an unknown family of the name, in a preferred default namespace. */
  ghost predicate Usurped(db: Db, d: Dialect, t: TypeExpr) {
    var n := Normal(t.name);
    var known := Learn(db, d, {}, n);
    exists ns :: Preferred(ns, Lookup(db, d, known, n).ns) && SpellsOut(NamesOfArgs(t.args), Slot(ns, n)) && !Has(db, known, Slot(ns, n))
  }

  /** The outermost name is taken over if and only if it is bare and some argument spells out an unknown
      family of that name in a default namespace that lookups prefer. */
  lemma {:induction false} TakenOverIff(db: Db, d: Dialect, t: TypeExpr)
    ensures TakenOver(db, d, Learn(db, d, {}, Normal(t.name)), After(db, d, t), Normal(t.name))
            <==> Qualifier(Normal(t.name)) == "" && Usurped(db, d, t)
  {
    hide FamilyInNamed, Normal, Spelled, LastDot;
    var n := Normal(t.name);
    var known, later := Learn(db, d, {}, n), After(db, d, t);
    assert Clean(db, {});
    MeetGrows(db, d, {}, t);
    LearnClean(db, d, {}, n);
    LearnedLookup(db, d, {}, n);
    LookupLater(db, d, known, later, n);
    if TakenOver(db, d, known, later, n) {
      AddedByArgs(db, d, known, t.args, Lookup(db, d, later, n));
    }
    if Qualifier(n) == "" && Usurped(db, d, t) {
      var ns :| Preferred(ns, Lookup(db, d, known, n).ns) && SpellsOut(NamesOfArgs(t.args), Slot(ns, n)) && !Has(db, known, Slot(ns, n));
      var m :| m in NamesOfArgs(t.args) && Qualifier(m) == ns && Bare(m) == n;
      MetArgsKnown(db, d, known, t.args, m);
    }
  }
}
