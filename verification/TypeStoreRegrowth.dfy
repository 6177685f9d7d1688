/** Two resolves that do not repeat cleanly. g(f(int), public.f), where the dialect's own schema is main,
    returns one row twice and still inserts: the bare f, registered in main, is public's from then on, so
    its instance is looked for in public the second time. And public.f is rewritten as f only once it is
    known. */
module TypeStoreRegrowth {
  import opened Common
  import opened Text
  import opened TypeExprs
  import opened TypeRewrites
  import opened TypeStore
  import opened TypeStoreStability
  import opened TypeStoreTakeover
  import opened TypeStoreRepeats
  import opened TypeStoreRewriting
  import TypeStoreInvariant
  import opened TypeStoreShadowing

  const INT := TypeExpr("int", false, [])
  const F_INT := TypeExpr("f", false, [TypeArg("", TypeVal(INT))])
  const G_BOTH := TypeExpr("g", false, [TypeArg("", TypeVal(F_INT)), TypeArg("", TypeVal(QUALIFIED))])

  // ----- when a first resolve succeeds -----

  lemma {:induction false} Registers(base: Db, db: Db, d: Dialect, added: set<Slot>, name: string)
    requires Tracks(base, db, added) && d.affinity == [] && name != ARRAY && Schema(d, name) in db.namespaces
    requires !Has(base, added, Lookup(base, d, added, name)) && !HasRow(db, Slot(Schema(d, name), Bare(name)))
    ensures InternFamily(db, d, name, true).oid > 0
  {
    hide Family, NsOid, ExprIn, LastDot, FamilyInNamed, Tracks, Qualifier, Bare, Schema;
    LookupIs(base, db, d, added, name);
    assert NsOid(db.namespaces, Schema(d, name)) > 0;
  }

  lemma {:induction false} LeafFound(base: Db, db: Db, d: Dialect, added: set<Slot>, t: TypeExpr, fuel: nat)
    requires NoRules(d.rules) && Tracks(base, db, added) && t.args == [] && fuel > 0 && TrimSpace(t.name) != ""
    requires InternFamily(db, d, Normal(t.name), true).oid > 0 && Settles(base, RootSlot(base, d, added, t))
    ensures Intern(db, d, t, true, fuel).out.Found?
  {
    hide Canonicalize, InternFamily, Lookup, Learn, FamilyInNamed, CanonicalFrom, Tracks, TrimSpace, Normal, QualifiedName, Settles;
    NothingCanonicalized(db, d, t);
    var n := Normal(t.name);
    FamilyLearns(base, db, d, added, n);
    SlotMeans(base, InternFamily(db, d, n, true).db, d, Learn(base, d, added, n), RootSlot(base, d, added, t));
  }

  lemma {:induction false} NodeFound(base: Db, db: Db, d: Dialect, added: set<Slot>, t: TypeExpr, fuel: nat)
    requires NoRules(d.rules) && Tracks(base, db, added) && t.args != [] && fuel > 0 && TrimSpace(t.name) != ""
    requires InternFamily(db, d, Normal(t.name), true).oid > 0 && Settles(base, RootSlot(base, d, added, t))
    requires var made := InternFamily(db, d, Normal(t.name), true);
             var r := InternArgs(made.db, d, t.args, true, fuel - 1);
             r.out.FoundArgs? && r.out.known && made.db.types <= r.db.types
    ensures Intern(db, d, t, true, fuel).out.Found?
  {
    hide Canonicalize, InternFamily, Lookup, Learn, FamilyInNamed, CanonicalFrom, Tracks, TrimSpace, Normal, QualifiedName, Settles,
      InternArgs, InternInstance;
    NothingCanonicalized(db, d, t);
    var n := Normal(t.name);
    var made := InternFamily(db, d, n, true);
    FamilyLearns(base, db, d, added, n);
    SlotMeans(base, made.db, d, Learn(base, d, added, n), RootSlot(base, d, added, t));
    var done := InternArgs(made.db, d, t.args, true, fuel - 1);
    KnownInstance(done.db, d, Canonical(made.db, made.oid), done.out);
  }

  // ----- the names -----

  const G := Slot("main", "g")
  const F := Slot("main", "f")
  const I := Slot("main", "int")
  const P := Slot("public", "f")

  lemma {:induction false} NoDot(s: string)
    requires '.' !in s
    ensures LastDot(s) == -1
  {
    if s != "" {
      NoDot(s[..|s| - 1]);
    }
  }

  lemma {:induction false} ShortName(s: string)
    requires s == "f" || s == "g" || s == "int"
    ensures Normal(s) == s && TrimSpace(s) != "" && Qualifier(s) == "" && Bare(s) == s
  {
    hide TrimSpace, ToLower, LastDot;
    TrimNothing(s);
    LowerNothing(s);
    NoDot(s);
  }

  lemma {:induction false} EmptyTables(s: Slot)
    ensures !InBase(EMPTY, s) && !HasRow(EMPTY, s)
    ensures RowsOk(EMPTY) && DistinctNames(EMPTY.namespaces)
  {
    hide NsOid;
  }

  /** A bare name none of the default namespaces has goes to main. */
  lemma {:induction false} LearnBare(added: set<Slot>, name: string)
    requires Qualifier(name) == "" && Bare(name) == name && name != ARRAY
    requires Slot("pg_catalog", name) !in added && Slot("public", name) !in added && Slot("main", name) !in added
    ensures Lookup(EMPTY, MAIN, added, name) == Slot("main", name)
    ensures Learn(EMPTY, MAIN, added, name) == added + {Slot("main", name)} && Schema(MAIN, name) == "main"
    ensures !Has(EMPTY, added, Slot("main", name))
  {
    hide FamilyInNamed, Qualifier, Bare;
    EmptyTables(Slot("pg_catalog", name));
    EmptyTables(Slot("public", name));
    EmptyTables(Slot("main", name));
  }

  lemma {:induction false} LearnG()
    ensures Normal("g") == "g" && TrimSpace("g") != "" && Learn(EMPTY, MAIN, {}, "g") == {G}
    ensures Lookup(EMPTY, MAIN, {}, "g") == G && Schema(MAIN, "g") == "main" && Bare("g") == "g" && !Has(EMPTY, {}, G)
  {
    hide FamilyInNamed, Qualifier, Bare, Normal, Lookup, Learn, TrimSpace, Schema;
    ShortName("g");
    assert |"g"| != |ARRAY|;
    LearnBare({}, "g");
  }

  lemma {:induction false} LearnF()
    ensures Normal("f") == "f" && TrimSpace("f") != "" && Learn(EMPTY, MAIN, {G}, "f") == {G, F}
    ensures Lookup(EMPTY, MAIN, {G}, "f") == F && Schema(MAIN, "f") == "main" && Bare("f") == "f" && !Has(EMPTY, {G}, F)
  {
    hide FamilyInNamed, Qualifier, Bare, Normal, Lookup, Learn, TrimSpace, Schema;
    TypeStoreShadowing.NamesOf();
    assert |"f"| != |ARRAY| && |"main"| == 4 && |"public"| == 6 && |"pg_catalog"| == 10 && "f"[0] != "g"[0];
    LearnBare({G}, "f");
  }

  lemma {:induction false} LearnI()
    ensures Normal("int") == "int" && TrimSpace("int") != "" && Learn(EMPTY, MAIN, {G, F}, "int") == {G, F, I}
    ensures Lookup(EMPTY, MAIN, {G, F}, "int") == I && Schema(MAIN, "int") == "main" && Bare("int") == "int" && !Has(EMPTY, {G, F}, I)
  {
    hide FamilyInNamed, Qualifier, Bare, Normal, Lookup, Learn, TrimSpace, Schema;
    ShortName("int");
    assert |"int"| == 3 && |ARRAY| == 5 && |"f"| == 1 && |"g"| == 1;
    LearnBare({G, F}, "int");
  }

  lemma {:induction false} LearnP()
    ensures Normal("public.f") == "public.f" && TrimSpace("public.f") != "" && Learn(EMPTY, MAIN, {G, F, I}, "public.f") == {G, F, I, P}
    ensures Lookup(EMPTY, MAIN, {G, F, I}, "public.f") == P && Schema(MAIN, "public.f") == "public" && Bare("public.f") == "f"
    ensures !Has(EMPTY, {G, F, I}, P)
  {
    hide FamilyInNamed, Qualifier, Bare, Normal, Lookup, TrimSpace;
    TypeStoreShadowing.NamesOf();
    LookupQualified({G, F, I});
    EmptyTables(P);
    assert |"main"| == 4 && |"public"| == 6;
  }

  lemma {:induction false} LookupQualified(added: set<Slot>)
    ensures Lookup(EMPTY, MAIN, added, "public.f") == P
  {
    hide FamilyInNamed, Qualifier, Bare, Normal;
    TypeStoreShadowing.NamesOf();
  }

  /** What the expression registers, step by step. */
  lemma {:induction false} MeetAll()
    ensures Meet(EMPTY, MAIN, {G, F}, INT).added == {G, F, I} && Meet(EMPTY, MAIN, {G}, F_INT).added == {G, F, I}
    ensures Meet(EMPTY, MAIN, {G, F, I}, QUALIFIED).added == {G, F, I, P}
    ensures After(EMPTY, MAIN, G_BOTH) == {G, F, I, P}
  {
    hide Learn, Lookup, Spelled, Normal, TrimSpace, Schema, Has;
    LearnG();
    LearnF();
    LearnI();
    LearnP();
    MeetLeaf({G, F}, INT);
    MeetLeaf({G, F, I}, QUALIFIED);
    MeetOne({G, F}, F_INT.args);
    MeetTwo({G}, G_BOTH.args);
  }

  lemma {:induction false} MeetLeaf(added: set<Slot>, t: TypeExpr)
    requires t.args == []
    ensures Meet(EMPTY, MAIN, added, t).added == Learn(EMPTY, MAIN, added, Normal(t.name))
  {
    hide Learn, Lookup, Spelled, Normal;
    assert MeetArgs(EMPTY, MAIN, Learn(EMPTY, MAIN, added, Normal(t.name)), []) == MetArgs(Learn(EMPTY, MAIN, added, Normal(t.name)), []);
  }

  lemma {:induction false} MeetOne(added: set<Slot>, args: seq<TypeArg>)
    requires |args| == 1 && args[0].value.TypeVal?
    ensures MeetArgs(EMPTY, MAIN, added, args).added == Meet(EMPTY, MAIN, added, args[0].value.t).added
  {
    hide Meet;
    assert args[1..] == [];
  }

  lemma {:induction false} MeetTwo(added: set<Slot>, args: seq<TypeArg>)
    requires |args| == 2 && args[0].value.TypeVal? && args[1].value.TypeVal?
    ensures MeetArgs(EMPTY, MAIN, added, args).added
            == Meet(EMPTY, MAIN, Meet(EMPTY, MAIN, added, args[0].value.t).added, args[1].value.t).added
  {
    hide Meet;
    MeetOne(Meet(EMPTY, MAIN, added, args[0].value.t).added, args[1..]);
  }

  // ----- the first resolve succeeds -----

  /** New families settle, and have no row yet. */
  lemma {:induction false} NewSettles(s: Slot)
    ensures Settles(EMPTY, s)
  {
    EmptyTables(s);
  }

  lemma {:induction false} FirstG()
    ensures var r := InternFamily(EMPTY, MAIN, "g", true);
            r.oid > 0 && Tracks(EMPTY, r.db, {G}) && (forall s :: HasRow(r.db, s) <==> s == G) && r.db.namespaces == EMPTY.namespaces
  {
    hide Tracks, HasRow, Lookup, Learn, Has, InternFamily, Normal, TrimSpace, Schema;
    EmptyTables(G);
    TracksItself(EMPTY);
    LearnG();
    Registers(EMPTY, EMPTY, MAIN, {}, "g");
    FamilyLearns(EMPTY, EMPTY, MAIN, {}, "g");
    forall s: Slot
      ensures HasRow(InternFamily(EMPTY, MAIN, "g", true).db, s) <==> s == G
    {
      EmptyTables(s);
      FamilyRows(EMPTY, EMPTY, MAIN, {}, "g", s);
    }
    SameNamespaces(EMPTY, MAIN, "g");
  }

  /** Registering a family in a schema that exists adds no namespace. */
  lemma {:induction false} SameNamespaces(db: Db, d: Dialect, name: string)
    requires Schema(d, name) in db.namespaces && name != ARRAY
    ensures InternFamily(db, d, name, true).db.namespaces == db.namespaces
  {
    hide Family, NsOid, ExprIn, LastDot, UserTypeBase, Contains;
  }

  lemma {:induction false} FirstFInt(a: Db)
    requires Tracks(EMPTY, a, {G}) && (forall s :: HasRow(a, s) <==> s == G) && a.namespaces == EMPTY.namespaces
    ensures Intern(a, MAIN, F_INT, true, 2).out.Found?
  {
    hide Tracks, HasRow, Lookup, Learn, Has, InternFamily, Normal, TrimSpace, Schema, Intern, Settles, Answered, Meet;
    LearnF();
    LearnI();
    assert |"main"| == 4 && "f"[0] != "g"[0];
    Registers(EMPTY, a, MAIN, {G}, "f");
    FamilyLearns(EMPTY, a, MAIN, {G}, "f");
    SameNamespaces(a, MAIN, "f");
    var b := InternFamily(a, MAIN, "f", true).db;
    FamilyRows(EMPTY, a, MAIN, {G}, "f", I);
    assert |"int"| == 3;
    Registers(EMPTY, b, MAIN, {G, F}, "int");
    NewSettles(RootSlot(EMPTY, MAIN, {G, F}, INT));
    NewSettles(RootSlot(EMPTY, MAIN, {G}, F_INT));
    LeafFound(EMPTY, b, MAIN, {G, F}, INT, 1);
    InternMeets(EMPTY, b, MAIN, {G, F}, INT, 1);
    OneArg(b);
    NodeFound(EMPTY, a, MAIN, {G}, F_INT, 2);
  }

  lemma {:induction false} OneArg(b: Db)
    requires Intern(b, MAIN, INT, true, 1).out.Found?
    ensures var r := InternArgs(b, MAIN, F_INT.args, true, 1); r.out.FoundArgs? && r.out.known && r.db == Intern(b, MAIN, INT, true, 1).db
  {
    hide Intern;
    assert F_INT.args[1..] == [];
  }

  lemma {:induction false} HomeIsOwn(s: Slot)
    ensures HomeNs(EMPTY, s) == s.ns
    ensures s.ns == "main" || s.ns == "public" ==> Spelled(EMPTY, MAIN, s) == s.name
  {
    EmptyTables(s);
  }

  lemma {:induction false} RowsOfFInt(added: set<Slot>)
    ensures Instances(EMPTY, MAIN, added, F_INT) ==
            {Slot(RootSlot(EMPTY, MAIN, added, F_INT).ns, Key(Meet(EMPTY, MAIN, added, F_INT).canon))}
  {
    hide Meet, Lookup, Learn, Normal, Key, HomeNs, FamilyInNamed;
    HomeIsOwn(RootSlot(EMPTY, MAIN, added, F_INT));
    var known := Learn(EMPTY, MAIN, added, Normal("f"));
    OneArgument(EMPTY, MAIN, known, F_INT.args);
    assert Instances(EMPTY, MAIN, known, INT) == {};
    assert F_INT.args[1..] == [];
    OneArgument(EMPTY, MAIN, Meet(EMPTY, MAIN, known, INT).added, F_INT.args[1..]);
  }

  lemma {:induction false} SlotsFirst()
    ensures RootSlot(EMPTY, MAIN, {}, G_BOTH) == G && RootSlot(EMPTY, MAIN, {G}, F_INT) == F
  {
    hide Lookup, Learn, Normal, Has, TrimSpace, Schema;
    LearnG();
    LearnF();
    LearnedLookup(EMPTY, MAIN, {}, "g");
    LearnedLookup(EMPTY, MAIN, {G}, "f");
  }

  /** Afterwards the bare f is public's, and g still main's. */
  lemma {:induction false} SlotsLater()
    ensures Lookup(EMPTY, MAIN, {G, F, I, P}, "f") == P && Lookup(EMPTY, MAIN, {G, F, I, P}, "g") == G
    ensures Learn(EMPTY, MAIN, {G, F, I, P}, "f") == {G, F, I, P} && Learn(EMPTY, MAIN, {G, F, I, P}, "g") == {G, F, I, P}
  {
    hide FamilyInNamed, Lookup, Has;
    FLater({G, F, I, P});
    GLater({G, F, I, P});
  }

  lemma {:induction false} FLater(added: set<Slot>)
    requires added == {G, F, I, P}
    ensures Lookup(EMPTY, MAIN, added, "f") == P && Has(EMPTY, added, P)
  {
    hide FamilyInNamed, Qualifier, Bare, LastDot, InBase;
    ShortName("f");
    EmptyTables(Slot("pg_catalog", "f"));
    assert |"main"| == 4 && |"public"| == 6 && |"pg_catalog"| == 10;
  }

  lemma {:induction false} GLater(added: set<Slot>)
    requires added == {G, F, I, P}
    ensures Lookup(EMPTY, MAIN, added, "g") == G && Has(EMPTY, added, G)
  {
    hide FamilyInNamed, Qualifier, Bare, LastDot, InBase;
    ShortName("g");
    EmptyTables(Slot("pg_catalog", "g"));
    EmptyTables(Slot("public", "g"));
    assert |"main"| == 4 && |"public"| == 6 && |"pg_catalog"| == 10 && "f"[0] != "g"[0];
  }

  lemma {:induction false} FirstPublic(a: Db)
    requires Tracks(EMPTY, a, {G}) && (forall s :: HasRow(a, s) <==> s == G) && a.namespaces == EMPTY.namespaces
    ensures var b := Intern(a, MAIN, F_INT, true, 2).db;
            Intern(a, MAIN, F_INT, true, 2).out.Found? && Intern(b, MAIN, QUALIFIED, true, 2).out.Found?
            && a.types <= b.types <= Intern(b, MAIN, QUALIFIED, true, 2).db.types
  {
    hide Tracks, HasRow, Lookup, Learn, Has, InternFamily, Normal, TrimSpace, Schema, Intern, Settles, Answered, Meet, Instances, Key;
    FirstFInt(a);
    var b := Intern(a, MAIN, F_INT, true, 2).db;
    MeetAll();
    LearnP();
    EmptyTables(P);
    assert Clean(EMPTY, {G}) by { EmptyTables(G); }
    InternMeets(EMPTY, a, MAIN, {G}, F_INT, 2);
    InternRows(EMPTY, a, MAIN, {G}, F_INT, 2, P);
    RowsOfFInt({G});
    SlotsFirst();
    assert |"main"| == 4 && |"public"| == 6;
    assert EMPTY.namespaces[0] == "public" && b.namespaces[0] == EMPTY.namespaces[0];
    assert |"public.f"| != |ARRAY|;
    Registers(EMPTY, b, MAIN, {G, F, I}, "public.f");
    NewSettles(RootSlot(EMPTY, MAIN, {G, F, I}, QUALIFIED));
    LeafFound(EMPTY, b, MAIN, {G, F, I}, QUALIFIED, 2);
    InternMeets(EMPTY, b, MAIN, {G, F, I}, QUALIFIED, 2);
  }

  lemma {:induction false} TwoArgs(a: Db)
    requires Intern(a, MAIN, F_INT, true, 2).out.Found? && Intern(Intern(a, MAIN, F_INT, true, 2).db, MAIN, QUALIFIED, true, 2).out.Found?
    ensures var r := InternArgs(a, MAIN, G_BOTH.args, true, 2);
            r.out.FoundArgs? && r.out.known && r.db == Intern(Intern(a, MAIN, F_INT, true, 2).db, MAIN, QUALIFIED, true, 2).db
  {
    hide Intern, InternArgs;
    var b := Intern(a, MAIN, F_INT, true, 2).db;
    var rest := G_BOTH.args[1..];
    assert rest[0] == G_BOTH.args[1] && rest[1..] == [];
    NoArgs(Intern(b, MAIN, QUALIFIED, true, 2).db);
    NextArg(b, rest);
    NextArg(a, G_BOTH.args);
  }

  lemma {:induction false} NoArgs(b: Db)
    ensures InternArgs(b, MAIN, [], true, 2) == ArgsStep(b, FoundArgs([], [], true))
  {
  }

  lemma {:induction false} NextArg(b: Db, args: seq<TypeArg>)
    requires args != [] && args[0].value.TypeVal? && Intern(b, MAIN, args[0].value.t, true, 2).out.Found?
    requires var rest := InternArgs(Intern(b, MAIN, args[0].value.t, true, 2).db, MAIN, args[1..], true, 2);
             rest.out.FoundArgs? && rest.out.known
    ensures var r := InternArgs(b, MAIN, args, true, 2);
            && r.out.FoundArgs? && r.out.known
            && r.db == InternArgs(Intern(b, MAIN, args[0].value.t, true, 2).db, MAIN, args[1..], true, 2).db
  {
    hide Intern;
  }

  lemma {:induction false} FirstResolves()
    ensures Intern(EMPTY, MAIN, G_BOTH, true, 3).out.Found?
  {
    hide Tracks, HasRow, Lookup, Learn, Has, InternFamily, Normal, TrimSpace, Schema, Intern, Settles, InternArgs;
    FirstG();
    LearnG();
    EmptyTables(G);
    TracksItself(EMPTY);
    var a := InternFamily(EMPTY, MAIN, "g", true).db;
    FirstPublic(a);
    TwoArgs(a);
    NewSettles(RootSlot(EMPTY, MAIN, {}, G_BOTH));
    NodeFound(EMPTY, EMPTY, MAIN, {}, G_BOTH, 3);
  }

  // ----- and the second one inserts -----

  lemma {:induction false} NeedsMore()
    ensures !NeedsNoMore(EMPTY, MAIN, G_BOTH)
  {
    hide Tracks, HasRow, Lookup, Learn, Has, Normal, TrimSpace, Schema, Meet, Key, HomeNs, Instances, InstancesArgs, After;
    var after := {G, F, I, P};
    MeetAll();
    SlotsLater();
    SlotsFirst();
    LearnG();
    LearnF();
    var s := Slot("public", Key(Meet(EMPTY, MAIN, after, F_INT).canon));
    RowsOfFInt(after);
    RowsOfFInt({G});
    NeededLater(after, s);
    NeededFirst(s);
    LongKey(after, F_INT);
    EmptyTables(s);
    assert |"main"| == 4 && |"public"| == 6;
  }

  lemma {:induction false} LongKey(added: set<Slot>, t: TypeExpr)
    requires t.args != []
    ensures '(' in Key(Meet(EMPTY, MAIN, added, t).canon)
  {
    hide Lookup, Learn, Normal, Key, Spelled;
    KeyHasParen(Meet(EMPTY, MAIN, added, t).canon);
  }

  lemma {:induction false} NeededLater(after: set<Slot>, s: Slot)
    requires after == {G, F, I, P} && s in Instances(EMPTY, MAIN, after, F_INT)
    ensures s in Instances(EMPTY, MAIN, after, G_BOTH)
  {
    hide Lookup, Learn, Normal, Meet, Key, HomeNs, InstancesArgs, TrimSpace, Has, Schema;
    LearnG();
    SlotsLater();
    OneArgument(EMPTY, MAIN, after, G_BOTH.args);
    PickInstances(after);
  }

  lemma {:induction false} PickInstances(added: set<Slot>)
    ensures InstancesArgs(EMPTY, MAIN, Learn(EMPTY, MAIN, added, Normal("g")), G_BOTH.args) <= Instances(EMPTY, MAIN, added, G_BOTH)
    ensures Instances(EMPTY, MAIN, added, G_BOTH) ==
            {Slot(HomeNs(EMPTY, RootSlot(EMPTY, MAIN, added, G_BOTH)), Key(Meet(EMPTY, MAIN, added, G_BOTH).canon))}
            + InstancesArgs(EMPTY, MAIN, Learn(EMPTY, MAIN, added, Normal("g")), G_BOTH.args)
  {
    hide Lookup, Learn, Normal, Meet, Key, HomeNs, InstancesArgs;
  }

  /** The first resolve needs rows in main only. */
  lemma {:induction false} NeededFirst(s: Slot)
    requires s.ns == "public"
    ensures s !in Instances(EMPTY, MAIN, {}, G_BOTH)
  {
    hide Lookup, Learn, Normal, Meet, Key, HomeNs, Instances, InstancesArgs, TrimSpace, Has, Schema;
    LearnG();
    SlotsFirst();
    MeetAll();
    PickInstances({});
    HomeIsOwn(G);
    RowsOfFInt({G});
    var rest := G_BOTH.args[1..];
    OneArgument(EMPTY, MAIN, {G}, G_BOTH.args);
    assert rest[0].value.t == QUALIFIED && rest[1..] == [];
    OneArgument(EMPTY, MAIN, {G, F, I}, rest);
    OneArgument(EMPTY, MAIN, {G, F, I, P}, []);
    NoneNeeded(EMPTY, EMPTY, MAIN, {G, F, I}, QUALIFIED);
    assert |"main"| == 4 && |"public"| == 6;
  }

  lemma {:induction false} StillSpelled()
    ensures SameSpellingAgain(EMPTY, MAIN, G_BOTH)
    ensures !Has(EMPTY, After(EMPTY, MAIN, G_BOTH), Slot(HomeNs(EMPTY, RootSlot(EMPTY, MAIN, {}, G_BOTH)), Key(Meet(EMPTY, MAIN, {}, G_BOTH).canon)))
  {
    hide Tracks, Lookup, Learn, Normal, TrimSpace, Schema, Meet, Key, HomeNs, Feasible, Undisturbed, Intern, Clean, FamilyInNamed;
    var after := {G, F, I, P};
    MeetAll();
    SlotsFirst();
    SlotsLater();
    LearnG();
    HomeIsOwn(G);
    EmptyTables(G);
    FirstResolves();
    AfterFirst(EMPTY, MAIN, G_BOTH, 3);
    assert Clean(EMPTY, {}) by { NoSlots(); }
    StaysUndisturbed();
    SameCanon(EMPTY, MAIN, {}, after, G_BOTH, 3);
    LongKey({}, G_BOTH);
    EmptyTables(Slot("main", Key(Meet(EMPTY, MAIN, {}, G_BOTH).canon)));
  }

  lemma {:induction false} NoSlots()
    ensures Clean(EMPTY, {})
  {
  }

  /** A family of main is spelled by its bare name, taken over or not. */
  lemma {:induction false} BareUndisturbed(known: set<Slot>, later: set<Slot>, name: string)
    requires Lookup(EMPTY, MAIN, known, name) == Slot("main", name)
    ensures !Disturbed(EMPTY, MAIN, known, later, name)
  {
    hide Lookup, Spelled;
    HomeIsOwn(Slot("main", name));
  }

  lemma {:induction false} StaysUndisturbed()
    ensures Undisturbed(EMPTY, MAIN, {}, {G, F, I, P}, G_BOTH)
  {
    hide Lookup, Learn, Normal, TrimSpace, Schema, Meet, Has, Disturbed, Undisturbed;
    var later := {G, F, I, P};
    LearnG();
    LearnF();
    LearnI();
    LearnP();
    MeetAll();
    LearnedLookup(EMPTY, MAIN, {}, "g");
    LearnedLookup(EMPTY, MAIN, {G}, "f");
    LearnedLookup(EMPTY, MAIN, {G, F}, "int");
    BareUndisturbed({G}, later, "g");
    BareUndisturbed({G, F}, later, "f");
    BareUndisturbed({G, F, I}, later, "int");
    LeafUndisturbed({G, F}, later, INT);
    QualifiedUndisturbed({G, F, I, P}, later);
    LeafUndisturbed({G, F, I}, later, QUALIFIED);
    FIntUndisturbed(later);
    GUndisturbed(later);
  }

  lemma {:induction false} LeafUndisturbed(added: set<Slot>, later: set<Slot>, t: TypeExpr)
    requires t.args == [] && !Disturbed(EMPTY, MAIN, Learn(EMPTY, MAIN, added, Normal(t.name)), later, Normal(t.name))
    ensures Undisturbed(EMPTY, MAIN, added, later, t)
  {
    hide Lookup, Learn, Normal, Disturbed;
  }

  lemma {:induction false} QualifiedUndisturbed(known: set<Slot>, later: set<Slot>)
    ensures !Disturbed(EMPTY, MAIN, known, later, "public.f")
  {
    hide Lookup, Spelled;
    LookupQualified(known);
    LookupQualified(later);
  }

  lemma {:induction false} FIntUndisturbed(later: set<Slot>)
    requires Normal("f") == "f" && Learn(EMPTY, MAIN, {G}, "f") == {G, F} && !Disturbed(EMPTY, MAIN, {G, F}, later, "f")
    requires Undisturbed(EMPTY, MAIN, {G, F}, later, INT)
    ensures Undisturbed(EMPTY, MAIN, {G}, later, F_INT)
  {
    hide Lookup, Learn, Normal, Disturbed, Meet;
    assert F_INT.args[1..] == [];
    assert UndisturbedArgs(EMPTY, MAIN, {G, F}, later, F_INT.args);
  }

  lemma {:induction false} GUndisturbed(later: set<Slot>)
    requires Normal("g") == "g" && Learn(EMPTY, MAIN, {}, "g") == {G} && !Disturbed(EMPTY, MAIN, {G}, later, "g")
    requires Undisturbed(EMPTY, MAIN, {G}, later, F_INT) && Meet(EMPTY, MAIN, {G}, F_INT).added == {G, F, I}
    requires Undisturbed(EMPTY, MAIN, {G, F, I}, later, QUALIFIED)
    ensures Undisturbed(EMPTY, MAIN, {}, later, G_BOTH)
  {
    hide Lookup, Learn, Normal, Disturbed, Meet;
    var rest := G_BOTH.args[1..];
    assert rest[0] == G_BOTH.args[1] && rest[1..] == [];
    assert UndisturbedArgs(EMPTY, MAIN, {G, F, I}, later, rest);
    assert UndisturbedArgs(EMPTY, MAIN, {G}, later, G_BOTH.args);
  }

  /** Resolving g(f(int), public.f) twice returns one row, and yet the second resolve inserts; and a
      lookup made in between does not answer the row just resolved. */
  lemma {:induction false} SameRowYetInserts()
    ensures var first := Intern(EMPTY, MAIN, G_BOTH, true, 3);
            var second := Intern(first.db, MAIN, G_BOTH, true, 3);
            var found := LookupTypeExpr(first.db, MAIN, G_BOTH, 3);
            && first.out.Found? && second.out.Found? && second.out.oid == first.out.oid
            && second.db != first.db
            && !(found.Some? && found.value.oid == first.out.oid)
  {
    hide Intern, Meet, NeedsNoMore, SameSpellingAgain, After, HomeNs, Lookup, Learn, Key, LookupTypeExpr, Has;
    FirstResolves();
    EmptyTables(G);
    StillSpelled();
    NeedsMore();
    InsertsNothingIff(EMPTY, MAIN, G_BOTH, 3);
    assert TypeStoreInvariant.Valid(EMPTY, MAIN);
    LookupIff(EMPTY, MAIN, G_BOTH, 3);
    SecondIsFirst();
  }

  lemma {:induction false} SecondIsFirst()
    requires SameSpellingAgain(EMPTY, MAIN, G_BOTH) && Intern(EMPTY, MAIN, G_BOTH, true, 3).out.Found?
    ensures var first := Intern(EMPTY, MAIN, G_BOTH, true, 3);
            var second := Intern(first.db, MAIN, G_BOTH, true, 3);
            second.out.Found? && second.out.oid == first.out.oid
  {
    hide Intern, Meet, After, HomeNs, Lookup, Learn, Key;
    EmptyTables(G);
    SecondRow(EMPTY, MAIN, G_BOTH, 3);
  }

  // ----- a rewrite that applies only the second time -----

  /** f is rewritten to g; public.f is f only once it is known. */
  const F_TO_G := Rewrite(TypeExpr("f", false, []), TypeExpr("g", false, []), Always)
  const RULED := Dialect("main", Rules([F_TO_G], {}, map[]), [])
  const ONE := Db([PUBLIC_ROW], [[]], ["public", "main"])

  lemma {:induction false} Lowered()
    ensures ToLower("f") == "f" && ToLower("public.f") == "public.f" && |ToLower("public.f")| == 8
  {
    hide ToLower;
    LowerNothing("f");
    LowerNothing("public.f");
  }

  lemma {:induction false} RuleApplies()
    ensures Apply([F_TO_G], QUALIFIED) == None && Apply([F_TO_G], QUALIFIED.(name := "f")) == Some(TypeExpr("g", false, []))
  {
    hide ToLower;
    Lowered();
    assert |"f"| == 1;
    assert [F_TO_G][1..] == [];
  }

  lemma {:induction false} PublicFamily()
    ensures Family(EMPTY, MAIN, "public.f") == 0 && InternFamily(EMPTY, MAIN, "public.f", true) == Insert(ONE, 1)
    ensures Family(ONE, MAIN, "public.f") == 1
  {
    hide NsOid, Qualifier, Bare, Normal, TrimSpace, LastDot, ToLower;
    TypeStoreShadowing.NamesOf();
    Namespaces();
    assert |"public.f"| != |ARRAY|;
    assert EMPTY.types + [PUBLIC_ROW] == ONE.types && ONE.types[..0] == [];
  }

  lemma {:induction false} OtherFamily()
    ensures var r := InternFamily(ONE, MAIN, "g", true); r.oid == 2 && Canonical(r.db, 2) == 2
  {
    hide NsOid, Qualifier, Bare, Normal, TrimSpace, LastDot, ToLower;
    ShortName("g");
    Namespaces();
    assert |"g"| != |ARRAY| && "f"[0] != "g"[0];
    assert ONE.types[..0] == [];
    assert FamilyIn(ONE.types, 1, "g") == 0 && FamilyIn(ONE.types, 2, "g") == 0 && ExprIn(ONE.types, 2, "g") == 0;
  }

  /** Resolving public.f twice, where f is rewritten to g, returns two rows. */
  lemma {:induction false} RewrittenLater()
    ensures var first := Intern(EMPTY, RULED, QUALIFIED, true, 1);
            var second := Intern(first.db, RULED, QUALIFIED, true, 1);
            first.out.Found? && second.out.Found? && first.out.oid == 1 && second.out.oid == 2
  {
    hide InternFamily, Apply, Family, Normal, TrimSpace, ToLower;
    TypeStoreShadowing.NamesOf();
    ShortName("g");
    Lowered();
    RuleApplies();
    PublicFamily();
    OtherFamily();
    assert Plain(RULED) == MAIN;
    PlainFamily(EMPTY, RULED, "public.f");
    PlainFamily(ONE, RULED, "public.f");
    PlainFamily(ONE, RULED, "g");
    assert Canonicalize(EMPTY, RULED, QUALIFIED) == QUALIFIED;
    assert Canonical(ONE, 1) == 1;
    assert |"f"| == 1;
    assert CanonicalName(ONE, RULED, "public.f") == Some("f");
    assert Canonicalize(ONE, RULED, QUALIFIED) == TypeExpr("g", false, []);
  }
}
