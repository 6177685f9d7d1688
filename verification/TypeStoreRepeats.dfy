/** When a second resolve inserts nothing, and when a lookup finds the row a resolve returned. Without
    rewrites the rows a resolve needs can be told from names alone, as its answer can. */
module TypeStoreRepeats {
  import opened Common
  import opened Text
  import opened TypeExprs
  import opened TypeRewrites
  import opened TypeStore
  import opened TypeStoreStability
  import opened TypeStoreTakeover
  import TypeStoreInvariant

  // ----- rows by namespace and spelling -----

  /** Some row has this spelling in this namespace. */
  predicate HasRow(db: Db, s: Slot) {
    NsOid(db.namespaces, s.ns) > 0 && ExprIn(db.types, NsOid(db.namespaces, s.ns), s.name) > 0
  }

  lemma {:induction false} ExprInAppend(types: seq<TypeRow>, row: TypeRow, ns: nat, expr: string)
    ensures ExprIn(types + [row], ns, expr) ==
            if ExprIn(types, ns, expr) > 0 then ExprIn(types, ns, expr)
            else if row.ns == ns && row.expr == expr then |types| + 1 else 0
  {
    assert (types + [row])[..|types|] == types;
  }

  lemma {:induction false} NoExprThere(types: seq<TypeRow>, ns: nat, expr: string)
    requires forall i :: 0 <= i < |types| ==> types[i].ns != ns
    ensures ExprIn(types, ns, expr) == 0
  {
  }

  /** A row more is one namespace and spelling more. */
  lemma {:induction false} RowAdded(db: Db, db': Db, ns: string, row: TypeRow, s: Slot)
    requires RowsOk(db) && DistinctNames(db'.namespaces) && db'.types == db.types + [row]
    requires db'.namespaces == (if ns in db.namespaces then db.namespaces else db.namespaces + [ns])
    requires row.ns == NsOid(db'.namespaces, ns)
    ensures HasRow(db', s) <==> HasRow(db, s) || s == Slot(ns, row.expr)
  {
    hide ExprIn, NsOid;
    NewNsOid(db, db', ns, s.ns);
    NewNsOid(db, db', ns, ns);
    var oid := NsOid(db'.namespaces, s.ns);
    ExprInAppend(db.types, row, oid, s.name);
    if oid > 0 && NsOid(db.namespaces, s.ns) == 0 {
      NoExprThere(db.types, oid, s.name);
    }
    if oid > 0 && oid == row.ns {
      NsOidInjective(db'.namespaces, s.ns, ns);
    }
  }

  lemma {:induction false} NewNsOid(db: Db, db': Db, ns: string, x: string)
    requires db'.namespaces == (if ns in db.namespaces then db.namespaces else db.namespaces + [ns])
    ensures NsOid(db'.namespaces, x) ==
            if NsOid(db.namespaces, x) > 0 then NsOid(db.namespaces, x)
            else if x == ns then |db.namespaces| + 1 else 0
    ensures NsOid(db'.namespaces, ns) > 0
  {
    if ns !in db.namespaces {
      NsOidAppend(db.namespaces, ns, x);
      NsOidAppend(db.namespaces, ns, ns);
    }
  }

  /** Registering a family adds the row of its slot. */
  lemma {:induction false} FamilyRows(base: Db, db: Db, d: Dialect, added: set<Slot>, name: string, s: Slot)
    requires Tracks(base, db, added) && InternFamily(db, d, name, true).oid > 0
    ensures HasRow(InternFamily(db, d, name, true).db, s) <==>
            HasRow(db, s) || (s in Learn(base, d, added, name) && s !in added)
  {
    hide Family, UserTypeBase, Contains, NsOid, ExprIn, LastDot, FamilyInNamed, Tracks, HasRow;
    LookupIs(base, db, d, added, name);
    FamilyLearns(base, db, d, added, name);
    var r, slot := InternFamily(db, d, name, true), Lookup(base, d, added, name);
    if Family(db, d, name) == 0 {
      UnknownHome(base, d, added, name);
      NoDots();
      assert RowsOk(db) by { TracksParts(base, db, added, s); }
      assert DistinctNames(r.db.namespaces) by { TracksParts(base, r.db, Learn(base, d, added, name), s); }
      RowAdded(db, r.db, slot.ns, r.db.types[|db.types|], s);
    }
  }

  /** An instance that is found or inserted has its row afterwards, and no other is new. */
  lemma {:induction false} InstanceRows(base: Db, db: Db, d: Dialect, added: set<Slot>, fam: nat, args: ArgsOutcome, s: Slot)
    requires Tracks(base, db, added) && args.FoundArgs? && IsOid(db, fam)
    requires InternInstance(db, d, fam, args, true).out.Found?
    ensures 1 <= Row(db, fam).ns <= |db.namespaces|
    ensures var r := InternInstance(db, d, fam, args, true);
            HasRow(r.db, s) <==> HasRow(db, s) || s == Slot(db.namespaces[Row(db, fam).ns - 1], Key(r.out.canon))
  {
    hide ExprIn, NsOid, String, QualifiedName, Tracks, HasRow;
    assert RowsOk(db) && DistinctNames(db.namespaces) by { TracksParts(base, db, added, s); }
    assert Row(db, fam) == db.types[fam - 1];
    var r, ns := InternInstance(db, d, fam, args, true), db.namespaces[Row(db, fam).ns - 1];
    NsOidOf(db.namespaces, Row(db, fam).ns - 1);
    if r.db == db {
      FoundHasRow(db, d, fam, args);
    } else {
      RowAdded(db, r.db, ns, r.db.types[|db.types|], s);
    }
  }

  lemma {:induction false} FoundHasRow(db: Db, d: Dialect, fam: nat, args: ArgsOutcome)
    requires args.FoundArgs? && IsOid(db, fam) && 1 <= Row(db, fam).ns <= |db.namespaces|
    requires NsOid(db.namespaces, db.namespaces[Row(db, fam).ns - 1]) == Row(db, fam).ns
    requires InternInstance(db, d, fam, args, true) == Step(db, InternInstance(db, d, fam, args, true).out)
    requires InternInstance(db, d, fam, args, true).out.Found?
    ensures HasRow(db, Slot(db.namespaces[Row(db, fam).ns - 1], Key(InternInstance(db, d, fam, args, true).out.canon)))
  {
    hide ExprIn, NsOid, String, QualifiedName;
  }

  // ----- the rows an expression needs -----

  /** For every subexpression with arguments, its namespace and its spelling, names being met as in a
      resolve. */
  function Instances(base: Db, d: Dialect, added: set<Slot>, t: TypeExpr): set<Slot>
    decreases t, 1
  {
    if t.args == [] then {}
    else
      {Slot(HomeNs(base, RootSlot(base, d, added, t)), Key(Meet(base, d, added, t).canon))}
      + InstancesArgs(base, d, Learn(base, d, added, Normal(t.name)), t.args)
  }

  function InstancesArgs(base: Db, d: Dialect, added: set<Slot>, args: seq<TypeArg>): set<Slot>
    decreases args, 0
  {
    if args == [] then {}
    else InstancesArg(base, d, added, args[0]) + InstancesArgs(base, d, MeetArg(base, d, added, args[0]).0, args[1..])
  }

  function InstancesArg(base: Db, d: Dialect, added: set<Slot>, a: TypeArg): set<Slot>
    decreases a, 2
  {
    if a.value.TypeVal? then Instances(base, d, added, a.value.t) else {}
  }

  /** A resolve adds the rows of the families it registers and of the instances it needs, and no other. */
  lemma {:induction false} InternRows(base: Db, db: Db, d: Dialect, added: set<Slot>, t: TypeExpr, fuel: nat, s: Slot)
    requires NoRules(d.rules) && Tracks(base, db, added) && Clean(base, added) && Intern(db, d, t, true, fuel).out.Found?
    ensures HasRow(Intern(db, d, t, true, fuel).db, s) <==>
            HasRow(db, s) || (s in Meet(base, d, added, t).added && s !in added) || s in Instances(base, d, added, t)
    decreases fuel, 1, 0
  {
    hide Canonicalize, InternFamily, Lookup, Learn, FamilyInNamed, CanonicalFrom, Tracks, TrimSpace, Normal, QualifiedName,
      InternArgs, InternInstance, Spelled, Settles, HasRow, HomeNs, Key, Clean;
    InternRoot(base, db, d, added, t, fuel);
    NothingCanonicalized(db, d, t);
    var n := Normal(t.name);
    var made, known := InternFamily(db, d, n, true), Learn(base, d, added, n);
    FamilyRows(base, db, d, added, n, s);
    LearnKeeps(base, d, added, n);
    if t.args != [] {
      FoundMeans(db, d, t, true, fuel);
      LearnClean(base, d, added, n);
      ArgRows(base, made.db, d, known, t.args, fuel - 1, s);
      MeetArgsGrow(base, d, known, t.args);
      RootRow(base, db, d, added, t, fuel, s);
    } else {
      assert MeetArgs(base, d, known, t.args) == MetArgs(known, []);
    }
  }

  lemma {:induction false} LearnKeeps(base: Db, d: Dialect, added: set<Slot>, name: string)
    ensures added <= Learn(base, d, added, name)
  {
    hide Lookup, FamilyInNamed;
  }

  /** The last step of a resolve with arguments. */
  lemma {:induction false} RootRow(base: Db, db: Db, d: Dialect, added: set<Slot>, t: TypeExpr, fuel: nat, s: Slot)
    requires NoRules(d.rules) && Tracks(base, db, added) && Intern(db, d, t, true, fuel).out.Found? && t.args != [] && fuel > 0
    ensures var made := InternFamily(db, d, Normal(t.name), true);
            var done := InternArgs(made.db, d, t.args, true, fuel - 1);
            HasRow(Intern(db, d, t, true, fuel).db, s) <==>
            HasRow(done.db, s) || s == Slot(HomeNs(base, RootSlot(base, d, added, t)), Key(Meet(base, d, added, t).canon))
  {
    hide Canonicalize, InternFamily, Lookup, Learn, FamilyInNamed, CanonicalFrom, Tracks, TrimSpace, Normal, QualifiedName,
      InternArgs, InternInstance, Spelled, Settles, HasRow, HomeNs, Key, MeetArgs, NsOid, Answered;
    InternRoot(base, db, d, added, t, fuel);
    InternMeets(base, db, d, added, t, fuel);
    NothingCanonicalized(db, d, t);
    FoundMeans(db, d, t, true, fuel);
    var n, slot := Normal(t.name), RootSlot(base, d, added, t);
    var made, known := InternFamily(db, d, n, true), Learn(base, d, added, n);
    SlotMeans(base, made.db, d, known, slot);
    MeetsArgs(base, made.db, d, known, t.args, fuel - 1);
    var done := InternArgs(made.db, d, t.args, true, fuel - 1);
    var fam := Canonical(made.db, made.oid);
    InstanceRows(base, done.db, d, MeetArgs(base, d, known, t.args).added, fam, done.out, s);
    HomeStays(made.db, done.db, fam, HomeNs(base, slot));
  }

  lemma {:induction false} HomeStays(db: Db, db': Db, fam: nat, ns: string)
    requires db.types <= db'.types && db.namespaces <= db'.namespaces && IsOid(db, fam)
    requires Row(db, fam).ns == NsOid(db.namespaces, ns) > 0
    ensures IsOid(db', fam) && 1 <= Row(db', fam).ns <= |db'.namespaces| && db'.namespaces[Row(db', fam).ns - 1] == ns
  {
    assert db'.namespaces[Row(db, fam).ns - 1] == db.namespaces[Row(db, fam).ns - 1];
  }

  /** The names and rows of an argument list, one argument at a time. */
  lemma {:induction false} OneArgument(base: Db, d: Dialect, added: set<Slot>, args: seq<TypeArg>)
    ensures args == [] ==> MeetArgs(base, d, added, args).added == added && InstancesArgs(base, d, added, args) == {}
    ensures args != [] && args[0].value.TypeVal? ==>
              var m := Meet(base, d, added, args[0].value.t);
              && MeetArgs(base, d, added, args).added == MeetArgs(base, d, m.added, args[1..]).added
              && InstancesArgs(base, d, added, args)
                 == Instances(base, d, added, args[0].value.t) + InstancesArgs(base, d, m.added, args[1..])
    ensures args != [] && !args[0].value.TypeVal? ==>
              && MeetArgs(base, d, added, args).added == MeetArgs(base, d, added, args[1..]).added
              && InstancesArgs(base, d, added, args) == InstancesArgs(base, d, added, args[1..])
  {
    hide Meet, Instances;
  }

  lemma {:induction false} ArgRows(base: Db, db: Db, d: Dialect, added: set<Slot>, args: seq<TypeArg>, fuel: nat, s: Slot)
    requires NoRules(d.rules) && Tracks(base, db, added) && Clean(base, added)
    requires InternArgs(db, d, args, true, fuel).out.FoundArgs? && InternArgs(db, d, args, true, fuel).out.known
    ensures HasRow(InternArgs(db, d, args, true, fuel).db, s) <==>
            HasRow(db, s) || (s in MeetArgs(base, d, added, args).added && s !in added) || s in InstancesArgs(base, d, added, args)
    decreases fuel, 2, |args|
  {
    hide Intern, Meet, MeetArgs, Tracks, Answered, HasRow, Instances, InstancesArgs, Clean;
    OneArgument(base, d, added, args);
    if args != [] {
      if args[0].value.TypeVal? {
        var u := args[0].value.t;
        var r, m := Intern(db, d, u, true, fuel), Meet(base, d, added, u);
        InternMeets(base, db, d, added, u, fuel);
        InternRows(base, db, d, added, u, fuel, s);
        MeetGrows(base, d, added, u);
        MeetArgsGrow(base, d, m.added, args[1..]);
        ArgRows(base, r.db, d, m.added, args[1..], fuel, s);
      } else {
        ArgRows(base, db, d, added, args[1..], fuel, s);
      }
    }
  }

  // ----- when the rows are all there -----

  ghost predicate AllThere(db: Db, rows: set<Slot>) { forall s :: s in rows ==> HasRow(db, s) }

  /** Once every name is known and every row an expression needs is there, interning finds it, writes
      nothing, and does not depend on whether it may write. */
  lemma {:induction false} ThereFound(base: Db, db: Db, d: Dialect, added: set<Slot>, t: TypeExpr, write: bool, fuel: nat)
    requires NoRules(d.rules) && Tracks(base, db, added) && Feasible(base, d, added, t, fuel)
    requires AllThere(db, Instances(base, d, added, t))
    ensures Intern(db, d, t, write, fuel) == Intern(db, d, t, true, fuel)
    ensures Intern(db, d, t, true, fuel).db == db && Intern(db, d, t, true, fuel).out.Found?
    decreases fuel, 1, 0
  {
    hide Canonicalize, Family, Lookup, Learn, FamilyInNamed, CanonicalFrom, Tracks, TrimSpace, Normal, QualifiedName,
      InternArgs, InternInstance, Settles, HasRow, HomeNs, Key, Meet, AllThere;
    NothingCanonicalized(db, d, t);
    var n := Normal(t.name);
    var s := Lookup(base, d, added, n);
    LookupIs(base, db, d, added, n);
    SlotMeans(base, db, d, added, s);
    KnownFamily(db, d, n, write);
    KnownFamily(db, d, n, true);
    if t.args != [] {
      KnownRoot(base, d, added, t, fuel);
      FeasibleFound(base, db, d, added, t, fuel);
      PartsThere(base, db, d, added, t);
      ThereFoundArgs(base, db, d, added, t.args, write, fuel - 1);
      MeetsArgs(base, db, d, added, t.args, fuel - 1);
      MeetRoot(base, d, added, t);
      RowThere(base, db, d, s, Canonical(db, Family(db, d, n)), InternArgs(db, d, t.args, true, fuel - 1).out, write);
    }
  }

  lemma {:induction false} MeetRoot(base: Db, d: Dialect, added: set<Slot>, t: TypeExpr)
    ensures Meet(base, d, added, t).canon ==
            TypeExpr(Spelled(base, d, RootSlot(base, d, added, t)), false,
                     MeetArgs(base, d, Learn(base, d, added, Normal(t.name)), t.args).canon)
  {
    hide Lookup, Learn, Spelled, Normal;
  }

  lemma {:induction false} PartsThere(base: Db, db: Db, d: Dialect, added: set<Slot>, t: TypeExpr)
    requires t.args != []
    ensures AllThere(db, Instances(base, d, added, t)) <==>
            HasRow(db, Slot(HomeNs(base, RootSlot(base, d, added, t)), Key(Meet(base, d, added, t).canon)))
            && AllThere(db, InstancesArgs(base, d, Learn(base, d, added, Normal(t.name)), t.args))
  {
    hide HasRow, HomeNs, Key, Meet, Lookup, Learn, Normal, InstancesArgs;
  }

  /** The instance row decides what the last step does. */
  lemma {:induction false} RowThere(base: Db, db: Db, d: Dialect, s: Slot, fam: nat, args: ArgsOutcome, write: bool)
    requires args.FoundArgs? && args.known && IsOid(db, fam)
    requires QualifiedName(db, d, Row(db, fam)) == Spelled(base, d, s) && Row(db, fam).ns == NsOid(db.namespaces, HomeNs(base, s)) > 0
    ensures var there := HasRow(db, Slot(HomeNs(base, s), Key(TypeExpr(Spelled(base, d, s), false, args.canon))));
            && (there ==> InternInstance(db, d, fam, args, write) == InternInstance(db, d, fam, args, true)
                          && InternInstance(db, d, fam, args, true).db == db && InternInstance(db, d, fam, args, true).out.Found?)
            && (!there ==> !InternInstance(db, d, fam, args, false).out.Found?)
  {
    hide ExprIn, NsOid, String, QualifiedName, Spelled, HomeNs;
  }

  lemma {:induction false} ThereFoundArgs(base: Db, db: Db, d: Dialect, added: set<Slot>, args: seq<TypeArg>, write: bool, fuel: nat)
    requires NoRules(d.rules) && Tracks(base, db, added) && FeasibleArgs(base, d, added, args, fuel)
    requires AllThere(db, InstancesArgs(base, d, added, args))
    ensures InternArgs(db, d, args, write, fuel) == InternArgs(db, d, args, true, fuel)
    ensures var r := InternArgs(db, d, args, true, fuel); r.db == db && r.out.FoundArgs? && r.out.known
    decreases fuel, 2, |args|
  {
    hide Intern, Tracks, Feasible, Meet, MeetArgs, Instances, InstancesArgs, HasRow;
    OneArgument(base, d, added, args);
    if args != [] {
      if args[0].value.TypeVal? {
        var u := args[0].value.t;
        MeetKnown(base, d, added, u, fuel);
        ThereFound(base, db, d, added, u, write, fuel);
      }
      ThereFoundArgs(base, db, d, added, args[1..], write, fuel);
    }
  }

  /** What is found without writing has all its rows. */
  lemma {:induction false} FoundThere(base: Db, db: Db, d: Dialect, added: set<Slot>, t: TypeExpr, fuel: nat)
    requires NoRules(d.rules) && Tracks(base, db, added) && Feasible(base, d, added, t, fuel)
    requires Intern(db, d, t, false, fuel).out.Found?
    ensures AllThere(db, Instances(base, d, added, t))
    decreases fuel, 1, 0
  {
    hide Canonicalize, Family, Lookup, Learn, FamilyInNamed, CanonicalFrom, Tracks, TrimSpace, Normal, QualifiedName,
      InternArgs, InternInstance, Settles, HasRow, HomeNs, Key, Meet, AllThere;
    if t.args == [] {
      NoneNeeded(base, db, d, added, t);
    } else {
      NothingCanonicalized(db, d, t);
      var n := Normal(t.name);
      var s := Lookup(base, d, added, n);
      LookupIs(base, db, d, added, n);
      SlotMeans(base, db, d, added, s);
      KnownFamily(db, d, n, false);
      KnownRoot(base, d, added, t, fuel);
      FoundMeans(db, d, t, false, fuel);
      FoundArgsThere(base, db, d, added, t.args, fuel - 1);
      ThereFoundArgs(base, db, d, added, t.args, false, fuel - 1);
      MeetsArgs(base, db, d, added, t.args, fuel - 1);
      MeetRoot(base, d, added, t);
      RowThere(base, db, d, s, Canonical(db, Family(db, d, n)), InternArgs(db, d, t.args, true, fuel - 1).out, false);
      PartsThere(base, db, d, added, t);
    }
  }

  lemma {:induction false} NoneNeeded(base: Db, db: Db, d: Dialect, added: set<Slot>, t: TypeExpr)
    requires t.args == []
    ensures Instances(base, d, added, t) == {} && AllThere(db, Instances(base, d, added, t))
  {
  }

  lemma {:induction false} FoundArgsThere(base: Db, db: Db, d: Dialect, added: set<Slot>, args: seq<TypeArg>, fuel: nat)
    requires NoRules(d.rules) && Tracks(base, db, added) && FeasibleArgs(base, d, added, args, fuel)
    requires InternArgs(db, d, args, false, fuel).out.FoundArgs? && InternArgs(db, d, args, false, fuel).out.known
    ensures AllThere(db, InstancesArgs(base, d, added, args))
    decreases fuel, 2, |args|
  {
    hide Intern, Tracks, Feasible, Meet, MeetArgs, Instances, InstancesArgs, HasRow;
    OneArgument(base, d, added, args);
    if args != [] {
      if args[0].value.TypeVal? {
        var u := args[0].value.t;
        LookupWritesNothing(db, d, u, fuel);
        MeetKnown(base, d, added, u, fuel);
        FoundThere(base, db, d, added, u, fuel);
      }
      FoundArgsThere(base, db, d, added, args[1..], fuel);
    }
  }

  // ----- exactly when a resolve repeats cleanly -----

  /** Every row the expression needs with all its names known is one the first resolve needed, a family
      it registered, or a row that was there before. */
  ghost predicate NeedsNoMore(db: Db, d: Dialect, t: TypeExpr) {
    forall s :: s in Instances(db, d, After(db, d, t), t) ==>
      HasRow(db, s) || s in After(db, d, t) || s in Instances(db, d, {}, t)
  }

  /** What holds after a first resolve. */
  lemma {:induction false} AfterFirst(db: Db, d: Dialect, t: TypeExpr, fuel: nat)
    requires NoRules(d.rules) && RowsOk(db) && DistinctNames(db.namespaces) && Intern(db, d, t, true, fuel).out.Found?
    ensures var first := Intern(db, d, t, true, fuel);
            && Tracks(db, first.db, After(db, d, t)) && Clean(db, After(db, d, t)) && Feasible(db, d, After(db, d, t), t, fuel)
            && (AllThere(first.db, Instances(db, d, After(db, d, t), t)) <==> NeedsNoMore(db, d, t))
  {
    hide Intern, Meet, Tracks, Lookup, Learn, FamilyInNamed, Feasible, Instances, HasRow, Answered;
    var first, after := Intern(db, d, t, true, fuel), After(db, d, t);
    TracksItself(db);
    assert Clean(db, {});
    MeetGrows(db, d, {}, t);
    InternMeets(db, db, d, {}, t, fuel);
    FirstMeansFeasible(db, db, d, {}, t, fuel, after);
    forall s: Slot
      ensures HasRow(first.db, s) <==> HasRow(db, s) || s in after || s in Instances(db, d, {}, t)
    {
      InternRows(db, db, d, {}, t, fuel, s);
    }
  }

  /** Without rewrites a second resolve inserts nothing if and only if the expression needs no more rows
      than it did. */
  lemma {:induction false} InsertsNothingIff(db: Db, d: Dialect, t: TypeExpr, fuel: nat)
    requires NoRules(d.rules) && RowsOk(db) && DistinctNames(db.namespaces) && Intern(db, d, t, true, fuel).out.Found?
    ensures var first := Intern(db, d, t, true, fuel);
            Intern(first.db, d, t, true, fuel).db == first.db <==> NeedsNoMore(db, d, t)
  {
    hide Intern, Meet, Tracks, Feasible, Instances, HasRow, NeedsNoMore, After;
    var first, after := Intern(db, d, t, true, fuel), After(db, d, t);
    AfterFirst(db, d, t, fuel);
    FeasibleFound(db, first.db, d, after, t, fuel);
    if NeedsNoMore(db, d, t) {
      ThereFound(db, first.db, d, after, t, true, fuel);
    }
    if Intern(first.db, d, t, true, fuel).db == first.db {
      forall s | s in Instances(db, d, after, t)
        ensures HasRow(first.db, s)
      {
        InternRows(db, first.db, d, after, t, fuel, s);
      }
    }
  }

  /** The row the second resolve returns is the first one: the condition of SecondRow. */
  predicate SameSpellingAgain(db: Db, d: Dialect, t: TypeExpr) {
    || t.args == []
    || (HomeNs(db, RootSlot(db, d, {}, t)) == HomeNs(db, RootSlot(db, d, After(db, d, t), t))
        && Key(Meet(db, d, {}, t).canon) == Key(Meet(db, d, After(db, d, t), t).canon))
  }

  /** Looking an expression up right after resolving it finds the resolved row if and only if resolving
      it again would insert nothing and return that row. */
  lemma {:induction false} FindsAgainIff(db: Db, d: Dialect, t: TypeExpr, fuel: nat)
    requires NoRules(d.rules) && RowsOk(db) && DistinctNames(db.namespaces) && Intern(db, d, t, true, fuel).out.Found?
    ensures var first := Intern(db, d, t, true, fuel);
            var found := Intern(first.db, d, t, false, fuel);
            && (found.out.Found? <==> NeedsNoMore(db, d, t))
            && (found.out.Found? && found.out.oid == first.out.oid <==> NeedsNoMore(db, d, t) && SameSpellingAgain(db, d, t))
  {
    hide Intern, Meet, Tracks, Feasible, Instances, HasRow, NeedsNoMore, After, HomeNs, Lookup, Learn, Key;
    var first, after := Intern(db, d, t, true, fuel), After(db, d, t);
    AfterFirst(db, d, t, fuel);
    SecondRow(db, d, t, fuel);
    if NeedsNoMore(db, d, t) {
      ThereFound(db, first.db, d, after, t, false, fuel);
    }
    if Intern(first.db, d, t, false, fuel).out.Found? {
      FoundThere(db, first.db, d, after, t, fuel);
    }
  }

  // ----- LookupTypeExpr -----

  /** The row of an expression with arguments is no family, unless a family is called as it is spelled. */
  lemma {:induction false} RowIsInstance(db: Db, d: Dialect, t: TypeExpr, fuel: nat)
    requires NoRules(d.rules) && TypeStoreInvariant.Valid(db, d) && RowsOk(db) && DistinctNames(db.namespaces)
    requires Intern(db, d, t, true, fuel).out.Found? && t.args != []
    requires !Has(db, After(db, d, t), Slot(HomeNs(db, RootSlot(db, d, {}, t)), Key(Meet(db, d, {}, t).canon)))
    ensures var first := Intern(db, d, t, true, fuel);
            IsOid(first.db, first.out.oid) && Row(first.db, first.out.oid).family != 0
  {
    hide Intern, Meet, Tracks, Lookup, Learn, FamilyInNamed, HomeNs, Key, Feasible, TypeStoreInvariant.Valid, NsOid, ExprIn;
    var first, after := Intern(db, d, t, true, fuel), After(db, d, t);
    var s := Slot(HomeNs(db, RootSlot(db, d, {}, t)), Key(Meet(db, d, {}, t).canon));
    TracksItself(db);
    InternMeets(db, db, d, {}, t, fuel);
    RootHome(db, db, d, {}, t, fuel);
    TypeStoreInvariant.InternKeeps(db, d, t, true, fuel);
    assert SlotOk(db, first.db, after, s) by { TracksParts(db, first.db, after, s); }
    FamilySpelling(first.db, d, first.out.oid);
    if Row(first.db, first.out.oid).family == 0 {
      FamilyHere(first.db, first.out.oid, s);
    }
  }

  lemma {:induction false} FamilySpelling(db: Db, d: Dialect, oid: nat)
    requires TypeStoreInvariant.Valid(db, d) && IsOid(db, oid)
    ensures Row(db, oid).family == 0 ==> Row(db, oid).expr == Row(db, oid).name
  {
    hide TypeStoreInvariant.InstanceOk;
    assert TypeStoreInvariant.RowOk(db, d, oid);
  }

  lemma {:induction false} FamilyHere(db: Db, oid: nat, s: Slot)
    requires IsOid(db, oid) && Row(db, oid).family == 0 && Row(db, oid).name == s.name
    requires Row(db, oid).ns == NsOid(db.namespaces, s.ns) > 0
    ensures FamilyInNamed(db, s.ns, s.name) > 0
  {
    FamilyRowFound(db.types, oid - 1);
  }

  /** Falling back on the outermost family answers a family row. */
  lemma {:induction false} FallbackIsFamily(db: Db, d: Dialect, name: string, fuel: nat)
    requires TypeStoreInvariant.Valid(db, d) && Canonicalize(db, d, TypeExpr(name, false, [])).args == []
    ensures var r := Intern(db, d, TypeExpr(name, false, []), false, fuel);
            r.out.Found? ==> IsOid(db, r.out.oid) && Row(db, r.out.oid).family == 0
  {
    hide Canonicalize, Family, CanonicalFrom, TrimSpace, Normal, QualifiedName, TypeStoreInvariant.Valid;
    var t := Canonicalize(db, d, TypeExpr(name, false, []));
    var oid := Family(db, d, Normal(t.name));
    if oid > 0 {
      KnownFamily(db, d, Normal(t.name), false);
      TypeStoreInvariant.CanonicalIsFamily(db, d, oid, 16);
    }
  }

  /** LookupTypeExpr after ResolveTypeExpr: it answers the resolved row if and only if resolving again
      would insert nothing and return that row; otherwise it falls back on a family. No family may be
      called as the expression is spelled. */
  lemma {:induction false} LookupIff(db: Db, d: Dialect, t: TypeExpr, fuel: nat)
    requires NoRules(d.rules) && TypeStoreInvariant.Valid(db, d) && RowsOk(db) && DistinctNames(db.namespaces)
    requires Intern(db, d, t, true, fuel).out.Found?
    requires t.args != [] ==>
               !Has(db, After(db, d, t), Slot(HomeNs(db, RootSlot(db, d, {}, t)), Key(Meet(db, d, {}, t).canon)))
    ensures var first := Intern(db, d, t, true, fuel);
            var found := LookupTypeExpr(first.db, d, t, fuel);
            found.Some? && found.value.oid == first.out.oid <==> NeedsNoMore(db, d, t) && SameSpellingAgain(db, d, t)
  {
    hide Intern, Meet, NeedsNoMore, After, HomeNs, Lookup, Learn, Key, TypeStoreInvariant.Valid, Has, SameSpellingAgain;
    FindsAgainIff(db, d, t, fuel);
    var first := Intern(db, d, t, true, fuel);
    var found := Intern(first.db, d, t, false, fuel);
    FoundIsRow(first.db, d, t, false, fuel);
    LookupWritesNothing(first.db, d, t, fuel);
    if !found.out.Found? {
      assert t.args != [] by { NeverMissing(db, d, t); }
      RowIsInstance(db, d, t, fuel);
      TypeStoreInvariant.InternKeeps(db, d, t, true, fuel);
      if found.out.Unknown? && found.out.partial.Some? {
        NothingCanonicalized(first.db, d, TypeExpr(found.out.partial.value.name, false, []));
        FallbackIsFamily(first.db, d, found.out.partial.value.name, fuel);
      }
    }
  }

  lemma {:induction false} NeverMissing(db: Db, d: Dialect, t: TypeExpr)
    ensures t.args == [] ==> NeedsNoMore(db, d, t)
  {
  }
}
