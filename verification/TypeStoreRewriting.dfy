/** Resolving twice where the dialect rewrites. What the rewrites make of an expression can be told from
    names, too: the expression is unfolded as interning would rewrite it, and from then on the dialect
    behaves as one without rules. */
module TypeStoreRewriting {
  import opened Common
  import opened Text
  import opened TypeExprs
  import opened TypeRewrites
  import opened TypeStore
  import opened TypeStoreStability
  import opened TypeStoreTakeover
  import opened TypeStoreRepeats
  import TypeStoreInvariant

  /** The dialect without its rules. */
  function Plain(d: Dialect): Dialect { d.(rules := Rules([], {}, map[])) }

  /** Every template names a type: no rewrite turns a type into one without a name. */
  ghost predicate TemplatesNamed(r: Rules) {
    forall rw :: rw in r.rewrites ==> TrimSpace(rw.template.name) != ""
  }

  // ----- rewriting, seen as names only -----

  /** canonicalize, with the alias resolved by name. */
  function Canon(base: Db, d: Dialect, added: set<Slot>, t0: TypeExpr): TypeExpr {
    var t := Identify(d.rules, t0);
    if Apply(d.rules.rewrites, t).Some? then Apply(d.rules.rewrites, t).value
    else
      var s := Lookup(base, Plain(d), added, Normal(t.name));
      if !Has(base, added, s) || !Settles(base, s) || ToLower(Spelled(base, Plain(d), s)) == ToLower(t.name) then t
      else
        var again := Apply(d.rules.rewrites, t.(name := Spelled(base, Plain(d), s)));
        if again.Some? then again.value else t
  }

  /** The expression with every rewrite done, names being met from the outside in and from left to
      right. */
  function Unfold(base: Db, d: Dialect, added: set<Slot>, t: TypeExpr, fuel: nat): TypeExpr
    decreases fuel, 1, 0
  {
    if fuel == 0 || TrimSpace(t.name) == "" then t
    else
      var u := Canon(base, d, added, t);
      u.(args := UnfoldArgs(base, d, Learn(base, Plain(d), added, Normal(u.name)), u.args, fuel - 1))
  }

  function UnfoldArgs(base: Db, d: Dialect, added: set<Slot>, args: seq<TypeArg>, fuel: nat): (r: seq<TypeArg>)
    ensures |r| == |args|
    decreases fuel, 2, |args|
  {
    if args == [] then []
    else if !args[0].value.TypeVal? then [args[0]] + UnfoldArgs(base, d, added, args[1..], fuel)
    else
      var u := Unfold(base, d, added, args[0].value.t, fuel);
      [TypeArg(args[0].tag, TypeVal(u))] + UnfoldArgs(base, d, Meet(base, Plain(d), added, u).added, args[1..], fuel)
  }

  lemma {:induction false} CanonIs(base: Db, db: Db, d: Dialect, added: set<Slot>, t0: TypeExpr)
    requires Tracks(base, db, added)
    ensures Canonicalize(db, d, t0) == Canon(base, d, added, t0)
  {
    hide Tracks, Lookup, FamilyInNamed, Family, CanonicalFrom, QualifiedName, Spelled, Settles, Apply, Identify, Normal, ToLower;
    var t := Identify(d.rules, t0);
    var n := Normal(t.name);
    var s := Lookup(base, Plain(d), added, n);
    LookupIs(base, db, Plain(d), added, n);
    PlainFamily(db, d, n);
    if Has(base, added, s) {
      SlotMeans(base, db, Plain(d), added, s);
      if Settles(base, s) {
        PlainQualified(db, d, Row(db, Canonical(db, Family(db, d, n))));
      }
    }
  }

  /** Rules have no part in looking up, registering and spelling names. */
  lemma {:induction false} PlainFamily(db: Db, d: Dialect, name: string)
    ensures Family(db, Plain(d), name) == Family(db, d, name)
    ensures forall write :: InternFamily(db, Plain(d), name, write) == InternFamily(db, d, name, write)
  {
    hide FamilyInNamed, Qualifier, Bare, CreateUserType, CreateArray;
    PlainUserType(db, d, name);
  }

  lemma {:induction false} PlainUserType(db: Db, d: Dialect, name: string)
    ensures CreateUserType(db, Plain(d), name) == CreateUserType(db, d, name)
  {
    hide Qualifier, Bare, NsOid, UserTypeBase, InsertType;
    assert WithSchema(db, Plain(d), name) == WithSchema(db, d, name);
  }

  lemma {:induction false} PlainQualified(db: Db, d: Dialect, row: TypeRow)
    ensures QualifiedName(db, Plain(d), row) == QualifiedName(db, d, row)
  {
  }

  lemma {:induction false} PlainInstance(db: Db, d: Dialect, fam: nat, args: ArgsOutcome, write: bool)
    requires args.FoundArgs?
    ensures InternInstance(db, Plain(d), fam, args, write) == InternInstance(db, d, fam, args, write)
  {
    hide QualifiedName, ExprIn, String, InsertType;
    if IsOid(db, fam) {
      PlainQualified(db, d, Row(db, fam));
    }
  }

  // ----- what rewriting keeps -----

  lemma {:induction false} ApplyKeeps(rws: seq<Rewrite>, t: TypeExpr)
    requires Apply(rws, t).Some?
    ensures Apply(rws, t).value.nullable == t.nullable
    ensures exists rw :: rw in rws && Apply(rws, t).value.name == rw.template.name
  {
    hide MatchArgs, SubstituteArgs, Holds, ToLower;
    if Apply(rws, t) == Apply(rws[1..], t) {
      if Apply(rws[1..], t).Some? {
        ApplyKeeps(rws[1..], t);
      }
    } else {
      assert rws[0] in rws;
    }
  }

  lemma {:induction false} CanonKeeps(base: Db, d: Dialect, added: set<Slot>, t: TypeExpr)
    ensures Canon(base, d, added, t).nullable == t.nullable
    ensures TemplatesNamed(d.rules) && TrimSpace(t.name) != "" ==> TrimSpace(Canon(base, d, added, t).name) != ""
  {
    hide Lookup, Spelled, Settles, Apply, IdentifyArgs, Normal, ToLower, TrimSpace, FamilyInNamed;
    var u := Identify(d.rules, t);
    var s := Spelled(base, Plain(d), Lookup(base, Plain(d), added, Normal(u.name)));
    if Apply(d.rules.rewrites, u).Some? {
      ApplyKeeps(d.rules.rewrites, u);
    } else if Apply(d.rules.rewrites, u.(name := s)).Some? {
      ApplyKeeps(d.rules.rewrites, u.(name := s));
    }
  }

  lemma {:induction false} UnfoldKeeps(base: Db, d: Dialect, added: set<Slot>, t: TypeExpr, fuel: nat)
    ensures Unfold(base, d, added, t, fuel).nullable == t.nullable
  {
    hide Canon, UnfoldArgs, Learn;
    CanonKeeps(base, d, added, t);
  }

  // ----- interning an expression and interning it unfolded -----

  /** What a resolve finds is what the dialect without rules finds for the unfolded expression. */
  lemma {:induction false} Unfolds(base: Db, db: Db, d: Dialect, added: set<Slot>, t: TypeExpr, fuel: nat)
    requires TemplatesNamed(d.rules) && Tracks(base, db, added) && Intern(db, d, t, true, fuel).out.Found?
    ensures Intern(db, Plain(d), Unfold(base, d, added, t, fuel), true, fuel) == Intern(db, d, t, true, fuel)
    decreases fuel, 1, 0
  {
    hide Canonicalize, Canon, InternFamily, Lookup, Learn, FamilyInNamed, CanonicalFrom, Tracks, TrimSpace, Normal, QualifiedName,
      InternArgs, InternInstance, TemplatesNamed, UnfoldArgs;
    var u, v := Canon(base, d, added, t), Unfold(base, d, added, t, fuel);
    CanonIs(base, db, d, added, t);
    CanonKeeps(base, d, added, t);
    NothingCanonicalized(db, Plain(d), v);
    var n := Normal(u.name);
    PlainFamily(db, d, n);
    FamilyLearns(base, db, Plain(d), added, n);
    var made := InternFamily(db, d, n, true);
    var fam := Canonical(made.db, made.oid);
    if u.args == [] {
      PlainQualified(made.db, d, Row(made.db, fam));
    } else {
      FoundMeans(db, d, t, true, fuel);
      UnfoldsArgs(base, made.db, d, Learn(base, Plain(d), added, n), u.args, fuel - 1);
      var done := InternArgs(made.db, d, u.args, true, fuel - 1);
      PlainInstance(done.db, d, fam, done.out, true);
    }
  }

  lemma {:induction false} UnfoldsArgs(base: Db, db: Db, d: Dialect, added: set<Slot>, args: seq<TypeArg>, fuel: nat)
    requires TemplatesNamed(d.rules) && Tracks(base, db, added)
    requires InternArgs(db, d, args, true, fuel).out.FoundArgs? && InternArgs(db, d, args, true, fuel).out.known
    ensures InternArgs(db, Plain(d), UnfoldArgs(base, d, added, args, fuel), true, fuel) == InternArgs(db, d, args, true, fuel)
    decreases fuel, 2, |args|
  {
    hide Intern, Meet, Tracks, Answered, TemplatesNamed, Unfold;
    if args != [] {
      var more := UnfoldArgs(base, d, added, args, fuel);
      if args[0].value.TypeVal? {
        var t := args[0].value.t;
        var u := Unfold(base, d, added, t, fuel);
        var next := Meet(base, Plain(d), added, u).added;
        Unfolds(base, db, d, added, t, fuel);
        UnfoldKeeps(base, d, added, t, fuel);
        InternMeets(base, db, Plain(d), added, u, fuel);
        UnfoldsArgs(base, Intern(db, d, t, true, fuel).db, d, next, args[1..], fuel);
        assert more[1..] == UnfoldArgs(base, d, next, args[1..], fuel);
      } else {
        UnfoldsArgs(base, db, d, added, args[1..], fuel);
        assert more[1..] == UnfoldArgs(base, d, added, args[1..], fuel);
      }
    }
  }

  /** The same where every name of the unfolded expression is known, whether or not writing is allowed. */
  lemma {:induction false} UnfoldsKnown(base: Db, db: Db, d: Dialect, added: set<Slot>, t: TypeExpr, write: bool, fuel: nat)
    requires Tracks(base, db, added) && Feasible(base, Plain(d), added, Unfold(base, d, added, t, fuel), fuel)
    ensures Intern(db, Plain(d), Unfold(base, d, added, t, fuel), write, fuel) == Intern(db, d, t, write, fuel)
    decreases fuel, 1, 0
  {
    hide Canonicalize, Canon, Family, Lookup, Learn, FamilyInNamed, CanonicalFrom, Tracks, TrimSpace, Normal, QualifiedName,
      InternArgs, InternInstance, UnfoldArgs, Settles;
    var u, v := Canon(base, d, added, t), Unfold(base, d, added, t, fuel);
    CanonIs(base, db, d, added, t);
    NothingCanonicalized(db, Plain(d), v);
    var n := Normal(u.name);
    PlainFamily(db, d, n);
    LookupIs(base, db, Plain(d), added, n);
    KnownFamily(db, d, n, write);
    var fam := Canonical(db, Family(db, d, n));
    SlotMeans(base, db, Plain(d), added, Lookup(base, Plain(d), added, n));
    if u.args == [] {
      PlainQualified(db, d, Row(db, fam));
    } else {
      KnownRoot(base, Plain(d), added, v, fuel);
      UnfoldsKnownArgs(base, db, d, added, u.args, write, fuel - 1);
      var done := InternArgs(db, d, u.args, write, fuel - 1);
      if done.out.FoundArgs? {
        PlainInstance(done.db, d, fam, done.out, write);
      }
    }
  }

  lemma {:induction false} UnfoldsKnownArgs(base: Db, db: Db, d: Dialect, added: set<Slot>, args: seq<TypeArg>, write: bool, fuel: nat)
    requires Tracks(base, db, added) && FeasibleArgs(base, Plain(d), added, UnfoldArgs(base, d, added, args, fuel), fuel)
    ensures InternArgs(db, Plain(d), UnfoldArgs(base, d, added, args, fuel), write, fuel) == InternArgs(db, d, args, write, fuel)
    decreases fuel, 2, |args|
  {
    hide Intern, Meet, Tracks, Feasible, Unfold;
    if args != [] {
      var more := UnfoldArgs(base, d, added, args, fuel);
      assert more[1..] == UnfoldArgs(base, d, added, args[1..], fuel) by { KnownRest(base, d, added, args, fuel); }
      if args[0].value.TypeVal? {
        var t := args[0].value.t;
        UnfoldsKnown(base, db, d, added, t, write, fuel);
        UnfoldKeeps(base, d, added, t, fuel);
        KnownAfter(base, db, d, added, Unfold(base, d, added, t, fuel), write, fuel);
        UnfoldsKnownArgs(base, Intern(db, d, t, write, fuel).db, d, added, args[1..], write, fuel);
      } else {
        UnfoldsKnownArgs(base, db, d, added, args[1..], write, fuel);
      }
    }
  }

  lemma {:induction false} KnownRest(base: Db, d: Dialect, added: set<Slot>, args: seq<TypeArg>, fuel: nat)
    requires args != [] && FeasibleArgs(base, Plain(d), added, UnfoldArgs(base, d, added, args, fuel), fuel)
    ensures UnfoldArgs(base, d, added, args, fuel)[1..] == UnfoldArgs(base, d, added, args[1..], fuel)
  {
    hide Meet, Feasible, Unfold;
    if args[0].value.TypeVal? {
      MeetKnown(base, Plain(d), added, Unfold(base, d, added, args[0].value.t, fuel), fuel);
    }
  }

  lemma {:induction false} KnownAfter(base: Db, db: Db, d: Dialect, added: set<Slot>, u: TypeExpr, write: bool, fuel: nat)
    requires Tracks(base, db, added) && Feasible(base, Plain(d), added, u, fuel)
    ensures Tracks(base, Intern(db, Plain(d), u, write, fuel).db, added)
  {
    hide Intern, Tracks, Feasible;
    if write {
      FeasibleFound(base, db, Plain(d), added, u, fuel);
    } else {
      LookupWritesNothing(db, Plain(d), u, fuel);
    }
  }

  // ----- resolving again -----

  /** The expression as the first resolve unfolds it, the slots that resolve registers, and the expression
      as the second one unfolds it. */
  function Once(db: Db, d: Dialect, t: TypeExpr, fuel: nat): TypeExpr { Unfold(db, d, {}, t, fuel) }
  function Left(db: Db, d: Dialect, t: TypeExpr, fuel: nat): set<Slot> { After(db, Plain(d), Once(db, d, t, fuel)) }
  function Twice(db: Db, d: Dialect, t: TypeExpr, fuel: nat): TypeExpr { Unfold(db, d, Left(db, d, t, fuel), t, fuel) }

  ghost predicate Given(db: Db, d: Dialect) { TemplatesNamed(d.rules) && RowsOk(db) && DistinctNames(db.namespaces) }

  /** Every name of the second unfolding is known, and every row it needs is one the first resolve needed,
      a family it registered, or a row that was there before. */
  ghost predicate RepeatsCleanly(db: Db, d: Dialect, t: TypeExpr, fuel: nat) {
    var p, left := Plain(d), Left(db, d, t, fuel);
    && Feasible(db, p, left, Twice(db, d, t, fuel), fuel)
    && forall s :: s in Instances(db, p, left, Twice(db, d, t, fuel)) ==>
         HasRow(db, s) || s in left || s in Instances(db, p, {}, Once(db, d, t, fuel))
  }

  /** What holds after a first resolve. */
  lemma {:induction false} AfterOnce(db: Db, d: Dialect, t: TypeExpr, fuel: nat)
    requires Given(db, d) && Intern(db, d, t, true, fuel).out.Found?
    ensures var first, p, once, left := Intern(db, d, t, true, fuel), Plain(d), Once(db, d, t, fuel), Left(db, d, t, fuel);
            && first == Intern(db, p, once, true, fuel) && Tracks(db, first.db, left) && Clean(db, left)
            && first.out.canon == Meet(db, p, {}, once).canon
            && forall s :: HasRow(first.db, s) <==> HasRow(db, s) || s in left || s in Instances(db, p, {}, once)
  {
    hide Intern, Meet, Tracks, Unfold, Instances, HasRow, Answered, TemplatesNamed, FamilyInNamed;
    var p, once := Plain(d), Once(db, d, t, fuel);
    TracksItself(db);
    assert Clean(db, {});
    Unfolds(db, db, d, {}, t, fuel);
    InternMeets(db, db, p, {}, once, fuel);
    MeetGrows(db, p, {}, once);
    forall s: Slot
      ensures HasRow(Intern(db, p, once, true, fuel).db, s) <==>
              HasRow(db, s) || s in Left(db, d, t, fuel) || s in Instances(db, p, {}, once)
    {
      InternRows(db, db, p, {}, once, fuel, s);
    }
  }

  /** Tables that hold two sets of new slots hold one. */
  lemma {:induction false} OneSet(base: Db, db: Db, a: set<Slot>, b: set<Slot>)
    requires Tracks(base, db, a) && Tracks(base, db, b) && Clean(base, a) && Clean(base, b)
    ensures a == b
  {
    hide FamilyInNamed;
    forall s: Slot
      ensures s in a <==> s in b
    {
      assert SlotOk(base, db, a, s) && SlotOk(base, db, b, s);
    }
  }

  /** Where the second resolve finds a row and writes nothing, it needed no more. */
  lemma {:induction false} CleanMeansKnown(db: Db, d: Dialect, t: TypeExpr, fuel: nat)
    requires Given(db, d) && Intern(db, d, t, true, fuel).out.Found?
    requires var first := Intern(db, d, t, true, fuel);
             Intern(first.db, d, t, true, fuel).out.Found? && Intern(first.db, d, t, true, fuel).db == first.db
    ensures RepeatsCleanly(db, d, t, fuel)
  {
    hide Intern, Meet, Tracks, Unfold, Instances, HasRow, Answered, TemplatesNamed, FamilyInNamed, Once, Left, Feasible;
    var first, p, left, twice := Intern(db, d, t, true, fuel), Plain(d), Left(db, d, t, fuel), Twice(db, d, t, fuel);
    AfterOnce(db, d, t, fuel);
    Unfolds(db, first.db, d, left, t, fuel);
    InternMeets(db, first.db, p, left, twice, fuel);
    MeetGrows(db, p, left, twice);
    OneSet(db, first.db, left, Meet(db, p, left, twice).added);
    FirstMeansFeasible(db, first.db, p, left, twice, fuel, left);
    forall s | s in Instances(db, p, left, twice)
      ensures HasRow(first.db, s)
    {
      InternRows(db, first.db, p, left, twice, fuel, s);
    }
  }

  /** And conversely, whether or not writing is allowed. */
  lemma {:induction false} KnownMeansClean(db: Db, d: Dialect, t: TypeExpr, fuel: nat, write: bool)
    requires Given(db, d) && Intern(db, d, t, true, fuel).out.Found? && RepeatsCleanly(db, d, t, fuel)
    ensures var first := Intern(db, d, t, true, fuel);
            var again := Intern(first.db, d, t, write, fuel);
            again.out.Found? && again.db == first.db && again == Intern(first.db, d, t, true, fuel)
  {
    hide Intern, Meet, Tracks, Unfold, Instances, HasRow, TemplatesNamed, FamilyInNamed, Once, Left, Feasible;
    var first, p, left, twice := Intern(db, d, t, true, fuel), Plain(d), Left(db, d, t, fuel), Twice(db, d, t, fuel);
    AfterOnce(db, d, t, fuel);
    UnfoldsKnown(db, first.db, d, left, t, write, fuel);
    UnfoldsKnown(db, first.db, d, left, t, true, fuel);
    ThereFound(db, first.db, p, left, twice, write, fuel);
  }

  /** What is found without writing is what is found with it. */
  lemma {:induction false} FoundEither(db: Db, d: Dialect, t: TypeExpr, fuel: nat)
    requires Intern(db, d, t, false, fuel).out.Found?
    ensures Intern(db, d, t, true, fuel) == Intern(db, d, t, false, fuel)
    decreases fuel, 1, 0
  {
    hide Canonicalize, Family, CanonicalFrom, TrimSpace, Normal, QualifiedName, InternArgs, InternInstance;
    var u := Canonicalize(db, d, t);
    var n := Normal(u.name);
    KnownFamily(db, d, n, false);
    KnownFamily(db, d, n, true);
    if u.args != [] {
      FoundMeans(db, d, t, false, fuel);
      FoundArgsEither(db, d, u.args, fuel - 1);
      var done := InternArgs(db, d, u.args, false, fuel - 1);
      FoundInstanceEither(done.db, d, Canonical(db, Family(db, d, n)), done.out);
    }
  }

  lemma {:induction false} FoundInstanceEither(db: Db, d: Dialect, fam: nat, args: ArgsOutcome)
    requires args.FoundArgs? && InternInstance(db, d, fam, args, false).out.Found?
    ensures InternInstance(db, d, fam, args, true) == InternInstance(db, d, fam, args, false)
  {
    hide QualifiedName, ExprIn, String;
  }

  lemma {:induction false} FoundArgsEither(db: Db, d: Dialect, args: seq<TypeArg>, fuel: nat)
    requires InternArgs(db, d, args, false, fuel).out.FoundArgs? && InternArgs(db, d, args, false, fuel).out.known
    ensures InternArgs(db, d, args, true, fuel) == InternArgs(db, d, args, false, fuel)
    decreases fuel, 2, |args|
  {
    hide Intern;
    if args != [] {
      if args[0].value.TypeVal? {
        FoundEither(db, d, args[0].value.t, fuel);
        FoundArgsEither(Intern(db, d, args[0].value.t, false, fuel).db, d, args[1..], fuel);
      } else {
        FoundArgsEither(db, d, args[1..], fuel);
      }
    }
  }

  /** With any rules: a second resolve finds a row and inserts nothing if and only if the expression, as
      unfolded then, has known names only and needs no more rows than it did; and that is exactly when a
      lookup that may not write finds the row. */
  lemma {:induction false} RepeatsCleanlyIff(db: Db, d: Dialect, t: TypeExpr, fuel: nat)
    requires Given(db, d) && Intern(db, d, t, true, fuel).out.Found?
    ensures var first := Intern(db, d, t, true, fuel);
            var second, found := Intern(first.db, d, t, true, fuel), Intern(first.db, d, t, false, fuel);
            && (second.out.Found? && second.db == first.db <==> RepeatsCleanly(db, d, t, fuel))
            && (found.out.Found? <==> RepeatsCleanly(db, d, t, fuel))
            && (found.out.Found? ==> found == second)
  {
    hide Intern, RepeatsCleanly, TemplatesNamed;
    var first := Intern(db, d, t, true, fuel);
    if RepeatsCleanly(db, d, t, fuel) {
      KnownMeansClean(db, d, t, fuel, false);
      KnownMeansClean(db, d, t, fuel, true);
    }
    if Intern(first.db, d, t, false, fuel).out.Found? {
      FoundEither(first.db, d, t, fuel);
      LookupWritesNothing(first.db, d, t, fuel);
    }
    if Intern(first.db, d, t, true, fuel).out.Found? && Intern(first.db, d, t, true, fuel).db == first.db {
      CleanMeansKnown(db, d, t, fuel);
    }
  }

  // ----- which row it is -----

  /** The namespace and the name of the family a slot stands for. */
  function FamilySlot(base: Db, s: Slot): Slot {
    if InBase(base, s) then
      var c := Canonical(base, FamilyInNamed(base, s.ns, s.name));
      Slot(HomeNs(base, s), if c > 0 then Row(base, c).name else "")
    else s
  }

  /** The namespace and the spelling of the row an expression is given. */
  function AnswerSlot(base: Db, d: Dialect, added: set<Slot>, t: TypeExpr): Slot {
    var s := RootSlot(base, d, added, t);
    if t.args == [] then FamilySlot(base, s) else Slot(HomeNs(base, s), Key(Meet(base, d, added, t).canon))
  }

  lemma {:induction false} SlotName(base: Db, db: Db, added: set<Slot>, s: Slot)
    requires Tracks(base, db, added) && Has(base, added, s) && Settles(base, s)
    ensures var c := Canonical(db, FamilyInNamed(db, s.ns, s.name));
            c > 0 && Row(db, c).name == FamilySlot(base, s).name
  {
    hide FamilyIn, NsOid;
    var oid := FamilyInNamed(db, s.ns, s.name);
    assert SlotOk(base, db, added, s);
    if InBase(base, s) {
      CanonicalStable(base, db, oid, 16);
    }
  }

  lemma {:induction false} OnlyRow(db: Db, d: Dialect, oid: nat)
    requires TypeStoreInvariant.Valid(db, d) && IsOid(db, oid)
    ensures ExprIn(db.types, Row(db, oid).ns, Row(db, oid).expr) == oid
  {
    hide TypeStoreInvariant.Shape, TypeStoreInvariant.RowOk, ExprIn;
    var e := ExprIn(db.types, Row(db, oid).ns, Row(db, oid).expr);
    assert db.types[e - 1].ns == db.types[oid - 1].ns && db.types[e - 1].expr == db.types[oid - 1].expr;
  }

  lemma {:induction false} FamilyRowAt(base: Db, db: Db, d: Dialect, added: set<Slot>, s: Slot)
    requires Tracks(base, db, added) && Has(base, added, s) && Settles(base, s) && TypeStoreInvariant.Valid(db, d)
    ensures RowAt(db, FamilySlot(base, s), Canonical(db, FamilyInNamed(db, s.ns, s.name)))
  {
    hide FamilyIn, NsOid, ExprIn, Tracks, Settles, CanonicalFrom, TypeStoreInvariant.Valid, QualifiedName;
    var oid := FamilyInNamed(db, s.ns, s.name);
    var c := Canonical(db, oid);
    SlotMeans(base, db, d, added, s);
    SlotName(base, db, added, s);
    TypeStoreInvariant.CanonicalIsFamily(db, d, oid, 16);
    FamilySpelling(db, d, c);
    OnlyRow(db, d, c);
  }

  /** Without rules: the answer is the row its names say. */
  lemma {:induction false} AnswerRow(base: Db, db: Db, d: Dialect, added: set<Slot>, t: TypeExpr, fuel: nat)
    requires NoRules(d.rules) && Tracks(base, db, added) && Clean(base, added) && TypeStoreInvariant.Valid(db, d)
    requires Intern(db, d, t, true, fuel).out.Found?
    ensures var r := Intern(db, d, t, true, fuel);
            RowAt(r.db, AnswerSlot(base, d, added, t), r.out.oid) && TypeStoreInvariant.Valid(r.db, d)
  {
    hide Intern, Meet, Tracks, Lookup, Learn, FamilyInNamed, CanonicalFrom, HomeNs, Normal, NsOid, ExprIn, Key, Settles, FamilySlot,
      TypeStoreInvariant.Valid, Clean;
    var s := RootSlot(base, d, added, t);
    InternRoot(base, db, d, added, t, fuel);
    InternMeets(base, db, d, added, t, fuel);
    TypeStoreInvariant.InternKeeps(db, d, t, true, fuel);
    RootHome(base, db, d, added, t, fuel);
    if t.args == [] {
      MeetGrows(base, d, added, t);
      FamilyRowAt(base, Intern(db, d, t, true, fuel).db, d, Meet(base, d, added, t).added, s);
    }
  }

  /** The invariant has nothing to do with rules. */
  lemma {:induction false} RebuildPlain(db: Db, d: Dialect, oid: nat)
    requires TypeStoreInvariant.Shape(db) && IsOid(db, oid)
    ensures TypeStoreInvariant.Rebuild(db, Plain(d), oid) == TypeStoreInvariant.Rebuild(db, d, oid)
    decreases oid, 0, 0
  {
    hide QualifiedName;
    PlainQualified(db, d, Row(db, oid));
    if Row(db, oid).family != 0 {
      RebuildArgsPlain(db, d, oid - 1, TypeStoreInvariant.ArgsOf(db, oid));
    }
  }

  lemma {:induction false} RebuildArgsPlain(db: Db, d: Dialect, below: nat, rows: seq<ArgRow>)
    requires TypeStoreInvariant.Shape(db) && below <= |db.types| && TypeStoreInvariant.RefsWithin(rows, below)
    ensures TypeStoreInvariant.RebuildArgs(db, Plain(d), below, rows) == TypeStoreInvariant.RebuildArgs(db, d, below, rows)
    decreases below, 1, |rows|
  {
    hide TypeStoreInvariant.Rebuild, TypeStoreInvariant.Shape;
    if rows != [] {
      if rows[0].value.TypeRef? {
        RebuildPlain(db, d, rows[0].value.oid);
      }
      RebuildArgsPlain(db, d, below, rows[1..]);
    }
  }

  lemma {:induction false} ValidPlain(db: Db, d: Dialect)
    requires TypeStoreInvariant.Valid(db, d)
    ensures TypeStoreInvariant.Valid(db, Plain(d))
  {
    hide QualifiedName, TypeStoreInvariant.Rebuild, TypeStoreInvariant.Unique, String;
    forall oid | 1 <= oid <= |db.types|
      ensures TypeStoreInvariant.RowOk(db, Plain(d), oid)
    {
      assert TypeStoreInvariant.RowOk(db, d, oid);
      PlainQualified(db, d, Row(db, oid));
      RebuildPlain(db, d, oid);
    }
  }

  /** With any rules: a second resolve that succeeds returns the first row if and only if both unfoldings
      are given one namespace and spelling, as their names say on the tables before the first resolve. */
  lemma {:induction false} SameRowIff(db: Db, d: Dialect, t: TypeExpr, fuel: nat)
    requires Given(db, d) && TypeStoreInvariant.Valid(db, d) && Intern(db, d, t, true, fuel).out.Found?
    requires Intern(Intern(db, d, t, true, fuel).db, d, t, true, fuel).out.Found?
    ensures var first := Intern(db, d, t, true, fuel);
            var second := Intern(first.db, d, t, true, fuel);
            var p, left, once, twice := Plain(d), Left(db, d, t, fuel), Once(db, d, t, fuel), Twice(db, d, t, fuel);
            && first.out.canon == Meet(db, p, {}, once).canon && second.out.canon == Meet(db, p, left, twice).canon
            && (second.out.oid == first.out.oid <==> AnswerSlot(db, p, {}, once) == AnswerSlot(db, p, left, twice))
  {
    hide Intern, Meet, Tracks, Unfold, Instances, HasRow, Answered, TemplatesNamed, FamilyInNamed, Left, RowAt, AnswerSlot,
      TypeStoreInvariant.Valid;
    var first := Intern(db, d, t, true, fuel);
    var second := Intern(first.db, d, t, true, fuel);
    var p, left, once, twice := Plain(d), Left(db, d, t, fuel), Once(db, d, t, fuel), Twice(db, d, t, fuel);
    AfterOnce(db, d, t, fuel);
    TracksItself(db);
    ValidPlain(db, d);
    assert Clean(db, {});
    AnswerRow(db, db, p, {}, once, fuel);
    Unfolds(db, first.db, d, left, t, fuel);
    InternMeets(db, first.db, p, left, twice, fuel);
    AnswerRow(db, first.db, p, left, twice, fuel);
    RowsDiffer(first.db, second.db, AnswerSlot(db, p, {}, once), AnswerSlot(db, p, left, twice), first.out.oid, second.out.oid);
  }

  /** With any rules: resolving again returns the first row and inserts nothing if and only if the second
      unfolding needs no more and is given the same namespace and spelling. */
  lemma {:induction false} ResolveAgainIff(db: Db, d: Dialect, t: TypeExpr, fuel: nat)
    requires Given(db, d) && TypeStoreInvariant.Valid(db, d) && Intern(db, d, t, true, fuel).out.Found?
    ensures var first := Intern(db, d, t, true, fuel);
            var second := Intern(first.db, d, t, true, fuel);
            var p, left, once, twice := Plain(d), Left(db, d, t, fuel), Once(db, d, t, fuel), Twice(db, d, t, fuel);
            second.out.Found? && second.out.oid == first.out.oid && second.db == first.db <==>
            RepeatsCleanly(db, d, t, fuel) && AnswerSlot(db, p, {}, once) == AnswerSlot(db, p, left, twice)
  {
    hide Intern, Meet, Unfold, TemplatesNamed, TypeStoreInvariant.Valid, AnswerSlot, RepeatsCleanly, Once, Left;
    RepeatsCleanlyIff(db, d, t, fuel);
    if Intern(Intern(db, d, t, true, fuel).db, d, t, true, fuel).out.Found? {
      SameRowIff(db, d, t, fuel);
    }
  }

  // ----- LookupTypeExpr -----

  /** The row is no family unless a family is called as it is spelled, and the family that a lookup falls
      back on is not rewritten into an expression with arguments. */
  ghost predicate FallsElsewhere(db: Db, d: Dialect, t: TypeExpr, fuel: nat) {
    var p, left, once, twice := Plain(d), Left(db, d, t, fuel), Once(db, d, t, fuel), Twice(db, d, t, fuel);
    if once.args == [] then twice.args == []
    else
      && !Has(db, left, AnswerSlot(db, p, {}, once))
      && Canon(db, d, left, TypeExpr(Spelled(db, p, RootSlot(db, p, left, twice)), false, [])).args == []
  }

  /** The name a lookup falls back on is the one the outermost name of the expression stands for. */
  lemma {:induction false} PartialName(base: Db, db: Db, d: Dialect, added: set<Slot>, t: TypeExpr, fuel: nat)
    requires Tracks(base, db, added) && Intern(db, d, t, false, fuel).out.Unknown? && Intern(db, d, t, false, fuel).out.partial.Some?
    ensures var u := Unfold(base, d, added, t, fuel);
            && u.args != []
            && Intern(db, d, t, false, fuel).out.partial.value.name == Spelled(base, Plain(d), RootSlot(base, Plain(d), added, u))
  {
    hide Canonicalize, Canon, Family, Lookup, FamilyInNamed, CanonicalFrom, Tracks, TrimSpace, Normal, QualifiedName,
      InternArgs, UnfoldArgs, Settles, Spelled, ExprIn, String;
    var u := Canon(base, d, added, t);
    CanonIs(base, db, d, added, t);
    var n := Normal(u.name);
    PlainFamily(db, d, n);
    LookupIs(base, db, Plain(d), added, n);
    assert Family(db, d, n) > 0;
    KnownFamily(db, d, n, false);
    var fam := Canonical(db, Family(db, d, n));
    SlotMeans(base, db, Plain(d), added, Lookup(base, Plain(d), added, n));
    LookupArgsWriteNothing(db, d, u.args, fuel - 1);
    NoPartialArgs(db, d, u.args, fuel - 1);
    PlainQualified(db, d, Row(db, fam));
    PartialInstance(db, d, fam, InternArgs(db, d, u.args, false, fuel - 1).out);
  }

  lemma {:induction false} PartialInstance(db: Db, d: Dialect, fam: nat, args: ArgsOutcome)
    requires args.FoundArgs? && IsOid(db, fam)
    ensures var out := InternInstance(db, d, fam, args, false).out;
            out.Unknown? && out.partial.Some? ==> out.partial.value.name == QualifiedName(db, d, Row(db, fam))
  {
    hide ExprIn, String, QualifiedName;
  }

  lemma {:induction false} NoPartialArgs(db: Db, d: Dialect, args: seq<TypeArg>, fuel: nat)
    ensures var out := InternArgs(db, d, args, false, fuel).out; out.ArgsFailed? ==> out.out == Failed || out.out == Unknown(None)
    decreases |args|
  {
    hide Intern;
    if args != [] {
      if args[0].value.TypeVal? {
        NoPartialArgs(Intern(db, d, args[0].value.t, false, fuel).db, d, args[1..], fuel);
      } else {
        NoPartialArgs(db, d, args[1..], fuel);
      }
    }
  }

  /** A lookup that does not find the row falls back on a family, which is another row. */
  lemma {:induction false} FallsBack(db: Db, d: Dialect, t: TypeExpr, fuel: nat)
    requires Given(db, d) && TypeStoreInvariant.Valid(db, d) && Intern(db, d, t, true, fuel).out.Found?
    requires FallsElsewhere(db, d, t, fuel)
    requires !Intern(Intern(db, d, t, true, fuel).db, d, t, false, fuel).out.Found?
    ensures var first := Intern(db, d, t, true, fuel);
            var found := LookupTypeExpr(first.db, d, t, fuel);
            !(found.Some? && found.value.oid == first.out.oid)
  {
    hide Intern, Meet, Tracks, Unfold, HasRow, Instances, TemplatesNamed, FamilyInNamed, Canon, Spelled, Lookup, Learn, Has,
      TypeStoreInvariant.Valid, Canonicalize, AnswerSlot;
    var first, left := Intern(db, d, t, true, fuel), Left(db, d, t, fuel);
    AfterOnce(db, d, t, fuel);
    ValidPlain(db, d);
    TypeStoreInvariant.InternKeeps(db, d, t, true, fuel);
    var found := Intern(first.db, d, t, false, fuel).out;
    if found.Unknown? && found.partial.Some? {
      var name := found.partial.value.name;
      PartialName(db, first.db, d, left, t, fuel);
      CanonIs(db, first.db, d, left, TypeExpr(name, false, []));
      FallbackIsFamily(first.db, d, name, fuel);
      InstanceAnswer(db, d, t, fuel);
    }
  }

  lemma {:induction false} InstanceAnswer(db: Db, d: Dialect, t: TypeExpr, fuel: nat)
    requires Given(db, d) && TypeStoreInvariant.Valid(db, Plain(d)) && Intern(db, d, t, true, fuel).out.Found?
    requires Intern(db, d, t, true, fuel) == Intern(db, Plain(d), Once(db, d, t, fuel), true, fuel)
    requires Once(db, d, t, fuel).args != [] && !Has(db, Left(db, d, t, fuel), AnswerSlot(db, Plain(d), {}, Once(db, d, t, fuel)))
    ensures var first := Intern(db, d, t, true, fuel); IsOid(first.db, first.out.oid) && Row(first.db, first.out.oid).family != 0
  {
    hide Intern, Meet, Unfold, TemplatesNamed, FamilyInNamed, Lookup, Learn, Has, TypeStoreInvariant.Valid, HomeNs, Key;
    RowIsInstance(db, Plain(d), Once(db, d, t, fuel), fuel);
  }

  /** With any rules: LookupTypeExpr after ResolveTypeExpr answers the resolved row if and only if
      resolving again would insert nothing and return that row. */
  lemma {:induction false} LookupFindsIff(db: Db, d: Dialect, t: TypeExpr, fuel: nat)
    requires Given(db, d) && TypeStoreInvariant.Valid(db, d) && Intern(db, d, t, true, fuel).out.Found?
    requires FallsElsewhere(db, d, t, fuel)
    ensures var first := Intern(db, d, t, true, fuel);
            var found := LookupTypeExpr(first.db, d, t, fuel);
            var p, left, once, twice := Plain(d), Left(db, d, t, fuel), Once(db, d, t, fuel), Twice(db, d, t, fuel);
            found.Some? && found.value.oid == first.out.oid <==>
            RepeatsCleanly(db, d, t, fuel) && AnswerSlot(db, p, {}, once) == AnswerSlot(db, p, left, twice)
  {
    hide Intern, Meet, Unfold, TemplatesNamed, TypeStoreInvariant.Valid, AnswerSlot, RepeatsCleanly, FallsElsewhere, Once, Left;
    var first := Intern(db, d, t, true, fuel);
    RepeatsCleanlyIff(db, d, t, fuel);
    if Intern(first.db, d, t, false, fuel).out.Found? {
      SameRowIff(db, d, t, fuel);
      FoundIsRow(first.db, d, t, false, fuel);
      LookupWritesNothing(first.db, d, t, fuel);
    } else {
      FallsBack(db, d, t, fuel);
    }
  }
}
