/** How much fuel an interning needs: an answer does not change with more, and without rewrites the
    nesting depth of the expression is enough. */
module TypeStoreFuel {
  import opened Common
  import opened Text
  import opened TypeExprs
  import opened TypeRewrites
  import opened TypeStore
  import opened TypeStoreStability

  /** An outcome other than a failure is the outcome with more fuel, too. */
  lemma {:induction false} MoreFuel(db: Db, d: Dialect, t: TypeExpr, write: bool, fuel: nat, more: nat)
    requires fuel <= more && !Intern(db, d, t, write, fuel).out.Failed?
    ensures Intern(db, d, t, write, more) == Intern(db, d, t, write, fuel)
    decreases fuel, 1, 0
  {
    hide Canonicalize, InternFamily, CanonicalFrom, TrimSpace, QualifiedName, InternArgs, InternInstance, Normal;
    var u := Canonicalize(db, d, t);
    var made := InternFamily(db, d, Normal(u.name), write);
    if fuel > 0 && made.oid > 0 && u.args != [] {
      var done := InternArgs(made.db, d, u.args, write, fuel - 1);
      if done.out != ArgsFailed(Failed) {
        MoreFuelArgs(made.db, d, u.args, write, fuel - 1, more - 1);
      }
    }
  }

  lemma {:induction false} MoreFuelArgs(db: Db, d: Dialect, args: seq<TypeArg>, write: bool, fuel: nat, more: nat)
    requires fuel <= more && InternArgs(db, d, args, write, fuel).out != ArgsFailed(Failed)
    ensures InternArgs(db, d, args, write, more) == InternArgs(db, d, args, write, fuel)
    decreases fuel, 2, |args|
  {
    hide Intern;
    if args != [] {
      if args[0].value.TypeVal? {
        var r := Intern(db, d, args[0].value.t, write, fuel);
        if !r.out.Failed? {
          MoreFuel(db, d, args[0].value.t, write, fuel, more);
          if r.out != Unknown(None) {
            MoreFuelArgs(r.db, d, args[1..], write, fuel, more);
          }
        }
      } else {
        MoreFuelArgs(db, d, args[1..], write, fuel, more);
      }
    }
  }

  function Max(a: nat, b: nat): nat { if a <= b then b else a }

  /** How deep type arguments are nested. */
  function Depth(t: TypeExpr): nat
    decreases t, 1
  {
    1 + ArgsDepth(t.args)
  }

  function ArgsDepth(args: seq<TypeArg>): nat
    decreases args, 0
  {
    if args == [] then 0 else Max(ArgDepth(args[0]), ArgsDepth(args[1..]))
  }

  function ArgDepth(a: TypeArg): nat
    decreases a, 2
  {
    if a.value.TypeVal? then Depth(a.value.t) else 0
  }

  /** Without rewrites every outcome, failures included, is that of the nesting depth. */
  lemma {:induction false} DepthSuffices(db: Db, d: Dialect, t: TypeExpr, write: bool, fuel: nat, more: nat)
    requires NoRules(d.rules) && Depth(t) <= fuel <= more
    ensures Intern(db, d, t, write, more) == Intern(db, d, t, write, fuel)
    decreases fuel, 1, 0
  {
    hide Canonicalize, InternFamily, CanonicalFrom, TrimSpace, QualifiedName, InternArgs, InternInstance, Normal;
    NothingCanonicalized(db, d, t);
    var made := InternFamily(db, d, Normal(t.name), write);
    if t.args != [] {
      DepthSufficesArgs(made.db, d, t.args, write, fuel - 1, more - 1);
    }
  }

  lemma {:induction false} DepthSufficesArgs(db: Db, d: Dialect, args: seq<TypeArg>, write: bool, fuel: nat, more: nat)
    requires NoRules(d.rules) && ArgsDepth(args) <= fuel <= more
    ensures InternArgs(db, d, args, write, more) == InternArgs(db, d, args, write, fuel)
    decreases fuel, 2, |args|
  {
    hide Intern, Depth;
    if args != [] {
      if args[0].value.TypeVal? {
        var r := Intern(db, d, args[0].value.t, write, fuel);
        DepthSuffices(db, d, args[0].value.t, write, fuel, more);
        DepthSufficesArgs(r.db, d, args[1..], write, fuel, more);
      } else {
        DepthSufficesArgs(db, d, args[1..], write, fuel, more);
      }
    }
  }
}
