/** The type tables of the catalog and the interner over them: internal/core/types.go. Rows are
    never dropped, so a table is a sequence and a row's oid is its position plus one. */
module TypeStore {
  import opened Common
  import opened Text
  import opened TypeExprs
  import opened TypeRewrites

  /** A row of sql_type; 0 stands for NULL in the reference columns. */
  datatype TypeRow = TypeRow(
    ns: nat, name: string, expr: string, typtype: string, category: string,
    family: nat, element: nat, base: nat, canonical: nat)

  /** A row of sql_type_arg. */
  datatype ArgRow = ArgRow(tag: string, value: RowValue)
  datatype RowValue = TypeRef(oid: nat, nullable: bool) | Literal(value: ArgValue)

  /** `types[i]` is the row with oid i + 1, `args[i]` its argument rows in order. */
  datatype Db = Db(types: seq<TypeRow>, args: seq<seq<ArgRow>>, namespaces: seq<string>)

  /** What the catalog knows of its dialect; `affinity` is the rule for unseeded families. */
  datatype Dialect = Dialect(defaultSchema: string, rules: Rules, affinity: seq<(seq<string>, nat)>)

  predicate IsOid(db: Db, oid: int) { 1 <= oid <= |db.types| }

  function Row(db: Db, oid: nat): TypeRow
    requires IsOid(db, oid)
  {
    db.types[oid - 1]
  }

  // ----- names -----

  /** The position of a namespace plus one, 0 when there is none. */
  function NsOid(nss: seq<string>, name: string): (r: nat)
    ensures r <= |nss|
    ensures r > 0 ==> nss[r - 1] == name
    ensures r == 0 <==> name !in nss
  {
    if nss == [] then 0
    else if name in nss[..|nss| - 1] then NsOid(nss[..|nss| - 1], name)
    else if nss[|nss| - 1] == name then |nss|
    else 0
  }

  predicate IsFamilyRow(r: TypeRow, ns: nat, name: string) {
    r.family == 0 && r.ns == ns && r.name == name
  }

  /** TypeOIDByNameInNamespace: the oldest family of that name there, or 0. */
  function FamilyIn(types: seq<TypeRow>, ns: nat, name: string): (r: nat)
    ensures r <= |types|
    ensures r > 0 ==> IsFamilyRow(types[r - 1], ns, name)
  {
    if types == [] then 0
    else
      var earlier := FamilyIn(types[..|types| - 1], ns, name);
      if earlier > 0 then earlier
      else if IsFamilyRow(types[|types| - 1], ns, name) then |types|
      else 0
  }

  function FamilyInNamed(db: Db, ns: string, name: string): (r: nat)
    ensures r > 0 ==> IsOid(db, r) && Row(db, r).family == 0
  {
    var oid := NsOid(db.namespaces, ns);
    if oid == 0 then 0 else FamilyIn(db.types, oid, name)
  }

  function LastDot(name: string): (r: int)
    ensures -1 <= r < |name|
  {
    if name == "" then -1
    else if name[|name| - 1] == '.' then |name| - 1
    else LastDot(name[..|name| - 1])
  }

  /** splitQualifiedName: "myschema.mood" into namespace and name. */
  function Qualifier(name: string): string { if LastDot(name) > 0 then name[..LastDot(name)] else "" }
  function Bare(name: string): string { if LastDot(name) > 0 then name[LastDot(name) + 1..] else name }

  predicate IsDefault(d: Dialect, ns: string) {
    ns == "public" || ns == "pg_catalog" || (d.defaultSchema != "" && ns == d.defaultSchema)
  }

  /** familyOIDByName: the default namespaces in order of preference. */
  function BareFamily(db: Db, d: Dialect, name: string): (r: nat)
    ensures r > 0 ==> IsOid(db, r) && Row(db, r).family == 0
  {
    var inCatalog, inPublic := FamilyInNamed(db, "pg_catalog", name), FamilyInNamed(db, "public", name);
    if inCatalog > 0 then inCatalog
    else if inPublic > 0 then inPublic
    else if d.defaultSchema != "" then FamilyInNamed(db, d.defaultSchema, name)
    else 0
  }

  /** familyOIDByQualifiedName; 0 when the catalog does not hold the family. */
  function Family(db: Db, d: Dialect, name: string): (r: nat)
    ensures r > 0 ==> IsOid(db, r) && Row(db, r).family == 0
  {
    if Qualifier(name) == "" then BareFamily(db, d, Bare(name))
    else FamilyInNamed(db, Qualifier(name), Bare(name))
  }

  /** canonicalOID: follows alias rows, at most sixteen of them. */
  function CanonicalFrom(types: seq<TypeRow>, oid: nat, steps: nat): (r: nat)
    ensures r > 0 ==> r <= |types| && types[r - 1].canonical == 0
    decreases steps
  {
    if steps == 0 || oid == 0 || oid > |types| then 0
    else if types[oid - 1].canonical == 0 then oid
    else CanonicalFrom(types, types[oid - 1].canonical, steps - 1)
  }

  function Canonical(db: Db, oid: nat): (r: nat)
    ensures r > 0 ==> IsOid(db, r) && Row(db, r).canonical == 0
  {
    CanonicalFrom(db.types, oid, 16)
  }

  /** qualifiedName: a type off the default namespaces carries its namespace. */
  function QualifiedName(db: Db, d: Dialect, r: TypeRow): string {
    if 1 <= r.ns <= |db.namespaces| && db.namespaces[r.ns - 1] != "" && !IsDefault(d, db.namespaces[r.ns - 1]) then
      db.namespaces[r.ns - 1] + "." + r.name
    else r.name
  }

  function Normal(name: string): string { ToLower(TrimSpace(name)) }

  /** canonicalFamilyName */
  function CanonicalName(db: Db, d: Dialect, name: string): Option<string> {
    var oid := Family(db, d, Normal(name));
    if oid == 0 then None
    else
      var c := Canonical(db, oid);
      if c == 0 then None else Some(QualifiedName(db, d, Row(db, c)))
  }

  /** canonicalize: identifiers first, then the rewrites, tried again with the alias resolved. */
  function Canonicalize(db: Db, d: Dialect, t0: TypeExpr): TypeExpr {
    var t := Identify(d.rules, t0);
    if Apply(d.rules.rewrites, t).Some? then Apply(d.rules.rewrites, t).value
    else
      match CanonicalName(db, d, t.name)
      case None => t
      case Some(name) =>
        if ToLower(name) == ToLower(t.name) then t
        else
          var again := Apply(d.rules.rewrites, t.(name := name));
          if again.Some? then again.value else t
  }

  // ----- writing rows -----

  function ExprIn(types: seq<TypeRow>, ns: nat, expr: string): (r: nat)
    ensures r <= |types|
    ensures r > 0 ==> types[r - 1].ns == ns && types[r - 1].expr == expr
    ensures r == 0 ==> forall i :: 0 <= i < |types| ==> !(types[i].ns == ns && types[i].expr == expr)
  {
    if types == [] then 0
    else
      var earlier := ExprIn(types[..|types| - 1], ns, expr);
      if earlier > 0 then earlier
      else if types[|types| - 1].ns == ns && types[|types| - 1].expr == expr then |types|
      else 0
  }

  /** The INSERT with its UNIQUE (namespace_oid, expr) constraint; 0 is the failure. */
  datatype Insert = Insert(db: Db, oid: nat)

  function InsertType(db: Db, row: TypeRow, args: seq<ArgRow>): (r: Insert)
    ensures r.oid > 0 ==> r.oid == |db.types| + 1
  {
    if ExprIn(db.types, row.ns, row.expr) > 0 then Insert(db, 0)
    else Insert(Db(db.types + [row], db.args + [args], db.namespaces), |db.types| + 1)
  }

  /** The row of a new family: its spelling is its name. */
  function FamilyRow(ns: nat, name: string, category: string, base: nat): TypeRow {
    TypeRow(ns, name, name, "b", category, 0, 0, base, 0)
  }

  predicate Contains(s: string, w: string) {
    HasPrefix(s, w) || (s != "" && Contains(s[1..], w))
  }

  function ToUpper(s: string): string {
    if s == "" then "" else [if 'a' <= s[0] <= 'z' then (s[0] as int - 32) as char else s[0]] + ToUpper(s[1..])
  }

  /** userTypeBase: the first step of the affinity rule one of whose words the name contains. */
  function UserTypeBase(rule: seq<(seq<string>, nat)>, name: string): nat {
    if rule == [] then 0
    else if rule[0].0 == [] || exists w :: w in rule[0].0 && w != "" && Contains(ToUpper(name), w) then rule[0].1
    else UserTypeBase(rule[1..], name)
  }

  /** The schema a declared type goes to: the one it names, the dialect's own, or public. */
  function Schema(d: Dialect, name: string): string {
    if Qualifier(name) != "" then Qualifier(name)
    else if d.defaultSchema != "" then d.defaultSchema
    else "public"
  }

  /** declaredTypeNamespace creates a missing schema, except the implicit public. */
  function WithSchema(db: Db, d: Dialect, name: string): Db {
    var implicit := Qualifier(name) == "" && d.defaultSchema == "";
    if Schema(d, name) in db.namespaces || implicit then db
    else db.(namespaces := db.namespaces + [Schema(d, name)])
  }

  /** CreateUserType(name, "U") */
  function CreateUserType(db0: Db, d: Dialect, name: string): (r: Insert)
    ensures r.oid > 0 ==> r.oid == |db0.types| + 1
  {
    var db := WithSchema(db0, d, name);
    var ns := NsOid(db.namespaces, Schema(d, name));
    if ns == 0 then Insert(db, 0)
    else
      var base := UserTypeBase(d.affinity, Bare(name));
      if base == 0 then InsertType(db, FamilyRow(ns, Bare(name), "U", 0), [])
      else if !IsOid(db, base) then Insert(db, 0)
      else InsertType(db, FamilyRow(ns, Bare(name), Row(db, base).category, base), [])
  }

  /** CreateTypeSpec(array, "A"): the array family of a dialect that lists none, in public. */
  function CreateArray(db: Db): (r: Insert)
    ensures r.oid > 0 ==> r.oid == |db.types| + 1
  {
    var ns := NsOid(db.namespaces, "public");
    if ns == 0 then Insert(db, 0) else InsertType(db, FamilyRow(ns, ARRAY, "A", 0), [])
  }

  // ----- internType -----

  datatype Outcome =
    | Found(oid: nat, canon: TypeExpr)
    | Unknown(partial: Option<TypeExpr>)  // errUnknownType, with the canonical expression if there is one
    | Failed                              // any other error

  datatype Step = Step(db: Db, out: Outcome)

  datatype ArgsOutcome =
    | FoundArgs(canon: seq<TypeArg>, rows: seq<ArgRow>, known: bool)
    | ArgsFailed(out: Outcome)

  datatype ArgsStep = ArgsStep(db: Db, out: ArgsOutcome)

  /** The family of a normalised name, registered when writing is allowed. */
  function InternFamily(db: Db, d: Dialect, name: string, write: bool): Insert {
    var oid := Family(db, d, name);
    if oid > 0 then Insert(db, oid)
    else if !write then Insert(db, 0)
    else if name == ARRAY then CreateArray(db)
    else CreateUserType(db, d, name)
  }

  /** `fuel` bounds the nesting of the recursion, which a dialect's rewrites could make endless. */
  function Intern(db: Db, d: Dialect, t0: TypeExpr, write: bool, fuel: nat): Step
    decreases fuel, 1, 0
  {
    if fuel == 0 || TrimSpace(t0.name) == "" then Step(db, Failed)
    else
      var t := Canonicalize(db, d, t0);
      var made := InternFamily(db, d, Normal(t.name), write);
      if made.oid == 0 then Step(made.db, if write then Failed else Unknown(None))
      else
        var fam := Canonical(made.db, made.oid);
        if fam == 0 then Step(made.db, Failed)
        else if t.args == [] then Step(made.db, Found(fam, TypeExpr(QualifiedName(made.db, d, Row(made.db, fam)), false, [])))
        else
          var done := InternArgs(made.db, d, t.args, write, fuel - 1);
          if done.out.ArgsFailed? then Step(done.db, done.out.out)
          else InternInstance(done.db, d, fam, done.out, write)
  }

  function InternArgs(db: Db, d: Dialect, args: seq<TypeArg>, write: bool, fuel: nat): (r: ArgsStep)
    ensures r.out.FoundArgs? ==> |r.out.canon| == |args| && |r.out.rows| == |args|
    decreases fuel, 2, |args|
  {
    if args == [] then ArgsStep(db, FoundArgs([], [], true))
    else if !args[0].value.TypeVal? then
      ConsArg(args[0], ArgRow(args[0].tag, Literal(args[0].value)), true, InternArgs(db, d, args[1..], write, fuel))
    else
      var u := args[0].value.t;
      var r := Intern(db, d, u, write, fuel);
      match r.out
      case Failed => ArgsStep(r.db, ArgsFailed(Failed))
      case Unknown(None) => ArgsStep(r.db, ArgsFailed(Unknown(None)))
      case Unknown(Some(e)) =>
        ConsArg(TypeArg(args[0].tag, TypeVal(e.(nullable := u.nullable))),
                ArgRow(args[0].tag, TypeRef(0, u.nullable)), false, InternArgs(r.db, d, args[1..], write, fuel))
      case Found(oid, e) =>
        ConsArg(TypeArg(args[0].tag, TypeVal(e.(nullable := u.nullable))),
                ArgRow(args[0].tag, TypeRef(oid, u.nullable)), true, InternArgs(r.db, d, args[1..], write, fuel))
  }

  function ConsArg(a: TypeArg, row: ArgRow, known: bool, rest: ArgsStep): ArgsStep {
    if rest.out.ArgsFailed? then rest
    else ArgsStep(rest.db, FoundArgs([a] + rest.out.canon, [row] + rest.out.rows, known && rest.out.known))
  }

  /** The row of a family applied to arguments: found by its spelling, or inserted. */
  function InternInstance(db: Db, d: Dialect, fam: nat, args: ArgsOutcome, write: bool): Step
    requires args.FoundArgs?
  {
    if !IsOid(db, fam) then Step(db, Failed)
    else
      var family := Row(db, fam);
      var canon := TypeExpr(QualifiedName(db, d, family), false, args.canon);
      if !args.known then Step(db, Unknown(Some(canon)))
      else
        var existing := ExprIn(db.types, family.ns, Key(canon));
        if existing > 0 then Step(db, Found(existing, canon))
        else if !write then Step(db, Unknown(Some(canon)))
        else
          var made := InsertType(db, InstanceRow(family, fam, Key(canon), args.rows), args.rows);
          Step(made.db, if made.oid > 0 then Found(made.oid, canon) else Failed)
  }

  function InstanceRow(family: TypeRow, fam: nat, key: string, rows: seq<ArgRow>): TypeRow {
    var element := if family.name == ARRAY && rows != [] && rows[0].value.TypeRef? then rows[0].value.oid else 0;
    TypeRow(family.ns, family.name, key, family.typtype, family.category, fam, element, 0, 0)
  }
}
