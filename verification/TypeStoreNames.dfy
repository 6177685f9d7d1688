/** Two rules of the type catalog about names: how a type off the default namespaces is told from others
    of its name, and which type a family that the dialect did not seed stands on. */
module TypeStoreNames {
  import opened Common
  import opened Text
  import opened TypeExprs
  import opened TypeStore
  import TypeStoreInvariant

  // ----- qualified names -----

  /** Parts without a dot after the last dot can be told. */
  lemma {:induction false} SplitAtDot(a: string, x: string, b: string, y: string)
    requires '.' !in x && '.' !in y && a + "." + x == b + "." + y
    ensures a == b && x == y
  {
    var s, t := a + "." + x, b + "." + y;
    assert s[|a|] == '.' && t[|b|] == '.';
    assert forall i :: |a| < i < |s| ==> s[i] == x[i - |a| - 1];
    assert forall i :: |b| < i < |t| ==> t[i] == y[i - |b| - 1];
    assert s[..|a|] == a && t[..|b|] == b && s[|a| + 1..] == x && t[|b| + 1..] == y;
  }

  /** A family off the default namespaces. */
  predicate OffDefaults(db: Db, d: Dialect, oid: nat) {
    IsOid(db, oid) && Row(db, oid).family == 0 && 1 <= Row(db, oid).ns <= |db.namespaces|
    && db.namespaces[Row(db, oid).ns - 1] != "" && !IsDefault(d, db.namespaces[Row(db, oid).ns - 1])
  }

  /** Such families are known by different names, so the array of one schema's type is not that of
      another's. */
  lemma {:induction false} QualifiedApart(db: Db, d: Dialect, a: nat, b: nat)
    requires TypeStoreInvariant.Valid(db, d) && OffDefaults(db, d, a) && OffDefaults(db, d, b)
    requires forall i, j :: 0 <= i < j < |db.namespaces| ==> db.namespaces[i] != db.namespaces[j]
    requires QualifiedName(db, d, Row(db, a)) == QualifiedName(db, d, Row(db, b))
    ensures a == b
  {
    hide IsDefault, TypeStoreInvariant.InstanceOk;
    var r, q := Row(db, a), Row(db, b);
    assert TypeStoreInvariant.RowOk(db, d, a) && TypeStoreInvariant.RowOk(db, d, b);
    var m, n := db.namespaces[r.ns - 1], db.namespaces[q.ns - 1];
    assert |QualifiedName(db, d, r)| > |r.name| && |QualifiedName(db, d, q)| > |q.name|;
    SplitAtDot(m, r.name, n, q.name);
    assert r.ns == q.ns && r.expr == q.expr;
    assert db.types[a - 1] == r && db.types[b - 1] == q;
  }

  // ----- the affinity rule -----

  lemma {:induction false} ToUpperAt(s: string, i: nat)
    requires i < |s|
    ensures |ToUpper(s)| == |s| && ToUpper(s)[i] == if 'a' <= s[i] <= 'z' then (s[i] as int - 32) as char else s[i]
  {
    if |s| > 1 {
      ToUpperAt(s[1..], if i > 0 then i - 1 else 0);
    }
  }

  ghost predicate At(s: string, i: nat, w: string) { i + |w| <= |s| && s[i..i + |w|] == w }

  lemma {:induction false} AtLater(s: string, i: nat, w: string)
    requires s != ""
    ensures At(s[1..], i, w) <==> At(s, i + 1, w)
  {
    if i + 1 + |w| <= |s| {
      assert s[1..][i..i + |w|] == s[i + 1..i + 1 + |w|];
    }
  }

  lemma {:induction false} AtStart(s: string, w: string)
    ensures At(s, 0, w) <==> HasPrefix(s, w)
    ensures s == "" ==> forall i: nat :: At(s, i, w) ==> i == 0
  {
  }

  /** strings.Contains */
  lemma {:induction false} ContainsIff(s: string, w: string)
    ensures Contains(s, w) <==> exists i: nat :: At(s, i, w)
  {
    hide At, HasPrefix;
    AtStart(s, w);
    if s != "" {
      ContainsIff(s[1..], w);
      if i: nat :| At(s[1..], i, w) {
        AtLater(s, i, w);
      }
      if i: nat :| At(s, i, w) {
        if i > 0 {
          AtLater(s, i - 1, w);
        }
      }
    }
  }

  /** A step applies to every name when it has no words, else to names that hold one of them. */
  ghost predicate StepApplies(words: seq<string>, name: string) {
    words == [] || exists w, i: nat :: w in words && w != "" && At(ToUpper(name), i, w)
  }

  ghost predicate FirstStep(rule: seq<(seq<string>, nat)>, k: nat, name: string) {
    k < |rule| && StepApplies(rule[k].0, name) && forall j :: 0 <= j < k ==> !StepApplies(rule[j].0, name)
  }

  lemma {:induction false} StepIff(words: seq<string>, name: string)
    ensures StepApplies(words, name) <==> words == [] || exists w :: w in words && w != "" && Contains(ToUpper(name), w)
  {
    hide Contains, At, ToUpper;
    forall w: string
      ensures Contains(ToUpper(name), w) <==> exists i: nat :: At(ToUpper(name), i, w)
    {
      ContainsIff(ToUpper(name), w);
    }
  }

  /** The first step that applies decides. */
  lemma {:induction false} UserTypeBaseMeans(rule: seq<(seq<string>, nat)>, name: string, k: nat)
    requires FirstStep(rule, k, name)
    ensures UserTypeBase(rule, name) == rule[k].1
    decreases |rule|
  {
    hide Contains, StepApplies, ToUpper;
    StepIff(rule[0].0, name);
    if k > 0 {
      var rest := rule[1..];
      assert forall j :: 0 <= j < k - 1 ==> rest[j] == rule[j + 1];
      UserTypeBaseMeans(rest, name, k - 1);
    }
  }

  /** And 0 stands for none. */
  lemma {:induction false} NoStepApplies(rule: seq<(seq<string>, nat)>, name: string)
    requires forall j :: 0 <= j < |rule| ==> !StepApplies(rule[j].0, name)
    ensures UserTypeBase(rule, name) == 0
    decreases |rule|
  {
    hide Contains, StepApplies, ToUpper;
    if rule != [] {
      StepIff(rule[0].0, name);
      assert forall j :: 0 <= j < |rule| - 1 ==> rule[1..][j] == rule[j + 1];
      NoStepApplies(rule[1..], name);
    }
  }

  // ----- new families -----

  /** The row r is put behind the others. */
  ghost predicate NewFamily(db: Db, r: Insert) {
    && r.oid == |db.types| + 1 == |r.db.types| && r.db.types[..|db.types|] == db.types
    && 1 <= Row(r.db, r.oid).ns <= |r.db.namespaces|
    && var row := Row(r.db, r.oid);
    row.expr == row.name && row.typtype == "b" && row.family == 0 && row.element == 0 && row.canonical == 0
  }

  lemma {:induction false} InsertedFamily(db: Db, ns: nat, name: string, category: string, base: nat)
    requires 1 <= ns <= |db.namespaces| && InsertType(db, FamilyRow(ns, name, category, base), []).oid > 0
    ensures var r := InsertType(db, FamilyRow(ns, name, category, base), []);
            && NewFamily(db, r) && r.db.namespaces == db.namespaces && Row(r.db, r.oid) == FamilyRow(ns, name, category, base)
  {
    hide ExprIn;
  }

  /** An array family that no seed lists is of category A, in public. */
  lemma {:induction false} ArrayRegistered(db: Db, d: Dialect)
    requires Family(db, d, ARRAY) == 0 && InternFamily(db, d, ARRAY, true).oid > 0
    ensures var r := InternFamily(db, d, ARRAY, true);
            && NewFamily(db, r)
            && var row := Row(r.db, r.oid);
            row.name == ARRAY && row.category == "A" && row.base == 0 && r.db.namespaces[row.ns - 1] == "public"
  {
    hide Family, InsertType, NewFamily, NsOid;
    InsertedFamily(db, NsOid(db.namespaces, "public"), ARRAY, "A", 0);
  }

  /** Any other new family stands on the type its affinity names, and is of that type's category, in the
      schema it names or the dialect's own. */
  lemma {:induction false} UserTypeRegistered(db: Db, d: Dialect, name: string)
    requires Family(db, d, name) == 0 && name != ARRAY && InternFamily(db, d, name, true).oid > 0
    ensures var r := InternFamily(db, d, name, true);
            var base := UserTypeBase(d.affinity, Bare(name));
            && NewFamily(WithSchema(db, d, name), r) && db.types == WithSchema(db, d, name).types
            && var row := Row(r.db, r.oid);
            && row.name == Bare(name) && row.base == base && r.db.namespaces[row.ns - 1] == Schema(d, name)
            && (base == 0 ==> row.category == "U")
            && (base != 0 ==> IsOid(db, base) && row.category == Row(db, base).category)
  {
    hide Family, InsertType, NewFamily, NsOid, UserTypeBase, LastDot;
    var more := WithSchema(db, d, name);
    var ns := NsOid(more.namespaces, Schema(d, name));
    var base := UserTypeBase(d.affinity, Bare(name));
    if base == 0 {
      InsertedFamily(more, ns, Bare(name), "U", 0);
    } else {
      InsertedFamily(more, ns, Bare(name), Row(more, base).category, base);
    }
  }
}
