/** Why repeating a resolve needs its condition: a name qualified with a default namespace, unknown
    until now, can shadow the family an earlier bare name was given. */
module TypeStoreShadowing {
  import opened Common
  import opened Text
  import opened TypeExprs
  import opened TypeRewrites
  import opened TypeStore
  import opened TypeStoreStability

  const MAIN := Dialect("main", Rules([], {}, map[]), [])
  const EMPTY := Db([], [], ["public", "main"])

  /** f(public.f) where the dialect's own schema is main. */
  const QUALIFIED := TypeExpr("public.f", false, [])
  const SHADOWED := TypeExpr("f", false, [TypeArg("", TypeVal(QUALIFIED))])

  const BARE_ROW := TypeRow(2, "f", "f", "b", "U", 0, 0, 0, 0)
  const PUBLIC_ROW := TypeRow(1, "f", "f", "b", "U", 0, 0, 0, 0)
  const FIRST := Db([BARE_ROW], [[]], ["public", "main"])
  const SECOND := Db([BARE_ROW, PUBLIC_ROW], [[], []], ["public", "main"])

  lemma {:induction false} BareNameOf()
    ensures Normal("f") == "f" && TrimSpace("f") != "" && Qualifier("f") == "" && Bare("f") == "f"
  {
    hide TrimSpace, ToLower;
    TrimNothing("f");
    LowerNothing("f");
    assert LastDot("f") == -1;
  }

  lemma {:induction false} QualifiedNameOf()
    ensures Normal("public.f") == "public.f" && TrimSpace("public.f") != ""
  {
    hide TrimSpace, ToLower;
    TrimNothing("public.f");
    LowerNothing("public.f");
  }

  lemma {:induction false} DotOf()
    ensures Qualifier("public.f") == "public" && Bare("public.f") == "f"
  {
    var n := "public.f";
    assert n[..7] == "public." && n[7] == 'f' && n[6] == '.';
    assert LastDot(n[..7]) == 6;
    assert LastDot(n) == 6;
    assert n[..6] == "public" && n[7..] == "f";
  }

  lemma {:induction false} NamesOf()
    ensures Normal("f") == "f" && Normal("public.f") == "public.f"
    ensures TrimSpace("f") != "" && TrimSpace("public.f") != ""
    ensures Qualifier("f") == "" && Bare("f") == "f"
    ensures Qualifier("public.f") == "public" && Bare("public.f") == "f"
  {
    hide TrimSpace, Normal, Qualifier, Bare;
    BareNameOf();
    QualifiedNameOf();
    DotOf();
  }

  lemma {:induction false} Namespaces()
    ensures NsOid(["public", "main"], "public") == 1 && NsOid(["public", "main"], "main") == 2
    ensures NsOid(["public", "main"], "pg_catalog") == 0
  {
    assert ["public", "main"][..1] == ["public"] && ["public"][..0] == [];
    assert NsOid(["public"], "public") == 1;
  }

  /** The bare f is put in main, then public.f in public. */
  lemma {:induction false} FirstFamily()
    ensures InternFamily(EMPTY, MAIN, "f", true) == Insert(FIRST, 1)
  {
    hide NsOid, Qualifier, Bare, Normal, TrimSpace, LastDot, ToLower;
    NamesOf();
    Namespaces();
    assert EMPTY.types + [BARE_ROW] == [BARE_ROW];
  }

  lemma {:induction false} SecondFamily()
    ensures InternFamily(FIRST, MAIN, "public.f", true) == Insert(SECOND, 2)
  {
    hide NsOid, Qualifier, Bare, Normal, TrimSpace, LastDot, ToLower;
    NamesOf();
    Namespaces();
    assert FIRST.types[..0] == [];
    assert FamilyIn(FIRST.types, 1, "f") == 0;
    assert ExprIn(FIRST.types, 1, "f") == 0;
    assert FIRST.types + [PUBLIC_ROW] == SECOND.types;
  }

  /** From then on the bare f means public's. */
  lemma {:induction false} Shadows()
    ensures Family(FIRST, MAIN, "f") == 1 && Family(SECOND, MAIN, "f") == 2
  {
    hide NsOid, Qualifier, Bare, Normal, TrimSpace, LastDot, ToLower;
    NamesOf();
    Namespaces();
    assert FIRST.types[..0] == [] && SECOND.types[..1] == FIRST.types;
    assert FamilyIn(FIRST.types, 1, "f") == 0 && FamilyIn(FIRST.types, 2, "f") == 1;
    assert FamilyIn(SECOND.types, 1, "f") == 2;
  }

  const ARGS := [TypeArg("", TypeVal(TypeExpr("f", false, [])))]
  const ROWS := [ArgRow("", TypeRef(2, false))]
  const CANON := TypeExpr("f", false, ARGS)
  const THIRD := Db(SECOND.types + [InstanceRow(BARE_ROW, 1, Key(CANON), ROWS)], SECOND.args + [ROWS], SECOND.namespaces)

  lemma {:induction false} SecondStays()
    ensures Family(THIRD, MAIN, "f") == 2 && Family(THIRD, MAIN, "public.f") == 2
  {
    hide Family, NsOid, Key;
    Shadows();
    SecondFamily();
    assert RowsOk(SECOND);
    InstanceGrows(SECOND, MAIN, InstanceRow(BARE_ROW, 1, Key(CANON), ROWS), ROWS);
    assert Family(SECOND, MAIN, "public.f") == 2 by { SecondQualified(); }
  }

  lemma {:induction false} SecondQualified()
    ensures Family(SECOND, MAIN, "public.f") == 2
  {
    hide NsOid, Qualifier, Bare, Normal, TrimSpace, LastDot, ToLower;
    NamesOf();
    Namespaces();
    assert FIRST.types[..0] == [] && SECOND.types[..1] == FIRST.types;
    assert FamilyIn(FIRST.types, 1, "f") == 0;
  }

  lemma {:induction false} QualifiedArg(db: Db, db': Db)
    requires (db, db') == (FIRST, SECOND) || (db == THIRD && db' == THIRD)
    ensures Intern(db, MAIN, QUALIFIED, true, 1) == Step(db', Found(2, TypeExpr("f", false, [])))
  {
    hide InternFamily, Canonicalize, Normal, TrimSpace, Key;
    NamesOf();
    NothingCanonicalized(db, MAIN, QUALIFIED);
    SecondFamily();
    if db == THIRD {
      SecondStays();
      KnownFamily(THIRD, MAIN, "public.f", true);
    }
    assert Row(db', 2) == PUBLIC_ROW;
  }

  lemma {:induction false} QualifiedArgs(db: Db, db': Db)
    requires (db, db') == (FIRST, SECOND) || (db == THIRD && db' == THIRD)
    ensures InternArgs(db, MAIN, SHADOWED.args, true, 1) == ArgsStep(db', FoundArgs(ARGS, ROWS, true))
  {
    hide Intern, Key;
    QualifiedArg(db, db');
    assert SHADOWED.args[1..] == [];
    assert [ARGS[0]] + [] == ARGS && [ROWS[0]] + [] == ROWS;
  }

  lemma {:induction false} KeyHasParen(t: TypeExpr)
    requires t.args != []
    ensures '(' in Key(t)
  {
    var u := t.(nullable := false);
    assert String(u) == u.name + ("(" + ArgsString(u.args) + ")") + "";
    assert String(u)[|u.name|] == '(';
  }

  lemma {:induction false} FirstInstance()
    ensures InternInstance(SECOND, MAIN, 1, FoundArgs(ARGS, ROWS, true), true) == Step(THIRD, Found(3, CANON))
  {
    hide String;
    KeyHasParen(CANON);
    assert Key(CANON) != "f";
    assert SECOND.types[..1] == FIRST.types && FIRST.types[..0] == [];
    assert ExprIn(FIRST.types, 2, Key(CANON)) == 0;
    assert ExprIn(SECOND.types, 2, Key(CANON)) == 0;
    assert QualifiedName(SECOND, MAIN, BARE_ROW) == "f";
  }

  lemma {:induction false} OtherInstance()
    ensures var r := InternInstance(THIRD, MAIN, 2, FoundArgs(ARGS, ROWS, true), true); r.out == Found(4, CANON)
  {
    hide String;
    KeyHasParen(CANON);
    assert Key(CANON) != "f";
    assert THIRD.types[..2] == SECOND.types && SECOND.types[..1] == FIRST.types && FIRST.types[..0] == [];
    assert ExprIn(FIRST.types, 1, Key(CANON)) == 0;
    assert ExprIn(SECOND.types, 1, Key(CANON)) == 0;
    assert ExprIn(THIRD.types, 1, Key(CANON)) == 0;
    assert QualifiedName(THIRD, MAIN, PUBLIC_ROW) == "f";
  }

  /** Resolving f(public.f) twice gives two rows: the same expression, two identities. */
  lemma {:induction false} ResolveNotRepeatable()
    ensures var first := Intern(EMPTY, MAIN, SHADOWED, true, 2);
            var second := Intern(first.db, MAIN, SHADOWED, true, 2);
            first.out == Found(3, CANON) && second.out == Found(4, CANON)
  {
    hide InternFamily, InternArgs, InternInstance, Canonicalize, Normal, TrimSpace, Key, QualifiedName;
    NamesOf();
    FirstFamily();
    NothingCanonicalized(EMPTY, MAIN, SHADOWED);
    assert Canonical(FIRST, 1) == 1;
    QualifiedArgs(FIRST, SECOND);
    FirstInstance();
    NothingCanonicalized(THIRD, MAIN, SHADOWED);
    SecondStays();
    KnownFamily(THIRD, MAIN, "f", true);
    assert Canonical(THIRD, 2) == 2;
    QualifiedArgs(THIRD, THIRD);
    OtherInstance();
  }
}
