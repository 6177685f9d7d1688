/** Which NOT NULL columns an outer join can make NULL: isTableRequired and the last loop of
    outputColumns in internal/compiler/output_columns.go, against what joins compute. */
module JoinNullability {
  import opened Common

  /** OtherJoin stands for the join types the code does not look into. */
  datatype JoinKind = LeftJoin | RightJoin | FullJoin | InnerJoin | CrossJoin | CommaJoin | OtherJoin

  /** A FROM clause. `id` names the occurrence of a table; `on` the join's condition. A list of items
      is Items, ended by Nothing. */
  datatype From =
    | Table(id: nat, name: string, alias: Option<string>)
    | Join(kind: JoinKind, left: From, right: From, on: nat)
    | Items(first: From, rest: From)
    | Nothing

  /** An output column with the table it comes from; an empty alias is none. */
  datatype Column = Column(notNull: bool, table: Option<string>, alias: string, skip: bool)

  // ----- the code -----

  datatype Status = NotFound | Required | Optional

  predicate Picks(t: From, name: string, alias: string)
    requires t.Table?
  {
    t.name == name && (t.alias.Some? && alias != "" ==> t.alias.value == alias)
  }

  /** What a join says of the tables on its left and on its right. */
  function Priors(k: JoinKind): (Status, Status)
    requires !k.OtherJoin?
  {
    match k
    case LeftJoin => (Required, Optional)
    case RightJoin => (Optional, Required)
    case FullJoin => (Optional, Optional)
    case InnerJoin => (Required, Required)
    case CrossJoin => (Required, Required)
    case CommaJoin => (Required, Required)
  }

  function IsTableRequired(t: From, name: string, alias: string, prior: Status): Status {
    match t
    case Table(_, _, _) => if Picks(t, name, alias) then prior else NotFound
    case Join(k, l, r, _) =>
      if k.OtherJoin? then NotFound else
      var left := IsTableRequired(l, name, alias, Priors(k).0);
      if left != NotFound then left else IsTableRequired(r, name, alias, Priors(k).1)
    case Items(first, rest) =>
      var res := IsTableRequired(first, name, alias, prior);
      if res != NotFound then res else IsTableRequired(rest, name, alias, prior)
    case Nothing => NotFound
  }

  function FromItems(items: seq<From>): From {
    if items == [] then Nothing else Items(items[0], FromItems(items[1..]))
  }

  /** What the last loop of outputColumns leaves of a column. */
  function Demote(c: Column, from: From): Column {
    if !c.notNull || c.table.None? || c.skip then c
    else
      var res := IsTableRequired(from, c.table.value, c.alias, Required);
      if res == NotFound then c else c.(notNull := res == Required)
  }

  method DemoteAll(cols: array<Column>, items: seq<From>)
    modifies cols
    ensures forall i :: 0 <= i < cols.Length ==> cols[i] == Demote(old(cols[i]), FromItems(items))
  {
    for i := 0 to cols.Length
      invariant forall j :: 0 <= j < i ==> cols[j] == Demote(old(cols[j]), FromItems(items))
      invariant forall j :: i <= j < cols.Length ==> cols[j] == old(cols[j])
    {
      var col := cols[i];
      if !col.notNull || col.table.None? || col.skip {
        continue;
      }
      ghost var answer := IsTableRequired(FromItems(items), col.table.value, col.alias, Required);
      assert items[0..] == items;
      for f := 0 to |items|
        invariant cols[i] == col && forall j :: 0 <= j < cols.Length && j != i ==> cols[j] == (if j < i then Demote(old(cols[j]), FromItems(items)) else old(cols[j]))
        invariant answer == IsTableRequired(FromItems(items[f..]), col.table.value, col.alias, Required)
      {
        assert items[f..][1..] == items[f + 1..];
        var res := IsTableRequired(items[f], col.table.value, col.alias, Required);
        if res != NotFound {
          cols[i] := col.(notNull := res == Required);
          break;
        }
      }
    }
  }

  // ----- what a join computes -----

  /** For each table occurrence the tuple a result row holds of it, or None when it is NULL-extended. */
  type Row = map<nat, Option<int>>

  /** The tuples of each table occurrence, and which joined rows meet each ON condition. */
  datatype Data = Data(tuples: map<nat, set<int>>, meets: (nat, Row) -> bool)

  ghost function Ids(t: From): set<nat> {
    match t
    case Table(id, _, _) => {id}
    case Join(_, l, r, _) => Ids(l) + Ids(r)
    case Items(first, rest) => Ids(first) + Ids(rest)
    case Nothing => {}
  }

  ghost function Nulls(t: From): Row { map x | x in Ids(t) :: None }

  predicate Conditional(k: JoinKind) { !k.CrossJoin? && !k.CommaJoin? }

  ghost predicate Meets(d: Data, k: JoinKind, on: nat, row: Row) { Conditional(k) ==> d.meets(on, row) }

  /** What a join of another type computes is not modelled: it has no rows here. */
  ghost predicate InResult(t: From, d: Data, row: Row)
    decreases t, 1
  {
    match t
    case Table(id, _, _) => id in d.tuples && exists v :: v in d.tuples[id] && row == map[id := Some(v)]
    case Join(k, l, r, on) =>
      && !k.OtherJoin?
      && (|| Matched(t, d, row)
          || ((k.LeftJoin? || k.FullJoin?) && exists a :: LeftAlone(t, d, a) && row == a + Nulls(r))
          || ((k.RightJoin? || k.FullJoin?) && exists b :: RightAlone(t, d, b) && row == Nulls(l) + b))
    case Items(first, rest) => exists a, b :: InResult(first, d, a) && InResult(rest, d, b) && row == a + b
    case Nothing => row == map[]
  }

  ghost predicate Matched(t: From, d: Data, row: Row)
    requires t.Join?
    decreases t, 0
  {
    exists a, b :: InResult(t.left, d, a) && InResult(t.right, d, b) && Meets(d, t.kind, t.on, a + b) && row == a + b
  }

  ghost predicate LeftAlone(t: From, d: Data, a: Row)
    requires t.Join?
    decreases t, 0
  {
    InResult(t.left, d, a) && forall b :: InResult(t.right, d, b) ==> !Meets(d, t.kind, t.on, a + b)
  }

  ghost predicate RightAlone(t: From, d: Data, b: Row)
    requires t.Join?
    decreases t, 0
  {
    InResult(t.right, d, b) && forall a :: InResult(t.left, d, a) ==> !Meets(d, t.kind, t.on, a + b)
  }

  // ----- which tables can be NULL-extended -----

  /** Each table occurrence occurs once. */
  ghost predicate Distinct(t: From) {
    match t
    case Join(_, l, r, _) => Ids(l) !! Ids(r) && Distinct(l) && Distinct(r)
    case Items(first, rest) => Ids(first) !! Ids(rest) && Distinct(first) && Distinct(rest)
    case _ => true
  }

  /** Every join is of a type whose rows are modelled. */
  predicate KnownJoins(t: From) {
    match t
    case Join(k, l, r, _) => !k.OtherJoin? && KnownJoins(l) && KnownJoins(r)
    case Items(first, rest) => KnownJoins(first) && KnownJoins(rest)
    case _ => true
  }

  /** The sides of a join whose tables can be NULL although they hold rows. */
  predicate ExtendsLeft(k: JoinKind) { k.RightJoin? || k.FullJoin? }
  predicate ExtendsRight(k: JoinKind) { k.LeftJoin? || k.FullJoin? }

  function PriorFor(extended: bool): Status { if extended then Optional else Required }

  /** Some outer join extends a side that the occurrence lies in, at any depth. */
  ghost predicate Extended(t: From, x: nat) {
    match t
    case Join(k, l, r, _) =>
      || (x in Ids(l) && (ExtendsLeft(k) || Extended(l, x)))
      || (x in Ids(r) && (ExtendsRight(k) || Extended(r, x)))
    case Items(first, rest) => Extended(first, x) || Extended(rest, x)
    case _ => false
  }

  lemma {:induction false} RowIds(t: From, d: Data, row: Row)
    requires InResult(t, d, row)
    ensures row.Keys == Ids(t)
    decreases t
  {
    match t
    case Table(_, _, _) =>
    case Join(k, l, r, on) =>
      if Matched(t, d, row) {
        var a, b :| InResult(l, d, a) && InResult(r, d, b) && Meets(d, k, on, a + b) && row == a + b;
        RowIds(l, d, a);
        RowIds(r, d, b);
      } else if a :| ExtendsRight(k) && LeftAlone(t, d, a) && row == a + Nulls(r) {
        RowIds(l, d, a);
      } else {
        var b :| RightAlone(t, d, b) && row == Nulls(l) + b;
        RowIds(r, d, b);
      }
    case Items(first, rest) =>
      var a, b :| InResult(first, d, a) && InResult(rest, d, b) && row == a + b;
      RowIds(first, d, a);
      RowIds(rest, d, b);
    case Nothing =>
  }

  /** A row of a side, inside a joined row. */
  lemma {:induction false} Side(l: From, r: From, d: Data, a: Row, b: Row, x: nat)
    requires InResult(l, d, a) && InResult(r, d, b) && Ids(l) !! Ids(r)
    ensures a.Keys == Ids(l) && b.Keys == Ids(r)
    ensures x in a ==> (a + b)[x] == a[x]
    ensures x in b ==> (a + b)[x] == b[x]
    ensures (a + b).Keys == Ids(l) + Ids(r)
  {
    hide InResult, Ids;
    RowIds(l, d, a);
    RowIds(r, d, b);
  }

  /** A table no outer join extends is present in every row, whatever the data. */
  lemma {:induction false} NeverNull(t: From, d: Data, row: Row, x: nat)
    requires Distinct(t) && x in Ids(t) && !Extended(t, x) && InResult(t, d, row)
    ensures x in row && row[x].Some?
    decreases t
  {
    hide Meets;
    RowIds(t, d, row);
    match t
    case Table(_, _, _) =>
    case Join(k, l, r, on) =>
      if Matched(t, d, row) {
        var a, b :| InResult(l, d, a) && InResult(r, d, b) && Meets(d, k, on, a + b) && row == a + b;
        if x in Ids(l) {
          NeverNull(l, d, a, x);
        } else {
          NeverNull(r, d, b, x);
        }
        Side(l, r, d, a, b, x);
      } else if a :| ExtendsRight(k) && LeftAlone(t, d, a) && row == a + Nulls(r) {
        RowIds(l, d, a);
        NeverNull(l, d, a, x);
      } else {
        var b :| RightAlone(t, d, b) && row == Nulls(l) + b;
        RowIds(r, d, b);
        NeverNull(r, d, b, x);
      }
    case Items(first, rest) =>
      var a, b :| InResult(first, d, a) && InResult(rest, d, b) && row == a + b;
      if x in Ids(first) {
        NeverNull(first, d, a, x);
      } else {
        NeverNull(rest, d, b, x);
      }
      Side(first, rest, d, a, b, x);
    case Nothing =>
  }

  // ----- an extended table is NULL in some row of some data -----

  /** One tuple in every table; a condition holds when it does not see the table x. */
  ghost function Witness(t: From, x: nat): Data {
    Data(map i | i in Ids(t) :: {0}, (_, row: Row) => x in row ==> row[x].None?)
  }

  ghost predicate Covers(d: Data, t: From) {
    forall i :: i in Ids(t) ==> i in d.tuples && 0 in d.tuples[i]
  }

  /** Conditions hold exactly when they do not see x. */
  ghost predicate Blind(d: Data, x: nat) {
    forall on: nat, r: Row :: d.meets(on, r) <==> (x in r ==> r[x].None?)
  }

  /** A clause without x has a row. */
  lemma {:induction false} SomeRow(t: From, d: Data, x: nat) returns (row: Row)
    requires Distinct(t) && KnownJoins(t) && x !in Ids(t) && Covers(d, t)
    requires Blind(d, x)
    ensures InResult(t, d, row)
    decreases t
  {
    match t
    case Table(id, _, _) =>
      assert id in Ids(t);
      row := map[id := Some(0)];
    case Join(k, l, r, on) =>
      var a := SomeRow(l, d, x);
      var b := SomeRow(r, d, x);
      Side(l, r, d, a, b, x);
      row := a + b;
      assert Meets(d, k, on, row);
      assert Matched(t, d, row);
    case Items(first, rest) =>
      var a := SomeRow(first, d, x);
      var b := SomeRow(rest, d, x);
      row := a + b;
    case Nothing =>
      row := map[];
  }

  ghost predicate NullAt(row: Row, x: nat) { x in row && row[x].None? }

  lemma {:induction false} NullOnLeft(t: From, d: Data, x: nat, a: Row) returns (row: Row)
    requires t.Join? && Distinct(t) && KnownJoins(t) && Covers(d, t) && InResult(t.left, d, a) && NullAt(a, x)
    requires Blind(d, x)
    ensures InResult(t, d, row) && NullAt(row, x)
  {
    RowIds(t.left, d, a);
    var b := SomeRow(t.right, d, x);
    Side(t.left, t.right, d, a, b, x);
    row := a + b;
    assert Meets(d, t.kind, t.on, row);
    assert Matched(t, d, row);
  }

  lemma {:induction false} NullOnRight(t: From, d: Data, x: nat, b: Row) returns (row: Row)
    requires t.Join? && Distinct(t) && KnownJoins(t) && Covers(d, t) && InResult(t.right, d, b) && NullAt(b, x)
    requires Blind(d, x)
    ensures InResult(t, d, row) && NullAt(row, x)
  {
    RowIds(t.right, d, b);
    var a := SomeRow(t.left, d, x);
    Side(t.left, t.right, d, a, b, x);
    row := a + b;
    assert Meets(d, t.kind, t.on, row);
    assert Matched(t, d, row);
  }

  /** The join itself extends the side of x: a row of the other side finds no partner, or one in which
      x is already NULL. */
  lemma {:induction false} ExtendedRight(t: From, d: Data, x: nat) returns (row: Row)
    requires t.Join? && Distinct(t) && KnownJoins(t) && Covers(d, t) && Blind(d, x)
    requires x in Ids(t.right) && ExtendsRight(t.kind)
    ensures InResult(t, d, row) && NullAt(row, x)
  {
    hide Meets;
    var a := SomeRow(t.left, d, x);
    RowIds(t.left, d, a);
    if b :| InResult(t.right, d, b) && Meets(d, t.kind, t.on, a + b) {
      Side(t.left, t.right, d, a, b, x);
      MetIsNull(t, d, x, a + b);
      row := a + b;
      assert Matched(t, d, row);
    } else {
      row := a + Nulls(t.right);
      assert LeftAlone(t, d, a);
    }
  }

  lemma {:induction false} ExtendedLeft(t: From, d: Data, x: nat) returns (row: Row)
    requires t.Join? && Distinct(t) && KnownJoins(t) && Covers(d, t) && Blind(d, x)
    requires x in Ids(t.left) && ExtendsLeft(t.kind)
    ensures InResult(t, d, row) && NullAt(row, x)
  {
    hide Meets;
    var b := SomeRow(t.right, d, x);
    RowIds(t.right, d, b);
    if a :| InResult(t.left, d, a) && Meets(d, t.kind, t.on, a + b) {
      Side(t.left, t.right, d, a, b, x);
      MetIsNull(t, d, x, a + b);
      row := a + b;
      assert Matched(t, d, row);
    } else {
      row := Nulls(t.left) + b;
      assert RightAlone(t, d, b);
    }
  }

  lemma {:induction false} MetIsNull(t: From, d: Data, x: nat, row: Row)
    requires t.Join? && Meets(d, t.kind, t.on, row) && x in row && (ExtendsLeft(t.kind) || ExtendsRight(t.kind))
    requires Blind(d, x)
    ensures NullAt(row, x)
  {
  }

  lemma {:induction false} ExtendedNull(t: From, d: Data, x: nat) returns (row: Row)
    requires Distinct(t) && KnownJoins(t) && Covers(d, t) && Extended(t, x)
    requires Blind(d, x)
    ensures InResult(t, d, row) && NullAt(row, x)
    decreases t
  {
    hide InResult;
    match t
    case Join(k, l, r, on) =>
      if x in Ids(l) && ExtendsLeft(k) {
        row := ExtendedLeft(t, d, x);
      } else if x in Ids(r) && ExtendsRight(k) {
        row := ExtendedRight(t, d, x);
      } else if x in Ids(l) && Extended(l, x) {
        var a := ExtendedNull(l, d, x);
        row := NullOnLeft(t, d, x, a);
      } else {
        var b := ExtendedNull(r, d, x);
        row := NullOnRight(t, d, x, b);
      }
    case Items(first, rest) =>
      ExtendedIn(first, x);
      ExtendedIn(rest, x);
      var a, b;
      if Extended(first, x) {
        a := ExtendedNull(first, d, x);
        b := SomeRow(rest, d, x);
      } else {
        a := SomeRow(first, d, x);
        b := ExtendedNull(rest, d, x);
      }
      Side(first, rest, d, a, b, x);
      row := a + b;
      ItemsRow(t, d, a, b);
  }

  lemma {:induction false} ItemsRow(t: From, d: Data, a: Row, b: Row)
    requires t.Items? && InResult(t.first, d, a) && InResult(t.rest, d, b)
    ensures InResult(t, d, a + b)
  {
  }

  lemma {:induction false} ExtendedIn(t: From, x: nat)
    ensures Extended(t, x) ==> x in Ids(t)
    decreases t
  {
    if t.Items? {
      ExtendedIn(t.first, x);
      ExtendedIn(t.rest, x);
    }
  }

  /** Exactly the extended tables can be NULL: there are data, conditions and a result row in which the
      table is NULL if and only if some outer join above it extends its side. */
  lemma {:induction false} NullableIffExtended(t: From, x: nat)
    requires Distinct(t) && KnownJoins(t) && x in Ids(t)
    ensures CanBeNull(t, x) <==> Extended(t, x)
  {
    hide InResult, Extended;
    if Extended(t, x) {
      var d := Witness(t, x);
      var row := ExtendedNull(t, d, x);
      assert Shows(t, x, d, row);
    }
    if CanBeNull(t, x) {
      var d, row :| Shows(t, x, d, row);
      if !Extended(t, x) {
        NeverNull(t, d, row, x);
      }
    }
  }

  ghost predicate Shows(t: From, x: nat, d: Data, row: Row) { InResult(t, d, row) && NullAt(row, x) }

  ghost predicate CanBeNull(t: From, x: nat) { exists d, row :: Shows(t, x, d, row) }

  // ----- what the code answers -----

  /** A table of the clause, at any depth. */
  ghost predicate Occurs(t: From, o: From) {
    match t
    case Table(_, _, _) => o == t
    case Join(_, l, r, _) => Occurs(l, o) || Occurs(r, o)
    case Items(first, rest) => Occurs(first, o) || Occurs(rest, o)
    case Nothing => false
  }

  /** What a query calls a table: its alias if it has one, else its name. */
  function RefName(o: From): string
    requires o.Table?
  {
    if o.alias.Some? then o.alias.value else o.name
  }

  /** The reference `alias.column` to a column of the table `name`, or `column` when there is no alias. */
  ghost predicate Refers(o: From, name: string, alias: string) {
    o.Table? && o.name == name && (alias == "" || RefName(o) == alias)
  }

  /** The column refers to the occurrence x and to no other. */
  ghost predicate Designates(t: From, name: string, alias: string, x: nat) {
    && (exists o :: Occurs(t, o) && Refers(o, name, alias) && o.id == x)
    && (forall o :: Occurs(t, o) && Refers(o, name, alias) ==> o.id == x)
  }

  /** An occurrence of the table without an alias. */
  predicate Nameless(o: From, name: string) { o.Table? && o.name == name && o.alias.None? }

  /** The occurrence the code settles on: x, unless it sees an occurrence of the same table without an
      alias before. */
  function Target(t: From, name: string, x: nat): Option<nat> {
    match t
    case Table(id, _, _) => if id == x || Nameless(t, name) then Some(id) else None
    case Join(k, l, r, _) =>
      if k.OtherJoin? then None
      else if Target(l, name, x).Some? then Target(l, name, x) else Target(r, name, x)
    case Items(first, rest) =>
      if Target(first, name, x).Some? then Target(first, name, x) else Target(rest, name, x)
    case Nothing => None
  }

  /** x is a whole operand, not inside a join of its own. */
  ghost predicate Bare(t: From, x: nat) {
    match t
    case Table(id, _, _) => id == x
    case Items(first, rest) => Bare(first, x) || Bare(rest, x)
    case _ => false
  }

  /** The occurrences the code gets to see. */
  ghost function Seen(t: From): set<nat> {
    match t
    case Table(id, _, _) => {id}
    case Join(k, l, r, _) => if k.OtherJoin? then {} else Seen(l) + Seen(r)
    case Items(first, rest) => Seen(first) + Seen(rest)
    case Nothing => {}
  }

  lemma {:induction false} SeenIn(t: From)
    ensures Seen(t) <= Ids(t)
    decreases t
  {
    match t
    case Join(_, l, r, _) =>
      SeenIn(l);
      SeenIn(r);
    case Items(first, rest) =>
      SeenIn(first);
      SeenIn(rest);
    case _ =>
  }

  /** Some outer join extends an operand that is x itself, where the code gets to see it. */
  ghost predicate ExtendedDirectly(t: From, x: nat) {
    match t
    case Join(k, l, r, _) =>
      && !k.OtherJoin?
      && (|| (ExtendsLeft(k) && Bare(l, x)) || (ExtendsRight(k) && Bare(r, x))
          || ExtendedDirectly(l, x) || ExtendedDirectly(r, x))
    case Items(first, rest) => ExtendedDirectly(first, x) || ExtendedDirectly(rest, x)
    case _ => false
  }

  lemma {:induction false} BareIn(t: From, x: nat)
    ensures Bare(t, x) || ExtendedDirectly(t, x) ==> x in Seen(t)
    ensures Bare(t, x) || ExtendedDirectly(t, x) ==> x in Ids(t)
    decreases t
  {
    SeenIn(t);
    match t
    case Join(_, l, r, _) =>
      BareIn(l, x);
      BareIn(r, x);
    case Items(first, rest) =>
      BareIn(first, x);
      BareIn(rest, x);
    case _ =>
  }

  /** What the code takes for the column's table: x, and every occurrence of that table without an alias. */
  ghost predicate TakesFor(t: From, name: string, alias: string, x: nat) {
    forall o :: Occurs(t, o) && o.Table? ==> (Picks(o, name, alias) <==> o.id == x || Nameless(o, name))
  }

  lemma {:induction false} OccursIsTable(t: From, o: From)
    requires Occurs(t, o)
    ensures o.Table? && o.id in Ids(t)
    decreases t
  {
    match t
    case Table(_, _, _) =>
    case Join(_, l, r, _) =>
      if Occurs(l, o) {
        OccursIsTable(l, o);
      } else {
        OccursIsTable(r, o);
      }
    case Items(first, rest) =>
      if Occurs(first, o) {
        OccursIsTable(first, o);
      } else {
        OccursIsTable(rest, o);
      }
  }

  /** Two occurrences differ in id. */
  lemma {:induction false} OneOccurrence(t: From, o: From, q: From)
    requires Distinct(t) && Occurs(t, o) && Occurs(t, q) && o.Table? && q.Table? && o.id == q.id
    ensures o == q
    decreases t
  {
    match t
    case Table(_, _, _) =>
    case Join(_, l, r, _) =>
      SameSide(l, r, o, q);
      OneOccurrence(if Occurs(l, o) then l else r, o, q);
    case Items(first, rest) =>
      SameSide(first, rest, o, q);
      OneOccurrence(if Occurs(first, o) then first else rest, o, q);
  }

  lemma {:induction false} SameSide(l: From, r: From, o: From, q: From)
    requires Ids(l) !! Ids(r) && o.Table? && q.Table? && o.id == q.id
    requires (Occurs(l, o) || Occurs(r, o)) && (Occurs(l, q) || Occurs(r, q))
    ensures Occurs(l, o) <==> Occurs(l, q)
    ensures Occurs(r, o) <==> Occurs(r, q)
  {
    hide Occurs;
    forall t: From, p: From | Occurs(t, p)
      ensures p.Table? && p.id in Ids(t)
    {
      OccursIsTable(t, p);
    }
  }

  lemma {:induction false} DesignatesTakes(t: From, name: string, alias: string, x: nat)
    requires Distinct(t) && Designates(t, name, alias, x)
    ensures TakesFor(t, name, alias, x)
  {
    var q :| Occurs(t, q) && Refers(q, name, alias) && q.id == x;
    forall o | Occurs(t, o)
      ensures o.Table? && (Picks(o, name, alias) <==> o.id == x || Nameless(o, name))
    {
      OccursIsTable(t, o);
      if o.id == x {
        OneOccurrence(t, o, q);
      }
    }
  }

  /** The code answers about its target. */
  lemma {:induction false} Answer(t: From, name: string, alias: string, x: nat, prior: Status)
    requires Distinct(t) && TakesFor(t, name, alias, x) && prior != NotFound
    ensures Target(t, name, x).Some? ==> Target(t, name, x).value in Seen(t)
    ensures IsTableRequired(t, name, alias, prior) ==
            match Target(t, name, x)
            case None => NotFound
            case Some(y) => if Bare(t, y) then prior else PriorFor(ExtendedDirectly(t, y))
    decreases t
  {
    match t
    case Table(_, _, _) =>
      assert Occurs(t, t);
    case Join(k, l, r, _) =>
      if !k.OtherJoin? {
        Answer(l, name, alias, x, PriorFor(ExtendsLeft(k)));
        Answer(r, name, alias, x, PriorFor(ExtendsRight(k)));
        if Target(t, name, x).Some? {
          Sides(l, r, Target(t, name, x).value);
        }
      }
    case Items(first, rest) =>
      Answer(first, name, alias, x, prior);
      Answer(rest, name, alias, x, prior);
      if Target(t, name, x).Some? {
        Sides(first, rest, Target(t, name, x).value);
      }
    case Nothing =>
  }

  lemma {:induction false} Sides(l: From, r: From, y: nat)
    requires Distinct(l) && Distinct(r)
    ensures y in Seen(l) ==> y in Ids(l)
    ensures y in Seen(r) ==> y in Ids(r)
    ensures Bare(l, y) || ExtendedDirectly(l, y) ==> y in Ids(l)
    ensures Bare(r, y) || ExtendedDirectly(r, y) ==> y in Ids(r)
    ensures Bare(l, y) ==> !ExtendedDirectly(l, y)
    ensures Bare(r, y) ==> !ExtendedDirectly(r, y)
  {
    SeenIn(l);
    SeenIn(r);
    BareIn(l, y);
    BareIn(r, y);
    BareOnly(l, y);
    BareOnly(r, y);
  }

  lemma {:induction false} BareOnly(t: From, x: nat)
    requires Distinct(t)
    ensures Bare(t, x) ==> !ExtendedDirectly(t, x)
    decreases t
  {
    if t.Items? {
      BareIn(t.first, x);
      BareIn(t.rest, x);
      BareOnly(t.first, x);
      BareOnly(t.rest, x);
    }
  }

  /** The column comes from the occurrence x, and the final loop looks at it. */
  ghost predicate ColumnOf(from: From, c: Column, x: nat) {
    Distinct(from) && c.notNull && c.table.Some? && !c.skip && Designates(from, c.table.value, c.alias, x)
  }

  lemma {:induction false} DesignatedIn(t: From, name: string, alias: string, x: nat)
    requires Designates(t, name, alias, x)
    ensures x in Ids(t)
  {
    var o :| Occurs(t, o) && Refers(o, name, alias) && o.id == x;
    OccursIsTable(t, o);
  }

  /** The code demotes a column exactly when an outer join extends, as a whole operand, the table it
      settles on. */
  lemma {:induction false} DemotedIff(from: From, c: Column, x: nat)
    requires ColumnOf(from, c, x)
    ensures var y := Target(from, c.table.value, x);
            Demote(c, from).notNull <==> y.None? || !ExtendedDirectly(from, y.value)
  {
    hide Designates;
    DesignatesTakes(from, c.table.value, c.alias, x);
    Answer(from, c.table.value, c.alias, x, Required);
    var y := Target(from, c.table.value, x);
    if y.Some? {
      BareOnly(from, y.value);
    }
  }

  /** Some occurrence of the table without an alias, which the column does not refer to, comes before x. */
  ghost predicate Hidden(from: From, c: Column, x: nat)
    requires c.table.Some?
  {
    exists o :: Before(from, o, x) && Nameless(o, c.table.value)
  }

  /** The code comes to the table o before it comes to x. */
  ghost predicate Before(t: From, o: From, x: nat) {
    match t
    case Table(_, _, _) => false
    case Join(k, l, r, _) =>
      !k.OtherJoin? && (Before(l, o, x) || Before(r, o, x) || (x in Ids(r) && IsSeen(l, o)))
    case Items(first, rest) => Before(first, o, x) || Before(rest, o, x) || (x in Ids(rest) && IsSeen(first, o))
    case Nothing => false
  }

  /** A table the code gets to see. */
  ghost predicate IsSeen(t: From, o: From) {
    match t
    case Table(_, _, _) => o == t
    case Join(k, l, r, _) => !k.OtherJoin? && (IsSeen(l, o) || IsSeen(r, o))
    case Items(first, rest) => IsSeen(first, o) || IsSeen(rest, o)
    case Nothing => false
  }

  lemma {:induction false} BeforeIn(t: From, o: From, x: nat)
    ensures Before(t, o, x) ==> x in Ids(t)
    decreases t
  {
    match t
    case Join(_, l, r, _) =>
      BeforeIn(l, o, x);
      BeforeIn(r, o, x);
    case Items(first, rest) =>
      BeforeIn(first, o, x);
      BeforeIn(rest, o, x);
    case _ =>
  }

  /** A clause without x has a target exactly when it shows a table of the name without an alias. */
  lemma {:induction false} TargetElsewhere(t: From, name: string, x: nat)
    requires x !in Ids(t)
    ensures Target(t, name, x).Some? <==> exists o :: IsSeen(t, o) && Nameless(o, name)
    decreases t
  {
    match t
    case Table(_, _, _) =>
      assert IsSeen(t, t);
    case Join(k, l, r, _) =>
      TargetElsewhere(l, name, x);
      TargetElsewhere(r, name, x);
      SeenEither(t, l, r, name);
    case Items(first, rest) =>
      TargetElsewhere(first, name, x);
      TargetElsewhere(rest, name, x);
      SeenEither(t, first, rest, name);
    case Nothing =>
  }

  lemma {:induction false} SeenEither(t: From, l: From, r: From, name: string)
    requires (t.Join? && !t.kind.OtherJoin? && t.left == l && t.right == r) || (t.Items? && t.first == l && t.rest == r)
             || (t.Join? && t.kind.OtherJoin?)
    ensures (exists o :: IsSeen(t, o) && Nameless(o, name)) <==>
            !(t.Join? && t.kind.OtherJoin?)
            && ((exists o :: IsSeen(l, o) && Nameless(o, name)) || (exists o :: IsSeen(r, o) && Nameless(o, name)))
  {
    if o :| IsSeen(l, o) && Nameless(o, name) {
      assert IsSeen(t, o) || (t.Join? && t.kind.OtherJoin?);
    }
    if o :| IsSeen(r, o) && Nameless(o, name) {
      assert IsSeen(t, o) || (t.Join? && t.kind.OtherJoin?);
    }
  }

  /** The code settles on x exactly when no such table hides it. */
  lemma {:induction false} TargetIsOwn(t: From, name: string, x: nat)
    requires Distinct(t) && KnownJoins(t) && x in Ids(t)
    ensures Target(t, name, x).Some?
    ensures Target(t, name, x) == Some(x) <==> !exists o :: Before(t, o, x) && Nameless(o, name)
    decreases t
  {
    match t
    case Table(_, _, _) =>
    case Join(_, l, r, _) => TargetOfTwo(t, l, r, name, x);
    case Items(first, rest) => TargetOfTwo(t, first, rest, name, x);
  }

  lemma {:induction false} TargetOfTwo(t: From, l: From, r: From, name: string, x: nat)
    requires Distinct(t) && KnownJoins(t) && x in Ids(t)
    requires (t.Join? && t.left == l && t.right == r) || (t.Items? && t.first == l && t.rest == r)
    ensures Target(t, name, x).Some?
    ensures Target(t, name, x) == Some(x) <==> !exists o :: Before(t, o, x) && Nameless(o, name)
    decreases t, 0
  {
    hide Ids, Nameless;
    assert Ids(t) == Ids(l) + Ids(r) && Ids(l) !! Ids(r) by { SplitIds(t, l, r); }
    forall o
      ensures Before(t, o, x) <==> Before(l, o, x) || Before(r, o, x) || (x in Ids(r) && IsSeen(l, o))
      ensures Before(l, o, x) ==> x in Ids(l)
      ensures Before(r, o, x) ==> x in Ids(r)
    {
      BeforeIn(l, o, x);
      BeforeIn(r, o, x);
    }
    if x in Ids(l) {
      TargetIsOwn(l, name, x);
    } else {
      TargetElsewhere(l, name, x);
      TargetIsOwn(r, name, x);
      TargetWithin(l, name, x);
    }
  }

  lemma {:induction false} SplitIds(t: From, l: From, r: From)
    requires Distinct(t) && ((t.Join? && t.left == l && t.right == r) || (t.Items? && t.first == l && t.rest == r))
    ensures Ids(t) == Ids(l) + Ids(r) && Ids(l) !! Ids(r)
  {
  }

  lemma {:induction false} TargetWithin(t: From, name: string, x: nat)
    ensures Target(t, name, x).Some? ==> Target(t, name, x).value in Ids(t)
    decreases t
  {
    match t
    case Join(_, l, r, _) =>
      TargetWithin(l, name, x);
      TargetWithin(r, name, x);
    case Items(first, rest) =>
      TargetWithin(first, name, x);
      TargetWithin(rest, name, x);
    case _ =>
  }

  // ----- where the answer is right -----

  /** Every operand an outer join extends is a single table. */
  predicate TableOperands(t: From) {
    match t
    case Join(k, l, r, _) =>
      && (ExtendsLeft(k) ==> l.Table?) && (ExtendsRight(k) ==> r.Table?)
      && TableOperands(l) && TableOperands(r)
    case Items(first, rest) => TableOperands(first) && TableOperands(rest)
    case _ => true
  }

  lemma {:induction false} DirectIsExtended(t: From, x: nat)
    requires ExtendedDirectly(t, x)
    ensures Extended(t, x)
    decreases t
  {
    match t
    case Join(k, l, r, _) =>
      BareIn(l, x);
      BareIn(r, x);
      if ExtendedDirectly(l, x) {
        DirectIsExtended(l, x);
      } else if ExtendedDirectly(r, x) {
        DirectIsExtended(r, x);
      }
    case Items(first, rest) =>
      if ExtendedDirectly(first, x) {
        DirectIsExtended(first, x);
      } else {
        DirectIsExtended(rest, x);
      }
  }

  lemma {:induction false} ExtendedIsDirect(t: From, x: nat)
    requires TableOperands(t) && KnownJoins(t) && Extended(t, x)
    ensures ExtendedDirectly(t, x)
    decreases t
  {
    match t
    case Join(k, l, r, _) =>
      if x in Ids(l) && !ExtendsLeft(k) && Extended(l, x) {
        ExtendedIsDirect(l, x);
      } else if x in Ids(r) && !ExtendsRight(k) && Extended(r, x) {
        ExtendedIsDirect(r, x);
      }
    case Items(first, rest) =>
      if Extended(first, x) {
        ExtendedIsDirect(first, x);
      } else {
        ExtendedIsDirect(rest, x);
      }
  }

  /** Sound and exact where every extended operand is a table and the column's table is not hidden: a
      NOT NULL column stays NotNull exactly when no data make it NULL. */
  lemma {:induction false} NullabilityExact(from: From, c: Column, x: nat)
    requires ColumnOf(from, c, x) && KnownJoins(from) && TableOperands(from) && !Hidden(from, c, x)
    ensures Demote(c, from).notNull <==> !CanBeNull(from, x)
  {
    hide CanBeNull, Extended, ExtendedDirectly, Demote, Designates, Target;
    NullabilityRightIff(from, c, x);
    if Extended(from, x) {
      ExtendedIsDirect(from, x);
    }
  }

  /** On every clause: the answer is right if and only if the extension of the column's table and the
      direct extension of the table the code settles on go together. Where the table is not hidden, a
      demoted column can be NULL, and the answer is right if and only if an extension is direct. */
  lemma {:induction false} NullabilityRightIff(from: From, c: Column, x: nat)
    requires ColumnOf(from, c, x) && KnownJoins(from)
    ensures var y := Target(from, c.table.value, x);
            && y.Some? && (y == Some(x) <==> !Hidden(from, c, x))
            && ((Demote(c, from).notNull <==> !CanBeNull(from, x)) <==> (Extended(from, x) <==> ExtendedDirectly(from, y.value)))
    ensures !Hidden(from, c, x) ==>
              && (!Demote(c, from).notNull ==> CanBeNull(from, x))
              && ((Demote(c, from).notNull <==> !CanBeNull(from, x)) <==> (Extended(from, x) ==> ExtendedDirectly(from, x)))
  {
    hide CanBeNull, Extended, ExtendedDirectly, Demote, Designates, Target;
    DesignatedIn(from, c.table.value, c.alias, x);
    DemotedIff(from, c, x);
    NullableIffExtended(from, x);
    TargetIsOwn(from, c.table.value, x);
    if ExtendedDirectly(from, x) {
      DirectIsExtended(from, x);
    }
  }

  /** A column never becomes NotNull, nothing else of it changes, and one without a table, or one that is
      exempt, stays as it is. */
  lemma {:induction false} OnlyDemotes(from: From, c: Column)
    ensures Demote(c, from) == c.(notNull := Demote(c, from).notNull) && (Demote(c, from).notNull ==> c.notNull)
    ensures c.table.None? || c.skip ==> Demote(c, from) == c
  {
    hide IsTableRequired;
  }

  // ----- clauses -----

  /** a LEFT JOIN (b JOIN c): the columns of b are kept NotNull, and yet can be NULL. */
  lemma {:induction false} NestedJoinUnsound()
    ensures var b := Table(1, "b", None);
            var from := Join(LeftJoin, Table(0, "a", None), Join(InnerJoin, b, Table(2, "c", None), 0), 1);
            var col := Column(true, Some("b"), "", false);
            Demote(col, from).notNull && CanBeNull(from, 1)
  {
    var inner := Join(InnerJoin, Table(1, "b", None), Table(2, "c", None), 0);
    var from := Join(LeftJoin, Table(0, "a", None), inner, 1);
    assert Ids(inner) == {1, 2};
    assert Extended(from, 1);
    NullableIffExtended(from, 1);
  }

  /** Two tables, the right one extended. */
  lemma {:induction false} OuterPair(a: From, b: From)
    requires a.Table? && b.Table? && a.id != b.id
    ensures var from := Join(LeftJoin, a, b, 0); Distinct(from) && CanBeNull(from, b.id) && !CanBeNull(from, a.id)
  {
    hide CanBeNull;
    var from := Join(LeftJoin, a, b, 0);
    assert Extended(from, b.id) && !Extended(from, a.id);
    NullableIffExtended(from, a.id);
    NullableIffExtended(from, b.id);
  }

  lemma {:induction false} PairDesignates(a: From, b: From, name: string, alias: string)
    requires a.Table? && b.Table? && a.id != b.id
    ensures var from := Join(LeftJoin, a, b, 0);
            && (Refers(a, name, alias) && !Refers(b, name, alias) ==> Designates(from, name, alias, a.id))
            && (Refers(b, name, alias) && !Refers(a, name, alias) ==> Designates(from, name, alias, b.id))
  {
    hide Refers;
    var from := Join(LeftJoin, a, b, 0);
    hide Occurs;
    forall o
      ensures Occurs(from, o) <==> o == a || o == b
    {
      OccursInPair(a, b, o);
    }
  }

  lemma {:induction false} OccursInPair(a: From, b: From, o: From)
    requires a.Table? && b.Table?
    ensures Occurs(Join(LeftJoin, a, b, 0), o) <==> o == a || o == b
  {
    assert Occurs(a, o) <==> o == a;
    assert Occurs(b, o) <==> o == b;
  }

  /** employees LEFT JOIN employees m: the code takes the table without an alias for m, and keeps the
      columns of m NotNull although they can be NULL. */
  lemma {:induction false} SelfJoinUnsound()
    ensures var from := Join(LeftJoin, Table(0, "employees", None), Table(1, "employees", Some("m")), 0);
            var col := Column(true, Some("employees"), "m", false);
            ColumnOf(from, col, 1) && Demote(col, from).notNull && CanBeNull(from, 1)
  {
    hide CanBeNull, Designates, Distinct;
    var a, m := Table(0, "employees", None), Table(1, "employees", Some("m"));
    assert |"employees"| != |"m"|;
    PairDesignates(a, m, "employees", "m");
    OuterPair(a, m);
  }

  /** employees e LEFT JOIN employees m: told apart by their aliases, the columns of e stay NotNull and
      those of m do not. */
  lemma {:induction false} SelfJoinTold()
    ensures var from := Join(LeftJoin, Table(0, "employees", Some("e")), Table(1, "employees", Some("m")), 0);
            var e, m := Column(true, Some("employees"), "e", false), Column(true, Some("employees"), "m", false);
            && ColumnOf(from, e, 0) && Demote(e, from).notNull && !CanBeNull(from, 0)
            && ColumnOf(from, m, 1) && !Demote(m, from).notNull && CanBeNull(from, 1)
  {
    hide CanBeNull, Designates, Distinct;
    var e, m := Table(0, "employees", Some("e")), Table(1, "employees", Some("m"));
    assert "e"[0] != "m"[0];
    PairDesignates(e, m, "employees", "e");
    PairDesignates(e, m, "employees", "m");
    OuterPair(e, m);
  }
}
