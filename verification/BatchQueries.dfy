/** The queries of a batch plan: what they are made of, how they are spelled, and what they ask for. The
    spelling is a sequence of SQL words and of expressions left as they are, and can be read back. */
module BatchQueries {
  import opened Common
  import opened BatchRounds

  // ----- what the queries are made of -----

  /** row_number() over these expressions, in the order of a column, has to be the round. */
  datatype Window = Window(partition: seq<string>, order: string)

  /** left = (right) */
  datatype Equation = Equation(left: string, right: string)

  datatype Select = Select(exprs: seq<string>, rows: string, qualify: Option<Window>)
  datatype Rounds = Rounds(rows: string, group: seq<string>)
  datatype Read = Read(elem: string, items: seq<string>, rows: string, table: string, on: seq<Equation>, order: string)

  const ORD := "sqlc_b.sqlc_ord"
  const ELEM := "sqlc_b.sqlc_elem"

  // ----- how they are spelled -----

  datatype Token = Word(w: string) | Sql(e: string)

  function Text(ts: seq<Token>): string {
    if ts == [] then "" else (match ts[0] case Word(w) => w case Sql(e) => e) + Text(ts[1..])
  }

  function List(es: seq<string>, sep: string): seq<Token> {
    if es == [] then [] else if |es| == 1 then [Sql(es[0])] else [Sql(es[0]), Word(sep)] + List(es[1..], sep)
  }

  function Equations(on: seq<Equation>): seq<Token> {
    if on == [] then []
    else EquationTokens(on[0]) + if |on| == 1 then [] else [Word(" AND ")] + Equations(on[1..])
  }

  function EquationTokens(e: Equation): seq<Token> { [Sql(e.left), Word(" = ("), Sql(e.right), Word(")")] }

  function WindowTokens(w: Window): seq<Token> {
    [Word(" QUALIFY row_number() OVER (PARTITION BY ")] + List(w.partition, ", ") + [Word(" ORDER BY "), Sql(w.order), Word(") = $2")]
  }

  function SelectTokens(q: Select): seq<Token> {
    [Word("SELECT ")] + List(q.exprs, ", ") + [Word(" FROM "), Sql(q.rows)]
    + if q.qualify.None? then [] else WindowTokens(q.qualify.value)
  }

  function RoundsTokens(q: Rounds): seq<Token> {
    [Word("SELECT coalesce(max(n), 0)::BIGINT FROM (SELECT count(*) AS n FROM "), Sql(q.rows), Word(" GROUP BY ")]
    + List(q.group, ", ") + [Word(")")]
  }

  function ReadTokens(q: Read): seq<Token> {
    [Word("SELECT "), Sql(q.elem), Word(", ")] + List(q.items, ", ")
    + [Word(" FROM "), Sql(q.rows), Word(" JOIN "), Sql(q.table), Word(" ON ")]
    + Equations(q.on) + [Word(" ORDER BY "), Sql(q.order)]
  }

  // ----- the spelling can be read back -----

  /** The tokens after a word, if it stands there. */
  function After(ts: Option<seq<Token>>, w: string): Option<seq<Token>> {
    if ts.Some? && ts.value != [] && ts.value[0] == Word(w) then Some(ts.value[1..]) else None
  }

  datatype Parsed<T> = Parsed(value: T, rest: seq<Token>)

  function One(ts: Option<seq<Token>>): Option<Parsed<string>> {
    if ts.Some? && ts.value != [] && ts.value[0].Sql? then Some(Parsed(ts.value[0].e, ts.value[1..])) else None
  }

  function Rest<T>(p: Option<Parsed<T>>): Option<seq<Token>> { if p.None? then None else Some(p.value.rest) }

  function ListOf(ts: seq<Token>, sep: string): Option<Parsed<seq<string>>> {
    if ts == [] || !ts[0].Sql? then None
    else if |ts| >= 2 && ts[1] == Word(sep) then
      var more := ListOf(ts[2..], sep);
      if more.None? then None else Some(Parsed([ts[0].e] + more.value.value, more.value.rest))
    else Some(Parsed([ts[0].e], ts[1..]))
  }

  function SomeList(ts: Option<seq<Token>>, sep: string): Option<Parsed<seq<string>>> {
    if ts.None? then None else ListOf(ts.value, sep)
  }

  function EquationsOf(ts: seq<Token>): Option<Parsed<seq<Equation>>>
    decreases |ts|
  {
    if |ts| < 4 || !ts[0].Sql? || ts[1] != Word(" = (") || !ts[2].Sql? || ts[3] != Word(")") then None
    else if |ts| >= 5 && ts[4] == Word(" AND ") then
      var more := EquationsOf(ts[5..]);
      if more.None? then None else Some(Parsed([Equation(ts[0].e, ts[2].e)] + more.value.value, more.value.rest))
    else Some(Parsed([Equation(ts[0].e, ts[2].e)], ts[4..]))
  }

  function SelectOf(ts: seq<Token>): Option<Select> {
    var exprs := SomeList(After(Some(ts), "SELECT "), ", ");
    var rows := One(After(Rest(exprs), " FROM "));
    if rows.None? then None
    else if rows.value.rest == [] then Some(Select(exprs.value.value, rows.value.value, None))
    else
      var partition := SomeList(After(Rest(rows), " QUALIFY row_number() OVER (PARTITION BY "), ", ");
      var order := One(After(Rest(partition), " ORDER BY "));
      if After(Rest(order), ") = $2") == Some([]) then
        Some(Select(exprs.value.value, rows.value.value, Some(Window(partition.value.value, order.value.value))))
      else None
  }

  function RoundsOf(ts: seq<Token>): Option<Rounds> {
    var rows := One(After(Some(ts), "SELECT coalesce(max(n), 0)::BIGINT FROM (SELECT count(*) AS n FROM "));
    var group := SomeList(After(Rest(rows), " GROUP BY "), ", ");
    if After(Rest(group), ")") == Some([]) then Some(Rounds(rows.value.value, group.value.value)) else None
  }

  /** The part of a read query from FROM on. */
  datatype Join = Join(rows: string, table: string, on: seq<Equation>, order: string)

  function JoinOf(ts: Option<seq<Token>>): Option<Join> {
    var rows := One(After(ts, " FROM "));
    var table := One(After(Rest(rows), " JOIN "));
    var at := After(Rest(table), " ON ");
    var on := if at.None? then None else EquationsOf(at.value);
    var order := One(After(Rest(on), " ORDER BY "));
    if order.Some? && order.value.rest == [] then
      Some(Join(rows.value.value, table.value.value, on.value.value, order.value.value))
    else None
  }

  function ReadOf(ts: seq<Token>): Option<Read> {
    var elem := One(After(Some(ts), "SELECT "));
    var items := SomeList(After(Rest(elem), ", "), ", ");
    var join := JoinOf(Rest(items));
    if join.None? then None
    else Some(Read(elem.value.value, items.value.value, join.value.rows, join.value.table, join.value.on, join.value.order))
  }

  lemma {:induction false} ListOfMore(e: string, sep: string, more: seq<Token>)
    ensures ListOf([Sql(e), Word(sep)] + more, sep) ==
            if ListOf(more, sep).None? then None
            else Some(Parsed([e] + ListOf(more, sep).value.value, ListOf(more, sep).value.rest))
  {
    assert ([Sql(e), Word(sep)] + more)[2..] == more;
  }

  lemma {:induction false} ListOfLast(e: string, sep: string, rest: seq<Token>)
    requires rest == [] || rest[0] != Word(sep)
    ensures ListOf([Sql(e)] + rest, sep) == Some(Parsed([e], rest))
  {
    assert ([Sql(e)] + rest)[1..] == rest;
  }

  lemma {:induction false} ListBack(es: seq<string>, sep: string, rest: seq<Token>)
    requires es != [] && (rest == [] || rest[0] != Word(sep))
    ensures ListOf(List(es, sep) + rest, sep) == Some(Parsed(es, rest))
  {
    hide ListOf;
    assert es == [es[0]] + es[1..];
    if |es| == 1 {
      assert es == [es[0]];
      ListOfLast(es[0], sep, rest);
    } else {
      var more := List(es[1..], sep);
      ListBack(es[1..], sep, rest);
      ListOfMore(es[0], sep, more + rest);
      AppendAssoc([Sql(es[0]), Word(sep)], more, rest);
    }
  }

  lemma {:induction false} EquationsOfMore(e: Equation, more: seq<Token>)
    ensures EquationsOf(EquationTokens(e) + ([Word(" AND ")] + more)) ==
            if EquationsOf(more).None? then None
            else Some(Parsed([e] + EquationsOf(more).value.value, EquationsOf(more).value.rest))
  {
    var ts := EquationTokens(e) + ([Word(" AND ")] + more);
    assert ts[5..] == more;
  }

  lemma {:induction false} EquationsOfLast(e: Equation, rest: seq<Token>)
    requires rest == [] || rest[0] != Word(" AND ")
    ensures EquationsOf(EquationTokens(e) + rest) == Some(Parsed([e], rest))
  {
    var ts := EquationTokens(e) + rest;
    assert ts[4..] == rest;
  }

  lemma {:induction false} EquationsBack(on: seq<Equation>, rest: seq<Token>)
    requires on != [] && (rest == [] || rest[0] != Word(" AND "))
    ensures EquationsOf(Equations(on) + rest) == Some(Parsed(on, rest))
  {
    hide EquationsOf;
    assert on == [on[0]] + on[1..];
    EquationsStep(on);
    if |on| == 1 {
      assert on == [on[0]];
      EquationsOfLast(on[0], rest);
    } else {
      var more := Equations(on[1..]);
      EquationsBack(on[1..], rest);
      EquationsOfMore(on[0], more + rest);
      assert Equations(on) + rest == EquationTokens(on[0]) + ([Word(" AND ")] + (more + rest));
    }
  }

  lemma {:induction false} EquationsStep(on: seq<Equation>)
    requires on != []
    ensures |on| == 1 ==> Equations(on) == EquationTokens(on[0])
    ensures |on| > 1 ==> Equations(on) == EquationTokens(on[0]) + ([Word(" AND ")] + Equations(on[1..]))
  {
  }

  /** What follows a token, and the token itself. */
  lemma {:induction false} Next(t: Token, rest: seq<Token>)
    ensures t.Word? ==> After(Some([t] + rest), t.w) == Some(rest)
    ensures t.Sql? ==> One(Some([t] + rest)) == Some(Parsed(t.e, rest))
  {
    assert ([t] + rest)[1..] == rest;
  }

  lemma {:induction false} WindowBack(w: Window)
    requires w.partition != []
    ensures var partition := SomeList(After(Some(WindowTokens(w)), " QUALIFY row_number() OVER (PARTITION BY "), ", ");
            var order := One(After(Rest(partition), " ORDER BY "));
            && partition.Some? && partition.value.value == w.partition
            && order.Some? && order.value.value == w.order && After(Rest(order), ") = $2") == Some([])
  {
    hide ListOf, List;
    var tail := [Word(" ORDER BY "), Sql(w.order), Word(") = $2")];
    var list := List(w.partition, ", ") + tail;
    assert WindowTokens(w) == [Word(" QUALIFY row_number() OVER (PARTITION BY ")] + list;
    Next(Word(" QUALIFY row_number() OVER (PARTITION BY "), list);
    assert " ORDER BY "[0] != ", "[0];
    ListBack(w.partition, ", ", tail);
    assert tail == [Word(" ORDER BY ")] + [Sql(w.order), Word(") = $2")];
    Next(Word(" ORDER BY "), [Sql(w.order), Word(") = $2")]);
    assert [Sql(w.order), Word(") = $2")] == [Sql(w.order)] + [Word(") = $2")];
    Next(Sql(w.order), [Word(") = $2")]);
    assert [Word(") = $2")] == [Word(") = $2")] + [];
    Next(Word(") = $2"), []);
  }

  /** The write query as it is spelled asks for what it is made of. */
  lemma {:induction false} SelectBack(q: Select)
    requires q.exprs != [] && (q.qualify.Some? ==> q.qualify.value.partition != [])
    ensures SelectOf(SelectTokens(q)) == Some(q)
  {
    hide ListOf, List, WindowTokens;
    var window := if q.qualify.None? then [] else WindowTokens(q.qualify.value);
    var tail := [Word(" FROM ")] + ([Sql(q.rows)] + window);
    var list := List(q.exprs, ", ") + tail;
    assert SelectTokens(q) == [Word("SELECT ")] + list;
    Next(Word("SELECT "), list);
    assert " FROM "[1] != ", "[1];
    ListBack(q.exprs, ", ", tail);
    Next(Word(" FROM "), [Sql(q.rows)] + window);
    Next(Sql(q.rows), window);
    if q.qualify.Some? {
      WindowBack(q.qualify.value);
      assert window != [] by { NotEmpty(q.qualify.value); }
    }
  }

  lemma {:induction false} NotEmpty(w: Window)
    ensures WindowTokens(w) != []
  {
  }

  lemma {:induction false} RoundsBack(q: Rounds)
    requires q.group != []
    ensures RoundsOf(RoundsTokens(q)) == Some(q)
  {
    hide ListOf, List;
    var first := "SELECT coalesce(max(n), 0)::BIGINT FROM (SELECT count(*) AS n FROM ";
    var list := List(q.group, ", ") + [Word(")")];
    assert RoundsTokens(q) == [Word(first)] + ([Sql(q.rows)] + ([Word(" GROUP BY ")] + list));
    Next(Word(first), [Sql(q.rows)] + ([Word(" GROUP BY ")] + list));
    Next(Sql(q.rows), [Word(" GROUP BY ")] + list);
    Next(Word(" GROUP BY "), list);
    assert |")"| != |", "|;
    ListBack(q.group, ", ", [Word(")")]);
    assert [Word(")")] == [Word(")")] + [];
    Next(Word(")"), []);
  }

  lemma {:induction false} JoinBack(j: Join)
    requires j.on != []
    ensures JoinOf(Some([Word(" FROM "), Sql(j.rows), Word(" JOIN "), Sql(j.table), Word(" ON ")]
                        + (Equations(j.on) + [Word(" ORDER BY "), Sql(j.order)]))) == Some(j)
  {
    hide EquationsOf, Equations;
    var e := [Word(" ORDER BY ")] + [Sql(j.order)];
    assert [Word(" ORDER BY "), Sql(j.order)] == e;
    var d := Equations(j.on) + e;
    var c := [Word(" ON ")] + d;
    var b := [Word(" JOIN ")] + ([Sql(j.table)] + c);
    assert [Word(" FROM "), Sql(j.rows), Word(" JOIN "), Sql(j.table), Word(" ON ")] + d == [Word(" FROM ")] + ([Sql(j.rows)] + b);
    Next(Word(" FROM "), [Sql(j.rows)] + b);
    Next(Sql(j.rows), b);
    Next(Word(" JOIN "), [Sql(j.table)] + c);
    Next(Sql(j.table), c);
    Next(Word(" ON "), d);
    assert " ORDER BY "[1] != " AND "[1];
    EquationsBack(j.on, e);
    Next(Word(" ORDER BY "), [Sql(j.order)]);
    assert [Sql(j.order)] == [Sql(j.order)] + [];
    Next(Sql(j.order), []);
  }

  lemma {:induction false} ReadBack(q: Read)
    requires q.items != [] && q.on != []
    ensures ReadOf(ReadTokens(q)) == Some(q)
  {
    hide ListOf, List, JoinOf, Equations;
    var c := [Word(" FROM "), Sql(q.rows), Word(" JOIN "), Sql(q.table), Word(" ON ")]
             + (Equations(q.on) + [Word(" ORDER BY "), Sql(q.order)]);
    var b := List(q.items, ", ") + c;
    assert ReadTokens(q) == [Word("SELECT ")] + ([Sql(q.elem)] + ([Word(", ")] + b));
    Next(Word("SELECT "), [Sql(q.elem)] + ([Word(", ")] + b));
    Next(Sql(q.elem), [Word(", ")] + b);
    Next(Word(", "), b);
    assert " FROM "[1] != ", "[1];
    ListBack(q.items, ", ", c);
    JoinBack(Join(q.rows, q.table, q.on, q.order));
  }

  // ----- what they ask for -----

  /** A row of the JSON source. */
  datatype JsonRow<D> = JsonRow(ord: int, elem: int, data: D)

  /** What expressions stand for: of a JSON row a value that may be NULL, or one of its two numbers; of a
      row of the table a value that may be NULL. */
  datatype Env<!V, !D, !T> = Env(value: (string, D) -> Option<V>, number: (string, JsonRow<D>) -> int, column: (string, T) -> Option<V>)

  /** The two columns every JSON row has. */
  ghost predicate Numbered<V, D(!new), T>(env: Env<V, D, T>) {
    forall x :: env.number(ORD, x) == x.ord && env.number(ELEM, x) == x.elem
  }

  /** The values of a list of expressions; NULL is a value like another here, as in PARTITION BY. */
  function Values<V, D, T>(env: Env<V, D, T>, es: seq<string>, x: JsonRow<D>): (k: Key<V>)
    ensures |k| == |es|
  {
    seq(|es|, i requires 0 <= i < |es| => env.value(es[i], x.data))
  }

  /** row_number(): one more than the rows before it with the same values. */
  ghost function Number<V, D(!new), T>(env: Env<V, D, T>, w: Window, batch: set<JsonRow<D>>, x: JsonRow<D>): nat {
    1 + |Earlier(env, w, batch, x)|
  }

  ghost function Earlier<V, D(!new), T>(env: Env<V, D, T>, w: Window, batch: set<JsonRow<D>>, x: JsonRow<D>): set<JsonRow<D>> {
    set y | y in batch && Values(env, w.partition, y) == Values(env, w.partition, x) && env.number(w.order, y) < env.number(w.order, x)
  }

  /** The rows the write query selects when $2 is the round. */
  ghost function Selected<V, D(!new), T>(env: Env<V, D, T>, q: Select, batch: set<JsonRow<D>>, round: int): set<JsonRow<D>> {
    set x | x in batch && (q.qualify.Some? ==> Number(env, q.qualify.value, batch, x) == round)
  }

  ghost function GroupSize<V, D, T>(env: Env<V, D, T>, group: seq<string>, batch: set<JsonRow<D>>, x: JsonRow<D>): nat {
    |Group(env, group, batch, x)|
  }

  ghost function Group<V, D, T>(env: Env<V, D, T>, group: seq<string>, batch: set<JsonRow<D>>, x: JsonRow<D>): set<JsonRow<D>> {
    set y | y in batch && Values(env, group, y) == Values(env, group, x)
  }

  /** coalesce(max(count(*)), 0) */
  ghost predicate Counted<V, D(!new), T>(env: Env<V, D, T>, q: Rounds, batch: set<JsonRow<D>>, n: nat) {
    if batch == {} then n == 0
    else
      && (exists x :: x in batch && GroupSize(env, q.group, batch, x) == n)
      && (forall x :: x in batch ==> GroupSize(env, q.group, batch, x) <= n)
  }

  /** Every equation holds; one with NULL on a side does not. */
  ghost predicate OnHolds<V, D, T>(env: Env<V, D, T>, on: seq<Equation>, x: JsonRow<D>, row: T) {
    forall i :: 0 <= i < |on| ==> EquationHolds(env, on[i], x, row)
  }

  predicate EquationHolds<V(==), D, T>(env: Env<V, D, T>, e: Equation, x: JsonRow<D>, row: T) {
    var l, r := env.column(e.left, row), env.value(e.right, x.data);
    l.Some? && r.Some? && l.value == r.value
  }

  /** A table held by key: bucket k, row i. */
  ghost predicate Paired<V, D, T>(env: Env<V, D, T>, q: Read, t: map<Key<V>, seq<T>>, x: JsonRow<D>, k: Key<V>, i: nat) {
    k in t && i < |t[k]| && OnHolds(env, q.on, x, t[k][i])
  }

  /** What the read query may answer: every joined pair once, with the element first, in its order. */
  ghost predicate Answers<V(!new), D, T>(env: Env<V, D, T>, q: Read, t: map<Key<V>, seq<T>>, rows: seq<JsonRow<D>>,
      answer: seq<Tagged<T>>, from: seq<Source<V>>)
  {
    && |from| == |answer|
    && (forall a :: 0 <= a < |from| ==> AnswerOk(env, q, t, rows, answer[a], from[a]))
    && (forall a, b :: 0 <= a < b < |from| ==> NotAfter(env, q.order, rows, from[a], from[b]) && from[a] != from[b])
    && (forall j, k, i :: 0 <= j < |rows| && Paired(env, q, t, rows[j], k, i) ==> Source(j, k, i) in from)
  }

  ghost predicate AnswerOk<V, D, T>(env: Env<V, D, T>, q: Read, t: map<Key<V>, seq<T>>, rows: seq<JsonRow<D>>, y: Tagged<T>, s: Source<V>) {
    s.at < |rows| && Paired(env, q, t, rows[s.at], s.key, s.index) && y == Tagged(env.number(q.elem, rows[s.at]), t[s.key][s.index])
  }

  ghost predicate NotAfter<V, D, T>(env: Env<V, D, T>, order: string, rows: seq<JsonRow<D>>, a: Source<V>, b: Source<V>) {
    a.at < |rows| && b.at < |rows| && env.number(order, rows[a.at]) <= env.number(order, rows[b.at])
  }

  // ----- the queries of a plan -----

  function WriteQuery(rows: string, exprs: seq<string>, keys: seq<string>): Select {
    Select(exprs, rows, if keys == [] then None else Some(Window(keys, ORD)))
  }

  function RoundsQuery(rows: string, keys: seq<string>): Rounds { Rounds(rows, keys) }

  function ReadQuery(rows: string, items: seq<string>, table: string, on: seq<Equation>): Read {
    Read(ELEM, items, rows, table, on, ORD)
  }

  /** A JSON row with the values of the key expressions as its key. */
  function Keyed<V, D, T>(env: Env<V, D, T>, keys: seq<string>, x: JsonRow<D>): Row<Key<V>, D> {
    Row(x.ord, x.elem, Values(env, keys, x), x.data)
  }

  ghost function KeyedAll<V, D, T>(env: Env<V, D, T>, keys: seq<string>, batch: set<JsonRow<D>>): set<Row<Key<V>, D>> {
    set x | x in batch :: Keyed(env, keys, x)
  }

  /** No two rows have one order number. */
  ghost predicate OrdsDiffer<D(!new)>(batch: set<JsonRow<D>>) {
    forall x, y :: x in batch && y in batch && x.ord == y.ord ==> x == y
  }

  lemma {:induction false} KeyedSize<V, D, T>(env: Env<V, D, T>, keys: seq<string>, some: set<JsonRow<D>>)
    ensures |KeyedAll(env, keys, some)| == |some|
    decreases |some|
  {
    if some == {} {
      assert KeyedAll(env, keys, some) == {};
    } else {
      var x :| x in some;
      var rest := some - {x};
      KeyedSize(env, keys, rest);
      assert KeyedAll(env, keys, some) == KeyedAll(env, keys, rest) + {Keyed(env, keys, x)};
      forall y | y in rest
        ensures Keyed(env, keys, y) != Keyed(env, keys, x)
      {
        assert y == JsonRow(y.ord, y.elem, y.data) && x == JsonRow(x.ord, x.elem, x.data);
      }
    }
  }

  /** row_number over the keys is the number of the row among those of its key. */
  lemma {:induction false} NumberIs<V(!new), D(!new), T>(env: Env<V, D, T>, keys: seq<string>, batch: set<JsonRow<D>>, x: JsonRow<D>)
    requires Numbered(env) && OrdsDiffer(batch) && x in batch
    ensures Number(env, Window(keys, ORD), batch, x) == RowNumber(KeyedAll(env, keys, batch), Keyed(env, keys, x))
  {
    var kx := Keyed(env, keys, x);
    var before := Earlier(env, Window(keys, ORD), batch, x);
    var upTo := UpTo(KeyedAll(env, keys, batch), kx);
    KeyedSize(env, keys, before);
    hide Values;
    forall q
      ensures q in upTo <==> q in KeyedAll(env, keys, before) || q == kx
    {
      if q in upTo {
        var y :| y in batch && q == Keyed(env, keys, y);
        assert env.number(ORD, y) == y.ord && env.number(ORD, x) == x.ord;
      }
      if q in KeyedAll(env, keys, before) {
        var y :| y in before && q == Keyed(env, keys, y);
        assert y in batch && env.number(ORD, y) == y.ord && env.number(ORD, x) == x.ord;
      }
    }
    assert upTo == KeyedAll(env, keys, before) + {kx};
    assert kx !in KeyedAll(env, keys, before) by {
      forall y | y in before
        ensures y.ord < x.ord
      {
        assert env.number(ORD, y) == y.ord && env.number(ORD, x) == x.ord;
      }
    }
  }

  /** The write query in round r takes the rows of round r, keyed by the values of the key expressions. */
  lemma {:induction false} WriteTakesRound<V(!new), D(!new), T>(env: Env<V, D, T>, rows: string, exprs: seq<string>, keys: seq<string>,
      batch: set<JsonRow<D>>, r: nat)
    requires Numbered(env) && OrdsDiffer(batch) && keys != []
    ensures KeyedAll(env, keys, Selected(env, WriteQuery(rows, exprs, keys), batch, r)) == Round(KeyedAll(env, keys, batch), r)
  {
    hide Number, RowNumber;
    var q := WriteQuery(rows, exprs, keys);
    forall x | x in batch
      ensures x in Selected(env, q, batch, r) <==> Keyed(env, keys, x) in Round(KeyedAll(env, keys, batch), r)
    {
      NumberIs(env, keys, batch, x);
      assert Keyed(env, keys, x) in KeyedAll(env, keys, batch);
    }
  }

  /** Without keys it takes every row. */
  lemma {:induction false} WriteTakesAll<V, D(!new), T>(env: Env<V, D, T>, rows: string, exprs: seq<string>, batch: set<JsonRow<D>>, r: int)
    ensures Selected(env, WriteQuery(rows, exprs, []), batch, r) == batch
  {
  }

  lemma {:induction false} GroupIs<V(!new), D(!new), T>(env: Env<V, D, T>, keys: seq<string>, batch: set<JsonRow<D>>, x: JsonRow<D>)
    ensures GroupSize(env, keys, batch, x) == Count(KeyedAll(env, keys, batch), Values(env, keys, x))
  {
    hide Values;
    var group := Group(env, keys, batch, x);
    KeyedSize(env, keys, group);
    var all := KeyedAll(env, keys, batch);
    var k := Values(env, keys, x);
    assert OfKey(all, k) == KeyedAll(env, keys, group);
  }

  /** The rounds query answers how many rounds there are. */
  lemma {:induction false} RoundsCounts<V(!new), D(!new), T>(env: Env<V, D, T>, rows: string, keys: seq<string>,
      batch: set<JsonRow<D>>, n: nat)
    ensures Counted(env, RoundsQuery(rows, keys), batch, n) <==> IsRounds(KeyedAll(env, keys, batch), n)
  {
    hide Count, GroupSize, Values;
    var all := KeyedAll(env, keys, batch);
    forall x | x in batch
      ensures Keyed(env, keys, x) in all && GroupSize(env, keys, batch, x) == Count(all, Keyed(env, keys, x).key)
    {
      GroupIs(env, keys, batch, x);
    }
    if batch == {} {
      assert all == {};
    } else {
      var x :| x in batch;
      assert Keyed(env, keys, x) in all;
    }
  }

  // ----- reading back -----

  /** Every row is held under the values of its key columns. */
  ghost predicate HeldByKey<V(!new), D, T(!new)>(env: Env<V, D, T>, columns: seq<string>, t: map<Key<V>, seq<T>>) {
    forall k, i :: k in t && 0 <= i < |t[k]| ==> HoldsKey(env, columns, k, t[k][i])
  }

  ghost predicate HoldsKey<V, D, T>(env: Env<V, D, T>, columns: seq<string>, k: Key<V>, row: T) {
    |k| == |columns| && forall i :: 0 <= i < |k| ==> env.column(columns[i], row) == k[i]
  }

  /** One equation for each key: the table's column and the key expression. */
  ghost predicate KeyEquations(columns: seq<string>, keys: seq<string>, on: seq<Equation>) {
    |on| == |columns| == |keys| && forall i :: 0 <= i < |on| ==> on[i] == Equation(columns[i], keys[i])
  }

  function KeyedSeq<V, D, T>(env: Env<V, D, T>, keys: seq<string>, rows: seq<JsonRow<D>>): (r: seq<Row<Key<V>, D>>)
    ensures |r| == |rows| && forall i :: 0 <= i < |r| ==> r[i] == Keyed(env, keys, rows[i])
  {
    seq(|rows|, i requires 0 <= i < |rows| => Keyed(env, keys, rows[i]))
  }

  lemma {:induction false} OnIsEqual<V, D, T>(env: Env<V, D, T>, columns: seq<string>, keys: seq<string>, on: seq<Equation>,
      x: JsonRow<D>, k: Key<V>, row: T)
    requires KeyEquations(columns, keys, on) && HoldsKey(env, columns, k, row)
    ensures OnHolds(env, on, x, row) <==> SqlEqual(k, Values(env, keys, x))
  {
    forall i | 0 <= i < |on|
      ensures EquationHolds(env, on[i], x, row) <==> k[i].Some? && Values(env, keys, x)[i].Some? && k[i].value == Values(env, keys, x)[i].value
    {
    }
  }

  lemma {:induction false} PairedIs<V(!new), D, T(!new)>(env: Env<V, D, T>, q: Read, columns: seq<string>, keys: seq<string>,
      t: map<Key<V>, seq<T>>, x: JsonRow<D>, k: Key<V>, i: nat)
    requires HeldByKey(env, columns, t) && KeyEquations(columns, keys, q.on)
    ensures Paired(env, q, t, x, k, i) <==> Joins(t, Keyed(env, keys, x), k, i)
  {
    hide OnHolds, SqlEqual, Values, HoldsKey;
    if k in t && i < |t[k]| {
      assert HoldsKey(env, columns, k, t[k][i]);
      OnIsEqual(env, columns, keys, q.on, x, k, t[k][i]);
    }
  }

  /** The read query answers, row for row and in order, what reading back by key does. */
  lemma {:induction false} ReadReadsBack<V(!new), D(!new), T(!new)>(env: Env<V, D, T>, rows: string, items: seq<string>, table: string,
      columns: seq<string>, keys: seq<string>, on: seq<Equation>, t: map<Key<V>, seq<T>>, order: seq<JsonRow<D>>,
      answer: seq<Tagged<T>>, from: seq<Source<V>>)
    requires Numbered(env) && HeldByKey(env, columns, t) && KeyEquations(columns, keys, on)
    requires forall i, j :: 0 <= i < j < |order| ==> order[i].ord < order[j].ord
    ensures Answers(env, ReadQuery(rows, items, table, on), t, order, answer, from)
            <==> ReadsBack(t, KeyedSeq(env, keys, order), answer, from)
  {
    hide Paired, Joins, HeldByKey, KeyEquations;
    var q := ReadQuery(rows, items, table, on);
    var keyed := KeyedSeq(env, keys, order);
    forall j, k: Key<V>, i: nat | 0 <= j < |order|
      ensures Paired(env, q, t, order[j], k, i) <==> Joins(t, keyed[j], k, i)
    {
      PairedIs(env, q, columns, keys, t, order[j], k, i);
    }
    forall a | 0 <= a < |from| && |from| == |answer|
      ensures AnswerOk(env, q, t, order, answer[a], from[a]) <==> SourceOk(t, keyed, answer[a], from[a])
    {
      SameAnswer(env, q, keys, t, order, answer[a], from[a]);
    }
    forall a, b | 0 <= a < b < |from| && from[a].at < |order| && from[b].at < |order|
      ensures NotAfter(env, q.order, order, from[a], from[b]) <==> from[a].at <= from[b].at
    {
      assert env.number(ORD, order[from[a].at]) == order[from[a].at].ord;
      assert env.number(ORD, order[from[b].at]) == order[from[b].at].ord;
    }
    SameAnswers(env, q, keys, t, order, answer, from);
  }

  lemma {:induction false} SameAnswer<V, D, T>(env: Env<V, D, T>, q: Read, keys: seq<string>, t: map<Key<V>, seq<T>>,
      order: seq<JsonRow<D>>, y: Tagged<T>, s: Source<V>)
    requires q.elem == ELEM && forall j | 0 <= j < |order| :: env.number(ELEM, order[j]) == order[j].elem
    requires s.at < |order| ==>
               (Paired(env, q, t, order[s.at], s.key, s.index) <==> Joins(t, KeyedSeq(env, keys, order)[s.at], s.key, s.index))
    ensures AnswerOk(env, q, t, order, y, s) <==> SourceOk(t, KeyedSeq(env, keys, order), y, s)
  {
  }

  lemma {:induction false} SameAnswers<V(!new), D, T>(env: Env<V, D, T>, q: Read, keys: seq<string>, t: map<Key<V>, seq<T>>,
      order: seq<JsonRow<D>>, answer: seq<Tagged<T>>, from: seq<Source<V>>)
    requires forall j, k: Key<V>, i: nat :: 0 <= j < |order| ==> (Paired(env, q, t, order[j], k, i) <==> Joins(t, KeyedSeq(env, keys, order)[j], k, i))
    requires |from| == |answer| ==> forall a :: 0 <= a < |from| ==> (AnswerOk(env, q, t, order, answer[a], from[a]) <==> SourceOk(t, KeyedSeq(env, keys, order), answer[a], from[a]))
    requires forall a, b :: 0 <= a < b < |from| && from[a].at < |order| && from[b].at < |order| ==>
               (NotAfter(env, q.order, order, from[a], from[b]) <==> from[a].at <= from[b].at)
    ensures Answers(env, q, t, order, answer, from) <==> ReadsBack(t, KeyedSeq(env, keys, order), answer, from)
  {
    hide Paired, Joins;
  }
}
