/** planDuckDBBatch of internal/compiler/batch_duckdb.go: which batches leave the row-by-row loop, how
    their expressions are rewritten, and when a plan reads back. Positions are relative to the
    statement. How a column type travels as JSON, and the SELECT that unpacks the JSON rows, are
    parameters. */
module BatchPlans {
  import opened Common
  import Text
  import opened SourceEdits
  import opened EditSubstitution
  import Q = BatchQueries

  datatype Placeholder = Placeholder(number: int, start: int, end: int)
  datatype Span = Span(from: nat, to: nat)

  /** An item of RETURNING: a star, or an expression with its place. */
  datatype Item = Star | Expr(span: Span)

  /** `values` spans the row, `returning` the RETURNING clause when there are items. */
  datatype BatchSource = BatchSource(
    keys: seq<string>, params: seq<Placeholder>, unnest: seq<Placeholder>, exprs: seq<Span>, columns: seq<string>,
    onConflict: bool, doNothing: bool, merge: bool, values: Span, returning: Span, items: seq<Item>,
    table: string, qualifier: string)

  /** A parameter of the query; the column may be unknown. */
  datatype Param<C> = Param(number: int, column: Option<C>)

  /** carried: how the SQL turns the JSON field back into a value, or None for a type that does not
      travel; elementOf: the element type of an array column. */
  datatype Types<!C> = Types(carried: C -> Option<string -> string>, elementOf: C -> Option<C>)

  datatype Plan =
    | Loop
    | Json(each: bool, unnest: set<int>, exprs: seq<string>, keys: seq<string>,
           write: string, rounds: Option<string>, read: Option<string>)

  // ----- what is accepted -----

  function Numbers(ps: seq<Placeholder>): set<int> { set i | 0 <= i < |ps| :: ps[i].number }

  predicate Encloses(u: Placeholder, p: Placeholder) {
    u.number == p.number && p.start >= u.start && p.end <= u.end
  }

  predicate Enclosed(unnest: seq<Placeholder>, p: Placeholder) {
    exists i :: 0 <= i < |unnest| && Encloses(unnest[i], p)
  }

  function WrapOf<C>(types: Types<C>, unnested: set<int>, p: Param<C>): Option<string -> string> {
    if p.column.None? then None
    else if p.number in unnested then
      var elem := types.elementOf(p.column.value);
      if elem.None? then None else types.carried(elem.value)
    else types.carried(p.column.value)
  }

  predicate Travels<C>(types: Types<C>, b: BatchSource, p: Param<C>) {
    p.number in Numbers(b.params) && WrapOf(types, Numbers(b.unnest), p).Some?
  }

  predicate Returns(b: BatchSource) { b.items != [] }

  predicate Each(b: BatchSource) { Returns(b) && !b.onConflict && !b.merge }

  predicate ReadsBack(b: BatchSource) { Returns(b) && !Each(b) }

  /** strings.EqualFold */
  predicate SameFold(a: string, b: string) { Text.ToLower(a) == Text.ToLower(b) }

  /** The last column of that name, whatever its case, or -1. */
  function ColumnIndex(columns: seq<string>, k: string): (r: int)
    ensures -1 <= r < |columns|
    ensures r >= 0 ==> SameFold(columns[r], k)
    ensures forall i :: r < i < |columns| ==> !SameFold(columns[i], k)
  {
    if columns == [] then -1
    else if SameFold(columns[|columns| - 1], k) then |columns| - 1
    else ColumnIndex(columns[..|columns| - 1], k)
  }

  predicate HasExpr(b: BatchSource, k: string) { 0 <= ColumnIndex(b.columns, k) < |b.exprs| }

  predicate GatesOpen(b: BatchSource, notNull: string -> bool) {
    && !(ReadsBack(b) && (b.merge || b.doNothing))
    && (b.onConflict || b.merge ==> b.keys != [])
    && (ReadsBack(b) ==> forall i :: 0 <= i < |b.keys| ==> notNull(b.keys[i]))
  }

  predicate UnnestsClosed(b: BatchSource) {
    forall i :: 0 <= i < |b.params| && b.params[i].number in Numbers(b.unnest) ==> Enclosed(b.unnest, b.params[i])
  }

  predicate Accepted<C>(b: BatchSource, params: seq<Param<C>>, notNull: string -> bool, types: Types<C>) {
    && params != [] && GatesOpen(b, notNull) && UnnestsClosed(b)
    && (forall i :: 0 <= i < |params| ==> Travels(types, b, params[i]))
    && (forall i :: 0 <= i < |b.keys| ==> HasExpr(b, b.keys[i]))
  }

  // ----- the rewriting -----

  /** The last parameter with a number decides its wrap. */
  function Wraps<C>(types: Types<C>, unnested: set<int>, params: seq<Param<C>>): map<int, string -> string> {
    if params == [] then map[]
    else
      var last := params[|params| - 1];
      var m := Wraps(types, unnested, params[..|params| - 1]);
      var w := WrapOf(types, unnested, last);
      if w.Some? then m[last.number := w.value] else m
  }

  /** The JSON column of placeholder n, wrapped as its type needs. */
  function Ref(wraps: map<int, string -> string>, name: int -> string, n: int): string {
    if n in wraps then wraps[n]("sqlc_b.p" + name(n)) else "sqlc_b.p" + name(n)
  }

  function CutFor(wraps: map<int, string -> string>, name: int -> string, p: Placeholder): Cut {
    Cut(p.start, p.end, Ref(wraps, name, p.number))
  }

  /** The placeholders that are replaced: every unnest, and every placeholder that is not unnested. */
  function Replaced(b: BatchSource): seq<Placeholder> {
    b.unnest + Outside(b.params, Numbers(b.unnest))
  }

  function Outside(ps: seq<Placeholder>, unnested: set<int>): seq<Placeholder> {
    if ps == [] then []
    else
      var last := ps[|ps| - 1];
      Outside(ps[..|ps| - 1], unnested) + if last.number in unnested then [] else [last]
  }

  function Edits(wraps: map<int, string -> string>, name: int -> string, ps: seq<Placeholder>): (r: seq<Cut>)
    ensures |r| == |ps| && forall i :: 0 <= i < |r| ==> r[i] == CutFor(wraps, name, ps[i])
  {
    seq(|ps|, i requires 0 <= i < |ps| => CutFor(wraps, name, ps[i]))
  }

  lemma {:induction false} OutsideMembers(ps: seq<Placeholder>, unnested: set<int>, p: Placeholder)
    ensures p in Outside(ps, unnested) <==> p in ps && p.number !in unnested
  {
    if ps != [] {
      var init, last := ps[..|ps| - 1], ps[|ps| - 1];
      OutsideMembers(init, unnested, p);
      assert ps == init + [last];
    }
  }

  /** No placeholder stays in the rewritten row: each lies inside a replaced span of its own number. */
  lemma {:induction false} NothingLeft(b: BatchSource, p: Placeholder)
    requires UnnestsClosed(b) && p in b.params
    ensures exists c :: c in Replaced(b) && c.number == p.number && c.start <= p.start && p.end <= c.end
  {
    hide Numbers;
    OutsideMembers(b.params, Numbers(b.unnest), p);
    var i :| 0 <= i < |b.params| && b.params[i] == p;
    if p.number in Numbers(b.unnest) {
      var j :| 0 <= j < |b.unnest| && Encloses(b.unnest[j], p);
      assert b.unnest[j] in Replaced(b);
    } else {
      assert p in Replaced(b);
    }
  }

  /** The last parameter with this number. */
  ghost predicate LastOf<C(!new)>(params: seq<Param<C>>, i: int, n: int) {
    0 <= i < |params| && params[i].number == n && forall j :: i < j < |params| ==> params[j].number != n
  }

  /** What stands for placeholder n: its JSON column, turned back into a value of the type of the last
      parameter with that number, of the elements' type where the placeholder is unnested. */
  lemma {:induction false} RefMeans<C(!new)>(types: Types<C>, unnested: set<int>, params: seq<Param<C>>, name: int -> string, i: int, n: int)
    requires LastOf(params, i, n) && forall j :: 0 <= j < |params| ==> WrapOf(types, unnested, params[j]).Some?
    ensures Ref(Wraps(types, unnested, params), name, n) == WrapOf(types, unnested, params[i]).value("sqlc_b.p" + name(n))
    ensures params[i].column.Some? && n !in unnested ==>
              types.carried(params[i].column.value) == WrapOf(types, unnested, params[i])
    ensures params[i].column.Some? && n in unnested ==>
              types.elementOf(params[i].column.value).Some?
              && types.carried(types.elementOf(params[i].column.value).value) == WrapOf(types, unnested, params[i])
    decreases |params|
  {
    if i < |params| - 1 {
      var init := params[..|params| - 1];
      assert forall j :: 0 <= j < |init| ==> init[j] == params[j];
      RefMeans(types, unnested, init, name, i, n);
      RefKnown(types, unnested, init, i);
    }
  }

  lemma {:induction false} RefKnown<C(!new)>(types: Types<C>, unnested: set<int>, params: seq<Param<C>>, i: nat)
    requires i < |params| && WrapOf(types, unnested, params[i]).Some?
    ensures params[i].number in Wraps(types, unnested, params)
    decreases |params|
  {
    if i < |params| - 1 {
      RefKnown(types, unnested, params[..|params| - 1], i);
    }
  }

  /** What the parser promises: placeholders to replace are nonempty and disjoint, expressions lie in
      the text. */
  ghost predicate Parsed(rawSQL: string, b: BatchSource) {
    && (forall i :: 0 <= i < |b.exprs| ==> b.exprs[i].from <= b.exprs[i].to <= |rawSQL|)
    && (forall i :: 0 <= i < |Replaced(b)| ==> Replaced(b)[i].start < Replaced(b)[i].end)
    && (forall i, j :: 0 <= i < j < |Replaced(b)| ==>
          Replaced(b)[i].end <= Replaced(b)[j].start || Replaced(b)[j].end <= Replaced(b)[i].start)
    && b.values.from <= b.values.to <= |rawSQL|
    && (Returns(b) ==> b.values.to <= b.returning.from <= b.returning.to <= |rawSQL|)
    && (forall i :: 0 <= i < |b.items| && b.items[i].Expr? ==> b.items[i].span.from <= b.items[i].span.to <= |rawSQL|)
  }

  // ----- the loops -----

  method KeysRefuseNull(keys: seq<string>, notNull: string -> bool) returns (ok: bool)
    ensures ok <==> forall i :: 0 <= i < |keys| ==> notNull(keys[i])
  {
    for i := 0 to |keys|
      invariant forall j :: 0 <= j < i ==> notNull(keys[j])
    {
      if !notNull(keys[i]) {
        return false;
      }
    }
    return true;
  }

  method CollectNumbers(ps: seq<Placeholder>) returns (ns: set<int>)
    ensures ns == Numbers(ps)
  {
    ns := {};
    for i := 0 to |ps|
      invariant ns == set j | 0 <= j < i :: ps[j].number
    {
      ns := ns + {ps[i].number};
    }
  }

  method CheckUnnested(b: BatchSource, unnested: set<int>) returns (ok: bool)
    requires unnested == Numbers(b.unnest)
    ensures ok <==> UnnestsClosed(b)
  {
    hide Numbers;
    for i := 0 to |b.params|
      invariant forall j :: 0 <= j < i && b.params[j].number in unnested ==> Enclosed(b.unnest, b.params[j])
    {
      if b.params[i].number in unnested {
        var inside := false;
        for j := 0 to |b.unnest|
          invariant inside <==> exists k :: 0 <= k < j && Encloses(b.unnest[k], b.params[i])
        {
          if Encloses(b.unnest[j], b.params[i]) {
            inside := true;
          }
        }
        if !inside {
          return false;
        }
      }
    }
    return true;
  }

  method CollectWraps<C>(b: BatchSource, params: seq<Param<C>>, types: Types<C>, inValues: set<int>, unnested: set<int>)
    returns (ok: bool, wraps: map<int, string -> string>)
    requires inValues == Numbers(b.params) && unnested == Numbers(b.unnest)
    ensures ok <==> forall i :: 0 <= i < |params| ==> Travels(types, b, params[i])
    ensures ok ==> wraps == Wraps(types, unnested, params)
  {
    hide Numbers;
    wraps := map[];
    for i := 0 to |params|
      invariant forall j :: 0 <= j < i ==> Travels(types, b, params[j])
      invariant wraps == Wraps(types, unnested, params[..i])
    {
      var p := params[i];
      assert params[..i + 1][..i] == params[..i];
      if p.number !in inValues || p.column.None? {
        return false, wraps;
      }
      var col := p.column.value;
      if p.number in unnested {
        var elem := types.elementOf(col);
        if elem.None? {
          return false, wraps;
        }
        col := elem.value;
      }
      var wrap := types.carried(col);
      if wrap.None? {
        return false, wraps;
      }
      wraps := wraps[p.number := wrap.value];
    }
    assert params[..|params|] == params;
    ok := true;
  }

  method FindColumn(columns: seq<string>, k: string) returns (idx: int)
    ensures idx == ColumnIndex(columns, k) && -1 <= idx < |columns|
    ensures idx >= 0 ==> SameFold(columns[idx], k)
    ensures forall i :: idx < i < |columns| ==> !SameFold(columns[i], k)
  {
    idx := -1;
    for i := 0 to |columns|
      invariant idx == ColumnIndex(columns[..i], k)
    {
      assert columns[..i + 1][..i] == columns[..i];
      if SameFold(columns[i], k) {
        idx := i;
      }
    }
    assert columns[..|columns|] == columns;
  }

  method CollectKeys(b: BatchSource, exprs: seq<string>) returns (ok: bool, keys: seq<string>)
    requires |exprs| == |b.exprs|
    ensures ok <==> forall i :: 0 <= i < |b.keys| ==> HasExpr(b, b.keys[i])
    ensures ok ==> |keys| == |b.keys| && KeysAre(b, exprs, keys)
  {
    hide ColumnIndex;
    keys := [];
    for i := 0 to |b.keys|
      invariant |keys| == i
      invariant forall j :: 0 <= j < i ==> HasExpr(b, b.keys[j]) && keys[j] == exprs[ColumnIndex(b.columns, b.keys[j])]
    {
      var idx := FindColumn(b.columns, b.keys[i]);
      if idx < 0 || idx >= |exprs| {
        return false, keys;
      }
      keys := keys + [exprs[idx]];
    }
    ok := true;
  }

  method CollectEdits(b: BatchSource, unnested: set<int>, wraps: map<int, string -> string>, name: int -> string)
    returns (edits: array<Cut>)
    requires unnested == Numbers(b.unnest)
    ensures fresh(edits) && edits[..] == Edits(wraps, name, Replaced(b))
  {
    hide CutFor, Numbers;
    var list: seq<Cut> := [];
    for i := 0 to |b.unnest|
      invariant list == Edits(wraps, name, b.unnest[..i])
    {
      list := list + [CutFor(wraps, name, b.unnest[i])];
    }
    assert b.unnest[..|b.unnest|] == b.unnest;
    for i := 0 to |b.params|
      invariant list == Edits(wraps, name, b.unnest + Outside(b.params[..i], unnested))
    {
      assert b.params[..i + 1][..i] == b.params[..i];
      if b.params[i].number !in unnested {
        list := list + [CutFor(wraps, name, b.params[i])];
      }
    }
    assert b.params[..|b.params|] == b.params;
    edits := new Cut[|list|](i requires 0 <= i < |list| => list[i]);
    assert edits[..] == list;
  }

  function StartOf(c: Cut): int { c.start }

  /** Nonempty disjoint cuts have distinct starts. */
  lemma {:induction false} EditsDisjoint(rawSQL: string, b: BatchSource, wraps: map<int, string -> string>, name: int -> string)
    requires Parsed(rawSQL, b)
    ensures var cuts := Edits(wraps, name, Replaced(b));
            DistinctStarts(cuts) && DistinctKeys(cuts, StartOf) && PairwiseDisjoint(cuts)
            && forall i :: 0 <= i < |cuts| ==> cuts[i].start < cuts[i].stop
  {
    hide Replaced;
    var ps, cuts := Replaced(b), Edits(wraps, name, Replaced(b));
    forall i | 0 <= i < |cuts|
      ensures cuts[i].start == ps[i].start && cuts[i].stop == ps[i].end
    {
      assert cuts[i] == CutFor(wraps, name, ps[i]);
    }
  }

  lemma {:induction false} SameElements(a: seq<Cut>, b: seq<Cut>)
    requires multiset(a) == multiset(b)
    ensures SameCuts(a, b) && SameCuts(b, a)
  {
    forall c: Cut
      ensures c in a <==> c in b
    {
      assert c in a <==> c in multiset(a);
      assert c in b <==> c in multiset(b);
    }
  }

  /** Sorting disjoint nonempty cuts lines them up from left to right. */
  lemma {:induction false} SortedLineUp(cuts: seq<Cut>, sorted: seq<Cut>)
    requires multiset(cuts) == multiset(sorted) && PairwiseDisjoint(cuts) && Ascending(sorted, StartOf)
    requires DistinctKeys(sorted, StartOf) && forall i :: 0 <= i < |cuts| ==> cuts[i].start < cuts[i].stop
    ensures LeftToRight(sorted) && SameCuts(cuts, sorted)
  {
    SameElements(cuts, sorted);
    assert DistinctStarts(sorted) by {
      forall i, j | 0 <= i < j < |sorted|
        ensures sorted[i].start != sorted[j].start
      {
        assert StartOf(sorted[i]) != StartOf(sorted[j]);
      }
    }
    DisjointAnyOrder(cuts, sorted);
    forall i | 0 <= i < |sorted|
      ensures sorted[i].start < sorted[i].stop
    {
      assert sorted[i] in cuts;
    }
    forall i, j | 0 <= i < j < |sorted|
      ensures sorted[i].stop <= sorted[j].start
    {
      assert Apart(sorted[i], sorted[j]) && StartOf(sorted[i]) <= StartOf(sorted[j]);
    }
  }

  lemma {:induction false} InsideAnyOrder(raw: string, a: seq<Cut>, b: seq<Cut>, p: nat, q: nat)
    requires SameCuts(a, b) && DistinctStarts(a) && LeftToRight(b)
    ensures Splice(raw, Inside(b, p, q), p, q) == Splice(raw, Inside(a, p, q), p, q)
  {
    hide Splice, Inside;
    forall c: Cut
      ensures c in Inside(b, p, q) <==> c in Inside(a, p, q)
    {
      InsideMembers(a, p, q, c);
      InsideMembers(b, p, q, c);
    }
    InsideDistinct(a, p, q);
    InsideLeftToRight(b, p, q);
    SortedDistinct(Inside(b, p, q));
    OrderImmaterial(raw, Inside(b, p, q), Inside(a, p, q), p, q);
  }

  lemma {:induction false} InsideDistinct(cuts: seq<Cut>, p: int, q: int)
    requires DistinctStarts(cuts)
    ensures DistinctStarts(Inside(cuts, p, q))
  {
    if cuts != [] {
      var init, last := cuts[..|cuts| - 1], cuts[|cuts| - 1];
      InsideDistinct(init, p, q);
      var inner := Inside(init, p, q);
      forall i | 0 <= i < |inner|
        ensures inner[i].start != last.start
      {
        InsideMembers(init, p, q, inner[i]);
        var j :| 0 <= j < |init| && init[j] == inner[i];
        assert cuts[j] == init[j];
      }
    }
  }

  /** Expression i of the rewritten statement: every replaced placeholder inside it, all at once. */
  ghost function RewrittenExpr(rawSQL: string, b: BatchSource, cuts: seq<Cut>, i: nat): string
    requires i < |b.exprs|
  {
    Splice(rawSQL, Inside(cuts, b.exprs[i].from, b.exprs[i].to), b.exprs[i].from, b.exprs[i].to)
  }

  method RewriteExprs(rawSQL: string, b: BatchSource, edits: array<Cut>, ghost cuts: seq<Cut>) returns (exprs: seq<string>)
    requires Parsed(rawSQL, b) && SameCuts(cuts, edits[..]) && DistinctStarts(cuts) && LeftToRight(edits[..])
    ensures |exprs| == |b.exprs| && forall i :: 0 <= i < |exprs| ==> exprs[i] == RewrittenExpr(rawSQL, b, cuts, i)
  {
    hide Splice, Inside, Replaced, SameCuts, DistinctStarts, LeftToRight;
    exprs := [];
    for i := 0 to |b.exprs|
      invariant |exprs| == i && forall j :: 0 <= j < i ==> exprs[j] == RewrittenExpr(rawSQL, b, cuts, j)
    {
      var span := b.exprs[i];
      var sb := RewriteSpan(rawSQL, edits[..], span.from, span.to);
      InsideAnyOrder(rawSQL, cuts, edits[..], span.from, span.to);
      exprs := exprs + [sb];
    }
  }

  method Rewrite(rawSQL: string, b: BatchSource, unnested: set<int>, wraps: map<int, string -> string>, name: int -> string)
    returns (exprs: seq<string>)
    requires Parsed(rawSQL, b) && unnested == Numbers(b.unnest)
    ensures |exprs| == |b.exprs| && ExprsAre(rawSQL, b, Edits(wraps, name, Replaced(b)), exprs)
  {
    hide Splice, Inside, Replaced, SameCuts, DistinctStarts, LeftToRight, Numbers;
    var edits := CollectEdits(b, unnested, wraps, name);
    ghost var cuts := edits[..];
    EditsDisjoint(rawSQL, b, wraps, name);
    SortBy(edits, StartOf);
    SortedLineUp(cuts, edits[..]);
    exprs := RewriteExprs(rawSQL, b, edits, cuts);
  }

  // ----- the statements -----

  function Joined(parts: seq<string>, sep: string): string {
    if parts == [] then ""
    else if |parts| == 1 then parts[0]
    else Joined(parts[..|parts| - 1], sep) + sep + parts[|parts| - 1]
  }

  /** The SELECT that takes the place of the row: in round $2, the row of that number for each key. */
  function SelectText(rows: string, exprs: seq<string>, keys: seq<string>): string {
    "SELECT " + Joined(exprs, ", ") + " FROM " + rows
    + if keys == [] then ""
      else " QUALIFY row_number() OVER (PARTITION BY " + Joined(keys, ", ") + " ORDER BY sqlc_b.sqlc_ord) = $2"
  }

  function RoundsText(rows: string, keys: seq<string>): string {
    "SELECT coalesce(max(n), 0)::BIGINT FROM (SELECT count(*) AS n FROM " + rows + " GROUP BY " + Joined(keys, ", ") + ")"
  }

  function ItemText(rawSQL: string, b: BatchSource, item: Item): string
    requires item.Expr? ==> item.span.from <= item.span.to <= |rawSQL|
  {
    if item.Star? then b.qualifier + ".*" else rawSQL[item.span.from..item.span.to]
  }

  ghost predicate ItemsAre(rawSQL: string, b: BatchSource, items: seq<string>) {
    |items| == |b.items| && forall i :: 0 <= i < |items| ==>
      (b.items[i].Expr? ==> b.items[i].span.from <= b.items[i].span.to <= |rawSQL|)
      && items[i] == ItemText(rawSQL, b, b.items[i])
  }

  /** The columns of the table that the keys name. */
  function KeyColumns(b: BatchSource): (r: seq<string>)
    ensures |r| == |b.keys| && forall i :: 0 <= i < |r| ==> r[i] == b.qualifier + "." + b.keys[i]
  {
    seq(|b.keys|, i requires 0 <= i < |b.keys| => b.qualifier + "." + b.keys[i])
  }

  function ReadText(rows: string, b: BatchSource, items: seq<string>, on: seq<string>): string {
    "SELECT sqlc_b.sqlc_elem, " + Joined(items, ", ") + " FROM " + rows + " JOIN " + b.table + " ON "
    + Joined(on, " AND ") + " ORDER BY sqlc_b.sqlc_ord"
  }

  /** The read query: the items, from the batch joined with the table on the keys. */
  ghost predicate IsReadQuery(rawSQL: string, rows: string, b: BatchSource, keys: seq<string>, text: string) {
    exists items, on :: ItemsAre(rawSQL, b, items) && Q.KeyEquations(KeyColumns(b), keys, on)
                        && text == Q.Text(Q.ReadTokens(Q.ReadQuery(rows, items, b.table, on)))
  }

  method ReadQuery(rawSQL: string, rows: string, b: BatchSource, keys: seq<string>) returns (text: string)
    requires Parsed(rawSQL, b) && |keys| == |b.keys|
    ensures IsReadQuery(rawSQL, rows, b, keys, text)
  {
    hide Replaced, Joined, Q.Text, Q.ReadTokens;
    var items: seq<string> := [];
    for i := 0 to |b.items|
      invariant |items| == i
      invariant forall j :: 0 <= j < i ==> items[j] == ItemText(rawSQL, b, b.items[j])
    {
      if b.items[i].Star? {
        items := items + [b.qualifier + ".*"];
      } else {
        items := items + [rawSQL[b.items[i].span.from..b.items[i].span.to]];
      }
    }
    var on: seq<string> := [];
    for i := 0 to |b.keys|
      invariant |on| == i
      invariant forall j :: 0 <= j < i ==> on[j] == b.qualifier + "." + b.keys[j] + " = (" + keys[j] + ")"
    {
      on := on + [b.qualifier + "." + b.keys[i] + " = (" + keys[i] + ")"];
    }
    text := ReadText(rows, b, items, on);
    ghost var equations := seq(|b.keys|, i requires 0 <= i < |b.keys| => Q.Equation(KeyColumns(b)[i], keys[i]));
    forall i | 0 <= i < |on|
      ensures on[i] == equations[i].left + " = (" + equations[i].right + ")"
    {
      assert equations[i] == Q.Equation(KeyColumns(b)[i], keys[i]);
    }
    ReadIs(rows, b, items, on, equations);
    assert ItemsAre(rawSQL, b, items) && Q.KeyEquations(KeyColumns(b), keys, equations);
  }

  // ----- the statements as the queries spell them -----

  lemma {:induction false} TextAppend(a: seq<Q.Token>, b: seq<Q.Token>)
    ensures Q.Text(a + b) == Q.Text(a) + Q.Text(b)
  {
    if a == [] {
      assert a + b == b;
      EmptyLeft(Q.Text(b));
    } else {
      TextAppend(a[1..], b);
      assert (a + b)[1..] == a[1..] + b && (a + b)[0] == a[0];
    }
  }

  lemma {:induction false} TextOf(t: Q.Token)
    ensures Q.Text([t]) == if t.Word? then t.w else t.e
  {
    assert [t][1..] == [];
  }

  lemma {:induction false} JoinedLast(parts: seq<string>, last: string, sep: string)
    ensures Joined([last], sep) == last
    ensures parts != [] ==> Joined(parts + [last], sep) == Joined(parts, sep) + sep + last
  {
    assert (parts + [last])[..|parts|] == parts;
  }

  lemma {:induction false} JoinedFirst(first: string, rest: seq<string>, sep: string)
    requires rest != []
    ensures Joined([first] + rest, sep) == first + sep + Joined(rest, sep)
    decreases |rest|
  {
    hide Joined;
    var init, last := rest[..|rest| - 1], rest[|rest| - 1];
    assert rest == init + [last] && [first] + rest == ([first] + init) + [last];
    JoinedLast([first] + init, last, sep);
    JoinedLast(init, last, sep);
    if init == [] {
      JoinedLast([], first, sep);
      assert [first] + init == [first] && rest == [last];
    } else {
      JoinedFirst(first, init, sep);
    }
  }

  lemma {:induction false} ListIs(es: seq<string>, sep: string)
    ensures Q.Text(Q.List(es, sep)) == Joined(es, sep)
  {
    hide Q.Text;
    if es == [] {
      assert Q.Text([]) == "" by { NoText(); }
    } else if |es| == 1 {
      TextOf(Q.Sql(es[0]));
    } else {
      ListIs(es[1..], sep);
      JoinedFirst(es[0], es[1..], sep);
      assert es == [es[0]] + es[1..];
      TextAppend([Q.Sql(es[0]), Q.Word(sep)], Q.List(es[1..], sep));
      assert [Q.Sql(es[0]), Q.Word(sep)] == [Q.Sql(es[0])] + [Q.Word(sep)];
      TextAppend([Q.Sql(es[0])], [Q.Word(sep)]);
      TextOf(Q.Sql(es[0]));
      TextOf(Q.Word(sep));
    }
  }

  lemma {:induction false} NoText()
    ensures Q.Text([]) == ""
  {
  }

  /** Two tokens, three, and five. */
  lemma {:induction false} TextOfTwo(w: string, e: string)
    ensures Q.Text([Q.Word(w), Q.Sql(e)]) == w + e
    ensures Q.Text([Q.Sql(e), Q.Word(w)]) == e + w
  {
    hide Q.Text;
    assert [Q.Word(w), Q.Sql(e)] == [Q.Word(w)] + [Q.Sql(e)] && [Q.Sql(e), Q.Word(w)] == [Q.Sql(e)] + [Q.Word(w)];
    TextAppend([Q.Word(w)], [Q.Sql(e)]);
    TextAppend([Q.Sql(e)], [Q.Word(w)]);
    TextOf(Q.Word(w));
    TextOf(Q.Sql(e));
  }

  lemma {:induction false} TextOfThree(w: string, e: string, v: string)
    ensures Q.Text([Q.Word(w), Q.Sql(e), Q.Word(v)]) == w + e + v
  {
    hide Q.Text;
    assert [Q.Word(w), Q.Sql(e), Q.Word(v)] == [Q.Word(w), Q.Sql(e)] + [Q.Word(v)];
    TextAppend([Q.Word(w), Q.Sql(e)], [Q.Word(v)]);
    TextOfTwo(w, e);
    TextOf(Q.Word(v));
  }

  lemma {:induction false} TextOfFive(w: string, e: string, v: string, f: string, u: string)
    ensures Q.Text([Q.Word(w), Q.Sql(e), Q.Word(v), Q.Sql(f), Q.Word(u)]) == w + e + v + f + u
  {
    hide Q.Text;
    assert [Q.Word(w), Q.Sql(e), Q.Word(v), Q.Sql(f), Q.Word(u)] == [Q.Word(w), Q.Sql(e), Q.Word(v)] + [Q.Sql(f), Q.Word(u)];
    TextAppend([Q.Word(w), Q.Sql(e), Q.Word(v)], [Q.Sql(f), Q.Word(u)]);
    TextOfThree(w, e, v);
    TextOfTwo(u, f);
  }

  lemma {:induction false} TextOfList(w: string, list: seq<Q.Token>, rest: seq<Q.Token>)
    ensures Q.Text([Q.Word(w)] + list + rest) == w + Q.Text(list) + Q.Text(rest)
  {
    hide Q.Text;
    TextAppend([Q.Word(w)] + list, rest);
    TextAppend([Q.Word(w)], list);
    TextOf(Q.Word(w));
  }

  lemma {:induction false} WindowIs(keys: seq<string>)
    ensures Q.Text(Q.WindowTokens(Q.Window(keys, Q.ORD))) ==
            " QUALIFY row_number() OVER (PARTITION BY " + Joined(keys, ", ") + (" ORDER BY " + Q.ORD + ") = $2")
  {
    hide Q.Text, Q.List, Joined;
    ListIs(keys, ", ");
    TextOfList(" QUALIFY row_number() OVER (PARTITION BY ", Q.List(keys, ", "), [Q.Word(" ORDER BY "), Q.Sql(Q.ORD), Q.Word(") = $2")]);
    TextOfThree(" ORDER BY ", Q.ORD, ") = $2");
  }

  lemma {:induction false} SelectIs(rows: string, exprs: seq<string>, keys: seq<string>)
    ensures SelectText(rows, exprs, keys) == Q.Text(Q.SelectTokens(Q.WriteQuery(rows, exprs, keys)))
  {
    hide Q.Text, Q.List, Joined, Q.WindowTokens;
    var list := Q.List(exprs, ", ");
    var window := if keys == [] then [] else Q.WindowTokens(Q.Window(keys, Q.ORD));
    ListIs(exprs, ", ");
    TextAppend([Q.Word("SELECT ")] + list + [Q.Word(" FROM "), Q.Sql(rows)], window);
    TextOfList("SELECT ", list, [Q.Word(" FROM "), Q.Sql(rows)]);
    TextOfTwo(" FROM ", rows);
    NoText();
    WindowIs(keys);
    SelectSpelled(rows, exprs, keys);
  }

  /** SelectText, put together in another way. */
  lemma {:induction false} SelectSpelled(rows: string, exprs: seq<string>, keys: seq<string>)
    ensures SelectText(rows, exprs, keys) ==
            "SELECT " + Joined(exprs, ", ") + (" FROM " + rows)
            + if keys == [] then ""
              else " QUALIFY row_number() OVER (PARTITION BY " + Joined(keys, ", ") + (" ORDER BY " + Q.ORD + ") = $2")
  {
    hide Joined;
    assert " ORDER BY sqlc_b.sqlc_ord) = $2" == " ORDER BY " + Q.ORD + ") = $2";
    AppendAssoc("SELECT " + Joined(exprs, ", "), " FROM ", rows);
  }

  lemma {:induction false} RoundsIs(rows: string, keys: seq<string>)
    ensures RoundsText(rows, keys) == Q.Text(Q.RoundsTokens(Q.RoundsQuery(rows, keys)))
  {
    hide Q.Text, Q.List, Joined;
    var first := "SELECT coalesce(max(n), 0)::BIGINT FROM (SELECT count(*) AS n FROM ";
    var list := Q.List(keys, ", ");
    ListIs(keys, ", ");
    TextAppend([Q.Word(first), Q.Sql(rows), Q.Word(" GROUP BY ")] + list, [Q.Word(")")]);
    TextAppend([Q.Word(first), Q.Sql(rows), Q.Word(" GROUP BY ")], list);
    TextOfThree(first, rows, " GROUP BY ");
    TextOf(Q.Word(")"));
  }

  /** The equations as the loop writes them. */
  ghost predicate Written(on: seq<string>, equations: seq<Q.Equation>) {
    |on| == |equations| && forall i :: 0 <= i < |on| ==> on[i] == equations[i].left + " = (" + equations[i].right + ")"
  }

  lemma {:induction false} OneEquation(e: Q.Equation)
    ensures Q.Text(Q.EquationTokens(e)) == e.left + " = (" + e.right + ")"
  {
    hide Q.Text;
    assert Q.EquationTokens(e) == [Q.Sql(e.left)] + [Q.Word(" = ("), Q.Sql(e.right), Q.Word(")")];
    TextAppend([Q.Sql(e.left)], [Q.Word(" = ("), Q.Sql(e.right), Q.Word(")")]);
    TextOf(Q.Sql(e.left));
    TextOfThree(" = (", e.right, ")");
  }

  lemma {:induction false} EquationsIs(on: seq<string>, equations: seq<Q.Equation>)
    requires Written(on, equations)
    ensures Q.Text(Q.Equations(equations)) == Joined(on, " AND ")
    decreases |on|
  {
    hide Q.Text, Q.EquationTokens;
    NoText();
    if on != [] {
      OneEquation(equations[0]);
      if |on| == 1 {
        assert Q.Equations(equations) == Q.EquationTokens(equations[0]);
      } else {
        EquationsIs(on[1..], equations[1..]);
        JoinedFirst(on[0], on[1..], " AND ");
        assert on == [on[0]] + on[1..];
        var more := Q.Equations(equations[1..]);
        TextAppend(Q.EquationTokens(equations[0]), [Q.Word(" AND ")] + more);
        TextAppend([Q.Word(" AND ")], more);
        TextOf(Q.Word(" AND "));
        EquationsTwo(equations);
      }
    }
  }

  lemma {:induction false} EquationsTwo(on: seq<Q.Equation>)
    requires |on| > 1
    ensures Q.Equations(on) == Q.EquationTokens(on[0]) + ([Q.Word(" AND ")] + Q.Equations(on[1..]))
  {
    hide Q.EquationTokens;
  }

  lemma {:induction false} ReadIs(rows: string, b: BatchSource, items: seq<string>, on: seq<string>, equations: seq<Q.Equation>)
    requires Written(on, equations)
    ensures ReadText(rows, b, items, on) == Q.Text(Q.ReadTokens(Q.ReadQuery(rows, items, b.table, equations)))
  {
    hide Q.Text, Q.List, Q.Equations, Joined, Written;
    var list, eqs := Q.List(items, ", "), Q.Equations(equations);
    ListIs(items, ", ");
    EquationsIs(on, equations);
    var first := [Q.Word("SELECT "), Q.Sql(Q.ELEM), Q.Word(", ")];
    var join := [Q.Word(" FROM "), Q.Sql(rows), Q.Word(" JOIN "), Q.Sql(b.table), Q.Word(" ON ")];
    var last := [Q.Word(" ORDER BY "), Q.Sql(Q.ORD)];
    TextAppend(first + list + join + eqs, last);
    TextAppend(first + list + join, eqs);
    TextAppend(first + list, join);
    TextAppend(first, list);
    TextOfThree("SELECT ", Q.ELEM, ", ");
    TextOfFive(" FROM ", rows, " JOIN ", b.table, " ON ");
    TextOfTwo(" ORDER BY ", Q.ORD);
    ReadSpelled(rows, b.table, Joined(items, ", "), Joined(on, " AND "));
  }

  /** ReadText, put together in another way. */
  lemma {:induction false} ReadSpelled(rows: string, table: string, items: string, on: string)
    ensures "SELECT sqlc_b.sqlc_elem, " + items + " FROM " + rows + " JOIN " + table + " ON " + on + " ORDER BY sqlc_b.sqlc_ord"
            == ("SELECT " + Q.ELEM + ", ") + items + (" FROM " + rows + " JOIN " + table + " ON ") + on + (" ORDER BY " + Q.ORD)
  {
    assert "SELECT sqlc_b.sqlc_elem, " == "SELECT " + Q.ELEM + ", ";
    assert " ORDER BY sqlc_b.sqlc_ord" == " ORDER BY " + Q.ORD;
    var a := "SELECT sqlc_b.sqlc_elem, " + items;
    AppendFive(a, " FROM ", rows, " JOIN ", table, " ON ");
  }

  lemma {:induction false} AppendFive(a: string, b: string, c: string, d: string, e: string, f: string)
    ensures a + b + c + d + e + f == a + (b + c + d + e + f)
  {
    AppendAssoc(a, b, c);
    AppendAssoc(a, b + c, d);
    AppendAssoc(a, b + c + d, e);
    AppendAssoc(a, b + c + d + e, f);
  }

  // ----- the write statement -----

  /** What the write statement changes of the text: the row becomes a SELECT, and a RETURNING that is
      read back later goes. */
  function WriteCuts(b: BatchSource, sel: string): seq<Cut> {
    (if ReadsBack(b) then [Cut(b.returning.from, b.returning.to, "")] else [])
    + [Cut(b.values.from, b.values.to, sel)]
  }

  lemma {:induction false} OneCut(raw: string, c: Cut)
    requires 0 <= c.start <= c.stop <= |raw|
    ensures Splice(raw, [c], 0, |raw|) == raw[..c.start] + c.text + raw[c.stop..]
  {
    hide Splice;
    NoCuts(raw);
    assert Cuts(raw, []) == [] && Add([], c) == [c];
    CutStep(raw, [], c);
  }

  lemma {:induction false} WriteIs(rawSQL: string, b: BatchSource, sel: string)
    requires Parsed(rawSQL, b)
    ensures Splice(rawSQL, WriteCuts(b, sel), 0, |rawSQL|) ==
            rawSQL[..b.values.from] + sel
            + if ReadsBack(b) then rawSQL[b.values.to..b.returning.from] + rawSQL[b.returning.to..]
              else rawSQL[b.values.to..]
  {
    hide Splice, Replaced;
    var v := Cut(b.values.from, b.values.to, sel);
    if ReadsBack(b) {
      var r := Cut(b.returning.from, b.returning.to, "");
      OneCut(rawSQL, r);
      var s := Splice(rawSQL, [r], 0, |rawSQL|);
      assert WriteCuts(b, sel) == Add([r], v);
      CutStep(rawSQL, [r], v);
      assert s == rawSQL[..r.start] + rawSQL[r.stop..];
      assert s[v.stop..] == rawSQL[v.stop..r.start] + rawSQL[r.stop..];
      assert s[..v.start] == rawSQL[..v.start];
    } else {
      assert WriteCuts(b, sel) == [v];
      OneCut(rawSQL, v);
    }
  }

  method WriteStatement(rawSQL: string, b: BatchSource, sel: string) returns (write: string)
    requires Parsed(rawSQL, b)
    ensures write == Splice(rawSQL, WriteCuts(b, sel), 0, |rawSQL|)
  {
    WriteIs(rawSQL, b, sel);
    hide Splice, Replaced, WriteCuts;
    write := rawSQL[..b.values.from] + sel;
    if ReadsBack(b) {
      write := write + (rawSQL[b.values.to..b.returning.from] + rawSQL[b.returning.to..]);
    } else {
      write := write + rawSQL[b.values.to..];
    }
  }

  // ----- the plan -----

  /** Every expression is rewritten. */
  ghost predicate ExprsAre(rawSQL: string, b: BatchSource, cuts: seq<Cut>, exprs: seq<string>) {
    |exprs| == |b.exprs| && forall i :: 0 <= i < |exprs| ==> exprs[i] == RewrittenExpr(rawSQL, b, cuts, i)
  }

  /** The key expressions are those of the columns the keys name. */
  ghost predicate KeysAre(b: BatchSource, exprs: seq<string>, keys: seq<string>) {
    |exprs| == |b.exprs| && |keys| == |b.keys| &&
    forall i :: 0 <= i < |keys| ==> HasExpr(b, b.keys[i]) && keys[i] == exprs[ColumnIndex(b.columns, b.keys[i])]
  }

  /** The gates before any text is touched. */
  method CheckBatch<C>(b: BatchSource, params: seq<Param<C>>, notNull: string -> bool, types: Types<C>)
    returns (ok: bool, unnested: set<int>, wraps: map<int, string -> string>)
    ensures ok <==> GatesOpen(b, notNull) && UnnestsClosed(b) && forall i :: 0 <= i < |params| ==> Travels(types, b, params[i])
    ensures ok ==> unnested == Numbers(b.unnest) && wraps == Wraps(types, unnested, params)
    ensures ok && ReadsBack(b) ==>
              b.onConflict && !b.doNothing && !b.merge && b.keys != [] && forall i :: 0 <= i < |b.keys| ==> notNull(b.keys[i])
  {
    ok, unnested, wraps := false, {}, map[];
    var returning := b.items != [];
    var each := returning && !b.onConflict && !b.merge;
    if returning && !each && (b.merge || b.doNothing) {
      return;
    }
    if (b.onConflict || b.merge) && b.keys == [] {
      return;
    }
    if returning && !each {
      var refuse := KeysRefuseNull(b.keys, notNull);
      if !refuse {
        return;
      }
    }
    hide Numbers, Wraps, UnnestsClosed, Travels;
    var inValues := CollectNumbers(b.params);
    unnested := CollectNumbers(b.unnest);
    var closed := CheckUnnested(b, unnested);
    if !closed {
      return;
    }
    ok, wraps := CollectWraps(b, params, types, inValues, unnested);
  }

  /** The texts of the plan. */
  method Statements(rawSQL: string, rows: string, b: BatchSource, exprs: seq<string>, keys: seq<string>)
    returns (write: string, rounds: Option<string>, read: Option<string>)
    requires Parsed(rawSQL, b) && |keys| == |b.keys|
    ensures write == Splice(rawSQL, WriteCuts(b, Q.Text(Q.SelectTokens(Q.WriteQuery(rows, exprs, keys)))), 0, |rawSQL|)
    ensures rounds == if b.keys == [] then None else Some(Q.Text(Q.RoundsTokens(Q.RoundsQuery(rows, keys))))
    ensures read.Some? <==> ReadsBack(b)
    ensures read.Some? ==> IsReadQuery(rawSQL, rows, b, keys, read.value)
  {
    hide Splice, Parsed, WriteCuts, IsReadQuery, SelectText, RoundsText, Q.Text, Q.SelectTokens, Q.RoundsTokens;
    SelectIs(rows, exprs, keys);
    RoundsIs(rows, keys);
    write := WriteStatement(rawSQL, b, SelectText(rows, exprs, keys));
    rounds := if keys == [] then None else Some(RoundsText(rows, keys));
    read := None;
    if b.items != [] && (b.onConflict || b.merge) {
      var text := ReadQuery(rawSQL, rows, b, keys);
      read := Some(text);
    }
  }

  /** A batch leaves the loop exactly when it is accepted. Its plan reads back only after an upsert
      with keys, all of which refuse NULL. The write statement is the original with the row replaced
      by the SELECT, all at once with dropping what is read back. */
  method PlanBatch<C>(rawSQL: string, source: Option<BatchSource>, params: seq<Param<C>>, notNull: string -> bool,
                      types: Types<C>, name: int -> string, rows: string) returns (plan: Plan)
    requires source.Some? ==> Parsed(rawSQL, source.value)
    ensures plan.Json? <==> source.Some? && Accepted(source.value, params, notNull, types)
    ensures plan.Json? ==>
              var b := source.value;
              && plan.each == Each(b) && plan.unnest == Numbers(b.unnest)
              && ExprsAre(rawSQL, b, Edits(Wraps(types, Numbers(b.unnest), params), name, Replaced(b)), plan.exprs)
              && KeysAre(b, plan.exprs, plan.keys)
    ensures plan.Json? ==>
              var b := source.value;
              && plan.write == Splice(rawSQL, WriteCuts(b, Q.Text(Q.SelectTokens(Q.WriteQuery(rows, plan.exprs, plan.keys)))), 0, |rawSQL|)
              && plan.rounds == (if b.keys == [] then None else Some(Q.Text(Q.RoundsTokens(Q.RoundsQuery(rows, plan.keys)))))
              && (plan.read.Some? <==> Returns(b) && !plan.each)
              && (plan.read.Some? ==> IsReadQuery(rawSQL, rows, b, plan.keys, plan.read.value))
    ensures plan.Json? && plan.read.Some? ==>
              var b := source.value;
              b.onConflict && !b.doNothing && !b.merge && plan.rounds.Some? && forall i :: 0 <= i < |b.keys| ==> notNull(b.keys[i])
  {
    hide Numbers, Parsed, Wraps, Replaced, Splice, WriteCuts, IsReadQuery, Q.Text, Q.SelectTokens, Q.RoundsTokens, UnnestsClosed,
      Travels, GatesOpen, ExprsAre, KeysAre, HasExpr, Edits;
    if source.None? || params == [] {
      return Loop;
    }
    var b := source.value;
    var ok, unnested, wraps := CheckBatch(b, params, notNull, types);
    if !ok {
      return Loop;
    }
    var exprs := Rewrite(rawSQL, b, unnested, wraps, name);
    var found, keys := CollectKeys(b, exprs);
    if !found {
      return Loop;
    }
    var write, rounds, read := Statements(rawSQL, rows, b, exprs, keys);
    plan := Json(b.items != [] && !b.onConflict && !b.merge, unnested, exprs, keys, write, rounds, read);
  }
}
