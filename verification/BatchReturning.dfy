/** What the read query of a batch answers, against what the statement would return for each row in turn.
    Read looks at the table after the last round, so a later row of the same key shows, and so does a row
    that DO UPDATE ... WHERE refused. */
module BatchReturning {
  import opened Common
  import opened BatchRounds

  /** `applies` is whether the statement does anything with a row, given the bucket of its key: a row that
      the WHERE refuses meets a conflict and leaves it alone. */
  ghost predicate Guards<V(!new), D(!new), T(!new)>(st: Statement<Key<V>, D, seq<T>>, applies: (seq<T>, Row<Key<V>, D>) -> bool) {
    forall b, x :: !applies(b, x) ==> b != [] && st.effect(b, x) == b
  }

  function Tags<T>(elem: int, rows: seq<T>): seq<Tagged<T>> {
    if rows == [] then [] else [Tagged(elem, rows[0])] + Tags(elem, rows[1..])
  }

  /** RETURNING of one statement for the row x: the rows it inserted or updated. */
  function Returned<V(==), D, T>(st: Statement<Key<V>, D, seq<T>>, applies: (seq<T>, Row<Key<V>, D>) -> bool,
      t: map<Key<V>, seq<T>>, x: Row<Key<V>, D>): seq<Tagged<T>>
  {
    var b := At(st, t, x.key);
    if applies(b, x) then Tags(x.elem, st.effect(b, x)) else []
  }

  /** What one statement per row returns, row after row. */
  function ByRow<V(==), D, T>(st: Statement<Key<V>, D, seq<T>>, applies: (seq<T>, Row<Key<V>, D>) -> bool,
      t: map<Key<V>, seq<T>>, order: seq<Row<Key<V>, D>>): seq<Tagged<T>>
  {
    if order == [] then []
    else
      var init, last := order[..|order| - 1], order[|order| - 1];
      ByRow(st, applies, t, init) + Returned(st, applies, RunInOrder(st, t, init), last)
  }

  /** The statement applies the i-th row, and the later rows of its key leave in the end what it left. */
  ghost predicate Lasts<V, D, T>(st: Statement<Key<V>, D, seq<T>>, applies: (seq<T>, Row<Key<V>, D>) -> bool,
      t: map<Key<V>, seq<T>>, order: seq<Row<Key<V>, D>>, i: nat)
    requires i < |order|
  {
    var x := order[i];
    var before := At(st, RunInOrder(st, t, order[..i]), x.key);
    var left := st.effect(before, x);
    applies(before, x) && Fold(st, left, Sub(order[i + 1..], x.key)) == left
  }

  // ----- the rows after the i-th -----

  lemma {:induction false} RunSplit<K, D, B>(st: Statement<K, D, B>, t: map<K, B>, a: seq<Row<K, D>>, b: seq<Row<K, D>>)
    ensures RunInOrder(st, t, a + b) == RunInOrder(st, RunInOrder(st, t, a), b)
  {
    hide RunRow;
    if b == [] {
      assert a + b == a;
    } else {
      var init := b[..|b| - 1];
      RunSplit(st, t, a, init);
      assert (a + b)[..|a + b| - 1] == a + init;
    }
  }

  lemma {:induction false} SubSplit<K, D>(a: seq<Row<K, D>>, b: seq<Row<K, D>>, k: K)
    ensures Sub(a + b, k) == Sub(a, k) + Sub(b, k)
  {
    if b == [] {
      assert a + b == a;
    } else {
      var init := b[..|b| - 1];
      SubSplit(a, init, k);
      assert (a + b)[..|a + b| - 1] == a + init;
    }
  }

  /** The bucket in the end, from the i-th row on. */
  lemma {:induction false} EndBucket<K, D, B>(st: Statement<K, D, B>, t: map<K, B>, order: seq<Row<K, D>>, i: nat)
    requires i < |order|
    ensures var x := order[i];
            At(st, RunInOrder(st, t, order), x.key)
            == Fold(st, st.effect(At(st, RunInOrder(st, t, order[..i]), x.key), x), Sub(order[i + 1..], x.key))
  {
    hide Sub, Fold;
    var upTo, rest := order[..i + 1], order[i + 1..];
    assert order == upTo + rest;
    RunSplit(st, t, upTo, rest);
    InOrderBucket(st, RunInOrder(st, t, upTo), rest, order[i].key);
    assert upTo[..i] == order[..i];
  }

  lemma {:induction false} OneTag<T>(elem: int, rows: seq<T>)
    requires |rows| == 1
    ensures Tags(elem, rows) == [Tagged(elem, rows[0])]
  {
  }

  /** One statement returns what Read answers for its row exactly when the row lasts. */
  lemma {:induction false} RowAgreesIff<V(!new), D(!new), T(!new)>(st: Statement<Key<V>, D, seq<T>>,
      applies: (seq<T>, Row<Key<V>, D>) -> bool, t: map<Key<V>, seq<T>>, order: seq<Row<Key<V>, D>>, i: nat)
    requires Upserts(st) && UniqueKeys(t) && i < |order|
    ensures var x := order[i]; var final := RunInOrder(st, t, order);
            var own := Returned(st, applies, RunInOrder(st, t, order[..i]), x);
            && |own| <= 1 && x.key in final && |final[x.key]| == 1
            && (own == [Tagged(x.elem, final[x.key][0])] <==> Lasts(st, applies, t, order, i))
  {
    hide RunInOrder, Sub, Fold, Tags;
    var x := order[i];
    UpsertKeeps(st, t, order[..i]);
    UpsertKeeps(st, t, order);
    EndBucket(st, t, order, i);
    var left := st.effect(At(st, RunInOrder(st, t, order[..i]), x.key), x);
    OneTag(x.elem, left);
    var end := RunInOrder(st, t, order)[x.key];
    assert left == end <==> left[0] == end[0];
  }

  // ----- row by row -----

  /** When each statement returns at most one row, the answers agree exactly when they do row by row. */
  lemma {:induction false} Pointwise<V, D, T>(st: Statement<Key<V>, D, seq<T>>, applies: (seq<T>, Row<Key<V>, D>) -> bool,
      t: map<Key<V>, seq<T>>, order: seq<Row<Key<V>, D>>, answer: seq<Tagged<T>>, m: nat)
    requires |answer| == |order| && m <= |order|
    requires forall i :: 0 <= i < |order| ==> |Returned(st, applies, RunInOrder(st, t, order[..i]), order[i])| <= 1
    ensures |ByRow(st, applies, t, order[..m])| <= m
    ensures answer[..m] == ByRow(st, applies, t, order[..m])
            <==> forall i :: 0 <= i < m ==> Returned(st, applies, RunInOrder(st, t, order[..i]), order[i]) == [answer[i]]
  {
    hide Returned, RunInOrder;
    if m > 0 {
      Pointwise(st, applies, t, order, answer, m - 1);
      assert order[..m][..m - 1] == order[..m - 1];
      var front := ByRow(st, applies, t, order[..m - 1]);
      var own := Returned(st, applies, RunInOrder(st, t, order[..m - 1]), order[m - 1]);
      assert ByRow(st, applies, t, order[..m]) == front + own;
      LastOne(answer[..m], front, own);
      assert answer[..m][..m - 1] == answer[..m - 1];
    }
  }

  lemma {:induction false} LastOne<T>(s: seq<T>, front: seq<T>, own: seq<T>)
    requires s != [] && |front| <= |s| - 1 && |own| <= 1
    ensures s == front + own <==> s[..|s| - 1] == front && own == [s[|s| - 1]]
  {
    if s == front + own {
      assert s[..|s| - 1] == front;
    }
    if s[..|s| - 1] == front && own == [s[|s| - 1]] {
      assert s == front + own;
    }
  }

  // ----- the main results -----

  /** Read answers what one statement per row returns exactly when every row is applied and lasts. */
  lemma {:induction false} ReadAgreesIff<V(!new), D(!new), T(!new)>(st: Statement<Key<V>, D, seq<T>>,
      applies: (seq<T>, Row<Key<V>, D>) -> bool, t: map<Key<V>, seq<T>>, batch: set<Row<Key<V>, D>>,
      order: seq<Row<Key<V>, D>>, n: nat, answer: seq<Tagged<T>>, from: seq<Source<V>>)
    requires Ordered(order, batch) && IsRounds(batch, n) && Upserts(st) && UniqueKeys(t)
    requires forall x :: x in batch ==> NoNull(x.key)
    requires ReadsBack(RunRounds(st, t, batch, n), order, answer, from)
    ensures answer == ByRow(st, applies, t, order) <==> forall i :: 0 <= i < |order| ==> Lasts(st, applies, t, order, i)
  {
    hide Ordered, IsRounds, NoNull, ReadsBack, RunRounds, RunInOrder, Lasts, Returned, ByRow, Upserts, UniqueKeys;
    ReadBackExact(st, t, batch, order, n, answer, from);
    forall i | 0 <= i < |order|
      ensures var own := Returned(st, applies, RunInOrder(st, t, order[..i]), order[i]);
              |own| <= 1 && (own == [answer[i]] <==> Lasts(st, applies, t, order, i))
    {
      RowAgreesIff(st, applies, t, order, i);
    }
    Pointwise(st, applies, t, order, answer, |order|);
    assert order[..|order|] == order && answer[..|order|] == answer;
  }

  /** A batch of one round whose rows all apply, as without a WHERE they do, reads back what one statement
      per row returns. */
  lemma {:induction false} OneRoundAgrees<V(!new), D(!new), T(!new)>(st: Statement<Key<V>, D, seq<T>>,
      applies: (seq<T>, Row<Key<V>, D>) -> bool, t: map<Key<V>, seq<T>>, batch: set<Row<Key<V>, D>>,
      order: seq<Row<Key<V>, D>>, n: nat, answer: seq<Tagged<T>>, from: seq<Source<V>>)
    requires Ordered(order, batch) && IsRounds(batch, n) && Upserts(st) && UniqueKeys(t)
    requires forall x :: x in batch ==> NoNull(x.key)
    requires ReadsBack(RunRounds(st, t, batch, n), order, answer, from)
    requires n <= 1 && forall b, x :: x in batch ==> applies(b, x)
    ensures answer == ByRow(st, applies, t, order)
  {
    hide IsRounds, NoNull, ReadsBack, RunRounds, RunInOrder, ByRow, Upserts, UniqueKeys;
    ReadAgreesIff(st, applies, t, batch, order, n, answer, from);
    forall i | 0 <= i < |order|
      ensures Lasts(st, applies, t, order, i)
    {
      assert order[i] in batch;
      NoneLater(batch, order, n, i);
    }
  }

  lemma {:induction false} NoneLater<K(!new), D(!new)>(batch: set<Row<K, D>>, order: seq<Row<K, D>>, n: nat, i: nat)
    requires Ordered(order, batch) && IsRounds(batch, n) && n <= 1 && i < |order|
    ensures Sub(order[i + 1..], order[i].key) == []
  {
    hide Sub, Ordered, IsRounds;
    var k := order[i].key;
    EnoughRounds(batch, order, n, k);
    assert order == order[..i + 1] + order[i + 1..];
    SubSplit(order[..i + 1], order[i + 1..], k);
    SubMembers(order[..i + 1], k, order[i]);
    assert order[..i + 1][i] == order[i];
  }

  /** A row the WHERE refuses is one that does not last, although the table is as one statement per row
      leaves it: Read answers the row it met. */
  lemma {:induction false} RefusedIsRead<V(!new), D(!new), T(!new)>(st: Statement<Key<V>, D, seq<T>>,
      applies: (seq<T>, Row<Key<V>, D>) -> bool, t: map<Key<V>, seq<T>>, x: Row<Key<V>, D>, answer: seq<Tagged<T>>, from: seq<Source<V>>)
    requires Upserts(st) && UniqueKeys(t) && Guards(st, applies) && NoNull(x.key) && !applies(At(st, t, x.key), x)
    requires ReadsBack(RunRounds(st, t, {x}, 1), [x], answer, from)
    ensures x.key in t && |t[x.key]| == 1 && answer == [Tagged(x.elem, t[x.key][0])] && ByRow(st, applies, t, [x]) == []
  {
    hide NoNull, ReadsBack, RunRounds;
    OneRow(x);
    ReadBackExact(st, t, {x}, [x], 1, answer, from);
    assert [x][..0] == [];
    assert RunInOrder(st, t, []) == t && RunInOrder(st, t, [x]) == RunRow(st, t, x);
  }

  lemma {:induction false} CountAll<K(!new), D(!new)>(batch: set<Row<K, D>>, k: K)
    requires forall x :: x in batch ==> x.key == k
    ensures Count(batch, k) == |batch|
  {
    assert OfKey(batch, k) == batch;
  }

  lemma {:induction false} OneRow<K(!new), D(!new)>(x: Row<K, D>)
    ensures IsRounds({x}, 1) && Ordered([x], {x})
  {
    CountAll({x}, x.key);
    assert x in {x};
  }

  // ----- a key that repeats -----

  const OVERWRITE: Statement<Key<int>, int, seq<int>> := Statement((b: seq<int>, x: Row<Key<int>, int>) => [x.data], [])
  const ALWAYS: (seq<int>, Row<Key<int>, int>) -> bool := (b: seq<int>, x: Row<Key<int>, int>) => true
  const TEN: Row<Key<int>, int> := Row(1, 1, [Some(7)], 10)
  const TWENTY: Row<Key<int>, int> := Row(2, 2, [Some(7)], 20)

  lemma {:induction false} TwoRounds()
    ensures IsRounds({TEN, TWENTY}, 2) && Ordered([TEN, TWENTY], {TEN, TWENTY})
  {
    var batch := {TEN, TWENTY};
    CountAll(batch, TEN.key);
    assert TEN.ord != TWENTY.ord && |batch| == 2;
    assert TEN in batch;
  }

  lemma {:induction false} RunPair<K, D, B>(st: Statement<K, D, B>, t: map<K, B>, x: Row<K, D>, y: Row<K, D>)
    ensures RunInOrder(st, t, [x]) == RunRow(st, t, x) && RunInOrder(st, t, [x, y]) == RunRow(st, RunRow(st, t, x), y)
  {
    hide RunRow;
    assert [x][..0] == [] && [x, y][..1] == [x];
    assert RunInOrder(st, t, []) == t;
  }

  lemma {:induction false} ReturnPair<V, D, T>(st: Statement<Key<V>, D, seq<T>>, applies: (seq<T>, Row<Key<V>, D>) -> bool,
      t: map<Key<V>, seq<T>>, x: Row<Key<V>, D>, y: Row<Key<V>, D>)
    ensures ByRow(st, applies, t, [x]) == Returned(st, applies, t, x)
    ensures ByRow(st, applies, t, [x, y]) == Returned(st, applies, t, x) + Returned(st, applies, RunRow(st, t, x), y)
  {
    hide RunRow, Returned;
    assert [x][..0] == [] && [x, y][..1] == [x];
    assert RunInOrder(st, t, []) == t && ByRow(st, applies, t, []) == [];
    RunPair(st, t, x, y);
  }

  /** Two rows of one key, each overwriting the value: the first is read back as the second left it. */
  lemma {:induction false} RepeatedKeyDiffers(answer: seq<Tagged<int>>, from: seq<Source<int>>)
    requires ReadsBack(RunRounds(OVERWRITE, map[], {TEN, TWENTY}, 2), [TEN, TWENTY], answer, from)
    ensures answer == [Tagged(1, 20), Tagged(2, 20)]
    ensures ByRow(OVERWRITE, ALWAYS, map[], [TEN, TWENTY]) == [Tagged(1, 10), Tagged(2, 20)]
  {
    hide ReadsBack, RunRounds, IsRounds, Ordered, RunInOrder, ByRow;
    TwoRounds();
    RunPair(OVERWRITE, map[], TEN, TWENTY);
    ReturnPair(OVERWRITE, ALWAYS, map[], TEN, TWENTY);
    ReadBackExact(OVERWRITE, map[], {TEN, TWENTY}, [TEN, TWENTY], 2, answer, from);
    OneTag(1, [10]);
    OneTag(2, [20]);
  }
}
