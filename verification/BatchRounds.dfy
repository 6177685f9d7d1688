/** Why a DuckDB batch may run in rounds: the queries that internal/compiler/batch_duckdb.go emits take,
    in round r, the r-th row of each key, and this ends in the same table as one statement per row. */
module BatchRounds {
  import opened Common

  /** One row of the batch: its place, the batch element it came from, its key and its values. A key
      with NULL components equals another one that is NULL in the same places, as GROUP BY has it. */
  datatype Row<K, D> = Row(ord: int, elem: int, key: K, data: D)

  /** A table by key; a key that is not there has the empty bucket. `effect` is what the statement does
      with one row to the bucket of that row's key, the only one it touches. */
  datatype Statement<!K(==), !D, !B> = Statement(effect: (B, Row<K, D>) -> B, empty: B)

  function At<K(==), D, B>(st: Statement<K, D, B>, t: map<K, B>, k: K): B {
    if k in t then t[k] else st.empty
  }

  // ----- one statement per row -----

  function RunRow<K(==), D, B>(st: Statement<K, D, B>, t: map<K, B>, x: Row<K, D>): map<K, B> {
    t[x.key := st.effect(At(st, t, x.key), x)]
  }

  function RunInOrder<K(==), D, B>(st: Statement<K, D, B>, t: map<K, B>, order: seq<Row<K, D>>): map<K, B> {
    if order == [] then t
    else RunRow(st, RunInOrder(st, t, order[..|order| - 1]), order[|order| - 1])
  }

  /** The batch in the order its rows are numbered. */
  ghost predicate Ordered<K(!new), D(!new)>(order: seq<Row<K, D>>, batch: set<Row<K, D>>) {
    && (forall i, j :: 0 <= i < j < |order| ==> order[i].ord < order[j].ord)
    && (forall x :: x in order <==> x in batch)
  }

  // ----- rounds -----

  function UpTo<K(==), D(==)>(batch: set<Row<K, D>>, x: Row<K, D>): set<Row<K, D>> {
    set q | q in batch && q.key == x.key && q.ord <= x.ord
  }

  function OfKey<K(==), D(==)>(batch: set<Row<K, D>>, k: K): set<Row<K, D>> {
    set q | q in batch && q.key == k
  }

  /** row_number() OVER (PARTITION BY key ORDER BY sqlc_ord). */
  function RowNumber<K(==), D(==)>(batch: set<Row<K, D>>, x: Row<K, D>): nat {
    |UpTo(batch, x)|
  }

  /** count(*) ... GROUP BY key. */
  function Count<K(==), D(==)>(batch: set<Row<K, D>>, k: K): nat {
    |OfKey(batch, k)|
  }

  /** coalesce(max(n), 0) over the groups. */
  ghost predicate IsRounds<K, D>(batch: set<Row<K, D>>, n: nat) {
    && (batch == {} ==> n == 0)
    && (batch != {} ==> exists x :: x in batch && Count(batch, x.key) == n)
    && (forall x :: x in batch ==> Count(batch, x.key) <= n)
  }

  function Round<K(==), D(==)>(batch: set<Row<K, D>>, r: nat): set<Row<K, D>> {
    set x | x in batch && RowNumber(batch, x) == r
  }

  function Keys<K(==), D(==)>(rows: set<Row<K, D>>): set<K> { set x | x in rows :: x.key }

  /** A statement over a set of rows that all differ in key. */
  ghost function RunSet<K, D, B>(st: Statement<K, D, B>, t: map<K, B>, rows: set<Row<K, D>>): map<K, B> {
    map k | k in t.Keys + Keys(rows) :: RunSetAt(st, t, rows, k)
  }

  ghost function RunSetAt<K, D, B>(st: Statement<K, D, B>, t: map<K, B>, rows: set<Row<K, D>>, k: K): B {
    if k in Keys(rows) then
      var x :| x in rows && x.key == k;
      st.effect(At(st, t, k), x)
    else At(st, t, k)
  }

  /** Rounds 1 to n. */
  ghost function RunRounds<K, D, B>(st: Statement<K, D, B>, t: map<K, B>, batch: set<Row<K, D>>, n: nat): map<K, B> {
    if n == 0 then t else RunSet(st, RunRounds(st, t, batch, n - 1), Round(batch, n))
  }

  // ----- the rows of one key -----

  function Sub<K(==), D>(order: seq<Row<K, D>>, k: K): seq<Row<K, D>> {
    if order == [] then []
    else
      var last := order[|order| - 1];
      Sub(order[..|order| - 1], k) + if last.key == k then [last] else []
  }

  lemma {:induction false} SubMembers<K, D>(order: seq<Row<K, D>>, k: K, x: Row<K, D>)
    ensures x in Sub(order, k) <==> x in order && x.key == k
  {
    if order != [] {
      var init, last := order[..|order| - 1], order[|order| - 1];
      SubMembers(init, k, x);
      assert order == init + [last];
      assert x in order <==> x in init || x == last;
      assert x in Sub(order, k) <==> x in Sub(init, k) || (last.key == k && x == last);
    }
  }

  ghost predicate Rising<K, D>(s: seq<Row<K, D>>) {
    forall i, j :: 0 <= i < j < |s| ==> s[i].ord < s[j].ord
  }

  lemma {:induction false} SubRising<K, D>(order: seq<Row<K, D>>, k: K)
    requires Rising(order)
    ensures Rising(Sub(order, k))
  {
    if order != [] {
      var init, last := order[..|order| - 1], order[|order| - 1];
      SubRising(init, k);
      var s := Sub(init, k);
      forall i | 0 <= i < |s|
        ensures s[i].ord < last.ord
      {
        SubMembers(init, k, s[i]);
        var j :| 0 <= j < |init| && init[j] == s[i];
        assert order[j] == init[j];
      }
    }
  }

  function Elements<K(==), D(==)>(s: seq<Row<K, D>>): set<Row<K, D>> { set x | x in s }

  lemma {:induction false} RisingSize<K, D>(s: seq<Row<K, D>>)
    requires Rising(s)
    ensures |Elements(s)| == |s|
  {
    if s != [] {
      var init, last := s[..|s| - 1], s[|s| - 1];
      RisingSize(init);
      assert s == init + [last];
      assert Elements(s) == Elements(init) + {last};
      assert last !in init;
    }
  }

  /** The j-th row of a key, counting from 0, has row number j + 1. */
  lemma {:induction false} NumberOfSub<K(!new), D(!new)>(batch: set<Row<K, D>>, order: seq<Row<K, D>>, k: K, j: nat)
    requires Ordered(order, batch) && j < |Sub(order, k)|
    ensures Sub(order, k)[j] in batch && Sub(order, k)[j].key == k && RowNumber(batch, Sub(order, k)[j]) == j + 1
  {
    var s := Sub(order, k);
    var x := s[j];
    SubRising(order, k);
    SubMembers(order, k, x);
    var upTo := UpTo(batch, x);
    forall q
      ensures q in upTo <==> q in s[..j + 1]
    {
      SubMembers(order, k, q);
      if q in upTo {
        var i :| 0 <= i < |s| && s[i] == q;
        assert i <= j;
        assert s[..j + 1][i] == q;
      }
      if q in s[..j + 1] {
        var i :| 0 <= i < j + 1 && s[i] == q;
      }
    }
    assert upTo == Elements(s[..j + 1]);
    RisingSize(s[..j + 1]);
  }

  lemma {:induction false} CountOfSub<K(!new), D(!new)>(batch: set<Row<K, D>>, order: seq<Row<K, D>>, k: K)
    requires Ordered(order, batch)
    ensures Count(batch, k) == |Sub(order, k)|
  {
    var s := Sub(order, k);
    SubRising(order, k);
    forall q
      ensures q in batch && q.key == k <==> q in s
    {
      SubMembers(order, k, q);
    }
    assert OfKey(batch, k) == Elements(s);
    RisingSize(s);
  }

  /** Round r takes the r-th row of a key and no other row of it. */
  lemma {:induction false} RoundOfKey<K(!new), D(!new)>(batch: set<Row<K, D>>, order: seq<Row<K, D>>, k: K, r: nat, x: Row<K, D>)
    requires Ordered(order, batch) && x.key == k && r >= 1
    ensures x in Round(batch, r) <==> r <= |Sub(order, k)| && x == Sub(order, k)[r - 1]
  {
    hide RowNumber, Sub;
    var s := Sub(order, k);
    SubMembers(order, k, x);
    if x in s {
      var j :| 0 <= j < |s| && s[j] == x;
      NumberOfSub(batch, order, k, j);
      if r <= |s| {
        NumberOfSub(batch, order, k, r - 1);
      }
    }
  }

  // ----- the table, bucket by bucket -----

  function Fold<K, D, B>(st: Statement<K, D, B>, b: B, rows: seq<Row<K, D>>): B {
    if rows == [] then b else st.effect(Fold(st, b, rows[..|rows| - 1]), rows[|rows| - 1])
  }

  lemma {:induction false} InOrderBucket<K, D, B>(st: Statement<K, D, B>, t: map<K, B>, order: seq<Row<K, D>>, k: K)
    ensures At(st, RunInOrder(st, t, order), k) == Fold(st, At(st, t, k), Sub(order, k))
    ensures k in RunInOrder(st, t, order) <==> k in t || Sub(order, k) != []
  {
    if order != [] {
      var init, last := order[..|order| - 1], order[|order| - 1];
      InOrderBucket(st, t, init, k);
      if last.key == k {
        assert Sub(order, k)[..|Sub(init, k)|] == Sub(init, k);
      } else {
        assert Sub(order, k) == Sub(init, k);
      }
    }
  }

  lemma {:induction false} RoundBucket<K(!new), D(!new), B>(st: Statement<K, D, B>, t: map<K, B>, batch: set<Row<K, D>>,
                                                           order: seq<Row<K, D>>, k: K, r: nat)
    requires Ordered(order, batch) && r >= 1
    ensures var s := Sub(order, k); var t' := RunSet(st, t, Round(batch, r));
            && At(st, t', k) == (if r <= |s| then st.effect(At(st, t, k), s[r - 1]) else At(st, t, k))
            && (k in t' <==> k in t || r <= |s|)
  {
    hide Sub, Round, Ordered;
    var s, rows := Sub(order, k), Round(batch, r);
    if r <= |s| {
      NumberedRow(batch, order, k, r);
      assert k in Keys(rows);
    }
    forall x | x in rows && x.key == k
      ensures r <= |s| && x == s[r - 1]
    {
      RoundOfKey(batch, order, k, r, x);
    }
  }

  lemma {:induction false} NumberedRow<K(!new), D(!new)>(batch: set<Row<K, D>>, order: seq<Row<K, D>>, k: K, r: nat)
    requires Ordered(order, batch) && 1 <= r <= |Sub(order, k)|
    ensures Sub(order, k)[r - 1] in Round(batch, r) && Sub(order, k)[r - 1].key == k
  {
    NumberOfSub(batch, order, k, r - 1);
  }

  function Min(a: nat, b: nat): nat { if a <= b then a else b }

  lemma {:induction false} RoundsBucket<K(!new), D(!new), B>(st: Statement<K, D, B>, t: map<K, B>, batch: set<Row<K, D>>,
                                                            order: seq<Row<K, D>>, k: K, n: nat)
    requires Ordered(order, batch)
    ensures var s := Sub(order, k); var t' := RunRounds(st, t, batch, n);
            && At(st, t', k) == Fold(st, At(st, t, k), s[..Min(n, |s|)])
            && (k in t' <==> k in t || (n >= 1 && s != []))
  {
    hide Sub, Round, RunSet, Ordered, At;
    if n > 0 {
      RoundsBucket(st, t, batch, order, k, n - 1);
      RoundBucket(st, RunRounds(st, t, batch, n - 1), batch, order, k, n);
      var s := Sub(order, k);
      if n <= |s| {
        assert s[..n][..n - 1] == s[..n - 1];
      }
    }
  }

  // ----- the main results -----

  /** Rounds preserve meaning: rounds 1 to n, with n as the rounds query counts it, end in the same
      table as the rows one at a time in order. */
  lemma {:induction false} RoundsPreserveMeaning<K(!new), D(!new), B>(st: Statement<K, D, B>, t: map<K, B>,
      batch: set<Row<K, D>>, order: seq<Row<K, D>>, n: nat)
    requires Ordered(order, batch) && IsRounds(batch, n)
    ensures RunRounds(st, t, batch, n) == RunInOrder(st, t, order)
  {
    var a, b := RunRounds(st, t, batch, n), RunInOrder(st, t, order);
    forall k
      ensures (k in a <==> k in b) && At(st, a, k) == At(st, b, k)
    {
      SameBucket(st, t, batch, order, n, k);
    }
    forall k
      ensures k in a <==> k in b
      ensures k in a ==> a[k] == b[k]
    {
      assert (k in a <==> k in b) && At(st, a, k) == At(st, b, k);
    }
  }

  lemma {:induction false} SameBucket<K(!new), D(!new), B>(st: Statement<K, D, B>, t: map<K, B>,
      batch: set<Row<K, D>>, order: seq<Row<K, D>>, n: nat, k: K)
    requires Ordered(order, batch) && IsRounds(batch, n)
    ensures var a, b := RunRounds(st, t, batch, n), RunInOrder(st, t, order);
            (k in a <==> k in b) && At(st, a, k) == At(st, b, k)
  {
    hide Sub, Ordered, At, RunRounds, RunInOrder, IsRounds;
    RoundsBucket(st, t, batch, order, k, n);
    InOrderBucket(st, t, order, k);
    EnoughRounds(batch, order, n, k);
    var s := Sub(order, k);
    assert s[..|s|] == s;
  }

  lemma {:induction false} EnoughRounds<K(!new), D(!new)>(batch: set<Row<K, D>>, order: seq<Row<K, D>>, n: nat, k: K)
    requires Ordered(order, batch) && IsRounds(batch, n)
    ensures |Sub(order, k)| <= n
  {
    hide Sub, Count;
    var s := Sub(order, k);
    if s != [] {
      SubMembers(order, k, s[0]);
      CountOfSub(batch, order, k);
      assert s[0] in batch;
    }
  }

  /** Each row is taken in exactly one of the rounds 1 to n. */
  lemma {:induction false} EachRowOnce<K(!new), D(!new)>(batch: set<Row<K, D>>, order: seq<Row<K, D>>, n: nat, x: Row<K, D>)
    requires Ordered(order, batch) && IsRounds(batch, n) && x in batch
    ensures exists r :: 1 <= r <= n && x in Round(batch, r)
    ensures forall r, q :: x in Round(batch, r) && x in Round(batch, q) ==> r == q
  {
    SubMembers(order, x.key, x);
    var s := Sub(order, x.key);
    var j :| 0 <= j < |s| && s[j] == x;
    NumberOfSub(batch, order, x.key, j);
    EnoughRounds(batch, order, n, x.key);
    assert x in Round(batch, j + 1);
  }

  /** No round is empty, and an empty batch has none. */
  lemma {:induction false} NoRoundEmpty<K(!new), D(!new)>(batch: set<Row<K, D>>, order: seq<Row<K, D>>, n: nat)
    requires Ordered(order, batch) && IsRounds(batch, n)
    ensures forall r :: 1 <= r <= n ==> Round(batch, r) != {}
    ensures n == 0 <==> batch == {}
  {
    hide Sub, Count, Round, Ordered;
    if batch != {} {
      var x :| x in batch && Count(batch, x.key) == n;
      CountOfSub(batch, order, x.key);
      assert n >= 1 by { NonemptyKey(batch, order, x); }
      forall r | 1 <= r <= n
        ensures Round(batch, r) != {}
      {
        NumberedRow(batch, order, x.key, r);
      }
    }
  }

  lemma {:induction false} NonemptyKey<K(!new), D(!new)>(batch: set<Row<K, D>>, order: seq<Row<K, D>>, x: Row<K, D>)
    requires Ordered(order, batch) && x in batch
    ensures |Sub(order, x.key)| >= 1
  {
    SubMembers(order, x.key, x);
  }

  /** Every batch has its number of rounds. */
  lemma {:induction false} RoundsExist<K(!new), D(!new)>(batch: set<Row<K, D>>)
    ensures exists n :: IsRounds(batch, n)
  {
    if batch == {} {
      assert IsRounds(batch, 0);
    } else {
      var x := LargestGroup(batch, batch);
      assert IsRounds(batch, Count(batch, x.key));
    }
  }

  lemma {:induction false} LargestGroup<K(!new), D(!new)>(batch: set<Row<K, D>>, some: set<Row<K, D>>) returns (x: Row<K, D>)
    requires some != {}
    ensures x in some && forall y :: y in some ==> Count(batch, y.key) <= Count(batch, x.key)
    decreases |some|
  {
    x :| x in some;
    var rest := some - {x};
    if rest != {} {
      var y := LargestGroup(batch, rest);
      if Count(batch, y.key) > Count(batch, x.key) {
        x := y;
      }
    }
  }

  // ----- reading back -----

  /** A key is a tuple of values that may be NULL; a table row is held under its key. */
  type Key<V> = seq<Option<V>>

  ghost predicate NoNull<V>(k: Key<V>) {
    forall i :: 0 <= i < |k| ==> k[i].Some?
  }

  /** k1 = k2 AND ...: true only of components that are not NULL. */
  ghost predicate SqlEqual<V>(a: Key<V>, b: Key<V>) {
    |a| == |b| && forall i :: 0 <= i < |a| ==> a[i].Some? && b[i].Some? && a[i].value == b[i].value
  }

  datatype Tagged<T> = Tagged(elem: int, row: T)

  /** The rows of the table that the join pairs with one batch row. */
  ghost predicate Joins<V, D, T>(t: map<Key<V>, seq<T>>, x: Row<Key<V>, D>, k: Key<V>, i: nat) {
    k in t && i < |t[k]| && SqlEqual(k, x.key)
  }

  /** What the read query may answer: for each batch row in sqlc_ord order its joined rows, each once,
      tagged with the row's own element. `from` says which table row each answer holds. */
  ghost predicate ReadsBack<V(!new), D, T>(t: map<Key<V>, seq<T>>, order: seq<Row<Key<V>, D>>,
      answer: seq<Tagged<T>>, from: seq<Source<V>>)
  {
    && |from| == |answer|
    && (forall a :: 0 <= a < |from| ==> SourceOk(t, order, answer[a], from[a]))
    && (forall a, b :: 0 <= a < b < |from| ==> from[a].at <= from[b].at && from[a] != from[b])
    && (forall j, k, i :: 0 <= j < |order| && Joins(t, order[j], k, i) ==> Source(j, k, i) in from)
  }

  datatype Source<V> = Source(at: nat, key: Key<V>, index: nat)

  ghost predicate SourceOk<V, D, T>(t: map<Key<V>, seq<T>>, order: seq<Row<Key<V>, D>>, y: Tagged<T>, s: Source<V>) {
    && s.at < |order| && Joins(t, order[s.at], s.key, s.index)
    && y == Tagged(order[s.at].elem, t[s.key][s.index])
  }

  /** INSERT ... ON CONFLICT DO UPDATE that leaves the key alone: afterwards the key has one row. */
  ghost predicate Upserts<V(!new), D(!new), T(!new)>(st: Statement<Key<V>, D, seq<T>>) {
    && st.empty == []
    && forall b, x :: |b| <= 1 ==> |st.effect(b, x)| == 1
  }

  ghost predicate UniqueKeys<V(!new), T>(t: map<Key<V>, seq<T>>) {
    forall k :: k in t ==> |t[k]| <= 1
  }

  lemma {:induction false} UpsertKeeps<V(!new), D(!new), T(!new)>(st: Statement<Key<V>, D, seq<T>>, t: map<Key<V>, seq<T>>,
      order: seq<Row<Key<V>, D>>)
    requires Upserts(st) && UniqueKeys(t)
    ensures UniqueKeys(RunInOrder(st, t, order))
    ensures forall i :: 0 <= i < |order| ==>
              order[i].key in RunInOrder(st, t, order) && |RunInOrder(st, t, order)[order[i].key]| == 1
  {
    if order != [] {
      UpsertKeeps(st, t, order[..|order| - 1]);
      assert forall i :: 0 <= i < |order| - 1 ==> order[i] == order[..|order| - 1][i];
    }
  }

  lemma {:induction false} EqualNoNull<V>(a: Key<V>, b: Key<V>)
    ensures SqlEqual(a, b) <==> a == b && NoNull(b)
  {
    if SqlEqual(a, b) {
      assert forall i :: 0 <= i < |a| ==> a[i] == b[i];
    }
  }

  /** A batch row joins exactly the rows under its own key, and none when the key holds a NULL. */
  lemma {:induction false} JoinsOwnKey<V, D, T>(t: map<Key<V>, seq<T>>, x: Row<Key<V>, D>, k: Key<V>, i: nat)
    ensures Joins(t, x, k, i) <==> NoNull(x.key) && k == x.key && k in t && i < |t[k]|
  {
    hide NoNull, SqlEqual;
    EqualNoNull(k, x.key);
  }

  /** When every batch row joins one table row, the answer lists them in order. */
  lemma {:induction false} SourcesInOrder<V(!new), D, T>(t: map<Key<V>, seq<T>>, order: seq<Row<Key<V>, D>>,
      answer: seq<Tagged<T>>, from: seq<Source<V>>, j: nat)
    requires ReadsBack(t, order, answer, from) && j <= |order|
    requires forall i :: 0 <= i < |order| ==> NoNull(order[i].key) && order[i].key in t && |t[order[i].key]| == 1
    ensures j <= |from| && forall i :: 0 <= i < j ==> from[i] == Source(i, order[i].key, 0)
    decreases j
  {
    hide NoNull, ReadsBack;
    if j > 0 {
      SourcesInOrder(t, order, answer, from, j - 1);
      var want := Source(j - 1, order[j - 1].key, 0);
      var a := PlaceOf(t, order, answer, from, j - 1);
      assert a >= j - 1;
      OnlySource(t, order, answer, from, j - 1);
      if a > j - 1 {
        Rises(t, order, answer, from, j - 1, a);
      }
      if from[j - 1].at < j - 1 {
        Rises(t, order, answer, from, from[j - 1].at, j - 1);
      }
    }
  }

  /** The join of a batch row with its one table row is somewhere in the answer. */
  lemma {:induction false} PlaceOf<V(!new), D, T>(t: map<Key<V>, seq<T>>, order: seq<Row<Key<V>, D>>,
      answer: seq<Tagged<T>>, from: seq<Source<V>>, j: nat) returns (a: nat)
    requires ReadsBack(t, order, answer, from) && j < |order|
    requires NoNull(order[j].key) && order[j].key in t && |t[order[j].key]| == 1
    ensures a < |from| && from[a] == Source(j, order[j].key, 0)
  {
    hide NoNull, SqlEqual, Joins;
    JoinsOwnKey(t, order[j], order[j].key, 0);
    assert Source(j, order[j].key, 0) in from;
    a :| 0 <= a < |from| && from[a] == Source(j, order[j].key, 0);
  }

  lemma {:induction false} Rises<V(!new), D, T>(t: map<Key<V>, seq<T>>, order: seq<Row<Key<V>, D>>,
      answer: seq<Tagged<T>>, from: seq<Source<V>>, a: nat, b: nat)
    requires ReadsBack(t, order, answer, from) && a < b < |from|
    ensures from[a].at <= from[b].at && from[a] != from[b]
  {
    hide SourceOk, Joins;
  }

  lemma {:induction false} OnlySource<V(!new), D, T>(t: map<Key<V>, seq<T>>, order: seq<Row<Key<V>, D>>,
      answer: seq<Tagged<T>>, from: seq<Source<V>>, a: nat)
    requires ReadsBack(t, order, answer, from)
    requires forall i :: 0 <= i < |order| ==> NoNull(order[i].key) && order[i].key in t && |t[order[i].key]| == 1
    ensures a < |from| ==> from[a].at < |order| && from[a] == Source(from[a].at, order[from[a].at].key, 0)
  {
    hide NoNull, SqlEqual, Joins;
    if a < |from| {
      assert SourceOk(t, order, answer[a], from[a]);
      JoinsOwnKey(t, order[from[a].at], from[a].key, from[a].index);
    }
  }

  lemma {:induction false} NothingMore<V(!new), D, T>(t: map<Key<V>, seq<T>>, order: seq<Row<Key<V>, D>>,
      answer: seq<Tagged<T>>, from: seq<Source<V>>)
    requires ReadsBack(t, order, answer, from)
    requires forall i :: 0 <= i < |order| ==> NoNull(order[i].key) && order[i].key in t && |t[order[i].key]| == 1
    ensures |from| == |order|
  {
    hide NoNull, SqlEqual, Joins;
    var n := |order|;
    SourcesInOrder(t, order, answer, from, n);
    if |from| > n {
      OnlySource(t, order, answer, from, n);
    }
  }

  /** Read-back is exact: after all rounds of an upsert whose keys refuse NULL, the read query answers
      one row per batch row, in sqlc_ord order, tagged with that row's own element, and holding what
      one statement per row would have left under its key. */
  lemma {:induction false} ReadBackExact<V(!new), D(!new), T(!new)>(st: Statement<Key<V>, D, seq<T>>, t: map<Key<V>, seq<T>>,
      batch: set<Row<Key<V>, D>>, order: seq<Row<Key<V>, D>>, n: nat, answer: seq<Tagged<T>>, from: seq<Source<V>>)
    requires Ordered(order, batch) && IsRounds(batch, n) && Upserts(st) && UniqueKeys(t)
    requires forall x :: x in batch ==> NoNull(x.key)
    requires ReadsBack(RunRounds(st, t, batch, n), order, answer, from)
    ensures |answer| == |order|
    ensures forall i :: 0 <= i < |order| ==>
              && order[i].key in RunInOrder(st, t, order) && |RunInOrder(st, t, order)[order[i].key]| == 1
              && answer[i] == Tagged(order[i].elem, RunInOrder(st, t, order)[order[i].key][0])
  {
    hide RunRounds, RunInOrder, NoNull, Joins, IsRounds;
    RoundsPreserveMeaning(st, t, batch, order, n);
    UpsertKeeps(st, t, order);
    var final := RunInOrder(st, t, order);
    forall i | 0 <= i < |order|
      ensures NoNull(order[i].key)
    {
      assert order[i] in batch;
    }
    SourcesInOrder(final, order, answer, from, |order|);
    NothingMore(final, order, answer, from);
    forall i | 0 <= i < |order|
      ensures answer[i] == Tagged(order[i].elem, final[order[i].key][0])
    {
      assert SourceOk(final, order, answer[i], from[i]);
    }
  }

  /** A row whose key holds a NULL is never read back: this is what the planner's gate is for. */
  lemma {:induction false} NullKeyNotReadBack<V(!new), D, T>(t: map<Key<V>, seq<T>>, order: seq<Row<Key<V>, D>>,
      answer: seq<Tagged<T>>, from: seq<Source<V>>, j: nat)
    requires ReadsBack(t, order, answer, from) && j < |order| && !NoNull(order[j].key)
    ensures forall a :: 0 <= a < |from| ==> from[a].at != j
  {
    hide NoNull, SqlEqual, Joins;
    forall a | 0 <= a < |from|
      ensures from[a].at != j
    {
      assert SourceOk(t, order, answer[a], from[a]);
      JoinsOwnKey(t, order[from[a].at], from[a].key, from[a].index);
    }
  }
}
