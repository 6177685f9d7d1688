/** What running a plan comes to: its queries, spelled as they are in the plan, select the rounds, count
    them and read them back, so that the table and the answer are those of one statement per row. */
module BatchMeaning {
  import opened Common
  import opened BatchRounds
  import opened BatchQueries

  /** The write statement with $2 = 1, 2, ..., n; the statement does the same with every row it is given. */
  ghost function RunWrites<V(!new), D(!new), T(!new)>(env: Env<V, D, T>, q: Select, keys: seq<string>,
      st: Statement<Key<V>, D, seq<T>>, t: map<Key<V>, seq<T>>, batch: set<JsonRow<D>>, n: nat): map<Key<V>, seq<T>>
  {
    if n == 0 then t
    else RunSet(st, RunWrites(env, q, keys, st, t, batch, n - 1), KeyedAll(env, keys, Selected(env, q, batch, n)))
  }

  lemma {:induction false} WritesAreRounds<V(!new), D(!new), T(!new)>(env: Env<V, D, T>, rows: string, exprs: seq<string>, keys: seq<string>,
      st: Statement<Key<V>, D, seq<T>>, t: map<Key<V>, seq<T>>, batch: set<JsonRow<D>>, n: nat)
    requires Numbered(env) && OrdsDiffer(batch) && keys != []
    ensures RunWrites(env, WriteQuery(rows, exprs, keys), keys, st, t, batch, n) == RunRounds(st, t, KeyedAll(env, keys, batch), n)
  {
    hide Selected, Round, RunSet, KeyedAll;
    if n > 0 {
      WritesAreRounds(env, rows, exprs, keys, st, t, batch, n - 1);
      WriteTakesRound(env, rows, exprs, keys, batch, n);
    }
  }

  /** The rows of the batch in the order of their numbers. */
  ghost predicate InOrder<D(!new)>(order: seq<JsonRow<D>>, batch: set<JsonRow<D>>) {
    && (forall i, j :: 0 <= i < j < |order| ==> order[i].ord < order[j].ord)
    && (forall x :: x in order <==> x in batch)
  }

  lemma {:induction false} KeyedInOrder<V(!new), D(!new), T>(env: Env<V, D, T>, keys: seq<string>, order: seq<JsonRow<D>>, batch: set<JsonRow<D>>)
    requires InOrder(order, batch)
    ensures Ordered(KeyedSeq(env, keys, order), KeyedAll(env, keys, batch)) && OrdsDiffer(batch)
  {
    hide Values;
    var keyed := KeyedSeq(env, keys, order);
    forall x
      ensures x in keyed <==> x in KeyedAll(env, keys, batch)
    {
      if x in keyed {
        var i :| 0 <= i < |keyed| && keyed[i] == x;
        assert order[i] in batch;
      }
      if x in KeyedAll(env, keys, batch) {
        var y :| y in batch && x == Keyed(env, keys, y);
        var i :| 0 <= i < |order| && order[i] == y;
        assert keyed[i] == x;
      }
    }
    forall x, y | x in batch && y in batch && x.ord == y.ord
      ensures x == y
    {
      var i :| 0 <= i < |order| && order[i] == x;
      var j :| 0 <= j < |order| && order[j] == y;
    }
  }

  /** The table a plan with keys leaves: that of one statement per row. The rounds run are those that the
      rounds query counts. */
  lemma {:induction false} PlanKeepsMeaning<V(!new), D(!new), T(!new)>(env: Env<V, D, T>, rows: string, exprs: seq<string>, keys: seq<string>,
      st: Statement<Key<V>, D, seq<T>>, t: map<Key<V>, seq<T>>, batch: set<JsonRow<D>>, order: seq<JsonRow<D>>, n: nat)
    requires Numbered(env) && keys != [] && InOrder(order, batch) && Counted(env, RoundsQuery(rows, keys), batch, n)
    ensures RunWrites(env, WriteQuery(rows, exprs, keys), keys, st, t, batch, n) == RunInOrder(st, t, KeyedSeq(env, keys, order))
  {
    hide RunWrites, RunRounds, RunInOrder, Counted, IsRounds, KeyedAll, Ordered, KeyedSeq;
    KeyedInOrder(env, keys, order, batch);
    RoundsCounts(env, rows, keys, batch, n);
    WritesAreRounds(env, rows, exprs, keys, st, t, batch, n);
    RoundsPreserveMeaning(st, t, KeyedAll(env, keys, batch), KeyedSeq(env, keys, order), n);
  }

  /** And what it reads back: for every batch row in order its element and the row its key holds. */
  lemma {:induction false} PlanReadsBack<V(!new), D(!new), T(!new)>(env: Env<V, D, T>, rows: string, exprs: seq<string>, keys: seq<string>,
      items: seq<string>, table: string, columns: seq<string>, on: seq<Equation>,
      st: Statement<Key<V>, D, seq<T>>, t: map<Key<V>, seq<T>>, batch: set<JsonRow<D>>, order: seq<JsonRow<D>>, n: nat,
      answer: seq<Tagged<T>>, from: seq<Source<V>>)
    requires Numbered(env) && keys != [] && InOrder(order, batch) && Counted(env, RoundsQuery(rows, keys), batch, n)
    requires KeyEquations(columns, keys, on) && Upserts(st) && UniqueKeys(t)
    requires forall x :: x in batch ==> NoNull(Values(env, keys, x))
    requires var final := RunWrites(env, WriteQuery(rows, exprs, keys), keys, st, t, batch, n);
             HeldByKey(env, columns, final) && Answers(env, ReadQuery(rows, items, table, on), final, order, answer, from)
    ensures var final := RunInOrder(st, t, KeyedSeq(env, keys, order));
            && |answer| == |order|
            && forall i :: 0 <= i < |order| ==>
                 var k := Values(env, keys, order[i]);
                 k in final && |final[k]| == 1 && answer[i] == Tagged(order[i].elem, final[k][0])
  {
    hide RunWrites, RunRounds, RunInOrder, Counted, IsRounds, Ordered, HeldByKey, Answers, ReadsBack, Upserts, UniqueKeys, NoNull,
      KeyEquations, Values;
    var all, keyed := KeyedAll(env, keys, batch), KeyedSeq(env, keys, order);
    KeyedInOrder(env, keys, order, batch);
    RoundsCounts(env, rows, keys, batch, n);
    WritesAreRounds(env, rows, exprs, keys, st, t, batch, n);
    ReadReadsBack(env, rows, items, table, columns, keys, on, RunRounds(st, t, all, n), order, answer, from);
    ReadBackExact(st, t, all, keyed, n, answer, from);
  }
}
