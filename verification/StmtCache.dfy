/** The prepared-statement cache of internal/core/db.go. `prepared` takes the read lock, prepares with
    no lock held, and takes the write lock; begin, commit and rollback run between any of these. */
module StmtCaches {
  import opened Common

  type Query = string

  /** What the mutex guards. A nil txStmts is None. */
  datatype Cache = Cache(stmts: map<Query, nat>, tx: Option<nat>, txStmts: Option<map<Query, nat>>)

  const NewCache := Cache(map[], None, None)

  // ----- the locked sections -----

  /** Under the read lock: the statement for a query in the map of the moment. */
  function Lookup(c: Cache, q: Query): Option<nat> {
    if c.tx.None? then (if q in c.stmts then Some(c.stmts[q]) else None)
    else if c.txStmts.Some? && q in c.txStmts.value then Some(c.txStmts.value[q])
    else None
  }

  /** How the write-locked part of `prepared` ends: the statement to return, and whether the one just
      prepared is closed as the loser of a race. */
  datatype Settled = Settled(cache: Cache, winner: nat, lost: bool)

  function SettleDb(c: Cache, q: Query, stmt: nat): Settled {
    if q in c.stmts then Settled(c, c.stmts[q], true)
    else Settled(c.(stmts := c.stmts[q := stmt]), stmt, false)
  }

  function SettleTx(c: Cache, tx: nat, q: Query, stmt: nat): Settled {
    if c.tx != Some(tx) || c.txStmts.None? then Settled(c, stmt, false)
    else if q in c.txStmts.value then Settled(c, c.txStmts.value[q], true)
    else Settled(c.(txStmts := Some(c.txStmts.value[q := stmt])), stmt, false)
  }

  function Install(c: Cache, tx: nat): Cache { c.(tx := Some(tx), txStmts := Some(map[])) }

  function Detach(c: Cache): Cache { c.(tx := None, txStmts := None) }

  /** stmtCache: each method is one critical section. */
  class StmtCache {
    var stmts: map<Query, nat>
    var tx: Option<nat>
    var txStmts: Option<map<Query, nat>>

    ghost function State(): Cache
      reads this
    {
      Cache(stmts, tx, txStmts)
    }

    constructor ()
      ensures State() == NewCache
    {
      stmts, tx, txStmts := map[], None, None;
    }

    method Find(q: Query) returns (snapshot: Option<nat>, hit: Option<nat>)
      ensures snapshot == tx && hit == Lookup(State(), q)
    {
      snapshot := tx;
      var cache := stmts;
      if tx.Some? {
        cache := if txStmts.Some? then txStmts.value else map[];
      }
      hit := if q in cache then Some(cache[q]) else None;
    }

    method KeepDb(q: Query, stmt: nat) returns (winner: nat, lost: bool)
      modifies this`stmts
      ensures Settled(State(), winner, lost) == SettleDb(old(State()), q, stmt)
    {
      if q in stmts {
        return stmts[q], true;
      }
      stmts := stmts[q := stmt];
      return stmt, false;
    }

    method KeepTx(t: nat, q: Query, stmt: nat) returns (winner: nat, lost: bool)
      modifies this`txStmts
      ensures Settled(State(), winner, lost) == SettleTx(old(State()), t, q, stmt)
    {
      if tx != Some(t) || txStmts.None? {
        return stmt, false;
      }
      if q in txStmts.value {
        return txStmts.value[q], true;
      }
      txStmts := Some(txStmts.value[q := stmt]);
      return stmt, false;
    }

    method Begin(t: nat)
      modifies this`tx, this`txStmts
      ensures State() == Install(old(State()), t)
    {
      tx, txStmts := Some(t), Some(map[]);
    }

    method EndTx() returns (ended: Option<nat>)
      modifies this`tx, this`txStmts
      ensures State() == Detach(old(State())) && ended == old(tx)
    {
      ended := tx;
      tx, txStmts := None, None;
    }

    /** Close's loop over the map: every statement is closed and its entry deleted. */
    method CloseAll() returns (closed: set<nat>)
      modifies this`stmts
      ensures State() == old(State()).(stmts := map[]) && closed == old(stmts).Values
    {
      closed := {};
      while stmts != map[]
        invariant tx == old(tx) && txStmts == old(txStmts)
        invariant stmts.Keys <= old(stmts).Keys && forall q :: q in stmts ==> stmts[q] == old(stmts)[q]
        invariant closed == set q | q in old(stmts).Keys - stmts.Keys :: old(stmts)[q]
        decreases |stmts|
      {
        var q :| q in stmts;
        closed := closed + {stmts[q]};
        stmts := stmts - {q};
      }
    }
  }

  // ----- the system: goroutines, the driver's statements and transactions -----

  datatype Owner = OnDb | OnTx(tx: nat)
  datatype Stmt = Stmt(query: Query, owner: Owner, open: bool)

  /** Where a goroutine stands between two critical sections. */
  datatype Pc =
    | Idle
    | Missed(query: Query, snapshot: Option<nat>)
    | Prepared(query: Query, snapshot: Option<nat>, stmt: nat)
    | Using(query: Query, stmt: nat)
    | Opening(tx: nat)
    | Ending(tx: nat)

  /** `all` holds every statement ever prepared; `live` the transactions not yet finished. */
  datatype System = System(cache: Cache, all: seq<Stmt>, live: set<nat>, begun: nat, at: map<nat, Pc>)

  const Start := System(NewCache, [], {}, 0, map[])

  datatype Action =
    | DoLookup(p: nat, query: Query)
    | DoPrepare(p: nat)      // the driver prepares the statement
    | DoPrepareFails(p: nat)
    | DoSettle(p: nat)
    | DoRelease(p: nat)
    | DoBeginTx(p: nat)      // begin, outside the lock: only while no transaction is live
    | DoInstall(p: nat)      // begin, under the lock
    | DoEndTx(p: nat)        // commit or rollback, under the lock
    | DoFinish(p: nat)       // commit or rollback, outside the lock

  function PcOf(s: System, p: nat): Pc { if p in s.at then s.at[p] else Idle }

  function Move(s: System, p: nat, pc: Pc): System { s.(at := s.at[p := pc]) }

  function CloseStmt(all: seq<Stmt>, id: nat): (r: seq<Stmt>)
    ensures |r| == |all|
  {
    if id < |all| then all[id := all[id].(open := false)] else all
  }

  /** Ending a transaction closes its statements. */
  function CloseTx(all: seq<Stmt>, tx: nat): (r: seq<Stmt>)
    ensures |r| == |all|
    ensures forall i :: 0 <= i < |all| ==>
              r[i] == if all[i].owner == OnTx(tx) then all[i].(open := false) else all[i]
  {
    seq(|all|, i requires 0 <= i < |all| => if all[i].owner == OnTx(tx) then all[i].(open := false) else all[i])
  }

  function OwnerOf(snapshot: Option<nat>): Owner { if snapshot.Some? then OnTx(snapshot.value) else OnDb }

  function SettleAt(s: System, q: Query, snapshot: Option<nat>, stmt: nat): Settled {
    if snapshot.Some? then SettleTx(s.cache, snapshot.value, q, stmt) else SettleDb(s.cache, q, stmt)
  }

  /** The state after an action, or None when the action is not possible. */
  function Do(s: System, a: Action): Option<System> {
    var pc := PcOf(s, a.p);
    match a
    case DoLookup(p, q) =>
      if pc != Idle then None
      else
        var hit := Lookup(s.cache, q);
        Some(Move(s, p, if hit.Some? then Using(q, hit.value) else Missed(q, s.cache.tx)))
    case DoPrepare(p) =>
      if !pc.Missed? || (pc.snapshot.Some? && pc.snapshot.value !in s.live) then None
      else
        Some(Move(s, p, Prepared(pc.query, pc.snapshot, |s.all|)).(all := s.all + [Stmt(pc.query, OwnerOf(pc.snapshot), true)]))
    case DoPrepareFails(p) => if pc.Missed? then Some(Move(s, p, Idle)) else None
    case DoSettle(p) =>
      if !pc.Prepared? then None
      else
        var r := SettleAt(s, pc.query, pc.snapshot, pc.stmt);
        Some(Move(s, p, Using(pc.query, r.winner)).(cache := r.cache, all := if r.lost then CloseStmt(s.all, pc.stmt) else s.all))
    case DoRelease(p) => if pc.Using? then Some(Move(s, p, Idle)) else None
    case DoBeginTx(p) =>
      if pc != Idle || s.live != {} then None
      else Some(Move(s, p, Opening(s.begun)).(live := {s.begun}, begun := s.begun + 1))
    case DoInstall(p) =>
      if !pc.Opening? then None else Some(Move(s, p, Idle).(cache := Install(s.cache, pc.tx)))
    case DoEndTx(p) =>
      if pc != Idle then None
      else Some(Move(s, p, if s.cache.tx.Some? then Ending(s.cache.tx.value) else Idle).(cache := Detach(s.cache)))
    case DoFinish(p) =>
      if !pc.Ending? then None
      else Some(Move(s, p, Idle).(live := s.live - {pc.tx}, all := CloseTx(s.all, pc.tx)))
  }

  function Run(s: System, actions: seq<Action>): Option<System> {
    if actions == [] then Some(s)
    else
      var before := Run(s, actions[..|actions| - 1]);
      if before.None? then None else Do(before.value, actions[|actions| - 1])
  }

  // ----- what holds in every reachable state -----

  /** One open statement per query, prepared for it on the database. */
  ghost predicate DbEntriesOk(s: System) {
    forall q :: q in s.cache.stmts ==>
      var id := s.cache.stmts[q]; id < |s.all| && s.all[id] == Stmt(q, OnDb, true)
  }

  /** txStmts is there exactly while a transaction is, and holds open statements of that one. */
  ghost predicate TxEntriesOk(s: System) {
    && (s.cache.txStmts.Some? <==> s.cache.tx.Some?)
    && (s.cache.tx.Some? ==>
          && s.cache.tx.value in s.live
          && forall q :: q in s.cache.txStmts.value ==>
               var id := s.cache.txStmts.value[q]; id < |s.all| && s.all[id] == Stmt(q, OnTx(s.cache.tx.value), true))
  }

  /** At most one transaction is live; it is being opened, current, or being ended, in one place. */
  ghost predicate TxsOk(s: System) {
    && (forall t :: t in s.live ==> t < s.begun)
    && (forall t, u :: t in s.live && u in s.live ==> t == u)
    && (s.cache.tx.Some? ==> forall p :: p in s.at ==> !s.at[p].Opening? && !s.at[p].Ending?)
    && (forall p :: p in s.at && s.at[p].Opening? ==> s.at[p].tx in s.live)
    && (forall p :: p in s.at && s.at[p].Ending? ==> s.at[p].tx in s.live)
    && (forall p, r :: p in s.at && r in s.at && (s.at[p].Opening? || s.at[p].Ending?) && (s.at[r].Opening? || s.at[r].Ending?) ==> p == r)
  }

  /** What a goroutine holds between preparing and settling: its statement for its query, open as long
      as its transaction lives. */
  ghost predicate HeldOk(s: System) {
    forall p :: p in s.at && s.at[p].Prepared? ==>
      && s.at[p].stmt < |s.all|
      && s.all[s.at[p].stmt].query == s.at[p].query && s.all[s.at[p].stmt].owner == OwnerOf(s.at[p].snapshot)
      && (s.at[p].snapshot.None? ==> s.all[s.at[p].stmt].open)
      && (s.at[p].snapshot.Some? ==> (s.all[s.at[p].stmt].open <==> s.at[p].snapshot.value in s.live))
  }

  ghost predicate HeldNotCached(s: System) {
    && (forall p, q :: p in s.at && s.at[p].Prepared? && q in s.cache.stmts ==> s.cache.stmts[q] != s.at[p].stmt)
    && (forall p, q :: p in s.at && s.at[p].Prepared? && s.cache.txStmts.Some? && q in s.cache.txStmts.value ==>
          s.cache.txStmts.value[q] != s.at[p].stmt)
  }

  ghost predicate HeldOnce(s: System) {
    forall p, r :: p in s.at && r in s.at && s.at[p].Prepared? && s.at[r].Prepared? && s.at[p].stmt == s.at[r].stmt ==> p == r
  }

  /** A goroutine between preparing and settling holds the only reference to its statement. */
  ghost predicate PendingOk(s: System) { HeldOk(s) && HeldNotCached(s) && HeldOnce(s) }

  /** No statement prepared on the database is lost: an open one is cached or about to be settled. */
  ghost predicate NoLeak(s: System) {
    forall id :: 0 <= id < |s.all| && s.all[id].owner == OnDb && s.all[id].open ==>
      (s.all[id].query in s.cache.stmts && s.cache.stmts[s.all[id].query] == id)
      || exists p :: p in s.at && s.at[p].Prepared? && s.at[p].stmt == id
  }

  /** What `prepared` returned: a database statement is the cached, open one. */
  ghost predicate UsingOk(s: System) {
    forall p :: p in s.at && s.at[p].Using? ==>
      && s.at[p].stmt < |s.all| && s.all[s.at[p].stmt].query == s.at[p].query
      && (s.all[s.at[p].stmt].owner == OnDb ==>
            s.at[p].query in s.cache.stmts && s.cache.stmts[s.at[p].query] == s.at[p].stmt)
  }

  ghost predicate SnapshotsOk(s: System) {
    forall p :: p in s.at && (s.at[p].Missed? || s.at[p].Prepared?) && s.at[p].snapshot.Some? ==>
      s.at[p].snapshot.value < s.begun
  }

  ghost predicate Inv(s: System) {
    DbEntriesOk(s) && TxEntriesOk(s) && TxsOk(s) && PendingOk(s) && NoLeak(s) && UsingOk(s) && SnapshotsOk(s)
  }

  /** A goroutine that held nothing moves: what was cached or pending still is. */
  lemma {:induction false} SamePending(s: System, s': System, p: nat, pc: Pc)
    requires NoLeak(s) && !PcOf(s, p).Prepared? && s'.cache.stmts == s.cache.stmts && s'.at == s.at[p := pc]
    requires |s'.all| == |s.all| && forall i :: 0 <= i < |s.all| ==> s'.all[i].open ==> s.all[i] == s'.all[i]
    ensures NoLeak(s')
  {
    forall id | 0 <= id < |s'.all| && s'.all[id].owner == OnDb && s'.all[id].open
      ensures (s'.all[id].query in s'.cache.stmts && s'.cache.stmts[s'.all[id].query] == id)
              || exists r :: r in s'.at && s'.at[r].Prepared? && s'.at[r].stmt == id
    {
      StillHeld(s, s', p, pc, id);
    }
  }

  lemma {:induction false} StillHeld(s: System, s': System, p: nat, pc: Pc, id: nat)
    requires NoLeak(s) && s'.at == s.at[p := pc] && id < |s.all| && s.all[id].owner == OnDb && s.all[id].open
    requires PcOf(s, p).Prepared? ==> PcOf(s, p).stmt != id
    ensures (s.all[id].query in s.cache.stmts && s.cache.stmts[s.all[id].query] == id)
            || exists r :: r in s'.at && s'.at[r].Prepared? && s'.at[r].stmt == id
  {
    if !(s.all[id].query in s.cache.stmts && s.cache.stmts[s.all[id].query] == id) {
      var r :| r in s.at && s.at[r].Prepared? && s.at[r].stmt == id;
      assert r in s'.at && s'.at[r].Prepared? && s'.at[r].stmt == id;
    }
  }

  // ----- every action but settling, one conjunct at a time -----

  lemma {:induction false} EntriesKept(s: System, a: Action)
    requires DbEntriesOk(s) && TxEntriesOk(s) && TxsOk(s) && Do(s, a).Some? && !a.DoSettle?
    ensures DbEntriesOk(Do(s, a).value) && TxEntriesOk(Do(s, a).value)
  {
  }

  lemma {:induction false} TxsKept(s: System, a: Action)
    requires TxsOk(s) && TxEntriesOk(s) && Do(s, a).Some? && !a.DoSettle?
    ensures TxsOk(Do(s, a).value)
  {
    hide CloseTx;
  }

  lemma {:induction false} HeldKept(s: System, a: Action)
    requires HeldOk(s) && TxsOk(s) && SnapshotsOk(s) && Do(s, a).Some? && !a.DoSettle?
    ensures HeldOk(Do(s, a).value)
  {
  }

  lemma {:induction false} HeldNotCachedKept(s: System, a: Action)
    requires HeldNotCached(s) && DbEntriesOk(s) && TxEntriesOk(s) && Do(s, a).Some? && !a.DoSettle?
    ensures HeldNotCached(Do(s, a).value)
  {
    hide CloseTx;
  }

  lemma {:induction false} HeldOnceKept(s: System, a: Action)
    requires HeldOnce(s) && HeldOk(s) && Do(s, a).Some? && !a.DoSettle?
    ensures HeldOnce(Do(s, a).value)
  {
    hide CloseTx;
  }

  lemma {:induction false} UsingKept(s: System, a: Action)
    requires UsingOk(s) && DbEntriesOk(s) && TxEntriesOk(s) && Do(s, a).Some? && !a.DoSettle?
    ensures UsingOk(Do(s, a).value)
  {
  }

  lemma {:induction false} SnapshotsKept(s: System, a: Action)
    requires SnapshotsOk(s) && TxEntriesOk(s) && TxsOk(s) && Do(s, a).Some? && !a.DoSettle?
    ensures SnapshotsOk(Do(s, a).value)
  {
    hide CloseTx;
  }

  lemma {:induction false} PrepareNoLeak(s: System, p: nat)
    requires NoLeak(s) && Do(s, DoPrepare(p)).Some?
    ensures NoLeak(Do(s, DoPrepare(p)).value)
  {
    var s' := Do(s, DoPrepare(p)).value;
    forall id | 0 <= id < |s'.all| && s'.all[id].owner == OnDb && s'.all[id].open
      ensures (s'.all[id].query in s'.cache.stmts && s'.cache.stmts[s'.all[id].query] == id)
              || exists r :: r in s'.at && s'.at[r].Prepared? && s'.at[r].stmt == id
    {
      if id == |s.all| {
        assert p in s'.at && s'.at[p].Prepared? && s'.at[p].stmt == id;
      } else {
        StillHeld(s, s', p, s'.at[p], id);
      }
    }
  }

  lemma {:induction false} NoLeakKept(s: System, a: Action)
    requires NoLeak(s) && Do(s, a).Some? && !a.DoSettle?
    ensures NoLeak(Do(s, a).value)
  {
    hide NoLeak;
    if a.DoPrepare? {
      PrepareNoLeak(s, a.p);
    } else {
      var s' := Do(s, a).value;
      SamePending(s, s', a.p, s'.at[a.p]);
    }
  }

  lemma {:induction false} SettleNoLeak(s: System, p: nat)
    requires NoLeak(s) && DbEntriesOk(s) && PendingOk(s) && Do(s, DoSettle(p)).Some?
    ensures NoLeak(Do(s, DoSettle(p)).value)
  {
    var s', pc := Do(s, DoSettle(p)).value, PcOf(s, p);
    forall id | 0 <= id < |s'.all| && s'.all[id].owner == OnDb && s'.all[id].open
      ensures (s'.all[id].query in s'.cache.stmts && s'.cache.stmts[s'.all[id].query] == id)
              || exists r :: r in s'.at && s'.at[r].Prepared? && s'.at[r].stmt == id
    {
      if id != pc.stmt {
        StillHeld(s, s', p, s'.at[p], id);
      }
    }
  }

  lemma {:induction false} SettleHeld(s: System, p: nat)
    requires HeldOk(s) && HeldOnce(s) && Do(s, DoSettle(p)).Some?
    ensures HeldOk(Do(s, DoSettle(p)).value) && HeldOnce(Do(s, DoSettle(p)).value)
  {
  }

  lemma {:induction false} SettleHeldNotCached(s: System, p: nat)
    requires HeldNotCached(s) && HeldOnce(s) && Do(s, DoSettle(p)).Some?
    ensures HeldNotCached(Do(s, DoSettle(p)).value)
  {
    hide CloseStmt;
  }

  lemma {:induction false} SettleUsing(s: System, p: nat)
    requires UsingOk(s) && DbEntriesOk(s) && TxEntriesOk(s) && PendingOk(s) && Do(s, DoSettle(p)).Some?
    ensures UsingOk(Do(s, DoSettle(p)).value)
  {
    hide HeldOnce;
  }

  lemma {:induction false} SettleDbEntries(s: System, p: nat)
    requires DbEntriesOk(s) && PendingOk(s) && Do(s, DoSettle(p)).Some?
    ensures DbEntriesOk(Do(s, DoSettle(p)).value)
  {
    hide HeldOnce;
  }

  lemma {:induction false} SettleTxEntries(s: System, p: nat)
    requires TxEntriesOk(s) && PendingOk(s) && Do(s, DoSettle(p)).Some?
    ensures TxEntriesOk(Do(s, DoSettle(p)).value)
  {
    hide HeldOnce;
  }

  lemma {:induction false} SettleTxs(s: System, p: nat)
    requires TxsOk(s) && SnapshotsOk(s) && Do(s, DoSettle(p)).Some?
    ensures TxsOk(Do(s, DoSettle(p)).value) && SnapshotsOk(Do(s, DoSettle(p)).value)
  {
    hide CloseStmt;
  }

  lemma {:induction false} SettleKeeps(s: System, p: nat)
    requires Inv(s) && Do(s, DoSettle(p)).Some?
    ensures Inv(Do(s, DoSettle(p)).value)
  {
    hide Do, NoLeak, HeldOk, HeldNotCached, HeldOnce, UsingOk, DbEntriesOk, TxEntriesOk, TxsOk, SnapshotsOk;
    SettleNoLeak(s, p);
    SettleHeld(s, p);
    SettleHeldNotCached(s, p);
    SettleUsing(s, p);
    SettleDbEntries(s, p);
    SettleTxEntries(s, p);
    SettleTxs(s, p);
  }

  /** Every action of every goroutine keeps the invariant. */
  lemma {:induction false} DoKeeps(s: System, a: Action)
    requires Inv(s) && Do(s, a).Some?
    ensures Inv(Do(s, a).value)
  {
    hide Do, DbEntriesOk, TxEntriesOk, TxsOk, HeldOk, HeldNotCached, HeldOnce, NoLeak, UsingOk, SnapshotsOk;
    if a.DoSettle? {
      SettleKeeps(s, a.p);
    } else {
      EntriesKept(s, a);
      TxsKept(s, a);
      HeldKept(s, a);
      HeldNotCachedKept(s, a);
      HeldOnceKept(s, a);
      UsingKept(s, a);
      SnapshotsKept(s, a);
      NoLeakKept(s, a);
    }
  }

  lemma {:induction false} RunKeepsFrom(s: System, actions: seq<Action>)
    requires Inv(s) && Run(s, actions).Some?
    ensures Inv(Run(s, actions).value)
  {
    hide Inv, Do;
    if actions != [] {
      RunKeepsFrom(s, actions[..|actions| - 1]);
      DoKeeps(Run(s, actions[..|actions| - 1]).value, actions[|actions| - 1]);
    }
  }

  /** Safety over whole runs: in every interleaving, from an empty cache, the invariant holds. */
  lemma {:induction false} RunKeeps(actions: seq<Action>)
    requires Run(Start, actions).Some?
    ensures Inv(Run(Start, actions).value)
  {
    assert Inv(Start);
    hide Inv, Do;
    RunKeepsFrom(Start, actions);
  }

  /** A closed statement stays closed, whatever happens afterwards. */
  lemma {:induction false} StaysClosed(s: System, actions: seq<Action>, id: nat)
    requires id < |s.all| && !s.all[id].open && Run(s, actions).Some?
    ensures var s' := Run(s, actions).value; id < |s'.all| && !s'.all[id].open && s'.all[id].owner == s.all[id].owner
  {
    if actions != [] {
      StaysClosed(s, actions[..|actions| - 1], id);
    }
  }

  // ----- consequences -----

  /** The statement that lost the race on the database is closed, its preparer gets the winner. */
  lemma {:induction false} LoserClosed(actions: seq<Action>, p: nat)
    requires Run(Start, actions).Some?
    requires var s := Run(Start, actions).value;
             PcOf(s, p).Prepared? && PcOf(s, p).snapshot.None? && PcOf(s, p).query in s.cache.stmts
    ensures var s := Run(Start, actions).value;
            var lost := PcOf(s, p).stmt;
            var s' := Do(s, DoSettle(p)).value;
            && lost < |s'.all| && s'.all[lost].owner == OnDb && !s'.all[lost].open
            && PcOf(s', p) == Using(PcOf(s, p).query, s.cache.stmts[PcOf(s, p).query])
  {
    RunKeeps(actions);
    hide Run, NoLeak, UsingOk, TxEntriesOk, TxsOk, SnapshotsOk;
  }

  /** ... and nobody is ever given it: not then and not after any further actions. */
  lemma {:induction false} LoserNeverReturned(actions: seq<Action>, p: nat, more: seq<Action>)
    requires Run(Start, actions).Some?
    requires var s := Run(Start, actions).value;
             PcOf(s, p).Prepared? && PcOf(s, p).snapshot.None? && PcOf(s, p).query in s.cache.stmts
    requires Run(Do(Run(Start, actions).value, DoSettle(p)).value, more).Some?
    ensures var s := Run(Start, actions).value;
            var later := Run(Do(s, DoSettle(p)).value, more).value;
            forall r :: r in later.at && later.at[r].Using? ==> later.at[r].stmt != PcOf(s, p).stmt
  {
    var s := Run(Start, actions).value;
    RunKeeps(actions);
    LoserClosed(actions, p);
    hide Run, Do, Inv;
    DoKeeps(s, DoSettle(p));
    RunKeepsFrom(Do(s, DoSettle(p)).value, more);
    StaysClosed(Do(s, DoSettle(p)).value, more, PcOf(s, p).stmt);
    ClosedNotUsed(Run(Do(s, DoSettle(p)).value, more).value, PcOf(s, p).stmt);
  }

  lemma {:induction false} ClosedNotUsed(s: System, id: nat)
    requires Inv(s) && id < |s.all| && s.all[id].owner == OnDb && !s.all[id].open
    ensures forall r :: r in s.at && s.at[r].Using? ==> s.at[r].stmt != id
  {
    hide NoLeak, PendingOk, TxsOk, TxEntriesOk, SnapshotsOk;
  }

  /** Nothing is inserted for a transaction that has ended: an entry appears in txStmts only for a
      statement of the transaction that is current and not finished. */
  lemma {:induction false} InsertedForCurrent(actions: seq<Action>, a: Action, q: Query)
    requires Run(Start, actions).Some? && Do(Run(Start, actions).value, a).Some?
    requires var s, s' := Run(Start, actions).value, Do(Run(Start, actions).value, a).value;
             && s'.cache.txStmts.Some? && q in s'.cache.txStmts.value
             && !(s.cache.txStmts.Some? && q in s.cache.txStmts.value)
    ensures var s, s' := Run(Start, actions).value, Do(Run(Start, actions).value, a).value;
            && s.cache.tx.Some? && s'.cache.tx == s.cache.tx && s.cache.tx.value in s.live
            && s'.cache.txStmts.value[q] < |s'.all|
            && s'.all[s'.cache.txStmts.value[q]].owner == OnTx(s.cache.tx.value)
  {
    RunKeeps(actions);
    hide Run, NoLeak, UsingOk, TxsOk;
    var s := Run(Start, actions).value;
    DoKeeps(s, a);
  }

  /** The map of the moment: the transaction's while one is current, else the database's. */
  function Current(s: System): map<Query, nat> {
    if s.cache.tx.None? then s.cache.stmts else if s.cache.txStmts.Some? then s.cache.txStmts.value else map[]
  }

  /** A lookup hits exactly what is cached for the current transaction, or for the database when there is
      none: an open statement for this query, prepared there. A miss takes the snapshot. */
  lemma {:induction false} LookupIsCurrent(actions: seq<Action>, p: nat, q: Query)
    requires Run(Start, actions).Some? && Do(Run(Start, actions).value, DoLookup(p, q)).Some?
    ensures var s := Run(Start, actions).value;
            var pc := PcOf(Do(s, DoLookup(p, q)).value, p);
            && (pc.Using? <==> q in Current(s)) && (pc.Missed? <==> q !in Current(s))
            && (pc.Missed? ==> pc == Missed(q, s.cache.tx))
            && (pc.Using? ==> pc.query == q && pc.stmt < |s.all| && s.all[pc.stmt] == Stmt(q, OwnerOf(s.cache.tx), true))
  {
    RunKeeps(actions);
    hide Run, NoLeak, UsingOk, PendingOk, TxsOk, SnapshotsOk;
  }

  /** What `prepared` returns after preparing is for its query and of the snapshot's owner, and open
      unless its transaction has finished. */
  lemma {:induction false} SettledIsOwn(actions: seq<Action>, p: nat)
    requires Run(Start, actions).Some? && PcOf(Run(Start, actions).value, p).Prepared?
    ensures var s := Run(Start, actions).value;
            var was, s' := PcOf(s, p), Do(s, DoSettle(p)).value;
            var pc := PcOf(s', p);
            && pc.Using? && pc.query == was.query && pc.stmt < |s'.all|
            && s'.all[pc.stmt].query == was.query && s'.all[pc.stmt].owner == OwnerOf(was.snapshot)
            && (was.snapshot.None? || was.snapshot.value in s'.live ==> s'.all[pc.stmt].open)
  {
    RunKeeps(actions);
    hide Run, NoLeak, UsingOk, SnapshotsOk, HeldOnce;
  }

  /** Close, once every goroutine is done and no transaction is current: no statement prepared on the
      database stays open. */
  lemma {:induction false} CloseReleasesAll(actions: seq<Action>, closed: set<nat>)
    requires Run(Start, actions).Some?
    requires var s := Run(Start, actions).value;
             && (forall p :: p in s.at ==> s.at[p] == Idle)
             && closed == s.cache.stmts.Values
    ensures var s := Run(Start, actions).value;
            forall id :: 0 <= id < |s.all| && s.all[id].owner == OnDb && s.all[id].open ==> id in closed
  {
    RunKeeps(actions);
    hide Run;
  }
}
