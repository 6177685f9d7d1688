/** When a cached answer is stale: the key of internal/analyzer/analyzer.go holds neither the parsed
    statement nor the parameter names, which the analyzers read. Answers are right in every history if
    and only if what the key leaves out does not matter. */
module CacheStaleness {
  import opened Common
  import opened ActionKeys
  import opened CacheStore
  import opened CacheDisk
  import opened CacheClients
  import CC = CacheClients

  function Fresh<V>(): System<V> { System(Empty, map[], false) }

  // ----- histories, one piece after the other -----

  ghost predicate Untouched(events: seq<Event>) {
    forall i :: 0 <= i < |events| ==> !events[i].Overwrite?
  }

  /** Some history in which nobody overwrites a blob leads to this state. */
  ghost predicate Reaches<V(!new)>(w: World<V>, s: System<V>) {
    exists events :: Untouched(events) && CC.Run(w, events) == Some(s)
  }

  lemma {:induction false} ReachDo<V(!new)>(w: World<V>, s: System<V>, e: Event)
    requires Reaches(w, s) && !e.Overwrite? && CC.Do(w, s, e).Some?
    ensures Reaches(w, CC.Do(w, s, e).value)
  {
    hide CC.Do;
    var events :| Untouched(events) && CC.Run(w, events) == Some(s);
    var more := events + [e];
    assert more[..|more| - 1] == events;
    assert CC.Run(w, more) == CC.Do(w, s, e) && Untouched(more);
  }

  /** The state after process p's operation has come to `n`. */
  function Moved<V>(s: System<V>, p: nat, fs: Files, op: Op): System<V>
    requires p in s.clients
  {
    s.(fs := fs, clients := s.clients[p := s.clients[p].(op := op)])
  }

  lemma {:induction false} ReachSolo<V(!new)>(w: World<V>, s: System<V>, p: nat, cs: seq<Choice>)
    requires Reaches(w, s) && p in s.clients && RunOp(w.format, s.fs, s.clients[p].op, cs).Next?
    ensures var n := RunOp(w.format, s.fs, s.clients[p].op, cs); Reaches(w, Moved(s, p, n.fs, n.op))
  {
    hide OpStep, Reaches;
    if cs == [] {
      assert Moved(s, p, s.fs, s.clients[p].op) == s by {
        assert s.clients[p := s.clients[p]] == s.clients;
      }
    } else {
      var init, last := cs[..|cs| - 1], cs[|cs| - 1];
      ReachSolo(w, s, p, init);
      var n := RunOp(w.format, s.fs, s.clients[p].op, init);
      var mid := Moved(s, p, n.fs, n.op);
      assert CC.Do(w, mid, Step(p, last)).Some?;
      ReachDo(w, mid, Step(p, last));
      var m := RunOp(w.format, s.fs, s.clients[p].op, cs);
      assert mid.clients[p := mid.clients[p].(op := m.op)] == s.clients[p := s.clients[p].(op := m.op)];
    }
  }

  // ----- what one operation does when every call works -----

  lemma {:induction false} Stages(w: Format, fs: Files, target: Target, data: Bytes, name: nat) returns (cs: seq<Choice>)
    requires name !in fs.used
    ensures var n := RunOp(w, fs, Create(target, data), cs);
            && n.Next? && n.op == Done(Stored) && n.fs.used == fs.used + {name}
            && n.fs.cas == (if target.ToCas? then fs.cas[w.h(data) := data] else fs.cas)
            && n.fs.ac == (if target.ToAc? then fs.ac[target.key := data] else fs.ac)
  {
    hide RunOp;
    var op := Create(target, data);
    assert RunOp(w, fs, op, []) == Next(fs, op) by { Unmoved(w, fs, op); }
    RunOpMore(w, fs, op, [], Choice(true, name, 0, ""));
    cs := [] + [Choice(true, name, 0, "")];
    RunOpMore(w, fs, op, cs, Choice(true, 0, |data|, ""));
    cs := cs + [Choice(true, 0, |data|, "")];
    assert data[..|data|] == data;
    RunOpMore(w, fs, op, cs, YES);
    cs := cs + [YES];
    RunOpMore(w, fs, op, cs, YES);
    cs := cs + [YES];
  }

  lemma {:induction false} Unmoved(w: Format, fs: Files, op: Op)
    ensures RunOp(w, fs, op, []) == Next(fs, op)
  {
  }

  lemma {:induction false} Puts(w: Format, fs: Files, data: Bytes, name: nat) returns (cs: seq<Choice>)
    requires name !in fs.used && w.h(data) !in fs.cas
    ensures var n := RunOp(w, fs, PutStat(data), cs);
            && n.Next? && n.op == Done(Stored) && n.fs.used == fs.used + {name}
            && n.fs.cas == fs.cas[w.h(data) := data] && n.fs.ac == fs.ac
  {
    hide RunOp;
    Unmoved(w, fs, PutStat(data));
    RunOpMore(w, fs, PutStat(data), [], YES);
    var more := Stages(w, fs, ToCas, data, name);
    RunOpAppend(w, fs, PutStat(data), [] + [YES], more);
    cs := [] + [YES] + more;
  }

  lemma {:induction false} Records(w: Format, fs: Files, key: string, output: string, d: Digest, name: nat) returns (cs: seq<Choice>)
    requires name !in fs.used && Contains(fs, d)
    ensures var entry := map[output := d];
            var n := RunOp(w, fs, PutCheck(key, entry, entry.Keys), cs);
            n.Next? && n.op == Done(Stored) && n.fs.cas == fs.cas && n.fs.ac == fs.ac[key := w.enc(entry)]
  {
    hide RunOp, Contains;
    var entry := map[output := d];
    var op := PutCheck(key, entry, entry.Keys);
    assert output in entry.Keys && entry.Keys - {output} == {};
    Unmoved(w, fs, op);
    RunOpMore(w, fs, op, [], Choice(true, 0, 0, output));
    var first := [] + [Choice(true, 0, 0, output)];
    RunOpMore(w, fs, op, first, YES);
    first := first + [YES];
    var mid := RunOp(w, fs, op, first).fs;
    var more := Stages(w, mid, ToAc(key, entry), w.enc(entry), name);
    RunOpAppend(w, fs, op, first, more);
    cs := first + more;
  }

  lemma {:induction false} Hits(w: Format, fs: Files, key: string, output: string, d: Digest) returns (cs: seq<Choice>)
    requires FormatOk(w) && Valid(key) && Contains(fs, d) && key in fs.ac && fs.ac[key] == w.enc(map[output := d])
    ensures RunOp(w, fs, ActRead(key), cs) == Next(fs, Done(Hit(key, map[output := d])))
  {
    hide RunOp, Contains, Valid;
    var entry := map[output := d];
    assert w.dec(w.enc(entry)) == Some(entry);
    assert output in entry.Keys && entry.Keys - {output} == {};
    Unmoved(w, fs, ActRead(key));
    RunOpMore(w, fs, ActRead(key), [], YES);
    cs := [] + [YES];
    RunOpMore(w, fs, ActRead(key), cs, Choice(true, 0, 0, output));
    cs := cs + [Choice(true, 0, 0, output)];
    RunOpMore(w, fs, ActRead(key), cs, YES);
    cs := cs + [YES];
  }

  lemma {:induction false} One(w: Format, fs: Files, op: Op)
    ensures RunOp(w, fs, op, [YES]) == OpStep(w, fs, op, YES)
  {
    Unmoved(w, fs, op);
    RunOpMore(w, fs, op, [], YES);
    assert [] + [YES] == [YES];
  }

  // ----- one call stores its value -----

  /** The store holds what job i was stored as. */
  ghost predicate Keeps<V(!new)>(w: World<V>, fs: Files, i: Job) {
    && w.compute(i).Some? && Key(w, i) in fs.ac
    && fs.ac[Key(w, i)] == w.format.enc(EntryOf(w, i, w.compute(i).value))
    && Contains(fs, DigestOf(w.format, BlobOf(w, i, w.compute(i).value)))
    && fs.cas[w.format.h(BlobOf(w, i, w.compute(i).value))] == BlobOf(w, i, w.compute(i).value)
  }

  lemma {:induction false} JobFacts<V(!new)>(w: World<V>, i: Job)
    requires WorldOk(w) && i in w.jobs && w.compute(i).Some?
    ensures FormatOk(w.format) && Valid(Key(w, i)) && Valid(w.format.h(BlobOf(w, i, w.compute(i).value)))
    ensures w.fromBytes(i.request.QueryAnalysis?, BlobOf(w, i, w.compute(i).value)) == w.compute(i)
  {
    hide RequestBytes, RequestFits, Valid;
    assert JobOk(w, i);
  }

  lemma {:induction false} ReachCall<V(!new)>(w: World<V>, s: System<V>, p: nat, j: Job)
    requires Reaches(w, s) && j in w.jobs && p !in s.clients
    ensures Reaches(w, s.(clients := s.clients[p := Client(j, Asking, ActRead(Key(w, j)))]))
  {
    hide Reaches;
    ReachDo(w, s, Call(p, j, true));
  }

  lemma {:induction false} ReachContinue<V(!new)>(w: World<V>, s: System<V>, p: nat)
    requires Reaches(w, s) && p in s.clients && Resume(w, s.clients[p], true).Some?
    ensures Reaches(w, s.(clients := s.clients[p := Resume(w, s.clients[p], true).value]))
  {
    hide Reaches, Resume;
    ReachDo(w, s, Continue(p, true));
  }

  /** Process 0 asks and misses. */
  lemma {:induction false} Misses<V(!new)>(w: World<V>, i: Job)
    requires WorldOk(w) && i in w.jobs && w.compute(i).Some?
    ensures Reaches(w, System(Empty, map[0 := Client(i, Asking, Done(NotFound))], false))
  {
    hide Reaches, WorldOk, Valid, Key;
    JobFacts(w, i);
    assert Reaches(w, Fresh<V>()) by { ReachStart(w); }
    ReachCall(w, Fresh<V>(), 0, i);
    var s := System(Empty, map[0 := Client(i, Asking, ActRead(Key(w, i)))], false);
    assert s == Fresh<V>().(clients := s.clients);
    One(w.format, Empty, ActRead(Key(w, i)));
    ReachSolo(w, s, 0, [YES]);
    assert Moved(s, 0, Empty, Done(NotFound)).clients == map[0 := Client(i, Asking, Done(NotFound))];
  }

  /** ... so it computes. */
  lemma {:induction false} Computes<V(!new)>(w: World<V>, i: Job)
    requires WorldOk(w) && i in w.jobs && w.compute(i).Some?
    ensures Reaches(w, System(Empty, map[0 := Client(i, SavingBlob(w.compute(i).value), PutStat(BlobOf(w, i, w.compute(i).value)))], false))
  {
    hide Reaches, WorldOk, BlobOf;
    Misses(w, i);
    var a := System(Empty, map[0 := Client(i, Asking, Done(NotFound))], false);
    ReachContinue(w, a, 0);
    var b := a.(clients := a.clients[0 := Client(i, Computing, Nothing)]);
    ReachContinue(w, b, 0);
    var c := Client(i, SavingBlob(w.compute(i).value), PutStat(BlobOf(w, i, w.compute(i).value)));
    assert b.clients[0 := c] == map[0 := c];
  }

  lemma {:induction false} ReachStart<V(!new)>(w: World<V>)
    ensures Reaches(w, Fresh<V>())
  {
    assert Untouched([]) && CC.Run(w, []) == Some(Fresh<V>());
  }

  /** ... and stores the blob and the entry. */
  lemma {:induction false} Stores<V(!new)>(w: World<V>, i: Job) returns (s: System<V>)
    requires WorldOk(w) && i in w.jobs && w.compute(i).Some?
    ensures Reaches(w, s) && Keeps(w, s.fs, i) && 1 !in s.clients
  {
    hide Reaches, WorldOk, Valid, RunOp, Key;
    JobFacts(w, i);
    Computes(w, i);
    var v := w.compute(i).value;
    var blob, d := BlobOf(w, i, v), DigestOf(w.format, BlobOf(w, i, v));
    s := System(Empty, map[0 := Client(i, SavingBlob(v), PutStat(blob))], false);
    var cs := Puts(w.format, Empty, blob, 0);
    ReachSolo(w, s, 0, cs);
    var fs := RunOp(w.format, Empty, PutStat(blob), cs).fs;
    s := Moved(s, 0, fs, Done(Stored));
    ReachDo(w, s, Continue(0, true));
    s := CC.Do(w, s, Continue(0, true)).value;
    assert Contains(fs, d);
    cs := Records(w.format, fs, Key(w, i), OutputName(i.request), d, 1);
    ReachSolo(w, s, 0, cs);
    s := Moved(s, 0, RunOp(w.format, fs, s.clients[0].op, cs).fs, Done(Stored));
  }

  // ----- a call alike is served it -----

  /** Process 1 asks for a job with the same key and hits. */
  lemma {:induction false} Finds<V(!new)>(w: World<V>, i: Job, j: Job) returns (s: System<V>)
    requires WorldOk(w) && i in w.jobs && j in w.jobs && Alike(i, j) && w.compute(i).Some?
    ensures Reaches(w, s) && Keeps(w, s.fs, i) && 1 in s.clients
    ensures s.clients[1] == Client(j, Asking, Done(Hit(Key(w, j), EntryOf(w, i, w.compute(i).value))))
  {
    hide Reaches, WorldOk, Valid, RunOp, Contains;
    JobFacts(w, i);
    s := Stores(w, i);
    ReachCall(w, s, 1, j);
    s := s.(clients := s.clients[1 := Client(j, Asking, ActRead(Key(w, j)))]);
    var d := DigestOf(w.format, BlobOf(w, i, w.compute(i).value));
    var cs := Hits(w.format, s.fs, Key(w, j), OutputName(i.request), d);
    ReachSolo(w, s, 1, cs);
    s := Moved(s, 1, s.fs, Done(Hit(Key(w, j), EntryOf(w, i, w.compute(i).value))));
  }

  /** It fetches the blob, re-hashing it or opening it where it lies. */
  lemma {:induction false} Fetches<V(!new)>(w: World<V>, i: Job, j: Job) returns (s: System<V>)
    requires WorldOk(w) && i in w.jobs && j in w.jobs && Alike(i, j) && w.compute(i).Some?
    ensures var d := DigestOf(w.format, BlobOf(w, i, w.compute(i).value));
            && Reaches(w, s) && 1 in s.clients
            && s.clients[1] == Client(j, Fetching(d), Done(Blob(d, BlobOf(w, i, w.compute(i).value))))
  {
    hide Reaches, WorldOk, Valid, RunOp, Key, BlobOf;
    JobFacts(w, i);
    var v := w.compute(i).value;
    var d := DigestOf(w.format, BlobOf(w, i, v));
    s := Finds(w, i, j);
    EntryHasOutput(w, i, v);
    hide EntryOf;
    ReachContinue(w, s, 1);
    var c := Client(j, Fetching(d), if j.request.QueryAnalysis? then GetRead(d) else FileStat(d));
    assert Resume(w, s.clients[1], true) == Some(c);
    s := s.(clients := s.clients[1 := c]);
    One(w.format, s.fs, c.op);
    ReachSolo(w, s, 1, [YES]);
    if j.request.QueryAnalysis? {
      s := Moved(s, 1, s.fs, Done(Blob(d, BlobOf(w, i, v))));
    } else {
      s := Moved(s, 1, s.fs, Done(Present));
      s := Opens(w, s, i, j, d);
    }
  }

  lemma {:induction false} Opens<V(!new)>(w: World<V>, s0: System<V>, i: Job, j: Job, d: Digest) returns (s: System<V>)
    requires Reaches(w, s0) && Keeps(w, s0.fs, i) && 1 in s0.clients
    requires d == DigestOf(w.format, BlobOf(w, i, w.compute(i).value))
    requires s0.clients[1] == Client(j, Fetching(d), Done(Present))
    ensures Reaches(w, s) && 1 in s.clients
    ensures s.clients[1] == Client(j, Fetching(d), Done(Blob(d, BlobOf(w, i, w.compute(i).value))))
  {
    hide Reaches, Valid, RunOp, Key, BlobOf, EntryOf;
    ReachContinue(w, s0, 1);
    s := s0.(clients := s0.clients[1 := Client(j, Fetching(d), FileOpen(d))]);
    One(w.format, s.fs, FileOpen(d));
    ReachSolo(w, s, 1, [YES]);
    s := Moved(s, 1, s.fs, Done(Blob(d, BlobOf(w, i, w.compute(i).value))));
  }

  /** What one call stored, a call alike is given, whatever it would have computed itself. */
  lemma {:induction false} GivenAlike<V(!new)>(w: World<V>, i: Job, j: Job) returns (events: seq<Event>)
    requires WorldOk(w) && i in w.jobs && j in w.jobs && Alike(i, j) && w.compute(i).Some?
    ensures Untouched(events) && Answers(w, events, 1)
    ensures CC.Run(w, events).value.clients[1] == Client(j, Returned(w.compute(i)), Nothing)
  {
    hide WorldOk, Valid, Key, BlobOf, CC.Run;
    JobFacts(w, i);
    var s := Fetches(w, i, j);
    ReachContinue(w, s, 1);
    s := s.(clients := s.clients[1 := Client(j, Returned(w.compute(i)), Nothing)]);
    events :| Untouched(events) && CC.Run(w, events) == Some(s);
    assert !s.overwritten by { RunKeeps(w, events); }
  }

  // ----- exactly when answers are right -----

  /** Every history answers this job as the job computes. */
  ghost predicate AlwaysRight<V(!new)>(w: World<V>, j: Job) {
    forall events, p :: Answers(w, events, p) && CC.Run(w, events).value.clients[p].job == j ==>
      CC.Run(w, events).value.clients[p].phase.result == w.compute(j)
  }

  /** In every history, blobs overwritten or not where the client re-hashes, the answers to a job are
      right if and only if every call alike that gives a value gives the job's own. */
  lemma {:induction false} RightIffKeyDecides<V(!new)>(w: World<V>, j: Job)
    requires WorldOk(w) && j in w.jobs
    ensures AlwaysRight(w, j) <==> KeyDecides(w, j)
  {
    hide WorldOk, CC.Run, Served;
    if KeyDecides(w, j) {
      forall events, p | Answers(w, events, p) && CC.Run(w, events).value.clients[p].job == j
        ensures CC.Run(w, events).value.clients[p].phase.result == w.compute(j)
      {
        CacheServes(w, events, p);
        DecidedServed(w, j, CC.Run(w, events).value.clients[p].phase.result);
      }
    }
    if AlwaysRight(w, j) {
      forall i | i in w.jobs && Alike(i, j) && w.compute(i).Some?
        ensures w.compute(i) == w.compute(j)
      {
        var events := GivenAlike(w, i, j);
      }
    }
  }

  /** The cache is transparent for all jobs in play if and only if no two of them that share tool and
      request differ in what they compute. */
  lemma {:induction false} TransparentIff<V(!new)>(w: World<V>)
    requires WorldOk(w)
    ensures (forall j :: j in w.jobs ==> AlwaysRight(w, j)) <==>
            (forall i, j :: i in w.jobs && j in w.jobs && Alike(i, j) ==> w.compute(i) == w.compute(j))
  {
    hide WorldOk, AlwaysRight;
    forall j | j in w.jobs
      ensures AlwaysRight(w, j) <==> KeyDecides(w, j)
    {
      RightIffKeyDecides(w, j);
    }
    if forall j :: j in w.jobs ==> AlwaysRight(w, j) {
      forall i, j | i in w.jobs && j in w.jobs && Alike(i, j)
        ensures w.compute(i) == w.compute(j)
      {
        assert KeyDecides(w, i) && KeyDecides(w, j);
      }
    }
  }

  // ----- a renamed parameter -----

  /** An analyzer that gives back the name of parameter 1, as the analyzers do. */
  function NameOfFirst(j: Job): Option<string> { if 1 in j.beside.names then Some(j.beside.names[1]) else None }

  function Asked(query: Bytes, name: string): Job {
    Job([], QueryAnalysis([], [], query), Beside([], map[1 := name]))
  }

  function TextOf(b: Bytes): string { seq(|b|, i requires 0 <= i < |b| => b[i] as char) }

  const SELECT := Ascii("SELECT $1")
  const OLD := Asked(SELECT, "a")
  const NEW := Asked(SELECT, "b")

  function Renaming(format: Format): World<string> {
    World(format, NameOfFirst, (_, v) => Ascii(v), (_, b) => Some(TextOf(b)), {OLD, NEW},
          {RequestBytes([], QueryAnalysis([], [], SELECT)), Ascii("a"), Ascii("b")})
  }

  lemma {:induction false} RenamingOk(format: Format)
    requires FormatOk(format)
    requires forall x, y :: x in Renaming(format).play && y in Renaming(format).play && format.h(x) == format.h(y) ==> x == y
    requires forall x :: x in Renaming(format).play ==> Valid(format.h(x))
    ensures WorldOk(Renaming(format))
  {
    hide RequestBytes, FormatOk, Valid;
    var w := Renaming(format);
    assert TextOf(Ascii("a")) == "a" && TextOf(Ascii("b")) == "b";
    assert JobOk(w, OLD) && JobOk(w, NEW);
  }

  /** A query whose parameter is renamed from a to b keeps its key: the answer still names it a. */
  lemma {:induction false} RenamedParameterIsStale(format: Format) returns (events: seq<Event>)
    requires FormatOk(format)
    requires forall x, y :: x in Renaming(format).play && y in Renaming(format).play && format.h(x) == format.h(y) ==> x == y
    requires forall x :: x in Renaming(format).play ==> Valid(format.h(x))
    ensures Answers(Renaming(format), events, 1)
    ensures var c := CC.Run(Renaming(format), events).value.clients[1];
            c.job == NEW && c.phase.result == Some("a") && Renaming(format).compute(NEW) == Some("b")
  {
    RenamingOk(format);
    hide WorldOk, CC.Run;
    events := GivenAlike(Renaming(format), OLD, NEW);
  }
}
