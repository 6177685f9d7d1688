/** The on-disk store shared by many processes: internal/cache/cas.go and internal/cache/action.go.
    Every system call is one atomic step; a process may stop between any two of them, and any call may
    fail. The hash and the JSON form of an action result are parameters. */
module CacheStore {
  import opened Common

  datatype Digest = Digest(hash: string, size: int) // a negative size is unknown
  type Outputs = map<string, Digest>

  datatype Format = Format(h: Bytes -> string, enc: Outputs -> Bytes, dec: Bytes -> Option<Outputs>)

  /** Reading an entry back gives what was written. */
  ghost predicate FormatOk(w: Format) {
    forall o: Outputs :: w.dec(w.enc(o)) == Some(o)
  }

  function DigestOf(w: Format, data: Bytes): Digest { Digest(w.h(data), |data|) }

  predicate HexDigit(c: char) { '0' <= c <= '9' || 'a' <= c <= 'f' || 'A' <= c <= 'F' }

  predicate Valid(hash: string) { |hash| == 64 && forall i :: 0 <= i < 64 ==> HexDigit(hash[i]) }

  /** cas/ and ac/ by hash, tmp/ by staging name. Two histories: the staging names ever used, and the
      digests that passed the check of an action Put, by action. */
  datatype Files = Files(cas: map<string, Bytes>, ac: map<string, Bytes>, tmp: map<nat, Bytes>,
                         used: set<nat>, checked: set<Passed>)
  datatype Passed = Passed(key: string, digest: Digest)

  const Empty := Files(map[], map[], map[], {}, {})

  predicate Contains(fs: Files, d: Digest) {
    Valid(d.hash) && d.hash in fs.cas && (d.size < 0 || |fs.cas[d.hash]| == d.size)
  }

  datatype Target = ToCas | ToAc(key: string, result: Outputs)

  datatype Outcome =
    | Stored
    | Failed
    | NotFound
    | Present
    | Blob(digest: Digest, data: Bytes)
    | Hit(key: string, result: Outputs)

  /** Where a process stands inside Put, Get, Filename or an action's Put and Get. */
  datatype Op =
    | PutStat(data: Bytes)
    | PutCheck(key: string, result: Outputs, todo: set<string>)
    | Create(target: Target, data: Bytes)
    | Write(target: Target, data: Bytes, name: nat)
    | Rename(target: Target, data: Bytes, name: nat)
    | Remove(name: nat, outcome: Outcome)
    | GetRead(digest: Digest)
    | GetEvict(digest: Digest)
    | ActRead(key: string)
    | ActCheck(key: string, result: Outputs, todo: set<string>)
    | ActEvict(key: string)
    | FileStat(digest: Digest)
    | FileOpen(digest: Digest)
    | Done(outcome: Outcome)

  /** What the system decides: whether the call works, the staging name, how far a write gets, and
      which output the map iteration yields next. */
  datatype Choice = Choice(ok: bool, name: nat, upto: nat, pick: string)

  datatype Next = Stuck | Next(fs: Files, op: Op)

  function Publish(w: Format, fs: Files, target: Target, data: Bytes, name: nat): Files
    requires name in fs.tmp
  {
    match target
    case ToCas => fs.(cas := fs.cas[w.h(data) := fs.tmp[name]], tmp := fs.tmp - {name})
    case ToAc(key, _) => fs.(ac := fs.ac[key := fs.tmp[name]], tmp := fs.tmp - {name})
  }

  /** Staging: create under a fresh name, write in pieces, rename into place, remove the leftover. */
  function StageStep(w: Format, fs: Files, op: Op, c: Choice): Next
    requires op.Create? || op.Write? || op.Rename? || op.Remove?
  {
    match op
    case Create(target, data) =>
      if !c.ok then Next(fs, Done(Failed))
      else if c.name in fs.used then Stuck
      else Next(fs.(tmp := fs.tmp[c.name := []], used := fs.used + {c.name}), Write(target, data, c.name))
    case Write(target, data, name) =>
      if !c.ok then Next(fs, Remove(name, Failed))
      else if name !in fs.tmp || !(|fs.tmp[name]| <= c.upto <= |data|) then Stuck
      else Next(fs.(tmp := fs.tmp[name := data[..c.upto]]), if c.upto == |data| then Rename(target, data, name) else op)
    case Rename(target, data, name) =>
      if !c.ok || name !in fs.tmp then Next(fs, Remove(name, Failed))
      else Next(Publish(w, fs, target, data, name), Remove(name, Stored))
    case Remove(name, outcome) =>
      Next(if c.ok then fs.(tmp := fs.tmp - {name}) else fs, Done(outcome))
  }

  /** The deciding parts of Put: skip a blob of the right size; check every output of an action. */
  function PutStep(w: Format, fs: Files, op: Op, c: Choice): Next
    requires op.PutStat? || op.PutCheck?
  {
    match op
    case PutStat(data) =>
      var path := w.h(data);
      Next(fs, if c.ok && path in fs.cas && |fs.cas[path]| == |data| then Done(Stored) else Create(ToCas, data))
    case PutCheck(key, result, todo) =>
      if todo == {} then Next(fs, Create(ToAc(key, result), w.enc(result)))
      else if c.pick !in todo || c.pick !in result then Stuck
      else if c.ok && Contains(fs, result[c.pick]) then
        Next(fs.(checked := fs.checked + {Passed(key, result[c.pick])}), PutCheck(key, result, todo - {c.pick}))
      else Next(fs, Done(Failed))
  }

  /** Reading: a blob is re-hashed, an entry decoded and its outputs looked up; what fails is evicted. */
  function GetStep(w: Format, fs: Files, op: Op, c: Choice): Next
    requires !op.PutStat? && !op.PutCheck? && !op.Create? && !op.Write? && !op.Rename? && !op.Remove?
  {
    match op
    case GetRead(d) =>
      if !Valid(d.hash) then Next(fs, Done(NotFound))
      else if !c.ok then Next(fs, Done(Failed))
      else if d.hash !in fs.cas then Next(fs, Done(NotFound))
      else if w.h(fs.cas[d.hash]) == d.hash then Next(fs, Done(Blob(d, fs.cas[d.hash])))
      else Next(fs, GetEvict(d))
    case GetEvict(d) => Next(if c.ok then fs.(cas := fs.cas - {d.hash}) else fs, Done(NotFound))
    case ActRead(key) =>
      if !Valid(key) then Next(fs, Done(NotFound))
      else if !c.ok then Next(fs, Done(Failed))
      else if key !in fs.ac then Next(fs, Done(NotFound))
      else
        var result := w.dec(fs.ac[key]);
        Next(fs, if result.None? then ActEvict(key) else ActCheck(key, result.value, result.value.Keys))
    case ActCheck(key, result, todo) =>
      if todo == {} then Next(fs, Done(Hit(key, result)))
      else if c.pick !in todo || c.pick !in result then Stuck
      else Next(fs, if c.ok && Contains(fs, result[c.pick]) then ActCheck(key, result, todo - {c.pick}) else ActEvict(key))
    case ActEvict(key) => Next(if c.ok then fs.(ac := fs.ac - {key}) else fs, Done(NotFound))
    case FileStat(d) => Next(fs, Done(if c.ok && Contains(fs, d) then Present else NotFound))
    case FileOpen(d) =>
      Next(fs, Done(if c.ok && d.hash in fs.cas then Blob(d, fs.cas[d.hash]) else Failed))
    case Done(_) => Stuck
  }

  function OpStep(w: Format, fs: Files, op: Op, c: Choice): Next {
    if op.PutStat? || op.PutCheck? then PutStep(w, fs, op, c)
    else if op.Create? || op.Write? || op.Rename? || op.Remove? then StageStep(w, fs, op, c)
    else GetStep(w, fs, op, c)
  }

  /** A blob whose file has another size than it should is not there: a Put writes it anew, an action
      that names it is not recorded, an entry that names it is evicted, and it is not opened. */
  lemma {:induction false} WrongSizeIsMissing(w: Format, fs: Files, data: Bytes, key: string, result: Outputs, todo: set<string>, c: Choice)
    requires w.h(data) in fs.cas && |fs.cas[w.h(data)]| != |data|
    requires c.pick in todo && c.pick in result && result[c.pick] == DigestOf(w, data)
    ensures OpStep(w, fs, PutStat(data), c) == Next(fs, Create(ToCas, data))
    ensures OpStep(w, fs, PutCheck(key, result, todo), c) == Next(fs, Done(Failed))
    ensures OpStep(w, fs, ActCheck(key, result, todo), c) == Next(fs, ActEvict(key))
    ensures OpStep(w, fs, FileStat(DigestOf(w, data)), c) == Next(fs, Done(NotFound))
  {
    assert todo != {};
  }

  // ----- what every step keeps -----

  /** Every output of the result passed the check of this action's Put. */
  ghost predicate AllPassed(fs: Files, key: string, result: Outputs, todo: set<string>) {
    forall name :: name in result && name !in todo ==> Passed(key, result[name]) in fs.checked
  }

  ghost predicate TargetOk(w: Format, fs: Files, target: Target, data: Bytes) {
    target.ToAc? ==> data == w.enc(target.result) && AllPassed(fs, target.key, target.result, {})
  }

  /** A staging process owns its temp file, which holds a beginning of the data. */
  ghost predicate OpOk(w: Format, fs: Files, op: Op) {
    match op
    case PutCheck(key, result, todo) => AllPassed(fs, key, result, todo)
    case Create(target, data) => TargetOk(w, fs, target, data)
    case Write(target, data, name) =>
      TargetOk(w, fs, target, data) && name in fs.tmp && name in fs.used && fs.tmp[name] <= data
    case Rename(target, data, name) =>
      TargetOk(w, fs, target, data) && name in fs.tmp && name in fs.used && fs.tmp[name] == data
    case Remove(name, _) => name in fs.used
    case _ => true
  }

  function Held(op: Op): Option<nat> {
    if op.Write? || op.Rename? || op.Remove? then Some(op.name) else None
  }

  /** A file under cas/ hashes to its own name. */
  ghost predicate CasOk(w: Format, cas: map<string, Bytes>) {
    forall n :: n in cas ==> w.h(cas[n]) == n
  }

  /** A file under ac/ is the complete encoding of a result whose outputs passed the check. */
  ghost predicate AcOk(w: Format, fs: Files) {
    forall key :: key in fs.ac ==>
      w.dec(fs.ac[key]).Some? && fs.ac[key] == w.enc(w.dec(fs.ac[key]).value)
      && AllPassed(fs, key, w.dec(fs.ac[key]).value, {})
  }

  ghost predicate TmpOk(fs: Files) {
    forall name :: name in fs.tmp ==> name in fs.used
  }

  lemma {:induction false} PutStepOwn(w: Format, fs: Files, op: Op, c: Choice)
    requires (op.PutStat? || op.PutCheck?) && OpOk(w, fs, op) && PutStep(w, fs, op, c).Next?
    ensures OpOk(w, PutStep(w, fs, op, c).fs, PutStep(w, fs, op, c).op)
  {
  }

  lemma {:induction false} StageStepOwn(w: Format, fs: Files, op: Op, c: Choice)
    requires (op.Create? || op.Write? || op.Rename? || op.Remove?) && OpOk(w, fs, op) && StageStep(w, fs, op, c).Next?
    ensures OpOk(w, StageStep(w, fs, op, c).fs, StageStep(w, fs, op, c).op)
  {
  }

  lemma {:induction false} OpStepOwn(w: Format, fs: Files, op: Op, c: Choice)
    requires OpOk(w, fs, op) && OpStep(w, fs, op, c).Next?
    ensures OpOk(w, OpStep(w, fs, op, c).fs, OpStep(w, fs, op, c).op)
  {
    if op.PutStat? || op.PutCheck? {
      PutStepOwn(w, fs, op, c);
    } else if op.Create? || op.Write? || op.Rename? || op.Remove? {
      StageStepOwn(w, fs, op, c);
    }
  }

  /** Outside its own staging name and a fresh one, a step touches no temp file; histories grow. */
  ghost predicate Around(fs: Files, op: Op, fs': Files, op': Op) {
    && fs.used <= fs'.used && fs.checked <= fs'.checked
    && (Held(op').Some? ==> Held(op') == Held(op) || Held(op').value !in fs.used)
    && (forall name :: name in fs.tmp && Some(name) != Held(op) && Some(name) != Held(op') ==>
          name in fs'.tmp && fs'.tmp[name] == fs.tmp[name])
  }

  lemma {:induction false} StepAround(w: Format, fs: Files, op: Op, c: Choice)
    requires OpStep(w, fs, op, c).Next?
    ensures Around(fs, op, OpStep(w, fs, op, c).fs, OpStep(w, fs, op, c).op)
  {
  }

  lemma {:induction false} OthersKept(w: Format, fs: Files, op: Op, fs': Files, op': Op, other: Op)
    requires Around(fs, op, fs', op') && OpOk(w, fs, other)
    requires Held(other).Some? ==> Held(other) != Held(op)
    ensures OpOk(w, fs', other)
    ensures Held(other).Some? ==> Held(other) != Held(op')
  {
    if Held(other).Some? {
      assert Held(other).value in fs.used;
    }
  }

  lemma {:induction false} StepTmp(w: Format, fs: Files, op: Op, c: Choice)
    requires TmpOk(fs) && OpStep(w, fs, op, c).Next?
    requires Held(op).Some? ==> Held(op).value in fs.used
    ensures TmpOk(OpStep(w, fs, op, c).fs)
  {
  }

  lemma {:induction false} StepCas(w: Format, fs: Files, op: Op, c: Choice)
    requires CasOk(w, fs.cas) && OpOk(w, fs, op) && OpStep(w, fs, op, c).Next?
    ensures CasOk(w, OpStep(w, fs, op, c).fs.cas)
  {
  }

  lemma {:induction false} StepAc(w: Format, fs: Files, op: Op, c: Choice)
    requires FormatOk(w) && AcOk(w, fs) && OpOk(w, fs, op) && OpStep(w, fs, op, c).Next?
    ensures AcOk(w, OpStep(w, fs, op, c).fs)
  {
    StepAround(w, fs, op, c);
    var fs' := OpStep(w, fs, op, c).fs;
    forall key | key in fs'.ac
      ensures w.dec(fs'.ac[key]).Some? && fs'.ac[key] == w.enc(w.dec(fs'.ac[key]).value)
      ensures AllPassed(fs', key, w.dec(fs'.ac[key]).value, {})
    {
      if key in fs.ac && fs'.ac[key] == fs.ac[key] {
      } else {
        assert op.Rename? && op.target.ToAc?;
      }
    }
  }

  // ----- any number of processes -----

  datatype Store = Store(fs: Files, ops: map<nat, Op>)

  datatype Act = Start(p: nat, op: Op) | Go(p: nat, choice: Choice) | Stop(p: nat) | Lose(hash: string)

  predicate Entry(op: Op) {
    || op.PutStat? || op.GetRead? || op.ActRead? || op.FileStat? || op.FileOpen?
    || (op.PutCheck? && op.todo == op.result.Keys)
  }

  /** A process starts an operation, takes one step, or stops for good; a blob may vanish. */
  function Do(w: Format, s: Store, a: Act): Option<Store> {
    match a
    case Start(p, op) =>
      if Entry(op) && (p in s.ops ==> s.ops[p].Done?) then Some(s.(ops := s.ops[p := op])) else None
    case Go(p, c) =>
      if p !in s.ops then None
      else
        var n := OpStep(w, s.fs, s.ops[p], c);
        if n.Stuck? then None else Some(Store(n.fs, s.ops[p := n.op]))
    case Stop(p) => Some(s.(ops := s.ops - {p}))
    case Lose(hash) => Some(s.(fs := s.fs.(cas := s.fs.cas - {hash})))
  }

  function Run(w: Format, acts: seq<Act>): Option<Store> {
    if acts == [] then Some(Store(Empty, map[]))
    else
      var before := Run(w, acts[..|acts| - 1]);
      if before.None? then None else Do(w, before.value, acts[|acts| - 1])
  }

  /** Each process is in order, and no two hold the same staging name. */
  ghost predicate OpsOk(w: Format, fs: Files, ops: map<nat, Op>) {
    && (forall p :: p in ops ==> OpOk(w, fs, ops[p]))
    && (forall p, q :: p in ops && q in ops && p != q && Held(ops[p]).Some? ==> Held(ops[p]) != Held(ops[q]))
  }

  ghost predicate Inv(w: Format, s: Store) {
    OpsOk(w, s.fs, s.ops) && TmpOk(s.fs) && CasOk(w, s.fs.cas) && AcOk(w, s.fs)
  }

  lemma {:induction false} OpsStep(w: Format, fs: Files, ops: map<nat, Op>, p: nat, c: Choice)
    requires OpsOk(w, fs, ops) && p in ops && OpStep(w, fs, ops[p], c).Next?
    ensures var n := OpStep(w, fs, ops[p], c); OpsOk(w, n.fs, ops[p := n.op])
  {
    hide OpStep, OpOk, Around;
    var n := OpStep(w, fs, ops[p], c);
    var ops' := ops[p := n.op];
    OpStepOwn(w, fs, ops[p], c);
    StepAround(w, fs, ops[p], c);
    forall q | q in ops && q != p
      ensures OpOk(w, n.fs, ops'[q]) && (Held(ops'[q]).Some? ==> Held(ops'[q]) != Held(n.op))
    {
      OthersKept(w, fs, ops[p], n.fs, n.op, ops[q]);
    }
  }

  lemma {:induction false} GoKeeps(w: Format, s: Store, p: nat, c: Choice)
    requires FormatOk(w) && Inv(w, s) && Do(w, s, Go(p, c)).Some?
    ensures Inv(w, Do(w, s, Go(p, c)).value)
  {
    HeldUsed(w, s.fs, s.ops, p);
    OpsStep(w, s.fs, s.ops, p, c);
    StepTmp(w, s.fs, s.ops[p], c);
    StepCas(w, s.fs, s.ops[p], c);
    StepAc(w, s.fs, s.ops[p], c);
    hide OpStep, OpsOk, TmpOk, CasOk, AcOk;
  }

  lemma {:induction false} HeldUsed(w: Format, fs: Files, ops: map<nat, Op>, p: nat)
    requires OpsOk(w, fs, ops) && p in ops
    ensures OpOk(w, fs, ops[p]) && (Held(ops[p]).Some? ==> Held(ops[p]).value in fs.used)
  {
  }

  lemma {:induction false} StartKeeps(w: Format, fs: Files, ops: map<nat, Op>, p: nat, op: Op)
    requires OpsOk(w, fs, ops) && Entry(op)
    ensures OpsOk(w, fs, ops[p := op])
  {
  }

  lemma {:induction false} DoKeeps(w: Format, s: Store, a: Act)
    requires FormatOk(w) && Inv(w, s) && Do(w, s, a).Some?
    ensures Inv(w, Do(w, s, a).value)
  {
    hide OpStep;
    match a
    case Start(p, op) => StartKeeps(w, s.fs, s.ops, p, op);
    case Go(p, c) => GoKeeps(w, s, p, c);
    case Stop(p) =>
    case Lose(hash) =>
  }

  /** Store atomicity: in every interleaving, wherever processes stop, every blob is complete and
      hashes to its name and every entry is complete with outputs that passed the check. */
  lemma {:induction false} StoreAtomicity(w: Format, acts: seq<Act>)
    requires FormatOk(w) && Run(w, acts).Some?
    ensures Inv(w, Run(w, acts).value)
  {
    if acts != [] {
      hide Inv, Do, FormatOk;
      StoreAtomicity(w, acts[..|acts| - 1]);
      DoKeeps(w, Run(w, acts[..|acts| - 1]).value, acts[|acts| - 1]);
    }
  }
}
