/** The two clients of the store, internal/analyzer/analyzer.go and internal/core/cache.go, run by any
    number of processes over one directory. A result a client returns is always one computed without the
    cache, for the call itself or for another call with the same key. */
module CacheClients {
  import opened Common
  import opened ActionKeys
  import opened CacheStore

  /** What a call hands on besides the inputs of its key: to an analyzer the parsed statement and the
      names of the parameters, to a catalog builder what it applies. */
  datatype Beside = Beside(node: Bytes, names: map<nat, string>)

  /** A call as one build of sqlc makes it. The tool digest is an input of every action. */
  datatype Job = Job(tool: Bytes, request: Request, beside: Beside)

  /** Calls that differ at most in what the key leaves out. */
  predicate Alike(i: Job, j: Job) { i.tool == j.tool && i.request == j.request }

  /** What is computed, how it is stored, and the jobs and bytes a history is about. `compute` is the
      plain analyzer or the catalog builder: the same job always gives the same value or fails. */
  datatype World<!V> = World(
    format: Format,
    compute: Job -> Option<V>,
    toBytes: (bool, V) -> Bytes,
    fromBytes: (bool, Bytes) -> Option<V>,
    jobs: set<Job>,
    play: set<Bytes>)

  function Key<V>(w: World<V>, j: Job): string { w.format.h(RequestBytes(j.tool, j.request)) }

  function OutputName(r: Request): string {
    if r.QueryAnalysis? then "analysis.pb" else "catalog.db"
  }

  function BlobOf<V>(w: World<V>, j: Job, v: V): Bytes { w.toBytes(j.request.QueryAnalysis?, v) }

  function EntryOf<V>(w: World<V>, j: Job, v: V): Outputs {
    map[OutputName(j.request) := DigestOf(w.format, BlobOf(w, j, v))]
  }

  /** Stored values read back, and the hash is collision-free on the bytes in play. */
  ghost predicate WorldOk<V(!new)>(w: World<V>) {
    && FormatOk(w.format)
    && (forall x, y :: x in w.play && y in w.play && w.format.h(x) == w.format.h(y) ==> x == y)
    && (forall x :: x in w.play ==> Valid(w.format.h(x)))
    && (forall j :: j in w.jobs ==> JobOk(w, j))
  }

  ghost predicate JobOk<V(!new)>(w: World<V>, j: Job) {
    && Fits(j.tool) && RequestFits(j.request)
    && RequestBytes(j.tool, j.request) in w.play
    && (w.compute(j).Some? ==>
          var v := w.compute(j).value;
          BlobOf(w, j, v) in w.play && w.fromBytes(j.request.QueryAnalysis?, BlobOf(w, j, v)) == Some(v))
  }

  /** A key tells calls apart up to what it leaves out. */
  lemma {:induction false} SameKeyIffAlike<V(!new)>(w: World<V>, i: Job, j: Job)
    requires WorldOk(w) && i in w.jobs && j in w.jobs
    ensures Key(w, i) == Key(w, j) <==> Alike(i, j)
  {
    if Key(w, i) == Key(w, j) {
      KeyTellsApart(w, i, j);
    }
  }

  lemma {:induction false} KeyTellsApart<V(!new)>(w: World<V>, i: Job, j: Job)
    requires WorldOk(w) && i in w.jobs && j in w.jobs && Key(w, i) == Key(w, j)
    ensures Alike(i, j)
  {
    hide RequestBytes, RequestFits;
    assert JobOk(w, i) && JobOk(w, j);
    RequestBytesInjective(i.tool, i.request, j.tool, j.request);
  }

  // ----- a client -----

  datatype Phase<!V> =
    | Asking
    | Fetching(digest: Digest)
    | Computing
    | SavingBlob(value: V)
    | SavingEntry(value: V)
    | Returned(result: Option<V>)

  datatype Client<!V> = Client(job: Job, phase: Phase<V>, op: Op)

  const Nothing := Done(NotFound)

  /** Opening the cache may fail, or an analyzer's database be unmanaged: then there is no cache. */
  function Begin<V>(w: World<V>, j: Job, cached: bool): Client<V> {
    if cached then Client(j, Asking, ActRead(Key(w, j))) else Client(j, Returned(w.compute(j)), Nothing)
  }

  /** The digest under a name, or the zero digest when the result has no such output. */
  function OutputDigest(result: Outputs, name: string): Digest {
    if name in result then result[name] else Digest("", 0)
  }

  /** What the client does when the store operation it waited for is done. */
  function Resume<V>(w: World<V>, c: Client<V>, marshals: bool): Option<Client<V>> {
    var analysis := c.job.request.QueryAnalysis?;
    if !c.op.Done? then None
    else
      var out := c.op.outcome;
      match c.phase
      case Asking =>
        if out.Hit? then
          var d := OutputDigest(out.result, OutputName(c.job.request));
          Some(c.(phase := Fetching(d), op := if analysis then GetRead(d) else FileStat(d)))
        else Some(c.(phase := Computing, op := Nothing))
      case Fetching(d) =>
        if out.Present? then Some(c.(op := FileOpen(d)))
        else if out.Blob? && w.fromBytes(analysis, out.data).Some? then
          Some(c.(phase := Returned(w.fromBytes(analysis, out.data)), op := Nothing))
        else Some(c.(phase := Computing, op := Nothing))
      case Computing =>
        var r := w.compute(c.job);
        if r.None? || !marshals then Some(c.(phase := Returned(r), op := Nothing))
        else Some(c.(phase := SavingBlob(r.value), op := PutStat(BlobOf(w, c.job, r.value))))
      case SavingBlob(v) =>
        if out.Stored? then
          var entry := EntryOf(w, c.job, v);
          Some(c.(phase := SavingEntry(v), op := PutCheck(Key(w, c.job), entry, entry.Keys)))
        else Some(c.(phase := Returned(Some(v)), op := Nothing))
      case SavingEntry(v) => Some(c.(phase := Returned(Some(v)), op := Nothing))
      case Returned(_) => None
  }

  datatype System<!V> = System(fs: Files, clients: map<nat, Client<V>>, overwritten: bool)

  datatype Event =
    | Call(p: nat, job: Job, cached: bool)
    | Step(p: nat, choice: Choice)
    | Continue(p: nat, marshals: bool)
    | Die(p: nat)
    | Delete(hash: string)
    | Overwrite(hash: string, data: Bytes)

  /** A new call needs a process that has none under way. */
  predicate Free<V>(s: System<V>, p: nat) { p in s.clients ==> s.clients[p].phase.Returned? }

  function Do<V>(w: World<V>, s: System<V>, e: Event): Option<System<V>> {
    match e
    case Call(p, j, cached) =>
      if j in w.jobs && Free(s, p) then Some(s.(clients := s.clients[p := Begin(w, j, cached)])) else None
    case Step(p, choice) =>
      if p !in s.clients then None
      else
        var n := OpStep(w.format, s.fs, s.clients[p].op, choice);
        if n.Stuck? then None else Some(s.(fs := n.fs, clients := s.clients[p := s.clients[p].(op := n.op)]))
    case Continue(p, marshals) =>
      if p !in s.clients then None
      else
        var c := Resume(w, s.clients[p], marshals);
        if c.None? then None else Some(s.(clients := s.clients[p := c.value]))
    case Die(p) => Some(s.(clients := s.clients - {p}))
    case Delete(hash) => Some(s.(fs := s.fs.(cas := s.fs.cas - {hash})))
    case Overwrite(hash, data) =>
      if data in w.play then Some(s.(fs := s.fs.(cas := s.fs.cas[hash := data]), overwritten := true)) else None
  }

  function Run<V>(w: World<V>, events: seq<Event>): Option<System<V>> {
    if events == [] then Some(System(Empty, map[], false))
    else
      var before := Run(w, events[..|events| - 1]);
      if before.None? then None else Do(w, before.value, events[|events| - 1])
  }

  // ----- what every event keeps -----

  /** An entry under this key is the one its job's value is stored as. */
  ghost predicate Genuine<V(!new)>(w: World<V>, key: string, result: Outputs) {
    exists j :: j in w.jobs && GenuineFor(w, j, key, result)
  }

  ghost predicate GenuineFor<V(!new)>(w: World<V>, j: Job, key: string, result: Outputs) {
    key == Key(w, j) && w.compute(j).Some? && result == EntryOf(w, j, w.compute(j).value)
  }

  /** What is in flight is genuine; a blob read with re-hashing, or from an untouched store, hashes to
      the name it was asked for under. */
  ghost predicate InFlight<V(!new)>(w: World<V>, op: Op, rehashed: bool) {
    match op
    case PutStat(data) => data in w.play
    case PutCheck(key, result, _) => Genuine(w, key, result)
    case Create(target, data) => StagedOk(w, target, data)
    case Write(target, data, _) => StagedOk(w, target, data)
    case Rename(target, data, _) => StagedOk(w, target, data)
    case ActCheck(key, result, _) => Genuine(w, key, result)
    case Done(Hit(key, result)) => Genuine(w, key, result)
    case Done(Blob(d, data)) => data in w.play && (rehashed ==> w.format.h(data) == d.hash)
    case Remove(_, outcome) => !outcome.Hit? && !outcome.Blob?
    case _ => true
  }

  ghost predicate StagedOk<V(!new)>(w: World<V>, target: Target, data: Bytes) {
    match target
    case ToCas => data in w.play
    case ToAc(key, result) => data == w.format.enc(result) && Genuine(w, key, result)
  }

  ghost predicate FilesOk<V(!new)>(w: World<V>, fs: Files) {
    && (forall n :: n in fs.cas ==> fs.cas[n] in w.play)
    && (forall key :: key in fs.ac ==> w.format.dec(fs.ac[key]).Some? && Genuine(w, key, w.format.dec(fs.ac[key]).value))
  }

  /** The operation a client waits for is the one its phase asked for. */
  ghost predicate Asked<V(!new)>(w: World<V>, c: Client<V>) {
    var k := Key(w, c.job);
    match c.phase
    case Asking => Reading(c.op) && (KeyOf(c.op).Some? ==> KeyOf(c.op) == Some(k))
    case Fetching(d) =>
      && AlikeDigest(w, c.job, d)
      && Fetches(c.op, d, c.job.request.QueryAnalysis?)
    case Computing => c.op == Nothing
    case SavingBlob(v) => w.compute(c.job) == Some(v) && Saving(c.op)
    case SavingEntry(v) => w.compute(c.job) == Some(v) && Saving(c.op)
    case Returned(_) => c.op == Nothing
  }

  /** The digest of the stored value of a call alike. */
  ghost predicate AlikeDigest<V(!new)>(w: World<V>, j: Job, d: Digest) {
    exists i :: i in w.jobs && Alike(i, j) && StoredAs(w, i, d)
  }

  ghost predicate StoredAs<V(!new)>(w: World<V>, i: Job, d: Digest) {
    w.compute(i).Some? && d == DigestOf(w.format, BlobOf(w, i, w.compute(i).value))
  }

  /** The result is what a call alike computes. */
  ghost predicate Served<V(!new)>(w: World<V>, j: Job, result: Option<V>) {
    exists i :: i in w.jobs && Alike(i, j) && w.compute(i) == result && (i == j || result.Some?)
  }

  lemma {:induction false} OwnServed<V(!new)>(w: World<V>, j: Job)
    requires j in w.jobs
    ensures Served(w, j, w.compute(j))
  {
  }

  predicate Reading(op: Op) {
    op.ActRead? || op.ActCheck? || op.ActEvict? || (op.Done? && (op.outcome.Hit? || op.outcome.NotFound? || op.outcome.Failed?))
  }

  /** The action key an operation is about, if any. */
  function KeyOf(op: Op): Option<string> {
    match op
    case ActRead(key) => Some(key)
    case ActCheck(key, _, _) => Some(key)
    case ActEvict(key) => Some(key)
    case Done(Hit(key, _)) => Some(key)
    case _ => None
  }

  predicate Fetches(op: Op, d: Digest, analysis: bool) {
    match op
    case GetRead(e) => e == d && analysis
    case GetEvict(e) => e == d && analysis
    case FileStat(e) => e == d && !analysis
    case FileOpen(e) => e == d && !analysis
    case Done(Blob(e, _)) => e == d
    case Done(Present) => !analysis
    case Done(NotFound) => true
    case Done(Failed) => true
    case _ => false
  }

  predicate Saving(op: Op) {
    op.PutStat? || op.PutCheck? || op.Create? || op.Write? || op.Rename?
    || ((op.Remove? || op.Done?) && !op.outcome.Hit? && !op.outcome.Blob?)
  }

  /** A client that re-hashes, or whose store nobody overwrote, returned what a call alike computes. */
  ghost predicate ClientOk<V(!new)>(w: World<V>, c: Client<V>, trusted: bool) {
    && c.job in w.jobs && Asked(w, c) && InFlight(w, c.op, trusted)
    && (trusted && c.phase.Returned? ==> Served(w, c.job, c.phase.result))
  }

  predicate Trusted<V>(s: System<V>, c: Client<V>) { c.job.request.QueryAnalysis? || !s.overwritten }

  ghost function Ops<V>(clients: map<nat, Client<V>>): map<nat, Op> {
    map p | p in clients :: clients[p].op
  }

  ghost predicate ClientsOk<V(!new)>(w: World<V>, s: System<V>) {
    forall p :: p in s.clients ==> ClientOk(w, s.clients[p], Trusted(s, s.clients[p]))
  }

  ghost predicate StoreOk<V(!new)>(w: World<V>, s: System<V>) {
    && OpsOk(w.format, s.fs, Ops(s.clients)) && TmpOk(s.fs)
    && (!s.overwritten ==> CasOk(w.format, s.fs.cas))
  }

  ghost predicate Inv<V(!new)>(w: World<V>, s: System<V>) {
    StoreOk(w, s) && FilesOk(w, s.fs) && ClientsOk(w, s)
  }

  // ----- one system call -----

  lemma {:induction false} StepFiles<V(!new)>(w: World<V>, fs: Files, op: Op, c: Choice, rehashed: bool)
    requires FormatOk(w.format) && FilesOk(w, fs) && InFlight(w, op, rehashed) && OpOk(w.format, fs, op)
    requires OpStep(w.format, fs, op, c).Next?
    ensures FilesOk(w, OpStep(w.format, fs, op, c).fs)
  {
    hide Genuine;
  }

  lemma {:induction false} StepInFlight<V(!new)>(w: World<V>, fs: Files, op: Op, c: Choice, rehashed: bool)
    requires FilesOk(w, fs) && InFlight(w, op, rehashed) && OpStep(w.format, fs, op, c).Next?
    requires rehashed && op.FileOpen? ==> CasOk(w.format, fs.cas)
    ensures InFlight(w, OpStep(w.format, fs, op, c).op, rehashed)
  {
    hide Genuine;
  }

  lemma {:induction false} ReadingStep(w: Format, fs: Files, op: Op, c: Choice)
    requires Reading(op) && OpStep(w, fs, op, c).Next?
    ensures var op' := OpStep(w, fs, op, c).op; Reading(op') && (KeyOf(op').Some? ==> KeyOf(op') == KeyOf(op))
  {
  }

  lemma {:induction false} FetchesStep(w: Format, fs: Files, op: Op, c: Choice, d: Digest, analysis: bool)
    requires Fetches(op, d, analysis) && OpStep(w, fs, op, c).Next?
    ensures Fetches(OpStep(w, fs, op, c).op, d, analysis)
  {
  }

  lemma {:induction false} SavingStep(w: Format, fs: Files, op: Op, c: Choice)
    requires Saving(op) && OpStep(w, fs, op, c).Next?
    ensures Saving(OpStep(w, fs, op, c).op)
  {
  }

  lemma {:induction false} StepAsked<V(!new)>(w: World<V>, fs: Files, c: Client<V>, choice: Choice)
    requires Asked(w, c) && OpStep(w.format, fs, c.op, choice).Next?
    ensures Asked(w, c.(op := OpStep(w.format, fs, c.op, choice).op))
    ensures !c.phase.Returned?
  {
    assert !c.op.Done?;
    hide OpStep, Reading, Fetches, Saving;
    match c.phase
    case Asking => ReadingStep(w.format, fs, c.op, choice);
    case Fetching(d) => FetchesStep(w.format, fs, c.op, choice, d, c.job.request.QueryAnalysis?);
    case SavingBlob(_) => SavingStep(w.format, fs, c.op, choice);
    case SavingEntry(_) => SavingStep(w.format, fs, c.op, choice);
    case _ =>
  }

  // ----- one decision of a client -----

  /** An entry found under a job's key is that of a call alike. */
  lemma {:induction false} HitIsAlike<V(!new)>(w: World<V>, j: Job, result: Outputs) returns (i: Job)
    requires WorldOk(w) && j in w.jobs && Genuine(w, Key(w, j), result)
    ensures i in w.jobs && Alike(i, j) && GenuineFor(w, i, Key(w, j), result)
  {
    hide WorldOk;
    i :| i in w.jobs && GenuineFor(w, i, Key(w, j), result);
    KeyTellsApart(w, i, j);
  }

  lemma {:induction false} BlobIsOwn<V(!new)>(w: World<V>, i: Job, data: Bytes)
    requires WorldOk(w) && i in w.jobs && w.compute(i).Some? && data in w.play
    requires w.format.h(data) == w.format.h(BlobOf(w, i, w.compute(i).value))
    ensures w.fromBytes(i.request.QueryAnalysis?, data) == w.compute(i)
  {
    assert JobOk(w, i);
  }

  /** A blob that hashes to the digest of a call alike decodes to what that call computes. */
  lemma {:induction false} BlobIsServed<V(!new)>(w: World<V>, j: Job, d: Digest, data: Bytes)
    requires WorldOk(w) && AlikeDigest(w, j, d) && data in w.play && w.format.h(data) == d.hash
    ensures Served(w, j, w.fromBytes(j.request.QueryAnalysis?, data))
  {
    hide WorldOk;
    var i :| i in w.jobs && Alike(i, j) && StoredAs(w, i, d);
    BlobIsOwn(w, i, data);
  }

  lemma {:induction false} EntryHasOutput<V>(w: World<V>, j: Job, v: V)
    ensures OutputDigest(EntryOf(w, j, v), OutputName(j.request)) == DigestOf(w.format, BlobOf(w, j, v))
  {
  }

  /** The digest under the output's name in an entry found is that of the stored value of a call alike. */
  lemma {:induction false} HitDigest<V(!new)>(w: World<V>, j: Job, result: Outputs)
    requires WorldOk(w) && j in w.jobs && Genuine(w, Key(w, j), result)
    ensures AlikeDigest(w, j, OutputDigest(result, OutputName(j.request)))
  {
    hide WorldOk, Genuine, Key, BlobOf;
    var i := HitIsAlike(w, j, result);
    EntryHasOutput(w, i, w.compute(i).value);
    assert StoredAs(w, i, OutputDigest(result, OutputName(j.request)));
  }

  lemma {:induction false} ResumeAsking<V(!new)>(w: World<V>, c: Client<V>, marshals: bool, trusted: bool)
    requires WorldOk(w) && ClientOk(w, c, trusted) && c.phase.Asking? && Resume(w, c, marshals).Some?
    ensures ClientOk(w, Resume(w, c, marshals).value, trusted)
  {
    hide WorldOk, Genuine, Key, OutputDigest, AlikeDigest, Served;
    if c.op.outcome.Hit? {
      HitDigest(w, c.job, c.op.outcome.result);
    }
  }

  lemma {:induction false} ResumeFetching<V(!new)>(w: World<V>, c: Client<V>, marshals: bool, trusted: bool)
    requires WorldOk(w) && ClientOk(w, c, trusted) && c.phase.Fetching? && Resume(w, c, marshals).Some?
    ensures ClientOk(w, Resume(w, c, marshals).value, trusted)
  {
    hide WorldOk, Genuine, AlikeDigest, Served;
    if c.op.outcome.Blob? && trusted {
      BlobIsServed(w, c.job, c.phase.digest, c.op.outcome.data);
    }
  }

  lemma {:induction false} ResumeComputing<V(!new)>(w: World<V>, c: Client<V>, marshals: bool, trusted: bool)
    requires WorldOk(w) && ClientOk(w, c, trusted) && Resume(w, c, marshals).Some? && c.phase.Computing?
    ensures ClientOk(w, Resume(w, c, marshals).value, trusted)
  {
    hide WorldOk, Genuine, BlobOf, Served;
    OwnServed(w, c.job);
    if w.compute(c.job).Some? {
      BlobInPlay(w, c.job);
    }
  }

  lemma {:induction false} BlobInPlay<V(!new)>(w: World<V>, j: Job)
    requires WorldOk(w) && j in w.jobs && w.compute(j).Some?
    ensures BlobOf(w, j, w.compute(j).value) in w.play
  {
    assert JobOk(w, j);
  }

  lemma {:induction false} ResumeSavingBlob<V(!new)>(w: World<V>, c: Client<V>, marshals: bool, trusted: bool)
    requires ClientOk(w, c, trusted) && Resume(w, c, marshals).Some? && c.phase.SavingBlob?
    ensures ClientOk(w, Resume(w, c, marshals).value, trusted)
  {
    hide Key, EntryOf, Served;
    OwnServed(w, c.job);
    assert GenuineFor(w, c.job, Key(w, c.job), EntryOf(w, c.job, c.phase.value));
    hide GenuineFor;
  }

  lemma {:induction false} ResumeSavingEntry<V(!new)>(w: World<V>, c: Client<V>, marshals: bool, trusted: bool)
    requires ClientOk(w, c, trusted) && Resume(w, c, marshals).Some? && c.phase.SavingEntry?
    ensures ClientOk(w, Resume(w, c, marshals).value, trusted)
  {
    hide Genuine, Served;
    OwnServed(w, c.job);
  }

  lemma {:induction false} ResumeOk<V(!new)>(w: World<V>, c: Client<V>, marshals: bool, trusted: bool)
    requires WorldOk(w) && ClientOk(w, c, trusted) && Resume(w, c, marshals).Some?
    ensures ClientOk(w, Resume(w, c, marshals).value, trusted)
    ensures Resume(w, c, marshals).value.job == c.job
    ensures var op := Resume(w, c, marshals).value.op; Entry(op) || op == Nothing
  {
    hide WorldOk, ClientOk;
    if c.phase.Asking? {
      ResumeAsking(w, c, marshals, trusted);
    } else if c.phase.Fetching? {
      ResumeFetching(w, c, marshals, trusted);
    } else if c.phase.Computing? {
      ResumeComputing(w, c, marshals, trusted);
    } else if c.phase.SavingBlob? {
      ResumeSavingBlob(w, c, marshals, trusted);
    } else {
      ResumeSavingEntry(w, c, marshals, trusted);
    }
  }

  // ----- every event -----

  lemma {:induction false} OpsUpdate<V>(clients: map<nat, Client<V>>, p: nat, c: Client<V>)
    ensures Ops(clients[p := c]) == Ops(clients)[p := c.op]
  {
  }

  lemma {:induction false} OpsRemove<V>(clients: map<nat, Client<V>>, p: nat)
    ensures Ops(clients - {p}) == Ops(clients) - {p}
  {
  }

  lemma {:induction false} StepKeepsStore<V(!new)>(w: World<V>, s: System<V>, p: nat, choice: Choice)
    requires StoreOk(w, s) && Do(w, s, Step(p, choice)).Some?
    ensures StoreOk(w, Do(w, s, Step(p, choice)).value)
    ensures OpOk(w.format, s.fs, s.clients[p].op)
  {
    var op := s.clients[p].op;
    assert Ops(s.clients)[p] == op;
    HeldUsed(w.format, s.fs, Ops(s.clients), p);
    OpsStep(w.format, s.fs, Ops(s.clients), p, choice);
    StepTmp(w.format, s.fs, op, choice);
    if !s.overwritten {
      StepCas(w.format, s.fs, op, choice);
    }
    OpsUpdate(s.clients, p, Do(w, s, Step(p, choice)).value.clients[p]);
    hide OpStep, OpsOk, TmpOk, CasOk, OpOk;
  }

  lemma {:induction false} ClientAt<V(!new)>(w: World<V>, s: System<V>, p: nat)
    requires ClientsOk(w, s) && p in s.clients
    ensures InFlight(w, s.clients[p].op, Trusted(s, s.clients[p]))
  {
  }

  lemma {:induction false} StepKeeps<V(!new)>(w: World<V>, s: System<V>, p: nat, choice: Choice)
    requires WorldOk(w) && Inv(w, s) && Do(w, s, Step(p, choice)).Some?
    ensures Inv(w, Do(w, s, Step(p, choice)).value)
  {
    hide OpStep, StoreOk, FilesOk, InFlight, Asked, OpOk, ClientsOk;
    var c := s.clients[p];
    ClientAt(w, s, p);
    StepKeepsStore(w, s, p, choice);
    StepFiles(w, s.fs, c.op, choice, Trusted(s, c));
    StepKeepsClients(w, s, p, choice);
  }

  lemma {:induction false} StepKeepsClients<V(!new)>(w: World<V>, s: System<V>, p: nat, choice: Choice)
    requires Inv(w, s) && Do(w, s, Step(p, choice)).Some?
    ensures ClientsOk(w, Do(w, s, Step(p, choice)).value)
  {
    hide OpStep, StoreOk, FilesOk, ClientOk;
    var c, s' := s.clients[p], Do(w, s, Step(p, choice)).value;
    StepKeepsClient(w, s, p, choice);
    assert forall q :: q in s'.clients && q != p ==> s'.clients[q] == s.clients[q];
  }

  lemma {:induction false} StepKeepsClient<V(!new)>(w: World<V>, s: System<V>, p: nat, choice: Choice)
    requires Inv(w, s) && Do(w, s, Step(p, choice)).Some?
    ensures ClientOk(w, Do(w, s, Step(p, choice)).value.clients[p], Trusted(s, s.clients[p]))
  {
    hide OpStep, StoreOk, FilesOk, InFlight, Asked;
    var c := s.clients[p];
    if Trusted(s, c) && c.op.FileOpen? {
      OpenTrusted(w, s, p);
    }
    StepInFlight(w, s.fs, c.op, choice, Trusted(s, c));
    StepAsked(w, s.fs, c, choice);
  }

  lemma {:induction false} OpenTrusted<V(!new)>(w: World<V>, s: System<V>, p: nat)
    requires Inv(w, s) && p in s.clients && Trusted(s, s.clients[p]) && s.clients[p].op.FileOpen?
    ensures CasOk(w.format, s.fs.cas)
  {
  }

  lemma {:induction false} ContinueKeeps<V(!new)>(w: World<V>, s: System<V>, p: nat, marshals: bool)
    requires WorldOk(w) && Inv(w, s) && Do(w, s, Continue(p, marshals)).Some?
    ensures Inv(w, Do(w, s, Continue(p, marshals)).value)
  {
    hide WorldOk, FilesOk, ClientOk, OpsOk, TmpOk, CasOk, Resume, Entry;
    var c := s.clients[p];
    ResumeOk(w, c, marshals, Trusted(s, c));
    var c' := Resume(w, c, marshals).value;
    OpsUpdate(s.clients, p, c');
    StartAny(w.format, s.fs, Ops(s.clients), p, c'.op);
  }

  lemma {:induction false} StartAny(w: Format, fs: Files, ops: map<nat, Op>, p: nat, op: Op)
    requires OpsOk(w, fs, ops) && (Entry(op) || op == Nothing)
    ensures OpsOk(w, fs, ops[p := op])
  {
    if Entry(op) {
      StartKeeps(w, fs, ops, p, op);
    }
  }

  lemma {:induction false} CallKeeps<V(!new)>(w: World<V>, s: System<V>, p: nat, j: Job, cached: bool)
    requires WorldOk(w) && Inv(w, s) && Do(w, s, Call(p, j, cached)).Some?
    ensures Inv(w, Do(w, s, Call(p, j, cached)).value)
  {
    hide WorldOk, FilesOk, OpsOk, TmpOk, CasOk, Served, ClientOk, Ops, Entry;
    BeginOk(w, s, j, cached);
    OpsUpdate(s.clients, p, Begin(w, j, cached));
    StartAny(w.format, s.fs, Ops(s.clients), p, Begin(w, j, cached).op);
  }

  lemma {:induction false} BeginOk<V(!new)>(w: World<V>, s: System<V>, j: Job, cached: bool)
    requires WorldOk(w) && j in w.jobs
    ensures var c := Begin(w, j, cached); ClientOk(w, c, Trusted(s, c)) && (Entry(c.op) || c.op == Nothing)
  {
    hide WorldOk, Served, Key, AlikeDigest, Fetches, Saving, Genuine, StagedOk;
    OwnServed(w, j);
  }

  lemma {:induction false} DieKeeps<V(!new)>(w: World<V>, s: System<V>, p: nat)
    requires Inv(w, s)
    ensures Inv(w, Do(w, s, Die(p)).value)
  {
    hide ClientOk, FilesOk;
    OpsRemove(s.clients, p);
  }

  lemma {:induction false} OutsideKeeps<V(!new)>(w: World<V>, s: System<V>, e: Event)
    requires Inv(w, s) && (e.Delete? || e.Overwrite?) && Do(w, s, e).Some?
    ensures Inv(w, Do(w, s, e).value)
  {
    hide Genuine, Asked, Served;
    var s' := Do(w, s, e).value;
    assert OpsOk(w.format, s'.fs, Ops(s'.clients));
    forall p | p in s.clients
      ensures ClientOk(w, s.clients[p], Trusted(s', s.clients[p]))
    {
      Weaken(w, s.clients[p], Trusted(s, s.clients[p]), Trusted(s', s.clients[p]));
    }
    hide OpsOk, ClientOk;
  }

  lemma {:induction false} Weaken<V(!new)>(w: World<V>, c: Client<V>, trusted: bool, less: bool)
    requires ClientOk(w, c, trusted) && (less ==> trusted)
    ensures ClientOk(w, c, less)
  {
    hide Genuine, Asked, Served;
  }

  lemma {:induction false} DoKeeps<V(!new)>(w: World<V>, s: System<V>, e: Event)
    requires WorldOk(w) && Inv(w, s) && Do(w, s, e).Some?
    ensures Inv(w, Do(w, s, e).value)
  {
    hide WorldOk, Inv, Do;
    match e
    case Call(p, j, cached) => CallKeeps(w, s, p, j, cached);
    case Step(p, choice) => StepKeeps(w, s, p, choice);
    case Continue(p, marshals) => ContinueKeeps(w, s, p, marshals);
    case Die(p) => DieKeeps(w, s, p);
    case Delete(_) => OutsideKeeps(w, s, e);
    case Overwrite(_, _) => OutsideKeeps(w, s, e);
  }

  lemma {:induction false} RunKeeps<V(!new)>(w: World<V>, events: seq<Event>)
    requires WorldOk(w) && Run(w, events).Some?
    ensures Inv(w, Run(w, events).value)
    ensures Run(w, events).value.overwritten <==> exists i :: 0 <= i < |events| && events[i].Overwrite?
  {
    hide WorldOk, Do;
    if events == [] {
      assert Run(w, events).value == System(Empty, map[], false);
    } else {
      hide Inv;
      var init, last := events[..|events| - 1], events[|events| - 1];
      RunKeeps(w, init);
      DoKeeps(w, Run(w, init).value, last);
      OverwrittenStep(w, Run(w, init).value, last);
      assert forall i :: 0 <= i < |init| ==> events[i] == init[i];
    }
  }

  lemma {:induction false} OverwrittenStep<V(!new)>(w: World<V>, s: System<V>, e: Event)
    requires Do(w, s, e).Some?
    ensures Do(w, s, e).value.overwritten == (s.overwritten || e.Overwrite?)
  {
  }

  // ----- transparency -----

  /** Process p has an answer, in a history in which nobody overwrote a blob unless it re-hashes. */
  ghost predicate Answers<V(!new)>(w: World<V>, events: seq<Event>, p: nat) {
    && Run(w, events).Some? && p in Run(w, events).value.clients
    && Run(w, events).value.clients[p].phase.Returned?
    && Trusted(Run(w, events).value, Run(w, events).value.clients[p])
  }

  /** Any history of both clients in any number of processes, with failures, crashes, evictions and
      deletions, from an empty cache: an answer is what the call, or a call alike, computes. */
  lemma {:induction false} CacheServes<V(!new)>(w: World<V>, events: seq<Event>, p: nat)
    requires WorldOk(w) && Answers(w, events, p)
    ensures var c := Run(w, events).value.clients[p]; c.job in w.jobs && Served(w, c.job, c.phase.result)
  {
    hide WorldOk, Run, Served;
    RunKeeps(w, events);
  }

  /** Every call alike that gives a value gives the call's own value. */
  ghost predicate KeyDecides<V(!new)>(w: World<V>, j: Job) {
    forall i :: i in w.jobs && Alike(i, j) && w.compute(i).Some? ==> w.compute(i) == w.compute(j)
  }

  lemma {:induction false} DecidedServed<V(!new)>(w: World<V>, j: Job, result: Option<V>)
    requires KeyDecides(w, j) && Served(w, j, result)
    ensures result == w.compute(j)
  {
  }

  /** Where the key decides, the answer is what the call would have computed. */
  lemma {:induction false} CacheTransparent<V(!new)>(w: World<V>, events: seq<Event>, p: nat)
    requires WorldOk(w) && Run(w, events).Some? && p in Run(w, events).value.clients
    requires forall i :: 0 <= i < |events| ==> !events[i].Overwrite?
    requires Run(w, events).value.clients[p].phase.Returned? && KeyDecides(w, Run(w, events).value.clients[p].job)
    ensures var c := Run(w, events).value.clients[p]; c.phase.result == w.compute(c.job)
  {
    hide WorldOk, Run, Served, KeyDecides, Inv;
    RunKeeps(w, events);
    CacheServes(w, events, p);
    DecidedServed(w, Run(w, events).value.clients[p].job, Run(w, events).value.clients[p].phase.result);
  }

  /** ... and an analysis is right even when blobs are overwritten with anything along the way. */
  lemma {:induction false} AnalysisTransparentUnderTampering<V(!new)>(w: World<V>, events: seq<Event>, p: nat)
    requires WorldOk(w) && Run(w, events).Some? && p in Run(w, events).value.clients
    requires Run(w, events).value.clients[p].phase.Returned? && KeyDecides(w, Run(w, events).value.clients[p].job)
    requires Run(w, events).value.clients[p].job.request.QueryAnalysis?
    ensures var c := Run(w, events).value.clients[p]; c.phase.result == w.compute(c.job)
  {
    hide WorldOk, Run, Served, KeyDecides;
    CacheServes(w, events, p);
    DecidedServed(w, Run(w, events).value.clients[p].job, Run(w, events).value.clients[p].phase.result);
  }
}
