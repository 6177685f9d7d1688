/** CachedAnalyzer of internal/analyzer/analyzer.go: a cache that must agree with the plain analyzer. */
module CachedAnalyzers {
  import opened Common
  import opened ActionKeys
  import opened CacheStore
  import opened CacheDisk
  import CC = CacheClients

  /** What one process alone keeps of a directory, whatever its calls do. */
  ghost predicate Sound<V(!new)>(w: CC.World<V>, fs: Files) {
    CC.FilesOk(w, fs) && TmpOk(fs)
  }

  ghost predicate SoloOk<V(!new)>(w: CC.World<V>, fs: Files, op: Op) {
    Sound(w, fs) && OpOk(w.format, fs, op) && CC.InFlight(w, op, true) && !op.FileOpen?
  }

  lemma {:induction false} NoFileOpen(w: Format, fs: Files, op: Op, c: Choice)
    requires OpStep(w, fs, op, c).Next? && !op.FileOpen?
    ensures !OpStep(w, fs, op, c).op.FileOpen?
  {
  }

  lemma {:induction false} OpUses(w: Format, fs: Files, op: Op)
    requires OpOk(w, fs, op)
    ensures Held(op).Some? ==> Held(op).value in fs.used
  {
  }

  lemma {:induction false} SoloStep<V(!new)>(w: CC.World<V>, fs: Files, op: Op, c: Choice)
    requires FormatOk(w.format) && SoloOk(w, fs, op) && OpStep(w.format, fs, op, c).Next?
    ensures SoloOk(w, OpStep(w.format, fs, op, c).fs, OpStep(w.format, fs, op, c).op)
  {
    hide OpStep, OpOk, CC.InFlight, CC.FilesOk, TmpOk, FormatOk;
    NoFileOpen(w.format, fs, op, c);
    OpUses(w.format, fs, op);
    CC.StepFiles(w, fs, op, c, true);
    CC.StepInFlight(w, fs, op, c, true);
    OpStepOwn(w.format, fs, op, c);
    StepTmp(w.format, fs, op, c);
  }

  lemma {:induction false} SoloKeeps<V(!new)>(w: CC.World<V>, fs: Files, op: Op, cs: seq<Choice>)
    requires FormatOk(w.format) && SoloOk(w, fs, op) && RunOp(w.format, fs, op, cs).Next?
    ensures SoloOk(w, RunOp(w.format, fs, op, cs).fs, RunOp(w.format, fs, op, cs).op)
  {
    hide OpStep, SoloOk, FormatOk;
    if cs != [] {
      SoloKeeps(w, fs, op, cs[..|cs| - 1]);
      var before := RunOp(w.format, fs, op, cs[..|cs| - 1]);
      SoloStep(w, before.fs, before.op, cs[|cs| - 1]);
    }
  }

  /** An entry operation on a sound directory leaves it sound, and its answer is genuine. */
  lemma {:induction false} EntryKeeps<V(!new)>(w: CC.World<V>, fs: Files, op: Op, cs: seq<Choice>)
    requires FormatOk(w.format) && Sound(w, fs) && Entry(op) && CC.InFlight(w, op, true) && !op.FileOpen?
    requires RunOp(w.format, fs, op, cs).Next?
    ensures Sound(w, RunOp(w.format, fs, op, cs).fs) && CC.InFlight(w, RunOp(w.format, fs, op, cs).op, true)
  {
    hide OpStep, CC.InFlight, CC.FilesOk, FormatOk, RunOp;
    SoloKeeps(w, fs, op, cs);
  }

  class CachedAnalyzer<V(!new)> {
    ghost const world: CC.World<V>
    const format: Format
    const plain: CC.Job -> Option<V>       // the analyzer behind the cache
    const toBytes: (bool, V) -> Bytes
    const fromBytes: (bool, Bytes) -> Option<V>
    const tool: Bytes
    const config: Bytes                    // the configuration as JSON
    const managed: bool
    const dir: Disk                        // the directory cache.Open finds
    var configBytes: Option<Bytes>
    var store: Option<Disk>

    ghost predicate Valid()
      reads this, dir
    {
      && CC.WorldOk(world) && world.format == format && world.compute == plain
      && world.toBytes == toBytes && world.fromBytes == fromBytes
      && dir.w == format && Sound(world, dir.fs)
      && (configBytes.Some? ==> configBytes.value == config)
      && (store.Some? ==> store.value == dir)
    }

    function JobFor(beside: CC.Beside, schema: seq<Bytes>, query: Bytes): CC.Job {
      CC.Job(tool, QueryAnalysis(config, schema, query), beside)
    }

    constructor (ghost world: CC.World<V>, format: Format, plain: CC.Job -> Option<V>, toBytes: (bool, V) -> Bytes,
                 fromBytes: (bool, Bytes) -> Option<V>, tool: Bytes, config: Bytes, managed: bool, dir: Disk)
      requires CC.WorldOk(world) && world.format == format == dir.w && world.compute == plain
      requires world.toBytes == toBytes && world.fromBytes == fromBytes && Sound(world, dir.fs)
      ensures Valid() && this.world == world && this.plain == plain && this.tool == tool && this.config == config
      ensures this.dir == dir
    {
      this.world, this.format, this.plain, this.toBytes, this.fromBytes := world, format, plain, toBytes, fromBytes;
      this.tool, this.config, this.managed, this.dir := tool, config, managed, dir;
      configBytes, store := None, None;
    }

    /** Read the analysis of this call, or of a call alike, from the store, if it is all there. */
    method Recall(disk: Disk, job: CC.Job, key: string) returns (found: Option<V>)
      requires Valid() && disk == dir && job in world.jobs && job.request.QueryAnalysis? && key == CC.Key(world, job)
      modifies dir
      ensures Valid() && (found.Some? ==> CC.Served(world, job, found))
      ensures dir.fs.tmp == old(dir.fs.tmp) && dir.fs.used == old(dir.fs.used)
    {
      hide CC.WorldOk, OpStep, RunOp, Sound, CC.Genuine, CC.Key, CC.AlikeDigest, CC.Served, AllThere;
      FormatHolds();
      ghost var was := dir.fs;
      var cached, trace := disk.ActionGet(key);
      EntryKeeps(world, was, ActRead(key), trace);
      if !cached.Hit? {
        return None;
      }
      CC.HitDigest(world, job, cached.result);
      var d := CC.OutputDigest(cached.result, "analysis.pb");
      found := Fetch(disk, job, d);
    }

    method Fetch(disk: Disk, job: CC.Job, d: Digest) returns (found: Option<V>)
      requires Valid() && disk == dir && job in world.jobs && job.request.QueryAnalysis? && CC.AlikeDigest(world, job, d)
      modifies dir
      ensures Valid() && (found.Some? ==> CC.Served(world, job, found))
      ensures dir.fs.tmp == old(dir.fs.tmp) && dir.fs.used == old(dir.fs.used)
    {
      hide CC.WorldOk, OpStep, RunOp, Sound;
      FormatHolds();
      ghost var was := dir.fs;
      var blob, trace := disk.Get(d);
      EntryKeeps(world, was, GetRead(d), trace);
      if !blob.Blob? {
        return None;
      }
      CC.BlobIsServed(world, job, d, blob.data);
      return fromBytes(true, blob.data);
    }

    lemma {:induction false} FormatHolds()
      requires CC.WorldOk(world) && world.format == format
      ensures FormatOk(format)
    {
    }

    /** Store a fresh analysis and the entry that names it; what fails here fails silently. */
    method Remember(disk: Disk, job: CC.Job, key: string, value: V, draws: seq<nat>, again: seq<nat>)
      requires Valid() && disk == dir && job in world.jobs && job.request.QueryAnalysis? && key == CC.Key(world, job)
      requires plain(job) == Some(value)
      requires dir.Draws(draws) && dir.Draws(again) && forall i :: 0 <= i < |again| ==> again[i] !in draws
      modifies dir
      ensures Valid()
    {
      hide CC.WorldOk, OpStep, RunOp, Sound;
      FormatHolds();
      if * {
        return; // the analysis does not marshal
      }
      var contents := toBytes(true, value);
      CC.BlobInPlay(world, job);
      ghost var was := dir.fs;
      var out, trace := disk.Put(contents, draws);
      EntryKeeps(world, was, PutStat(contents), trace);
      if !out.Stored? {
        return;
      }
      var entry := map["analysis.pb" := DigestOf(format, contents)];
      assert CC.GenuineFor(world, job, key, entry);
      was := dir.fs;
      out, trace := disk.ActionPut(key, entry, again);
      EntryKeeps(world, was, PutCheck(key, entry, entry.Keys), trace);
    }

    /** Whatever the store holds or fails to do, the answer is the plain analyzer's for this call or for
        one alike; where the key decides, it is the plain analyzer's for this call. The parsed statement
        and the parameter names go to the analyzer and not into the key. */
    method Analyze(beside: CC.Beside, schema: seq<Bytes>, query: Bytes, draws: seq<nat>, again: seq<nat>)
      returns (result: Option<V>)
      requires Valid() && JobFor(beside, schema, query) in world.jobs
      requires dir.Draws(draws) && dir.Draws(again) && forall i :: 0 <= i < |again| ==> again[i] !in draws
      modifies this, dir
      ensures Valid() && CC.Served(world, JobFor(beside, schema, query), result)
      ensures CC.KeyDecides(world, JobFor(beside, schema, query)) ==> result == plain(JobFor(beside, schema, query))
    {
      hide CC.WorldOk, Sound, CC.Served, CC.KeyDecides;
      var job := JobFor(beside, schema, query);
      CC.OwnServed(world, job);
      if !managed {
        return plain(job);
      }
      if store.None? {
        if * {
          return plain(job); // the cache does not open
        }
        store := Some(dir);
      }
      if configBytes.None? {
        if * {
          return plain(job); // the configuration does not marshal
        }
        configBytes := Some(config);
      }
      var key := DigestRequest(format.h, tool, QueryAnalysis(configBytes.value, schema, query));
      var found := Recall(store.value, job, key);
      if found.Some? {
        if CC.KeyDecides(world, job) {
          CC.DecidedServed(world, job, found);
        }
        return found;
      }
      result := plain(job);
      if result.Some? {
        Remember(store.value, job, key, result.value, draws, again);
      }
    }
  }
}
