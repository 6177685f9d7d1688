/** NewCached of internal/core/cache.go: the catalog a dialect and a schema produce, restored from the
    store when a run has produced it before. The blob is opened where it lies, so what is relied on is
    that every file under cas/ hashes to its name. */
module CachedCatalogs {
  import opened Common
  import opened ActionKeys
  import opened CacheStore
  import opened CacheDisk
  import opened CachedAnalyzers
  import CC = CacheClients

  /** Nobody overwrote a blob. */
  ghost predicate Intact<V(!new)>(w: CC.World<V>, fs: Files) {
    Sound(w, fs) && CasOk(w.format, fs.cas)
  }

  lemma {:induction false} SoloCas(w: Format, fs: Files, op: Op, cs: seq<Choice>)
    requires CasOk(w, fs.cas) && OpOk(w, fs, op) && RunOp(w, fs, op, cs).Next?
    ensures CasOk(w, RunOp(w, fs, op, cs).fs.cas) && OpOk(w, RunOp(w, fs, op, cs).fs, RunOp(w, fs, op, cs).op)
  {
    hide OpStep, OpOk, CasOk;
    if cs != [] {
      SoloCas(w, fs, op, cs[..|cs| - 1]);
      var before := RunOp(w, fs, op, cs[..|cs| - 1]);
      StepCas(w, before.fs, before.op, cs[|cs| - 1]);
      OpStepOwn(w, before.fs, before.op, cs[|cs| - 1]);
    }
  }

  lemma {:induction false} EntryIntact<V(!new)>(w: CC.World<V>, fs: Files, op: Op, cs: seq<Choice>)
    requires FormatOk(w.format) && Intact(w, fs) && Entry(op) && CC.InFlight(w, op, true) && !op.FileOpen?
    requires RunOp(w.format, fs, op, cs).Next?
    ensures Intact(w, RunOp(w.format, fs, op, cs).fs) && CC.InFlight(w, RunOp(w.format, fs, op, cs).op, true)
  {
    hide OpStep, CC.InFlight, CasOk, Sound, FormatOk, RunOp;
    EntryKeeps(w, fs, op, cs);
    SoloCas(w.format, fs, op, cs);
  }

  /** The directory, and what a catalog is built from and stored as. */
  class Builder<V(!new)> {
    ghost const world: CC.World<V>
    const format: Format
    const build: CC.Job -> Option<V>
    const toBytes: (bool, V) -> Bytes
    const fromBytes: (bool, Bytes) -> Option<V>
    const tool: Bytes
    const dir: Disk

    ghost predicate Valid()
      reads this, dir
    {
      && CC.WorldOk(world) && world.format == format && world.compute == build
      && world.toBytes == toBytes && world.fromBytes == fromBytes
      && dir.w == format && Intact(world, dir.fs)
    }

    function JobFor(beside: CC.Beside, dialect: Bytes, schema: seq<Bytes>): CC.Job {
      CC.Job(tool, CoreCatalog(dialect, schema), beside)
    }

    constructor (ghost world: CC.World<V>, format: Format, build: CC.Job -> Option<V>, toBytes: (bool, V) -> Bytes,
                 fromBytes: (bool, Bytes) -> Option<V>, tool: Bytes, dir: Disk)
      requires CC.WorldOk(world) && world.format == format == dir.w && world.compute == build
      requires world.toBytes == toBytes && world.fromBytes == fromBytes && Intact(world, dir.fs)
      ensures Valid() && this.world == world && this.build == build && this.tool == tool && this.dir == dir
    {
      this.world, this.format, this.build, this.toBytes, this.fromBytes := world, format, build, toBytes, fromBytes;
      this.tool, this.dir := tool, dir;
    }

    lemma {:induction false} FormatHolds()
      requires CC.WorldOk(world) && world.format == format
      ensures FormatOk(format)
    {
    }

    /** restore, from the entry to the open file. */
    method Restore(job: CC.Job, key: string) returns (found: Option<V>)
      requires Valid() && job in world.jobs && job.request.CoreCatalog? && key == CC.Key(world, job)
      modifies dir
      ensures Valid() && (found.Some? ==> CC.Served(world, job, found))
      ensures dir.fs.tmp == old(dir.fs.tmp) && dir.fs.used == old(dir.fs.used)
    {
      hide CC.WorldOk, OpStep, RunOp, Intact, CC.Genuine, CC.Key, CC.AlikeDigest, CC.Served, AllThere;
      FormatHolds();
      ghost var was := dir.fs;
      var cached, trace := dir.ActionGet(key);
      EntryIntact(world, was, ActRead(key), trace);
      if !cached.Hit? {
        return None;
      }
      CC.HitDigest(world, job, cached.result);
      found := Open(job, CC.OutputDigest(cached.result, "catalog.db"));
    }

    method Open(job: CC.Job, d: Digest) returns (found: Option<V>)
      requires Valid() && job in world.jobs && job.request.CoreCatalog? && CC.AlikeDigest(world, job, d)
      ensures found.Some? ==> CC.Served(world, job, found)
    {
      hide CC.WorldOk, OpStep, RunOp;
      var stat, _ := dir.Filename(d);
      if !stat.Present? {
        return None;
      }
      var blob, _ := dir.OpenBlob(d);
      if !blob.Blob? {
        return None;
      }
      CC.BlobIsServed(world, job, d, blob.data);
      return fromBytes(false, blob.data);
    }

    /** save: the blob, then the entry that names it. */
    method Save(job: CC.Job, key: string, value: V, draws: seq<nat>, again: seq<nat>)
      requires Valid() && job in world.jobs && job.request.CoreCatalog? && key == CC.Key(world, job)
      requires build(job) == Some(value)
      requires dir.Draws(draws) && dir.Draws(again) && forall i :: 0 <= i < |again| ==> again[i] !in draws
      modifies dir
      ensures Valid()
    {
      hide CC.WorldOk, OpStep, RunOp, Intact;
      FormatHolds();
      var blob := toBytes(false, value);
      CC.BlobInPlay(world, job);
      ghost var was := dir.fs;
      var out, trace := dir.Put(blob, draws);
      EntryIntact(world, was, PutStat(blob), trace);
      if !out.Stored? {
        return;
      }
      Publish(job, key, map["catalog.db" := DigestOf(format, blob)], again);
    }

    method Publish(job: CC.Job, key: string, entry: Outputs, draws: seq<nat>)
      requires Valid() && CC.GenuineFor(world, job, key, entry) && job in world.jobs && dir.Draws(draws)
      modifies dir
      ensures Valid()
    {
      hide CC.WorldOk, OpStep, RunOp, Intact, CC.GenuineFor;
      FormatHolds();
      ghost var was := dir.fs;
      var _, trace := dir.ActionPut(key, entry, draws);
      assert CC.Genuine(world, key, entry);
      EntryIntact(world, was, PutCheck(key, entry, entry.Keys), trace);
    }

    /** The catalog is one that the dialect and the schema build, whether or not it was restored: this
        call's own where what `apply` and the options do is settled by the dialect and the schema. */
    method NewCached(beside: CC.Beside, dialect: Bytes, schema: seq<Bytes>, draws: seq<nat>, again: seq<nat>)
      returns (cat: Option<V>)
      requires Valid() && JobFor(beside, dialect, schema) in world.jobs
      requires dir.Draws(draws) && dir.Draws(again) && forall i :: 0 <= i < |again| ==> again[i] !in draws
      modifies dir
      ensures Valid() && CC.Served(world, JobFor(beside, dialect, schema), cat)
      ensures CC.KeyDecides(world, JobFor(beside, dialect, schema)) ==> cat == build(JobFor(beside, dialect, schema))
    {
      hide CC.WorldOk, Intact, CC.Served, CC.KeyDecides;
      var job := JobFor(beside, dialect, schema);
      CC.OwnServed(world, job);
      if * {
        return build(job); // the cache does not open
      }
      var key := DigestRequest(format.h, tool, CoreCatalog(dialect, schema));
      cat := Restore(job, key);
      if cat.Some? {
        if CC.KeyDecides(world, job) {
          CC.DecidedServed(world, job, cat);
        }
        return;
      }
      cat := build(job);
      if cat.Some? {
        Save(job, key, cat.value, draws, again);
      }
    }
  }
}
