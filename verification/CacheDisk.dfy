/** The methods of internal/cache/cas.go and internal/cache/action.go as one process executes them. Each
    method's `trace` shows that it is a run of the store's steps. A
    call that fails, or a write that stops early, is a choice of the system (`*`). */
module CacheDisk {
  import opened Common
  import opened CacheStore

  const YES := Choice(true, 0, 0, "")
  const NO := Choice(false, 0, 0, "")

  /** One process's operation, after the given choices. */
  function RunOp(w: Format, fs: Files, op: Op, cs: seq<Choice>): Next {
    if cs == [] then Next(fs, op)
    else
      var before := RunOp(w, fs, op, cs[..|cs| - 1]);
      if before.Stuck? then Stuck else OpStep(w, before.fs, before.op, cs[|cs| - 1])
  }

  lemma {:induction false} RunOpMore(w: Format, fs: Files, op: Op, cs: seq<Choice>, c: Choice)
    requires RunOp(w, fs, op, cs).Next?
    ensures RunOp(w, fs, op, cs + [c]) == OpStep(w, RunOp(w, fs, op, cs).fs, RunOp(w, fs, op, cs).op, c)
  {
    assert (cs + [c])[..|cs|] == cs;
  }

  lemma {:induction false} RunOpAppend(w: Format, fs: Files, op: Op, a: seq<Choice>, b: seq<Choice>)
    requires RunOp(w, fs, op, a).Next?
    ensures RunOp(w, fs, op, a + b) == RunOp(w, RunOp(w, fs, op, a).fs, RunOp(w, fs, op, a).op, b)
  {
    hide OpStep;
    if b == [] {
      assert a + b == a;
    } else {
      RunOpAppend(w, fs, op, a, b[..|b| - 1]);
      assert (a + b)[..|a + b| - 1] == a + b[..|b| - 1];
    }
  }

  ghost predicate AllThere(fs: Files, result: Outputs) {
    forall name :: name in result ==> Contains(fs, result[name])
  }

  /** Staging files of others are untouched, and any that is new is one's own. */
  ghost predicate TmpLeft(was: map<nat, Bytes>, tmp: map<nat, Bytes>, own: set<nat>) {
    && (forall n :: n in was ==> n in tmp && tmp[n] == was[n])
    && (forall n :: n in tmp && n !in was ==> n in own)
  }

  class Disk {
    const w: Format
    var fs: Files

    constructor (w: Format)
      ensures this.w == w && fs == Empty
    {
      this.w := w;
      fs := Empty;
    }

    /** A random name is free, or taken by a file that is still there. */
    ghost predicate Draws(draws: seq<nat>)
      reads this
    {
      |draws| == 10000 && forall i :: 0 <= i < |draws| && draws[i] in fs.used ==> draws[i] in fs.tmp
    }

    /** O_EXCL, again and again: the first drawn name that no staging file has. */
    method CreateTemp(draws: seq<nat>) returns (name: Option<nat>)
      requires Draws(draws)
      modifies this
      ensures name.None? ==> fs == old(fs) && forall i :: 0 <= i < |draws| ==> draws[i] in fs.tmp
      ensures name.Some? ==> name.value in draws && name.value !in old(fs.used) && name.value !in old(fs.tmp)
      ensures name.Some? ==> fs == old(fs).(tmp := old(fs.tmp)[name.value := []], used := old(fs.used) + {name.value})
    {
      for i := 0 to |draws|
        invariant fs == old(fs)
        invariant forall j :: 0 <= j < i ==> draws[j] in fs.tmp
      {
        if draws[i] !in fs.tmp {
          name := Some(draws[i]);
          fs := fs.(tmp := fs.tmp[draws[i] := []], used := fs.used + {draws[i]});
          return;
        }
      }
      name := None;
    }

    /** All or nothing: a Put that reports success has put the whole file in place of what was there and
        leaves no staging file. One that fails has changed neither directory; when the removal fails
        too, a staging file of its own stays behind. */
    ghost predicate Settled(was: Files, target: Target, data: Bytes, out: Outcome, own: set<nat>)
      reads this
    {
      && TmpLeft(was.tmp, fs.tmp, own) && (out.Stored? ==> fs.tmp == was.tmp)
      && fs.checked == was.checked && (out.Stored? || out.Failed?)
      && fs.cas == (if out.Stored? && target.ToCas? then was.cas[w.h(data) := data] else was.cas)
      && fs.ac == (if out.Stored? && target.ToAc? then was.ac[target.key := data] else was.ac)
    }

    /** The end of both Puts: stage, write, close, rename, and remove what is left. */
    method Stage(target: Target, data: Bytes, draws: seq<nat>) returns (out: Outcome, ghost trace: seq<Choice>)
      requires Draws(draws)
      modifies this
      ensures RunOp(w, old(fs), Create(target, data), trace) == Next(fs, Done(out))
      ensures Settled(old(fs), target, data, out, set n | n in draws) && fs.used <= old(fs.used) + set n | n in draws
    {
      hide OpStep, RunOp;
      ghost var op0 := Create(target, data);
      trace := [];
      assert RunOp(w, fs, op0, []) == Next(fs, op0) by { RunOpNone(w, fs, op0); }
      if * {
        out := Failed;
        trace := Log(old(fs), op0, trace, NO, op0, fs);
        return;
      }
      var made := CreateTemp(draws);
      if made.None? {
        out := Failed;
        trace := Log(old(fs), op0, trace, NO, op0, fs);
        return;
      }
      var name := made.value;
      assert fs.tmp - {name} == old(fs.tmp);
      trace := Log(old(fs), op0, trace, Choice(true, name, 0, ""), op0, old(fs));
      out, trace := Fill(target, data, name, old(fs), op0, trace);
    }

    lemma {:induction false} RunOpNone(w: Format, fs: Files, op: Op)
      ensures RunOp(w, fs, op, []) == Next(fs, op)
    {
    }

    /** Record one step of the run. */
    ghost method Log(fs0: Files, op0: Op, trace: seq<Choice>, c: Choice, op: Op, at: Files) returns (more: seq<Choice>)
      requires RunOp(w, fs0, op0, trace) == Next(at, op)
      ensures more == trace + [c] && RunOp(w, fs0, op0, more) == OpStep(w, at, op, c)
      ensures OpStep(w, at, op, c) == if op.PutStat? || op.PutCheck? then PutStep(w, at, op, c)
        else if op.Create? || op.Write? || op.Rename? || op.Remove? then StageStep(w, at, op, c)
        else GetStep(w, at, op, c)
    {
      RunOpMore(w, fs0, op0, trace, c);
      more := trace + [c];
    }

    method Fill(target: Target, data: Bytes, name: nat, ghost fs0: Files, ghost op0: Op, ghost before: seq<Choice>)
      returns (out: Outcome, ghost trace: seq<Choice>)
      requires RunOp(w, fs0, op0, before) == Next(fs, Write(target, data, name)) && name in fs.tmp && fs.tmp[name] == []
      modifies this
      ensures RunOp(w, fs0, op0, trace) == Next(fs, Done(out))
      ensures Settled(old(fs).(tmp := old(fs.tmp) - {name}), target, data, out, {name}) && fs.used == old(fs.used)
    {
      hide OpStep, RunOp;
      if * {
        trace := Break(target, data, name, fs0, op0, before);
        out := Failed;
      } else {
        out, trace := Land(target, data, name, fs0, op0, before);
      }
      trace := Discard(name, out, fs0, op0, trace);
    }

    /** The whole data is written and closed; then the rename. */
    method Land(target: Target, data: Bytes, name: nat, ghost fs0: Files, ghost op0: Op, ghost before: seq<Choice>)
      returns (out: Outcome, ghost trace: seq<Choice>)
      requires RunOp(w, fs0, op0, before) == Next(fs, Write(target, data, name)) && name in fs.tmp && fs.tmp[name] == []
      modifies this
      ensures RunOp(w, fs0, op0, trace) == Next(fs, Remove(name, out))
      ensures out.Failed? ==> fs == old(fs).(tmp := old(fs.tmp)[name := data])
      ensures out.Failed? || (out.Stored? && fs == Publish(w, old(fs).(tmp := old(fs.tmp)[name := data]), target, data, name))
    {
      hide OpStep, RunOp;
      trace := Log(fs0, op0, before, Choice(true, 0, |data|, ""), Write(target, data, name), fs);
      assert data[..|data|] == data;
      fs := fs.(tmp := fs.tmp[name := data]);
      if * {
        trace := Log(fs0, op0, trace, NO, Rename(target, data, name), fs);
        out := Failed;
      } else {
        trace := Log(fs0, op0, trace, YES, Rename(target, data, name), fs);
        fs := Publish(w, fs, target, data, name);
        out := Stored;
      }
    }

    /** A write that fails after some of the data. */
    method Break(target: Target, data: Bytes, name: nat, ghost fs0: Files, ghost op0: Op, ghost before: seq<Choice>)
      returns (ghost trace: seq<Choice>)
      requires RunOp(w, fs0, op0, before) == Next(fs, Write(target, data, name)) && name in fs.tmp && fs.tmp[name] == []
      modifies this
      ensures RunOp(w, fs0, op0, trace) == Next(fs, Remove(name, Failed))
      ensures name in fs.tmp && fs == old(fs).(tmp := old(fs.tmp)[name := fs.tmp[name]])
    {
      hide OpStep, RunOp;
      trace := before;
      if data != [] {
        var n: nat :| n < |data|; // how much was written
        trace := Log(fs0, op0, trace, Choice(true, 0, n, ""), Write(target, data, name), fs);
        fs := fs.(tmp := fs.tmp[name := data[..n]]);
      }
      trace := Log(fs0, op0, trace, NO, Write(target, data, name), fs);
      assert fs.tmp == old(fs.tmp)[name := fs.tmp[name]];
    }

    /** The deferred removal, whose error nobody looks at. */
    method Discard(name: nat, out: Outcome, ghost fs0: Files, ghost op0: Op, ghost before: seq<Choice>)
      returns (ghost trace: seq<Choice>)
      requires RunOp(w, fs0, op0, before) == Next(fs, Remove(name, out))
      modifies this
      ensures RunOp(w, fs0, op0, trace) == Next(fs, Done(out))
      ensures fs == old(fs) || fs == old(fs).(tmp := old(fs.tmp) - {name})
    {
      hide OpStep, RunOp;
      if * {
        trace := Log(fs0, op0, before, NO, Remove(name, out), fs);
      } else {
        trace := Log(fs0, op0, before, YES, Remove(name, out), fs);
        fs := fs.(tmp := fs.tmp - {name});
      }
    }

    method Put(data: Bytes, draws: seq<nat>) returns (out: Outcome, ghost trace: seq<Choice>)
      requires Draws(draws)
      modifies this
      ensures RunOp(w, old(fs), PutStat(data), trace) == Next(fs, Done(out))
      ensures out.Stored? ==> w.h(data) in fs.cas && |fs.cas[w.h(data)]| == |data|
      ensures fs.cas == old(fs.cas) || (out.Stored? && fs.cas == old(fs.cas)[w.h(data) := data])
      ensures TmpLeft(old(fs.tmp), fs.tmp, set n | n in draws) && (out.Stored? ==> fs.tmp == old(fs.tmp))
      ensures fs.ac == old(fs.ac) && fs.used <= old(fs.used) + set n | n in draws
    {
      hide OpStep, RunOp;
      var path := w.h(data);
      RunOpNone(w, fs, PutStat(data));
      ghost var was := fs;
      ghost var first := Log(fs, PutStat(data), [], NO, PutStat(data), fs);
      if * { // the stat works
        first := Log(fs, PutStat(data), [], YES, PutStat(data), fs);
        if path in fs.cas && |fs.cas[path]| == |data| {
          return Stored, first;
        }
      }
      out, trace := Stage(ToCas, data, draws);
      RunOpAppend(w, was, PutStat(data), first, trace);
      trace := first + trace;
    }

    /** A blob is returned only when it hashes to the digest; one that does not is evicted. */
    method Get(d: Digest) returns (out: Outcome, ghost trace: seq<Choice>)
      modifies this
      ensures RunOp(w, old(fs), GetRead(d), trace) == Next(fs, Done(out))
      ensures out.Blob? || out.NotFound? || out.Failed?
      ensures out.Blob? ==> out.digest == d && w.h(out.data) == d.hash && fs == old(fs)
      ensures fs == old(fs).(cas := fs.cas)
      ensures fs.cas == old(fs.cas) || (d.hash in old(fs.cas) && w.h(old(fs.cas)[d.hash]) != d.hash && fs.cas == old(fs.cas) - {d.hash})
    {
      hide OpStep, RunOp;
      RunOpNone(w, fs, GetRead(d));
      if !Valid(d.hash) {
        out := NotFound;
        trace := Log(fs, GetRead(d), [], YES, GetRead(d), fs);
        return;
      }
      if * {
        out := Failed;
        trace := Log(fs, GetRead(d), [], NO, GetRead(d), fs);
        return;
      }
      trace := Log(fs, GetRead(d), [], YES, GetRead(d), fs);
      if d.hash !in fs.cas {
        out := NotFound;
        return;
      }
      var data := fs.cas[d.hash];
      if w.h(data) != d.hash {
        if * {
          trace := Log(fs, GetRead(d), trace, NO, GetEvict(d), fs);
        } else {
          trace := Log(fs, GetRead(d), trace, YES, GetEvict(d), fs);
          fs := fs.(cas := fs.cas - {d.hash});
        }
        out := NotFound;
        return;
      }
      out := Blob(d, data);
    }

    /** Filename: only the size is looked at. */
    method Filename(d: Digest) returns (out: Outcome, ghost trace: seq<Choice>)
      ensures RunOp(w, fs, FileStat(d), trace) == Next(fs, Done(out))
      ensures out.Present? || out.NotFound?
      ensures out.Present? ==> Contains(fs, d) && d.hash in fs.cas && (d.size >= 0 ==> |fs.cas[d.hash]| == d.size)
    {
      hide OpStep, RunOp;
      RunOpNone(w, fs, FileStat(d));
      if * {
        trace := Log(fs, FileStat(d), [], NO, FileStat(d), fs);
        return NotFound, trace;
      }
      trace := Log(fs, FileStat(d), [], YES, FileStat(d), fs);
      out := if Contains(fs, d) then Present else NotFound;
    }

    /** Opening a blob where it lies; nothing is hashed. */
    method OpenBlob(d: Digest) returns (out: Outcome, ghost trace: seq<Choice>)
      ensures RunOp(w, fs, FileOpen(d), trace) == Next(fs, Done(out))
      ensures out.Blob? || out.Failed?
      ensures out.Blob? ==> d.hash in fs.cas && out == Blob(d, fs.cas[d.hash])
    {
      hide OpStep, RunOp;
      RunOpNone(w, fs, FileOpen(d));
      if * {
        trace := Log(fs, FileOpen(d), [], NO, FileOpen(d), fs);
        return Failed, trace;
      }
      trace := Log(fs, FileOpen(d), [], YES, FileOpen(d), fs);
      out := if d.hash in fs.cas then Blob(d, fs.cas[d.hash]) else Failed;
    }

    /** Which outputs the store lacks decides between a hit and an eviction. */
    method ActionGet(key: string) returns (out: Outcome, ghost trace: seq<Choice>)
      modifies this
      ensures RunOp(w, old(fs), ActRead(key), trace) == Next(fs, Done(out))
      ensures fs == old(fs) || (out.NotFound? && fs == old(fs).(ac := old(fs.ac) - {key}))
      ensures out.Hit? || out.NotFound? || out.Failed?
      ensures out.Hit? ==> out.key == key && key in fs.ac && w.dec(fs.ac[key]) == Some(out.result)
                           && AllThere(fs, out.result)
    {
      hide OpStep, RunOp;
      RunOpNone(w, fs, ActRead(key));
      if !Valid(key) {
        out := NotFound;
        trace := Log(fs, ActRead(key), [], YES, ActRead(key), fs);
        return;
      }
      if * {
        out := Failed;
        trace := Log(fs, ActRead(key), [], NO, ActRead(key), fs);
        return;
      }
      trace := Log(fs, ActRead(key), [], YES, ActRead(key), fs);
      if key !in fs.ac {
        out := NotFound;
        return;
      }
      var result := w.dec(fs.ac[key]);
      if result.None? {
        if * {
          trace := Log(fs, ActRead(key), trace, NO, ActEvict(key), fs);
        } else {
          trace := Log(fs, ActRead(key), trace, YES, ActEvict(key), fs);
          fs := fs.(ac := fs.ac - {key});
        }
        out := NotFound;
        return;
      }
      out, trace := CheckOutputs(key, result.value, fs, ActRead(key), trace);
    }

    method CheckOutputs(key: string, result: Outputs, ghost fs0: Files, ghost op0: Op, ghost before: seq<Choice>)
      returns (out: Outcome, ghost trace: seq<Choice>)
      requires RunOp(w, fs0, op0, before) == Next(fs, ActCheck(key, result, result.Keys))
      modifies this
      ensures RunOp(w, fs0, op0, trace) == Next(fs, Done(out))
      ensures out == Hit(key, result) || out == NotFound
      ensures out.Hit? ==> AllThere(old(fs), result)
      ensures fs == old(fs) || (out.NotFound? && fs == old(fs).(ac := old(fs.ac) - {key}))
    {
      hide OpStep, RunOp, Contains;
      var todo := result.Keys;
      trace := before;
      while todo != {}
        invariant fs == old(fs) && todo <= result.Keys
        invariant RunOp(w, fs0, op0, trace) == Next(fs, ActCheck(key, result, todo))
        invariant forall name :: name in result && name !in todo ==> Contains(fs, result[name])
      {
        var pick :| pick in todo;
        var stat := *;
        trace := Log(fs0, op0, trace, Choice(stat, 0, 0, pick), ActCheck(key, result, todo), fs);
        if !stat || !Contains(fs, result[pick]) {
          out := NotFound;
          if * {
            trace := Log(fs0, op0, trace, NO, ActEvict(key), fs);
          } else {
            trace := Log(fs0, op0, trace, YES, ActEvict(key), fs);
            fs := fs.(ac := fs.ac - {key});
          }
          return;
        }
        todo := todo - {pick};
      }
      trace := Log(fs0, op0, trace, YES, ActCheck(key, result, todo), fs);
      out := Hit(key, result);
    }

    /** An entry is recorded only when every output is in the store, and then completely. */
    method ActionPut(key: string, result: Outputs, draws: seq<nat>) returns (out: Outcome, ghost trace: seq<Choice>)
      requires Draws(draws)
      modifies this
      ensures RunOp(w, old(fs), PutCheck(key, result, result.Keys), trace) == Next(fs, Done(out))
      ensures fs.cas == old(fs.cas) && (out.Stored? || out.Failed?)
      ensures TmpLeft(old(fs.tmp), fs.tmp, set n | n in draws) && (out.Stored? ==> fs.tmp == old(fs.tmp))
      ensures fs.ac == if out.Stored? then old(fs.ac)[key := w.enc(result)] else old(fs.ac)
      ensures out.Stored? ==> AllThere(fs, result)
    {
      hide OpStep, RunOp, Contains;
      ghost var fs0, op0 := fs, PutCheck(key, result, result.Keys);
      RunOpNone(w, fs, op0);
      trace := [];
      var todo := result.Keys;
      while todo != {}
        invariant todo <= result.Keys && Draws(draws)
        invariant fs == fs0.(checked := fs.checked)
        invariant RunOp(w, fs0, op0, trace) == Next(fs, PutCheck(key, result, todo))
        invariant forall name :: name in result && name !in todo ==> Contains(fs0, result[name])
      {
        var pick :| pick in todo;
        SameCas(fs0, fs, result[pick]);
        var stat := *;
        trace := Log(fs0, op0, trace, Choice(stat, 0, 0, pick), PutCheck(key, result, todo), fs);
        if !stat || !Contains(fs, result[pick]) {
          out := Failed;
          return;
        }
        fs := fs.(checked := fs.checked + {Passed(key, result[pick])});
        todo := todo - {pick};
      }
      ghost var first := Log(fs0, op0, trace, YES, PutCheck(key, result, todo), fs);
      out, trace := Stage(ToAc(key, result), w.enc(result), draws);
      RunOpAppend(w, fs0, op0, first, trace);
      trace := first + trace;
      forall name | name in result
        ensures Contains(fs, result[name])
      {
        SameCas(fs0, fs, result[name]);
      }
    }

    lemma {:induction false} SameCas(a: Files, b: Files, d: Digest)
      requires a.cas == b.cas
      ensures Contains(a, d) == Contains(b, d)
    {
    }
  }
}
