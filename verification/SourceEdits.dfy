/** Text replacement: Mutate of internal/source/code.go applies edits from right to left, the batch
    planner of internal/compiler/batch_duckdb.go from left to right. Both are proved equal to replacing
    every span of the original at once, position by position. */
module SourceEdits {
  import opened Common

  /** Replace the characters from start up to stop by text. */
  datatype Cut = Cut(start: int, stop: int, text: string)

  // ----- all at once -----

  /** What the cuts put at a position; of several insertions there, a later one goes in front. */
  function NewAt(cuts: seq<Cut>, p: int): string {
    if cuts == [] then ""
    else
      var last := cuts[|cuts| - 1];
      (if last.start == p then last.text else "") + NewAt(cuts[..|cuts| - 1], p)
  }

  predicate Covers(c: Cut, p: int) { c.start <= p < c.stop }

  predicate Covered(cuts: seq<Cut>, p: int) {
    exists i :: 0 <= i < |cuts| && Covers(cuts[i], p)
  }

  function Kept(raw: string, cuts: seq<Cut>, p: int): string {
    if 0 <= p < |raw| && !Covered(cuts, p) then [raw[p]] else ""
  }

  /** The text from position p to the end, q: each position gives what is put there, then the
      character itself unless some cut covers it. */
  function Splice(raw: string, cuts: seq<Cut>, p: nat, q: nat): string
    decreases q + 1 - p
  {
    if p > q then ""
    else if p == q then NewAt(cuts, p)
    else NewAt(cuts, p) + (Kept(raw, cuts, p) + Splice(raw, cuts, p + 1, q))
  }

  // ----- how the substitution unfolds -----

  lemma {:induction false} SpliceEnd(raw: string, cuts: seq<Cut>)
    ensures Splice(raw, cuts, |raw|, |raw|) == NewAt(cuts, |raw|)
  {
  }

  lemma {:induction false} SpliceAt(raw: string, cuts: seq<Cut>, p: nat, q: nat)
    requires p < q
    ensures Splice(raw, cuts, p, q) == NewAt(cuts, p) + (Kept(raw, cuts, p) + Splice(raw, cuts, p + 1, q))
  {
  }

  predicate Quiet(cuts: seq<Cut>, p: int) { NewAt(cuts, p) == "" && !Covered(cuts, p) }

  /** Text that no cut touches is copied. */
  lemma {:induction false} CopyQuiet(raw: string, cuts: seq<Cut>, p: nat, m: nat, q: nat)
    requires p <= m <= q && m <= |raw| && forall i :: p <= i < m ==> Quiet(cuts, i)
    ensures Splice(raw, cuts, p, q) == raw[p..m] + Splice(raw, cuts, m, q)
    decreases m - p
  {
    hide NewAt, Covered, Splice;
    if p < m {
      assert Quiet(cuts, p);
      CopyQuiet(raw, cuts, p + 1, m, q);
      SpliceAt(raw, cuts, p, q);
      assert raw[p..m] == [raw[p]] + raw[p + 1..m];
      AppendAssoc([raw[p]], raw[p + 1..m], Splice(raw, cuts, m, q));
    }
  }

  /** Positions that are covered and where nothing is put give nothing. */
  lemma {:induction false} SkipCovered(raw: string, cuts: seq<Cut>, p: nat, m: nat, q: nat)
    requires p <= m <= q && forall i :: p <= i < m ==> NewAt(cuts, i) == "" && Covered(cuts, i)
    ensures Splice(raw, cuts, p, q) == Splice(raw, cuts, m, q)
    decreases m - p
  {
    hide NewAt, Covered;
    if p < m {
      assert NewAt(cuts, p) == "";
      SkipCovered(raw, cuts, p + 1, m, q);
    }
  }

  /** Only what happens from p on matters. */
  lemma {:induction false} SpliceAgrees(raw: string, a: seq<Cut>, b: seq<Cut>, p: nat, q: nat)
    requires forall i :: p <= i <= q ==> NewAt(a, i) == NewAt(b, i)
    requires forall i :: p <= i < q ==> Covered(a, i) == Covered(b, i)
    ensures Splice(raw, a, p, q) == Splice(raw, b, p, q)
    decreases q + 1 - p
  {
    hide NewAt, Covered;
    if p <= q {
      assert NewAt(a, p) == NewAt(b, p);
      SpliceAgrees(raw, a, b, p + 1, q);
    }
  }

  lemma {:induction false} NewAtNone(cuts: seq<Cut>, p: int)
    requires forall i :: 0 <= i < |cuts| ==> cuts[i].start != p
    ensures NewAt(cuts, p) == ""
  {
    if cuts != [] {
      NewAtNone(cuts[..|cuts| - 1], p);
    }
  }

  function Add(cuts: seq<Cut>, c: Cut): seq<Cut> { cuts + [c] }

  lemma {:induction false} NewAtMore(cuts: seq<Cut>, c: Cut, p: int)
    ensures NewAt(Add(cuts, c), p) == (if c.start == p then c.text else "") + NewAt(cuts, p)
  {
    assert Add(cuts, c)[..|cuts|] == cuts;
  }

  lemma {:induction false} CoveredMore(cuts: seq<Cut>, c: Cut, p: int)
    ensures Covered(Add(cuts, c), p) == (Covered(cuts, p) || Covers(c, p))
  {
    var all := Add(cuts, c);
    assert forall i :: 0 <= i < |cuts| ==> all[i] == cuts[i];
    if Covers(c, p) {
      assert Covers(all[|cuts|], p);
    }
    if Covered(cuts, p) {
      var i :| 0 <= i < |cuts| && Covers(cuts[i], p);
      assert Covers(all[i], p);
    }
  }

  // ----- one more cut, to the left of the others -----

  ghost predicate AllFrom(cuts: seq<Cut>, lo: int) {
    forall i :: 0 <= i < |cuts| ==> cuts[i].start >= lo
  }

  lemma {:induction false} QuietBefore(cuts: seq<Cut>, lo: int, p: int)
    requires AllFrom(cuts, lo) && p < lo
    ensures Quiet(cuts, p)
  {
    NewAtNone(cuts, p);
  }

  /** Before every cut the text is the original. */
  lemma {:induction false} SplicePrefix(raw: string, cuts: seq<Cut>, lo: nat)
    requires AllFrom(cuts, lo) && lo <= |raw|
    ensures Splice(raw, cuts, 0, |raw|) == raw[..lo] + Splice(raw, cuts, lo, |raw|)
  {
    hide Splice, Quiet;
    forall i | 0 <= i < lo
      ensures Quiet(cuts, i)
    {
      QuietBefore(cuts, lo, i);
    }
    CopyQuiet(raw, cuts, 0, lo, |raw|);
    assert raw[0..lo] == raw[..lo];
  }

  lemma {:induction false} PastCut(raw: string, cuts: seq<Cut>, c: Cut, p: nat)
    requires c.start < p && c.stop <= p
    ensures Splice(raw, Add(cuts, c), p, |raw|) == Splice(raw, cuts, p, |raw|)
  {
    hide Splice, NewAt, Covered, Add;
    forall i | p <= i <= |raw|
      ensures NewAt(Add(cuts, c), i) == NewAt(cuts, i) && Covered(Add(cuts, c), i) == Covered(cuts, i)
    {
      NewAtMore(cuts, c, i);
      CoveredMore(cuts, c, i);
    }
    SpliceAgrees(raw, Add(cuts, c), cuts, p, |raw|);
  }

  lemma {:induction false} FirstOfCut(raw: string, cuts: seq<Cut>, c: Cut)
    requires 0 <= c.start < c.stop <= |raw| && AllFrom(cuts, c.stop)
    ensures NewAt(Add(cuts, c), c.start) == c.text && Covered(Add(cuts, c), c.start)
  {
    hide NewAt, Covered, Add;
    NewAtMore(cuts, c, c.start);
    CoveredMore(cuts, c, c.start);
    QuietBefore(cuts, c.stop, c.start);
    assert Covers(c, c.start);
  }

  /** The new cut's text stands before what its end gives. */
  lemma {:induction false} CutAtStart(raw: string, cuts: seq<Cut>, c: Cut)
    requires 0 <= c.start <= c.stop <= |raw| && AllFrom(cuts, c.stop)
    ensures Splice(raw, Add(cuts, c), c.start, |raw|) == c.text + Splice(raw, cuts, c.stop, |raw|)
  {
    hide *;
    if c.start == c.stop {
      InsertAtStart(raw, cuts, c);
    } else {
      ReplaceAtStart(raw, cuts, c);
    }
  }

  lemma {:induction false} ReplaceAtStart(raw: string, cuts: seq<Cut>, c: Cut)
    requires 0 <= c.start < c.stop <= |raw| && AllFrom(cuts, c.stop)
    ensures Splice(raw, Add(cuts, c), c.start, |raw|) == c.text + Splice(raw, cuts, c.stop, |raw|)
  {
    hide *;
    FirstOfCut(raw, cuts, c);
    AfterFirst(raw, cuts, c);
    GoneAt(raw, Add(cuts, c), c.start);
  }

  lemma {:induction false} GoneAt(raw: string, cuts: seq<Cut>, p: nat)
    requires p < |raw| && Covered(cuts, p)
    ensures Splice(raw, cuts, p, |raw|) == NewAt(cuts, p) + Splice(raw, cuts, p + 1, |raw|)
  {
    hide Splice, NewAt, Covered;
    SpliceAt(raw, cuts, p, |raw|);
    EmptyLeft(Splice(raw, cuts, p + 1, |raw|));
  }

  lemma {:induction false} AfterFirst(raw: string, cuts: seq<Cut>, c: Cut)
    requires 0 <= c.start < c.stop <= |raw| && AllFrom(cuts, c.stop)
    ensures Splice(raw, Add(cuts, c), c.start + 1, |raw|) == Splice(raw, cuts, c.stop, |raw|)
  {
    hide *;
    InsideCut(raw, cuts, c);
    PastCut(raw, cuts, c, c.stop);
  }

  lemma {:induction false} KeptMore(raw: string, cuts: seq<Cut>, c: Cut)
    requires c.start == c.stop
    ensures Kept(raw, Add(cuts, c), c.start) == Kept(raw, cuts, c.start)
    ensures NewAt(Add(cuts, c), c.start) == c.text + NewAt(cuts, c.start)
  {
    hide Covered, NewAt, Add;
    NewAtMore(cuts, c, c.start);
    CoveredMore(cuts, c, c.start);
  }

  lemma {:induction false} InsertAtStart(raw: string, cuts: seq<Cut>, c: Cut)
    requires 0 <= c.start == c.stop <= |raw|
    ensures Splice(raw, Add(cuts, c), c.start, |raw|) == c.text + Splice(raw, cuts, c.start, |raw|)
  {
    KeptMore(raw, cuts, c);
    hide *;
    SpliceEnd(raw, cuts);
    SpliceEnd(raw, Add(cuts, c));
    if c.start < |raw| {
      InsertInside(raw, cuts, c);
    }
  }

  lemma {:induction false} InsertInside(raw: string, cuts: seq<Cut>, c: Cut)
    requires 0 <= c.start == c.stop < |raw|
    ensures Splice(raw, Add(cuts, c), c.start, |raw|) == c.text + Splice(raw, cuts, c.start, |raw|)
  {
    hide *;
    var more, rest := Add(cuts, c), Kept(raw, cuts, c.start) + Splice(raw, cuts, c.start + 1, |raw|);
    KeptMore(raw, cuts, c);
    SpliceAt(raw, more, c.start, |raw|);
    SpliceAt(raw, cuts, c.start, |raw|);
    PastCut(raw, cuts, c, c.start + 1);
    AppendAssoc(c.text, NewAt(cuts, c.start), rest);
  }

  lemma {:induction false} InsideCut(raw: string, cuts: seq<Cut>, c: Cut)
    requires 0 <= c.start < c.stop <= |raw| && AllFrom(cuts, c.stop)
    ensures Splice(raw, Add(cuts, c), c.start + 1, |raw|) == Splice(raw, Add(cuts, c), c.stop, |raw|)
  {
    hide Splice, NewAt, Covered, Add;
    forall i | c.start + 1 <= i < c.stop
      ensures NewAt(Add(cuts, c), i) == "" && Covered(Add(cuts, c), i)
    {
      QuietBefore(cuts, c.stop, i);
      NewAtMore(cuts, c, i);
      CoveredMore(cuts, c, i);
    }
    SkipCovered(raw, Add(cuts, c), c.start + 1, c.stop, |raw|);
  }

  /** One step of Mutate: cutting the text already rewritten to the right is the substitution with
      one more cut. */
  lemma {:induction false} CutStep(raw: string, cuts: seq<Cut>, c: Cut)
    requires 0 <= c.start <= c.stop <= |raw| && AllFrom(cuts, c.stop)
    ensures var s := Splice(raw, cuts, 0, |raw|);
            c.stop <= |s| && s[..c.stop] == raw[..c.stop] && s[c.stop..] == Splice(raw, cuts, c.stop, |raw|)
    ensures var s := Splice(raw, cuts, 0, |raw|);
            Splice(raw, Add(cuts, c), 0, |raw|) == s[..c.start] + c.text + s[c.stop..]
  {
    hide Splice;
    SplicePrefix(raw, cuts, c.stop);
    var s, tail := Splice(raw, cuts, 0, |raw|), Splice(raw, cuts, c.stop, |raw|);
    DropPrefix(raw[..c.stop], tail);
    assert s[..c.start] == raw[..c.start];
    assert AllFrom(Add(cuts, c), c.start);
    SplicePrefix(raw, Add(cuts, c), c.start);
    CutAtStart(raw, cuts, c);
    AppendAssoc(raw[..c.start], c.text, tail);
  }

  // ----- the order of the cuts does not matter -----

  ghost predicate DistinctStarts(cuts: seq<Cut>) {
    forall i, j :: 0 <= i < j < |cuts| ==> cuts[i].start != cuts[j].start
  }

  ghost predicate SameCuts(a: seq<Cut>, b: seq<Cut>) {
    forall c :: c in a <==> c in b
  }

  lemma {:induction false} NewAtOnly(cuts: seq<Cut>, i: nat)
    requires DistinctStarts(cuts) && i < |cuts|
    ensures NewAt(cuts, cuts[i].start) == cuts[i].text
  {
    var init := cuts[..|cuts| - 1];
    if i == |init| {
      NewAtNone(init, cuts[i].start);
    } else {
      NewAtOnly(init, i);
    }
  }

  lemma {:induction false} SameNewAt(a: seq<Cut>, b: seq<Cut>, p: int)
    requires DistinctStarts(a) && DistinctStarts(b) && SameCuts(a, b)
    ensures NewAt(a, p) == NewAt(b, p)
  {
    hide NewAt;
    if i :| 0 <= i < |a| && a[i].start == p {
      assert a[i] in b;
      var j :| 0 <= j < |b| && b[j] == a[i];
      NewAtOnly(a, i);
      NewAtOnly(b, j);
    } else {
      NewAtNone(a, p);
      forall j | 0 <= j < |b|
        ensures b[j].start != p
      {
        assert b[j] in a;
      }
      NewAtNone(b, p);
    }
  }

  lemma {:induction false} CoveredIn(a: seq<Cut>, b: seq<Cut>, p: int)
    requires SameCuts(a, b) && Covered(a, p)
    ensures Covered(b, p)
  {
    var i :| 0 <= i < |a| && Covers(a[i], p);
    assert a[i] in b;
    var j :| 0 <= j < |b| && b[j] == a[i];
    assert Covers(b[j], p);
  }

  /** A substitution is one of a set of cuts: the order they are listed in is immaterial. */
  lemma {:induction false} OrderImmaterial(raw: string, a: seq<Cut>, b: seq<Cut>, p: nat, q: nat)
    requires DistinctStarts(a) && DistinctStarts(b) && SameCuts(a, b)
    ensures Splice(raw, a, p, q) == Splice(raw, b, p, q)
  {
    hide NewAt, Covered, Splice;
    forall i | p <= i <= q
      ensures NewAt(a, i) == NewAt(b, i)
    {
      SameNewAt(a, b, i);
    }
    forall i | p <= i < q
      ensures Covered(a, i) == Covered(b, i)
    {
      if Covered(a, i) {
        CoveredIn(a, b, i);
      }
      if Covered(b, i) {
        CoveredIn(b, a, i);
      }
    }
    SpliceAgrees(raw, a, b, p, q);
  }

  // ----- Mutate -----

  /** oldFunc, when there is one, measures the old text from the text that starts at the location. */
  datatype Edit = Edit(location: int, oldText: string, replacement: string, oldFunc: Option<string -> nat>)

  datatype MutateError = StartOutOfBounds | StopOutOfBounds | EditsOverlap

  function OldLen(e: Edit, rest: string): nat {
    if e.oldFunc.Some? then e.oldFunc.value(rest) else |e.oldText|
  }

  /** One pass of the loop over the text so far, given the location of the edit before. */
  function ApplyOne(s: string, e: Edit, before: Option<int>): Result<string, MutateError> {
    if e.location > |s| || e.location < 0 then Err(StartOutOfBounds)
    else
      var stop := e.location + OldLen(e, s[e.location..]);
      if stop > |s| then Err(StopOutOfBounds)
      else if before.Some? && before.value < stop then Err(EditsOverlap)
      else Ok(s[..e.location] + e.replacement + s[stop..])
  }

  function Before(edits: seq<Edit>): Option<int> {
    if edits == [] then None else Some(edits[|edits| - 1].location)
  }

  function Applied(raw: string, edits: seq<Edit>): Result<string, MutateError> {
    if edits == [] then Ok(raw)
    else
      var init := edits[..|edits| - 1];
      var s := Applied(raw, init);
      if s.Err? then s else ApplyOne(s.value, edits[|edits| - 1], Before(init))
  }

  method SmallestFrom<T>(a: array<T>, key: T -> int, from: nat) returns (m: nat)
    requires from < a.Length
    ensures from <= m < a.Length && forall i :: from <= i < a.Length ==> key(a[m]) <= key(a[i])
  {
    m := from;
    for i := from + 1 to a.Length
      invariant from <= m < a.Length && forall j :: from <= j < i ==> key(a[m]) <= key(a[j])
    {
      if key(a[i]) < key(a[m]) {
        m := i;
      }
    }
  }

  ghost predicate DistinctKeys<T>(s: seq<T>, key: T -> int) {
    forall i, j :: 0 <= i < j < |s| ==> key(s[i]) != key(s[j])
  }

  ghost predicate Ascending<T>(s: seq<T>, key: T -> int) {
    forall i, j :: 0 <= i < j < |s| ==> key(s[i]) <= key(s[j])
  }

  method Swap<T>(a: array<T>, i: nat, m: nat)
    requires i <= m < a.Length
    modifies a
    ensures a[..] == old(a[..])[i := old(a[m])][m := old(a[i])]
    ensures multiset(a[..]) == multiset(old(a[..]))
  {
    a[i], a[m] := a[m], a[i];
  }

  lemma {:induction false} SwapDistinct<T>(s: seq<T>, i: nat, m: nat, key: T -> int)
    requires i <= m < |s| && DistinctKeys(s, key)
    ensures DistinctKeys(s[i := s[m]][m := s[i]], key)
  {
  }

  /** Sorting by a key, in place; elements with the same key may come in any order. */
  method SortBy<T>(a: array<T>, key: T -> int)
    modifies a
    ensures multiset(a[..]) == multiset(old(a[..]))
    ensures Ascending(a[..], key)
    ensures DistinctKeys(old(a[..]), key) ==> DistinctKeys(a[..], key)
  {
    hide DistinctKeys;
    for i := 0 to a.Length
      invariant multiset(a[..]) == multiset(old(a[..]))
      invariant forall x, y :: 0 <= x < i && x < y < a.Length ==> key(a[x]) <= key(a[y])
      invariant DistinctKeys(old(a[..]), key) ==> DistinctKeys(a[..], key)
    {
      var m := SmallestFrom(a, key, i);
      ghost var was := a[..];
      Swap(a, i, m);
      if DistinctKeys(was, key) {
        SwapDistinct(was, i, m, key);
      }
      SelectedOk(was, a[..], i, m, key);
    }
  }

  lemma {:induction false} SelectedOk<T>(s: seq<T>, t: seq<T>, i: nat, m: nat, key: T -> int)
    requires i <= m < |s| && t == s[i := s[m]][m := s[i]]
    requires forall x, y :: 0 <= x < i && x < y < |s| ==> key(s[x]) <= key(s[y])
    requires forall x :: i <= x < |s| ==> key(s[m]) <= key(s[x])
    ensures forall x, y :: 0 <= x < i + 1 && x < y < |s| ==> key(t[x]) <= key(t[y])
  {
  }

  /** Descending by location is ascending by its negation. */
  function Rightmost(e: Edit): int { -e.location }

  method Mutate(raw: string, a: array<Edit>) returns (r: Result<string, MutateError>)
    modifies a
    ensures multiset(a[..]) == multiset(old(a[..])) && Ascending(a[..], Rightmost)
    ensures DistinctKeys(old(a[..]), Rightmost) ==> DistinctKeys(a[..], Rightmost)
    ensures r == Applied(raw, a[..])
  {
    if a.Length == 0 {
      return Ok(raw);
    }
    SortBy(a, Rightmost);
    r := ApplyAll(raw, a);
  }

  method ApplyAll(raw: string, a: array<Edit>) returns (r: Result<string, MutateError>)
    ensures r == Applied(raw, a[..])
  {
    var s := raw;
    assert a[..0] == [];
    for idx := 0 to a.Length
      invariant Applied(raw, a[..idx]) == Ok(s)
    {
      var edit := a[idx];
      AppliedMore(raw, a[..], idx);
      var start := edit.location;
      if start > |s| || start < 0 {
        ErrStays(raw, a[..], idx + 1);
        return Err(StartOutOfBounds);
      }
      var oldLen := if edit.oldFunc.Some? then edit.oldFunc.value(s[start..]) else |edit.oldText|;
      var stop := edit.location + oldLen;
      if stop > |s| {
        ErrStays(raw, a[..], idx + 1);
        return Err(StopOutOfBounds);
      }
      if idx != 0 {
        var prevEdit := a[idx - 1];
        if prevEdit.location < edit.location + oldLen {
          ErrStays(raw, a[..], idx + 1);
          return Err(EditsOverlap);
        }
      }
      s := s[..start] + edit.replacement + s[stop..];
    }
    assert a[..a.Length] == a[..];
    r := Ok(s);
  }

  lemma {:induction false} AppliedMore(raw: string, edits: seq<Edit>, k: nat)
    requires k < |edits| && Applied(raw, edits[..k]).Ok?
    ensures Applied(raw, edits[..k + 1]) == ApplyOne(Applied(raw, edits[..k]).value, edits[k], Before(edits[..k]))
  {
    assert edits[..k + 1][..k] == edits[..k];
  }

  lemma {:induction false} ErrStays(raw: string, edits: seq<Edit>, k: nat)
    requires k <= |edits| && Applied(raw, edits[..k]).Err?
    ensures Applied(raw, edits) == Applied(raw, edits[..k])
    decreases |edits| - k
  {
    if k == |edits| {
      assert edits[..k] == edits;
    } else {
      assert edits[..k + 1][..k] == edits[..k];
      ErrStays(raw, edits, k + 1);
    }
  }
}
