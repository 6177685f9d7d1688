/** What Mutate and the batch planner's rewriting compute: all edits at once in the original text. */
module EditSubstitution {
  import opened Common
  import opened SourceEdits

  // ----- when Mutate succeeds, and what it returns -----

  /** The span an edit replaces, measured in the original. */
  function CutOf(raw: string, e: Edit): Cut {
    var n := if 0 <= e.location <= |raw| then OldLen(e, raw[e.location..]) else 0;
    Cut(e.location, e.location + n, e.replacement)
  }

  function Cuts(raw: string, edits: seq<Edit>): (r: seq<Cut>)
    ensures |r| == |edits| && forall i :: 0 <= i < |r| ==> r[i] == CutOf(raw, edits[i])
  {
    seq(|edits|, i requires 0 <= i < |edits| => CutOf(raw, edits[i]))
  }

  predicate InBounds(raw: string, c: Cut) { 0 <= c.start && c.stop <= |raw| }

  /** Two cuts do not overlap. */
  predicate Apart(c: Cut, d: Cut) { c.stop <= d.start || d.stop <= c.start }

  ghost predicate AllInBounds(raw: string, cuts: seq<Cut>) {
    forall i :: 0 <= i < |cuts| ==> InBounds(raw, cuts[i])
  }

  ghost predicate PairwiseDisjoint(cuts: seq<Cut>) {
    forall i, j :: 0 <= i < j < |cuts| ==> Apart(cuts[i], cuts[j])
  }

  /** Each edit ends before the ones listed earlier begin. */
  ghost predicate RightToLeft(cuts: seq<Cut>) {
    forall i, j :: 0 <= i < j < |cuts| ==> cuts[j].stop <= cuts[i].start
  }

  /** An edit's measure is settled by the text before the next edit: what that one writes does not
      change it. Edits that carry their old text always meet this. */
  ghost predicate Steady(raw: string, edits: seq<Edit>) {
    forall i, j :: 0 <= i < |edits| && 0 <= j < |edits| && i != j ==> Unmoved(raw, edits[i], edits[j])
  }

  ghost predicate Unmoved(raw: string, e: Edit, next: Edit) {
    0 <= e.location <= next.location <= |raw| ==>
      forall tail: string :: OldLen(e, raw[e.location..next.location] + tail) == OldLen(e, raw[e.location..])
  }

  lemma {:induction false} PlainEditsSteady(raw: string, edits: seq<Edit>)
    requires forall i :: 0 <= i < |edits| ==> edits[i].oldFunc.None?
    ensures Steady(raw, edits)
  {
  }

  lemma {:induction false} CutsInit(raw: string, edits: seq<Edit>)
    requires edits != []
    ensures Cuts(raw, edits) == Add(Cuts(raw, edits[..|edits| - 1]), CutOf(raw, edits[|edits| - 1]))
  {
  }

  lemma {:induction false} RightToLeftMore(cuts: seq<Cut>, c: Cut)
    ensures RightToLeft(Add(cuts, c)) <==> RightToLeft(cuts) && AllFrom(cuts, c.stop)
  {
    var all := Add(cuts, c);
    if RightToLeft(all) {
      forall i, j | 0 <= i < j < |cuts|
        ensures cuts[j].stop <= cuts[i].start
      {
        assert all[i] == cuts[i] && all[j] == cuts[j];
      }
      forall i | 0 <= i < |cuts|
        ensures cuts[i].start >= c.stop
      {
        assert all[i] == cuts[i] && all[|cuts|] == c;
      }
    }
  }

  lemma {:induction false} AllInBoundsMore(raw: string, cuts: seq<Cut>, c: Cut)
    ensures AllInBounds(raw, Add(cuts, c)) <==> AllInBounds(raw, cuts) && InBounds(raw, c)
  {
    var all := Add(cuts, c);
    assert all[|cuts|] == c && forall i :: 0 <= i < |cuts| ==> all[i] == cuts[i];
  }

  /** The text after the edits so far is the original up to the last of them. */
  lemma {:induction false} OriginalBefore(raw: string, edits: seq<Edit>)
    requires edits != [] && Ascending(edits, Rightmost) && AllInBounds(raw, Cuts(raw, edits))
    ensures var lo := edits[|edits| - 1].location; 0 <= lo <= |raw| && AllFrom(Cuts(raw, edits), lo)
    ensures var lo := edits[|edits| - 1].location;
            var s := Splice(raw, Cuts(raw, edits), 0, |raw|);
            |s| >= lo && s[..lo] == raw[..lo]
  {
    hide Splice;
    var lo := edits[|edits| - 1].location;
    var cuts := Cuts(raw, edits);
    assert InBounds(raw, cuts[|cuts| - 1]);
    forall i | 0 <= i < |cuts|
      ensures cuts[i].start >= lo
    {
      assert Rightmost(edits[i]) <= Rightmost(edits[|edits| - 1]);
    }
    SplicePrefix(raw, cuts, lo);
  }

  /** The length an edit measures in the rewritten text is the one it measures in the original. */
  lemma {:induction false} SameLength(raw: string, s: string, e: Edit, next: Edit)
    requires Unmoved(raw, e, next) && 0 <= e.location <= next.location <= |raw|
    requires |s| >= next.location && s[..next.location] == raw[..next.location]
    ensures OldLen(e, s[e.location..]) == OldLen(e, raw[e.location..])
  {
    var lo, p := next.location, e.location;
    var tail := s[lo..];
    assert s == raw[..lo] + tail;
    assert s[p..] == raw[p..lo] + tail;
  }

  ghost predicate Fits(raw: string, cuts: seq<Cut>) { AllInBounds(raw, cuts) && RightToLeft(cuts) }

  lemma {:induction false} FirstEdit(raw: string, e: Edit)
    ensures ApplyOne(raw, e, None).Ok? <==> InBounds(raw, CutOf(raw, e))
    ensures ApplyOne(raw, e, None).Ok? ==>
              ApplyOne(raw, e, None).value == raw[..e.location] + e.replacement + raw[CutOf(raw, e).stop..]
  {
  }

  lemma {:induction false} LaterEdit(raw: string, s: string, e: Edit, next: Edit)
    requires Unmoved(raw, e, next) && e.location <= next.location && 0 <= next.location <= |raw|
    requires |s| >= next.location && s[..next.location] == raw[..next.location]
    ensures var r, c := ApplyOne(s, e, Some(next.location)), CutOf(raw, e);
            && (r.Ok? <==> 0 <= c.start && c.stop <= next.location)
            && (r.Ok? ==> r.value == s[..c.start] + c.text + s[c.stop..])
  {
    if e.location >= 0 {
      SameLength(raw, s, e, next);
    }
  }

  lemma {:induction false} StepExact(raw: string, init: seq<Edit>, e: Edit)
    requires Ascending(init + [e], Rightmost) && Steady(raw, init + [e]) && Fits(raw, Cuts(raw, init))
    ensures var r := ApplyOne(Splice(raw, Cuts(raw, init), 0, |raw|), e, Before(init));
            && (r.Ok? <==> Fits(raw, Add(Cuts(raw, init), CutOf(raw, e))))
            && (r.Ok? ==> r.value == Splice(raw, Add(Cuts(raw, init), CutOf(raw, e)), 0, |raw|))
  {
    hide ApplyOne, Splice, RightToLeft, AllInBounds, CutOf, Steady, Unmoved;
    var c, cuts := CutOf(raw, e), Cuts(raw, init);
    RightToLeftMore(cuts, c);
    AllInBoundsMore(raw, cuts, c);
    CutShape(raw, e);
    if init == [] {
      NoCuts(raw);
      FirstEdit(raw, e);
    } else {
      var next := init[|init| - 1];
      LastOf(raw, init, e);
      OriginalBefore(raw, init);
      LaterEdit(raw, Splice(raw, cuts, 0, |raw|), e, next);
      assert cuts[|cuts| - 1].start == next.location by { CutShape(raw, next); }
      if c.stop <= next.location {
        assert AllFrom(cuts, c.stop);
      }
    }
    if InBounds(raw, c) && AllFrom(cuts, c.stop) {
      CutStep(raw, cuts, c);
    }
  }

  lemma {:induction false} CutShape(raw: string, e: Edit)
    ensures var c := CutOf(raw, e); c.start == e.location && c.stop >= c.start && c.text == e.replacement
  {
  }

  lemma {:induction false} LastOf(raw: string, init: seq<Edit>, e: Edit)
    requires init != [] && Ascending(init + [e], Rightmost) && Steady(raw, init + [e])
    ensures Ascending(init, Rightmost) && Unmoved(raw, e, init[|init| - 1])
    ensures e.location <= init[|init| - 1].location
  {
    hide Unmoved;
    var all := init + [e];
    assert all[|init|] == e && all[|init| - 1] == init[|init| - 1];
    assert Rightmost(all[|init| - 1]) <= Rightmost(all[|init|]);
    forall i, j | 0 <= i < j < |init|
      ensures Rightmost(init[i]) <= Rightmost(init[j])
    {
      assert all[i] == init[i] && all[j] == init[j];
    }
  }

  lemma {:induction false} NoCuts(raw: string)
    ensures Splice(raw, Cuts(raw, []), 0, |raw|) == raw
  {
    SplicePrefix(raw, Cuts(raw, []), |raw|);
    SpliceEnd(raw, Cuts(raw, []));
    assert raw[..|raw|] == raw;
  }

  lemma {:induction false} Inits(raw: string, edits: seq<Edit>)
    requires edits != [] && Ascending(edits, Rightmost) && Steady(raw, edits)
    ensures Ascending(edits[..|edits| - 1], Rightmost) && Steady(raw, edits[..|edits| - 1])
  {
    hide Unmoved;
  }

  /** Edits sorted from right to left: they apply exactly when they are in bounds and none reaches
      into the next, and the result replaces all spans of the original at once. */
  lemma {:induction false} AppliedExact(raw: string, edits: seq<Edit>)
    requires Ascending(edits, Rightmost) && Steady(raw, edits)
    ensures Applied(raw, edits).Ok? <==> Fits(raw, Cuts(raw, edits))
    ensures Applied(raw, edits).Ok? ==> Applied(raw, edits).value == Splice(raw, Cuts(raw, edits), 0, |raw|)
  {
    hide ApplyOne, Splice, RightToLeft, AllInBounds, Steady, Ascending;
    if edits == [] {
      NoCuts(raw);
      NoneFit(raw);
    } else {
      var init, e := edits[..|edits| - 1], edits[|edits| - 1];
      assert edits == init + [e];
      Inits(raw, edits);
      AppliedExact(raw, init);
      CutsInit(raw, edits);
      RightToLeftMore(Cuts(raw, init), CutOf(raw, e));
      AllInBoundsMore(raw, Cuts(raw, init), CutOf(raw, e));
      if Fits(raw, Cuts(raw, init)) {
        StepExact(raw, init, e);
      }
    }
  }

  lemma {:induction false} NoneFit(raw: string)
    ensures Fits(raw, Cuts(raw, []))
  {
  }

  // ----- measuring functions that look further -----

  /** The spans as the loop measures them, each in the text rewritten to its right. */
  function Measured(raw: string, edits: seq<Edit>): (r: seq<Cut>)
    ensures |r| == |edits| && forall i :: 0 <= i < |r| ==> r[i].start == edits[i].location && r[i].start <= r[i].stop
  {
    if edits == [] then []
    else
      var cuts, e := Measured(raw, edits[..|edits| - 1]), edits[|edits| - 1];
      Add(cuts, MeasuredCut(Splice(raw, cuts, 0, |raw|), e))
  }

  function MeasuredCut(s: string, e: Edit): Cut {
    var n := if 0 <= e.location <= |s| then OldLen(e, s[e.location..]) else 0;
    Cut(e.location, e.location + n, e.replacement)
  }

  lemma {:induction false} MeasuredStep(s: string, e: Edit, lo: int, before: Option<int>)
    requires 0 <= lo <= |s| && (before.Some? ==> before.value == lo && e.location <= lo) && (before.None? ==> lo == |s|)
    ensures var r, c := ApplyOne(s, e, before), MeasuredCut(s, e);
            && (r.Ok? <==> 0 <= c.start && c.stop <= lo)
            && (r.Ok? ==> r.value == s[..c.start] + c.text + s[c.stop..])
  {
  }

  /** For any measuring functions: edits sorted from right to left apply if and only if the spans they
      measure are in bounds and none reaches into the next, and the result replaces those at once. */
  lemma {:induction false} MeasuredExact(raw: string, edits: seq<Edit>)
    requires Ascending(edits, Rightmost)
    ensures Applied(raw, edits).Ok? <==> Fits(raw, Measured(raw, edits))
    ensures Applied(raw, edits).Ok? ==> Applied(raw, edits).value == Splice(raw, Measured(raw, edits), 0, |raw|)
  {
    hide ApplyOne, Splice, RightToLeft, AllInBounds, Ascending, MeasuredCut;
    if edits == [] {
      NoCuts(raw);
      NoneFit(raw);
      assert Measured(raw, edits) == Cuts(raw, []);
    } else {
      var init, e := edits[..|edits| - 1], edits[|edits| - 1];
      assert Ascending(init, Rightmost) by { AscendingInit(edits); }
      MeasuredExact(raw, init);
      var cuts := Measured(raw, init);
      var s := Splice(raw, cuts, 0, |raw|);
      RightToLeftMore(cuts, MeasuredCut(s, e));
      AllInBoundsMore(raw, cuts, MeasuredCut(s, e));
      if Fits(raw, cuts) {
        MeasuredOneMore(raw, edits);
      }
    }
  }

  lemma {:induction false} AscendingInit(edits: seq<Edit>)
    requires edits != [] && Ascending(edits, Rightmost)
    ensures Ascending(edits[..|edits| - 1], Rightmost)
  {
  }

  lemma {:induction false} MeasuredOneMore(raw: string, edits: seq<Edit>)
    requires edits != [] && Ascending(edits, Rightmost) && Fits(raw, Measured(raw, edits[..|edits| - 1]))
    ensures var init, e := edits[..|edits| - 1], edits[|edits| - 1];
            var cuts := Measured(raw, init);
            var s := Splice(raw, cuts, 0, |raw|);
            var r, c := ApplyOne(s, e, Before(init)), MeasuredCut(s, e);
            && (r.Ok? <==> Fits(raw, Add(cuts, c)))
            && (r.Ok? ==> r.value == Splice(raw, Add(cuts, c), 0, |raw|))
  {
    hide ApplyOne, Splice, RightToLeft, AllInBounds, MeasuredCut, Measured;
    var init, e := edits[..|edits| - 1], edits[|edits| - 1];
    var cuts := Measured(raw, init);
    var s := Splice(raw, cuts, 0, |raw|);
    var c := MeasuredCut(s, e);
    RightToLeftMore(cuts, c);
    AllInBoundsMore(raw, cuts, c);
    MeasuredShape(s, e);
    var lo := if init == [] then |raw| else init[|init| - 1].location;
    LastStart(raw, edits, cuts, lo);
    MeasuredStep(s, e, lo, Before(init));
    if InBounds(raw, c) && AllFrom(cuts, c.stop) {
      CutStep(raw, cuts, c);
    }
  }

  lemma {:induction false} MeasuredShape(s: string, e: Edit)
    ensures MeasuredCut(s, e).start == e.location && MeasuredCut(s, e).start <= MeasuredCut(s, e).stop
  {
  }

  lemma {:induction false} LastStart(raw: string, edits: seq<Edit>, cuts: seq<Cut>, lo: int)
    requires edits != [] && Ascending(edits, Rightmost) && |cuts| == |edits| - 1 && AllInBounds(raw, cuts)
    requires forall i :: 0 <= i < |cuts| ==> cuts[i].start == edits[i].location && cuts[i].start <= cuts[i].stop
    requires lo == if cuts == [] then |raw| else edits[|cuts| - 1].location
    ensures 0 <= lo <= |raw| && AllFrom(cuts, lo) && (cuts != [] ==> edits[|edits| - 1].location <= lo)
    ensures lo <= |Splice(raw, cuts, 0, |raw|)| && (cuts == [] ==> Splice(raw, cuts, 0, |raw|) == raw)
    ensures forall stop: int :: AllFrom(cuts, stop) && stop <= |raw| <==> stop <= lo
  {
    hide Splice;
    if cuts == [] {
      NoCuts(raw);
      assert Cuts(raw, []) == cuts;
    } else {
      assert InBounds(raw, cuts[|cuts| - 1]);
      forall i | 0 <= i < |cuts|
        ensures cuts[i].start >= lo
      {
        assert Rightmost(edits[i]) <= Rightmost(edits[|cuts| - 1]);
      }
      assert Rightmost(edits[|cuts| - 1]) <= Rightmost(edits[|edits| - 1]);
      SplicePrefix(raw, cuts, lo);
      assert cuts[|cuts| - 1].start == lo;
    }
  }

  // ----- any input order -----

  lemma {:induction false} InMultiset<T>(s: seq<T>, t: seq<T>, i: nat)
    requires multiset(s) == multiset(t) && i < |s|
    ensures exists j :: 0 <= j < |t| && t[j] == s[i]
  {
    assert s[i] in multiset(s);
    assert s[i] in t;
  }

  lemma {:induction false} SteadyAnyOrder(raw: string, a: seq<Edit>, b: seq<Edit>)
    requires multiset(a) == multiset(b) && DistinctKeys(b, Rightmost) && Steady(raw, a)
    ensures Steady(raw, b)
  {
    hide Unmoved;
    forall i, j | 0 <= i < |b| && 0 <= j < |b| && i != j
      ensures Unmoved(raw, b[i], b[j])
    {
      InMultiset(b, a, i);
      InMultiset(b, a, j);
      var x :| 0 <= x < |a| && a[x] == b[i];
      var y :| 0 <= y < |a| && a[y] == b[j];
      assert Rightmost(b[i]) != Rightmost(b[j]);
    }
  }

  lemma {:induction false} SameCutsAnyOrder(raw: string, a: seq<Edit>, b: seq<Edit>)
    requires multiset(a) == multiset(b)
    ensures SameCuts(Cuts(raw, a), Cuts(raw, b))
  {
    hide CutOf;
    forall c | c in Cuts(raw, a)
      ensures c in Cuts(raw, b)
    {
      CutIn(raw, a, b, c);
    }
    forall c | c in Cuts(raw, b)
      ensures c in Cuts(raw, a)
    {
      CutIn(raw, b, a, c);
    }
  }

  lemma {:induction false} CutIn(raw: string, a: seq<Edit>, b: seq<Edit>, c: Cut)
    requires multiset(a) == multiset(b) && c in Cuts(raw, a)
    ensures c in Cuts(raw, b)
  {
    hide CutOf;
    var i :| 0 <= i < |a| && Cuts(raw, a)[i] == c;
    InMultiset(a, b, i);
    var j :| 0 <= j < |b| && b[j] == a[i];
    assert Cuts(raw, b)[j] == c;
  }

  lemma {:induction false} DistinctCuts(raw: string, edits: seq<Edit>)
    requires DistinctKeys(edits, Rightmost)
    ensures DistinctStarts(Cuts(raw, edits))
  {
    var cuts := Cuts(raw, edits);
    forall i, j | 0 <= i < j < |cuts|
      ensures cuts[i].start != cuts[j].start
    {
      assert Rightmost(edits[i]) != Rightmost(edits[j]);
    }
  }

  ghost predicate Forward(cuts: seq<Cut>) {
    forall i :: 0 <= i < |cuts| ==> cuts[i].start <= cuts[i].stop
  }

  lemma {:induction false} CutsForward(raw: string, edits: seq<Edit>)
    ensures Forward(Cuts(raw, edits))
  {
  }

  lemma {:induction false} BoundsAnyOrder(raw: string, a: seq<Cut>, b: seq<Cut>)
    requires SameCuts(a, b) && AllInBounds(raw, a)
    ensures AllInBounds(raw, b)
  {
    forall i | 0 <= i < |b|
      ensures InBounds(raw, b[i])
    {
      assert b[i] in a;
    }
  }

  lemma {:induction false} DisjointAnyOrder(a: seq<Cut>, b: seq<Cut>)
    requires SameCuts(a, b) && DistinctStarts(b) && PairwiseDisjoint(a)
    ensures PairwiseDisjoint(b)
  {
    forall i, j | 0 <= i < j < |b|
      ensures Apart(b[i], b[j])
    {
      assert b[i] in a && b[j] in a;
      var x :| 0 <= x < |a| && a[x] == b[i];
      var y :| 0 <= y < |a| && a[y] == b[j];
      assert b[i].start != b[j].start;
    }
  }

  /** Listed from right to left, disjoint is the same as not reaching into the next. */
  lemma {:induction false} DisjointSorted(raw: string, edits: seq<Edit>)
    requires Ascending(edits, Rightmost) && DistinctKeys(edits, Rightmost)
    ensures PairwiseDisjoint(Cuts(raw, edits)) <==> RightToLeft(Cuts(raw, edits))
  {
    var cuts := Cuts(raw, edits);
    CutsForward(raw, edits);
    forall i, j | 0 <= i < j < |cuts|
      ensures Apart(cuts[i], cuts[j]) <==> cuts[j].stop <= cuts[i].start
    {
      assert Rightmost(edits[i]) <= Rightmost(edits[j]) && Rightmost(edits[i]) != Rightmost(edits[j]);
    }
  }

  /** Edits at distinct locations, in any order: once sorted they apply exactly when all are in bounds
      and pairwise disjoint, and the result is the simultaneous substitution of the edits as given. */
  lemma {:induction false} MutateSimultaneous(raw: string, given: seq<Edit>, sorted: seq<Edit>)
    requires multiset(given) == multiset(sorted) && Ascending(sorted, Rightmost)
    requires DistinctKeys(given, Rightmost) && DistinctKeys(sorted, Rightmost) && Steady(raw, given)
    ensures Applied(raw, sorted).Ok? <==> AllInBounds(raw, Cuts(raw, given)) && PairwiseDisjoint(Cuts(raw, given))
    ensures Applied(raw, sorted).Ok? ==> Applied(raw, sorted).value == Splice(raw, Cuts(raw, given), 0, |raw|)
  {
    hide Applied, Splice, Steady, Ascending, DistinctKeys, AllInBounds, PairwiseDisjoint, RightToLeft, CutOf, SameCuts;
    hide DistinctStarts;
    var a, b := Cuts(raw, given), Cuts(raw, sorted);
    SteadyAnyOrder(raw, given, sorted);
    AppliedExact(raw, sorted);
    SameCutsAnyOrder(raw, given, sorted);
    SameCutsAnyOrder(raw, sorted, given);
    DistinctCuts(raw, given);
    DistinctCuts(raw, sorted);
    DisjointSorted(raw, sorted);
    if AllInBounds(raw, a) && PairwiseDisjoint(a) {
      BoundsAnyOrder(raw, a, b);
      DisjointAnyOrder(a, b);
    }
    if AllInBounds(raw, b) && PairwiseDisjoint(b) {
      BoundsAnyOrder(raw, b, a);
      DisjointAnyOrder(b, a);
    }
    OrderImmaterial(raw, a, b, 0, |raw|);
  }

  // ----- the planner's left-to-right rewriting -----

  predicate Within(c: Cut, p: int, q: int) { p <= c.start && c.stop <= q }

  /** The cuts that lie inside a span. */
  function Inside(cuts: seq<Cut>, p: int, q: int): seq<Cut> {
    if cuts == [] then []
    else
      var last := cuts[|cuts| - 1];
      Inside(cuts[..|cuts| - 1], p, q) + if Within(last, p, q) then [last] else []
  }

  /** Nonempty spans from left to right, none reaching into the next. */
  ghost predicate LeftToRight(cuts: seq<Cut>) {
    && (forall i :: 0 <= i < |cuts| ==> cuts[i].start < cuts[i].stop)
    && (forall i, j :: 0 <= i < j < |cuts| ==> cuts[i].stop <= cuts[j].start)
  }

  lemma {:induction false} InsideMembers(cuts: seq<Cut>, p: int, q: int, c: Cut)
    ensures c in Inside(cuts, p, q) <==> c in cuts && Within(c, p, q)
  {
    if cuts != [] {
      var init, last := cuts[..|cuts| - 1], cuts[|cuts| - 1];
      InsideMembers(init, p, q, c);
      assert c in cuts <==> c in init || c == last by { assert cuts == init + [last]; }
      assert c in Inside(cuts, p, q) <==> c in Inside(init, p, q) || (Within(last, p, q) && c == last);
    }
  }

  lemma {:induction false} InsideLeftToRight(cuts: seq<Cut>, p: int, q: int)
    requires LeftToRight(cuts)
    ensures LeftToRight(Inside(cuts, p, q))
  {
    if cuts != [] {
      var init, last := cuts[..|cuts| - 1], cuts[|cuts| - 1];
      InsideLeftToRight(init, p, q);
      var inner := Inside(init, p, q);
      forall i | 0 <= i < |inner|
        ensures inner[i].stop <= last.start
      {
        InsideMembers(init, p, q, inner[i]);
        var j :| 0 <= j < |init| && init[j] == inner[i];
        assert cuts[j] == init[j];
      }
    }
  }

  lemma {:induction false} SortedDistinct(cuts: seq<Cut>)
    requires LeftToRight(cuts)
    ensures DistinctStarts(cuts)
  {
    forall i, j | 0 <= i < j < |cuts|
      ensures cuts[i].start != cuts[j].start
    {
      assert cuts[i].start < cuts[i].stop <= cuts[j].start;
    }
  }

  /** Between two cuts the text is copied; a cut gives its own text and then what follows its end. */
  lemma {:induction false} NextCut(raw: string, cuts: seq<Cut>, k: nat, at: nat, q: nat)
    requires LeftToRight(cuts) && k < |cuts| && at <= cuts[k].start && cuts[k].stop <= q <= |raw|
    requires forall i :: 0 <= i < k ==> cuts[i].stop <= at
    ensures Splice(raw, cuts, at, q) == raw[at..cuts[k].start] + cuts[k].text + Splice(raw, cuts, cuts[k].stop, q)
  {
    hide Splice, NewAt, Covered, Quiet;
    var c := cuts[k];
    forall x | at <= x < c.start
      ensures Quiet(cuts, x)
    {
      QuietBetween(cuts, k, at, x);
    }
    CopyQuiet(raw, cuts, at, c.start, q);
    TakeCut(raw, cuts, k, q);
    AppendAssoc(raw[at..c.start], c.text, Splice(raw, cuts, c.stop, q));
  }

  lemma {:induction false} QuietBetween(cuts: seq<Cut>, k: nat, at: int, x: int)
    requires LeftToRight(cuts) && k <= |cuts| && at <= x && (k < |cuts| ==> x < cuts[k].start)
    requires forall i :: 0 <= i < k ==> cuts[i].stop <= at
    ensures Quiet(cuts, x)
  {
    forall i | 0 <= i < |cuts|
      ensures cuts[i].start != x && !Covers(cuts[i], x)
    {
      if i < k {
        assert cuts[i].start < cuts[i].stop <= at;
      } else if k < i {
        assert cuts[k].start < cuts[k].stop <= cuts[i].start;
      }
    }
    NewAtNone(cuts, x);
  }

  lemma {:induction false} TakeCut(raw: string, cuts: seq<Cut>, k: nat, q: nat)
    requires LeftToRight(cuts) && k < |cuts| && 0 <= cuts[k].start && cuts[k].stop <= q <= |raw|
    ensures Splice(raw, cuts, cuts[k].start, q) == cuts[k].text + Splice(raw, cuts, cuts[k].stop, q)
  {
    hide Splice, NewAt;
    var c := cuts[k];
    SortedDistinct(cuts);
    NewAtOnly(cuts, k);
    assert Covers(cuts[k], c.start);
    forall x | c.start + 1 <= x < c.stop
      ensures NewAt(cuts, x) == "" && Covered(cuts, x)
    {
      assert Covers(cuts[k], x);
      NothingInside(cuts, k, x);
    }
    hide Covered;
    SkipCovered(raw, cuts, c.start + 1, c.stop, q);
    SpliceAt(raw, cuts, c.start, q);
    EmptyLeft(Splice(raw, cuts, c.start + 1, q));
  }

  lemma {:induction false} NothingInside(cuts: seq<Cut>, k: nat, x: int)
    requires LeftToRight(cuts) && k < |cuts| && cuts[k].start < x < cuts[k].stop
    ensures NewAt(cuts, x) == ""
  {
    forall i | 0 <= i < |cuts|
      ensures cuts[i].start != x
    {
      if i < k {
        assert cuts[i].start < cuts[i].stop <= cuts[k].start;
      } else if k < i {
        assert cuts[k].stop <= cuts[i].start;
      }
    }
    NewAtNone(cuts, x);
  }

  lemma {:induction false} AfterLast(raw: string, cuts: seq<Cut>, at: nat, q: nat)
    requires LeftToRight(cuts) && at <= q <= |raw| && forall i :: 0 <= i < |cuts| ==> cuts[i].stop <= at
    ensures Splice(raw, cuts, at, q) == raw[at..q]
  {
    hide NewAt, Covered, Quiet;
    forall x | at <= x <= q
      ensures Quiet(cuts, x)
    {
      QuietBetween(cuts, |cuts|, at, x);
    }
    QuietEnd(raw, cuts, at, q);
  }

  lemma {:induction false} QuietEnd(raw: string, cuts: seq<Cut>, at: nat, q: nat)
    requires at <= q <= |raw| && forall x :: at <= x <= q ==> Quiet(cuts, x)
    ensures Splice(raw, cuts, at, q) == raw[at..q]
  {
    hide NewAt, Covered;
    CopyQuiet(raw, cuts, at, q, q);
    assert Quiet(cuts, q);
  }

  /** The inner loop over all edits for one expression: edits outside the span are passed over. */
  method RewriteSpan(rawSQL: string, edits: seq<Cut>, from: nat, to: nat) returns (sb: string)
    requires LeftToRight(edits) && from <= to <= |rawSQL|
    ensures sb == Splice(rawSQL, Inside(edits, from, to), from, to)
  {
    hide Splice;
    ghost var cuts := Inside(edits, from, to);
    InsideLeftToRight(edits, from, to);
    sb := "";
    var at := from;
    for k := 0 to |edits|
      invariant from <= at <= to
      invariant Inside(edits[..k], from, to) <= cuts
      invariant forall i :: 0 <= i < |Inside(edits[..k], from, to)| ==> cuts[i].stop <= at
      invariant forall i :: k <= i < |edits| && Within(edits[i], from, to) ==> at <= edits[i].start
      invariant sb + Splice(rawSQL, cuts, at, to) == Splice(rawSQL, cuts, from, to)
    {
      var e := edits[k];
      InsideGrows(edits, from, to, k);
      if e.start < from || e.stop > to {
        continue;
      }
      NextCut(rawSQL, cuts, |Inside(edits[..k], from, to)|, at, to);
      AppendFour(sb, rawSQL[at..e.start], e.text, Splice(rawSQL, cuts, e.stop, to));
      sb := sb + rawSQL[at..e.start];
      sb := sb + e.text;
      at := e.stop;
    }
    assert edits[..|edits|] == edits;
    AfterLast(rawSQL, cuts, at, to);
    sb := sb + rawSQL[at..to];
  }

  lemma {:induction false} AppendFour(a: string, b: string, c: string, d: string)
    ensures a + (b + c + d) == a + b + c + d
  {
  }

  lemma {:induction false} InsideGrows(edits: seq<Cut>, p: int, q: int, k: nat)
    requires k < |edits|
    ensures Inside(edits[..k + 1], p, q) == Inside(edits[..k], p, q) + if Within(edits[k], p, q) then [edits[k]] else []
    ensures Inside(edits[..k + 1], p, q) <= Inside(edits, p, q)
    decreases |edits| - k
  {
    assert edits[..k + 1][..k] == edits[..k];
    if k + 1 == |edits| {
      assert edits[..k + 1] == edits;
    } else {
      InsideGrows(edits, p, q, k + 1);
    }
  }

  lemma {:induction false} AllInside(cuts: seq<Cut>, p: int, q: int)
    requires forall i :: 0 <= i < |cuts| ==> Within(cuts[i], p, q)
    ensures Inside(cuts, p, q) == cuts
  {
    if cuts != [] {
      AllInside(cuts[..|cuts| - 1], p, q);
    }
  }

  lemma {:induction false} LeftToRightDisjoint(cuts: seq<Cut>)
    requires LeftToRight(cuts)
    ensures PairwiseDisjoint(cuts)
  {
  }

  /** On disjoint spans the planner's loop and Mutate compute the same text. */
  lemma {:induction false} BothWaysAgree(raw: string, given: seq<Edit>, sorted: seq<Edit>, cuts: seq<Cut>)
    requires multiset(given) == multiset(sorted) && Ascending(sorted, Rightmost)
    requires DistinctKeys(given, Rightmost) && DistinctKeys(sorted, Rightmost) && Steady(raw, given)
    requires LeftToRight(cuts) && AllInBounds(raw, cuts) && SameCuts(cuts, Cuts(raw, given))
    ensures Applied(raw, sorted) == Ok(Splice(raw, Inside(cuts, 0, |raw|), 0, |raw|))
  {
    forall i | 0 <= i < |cuts|
      ensures Within(cuts[i], 0, |raw|)
    {
      assert InBounds(raw, cuts[i]);
    }
    AllInside(cuts, 0, |raw|);
    hide Applied, Splice, Steady, Ascending, DistinctKeys, AllInBounds, PairwiseDisjoint, CutOf, SameCuts, DistinctStarts;
    hide LeftToRight, Inside, Within;
    var a := Cuts(raw, given);
    DistinctCuts(raw, given);
    SortedDistinct(cuts);
    LeftToRightDisjoint(cuts);
    BoundsAnyOrder(raw, cuts, a);
    DisjointAnyOrder(cuts, a);
    SameCutsSym(cuts, a);
    OrderImmaterial(raw, a, cuts, 0, |raw|);
    MutateSimultaneous(raw, given, sorted);
  }

  lemma {:induction false} SameCutsSym(a: seq<Cut>, b: seq<Cut>)
    requires SameCuts(a, b)
    ensures SameCuts(b, a)
  {
  }

  lemma {:induction false} InsertFront(s: string, text: string, before: Option<int>)
    requires before.Some? ==> before.value == 0
    ensures ApplyOne(s, Edit(0, "", text, None), before) == Ok(text + s)
  {
    assert s[..0] + text == text && s[0..] == s;
  }

  /** Insertions at one location do depend on the order sorting leaves them in. */
  lemma {:induction false} TiesDependOnOrder(raw: string, a: string, b: string)
    ensures Applied(raw, [Edit(0, "", a, None), Edit(0, "", b, None)]) == Ok(b + (a + raw))
  {
    hide ApplyOne;
    var x, y := Edit(0, "", a, None), Edit(0, "", b, None);
    assert [x, y][..1] == [x] && [x][..0] == [];
    assert Applied(raw, []) == Ok(raw);
    InsertFront(raw, a, None);
    assert Applied(raw, [x]) == Ok(a + raw);
    InsertFront(a + raw, b, Some(0));
  }
}
