/** Edits at one location: sort.Slice in internal/source/code.go may leave them in any order. When every
    order applies, and when all of them give one text. */
module EditOrders {
  import opened Common
  import opened SourceEdits
  import opened EditSubstitution

  /** An order the sort may leave the edits in. */
  ghost predicate SortedOrder(given: seq<Edit>, s: seq<Edit>) {
    multiset(s) == multiset(given) && Ascending(s, Rightmost)
  }

  // ----- permutations -----

  lemma {:induction false} TwiceThere<T>(s: seq<T>, x: nat, y: nat)
    requires x < y < |s| && s[x] == s[y]
    ensures multiset(s)[s[x]] >= 2
  {
    var init, last := s[..|s| - 1], s[|s| - 1];
    assert s == init + [last];
    if y < |init| {
      TwiceThere(init, x, y);
    } else {
      assert init[x] in multiset(init);
    }
  }

  lemma {:induction false} TwoPlaces<T>(s: seq<T>, v: T) returns (x: nat, y: nat)
    requires multiset(s)[v] >= 2
    ensures x < y < |s| && s[x] == v && s[y] == v
  {
    var init, last := s[..|s| - 1], s[|s| - 1];
    assert s == init + [last];
    if last == v {
      assert v in multiset(init);
      assert v in init;
      x :| 0 <= x < |init| && init[x] == v;
      y := |init|;
    } else {
      x, y := TwoPlaces(init, v);
    }
  }

  /** A sequence is what is left without one place, and the element there. */
  lemma {:induction false} TakeOut<T>(s: seq<T>, k: nat)
    requires k < |s|
    ensures multiset(s) == multiset(s[..k] + s[k + 1..]) + multiset{s[k]}
  {
    assert s == s[..k] + ([s[k]] + s[k + 1..]);
  }

  lemma {:induction false} Cancel<T>(m: multiset<T>, n: multiset<T>, v: T)
    requires m + multiset{v} == n + multiset{v}
    ensures m == n
  {
    assert m == (m + multiset{v}) - multiset{v} && n == (n + multiset{v}) - multiset{v};
  }

  /** The first element of a permutation, taken out of both. */
  lemma {:induction false} SamePlace<T>(a: seq<T>, b: seq<T>) returns (k: nat)
    requires a != [] && multiset(a) == multiset(b)
    ensures k < |b| && b[k] == a[0] && multiset(a[..0] + a[1..]) == multiset(b[..k] + b[k + 1..])
  {
    InMultiset(a, b, 0);
    k :| 0 <= k < |b| && b[k] == a[0];
    TakeOut(a, 0);
    TakeOut(b, k);
    Cancel(multiset(a[..0] + a[1..]), multiset(b[..k] + b[k + 1..]), a[0]);
  }

  /** Two places of a permutation come from two places of the original. */
  lemma {:induction false} PairFrom<T>(a: seq<T>, b: seq<T>, i: nat, j: nat) returns (x: nat, y: nat)
    requires multiset(a) == multiset(b) && i < j < |b|
    ensures x < |a| && y < |a| && x != y && a[x] == b[i] && a[y] == b[j]
  {
    if b[i] == b[j] {
      TwiceThere(b, i, j);
      x, y := TwoPlaces(a, b[i]);
    } else {
      InMultiset(b, a, i);
      InMultiset(b, a, j);
      x :| 0 <= x < |a| && a[x] == b[i];
      y :| 0 <= y < |a| && a[y] == b[j];
    }
  }

  // ----- every order applies -----

  predicate Empty(c: Cut) { c.stop == c.start }

  /** A span that replaces something shares its start with no other edit. */
  ghost predicate LoneStarts(cuts: seq<Cut>) {
    forall i, j :: 0 <= i < j < |cuts| && cuts[i].start == cuts[j].start ==> Empty(cuts[i]) && Empty(cuts[j])
  }

  ghost predicate Separate(raw: string, cuts: seq<Cut>) {
    AllInBounds(raw, cuts) && PairwiseDisjoint(cuts) && LoneStarts(cuts)
  }

  lemma {:induction false} CutsTakeOut(raw: string, s: seq<Edit>, k: nat)
    requires k < |s|
    ensures multiset(Cuts(raw, s)) == multiset(Cuts(raw, s[..k] + s[k + 1..])) + multiset{CutOf(raw, s[k])}
  {
    hide CutOf;
    var cuts := Cuts(raw, s);
    TakeOut(cuts, k);
    assert cuts[..k] + cuts[k + 1..] == Cuts(raw, s[..k] + s[k + 1..]);
  }

  lemma {:induction false} CutsPermute(raw: string, a: seq<Edit>, b: seq<Edit>)
    requires multiset(a) == multiset(b)
    ensures multiset(Cuts(raw, a)) == multiset(Cuts(raw, b))
    decreases |a|
  {
    hide CutOf;
    if a == [] {
      assert |multiset(b)| == |b|;
      assert b == [];
    } else {
      var k := SamePlace(a, b);
      CutsTakeOut(raw, a, 0);
      CutsTakeOut(raw, b, k);
      CutsPermute(raw, a[..0] + a[1..], b[..k] + b[k + 1..]);
    }
  }

  lemma {:induction false} SeparatePermutes(raw: string, a: seq<Cut>, b: seq<Cut>)
    requires multiset(a) == multiset(b) && Separate(raw, a)
    ensures Separate(raw, b)
  {
    forall i | 0 <= i < |b|
      ensures InBounds(raw, b[i])
    {
      InMultiset(b, a, i);
    }
    forall i, j | 0 <= i < j < |b|
      ensures Apart(b[i], b[j]) && (b[i].start == b[j].start ==> Empty(b[i]) && Empty(b[j]))
    {
      var x, y := PairFrom(a, b, i, j);
      if x < y {
        assert Apart(a[x], a[y]);
      } else {
        assert Apart(a[y], a[x]);
      }
    }
  }

  lemma {:induction false} SteadyPermutes(raw: string, a: seq<Edit>, b: seq<Edit>)
    requires multiset(a) == multiset(b) && Steady(raw, a)
    ensures Steady(raw, b)
  {
    hide Unmoved;
    forall i, j | 0 <= i < |b| && 0 <= j < |b| && i != j
      ensures Unmoved(raw, b[i], b[j])
    {
      if i < j {
        var x, y := PairFrom(a, b, i, j);
      } else {
        var y, x := PairFrom(a, b, j, i);
      }
    }
  }

  lemma {:induction false} SeparateFits(raw: string, s: seq<Edit>)
    requires Ascending(s, Rightmost) && Separate(raw, Cuts(raw, s))
    ensures Fits(raw, Cuts(raw, s))
  {
    var cuts := Cuts(raw, s);
    CutsForward(raw, s);
    forall i, j | 0 <= i < j < |cuts|
      ensures cuts[j].stop <= cuts[i].start
    {
      assert Rightmost(s[i]) <= Rightmost(s[j]);
      assert Apart(cuts[i], cuts[j]);
    }
  }

  lemma {:induction false} FitsApart(raw: string, s: seq<Edit>)
    requires Fits(raw, Cuts(raw, s))
    ensures AllInBounds(raw, Cuts(raw, s)) && PairwiseDisjoint(Cuts(raw, s))
  {
  }

  // ----- two orders that differ in one pair -----

  /** How many edits lie strictly to the right of a location, in a sorted order. */
  function Below(s: seq<Edit>, k: int): (n: nat)
    ensures n <= |s| && (forall i :: 0 <= i < n ==> Rightmost(s[i]) < k) && (n < |s| ==> Rightmost(s[n]) >= k)
  {
    if s != [] && Rightmost(s[0]) < k then 1 + Below(s[1..], k) else 0
  }

  function Placed(s: seq<Edit>, es: seq<Edit>, k: int): seq<Edit> {
    s[..Below(s, k)] + es + s[Below(s, k)..]
  }

  lemma {:induction false} PlacedSorted(s: seq<Edit>, es: seq<Edit>, k: int)
    requires Ascending(s, Rightmost) && forall i :: 0 <= i < |es| ==> Rightmost(es[i]) == k
    ensures Ascending(Placed(s, es, k), Rightmost) && multiset(Placed(s, es, k)) == multiset(s) + multiset(es)
  {
    hide Below;
    var n, r := Below(s, k), Placed(s, es, k);
    assert s == s[..n] + s[n..];
    forall i, j | 0 <= i < j < |r|
      ensures Rightmost(r[i]) <= Rightmost(r[j])
    {
      RankIn(s, es, k, i);
      RankIn(s, es, k, j);
      if i < n && j < n {
        assert Rightmost(s[i]) <= Rightmost(s[j]);
      } else if i >= n + |es| {
        assert Rightmost(s[i - |es|]) <= Rightmost(s[j - |es|]);
      }
    }
  }

  lemma {:induction false} RankIn(s: seq<Edit>, es: seq<Edit>, k: int, i: nat)
    requires Ascending(s, Rightmost) && forall x :: 0 <= x < |es| ==> Rightmost(es[x]) == k
    requires i < |Placed(s, es, k)|
    ensures var n, r := Below(s, k), Placed(s, es, k);
            && (i < n ==> r[i] == s[i] && Rightmost(r[i]) < k)
            && (n <= i < n + |es| ==> Rightmost(r[i]) == k)
            && (i >= n + |es| ==> r[i] == s[i - |es|] && Rightmost(r[i]) >= k)
  {
    hide Below;
    var n := Below(s, k);
    if i > n + |es| {
      assert Rightmost(s[n]) <= Rightmost(s[i - |es|]);
    }
  }

  function Sorted(given: seq<Edit>): seq<Edit> {
    if given == [] then []
    else Placed(Sorted(given[..|given| - 1]), [given[|given| - 1]], Rightmost(given[|given| - 1]))
  }

  lemma {:induction false} SortedIs(given: seq<Edit>)
    ensures SortedOrder(given, Sorted(given))
  {
    hide Placed;
    if given != [] {
      var init, last := given[..|given| - 1], given[|given| - 1];
      SortedIs(init);
      PlacedSorted(Sorted(init), [last], Rightmost(last));
      assert given == init + [last];
    }
  }

  /** The edits without the two at i and j. */
  function Without(given: seq<Edit>, i: nat, j: nat): seq<Edit>
    requires i < j < |given|
  {
    given[..i] + given[i + 1..j] + given[j + 1..]
  }

  /** A sorted order in which x and y, two edits of one location, come next to each other. */
  lemma {:induction false} PairOrder(given: seq<Edit>, i: nat, j: nat, x: Edit, y: Edit)
    requires i < j < |given| && given[i].location == given[j].location
    requires (x == given[i] && y == given[j]) || (x == given[j] && y == given[i])
    ensures SortedOrder(given, Placed(Sorted(Without(given, i, j)), [x, y], Rightmost(x)))
  {
    hide Placed, Sorted;
    var rest := Without(given, i, j);
    SortedIs(rest);
    PlacedSorted(Sorted(rest), [x, y], Rightmost(x));
    WithoutTwo(given, i, j);
    assert multiset([x, y]) == multiset{given[i], given[j]};
  }

  lemma {:induction false} WithoutTwo(given: seq<Edit>, i: nat, j: nat)
    requires i < j < |given|
    ensures multiset(given) == multiset(Without(given, i, j)) + multiset{given[i], given[j]}
  {
    TakeOut(given, j);
    var one := given[..j] + given[j + 1..];
    TakeOut(one, i);
    assert one[..i] + one[i + 1..] == Without(given, i, j);
  }

  /** A replacement listed after another edit of its location reaches into it. */
  lemma {:induction false} LaterReplacementFails(raw: string, given: seq<Edit>, i: nat, j: nat, x: Edit, y: Edit)
    requires i < j < |given| && given[i].location == given[j].location && Steady(raw, given)
    requires (x == given[i] && y == given[j]) || (x == given[j] && y == given[i])
    requires !Empty(CutOf(raw, y))
    ensures Applied(raw, Placed(Sorted(Without(given, i, j)), [x, y], Rightmost(x))).Err?
  {
    hide Sorted, Applied, Steady;
    var rest := Sorted(Without(given, i, j));
    var s := Placed(rest, [x, y], Rightmost(x));
    PairOrder(given, i, j, x, y);
    SteadyPermutes(raw, given, s);
    AppliedExact(raw, s);
    var n := Below(rest, Rightmost(x));
    assert s[n] == x && s[n + 1] == y;
    assert Cuts(raw, s)[n] == CutOf(raw, x) && Cuts(raw, s)[n + 1] == CutOf(raw, y);
  }

  /** Every order the sort may leave applies if and only if all spans are in bounds, pairwise disjoint,
      and no span that replaces something shares its start with another edit. */
  lemma {:induction false} EveryOrderApplies(raw: string, given: seq<Edit>)
    requires Steady(raw, given)
    ensures (forall s :: SortedOrder(given, s) ==> Applied(raw, s).Ok?) <==> Separate(raw, Cuts(raw, given))
  {
    hide Applied, Steady, CutOf, Separate, Sorted, Placed;
    if Separate(raw, Cuts(raw, given)) {
      forall s | SortedOrder(given, s)
        ensures Applied(raw, s).Ok?
      {
        SeparateApplies(raw, given, s);
      }
    }
    if forall s :: SortedOrder(given, s) ==> Applied(raw, s).Ok? {
      AppliesSeparate(raw, given);
    }
  }

  lemma {:induction false} SeparateApplies(raw: string, given: seq<Edit>, s: seq<Edit>)
    requires Steady(raw, given) && Separate(raw, Cuts(raw, given)) && SortedOrder(given, s)
    ensures Applied(raw, s) == Ok(Splice(raw, Cuts(raw, s), 0, |raw|))
  {
    hide Applied, Splice, Steady, CutOf, Separate, Fits, Ascending;
    CutsPermute(raw, given, s);
    SeparatePermutes(raw, Cuts(raw, given), Cuts(raw, s));
    SeparateFits(raw, s);
    SteadyPermutes(raw, given, s);
    AppliedExact(raw, s);
  }

  lemma {:induction false} AppliesSeparate(raw: string, given: seq<Edit>)
    requires Steady(raw, given) && forall s :: SortedOrder(given, s) ==> Applied(raw, s).Ok?
    ensures Separate(raw, Cuts(raw, given))
  {
    hide Applied, Steady, Sorted, Placed, Fits, Apart, InBounds, SortedOrder;
    var s, cuts := Sorted(given), Cuts(raw, given);
    SortedIs(given);
    assert Applied(raw, s).Ok?;
    SortedSeparate(raw, given, s);
    forall i, j | 0 <= i < j < |cuts| && cuts[i].start == cuts[j].start
      ensures Empty(cuts[i]) && Empty(cuts[j])
    {
      CutShape(raw, given[i]);
      CutShape(raw, given[j]);
      PairOrder(given, i, j, given[i], given[j]);
      PairOrder(given, i, j, given[j], given[i]);
      if !Empty(cuts[j]) {
        LaterReplacementFails(raw, given, i, j, given[i], given[j]);
      }
      if !Empty(cuts[i]) {
        LaterReplacementFails(raw, given, i, j, given[j], given[i]);
      }
    }
  }

  lemma {:induction false} SortedSeparate(raw: string, given: seq<Edit>, s: seq<Edit>)
    requires Steady(raw, given) && SortedOrder(given, s) && Applied(raw, s).Ok?
    ensures AllInBounds(raw, Cuts(raw, given)) && PairwiseDisjoint(Cuts(raw, given))
  {
    hide Applied, Steady, CutOf;
    SteadyPermutes(raw, given, s);
    AppliedExact(raw, s);
    FitsApart(raw, s);
    CutsPermute(raw, given, s);
    var a, b := Cuts(raw, s), Cuts(raw, given);
    forall i | 0 <= i < |b|
      ensures InBounds(raw, b[i])
    {
      InMultiset(b, a, i);
    }
    forall i, j | 0 <= i < j < |b|
      ensures Apart(b[i], b[j])
    {
      var x, y := PairFrom(a, b, i, j);
      if x < y {
        assert Apart(a[x], a[y]);
      } else {
        assert Apart(a[y], a[x]);
      }
    }
  }

  // ----- and gives the same text -----

  /** Texts inserted at one location may change places. */
  ghost predicate Commuting(cuts: seq<Cut>) {
    forall i, j :: 0 <= i < j < |cuts| && cuts[i].start == cuts[j].start ==> Commute(cuts[i].text, cuts[j].text)
  }

  predicate Commute(a: string, b: string) { a + b == b + a }

  lemma {:induction false} CommutingPermutes(a: seq<Cut>, b: seq<Cut>)
    requires multiset(a) == multiset(b) && Commuting(a)
    ensures Commuting(b)
  {
    forall i, j | 0 <= i < j < |b| && b[i].start == b[j].start
      ensures Commute(b[i].text, b[j].text)
    {
      var x, y := PairFrom(a, b, i, j);
      assert Commute(a[x].text, a[y].text) || Commute(a[y].text, a[x].text);
    }
  }

  function PieceAt(c: Cut, p: int): string { if c.start == p then c.text else "" }

  lemma {:induction false} NewAtAppend(u: seq<Cut>, v: seq<Cut>, p: int)
    ensures NewAt(u + v, p) == NewAt(v, p) + NewAt(u, p)
  {
    if v == [] {
      assert u + v == u;
      EmptyLeft(NewAt(u, p));
    } else {
      var init, last := v[..|v| - 1], v[|v| - 1];
      NewAtAppend(u, init, p);
      assert (u + v)[..|u + v| - 1] == u + init && (u + v)[|u + v| - 1] == last;
      AppendAssoc(PieceAt(last, p), NewAt(init, p), NewAt(u, p));
    }
  }

  /** A text that commutes with all that come after it may be put in front of them. */
  lemma {:induction false} CommutePast(v: seq<Cut>, text: string, p: int)
    requires forall i :: 0 <= i < |v| && v[i].start == p ==> Commute(text, v[i].text)
    ensures NewAt(v, p) + text == text + NewAt(v, p)
  {
    if v == [] {
      EmptyLeft(text);
      assert text + "" == text;
    } else {
      var init, last := v[..|v| - 1], v[|v| - 1];
      CommutePast(init, text, p);
      var piece, rest := PieceAt(last, p), NewAt(init, p);
      assert piece + text == text + piece by {
        if last.start == p {
          assert Commute(text, v[|v| - 1].text);
        }
      }
      AppendAssoc(piece, rest, text);
      AppendAssoc(piece, text, rest);
      AppendAssoc(text, piece, rest);
    }
  }

  lemma {:induction false} PullOut(b: seq<Cut>, k: nat, p: int)
    requires Commuting(b) && k < |b|
    ensures NewAt(b, p) == PieceAt(b[k], p) + NewAt(b[..k] + b[k + 1..], p)
  {
    hide NewAt;
    var u, c, v := b[..k], b[k], b[k + 1..];
    assert b == (u + [c]) + v;
    NewAtAppend(u + [c], v, p);
    NewAtAppend(u, [c], p);
    NewAtAppend(u, v, p);
    SinglePiece(c, p);
    forall i | 0 <= i < |v| && v[i].start == p
      ensures c.start == p ==> Commute(c.text, v[i].text)
    {
      assert v[i] == b[k + 1 + i];
    }
    if c.start == p {
      CommutePast(v, c.text, p);
    }
    AppendAssoc(NewAt(v, p), PieceAt(c, p), NewAt(u, p));
    AppendAssoc(PieceAt(c, p), NewAt(v, p), NewAt(u, p));
    assert NewAt(v, p) + "" == NewAt(v, p);
    EmptyLeft(NewAt(v, p));
  }

  lemma {:induction false} SinglePiece(c: Cut, p: int)
    ensures NewAt([c], p) == PieceAt(c, p)
  {
    assert [c][..0] == [];
    assert PieceAt(c, p) + "" == PieceAt(c, p);
  }

  lemma {:induction false} PermutedPieces(a: seq<Cut>, b: seq<Cut>, p: int)
    requires multiset(a) == multiset(b) && Commuting(a)
    ensures NewAt(a, p) == NewAt(b, p)
    decreases |a|
  {
    hide NewAt, Commuting;
    if a == [] {
      assert |multiset(b)| == |b|;
      assert b == [];
    } else {
      var k := SamePlace(a, b);
      CommutingPermutes(a, b);
      PullOut(a, 0, p);
      PullOut(b, k, p);
      CommutingWithout(a, 0);
      PermutedPieces(a[..0] + a[1..], b[..k] + b[k + 1..], p);
    }
  }

  lemma {:induction false} CommutingWithout(a: seq<Cut>, k: nat)
    requires Commuting(a) && k < |a|
    ensures Commuting(a[..k] + a[k + 1..])
  {
    var r := a[..k] + a[k + 1..];
    forall i, j | 0 <= i < j < |r| && r[i].start == r[j].start
      ensures Commute(r[i].text, r[j].text)
    {
      var x, y := if i < k then i else i + 1, if j < k then j else j + 1;
      assert r[i] == a[x] && r[j] == a[y] && x < y;
    }
  }

  lemma {:induction false} PermutedCovers(a: seq<Cut>, b: seq<Cut>)
    requires multiset(a) == multiset(b)
    ensures SameCuts(a, b) && forall p :: Covered(a, p) == Covered(b, p)
  {
    hide Covered;
    forall c: Cut
      ensures c in a <==> c in b
    {
      assert c in a <==> c in multiset(a);
      assert c in b <==> c in multiset(b);
    }
    forall p
      ensures Covered(a, p) == Covered(b, p)
    {
      if Covered(a, p) {
        CoveredIn(a, b, p);
      }
      if Covered(b, p) {
        CoveredIn(b, a, p);
      }
    }
  }

  lemma {:induction false} CommutingSame(raw: string, a: seq<Cut>, b: seq<Cut>)
    requires multiset(a) == multiset(b) && Commuting(a)
    ensures Splice(raw, a, 0, |raw|) == Splice(raw, b, 0, |raw|)
  {
    hide NewAt, Covered, Splice, Commuting;
    PermutedCovers(a, b);
    forall p | 0 <= p <= |raw|
      ensures NewAt(a, p) == NewAt(b, p)
    {
      PermutedPieces(a, b, p);
    }
    SpliceAgrees(raw, a, b, 0, |raw|);
  }

  // ----- texts that do not commute show -----

  /** Substitutions with pieces of equal lengths give one text only when the pieces are equal. */
  lemma {:induction false} SameTextSamePieces(raw: string, a: seq<Cut>, b: seq<Cut>, p: nat, q: nat, x: nat)
    requires p <= x <= q && Splice(raw, a, p, q) == Splice(raw, b, p, q)
    requires forall i :: p <= i <= q ==> |NewAt(a, i)| == |NewAt(b, i)| && Covered(a, i) == Covered(b, i)
    ensures NewAt(a, x) == NewAt(b, x)
    decreases q - p
  {
    hide Splice, NewAt, Covered;
    if p == q {
      SpliceLast(raw, a, p);
      SpliceLast(raw, b, p);
    } else {
      assert |NewAt(a, p)| == |NewAt(b, p)| && Covered(a, p) == Covered(b, p);
      SameTextAfter(raw, a, b, p, q);
      if p < x {
        SameTextSamePieces(raw, a, b, p + 1, q, x);
      }
    }
  }

  lemma {:induction false} SameTextAfter(raw: string, a: seq<Cut>, b: seq<Cut>, p: nat, q: nat)
    requires p < q && Splice(raw, a, p, q) == Splice(raw, b, p, q)
    requires |NewAt(a, p)| == |NewAt(b, p)| && Covered(a, p) == Covered(b, p)
    ensures NewAt(a, p) == NewAt(b, p) && Splice(raw, a, p + 1, q) == Splice(raw, b, p + 1, q)
  {
    hide Splice, NewAt, Covered;
    SpliceAt(raw, a, p, q);
    SpliceAt(raw, b, p, q);
    var u, v := Splice(raw, a, p + 1, q), Splice(raw, b, p + 1, q);
    SameHeads(NewAt(a, p), Kept(raw, a, p) + u, NewAt(b, p), Kept(raw, b, p) + v);
    SameHeads(Kept(raw, a, p), u, Kept(raw, b, p), v);
  }

  lemma {:induction false} SpliceLast(raw: string, cuts: seq<Cut>, p: nat)
    ensures Splice(raw, cuts, p, p) == NewAt(cuts, p)
  {
  }

  lemma {:induction false} SameHeads(a: string, x: string, b: string, y: string)
    requires a + x == b + y && |a| == |b|
    ensures a == b && x == y
  {
    DropPrefix(a, x);
    DropPrefix(b, y);
  }

  lemma {:induction false} CutsAppend(raw: string, a: seq<Edit>, b: seq<Edit>)
    ensures Cuts(raw, a + b) == Cuts(raw, a) + Cuts(raw, b)
  {
    hide CutOf;
  }

  /** What the two neighbours put at a position stands between what the others put there. */
  lemma {:induction false} PairPieces(raw: string, s: seq<Edit>, x: Edit, y: Edit, p: int)
    ensures var n := Below(s, Rightmost(x));
            NewAt(Cuts(raw, Placed(s, [x, y], Rightmost(x))), p) ==
            NewAt(Cuts(raw, s[n..]), p)
            + (PieceAt(CutOf(raw, y), p) + PieceAt(CutOf(raw, x), p) + NewAt(Cuts(raw, s[..n]), p))
  {
    hide NewAt, CutOf, Below;
    var n := Below(s, Rightmost(x));
    var u, v := Cuts(raw, s[..n]), Cuts(raw, s[n..]);
    CutsAppend(raw, s[..n] + [x, y], s[n..]);
    CutsAppend(raw, s[..n], [x, y]);
    assert Cuts(raw, [x, y]) == [CutOf(raw, x)] + [CutOf(raw, y)];
    NewAtAppend(u + ([CutOf(raw, x)] + [CutOf(raw, y)]), v, p);
    NewAtAppend(u, [CutOf(raw, x)] + [CutOf(raw, y)], p);
    NewAtAppend([CutOf(raw, x)], [CutOf(raw, y)], p);
    SinglePiece(CutOf(raw, x), p);
    SinglePiece(CutOf(raw, y), p);
  }

  /** Two edits of one location, next to each other in either order, give one text only if their
      replacements commute. */
  lemma {:induction false} SwappedPair(raw: string, s: seq<Edit>, x: Edit, y: Edit)
    requires x.location == y.location && 0 <= x.location <= |raw|
    requires multiset(Cuts(raw, Placed(s, [x, y], Rightmost(x)))) == multiset(Cuts(raw, Placed(s, [y, x], Rightmost(y))))
    requires Splice(raw, Cuts(raw, Placed(s, [x, y], Rightmost(x))), 0, |raw|)
             == Splice(raw, Cuts(raw, Placed(s, [y, x], Rightmost(y))), 0, |raw|)
    ensures Commute(x.replacement, y.replacement)
  {
    hide NewAt, Splice, Covered, Placed, CutOf, Below;
    var a, b := Cuts(raw, Placed(s, [x, y], Rightmost(x))), Cuts(raw, Placed(s, [y, x], Rightmost(y)));
    var n := Below(s, Rightmost(x));
    PermutedCovers(a, b);
    forall i: int
      ensures |NewAt(a, i)| == |NewAt(b, i)|
    {
      PairPieces(raw, s, x, y, i);
      PairPieces(raw, s, y, x, i);
    }
    var p := x.location;
    SameTextSamePieces(raw, a, b, 0, |raw|, p);
    PairPieces(raw, s, x, y, p);
    PairPieces(raw, s, y, x, p);
    CutShape(raw, x);
    CutShape(raw, y);
    var tail, head := NewAt(Cuts(raw, s[n..]), p), NewAt(Cuts(raw, s[..n]), p);
    SameHeads(tail, y.replacement + x.replacement + head, tail, x.replacement + y.replacement + head);
    SameHeads(y.replacement + x.replacement, head, x.replacement + y.replacement, head);
  }

  /** All orders apply and agree. */
  ghost predicate OneText(raw: string, given: seq<Edit>) {
    && (forall s :: SortedOrder(given, s) ==> Applied(raw, s).Ok?)
    && (forall s, r :: SortedOrder(given, s) && SortedOrder(given, r) ==> Applied(raw, s) == Applied(raw, r))
  }

  /** Whatever order the sort leaves the edits in, the result is one text, if and only if all spans are
      in bounds, pairwise disjoint, no span that replaces something shares its start with another edit,
      and texts inserted at one location commute. */
  lemma {:induction false} OrderNeverMatters(raw: string, given: seq<Edit>)
    requires Steady(raw, given)
    ensures OneText(raw, given) <==> Separate(raw, Cuts(raw, given)) && Commuting(Cuts(raw, given))
  {
    hide Applied, Steady, CutOf, Separate, Commuting, SortedOrder, Splice;
    EveryOrderApplies(raw, given);
    if Separate(raw, Cuts(raw, given)) && Commuting(Cuts(raw, given)) {
      forall s, r | SortedOrder(given, s) && SortedOrder(given, r)
        ensures Applied(raw, s) == Applied(raw, r)
      {
        OrdersAgree(raw, given, s, r);
      }
    }
    if OneText(raw, given) {
      AgreeCommuting(raw, given);
    }
  }

  lemma {:induction false} OrdersAgree(raw: string, given: seq<Edit>, s: seq<Edit>, r: seq<Edit>)
    requires Steady(raw, given) && Separate(raw, Cuts(raw, given)) && Commuting(Cuts(raw, given))
    requires SortedOrder(given, s) && SortedOrder(given, r)
    ensures Applied(raw, s) == Applied(raw, r)
  {
    hide Applied, Steady, CutOf, Separate, Commuting, Splice, Ascending;
    SeparateApplies(raw, given, s);
    SeparateApplies(raw, given, r);
    CutsPermute(raw, given, s);
    CutsPermute(raw, s, r);
    CommutingPermutes(Cuts(raw, given), Cuts(raw, s));
    CommutingSame(raw, Cuts(raw, s), Cuts(raw, r));
  }

  lemma {:induction false} AgreeCommuting(raw: string, given: seq<Edit>)
    requires Steady(raw, given) && Separate(raw, Cuts(raw, given)) && OneText(raw, given)
    ensures Commuting(Cuts(raw, given))
  {
    hide Applied, Steady, Sorted, Placed, SortedOrder, Splice, CutOf;
    var cuts := Cuts(raw, given);
    forall i, j | 0 <= i < j < |cuts| && cuts[i].start == cuts[j].start
      ensures Commute(cuts[i].text, cuts[j].text)
    {
      var x, y := given[i], given[j];
      CutShape(raw, x);
      CutShape(raw, y);
      assert InBounds(raw, cuts[i]);
      var s := Sorted(Without(given, i, j));
      var a, b := Placed(s, [x, y], Rightmost(x)), Placed(s, [y, x], Rightmost(y));
      PairOrder(given, i, j, x, y);
      PairOrder(given, i, j, y, x);
      SeparateApplies(raw, given, a);
      SeparateApplies(raw, given, b);
      OrdersPermute(raw, given, a, b);
      SwappedPair(raw, s, x, y);
    }
  }

  lemma {:induction false} OrdersPermute(raw: string, given: seq<Edit>, a: seq<Edit>, b: seq<Edit>)
    requires SortedOrder(given, a) && SortedOrder(given, b)
    ensures multiset(Cuts(raw, a)) == multiset(Cuts(raw, b))
  {
    hide CutOf;
    CutsPermute(raw, a, b);
  }

  /** An insertion and a replacement at one location: one order applies and the other does not. */
  lemma {:induction false} TieMayFail()
    ensures var x, y := Edit(0, "", "x", None), Edit(0, "a", "y", None);
            Applied("abc", [x, y]) == Err(EditsOverlap) && Applied("abc", [y, x]).Ok?
  {
    var x, y := Edit(0, "", "x", None), Edit(0, "a", "y", None);
    assert [x, y][..1] == [x] && [y, x][..1] == [y] && [x][..0] == [] && [y][..0] == [];
    assert Applied("abc", []) == Ok("abc");
    assert Applied("abc", [x]).Ok? && Applied("abc", [y]).Ok?;
  }
}
