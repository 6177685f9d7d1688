/** Base 128 varints as internal/analysis/analysis_vtproto.pb.go writes and reads them.
    The reader works on three accumulators in the source (uint64, int and int32); all three are the
    same unbounded sum of 7-bit groups cut down to the accumulator's width. */
module Varint {
  import opened Common

  const TWO_31: int := 0x8000_0000
  const TWO_32: int := 0x1_0000_0000
  const TWO_63: int := 0x8000_0000_0000_0000
  const TWO_64: int := 0x1_0000_0000_0000_0000

  type uint64 = x: int | 0 <= x < 0x1_0000_0000_0000_0000
  type int32 = x: int | -0x8000_0000 <= x < 0x8000_0000

  datatype WireError =
    | IntOverflow
    | UnexpectedEOF
    | InvalidLength
    | UnexpectedEndOfGroup
    | IllegalWireType
    | IllegalTag
    | EndGroupForNonGroup
    | WrongWireType

  /** Two's complement reading of the low 32 bits. */
  function Wrap32(v: nat): (r: int32)
    ensures (r - v) % TWO_32 == 0
  {
    var low := v % TWO_32;
    if low < TWO_31 then low else low - TWO_32
  }

  /** uint64(x) of an int32: the sign is extended, so a negative number becomes a huge one. */
  function SignExtend(x: int32): (r: uint64)
    ensures Wrap32(r) == x
    ensures x != 0 ==> r != 0
  {
    if x >= 0 then x else x + TWO_64
  }

  // ----- sizes -----

  /** bits.Len64 */
  function BitLen(x: nat): nat {
    if x == 0 then 0 else 1 + BitLen(x / 2)
  }

  /** sov: (bits.Len64(x|1) + 6) / 7 */
  function Sov(x: nat): nat {
    (BitLen(if x % 2 == 0 then x + 1 else x) + 6) / 7
  }

  function Encode(v: nat): (s: Bytes)
    ensures |s| > 0
  {
    if v < 128 then [v] else [v % 128 + 128] + Encode(v / 128)
  }

  lemma {:induction false} BitLenShift(x: nat)
    requires x >= 128
    ensures BitLen(x) == 7 + BitLen(x / 128)
  {
    assert x / 2 / 2 == x / 4 && x / 4 / 2 == x / 8 && x / 8 / 2 == x / 16;
    assert x / 16 / 2 == x / 32 && x / 32 / 2 == x / 64 && x / 64 / 2 == x / 128;
    assert BitLen(x) == 1 + BitLen(x / 2) && BitLen(x / 2) == 1 + BitLen(x / 4);
    assert BitLen(x / 4) == 1 + BitLen(x / 8) && BitLen(x / 8) == 1 + BitLen(x / 16);
    assert BitLen(x / 16) == 1 + BitLen(x / 32) && BitLen(x / 32) == 1 + BitLen(x / 64);
  }

  lemma {:induction false} BitLenSmall(x: nat)
    requires 0 < x < 128
    ensures 1 <= BitLen(x) <= 7
  {
    assert x / 2 / 2 == x / 4 && x / 4 / 2 == x / 8 && x / 8 / 2 == x / 16;
    assert x / 16 / 2 == x / 32 && x / 32 / 2 == x / 64 && x / 64 / 2 == 0;
    assert BitLen(x / 64) <= 1;
    assert BitLen(x / 32) <= 2;
    assert BitLen(x / 16) <= 3;
    assert BitLen(x / 8) <= 4;
    assert BitLen(x / 4) <= 5;
    assert BitLen(x / 2) <= 6;
  }

  lemma {:induction false} BitLenOr1(x: nat)
    requires x > 0
    ensures BitLen(if x % 2 == 0 then x + 1 else x) == BitLen(x)
  {
  }

  /** The size function counts exactly the bytes the encoder writes. */
  lemma {:induction false} SovIsLength(v: nat)
    ensures Sov(v) == |Encode(v)|
  {
    if v == 0 {
      assert BitLen(1) == 1;
    } else {
      BitLenOr1(v);
      if v < 128 {
        BitLenSmall(v);
      } else {
        BitLenShift(v);
        SovIsLength(v / 128);
        BitLenOr1(v / 128);
      }
    }
  }

  function Pow2(n: nat): (p: nat)
    ensures p > 0
  {
    if n == 0 then 1 else 2 * Pow2(n - 1)
  }

  lemma {:induction false} EncodeLengthBound(v: nat, n: nat)
    requires n > 0 && v < Pow2(7 * n)
    ensures |Encode(v)| <= n
  {
    assert Pow2(7) == 128;
    if v >= 128 {
      Pow2Add(7, 7 * (n - 1));
      EncodeLengthBound(v / 128, n - 1);
    }
  }

  lemma {:induction false} Pow2Add(a: nat, b: nat)
    ensures Pow2(a + b) == Pow2(a) * Pow2(b)
  {
    if a > 0 {
      Pow2Add(a - 1, b);
      assert Pow2(a + b) == 2 * (Pow2(a - 1) * Pow2(b));
    }
  }

  lemma {:induction false} EncodeFitsTen(v: uint64)
    ensures |Encode(v)| <= 10
  {
    Pow2Values();
    EncodeLengthBound(v, 10);
  }

  lemma {:induction false} Pow2Values()
    ensures Pow2(32) == TWO_32 && Pow2(64) == TWO_64 && Pow2(70) >= TWO_64
  {
    assert Pow2(8) == 256;
    Pow2Add(8, 8);
    Pow2Add(16, 16);
    Pow2Add(32, 32);
    Pow2Add(64, 6);
    assert Pow2(6) >= 1;
  }

  // ----- reading -----

  /** A varint read off the front of some bytes: its unbounded value and its length. */
  datatype Reading = Got(raw: nat, len: nat) | Failed(error: WireError)

  /** What the reading loops see at the front of `s`: the unbounded sum of the 7-bit groups and the
      number of bytes taken. `k` groups were read before; the tenth is the last one allowed. */
  function Read(s: Bytes, k: nat := 0): (r: Reading)
    requires k <= 10
    ensures r.Got? ==> 0 < r.len <= |s| && r.len + k <= 10
    decreases 10 - k
  {
    if k == 10 then Failed(IntOverflow)
    else if |s| == 0 then Failed(UnexpectedEOF)
    else if s[0] < 128 then Got(s[0], 1)
    else
      var rest := Read(s[1..], k + 1);
      if rest.Failed? then rest else Got(s[0] - 128 + 128 * rest.raw, rest.len + 1)
  }

  /** Reading undoes writing, whatever follows. */
  lemma {:induction false} ReadEncode(v: nat, t: Bytes, k: nat)
    requires |Encode(v)| + k <= 10
    ensures Read(Encode(v) + t, k) == Got(v, |Encode(v)|)
  {
    if v >= 128 {
      assert (Encode(v) + t)[1..] == Encode(v / 128) + t;
      ReadEncode(v / 128, t, k + 1);
    }
  }

  /** A successful read does not depend on what comes after the bytes it took. */
  lemma {:induction false} ReadLocal(s: Bytes, t: Bytes, k: nat)
    requires k <= 10 && Read(s, k).Got?
    ensures Read(s + t, k) == Read(s, k)
    decreases 10 - k
  {
    if s[0] >= 128 {
      assert (s + t)[1..] == s[1..] + t;
      ReadLocal(s[1..], t, k + 1);
    }
  }

  /** Bitwise or. */
  function BitOr(a: nat, b: nat): nat {
    if a == 0 then b
    else if b == 0 then a
    else 2 * BitOr(a / 2, b / 2) + if a % 2 == 1 || b % 2 == 1 then 1 else 0
  }

  /** `acc |= group << shift` on a `width`-bit accumulator: the shifted group loses what falls off the
      top. */
  function OrShifted(acc: nat, group: nat, shift: nat, width: nat): nat {
    BitOr(acc, (group * Pow2(shift)) % Pow2(width))
  }

  /** Bits above all those that are set are simply added. */
  lemma {:induction false} OrIsSum(a: nat, c: nat, shift: nat)
    requires a < Pow2(shift)
    ensures BitOr(a, c * Pow2(shift)) == a + c * Pow2(shift)
  {
    if shift > 0 && a > 0 && c > 0 {
      var b, h := c * Pow2(shift), c * Pow2(shift - 1);
      assert b == 2 * h;
      OrIsSum(a / 2, c, shift - 1);
      OrHalves(a, h);
    }
  }

  lemma {:induction false} OrHalves(a: nat, h: nat)
    requires a > 0 && BitOr(a / 2, h) == a / 2 + h
    ensures BitOr(a, 2 * h) == a + 2 * h
  {
    assert (2 * h) / 2 == h && (2 * h) % 2 == 0;
  }

  lemma {:induction false} ModOfMultiple(c: nat, p: nat, q: nat)
    requires p > 0 && q > 0
    ensures p * q > 0 && (c * p) % (p * q) == p * (c % q)
  {
    var d, r := c / q, c % q;
    assert c == q * d + r;
    var m := p * q;
    assert m > 0;
    assert c * p == m * d + p * r;
    assert 0 <= p * r < m;
    ModUnique(c * p, m, d, p * r);
  }

  lemma {:induction false} ModUnique(x: int, m: int, d: int, r: int)
    requires m > 0 && x == m * d + r && 0 <= r < m
    ensures x % m == r
  {
    var e := x / m - d;
    assert m * (x / m) + x % m == x;
    assert m * e == r - x % m;
    MulBetween(m, e);
  }

  lemma {:induction false} MulBetween(m: int, e: int)
    requires m > 0 && -m < m * e < m
    ensures e == 0
  {
    if e > 0 {
      MulMono(m, 1, e);
    } else if e < 0 {
      MulMono(m, e, -1);
    }
  }

  lemma {:induction false} MulMono(m: int, a: int, b: int)
    requires m >= 0 && a <= b
    ensures m * a <= m * b
  {
  }

  lemma {:induction false} OrBelowWidth(low: nat, group: nat, p: nat, q: nat)
    requires low < p && q > 0
    ensures p * q > 0 && low % (p * q) + (group * p) % (p * q) == (low + group * p) % (p * q)
  {
    ModOfMultiple(group, p, q);
    var m, d, r := p * q, group / q, group % q;
    MulMono(p, 1, q);
    ModUnique(low, m, 0, low);
    MulMono(p, r + 1, q);
    assert group * p == m * d + p * r by {
      assert group == q * d + r;
    }
    ModUnique(low + group * p, m, d, low + p * r);
  }

  lemma {:induction false} OrAboveWidth(low: nat, group: nat, m: nat, t: nat)
    requires m > 0
    ensures low % m + (group * (m * t)) % m == (low + group * (m * t)) % m
  {
    var n := group * t;
    assert group * (m * t) == m * n;
    ModUnique(m * n, m, n, 0);
    assert low + m * n == m * (low / m + n) + low % m;
    ModUnique(low + m * n, m, low / m + n, low % m);
  }

  /** The loop's or puts the next group above the bits read so far. */
  lemma {:induction false} OrShiftedAdds(low: nat, group: nat, shift: nat, width: nat)
    requires low < Pow2(shift)
    ensures OrShifted(low % Pow2(width), group, shift, width) == (low + group * Pow2(shift)) % Pow2(width)
  {
    hide Pow2, BitOr;
    var p := Pow2(shift);
    if shift < width {
      var q := Pow2(width - shift);
      Pow2Add(shift, width - shift);
      OrBelowWidth(low, group, p, q);
      ModOfMultiple(group, p, q);
      MulMono(p, 1, q);
      ModUnique(low, p * q, 0, low);
      OrIsSum(low, group % q, shift);
    } else {
      var m, u := Pow2(width), Pow2(shift - width);
      Pow2Add(width, shift - width);
      OrAboveWidth(low, group, m, u);
      ShiftedOut(group, m, u);
      OrNothing(low % m);
    }
  }

  lemma {:induction false} ShiftedOut(group: nat, m: nat, u: nat)
    requires m > 0
    ensures (group * (m * u)) % m == 0
  {
    assert group * (m * u) == m * (group * u);
    ModUnique(m * (group * u), m, group * u, 0);
  }

  lemma {:induction false} OrNothing(a: nat)
    ensures BitOr(a, 0) == a
  {
  }

  /** `k` groups summing to `low`, followed by what is still to be read; `p` is 2^(7k). */
  ghost function Extend(low: nat, p: nat, k: nat, rest: Reading): Reading {
    if rest.Failed? then rest else Got(low + p * rest.raw, rest.len + k)
  }

  lemma {:induction false} GroupBound(low: nat, g: nat, p: nat)
    requires low < p && g < 128
    ensures low + g * p < p * 128
  {
    MulMono(p, g, 127);
  }

  lemma {:induction false} GroupShift(low: nat, g: nat, p: nat, v: nat)
    ensures low + p * (g + 128 * v) == (low + g * p) + (p * 128) * v
  {
  }

  lemma {:induction false} ReadStep(s: Bytes, k: nat, low: nat, p: nat)
    requires k < 10 && |s| > 0
    ensures s[0] >= 128 ==>
              Extend(low, p, k, Read(s, k)) == Extend(low + (s[0] - 128) * p, p * 128, k + 1, Read(s[1..], k + 1))
    ensures s[0] < 128 ==> Extend(low, p, k, Read(s, k)) == Got(low + s[0] * p, k + 1)
  {
    var rest := Read(s[1..], k + 1);
    if s[0] >= 128 && rest.Got? {
      GroupShift(low, s[0] - 128, p, rest.raw);
    }
  }

  lemma {:induction false} NextPower(k: nat)
    ensures Pow2(7 * (k + 1)) == Pow2(7 * k) * 128
  {
    Pow2Add(7 * k, 7);
    assert Pow2(7) == 128;
  }

  /** What the reading loop knows after `k` groups summing to `low`, whose low bits are `acc`. */
  ghost predicate Reached(s: Bytes, whole: Reading, k: nat, low: nat, p: nat) {
    k <= 10 && low < p && whole == Extend(low, p, k, Read(s, k))
  }

  ghost predicate LowBits(acc: nat, low: nat, shift: nat, p: nat, width: nat) {
    p == Pow2(shift) && acc == low % Pow2(width)
  }

  lemma {:induction false} ReachedStep(s: Bytes, whole: Reading, k: nat, low: nat, p: nat)
    requires k < 10 && |s| > 0 && Reached(s, whole, k, low, p)
    ensures var next := low + (s[0] % 128) * p;
            && next < p * 128
            && (s[0] >= 128 ==> Reached(s[1..], whole, k + 1, next, p * 128))
            && (s[0] < 128 ==> whole == Got(next, k + 1))
  {
    ReadStep(s, k, low, p);
    GroupBound(low, s[0] % 128, p);
  }

  lemma {:induction false} ReachedStart(s: Bytes, width: nat)
    ensures Reached(s, Read(s), 0, 0, 1) && LowBits(0, 0, 0, 1, width)
  {
  }

  lemma {:induction false} ReachedEnd(s: Bytes, whole: Reading, k: nat, low: nat, p: nat)
    requires Reached(s, whole, k, low, p)
    ensures k <= 10 && (k == 10 ==> whole == Failed(IntOverflow)) && (k < 10 && s == [] ==> whole == Failed(UnexpectedEOF))
  {
  }

  /** One turn of the loop: `acc |= group << shift; shift += 7`. */
  method TakeGroup(acc: nat, b: byte, shift: nat, width: nat, ghost s: Bytes, ghost whole: Reading, ghost k: nat,
                   ghost low: nat, ghost p: nat)
    returns (acc': nat, ghost low': nat, ghost p': nat)
    requires k < 10 && |s| > 0 && s[0] == b && Reached(s, whole, k, low, p)
    requires shift == 7 * k && LowBits(acc, low, shift, p, width)
    ensures LowBits(acc', low', shift + 7, p', width)
    ensures b >= 128 ==> Reached(s[1..], whole, k + 1, low', p')
    ensures b < 128 ==> whole == Got(low', k + 1)
  {
    ReachedStep(s, whole, k, low, p);
    OrShiftedAdds(low, b % 128, shift, width);
    NextPower(k);
    acc' := OrShifted(acc, b % 128, shift, width);
    low', p' := low + (b % 128) * p, p * 128;
  }

  /** The reading loop of every field: `width` is 64 for the uint64 and int accumulators and 32 for
      int32 ones. */
  method ReadLoop(data: Bytes, start: nat, width: nat) returns (r: Reading)
    requires start <= |data|
    ensures Read(data[start..]).Failed? ==> r == Read(data[start..])
    ensures Read(data[start..]).Got? ==>
              r == Got(Read(data[start..]).raw % Pow2(width), start + Read(data[start..]).len)
  {
    hide Read, Pow2, Reached;
    var i, acc, shift := start, 0, 0;
    ghost var low: nat, k: nat, p: nat := 0, 0, 1;
    ReachedStart(data[start..], width);
    while true
      invariant start <= i <= |data| && i == start + k && shift == 7 * k
      invariant Reached(data[i..], Read(data[start..]), k, low, p)
      invariant LowBits(acc, low, shift, p, width)
      decreases 70 - shift
    {
      ReachedEnd(data[i..], Read(data[start..]), k, low, p);
      if shift >= 64 {
        return Failed(IntOverflow);
      }
      if i >= |data| {
        return Failed(UnexpectedEOF);
      }
      var b := data[i];
      assert data[i..][1..] == data[i + 1..];
      acc, low, p := TakeGroup(acc, b, shift, width, data[i..], Read(data[start..]), k, low, p);
      i, k, shift := i + 1, k + 1, shift + 7;
      if b < 128 {
        return Got(acc, i);
      }
    }
  }

  lemma {:induction false} EncodeStep(w: nat)
    ensures w >= 128 ==> Encode(w) == [w % 128 + 128] + Encode(w / 128)
    ensures w < 128 ==> Encode(w) == [w]
    ensures |Encode(w)| >= 1
  {
  }

  /** encodeVarint: fills buf[offset - sov(v) .. offset) front to back and returns where it starts. */
  method EncodeVarint(buf: array<byte>, offset: nat, v: uint64) returns (base: nat)
    requires Sov(v) <= offset <= buf.Length
    modifies buf
    ensures base == offset - Sov(v)
    ensures buf[base..offset] == Encode(v)
    ensures buf[..base] == old(buf[..base]) && buf[offset..] == old(buf[offset..])
  {
    hide Encode, Sov;
    SovIsLength(v);
    base := offset - Sov(v);
    var i, w := base, v;
    EncodeStep(v);
    while w >= 128
      invariant base <= i < offset && 0 <= w < TWO_64
      invariant i + |Encode(w)| == offset
      invariant buf[base..i] + Encode(w) == Encode(v)
      invariant buf[..base] == old(buf[..base]) && buf[offset..] == old(buf[offset..])
      decreases w
    {
      ghost var before := buf[base..i];
      buf[i] := w % 128 + 128;
      assert buf[base..i + 1] == before + [w % 128 + 128];
      EncodeStep(w);
      EncodeStep(w / 128);
      AppendAssoc(before, [w % 128 + 128], Encode(w / 128));
      w := w / 128;
      i := i + 1;
    }
    ghost var before := buf[base..i];
    EncodeStep(w);
    buf[i] := w;
    assert buf[base..i + 1] == before + [w];
  }
}
