/** The buffer-level code of internal/analysis/analysis_vtproto.pb.go: SizeVT, the backward-writing
    MarshalToSizedBufferVT and the decode loops, each proved against the bytes of AnalysisCodec. */
module AnalysisBuffers {
  import opened Common
  import opened Varint
  import opened Wire
  import opened AnalysisCodec

  // ----- SizeVT -----

  function SizeText(s: Bytes): nat { if |s| > 0 then 1 + |s| + Sov(|s|) else 0 }

  function SizeIdentifier(m: Identifier): nat {
    SizeText(m.catalog) + SizeText(m.schema) + SizeText(m.name) + |m.unknown|
  }

  function SizeNested(id: Option<Identifier>, tag: nat): nat {
    if id.Some? then tag + SizeIdentifier(id.value) + Sov(SizeIdentifier(id.value)) else 0
  }

  function SizeFlag(b: bool, n: nat): nat { if b then n else 0 }

  function SizeNumber(x: int32): nat { if x != 0 then 1 + Sov(SignExtend(x)) else 0 }

  function SizeColumn(c: Column): nat {
    SizeText(c.name) + SizeText(c.originalName) + SizeText(c.dataType)
    + SizeFlag(c.notNull, 2) + SizeFlag(c.unsigned, 2) + SizeFlag(c.isArray, 2)
    + SizeNumber(c.arrayDims) + SizeText(c.comment) + SizeNumber(c.length)
    + SizeFlag(c.isNamedParam, 2) + SizeFlag(c.isFuncCall, 2) + SizeText(c.scope)
    + SizeNested(c.table, 1) + SizeText(c.tableAlias) + SizeNested(c.typ, 1)
    + SizeNested(c.embedTable, 2) + SizeFlag(c.isSqlcSlice, 3) + |c.unknown|
  }

  function SizeParameter(m: Parameter): nat {
    SizeNumber(m.number)
    + (if m.column.Some? then 1 + SizeColumn(m.column.value) + Sov(SizeColumn(m.column.value)) else 0)
    + |m.unknown|
  }

  lemma {:induction false} TagLength(num: nat, wireType: nat)
    requires 0 < num <= 17 && wireType < 8
    ensures |Tag(num, wireType)| == if num < 16 then 1 else 2
  {
    var x := num * 8 + wireType;
    if x >= 128 {
      assert Encode(x) == [x % 128 + 128] + Encode(x / 128) && |Encode(x / 128)| == 1;
    }
  }

  lemma {:induction false} TextLength(num: nat, s: Bytes)
    requires 0 < num < 16
    ensures |StringField(num, s)| == SizeText(s)
  {
    hide Tag, Sov, Encode;
    TagLength(num, 2);
    SovIsLength(|s|);
  }

  lemma {:induction false} IdentifierSizeExact(m: Identifier)
    ensures SizeIdentifier(m) == |IdentifierBytes(m)|
  {
    hide StringField, SizeText;
    TextLength(1, m.catalog);
    TextLength(2, m.schema);
    TextLength(3, m.name);
  }

  /** What SizeVT adds for field k of a column. */
  function SizeOf(k: nat, v: FieldValue): nat {
    match v
    case Text(s) => SizeText(s)
    case Flag(b) => SizeFlag(b, if k < 16 then 2 else 3)
    case Number(n) => SizeNumber(n)
    case Nested(id) => SizeNested(id, if k < 16 then 1 else 2)
  }

  lemma {:induction false} ValueLength(k: nat, v: FieldValue)
    requires 0 < k <= 17 && (v.Text? || v.Number? ==> k < 16)
    ensures |ValueBytes(k, v)| == SizeOf(k, v)
  {
    hide Tag, Sov, Encode, IdentifierBytes, SizeIdentifier;
    TagLength(k, 2);
    TagLength(k, 0);
    match v
    case Text(s) => TextLength(k, s);
    case Flag(b) =>
    case Number(n) => SovIsLength(SignExtend(n));
    case Nested(None) =>
    case Nested(Some(id)) =>
      IdentifierSizeExact(id);
      SovIsLength(|IdentifierBytes(id)|);
  }

  lemma {:induction false} FieldLength(c: Column, k: nat)
    requires 1 <= k <= 17
    ensures |FieldsFrom(c, k)| == SizeOf(k, Get(c, k)) + |FieldsFrom(c, k + 1)|
  {
    hide ValueBytes, SizeOf;
    ValueLength(k, Get(c, k));
  }

  lemma {:induction false} ColumnSizeHead(c: Column)
    ensures |ColumnBytes(c)| ==
            SizeText(c.name) + SizeText(c.originalName) + SizeText(c.dataType) + SizeFlag(c.notNull, 2)
            + SizeFlag(c.unsigned, 2) + SizeFlag(c.isArray, 2) + SizeNumber(c.arrayDims) + SizeText(c.comment)
            + |FieldsFrom(c, 9)|
  {
    hide FieldsFrom, SizeText, SizeNumber, SizeNested, SizeFlag;
    FieldLength(c, 1);
    FieldLength(c, 2);
    FieldLength(c, 3);
    FieldLength(c, 4);
    FieldLength(c, 5);
    FieldLength(c, 6);
    FieldLength(c, 7);
    FieldLength(c, 8);
  }

  lemma {:induction false} ColumnSizeTail(c: Column)
    ensures |FieldsFrom(c, 14)| ==
            SizeOf(14, Get(c, 14)) + SizeOf(15, Get(c, 15)) + SizeOf(16, Get(c, 16)) + SizeOf(17, Get(c, 17)) + |c.unknown|
  {
    hide FieldsFrom, SizeOf, Get;
    FieldLength(c, 14);
    FieldLength(c, 15);
    FieldLength(c, 16);
    FieldLength(c, 17);
    NoMoreFields(c);
  }

  /** SizeVT counts exactly the bytes of a column. */
  lemma {:induction false} ColumnSizeExact(c: Column)
    ensures SizeColumn(c) == |ColumnBytes(c)|
  {
    hide FieldsFrom, SizeText, SizeNumber, SizeNested, SizeFlag;
    ColumnSizeHead(c);
    FieldLength(c, 9);
    FieldLength(c, 10);
    FieldLength(c, 11);
    FieldLength(c, 12);
    FieldLength(c, 13);
    ColumnSizeTail(c);
  }

  lemma {:induction false} NoMoreFields(c: Column)
    ensures FieldsFrom(c, 18) == c.unknown
  {
  }

  lemma {:induction false} DelimitedSize(num: nat, payload: Bytes)
    requires 0 < num < 16
    ensures |Delimited(num, payload)| == 1 + |payload| + Sov(|payload|)
  {
    hide Tag, Sov, Encode;
    TagLength(num, 2);
    SovIsLength(|payload|);
  }

  lemma {:induction false} ParameterSizeExact(m: Parameter)
    ensures SizeParameter(m) == |ParameterBytes(m)|
  {
    hide ColumnBytes, SizeColumn, Delimited, Sov, Encode, Tag;
    TagLength(1, 0);
    SovIsLength(SignExtend(m.number));
    if m.column.Some? {
      ColumnSizeExact(m.column.value);
      DelimitedSize(2, ColumnBytes(m.column.value));
    }
  }

  lemma {:induction false} EmptyElements()
    ensures ColumnBytes(NoColumn) == [] && ParameterBytes(NoParameter) == []
  {
    hide ColumnBytes, Sov;
    ColumnSizeExact(NoColumn);
  }

  /** Analysis.SizeVT: the two accumulating loops; a nil element counts as empty. */
  method SizeAnalysis(m: Analysis) returns (n: nat)
    ensures n == |AnalysisBytes(m)|
  {
    hide ColumnBytes, ParameterBytes, Delimited, Sov, SizeColumn, SizeParameter;
    n := 0;
    ghost var tail := ParamsBytes(m.params, m.unknown);
    var i := 0;
    while i < |m.columns|
      invariant i <= |m.columns|
      invariant n + |ColumnsBytes(m.columns[i..], tail)| == |AnalysisBytes(m)|
    {
      assert m.columns[i..][1..] == m.columns[i + 1..];
      var l := if m.columns[i].Some? then SizeColumn(m.columns[i].value) else 0;
      EmptyElements();
      ColumnSizeExact(ElementColumn(m.columns[i]));
      DelimitedSize(1, ColumnBytes(ElementColumn(m.columns[i])));
      n := n + (1 + l + Sov(l));
      i := i + 1;
    }
    i := 0;
    while i < |m.params|
      invariant i <= |m.params|
      invariant n + |ParamsBytes(m.params[i..], m.unknown)| == |AnalysisBytes(m)|
    {
      assert m.params[i..][1..] == m.params[i + 1..];
      var l := if m.params[i].Some? then SizeParameter(m.params[i].value) else 0;
      EmptyElements();
      ParameterSizeExact(ElementParameter(m.params[i]));
      DelimitedSize(2, ParameterBytes(ElementParameter(m.params[i])));
      n := n + (1 + l + Sov(l));
      i := i + 1;
    }
    n := n + |m.unknown|;
  }

  // ----- MarshalToSizedBufferVT -----

  /** The cursor stands at `i`: `out` has been written from there to `end` and nothing else changed. */
  ghost predicate Written(buf: array<byte>, i: int, end: nat, out: Bytes, orig: Bytes)
    reads buf
  {
    && 0 <= i <= end <= |orig| && |orig| == buf.Length
    && buf[..] == orig[..i] + (out + orig[end..])
  }

  method PutBytes(buf: array<byte>, i: nat, s: Bytes, ghost end: nat, ghost out: Bytes, ghost orig: Bytes) returns (j: nat)
    requires Written(buf, i, end, out, orig) && |s| <= i
    modifies buf
    ensures j == i - |s| && Written(buf, j, end, s + out, orig)
  {
    j := i - |s|;
    ghost var before := buf[..];
    forall k | 0 <= k < |s| {
      buf[j + k] := s[k];
    }
    assert buf[..] == before[..j] + (s + before[i..]);
    assert before[i..] == out + orig[end..] && before[..j] == orig[..j];
    AppendAssoc(s, out, orig[end..]);
  }

  method PutByte(buf: array<byte>, i: nat, b: byte, ghost end: nat, ghost out: Bytes, ghost orig: Bytes) returns (j: nat)
    requires Written(buf, i, end, out, orig) && 1 <= i
    modifies buf
    ensures j == i - 1 && Written(buf, j, end, [b] + out, orig)
  {
    j := i - 1;
    ghost var before := buf[..];
    buf[j] := b;
    assert buf[..] == before[..j] + ([b] + before[i..]);
    assert before[i..] == out + orig[end..] && before[..j] == orig[..j];
    AppendAssoc([b], out, orig[end..]);
  }

  method PutVarint(buf: array<byte>, i: nat, v: uint64, ghost end: nat, ghost out: Bytes, ghost orig: Bytes) returns (j: nat)
    requires Written(buf, i, end, out, orig) && |Encode(v)| <= i
    modifies buf
    ensures j == i - |Encode(v)| && Written(buf, j, end, Encode(v) + out, orig)
  {
    hide Encode, Sov;
    ghost var before := buf[..];
    SovIsLength(v);
    j := EncodeVarint(buf, i, v);
    assert buf[..] == buf[..j] + (buf[j..i] + buf[i..]);
    assert before[i..] == out + orig[end..] && before[..j] == orig[..j];
    AppendAssoc(Encode(v), out, orig[end..]);
  }

  /** A length-delimited field whose payload already stands at the cursor: its length is put before it
      and then the tag, back to front. */
  method PutHeader(buf: array<byte>, i: nat, tag: Bytes, num: nat, ghost payload: Bytes, size: nat,
                   ghost end: nat, ghost out: Bytes, ghost orig: Bytes) returns (j: nat)
    requires Written(buf, i, end, payload + out, orig) && size == |payload| < TWO_64
    requires Tag(num, 2) == tag && |Delimited(num, payload)| <= i + |payload|
    modifies buf
    ensures j == i + |payload| - |Delimited(num, payload)| && Written(buf, j, end, Delimited(num, payload) + out, orig)
  {
    hide Encode, Tag, Written;
    j := PutVarint(buf, i, size, end, payload + out, orig);
    j := PutBytes(buf, j, tag, end, Encode(|payload|) + (payload + out), orig);
    AppendAssoc(Encode(|payload|), payload, out);
    AppendAssoc(tag, Encode(|payload|) + payload, out);
  }

  /** `if len(m.X) > 0 { ... }` for a string field with a one-byte tag. */
  method PutText(buf: array<byte>, i: nat, tag: byte, num: nat, s: Bytes,
                 ghost end: nat, ghost out: Bytes, ghost orig: Bytes) returns (j: nat)
    requires Written(buf, i, end, out, orig) && |s| < TWO_64
    requires Tag(num, 2) == [tag] && |StringField(num, s)| <= i
    modifies buf
    ensures j == i - |StringField(num, s)| && Written(buf, j, end, StringField(num, s) + out, orig)
  {
    hide Tag, Written, Encode;
    j := i;
    if |s| > 0 {
      j := PutBytes(buf, j, s, end, out, orig);
      j := PutHeader(buf, j, [tag], num, s, |s|, end, out, orig);
    } else {
      assert StringField(num, s) + out == out;
    }
  }

  /** `if m.X { ... }` for a bool field; `tag` is written back to front. */
  method PutFlag(buf: array<byte>, i: nat, tag: Bytes, num: nat, b: bool,
                 ghost end: nat, ghost out: Bytes, ghost orig: Bytes) returns (j: nat)
    requires Written(buf, i, end, out, orig)
    requires Tag(num, 0) == tag && |BoolField(num, b)| <= i
    modifies buf
    ensures j == i - |BoolField(num, b)| && Written(buf, j, end, BoolField(num, b) + out, orig)
  {
    hide Tag, Written;
    j := i;
    if b {
      j := PutByte(buf, j, 1, end, out, orig);
      j := PutBytes(buf, j, tag, end, [1] + out, orig);
      AppendAssoc(tag, [1], out);
    } else {
      assert BoolField(num, b) + out == out;
    }
  }

  /** `if m.X != 0 { ... }` for an int32 field. */
  method PutNumber(buf: array<byte>, i: nat, tag: byte, num: nat, x: int32,
                   ghost end: nat, ghost out: Bytes, ghost orig: Bytes) returns (j: nat)
    requires Written(buf, i, end, out, orig)
    requires Tag(num, 0) == [tag] && |IntField(num, x)| <= i
    modifies buf
    ensures j == i - |IntField(num, x)| && Written(buf, j, end, IntField(num, x) + out, orig)
  {
    hide Tag, Written, Encode;
    j := i;
    if x != 0 {
      j := PutVarint(buf, j, SignExtend(x), end, out, orig);
      j := PutByte(buf, j, tag, end, Encode(SignExtend(x)) + out, orig);
      AppendAssoc([tag], Encode(SignExtend(x)), out);
    } else {
      assert IntField(num, x) + out == out;
    }
  }

  lemma {:induction false} Tags()
    ensures Tag(1, 2) == [0x0a] && Tag(2, 2) == [0x12] && Tag(3, 2) == [0x1a] && Tag(8, 2) == [0x42]
    ensures Tag(12, 2) == [0x62] && Tag(13, 2) == [0x6a] && Tag(14, 2) == [0x72] && Tag(15, 2) == [0x7a]
    ensures Tag(1, 0) == [0x08] && Tag(4, 0) == [0x20] && Tag(5, 0) == [0x28] && Tag(6, 0) == [0x30]
    ensures Tag(7, 0) == [0x38] && Tag(9, 0) == [0x48] && Tag(10, 0) == [0x50] && Tag(11, 0) == [0x58]
    ensures Tag(16, 2) == [0x82, 0x01] && Tag(17, 0) == [0x88, 0x01]
  {
    assert Encode(1) == [1];
  }

  method MarshalIdentifier(buf: array<byte>, i: nat, m: Identifier, ghost end: nat, ghost out: Bytes, ghost orig: Bytes)
    returns (size: nat)
    requires Written(buf, i, end, out, orig) && |IdentifierBytes(m)| <= i < TWO_64
    modifies buf
    ensures size == |IdentifierBytes(m)| && Written(buf, i - size, end, IdentifierBytes(m) + out, orig)
  {
    hide Written, StringField, Tag;
    Tags();
    StringFieldLength(1, m.catalog);
    StringFieldLength(2, m.schema);
    StringFieldLength(3, m.name);
    var j := PutBytes(buf, i, m.unknown, end, out, orig);
    ghost var o3 := m.unknown + out;
    j := PutText(buf, j, 0x1a, 3, m.name, end, o3, orig);
    ghost var o2 := StringField(3, m.name) + o3;
    j := PutText(buf, j, 0x12, 2, m.schema, end, o2, orig);
    ghost var o1 := StringField(2, m.schema) + o2;
    j := PutText(buf, j, 0x0a, 1, m.catalog, end, o1, orig);
    IdentifierAppend(m, out);
    size := i - j;
  }

  lemma {:induction false} IdentifierAppend(m: Identifier, out: Bytes)
    ensures StringField(1, m.catalog) + (StringField(2, m.schema) + (StringField(3, m.name) + (m.unknown + out)))
            == IdentifierBytes(m) + out
  {
    hide StringField;
    AppendAssoc(StringField(3, m.name), m.unknown, out);
    AppendAssoc(StringField(2, m.schema), StringField(3, m.name) + m.unknown, out);
    AppendAssoc(StringField(1, m.catalog), StringField(2, m.schema) + (StringField(3, m.name) + m.unknown), out);
  }

  /** `if m.X != nil { ... }` for a nested identifier. */
  method PutNested(buf: array<byte>, i: nat, tag: Bytes, num: nat, id: Option<Identifier>,
                   ghost end: nat, ghost out: Bytes, ghost orig: Bytes) returns (j: nat)
    requires Written(buf, i, end, out, orig) && i < TWO_64
    requires Tag(num, 2) == tag && |ValueBytes(num, Nested(id))| <= i
    modifies buf
    ensures j == i - |ValueBytes(num, Nested(id))|
    ensures Written(buf, j, end, ValueBytes(num, Nested(id)) + out, orig)
  {
    hide Tag, Written, Delimited, IdentifierBytes;
    j := i;
    if id.Some? {
      DelimitedLength(num, IdentifierBytes(id.value));
      var size := MarshalIdentifier(buf, j, id.value, end, out, orig);
      j := j - size;
      j := PutHeader(buf, j, tag, num, IdentifierBytes(id.value), size, end, out, orig);
    } else {
      assert ValueBytes(num, Nested(id)) + out == out;
    }
  }

  /** There is room for field k below what fields k+1..17 have taken. */
  lemma {:induction false} FieldRoom(c: Column, k: nat, out: Bytes)
    requires 1 <= k <= 17
    ensures ValueBytes(k, Get(c, k)) + (FieldsFrom(c, k + 1) + out) == FieldsFrom(c, k) + out
    ensures |ValueBytes(k, Get(c, k))| == |FieldsFrom(c, k)| - |FieldsFrom(c, k + 1)|
    ensures |FieldsFrom(c, k)| <= |ColumnBytes(c)|
    ensures Get(c, k).Text? ==> |Get(c, k).bytes| <= |ColumnBytes(c)|
  {
    hide ValueBytes, Get;
    AppendAssoc(ValueBytes(k, Get(c, k)), FieldsFrom(c, k + 1), out);
    FieldsShrink(c, k);
    if Get(c, k).Text? {
      TextInside(k, Get(c, k));
    }
  }

  lemma {:induction false} TextInside(k: nat, v: FieldValue)
    requires v.Text?
    ensures |v.bytes| <= |ValueBytes(k, v)|
  {
    StringFieldLength(k, v.bytes);
  }

  lemma {:induction false} FieldsShrink(c: Column, k: nat)
    requires 1 <= k <= 18
    ensures |FieldsFrom(c, k)| <= |ColumnBytes(c)|
    decreases k
  {
    hide ValueBytes, Get;
    if k > 1 {
      FieldsShrink(c, k - 1);
    }
  }

  /** Fields 17 down to 13, after the unknown fields. */
  method MarshalColumnTail(buf: array<byte>, i: nat, c: Column, ghost end: nat, ghost out: Bytes, ghost orig: Bytes)
    returns (j: nat)
    requires Written(buf, i, end, out, orig) && |ColumnBytes(c)| <= i < TWO_64
    modifies buf
    ensures j == i - |FieldsFrom(c, 13)| && Written(buf, j, end, FieldsFrom(c, 13) + out, orig)
  {
    hide Written, FieldsFrom, ColumnBytes, StringField, BoolField, IntField, Delimited, IdentifierBytes, Tag;
    Tags();
    NoMoreFields(c);
    FieldsShrink(c, 18);
    j := PutBytes(buf, i, c.unknown, end, out, orig);
    FieldRoom(c, 17, out);
    j := PutFlag(buf, j, [0x88, 0x01], 17, c.isSqlcSlice, end, FieldsFrom(c, 18) + out, orig);
    FieldRoom(c, 16, out);
    j := PutNested(buf, j, [0x82, 0x01], 16, c.embedTable, end, FieldsFrom(c, 17) + out, orig);
    FieldRoom(c, 15, out);
    j := PutNested(buf, j, [0x7a], 15, c.typ, end, FieldsFrom(c, 16) + out, orig);
    FieldRoom(c, 14, out);
    j := PutText(buf, j, 0x72, 14, c.tableAlias, end, FieldsFrom(c, 15) + out, orig);
    FieldRoom(c, 13, out);
    j := PutNested(buf, j, [0x6a], 13, c.table, end, FieldsFrom(c, 14) + out, orig);
  }

  /** Fields 12 down to 7. */
  method MarshalColumnMiddle(buf: array<byte>, i: nat, c: Column, ghost end: nat, ghost out: Bytes, ghost orig: Bytes)
    returns (j: nat)
    requires Written(buf, i, end, FieldsFrom(c, 13) + out, orig)
    requires |ColumnBytes(c)| <= i + |FieldsFrom(c, 13)| && |ColumnBytes(c)| < TWO_64
    modifies buf
    ensures j == i + |FieldsFrom(c, 13)| - |FieldsFrom(c, 7)| && Written(buf, j, end, FieldsFrom(c, 7) + out, orig)
  {
    hide Written, FieldsFrom, ColumnBytes, StringField, BoolField, IntField, Delimited, IdentifierBytes, Tag;
    Tags();
    FieldRoom(c, 12, out);
    j := PutText(buf, i, 0x62, 12, c.scope, end, FieldsFrom(c, 13) + out, orig);
    FieldRoom(c, 11, out);
    j := PutFlag(buf, j, [0x58], 11, c.isFuncCall, end, FieldsFrom(c, 12) + out, orig);
    FieldRoom(c, 10, out);
    j := PutFlag(buf, j, [0x50], 10, c.isNamedParam, end, FieldsFrom(c, 11) + out, orig);
    FieldRoom(c, 9, out);
    j := PutNumber(buf, j, 0x48, 9, c.length, end, FieldsFrom(c, 10) + out, orig);
    FieldRoom(c, 8, out);
    j := PutText(buf, j, 0x42, 8, c.comment, end, FieldsFrom(c, 9) + out, orig);
    FieldRoom(c, 7, out);
    j := PutNumber(buf, j, 0x38, 7, c.arrayDims, end, FieldsFrom(c, 8) + out, orig);
  }

  /** Fields 6 down to 1. */
  method MarshalColumnHead(buf: array<byte>, i: nat, c: Column, ghost end: nat, ghost out: Bytes, ghost orig: Bytes)
    returns (j: nat)
    requires Written(buf, i, end, FieldsFrom(c, 7) + out, orig)
    requires |ColumnBytes(c)| <= i + |FieldsFrom(c, 7)| && |ColumnBytes(c)| < TWO_64
    modifies buf
    ensures j == i + |FieldsFrom(c, 7)| - |ColumnBytes(c)| && Written(buf, j, end, ColumnBytes(c) + out, orig)
  {
    hide Written, FieldsFrom, StringField, BoolField, IntField, Delimited, IdentifierBytes, Tag;
    Tags();
    FieldRoom(c, 6, out);
    j := PutFlag(buf, i, [0x30], 6, c.isArray, end, FieldsFrom(c, 7) + out, orig);
    FieldRoom(c, 5, out);
    j := PutFlag(buf, j, [0x28], 5, c.unsigned, end, FieldsFrom(c, 6) + out, orig);
    FieldRoom(c, 4, out);
    j := PutFlag(buf, j, [0x20], 4, c.notNull, end, FieldsFrom(c, 5) + out, orig);
    FieldRoom(c, 3, out);
    j := PutText(buf, j, 0x1a, 3, c.dataType, end, FieldsFrom(c, 4) + out, orig);
    FieldRoom(c, 2, out);
    j := PutText(buf, j, 0x12, 2, c.originalName, end, FieldsFrom(c, 3) + out, orig);
    FieldRoom(c, 1, out);
    j := PutText(buf, j, 0x0a, 1, c.name, end, FieldsFrom(c, 2) + out, orig);
  }

  method MarshalColumn(buf: array<byte>, i: nat, c: Column, ghost end: nat, ghost out: Bytes, ghost orig: Bytes)
    returns (size: nat)
    requires Written(buf, i, end, out, orig) && |ColumnBytes(c)| <= i < TWO_64
    modifies buf
    ensures size == |ColumnBytes(c)| && Written(buf, i - size, end, ColumnBytes(c) + out, orig)
  {
    hide Written, FieldsFrom, ColumnBytes;
    FieldsShrink(c, 13);
    FieldsShrink(c, 7);
    var j := MarshalColumnTail(buf, i, c, end, out, orig);
    j := MarshalColumnMiddle(buf, j, c, end, out, orig);
    j := MarshalColumnHead(buf, j, c, end, out, orig);
    size := i - j;
  }

  method MarshalParameter(buf: array<byte>, i: nat, m: Parameter, ghost end: nat, ghost out: Bytes, ghost orig: Bytes)
    returns (size: nat)
    requires Written(buf, i, end, out, orig) && |ParameterBytes(m)| <= i < TWO_64
    modifies buf
    ensures size == |ParameterBytes(m)| && Written(buf, i - size, end, ParameterBytes(m) + out, orig)
  {
    hide Written, IntField, Delimited, ColumnBytes, Tag;
    Tags();
    var j := PutBytes(buf, i, m.unknown, end, out, orig);
    ghost var rest := m.unknown;
    if m.column.Some? {
      ghost var payload := ColumnBytes(m.column.value);
      DelimitedLength(2, payload);
      var n := MarshalColumn(buf, j, m.column.value, end, rest + out, orig);
      j := j - n;
      j := PutHeader(buf, j, [0x12], 2, payload, n, end, rest + out, orig);
      AppendAssoc(Delimited(2, payload), rest, out);
      rest := Delimited(2, payload) + rest;
    } else {
      assert [] + m.unknown == m.unknown;
    }
    j := PutNumber(buf, j, 0x08, 1, m.number, end, rest + out, orig);
    AppendAssoc(IntField(1, m.number), rest, out);
    size := i - j;
  }

  /** One element of Columns: nil marshals to nothing, and the header is written all the same. */
  method PutColumn(buf: array<byte>, i: nat, e: Option<Column>, ghost end: nat, ghost out: Bytes, ghost orig: Bytes)
    returns (j: nat)
    requires Written(buf, i, end, out, orig) && |Delimited(1, ColumnBytes(ElementColumn(e)))| <= i < TWO_64
    modifies buf
    ensures j == i - |Delimited(1, ColumnBytes(ElementColumn(e)))|
    ensures Written(buf, j, end, Delimited(1, ColumnBytes(ElementColumn(e))) + out, orig)
  {
    hide Written, Delimited, ColumnBytes, Tag;
    Tags();
    EmptyElements();
    ghost var payload := ColumnBytes(ElementColumn(e));
    DelimitedLength(1, payload);
    assert [] + out == out;
    var size := 0;
    if e.Some? {
      size := MarshalColumn(buf, i, e.value, end, out, orig);
    }
    j := i - size;
    j := PutHeader(buf, j, [0x0a], 1, payload, size, end, out, orig);
  }

  method PutParameter(buf: array<byte>, i: nat, e: Option<Parameter>, ghost end: nat, ghost out: Bytes, ghost orig: Bytes)
    returns (j: nat)
    requires Written(buf, i, end, out, orig) && |Delimited(2, ParameterBytes(ElementParameter(e)))| <= i < TWO_64
    modifies buf
    ensures j == i - |Delimited(2, ParameterBytes(ElementParameter(e)))|
    ensures Written(buf, j, end, Delimited(2, ParameterBytes(ElementParameter(e))) + out, orig)
  {
    hide Written, Delimited, ParameterBytes, Tag, ColumnBytes, IntField, Encode;
    Tags();
    EmptyElements();
    ghost var payload := ParameterBytes(ElementParameter(e));
    DelimitedLength(2, payload);
    assert [] + out == out;
    var size := 0;
    if e.Some? {
      size := MarshalParameter(buf, i, e.value, end, out, orig);
    }
    j := i - size;
    j := PutHeader(buf, j, [0x12], 2, payload, size, end, out, orig);
  }

  lemma {:induction false} ColumnsFrom(es: seq<Option<Column>>, k: nat, tail: Bytes)
    requires k <= |es|
    ensures |ColumnsBytes(es[k..], tail)| <= |ColumnsBytes(es, tail)|
    ensures k < |es| ==> ColumnsBytes(es[k..], tail)
                         == Delimited(1, ColumnBytes(ElementColumn(es[k]))) + ColumnsBytes(es[k + 1..], tail)
  {
    hide Delimited, ColumnBytes;
    if k < |es| {
      assert es[k..][1..] == es[k + 1..] && es[k..][0] == es[k];
    }
    if k == 0 {
      assert es[0..] == es;
    } else {
      ColumnsFrom(es, k - 1, tail);
    }
  }

  lemma {:induction false} ParamsFrom(es: seq<Option<Parameter>>, k: nat, tail: Bytes)
    requires k <= |es|
    ensures |ParamsBytes(es[k..], tail)| <= |ParamsBytes(es, tail)|
    ensures k < |es| ==> ParamsBytes(es[k..], tail)
                         == Delimited(2, ParameterBytes(ElementParameter(es[k]))) + ParamsBytes(es[k + 1..], tail)
  {
    hide Delimited, ParameterBytes;
    if k < |es| {
      assert es[k..][1..] == es[k + 1..] && es[k..][0] == es[k];
    }
    if k == 0 {
      assert es[0..] == es;
    } else {
      ParamsFrom(es, k - 1, tail);
    }
  }

  lemma {:induction false} ColumnsKeepTail(es: seq<Option<Column>>, tail: Bytes)
    ensures |tail| <= |ColumnsBytes(es, tail)|
  {
    if es != [] {
      ColumnsKeepTail(es[1..], tail);
    }
  }

  lemma {:induction false} ParamsKeepTail(es: seq<Option<Parameter>>, tail: Bytes)
    ensures |tail| <= |ParamsBytes(es, tail)|
  {
    ParamsFrom(es, |es|, tail);
  }

  method MarshalParams(buf: array<byte>, i: nat, es: seq<Option<Parameter>>, tail: Bytes, ghost orig: Bytes)
    returns (j: nat)
    requires Written(buf, i, |orig|, tail, orig) && |ParamsBytes(es, tail)| - |tail| <= i < TWO_64
    modifies buf
    ensures j == i - (|ParamsBytes(es, tail)| - |tail|) && Written(buf, j, |orig|, ParamsBytes(es, tail), orig)
  {
    hide Written, Delimited, ParameterBytes;
    j := i;
    var k := |es|;
    while k > 0
      invariant 0 <= k <= |es| && 0 <= j <= i
      invariant j == i - (|ParamsBytes(es[k..], tail)| - |tail|)
      invariant Written(buf, j, |orig|, ParamsBytes(es[k..], tail), orig)
    {
      k := k - 1;
      ParamsFrom(es, k, tail);
      j := PutParameter(buf, j, es[k], |orig|, ParamsBytes(es[k + 1..], tail), orig);
    }
    assert es[0..] == es;
  }

  method MarshalColumns(buf: array<byte>, i: nat, es: seq<Option<Column>>, ghost tail: Bytes, ghost orig: Bytes)
    returns (j: nat)
    requires Written(buf, i, |orig|, tail, orig) && |ColumnsBytes(es, tail)| - |tail| <= i < TWO_64
    modifies buf
    ensures j == i - (|ColumnsBytes(es, tail)| - |tail|) && Written(buf, j, |orig|, ColumnsBytes(es, tail), orig)
  {
    hide Written, Delimited, ColumnBytes;
    j := i;
    var k := |es|;
    while k > 0
      invariant 0 <= k <= |es| && 0 <= j <= i
      invariant j == i - (|ColumnsBytes(es[k..], tail)| - |tail|)
      invariant Written(buf, j, |orig|, ColumnsBytes(es[k..], tail), orig)
    {
      k := k - 1;
      ColumnsFrom(es, k, tail);
      j := PutColumn(buf, j, es[k], |orig|, ColumnsBytes(es[k + 1..], tail), orig);
    }
    assert es[0..] == es;
  }

  lemma {:induction false} WrittenAll(buf: array<byte>, i: int, out: Bytes, orig: Bytes)
    requires Written(buf, i, |orig|, out, orig) && i == 0
    ensures buf[..] == out
  {
  }

  lemma {:induction false} WrittenNothing(buf: array<byte>)
    ensures Written(buf, buf.Length, buf.Length, [], buf[..])
  {
    assert buf[..] == buf[..][..buf.Length] + ([] + buf[..][buf.Length..]);
  }

  /** Analysis.MarshalVT: the buffer SizeVT asks for is filled from its end, and the cursor lands
      exactly on 0. */
  method MarshalAnalysis(m: Analysis) returns (data: Bytes)
    requires |AnalysisBytes(m)| < TWO_63
    ensures data == AnalysisBytes(m)
  {
    hide Written, ColumnsBytes, ParamsBytes;
    var size := SizeAnalysis(m);
    var buf := new byte[size];
    ghost var orig := buf[..];
    WrittenNothing(buf);
    ghost var params := ParamsBytes(m.params, m.unknown);
    ColumnsKeepTail(m.columns, params);
    ParamsKeepTail(m.params, m.unknown);
    var i := PutBytes(buf, size, m.unknown, |orig|, [], orig);
    assert m.unknown + [] == m.unknown;
    i := MarshalParams(buf, i, m.params, m.unknown, orig);
    i := MarshalColumns(buf, i, m.columns, params, orig);
    WrittenAll(buf, i, AnalysisBytes(m), orig);
    data := buf[..];
  }

  // ----- UnmarshalVT -----

  /** One field of a decode loop: the tag, the wire type check and the payload, read in place. */
  method NextField(mt: MessageType, data: Bytes, start: nat) returns (r: Lexed)
    requires start < |data|
    ensures r == NextToken(mt, data[start..])
  {
    hide Read, SkipFrom, KindOf, LexVarint, LexLength, LexUnknown, Pow2;
    Pow2Values();
    var tag := ReadLoop(data, start, 64);
    if tag.Failed? {
      return Bad(tag.error);
    }
    var num, wireType := Wrap32(tag.raw / 8), tag.raw % 8;
    if wireType == 4 {
      return Bad(EndGroupForNonGroup);
    }
    if num <= 0 {
      return Bad(IllegalTag);
    }
    match KindOf(mt, num)
    case UnknownKind =>
      r := NextUnknown(data, start);
    case VarintKind =>
      r := NextScalar(num, wireType, data, start, tag.len);
    case LengthKind =>
      r := NextDelimited(num, wireType, data, start, tag.len);
  }

  method NextUnknown(data: Bytes, start: nat) returns (r: Lexed)
    requires start < |data|
    ensures r == LexUnknown(data[start..])
  {
    hide SkipFrom;
    var past := Skip(data[start..]);
    if past.NotSkipped? {
      return Bad(past.error);
    }
    if start + past.end > |data| {
      return Bad(UnexpectedEOF);
    }
    return Lex(UnknownField(data[start..][..past.end]), past.end);
  }

  method NextScalar(num: int32, wireType: nat, data: Bytes, start: nat, at: nat) returns (r: Lexed)
    requires start <= at <= |data|
    ensures r == if wireType != 0 then Bad(WrongWireType) else LexVarint(num, data[start..][at - start..], at - start)
  {
    hide Read, Pow2;
    Pow2Values();
    DropDrop(data, start, at - start);
    if wireType != 0 {
      return Bad(WrongWireType);
    }
    var v := ReadLoop(data, at, 64);
    if v.Failed? {
      return Bad(v.error);
    }
    return Lex(VarintField(num, v.raw), v.len - start);
  }

  method NextDelimited(num: int32, wireType: nat, data: Bytes, start: nat, at: nat) returns (r: Lexed)
    requires start <= at <= |data|
    ensures r == if wireType != 2 then Bad(WrongWireType) else LexLength(num, data[start..][at - start..], at - start)
  {
    hide Read, Pow2;
    Pow2Values();
    DropDrop(data, start, at - start);
    if wireType != 2 {
      return Bad(WrongWireType);
    }
    var n := ReadLoop(data, at, 64);
    if n.Failed? {
      return Bad(n.error);
    }
    if n.raw >= TWO_63 {
      return Bad(InvalidLength);
    }
    var post := n.len + n.raw;
    if post > |data| {
      return Bad(UnexpectedEOF);
    }
    assert data[at..][n.len - at..post - at] == data[n.len..post];
    return Lex(LengthField(num, data[n.len..post]), post - start);
  }

  method UnmarshalIdentifier(m0: Identifier, data: Bytes) returns (r: Result<Identifier, WireError>)
    ensures r == DecodeIdentifier(m0, data)
  {
    hide NextToken, StoreIdentifier;
    var m, i := m0, 0;
    while i < |data|
      invariant 0 <= i <= |data|
      invariant DecodeIdentifier(m0, data) == DecodeIdentifier(m, data[i..])
      decreases |data| - i
    {
      var lexed := NextField(IdentifierMsg, data, i);
      if lexed.Bad? {
        return Err(lexed.error);
      }
      DropDrop(data, i, lexed.len);
      m, i := StoreIdentifier(m, lexed.token), i + lexed.len;
    }
    return Ok(m);
  }

  method UnmarshalColumn(c0: Column, data: Bytes) returns (r: Result<Column, WireError>)
    ensures r == DecodeColumn(c0, data)
  {
    hide NextToken, StoreColumn;
    var c, i := c0, 0;
    while i < |data|
      invariant 0 <= i <= |data|
      invariant DecodeColumn(c0, data) == DecodeColumn(c, data[i..])
      decreases |data| - i
    {
      var lexed := NextField(ColumnMsg, data, i);
      if lexed.Bad? {
        return Err(lexed.error);
      }
      var stored := StoreColumn(c, lexed.token);
      if stored.Err? {
        return stored;
      }
      DropDrop(data, i, lexed.len);
      c, i := stored.value, i + lexed.len;
    }
    return Ok(c);
  }

  method UnmarshalParameter(m0: Parameter, data: Bytes) returns (r: Result<Parameter, WireError>)
    ensures r == DecodeParameter(m0, data)
  {
    hide NextToken, StoreParameter;
    var m, i := m0, 0;
    while i < |data|
      invariant 0 <= i <= |data|
      invariant DecodeParameter(m0, data) == DecodeParameter(m, data[i..])
      decreases |data| - i
    {
      var lexed := NextField(ParameterMsg, data, i);
      if lexed.Bad? {
        return Err(lexed.error);
      }
      var stored := StoreParameter(m, lexed.token);
      if stored.Err? {
        return stored;
      }
      DropDrop(data, i, lexed.len);
      m, i := stored.value, i + lexed.len;
    }
    return Ok(m);
  }

  method UnmarshalAnalysis(m0: Analysis, data: Bytes) returns (r: Result<Analysis, WireError>)
    ensures r == DecodeAnalysis(m0, data)
  {
    hide NextToken, StoreAnalysis;
    var m, i := m0, 0;
    while i < |data|
      invariant 0 <= i <= |data|
      invariant DecodeAnalysis(m0, data) == DecodeAnalysis(m, data[i..])
      decreases |data| - i
    {
      var lexed := NextField(AnalysisMsg, data, i);
      if lexed.Bad? {
        return Err(lexed.error);
      }
      var stored := StoreAnalysis(m, lexed.token);
      if stored.Err? {
        return stored;
      }
      DropDrop(data, i, lexed.len);
      m, i := stored.value, i + lexed.len;
    }
    return Ok(m);
  }

  /** UnmarshalVT(MarshalVT(m)) succeeds with a message EqualVT to m. */
  method MarshalThenUnmarshal(m: Analysis) returns (r: Result<Analysis, WireError>, equal: bool)
    requires FitsAnalysis(m) && |AnalysisBytes(m)| < TWO_63
    ensures r == Ok(Filled(m)) && equal
  {
    hide DecodeAnalysis, AnalysisBytes, FitsAnalysis;
    AnalysisRoundTrip(m);
    var data := MarshalAnalysis(m);
    r := UnmarshalAnalysis(NoAnalysis, data);
    equal := EqualAnalysis(m, r.value);
  }
}
