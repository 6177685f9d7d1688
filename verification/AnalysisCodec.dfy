/** The messages of internal/analysis and their wire form: what SizeVT counts, what
    MarshalToSizedBufferVT writes and what UnmarshalVT makes of a buffer. */
module AnalysisCodec {
  import opened Common
  import opened Varint
  import opened Wire

  datatype Identifier = Identifier(catalog: Bytes, schema: Bytes, name: Bytes, unknown: Bytes)

  datatype Column = Column(
    name: Bytes,
    originalName: Bytes,
    dataType: Bytes,
    notNull: bool,
    unsigned: bool,
    isArray: bool,
    arrayDims: int32,
    comment: Bytes,
    length: int32,
    isNamedParam: bool,
    isFuncCall: bool,
    scope: Bytes,
    table: Option<Identifier>,
    tableAlias: Bytes,
    typ: Option<Identifier>,
    embedTable: Option<Identifier>,
    isSqlcSlice: bool,
    unknown: Bytes)

  datatype Parameter = Parameter(number: int32, column: Option<Column>, unknown: Bytes)

  /** A repeated field holds pointers, so an element may be nil. */
  datatype Analysis = Analysis(columns: seq<Option<Column>>, params: seq<Option<Parameter>>, unknown: Bytes)

  const NoIdentifier := Identifier([], [], [], [])
  const NoColumn := Column([], [], [], false, false, false, 0, [], 0, false, false, [], None, [], None, None, false, [])
  const NoParameter := Parameter(0, None, [])
  const NoAnalysis := Analysis([], [], [])

  // ----- the bytes of each message -----

  /** The value a column holds under a field number, in the shape its encoding has. */
  datatype FieldValue = Text(bytes: Bytes) | Flag(on: bool) | Number(n: int32) | Nested(id: Option<Identifier>)

  function Get(c: Column, k: nat): FieldValue
    requires 1 <= k <= 17
  {
    match k
    case 1 => Text(c.name)
    case 2 => Text(c.originalName)
    case 3 => Text(c.dataType)
    case 4 => Flag(c.notNull)
    case 5 => Flag(c.unsigned)
    case 6 => Flag(c.isArray)
    case 7 => Number(c.arrayDims)
    case 8 => Text(c.comment)
    case 9 => Number(c.length)
    case 10 => Flag(c.isNamedParam)
    case 11 => Flag(c.isFuncCall)
    case 12 => Text(c.scope)
    case 13 => Nested(c.table)
    case 14 => Text(c.tableAlias)
    case 15 => Nested(c.typ)
    case 16 => Nested(c.embedTable)
    case 17 => Flag(c.isSqlcSlice)
  }

  function IdentifierBytes(m: Identifier): Bytes {
    StringField(1, m.catalog) + (StringField(2, m.schema) + (StringField(3, m.name) + m.unknown))
  }

  function ValueBytes(num: nat, v: FieldValue): Bytes {
    match v
    case Text(s) => StringField(num, s)
    case Flag(b) => BoolField(num, b)
    case Number(n) => IntField(num, n)
    case Nested(None) => []
    case Nested(Some(id)) => Delimited(num, IdentifierBytes(id))
  }

  /** Fields k..17 of a column and its unknown fields, in the order they lie in the buffer. */
  function FieldsFrom(c: Column, k: nat): Bytes
    requires 1 <= k <= 18
    decreases 18 - k
  {
    if k == 18 then c.unknown else ValueBytes(k, Get(c, k)) + FieldsFrom(c, k + 1)
  }

  function ColumnBytes(c: Column): Bytes { FieldsFrom(c, 1) }

  function ParameterBytes(m: Parameter): Bytes {
    IntField(1, m.number)
    + ((if m.column.Some? then Delimited(2, ColumnBytes(m.column.value)) else []) + m.unknown)
  }

  /** A nil element is written as an empty message. */
  function ElementColumn(e: Option<Column>): Column { if e.Some? then e.value else NoColumn }
  function ElementParameter(e: Option<Parameter>): Parameter { if e.Some? then e.value else NoParameter }

  function ColumnsBytes(es: seq<Option<Column>>, tail: Bytes): Bytes {
    if es == [] then tail
    else Delimited(1, ColumnBytes(ElementColumn(es[0]))) + ColumnsBytes(es[1..], tail)
  }

  function ParamsBytes(es: seq<Option<Parameter>>, tail: Bytes): Bytes {
    if es == [] then tail
    else Delimited(2, ParameterBytes(ElementParameter(es[0]))) + ParamsBytes(es[1..], tail)
  }

  function AnalysisBytes(m: Analysis): Bytes {
    ColumnsBytes(m.columns, ParamsBytes(m.params, m.unknown))
  }

  // ----- decoding -----

  function StoreIdentifier(m: Identifier, tok: Token): Identifier {
    match tok
    case LengthField(num, s) =>
      if num == 1 then m.(catalog := s) else if num == 2 then m.(schema := s) else m.(name := s)
    case UnknownField(raw) => m.(unknown := m.unknown + raw)
    case VarintField(_, _) => m
  }

  function DecodeIdentifier(m: Identifier, s: Bytes): Result<Identifier, WireError>
    decreases |s|
  {
    if s == [] then Ok(m)
    else
      match NextToken(IdentifierMsg, s)
      case Bad(e) => Err(e)
      case Lex(tok, n) => DecodeIdentifier(StoreIdentifier(m, tok), s[n..])
  }

  function SetText(c: Column, num: int, s: Bytes): Column {
    match num
    case 1 => c.(name := s)
    case 2 => c.(originalName := s)
    case 3 => c.(dataType := s)
    case 8 => c.(comment := s)
    case 12 => c.(scope := s)
    case 14 => c.(tableAlias := s)
    case _ => c
  }

  /** A bool is any non-zero value; an int32 keeps the low 32 bits. */
  function SetVarint(c: Column, num: int, v: uint64): Column {
    match num
    case 4 => c.(notNull := v != 0)
    case 5 => c.(unsigned := v != 0)
    case 6 => c.(isArray := v != 0)
    case 7 => c.(arrayDims := Wrap32(v))
    case 9 => c.(length := Wrap32(v))
    case 10 => c.(isNamedParam := v != 0)
    case 11 => c.(isFuncCall := v != 0)
    case 17 => c.(isSqlcSlice := v != 0)
    case _ => c
  }

  function SetNested(c: Column, num: int, id: Identifier): Column {
    match num
    case 13 => c.(table := Some(id))
    case 15 => c.(typ := Some(id))
    case 16 => c.(embedTable := Some(id))
    case _ => c
  }

  predicate IsNested(num: int) { num in {13, 15, 16} }

  /** The identifier a nested field already holds, or an empty one: a second occurrence is merged in. */
  function NestedSoFar(c: Column, num: int): Identifier {
    var held := match num case 13 => c.table case 15 => c.typ case _ => c.embedTable;
    if held.Some? then held.value else NoIdentifier
  }

  function StoreColumn(c: Column, tok: Token): Result<Column, WireError> {
    match tok
    case VarintField(num, v) => Ok(SetVarint(c, num, v))
    case UnknownField(raw) => Ok(c.(unknown := c.unknown + raw))
    case LengthField(num, s) =>
      if IsNested(num) then
        match DecodeIdentifier(NestedSoFar(c, num), s)
        case Err(e) => Err(e)
        case Ok(id) => Ok(SetNested(c, num, id))
      else Ok(SetText(c, num, s))
  }

  function DecodeColumn(c: Column, s: Bytes): Result<Column, WireError>
    decreases |s|
  {
    if s == [] then Ok(c)
    else
      match NextToken(ColumnMsg, s)
      case Bad(e) => Err(e)
      case Lex(tok, n) =>
        match StoreColumn(c, tok)
        case Err(e) => Err(e)
        case Ok(c') => DecodeColumn(c', s[n..])
  }

  function StoreParameter(m: Parameter, tok: Token): Result<Parameter, WireError> {
    match tok
    case VarintField(num, v) => Ok(m.(number := Wrap32(v)))
    case UnknownField(raw) => Ok(m.(unknown := m.unknown + raw))
    case LengthField(num, s) =>
      match DecodeColumn(ElementColumn(m.column), s)
      case Err(e) => Err(e)
      case Ok(c) => Ok(m.(column := Some(c)))
  }

  function DecodeParameter(m: Parameter, s: Bytes): Result<Parameter, WireError>
    decreases |s|
  {
    if s == [] then Ok(m)
    else
      match NextToken(ParameterMsg, s)
      case Bad(e) => Err(e)
      case Lex(tok, n) =>
        match StoreParameter(m, tok)
        case Err(e) => Err(e)
        case Ok(m') => DecodeParameter(m', s[n..])
  }

  function StoreAnalysis(m: Analysis, tok: Token): Result<Analysis, WireError> {
    match tok
    case VarintField(_, _) => Ok(m)
    case UnknownField(raw) => Ok(m.(unknown := m.unknown + raw))
    case LengthField(num, s) =>
      if num == 1 then
        match DecodeColumn(NoColumn, s)
        case Err(e) => Err(e)
        case Ok(c) => Ok(m.(columns := m.columns + [Some(c)]))
      else
        match DecodeParameter(NoParameter, s)
        case Err(e) => Err(e)
        case Ok(p) => Ok(m.(params := m.params + [Some(p)]))
  }

  function DecodeAnalysis(m: Analysis, s: Bytes): Result<Analysis, WireError>
    decreases |s|
  {
    if s == [] then Ok(m)
    else
      match NextToken(AnalysisMsg, s)
      case Bad(e) => Err(e)
      case Lex(tok, n) =>
        match StoreAnalysis(m, tok)
        case Err(e) => Err(e)
        case Ok(m') => DecodeAnalysis(m', s[n..])
  }

  // ----- decoding a concatenation is decoding one part after the other -----

  lemma {:induction false} IdentifierConcat(m: Identifier, a: Bytes, b: Bytes)
    requires DecodeIdentifier(m, a).Ok?
    ensures DecodeIdentifier(m, a + b) == DecodeIdentifier(DecodeIdentifier(m, a).value, b)
    decreases |a|
  {
    hide NextToken, StoreIdentifier;
    if a == [] {
      assert a + b == b;
    } else {
      var lexed := NextToken(IdentifierMsg, a);
      NextTokenLocal(IdentifierMsg, a, b);
      DropAppend(a, b, lexed.len);
      IdentifierConcat(StoreIdentifier(m, lexed.token), a[lexed.len..], b);
    }
  }

  lemma {:induction false} ColumnConcat(c: Column, a: Bytes, b: Bytes)
    requires DecodeColumn(c, a).Ok?
    ensures DecodeColumn(c, a + b) == DecodeColumn(DecodeColumn(c, a).value, b)
    decreases |a|
  {
    hide NextToken, StoreColumn;
    if a == [] {
      assert a + b == b;
    } else {
      var lexed := NextToken(ColumnMsg, a);
      NextTokenLocal(ColumnMsg, a, b);
      DropAppend(a, b, lexed.len);
      ColumnConcat(StoreColumn(c, lexed.token).value, a[lexed.len..], b);
    }
  }

  lemma {:induction false} ParameterConcat(m: Parameter, a: Bytes, b: Bytes)
    requires DecodeParameter(m, a).Ok?
    ensures DecodeParameter(m, a + b) == DecodeParameter(DecodeParameter(m, a).value, b)
    decreases |a|
  {
    hide NextToken, StoreParameter;
    if a == [] {
      assert a + b == b;
    } else {
      var lexed := NextToken(ParameterMsg, a);
      NextTokenLocal(ParameterMsg, a, b);
      DropAppend(a, b, lexed.len);
      ParameterConcat(StoreParameter(m, lexed.token).value, a[lexed.len..], b);
    }
  }

  /** Concatenated buffers merge: unknown fields, skipped groups and nested messages included. */
  lemma {:induction false} AnalysisConcat(m: Analysis, a: Bytes, b: Bytes)
    requires DecodeAnalysis(m, a).Ok?
    ensures DecodeAnalysis(m, a + b) == DecodeAnalysis(DecodeAnalysis(m, a).value, b)
    decreases |a|
  {
    hide NextToken, StoreAnalysis;
    if a == [] {
      assert a + b == b;
    } else {
      var lexed := NextToken(AnalysisMsg, a);
      NextTokenLocal(AnalysisMsg, a, b);
      DropAppend(a, b, lexed.len);
      AnalysisConcat(StoreAnalysis(m, lexed.token).value, a[lexed.len..], b);
    }
  }

  // ----- round trip -----

  predicate FitsIdentifier(m: Identifier) { |IdentifierBytes(m)| < TWO_63 && m.unknown == [] }

  predicate FitsNested(id: Option<Identifier>) { id.Some? ==> FitsIdentifier(id.value) }

  /** No unknown fields anywhere, and an encoding whose length an int holds. */
  predicate FitsColumn(c: Column) {
    && |ColumnBytes(c)| < TWO_63 && c.unknown == []
    && FitsNested(c.table) && FitsNested(c.typ) && FitsNested(c.embedTable)
  }

  predicate FitsParameter(m: Parameter) {
    |ParameterBytes(m)| < TWO_63 && m.unknown == [] && (m.column.Some? ==> FitsColumn(m.column.value))
  }

  predicate FitsAnalysis(m: Analysis) {
    && m.unknown == []
    && (forall e :: e in m.columns ==> FitsColumn(ElementColumn(e)))
    && (forall e :: e in m.params ==> FitsParameter(ElementParameter(e)))
  }

  lemma {:induction false} IdentifierField(m: Identifier, num: nat, v: Bytes, t: Bytes)
    requires 1 <= num <= 3 && |v| < TWO_63
    requires v == [] ==> StoreIdentifier(m, LengthField(num, v)) == m
    ensures DecodeIdentifier(m, StringField(num, v) + t) == DecodeIdentifier(StoreIdentifier(m, LengthField(num, v)), t)
  {
    hide NextToken, StoreIdentifier, Delimited;
    if v == [] {
      assert StringField(num, v) + t == t;
    } else {
      LexDelimited(IdentifierMsg, num, v, t);
      DropPrefix(Delimited(num, v), t);
    }
  }

  lemma {:induction false} IdentifierRoundTrip(m: Identifier)
    requires FitsIdentifier(m)
    ensures DecodeIdentifier(NoIdentifier, IdentifierBytes(m)) == Ok(m)
  {
    hide DecodeIdentifier, StringField;
    StringFieldLength(1, m.catalog);
    StringFieldLength(2, m.schema);
    StringFieldLength(3, m.name);
    var m1 := NoIdentifier.(catalog := m.catalog);
    var m2 := m1.(schema := m.schema);
    IdentifierField(NoIdentifier, 1, m.catalog, StringField(2, m.schema) + (StringField(3, m.name) + m.unknown));
    IdentifierField(m1, 2, m.schema, StringField(3, m.name) + m.unknown);
    IdentifierField(m2, 3, m.name, m.unknown);
    DecodeNothing(m);
  }

  lemma {:induction false} DecodeNothing(m: Identifier)
    ensures DecodeIdentifier(m, []) == Ok(m)
  {
  }

  lemma {:induction false} StringFieldLength(num: nat, v: Bytes)
    ensures |v| <= |StringField(num, v)|
  {
  }

  /** The column whose fields 1..k are those of `c` and whose other fields are unset. */
  function Upto(c: Column, k: nat): Column
  {
    Column(
      if k >= 1 then c.name else [],
      if k >= 2 then c.originalName else [],
      if k >= 3 then c.dataType else [],
      k >= 4 && c.notNull,
      k >= 5 && c.unsigned,
      k >= 6 && c.isArray,
      if k >= 7 then c.arrayDims else 0,
      if k >= 8 then c.comment else [],
      if k >= 9 then c.length else 0,
      k >= 10 && c.isNamedParam,
      k >= 11 && c.isFuncCall,
      if k >= 12 then c.scope else [],
      if k >= 13 then c.table else None,
      if k >= 14 then c.tableAlias else [],
      if k >= 15 then c.typ else None,
      if k >= 16 then c.embedTable else None,
      k >= 17 && c.isSqlcSlice,
      [])
  }

  lemma {:induction false} StoredText(c: Column, k: nat, s: Bytes)
    requires 1 <= k <= 17 && Get(c, k) == Text(s)
    ensures StoreColumn(Upto(c, k - 1), LengthField(k, s)) == Ok(Upto(c, k))
  {
  }

  lemma {:induction false} StoredFlag(c: Column, k: nat)
    requires 1 <= k <= 17 && Get(c, k) == Flag(true)
    ensures StoreColumn(Upto(c, k - 1), VarintField(k, 1)) == Ok(Upto(c, k))
  {
  }

  lemma {:induction false} StoredNumber(c: Column, k: nat, n: int32)
    requires 1 <= k <= 17 && Get(c, k) == Number(n)
    ensures StoreColumn(Upto(c, k - 1), VarintField(k, SignExtend(n))) == Ok(Upto(c, k))
  {
  }

  lemma {:induction false} StoredNested(c: Column, k: nat, id: Identifier)
    requires 1 <= k <= 17 && Get(c, k) == Nested(Some(id)) && FitsIdentifier(id)
    ensures StoreColumn(Upto(c, k - 1), LengthField(k, IdentifierBytes(id))) == Ok(Upto(c, k))
  {
    hide DecodeIdentifier, IdentifierBytes, SetText, SetVarint;
    IdentifierRoundTrip(id);
    NestedPlace(c, k, id);
  }

  lemma {:induction false} NestedPlace(c: Column, k: nat, id: Identifier)
    requires 1 <= k <= 17 && Get(c, k) == Nested(Some(id))
    ensures IsNested(k) && NestedSoFar(Upto(c, k - 1), k) == NoIdentifier
    ensures SetNested(Upto(c, k - 1), k, id) == Upto(c, k)
  {
  }

  /** A field left out of the encoding holds the value it would have been given. */
  lemma {:induction false} NothingStored(c: Column, k: nat)
    requires 1 <= k <= 17 && ValueBytes(k, Get(c, k)) == []
    ensures Upto(c, k - 1) == Upto(c, k)
  {
    hide Tag, Encode;
  }

  lemma {:induction false} DecodeStored(c: Column, c': Column, field: Bytes, tok: Token, t: Bytes)
    requires |field| > 0 && NextToken(ColumnMsg, field + t) == Lex(tok, |field|) && StoreColumn(c, tok) == Ok(c')
    ensures DecodeColumn(c, field + t) == DecodeColumn(c', t)
  {
    hide NextToken, StoreColumn;
    DropPrefix(field, t);
  }

  lemma {:induction false} KindMatches(c: Column, k: nat)
    requires 1 <= k <= 17
    ensures KindOf(ColumnMsg, k) == if Get(c, k).Flag? || Get(c, k).Number? then VarintKind else LengthKind
  {
  }

  lemma {:induction false} EncodeOne()
    ensures Encode(1) == [1]
  {
  }

  /** Decoding the bytes of field k moves from the first k-1 fields to the first k. */
  lemma {:induction false} ColumnField(c: Column, k: nat, t: Bytes)
    requires 1 <= k <= 17 && |ValueBytes(k, Get(c, k))| < TWO_63
    requires Get(c, k).Nested? ==> FitsNested(Get(c, k).id)
    ensures DecodeColumn(Upto(c, k - 1), ValueBytes(k, Get(c, k)) + t) == DecodeColumn(Upto(c, k), t)
  {
    hide Get, Upto, DecodeColumn, StoreColumn, NextToken, Tag, Encode, KindOf, IdentifierBytes;
    var field := ValueBytes(k, Get(c, k));
    KindMatches(c, k);
    if field == [] {
      NothingStored(c, k);
      assert field + t == t;
    } else {
      match Get(c, k)
      case Text(s) =>
        LexDelimited(ColumnMsg, k, s, t);
        StoredText(c, k, s);
        DecodeStored(Upto(c, k - 1), Upto(c, k), field, LengthField(k, s), t);
      case Flag(b) =>
        EncodeOne();
        LexScalar(ColumnMsg, k, 1, t);
        StoredFlag(c, k);
        DecodeStored(Upto(c, k - 1), Upto(c, k), field, VarintField(k, 1), t);
      case Number(n) =>
        LexScalar(ColumnMsg, k, SignExtend(n), t);
        StoredNumber(c, k, n);
        DecodeStored(Upto(c, k - 1), Upto(c, k), field, VarintField(k, SignExtend(n)), t);
      case Nested(id) =>
        LexDelimited(ColumnMsg, k, IdentifierBytes(id.value), t);
        StoredNested(c, k, id.value);
        DecodeStored(Upto(c, k - 1), Upto(c, k), field, LengthField(k, IdentifierBytes(id.value)), t);
    }
  }

  lemma {:induction false} ColumnTail(c: Column, k: nat)
    requires 1 <= k <= 18 && FitsColumn(c) && |FieldsFrom(c, k)| < TWO_63
    ensures DecodeColumn(Upto(c, k - 1), FieldsFrom(c, k)) == Ok(c)
    decreases 18 - k
  {
    hide DecodeColumn, ValueBytes, Get, ColumnBytes, IdentifierBytes;
    if k == 18 {
      ColumnDone(c);
    } else {
      NestedFits(c, k);
      ColumnField(c, k, FieldsFrom(c, k + 1));
      ColumnTail(c, k + 1);
    }
  }

  lemma {:induction false} ColumnDone(c: Column)
    requires c.unknown == []
    ensures Upto(c, 17) == c && DecodeColumn(c, []) == Ok(c)
  {
  }

  lemma {:induction false} NestedFits(c: Column, k: nat)
    requires 1 <= k <= 17 && FitsColumn(c)
    ensures Get(c, k).Nested? ==> FitsNested(Get(c, k).id)
  {
    hide ColumnBytes, IdentifierBytes;
  }

  /** Negative integers, sent as ten-byte varints, included. */
  lemma {:induction false} ColumnRoundTrip(c: Column)
    requires FitsColumn(c)
    ensures DecodeColumn(NoColumn, ColumnBytes(c)) == Ok(c)
  {
    hide DecodeColumn, FieldsFrom;
    ColumnTail(c, 1);
  }

  lemma {:induction false} DecodedParameter(m: Parameter, m': Parameter, field: Bytes, tok: Token, t: Bytes)
    requires |field| > 0 && NextToken(ParameterMsg, field + t) == Lex(tok, |field|) && StoreParameter(m, tok) == Ok(m')
    ensures DecodeParameter(m, field + t) == DecodeParameter(m', t)
  {
    hide NextToken, StoreParameter;
    DropPrefix(field, t);
  }

  lemma {:induction false} ParameterNumber(m: Parameter, t: Bytes)
    ensures DecodeParameter(NoParameter, IntField(1, m.number) + t) == DecodeParameter(NoParameter.(number := m.number), t)
  {
    hide DecodeParameter, NextToken, Encode, Tag;
    if m.number == 0 {
      assert IntField(1, m.number) + t == t;
    } else {
      LexScalar(ParameterMsg, 1, SignExtend(m.number), t);
      DecodedParameter(NoParameter, NoParameter.(number := m.number), IntField(1, m.number),
                       VarintField(1, SignExtend(m.number)), t);
    }
  }

  lemma {:induction false} ParameterColumn(n: int32, c: Column, t: Bytes)
    requires FitsColumn(c)
    ensures var m := NoParameter.(number := n);
            DecodeParameter(m, Delimited(2, ColumnBytes(c)) + t) == DecodeParameter(m.(column := Some(c)), t)
  {
    hide DecodeParameter, NextToken, ColumnBytes, DecodeColumn, Delimited;
    var m := NoParameter.(number := n);
    ColumnRoundTrip(c);
    LexDelimited(ParameterMsg, 2, ColumnBytes(c), t);
    DelimitedLength(2, ColumnBytes(c));
    DecodedParameter(m, m.(column := Some(c)), Delimited(2, ColumnBytes(c)), LengthField(2, ColumnBytes(c)), t);
  }

  lemma {:induction false} DelimitedLength(num: nat, payload: Bytes)
    ensures |Delimited(num, payload)| > |payload|
  {
  }

  lemma {:induction false} ParameterRoundTrip(m: Parameter)
    requires FitsParameter(m)
    ensures DecodeParameter(NoParameter, ParameterBytes(m)) == Ok(m)
  {
    hide IntField, Delimited, ColumnBytes;
    var rest := (if m.column.Some? then Delimited(2, ColumnBytes(m.column.value)) else []) + m.unknown;
    ParameterNumber(m, rest);
    if m.column.Some? {
      ParameterColumn(m.number, m.column.value, m.unknown);
    }
  }

  lemma {:induction false} DecodedAnalysis(m: Analysis, m': Analysis, field: Bytes, tok: Token, t: Bytes)
    requires |field| > 0 && NextToken(AnalysisMsg, field + t) == Lex(tok, |field|) && StoreAnalysis(m, tok) == Ok(m')
    ensures DecodeAnalysis(m, field + t) == DecodeAnalysis(m', t)
  {
    hide NextToken, StoreAnalysis;
    DropPrefix(field, t);
  }

  /** What a nil element comes back as: an empty message. */
  function Filled(m: Analysis): Analysis {
    Analysis(
      seq(|m.columns|, i requires 0 <= i < |m.columns| => Some(ElementColumn(m.columns[i]))),
      seq(|m.params|, i requires 0 <= i < |m.params| => Some(ElementParameter(m.params[i]))),
      m.unknown)
  }

  lemma {:induction false} OneColumn(m: Analysis, c: Column, t: Bytes)
    requires FitsColumn(c)
    ensures DecodeAnalysis(m, Delimited(1, ColumnBytes(c)) + t)
            == DecodeAnalysis(m.(columns := m.columns + [Some(c)]), t)
  {
    hide DecodeAnalysis, NextToken, ColumnBytes, DecodeColumn, Delimited;
    ColumnRoundTrip(c);
    LexDelimited(AnalysisMsg, 1, ColumnBytes(c), t);
    DelimitedLength(1, ColumnBytes(c));
    DecodedAnalysis(m, m.(columns := m.columns + [Some(c)]), Delimited(1, ColumnBytes(c)),
                    LengthField(1, ColumnBytes(c)), t);
  }

  lemma {:induction false} OneParameter(m: Analysis, p: Parameter, t: Bytes)
    requires FitsParameter(p)
    ensures DecodeAnalysis(m, Delimited(2, ParameterBytes(p)) + t)
            == DecodeAnalysis(m.(params := m.params + [Some(p)]), t)
  {
    hide DecodeAnalysis, NextToken, ParameterBytes, DecodeParameter, Delimited;
    ParameterRoundTrip(p);
    LexDelimited(AnalysisMsg, 2, ParameterBytes(p), t);
    DelimitedLength(2, ParameterBytes(p));
    DecodedAnalysis(m, m.(params := m.params + [Some(p)]), Delimited(2, ParameterBytes(p)),
                    LengthField(2, ParameterBytes(p)), t);
  }

  lemma {:induction false} AnalysisColumns(m: Analysis, k: nat, tail: Bytes)
    requires FitsAnalysis(m) && k <= |m.columns|
    ensures DecodeAnalysis(Analysis(Filled(m).columns[..k], [], []), ColumnsBytes(m.columns[k..], tail))
            == DecodeAnalysis(Analysis(Filled(m).columns, [], []), tail)
    decreases |m.columns| - k
  {
    hide DecodeAnalysis, ColumnBytes, FitsColumn, FitsParameter, Delimited;
    var done := Filled(m).columns;
    if k == |m.columns| {
      assert done[..k] == done;
    } else {
      assert m.columns[k] in m.columns;
      var rest := m.columns[k..];
      assert rest[1..] == m.columns[k + 1..];
      assert done[..k] + [done[k]] == done[..k + 1];
      OneColumn(Analysis(done[..k], [], []), ElementColumn(m.columns[k]), ColumnsBytes(rest[1..], tail));
      AnalysisColumns(m, k + 1, tail);
    }
  }

  lemma {:induction false} AnalysisParams(m: Analysis, k: nat)
    requires FitsAnalysis(m) && k <= |m.params|
    ensures DecodeAnalysis(Analysis(Filled(m).columns, Filled(m).params[..k], []), ParamsBytes(m.params[k..], []))
            == Ok(Filled(m))
    decreases |m.params| - k
  {
    hide ParameterBytes, FitsColumn, FitsParameter, Delimited, NextToken, StoreAnalysis;
    var cols, done := Filled(m).columns, Filled(m).params;
    if k == |m.params| {
      assert done[..k] == done;
    } else {
      hide DecodeAnalysis;
      assert m.params[k] in m.params;
      var rest := m.params[k..];
      assert rest[1..] == m.params[k + 1..];
      assert done[..k] + [done[k]] == done[..k + 1];
      OneParameter(Analysis(cols, done[..k], []), ElementParameter(m.params[k]), ParamsBytes(rest[1..], []));
      AnalysisParams(m, k + 1);
    }
  }

  // ----- EqualVT -----

  predicate EqualIdentifier(a: Identifier, b: Identifier) {
    a.catalog == b.catalog && a.schema == b.schema && a.name == b.name && a.unknown == b.unknown
  }

  predicate EqualNested(a: Option<Identifier>, b: Option<Identifier>) {
    a.Some? == b.Some? && (a.Some? ==> EqualIdentifier(a.value, b.value))
  }

  predicate EqualColumn(a: Column, b: Column) {
    && a.name == b.name && a.originalName == b.originalName && a.dataType == b.dataType
    && a.notNull == b.notNull && a.unsigned == b.unsigned && a.isArray == b.isArray
    && a.arrayDims == b.arrayDims && a.comment == b.comment && a.length == b.length
    && a.isNamedParam == b.isNamedParam && a.isFuncCall == b.isFuncCall && a.scope == b.scope
    && EqualNested(a.table, b.table) && a.tableAlias == b.tableAlias && EqualNested(a.typ, b.typ)
    && EqualNested(a.embedTable, b.embedTable) && a.isSqlcSlice == b.isSqlcSlice
    && a.unknown == b.unknown
  }

  predicate EqualParameter(a: Parameter, b: Parameter) {
    && a.number == b.number
    && a.column.Some? == b.column.Some? && (a.column.Some? ==> EqualColumn(a.column.value, b.column.value))
    && a.unknown == b.unknown
  }

  /** Analysis.EqualVT: element by element, a nil element standing for an empty message. */
  method EqualAnalysis(a: Analysis, b: Analysis) returns (r: bool)
    ensures r <==> Filled(a) == Filled(b)
  {
    hide EqualColumn, EqualParameter;
    if |a.columns| != |b.columns| {
      return false;
    }
    for i := 0 to |a.columns|
      invariant forall j :: 0 <= j < i ==> ElementColumn(a.columns[j]) == ElementColumn(b.columns[j])
    {
      EqualColumnMeaning(ElementColumn(a.columns[i]), ElementColumn(b.columns[i]));
      if !EqualColumn(ElementColumn(a.columns[i]), ElementColumn(b.columns[i])) {
        assert Filled(a).columns[i] != Filled(b).columns[i];
        return false;
      }
    }
    if |a.params| != |b.params| {
      return false;
    }
    for i := 0 to |a.params|
      invariant forall j :: 0 <= j < i ==> ElementParameter(a.params[j]) == ElementParameter(b.params[j])
    {
      EqualParameterMeaning(ElementParameter(a.params[i]), ElementParameter(b.params[i]));
      if !EqualParameter(ElementParameter(a.params[i]), ElementParameter(b.params[i])) {
        assert Filled(a).params[i] != Filled(b).params[i];
        return false;
      }
    }
    assert Filled(a).columns == Filled(b).columns && Filled(a).params == Filled(b).params;
    return a.unknown == b.unknown;
  }

  lemma {:induction false} EqualColumnMeaning(a: Column, b: Column)
    ensures EqualColumn(a, b) <==> a == b
  {
  }

  lemma {:induction false} EqualParameterMeaning(a: Parameter, b: Parameter)
    ensures EqualParameter(a, b) <==> a == b
  {
    hide EqualColumn;
    if a.column.Some? && b.column.Some? {
      EqualColumnMeaning(a.column.value, b.column.value);
    }
  }

  /** Decoding what was encoded gives a message equal to the original, nil elements read as empty. */
  lemma {:induction false} AnalysisRoundTrip(m: Analysis)
    requires FitsAnalysis(m)
    ensures DecodeAnalysis(NoAnalysis, AnalysisBytes(m)) == Ok(Filled(m))
    ensures Filled(Filled(m)) == Filled(m)
  {
    hide DecodeAnalysis, ColumnsBytes, ParamsBytes, FitsColumn, FitsParameter;
    AnalysisColumns(m, 0, ParamsBytes(m.params, m.unknown));
    AnalysisParams(m, 0);
    assert m.columns[0..] == m.columns && m.params[0..] == m.params;
    assert Filled(m).columns[..0] == [] && Filled(m).params[..0] == [];
    assert Filled(Filled(m)).columns == Filled(m).columns && Filled(Filled(m)).params == Filled(m).params;
  }
}
