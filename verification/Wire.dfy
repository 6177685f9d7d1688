/** The field level of the protobuf wire format as internal/analysis/analysis_vtproto.pb.go reads and
    writes it: tags, the four field encodings it uses, and `skip` over fields it does not know. */
module Wire {
  import opened Common
  import opened Varint

  datatype MessageType = IdentifierMsg | ColumnMsg | ParameterMsg | AnalysisMsg

  /** How the decoder of a message treats a field number. */
  datatype Kind = VarintKind | LengthKind | UnknownKind

  datatype Token =
    | VarintField(num: int32, v: uint64)
    | LengthField(num: int32, payload: Bytes)
    | UnknownField(bytes: Bytes)

  datatype Lexed = Lex(token: Token, len: nat) | Bad(error: WireError)

  /** The switch labels of the four UnmarshalVT methods with the wire type each one demands. */
  function KindOf(mt: MessageType, num: int): Kind {
    match mt
    case IdentifierMsg => if 1 <= num <= 3 then LengthKind else UnknownKind
    case ColumnMsg =>
      if num in {1, 2, 3, 8, 12, 13, 14, 15, 16} then LengthKind
      else if num in {4, 5, 6, 7, 9, 10, 11, 17} then VarintKind
      else UnknownKind
    case ParameterMsg => if num == 1 then VarintKind else if num == 2 then LengthKind else UnknownKind
    case AnalysisMsg => if 1 <= num <= 2 then LengthKind else UnknownKind
  }

  // ----- skip -----

  datatype SkipStep = Advance(n: nat, depth: nat) | Stuck(error: WireError)
  datatype Skipped = Past(end: nat) | NotSkipped(error: WireError)

  /** One turn of the loop of `skip`: a tag and, for a scalar or delimited field, its payload. The
      advance is not checked against the end of the buffer. */
  function SkipOne(s: Bytes, depth: nat): (r: SkipStep)
    ensures r.Advance? ==> r.n > 0
  {
    var tag := Read(s);
    if tag.Failed? then Stuck(tag.error)
    else
      match tag.raw % 8
      case 0 =>
        var v := Read(s[tag.len..]);
        if v.Failed? then Stuck(v.error) else Advance(tag.len + v.len, depth)
      case 1 => Advance(tag.len + 8, depth)
      case 2 =>
        var v := Read(s[tag.len..]);
        if v.Failed? then Stuck(v.error)
        else if v.raw % TWO_64 >= TWO_63 then Stuck(InvalidLength)
        else Advance(tag.len + v.len + v.raw % TWO_64, depth)
      case 3 => Advance(tag.len, depth + 1)
      case 4 => if depth == 0 then Stuck(UnexpectedEndOfGroup) else Advance(tag.len, depth - 1)
      case 5 => Advance(tag.len + 4, depth)
      case _ => Stuck(IllegalWireType)
  }

  /** `skip` with its cursor at `at`, `s` being the bytes from there on. */
  function SkipFrom(s: Bytes, depth: nat, at: nat): (r: Skipped)
    ensures r.Past? ==> r.end > at
    decreases |s|
  {
    if |s| == 0 then NotSkipped(UnexpectedEOF)
    else
      match SkipOne(s, depth)
      case Stuck(e) => NotSkipped(e)
      case Advance(n, d) =>
        if at + n >= TWO_63 then NotSkipped(InvalidLength)
        else if d == 0 then Past(at + n)
        else if n > |s| then NotSkipped(UnexpectedEOF)
        else SkipFrom(s[n..], d, at + n)
  }

  lemma {:induction false} SkipOneLocal(s: Bytes, t: Bytes, depth: nat)
    requires SkipOne(s, depth).Advance?
    ensures SkipOne(s + t, depth) == SkipOne(s, depth)
  {
    var tag := Read(s);
    ReadLocal(s, t, 0);
    if tag.raw % 8 in {0, 2} {
      DropAppend(s, t, tag.len);
      ReadLocal(s[tag.len..], t, 0);
    }
  }

  lemma {:induction false} SkipLocal(s: Bytes, t: Bytes, depth: nat, at: nat)
    requires SkipFrom(s, depth, at).Past? && SkipFrom(s, depth, at).end <= at + |s|
    ensures SkipFrom(s + t, depth, at) == SkipFrom(s, depth, at)
    decreases |s|
  {
    hide SkipOne;
    SkipOneLocal(s, t, depth);
    var step := SkipOne(s, depth);
    if step.depth != 0 {
      DropAppend(s, t, step.n);
      SkipLocal(s[step.n..], t, step.depth, at + step.n);
    }
  }

  /** The loop of `skip` itself. */
  method Skip(data: Bytes) returns (r: Skipped)
    ensures r == SkipFrom(data, 0, 0)
  {
    hide SkipOne, SkipFrom;
    var i, depth := 0, 0;
    assert data[0..] == data;
    while i < |data|
      invariant 0 <= i <= |data|
      invariant SkipFrom(data, 0, 0) == SkipFrom(data[i..], depth, i)
      decreases |data| - i
    {
      var step := SkipOne(data[i..], depth);
      SkipFromStep(data, i, depth);
      if step.Stuck? {
        return NotSkipped(step.error);
      }
      if i + step.n >= TWO_63 {
        return NotSkipped(InvalidLength);
      }
      if step.depth == 0 {
        return Past(i + step.n);
      }
      if step.n > |data| - i {
        return NotSkipped(UnexpectedEOF);
      }
      DropDrop(data, i, step.n);
      i, depth := i + step.n, step.depth;
    }
    SkipFromEnd(depth, i);
    return NotSkipped(UnexpectedEOF);
  }

  lemma {:induction false} SkipFromEnd(depth: nat, at: nat)
    ensures SkipFrom([], depth, at) == NotSkipped(UnexpectedEOF)
  {
  }

  lemma {:induction false} SkipFromStep(data: Bytes, i: nat, depth: nat)
    requires i < |data|
    ensures var step := SkipOne(data[i..], depth);
            SkipFrom(data[i..], depth, i) ==
            if step.Stuck? then NotSkipped(step.error)
            else if i + step.n >= TWO_63 then NotSkipped(InvalidLength)
            else if step.depth == 0 then Past(i + step.n)
            else if step.n > |data| - i then NotSkipped(UnexpectedEOF)
            else SkipFrom(data[i..][step.n..], step.depth, i + step.n)
  {
    hide SkipOne;
  }

  // ----- one field -----

  /** `s` starts right after the tag, which took `tagLen` bytes. */
  function LexVarint(num: int32, s: Bytes, tagLen: nat): (r: Lexed)
    ensures r.Lex? ==> tagLen < r.len <= tagLen + |s|
  {
    var v := Read(s);
    if v.Failed? then Bad(v.error) else Lex(VarintField(num, v.raw % TWO_64), tagLen + v.len)
  }

  function LexLength(num: int32, s: Bytes, tagLen: nat): (r: Lexed)
    ensures r.Lex? ==> tagLen < r.len <= tagLen + |s|
  {
    var v := Read(s);
    if v.Failed? then Bad(v.error)
    else
      var n := v.raw % TWO_64;
      if n >= TWO_63 then Bad(InvalidLength)
      else if v.len + n > |s| then Bad(UnexpectedEOF)
      else Lex(LengthField(num, s[v.len..v.len + n]), tagLen + v.len + n)
  }

  function LexUnknown(s: Bytes): (r: Lexed)
    ensures r.Lex? ==> 0 < r.len <= |s|
  {
    match SkipFrom(s, 0, 0)
    case NotSkipped(e) => Bad(e)
    case Past(n) => if n > |s| then Bad(UnexpectedEOF) else Lex(UnknownField(s[..n]), n)
  }

  /** The part of the decode loops before the field is stored: tag, wire type check, payload. */
  function NextToken(mt: MessageType, s: Bytes): (r: Lexed)
    ensures r.Lex? ==> 0 < r.len <= |s|
  {
    var tag := Read(s);
    if tag.Failed? then Bad(tag.error)
    else
      var wire := tag.raw % TWO_64;
      var num := Wrap32(wire / 8);
      if wire % 8 == 4 then Bad(EndGroupForNonGroup)
      else if num <= 0 then Bad(IllegalTag)
      else
        match KindOf(mt, num)
        case VarintKind => if wire % 8 != 0 then Bad(WrongWireType) else LexVarint(num, s[tag.len..], tag.len)
        case LengthKind => if wire % 8 != 2 then Bad(WrongWireType) else LexLength(num, s[tag.len..], tag.len)
        case UnknownKind => LexUnknown(s)
  }

  lemma {:induction false} LexLengthLocal(num: int32, s: Bytes, t: Bytes, tagLen: nat)
    requires LexLength(num, s, tagLen).Lex?
    ensures LexLength(num, s + t, tagLen) == LexLength(num, s, tagLen)
  {
    hide Read;
    ReadLocal(s, t, 0);
    var v := Read(s);
    SliceAppend(s, t, v.len, v.len + v.raw % TWO_64);
  }

  lemma {:induction false} LexUnknownLocal(s: Bytes, t: Bytes)
    requires LexUnknown(s).Lex?
    ensures LexUnknown(s + t) == LexUnknown(s)
  {
    SkipLocal(s, t, 0, 0);
    SliceAppend(s, t, 0, SkipFrom(s, 0, 0).end);
  }

  /** A field is recognised the same way whatever bytes follow it. */
  lemma {:induction false} NextTokenLocal(mt: MessageType, s: Bytes, t: Bytes)
    requires NextToken(mt, s).Lex?
    ensures NextToken(mt, s + t) == NextToken(mt, s)
  {
    ReadLocal(s, t, 0);
    var tag := Read(s);
    var num := Wrap32(tag.raw % TWO_64 / 8);
    match KindOf(mt, num)
    case VarintKind =>
      DropAppend(s, t, tag.len);
      ReadLocal(s[tag.len..], t, 0);
    case LengthKind =>
      DropAppend(s, t, tag.len);
      LexLengthLocal(num, s[tag.len..], t, tag.len);
    case UnknownKind => LexUnknownLocal(s, t);
  }

  // ----- writing one field -----

  function Tag(num: nat, wireType: nat): (s: Bytes)
    ensures |s| > 0
  {
    Encode(num * 8 + wireType)
  }

  function Delimited(num: nat, payload: Bytes): Bytes {
    Tag(num, 2) + (Encode(|payload|) + payload)
  }

  /** Proto3 leaves out a string, bool or integer field that holds its zero value. */
  function StringField(num: nat, v: Bytes): Bytes {
    if |v| > 0 then Delimited(num, v) else []
  }

  function BoolField(num: nat, b: bool): Bytes {
    if b then Tag(num, 0) + [1] else []
  }

  function IntField(num: nat, x: int32): Bytes {
    if x != 0 then Tag(num, 0) + Encode(SignExtend(x)) else []
  }

  predicate FieldNumber(num: nat) { 0 < num < 0x1000_0000 }

  lemma {:induction false} ReadTag(num: nat, wireType: nat, t: Bytes)
    requires FieldNumber(num) && wireType < 8
    ensures Read(Tag(num, wireType) + t) == Got(num * 8 + wireType, |Tag(num, wireType)|)
    ensures Wrap32((num * 8 + wireType) % TWO_64 / 8) == num && (num * 8 + wireType) % TWO_64 % 8 == wireType
  {
    EncodeFitsTen(num * 8 + wireType);
    ReadEncode(num * 8 + wireType, t, 0);
  }

  lemma {:induction false} LexPayload(num: int32, payload: Bytes, t: Bytes, tagLen: nat)
    requires |payload| < TWO_63
    ensures LexLength(num, Encode(|payload|) + (payload + t), tagLen)
            == Lex(LengthField(num, payload), tagLen + |Encode(|payload|)| + |payload|)
  {
    hide Encode, Read;
    var len := Encode(|payload|);
    EncodeFitsTen(|payload|);
    ReadEncode(|payload|, payload + t, 0);
    var s := len + (payload + t);
    DropPrefix(len, payload + t);
    assert s[|len|..|len| + |payload|] == s[|len|..][..|payload|];
  }

  lemma {:induction false} LexDelimited(mt: MessageType, num: nat, payload: Bytes, t: Bytes)
    requires FieldNumber(num) && KindOf(mt, num) == LengthKind && |payload| < TWO_63
    ensures NextToken(mt, Delimited(num, payload) + t)
            == Lex(LengthField(num, payload), |Delimited(num, payload)|)
  {
    hide Encode, Read;
    var tag, rest := Tag(num, 2), Encode(|payload|) + (payload + t);
    AppendAssoc(Encode(|payload|), payload, t);
    AppendAssoc(tag, Encode(|payload|) + payload, t);
    ReadTag(num, 2, rest);
    DropPrefix(tag, rest);
    LexPayload(num, payload, t, |tag|);
  }

  lemma {:induction false} LexScalar(mt: MessageType, num: nat, v: uint64, t: Bytes)
    requires FieldNumber(num) && KindOf(mt, num) == VarintKind
    ensures NextToken(mt, (Tag(num, 0) + Encode(v)) + t)
            == Lex(VarintField(num, v), |Tag(num, 0) + Encode(v)|)
  {
    hide Encode, Read;
    var tag := Tag(num, 0);
    AppendAssoc(tag, Encode(v), t);
    ReadTag(num, 0, Encode(v) + t);
    DropPrefix(tag, Encode(v) + t);
    EncodeFitsTen(v);
    ReadEncode(v, t, 0);
  }
}
