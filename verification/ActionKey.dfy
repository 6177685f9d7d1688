/** Action keys of internal/cache/digest.go: what each builder call feeds to the running hasher, and
    why no two different actions ever feed it the same bytes. The hash itself is a parameter. */
module ActionKeys {
  import opened Common

  const WORD := 0x1_0000_0000_0000_0000

  datatype Input = Input(name: Bytes, data: Bytes)

  /** The bytes of an ASCII literal. */
  function Ascii(s: string): (r: Bytes)
    ensures |r| == |s|
  {
    seq(|s|, i requires 0 <= i < |s| => s[i] as int % 256)
  }

  function LittleEndian(n: nat, width: nat): (r: Bytes)
    ensures |r| == width
  {
    if width == 0 then [] else [n % 256] + LittleEndian(n / 256, width - 1)
  }

  /** One write: an eight-byte length, which a uint64 holds, then the data. */
  function Frame(data: Bytes): Bytes {
    LittleEndian(|data| % WORD, 8) + data
  }

  function InputBytes(inputs: seq<Input>): Bytes {
    if inputs == [] then []
    else InputBytes(inputs[..|inputs| - 1]) + (Frame(inputs[|inputs| - 1].name) + Frame(inputs[|inputs| - 1].data))
  }

  /** Everything the hasher is fed for a mnemonic, a tool digest and the inputs in order. */
  function ActionBytes(mnemonic: Bytes, tool: Bytes, inputs: seq<Input>): Bytes {
    Frame(mnemonic) + InputBytes([Input(Ascii("tool"), tool)] + inputs)
  }

  predicate Fits(data: Bytes) { |data| < WORD }

  ghost predicate AllFit(inputs: seq<Input>) {
    forall i :: 0 <= i < |inputs| ==> Fits(inputs[i].name) && Fits(inputs[i].data)
  }

  lemma {:induction false} InputBytesGrow(before: seq<Input>, input: Input)
    ensures InputBytes(before + [input]) == InputBytes(before) + (Frame(input.name) + Frame(input.data))
  {
    assert (before + [input])[..|before|] == before;
  }

  // ----- the builder -----

  method PutUint64(x: nat) returns (frame: Bytes)
    requires x < WORD
    ensures frame == LittleEndian(x, 8)
  {
    hide LittleEndian;
    frame := [];
    var n := x;
    assert frame + LittleEndian(n, 8) == LittleEndian(n, 8);
    for i := 0 to 8
      invariant frame + LittleEndian(n, 8 - i) == LittleEndian(x, 8)
    {
      ghost var was := frame;
      LittleEndianStep(n, 8 - i);
      frame := frame + [n % 256];
      AppendAssoc(was, [n % 256], LittleEndian(n / 256, 7 - i));
      n := n / 256;
    }
    assert LittleEndian(n, 0) == [];
  }

  lemma {:induction false} LittleEndianStep(n: nat, width: nat)
    requires width > 0
    ensures LittleEndian(n, width) == [n % 256] + LittleEndian(n / 256, width - 1)
  {
  }

  class Action {
    var fed: Bytes // what the hasher has been given so far

    method Write(data: Bytes)
      modifies this
      ensures fed == old(fed) + Frame(data)
    {
      var frame := PutUint64(|data| % WORD);
      fed := fed + frame;
      fed := fed + data;
      AppendAssoc(old(fed), frame, data);
    }

    constructor (mnemonic: Bytes, tool: Bytes)
      ensures fed == ActionBytes(mnemonic, tool, [])
    {
      fed := [];
      new;
      hide Frame;
      Write(mnemonic);
      AddInput(Ascii("tool"), tool);
      ghost var input := Input(Ascii("tool"), tool);
      InputBytesGrow([], input);
      assert [input] + [] == [] + [input];
    }

    method AddInput(name: Bytes, data: Bytes)
      modifies this
      ensures fed == old(fed) + (Frame(name) + Frame(data))
    {
      Write(name);
      Write(data);
      AppendAssoc(old(fed), Frame(name), Frame(data));
    }

    method Digest(h: Bytes -> string) returns (d: string)
      ensures d == h(fed)
    {
      d := h(fed);
    }
  }

  // ----- unambiguous framing -----

  lemma {:induction false} LittleEndianInjective(a: nat, b: nat, width: nat)
    requires a < Power256(width) && b < Power256(width) && LittleEndian(a, width) == LittleEndian(b, width)
    ensures a == b
  {
    if width > 0 {
      var x, y := LittleEndian(a, width), LittleEndian(b, width);
      assert x[0] == a % 256 && y[0] == b % 256;
      assert x[1..] == LittleEndian(a / 256, width - 1) && y[1..] == LittleEndian(b / 256, width - 1);
      LittleEndianInjective(a / 256, b / 256, width - 1);
    }
  }

  function Power256(width: nat): nat {
    if width == 0 then 1 else 256 * Power256(width - 1)
  }

  lemma {:induction false} EightBytes()
    ensures Power256(8) == WORD
  {
    assert Power256(2) == 0x1_0000;
    assert Power256(4) == 0x1_0000_0000;
    assert Power256(6) == 0x1_0000_0000_0000;
  }

  /** A frame tells where it ends, read from the right or from the left. */
  lemma {:induction false} FrameSplits(a: Bytes, x: Bytes, b: Bytes, y: Bytes)
    requires Fits(a) && Fits(b) && Frame(a) + x == Frame(b) + y
    ensures a == b && x == y
  {
    FrameParts(a, x);
    FrameParts(b, y);
    hide LittleEndian, Frame;
    EightBytes();
    LittleEndianInjective(|a|, |b|, 8);
  }

  lemma {:induction false} FrameParts(a: Bytes, x: Bytes)
    requires Fits(a)
    ensures var s := Frame(a) + x;
            |s| >= 8 + |a| && s[..8] == LittleEndian(|a|, 8) && s[8..8 + |a|] == a && s[8 + |a|..] == x
  {
    hide LittleEndian;
    var n := LittleEndian(|a|, 8);
    assert Frame(a) + x == n + (a + x);
    DropPrefix(n, a + x);
  }

  lemma {:induction false} FirstInput(inputs: seq<Input>)
    requires inputs != []
    ensures InputBytes(inputs) == Frame(inputs[0].name) + (Frame(inputs[0].data) + InputBytes(inputs[1..]))
  {
    hide Frame;
    var last := inputs[|inputs| - 1];
    if |inputs| > 1 {
      var init, rest := inputs[..|inputs| - 1], inputs[1..];
      FirstInput(init);
      assert init[1..] == rest[..|rest| - 1];
      assert InputBytes(rest) == InputBytes(init[1..]) + (Frame(last.name) + Frame(last.data));
      AppendAssoc(Frame(inputs[0].name), Frame(inputs[0].data) + InputBytes(init[1..]), Frame(last.name) + Frame(last.data));
      AppendAssoc(Frame(inputs[0].data), InputBytes(init[1..]), Frame(last.name) + Frame(last.data));
    } else {
      assert inputs[..0] == [] && inputs[1..] == [];
      assert Frame(last.data) + [] == Frame(last.data);
    }
  }

  lemma {:induction false} EmptyOnly(inputs: seq<Input>)
    ensures InputBytes(inputs) == [] <==> inputs == []
  {
    if inputs != [] {
      assert |Frame(inputs[|inputs| - 1].name)| >= 8;
    }
  }

  lemma {:induction false} InputsInjective(a: seq<Input>, b: seq<Input>)
    requires AllFit(a) && AllFit(b) && InputBytes(a) == InputBytes(b)
    ensures a == b
    decreases |a|
  {
    hide InputBytes, Frame;
    EmptyOnly(a);
    EmptyOnly(b);
    if a != [] {
      FirstInput(a);
      FirstInput(b);
      FrameSplits(a[0].name, Frame(a[0].data) + InputBytes(a[1..]), b[0].name, Frame(b[0].data) + InputBytes(b[1..]));
      FrameSplits(a[0].data, InputBytes(a[1..]), b[0].data, InputBytes(b[1..]));
      InputsInjective(a[1..], b[1..]);
      assert a == [a[0]] + a[1..] && b == [b[0]] + b[1..];
    }
  }

  /** Action keys are unambiguous: equal bytes mean equal mnemonic, tool and whole sequence of inputs. */
  lemma {:induction false} ActionBytesInjective(m: Bytes, t: Bytes, a: seq<Input>, m': Bytes, t': Bytes, a': seq<Input>)
    requires Fits(m) && Fits(t) && AllFit(a) && Fits(m') && Fits(t') && AllFit(a')
    requires ActionBytes(m, t, a) == ActionBytes(m', t', a')
    ensures m == m' && t == t' && a == a'
  {
    hide InputBytes, Frame;
    var x, y := [Input(Ascii("tool"), t)] + a, [Input(Ascii("tool"), t')] + a';
    FrameSplits(m, InputBytes(x), m', InputBytes(y));
    assert AllFit(x) && AllFit(y);
    InputsInjective(x, y);
    assert x[0] == y[0] && x[1..] == a && y[1..] == a';
  }

  // ----- the two clients' keys -----

  datatype Request =
    | QueryAnalysis(config: Bytes, schema: seq<Bytes>, query: Bytes)
    | CoreCatalog(dialect: Bytes, schema: seq<Bytes>)

  function SchemaInputs(schema: seq<Bytes>): (r: seq<Input>)
    ensures |r| == |schema| && forall i :: 0 <= i < |r| ==> r[i] == Input(Ascii("schema"), schema[i])
  {
    seq(|schema|, i requires 0 <= i < |schema| => Input(Ascii("schema"), schema[i]))
  }

  function Mnemonic(r: Request): Bytes {
    if r.QueryAnalysis? then Ascii("QueryAnalysis") else Ascii("CoreCatalog")
  }

  function Inputs(r: Request): seq<Input> {
    match r
    case QueryAnalysis(config, schema, query) =>
      [Input(Ascii("config"), config)] + SchemaInputs(schema) + [Input(Ascii("query"), query)]
    case CoreCatalog(dialect, schema) => [Input(Ascii("dialect"), dialect)] + SchemaInputs(schema)
  }

  function RequestBytes(tool: Bytes, r: Request): Bytes {
    ActionBytes(Mnemonic(r), tool, Inputs(r))
  }

  ghost predicate RequestFits(r: Request) {
    && (forall i :: 0 <= i < |r.schema| ==> Fits(r.schema[i]))
    && (if r.QueryAnalysis? then Fits(r.config) && Fits(r.query) else Fits(r.dialect))
  }

  method AddSchema(action: Action, schema: seq<Bytes>, ghost mnemonic: Bytes, ghost before: seq<Input>)
    requires action.fed == Frame(mnemonic) + InputBytes(before)
    modifies action
    ensures action.fed == Frame(mnemonic) + InputBytes(before + SchemaInputs(schema))
  {
    hide Frame, InputBytes;
    ghost var fed := before;
    for i := 0 to |schema|
      invariant fed == before + SchemaInputs(schema[..i])
      invariant action.fed == Frame(mnemonic) + InputBytes(fed)
    {
      Extend(action, Ascii("schema"), schema[i], mnemonic, fed);
      fed := fed + [Input(Ascii("schema"), schema[i])];
    }
    assert schema[..|schema|] == schema;
  }

  method Extend(action: Action, name: Bytes, data: Bytes, ghost mnemonic: Bytes, ghost before: seq<Input>)
    requires action.fed == Frame(mnemonic) + InputBytes(before)
    modifies action
    ensures action.fed == Frame(mnemonic) + InputBytes(before + [Input(name, data)])
  {
    hide Frame, InputBytes;
    action.AddInput(name, data);
    InputBytesGrow(before, Input(name, data));
    AppendAssoc(Frame(mnemonic), InputBytes(before), Frame(name) + Frame(data));
  }

  /** Feeding a request to the hasher, as both clients do. */
  method DigestRequest(h: Bytes -> string, tool: Bytes, r: Request) returns (key: string)
    ensures key == h(RequestBytes(tool, r))
  {
    hide Frame, InputBytes;
    var action := new Action(Mnemonic(r), tool);
    ghost var start := [Input(Ascii("tool"), tool)];
    assert start + [] == start;
    match r
    case QueryAnalysis(config, schema, query) =>
      Extend(action, Ascii("config"), config, Mnemonic(r), start);
      ghost var first := start + [Input(Ascii("config"), config)];
      AddSchema(action, schema, Mnemonic(r), first);
      Extend(action, Ascii("query"), query, Mnemonic(r), first + SchemaInputs(schema));
      assert first + SchemaInputs(schema) + [Input(Ascii("query"), query)] == start + Inputs(r);
      key := action.Digest(h);
    case CoreCatalog(dialect, schema) =>
      Extend(action, Ascii("dialect"), dialect, Mnemonic(r), start);
      ghost var first := start + [Input(Ascii("dialect"), dialect)];
      AddSchema(action, schema, Mnemonic(r), first);
      assert first + SchemaInputs(schema) == start + Inputs(r);
      key := action.Digest(h);
  }

  lemma {:induction false} InputsFit(r: Request)
    requires RequestFits(r)
    ensures AllFit(Inputs(r))
  {
  }

  lemma {:induction false} SchemaInputsInjective(a: seq<Bytes>, b: seq<Bytes>)
    requires SchemaInputs(a) == SchemaInputs(b)
    ensures a == b
  {
    var x, y := SchemaInputs(a), SchemaInputs(b);
    assert |a| == |x| == |y| == |b|;
    forall i | 0 <= i < |a|
      ensures a[i] == b[i]
    {
      assert x[i].data == y[i].data;
    }
  }

  lemma {:induction false} InputsDetermine(r: Request, s: Request)
    requires r.QueryAnalysis? == s.QueryAnalysis? && Inputs(r) == Inputs(s)
    ensures r == s
  {
    var x, y := Inputs(r), Inputs(s);
    assert x[0].data == y[0].data;
    if r.QueryAnalysis? {
      assert x[|x| - 1].data == y[|y| - 1].data;
      assert SchemaInputs(r.schema) == x[1..|x| - 1] && SchemaInputs(s.schema) == y[1..|y| - 1];
    } else {
      assert SchemaInputs(r.schema) == x[1..] && SchemaInputs(s.schema) == y[1..];
    }
    SchemaInputsInjective(r.schema, s.schema);
  }

  /** Two requests of either client share a key's bytes only when they are the same request by the same tool. */
  lemma {:induction false} RequestBytesInjective(tool: Bytes, r: Request, tool': Bytes, s: Request)
    requires Fits(tool) && Fits(tool') && RequestFits(r) && RequestFits(s)
    requires RequestBytes(tool, r) == RequestBytes(tool', s)
    ensures tool == tool' && r == s
  {
    InputsFit(r);
    InputsFit(s);
    hide ActionBytes;
    ActionBytesInjective(Mnemonic(r), tool, Inputs(r), Mnemonic(s), tool', Inputs(s));
    assert |Mnemonic(r)| == |Mnemonic(s)|;
    InputsDetermine(r, s);
  }
}
