/** Generating the SBE fields of one message from an IR: pick the message,
    walk its tokens with a cursor, and turn every BEGIN_FIELD ... END_FIELD
    span into a primitive or an enumeration field. */
module IrFieldGenerator {
  import opened Results
  import opened SbeIr
  import opened EnumSbeFields
  import opened SbeSchemas
  import opened TokenIterators
  import opened FieldHandlers

  /** A field whose tokens are BEGIN_FIELD, ENCODING, END_FIELD is primitive. */
  const PrimitiveTokenCount: int := 3

  datatype PrimitiveSbeField = PrimitiveSbeField(
    name: string,
    isRequired: bool,
    primitiveType: PrimitiveType,
    characterEncoding: Option<string>)

  datatype SbeField = Primitive(primitive: PrimitiveSbeField) | Enum(enumeration: EnumSbeField)

  function FieldName(f: SbeField): string {
    match f
    case Primitive(p) => p.name
    case Enum(e) => e.name
  }

  function FieldNames(fs: seq<SbeField>): (names: seq<string>)
    ensures |names| == |fs|
    ensures forall i :: 0 <= i < |fs| ==> names[i] == FieldName(fs[i])
  {
    if fs == [] then [] else [FieldName(fs[0])] + FieldNames(fs[1..])
  }

  // ---------------------------------------------------------------------
  // Selecting the message
  // ---------------------------------------------------------------------

  /** The identifiers as the generator reads them: `None` stands for an
      identifier that is not given. */
  datatype MessageSelector = MessageSelector(messageId: Option<int>, messageName: Option<string>)

  /** Reads the option sentinels (-1, "") as "not given". */
  function SelectorOf(opts: IrOptions): (sel: MessageSelector)
    ensures sel.messageId.Some? <==> opts.messageId > -1
    ensures sel.messageName.Some? <==> opts.messageName != ""
    ensures sel.messageId.Some? ==> sel.messageId.value == opts.messageId
    ensures sel.messageName.Some? ==> sel.messageName.value == opts.messageName
  {
    MessageSelector(
      if opts.messageId > -1 then Some(opts.messageId) else None,
      if opts.messageName != "" then Some(opts.messageName) else None)
  }

  /** `getIteratorForMessage` without the iterator: the tokens of the chosen
      message. A name takes precedence over an id; with neither, the IR must
      hold exactly one message. */
  function SelectMessage(ir: Ir, sel: MessageSelector): (r: Result<seq<Token>>)
    ensures r.Throws? ==> r.exception.IllegalArgument?
    ensures r.Ok? ==> exists k :: 0 <= k < |ir.messages| && ir.messages[k].tokens == r.value
    ensures sel.messageName.Some? ==>
      (r.Ok? <==> |MessagesNamed(ir.messages, sel.messageName.value)| == 1)
      && (r.Ok? ==> |r.value| > 0 && r.value[0].name == sel.messageName.value)
    ensures sel.messageName.None? && sel.messageId.Some? ==>
      (r.Ok? <==> exists k :: 0 <= k < |ir.messages| && ir.messages[k].id == sel.messageId.value)
      && (r.Ok? ==> Some(r.value) == GetMessage(ir.messages, sel.messageId.value))
    ensures sel.messageName.None? && sel.messageId.None? ==>
      (r.Ok? <==> |ir.messages| == 1) && (r.Ok? ==> r.value == ir.messages[0].tokens)
  {
    if sel.messageId.None? && sel.messageName.None? then
      if |ir.messages| == 0 then Throws(IllegalArgument("No messages in IR"))
      else if |ir.messages| != 1 then
        Throws(IllegalArgument("More than one message in IR but no identifier provided."))
      else Ok(ir.messages[0].tokens)
    else if sel.messageName.Some? then
      var name := sel.messageName.value;
      var matching := MessagesNamed(ir.messages, name);
      if |matching| == 0 then Throws(IllegalArgument("No messages found with name " + name))
      else if |matching| != 1 then Throws(IllegalArgument("More than one message found with name " + name))
      else
        assert matching[0] in matching;
        Ok(matching[0].tokens)
    else
      match GetMessage(ir.messages, sel.messageId.value)
      case None => Throws(IllegalArgument("No message found with id " + IntDecimal(sel.messageId.value)))
      case Some(ts) => Ok(ts)
  }

  /** For options that `build()` accepts, the schema's validation passes
      exactly when the generator can select a message. */
  lemma ValidationMatchesSelection(ir: Ir, opts: IrOptions)
    requires IdentifierValid(opts.messageId, opts.messageName)
    ensures ValidateIrOptionsIntended(ir, opts).Pass? <==> SelectMessage(ir, SelectorOf(opts)).Ok?
    ensures !SingleMessageOptions(opts) ==>
      (ValidateIrOptions(ir, opts).Pass? <==> SelectMessage(ir, SelectorOf(opts)).Ok?)
  {
    ValidateIntendedAgrees(ir, opts);
  }

  // ---------------------------------------------------------------------
  // Classifying and building one field
  // ---------------------------------------------------------------------

  const PrimitiveHandler: FieldHandler :=
    FieldHandler(map[BeginField := SetPrimitiveNameAndPresence, Encoding := SetPrimitiveEncoding,
                     EndField := DoNothing])

  const EnumHandler: FieldHandler :=
    FieldHandler(map[BeginField := SetEnumName, BeginEnum := DoNothing, ValidValue := PutEnumValue,
                     EndEnum := DoNothing, EndField := DoNothing])

  /** The primitive field's AutoValue `build()`: name, presence and type
      must have been set; the character encoding is optional. */
  function BuildPrimitive(p: PrimitiveBuilder): (r: Result<PrimitiveSbeField>)
    ensures r.Ok? <==> p.name.Some? && p.isRequired.Some? && p.primitiveType.Some?
    ensures r.Ok? ==> r.value == PrimitiveSbeField(p.name.value, p.isRequired.value,
                                                   p.primitiveType.value, p.characterEncoding)
  {
    if p.name.None? || p.isRequired.None? || p.primitiveType.None? then
      Throws(IllegalState("Missing required properties"))
    else Ok(PrimitiveSbeField(p.name.value, p.isRequired.value, p.primitiveType.value, p.characterEncoding))
  }

  predicate DistinctKeys(es: seq<(string, int)>) {
    forall i, j :: 0 <= i < j < |es| ==> es[i].0 != es[j].0
  }

  /** The map of a list of entries (used when their keys are distinct). */
  function ToMap(es: seq<(string, int)>): (m: map<string, int>)
    ensures m.Keys == set e | e in es :: e.0
    ensures DistinctKeys(es) ==> forall k :: 0 <= k < |es| ==> m[es[k].0] == es[k].1
  {
    if es == [] then map[]
    else
      var rest := ToMap(es[1..]);
      assert forall k :: 1 <= k < |es| ==> es[k] == es[1..][k - 1];
      rest[es[0].0 := es[0].1]
  }

  const DuplicateKey: string := "Multiple entries with same key"

  /** `ImmutableMap.Builder.build()`: refuses a key given twice. */
  function ValuesMap(es: seq<(string, int)>): (r: Result<map<string, int>>)
    ensures r.Ok? <==> DistinctKeys(es)
    ensures r.Ok? ==> (|r.value| > 0 <==> |es| > 0)
  {
    if DistinctKeys(es) then
      var m := ToMap(es);
      assert |es| > 0 ==> es[0].0 in m.Keys;
      Ok(m)
    else Throws(IllegalArgument(DuplicateKey))
  }

  /** What `processPrimitive` builds once the tokens are handled. */
  function PrimitiveFromHandled(r: Result<Builders>): Result<SbeField> {
    match r
    case Throws(e) => Throws(e)
    case Ok(b) =>
      match BuildPrimitive(b.primitive)
      case Throws(e) => Throws(e)
      case Ok(p) => Ok(Primitive(p))
  }

  /** What `processEnum` builds once the tokens are handled: the values map
      first, then the enumeration field. */
  function EnumFromHandled(r: Result<Builders>): Result<SbeField> {
    match r
    case Throws(e) => Throws(e)
    case Ok(b) =>
      match ValuesMap(b.enumValues)
      case Throws(e) => Throws(e)
      case Ok(values) =>
        match EnumSbeFields.Build(EnumSbeFields.SetValues(b.enumField, values))
        case Throws(e) => Throws(e)
        case Ok(f) => Ok(Enum(f))
  }

  /** The handler `processPrimitive` builds: one consumer per signal it
      registers. */
  method BuildPrimitiveHandler() returns (handler: FieldHandler)
    ensures handler == PrimitiveHandler
  {
    var builder := new FieldHandlerBuilder();
    // Each signal is registered once, so every registration passes.
    var registered := builder.WithTokenHandler(BeginField, SetPrimitiveNameAndPresence);
    registered := builder.WithTokenHandler(Encoding, SetPrimitiveEncoding);
    registered := builder.WithTokenHandler(EndField, DoNothing);
    handler := builder.Build();
  }

  /** The handler `processEnum` builds. */
  method BuildEnumHandler() returns (handler: FieldHandler)
    ensures handler == EnumHandler
  {
    var builder := new FieldHandlerBuilder();
    // Each signal is registered once, so every registration passes.
    var registered := builder.WithTokenHandler(BeginField, SetEnumName);
    registered := builder.WithTokenHandler(BeginEnum, DoNothing);
    registered := builder.WithTokenHandler(ValidValue, PutEnumValue);
    registered := builder.WithTokenHandler(EndEnum, DoNothing);
    registered := builder.WithTokenHandler(EndField, DoNothing);
    handler := builder.Build();
  }

  /** `processPrimitive` with the cursor on `p`. */
  function ProcessPrimitiveSpec(t: seq<Token>, p: int): (s: Step<SbeField>)
    requires 0 <= p < |t|
    ensures p <= s.cursor < |t|
    ensures s.result.Ok? ==> s.result.value.Primitive?
  {
    var h := Handle(PrimitiveHandler, t, p, EmptyBuilders);
    Step(PrimitiveFromHandled(h.result), h.cursor)
  }

  /** `processEnum` with the cursor on `p`. */
  function ProcessEnumSpec(t: seq<Token>, p: int): (s: Step<SbeField>)
    requires 0 <= p < |t|
    ensures p <= s.cursor < |t|
    ensures s.result.Ok? ==> s.result.value.Enum?
  {
    var h := Handle(EnumHandler, t, p, EmptyBuilders);
    Step(EnumFromHandled(h.result), h.cursor)
  }

  /** `processField` with the cursor on `p`: three token components make a
      primitive field, a BEGIN_ENUM after the cursor an enumeration field,
      anything else is refused. */
  function ProcessFieldSpec(t: seq<Token>, p: int): (s: Step<SbeField>)
    requires 0 <= p < |t|
    ensures p <= s.cursor < |t|
    ensures t[p].componentTokenCount == PrimitiveTokenCount ==>
      (s.result.Ok? ==> s.result.value.Primitive?)
    ensures t[p].componentTokenCount != PrimitiveTokenCount && p + 1 < |t| && t[p + 1].signal == BeginEnum ==>
      (s.result.Ok? ==> s.result.value.Enum?)
    ensures t[p].componentTokenCount != PrimitiveTokenCount && p + 1 == |t| ==>
      s.result == Throws(IndexOutOfBounds(p + 1))
    ensures t[p].componentTokenCount != PrimitiveTokenCount && p + 1 < |t| && t[p + 1].signal != BeginEnum ==>
      s.result == Throws(IllegalArgument("Do not recognize type of field: " + t[p].name))
  {
    if t[p].componentTokenCount == PrimitiveTokenCount then ProcessPrimitiveSpec(t, p)
    else if p + 1 >= |t| then Step(Throws(IndexOutOfBounds(p + 1)), p)
    else if t[p + 1].signal == BeginEnum then ProcessEnumSpec(t, p)
    else Step(Throws(IllegalArgument("Do not recognize type of field: " + t[p].name)), p)
  }

  // ---------------------------------------------------------------------
  // Reference definitions over a field's tokens
  // ---------------------------------------------------------------------

  /** The last token of `ts` that carries signal `s`. */
  function LastOf(ts: seq<Token>, s: Signal): (r: Option<Token>)
    ensures r.None? <==> forall k :: 0 <= k < |ts| ==> ts[k].signal != s
    ensures r.Some? ==> exists k :: 0 <= k < |ts| && ts[k] == r.value && ts[k].signal == s
                                    && forall j :: k < j < |ts| ==> ts[j].signal != s
    decreases |ts|
  {
    if ts == [] then None
    else
      assert forall k :: 1 <= k < |ts| ==> ts[k] == ts[1..][k - 1];
      match LastOf(ts[1..], s)
      case Some(x) => Some(x)
      case None => if ts[0].signal == s then Some(ts[0]) else None
  }

  /** The last non-empty character encoding among the ENCODING tokens of `ts`. */
  function LastCharacterEncoding(ts: seq<Token>): (r: Option<string>)
    ensures r.Some? ==> (r.value != "" &&
      exists k :: 0 <= k < |ts| && ts[k].signal == Encoding && ts[k].encoding.characterEncoding == r)
    ensures r.None? <==> forall k :: 0 <= k < |ts| && ts[k].signal == Encoding ==>
      ts[k].encoding.characterEncoding.None? || ts[k].encoding.characterEncoding.value == ""
    decreases |ts|
  {
    if ts == [] then None
    else
      assert forall k :: 1 <= k < |ts| ==> ts[k] == ts[1..][k - 1];
      match LastCharacterEncoding(ts[1..])
      case Some(x) => Some(x)
      case None =>
        var ce := ts[0].encoding.characterEncoding;
        if ts[0].signal == Encoding && ce.Some? && ce.value != "" then ce else None
  }

  /** The primitive builder after the primitive consumers have seen `ts`:
      the last BEGIN_FIELD gives name and presence, the last ENCODING the type,
      the last non-empty character encoding the character encoding. */
  function PrimitiveAfter(ts: seq<Token>, p: PrimitiveBuilder): PrimitiveBuilder {
    var bf := LastOf(ts, BeginField);
    var enc := LastOf(ts, Encoding);
    var ce := LastCharacterEncoding(ts);
    PrimitiveBuilder(
      if bf.Some? then Some(bf.value.name) else p.name,
      if bf.Some? then Some(bf.value.encoding.presence == Required) else p.isRequired,
      if enc.Some? then Some(enc.value.encoding.primitiveType) else p.primitiveType,
      if ce.Some? then ce else p.characterEncoding)
  }

  /** The primitive consumers never throw, and they leave the builder as
      `PrimitiveAfter` describes. */
  lemma {:induction false} PrimitiveHandlerFold(ts: seq<Token>, b: Builders)
    ensures HandleAll(PrimitiveHandler, ts, b) == Ok(b.(primitive := PrimitiveAfter(ts, b.primitive)))
    decreases |ts|
  {
    if ts != [] {
      var t0, rest := ts[0], ts[1..];
      var b1 := HandleToken(PrimitiveHandler, t0, b).value;
      assert HandleAll(PrimitiveHandler, ts, b) == HandleAll(PrimitiveHandler, rest, b1);
      PrimitiveHandlerFold(rest, b1);
      if t0.signal == BeginField {
        assert b1.primitive.name == Some(t0.name);
      } else if t0.signal == Encoding {
        assert b1.primitive.primitiveType == Some(t0.encoding.primitiveType);
      } else {
        assert b1 == b;
      }
    }
  }

  /** The tokens of `ts` that carry signal `s`, in order. */
  function Filter(ts: seq<Token>, s: Signal): (r: seq<Token>)
    ensures |r| <= |ts|
    ensures forall k :: 0 <= k < |r| ==> r[k].signal == s
  {
    if ts == [] then []
    else if ts[0].signal == s then [ts[0]] + Filter(ts[1..], s)
    else Filter(ts[1..], s)
  }
  /** `Filter` keeps exactly the tokens of `ts` that carry the signal. */
  lemma {:induction false} FilterMembers(ts: seq<Token>, s: Signal)
    ensures forall x :: x in Filter(ts, s) <==> x in ts && x.signal == s
    decreases |ts|
  {
    if ts != [] {
      FilterMembers(ts[1..], s);
      assert ts == [ts[0]] + ts[1..];
    }
  }


  /** One entry name -> value per VALID_VALUE token, in order; refuses a
      missing constant and one outside the `int` range. */
  function ValidValueEntries(ts: seq<Token>): (r: Result<seq<(string, int)>>)
    ensures r.Ok? <==> forall k :: 0 <= k < |ts| && ts[k].signal == ValidValue ==>
      ts[k].encoding.constValue.Some? && InIntRange(ts[k].encoding.constValue.value)
    ensures r.Ok? ==> |r.value| == |Filter(ts, ValidValue)|
    ensures r.Ok? ==> forall k :: 0 <= k < |r.value| ==>
      r.value[k].0 == Filter(ts, ValidValue)[k].name
      && Some(r.value[k].1) == Filter(ts, ValidValue)[k].encoding.constValue
    decreases |ts|
  {
    if ts == [] then Ok([])
    else
      assert forall k :: 1 <= k < |ts| ==> ts[k] == ts[1..][k - 1];
      if ts[0].signal != ValidValue then ValidValueEntries(ts[1..])
      else
        match ts[0].encoding.constValue
        case None => Throws(NullPointer)
        case Some(v) =>
          if !InIntRange(v) then Throws(Arithmetic("integer overflow"))
          else
            match ValidValueEntries(ts[1..])
            case Throws(x) => Throws(x)
            case Ok(es) => Ok([(ts[0].name, v)] + es)
  }

  /** The enumeration builder after the enumeration consumers saw `ts`. */
  function EnumNameAfter(ts: seq<Token>, eb: EnumSbeFields.Builder): EnumSbeFields.Builder {
    var bf := LastOf(ts, BeginField);
    if bf.Some? then EnumSbeFields.SetName(eb, bf.value.name) else eb
  }

  /** The enumeration consumers append one value per VALID_VALUE token and
      throw exactly where `ValidValueEntries` refuses. */
  lemma {:induction false} EnumHandlerFold(ts: seq<Token>, b: Builders)
    ensures HandleAll(EnumHandler, ts, b) ==
      match ValidValueEntries(ts)
      case Throws(x) => Throws(x)
      case Ok(es) => Ok(b.(enumField := EnumNameAfter(ts, b.enumField), enumValues := b.enumValues + es))
    decreases |ts|, 1
  {
    if ts == [] {
      assert b.enumValues + [] == b.enumValues;
      assert EnumNameAfter(ts, b.enumField) == b.enumField;
    } else if HandleToken(EnumHandler, ts[0], b).Throws? {
      assert ts[0].signal == ValidValue;
      assert ValidValueEntries(ts) == Throws(HandleToken(EnumHandler, ts[0], b).exception);
    } else {
      EnumHandlerFoldAccepted(ts, b);
    }
  }

  /** The name after `ts` is the name after its tail, starting from the
      builder its first token leaves. */
  lemma EnumNameAfterStep(ts: seq<Token>, eb: EnumSbeFields.Builder)
    requires ts != []
    ensures EnumNameAfter(ts, eb) == EnumNameAfter(ts[1..],
      if ts[0].signal == BeginField then EnumSbeFields.SetName(eb, ts[0].name) else eb)
  {
  }

  /** The step of `EnumHandlerFold` where the first token is accepted. */
  lemma {:induction false} EnumHandlerFoldAccepted(ts: seq<Token>, b: Builders)
    requires ts != [] && HandleToken(EnumHandler, ts[0], b).Ok?
    ensures HandleAll(EnumHandler, ts, b) ==
      match ValidValueEntries(ts)
      case Throws(x) => Throws(x)
      case Ok(es) => Ok(b.(enumField := EnumNameAfter(ts, b.enumField), enumValues := b.enumValues + es))
    decreases |ts|, 0
  {
    var t0, rest := ts[0], ts[1..];
    var b1 := HandleToken(EnumHandler, t0, b).value;
    assert HandleAll(EnumHandler, ts, b) == HandleAll(EnumHandler, rest, b1);
    EnumHandlerFold(rest, b1);
    EnumNameAfterStep(ts, b.enumField);
    if t0.signal == BeginField {
      assert b1 == b.(enumField := EnumSbeFields.SetName(b.enumField, t0.name));
      assert ValidValueEntries(ts) == ValidValueEntries(rest);
    } else if t0.signal == ValidValue {
      var v := t0.encoding.constValue.value;
      assert b1 == b.(enumValues := b.enumValues + [(t0.name, v)]);
      match ValidValueEntries(rest)
      case Throws(x) =>
        assert ValidValueEntries(ts) == Throws(x);
      case Ok(es) =>
        assert ValidValueEntries(ts) == Ok([(t0.name, v)] + es);
        assert b1.enumValues + es == b.enumValues + ([(t0.name, v)] + es);
    } else {
      assert b1 == b;
      assert ValidValueEntries(ts) == ValidValueEntries(rest);
    }
  }

  /** No BEGIN_FIELD at positions `a` up to (not including) `b`. */
  ghost predicate NoBeginFieldIn(t: seq<Token>, a: int, b: int) {
    forall k :: a <= k < b && 0 <= k < |t| ==> t[k].signal != BeginField
  }

  lemma OnlyFirstBeginField(span: seq<Token>)
    requires |span| > 0 && span[0].signal == BeginField
    requires forall k :: 1 <= k < |span| ==> span[k].signal != BeginField
    ensures LastOf(span, BeginField) == Some(span[0])
  {
  }

  /** What the primitive handler builds from the tokens of one field. */
  lemma PrimitiveSpan(span: seq<Token>)
    requires |span| > 0 && span[0].signal == BeginField
    ensures LastOf(span, BeginField).Some?
    ensures var bf := LastOf(span, BeginField).value; var enc := LastOf(span, Encoding);
      PrimitiveFromHandled(HandleAll(PrimitiveHandler, span, EmptyBuilders)) ==
        if enc.None? then Throws(IllegalState("Missing required properties"))
        else Ok(Primitive(PrimitiveSbeField(bf.name, bf.encoding.presence == Required,
                                            enc.value.encoding.primitiveType, LastCharacterEncoding(span))))
  {
    PrimitiveHandlerFold(span, EmptyBuilders);
  }

  /** The primitive handler builds a field from one field's tokens exactly
      when they hold an ENCODING token. */
  lemma PrimitiveSpanAccepted(span: seq<Token>)
    requires |span| > 0 && span[0].signal == BeginField
    ensures PrimitiveFromHandled(HandleAll(PrimitiveHandler, span, EmptyBuilders)).Ok? <==>
      LastOf(span, Encoding).Some?
  {
    PrimitiveSpan(span);
  }

  /** The field the primitive handler builds from one field's tokens, read
      off its parts. */
  lemma PrimitiveSpanContents(span: seq<Token>)
    requires |span| > 0 && span[0].signal == BeginField
    requires PrimitiveFromHandled(HandleAll(PrimitiveHandler, span, EmptyBuilders)).Ok?
    ensures LastOf(span, BeginField).Some? && LastOf(span, Encoding).Some?
    ensures var f := PrimitiveFromHandled(HandleAll(PrimitiveHandler, span, EmptyBuilders)).value;
      && f.Primitive?
      && f.primitive.name == LastOf(span, BeginField).value.name
      && (f.primitive.isRequired <==> LastOf(span, BeginField).value.encoding.presence == Required)
      && f.primitive.primitiveType == LastOf(span, Encoding).value.encoding.primitiveType
      && f.primitive.characterEncoding == LastCharacterEncoding(span)
  {
    PrimitiveSpan(span);
  }

  /** What the enumeration handler builds from the tokens of one field. */
  lemma EnumSpan(span: seq<Token>)
    requires |span| > 0 && span[0].signal == BeginField
    ensures LastOf(span, BeginField).Some?
    ensures EnumFromHandled(HandleAll(EnumHandler, span, EmptyBuilders)) ==
      match ValidValueEntries(span)
      case Throws(x) => Throws(x)
      case Ok(es) =>
        if !DistinctKeys(es) then Throws(IllegalArgument(DuplicateKey))
        else if es == [] then Throws(IllegalState("Must have at least one enum option"))
        else Ok(Enum(EnumSbeField(LastOf(span, BeginField).value.name, ToMap(es))))
  {
    EnumHandlerFold(span, EmptyBuilders);
  }

  /** A field's tokens from its BEGIN_FIELD at `p` to its first END_FIELD
      hold no other BEGIN_FIELD: then that BEGIN_FIELD is the last one. */
  lemma SpanStartsWithOnlyBeginField(t: seq<Token>, p: int)
    requires 0 <= p < |t| && t[p].signal == BeginField && FirstEndField(t, p) < |t|
    ensures NoBeginFieldIn(t, p + 1, FirstEndField(t, p)) ==>
      LastOf(FieldTokens(t, p), BeginField) == Some(t[p])
  {
    var e := FirstEndField(t, p);
    if NoBeginFieldIn(t, p + 1, e) {
      var span := FieldTokens(t, p);
      forall k | 1 <= k < |span|
        ensures span[k].signal != BeginField
      {
        assert span[k] == t[p + k];
        if p + k == e {
          assert t[e].signal == EndField;
        }
      }
      OnlyFirstBeginField(span);
    }
  }

  /** A primitive field exists exactly when the cursor is on a BEGIN_FIELD,
      the first END_FIELD comes before the last token and an ENCODING token
      lies in between. */
  lemma PrimitiveFieldAccepted(t: seq<Token>, p: int)
    requires 0 <= p < |t|
    ensures ProcessPrimitiveSpec(t, p).result.Ok? <==>
      t[p].signal == BeginField && FirstEndField(t, p) < |t| - 1 && LastOf(FieldTokens(t, p), Encoding).Some?
  {
    HandleYieldsSpan(PrimitiveHandler, t, p, EmptyBuilders);
    if t[p].signal == BeginField && FirstEndField(t, p) < |t| - 1 {
      PrimitiveSpanAccepted(FieldTokens(t, p));
    }
  }

  /** A primitive field is required exactly when its BEGIN_FIELD's presence
      is REQUIRED, takes the last ENCODING's type, and its character encoding
      is the last non-empty one among the ENCODING tokens (unset if none). */
  lemma PrimitiveFieldContents(t: seq<Token>, p: int)
    requires 0 <= p < |t|
    requires ProcessPrimitiveSpec(t, p).result.Ok?
    ensures t[p].signal == BeginField && FirstEndField(t, p) < |t| - 1
    ensures ProcessPrimitiveSpec(t, p).cursor == FirstEndField(t, p)
    ensures LastOf(FieldTokens(t, p), Encoding).Some?
    ensures var f := ProcessPrimitiveSpec(t, p).result.value.primitive;
      && f.primitiveType == LastOf(FieldTokens(t, p), Encoding).value.encoding.primitiveType
      && f.characterEncoding == LastCharacterEncoding(FieldTokens(t, p))
      && (NoBeginFieldIn(t, p + 1, FirstEndField(t, p)) ==>
            f.name == t[p].name && (f.isRequired <==> t[p].encoding.presence == Required))
  {
    HandleYieldsSpan(PrimitiveHandler, t, p, EmptyBuilders);
    PrimitiveSpanContents(FieldTokens(t, p));
    SpanStartsWithOnlyBeginField(t, p);
  }

  /** An enumeration field whose tokens hold no second BEGIN_FIELD is named
      after its BEGIN_FIELD and maps each VALID_VALUE's name to its constant;
      a missing or out-of-range constant, a name given twice and an
      enumeration without values are each refused. */
  lemma EnumFieldContents(t: seq<Token>, p: int)
    requires 0 <= p < |t|
    requires t[p].signal == BeginField && FirstEndField(t, p) < |t| - 1
    requires NoBeginFieldIn(t, p + 1, FirstEndField(t, p))
    ensures ProcessEnumSpec(t, p).result ==
      match ValidValueEntries(FieldTokens(t, p))
      case Throws(x) => Throws(x)
      case Ok(es) =>
        if !DistinctKeys(es) then Throws(IllegalArgument(DuplicateKey))
        else if es == [] then Throws(IllegalState("Must have at least one enum option"))
        else Ok(Enum(EnumSbeField(t[p].name, ToMap(es))))
  {
    HandleYieldsSpan(EnumHandler, t, p, EmptyBuilders);
    EnumSpan(FieldTokens(t, p));
    SpanStartsWithOnlyBeginField(t, p);
  }

  /** An enumeration field that is produced starts on a BEGIN_FIELD whose
      first END_FIELD comes before the last token, and leaves the cursor there. */
  lemma EnumFieldAccepted(t: seq<Token>, p: int)
    requires 0 <= p < |t|
    requires ProcessEnumSpec(t, p).result.Ok?
    ensures t[p].signal == BeginField && FirstEndField(t, p) < |t| - 1
    ensures ProcessEnumSpec(t, p).cursor == FirstEndField(t, p)
  {
    HandleYieldsSpan(EnumHandler, t, p, EmptyBuilders);
  }

  /** A field that is produced comes from the BEGIN_FIELD under the cursor,
      leaves the cursor on its first END_FIELD, and (unless a second
      BEGIN_FIELD lies in between) carries that BEGIN_FIELD's name. */
  lemma FieldSpan(t: seq<Token>, p: int)
    requires 0 <= p < |t|
    ensures var s := ProcessFieldSpec(t, p);
      s.result.Ok? ==>
        && t[p].signal == BeginField
        && s.cursor == FirstEndField(t, p) < |t| - 1
        && (NoBeginFieldIn(t, p + 1, s.cursor) ==> FieldName(s.result.value) == t[p].name)
  {
    var e := FirstEndField(t, p);
    var s := ProcessFieldSpec(t, p);
    if s.result.Ok? {
      if t[p].componentTokenCount == PrimitiveTokenCount {
        assert s == ProcessPrimitiveSpec(t, p);
        PrimitiveFieldAccepted(t, p);
        PrimitiveFieldContents(t, p);
      } else {
        assert s == ProcessEnumSpec(t, p);
        EnumFieldAccepted(t, p);
        if NoBeginFieldIn(t, p + 1, e) {
          EnumFieldContents(t, p);
        }
      }
    }
  }

  // ---------------------------------------------------------------------
  // Walking a message
  // ---------------------------------------------------------------------

  function Prepend(fs: seq<SbeField>, r: Result<seq<SbeField>>): Result<seq<SbeField>> {
    match r
    case Throws(e) => Throws(e)
    case Ok(rest) => Ok(fs + rest)
  }

  /** Prepending a field and then a prefix prepends their concatenation. */
  lemma PrependTwice(fs: seq<SbeField>, f: SbeField, r: Result<seq<SbeField>>)
    ensures Prepend(fs, Prepend([f], r)) == Prepend(fs + [f], r)
  {
    if r.Ok? {
      assert fs + ([f] + r.value) == (fs + [f]) + r.value;
    }
  }

  /** The loop of `generateFields` with the cursor on `c`: advance, stop at
      END_MESSAGE or at the last token, and process a field at every
      BEGIN_FIELD the cursor lands on. */
  function Walk(t: seq<Token>, c: int): (r: Result<seq<SbeField>>)
    requires -1 <= c < |t|
    ensures r.Ok? ==> |r.value| <= |t| - 1 - c
    decreases |t| - c
  {
    if c >= |t| - 1 then Ok([])
    else if t[c + 1].signal == EndMessage then Ok([])
    else if t[c + 1].signal != BeginField then Walk(t, c + 1)
    else
      var s := ProcessFieldSpec(t, c + 1);
      match s.result
      case Throws(e) => Throws(e)
      case Ok(f) => Prepend([f], Walk(t, s.cursor))
  }

  /** `generateFields`: select the message, then walk its tokens. */
  function GenerateFieldsSpec(ir: Ir, opts: IrOptions): (r: Result<seq<SbeField>>)
    ensures SelectMessage(ir, SelectorOf(opts)).Throws? ==>
      r == Throws(SelectMessage(ir, SelectorOf(opts)).exception)
    ensures r.Ok? ==>
      SelectMessage(ir, SelectorOf(opts)).Ok? && |r.value| <= |SelectMessage(ir, SelectorOf(opts)).value|
  {
    match SelectMessage(ir, SelectorOf(opts))
    case Throws(e) => Throws(e)
    case Ok(tokens) => Walk(tokens, -1)
  }

  /** Fields do not nest: from a BEGIN_FIELD up to its first END_FIELD there
      is neither another BEGIN_FIELD nor an END_MESSAGE. */
  ghost predicate FlatFields(t: seq<Token>) {
    forall i, j :: 0 <= i < j < |t| && t[i].signal == BeginField && j <= FirstEndField(t, i) ==>
      t[j].signal != BeginField && t[j].signal != EndMessage
  }

  /** The names of the BEGIN_FIELD tokens from position `i` up to the first
      END_MESSAGE (or the end), in order. */
  function BeginFieldNamesFrom(t: seq<Token>, i: int): seq<string>
    requires 0 <= i <= |t|
    decreases |t| - i
  {
    if i == |t| || t[i].signal == EndMessage then []
    else (if t[i].signal == BeginField then [t[i].name] else []) + BeginFieldNamesFrom(t, i + 1)
  }

  /** Tokens that are neither BEGIN_FIELD nor END_MESSAGE add no name. */
  lemma {:induction false} SkipFieldBody(t: seq<Token>, a: int, b: int)
    requires 0 <= a <= b <= |t|
    requires forall k :: a <= k < b ==> t[k].signal != BeginField && t[k].signal != EndMessage
    ensures BeginFieldNamesFrom(t, a) == BeginFieldNamesFrom(t, b)
    decreases b - a
  {
    if a < b {
      SkipFieldBody(t, a + 1, b);
    }
  }

  /** From the BEGIN_FIELD at `p` up to and including its first END_FIELD,
      no later token is a BEGIN_FIELD or an END_MESSAGE. */
  ghost predicate FieldBodyClean(t: seq<Token>, p: int)
    requires 0 <= p < |t|
  {
    forall k :: p < k <= FirstEndField(t, p) && k < |t| ==>
      t[k].signal != BeginField && t[k].signal != EndMessage
  }

  /** Every field of `t` is clean. */
  ghost predicate CleanFields(t: seq<Token>) {
    forall p :: 0 <= p < |t| && t[p].signal == BeginField ==> FieldBodyClean(t, p)
  }

  /** In a token sequence whose fields do not nest, every field is clean. */
  lemma FlatFieldsAreClean(t: seq<Token>)
    requires FlatFields(t)
    ensures CleanFields(t)
  {
    forall p | 0 <= p < |t| && t[p].signal == BeginField
      ensures FieldBodyClean(t, p)
    {
    }
  }

  /** A clean field holds no second BEGIN_FIELD. */
  lemma CleanFieldHasOneBeginField(t: seq<Token>, p: int)
    requires 0 <= p < |t| && FieldBodyClean(t, p)
    ensures NoBeginFieldIn(t, p + 1, FirstEndField(t, p))
  {
  }

  /** The names from a clean BEGIN_FIELD on are its own name followed by
      the names after its first END_FIELD. */
  lemma NamesOverCleanField(t: seq<Token>, p: int)
    requires 0 <= p < |t| && t[p].signal == BeginField && FirstEndField(t, p) < |t| && FieldBodyClean(t, p)
    ensures BeginFieldNamesFrom(t, p) == [t[p].name] + BeginFieldNamesFrom(t, FirstEndField(t, p) + 1)
  {
    var e := FirstEndField(t, p);
    assert forall k :: p + 1 <= k < e + 1 ==> t[k].signal != BeginField && t[k].signal != EndMessage;
    SkipFieldBody(t, p + 1, e + 1);
    assert BeginFieldNamesFrom(t, p) == [t[p].name] + BeginFieldNamesFrom(t, p + 1);
  }

  /** One step of the walk over a clean BEGIN_FIELD: the field produced is
      named after it and the walk resumes on that field's END_FIELD, whose
      body adds no names. */
  lemma WalkOverField(t: seq<Token>, p: int)
    requires 0 <= p < |t| && t[p].signal == BeginField && FieldBodyClean(t, p)
    requires ProcessFieldSpec(t, p).result.Ok?
    ensures var s := ProcessFieldSpec(t, p);
      && s.cursor < |t| - 1
      && FieldName(s.result.value) == t[p].name
      && BeginFieldNamesFrom(t, p) == [t[p].name] + BeginFieldNamesFrom(t, s.cursor + 1)
      && Walk(t, p - 1) == Prepend([s.result.value], Walk(t, s.cursor))
  {
    FieldSpan(t, p);
    CleanFieldHasOneBeginField(t, p);
    NamesOverCleanField(t, p);
  }

  /** When fields do not nest, the walk yields one field per BEGIN_FIELD
      before the first END_MESSAGE, in token order, each named after it. */
  lemma {:induction false} WalkYieldsBeginFields(t: seq<Token>, c: int)
    requires -1 <= c < |t| && CleanFields(t)
    requires Walk(t, c).Ok?
    ensures FieldNames(Walk(t, c).value) == BeginFieldNamesFrom(t, c + 1)
    decreases |t| - c, 1
  {
    if c < |t| - 1 && t[c + 1].signal != EndMessage {
      if t[c + 1].signal != BeginField {
        WalkYieldsBeginFields(t, c + 1);
      } else {
        WalkYieldsField(t, c);
      }
    }
  }

  /** The step of `WalkYieldsBeginFields` where the walk lands on a BEGIN_FIELD. */
  lemma {:induction false} WalkYieldsField(t: seq<Token>, c: int)
    requires -1 <= c < |t| - 1 && t[c + 1].signal == BeginField && CleanFields(t)
    requires Walk(t, c).Ok?
    ensures FieldNames(Walk(t, c).value) == BeginFieldNamesFrom(t, c + 1)
    decreases |t| - c, 0
  {
    var s := ProcessFieldSpec(t, c + 1);
    WalkOverField(t, c + 1);
    WalkYieldsBeginFields(t, s.cursor);
    FieldNamesCons(s.result.value, Walk(t, s.cursor).value);
  }

  /** The names of a field followed by more fields. */
  lemma FieldNamesCons(f: SbeField, fs: seq<SbeField>)
    ensures FieldNames([f] + fs) == [FieldName(f)] + FieldNames(fs)
  {
    assert ([f] + fs)[1..] == fs;
  }

  /** `generateFields` returns one field per BEGIN_FIELD of the selected
      message before its first END_MESSAGE, in token order. */
  lemma OneFieldPerBeginField(ir: Ir, opts: IrOptions)
    requires GenerateFieldsSpec(ir, opts).Ok?
    ensures SelectMessage(ir, SelectorOf(opts)).Ok?
    ensures FlatFields(SelectMessage(ir, SelectorOf(opts)).value) ==>
      FieldNames(GenerateFieldsSpec(ir, opts).value) ==
        BeginFieldNamesFrom(SelectMessage(ir, SelectorOf(opts)).value, 0)
  {
    var tokens := SelectMessage(ir, SelectorOf(opts)).value;
    if FlatFields(tokens) {
      FlatFieldsAreClean(tokens);
      WalkYieldsBeginFields(tokens, -1);
    }
  }

  // ---------------------------------------------------------------------
  // The generator's methods over a token iterator
  // ---------------------------------------------------------------------

  /** `processPrimitive`: register the primitive consumers, handle the
      field's tokens, build the field. */
  method ProcessPrimitive(it: TokenIterator) returns (r: Result<SbeField>)
    requires it.Valid() && 0 <= it.idx
    modifies it
    ensures it.Valid()
    ensures Step(r, it.idx) == ProcessPrimitiveSpec(it.tokens, old(it.idx))
  {
    var handler := BuildPrimitiveHandler();
    var handled := HandleIterator(handler, it, EmptyBuilders);
    r := PrimitiveFromHandled(handled);
  }

  /** `processEnum`: register the enumeration consumers, handle the field's
      tokens, build the values map and then the field. */
  method ProcessEnum(it: TokenIterator) returns (r: Result<SbeField>)
    requires it.Valid() && 0 <= it.idx
    modifies it
    ensures it.Valid()
    ensures Step(r, it.idx) == ProcessEnumSpec(it.tokens, old(it.idx))
  {
    var handler := BuildEnumHandler();
    var handled := HandleIterator(handler, it, EmptyBuilders);
    r := EnumFromHandled(handled);
  }

  /** `processField`: classify the field under the cursor and process it. */
  method ProcessField(it: TokenIterator) returns (r: Result<SbeField>)
    requires it.Valid() && 0 <= it.idx
    modifies it
    ensures it.Valid()
    ensures Step(r, it.idx) == ProcessFieldSpec(it.tokens, old(it.idx))
  {
    var current := it.Current();
    if current.componentTokenCount == PrimitiveTokenCount {
      r := ProcessPrimitive(it);
      return;
    }
    if it.idx + 1 >= |it.tokens| {
      // `peekNext` reads past the last token.
      return Throws(IndexOutOfBounds(it.idx + 1));
    }
    var next := it.PeekNext();
    if next.signal == BeginEnum {
      r := ProcessEnum(it);
      return;
    }
    r := Throws(IllegalArgument("Do not recognize type of field: " + current.name));
  }

  /** `generateFields`: every field of the selected message, in order. */
  method GenerateFields(ir: Ir, opts: IrOptions) returns (r: Result<seq<SbeField>>)
    ensures r == GenerateFieldsSpec(ir, opts)
  {
    var selected := SelectMessage(ir, SelectorOf(opts));
    if selected.Throws? {
      return Throws(selected.exception);
    }
    var it := new TokenIterator(selected.value);
    var fields: seq<SbeField> := [];
    assert Walk(it.tokens, -1).Ok? ==> [] + Walk(it.tokens, -1).value == Walk(it.tokens, -1).value;
    while true
      invariant it.Valid() && it.tokens == selected.value
      invariant Walk(it.tokens, -1) == Prepend(fields, Walk(it.tokens, it.idx))
      decreases |it.tokens| - it.idx
    {
      var more := it.HasNext();
      if !more {
        assert fields + [] == fields;
        break;
      }
      ghost var c := it.idx;
      var token := it.Next();
      if token.signal == EndMessage {
        assert Walk(it.tokens, c) == Ok([]);
        assert fields + [] == fields;
        break;
      }
      var current := it.Current();
      if current.signal == BeginField {
        var field := ProcessField(it);
        if field.Throws? {
          return Throws(field.exception);
        }
        PrependTwice(fields, field.value, Walk(it.tokens, it.idx));
        fields := fields + [field.value];
      }
    }
    r := Ok(fields);
  }
}
