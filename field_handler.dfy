/** The signal-to-consumer table that turns the tokens of one field
    (BEGIN_FIELD up to its END_FIELD) into calls on field builders. */
module FieldHandlers {
  import opened Results
  import opened SbeIr
  import EnumSbeFields
  import opened TokenIterators

  /** The consumers the field generator registers, one constructor per
      lambda of the schema code (and the shared do-nothing consumer). */
  datatype Consumer =
    | DoNothing
    | SetPrimitiveNameAndPresence  // a primitive field's BEGIN_FIELD consumer
    | SetPrimitiveEncoding         // a primitive field's ENCODING consumer
    | SetEnumName                  // an enumeration field's BEGIN_FIELD consumer
    | PutEnumValue                 // an enumeration field's VALID_VALUE consumer

  /** The primitive field's AutoValue builder; unset properties are `None`. */
  datatype PrimitiveBuilder = PrimitiveBuilder(
    name: Option<string>,
    isRequired: Option<bool>,
    primitiveType: Option<PrimitiveType>,
    characterEncoding: Option<string>)

  /** Everything the consumers write into: the primitive field builder, the
      enumeration field builder and the builder of the enumeration's values
      (its entries in insertion order). */
  datatype Builders = Builders(
    primitive: PrimitiveBuilder,
    enumField: EnumSbeFields.Builder,
    enumValues: seq<(string, int)>)

  const EmptyBuilders: Builders :=
    Builders(PrimitiveBuilder(None, None, None, None), EnumSbeFields.NewBuilder(), [])

  /** The range of a Java `int`, checked by `Math.toIntExact`. */
  const IntMin: int := -0x8000_0000
  const IntMax: int := 0x7fff_ffff

  predicate InIntRange(v: int) {
    IntMin <= v <= IntMax
  }

  /** Runs one consumer on one token. Only the VALID_VALUE consumer can
      throw: on a null constant, or on one `toIntExact` refuses. */
  function Accept(c: Consumer, token: Token, b: Builders): (r: Result<Builders>)
    ensures r.Throws? <==>
      (c == PutEnumValue && (token.encoding.constValue.None? || !InIntRange(token.encoding.constValue.value)))
  {
    match c
    case DoNothing => Ok(b)
    case SetPrimitiveNameAndPresence =>
      Ok(b.(primitive := b.primitive.(name := Some(token.name),
                                      isRequired := Some(token.encoding.presence == Required))))
    case SetPrimitiveEncoding =>
      var withType := b.primitive.(primitiveType := Some(token.encoding.primitiveType));
      var ce := token.encoding.characterEncoding;
      Ok(b.(primitive := if ce.Some? && ce.value != "" then withType.(characterEncoding := ce) else withType))
    case SetEnumName =>
      Ok(b.(enumField := EnumSbeFields.SetName(b.enumField, token.name)))
    case PutEnumValue =>
      match token.encoding.constValue
      case None => Throws(NullPointer)
      case Some(v) =>
        if InIntRange(v) then Ok(b.(enumValues := b.enumValues + [(token.name, v)]))
        else Throws(Arithmetic("integer overflow"))
  }

  /** Each consumer writes into its own builder only, and the VALID_VALUE
      consumer appends exactly one entry. */
  lemma ConsumersWriteOwnBuilder(c: Consumer, token: Token, b: Builders)
    requires Accept(c, token, b).Ok?
    ensures var b1 := Accept(c, token, b).value;
      && (c == DoNothing ==> b1 == b)
      && (c != PutEnumValue ==> b1.enumValues == b.enumValues)
      && (c != SetEnumName ==> b1.enumField == b.enumField)
      && (c == SetEnumName || c == PutEnumValue ==> b1.primitive == b.primitive)
      && (c == PutEnumValue ==>
            b1.enumValues == b.enumValues + [(token.name, token.encoding.constValue.value)])
  {
  }

  /** A built handler: an immutable copy of the builder's table. */
  datatype FieldHandler = FieldHandler(tokenHandlers: map<Signal, Consumer>)

  /** `handleToken`: the consumer registered for the token's signal, or none. */
  function HandleToken(h: FieldHandler, token: Token, b: Builders): (r: Result<Builders>)
    ensures token.signal !in h.tokenHandlers ==> r == Ok(b)
    ensures r.Throws? ==> token.signal in h.tokenHandlers && h.tokenHandlers[token.signal] == PutEnumValue
  {
    Accept(if token.signal in h.tokenHandlers then h.tokenHandlers[token.signal] else DoNothing, token, b)
  }

  /** Hands each token of `ts` to its consumer, in order, stopping at the
      first consumer that throws. */
  function HandleAll(h: FieldHandler, ts: seq<Token>, b: Builders): Result<Builders>
    decreases |ts|
  {
    if ts == [] then Ok(b)
    else
      match HandleToken(h, ts[0], b)
      case Throws(e) => Throws(e)
      case Ok(b') => HandleAll(h, ts[1..], b')
  }

  /** Tokens whose signal has no consumer leave the builders as they are. */
  lemma {:induction false} UnhandledTokensIgnored(h: FieldHandler, ts: seq<Token>, b: Builders)
    requires forall k :: 0 <= k < |ts| ==> ts[k].signal !in h.tokenHandlers
    ensures HandleAll(h, ts, b) == Ok(b)
    decreases |ts|
  {
    if ts != [] {
      UnhandledTokensIgnored(h, ts[1..], b);
    }
  }

  /** The position of the first END_FIELD at or after `i` (or `|t|`). */
  function FirstEndField(t: seq<Token>, i: nat): (e: nat)
    requires i <= |t|
    ensures i <= e <= |t|
    ensures e < |t| ==> t[e].signal == EndField
    ensures forall k :: i <= k < e ==> t[k].signal != EndField
    decreases |t| - i
  {
    if i == |t| then |t|
    else if t[i].signal == EndField then i
    else FirstEndField(t, i + 1)
  }

  /** A result together with where the cursor was left. */
  datatype Step<+T> = Step(result: Result<T>, cursor: int)

  const NeverFoundEndField: string := "Never found END_FIELD signal."

  /** The do-while loop of `handleIterator`, entered with the cursor on `i`
      and another token after it. */
  function Loop(h: FieldHandler, t: seq<Token>, i: int, b: Builders): (s: Step<Builders>)
    requires 0 <= i < |t| - 1
    ensures i <= s.cursor < |t|
    decreases |t| - i
  {
    match HandleToken(h, t[i], b)
    case Throws(e) => Step(Throws(e), i)
    case Ok(b') =>
      if t[i].signal == EndField then Step(Ok(b'), i)
      else if i + 1 < |t| - 1 then Loop(h, t, i + 1, b')
      else Step(Throws(IllegalArgument(NeverFoundEndField)), i + 1)
  }

  /** `handleIterator` on tokens `t` with the cursor on `i`. */
  function Handle(h: FieldHandler, t: seq<Token>, i: int, b: Builders): (s: Step<Builders>)
    requires 0 <= i < |t|
    ensures i <= s.cursor < |t|
  {
    if t[i].signal != BeginField then Step(Throws(IllegalArgument("Not beginning of field.")), i)
    else if i >= |t| - 1 then Step(Throws(IllegalArgument("Field does not have other tokens")), i)
    else Loop(h, t, i, b)
  }

  /** What the loop does when no END_FIELD comes before the last token. */
  function NotFound(r: Result<Builders>): Result<Builders> {
    if r.Ok? then Throws(IllegalArgument(NeverFoundEndField)) else r
  }

  /** The loop hands every token from `i` up to and including the first
      END_FIELD to its consumer once, in order, and stops on that END_FIELD;
      it never looks at the last token, so when the first END_FIELD is the
      last token (or there is none) it throws once the other tokens are handled. */
  lemma {:induction false} LoopFollowsFold(h: FieldHandler, t: seq<Token>, i: int, b: Builders)
    requires 0 <= i < |t| - 1
    ensures var s := Loop(h, t, i, b); var e := FirstEndField(t, i);
      if e < |t| - 1 then
        s.result == HandleAll(h, t[i..e + 1], b) && (s.result.Ok? ==> s.cursor == e)
      else
        s.result == NotFound(HandleAll(h, t[i..|t| - 1], b))
    decreases |t| - i
  {
    var e := FirstEndField(t, i);
    var bound := if e < |t| - 1 then e + 1 else |t| - 1;
    var span := t[i..bound];
    assert span[0] == t[i];
    match HandleToken(h, t[i], b)
    case Throws(x) =>
    case Ok(b') =>
      if t[i].signal == EndField {
        assert span[1..] == [];
      } else {
        assert e == FirstEndField(t, i + 1);
        assert span[1..] == t[i + 1..bound];
        if i + 1 < |t| - 1 {
          LoopFollowsFold(h, t, i + 1, b');
        } else {
          assert span[1..] == [];
        }
      }
  }

  /** `handleIterator` succeeds exactly when the cursor is on a BEGIN_FIELD,
      the field's first END_FIELD comes before the last token, and every
      consumer accepts its token; it then leaves the cursor on that END_FIELD
      and the builders are what the consumers made of the tokens in between,
      taken once each and in order. */
  lemma HandleStopsOnFirstEndField(h: FieldHandler, t: seq<Token>, i: int, b: Builders)
    requires 0 <= i < |t|
    ensures var s := Handle(h, t, i, b); var e := FirstEndField(t, i);
      && (s.result.Ok? <==> t[i].signal == BeginField && e < |t| - 1 && HandleAll(h, t[i..e + 1], b).Ok?)
      && (t[i].signal == BeginField && e < |t| - 1 ==> s.result == HandleAll(h, t[i..e + 1], b))
      && (s.result.Ok? ==> s.cursor == e)
      && (t[i].signal == BeginField && i < |t| - 1 && e >= |t| - 1 && HandleAll(h, t[i..|t| - 1], b).Ok?
          ==> s.result == Throws(IllegalArgument(NeverFoundEndField)))
  {
    if t[i].signal == BeginField && i < |t| - 1 {
      LoopFollowsFold(h, t, i, b);
    }
  }

  /** The tokens of the field that starts at `i`: from there up to and
      including the first END_FIELD. */
  function FieldTokens(t: seq<Token>, i: nat): (span: seq<Token>)
    requires i < |t| && FirstEndField(t, i) < |t|
    ensures |span| > 0 && span[0] == t[i]
  {
    t[i..FirstEndField(t, i) + 1]
  }

  /** The part of `HandleStopsOnFirstEndField` a field generator needs: a
      handled field spans its BEGIN_FIELD to its first END_FIELD. */
  lemma HandleYieldsSpan(h: FieldHandler, t: seq<Token>, i: int, b: Builders)
    requires 0 <= i < |t|
    ensures Handle(h, t, i, b).result.Ok? ==>
      t[i].signal == BeginField && FirstEndField(t, i) < |t| - 1 && Handle(h, t, i, b).cursor == FirstEndField(t, i)
    ensures t[i].signal == BeginField && FirstEndField(t, i) < |t| - 1 ==>
      Handle(h, t, i, b).result == HandleAll(h, FieldTokens(t, i), b)
  {
    HandleStopsOnFirstEndField(h, t, i, b);
  }

  /** `handleIterator` itself, over a token iterator. */
  method HandleIterator(h: FieldHandler, it: TokenIterator, b: Builders) returns (r: Result<Builders>)
    requires it.Valid() && 0 <= it.idx
    modifies it
    ensures it.Valid()
    ensures Step(r, it.idx) == Handle(h, it.tokens, old(it.idx), b)
  {
    var first := it.Current();
    if first.signal != BeginField {
      return Throws(IllegalArgument("Not beginning of field."));
    }
    var more := it.HasNext();
    if !more {
      return Throws(IllegalArgument("Field does not have other tokens"));
    }
    var acc := b;
    while true
      invariant it.Valid() && old(it.idx) <= it.idx < |it.tokens| - 1
      invariant Handle(h, it.tokens, old(it.idx), b) == Loop(h, it.tokens, it.idx, acc)
      decreases |it.tokens| - it.idx
    {
      var token := it.Current();
      var handled := HandleToken(h, token, acc);
      if handled.Throws? {
        return handled;
      }
      acc := handled.value;
      if token.signal == EndField {
        return Ok(acc);
      }
      token := it.Next();
      more := it.HasNext();
      if !more {
        return Throws(IllegalArgument(NeverFoundEndField));
      }
    }
  }

  /** The Java name of a signal, used in the builder's error message. */
  function SignalName(s: Signal): string {
    match s
    case BeginMessage => "BEGIN_MESSAGE"
    case EndMessage => "END_MESSAGE"
    case BeginComposite => "BEGIN_COMPOSITE"
    case EndComposite => "END_COMPOSITE"
    case BeginField => "BEGIN_FIELD"
    case EndField => "END_FIELD"
    case BeginGroup => "BEGIN_GROUP"
    case EndGroup => "END_GROUP"
    case BeginEnum => "BEGIN_ENUM"
    case ValidValue => "VALID_VALUE"
    case EndEnum => "END_ENUM"
    case BeginSet => "BEGIN_SET"
    case Choice => "CHOICE"
    case EndSet => "END_SET"
    case BeginVarData => "BEGIN_VAR_DATA"
    case EndVarData => "END_VAR_DATA"
    case Encoding => "ENCODING"
  }

  /** `FieldHandler.Builder`: a mutable table from signals to consumers. */
  class FieldHandlerBuilder {
    var tokenHandlers: map<Signal, Consumer>

    constructor ()
      ensures tokenHandlers == map[]
    {
      tokenHandlers := map[];
    }

    /** `withTokenHandler` (behind `onBeginField`, `onEncoding`, ...): refuses
        a second consumer for a signal, otherwise adds exactly this entry. */
    method WithTokenHandler(signal: Signal, c: Consumer) returns (r: Outcome)
      modifies this
      ensures signal in old(tokenHandlers) ==>
        r == Fail(IllegalArgument("Another handler already registered for: " + SignalName(signal)))
        && tokenHandlers == old(tokenHandlers)
      ensures signal !in old(tokenHandlers) ==>
        r == Pass && tokenHandlers == old(tokenHandlers)[signal := c]
    {
      if signal in tokenHandlers {
        return Fail(IllegalArgument("Another handler already registered for: " + SignalName(signal)));
      }
      tokenHandlers := tokenHandlers[signal := c];
      r := Pass;
    }

    /** An immutable handler holding a copy of the table. */
    method Build() returns (h: FieldHandler)
      ensures h.tokenHandlers == tokenHandlers
    {
      h := FieldHandler(tokenHandlers);
    }
  }
}
