/** The parts of the SBE intermediate representation (IR) that the schema
    code reads: tokens, their encodings, and the messages of an IR. */
module SbeIr {
  import opened Results

  /** The signal a token carries (the SBE `Signal` enumeration). */
  datatype Signal =
    | BeginMessage | EndMessage
    | BeginComposite | EndComposite
    | BeginField | EndField
    | BeginGroup | EndGroup
    | BeginEnum | ValidValue | EndEnum
    | BeginSet | Choice | EndSet
    | BeginVarData | EndVarData
    | Encoding

  datatype Presence = Required | Optional | Constant

  datatype PrimitiveType =
    | Char | Int8 | Int16 | Int32 | Int64
    | UInt8 | UInt16 | UInt32 | UInt64
    | Float | Double

  /** A token's encoding. A null character encoding or constant value is `None`;
      `constValue` is the constant's `longValue()`. */
  datatype TokenEncoding = TokenEncoding(
    presence: Presence,
    primitiveType: PrimitiveType,
    characterEncoding: Option<string>,
    constValue: Option<int>)

  datatype Token = Token(
    signal: Signal,
    name: string,
    id: int,
    componentTokenCount: int,
    encoding: TokenEncoding)

  /** One message of an IR: its id and its flat token list. */
  datatype Message = Message(id: int, tokens: seq<Token>)

  /** An IR: the header tokens and the messages in the IR's iteration order. */
  datatype Ir = Ir(header: seq<Token>, messages: seq<Message>)

  /** `Ir.getMessage(id)`: the tokens of the message with that id, if any. */
  function GetMessage(messages: seq<Message>, id: int): (r: Option<seq<Token>>)
    ensures r.None? <==> forall k :: 0 <= k < |messages| ==> messages[k].id != id
    ensures r.Some? ==> exists k :: 0 <= k < |messages| && messages[k].id == id && messages[k].tokens == r.value
  {
    if messages == [] then None
    else if messages[0].id == id then Some(messages[0].tokens)
    else
      var r := GetMessage(messages[1..], id);
      assert forall k :: 1 <= k < |messages| ==> messages[k] == messages[1..][k - 1];
      r
  }

  /** True when a message is non-empty and its first token has the given name. */
  predicate NamedMessage(m: Message, name: string) {
    |m.tokens| > 0 && m.tokens[0].name == name
  }

  /** The messages whose first token carries `name`, in iteration order
      (the stream filter of the schema code). */
  function MessagesNamed(messages: seq<Message>, name: string): (r: seq<Message>)
    ensures |r| <= |messages|
    ensures forall m :: m in r <==> m in messages && NamedMessage(m, name)
  {
    if messages == [] then []
    else if NamedMessage(messages[0], name) then [messages[0]] + MessagesNamed(messages[1..], name)
    else MessagesNamed(messages[1..], name)
  }
}
