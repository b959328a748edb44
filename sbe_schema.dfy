/** The SBE schema entry point: options that pick one message of an IR,
    their validation against an IR, and creating a schema from an IR. */
module SbeSchemas {
  import opened Results
  import opened SbeIr

  /** Options for picking a message: -1 and "" mean "not given". */
  datatype IrOptions = IrOptions(messageId: int, messageName: string)

  /** The options builder; `builder()` starts it at the defaults. */
  datatype IrOptionsBuilder = IrOptionsBuilder(messageId: int, messageName: string)

  function NewBuilder(): (b: IrOptionsBuilder)
    ensures b.messageId == -1 && b.messageName == ""
  {
    IrOptionsBuilder(-1, "")
  }

  function SetMessageId(b: IrOptionsBuilder, value: int): IrOptionsBuilder {
    b.(messageId := value)
  }

  function SetMessageName(b: IrOptionsBuilder, value: string): IrOptionsBuilder {
    b.(messageName := value)
  }

  /** The identifier rule of `build()`: the id is set (greater than -1)
      exclusive-or the name is set (non-empty), or both are at their defaults. */
  predicate IdentifierValid(messageId: int, messageName: string) {
    ((messageId > -1) != (messageName != "")) || (messageId == -1 && messageName == "")
  }

  function Build(b: IrOptionsBuilder): (r: Result<IrOptions>)
    ensures r.Ok? ==> r.value == IrOptions(b.messageId, b.messageName)
    ensures r.Throws? ==> r.exception == IllegalState("At most one of messageId or messageName can be set")
  {
    if IdentifierValid(b.messageId, b.messageName) then Ok(IrOptions(b.messageId, b.messageName))
    else Throws(IllegalState("At most one of messageId or messageName can be set"))
  }

  /** `build()` accepts a builder exactly when it names at most one
      identifier, and it refuses an id below -1 left without a name. */
  lemma BuildAcceptsAtMostOneIdentifier(b: IrOptionsBuilder)
    ensures Build(b).Ok? <==>
      if b.messageName == "" then b.messageId >= -1 else b.messageId <= -1
    ensures b.messageId > -1 && b.messageName != "" ==> Build(b).Throws?
  {
  }

  /** `IrOptions.DEFAULT`: the built default builder. */
  function DefaultOptions(): (r: IrOptions)
    ensures Build(NewBuilder()) == Ok(r)
    ensures r.messageId == -1 && r.messageName == ""
  {
    IrOptions(-1, "")
  }

  /** True when the options are at both defaults (the single-message case). */
  predicate SingleMessageOptions(opts: IrOptions) {
    opts.messageId == -1 && opts.messageName == ""
  }

  /** `validateIrOptions` as written. With default options the id is not
      greater than -1, so the name branch also runs, comparing against "". */
  function ValidateIrOptions(ir: Ir, opts: IrOptions): (r: Outcome)
    ensures r.Fail? ==> r.exception.IllegalArgument?
    ensures SingleMessageOptions(opts) && |ir.messages| != 1 ==> r.Fail?
    ensures opts.messageId > -1 ==>
      (r.Pass? <==> exists k :: 0 <= k < |ir.messages| && ir.messages[k].id == opts.messageId)
    ensures opts.messageId <= -1 && (!SingleMessageOptions(opts) || |ir.messages| == 1) ==>
      (r.Pass? <==> |MessagesNamed(ir.messages, opts.messageName)| == 1)
  {
    if SingleMessageOptions(opts) && |ir.messages| != 1 then
      Fail(IllegalArgument(SingleMessageExpected(|ir.messages|)))
    else if opts.messageId > -1 then
      if GetMessage(ir.messages, opts.messageId).Some? then Pass
      else Fail(IllegalArgument("There is no message with the id " + IntDecimal(opts.messageId)))
    else NameCheck(ir, opts.messageName)
  }

  /** The message of the single-message check, with the count formatted in. */
  function SingleMessageExpected(count: nat): string {
    "irOptions assumes single message schema, but there are " + NatDecimal(count) + " messages"
  }

  /** The name branch of the validation: exactly one matching message. */
  function NameCheck(ir: Ir, name: string): (r: Outcome)
    ensures r.Pass? <==> |MessagesNamed(ir.messages, name)| == 1
  {
    var matching := MessagesNamed(ir.messages, name);
    if |matching| == 0 then Fail(IllegalArgument("No message with name " + name))
    else if |matching| != 1 then Fail(IllegalArgument("More than one message has the name " + name))
    else Pass
  }

  /** As written, default options accept a one-message IR only when that
      message's first token is named "". */
  lemma ValidateDefaultAsWritten(ir: Ir)
    ensures ValidateIrOptions(ir, DefaultOptions()).Pass? <==>
      |ir.messages| == 1 && NamedMessage(ir.messages[0], "")
  {
    if |ir.messages| == 1 {
      var m := ir.messages[0];
      assert ir.messages[1..] == [];
      assert MessagesNamed(ir.messages, "") == if NamedMessage(m, "") then [m] else [];
    }
  }

  /** The input that shows the defect: one message named "Car", default options. */
  lemma DefaultOptionsRejectNamedSingleMessage()
    ensures var car := Token(BeginMessage, "Car", 1, 0, TokenEncoding(Required, Int32, None, None));
      ValidateIrOptions(Ir([], [Message(1, [car])]), DefaultOptions()).Fail?
  {
    var car := Token(BeginMessage, "Car", 1, 0, TokenEncoding(Required, Int32, None, None));
    ValidateDefaultAsWritten(Ir([], [Message(1, [car])]));
  }

  /** `validateIrOptions` as its options document it: default options mean
      "the IR has a single message", an id set means "a message with that id
      exists", a name set means "exactly one message has that name". */
  function ValidateIrOptionsIntended(ir: Ir, opts: IrOptions): (r: Outcome)
    ensures r.Fail? ==> r.exception.IllegalArgument?
  {
    if SingleMessageOptions(opts) then
      if |ir.messages| == 1 then Pass
      else Fail(IllegalArgument(SingleMessageExpected(|ir.messages|)))
    else if opts.messageId > -1 then
      if GetMessage(ir.messages, opts.messageId).Some? then Pass
      else Fail(IllegalArgument("There is no message with the id " + IntDecimal(opts.messageId)))
    else NameCheck(ir, opts.messageName)
  }

  /** The corrected validation accepts default options exactly on one-message
      IRs, and agrees with the code as written whenever an identifier is set. */
  lemma ValidateIntendedAgrees(ir: Ir, opts: IrOptions)
    ensures SingleMessageOptions(opts) ==>
      (ValidateIrOptionsIntended(ir, opts).Pass? <==> |ir.messages| == 1)
    ensures !SingleMessageOptions(opts) ==>
      ValidateIrOptionsIntended(ir, opts) == ValidateIrOptions(ir, opts)
  {
  }

  /** A schema keeps a copy of the IR (here: its header tokens) and the options. */
  datatype SbeSchema = SbeSchema(irHeader: seq<Token>, irOptions: IrOptions)

  /** `fromIr`: validate first, copy only if the options are valid. */
  function FromIr(ir: Ir, opts: IrOptions): (r: Result<SbeSchema>)
    ensures r.Ok? <==> ValidateIrOptions(ir, opts).Pass?
    ensures r.Throws? ==> Fail(r.exception) == ValidateIrOptions(ir, opts)
    ensures r.Ok? ==> r.value.irOptions == opts && r.value.irHeader == ir.header
  {
    match ValidateIrOptions(ir, opts)
    case Fail(e) => Throws(e)
    case Pass => Ok(SbeSchema(ir.header, opts))
  }

  /** `fromIr` over the corrected validation: with default options any
      one-message IR gives a schema; with an identifier set it is `fromIr`. */
  function FromIrIntended(ir: Ir, opts: IrOptions): (r: Result<SbeSchema>)
    ensures r.Ok? <==> ValidateIrOptionsIntended(ir, opts).Pass?
    ensures r.Throws? ==> Fail(r.exception) == ValidateIrOptionsIntended(ir, opts)
    ensures r.Ok? ==> r.value.irOptions == opts && r.value.irHeader == ir.header
    ensures SingleMessageOptions(opts) ==> (r.Ok? <==> |ir.messages| == 1)
    ensures !SingleMessageOptions(opts) ==> r == FromIr(ir, opts)
  {
    match ValidateIrOptionsIntended(ir, opts)
    case Fail(e) => Throws(e)
    case Pass => Ok(SbeSchema(ir.header, opts))
  }
}
