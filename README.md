# Beam SBE field generation, bit-field flags and the Samza splittable-DoFn operator

This project models, in Dafny, three pieces of Apache Beam.

1. **SBE schema fields** (`sdks/java/extensions/sbe`). `IrFieldGenerator` walks the tokens of one
   message of an SBE intermediate representation (IR) and produces one `SbeField` per
   BEGIN_FIELD token:
   - a primitive field when the field spans three tokens;
   - an enumeration field when an enumeration follows.

   It relies on:
   - the `TokenIterator` class (a cursor over the token list);
   - the `FieldHandler` class (a map from signal to consumer, filled in by a builder that refuses
     duplicate registrations; `handleIterator` feeds tokens to the consumers up to the first
     END_FIELD);
   - `SbeSchema.IrOptions`, which selects the message (`validateIrOptions`, `fromIr`, the builder
     and its identifier check);
   - `EnumSbeField` with its builder.

2. **`BitFieldFlagType`** (`sdks/java/core`). It assigns one bit of a 64-bit `long` to each flag,
   counting with a `byte`. It answers the mask of one flag or of a collection of flags.

3. **`SplittableParDoProcessKeyedElementsOp`** (`runners/samza`). It brackets each element and
   each fired timer in a runner bundle. When the input watermark moves, it fires the ready timers
   in one bundle, and it advances and emits the output watermark only when the new watermark is
   later.

How the Java maps onto Dafny:
- Immutable values become datatypes.
- Objects the Java mutates become classes:
  - `TokenIterators.TokenIterator`;
  - `FieldHandlers.FieldHandlerBuilder`;
  - `SamzaSdfOp.SplittableParDoProcessKeyedElementsOp`, whose calls into the runner and the timer
    store are recorded in an event `trace`.
- Every loop of the source is a method with invariants, proved against a specification function:
  - `handleIterator`'s do-while;
  - `generateFields`' while loop;
  - the loop in `create`;
  - the loop in `getWithAllFlags`;
  - the timer loop in `processWatermark`.
- Java exceptions are values of `Results.Result` / `Results.Outcome`. They carry the exception
  class and the message text. A `checkArgument` without a message becomes `IllegalArgument("")`.

Modelled behaviour worth knowing:
- `handleIterator` stops when `hasNext()` fails, before it handles the current token. So an
  END_FIELD that is the **last** token of the message is never seen, and the field fails with
  "Never found END_FIELD signal." The model keeps this: a field is accepted only when its first
  END_FIELD lies before the last token.
- The generator compares `IrOptions.messageId()` and `messageName()` with `null`. `SbeSchema`'s
  `IrOptions` holds an `int` and a `String`, with defaults `-1` and `""`. The model reads the
  options through `IrFieldGenerator.SelectorOf`: an id above `-1` or a non-empty name counts as
  set. Selection then agrees with the corrected validation (see Findings) for every option value,
  and with `validateIrOptions` as written whenever an id or a name is set.
- In `processWatermark`, the Samza operator hands the input watermark to the timer store with no
  watermark hold. The output watermark moves only forward, and it moves to exactly the input
  watermark.

## Model

| member | source | states |
|---|---|---|
| SbeIr.GetMessage | sdks/java/extensions/sbe/src/main/java/org/apache/beam/sdk/extensions/sbe/IrFieldGenerator.java:105-106 | `ir.getMessage(id)`: absent exactly when no message has that id; otherwise the tokens of a message with that id |
| SbeIr.MessagesNamed | sdks/java/extensions/sbe/src/main/java/org/apache/beam/sdk/extensions/sbe/SbeSchema.java:119-122 | the message filter: a message is kept iff its token list is non-empty and its first token carries the name |
| EnumSbeFields.IsRequired | sdks/java/extensions/sbe/src/main/java/org/apache/beam/sdk/extensions/sbe/EnumSbeField.java:38-41 | an enumeration field is always required |
| EnumSbeFields.AsBeamField | sdks/java/extensions/sbe/src/main/java/org/apache/beam/sdk/extensions/sbe/EnumSbeField.java:45-48 | the Beam field keeps the name and is an enumeration logical type over exactly the field's values |
| EnumSbeFields.Build | sdks/java/extensions/sbe/src/main/java/org/apache/beam/sdk/extensions/sbe/EnumSbeField.java:62-68 | builds iff the name and values are set and the values are non-empty; the built field carries both; every failure is an IllegalState |
| EnumSbeFields.BuildThenAsBeamField | sdks/java/extensions/sbe/src/main/java/org/apache/beam/sdk/extensions/sbe/EnumSbeField.java:45-68 | name then values then build: an empty map fails with "Must have at least one enum option"; any other map gives the enumeration Beam field of those values |
| SbeSchemas.NewBuilder | sdks/java/extensions/sbe/src/main/java/org/apache/beam/sdk/extensions/sbe/SbeSchema.java:152-154 | a new builder starts with id -1 and name "" |
| SbeSchemas.Build | sdks/java/extensions/sbe/src/main/java/org/apache/beam/sdk/extensions/sbe/SbeSchema.java:168-177 | the built options carry the builder's id and name; a failure is the IllegalState "At most one of messageId or messageName can be set" |
| SbeSchemas.BuildAcceptsAtMostOneIdentifier | sdks/java/extensions/sbe/src/main/java/org/apache/beam/sdk/extensions/sbe/SbeSchema.java:171-174 | the XOR-or-both-default check, in closed form: with an empty name any id >= -1 passes; with a name only ids <= -1 pass; setting both id and name always fails |
| SbeSchemas.DefaultOptions | sdks/java/extensions/sbe/src/main/java/org/apache/beam/sdk/extensions/sbe/SbeSchema.java:146 | `DEFAULT` is what building a fresh builder gives, id -1 and name "" |
| SbeSchemas.ValidateIrOptions | sdks/java/extensions/sbe/src/main/java/org/apache/beam/sdk/extensions/sbe/SbeSchema.java:106-130 | `validateIrOptions` as written: every failure is an IllegalArgument; single-message options with other than one message fail; with an id above -1 it passes iff some message has that id; otherwise, once the single-message check is passed, it passes iff exactly one message has the name |
| SbeSchemas.NameCheck | sdks/java/extensions/sbe/src/main/java/org/apache/beam/sdk/extensions/sbe/SbeSchema.java:119-128 | the name branch passes iff exactly one message has the name |
| SbeSchemas.ValidateDefaultAsWritten | sdks/java/extensions/sbe/src/main/java/org/apache/beam/sdk/extensions/sbe/SbeSchema.java:107-129 | with the default options, validation passes iff the IR has exactly one message and that message is named "" |
| SbeSchemas.DefaultOptionsRejectNamedSingleMessage | sdks/java/extensions/sbe/src/main/java/org/apache/beam/sdk/extensions/sbe/SbeSchema.java:107-129 | a one-message IR whose message is named "Car" is rejected under the default options |
| SbeSchemas.ValidateIrOptionsIntended | sdks/java/extensions/sbe/src/main/java/org/apache/beam/sdk/extensions/sbe/SbeSchema.java:107-129 | corrected validation; failures are IllegalArgument |
| SbeSchemas.ValidateIntendedAgrees | sdks/java/extensions/sbe/src/main/java/org/apache/beam/sdk/extensions/sbe/SbeSchema.java:107-129 | the corrected validation accepts the default options iff the IR has exactly one message, and agrees with the code as written for every other option value |
| SbeSchemas.FromIr | sdks/java/extensions/sbe/src/main/java/org/apache/beam/sdk/extensions/sbe/SbeSchema.java:88-103 | `fromIr` as written: it succeeds iff `validateIrOptions` as written passes, fails with that validation's exception otherwise, and keeps the options and the IR header |
| SbeSchemas.FromIrIntended | sdks/java/extensions/sbe/src/main/java/org/apache/beam/sdk/extensions/sbe/SbeSchema.java:88-103 | `fromIr` over the corrected validation: with the default options it succeeds iff the IR has exactly one message; for any other options it is `fromIr` as written; it keeps the options and the IR header |
| TokenIterators.TokenIterator.constructor | sdks/java/extensions/sbe/src/main/java/org/apache/beam/sdk/extensions/sbe/IrFieldGenerator.java:258-261 | the iterator holds the tokens and starts before the first one (index -1) |
| TokenIterators.TokenIterator.HasNext | sdks/java/extensions/sbe/src/main/java/org/apache/beam/sdk/extensions/sbe/IrFieldGenerator.java:263-266 | true iff a token follows the cursor |
| TokenIterators.TokenIterator.Next | sdks/java/extensions/sbe/src/main/java/org/apache/beam/sdk/extensions/sbe/IrFieldGenerator.java:268-272 | advances the cursor by one and returns the token there |
| TokenIterators.TokenIterator.Current | sdks/java/extensions/sbe/src/main/java/org/apache/beam/sdk/extensions/sbe/IrFieldGenerator.java:274-277 | returns the token under the cursor |
| TokenIterators.TokenIterator.PeekNext | sdks/java/extensions/sbe/src/main/java/org/apache/beam/sdk/extensions/sbe/IrFieldGenerator.java:279-282 | returns the token after the cursor without moving |
| FieldHandlers.FieldHandlerBuilder.constructor | sdks/java/extensions/sbe/src/main/java/org/apache/beam/sdk/extensions/sbe/IrFieldGenerator.java:211-213 | a new builder has no handlers |
| FieldHandlers.FieldHandlerBuilder.WithTokenHandler | sdks/java/extensions/sbe/src/main/java/org/apache/beam/sdk/extensions/sbe/IrFieldGenerator.java:239-245 | a second registration for a signal fails with "Another handler already registered for: " and the signal name, and leaves the map unchanged; otherwise the map gains exactly that entry |
| FieldHandlers.FieldHandlerBuilder.Build | sdks/java/extensions/sbe/src/main/java/org/apache/beam/sdk/extensions/sbe/IrFieldGenerator.java:247-249 | the handler holds exactly the registered map |
| FieldHandlers.UnhandledTokensIgnored | sdks/java/extensions/sbe/src/main/java/org/apache/beam/sdk/extensions/sbe/IrFieldGenerator.java:202-205 | tokens whose signal has no handler fall through to DO_NOTHING and change nothing |
| FieldHandlers.HandleToken | sdks/java/extensions/sbe/src/main/java/org/apache/beam/sdk/extensions/sbe/IrFieldGenerator.java:202-205 | `handleToken`: a signal with no handler leaves the builders as they were; a failure can only come from a registered VALID_VALUE consumer |
| FieldHandlers.Accept | sdks/java/extensions/sbe/src/main/java/org/apache/beam/sdk/extensions/sbe/IrFieldGenerator.java:130-143 | a consumer call fails exactly for the VALID_VALUE consumer on a token whose constant is missing or outside `int` range |
| FieldHandlers.ConsumersWriteOwnBuilder | sdks/java/extensions/sbe/src/main/java/org/apache/beam/sdk/extensions/sbe/IrFieldGenerator.java:156-162 | each consumer writes only its own builder: DO_NOTHING changes nothing; only the VALID_VALUE consumer touches the values, appending the token's name and constant; only the name consumer touches the enumeration builder; the enumeration consumers leave the primitive builder alone |
| FieldHandlers.FirstEndField | sdks/java/extensions/sbe/src/main/java/org/apache/beam/sdk/extensions/sbe/IrFieldGenerator.java:192-194 | the first END_FIELD at or after a position, or the length when there is none; no END_FIELD lies before it |
| FieldHandlers.Loop | sdks/java/extensions/sbe/src/main/java/org/apache/beam/sdk/extensions/sbe/IrFieldGenerator.java:188-199 | the do-while of `handleIterator` as a function; the cursor stays within the tokens |
| FieldHandlers.Handle | sdks/java/extensions/sbe/src/main/java/org/apache/beam/sdk/extensions/sbe/IrFieldGenerator.java:184-200 | `handleIterator` with its two argument checks; the cursor never moves back and stays within the tokens |
| FieldHandlers.LoopFollowsFold | sdks/java/extensions/sbe/src/main/java/org/apache/beam/sdk/extensions/sbe/IrFieldGenerator.java:188-199 | the loop handles exactly the tokens up to and including the first END_FIELD, which it stops on, when that END_FIELD comes before the last token; otherwise it handles all but the last token and then fails with "Never found END_FIELD signal." |
| FieldHandlers.HandleStopsOnFirstEndField | sdks/java/extensions/sbe/src/main/java/org/apache/beam/sdk/extensions/sbe/IrFieldGenerator.java:184-200 | success iff the cursor is on BEGIN_FIELD, the first END_FIELD lies before the last token and handling that span succeeds; the result is the fold over that span and the cursor ends on that END_FIELD; a field that reaches the last token with no END_FIELD fails with "Never found END_FIELD signal." |
| FieldHandlers.FieldTokens | sdks/java/extensions/sbe/src/main/java/org/apache/beam/sdk/extensions/sbe/IrFieldGenerator.java:188-197 | the tokens of one field, from its BEGIN_FIELD to its first END_FIELD; never empty and starting with the BEGIN_FIELD |
| FieldHandlers.HandleYieldsSpan | sdks/java/extensions/sbe/src/main/java/org/apache/beam/sdk/extensions/sbe/IrFieldGenerator.java:184-200 | a successful `handleIterator` started on a BEGIN_FIELD whose END_FIELD is not the last token, and its result is the fold of the handlers over that field's tokens |
| FieldHandlers.HandleIterator | sdks/java/extensions/sbe/src/main/java/org/apache/beam/sdk/extensions/sbe/IrFieldGenerator.java:184-200 | the imperative do-while over the iterator computes `Handle`: same result, cursor left where `Handle` says |
| IrFieldGenerator.FieldNames | sdks/java/extensions/sbe/src/main/java/org/apache/beam/sdk/extensions/sbe/IrFieldGenerator.java:59-70 | the names of the generated fields: one per field, the i-th name being the i-th field's |
| IrFieldGenerator.SelectorOf | sdks/java/extensions/sbe/src/main/java/org/apache/beam/sdk/extensions/sbe/IrFieldGenerator.java:77-90 | an id counts as given iff it is above -1, a name iff it is non-empty, and the given value is carried over |
| IrFieldGenerator.SelectMessage | sdks/java/extensions/sbe/src/main/java/org/apache/beam/sdk/extensions/sbe/IrFieldGenerator.java:74-110 | `getIteratorForMessage`'s three branches: with no identifier, succeed iff there is exactly one message, and take it; by name, succeed iff exactly one message has that name; by id, succeed iff some message has that id, and the message is the one `ir.getMessage(id)` returns; the result is always one of the IR's messages; failures are IllegalArgument |
| IrFieldGenerator.ValidationMatchesSelection | sdks/java/extensions/sbe/src/main/java/org/apache/beam/sdk/extensions/sbe/IrFieldGenerator.java:74-110 | for options that the builder accepts, the corrected `validateIrOptions` passes iff the generator finds its message; when an id or a name is set, the same holds for `validateIrOptions` as written |
| IrFieldGenerator.BuildPrimitive | sdks/java/extensions/sbe/src/main/java/org/apache/beam/sdk/extensions/sbe/IrFieldGenerator.java:148 | the primitive field builds iff name, presence and type were set; the character encoding stays optional |
| IrFieldGenerator.ToMap | sdks/java/extensions/sbe/src/main/java/org/apache/beam/sdk/extensions/sbe/IrFieldGenerator.java:154-162 | the map's keys are the entry names, and with distinct names each name maps to its value |
| IrFieldGenerator.ValuesMap | sdks/java/extensions/sbe/src/main/java/org/apache/beam/sdk/extensions/sbe/IrFieldGenerator.java:168 | `values.build()` succeeds iff no name repeats; the map is empty iff there were no entries |
| IrFieldGenerator.BuildPrimitiveHandler | sdks/java/extensions/sbe/src/main/java/org/apache/beam/sdk/extensions/sbe/IrFieldGenerator.java:128-145 | the three registrations of `processPrimitive` build the primitive handler |
| IrFieldGenerator.BuildEnumHandler | sdks/java/extensions/sbe/src/main/java/org/apache/beam/sdk/extensions/sbe/IrFieldGenerator.java:156-165 | the five registrations of `processEnum` build the enumeration handler |
| IrFieldGenerator.ProcessPrimitiveSpec | sdks/java/extensions/sbe/src/main/java/org/apache/beam/sdk/extensions/sbe/IrFieldGenerator.java:125-149 | `processPrimitive`: the cursor never moves back, and a success is a primitive field |
| IrFieldGenerator.ProcessEnumSpec | sdks/java/extensions/sbe/src/main/java/org/apache/beam/sdk/extensions/sbe/IrFieldGenerator.java:152-170 | `processEnum`: the cursor never moves back, and a success is an enumeration field |
| IrFieldGenerator.ProcessFieldSpec | sdks/java/extensions/sbe/src/main/java/org/apache/beam/sdk/extensions/sbe/IrFieldGenerator.java:112-122 | a three-token field gives a primitive; otherwise a following BEGIN_ENUM gives an enumeration; a field on the last token fails as `peekNext` reads past the end; anything else fails with "Do not recognize type of field: " and the name |
| IrFieldGenerator.LastOf | sdks/java/extensions/sbe/src/main/java/org/apache/beam/sdk/extensions/sbe/IrFieldGenerator.java:128-145 | the last token with a signal, whose consumer call is the one that sticks: absent iff no token has it; otherwise no later token has it |
| IrFieldGenerator.LastCharacterEncoding | sdks/java/extensions/sbe/src/main/java/org/apache/beam/sdk/extensions/sbe/IrFieldGenerator.java:136-142 | the character encoding that sticks: it comes from an ENCODING token and is non-empty; none iff every ENCODING token has a null or empty one |
| IrFieldGenerator.PrimitiveHandlerFold | sdks/java/extensions/sbe/src/main/java/org/apache/beam/sdk/extensions/sbe/IrFieldGenerator.java:128-146 | running the primitive consumers over tokens never fails and sets the name and presence from the last BEGIN_FIELD, the type from the last ENCODING and the last non-empty character encoding |
| IrFieldGenerator.Filter | sdks/java/extensions/sbe/src/main/java/org/apache/beam/sdk/extensions/sbe/IrFieldGenerator.java:160-162 | the tokens with a given signal, in order |
| IrFieldGenerator.FilterMembers | sdks/java/extensions/sbe/src/main/java/org/apache/beam/sdk/extensions/sbe/IrFieldGenerator.java:160-162 | a token is kept iff it is in the list and carries the signal |
| IrFieldGenerator.ValidValueEntries | sdks/java/extensions/sbe/src/main/java/org/apache/beam/sdk/extensions/sbe/IrFieldGenerator.java:160-162 | the entries put for the VALID_VALUE tokens: succeeds iff each has a constant within `int` range (`toIntExact`), with one entry per token in order, carrying its name and value |
| IrFieldGenerator.EnumHandlerFold | sdks/java/extensions/sbe/src/main/java/org/apache/beam/sdk/extensions/sbe/IrFieldGenerator.java:156-166 | running the enumeration consumers takes the name from the last BEGIN_FIELD and appends the VALID_VALUE entries, or fails as the first bad constant does |
| IrFieldGenerator.EnumHandlerFoldAccepted | sdks/java/extensions/sbe/src/main/java/org/apache/beam/sdk/extensions/sbe/IrFieldGenerator.java:156-166 | the same fold, in the case where the first token is accepted |
| IrFieldGenerator.OnlyFirstBeginField | sdks/java/extensions/sbe/src/main/java/org/apache/beam/sdk/extensions/sbe/IrFieldGenerator.java:130-135 | in a span with one BEGIN_FIELD, at its start, the last BEGIN_FIELD is that first token |
| IrFieldGenerator.PrimitiveSpan | sdks/java/extensions/sbe/src/main/java/org/apache/beam/sdk/extensions/sbe/IrFieldGenerator.java:125-149 | a primitive field span builds iff it has an ENCODING token; the field takes name and presence from the last BEGIN_FIELD and type and encoding from the ENCODING tokens; otherwise "Missing required properties" |
| IrFieldGenerator.PrimitiveSpanAccepted | sdks/java/extensions/sbe/src/main/java/org/apache/beam/sdk/extensions/sbe/IrFieldGenerator.java:125-149 | a primitive span is accepted iff it holds an ENCODING token |
| IrFieldGenerator.PrimitiveSpanContents | sdks/java/extensions/sbe/src/main/java/org/apache/beam/sdk/extensions/sbe/IrFieldGenerator.java:130-143 | an accepted primitive span's field: name and required-iff-REQUIRED from the last BEGIN_FIELD, type from the last ENCODING, character encoding as it sticks |
| IrFieldGenerator.EnumSpan | sdks/java/extensions/sbe/src/main/java/org/apache/beam/sdk/extensions/sbe/IrFieldGenerator.java:152-170 | an enumeration field span: a bad constant fails as it does; a repeated value name fails on the map build; no values fails with "Must have at least one enum option"; otherwise the field has the BEGIN_FIELD's name and the map of the values |
| IrFieldGenerator.SpanStartsWithOnlyBeginField | sdks/java/extensions/sbe/src/main/java/org/apache/beam/sdk/extensions/sbe/IrFieldGenerator.java:130-135 | when the field body has no other BEGIN_FIELD, the name-setting token is the field's own BEGIN_FIELD |
| IrFieldGenerator.PrimitiveFieldAccepted | sdks/java/extensions/sbe/src/main/java/org/apache/beam/sdk/extensions/sbe/IrFieldGenerator.java:125-149 | `processPrimitive` succeeds iff the cursor is on a BEGIN_FIELD whose first END_FIELD is not the last token and whose tokens include an ENCODING |
| IrFieldGenerator.PrimitiveFieldContents | sdks/java/extensions/sbe/src/main/java/org/apache/beam/sdk/extensions/sbe/IrFieldGenerator.java:125-149 | a successful `processPrimitive` leaves the cursor on the END_FIELD; the field's type and encoding come from its ENCODING tokens; for a field with one BEGIN_FIELD, name and presence come from that token |
| IrFieldGenerator.EnumFieldContents | sdks/java/extensions/sbe/src/main/java/org/apache/beam/sdk/extensions/sbe/IrFieldGenerator.java:152-170 | `processEnum` on a well-delimited field gives exactly the enumeration of its VALID_VALUE tokens under the field's name, or the matching exception |
| IrFieldGenerator.EnumFieldAccepted | sdks/java/extensions/sbe/src/main/java/org/apache/beam/sdk/extensions/sbe/IrFieldGenerator.java:152-170 | a successful `processEnum` started on a BEGIN_FIELD and leaves the cursor on that field's first END_FIELD, before the last token |
| IrFieldGenerator.FieldSpan | sdks/java/extensions/sbe/src/main/java/org/apache/beam/sdk/extensions/sbe/IrFieldGenerator.java:112-170 | a successful `processField` started on a BEGIN_FIELD, ends on its first END_FIELD, and names the field after that BEGIN_FIELD when the body holds no other |
| IrFieldGenerator.SkipFieldBody | sdks/java/extensions/sbe/src/main/java/org/apache/beam/sdk/extensions/sbe/IrFieldGenerator.java:63-67 | tokens that are neither BEGIN_FIELD nor END_MESSAGE contribute no field |
| IrFieldGenerator.FlatFieldsAreClean | sdks/java/extensions/sbe/src/main/java/org/apache/beam/sdk/extensions/sbe/IrFieldGenerator.java:63-67 | non-nesting fields are clean one by one |
| IrFieldGenerator.CleanFieldHasOneBeginField | sdks/java/extensions/sbe/src/main/java/org/apache/beam/sdk/extensions/sbe/IrFieldGenerator.java:63-67 | a clean field has no other BEGIN_FIELD before its END_FIELD |
| IrFieldGenerator.NamesOverCleanField | sdks/java/extensions/sbe/src/main/java/org/apache/beam/sdk/extensions/sbe/IrFieldGenerator.java:63-67 | the BEGIN_FIELD names from a clean field on are its name followed by those after its END_FIELD |
| IrFieldGenerator.WalkOverField | sdks/java/extensions/sbe/src/main/java/org/apache/beam/sdk/extensions/sbe/IrFieldGenerator.java:63-66 | one loop turn on a clean BEGIN_FIELD: the field is named after it, and the walk resumes after its END_FIELD, before the last token |
| IrFieldGenerator.WalkYieldsBeginFields | sdks/java/extensions/sbe/src/main/java/org/apache/beam/sdk/extensions/sbe/IrFieldGenerator.java:59-70 | a successful walk over clean fields yields the names of the BEGIN_FIELD tokens before END_MESSAGE, in order |
| IrFieldGenerator.WalkYieldsField | sdks/java/extensions/sbe/src/main/java/org/apache/beam/sdk/extensions/sbe/IrFieldGenerator.java:63-66 | the same, for a walk that lands on a BEGIN_FIELD |
| IrFieldGenerator.OneFieldPerBeginField | sdks/java/extensions/sbe/src/main/java/org/apache/beam/sdk/extensions/sbe/IrFieldGenerator.java:59-70 | successful generation selected a message; if its fields do not nest, the fields are one per BEGIN_FIELD before END_MESSAGE, in order and named after them |
| IrFieldGenerator.ProcessPrimitive | sdks/java/extensions/sbe/src/main/java/org/apache/beam/sdk/extensions/sbe/IrFieldGenerator.java:125-149 | the method computes `ProcessPrimitiveSpec`, including where it leaves the iterator |
| IrFieldGenerator.ProcessEnum | sdks/java/extensions/sbe/src/main/java/org/apache/beam/sdk/extensions/sbe/IrFieldGenerator.java:152-170 | the method computes `ProcessEnumSpec`, including where it leaves the iterator |
| IrFieldGenerator.ProcessField | sdks/java/extensions/sbe/src/main/java/org/apache/beam/sdk/extensions/sbe/IrFieldGenerator.java:112-122 | the method computes `ProcessFieldSpec` |
| IrFieldGenerator.Walk | sdks/java/extensions/sbe/src/main/java/org/apache/beam/sdk/extensions/sbe/IrFieldGenerator.java:59-70 | the loop of `generateFields` as a function: it yields at most one field per remaining token |
| IrFieldGenerator.GenerateFieldsSpec | sdks/java/extensions/sbe/src/main/java/org/apache/beam/sdk/extensions/sbe/IrFieldGenerator.java:59-70 | generation fails with the selection's exception when no message is selected; a success selected a message and yields at most one field per token of it |
| IrFieldGenerator.GenerateFields | sdks/java/extensions/sbe/src/main/java/org/apache/beam/sdk/extensions/sbe/IrFieldGenerator.java:59-70 | the while loop computes the specification of generation (message selection, then the walk), whose shape `OneFieldPerBeginField` states |
| BitFieldFlags.ByteCounterWraps | sdks/java/core/src/main/java/org/apache/beam/sdk/schemas/logicaltypes/BitFieldFlagType.java:54-57 | the `byte` counter after n increments is n modulo 256 |
| BitFieldFlags.Assigned | sdks/java/core/src/main/java/org/apache/beam/sdk/schemas/logicaltypes/BitFieldFlagType.java:53-58 | the map the loop of `create` builds has at most one entry per list item |
| BitFieldFlags.AssignBits | sdks/java/core/src/main/java/org/apache/beam/sdk/schemas/logicaltypes/BitFieldFlagType.java:53-58 | the loop of `create` builds exactly `Assigned`, the counter tracking the number of items seen |
| BitFieldFlags.CreateSpec | sdks/java/core/src/main/java/org/apache/beam/sdk/schemas/logicaltypes/BitFieldFlagType.java:52-63 | `create` succeeds iff between 1 and 64 flags are assigned; every failure is an IllegalArgument; an empty list gives a bare IllegalArgument |
| BitFieldFlags.LastIndexOf | sdks/java/core/src/main/java/org/apache/beam/sdk/schemas/logicaltypes/BitFieldFlagType.java:55-58 | the last position of a flag in the list |
| BitFieldFlags.AssignedIsLastOccurrence | sdks/java/core/src/main/java/org/apache/beam/sdk/schemas/logicaltypes/BitFieldFlagType.java:53-58 | the map holds exactly the listed flags, and each maps to the counter at its last occurrence (a later `put` overwrites) |
| BitFieldFlags.CreateAccepts | sdks/java/core/src/main/java/org/apache/beam/sdk/schemas/logicaltypes/BitFieldFlagType.java:52-63 | `create` succeeds iff there are between 1 and 64 distinct flags; no flags gives a bare IllegalArgument; more than 64 gives "BitFieldFlag only supports up to 64 flags"; the type maps each flag to its last index |
| BitFieldFlags.DistinctFlagsGetTheirIndex | sdks/java/core/src/main/java/org/apache/beam/sdk/schemas/logicaltypes/BitFieldFlagType.java:45-58 | with distinct flags, the i-th flag owns bit i, counting from the rightmost |
| BitFieldFlags.DistinctCount | sdks/java/core/src/main/java/org/apache/beam/sdk/schemas/logicaltypes/BitFieldFlagType.java:60-61 | distinct flags count as many map entries as list items |
| BitFieldFlags.Create | sdks/java/core/src/main/java/org/apache/beam/sdk/schemas/logicaltypes/BitFieldFlagType.java:52-63 | `create` computes `CreateSpec`, through `AssignBits` and the two argument checks, which `CreateAccepts` characterises |
| BitFieldFlags.ShiftDistance | sdks/java/core/src/main/java/org/apache/beam/sdk/schemas/logicaltypes/BitFieldFlagType.java:77 | `1L << b` shifts by the low six bits of the byte, below 64 |
| BitFieldFlags.ShiftByCount | sdks/java/core/src/main/java/org/apache/beam/sdk/schemas/logicaltypes/BitFieldFlagType.java:54-57 | the n-th counter value shifts by n, for n below 64 |
| BitFieldFlags.BitOf | sdks/java/core/src/main/java/org/apache/beam/sdk/schemas/logicaltypes/BitFieldFlagType.java:77 | the bit a registered flag sets lies in the 64-bit long |
| BitFieldFlags.GetWithFlag | sdks/java/core/src/main/java/org/apache/beam/sdk/schemas/logicaltypes/BitFieldFlagType.java:70-78 | succeeds iff the flag is registered (otherwise a bare IllegalArgument), with exactly one bit set, the flag's |
| BitFieldFlags.GetWithAllFlags | sdks/java/core/src/main/java/org/apache/beam/sdk/schemas/logicaltypes/BitFieldFlagType.java:80-91 | the OR loop computes the specification of `getWithAllFlags` |
| BitFieldFlags.AllFlagsSpec | sdks/java/core/src/main/java/org/apache/beam/sdk/schemas/logicaltypes/BitFieldFlagType.java:80-91 | a failure is a bare IllegalArgument; a success means every listed flag is registered |
| BitFieldFlags.FailureSticks | sdks/java/core/src/main/java/org/apache/beam/sdk/schemas/logicaltypes/BitFieldFlagType.java:86-88 | once a flag is unknown, the whole call fails with that exception |
| BitFieldFlags.AllFlagsBits | sdks/java/core/src/main/java/org/apache/beam/sdk/schemas/logicaltypes/BitFieldFlagType.java:80-91 | succeeds iff every listed flag is registered; the mask is then exactly the bits of the listed flags; a failure is a bare IllegalArgument |
| BitFieldFlags.SameFlagsSameMask | sdks/java/core/src/main/java/org/apache/beam/sdk/schemas/logicaltypes/BitFieldFlagType.java:80-91 | order and repetition of the listed flags do not change the outcome |
| BitFieldFlags.AllFlagsIsUnionOfSingles | sdks/java/core/src/main/java/org/apache/beam/sdk/schemas/logicaltypes/BitFieldFlagType.java:80-91 | a bit is set iff it is set by `getWithFlag` of some listed flag |
| BitFieldFlags.HighBitsClear | sdks/java/core/src/main/java/org/apache/beam/sdk/schemas/logicaltypes/BitFieldFlagType.java:32-33 | with distinct flags, no bit at or beyond the number of flags is ever set |
| BitFieldFlags.RepeatedFlagsShareABit | sdks/java/core/src/main/java/org/apache/beam/sdk/schemas/logicaltypes/BitFieldFlagType.java:54-61 | "a" followed by 64 copies of "b" is accepted, and both flags get the same mask |
| BitFieldFlags.RepeatedFlagsCounters | sdks/java/core/src/main/java/org/apache/beam/sdk/schemas/logicaltypes/BitFieldFlagType.java:54-58 | in that list "a" gets counter 0 and "b" counter 64 |
| BitFieldFlags.CreateChecked | sdks/java/core/src/main/java/org/apache/beam/sdk/schemas/logicaltypes/BitFieldFlagType.java:52-63 | corrected `create`: bounds the number of list entries; agrees with the original for at most 64 entries |
| BitFieldFlags.CheckedFlagsOwnDistinctBits | sdks/java/core/src/main/java/org/apache/beam/sdk/schemas/logicaltypes/BitFieldFlagType.java:29-33 | under the corrected bound, distinct flags have distinct masks |
| SamzaSdfOp.TimersWorkItem | runners/samza/src/main/java/org/apache/beam/runners/samza/runtime/SplittableParDoProcessKeyedElementsOp.java:244-246 | the work item for a fired timer: the key, exactly that one timer, no elements |
| SamzaSdfOp.FiredTimers | runners/samza/src/main/java/org/apache/beam/runners/samza/runtime/SplittableParDoProcessKeyedElementsOp.java:219-221 | one runner call per ready timer |
| SamzaSdfOp.FiredTimersFireEachOnce | runners/samza/src/main/java/org/apache/beam/runners/samza/runtime/SplittableParDoProcessKeyedElementsOp.java:219-221 | the timers fired are the ready timers, each once and in order |
| SamzaSdfOp.TimerBundle | runners/samza/src/main/java/org/apache/beam/runners/samza/runtime/SplittableParDoProcessKeyedElementsOp.java:217-223 | no ready timers: no bundle at all; otherwise one start, the fired timers, one finish |
| SamzaSdfOp.NextOutput | runners/samza/src/main/java/org/apache/beam/runners/samza/runtime/SplittableParDoProcessKeyedElementsOp.java:225-229 | after a watermark the output watermark is set, never moves back, and is either the new watermark or unchanged |
| SamzaSdfOp.EmissionsConcat | runners/samza/src/main/java/org/apache/beam/runners/samza/runtime/SplittableParDoProcessKeyedElementsOp.java:228 | the watermarks emitted over two runs of calls are those of each, in order |
| SamzaSdfOp.NoEmissionsWithoutEmit | runners/samza/src/main/java/org/apache/beam/runners/samza/runtime/SplittableParDoProcessKeyedElementsOp.java:228 | calls other than `emitWatermark` emit nothing |
| SamzaSdfOp.WatermarkEvents | runners/samza/src/main/java/org/apache/beam/runners/samza/runtime/SplittableParDoProcessKeyedElementsOp.java:212-230 | the calls of `processWatermark`: two fixed calls, a bundle of two plus one per ready timer when any is ready, and two more when the watermark advances; an output watermark is set only on an advance, and only to the new watermark |
| SamzaSdfOp.WatermarkEventsOrder | runners/samza/src/main/java/org/apache/beam/runners/samza/runtime/SplittableParDoProcessKeyedElementsOp.java:213-230 | `processWatermark` sets the input watermark, then polls timers, then runs the timer bundle, and emits the watermark iff it is later than the output watermark (or none is held) |
| SamzaSdfOp.WatermarkStepKeepsEmissions | runners/samza/src/main/java/org/apache/beam/runners/samza/runtime/SplittableParDoProcessKeyedElementsOp.java:225-229 | emitted watermarks stay strictly increasing, and the last one emitted is the held output watermark |
| SamzaSdfOp.SplittableParDoProcessKeyedElementsOp.constructor | runners/samza/src/main/java/org/apache/beam/runners/samza/runtime/SplittableParDoProcessKeyedElementsOp.java:89-105 | a fresh operator holds no input or output watermark and has made no calls |
| SamzaSdfOp.SplittableParDoProcessKeyedElementsOp.ProcessElement | runners/samza/src/main/java/org/apache/beam/runners/samza/runtime/SplittableParDoProcessKeyedElementsOp.java:203-210 | the element goes to the runner in a bundle of its own; watermarks unchanged; the emission invariant holds |
| SamzaSdfOp.SplittableParDoProcessKeyedElementsOp.FireTimer | runners/samza/src/main/java/org/apache/beam/runners/samza/runtime/SplittableParDoProcessKeyedElementsOp.java:242-247 | one runner call with the timer's work item in the global window; nothing else changes |
| SamzaSdfOp.SplittableParDoProcessKeyedElementsOp.FireInBundle | runners/samza/src/main/java/org/apache/beam/runners/samza/runtime/SplittableParDoProcessKeyedElementsOp.java:217-223 | the loop over ready timers appends exactly the timer bundle |
| SamzaSdfOp.SplittableParDoProcessKeyedElementsOp.ProcessWatermark | runners/samza/src/main/java/org/apache/beam/runners/samza/runtime/SplittableParDoProcessKeyedElementsOp.java:212-230 | the input watermark becomes the new one; the output watermark advances as `NextOutput` says; the calls are those of `WatermarkEvents`; the emission invariant holds |
| SamzaSdfOp.SplittableParDoProcessKeyedElementsOp.ProcessTimer | runners/samza/src/main/java/org/apache/beam/runners/samza/runtime/SplittableParDoProcessKeyedElementsOp.java:232-240 | the timer fires in a bundle of its own, then it is removed from the processing timers; watermarks unchanged |

## Left out

- Runner internals: the `open()` set-up of the Samza operator is not part of this model. That
  covers the DoFn invoker, the output-and-time-bounded invoker budget, the state and timer
  factories and the bundle manager. The runner, the timer store and the emitter are reduced to
  the calls the operator makes on them.
- The timer store: its own rules (which timers are ready, watermark holds) are not modelled. The
  collection `removeReadyTimers` returns is a parameter of `ProcessWatermark`.
- Logging: `LOG.debug` in `fireTimer` is not modelled.
- Event time: `Instant` is an integer, and `isBefore` is `<`.
- Element identity: elements stay opaque (a type parameter).
- Windowed values: they carry only "global window or not"; timestamp and pane are not modelled.
- `fromIr`'s copy of the IR: the copy of the header tokens and the `SerializableIr` wrapper are
  reduced to keeping the header.
- The enumeration logical type: `EnumerationType.create` is reduced to the map it is built from.
- Map order: `ImmutableMap` iteration order and `EnumMap` order are not modelled. Maps are Dafny
  maps, and the enumeration entries are kept as a sequence until the map is built.
- Exception messages: the arguments `checkArgument`/`checkState` and `String.format` would format
  in are appended as decimal text or as the name; only the exception class and this text are kept,
  not stack or cause. A `checkArgument` with no message is `IllegalArgument("")`.
- Varargs overloads: `create(String...)` and `getWithAllFlags(String...)` only wrap the iterable
  forms and are not separate members.
- Builders: the AutoValue and `ImmutableMap` builders the consumers mutate are threaded through
  the handler as values. The consumers are a closed set of named actions rather than lambdas, so
  aliasing between the lambdas and the builders is not modelled.
- Null option values: in `getIteratorForMessage`, a `null` message name cannot arise from
  `SbeSchema`'s options. The null checks are read through `IrFieldGenerator.SelectorOf` (see
  above), and the `NullPointerException` a `null` name would cause is not modelled.
- BitFieldFlags.GetWithFlag: a `long` is modelled as the set of its one-bit positions
  (`LongBits`), not as a 64-bit word. `|` is set union and `1L << k` is `{k}`, so the value
  reading of masks with bit 63 (a negative `long`) is not modelled.
- IrFieldGenerator.OneFieldPerBeginField: the field-per-BEGIN_FIELD correspondence is proved
  only for messages whose fields do not nest, meaning no BEGIN_FIELD or END_MESSAGE before a
  field's END_FIELD. Composite and group layouts are not covered.

## Findings

| source | as written | input that shows it | evidently intended | confidence | as-written member | corrected member |
|---|---|---|---|---|---|---|
| sdks/java/extensions/sbe/src/main/java/org/apache/beam/sdk/extensions/sbe/SbeSchema.java:107-129 | with the default options (id -1, name "") the single-message check passes, and then the `else` branch also requires exactly one message named "" | an IR with one message whose first token is named "Car", under `IrOptions.DEFAULT`: rejected with "No message with name" | the default options accept any IR with exactly one message, as the `IrOptions` documentation says | high; not executed | SbeSchemas.DefaultOptionsRejectNamedSingleMessage | SbeSchemas.ValidateIrOptionsIntended (with SbeSchemas.ValidateIntendedAgrees; used by SbeSchemas.FromIrIntended) |
| sdks/java/core/src/main/java/org/apache/beam/sdk/schemas/logicaltypes/BitFieldFlagType.java:54-61 | the byte counter advances once per list entry, but the 64-flag limit is checked on distinct flags; a repeated flag pushes later counters to 64 or more, and `1L << b` shifts by `b` mod 64 | `create("a", "b", "b", ..., "b")` with 64 copies of "b": accepted, and `getWithFlag("a") == getWithFlag("b") == 1` | distinct flags own distinct bits | medium; not executed | BitFieldFlags.RepeatedFlagsShareABit | BitFieldFlags.CreateChecked (with BitFieldFlags.CheckedFlagsOwnDistinctBits) |
