# Choice/Result wire codec and log-text helpers

This project models two pure parts of the engine's TypeScript host package.

- **The one-byte wire protocol.** A player's `Choice` (`pass`, `move n` or `switch n`) is sent to the engine packed as `data << 2 | tag`. The engine answers with a `Result` byte. Its low nibble is the outcome from Player 1's perspective (none, win, lose, tie or error). Bits 4-5 and 6-7 hold the choice type each player must make next. The Pokémon Showdown text syntax for choices (`pass`, `move 0`…`move 4`, `switch 2`…`switch 6`) is parsed and formatted. Modules `ChoiceCodec` (`choice.dfy`) and `ResultCodec` (`result.dfy`) cover this part.
- **The debug display's text helpers.** They turn decoded log records into the canonical `|`-separated protocol text. A record has a list of positional arguments and keyword arguments. `trim` drops trailing empty arguments. `compact` joins a record's fields with `|`. `toText` joins records with a newline and `|`. `pretty` renders a choice. Module `DisplayUtil` (`display.dfy`) covers this part.

Three helper modules support them. `Bits` (`bits.dfy`) holds the byte type and the facts that tie 8-bit operators to arithmetic. `Wrappers` (`wrappers.dfy`) holds `Option`, which stands for JavaScript's `undefined`, and `Thrown`, which stands for a value or a thrown error. `Strings` (`strings.dfy`) holds `Array.prototype.join` and `String.prototype.split` on one character, together with the lemmas that make them inverses. It also holds the decimal numeral of a non-negative integer, which is how a template literal renders integers below 10^21.

Modelling choices:
- The decoders take a byte, a `nat` below 256. Most callers read it from a `Uint8Array` or `DataView.getUint8`. `update` at src/pkg/addon.ts:66-67 instead passes the return value of the native `update` call, which is typed `number`. The model assumes that value is a byte as well (see "## Left out").
- The bodies of the decoders and of `Result.encode` use the source's bit operators on `bv8`. Their contracts state the same layout in arithmetic. A byte is turned into a `bv8` by assembling its two nibbles.
- `Choice.encode`'s `<<` is JavaScript's 32-bit shift, modelled as ToInt32(4 × data). Its `| tag` is an addition, because a shifted value's two low bits are zero.
- An index past the end of `Choice.Types` or `Result.Types` reads as `undefined`. That is why the decoders return records whose type fields are optional.
- A keyword argument's value is either a boolean flag or text. Keyword arguments are kept as a list in the order `Object.keys` yields them.
- The Result byte layout follows the code. The code does not mask `byte >> 6` for Player 2's tag. For a byte this equals the masked value, which `ResultCodec.P2Bits` states.
- The error `parse` throws is a plain `Error` whose message is `Invalid choice: '<input>'`. It is modelled as `Err` carrying exactly that message.

## Model

| member | source | states |
|---|---|---|
| ChoiceCodec.Encoding | src/pkg/common.ts:43-45 | the tags of pass, move and switch are 0, 1 and 2, and `Types` indexed by a type's tag gives that type back |
| ChoiceCodec.TypeAt | src/pkg/common.ts:45 | `Types[i]` is undefined exactly when i is 3 or more; otherwise it is the type whose tag is i |
| ChoiceCodec.PassChoice | src/pkg/common.ts:78-79 | `Choice.pass` is a valid pass choice, so its data is 0 |
| ChoiceCodec.MoveChoice | src/pkg/common.ts:82-84 | `Choice.move(n)` for n in 0-4 is a valid move choice carrying n |
| ChoiceCodec.SwitchChoice | src/pkg/common.ts:87-89 | `Choice.switch(n)` for n in 2-6 is a valid switch choice carrying n |
| ChoiceCodec.Encode | src/pkg/common.ts:57-59 | no choice encodes as 0; for data below 2^29 the tag sits in bits 0-1 and the data in bits 2 and up; a valid choice encodes to a value in 0..26 |
| ChoiceCodec.Decode | src/pkg/common.ts:52-54 | the type comes from the two low bits and is absent exactly when they are 3; the data is the byte shifted right by two, below 64 |
| ChoiceCodec.EncodeUndefinedIsPass | src/pkg/common.ts:57-59 | encoding no choice gives 0, the same byte as encoding the canonical pass |
| ChoiceCodec.DecodeEncode | src/pkg/common.ts:52-59 | every choice with data below 64, valid choices included, encodes to a byte that decodes back to that same type and data |
| ChoiceCodec.EncodeDecode | src/pkg/common.ts:52-59 | every byte whose tag is not 3 is the encoding of the choice it decodes to |
| ChoiceCodec.EncodeInjective | src/pkg/common.ts:57-59 | two choices with data below 64 that encode alike are equal |
| ChoiceCodec.EncodeWraps | src/pkg/common.ts:58 | the 32-bit shift loses data bit 30 and higher, so data differing by 2^30 encode alike |
| ChoiceCodec.EncodingExamples | src/pkg/common.test.ts:3-12 | 0b0001_0001 decodes to move 4 and 0b0001_0110 to switch 5, and encoding those two choices gives those bytes back |
| ChoiceCodec.Format | src/pkg/common.ts:74-76 | the text starts with the type name and has nothing after it exactly when the type is pass |
| ChoiceCodec.Parse | src/pkg/common.ts:65-71 | an accepted string yields a valid choice that formats back to the input; a rejected one yields the error `Invalid choice: '<input>'` |
| ChoiceCodec.ParseFormat | src/pkg/common.ts:65-76 | the formatted text of every valid choice parses back to that choice |
| ChoiceCodec.ParseAcceptsExactlyFormats | src/pkg/common.ts:47 | `parse` accepts a string exactly when it is the formatted text of some valid choice |
| ChoiceCodec.ParseRejections | src/pkg/common.test.ts:14-23 | `foo`, `pass 2`, `move 5` and `switch 1` are rejected, and the message names the input |
| ResultCodec.Encoding | src/pkg/common.ts:95-97 | win, lose, tie and error are 1-4, and `Result.Types` at that index gives the outcome back |
| ResultCodec.TypeAt | src/pkg/common.ts:97 | `Result.Types[i]` is an outcome exactly for i in 1..4; index 0 and indices 5 and up are undefined |
| ResultCodec.Code | src/pkg/common.ts:112 | the outcome nibble is the outcome's encoding, or 0 when there is none, and `Types` maps it back |
| ResultCodec.P2Bits | src/pkg/common.ts:106 | the unmasked `byte >> 6` of a byte already equals the masked two-bit tag |
| ResultCodec.Encode | src/pkg/common.ts:111-115 | the outcome goes in bits 0-3 as a value of 0-4, Player 1's tag in bits 4-5 and Player 2's tag in bits 6-7, all within one byte |
| ResultCodec.Decode | src/pkg/common.ts:102-108 | the outcome is defined exactly when the low nibble is 1-4, so 0 and 5-15 read as no result; each player's type is absent exactly when its tag is 3 |
| ResultCodec.DecodeEncode | src/pkg/common.ts:102-115 | every result, 5 outcomes by 3 by 3 choice types, decodes back from its byte |
| ResultCodec.EncodeDecode | src/pkg/common.ts:102-115 | every byte with an outcome nibble of 0-4 and no tag of 3 is the encoding of the result it decodes to |
| ResultCodec.EncodeInjective | src/pkg/common.ts:111-115 | two results that encode alike are equal, so the 45 results use 45 distinct bytes |
| ResultCodec.EncodeLegal | src/pkg/common.ts:111-115 | every encoded result has an outcome nibble of 0-4 and no tag of 3 |
| ResultCodec.EncodingExamples | src/pkg/common.test.ts:31-40 | 0b0101_0000 and 0b1000_0000 decode to the test's results, and `{win, pass, pass}` encodes to 1 |
| DisplayUtil.Format | src/tools/display/util.ts:11 | a boolean value renders as nothing; any other value renders as a space followed by the value |
| DisplayUtil.FlagsRenderAlike | src/tools/display/util.ts:11 | true and false flags both render as `[key]` |
| DisplayUtil.Render | src/tools/display/util.ts:19 | a rendered keyword argument is `[`, the key, `]` and then the formatted value; a key without `]` ends at the first `]`, which is what lets `ReadKwArg` read the field back (`ReadRender`) |
| DisplayUtil.ReadRender | src/tools/display/util.ts:17-19 | a rendered keyword argument is `[key]` for a true flag or `[key] value` for text, so it reads back to the argument when the key has no `]` |
| DisplayUtil.Trim | src/tools/display/util.ts:12-15 | the result is a prefix of the input that is empty or ends in a non-empty string, and every dropped element is empty |
| DisplayUtil.TrimIdempotent | src/tools/display/util.ts:12-15 | trimming twice is the same as trimming once |
| DisplayUtil.TrimKeepsNonEmptyEnd | src/tools/display/util.ts:12-15 | a list whose last element is non-empty is left unchanged |
| DisplayUtil.TrimUnique | src/tools/display/util.ts:12-15 | the trimmed list is the only prefix that ends in a non-empty string and drops only empty strings |
| DisplayUtil.Compact | src/tools/display/util.ts:17-19 | a record has no fields exactly when it has no keyword arguments and all its arguments trim away; such a record compacts to the empty string |
| DisplayUtil.CompactIgnoresTrailingEmpty | src/tools/display/util.ts:17-18 | an extra trailing empty argument does not change the compacted text |
| DisplayUtil.CompactSplits | src/tools/display/util.ts:17-19 | if no field contains a vertical bar, splitting the compacted text at vertical bars gives back exactly the record's fields |
| DisplayUtil.CompactReadBack | src/tools/display/util.ts:17-19 | for a record with no vertical bar in any argument, key or text value, no `]` in any key and no false flag, splitting the compacted text at vertical bars gives the trimmed arguments first, and then pieces that read back to each keyword argument in order |
| DisplayUtil.CompactAll | src/tools/display/util.ts:21 | `parsed.map(compact)`: one compacted record per record, in the same order |
| DisplayUtil.CompactAllAppend | src/tools/display/util.ts:21 | compacting a list with one more record appends that record's compacted text to the compacted list |
| DisplayUtil.ToText | src/tools/display/util.ts:21 | the text always starts with a vertical bar, and is exactly one vertical bar for no records |
| DisplayUtil.ToTextLines | src/tools/display/util.ts:21 | for a non-empty list, if no compacted record contains a newline, splitting the text at newlines gives a vertical bar followed by each compacted record, in order |
| DisplayUtil.ToTextAppend | src/tools/display/util.ts:21 | appending a record to a non-empty list appends a newline, a vertical bar and that record's compacted text |
| DisplayUtil.Pretty | src/tools/display/util.ts:23-25 | no choice renders as `???`, and a choice renders exactly as `Choice.format` does |

## Left out

- The Battle view, Lookup tables, Layout table and binary Log decoder (`Battle`, `Data` and `ParsedLine` come from `pkg`) are not modelled. This model covers only the one-byte codec and the log-text helpers that consume the decoded records.
- Engine loading and bindings are not modelled: native/WASM loading, the global addon state, promises, and the foreign `update`/`choices` calls. This includes the request mapping at src/pkg/addon.ts:78.
- UI rendering, capture-file frame splitting, the CLI tools, the editor extension and the test drivers are not modelled. They involve DOM, timers, I/O, the network and floating point. src/test/display.ts:51-69 repeats the helpers of src/tools/display/util.ts, which are modelled once.
- DisplayUtil.Compact: the source trims a copy of the arguments (`slice(0)`), so the record's own arguments are left untouched. The model's values are immutable, so this holds by construction and no contract states it.
- DisplayUtil.Pretty: the model takes a well-typed choice. What `pretty` prints for a decoded byte whose tag is 3 (`undefined` followed by the data) is not modelled.
- Choice data is a non-negative integer. The source's `number` also admits negative and fractional values, which no caller produces.
- ChoiceCodec.Format and DisplayUtil.Pretty render choice data of any size as a plain decimal numeral. JavaScript writes `1e+21` and up in exponent notation and cannot represent every integer above 2^53. Valid choice data is at most 6.
- ResultCodec.Decode assumes the value passed to `Result.decode` is a byte. At src/pkg/addon.ts:66-67 it is the native `update` call's return value, typed `number` at src/pkg/binding.ts:14. For a number of 256 or more, the unmasked `byte >> 6` at src/pkg/common.ts:106 is 4 or more, so `p2` reads as `undefined`. The `Byte` domain rules that case out.
- Keyword arguments keep the order in which `Object.keys` lists them. JavaScript lists integer-like keys first in ascending order, and the model does not reproduce that reordering. Protocol keys are words.
- Keyword-argument values other than booleans and strings (numbers, `undefined`) are not modelled. A non-boolean value is rendered through its string form.
