# cojson core in Dafny

This project models the self-contained core of cojson, a streaming JSON codec
for C++ (`src/cojson.hpp`). cojson binds JSON directly to existing storage. It
builds no document tree and allocates nothing. The model covers:

- the sticky error register `error_t` / `iostate` and `lexer::error()`;
- the character-class algebra `ctype` with `isvalid`, `hasbits` and `andmask`,
  the role table of `lexer::char_typify`, and the escape tables of `literal`;
- the lexer's one-character pushback (`get`, `back`, `skip(mask)`);
- the integer codec: `tenfold` under the three overflow policies,
  `reader<T>::read`, `reader<bool>::read`, `write_number` and `writer<T>::write`;
- the collection traversal `collection<I>::read` for arrays (`iterator`) and
  objects (`indexer`), plus the handlers it drives (`array`, `vector`, `clas`)
  and the write loops of `array::write` and `clas::write`;
- the three destination paths of `scalar<X>::read` and `propertyx<X>::read`.

The model is built as follows:

- The input stream is a character sequence, a position, a one-slot pushback
  (`hold`, NUL meaning empty) and the error register.
- An output buffer is the text written, the free room and the register.
- Integer types are a width and a signedness. Values are unbounded integers
  that are explicitly kept in range (`Wrap`, `Clamp`).
- Some lexer operations have bodies outside this file: `value`, `member`
  and `skip(bool)`. They are fields of a `Scanner` record. The model relies
  only on `WellBehaved`: they read the same stream forward and keep recorded
  conditions.
- Item readers, property readers and element readers are function-valued
  parameters.
- The overflow policy and `null_is_error` are parameters.

The modules follow the source:

| file | module | contents |
|---|---|---|
| errors.dfy | `Errors` | `error_t` and `iostate` |
| ctype.dfy | `CharClass` | `ctype`, `chartype` |
| lexer.dfy | `Lexing` | lexer state and `get`/`back`/`skip` |
| literal.dfy | `Literals` | structural characters and escape tables |
| numbers.dfy | `Numbers` | `tenfold`, the readers |
| scanning.dfy | `ScanFacts` | what the number reader computes |
| decimal.dfy | `Decimal` | reference decimal spellings |
| arith.dfy | `Arith` | modular arithmetic facts |
| output.dfy | `Output` | writers |
| collection.dfy | `Collections` | `collection<I>::read` |
| bindings.dfy | `Bindings` | item, class, scalar and property handlers |
| intarray.dfy | `IntArrays` | an `array` of integers read back |

## Model

| member | source | states |
|---|---|---|
| Errors.Raise | src/cojson.hpp:572 | after `error(e)` the register holds exactly the old conditions plus those of `e`; no condition is ever cleared |
| Errors.RaiseFlag | src/cojson.hpp:558 | raising one condition sets it and leaves every other condition as it was |
| Errors.Clear | src/cojson.hpp:574 | after `clear()` no condition is held |
| Errors.IsGood | src/cojson.hpp:585-587 | `isgood()` holds exactly when neither `ioerror` nor `bad` is set |
| Errors.AtEof | src/cojson.hpp:588-590 | `eof()` holds exactly when the end-of-input condition is set |
| Errors.LexerError | src/cojson.hpp:796-799 | the lexer's view of the register holds every stream condition except end of input |
| Errors.BlockedIsFailedOrMismatch | src/cojson.hpp:517-518 | `blocked` is hit exactly when the register is not good or holds a mismatch |
| Errors.RaiseAlgebra | src/cojson.hpp:540-543 | raising is idempotent and order-independent |
| Errors.FlagsDetermine | src/cojson.hpp:507-516 | a register is determined by which of the eight conditions it holds |
| Errors.IncludesFlags | src/cojson.hpp:507-516 | one register includes another exactly when it holds every condition of the other |
| CharClass.Classify | src/cojson.hpp:659-660 | an empty bit set is `unknown`, any other is a valid role set, never a sentinel |
| CharClass.ValidIsRoles | src/cojson.hpp:710-712 | `isvalid` holds exactly for a non-empty set of role bits, so the sentinels `unknown`, `eof` and `err` are never valid |
| CharClass.AndMask | src/cojson.hpp:719-721 | `andmask` passes the sentinels through unchanged and otherwise intersects role bits with the mask |
| CharClass.HasBitsIsValidMask | src/cojson.hpp:714-721 | `hasbits(ct, m)` holds exactly when `andmask(ct, m)` is valid |
| CharClass.CharType | src/cojson.hpp:659-692 | every character gets a role set or `unknown`, never a sentinel; the `string` role holds exactly for the characters above space, which end at 0x7F on a platform where plain `char` (`char_t`) is signed; exactly those and the four whitespace characters are classified |
| CharClass.CharTypeIsTypified | src/cojson.hpp:733-751 | each character's table entry is the union of the roles of every `char_typify` row containing it, plus the `string` role of the characters above space |
| CharClass.IsWs | src/cojson.hpp:723-725 | `isws` holds exactly for tab, line feed, carriage return and space |
| CharClass.NumericView | src/cojson.hpp:680-681 | under the `numeric` mask the table agrees with the JSON number grammar: digits, signs, `.`, `e`/`E`, delimiters, the rest unknown |
| CharClass.NumberView | src/cojson.hpp:680 | the `number` role holds exactly for digits and `+-.eE` |
| CharClass.StructuralView | src/cojson.hpp:673-674 | the `array` and `object` roles hold exactly for `[,]` and `{,}`, the structural characters of section 2 of RFC 8259 |
| Literals.IsEscaped | src/cojson.hpp:437-439 | `is_escaped` holds exactly for the non-control characters that RFC 8259 requires to be escaped, and each is its own escape letter |
| Literals.ReplaceCommon | src/cojson.hpp:460-468 | `replace_common` changes exactly the five common controls, to the letter whose RFC 8259 escape decodes back to the control |
| Literals.EscapeTablesCoverRfc | src/cojson.hpp:430-468 | the two tables plus control characters are exactly the characters section 7 of RFC 8259 requires to be escaped |
| Literals.EscapeRoundTrip | src/cojson.hpp:437-468 | a backslash and the table's letter decode back to the original character |
| Literals.SpecialRoleIsEscapeLetters | src/cojson.hpp:736 | the `special` role marks exactly the RFC 8259 escape letters other than `/`, plus `u` |
| Lexing.Raised | src/cojson.hpp:795 | recording a condition sets it, keeps the others and does not move the stream |
| Lexing.Get | src/cojson.hpp:842-844 | a read takes the pushed-back character first, else the next input character; with nothing left it yields `eof` (or `err` on a broken stream) and records the matching condition |
| Lexing.GetMasked | src/cojson.hpp:767-769 | `get(dst, mask)` is a read whose classification goes through `andmask` |
| Lexing.Back | src/cojson.hpp:823-825 | `back` fills the pushback slot and changes nothing else |
| Lexing.BackThenGet | src/cojson.hpp:823-825 | a character pushed back is the next one read, with its table classification |
| Lexing.SkipWhile | src/cojson.hpp:771-775 | `skip(dst, mask)` stops at the first read whose class has no bit of the mask; it never moves backwards, and a valid stop consumed a character |
| Lexing.SkipPending | src/cojson.hpp:771-775 | skipping over a run of matching characters delivers the first non-matching one and leaves exactly what follows it pending |
| Lexing.SkipPendingAll | src/cojson.hpp:771-775 | skipping pending characters that all match runs into the end of the stream: `eof`, or `err` on a broken stream |
| Lexing.BackPending | src/cojson.hpp:823-825 | a character pushed back into the empty slot is delivered before everything else pending |
| Lexing.SkipRun | src/cojson.hpp:776-784 | `skip(mask)` fails only on an I/O fault; after a valid stop that character is pushed back |
| Lexing.GetThenBack | src/cojson.hpp:779-781 | reading a character and pushing it back leaves the amount of pending input unchanged |
| Numbers.Wrap | src/cojson.hpp:871-872 | the model's reading of an unchecked `val *= 10; val += digit` as two's-complement truncation: in range, congruent to its argument, identity on in-range values |
| Numbers.Rem10 | src/cojson.hpp:853-854 | C++ division by ten: quotient truncated toward zero, remainder carrying the dividend's sign |
| Numbers.Tenfold | src/cojson.hpp:850-874 | `tenfold` without a check fires computes `10*val + digit` and succeeds; `ignored` never checks, and the model takes its overflow to wrap; on overflow a checking policy clamps to max (or min) and succeeds only when saturating |
| Numbers.Scan | src/cojson.hpp:896-926 | the scanner's loop keeps the destination inside the type's range and only moves the stream forward |
| Numbers.OnChar | src/cojson.hpp:896-925 | one turn of the loop, on the character read through the `numeric` mask, keeps the destination in range and the stream moving forward |
| Numbers.Accumulate | src/cojson.hpp:908-913 | folding a digit with `tenfold`, or skipping the rest of the number after a failed fold, keeps the destination in range and the stream moving forward |
| Numbers.ReadInt | src/cojson.hpp:891-895 | the destination starts at zero; without a numeric value nothing is scanned and the read fails |
| Numbers.ReadBool | src/cojson.hpp:953-958 | succeeds exactly when `lexer::value(boolean)` gives a valid class; the result is true exactly for the class `boolean \| value`; on failure the destination is unchanged |
| ScanFacts.SignRules | src/cojson.hpp:914-925 | one leading `-` for a signed type goes on; a second `-` or a `-` after digits is `bad`; `+` is `bad`; a first `-` into an unsigned type is `mismatch`; each error fails |
| ScanFacts.EndsAtDelimiter | src/cojson.hpp:903-907 | a delimiter ends the number successfully with the value kept; whitespace is consumed, any other delimiter is pushed back and so is still pending |
| ScanFacts.EndsAtEof | src/cojson.hpp:906-907 | the clean end of input ends the number successfully with the value kept |
| ScanFacts.DigitAccumulates | src/cojson.hpp:908-911 | a digit is passed to `tenfold` with its value, negated after a minus sign, and an unsigned start counts as positive |
| ScanFacts.DigitOverflows | src/cojson.hpp:911-913 | when `tenfold` fails the overflow condition is recorded and the result is that of `skip(number)` |
| ScanFacts.ScanSaturated | src/cojson.hpp:859-873 | under `saturated` a digit run reads as the clamp of its value and succeeds, and the stream is left just after the number (`AfterNumber`: whitespace that ended it consumed, any other delimiter pending) |
| ScanFacts.ScanChecked | src/cojson.hpp:859-873 | under `error` (`CheckedOutcome`) a run reads exactly while it fits and the stream is left as `AfterNumber` says; otherwise the limit is stored, overflow recorded, the rest of the digits skipped, and the character that ended the number, even whitespace, is pending again (`AfterRun`) |
| ScanFacts.ScanIgnored | src/cojson.hpp:908-911 | under `ignored` every digit of the run goes through `tenfold`, the number ends successfully, and the stream is left as `AfterNumber` says |
| ScanFacts.WrapFoldIsWrap | src/cojson.hpp:871-873 | folding digits with the unchecked `tenfold` gives the exact value wrapped to the type's width, taking overflow to wrap |
| ScanFacts.ScanWrapped | src/cojson.hpp:871-873 | under `ignored` a digit run reads as its value wrapped to the type's width, taking overflow to wrap, and the stream is left just after the number |
| ScanFacts.SkipAfterOverflow | src/cojson.hpp:912-913 | after an overflow the rest of the digits are skipped without failing, the condition stays, and exactly what followed the digits is pending (`AfterRun`) |
| ScanFacts.SkipRestOfNumber | src/cojson.hpp:776-784 | `skip(number)` over the rest of a digit run succeeds and pushes back the character that ends it, leaving exactly what followed the digits pending |
| ScanFacts.UnsignedStart | src/cojson.hpp:910 | before any sign, a digit starts a positive number |
| ScanFacts.ReadsDigits | src/cojson.hpp:893-911 | a digit run whose signed value fits reads as that value under every policy, leaving the stream just after the number |
| ScanFacts.ReadsSpelling | src/cojson.hpp:893-925 | every value of the type reads back from its canonical JSON spelling under every policy, also when the first character of the spelling is the one held in the pushback slot, and the read ends just after the spelling |
| ScanFacts.ReadIntSpelling | src/cojson.hpp:891-926 | `reader<T>::read` reads back the canonical spelling of every value when `lexer::value` leaves it pending (its first character held), followed by a delimiter or the clean end of the stream, and leaves the stream just after it |
| ScanFacts.WriteThenRead | src/cojson.hpp:996-1002 | what the integer writer puts into an empty buffer, `reader<T>::read` takes back to the written value under every policy |
| ScanFacts.BoolWriteThenRead | src/cojson.hpp:1035-1040 | what the boolean writer puts into an empty buffer, `reader<bool>::read` takes back to the written value, given that `lexer::value` classifies the two literals as `ClassifiesBooleans` states |
| Output.Put | src/cojson.hpp:1983-1990 | `put` appends one character when there is room; on a full buffer it records end of stream and changes nothing else |
| Output.Emit | src/cojson.hpp:1983-1990 | putting a string succeeds exactly when it fits; the longest prefix that fits is written; a failure leaves the buffer exhausted |
| Output.EmitAppend | src/cojson.hpp:1305-1309 | writing two texts in a `&&` chain is writing their concatenation |
| Output.EmitExhausted | src/cojson.hpp:1984-1987 | once the buffer is full every further put fails and changes nothing |
| Output.ShownIsStrip | src/cojson.hpp:979-986 | the rule "put a digit if nonzero, or one was put, or it is the last" drops exactly the leading zeros and keeps at least one digit |
| Output.WriteNumber | src/cojson.hpp:976-989 | `write_number` puts `-` exactly when negative, then the canonical decimal digits of `val` (zero as `0`), stopping at the first failed put |
| Output.WriteDigit | src/cojson.hpp:979-987 | one turn of the `write_number` loop either fails the write exactly as writing the remaining digits would, or leaves the remaining digits to the next place with the divider a tenth of what it was |
| Output.WriteInt | src/cojson.hpp:996-1002 | the integer writer puts the JSON spelling of the value for every value of every integral type |
| Output.WrittenIsSpelling | src/cojson.hpp:996-1002 | with enough room the writer succeeds and the buffer holds exactly the spelling, which the reader takes back to the value |
| Output.WriteBool | src/cojson.hpp:1035-1040 | the boolean writer puts `true` or `false` when it fits, and otherwise leaves the buffer exhausted |
| Output.ArrayWrite | src/cojson.hpp:1184-1197 | `array::write` with `dlm` and `end` puts `[`, the items separated by `,`, and `]`, stopping at the first failed put |
| Output.ClasLoop | src/cojson.hpp:1303-1308 | the `&&` chain of the `clas::write` loop: a failed write stays as it was, the text only grows, and each character written uses one unit of room |
| Output.ClasLoopEmits | src/cojson.hpp:1303-1308 | the `clas::write` loop puts separator, name, `:` and value of each property in order, stopping at the first failure |
| Output.ClasWriteAsWritten | src/cojson.hpp:1301-1310 | the source's `clas::write` puts a JSON object for one or more properties, but only `}` for none |
| Output.ClasWrite | src/cojson.hpp:1301-1310 | the corrected writer puts the JSON object of the members for any number of properties |
| Output.EmptyClassWrite | src/cojson.hpp:1301-1310 | an empty class is written as `}` by the source and as `{}` by the corrected writer |
| Collections.MiddleChars | src/cojson.hpp:1078-1099 | the `middle` role of each strategy holds exactly for its opening, separator and closing characters |
| Collections.Prolog | src/cojson.hpp:1083-1103 | arrays key items by their running index and read nothing; objects key them by the member name `lexer::member` reads, and fail without one |
| Collections.ReadCollection | src/cojson.hpp:1131-1146 | no opening token fails with no item read; a `null` token succeeds exactly when `S::null` allows it, otherwise records a mismatch |
| Collections.Opened | src/cojson.hpp:1140-1146 | with only whitespace before the end of the input or a fault, the read fails with no item dispatched; a traversal that dispatched no item leaves the destination untouched |
| Collections.OpenedEmpty | src/cojson.hpp:1142-1143 | whitespace and the closing character right after the opening one succeed with no item dispatched |
| Collections.Dispatch | src/cojson.hpp:1147-1155 | the closing character ends the traversal successfully with no further item; a character other than the separator fails; no item dispatched means the destination is untouched |
| Collections.Continue | src/cojson.hpp:1156-1159 | the loop condition never un-reads the stream, and when no further item is dispatched the destination is untouched |
| Collections.EmptyCollection | src/cojson.hpp:1140-1143 | an opening token, whitespace and the closing character succeed with no item dispatched and the destination untouched |
| Collections.FirstItem | src/cojson.hpp:1142-1145 | otherwise the first significant character is pushed back and the loop starts as after a separator |
| Collections.AfterItem | src/cojson.hpp:1147-1159 | after an item, `,` reads the next item, the closing character succeeds, the opening character fails, any other character records `bad` |
| Collections.EndsInsideCollection | src/cojson.hpp:1156-1159 | input that ends after an item without the closing character is malformed |
| Collections.FailedItem | src/cojson.hpp:1150-1153 | a failed item is tolerated exactly when `skip(I::skiplist)` succeeds, and the loop goes on from there |
| Collections.ReadsRemainingItems | src/cojson.hpp:1147-1159 | given an item reader that reads each item exactly when it is followed by `,` or `]` (`ReadsItems`), with the remaining items and `]` pending, the loop succeeds, counts every item, and leaves the destination as `ReadInOrder`: item k handed to the reader once, as `Index(k)`, after items before it |
| Collections.ReadsArrayText | src/cojson.hpp:1131-1159 | with such an item reader, reading what `array::write` writes, `[` items `]`, succeeds and dispatches all `\|items\|` items |
| Collections.ReadsArrayInOrder | src/cojson.hpp:1131-1159 | reading the same text leaves the destination as `ReadInOrder`: every item handed to the reader once, in order, item k as `Index(k)` |
| IntArrays.IntItemReadsSpelling | src/cojson.hpp:891-926 | an integer item reads the spelling of any value of its type, followed by `,` or `]`, back to that value and leaves that character pending |
| IntArrays.IntItemsReadSpellings | src/cojson.hpp:1202-1205 | an `array` binding of integer items reads the writer's spellings exactly, as `ReadsItems` asks |
| IntArrays.ReadsIntArray | src/cojson.hpp:1131-1159 | reading `[` spellings `]` of a non-empty array of integers succeeds and dispatches every item |
| Collections.FirstItemPending | src/cojson.hpp:1139-1144 | the stream the first item is read from, with the character after `[` read and pushed back, has the items' text and `]` pending |
| Bindings.ArrayItem | src/cojson.hpp:1202-1211 | an index past the size records `overrun` and reads nothing; within it the item succeeds if its reader does or the value can be skipped |
| Bindings.ReadArray | src/cojson.hpp:1069-1072 | an array's `null` is accepted exactly when nulls are not configured as errors |
| Bindings.VectorItem | src/cojson.hpp:1462-1475 | past capacity `overrun` is recorded and the vector untouched; a successful read stores at index `i` only; a failed read leaves the vector and is tolerated if the value can be skipped |
| Bindings.ReadVector | src/cojson.hpp:1442-1449 | a vector without storage records `noobject` and skips the value; otherwise it is read as an array with the accessor's null rule, never changing its length |
| Bindings.VectorKeepsLength | src/cojson.hpp:1442-1444 | the traversal of a vector never grows or shrinks it |
| Bindings.ClasReadFrom | src/cojson.hpp:1316-1325 | the property lookup succeeds exactly when some property has the member's name, and reads nothing otherwise |
| Bindings.ClasReadFromFirst | src/cojson.hpp:1317-1322 | the first property with the member's name is the one that reads the value |
| Bindings.ClasRead | src/cojson.hpp:1316-1325 | `clas::read(obj, in, name)` fails without reading when no name matches; otherwise its outcome is that of the first matching property's reader, counted as read |
| Bindings.ReadClas | src/cojson.hpp:1298-1300 | a class's `null` is accepted under the source's rule exactly when nulls are errors, under the corrected rule exactly when they are not; a rejected null is a mismatch |
| Bindings.ClasNullInverted | src/cojson.hpp:1311-1313 | with nulls configured as errors, the source's class reader accepts a null that the corrected one rejects as a mismatch |
| Bindings.ReadScalar | src/cojson.hpp:1336-1351 | reads in place through a reference when there is one; else reads a fresh `init` value and stores it only on success; else records `noobject` and skips the value |
| Bindings.ScalarFailureKeepsStorage | src/cojson.hpp:1339-1346 | outside the in-place path a failed read leaves the storage unchanged |
| Bindings.ReadProperty | src/cojson.hpp:1409-1424 | outside the in-place path a failed property read leaves the object unchanged |
| Bindings.PropertyIsFieldScalar | src/cojson.hpp:1409-1424 | a property read is the scalar read of the field, stored back into the object |

## Left out

- Floating point (`reader<double>`, `writer<double>`, `gfmt`) is not modelled. It is float formatting whose bodies are not in the file.
- Strings are left out. The bodies of `reader<char_t*>`, `writer<const char_t*>`, `lexer::string` and `skip_string` are not in the file. `string::read` and `string::write` (lines 1376-1390) delegate to them and to `value::null`. Member names, and the values the writers put, are represented by their texts.
- `lexer::value`, `member` and `skip(bool)` are abstract `Scanner` operations, constrained only by `WellBehaved`. Their bodies are not in the file.
- IntArrays.ReadsIntArray: holds for a `lexer::value` that, with a digit or `-` next, gives a valid class and leaves that character pending (`PeeksNumbers`). This is taken as a hypothesis, because the body of `value` is not in the file.
- Numbers.ReadBool: its contract speaks of the class `lexer::value` returns, not of the text, because the body of `value` is not in the file. `ScanFacts.BoolWriteThenRead` ties it to the literals `true` and `false` under the hypothesis `ClassifiesBooleans`.
- `details::match` is modelled as string equality.
- The body of `lexer::get(dst)` is not in the file. `Lexing.Get` gives it the behaviour the rest of the file relies on: the pushback slot first, then the next character classified by `chartype`, then the `eof` or `err` sentinel with its condition recorded. Escapes and the byte-order mark are not modelled.
- Accessors, builder templates, `progmem` and wide characters are left out. They are declarative glue over C++ pointers.
- Configuration machinery is left out. The `iostate_t` virtual/non-virtual choice is the same register either way. The overflow policy and `null_is_error` are parameters.
- `numeric_helper` is not part of this model. `Output.WriteInt` assumes its `pot` is the largest power of ten not above the type's maximum magnitude, and its `abs`/`is_negative` are the magnitude and the sign.
- `Output.WriteNumber` requires `divider` to be a power of ten with `val < 10 * divider`. That is what `writer<T>` passes. For a smaller divider the source drops the high digits.
- `Output.ArrayWrite` requires at least one item. With zero items the source still calls the item writer with index 0, which reads `items[0]` out of bounds.
- The item and property writers are represented by their texts, and each item writer is taken to report whether another item follows. `vector::write` and `array::write(out, i)` are covered only through this.
- `ostream::puts` (line 625) has no body in the file. `Output.Emit` models it as `put` of each character in turn, so `Output.WriteBool` and the other writers see a partial write when the room runs out. For `abuffer` this is the same as stopping at once, because exhaustion is permanent.
- The stream transport `abuffer::get` is left out: its sized branch increments `pos` twice per character (lines 1979-1980), so it has no clean read property. Only `abuffer::put` is modelled.
- `value::null(ostream&)` (line 1065) and `object::write` are declared, but their bodies are not in the file. `object::read(lexer&)` (lines 1253-1255) delegates to `collection<indexer>::read`, which is `Collections.ReadCollection` with the keyed strategy. The member lookup it hands each item to, `object::read(lexer&, name)`, has no body in the file.
- CharClass.CharType: assumes plain `char` is signed, as on the usual platforms. `char_t` is `char` (line 35), whose signedness is implementation-defined. Where `char` is unsigned, bytes 0x80-0xFF are also above space and would get the `string` role; the model leaves them `unknown`.
- Numbers.Tenfold: under `ignored` the model takes overflow of `val *= 10; val += digit` (lines 871-872) to wrap to the type's width. For `int` and `long` that overflow is undefined behaviour in C++. The wrap is what unsigned types do, and what types narrower than `int` do under the conversion rules of C++20.
- ScanFacts.ScanWrapped: rests on the same wrap assumption as `Numbers.Tenfold`, and so does `ScanFacts.WrapFoldIsWrap`.
- `Bindings.ReadClas`: the traversal over the properties is stated through the generic lemmas of `Collections`. Its own contract covers only the `null` token.

Notes on what the code does where its names or comments suggest otherwise. The model follows the code:

- Under `saturated`, `tenfold` reports success when it clamps. So the reader's overflow branch is not taken and no overflow condition is recorded.
- Under `error` the destination holds the clamped limit after an overflow, not the previous value. The read returns the result of `skip(number)`, which is success when the number ends normally.
- After an item, the opening character (`[` for arrays, `{` for objects) belongs to the `middle` role. It leaves the loop through `switch` with failure and does not record `bad`.
- `char_typify` assigns no `string` role, and the body of `chartype` is not in the file. The model gives the `string` role to every character above space, as the comment on `ctype::string` (line 664) says. So an unexpected printable character after `[` is pushed back and handed to the item reader, and `skip(mask)` pushes it back instead of consuming it. Control characters and characters beyond 0x7F stay `unknown`.
- `clas::read(obj, in, name)` counts a member as read whatever the property's reader returns.
- The two ends of a number leave the stream in different places. A normal end consumes a whitespace delimiter (lines 903-904). After an overflow, `skip(number)` pushes back whatever ended the digits, whitespace included (lines 779-781).

## Findings

| source | as written | input that shows it | evidently intended | confidence | as-written member | corrected member |
|---|---|---|---|---|---|---|
| src/cojson.hpp:1311-1313 | `clas::null` returns `config::null_is_error`, so a class accepts a JSON `null` exactly when nulls are configured as errors | `null_is_error` true and the input `null` for a class: the read succeeds silently | the rule of `value::null`: accept unless nulls are errors | not executed | Bindings.ClasNullInverted | Bindings.ReadClas |
| src/cojson.hpp:1301-1310 | `clas::write` opens the object inside the property loop, so a class with no properties writes only `}` | a class with zero properties: output `}` | the empty object `{}` | not executed | Output.ClasWriteAsWritten | Output.ClasWrite |
