# A two-pass assembler for a 16-bit ISA, in Dafny

The program turns assembly text into a 1024-byte ROM image. Each
instruction is a 16-bit word: a 7-bit opcode in bits 15-9, then register
numbers, immediates or branch displacements. It exists in two versions, and
both are modelled here.

- `assembler.cpp` works on one buffer. It reads the whole file,
  upper-cases it and scans it word by word, with a newline counting as a
  word. The scan builds a label table and a list of instructions, and an
  encode loop then writes each instruction's word, big-endian, at its
  address.
- `assembler_apr7.cpp` works line by line. Each line is read into a
  256-byte buffer, its comment is cut off and it is upper-cased. A first
  pass records labels. Their names are copied into a 64 KiB name buffer,
  and each label gets the current write address. A second pass re-reads
  the lines from address 0 and encodes every instruction in place.

Both versions share the same helpers:
- the C-string helpers `to_upper`, `strip_comments` and `SubString ==`;
- the cursor functions `skip_blank`, `skip_word` and `get_word`;
- the opcode table and `lookup_op`;
- number parsing with `strtoul` semantics, range check and mask (`parse_num`);
- label resolution to a PC-relative displacement (`parse_constant`);
- `parse_reg`;
- the format-driven encoder `parse_instruction`.

Every `asm_assert` and every overflowing `Array::push` stops the program.
The model gives each of them an `Error` value, which is what the model's
functions return on failure.

Module layout, following the program's structure:

| File | Contents |
|---|---|
| `bits.dfy` | 16/32-bit arithmetic with explicit wrap-around, C's truncating division, shifts, AND and OR |
| `errors.dfy` | error kinds, `Result` and `Option`, and `Collect`, a loop that stops at the first error |
| `cstrings.dfy` | NUL-terminated buffers, `to_upper`, `strip_comments` and `SubString ==` |
| `tokenizer.dfy` | the cursor functions, and `Tokens`, the words successive `get_word` calls return |
| `isa.dfy` | the opcode table, `lookup_op`, `is_label` and `is_comment` |
| `operands.dfy` | `strtoul`, `parse_num`, `parse_reg` and `parse_constant` |
| `encoder.dfy` | `parse_instruction`, and a field-level reference encoding (`Pack`/`Unpack`) |
| `image.dfy` | the ROM image and its big-endian writes |
| `containers.dfy` | the fixed-capacity `Array` |
| `buffer_asm.dfy` | the single-buffer driver |
| `line_asm.dfy` | the line-based two-pass driver and its label name buffer |

Loops of the source are methods proved against the functions that specify
them.

## Model

| member | source | states |
|---|---|---|
| Bits.AddrPlus2Wraps | assembler.cpp:536 | `next_addr += 2` on a `uint32_t` is addition modulo 2^32, and plain addition below the top |
| Bits.SignedWrap | assembler.cpp:340-344 | reading a 32-bit pattern as `int32_t` inverts the wrap to 32 bits for every value in the signed range |
| Bits.TDiv | assembler.cpp:366 | C division truncates toward zero: the remainder `a - q * d` has the dividend's sign and is smaller than the divisor |
| Bits.FitsBitsRange | assembler.cpp:343-344 | the range check on the high bits holds exactly when the signed value lies in [-2^bits, 2^bits) |
| Bits.MaskBitsMod | assembler.cpp:347 | masking to the low `bits` bits gives the signed value modulo 2^bits, a number below 2^bits |
| Errors.CollectOk | assembler.cpp:543-552 | a loop that stops at the first failing step succeeds exactly when every step does, and then yields every step's value in order |
| Errors.CollectErr | assembler.cpp:272-279 | a failing loop reports the error of one of its failing steps |
| Errors.CollectPrefixFails | assembler.cpp:272-279 | once a prefix of the steps fails, the whole loop fails with that same error |
| CStrings.FirstOf | assembler.cpp:174-190 | the first position holding a character, or the length when none does |
| CStrings.CStrEqIsEquality | assembler.cpp:107-115 | for NUL-free operands, `SubString == const char*` is string equality in both directions |
| CStrings.Upper | assembler.cpp:164-172 | upper-casing keeps the length and the terminator, leaves no lower-case letter before the NUL, turns each lower-case letter before it into the letter 32 below, changes nothing else and leaves the bytes past the NUL alone |
| CStrings.UpperIdempotent | assembler.cpp:164-172 | upper-casing twice is upper-casing once |
| CStrings.Stripped | assembler_apr7.cpp:173-189 | after `strip_comments` the string ends at the first `;`, holds no `;`, keeps the text before it and leaves the bytes past the old terminator alone |
| CStrings.ToUpper | assembler.cpp:164-172 | the in-place loop leaves the buffer as `Upper` of its old contents |
| CStrings.StripComments | assembler_apr7.cpp:173-189 | the in-place loop leaves the buffer as `Stripped` of its old contents |
| Tokenizer.BlankEnd | assembler.cpp:193-209 | `skip_blank` stops at the first word character, NUL or, in the buffer version, newline, and skips nothing else |
| Tokenizer.RunEnd | assembler.cpp:211-233 | a word is the maximal run of word characters |
| Tokenizer.NextWord | assembler.cpp:235-249 | `get_word` returns the slice just before the new cursor; only blanks precede it; it is a run of word characters (or a newline word, in the buffer version only); it is empty only at the terminator; the cursor advances whenever it does not stand on the terminator |
| Tokenizer.SkipBlank | assembler.cpp:193-209 | the cursor loop stops where `BlankEnd` says |
| Tokenizer.SkipWord | assembler.cpp:211-233 | the cursor loop stops where `WordEnd` says |
| Tokenizer.GetWord | assembler.cpp:235-249 | the method returns `NextWord`'s word and cursor |
| Tokenizer.GetWordReadsTokens | assembler.cpp:235-249 | successive `get_word` calls read the word sequence left to right: first word, then the words after it |
| Tokenizer.TokensNeverComments | assembler.cpp:266-270 | no word holds a NUL or starts with `;`, since `;` is not a word character |
| Tokenizer.TokensEmptyOnlyLast | assembler_apr7.cpp:535-540 | only the last word of a line can be empty, so the argument loop's empty-word test ends it at the line's end |
| Isa.OpcodesFit | assembler.cpp:64-97 | every opcode fits the 7 bits above bit 8 |
| Isa.MnemonicsColonFree | assembler.cpp:64-97 | no mnemonic holds a colon |
| Isa.MnemonicsNulFree | assembler.cpp:64-97 | no mnemonic holds a NUL |
| Isa.OrgIsNoMnemonic | assembler.cpp:499-503 | `ORG` is a directive, found by no table lookup |
| Isa.LookupFromFirst | assembler.cpp:251-258 | the lookup stops at the first entry the word equals |
| Isa.LookupOp | assembler.cpp:251-258 | `lookup_op` gives an index whose mnemonic the word equals, and `INVALID_OP` only when no entry matches |
| Isa.LookupOpExact | assembler.cpp:251-258 | for a NUL-free word the lookup succeeds exactly when some mnemonic equals it, and finds that mnemonic |
| Isa.OpOf | assembler.cpp:395 | a found mnemonic's entry is in the table and its opcode fits 7 bits |
| Containers.Array.constructor | assembler.cpp:13-16 | a new array is empty, with `max_size` slots |
| Containers.Array.Push | assembler.cpp:17-21 | a push succeeds exactly when a slot is free; it then appends, and otherwise leaves the contents as they were |
| Containers.Array.Get | assembler.cpp:29-32 | indexing below the count returns the element pushed at that position |
| Operands.SpaceEnd | assembler.cpp:340-341 | `strtoul` skips leading white space |
| Operands.DigitRun | assembler.cpp:340-341 | `strtoul` reads the maximal run of digits of its base |
| Operands.StrToUL | assembler.cpp:340-341 | `strtoul` saturates at `ULONG_MAX` |
| Operands.StrToULOfDigits | assembler.cpp:340-341 | on a string of digits `strtoul` reads the whole string and gives its value, saturated at `ULONG_MAX` |
| Operands.CheckAndMask | assembler.cpp:343-347 | the range assert passes exactly when the signed pattern lies in [-2^bits, 2^bits); the result is that value modulo 2^bits; otherwise the error is out of range |
| Operands.ParseNum | assembler.cpp:283-349 | a base prefix `X` or `B` after anything but `0` is a malformed constant; `valid` says that every character after the sign and prefix is a digit of the base; when no `success` flag is asked for, a non-digit is an error; a result is below 2^bits |
| Operands.ParseNumLenient | assembler.cpp:283-349 | with `success` asked for and no malformed prefix, any word is range-checked on the `strtoul` pattern: accepted exactly when it fits `bits`, as that value modulo 2^bits, and out of range otherwise |
| Operands.ParseNumValue | assembler.cpp:283-349 | a well-formed literal is accepted exactly when its signed value fits `bits`, and then gives that value modulo 2^bits, marked valid |
| Operands.PatternValue | assembler.cpp:286-341 | the pattern `parse_num` range-checks, read as signed, is the literal's value with its sign applied |
| Operands.LetterWordIsNoLiteral | assembler.cpp:317-338 | a word starting with a letter and announcing no base prefix is not a literal: it is an invalid zero with `success`, an error without |
| Operands.ParseReg | assembler.cpp:381-385 | a register operand is accepted exactly when it is `R` and one more character; otherwise the register is invalid; the value is the character's distance from `0`, wrapped modulo 2^32 below `0` |
| Operands.ColonRegisterExample | assembler.cpp:381-385 | `R:` is accepted, as register 10 |
| Operands.DisplacementValue | assembler.cpp:366 | for addresses below 2^31 the displacement is half the distance, truncated toward zero |
| Operands.ResolveFrom | assembler.cpp:359-374 | the label loop keeps every result within `bits` bits |
| Operands.ParseConstant | assembler.cpp:351-379 | a constant's result is always below 2^bits |
| Operands.ResolveNoMatch | assembler.cpp:359-374 | when no later entry carries the name, the loop leaves its finding unchanged |
| Operands.ResolveMatch | assembler.cpp:359-374 | the one entry carrying the name sets the finding to its range-checked, masked displacement |
| Operands.ResolveLabel | assembler.cpp:359-374 | among unique names the loop finds the label and yields its displacement masked to `bits`, or an out-of-range error when it does not fit |
| Operands.ParseConstantLiteral | assembler.cpp:351-355 | a well-formed literal is its own value modulo 2^bits when it fits `bits`, and out of range otherwise; the labels are never consulted |
| Operands.ParseConstantPattern | assembler.cpp:340-355 | for a well-formed literal of any magnitude, the constant is the `strtoul` pattern read as `int32_t`, range-checked and masked to `bits`; the labels are never consulted |
| Operands.ParseConstantPassesErrors | assembler.cpp:351-355 | an error of `parse_num` is the constant's error: a malformed prefix, or out of range |
| Operands.DigitLabelExample | assembler.cpp:340-354 | a label name starting with digits, such as `999A`, fails `parse_num`'s range check in 9 bits before the label table is read |
| Operands.ParseConstantLabel | assembler.cpp:351-379 | a word that is no valid literal resolves to the displacement of the label of that name |
| Operands.ParseConstantMissing | assembler.cpp:375 | a word that is neither a literal nor a label name is a label-not-found error |
| Operands.SingleLabel | assembler.cpp:351-379 | a letter-initial name declared once resolves to the masked displacement to it, or is out of range |
| Operands.ForwardBranchExample | assembler.cpp:366 | a branch to the next word has displacement 1 |
| Operands.BackwardBranchExample | assembler.cpp:366 | a branch three bytes back has displacement -1, not -2 (C truncates), which is 511 in 9 bits |
| Operands.HexLookingLabelExample | assembler.cpp:297-315 | a label whose second letter is `X` (`EXIT`) is rejected as a malformed constant before the label table is consulted |
| Encoder.ParseInstruction | assembler.cpp:387-444 | an operand count other than the format's arity is an arity error, and a success always had the right count |
| Encoder.Encode | assembler.cpp:395-441 | the same arity property for any table entry |
| Encoder.UnpackPack | assembler.cpp:395-441 | the reference layout is lossless: unpacking a packed word recovers the opcode and every operand field of its format |
| Encoder.LowRegisterValue | assembler.cpp:381-385 | `R0`-`R7` parse to register numbers below 8 |
| Encoder.EncodePacks | assembler.cpp:395-441 | with registers R0-R7, the shift-and-OR encoding equals the packed operand fields, and the fields fit their bit widths |
| Encoder.ParseInstructionPacks | assembler.cpp:387-444 | with registers R0-R7, `parse_instruction` succeeds exactly when its operands parse, fails with the operands' error otherwise, and its word unpacks to the opcode and those operands |
| Encoder.AddLookup | assembler.cpp:387-395 | `parse_instruction` finds `ADD` at table index 1 and encodes with that entry: opcode 1, three registers |
| Encoder.AddExample | assembler.cpp:403-408 | `ADD R1 R2 R3` encodes as 0x0253 |
| Encoder.UpperExample | assembler.cpp:427-435 | `LOADIMM.UPPER` sets bit 8 above its 8-bit immediate |
| Encoder.BranchExample | assembler.cpp:418-421 | `BRR` to the next word encodes as 0x8001 |
| Encoder.ArityExample | assembler.cpp:391-393 | `ADD` with two operands is an arity error |
| Encoder.WideRegisterExample | assembler.cpp:381-385 | `R8` is accepted and spills into the neighbouring field: `ADD R0 R0 R8` encodes like `ADD R0 R1 R0` |
| Image.Place | assembler.cpp:549-550 | a word can be placed exactly when both of its bytes fall inside the ROM; otherwise the address is out of range |
| Image.Write | assembler.cpp:549-550 | the word reads back big-endian at its address, and every other byte is unchanged |
| Image.Untouched | assembler.cpp:541 | a byte no instruction writes keeps its initial zero |
| Image.LaterWritesKeep | assembler.cpp:543-552 | writes after the last one touching a byte leave that byte alone |
| Image.LastWriteWins | assembler.cpp:543-552 | the word at an address reads back as the last placement there, when no later placement overlaps it |
| BufferAssembler.Gather | assembler.cpp:527-532 | a word ending the list stops it; the gathered operands extend the ones before and number at most three; a fourth operand overflows the argument array |
| BufferAssembler.GatherCollects | assembler.cpp:527-532 | the operands are the words up to the first newline or comment word, which is consumed, or the argument array overflows when there are more than three |
| BufferAssembler.GatherUnended | assembler.cpp:527-532 | operands that no newline or comment word closes overflow the argument array |
| BufferAssembler.GatheredWords | assembler.cpp:527-532 | no gathered operand ends the list |
| BufferAssembler.GatherAtEnd | assembler.cpp:527-532 | operands not closed by a newline or comment at the end of the input overflow the argument array, because `get_word` keeps returning the empty word |
| BufferAssembler.Declare | assembler.cpp:504-517 | a label is declared exactly when its name is new and the table has room, at the current address; otherwise the error is duplicate label or full table |
| BufferAssembler.Record | assembler.cpp:518-537 | recording a mnemonic succeeds exactly when its operands fit the argument array and the instruction array has room; it adds one instruction at the current address with the gathered operands, advances the address by 2 with 32-bit wrap-around and keeps the state consistent |
| BufferAssembler.Statement | assembler.cpp:499-537 | a statement keeps the state consistent, never shrinks the tables and leaves the comment flag alone; a label declares its name, without the colon, at the current address and changes nothing else |
| BufferAssembler.OrgSetsAddress | assembler.cpp:499-503 | `ORG` changes only the address, to a value below 2^16 |
| BufferAssembler.OrgSetsLiteral | assembler.cpp:499-503 | `ORG` with a well-formed literal sets the address to that literal when it fits 16 bits and changes nothing else; otherwise it is out of range |
| BufferAssembler.Step | assembler.cpp:487-538 | a turn of the scan keeps the state consistent, never shrinks the tables and consumes at least one word |
| BufferAssembler.ScanFrom | assembler.cpp:487-538 | the scan keeps the state consistent |
| BufferAssembler.ScanGrows | assembler.cpp:484-538 | the scan only appends to the label table and the instruction list |
| BufferAssembler.LabelMarksNextInstruction | assembler.cpp:504-537 | without `ORG`, a label holds the address at which the next instruction is recorded, or the final address when none follows |
| BufferAssembler.CommentFlagStaysClear | assembler.cpp:491-498 | since no word starts with `;`, the comment state is never entered |
| BufferAssembler.LabelNamesStayUnique | assembler.cpp:504-517 | the scan keeps label names distinct |
| BufferAssembler.AddressesWithoutOrg | assembler.cpp:484-537 | without `ORG`, instruction k sits at address 2k, and every label holds an even address no later than the end |
| BufferAssembler.DeclareLabel | assembler.cpp:504-517 | the duplicate loop and push fail exactly when `Declare` does, with its error; on success the table is `Declare`'s |
| BufferAssembler.ReadArgs | assembler.cpp:527-532 | the operand loop returns what `Gather` gives for the words after the cursor |
| BufferAssembler.RecordInstruction | assembler.cpp:518-537 | the instruction array and the address end as `Record` says, or the method fails with its error |
| BufferAssembler.Act | assembler.cpp:499-537 | the arrays and the address end as `Statement` says |
| BufferAssembler.Turn | assembler.cpp:487-538 | one turn of the loop ends as `Step` says |
| BufferAssembler.Scan | assembler.cpp:484-538 | the scan loop over the buffer returns `ScanFrom` over its words from the start state |
| BufferAssembler.EncodeOne | assembler.cpp:543-552 | an instruction is placed exactly when it encodes and its two bytes fit the ROM, at its address, with `parse_instruction`'s word |
| BufferAssembler.EncodeAll | assembler.cpp:543-552 | a successful encode loop places every instruction inside the ROM |
| BufferAssembler.EncodeAllOk | assembler.cpp:543-552 | the encode loop succeeds exactly when every instruction encodes, with each instruction's placement in order; a failure is the first failing instruction's error |
| BufferAssembler.ImageHolds | assembler.cpp:543-552 | after the loop, each instruction's word reads back big-endian at its address, unless a later instruction overlaps it |
| BufferAssembler.EncodeLoop | assembler.cpp:541-552 | the loop writing into the zeroed array fails exactly when `EncodeAll` does, with its error, and otherwise leaves the image of its placements |
| BufferAssembler.Assembled | assembler.cpp:466-552 | a produced image has 1024 bytes |
| BufferAssembler.Assemble | assembler.cpp:477-552 | `main` yields exactly `Assembled` of its text: the image or the first error |
| BufferAssembler.ScanOutcome | assembler.cpp:484-538 | over any input, a successful scan ends outside the comment state, with a consistent state |
| BufferAssembler.CommentTextIsRead | assembler.cpp:491-498 | in `NOP ; OUT R1` the comment words are taken as operands of `NOP` |
| BufferAssembler.CommentTextFailsToEncode | assembler.cpp:543-552 | so that instruction fails to encode, with an arity error |
| LineAssembler.FirstLong | assembler_apr7.cpp:452 | reading stops at the first line that does not fit the 256-byte buffer |
| LineAssembler.ReadsOn | assembler_apr7.cpp:452 | the read loop goes on exactly while lines fit the buffer |
| LineAssembler.LineWords | assembler_apr7.cpp:455-460 | each line gives the words of its prepared buffer |
| LineAssembler.ReadableWords | assembler_apr7.cpp:452-460 | the passes see the words of exactly the lines read |
| LineAssembler.AddrStep | assembler_apr7.cpp:462-470 | only an `ORG` line can fail to update the address |
| LineAssembler.OrgLineSetsLiteral | assembler_apr7.cpp:462-466 | an `ORG` line with a well-formed literal sets the address to that literal when it fits 16 bits; otherwise it is out of range |
| LineAssembler.LabelLine | assembler_apr7.cpp:460-500 | a first-pass line moves the address as both passes do, and keeps every label name equal to its slice of the name buffer |
| LineAssembler.AddLabel | assembler_apr7.cpp:471-496 | a label is added exactly when its name is new, the name buffer has room for it and the table has a free slot |
| LineAssembler.FirstPass | assembler_apr7.cpp:451-501 | after the first pass every label's name is its slice of the name buffer |
| LineAssembler.LineArgs | assembler_apr7.cpp:535-540 | the argument loop extends the arguments so far, keeps at most three, and fails only by overflowing |
| LineAssembler.LineArgsCollects | assembler_apr7.cpp:535-540 | the loop collects the words up to the first empty one, or overflows when there are more than three |
| LineAssembler.CodeLine | assembler_apr7.cpp:522-546 | a second-pass line moves the address as both passes do, writes exactly when its first word is a mnemonic other than `ORG`, and then at the current address inside the ROM the word `parse_instruction` makes of the line's operands |
| LineAssembler.SecondPass | assembler_apr7.cpp:514-551 | every write of the second pass lands inside the ROM |
| LineAssembler.CodeStep | assembler_apr7.cpp:514-551 | each line keeps every write inside the ROM and only appends to the writes |
| LineAssembler.Assembled | assembler_apr7.cpp:430-564 | a produced image has 1024 bytes |
| LineAssembler.FirstPassPrefix | assembler_apr7.cpp:451-501 | a first pass that succeeds succeeded on every prefix of the lines |
| LineAssembler.SecondPassPrefix | assembler_apr7.cpp:514-551 | a second pass that succeeds succeeded on every prefix of the lines |
| LineAssembler.SecondPassWritesGrow | assembler_apr7.cpp:514-551 | the writes after any prefix of the lines are a prefix of the final writes |
| LineAssembler.PassesAgree | assembler_apr7.cpp:509-551 | restarted from address 0, the second pass ends at the same address as the first |
| LineAssembler.LabelWordIsNoStatement | assembler_apr7.cpp:462-471 | a label word is neither `ORG` nor a mnemonic |
| LineAssembler.LabelLineIgnoresRest | assembler_apr7.cpp:471-530 | a label line is decided by its first word, and the second pass passes over it |
| LineAssembler.LabelLineKeepsNamesUnique | assembler_apr7.cpp:476-480 | a label line keeps label names distinct |
| LineAssembler.FirstPassNamesUnique | assembler_apr7.cpp:471-496 | the first pass gives its labels distinct names |
| LineAssembler.LabelLineGrows | assembler_apr7.cpp:482-490 | a line only appends to the label table |
| LineAssembler.FirstPassLabelsGrow | assembler_apr7.cpp:451-501 | the label table of every prefix of the lines is a prefix of the final table |
| LineAssembler.LabelLineAdds | assembler_apr7.cpp:482-490 | a label line adds its name at the current address and leaves the address alone |
| LineAssembler.InstructionLineWrites | assembler_apr7.cpp:530-546 | an instruction line adds one write at the second pass's current address |
| LineAssembler.LineWordHolds | assembler_apr7.cpp:514-551 | each instruction line's word, as `parse_instruction` makes it of the line's operands, reads back big-endian at the address the second pass reaches the line with, unless a later write overlaps it |
| LineAssembler.AssembledWordHolds | assembler_apr7.cpp:430-564 | the same in the image `main` writes out, for each source line read |
| LineAssembler.FirstPassStays | assembler_apr7.cpp:451-501 | over lines that keep the address, the first pass's address stays where it was |
| LineAssembler.LabelHoldsAddress | assembler_apr7.cpp:471-496 | after a label line and lines that keep the address, the table holds the label at the final address |
| LineAssembler.LabelMarksNextInstruction | assembler_apr7.cpp:482-545 | a label names the address where the second pass writes the next instruction |
| LineAssembler.FirstPassFails | assembler_apr7.cpp:451-501 | once a prefix of the lines fails the first pass, the whole pass fails with that error |
| LineAssembler.SecondPassFails | assembler_apr7.cpp:514-551 | once a prefix of the lines fails the second pass, the whole pass fails with that error |
| LineAssembler.PrepareLine | assembler_apr7.cpp:452-456 | the line buffer holds the stripped, upper-cased, NUL-terminated line |
| LineAssembler.NameBuffer.constructor | assembler_apr7.cpp:443-444 | the name buffer starts empty |
| LineAssembler.NameBuffer.Append | assembler_apr7.cpp:482-490 | the `memcpy` to the mark appends the name to the used part of the buffer |
| LineAssembler.FindLabel | assembler_apr7.cpp:476-480 | the duplicate loop finds a label exactly when one carries the name |
| LineAssembler.DeclareLineLabel | assembler_apr7.cpp:471-496 | the label table and name buffer end as `AddLabel` says, or the method fails with its error |
| LineAssembler.ReadOrigin | assembler_apr7.cpp:462-466 | the `ORG` operand is the next word, parsed as a 16-bit number |
| LineAssembler.FirstPassLine | assembler_apr7.cpp:453-500 | one line of the loop ends as `LabelLine` says |
| LineAssembler.FirstPassStep | assembler_apr7.cpp:451-501 | after one more line, the arrays are the first pass over one line more, or its error |
| LineAssembler.RunFirstPass | assembler_apr7.cpp:451-501 | the first-pass loop ends as `FirstPass` over the lines read |
| LineAssembler.ReadLineArgs | assembler_apr7.cpp:535-540 | the argument loop returns what `LineArgs` gives for the words after the cursor |
| LineAssembler.EncodeLine | assembler_apr7.cpp:530-546 | an instruction line's address and image end as `CodeLine` says |
| LineAssembler.WriteLine | assembler_apr7.cpp:515-550 | one line's address and image end as `CodeLine` says |
| LineAssembler.SecondPassLine | assembler_apr7.cpp:515-550 | one line's image is the image of `CodeStep`'s writes |
| LineAssembler.SecondPassStep | assembler_apr7.cpp:514-551 | after one more line, the image is the second pass over one line more, or its error |
| LineAssembler.RunSecondPass | assembler_apr7.cpp:509-551 | the second-pass loop over the zeroed image ends with the image of `SecondPass`'s writes, or its error |
| LineAssembler.Assemble | assembler_apr7.cpp:441-551 | `main` yields exactly `Assembled` of its lines: the image or the first error |

## Left out

- File and console I/O is not modelled. This covers `read_entire_file`, `ifstream`, `getline`, `seekg`, the hex output file and the usage message. The buffer version takes its input as text and the line version as a sequence of lines. Splitting a file into lines is not modelled either.
- The `cout` debug output of `get_word` and `SubString::print` is not modelled.
- `asm_assert`'s messages and `line_num` are not modelled. An assertion that stops the program becomes an `Error` value.
- `strtoul` is modelled with the C99 prefixes: `0x` is skipped in base 16, and a `0b` in base 2 is not. C23 libraries that also skip `0b` differ only on words such as `0B0B1`, which `parse_num` already reports as invalid.
- `toupper` is treated as ASCII upper-casing, as in the "C" locale.
- `Array::pop` is not modelled, because neither driver calls it.
- `uint16_t` words are an integer subtype below 2^16, not bit-vectors. The 16- and 32-bit truncations are written out explicitly.
- The line buffer is modelled as a fresh buffer per line, not one reused buffer. Every loop stops at the first NUL, so the leftovers of longer earlier lines are never read.
- Label names are values equal to their slice of the name buffer, not addresses into it. `NamesInBuffer` states the correspondence.
- The global `rom_data` of the line version is a fresh zeroed array created by `Assemble`.
- Defects the source leaves as undefined behaviour are modelled as explicit cases:
  - the read buffer is given its missing NUL terminator;
  - a ROM write at or past byte 1023 gives `AddressOutOfRange` instead of writing out of bounds;
  - reading past the end of a word reads the terminator.
- `parse_instruction`'s assert that the mnemonic is in the table is a precondition, because both drivers only call it for found mnemonics. So is the limit of three arguments, which the argument array guarantees.
- The `getline` boundary follows libstdc++: a line of 255 characters fits the 256-byte buffer, and a longer line stops both read loops. End of file without a final newline is not modelled, since the input is already split into lines.
- Operands.ParseNumValue: proved only for magnitudes below 2^31, where the `int32_t` pattern equals the literal's value. Larger magnitudes are still modelled exactly by `ParseNum` and `Pattern`.
- Operands.ParseConstantLiteral: proved only for magnitudes below 2^31, where the pattern equals the literal's value. `ParseConstantPattern` covers every magnitude in terms of the pattern.
- BufferAssembler.OrgSetsLiteral: proved only for literals of magnitude below 2^31.
- LineAssembler.OrgLineSetsLiteral: proved only for literals of magnitude below 2^31.
- Operands.DisplacementValue: proved only for addresses below 2^31, where the `int32_t` casts do not wrap.
- Operands.ResolveLabel: proved only for addresses below 2^31.
- Operands.ParseConstantLabel: proved only for addresses below 2^31.
- Operands.SingleLabel: proved only for addresses below 2^31.
- Encoder.EncodePacks: proved only for registers R0-R7. Wider registers spill into neighbouring fields, as `WideRegisterExample` shows.
- Encoder.ParseInstructionPacks: proved only for registers R0-R7.
- Encoder.UpperExample: stated for any 8-bit literal the parser accepts, as 0x2500 plus its value. The parse of a particular literal such as `0x20` is not evaluated.
- Encoder.BranchExample: stated for any letter-initial label name without a base prefix, at any address below 2^31 - 2.
- Operands.ForwardBranchExample: stated for any letter-initial label name without a base prefix, at any address below 2^31 - 2.
- Operands.BackwardBranchExample: stated for any letter-initial label name without a base prefix, at any address from 3 to below 2^31.
- BufferAssembler.ImageHolds: holds only for instructions that no later instruction overlaps. An `ORG` can make a later write overwrite an earlier one.
- BufferAssembler.AddressesWithoutOrg: covers only inputs without `ORG`.
- BufferAssembler.LabelMarksNextInstruction: covers only inputs without `ORG`, for a label word that is not itself a comment word.
- LineAssembler.LineWordHolds: holds only for instruction lines that no later write overlaps.
- LineAssembler.AssembledWordHolds: holds only for instruction lines that no later write overlaps.
- Operands.DigitLabelExample: stated for four-character names made of `999` and a letter.
- Encoder.AddLookup: stated for `ADD` alone. The other examples are stated on their table entries, since `Isa.OpOf` already ties each found mnemonic to its entry.
- LineAssembler.LabelMarksNextInstruction: covers only the case where every line between the label and the instruction keeps the address.
