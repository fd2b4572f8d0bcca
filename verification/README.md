# Console marshalling layer of the Lua console library

This project is a Dafny model of the part of `src/cons.c` that converts between
Lua values and Win32 console structures, with proofs about it. The model covers four pieces:

- **Flag resolution.** A flag argument can be nil, a number, a flag name, or a
  1-based list of those. It becomes a 32-bit mask (`get_env_flag`,
  `check_env_flag`, `GetFlagCombination`, `CheckFlags`).
- **The INPUT_RECORD codec.** `FillInputRecord` decodes a Lua table into a
  tagged console input record. `InputRecordToTable` encodes a record back
  into a table. The helpers `GetOptIntFromTable` and `GetOptBoolFromTable`
  read optional fields.
- **The console-handle wrapper** (`cons_ud`). It is a class with a mutable
  HANDLE and a fixed kind. It is created by `GetStdHandle` and
  `CreateConsoleScreenBuffer`. It is checked by `check_console_handle` and
  released by close and `__gc`.
- **The batch operations.** These are `ReadConsoleInput`/`PeekConsoleInput`,
  `WriteConsoleInput` and `WriteConsoleOutput`. Each validates its
  arguments in the order the C code does. Each then fills a native buffer,
  or builds a result list, element by element.

Modules, one per file:

| file | module | contents |
|---|---|---|
| `results.dfy` | `Results` | `Option`, `Result`, and the three kinds of Lua error. The kinds are an argument error, a type error, and a plain runtime error. |
| `native_types.dfy` | `NativeTypes` | WORD, SHORT, DWORD, C `int`, BYTE and CHAR as integer ranges. Each has an explicit truncating conversion. Bitwise OR is defined on naturals. |
| `lua_values.dfy` | `LuaValues` | Lua values, field access, the number and string coercions, and the 1-based list protocol. |
| `flag_resolver.dfy` | `FlagResolver` | Flag resolution. |
| `record_codec.dfy` | `RecordCodec` | INPUT_RECORD, decode (a function and the in-place method), and encode. |
| `console_api.dfy` | `ConsoleApi` | HANDLE, COORD, SMALL_RECT and CHAR_INFO, and the log of console calls. |
| `handles.dfy` | `Handles` | The handle wrapper class and the two operations that create it. |
| `batches.dfy` | `Batches` | Read/Peek, WriteConsoleInput, WriteConsoleOutput, and their staging loops. |

Modelling choices:

- **Integer widths.** The Win32 and C widths are modelled, not assumed. A
  Lua integer stored into a WORD, SHORT, DWORD or C `int` is truncated
  explicitly, by `ToWord`, `ToShort`, `ToDWord` and `ToInt32`. The Lua
  side follows Lua 5.3 and later. Numbers are 64-bit integers, which reach
  those stores unchanged, and `lua_tostring` writes them in exact decimal
  (see "Left out"). A resolved
  flag is the unsigned 32-bit pattern of the C `int` it is stored into.
  OR is the bitwise OR of those patterns.
- **The flag name table.** The binding's environment table is a parameter
  of type `map<string, int>`. The round-trip results assume
  `StandardEventNames`: the table maps `"KEY_EVENT"` and the other four
  event names to their wincon.h values.
- **The console itself.** It is not modelled.
  - Every operation that calls it takes the system's reply as parameters:
    a returned handle, a success flag, the records read, the count written,
    or the rectangle written.
  - Every such operation returns `calls`, the list of console calls it
    made, with their arguments.
  - So the contracts can say that each argument error is raised before any
    call is made, and exactly which call is made otherwise.
- **Lua errors.** Errors raised through `luaL_argerror`, `luaL_checktype`
  or `luaL_error` are `Err` results. They carry the stack slot and the
  message the C code uses.
- **`lua_objlen`.** It may return any border of a table with holes, so the
  operations that use it take the length as a parameter. The parameter must
  satisfy `IsBorder`.

Where the C code and its documentation disagree, the model follows the
code:

- **Missing EventType.** A record table without `EventType` is not
  rejected. A missing field resolves to 0, the same as nil, and so matches
  no event kind. The record comes back as an all-zero record with tag 0,
  and is written as such.
- **Numeric strings.** Record fields accept numeric strings wherever
  `lua_isnumber` does. A string given as a flag argument is always looked
  up by name in the flag table, never parsed as a number.
- **Negative record counts.** A record count below 1 is documented as
  rejected. The code stores the count into a DWORD first, so -1 asks for
  4294967295 records (Batches.RecordCountWraps). With Lua 5.3
  integers, only multiples of 2^32 are rejected.
- **Both character forms on encode.** The documentation has a Key event
  carry only one character form, with the narrow one reading as unset
  after a wide round trip. The encoder writes both forms: `AsciiChar` is
  the signed low byte of `UnicodeChar`, so an encoded `'A'` carries
  `AsciiChar = 65` (RecordCodec.EncodeWritesVariantFields). Decoding is not
  affected, because a present `UnicodeChar` takes precedence
  (RecordCodec.UnicodeCharTakesPrecedence).
- **Unknown event kinds.** An unrecognised tag is documented as fatal. The
  code accepts any EventType that resolves. A number such as 3 gives a
  record with that tag and no payload, which is written as it is and reads
  back as an empty table (RecordCodec.UnknownEventTypeAccepted).
- **Names holding a NUL.** A flag name is passed to `lua_getfield` as a C
  string, so only the bytes before its first NUL are looked up
  (FlagResolver.NameEndsAtNul).

## Model

| member | source | states |
|---|---|---|
| FlagResolver.GetEnvFlag | src/cons.c:38-58 | nil resolves to 0. A number resolves to its own 32-bit pattern (a 64-bit Lua integer). A name resolves exactly when the flag table has its part before the first NUL, and then to the table's value. A boolean or a table never resolves. |
| FlagResolver.NameEndsAtNul | src/cons.c:48-49 | A name followed by a NUL and any further bytes resolves exactly as the name alone. |
| FlagResolver.CheckEnvFlag | src/cons.c:60-66 | It raises "invalid flag" on the given argument exactly when `get_env_flag` fails. Otherwise it returns the resolved flag. |
| FlagResolver.FlagCombination | src/cons.c:68-80 | A scalar (nil, number or name) resolves as a single flag. A boolean never resolves. |
| FlagResolver.GetFlagCombination | src/cons.c:68-100 | The C loop succeeds exactly when the combination resolves, and leaves the OR of the list in `trg`. Its invariant is that `trg` is the OR of the elements read so far. |
| FlagResolver.CheckFlags | src/cons.c:102-108 | It raises "invalid flag combination" exactly when the combination fails. Otherwise it returns it. |
| FlagResolver.FoldFlagsFailsIff | src/cons.c:85-97 | The OR over a list fails exactly when one of its elements fails to resolve. |
| FlagResolver.FoldFlagsAppend | src/cons.c:85-97 | The OR over a concatenation is the OR of the two parts. It fails when either part fails. |
| FlagResolver.FoldFlagsSwap | src/cons.c:85-97 | Swapping the two halves of a list does not change its combination, because OR is commutative. |
| FlagResolver.ThreeFlagsCombine | src/cons.c:85-97 | The list `{a, b, c}` of resolvable flags gives `a` OR `b` OR `c`. |
| FlagResolver.CombinationFailsIff | src/cons.c:81-99 | A table fails exactly when some element before its first nil fails. The partial OR is then discarded. |
| FlagResolver.BadElementFailsCombination | src/cons.c:88-93 | One unresolvable element anywhere in the list fails the whole call, even after valid elements. |
| FlagResolver.CombinationStopsAtHole | src/cons.c:85-97 | Slots after the first nil are never read. A table whose slot 1 is nil resolves to 0. |
| LuaValues.ListPrefix | src/cons.c:85-97 | The list read from a table is every slot from the start up to, and not including, the first nil. |
| LuaValues.ListPrefixStopsAtHole | src/cons.c:85-97 | Two tables that agree up to a nil slot give the same list. |
| LuaValues.ListOfListEntries | src/cons.c:401-408 | A table built by storing xs[i] at i+1 reads back as the list xs. The length of xs is a border of it, and no other length is. |
| RecordCodec.GetOptIntFromTable | src/cons.c:116-124 | A numeric field is read into a C int. An absent or non-numeric field gives the default. |
| RecordCodec.GetOptBoolFromTable | src/cons.c:126-132 | An absent field gives the default. A present field gives its Lua truth value. |
| RecordCodec.DecodeRecord | src/cons.c:158-214 | A non-table is a type error on its slot. An EventType that does not resolve is an argument error. Otherwise the record's tag is the resolved value stored into a WORD. A missing EventType gives the all-zero record with tag 0. |
| RecordCodec.FillInputRecord | src/cons.c:158-214 | The method clears the buffer slot, then writes the fields of the matching kind. It stores exactly the decoded record. After a type error the slot is untouched. After an EventType error the slot is cleared. |
| RecordCodec.KeyChar | src/cons.c:180-188 | A present UnicodeChar fills the whole cell, 0 if it is not numeric. Otherwise the cell is below 0x100 and its signed low byte is AsciiChar stored into a CHAR. Its use in decoding is stated by UnicodeCharTakesPrecedence and AsciiCharSetsLowByte. |
| RecordCodec.DecodeEvent | src/cons.c:170-211 | The record keeps the given tag. The BOOL fields are the Lua truth values of `bKeyDown` and `bSetFocus`, as 0 or 1. Which fields it reads is stated by DecodeReadsOnlyVariantFields, and its defaults by DecodeDefaults. |
| RecordCodec.UnknownEventTypeAccepted | src/cons.c:162-211 | A numeric EventType that names no kind decodes to a record with that tag and no payload, and encodes to an empty table. |
| RecordCodec.DecodeDefaults | src/cons.c:162-211 | A table holding only a resolvable EventType decodes to the zero record of its kind, except that `wRepeatCount` is 1. |
| RecordCodec.DecodeReadsOnlyVariantFields | src/cons.c:170-211 | Decoding reads only EventType and the documented fields of the resolved kind. |
| RecordCodec.UnicodeCharTakesPrecedence | src/cons.c:180-188 | A present UnicodeChar alone sets the character cell. A non-numeric one gives 0. AsciiChar is ignored, whatever it holds. |
| RecordCodec.AsciiCharSetsLowByte | src/cons.c:180-188 | Without UnicodeChar, AsciiChar (default 0) sets only the low byte of the cell. The high byte stays 0. |
| RecordCodec.InputRecordToTable | src/cons.c:344-383 | A known record gives a table whose EventType is the kind's name. A record of another kind gives an empty table. Its full field set is stated by EncodeWritesVariantFields, and its inverse by DecodeEncode. |
| RecordCodec.EncodeWritesVariantFields | src/cons.c:344-383 | Encoding writes the tag name and exactly the documented fields of the record's kind. For Key it writes both UnicodeChar and AsciiChar, the signed low byte. An unknown kind gives an empty table. |
| RecordCodec.DecodeEncode | src/cons.c:344-383 | Decoding an encoded record gives the record back, with BOOLs as 0/1 and an unknown kind as tag 0. A record already in that form comes back exactly. |
| RecordCodec.EncodeDecodeEncode | src/cons.c:158-214 | Encoding the decoded form of an encoding gives the same table. |
| RecordCodec.FocusEventExample | src/cons.c:208-210 | `{EventType="FOCUS_EVENT", bSetFocus=true}` decodes to a focus record with the flag set, and encodes back to the same table. |
| Handles.ConsoleHandle.constructor | src/cons.c:267-270 | A wrapper is created only around a valid handle. It keeps its kind forever. |
| Handles.ConsoleHandle.Check | src/cons.c:222-227 | A closed wrapper gives "access to closed handle" on the given argument. An open wrapper gives its handle. |
| Handles.ConsoleHandle.Close | src/cons.c:251-259 | Only an open screen buffer is passed to CloseHandle and marked closed. Any other wrapper is unchanged, and no call is made. A wrapper is closed at most once. |
| Handles.ConsoleHandle.Gc | src/cons.c:236-249 | The finaliser does what close does. |
| Handles.GetStdHandle | src/cons.c:261-275 | The flag is checked before any call. An invalid reply gives nil. Any other reply gives a new standard-console wrapper around it. |
| Handles.CreateConsoleScreenBuffer | src/cons.c:536-553 | The three flag combinations are checked in order before any call. An invalid reply gives nil. Any other reply gives a new screen-buffer wrapper. |
| Batches.StageOk | src/cons.c:436-442 | Staging succeeds exactly when every element converts. Slot k-1 then holds element k. |
| Batches.StageFirstError | src/cons.c:436-442 | A failed staging reports the error of the first element that fails. |
| Batches.RecordCount | src/cons.c:391-393 | A non-number count is a type error. The count is stored into a DWORD, which must be non-zero. |
| Batches.RecordCountWraps | src/cons.c:392-393 | -1 (also as a string) requests 4294967295 records. With Lua 5.3 integers, 2^32 is rejected as 0. |
| Batches.ReadOrPeekConsoleInput | src/cons.c:385-410 | The handle and the count are checked before the one Read/Peek call. On failure the result is nil. On success it is the table whose entry i+1 is the encoding of record i. |
| Batches.ReadResultIsList | src/cons.c:401-408 | A successful read returns a proper list of exactly nRead entries. `lua_objlen` of it can only be nRead. |
| Batches.StageInputBuffer | src/cons.c:435-442 | The loop decodes element i+1 into slot i. It stops with the first element's error. |
| Batches.WriteConsoleInput | src/cons.c:422-447 | Checks run in order: the handle, then the table type, then emptiness. Then the records are staged. The staged records go to the one WriteConsoleInput call. The result is the written count, or nil on failure. |
| Batches.ReadThenWrite | src/cons.c:436-442 | Whatever length `lua_objlen` reports for a list returned by a read, it is the record count. The list stages, for a write, into the records read in canonical form: BOOLs as 0/1 and a record of unknown kind as tag 0. |
| Batches.CellOf | src/cons.c:484-494 | The character must convert to a string, and its first byte becomes the signed AsciiChar. The attribute must be a number and is stored into a WORD. The character is checked first. |
| Batches.CellOfEdgeCases | src/cons.c:486-488 | An empty string gives the NUL byte. A number is accepted through its decimal form. |
| Batches.ShortParam | src/cons.c:469-478 | A numeric parameter field is stored into a SHORT. The C int it passes through changes nothing. An absent or non-numeric field gives 0. |
| Batches.BufferSizeOf | src/cons.c:469-470 | The buffer size is `dwBufferSizeX` and `dwBufferSizeY`, each read as a SHORT with default 0. |
| Batches.BufferCoordOf | src/cons.c:473-474 | The buffer origin is `dwBufferCoordX` and `dwBufferCoordY`, each read as a SHORT with default 0. |
| Batches.WriteRegionOf | src/cons.c:475-478 | Each side of the write region is the field of the same name, read as a SHORT with default 0. |
| Batches.OutputParamsDefaults | src/cons.c:469-478 | Absent size, origin and region fields are 0. |
| Batches.RegionTable | src/cons.c:500-504 | The result table holds exactly the four WriteRegion fields. RegionRoundTrip states that they name the written region. |
| Batches.RegionRoundTrip | src/cons.c:500-504 | The returned region table, passed back as parameters, gives the same region. |
| Batches.StageOutputBuffer | src/cons.c:480-495 | The loop fills cell i from element i+1 of both arrays. It stops with the first error. |
| Batches.WriteConsoleOutput | src/cons.c:449-506 | Checks run in source order, each before any call: the handle, the character table, emptiness, the attribute table, equal sizes, the parameter table, and SizeX*SizeY against the length. The staged cells, size, origin and region go to one call. The result is the written region, or nil. |
| Batches.AllocationWraps32 | src/cons.c:395 | In a 32-bit build, an accepted count gets a buffer too small for one record. |
| Batches.AllocationExact | src/cons.c:395 | The 32-bit byte count is the intended one exactly when the product fits in 32 bits, which is for counts up to 0x0CCCCCCC. Above that it always falls short. |

## Left out

- Metamethods of user tables are not modelled. Tables are finite maps read
  raw, so an `__index` that answers every index (which would keep the
  1-based loops reading until the C `int` index overflows) cannot be
  expressed.
- Lua stack handling is not modelled. This covers `abs_index`, the
  `luaL_checkudata` type check of the handle argument, metatables, and
  module registration. Arguments are typed parameters.
- Handles.ConsoleHandle.Gc: the metatable identity check that `__gc` makes
  first is not modelled, so gc is exactly close.
- Argument stack slots above the declared ones are not modelled.
  WriteConsoleInput takes the argument count `nargs` only to name the stack
  slot of a failing element.
- The static flag table (`push_flags_table`) is not part of this model. It
  is a parameter. A name the table maps to a non-number is treated as
  absent.
- The thin Win32 wrappers, `consolehandle_tostring` and raw string-to-buffer
  casts are not part of this model. They are one-call wrappers with no
  logic of their own.
- Console behaviour is not modelled. This covers which handle GetStdHandle
  returns, which records are pending, and what region is written. The
  system's replies are parameters.
- Batches.ReadOrPeekConsoleInput: the model requires the system to return
  at most nLength records, which is what the console API promises.
- Batches.WriteConsoleInput: the model requires table lengths below 2^32.
  Batches.WriteConsoleOutput requires them below 2^31. So the `size_t` to
  DWORD and `size_t` to `int` narrowing of `lua_objlen` is the identity;
  larger tables cannot exist in the 32-bit address space.
- Batches.WriteConsoleOutput: only the AsciiChar byte of each CHAR_INFO is
  modelled. The other byte of the 16-bit character cell is whatever the
  allocation held, and it is not stated.
- Lua 5.1 and 5.2 are not modelled, and neither are Lua 5.3 floats.
  - In Lua 5.1 and 5.2 every number is a double. A digit string is read
    through `strtod`, so it is exact only up to 2^53.
  - In Lua 5.1 and 5.2, `lua_tostring` formats a number with `"%.14g"`,
    so 999999999999999 becomes `"1e+15"`.
  - In a 32-bit build of Lua 5.1 or 5.2, converting a number outside the
    C `int` range to an integer depends on the compiler.
  - The model follows Lua 5.3 and later: integers are 64 bits and are
    printed in exact decimal.
  - This concerns GetEnvFlag on numbers, RecordCount, CellOf on numbers
    and every numeric record or parameter field.
  - The allocation finding does not depend on any of this, because its
    count lies inside the `int` range.
- LuaValues.ToNumber: a digit string outside [-2^63, 2^63) is not
  modelled. Lua 5.3 reads such a string as a float, and `lua_tointeger`
  then gives 0, unless the float rounds to exactly -2^63. The model parses it exactly
  and the stores truncate that value.
- `lua_isnumber`/`lua_tointeger` are modelled on integers and on strings of
  an optional sign and decimal digits. Floating-point numbers and Lua's
  hexadecimal, exponent and whitespace forms are not modelled.
  `PutNumToTable` pushes doubles, but every value it pushes is a 16- or
  32-bit integer.
- Lua strings are sequences of characters standing for bytes. Encodings are
  not modelled.
- Memory-allocation failure (a Lua memory error) is not modelled.

## Findings

| source | as written | input that shows it | evidently intended | confidence | as-written member | corrected member |
|---|---|---|---|---|---|---|
| src/cons.c:395 | `nLength*sizeof(INPUT_RECORD)` is computed in 32-bit `size_t` on a 32-bit build. It wraps, so an accepted count can get a buffer smaller than one record, which ReadConsoleInput/PeekConsoleInput then write up to nLength records into. | count 0x0CCCCCCD (214748365): 214748365 * 20 wraps to 4 bytes | a buffer with room for nLength records | medium: only 32-bit builds; not executed | Batches.AllocationWraps32 (Batches.AllocationBytes32) | Batches.AllocationExact (Batches.AllocationBytes). Batches.ReadOrPeekConsoleInput allocates nLength records, and its writes of the returned records into that buffer are checked in bounds. |
