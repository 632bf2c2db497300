# LuaOpenCL reflection layer in Dafny

LuaOpenCL binds the OpenCL 1.2 platform API to Lua. Its core is table-driven reflection. Three constant tables drive it:

- `info_list` lists the `clGet*Info` parameters of every object category, sorted by id and closed by a sentinel.
- `enum_info_list` gives the names of the enumeration and bitfield constants.
- `error_info_list` gives the messages of the status codes.

Around these tables sit the other parts of the core:

- the range lookups `getInfoTable` and `getEnumTable`;
- the enumeration/bitfield codec (`pushEnum`, `pushBitField`, `GetEnumValue`, `pushEnumArray`);
- `error_check`;
- the two-call info query `push_info` and the `push*` decoders it dispatches to;
- the wrapper objects with their retain/release accounting;
- the argument guards `check_type` and `CLObject::CheckObject`;
- the library functions `cl.platforms`, `platform:devices()` and `cl.context`.

This project models those parts as pure functions over immutable sequences and maps, one module per concern:

| module | file | what it holds |
|---|---|---|
| `Results` | results.dfy | the errors the binding raises (`luaL_error` sites), `Result`/`Option`, and the loop that stops at the first failing element |
| `Bits` | bits.dfy | 64-bit words as pairs of 32-bit halves, `&`/`|`, sign extension of a C `int` |
| `Bytes` | bytes.dfy | little-endian buffers, `*(const T*)ptr` reads, NUL-terminated strings |
| `Text` | text.dfy | the separator-joined strings built with `luaL_Buffer` |
| `Catalog` | catalog.dfy | enumeration rows and `getEnumTable`, both as intended and as written |
| `Codec` | codec.dfy | `pushEnum`, `GetEnumValue`, `pushBitField`, `pushEnumArray`, and partition properties read as `intptr_t` |
| `Errors` | errors.dfy | `error_check` over an error table |
| `Objects` | objects.dfy | wrapper classes, retain balances, wrap/finalize accounting |
| `Host` | host.dfy | Lua values, `check_type`, `CheckObject`, wrapper metatables, `CallMethod` |
| `Decoders` | decoders.dfy | the `push*` decoders of the info rows |
| `Schema` | schema.dfy | `info_list`, `first_info_ids` and `getInfoTable` |
| `Query` | query.dfy | `push_info`: probe, fill, decode, store, first error aborts |
| `Context` | context.dfy | `cl.context`, `cl.platforms`, `platform:devices()` |
| `Tables` | tables.dfy | the OpenCL 1.2 contents of `enum_info_list` and `error_info_list`, and facts about them |

**Native calls.** The native OpenCL calls are parameters (oracles):

- a probe and a fill function for `clGet*Info`;
- a count reply and a fill function for `clGetPlatformIDs`/`clGetDeviceIDs`;
- a create function for `clCreateContext*`.

Each returns a status code together with its output.

**Retain balances.** `Objects` keeps, per handle, the balance of the `clRetain*` and `clRelease*` calls the binding issues. For a context this is its native reference count. A root device ignores both calls under OpenCL 1.2, and every device the binding lists is a root device. For devices the balance is therefore the binding's own bookkeeping, not a native count.

**Tables.** Lemmas about the lookups are stated for any table. The `Tables` module then instantiates them on the OpenCL 1.2 tables, with the numeric values of the Khronos headers. In `enum_info_list` no type's run repeats a value or a name (`Tables.CatalogDistinct`), so every row round-trips through `pushEnum` and `GetEnumValue` (`Tables.CatalogRowRoundTrips`).

**Array and binaries decoders.** `pushArray` and `pushEnumArray` do not check that the size is a multiple of the element size: they divide it and ignore a trailing partial element (`Decoders.NumberArrayIgnoresTail`). `pushBinaries` type-checks the stack slot that holds the raw fill buffer.

## Model

| member | source | states |
|---|---|---|
| Bits.SignExtend | LuaOpenCL.cpp:162-170 | the 32-bit `int` a row stores keeps its bits in the low half of the 64-bit mask, and as an unsigned 64-bit number it is the word itself when non-negative and the word plus 0xFFFF_FFFF_0000_0000 when negative |
| Bits.MinusOneExtendsToAllOnes | LuaOpenCL.cpp:674 | the row stored as -1 ("all") becomes the all-ones 64-bit word |
| Bytes.Signed32 | LuaOpenCL.cpp:157 | `%d` of a `cl_uint` prints the one number in [-2^31, 2^31) congruent to the word modulo 2^32 |
| Bytes.Word64OfBytes64 | LuaOpenCL.cpp:63 | a 64-bit word stored little-endian reads back as itself |
| Bytes.Fit | LuaOpenCL.cpp:113-117 | the decoded buffer has exactly the probed size and starts with the bytes the fill wrote |
| Bytes.CString | LuaOpenCL.cpp:87 | `lua_pushstring` takes the bytes before the first NUL, none of which is NUL |
| Bytes.CStringOfTerminated | LuaOpenCL.cpp:87 | a NUL-terminated string reads back as itself whatever follows it |
| Text.Join | LuaOpenCL.cpp:172-174 | no parts give ""; otherwise the length is the parts plus one separator between each pair |
| Text.JoinSnoc | LuaOpenCL.cpp:172-174 | adding a name adds the separator only when a name came before (`if(cnt++)`) |
| Text.JoinStartsWithFirst | LuaOpenCL.cpp:379-381 | no separator precedes the first name |
| Catalog.FirstOfType | LuaOpenCL.cpp:834-836 | the first scan stops at the first row of the type, or at the end |
| Catalog.EndOfType | LuaOpenCL.cpp:838-840 | the second scan, bounded by `j`, stops at the first row of another type, or at the end |
| Catalog.TypeRun | LuaOpenCL.cpp:831-842 | the span is the type's run: no row of the type before it, only rows of the type in it, none right after it |
| Catalog.GetEnumTable | LuaOpenCL.cpp:831-842 | the two loops with the intended `j` bound return exactly the type's run and stay inside the table |
| Catalog.TypeRunUnique | LuaOpenCL.cpp:831-842 | a table has only one such run per type |
| Catalog.GroupedRunIsExact | LuaOpenCL.cpp:667-810 | when each type's rows are contiguous, the run holds exactly the rows of the type |
| Catalog.TypeRunOfLayout | LuaOpenCL.cpp:831-842 | a block of the type with the type absent around it is the run the lookup finds |
| Catalog.EndAsWritten | LuaOpenCL.cpp:838-840 | the second scan as written, testing `i` instead of `j`, ends within the table or reads past it |
| Catalog.EndAsWrittenMatchesEnd | LuaOpenCL.cpp:838-840 | the written scan ends where the intended one does unless the run reaches the last row, where it reads past the end |
| Catalog.AsWrittenOverrunsIffRunAtEnd | LuaOpenCL.cpp:838-842 | the written lookup overruns exactly when the type is present and its run ends the table; otherwise it returns the intended run |
| Catalog.GetEnumTableAsWritten | LuaOpenCL.cpp:831-842 | `getEnumTable` as written; its contract is stated by Catalog.AsWrittenOverrunsIffRunAtEnd and Tables.AsWrittenOverrunsOnLast: it reads past the table exactly when the type's run ends it, and otherwise returns the intended run |
| Codec.FirstWithValue | LuaOpenCL.cpp:149-156 | the scan finds the first row with the value, or the end |
| Codec.FirstWithName | LuaOpenCL.cpp:202-204 | the scan finds the first row with the name, or the end |
| Codec.DecodeEnum | LuaOpenCL.cpp:144-158 | succeeds iff a row of the run has the value, giving the first such row's name; otherwise raises "unknown enum value" with the value as `%d` prints it |
| Codec.GetEnumValue | LuaOpenCL.cpp:198-207 | succeeds iff a row of the run has the name, giving the first such row's value; otherwise raises "enumeration value not found" |
| Codec.EncodeThenDecode | LuaOpenCL.cpp:198-207 | with distinct values in the run, decoding the value found for a name gives the name back |
| Codec.DecodeThenEncode | LuaOpenCL.cpp:144-158 | with distinct names in the run, looking up the decoded name gives the value back |
| Codec.RowRoundTrips | LuaOpenCL.cpp:144-207 | every row of a run with distinct values and names round-trips both ways |
| Codec.MatchingNames | LuaOpenCL.cpp:168-176 | never lists more names than the run has rows |
| Codec.JoinMatching | LuaOpenCL.cpp:163-177 | the loop with its `cnt` counter builds the matching names joined by ", " |
| Codec.PushBitField | LuaOpenCL.cpp:160-178 | `pushBitField` pushes the names of the type's run whose bits are all set, in row order, joined by ", " |
| Codec.BitFieldText | LuaOpenCL.cpp:160-178 | the string `pushBitField` pushes; Codec.PushBitField proves the loop equals it, and Codec.MatchingNamesExact and Codec.DecodeComposed state which names it holds |
| Codec.MatchingNamesStep | LuaOpenCL.cpp:170-175 | one loop step appends the row's name iff its bits are all set |
| Codec.MatchingNamesExact | LuaOpenCL.cpp:168-176 | a name is listed iff some row with that name has all its bits set |
| Codec.ZeroRowAlwaysListed | LuaOpenCL.cpp:170 | a row with value 0 is listed for every bitfield |
| Codec.MinusOneRow | LuaOpenCL.cpp:162-170 | the -1 row is listed only when all 64 bits are set, and not for the zero-extended 32-bit all-ones |
| Codec.ComposeMisses | LuaOpenCL.cpp:170 | the OR of flags that each miss a mask misses it |
| Codec.ComposeMask | LuaOpenCL.cpp:170 | masking the OR of a selection of disjoint flags with one flag tells whether it was selected |
| Codec.MatchingNamesFollowPick | LuaOpenCL.cpp:168-176 | the listing equals a selection when the bit test agrees with it row by row |
| Codec.DecodeComposed | LuaOpenCL.cpp:160-178 | a bitfield built as the OR of any selection of disjoint flags decodes to exactly the selected names, in table order |
| Codec.DecodeEnumElements | LuaOpenCL.cpp:75-85 | the array decodes iff every element does; then each entry is that element's name, in order; otherwise it raises "unknown enum value" for the first element that does not decode |
| Codec.PropertyReadAsTwoEnums | LuaOpenCL.cpp:75-85 | as written, one 8-byte `intptr_t` property is read as two cl_uint elements, its low half and then its high half |
| Codec.DecodeEnumArray | LuaOpenCL.cpp:75-85 | `pushEnumArray`: `size / sizeof(cl_uint)` elements; its contract is Codec.DecodeEnumElements (the iff, the names in order, the first unknown element's error) |
| Codec.DecodeProperty | LuaOpenCL.cpp:146-157 | a 64-bit property matches a row iff it equals the row's `int` value sign-extended, giving the first such row's name; otherwise it raises with the value |
| Codec.PropertyWord | LuaOpenCL.cpp:586-588 | each 8-byte element of the buffer is the little-endian encoding of the property word read from it |
| Codec.DecodePropertyElements | LuaOpenCL.cpp:586-588 | the property array decodes iff every 8-byte element does, giving one name per element in order; otherwise it raises "unknown enum value" with the signed 64-bit value of the first element that names no row |
| Codec.PropertyReadAsOne | LuaOpenCL.cpp:586-588 | read as intended, one property written by the native call gives exactly one name |
| Codec.DecodePropertyArray | LuaOpenCL.cpp:586-588 | the corrected partition-property reading of 8-byte elements; its contract is Codec.DecodePropertyElements, and Codec.PropertyReadAsOne gives one name per property |
| Errors.Translate | LuaOpenCL.cpp:848-856 | a known code gives the message of its first row; an unknown code gives "unknown error" |
| Errors.ErrorCheck | LuaOpenCL.cpp:844-858 | raises iff the code is not `CL_SUCCESS`; then "OpenCL: " is followed by the message of the first table row with that code, or by "unknown error" when no row has it |
| Errors.TranslateAt | LuaOpenCL.cpp:849-856 | the first row carrying a code gives its message |
| Objects.ClassNameInjective | LuaOpenCL.cpp:298-340 | the class names of the wrapper classes are distinct |
| Objects.Retain | LuaOpenCL.cpp:289-344 | a retain adds one to a counted handle (device, context), nothing to a platform, and moves no other count |
| Objects.Release | LuaOpenCL.cpp:289-344 | a release takes one from a counted handle with a reference, nothing otherwise, and moves no other count |
| Objects.WrapThenFinalize | LuaOpenCL.cpp:56-62 | wrapping and then collecting the wrapper leaves every count as it was |
| Objects.Wrap | LuaOpenCL.cpp:56-62 | `pushNewObject`'s native effect, one retain; its contract is Objects.Retain, and Objects.WrapThenFinalize pairs it with Objects.Finalize |
| Objects.Finalize | LuaOpenCL.cpp:279 | the `__gc` metamethod's native effect, one release; its contract is Objects.Release, and Objects.RunAccounting sums wraps and collections |
| Objects.RunAccounting | LuaOpenCL.cpp:279 | over any lifetime history that never releases below zero, a counted handle ends at its start plus wraps minus collections; a platform never moves |
| Objects.BalancedLifetimes | LuaOpenCL.cpp:56-62 | as many collections as wraps restore the count |
| Host.TypeTag | LuaOpenCL.cpp:370 | `lua_type` gives one of the `LUA_NUMTAGS` tags |
| Host.AllowedTagsExact | LuaOpenCL.cpp:376-382 | the listed tags are exactly the set bits of the mask, in increasing order |
| Host.CheckType | LuaOpenCL.cpp:368-385 | passes iff the value's tag bit is in the mask; otherwise the message lists the name of every tag whose bit is set, each once, in increasing tag order, joined by " or ", and names the type found |
| Host.CheckTypePasses | LuaOpenCL.cpp:371-372 | an allowed tag passes silently |
| Host.NamesOfContextMasks | LuaOpenCL.cpp:392-393 | the two masks of `cl_new_context` allow string and table, and nil and table, listed in tag order |
| Host.TableOrStringMessage | LuaOpenCL.cpp:392 | any other first argument raises "expected type string or table" |
| Host.TableOrNilMessage | LuaOpenCL.cpp:393 | any other second argument raises "expected type nil or table" |
| Host.TableOrStringPasses | LuaOpenCL.cpp:392 | a string or a table passes the first check |
| Host.TableOrNilPasses | LuaOpenCL.cpp:393 | nil or a table passes the second check |
| Host.CString | LuaOpenCL.cpp:252 | `strcmp` compares the characters before the first NUL |
| Host.CheckObject | LuaOpenCL.cpp:242-258 | passes iff the value is a userdata marked "OpenCL metatable" of the named class, giving its handle; otherwise raises the bad-argument, unknown-userdata or wrong-class error, the last naming both classes |
| Host.WrapperMetatable | LuaOpenCL.cpp:267-285 | the metatable holds the marker and the info, tostring, gc (and for platforms devices) methods |
| Host.WrapperChecks | LuaOpenCL.cpp:242-258 | a wrapper passes `CheckObject` under its own class name and fails under any other, reporting its class |
| Host.CStringOfPlain | LuaOpenCL.cpp:252 | a string without NUL compares as itself |
| Host.ColonAndDotAgree | LuaOpenCL.cpp:233-241 | `obj:m(a)` and `obj.m(a)` reach the method with the same arguments |
| Decoders.DecodeNumber | LuaOpenCL.cpp:63 | succeeds iff the size equals the scalar's width; the buffer is then the little-endian encoding of one word, and the number is that word read unsigned or in two's complement as the kind says; otherwise the size assertion fails |
| Decoders.NumberElements | LuaOpenCL.cpp:64-74 | one number per element, in order, each read as `push<T>` reads it |
| Decoders.DeviceElements | LuaOpenCL.cpp:64-74 | one device handle per pointer-sized element, in order |
| Decoders.DecodeWord32 | LuaOpenCL.cpp:63 | a `cl_uint` or `cl_int` written by the query reads back as its value |
| Decoders.DecodeWord64 | LuaOpenCL.cpp:63 | a `cl_ulong`/`size_t` or `intptr_t` reads back as its value |
| Decoders.DecodeText | LuaOpenCL.cpp:87 | a NUL-terminated string decodes to itself |
| Decoders.DecodeBoolean | LuaOpenCL.cpp:88 | a `cl_bool` is true iff its word is non-zero |
| Decoders.DecodeObject | LuaOpenCL.cpp:346-347 | a handle decoder yields a new wrapper of the handle and wraps exactly that handle |
| Decoders.Decode | LuaOpenCL.cpp:63-102 | the dispatch to the `push*` decoder of a row; Decoders.DecodeNumber, DecodeWord32, DecodeWord64, DecodeText, DecodeBoolean, DecodeObject and DeviceArrayWrapsListed state its cases, and Decoders.OnlyHandleDecodersWrap says only the handle decoders wrap |
| Decoders.NumberArrayIgnoresTail | LuaOpenCL.cpp:66 | bytes that do not fill a whole element do not change the decoded array |
| Decoders.DeviceArrayWrapsListed | LuaOpenCL.cpp:64-74 | a device array lists one wrapper per element and wraps exactly the handles it lists |
| Decoders.OnlyHandleDecodersWrap | LuaOpenCL.cpp:346-351 | every decoder but the two handle decoders wraps nothing |
| Decoders.ImageFormatFields | LuaOpenCL.cpp:94-102 | the corrected record succeeds iff the order is a channel order and the data type a channel type, holding both names |
| Decoders.ImageFormatAsWrittenFields | LuaOpenCL.cpp:98-101 | the record as written succeeds iff both fields are channel orders, and fails on the data type otherwise |
| Decoders.DecodeImageFormat | LuaOpenCL.cpp:94-102 | `push<cl_image_format>` with each field decoded by its own type; its contract is Decoders.ImageFormatFields |
| Decoders.DecodeImageFormatAsWritten | LuaOpenCL.cpp:94-102 | `push<cl_image_format>` as written; its contract is Decoders.ImageFormatAsWrittenFields, and Tables.ImageFormatAsWrittenAlwaysFails shows it fails on every valid format |
| Schema.Ordinal | LuaOpenCL.cpp:12-18 | every category has a position below `IT_MAX` |
| Schema.FirstAtLeast | LuaOpenCL.cpp:824 | the unguarded scan stops at the first id at or above the boundary, inside the list thanks to the sentinel |
| Schema.GetInfoTable | LuaOpenCL.cpp:821-829 | the slice stays before the sentinel; on an ascending list it holds exactly the rows with ids between the category's boundaries |
| Schema.GetInfoTableIsInfoRange | LuaOpenCL.cpp:821-829 | the loops agree with the functional reading of the two scans |
| Schema.SentinelExcluded | LuaOpenCL.cpp:664 | the sentinel row belongs to no category |
| Schema.CategoriesAdjacent | LuaOpenCL.cpp:812-829 | on an ascending list each category ends where the next one starts |
| Query.FetchSucceedsIff | LuaOpenCL.cpp:111-120 | the loop completes iff every row goes through, having made every row's calls and wraps in order |
| Query.FetchFailsAtFirstBad | LuaOpenCL.cpp:111-120 | a failed loop raises the first failing row's error after the calls up to that row |
| Query.FetchKeys | LuaOpenCL.cpp:118 | the table's keys are exactly the rows' names |
| Query.FetchLaterRowWins | LuaOpenCL.cpp:118 | under a repeated name the table holds the last such row's value |
| Query.AllCallsPaired | LuaOpenCL.cpp:114-116 | in the calls of any rows, every fill follows the probe of the same parameter with the probed size |
| Query.PushInfoProbesBeforeFill | LuaOpenCL.cpp:104-122 | whether or not `push_info` completes, each fill asks for the size its probe returned |
| Query.RowResultOk | LuaOpenCL.cpp:113-117 | a row succeeds iff both statuses are success and the buffer decodes; a failed probe raises its translated error, a failed fill after a good probe raises the fill's translated error, and otherwise the row is the decoding of the buffer of the probed size |
| Query.QueryLoopSucceedsIff | LuaOpenCL.cpp:111-120 | the query loop completes iff each row goes through |
| Query.PushInfoSucceedsIff | LuaOpenCL.cpp:104-122 | `push_info` builds a table iff every row of the category goes through |
| Query.PushInfo | LuaOpenCL.cpp:104-122 | `push_info`; its contract is Query.PushInfoSucceedsIff (a table iff every row of the category goes through) and Query.PushInfoProbesBeforeFill (each fill asks for its probed size) |
| Query.Fetch | LuaOpenCL.cpp:111-120 | the loop of `push_info`; its contract is Query.FetchSucceedsIff, Query.FetchFailsAtFirstBad, Query.FetchKeys and Query.FetchLaterRowWins |
| Query.RowResult | LuaOpenCL.cpp:113-117 | one row of `push_info`; its contract is Query.RowResultOk |
| Results.CollectExact | LuaOpenCL.cpp:401-407 | a loop stopping at the first failure succeeds iff every element does, giving the values in order, else the first failure |
| Context.CheckListExact | LuaOpenCL.cpp:396-407 | the device list passes iff every element is a device wrapper, giving their handles in order; otherwise the first bad element's error |
| Context.ContextRejectsFirst | LuaOpenCL.cpp:392 | a first argument that is neither table nor string raises "string or table" |
| Context.ContextRejectsSecond | LuaOpenCL.cpp:393 | then a second argument that is neither table nor nil raises "nil or table" |
| Context.ContextArgumentsPass | LuaOpenCL.cpp:391-393 | accepted argument types pass both checks |
| Context.ContextFromDevices | LuaOpenCL.cpp:396-409 | a table requests a context on exactly its devices, or fails with the device check's error |
| Context.ContextFromType | LuaOpenCL.cpp:410-413 | a string requests the device type it names, sign-extended to 64 bits, or fails the name lookup |
| Context.ContextRequest | LuaOpenCL.cpp:389-413 | the argument dispatch of `cl_new_context`; its contract is Context.ContextRejectsFirst, ContextRejectsSecond, ContextArgumentsPass, ContextFromDevices and ContextFromType |
| Context.NewContext | LuaOpenCL.cpp:386-418 | succeeds iff the request is valid and creation succeeds, returning a context wrapper of the created handle |
| Context.NewContextCounts | LuaOpenCL.cpp:408-416 | the new context ends with exactly one reference, released when the wrapper is collected; no other count moves |
| Context.NewContextIsContext | LuaOpenCL.cpp:416 | the returned wrapper passes `CheckObject` as "context" and as nothing else |
| Context.Ids | LuaOpenCL.cpp:314-315 | the id buffer has the counted length and holds the ids the fill wrote; ids it did not write read as 0 (see "## Left out") |
| Context.Enumerate | LuaOpenCL.cpp:353-366 | succeeds iff both calls succeed, listing one handle per counted id in order; a failed count raises its translated error, and a failed fill after a good count raises the fill's |
| Context.EnumerateCounts | LuaOpenCL.cpp:360-364 | each listed handle is retained once per occurrence; other counts stay |
| Context.PlatformsLeaveCounts | LuaOpenCL.cpp:353-366 | `cl.platforms` moves no retain balance |
| Context.Platforms | LuaOpenCL.cpp:353-366 | `cl.platforms`; its contract is Context.Enumerate for platforms and Context.PlatformsLeaveCounts |
| Context.GetDevicesRetainsEach | LuaOpenCL.cpp:310-323 | `platform:devices()` retains every listed device |
| Context.GetDevices | LuaOpenCL.cpp:310-323 | `platform:devices()`; its contract is Context.Enumerate for devices and Context.GetDevicesRetainsEach |
| Tables.TypeOrdinal | LuaOpenCL.cpp:19-28 | each enumeration type has a position below the 25 types |
| Tables.TypeAtOrdinal | LuaOpenCL.cpp:19-28 | position and type are inverse |
| Tables.Pairs | LuaOpenCL.cpp:667-810 | each type has at least one row |
| Tables.Entries | LuaOpenCL.cpp:667-810 | each type's rows are non-empty and all of that type |
| Tables.RunOfBlocks | LuaOpenCL.cpp:831-842 | in a table of one block per type, in declaration order, each type's run is exactly its block |
| Tables.RunIsBlock | LuaOpenCL.cpp:667-810 | in `enum_info_list` each type's run is exactly its rows |
| Tables.RunEnds | LuaOpenCL.cpp:809 | only the last type's run ends the table, and every run is non-empty |
| Tables.AsWrittenOnBlocks | LuaOpenCL.cpp:838 | on such a table the written lookup agrees with the intended one except on the last type, where it overruns |
| Tables.AsWrittenAgreesBeforeLast | LuaOpenCL.cpp:831-842 | on `enum_info_list` the written lookup is right for every type but `EBT_BUFFER_CREATE_TYPE` |
| Tables.AsWrittenOverrunsOnLast | LuaOpenCL.cpp:809 | for `EBT_BUFFER_CREATE_TYPE` the written scan reads past the end of `enum_info_list` |
| Tables.ChannelOrderRange | LuaOpenCL.cpp:715-727 | the channel orders are the codes 0x10B0 to 0x10BC, with "rgba" at 0x10B5 |
| Tables.ChannelTypeRange | LuaOpenCL.cpp:728-742 | the channel types are the codes 0x10D0 to 0x10DE, with "float" at 0x10DE |
| Tables.ChannelTypeIsNoOrder | LuaOpenCL.cpp:100 | no valid channel type is a channel order |
| Tables.PairsDistinct | LuaOpenCL.cpp:667-810 | no type's rows, as listed, repeat a value or a name |
| Tables.CatalogDistinct | LuaOpenCL.cpp:667-810 | in `enum_info_list` each type's run has distinct values and distinct names |
| Tables.CatalogRowRoundTrips | LuaOpenCL.cpp:144-207 | every row of `enum_info_list` decodes to its name and its name encodes to its value |
| Tables.CatalogRoundTrip | LuaOpenCL.cpp:144-207 | any name `GetEnumValue` accepts decodes back to itself, and any value `pushEnum` names encodes back to itself |
| Tables.PartitionNamesIn | LuaOpenCL.cpp:694-697 | 0x1086 is "equally" and 0 is "by_counts_list_end" |
| Tables.PartitionPropertyAsWritten | LuaOpenCL.cpp:586-588 | as written, the one property `CL_DEVICE_PARTITION_EQUALLY` decodes to "equally" and "by_counts_list_end" |
| Tables.PartitionPropertyIntended | LuaOpenCL.cpp:586-588 | read as `intptr_t` elements, the same buffer decodes to "equally" alone |
| Tables.ImageFormatAsWrittenAlwaysFails | LuaOpenCL.cpp:98-101 | the written decoder fails on every valid image format, naming the data type; the corrected one succeeds |
| Tables.RgbaFloat | LuaOpenCL.cpp:94-102 | an RGBA float format decodes to order "rgba" and data type "float"; as written it raises "unknown enum value = 4318" |
| Tables.AllDeviceTypes | LuaOpenCL.cpp:674 | "all" is stored as -1 and widens to every bit, unlike the 32-bit `CL_DEVICE_TYPE_ALL` of `GetDevices` |
| Tables.ContextOfAll | LuaOpenCL.cpp:412-413 | `cl.context("all")` requests every device type bit |
| Tables.ErrorTableLayout | LuaOpenCL.cpp:450-510 | `error_info_list` holds the codes -1 to -19 and then -30 to -68 |
| Tables.ErrorMessagesIn | LuaOpenCL.cpp:844-858 | on such a table, a code is known iff it is in one of the two ranges, and has its own message |
| Tables.ErrorTableMessages | LuaOpenCL.cpp:450-510 | `error_check` knows exactly the codes -1..-19 and -30..-68; any other failure reads "unknown error" |
| Tables.ErrorExamples | LuaOpenCL.cpp:471 | `CL_INVALID_VALUE` raises "OpenCL: invalid value", -20 raises "OpenCL: unknown error", success raises nothing |
| Tables.DeviceVersionWins | LuaOpenCL.cpp:564-566 | on the rows 564-566, the table has one "version" key, holding the device version that overwrote the driver version |

## Left out

- `Lua/5.2/lreadline.c`: console plumbing around readline/history foreign calls, signals and the REPL loop; none of it belongs to the binding.
- The native OpenCL calls are parameters. Their numeric constants come from `CL/cl.h`, which is not part of this model; `Tables` uses the values of the Khronos OpenCL 1.2 headers.
- Lua C-API stack mechanics (`lua_createtable`, `lua_setfield`, `lua_settop`, upvalues, closure creation): results are given as values, maps and sequences.
- `pushBinaries` is modelled only by its first observable effect: its `luaL_checktype(L, -1, LUA_TTABLE)` sees the fill buffer, a userdata, and raises. What would follow is unreachable.
- `context_info` is compiled out (`#if 0`).
- The conversion to `lua_Number` (a double) in `push<T>`: decoded scalars are exact integers, so 64-bit values above 2^53 are not rounded.
- `ToString`'s `%p` formatting and the address a wrapper lives at.
- The context-properties branch of `cl_new_context` is an empty TODO.
- Version gating is fixed at OpenCL 1.2: every `V1_x`/`E1_x` row is compiled in, and the device retain and release calls are issued.
- Bytes.Fit: bytes the fill call did not write are indeterminate in C; the model reads them as zero.
- Context.Ids: the id buffer of `cl_platforms` and `GetDevices` comes from `lua_newuserdata` and is uninitialised; ids a successful fill did not write are indeterminate in C and would be wrapped and retained as such, while the model reads them as handle 0.
- Decoders.DecodeNumber: a size mismatch fails `assert(size == sizeof(T))`, which aborts the process in a debug build and is compiled out under `NDEBUG`, leaving an unchecked read; the model raises it as an ordinary error, which `push_info` then propagates like a failed status.
- Host layout: the model fixes a little-endian 64-bit host: `intptr_t`, `size_t` and every handle are 8 bytes and `cl_uint` is 4. The partition-property finding and Decoders.DeviceElements' one handle per 8-byte element hold on such a host.
- Decoders.Need: the boolean, pointer, enum, bitfield and image-format decoders read without checking the size. A buffer shorter than they read is undefined behaviour in C; the model raises `ShortBuffer` instead.
- Bytes.CString: a buffer without a NUL is read to its end rather than past it.
- Decoders.NumberElements: `(int)size` truncation of very large sizes is not modelled.
- Objects.Release: releasing a handle that holds no reference fails natively and the binding ignores the status; the model keeps the count at 0.
- Host.WrapperMetatable: the `__index` field refers to the metatable itself, which an immutable value cannot hold, so it is left out.
- Host.CheckObject: it is modelled on the value at the checked index, which is the top of the stack at its only call site; the stack pops are left out.
- Host.CheckObject requires that only wrappers carry the marker (`Provenance`): the source casts the block of any marked userdata to `CLObject`.
- Tables: only the `info_list` rows needed for a concrete statement (`VersionRows`) are written out; the query engine is proved for any list.
- Tables.DeviceVersionWins: it is proved on the three rows LuaOpenCL.cpp:564-566, not on the device category's whole slice of `info_list`, which is not written out.
- Decoders.Decode: it routes `push<cl_image_format>` to the corrected decoder `DecodeImageFormat`. The decoder as written is `DecodeImageFormatAsWritten`; `Tables.ImageFormatAsWrittenAlwaysFails` relates the two. The `PropertyArray` decoder is the corrected `pushEnumArray<EBT_DEVICE_PARTITION_PROPERTY>`; `EnumArray` is `pushEnumArray` as written.
- Codec: the enumeration operations take the type's run with the intended `getEnumTable` bound (`RunOf`). The bound as written agrees on every type but `EBT_BUFFER_CREATE_TYPE` (`Tables.AsWrittenAgreesBeforeLast`), which no code path looks up.
- Codec.DecodePropertyArray: the partition type of a sub-device also lists counts and affinity domains after the property. Read as names, those raise "unknown enum value" in the corrected decoder too.
- Objects.Retain: on a root device `clRetainDevice`/`clReleaseDevice` leave the native count unchanged under OpenCL 1.2; the model counts the binding's calls, not the native count.
- Concurrency: the binding is single-threaded and finalization order is the host's, so lifetimes are given as event sequences.

## Findings

| source | as written | input that shows it | evidently intended | confidence | as-written member | corrected member |
|---|---|---|---|---|---|---|
| LuaOpenCL.cpp:838 | the second loop of `getEnumTable` tests `i < countof(enum_info_list)` instead of `j`, so a run ending the table is scanned past its end | `EBT_BUFFER_CREATE_TYPE`, whose single row (LuaOpenCL.cpp:809) is the last one; latent, since no code path looks this type up: the only `GetEnumValue` call (LuaOpenCL.cpp:412) passes `EBT_DEVICE_TYPE` and no info row decodes the type | bound the scan by `j < countof(enum_info_list)` | high (not executed) | Tables.AsWrittenOverrunsOnLast | Catalog.GetEnumTable |
| LuaOpenCL.cpp:100 | `data_type` of `cl_image_format` is decoded with `EBT_CHANNEL_ORDER` | `CL_RGBA`/`CL_FLOAT` (0x10B5, 0x10DE): "unknown enum value = 4318" is raised; latent, since the decoder is reached only through the `IT_IMAGE` row (LuaOpenCL.cpp:609), which only the compiled-out `context_info` (LuaOpenCL.cpp:210-222) queries | decode it with `EBT_CHANNEL_TYPE` | high (not executed) | Tables.ImageFormatAsWrittenAlwaysFails | Decoders.ImageFormatFields |
| LuaOpenCL.cpp:586-588 | `pushEnumArray<EBT_DEVICE_PARTITION_PROPERTY>` reads the 8-byte `cl_device_partition_property` (`intptr_t`) elements as 4-byte cl_uint | the one property `CL_DEVICE_PARTITION_EQUALLY` (0x1086) decodes to "equally" and "by_counts_list_end"; a negative value or one above 32 bits raises | read `size / sizeof(cl_device_partition_property)` elements, each compared with the sign-extended row value | high (not executed) | Tables.PartitionPropertyAsWritten | Tables.PartitionPropertyIntended |
