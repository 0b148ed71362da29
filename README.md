# DTrace for Windows: ETW trace descriptors and the symbol server

This project is a Dafny model of two parts of the Windows port of libdtrace.

**`etw_trace` support** (`dt_etw_trace.cpp`, `dt_etw_trace.h`)

- **Compile time.** The D action `etw_trace(provider, guid, [group,] event, level, keyword, type, name, value, ...)` is checked against a registry of wire types. It is then packed into a single trace descriptor: a header, an embedded payload-descriptor array and a NUL-terminated string table.
- **After every byte copy.** `dt_etw_trace_validate` re-derives the descriptor's internal pointers from the stored lengths.
- **When a probe fires.** `dt_etw_trace` / `dt_etw_trace_struct` walk the records in payload order, recursing into `etw_struct` scopes. They append each value to a TraceLogging event and write the event to the provider.

**Symbol server** (`dt_symsrv.cpp`)

- **Type names.** Type names are rebuilt from debug information: `basetype`, `pointer`, `array`, `udt` and `typestr`.
- **Parameter lists.** `dt_symsrv_load_paramtypes` lists a function's parameter types.
- **Function map.** The RVA-to-function map is filled by `dt_symsrv_add_function`, the symbol-enumeration callback and the code-block fallback.
- **Request step.** One request of the worker thread `dt_symsrv_thread`:
  1. normalise the filter;
  2. decide whether to reload;
  3. resume the cursor;
  4. match against any of a function's names;
  5. serialise the names and parameter types as multi-strings into the 4096-byte reply buffer;
  6. skip entries that overflow;
  7. on success, set the reply index to `Index + 1`.

**Modules**

| file | module | contents |
|---|---|---|
| `wrappers.dfy` | `Wrappers` | `Option` and `Result` |
| `etw_layout.dfy` | `EtwLayout` | the descriptor layout macros and argument-count constants, on a 64-bit target |
| `etw_types.dfy` | `EtwTypes` | `_dt_etw_types`, the lookup, the compatibility checks and the value adders |
| `etw_build.dfy` | `EtwBuild` | `dt_etw_trace_create`, `dt_etw_trace_check_struct_payload`, `dt_etw_trace_validate`; the descriptor is the class `TraceDesc` |
| `etw_emit.dfy` | `EtwEmit` | `dt_etw_trace_struct` and `dt_etw_trace` |
| `symsrv_format.dfy` | `SymFormat` | the `%I64d` and `%08lx` spellings and their round-trips |
| `symsrv_types.dfy` | `SymTypes` | `str_concat`, the type-name functions, `dt_symsrv_load_paramtypes` |
| `symsrv_cache.dfy` | `SymCache` | `ForAllNames`, `dt_symsrv_is_function`, the RVA map as a sorted sequence, the class `FunctionEnumCtx` |
| `symsrv_worker.dfy` | `SymWorker` | the reply serialisation, the specification of one request step, and the class `Worker` |

**How the source's inputs appear in the model**

- Argument nodes of the D compiler are a sequence of `ArgNode` literals. A diagnostic (`dnerror`) is a `Failure` that carries the diagnostic tag and the 1-based argument ordinal.
- Debug information (`SymGetTypeInfo`) is a tree of `TypeNode` values. Each field answers one query, and `None` stands for a failed query.
- The records of a probe firing are a `seq<bv8>` buffer plus a sequence of `RecDesc` values (action, size, offset).
- A TraceLogging event is an `Event` value: its name, level and keyword, plus a list of fields, where a struct holds its own list.
- `std::map<ULONG, dt_symsrv_function_t>` is a strictly sorted sequence of (RVA, record) pairs. The worker's iterator `CurFunc` is an index into it.

## Model

| member | source | states |
|---|---|---|
| EtwLayout.RegionsPartitionData | lib/libdtrace/compat/win32/inc/dt_etw_trace.h:94-138 | the payload array is `plcount` × 24 bytes at `det_data` offset 0 and the string table starts right after it; the two regions fill the data area exactly, and the data area ends inside the allocation (header size − 1 + data size) with less than one word of padding after it; it is the contract of the region functions `PlArrBSize`, `StringTabBSize`, `DataBSize`, `BSize`, `PlArrOffset` and `StringTabOffset` (DT_ETW_TRACE_PLARR_BSIZE, _STRINGTAB_BSIZE, _DATA_BSIZE, _BSIZE, _PLARR_PTR, _STRINGTAB_PTR) |
| EtwLayout.PayloadEntriesDisjoint | lib/libdtrace/compat/win32/inc/dt_etw_trace.h:51-55 | the entries sit at 24-byte strides inside the array and never overlap |
| EtwTypes.ToInt32 | lib/libdtrace/compat/win32/dt_etw_trace.cpp:616 | the C conversion to `int` is the signed 32-bit value congruent to the input modulo 2^32 |
| EtwTypes.IndexFrom | lib/libdtrace/compat/win32/dt_etw_trace.cpp:455-465 | the first index at or after `from` with that name, or -1 exactly when none has it |
| EtwTypes.IndexOf | lib/libdtrace/compat/win32/dt_etw_trace.cpp:455-465 | the FIRST entry with that name, or -1 exactly when no entry has it |
| EtwTypes.TypeLookup | lib/libdtrace/compat/win32/dt_etw_trace.cpp:455-465 | the counting scan of the table returns `IndexOf`: the matching index, or -1 when nothing matches |
| EtwTypes.TypeName | lib/libdtrace/compat/win32/dt_etw_trace.cpp:467-476 | the name of entry `typeidx` when it is below the entry count, no name otherwise |
| EtwTypes.RunCheck | lib/libdtrace/compat/win32/dt_etw_trace.cpp:75-120 | each check returns 0 or -1: 0 for the int check exactly when the node is an integer of size ≤ sizeof(T); for the float check, an integer or float of size ≤ sizeof(T); for the string check, a string; for the pointer check, an integer of size ≤ 8 |
| EtwTypes.ReadBytes | lib/libdtrace/compat/win32/dt_etw_trace.cpp:58-60 | the `n` bytes the adder dereferences: exactly the buffer's bytes when they lie inside it, and 0 for each byte past its end |
| EtwTypes.ReadCString | lib/libdtrace/compat/win32/dt_etw_trace.cpp:101-111 | the bytes up to, but not including, the first NUL from `off` |
| EtwTypes.RunAdd | lib/libdtrace/compat/win32/dt_etw_trace.cpp:52-63 | the adder returns -1 and adds nothing when `data_size` is 0 or (for a non-string) above sizeof(T); otherwise it appends exactly one field: the value read at the record, or the string up to its NUL |
| EtwTypes.TypesWellFormed | lib/libdtrace/compat/win32/dt_etw_trace.cpp:167-448 | the table has `etw_struct` at index 0 and nowhere else, and every checked entry has an adder whose width covers its check |
| EtwTypes.StructIsIndexZero | lib/libdtrace/compat/win32/dt_etw_trace.cpp:168-176 | looking up `etw_struct` gives 0, no other entry looks up to 0, and the struct entry has no adder |
| EtwTypes.TypeCompat | lib/libdtrace/compat/win32/dt_etw_trace.cpp:483-500 | `type_compat` is in {0, -1, -2}: -1 exactly for a bad index or a failing check, -2 exactly for an entry without a check |
| EtwTypes.CompatibleValuesAreAddable | lib/libdtrace/compat/win32/dt_etw_trace.cpp:130-148 | a value that passes a non-struct entry's check has an adder of the same kind, and a record of its type size is never rejected as oversized |
| EtwTypes.FloatCheckAcceptsIntegers | lib/libdtrace/compat/win32/dt_etw_trace.cpp:76-92 | the float check admits integers as well as floats; the int check admits integers but not floats |
| EtwBuild.StringArg | lib/libdtrace/compat/win32/dt_etw_trace.cpp:686-707 | argument #argi is accepted exactly when it exists, is a string and is not a variable; a rejection names that argument |
| EtwBuild.IntegerArg | lib/libdtrace/compat/win32/dt_etw_trace.cpp:822-879 | argument #argi is accepted exactly when it exists, is an integer and is not a variable; a rejection names that argument |
| EtwBuild.ParsePrefix | lib/libdtrace/compat/win32/dt_etw_trace.cpp:686-889 | the prefix is accepted exactly when the name, GUID and event arguments are literal strings, the level and keyword are literal integers, the level is at most 5 and whole tuples follow; it then holds the provider name (argument 1), the GUID (argument 2), the group GUID (argument 3) exactly when that argument parses as a GUID, and the event name, level and keyword from the next three arguments; payloads start at argument 6 with a group, otherwise at 5 |
| EtwBuild.StructCheck | lib/libdtrace/compat/win32/dt_etw_trace.cpp:603-652 | an accepted struct ends after its header, on a tuple boundary |
| EtwBuild.StructMembers | lib/libdtrace/compat/win32/dt_etw_trace.cpp:620-642 | the member loop, when it succeeds, ends on a tuple boundary at or after where it started |
| EtwBuild.StructMembersUnfold | lib/libdtrace/compat/win32/dt_etw_trace.cpp:622-644 | one pass of the member loop: a failing nested check is the loop's failure; otherwise the loop moves past the member (a whole nested struct for a header) and stops at the declared size or goes on |
| EtwBuild.StructDone | lib/libdtrace/compat/win32/dt_etw_trace.cpp:644-651 | the check fails exactly when fewer members were counted than declared |
| EtwBuild.CheckStructPayload | lib/libdtrace/compat/win32/dt_etw_trace.cpp:603-652 | the loop with its recursion into nested headers computes `StructCheck` |
| EtwBuild.TupleHead | lib/libdtrace/compat/win32/dt_etw_trace.cpp:924-984 | a rejected tuple carries D_ETW_TRACE_PAYLOAD, or D_ETW_TRACE_PAYLOADTYPE at the value's ordinal; `TupleHeadShape` gives what an accepted one holds |
| EtwBuild.TupleHeadShape | lib/libdtrace/compat/win32/dt_etw_trace.cpp:926-986 | an accepted tuple names a registered type, points at its name node's string with length strlen+1, and has a value the type's check accepts; a rejection names one of the tuple's three arguments |
| EtwBuild.Tuple | lib/libdtrace/compat/win32/dt_etw_trace.cpp:924-992 | a tuple is accepted exactly when its type, name and value checks pass and, for an `etw_struct`, the struct payload check passes; its entry is the head's |
| EtwBuild.Verdicts | lib/libdtrace/compat/win32/dt_etw_trace.cpp:903-905 | one verdict per whole tuple: (argc − argi) / 3 |
| EtwBuild.VerdictAt | lib/libdtrace/compat/win32/dt_etw_trace.cpp:916-998 | verdict k is the verdict of the k-th tuple |
| EtwBuild.Collect | lib/libdtrace/compat/win32/dt_etw_trace.cpp:916-998 | a successful collection has one entry per verdict |
| EtwBuild.CollectOk | lib/libdtrace/compat/win32/dt_etw_trace.cpp:916-998 | when every verdict is accepted, the collected entries are theirs, in order |
| EtwBuild.CollectFail | lib/libdtrace/compat/win32/dt_etw_trace.cpp:916-998 | the first rejected tuple decides the error |
| EtwBuild.CollectedEntry | lib/libdtrace/compat/win32/dt_etw_trace.cpp:916-998 | entry k of an accepted collection is verdict k's entry |
| EtwBuild.Payloads | lib/libdtrace/compat/win32/dt_etw_trace.cpp:903-998 | an accepted payload list has `plcount` = (argc − argi) / 3 entries |
| EtwBuild.BuildSpec | lib/libdtrace/compat/win32/dt_etw_trace.cpp:686-1000 | a rejected prefix is the build's error; an accepted build keeps the prefix and has (argc − argi) / 3 payload entries |
| EtwBuild.StringTable | lib/libdtrace/compat/win32/dt_etw_trace.cpp:1042-1062 | the table's length is the sum of strlen+1 over its strings |
| EtwBuild.PayloadNames | lib/libdtrace/compat/win32/dt_etw_trace.cpp:1059-1062 | one name per payload entry, each the text its pointer refers to |
| EtwBuild.TraceDesc.Init | lib/libdtrace/compat/win32/dt_etw_trace.cpp:1028-1032 | the header holds each common string as a node pointer with its length strlen+1, a group length of 0 and a NULL pointer without a group, the level, keyword, `plcount` and table size |
| EtwBuild.TraceDesc.Validate | lib/libdtrace/compat/win32/dt_etw_trace.cpp:1101-1139 | the payload pointer goes to `det_data`; the provider name, GUID, event name, group GUID (NULL when its length is 0) and payload names point at successive cursor positions of the string table; the lengths and the data are left alone |
| EtwBuild.FixPayloadNames | lib/libdtrace/compat/win32/dt_etw_trace.cpp:1135-1138 | payload i's name points at the base plus the stored name lengths of the payloads before it; its type index and length are unchanged |
| EtwBuild.CopyString | lib/libdtrace/compat/win32/dt_etw_trace.cpp:1042-1045 | one copy writes the string and its NUL at the cursor, advances it by strlen+1 and changes nothing else |
| EtwBuild.CopyCommonStrings | lib/libdtrace/compat/win32/dt_etw_trace.cpp:1047-1057 | the provider name, GUID, event name and group GUID, if any, are copied in that order, and the cursor ends at their summed sizes |
| EtwBuild.WriteStringTable | lib/libdtrace/compat/win32/dt_etw_trace.cpp:1035-1069 | the table the copies produce is exactly the common strings and then the payload names, as a string table of the declared size, so the asserted cursor end holds |
| EtwBuild.CheckTuple | lib/libdtrace/compat/win32/dt_etw_trace.cpp:926-994 | one loop iteration gives the tuple's verdict, and an accepted entry points at its name node |
| EtwBuild.AcceptStep | lib/libdtrace/compat/win32/dt_etw_trace.cpp:949-967 | accepting one more tuple keeps the loop invariant: entries so far match their verdicts, and the table size grew by the new name's stored length |
| EtwBuild.CheckPayloads | lib/libdtrace/compat/win32/dt_etw_trace.cpp:903-998 | the payload loop fails exactly when some tuple is rejected, with the first rejection's error; otherwise the array holds every entry in order, and the table size is the start plus the names' stored lengths |
| EtwBuild.Create | lib/libdtrace/compat/win32/dt_etw_trace.cpp:665-1076 | `create` fails exactly when the arguments are rejected, with that error; otherwise it returns a fresh descriptor built from the accepted prefix and entries, whose string table holds every string in copy order; it is `CreateWith` over the registry `Types` |
| EtwBuild.CreateWith | lib/libdtrace/compat/win32/dt_etw_trace.cpp:665-1076 | over any type registry, `create` fails exactly when the arguments are rejected, with that error; otherwise it returns a fresh descriptor built from the accepted prefix and entries, whose string table holds every string in copy order |
| EtwBuild.StringTableSnoc | lib/libdtrace/compat/win32/dt_etw_trace.cpp:1042-1045 | one more string adds its characters and a NUL to the table |
| EtwBuild.StringTableConcat | lib/libdtrace/compat/win32/dt_etw_trace.cpp:1047-1062 | the table of two lists is the concatenation of their tables |
| EtwBuild.NameLengthSumSnoc | lib/libdtrace/compat/win32/dt_etw_trace.cpp:962-967 | one more entry adds its stored length to the sum |
| EtwBuild.NameLengthsAreSums | lib/libdtrace/compat/win32/dt_etw_trace.cpp:962-967 | for node-named entries, the stored lengths sum to strlen+1 over the payload names |
| EtwBuild.PayloadsAreNodeNamed | lib/libdtrace/compat/win32/dt_etw_trace.cpp:949-967 | every accepted entry points at its name node with length strlen+1 |
| EtwBuild.DeclaredSizeIsTableLength | lib/libdtrace/compat/win32/dt_etw_trace.cpp:709-1069 | `det_string_table_size` is the sum of strlen+1 over the provider name, GUID, group GUID (if it parsed), event name and every payload name, which is the length of the table that is filled |
| EtwBuild.TableRoundTrip | lib/libdtrace/compat/win32/dt_etw_trace.cpp:1042-1062 | reading the C string at string i's cursor gives string i back |
| EtwBuild.ReadStringAt | lib/libdtrace/compat/win32/dt_etw_trace.cpp:1117-1119 | a table holding s and a NUL at a position reads back s there |
| EtwBuild.CursorTail | lib/libdtrace/compat/win32/dt_etw_trace.cpp:1045 | each cursor is the previous one plus strlen+1 |
| EtwBuild.ValidateOffsetsAreCursors | lib/libdtrace/compat/win32/dt_etw_trace.cpp:1101-1139 | the offsets `validate` assigns from the stored lengths are the copy cursors of `create`; `ValidateBuilt` composes this with `TableRoundTrip` |
| EtwBuild.ValidateBuilt | lib/libdtrace/compat/win32/dt_etw_trace.cpp:1101-1139 | validating a descriptor as `create` built it (or a byte-identical copy) makes every string pointer read back its string: provider name, GUID, event name, the group GUID when there is one (NULL otherwise) and each payload name; the arrays and their contents are unchanged |
| EtwBuild.ValidatedReadsBack | lib/libdtrace/compat/win32/dt_etw_trace.cpp:1121-1138 | pointers laid out at validate's cursor offsets read back the strings of the build |
| EtwBuild.CommonReadsBack | lib/libdtrace/compat/win32/dt_etw_trace.cpp:1121-1133 | validate's pointers for the provider name, GUID, event name and group GUID read back those strings |
| EtwBuild.CommonNamesReadBack | lib/libdtrace/compat/win32/dt_etw_trace.cpp:1121-1133 | reading the built table at the summed lengths gives the provider name, GUID, event name and group GUID in turn |
| EtwBuild.PayloadNameReadsBack | lib/libdtrace/compat/win32/dt_etw_trace.cpp:1135-1138 | validate's pointer for payload name i reads back that name |
| EtwBuild.PrefixCursors | lib/libdtrace/compat/win32/dt_etw_trace.cpp:1121-1133 | the cursors of the provider name, GUID, event name and group GUID, and where the payload names start |
| EtwBuild.PayloadCursor | lib/libdtrace/compat/win32/dt_etw_trace.cpp:1135-1138 | payload name j starts after the stored lengths of the names before it |
| EtwBuild.BuildShape | lib/libdtrace/compat/win32/dt_etw_trace.cpp:845-905 | an accepted build has a level of at most 5, payloads starting at argument 5 or 6, a payload part of whole tuples, and `plcount` = (argc − argi) / 3 |
| EtwBuild.LevelAboveMaxRejected | lib/libdtrace/compat/win32/dt_etw_trace.cpp:845-850 | a level above 5 is rejected with D_ETW_TRACE_LEVEL at the level's ordinal |
| EtwBuild.PartialTupleRejected | lib/libdtrace/compat/win32/dt_etw_trace.cpp:881-889 | a payload part that is not a multiple of 3 is rejected with D_ETW_TRACE_PAYLOAD |
| EtwBuild.StructTooLargeRejected | lib/libdtrace/compat/win32/dt_etw_trace.cpp:620-649 | a struct that declares more members than tuples remain is rejected |
| EtwBuild.NonPositiveStructAbsorbsRest | lib/libdtrace/compat/win32/dt_etw_trace.cpp:616-651 | a declared size of 0 or less never reaches the count, so the struct absorbs every remaining tuple without a diagnostic |
| EtwBuild.ScalarStructExtent | lib/libdtrace/compat/win32/dt_etw_trace.cpp:620-651 | a struct of n scalar members ends exactly n tuples after its header |
| EtwBuild.NestedStructCheck | lib/libdtrace/compat/win32/dt_etw_trace.cpp:620-651 | a nested struct counts as one member: a struct of size 1 whose member is a struct header ends where the nested struct's check ends, and fails exactly as it fails |
| EtwEmit.ByteAt | lib/libdtrace/compat/win32/dt_etw_trace.cpp:1183 | byte k of the record buffer |
| EtwEmit.LoadU32 | lib/libdtrace/compat/win32/dt_etw_trace.cpp:1183 | the `uint32_t` read is below 2^32 |
| EtwEmit.StructSize | lib/libdtrace/compat/win32/dt_etw_trace.cpp:1183 | the struct size read from the record is a signed 32-bit value |
| EtwEmit.AddPayload | lib/libdtrace/compat/win32/dt_etw_trace.cpp:1145-1175 | a payload is added only through its type's adder; with an adder, the result is that adder run on the payload's record |
| EtwEmit.StructWalk | lib/libdtrace/compat/win32/dt_etw_trace.cpp:1177-1198 | the struct walk returns an index between its header and `plcount`; `StructWalkScalars` and `NestedStructWalk` give the index and members exactly |
| EtwEmit.StructLoop | lib/libdtrace/compat/win32/dt_etw_trace.cpp:1187-1197 | the loop returns an index between the one before its start and `plcount`; `StructLoopScalars` and `StructLastMember` give the index and members exactly |
| EtwEmit.EmitStruct | lib/libdtrace/compat/win32/dt_etw_trace.cpp:1177-1198 | the counted loop, recursing into nested headers, computes `StructWalk` |
| EtwEmit.MemberStep | lib/libdtrace/compat/win32/dt_etw_trace.cpp:1189-1194 | one pass moves past the payload (past a whole nested struct for a header); a failed add appends nothing and only happens to a scalar; otherwise exactly one member is appended |
| EtwEmit.EmitMember | lib/libdtrace/compat/win32/dt_etw_trace.cpp:1189-1194 | one pass of the struct loop computes `MemberStep`: a nested header recurses into `EmitStruct` and is appended as one struct member, any other payload is added through its adder |
| EtwEmit.MemberStepAdvances | lib/libdtrace/compat/win32/dt_etw_trace.cpp:1187-1197 | a pass whose add failed ends the walk at `plcount`; any other pass moves forward (past the whole nested struct for a header) with one more member counted and leaves the walk's outcome as it was |
| EtwEmit.TopLoop | lib/libdtrace/compat/win32/dt_etw_trace.cpp:1252-1265 | the payload loop as written: an event's fields extend what was gathered, with at most one field per payload left |
| EtwEmit.Payload | lib/libdtrace/compat/win32/dt_etw_trace.cpp:1252-1265 | the corrected payload loop: the same bound, and a failed add anywhere gives no event |
| EtwEmit.EmitWith | lib/libdtrace/compat/win32/dt_etw_trace.cpp:1206-1276 | EDT_DMISMATCH exactly for too few or foreign records, otherwise `plcount`; an event is written only for a valid, enabled provider and carries the descriptor's event name, level and keyword |
| EtwEmit.EmitSpec | lib/libdtrace/compat/win32/dt_etw_trace.cpp:1206-1276 | `dt_etw_trace` with the corrected loop: a written event has at most one top-level field per payload |
| EtwEmit.Emit | lib/libdtrace/compat/win32/dt_etw_trace.cpp:1206-1276 | `dt_etw_trace` follows `EmitSpec`: the record and provider checks, then the corrected payload loop |
| EtwEmit.EmitFields | lib/libdtrace/compat/win32/dt_etw_trace.cpp:1256-1263 | the payload loop computes the corrected `Payload` |
| EtwEmit.EmitField | lib/libdtrace/compat/win32/dt_etw_trace.cpp:1257-1262 | one pass of the loop computes `FieldStep`: a struct header is walked and appended as one struct field, any other payload is added through its adder |
| EtwEmit.FieldStep | lib/libdtrace/compat/win32/dt_etw_trace.cpp:1257-1262 | one pass moves past the payload (past the whole struct for a header); a failed scalar add appends nothing; otherwise exactly one field is appended |
| EtwEmit.FieldStepAdvances | lib/libdtrace/compat/win32/dt_etw_trace.cpp:1256-1263 | a pass that fails means the whole trace is skipped; any other pass moves forward (past the whole struct for a header) and leaves the loop's outcome as it was |
| EtwEmit.StructLoopCovers | lib/libdtrace/compat/win32/dt_etw_trace.cpp:1187-1197 | a loop that returns below `plcount` added every payload it covered; one that returns `plcount` hit a failing add |
| EtwEmit.StructWalkCovers | lib/libdtrace/compat/win32/dt_etw_trace.cpp:1177-1198 | the same for the whole walk: it returns `plcount` only when some later payload cannot be added |
| EtwEmit.StructMembersBounded | lib/libdtrace/compat/win32/dt_etw_trace.cpp:1187-1188 | a struct never holds more members than its declared count, a nested struct counting as one |
| EtwEmit.StructWalkScalars | lib/libdtrace/compat/win32/dt_etw_trace.cpp:1177-1198 | a struct whose size is 0 or negative returns its own header index with no members; one of sz addable scalar members returns the index of its last member (header + sz, or the last payload when fewer remain) and holds exactly those payloads' fields in order |
| EtwEmit.StructWalkFrom | lib/libdtrace/compat/win32/dt_etw_trace.cpp:1181-1197 | the same for the loop started after the header with any count |
| EtwEmit.StructLoopScalars | lib/libdtrace/compat/win32/dt_etw_trace.cpp:1187-1197 | with n members to go, all addable scalars, the loop returns the index of the last one it consumed and appends exactly their fields |
| EtwEmit.StructLoopStops | lib/libdtrace/compat/win32/dt_etw_trace.cpp:1187 | with no member left to go or no payload left, the loop returns the index before its start and appends nothing |
| EtwEmit.NestedStructWalk | lib/libdtrace/compat/win32/dt_etw_trace.cpp:1187-1197 | a struct of count 1 whose member is a nested header counts it as one member: it ends where the nested walk ends and holds that one struct field |
| EtwEmit.StructLastMember | lib/libdtrace/compat/win32/dt_etw_trace.cpp:1189-1192 | a nested header as the last member to go ends the loop at the nested walk's index, with the nested struct appended as one member |
| EtwEmit.PayloadWritesIffAllAdded | lib/libdtrace/compat/win32/dt_etw_trace.cpp:1252-1263 | the corrected loop produces an event exactly when every payload is a struct header or can be added, so no partial event is written |
| EtwEmit.PayloadAgreesWhenComplete | lib/libdtrace/compat/win32/dt_etw_trace.cpp:1256-1263 | when every payload can be added, the loop as written and the corrected loop give the same fields |
| EtwEmit.Adds | lib/libdtrace/compat/win32/dt_etw_trace.cpp:1256-1263 | one field per payload from i on |
| EtwEmit.AddsAt | lib/libdtrace/compat/win32/dt_etw_trace.cpp:1262 | field j − i is payload j's field |
| EtwEmit.FlatEventFields | lib/libdtrace/compat/win32/dt_etw_trace.cpp:1256-1263 | without structs and with every add succeeding, the event holds each payload's field in payload order |
| EtwEmit.EmitStatus | lib/libdtrace/compat/win32/dt_etw_trace.cpp:1214-1276 | EDT_DMISMATCH exactly when `plcount` > `nrecs` or one of the first `plcount` records is not an etw_trace record; otherwise `plcount`, whether or not an event is written; nothing is written on a mismatch |
| EtwEmit.SilentProviderWritesNothing | lib/libdtrace/compat/win32/dt_etw_trace.cpp:1228-1242 | nothing is written for an invalid or disabled provider |
| EtwEmit.EmitWritesIffComplete | lib/libdtrace/compat/win32/dt_etw_trace.cpp:1214-1265 | an event is written exactly when the records and provider are in order and every payload can be added; it carries the descriptor's event name, level and keyword |
| EtwEmit.FailureInStructStillWritesWith | lib/libdtrace/compat/win32/dt_etw_trace.cpp:1187-1265 | as written, a failed add inside a struct still writes the event, with the struct cut short (concrete input) |
| EtwEmit.FailureInStructStillWrites | lib/libdtrace/compat/win32/dt_etw_trace.cpp:1187-1265 | the same with the source's own registry, where the corrected loop writes nothing |
| SymFormat.Digit | lib/libdtrace/compat/win32/dt_symsrv.cpp:625 | the digit character of d has value d |
| SymFormat.Decimal | lib/libdtrace/compat/win32/dt_symsrv.cpp:232 | a non-empty string of decimal digits without a leading zero |
| SymFormat.DecimalRoundTrip | lib/libdtrace/compat/win32/dt_symsrv.cpp:232 | reading the decimal spelling back gives the number |
| SymFormat.SignedDecimal | lib/libdtrace/compat/win32/dt_symsrv.cpp:232 | `%I64d` spells values below 2^63 as their decimal, and larger ones as '-' followed by 2^64 − v |
| SymFormat.HexDigits | lib/libdtrace/compat/win32/dt_symsrv.cpp:625 | k lower-case hexadecimal digits |
| SymFormat.HexRoundTrip | lib/libdtrace/compat/win32/dt_symsrv.cpp:625 | k hexadecimal digits of a number below 16^k read back as that number |
| SymFormat.ValueSnoc | lib/libdtrace/compat/win32/dt_symsrv.cpp:625 | appending a digit multiplies by the base and adds the digit |
| SymFormat.Hex8 | lib/libdtrace/compat/win32/dt_symsrv.cpp:625 | `%08lx` of a 32-bit value is 8 digits that read back as the value |
| SymTypes.StrConcat | lib/libdtrace/compat/win32/dt_symsrv.cpp:93-108 | the result's length is the sum of the parts' lengths |
| SymTypes.StrConcatPart | lib/libdtrace/compat/win32/dt_symsrv.cpp:103-105 | part i appears, in order, at the summed length of the parts before it |
| SymTypes.StrConcatParts | lib/libdtrace/compat/win32/dt_symsrv.cpp:93-108 | every part appears at its offset, so the result is the parts in order |
| SymTypes.TotalLengthPrefix | lib/libdtrace/compat/win32/dt_symsrv.cpp:96-99 | a prefix of the parts is no longer than all of them |
| SymTypes.StrConcatPair | lib/libdtrace/compat/win32/dt_symsrv.cpp:83-91 | the two-view `str_concat` is `a + b` |
| SymTypes.StrConcatQuad | lib/libdtrace/compat/win32/dt_symsrv.cpp:197 | the four-view `str_concat` is the four strings in order |
| SymTypes.BaseTypeName | lib/libdtrace/compat/win32/dt_symsrv.cpp:249-260 | never empty, and "__$unknownBaseType" when the basic type or the length cannot be read |
| SymTypes.BaseTypeTable | lib/libdtrace/compat/win32/dt_symsrv.cpp:262-325 | char/wchar: 1 → char, 2 → wchar_t; unsigned kinds get "unsigned "; int sizes 0/1/2/4/8 → void/char/short/long/long long; float 4/8 → float/double; bool 1 → bool and 4 → module`BOOL; HRESULT → module`HRESULT; "__$unknownBaseType" exactly for every other combination |
| SymTypes.UdtName | lib/libdtrace/compat/win32/dt_symsrv.cpp:170-201 | a UDT name is never empty, and a named one is at least as long as module + "`" + name |
| SymTypes.UdtNameShape | lib/libdtrace/compat/win32/dt_symsrv.cpp:170-201 | "__$unknownUDT" exactly for a missing or empty name; a name with ':', '<' or ' ' becomes `__identifier("module` + "`" + `name")`; any other is module + "`" + name |
| SymTypes.PointerName | lib/libdtrace/compat/win32/dt_symsrv.cpp:203-219 | a pointer's name always ends in '*' |
| SymTypes.PointerLevels | lib/libdtrace/compat/win32/dt_symsrv.cpp:203-219 | each pointer level adds one '*' to a named type, and an unresolved pointee gives "void*", plus one '*' per further level |
| SymTypes.ArrayName | lib/libdtrace/compat/win32/dt_symsrv.cpp:221-247 | an array's name is never empty |
| SymTypes.ArrayDims | lib/libdtrace/compat/win32/dt_symsrv.cpp:221-247 | an array is "void*" when its element is unresolved, else the element name + "[N]" with N in `%I64d`, or + "[]" when the length is unknown |
| SymTypes.TypeStr | lib/libdtrace/compat/win32/dt_symsrv.cpp:327-350 | the name is empty exactly when the tag cannot be read |
| SymTypes.TypeStrSentinels | lib/libdtrace/compat/win32/dt_symsrv.cpp:343-349 | a function type is "void*" and an unhandled tag is "__$unknownType", whatever else is known; pointer, array and function names end in '*' or ']' |
| SymTypes.Stars | lib/libdtrace/compat/win32/dt_symsrv.cpp:218 | k stars |
| SymTypes.ChildTypes | lib/libdtrace/compat/win32/dt_symsrv.cpp:428-450 | the parameter loop keeps the names already gathered and adds at most one per child; the varargs flag is set only by a final btNoType child |
| SymTypes.ChildTypesSlots | lib/libdtrace/compat/win32/dt_symsrv.cpp:428-450 | the parameter loop succeeds exactly when every child resolves or is the final varargs marker; it then appends one name per named child, in order, and sets the flag exactly for a final btNoType child |
| SymTypes.ParamTypesOf | lib/libdtrace/compat/win32/dt_symsrv.cpp:358-454 | an empty type list is the empty result, without varargs; a non-empty one belongs to a function type and starts with its non-empty return type |
| SymTypes.ParamTypesShape | lib/libdtrace/compat/win32/dt_symsrv.cpp:358-454 | the list is non-empty exactly when every query succeeds (all or nothing); it then holds the return type at slot 0, `this` at slot 1 when there is one, and each named parameter in order; `VaArgs` is set exactly when the last child is the marker, and never with an empty list |
| SymTypes.LoadParamTypes | lib/libdtrace/compat/win32/dt_symsrv.cpp:358-454 | the vector-building loop computes `ParamTypesOf` |
| SymCache.ForAllNames | lib/libdtrace/compat/win32/dt_symsrv.cpp:130-143 | true exactly when the primary name or an alternate name satisfies the callback |
| SymCache.AnyNameIs | lib/libdtrace/compat/win32/dt_symsrv.cpp:830-838 | matching the filter by name equality is the primary name or one of the alternate names being the filter |
| SymCache.IsFunction | lib/libdtrace/compat/win32/dt_symsrv.cpp:456-471 | only function and public symbols can be functions, and an exported public symbol always is |
| SymCache.IsFunctionCases | lib/libdtrace/compat/win32/dt_symsrv.cpp:456-471 | function symbols are functions; public symbols are functions exactly when they carry SYMFLAG_EXPORT, SYMFLAG_FUNCTION or SYMFLAG_PUBLIC_CODE; no other tag is |
| SymCache.LowerBound | lib/libdtrace/compat/win32/dt_symsrv.cpp:478 | the first position whose RVA is not below the key |
| SymCache.Find | lib/libdtrace/compat/win32/dt_symsrv.cpp:478-480 | lookup finds nothing only when no key equals the address |
| SymCache.Added | lib/libdtrace/compat/win32/dt_symsrv.cpp:473-495 | `add_function` grows the map by at most one entry |
| SymCache.FindAt | lib/libdtrace/compat/win32/dt_symsrv.cpp:478-480 | in a sorted map every stored RVA finds its own record |
| SymCache.FindMissing | lib/libdtrace/compat/win32/dt_symsrv.cpp:480 | an RVA stored nowhere finds nothing |
| SymCache.FindConcat | lib/libdtrace/compat/win32/dt_symsrv.cpp:478-486 | lookup in a concatenation tries the front part first |
| SymCache.FindSplit | lib/libdtrace/compat/win32/dt_symsrv.cpp:478-486 | lookup splits at any position |
| SymCache.InsertFind | lib/libdtrace/compat/win32/dt_symsrv.cpp:486 | lookup after an insertion at position k |
| SymCache.ReplaceFind | lib/libdtrace/compat/win32/dt_symsrv.cpp:489 | lookup after a replacement at position k |
| SymCache.AddedSorted | lib/libdtrace/compat/win32/dt_symsrv.cpp:473-495 | adding a function keeps the map sorted by RVA without duplicates |
| SymCache.AddedFind | lib/libdtrace/compat/win32/dt_symsrv.cpp:473-495 | a new RVA gets one new record (name, size, parameter types); an existing one gets the name prepended to its alternate names when multiple names are allowed and is unchanged otherwise; every other RVA keeps its record; the map grows by one exactly for a new RVA |
| SymCache.CodeBlockName | lib/libdtrace/compat/win32/dt_symsrv.cpp:624-625 | "+0x" and 8 hexadecimal digits that read back as the begin address: 11 characters |
| SymCache.WithCodeBlocks | lib/libdtrace/compat/win32/dt_symsrv.cpp:620-630 | adding the code blocks grows the map by at most one entry per block |
| SymCache.CodeBlocksFillGaps | lib/libdtrace/compat/win32/dt_symsrv.cpp:621-633 | code blocks keep the map sorted, never change a known function, and make every begin address present |
| SymCache.SymbolRva | lib/libdtrace/compat/win32/dt_symsrv.cpp:501-502 | the RVA is `Address − ModBase` truncated to 32 bits: the base plus the RVA is the address modulo 2^32 |
| SymCache.FunctionEnumCtx.constructor | lib/libdtrace/compat/win32/dt_symsrv.cpp:719 | the enumeration context starts with an empty map and the module name |
| SymCache.FunctionEnumCtx.AddFunction | lib/libdtrace/compat/win32/dt_symsrv.cpp:473-495 | the map becomes `Added` of the old map and stays sorted |
| SymCache.FunctionEnumCtx.EnumSymProc | lib/libdtrace/compat/win32/dt_symsrv.cpp:497-511 | a function symbol is added at address − module base with multiple names allowed, anything else is ignored, and enumeration always continues |
| SymCache.FunctionEnumCtx.LoadCodeBlocks | lib/libdtrace/compat/win32/dt_symsrv.cpp:601-639 | each code block is added under its "+0x%08lx" name, size 0, no type and not as an alternate name |
| SymWorker.Body | lib/libdtrace/compat/win32/dt_symsrv.cpp:846-854 | the strings with their NULs take the sum of strlen+1 |
| SymWorker.AddToNames | lib/libdtrace/compat/win32/dt_symsrv.cpp:846-854 | `addToNames` keeps the writer inside the buffer |
| SymWorker.Terminate | lib/libdtrace/compat/win32/dt_symsrv.cpp:856-863 | `terminateMultiString` keeps the writer inside the buffer |
| SymWorker.AddAll | lib/libdtrace/compat/win32/dt_symsrv.cpp:865-876 | the list of adds keeps the writer inside the buffer |
| SymWorker.WriteEntry | lib/libdtrace/compat/win32/dt_symsrv.cpp:842-878 | serialising one entry keeps the writer inside the buffer |
| SymWorker.AddAllCounts | lib/libdtrace/compat/win32/dt_symsrv.cpp:846-854 | the adds overflow exactly when the strings would reach `limit`; `names` only grows and stays below `limit`; without an overflow it ends right after the strings |
| SymWorker.AddAllPrefix | lib/libdtrace/compat/win32/dt_symsrv.cpp:846-854 | the adds never touch the bytes before `names` |
| SymWorker.AddAllWrites | lib/libdtrace/compat/win32/dt_symsrv.cpp:846-854 | without an overflow the adds write exactly the strings and their NULs at `names` |
| SymWorker.TerminateEffect | lib/libdtrace/compat/win32/dt_symsrv.cpp:856-863 | the terminator overflows exactly past `limit`, and otherwise writes one NUL at `names` and advances it |
| SymWorker.MultiWrites | lib/libdtrace/compat/win32/dt_symsrv.cpp:865-878 | a list and its terminator, written without an overflow, leave the multi-string at `names` |
| SymWorker.WriteEntryOverflow | lib/libdtrace/compat/win32/dt_symsrv.cpp:842-886 | an entry overflows exactly when its names area does not fit |
| SymWorker.WriteEntryPrefix | lib/libdtrace/compat/win32/dt_symsrv.cpp:842 | serialising never touches the reply header |
| SymWorker.WriteEntryLayout | lib/libdtrace/compat/win32/dt_symsrv.cpp:865-878 | an entry that fits leaves its names, an empty string, its parameter types and an empty string right after the header, and nothing else changes |
| SymWorker.WriteEntryEffect | lib/libdtrace/compat/win32/dt_symsrv.cpp:842-886 | the three facts above together |
| SymWorker.NormalFilter | lib/libdtrace/compat/win32/dt_symsrv.cpp:789-805 | an empty or glob filter means no filter; any other is kept as it is |
| SymWorker.Reloads | lib/libdtrace/compat/win32/dt_symsrv.cpp:795-814 | an empty map always reloads; no reload means the same base and the same filter |
| SymWorker.Selected | lib/libdtrace/compat/win32/dt_symsrv.cpp:828-840 | a function is selected exactly when there is no filter, or its name or one of its alternate names equals the filter |
| SymWorker.Eligible | lib/libdtrace/compat/win32/dt_symsrv.cpp:828-886 | an eligible entry's serialised names fit the 4096-byte buffer after the reply header, and with a filter one of its names equals it |
| SymWorker.Scan | lib/libdtrace/compat/win32/dt_symsrv.cpp:828-900 | the scan ends at or after its start, within the map, and keeps the buffer size |
| SymWorker.StepSpec | lib/libdtrace/compat/win32/dt_symsrv.cpp:761-900 | one request keeps the cursor within the map and the buffer size |
| SymWorker.FirstEligible | lib/libdtrace/compat/win32/dt_symsrv.cpp:828-886 | the first entry from i on that matches the filter and fits, or the map's end when there is none |
| SymWorker.ScanKeepsHeader | lib/libdtrace/compat/win32/dt_symsrv.cpp:842-878 | the scan never touches the reply header in the buffer |
| SymWorker.ScanWithoutEligible | lib/libdtrace/compat/win32/dt_symsrv.cpp:828-886 | with nothing eligible, the scan runs to the end and leaves the reply alone |
| SymWorker.ScanServes | lib/libdtrace/compat/win32/dt_symsrv.cpp:884-899 | the scan serves the first eligible entry: the cursor lands just past it, and the reply gets its RVA, size, `VaArgs`, index `Index + 1` (mod 2^32) and `NextEntryOffset` 0, with its multi-strings in the names area |
| SymWorker.ScanServesFirstEligible | lib/libdtrace/compat/win32/dt_symsrv.cpp:828-900 | the scan serves the first eligible entry, or with none runs to the end and leaves the reply alone |
| SymWorker.IgnoredRequest | lib/libdtrace/compat/win32/dt_symsrv.cpp:765-767 | a request with index (ULONG)-1 changes nothing |
| SymWorker.StepReloads | lib/libdtrace/compat/win32/dt_symsrv.cpp:789-814 | the normalised filter is kept; the map is reloaded (and the base recorded) exactly when the base differs, the filter changed or the map is empty, and is left otherwise; the reply header is untouched |
| SymWorker.StepPaginates | lib/libdtrace/compat/win32/dt_symsrv.cpp:772-899 | the reply is preset to (ULONG)-1; the first eligible function from the resumed cursor is served with index `Index + 1` (0 + 1 after a reload) and the cursor just past it; with none left, the reply index stays (ULONG)-1 |
| SymWorker.FilteredRepliesMatch | lib/libdtrace/compat/win32/dt_symsrv.cpp:830-840 | with a filter, a function is served only if one of its names equals the filter |
| SymWorker.NextPageResumes | lib/libdtrace/compat/win32/dt_symsrv.cpp:809-828 | a follow-up request for the same module and filter with a non-zero index resumes after the function last served, on the same map |
| SymWorker.Worker.constructor | lib/libdtrace/compat/win32/dt_symsrv.cpp:740-745 | nothing is loaded, no filter, an empty map, and a zeroed 4096-byte buffer |
| SymWorker.Worker.CopyString | lib/libdtrace/compat/win32/dt_symsrv.cpp:849 | `memcpy` of the string and its NUL at the position, and nothing else changes |
| SymWorker.Worker.AddAllNames | lib/libdtrace/compat/win32/dt_symsrv.cpp:846-854 | the in-place adds leave the buffer, `names` and `overflow` as `AddAll` says |
| SymWorker.Worker.TerminateNames | lib/libdtrace/compat/win32/dt_symsrv.cpp:856-863 | the in-place terminator follows `Terminate` |
| SymWorker.Worker.WriteNames | lib/libdtrace/compat/win32/dt_symsrv.cpp:842-878 | the in-place serialisation follows `WriteEntry` |
| SymWorker.Worker.ServeEntry | lib/libdtrace/compat/win32/dt_symsrv.cpp:829-899 | one pass of the for loop: the entry is served and the scan stops just past it, or the scan goes on from the next entry |
| SymWorker.Worker.ScanFrom | lib/libdtrace/compat/win32/dt_symsrv.cpp:828-900 | the in-place for loop computes `Scan` |
| SymWorker.Worker.Step | lib/libdtrace/compat/win32/dt_symsrv.cpp:761-900 | one request changes the worker's state exactly as `StepSpec` says |

## Left out

- The provider registry is not modelled: `dt_etw_trace_provider`, its `_trace_providers` cache, `UuidFromStringA`/`UuidCompare`, `tld::Provider` construction and `dt_etw_trace_destroy`. Whether the provider is valid and whether it is enabled are boolean inputs to the emitter.
- `parse_guid` is a predicate parameter on strings.
- `strisglob` is a predicate parameter on strings.
- The TraceLogging event builder and `event.Write` are not modelled. The written event is the `Event` value (name, level, keyword, fields), with nested structs as fields.
- Diagnostics (`dnerror`, `longjmp`, `dt_printf`, `dt_dprintf`) produce no text. A compile error is a `Failure` carrying the diagnostic tag and the argument ordinal. The run-time "skipped" and "logged" messages are dropped.
- `dt_etw_trace_fprintf` and `dt_etw_trace_dprintf` are not modelled; they only print.
- Allocation failure (EDT_NOMEM in `create`, `std::bad_alloc` in `dt_symsrv_add_function`) is not modelled: allocation always succeeds.
- The `catch (...)` that turns an exception into EDT_ETWTRACEFAIL is not modelled, because nothing in the model throws. The same goes for the worker's `catch` around reloading.
- Floating-point payloads (`etw_float`, `etw_double`) are opaque little-endian byte spans of 4 or 8 bytes, without float semantics.
- EtwEmit.Emit: reads from the record buffer past its end (EtwEmit.ByteAt/LoadU32 for struct sizes, EtwTypes.ReadBytes for the values RunAdd adds) give 0 instead of undefined behaviour. The `len` argument the source passes around (and never reads) is not modelled.
- EtwEmit.Emit: it relies on the compile-time guarantee that every payload's type index is in the registry (`Walkable`); descriptors that break this are not modelled.
- EtwTypes.TypeName: takes a `nat`; a negative `typeidx` (an `int` in the source) is not modelled.
- The ETW functions take the registry as a parameter. `EtwTypes.Types` is the source's table, and `TypesWellFormed` proves it has the shape they rely on.
- Sizes follow a 64-bit target: pointers are 8 bytes, a payload descriptor is 24 and the descriptor header is 112.
- The descriptor's `det_data` bytes are a payload-descriptor array and a character array, not raw bytes. `bcopy` of the header is the `TraceDesc` constructor.
- `dt_symsrv_type_ctx_t` is not an object: its debug base and process handle are folded into the `TypeNode` tree, and its module name is a parameter. The tree is finite, so a self-referential type (which dbghelp would recurse on forever) is not modelled.
- Symbol names come from dbghelp as wide strings; the `(char)` narrowing in `udt` happens before the model sees the name, so `TypeNode.name` is already 8-bit.
- The symbol tag, basic-type and SYMFLAG constants (SymTag*, bt*, SYMFLAG_*) come from Microsoft's `cvconst.h` and `dbghelp.h`. Those headers are not part of this model.
- `dt_symsrv_load_functions` is not modelled: module loading, the PDB signature compare, the "nt" alias and `SymEnumSymbols`. The map it returns is the `loaded` parameter of a request step. `EnumSymProc`, `AddFunction` and `LoadCodeBlocks` model the callbacks it drives.
- `dt_symsrv_module_name` and `dt_symsrv_map` are not modelled (driver path, `SYSTEMROOT`, file mapping). Neither is the reading of the image's exception directory: `LoadCodeBlocks` takes the list of begin addresses, and the x86 build, which has no code blocks, is not modelled.
- Request decoding is not modelled. The `TRACE_SYM_REQUEST`/`TRACE_SYM_REPLY` structures come from a driver header that is not part of this model: a request is a `Request` value, the reply's fixed fields are a `Reply` value, and the size of the reply header is the worker's `hdr` parameter. The PDB age and `IsNtosKrnl` only go to the loader.
- SymWorker.StepSpec (and so SymWorker.Worker.Step and SymWorker.IgnoredRequest): the request and the reply share one buffer (lib/libdtrace/compat/win32/dt_symsrv.cpp:761-762), and this sharing is not modelled. The reply is kept as a separate `Reply` value and the buffer holds only what the worker writes. So after a request that finds no function, or one ignored for index (ULONG)-1, the model keeps the previous reply's fields and buffer bytes. In the source, the reply's fields other than `Index` and the bytes after the reply header are whatever the new request left there.
- Threading and device I/O are not modelled: `DeviceIoControl`, the `Exiting` flag, `dt_symsrv_start`/`dt_symsrv_stop` and the `SetThreadDescription` call. The model is one request at a time.
- `misc.c`, `dllmain.c` and `dt_symsrv.h` are not modelled: OS shims, the DLL entry point and declarations only.

## Findings

| source | as written | input that shows it | evidently intended | confidence | as-written member | corrected member |
|---|---|---|---|---|---|---|
| lib/libdtrace/compat/win32/dt_etw_trace.cpp:1187-1265 | When a value cannot be added inside an `etw_struct`, `dt_etw_trace_struct` returns `plcount`. The outer loop takes that as the struct's last index and ends, and `event.Write` still runs. A partial event is written even though the message says the trace was skipped. | Payloads `[etw_struct "s", etw_uint32 "x"]`, records `[(etw_trace, size 4, offset 0), (etw_trace, size 0, offset 4)]`, buffer `[1, 0, 0, 0]`. As written: `Consumed(2)` with event `Evt` holding `Struct("s", [])`. Intended: `Consumed(2)` and no event. | A failed add inside a struct skips the trace, exactly like one outside a struct. | not executed | EtwEmit.FailureInStructStillWrites | EtwEmit.PayloadWritesIffAllAdded |
