# StructType and InstLib, modelled in Dafny

This project models two registries from the Empirical C++ library.

**`emp::StructType`** (`source/Empower/StructType.h`) is a struct whose member
variables are chosen at run time.
- `AddMemberVar<T>(name)` appends a member of type `T`. The member's byte offset is the running total `num_bytes`, its name goes into `name_map` at the member's index, and the total grows by `sizeof(T)`.
- `DefaultConstruct` and `CopyConstruct` resize a memory image to `num_bytes` and construct every member in declaration order.
- They also set the `active` flag. After that, no member may be added.

The model is the class `StructTypes.StructType`. The pure layout facts live in
module `StructLayout`:
- the members are packed back to back;
- their ranges are disjoint and lie inside `[0, num_bytes)`;
- `name_map` holds exactly one key per member;
- the image a construction writes is the concatenation of the members' bytes.

**`emp::InstLib`** (`hardware/InstLib.h`) is the instruction library of one
kind of virtual CPU.
- `Add` gives each new instruction the next id and a one-character short name from a fixed 73-character chart. Every id from 72 on gets `'+'`.
- `Add` keeps two parallel vectors (callbacks and `InstInfo` records) and two maps (name → id, symbol → id) in step, and ignores a duplicate name.
- `LoadInst` parses lines of the form `inst_name:spec_id:custom_name key=value ...` and adds the instruction they describe.
- `LoadDefaults` loads a list of such lines.

The model is the class `InstLibs.InstLib`. Each of its methods is proved to
leave the four containers exactly as a function on the value
`InstLibrary.Library` says:
- `InstLibrary` holds the chart, `Add` as `Added`, the lookups and the library invariants `WellFormed` and `Exact`;
- `InstLoad` holds the line parser as `ParseInst`, `LoadEffect` and `LoadAll`, with reference definitions of its argument loop.

The string helpers the parser relies on, and `std::stoi`, are in
`StringUtils`. `tools/string_utils.h` is not part of this model, so each
helper is defined by the behaviour its callers rely on:
- `compress_whitespace` collapses runs of whitespace to single spaces;
- `string_pop_word`, `string_pop` and `string_get` split at the first delimiter.

The collaborators of `StructType` are modelled only as far as `StructType`
uses them:
- `TypeManagers.TypeManager` caches one type descriptor, an id and a positive size, per C++ type;
- `MemoryImages.MemoryImage` is a byte sequence;
- constructing one member is an abstract, size-preserving write into that member's byte range. It is a function parameter: `init` for default construction, `copy` for copy construction.

`MemoryImage.h`, `TypeManager.h` and `VarInfo.h` are not part of this model.

## Model

| member | source | states |
|---|---|---|
| StructTypes.StructType.constructor | source/Empower/StructType.h:36 | a new struct type has no members, an empty name map, `num_bytes == 0` and is not active; both invariants hold |
| StructTypes.StructType.GetSize | source/Empower/StructType.h:39 | the size is the sum of the member sizes and encloses every member's byte range |
| StructTypes.StructType.IsActive | source/Empower/StructType.h:40 | once active, no name can be added; while inactive, every name not yet in `name_map` can be added |
| StructTypes.StructType.GetID | source/Empower/StructType.h:43-46 | as written: the assertion admits only a name that is not a member; the lookup returns 0 and registers that name at 0, after which `AddMemberVar(name)` is refused |
| StructTypes.StructType.FieldIndex | source/Empower/StructType.h:42-46 | the intended lookup: a result exactly when some member has that name, and then it is that member's index |
| StructTypes.StructType.AddMemberVar | source/Empower/StructType.h:49-57 | requires an inactive type and a new name; appends exactly one member at offset `old(num_bytes)` with the manager's descriptor, maps the name to the old member count, grows `num_bytes` by the type's size, and keeps the layout and name-index invariants; the type manager changes at most at this member's type, so every descriptor cached before stays the same |
| StructTypes.StructType.DefaultConstruct | source/Empower/StructType.h:59-64 | the memory ends `num_bytes` long and equal to the members' default images concatenated in declaration order; `active` is set; the layout is unchanged |
| StructTypes.StructType.CopyConstruct | source/Empower/StructType.h:66-71 | only the target is resized; it ends equal to each member copy-constructed from the same range of the source, concatenated in order; the source is unchanged; `active` is set |
| StructTypes.TwoMemberLayout | source/Empower/StructType.h:53-56 | a 4-byte member followed by a 1-byte member gives a 5-byte struct, with the second member at offset 4 |
| TypeManagers.TypeManager.GetType | source/Empower/StructType.h:53 | the descriptor has the type's size, is the cached one when the type was seen before, and distinct types get distinct ids |
| TypeManagers.IdsDistinct | source/Empower/StructType.h:53 | in a consistent cache, two different types never share an id |
| MemoryImages.MemoryImage.Resize | source/Empower/StructType.h:61 | the image gets the requested length, keeps its common prefix and is zero-filled beyond it |
| MemoryImages.MemoryImage.Write | source/Empower/StructType.h:62 | a member's construction changes only the bytes of its range |
| MemoryImages.Resized | source/Empower/StructType.h:61 | a resized image has the requested length, its common prefix with the old image, and zeros beyond the old length |
| MemoryImages.Overwrite | source/Empower/StructType.h:62 | the length is kept, the bytes before and after the written range are kept, and the range holds the data |
| MemoryImages.OverwriteExtends | source/Empower/StructType.h:62 | writing a member right after an already-built prefix extends that prefix by the member's bytes |
| StructLayout.SumSizes | source/Empower/StructType.h:56 | the running total `num_bytes`: the sizes of the members added so far, summed; SumSizesAppend and AppendKeepsContiguous state how it grows |
| StructLayout.SumSizesAppend | source/Empower/StructType.h:56 | appending a member adds exactly its size to the total |
| StructLayout.AppendKeepsContiguous | source/Empower/StructType.h:54-56 | appending a member at the running total keeps every offset equal to the sum of the sizes before it |
| StructLayout.MemberWithin | source/Empower/StructType.h:55-56 | every member's range lies inside `[0, num_bytes)` |
| StructLayout.MembersDisjoint | source/Empower/StructType.h:55-56 | an earlier member's range ends at or before a later member's offset |
| StructLayout.AppendKeepsNamesIndexed | source/Empower/StructType.h:54-55 | registering a new name at the old member count keeps `name_map[vars[i].name] == i` for every member, with no other key |
| StructLayout.NamesIndexedCount | source/Empower/StructType.h:54-55 | under the name index, the map's keys are exactly the member names, one key per member |
| StructLayout.DistinctNamesCount | source/Empower/StructType.h:52 | names kept distinct by the uniqueness assertion are as many as the members |
| StructLayout.ConcatField | source/Empower/StructType.h:62 | in the concatenation of the member pieces, member i's piece sits at the sum of the earlier sizes |
| StructLayout.ConcatOfSlices | source/Empower/StructType.h:69 | pieces that are each member's own range of a source, concatenated, give the source's first `num_bytes` bytes |
| StructLayout.ImageIsConcat | source/Empower/StructType.h:62 | the image built member by member is the concatenation of the members' pieces |
| StructLayout.ImageStep | source/Empower/StructType.h:62 | constructing one more member extends the image by exactly that member's bytes |
| StructLayout.DefaultImageField | source/Empower/StructType.h:60-62 | in the default image, each member's range holds the default bytes of its type |
| StructLayout.CopyImageField | source/Empower/StructType.h:67-69 | in the copy image, each member's range holds the copy of the same range of the source |
| StructLayout.CopyImageIdentity | source/Empower/StructType.h:67-69 | when copy construction reproduces the bytes, the copy image is the source's first `num_bytes` bytes |
| InstLibrary.MakeInstInfo | hardware/InstLib.h:55-60 | name, description, argument value, short name, id and cycle cost are stored verbatim; the prototype is `(id, arg + 1, cycle_cost != 1)` |
| InstLibrary.ChartShape | hardware/InstLib.h:63-69 | the chart has 73 characters, from `'a'` to the `'+'` at position 72 |
| InstLibrary.ChartIndexInverse | hardware/InstLib.h:63-69 | every chart position is recovered from its character |
| InstLibrary.ChartDistinct | hardware/InstLib.h:63-69 | the 73 chart characters are pairwise distinct |
| InstLibrary.MinId | hardware/InstLib.h:128 | the chart index is the id when the id is at most 72, and 72 otherwise |
| InstLibrary.ShortNameFor | hardware/InstLib.h:128-129 | an id of at most 72 gets the chart character at that id; every id from 72 on gets `'+'` |
| InstLibrary.ShortNamesDistinct | hardware/InstLib.h:128-129 | ids 0 to 72 get distinct short names |
| InstLibrary.EmptyLibraryWellFormed | hardware/InstLib.h:82 | the empty library satisfies both invariants |
| InstLibrary.AddedWellFormed | hardware/InstLib.h:115-143 | Add keeps the vectors parallel, every entry's id, short name and prototype in line with its position, every entry indexed by name (and by symbol up to id 72), and every map value a valid position |
| InstLibrary.AddedExact | hardware/InstLib.h:119-140 | Add introduces no map key that does not belong to its entry |
| InstLibrary.AddedFresh | hardware/InstLib.h:127-139 | a fresh name appends one callback and one entry, keeps the old entries, stores the arguments verbatim, and maps the name to the old size, which is also the entry's id |
| InstLibrary.AddTwice | hardware/InstLib.h:119-124 | adding a name that is already present changes nothing, so a second Add of a name is a no-op whatever its arguments |
| InstLibrary.AddedShortNames | hardware/InstLib.h:128-140 | the symbol map gains the new short name exactly when the new id is at most 72; beyond that the entry's short name is `'+'` and the map is unchanged |
| InstLibrary.ShortNameMapInverts | hardware/InstLib.h:63-69 | without keys from failed lookups, the symbol map is injective, finds each of the first 73 entries by its short name, and maps each character to its own chart position |
| InstLibrary.Added | hardware/InstLib.h:115-143 | Add on the library value: a duplicate name leaves it unchanged, otherwise one callback and one entry are appended and indexed; AddedWellFormed, AddedExact, AddedFresh, AddTwice and AddedShortNames state its properties |
| InstLibrary.At | hardware/InstLib.h:88-91 | the prototype of entry `index` has that id, the stored argument plus one, and a cost flag that says whether the cycle cost differs from 1 |
| InstLibrary.LookupName | hardware/InstLib.h:92-99 | an unknown name is reported and answered with entry 0's prototype, and the name is left in the name map pointing at 0; only the name map can change, and the invariant holds |
| InstLibrary.LookupSymbol | hardware/InstLib.h:100-107 | the same for short names, which can change only the symbol map |
| InstLibrary.LookupNameOfEntry | hardware/InstLib.h:92-99 | looking up an entry's own name returns that entry's prototype and changes nothing |
| InstLibrary.LookupSymbolOfEntry | hardware/InstLib.h:100-107 | looking up the short name of an entry with id at most 72 returns that entry's prototype and changes nothing |
| InstLibrary.UnknownNameLookupShadowsAdd | hardware/InstLib.h:92-99 | as written: after an unknown name is looked up, the library holds a key no entry owns, and a later Add of that name is ignored as a duplicate |
| InstLibrary.UnknownSymbolLookupBreaksInjective | hardware/InstLib.h:100-107 | as written: looking up an unknown character outside the chart makes the symbol map send two characters to entry 0 |
| InstLibrary.FindName | hardware/InstLib.h:92-99 | the intended lookup: the same prototype and report, with entry 0 as the default, and the library unchanged |
| InstLibrary.FindNameThenAdd | hardware/InstLib.h:92-143 | the intended lookup answers as operator[](string) does, and a later Add of the unknown name still appends it and keeps the library exact |
| InstLibrary.FindSymbol | hardware/InstLib.h:100-107 | the intended symbol lookup: the same prototype and report, with entry 0 as the default, and the library unchanged |
| InstLibrary.FindSymbolKeepsInjective | hardware/InstLib.h:100-107 | the intended symbol lookup answers as operator[](char) does, and the short-name index it leaves is still injective |
| InstLibs.InstLib.constructor | hardware/InstLib.h:82 | a new library is empty and satisfies both invariants |
| InstLibs.InstLib.GetSize | hardware/InstLib.h:85 | the size is the number of entries, which equals the number of callbacks and bounds every name-map value |
| InstLibs.InstLib.At | hardware/InstLib.h:88-91 | requires `0 <= index < size`; returns the prototype whose id is `index` |
| InstLibs.InstLib.ByName | hardware/InstLib.h:92-99 | the prototype, the new maps and the unknown-name report are exactly those of `LookupName` |
| InstLibs.InstLib.BySymbol | hardware/InstLib.h:100-107 | the prototype, the new maps and the unknown-symbol report are exactly those of `LookupSymbol` |
| InstLibs.InstLib.Add | hardware/InstLib.h:115-143 | reports a duplicate exactly when the name was present; the containers become exactly `Added` of the old ones, and the invariant is kept |
| InstLibs.InstLib.GetName | hardware/InstLib.h:147 | the name of an instruction is one under which the name map finds its id |
| InstLibs.InstLib.GetShortName | hardware/InstLib.h:148 | the short name is the chart character of `min(id, 72)`, and for an id of at most 72 the symbol map finds the id under it |
| InstLibs.InstLib.GetCycleCost | hardware/InstLib.h:149 | the cost differs from 1 exactly when the prototype's cost flag is set |
| InstLibs.InstLib.GetID | hardware/InstLib.h:150 | the stored id is the prototype's id |
| InstLibs.InstLib.LoadInst | hardware/InstLib.h:193-275 | the outcome and the new containers are exactly `LoadEffect` of the old ones; the word-by-word loop is proved against the fold over the argument words |
| InstLibs.InstLib.LoadDefaults | hardware/InstLib.h:277-282 | loads the lines in order, and the containers become exactly `LoadAll`'s; an exception stops the loading |
| InstLibs.LoadOne | hardware/InstLib.h:193-274 | a new library that loads one bare known name holds exactly one instruction, with id 0, argument 0 (mod_id -1 plus one), no cycle cost, stored under that name |
| InstLoad.ApplyArg | hardware/InstLib.h:211-258 | one pass of the argument loop: cycle_cost is parsed and clamped, a non-empty name replaces the stored name, stability is parsed, and a value std::stoi rejects throws; FoldArgsMeaning and ApplyArgIsStep state its effect |
| InstLoad.FoldArgs | hardware/InstLib.h:210-259 | the whole argument loop, the words applied in order and stopped by a throw; FoldArgsThrows and FoldArgsMeaning relate it to the reference definitions |
| InstLoad.NameParts | hardware/InstLib.h:197-202 | the base name before the first `':'` and mod_id from the spec part; ParsedMeaning states both |
| InstLoad.ParseInst | hardware/InstLib.h:196-259 | LoadInst up to the definition lookup; ParseInstByWords, ParsedMeaning and ThrowsMeaning state what it yields |
| InstLoad.LoadEffect | hardware/InstLib.h:193-275 | LoadInst's outcome and library afterwards; LoadEffectMeaning, LoadUnknownInstruction and LoadBareName state its properties |
| InstLoad.LoadAll | hardware/InstLib.h:277-282 | LoadDefaults on the library value, the lines loaded in order until a throw; LoadAllWellFormed states its properties |
| InstLoad.ClampCost | hardware/InstLib.h:215-222 | the cost is at least 1, and a cost of at least 1 is kept |
| InstLoad.FoldArgsThrows | hardware/InstLib.h:210-259 | the argument loop throws exactly when some cycle_cost or stability value is not an int |
| InstLoad.FoldArgsMeaning | hardware/InstLib.h:210-259 | when the loop does not throw, it ends with the last valid cycle_cost clamped to 1 (1 when there is none) and the last non-empty name value (the full name when there is none) |
| InstLoad.CostAfterAtLeastOne | hardware/InstLib.h:205-222 | the final cycle cost is at least 1 whatever the arguments |
| InstLoad.PopFirstWord | hardware/InstLib.h:196-197 | the full name is the first word of the line, and what remains holds exactly the other words |
| InstLoad.ParseInstByWords | hardware/InstLib.h:196-259 | the parse is the name split of the first word followed by the argument loop over the other words |
| InstLoad.ParsedMeaning | hardware/InstLib.h:197-259 | the base name is the full name up to its first `':'`; without a `':'` it is the whole name and mod_id is -1; with one, mod_id is -1 for an empty spec part and otherwise std::stoi of the spec part; the cost and the stored name are those of the reference definitions |
| InstLoad.ThrowsMeaning | hardware/InstLib.h:202-243 | a line throws exactly when mod_id or some cycle_cost or stability value is not an int |
| InstLoad.LoadEffectMeaning | hardware/InstLib.h:193-275 | loading keeps the invariants and changes nothing unless it returns true. It throws exactly when the parse does, and returns false exactly for an unknown base name. It returns true for a known base name even when Add ignores a duplicate; otherwise it appends the stored name with a cost of at least 1 |
| InstLoad.LoadUnknownInstruction | hardware/InstLib.h:261-268 | an unknown base name returns false and adds nothing |
| InstLoad.LoadBareName | hardware/InstLib.h:193-274 | a bare known name is added under itself with mod_id -1 and cycle cost 1 |
| InstLoad.LoadAllWellFormed | hardware/InstLib.h:277-282 | loading a list keeps both invariants and throws exactly when some line's parse throws |
| StringUtils.CompressWhitespace | hardware/InstLib.h:196 | compress_whitespace: the words of the line joined by single spaces; TokensOfCompressed and CompressIdempotent state its properties |
| StringUtils.StringPop | hardware/InstLib.h:199 | string_pop returns the text before the first delimiter and drops the delimiter; without one it pops everything |
| StringUtils.StringPopSplit | hardware/InstLib.h:199 | popping at a delimiter that the head lacks splits exactly there |
| StringUtils.StringGet | hardware/InstLib.h:200 | string_get returns what string_pop would, as a prefix, and returns the whole string exactly when there is no delimiter |
| StringUtils.StringPopWord | hardware/InstLib.h:197 | the popped word has no space, and the word, a space and the rest make up the string |
| StringUtils.TokensOfCompressed | hardware/InstLib.h:196-197 | popping words off the compressed line yields exactly the line's words |
| StringUtils.TokensOfJoin | hardware/InstLib.h:196-211 | popping words off words joined by single spaces gives those words back |
| StringUtils.WordsOfJoin | hardware/InstLib.h:196 | the words of words joined by single spaces are those words |
| StringUtils.CompressIdempotent | hardware/InstLib.h:196 | compressing whitespace twice is compressing it once |
| StringUtils.Stoi | hardware/InstLib.h:202 | std::stoi yields only 32-bit int values |
| StringUtils.StoiOfDecimal | hardware/InstLib.h:202-215 | std::stoi reads back every int written in decimal, negative ones included |
| StringUtils.StoiRejectsNoDigits | hardware/InstLib.h:202-215 | a value that does not start with a space, a sign or a digit (the empty value included) makes std::stoi throw |

## Left out

- `RunInst` (hardware/InstLib.h:109-112) calls a hardware callback. Callbacks are opaque `CallId`s, so there is nothing of its own to model.
- `AsChar` (hardware/InstLib.h:153) returns the same field as `GetShortName`, which is modelled.
- `AsString` (hardware/InstLib.h:156-164) calls `ToChar` and a `GetSize` that `std::vector` lacks. It does not compile if instantiated.
- The `stability` and `weight` values are not modelled (hardware/InstLib.h:52-53, 206-207, 234-253), nor is their clamping. They are floating point. The `stability` and `weight` parameters of `Add` are dropped.
- InstLoad.ApplyArg: the exception `std::stoi` throws for a bad `stability` value is modelled; the one `std::stod` can throw for a bad `weight` value is not, because decimal floating-point syntax is not modelled. A `weight` argument never throws in the model.
- Error and warning messages (`NotifyError`, `NotifyWarning`) are not modelled. `Add` reports that a warning was issued as its `duplicate` result, and the lookups report an error as their `unknown` result. The messages in `LoadInst` are not recorded.
- `HARDWARE_TYPE::GetInstDefs()` and `HARDWARE_TYPE::GetDefaultInstructions()` are parameters (`defs`, `defaults`), because they belong to the hardware type.
- InstLibs.InstLib.ByName and InstLibs.InstLib.BySymbol require a known key or a non-empty library. Otherwise the source reads `inst_info[0]` of an empty vector, which is undefined behaviour.
- Exceptions are modelled as the outcome `Threw` of `LoadInst` and the flag of `LoadDefaults`. Unwinding is not modelled: the library keeps what was loaded before the throw.
- Integer widths: ids, sizes and `num_bytes` are unbounded; their `int`/`size_t` overflow needs more than 2^31 instructions or a struct larger than `size_t`. `std::stoi`'s 32-bit range is modelled.
- InstLibrary.MakeInstInfo: the prototype's argument `arg + 1` (hardware/InstLib.h:58) is computed without 32-bit wrap-around. In the source it overflows a signed `int` when `arg` is `INT_MAX`, reachable with one load line such as `Nop:2147483647` or a direct `Add` with that argument; the model gives 2^31 there.
- Destructors (StructType.h:37, InstLib.h:83) do nothing and are left out.
- StructTypes.StructType.CopyConstruct requires the two images to be distinct objects. Copying an image into itself would copy-construct each member over its own live source object, which C++ leaves undefined. It also requires the source image to hold at least `num_bytes` bytes: the source reads each member's range of it without checking its size, which reads past the end of a smaller image.
- StructTypes.StructType.AddMemberVar, StructTypes.StructType.GetID and InstLibs.InstLib.At: each `emp_assert` (StructType.h:44, 51-52; InstLib.h:89) is a `requires`, which is the behaviour of a build with assertions enabled, where a failed assertion aborts. Without assertions (NDEBUG) the source carries on: AddMemberVar on an active type or with a duplicate name appends a second member and re-points `name_map`, GetID of a real member returns its index, and an out-of-range `operator[](int)` is undefined behaviour. None of that is modelled.
- InstLibs.InstLib.GetName, GetShortName, GetCycleCost and GetID require a valid id. The source does not check it (InstLib.h:147-150); an out-of-range id is undefined behaviour.
- StructTypes.StructType.DefaultConstruct and CopyConstruct: construction of a member at a raw address is a size-preserving function of the member's type, and of the source bytes for a copy. Placement construction and object lifetimes are not modelled.
- `TypeManager`, `VarInfo` and `MemoryImage` are modelled only as `StructType` uses them. `MemoryImage.resize` is taken to keep the common prefix and zero-fill the rest.
- The string helpers of `tools/string_utils.h` cover only the behaviour `LoadInst` depends on. Whitespace is space, newline, carriage return and tab.

## Findings

| source | as written | input that shows it | evidently intended | confidence | as-written member | corrected member |
|---|---|---|---|---|---|---|
| source/Empower/StructType.h:44-45 | `emp_assert(!Has(name_map, name))` admits only names that are not members; `name_map[name]` then inserts `name -> 0` | `GetID("x")` on a type with no member `x` returns 0 and registers `x`, so a later `AddMemberVar<T>("x")` fails its uniqueness assertion; with assertions enabled, `GetID` of a real member is refused | assert `Has(name_map, name)` and return that member's index without inserting | not executed | StructTypes.StructType.GetID | StructTypes.StructType.FieldIndex |
| hardware/InstLib.h:92-99 | after reporting an unknown name, `name_map[name]` inserts `name -> 0` | on a library holding `Nop`, `lib["Inc"]` leaves `Inc -> 0`, and a later `Add("Inc", ...)` is ignored as a duplicate | answer with entry 0's prototype without inserting the name | not executed | InstLibrary.UnknownNameLookupShadowsAdd | InstLibrary.FindNameThenAdd |
| hardware/InstLib.h:100-107 | after reporting an unknown symbol, `short_name_map[symbol]` inserts `symbol -> 0` | on a library holding one instruction (short name `a`), `lib['~']` leaves both `a -> 0` and `~ -> 0`, so the symbol map no longer inverts the short names | answer with entry 0's prototype without inserting the symbol | not executed | InstLibrary.UnknownSymbolLookupBreaksInjective | InstLibrary.FindSymbolKeepsInjective |
