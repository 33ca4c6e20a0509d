# AutoFDO profile creation and Propeller block model, in Dafny

This project models three parts of the AutoFDO tool chain and proves
properties of them.

- **Profile creation** (`profile_creator.cc`). `ProfileCreator` picks a
  sample reader for the profiler kind. For perf data it derives the binary
  focus pattern and pads the build-id. It restricts symbolization to the
  sampled functions and attributes the samples. It can instead turn a
  cache-prefetch hint file into synthetic indirect-call targets
  `__prefetch_<type>_<index>`. It then writes the profile. It also merges
  sample files and reports sample totals.
- **The Propeller block model** (`llvm_propeller_whole_program_info.h`).
  This covers block addresses and names, the ordered table of block
  handles, and how a branch address resolves to a block when several
  zero-sized blocks share it. It also covers how functions are selected and
  how unselected ones are dropped.
- **The Propeller driver** (`create_reg_prof.cc`). This covers the list of
  perf profiles built from `--profile`, and the depth-first walk over a CFG
  that lists a hot function's blocks.

Files:

- `wrappers.dfy`: `Option`.
- `fixed_width.dfy`: the 8- and 64-bit integer types, with explicit
  wrap-around.
- `text.dfy`: numerals, `strstr`, `basename`, `StrSplit`.
- `collaborators.dfy`: the sample readers, `Addr2line`, `SymbolMap` and the
  profile writer. These are reduced to what the orchestrator observes.
  Their results come from oracles in `Env`.
- `prefetch_hints.dfy`: the hint file and the conversion rules.
- `profile_creator.dfy`: the `ProfileCreator` class and `MergeSample`.
- `propeller_program_info.dfy`: the `WholeProgramInfo` class.
- `create_reg_prof.dfy`: the options builder and the DFS.

How each kind of code is modelled:

- **Code that changes state** is a class whose methods modify its fields.
  This covers the symbol map's profile, the creator's reader, the BB
  address map and symbol table, and the DFS visited set. Each such method
  is proved against a specification function, or states its whole new
  state.
- **Loops** are `while` loops. The hint reader, the conversion loop with
  its per-address `uint8` counters and the perf-name loop are proved
  against recursive specification functions (`ScanHints`,
  `ConversionUpdates`, `PerfNamesIn`). The set filters and
  `DropNonSelectedFunctions` state their results directly, as set and map
  comprehensions.
- **The DFS** is specified by the pure functions `Walk`/`WalkEdges`. The
  recursive method is proved equal to them. The traversal properties are
  lemmas about `Walk`.

## Model

| member | source | states |
|---|---|---|
| FixedWidth.Increment8 | profile_creator.cc:219 | The post-increment of a `uint8` counter is the successor modulo 256; it is 0 exactly after 255 |
| FixedWidth.AsUnsigned64 | profile_creator.cc:227-234 | `static_cast<uint64_t>` of a delta agrees with it modulo 2^64; the result is below 2^63 exactly when the delta is non-negative |
| FixedWidth.AsSigned64 | profile_creator.cc:227-234 | The signed reading of a `uint64` casts back to the same value, so the cast loses nothing |
| FixedWidth.SignedRoundTrip | profile_creator.cc:227-234 | Reading the stored count back as signed gives the delta written in the hint file |
| Text.Numeral | profile_creator.cc:233 | A numeral is a non-empty run of digits of its base, with no leading zero, and it is "0" exactly for 0 |
| Text.NumeralRoundTrip | profile_creator.cc:233 | Reading back the decimal or hex digits of `n` gives `n` |
| Text.NumeralInjective | profile_creator.cc:233 | Distinct numbers have distinct numerals |
| Text.Find | profile_creator.cc:153 | `strstr`: the first position where the pattern occurs, or none when it occurs nowhere |
| Text.Basename | profile_creator.cc:157 | `basename`: the suffix after the last '/', holding no '/', preceded by '/' when shorter than the path |
| Text.Split | create_reg_prof.cc:50 | `StrSplit` on one character: pieces without the separator that join back to the input |
| Text.SplitJoin | create_reg_prof.cc:50 | Splitting a join of separator-free pieces gives the pieces back |
| Text.LastIndexOf | llvm_propeller_whole_program_info.h:194-201 | The last position of a character: it holds the character and none follows |
| Text.LastIndexOfJoin | llvm_propeller_whole_program_info.h:194-201 | In `left + [c] + right` with no `c` in `right`, the last `c` separates `left` and `right` |
| Collaborators.SymbolMap.SetAddr2line | profile_creator.cc:100 | The symbol map holds the given resolver afterwards; nothing else changes |
| Collaborators.SymbolMap.SetIgnoreThresholds | profile_creator.cc:113 | Sets the flag only |
| Collaborators.SymbolMap.EnsureEntryInFuncForSymbol | profile_creator.cc:224-225 | Records the entry request; its success is the symbol map's answer |
| Collaborators.SymbolMap.AddIndirectCallTarget | profile_creator.cc:231-238 | Records the target with its stack, name and count; its success is the symbol map's answer |
| Collaborators.SymbolMap.ElideSuffixesAndMerge | profile_creator.cc:240 | Records one suffix elision |
| Collaborators.SymbolMap.AttributeSamplesFrom | profile_creator.cc:195-197 | Records the attribution of the reader's samples through the given resolver |
| Collaborators.SampledFunctionTable | profile_creator.cc:188-190 | The sampled-function table is part of the symbol table's ranges: it keeps exactly the functions whose range holds a sampled address, with their sizes |
| Collaborators.SampledFunctionTableGrows | profile_creator.cc:188-190 | More sampled addresses never drop a function from the table; no samples give an empty table |
| Collaborators.ProfileWriter.SetSymbolMap | profile_creator.cc:111 | The writer refers to the given symbol map; nothing is written |
| Collaborators.ProfileWriter.WriteToFile | profile_creator.cc:140 | Records one write of the path holding the profile of the symbol map set on the writer, as it stands; succeeds as the file system answers |
| PrefetchHints.ReadPrefetchHints | profile_creator.cc:57-81 | A file that cannot be opened gives no hints; otherwise the loop run while not at end of file collects exactly `ScanHints` of the text: one hint per successful scan, in file order, stopping at the first scan that fails |
| PrefetchHints.ScanHint | profile_creator.cc:67-68 | One `fscanf` that assigns all three fields always consumes input, reads a type that is a non-empty run without white space, and consumes the white space after it |
| PrefetchHints.ScanToken | profile_creator.cc:67 | `%s` reads a non-empty run without white space and stops at white space or the end |
| PrefetchHints.ScanHexOf | profile_creator.cc:67 | `%lx` reads back every 64-bit value written in hex, after any white space, up to the first non-hex-digit |
| PrefetchHints.ScanDecimalOf | profile_creator.cc:67 | `%ld` reads back every 64-bit delta written in decimal, negative ones with their `-`, after any white space |
| PrefetchHints.ScanTokenOf | profile_creator.cc:67 | `%s` reads back a token after any white space, up to the next white space |
| PrefetchHints.ScanSpacedHint | profile_creator.cc:67-68 | A hint written `pc,delta,type`, with white space before any field, scans back to itself and consumes the white space after the type |
| PrefetchHints.ReadingStopsAtUnreadable | profile_creator.cc:66-71 | Text that does not scan as a hint ends the reading: the hints before it are all that is read, whatever follows |
| PrefetchHints.ExampleJunkEndsReading | profile_creator.cc:66-71 | Text after the type on the first example line keeps the first hint and ends the reading; the second line is never read |
| PrefetchHints.PrefetchIndex | profile_creator.cc:219 | A hint's index is the number of earlier hints at its address modulo 256 |
| PrefetchHints.TargetName | profile_creator.cc:233 | A target name is `__prefetch_`, the hint type, `_` and the decimal index, which reads back, so distinct indices give distinct names for one type |
| PrefetchHints.HintUpdates | profile_creator.cc:215-238 | A hint whose address has no symbol changes nothing; otherwise it requests the entry of that symbol, and only when the entry exists adds one target named after its type and index, with the delta modulo 2^64 as count |
| PrefetchHints.ConversionUpdates | profile_creator.cc:211-239 | The hints make at most two updates each, all entry requests or targets |
| PrefetchHints.ReadFormattedHints | profile_creator.cc:57-81 | Reading a file written from hints, with any white-space line end (LF, CR LF, ...), gives back exactly those hints, in order, and then whatever the rest of the file reads as |
| PrefetchHints.IndicesStart | profile_creator.cc:210 | The empty counter map agrees with the per-address counts before any hint |
| PrefetchHints.IndicesSkip | profile_creator.cc:215-218 | A hint whose address has no symbol leaves every counter as it is |
| PrefetchHints.IndicesAdvance | profile_creator.cc:219 | A hint with a symbol reads its counter (0 if absent), which is the number of earlier hints at its address modulo 256, and the incremented map agrees after it |
| PrefetchHints.SameAddressIndices | profile_creator.cc:219 | Hints that all share one address get indices 0, 1, 2, ... modulo 256 |
| PrefetchHints.IndicesIncrease | profile_creator.cc:219 | Two hints at one address get increasing indices while fewer than 256 precede the later one |
| PrefetchHints.UpdatesOnlyForKnownSymbols | profile_creator.cc:215-238 | Every update conversion makes is an entry request or a target for the symbol at the hint's address |
| PrefetchHints.ExampleLinesParse | profile_creator.cc:47-56 | The lines `1000,64,T0` and `1000,-32,NTA`, with LF, CR LF or any white-space line end, read as two hints at 0x1000 |
| PrefetchHints.ExampleLinesFormat | profile_creator.cc:47-56 | The two example hints at 0x1000 are written `1000,64,T0` and `1000,-32,NTA` |
| PrefetchHints.TwoHintsAtOneAddress | profile_creator.cc:211-238 | These two hints at a function's address give targets `__prefetch_T0_0` with count 64 and `__prefetch_NTA_1` with count 2^64-32 |
| ProfileCreation.PadBuildId | profile_creator.cc:166-170 | A non-empty build-id under 40 characters is right-padded with '0' to 40; others are kept |
| ProfileCreation.StripUnstripped | profile_creator.cc:152-156 | The path is cut at the first `.unstripped`; what is left holds none |
| ProfileCreation.FocusBinaryRe | profile_creator.cc:149-160 | A set flag is used as given; otherwise `.*/`, the last component of the cut path, then `$` |
| ProfileCreation.SelectReader | profile_creator.cc:145-180 | Only `perf` and `text` get a reader; the perf reader gets the focus pattern and a build-id that is padded when the flag is empty and `""` when it is set |
| ProfileCreation.ProfileCreator.ReadSample | profile_creator.cc:143-186 | Fails on an unsupported kind, keeping the old reader; otherwise installs the reader and succeeds exactly when its read does |
| ProfileCreation.ProfileCreator.TotalSamples | profile_creator.cc:244-250 | 0 without a reader, else the reader's total |
| ProfileCreation.ProfileCreator.CheckAndAssignAddr2Line | profile_creator.cc:94-102 | Fails on a null resolver without touching the symbol map, else hands the resolver over |
| ProfileCreation.ProfileCreator.ComputeProfile | profile_creator.cc:187-199 | Builds the resolver for exactly the functions holding a sampled address; attributes the samples only when that succeeds |
| ProfileCreation.ProfileCreator.ConvertPrefetchHints | profile_creator.cc:201-242 | Fails only when the whole-binary resolver cannot be built; otherwise applies the file's hints in order (`ConversionUpdates`), with per-address indices, then elides suffixes once |
| ProfileCreation.ProfileCreator.ConvertHints | profile_creator.cc:211-239 | The loop over the hints appends to the symbol map exactly the updates `ConversionUpdates` gives for all of them, and leaves the resolver and the threshold flag alone |
| ProfileCreation.ProfileCreator.ConvertHint | profile_creator.cc:212-238 | One hint appends exactly its own updates, with the index its address has reached, and the counter map keeps agreeing with the per-address counts |
| ProfileCreation.ProfileCreator.ApplyHint | profile_creator.cc:221-238 | Requests the entry, then adds the target only if the entry exists, with the delta read as unsigned; a failed target is only reported |
| ProfileCreation.ProfileCreator.CreateProfile | profile_creator.cc:104-141 | The writer gets a fresh symbol map for the binary, with thresholds ignored exactly in prefetch mode; when every step succeeds (`CreatedProfile`) the map holds that resolver and log and is written once to the output, and `ok` is the write's result; otherwise nothing is written and the map holds no resolver and no updates; the reader is the one selected, or the old one when none is |
| ProfileCreation.ProfileCreator.PopulateProfile | profile_creator.cc:112-118 | Filling a fresh symbol map succeeds exactly when every step succeeds (`CreatedProfile`); the map then holds that resolver and log, otherwise none and no updates; thresholds are ignored exactly for prefetch; the reader is the selected one, or the old one when none is selected or in prefetch mode |
| ProfileCreation.CreatedProfileContents | profile_creator.cc:104-141 | A created prefetch profile uses the whole-binary resolver and ends with one suffix elision after entry requests and targets for the binary's symbols; a created sample profile uses a resolver restricted to sampled functions of the binary and holds one attribution of the selected reader's samples |
| ProfileCreation.ProfileCreator.GetTotalCountFromTextProfile | profile_creator.cc:85-92 | The total of a readable text profile, else 0 |
| ProfileCreation.MergeSample | profile_creator.cc:252-273 | Writes exactly when an existing output reads, or none exists, and the input reads; the write merges the two; it succeeds exactly when that write does |
| PropellerProgramInfo.WholeProgramInfo.GetAddress | llvm_propeller_whole_program_info.h:189-191 | The function's address plus the block's offset, as a 64-bit sum that wraps |
| PropellerProgramInfo.WholeProgramInfo.FunctionName | llvm_propeller_whole_program_info.h:194-199 | A function's name is its first alias, or `0x` followed by hex digits that read back as its address when it has none |
| PropellerProgramInfo.WholeProgramInfo.GetName | llvm_propeller_whole_program_info.h:194-201 | A block's name is its function's name, `:` and decimal digits that read back as its block index |
| PropellerProgramInfo.NameParts | llvm_propeller_whole_program_info.h:194-201 | After a block name's last ':' comes its block index; before it, the first alias, or `0x` and the function address in hex when there is none |
| PropellerProgramInfo.NamesDistinctInFunction | llvm_propeller_whole_program_info.h:194-201 | Two blocks of one function have different names |
| PropellerProgramInfo.OrderedBetween | llvm_propeller_whole_program_info.h:265-276 | In the ordered handle table, addresses never decrease |
| PropellerProgramInfo.FunctionHandlesConsecutive | llvm_propeller_whole_program_info.h:265-276 | Every function's handles are consecutive: a handle between two handles of one function belongs to it, at the matching block index, whatever order the functions come in |
| PropellerProgramInfo.DisjointBetween | llvm_propeller_whole_program_info.h:265-276 | With adjacent blocks not overlapping, every block ends before any later one starts |
| PropellerProgramInfo.WholeProgramInfo.LastAtOrBelow | llvm_propeller_whole_program_info.h:105-107 | The last handle starting at or below the address, with every later one above it |
| PropellerProgramInfo.WholeProgramInfo.FirstOfEmptyRun | llvm_propeller_whole_program_info.h:126-128 | Steps back over the empty blocks of the same function at the same address, stopping at the first |
| PropellerProgramInfo.WholeProgramInfo.FindBbHandleIndexUsingBinaryAddress | llvm_propeller_whole_program_info.h:105-136 | A returned handle starts at the address or contains it |
| PropellerProgramInfo.LastAtOrBelowIs | llvm_propeller_whole_program_info.h:105-107 | The handle at or below the address followed only by higher ones is the one found |
| PropellerProgramInfo.InsideBlock | llvm_propeller_whole_program_info.h:121-122 | An address strictly inside a block resolves to it in both directions |
| PropellerProgramInfo.AtStartOfBlock | llvm_propeller_whole_program_info.h:123-134 | The start of a non-empty block with no empty block of its own function there resolves to it in both directions, ignoring another function's empty blocks |
| PropellerProgramInfo.SharedStart | llvm_propeller_whole_program_info.h:126-131 | Where empty blocks of one function share the start of its non-empty block, `To` gives the first empty block and `From` the non-empty one |
| PropellerProgramInfo.RunStartsAt | llvm_propeller_whole_program_info.h:126-128 | Stepping back from a block over a run of empty blocks stops at the run's start |
| PropellerProgramInfo.UnmappedIffNone | llvm_propeller_whole_program_info.h:105-107 | No handle is found exactly when no block starts at or contains the address |
| PropellerProgramInfo.DocumentedResolutions | llvm_propeller_whole_program_info.h:113-134 | On the documented foo/bar table: 0x12 gives foo.5, 0x16 gives foo.6, 0x1a gives foo.7 for `To` and foo.9 for `From`, and 0x20 gives bar.0 |
| PropellerProgramInfo.WholeProgramInfo.FilterNonTextFunctions | llvm_propeller_whole_program_info.h:217-219 | Keeps exactly the selected functions in a text section |
| PropellerProgramInfo.WholeProgramInfo.FilterNoNameFunctions | llvm_propeller_whole_program_info.h:213-215 | Keeps exactly the selected functions with at least one name |
| PropellerProgramInfo.WholeProgramInfo.FilterDuplicateNameFunctions | llvm_propeller_whole_program_info.h:221-224 | Keeps exactly the selected functions sharing no name with another selected one, and returns how many it removed |
| PropellerProgramInfo.WholeProgramInfo.DropNonSelectedFunctions | llvm_propeller_whole_program_info.h:171-174 | Clears the blocks of exactly the unselected functions and removes the symbols at their addresses; the rest is unchanged |
| PropellerProgramInfo.WholeProgramInfo.SelectFunctions | llvm_propeller_whole_program_info.h:155-163 | The result is exactly the named text functions without a duplicate name, and also hot in hot-only mode; everything else is dropped |
| PropellerProgramInfo.Indices | llvm_propeller_whole_program_info.h:155-163 | The indices of all functions of the BB address map |
| CreateRegProf.PerfNamesIn | create_reg_prof.cc:44-52 | The kept lines are exactly those that are non-empty and, for a list file, not comments, in order |
| CreateRegProf.PerfNames | create_reg_prof.cc:41-53 | Every perf name is non-empty and is a non-comment line of the `@` list file or a piece of the `;`-separated profile string |
| CreateRegProf.PerfNamesInAppend | create_reg_prof.cc:44-52 | Filtering a concatenation of lines filters each part and concatenates the results |
| CreateRegProf.PerfNamesInOne | create_reg_prof.cc:44-52 | A single line is kept exactly when it is non-empty and, for a list file, not a comment |
| CreateRegProf.CreatePropellerOptionsFromFlags | create_reg_prof.cc:38-60 | The perf names are those of `--profile` (`PerfNames`); the binary and cluster output come from the flags; the symbol order goes to `./symbol_order.txt`; there is no profiled-binary name and the build-id is not ignored |
| CreateRegProf.CollectPerfNames | create_reg_prof.cc:44-48 | The lines read from the list file that are kept are exactly `PerfNamesIn` of them |
| CreateRegProf.PerfNamesInKeepsAll | create_reg_prof.cc:44-52 | Filtering keeps every line when all of them name profiles |
| CreateRegProf.PerfNamesJoined | create_reg_prof.cc:50-52 | Names joined with ';' give the names back when none is empty or holds ';', and the first does not start with '@' |
| CreateRegProf.ListFileNames | create_reg_prof.cc:41-48 | `@path` gives the list file's lines when all of them name profiles |
| CreateRegProf.Walk | create_reg_prof.cc:64-75 | An already-visited node leaves the walk unchanged; a new one is visited and handed to the node callback first; nothing is handed to an absent callback |
| CreateRegProf.WalkEdges | create_reg_prof.cc:69-74 | Walking out-edges only adds to the visited set and the callback traces, and nothing is handed to an absent callback |
| CreateRegProf.ReachableThrough | create_reg_prof.cc:69-73 | A walk from a successor extends to one from the node |
| CreateRegProf.ClosedSetHoldsReachable | create_reg_prof.cc:69-73 | A set holding a node and closed under successors holds everything reachable from it |
| CreateRegProf.ParentsFirstExtend | create_reg_prof.cc:69-73 | Appending the nodes of a child's walk keeps every node entered from an earlier one |
| CreateRegProf.WalkReachable | create_reg_prof.cc:64-75 | Every node the walk newly visits is reachable from its start |
| CreateRegProf.WalkEdgesReachable | create_reg_prof.cc:69-74 | Every node visited through a node's out-edges is reachable from it |
| CreateRegProf.WalkClosed | create_reg_prof.cc:64-75 | Every successor of a newly visited node is visited when the walk ends |
| CreateRegProf.WalkEdgesClosed | create_reg_prof.cc:69-74 | Every sink of the remaining out-edges is visited, and so is every successor of a newly visited node |
| CreateRegProf.WalkHandsNewNodes | create_reg_prof.cc:65-67 | The node callback gets each newly visited node exactly once |
| CreateRegProf.WalkEdgesHandNewNodes | create_reg_prof.cc:69-74 | Walking out-edges hands the node callback each newly visited node exactly once |
| CreateRegProf.WalkParentsFirst | create_reg_prof.cc:64-75 | Each node handed over after the start is entered by an edge from one handed over before it (pre-order) |
| CreateRegProf.WalkEdgesParentsFirst | create_reg_prof.cc:69-74 | Walking a handed-over node's out-edges keeps the pre-order property |
| CreateRegProf.WalkHandsOnlyOutEdges | create_reg_prof.cc:71 | The edge callback gets only out-edges of newly visited nodes |
| CreateRegProf.WalkEdgesHandOnlyOutEdges | create_reg_prof.cc:69-74 | Walking out-edges hands over only edges of the node or of newly visited nodes |
| CreateRegProf.WalkHandsAllOutEdges | create_reg_prof.cc:69-74 | The edge callback gets every out-edge of every newly visited node |
| CreateRegProf.WalkEdgesHandAllOutEdges | create_reg_prof.cc:69-74 | Walking out-edges from the i-th hands over each of them and every out-edge of a newly visited node |
| CreateRegProf.WalkEdgeCount | create_reg_prof.cc:64-75 | With the edge callback, the edges a walk hands over are, counted with multiplicity, exactly the out-edges of the nodes it newly visits |
| CreateRegProf.WalkEdgesEdgeCount | create_reg_prof.cc:69-74 | Walking out-edges from the i-th hands over, counted with multiplicity, exactly those edges and the out-edges of the nodes newly visited |
| CreateRegProf.WalkEntersNode | create_reg_prof.cc:65-68 | A walk into an unvisited node marks it, hands it to the node callback when there is one, and then walks its out-edges from the first |
| CreateRegProf.WalkFollowsEdge | create_reg_prof.cc:70-73 | Following the i-th out-edge hands it to the edge callback when there is one and walks from its sink before the next edge |
| CreateRegProf.Traversal.ClearVisited | create_reg_prof.cc:98 | The visited set is empty afterwards |
| CreateRegProf.Traversal.DFS | create_reg_prof.cc:64-75 | The visited set and both callback traces become exactly those of `Walk` from the old state |
| CreateRegProf.Traversal.FollowEdge | create_reg_prof.cc:70-73 | One turn of the edge loop takes the remaining walk from edge i to edge i + 1, only adding to the visited set |
| CreateRegProf.PreOrder | create_reg_prof.cc:96-103 | From a fresh visited set, the nodes printed start at the entry, are exactly the reachable nodes, each once, and each is entered from an earlier one |

## Left out

- I/O, logging and flags are parameters.
  - Opening and reading files is modelled as a map from path to contents:
    the text of a hint file, the lines of a perf-profile list file.
  - `LOG` output is not modelled.
  - `--focus_binary_re` is a field of `Env`.
  - The result of the ELF build-id read is an oracle.
- The internals of the collaborators are not part of this model.
  - The perf and text sample readers, `Addr2line`, `SymbolMap` and the
    profile writer appear only through the state the orchestrator sees.
  - Their answers are oracles.
  - The profile a `SymbolMap` holds is the ordered log of calls made on it.
  - `CreateAddr2line` and `SymbolMap.GetSymbolInfoByAddr` only pass on
    these oracles (`Env.addr2lineOk`, the binary's symbol table), so their
    contracts are those oracles' answers.
  - `Profile::ComputeProfile` (sample attribution) is one logged call.
- The profile symbol list is left out. That is the `HAVE_LLVM` block of
  `CreateProfile` and its `store_sym_list_in_profile` parameter. It
  depends on LLVM's sample-profile writer.
- `ReadPrefetchHints` reads the file's text as the stream `fscanf` sees.
  - `ScanHex` accepts bare hex digits only. `%lx` also accepts a `0x`
    prefix and a sign.
  - `ScanHex` and `ScanDecimal` fail on a value outside 64 bits, where
    `fscanf` saturates it and goes on.
  - The `%s` type is read into a 5-byte buffer. A type over 4 characters
    overflows it; the model keeps the whole token.
  - End of file is reached exactly when a scan consumed the whole rest of
    the text. A read error other than a failed scan is not modelled.
- `MergeSample` does not model the merge semantics of the text sample
  writer. The model records the one write and the two sample sets it
  combines.
- `FocusBinaryRe` does not escape regular-expression characters in the
  base name, and neither does the source.
- `FilterDuplicateNameFunctions` removes every selected function that shares
  an alias with another selected function, and returns how many it removed.
  Its body is not part of the shown header, so this reading of "duplicate"
  is a model decision.
- `SelectFunctions` applies the filters as non-text, nameless, duplicate
  names, then cold. `CalculateHotFunctions` is given as the set `hot`,
  because it depends on the LBR aggregation of perf data.
- `FindBbHandleIndexUsingBinaryAddress` follows the header's documented
  contract; its body is not part of this model. The resolution lemmas
  require that adjacent blocks in the table do not overlap (`BlocksDisjoint`).
- `WholeProgramInfo` leaves out the `Create` factories, `ParsePerfData`,
  `ReadBinaryInfo` and the CFG, edge and fall-through construction. These
  are declarations only and depend on LLVM object files. The handle table
  is a field that `HandlesOrdered` describes; nothing builds it.
- `GetBbEntry`, `GetAddress` and `GetName` require a handle naming a
  block (`IsHandle`), and `GetName` a function with an alias entry. The
  source's `.at()` lookups throw `std::out_of_range` instead; that error
  path is not modelled, since every caller passes handles of the table.
- `HandlesOrdered` states the handle table's documented order. The table
  holds each block once, since it lists the handles of all blocks of the
  selected functions; that is what keeps one function's handles together.
- `DropNonSelectedFunctions` removes the symbol-table entry at a dropped
  function's address. A selected function at the same address loses it
  too, because the table is keyed by address.
- `DFS` identifies a CFG node by a number and an edge by its two end
  nodes. Two parallel edges with the same ends are therefore one value.
- The callbacks of `DFS` are modelled by what they are handed. The driver's
  printing is the node trace.
- `main` in `create_reg_prof.cc` is left out. It creates the Propeller
  writer and loops over the hot CFGs. Its per-CFG part is `PreOrder`.
