# Verified model of the soft-PLC core

This project models the parts of Awlsim, a Step 7 soft-PLC, and of its network emulation in
which most can go wrong, and proves what they are there for.

| part | modules |
|---|---|
| Memory regions and offsets | `Bytes`, `Offset`, `Memory`, `Options` |
| Data layout: structures, arrays, strings and nested types in one byte array | `ArrayIndex`, `Layout`, `StructLayout`, `DataStructure`, `Placement`, `StructInstance`, `FieldNames` |
| The second way to an address: index times width, along an identifier chain | `ArrayLayout`, `NamedLocal`, `ChainAddress`, `ChainWalk`, `ChainResolved`, `ArrayInit`, `StringInit` |
| Building user defined types | `UdtBuild` |
| Block calls: registers, call stack, L-stacks, parameters | `LStack`, `CallMachine`, `Cpu`, `FcParams`, `FcCalls`, `FcKinds`, `FbParams`, `FbRuns` |
| The core server protocol: payloads, and frames over a byte stream | `Wire`, `Lists`, `Parts`, `Messages`, `Decoders`, `Transceiver`, `FrameArrival`, `Closing`, `WireBytes`, `PayloadBytes` |
| Timers and coded times | `Timers`, `RetentiveTimer`, `S5Time` |
| Indirect addressing | `IndirectAddr` |
| Clock memory | `ClockMemory`, `IntMath` |
| Interface allocation of network topologies | `Topology`, `SerialTopology`, `IpTopology` |
| Byte stuffing on serial lines | `ByteStuffing` |

Code that updates objects or loops over variables is a class or a method with the same fields,
branches and loops. It is proved against functions on values, and the lemmas are about those
functions: invariants over all structures that can be built, over all runs of the call machine
and of the timers, round trips over all messages, and agreement of two independent ways to
compute the same thing.

## What the code does not promise

Some properties one would expect hold only under a condition. The model follows the code, and
the condition is proved to be exact.

- The address that is computed for an array element is the one that is laid out, except for
  arrays of one BOOL (the packing continues the byte of a bit in front of it), and for arrays of
  STRINGs or structures with an odd number of bytes (padding is not counted in the computation).
- An FC that changes DI, or opens another DB, redirects the copy back of some parameters. An FB
  with an instance DB of its own writes outbound parameters that lie in the calling FB's
  instance to the wrong DB.
- Only the wait for a header is guarded against a socket that blocks. A call of `receive` inside
  a payload raises the error of the socket if that has nothing to deliver. Nothing is lost if the
  caller goes on, and calls that are made only when the socket is ready never fail.
- A received header with a wrong magic value is refused by one call only. Later calls take the
  frame for a good one, and deliver its message if its payload can be decoded. A frame whose
  payload cannot be decoded is never removed, and nothing behind it is received.
- An outbound actual parameter of an FB call that is in the open DB of the caller goes to the DB
  of the caller's own instance.
- A chain that goes into an array without a subscript is resolved, to the first element, but the
  structure registers no field of that name. A registered name with a subscript in the middle, as in
  `a.b[1].c`, is not resolved.
- An SS timer that is restarted late has not fired, if nobody read it in between. Setting the
  time of a timer has the same effect in all modes.
- CPU specs with a clock memory byte above 0xFFFF, and error messages whose long text is empty,
  are decoded as something else.

Where comments and code disagree, the code is followed. A fetch returns an integer for 1, 8, 16
and 32 bits only, not for all widths up to 32 (`awlsim/core/datatypes.py:1297-1323`). Array
elements of at least a word are padded to two bytes by their declared width, which misses
structures whose fields end at an odd byte (`awlsim/core/datastructure.py:249-252`). The ERROR
calls of the topology parsers name a function that is not defined there; they are taken as the
end of the program.

## Model

| member | source | states |
|---|---|---|
| ArrayIndex.ArrayIndexSignificances | awlsim/core/datatypes.py:496-502 | the backwards loop gives every dimension the number of elements of the dimensions behind it |
| ArrayIndex.ArrayIndicesCollapse | awlsim/core/datatypes.py:470-487 | each outcome (no indices, too many, out of bounds, linear index) occurs exactly for its inputs, and the index is the mixed-radix value of the tuple |
| ArrayIndex.CollapseInRange | awlsim/core/datatypes.py:470-487 | an in-range tuple collapses to an index from 0 to the number of elements less one |
| ArrayIndex.LastIsFastest | awlsim/core/datatypes.py:470-487 | the first element has index 0, and raising the last subscript by one raises the index by one |
| ArrayIndex.ExpandOfCollapse | awlsim/core/datatypes.py:470-508 | different in-range tuples have different linear indices: expanding the index gives the tuple back, for any number of dimensions and any bounds |
| ArrayIndex.CollapseOfExpand | awlsim/core/datatypes.py:470-508 | every linear index is the index of an in-range tuple; with the lemma above, collapsing is a bijection |
| ArrayIndex.DataIdent.AdvanceToNextArrayElement | awlsim/core/identifier.py:95-107 | the carry loop moves an in-range tuple to the one with the next linear index, and the last one to the first |
| ArrayIndex.StepsReachEveryElement | awlsim/core/identifier.py:95-107 | k steps from the first element reach the tuple whose linear index is k modulo the number of elements |
| Offset.AddCountsBits | awlsim/core/offset.py:82-88 | a sum has a bit number below 8 and counts the bits of both operands |
| Offset.AddIsAssociative | awlsim/core/offset.py:85-94 | sub-offsets may be accumulated in any grouping |
| Offset.PointerRoundTrip | awlsim/core/offset.py:69-76 | an offset survives being a pointer if and only if its bit number is below 8 and its byte number fits 16 bits |
| Memory.ByteArray.Store | awlsim/core/datatypes.py:1335-1367 | the whole new memory, for integers and bytes of any width, and success exactly when the region lies inside |
| Memory.ByteArray.StoreInt | awlsim/core/datatypes.py:1348-1351 | the integer loop writes the big-endian bytes, and stops half way at the end of the memory with those already written |
| Memory.FetchOfStore | awlsim/core/datatypes.py:1299-1367 | what was stored is fetched again, reduced to the width |
| Memory.FetchOfDisjointStore | awlsim/core/datatypes.py:1299-1367 | a store leaves every other region as it was, down to single bits of the same byte, also if it fails half way |
| Memory.StoreOfFetched | awlsim/core/datatypes.py:1299-1367 | a value survives being copied from one memory to another |
| Bytes.BitIsDigit | awlsim/core/datatypes.py:1299-1308 | bit i of a byte is the binary digit that counts for 2^i |
| Memory.BigEndianAt | awlsim/core/datatypes.py:1348-1351 | byte i of a big-endian integer is the digit to base 256 that counts for its place, most significant first |
| DataStructure.AwlStruct.RegisterField | awlsim/core/datastructure.py:117-120 | the field list grows by one and the name dictionary keeps naming the last field of each name |
| DataStructure.AwlStruct.Merge | awlsim/core/datastructure.py:131-175 | merging registers marker, moved and renamed fields and guard, in this order |
| DataStructure.AwlStruct.AddField | awlsim/core/datastructure.py:183-271 | the recursive method (nested structures, strings, arrays, packed bits) extends the fields by the specified layout |
| DataStructure.AwlStruct.AddElements | awlsim/core/datastructure.py:227-252 | the element loop adds one field per tuple of subscripts, in linear order, with its share of the initial value and its padding |
| DataStructure.AwlStruct.FieldInit | awlsim/core/datastructure.py:239-248 | the piece of an array's initial value that belongs to one element, or none |
| DataStructure.AwlStruct.AddFieldAligned | awlsim/core/datastructure.py:273-281 | the new variable starts at a multiple of the alignment, behind padding only |
| DataStructure.AwlStruct.AddFieldNaturallyAligned | awlsim/core/datastructure.py:283-289 | a BYTE or a BOOL starts at the old end, a BOOL in the next bit behind a BOOL that is not in bit 7, and everything longer at an even byte, at most one byte behind the old end |
| DataStructure.NaturalStart | awlsim/core/datatypes.py:455-465 | the same for the layout of every declared variable of any type |
| Placement.BuildPlaces | awlsim/core/datastructure.py:183-289 | in every declared structure each member, found by its name, starts where its type says (packed BOOLs, BYTEs at the end, even bytes for the rest), and ends as many bytes behind as its type has |
| Placement.ArrayEnds | awlsim/core/datastructure.py:217-271 | an array takes up the bytes of its elements: BOOLs packed, bytes one by one, longer elements but structures rounded up to words |
| StructLayout.AddedKeepsLaid | awlsim/core/datastructure.py:183-271 | adding a variable of any type keeps the invariant of a layout: fields in order, none overlapping, bits inside their byte, the last field ending the structure |
| StructLayout.BuildIsLaid | awlsim/core/datastructure.py:183-289 | every declared structure satisfies the invariant and ends with a guard or whole bytes, so that it can be merged |
| StructLayout.AdditionsAreLaid | awlsim/core/datastructure.py:124-289 | the same for every structure that any sequence of calls builds: adding fields, aligned or not, adding guards, and merging structures that were built by such calls |
| StructLayout.DataIsInside | awlsim/core/datastructure.py:100-114 | every data field lies inside the size of the structure |
| StructLayout.DataIsDisjoint | awlsim/core/datastructure.py:183-271 | any two data fields occupy disjoint bit ranges |
| StructInstance.RecordUpdate | awlsim/core/datastructure.py:323-334 | a structure at any base is a record: setting a data field makes it read the value and leaves every other data field alone |
| StructInstance.AwlStructInstance.SetFieldDataByName | awlsim/core/datastructure.py:339-340 | by name: success exactly if there is such a variable and its bytes are inside, and the whole new memory; a data field reads the new value, and every other variable whose bytes are not overwritten its old one |
| StructInstance.AwlStructInstance.GetFieldDataByName | awlsim/core/datastructure.py:336-337 | reading by name succeeds exactly for declared names whose bytes are inside, which those of data fields always are |
| StructInstance.AwlStructInstance.constructor | awlsim/core/datastructure.py:303-321 | a fresh instance is zero except for the initial values, stored in field order |
| StructInstance.InitialValue | awlsim/core/datastructure.py:303-321 | in a fresh instance every data field with an initial value reads that value, so no later one has overwritten it |
| DataStructure.BuildInitsFit | awlsim/core/datastructure.py:303-321 | the initial values of a built structure always lie inside it: the out-of-range error cannot occur |
| ArrayLayout.ArrayAddressing | awlsim/core/translator.py:529-553 | array base plus linear index times width is the offset registered for the element, for all elements, if and only if the array is addressable (which excludes single BOOLs, odd STRINGs and odd structures) |
| ArrayLayout.OneBoolDisagrees | awlsim/core/datastructure.py:217-271 | an array of one BOOL: the computed and the registered address differ |
| ArrayLayout.OddStringsDisagree | awlsim/core/datastructure.py:249-252 | two STRINGs with an odd number of bytes: the addresses of the second one differ |
| ArrayLayout.OddStructsDisagree | awlsim/core/datastructure.py:249-255 | two structures with an odd number of bytes: the addresses of the second one differ |
| NamedLocal.ResolveNamedLocal | awlsim/core/translator.py:458-580 | the loop over the identifier chain with its accumulated sub-offset computes the recursive walk, with the same failures; when it succeeds is in `ChainResolved` |
| ChainResolved.ResolvedIffResolvable | awlsim/core/translator.py:466-580 | a chain is resolved if and only if: for one identifier, its subscripts are in range, and it has some unless it is no array or STRING or whole ones are allowed; for more, the first is a structure or a STRING or an element in range of such an array, the name without subscripts of the others is registered, only the last of them has subscripts, and for that one the same holds |
| ChainResolved.RegisteredIsResolved | awlsim/core/translator.py:466-580 | a registered name with subscripts is resolved, where whole arrays are allowed, if and only if only its first and last identifier have subscripts |
| ChainWalk.ChainAddressing | awlsim/core/translator.py:466-580 | for every declaration: if a chain through nested structures, arrays and strings is resolved, if all arrays it subscripts are addressable, and if it goes into an array only with a subscript, then variable offset plus sub-offset is the offset that the flattened structure registers under the full name, with the accessed type |
| ChainWalk.UnsubscriptedIsNotRegistered | awlsim/core/translator.py:480-500 | a chain that goes into an array without a subscript names no field |
| ChainWalk.UnsubscriptedIsFirstElement | awlsim/core/translator.py:480-557 | such a chain is resolved nevertheless: exactly as one into a single element, and to the address of the first element |
| ChainWalk.UnsubscriptedIsResolved | awlsim/core/translator.py:480-557 | one that is resolved |
| ChainWalk.ResolvedIsRegistered | awlsim/core/translator.py:466-580 | a resolved chain with addressable subscripts names a field if and only if it does not go into an array without a subscript, and then it is resolved to that field |
| ArrayInit.RawArrayInit | awlsim/core/translator.py:219-236 | the translation loop over the declared values succeeds and builds the initial bytes |
| ArrayInit.InitBytesHold | awlsim/core/translator.py:224-236 | the initial bytes hold, at the linear index of each tuple, the last value declared for it, or zero |
| ArrayInit.ArrayInitialValues | awlsim/core/datastructure.py:227-248 | in a fresh instance the field of each tuple holds the value declared for that tuple, whatever else the structure declares, for elements of 1 bit or whole bytes |
| StringInit.VariableInitialValue | awlsim/core/translator.py:237-243 | a single variable of a basic type has its declared value in every fresh instance |
| StringInit.StringByte | awlsim/core/datastructure.py:303-321 | wherever a STRING with an initial value lies in a structure, each of its bytes is the declared one in a fresh instance, except for the maximum length, which is that of the type |
| StringInit.EmbeddedString | awlsim/core/datastructure.py:144-175 | a STRING keeps its place and its initial value in every structure that embeds its structure |
| StringInit.StringInitialValue | awlsim/core/datastructure.py:206-215 | the fields of the characters of a STRING variable read the declared characters in every fresh instance |
| StringInit.StringArrayInitialValues | awlsim/core/datastructure.py:227-252 | in an array of STRINGs, the characters of the STRING of each tuple read those declared for that tuple, for odd lengths too |
| StringInit.DeclaredIsLast | awlsim/core/translator.py:224-236 | the bytes declared for a tuple are those of the last constant that is given for it |
| UdtBuild.UdtTable.BuildDataStructure | awlsim/core/userdefinedtypes.py:126-143 | one call builds a UDT and all it embeds, if and only if no embedding path from it leads to a missing, unsized, empty or repeated UDT; it answers with recursion exactly for a UDT under construction; the number of untouched UDTs falls, so the recursion ends |
| UdtBuild.UdtTable.BuildField | awlsim/core/userdefinedtypes.py:91-123 | an embedded UDT is built first; a missing one, one under construction, and a field of unknown size are errors of their own, and the reason for any other error lies at the end of an embedding path |
| UdtBuild.UdtTable.BuildAll | awlsim/core/cpu.py:356-358 | building some or all UDTs in any order, also when some have been built before, succeeds if and only if no embedding path from one of them leads to a missing, unsized, empty or repeated UDT; for all UDTs this means that no UDT is empty, none embeds a missing one or a field of unknown size, and no embedding path closes; the error names a reason that exists |
| UdtBuild.BuiltIsBuildable | awlsim/core/userdefinedtypes.py:91-143 | if all UDTs were built, no embedding path of any length closes |
| UdtBuild.ResultIsUnique | awlsim/core/userdefinedtypes.py:126-143 | the resulting types do not depend on the order in which the UDTs are visited |
| LStack.LStackAllocator.Alloc | awlsim/core/lstack.py:47-76 | a successful allocation returns the specified region and advances the marks; a failed one changes nothing |
| LStack.LStackAllocator.Reset | awlsim/core/lstack.py:40-43 | a reset forgets all allocations and keeps the bytes of the block |
| LStack.AllocatedIsFresh | awlsim/core/lstack.py:47-76 | an allocated region starts behind all earlier ones and lies below the limit |
| LStack.GrantedByMark | awlsim/core/lstack.py:47-76 | a request is granted if and only if a byte stays free behind it; a bit gets the next bit, everything else whole bytes from the next whole byte on |
| LStack.RegionsAreSeparate | awlsim/core/lstack.py:47-76 | whatever is requested in whatever order, also with failures in between, the regions are pairwise disjoint, above the reserved bytes and inside the limit |
| LStack.GrantedRegions | awlsim/core/lstack.py:47-76 | requests that are all granted have a region each, of their width, and keep them when more is requested |
| LStack.AccountTempAllocations | awlsim/core/blocks.py:537-556 | the accounted bytes are the least number that covers the interface and every direct access |
| LStack.DirectEndCovers | awlsim/core/blocks.py:537-547 | the bytes accounted for an access are the fewest words that contain it |
| LStack.ScratchIsAboveDirect | awlsim/core/blocks.py:537-556 | no scratch region overlaps a direct access of the block |
| LStack.ObjectCache.Get | awlsim/core/objectcache.py:31-35 | the pool hands out what was put back last, which is then no longer in the pool, or a new object |
| LStack.ObjectCache.Put | awlsim/core/objectcache.py:37-38 | what is put back becomes the next to be handed out |
| CallMachine.BaseIsInAr2 | awlsim/core/callstack.py:139-144 | the called FB finds the base of its instance in AR2 |
| CallMachine.EntryByCallee | awlsim/core/callstack.py:75-144 | the registers each kind of call starts with: an FB has the caller's DI as DB, and the DB of its instance as DI, which for a multi-instance is that of the caller; an FC has the caller's registers, or the DB that its parameters opened; and what the call stack element records |
| CallMachine.MultiInstanceBase | awlsim/core/callstack.py:139-144 | the base of a multi-instance counts the bits of the base of the caller and of its own offset |
| CallMachine.ExecuteMoves | awlsim/core/cpu.py:790-799 | what every instruction does to its own element (next instruction, end or target; scratch space for a call only), to the elements below it (nothing) and to the registers |
| CallMachine.CallerIsFrozen | awlsim/core/cpu.py:785-809 | over every run, as long as a called block has not exited, all elements below it on the call stack stay as they are, and its own changes only its place and its scratch space |
| CallMachine.CallRestoresRegisters | awlsim/core/callstack.py:346-383 | whatever the callee does (open and swap DBs, change AR2, jump, call further blocks), a call that is not raw comes back one instruction behind itself with AR2 and DI as they were, with DB as it was for an FC and set to the instance DB for an FB, and with no other scratch space on the caller's L-stack than that of the call |
| CallMachine.RawCallKeepsRegisters | awlsim/core/callstack.py:346-349 | a raw call comes back to the same place with the registers as the callee left them |
| CallMachine.ScratchIsSafe | awlsim/core/callstack.py:163-165 | in every state of every run, each live block has all scratch regions it has requested: pairwise disjoint, inside the limit and above every access to its own variables |
| CallMachine.ScratchStays | awlsim/core/callstack.py:70-73 | over every run a block keeps its scratch regions as long as it lives, while the blocks below it keep exactly theirs |
| CallMachine.CallIsEnabled | awlsim/core/cpu.py:1009-1107 | a call can be executed if and only if its block, its instance DB and the DB its parameters open exist, and the caller has L-stack space for the copied parameters |
| CallMachine.RunKeepsExisting | awlsim/core/cpu.py:785-809 | over every run the DB registers, those saved for the callers, and all called blocks are ones that exist |
| Cpu.S7Cpu.RunCall | awlsim/core/cpu.py:1009-1107 | a call is the call step of the machine: scratch space for the copied parameters on the caller's L-stack, a new L-stack with only the block's own bytes taken; it fails exactly if the block or a DB does not exist, which changes nothing if it is the block or the instance DB, or if a parameter does not fit, which leaves those before it allocated |
| Cpu.S7Cpu.RunAuf | awlsim/core/cpu.py:1119-1133 | exactly one register changes, and none if the DB does not exist |
| Cpu.S7Cpu.RunTdb | awlsim/core/cpu.py:1136-1138 | DB and DI are exchanged |
| Cpu.S7Cpu.RunBe | awlsim/core/cpu.py:1111-1116 | the relative jump ends the block |
| Cpu.S7Cpu.RunInsn | awlsim/core/cpu.py:790-799 | one turn of the instruction loop is one step of the machine, or fails exactly if that step is not enabled; the instruction pointer is then one further, or where a jump or a block end leads, and only a call takes scratch space |
| Cpu.S7Cpu.AllocScratch | awlsim/core/callstack.py:128-137 | the parameters get their scratch space one after the other, until one does not fit |
| Cpu.S7Cpu.BlockExit | awlsim/core/callstack.py:346-388 | leaving a block is the exit step of the machine; its L-stack goes back to the pool if it has the present size |
| Cpu.S7Cpu.RunOb | awlsim/core/cpu.py:776-809 | every run of an organization block is a run of the call machine that executes the given instructions one after the other, none left out, leaves each block at its end, and stops when the stack is empty, the instructions end, or the next one is not enabled; in every state no two live blocks share an L-stack or its memory, and none uses one that is in the pool |
| Cpu.ObKeepsRegisters | awlsim/core/cpu.py:785-809 | an organization block is a raw call: its end leaves the registers as its instructions have |
| Cpu.LiveBlocksAreSafe | awlsim/core/cpu.py:776-809 | in every state of such a run the scratch regions of all live blocks are apart: in one L-stack by their places, and otherwise because no memory is shared |
| FcParams.AllPassedIsSetUp | awlsim/core/callstack.py:128-137 | after all parameters were passed each copied one has scratch space of its own, disjoint from all others and above everything allocated before, which holds the value at the call |
| FcParams.AccountedIsBelow | awlsim/core/blocks.py:537-556 | the L operands that are passed by reference lie below all scratch space |
| FcParams.ReferenceMeansActual | awlsim/core/callstack.py:167-168 | a parameter passed by reference means the actual parameter, looked up with the DB register at that time; it is the one that was passed if and only if it is not in the open DB or no other DB has been opened |
| FcParams.CalleeReadsItsOwn | awlsim/core/callstack.py:174-196 | copy in: over every run of the FC, reading a copied parameter gives what the FC stored there last or else the value at the call, even if the actual parameter changes meanwhile |
| FcParams.WrittenBackIsDelivered | awlsim/core/callstack.py:375-381 | no copy back spoils the scratch value of a later parameter |
| FcParams.CopyInCopyOut | awlsim/core/callstack.py:368-383 | copy out: for every run of the FC, its exit stores exactly the final values to the outbound actual parameters, in parameter order, and fails exactly when one of these stores does |
| FcParams.CopyOutOfRecords | awlsim/core/callstack.py:193-195 | if the same CALL instruction was active again meanwhile, the exit delivers what the caller's L-stack holds at the places recorded last, in parameter order: the right value where the place is its own, and that of another parameter where it is that one's |
| FcParams.RecordsMeet | awlsim/core/callstack.py:163-195 | two calls by the same instruction record the same place for a parameter if and only if both callers have used up the same part of their L-stacks before |
| FcParams.LastDeliveryWins | awlsim/core/callstack.py:375-381 | an outbound actual parameter ends with its final value unless a later one overlaps it |
| FcParams.PlaceAtExit | awlsim/core/cpu.py:1628-1648 | the actual parameter that is written at the exit is the one that was passed if and only if the FC left DI alone for data of an FB instance, and DB alone for a DB operand that the caller had itself been passed by reference |
| FcParams.FcCall.CopyToVL | awlsim/core/callstack.py:174-196 | allocation, copy, reference and copy-back request |
| FcParams.FcCall.PassParameters | awlsim/core/callstack.py:128-137 | the loop over the parameters passes them one after the other; which are handed on and which are copied is in `FcKinds` |
| FcKinds.CopiedByKind | awlsim/core/callstack.py:310-340 | a parameter is copied if and only if its operand, or what an own parameter of the calling FC stands for, is a constant, data of the caller's caller, instance data, data of a named DB, or data of the open DB that is forwarded |
| FcKinds.CopiedBackByKind | awlsim/core/callstack.py:185-195 | of those, exactly the outbound ones that are no constants are copied back |
| FcKinds.HandedOnTakesNothing | awlsim/core/callstack.py:167-168 | passing E, A, M, own L and open DB operands takes no L-stack space, stores nothing and opens no DB |
| FcKinds.HandedOnIsActual | awlsim/core/callstack.py:167-168 | at any point of any run of the FC, such a parameter reads its actual parameter, which is in inputs, outputs, flags, the caller's L-stack or the open DB, and has every value that is stored to it at once |
| FcKinds.CopiedStaysBehind | awlsim/core/callstack.py:170-195 | passing a parameter that is copied, and every store of the FC to it, leaves everything alone that is not in the caller's own L-stack |
| FcKinds.CopiedPlace | awlsim/core/cpu.py:1623-1648 | and so the actual parameter: it is in the L-stack of the caller's caller, in the named or open DB, or in the instance DB, there at the base in AR2 for an FB |
| FcKinds.LastNamedIsOpen | awlsim/core/callstack.py:262-283 | passing leaves the DB open that the last qualified operand names, or the one that was open before |
| FcParams.FcCall.BlockExit | awlsim/core/callstack.py:368-383 | AR2 is restored before the copying back, DB and DI after it |
| FcCalls.AllPassedAllocates | awlsim/core/callstack.py:128-137 | passing all parameters makes exactly the requests for scratch space of the copied ones, and opens the DB that is named last |
| FcCalls.PassingIsCallStep | awlsim/core/cpu.py:1095-1107 | passing parameters is the caller's part of the call step of the machine: same L-stack, same DB, and not enabled exactly if there is no space |
| FbParams.FieldsHoldActuals | awlsim/core/callstack.py:84-127 | copy in: after the call has passed all parameters, the instance field of each inbound one holds the value its actual parameter had at its turn |
| FbParams.FillingKeepsOthers | awlsim/core/callstack.py:123-127 | passing parameters changes nothing in memory but their fields |
| FbParams.ExitDelivers | awlsim/core/callstack.py:350-364 | copy out: if no actual parameter lies in a field that is copied out after it, the exit stores the values the fields have then, in parameter order |
| FbParams.OverlapForwards | awlsim/core/callstack.py:357-364 | an actual parameter that is the field of a parameter copied out after it: that field then delivers the earlier value |
| FbParams.OnlyOutboundMatter | awlsim/core/callstack.py:90-98 | the remembered parameters are all that the exit needs |
| FbParams.FieldsAtExit | awlsim/core/callstack.py:353-364 | the exit reads the fields of the instance that was called if and only if the FB left DI and the base in AR2 as they were |
| FbParams.OwnDataAtExit | awlsim/core/callstack.py:357-366 | an outbound actual parameter in the instance data of a calling FB is reached if and only if both instances are in the same DB; otherwise the value goes to the DB of the called instance, because DI is restored only afterwards |
| FbParams.OpenedDbAtExit | awlsim/core/callstack.py:357-366 | an outbound actual parameter in the DB that the caller has opened is reached if and only if that is the DB of the caller's own instance |
| FbRuns.OwnField | awlsim/core/callstack.py:139-144 | an FB reaches the field of its parameter through DI and AR2 as the call has set them |
| FbRuns.ActualIsRead | awlsim/core/callstack.py:100-120 | the value of an inbound actual parameter is the constant itself or what is at its place at its turn |
| FbRuns.LastNamedIsOpen | awlsim/core/cpu.py:1413-1423 | passing leaves the DB open that the last qualified inbound actual parameter names, or the one that was open before |
| FbRuns.CopyThroughInstance | awlsim/core/callstack.py:84-127 | copy in and copy out: over every run of an FB that leaves DI and the base in AR2 as they were, each outbound actual parameter gets what was stored to the field last, or else the value the field had at the call, in parameter order |
| FbParams.FbCall.PassParameters | awlsim/core/callstack.py:84-127 | the loop over the parameters of an FB call |
| FbParams.FbCall.BlockExit | awlsim/core/callstack.py:350-366 | the base is taken from AR2 before AR2 is restored; DB and DI are set after the copying |
| Wire.UnpackFromIffAt | awlsim/coreserver/messages.py:396-401 | a fixed-format record is unpacked at an offset with certain values if and only if these values, packed, lie there |
| Wire.PackOfUnpack | awlsim/coreserver/messages.py:200-213 | no two records of a format share an encoding |
| Wire.UnpackBytesIffAt | awlsim/coreserver/messages.py:135-164 | length-prefixed bytes are unpacked at an offset if and only if they lie there packed, and the count is their packed size |
| Wire.UnpackStringIffAt | awlsim/coreserver/messages.py:126-153 | the same for texts, which must be well-formed UTF-8 |
| Parts.LibSelAt | awlsim/coreserver/messages.py:385-407 | a packed library selection is unpacked wherever it lies, and the returned size leads behind it |
| Parts.SourceAt | awlsim/coreserver/messages.py:304-324 | the same for a source: name, path and bytes |
| Parts.HwModAt | awlsim/coreserver/messages.py:834-841 | the same for a hardware module with a dictionary of parameters |
| Parts.DictOfParams | awlsim/coreserver/messages.py:359-371 | putting the entries of a dictionary into an empty one gives the same dictionary |
| Parts.MemAreaIffAt | awlsim/coreserver/messages.py:654-672 | a memory area is unpacked exactly where it lies packed, whatever the padding is, which may be missing behind the last one |
| Parts.DictHoldsLast | awlsim/coreserver/messages.py:359-371 | a dictionary that is rebuilt from any entries holds the last value given for each name, and nothing else |
| Parts.MemAreasArePadded | awlsim/coreserver/messages.py:640-650 | every memory area of a payload starts at a multiple of four bytes |
| Lists.UnpackNOfPackEach | awlsim/coreserver/messages.py:860-895 | a given number of packed parts is unpacked completely, and the offset ends behind the last one |
| Lists.UnpackRestReaches | awlsim/coreserver/messages.py:362-371 | the loop up to the end of a payload finds exactly the packed parts and ends at its end |
| Messages.SpecsRoundTrip | awlsim/coreserver/messages.py:526-559 | CPU specs come back if and only if the clock memory byte is -1 or a 16-bit address |
| Messages.HwModuleRoundTrip | awlsim/coreserver/messages.py:347-373 | a hardware module message comes back |
| Messages.ReqMemoryRoundTrip | awlsim/coreserver/messages.py:585-611 | a memory request comes back with all its areas |
| Messages.MemoryRoundTrip | awlsim/coreserver/messages.py:637-672 | a memory message comes back with all areas and their data |
| Messages.IdentsRoundTrip | awlsim/coreserver/messages.py:822-902 | the four nested lists of an identifier message come back |
| Messages.RoundTrip | awlsim/coreserver/messages.py:135-902 | decoding undoes encoding for every message that can be encoded, if and only if it is canonical: a 16-bit clock memory byte or none, and no empty long text for a non-empty error text |
| Decoders.HwModuleFromBytes | awlsim/coreserver/messages.py:359-373 | the decoding loop, proved against the recursive decoder on all payloads, malformed ones included |
| Decoders.ReqMemoryFromBytes | awlsim/coreserver/messages.py:597-611 | the same for memory requests |
| Decoders.MemoryFromBytes | awlsim/coreserver/messages.py:654-672 | the same for memory messages |
| Decoders.IdentsFromBytes | awlsim/coreserver/messages.py:849-902 | the same for identifier messages, with their nested loops |
| Transceiver.MessageTransceiver.Send | awlsim/coreserver/messages.py:999-1014 | however the socket splits it, exactly one frame is appended to the stream; a message that cannot be encoded sends nothing but uses up its number |
| Transceiver.MessageTransceiver.Receive | awlsim/coreserver/messages.py:1016-1066 | one call asks the socket at most once, for no more than is missing, and keeps or clears buffer and header as specified; it tells that the peer is gone, and keeps its state, exactly if bytes are wanted from a closed connection with nothing left |
| Transceiver.FrameFacts | awlsim/coreserver/messages.py:170-175 | the layout of a frame: magic, identifier, sequence number, zero, payload length, payload |
| WireBytes.FrameBytes | awlsim/coreserver/messages.py:81-175 | every byte of a frame by position: 57 14, the two bytes of the kind of message, the number, two zeros and the length, each with the high byte first, and the payload |
| WireBytes.AreaBytes | awlsim/coreserver/messages.py:575-595 | the twelve bytes of a memory area by position, and which areas can be packed |
| WireBytes.MemAreaBytes | awlsim/coreserver/messages.py:628-652 | the same with data: its length, the data and zeros up to a multiple of four |
| WireBytes.StringBytes | awlsim/coreserver/messages.py:124-133 | a byte string behind its length in four bytes, exactly below 2^32 bytes |
| PayloadBytes.PayloadBytes | awlsim/coreserver/messages.py:189-902 | for each of the 23 messages, the fields of its payload in their order and width |
| PayloadBytes.SourceBytes | awlsim/coreserver/messages.py:304-324 | a source is its name, its path and its bytes, each behind its length, in this order |
| PayloadBytes.PairBytes | awlsim/coreserver/messages.py:347-373 | a parameter of a hardware module is its name and its value |
| PayloadBytes.HwModBytes | awlsim/coreserver/messages.py:836-842 | a hardware module in a list is the number of its parameters, four zeros, its name and the parameters |
| PayloadBytes.LibSelBytes | awlsim/coreserver/messages.py:378-395 | a library selection is its name, a word for the type, and two double words for the indices |
| PayloadBytes.SpecsBytes | awlsim/coreserver/messages.py:521-540 | the 32 double words of the CPU specs by position |
| PayloadBytes.IdentsBytes | awlsim/coreserver/messages.py:805-847 | the four counts, eight zeros and four lists of an identifier message, in this order |
| Transceiver.StreamGrows | awlsim/coreserver/messages.py:1004-1011 | sending one more message appends its frame, numbered modulo 65536 |
| Transceiver.StreamIsReassembled | awlsim/coreserver/messages.py:1016-1066 | for every list of messages, every splitting of the stream and every blocking pattern, the calls deliver the messages in order with their numbers, and raise no error but that of a socket that blocks inside a payload; buffer and remaining stream are always a proper part of one frame and the rest |
| Transceiver.BlockingIsRaised | awlsim/coreserver/messages.py:1049-1050 | whatever arrives, some call raises the error of a blocking socket if and only if some call is made when the header is complete, bytes of the payload are missing, and the socket has none |
| Transceiver.FailsExactlyInVain | awlsim/coreserver/messages.py:1016-1066 | for sent messages, no call raises any error if and only if no call is made inside a payload while the socket has nothing |
| Transceiver.ReadyCallsNeverFail | awlsim/coreserver/messages.py:1016-1066 | calls that are made only when the socket is ready raise no error, and enough of them deliver exactly the sent messages |
| Transceiver.BlockingEscapes | awlsim/coreserver/messages.py:1049-1050 | for every message with a payload: the header arrives, the next call finds the socket not ready, and its error leaves `receive` |
| Transceiver.NothingIsHeldBack | awlsim/coreserver/messages.py:1016-1066 | when all bytes have been taken, all messages have been delivered |
| Transceiver.AllIsDelivered | awlsim/coreserver/messages.py:999-1066 | with enough calls that find the socket ready, exactly the sent messages are delivered and nothing is left, if calls are made on after the errors of a blocking socket |
| Closing.ReplyOfSocket | awlsim/coreserver/messages.py:1030-1054 | a closed socket answers with no bytes exactly when the stream is used up |
| Closing.CutStream | awlsim/coreserver/messages.py:1016-1066 | a peer that closes the connection behind any byte of any stream: for every schedule of calls the messages are delivered in order, what is left in the buffer is a proper part of one frame, and a call tells that the peer is gone if and only if all bytes were taken before it |
| Closing.CompleteAreDelivered | awlsim/coreserver/messages.py:1016-1066 | when all bytes were taken, exactly the messages with complete frames were delivered |
| Closing.CutStreamIsTaken | awlsim/coreserver/messages.py:1016-1066 | enough calls that find the socket ready take all bytes up to the end |
| Closing.EachTellsDeath | awlsim/coreserver/messages.py:1030-1054 | whatever bytes arrive: a call tells that the peer is gone if and only if it wants bytes, for header or payload, and there are none left |
| Transceiver.NumbersCount | awlsim/coreserver/messages.py:1004-1005 | message i carries the number i modulo 65536 |
| FrameArrival.FrameArrives | awlsim/coreserver/messages.py:1016-1066 | for every header, every payload of its length and every way they are delivered, a wrong magic value is refused, and in both cases the next thing told is the message, or that the payload cannot be decoded; besides, the error of a blocking socket is raised exactly if a call asks in vain inside a payload |
| FrameArrival.BadMagicIsForgotten | awlsim/coreserver/messages.py:1038-1051 | a frame with a wrong magic value is refused by one call only: later calls return a message if and only if the payload decodes to it |
| FrameArrival.BadMagicIsAccepted | awlsim/coreserver/messages.py:1038-1051 | every message that can be sent is delivered, with its number, when its header has any wrong magic value |
| FrameArrival.WrongRunState | awlsim/coreserver/messages.py:1038-1051 | such a frame |
| FrameArrival.BadMessageIsKept | awlsim/coreserver/messages.py:1057-1066 | a call tells that a message cannot be decoded exactly if its complete frame stays in the buffer |
| FrameArrival.BadMessageForever | awlsim/coreserver/messages.py:1057-1066 | such a frame is never removed: every later call refuses it again, whatever arrives behind it |
| Timers.ReadIsExact | awlsim/core/timers.py:145-255 | for a timer driven by SI, SV, SE or SA, over every run with non-decreasing times and any edges, resets and reads, the status read is that of a timer that fires exactly at its deadline, and the remaining time the time until then |
| Timers.RestartsAreExactUnlessMissed | awlsim/core/timers.py:219-224 | for SS the readings are those of an eager timer if and only if no restart hits a timer whose deadline has passed unnoticed |
| Timers.RestartCanMiss | awlsim/core/timers.py:219-224 | such a restart exists |
| RetentiveTimer.RetentiveIsExact | awlsim/core/timers.py:219-224 | as long as no deadline is missed, an SS timer reads as fired if and only if the time of some rising edge ran out before the next one with no reset since: it stays so when the input falls |
| RetentiveTimer.RemainingIsExact | awlsim/core/timers.py:219-224 | its remaining time is that of the last rising edge, missed deadlines or not |
| RetentiveTimer.NothingSinceReset | awlsim/core/timers.py:149-152 | after a reset a timer of any mode has no status and no time left, until the next edge |
| Timers.TimevalSetIsExactUnlessMissed | awlsim/core/timers.py:155-157 | giving a timer a new time revives one that should have fired, in every mode, if and only if nobody has looked at the passed deadline |
| Timers.Timer.RunSI | awlsim/core/timers.py:188-198 | the method performs the step of its mode, and fails exactly if it starts with an invalid time code |
| Timers.Timer.RunSV | awlsim/core/timers.py:200-206 | the same for SV |
| Timers.Timer.RunSE | awlsim/core/timers.py:208-217 | the same for SE |
| Timers.Timer.RunSS | awlsim/core/timers.py:219-224 | the same for SS |
| Timers.Timer.RunSA | awlsim/core/timers.py:226-235 | the same for SA |
| Timers.Timer.Get | awlsim/core/timers.py:145-147 | a read looks at the deadline first |
| S5Time.ConversionIsNear | awlsim/core/timers.py:30-56 | seconds from 0 to 9990, and no others, become three valid BCD digits in the finest time base whose 999 ticks are enough, with a value less than one tick away |
| S5Time.TicksAreNear | awlsim/core/timers.py:107-124 | the number of ticks fits three digits and is less than one tick off |
| S5Time.TicksAreExact | awlsim/core/timers.py:30-56 | the exact number of ticks: the nearest one, halves to even, for 10 ms and 100 ms; whole seconds, cut off; and tens of the nearest number of seconds, cut off |
| S5Time.CodeIsBcd | awlsim/core/timers.py:30-56 | the digits of the code are its hexadecimal ones, with the time base in front |
| S5Time.DecodeEncodeDecode | awlsim/core/timers.py:107-142 | decoding, encoding and decoding again gives the same value for every valid code |
| IndirectAddr.RegisterIndirectAdds | awlsim/core/operators.py:648-677 | an access through AR1 or AR2 adds the bit offset of that register and its own modulo 2^19, which is the addition of offsets within range |
| IndirectAddr.MemoryIndirect | awlsim/core/operators.py:620-682 | a memory-indirect access is resolved if and only if it has an area and an offset of a fitting width, and only single bits have bit offsets; the offset is that of the pointer, or for timers, counters and blocks the number |
| IndirectAddr.RegisterIndirect | awlsim/core/operators.py:642-682 | the same for an access through AR1 or AR2, with the area of the access or else that of the sum in the register |
| IndirectAddr.PointerIsPacked | awlsim/core/operators.py:341-347 | a pointer has the area code of its operator in the top byte and the number of the bit below |
| IndirectAddr.AreaInternalKeepsArea | awlsim/core/operators.py:653-657 | an area-internal access stays in its area whatever the register holds |
| IndirectAddr.AreaSpanningKeepsArea | awlsim/core/operators.py:648-652 | an area-spanning access stays in the area of the register if and only if nothing carries out of the low 24 bits |
| IndirectAddr.PointerResolvesBack | awlsim/core/operators.py:341-347 | resolving the pointer of an operator gives the operator back if and only if it is E, A, M, DB, DI, L or VL, or a peripheral access in its own direction, and only single bits have bit offsets |
| IntMath.GcdOfIsGreatest | awlsim/core/util.py:126-127 | the fold is a common divisor that every common divisor divides, zeros included |
| IntMath.LcmOfIsLeast | awlsim/core/util.py:130-132 | the fold is a common multiple that divides every common multiple, if at most one argument is zero |
| IntMath.LcmIsDefined | awlsim/core/util.py:130-132 | the fold divides by zero if and only if two arguments are zero |
| ClockMemory.CounterLimitIs80 | awlsim/core/cpu.py:829 | the counter is reset at 80 |
| ClockMemory.CounterCounts | awlsim/core/cpu.py:918-942 | the counter is the number of ticks modulo its reset value, and the next tick is due at a whole number of tick lengths from the start |
| ClockMemory.ClockDoesNotDrift | awlsim/core/cpu.py:918-942 | after n ticks each bit has changed exactly floor(n/p) times, for all eight dividers and any number of counter resets |
| ClockMemory.TicksFollowTime | awlsim/core/cpu.py:918-921 | no tick comes early, and when the updates have caught up the number of ticks is the number of whole tick lengths since the start |
| ClockMemory.BitsHaveTheirPeriods | awlsim/core/cpu.py:918-942 | whenever the updates have caught up with the time, each bit has changed once per half period since the start, for the periods 0.1, 0.2, 0.4, 0.5, 0.8, 1.0, 1.6 and 2.0 seconds |
| ClockMemory.ClockMemoryUnit.UpdateTimestamp | awlsim/core/cpu.py:914-942 | one update changes the clock byte as specified and no other byte of the flags |
| Topology.EachInterfaceOnce | awlsim/modbus_serial_parser.py:130-138 | links that take the next free interfaces use each interface below the number of link ends exactly once, and no others |
| Topology.ByDeviceIsPermutation | awlsim/modbus_serial_parser.py:130-138 | going through the adjacency lists of all devices once, in any order, goes through all links once |
| Topology.EndsOfPermutation | awlsim/modbus_serial_parser.py:38-62 | the number of link ends at a device does not depend on the order of the links |
| SerialTopology.CountLinks | awlsim/modbus_serial_parser.py:28-62 | the count pass accepts a description exactly if no node is linked to itself and none has too many interfaces, and its table has the adjacency lists and interface counts of the links |
| SerialTopology.ParseTopology | awlsim/modbus_serial_parser.py:28-138 | for every accepted description each link is attached once, node by node in the order of the dictionary and from the lower to the higher one, each counted interface gets exactly one link end, and the next free interface of a node ends as the number of its interfaces |
| SerialTopology.LinkJoinsLine | awlsim/modbus_serial_parser.py:56-62 | a link joins the two nodes of its line, the lower number first |
| IpTopology.CountLinks | awlsim/modbus_ip_parser.py:20-137 | the count pass accepts a description exactly if every line links a host to a router or two routers, and no host has two links |
| IpTopology.ParseTopology | awlsim/modbus_ip_parser.py:56-253 | for every accepted description each link is attached once, each counted router interface gets exactly one link end, each host is attached with interface 0 only, and next and number of interfaces agree |
| IpTopology.LinkJoinsLine | awlsim/modbus_ip_parser.py:56-137 | a link joins the two ends of its line, a host first and the lower router before the higher |
| ByteStuffing.FrameOutgoingMessage | s3fnet-lxc/csudp/serial_client.py:10-29 | the loop produces a flag, the coded bytes and a flag |
| ByteStuffing.ProcessIncomingFrame | s3fnet-lxc/csudp/serial_client.py:31-43 | the loop decodes any bytes, and runs off the end exactly if an escape byte escapes nothing |
| ByteStuffing.BodyHasNoFlag | s3fnet-lxc/csudp/serial_client.py:15-27 | no flag occurs inside a frame |
| ByteStuffing.BytesOfFrame | s3fnet-lxc/csudp/serial_client.py:10-29 | in the frame of a message every byte has its code in its place: 7D 5E for 7E, 7D 5D for 7D, and any other byte itself |
| ByteStuffing.FramesAreTransparent | s3fnet-lxc/csudp/serial_client.py:10-43 | every message comes back from its frame, and processing a frame never runs off its end |
| ByteStuffing.UnframedFrame | s3fnet-lxc/csudp/serial_client.py:31-43 | a frame in front of other bytes gives its message, and the rest is processed as it is |
| ByteStuffing.FramesSplitUniquely | s3fnet-lxc/csudp/serial_client.py:10-29 | a stream of frames can be split into messages in one way only |

## Left out

- Names are modelled as paths of identifiers and subscripts, not as strings with dots and brackets; that different paths never print alike is not shown.
- UDTs as element types of arrays: their width is unknown while UDTs are built, so such a field is one of unknown size. Types that are not allowed in arrays or structures are not distinguished.
- The structure of a STRUCT or UDT type is a value; that several types share one structure object is not captured.
- The override that lays a DB pointer over IN_OUT fields, whose layout overlaps the fields of the compound on purpose.
- UdtBuild.UdtTable.BuildAll: the state that each UDT object holds is kept in one table, with the UDT number as key.
- ArrayInit.RawArrayInit: constants are given as values; their texts are not parsed.
- StringInit.StringInitialValue: STRINGs that are declared with an initial value. In one that is declared without, only the maximum length is covered, by StructInstance.InitialValue.
- Instruction bodies: a block is any sequence of calls, block ends, jumps, openings and exchanges of DBs, changes of AR2 and instructions without effect on calls. Status word, accumulators, parentheses and cycle time are not part of the state.
- Cpu.S7Cpu.RunCall: which of the parameters names a missing DB, and so how many have their scratch space by then, is not part of the instruction.
- FcParams.CopyInCopyOut: basic types only. Compound parameters, which are passed as DB pointers, and timers, counters and blocks are left out. The scratch space is recorded in the CALL instruction; FcParams.CopyOutOfRecords says what happens if it is active twice. The FC stores to the scratch spaces through its parameters only.
- FcParams.FcCall.PassParameters: memory areas are values in one map; the aliasing of process images with I/O modules, read and write protection of DBs and peripheral accesses are left out.
- FbParams.ExitDelivers: basic types only, and no parameter passed by reference (timers, counters, blocks). Actual parameters that overlap a part of a field that is copied out after them are not covered.
- FbRuns.CopyThroughInstance: stores to a part of a parameter's field, which give it a value of neither kind, are excluded.
- CallMachine.CallRestoresRegisters: of the parameters, only the DB they open and the widths of the copied ones are part of a call; their values are in `FcParams` and `FbParams`.
- Decoding of GET_AWLSRC and GET_SYMTABSRC requests, which keeps a pair of bytes and count, and of GET_BLOCKINFO, which no receiver knows. The kinds of exceptions that malformed payloads raise are not distinguished. Texts are their UTF-8 bytes; stripping of library names is limited to ASCII white space.
- Messages.RoundTrip: strings that are None, which are sent as empty strings, are not values of the model.
- Sockets: any number of bytes may be taken or delivered by a call, or it would block; errors other than blocking and closing are left out. After its scripted answers the socket takes everything, so that sending ends.
- Time is any non-decreasing sequence of real numbers. Floating point rounding is left out, in S5TIME conversions too.
- REAL arithmetic, counters, status word, statistics, wall clock and DATE_AND_TIME.
- SerialTopology.ParseTopology: lines are given as numbers; reading the file, the other sections of the generated configuration and the scripts of the nodes are left out. The order in which a dictionary lists its keys is a parameter.
- IpTopology.ParseTopology: the same, and the marking of routers as compromised.
- ByteStuffing.FrameOutgoingMessage: the message is a sequence of bytes. The characters of a Python 2 string never equal the flags, so such a message is framed without escapes.
- Multi-instance fields, block interfaces and their index, symbol tables, tokenizer, headers of blocks, system blocks, libraries, hardware modules and the user interface.
