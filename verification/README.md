# zyrox core, modelled in Dafny

zyrox is an LLVM obfuscator configured by a JavaScript file run in an
embedded QuickJS runtime. This project models three parts of it and
proves properties of the model.

- **String encryption** (`StringEncryption`, `StringCipher`).
  - The SplitMix32 keystream.
  - `XorEncryptStrings`, which encrypts a list of byte strings in 4-byte chunks, string `i` keyed by `master_seed ^ i`.
  - The decode loop that `EmitDecryptBuffer` emits, as an in-place method over a byte array.
  - The table constructor `__decrypt_ctor`.
  - `ObfuscateGlobalArrayStrings`:
    - the skip, stack and table classification;
    - the parallel pointer and length tables;
    - the per-string stack path.
  - The decisive results are the round trips. Every table string reads as its original bytes once the constructor has run. Every stack buffer holds the text chosen for its global.
- **Mixed boolean-arithmetic substitution** (`MbaSub`, `MbaCatalog`, `MbaIr`, `Bits`).
  - The catalog of rewrite callbacks for sub, add, xor, mul and or.
  - `Obfuscate<Op>`, `runOn<Op>`, `RunOnBasicBlock`, `ObfuscateFunction`, `RunOnFunction` and `RegisterFromAnnotation`.
  - Machine words have an arbitrary width `w`. They are the integers `0 .. 2^w - 1`, and arithmetic wraps modulo `2^w`: `Bits.Wrap` is that remainder, as `Bits.WrapIsMod` states. The bitwise operations are defined bit by bit, so every identity holds for every width.
  - A function is a list of blocks of SSA instructions, executed straight-line.
  - The pass is proved sound on such straight-line bodies: every instruction keeps its value, the body stays in SSA form, and every instruction of the five opcodes present at entry loses all its uses.
- **Pass registration from the configuration script** (`QuickConfig`, `CNumbers`, `PassMetadata`).
  - `RegisterFunctionPass`: the type check, the `PassIterations` gate read with `std::stoi`, and the option list read with `std::atoi`.
  - `RegisterPasses`: the walk over the module's functions, which a throwing `std::stoi` ends.
  - The `ObfuscationType` numbering the runtime gives the script.

Inputs:
- Random numbers (`Random::UInt32`, `Random::IntRanged`) are a stream of draws, one per call.
- The script's answers (`OnString`, and what `RunOnFunction` registers) are parameters.

## Model

| member | source | states |
|---|---|---|
| StringCipher.SplitMix32 | src/passes/StringEncryption.cpp:16-26 | the state advances by 0x9E3779B9 modulo 2^32, and the key returned depends only on the new state |
| StringCipher.MixRounds | src/passes/StringEncryption.cpp:19-25 | the scrambler is xor-shift 16, multiply by 0x85EBCA6B, xor-shift 13, multiply by 0xC2B2AE35, xor-shift 16, in that order |
| StringCipher.KeyBytes | src/passes/StringEncryption.cpp:43 | byte j of a chunk's key is bits 8j .. 8j+7 of it, for j = 0 .. 3 |
| StringCipher.CipherAt | src/passes/StringEncryption.cpp:37-46 | byte k of a cipher text is byte k of the input XORed with byte k of the keystream; the length is kept |
| StringCipher.CipherFromBytes | src/passes/StringEncryption.cpp:37-46 | a sequence that agrees byte by byte with the keystream XOR is the cipher |
| StringCipher.StateAfterShift | src/passes/StringEncryption.cpp:39 | n steps from the advanced seed are n + 1 steps from the seed |
| StringCipher.KeyState | src/passes/StringEncryption.cpp:39 | the key of chunk n is the scrambled state after n + 1 SplitMix32 steps |
| StringCipher.StreamByteInChunk | src/passes/StringEncryption.cpp:40-44 | keystream byte 4n + j is byte j of chunk n's key |
| StringCipher.StreamByteShift | src/passes/StringEncryption.cpp:37-46 | four bytes on, the keystream is that of the advanced state |
| StringCipher.ChunkedAt | src/passes/StringEncryption.cpp:37-46 | the chunk-by-chunk loop (one SplitMix32 call per chunk of min(len - offset, 4) bytes) XORs byte k with keystream byte k |
| StringCipher.ChunkedHead | src/passes/StringEncryption.cpp:39-44 | the first chunk is XORed with the first key |
| StringCipher.ChunkedFirst | src/passes/StringEncryption.cpp:39-44 | the first chunk's key is the scrambled advanced seed |
| StringCipher.ChunkedTail | src/passes/StringEncryption.cpp:37-46 | past the first chunk, the loop continues as a fresh run from the advanced state |
| StringCipher.ChunkedLater | src/passes/StringEncryption.cpp:37-46 | a byte past the first chunk is the rest's byte k - 4 under the advanced state |
| StringCipher.ChunkedIsCipher | src/passes/StringEncryption.cpp:37-46 | the chunked loop computes exactly the keystream XOR |
| StringCipher.CipherInvolution | src/passes/StringEncryption.cpp:37-46 | applying the cipher twice with one seed returns the input |
| StringCipher.EncryptAll | src/passes/StringEncryption.cpp:28-48 | the number of strings and every string's length are kept |
| StringCipher.EncryptAllInvolution | src/passes/StringEncryption.cpp:28-48 | XorEncryptStrings twice with the same master seed restores every string |
| StringCipher.XorEncryptStrings | src/passes/StringEncryption.cpp:28-48 | in place, string i becomes its cipher under master ^ i, independent of every other string |
| StringCipher.ChunkKeyBytes | src/passes/StringEncryption.cpp:40-44 | the four keystream bytes of chunk n are the four bytes of that chunk's key |
| StringCipher.EncryptOne | src/passes/StringEncryption.cpp:32-46 | the offset loop over one string yields its cipher under its seed |
| StringCipher.XorKeyBytes | src/passes/StringEncryption.cpp:41-44 | the byte loop XORs bytes offset .. offset + chunk - 1 with the key's bytes and leaves every other byte alone |
| StringCipher.Decoded | src/passes/StringEncryption.cpp:115-177 | decoding keeps the buffer's length |
| StringCipher.DecodedFromBytes | src/passes/StringEncryption.cpp:115-177 | a buffer whose first len bytes are keystream-XORed and whose rest is unchanged is the decoded buffer |
| StringCipher.DecryptBuffer | src/passes/StringEncryption.cpp:115-177 | the emitted offset/state/j loop, run in place, decodes the first len bytes with the seed and leaves the rest |
| StringCipher.DecodeChunk | src/passes/StringEncryption.cpp:143-169 | the emitted j loop XORs one chunk with the bytes of its key, in place |
| StringCipher.DecryptTable | src/passes/StringEncryption.cpp:350-387 | the constructor's counter loop decodes table entry i with seed master ^ i over its length |
| StringCipher.TableRoundTrip | src/passes/StringEncryption.cpp:317-330 | string i encrypted by XorEncryptStrings and decoded with master ^ i over its length is restored |
| StringCipher.SeedZero | src/passes/StringEncryption.cpp:407-411 | a string encrypted alone is keyed by the master seed itself |
| StringCipher.StackRoundTrip | src/passes/StringEncryption.cpp:407-482 | a string encrypted alone and decoded with the master seed over its size is restored |
| StringEncryption.Len32 | src/passes/StringEncryption.cpp:311 | a length stored as an i32 constant is kept below 2^32 and is exact when it fits |
| StringEncryption.Classify | src/passes/StringEncryption.cpp:209-312 | skip exactly the globals without a string initializer, named llvm.* or in a debug*/llvm* section; stack on "/stack:" or option 1, with the 7-byte prefix stripped; refused when a use lies outside a function; table exactly on option 2 without the prefix |
| StringEncryption.ConstUsersInFunctions | src/passes/StringEncryption.cpp:252-266 | the inner loop approves a constant expression exactly when all its users are instructions inside functions |
| StringEncryption.CheckUses | src/passes/StringEncryption.cpp:245-290 | the use check passes exactly when every use can be served on the stack |
| StringEncryption.CollectTargets | src/passes/StringEncryption.cpp:207-312 | the table list holds exactly the table-classified globals, in module order, with pointer, raw bytes and i32 length in parallel lists; the stack list holds exactly the stack-classified globals with their text |
| StringEncryption.ClassifyOne | src/passes/StringEncryption.cpp:209-312 | the loop body decides as Classify |
| StringEncryption.StackApartFromTable | src/passes/StringEncryption.cpp:242-312 | no global is on both paths |
| StringEncryption.AsWrittenLeavesConstExprs | src/passes/StringEncryption.cpp:425-488 | as written, a stack-path global keeps a user exactly when some use is a constant expression |
| StringEncryption.ConstantGepLeftBehind | src/passes/StringEncryption.cpp:428-447 | a string reached by a constant GEP in a function passes the use check, yet as written a GEP instruction over the erased global stays; the corrected rewrite leaves none |
| StringEncryption.SecondGepUserKept | src/passes/StringEncryption.cpp:432-443 | as written, a constant GEP with two instruction users gets one GEP instruction, for the first; the expression keeps the second |
| StringEncryption.WithoutFirstInst | src/passes/StringEncryption.cpp:432-443 | the walk over a constant GEP's users takes out exactly one user when some user is an instruction, and none otherwise |
| StringEncryption.FirstGepCopy | src/passes/StringEncryption.cpp:432-443 | at most one GEP instruction is made per constant GEP, and one exactly when some user is an instruction |
| StringEncryption.RewriteLeavesNothing | src/passes/StringEncryption.cpp:425-489 | the corrected rewrite leaves no user of a global whose uses passed the use check, so erasing it leaves nothing dangling |
| StringEncryption.BuffersInUsingFunctions | src/passes/StringEncryption.cpp:449-455 | every decoded buffer is placed in a function that used the global |
| StringEncryption.FunctionsOfAreUsers | src/passes/StringEncryption.cpp:432-436 | every function collected from a constant expression's users holds one of them |
| StringEncryption.RedirectUses | src/passes/StringEncryption.cpp:425-488 | the use loop, one use after the other, computes the corrected rewrite |
| StringEncryption.ImagesKept | src/passes/StringEncryption.cpp:413-419 | adding globals keeps the decoded images of table entries and stack buffers |
| StringEncryption.DecodeCipher | src/passes/StringEncryption.cpp:115-177 | decoding the cipher over its length with the same seed gives the string back |
| StringEncryption.TableEntryRestored | src/passes/StringEncryption.cpp:363-383 | table entry k, holding its cipher under master ^ k with its length in the length table, reads as its raw bytes once the constructor has run |
| StringEncryption.TableRestored | src/passes/StringEncryption.cpp:317-391 | every entry of the built tables reads as its raw bytes once the constructor has run |
| StringEncryption.StackBuffersRestore | src/passes/StringEncryption.cpp:453-482 | every buffer copied from the encrypted private global and decoded with its seed over its size holds the text |
| StringEncryption.EncryptList | src/passes/StringEncryption.cpp:319-320 | the table strings are encrypted together, string k under master ^ k |
| StringEncryption.EncryptAlone | src/passes/StringEncryption.cpp:409-411 | a stack string is encrypted in a list of its own, so under the master seed |
| StringEncryption.SeedSource.UInt32 | src/passes/StringEncryption.cpp:319 | each call returns the next draw and consumes exactly one |
| StringEncryption.SlotCache.constructor | src/passes/StringEncryption.cpp:77 | the process starts with no function's slots allocated |
| StringEncryption.SlotCache.SlotsFor | src/passes/StringEncryption.cpp:93-113 | a function's cached slots are reused unchanged; a function without slots gets the next three; no two functions ever share a slot |
| StringEncryption.SlotCache.SlotsForAll | src/passes/StringEncryption.cpp:449-455 | every function given ends with slots in the cache, and every slot already allocated is kept |
| StringEncryption.Module.constructor | src/passes/StringEncryption.cpp:180 | a module before the pass, with no constructors, buffers or erasures |
| StringEncryption.Module.ObfuscateGlobalArrayStrings | src/passes/StringEncryption.cpp:180-491 | without OnString nothing changes; otherwise the table list holds exactly the table-classified globals and the stack list exactly the stack-classified ones with their texts; one seed is drawn for the table and one per stack string; table strings become non-constant, gain the pointer table as one more constant user, and read back as their bytes once the constructor has run; the new buffers are, in stack-list order, one per instruction use that the corrected rewrite of ## Findings serves for that global, in use order (a function that uses the string k times gets k buffers), and each decodes to its global's text; every stack global is erased with no user left; every function holding a decoder has cached slots; all other globals are unchanged |
| StringEncryption.Module.EncryptTable | src/passes/StringEncryption.cpp:317-391 | initializers are replaced by ciphers, each listed global becomes non-constant and gains the pointer table's initializer as one more constant user; the two tables and one constructor are added; every table entry reads back its raw string; the constructor's decoder has cached slots; all else is kept |
| StringEncryption.Module.AddTables | src/passes/StringEncryption.cpp:332-391 | adds __enc_ptr_table, __enc_len_table and a constructor walking all entries with the master seed; each global the pointer table lists gains one constant user, and existing globals are otherwise unchanged; whose decoder takes its slots from the cache; cached slots are kept |
| StringEncryption.Module.SetInitializers | src/passes/StringEncryption.cpp:321-329 | global gvList[k] gets enc[k] and becomes non-constant; no other global changes |
| StringEncryption.Module.EncryptOnStack | src/passes/StringEncryption.cpp:407-489 | the corrected rewrite of ## Findings for one global: a private copy holding the cipher under the master seed is added; each instruction use the rewrite serves gets, in use order, a buffer in its function (a function that uses the string k times gets k buffers) filled from that copy over the i32 size, which decodes to the text, and cached decoder slots; the global keeps only the users the rewrite leaves and is erased; nothing else changes |
| StringEncryption.Module.EncryptStackList | src/passes/StringEncryption.cpp:404-490 | the stack loop runs in list order with one seed per string; each stack global keeps only what its rewrite leaves and is erased; the new buffers are exactly the planned ones, in order, and each decodes to its global's text; every buffer's function has cached slots |
| StringEncryption.Module.StackStep | src/passes/StringEncryption.cpp:404-490 | one turn of the stack loop: one seed drawn, entry t's global rewritten and erased, its buffers appended in the planned order, and every buffer added so far still decodes to its text |
| StringEncryption.Module.TablePath | src/passes/StringEncryption.cpp:207-391 | the classification gives exactly the table-classified and stack-classified globals; when the table list is non-empty one seed is drawn, one constructor is added, every table string gains the pointer table as a constant user and reads back; stack globals are untouched |
| StringEncryption.TableOutcome | src/passes/StringEncryption.cpp:317-391 | after the initializer loop and the two tables, each listed global holds its cipher under master ^ k, is non-constant and has the pointer table as one more user, the others are as before, and every entry reads back through the constructor |
| StringEncryption.EveryUserServed | src/passes/StringEncryption.cpp:425-488 | the corrected rewrite gives a buffer to the function of every instruction reaching the global, directly or through a constant expression |
| StringEncryption.FunctionsOfComplete | src/passes/StringEncryption.cpp:432-436 | every function holding an instruction user of a constant expression is collected |
| StringEncryption.PlannedFromUsers | src/passes/StringEncryption.cpp:449-455 | every planned buffer belongs to a global of the stack list and lies in a function that used that global |
| StringEncryption.StackDoneStep | src/passes/StringEncryption.cpp:404-490 | one more turn of the stack loop extends the state after t entries to the state after t + 1 |
| StringEncryption.StackCleared | src/passes/StringEncryption.cpp:425-489 | once the stack loop is done, every stack global whose uses passed the use check has no user left |
| StringEncryption.TablesSurvive | src/passes/StringEncryption.cpp:404-490 | the stack path keeps every table entry non-constant, with its users, and reading back its raw string |
| StringEncryption.ObfuscateOutcome | src/passes/StringEncryption.cpp:180-491 | after the table path and the stack loop, every table string still reads back, is non-constant and has the pointer table as one more user, exactly the stack globals are erased and left without users, and the globals neither path took are as they were |
| StringEncryption.BuffersOutcome | src/passes/StringEncryption.cpp:404-490 | after the stack loop the earlier buffers are kept and the new ones are exactly the planned ones, in order, each decoding to its entry's text |
| MbaCatalog.SubIdentity | src/passes/MBASub.cpp:62-73 | x - y == (x ^ -y) + 2 * (x & -y) at every width |
| MbaCatalog.AddIdentity0 | src/passes/MBASub.cpp:80-91 | ~(x + (-x + (-x + ~y))) == x + y at every width |
| MbaCatalog.AddIdentity1 | src/passes/MBASub.cpp:95-104 | (a + (b + r)) - r == a + b for every constant r |
| MbaCatalog.XorIdentity0 | src/passes/MBASub.cpp:111-115 | (~a & b) \| (a & ~b) == a ^ b |
| MbaCatalog.XorIdentity1 | src/passes/MBASub.cpp:119-123 | (a \| b) & ~(a & b) == a ^ b |
| MbaCatalog.XorIdentity2 | src/passes/MBASub.cpp:127-133 | (a + b) - 2 * (a & b) == a ^ b |
| MbaCatalog.XorIdentity3 | src/passes/MBASub.cpp:137-143 | ~(~a & ~b) & ~(a & b) == a ^ b |
| MbaCatalog.MulIdentity | src/passes/MBASub.cpp:150-157 | ((b \| c) * (b & c)) + ((b & ~c) * (c & ~b)) == b * c |
| MbaCatalog.OrIdentity0 | src/passes/MBASub.cpp:164-168 | ~(~a & ~b) == a \| b |
| MbaCatalog.OrIdentity1 | src/passes/MBASub.cpp:172-176 | a ^ (b ^ (a & b)) == a \| b |
| MbaCatalog.OrIdentity2 | src/passes/MBASub.cpp:180-184 | (a + b) - (a & b) == a \| b |
| MbaCatalog.TwiceWord | src/passes/MBASub.cpp:70 | the constant 2 at the operand's width doubles a word modulo 2^w |
| MbaCatalog.AllOnes | src/passes/MBASub.cpp:85 | the -1 constant of CreateNot truncates to the all-ones word |
| MbaCatalog.NotValue | src/passes/MBASub.cpp:85 | CreateNot (xor with -1) is the complement 2^w - 1 - v |
| MbaCatalog.NotEval | src/passes/MBASub.cpp:85 | a built CreateNot evaluates to the bitwise complement |
| MbaCatalog.NegEval | src/passes/MBASub.cpp:68 | a built CreateNeg evaluates to 0 - v modulo 2^w |
| MbaCatalog.SubOpsCorrect | src/passes/MBASub.cpp:59-75 | the sub_ops expression evaluates to a - b |
| MbaCatalog.AddOps0Correct | src/passes/MBASub.cpp:78-92 | the first add_ops expression evaluates to a + b |
| MbaCatalog.AddOps1Correct | src/passes/MBASub.cpp:93-105 | the second add_ops expression evaluates to a + b for every random constant |
| MbaCatalog.XorOpsCorrect | src/passes/MBASub.cpp:108-145 | each of the four xor_ops expressions evaluates to a ^ b |
| MbaCatalog.MulOpsCorrect | src/passes/MBASub.cpp:147-159 | the mul_ops expression evaluates to a * b |
| MbaCatalog.OrOpsCorrect | src/passes/MBASub.cpp:161-186 | each of the three or_ops expressions evaluates to a \| b |
| MbaCatalog.Callback | src/passes/MBASub.cpp:193-195 | every callback builds at least one instruction |
| MbaCatalog.CallbackLeaves | src/passes/MBASub.cpp:59-186 | callbacks read only the instruction's two operands and constants |
| MbaCatalog.CallbackComputes | src/passes/MBASub.cpp:59-186 | every callback computes the value of the instruction it replaces, in every state |
| MbaIr.EmitCorrect | src/passes/MBASub.cpp:211-212 | the instructions IRBuilder inserts for an expression compute its value and keep every earlier value |
| MbaIr.EmitWf | src/passes/MBASub.cpp:211-212 | the inserted instructions have fresh ids and read only defined values |
| MbaIr.EmitNoUse | src/passes/MBASub.cpp:211-212 | the inserted code reads no instruction the expression does not refer to, and its result is not that instruction |
| MbaIr.ReplaceAtShape | src/passes/MBASub.cpp:208-213 | a replacement keeps the code before the instruction, inserts the emitted code right before it, keeps it, and redirects only later uses |
| MbaIr.ReplaceAtWf | src/passes/MBASub.cpp:208-213 | inserting the replacement before the instruction and redirecting its uses keeps the body in SSA form and leaves the instruction unused but in place |
| MbaIr.ReplaceAtNoUse | src/passes/MBASub.cpp:208-213 | an instruction that had no uses still has none after a replacement |
| MbaIr.ReplaceAtPreserves | src/passes/MBASub.cpp:208-213 | a replacement that computes the instruction keeps the value of every instruction |
| MbaIr.ReplaceAtKeeps | src/passes/MBASub.cpp:208-213 | when the expression computes the replaced instruction from the values before it, every instruction of the body keeps its value |
| MbaIr.ReplaceAtClears | src/passes/MBASub.cpp:212 | after the replacement nothing uses the replaced instruction |
| MbaIr.ReplaceAtIds | src/passes/MBASub.cpp:208-213 | the ids afterwards are those before plus the emitted ones, all of them fresh |
| MbaIr.ReplaceAtRefines | src/passes/MBASub.cpp:208-213 | a computing replacement keeps SSA form and every value, adds only fresh ids, keeps unused instructions unused and leaves the replaced one unused |
| MbaSub.RenameAll | src/passes/MBASub.cpp:212 | replaceAllUsesWith renames the uses in every block |
| MbaSub.IndexOf | src/passes/MBASub.cpp:208-211 | finds the instruction's position in its block, or reports that it is absent |
| MbaSub.TargetsExact | src/passes/MBASub.cpp:200-206 | the snapshot holds exactly the block's instructions of the opcode |
| MbaSub.TargetsSnoc | src/passes/MBASub.cpp:202-206 | the collecting loop appends an instruction's id exactly when its opcode matches |
| MbaSub.Pick | src/passes/MBASub.cpp:193-194 | IntRanged(lo, hi) lies in [lo, hi] |
| MbaSub.ObfuscateCorrect | src/passes/MBASub.cpp:189-196 | null exactly for another opcode; otherwise a callback that computes the instruction from its operands, with one pick, and a second draw only for add's random constant |
| MbaSub.FlattenSplit | src/passes/MBASub.cpp:40-43 | the body is the blocks before b, block b and the blocks after it |
| MbaSub.FlattenRename | src/passes/MBASub.cpp:212 | renaming block by block is renaming the whole body |
| MbaSub.FlattenIndex | src/passes/MBASub.cpp:40-43 | instruction pos of block b is an instruction of the body at the matching position |
| MbaSub.RewriteIsReplaceAt | src/passes/MBASub.cpp:208-213 | inserting in block b and renaming across all blocks is a replacement on the whole body |
| MbaSub.SpliceAt | src/passes/MBASub.cpp:211 | inserting inside one block inserts at the matching position of the body |
| MbaSub.WfDistinct | src/passes/MBASub.cpp:200-206 | ids are unique in an SSA body |
| MbaSub.FoundIsTarget | src/passes/MBASub.cpp:208-212 | a collected instruction is found in its block with its opcode |
| MbaSub.SoundTrans | src/passes/MBASub.cpp:24-27 | two sound steps in a row are sound |
| MbaSub.RewriteOneSound | src/passes/MBASub.cpp:208-213 | one rewrite is sound and leaves the rewritten instruction unused |
| MbaSub.InsertSound | src/passes/MBASub.cpp:211-212 | inserting a computing expression and redirecting the uses is sound and leaves the instruction unused |
| MbaSub.InsertIsReplaceAt | src/passes/MBASub.cpp:208-213 | inserting before instruction pos of block b and renaming across the blocks is the body-level replacement at the matching position |
| MbaSub.RewriteOneKeeps | src/passes/MBASub.cpp:208-213 | a rewrite keeps every instruction of every block in place |
| MbaSub.RewriteEachSound | src/passes/MBASub.cpp:208-213 | the rewrite loop is sound and leaves every collected instruction unused |
| MbaSub.RewriteEachKeeps | src/passes/MBASub.cpp:208-213 | the rewrite loop keeps every instruction in place |
| MbaSub.RunOnOpcodeSound | src/passes/MBASub.cpp:198-214 | runOn<Op> is sound and leaves every instruction of that opcode present at entry unused |
| MbaSub.RunOnOpcodeKeeps | src/passes/MBASub.cpp:198-214 | runOn<Op> erases no instruction |
| MbaSub.SoundNoUse | src/passes/MBASub.cpp:198-214 | a later sound step does not bring back a use of an instruction |
| MbaSub.RunOnBlockSound | src/passes/MBASub.cpp:46-53 | RunOnBasicBlock (mul, sub, add, xor, or) is sound and leaves every instruction of the five opcodes in the block at entry unused |
| MbaSub.RunOnBlockKeeps | src/passes/MBASub.cpp:46-53 | RunOnBasicBlock erases no instruction |
| MbaSub.ObfuscateFromSound | src/passes/MBASub.cpp:38-44 | ObfuscateFunction is sound and leaves every instruction of the five opcodes at entry unused |
| MbaSub.ObfuscateFromKeeps | src/passes/MBASub.cpp:38-44 | ObfuscateFunction erases no instruction |
| MbaSub.RoundSound | src/passes/MBASub.cpp:38-44 | one call of ObfuscateFunction is sound |
| MbaSub.RoundClears | src/passes/MBASub.cpp:38-44 | after one round, every instruction of the five opcodes at entry is still in its block and unused |
| MbaSub.IterateSound | src/passes/MBASub.cpp:20-28 | PassIterations rounds are sound, and 0 or less changes nothing |
| MbaSub.IterateClears | src/passes/MBASub.cpp:20-28 | with PassIterations >= 1, every instruction of the five opcodes at entry ends up unused |
| MbaSub.StaysClear | src/passes/MBASub.cpp:24-27 | later rounds keep the instructions cleared by the first round unused |
| MbaSub.RewriteOneDraws | src/passes/MBASub.cpp:193-195 | one rewrite takes one draw, or two for add |
| MbaSub.RewriteEachDraws | src/passes/MBASub.cpp:208-213 | every collected instruction is rewritten exactly once |
| MbaSub.RunOnOpcodeDraws | src/passes/MBASub.cpp:198-214 | runOn<Op> makes one pick per instruction of that opcode present at entry, and none for the instructions it creates |
| MbaSub.Random.IntRanged | src/passes/MBASub.cpp:193-194 | the result lies in [lo, hi] and exactly one draw is consumed |
| MbaSub.Random.constructor | src/passes/MBASub.cpp:193 | a generator that has drawn nothing yet |
| MbaSub.IrFunction.constructor | src/passes/MBASub.cpp:38 | a function object over the given blocks |
| MbaSub.ObfuscateInst | src/passes/MBASub.cpp:189-196 | as Obfuscate: null without a draw for another opcode, else the picked callback |
| MbaSub.CollectTargets | src/passes/MBASub.cpp:200-206 | the first loop collects the block's instructions of the opcode, in order |
| MbaSub.ReplaceUses | src/passes/MBASub.cpp:208-213 | one step of the second loop changes the function as RewriteOne |
| MbaSub.RunOnOp | src/passes/MBASub.cpp:198-214 | runOn<Op> changes the function as RunOnOpcode |
| MbaSub.RunOnBasicBlock | src/passes/MBASub.cpp:46-53 | changes the function as RunOnBlock |
| MbaSub.ObfuscateFunction | src/passes/MBASub.cpp:38-44 | changes the function as the walk over all blocks |
| MbaSub.RunOnFunction | src/passes/MBASub.cpp:20-28 | changes the function as PassIterations rounds |
| MbaSub.RegisterFromAnnotation | src/passes/MBASub.cpp:30-36 | registers the pass on f with PassIterations set to the first annotation argument, or 1 without one, and consumes that argument; other functions are unchanged |
| PassMetadata.Metadata.constructor | src/quickjs/QuickConfig.cpp:84 | no function has passes yet |
| PassMetadata.Metadata.AddPass | src/quickjs/QuickConfig.cpp:84 | appends one entry to f's passes and changes no other function |
| PassMetadata.AnnotationArgs.constructor | src/passes/MBASub.cpp:30 | the arguments, unread |
| PassMetadata.AnnotationArgs.NextOrDefault | src/passes/MBASub.cpp:33 | the next argument, consumed, or the default when none is left |
| CNumbers.DigitValue | src/quickjs/QuickConfig.cpp:73 | a decimal digit's value is below 10 |
| CNumbers.SkipSpacesSpec | src/quickjs/QuickConfig.cpp:40 | atoi and stoi skip exactly the leading white space |
| CNumbers.LeadingDigits | src/quickjs/QuickConfig.cpp:40 | the number of leading digits is at most the length |
| CNumbers.LeadingDigitsSpec | src/quickjs/QuickConfig.cpp:40 | the longest run of digits at the front is read |
| CNumbers.Stoi | src/quickjs/QuickConfig.cpp:40 | a value stoi returns fits a 32-bit int |
| CNumbers.StoiAgreesWithAtoi | src/quickjs/QuickConfig.cpp:40-73 | where stoi succeeds, atoi reads the same number |
| CNumbers.DigitChar | src/quickjs/QuickConfig.cpp:38 | a digit value prints as a digit with that value |
| CNumbers.Digits | src/quickjs/QuickConfig.cpp:38 | a printed natural number is a non-empty run of digits |
| CNumbers.DigitsValueOf | src/quickjs/QuickConfig.cpp:38-40 | reading back the printed digits of n gives n |
| CNumbers.AllDigitsLead | src/quickjs/QuickConfig.cpp:40 | a run of digits is read whole |
| CNumbers.ScanRun | src/quickjs/QuickConfig.cpp:40 | a run of digits, with or without a minus sign, reads as its value |
| CNumbers.AtoiDecimal | src/quickjs/QuickConfig.cpp:71-73 | atoi reads back the decimal text of any integer, which is how the script prints an integral number below 10^21 in magnitude |
| CNumbers.StoiDecimal | src/quickjs/QuickConfig.cpp:38-40 | stoi reads back the decimal text of any int and throws on the decimal text of any integer beyond int |
| CNumbers.ExponentLeadingDigit | src/quickjs/QuickConfig.cpp:38-73 | the exponent form JS_ToCString prints from 10^21 on ("1e+21") reads, for atoi and stoi alike, as its leading digit with its sign, and stoi does not throw |
| CNumbers.NoNumber | src/quickjs/QuickConfig.cpp:40-73 | text without a sign or digit after white space gives atoi 0 and makes stoi throw |
| QuickConfig.LookupDistinct | src/quickjs/QuickConfig.cpp:34 | with distinct names, looking up a property's name gives its value |
| QuickConfig.LookupMissing | src/quickjs/QuickConfig.cpp:34-36 | a lookup finds nothing exactly when no property has the name |
| QuickConfig.LookupFound | src/quickjs/QuickConfig.cpp:34 | a value found belongs to a property of that name |
| QuickConfig.ObfuscationTypes | src/quickjs/QuickRt.cpp:69-74 | ObfuscationType gets one property per registry entry, its name numbered by its position |
| QuickConfig.EnumNumbering | index.d.ts:3-9 | with the registry in enum order, ObfuscationType.X in the script is the enum's number for X and selects the pass named X |
| QuickConfig.Options | src/quickjs/QuickConfig.cpp:62-80 | one option per enumerable property |
| QuickConfig.OptionsAt | src/quickjs/QuickConfig.cpp:64-73 | option i is property i's name with atoi of its text |
| QuickConfig.DecideCases | src/quickjs/QuickConfig.cpp:21-85 | invalid type exactly when out of range; stoi throws exactly on an unreadable count; ignored exactly for a count of 0 or less, a missing one counting as 0; failed listing ends the call; otherwise registered under the type's code name |
| QuickConfig.NumericIterations | src/quickjs/QuickConfig.cpp:34-43 | a script number below 10^21 in magnitude, set as PassIterations, is read as itself when it fits an int, and otherwise stoi throws |
| QuickConfig.HugeIterations | src/quickjs/QuickConfig.cpp:34-43 | a script number of 10^21 or more in magnitude, set as PassIterations, counts as one digit of its sign (1 .. 9 or -9 .. -1) and nothing throws |
| QuickConfig.IterationsAmongOptions | src/quickjs/QuickConfig.cpp:62-80 | a registration's options are the properties in order through atoi, PassIterations among them with the count that allowed it |
| QuickConfig.RegistrationsAreValid | src/quickjs/QuickConfig.cpp:45-84 | every entry added comes from a request with a valid type, a positive count and listable properties, with that type's code name and the object's options |
| QuickConfig.LastDefinedIsLast | src/quickjs/QuickConfig.cpp:100-108 | current_function ends as the last function with a body, or stays as it was when there is none |
| QuickConfig.Served | src/quickjs/QuickConfig.cpp:21-85 | the requests of a RunOnFunction call served in full are those before the first whose stoi throws |
| QuickConfig.FirstAbort | src/quickjs/QuickConfig.cpp:87-132 | the walk of RegisterPasses reaches the functions up to the first whose RunOnFunction call throws |
| QuickConfig.Registrar.constructor | src/quickjs/QuickConfig.cpp:19 | current_function starts unset |
| QuickConfig.Registrar.RegisterFunctionPass | src/quickjs/QuickConfig.cpp:21-85 | the outcome is Decide's; the current function gains exactly the registered entry; no other function changes; nothing changes unless registered |
| QuickConfig.Registrar.RunOnFunction | src/quickjs/QuickConfig.cpp:108-126 | f becomes current; its requests are served in order until the first whose stoi throws, which ends the call and is reported; f gains exactly the registrations of the requests before it; no other function changes |
| QuickConfig.Registrar.Serve | src/quickjs/QuickConfig.cpp:21-85 | the outcome reports a stoi throw exactly when the request's PassIterations makes stoi throw; the current function gains the request's registration, if any, after those it had; no other function changes |
| QuickConfig.Registrar.Visit | src/quickjs/QuickConfig.cpp:100-129 | a declaration is skipped; a function with a body becomes current and gets the registrations of its requests before any throw; a throw is reported exactly when one of its requests throws |
| QuickConfig.Registrar.RegisterPasses | src/quickjs/QuickConfig.cpp:87-132 | without RunOnFunction nothing changes; otherwise the functions are walked in module order until the first whose call throws, which is reported; each function reached gets exactly its registrations before the throw, declarations none, and the functions after the throw nothing; current_function ends as the last function reached with a body |

## Left out

- I/O, logging and the QuickJS runtime are not modelled. Logger, JS_Call, JS_ToCString and the reading of ZyroxConfig.js are not part of this model. The script's answers are parameters.
- Logger::Error is not part of this model, so whether it returns is unknown. An invalid pass type is modelled as ending RegisterFunctionPass with nothing registered (QuickConfig.cpp:23-30). As written, the code would go on to index the registry out of range if Logger::Error returned.
- A std::stoi that throws (QuickConfig.cpp:40) is caught nowhere, so it is modelled as ending RunOnFunction and RegisterPasses at that request, reported as a throw. What the uncaught exception then does to the process is not modelled.
- CNumbers.AtoiDecimal, CNumbers.StoiDecimal, QuickConfig.NumericIterations: state the decimal form only; the exponent form a script number takes from 10^21 on is covered by CNumbers.ExponentLeadingDigit and QuickConfig.HugeIterations.
- QuickConfig.Registrar.RegisterFunctionPass: a call with no current function dereferences a null pointer; not modelled.
- std::atoi's undefined behaviour on overflow is not modelled: atoi is read over unbounded integers.
- JS property semantics are not modelled. A script object is its own enumerable string-keyed properties with their values given as text. Inherited properties, getters and the conversion rules of JS_ToCString and JS_ToInt32 are left out.
- A failure of JS_GetOwnPropertyNames is modelled as a boolean input.
- Random::UInt32 and Random::IntRanged are a fixed stream of draws. Their distribution is not modelled.
- StringCipher.SplitMix32: the scrambler is not proved to be a bijection. The round trips do not need it.
- StringCipher.DecryptBuffer: requires the length to be below 2^31. The emitted i32 offset is a GEP index, which LLVM sign-extends, so from 2^31 bytes on the decoder would address memory before the buffer; the model does not follow that.
- StringEncryption.Module.ObfuscateGlobalArrayStrings: requires every string initializer, and the number of globals, to be below 2^31, for the same reason. Len32 states the truncation of the stored length.
- StringEncryption.Module.EncryptOnStack: models the corrected rewrite of ## Findings, not the code as written: an instruction behind a constant expression gets a buffer, and the erased global keeps no user. The code as written is StringEncryption.RewriteAsWritten, with StringEncryption.AsWrittenLeavesConstExprs, StringEncryption.ConstantGepLeftBehind and StringEncryption.SecondGepUserKept.
- The slot cache of EmitDecryptBuffer is process-wide and keyed by function name. It is modelled as one object holding three slot numbers per name, with no slot shared between names; the allocas themselves and the cache's lifetime across modules are not modelled.
- LLVM IR mechanics are reduced to their effect: allocas, splitBasicBlock, memcpy, GEPs, appendToGlobalCtors and global creation. Decoded bytes and table contents are stated; instruction sequences are not.
- IRBuilder constant folding is not modelled. Callbacks always emit instructions.
- C++ leaves the evaluation order of call arguments unspecified. The model emits the left operand's code first.
- The MBA model covers only integer binary instructions. Other instructions are opaque values supplied by the machine.
- MbaSub.IterateSound, MbaSub.IterateClears: a body is run straight-line in layout order, and every operand must be defined earlier in that order. Control flow, and phi operands defined later in the layout (a loop-carried value), are outside the proof.
- The passes that the decrypt constructor is annotated with (StringEncryption.cpp:393-401) are not part of this model.

## Findings

| source | as written | input that shows it | evidently intended | confidence | as-written member | corrected member |
|---|---|---|---|---|---|---|
| src/passes/StringEncryption.cpp:428-447 | On the stack path, a constant GEP expression over the string is skipped (so are other constant expressions). Only its first instruction user, in use-list order, gets a fresh GEP instruction over the same global: replaceUsesOfWith moves the use being iterated onto the new instruction, whose use list is empty, so the walk over the expression's users ends there. The expression keeps every other user. The global is erased afterwards while the expression and the new instruction still refer to it. | a global starting with "/stack:" used only by a constant GEP whose one user is an instruction in a function: it passes the use check at 245-299, yet a user of the erased global remains | every instruction that reaches the string, directly or through a constant expression, reads a decoded stack buffer, and the erased global has no users | not executed | StringEncryption.AsWrittenLeavesConstExprs | StringEncryption.RewriteLeavesNothing |
