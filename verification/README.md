# librecomp runtime: verification model

A Dafny model of the stateful parts of librecomp, an N64 recompilation runtime, with proofs
of what they keep over every run. Six components are modelled, over one byte memory in which
guest byte `a` is host byte `a ^ 3`.

- **R4300i interpreter** (`Interpreter`, `InterpreterRuns`, `NativeCalls`, `R4300`, `R4300Isa`, `Reference32`, `Narrowing`,
  `NarrowRuns`, `Doubleword`, `Encoding`, `UnlinkedCall`). The interpreter runs delay slots inline
  and calls on the host stack, on 64-bit registers, and enters recompiled functions. It is refined
  to a flat pc/npc machine in which a recompiled function runs whole, and on 32-bit code without exceptions to the 32-bit register machine of Appendix A of the MIPS R4000
  Microprocessor User's Manual with big-endian memory.
- **Overlay loader** (`Loader`, `LoaderBooks`, `LoaderRanges`, `LoaderIndex`,
  `LoaderFragments`, `LoaderStreaming`, `LoaderEntries`, `Overlays`). The list of loaded sections,
  the section address table and the function map stay in step over every run of DMA loads, unloads
  and fragment placements, and each operation leaves exactly the entries it should.
- **Fragment tier** (`FragmentTier`, `FragmentRuns`, `FragmentPromotion`,
  `FragmentStretch`, `FragmentHost`). A native shard, an arbitrary transformer of registers and
  RAM, runs live if and only if it has itself agreed with the interpreter in a full budget of
  comparisons on end.
- **Mod context** (`ModDependencies`, `OrderScan`, `ModOrder`, `HookRegen`, `HookRegenProofs`,
  `HookRegenLists`, `HookMarkers`, `HookContext`, `ModLayout`, `ModLoad`, `ModCopy`, `ModWords`,
  `ModCode`). Dependency closure, mod order, the hook regeneration list, and the layout and relocation of code mods.
- **Transfer Pak and joybus** (`TransferPak`, `TransferPakRuns`, `TransferPakBanks`, `GbCart`,
  `DataCrc`, `Joybus`, `JoybusFrames`, `JoybusHost`).
- **Audio voice silencing** (`AudioSilence`, `AudioVoices`).

Each component has its state and operations as functions of that state, classes or methods
with the source's loops that are proved equal to those functions, and lemmas about them.
`Options`, `Words`, `Bits`, `Arith` and `Rdram` are shared.

Some behaviours of the code differ from what a reader may expect, and are stated as they are:

- the return from a call linked through a register other than `$31` is taken for the caller's
  own (`UnlinkedCall`);
- a pinned fragment whose interpretation fails is interpreted again from the state the failure
  left (`FragmentRuns.PinnedRetry`);
- colliding hashes in one chain let one shard run on another's trust
  (`FragmentRuns.CollisionMisplacesTrust`), and a manifest line that does not cover the code
  compiled for it lets a shard run on code that has changed (`FragmentStretch.LineRunsStale`);
- a fragment bound at a new base leaves stale aliases, or takes another section's away, unless
  the range of its earlier life is just what it left behind (`LoaderFragments.PlaceGood`);
- a hook at the marker for "no function yet" takes another hook's slot (`HookMarkers`);
- moving a mod in a view that does not show it lists it twice (`ModOrder.ModList.SetModIndex`),
  and moving it down past a neighbour the view does not show lands it one short
  (`OrderScan.LandsAsAsked`);
- the RAM of a cartridge without a controller can be written and never read
  (`TransferPakBanks.RomOnlyRamUnread`).

`dafny verify dfyconfig.toml` checks the whole project.

## Model

| member | source | states |
|---|---|---|
| Interpreter.Host.Step | librecomp/src/mips_interp.cpp:285-392 | One trip round the loop leaves the context exactly as the loop specification says, delay slot and likely-branch nullification included, and where it is refused as well |
| Interpreter.Host.Run | librecomp/src/mips_interp.cpp:266-397 | The recursive interpreter on a context it updates in place agrees with the specification on every outcome: success or refusal, the registers and memory it leaves either way, and whether recompiled code was entered |
| Interpreter.MoreFuel | librecomp/src/mips_interp.cpp:284-397 | The fuel bound is no part of the behaviour: an interpretation that ends at all ends the same way with any larger bound |
| Interpreter.LoopIsFlat | librecomp/src/mips_interp.cpp:291-392 | One trip of the loop is the instruction and its delay slot on a machine with only pc and npc: one step or two |
| InterpreterRuns.FrameIsFlat | librecomp/src/mips_interp.cpp:266-397 | A frame that returns with every call linked is, with all its nested calls, a run of the flat machine to its return address in the same state |
| InterpreterRuns.TraceIsFlat | librecomp/src/mips_interp.cpp:266-397 | The last trip of a run that returns leaves the flat machine at the return address, and all the trips before it, those of nested calls included, follow the flat machine from position to position if and only if every call on the way is linked |
| InterpreterRuns.InterpretRefinesFlat | librecomp/src/mips_interp.cpp:266-397 | When the interpreter returns true with no recompiled function entered, the flat machine from the same state goes through the same positions if and only if every call the run comes to leaves its resume address in the link register, and then reaches the entry return address with the same registers and memory |
| Interpreter.StuckIs | librecomp/src/mips_interp.cpp:291-392 | A trip is refused exactly when its instruction or its delay slot does not execute, in the state the flat machine has come to |
| InterpreterRuns.InterpretFailsExactly | librecomp/src/mips_interp.cpp:284-397 | An interpretation fails if and only if it comes to a misaligned pc, an instruction or delay slot that does not execute, or a call that would nest a 257th frame; no other trip of it is one, and it leaves the state reached there |
| NativeCalls.RunIsFollowed | librecomp/src/mips_interp.cpp:297-331 | A frame that returns, recompiled functions entered on the way included, is followed position by position by the flat machine that runs each recompiled function whole and returns to its link register, to the address its caller resumes at, if and only if every trip fits: calls into recompiled code leave the resume address in the link register, tail jumps into it the caller's, and returns are not into it |
| NativeCalls.InterpretIsFollowed | librecomp/src/mips_interp.cpp:266-397 | The same of a whole interpretation, to the entry return address in the state it leaves |
| NativeCalls.InterpretEnds | librecomp/src/mips_interp.cpp:266-397 | Under that condition the machine decides every outcome: success where it arrives at the entry return address, failure where it comes to what is refused, and no end only while it goes on for as many moves as there was fuel |
| NativeCalls.NativeIsNoted | librecomp/src/mips_interp.cpp:300-328 | An interpretation that ends has noted a recompiled function exactly when one of its trips, nested calls included, entered one |
| NativeCalls.LinkedFits | librecomp/src/mips_interp.cpp:297-331 | Linked calls, and tail jumps into recompiled code made with the frame's return address in the link register, are enough for that |
| R4300Isa.IsaDelaySafe | librecomp/src/mips_interp.cpp:92-262 | No control transfer executes in a delay slot: the non-control executor refuses every branch and jump |
| R4300Isa.EffectKeeps | librecomp/src/mips_interp.cpp:93-188 | An instruction changes no general register but the one it names as destination |
| R4300Isa.CallIsLinked | librecomp/src/mips_interp.cpp:291-333 | A call whose delay slot keeps $31 leaves the address the interpreter resumes at in $31 if and only if it links through $31 or $31 already held that address |
| R4300Isa.SafeIsLinked | librecomp/src/mips_interp.cpp:291-333 | A jal, or a jalr through $31, whose delay slot keeps $31 is linked |
| R4300Isa.LinkedRefinesFlat | librecomp/src/mips_interp.cpp:266-397 | An interpretation that returns, enters no recompiled function and comes only to calls through $31 whose delay slots keep it is a run of the flat machine to the entry return address with the same registers and memory |
| R4300Isa.SafeRefinesNative | librecomp/src/mips_interp.cpp:266-397 | An interpretation whose calls link through $31 with delay slots that keep it, and whose jumps into recompiled code carry the frame's return address in $31, ends as the machine with whole native calls does, whatever recompiled functions it enters |
| UnlinkedCall.InterpreterDiverges | librecomp/src/mips_interp.cpp:312-333 | From every state that enters a given eight-word program calling through $5, the interpreter returns in a state the flat machine never comes to: calls must link through $31 |
| UnlinkedCall.ProgramExists | librecomp/src/mips_interp.cpp:312-333 | There is such a program |
| Encoding.DecodeEncode | librecomp/src/mips_interp.cpp:94-175 | Decoding is the inverse of the architecture's encoding on every encodable instruction |
| Narrowing.AluSim | librecomp/src/mips_interp.cpp:116-124 | Every 32-bit register operation, slt and sltu included, on sign-extended words gives the sign-extended 32-bit result |
| Narrowing.LogicSim | librecomp/src/mips_interp.cpp:120-123 | and, or, xor and nor on 64-bit registers are their 32-bit selves sign-extended |
| Narrowing.ImmSim | librecomp/src/mips_interp.cpp:151-158 | The same for the immediate forms, sltiu's sign-extended unsigned comparison included |
| Narrowing.ShiftSim | librecomp/src/mips_interp.cpp:99-104 | The same for the six 32-bit shifts |
| Narrowing.MulDivSim | librecomp/src/mips_interp.cpp:109-115 | hi and lo after multiply and divide are sign-extended words of the exact product, or a quotient truncated toward zero with its remainder; division by zero, which the architecture leaves undefined, leaves both |
| Narrowing.HoldsSim | librecomp/src/mips_interp.cpp:343-369 | Every branch condition tested on 64-bit registers agrees with the 32-bit comparison |
| Narrowing.LoadSim | librecomp/src/mips_interp.cpp:162-167 | Loads through host-native words and swapped halves and bytes read what big-endian memory holds |
| Narrowing.StoreSim | librecomp/src/mips_interp.cpp:170-172 | Stores through the swapped layout write big-endian memory |
| Narrowing.EffectSim | librecomp/src/mips_interp.cpp:92-188 | Every 32-bit instruction that takes no exception keeps all registers, hi and lo sign-extended and simulates the 32-bit machine's effect |
| NarrowRuns.StepSim | librecomp/src/mips_interp.cpp:284-392 | Every step on 32-bit code that takes no exception, control transfers included, is a step of the 32-bit reference machine |
| NarrowRuns.RunSim | librecomp/src/mips_interp.cpp:284-392 | A run of any length over 32-bit code without exceptions (misalignment, overflow, traps) never gets stuck, is a reference run, and ends with every register holding a sign-extended word |
| NarrowRuns.InterpretIsReferenceRun | librecomp/src/mips_interp.cpp:266-402 | A function interpreted to completion, calling through $31, over 32-bit code without exceptions is a run of the 32-bit reference machine from the same entry to the caller's return address, with the same result |
| Doubleword.DoublewordSums | librecomp/src/mips_interp.cpp:125-159 | The 64-bit sums and differences are exact modulo 2^64 |
| Doubleword.ShiftLeft | librecomp/src/mips_interp.cpp:129-137 | A 64-bit left shift moves the low bits up and clears the rest |
| Doubleword.ShiftRight | librecomp/src/mips_interp.cpp:129-137 | 64-bit right shifts divide the unsigned or the signed value, rounding down |
| Doubleword.UnsignedWord | librecomp/src/mips_interp.cpp:162-168 | lwu reads the big-endian word zero-extended, lw the same word sign-extended |
| Doubleword.FlagBranch | librecomp/src/mips_interp.cpp:371-392 | The coprocessor branches follow the condition flag, and their likely forms annul the delay slot |
| FragmentTier.FirstLive | librecomp/src/overlays.cpp:4013-4028 | The candidate chosen is the first whose code bytes are resident, and none is chosen only when there is none |
| FragmentTier.FirstHashed | librecomp/src/overlays.cpp:4103-4107 | The candidate updated is the first with the content hash, when there is one |
| FragmentHost.Host.RunShadowDiff | librecomp/src/overlays.cpp:3238-3285 | The snapshot, interpret, restore, run native, restore sequence leaves registers and RAM as the interpreter left them for any shard, and reports whether the shard agreed |
| FragmentHost.Host.FindLive | librecomp/src/overlays.cpp:4013-4028 | The lookup loop finds the first candidate whose code bytes are resident |
| FragmentHost.Host.ApplyOutcome | librecomp/src/overlays.cpp:3291-3324 | An outcome is applied to the candidate with that hash and to no other |
| FragmentHost.Host.LocateCandidate | librecomp/src/overlays.cpp:4005-4124 | Finding, creating, compiling and pinning a candidate, immediate or deferred, agrees with the specification |
| FragmentHost.Host.Trampoline | librecomp/src/overlays.cpp:3996-4177 | One dispatch miss, in place, is one step of the tier's specification |
| FragmentHost.CompareRegs | librecomp/src/overlays.cpp:3218-3228 | The comparison loop decides equality of r1..r31, the FPRs, hi and lo |
| FragmentRuns.UntrustedIsInterpreted | librecomp/src/overlays.cpp:4126-4177 | For every shard, however wrong, a dispatch that runs no promoted candidate leaves exactly the interpreter's result whenever the interpreter can run the code; a pinned candidate whose interpretation fails is interpreted again from the state the failure left |
| FragmentRuns.PinnedRetry | librecomp/src/overlays.cpp:4150-4170 | A dispatch whose first interpretation fails after changing a register: pinned, the candidate is interpreted again from there and counts as interpreted; still on trial, it is restored and the process aborts |
| FragmentRuns.TrustIsEarned | librecomp/src/overlays.cpp:4128-4134 | A trusted live candidate's own shard has agreed with the interpreter in a full budget of counted comparisons on end, with no device touch, and was compiled here when the candidate's stretch had the hash it has now |
| FragmentRuns.StreakAgrees | librecomp/src/overlays.cpp:3238-3324 | A streak of k is the last k comparisons of the code that count, in each of which this very shard left r1 to r31, the FPRs, hi, lo and RAM as the interpreter did, and the one before, if any, is not one |
| FragmentRuns.LocateKeeps | librecomp/src/overlays.cpp:4030-4124 | Creating, compiling or pinning a candidate keeps the tier's invariant and every shard already there |
| FragmentRuns.LocateExactly | librecomp/src/overlays.cpp:4030-4124 | Locating keeps the invariant, of which distinct hashes are a clause, if and only if no candidate of the chain has the hash of newly found code for another stretch |
| FragmentRuns.CollisionMisplacesTrust | librecomp/src/overlays.cpp:3297-3318 | Without that, a run in which a shard that only ever diverged runs live on the trust of another |
| FragmentRuns.StepKeeps | librecomp/src/overlays.cpp:3996-4177 | Every miss, and every rewrite of RAM and registers, keeps the invariant |
| FragmentRuns.RunKeeps | librecomp/src/overlays.cpp:3291-3324 | Over every run each candidate's pass count is min(budget, agreements of its shard since the last divergence), a device touch has pinned it, it keeps its shard, every live native run has been earned, and every other miss leaves the interpreter's result |
| FragmentRuns.RunGrows | librecomp/src/overlays.cpp:3303-3307 | Over every run no candidate is forgotten, re-keyed or unpinned |
| FragmentStretch.LiveCodeIsResident | librecomp/src/overlays.cpp:4005-4133 | The very bytes the shard of a live native run was compiled from are resident at the dispatch, when its candidate's stretch covers them and no two stretches collide |
| FragmentRuns.ReloadOk | librecomp/src/overlays.cpp:3093-3127 | Candidates reloaded from the manifest start untrusted, without duplicates or incomplete lines, and meet the invariant |
| FragmentRuns.EveryRunIsSafe | librecomp/src/overlays.cpp:3066-3131 | From start-up with any reloaded manifest, every run of misses and rewrites that keeps hashes distinct keeps all of the above |
| FragmentPromotion.TrialMiss | librecomp/src/overlays.cpp:4126-4150 | What a miss at the code of a shard on trial comes to, by the comparisons behind it alone: with a full streak the shard runs live and nothing else changes, short of it the shard is compared, and only its passes and, on a device touch, its pin change |
| FragmentPromotion.EarnedShardRuns | librecomp/src/overlays.cpp:4128-4134 | In every state that meets the invariant, a resident, unpinned candidate whose shard has a full budget of agreements on end runs live at the next miss |
| FragmentPromotion.CleanCodeIsPromoted | librecomp/src/overlays.cpp:4128-4140 | From any state that meets the invariant, after as many clean calls of its code as the budget, with guest state rewritten between them, a shard runs live at the next miss |
| FragmentPromotion.FoundCodeCompiled | librecomp/src/overlays.cpp:4030-4091 | Where no candidate is resident, code found (8 to 0x8000 bytes, whole words, inside RAM) gets a new candidate over exactly its bytes, with a shard compiled from them if it is a safe leaf the compiler accepts and native code is on, and a pin if it calls out |
| FragmentPromotion.NothingFound | librecomp/src/overlays.cpp:4030-4091 | Where no such code is found the tier is left as it was |
| FragmentPromotion.LateShardCompiled | librecomp/src/overlays.cpp:4092-4124 | A resident candidate without a shard is given one at the next miss under the same conditions, or pinned |
| FragmentPromotion.WithoutFloor | librecomp/src/overlays.cpp:4126-4177 | With the interpreter tier off, only pinned code and code on trial is still interpreted, and any other miss ends the process in the state it found |
| FragmentPromotion.ReloadHolds | librecomp/src/overlays.cpp:3093-3127 | After start-up the tier holds one untrusted candidate for the first complete manifest line of each address and hash, and nothing else |
| FragmentStretch.CoversExactly | librecomp/src/overlays.cpp:2529-2537 | A hash over one stretch tells what another holds, whatever is written to RAM, if and only if the other lies in it |
| FragmentStretch.LineExactly | librecomp/src/overlays.cpp:3110-3127 | The exact condition on a manifest line: while the bytes it watches are there so are those its shard was compiled from, if and only if its stretch covers whatever the compiler finds for it |
| FragmentStretch.LocateCovers | librecomp/src/overlays.cpp:4092-4109 | Locating keeps every candidate covering its shard's code if and only if a candidate given its shard late covers what is compiled then |
| FragmentStretch.EveryRunIsCovered | librecomp/src/overlays.cpp:3996-4177 | So over every run from any manifest, every live native run is of a shard whose code its candidate covers |
| FragmentStretch.LinesCoverRun | librecomp/src/overlays.cpp:3093-3127 | A manifest all of whose lines meet that condition gives only such runs |
| FragmentStretch.LineRunsStale | librecomp/src/overlays.cpp:3575-3640 | Two lines that do not meet it, one watching code next to its address and one watching too little of it, each with a run in which a shard runs live on code that has changed, though no hash collides |
| LoaderBooks.MisalignedLoad | librecomp/src/overlays.cpp:278-308 | A load writes the section's address entry if and only if the base is word aligned |
| LoaderBooks.EvictBooks | librecomp/src/overlays.cpp:1710-1732 | Eviction ends with no other loaded section meeting the new range and keeps the bookkeeping |
| LoaderBooks.RegisterBooks | librecomp/src/overlays.cpp:1738-1754 | Registering leaves one entry a section, the section at the asked base, and the address table right |
| LoaderBooks.LoadOverlaysBooks | librecomp/src/overlays.cpp:1678-1799 | A DMA, covering sections or chunks of one, keeps one entry a section and the address table right |
| LoaderBooks.UnloadRegionBooks | librecomp/src/overlays.cpp:1849-1887 | So does a region unload that does not exit |
| LoaderBooks.EvictAtBaseBooks | librecomp/src/overlays.cpp:1094-1184 | So does evicting the prior occupants of a fragment's base |
| LoaderBooks.PlaceBooks | librecomp/src/overlays.cpp:1094-1208 | So does placing a fragment, bound to a section or left unregistered |
| LoaderBooks.RunBooks | librecomp/src/overlays.cpp:1678-1918 | Over every run of DMA loads, unloads and fragment placements each section has at most one list entry and the table holds its runtime base if loaded and its link base otherwise |
| LoaderRanges.EvictApart | librecomp/src/overlays.cpp:1710-1732 | The eviction loop ends, with the loaded ranges apart from each other and from the new one |
| LoaderRanges.RegisterApart | librecomp/src/overlays.cpp:1738-1754 | Registering keeps loaded ranges pairwise apart |
| LoaderRanges.RunTidy | librecomp/src/overlays.cpp:1678-1889 | Over every run of DMA loads and unloads, whatever the link ranges are, no two loaded runtime ranges overlap |
| LoaderEntries.LoadOverlaysEntries | librecomp/src/overlays.cpp:1759-1799 | After a DMA every section it covers, and the one it starts inside of, is loaded at ram + (section ROM - rom); any other section is loaded exactly if and where it was before, unless it shares an address with one of those |
| LoaderEntries.RegisterEntries | librecomp/src/overlays.cpp:1738-1754 | Registering leaves the section at the base and, of the others, exactly those that share no address with it |
| LoaderEntries.EvictEntries | librecomp/src/overlays.cpp:1710-1732 | Eviction removes exactly the other sections that share an address with the range |
| LoaderEntries.UnloadEntries | librecomp/src/overlays.cpp:1805-1827 | Unloading a section removes its entry and no other |
| LoaderEntries.UnloadRegionEntries | librecomp/src/overlays.cpp:1849-1887 | Without wrap and within one half of the address space, a region unload exits exactly when it reaches a loaded section, its own end included, and does not hold all of it; otherwise exactly the sections reached are gone |
| LoaderEntries.EvictAtBaseEntries | librecomp/src/overlays.cpp:1094-1184 | Evicting prior occupants removes exactly the other sections loaded at the base |
| LoaderEntries.PlaceEntries | librecomp/src/overlays.cpp:1523-1616 | After a fragment is placed its own section is at the base, nothing else is there, and sections elsewhere are as they were |
| LoaderIndex.InstallAllIs | librecomp/src/overlays.cpp:968-984 | After a section's functions are installed an address maps to a function at that runtime or link offset, and every other address is as before |
| LoaderIndex.UninstallAllIs | librecomp/src/overlays.cpp:985-1000 | After they are erased exactly the covered addresses are gone |
| LoaderIndex.UnloadAtIndex | librecomp/src/overlays.cpp:1805-1827 | Releasing an entry, range erase included, removes from the map only what no other loaded section provides |
| LoaderIndex.LoadIndex | librecomp/src/overlays.cpp:518-538 | Loading adds exactly the section's functions at runtime and link addresses |
| LoaderIndex.RegisterGood | librecomp/src/overlays.cpp:1738-1754 | Registering keeps the map equal to the scan of the loaded sections |
| LoaderIndex.LoadOverlaysGood | librecomp/src/overlays.cpp:1678-1799 | So does a whole DMA load |
| LoaderFragments.RunGood | librecomp/src/overlays.cpp:1678-1918 | Over every run of DMA loads, unloads and fragment placements, each of which keeps the map in step, func_map sends a to f exactly when some loaded section has f at offset o with a = runtime base + o or a = link base + o |
| LoaderFragments.PlaceGood | librecomp/src/overlays.cpp:1523-1616 | Placing a fragment keeps the map in step if and only if the range of its earlier life holds no function of another loaded section, and holds every function of the section's own earlier place that the new place does not replace |
| LoaderFragments.EvictAtBaseGood | librecomp/src/overlays.cpp:1094-1184 | Evicting the prior occupants of a base keeps the map in step, without the range erase of an unload |
| LoaderFragments.EveryRunGood | librecomp/src/overlays.cpp:1678-1918 | So it does from start-up, when nothing is loaded and every address entry holds a link base |
| LoaderIndex.PlacedFunctions | librecomp/src/overlays.cpp:1523-1616 | After a fragment is bound at a base, an address its section covers runs its function, and no other address of its earlier live range, nor of a section it pushed out, maps anywhere |
| LoaderIndex.EvictedGone | librecomp/src/overlays.cpp:1094-1184 | Evicting a base's prior occupants leaves none of their function aliases |
| LoaderStreaming.ChunkIsRegister | librecomp/src/overlays.cpp:1759-1799 | A DMA of any part of a section registers that section at the implied base and touches no other |
| LoaderStreaming.RegisterAgain | librecomp/src/overlays.cpp:1738-1754 | Registering a section already in place changes nothing |
| LoaderStreaming.StreamIsOneLoad | librecomp/src/overlays.cpp:1678-1799 | Streaming a section in as consecutive chunk DMAs that partition its ROM range ends in the same loader state as one DMA of the whole section |
| LoaderStreaming.UnloadRegionIs | librecomp/src/overlays.cpp:1849-1887 | The process exits if and only if some touched section is covered only in part; otherwise exactly the touched sections are released and the rest keep their order |
| LoaderStreaming.EndingAtABaseExits | librecomp/src/overlays.cpp:1855-1865 | A region that ends exactly at a loaded section's base counts as touching it and exits |
| Loader.LowerBound | librecomp/src/overlays.cpp:1764-1767 | The binary search splits the table at the ROM address |
| Overlays.Overlays.SetSectionAddress | librecomp/src/overlays.cpp:278-308 | The guarded writer rejects misaligned values and writes one slot otherwise |
| Overlays.Overlays.EraseRange | librecomp/src/overlays.cpp:231-242 | The two loops erase exactly the keys in the range |
| Overlays.Overlays.LoadOverlay | librecomp/src/overlays.cpp:518-538 | In place, loading is the specified load |
| Overlays.Overlays.UnloadByIndex | librecomp/src/overlays.cpp:1805-1827 | In place, unloading is the specified unload |
| Overlays.Overlays.EvictOverlapping | librecomp/src/overlays.cpp:1710-1732 | The restart-after-eviction loop ends and is the specified eviction |
| Overlays.Overlays.RegisterIfNew | librecomp/src/overlays.cpp:1738-1754 | In place, registering is the specified registration |
| Overlays.Overlays.LoadOverlays | librecomp/src/overlays.cpp:1678-1799 | In place, a DMA load is the specified one |
| Overlays.Overlays.UnloadOverlays | librecomp/src/overlays.cpp:1849-1887 | The erase-while-iterating loop reports an exit, or leaves the specified state |
| Overlays.Overlays.EvictPriorAtBase | librecomp/src/overlays.cpp:1094-1184 | In place, evicting prior occupants is the specified eviction |
| Overlays.Overlays.RegisterFragment | librecomp/src/overlays.cpp:1094-1208 | In place, placing a fragment is the specified placement |
| ModDependencies.ReachableInside | librecomp/src/mods.cpp:1086-1118 | What one or more required dependencies lead to, by explicit paths, lies in every set closed under required dependencies |
| ModDependencies.ReachableUnion | librecomp/src/mods.cpp:1134-1160 | Reachability from a union of roots is the union of reachabilities, so roots may be walked in any order |
| ModDependencies.Walk | librecomp/src/mods.cpp:1086-1106 | The worklist walk ends on any graph, cycles included, and adds exactly the ids reachable from its root |
| ModDependencies.ModContext.EnableMod | librecomp/src/mods.cpp:1053-1188 | Every call keeps auto_enabled_mods equal to the ids reachable by one or more required edges from an enabled mod, incrementally or by rebuild, and changes the enabled set exactly when the call is accepted |
| ModDependencies.ModContext.Rebuild | librecomp/src/mods.cpp:1134-1160 | The from-scratch rebuild yields exactly the reachable ids whatever the iteration order |
| ModDependencies.ModContext.EnableConfigured | librecomp/src/mods.cpp:912-921 | Enabling new default mods and configured mods keeps the same invariant |
| ModDependencies.LastCallDecides | librecomp/src/mods.cpp:1053-1188 | After any calls a mod that may be toggled (known, and once a game is active both runtime-toggleable and for that game) is as the last call naming it says, and every other mod is as it was |
| ModDependencies.ConfiguredExactly | librecomp/src/mods.cpp:912-921 | A saved configuration enables exactly the mods that may be toggled and that it names, or that are new and enabled by default |
| OrderScan.Reposition | librecomp/src/mods.cpp:1421-1448 | Inserting and erasing while scanning ends, keeps the other mods' relative order, keeps one entry for a visible mod, and puts it in its view at min(index, n-1), or one short of the index where OrderScan.LandsAsAsked says so |
| OrderScan.LandsAsAsked | librecomp/src/mods.cpp:1427-1443 | A moved mod lands where it was asked to, or last, if and only if it does not move down inside the view past a next entry that the view does not show: erasing it makes the scan skip that entry |
| OrderScan.DownByOneStays | librecomp/src/mods.cpp:1427-1443 | Such a move: of three mods of which the view shows the first and the last, the first moved down by one stays first |
| OrderScan.OnlyEntry | librecomp/src/mods.cpp:1421-1448 | With one entry left, the mod's place and the others' order determine the whole list |
| ModOrder.InversePermutation | librecomp/src/mods.cpp:924-933 | On a permutation the rebuilt lookup is the inverse permutation |
| ModOrder.ModList.RebuildLookup | librecomp/src/mods.cpp:924-933 | The lookup holds each mod's last position, and nothing for a mod not listed |
| ModOrder.ModList.SetModIndex | librecomp/src/mods.cpp:1406-1459 | The list stays a permutation with an inverse lookup if and only if the view shows the mod, which is otherwise listed twice; in the view of every game the result is the list with the mod moved to min(index, n-1), and in any view that shows the mod its place there is the one OrderScan.Landing gives |
| ModOrder.SortedByIs | librecomp/src/mods.cpp:906-908 | Sorting by keys gives a permutation with increasing keys |
| ModOrder.KeyIs | librecomp/src/mods.cpp:893-903 | A mod's key is its index when the saved order does not name it and otherwise the last place naming it, beyond every index |
| ModOrder.ModList.LoadOrder | librecomp/src/mods.cpp:883-910 | New mods come first, by index, then the known ones in saved order, with an inverse lookup |
| HookRegen.Advance | librecomp/src/mods.cpp:1929-1941 | The cursor stops at the first relocation at or past the limit and skips only those before it |
| HookRegen.GatherRelocs | librecomp/src/mods.cpp:1926-1965 | The two scanning loops copy exactly the cursor's stretch of relocations |
| HookRegen.BuildRegenList | librecomp/src/mods.cpp:1804-1992 | The loop over sorted hooks is the specified pass, errors included |
| HookRegenProofs.Scan | librecomp/src/mods.cpp:1926-1965 | One function's two scans extend the copied relocations to exactly those inside some function hooked so far |
| HookRegenProofs.EnterFunctionIs | librecomp/src/mods.cpp:1879-1966 | Entering a function fails exactly when the hook itself names nothing hookable |
| HookRegenProofs.EarlierEnds | librecomp/src/mods.cpp:1820-1823 | For sorted hooks an earlier function ends where a later one begins |
| HookRegenProofs.SamePlace | librecomp/src/mods.cpp:1968-1986 | Only hooks on one function share its index, so no slot is overwritten |
| HookRegenLists.FirstErrorIs | librecomp/src/mods.cpp:1833-1911 | The reported error is that of the first hook that names nothing hookable |
| HookMarkers.RegenListIs | librecomp/src/mods.cpp:1804-1992 | For sorted hooks the pass fails exactly on the first bad hook and otherwise lists, section by section and in order, functions that are hooked and not diverted, each once with its host pointer, exactly the relocations inside some hooked function, each once, exactly the slots of the hooks not diverted, each on its own function, and the diverted hooks in order, if and only if no hook meets a marker for none-yet before another fault: as the first of a section at address 0xFFFFFFFF, or as the first of all at ROM 0xFFFFFFFF |
| HookMarkers.MarkerStep | librecomp/src/mods.cpp:1831-1985 | A hook that meets the marker, the first of its section at address 0xFFFFFFFF, is not looked up: its slot goes to the function before, or it follows the hook diverted before |
| HookMarkers.MarkerTakesSlot | librecomp/src/mods.cpp:1831-1985 | So of two hooks, on a function of one section and at the marker of another, the first loses its slot to the second |
| HookContext.BuildSection | librecomp/src/mods.cpp:1328-1398 | A section takes exactly its slice of functions and relocations, with rebased addresses |
| HookContext.BuildContext | librecomp/src/mods.cpp:1317-1402 | Every section and every function of the list is filled in once, as its slice says and with its words from the ROM, and the lookup by address holds exactly the functions at each address, in order |
| HookContext.OneSection | librecomp/src/mods.cpp:1331-1338 | Every function of the list lies in exactly one section's slice |
| HookContext.HookReachesItsFunction | librecomp/src/mods.cpp:1317-1402 | From hooks to context: each slot that is not diverted sits on the context function whose address and section are the hooked ones, found by that address and with the hooked function's host pointer; its ROM address is the section's plus the hooked offset, and its words are the host-order words of the ROM bytes there, up to the function's size |
| HookContext.SectionRelocs | librecomp/src/mods.cpp:1378-1399 | The relocations of a context section are, in order, those of the original section that lie inside its hooked functions, each at its loaded address with its target and kind, and with the event number as symbol for event references |
| ModLayout.FirstPlace | librecomp/src/mods.cpp:2222-2247 | The first placed section is where the mod is loaded, fixed ones keep their address, and a mod that places none takes no room |
| ModLayout.NextPlace | librecomp/src/mods.cpp:2222-2247 | Each next placed section, and the end of the mod, is 0x400 bytes past the end of the one before rounded up to the next multiple of 16 |
| ModLayout.SectionsApart | librecomp/src/mods.cpp:2222-2247 | Placed sections of a mod, data and bss, end at least 0x400 bytes before the next begins, inside the mod's span |
| ModLayout.ModSectionsApart | librecomp/src/mods.cpp:1680-1699 | Placed sections of all loaded mods are pairwise apart by at least 0x400 bytes |
| ModLoad.ApplyIs | librecomp/src/mods.cpp:2249-2272 | The relocating pass moves each listed word once by its target's displacement and changes no other byte |
| ModLoad.OffsetKept | librecomp/src/mods.cpp:2261-2271 | A moved word keeps its offset from its target's base modulo 2^32 |
| ModCopy.PlaceSections | librecomp/src/mods.cpp:2215-2247 | The copying pass puts every section's data and cleared bss at its address and touches nothing outside the mod's span |
| ModCode.RelocateWords | librecomp/src/mods.cpp:2249-2273 | The nested loops succeed exactly when every word relocation against the mod itself has a section for target, and then have moved each such word once |
| ModCode.InitModCode | librecomp/src/mods.cpp:2212-2273 | Success is equivalent to every R_MIPS_32 relocation without a reference symbol having a section of the mod for target; then each such word in a placed section is as far from its target's loaded base as the binary's word from its linked base, every other byte of a placed section is the binary's or zero, such words outside the mod's span have moved from what they were, and no other byte has changed |
| ModCode.LoadCodeMods | librecomp/src/mods.cpp:1680-1703 | Success is equivalent to that for every mod; then every section of every mod still stands as just said, whatever was loaded after it, and the reserved size is exact |
| ModWords.WordKeepsOffset | librecomp/src/mods.cpp:2249-2272 | In a loaded mod each local word of a placed section has the same offset, modulo 2^32, from its target's loaded base as the binary's word had from the original base |
| ModWords.OutsideKeepsOffset | librecomp/src/mods.cpp:2249-2272 | So does each local word outside the mod's span, such as one of a fixed section, measured from what it held before the load |
| ModWords.LoadsExactly | librecomp/src/mods.cpp:2255-2258 | The words applied are exactly the R_MIPS_32 relocations without a reference symbol: a mod loads if and only if each of them has a section of the mod for target |
| ModWords.InitialisedExactly | librecomp/src/mods.cpp:2212-2273 | What the loaded memory holds, relocation by relocation and byte by byte: relocated words follow their targets and every other byte is the binary's, zero, or as it was |
| ModCode.StrayWord | librecomp/src/mods.cpp:2249-2272 | A relocation of another mod into a placed section leaves that section as placed only if it moves nothing |
| DataCrc.StepIs | librecomp/src/si_joybus.cpp:46-52 | Although the accumulator is never masked, its low byte moves as an 8-bit register of its own |
| DataCrc.ComputeCrc | librecomp/src/si_joybus.cpp:42-55 | The nested loops compute the specified CRC |
| DataCrc.RemainderUnique | librecomp/src/si_joybus.cpp:42-55 | A polynomial leaves one remainder below degree 8 modulo x^8+x^7+x^2+1 |
| DataCrc.CrcIsRemainder | librecomp/src/si_joybus.cpp:42-55 | For every block the CRC is M(x)·x^8 modulo x^8+x^7+x^2+1 over GF(2) |
| DataCrc.CrcLinear | librecomp/src/si_joybus.cpp:42-55 | The CRC of an exclusive or is the exclusive or of the CRCs |
| DataCrc.BurstDetected | librecomp/src/si_joybus.cpp:42-55 | Blocks differing in one bit, or within eight consecutive bits, have different CRCs |
| DataCrc.ValueInjective | librecomp/src/si_joybus.cpp:54-54 | Distinct registers are distinct CRC bytes |
| TransferPakRuns.RunOk | librecomp/src/gbcart.cpp:196-370 | Over every sequence of block reads and writes the bank register stays at most 3, the reset state never reaches 3, and the low ROM bank of MBC1 and MBC3 is never 0 |
| TransferPakRuns.SwitchedBank | librecomp/src/gbcart.cpp:148-161 | The switchable window of MBC1 and MBC3 never shows bank 0, and MBC5 stays within nine bits |
| TransferPakRuns.Mbc5Bank | librecomp/src/gbcart.cpp:218-225 | The two MBC5 registers set all nine bank bits in either order |
| TransferPakRuns.BusAddressIs | librecomp/src/gbcart.cpp:317-320 | With four banks a window address never wraps the bus |
| TransferPakRuns.BusAddressOnce | librecomp/src/gbcart.cpp:317-320 | Each bus address is reached from exactly one bank and one place in the window |
| TransferPakRuns.Written | librecomp/src/gbcart.cpp:251-257 | Writing n bytes of a block to RAM splices them in, marks the cartridge dirty exactly when RAM changed, and changes nothing else |
| TransferPakRuns.RoundTrip | librecomp/src/gbcart.cpp:457-526 | A block written to cartridge RAM reads back the same 32 bytes, and no other RAM byte, register or port differs |
| TransferPakRuns.StatusRead | librecomp/src/gbcart.cpp:474-478 | A status read shows the reset state in all 32 bytes and advances it once |
| TransferPakRuns.StatusWhileOn | librecomp/src/gbcart.cpp:286-301 | While the cartridge is enabled any number of status reads show 0x08 set and 0x04 clear |
| TransferPakRuns.ResetHandshake | librecomp/src/gbcart.cpp:286-359 | After it is disabled three status reads show 0x08, then 0x04, then neither, and neither from then on |
| TransferPakBanks.WindowBlock | librecomp/src/gbcart.cpp:303-324 | A block of the window is 32 consecutive bytes of the cartridge's bus, from 0x4000 times the bank on |
| TransferPakBanks.RomBlock | librecomp/src/gbcart.cpp:170-188 | The byte each ROM window shows, block by block: that of the fixed or selected bank, banks past the last repeating from the first and open bus reading 0xFF |
| TransferPakBanks.SelectMbc1 | librecomp/src/gbcart.cpp:196-248 | MBC1's low, high and mode registers, written in either order, select the banks at 0x4000 and at 0, a low part of 0 counting as 1 |
| TransferPakBanks.SelectMbc3 | librecomp/src/gbcart.cpp:226-231 | MBC3's seven bits select the bank at 0x4000, 0 counting as 1 |
| TransferPakBanks.SelectMbc5 | librecomp/src/gbcart.cpp:216-225 | MBC5's two registers select one of 512 banks in either order, bank 0 included |
| TransferPakBanks.RamGate | librecomp/src/gbcart.cpp:206-209 | RAM opens on a write ending in 0xA below 0x2000 and closes on any other; closed it reads 0xFF and takes no write |
| TransferPakBanks.SelectRam | librecomp/src/gbcart.cpp:163-168 | Which RAM byte an address shows after a write to the RAM bank register, for each controller |
| TransferPakBanks.RomOnlyRamUnread | librecomp/src/gbcart.cpp:196-206 | A cartridge without a controller takes RAM writes but has no register to open its RAM, so over any writes it reads 0xFF there |
| TransferPakBanks.PowerRegister | librecomp/src/gbcart.cpp:303-340 | 0x84 turns the accessory on and 0xFE off, and the register reads 0x84 while on and 0 while off |
| TransferPakBanks.BankRegister | librecomp/src/gbcart.cpp:344-347 | The bank register reads back 0 to 3 and takes any other value as 0 |
| TransferPakBanks.StatusRegister | librecomp/src/gbcart.cpp:286-359 | A status write enables the cartridge by bit 0 and resets it if it was not; the status byte shows it, the missing cartridge and the power, and no other bit |
| TransferPak.BlockFits | librecomp/src/gbcart.cpp:473-473 | A block lies within one mask period, so byte addresses inside it never wrap |
| GbCart.DataEnd | librecomp/src/gbcart.cpp:97-110 | Where the trailing zeroes of a ROM begin |
| GbCart.OpenBusStart | librecomp/src/gbcart.cpp:88-110 | Open bus begins where at least a whole bank of trailing zeroes does; a ROM with a nonzero byte in its last bank, or none at all, has none |
| GbCart.FindOpenBus | librecomp/src/gbcart.cpp:88-110 | The backward scan finds the start of open bus |
| GbCart.Cartridge.Load | librecomp/src/gbcart.cpp:77-137 | Loading accepts exactly supported ROMs of at least 0x150 bytes and pads short saves with 0xFF |
| GbCart.Cartridge.Read | librecomp/src/gbcart.cpp:170-194 | Reading is the specified bus read |
| GbCart.Cartridge.Write | librecomp/src/gbcart.cpp:196-258 | Writing updates bank registers and RAM as specified, and the save setting is kept |
| GbCart.Cartridge.FlushSave | librecomp/src/gbcart.cpp:260-276 | The dirty mark clears exactly when there is a save file and it was written |
| GbCart.PakPort.Status | librecomp/src/gbcart.cpp:286-301 | The status register's value and its advance |
| GbCart.PakPort.Read | librecomp/src/gbcart.cpp:303-324 | Accessory reads are the specified ones |
| GbCart.PakPort.Write | librecomp/src/gbcart.cpp:326-369 | Accessory writes are the specified ones |
| GbCart.GbCart.SetCart | librecomp/src/gbcart.cpp:426-441 | Configuring a port resets it, meets the invariants and leaves the other ports alone |
| GbCart.GbCart.ReadBlock | librecomp/src/gbcart.cpp:457-500 | Error codes, the 32 bytes and the new port state are the specified ones, and the other ports are unchanged |
| GbCart.GbCart.WriteBlock | librecomp/src/gbcart.cpp:502-527 | The same for writes, the save flush included |
| JoybusFrames.RespondChanges | librecomp/src/si_joybus.cpp:106-153 | Answering a frame changes only its response area and the no-device bit of its receive size |
| JoybusFrames.ProcessIs | librecomp/src/si_joybus.cpp:90-163 | For every block only response areas and no-device bits change, and the answered block parses to the same frames on the same channels |
| JoybusFrames.FramesInOrder | librecomp/src/si_joybus.cpp:90-163 | Frames and channels strictly increase and every frame ends inside the block |
| JoybusFrames.Answered | librecomp/src/si_joybus.cpp:106-153 | Each frame on one of the four channels ends up holding the answer it was given, which no later frame disturbs |
| JoybusFrames.WriteThenRead | librecomp/src/si_joybus.cpp:117-146 | A block written to cartridge RAM over the joybus and read back over it is the same 32 bytes, closed by the CRC that answered the write |
| JoybusFrames.LayoutParses | librecomp/src/si_joybus.cpp:90-108 | A block laid out from skipped channels, pads, channel resets and commands, and ended by 0xFE, parses to one frame for each command, at its place and on the channel that skips and commands count |
| JoybusFrames.InfoReply | librecomp/src/si_joybus.cpp:109-116 | INFO is answered with controller type 0x0500 and whether the channel has a cartridge, when there is room for three bytes, and nothing else changes |
| JoybusFrames.StateReply | librecomp/src/si_joybus.cpp:143-148 | STATE is answered with zeroes over its whole response area, and unknown commands change nothing |
| JoybusFrames.ReadReply | librecomp/src/si_joybus.cpp:117-129 | READ is answered with the 32 bytes of the block addressed and their CRC, or by the no-device bit alone |
| JoybusFrames.WriteReply | librecomp/src/si_joybus.cpp:130-152 | WRITE hands the 32 bytes sent to the block addressed of the frame's own port and is answered with their CRC, or by the no-device bit alone |
| JoybusFrames.DeviceReplies | librecomp/src/si_joybus.cpp:90-163 | Whatever else a block asks for, every INFO frame ends up with the type and the presence of its channel's cartridge, and every STATE frame idle |
| JoybusHost.Answer | librecomp/src/si_joybus.cpp:106-153 | Answering in place through the cartridge model is the specified answer |
| JoybusHost.RunBlock | librecomp/src/si_joybus.cpp:90-163 | The loop ends, with position strictly increasing, in the specified block and ports |
| JoybusHost.RunJoybus | librecomp/src/si_joybus.cpp:79-171 | The 64 guest bytes end as the specified block, the ports as its frames leave them, and no other guest byte changes |
| Rdram.StoreFrame | librecomp/src/audio_uaf_protect.cpp:79-84 | A big-endian store through the swapped layout changes the four bytes it names, big-endian, and no other |
| Rdram.NativeIsBigEndian | librecomp/src/audio_uaf_protect.cpp:60-84 | On word boundaries a host-native access is the big-endian word of the swapped bytes |
| AudioSilence.WalkInPlace | librecomp/src/audio_uaf_protect.cpp:100-117 | The bounded list walk, storing as it goes, is the specified walk |
| AudioSilence.SilenceVoicesInRange | librecomp/src/audio_uaf_protect.cpp:492-525 | -1 without a synth, nothing for an empty range, otherwise both lists silenced in turn |
| AudioSilence.SilenceAllVoices | librecomp/src/audio_uaf_protect.cpp:527-545 | The same for every voice |
| AudioVoices.CircularNodes | librecomp/src/audio_uaf_protect.cpp:100-117 | A circular list no longer than the cap is walked from end to end |
| AudioVoices.WalkIs | librecomp/src/audio_uaf_protect.cpp:100-117 | Whatever the list, with disjoint fields a walk stores into exactly the chosen ones of the nodes it visits, as memory was before it began |
| AudioVoices.SilenceIs | librecomp/src/audio_uaf_protect.cpp:508-516 | Both walks together stop the chosen voices of both lists as they stood at first, skipped lists and caps included |
| AudioVoices.SilencesExactly | librecomp/src/audio_uaf_protect.cpp:492-525 | On two circular lists within the cap every chosen voice is stopped, their number is returned, and no byte outside their stop words changes |
| AudioVoices.RangeSilenced | librecomp/src/audio_uaf_protect.cpp:492-525 | Silencing a range stops exactly the voices whose table pointer is at or past its start and before its end, returns their number, and changes no other byte |
| AudioVoices.AllSilenced | librecomp/src/audio_uaf_protect.cpp:527-545 | Silencing all stops every voice of both lists, returns their number, and changes no other byte |

## Left out

- Floating point, doubleword and unaligned accesses of the interpreter: one host-supplied extension stands for them, and nothing is proved of it beyond its being no control transfer.
- Exceptions: the runtime has none, so COP0, traps and overflow do nothing in the interpreter. The reference machine has no COP0 instruction, and no step where the architecture traps, overflows or refuses an unaligned address; interrupts are left out.
- Address translation: every address is taken to the mapped block by its low 29 bits, as in the unmapped segments.
- recomp.h is not part of this model: the MEM_* macros are modelled from the interpreter's comments, as host-native words with swapped halves and bytes.
- Division of the most negative word by -1, which the C++ leaves undefined: the interpreter model gives it no outcome.
- Interpreter.Host.Run: bounded by fuel, because the source may loop forever; Interpreter.MoreFuel shows the bound changes nothing else.
- NativeCalls.InterpretEnds: takes a recompiled function for one step, a state transformer; what it calls back into is left out.
- LoaderEntries.LoadOverlaysEntries: assumes a table in ROM order without empty sections, and neither the ROM range of the DMA nor the bases it asks for wrapping round.
- FragmentRuns.RunKeeps: assumes, at each miss that finds new code, that no candidate of that chain has its hash for another stretch, as a collision or a manifest line that watches a copy of the code elsewhere could; FragmentRuns.CollisionMisplacesTrust is a run without it.
- FragmentStretch.LinesCoverRun: assumes that code found once and met again by its hash is not found to be longer. The JSON form of the manifest is left out.
- The compiler, bounds discovery and leaf scan of fragments: parameters. The tier is taken as switched on and entered from outside a comparison. Locks, threads, watchdogs and counters are left out, so a chain that another thread changes during a comparison is not covered.
- LoaderFragments.RunGood: assumes link ranges apart from each other and from runtime ranges, except a section loaded at its own link base, functions inside their sections and at distinct offsets, and fragments placed apart from other loaded ranges.
- Pattern-section aliases, trampoline slots, the trampoline scanner and its pending list, synthetic fragments, load_overlay_by_id and patch functions of the loader.
- Content callbacks fired by enable_mod, the save thread, and everything in mods that reads files, JSON or dynamic libraries.
- HookMarkers.RegenListIs: assumes hooks sorted with distinct definitions, no section at ROM 0xFFFFFFFF, relocations sorted by offset, and functions apart inside their sections.
- HookContext.BuildContext: the generated names are left out.
- ModCode.LoadCodeMods: assumes each relocated word lies in its own mod's span or outside all of them (ModCode.StrayWord), on a word boundary and named once; symbol parsing, exports and events before the layout are left out.
- Save-file contents and the diagnostic ring of the Transfer Pak; whether a save file could be written is a parameter.
- Joybus.Process: a frame whose command would read past the 64-byte block ends the run, where the source would read past its buffer.
- The secondary voice table and the diagnostic ring of the audio module.
- AudioVoices.WalkIs: assumes stop words apart from links and table pointers.
