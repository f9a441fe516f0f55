# DSperate: verified cores

Dafny models of the parts of the DSperate emulator where a fast form has to agree with a slow one, or
where one routine has to undo another, with proofs that they do. `dafny verify dfyconfig.toml` checks
everything. Code that updates state step by step is modelled by methods and classes that do so, each
proved against a specification function; what the code is for is then proved about that function.

| Modules | What they model |
|---|---|
| Basics | Options, powers of two, a few facts of integer arithmetic |
| BlzFormat, BlzEncoder, BlzDecoder, BlzProofs, BlzCodec, BlzLimits, BlzExample | The DSi's backwards LZ: hash-chain encoder, flag-byte token stream, in-place cut, decoder, in-place check |
| DmaCost, Dma, DmaChannel, DmaSlices, DmaBursts, DmaCharges | DMA channels: burst tables, what a unit costs in numbers, closed-form run cost, budget cut, block copies, budget slices |
| LazyJournal, LazyRegs, LazyLog | The write journal of a 2D engine, its replay when lines are drawn late, and what each line is drawn from |
| LazyFrame | Which engine draws which line when: batches, trapped stores, bursts, catch-ups, lag lines, deferred batches |
| LazyStores | Which stores each line drawn late has seen |
| CheatJournal, CheatCarry, CheatEngine, CheatHistory, CheatClash, CheatOrder | Undoing Action Replay codes over any history of frames and save states |
| PuMap, PuUnit, PuCover | The protection unit's cacheability map, repainted incrementally |
| IdleLoop, IdleArm, IdleCheck, IdleLimits, IdleScan | The dataflow scan that lets a polling loop be skipped, the instructions it scans as the processor runs them, and the re-check of its loads |
| RomSource, Key1, SecureArea, CartKey1, KeyLaws | The cartridge image with its page overlay, the KEY1 cipher, the secure-area rewrite and its way back |
| AesTables, AesField, Aes, AesState, AesLaws, AesKeys, AesCtr, AesStream | Software AES-128 (FIPS 197), its key schedule and its counter mode |
| Checksum, DnsRewrite | Incremental Internet checksums (RFC 1624) behind the DNS redirection |
| SpriteLists, Bilinear, WaitLoop | Per-line sprite lists, bilinear row ownership, the BIOS wait loop |

How the pieces are represented: bytes of the LZ stream and of network frames are integers below 256;
bytes and words of the ciphers are bit vectors. Two functions that are costly to unfold, the KEY1 block
cipher in its key schedule and the AES block cipher in counter mode, are passed as function values; the
latter is then given AES under any round keys. DMA addresses count units (words or halfwords) of one flat
memory; the timing table, page tables and burst tables are functions. Register semantics in the journal (`apply`, `update_windows`,
`pre_draw`, `post_draw`) and instruction semantics in the idle-loop proof are arbitrary functions, so
the results hold whatever those do. Whether a worker thread is asleep, whether engine B has a worker
of its own, and every guest access are parameters of the events they occur in.

## Where the code does less than it promises

Each of these is a lemma, with the exact condition where there is one.

- The LZ footer keeps 24 bits of the compressed length. Past 16 MB the decoder takes compressed bytes for
  plain ones, and the round trip holds only if they happen to equal the input's (`RoundTripExactly`); runs
  of 150 million to 2.4 thousand million zeros do not come back (`LongRunFails`).
- A DMA run walks the burst table in force cyclically while the per-unit rule chooses the table anew at
  each wrap: they agree if and only if that is the same table (`CyclicWalkExact`, `FastRunExact`), and on
  a transfer that enters another timing block in mid-burst it is not (`CrossingDiffers`).
- A VRAM store charged to both 2D engines, one of them out of burst budget, leaves that engine batching
  with lines due (`StoreCatchesUp`, `OvertakenStore`); a remap under a line in flight leads to such a
  store (`OvertakenRun`). A switch to VRAM display while a batch is deferred re-arms the trap without the
  window the batch reads, unless it is engine A's alone in a lag frame (`FallBack`, `UnguardedRun`).
- Loading the cheat journal beside a reordered code list gives the memory of a run with no save, whatever
  the codes store, if and only if the enabled codes keep their order (`OrderExact`): two codes that share
  a byte differ otherwise (`OrderNeeded`). Codes that always store to bytes of their own may come in any
  order (`SeparateRunAlike`).
- Switching the codes off restores memory after any history of frames (`Frames`). After a save and a load
  it does if and only if no two codes of one hash that the loaded list enables name the same byte
  (`SettledExact`, `OffAfterLoad`), which can be read off the journal at the save (`ApartAtSave`): the
  loaded journal lists the code found for that hash twice, and no frame takes both away
  (`SharedHashStays`).
- The idle-loop scan takes a predicated write for a certain one, does not see `mrs` or a rotate through
  carry read the flags, and takes every flag write for a write of all flags. Each alone lets a loop through
  that carries state (`PredicatedWriteFools`, `FlagReadFools`, `RotateFools`, `PartialWriteFools`). Its
  re-check of a load looks at another address than the load's if the body writes the base register again
  after the load (`CheckedExactly`, `ReusedBaseFools`).
- A patched UDP checksum can come out as zero, which the way back takes for "no checksum"
  (`FrameOutAndBack`, `UdpZeroExample`).
- The BIOS wait loop is skipped with budget at every boundary unless the branch refill is free and the
  budget comes out even (`BudgetLasts`). The fast timing model's refill costs two cycles; only its tuning
  variable `DS_FAST` can make it free (src/core/cpu/cpu.cpp:15-20).

## Model

| member | source | states |
|---|---|---|
| BlzProofs.RoundTrip | tools/make_dsi_font.py:247-337 | Decoding what the encoder packed gives the input back, for every input it accepts whose compressed length fits the footer's 24 bits. |
| BlzProofs.RoundTripSmall | tools/make_dsi_font.py:247-337 | The same with a condition on the input alone: every accepted input of up to 16 MB survives the round trip. |
| BlzProofs.RoundTripExactly | tools/make_dsi_font.py:247-337 | For every accepted input, of any size: the round trip holds if and only if the packed file and the input agree up to where the truncated 24-bit field puts the end of the plain head. |
| BlzLimits.LongRunFails | tools/make_dsi_font.py:247-337 | A family of accepted inputs that do not come back: a run of 3 + 18 c zeros decodes to something else, for every c from 0x80_0000 to 0x800_0000, that is for lengths from 150 million to 2.4 thousand million. |
| BlzProofs.DecodeEncoded | tools/make_dsi_font.py:247-337 | For every accepted input the decoder succeeds and yields the packed file's own bytes up to the head it finds in the footer, and the input's bytes from there on. |
| BlzProofs.EncodedChecks | tools/make_dsi_font.py:318-361 | Every file the encoder writes passes the in-place check. |
| BlzProofs.InPlaceRoundTrip | tools/make_dsi_font.py:273-361 | Every accepted input whose compressed length fits its 24 bits decompresses to itself in one buffer that unread compressed bytes and output share. |
| BlzDecoder.CheckIsSound | tools/make_dsi_font.py:247-361 | What the in-place check is for, over any file, not only the encoder's: if the file decodes and the check accepts it, decoding inside one buffer gives what decoding into a second buffer gives. |
| BlzDecoder.CheckFollows | tools/make_dsi_font.py:351-361 | The check moves its two pointers exactly as the decoder does, and stops with false at the first token end where the writer is below the reader. |
| BlzDecoder.CopyTogether | tools/make_dsi_font.py:263-269 | A copy whose output stays at or above the unread input produces the same bytes in the shared buffer and in the separate one. |
| BlzExample.KnownFile | tools/make_dsi_font.py:247-270 | A file byte by byte, footer, flag byte, four literals, a copy from four above and a plain head: what it decodes to. |
| BlzProofs.RunFills | tools/make_dsi_font.py:258-270 | From any token boundary of a stream that can be read, the decoder fills the output down to the head with the input's bytes, changes nothing below it and stops, even inside a flag group cut short. |
| BlzProofs.CheckPasses | tools/make_dsi_font.py:351-361 | Up to a cut at the largest slack, every token end leaves the write position at or above the read position. |
| BlzProofs.FooterReads | tools/make_dsi_font.py:249-254 | The header read from a packed file is the growth, the footer length and the compressed length modulo 2^24. |
| BlzProofs.CopyFills | tools/make_dsi_font.py:263-269 | A copy at any distance, overlapping itself or clipped at the head, continues the reversed input by as many bytes as it writes. |
| BlzFormat.SetBitOnly | tools/make_dsi_font.py:289-306 | Or-ing a lane's bit into a flag byte sets that lane and leaves the seven others as they were. |
| BlzFormat.StreamReads | tools/make_dsi_font.py:284-318 | A reader of the stream finds every token at its place with its own flag bit, and the lanes after the last token of an unfinished group are clear. |
| BlzFormat.ReadsPrefix | tools/make_dsi_font.py:326-330 | Cutting the stream at any token end keeps every token before it readable, flag bits of later tokens in the last flag byte notwithstanding. |
| BlzEncoder.ChainSound | tools/make_dsi_font.py:287-292 | Every position a chain holds starts with the key, lies before the current one, and the chain is ascending. |
| BlzEncoder.ChainComplete | tools/make_dsi_font.py:310-315 | An earlier occurrence of the key missing from its chain is older than all sixteen in it. |
| BlzEncoder.ScanSound | tools/make_dsi_font.py:287-303 | The match the scan returns is genuine: its bytes equal those it refers to, one by one, also where it overlaps itself. |
| BlzEncoder.ScanLongest | tools/make_dsi_font.py:290-303 | Neither early exit of the scan loses anything: the result is at least as long as any candidate in reach, and nearest among the longest. |
| BlzEncoder.Choose | tools/make_dsi_font.py:287-309 | The greedy choice reproduces the input bytes it stands for. |
| BlzEncoder.ChooseLongest | tools/make_dsi_font.py:287-309 | A copy is chosen as soon as one of the sixteen latest occurrences is in reach; none of them matches further, and none that matches as far is nearer. |
| BlzEncoder.Tokens | tools/make_dsi_font.py:284-318 | The tokens are the greedy choices where they stand and cover the input exactly. |
| BlzEncoder.Cut | tools/make_dsi_font.py:321-326 | The cut is the last token end at which consumed minus written is largest. |
| BlzEncoder.FooterLen | tools/make_dsi_font.py:332 | The footer holds its eight bytes and pads the file to a multiple of four. |
| BlzCodec.Register | tools/make_dsi_font.py:310-315 | After the update loop the dictionary holds, for each key, the chain of its latest sixteen positions. |
| BlzCodec.LookupChain | tools/make_dsi_font.py:287-290 | A dictionary lookup is the chain of positions at which the key occurs. |
| BlzCodec.MatchLength | tools/make_dsi_font.py:296-298 | The match loop runs to the first difference, the end of the input or eighteen bytes, whichever comes first. |
| BlzCodec.BestMatch | tools/make_dsi_font.py:290-303 | The chain loop with its break and continue returns the scan's best match. |
| BlzCodec.FindMatch | tools/make_dsi_font.py:287-303 | The match found decides exactly the greedy token at this position. |
| BlzCodec.EncodeTokens | tools/make_dsi_font.py:281-318 | The encoder's loop produces the stream of the greedy parse and the input and output marks at its token ends. |
| BlzCodec.FindCut | tools/make_dsi_font.py:321-326 | The scan over the marks finds the cut. |
| BlzCodec.BlzEncode | tools/make_dsi_font.py:273-337 | The encoder as written returns the specified result for every input: packed, refused as incompressible, or failing on a 32-bit field, in the code's order. |
| BlzCodec.DecodeToken | tools/make_dsi_font.py:258-269 | One turn of the decoder's loop on its output array is one step of the specified decoder, or fails where it fails; a negative index counts as a failure. |
| BlzCodec.CopyLoop | tools/make_dsi_font.py:266-269 | The inner copy loop, byte by byte and downwards in place. |
| BlzCodec.BlzDecode | tools/make_dsi_font.py:247-270 | The decoder as written returns the specified result for every byte string, files with no growth field too short for a footer included; a negative index counts as a failure. |
| BlzCodec.CheckLoop | tools/make_dsi_font.py:340-361 | The in-place check as written returns the specified verdict for every byte string; a negative index counts as a failure. |
| DmaCost.Make | src/core/dma/dma.cpp:22-29 | Building a burst table from its run-length list gives the pattern, cut to 255 entries, and its running sums. |
| DmaCost.BulkIsWalk | src/core/dma/dma.cpp:182-200 | For every table, start position and number of units, the closed form gives the summed cost and the end position of that many cyclic steps. |
| DmaCost.Cut | src/core/dma/dma.cpp:275-291 | The budget cut is the largest number of units whose payments after the first leave the budget unspent; no larger number up to the run's length does. |
| DmaCharges.Read16Period | src/core/dma/dma.cpp:31 | Halfwords out of main RAM cost 7, 3 and then 2 each, the same again after 119 of them, over a period of 240. |
| DmaCharges.Read32N2Period | src/core/dma/dma.cpp:32 | Words out of main RAM to a region of two-cycle accesses: 9, 4, 77 times 3, and 9. |
| DmaCharges.Read32Period | src/core/dma/dma.cpp:33 | Words out of main RAM to another region: 9, 3, and 116 times 2. |
| DmaCharges.Write16Period | src/core/dma/dma.cpp:34 | Halfwords into main RAM: 8, and 119 times 2. |
| DmaCharges.Write32N2Period | src/core/dma/dma.cpp:35 | Words into main RAM from a region of two-cycle accesses: 9, and 59 times 4. |
| DmaCharges.Write32Period | src/core/dma/dma.cpp:36 | Words into main RAM from another region: 9, and 79 times 3. |
| DmaCharges.WalkIsCyclic | src/core/dma/dma.cpp:182-200 | A walk from a table's start pays entry k modulo the period for its unit k. |
| DmaCharges.MainToMain | src/core/dma/dma.cpp:152-153 | A unit between two ends in main RAM costs 18 cycles a word and 16 a halfword, in every configuration and state. |
| DmaCharges.OutOfMain | src/core/dma/dma.cpp:161-162 | A unit out of main RAM downwards or standing still: 9 a word and 8 a halfword, in the last unit of a 32-byte line 8, or 7 to a region of two-cycle accesses, and 7, and the other end's first or sequential access. |
| DmaCharges.IntoMain | src/core/dma/dma.cpp:164-172 | A unit into main RAM downwards or standing still: the other end's access and 8 a word or 7 a halfword. |
| DmaCharges.BesidesMain | src/core/dma/dma.cpp:173-174 | A unit that does not touch main RAM: within one region both first accesses and one cycle, otherwise both accesses, first or sequential. |
| DmaCharges.Streamed | src/core/dma/dma.cpp:154-171 | A unit upwards out of main RAM or into it: the next entry of the table in force, or at the start of a burst and at a table's end the first entry of the table for direction, width and the other end's first access. |
| Dma.RealTables | src/core/dma/dma.cpp:18-36 | The seven tables of the code meet what the proofs ask of tables: well-formed, only the dummy empty, every other at least three entries long. |
| Dma.SameBlock | src/core/dma/dma.cpp:177-202 | The units left in a page share one timing block, so one cost holds for a whole run. |
| Dma.CopyUpIsBlock | src/core/dma/dma.cpp:296 | Unit-by-unit copying upwards between ranges that are apart is one block copy. |
| Dma.PayingFits | src/core/dma/dma.cpp:134-175 | Paying for a unit leaves in force the table a wrap would select, if every burst of the transfer selects one table. |
| Dma.RunStep | src/core/dma/dma.cpp:182-201 | One more unit of the plain loop advances the closed form by one unit. |
| Dma.RunIsPlain | src/core/dma/dma.cpp:277-302 | A run of affordable units taken at once leaves the plain loop where the closed form says: addresses, counters, burst position, cycles and memory. |
| Dma.ShiftExact | src/core/dma/dma.cpp:252-296 | Two ends that count up at a fixed distance: no run, which stays within a page at both ends, overlaps itself if and only if the distance is half a page or more. |
| Dma.FarIsApart | src/core/dma/dma.cpp:252-296 | A transfer between ranges that share no unit, or half a page or more apart, has no run that overlaps itself. |
| DmaChannel.Channel.constructor | src/core/dma/dma.cpp:83-104 | A channel started, or started again with units left, has all of them to do and no burst under way. |
| DmaChannel.Channel.RefillTiming | src/core/dma/dma.cpp:140-149 | The cached timing of the two ends is the table's timing of the blocks they are in. |
| DmaChannel.Channel.PayUnit | src/core/dma/dma.cpp:134-175 | Paying for a unit through the timing cache costs, and leaves the burst table and position, as the uncached rule says. |
| DmaChannel.Channel.CopyBlock | src/core/dma/dma.cpp:296 | The block copy leaves memory as copying unit by unit would. |
| DmaChannel.Channel.ThisRunCost | src/core/dma/dma.cpp:204-211 | The run's cost model from the cached timing is the one of its first unit. |
| DmaChannel.Channel.NextCost | src/core/dma/dma.cpp:182-188 | Inside a run the cyclic step charges what the full rule would and leaves the same burst position. |
| DmaChannel.Channel.BulkRun | src/core/dma/dma.cpp:277-303 | The bulk form either does nothing or leaves a state from which the plain loop ends exactly as it would have without it. |
| DmaChannel.Channel.UnitRun | src/core/dma/dma.cpp:304-313 | The unit-by-unit form of a run does the same for runs too short for the bulk form. |
| DmaChannel.Channel.DirectRun | src/core/dma/dma.cpp:252-317 | A fast run, the current unit already paid for, either does nothing or moves at least that unit and leaves the plain loop's outcome unchanged. |
| DmaChannel.Channel.Turn | src/core/dma/dma.cpp:330-400 | One turn of the channel loop leaves the plain loop's outcome unchanged, whichever path it takes. |
| DmaChannel.Channel.RunChannel | src/core/dma/dma.cpp:319-401 | For every budget, and every transfer none of whose runs overlaps itself, the channel loop ends with the memory, cycles used, addresses, counters, burst table and position of the plain pay-one-move-one loop, and ready for a further slice. |
| DmaChannel.Channel.RunSlices | src/core/dma/dma.cpp:319-431 | The channel loop run with one budget after another ends as the plain loop cut into these slices, for the same cycles in all. |
| DmaSlices.SlicesArePrefix | src/core/dma/dma.cpp:319-431 | Any sequence of positive budgets stops part-way along the uncut transfer: completing it from there is completing it in one go. |
| DmaSlices.SlicingChangesNothing | src/core/dma/dma.cpp:319-431 | However a transfer is cut into budget slices, once it is complete its memory, addresses, burst position and total cost are those of the uncut transfer. |
| DmaSlices.RunInSlices | src/core/dma/dma.cpp:319-431 | The same of the channel loop with its block copies and closed-form costs: run to its end in any positive slices, it leaves what the uncut plain loop leaves, for the same cycles. |
| DmaSlices.EmptySliceCosts | src/core/dma/dma.cpp:319-335 | A slice with no budget would not be harmless: it spends the burst-start flag and changes the cost. |
| DmaBursts.CyclicWalkExact | src/core/dma/dma.cpp:150-188 | The cyclic walk of a fast run and the reselecting walk of the per-unit rule, over any stretch that goes three units past the wrap, agree if and only if the table in force is the one a wrap would select. |
| DmaBursts.BurstReselects | src/core/dma/dma.cpp:134-175 | The plain loop inside a burst is the reselecting walk. |
| DmaBursts.FastRunExact | src/core/dma/dma.cpp:150-202 | A fast run of a transfer, three units past the wrap or longer, is charged as the plain loop charges it at every length if and only if the table in force is the one a wrap would select. |
| DmaBursts.CrossingDiffers | src/core/dma/dma.cpp:150-202 | A transfer on which it is not: the first unit's block selects another table than the block the burst goes on in. |
| LazyJournal.ReplayBefore | src/core/gpu/engine2d_regs.cpp:129-135 | A write stamped past the replay point does not change what the replay applies, and stays behind what it leaves. |
| LazyJournal.ReplayThrough | src/core/gpu/engine2d_regs.cpp:129-135 | A due write behind an exhausted journal is applied last. |
| LazyJournal.StepLinesBefore | src/core/gpu/gpu.cpp:789-811 | Drawing lines in a late batch is not affected by a write journaled for a later line. |
| LazyJournal.StepMatches | src/core/gpu/gpu.cpp:381-506 | Every step of a frame (write, scanline start, HBlank, late draw, join) keeps the state an engine would reach by replaying its journal now equal to that of an engine that applies writes at once. |
| LazyJournal.JournaledWrite | src/core/gpu/engine2d_regs.cpp:120-127 | A write stamped by the frontier is the last thing the engine sees when its journal is settled: batching neither reorders nor loses it. |
| LazyJournal.RunMatches | src/core/gpu/gpu.cpp:381-506 | The same over every run. |
| LazyJournal.NowDraws | src/core/gpu/gpu.cpp:381-413 | The reference engine draws each display line once, at its HBlank. |
| LazyJournal.BatchedDrawingIsExact | src/core/gpu/gpu.cpp:789-811 | At the end of every frame, whatever was written when and however late the lines were drawn, the journal is empty and all 192 lines were drawn from exactly the state they would have had at their own HBlank. |
| LazyLog.DrawnFromHistory | src/core/gpu/gpu.cpp:787-811 | In every run of a frame and for every engine, line l is drawn from what its window edges, the guest's writes and the latches around each line leave, taken one at a time in display order up to the latch of line l, and the state at the end is that of all of them. |
| LazyLog.LinesInOrder | src/core/gpu/gpu.cpp:787-811 | The order: the first line's window edges, writes and its latch; then from each line's latch its drawing, the latch after it, writes, the next line's window edges, writes and its latch, with nothing else between. |
| LazyRegs.Regs.ReplayTo | src/core/gpu/engine2d_regs.cpp:129-135 | The replay loop over the array applies the due prefix of the journal in order and leaves the rest. |
| LazyRegs.Regs.Queue | src/core/gpu/engine2d_regs.cpp:120-127 | A stamped write joins the end of the journal; on a full journal everything pending is applied first. |
| LazyRegs.Regs.FrameDone | src/core/gpu/engine2d_regs.cpp:136-141 | The drained-journal check fails if and only if an entry is left. |
| LazyRegs.Regs.StepLine | src/core/gpu/gpu.cpp:789-811 | One display line on the array: earlier writes, window edges, its own writes, latches, drawing, latches. |
| LazyRegs.Regs.StepRun | src/core/gpu/gpu.cpp:617-632 | A run of lines drawn from the array is that many line steps. |
| LazyFrame.EachLineOnce | src/core/gpu/gpu.cpp:684-785 | A record of lines drawn up to n holds each of 0 .. n-1 once, in order. |
| LazyFrame.StoreCatchesUp | src/core/gpu/gpu.cpp:209-221 | A store that hits a batching engine draws its due lines first if and only if the engine is not out of burst budget while the other one is hit within budget. |
| LazyFrame.StoredLands | src/core/gpu/gpu.cpp:209-221 | After such a store an engine hit stands at the frontier and draws per line, unless it was overtaken: then it batches on from where it stood. |
| LazyFrame.OneEngineNeverOvertaken | src/core/gpu/gpu.cpp:209-221 | A store that hits one engine only always draws that engine's due lines first. |
| LazyFrame.Gpu.OvertakenStore | src/core/gpu/gpu.cpp:171-221 | A store that overtakes an engine it can change leaves it batching from where it stood, its due lines not drawn. |
| LazyFrame.OvertakenRun | src/core/gpu/gpu.cpp:171-276 | A run from the first frame, through fifteen bursts of engine B and a remap under a line in flight, to a state in which a store to engine B's windows overtakes engine B with a line due. |
| LazyFrame.UnguardedRun | src/core/gpu/gpu.cpp:139-142 | A run from the first frame to a deferred batch in flight that no trap guards. |
| LazyFrame.FutilityRule | src/core/gpu/gpu.cpp:568-582 | An engine that ends every frame per line starts its frames per line from the fourth on, and batches again, to probe, in every sixty-fourth. |
| LazyFrame.Gpu.constructor | src/core/gpu/gpu.cpp:529-591 | The first frame starts with nothing drawn and nothing on a worker, each engine batching if the frame may. |
| LazyFrame.Gpu.JoinWorker | src/core/gpu/gpu.cpp:634-672 | After a join each engine has drawn through the end of its job, nothing is in flight or on a stale map, and a deferred batch of a finished frame takes the trap with it. |
| LazyFrame.Gpu.HandOut | src/core/gpu/gpu.cpp:708-766 | Each range is drawn here or handed to a worker once, following on from what is drawn; a batch is deferred exactly when it runs to the last line under the trap and is long enough. |
| LazyFrame.Gpu.RenderRanges | src/core/gpu/gpu.cpp:684-785 | Drawing the next lines of each engine moves its frontier past them and ends the frame once both are past the last line; with nothing to draw, what is in flight stays there. |
| LazyFrame.Gpu.CatchUp | src/core/gpu/gpu.cpp:362-372 | The asked engines stand at the frontier afterwards, the others where they were; nothing is in flight if a line was due, and nothing has changed there if none was. |
| LazyFrame.Gpu.FallBack | src/core/gpu/gpu.cpp:373-377 | The asked engines are caught up and draw per line; without a deferred batch lines on a worker stay under the trap, and when both engines fall back they do exactly when before the call there was none, or engine A's alone in a lag frame. |
| LazyFrame.Gpu.Remap | src/core/gpu/gpu.cpp:225-312 | A remap draws everything due against the old map. If the trap covers what the lines in flight read and none was due, they stay in flight on a map that is now stale; otherwise nothing does. |
| LazyFrame.Gpu.Guarded | src/core/gpu/gpu.cpp:336-354 | Between events every line on a worker, but for a deferred batch, is under an armed trap over its engine's windows. |
| LazyFrame.Gpu.StoreInLag | src/core/gpu/gpu.cpp:184-200 | A store waits for a lag line it could change; once lag is dropped nothing stays in flight. |
| LazyFrame.Gpu.StoreInBatch | src/core/gpu/gpu.cpp:201-221 | A store leaves no hit engine on a worker, and the engines charged, caught up and in their bursts as the budgets say. |
| LazyFrame.Gpu.Store | src/core/gpu/gpu.cpp:171-221 | Before a trapped store lands, no engine it can change is left on a worker; one that reads a stale map counts as changed; the engines are as the budgets say. |
| LazyFrame.Gpu.StoreLands | src/core/gpu/gpu.cpp:171-221 | Every engine it can change stands at the frontier unless the budget check overtook it. |
| LazyFrame.Gpu.Untrapped | src/core/gpu/gpu.cpp:201-221 | In a frame whose trap is up over all lines in flight, an engine whose windows are not trapped has drawn every line below the frontier. |
| LazyFrame.Gpu.StoreTo | src/core/gpu/gpu.cpp:171-221 | A store to an engine's windows, trapped or not: before it lands every engine it can change has drawn every line below the frontier, unless the trap was lifted, the burst budgets overtake the engine, or a stale map lets an untrapped store reach the other one. |
| LazyFrame.Gpu.DrawLine | src/core/gpu/gpu.cpp:385-400 | At a display line's HBlank each engine draws this line with any it skipped, nothing, or its whole batch at the last line. |
| LazyFrame.Gpu.OnHBlank | src/core/gpu/gpu.cpp:381-432 | Past a display line's HBlank each engine has drawn what its mode asks for and ended its burst if this was its last line; past that of line 191 the frame is finished and both have reached 192. |
| LazyFrame.Gpu.BeginFrame | src/core/gpu/gpu.cpp:567-590 | A frame starts with nothing drawn, each engine per line or batching by the futility rule, and batches unless both are futile. |
| LazyFrame.Gpu.EndFrame | src/core/gpu/gpu.cpp:486-491 | At line 0 the frame before is joined and complete. |
| LazyFrame.Gpu.OnScanlineStart | src/core/gpu/gpu.cpp:478-507 | Each frame that ends has drawn lines 0 .. 191 of both engines in order, each once; at any other line the frame goes on as it was. |
| LazyFrame.Gpu.ShowBank | src/core/gpu/gpu.cpp:139-142 | A switch to VRAM display lifts the trap over lines in flight exactly when a batch is deferred and not guarded as engine A's alone in a lag frame. |
| LazyFrame.Gpu.Step | src/core/gpu/gpu.cpp:362-591 | Every event keeps all of this, and only a switch to VRAM display over such a batch ends the guard. |
| LazyFrame.Gpu.Run | src/core/gpu/gpu.cpp:362-591 | Over every run of HBlanks, scanline starts, trapped stores, remaps and switches to VRAM display no engine passes the frontier, every 526 ticks end a frame complete in both engines, and every line on a worker is guarded unless such a switch has lifted the trap in this frame. |
| LazyStores.StoreFits | src/core/gpu/gpu.cpp:171-221 | A store that comes after the lines due of every engine it can change leaves every line, drawn or still to be drawn, with the stores before its HBlank. |
| LazyStores.Watch.Store | src/core/gpu/gpu.cpp:171-221 | A store, the trap before it, keeps the account of what each line saw, and excuses an engine exactly where the code lets it through. |
| LazyStores.Watch.HBlank | src/core/gpu/gpu.cpp:381-432 | An HBlank keeps the account, its line counting the stores so far. |
| LazyStores.Watch.NextFrame | src/core/gpu/gpu.cpp:478-507 | A frame that ends is joined, and every engine not excused in it has drawn each of its 192 lines from the stores before that line's HBlank. |
| LazyStores.Watch.Remap | src/core/gpu/gpu.cpp:225-312 | A remap keeps the account, and excuses nobody when no line stays in flight on the old map. |
| LazyStores.Watch.Run | src/core/gpu/gpu.cpp:171-591 | Over every run of HBlanks, scanline starts, stores to either engine, remaps and switches to VRAM display: in every frame that ends, each engine has drawn each line from exactly the stores into what it reads that landed before the line's HBlank, unless a store excused it in that frame; without a remap under lines in flight or a switch to VRAM display none ever is. |
| CheatJournal.RevertDrops | src/core/cheat/ar_engine.cpp:346-356 | Reverting codes one after the other is undoing all of them at once: a byte goes back exactly when its last writer goes. |
| CheatJournal.UndoneByte | src/core/cheat/ar_engine.cpp:321-356 | A byte with no writer left gets its original back, unless something else has overwritten it since; one with a writer left stays as it is. |
| CheatJournal.LastStoreStays | src/core/cheat/ar_engine.cpp:90-101 | One code's stores land in their order: every byte holds what the last store to cover it put there. |
| CheatJournal.InvStored | src/core/cheat/ar_engine.cpp:90-101 | A tracked store keeps the account: each journaled byte's value is its content before any code, and what was written is what memory holds. |
| CheatJournal.InvUndone | src/core/cheat/ar_engine.cpp:365-368 | The undo phase keeps the account over the writers left. |
| CheatJournal.InvRunCodes | src/core/cheat/ar_engine.cpp:369-378 | A frame's run of enabled analog codes keeps the account. |
| CheatJournal.NothingLeft | src/core/cheat/ar_engine.cpp:346-356 | With no writer left the journal is empty and memory is exactly what it was before any code, bytes shared by several codes included. |
| CheatCarry.MatchedIds | src/core/cheat/ar_engine.cpp:328-335 | The writers a settled journal brings back for a byte are those named for it whose hashes are enabled. |
| CheatCarry.SettledLikeUndone | src/core/cheat/ar_engine.cpp:328-368 | Settling a saved journal beside another code list leaves the memory, originals and writers by hash that the undo phase leaves with no save. |
| CheatCarry.RunAlike | src/core/cheat/ar_engine.cpp:369-378 | Running the same codes in the same order keeps two such states alike. |
| CheatCarry.SaveLoadRun | src/core/cheat/ar_engine.cpp:266-379 | A run after saving and loading, the code list reordered or some codes off, leaves the memory, originals and writers by hash of a run with no save, if the enabled codes come in the same order. |
| CheatOrder.OrderExact | src/core/cheat/ar_engine.cpp:358-379 | Two lists with the same enabled hashes run alike from like states whatever the codes store, if and only if the hashes come in the same order. |
| CheatOrder.OrderNeeded | src/core/cheat/ar_engine.cpp:369-378 | In any two different orders some two codes that store to one byte leave other memory. |
| CheatOrder.SeparateRunAlike | src/core/cheat/ar_engine.cpp:369-378 | Codes whose stores are fixed and share no byte run alike in every order. |
| CheatOrder.SaveLoadSeparate | src/core/cheat/ar_engine.cpp:266-379 | For such codes a run after saving and loading is that of a run with no save, whatever the order of the list. |
| CheatEngine.NotedIsStored | src/core/cheat/ar_engine.cpp:90-101 | Noting the bytes before a store and what it left in them after it is the specified tracked store. |
| CheatEngine.SortedKeys | src/core/cheat/ar_engine.cpp:268-271 | The saved addresses are the journal's, in increasing order. |
| CheatEngine.Engine.Journaled | src/core/cheat/ar_engine.cpp:90-101 | The two passes around a store leave memory and the journal as the tracked store says. |
| CheatEngine.Engine.Restore | src/core/cheat/ar_engine.cpp:321-323 | A byte gets its original back only if it still holds what the code left. |
| CheatEngine.Engine.Revert | src/core/cheat/ar_engine.cpp:346-356 | The code gives up every byte it wrote, and no other byte changes. |
| CheatEngine.Engine.SettleCarried | src/core/cheat/ar_engine.cpp:328-344 | The two passes over the carried writers leave every byte as settled: enabled writers keep it, a gone writer's byte goes back if nobody shares it. |
| CheatEngine.Engine.Undo | src/core/cheat/ar_engine.cpp:362-368 | After the undo loop each byte is what taking the disabled codes away one after the other makes of it; a byte whose writers are tracked keeps its enabled ones alone. |
| CheatEngine.Engine.Run | src/core/cheat/ar_engine.cpp:358-379 | A frame's run settles a loaded journal or undoes disabled codes, then runs the enabled ones in list order. |
| CheatEngine.Engine.SaveJournal | src/core/cheat/ar_engine.cpp:266-293 | The chunk holds every journaled byte with its original and last write in address order, and names for each byte exactly the hashes of its writers; where nothing is carried over, each entry is one code's with the bytes that code wrote, each once, in list order; an empty journal writes no chunk. |
| CheatEngine.Engine.LoadJournal | src/core/cheat/ar_engine.cpp:295-317 | Loading brings the entries back with no writer known and the writers as carried codes; a chunk whose lists differ in length changes nothing. |
| CheatHistory.LoadHolds | src/core/cheat/ar_engine.cpp:295-317 | After a load every byte of the journal still knows its content before any code, with its writers named by hash, whatever the hashes. |
| CheatHistory.MatchedOnce | src/core/cheat/ar_engine.cpp:328-335 | The writers a byte gets back are without repeats if and only if no two of the loaded codes with one hash that the list enables name that byte. |
| CheatHistory.SettledExact | src/core/cheat/ar_engine.cpp:328-344 | Settling a loaded journal keeps the account of memory, for any code list, in any order, with any codes off, if and only if no two loaded codes of one hash that the list enables name the same byte: then an enabled writer keeps its bytes and a byte with none left gets its original back. |
| CheatHistory.ApartAtSave | src/core/cheat/ar_engine.cpp:266-335 | That condition can be read off the journal at the save: no byte has two writers of one hash that the list enables. |
| CheatHistory.PlayFrame | src/core/cheat/ar_engine.cpp:358-379 | One frame with any codes enabled keeps the account, and with none enabled memory is its content before any code; only a frame that settles a loaded journal asks for the condition. |
| CheatHistory.PlaySaveLoad | src/core/cheat/ar_engine.cpp:260-317 | So does saving and loading beside any code list, whatever its hashes, also twice with no frame between. |
| CheatHistory.Session | src/core/cheat/ar_engine.cpp:260-379 | Over any history of frames with any codes on and of saves and loads beside any lists, up to the first frame that settles two codes of one hash on one byte: every journaled byte knows its original, and once the last frame had no code on memory is exactly the original. No such frame comes if every list that a journal is saved under has distinct hashes. |
| CheatHistory.Frames | src/core/cheat/ar_engine.cpp:358-379 | A history of frames alone, whatever the hashes: once the last frame had no code on memory is exactly the original. |
| CheatHistory.FreshSession | src/core/cheat/ar_engine.cpp:260-379 | The session theorem from an engine that has run nothing. |
| CheatClash.OffAfterLoad | src/core/cheat/ar_engine.cpp:328-379 | A frame after a load and then one with no code on leave memory and journal as before any code if and only if no two loaded codes of one hash that the first frame enables name one byte; every byte they both name stays journaled and keeps the patch. |
| CheatClash.StaysPatched | src/core/cheat/ar_engine.cpp:346-379 | A byte with one writer listed twice stays patched when every code is switched off. |
| CheatClash.SharedHashStays | src/core/cheat/ar_engine.cpp:260-379 | A session in which it happens: two codes of one hash on byte 0, a save and a load beside the same list, and with both off the byte still holds 6 instead of 0. |
| CheatEngine.SaveAndLoad | src/core/cheat/ar_engine.cpp:266-317 | A journal saved and loaded beside another code list has the same entries and names the same writers by hash. |
| CheatEngine.RunBothWays | src/core/cheat/ar_engine.cpp:266-379 | The engine as written, run on the live journal and on its saved and loaded copy with the same codes enabled in the same order, ends with the same memory, originals and writers by hash. |
| PuMap.WithinPages | src/core/cpu/cp15.cpp:19-29 | No decoded region reaches past the address space. |
| PuMap.UntouchedKeeps | src/core/cpu/cp15.cpp:50-71 | A page that no changed region covers, before or after, keeps the value the highest-numbered region gives it. |
| PuCover.CoversExactly | src/core/cpu/cp15.cpp:19-29 | An enabled region with size field n, 11 or more, covers the addresses that agree with its base from bit n + 1 up; with a smaller one its base page. |
| PuCover.UnderRegion | src/core/cpu/cp15.cpp:26-27 | With the unit on, under the highest-numbered region k that covers an address its page holds 0x10 if control bit 2 and bit k of the data mask are set, and 0x40 if control bit 12 and bit k of the code mask are. |
| PuCover.UnderNone | src/core/cpu/cp15.cpp:73-80 | A page under no region holds zero; with the unit off every page holds what control bits 2 and 12 say. |
| PuCover.LastStands | src/core/cpu/cp15.cpp:122-141 | After any writes the last one to each register stands: the unit's enable and the two cache enables of the control register, a mask, a region. |
| PuUnit.OnlyThreeBits | src/core/cpu/cp15.cpp:124-131 | The control bits outside the unit's enable and the two cache enables do not reach the map. |
| PuUnit.Unreached | src/core/cpu/cp15.cpp:67-71 | A page no rescan visits already holds the value the new regions give it. |
| PuUnit.ExactlyTwice | src/core/cpu/cp15.cpp:67-71 | Two passes of which the second leaves alone what the first changed report every changed page once. |
| PuUnit.Cp15.constructor | src/core/mem/timing.cpp:25-26 | At reset the map is zero, which is what the reset registers paint, and there is no memo to rely on. |
| PuUnit.Cp15.Rescan | src/core/cpu/cp15.cpp:54-66 | A rescan brings one extent up to date and hands on every page that changed in exactly one range, no other page in any. |
| PuUnit.Cp15.FindValue | src/core/cpu/cp15.cpp:50-53 | The downward search finds the value of the highest-numbered enabled region over a page. |
| PuUnit.Cp15.Incremental | src/core/cpu/cp15.cpp:42-71 | The incremental path leaves the map a full repaint would, with each changed page in exactly one range handed on. |
| PuUnit.Cp15.Build | src/core/cpu/cp15.cpp:73-85 | The map built region by region is the one in which the highest-numbered enabled region over a page decides, which `PuCover` puts in addresses and register bits. |
| PuUnit.Cp15.Rebuild | src/core/cpu/cp15.cpp:73-95 | The rebuild path leaves that map, with each changed page in exactly one range and no page in two. |
| PuUnit.Cp15.Update | src/core/cpu/cp15.cpp:35-100 | Whichever path runs, the map is the one painted from the registers, the memo names them, and the CPU is told if any page changed. |
| PuUnit.Cp15.Write | src/core/cpu/cp15.cpp:122-141 | A CP15 write leaves the map painted from the registers, with a memo or without, also where it skips the update. |
| PuUnit.Cp15.Writes | src/core/cpu/cp15.cpp:122-141 | So does every sequence of CP15 writes, and the registers are those written. |
| PuUnit.FromReset | src/core/cpu/cpu.cpp:51-55 | From reset on, after any sequence of writes, the map is the one painted from the registers. |
| IdleLoop.PassFrame | src/core/cpu/idle_loop.cpp:97-108 | A pass changes only registers the scan records as written. |
| IdleLoop.StepSets | src/core/cpu/idle_loop.cpp:105-108 | One instruction in lockstep: if two passes agree on what is written so far and what is never written, it reads nothing they differ on. |
| IdleLoop.Lockstep | src/core/cpu/idle_loop.cpp:116-235 | Two passes over an accepted body that agree there take the same branches and end alike. |
| IdleLoop.FixedPoint | src/core/cpu/idle_loop.cpp:195-235 | An accepted body that took its back edge once takes it again with the same registers and flags while memory stays as it is, under any instruction semantics that keeps to the recorded reads and writes. |
| IdleLoop.SkipsAnyNumber | src/core/cpu/idle_loop.cpp:195-235 | Skipping any number of further passes is sound. |
| IdleArm.AllowedIsStill | src/core/cpu/idle_loop.cpp:116-193 | What the scan lets in neither stores nor jumps, but for branches, as the processor executes it. |
| IdleArm.RunningRespects | src/core/cpu/idle_loop.cpp:116-193 | For every processor, whatever it computes: an instruction let in, write-back and post-indexing counted, changes only the registers recorded as written, and what it leaves there depends only on those recorded as read. |
| IdleArm.ReadsNeeded | src/core/cpu/idle_loop.cpp:116-181 | Nothing is recorded as read in vain: on some processor each such register makes a difference. |
| IdleArm.LoopRepeats | src/core/cpu/idle_loop.cpp:195-235 | An accepted loop on such a processor, once round, repeats itself for any number of passes. |
| IdleCheck.CheckedExactly | src/core/cpu/idle_loop.cpp:252-258 | The re-check at a query looks at a load's own base under every instruction semantics if and only if, going round the loop one way or the other between the query and the load, nothing writes it. |
| IdleCheck.SafeExactly | src/core/cpu/idle_loop.cpp:54-80 | Outside RAM a loop may poll, in each image of the register space, the bytes 180 to 187, 208 to 217 and 600 to 603, or GXSTAT alone, or SPICNT alone, or nothing. |
| IdleCheck.QuerySound | src/core/cpu/idle_loop.cpp:239-264 | Where that holds of every load, a query that lets the loop be skipped, made once the loop has gone round, is right: each load of the next pass polls an address that may be polled, its base register plus its offset, or the address eight past it plus the offset, modulo 2^32. |
| IdleCheck.Requery | src/core/cpu/idle_loop.cpp:251-263 | The loop of the query over the loads: yes exactly when every address may be polled, by the caller's choice RAM alone, and one of them is GXSTAT if the caller asks for that. |
| IdleLimits.PollingLoopSkips | src/core/cpu/idle_loop.cpp:195-235 | A load, a test and a branch back: accepted, within every hypothesis of the theorem, and the same after any number of passes while the polled word stays zero. |
| IdleLimits.PredicatedWriteFools | src/core/cpu/idle_loop.cpp:116-142 | Without the hypothesis on predicated instructions: an accepted body that counts. |
| IdleLimits.FlagReadFools | src/core/cpu/idle_loop.cpp:144-147 | Without the hypothesis that mrs reads the flags: an accepted body whose flags move on. |
| IdleLimits.PartialWriteFools | src/core/cpu/idle_loop.cpp:129-142 | Without the hypothesis that a flag write sets all flags: an accepted body whose carry flips. |
| IdleLimits.RotateFools | src/core/cpu/idle_loop.cpp:129-142 | Without the hypothesis that a rotate through carry reads the flags: an accepted body whose carry flips in every pass. |
| IdleLimits.ReusedBaseFools | src/core/cpu/idle_loop.cpp:252-258 | An accepted loop that loads over its own pointer: every query at its head looks at address 0 and lets it be skipped, while it polls DISPSTAT, which no query may let through. |
| IdleScan.BodyScan.DoRead | src/core/cpu/idle_loop.cpp:105-107 | A register counts as read early only if the pass has not written it. |
| IdleScan.BodyScan.ScanInstr | src/core/cpu/idle_loop.cpp:116-193 | One instruction is let in exactly when its form is allowed and its load fits, and its reads and writes are recorded. |
| IdleScan.SitesAreLoads | src/core/cpu/idle_loop.cpp:168-180 | The loads recorded are the body's, in order, each with its base register and offset, or, off the program counter, the address eight past it plus the offset. |
| IdleScan.ScanBody | src/core/cpu/idle_loop.cpp:219-234 | The scan of a body accepts exactly the bodies with a load, every form allowed, and nothing both written and read early; the loads it lists are the body's, each with its base and offset. |
| IdleScan.FindTail | src/core/cpu/idle_loop.cpp:202-215 | The forward search finds the first back edge, or there is none within reach that only ordinary words lead to. |
| IdleScan.FindLoop | src/core/cpu/idle_loop.cpp:202-217 | The bounds found are those of the loop around the address, or there is no such loop of at most sixteen instructions. |
| IdleScan.Analyse | src/core/cpu/idle_loop.cpp:195-235 | The verdict is skippable if and only if there is a loop around the address whose body the scan accepts, and then names that loop and its loads, each with its base and offset. |
| RomSource.Image.constructor | src/core/cart/rom_source.cpp:29-38 | The span is the smallest power of two no smaller than a page and the image; nothing is patched. |
| RomSource.Image.PageUnpatched | src/core/cart/rom_source.h:85-89 | A page of the image, its bytes past the end blank. |
| RomSource.Image.Page | src/core/cart/rom_source.h:58-64 | The page served is its patch if it has one, the image otherwise. |
| RomSource.Image.Read | src/core/cart/rom_source.cpp:139-147 | A read across pages, wrapping at the span, finds the patched view at every address. |
| RomSource.Image.ReadUnpatched | src/core/cart/rom_source.cpp:149-164 | The unpatched read finds the image's own bytes whatever is patched, and reports how many of them lie in the image without wrapping. |
| RomSource.Image.PatchPage | src/core/cart/rom_source.cpp:131-137 | Patching a page changes nothing a read finds, however often it is done. |
| RomSource.Image.Poke | src/core/cart/rom_source.cpp:131-137 | Bytes stored through the patched page are what reads find there afterwards, at every mirror of the address, and nothing else changes. |
| RomSource.SamePage | src/core/cart/rom_source.cpp:139-147 | Addresses within one page share its base and count on from each other. |
| RomSource.LeastSpan | src/core/cart/rom_source.cpp:29-31 | The doubling loop finds the least power of two. |
| Key1.DecryptEncrypt | src/core/cart/cart.cpp:111-136 | Block decryption undoes block encryption under every key table. |
| KeyLaws.RoundFunction | src/core/cart/cart.cpp:114-118 | The round function on the bytes of a word from the top: the first two look up 0x12 and 0x112 onwards and are added, the third 0x212 onwards is xored in, the fourth 0x312 onwards added. |
| KeyLaws.SixteenRounds | src/core/cart/cart.cpp:111-123 | The cipher is sixteen rounds under key words 0 to 15, then the halves swapped and xored with words 16 and 17. |
| KeyLaws.MixedWord | src/core/cart/cart.cpp:141 | The first eighteen words are xored with the code's words in turn, bytes reversed, and no other changes. |
| KeyLaws.SwappedIs | src/core/cart/cart.cpp:141 | Bytes reversed. |
| KeyLaws.RefilledPair | src/core/cart/cart.cpp:140-145 | Each pair of words of the table is the second and the first half of a block that starts at zero and is encrypted again for each pair, under the table refilled so far. |
| KeyLaws.AppliedIs | src/core/cart/cart.cpp:137-146 | Applying a keycode encrypts its last two words, then its first with the new second, both under the table as it was, and mixes and refills the table with the result. |
| KeyLaws.KeyLevels | src/core/cart/cart.cpp:147-155 | The table of a level: the BIOS's, then the code with its half and double applied once, twice, and a third time with the second word doubled and the third halved. |
| SecureArea.SameBlocks | src/core/cart/cart.cpp:88 | A byte string is determined by its eight-byte blocks. |
| SecureArea.OpenedIsArea | src/core/cart/cart.cpp:82-92 | Opening a sealed secure area under the same two keys gives back every byte of it. |
| CartKey1.Cart.EncryptHalves | src/core/cart/cart.cpp:111-123 | The encryption loop on the two halves is sixteen rounds and the final whitening. |
| CartKey1.Cart.DecryptHalves | src/core/cart/cart.cpp:124-136 | The decryption loop, round keys from the last down. |
| CartKey1.Cart.ApplyKeycode | src/core/cart/cart.cpp:137-146 | The keycode is encrypted, mixed into the round keys, and the table refilled pair by pair under the key as it changes. |
| CartKey1.Cart.InitKey | src/core/cart/cart.cpp:147-155 | The key table of a game code at a level, from the BIOS table, whatever key was there before. |
| CartKey1.Cart.EncryptAt | src/core/cart/cart.cpp:88 | One block encrypted in place, the others as they were. |
| CartKey1.Cart.SealBlocks | src/core/cart/cart.cpp:87-90 | Every block under the level-3 key, then the first one under level 2 too. |
| CartKey1.Cart.SealDump | src/core/cart/cart.cpp:81-92 | A dump is rewritten exactly when it carries the decrypted marker, and reads then find the sealed area. |
| CartKey1.Cart.DecryptSecureArea | src/core/cart/cart.cpp:157-170 | The sealed area undone, with both markers back if the object marker shows, or nothing but markers. |
| CartKey1.SecureAreaTrip | src/core/cart/cart.cpp:79-170 | A dump with a decrypted secure area gets it back from its re-encrypted overlay: the marker twice, then its bytes 8 .. 0x7FF. |
| AesTables.SboxInverse | src/core/crypto/aes.c:67-102 | The inverse substitution table undoes the substitution table on all 256 bytes. |
| AesLaws.SboxIsAffine | src/core/crypto/aes.c:67-84 | The substitution of a byte is the affine map of section 5.1.1 of FIPS 197 of its inverse in the field, and of no other byte; that of zero is 0x63. |
| AesField.XTimeAsCoded | src/core/crypto/aes.c:269-272 | The doubling used in the proofs is the one in the code. |
| AesField.XTimeOfFive | src/core/crypto/aes.c:269-272 | Doubling distributes over the sums that mixing adds up. |
| AesField.UnmixMixed | src/core/crypto/aes.c:275-325 | The inverse mixing of a mixed column gives its byte back, for the coefficients and the shortcut the code uses. |
| Aes.SubInverse | src/core/crypto/aes.c:225-235 | Inverse substitution undoes substitution of a state. |
| Aes.ShiftInverse | src/core/crypto/aes.c:241-267 | Inverse row shifts undo row shifts. |
| Aes.MixInverse | src/core/crypto/aes.c:275-325 | Inverse column mixing undoes column mixing. |
| Aes.AddKeyTwice | src/core/crypto/aes.c:210-220 | Adding a round key twice changes nothing. |
| Aes.StrippedIsUnkeyed | src/core/crypto/aes.c:440-462 | The inverse cipher passes through the cipher's own states, last to first. |
| Aes.DecryptEncrypt | src/core/crypto/aes.c:372-462 | The inverse cipher undoes the cipher for every block and every key schedule. |
| AesLaws.ShiftedFrom | src/core/crypto/aes.c:241-267 | Row r of column c of a shifted state comes from column c + r, counted round. |
| AesLaws.UnshiftedFrom | src/core/crypto/aes.c:343-369 | On the way back it comes from column c - r. |
| AesLaws.MixedColumn | src/core/crypto/aes.c:275-288 | Every byte of a mixed column is twice itself, three times the one below and the other two, added up. |
| AesLaws.TenRounds | src/core/crypto/aes.c:372-396 | The cipher passes through ten states: the block with the first round key, nine full rounds with a key each, and the last round, which does not mix. |
| AesKeys.RconIsPower | src/core/crypto/aes.c:105-106 | The round constants are the powers of x. |
| AesKeys.FourthWord | src/core/crypto/aes.c:128-189 | Word 4 of the schedule of FIPS 197's example key. |
| AesKeys.KeyExpansion | src/core/crypto/aes.c:128-189 | The key schedule, filled in place word by word, is the specified one. |
| AesKeys.InitContext | src/core/crypto/aes.c:191-194 | The round keys the cipher takes are those of the schedule, four words each. |
| AesState.AddRoundKey | src/core/crypto/aes.c:210-220 | The round key is added to the state in place. |
| AesState.SubBytesInPlace | src/core/crypto/aes.c:225-235 | Every byte of the state is substituted in place. |
| AesState.ShiftRowsInPlace | src/core/crypto/aes.c:241-267 | The assignments through one spare byte rotate the rows by one, two and three columns to the left. |
| AesState.InvShiftRowsInPlace | src/core/crypto/aes.c:343-369 | ... and to the right. |
| AesState.MixedByXTime | src/core/crypto/aes.c:275-288 | The update byte by byte with the kept first byte and the column sum is the column mixing. |
| AesState.MixOne | src/core/crypto/aes.c:281-286 | A column mixed in place, its other columns alone. |
| AesState.MixColumnsInPlace | src/core/crypto/aes.c:275-288 | Every column mixed in place. |
| AesState.CipherSw | src/core/crypto/aes.c:372-396 | The software cipher, as written on one state, computes the cipher. |
| AesState.InvCipher | src/core/crypto/aes.c:440-462 | The inverse cipher, as written on one state, computes the inverse cipher. |
| AesState.ThereAndBack | src/core/crypto/aes.c:372-462 | Run one after the other on a state they leave it as it was. |
| AesCtr.CarriedCounts | src/core/crypto/aes.c:506-516 | The increment with carries adds one to the counter, modulo 2^128. |
| AesCtr.Context.NextKeystream | src/core/crypto/aes.c:524-530 | The keystream block is the cipher of the counter, which moves on by one. |
| AesCtr.Context.Increment | src/core/crypto/aes.c:506-516 | The counter loop with its continue and break moves on by one. |
| AesCtr.Context.XcryptBuffer | src/core/crypto/aes.c:492-522 | A buffer of any length is XORed byte by byte with the keystream of consecutive counters, and the counter ends past every block begun. |
| AesCtr.StreamTwice | src/core/crypto/aes.c:491-522 | Streaming twice from one counter gives the buffer back. |
| AesStream.IsCipher | src/core/crypto/aes.c:372-396 | The cipher under any round keys is a block cipher of the counter mode. |
| AesStream.KeystreamBlock | src/core/crypto/aes.c:502-530 | The keystream block: the software cipher run in place on a copy of the counter. |
| AesStream.EncryptThenDecrypt | src/core/crypto/aes.c:491-530 | Two contexts with the same round keys and counter: what one encrypts the other decrypts, for every buffer. |
| Checksum.FoldStep | src/net/slirp_driver.cpp:57 | A turn of the fold loop keeps the sum's residue modulo 65535 and shrinks it without reaching zero. |
| Checksum.ChecksumPatch | src/net/slirp_driver.cpp:53-59 | The fold loop ends with every carry folded in. |
| Checksum.PatchedMakesUp | src/net/slirp_driver.cpp:51-59 | The patched checksum makes up, modulo 65535, for the change of address. |
| Checksum.SumStored | src/net/slirp_driver.cpp:315-319 | A word stored in a checksummed range changes its sum by the difference. |
| Checksum.VerifiesIff | src/net/slirp_driver.cpp:51-59 | A sum verifies if and only if it is positive and a multiple of 65535. |
| DnsRewrite.UdpAt | src/net/slirp_driver.cpp:67-79 | A frame taken for an unfragmented IPv4/UDP datagram holds both headers. |
| DnsRewrite.Rewrite | src/net/slirp_driver.cpp:309-335 | Either direction rewrites the frame in place exactly when it is a DNS datagram with the address to replace, and leaves any other frame alone. |
| DnsRewrite.AppliesExactly | src/net/slirp_driver.cpp:67-79 | A query is redirected exactly in a frame with type 0800 at byte 12, version 4 and a header of five words or more that leaves room, protocol 17 at 23, no fragment offset at 20, port 53 two bytes into the UDP header and the address at 30; a reply with port 53 at its start and the address at 26. |
| DnsRewrite.RewrittenBytes | src/net/slirp_driver.cpp:309-335 | After a rewrite the new address stands at byte 30 or 26, highest byte first, and every other byte but the two checksums is as it was. |
| DnsRewrite.HeaderAfter | src/net/slirp_driver.cpp:315-319 | The IPv4 header's sum after a rewrite, for every header length. |
| DnsRewrite.UdpAfter | src/net/slirp_driver.cpp:316-319 | The UDP sum after a rewrite. |
| DnsRewrite.HeaderStillVerifies | src/net/slirp_driver.cpp:309-335 | An IPv4 header that verifies still does after a rewrite. |
| DnsRewrite.UdpStillVerifies | src/net/slirp_driver.cpp:309-335 | A UDP checksum that verifies still does after a rewrite, even one that becomes zero. |
| DnsRewrite.FrameOutAndBack | src/net/slirp_driver.cpp:309-335 | A frame rewritten and rewritten back is taken both times and has its address and every byte outside the two checksums as before; the IPv4 checksum is congruent to the original, the UDP checksum if and only if the way out did not turn one other than 0 and 0xFFFF into zero. |
| DnsRewrite.UdpZeroExample | src/net/slirp_driver.cpp:316-318 | Such a checksum: the way back takes the zero for "none" and leaves it. |
| DnsRewrite.RewriteMoves | src/net/slirp_driver.cpp:309-335 | A rewrite puts the new address in place, keeps the datagram recognisable, and touches nothing but the address and the two checksums. |
| SpriteLists.ListedExactly | src/core/gpu/engine2d.cpp:752-767 | A line's list holds exactly the sprites whose box covers the line. |
| SpriteLists.ListedInOrder | src/core/gpu/engine2d.cpp:752-767 | ... in OAM order and without repeats. |
| SpriteLists.HeightByShape | src/core/gpu/engine2d.cpp:755-765 | A sprite is 8, 16, 32, 64 lines high when square, 8, 8, 16, 32 when wide, 16, 32, 32, 64 when tall, and 8 in the shape that means nothing; doubled in double size. |
| SpriteLists.CoversLine | src/core/gpu/engine2d.cpp:755-767 | A sprite that is not off covers the lines less than its height below its first byte, counted round 256. |
| SpriteLists.SameKeptSameGeometry | src/core/gpu/engine2d_regs.cpp:147-157 | Two OAMs that agree under the geometry masks have the same boxes: the masks miss nothing the lists read. |
| SpriteLists.MaskIsExact | src/core/gpu/engine2d_regs.cpp:154-156 | A byte that changes under the masks changes its sprite's geometry. |
| SpriteLists.Sprites.constructor | src/core/gpu/engine2d.cpp:726 | Before the first build the lists count as stale. |
| SpriteLists.Sprites.Apply | src/core/gpu/engine2d_regs.cpp:147-158 | An OAM write of 1, 2 or 4 bytes bumps the generation if and only if a bit the lists read changes. |
| SpriteLists.Sprites.Rebuild | src/core/gpu/engine2d.cpp:754-767 | Rebuilding makes every line's list exact for the present OAM. |
| SpriteLists.Sprites.ForLine | src/core/gpu/engine2d.cpp:726-748 | The sprites drawn for a line are its exact list: the per-line test in the drawing loop never rejects one. |
| SpriteLists.Sprites.Run | src/core/gpu/engine2d.cpp:726-748 | After any sequence of OAM writes a line still draws exactly the enabled sprites that cover it, in OAM order. |
| Bilinear.StartGrows | src/core/gpu/gpu.cpp:1127-1131 | The first rows of successive lines are ordered and within the height. |
| Bilinear.RowBounds | src/core/gpu/gpu.cpp:1118-1131 | The rows a line owns are those whose centre falls between the centres of the line before and of the line. |
| Bilinear.WeightInRange | src/core/gpu/gpu.cpp:1148-1151 | For every row a line after the first owns, the weight lies in 0 .. 255: the clamp never fires. |
| Bilinear.WeightIs | src/core/gpu/gpu.cpp:1148-1151 | The weight is the distance of the row's middle from the middle of the line before, in 256ths of a line, rounded down. |
| Bilinear.StartsAt | src/core/gpu/gpu.cpp:1127-1131 | A line's rows start at the first row whose middle is at or past the boundary to the line before. |
| Bilinear.Emit | src/core/gpu/gpu.cpp:1148-1156 | A stretch of rows written, each once more, and no row outside it. |
| Bilinear.EmitLine | src/core/gpu/gpu.cpp:1142-1162 | A line writes exactly the rows it owns, and the last line those below it too. |
| Bilinear.Image | src/core/gpu/gpu.cpp:1113-1162 | Of an image any of whose lines are hidden, every row whose owner is shown is written once, by its owner, over the line before where that was the last one emitted; every other row stays as it was. |
| Bilinear.OneOwner | src/core/gpu/gpu.cpp:1118-1121 | No row belongs to two lines. |
| Bilinear.AllClaimed | src/core/gpu/gpu.cpp:1118-1121 | An image shown in full writes every row of every height. |
| WaitLoop.AfterPasses | src/core/cpu/wait_loop.cpp:59-66 | Passes that keep the counter positive leave it lower by one each, the flags of a positive result and the budget less their cost. |
| WaitLoop.SubsFlags | src/core/cpu/wait_loop.cpp:15 | The subs counts down round 2^32 and sets the flags of the processor: sign, zero, the carry of adding the complement, signed overflow. |
| WaitLoop.TakenWhile | src/core/cpu/wait_loop.cpp:15 | The branch back is taken exactly while the counter, signed, was more than one. |
| WaitLoop.Run | src/core/cpu/wait_loop.cpp:40-69 | Skipping leaves counter, flags and budget as that many passes of the two instructions would, with one pass left to run, and happens exactly when a pass can be skipped. |
| WaitLoop.BudgetLasts | src/core/cpu/wait_loop.cpp:59-66 | Every instruction boundary skipped over still had budget if and only if the refill costs something or cycles are left over. |

## Left out

- BlzCodec.BlzDecode: a malformed file on which the script would index from the end of a buffer with a negative index is a failure here; a file the encoder wrote never gets there.
- BlzCodec.DecodeToken: the same of a read position below zero.
- BlzCodec.CheckLoop: the same of the check's indexes.
- DmaChannel.Channel.RunChannel: unit-aligned addresses, ranges that stay inside memory, and, when both ends count up, a transfer none of whose runs overlaps itself (a shift of half a page or more never does, `ShiftExact`) and bursts that all select one table; two addresses that map to the same memory are not modelled.
- DmaChannel.Channel.DirectRun: TCM views, code-tagged and trapped pages appear only as pages that are not direct.
- DmaCost.BulkIsWalk: unbounded integers, so the 32-bit products of the closed form do not wrap.
- Dma: the geometry-FIFO feed, interrupt and repeat handling at the end of a transfer, and channel arbitration.
- LazyJournal.BatchedDrawingIsExact: the journal has room; a full journal is modelled by `LazyRegs.Regs.Queue` for one engine.
- LazyRegs.Regs.Queue: on a full journal the code first joins the worker, which draws lines and may make room; only the last resort after that is modelled.
- LazyFrame.Gpu.Run: lines on a worker are shown to stay under the trap only in frames without a switch to VRAM display over an unguarded deferred batch, which lifts it.
- LazyFrame.Gpu.Remap: which banks the old and the new map give each engine is one flag, whether the trap covers what the lines in flight read; the LCDC part of the trap and the capture read trap are left out.
- LazyFrame.Gpu.Store: the addresses; a store reaches the engines it is given.
- LazyFrame.Gpu.BeginFrame: the frame a reset leaves unfinished, and what decides whether a frame may batch or lag.
- LazyStores.Watch.Run: stores are counted, not their contents, and are the ARM9's to the two engines' windows; stores to the LCDC banks, and those an engine makes itself through the capture, are left out.
- LazyFrame: the display FIFO, and data races between the workers and the emulator thread.
- CheatEngine.Engine.RunTracked: opcode decoding; a code is a function from memory to the stores it makes.
- CheatEngine.Engine.Journaled: mirrors of an address, and addresses that wrap past 2^32.
- CheatHistory.Session: it stops at the first frame that settles two codes of one hash on one byte; what that frame leaves is `CheatClash.OffAfterLoad`. No other writer of guest memory, and analog codes only; a saved state is loaded before anything else runs.
- CheatEngine.Engine.SaveJournal: the order of the writers in the chunk when some are carried over, and the chunk's encoding.
- CheatEngine.Engine.Run: the log of codes that stopped early.
- PuUnit.Cp15.Write: TCM mapping, permissions, bufferability and halting, which do not reach the map.
- IdleLoop.FixedPoint: bodies with predicated instructions, and branches from inside that stay in the loop, are outside the theorem, and so are instructions that read more than the scan records or set only some flags; instruction words are taken as decoded.
- IdleCheck.QuerySound: a query before the loop has gone round once, which the code answers too, looks at bases the body has not set yet: entered at its head, a loop `ldr r1,[pc,#x]; ldr r0,[r1]; tst r0,#1; beq` is judged by whatever r1 held before. What makes a register steady between events is taken from the code's list.
- IdleArm.RunningRespects: memory, which stays as it is; a status register read, a rotate through carry and an operation that sets some of the flags only are not of this form (`IdleLimits` shows what they do).
- IdleScan.Analyse: the verdict cache with its body checksum, and 32-bit wrap-around of code addresses.
- CartKey1.Cart.SealDump: a secure area that does not lie within the one 4 KB page the code patches; header fields are parameters.
- CartKey1.Cart.DecryptSecureArea: the text logged on failure.
- Aes: CBC, and the processor's AES instructions.
- AesCtr.Context.XcryptBuffer: the block cipher is any function from a counter to sixteen bytes; `AesStream` gives it AES under any round keys.
- DnsRewrite.Rewrite: sockets and the choice of addresses.
- SpriteLists.Sprites.ForLine: sprite pixels, mosaic and horizontal clipping.
- Bilinear.Image: lines come in increasing order; horizontal interpolation and cropping; 32-bit wrap-around of the weight product, which starts at 87381 rows.
- WaitLoop.Run: pending interrupts, tracing and another BIOS are one flag; the cost of a pass is a parameter.
- 2D pixel kernels, window planes, gamma, VFP and other floating-point code, the video front ends, networking beyond the two rewrites, and configuration.
