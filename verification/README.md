# Tourbillon: proofs about the emitted circuit and the analyses behind it

Tourbillon compiles processes that talk over bounded queues to clocked hardware. Its promise is that the
emitted circuit behaves like atomic rules over bounded FIFOs. This project models the parts that carry the
promise and proves it, or proves exactly when it holds.

| file | what it models |
|---|---|
| `Gray`, `AsyncFifo` | the two-clock FIFO: Gray pointers, two synchroniser stages, samples that mix old and new bits |
| `SyncFifo` | the single-clock ring buffer with an initial token |
| `Ast`, `Executions`, `Schedule`, `Grouping`, `Firing` | resource extraction, conflict sets, first-fit slots, `will_fire` suppression, one parallel cycle against its rules one at a time |
| `Linearity`, `LinearityTheorems` | the linear-cell analysis against all executions of a rule |
| `Uart`, `BusFabric` | processes of the Marie SoC: the serial link, and the adapter, crossbar, memory device and memory |
| `Crossing` | two FIFOs in opposite directions between the same two clocks, under the bus |
| `FrameParser`, `DmaEngine`, `Serial` | processes of the SPI DMA bridge |
| `Wiring`, `Pruning` | elaboration: writers and readers of a queue, and the removal of dead edges |
| `Deadlock`, `Rings` | the deadlock analysis, and what its verdict means on a ring |
| `Desugar`, `Expansion`, `Scoping`, `ExpandedAccess` | array-port expansion, what it means, which expanded programs the scope check accepts, what the emitter makes of a name, and what the linearity check and the queue wiring make of an expanded access |
| `Packing` | the layout of tuples, options, records and arrays |
| `CheriBounds` | compressed capability bounds |
| `Options`, `PowersOfTwo`, `RingCount`, `Shifts` | shared vocabulary |

An object the source updates in place (the FIFO modules, the processes' cells, the cell-state table, the
edge graph) is a class; each of its methods is proved equal to a step function, and the results about whole
runs are lemmas about that function.

Some properties turn out to hold only under a condition. Where the condition is exact, a lemma states it as
an if-and-only-if:

- a depth-1 FIFO with an initial token is not a queue (`SyncFifo.FifoIsBoundedQueue`);
- declaration order does not decide priority, although src/schedule.rs:73 says so. Between conflicting rules it does exactly
  when every rule has, at each smaller conflict depth than its own, an earlier conflicting rule (`Grouping.OrderIsPriorityIff`).
  Among all rules of a process, where a whole slot suppresses the later ones, the first enabled rule fires exactly when every
  rule conflicts with an earlier rule of each block before its own (`Firing.FirstEnabledFiresIff`), a block being what one
  sweep in declaration order groups;
- a rule the linearity walker accepts is linear in a cell exactly when no take of it stands inside a record, field, index, update
  or slice, where the walker does not look, and no match that touches it can fall through (`LinearityTheorems.SilentIsLinearIff`):
  TOURBILLON.md:181 promises exhaustive matches, which nothing checks, and the emitted chain has no final branch
  (src/lower.rs:1561-1591);
- TOURBILLON.md:221 says the deadlock analysis never accepts a deadlocking design; on rings, whatever cells the
  processes hold, it accepts exactly the full ones and those whose only tokens are cells' among the stuck ones
  (`Rings.AcceptedRingRuns`), and any ring of queues between clocks (`Deadlock.AsyncRingPasses`);
- the loopback is the identity exactly when the 16-bit counters hold less for half the divisor than for the whole (`Uart.LoopbackIsIdentityIff`);
- capability bounds decode right at every address exactly for lengths below 2^31 that leave room for the
  rounding (`CheriBounds.UsableLengths`), and the root capability's exactly at its first four addresses (`CheriBounds.RootFollowsAddress`);
- the comment at src/desugar.rs:670-671 says a name bound by an indexed read is visible after the match. The type check
  closes the arm's scope (src/types/check.rs:410-417) and visits neither the index of an index expression nor the operands of
  an update (src/types/check.rs:219-248), so the expanded program is rejected exactly when such a name is used in a visited
  position and not otherwise known (`Scoping.AcceptedIff`). An accepted program does what the indexed program does with its reads
  binding nothing (`Expansion.ExpansionIsDiscarding`), which is the same thing when no name, in any position, is used after an
  indexed read has rebound it (`Scoping.ExpansionPreservesMeaning`); this direction only, since such a use may be one that never runs.
  Where it does run the earlier value is put (`Scoping.ShadowedNameIsOuter`), or there is none (`Scoping.UnvisitedNamePasses`),
  and the emitted text names the last element instead (`Scoping.EmittedNameIsLast`);
- no array of two or more cells can be taken from or put to by index at all (`ExpandedAccess.IndexedCellIsRejected`), although
  src/desugar.rs:13-14 gives that as the use of array ports; and an indexed take from an array of queues waits for all of them and
  takes a word from each, so it behaves as written exactly for an array of one (`ExpandedAccess.IndexedTakeAgreesIff`);
- generated port names can clash with declared ones (`Expansion.NamesUnambiguousIff`);
- a write beat of the DMA engine carries its first four bytes only (`DmaEngine.WordIsLittleEndianIff`);
- a state port bound to another instance's queue is not rejected (`Wiring.AcceptedIsSingleIff`).

Two more disagreements are followed as the code has them: the comment at src/lower.rs:1021-1023 promises the system reset
on both sides of an asynchronous FIFO while src/lower.rs:1029-1033 passes each side its own domain's; and
an `init = N` counts as N tokens in src/deadlock.rs:82-85 but is one token of value N in the emitted FIFO
(src/lower.rs:1064-1075).

## Model

| member | source | states |
|---|---|---|
| Gray.EncodeIsXor | src/lower.rs:147-148 | each bit of the code is the exclusive or of the pointer's bit and the next higher one |
| Gray.EncodeInjective | src/lower.rs:147-148 | different pointers have different Gray codes |
| Gray.NextIsAdjacent | src/lower.rs:147-148 | the Gray codes of a pointer and its successor, wrap included, differ in exactly one bit |
| Gray.SampleIsOldOrNew | src/lower.rs:171-172 | sampling a Gray pointer while it steps gives the old or the new code, whichever bits arrive late |
| Gray.SampleIsAnyMixture | src/lower.rs:171-172 | what may be sampled is any mixture of old and new bits, and nothing else |
| Gray.FullTestIsHalfLap | src/lower.rs:150-153 | the emitted full test on two codes holds exactly when the pointers are DEPTH apart modulo 2*DEPTH |
| AsyncFifo.TwoClockFifo.OnWrClk | src/lower.rs:165-179 | one write-clock edge of the register state, for any put |
| AsyncFifo.TwoClockFifo.OnRdClk | src/lower.rs:182-195 | one read-clock edge of the register state, for any take |
| AsyncFifo.TwoClockFifo.OnBothClks | src/lower.rs:165-195 | both edges at once, each side capturing any mixture of old and new bits of the other's pointer |
| AsyncFifo.StepKeepsInv | src/lower.rs:115-196 | every edge keeps the invariant: true pointers, four synchroniser counts in order, no unread word overwritten |
| AsyncFifo.UnreadIsKept | src/lower.rs:174-177 | a write never lands on an unread word |
| AsyncFifo.EmptyIsCaughtUp | src/lower.rs:154-159 | the empty test compares with the writes the reader has seen, and an offered word is the oldest unread one |
| AsyncFifo.FullIsWholeBuffer | src/lower.rs:150-157 | the full test holds exactly when the buffer is full as far as the writer has seen |
| AsyncFifo.ExactFifo | src/lower.rs:115-196 | under every interleaving and coincidence of the clocks, what is delivered is a prefix of what was accepted; nothing is overwritten, repeated or invented |
| AsyncFifo.InterfacesAreExact | src/lower.rs:115-196 | in every run, from the interfaces alone: a word is accepted exactly when it is offered on a write edge with room counted, one is delivered exactly when it is asked for on a read edge with one counted, `enq_ready`, `deq_valid` and `deq_data` say just that, and each side counts two of its own edges behind the other |
| AsyncFifo.EitherCountHappens | src/lower.rs:171-172 | on coinciding edges each side may count the other's move or not, all four ways |
| AsyncFifo.PendingWordIsOffered | src/lower.rs:188-190 | a word accepted before two read edges is offered after them |
| AsyncFifo.FreedSlotIsUsable | src/lower.rs:171-173 | a slot freed before two write edges can be written after them |
| SyncFifo.OneClockFifo.OnClk | src/lower.rs:82-107 | one clock edge of the ring buffer, simultaneous put and take included |
| SyncFifo.ClockRefinesQueue | src/lower.rs:69-107 | one edge is one step of a bounded queue whose contents are the `count` slots from `rd_ptr`, wrapping around |
| SyncFifo.RunRefinesQueue | src/lower.rs:53-110 | over every run the interface shows what the bounded queue shows |
| SyncFifo.InitialTokenInOnePlace | src/lower.rs:83-88 | with one place and an initial token, the first word put is lost and the token delivered twice |
| SyncFifo.FifoIsBoundedQueue | src/lower.rs:53-110 | for every depth the FIFO is a bounded queue, except exactly with one place and an initial token |
| Schedule.RuleResources.CollectExpr | src/schedule.rs:170-237 | the walk adds exactly the edges behind an expression's takes |
| Schedule.RuleResources.CollectStmts | src/schedule.rs:117-168 | the walk adds exactly the edges behind the ports a body takes or puts |
| Schedule.TouchedIffExecuted | src/schedule.rs:117-237 | a port is collected exactly when some execution of the rule takes from it or puts to it |
| Schedule.MutableEdgesAreExecuted | src/schedule.rs:117-237 | the mutable edges are exactly those bound to a port that some execution takes or puts |
| Grouping.BuildConflictPairs | src/schedule.rs:243-258 | the pairs are exactly those of rules with a mutable edge in common |
| Grouping.GroupRules | src/schedule.rs:268-306 | the groups are the first-fit slots, each rule in one of them, in declaration order |
| Grouping.EveryRuleIsGroupedOnce | src/schedule.rs:268-306 | every rule is in exactly one group and there once, and every group is in declaration order |
| Grouping.FirstFitFacts | src/schedule.rs:274-294 | rules of one slot do not conflict, and a rule has an earlier conflicting rule in every slot before its own |
| Grouping.FirstFitIsUnique | src/schedule.rs:268-294 | no other grouping satisfies these two facts |
| Grouping.SlotCountBound | src/schedule.rs:268-306 | at most one slot more than the largest number of rules any rule conflicts with |
| Grouping.LaterRuleOutranks | src/schedule.rs:69-74 | with 0-1 and 1-2 in conflict and 0-2 not, rule 2 is served before rule 1 |
| Grouping.OrderIsPriorityIff | src/schedule.rs:69-74 | declaration order decides the slot order of conflicting rules exactly when each rule has, at every depth of conflict chains below its own, an earlier conflicting rule |
| Grouping.OrderIsPriorityIffNoWedge | src/schedule.rs:69-74 | between conflicting rules it decides for the process and every selection of its rules exactly when no rule conflicts with two compatible ones around it |
| Grouping.WedgeWithoutHarm | src/schedule.rs:69-74 | for the process alone such a wedge may do no harm |
| Firing.RuleEnables | src/lower.rs:1147-1212 | the chained `will_fire` equations fire exactly the enabled rules of the first slot that has one |
| Firing.CanFireIff | src/lower.rs:1161-1187 | `can_fire` holds exactly when every queue the rule takes from shows a head and every queue it puts to shows room |
| Firing.FiredIff | src/lower.rs:1195-1212 | a cycle fires exactly the rules whose queues show that while no rule of an earlier slot of their process has its queues so |
| Firing.ReadyProcessFires | src/lower.rs:1195-1212 | every process with such a rule fires one, in its slot or an earlier one |
| Grouping.SlotsInOrderIff | src/schedule.rs:69-74 | no rule is in an earlier slot than one declared before it exactly when every rule conflicts with an earlier rule of each block before its own |
| Firing.FirstEnabledFiresIff | src/lower.rs:1195-1212 | whatever is enabled, the first enabled rule in declaration order fires exactly under that condition |
| Firing.LaterRuleSuppresses | src/lower.rs:1195-1212 | three rules of which the last suppresses the second, without conflicting with it, though conflicting rules keep their order |
| Firing.SomeRuleFires | src/lower.rs:1195-1212 | some rule of a process fires whenever one can |
| Firing.FiredRulesAgree | src/lower.rs:1195-1212 | rules of a process that fire together do not conflict |
| Firing.ExecIsDrive | src/lower.rs:1289-1336 | a rule run step by step leaves each edge as the signals it drives say |
| Firing.FiredAreCompatible | src/lower.rs:1127-1215 | over all processes, no two fired rules take or put the same edge |
| Firing.CycleIsSerial | src/lower.rs:1127-1409 | a cycle equals its fired rules run atomically one at a time, in any order: every guard holds at its turn and queues and cells end the same |
| Firing.RunIsSerial | src/lower.rs:1127-1409 | every state the circuit reaches is reached by atomic rules, with at least one turn for every cycle in which some rule can be run |
| Linearity.CheckRule | src/types/linearity.rs:25-49 | the table-driven walk reports, for each cell, exactly the problems of the per-cell specification |
| Linearity.CheckStmt | src/types/linearity.rs:61-152 | one statement: states cloned at branches and compared at joins |
| Linearity.CheckExpr | src/types/linearity.rs:154-226 | one expression: takes found where the walker descends |
| LinearityTheorems.StmtsLand | src/types/linearity.rs:51-152 | a body passes from one cell state to another without a problem exactly when every execution does in which some arm of every match runs, as the walk has it |
| LinearityTheorems.TrackIsInjective | src/types/linearity.rs:154-197 | two cell states from which the same takes and puts end in the same state, without a problem, were one state |
| LinearityTheorems.SilentIffSeenLinear | src/types/linearity.rs:25-226 | silence means: for each cell, as far as the walk descends, all executions in which some arm of every match runs agree on nothing, or on one take then one put |
| LinearityTheorems.SilentIsLinearIff | src/types/linearity.rs:25-226 | a silent rule is linear in a cell, over all executions of the emitted rule, exactly when no take of it sits where the walker does not descend and no match that touches it can fall through |
| LinearityTheorems.HiddenTakePasses | src/types/linearity.rs:220-225 | a take inside a record, a field, an index, an update or a slice, never put back, passes |
| LinearityTheorems.FallThroughPasses | src/lower.rs:1561-1591 | a cell taken and put back only in the arm of a match that does not cover every value passes, and is not linear |
| Uart.UartTx.Tick | examples/marie.tbn:297-347 | one tick of the transmitter: level, byte taken, next cells |
| Uart.UartRx.Tick | examples/marie.tbn:374-445 | one tick of the receiver: byte put, next cells |
| Uart.CountersHold | examples/marie.tbn:297-347 | the 16-bit counters hold a divisor below 65536 as it is, and lose only higher bits |
| Uart.TakenWhenClear | examples/marie.tbn:304-325 | in every run a tick sends the byte that waits exactly when the transmitter is idle and the clear-to-send sample is not high |
| Uart.FrameOnTheLine | examples/marie.tbn:289-348 | after the tick that takes a byte the line carries a start bit, the byte from its low bit up and a stop bit, each for div + 1 ticks; nothing is taken meanwhile, and then the line is high and the transmitter idle |
| Uart.WaitingByteIsSent | examples/marie.tbn:289-348 | after any run a byte that waits while clear-to-send is not high is sent within ten bit cells |
| Uart.ShiftedFrame | examples/marie.tbn:289-348 | the line carries a start bit, the byte from its low bit up, and a stop bit |
| Uart.EightBitsAreTheByte | examples/marie.tbn:410-422 | eight sampled bits shifted in give the byte |
| Uart.RxFollows | examples/marie.tbn:365-446 | every sample falls inside the bit cell it is meant for, whatever the divisor |
| Uart.TickKeepsLink | examples/marie.tbn:289-446 | a tick of both ends keeps them on the same bit of the same frame |
| Uart.LoopbackDelivers | examples/marie.tbn:289-446 | when half a bit cell is shorter than the cell, for every byte sequence, gap, clear-to-send pattern and delay the receiver puts the bytes the transmitter took, in order, and all of them when it rests |
| Uart.LoopbackMisses | examples/marie.tbn:387-409 | otherwise a frame of ones is taken for a false start |
| Uart.LoopbackIsIdentityIff | examples/marie.tbn:289-446 | the loopback is the identity exactly when the 16-bit counters hold less for half the divisor than for the whole, as every divisor from 1 to 65535 does |
| BusFabric.RegionsAre | examples/marie.tbn:126-210 | the five devices have the addresses with top digit 8, 1, 0, 2 and 3, and no others |
| BusFabric.WordsDoNotAlias | sim/soc_top.sv:268-305 | from the bottom of the memory's region every four bytes have a word of their own, up to its size |
| BusFabric.CpuDmemAdapter.Tick | examples/marie.tbn:65-102 | one tick of the adapter: what it takes, puts and remembers |
| BusFabric.Xbar.Tick | examples/marie.tbn:126-210 | one tick of the crossbar: decode by region, or wait for one device |
| BusFabric.MemDevice.Tick | examples/marie.tbn:227-252 | one tick of the memory device |
| BusFabric.DataMemory.Tick | sim/soc_top.sv:268-305 | one edge of the memory with its one-word response latch |
| BusFabric.AdapterAccepts | examples/marie.tbn:65-102 | an idle adapter that sees a read accepts it, otherwise a write that it sees, with the client's address and data; a waiting one accepts nothing |
| BusFabric.CpuKeeps | examples/marie.tbn:57-103 | a tick of the adapter keeps the invariant, accepting or ending a transaction |
| BusFabric.XbarKeeps | examples/marie.tbn:111-211 | a tick of the crossbar keeps the invariant |
| BusFabric.MemKeeps | examples/marie.tbn:219-253 | a tick of memory device and memory keeps the invariant |
| BusFabric.DeviceKeeps | examples/marie.tbn:262-280 | a device that answers each request once, with any word, keeps the invariant |
| BusFabric.OneTransaction | examples/marie.tbn:57-253 | in every run over arbitrarily delaying queues, of which only what `Crossing.AnswerShowsRoom` proves is asked, one transaction is in the bus exactly when the adapter waits, the memory holds a response exactly when its device waits, and no put, though unguarded, is lost |
| BusFabric.ReadsArePlainReads | examples/marie.tbn:57-253 | in every run the reads and the writes accepted are the client's, each in its order and all but those still waiting; the words delivered are those of one plain memory applied to them in the order accepted; at rest the memories are equal |
| BusFabric.ServedTransactionEnds | examples/marie.tbn:57-253 | five services, whatever happens in between, bring the adapter back to idle |
| BusFabric.EverythingAskedIsDone | examples/marie.tbn:57-253 | after any run, once the client stops asking, at most 17 services bring every read and write it asked to an end, with the plain memory's replies |
| BusFabric.SomeEventServes | examples/marie.tbn:57-253 | in every reachable state such a service may come |
| Crossing.PairKeepsInv | src/lower.rs:164-195 | an edge of two opposite FIFOs' clocks keeps each side's view of the words put to it no more than one take ahead of its view of the takes made before them |
| Crossing.AnswerShowsRoom | src/lower.rs:164-195 | in every run, and in both directions, a side that is offered a word has seen the room of all but at most one of its own words that had been taken when that word was put |
| Crossing.QueueIsFifo | src/lower.rs:149-159 | the bus's delaying queue loses a put exactly when the FIFO of depth 4 is full, and has the FIFO's head in front |
| Crossing.EdgeIsQueueStep | src/lower.rs:164-195 | a FIFO edge is a put of the delaying queue exactly when a word is offered with room counted, and a take exactly when one is asked for and shown, marks included; its writer sees no less room than before |
| FrameParser.SpiFrameParser.Tick | examples/spi2tlul_v2.tbn:203-339 | one tick of the parser |
| FrameParser.HeaderByte | examples/spi2tlul_v2.tbn:265-325 | each header byte lands in its place of opcode, address or length |
| FrameParser.FrameIsParsed | examples/spi2tlul_v2.tbn:193-340 | the descriptor spells the seven header bytes, and of the rest exactly the 16*(len+1) bytes of a write are passed on, in order |
| FrameParser.FrameCompletes | examples/spi2tlul_v2.tbn:193-340 | whatever the gaps, a byte waiting in eight ticks brings the descriptor, and in nine more than its payload the end of the frame with exactly that payload passed on |
| DmaEngine.DmaEngineProcess.Tick | examples/spi2tlul_v2.tbn:385-549 | one tick of the engine |
| DmaEngine.TickKeepsJob | examples/spi2tlul_v2.tbn:372-550 | each tick advances the current descriptor's beats, payload and answers together |
| DmaEngine.StepKeeps | examples/spi2tlul_v2.tbn:363-550 | every event keeps the invariant, with engine and sender ticking on the same edge |
| DmaEngine.JobsAreCarriedOut | examples/spi2tlul_v2.tbn:363-550 | for all descriptors and delays: no put meets a full pending queue, the device sees one request per beat in order, and each write consumes exactly its payload |
| DmaEngine.RequestOfBeat | examples/spi2tlul_v2.tbn:427-441 | request i goes to addr + 16*i modulo 2^32 |
| DmaEngine.FrameIsCarriedOut | examples/spi2tlul_v2.tbn:193-550 | a frame that has crossed becomes exactly its requests, and no byte is left over |
| DmaEngine.ServedEngineRests | examples/spi2tlul_v2.tbn:372-550 | at most 32 services a beat bring the engine back to idle |
| DmaEngine.EveryDescIsCarriedOut | examples/spi2tlul_v2.tbn:363-550 | after any run, once no more descriptors come, at most 32 services for each beat announced carry every descriptor out, in order and in full |
| DmaEngine.SomeEventServes | examples/spi2tlul_v2.tbn:363-550 | in every reachable state such a service may come |
| DmaEngine.WordIsFirstFour | src/lower.rs:1668-1693 | the word of a write beat is the little-endian value of its first four bytes, since the shift is emitted 32 bits wide |
| DmaEngine.WordIsLittleEndianIff | src/lower.rs:1668-1693 | a beat's word is its sixteen bytes' exactly when the last twelve are zero |
| Serial.SpiBulkDeserializer.Tick | examples/spi2tlul_v2.tbn:152-177 | one tick of the deserialiser |
| Serial.SpiMisoShifter.Tick | examples/spi2tlul_v2.tbn:119-141 | one tick of the shifter |
| Serial.SpiByteAssembler.Tick | examples/spi2tlul_v2.tbn:94-107 | one tick of the assembler |
| Serial.BytesAreLittleEndian | examples/spi2tlul_v2.tbn:146-178 | the bytes taken off a word are its little-endian bytes |
| Serial.EightBitsAreTheByte | examples/spi2tlul_v2.tbn:88-142 | eight bits out of the shifter and into the assembler give the byte |
| Serial.ShifterKeepsUp | examples/spi2tlul_v2.tbn:113-178 | within a word's 128 ticks the shifter never idles |
| Serial.SerialRoundTrip | examples/spi2tlul_v2.tbn:88-178 | while no byte meets a full queue, a far end that clocks 128 bits from the first bit of each word gathers the little-endian bytes of the words, in order, and all of them at rest |
| Serial.LosesNothingIffFed | examples/spi2tlul_v2.tbn:113-178 | between words, no byte has met a full queue exactly when every word was taken at a queue of at most two bytes, or of at most one when the shifter had just begun a byte |
| Serial.WordIsTaken | examples/spi2tlul_v2.tbn:152-160 | a word seen between words is taken in that tick, and no other is |
| Serial.EveryByteArrives | examples/spi2tlul_v2.tbn:88-178 | after words that come no faster than that, at most 255 ticks without one bring every byte of them to the far end |
| Wiring.PendingEdges.Bind | src/elaborate.rs:664-703 | one binding: who is recorded as writer and reader, and whether it is an error |
| Wiring.PendingEdges.BindAll | src/elaborate.rs:664-703 | each queue gets its first writer and reader, and exactly the later producers and consumers are errors |
| Wiring.AcceptedIsSingleIff | src/elaborate.rs:664-703 | an accepted wiring is single-writer and single-reader exactly when no state port joins another instance's queue |
| Wiring.StatePortJoins | src/elaborate.rs:691-698 | an accepted wiring with two writers |
| Pruning.RemovalRenumbers | src/elaborate.rs:942-948 | a swap-removal, highest number first, keeps the survivors' renumbering a bijection |
| Pruning.ReferenceFollows | src/elaborate.rs:948-955 | a followed reference still names its edge |
| Pruning.SurvivorCount | src/elaborate.rs:942-965 | survivors and removed edges add up |
| Pruning.Graph.DeadEdges | src/elaborate.rs:923-943 | the dead edges are those of substituted names that no port is bound to, in descending order |
| Pruning.Graph.Rebind | src/elaborate.rs:949-956 | every port bound to the moved edge, and no other, is rebound |
| Pruning.Graph.FixMap | src/elaborate.rs:957-964 | the queue bound to the moved edge, and no other, follows it |
| Pruning.Graph.Prune | src/elaborate.rs:919-967 | exactly the dead edges go, and every port and queue names the edge it named before |
| Deadlock.ClassifyNonBlocking | src/deadlock.rs:122-184 | an edge is non-blocking exactly when it is exempt or no rule takes or puts it in a blocking way |
| Deadlock.CollectEdges | src/deadlock.rs:48-56 | the blocking edges inside a component, each once |
| Deadlock.AnalyzeComponent | src/deadlock.rs:33-113 | the two verdicts on one component |
| Deadlock.Analyze | src/deadlock.rs:19-117 | exactly the components without tokens, and those shallower than they are long, are reported |
| Deadlock.BlockingStops | src/deadlock.rs:122-184 | a blocking queue stops some rule when it is empty or when it is full; what a non-blocking one holds makes no difference to any rule |
| Deadlock.TooShallowIsTooFew | src/deadlock.rs:104-113 | with depths of at least 1 a component is too shallow only if it has fewer blocking edges than processes, and exactly then if all depths are 1 |
| Deadlock.AsyncRingPasses | src/deadlock.rs:141-147 | two processes that wait for each other over queues between clocks pass, and neither can start |
| Deadlock.MemoryLoopPasses | src/deadlock.rs:130-138 | a process that asks its memory and waits is not reported |
| Rings.TokensAreConserved | src/lower.rs:1161-1187 | whatever set of enabled processes fires, a ring's tokens are conserved |
| Rings.MovesIff | src/lower.rs:1161-1187 | some process of a ring can fire exactly when 0 < tokens < total depth |
| Rings.RunConserves | src/lower.rs:1161-1187 | over every run tokens are conserved, and neighbours fire equally often up to what the queue between them gained |
| Rings.GuardIsCanFire | src/lower.rs:1161-1187 | a ring process's guard looks at its two queues and at no cell |
| Rings.RingVerdict | src/deadlock.rs:73-114 | the token check rejects a ring exactly when no queue and no cell starts with a token, and the capacity check rejects none |
| Rings.AcceptedRingRuns | src/deadlock.rs:73-114 | for rings whose processes hold any cells: never stuck exactly when 0 < queue tokens < total depth, stuck from the start otherwise; and accepted but stuck exactly when full, or when the only tokens are the cells' |
| Rings.AcceptedButFull | src/deadlock.rs:104-113 | an accepted ring that is full from the start |
| Rings.CellTokenHidesDeadlock | src/deadlock.rs:266-308 | two processes, two empty queues and one initialised cell are accepted and stuck |
| Desugar.NameInjective | src/desugar.rs:646-646 | an element's port name tells its array and its number |
| Desugar.DesugarExprTwice | src/desugar.rs:403-421 | desugaring an argument a second time changes nothing |
| Desugar.DesugarStmtInto | src/desugar.rs:344-464 | the pass pushes exactly the specified statement |
| Desugar.DesugarBody | src/desugar.rs:328-338 | the pass over a body |
| Expansion.IndexedLetAgrees | src/desugar.rs:673-718 | the match over scalar ports makes the indexed read and binds nothing after it, and does nothing when the index is out of range |
| Expansion.IndexedPutAgrees | src/desugar.rs:632-661 | the match over scalar ports puts where the indexed put puts, and nowhere when the index is out of range |
| Expansion.ExpansionIsDiscarding | src/desugar.rs:328-718 | for every program with statement-level accesses, every size and every content, the expanded program does exactly what the indexed one does with its indexed reads made and dropped |
| Scoping.AcceptedIff | src/types/check.rs:361-445 | the expanded program passes the scope check, which skips indices and operands of updates, exactly when the program does with every indexed read binding nothing for what follows |
| Scoping.ExpansionPreservesMeaning | src/desugar.rs:328-718 | when no name is used after an indexed read has rebound it, the expanded program leaves every port as the indexed program does and blocks when it does |
| Scoping.AcceptedUnshadowedMeansTheSame | src/desugar.rs:328-718 | so does every accepted program whose indexed reads shadow no known name, and whose names in the positions the check skips are known too |
| Scoping.UnvisitedNamePasses | src/types/check.rs:219-248 | a name bound by an indexed read and used only as an index is accepted; the indexed program runs and the expanded one finds no value for it |
| Scoping.ReadAndPutIsRejectedIff | src/types/check.rs:30-46 | a read and a put of the word read are rejected, once expanded, exactly when the name is not known from elsewhere |
| Scoping.ShadowedNameIsOuter | src/types/check.rs:410-417 | with the name bound before, the expanded program puts the earlier value, and means the same exactly when the word read is that value |
| Expansion.NamesUnambiguousIff | src/desugar.rs:45-63 | element names are unambiguous exactly when no scalar port has one of them |
| ExpandedAccess.IndexedCellIsRejected | src/types/linearity.rs:51-152 | in an array of two or more cells an indexed take, try_take or put, wherever it stands in a rule, makes the linearity check complain about every element |
| ExpandedAccess.TakeThenPutIsAcceptedIff | src/types/linearity.rs:51-152 | a take and a put back by index are accepted exactly when the array has one cell |
| ExpandedAccess.IndexedTakeDrainsArray | src/lower.rs:1357-1377 | a rule with an indexed take from an array of queues, in any branch, is enabled only when all have a word, and takes one from each |
| ExpandedAccess.TryTakeWaitsForNothing | src/lower.rs:440-482 | an indexed try_take or peek waits for no element |
| ExpandedAccess.IndexedTakeAgreesIff | src/lower.rs:1357-1377 | an indexed take is enabled and ends as written, whatever the queues hold, exactly when the array has one |
| Scoping.EmittedNameIsLast | src/lower.rs:1566-1591 | in an accepted program that rebinds a name by an indexed take, try_take or peek and puts it, the emitted text is the last element's, so it shows the word read exactly for the last index |
| Packing.PartAt | src/lower.rs:1823-1844 | each part of a concatenation is where the widths after it say |
| Packing.SlicesDisjoint | src/lower.rs:1823-1844 | no two slices share a bit |
| Packing.SlicesCover | src/lower.rs:1823-1844 | every bit of the word is in a slice |
| Packing.ComputeSlices | src/lower.rs:1823-1844 | the running offset from the last component gives each component its slice |
| Packing.PackedWidth | src/lower.rs:21-46 | a packed value has the width of its type |
| Packing.DestructuringRoundTrip | src/lower.rs:1812-1856 | for every type and nesting of patterns, destructuring a packed word binds each name to its own component |
| Packing.OptionRoundTrip | src/lower.rs:1890-1954 | the valid bit tells whether there is a value, and `Some(p)` binds the names to its components |
| Packing.FieldSlice | src/lower_chisel.rs:1059-1076 | the running position from the top gives the field's slice |
| Packing.FieldsReadBackIff | src/lower_chisel.rs:1021-1079 | for given values of given lengths, every field of a packed record reads back the number put there, whatever their bits, exactly when no value is longer than its field |
| Packing.ArrayRoundTrip | src/lower.rs:2090-2123 | an element written is the one read back, and no other changes |
| Packing.ArrayIsItsElements | src/lower.rs:2090-2123 | a word of an array's width is its elements and nothing else: exactly the indices below the size have one |
| CheriBounds.FindExponent | sim/cheri_pkg.sv:279-284 | the loop finds the least exponent that brings the length into the mantissa |
| CheriBounds.SetBounds | sim/cheri_pkg.sv:265-308 | the packed fields for that exponent |
| CheriBounds.BaseInUnits | sim/cheri_pkg.sv:150-173 | the decoded base, in units of 2^e: the mantissa within the address's window |
| CheriBounds.TopInUnits | sim/cheri_pkg.sv:175-205 | the decoded top, one window further when the mantissa has wrapped |
| CheriBounds.BoundsRoundTrip | sim/cheri_pkg.sv:120-308 | below 2^31 the base decodes rounded down to 2^(e+6), and the top to 2^(e+2) exactly when the rounded region is shorter than a window |
| CheriBounds.ShortLengthFits | sim/cheri_pkg.sv:265-308 | up to 960*2^e, or 1016 with exponent 0, it is, at every address |
| CheriBounds.LongLengthFails | sim/cheri_pkg.sv:265-308 | a longer length fails at the last address of the first window |
| CheriBounds.HugeLengthFails | sim/cheri_pkg.sv:160-171 | from 2^31 on the 5-bit shift amount wraps and the base is wrong |
| CheriBounds.UsableLengths | sim/cheri_pkg.sv:120-308 | the lengths that decode right at every address are exactly those below 2^31 with room for the rounding |
| CheriBounds.MoveKeepsBounds | sim/cheri_pkg.sv:212-214 | up to exponent 21, moving the address keeps base and top exactly within the same window of 2^(e+10) bytes |
| CheriBounds.BaseBeyondRange | sim/cheri_pkg.sv:161-171 | from exponent 22 on the window is 2^(e-22) bytes and the address shows through in the base |
| CheriBounds.MoveBeyondRange | sim/cheri_pkg.sv:212-214 | there, for every exponent and mantissa, moving the address keeps the base, and the top, exactly when it changes no bit from e-22 up but those the mantissa sets |
| CheriBounds.RootFollowsAddress | sim/cheri_pkg.sv:58-66 | the root capability's base and top follow its address, and are 0 and 2^32 exactly for its first four addresses |

## Left out

- AsyncFifo.ExactFifo: does not cover depths 1 and 2, which elaboration also admits (src/elaborate.rs:442): the slice `[AWIDTH-2:0]` of the full test is ill-formed there, so the descriptor queue of the SPI bridge (depth 2) is taken as a delaying queue only.
- AsyncFifo.TwoClockFifo.OnBothClks: models metastability as any mixture of old and new bits, nothing electrical; both sides leave reset together, although the emitter passes separate resets.
- Firing.CycleIsSerial: covers rules without `peek` and `try_take` whose takes and puts are at the top level, at most one of each per queue, with one writer and one reader process per queue; conditional puts have no guard and conditional takes dequeue whenever the rule fires, so the property does not extend to them. A queue is the bounded queue, which a depth-1 queue with an initial token (examples/cpu_core.tbn:520 declares one) is not. Asynchronous queues are not edges of this model.
- Firing.RunIsSerial: the same rules and queues.
- Linearity.CheckRule: diagnostics carry the cell and the kind of problem, not source spans or order.
- Uart.LoopbackIsIdentityIff: overflow of the receive queue is not modelled.
- BusFabric.OneTransaction: each pair of FIFOs enters as two delaying queues, of which the condition on events asks what `Crossing.AnswerShowsRoom` proves of every run of such a pair; the bus is not rebuilt edge by edge out of the FIFOs. The client's own put into a full request queue is outside the model.
- BusFabric.DeviceKeeps: UART, manifest, clocks and swatch devices answer anything, each request once; their registers are not modelled.
- FrameParser.FrameIsParsed: one frame from reset; the chip select's reset of the SPI side alone is not modelled.
- DmaEngine.JobsAreCarriedOut: bytes and descriptors that arrive are the ones counted; a byte dropped by the parser's put into a full crossing queue, and a word dropped by the engine's put to the read-data queue, are outside the model. Constant request fields (param, size, source, mask, user) are not modelled.
- Serial.SerialRoundTrip: between words the far end waits for the first bit of the next; how it recognises it is outside the model.
- Wiring.AcceptedIsSingleIff: peekers, type mismatches, unknown queues and queues that join two child pipes are left out.
- Pruning.Graph.Prune: takes the queue map to give each queue an edge of its own that is not dead, as elaboration builds it.
- Deadlock.Analyze: the strongly connected components come from a library and are given; the 64-bit sums are unbounded.
- Rings.AcceptedRingRuns: every depth is at least 1 and a process takes all of its cells. "Accepted implies deadlock-free" is false for general networks; the ring is the case with an exact answer.
- Scoping.ExpansionPreservesMeaning: operators are left uninterpreted, and indexed accesses inside larger expressions, which the pass leaves alone, are excluded; diagnostics, and all of the type check but its scopes, are not modelled.
- Packing.DestructuringRoundTrip: components have positive width and patterns as many components as the tuple.
- Packing.PackedWidth: enums are left out (for a single variant the two width computations disagree).
- CheriBounds.MoveKeepsBounds: decoded exponents up to 21; above, see `CheriBounds.MoveBeyondRange`.
- CheriBounds.BaseInUnits: decoded exponents up to 21; above, see `CheriBounds.BaseBeyondRange`.
- CheriBounds.TopInUnits: decoded exponents up to 21; above, see `CheriBounds.MoveBeyondRange`. Permissions, tags and the draft CHERI specification are not part of this model.
- The CPU pipeline, the instruction dispatch, parsing, type inference, the text of the emitted files, DPI calls, vendor clocking, the command line and the first version of the SPI bridge: they repeat members above or add only case tables.
