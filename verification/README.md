# Verified model of mpz

mpz is a two-party computation library. This project models the protocol logic of its core crates in Dafny and proves
what that logic is for: each optimised, batched, streamed or stateful form is compared with a short mathematical
definition, over all inputs, all circuits, all sizes, all runs or all interleavings.

`dafny verify dfyconfig.toml` checks everything.

## What is modelled

- **Wake-up protocol** (`ThreadPool`). Workers search, announce, recheck and park; producers push, scan, claim and unpark.
  Every atomic load, store, compare-exchange, queue operation and token operation is one step, and any interleaving is a
  run. The steps are held to what a search visits, what a scan wakes, what flags and tokens stand for, and push order.
- **Bit-level arithmetic** (`Polynomials`, `CarrylessMul`, `Gf128`). Words are bit sequences, least significant bit first.
  The masked integer multiplications, the Karatsuba and schoolbook products and the reduction are compared with the
  product in GF(2)[X] and with division by X^128+X^7+X^2+X+1.
- **In-place kernels** (`Cggm`, `Transpose`, `Lpn`): the correlated GGM tree and its punctured form, the bit-matrix
  transpose by perfect shuffles, and batched LPN encoding.
- **Circuit compiler** (`Circuits`, `Builder`, `CircuitOps`, `Blake3Circuit`). A *model* of a gate list gives ids 0 and 1
  their constant values and meets every gate equation; gadgets promise something of every model, `ModelExists` shows that
  models exist for all inputs, and `Build` carries them to the finished circuit. `Blake3Published` is BLAKE3's compression
  function as published, with the message schedule as a table; the repository's form is proved equal to it.
- **Two protocols over any circuit**: half-gate garbling (`Garbling`, `GarbleStreams`) and QuickSilver (`QuickSilver`,
  `QuickSilverStreams`, `CheckSchedule`) with its consistency check (`ConsistencyCheck`).
- **Two-party state machines** (`Visibility`, `GarbleView`, `ZkView`, `ZkSchedule`, `ZkVm`): the memory views that must
  predict identical flushes, and the OT budget and check-batch scheduler of the zk VM. `GarbleHistory` and `ZkHistory`
  (with `Histories`) say what a view holds, accepts and leads to as a function of the steps taken, without the sets the
  code keeps, and `ZkSubmission` what registration during submission guarantees for execution.
- **Streaming hashers** (`BlockBuffer`, `Blake3Tree`, `Blake3Hasher`, `Sha256`) against the recursive tree definition and
  against padding and block-wise compression, and the padding of Keccak-256 (`Keccak256`). `Blake3Standard` ties the
  BLAKE3 hasher to the published constants, flag words and state, and one compression to the built circuit.

Tweakable and correlation-robust hashes, the pseudorandom permutation, random streams, the transcript hash and the
hash functions' compressions are function parameters, so every statement holds for all of them. Range sets are sets of
cells. Integers are unbounded except where the width matters: words, blocks and bytes have their exact number of bits, and
wrap-around, masks and shifts are written out.

## Where the code and its documentation differ

- `transpose_bits` (crates/matrix-transpose/src/lib.rs:28-31) documents that rows must be a power of two. With 1, 2 or 4
  rows an accepted shape makes `bitmask_shift` collect eight bytes per row and copy them over a shorter row, which panics.
  `GatheredFits` shows that this happens exactly below eight rows, `OneRowDoesNotFit` names an input, and `TransposeBits`
  has the panic as an outcome. Zero rows underflow in the first check and are a precondition.
- The comment on the zk VM's chunk (crates/zk/src/prover.rs:129-133) says at most `chunk_cap` AND gates; `extract_if`
  stops once the limit is met or exceeded. `ChunkExceedsCap` names an input, `ChunkFitsIff` says exactly when the comment
  holds, and `ChunkBound` bounds the excess by one call.
- `build` (crates/circuits-core/src/builder.rs:192-267) asks nothing of the outputs. Constants make it panic; repeated
  outputs, or inputs among the outputs, can silently misplace wires. `RenumbersIffPlaced` says exactly when the numbering
  is right and `RepeatedOutput` names an input for which it is not.
- `decode` of the garbled memory view (crates/garble-core/src/view.rs:313-324) is to send decoding information for outputs
  and for the garbler's inputs. A garbler's input marked for decoding before its visibility is set never gets any:
  `GarblerInputDecodedIff` says exactly when it does, `DecodeFirstLost` names the steps.
- The Keccak-256 hasher (crates/hash/src/keccak256.rs:141-163) pads into another block when one byte of the block is free,
  where section 5.1 of FIPS 202 puts both padding bits into that byte. `PaddingStandardIff` says that this is the only case,
  `OneFreeByte` names an input.
- `compute_with_bits` documents n = 8·y_bits.len() but checks the rounded-up length; the model follows the check, and bits
  past the last row are proved untouched.

## Model

| member | source | states |
|---|---|---|
| `ThreadPool.NoLostWakeup` | crates/common/src/thread_pool.rs:277-381 | In every interleaving of workers' and producers' atomic steps: if something is queued and no producer is between its push and the end of its scan, some worker is not blocked in `park`; work in the injector leaves a worker that will look at the injector again or holds a token; a blocked worker's own queue is empty |
| `ThreadPool.InvariantStep` | crates/common/src/thread_pool.rs:277-381 | Each of the fourteen steps keeps the invariant: flags up or claimed for announced workers, empty queues for workers that saw them empty, and a producer that will wake someone whenever all workers are asleep over queued work |
| `ThreadPool.InvariantReached` | crates/common/src/thread_pool.rs:277-381 | The invariant holds in every reachable state |
| `ThreadPool.PassedOver` | crates/common/src/thread_pool.rs:369-380 | For every worker: a producer moves on from a sleeping worker only because another producer holds the claim on it, so the wake-up is not lost in the race for the flag |
| `ThreadPool.WorkIsTaken` | crates/common/src/thread_pool.rs:277-381 | Progress: from every reachable state with work queued and no producer scanning, one worker takes a task within n + 4 steps of its own, with no step by anyone else |
| `ThreadPool.VictimsAreOthers` | crates/common/src/thread_pool.rs:334-346 | For every two different workers exactly one position of the first one's search visits the second: a search looks at every other worker, once |
| `ThreadPool.SearchFindsWork` | crates/common/src/thread_pool.rs:321-350 | From every state of the invariant, a worker at the start of a search takes a task within n + 1 steps of its own, all but the last of which see a queue empty, so before announcing or parking, whenever any queue, its own or another's, holds work |
| `ThreadPool.SearchSeesEveryQueue` | crates/common/src/thread_pool.rs:321-350 | Under every interleaving, a search that takes nothing has seen every queue, its own and each other worker's, empty at some time before the worker announces itself or parks |
| `ThreadPool.PushWakesFirst` | crates/common/src/thread_pool.rs:367-380 | Without interference a push lowers the first raised flag, hands that worker a token and changes nothing else but the injector; with no flag up it only queues what was pushed |
| `ThreadPool.ScanSeesEveryFlag` | crates/common/src/thread_pool.rs:367-380 | Under every interleaving, a push whose scan ends without waking anyone has seen every worker's flag down at some time: losing the race for one worker, the producer goes on to the next |
| `ThreadPool.FlagsAndTokens` | crates/common/src/thread_pool.rs:289-316 | In every reachable state a worker's flag is up only while the worker is announced or about to withdraw, and each return from `park` so far used up one token a producer handed to that worker |
| `ThreadPool.OneWakePerPush` | crates/common/src/thread_pool.rs:367-380 | Over every run a producer wakes at most once per push |
| `ThreadPool.ScanIsBounded` | crates/common/src/thread_pool.rs:367-380 | Over every run, whatever the others do, a producer takes at most 2n + 2 steps for each push: a scan tries each worker once |
| `ThreadPool.OneWorkerIsFifo` | crates/common/src/thread_pool.rs:321-350 | Over every run of a pool with one worker, the tasks started, then those waiting, are the tasks pushed, in order |
| `ThreadPool.QueuesInPushOrder` | crates/common/src/thread_pool.rs:321-350 | For any number of workers and any interleaving, the injector and every local queue always hold their tasks in push order |
| `ThreadPool.TakesOldest` | crates/common/src/thread_pool.rs:321-350 | Every step that takes a task takes the oldest task of the queue it looks at |
| `ThreadPool.RunConservesTasks` | crates/common/src/thread_pool.rs:277-381 | Over a whole run every task is queued, in a worker's hands or finished exactly as often as it was pushed |
| `CarrylessMul.SlotBound` | crates/fields/src/bmul.rs:5-38 | A slot of a lane product collects at most one pair of bits per lane position at or below it: at most 15 below the top slot |
| `CarrylessMul.LaneProductBit` | crates/fields/src/bmul.rs:13-38 | At every position of its own lane, the wrapping integer product of two lanes has the parity of the carry-less product: carries never reach the next slot |
| `CarrylessMul.Bmul64Correct` | crates/clmul/src/backend/soft64.rs:87-108 | For all 64-bit words the four masked sums of integer products are the low 64 bits of the GF(2)[X] product |
| `CarrylessMul.LaneMaskConstant` | crates/clmul/src/backend/soft64.rs:88-95 | The four lane masks are the constants 0x1111..., 0x2222..., 0x4444..., 0x8888... |
| `CarrylessMul.Rev64BytesCorrect` | crates/fields/src/bmul.rs:42-49 | Three exchanges and a byte swap reverse the 64 bits |
| `CarrylessMul.Rev64Correct` | crates/clmul/src/backend/soft64.rs:111-118 | Five exchanges and a rotation reverse the 64 bits |
| `CarrylessMul.Bmul64FullCorrect` | crates/fields/src/bmul.rs:53-61 | Low half and reversed-product high half together are the full 128-bit product |
| `CarrylessMul.Bmul128FullCorrect` | crates/fields/src/bmul.rs:66-92 | The schoolbook combination of four products is the full 256-bit product |
| `CarrylessMul.ClmulCorrect` | crates/clmul/src/backend/soft64.rs:45-79 | Karatsuba with every high half recovered through bit reversal is the full 256-bit product, for all blocks |
| `Gf128.ReduceGcmCorrect` | crates/clmul/src/backend.rs:18-42 | `reduce_gcm(low, high)` is the residue of the 256-bit polynomial modulo X^128+X^7+X^2+X+1 |
| `Gf128.ResidueIsRemainder` | crates/clmul/src/backend.rs:11-42 | The residue is exactly the block that differs from the polynomial by a multiple of the modulus (both directions): division with remainder, without naming any reduction algorithm |
| `Gf128.GfMulIsRemainder` | crates/core/src/block.rs:104-108 | `gfmul(a, b)` returns r if and only if a·b = q·(X^128+X^7+X^2+X+1) + r for some q |
| `Gf128.MulOne` | crates/core/src/block.rs:33-108 | The constant one is the identity of field multiplication, for all blocks |
| `Gf128.MulCommutes` | crates/core/src/block.rs:104-108 | Field multiplication commutes |
| `Gf128.MulAssociates` | crates/core/src/block.rs:104-108 | Field multiplication associates |
| `Gf128.MulDistributes` | crates/core/src/block.rs:104-108 | Field multiplication distributes over XOR on both sides |
| `Gf128.GfMulCorrect` | crates/core/src/block.rs:88-108 | `gfmul` is the field multiplication, so the three laws above hold of it |
| `Gf128.InnerProductCorrect` | crates/core/src/block.rs:112-127 | Reducing the XOR of unreduced products once equals the XOR of the individual field products, for any number of terms |
| `Cggm.LevelSum` | crates/core/src/cggm.rs:100-130 | The nodes of every level XOR to delta; at a masked leaf level to delta with its lowest bit cleared |
| `Cggm.ExpandLevel` | crates/core/src/cggm.rs:57-92 | Expanding a level in place, 64 parents at a time, gives left children then right children and the XOR of the requested side, whatever the level's size |
| `Cggm.Expand` | crates/core/src/cggm.rs:100-130 | The whole in-place expansion leaves the leaf level of the tree and the left sum of each level |
| `Cggm.ExpandPunctured` | crates/core/src/cggm.rs:133-170 | From the off-path sums of any tree and index, whatever the buffer held, the result is the full leaf array with that one leaf zeroed |
| `Cggm.SiblingRecovered` | crates/core/src/cggm.rs:144-166 | The side sum of the punctured level, minus the junk child, plus the given sum, is the missing sibling, on either side and with the leaf mask |
| `Cggm.PuncturedSum` | crates/core/src/cggm.rs:133-170 | XORing the punctured leaves gives the missing leaf offset by the (masked) delta |
| `Cggm.LeafOnPath` | crates/core/src/cggm.rs:57-128 | Every leaf of the level-wise expansion is what its own path from the seeds gives: a left turn hashes the node, a right turn XORs it with its hash, and only the leaf level is masked |
| `Transpose.ShuffledTransposes` | crates/matrix-transpose/src/scalar.rs:14-39 | r perfect shuffles send index i·c+j to j·2^r+i, for every row count 2^r and any number of columns |
| `Transpose.TransposeUnchecked` | crates/matrix-transpose/src/scalar.rs:14-39 | The two swapped buffers leave the result of all rounds in the caller's slice for even and odd round counts |
| `Transpose.BitmaskShift` | crates/matrix-transpose/src/scalar.rs:47-62 | For any row width every row is replaced by its bits gathered position by position; the copy back fails exactly if the width is not a multiple of eight |
| `Transpose.TransposeBits` | crates/matrix-transpose/src/lib.rs:32-58 | Bit (i, j) moves to (j, i) for every accepted shape with at least eight rows; each refused shape reports its error and leaves the slice alone; with fewer than eight rows an accepted shape panics |
| `Transpose.CheckShapeCorrect` | crates/matrix-transpose/src/lib.rs:33-48 | The bit-mask tests are the arithmetic conditions: rows a power of two, a rectangular slice, a positive multiple of eight columns |
| `Transpose.GatheredFits` | crates/matrix-transpose/src/scalar.rs:47-62 | For every row whose width is a power of two, the bytes the eight passes gather, with a partial last group where the width asks for one, have the row's length if and only if the width is at least eight |
| `Transpose.OneRowDoesNotFit` | crates/matrix-transpose/src/lib.rs:28-58 | One row of eight bytes passes every check and cannot be copied back, although the documentation asks only for a power of two |
| `Lpn.LpnEncoder.ComputeIndices` | crates/core/src/lpn.rs:87-102 | Generating the index blocks of several groups at once gives each group's own blocks, for both counter layouts |
| `Lpn.LpnEncoder.ComputeRows` | crates/core/src/lpn.rs:106-128 | Up to sixteen rows of a chunk become encoded and no other row changes |
| `Lpn.LpnEncoder.Compute` | crates/core/src/lpn.rs:186-205 | For every n the batched in-place computation equals the row-by-row definition y = A·x + e |
| `Lpn.LpnEncoder.ComputeWithBits` | crates/core/src/lpn.rs:228-259 | The same over blocks and over packed bits with one matrix; bits past the last row stay as they were |
| `Lpn.EncodingKeepsCorrelation` | crates/core/src/lpn.rs:186-259 | If secrets and errors satisfy mac = key XOR bit·delta, all outputs do |
| `Lpn.LpnEncoder.MaskReduces` | crates/core/src/lpn.rs:73-76 | Masking with k-1 reduces modulo k, since k is a power of two |
| `Lpn.ColumnAt` | crates/core/src/lpn.rs:77-123 | Column j of row r is word p mod 4 of the (p / 4)-th permuted index block of the row's group, where p = (r mod 4)·D + j |
| `Lpn.GroupColumns` | crates/core/src/lpn.rs:77-123 | The columns of the four rows of a group, concatenated, are the permuted index blocks of the group, concatenated |
| `Lpn.IndexBlocksDistinct` | crates/core/src/lpn.rs:38-66 | In both counter layouts two index blocks are equal if and only if they are the same block of the same group |
| `Lpn.IndexBlockLayout` | crates/core/src/lpn.rs:41-66 | In the emp layout the blocks of all groups in order are the counters 0, 1, 2, ... with a zero high half; in the other they are row position and lane |
| `Lpn.EncodedIsProduct` | crates/core/src/lpn.rs:8-24 | The encoding is A·x + e for the binary matrix whose entries are the parities of the column indices, with at most D non-zero entries in each row |
| `Circuits.EvaluateRaw` | crates/circuits-core/src/circuit.rs:64-104 | A buffer of the wrong size is refused unchanged; otherwise the buffer is the run of the gates in order |
| `Circuits.RunSolves` | crates/circuits-core/src/circuit.rs:64-129 | Running a well-formed circuit meets every gate equation at once, and every solution has the same outputs |
| `Circuits.Evaluate` | crates/circuits-core/src/circuit.rs:108-129 | The outputs are those of any valuation that solves the circuit, and one exists; too few input bits are refused with the count |
| `Builder.CircuitBuilder.AddXorGate` | crates/circuits-core/src/builder.rs:79-111 | In every model of the new gates the node is the XOR of its operands, constants included; new models are old models, and no pushed gate reads id 0 or 1 |
| `Builder.CircuitBuilder.AddAndGate` | crates/circuits-core/src/builder.rs:123-141 | The same for AND |
| `Builder.CircuitBuilder.AddInvGate` | crates/circuits-core/src/builder.rs:152-165 | The same for inversion |
| `Builder.CircuitBuilder.AddIdGate` | crates/circuits-core/src/builder.rs:176-189 | The same for identity |
| `Builder.ModelExists` | crates/circuits-core/src/builder.rs:62-189 | For every input assignment the folded gates have a model, so the statements about all models are never empty |
| `Builder.NumberWires` | crates/circuits-core/src/builder.rs:192-250 | For any outputs that are no constants the loops leave the specified id map: inputs, then outputs, then the next free id for every gate output that has none; each gate keeps the id its output got |
| `Builder.RenumbersIffPlaced` | crates/circuits-core/src/builder.rs:192-250 | That map is one-to-one with every input and every output at its place if and only if the outputs are distinct and each falls on a gate output, or, among the input wires, on the very input that is there |
| `Builder.RepeatedOutput` | crates/circuits-core/src/builder.rs:211-239 | A repeated output is misplaced: where every model gives its node x twice, the built circuit yields the negation of x and x, and cannot yield x twice |
| `Builder.RebuiltWellFormed` | crates/circuits-core/src/builder.rs:192-267 | With outputs so placed the renumbered gates are in topological, single-assignment order with the right AND count and every output defined |
| `Builder.CircuitBuilder.Build` | crates/circuits-core/src/builder.rs:192-267 | Fails exactly if an output is a constant or there are more outputs than wires; otherwise renames the gates by the id map, and with outputs so placed the circuit is well formed and on any inputs yields what the unrenumbered gates give its output nodes |
| `CircuitOps.FullAdder` | crates/circuits-core/src/ops.rs:9-26 | Sum and carry are XOR and majority of the three nodes in every model |
| `CircuitOps.WrappingAdd` | crates/circuits-core/src/ops.rs:55-83 | For every width, with constant or variable nodes: (a+b) mod 2^n |
| `CircuitOps.WrappingSub` | crates/circuits-core/src/ops.rs:88-118 | For every width: (a-b) mod 2^n, and the underflow node is set exactly when a < b |
| `CircuitOps.Switch` | crates/circuits-core/src/ops.rs:158-176 | Selects the first word when the toggle is 0 and the second when it is 1 |
| `CircuitOps.AddMod` | crates/circuits-core/src/ops.rs:127-153 | (a+b) mod m whenever a and b are below the modulus held in nodes |
| `Blake3Circuit.RotateRightValue` | crates/circuits-core/src/circuits/blake3.rs:47-48 | The leftward rotation of the bit slice is the rightward rotation of the word: it divides the value by 2^k and puts the remainder on top |
| `Blake3Circuit.Mix` | crates/circuits-core/src/circuits/blake3.rs:40-93 | One call of mix updates the four state words as the word-level quarter round does, for any nodes, constants included |
| `Blake3Circuit.Round` | crates/circuits-core/src/circuits/blake3.rs:95-109 | A round is the four column mixes followed by the four diagonal mixes, for any nodes |
| `Blake3Circuit.CompressInternal` | crates/circuits-core/src/circuits/blake3.rs:117-134 | Seven rounds with the permuted schedule and the feed-forward equal the word-level compression in every model, for any nodes; if none is a constant the 512 result bits are the last 512 gates |
| `Blake3Circuit.Compress` | crates/circuits-core/src/circuits/blake3.rs:21-38 | The built circuit takes 1024 bits to 512 bits and yields the word-level compression for all inputs |
| `Blake3Published.ScheduleIsPublished` | crates/circuits-core/src/circuits/blake3.rs:10-13 | Permuting the message after each round gives, for every message, the words named by the seven published rows of the message schedule |
| `Blake3Published.RoundReadsEachWord` | crates/circuits-core/src/circuits/blake3.rs:10-13 | In each of the seven rows every message word stands at exactly one position |
| `Blake3Published.RoundStepsPublished` | crates/circuits-core/src/circuits/blake3.rs:95-107 | The eight mixes of a round are the four columns and then the four diagonals, each row of the state turned by its number, with message words 2i and 2i + 1 in order |
| `Blake3Published.CompressionIsPublished` | crates/circuits-core/src/circuits/blake3.rs:40-133 | For every message and state the compression function the circuit is compared with is the published one: seven rounds of line-by-line quarter rounds over the tabulated schedule, then the feed-forward |
| `Blake3Standard.StateLayout` | crates/hash/src/blake3.rs:117-139 | The state of a compression: words 0-7 the chaining value, 8-11 the initial vector, 12 and 13 the low and high half of the counter, 14 the block length, 15 the flags |
| `Blake3Standard.InitialVectorIsRoots` | crates/hash/src/blake3.rs:35-39 | The eight constants are the first 32 fractional bits of the square roots of the first eight primes |
| `Blake3Standard.CompressBlock` | crates/hash/src/blake3.rs:288-311 | One call of the built circuit on block, chaining value, state and flags, truncated to 256 bits, is the published compression |
| `Garbling.AndGateCorrect` | crates/garble-core/src/garbler.rs:24-61 | Evaluating a garbled AND gate yields the label of the AND of the two bits, for any hash and gate id |
| `Garbling.RowTweaks` | crates/garble-core/src/garbler.rs:37-60 | Of the hash, the generator's row depends only on tweak gid and the evaluator's row only on tweak gid + 1; where the hash is zero they are delta under the permute bit of y, and the zero label of x |
| `Garbling.TableTweaks` | crates/garble-core/src/garbler.rs:37-60 | In every gate list the table of the i-th AND gate hashes under tweaks 2i + 1 and 2i + 2 only, one for each row |
| `Garbling.TweaksDisjoint` | crates/garble-core/src/garbler.rs:231-238 | Different AND gates have different numbers and disjoint pairs of tweaks, so no tweak serves two half gates of a circuit |
| `Garbling.GarblingCorrect` | crates/garble-core/src/evaluator.rs:26-48 | For every well-formed circuit the evaluator's label on every wire is the garbler's zero label XOR bit·delta, with the garbler's tables possibly followed by more |
| `Garbling.GarblingIgnoresBuffer` | crates/garble-core/src/garbler.rs:85-112 | Labels and tables do not depend on what the reused buffer held before |
| `Garbling.EvaluationIgnoresBuffer` | crates/garble-core/src/evaluator.rs:78-103 | Nor do the evaluator's labels, nor on surplus tables |
| `GarbleStreams.EncryptedGateIter.Next` | crates/garble-core/src/garbler.rs:215-269 | Each call yields the next AND gate's table; the last one also takes the free gates after it |
| `GarbleStreams.EncryptedGateIter.Finish` | crates/garble-core/src/garbler.rs:192-205 | Refuses while gates remain; otherwise returns the output zero labels, also for a circuit without AND gates |
| `GarbleStreams.EncryptedGateBatchIter.Next` | crates/garble-core/src/garbler.rs:301-318 | A batch holds the next tables, zero-padded when they run out |
| `GarbleStreams.EncryptedGateConsumer.Next` | crates/garble-core/src/evaluator.rs:171-219 | A table serves the next AND gate; a surplus one is ignored |
| `GarbleStreams.EncryptedGateConsumer.Finish` | crates/garble-core/src/evaluator.rs:222-236 | Refuses while tables are missing; otherwise returns the active output labels |
| `GarbleStreams.EncryptedGateBatchConsumer.Next` | crates/garble-core/src/evaluator.rs:256-265 | Uses exactly the tables still wanted from a batch and skips its padding |
| `GarbleStreams.PassAll` | crates/garble-core/src/garbler.rs:278-319 | With any batch size of at least one, garbler and evaluator keep equal gate ids and counters, and the evaluator ends with exactly the garbler's tables |
| `GarbleStreams.HalfGateRun` | crates/garble-core/src/evaluator.rs:64-272 | A whole two-party run with any circuit, batch size, hash and dirty buffers: the output labels encode the circuit's outputs |
| `GarbleStreams.EvaluateGarbledCircuits` | crates/garble-core/src/evaluator.rs:275-304 | Jobs sharing one buffer each give what they give in a buffer of their own; the first bad job's error is reported |
| `QuickSilver.GateAuth` | crates/memory-core/src/correlated.rs:39-54 | Derandomizing an OT onto a bit gives MAC = key XOR bit·delta with LSB(key) = 0 and LSB(MAC) = the bit |
| `QuickSilver.ExecutionCorrect` | crates/zk-core/src/prover.rs:198-250 | On every wire of every well-formed circuit the MAC is the key XOR bit·delta, the key's LSB is 0, the MAC's LSB is the bit, and every recorded triple is good |
| `QuickSilverStreams.Prover.Execute` | crates/zk-core/src/prover.rs:21-58 | Wrong input, mask or MAC counts are refused in that order without touching the check; otherwise a window of the check is reserved |
| `QuickSilverStreams.ProverExecute.Next` | crates/zk-core/src/prover.rs:198-250 | Each call yields the next AND gate's adjustment bit; the last one also takes the free gates after it |
| `QuickSilverStreams.ProverExecute.Finish` | crates/zk-core/src/prover.rs:163-175 | Writes the triples and bits into the reserved window and returns the output MACs, or refuses an incomplete run |
| `QuickSilverStreams.Verifier.Execute` | crates/zk-core/src/verifier.rs:35-65 | Wrong input or key counts are refused; otherwise a window is reserved |
| `QuickSilverStreams.VerifierExecute.Next` | crates/zk-core/src/verifier.rs:205-259 | A bit serves the next AND gate; a circuit without AND gates is processed at once; surplus bits are ignored |
| `QuickSilverStreams.VerifierExecute.Finish` | crates/zk-core/src/verifier.rs:165-177 | Writes the verifier's triples and bits and returns the output keys, or refuses an incomplete run |
| `QuickSilverStreams.ExecuteBoth` | crates/zk-core/src/verifier.rs:130-259 | A streamed execution by both parties leaves authenticated evaluations on the outputs and matching, good triples in both checks |
| `CheckSchedule.AnyOrderConcatenates` | crates/zk-core/src/check.rs:44-54 | However executions overlap, the check ends with their records in the order they were started |
| `CheckSchedule.EveryPrefixCompletes` | crates/zk-core/src/check.rs:44-54 | No order is excluded: every legal interleaving of starts and finishes extends to a complete one, and any execution under way can be the next to finish |
| `CheckSchedule.PartiesAligned` | crates/zk-core/src/check.rs:44-54 | Two parties whose executions finish in different orders are aligned gate by gate, triples and adjustment bits |
| `CheckSchedule.OverlappingRunsAccepted` | crates/zk-core/src/check.rs:44-252 | For any executions of any circuits on authenticated inputs with correlated gate OTs, overlapping in any order and differently for the two parties, the verifier accepts |
| `ConsistencyCheck.VoleCorrect` | crates/zk-core/src/vole.rs:16-33 | B = A0 XOR delta·A1 for all correlated OTs |
| `ConsistencyCheck.ResidualSum` | crates/zk-core/src/check.rs:64-252 | For any number of authenticated triples, w XOR u XOR delta·v is delta² times the XOR of chi over exactly the triples whose output bit is not the AND |
| `ConsistencyCheck.AcceptsIff` | crates/zk-core/src/check.rs:164-252 | With the VOLE mask the verifier accepts if and only if that residual is zero; so every honest run is accepted |
| `ConsistencyCheck.AcceptsIffBadSumZero` | crates/zk-core/src/check.rs:164-252 | If delta is invertible the verifier accepts if and only if the coefficients of the bad triples XOR to zero |
| `ConsistencyCheck.OneBadRejected` | crates/zk-core/src/check.rs:164-252 | With an invertible delta a single bad triple is caught unless its own random coefficient is zero |
| `ConsistencyCheck.ProcessProver` | crates/zk-core/src/check.rs:92-142 | Splitting the triples into 512-wide segments, each on its own random stream, gives the same sums |
| `ConsistencyCheck.ChiStream` | crates/zk-core/src/check.rs:19-140 | Triple 512·q + r takes value r of random stream q |
| `ConsistencyCheck.ProcessVerifier` | crates/zk-core/src/check.rs:186-230 | The same for the verifier's sum |
| `ConsistencyCheck.Check.Reserve` | crates/zk-core/src/check.rs:44-48 | Returns the start of a window of default triples; the adjustment bits are resized to match |
| `ConsistencyCheck.Check.Write` | crates/zk-core/src/check.rs:51-54 | Overwrites exactly one window of triples and bits |
| `ConsistencyCheck.Check.CheckProver` | crates/zk-core/src/check.rs:64-160 | The message, the transcript and the cleared state; a wrong number of masks is an error after the triples were consumed |
| `ConsistencyCheck.Check.CheckVerifier` | crates/zk-core/src/check.rs:164-252 | The verdict, the transcript and the cleared state; a wrong number of keys is an error after the triples were consumed |
| `Visibility.SetKeeps` | crates/memory-core/src/view.rs:114-144 | Public, private, blind and uninitialized cells stay a partition of memory |
| `Visibility.FreshRange` | crates/memory-core/src/view.rs:52-62 | An allocated range with nothing set is all uninitialized, so marking it changes no visibility |
| `GarbleView.StepValid` | crates/garble-core/src/view.rs:157-367 | Every step keeps the invariant linking what is committed, decodable, decoded and about to be flushed |
| `GarbleView.VisibilityFixed` | crates/garble-core/src/view.rs:169-203 | A visibility, once set, never changes |
| `GarbleView.MirroredStep` | crates/garble-core/src/view.rs:157-367 | A mirrored step keeps both parties' flush views and completion sets equal |
| `GarbleView.MirroredErrors` | crates/garble-core/src/view.rs:169-299 | The parties refuse the same steps for the same reasons, up to each one's own assignments |
| `GarbleView.FlushViewsAgree` | crates/garble-core/src/view.rs:157-367 | Over every run of mirrored steps and local assignments, garbler and evaluator predict the same flush and agree on what is complete |
| `GarbleView.TwoFlushes` | crates/garble-core/src/view.rs:347-367 | From any reachable state two flushes empty the flush view, and everything then ready is decoded |
| `GarbleView.EmptyFlushDecoded` | crates/garble-core/src/view.rs:234-367 | With an empty flush view every completed output and every committed evaluator input marked for decoding is decoded |
| `GarbleView.View.Commit` | crates/garble-core/src/view.rs:258-299 | The commit method takes the specified step or reports the first failing check and changes nothing |
| `GarbleView.View.SetPreprocessed` | crates/garble-core/src/view.rs:218-231 | As specified by the state machine, refusing ranges that are not output |
| `GarbleView.View.SetOutput` | crates/garble-core/src/view.rs:234-252 | As specified by the state machine, refusing ranges that are not output |
| `GarbleView.View.Decode` | crates/garble-core/src/view.rs:301-345 | As specified by the state machine, with nothing done for ranges already decoded |
| `GarbleView.View.CompleteFlush` | crates/garble-core/src/view.rs:347-367 | As specified by the state machine: completes the flush and schedules what became provable |
| `GarbleHistory.HistoryDetermines` | crates/garble-core/src/view.rs:142-367 | After any accepted steps in any order every set of the view is a function of the steps: visibilities, inputs, outputs, assignments, what is preprocessed, computed and marked for decoding; what is committed is complete or staged by the way that fits its visibility; what is decoded or staged for it is marked and ready |
| `GarbleHistory.FlushedHistory` | crates/garble-core/src/view.rs:218-367 | After any accepted steps and two flushes nothing is left to flush, everything committed is complete, what is decoded is exactly what was marked for decoding and computed or committed by the evaluator, and decoding information was sent for exactly what was marked and preprocessed and for the garbler's inputs marked for decoding after they became the garbler's |
| `GarbleHistory.CommitCompletes` | crates/garble-core/src/view.rs:258-299 | A range of an accepted `commit`, anywhere in a run, is complete once flushed |
| `GarbleHistory.OutputDecoded` | crates/garble-core/src/view.rs:234-345 | A range that was set as output and marked for decoding, in either order and with anything in between, is decoded once flushed |
| `GarbleHistory.InputDecoded` | crates/garble-core/src/view.rs:258-345 | So is an input of the evaluator that was committed and marked for decoding |
| `GarbleHistory.GarblerInputDecodedIff` | crates/garble-core/src/view.rs:310-324 | An input of the garbler gets its decoding information if and only if some `decode` of it came after its visibility was set |
| `GarbleHistory.DecodeFirstLost` | crates/garble-core/src/view.rs:301-324 | One cell, allocated, decoded, marked private, assigned and committed by the garbler: all steps are accepted and no decoding information is ever sent |
| `GarbleHistory.AcceptedIff` | crates/garble-core/src/view.rs:169-281 | A step is accepted if and only if a condition on the earlier steps holds: visibility set once and on inputs only, values assigned to what the party sees, outputs set only on outputs, and commits of ranges all marked, assigned where visible, and not complete |
| `ZkView.StepValid` | crates/zk-core/src/view.rs:124-284 | Every step keeps the invariant linking what is committed, decoded and about to be flushed |
| `ZkView.VisibilityFixed` | crates/zk-core/src/view.rs:136-170 | A visibility, once set, never changes |
| `ZkView.MirroredStep` | crates/zk-core/src/view.rs:124-284 | A mirrored step keeps both parties' flush views and completion sets equal |
| `ZkView.MirroredErrors` | crates/zk-core/src/view.rs:136-241 | The parties refuse the same steps for the same reasons, up to each one's own assignments |
| `ZkView.FlushViewsAgree` | crates/zk-core/src/view.rs:124-284 | Over every run of mirrored steps and local assignments, prover and verifier predict the same flush and agree on what is complete |
| `ZkView.TwoFlushes` | crates/zk-core/src/view.rs:273-284 | From any reachable state two flushes of its own flush view empty it, and everything then ready is decoded |
| `ZkView.EmptyFlushDecoded` | crates/zk-core/src/view.rs:185-284 | With an empty flush view every completed output and every committed prover input marked for decoding is decoded |
| `ZkView.View.Commit` | crates/zk-core/src/view.rs:202-241 | The commit method takes the specified step or reports the first failing check and changes nothing |
| `ZkView.View.SetOutput` | crates/zk-core/src/view.rs:185-196 | As specified by the state machine, refusing ranges that are not output |
| `ZkView.View.Decode` | crates/zk-core/src/view.rs:243-271 | As specified by the state machine, with nothing done for ranges already decoded |
| `ZkView.View.CompleteFlush` | crates/zk-core/src/view.rs:273-284 | As specified by the state machine, for any flush view given |
| `ZkHistory.HistoryDetermines` | crates/zk-core/src/view.rs:109-285 | After any accepted steps in any order every set of the view is a function of the steps; what was committed and is public or the prover's is complete or staged, and what is decoded or staged for proving is exactly what is marked for decoding and ready |
| `ZkHistory.FlushedHistory` | crates/zk-core/src/view.rs:185-285 | After any accepted steps and two flushes nothing is left to flush, what is complete is exactly what was committed and is public or the prover's, and what is decoded is exactly what was marked for decoding and computed, or committed by the prover |
| `ZkHistory.CommitCompletes` | crates/zk-core/src/view.rs:202-241 | In the VM, where neither party marks an input the other's way, a range of an accepted `commit`, anywhere in a run, is complete once flushed |
| `ZkHistory.OutputDecoded` | crates/zk-core/src/view.rs:185-285 | A range that was set as output and marked for decoding, in either order and with anything in between, is decoded once flushed |
| `ZkHistory.InputDecoded` | crates/zk-core/src/view.rs:202-285 | So is an input of the prover that was committed and marked for decoding |
| `ZkHistory.AcceptedIff` | crates/zk-core/src/view.rs:136-232 | A step is accepted if and only if a condition on the earlier steps holds: visibility set once and on inputs only, values assigned to what the party sees, outputs set only on outputs, and commits of ranges all marked, assigned where visible, and not complete |
| `ZkSchedule.BudgetBalances` | crates/zk/src/prover.rs:120-343 | Over every run of submissions, reservations, flushes and executes, both parties draw the same sequence of sizes, and reserved minus consumed OTs are registered gates + 128·registered checks + unclaimed input reservations |
| `ZkSchedule.EventSound` | crates/zk/src/verifier.rs:121-330 | Every event keeps one party's budget balanced |
| `ZkSchedule.ChunkDrawsTotal` | crates/zk/src/prover.rs:151-178 | The draws of a chunk, call by call and check by check, add up to its gates and 128 per simulated check |
| `ZkSchedule.ChunkBound` | crates/zk/src/callstack.rs:28-53 | A chunk exceeds the soft limit by less than its largest call |
| `ZkSchedule.ChunkFitsIff` | crates/zk/src/prover.rs:129-143 | A chunk totals at most the cap if and only if all ready calls together do, or some number of leading ready calls total exactly the cap |
| `ZkSchedule.ChunkExceedsCap` | crates/zk/src/prover.rs:129-143 | One ready call of two gates under a cap of one gate is extracted, so the documented bound fails |
| `ZkSchedule.ChunkCommitted` | crates/zk/src/prover.rs:134-142 | Every input of every call of a chunk lies wholly in completed inputs or wholly in computed outputs |
| `ZkSchedule.ReadyLeftOnlyIfFull` | crates/zk/src/prover.rs:134-142 | A call all of whose inputs are complete stays behind only if the chunk has reached the cap |
| `ZkSubmission.SubmissionsRegister` | crates/zk/src/prover.rs:313-341 | Any sequence of submissions registers one check for every started batch of the whole stack, never more gates than the chunk window, and all gates as long as all of them fit; what is reserved is exactly that |
| `ZkSubmission.CheckCountBound` | crates/zk/src/prover.rs:153-178 | Executing calls triggers at most one check for every started batch of gates: registration over-provisions |
| `ZkSubmission.RegistrationSuffices` | crates/zk/src/prover.rs:180-190 | If everything submitted fits the chunk window, executing any part of it, whatever the memory view is by then, reserves nothing further |
| `ZkSubmission.GatesWithinWindow` | crates/zk/src/prover.rs:313-322 | Over every run of both parties the registered gates never exceed the chunk window |
| `ZkSubmission.ExecuteCompletes` | crates/zk/src/prover.rs:260-268 | Executing a chunk completes the outputs of its calls and no others |
| `ZkSubmission.CheckDraws` | crates/zk/src/prover.rs:270-274 | A check draws one OT per bit of a block |
| `ZkVm.CallStack.ExtractIf` | crates/zk/src/callstack.rs:28-53 | Takes the ready calls in order until the soft limit is met, keeps the others in order, and keeps the gate count exact |
| `ZkVm.CallStack.Push` | crates/zk/src/callstack.rs:55-58 | Appends a call and keeps the gate count exact |
| `ZkVm.Simulate` | crates/zk/src/prover.rs:151-170 | The simulated demand is the chunk's gates and the checks its batches will trigger |
| `ZkVm.TakeBatch` | crates/zk/src/prover.rs:191-206 | A batch is the shortest run of whole calls that fills the batch size, or the rest |
| `ZkVm.VirtualMachine.CallRaw` | crates/zk/src/prover.rs:312-343 | Submission allocates the output and registers gate OTs within the window and the checks in submission order |
| `ZkVm.VirtualMachine.MarkProverInput` | crates/zk/src/prover.rs:395-401 | An accepted mark reserves one OT per cell; a refused one reserves nothing |
| `ZkVm.VirtualMachine.Flush` | crates/zk/src/prover.rs:70-102 | Materializes what is reserved, claims the OTs of committed inputs without falling short, and flushes until nothing is left |
| `ZkVm.VirtualMachine.RunChunk` | crates/zk/src/prover.rs:186-304 | Executing in check batches draws exactly the predicted sizes, performs exactly the simulated number of checks, and no output is refused by the memory view |
| `ZkVm.VirtualMachine.Execute` | crates/zk/src/prover.rs:120-304 | One execute: no draw falls short, the simulated check count is the number of checks performed, and the budget stays balanced |
| `Blake3Tree.MergedIsRoot` | crates/hash/src/blake3.rs:477-508 | Merging the stack from the top onto one more leaf is the recursively defined root over all leaves |
| `Blake3Tree.StackIsCompleteSubtrees` | crates/hash/src/blake3.rs:422-442 | The stack holds one complete subtree per set bit of the leaf count, largest first |
| `Blake3Tree.StackSize` | crates/hash/src/blake3.rs:361-375 | Its height is the number of set bits of the leaf count |
| `Blake3Tree.LeftSizeIsPower` | crates/hash/src/blake3.rs:422-442 | The left subtree size of the definition is a power of two; with its contract, the largest one below the leaf count |
| `Blake3Hasher.AddChunk` | crates/hash/src/blake3.rs:422-442 | Popping once per trailing zero of the new count never meets an empty stack and gives the stack of one more leaf; it fails exactly when the stack limit is exceeded |
| `Blake3Hasher.Chunk.Update` | crates/hash/src/blake3.rs:203-228 | Appends the data, every buffered block but the last full |
| `Blake3Hasher.Chunk.Compress` | crates/hash/src/blake3.rs:231-320 | The chunk's chaining value with zero padding, last-block length, counter and flags as in section 2.4 of the BLAKE3 specification |
| `Blake3Standard.ChunkFlags` | crates/hash/src/blake3.rs:231-316 | Each block of a chunk is compressed under the flag word of its kind (1 first, 2 last, 8 root), 64 bytes long but for the last, with the chunk's counter, or 0 at the root |
| `Blake3Standard.ParentFlags` | crates/hash/src/blake3.rs:379-419 | A parent is compressed from the initial chaining value with counter 0 under flag word 4, or 12 at the root |
| `Blake3Standard.FlagsDistinct` | crates/hash/src/blake3.rs:42-45 | Different kinds of node have different flag words |
| `Blake3Standard.StackSuffices` | crates/hash/src/blake3.rs:50-52 | No message of up to 2^55 - 2 complete chunks exceeds the stack, and one more complete chunk does |
| `Blake3Hasher.Blake3.Update` | crates/hash/src/blake3.rs:446-473 | Any split of the data keeps the hasher representing the concatenation; it fails exactly when some new chunk count needs a deeper stack |
| `Blake3Hasher.Blake3.Finalize` | crates/hash/src/blake3.rs:477-508 | The digest is the recursive tree hash of everything hashed, for any sequence of updates |
| `BlockBuffer.Append` | crates/hash/src/sha256.rs:101-126 | Buffering a slice appends its bits, tops up a partial block first and keeps all blocks but the last full |
| `Sha256.PaddingCorrect` | crates/hash/src/sha256.rs:170-200 | The padding computed in the code's bit order is the padding of section 5.1.1 of FIPS 180-4, for every message of whole bytes |
| `Sha256.PaddingUnique` | crates/hash/src/sha256.rs:170-200 | Nothing else is a standard padding of the message, so the statement about padded messages below names one bit string |
| `Sha256.Hasher.Compress` | crates/hash/src/sha256.rs:134-167 | Every full block is folded into the state; at most one partial block is left |
| `Sha256.Hasher.Finalize` | crates/hash/src/sha256.rs:170-217 | For any interleaving of update and compress, the digest is the fold of the compression function over the padded message, no block is left over, and the hasher itself is unchanged |
| `Keccak256.PaddingStandardIff` | crates/hash/src/keccak256.rs:141-163 | For every message of whole bytes the appended bytes 0x01, zeros, 0x80 are pad10*1 of section 5.1 of FIPS 202 if and only if the last block does not have exactly one free byte |
| `Keccak256.OneFreeByte` | crates/hash/src/keccak256.rs:141-163 | 135 bytes: the code appends 137 bytes where the standard appends one |

## Left out

- Thread-pool shutdown, drop and global initialisation; weak memory: queue operations are atomic and memory is
  sequentially consistent, which is what the `SeqCst` accesses ask for.
- Fairness of the scheduler: that a worker that can step eventually does; that its own steps suffice is `WorkIsTaken`.
- Async I/O, framing, sessions and messages; the lane order of `Context::map` is covered by proving that executions may
  finish in any order.
- AES, ChaCha, BLAKE3 and SHA-256 round functions outside the BLAKE3 compression circuit, and SIMD or intrinsic variants.
- The sponge of Keccak-256, of which only the padding is modelled; OLE, adjust, A2M/M2A and coin toss, which would add only
  short identities; Bristol parsing; the LPN security estimator; P-256 wrappers.
- Chou-Orlandi, KOS and Ferret parties; the MAC and key stores: only the adjust and pointer-bit relations are used.
- ConsistencyCheck.AcceptsIffBadSumZero: requires an inverse of delta; that every non-zero delta has one is the
  irreducibility of the modulus, and the probability that random coefficients cancel is outside the model.
- Blake3Hasher.Blake3.Update: does not model the 64-bit limit of the chunk counter; the stack limit of 54 is modelled.
- Sha256.Hasher.Finalize: does not model bit lengths of 2^64 and more, where both the code and the standard stop.
- Circuits.EvaluateRaw: requires the wire ids of the circuit to be in bounds; indexing panics otherwise.
- GarbleView.View and ZkView.View: marking memory beyond the allocated length is a precondition, since the code asserts it;
  ranges are sets of cells, so the coalescing of ranges is not represented.
- ZkVm.VirtualMachine: errors of the OT transport end a run and are not represented.
- ConsistencyCheck.Check.CheckProver and ConsistencyCheck.Check.CheckVerifier: the transcript takes the adjustment bits;
  the unused bits of their last byte are not represented.
- The evaluation of garbled circuits in parallel threads; the serial path is modelled.
