# Radio TNC: a verified model

This project models the parts of a packet-radio TNC in which the code itself
decides what holds: the LDPC codec and the generator of its tables, framing and
modulation of bits, fragmentation and reassembly, the concurrent receive pipeline,
and the stateful engines around them. Each module states what its code does and
proves it for all inputs, all runs or all interleavings. `dafny verify
dfyconfig.toml` checks everything.

## Modules

- Bits and numbers: `Bits`, `Octets`, `Limits`, `Signs`, `Numbers`, `Arithmetic`.
- LDPC codec: `Ldpc` (encoder), `MinSum` (decoder), `MinSumTheory` and
  `MinSumRecovery` (what message passing guarantees, for any code with ascending
  checks of degree two or more), `MinSumExact` and `MinSumTrees` (what its messages
  mean, and its exactness without cycles).
- Table generator: `Gf2` (Gauss-Jordan over GF(2)), `LdpcTable` (the generator).
- TC(128,64), section 4 of CCSDS 231.0-B-3: `Tc128`, `Tc128Code`, `Tc128Table`,
  `Tc128Decode`.
- Block coding: `BlockOrder`, `FecLayout`, `Fec`, `FecDecode`, `FecRoundTrip`,
  `FecSystematic`.
- Frames and symbols: `Crc`, `CrcErrors`, `CrcPolynomial`, `Frame`, `Symbols`, `Modem`,
  `Rate`, `WireFormats`.
- Packets: `Fragmentation`, `Reassembly`, `ReassemblyRuns`, `ReassemblyRefusals`,
  `Transport`, `LostStarts`, `Kiss`, `KissParsing`.
- Receive pipeline: `Completion` and `CompletionWindow` (the reorder window),
  `Spsc` and `Quantize` (the queues), `Pipeline`, `PipelineRuns`, `PipelineVerdicts`,
  `PipelineExact`, `PipelineStall`, and `HostDelivery` (from detections to packets).
- Engines: `PttTrace`, `Runtime`, `Persistence`, `Link`, `BurstDetector`, `BurstRuns`,
  `LinearSolver`, `TxEq`, `TxOptimal`, `TxPivots`, `TxDesign`.

Loops over buffers and objects with state are methods and classes, proved against
functions about which the properties are then shown. Code shared by several threads
is a system of steps, one per atomic access and one per word copied, so that a run
is any interleaving.

## Where the code and its documentation differ

- `docs/fragmentation.md` (lines 37-39) says that submitting queue drops as failures
  keeps a missing job from stalling the reorder window. That holds as long as every
  detection is numbered while it lies within the window (`PipelineRuns.DeliversInOrder`).
  The window is as large as the two decode queues together, but the jobs in the
  decoders' hands and the failures already submitted occupy it too. While job 0 is
  being decoded, further detections that cannot be queued fill the window with
  failures; the next one is rejected (`CompletionWindow.RejectedExactlyOutside` says
  exactly when), nobody looks at that return value, and no later job is ever
  delivered (`PipelineStall.StallIsReachable`, `PipelineRuns.LostBlocksForever`).
  A run that ends quiet delivers everything if and only if every submission, at its
  load of the next id, was less than a window ahead of it
  (`PipelineExact.DeliversAllIffLoadsInside`).
- Without packet numbers a lost start frame can join two packets into one that nobody
  sent (`LostStarts.MixedPacketExists`). Of serially sent packets it does so if and only
  if the guard of src/framing/fragmentation.c:124-126 lets the later packet pass: the
  countdown of its first received fragment is one below that of the fragment before
  (`LostStarts.SerialDeliveryExactly`). If start frames arrive, that cannot happen
  (`Transport.LostContinuationsAreSafe`).
- While a packet waits for a busy channel the runtime stays in TX_WAIT_BUSY between
  calls, and every fragment received meanwhile is refused (`TransmitNext` and
  `AcceptFragment` of `Runtime.RuntimeState`).

## Model

| member | source | states |
|---|---|---|
| `Bits.PutBit` | src/fec/ldpc.c:42-48 | a byte is cleared when its first bit is reached, then each set bit is ORed in most significant first; nothing else in the buffer changes |
| `Bits.OrInto` | src/modem/offline.c:298-303 | ORing bits into a cleared buffer leaves the same bytes |
| `Bits.PackBits` | src/fec/fec.c:186-194 | packing a bit row into bytes and reading it back gives the row |
| `Bits.PackOfBits` | src/fec/fec.c:186-194 | reading bytes as bits and packing them gives the bytes |
| `WireFormats.BytesAreBinary` | src/fec/fec.c:186-194 | a byte string is a big-endian number in both views: the first byte and the first bit of each byte are the most significant |
| `Ldpc.Parity8Bits` | src/fec/ldpc.c:6-10 | the folded 16-entry table yields the parity of all eight bits |
| `Ldpc.DotByte` | src/fec/ldpc.c:36-41 | masking byte by byte adds up to the GF(2) inner product of mask row and information |
| `Ldpc.Syndrome` | src/fec/ldpc.c:60-70 | the syndrome weight is zero exactly when every check is satisfied |
| `Ldpc.EncodeSystematic` | src/fec/ldpc.c:12-51 | refuses exactly the bad codes and sizes; otherwise writes information followed by the mask products and touches no other byte |
| `MinSum.OutgoingMessage` | src/fec/ldpc.c:109-126 | the loop over the other edges computes the signed, scaled minimum of the messages other than the target |
| `MinSum.RunCheckPass` | src/fec/ldpc.c:104-128 | the in-place check pass writes the specified answer for every edge |
| `MinSum.RunVariablePass` | src/fec/ldpc.c:129-137 | each posterior is the channel value plus the answers on all edges of that variable |
| `MinSum.UpdateHardBits` | src/fec/ldpc.c:53-71 | hard decisions are the signs of the posteriors, the return value their syndrome weight |
| `MinSum.RunExtrinsic` | src/fec/ldpc.c:145-149 | the next messages are the posteriors without the own contribution of each edge |
| `MinSumExact.NextMessage` | src/fec/ldpc.c:129-149 | in every round a check is told the channel value plus the answers of the other checks of that variable, not its own |
| `MinSumExact.CheapestIsLeast` | src/fec/ldpc.c:109-126 | sum of negatives, plus the least magnitude if the parity is wrong, is the least cost of a choice of bits with given parity |
| `MinSumExact.AnswerIsPrice` | src/fec/ldpc.c:109-126 | with normalization 1 a check answers with the least cost of an odd choice of its other bits minus that of an even one |
| `MinSumTrees.PosteriorIsPrice` | src/fec/ldpc.c:101-150 | when the graph hangs from a bit as a tree and the rounds have reached every height, the posterior is the least cost of all codewords with that bit one minus that with it zero |
| `MinSumTrees.DecidesTheBestCodeword` | src/fec/ldpc.c:101-150 | on a code without cycles, with normalization 1, the decisions are the one codeword of least cost, and the run converges by then |
| `MinSumTrees.ChainHangs` | src/fec/ldpc.c:101-150 | there are such codes |
| `MinSum.DecodeNormalizedMinSum` | src/fec/ldpc.c:73-152 | fails exactly on a bad normalization, round limit or workspace; otherwise bits and statistics are those of the specified run |
| `MinSumTheory.CheckAgrees` | src/fec/ldpc.c:109-126 | if the other messages of a satisfied check have the right sign and magnitude at least b, the answer has the right sign and magnitude at least norm * b |
| `MinSumTheory.CheckCapped` | src/fec/ldpc.c:120-126 | one weak message caps the answer of its check at norm times its magnitude, whatever the sign |
| `MinSumTheory.ConvergedRunIsCodeword` | src/fec/ldpc.c:138-151 | a run reports convergence exactly when its bits satisfy every check, for any channel values |
| `MinSumTheory.RunStopsBy` | src/fec/ldpc.c:138-144 | a run stops no later than the first round whose decisions form a codeword |
| `MinSumTheory.AgreementInEveryRound` | src/fec/ldpc.c:101-150 | channel values that never contradict a codeword keep every message and posterior of every round from contradicting it |
| `MinSumTheory.ReceivedBitsStayRight` | src/fec/ldpc.c:101-151 | then no received bit is ever decoded wrong, converged or not |
| `MinSumRecovery.PeelableErasuresAreFilled` | src/fec/ldpc.c:101-150 | erasures that peel off in some number of levels are all filled with the codeword in at most that many rounds |
| `MinSumRecovery.PeeledWordIsUnique` | src/fec/ldpc.c:60-69 | codewords that agree on the received positions agree wherever a peeling schedule reaches |
| `MinSumRecovery.IsolatedErrorsAreCorrected` | src/fec/ldpc.c:96-144 | wrong values of magnitude at most a, no two in one check, are corrected in the first round when norm * d * a < b at every degree d and a < norm * d * b at the wrong ones |
| `Gf2.FindPivot` | tools/generate_ldpc_table.py:51-52 | the search yields a row with a one in the column, or proves there is none |
| `Gf2.SwapKeepsSolutions` | tools/generate_ldpc_table.py:53-54 | swapping two rows in both halves keeps the solution set |
| `Gf2.XorKeepsSolutions` | tools/generate_ldpc_table.py:56-58 | adding one row to another in both halves keeps the solution set |
| `Gf2.ClearColumn` | tools/generate_ldpc_table.py:55-58 | clears the column in all rows but the pivot and keeps the solution set |
| `Gf2.Eliminate` | tools/generate_ldpc_table.py:50-59 | the pivot search is exhausted exactly when the parity half is singular; otherwise the left rows give the one parity word of every information word |
| `LdpcTable.Expand` | tools/generate_ldpc_table.py:15-25 | the loops over circulants build the described rows, sorted |
| `LdpcTable.SortedSorts` | tools/generate_ldpc_table.py:25 | sorting gives an ascending row with the same elements |
| `LdpcTable.Maximum` | tools/generate_ldpc_table.py:26 | fails exactly on an empty row or matrix; otherwise the largest variable named |
| `LdpcTable.BuildEdges` | tools/generate_ldpc_table.py:27-33 | rejects exactly the rows that are not strictly ascending or shorter than two; otherwise offsets and edges concatenate the rows |
| `LdpcTable.CodewordsOfRows` | tools/generate_ldpc_table.py:29-33 | the codewords of the emitted edge list are the words that satisfy the rows |
| `LdpcTable.SumShifts` | tools/generate_ldpc_table.py:44-49 | the sums of shifts for a row are the numbers whose bits are its information columns, first column on top, and its parity columns with the identity appended: nothing carries |
| `LdpcTable.BuildMasks` | tools/generate_ldpc_table.py:41-49 | the mask numbers of all rows, as rows of bits |
| `LdpcTable.RowEquation` | tools/generate_ldpc_table.py:44-49 | a row is satisfied exactly when its two masks balance |
| `LdpcTable.PackMasks` | tools/generate_ldpc_table.py:60-62 | mask integers are written as big-endian bytes |
| `LdpcTable.FindMasks` | tools/generate_ldpc_table.py:40-62 | no masks exactly when the parity columns are dependent; otherwise for every information word the mask products are the one parity word that satisfies the rows |
| `LdpcTable.Render` | tools/generate_ldpc_table.py:10-62 | each of the four ways to raise is taken if and only if its condition holds; otherwise the table lists exactly the rows and, with masks, is the systematic encoder |
| `Tc128.TcRowShape` | tools/codes/ccsds_tc128.json:5-10 | each of the 64 checks of TC(128,64) names eight different variables, in ascending order |
| `Tc128Code.TcLists` | src/fec/codes/ccsds_tc128.h:9-10 | the shipped offsets and edges list the expanded circulant rows |
| `Tc128Code.WordIdentity` | tools/codes/ccsds_tc128.json:6-9 | in every block row the three rotated mask words cancel the information circulants |
| `Tc128Table.TcMasksSatisfy` | src/fec/codes/ccsds_tc128.h:11-76 | every information word followed by its mask products satisfies all 64 checks |
| `Tc128Table.TcParityIndependent` | tools/codes/ccsds_tc128.json:5-10 | the parity columns are independent: no nonzero parity word is orthogonal to all checks |
| `Tc128Table.TcSystematic` | src/fec/codes/ccsds_tc128.h:11-86 | the shipped masks are the systematic encoder: the only codeword that starts with an information word is the encoder's |
| `Tc128Table.TcNotSingular` | tools/generate_ldpc_table.py:50-52 | the generator's pivot search is never exhausted on TC128 |
| `Tc128Table.RegenerateTc128` | tools/generate_ldpc_table.py:102-105 | running the generator on the circulant description returns exactly the shipped table |
| `Tc128Decode.OnlyErasure` | tools/codes/ccsds_tc128.json:6-7 | each punctured variable 64..95 is the only punctured one of some check among the first 32 |
| `Tc128Decode.TcErasuresFilled` | src/fec/fec.c:247-255 | right-signed values with positions 64..95 erased give back the codeword in exactly one iteration |
| `Tc128Decode.TcDegrees` | tools/codes/ccsds_tc128.json:5-10 | information variables have degree five, parity variables degree three |
| `Tc128Decode.TcErrorsCorrected` | src/fec/fec.c:175-183 | with normalization 0.75 wrong values of magnitude at most a, no two in one check, are corrected in one iteration when the others exceed 3.75 a |
| `Tc128Decode.ParityBlockIsIsolated` | tools/codes/ccsds_tc128.json:6-9 | no check contains two bits of one parity block, so all sixteen may be wrong at once |
| `BlockOrder.OrderCovers` | src/fec/fec.c:28-37 | every block is in the decoding order |
| `BlockOrder.OrderStablySorted` | src/fec/fec.c:28-37 | the order ascends by confidence and keeps equal blocks in place |
| `BlockOrder.OrderTotal` | src/fec/fec.c:195-196 | a sum over the blocks in decoding order is the sum in block order |
| `BlockOrder.ConfidenceIsBestAgreement` | src/fec/fec.c:19-27 | the confidence of a block is the best agreement of its values with any word, reached by the hard decisions |
| `BlockOrder.WeakestBlocksFirst` | src/fec/fec.c:16-38 | the in-place insertion sort leaves that order in the array |
| `Fec.FecEncode` | src/fec/fec.c:62-135 | which status for which arguments, and the bytes of every mode: input, or one whole or shortened codeword for each zero-padded block that the announced size, computed modulo 2^64, has room for |
| `FecLayout.AllBlocksSent` | src/fec/fec.c:48-60 | the announced size covers every block if and only if the block product stays below 2^64 |
| `FecSystematic.SentIsSystematic` | src/fec/fec.c:77-117 | each block sent is the information, zero-filled, followed by the one parity that satisfies all checks with it, whole in ROBUST, its second half in NORMAL |
| `FecSystematic.SomeParity` | src/fec/fec.c:77-117 | every eight bytes have such a parity |
| `FecDecode.Expand` | src/fec/fec.c:226-246 | received values go to codeword positions 0..63 and 96..127, zero in between |
| `FecDecode.DecodeBlocks` | src/fec/fec.c:159-208 | succeeds exactly when every block converges, and then bytes and iteration total are those of the blocks in order, whatever the decoding order; otherwise the totals are those up to the first block, in decoding order, that does not converge |
| `FecLayout.HardDecide` | src/fec/fec.c:288-300 | the uncoded mode packs one sign decision a value |
| `FecRoundTrip.FecDecodeAll` | src/fec/fec.c:137-303 | which status for which arguments, and output, convergence, iterations and syndrome reported with it |
| `FecRoundTrip.FecRoundTrips` | src/fec/fec.c:89-122 | for every non-empty input and both coded modes, right-signed values decode to the zero-padded input with one iteration a block |
| `FecRoundTrip.BlockCorrectsErrors` | src/fec/fec.c:160-203 | a block whose wrong values are weak and share no check is decoded right whatever the other blocks hold |
| `FecSystematic.UncodedRoundTrips` | src/fec/fec.c:288-300 | right-signed values decide to the bytes sent uncoded |
| `Completion.KeepsCore` | src/platform/completion.c:39-96 | every atomic step of any number of submitters and one consumer keeps the invariant, whatever ids are submitted |
| `Completion.OrderedDelivery` | src/platform/completion.c:78-96 | in every run the popped jobs have ids first, first + 1, ... and each is, whole, one that was submitted |
| `Completion.MissingJobBlocks` | src/platform/completion.c:88-91 | no pop passes an id that was never accepted |
| `Completion.ReaderAlone` | src/platform/completion.c:87-93 | the slot being read is READY from the test to the clearing and no submitter owns it |
| `CompletionWindow.RejectedExactlyOutside` | src/platform/completion.c:50-66 | with distinct ids the exchange never fails, and a submission is rejected exactly when its id is a whole window beyond the next id it loaded, however stale |
| `CompletionWindow.KeepsWindow` | src/platform/completion.c:39-96 | every step keeps the window invariant as long as no id is submitted twice |
| `CompletionWindow.NothingIsRejected` | src/platform/completion.c:50-75 | if moreover ids are within the window when submitted, no run rejects anything, every valid submission reports success and its job is popped or in its slot |
| `CompletionWindow.OneOwner` | src/platform/completion.c:57-74 | a slot in WRITING has exactly one owner and is never the one being read |
| `CompletionWindow.ExactContents` | src/platform/completion.c:67-92 | a popped job equals the one submission that had its id |
| `CompletionWindow.EmptiesTheWindow` | src/platform/completion.c:78-96 | once jobs first .. m - 1 were all submitted, popping delivers each of them in order without a gap |
| `Pipeline.PendingIsNew` | tools/alsa_rx.c:254-274 | a job that is queued or being decoded has not been submitted yet |
| `Pipeline.KeepsSound` | tools/alsa_rx.c:172-274 | under any interleaving each detection number is in exactly one place: a queue, a decoder's hand, or submitted once |
| `PipelineVerdicts.StepSubmits` | tools/alsa_rx.c:254-274 | each input submits exactly what it says: the payload of a decoded frame under the number in hand, a failure for a frame given up or a detection not queued, nothing for anything else |
| `PipelineVerdicts.RunSubmits` | tools/alsa_rx.c:172-274 | over a whole run what is submitted is exactly what the inputs say, in that order |
| `PipelineVerdicts.DecodersKeepOrder` | tools/alsa_rx.c:172-180 | each decoder works on its jobs in the order of detection, the second one as long as nothing is handed on to it |
| `PipelineRuns.EachDetectionOnce` | tools/alsa_rx.c:725-746 | so in every run each number has at most one terminal submission, by one decoder or the dispatcher |
| `PipelineRuns.DeliversInOrder` | tools/alsa_rx.c:762-764 | while open detections fit the window nothing is rejected and detection 0, 1, 2, ... is popped with the job it was submitted with |
| `PipelineRuns.DeliversAllExactly` | tools/alsa_rx.c:762-764 | when all threads are idle, popping hands over every detection, none skipped or repeated, if and only if no submission was turned away |
| `PipelineExact.DeliversAllIffLoadsInside` | src/platform/completion.c:50-54 | for every run from start-up that ends quiet: popping hands over every detection, none skipped or repeated, if and only if each submission loaded a next id less than a window behind its own |
| `PipelineRuns.DeliversAll` | tools/alsa_rx.c:762-764 | which is so whenever open detections fit the window |
| `PipelineRuns.LostBlocksForever` | tools/alsa_rx.c:734-746 | one rejected submission stops delivery for good: nothing from it on is popped in any continuation |
| `PipelineStall.StallIsReachable` | tools/alsa_rx.c:495-502 | for every queue configuration a run ends with a rejected job, because a window of both queue sizes does not cover jobs in hand and failures |
| `Crc.CrcOf` | src/framing/frame.c:9-25 | the byte loop computes the bit-serial register over the message |
| `Crc.FeedAllAdd` | src/framing/frame.c:17-23 | the register is linear over GF(2) in preset and message together |
| `Crc.ZerosKeepNonZero` | src/framing/frame.c:18-22 | shifting in zeros never turns a non-zero register to zero or the reverse |
| `Crc.OnlyOwnContents` | src/framing/frame.c:75-78 | two further bytes bring the register to zero exactly when they are its contents |
| `CrcPolynomial.CrcIsRemainder` | src/framing/frame.c:9-25 | for every message of n bits x^16 M + x^n (x^15 + ... + 1) = Q (x^16 + x^12 + x^5 + 1) + R over GF(2), R the register |
| `CrcPolynomial.RemainderUnique` | src/framing/frame.c:9-25 | there is only one such quotient and remainder |
| `CrcPolynomial.CheckValue` | src/framing/frame.c:9-25 | the register over the nine digits is 0x29b1, as tests/unit/test_frame.c has it |
| `CrcErrors.BurstIsSeen` | src/framing/frame.c:9-25 | a non-zero error pattern within 16 bits leaves a non-zero register |
| `CrcErrors.OddShift` | src/framing/frame.c:19-21 | a shift keeps the parity of the register, the generator having an even number of terms |
| `CrcErrors.OddIsSeen` | src/framing/frame.c:9-25 | an odd number of flipped bits leaves a non-zero register |
| `Frame.FrameBuild` | src/framing/frame.c:27-50 | which status for which arguments; on success length byte, payload and CRC, otherwise the buffer is unchanged |
| `Frame.FrameParse` | src/framing/frame.c:52-86 | which status for which input, in order of the checks; the CRC fails exactly when the register over the whole frame is not zero |
| `Frame.IntactExactly` | src/framing/frame.c:75-80 | comparing the stored CRC is the same as running the register over everything |
| `WireFormats.FrameSample` | src/framing/frame.c:27-50 | the frame of the byte 42 is 00 42 75 89 |
| `WireFormats.FrameHeaderIs` | src/framing/frame.c:40-42 | the first byte counts the payload less one and the payload follows |
| `Frame.ParsesExactly` | src/framing/frame.c:52-86 | the parser accepts exactly the frames the builder makes and returns the payload each was built from |
| `Frame.BurstsAreNoticed` | src/framing/frame.c:52-86 | flipped bits of a built frame within 16 consecutive ones are never accepted |
| `Frame.OddErrorsAreNoticed` | src/framing/frame.c:52-86 | an odd number of flipped bits of a built frame is never accepted |
| `Symbols.ReadSymbolBits` | src/modem/offline.c:81-94 | the symbol is the binary value of its bits of the stream, zero past the end |
| `Symbols.DecodeBytes` | src/modem/offline.c:275-311 | exactly eight soft values a byte, in wire order, and the hard decisions packed, for any symbol width |
| `Symbols.HardBitOfValue` | src/modem/offline.c:299-301 | bit extraction undoes symbol formation |
| `WireFormats.SymbolsAreDigits` | src/modem/offline.c:76-94 | the symbols of a byte string are its digits to the base 2^b, most significant first, zero-filled at the end |
| `Symbols.StreamArrives` | src/modem/offline.c:295-306 | through a faithful channel each wire bit gets one soft value, on its side of zero |
| `Modem.Transmit` | src/modem/offline.c:210-258 | payloads of 1 to class bytes become the symbols of the encoded, zero-padded frame if the samples of all symbols fit the buffer; other payloads are rejected |
| `Modem.Receive` | src/modem/offline.c:748-802 | too few symbols, failed decoding, an oversized length or a bad frame are reported; otherwise the payload of the decoded frame; only a decoder failure leads to the equalizer, and a rejected first attempt there to the decision-directed one |
| `Modem.EndToEnd` | src/modem/offline.c:748-802 | both LDPC modes, classes 64 and 128, 1 to 4 bits a symbol, every payload: what is transmitted through a faithful channel is received, equalizer or not |
| `Modem.RetryEndToEnd` | src/modem/offline.c:520-540 | when the plain pass fails to decode, a payload that the trained or, after its rejection, the directed equalizer recovers is delivered |
| `Rate.RatesAreOrdered` | src/modem/rate.c:38-49 | whenever there is a rate, link rate <= rate after FEC <= raw rate |
| `Rate.FecRateIsCodeRate` | src/modem/rate.c:38-49 | the rate after FEC is the raw rate times input by encoded size of any number of blocks |
| `Rate.LinkRateIs` | src/modem/rate.c:38-49 | the link rate is the whole payload bits a frame carries by the time it takes |
| `Rate.FrameLengthIsExact` | src/modem/rate.c:34-37 | in the LDPC modes the announced frame length is the number of samples every payload takes |
| `Fragmentation.CountCovers` | src/framing/fragmentation.c:14-21 | the fragment count is the least number of pieces that hold the packet |
| `Fragmentation.CountBounded` | src/framing/fragmentation.c:64-67 | a packet within a valid MTU needs 1 to 128 fragments |
| `Fragmentation.HeaderRoundTrip` | src/framing/fragmentation.c:46-50 | start flag and countdown survive the header byte |
| `WireFormats.FragmentHeaderIs` | src/framing/fragmentation.c:45-50 | the header byte is the countdown, plus 128 in a continuation |
| `Fragmentation.FragmentBuild` | src/framing/fragmentation.c:23-54 | which status for which arguments; on success the header and the piece of the packet at its offset |
| `Fragmentation.PiecesMakePacket` | src/framing/fragmentation.c:37-42 | all pieces in order are the packet, no byte lost or sent twice |
| `Reassembly.Reassembler.Push` | src/framing/fragmentation.c:97-141 | one call changes buffer and fields as specified for every branch, including the unsigned age of the assembly |
| `Reassembly.Reassembler.AppendData` | src/framing/fragmentation.c:87-95 | data is appended within the MTU, otherwise the assembly is reset |
| `ReassemblyRuns.IllFormedIgnored` | src/framing/fragmentation.c:107-110 | frames of a wrong length leave the assembly as it is |
| `ReassemblyRuns.DeliversExactlyInAnyRun` | src/framing/fragmentation.c:97-141 | in every run, ill-formed frames included, a push completes a packet exactly when its frame is well formed and the well-formed frames so far end with a start and the continuations it announced, in time and within the MTU; the packet is their data |
| `ReassemblyRefusals.RefusesExactlyInAnyRun` | src/framing/fragmentation.c:107-141 | in every run a frame is refused as ill-formed, late, out of sequence or too much exactly when it is so with respect to the packet under way |
| `Reassembly.ElapsedIsTime` | src/framing/fragmentation.c:111-112 | the age of an assembly is the time passed, although the clock may wrap in between |
| `Transport.PacketRoundTrip` | src/framing/fragmentation.c:97-141 | from any state the fragments of a packet in order and in time give Incomplete until the last gives the packet |
| `Transport.LostContinuationsAreSafe` | src/framing/fragmentation.c:118-130 | if of serially sent packets only continuations are lost, every delivered packet is one that was sent |
| `LostStarts.DeliveredIsSentExactly` | src/framing/fragmentation.c:118-130 | whatever frames are lost, repeated or reordered, a delivered packet is a sent one for all packet contents if and only if its chain of frames names one packet |
| `LostStarts.SerialDeliveryExactly` | src/framing/fragmentation.c:123-126 | of serially sent packets: if and only if no packet of its chain lost its start frame while the countdown of its first received fragment is one below that of the fragment before |
| `LostStarts.SerialRunExactly` | src/framing/fragmentation.c:97-141 | a whole serial run delivers only sent packets, for all contents, if and only if that holds of every full chain in it |
| `LostStarts.LostStartMixesPackets` | src/framing/fragmentation.c:123-130 | a lost start frame goes unnoticed: the first half of one packet and the last half of the next are delivered together |
| `LostStarts.MixedPacketExists` | src/framing/fragmentation.c:123-130 | two packets of 64 bytes for which the delivered packet is neither |
| `Spsc.KeepsInv` | src/platform/packet_queue.c:27-106 | every step of producer and consumer, word copies included, keeps the ring invariant |
| `Spsc.ReadsOldestItem` | src/platform/packet_queue.c:94-106 | what the consumer copies is the oldest item not yet taken, whole |
| `Spsc.PeekedSlotIsQuiet` | src/platform/packet_queue.c:62-75 | between a successful peek and its discard the producer never writes that slot |
| `Spsc.DiscardAlwaysFollowsPeek` | src/platform/packet_queue.c:77-92 | a peek succeeds exactly when an item is there, and the discard after it never fails |
| `Spsc.Conservation` | src/platform/packet_queue.c:39-47 | finished pushes = items taken + ring depth + drops |
| `Spsc.MaximumBoundsDepth` | src/platform/packet_queue.c:48-58 | after a push the true depth is at most the recorded maximum, and that at most the capacity, although the consumer index may be stale |
| `Spsc.DropsOnlyWhenFull` | src/platform/packet_queue.c:39-43 | a push is dropped only if the ring was full when the consumer index was loaded |
| `Quantize.QuantizeAll` | src/platform/decode_queue.c:47-55 | each sample is clamped, scaled and rounded into its slot |
| `Quantize.HalfStep` | src/platform/decode_queue.c:47-55 | a stored sample fits 16 bits and comes back within 1/65534 of its clamped value |
| `Quantize.StoredAgain` | src/platform/decode_queue.c:94-97 | storing a restored sample again changes nothing |
| `Quantize.RestoreAll` | src/platform/decode_queue.c:94-97 | the stored samples are divided back in place and nothing past them changes |
| `PttTrace.KeyUpIsReleased` | src/platform/runtime.c:55-68 | in a sound trace each successful key-up is followed by a key-down before any other key operation |
| `PttTrace.AudioIsKeyed` | src/platform/runtime.c:189-206 | audio is sent and drained only between a key-up and its key-down |
| `Runtime.RuntimeState.SubmitPacket` | src/platform/runtime.c:114-125 | accepted exactly when the length is legal and the queue has room; submissions = sent + failed + queued |
| `Runtime.RuntimeState.TakeTurn` | src/platform/runtime.c:142-176 | waits, gives up or goes as carrier sense, its time limit and p-persistence say, with the next slot and generator state they leave |
| `Persistence.ChanceToGo` | src/platform/runtime.c:160-175 | whatever the rest of the generator state, exactly persistence + 1 of the 256 draws go |
| `Persistence.PreviousOfNext` | src/platform/runtime.c:14-22 | the generator step can be undone, so no two states share a successor |
| `Persistence.NeverZero` | src/platform/runtime.c:14-22 | and it never runs into zero |
| `Runtime.RuntimeState.SendFragments` | src/platform/runtime.c:191-202 | fragments go out once each in order until the first failure |
| `Runtime.RuntimeState.ReleasePtt` | src/platform/runtime.c:55-68 | keys down once and returns to reception, also when the guard sleep fails; true exactly when both calls succeeded |
| `Runtime.RuntimeState.TransmitNext` | src/platform/runtime.c:127-218 | OK made exactly the calls key-up, lead, all fragments in order, drain, tail, key-down, guard; a failure sent a prefix of the fragments; every key-up was released before the return; a timeout comes when the calls end with an unbroken series of busy observations of at least the limit |
| `Runtime.RuntimeState.KeyedCallsAt` | src/platform/runtime.c:178-212 | call by call: key-up, lead, then each fragment prepared and sent in order, drain, tail, key-down, guard |
| `Runtime.RuntimeState.AcceptFragment` | src/platform/runtime.c:220-244 | outside RX_IDLE, also while waiting for a busy channel, a fragment is refused unseen; otherwise reassembly, queue and counters move together |
| `Runtime.RuntimeState.ReceivePacket` | src/platform/runtime.c:246-261 | hands out the oldest packet or leaves the queue alone; received = delivered + queued |
| `Runtime.PacketSendable` | src/platform/runtime.c:196 | every fragment build of the transmit loop succeeds: a queued packet has 1 to 128 fragments |
| `Link.AcceptOne` | tools/alsa_rx.c:765-784 | a successful completion moves the reassembly on, and if a packet becomes complete and finds room the oldest waiting one is fetched; a rejected fragment or a full queue fetches nothing |
| `Link.DrainResults` | tools/alsa_rx.c:762-818 | the drain loop skips failures, gives the runtime every fragment in the order popped, and fetches as specified from any peer |
| `Link.NothingHeldBack` | tools/alsa_rx.c:770-784 | while the queue has room, packets fetched and still waiting are those waiting before and all that became complete, in order |
| `Link.FullQueueStays` | tools/alsa_rx.c:770-816 | a full queue is never served by the loop: what completes is rejected and nothing is fetched |
| `Link.OnePacketFetched` | tools/alsa_rx.c:764-784 | fed in order and in time the fragments of a packet come out as that packet behind those that waited before |
| `HostDelivery.PoppedAreSubmissions` | tools/alsa_rx.c:764 | when everything is delivered, what is popped is, in order of detection, the job each detection was submitted with |
| `HostDelivery.DetectionsReachTheHost` | tools/alsa_rx.c:725-784 | if every load is inside the window, what is popped is what the inputs say about detections 0, 1, 2, ..., the host takes exactly the frames decoded in that order and, with room in its queue, loses no packet they complete |
| `HostDelivery.PacketReachesTheHost` | tools/alsa_rx.c:725-784 | so if some detections decoded, in this order, the fragments of a packet and all others failed, the packet comes out |
| `Link.SentArrives` | src/platform/runtime.c:191-202 | the frames a successful transmission sent are what the peer needs |
| `Kiss.KissParser.PushFrame` | src/platform/kiss.c:11-54 | one byte changes the parser as specified and reports a frame only on a closing FEND |
| `Kiss.KissEncode` | src/platform/kiss.c:73-106 | succeeds exactly when the packet is legal and its encoding fits, and writes that encoding |
| `Kiss.StorageSuffices` | src/platform/kiss.c:73-106 | a buffer of RTNC_KISS_MAX_ENCODED bytes always suffices |
| `Kiss.OnePacket` | src/platform/kiss.c:56-71 | from any state an encoded packet is reported once, on its closing FEND; up to that byte only what the opening FEND flushes is reported |
| `Kiss.StreamRoundTrip` | src/platform/kiss.c:11-106 | the encodings of any packets one after another give exactly those packets in order, apart from what the first FEND flushes |
| `KissParsing.ReportsExactly` | src/platform/kiss.c:11-54 | a closing FEND reports a frame if and only if the bytes since the opening one are a stuffed frame that fits, or one with a dangling FESC behind it |
| `KissParsing.MalformedEscapeRejects` | src/platform/kiss.c:36-43 | a malformed escape spoils everything up to the next FEND |
| `KissParsing.HeaderNibbles` | src/platform/kiss.c:19-23 | the header byte is port times sixteen plus command |
| `KissParsing.EncodedSample` | src/platform/kiss.c:73-106 | 01 c0 02 db 03 goes out as c0 00 01 db dc 02 db dd 03 c0 |
| `BurstDetector.RingIndex` | src/platform/burst_detector.c:101-109 | the copy loop's index finds the samples before the trigger, oldest first |
| `BurstDetector.Detector.CopyHistory` | src/platform/burst_detector.c:99-109 | the capture starts with the last samples of the stream, as many as the ring holds |
| `BurstDetector.Detector.Capture` | src/platform/burst_detector.c:114-132 | the capture stays a suffix of the stream and ends by length or quiet |
| `BurstDetector.Detector.ProcessTriggered` | src/platform/burst_detector.c:60-148 | an emitted candidate is a window of the input stream that ends with the last sample, of capture length when that exceeds the pretrigger; it closes exactly by length or quiet, captures open only after the cooldown; detected = emitted + active |
| `BurstRuns.SteadyExactly` | src/platform/burst_detector.c:60-98 | with an external trigger that needs energy, no channel whose powers stay within the release ratio of each other ever opens a capture, if and only if the impulse limit is at least one |
| `BurstRuns.BurstOpens` | src/platform/burst_detector.c:66-98 | a detector that is idle and warm opens a capture within n samples of powers in lo .. hi if the least the signal average can be then exceeds the ratio of the most the noise estimate can be |
| `BurstRuns.TenfoldStandsInFive` | src/platform/burst_detector.c:5-23 | with the default averages a tenfold rise takes five samples, not four |
| `BurstRuns.NoTriggerNoOpening` | src/platform/burst_detector.c:98 | without a trigger nothing opens unless energy triggers |
| `BurstRuns.WindowEndsFirst` | src/platform/burst_detector.c:114-132 | a capture ends at exactly the first sample at which its set length is reached or, without one, the last release samples were quiet by the smoothed power and the noise at the opening, or the maximum is reached |
| `BurstRuns.ImpulsesAreLimited` | src/platform/burst_detector.c:80-93 | one impulse, however strong, lifts the noise estimate by no more than the limited share |
| `BurstRuns.NoiseFalls` | src/platform/burst_detector.c:75-94 | the noise estimate follows a lower constant power as the exponential average with the release share |
| `BurstRuns.NoiseRises` | src/platform/burst_detector.c:75-94 | and a higher one below the impulse limit with the attack share |
| `BurstRuns.CooldownLasts` | src/platform/burst_detector.c:96-98 | after a close nothing opens for exactly the configured number of samples |
| `BurstRuns.ClosingCools` | src/platform/burst_detector.c:126-146 | a capture that ends leaves the detector closed with the full cooldown to wait |
| `LinearSolver.ReduceRow` | src/platform/tx_eq.c:36-44 | subtracting from the current column on subtracts the whole row, its earlier entries being zero |
| `LinearSolver.DivideKeeps` | src/platform/tx_eq.c:29-35 | dividing a row keeps the solutions |
| `LinearSolver.ReduceKeeps` | src/platform/tx_eq.c:36-44 | subtracting a multiple of the pivot row keeps the solutions |
| `LinearSolver.Solve` | src/platform/tx_eq.c:8-50 | success returns the one solution of the original system; failure leaves an equivalent system without a pivot in its next column, and then some vector with an entry of one is annihilated by the original matrix up to 1e-10 in every row |
| `TxEq.ZeroPhaseGain` | src/platform/tx_eq.c:182-199 | the loop sums the taps against the cosine of their distance from the centre |
| `TxEq.BlendKeepsUnitGain` | src/platform/tx_eq.c:145-165 | blending with the identity keeps unit gain at the carrier |
| `TxEq.BlendUntilAcceptable` | src/platform/tx_eq.c:149-178 | of the blends 1, 0.95, ..., 0 the loop stops at the first that is acceptable; in exact arithmetic there is one, the identity |
| `TxEq.AcceptableIsKept` | src/platform/tx_eq.c:149-165 | an acceptable design is used as it is |
| `TxEq.BuildNormal` | src/platform/tx_eq.c:98-124 | the matrix is the regularized normal system of the points in the band |
| `TxOptimal.SolutionIsOptimal` | src/platform/tx_eq.c:98-127 | the solution of the normal system has the least regularized squared error over the band; any other vector costs more, by at least the regularization times its squared distance |
| `TxPivots.NormalIsRegular` | src/platform/tx_eq.c:98-127 | the normal system annihilates no such vector, so its elimination always finds a pivot |
| `TxDesign.LeastSquaresOnce` | src/platform/tx_eq.c:97-127 | the points determine the coefficients |
| `TxDesign.ModelIsGain` | src/platform/tx_eq.c:104-112 | what the least squares fit at a point is the zero-phase gain of the mirrored filter there |
| `TxDesign.PerfectFitIsFlat` | src/platform/tx_eq.c:99-107 | where the fit is perfect, gain times amplitude is the carrier response, or the gain is 2.5 where that would take more |
| `TxDesign.TurnsPerSecond` | src/platform/tx_eq.c:102 | a frequency of f Hz turns f times in 48000 samples |
| `TxDesign.DesignIsOptimal` | src/platform/tx_eq.c:97-134 | the coefficients behind a design are those best ones |
| `TxDesign.Interpolate` | src/platform/tx_eq.c:52-67 | the response is linear between two points and constant outside; the division is by a positive number, points sorted or not |
| `TxDesign.UnitAtCarrier` | src/platform/tx_eq.c:135-144 | dividing by the carrier gain gives unit gain at the carrier |
| `TxDesign.Design` | src/platform/tx_eq.c:69-180 | a design fails if and only if the points are unusable or the raw carrier gain of their coefficients is below 0.1; otherwise it is symmetric, sums to at most 7.9, has gain one at the carrier and above 0.05 at every 100 Hz step, and is the first such blend from the normalized coefficients towards the identity |
| `TxDesign.ApplySample` | src/platform/tx_eq.c:201-217 | the guarded loop is the centred convolution with zeros outside the waveform |
| `TxDesign.ZeroPhase` | src/platform/tx_eq.c:201-217 | a symmetric filter commutes with turning the waveform round |
| `TxDesign.ToneResponse` | src/platform/tx_eq.c:182-217 | the convolution with a symmetric filter multiplies a tone by the zero-phase gain at its frequency, without delay |

## Left out

- Floating-point rounding: log-likelihood ratios, audio and filter taps are real
  numbers. Not-a-number and infinity do not occur; the minimum over no message is an
  option value.
- C11 memory orders: acquire and release pairs are sequentially consistent steps.
- Thread-shared structures (reorder window, queues) are values changed by step
  functions instead of objects, so that any interleaving is a sequence of steps; the
  model has no update in place there.
- Job ids, counters and ring histories are unbounded; wrap-around after 2^64 is not
  modelled. The age of an assembly is computed modulo 2^64.
- `rtnc_completion_reset`: documented as quiesced only; the generation is constant.
- Initializers that refuse their arguments: constructors take the arguments that the
  predicates `ValidConfig`, `Initial` and `Starts` accept.
- NULL arguments, and the status values that report them.
- Python integers of the generator are bit rows, and its formatting of C text is not
  modelled; the shipped mask table is described by its rotated rows.
- LiquidDSP, acquisition, timing, tracking, the equalizer filter and the carrier, with
  the DSP error status: what the demapper yields in each pass is a parameter.
- The receive path of the uncoded modem mode, with its fixed four symbols a byte.
- `rtnc_modem_tx_audio` after the symbol mapper (pulse shaping, training symbols); only
  the number of samples is counted.
- Queue drops of `decode_queue.c` are those of `packet_queue.c`; the time stamp of a
  job is not kept.
- In `Runtime` the two packet queues are plain sequences, which `Spsc` justifies, and
  other threads do not look at the state in the middle of a call. Backend answers, the
  clock and the success of modulation are arbitrary functions.
- In `Pipeline` decode queues are bounded sequences; measurements, logging and the
  shutdown of the threads are not modelled.
- ALSA, GPIO, HackRF, sockets, WAV and CSV files, configuration loading, calibration.
- `rtnc_runtime_set_kiss_parameter`: four independent assignments; the model's lead, tail, slot
  time and persistence keep whatever values the state has.
- `audio_ring.c`, the TC512 tables, `ota_benchmark.c`, `radio_response.c`,
  `transmitter.c`: easy or repeated members.
- LinearSolver.Solve: the pivot threshold of 1e-10 is kept, so a failure means nearly singular, not singular; which nearly singular systems it solves all the same is not stated.
- CrcErrors.OddIsSeen: even numbers of errors spread over more than 16 bits are not covered.
