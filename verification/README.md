# MonkeyMesh shared brains and nonce search: a Dafny model

MonkeyMesh nodes keep shared neural networks that workers advance together, and miners search
nonces on CPUs and GPUs. This project models both and proves what makes them trustworthy.

**Shared brains.** A brain is a bit-exact Q16.16 network (784, 512, 128, 10). A job is a line of
text; anybody may train it; a node re-executes the job on a snapshot outside its lock and commits
under the lock if the epoch still matches. `Network` states one SGD step as a simultaneous matrix
step; `TrainCpu` and `TrainCuda` are the two real programs, nested loops over flat arrays, each
proved to compute it. `Exactness` says where the saturating, wrapping arithmetic is exact and
where it is not. `Targets` and `Paths` say what a step trains towards and work one out in full;
`Window` says which records a job trains and is scored on. `Text`, `Job`, `LegJob`, `WeightCodec`, `LegTrain`, `Records`, `Brain` and
`LegPack` hold the wire and file formats; `Wire`, `LegWire`, `Numerals`, `Utf8`, `LegWindow` and `Layouts`
say what they mean, in characters, digits and bytes. `Protocol` and `Runs` are the optimistic protocol as a
state machine over a family of brains under one lock, with interrupted saves and restarts; `Brain`
instantiates it for the v2 brain, `LegPack` for the four guardians; `SharedBrain` and `LegBrain`
are the objects.

**Nonce search.** `Pads`, `Slices`, `PadFill` and `PadFold` are the threads that fill and fold pads,
step by step with relaxed reads; `Words` and `WordAlgebra` are the 64-bit operations; `Mix` is the
scratchpad mix, whole and in chunks, on bytes; `Wave` is the fusion wave on CPU and device; `Fold` is
the proof-of-work fold and its short cut through packed samples, `FoldInputs` what its digests bind.
`Bits`, `MixMeaning`, `WaveMeaning` and `Tickets` state the words, rounds, lanes and digests again from
outside: bit by bit, in plain arithmetic, and by what copying hash functions show.
`Node` says what a winning nonce is: its pad, mixed and folded, meets the difficulty. `HostFold` are
the crews of host threads, `Device` a batch on a GPU from upload to answer, `Search` the loops around
them, with the next fill (`Filling`) interleaved at every look at the flags (`Abort`). CPU search and
GPU search are built from these down to loads and stores, and answer for the same winners
(`Search.SearchesAgree`). `MixWrap` and `DigestWrap` say exactly when a device that counts rounds in
32 bits is a node. `Batch` is the batch size.

BLAKE3, the pad fill, the difficulty test and one floating-point step of the guardians' trainer are
parameters: deterministic functions about which nothing else is assumed. The dataset is a parameter
too; each training path applies its own test to it. Rust's integers are integer ranges and every
wrap, saturation or cast is written out. `Sequential`, `Replay`, `Step`, `Mixed` and `FoldPow` are
the plain definitions the programs are proved against.

Where code and comments differ the model follows the code:

- crates/meshhash-cpu/src/lib.rs:394 says the fold's stride covers the whole pad. From 33 KiB on it
  leaves gaps (`Fold.SamplesDetermineIff`).
- The shared minimum in host_pads.rs:124-130 and engine.rs:1827-1837 suggests that the least nonce
  is returned. With several slices a later slice may win (`PadFold.LeastIff`,
  `PadFold.SingleSliceIff`); only the CUDA loop returns the least one.
- `(max_nonces - start) as u32` drops multiples of 2^32: the GPU search then stops early and the CPU
  search stops advancing (`Search.GpuCoversAllIff`, `Search.CpuFinishesIff`).
- `mix_rounds as u32` drops multiples of 2^32 from the rounds, so from 2^32 rounds on the device is
  wrong about some pad, in every version (`DigestWrap.DeviceDigestIff`). A caller who keeps
  `mix_rounds` below 2^32 is safe.
- crates/mesh-ai-v2/src/lib.rs:4 wants CUDA to match the CPU byte for byte. It does on a valid dataset;
  the CUDA path does not test the dataset's header (`Training.CudaMatchesIff`).
- The fold leaves a zero salt out of what it hashes, so inputs of different lengths can coincide
  (`FoldInputs.InputsEqualIff`); power-of-two lengths from 16 bytes on are safe
  (`FoldInputs.PowersOfTwoSeparate`).
- Epoch counters saturate, so "no epoch is advanced twice" holds below 2^64 - 1
  (`Runs.EpochAdvancesIff`).

Check it with `dafny verify dfyconfig.toml --resource-limit 2000000`.

## Model

| member | source | states |
|---|---|---|
| TrainCpu.Mlp.TrainStep | crates/mesh-ai-v2/src/mlp.rs:168-277 | one in-place SGD step over six arrays is the simultaneous matrix step: loss and every new weight come from the old weights only |
| TrainCpu.CollectGradients | crates/mesh-ai-v2/src/mlp.rs:210-244 | the nested loop with `row + i` indexing collects the outer product of errors and activations, and the masked back-propagated error, from unchanged weights |
| TrainCpu.ApplyUpdate | crates/mesh-ai-v2/src/mlp.rs:257-274 | every weight moves to the clamped difference with the scaled gradient, no index is skipped or repeated |
| TrainCpu.Mlp.Descend | crates/mesh-ai-v2/src/mlp.rs:257-274 | all six arrays are updated from gradients fixed beforehand; layers do not see each other's new weights |
| TrainCpu.Mlp.RunForward | crates/mesh-ai-v2/src/mlp.rs:169-199 | the three layer loops compute all pre-activations, activations and logits of the forward pass |
| Layers.OutputLayer | crates/mesh-ai-v2/src/mlp.rs:201-208 | clamped logits minus the one-hot target, and the saturating sum of their squares |
| Layers.DotSection | crates/mesh-ai-v2/src/mlp.rs:173-176 | an accumulation over a section of a flat buffer is the one over the buffer at a shifted row |
| Layers.NudgeMatrixByOuter | crates/mesh-ai-v2/src/mlp.rs:257-259 | updating a flat matrix with stored outer-product gradients is updating entry (row, column) with error times input |
| Network.SplitJoin | crates/mesh-ai-v2/cuda/brain_v2_train.cu:192-198 | six matrices and one flat vector in section order are the same data, both ways |
| TrainCuda.TrainStep | crates/mesh-ai-v2/cuda/brain_v2_train.cu:62-147 | the CUDA kernel, which updates one flat buffer layer by layer while it is still back-propagating, ends with exactly the CPU contract's step and loss |
| TrainCuda.BackwardInPlace | crates/mesh-ai-v2/cuda/brain_v2_train.cu:104-134 | although each weight is overwritten right after it is read, the propagated error uses the old weights |
| TrainCuda.ErrorAdded | crates/mesh-ai-v2/cuda/brain_v2_train.cu:110-114 | the row about to be overwritten still holds old weights, so its share of the error is the old one |
| TrainCuda.ThreeLayersMoved | crates/mesh-ai-v2/cuda/brain_v2_train.cu:104-144 | three successive in-place layer updates in one buffer amount to one simultaneous step |
| TrainCuda.SectionsAfterLayer | crates/mesh-ai-v2/cuda/brain_v2_train.cu:106-115 | a layer update changes its own matrix and bias sections and no other section |
| Exactness.NudgeIsDescent | crates/mesh-ai-v2/src/mlp.rs:257-274 | for every learning rate a job can carry, every gradient and weight: the new weight is clamp(w - floor(lr * grad / 2^16)), without saturation or wrap |
| Q16.JobRateIsSmall | crates/mesh-ai-v2/src/q16.rs:27-30 | rates a job can carry become 66..2^15 in Q16, rounded to nearest |
| Q16.QMulExactIff | crates/mesh-ai-v2/src/q16.rs:7-9 | a product is always the floor of the real one modulo 2^32, and equal to it if and only if that fits 32 bits |
| Q16.QMulExact | crates/mesh-ai-v2/src/q16.rs:7-9 | a product that fits is the floor of the real product; its size is bounded |
| Q16.NearestResults | crates/mesh-ai-v2/src/q16.rs:12-25 | a sum or difference is the 32-bit integer nearest to the real one, a clamped value the nearest within plus or minus 8, a rectified one the nearest from 0 up |
| Exactness.LayerOneExact | crates/mesh-ai-v2/src/mlp.rs:171-179 | with weights in the box and pixel inputs the first layer's accumulation never saturates or wraps: it is the exact integer sum |
| Exactness.LayerOneAnyOrder | crates/mesh-ai-v2/src/mlp.rs:171-179 | any reduction tree over any permutation of the terms gives the same first-layer sum |
| Exactness.ReduceExact | crates/mesh-ai-v2/src/mlp.rs:173-176 | a saturating reduction tree over at most 785 boxed terms is the plain integer sum |
| Exactness.ForwardLayerOneExact | crates/mesh-ai-v2/src/mlp.rs:171-179 | every first-layer pre-activation of a boxed network on pixels is the exact sum |
| Exactness.LossExact | crates/mesh-ai-v2/src/mlp.rs:201-208 | the loss is the exact sum of floored squares, within 64 per class plus 17 for the labelled one |
| Exactness.StepLossBound | crates/mesh-ai-v2/src/mlp.rs:201-208 | for all weights and inputs whatsoever 0 <= loss <= 657 (640 for a label past the classes), and it is exact |
| Exactness.HiddenTwoErrorExact | crates/mesh-ai-v2/src/mlp.rs:210-221 | the error sent back to the second hidden layer never saturates or wraps when the third matrix is in the box |
| Exactness.BackwardLayerTwoExact | crates/mesh-ai-v2/src/mlp.rs:210-226 | that error, masked by dead units, is the exact column sum, at most 648 in size |
| Exactness.LayerOneGradientExact | crates/mesh-ai-v2/src/mlp.rs:246-255 | first-layer gradients on pixels never wrap |
| Exactness.FirstLayerUpdateExact | crates/mesh-ai-v2/src/mlp.rs:246-259 | for every network and rate: each new first-layer weight is the clamped exact descent |
| Exactness.StepIsExact | crates/mesh-ai-v2/src/mlp.rs:168-277 | all of that in one step, for every unit and every first-layer weight |
| Exactness.LayerTwoExactIff | crates/mesh-ai-v2/src/mlp.rs:182-190 | a second-layer product is exact for all boxed weights if and only if the activation is below 2^28 |
| Exactness.LayerTwoCanWrap | crates/mesh-ai-v2/src/mlp.rs:182-190 | a boxed network and a pixel input on which a second-layer product does wrap |
| Exactness.StepEndsInBox | crates/mesh-ai-v2/src/mlp.rs:257-274 | one step from any weights with any input, label and rate ends with every weight within plus or minus 8 |
| Exactness.SilentUnitOne | crates/mesh-ai-v2/src/mlp.rs:171-274 | a first-layer unit with pre-activation at most 0 keeps its incoming row, bias and outgoing column |
| Exactness.SilentUnitTwo | crates/mesh-ai-v2/src/mlp.rs:182-274 | the same for the second hidden layer |
| Exactness.BlankPixel | crates/mesh-ai-v2/src/mlp.rs:246-259 | a zero pixel leaves its whole first-layer column unchanged |
| Targets.BiasMoves | crates/mesh-ai-v2/src/mlp.rs:201-206 | at a job's rates each output bias moves by exactly floor(lr * miss / 2^16) against its miss: at the label towards 65536, strictly while below it and inside the box, at the other classes towards zero |
| Targets.PerfectAnswerIsFixed | crates/mesh-ai-v2/src/mlp.rs:168-277 | if the clamped logits are 65536 at the label and 0 elsewhere the loss is 0 and the step leaves every boxed weight alone |
| Targets.LossZeroIff | crates/mesh-ai-v2/src/mlp.rs:201-208 | the loss is 0 if and only if every clamped logit is within 1/256 of 65536 at the label and of 0 elsewhere |
| Paths.ForwardAlongPath | crates/mesh-ai-v2/src/mlp.rs:169-199 | in a network that is one path from pixel to class, the signal is the three floored products along it, and every other unit and class stays at 0 |
| Paths.BackwardAlongPath | crates/mesh-ai-v2/src/mlp.rs:201-244 | the error comes back along that path by the chain rule, floored at each weight, and nowhere else |
| Paths.StepAlongPath | crates/mesh-ai-v2/src/mlp.rs:168-277 | all 468874 weights after a step on a path network, in plain integers: each moves down by floor(lr * error * input), and those off the path of the error stay |
| WeightCodec.WeightsRoundTrip | crates/mesh-ai-v2/src/mlp.rs:71-116 | decoding an encoded network, whatever bytes follow, gives it back |
| WeightCodec.WeightsAcceptance | crates/mesh-ai-v2/src/mlp.rs:71-80 | a blob is accepted if and only if it is long enough and starts with magic and count |
| WeightCodec.WeightsReencode | crates/mesh-ai-v2/src/mlp.rs:71-116 | re-encoding an accepted blob returns its first 1875511 bytes |
| WeightCodec.SectionsOfDecoded | crates/mesh-ai-v2/src/mlp.rs:81-97 | the six arrays are read back to back at the offsets of the flat layout |
| WeightCodec.EncodeWordsOfJoin | crates/mesh-ai-v2/src/mlp.rs:104-114 | the six arrays are written back to back |
| TrainCpu.Mlp.ToWeights | crates/mesh-ai-v2/src/mlp.rs:100-116 | the writing loop produces the blob of the network's contents |
| TrainCpu.Mlp.FromWeights | crates/mesh-ai-v2/src/mlp.rs:71-98 | the reading cursor yields an object holding the decoded network, or nothing exactly when the blob is not acceptable |
| Machine.LeValueOfBytes | crates/mesh-ai-v2/src/brain.rs:181-188 | little-endian fields of any width read back as written |
| Machine.LeBytesOfValue | crates/mesh-ai-v2/src/brain.rs:201-217 | any field bytes are the encoding of the value read from them |
| Job.Parse | crates/mesh-ai-v2/src/job.rs:77-123 | the parser's loop computes the parse function: last occurrence of a key wins, a bad number keeps the earlier value, unknown keys are ignored |
| Job.NamedJobParses | crates/mesh-ai-v2/src/job.rs:64-123 | a written job naming any architecture and number format parses to the normalised parameters if both names are absent or the contract's, and is refused otherwise |
| Job.JobRoundTrip | crates/mesh-ai-v2/src/job.rs:64-123 | for all u64 epochs and u32 parameters, parsing an encoded job gives the same epoch and the clamped parameters |
| Job.ParseEncodeParse | crates/mesh-ai-v2/src/job.rs:64-123 | encoding what was parsed and parsing again changes nothing, for every accepted byte string |
| Job.AcceptedIsNormal | crates/mesh-ai-v2/src/job.rs:107-115 | any accepted bytes give 1..1024 steps, rate 1..500, 16..2048 samples and offset + samples <= 4096 |
| Job.NormaliseIdempotent | crates/mesh-ai-v2/src/job.rs:107-115 | clamping a clamped job changes nothing |
| Text.SplitJoined | crates/mesh-ai-v2/src/job.rs:77-86 | splitting joined parts at the separator gives the parts back |
| Text.DecimalRoundTrip | crates/mesh-ai-v2/src/job.rs:64-99 | a decimal number in range parses back to itself |
| Text.ParseUnsigned | crates/mesh-ai-v2/src/job.rs:88-95 | a parsed number never exceeds the width of its field |
| Wire.JobText | crates/mesh-ai-v2/src/job.rs:64-69 | the text of a job, literally |
| Wire.JobMeaning | crates/mesh-ai-v2/src/job.rs:77-123 | a text is a job if and only if it is UTF-8, starts with the prefix and the last architecture and format it names are the contract's; each field is the last one given that parses, else its default, then the nearest allowed value |
| Wire.DefaultJob | crates/mesh-ai-v2/src/job.rs:82-88 | the bare prefix is the job of epoch 0, 64 steps, rate 50/1000, 256 samples, offset 0 |
| Wire.SplitIff | crates/mesh-ai-v2/src/job.rs:89-89 | a text splits into parts if and only if joined by the separator they are the text and none holds it |
| Wire.SplitOnceIff | crates/mesh-ai-v2/src/job.rs:90-90 | a part is key and value if and only if it is key, separator, value and the key does not hold the separator |
| Numerals.ParsesIff | crates/mesh-ai-v2/src/job.rs:92-96 | a text is read as the number v if and only if it is digits that stand for v by place value, with or without a plus sign, and v fits |
| Numerals.DecimalMeaning | crates/mesh-ai-v2/src/job.rs:64-69 | a number is written as the digits that stand for it, without leading zeros |
| Utf8.ValidUtf8Iff | crates/mesh-ai-v2/src/job.rs:78-78 | the bytes accepted as text are exactly the UTF-8 encodings of Unicode scalar values |
| Training.RunJobCpu | crates/mesh-ai-v2/src/job.rs:133-167 | the verify path is a deterministic function of weights, job bytes and dataset, with the source's error order; every sample read is inside the dataset |
| Training.RunJobCuda | crates/mesh-ai-v2/src/cuda_api.rs:39-97 | the CUDA path for any weights, job, dataset and device: weights before dataset, no header test, the launcher's length test on 32 bits, and the CPU wherever the kernel refuses or fails |
| Training.CudaMatchesIff | crates/mesh-ai-v2/src/cuda_api.rs:39-97 | that result is the CPU path's, bit for bit, if and only if the job does not parse, or the dataset is valid, or the weights are good and the kernel leaves the job to the CPU |
| Training.CudaTakesWrongHeader | crates/mesh-ai-v2/cuda/brain_v2_train.cu:248-250 | a full-length dataset with a wrong header that the device trains on and the CPU refuses |
| Training.LoadSample | crates/mesh-ai-v2/src/job.rs:125-130 | label and 784 scaled pixels of any index below 4096, all reads in bounds |
| Training.TrainOnCpu | crates/mesh-ai-v2/src/job.rs:142-146 | the training loop visits offset + step mod samples and returns the last loss |
| Training.TrainOnCuda | crates/mesh-ai-v2/cuda/brain_v2_train.cu:200-211 | the kernel's loop does the same on the flat buffer |
| Training.EvaluateOnCpu | crates/mesh-ai-v2/src/mlp.rs:123-165 | accuracy over the evaluation window, as a share of one |
| Training.EvaluateOnCuda | crates/mesh-ai-v2/cuda/brain_v2_train.cu:213-226 | the kernel computes the same accuracy |
| Window.FirstPassIsFold | crates/mesh-ai-v2/src/job.rs:142-146 | for n up to the window, n steps are the fold of the step over the records offset, offset + 1, ..., offset + n - 1, each read as label byte and image |
| Window.TrainingIsFold | crates/mesh-ai-v2/src/job.rs:142-146 | any number k * samples + r of steps is k whole passes over the window's records in order, then its first r |
| Window.EachOnce | crates/mesh-ai-v2/src/job.rs:143-143 | any `samples` steps in a row see each record of the window exactly once |
| Window.LastLoss | crates/mesh-ai-v2/src/job.rs:141-146 | the loss kept is the last step's, on its record, by the weights before it |
| Window.JobIsFold | crates/mesh-ai-v2/src/job.rs:133-160 | a finished job hands in the blob of the network folded over its window by its steps, at its rate |
| Window.JobFailsIff | crates/mesh-ai-v2/src/job.rs:133-140 | a job fails for its text, then for the dataset, then for the weights, and for nothing else |
| Window.JobReport | crates/mesh-ai-v2/src/job.rs:147-166 | and reports the last loss, the share of right answers among the first 64 records of the window, and the blob's hash |
| Window.AccuracyCounts | crates/mesh-ai-v2/src/mlp.rs:123-165 | accuracy is the number of records whose label is the first class no logit exceeds, times 2^16, divided by how many were tried, rounded down |
| Window.PixelIsNearest | crates/mesh-ai-v2/src/mlp.rs:287-294 | a pixel byte p becomes the integer nearest to 65536 p / 255 |
| Window.ValidDatasetIff | crates/mesh-ai-v2/src/job.rs:44-61 | a dataset is valid if and only if it is 3215378 bytes long and starts with the eighteen bytes of tag, count and width |
| Training.BestClass | crates/mesh-ai-v2/src/mlp.rs:147-159 | the scan returns the arg-max |
| Training.ArgMaxIsFirstMaximum | crates/mesh-ai-v2/src/mlp.rs:147-159 | the winner is a maximum and the first of them |
| Training.ShareBounds | crates/mesh-ai-v2/src/mlp.rs:164-164 | accuracy lies in 0..1 and is 1 if and only if every sample was right |
| Genesis.GenesisBlob | crates/mesh-ai-v2/src/mlp.rs:33-69 | the six filling loops produce the seeded network's blob |
| Genesis.SeedInScale | crates/mesh-ai-v2/src/q16.rs:34-46 | a seeded weight is the hash's first word shifted by scale, modulo twice the scale, in [-scale, scale) |
| Genesis.GenesisInBox | crates/mesh-ai-v2/src/mlp.rs:33-69 | every first weight is in the box |
| Genesis.PixelInRange | crates/mesh-ai-v2/src/mlp.rs:287-294 | a pixel scales into 0..1, to 1 only if 255 and to 0 only if 0 |
| Genesis.TrainingEndsInBox | crates/mesh-ai-v2/src/job.rs:142-146 | any positive number of steps ends in the box, from any weights |
| Genesis.EveryStepExact | crates/mesh-ai-v2/src/job.rs:138-146 | step n of an accepted job is exact if the job started in the box, and for n > 0 from any weights |
| Genesis.JobOutputBoxed | crates/mesh-ai-v2/src/job.rs:133-167 | whatever blob a job starts from, its output blob decodes and is in the box |
| Protocol.ReplayCounters | crates/mesh-ai-v2/src/brain.rs:148-165 | along a lineage epoch and advances equal the number of accepted jobs and the step total is their capped sum |
| Protocol.VerifyAcceptsIff | crates/mesh-ai-v2/src/brain.rs:122-146 | an output is accepted if and only if its job parses, is for this brain and epoch, trains, and trains to that very output; each refusal has its one reason |
| Runs.OnlyTrainedOutputsPass | crates/mesh-ai/src/orchestrator.rs:1551-1669 | in every run a check leaves an advance in hand if and only if the output handed in is what the job makes of the lineage's weights at the snapshot's epoch |
| Runs.WinningOutputIsLive | crates/mesh-ai/src/orchestrator.rs:1551-1669 | in every run the weights a winning commit leaves are an output some worker was handed with that job, and what the job makes of the weights that were live |
| Runs.StepInv | crates/mesh-ai/src/orchestrator.rs:1551-1669 | every snapshot, off-lock check, commit, interrupted save and restart keeps the lineage invariant |
| Runs.LiveIsGenesisFolded | crates/mesh-ai-v2/src/brain.rs:122-165 | in every interleaving the live brain at epoch e is genesis folded through exactly e accepted jobs, the i-th naming epoch i, counters matching |
| Runs.EachEpochWonOnce | crates/mesh-ai-v2/src/brain.rs:148-154 | between restarts no epoch of a brain is ever advanced twice |
| Runs.LogsOnlyGrow | crates/mesh-ai-v2/src/brain.rs:148-165 | between restarts accepted history is only appended to |
| Runs.CommitFrame | crates/mesh-ai/src/leg_brain.rs:224-242 | a commit on one brain leaves every other brain and its history alone |
| Runs.CommitsCommute | crates/mesh-ai/src/leg_brain.rs:224-242 | commits on different brains give the same result in either order |
| Runs.RestartOutcome | crates/mesh-ai-v2/src/brain.rs:84-92 | a restart at any point brings back an earlier point of each lineage, or genesis |
| Runs.CrashDuringSave | crates/mesh-ai-v2/src/brain.rs:163-176 | a save cut at any byte: the new state if whole, genesis if cut, what the old file gave if it never began |
| Runs.EpochAdvancesIff | crates/mesh-ai-v2/src/brain.rs:148-157 | after an advance a second one for the same epoch is refused if and only if the epoch counter has not reached 2^64 - 1 |
| Brain.StateRoundTrip | crates/mesh-ai-v2/src/brain.rs:178-236 | a saved brain loads as it was |
| Brain.CutStateRejected | crates/mesh-ai-v2/src/brain.rs:193-220 | every strict prefix of a saved brain is rejected |
| Layouts.StateLayout | crates/mesh-ai-v2/src/brain.rs:178-191 | the state file field by field |
| Layouts.StateLoadsIff | crates/mesh-ai-v2/src/brain.rs:193-236 | a file loads if and only if it is long enough, starts with MESHBRAINSTATEv2 and its digest is that of its weights; and what each field is then |
| Layouts.WeightLayout | crates/mesh-ai-v2/src/mlp.rs:100-116 | a weight blob byte by byte: MESHBRAINv2, the count, weight i of the six blocks at 15 + 4 i |
| Layouts.GenesisIs | crates/mesh-ai-v2/src/mlp.rs:33-69 | every first weight is the first word of the hash of seed, block number and index, brought into its block's scale |
| Layouts.NewBrain | crates/mesh-ai-v2/src/brain.rs:66-82 | a new brain counts and reports nothing and holds the first network |
| Bits.FieldBytes | crates/mesh-ai-v2/src/brain.rs:178-191 | the bytes of fixed-width fields, lowest first, negative numbers modulo 2^32 |
| Brain.V2IsLawful | crates/mesh-ai-v2/src/brain.rs:65-236 | the v2 brain meets all the protocol asks: genesis at zero, training keeps it storable, storing is a prefix code |
| Brain.ReplayBoxed | crates/mesh-ai-v2/src/brain.rs:148-165 | every point of a v2 lineage has its weights in the box |
| Brain.ReachableBrain | crates/mesh-ai-v2/src/brain.rs:65-236 | every v2 brain any run can reach is storable, decodes, and is in the box |
| Brain.ReachableJobsExact | crates/mesh-ai-v2/src/job.rs:133-146 | on every reachable brain every step of every accepted job is exact: layer one, loss at most 657, error of layer two, first-layer update; and every weight descends exactly at the job's rate |
| Brain.HonestWorkerAccepted | crates/mesh-ai-v2/src/brain.rs:108-165 | on every reachable brain and for all u32 parameters an honest result verifies and moves the epoch by one; training succeeds if and only if the dataset is valid |
| Storage.StateFile.Write | crates/mesh-ai-v2/src/brain.rs:167-176 | a write leaves the old bytes or a prefix of the new ones, and on a healthy file all of the new ones |
| SharedBrain.SharedBrainV2.VerifyOnly | crates/mesh-ai-v2/src/brain.rs:122-146 | accepts if and only if the job parses, names the live epoch, trains, and trains to the output handed in; changes nothing |
| SharedBrain.SharedBrainV2.ApplyAdvance | crates/mesh-ai-v2/src/brain.rs:148-165 | the object and its file move exactly as the protocol says; a stale advance changes neither |
| SharedBrain.SharedBrainV2.VerifyAndAdvance | crates/mesh-ai-v2/src/brain.rs:112-120 | advances if and only if the output is what the job makes of the live weights, and then every field is as trained; any other output leaves brain and file as they were |
| SharedBrain.SharedBrainV2.ToPersistBytes | crates/mesh-ai-v2/src/brain.rs:178-191 | ten appended fields are the encoded state |
| SharedBrain.FromPersistBytes | crates/mesh-ai-v2/src/brain.rs:193-236 | the reading cursor is the decoder, on all bytes |
| SharedBrain.LoadOrGenesis | crates/mesh-ai-v2/src/brain.rs:66-92 | the file's brain if it loads, untouched; otherwise genesis, whose save is attempted |
| LegJob.ParseLegLoop | crates/mesh-ai/src/legs.rs:386-422 | the leg parser's loop computes its parse function; a job without a known leg name is refused |
| LegJob.NameRoundTrip | crates/mesh-ai/src/legs.rs:30-47 | every leg's written name parses back to it |
| LegJob.LegJobRoundTrip | crates/mesh-ai/src/legs.rs:365-422 | parsing an encoded leg job gives the same leg, epoch and offset and the clamped parameters |
| LegJob.LegParseEncodeParse | crates/mesh-ai/src/legs.rs:365-422 | parse, encode, parse is parse |
| LegWire.LegJobText | crates/mesh-ai/src/legs.rs:365-378 | the text of a leg job, literally |
| LegWire.LegJobMeaning | crates/mesh-ai/src/legs.rs:386-422 | a text is a leg job if and only if it is UTF-8, starts with the prefix and the last leg it names is one; the other fields are the last given, else the defaults, then the nearest allowed |
| LegWire.LegNamesIff | crates/mesh-ai/src/legs.rs:39-47 | white space, one of a leg's names in any mixture of cases, white space: that is the leg, and nothing else is |
| Utf8.TrimMeaning | crates/mesh-ai/src/legs.rs:40-40 | trimming takes Unicode white space off both ends and nothing else |
| LegTrain.LegWeightsRoundTrip | crates/mesh-ai/src/legs.rs:170-211 | decoding an encoded guardian, whatever bytes follow, gives its 1396 doubles back bit for bit |
| LegTrain.ReadLegWeights | crates/mesh-ai/src/legs.rs:170-195 | the reading cursor accepts and reads exactly what the decoder does, on all bytes |
| LegTrain.WriteLegWeights | crates/mesh-ai/src/legs.rs:197-211 | the writing loop produces the blob |
| LegTrain.RunLegTrain | crates/mesh-ai/src/legs.rs:428-455 | the training job is a deterministic function of weights and job bytes: steps in order, sample indices wrapping at 2^32, at most 32 evaluation samples |
| LegTrain.RunLegOutput | crates/mesh-ai/src/legs.rs:428-455 | whatever blob a job starts from, its output has the fixed length and can start the next job |
| LegWindow.TrainingIsFold | crates/mesh-ai/src/legs.rs:428-445 | n steps are the fold over the sample numbers offset, offset + 1, ... in 32 bits, modulo the window |
| LegWindow.EachOnce | crates/mesh-ai/src/legs.rs:428-445 | while that counter does not wrap, any `samples` steps in a row see each sample exactly once |
| LegWindow.LegJobIsFold | crates/mesh-ai/src/legs.rs:428-455 | a finished leg job hands in the folded parameters and reports the last loss and the score on up to 32 samples from the offset on |
| Layouts.LegWeightLayout | crates/mesh-ai/src/legs.rs:197-211 | a guardian's blob byte by byte |
| Layouts.LegWeightsAcceptance | crates/mesh-ai/src/legs.rs:170-195 | a guardian's blob is accepted if and only if it is long enough and starts with letters and count; and which bytes each double is |
| LegPack.RecordReads | crates/mesh-ai/src/leg_brain.rs:255-305 | a leg record reads back from the front of any bytes; every strict prefix is refused |
| LegPack.LegsRead | crates/mesh-ai/src/leg_brain.rs:307-336 | any number of records back to back read back, and no strict prefix does |
| LegPack.PackReads | crates/mesh-ai/src/leg_brain.rs:307-336 | the four-leg file is a prefix code |
| Layouts.PackLayout | crates/mesh-ai/src/leg_brain.rs:307-315 | the guardians' file field by field, security, network, blocks, transpar |
| Layouts.LegLoadsIff | crates/mesh-ai/src/leg_brain.rs:266-305 | a record loads if and only if it is whole, of the fixed length, and its digest is that of its weights; and what each field is then |
| Layouts.PackLoadsIff | crates/mesh-ai/src/leg_brain.rs:317-336 | the file loads if and only if it starts with MESHLEGSTATEv1 and four records in a row load |
| Layouts.NewLeg | crates/mesh-ai/src/leg_brain.rs:37-49 | a new guardian counts and reports nothing and holds its first model |
| LegPack.PackIsLawful | crates/mesh-ai/src/leg_brain.rs:98-336 | the guardian pack meets all the protocol asks, so every run theorem holds of it |
| LegPack.EveryLegHasItsLineage | crates/mesh-ai/src/leg_brain.rs:184-242 | in every reachable pack each guardian has its own lineage and digest = hash(weights) at the fixed length |
| LegPack.LegReplayDecodes | crates/mesh-ai/src/legs.rs:424-456 | every point of a leg's lineage has a blob the trainer accepts |
| LegPack.HonestLegAccepted | crates/mesh-ai/src/leg_brain.rs:173-242 | in every reachable pack, for every leg and all u32 parameters, the leg's own job trains, verifies and advances that leg by one epoch |
| LegBrain.LegBrainPack.VerifyOnly | crates/mesh-ai/src/leg_brain.rs:194-222 | the job picks the leg; accepted if and only if it names that leg's epoch and trains that leg's weights to the output handed in |
| LegBrain.LegBrainPack.ApplyAdvance | crates/mesh-ai/src/leg_brain.rs:224-242 | one leg advances and the other three stay; all four are saved; a stale advance touches nothing |
| LegBrain.LegBrainPack.VerifyAndAdvance | crates/mesh-ai/src/leg_brain.rs:184-192 | advances the job's leg, and only it, if and only if the output is what the job makes of that leg's weights; any other leaves pack and file as they were |
| LegBrain.LegBrainPack.Put | crates/mesh-ai/src/leg_brain.rs:130-137 | writing one leg leaves the other three |
| LegBrain.LegBrainPack.ToPersistBytes | crates/mesh-ai/src/leg_brain.rs:255-264 | four appended records are the encoded pack |
| LegBrain.ReadOne | crates/mesh-ai/src/leg_brain.rs:266-305 | the cursor reads one record and stops where the next begins |
| LegBrain.FromPersistBytes | crates/mesh-ai/src/leg_brain.rs:317-336 | four cursor reads are the decoder, on all bytes |
| LegBrain.LoadOrGenesis | crates/mesh-ai/src/leg_brain.rs:99-119 | the saved guardians if it loads, otherwise four first models |
| Slices.SplitPads | apps/mesh-miner-gpu/src/host_pads.rs:47-61 | cutting off the front of the rest makes at most `threads` slices, the ceiling-division ones |
| Slices.SplitBatch | apps/mesh-miner-gpu/src/engine.rs:1795-1802 | the CPU arm's index arithmetic makes the same slices |
| Slices.SlicesCover | apps/mesh-miner-gpu/src/host_pads.rs:47-61 | the slices are non-empty, in order, without gap or overlap, over exactly all pads |
| Slices.SlicesDisjoint | apps/mesh-miner-gpu/src/host_pads.rs:47-61 | no pad is in two slices |
| Slices.SliceAt | apps/mesh-miner-gpu/src/host_pads.rs:47-61 | slice t starts t chunks on and holds a whole chunk or what is left |
| Slices.SliceCount | apps/mesh-miner-gpu/src/host_pads.rs:47-61 | there are as many slices as chunks are needed |
| PadFill.FillIsSequential | apps/mesh-miner-gpu/src/host_pads.rs:49-81 | under every interleaving without an abort the buffer is the sequential fill, pad i from nonce start + i |
| PadFill.StepInv | apps/mesh-miner-gpu/src/host_pads.rs:61-74 | every thread step keeps the pads written so far, in its own and other slices |
| Filling.FillPads | apps/mesh-miner-gpu/src/host_pads.rs:33-82 | a buffer is returned only completely filled, and none only for no pads, pads under 64 bytes or an abort |
| Filling.StartFill | apps/mesh-miner-gpu/src/engine.rs:1726-1739 | what is started beside the device is the fill of exactly the next batch |
| Filling.JoinFill | apps/mesh-miner-gpu/src/engine.rs:1741-1743 | whatever its threads did meanwhile, the joined fill is complete, or a flag is up |
| PadFold.FoldSoundAndComplete | apps/mesh-miner-gpu/src/host_pads.rs:98-142 | under every interleaving a found nonce is in range, qualifies and is the first of its slice, and finding none without an abort means no pad qualifies |
| PadFold.StepInv | apps/mesh-miner-gpu/src/host_pads.rs:115-135 | every thread step keeps that, and the shared minimum never rises |
| PadFold.FoundIsLeastPublished | apps/mesh-miner-gpu/src/host_pads.rs:122-131 | in every run the shared value is the least nonce any thread has published, and one thread did publish it |
| PadFold.LeastIff | apps/mesh-miner-gpu/src/host_pads.rs:115-142 | the parallel fold returns the least nonce under every schedule if and only if all qualifying pads lie in one slice |
| PadFold.SingleSliceIff | apps/mesh-miner-gpu/src/host_pads.rs:99-101 | it does so for every set of qualifying pads if and only if there is at most one slice |
| PadFold.JoinedFold | apps/mesh-miner-gpu/src/host_pads.rs:136-142 | once all threads have joined the shared value is a first-of-slice winner, or no flag is up and there is none |
| HostFold.FoldHostPads | apps/mesh-miner-gpu/src/host_pads.rs:85-143 | folding every whole pad of a buffer on interleaved threads returns a qualifying nonce, and none only if there is none or an abort |
| HostFold.SearchBatchOnCpu | apps/mesh-miner-gpu/src/engine.rs:1785-1844 | one CPU batch, each nonce filled, mixed and folded on some thread: a winning nonce of the batch, and none only if there is none or an abort |
| Node.DigestOnCpu | crates/meshhash-cpu/src/lib.rs:209-250 | mixing in place and folding on the CPU give the node's digest, all rounds mixed |
| Node.TestNonce | apps/mesh-miner-gpu/src/engine.rs:1817-1820 | fill, mix, fold and test decide whether the nonce wins |
| Tickets.FirstBytesWin | crates/meshhash-cpu/src/lib.rs:209-250 | under a hash that copies out the first bytes, a nonce wins if and only if the first bytes of its own pad, mixed by all rounds of the version, meet the difficulty |
| Tickets.WinsIff | crates/meshhash-cpu/src/lib.rs:209-250 | for every version a nonce wins if and only if its pad has a legal length and the digest of that pad, mixed and folded, is good |
| Abort.Flags.Poll | apps/mesh-miner-gpu/src/engine.rs:124-127 | between two looks at the flags others may raise them and a fill beside the search may take any steps; nobody lowers a flag, no search raises one, and the fill stays a legal state of the same fill |
| Search.MixFilledPads | apps/mesh-miner-gpu/src/engine.rs:979-997 | the device at hand, running its own kernels, answers for the batch in the buffer: a winner of it, CUDA the least, and none only if there is none or an abort |
| Search.MixWhileFilling | apps/mesh-miner-gpu/src/engine.rs:1718-1746 | with the next fill interleaved at every look at the flags, the answer for this batch and the next buffer are each what they would be alone |
| Search.SearchGpu | apps/mesh-miner-gpu/src/engine.rs:1669-1765 | the pipelined search over the real device batches: CUDA finds the least nonce below max mod 2^32 whose pad, mixed and folded, meets the difficulty, OpenCL one of the first batch that has any, and nothing without an abort means none; with fewer than 2^32 rounds these are the node's own winners; the batches reported are the first ones, in order, the winner in the last |
| Search.SearchCpu | apps/mesh-miner-gpu/src/engine.rs:1679-1699 | the CPU search, for any number of nonces: a winner of the first batch that has one, or none below max mod 2^32; it stalls only from 2^32 nonces on |
| Search.SearchesAgree | apps/mesh-miner-gpu/src/engine.rs:1669-1765 | undisturbed and below 2^32 nonces and rounds, GPU and CPU search find something for the same inputs, in the same batch, CUDA the lesser nonce |
| Search.GpuCoversAllIff | apps/mesh-miner-gpu/src/engine.rs:1701-1719 | a finished GPU search speaks for all nonces it was given if and only if max < 2^32 |
| Search.StartsReached | apps/mesh-miner-gpu/src/engine.rs:1682-1697 | the CPU loop never gets past max mod 2^32 and gets that far |
| Search.StartAfterIs | apps/mesh-miner-gpu/src/engine.rs:1682-1697 | after k batches the CPU loop stands at k times the batch size, or at max mod 2^32 |
| Search.Report | apps/mesh-miner-gpu/src/engine.rs:1746-1753 | the batch sizes reported are those of the first batches in order; undisturbed, the winner lies in the last one reported and without a winner all are |
| Search.CpuFinishesIff | apps/mesh-miner-gpu/src/engine.rs:1682-1697 | the CPU loop gets through its nonces if and only if max < 2^32; otherwise it comes to max mod 2^32, where its batch is empty, and stays |
| Words.Address | apps/mesh-miner-gpu/cuda/meshhash_mix.cu:33-50 | for every pad of 8 bytes or more each masked address is 8-aligned and its word inside the pad |
| Words.LoadOfStore | crates/meshhash-cpu/src/lib.rs:345-389 | a stored word reads back |
| WordAlgebra.RotlIs | apps/mesh-miner-gpu/cuda/meshhash_mix.cu:128-136 | a rotation is the two shifts' sum modulo 2^64, for every amount from 1 to 63 |
| WordAlgebra.XorCancel | crates/meshhash-cpu/src/fusion.rs:84-95 | exclusive or with the same word twice changes nothing |
| Bits.BitwiseMeaning | apps/mesh-miner-gpu/cuda/meshhash_mix.cu:138-163 | each bit of an exclusive or, conjunction and disjunction |
| Bits.RotationMeaning | apps/mesh-miner-gpu/cuda/meshhash_mix.cu:128-136 | a rotation by n moves bit i to bit i + n, counted round, both ways |
| Bits.AddressBits | apps/mesh-miner-gpu/cuda/meshhash_mix.cu:33-50 | an address has bit i of the word if i is 3 or more and length less eight has it, for every length |
| Bits.LeByteAt | apps/mesh-miner-gpu/cuda/meshhash_mix.cu:105-126 | byte i of a word in memory is its i-th digit to base 256 |
| Mix.RoundsCompose | apps/mesh-miner-gpu/cuda/meshhash_mix.cu:26-62 | two stretches of rounds with the state carried over are one stretch |
| Mix.ForwardRound | apps/mesh-miner-gpu/src/opencl_mix.rs:45-65 | one forward round in place at an offset of a larger buffer is one round of the pad alone; all other bytes stay |
| Mix.ReverseRound | apps/mesh-miner-gpu/cuda/meshhash_mix.cu:64-103 | the same for a reverse round, whose address counts down from the pass's total, not the chunk's |
| Mix.MixStretch | apps/mesh-miner-gpu/cuda/meshhash_mix.cu:26-62 | one thread's launch mixes its own pad in place by the given rounds and touches no other byte |
| Mix.MixOnCpu | crates/meshhash-cpu/src/lib.rs:209-215 | the CPU passes compute the mix of the version |
| MixMeaning.SecondPlaces | crates/meshhash-cpu/src/lib.rs:345-389 | on pads of 2^k bytes, for all states and words, both directions' second addresses in products, quotients and remainders |
| MixMeaning.StatesMeetIff | crates/meshhash-cpu/src/lib.rs:375-379 | two states lead the same word to the same second place if and only if bits 3..k-1 agree: of the states forward, of the states turned up by 7 in reverse |
| MixMeaning.FirstPlaces | crates/meshhash-cpu/src/lib.rs:345-376 | both directions' first addresses likewise |
| MixMeaning.ForwardRoundIs | crates/meshhash-cpu/src/lib.rs:345-366 | a forward round in arithmetic: both places, the word written, the next state |
| MixMeaning.ReverseRoundIs | crates/meshhash-cpu/src/lib.rs:369-389 | a reverse round in arithmetic |
| MixMeaning.MixIsRounds | crates/meshhash-cpu/src/lib.rs:209-215 | a mix is its rounds from the state in the first word, then from version 2 on as many in reverse from the state in the last word |
| Mix.LaunchRange | apps/mesh-miner-gpu/cuda/meshhash_mix.cu:234-253 | a launch over a batch moves every pad on from its own state slot and no pad disturbs another |
| Mix.MixInterruptible | apps/mesh-miner-gpu/src/engine.rs:281-343 | for any chunk size the sliced pass is the whole pass on every pad, unless an abort was seen |
| Mix.MixOnDevice | apps/mesh-miner-gpu/src/engine.rs:396-404 | forward and, from version 2, reverse on the device give the CPU mix of every pad by the rounds the source casts to 32 bits, for any chunk and version |
| MixWrap.DeviceMixesAlikeIff | apps/mesh-miner-gpu/src/engine.rs:396-404 | in every version the device mixes every pad as the node does if and only if there are fewer than 2^32 rounds |
| MixWrap.UnmixedAtTwoTo32 | apps/mesh-miner-gpu/src/engine.rs:396-404 | at 2^32 rounds the device mixes nothing at all |
| MixWrap.TwoPads | crates/meshhash-cpu/src/lib.rs:345-389 | for every larger number of rounds, two pads that the node mixes alike and the device does not |
| DigestWrap.DeviceDigestIff | apps/mesh-miner-gpu/src/engine.rs:396-404 | in every version and under every salt the device's digest is the node's, for every hash function and pad, if and only if there are fewer than 2^32 rounds |
| Fold.SamplesOfPad | crates/meshhash-cpu/src/lib.rs:392-405 | the reference loop hashes exactly the samples at multiples of the stride |
| Fold.PackSamples | crates/meshhash-cpu/src/lib.rs:271-287 | packing puts every sample, zero-padded, in its own 32 bytes and touches nothing else |
| Fold.SamplesOfPacked | crates/meshhash-cpu/src/lib.rs:290-301 | reading packed samples back, without padding, gives the hash input of the pad itself |
| Fold.FoldOnCpu | crates/meshhash-cpu/src/lib.rs:240-250 | the consensus fold for every version and salt |
| Wave.ProgramWords | crates/meshhash-cpu/src/fusion.rs:60-81 | the lane programs are the words of the digest of salt, head and tag |
| Wave.WaveOnCpu | crates/meshhash-cpu/src/fusion.rs:98-130 | the CPU's lanes, ALU and byte folding compute the wave |
| Wave.AluOnDevice | apps/mesh-miner-gpu/cuda/meshhash_mix.cu:138-163 | the kernel's ALU, which guards its rotations by branches, is the CPU's |
| Wave.WaveOnDevice | apps/mesh-miner-gpu/cuda/meshhash_mix.cu:165-197 | one kernel thread writes the same wave into its 32 bytes and touches no other |
| WaveMeaning.ProgramWordIs | crates/meshhash-cpu/src/fusion.rs:71-82 | program word i is a word of the digest at 2 i mod 24, exclusive or i times a constant |
| WaveMeaning.OpCodeIs | crates/meshhash-cpu/src/fusion.rs:108-120 | which bits of word and step choose the operation |
| WaveMeaning.AluIs | crates/meshhash-cpu/src/fusion.rs:84-96 | the eight operations in arithmetic, for all words |
| WaveMeaning.LaneIs | crates/meshhash-cpu/src/fusion.rs:104-125 | a lane's start and each of its steps in arithmetic, on pads of 2^k bytes |
| WaveMeaning.ByteInIs | crates/meshhash-cpu/src/fusion.rs:120-130 | where and how each byte of a lane goes into the 32 |
| WaveMeaning.WaveIs | crates/meshhash-cpu/src/fusion.rs:98-130 | the program is made of salt and the pad's own head, and all 32 lanes go in |
| Device.AuditFirstPad | apps/mesh-miner-gpu/src/engine.rs:444-464 | the audit never rejects: the digest from packed samples and the kernel's wave is the digest the CPU makes of the pad with its own wave |
| Fold.FoldFromExtract | crates/meshhash-cpu/src/lib.rs:310-327 | for every version the fold from packed samples and wave accumulator is the fold of the pad |
| Tickets.SameTicketSameFold | crates/meshhash-cpu/src/fusion.rs:133-148 | for every hash the wave matters only through its hash, and before version 4 not at all |
| Tickets.TicketsTellApart | crates/meshhash-cpu/src/fusion.rs:195-219 | from version 4 on waves of different hashes give different folds, unless the hash function confuses two 82-byte inputs holding them |
| Tickets.FirstHalf | crates/meshhash-cpu/src/fusion.rs:150-193 | the first 32 bytes bound last are the CPU's digest of samples, length and salt, from version 5 on sealed with the wave's hash |
| Tickets.SecondHalf | crates/meshhash-cpu/src/fusion.rs:195-219 | the next 32 are the hash of the wave |
| Tickets.Tail | crates/meshhash-cpu/src/fusion.rs:195-219 | then salt, length and version |
| Tickets.OldFold | crates/meshhash-cpu/src/lib.rs:392-406 | before version 4 the digest is the hash of samples, length and salt |
| Tickets.HashedByte | crates/meshhash-cpu/src/lib.rs:392-402 | which byte of the pad each byte hashed is |
| Fold.SampleStarts | crates/meshhash-cpu/src/lib.rs:253-263 | the sample count is right: a sample starts inside the pad if and only if its number is below the count |
| Fold.SampleCountSmall | apps/mesh-miner-gpu/src/engine.rs:424-426 | at most 1056 samples, so the kernel's 32-bit count never truncates |
| Fold.SamplesDetermineIff | crates/meshhash-cpu/src/lib.rs:392-402 | the hashed samples determine the pad if and only if it is shorter than 33 KiB |
| FoldInputs.InputsEqualIff | crates/meshhash-cpu/src/lib.rs:392-406 | two pads and salts feed the fold the same bytes if and only if they agree in samples, length and salt, or one is unsalted, the other salted with its length, and its samples end in the other's length |
| FoldInputs.LengthsSeparateIff | crates/meshhash-cpu/src/lib.rs:392-406 | pads of two lengths, under any salts, are never confused if and only if their samples do not differ by eight bytes |
| FoldInputs.PowersOfTwoSeparate | crates/meshhash-cpu/src/lib.rs:392-406 | pads of power-of-two lengths from 16 bytes on are never confused, whatever the salts |
| FoldInputs.SixtyFourAndSeventyTwo | crates/meshhash-cpu/src/lib.rs:392-406 | a 64-byte pad salted with 72 and a 72-byte unsalted pad that are confused |
| FoldInputs.SealedInputsEqualIff | crates/meshhash-cpu/src/fusion.rs:150-193 | the version 5 seal determines the ticket and otherwise binds exactly what the unsealed input does |
| FoldInputs.BoundInputsEqualIff | crates/meshhash-cpu/src/fusion.rs:195-219 | what binds the lanes determines both digests, salt, length and version |
| Device.ExtractBatch | apps/mesh-miner-gpu/cuda/meshhash_mix.cu:199-232 | the kernel leaves every pad's packed samples in that pad's slot and, when asked, its wave for its own program in its 32 bytes |
| Device.ExtractFromDevice | apps/mesh-miner-gpu/src/engine.rs:409-444 | the host gets back, for every pad, its samples and from version 4 on the wave of the program its own head makes |
| Device.FoldInOrder | apps/mesh-miner-gpu/src/engine.rs:467-487 | the CUDA fold loop returns the least nonce of the batch whose mixed pad folds to a winning digest |
| Device.MixFilledPadsOnCuda | apps/mesh-miner-gpu/src/engine.rs:366-488 | mixing in chunks, extracting, auditing, folding from the extracts and keeping the minimum answer for the winners of a node with the rounds cast to 32 bits: the least, or none |
| Device.SmallRoundsSamePuzzle | apps/mesh-miner-gpu/src/engine.rs:396-396 | below 2^32 rounds that node is the node |
| Device.MixFilledPadsOnOpenCl | apps/mesh-miner-gpu/src/opencl_mix.rs:483-559 | the OpenCL path for a host buffer of any length: a winner among the pads of the batch, or among further whole pads folded unmixed; none only if there is none or an abort |
| Batch.LuckCapMonotone | apps/mesh-miner-gpu/src/engine.rs:131-134 | the cap is within 8..32 and never falls as difficulty rises |
| Batch.LuckCapValues | apps/mesh-miner-gpu/src/engine.rs:131-134 | the cap is 8, 16 or 32 and which of them |
| Batch.BudgetRange | apps/mesh-miner-gpu/src/engine.rs:175-184 | the budget is two fifths of the card rounded down, within 64 MiB and 4 GiB; below 160 MiB and from 10 GiB on it is the limit; a card reporting nothing gets 128 MiB |
| Batch.WithinMeaning | apps/mesh-miner-gpu/src/engine.rs:211-217 | the quotient test, cast and cap admit two or more pads exactly when they fit the limit and 1024 |
| Batch.ClampBatch | apps/mesh-miner-gpu/src/engine.rs:193-227 | on a GPU the automatic batch is the largest that fits VRAM budget, 2 GiB, the round-trip limit and the luck cap, or 1; a requested size is cut to it; on a CPU sixteen nonces a thread, or the requested size, up to 1024 |

## Left out

- Search.SearchCpu: where the loop stalls, with an empty batch that it repeats until a flag is raised, the model ends it and says so.
- Search.MixWhileFilling: the fill takes its steps at the searching side's looks at the flags; between two looks the two sides share nothing.
- Search.MixFilledPads: a device that does not work may fail any batch; which of its calls failed is not modelled.
- Training.RunJobCuda: a device error is one parameter; which of the driver's calls failed is not modelled.
- Filling.FillPads: a thread fills one pad per step; the bytes of a half-filled pad are not observable to anyone in the source either.
- HostFold.FoldHostPads: testing a pad is one step and publishing a nonce is one; a nonce equal to u64::MAX cannot be told from nothing found, so batches end below it.
- MixMeaning.SecondPlaces: for pads of a power-of-two length; for other lengths the address is said bit by bit (Bits.AddressBits).
- Mix.LaunchRange: the threads of a launch run in pad order; they own disjoint pads and state slots, which is what Mix.LaunchOne's frame says.
- Runs.LiveIsGenesisFolded: for runs of at most 2^64 - 1 events, beyond which counters may saturate.
- Runs.EachEpochWonOnce: between restarts; a restart from a stale file legitimately reopens later epochs.
- Exactness.HiddenTwoErrorExact: the error of the first hidden layer and the gradients of the second and third matrix can saturate or wrap, so exactness is claimed for the layers listed and no others.
- LegTrain.RunLegTrain: one floating-point step and the final accuracy are uninterpreted functions of the parameters' bits, so nothing is said about rounding or learning.
- MixWrap.DeviceMixesAlikeIff: the condition is for pads of all lengths at once; the pads that show the device wrong are 2^40 bytes long, and nothing is said about one shorter length by itself.
- Batch.ClampBatch: the number of cores is a parameter.
- The v1 brain (crates/mesh-ai/src/brain.rs) runs the protocol modelled here with a floating-point trainer and a state file of the same shape; its local_step is a check and a commit with nothing in between.
- The quantum pack and the light job kinds: the same protocol again, or no shared state at all.
- The guardians' forward pass, gradients and sample generator: floating point.
- A crash of the file system itself: a save leaves the old bytes or a prefix of the new ones.
- Job queue, receipts, stipends, HTTP, wallets, GPU host APIs and user interfaces.
