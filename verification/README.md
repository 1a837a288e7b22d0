# BRKNAM verification

BRKNAM plays neural amplifier models in real time and keeps a library of model files. This
project models five of its cores and proves what each is for:

1. **Rate adapter.** Two rational-phase Lanczos resamplers around a model, primed once and
   then driven by blocks of any size. Phases are exact integers, samples are reals, the kernel
   and the model are arbitrary functions. Streaming equals one batch rendering for every cut,
   no block underruns, and the ring condition under which this holds is exact.
2. **Model slot.** An atomic pending slot, a crossfade, a bounded retirement queue and a
   one-node back-pressure slot, as a transition system whose steps are the single atomic
   accesses of the audio, publisher and collector threads. Ownership, order, wait-freedom and
   eventual adoption hold for every interleaving. The classes of `RealtimeModelSlot.dfy` and
   `OneSlotProcessor.dfy` are the same objects as their callers use them; a call that nobody
   interrupts is a run of the transition system, and its samples are the stated crossfade and
   DC filter.
3. **Load worker.** The generation protocol of the coalescing loader, by critical sections,
   and its composition with the model slot: the newest request wins, and the model of the path
   that was asked for last is heard.
4. **Library.** The asset table as maps and the disk as a map from path to size, time and
   bytes, which may change between the moments a call looks at it: incremental refresh, move
   recovery by hash, lazily cached SHA-256.
5. **SHA-256 and JSON.** The chunked hasher refines FIPS 180-4; the bounded reader accepts
   exactly the grammar of RFC 8259 within its limits, but like the code does not check that
   bytes above ASCII are UTF-8 (section 8.1); it reads decimals within a stated error, and
   reads back what the printer quotes. What the metadata reader accepts is exact for every
   input, and it is a fold in which the last member of each key wins and the order of keys
   does not matter.

Some statements one might expect are false of the code, and are given with their exact
conditions and a failing input. The output of the rate adapter equals the batch rendering if
and only if the largest block keeps the output stage within its ring; `prepare` accepts
settings for which it does not (`RateAdapterLimit.StreamingIffWindowFits`,
`RateAdapterLimit.AcceptedSettingDiffers`). What `ensure_sha256` stores is the hash of the
recorded bytes if and only if they were read undisturbed: a file that is rewritten and restored
with its old time meanwhile leaves the hash of other bytes (`LibraryHashCache.EnsureIsTrueIff`,
`LibraryHashCache.DetourStoresAFalseHash`). And a row that a refresh writes is true of its size
and time if and only if what was hashed and parsed was found under them; a file that is
rewritten between those looks leaves its old time with the metadata of the new bytes
(`LibraryHashCache.WrittenRowIsTrueIff`, `LibraryHashCache.RewriteStoresFalseMetadata`). The
metadata reader also accepts up to three stray letters of `null` in front of an optional value,
and nothing else beyond the grammar (`NamMetadataExact.DocumentsAreExact`).

Each file holds one module. `...Spec`, `...Scan`, `...Index` and `...Grammar` files define what
is computed, `...Theorems` and the files named after a property prove what follows from it, and
the files named after a source class hold its imperative form, each method tied to those
definitions. `dafny verify dfyconfig.toml` checks everything.

How the code's surroundings appear in the model: the interpolation kernel, the model's
per-sample transition, decibel conversion, the filter coefficient of a sample rate, the scaling
of a decimal to a `double`, the digest used by the library, and the metadata parser are
function-valued parameters; file system contents, scan reports, load and publication failures
and thread scheduling are inputs. A missing list of audio channels behaves like a list of
missing channels and is modelled as one. Nodes are named by the order of their allocation.

## Model

| member | source | states |
|---|---|---|
| ResamplerSpec.RequiredIsLeast | src/audio/LanczosResampler.hpp:45-57 | The answer is zero exactly when the lead left after the outputs covers thirteen input increments, and otherwise the least number of pushes that exceeds it |
| ResamplerSpec.RequiredEnablesPops | src/audio/LanczosResampler.hpp:45-84 | Pushing what `input_frames_required_for(n)` asks for makes n pops possible |
| ResamplerSpec.PopCountExact | src/audio/LanczosResampler.hpp:69-84 | Characterises how many frames `pop` delivers: each had more than the margin, and it stopped early only at the margin |
| ResamplerSpec.LeadAfterPush | src/audio/LanczosResampler.hpp:59-67 | A push of a block raises the phase lead by one input increment a sample |
| ResamplerSpec.LeadAfterPop | src/audio/LanczosResampler.hpp:80-81 | A pop of n frames lowers the lead by n output increments |
| ResamplerSpec.LatestIsLive | src/audio/LanczosResampler.hpp:59-67 | A ring cell whose stream index is among the last 131072 still holds that sample |
| ResamplerSpec.LatestIsRecent | src/audio/LanczosResampler.hpp:59-67 | Every ring cell holds one of the last 131072 samples of the stream |
| ResamplerSpec.LiveSample | src/audio/LanczosResampler.hpp:163-208 | A live window read through the mirrored ring is the window of 24 absolute stream samples |
| ResamplerSpec.SampleOfPrefix | src/audio/LanczosResampler.hpp:163-208 | An output depends on no sample at or after its position plus twelve |
| ResamplerSpec.LeadCoversWindow | src/audio/LanczosResampler.hpp:74-79 | Whenever `pop` may deliver, all taps have been written |
| ResamplerSpec.SampleIsInnerProduct | src/audio/LanczosResampler.hpp:185-206 | An output is the plain sum over 24 taps of coefficient times sample, both in the order of the stream from twelve samples before the position |
| ResamplerSpec.PositionAndFraction | src/audio/LanczosResampler.hpp:163-168 | Output k lies at k times the rate ratio: the position is its whole part, the fraction what is missing to the next whole |
| ResamplerSpec.LiveByLead | src/audio/LanczosResampler.hpp:163-208 | The oldest tap is still in the ring exactly when the lead is at most 131060 input increments |
| LanczosResampler.RatioIsReduced | src/audio/LanczosResampler.hpp:152-161 | The increments are the rates divided by their greatest common divisor, and have no common divisor left |
| LanczosResampler.WrapIndex | src/audio/LanczosResampler.hpp:170-175 | The masked index is congruent to the position and lies where all taps are in bounds |
| LanczosResampler.LatestAfterPush | src/audio/LanczosResampler.hpp:61-64 | One write changes exactly the cells of its index modulo the ring size |
| LanczosResampler.RequiredInUnits | src/audio/LanczosResampler.hpp:45-57 | The comparison and truncation done on fractions equal the integer phase formula |
| LanczosResampler.PositionOfDistance | src/audio/LanczosResampler.hpp:163-168 | Splitting write position minus distance into floor and fraction gives position and fraction of the output, for every history |
| LanczosResampler.MonoLanczosResampler.constructor | src/audio/LanczosResampler.hpp:33-40 | A new stage is empty, silent and has the reduced rate ratio |
| LanczosResampler.MonoLanczosResampler.InputFramesRequiredFor | src/audio/LanczosResampler.hpp:45-57 | Returns `FramesRequired` of the current lead |
| LanczosResampler.MonoLanczosResampler.Push | src/audio/LanczosResampler.hpp:59-67 | Appends the block to the history, in both ring halves |
| LanczosResampler.MonoLanczosResampler.Pop | src/audio/LanczosResampler.hpp:69-84 | Delivers exactly the next `PopCount` ring samples of the history and touches nothing else of the buffer |
| LanczosResampler.MonoLanczosResampler.ReadSample | src/audio/LanczosResampler.hpp:163-208 | The interpolated read is the ring sample of the next output, every index in bounds |
| LanczosResampler.MonoLanczosResampler.RenormalizePhases | src/audio/LanczosResampler.hpp:86-89 | Not observable: history, lead and ring stay |
| LanczosResampler.MonoLanczosResampler.Clear | src/audio/LanczosResampler.hpp:91-96 | Back to an empty history |
| RateAdapterSpec.DspAppend | src/audio/NamCoreModel.cpp:189-190 | Running the model over two blocks is running it over their concatenation |
| RateAdapterSpec.TransferExact | src/audio/NamCoreModel.cpp:181-192 | Where the transfer loop stops: less than one stride above the margin, its last pop allowed |
| RateAdapterSpec.TransferDrains | src/audio/NamCoreModel.cpp:181-192 | With enough scratch one iteration drains down to the margin |
| RateAdapterTheorems.LeadsConserved | src/audio/NamCoreModel.cpp:167-203 | The phase leads of both stages add up to latency times the input increment |
| RateAdapterTheorems.PlanBounds | src/audio/NamCoreModel.cpp:213-241 | How large warm-up and latency are, in phase units |
| RateAdapterTheorems.BlockIsDelivered | src/audio/NamCoreModel.cpp:177-203 | From a balanced state every accepted block is delivered in full and leaves a balanced state |
| RateAdapterTheorems.NeverUnderruns | src/audio/NamCoreModel.cpp:183-199 | Over every run of accepted blocks the state stays balanced and each block gets exactly its frames, so the zero fill never happens |
| RateAdapterTheorems.StageIsLive | src/audio/LanczosResampler.hpp:163-208 | When the leads are within the ring, all outputs of a call have live windows |
| RateAdapterTheorems.BlockRenders | src/audio/NamCoreModel.cpp:167-203 | One block extends the batch rendering by its frames |
| RateAdapterTheorems.RunRenders | src/audio/NamCoreModel.cpp:167-203 | After any run, state and output are those of the batch rendering |
| RateAdapterTheorems.StreamingIsBatch | src/audio/NamCoreModel.cpp:167-241 | The concatenated output of every cut equals resample, model, resample back on the whole delayed stream, when the window fits the ring |
| RateAdapterTheorems.CutDoesNotMatter | src/audio/NamCoreModel.cpp:167-203 | Two cuts of the same stream give the same output |
| RateAdapterTheorems.BatchIsInnerProducts | src/audio/NamCoreModel.cpp:167-203 | Every sample of the batch is such a sum over the warm-up silence and what the model makes of its input from there on |
| RateAdapterTheorems.ModelInputIsInnerProducts | src/audio/NamCoreModel.cpp:181-188 | Every sample of the model's input is such a sum over the delayed host stream |
| RateAdapterTheorems.BatchIsCausal | src/audio/NamCoreModel.cpp:167-203 | Later input does not change earlier output |
| RateAdapterTheorems.BatchIgnoresLimit | src/audio/NamCoreModel.cpp:110-165 | The batch reference does not depend on the block limit |
| RateAdapterLimit.StreamingIffWindowFits | src/audio/NamCoreModel.cpp:139-151 | The output equals the batch for all kernels, models and runs if and only if the largest block keeps the output lead within the ring; `prepare` does not check this |
| RateAdapterLimit.LargestBlockDiffers | src/audio/NamCoreModel.cpp:139-151 | When it does not fit, a concrete run whose output differs from the batch |
| RateAdapterLimit.LowestLeadReached | src/audio/NamCoreModel.cpp:181-199 | The lowest input lead is reached by some run, so the condition is the exact one |
| RateAdapterLimit.WidestRatioDoesNotFit | src/audio/NamCoreModel.cpp:33-35 | What `prepare` derives for an 8 kHz host, a 384 kHz model and 8192 frames, which it accepts, violates it |
| RateAdapterLimit.AcceptedSettingDiffers | src/audio/NamCoreModel.cpp:110-151 | So with that setting a run of accepted blocks is not delivered as the batch |
| RateAdapterLimit.ModestRatiosFit | src/audio/NamCoreModel.cpp:33-35 | Every plan with a model rate up to fifteen times the host rate satisfies it |
| RateAdapter.EstimateInRange | src/audio/NamCoreModel.cpp:139-147 | The estimated model block size is between one and 48 times the host limit, so Core limits never reject accepted rates |
| RateAdapter.ScratchIsLargeEnough | src/audio/NamCoreModel.cpp:149-153 | The scratch size covers every frame one block can move |
| RateAdapter.PrimingSucceeds | src/audio/NamCoreModel.cpp:213-241 | For accepted rates none of the conditions under which `prime_pipeline` throws can hold |
| RateAdapter.ModelRateAdapter.Prepare | src/audio/NamCoreModel.cpp:110-165 | Exactly which settings are rejected and why; otherwise the primed pipeline, or the direct path for equal rates |
| RateAdapter.ModelRateAdapter.PrimePipeline | src/audio/NamCoreModel.cpp:213-241 | Always succeeds and leaves the primed pipeline |
| RateAdapter.ModelRateAdapter.Process | src/audio/NamCoreModel.cpp:167-203 | One block of the pipeline specification, or the model itself when the rates agree |
| RateAdapter.ModelRateAdapter.TransferFrames | src/audio/NamCoreModel.cpp:181-192 | The loop moves exactly the transferable frames through the model |
| RateAdapter.ModelRateAdapter.ProcessDirect | src/audio/NamCoreModel.cpp:169-175 | Equal rates: the block is one run of the model |
| RateAdapter.NamCoreModel.Prepare | src/audio/NamCoreModel.cpp:296-303 | Prepared exactly when the adapter accepts the settings |
| RateAdapter.NamCoreModel.Process | src/audio/NamCoreModel.cpp:305-316 | A rejected block is silence and changes nothing; any other goes through the adapter |
| RetireQueue.StepIsWellFormed | src/audio/RealtimeModelSlot.cpp:51-71 | Every single load, cell access and store keeps indices, cells and local variables in step |
| RetireQueue.StepRefinesQueue | src/audio/RealtimeModelSlot.cpp:51-71 | The ring refines a queue of sixteen: only the write-index store appends and only the read-index store takes the oldest |
| RetireQueue.StepCountsNode | src/audio/RealtimeModelSlot.cpp:51-71 | How often a node is queued changes only at those two stores |
| RetireQueue.OutcomesAreRight | src/audio/RealtimeModelSlot.cpp:54-65 | A push gives up only on a full queue, a pop only on an empty one, and a pop returns the oldest |
| RetireQueue.CellsAreExclusive | src/audio/RealtimeModelSlot.cpp:57-68 | Producer and consumer never access the same cell |
| RetireQueue.NothingLostOrReordered | src/audio/RealtimeModelSlot.cpp:51-71 | Over every interleaving what was appended is what was taken followed by what is queued |
| ModelSlot.PreparedIsFine | src/audio/RealtimeModelSlot.cpp:115-130 | The prepared slot satisfies the invariant |
| ModelSlot.QueueActionApplies | src/audio/RealtimeModelSlot.cpp:243-287 | The slot drives its queue only by pushes and pops of the transition system |
| ModelSlot.AudioStillFits | src/audio/RealtimeModelSlot.cpp:153-202 | Every action keeps the pointers of the audio thread consistent with where it stands |
| ModelSlot.QueueShare | src/audio/RealtimeModelSlot.cpp:51-71 | A node enters the queue at the write-index store and leaves it at the read-index store |
| ModelSlot.AudioShare | src/audio/RealtimeModelSlot.cpp:243-287 | An audio step takes a node only by exchanging the pending slot and gives one away only by queueing it |
| ModelSlot.OthersShare | src/audio/RealtimeModelSlot.cpp:132-151 | Publisher and collector move nodes only between their hands, the pending slot, the queue and deletion |
| ModelSlot.PlacesKept | src/audio/RealtimeModelSlot.cpp:51-71 | No action loses, duplicates or invents a node |
| ModelSlot.InvStep | src/audio/RealtimeModelSlot.cpp:132-287 | The invariant, with each node in exactly one place, is kept by every action |
| ModelSlotTheorems.OwnershipIsConserved | src/audio/RealtimeModelSlot.cpp:132-151 | Over every interleaving, with stop-the-world calls of `prepare`, each published node is in exactly one of the seven places |
| ModelSlotTheorems.RestartDeletesAll | src/audio/RealtimeModelSlot.cpp:220-241 | `prepare` deletes every live node exactly once |
| ModelSlotTheorems.DeletedAtMostOnce | src/audio/RealtimeModelSlot.cpp:132-151 | No node is deleted twice and none that was never allocated |
| ModelSlotTheorems.RetireNeverOverwrites | src/audio/RealtimeModelSlot.cpp:280-287 | `retire` never overwrites an occupied waiting slot |
| ModelSlotTheorems.DereferencedIsLive | src/audio/RealtimeModelSlot.cpp:153-202 | Every node the audio thread reads is allocated, not deleted and in nobody else's hands |
| ModelSlotTheorems.AdoptedInOrder | src/audio/RealtimeModelSlot.cpp:249-269 | Over every run publications are adopted in the order they were made, none twice |
| ModelSlotTheorems.AnnouncedAlways | src/audio/RealtimeModelSlot.cpp:249-278 | Outside the stores themselves the reported latency and fade flag agree with the audio thread's fields; during a fade the larger latency of both models is reported |
| ModelSlotTheorems.AnnouncedLatency | src/audio/RealtimeModelSlot.cpp:261-277 | Outside the announcing stores the reported latency is that of the current node's model, and in a fade the larger of both |
| ModelSlotTheorems.PreparedSlotStaysSafe | src/audio/RealtimeModelSlot.cpp:115-287 | All of this holds of every run from a prepared slot |
| ModelSlotProgress.BlockIsWaitFree | src/audio/RealtimeModelSlot.cpp:153-202 | Each audio step brings the end of the block nearer, no other thread delays it, and the next step is always possible |
| ModelSlotProgress.AudioPays | src/audio/RealtimeModelSlot.cpp:153-202 | No audio step undoes progress, and each block pays for itself unless the flush finds a full queue |
| ModelSlotProgress.CrowdShrinks | src/audio/RealtimeModelSlot.cpp:51-60 | Without publications the crowd only shrinks, and a flush is stuck only in a crowd of sixteen |
| ModelSlotProgress.LastPublicationIsAdopted | src/audio/RealtimeModelSlot.cpp:243-278 | With an uncrowded queue and no newer publication, more blocks than the remaining work end with the last publication current and the fade over |
| ModelSlotProgress.AdoptedOnceDrained | src/audio/RealtimeModelSlot.cpp:243-278 | The same after one complete drain at any time, whatever was queued before |
| ModelSlotBlock.BlockIsARun | src/audio/RealtimeModelSlot.cpp:153-202 | An uninterrupted `process` call is a run of the transition system ending in the stated state |
| ModelSlotBlock.BlockKeepsInv | src/audio/RealtimeModelSlot.cpp:153-202 | So it keeps the invariant, both where the models run and at its end |
| ModelSlotBlock.PublishedIsARun | src/audio/RealtimeModelSlot.cpp:132-142 | An uninterrupted `publish` is a run and keeps the invariant |
| ModelSlotBlock.CollectedIsFine | src/audio/RealtimeModelSlot.cpp:144-151 | A pop with the deletion of what it returned keeps the invariant |
| ModelSlotBlock.SidesAreLive | src/audio/RealtimeModelSlot.cpp:170-180 | Where the models run, the two sides of a fade are different live nodes |
| ModelSlotBlock.RingAfterPush | src/audio/RealtimeModelSlot.cpp:51-60 | A whole push on a queue that is not full appends its node |
| ModelSlotBlock.RingAfterPop | src/audio/RealtimeModelSlot.cpp:62-71 | A whole pop on a queue that is not empty takes the oldest |
| Crossfade.MixShape | src/audio/RealtimeModelSlot.cpp:182-195 | The mix starts at zero, rises in equal steps and is one from the last frame of the fade on |
| Crossfade.BlendBetween | src/audio/RealtimeModelSlot.cpp:192-194 | The blend lies between the two sides |
| Crossfade.BlendIsWeighted | src/audio/RealtimeModelSlot.cpp:182-195 | A faded sample weights both sides linearly in the frames since the fade began, and is the new side alone from the last frame on |
| Crossfade.FadeStaysBetween | src/audio/RealtimeModelSlot.cpp:185-195 | The faded output lies between both sides, is the old side at frame zero and the new side from the last frame on |
| Crossfade.FadeIgnoresCut | src/audio/RealtimeModelSlot.cpp:180-201 | For every cut into blocks the output is the closed form in the absolute frame index, and the fade is over exactly when its length has passed |
| Crossfade.VoiceAppend | src/audio/RealtimeModelSlot.cpp:289-297 | Running one side over two blocks is running it over their concatenation |
| RealtimeModelSlot.RetiredQueue.Push | src/audio/RealtimeModelSlot.cpp:51-60 | Appends the node unless sixteen are queued, and says which |
| RealtimeModelSlot.RetiredQueue.Pop | src/audio/RealtimeModelSlot.cpp:62-71 | Takes the oldest node, or reports that there is none |
| RealtimeModelSlot.RetiredQueue.ResetIndices | src/audio/RealtimeModelSlot.cpp:73-77 | Back to the empty ring |
| RealtimeModelSlot.RealtimeModelSlot.constructor | src/audio/RealtimeModelSlot.cpp:107-109 | A new slot is empty and not prepared |
| RealtimeModelSlot.RealtimeModelSlot.NormalizedModelsAreEquallyLoud | src/audio/RealtimeModelSlot.cpp:299-308 | In normalized mode all models of known loudness are brought to the same level, given that the gain of a sum of decibels is the product of the gains; otherwise the gain is one |
| RealtimeModelSlot.RealtimeModelSlot.SideSample | src/audio/RealtimeModelSlot.cpp:171-175 | A sample of a side is the model's output times the gain of its loudness, or the input where there is no model |
| RealtimeModelSlot.RealtimeModelSlot.QuietSample | src/audio/RealtimeModelSlot.cpp:170-178 | Outside a fade `process` delivers that for the current node |
| RealtimeModelSlot.RealtimeModelSlot.FadingSample | src/audio/RealtimeModelSlot.cpp:180-195 | Inside a fade it delivers the blend of such samples of both nodes |
| RealtimeModelSlot.RealtimeModelSlot.NormalizedModelsSoundTheSame | src/audio/RealtimeModelSlot.cpp:171-175 | Two models that differ by a gain, and whose loudness says so, give the same samples in normalized mode |
| RealtimeModelSlot.RealtimeModelSlot.NodeLatency | src/audio/RealtimeModelSlot.cpp:310-314 | The latency that the transition system announces for the node, never negative |
| RealtimeModelSlot.RealtimeModelSlot.Prepare | src/audio/RealtimeModelSlot.cpp:115-130 | Rejects zero sizes; otherwise everything owned is deleted and a dry slot of the new sizes remains |
| RealtimeModelSlot.RealtimeModelSlot.Publish | src/audio/RealtimeModelSlot.cpp:132-142 | Refused before `prepare`; otherwise a node with the model and its latency is pending and what it replaced is deleted |
| RealtimeModelSlot.RealtimeModelSlot.CollectRetired | src/audio/RealtimeModelSlot.cpp:144-151 | Deletes the queued nodes in order, leaves the queue empty and returns their number |
| RealtimeModelSlot.RealtimeModelSlot.Process | src/audio/RealtimeModelSlot.cpp:153-202 | A refused block is silence and changes nothing; any other moves the slot as the transition system says and renders the fade of the adopted or current nodes |
| RealtimeModelSlot.RealtimeModelSlot.FlushWaitingRetirement | src/audio/RealtimeModelSlot.cpp:243-247 | Queues the waiting node if there is room |
| RealtimeModelSlot.RealtimeModelSlot.AcceptPendingIfPossible | src/audio/RealtimeModelSlot.cpp:249-269 | Adopts the pending node unless a fade or a waiting node is in the way |
| RealtimeModelSlot.RealtimeModelSlot.FinishCrossfade | src/audio/RealtimeModelSlot.cpp:271-278 | Queues or parks the old node and settles the fields |
| RealtimeModelSlot.RealtimeModelSlot.Retire | src/audio/RealtimeModelSlot.cpp:280-287 | Queues the node, or parks it exactly when the queue is full |
| RealtimeModelSlot.RealtimeModelSlot.ProcessNode | src/audio/RealtimeModelSlot.cpp:289-297 | Runs the node's model over the block, or copies when there is none; no other model changes |
| RealtimeModelSlot.RealtimeModelSlot.RenderBlock | src/audio/RealtimeModelSlot.cpp:170-195 | Both sides, scaled and mixed by the absolute frame of the fade |
| RealtimeModelSlot.RealtimeModelSlot.ClearNonRealtime | src/audio/RealtimeModelSlot.cpp:220-241 | Every owned node is deleted and the slot is no longer prepared |
| RealtimeModelSlot.RealtimeModelSlot.AdoptionStartsFade | src/audio/RealtimeModelSlot.cpp:249-269 | A pending node that can be adopted starts a fade at position zero from what is current |
| RealtimeModelSlot.RealtimeModelSlot.FadeGoesOn | src/audio/RealtimeModelSlot.cpp:249-252 | With nothing to adopt the next block continues the present fade |
| DcBlocker.FilterIgnoresCut | src/audio/OneSlotProcessor.cpp:232-246 | The filter's output and memory do not depend on the block cut |
| DcBlocker.AtMostTwiceThePeak | src/audio/OneSlotProcessor.cpp:232-246 | From rest, for every coefficient strictly between zero and one, the output is at most twice the input's peak |
| DcBlocker.ConstantDecays | src/audio/OneSlotProcessor.cpp:232-246 | A constant input decays geometrically, from its first sample on |
| OneSlotProcessor.CrossfadeFrames | src/audio/OneSlotProcessor.cpp:85-87 | Within half a frame of twenty milliseconds, and one frame where that is less than one and a half |
| OneSlotProcessor.FoldedSample | src/audio/OneSlotProcessor.cpp:211-220 | One channel is scaled by the input gain, two are averaged and scaled |
| OneSlotProcessor.EqualChannelsFold | src/audio/OneSlotProcessor.cpp:211-220 | Any number of equal channels fold to that channel, scaled |
| OneSlotProcessor.ClearOutputs | src/audio/OneSlotProcessor.cpp:23-33 | Every given output holds silence for the block |
| OneSlotProcessor.OneSlotProcessor.Prepare | src/audio/OneSlotProcessor.cpp:67-91 | Rejects bad rates and sizes unchanged; otherwise the slot restarts with the crossfade length and the filter is at rest |
| OneSlotProcessor.OneSlotProcessor.Reset | src/audio/OneSlotProcessor.cpp:258-266 | The filter is at rest and the buffers are silent |
| OneSlotProcessor.OneSlotProcessor.Refusal | src/audio/OneSlotProcessor.cpp:178-206 | The status is that of the first rule the call breaks |
| OneSlotProcessor.OneSlotProcessor.Fold | src/audio/OneSlotProcessor.cpp:211-220 | The mono input is the trimmed mean of the channels |
| OneSlotProcessor.OneSlotProcessor.RunModel | src/audio/OneSlotProcessor.cpp:222-230 | Bypass copies the input and leaves the slot untouched; otherwise the slot processes the block |
| OneSlotProcessor.OneSlotProcessor.BlockDc | src/audio/OneSlotProcessor.cpp:232-246 | The in-place loop is one run of the filter from the carried memory |
| OneSlotProcessor.OneSlotProcessor.Broadcast | src/audio/OneSlotProcessor.cpp:248-254 | Every output receives the scaled mono stream, also when outputs share a buffer |
| OneSlotProcessor.OneSlotProcessor.BlockOfHistory | src/audio/OneSlotProcessor.cpp:211-254 | An accepted call is one block of a processor history |
| OneSlotProcessor.OneSlotProcessor.Process | src/audio/OneSlotProcessor.cpp:174-256 | A refused call silences the outputs and changes nothing else; an accepted one emits fold, fade, filter and trim of the block |
| ProcessorHistory.FadingHistory | src/audio/OneSlotProcessor.cpp:211-254 | Over any run of calls from the start of a fade, slot and filter and trim emit the one-piece fade, filtered and trimmed in one piece |
| ProcessorHistory.SteadyHistory | src/audio/OneSlotProcessor.cpp:211-254 | Over any run of calls without a fade, they emit the current model's stream, filtered and trimmed in one piece |
| ProcessorHistory.BypassedHistory | src/audio/OneSlotProcessor.cpp:222-254 | Over any run of bypassed calls the input is filtered and trimmed and the slot is frozen |
| ProcessorHistory.CutDoesNotMatter | src/audio/OneSlotProcessor.cpp:174-256 | Two cuts of one stream into calls give the same output and the same state |
| LoadWorker.InvStep | src/audio/ModelLoadWorker.cpp:60-178 | Every critical section keeps the status exact, and neither generation goes back |
| LoadWorker.StatusStaysExact | src/audio/ModelLoadWorker.cpp:60-178 | Over every run: queued iff latest > consumed, loading iff latest = consumed with its task in flight, published or error iff completed = latest > 0, idle iff latest = 0, stopped iff the worker is done |
| LoadWorker.NoLostWakeup | src/audio/ModelLoadWorker.cpp:60-178 | Every step that satisfies a waiter notifies the waiters, and every step the worker should wake for notifies it |
| LoadWorker.TasksAheadDropByFinishing | src/audio/ModelLoadWorker.cpp:92-170 | Without requests the tasks ahead drop by one exactly at the steps that finish a task |
| LoadWorker.NothingAheadIsSettled | src/audio/ModelLoadWorker.cpp:82-90 | The newest request is settled exactly when no task is ahead |
| LoadWorker.SettlesAfterTwoLoads | src/audio/ModelLoadWorker.cpp:82-178 | Without new requests every waiter is settled once the tasks ahead, at most two, are finished |
| LoadWorker.SettlesWithinItsWork | src/audio/ModelLoadWorker.cpp:82-178 | Without new requests a waiter that is still not settled has seen fewer worker steps than the work that was ahead, never more than seventeen |
| LoadWorker.RequestsAreRemembered | src/audio/ModelLoadWorker.cpp:60-133 | Over every run the generations number the accepted requests, which are read off the steps: a task in flight, loaded or publishing has the path and kind of the request of its number, and the status names the newest path |
| LoadWorker.WorkerAdvances | src/audio/ModelLoadWorker.cpp:92-178 | The worker is never stuck: each of its steps is possible and leads nearer to finishing a task, and requests do not set it back |
| ModelLoadWorker.ModelLoadWorker.Submit | src/audio/ModelLoadWorker.cpp:60-75 | Refused after stopping; otherwise the next generation with the given path and kind, queued and not settled |
| ModelLoadWorker.ModelLoadWorker.RequestModel | src/audio/ModelLoadWorker.cpp:205-211 | An empty path is rejected before anything changes; any other is the latest request and the status |
| ModelLoadWorker.ModelLoadWorker.RequestDetach | src/audio/ModelLoadWorker.cpp:213-215 | A request without a path |
| ModelLoadWorker.ModelLoadWorker.BeginStop | src/audio/ModelLoadWorker.cpp:49-53 | The destructor's locked half |
| ModelLoadWorker.ModelLoadWorker.TakeTask | src/audio/ModelLoadWorker.cpp:97-117 | Leaves, polls, or takes the newest request, in that order of precedence |
| ModelLoadWorker.ModelLoadWorker.LoadTask | src/audio/ModelLoadWorker.cpp:119-133 | A detach request cannot fail |
| ModelLoadWorker.ModelLoadWorker.CommitTask | src/audio/ModelLoadWorker.cpp:135-167 | A stale result is dropped, a failure reported, a success published |
| ModelLoadWorker.ModelLoadWorker.RunOnce | src/audio/ModelLoadWorker.cpp:95-170 | Left alone, the worker completes the newest generation and reports exactly how that went |
| ModelLoadWorker.ModelLoadWorker.ReportStopped | src/audio/ModelLoadWorker.cpp:172-177 | Settles every waiter |
| EndToEnd.JointStep | src/audio/ModelLoadWorker.cpp:135-167 | Worker, publisher, audio and collector keep the joint invariant under every interleaving |
| EndToEnd.StartIsJoint | src/audio/ModelLoadWorker.cpp:28-47 | It holds of a prepared slot and a new worker |
| EndToEnd.LastRequestWins | src/audio/ModelLoadWorker.cpp:135-156 | Over any history the generations that become current strictly increase and never exceed the latest request |
| EndToEnd.PublishedIsNewest | src/audio/ModelLoadWorker.cpp:135-156 | What is exchanged into the pending slot is the newest request at that moment, and its load succeeded |
| EndToEnd.FailedLoadChangesNothing | src/audio/ModelLoadWorker.cpp:144-150 | No node of a generation whose load failed is ever published, and so none is pending, current, fading or adopted |
| EndToEnd.SettledHistoryIsQuiet | src/audio/ModelLoadWorker.cpp:92-178 | With the newest request settled and no other made, nothing more is published |
| EndToEnd.NewestRequestIsHeard | src/audio/ModelLoadWorker.cpp:135-170 | Once the newest request is published, one drain and enough blocks make its model current with the fade over, under every interleaving |
| RequestsHeard.NodesAreOfTheirRequests | src/audio/ModelLoadWorker.cpp:119-156 | Over every history from the start each node's model was loaded from the path of the request its tag numbers, and it is dry exactly if that was a detach |
| RequestsHeard.NewestPathIsHeard | src/audio/ModelLoadWorker.cpp:119-170 | Once the newest request is published, one drain and enough blocks make current the model of the path asked for last, or nothing if that was a detach |
| LibraryTheorems.OneRowIsWritten | src/library/LibraryDatabaseRefresh.cpp:192-321 | Each scanned file writes one row that shows it; an old row keeps id and user data, a new one takes a new id, and the unique index survives |
| LibraryTheorems.ScanPreserves | src/library/LibraryDatabaseRefresh.cpp:192-321 | The loop keeps every id, all user data and all other roots, and rewrites a row completely or not at all |
| LibraryTheorems.EveryFileIsCounted | src/library/LibraryDatabaseRefresh.cpp:192-321 | Inserted, updated, moved and unchanged add up to the files |
| LibraryTheorems.WrittenIsNoCandidate | src/library/LibraryDatabaseRefresh.cpp:239-253 | A row written earlier in this scan is not a move candidate while its file is found to be there |
| LibraryTheorems.ScanAgrees | src/library/LibraryDatabaseRefresh.cpp:192-321 | After the loop each file has its row and each row seen has its file |
| LibraryTheorems.MarkingKeeps | src/library/LibraryDatabaseRefresh.cpp:323-334 | Marking makes missing exactly the rows of the root that were not seen |
| LibraryTheorems.RefreshSucceedsIff | src/library/LibraryDatabaseRefresh.cpp:94-135 | A refresh goes through exactly for a known, enabled and available root whose files have readable times |
| LibraryTheorems.RefreshLosesNothing | src/library/LibraryDatabaseRefresh.cpp:94-347 | For every outcome: constraints, ids, user data and other roots stay, a failed refresh changes nothing, and the counters are exact |
| LibraryTheorems.IndexAgreesWithDisk | src/library/LibraryDatabaseRefresh.cpp:94-347 | After a refresh the rows of the root that are not missing are exactly the scanned files, with the scanned kind and size and the time that was read, if no scanned file disappears during the call |
| LibraryTheorems.SecondRefreshIsQuiet | src/library/LibraryDatabaseRefresh.cpp:192-334 | Refreshing again while the files have the recorded times reports everything unchanged and nothing missing, and changes only the generation |
| LibraryCounters.DecisionIsFate | src/library/LibraryDatabaseRefresh.cpp:192-321 | Insert, recover, touch and update are what became of the row, read off the tables: new, renamed, the same, or changed |
| LibraryCounters.CountersAreRight | src/library/LibraryDatabaseRefresh.cpp:219-334 | From the tables before and after: inserted is the number of new ids, moved of ids whose relative path changed, unchanged and updated of the other rows of this scan by whether row and file agreed, parse errors of the rows that were read and hold one |
| LibraryCounters.HashIssuesAreRight | src/library/LibraryDatabaseRefresh.cpp:228-279 | Hash issues are the files without a row of their own, with a row they may have been moved from, that could not be read |
| LibraryHashCache.RecoveredIsTheUniqueMatch | src/library/LibraryDatabaseRefresh.cpp:228-272 | A row is recovered if and only if it is the only candidate with the new file's hash; its former bytes then hash the same |
| LibraryHashCache.TrueInEveryPastIff | src/library/LibraryDatabase.cpp:196-214 | A stored value is that of the bytes with the recorded size and time, whatever happened unseen, exactly when one of the looks at the file shows such bytes |
| LibraryHashCache.WrittenRowIsTrueIff | src/library/LibraryDatabaseRefresh.cpp:192-321 | For any disk seen at the reading of the time, the hashing and the parsing: a row that is written has true hash and metadata, whatever happened unseen, exactly when the bytes hashed and parsed were vouched for under the scanned size and that time |
| LibraryHashCache.RefreshKeepsTrue | src/library/LibraryDatabaseRefresh.cpp:192-321 | A refresh of a disk that may change between its looks keeps every stored hash and metadata true, if each row is vouched for when it is written |
| LibraryHashCache.SteadyIsBacked | src/library/LibraryDatabaseRefresh.cpp:192-321 | A condition on the disk alone that vouches for a row whatever the index holds |
| LibraryHashCache.StillDiskIsBacked | src/library/LibraryDatabaseRefresh.cpp:192-321 | A disk that does not change during the call vouches for all rows |
| LibraryHashCache.RewriteStoresFalseMetadata | src/library/LibraryDatabaseRefresh.cpp:196-283 | There is no second look: a rewrite between reading the time and the metadata stores the old time with the new metadata |
| LibraryHashCache.EnsureSucceedsIff | src/library/LibraryDatabase.cpp:168-219 | Success exactly for a present file with the recorded stamp whose hash is stored or can be computed without a change; a stored hash is returned as it is |
| LibraryHashCache.EnsureIsTrueIff | src/library/LibraryDatabase.cpp:196-214 | For every table and every disk before, during and after hashing: the stored hash is that of the recorded bytes, for every digest and whatever happened unseen, exactly when the file had its stamp while it was read or the bytes are those seen before or after |
| LibraryHashCache.EnsureKeepsTrue | src/library/LibraryDatabase.cpp:168-219 | So under that condition `ensure_sha256` returns the hash of the recorded bytes and stores nothing else |
| LibraryHashCache.DetourStoresAFalseHash | src/library/LibraryDatabase.cpp:196-214 | The smallest failing case: a rewrite and restore during hashing leaves the hash of other bytes, for every digest that tells them apart |
| LibraryHashCache.HashesStayTrue | src/library/LibraryDatabase.cpp:168-219 | Over every run of refreshes, hashing, edits and new roots on a changing disk, where each row written was vouched for, all stored hashes and metadata are true and no row is lost |
| LibraryDatabase.UniqueMatch | src/library/LibraryDatabaseRefresh.cpp:258-272 | The loop finds the only candidate with the hash, and none when there are none or several |
| LibraryDatabase.MatchIsMove | src/library/LibraryDatabaseRefresh.cpp:255-272 | What it finds is the row the file was moved from |
| LibraryDatabase.LibraryDatabase.Existing | src/library/LibraryDatabaseRefresh.cpp:198-215 | The row of a relative path |
| LibraryDatabase.LibraryDatabase.MoveCandidates | src/library/LibraryDatabaseRefresh.cpp:230-253 | Exactly the rows the file may have been moved from, each once |
| LibraryDatabase.LibraryDatabase.FindMove | src/library/LibraryDatabaseRefresh.cpp:228-279 | Hash, recovered row and hashing failure as specified |
| LibraryDatabase.LibraryDatabase.IndexAsset | src/library/LibraryDatabaseRefresh.cpp:192-321 | The loop body is `IndexOne` |
| LibraryDatabase.LibraryDatabase.MarkMissing | src/library/LibraryDatabaseRefresh.cpp:323-334 | Marks and counts the rows that were not seen |
| LibraryDatabase.LibraryDatabase.IndexAssets | src/library/LibraryDatabaseRefresh.cpp:192-321 | The loop is `IndexAll`, and stops at the first unreadable time |
| LibraryDatabase.LibraryDatabase.RefreshRoot | src/library/LibraryDatabaseRefresh.cpp:94-347 | Tables and outcome are those of `Refresh`; a failure restores the tables |
| LibraryDatabase.LibraryDatabase.EnsureSha256 | src/library/LibraryDatabase.cpp:168-219 | Tables and outcome are those of `Ensured` |
| Bytes.BigEndianValue | src/library/Sha256.cpp:81-84 | The eight length bytes determine the length |
| Sha256Spec.FillIsLeast | src/library/Sha256.cpp:72-80 | The padding has the least number of zeros that leaves room for the length (section 5.1.1 of FIPS 180-4) |
| Sha256Spec.LengthFieldIsExact | src/library/Sha256.cpp:69-84 | For messages under 2^61 bytes the length field is the length in bits |
| Sha256Spec.HashMore | src/library/Sha256.cpp:57-60 | One more block is one more compression (section 6.2.2) |
| Sha256Constants.RoundConstantsAreCubeRoots | src/library/Sha256.cpp:20-36 | Each round constant is the first 32 fractional bits of the cube root of its prime (section 4.2.2 of FIPS 180-4) |
| Sha256Constants.InitialAreSquareRoots | src/library/Sha256.cpp:154-157 | Each initial word is the first 32 fractional bits of the square root of its prime (section 5.3.3) |
| Sha256Constants.FirstRoundOfTheExample | src/library/Sha256.cpp:116-140 | The first two rounds of the published example, the digest of "abc", from the initial value |
| Sha256Constants.SmallSigmasOfTheExample | src/library/Sha256.cpp:107-112 | What the schedule of the example makes of its first word and of its length |
| Sha256Constants.FirstWordOfTheExample | src/library/Sha256.cpp:97-105 | The first word of the example, high byte first |
| Sha256Constants.ScheduleRecurrence | src/library/Sha256.cpp:96-113 | The whole schedule obeys the recurrence of section 6.2.2 |
| Sha256Spec.HexIsInjective | src/library/Sha256.cpp:87-92 | The printed digest determines the digest |
| Sha256.Sha256.constructor | src/library/Sha256.cpp:154-159 | The initial hash value of the empty message |
| Sha256.Sha256.Expand | src/library/Sha256.cpp:97-114 | The message schedule |
| Sha256.Sha256.Transform | src/library/Sha256.cpp:96-152 | The state becomes the compression of the old state and the block |
| Sha256.Sha256.Update | src/library/Sha256.cpp:40-66 | The message grows by the data, for any buffered rest and any size: state is the hash of the complete blocks and the buffer holds the rest |
| Sha256.Sha256.PadAndHash | src/library/Sha256.cpp:68-85 | Padding in one or two blocks gives the digest of the message |
| Sha256.Sha256.Finish | src/library/Sha256.cpp:68-93 | The 64 hexadecimal digits of the FIPS 180-4 digest of everything passed to `update` |
| Sha256.Sha256File | src/library/Sha256.cpp:164-184 | The chunk loop hashes the whole file, or reports that it cannot be opened or read |
| Sha256.AppendWithin | src/library/Sha256.cpp:47-50 | Bytes that do not fill the block only extend the rest |
| Sha256.AppendFull | src/library/Sha256.cpp:51-54 | Bytes that fill the block complete it |
| JsonStrings.HexIsRead | src/nam/NamMetadataReader.cpp:480-501 | Four digits in either case are read as their code unit |
| JsonStrings.ItemIsRead | src/nam/NamMetadataReader.cpp:404-471 | Every element of a string is read as what it stands for |
| JsonStrings.ItemWasThere | src/nam/NamMetadataReader.cpp:404-471 | Whatever is read as an element was one, surrogates paired |
| JsonStrings.StringIsRead | src/nam/NamMetadataReader.cpp:396-478 | Every string is read to its quote if what it stands for is short enough, and refused as too long if not |
| JsonStrings.StringsAreExact | src/nam/NamMetadataReader.cpp:396-478 | Exactly the strings of RFC 8259 section 7 within the limit are read, to their meaning and no further |
| JsonQuote.Quote | tools/JsonOutput.hpp:25-64 | The loop writes the quoted string |
| JsonQuote.WriteCharacter | tools/JsonOutput.hpp:28-61 | Each byte is written as one element that stands for it |
| JsonQuote.ItemIsShortest | tools/JsonOutput.hpp:25-64 | No other way to write a byte in a string is shorter |
| JsonQuote.QuoteReadsBack | tools/JsonOutput.hpp:25-64 | Every byte string within the limit, quoted and followed by anything, is read back, stopping at the rest |
| JsonQuote.QuoteIsUnambiguous | tools/JsonOutput.hpp:25-64 | Quoted strings are equal only for equal strings, and none begins another |
| JsonQuote.EscapeMeansUtf8 | src/nam/NamMetadataReader.cpp:443-465 | The escape of a scalar value, a pair above U+FFFF, stands for its UTF-8 |
| JsonQuote.EscapedTextReadsAsUtf8 | src/nam/NamMetadataReader.cpp:396-519 | Every text of scalar values written in escapes is read as its UTF-8 encoding (RFC 3629 section 3) |
| JsonQuote.Utf8ReadsBack | src/nam/NamMetadataReader.cpp:503-519 | What `append_utf8` writes determines the code point and where it ends |
| JsonNumbers.NumberIsRead | src/nam/NamMetadataReader.cpp:521-577 | Every number that nothing continues is read whole, if it is representable, and refused otherwise |
| JsonNumbers.NumberWasThere | src/nam/NamMetadataReader.cpp:521-577 | Whatever is read was a number, as long as possible |
| JsonExactness.ValueIsRead | src/nam/NamMetadataReader.cpp:590-649 | Every value within the limits is read |
| JsonExactness.ValueWasThere | src/nam/NamMetadataReader.cpp:590-649 | Whatever is read was one |
| JsonExactness.MembersAreRead | src/nam/NamMetadataReader.cpp:606-618 | The members of an object within the limits are read to the closing brace |
| JsonExactness.ElementsAreRead | src/nam/NamMetadataReader.cpp:626-636 | The elements of an array within the limits are read to the closing bracket |
| JsonExactness.ValuesAreExact | src/nam/NamMetadataReader.cpp:590-649 | `skip_value` succeeds, reading exactly one value, if and only if the input starts with a value of RFC 8259 within the depth, string and number limits |
| JsonFaults.FaultlessIsAllowed | src/nam/NamMetadataReader.cpp:590-649 | A value of the grammar has no fault exactly if it is within the limits |
| JsonFaults.ValueOutcome | src/nam/NamMetadataReader.cpp:590-649 | For every value of the grammar `skip_value` succeeds, or fails with the code of the first limit exceeded in the order of the text |
| DecimalToken.FindExponent | src/nam/NamMetadataReader.cpp:32-34 | The first exponent letter, or the end |
| DecimalToken.ParseExponent | src/nam/NamMetadataReader.cpp:46-71 | The exponent, rejected when a character is no digit or it exceeds its limit |
| DecimalToken.ReadDigits | src/nam/NamMetadataReader.cpp:79-101 | Counts the significant digits and accumulates the first nineteen |
| DecimalToken.ParseDecimalToken | src/nam/NamMetadataReader.cpp:16-114 | The loops compute `DecimalOf`, for any bytes |
| DecimalBound.NumberIsScanned | src/nam/NamMetadataReader.cpp:22-71 | On a number of the grammar the scan sees the parts it was written with |
| DecimalBound.StoredIsCutOff | src/nam/NamMetadataReader.cpp:97-111 | Storing nineteen digits cuts off the others, within the stated error and 64 bits |
| DecimalBound.DecimalIsClose | src/nam/NamMetadataReader.cpp:73-118 | Mantissa and exponent are exact up to nineteen significant digits, otherwise below the written value by a relative error under 10^-18; the mantissa fits 64 bits |
| DecimalBound.ZeroAndRejectedAreRight | src/nam/NamMetadataReader.cpp:42-114 | Zero exactly for zero; rejected exactly when digits, exponent or scale are out of range |
| NamMetadataFold.MetaMembersAreRead | src/nam/NamMetadataReader.cpp:279-345 | On typed members the metadata object is read as the fold of its facts |
| NamMetadataFold.RootMembersAreRead | src/nam/NamMetadataReader.cpp:223-277 | On typed members the root object is read as the fold of its facts |
| NamMetadataFold.DocumentIsAFold | src/nam/NamMetadataReader.cpp:136-162 | Reading a well-formed typed document is folding its members in order, last one wins; only a missing required field is an error |
| NamMetadataFold.OnlyFactsMatter | src/nam/NamMetadataReader.cpp:136-162 | White space, escapes and skipped values make no difference |
| NamMetadataExact.MetaEntriesAreRead | src/nam/NamMetadataReader.cpp:279-345 | Every member list of this grammar, with up to three stray letters of `null` before an optional value, is read as the fold of its facts |
| NamMetadataExact.MetaEntriesWereThere | src/nam/NamMetadataReader.cpp:279-345 | Whatever the metadata object's members are read from was such a list |
| NamMetadataExact.RootEntriesAreRead | src/nam/NamMetadataReader.cpp:223-277 | The same for the root object |
| NamMetadataExact.RootEntriesWereThere | src/nam/NamMetadataReader.cpp:223-277 | And its converse |
| NamMetadataExact.DocumentsAreExact | src/nam/NamMetadataReader.cpp:136-162 | For every input: metadata is returned exactly for the documents of this grammar within the limits that give a version and an architecture, and is the fold of their facts |
| NamMetadataExact.MissingFieldIsReported | src/nam/NamMetadataReader.cpp:151-156 | Such a document without one of the two is reported as that |
| NamMetadataExact.SuccessMeans | src/nam/NamMetadataReader.cpp:136-162 | Success leaves nothing unread, the text is one part from a brace to a brace in white space, and version, architecture and a positive rate are there |
| NamMetadataOrder.SameFold | src/nam/NamMetadataReader.cpp:223-345 | A fold whose steps commute for different keys depends only on the sequence of facts of each key |
| NamMetadataOrder.MetaOrderDoesNotMatter | src/nam/NamMetadataReader.cpp:279-345 | Metadata objects whose facts agree key by key, in whatever order the keys are mixed, are read the same |
| NamMetadataOrder.RootOrderDoesNotMatter | src/nam/NamMetadataReader.cpp:223-277 | The same for the root object, with any reordering inside its metadata objects as well |
| NamMetadataOrder.OrderDoesNotMatter | src/nam/NamMetadataReader.cpp:136-162 | Typed documents that say the same for every key, in any order and spelling, read the same |
| NamMetadataOrder.SkippedValuesDoNotMatter | src/nam/NamMetadataReader.cpp:265-267 | Skipped values at any positions of a document, root or metadata, may be replaced by any others within the limits |
| NamMetadataOrder.LastRootWins | src/nam/NamMetadataReader.cpp:242-264 | Each required field and the sample rate are those of the last root member with their key |
| NamMetadataOrder.LastMetaWins | src/nam/NamMetadataReader.cpp:301-335 | Each optional field is that of the last metadata member with its key, absent if that is null |
| NamMetadataOrder.FieldsAreSpelled | src/nam/NamMetadataReader.cpp:301-335 | Each field is reached by one spelling, and by no other key |
| NamMetadataOrder.LastOneWins | src/nam/NamMetadataReader.cpp:136-162 | So for a typed document, across all its metadata objects, with the defaults where there is no member |
| JsonProbe.JsonProbe.Get | src/nam/NamMetadataReader.cpp:167-173 | Reads one byte and moves the offset, except at the end |
| JsonProbe.JsonProbe.SetError | src/nam/NamMetadataReader.cpp:212-216 | The first error stays, with the offset it was found at |
| JsonProbe.JsonProbe.ParseUnicodeEscape | src/nam/NamMetadataReader.cpp:480-501 | Four digits, or the error at the first that is none |
| JsonProbe.JsonProbe.ParseCodepoint | src/nam/NamMetadataReader.cpp:443-465 | A code point or a surrogate pair, as UTF-8 |
| JsonProbe.JsonProbe.ParseString | src/nam/NamMetadataReader.cpp:396-478 | Reads what `ScanString` reads, with its error and offset |
| JsonProbe.JsonProbe.ParseNumber | src/nam/NamMetadataReader.cpp:521-577 | Reads what `ScanNumber` reads and converts it |
| JsonProbe.JsonProbe.TryConsumeLiteral | src/nam/NamMetadataReader.cpp:579-588 | Reads as much as matches and does not give it back |
| JsonProbe.JsonProbe.ConsumeExactLiteral | src/nam/NamMetadataReader.cpp:651-660 | Reads the literal, or fails behind the first difference |
| JsonProbe.JsonProbe.SkipValue | src/nam/NamMetadataReader.cpp:590-649 | Reads what `ScanValue` reads, with its error and offset, and terminates |
| JsonProbe.JsonProbe.ParseOptionalString | src/nam/NamMetadataReader.cpp:357-375 | A string, or null |
| JsonProbe.JsonProbe.ParseOptionalNumber | src/nam/NamMetadataReader.cpp:377-394 | A number, or null |
| JsonProbe.JsonProbe.ParseMetadataObject | src/nam/NamMetadataReader.cpp:279-345 | Reads what `ScanMetaObject` reads |
| JsonProbe.JsonProbe.ParseRootObject | src/nam/NamMetadataReader.cpp:223-277 | Reads what `ScanRoot` reads |
| JsonProbe.JsonProbe.Parse | src/nam/NamMetadataReader.cpp:136-162 | The metadata of the whole file, or the first error with its code and offset |

## Left out

- IEEE rounding: samples, gains and rates are reals, and not-a-number and infinite inputs do not occur; the phases the code computes with are integers, and stay small enough that its divisions round to the same whole numbers.
- Lanczos coefficient values and table interpolation: the kernel is an arbitrary function of fraction and tap, so the accuracy of the filter is not stated.
- `read_sample` centres its kernel one sample before the position its distance names; the model follows the code, so latency is stated in phase units and not as the alignment of an impulse.
- LanczosResampler.MonoLanczosResampler.constructor: does not model the rejection of bad rates, because the adapter validates them first and more strictly.
- NeuralAmpModelerCore, architecture registration, model loading and fast tanh: foreign code, represented by a per-sample transition that is also used for whole blocks.
- The C++ memory model: interleavings are sequentially consistent at the granularity of single atomic accesses, and notifications that follow the release of a mutex are part of the step that releases it.
- `AtomicInfo`: several independent atomics, for which no consistent snapshot is claimed; only the latency and the fade flag of the slot are modelled.
- RealtimeModelSlot.RealtimeModelSlot.Process: does not model two threads inside the object at once, because that is the transition system's part.
- EndToEnd.NewestRequestIsHeard: counts blocks that are not bypassed and not empty, because a bypassed block does not reach the slot, as `OneSlotProcessor.OneSlotProcessor.RunModel` states.
- EndToEnd: `prepare` of the slot is not interleaved with the worker, because it requires audio to be stopped and discards what the worker has published.
- Generations, node ids, asset ids and stream offsets are unbounded; the 64-bit counters of the code are not expected to wrap.
- Moved-from processors, setters and getters of the processor: easy members.
- Directory walking, file classification and sorting, path normalisation and clocks: the scan report is an input, and timestamps of rows other than the file's own time are not kept.
- SQLite, full-text search, triggers, migration, saved searches, tags and recents as tables: a row carries the user's data as one value, the unique index is a constraint of the map, and a transaction is all or nothing. The next id is one above all earlier ones.
- LibraryHashCache.EnsureKeepsTrue: requires that the file was read undisturbed, because without that the statement is false, exactly as `LibraryHashCache.EnsureIsTrueIff` states.
- LibraryHashCache.RefreshKeepsTrue: requires that each row is vouched for when it is written, because otherwise the row is false in some past, exactly as `LibraryHashCache.WrittenRowIsTrueIff` states.
- Reading the bytes of one file, for its hash or its metadata, is one moment: a file that changes while it is being read counts as the bytes that were delivered.
- LibraryTheorems.IndexAgreesWithDisk: requires distinct relative paths, and that no scanned file is gone when a later one is processed, because its row could then be taken over as a moved file.
- LibraryDatabase.LibraryDatabase.EnsureSha256: does not model the row being changed by another connection between reading and updating it, because the object is the only user of its tables.
- Sha256Constants.FirstRoundOfTheExample: follows the published example for two rounds and not to its digest, because the tables would be long and say no more about the functions.
- JsonProbe.JsonProbe.Parse: error codes are characterised for values of the grammar beyond the limits and for missing fields; which code and offset other malformed bytes give is stated by the scan functions only.
- DecimalBound.DecimalIsClose: ends before the scaling in `long double`, because that is floating point; whether a scaled value is representable is a parameter.
- The size, type and existence checks of `read_metadata`, command-line output of records, the plugin shell and the user interface.
