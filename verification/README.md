# A verified model of the receiver's algorithms

The repository is a software-defined-radio receiver: C for the signal
processing and the survey, a browser page that views it, and a few scripts. This
project models the algorithms it rests on in Dafny and proves what they promise.
`dafny verify dfyconfig.toml` checks all of it.

- `Basics.dfy`: what several modules share.
- `Complex.dfy`, `Fft.dfy`, `Spectrum.dfy`: the in-place radix-2 transform is
  the discrete Fourier transform, and the spectrum over it is the mean and the
  largest power of each frequency, in order.
- `Select.dfy`, `Peaks.dfy`: quickselect instead of a sort, twice; and the peak
  finder that keeps the strongest.
- `Viterbi.dfy`, `SchBurst.dfy`, `FrameNumber.dfy`: the joint convolutional and
  differential decoder of the synchronisation burst (section 4.7 of 3GPP TS
  45.003, section 2.3 of 3GPP TS 45.004) finds a cheapest input and, on the
  receiver's own signed cost, inverts the encoder; the reduced frame number
  (section 3.3.2.2 of 3GPP TS 45.002).
- `WebSocketFrames.dfy`: the client's frame writer and incremental reader, and the
  server's frame writer (sections 5.2 and 5.3 of RFC 6455).
- `ViewerPage.dfy`: the page's optimistic view switching against a server over
  a first-in first-out link.
- `Bursts.dfy`, `Activity.dfy`, `Repeats.dfy`: burst segmentation, the activity
  window, and the two tests for repetition.
- `IqRing.dfy`: the history ring against the plain bytes it stands for.
- `Carriers.dfy`, `PeakHold.dfy`: grouping peaks into carriers, and the
  peak-hold state of a frame over whole runs.
- `AddArgument.dfy`: the argument-threading rewriter, its lexer and its splice.
- `ReadingOrigin.dfy`, `FreqWindow.dfy`: whose clock made a signal, and the
  frequency window.

Code that works step by step is a class or a method with loops, proved against a
specification function or relation; the laws are then proved of those. Floats
are exact reals. Cosines, sines, powers and logarithms are parameters with the
few facts the algorithms need: the half-angle law of the twiddles, and order.
Masks, clocks, allocation failures and what a socket delivers are parameters too.

## What turned out not to hold

Where the code and what is said of it part, the code is modelled, with the exact
condition under which the two agree and, where that is not plain, a lemma with an
input on which they do not.

- A page whose screen somebody else moves before it hears of its own request
  stays on that request: `ViewerPage.PageLeftBehind` and
  `ViewerPage.StaysLeftBehind`, with the condition for any queue in flight in
  `ViewerPage.LastStateSettlesWhen`.
- A raster that passes the resolvability guard can still lose a transmitter's
  channel on a receiver that runs fast, because the guard leaves out the
  residual: `ReadingOrigin.ResolvableIsNotEnough`, with the condition in
  `ReadingOrigin.InversionRecovers`.
- A pan from a view that is not inside its data can overflow by more than was
  asked, or backwards: `FreqWindow.OutsideViewReverses`, with the condition in
  `FreqWindow.OverflowIsSound`.
- The window's comment says a view is never narrower than `min_span`; in data
  narrower than that it is as wide as the data: `FreqWindow.NarrowDataIsNotEnough`,
  with the condition in `FreqWindow.ClampedIsWideEnough`.
- A frequency is looked for at three steps only, so a tolerance of a step and a
  half or more misses the last step from past the end: the condition is in
  `ReadingOrigin.ThreeAreEnough`. The code is asked with half a bin.
- The phase a fold reports is the sample before its peak's slot whenever the slot
  does not start on a whole sample: `Repeats.PhaseBeforeItsSlot`, with the condition
  on lag and step in `Repeats.PhasesAreInTheirSlots`. The header says the step is
  raised to fit the slots; the code leaves it alone, and the model with it.
- An unclosed call has the last character of the text replaced by a parenthesis,
  or one added at the very end, unless the text ends in one:
  `AddArgument.UnclosedLosesACharacter`, with the condition in
  `AddArgument.UneditedIsIdentity`.
- A block too short for a window, at a new transform size, empties the hold but
  leaves the ready flag and the levels of the old size: `PeakHold.StaleLevels`,
  with the condition in `PeakHold.SignalFrame.Process`.
- A block moves the hold's clock on without fading what it already held, so the
  decay since a block is the rate times the time since only when no later block
  did: `PeakHold.BlockSkipsItsFade`, with the condition in `PeakHold.FadedAtMost`.
- The decoder prunes at 1e8 and starts at 1e9, so it is a minimum over the paths
  those let through: `SchBurst.OneLoudObservationStopsIt`. `SchBurst.DecodeBurst`
  says exactly when that is a minimum over all, and `SchBurst.NeverPrunesWhen`
  how strong observations may be before they can have a path pruned.

## Model

| member | source | states |
|---|---|---|
| `Fft.FftForward` | src/core/sdr_dsp.c:9-52 | for every power of two n, the in-place transform leaves in slot k the sum over m of x[m]*W^(k*m) of what the arrays held |
| `Fft.BitReversePermute` | src/core/sdr_dsp.c:11-24 | the carry-driven swaps leave at every index what was at its bit reversal |
| `Fft.CarryDown` | src/core/sdr_dsp.c:12-15 | rippling a carry from the top bit down is what the carry function says |
| `Fft.CarryIsIncrement` | src/core/sdr_dsp.c:11-15 | the carry turns the reversal of i into the reversal of i + 1 |
| `Fft.RevInvolution` | src/core/sdr_dsp.c:16-23 | reversing twice is the identity, so every pair of slots is swapped once |
| `Fft.RevTopBit` | src/core/sdr_dsp.c:11-15 | the top bit of an index is the lowest of its reversal |
| `Fft.Stage` | src/core/sdr_dsp.c:30-50 | one stage turns transforms of half the length into transforms of the whole length, in every block |
| `Fft.CombineBlock` | src/core/sdr_dsp.c:31-49 | one block, with the twiddle built up by repeated multiplication |
| `Fft.Combine` | src/core/sdr_dsp.c:34-44 | one butterfly on the two arrays: sum and difference with the twiddled odd slot, all else kept |
| `Fft.Butterfly` | src/core/sdr_dsp.c:34-44 | a slot of a transform and the one half a turn on are the sum and difference of slots of its even and odd halves |
| `Fft.SplitSum` | src/core/sdr_dsp.c:26-51 | decimation in time: a sum of 2m terms is the even terms' sum plus the twiddled odd terms' sum |
| `Fft.SumPeriod` | src/core/sdr_dsp.c:26-51 | a slot is unchanged when the order of the root is added to its number |
| `Fft.RootHalfTurn` | src/core/sdr_dsp.c:27-29 | each step of the table is a primitive root of one: half way round it is -1 |
| `Fft.TwiddlesAreUnique` | src/core/sdr_dsp.c:27-29 | what is asked of the cosines and sines leaves one table only |
| `Spectrum.SpectrumOf` | src/core/sdr_dsp.c:736-787 | slot j is given the level of the mean, and of the largest, power that frequency j - size/2 has over the whole windows; no whole window, or no valid size, writes nothing |
| `Spectrum.Gather` | src/core/sdr_dsp.c:756-774 | accumulated over windows, both arrays hold the total and the loudest of the windows' powers at the shifted slots |
| `Spectrum.Accumulate` | src/core/sdr_dsp.c:765-773 | one transformed window goes into every slot once |
| `Spectrum.FillWindow` | src/core/sdr_dsp.c:757-762 | the transform's arrays hold the window's weighted samples |
| `Spectrum.ToLevels` | src/core/sdr_dsp.c:776-785 | totals become means, and both become levels no lower than the floor |
| `Spectrum.ShiftOrders` | src/core/sdr_dsp.c:766 | the bin shift is its own inverse and puts the slots in ascending order of frequency |
| `Spectrum.LoudestIsLargest` | src/core/sdr_dsp.c:771-772 | no window is louder at a frequency than what is kept |
| `Spectrum.LoudestIsAttained` | src/core/sdr_dsp.c:771-772 | and some window is as loud |
| `Spectrum.LevelAboveFloor` | src/core/sdr_dsp.c:778-784 | no level is under the floor |
| `Spectrum.LevelsAboveFloor` | src/core/sdr_dsp.c:776-785 | nor any of the largest levels written |
| `Select.SelectNth` | src/core/sdr_dsp.c:212-253 | rearranges only its range and leaves at k the element a full sort would put there, smaller or equal before it and larger or equal after |
| `Select.Partition` | src/core/sdr_dsp.c:219-245 | one three-way pass: below, equal to and above the pivot, nothing outside the stretch touched |
| `Select.PassNarrows` | src/core/sdr_dsp.c:246-251 | a pass leaves the rank enclosed in a strictly smaller stretch, or placed |
| `Select.PlacedIsRank` | src/core/sdr_dsp.c:200-205 | an element with smaller-or-equal before it and larger-or-equal after is the one sorting would put there |
| `Select.SortedUnique` | src/core/sdr_dsp.c:190-198 | there is one ascending arrangement of a collection |
| `Select.RankIndex` | src/core/sdr_dsp.c:190-198 | the index is the ceiling of p*count less one, held between the first and the last |
| `Select.RankIndexMonotone` | src/core/sdr_dsp.c:297-302 | a higher percentile never has a lower index, so the second selection looks in the right half |
| `Select.SecondSelection` | src/core/sdr_dsp.c:294-304 | placing a rank among what follows a placed one places it in the whole |
| `Select.NoiseAndSignal` | src/core/sdr_dsp.c:265-305 | both percentiles read after the two selections are those of the sorted magnitudes |
| `Peaks.TopographicProminence` | src/core/sdr_dsp.c:376-398 | the two bounded walks compute the descent to the higher of the two saddles |
| `Peaks.ProminenceIsDescent` | src/core/sdr_dsp.c:361-375 | a peak stands out by t exactly when, both ways, the trace falls by t before anything higher, an unmeasured bin or the bound |
| `Peaks.MeasureFloor` | src/core/sdr_dsp.c:337-359 | the median of the measured levels of the window outside the hump, or none |
| `Peaks.Widen` | src/core/sdr_dsp.c:483-494 | the hump holds the peak, only measured bins at or over the threshold, and stops only where the next bin fails or the reach ends |
| `Peaks.LowerEdge` | src/core/sdr_dsp.c:483-488 | the lower end of the hump: everything to the peak is measured and at or over the threshold |
| `Peaks.UpperEdge` | src/core/sdr_dsp.c:489-494 | the upper end of the hump, likewise |
| `Peaks.MeasureCandidate` | src/core/sdr_dsp.c:439-535 | one bin measured against every bar gives the candidate the definition gives |
| `Peaks.CandidatesAreSound` | src/core/sdr_dsp.c:439-535 | every candidate is a local maximum with positive prominence over both bars, inside a hump of measured bins |
| `Peaks.Keep` | src/core/sdr_dsp.c:537-547 | streaming keeps a strongest-k selection of what was seen: nothing dropped is stronger than anything kept |
| `Peaks.Collect` | src/core/sdr_dsp.c:439-548 | after the scan the kept peaks are a strongest-k selection of all candidates |
| `Peaks.SortedStillStrongest` | src/core/sdr_dsp.c:549 | sorting leaves it one, from strongest to weakest |
| `Peaks.FindPeaks` | src/core/sdr_dsp.c:424-551 | the list is sorted strongest first and is exactly a strongest-max_peaks selection of all qualifying maxima |
| `Peaks.ReportedPeaks` | src/core/sdr_dsp.c:424-551 | what a caller may rely on for every reported peak: its bin, its hump, its floor as the median of its surroundings, and both bars |
| `Peaks.OnePerIndex` | src/core/sdr_dsp.c:442-445 | no bin is reported twice |
| `Viterbi.Decode` | scripts/gsm_chain_probe.c:228-281 | for costs of any sign: found exactly when some zero-tailed input survives the prune and the unreached mark, and then a cheapest of those; otherwise all zeros |
| `Viterbi.Advance` | scripts/gsm_chain_probe.c:233-266 | one level: every recorded path extended along both edges, each state keeping a cheapest, with its back pointer |
| `Viterbi.OfferedIsMinimal` | scripts/gsm_chain_probe.c:234-265 | once every edge was offered no surviving path undercuts the metric of its end state |
| `Viterbi.TakeEdge` | scripts/gsm_chain_probe.c:259-263 | an improving edge replaces metric, path and back pointer together |
| `Viterbi.BestEnd` | scripts/gsm_chain_probe.c:268-273 | the cheapest state with an empty register, or none |
| `Viterbi.Traceback` | scripts/gsm_chain_probe.c:274-281 | the inputs read off backwards are the path recorded for the end state |
| `Viterbi.EndStates` | scripts/gsm_chain_probe.c:268-281 | what the chosen end state says about every candidate path |
| `Viterbi.CandidateTail` | scripts/gsm_chain_probe.c:257-270 | the register ends empty exactly when the last four inputs were zero |
| `SchBurst.BoundedSurvives` | scripts/gsm_chain_probe.c:235 | when no decision costs more than b and 77 of them come to no more than the prune, no path is ever pruned |
| `SchBurst.NeverPrunesWhen` | scripts/gsm_chain_probe.c:235 | on the receiver's own signed cost, under any training sequence, observations no stronger than b never have a candidate pruned exactly when 77*b is at most the prune |
| `Viterbi.PackRoundTrip` | scripts/gsm_chain_probe.c:262-279 | a back pointer gives back the state and the input packed into it |
| `SchBurst.DecodeBurst` | scripts/gsm_chain_probe.c:215-281 | for costs of any sign: the answer is cheapest of all candidates exactly when some cheapest candidate survives, so always when no decision costs over a 77th of the prune; and it is u whenever u survives and each decision agreeing with u costs the same and each other one more |
| `SchBurst.DecodeSoft` | src/tech/gsm_dsp.c:408-412 | on the receiver's own signed cost, invert included: observations of any strength that turn the way a zero-tailed input's burst does decode to exactly that input, and below a 77th of the prune any observations decode to a cheapest of all |
| `SchBurst.SignedFit` | src/tech/gsm_dsp.c:408-412 | a decision is charged the soft observation with its sign turned by the change and by invert |
| `SchBurst.TurnsFavour` | src/tech/gsm_dsp.c:408-412 | observations that turn the burst's way reward every decision agreeing with it and charge every other more |
| `SchBurst.RewardedSurvives` | scripts/gsm_chain_probe.c:235 | a path rewarded at every informative position is never pruned, however strong the observations |
| `SchBurst.OneLoudObservationStopsIt` | scripts/gsm_chain_probe.c:235 | one observation of 2e8 the wrong way round has every path pruned after its first step, and nothing is found |
| `SchBurst.PathCostIsBurstCost` | scripts/gsm_chain_probe.c:238-256 | the costs added edge by edge, with the training and tail terms of steps 19 and 38, are the cost of the whole differentially encoded burst |
| `SchBurst.FavouredIsCheapest` | scripts/gsm_chain_probe.c:238-256 | on observations that favour u, u is the cheapest of all inputs and no other costs as little |
| `SchBurst.SameInputs` | scripts/gsm_chain_probe.c:239-240 | the code is injective: equal coded bits come from equal inputs |
| `SchBurst.SameBits` | scripts/gsm_chain_probe.c:243-256 | equal changes from equal starting bits are equal bits |
| `SchBurst.RegisterHoldsInputs` | scripts/gsm_chain_probe.c:257 | the shift register always holds the last four inputs |
| `SchBurst.EmittedBits` | scripts/gsm_chain_probe.c:239-258 | step k emits coded bits 2k and 2k + 1 and the state remembers the second |
| `SchBurst.MiddleStep` | scripts/gsm_chain_probe.c:243-256 | step 19 ends the first coded half, charges the training bit and starts the second half |
| `FrameNumber.FrameOfFields` | scripts/gsm_chain_probe.c:57-59 | every frame number below 2715648 comes back from its quotient by 1326 and remainders by 26 and 51 |
| `FrameNumber.FieldsOfFrame` | scripts/gsm_chain_probe.c:57-59 | the formula gives a number with those very fields exactly when the timing check passes |
| `FrameNumber.Residue` | scripts/gsm_chain_probe.c:57-59 | 51 and 26 being coprime, the formula gives the one residue under 1326 with those remainders |
| `FrameNumber.NextSyncIsNext` | scripts/gsm_chain_probe.c:302-303 | the next frame with a synchronisation burst is 10 or 11 frames on, and none lies between |
| `FrameNumber.LegalGaps` | scripts/gsm_chain_probe.c:361-363 | any two frames with synchronisation bursts differ by a sum of gaps of 10 and 11 |
| `WebSocketFrames.EncodeParses` | src/server/websocket.c:391-421 | a frame of either side, masked by the client or plain from the server, in any of the three length encodings, parses to its opcode and payload and leaves what followed |
| `WebSocketFrames.PrefixIncomplete` | scripts/viewer_client.py:215-241 | no strict prefix of a frame of either side parses as anything |
| `WebSocketFrames.ParseExtends` | scripts/viewer_client.py:215-246 | more bytes never change how a complete frame parses |
| `WebSocketFrames.StreamRoundTrip` | scripts/viewer_client.py:170-246 | frames of either side come out of the concatenated stream as they went in, in order |
| `WebSocketFrames.MaskedTwice` | scripts/viewer_client.py:180 | masking twice with the same key restores the payload |
| `WebSocketFrames.BigEndianRoundTrip` | scripts/viewer_client.py:177-179 | lengths come back from their big-endian bytes |
| `WebSocketFrames.MessageAfterKeepalives` | scripts/viewer_client.py:191-203 | pings and pongs of the server before its data frame are skipped, the pings answered, and that frame delivered, whichever of them carry a mask |
| `WebSocketFrames.FrameEncode` | src/server/websocket.c:391-421 | the server writes its frame, unmasked, into the caller's buffer and nothing past it, or nothing at all when it does not fit |
| `WebSocketFrames.WriteLength` | src/server/websocket.c:408-417 | the length's bytes are written most significant first, each by a shift, and nothing else is touched |
| `WebSocketFrames.MarkedParses` | src/server/websocket.c:391-421 | the client reads what the server wrote as that opcode and payload, marked final or not |
| `WebSocketFrames.PongSendable` | scripts/viewer_client.py:196-198 | a ping's payload is never too long to send back |
| `WebSocketFrames.ViewerClient.SendFrame` | scripts/viewer_client.py:170-181 | one frame is appended to what was written, under the next mask drawn |
| `WebSocketFrames.ViewerClient.TryParseOneFrame` | scripts/viewer_client.py:215-246 | field by field, it is the parse of the buffer; without a whole frame the buffer is untouched |
| `WebSocketFrames.ViewerClient.RecvFrame` | scripts/viewer_client.py:205-213 | however the bytes are cut into chunks, the first frame of the stream is returned and the rest kept |
| `WebSocketFrames.ViewerClient.RecvMessage` | scripts/viewer_client.py:183-203 | the next message of the stream, with one pong sent for each ping before it, in order |
| `Bursts.OnePassIsTwoPass` | src/core/signal_probe.c:717-774 | merging and classifying runs as they end tallies what merging them all first and then tallying would |
| `Bursts.FinishIsMergeThenTally` | src/core/signal_probe.c:727-774 | merging runs as they arrive is merging them all first |
| `Bursts.Segment` | src/core/signal_probe.c:717-774 | the loop over the samples leaves exactly that tally |
| `Bursts.BurstTally.Emit` | src/core/signal_probe.c:622-638 | a run at an end is counted as truncated, any other as a burst whose length is kept while there is room |
| `Bursts.RawRunsOrdered` | src/core/signal_probe.c:727-740 | runs are in time order, disjoint, non-empty and inside the buffer |
| `Bursts.RawRunsAreBusySamples` | src/core/signal_probe.c:727-740 | a sample is in a run exactly when the entry threshold was reached at or before it and the exit threshold not fallen under since |
| `Bursts.MergeCloses` | src/core/signal_probe.c:740-766 | merged runs stay in order, disjoint and inside, and are at least the gap apart |
| `Bursts.MergeCovers` | src/core/signal_probe.c:740-766 | merged runs cover the runs and the silences too short to part them, and nothing else |
| `Bursts.TallyAddsUp` | src/core/signal_probe.c:622-638 | whole and truncated runs add up to the merged runs, busy samples to their total length |
| `Bursts.TallyKeepsLengths` | src/core/signal_probe.c:622-638 | the lengths kept are those of the first whole runs, as many as there is room for |
| `Bursts.TallyKeepsGaps` | src/core/signal_probe.c:630-635 | the gaps kept are the first of the silences between a whole run and the run before it, which may itself be truncated |
| `Bursts.GapsAtLeast` | src/core/signal_probe.c:740-766 | none of them is shorter than the gap that parts runs |
| `Bursts.SegmentReports` | src/core/signal_probe.c:717-774 | all of it in one statement about any envelope: order, gaps, counts, busy samples, and which lengths and gaps are kept |
| `Bursts.SmoothedEnvelope` | src/core/signal_probe.c:563-581 | the running sum gives at every sample the mean of the last window, or of as many as there are |
| `Activity.FindWindow` | src/core/signal_probe.c:942-1016 | the window lies in the buffer and holds the whole maximal stretch over the threshold around the loudest chunk, and the runs counted are the maximal ones |
| `Activity.ChunkPairs` | src/core/signal_probe.c:897-908 | as few doublings as bring the number of chunks under the limit |
| `Activity.ChunkIsWhole` | src/core/signal_probe.c:897-906 | every chunk is a whole number of filtered samples |
| `Activity.Units` | src/core/signal_probe.c:897-901 | as many whole filtered samples as fit in the chunk asked for, and one when none does |
| `Activity.CountBusy` | src/core/signal_probe.c:971-979 | the runs counted are the places where stretches over the threshold begin |
| `Activity.RunAround` | src/core/signal_probe.c:985-990 | the walk out from the loudest chunk finds the maximal stretch around it |
| `Activity.Padded` | src/core/signal_probe.c:998-1009 | padding keeps the stretch inside the window and the window inside the buffer |
| `Activity.RunInside` | src/core/signal_probe.c:992-1009 | the stretch of chunks ends inside the buffer in samples, and the padded window covers it and stays inside too |
| `Activity.FirstEqual` | src/core/signal_probe.c:951-953 | the loudest chunk chosen is the first of the largest power |
| `Repeats.RepeatFind` | src/core/signal_probe.c:347-447 | the fundamental of the stream, its match, the best lag that is no multiple of it and the profile are reported exactly when the match stands clear, and nothing otherwise |
| `Repeats.FindPeriod` | src/core/signal_probe.c:360-390 | the loops find the fundamental: the first lag within the margin of the best match |
| `Repeats.FundamentalUnique` | src/core/signal_probe.c:371-390 | there is exactly one lag in the range that matches within the margin of the best and that no shorter one in the range does |
| `Repeats.PeriodIsFound` | src/core/signal_probe.c:371-384 | a stream with a period in the range is given that period or a shorter lag, never a harmonic, and the period itself exactly when no shorter lag matches at 0.98 |
| `Repeats.MultiplesRepeat` | src/core/signal_probe.c:374-378 | every multiple of a period is a period |
| `Repeats.FullMatchIsPeriodic` | src/core/signal_probe.c:336-345 | a lag matches fully exactly when it is a period |
| `Repeats.FindRunnerUp` | src/core/signal_probe.c:392-405 | the best of the lags that are no multiple of the period |
| `Repeats.Profile` | src/core/signal_probe.c:424-445 | each slot's share of repeats, and how many slots are fixed and varying |
| `Repeats.ProfileAddsUp` | src/core/signal_probe.c:430-435 | every position past the first period is on one slot, and the slots' hits are the period's matches |
| `Repeats.LagCorrelation` | src/core/signal_probe.c:453-471 | the loop accumulates the lag sum and both energies |
| `Repeats.CorrelationInRange` | src/core/signal_probe.c:453-471 | the correlation is between 0 and 1, and 1 for a stretch that repeats exactly |
| `Repeats.TuningErrorCancels` | src/core/signal_probe.h:342-346 | turning the samples by any constant step, as a tuning error does, leaves the correlation unchanged |
| `Repeats.FoldAt` | src/core/signal_probe.c:473-540 | peak, median floor, ratio and phase are those of the mean correlation of each slot over all positions |
| `Repeats.Gather` | src/core/signal_probe.c:502-525 | the slots' means over every position the buffer has room for |
| `Repeats.AllPositions` | src/core/signal_probe.c:517 | the positions folded are all that leave room for the lag and the window |
| `Repeats.SlotIsPeriodic` | src/core/signal_probe.c:506-518 | positions a period apart fall on one slot, and every slot is one there is |
| `Repeats.NaiveAgrees` | src/core/signal_probe.c:506-518 | counting steps instead agrees with it exactly when the steps fill the period |
| `Repeats.PhaseIsInSlot` | src/core/signal_probe.c:536 | the phase of a slot lies in it exactly when the slot starts on a whole sample; otherwise it is the sample before, in the slot before |
| `Repeats.PhasesAreInTheirSlots` | src/core/signal_probe.c:494-536 | for the slots the code divides a lag into, the phase reported lies in the peak's slot whichever that is exactly when they divide the lag evenly |
| `Repeats.RepeatedIsFull` | src/core/signal_probe.c:453-471 | the correlation folded, the root of the squared one, is at most 1, and 1 wherever a stretch with energy comes again a lag later |
| `Repeats.FullMean` | src/core/signal_probe.c:517-525 | a slot's mean is 1 exactly when some position falls on it and every one that does correlates fully |
| `Repeats.PeriodicFoldsFull` | src/core/signal_probe.c:473-540 | samples that repeat at the lag fold to a peak of exactly 1 at phase 0: the mean is 1 in every slot a position falls on and 0 in the others |
| `Repeats.PhaseBeforeItsSlot` | src/core/signal_probe.c:536 | a lag of 9 folded at step 2 makes four slots, and the second is reported at phase 2, which lies in the first |
| `IqRing.Ring.Push` | src/core/iq_ring.c:91-120 | the ring holds the newest bytes of everything pushed since the last configure, through wraps and pushes larger than itself |
| `IqRing.Ring.Configure` | src/core/iq_ring.c:44-89 | a configure empties the history; a failed allocation keeps the old buffer |
| `IqRing.Ring.ExtractSlice` | src/core/iq_ring.c:134-209 | the slice is the stretch asked for, cut to the room the caller has; with whole pairs pushed it is that piece of everything pushed, both ends between pairs |
| `IqRing.Ring.ExtractSnapshot` | src/core/iq_ring.c:211-273 | the snapshot is the whole stretch asked for in a buffer of its own; with whole pairs pushed it is that piece of everything pushed, both ends between pairs |
| `IqRing.Ring.TakenIsPiece` | src/core/iq_ring.c:150-203 | under any limit, a stretch taken of a ring of whole pairs is a pair-aligned piece of what was pushed |
| `IqRing.NewestAligned` | src/core/iq_ring.c:97-118 | what a ring of whole pairs holds is a whole number of them |
| `IqRing.PushAppends` | src/core/iq_ring.c:100-118 | writing at the head and moving it past what was written appends to what is held |
| `IqRing.BehindAfterWrite` | src/core/iq_ring.c:105-113 | after a write the newest bytes are those written and older ones are where they were |
| `IqRing.StretchFromRing` | src/core/iq_ring.c:188-203 | copying from the wrapped position, in two pieces if need be, copies a contiguous stretch |
| `IqRing.RequestAligned` | src/core/iq_ring.c:150-186 | both ends of a request, and what a caller's limit leaves of it, fall between pairs |
| `IqRing.StretchOfHistory` | src/core/iq_ring.c:150-203 | a stretch of the newest bytes is a contiguous, pair-aligned piece of everything pushed |
| `IqRing.SliceIsSnapshotPrefix` | src/core/iq_ring.c:134-273 | slice and snapshot return the same bytes, the limited one a prefix |
| `IqRing.CopyOut` | src/core/iq_ring.c:195-203 | the one or two copies out of the ring |
| `IqRing.WriteBytes` | src/core/iq_ring.c:97-118 | what a push does to buffer, head and fill |
| `ViewerPage.RunKeepsInv` | web/viewer.js:22-291 | after every run of clicks, connections, deliveries, refusals and states the invariant holds |
| `ViewerPage.StepKeepsInv` | web/viewer.js:104-291 | every single step keeps it |
| `ViewerPage.PendingIsActive` | web/viewer.js:62-121 | in every run an outstanding request is for the view on show |
| `ViewerPage.Converges` | web/viewer.js:62-67 | once the server took every view command and stated its screen last, delivering all that is in flight leaves the page on that screen with nothing pending |
| `ViewerPage.OneViewerConverges` | web/viewer.js:94-121 | with one Viewer that holds for every run from page load |
| `ViewerPage.LastStateSettlesWhen` | web/viewer.js:62-67 | whatever is in flight, once the server's own screen is its last word, delivering everything settles the page exactly when it waited for nothing or some message in flight releases what it waits for |
| `ViewerPage.OnlyOvertakingLosesThePage` | web/viewer.js:94-99 | from any reachable state that fails exactly when a request is outstanding and nothing in flight releases it, and then somebody else moved the screen first |
| `ViewerPage.PageLeftBehind` | web/viewer.js:62-67 | a run with a second Viewer after which everything has been delivered and the page still shows and awaits its own request |
| `ViewerPage.StaysLeftBehind` | web/viewer.js:62-67 | no number of further states that name another screen releases it |
| `ViewerPage.FirstAnswerMayFlip` | web/viewer.js:62-67 | clicking one view, another and the first again may settle, flip and settle back |
| `ViewerPage.OlderRefusalReleasesNewer` | web/viewer.js:248-260 | a refusal of an older request releases a newer one |
| `ViewerPage.Page.SelectView` | web/viewer.js:104-121 | a click or a state shows the view, notes the request, and sends what the socket lets through |
| `ViewerPage.Page.OnMessage` | web/viewer.js:229-291 | what each message does to the page |
| `ViewerPage.Page.ScreenIsSettled` | web/viewer.js:63-67 | whether a state may move the page, and what that releases |
| `ViewerPage.Page.OnOpen` | web/viewer.js:219-226 | a new link subscribes the view on show and forgets the request |
| `Carriers.SurveyCarriers` | src/core/survey_carrier.h:275-363 | every peak in the array is counted in one carrier whose extent holds it, unless the limit was reached; each carrier reports the strongest and the lowest floor of its members, in hertz |
| `Carriers.Gather` | src/core/survey_carrier.h:290-327 | each peak joins the first carrier that holds it or founds the next outside all earlier ones |
| `Carriers.PeaksConserved` | src/core/survey_carrier.h:290-327 | the counts add up to the peaks in the array unless the limit turned some away |
| `Carriers.CountsAddUp` | src/core/survey_carrier.h:290-327 | the counts add up to the peaks with a holder |
| `Carriers.NamedByItsTallest` | src/core/survey_carrier.h:268-270 | with the peaks strongest first, as the finder leaves them, a carrier is named by the peak it was founded on, and that is its tallest and its first |
| `Carriers.JoinPeak` | src/core/survey_carrier.h:315-326 | a peak joining a carrier leaves every other as it was |
| `Carriers.FoundGroup` | src/core/survey_carrier.h:301-314 | a new carrier takes no member from an earlier one, and its founder is outside them all |
| `Carriers.EdgeInside` | src/core/survey_carrier.h:223-260 | edges stay in the array, each on its own side of the peak |
| `Carriers.WalkToEdge` | src/core/survey_carrier.h:223-260 | the one-pass walk ends on the bin down by the edge level or at the bottom of the trough |
| `Carriers.EdgeSteps` | src/core/survey_carrier.h:223-260 | the edge is never beyond what can be walked |
| `Carriers.EdgeIsDownOrTrough` | src/core/survey_carrier.h:223-260 | until it stops the walk stays within the split of the lowest level so far and over the edge level; then the edge is the next bin when that is down without climbing, else where the lowest level was first met |
| `Carriers.SmoothedLevel` | src/core/survey_carrier.h:194-206 | the strongest measured level around a bin |
| `Carriers.MomentBetween` | src/core/survey_carrier.h:346-360 | a weighted mean of frequencies lies between the lowest and the highest |
| `Carriers.PowerCentreInside` | src/core/survey_carrier.h:346-360 | the power centre lies within the extent |
| `Carriers.FindPowerCentre` | src/core/survey_carrier.h:346-360 | the loop computes the power-weighted mean of the bins over the floor, or the middle when none is |
| `Carriers.CarrierHolding` | src/core/survey_carrier.h:159-173 | the narrowest carrier holding a frequency, the first of equals |
| `PeakHold.SignalFrame.Process` | src/core/signal_frame.c:6-102 | in every run each live bin of the hold is the largest, over the blocks since it was started, of the block's level less the fades since, no lower than the floor; a block is measured exactly when it has a whole window, a new size empties the hold first, the decoder's samples are the block's own whatever the filter, and the levels called ready stay those of the bins in force unless a ready frame is given a short block at a new size |
| `PeakHold.SignalFrame.DecayPeak` | src/core/signal_frame.c:112-132 | time that passed fades the hold once, at whatever rate, and a clock that did not advance changes nothing |
| `PeakHold.SignalFrame.Measure` | src/core/signal_frame.c:78-101 | a block with a whole window is measured, shown and added to the hold; any other changes nothing |
| `PeakHold.StaleLevels` | src/core/signal_frame.c:69-86 | a frame measured at 2048 and given a short block at 256 is ready with 2048 levels for 256 bins |
| `PeakHold.FadedAtMost` | src/core/signal_frame.c:99-131 | at one rate and on a clock that never goes back, the fades since a block come to at most the rate times the time since, and to just that exactly when the rate is nothing or no later block moved the clock on |
| `PeakHold.BlockSkipsItsFade` | src/core/signal_frame.c:99 | two blocks a second apart with no fade between at 20 dB a second: the first has faded by nothing where the rate times the time is 20 |
| `PeakHold.FadesAddUp` | src/core/signal_frame.c:127-130 | when no fade is negative a block still contributes its level less all the fades since, no lower than the floor |
| `PeakHold.SpectrumKeepsContract` | src/core/signal_frame.c:78-82 | the largest levels of a block's spectrum, one a bin and none under the floor, are what the hold asks of its spectrum |
| `PeakHold.SignalFrame.Invalidate` | src/core/signal_frame.c:105-110 | the spectrum and its hold go together |
| `PeakHold.SignalFrame.Raise` | src/core/signal_frame.c:88-98 | the hold is started from the block, or raised to it |
| `PeakHold.SignalFrame.Resize` | src/core/signal_frame.c:69-76 | a hold gathered at another size is thrown away |
| `PeakHold.SignalFrame.FilteredCopies` | src/core/signal_frame.c:52-61 | filtering changes the copies only |
| `PeakHold.HoldAfterBlock` | src/core/signal_frame.c:92-98 | with a new block each bin is still the largest contribution any block since the start makes |
| `PeakHold.HoldAfterFade` | src/core/signal_frame.c:127-130 | fading the hold fades every block's contribution alike, down to the floor |
| `PeakHold.HoldsAfterBlock` | src/core/signal_frame.c:88-98 | for all live bins together, first block or not |
| `PeakHold.HoldsAfterFade` | src/core/signal_frame.c:127-130 | for all live bins together |
| `PeakHold.RemoveDc` | src/core/sdr_dsp.c:162-179 | each channel is centred, and nothing past it touched |
| `PeakHold.CentredHasNoDc` | src/core/sdr_dsp.c:162-179 | what is left has none |
| `AddArgument.InsertArg` | scripts/add_argument.py:117-180 | fails exactly when a literal ends on a backslash; otherwise writes the source's pieces with each editable call edited, and counts the edited and the skipped |
| `AddArgument.OutputReadsBack` | scripts/add_argument.py:131-180 | read again, the output has the same pieces as the source, each editable call with its edited arguments |
| `AddArgument.OneMoreArgument` | scripts/add_argument.py:117-180 | piece by piece: nothing else moved and each editable call gained one argument |
| `AddArgument.OthersUntouched` | scripts/add_argument.py:164-177 | at index 1 and up the other arguments keep every byte; at 0 only the first's leading white space changes |
| `AddArgument.UneditedIsIdentity` | scripts/add_argument.py:133-180 | text with nothing edited comes back as it was exactly when every call is closed or the text ends in a parenthesis |
| `AddArgument.UnclosedLosesACharacter` | scripts/add_argument.py:147-178 | the unclosed call f(x, with nothing put in, comes back as f() |
| `AddArgument.PiecesAreTheSource` | scripts/add_argument.py:133-180 | with nothing put in, going through the source gives it back under just that condition |
| `AddArgument.JoinOfSplit` | scripts/add_argument.py:102-114 | joining the split arguments gives the text back |
| `AddArgument.SplitOfJoin` | scripts/add_argument.py:102-114 | arguments that are whole and have no top-level comma are split back as they were |
| `AddArgument.SplitIsSolid` | scripts/add_argument.py:102-114 | no literal or comment straddles an argument, and none is cut further |
| `AddArgument.CutAtCode` | scripts/add_argument.py:88-99 | a character the mask kept cuts the text in two that are lexed apart |
| `AddArgument.MaskConcat` | scripts/add_argument.py:50-99 | lexing composes where finished text meets a separator |
| `AddArgument.MaskIsSpans` | scripts/add_argument.py:88-99 | the mask blanks exactly what lies in a span |
| `AddArgument.OverrunIsSpan` | scripts/add_argument.py:61-69 | masking fails exactly when a span reaches past the text |
| `AddArgument.Spans` | scripts/add_argument.py:50-85 | the scanner yields the literals and comments of the text |
| `AddArgument.Mask` | scripts/add_argument.py:88-99 | positions and newlines kept, literals and comments blanked; an index error when a span overruns |
| `AddArgument.SplitArgs` | scripts/add_argument.py:102-114 | the depth-counting loop cuts at the top-level commas |
| `AddArgument.PastCall` | scripts/add_argument.py:147-153 | the depth loop stops just past the parenthesis that closes the call, or at the end |
| `AddArgument.RewriteCall` | scripts/add_argument.py:154-178 | one call edited, skipped or left, with its count |
| `AddArgument.InsertedIsSolid` | scripts/add_argument.py:164-177 | the edited arguments stand on their own as the old ones did |
| `AddArgument.InsertedIsNested` | scripts/add_argument.py:147-177 | and the call still closes where it did |
| `AddArgument.InnerCallStays` | scripts/add_argument.py:135-179 | in any text and for any closed call of it: the arguments run to the parenthesis that closes the call, and every position of them belongs to that piece and to no other, so a call of the same name in there is part of an argument |
| `ReadingOrigin.ReadingAndTruth` | src/core/reading_origin.h:101-121 | reporting and inverting undo each other |
| `ReadingOrigin.SeparationIs` | src/core/reading_origin.h:79-94 | the hypotheses are hz*k/(1+e) apart, and nothing is when the clock cannot run |
| `ReadingOrigin.CorrectionInverts` | src/core/reading_origin.h:86-94 | the coherent tone reads its nominal exactly when nothing is applied, the external one exactly when the crystal's own error is |
| `ReadingOrigin.NothingSeparates` | src/core/reading_origin.h:148-156 | no separation exactly for an unmeasured crystal or a clock that cannot run |
| `ReadingOrigin.SeparableMeansDisjoint` | src/core/reading_origin.h:207-249 | separable exactly when no reading is within tolerance of both hypotheses |
| `ReadingOrigin.VerdictIsRight` | src/core/reading_origin.h:262-282 | within the tolerance, a tone of this receiver reads RECEIVER and only that, one of another EXTERNAL and only that |
| `ReadingOrigin.BestIsHighest` | src/core/reading_origin.h:284-305 | best is the higher of two in the order of precedence, so grids may be asked in any order |
| `ReadingOrigin.BestOfIsHighest` | src/core/reading_origin.h:284-305 | the best of many is one of them and outranks all |
| `ReadingOrigin.NearestChannelIsNearest` | src/core/reading_origin.h:329-339 | no channel lies nearer than the one named |
| `ReadingOrigin.InversionRecovers` | src/core/reading_origin.h:341-371 | every reading of a transmitter inverts to its channel exactly when twice the tolerance times (1+e) is under the spacing |
| `ReadingOrigin.RawReadingNames` | src/core/reading_origin.h:345-358 | the channel nearest the raw reading is the transmitter's only where the displacement is under half a spacing |
| `ReadingOrigin.ResolvableIsNotEnough` | src/core/reading_origin.h:384-398 | the resolvability guard admits a raster, and the separability guard its channel at 100.005 MHz, on which a reading loses that channel |
| `ReadingOrigin.ResolvableRecovers` | src/core/reading_origin.h:384-398 | on a receiver that does not run fast it is enough |
| `ReadingOrigin.HarmonicIsUnique` | src/core/survey_suspect.h:261-278 | the harmonic found is the one and only harmonic within the tolerance |
| `ReadingOrigin.SuspectOriginAt` | src/core/survey_suspect.h:588-695 | the verdict kept up grid by grid is the best of all those asked |
| `ReadingOrigin.OriginAtIs` | src/core/survey_suspect.h:588-695 | the verdict over both combs, the chain and the raster, taken together |
| `ReadingOrigin.UnmeasuredOnly` | src/core/survey_suspect.h:588-695 | the verdict is UNKNOWN whatever is asked exactly when the crystal is unmeasured or the clock cannot run |
| `ReadingOrigin.UnmeasuredAddsNothing` | src/core/survey_suspect.h:705-741 | an unmeasured receiver adds no flag |
| `ReadingOrigin.RasterNeverBlamesTheReceiver` | src/core/survey_suspect.h:646-693 | a service raster alone never says RECEIVER, and says EXTERNAL exactly under its guards |
| `ReadingOrigin.TransmitterIsExternal` | src/core/survey_suspect.h:666-692 | a transmitter on a channel is called external with its own channel named |
| `ReadingOrigin.ClockChainNearest` | src/core/clock_chain.h:97-113 | the loop over octaves finds the nearest member |
| `ReadingOrigin.NearestMemberIsNearest` | src/core/clock_chain.h:97-113 | no member lies nearer |
| `ReadingOrigin.AtStepCentre` | src/core/survey_suspect.h:307-323 | whether a step centre within the tolerance is among the step a frequency is in and the two beside it |
| `ReadingOrigin.ThreeAreEnough` | src/core/survey_suspect.h:307-323 | looking at three steps is as good as looking at all exactly for a tolerance under a step and a half |
| `FreqWindow.RunIsLegal` | src/core/freq_window.h:61-162 | after any zooms, pans and clamps the view is inside the data and at least min(min_span, data span) wide |
| `FreqWindow.ClampFixesLegal` | src/core/freq_window.h:61-81 | clamping leaves exactly the legal views alone, so it is idempotent |
| `FreqWindow.ClampIsNearest` | src/core/freq_window.h:61-81 | no view of that span inside the data starts nearer to where it was asked to |
| `FreqWindow.OverflowIsSound` | src/core/freq_window.h:132-162 | overflow never exceeds or reverses any request exactly when the view is empty or starts inside the data with room there for its span |
| `FreqWindow.OutsideViewReverses` | src/core/freq_window.h:145-162 | a view left of its data asked 10 to the right overflows by -40 |
| `FreqWindow.ClampedIsWideEnough` | src/core/freq_window.h:61-81 | a clamped view is at least min_span wide exactly when the data is |
| `FreqWindow.NarrowDataIsNotEnough` | src/core/freq_window.h:61-81 | in data ten wide a view that must not be under twenty is ten |
| `FreqWindow.LegalPansSoundly` | src/core/freq_window.h:132-162 | from a legal view movement and overflow add up to the request, each on its side and no larger |
| `FreqWindow.PanBack` | src/core/freq_window.h:117-130 | a pan nothing was left of is undone by the opposite pan |
| `FreqWindow.PanStuckAtTheEnd` | src/core/freq_window.h:114-130 | a pan reports no movement exactly at that end of the data |
| `FreqWindow.ZoomKeepsAnchor` | src/core/freq_window.h:83-112 | with room for the zoomed span, the anchor keeps its pixel exactly when the zoom stays inside the data |
| `FreqWindow.WantedKeepsAnchor` | src/core/freq_window.h:101-110 | before clamping it always does |
| `FreqWindow.PixelsAndHertz` | src/core/freq_window.h:216-240 | the pixel and hertz maps are inverses |
| `FreqWindow.DragIsUndirected` | src/core/freq_window.h:242-268 | a drag means the same both ways, and its edges are the two pixels |
| `FreqWindow.DragIsLegal` | src/core/freq_window.h:242-268 | what is dragged inside the chart is a view clamping leaves alone |
| `FreqWindow.BinsCoverTheData` | src/core/freq_window.h:188-194 | bins are evenly spaced and the outer ones half a bin inside |
| `FreqWindow.Window.ClampView` | src/core/freq_window.h:61-81 | the fields end as the clamped view, which is legal |
| `FreqWindow.Window.ZoomView` | src/core/freq_window.h:88-112 | the fields end as the zoomed view, which is legal |
| `FreqWindow.Window.PanView` | src/core/freq_window.h:117-130 | the fields end as the panned view, and whether it moved is told |
| `FreqWindow.Window.PanOverflow` | src/core/freq_window.h:145-162 | the fields end as the panned view, and what was left over is returned |

## Left out

- IqRing.Ring.Configure: asks that a ring which has a buffer is not given a
  capacity of zero, because what a zero-byte reallocation returns, and what it does
  with the old buffer, is up to the C library.
- AddArgument.OutputReadsBack: is about closed calls, a value that is one
  argument, and an appended argument after one whose brackets are even, which is
  what the tool is for; a function name holding a parenthesis is excluded.
- AddArgument.OneMoreArgument: is about the same texts and values.
- Floating-point rounding, NaN, the accuracy of library functions, and the
  32-bit wrap of sizes and indices near their limits.
- How the soft observations come out of the samples: the filter, the demodulator
  and its gain, and the search for the burst's start. The decoder takes any.
- Building the Hann window, byte-to-sample conversion, magnitude statistics
  other than the two percentiles.
- Burst thresholds, occupancy and median lengths; the band isolation that feeds
  the activity chunks; carrier search and envelope statistics.
- A snapshot's own allocation failing; the ring's gain, source, tuner and ppm metadata, its mutex and saving to files.
- Peaks with a negative bin, which the grouping skips like those past the end,
  and the names of carrier shapes.
- The page's document, health panel and canvases, and the order in which two
  Viewers' commands reach the server beyond arbitrary interleaving.
- The WebSocket handshake, the server's frame reader, fragmentation, text decoding,
  and timeouts.
- Non-ASCII letters and spaces, negative indices and file handling in the
  rewriter.
- Band plans and device profiles; the sweep's tolerances and its other flags.
- The other decoders, the GUI, process control and the reporting scripts.
