# Speech decoding around the networks

A Dafny model of the decoding logic that surrounds the neural networks of the runtime: CTC prefix beam search with
hotwords, voice activity endpointing and the two-pass splitter, the Aho-Corasick hotword bias, the streaming front ends
(resampler, framing, low-frame-rate stacking, integrate-and-fire), the word error rate calculator, the token parser of
inverse text normalization, and length-sorted batching. Every network, filter bank and recognizer is an arbitrary
function. Code that updates fields or loops is a class with methods proved against a specification by functions; the
promises of the program are lemmas about those functions and invariants of the classes.

- **CTC** (`CtcPaths`, `CtcHypothesis`, `CtcInvariant`, `CtcKeys`, `CtcRuns`, `CtcBeams`, `CtcText`, `TopK`,
  `CtcPrefixDecoder`).
  Probabilities are linear: a log probability x stands for exp(x), so the program's `LogAdd` is addition, its addition is
  multiplication, and its floor is zero. The reference is the sum (and the maximum) over an explicit enumeration of all
  label paths, and for time stamps the runs of labels on such a path. The weight of a context score is an arbitrary
  positive function.
- **Hotwords in CTC** (`ContextGraph`, `HotwordGraph`, `HotwordMerge`, `HotwordMatch`, `HotwordScores`). Contexts are
  folds of the graph over the tokens; the graph is compared with a reading of the words that knows no graph, and the
  scores are counted in characters.
- **Endpointing** (`VadSpec`, `VadRuns`, `VadShapes`, `Vad`). A pure state machine over speech/silence frames carries the
  claims about whole runs, and about where the segments of utterances begin and end; the classes with the program's
  fields are proved to compute it.
- **Two passes** (`Pcm`, `TwoPassSplit`, `TwoPassCall`). The protocol of the reports is the splitter's precondition, and
  is proved of the reports the endpointing model makes; one method runs both over any calls.
- **Hotword bias** (`SuffixTrie`, `HotwordTrie`, `BreadthFirst`, `ArcOrder`, `BiasScore`, `HotwordPayment`, `BiasLm`).
  States are named by the strings that lead to them; longest suffixes are defined on strings alone.
- **Front ends** (`Divisors`, `ResampleSpec`, `ResampleMeaning`, `Resample`, `LfrSpec`, `LfrEntries`, `Framing`, `FsmnVad`,
  `FsmnVadOnline`, `CifSpec`, `CifShares`, `Cif`). Each streaming object keeps, as ghost state, all input and all output
  so far, and its invariant says that the one is the batch image of the other; the batch is told sample by sample.
- **The rest** (`EditDistance`, `ComputeWer`, `TokenText`, `TokenReading`, `ItnTokenParser`, `Batching`), and the shared
  helpers (`Arithmetic`, `Sequences`, `FiniteSets`).

`dafny verify dfyconfig.toml` checks the whole project.

What the code does against its own expectations, as proved here:

- A hypothesis without mass but with tokens makes the stamp check of `UpdateResult` abort, and the check passes if and
  only if no such hypothesis is kept. Without pruning one is always kept from the second frame on; with positive
  probabilities and a second beam no wider than the first and the vocabulary, as by default, none ever is.
- The stamps of a token that may be repeated or new depend on the order in which the map of hypotheses is walked: they
  are always those of a label path, but not always of the best one.
- A hotword that is too long is skipped without counting it, so the hotwords behind it get the scores of their
  predecessors: a hotword gets its own score if and only if none before it is too long.
- A hotword that is begun and then abandoned leaves a start tag without an end tag; the tags pair up if and only if no
  hotword is abandoned or left unfinished.
- A segment opened on the very last frame is never closed, and it is the only one; fifteen speech frames and the end of
  the audio do it.
- `AllResetDetection` assigns local variables named like the buffer counters, so the counters survive a reset.
- Each streaming call is resampled by itself: the stream keeps its length, whatever comes next, if and only if the piece
  makes a whole number of samples.
- A streaming front-end call that has features but too few for a row puts them out unstacked: streaming equals batch if
  and only if that never happens.
- `BiasLmScore` pays a hotword only when the state reached is itself final. Every completed hotword is paid, on all
  labels, if and only if no hotword is a proper suffix of a prefix of a hotword.
- A weight of twice the firing threshold fires once more when its residual is restored in the next chunk.
- A token parser that is used again prints the tokens of earlier texts in front of the new ones.
- The value reader does not see a backslash right behind an escape as one; the exact class of values that survive is given.

## Model

| member | source | states |
|---|---|---|
| CtcPaths.PathsOnce | onnxruntime/src/ctc-prefix-decoder.cpp:154-157 | the enumeration of label paths contains every path of the given length over the vocabulary exactly once, so the sums below count each alignment once |
| CtcPaths.BlankMassStep | onnxruntime/src/ctc-prefix-decoder.cpp:180-190 | over exponentially many alignments, the mass of a prefix ending in blank after one more frame is its whole mass before times the blank probability (case 0) |
| CtcPaths.LabelMassStep | onnxruntime/src/ctc-prefix-decoder.cpp:191-244 | the mass of a prefix ending in its last label after one more frame is what a repeat keeps (case 1) plus what its parent passes on (cases 2 and 3) |
| CtcPaths.NoLabelMass | onnxruntime/src/ctc-prefix-decoder.cpp:169-246 | a prefix whose last label is not the frame's label receives no mass from it |
| CtcPaths.MassStart | onnxruntime/src/ctc-prefix-decoder.cpp:49-68 | before the first frame all mass is on the empty prefix, ending in blank |
| CtcPaths.CollapseStep | onnxruntime/src/ctc-prefix-decoder.cpp:180-231 | how one more label changes the collapsed prefix of a path: the case distinction behind the four update cases |
| ContextGraph.GetNextState | onnxruntime/src/context_graph.cpp:95-118 | the arc loop with its overwritten escape score finds the first arc for the word, or falls back to the start state with the escape score |
| ContextGraph.FoldUsable | onnxruntime/src/ctc-prefix-decoder.h:92-107 | the states and boundaries a context collects are always valid: states of the graph, and increasing positions of the hypothesis |
| CtcHypothesis.RepeatHasStamp | onnxruntime/src/ctc-prefix-decoder.cpp:197-201 | whenever case 1 replaces a time stamp there is one to replace: the check on line 200 cannot fail |
| CtcHypothesis.BlankEntry | onnxruntime/src/ctc-prefix-decoder.cpp:180-186 | case 0 adds exactly the blank share of one source hypothesis and takes its stamps over |
| CtcHypothesis.RepeatEntry | onnxruntime/src/ctc-prefix-decoder.cpp:191-203 | case 1 adds exactly the repeat share of one source hypothesis; the stamps are those of a path that leads there, with this frame as the last one |
| CtcHypothesis.LabelEntry | onnxruntime/src/ctc-prefix-decoder.cpp:209-237 | cases 2 and 3 add exactly the extension share of one source hypothesis; the stamps are those of a path that leads there, with this frame as the last one |
| CtcHypothesis.OrderDecidesStamps | onnxruntime/src/ctc-prefix-decoder.cpp:191-219 | for a repeated token and a longer path of less weight the order in which the map is walked decides which stamps are reported, while the Viterbi score is the same |
| CtcRuns.BlankAfter | onnxruntime/src/ctc-prefix-decoder.cpp:180-186 | a blank ends the run of the last token and moves no stamp |
| CtcRuns.RunGoesOn | onnxruntime/src/ctc-prefix-decoder.cpp:191-203 | a repeated label makes the run of the last token end one frame later, so its stamp has to move |
| CtcRuns.RunBegins | onnxruntime/src/ctc-prefix-decoder.cpp:209-237 | a new token begins a run of its own in this frame, and all others have ended |
| CtcHypothesis.StampsFit | onnxruntime/src/ctc-prefix-decoder.h:72-77 | a hypothesis with a Viterbi score above the floor reports one stamp per token, strictly increasing and below the current step |
| CtcInvariant.NewMassOk | onnxruntime/src/ctc-prefix-decoder.cpp:169-246 | if all hypotheses bound, or equal, their path sums before a frame, they do so after it, whatever is pruned |
| CtcInvariant.NewViterbiOk | onnxruntime/src/ctc-prefix-decoder.cpp:182-237 | Viterbi scores stay attained by real paths and, without pruning, maximal, through all update cases |
| CtcInvariant.SameSign | onnxruntime/src/ctc-prefix-decoder.h:73-77 | a hypothesis has mass exactly when it has a Viterbi path |
| CtcKeys.KeysBounded | onnxruntime/src/ctc-prefix-decoder.cpp:248-256 | a decoder holds at most 1 + (v-1) + (v-1)^2 + ... hypotheses over v labels, so a second beam of that size prunes nothing |
| CtcKeys.OnesUnreached | onnxruntime/src/ctc-prefix-decoder.cpp:209-219 | a prefix of n equal labels has no path over n >= 2 frames: the zero-mass entry that case 2 inserts |
| TopK.Select | onnxruntime/src/util.h:51-78 | the bounded queue returns exactly the first min(k, n) entries by value descending, then index ascending |
| TopK.TopKUnique | onnxruntime/src/util.h:41-48 | the order is total on entries, so that selection is unique and cannot depend on the heap's layout |
| TopK.SelectsAll | onnxruntime/src/ctc-prefix-decoder.cpp:159-167 | with a first beam as wide as the vocabulary every label is passed on |
| CtcPrefixDecoder.FrameDone | onnxruntime/src/ctc-prefix-decoder.cpp:169-246 | after both loops over labels and hypotheses every prefix has received each of its shares exactly once, in whatever order the map is walked |
| CtcPrefixDecoder.FrameMasses | onnxruntime/src/ctc-prefix-decoder.cpp:161-246 | one frame under any first beam: min(k, n) labels are passed on, none less probable than another, and every prefix gets exactly the masses those lead to |
| CtcPrefixDecoder.KeepSome | onnxruntime/src/ctc-prefix-decoder.cpp:248-259 | keeping any subset of the hypotheses keeps every invariant, and loses exactness only if something was dropped |
| CtcPrefixDecoder.FlushedState | onnxruntime/src/ctc-prefix-decoder.cpp:280-299 | flushing unfinished hotwords changes contexts only, never masses, paths or stamps |
| CtcPrefixDecoder.TaggedWords | onnxruntime/src/ctc-prefix-decoder.cpp:113-134 | the output with hotword tags is the hypothesis when the tags are left out |
| CtcPrefixDecoder.TagsStand | onnxruntime/src/ctc-prefix-decoder.cpp:113-134 | a start tag stands right before a word if and only if a hotword begins there, an end tag right behind it if and only if one ends there |
| CtcPrefixDecoder.CtcPrefixDecoder.UpdateOutputs | onnxruntime/src/ctc-prefix-decoder.cpp:113-134 | the two-cursor loop puts a tag exactly at each start and end boundary |
| CtcPrefixDecoder.CtcPrefixDecoder.UpdateHypotheses | onnxruntime/src/ctc-prefix-decoder.cpp:136-152 | the n-best lists describe the kept hypotheses one by one, without repeats |
| CtcPrefixDecoder.CtcPrefixDecoder.SecondBeam | onnxruntime/src/ctc-prefix-decoder.cpp:248-256 | the second beam returns the highest-scoring entries in descending order |
| CtcPrefixDecoder.CtcPrefixDecoder.PassFrame | onnxruntime/src/ctc-prefix-decoder.cpp:161-246 | the nested loops over the first beam and the hypotheses establish the state of the search for one more frame |
| CtcPrefixDecoder.CtcPrefixDecoder.DecodeFrame | onnxruntime/src/ctc-prefix-decoder.cpp:161-260 | one frame with both beams: what is kept, what is dropped scores no higher, and when nothing was pruned |
| CtcPrefixDecoder.CtcPrefixDecoder.CtcSearch | onnxruntime/src/ctc-prefix-decoder.cpp:157-263 | a whole call: the decoder stays valid over any runs of calls, every context up to the first flush is the flushed fold of the graph over the tokens, the lists are sorted, the text is that of the best hypothesis, the stamps are the last frames of the runs that emit the tokens on a label path of positive probability, and the stamp check passes if and only if every kept non-empty hypothesis has mass; with positive probabilities and a second beam no wider than the first and the vocabulary it always passes |
| CtcPrefixDecoder.CtcPrefixDecoder.CtcFinalizeDecode | onnxruntime/src/ctc-prefix-decoder.cpp:265-278 | the end of a call: contexts are flushed, nothing else changes, and the text of the first of the sorted hypotheses is returned with every word mark as a blank |
| CtcPrefixDecoder.CtcPrefixDecoder.UpdateFinalContext | onnxruntime/src/ctc-prefix-decoder.cpp:280-299 | every hypothesis in the middle of a hotword takes its escape arc, and the lists are sorted again |
| CtcPrefixDecoder.CtcPrefixDecoder.UpdateResult | onnxruntime/src/ctc-prefix-decoder.cpp:301-340 | results are aborted if and only if some kept non-empty hypothesis has no mass; otherwise there is one for each hypothesis, with its score, its text, and a piece for each token that ends at the token's stamp, the last frame of its run |
| CtcText.PiecesSpell | onnxruntime/src/ctc-prefix-decoder.cpp:311-332 | the two loops over a hypothesis agree: the pieces of a result spell its text |
| CtcText.ReplaceMarks | onnxruntime/src/ctc-prefix-decoder.cpp:269-276 | the find-and-replace loop turns exactly the word marks into blanks |
| CtcBeams.MasslessKept | onnxruntime/src/ctc-prefix-decoder.cpp:248-256 | keeping the best entries keeps one without mass if and only if fewer entries have mass than are kept, whatever the contexts weigh |
| CtcBeams.EnoughMass | onnxruntime/src/ctc-prefix-decoder.cpp:161-246 | if all hypotheses have mass and all probabilities are positive, a frame makes at least as many entries with mass as there are hypotheses or labels in the first beam, and from the empty prefix alone one for each label |
| CtcPrefixDecoder.CtcPrefixDecoder.StampsOfHypothesis | onnxruntime/src/ctc-prefix-decoder.cpp:180-237 | in every run, a kept hypothesis with mass has one increasing stamp per token, and the counts agree only for those and the empty one |
| CtcPrefixDecoder.CtcPrefixDecoder.StampsAreRuns | onnxruntime/src/ctc-prefix-decoder.cpp:180-237 | in every run, a kept hypothesis with mass has a label path of positive probability that collapses to it, ends in blank exactly if the blank score is the better one, and on which stamp i is the last frame of the run of token i |
| CtcPrefixDecoder.CtcPrefixDecoder.ScoresAreSums | onnxruntime/src/ctc-prefix-decoder.cpp:161-246 | without pruning, after any number of frames and calls, `s` and `ns` of every prefix are the sums over all its label paths |
| CtcPrefixDecoder.CtcPrefixDecoder.RankedByMass | onnxruntime/src/ctc-prefix-decoder.cpp:248-259 | without pruning the hypotheses are listed in the order of their sums over label paths, each times the weight of its context score |
| CtcPrefixDecoder.CtcPrefixDecoder.ScoresNeverExceed | onnxruntime/src/ctc-prefix-decoder.cpp:157-260 | with any beam sizes the two scores never exceed those sums |
| CtcPrefixDecoder.CtcPrefixDecoder.ViterbiAttained | onnxruntime/src/ctc-prefix-decoder.cpp:157-260 | with any beam sizes an above-floor Viterbi score is the weight of a label path that collapses to the prefix |
| CtcPrefixDecoder.CtcPrefixDecoder.ViterbiIsBest | onnxruntime/src/ctc-prefix-decoder.cpp:157-260 | without pruning no label path that collapses to the prefix weighs more |
| CtcPrefixDecoder.CtcPrefixDecoder.UnprunedHoldsUnreached | onnxruntime/src/ctc-prefix-decoder.cpp:209-219 | without pruning, from the second frame on, a prefix without any path is held, so the stamp check of a call aborts |
| HotwordGraph.BuildContextGraph | onnxruntime/src/context_graph.cpp:33-89 | the loop over the given hotwords, with its counter, its limit and its skips, and the arc-adding loops with their running escape score spell exactly the hotwords taken: each word arc has its word's score and each escape arc takes back exactly what the words before it scored |
| HotwordScores.HotwordWeighs | onnxruntime/src/context_graph.cpp:71-88 | the arcs that spell a hotword weigh its score for each character, plus the increment for each character and each word before it |
| HotwordScores.SingleCharactersWeigh | onnxruntime/src/context_graph.cpp:76-77 | a hotword of n words of one character weighs n times its score plus n (n - 1) / 2 times the increment |
| HotwordGraph.OwnScore | onnxruntime/src/context_graph.cpp:56-61 | a hotword looks up its own score if and only if none before it is skipped as too long, because the counter stands still for those |
| HotwordGraph.SkippedShiftsScores | onnxruntime/src/context_graph.cpp:56-61 | a concrete list in which a hotword gets the score of the too long one before it |
| HotwordMerge.MergedIsDeterminized | onnxruntime/src/context_graph.cpp:90-92 | chains have a determinized graph: states of equal names merged, one arc a label, every arc of a chain represented |
| HotwordMerge.ArcsAgree | onnxruntime/src/context_graph.cpp:90-92 | for prefix-free hotwords of equal score merging loses nothing: arcs of one label out of states of one name have one weight and lead to one name |
| HotwordMatch.HopIs | onnxruntime/src/context_graph.cpp:95-118 | where a word leads in the merged graph, told without the graph: it completes a hotword, continues one, or drops the one in progress and its score |
| HotwordMatch.ReadOk | onnxruntime/src/context_graph.cpp:95-118 | the completed spans found by reading words are hotwords, in order and disjoint |
| HotwordMatch.FoldInStep | onnxruntime/src/ctc-prefix-decoder.cpp:187-243 | the fold of `GetNextState` over the tokens is in step with that reading: same open hotword, same completed ones, and the score of both |
| HotwordMatch.ReadTagged | onnxruntime/src/context_graph.cpp:95-118 | a start tag stands wherever a hotword is begun: at each completed one, at the one in progress, and at each one dropped |
| HotwordMatch.OnlyCompletedCount | onnxruntime/src/ctc-prefix-decoder.cpp:280-291 | for prefix-free hotwords of equal score, after the final update only completed hotwords contribute to the context score, and each contributes in full; start and end tags pair up if and only if no hotword begun was dropped or left open |
| HotwordScores.FlushedScoreIs | onnxruntime/src/ctc-prefix-decoder.cpp:280-291 | after the final update the context score counts the characters of the completed hotwords: each is worth the score of its hotword, plus the increment for each word before it, which by default is zero |
| HotwordMatch.BuiltGraph | onnxruntime/src/context_graph.cpp:33-93 | the assumptions of that theorem hold of the graph that is built |
| HotwordMatch.DroppedLeavesTag | onnxruntime/src/context_graph.cpp:95-118 | a concrete sequence whose abandoned hotword leaves a start tag without an end tag |
| VadSpec.SlideSum | onnxruntime/src/e2e-vad.h:234-262 | one frame changes the number of speech frames in the window by at most one |
| VadSpec.StepOk | onnxruntime/src/e2e-vad.h:670-781 | every frame keeps the segments non-empty, ordered and disjoint with only the last possibly open; an open segment has every frame but those held back by silence |
| VadRuns.StepShort | onnxruntime/src/e2e-vad.h:670-781 | with fixed settings no segment exceeds max(max_frames + 1, latency_frames + 2) frames |
| VadRuns.StepExtends | onnxruntime/src/e2e-vad.h:461-570 | closed segments never change and an open one keeps its start |
| VadRuns.FinalFrameCloses | onnxruntime/src/e2e-vad.h:688-694 | the final frame leaves a segment open if and only if it is the frame that opens it |
| VadRuns.NeverClosed | onnxruntime/src/e2e-vad.h:685-694 | an utterance of at most one window that has not reached speech before its last frame leaves a segment open if and only if exactly the threshold number of its frames are speech |
| VadRuns.OnlySpeechStaysOpen | onnxruntime/src/e2e-vad.h:685-694 | a concrete utterance: fifteen speech frames and the end |
| VadShapes.SegmentEndsInSilence | onnxruntime/src/e2e-vad.h:745-776 | wherever the window leaves speech and stays out of it, the segment is closed by the frame that fills the end-silence time, and ends the look-ahead and one frame behind the one that left speech, or with the silence if that is shorter |
| VadShapes.SpeechCut | onnxruntime/src/e2e-vad.h:696-744 | speech that lasts too long, or until the end of the audio, ends its segment with that very frame |
| VadShapes.OneUtterance | onnxruntime/src/e2e-vad.h:670-781 | any utterance of silence, speech and silence is one segment, from the look-back before the window turned to speech until the look-ahead behind it left it; that is what is reported, online or at once |
| VadShapes.SecondOfSpeech | onnxruntime/src/e2e-vad.h:670-781 | a concrete utterance and its report in milliseconds |
| VadRuns.RunConcat | onnxruntime/src/e2e-vad.h:641-668 | a run over frames may be cut into calls anywhere |
| VadRuns.RunFromStart | onnxruntime/src/e2e-vad.h:641-781 | every run from a fresh model: segments non-empty, ordered, disjoint, within the frames, short enough, and all but the last closed |
| VadRuns.OnlineTells | onnxruntime/src/e2e-vad.h:320-355 | the online reporting loop tells exactly the segments not told yet, each start and end once |
| VadRuns.CallsAreOneRun | onnxruntime/src/e2e-vad.h:302-361 | the machine after any sequence of calls is that of one run over all frames |
| VadRuns.OnlineIsOffline | onnxruntime/src/e2e-vad.h:320-360 | however frames are cut into calls, the stitched online reports are the one-call offline segments; only a start opened on the final frame stays without an end, and then it is told as such |
| Vad.WindowDetector.DetectOneFrame | onnxruntime/src/e2e-vad.h:234-262 | the circular buffer with its running sum is the sliding window |
| Vad.E2EVadModel.PopDataBufTillFrame | onnxruntime/src/e2e-vad.h:461-469 | with enough audio buffered the popping loop ends at the requested frame |
| Vad.E2EVadModel.PopDataToOutputBuf | onnxruntime/src/e2e-vad.h:471-522 | every pop extends its segment contiguously: the "Something wrong" branch is unreachable |
| Vad.E2EVadModel.OnVoiceStart | onnxruntime/src/e2e-vad.h:538-550 | a segment starts once; the "not reset vad properly" branch is unreachable |
| Vad.E2EVadModel.OnVoiceEnd | onnxruntime/src/e2e-vad.h:553-570 | a segment ends once, with all its frames caught up; the "not reset vad properly" branch is unreachable |
| Vad.E2EVadModel.DetectOneFrame | onnxruntime/src/e2e-vad.h:670-781 | the handler code with its fields computes one step of the state machine |
| Vad.E2EVadModel.ReportSegments | onnxruntime/src/e2e-vad.h:320-355 | the reporting loop computes the online, or the offline, reports of the segments |
| Vad.E2EVadModel.AllResetDetection | onnxruntime/src/e2e-vad.h:394-423 | after the last call detection starts afresh, while the buffer counters survive because the program assigns local variables of their names |
| Vad.E2EVadModel.Detect | onnxruntime/src/e2e-vad.h:302-361 | one call of `operator()`: its reports and the new state are those of the abstract run over its frames |
| Pcm.SampleBytes | onnxruntime/src/audio.cpp:841-844 | the two bytes of a sample are its little-endian two's complement, and no other two |
| Pcm.Decode | onnxruntime/src/audio.cpp:829-846 | sample i is made of bytes 2i and 2i + 1; normalized samples lie in [-1, 1) |
| Pcm.WavResample | onnxruntime/src/audio.cpp:259-284 | the filter settings meet what the resampler demands, and its one flushed call gives the resampling of the piece |
| Pcm.PiecesKeepLength | onnxruntime/src/audio.cpp:847-850 | resampling call by call keeps the number of samples, whatever comes next, if and only if the piece makes a whole number of output samples |
| Pcm.SplitCallsAddSample | onnxruntime/src/audio.cpp:847-850 | a concrete pair of calls from 48 kHz to 16 kHz that gives two samples where one call gives one |
| TwoPassSplit.Audio.LoadPcmwavOnline | onnxruntime/src/audio.cpp:821-861 | the bytes become samples, resampled if the rate differs, and are appended to the retained buffer; their length is queued, and nothing served or in progress is disturbed |
| TwoPassSplit.Audio.CopySamples | onnxruntime/src/audio.cpp:1285-1421 | a copy stays inside the sliding buffer and yields exactly those samples of the stream |
| TwoPassSplit.Audio.PushChunk | onnxruntime/src/audio.cpp:1272-1290 | when a whole chunk of the segment in progress has arrived exactly that chunk, of exactly that length, goes online, otherwise nothing |
| TwoPassSplit.Audio.WholeSegment | onnxruntime/src/audio.cpp:1301-1328 | a segment in one report gives one final online chunk and one offline frame with exactly its samples |
| TwoPassSplit.Audio.SegmentEnds | onnxruntime/src/audio.cpp:1353-1404 | a segment that ends gives an offline frame with exactly its samples, and online chunks that are contiguous, end in exactly one final chunk and begin with its samples, each added one of the chunk length or final and at most one sample longer; the missing-start branch is unreachable |
| TwoPassSplit.Audio.PushRest | onnxruntime/src/audio.cpp:1377-1400 | the loop with its shrinking step sends the rest of a segment in contiguous chunks of exactly the chunk length, but for the last one, which is final and at most one sample longer |
| TwoPassSplit.Audio.HandleReports | onnxruntime/src/audio.cpp:1291-1406 | all reports of a call: the segments served are the stitched reports, the queues grow by exactly their chunks and frames, and every chunk has the chunk length unless it is final or its segment came in one report |
| TwoPassSplit.Audio.EraseSamples | onnxruntime/src/audio.cpp:1408-1424 | what is erased leaves two seconds before the end of the audio, or before the segment in progress |
| TwoPassSplit.Audio.Split | onnxruntime/src/audio.cpp:1257-1425 | one call of the splitter keeps all of that over any sequence of calls; while the chunk length stays the same, every segment that came in two reports is cut to it |
| TwoPassSplit.AddChunk | onnxruntime/src/audio.cpp:1385-1396 | a chunk that starts where the last one ended keeps the chunks contiguous and their samples a prefix of the segment's |
| TwoPassSplit.ChunkStarts | onnxruntime/src/audio.cpp:1377-1396 | chunk i of a segment that came in two reports starts i chunk lengths behind its start, and only the last one has another length |
| TwoPassCall.CallProtocol | onnxruntime/src/e2e-vad.h:320-355 | the reports of every online call are well bracketed, go on from the segment left open before, start at most the look-back before the call's first frame and end within its frames |
| TwoPassCall.TwoSecondsSuffice | onnxruntime/src/audio.cpp:1408-1424 | if the detector lags at most 1.6 s behind the audio, every start it reports lies within the two seconds the splitter retains |
| TwoPassCall.ReportsFit | onnxruntime/src/audio.cpp:1257-1262 | with bounded lag the reports of every online call meet the splitter's precondition: their protocol, and all starts within the retained audio |
| TwoPassCall.TpassInfer | onnxruntime/src/funasrruntime.cpp:524-536 | audio, detector and splitter together, over any calls with bounded lag: the splitter never meets a report it cannot serve, and the segments served are exactly the spans told |
| SuffixTrie.LongestIsLongest | onnxruntime/src/bias-lm.cpp:92-112 | the reference: the longest suffix of a string that is in the trie, is a suffix, is in the trie, and no suffix in the trie is longer |
| SuffixTrie.Absorb | onnxruntime/src/bias-lm.cpp:102-112 | only the longest suffix read so far matters for the next label |
| SuffixTrie.BackOff | onnxruntime/src/bias-lm.cpp:151-178 | backing off from a state without an arc for the label loses nothing |
| HotwordTrie.Determinize | onnxruntime/src/bias-lm.cpp:38-58 | merging the prefix tree gives the trie of all hotword prefixes, one state each, with the least weight given to each hotword |
| HotwordTrie.FinalWeightIsLeast | onnxruntime/src/bias-lm.cpp:50-58 | a final weight is the least weight given to that hotword |
| HotwordTrie.Lookup | onnxruntime/src/bias-lm.cpp:67-70 | a state has an arc for a label if and only if the longer string is in the trie, and the arc leads there |
| BreadthFirst.NewChild | onnxruntime/src/bias-lm.cpp:92-119 | breadth first no state is queued twice |
| BreadthFirst.ShallowQueued | onnxruntime/src/bias-lm.cpp:92-119 | when a state is expanded all states that are not deeper already have their back-off state |
| BreadthFirst.AllQueued | onnxruntime/src/bias-lm.cpp:92-119 | when the queue is empty every state has been reached |
| ArcOrder.SortFinds | onnxruntime/src/bias-lm.cpp:121 | sorting arcs by label keeps what every lookup finds |
| ArcOrder.ZeroFirst | onnxruntime/src/bias-lm.cpp:121-164 | after sorting the back-off arc is the first arc of its state |
| BiasLm.BiasLm.FindBackOff | onnxruntime/src/bias-lm.cpp:101-112 | the failure loop ends in the state of the longest suffix that can be extended by the label |
| BiasLm.BiasLm.LinkChildren | onnxruntime/src/bias-lm.cpp:93-119 | expanding a state gives each child its longest proper suffix in the trie as back-off state; only the back-off arc itself is skipped |
| BiasLm.BiasLm.BuildGraph | onnxruntime/src/bias-lm.cpp:31-123 | the finished automaton: trie of the hotwords, node scores, back-off states that are longest proper suffixes, back-off arcs first and weighted by the lost score, or by zero out of final states |
| BiasLm.BiasLm.BiasLmScore | onnxruntime/src/bias-lm.cpp:125-183 | terminates and moves from string u on label x to the longest suffix of u x in the trie; the score is the increment per level gained or lost, plus what final states keep, plus the weight of the state reached if it is itself final; an invalid label scores zero and leaves the caller's state |
| BiasScore.TotalScore | onnxruntime/src/bias-lm.cpp:139-182 | over any valid labels from the root, the state is the longest suffix of all of them, and the total is increment times depth, plus final weights arrived at, plus increment times depth lost at back-offs out of final states |
| BiasScore.FailedMatchesAreRefunded | onnxruntime/src/bias-lm.cpp:113-117 | labels that contain no hotword earn exactly increment times the hotword prefix they end in: every failed partial match has been refunded |
| HotwordPayment.ReachedIffNoInner | onnxruntime/src/bias-lm.cpp:143-150 | every hotword that ends in the labels is the state reached, for all labels, if and only if no hotword is a proper suffix of a prefix of a hotword |
| HotwordPayment.ArrivalIsEndWeight | onnxruntime/src/bias-lm.cpp:145-150 | on such lists a step pays exactly the weight of the hotword that ends there, if one does |
| HotwordPayment.EveryOccurrenceIsPaid | onnxruntime/src/bias-lm.cpp:143-150 | on such lists the weights paid over any labels are those of all occurrences of hotwords |
| HotwordPayment.PaidIffNoInner | onnxruntime/src/bias-lm.cpp:143-150 | with positive weights, every occurrence is paid on all labels if and only if the list is such |
| HotwordPayment.PaidAtMost | onnxruntime/src/bias-lm.cpp:143-150 | on any list no more than the weights of the hotwords that end there is paid |
| HotwordPayment.SuffixHotwordIsNotPaid | onnxruntime/src/bias-lm.cpp:145-150 | a concrete list and labels where a completed hotword is not paid |
| Divisors.Gcd | onnxruntime/src/resample.cpp:43-63 | for any two numbers, not both zero and of either sign, the two-remainder loop ends with the greatest common divisor of their absolute values |
| Divisors.Lcm | onnxruntime/src/resample.cpp:65-73 | a common multiple that divides every other one, so that the tick frequency is the smallest for both rates |
| ResampleSpec.NumOutIs | onnxruntime/src/resample.cpp:220-265 | the tick arithmetic counts exactly the output samples whose window (with flush, whose centre) lies inside the input |
| ResampleSpec.WindowShift | onnxruntime/src/resample.cpp:268-279 | the window of every output sample is that of its place in the unit, shifted by whole units |
| ResampleSpec.WindowInSeconds | onnxruntime/src/resample.cpp:110-123 | the table computed in seconds is the ceiling and floor formula in input samples |
| ResampleSpec.WeightShift | onnxruntime/src/resample.cpp:124-129 | the weights are periodic as well |
| ResampleSpec.RemainderLongEnough | onnxruntime/src/resample.cpp:281-289 | no window of a sample still to be put out begins before the remainder |
| ResampleSpec.RemainderIsWindow | onnxruntime/src/resample.cpp:288-289 | the remainder is as long as the window is wide |
| ResampleSpec.MoreInputOuts | onnxruntime/src/resample.cpp:172-209 | samples put out without flush do not depend on later input |
| ResampleSpec.NumOutGrows | onnxruntime/src/resample.cpp:163-168 | more input or a flush never takes output back: the assertion on line 166 holds |
| ResampleMeaning.WindowIs | onnxruntime/src/resample.cpp:110-123 | an input sample is in the window of an output sample if and only if the two are no further apart in time than the zero crossings reach |
| ResampleMeaning.OutIs | onnxruntime/src/resample.cpp:104-132 | an output sample is the signal in its window, weighed by the filter at the delay, divided by the input rate |
| ResampleMeaning.ImpulseResponse | onnxruntime/src/resample.cpp:124-130 | an impulse gives the filter at its delay over the input rate in every output sample whose window it lies in, and nothing in the others |
| ResampleMeaning.ConstantStays | onnxruntime/src/resample.cpp:124-130 | a constant stays what it is where the window lies inside the input and the filter over it sums to the input rate |
| Resample.LinearResample.SetIndexesAndWeights | onnxruntime/src/resample.cpp:104-132 | the table holds the windows and weights of one unit |
| Resample.LinearResample.GetNumOutputSamples | onnxruntime/src/resample.cpp:220-265 | the division with its open-end correction is that count |
| Resample.LinearResample.GetIndexes | onnxruntime/src/resample.cpp:268-279 | the table entry shifted by the unit index is the direct formula for every output sample |
| Resample.LinearResample.EdgeSample | onnxruntime/src/resample.cpp:188-203 | what the edge loop reads is the signal, silent outside; past the end of the input only when flushing |
| Resample.LinearResample.OneSample | onnxruntime/src/resample.cpp:172-209 | one output sample is the whole window over the whole signal, on the fast path and on the edge path |
| Resample.LinearResample.SetRemainder | onnxruntime/src/resample.cpp:281-306 | the remainder is the end of the signal so far |
| Resample.LinearResample.Resample | onnxruntime/src/resample.cpp:161-218 | all output so far is the output for all input so far: pieces put together equal one flushed call on the whole |
| Framing.FrameNumIs | onnxruntime/src/fsmn-vad-online.h:52-58 | the frame count is the number of windows that lie inside the samples |
| Framing.FeatIs | onnxruntime/src/fsmn-vad-online.cpp:14-19 | frame i is made of the window i shifts behind the start |
| Framing.FeatsFrom | onnxruntime/src/fsmn-vad-online.cpp:14-19 | the frames of the cached rest of a signal are the later frames of the whole signal |
| Framing.FeatsMore | onnxruntime/src/fsmn-vad-online.cpp:14-19 | more samples leave the frames so far alone |
| Framing.FeatsTrimmed | onnxruntime/src/fsmn-vad-online.cpp:23-24 | cutting off what lies after the last window changes no frame |
| LfrSpec.RowsSuffix | onnxruntime/src/fsmn-vad.cpp:209-230 | rows of the frames kept from row c on are the later rows of all frames |
| LfrSpec.RowsMore | onnxruntime/src/fsmn-vad.cpp:209-216 | complete rows do not change when more frames arrive |
| FsmnVad.LfrCmvn | onnxruntime/src/fsmn-vad.cpp:198-238 | the batch version: left and right padding, ceil(T / lfr_n) rows, each normalized |
| LfrEntries.EntryIs | onnxruntime/src/fsmn-vad.cpp:198-238 | every entry of every row, told of the feature frames: the frame it comes from, held at both ends, plus the mean, times the variance |
| FsmnVadOnline.Advance | onnxruntime/src/fsmn-vad-online.cpp:89-120 | in a call that is not the last exactly the complete rows go out and the frames from the next row on are kept |
| FsmnVadOnline.Finish | onnxruntime/src/fsmn-vad-online.cpp:89-120 | the last call puts out exactly the rows that are left of the batch |
| FsmnVadOnline.OneFrameFails | onnxruntime/src/fsmn-vad-online.cpp:65-70 | a concrete utterance of one frame for which streaming and batch differ |
| FsmnVadOnline.FsmnVadOnline.FbankKaldi | onnxruntime/src/fsmn-vad-online.cpp:11-42 | however samples are cut into calls, the frames so far are those of the whole signal so far |
| FsmnVadOnline.FsmnVadOnline.OnlineLfrCmvn | onnxruntime/src/fsmn-vad-online.cpp:89-132 | the row loop with its break puts out the complete (in the last call, all) rows and keeps the right frames |
| FsmnVadOnline.FsmnVadOnline.ExtractFeats | onnxruntime/src/fsmn-vad-online.cpp:44-87 | after the last call the concatenated output equals the batch rows of the whole signal if and only if every call with features passed the size test |
| CifSpec.RunConcat | onnxruntime/src/paraformer-online.cpp:306-327 | integrate-and-fire over a stream may be cut anywhere |
| CifSpec.RunOk | onnxruntime/src/paraformer-online.cpp:306-327 | with weights in [0, threshold] the residual stays in [0, threshold) |
| CifSpec.Conservation | onnxruntime/src/paraformer-online.cpp:306-327 | total weight is threshold times fires plus residual, and the weighted vectors are the fired ones plus what is still integrated |
| CifShares.EachFireIsFull | onnxruntime/src/paraformer-online.cpp:306-327 | every single fired vector is made of the items' vectors with shares that add up to the threshold, none above its item's weight, and what is held back with shares that add up to the residual |
| CifSpec.CachedRestores | onnxruntime/src/paraformer-online.cpp:329-340 | integrating the cached average with its weight gives the accumulator back and fires nothing if and only if the residual is below the threshold |
| CifSpec.HeavyWeightFiresAgain | onnxruntime/src/paraformer-online.cpp:312-340 | a weight of twice the threshold leaves a residual that fires once more in the next chunk |
| CifSpec.ChunkContinues | onnxruntime/src/paraformer-online.cpp:290-340 | a chunk that begins with the cached item goes on exactly where the stream was cut |
| Cif.ParaformerOnline.Integrate | onnxruntime/src/paraformer-online.cpp:301-327 | the loops over frames and components compute that run |
| Cif.ParaformerOnline.CifSearch | onnxruntime/src/paraformer-online.cpp:270-345 | a chunk of any weights is one run from the cached item; however the stream is cut into chunks, as long as no weight exceeds the threshold the vectors fired are those of one run over the concatenated masked weights |
| EditDistance.DistIsMinimal | utils/compute-wer.py:122-149 | the distance is a lower bound for the cost of every alignment |
| EditDistance.RestCosts | utils/compute-wer.py:122-149 | no alignment of the rest is cheaper than the distance still missing |
| EditDistance.SumUpdate | utils/compute-wer.py:154-180 | counting an edit for a token changes the sum over all tokens by exactly that edit |
| ComputeWer.Calculator.Initialize | utils/compute-wer.py:96-113 | whatever earlier calls left in the table, its border is right and the rest is cleared |
| ComputeWer.Calculator.Entry | utils/compute-wer.py:126-149 | an entry is the minimum of its three neighbours and records an edit that attains it |
| ComputeWer.Calculator.ComputeDistances | utils/compute-wer.py:122-149 | the nested loops fill in the true distances of all prefixes |
| ComputeWer.Calculator.TraceBack | utils/compute-wer.py:150-198 | the traceback ends, with columns that align both lists at the distance and are counted as they are |
| ComputeWer.Calculator.Calculate | utils/compute-wer.py:95-198 | after any earlier calls: an alignment that projects to both lists and is as cheap as any, sub + del + ins equal to the distance, cor + sub + del to the reference length |
| ComputeWer.Calculator.Overall | utils/compute-wer.py:200-208 | the overall counts are the sum of all results so far |
| ComputeWer.Calculator.Cluster | utils/compute-wer.py:210-219 | the counts of a list of tokens, unknown ones counting nothing |
| TokenText.CanonPrints | onnxruntime/src/itn-token-parser.h:45-64 | a token reduced to its printed keys in printed order prints as the original does |
| TokenText.TableOrderWins | onnxruntime/src/itn-token-parser.h:45-64 | of two keys of a token that its table entry lists, the one listed first is printed first, with its own value |
| TokenText.OnlyTableKeys | onnxruntime/src/itn-token-parser.h:45-64 | of a token with a table entry exactly the listed keys are printed |
| TokenText.CleanIsReadBack | onnxruntime/src/itn-token-parser.cpp:109-124 | a value is read back as printed if and only if every quote in it follows an active backslash and none is active at its end |
| TokenText.PlainIsClean | onnxruntime/src/itn-token-parser.cpp:109-124 | values without quotes and backslashes are |
| TokenText.TwoEscapesFail | onnxruntime/src/itn-token-parser.cpp:114-121 | a value with two adjacent escapes is cut short |
| TokenText.ReorderTwice | onnxruntime/src/itn-token-parser.cpp:148-155 | printing reordered tokens again in the same orders gives the same text |
| ItnTokenParser.TokenParser.ParseValue | onnxruntime/src/itn-token-parser.cpp:109-124 | the reader takes exactly the value up to its closing quote, escapes as the code treats them |
| TokenReading.FieldsOfPrinted | onnxruntime/src/itn-token-parser.cpp:131-143 | reading the entries of a printed token, from any one on, gives the token and stops behind its brace |
| TokenReading.PrintedIsRead | onnxruntime/src/itn-token-parser.cpp:126-146 | text printed from tokens with letters as names and keys and clean values is read as those tokens, with their printed keys in printed order |
| TokenReading.ReorderPrinted | onnxruntime/src/itn-token-parser.cpp:148-155 | what a new parser puts together from printed text is the same tokens in the orders of its table |
| TokenReading.SecondReorder | onnxruntime/src/itn-token-parser.cpp:148-155 | a parser that has reordered one text prints it again in front of the next, so on one parser reordering is never idempotent |
| ItnTokenParser.TokenParser.ParseToken | onnxruntime/src/itn-token-parser.cpp:127-144 | the loops over entries, keys and values read what the grammar of the text says |
| ItnTokenParser.TokenParser.Parse | onnxruntime/src/itn-token-parser.cpp:126-146 | on every text on which the reader neither aborts nor reads on forever, exactly the tokens of that text are added to those held |
| ItnTokenParser.TokenParser.TokenString | onnxruntime/src/itn-token-parser.h:45-64 | the printer prints present keys in the order of the table, or in the token's own |
| ItnTokenParser.TokenParser.Reorder | onnxruntime/src/itn-token-parser.cpp:148-155 | whatever tokens the parser holds, those of the input are added and all are printed in the orders of the table, which the tokens take over |
| Batching.SortByLength | onnxruntime/src/audio.cpp:1226-1239 | the index vector is a permutation that sorts the segments by length |
| Batching.Occurs | onnxruntime/src/audio.cpp:1226-1239 | every segment occurs in the index vector |
| Batching.Audio.CutSplit | onnxruntime/src/audio.cpp:1170-1240 | the segments are the stitched reports and are queued in sorted order |
| Batching.Audio.FetchDynamic | onnxruntime/src/audio.cpp:1052-1108 | a fetch takes at least one frame from the front of a non-empty queue, stops short of the batch size only when the next frame does not fit, and a batch of several stays within the padded limit |
| Batching.BatchMeans | onnxruntime/src/audio.cpp:1069-1083 | a batch is one frame, or several of less than a minute each of which, as often as there are frames, stays within five minutes |
| Batching.FullMeans | onnxruntime/src/audio.cpp:1069-1083 | exactly when a frame does not fit: with it, some frame lasts a minute or exceeds five minutes as often as there are frames |
| Batching.Audio.Drain | onnxruntime/src/funasrruntime.cpp:258-290 | the drain loop ends, its batches are the queue cut into pieces, and each reply goes where the index vector says |
| Batching.Audio.MessageOfSegment | onnxruntime/src/funasrruntime.cpp:269-281 | message k is the reply to segment k with its own start, and the segment was fetched exactly once |

## Left out

- Floating point rounding, 32-bit and 64-bit casts and overflow: numbers are exact integers and reals.
- Neural networks, filter banks, decoding graphs, audio decoding, configuration files, logging and memory ownership.
- OpenFst: `Determinize` is a specification (context graph) or merges while inserting (bias trie, where all arcs weigh the same and no residual weights arise); lookups of matchers are exact; hotword labels are positive.
- CTC in the log domain: `LogAdd` is modelled as addition of linear probabilities; the exponential weight of a context score is a positive function and a parameter.
- CtcPrefixDecoder.CtcPrefixDecoder.CtcSearch: contexts are stated up to the first flush of an utterance, because a flushed context goes on from the start state while the fold over the tokens does not.
- CtcPrefixDecoder.CtcPrefixDecoder.StampsAreRuns: the stamps are those of some label path of positive probability, as the code may keep those of a path that is not the best (`CtcHypothesis.OrderDecidesStamps`).
- HotwordMatch.OnlyCompletedCount: prefix-free hotwords of equal score, as only then does the merged graph have one score per word.
- HotwordGraph.BuildContextGraph: trimming of hotwords and their splitting into UTF-8 words are inputs, as are the word lengths; the exact weights that determinization distributes for other hotword lists are not modelled.
- Endpointing works on speech/silence decisions: decibels, signal-to-noise thresholds and `GetFrameState` are inputs; the -100 thresholds make the early return on silence unreachable.
- Single-utterance mode, offline reports before the last call, and sample counts that only feed diagnostics.
- Endpointing options are the defaults of `VADXOptions`; end silence, longest segment and sample rate are those of each call.
- Vad.E2EVadModel.Detect: requires audio for all frames counted, because otherwise the popping loop of the source never ends.
- TwoPassSplit.Audio.Split: requires the report protocol, starts in the retained and ends in the received audio, and chunks of whole milliseconds; the reports come in as a parameter where the source calls the detector. `TwoPassCall.TpassInfer` discharges these for the reports of the endpointing model.
- TwoPassSplit.Audio.constructor: the sample rate is a multiple of 1000, so that a millisecond is a whole number of samples; the source divides and drops the remainder.
- The lag of 1.6 s in `TwoPassCall.TwoSecondsSuffice` is a hypothesis; the delay of the front end that causes it is not computed.
- BiasLm.BiasLm.BiasLmScore: the caller's new state is passed in and out, as the source leaves it unassigned for labels it does not score.
- Vocabulary lookups that turn hotword text into labels, and the configuration of the increment weight.
- The filter function of the resampler is an arbitrary function of time.
- The samples the streaming front end hands on with the features (`reserve_waveforms_`): they only feed the decibel computation.
- Splitting, positional encoding and overlap of chunks before integrate-and-fire.
- Cif.ParaformerOnline.CifSearch: a chunk is non-empty and as long as its weights, as the encoder makes it; an empty one would lose the vector held back.
- ComputeWer.Calculator.Calculate: works on copies, where the source inserts an empty token in front of the caller's two lists; the tables must be smaller than `sys.maxsize`; tokens are non-empty.
- Text normalization, clustering by Unicode names and report formatting of the error rate script.
- ItnTokenParser.TokenParser.Parse: texts on which the source neither aborts nor reads on forever (`TokenReading.ReadTokens`); UTF-8 decoding is left out, text is a sequence of characters.
- CtcText.ReplaceMarks: the word mark is one character, where the source has its three bytes.
- Pcm.WavResample: what resampling piece by piece does to the samples at the joints is not stated, only to their number.
- Batching.Audio.Drain: the recognizer replies with one message per frame of the batch; what it replies is arbitrary.
- `std::sort` and the priority queue are modelled by what they return.
- Lattice decoding, punctuation, timestamp smoothing, websocket servers and clients, and copies of the same code in other recognizers.
