# Verified models of whisper.cpp and stb_vorbis algorithms

This project models, in Dafny, the algorithmic core of the vendored `whisper_cpp` tree: the parts whose
correctness rests on an argument rather than on reading one function. Each part is an executable method in
the form of the source (arrays and fields updated in place, loops with invariants, recursion with a measure),
proved against a specification that does not mention the method, and theorems about that specification.

`dafny verify dfyconfig.toml` checks all of it.

## What is modelled

**Vorbis codebooks** (`Bits`, `HuffmanCode`, `Codebook`, `CodebookTables`, `CodebookFast`, `BitStream`,
`CodebookDecode`, `CodebookLimits`). A code is a list of address blocks; the rule of section 3.2.1 of the Vorbis I
specification ("the lowest unused codeword of each length, in order of entry") is the definition, and the
array of 32 free leaves is proved to implement it. The fast table, the binary search over reversed codewords
and the linear scan are proved to find the one symbol whose codeword comes next in the packet, and
`CodebookLimits` says for exactly which books.

**Vorbis floor curves** (`FloorCurve`). The accumulator line against the closed form, the amplitudes against
their predictions, and the whole curve: every sample is multiplied once, by the right entry.

**Grammars** (`GrammarSyntax`, `GrammarSegments`, `GrammarMeaning`, `SymbolNames`, `GrammarTokens`,
`GrammarParser`, `GrammarCompiler` for the compiler; `Grammar`, `GrammarEngine`, `GrammarAccept`,
`GrammarRecursion`, `GrammarFilter`, `Utf8`, `GrammarSampler` for the recogniser; `GrammarEndToEnd` for both). The
meaning of a written grammar is defined on its syntax tree, the language of the flat rules by derivations, and the
language of a stack by splitting words. Compilation preserves the meaning, the engine follows it, accepting a
character is the derivative, and the batched filter agrees with stepping.

**Decoding** (`KvCache`, `BeamDecoding`, `BeamState`, `Timestamps`, `Sampling`, `Transcription`,
`Segments`). The attention cache is one array of cells tagged with sequence ids. The central invariant says what its
cells hold in terms of texts, including what each token could see when it was evaluated. The main loop is proved to
move on and to end, from the masks alone.

**Numeric and sequence algorithms** (`Fourier`, `Dtw`, `VadSegments`, `VadSplits`, `VadCoverage`, `TimeMapping`,
`EditDistance`, `AudioCapture`).

## Where the code does not do what one would expect

These are theorems of the model. Each names an input at which the expected statement fails, and the exact
condition under which it holds.

* A codeword can be read wherever it comes next if and only if it has at most 25 bits, because topping up the
  accumulator stops there (`CodebookLimits.ReadableExact`). The decoding theorems are stated for every length, with
  the codewords that are readable.
* A codebook that is searched by bisection is read rightly at every state of the reader if and only if its code is
  complete and the fast table reaches all short codewords, that is, none has an index of 32767 or more
  (`CodebookLimits.DecodingExact`). `CodebookLimits.IncompleteBook` and `CodebookLimits.UnreachedBook` set up books
  for which it is not.
* The partial-character test on negated classes is only conservative (`GrammarFilter.NegatedPartialRejectsViable`);
  `GrammarFilter.NegatedPartialExactness` says when it is exact.
* With no stacks left the filter rejects nothing, although nothing can be continued
  (`GrammarFilter.NoStacksRejectsNothing`).
* Following references does not end on a grammar in which a rule reaches itself at the left
  (`GrammarRecursion.TerminationExact`), and repeating what can be empty compiles to such a grammar
  (`GrammarRecursion.NestedStarLoops`, `GrammarRecursion.RepetitionLoops`). Compiler and engine compose when there
  is none (`GrammarRecursion.RankingExact`, `GrammarEndToEnd.SampledAsWritten`).
* An empty character class in a written grammar is compiled to the empty word (`GrammarMeaning.ClassExact`).
* Dynamic time warping takes the third neighbour when the first two tie below it, so the path found need not
  be the cheapest (`Dtw.TieMisleads`); `Dtw.TableMinimal` is the exact condition for the table.
* With a speech threshold below 0.01 a window can be speech and silence at once, and a segment can end just before
  its last window of speech (`VadCoverage.LowThresholdMisses`). `VadCoverage.CoverageExact` says for which
  parameters every sample of every window of speech is covered, whatever the probabilities.
* A first segment of text without a timestamp in front starts at the likeliest timestamp of its first token, which
  can lie after its end (`Segments.FirstBackward`); `Segments.ForwardExact` says when all segments go forward.
* If all timestamps are masked for the first token, as when they are switched off, greedy sampling gives it none, and
  a first segment of text starts long before the window (`Segments.FirstBefore`); `Segments.InsideExact` says when all
  segments start in the window, and `Sampling.GreedyInside` in terms of the masks.
* With a single decoder and a text context that is a multiple of 256 the cache is one cell too small for the longest
  prompt and all rounds (`BeamStates.RoomExact`); otherwise a slot is always found
  (`BeamStates.BeamState.DecodeWindow`).
* A decoded floor value of the range or more takes an amplitude out of the range; one that is missing stands for its
  prediction (`FloorCurve.UnwrapExact`, `FloorCurve.RangeExact`).
* If the increment of the temperature is positive and the first temperature is not below the bound, the list of
  temperatures is empty (`Transcription.NoTemperatures`); exactly then the first window asks an empty prompt for
  its first token (`Transcription.Transcriber.Run`).

## Model

| member | source | states |
|---|---|---|
| Bits.BitReverse | whisper_cpp/src/examples/stb_vorbis.c:1010-1017 | the five mask-and-swap stages put bit i at bit 31 - i; Reversed is defined bit by bit, not by masks |
| Bits.RevInvolution | whisper_cpp/src/examples/stb_vorbis.c:1010-1017 | reversing the low m bits twice gives them back |
| HuffmanCode.SplitPool | whisper_cpp/src/examples/stb_vorbis.c:1107-1127 | the invariant of the code construction: giving out the deepest fitting free leaf keeps at most one free leaf per level, the addresses falling with depth, and assigned plus free measure at the whole tree, and what is given out is the lowest unused codeword of its length |
| HuffmanCode.DeepestIsLowest | whisper_cpp/src/examples/stb_vorbis.c:1112-1117 | the claim in the source comment: the free leaf found by walking up from the wanted length is the lowest unused codeword of that length, over all addresses and not only over the free list |
| HuffmanCode.NoRoom | whisper_cpp/src/examples/stb_vorbis.c:1116-1118 | when no level up to the wanted length has a free leaf, the lengths with the new one overfill the tree |
| HuffmanCode.CanonicalUnique | whisper_cpp/src/examples/stb_vorbis.c:1086-1130 | the rule of section 3.2.1 of the Vorbis I specification, lowest unused codeword in order of entry, leaves no choice |
| HuffmanCode.CanonicalPrefixFree | whisper_cpp/src/examples/stb_vorbis.c:1086-1130 | a code built by that rule is prefix-free |
| HuffmanCode.ApartMeansNoCommonWord | whisper_cpp/src/examples/stb_vorbis.c:1086-1130 | the block form of prefix-freedom agrees with the meaning: no 32-bit word starts with both codewords |
| HuffmanCode.FullCodeCovers | whisper_cpp/src/examples/stb_vorbis.c:1086-1130 | in a code of measure one every word starts with some codeword |
| HuffmanCode.MatchesIsInBlock | whisper_cpp/src/examples/stb_vorbis.c:1670-1712 | comparing the masked accumulator with a bit-reversed codeword is asking in which block the reversed accumulator lies, which is what the binary search relies on |
| HuffmanCode.MatchUnique | whisper_cpp/src/examples/stb_vorbis.c:1134-1160 | no accumulator starts with two codewords of a prefix-free code, so the order in which the tables are filled cannot matter |
| Codebooks.TakeLeaf | whisper_cpp/src/examples/stb_vorbis.c:1116-1127 | the inner loop over available[]: fails only if the tree is overfull, otherwise takes the lowest unused codeword and leaves the array mirroring the pool; the inner assertion cannot fail |
| Codebooks.Codebook.AddEntry | whisper_cpp/src/examples/stb_vorbis.c:1075-1084 | sets one row: at the symbol, or compactly in a sparse book |
| Codebooks.Codebook.ComputeCodewords | whisper_cpp/src/examples/stb_vorbis.c:1086-1130 | succeeds exactly when the Kraft sum is at most one, then every coded symbol has the canonical codeword of its length; the code covers every word exactly when the sum is one |
| Codebooks.PoolCovers | whisper_cpp/src/examples/stb_vorbis.c:1086-1130 | every word starts with a codeword if and only if the code has full measure |
| CodebookTables.SearchSorted | whisper_cpp/src/examples/stb_vorbis.c:1666-1676 | the halving loop finds the last of n increasing words that is at most the key, or the first word |
| CodebookTables.PlaceRow | whisper_cpp/src/examples/stb_vorbis.c:1205-1229 | the search in the table being filled finds the row of exactly this codeword |
| CodebookTables.ComputeSortedHuffman | whisper_cpp/src/examples/stb_vorbis.c:1179-1230 | afterwards the sorted table lists the reversed-back codewords increasingly, with the symbol of each, for sparse and ordinary books |
| CodebookFast.MarkFast | whisper_cpp/src/examples/stb_vorbis.c:1148-1158 | the stride loop marks precisely the table words that end in the code, and no others |
| CodebookFast.ComputeAcceleratedHuffman | whisper_cpp/src/examples/stb_vorbis.c:1134-1160 | the fast table answers an index exactly for the words whose low bits are a codeword of at most ten bits that it can hold, and -1 elsewhere |
| CodebookFast.IndexUnique | whisper_cpp/src/examples/stb_vorbis.c:1134-1160 | each codeword has one index, whichever of the two tables it is in |
| CodebookFast.HitUnique | whisper_cpp/src/examples/stb_vorbis.c:1134-1160 | two indices are never entered at the same table word |
| CodebookFast.SetupCodebook | whisper_cpp/src/examples/stb_vorbis.c:3772-3846 | codebook setup fails exactly for overfull lengths; otherwise all tables belong to one canonical code, which covers every word exactly for a full sum, and a sparse book stays sparse only when fewer than a quarter of its symbols are coded |
| BitStream.BitReader.PrepHuffman | whisper_cpp/src/examples/stb_vorbis.c:1634-1648 | the loop adds bytes as long as there is room for one; that changes neither the bits to come nor the low bits already there, and says how many are then available |
| BitStream.BitReader.Consume | whisper_cpp/src/examples/stb_vorbis.c:1689-1692 | shifting the accumulator drops exactly that many bits of the stream |
| CodebookDecode.DecodeScalarRaw | whisper_cpp/src/examples/stb_vorbis.c:1656-1713 | the answer of the binary search or the linear scan for the topped-up word, whether or not a codeword starts it: a symbol consumes its length, -1 clears the valid bits, and the stream is reported invalid exactly when a scan finds nothing |
| CodebookDecode.RawLeaf | whisper_cpp/src/examples/stb_vorbis.c:1656-1713 | the answer is the index of some codeword, of the one that the word starts with whenever the fallback can find that, and -1 exactly if that one lacks valid bits |
| CodebookDecode.DecodeRaw | whisper_cpp/src/examples/stb_vorbis.c:1717-1729 | fast table, then fallback, for every book: the answer is RawSymbol, and exactly its codeword is consumed; in a decodable book it is right |
| CodebookDecode.DecodableRight | whisper_cpp/src/examples/stb_vorbis.c:1656-1729 | in a book that is empty, scanned, or complete with its short codewords in the fast table, the answer at any state of the reader is the index of the one codeword that can be read, or -1 if none can |
| CodebookLimits.DecodingExact | whisper_cpp/src/examples/stb_vorbis.c:1656-1729 | for every set-up book: all answers at all states of the reader are right if and only if the book is empty, scanned, or complete with its short codewords within reach of the fast table |
| CodebookLimits.IncompleteWrong | whisper_cpp/src/examples/stb_vorbis.c:1662-1687 | in any searched code that leaves a word out there is a state where a symbol is answered though no codeword is there |
| CodebookLimits.UnreachedWrong | whisper_cpp/src/examples/stb_vorbis.c:1141-1144 | in any searched book with a short codeword at index 32767 or above there is a state where that codeword is read as another |
| CodebookLimits.IncompleteBook | whisper_cpp/src/examples/stb_vorbis.c:3772-3846 | such a book, set up from two codewords among nine symbols |
| CodebookLimits.UnreachedBook | whisper_cpp/src/examples/stb_vorbis.c:3772-3846 | such a book, complete and with 32768 symbols |
| CodebookLimits.ScansExact | whisper_cpp/src/examples/stb_vorbis.c:1661-1694 | which books are scanned, in terms of their lengths |
| CodebookLimits.NoTableExact | whisper_cpp/src/examples/stb_vorbis.c:3774-3846 | which books have no table to turn an index into a symbol, in terms of their lengths: those set up as sparse with at least four symbols and none coded |
| CodebookDecode.Decode | whisper_cpp/src/examples/stb_vorbis.c:1754-1756 | the same with the sorted index turned into the symbol, in sparse and ordinary books alike |
| CodebookDecode.NextCodewordUnique | whisper_cpp/src/examples/stb_vorbis.c:1656-1713 | no bit sequence starts with two codewords, so the symbol read is the only one possible |
| CodebookDecode.FastOutcome | whisper_cpp/src/examples/stb_vorbis.c:1717-1729 | a hit in the fast table is the one readable codeword, or, if bits are missing, there is none |
| CodebookDecode.RawOutcome | whisper_cpp/src/examples/stb_vorbis.c:1656-1713 | the fallback answers rightly when it can search everything that the accumulator may start with |
| CodebookDecode.WholeStreamReadable | whisper_cpp/src/examples/stb_vorbis.c:1634-1648 | codewords of up to 25 bits are readable exactly when the stream starts with them |
| CodebookLimits.ReadableExact | whisper_cpp/src/examples/stb_vorbis.c:1634-1648 | a codeword, of any code, can be read wherever it comes next if and only if it has at most 25 bits: with 25 valid bits the accumulator is not topped up |
| FloorCurve.DrawLine | whisper_cpp/src/examples/stb_vorbis.c:2034-2081 | the error accumulator draws, at every x, exactly the height that the closed form predicts, with either slope and truncating division, clipped at n, and touches nothing else |
| FloorCurve.LineStep | whisper_cpp/src/examples/stb_vorbis.c:2072-2079 | one step of the accumulator takes height and remainder of the division from x to x + 1 |
| FloorCurve.PredictBetween | whisper_cpp/src/examples/stb_vorbis.c:1935-1943 | the prediction meets both end points and stays between them |
| FloorCurve.UnwrapBijective | whisper_cpp/src/examples/stb_vorbis.c:3244-3264 | for each prediction, decoding an amplitude is a bijection on the range, with the inverse an encoder needs |
| FloorCurve.UnwrapSides | whisper_cpp/src/examples/stb_vorbis.c:3244-3264 | while there is room on both sides, value 2k - 1 is the prediction minus k and 2k the prediction plus k; from there on values count on along the wider side |
| FloorCurve.InTable | whisper_cpp/src/examples/stb_vorbis.c:3208-3210 | for each multiplier the range holds exactly the amplitudes that, multiplied, are indices of the table |
| FloorCurve.UnwrapExact | whisper_cpp/src/examples/stb_vorbis.c:3244-3264 | a value that could not be decoded, -1, stands for the prediction; of the others exactly those from the range on leave it |
| FloorCurve.RangeExact | whisper_cpp/src/examples/stb_vorbis.c:3234-3268 | over all positions: every amplitude is in range if and only if every decoded value is below it, for values that fit 16 bits |
| FloorCurve.Neighbors | whisper_cpp/src/examples/stb_vorbis.c:1303-1312 | finds the nearest earlier positions on both sides; with the end points first there always are some |
| FloorCurve.Synthesize | whisper_cpp/src/examples/stb_vorbis.c:3234-3284 | for any decoded values: the amplitudes are unwrapped from their predictions, cut to 16 bits; a position is left out exactly if its value is zero and it is nobody's neighbour |
| FloorCurve.DoFloor | whisper_cpp/src/examples/stb_vorbis.c:3072-3108 | every sample below n is multiplied exactly once, by the table entry for the piecewise linear curve through the positions kept |
| FloorCurve.ApplyFloor | whisper_cpp/src/examples/stb_vorbis.c:3205-3284 | from any decoded values to scaled samples: the amplitudes unwrapped from their predictions are those of the curve drawn, only the first two values, read with too few bits for more, are asked to be in range; the last stretch, which is not cut to eight bits, is then in the table for each of the four ranges |
| KvCaches.KvCache.FindSlot | whisper_cpp/src/src/whisper.cpp:1049-1099 | from any head position succeeds if and only if a contiguous run of free cells exists; then just that run gets the batch, otherwise no cell changes; cells behind the last one used are taken in order |
| KvCaches.KvCache.FindRun | whisper_cpp/src/src/whisper.cpp:1049-1082 | the circular search ends and misses no run |
| KvCaches.KvCache.FillSlot | whisper_cpp/src/src/whisper.cpp:1084-1092 | cell by cell, positions and id sets become those of the batch, and a cell has a position exactly if some sequence owns it |
| KvCaches.KvCache.CellMax | whisper_cpp/src/src/whisper.cpp:1101-1109 | no cell in use lies behind the result |
| KvCaches.KvCache.Clear | whisper_cpp/src/src/whisper.cpp:1111-1119 | all cells free, the head at the start |
| KvCaches.KvCache.SeqRm | whisper_cpp/src/src/whisper.cpp:1121-1149 | removes a sequence, or all, from the cells in the position range; the head moves to the first cell that this frees and otherwise stays |
| KvCaches.RemovedExact | whisper_cpp/src/src/whisper.cpp:1121-1149 | a cell in the range loses this owner, or every one, and is free exactly if none is left |
| KvCaches.KvCache.SeqCp | whisper_cpp/src/src/whisper.cpp:1151-1167 | shares the cells of one sequence in the range with another; positions stay |
| KvCaches.CopiedExact | whisper_cpp/src/src/whisper.cpp:1151-1167 | a cell of the source in the range gains the other owner |
| BeamDecoding.HandOn | whisper_cpp/src/src/whisper.cpp:7233-7300 | copying to staging ids, removing, copying back and removing again, for any choice of sources, is the simultaneous reassignment of all running decoders' cells |
| BeamDecoding.HoldsSees | whisper_cpp/src/src/whisper.cpp:2945-2954 | a sequence whose cells hold its text is shown its whole text up to a position and nothing else |
| BeamStates.BeamState.BuildMask | whisper_cpp/src/src/whisper.cpp:2945-2954 | an entry is hidden exactly if the cell is not the sequence's or is later |
| BeamStates.MaskExposes | whisper_cpp/src/src/whisper.cpp:2885-2954 | cutting the mask off behind the last cell in use hides nothing that should be seen |
| BeamStates.BeamState.EvalBatch | whisper_cpp/src/src/whisper.cpp:2873-2954 | a batch is evaluated if and only if a slot exists; its tokens then see what the mask leaves open, and a failure changes nothing |
| BeamStates.BatchHolds | whisper_cpp/src/src/whisper.cpp:2873-2954 | evaluating the rest of a text makes its cells one per position, in order of position the text, each evaluated in sight of exactly the text before it |
| BeamStates.BeamState.StartPrompt | whisper_cpp/src/src/whisper.cpp:7124-7155 | after the prompt every decoder's cells are the prompt; fails exactly if the prompt is longer than the cache |
| BeamStates.PickBeams | whisper_cpp/src/src/whisper.cpp:7234-7256 | the best candidates go first; with equal candidates side by side, running decoders get different texts until all texts are taken, and only then the list starts over; in the first round they get the candidates in turn |
| BeamStates.CandidateExact | whisper_cpp/src/src/whisper.cpp:7205-7224 | a candidate is a running decoder's tokens and any one more |
| BeamStates.HandedOnHolds | whisper_cpp/src/src/whisper.cpp:7261-7300 | handing cells on hands on the texts they hold |
| BeamStates.BeamState.SampleGreedy | whisper_cpp/src/src/whisper.cpp:7180-7204 | each running decoder gains its own token, whose cell is still to come |
| BeamStates.BeamState.TakeBeams | whisper_cpp/src/src/whisper.cpp:7226-7300 | texts and cells move together: each running decoder holds the text picked for it, but for the new token |
| BeamStates.BeamState.LastTokens | whisper_cpp/src/src/whisper.cpp:7413-7436 | the batch continues every running decoder's text by its last token and no other sequence |
| BeamStates.BeamState.EvalTokens | whisper_cpp/src/src/whisper.cpp:7413-7440 | succeeds if and only if as many cells in a row are free as decoders are running; then the cells of each hold all of its text, and otherwise nothing changes |
| BeamStates.BeamState.Finish | whisper_cpp/src/src/whisper.cpp:7306-7388 | marking decoders as finished leaves the others' cells as they are |
| BeamStates.BeamState.DecodeWindow | whisper_cpp/src/src/whisper.cpp:7124-7440 | in every round of every run, whatever is sampled or picked: the cells with a running decoder's id are exactly the prompt and its tokens, one per position. The run goes through all rounds unless the prompt is longer than the cache, a round does not fit the decoders, all of them are done, or no room is left; each of these is told, with the state it leaves; room never runs out in a cache for the prompt and one token of each decoder a round; every round leads from the tokens and finished decoders before it to those after it as sampled or picked |
| BeamStates.RoomExact | whisper_cpp/src/src/whisper.cpp:7082-7122 | the cache made for n decoders has room for the longest prompt and all rounds if and only if there is more than one decoder or the context is not a multiple of 256 |
| Timestamps.MaskTimestamps | whisper_cpp/src/src/whisper.cpp:6269-6311 | masks what the timestamp rules forbid and nothing else |
| Timestamps.MaskExact | whisper_cpp/src/src/whisper.cpp:6269-6311 | the rules forbid exactly the tokens that would break the discipline, or exceed the limit on the first timestamp |
| Timestamps.DisciplineExact | whisper_cpp/src/src/whisper.cpp:6269-6311 | the discipline spelt out: times never fall, never three timestamps in a row or two at the start, no text behind a timestamp that comes behind text |
| Timestamps.StampIsLargest | whisper_cpp/src/src/whisper.cpp:6304-6311 | in a disciplined sequence the last timestamp is the largest |
| Timestamps.MaskSpecials | whisper_cpp/src/src/whisper.cpp:6197-6235 | masks the special tokens, and all timestamps when they are off |
| Timestamps.ProcessLogits | whisper_cpp/src/src/whisper.cpp:6192-6335 | whatever the callback does, a token left open obeys the timestamp rules; and no other token is masked after the callback |
| Transcription.TakeToken | whisper_cpp/src/src/whisper.cpp:6269-6311 | an allowed token keeps the discipline |
| Transcription.NeverBack | whisper_cpp/src/src/whisper.cpp:7323-7331 | the new timestamp is never before the window's, so the failure for going back in time cannot occur |
| Transcription.Update | whisper_cpp/src/src/whisper.cpp:7306-7388 | window, result length and outcome after each token, in terms of its last timestamp; and a decoder ends at the end-of-text token, at the token limit, or with a timestamp at the end of the audio, and, before the last round of a loaded model, only then |
| Transcription.Transcriber.Sample | whisper_cpp/src/src/whisper.cpp:7172-7259 | every running decoder takes over the tokens of a running decoder, without beams its own, and one left open by the masks; all sequences stay disciplined, and it fails only if some decoder has no open token |
| Transcription.Transcriber.DecodeRounds | whisper_cpp/src/src/whisper.cpp:7161-7395 | after all rounds each decoder has failed, completed, or has a result that moves at least half a window |
| Transcription.Transcriber.Rank | whisper_cpp/src/src/whisper.cpp:7492-7528 | the tokens of every decoder that did not fail are cut to its result, others stay, and the best decoder is one that was started and did not fail, or that of before |
| Transcription.Transcriber.Run | whisper_cpp/src/src/whisper.cpp:7004-7718 | the main loop ends; every window starts at least 20 ms after the one before and before the last 100 ms, exactly where the best decoder moves to, or behind the window if it ends in a single timestamp; its earlier text is the context and result of the one before, or nothing in the last five seconds; after a window the prompt is empty, and asked for its first token, if and only if the list of temperatures is |
| Transcription.ListTemperatures | whisper_cpp/src/src/whisper.cpp:6863-6872 | the list is the temperatures from the first on, an increment apart, below the bound, or the first alone |
| Transcription.TemperaturesExact | whisper_cpp/src/src/whisper.cpp:6863-6872 | the k-th temperature is k increments above the first, all are below the bound, and the next one would not be |
| Transcription.NoTemperatures | whisper_cpp/src/src/whisper.cpp:6863-6872 | the list is empty if and only if the increment is positive and the first temperature is not below the bound |
| Transcription.ContextExact | whisper_cpp/src/src/whisper.cpp:7086-7091 | the context is the end of the earlier text, as much of it as there is, as may be used, and as half the text context holds, and none unless the temperature is below 0.5 |
| Transcription.ContextCarried | whisper_cpp/src/src/whisper.cpp:7080-7095 | the text carried on from a window is exactly the context its prompt had and its result; a prompt is never empty, and no longer than half the context and the tokens around it |
| Transcription.ReadyToEmit | whisper_cpp/src/src/whisper.cpp:7557-7690 | whichever decoder is best, its tokens and window are fit to be cut into segments, with whatever likeliest timestamps its text was sampled |
| Segments.Emit | whisper_cpp/src/src/whisper.cpp:7577-7690 | the loop over the tokens yields the segments of SegmentsOf; they carry all the text that is shown, in order; they are in order of time, none ends behind the window's move, and from the second on they start in the window; each text is that of its tokens |
| Segments.ForwardExact | whisper_cpp/src/src/whisper.cpp:7577-7690 | every segment ends no earlier than it starts if and only if no text is shown before the first timestamp that ends a segment, or the likeliest timestamp of the first token is at most that one, or, without one, within the window's move |
| Segments.FirstBackward | whisper_cpp/src/src/whisper.cpp:7577-7579 | two tokens for which the one segment is from 18 to 4 |
| Segments.InsideExact | whisper_cpp/src/src/whisper.cpp:7577-7690 | every segment starts in the window if and only if no text is shown before the first timestamp that ends a segment, or the first token has a likeliest timestamp |
| Segments.FirstBefore | whisper_cpp/src/src/whisper.cpp:7577-7579 | a text token without one, for which the one segment starts 20 before the window |
| Sampling.SampleToken | whisper_cpp/src/src/whisper.cpp:6441-6495 | the likeliest token, or the one drawn; text gets the first of the likeliest timestamps, or 0 if all are masked, and a timestamp gets itself |
| Sampling.SampleTokens | whisper_cpp/src/src/whisper.cpp:6500-6570 | the same for the tokens drawn for the beams, with the first timestamp in place of 0 |
| Sampling.StampKnown | whisper_cpp/src/src/whisper.cpp:6454-6470 | a greedily sampled token has a likeliest timestamp if and only if some timestamp was left open, and else 0 |
| Sampling.GreedyInside | whisper_cpp/src/src/whisper.cpp:7577-7690 | with greedy sampling every segment starts in the window if and only if no text is shown before the first timestamp that ends a segment, or some timestamp was open for the first token; otherwise the first segment starts before the window, by twice the number of the first timestamp |
| Sampling.FirstStampsExact | whisper_cpp/src/src/whisper.cpp:6212-6316 | the masks close all timestamps for the first token if and only if timestamps are off |
| GrammarAccept.MatchChar | whisper_cpp/src/src/whisper.cpp:5560-5582 | tells whether the class at a position accepts a character, and where the class ends |
| GrammarEngine.ExpandDecreases | whisper_cpp/src/src/whisper.cpp:5636-5686 | following a reference lowers an explicit measure when no rule reaches itself through nullable prefixes |
| GrammarEngine.AdvanceSettles | whisper_cpp/src/src/whisper.cpp:5636-5686 | at least one stack comes out, each empty or with a character on top |
| GrammarEngine.AdvanceLang | whisper_cpp/src/src/whisper.cpp:5636-5686 | the stacks that come out derive together exactly the words of the one put in |
| GrammarAccept.AdvanceStack | whisper_cpp/src/src/whisper.cpp:5636-5686 | the recursive loop over alternatives ends and appends exactly those stacks; the ranking exists by RankingExact |
| GrammarRecursion.RankingExact | whisper_cpp/src/src/whisper.cpp:5636-5686 | a ranking exists if and only if no rule reaches itself at the left, behind rules that derive the empty word |
| GrammarRecursion.TerminationExact | whisper_cpp/src/src/whisper.cpp:5636-5686 | the nested calls are bounded for every stack if and only if no rule reaches itself at the left |
| GrammarRecursion.RepetitionLoops | whisper_cpp/src/examples/grammar-parser.cpp:186-222 | the rule made for * or + reaches itself at the left through its own last reference if and only if what it repeats can be empty |
| GrammarRecursion.NestedStarLoops | whisper_cpp/src/examples/grammar-parser.cpp:186-222 | root ::= ("x"*)* compiles to rules, with the numbers the parser gives them, of which one reaches itself at the left, so they have no ranking |
| GrammarAccept.AcceptChar | whisper_cpp/src/src/whisper.cpp:5693-5719 | one character for all stacks |
| GrammarAccept.AcceptLang | whisper_cpp/src/src/whisper.cpp:5693-5719 | the language of the stacks after c is exactly the derivative by c of the language before |
| GrammarAccept.AcceptAllLang | whisper_cpp/src/src/whisper.cpp:5693-5719 | the same for a whole text |
| GrammarAccept.InitGrammar | whisper_cpp/src/src/whisper.cpp:5793-5831 | the first stacks derive exactly the words of the start rule |
| GrammarFilter.MatchPartialChar | whisper_cpp/src/src/whisper.cpp:5587-5632 | the test of a character of which only some bytes are known |
| GrammarFilter.BrokenExact | whisper_cpp/src/src/whisper.cpp:5598-5612 | the partial characters that fail at once are exactly those that nothing can complete: after invalid bytes, or with two bytes for what one can encode |
| GrammarFilter.PositivePartialExact | whisper_cpp/src/src/whisper.cpp:5587-5632 | for an ordinary class, and any bytes so far, it passes if and only if some completion is in the class, as its comment says |
| GrammarFilter.NegatedPartialExactness | whisper_cpp/src/src/whisper.cpp:5587-5632 | for a negated class it agrees with its comment if and only if all completions are accepted or none is |
| GrammarFilter.NegatedPartialRejectsViable | whisper_cpp/src/src/whisper.cpp:5587-5632 | a negated class and a first byte for which the comment is wrong |
| GrammarFilter.RejectForStack | whisper_cpp/src/src/whisper.cpp:5726-5775 | as a multiset, the rejects of one stack are the candidates that stepping rejects, with their cursors back in place |
| GrammarFilter.RejectCandidates | whisper_cpp/src/src/whisper.cpp:5777-5791 | the same for several stacks: a candidate is kept if and only if stepping through its code points leaves a stack whose top fits the pending bytes |
| GrammarFilter.NoStacksRejectsNothing | whisper_cpp/src/src/whisper.cpp:5777-5785 | with no stacks at all nothing can survive, though nothing is rejected |
| GrammarFilter.ViableSurvives | whisper_cpp/src/src/whisper.cpp:5777-5791 | a candidate that ends in a whole character and can be continued to a word of the grammar is kept |
| Utf8.DecodeUtf8 | whisper_cpp/src/src/whisper.cpp:5493-5547 | the loops over the bytes compute the byte-by-byte decoder |
| Utf8.LengthExact | whisper_cpp/src/src/whisper.cpp:5497-5498 | continuation bytes start nothing, the other bytes as many bytes as they have leading ones |
| Utf8.CutExact | whisper_cpp/src/src/whisper.cpp:5493-5547 | a text accepted in one call may be cut anywhere; the two pieces agree with the whole if and only if the bytes with which the second completes a character are continuation bytes |
| Utf8.PiecesExact | whisper_cpp/src/src/whisper.cpp:5493-5547 | well-formed text, cut at any bytes into any number of pieces, yields the code points and the final state of one call |
| Utf8.EncodedPieces | whisper_cpp/src/src/whisper.cpp:5493-5547 | encoded text, however its bytes are cut, decodes to the text, and nothing remains |
| Utf8.CompletionsExact | whisper_cpp/src/src/whisper.cpp:5598-5612 | the completions of a partial character are the code points that the decoder makes of it with the missing continuation bytes, without overlong ones |
| Utf8.PartialExact | whisper_cpp/src/src/whisper.cpp:5587-5632 | in terms of the decoder: an ordinary class is passed if and only if some missing bytes make a character of the class of it that is not overlong, and a negated one if and only if some do and all of these are accepted |
| Utf8.FeedInRoom | whisper_cpp/src/src/whisper.cpp:5493-5547 | every state that decoding leaves meets the hypothesis of these |
| Utf8.RoundTrip | whisper_cpp/src/src/whisper.cpp:5493-5547 | decoding inverts the encoder of section 3 of RFC 3629 |
| GrammarSampler.SamplerGrammar.AcceptToken | whisper_cpp/src/src/whisper.cpp:5877-5899 | accepts a token's bytes, whatever they are, after those of earlier tokens, even if a character is split between them; special tokens change nothing |
| GrammarSampler.SamplerGrammar.Remaining | whisper_cpp/src/src/whisper.cpp:5877-5899 | after any run of accepted tokens, also with invalid bytes, the stacks derive exactly what completes the code points so far to a word of the start rule |
| GrammarSampler.SamplerGrammar.RemainingOf | whisper_cpp/src/src/whisper.cpp:5877-5899 | if the tokens are the bytes of encoded text, cut anywhere, the code points are that text |
| SymbolNames.GeneratedInjective | whisper_cpp/src/examples/grammar-parser.cpp:33-37 | made-up names are distinct, because the underscore marks where the number starts |
| SymbolNames.DecimalWritten | whisper_cpp/src/examples/grammar-parser.cpp:33-37 | the number in a made-up name is the decimal notation of the symbol's number |
| SymbolNames.NewGenerated | whisper_cpp/src/examples/grammar-parser.cpp:33-37 | a made-up name with the next number is new |
| SymbolNames.AddName | whisper_cpp/src/examples/grammar-parser.cpp:27-37 | numbers stay a bijection onto 0 up to the number of names |
| GrammarParser.ParseState.GetSymbolId | whisper_cpp/src/examples/grammar-parser.cpp:27-31 | a name keeps its number, a new one gets the next |
| GrammarParser.ParseState.GenerateSymbolId | whisper_cpp/src/examples/grammar-parser.cpp:33-37 | the new number clashes with no name, written or made up |
| GrammarParser.ParseState.AddRule | whisper_cpp/src/examples/grammar-parser.cpp:39-47 | one rule is set, the others stay |
| GrammarParser.ParseState.ParseSequence | whisper_cpp/src/examples/grammar-parser.cpp:132-230 | accepts exactly the well-formed sequences; its tokens are the expression read, whose elements are appended and whose groups and repetitions have their rules |
| GrammarParser.ParseState.MakeRepeat | whisper_cpp/src/examples/grammar-parser.cpp:186-222 | the rule made for *, + or ? is the rewriting of the source comment, well formed, under a new number; no other rule changes |
| GrammarParser.ParseState.ParseAlternates | whisper_cpp/src/examples/grammar-parser.cpp:232-248 | accepts exactly the well-formed alternatives, and makes them the rule |
| GrammarParser.PushClass | whisper_cpp/src/examples/grammar-parser.cpp:145-169 | the elements pushed for a class, with bounds and further members in their order |
| GrammarParser.RuleOfOk | whisper_cpp/src/examples/grammar-parser.cpp:232-248 | every rule made has its one END last and keeps the order of classes, ranges and members |
| GrammarCompiler.Parse | whisper_cpp/src/examples/grammar-parser.cpp:250-286 | accepts exactly the grammars; afterwards every name has its latest definition, and a failure leaves nothing |
| GrammarCompiler.CompleteIfDefined | whisper_cpp/src/examples/grammar-parser.cpp:273-286 | no symbol lacks its rule if and only if every name used is defined, and then the rules are fit for the engine |
| GrammarCompiler.CompilerCorrect | whisper_cpp/src/examples/grammar-parser.cpp:132-286 | for every complete grammar without empty classes and every name, the flat rules derive exactly the words that its definition, with groups and repetition, means |
| GrammarEndToEnd.SampledAsWritten | whisper_cpp/src/src/whisper.cpp:5690-5719 | compiler and engine together: if the compiled rules have a ranking, the stacks after any text derive exactly what completes it to a word that the written definition means |
| GrammarMeaning.MeaningPreserved | whisper_cpp/src/examples/grammar-parser.cpp:186-222 | the rewriting of groups and repetition into rules of their own preserves the language in both directions |
| GrammarMeaning.ClassExact | whisper_cpp/src/examples/grammar-parser.cpp:145-169 | a class is compiled to what it means if and only if it lists something; an empty one is compiled to nothing |
| GrammarSegments.RuleOfRuns | whisper_cpp/src/examples/grammar-parser.cpp:232-248 | a rule derives what one of its alternatives does |
| GrammarTokens.ScansGrammar | whisper_cpp/src/examples/grammar-parser.cpp:250-286 | reading fails exactly where a repetition sign has nothing before it |
| Fourier.Dft | whisper_cpp/src/src/whisper.cpp:3063-3080 | the direct sum |
| Fourier.ImpulseExact | whisper_cpp/src/src/whisper.cpp:3063-3080 | coefficient k of an impulse at j is the cosine and minus the sine of k * j steps |
| Fourier.Linear | whisper_cpp/src/src/whisper.cpp:3063-3080 | the transform is linear |
| Fourier.Fft | whisper_cpp/src/src/whisper.cpp:3085-3127 | the in-place recursion equals the direct sum for every input whose length divides the table, although both halves share one scratch area; the input stays, and scratch stays within twice the input and eight times the output length |
| Fourier.Interleave | whisper_cpp/src/src/whisper.cpp:3096-3127 | a coefficient from those of the even and the odd half |
| Fourier.Butterfly | whisper_cpp/src/src/whisper.cpp:3112-3126 | both halves of the output from one twiddle factor |
| Fourier.Combine | whisper_cpp/src/src/whisper.cpp:3112-3126 | the last loop puts the coefficients together without touching the halves |
| Fourier.Column | whisper_cpp/src/src/whisper.cpp:3143-3163 | a spectrogram column depends on its windowed frame alone, whatever the reused buffers held before |
| Fourier.PowerSpectrum | whisper_cpp/src/src/whisper.cpp:3158-3163 | squaring in place reads no entry that is already overwritten |
| Fourier.QuarterTurns | whisper_cpp/src/src/whisper.cpp:3039-3045 | the table hypotheses are satisfiable |
| Dtw.FillTable | whisper_cpp/src/src/whisper.cpp:8667-8696 | the table of accumulated costs and directions |
| Dtw.DtwAndBacktrace | whisper_cpp/src/src/whisper.cpp:8656-8740 | a path of unit steps from corner to corner, inside the matrix, that fits its N + M - 1 rows and costs what the table says; without misleading ties no path is cheaper |
| Dtw.BestIsLeast | whisper_cpp/src/src/whisper.cpp:8674-8696 | no path costs less than the recurrence without ties says |
| Dtw.BestIsReached | whisper_cpp/src/src/whisper.cpp:8674-8696 | and one costs just that |
| Dtw.TableMinimal | whisper_cpp/src/src/whisper.cpp:8674-8696 | all table entries are least costs if and only if no cell has diagonal and previous row equal and better than previous column, in the values that the code compares |
| Dtw.TieMisleads | whisper_cpp/src/src/whisper.cpp:8680-8691 | a 2 by 2 matrix for which the path found is not the cheapest |
| Dtw.TraceBack | whisper_cpp/src/src/whisper.cpp:8711-8727 | the way back never leaves the matrix before it reaches the corner |
| VadSegments.FindSpeech | whisper_cpp/src/src/whisper.cpp:5272-5346 | segments in order within the audio, those that WholeAll says; it is told exactly when a run exceeded the maximum duration, and otherwise they are those of HeardAll |
| VadSegments.AllRuns | whisper_cpp/src/src/whisper.cpp:5272-5346 | from a threshold of 0.01 on, the segments are runs of speech, each unbroken by a long silence with one, or the end, behind it |
| VadSegments.Step | whisper_cpp/src/src/whisper.cpp:5272-5344 | one window: the track after it and what is noted for cutting, with or without a split, for any thresholds; the order is kept |
| VadSegments.SplitLong | whisper_cpp/src/src/whisper.cpp:5292-5313 | a segment that is too long is cut at its latest longer silence, or here |
| VadSegments.Merge | whisper_cpp/src/src/whisper.cpp:5348-5367 | only gaps below 200 ms are closed, all of them, from the first on, and nothing is lost |
| VadSegments.RemoveShort | whisper_cpp/src/src/whisper.cpp:5369-5379 | exactly the short ones go, and the others stay in order; none do if no segment was split |
| VadSegments.Pad | whisper_cpp/src/src/whisper.cpp:5393-5431 | padding keeps the order: narrow gaps are shared, others lose the full padding on both sides |
| VadSegments.SegmentsFromProbs | whisper_cpp/src/src/whisper.cpp:5272-5434 | for all probabilities the result is that of WholeResult, in order and inside the audio; unless a run exceeded the maximum duration everything found is kept |
| VadSplits.WholeNoted | whisper_cpp/src/src/whisper.cpp:5272-5346 | at every window of a run: the silence noted is the first since speech, the place noted for cutting is where its latest silence of more than 98 ms began, and the restart where speech was first back after that |
| VadSplits.CutsExact | whisper_cpp/src/src/whisper.cpp:5272-5346 | every segment found is a run cut where its latest longer silence began or, without one, at the window that was too much; or ends where the silence began that was long enough, or with the audio; and every run that gets too long is cut so |
| VadCoverage.FoundOrCut | whisper_cpp/src/src/whisper.cpp:5272-5346 | for any parameters: every sample of a window of speech is in a segment found, or its run was too short, or a segment ends where the window begins |
| VadCoverage.CoverageExact | whisper_cpp/src/src/whisper.cpp:5250-5434 | for all probabilities every sample of every window of speech is in a final segment, unless its run was too short or some run too long, if and only if: the threshold is at least 0.01, or not above 0 with some silence required, or a run that ends in a window of speech exceeds the maximum duration, or the padding is at least a window and no gap of one odd window is halved |
| VadCoverage.MissedBehind | whisper_cpp/src/src/whisper.cpp:5250-5434 | probabilities for which a window of speech is missed because the padding is shorter than a window |
| VadCoverage.MissedBetween | whisper_cpp/src/src/whisper.cpp:5400-5413 | probabilities for which the middle of a window of speech is missed between two padded segments |
| VadCoverage.LowThresholdMisses | whisper_cpp/src/src/whisper.cpp:5250-5255 | with a threshold of 0.005 and no padding, six probabilities whose second window is speech and in no segment |
| TimeMapping.BuildTable | whisper_cpp/src/src/whisper.cpp:6699-6792 | the sorted and deduplicated table rises strictly in processed and weakly in original time, whatever the order of equal processed times; every processed time collected has a knot; and the audio is laid out as the knots say |
| TimeMapping.CollectedConsistent | whisper_cpp/src/src/whisper.cpp:6699-6776 | among the points collected, a later processed time never stands for an earlier original one |
| TimeMapping.Collect | whisper_cpp/src/src/whisper.cpp:6726-6776 | copies the segments and the silence, and collects the knots: at each offset the audio is the piece of the input from the segment's start to its end and the overlap, followed by 1600 zeros unless it is the last, and the knots are those of these positions |
| TimeMapping.SamplePlaced | whisper_cpp/src/src/whisper.cpp:6765-6776 | sample d of a segment is at its offset plus d, and that offset has the knot of the segment's start |
| TimeMapping.SegmentKnotsExact | whisper_cpp/src/src/whisper.cpp:6737-6763 | the knots of a segment are its ends and, in one of more than a second, a point every 200 ms |
| TimeMapping.MapProcessedToOriginal | whisper_cpp/src/src/whisper.cpp:7891-7930 | the binary search and interpolation compute the piecewise linear map |
| TimeMapping.MappedMonotone | whisper_cpp/src/src/whisper.cpp:7891-7930 | the map is monotone despite the rounding |
| TimeMapping.MappedExact | whisper_cpp/src/src/whisper.cpp:7891-7930 | the map is exact at every knot and linear between |
| TimeMapping.BetweenExact | whisper_cpp/src/src/whisper.cpp:7918-7930 | between two knots the map is less than one below the straight line |
| TimeMapping.CsNearest | whisper_cpp/src/src/whisper.cpp:4476-4482 | hundredths of a second are the nearest to a number of samples, and invert the way back |
| TimeMapping.MappedBounds | whisper_cpp/src/src/whisper.cpp:7891-7930 | the map never leaves the times of the end knots |
| TimeMapping.SegmentTimes | whisper_cpp/src/src/whisper.cpp:7933-7966 | a segment's mapped end is at least the minimum after its mapped start |
| AudioCapture.AudioAsync.Callback | whisper_cpp/src/examples/common-sdl.cpp:139-168 | for deliveries of any length, also longer than the buffer and around its end, the buffer remembers the end of what was captured since the last clear |
| AudioCapture.AudioAsync.Get | whisper_cpp/src/examples/common-sdl.cpp:170-213 | returns in order exactly the last samples asked for, as many as were captured and fit |
| AudioCapture.SamplesExact | whisper_cpp/src/examples/common-sdl.cpp:188-196 | milliseconds are as many whole samples as they have |
| AudioCapture.AudioAsync.Clear | whisper_cpp/src/examples/common-sdl.cpp:117-136 | forgets everything, only while running |
| AudioCapture.WrittenRemembers | whisper_cpp/src/examples/common-sdl.cpp:152-165 | writing a wrapped block moves the window of remembered samples on |
| AudioCapture.ReadBack | whisper_cpp/src/examples/common-sdl.cpp:196-212 | the one or two pieces read are the last samples in order |
| EditDistance.Compute | whisper_cpp/src/examples/common.cpp:648-664 | the two swapped rows compute the least number of insertions, deletions and substitutions over all edit scripts |
| EditDistance.DistanceExact | whisper_cpp/src/examples/common.cpp:655-661 | the recurrence is the least number: every script needs it and one takes it |
| EditDistance.Metric | whisper_cpp/src/examples/common.cpp:648-664 | the distance is symmetric, zero only for equal strings, and satisfies the triangle inequality |

## Left out

- Bits.BitReverse: each stage is the exchange of neighbouring fields of bits, written with shifts; the mask constants that select the fields are not.
- CodebookDecode.Decode: a sparse book with no coded entries is excluded, since the table it is then indexed in does not exist; CodebookLimits.NoTableExact says which books these are.
- BitStream.BitReader.PrepHuffman: the packet is a sequence of bytes; how segments and pages are joined to it is not modelled.
- CodebookFast.SetupCodebook: starts once the lengths are read; allocation failures and the reading of the header bits are not modelled.
- FloorCurve.DrawLine: without the optional division table, which holds the same quotients.
- FloorCurve.DoFloor: samples and table entries are real numbers; the reading of the amplitude bits is not modelled.
- FloorCurve.RangeExact: for decoded values of -1 to 32767; a symbol from 32768 on, which 16 bits make negative, may stay in range.
- GrammarAccept.AdvanceStack: takes a ranking of the rules as its measure, which exists exactly if GrammarRecursion.RankingExact says so; stacks are values rather than vectors of pointers.
- GrammarRecursion.RepetitionLoops: says which single repetitions make the compiled rules left recursive; loops through several names are characterised on the compiled rules only.
- GrammarParser.ParseState.ParseSequence: works on tokens; splitting the characters into tokens (spaces, comments, escapes, UTF-8 within literals) is not modelled.
- GrammarCompiler.CompilerCorrect: asks for classes that are not empty, the exact condition of GrammarMeaning.ClassExact, and for every name used to be defined.
- BeamStates.BeamState.DecodeWindow: what is sampled and how candidates score is arbitrary. The tensors computed from the visible cells are not modelled.
- BeamStates.BeamState.EvalBatch: a computation that fails or is aborted after its slot was found is not modelled.
- BeamStates.PickBeams: the order of the candidates is given; that sorting by score puts equal texts side by side is a hypothesis where it is needed.
- Transcription.Transcriber.Sample: any token left open by the timestamp rules may be taken; if there is none the run ends. Probabilities, temperatures and entropies are arbitrary.
- Transcription.Transcriber.Run: the caller's callback may end the loop at any window; temperatures are real numbers; encoding the audio is not modelled, and whether there was speech is an arbitrary choice.
- Transcription.Transcriber.Rank: scores and the tests for repetition are arbitrary choices.
- Sampling.SampleToken: probabilities are real numbers, positive exactly for the tokens left open; how they are computed and drawn from is not modelled.
- Segments.Emit: token texts are an arbitrary function of the id; printing, callbacks, token-level timestamps and wrapping are not modelled.
- Timestamps.ProcessLogits: the grammar's rejections and the regular expression are part of an arbitrary filter; probabilities are not computed.
- Fourier.Fft: exact arithmetic with exact tables; the tables' properties are hypotheses, shown satisfiable for a table of four entries.
- Dtw.DtwAndBacktrace: costs are real numbers with an infinite border. Minimality is proved when there is no tie; an exact condition is given for the table, not for the single path.
- VadSegments.FindSpeech: probabilities and thresholds are real numbers; the parameters are given in samples.
- VadCoverage.CoverageExact: coverage is stated for runs in which the maximum duration never triggers; a window of speech at which a run is cut starts no run of its own.
- TimeMapping.BuildTable: the size reserved for the samples is not modelled; sorting and removing duplicates are written out because the library's are not part of this model. Segments come with samples to copy, as detection gives none without.
- AudioCapture.AudioAsync.Callback: one caller at a time, as the lock guarantees; opening the device is reduced to its result.
- EditDistance.Compute: the distance only; the similarity is its quotient by the longer length.
- Machine integers are unbounded where the source's sizes keep them small; 32-bit words and shifts of the codebook code are bounded explicitly.
- The tensor graphs, kernels, backends, model loading, the transform and windowing of stb_vorbis, Ogg seeking, bindings and command-line programs are not part of this model.
