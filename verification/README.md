# Verified model of the host-side algorithms

These files model the parts of the repository that run on the CPU and are written from scratch: the
constrained-decoding automata and the JSON codec, the tokenizer, the image codecs, the concurrent
protocols, the streaming wire path and the GGUF header reader. Every file is Dafny 4.11 and everything
is proved; `dafny verify dfyconfig.toml` checks the whole project.

Where the code updates something in place, the model is a class or a method with loops and invariants,
proved against a function that says what it computes. The properties are then lemmas about that
function. The concurrent protocols are step systems: a state, a function that takes one step of one
thread, and invariants over every run.

How the files depend on each other:

- `Bytes`, `Arithmetic`, `Search`, `LittleEndian`, `JsonAccess`: shared vocabulary.
- `JsonGrammar` is RFC 8259 as concrete syntax trees. `JsonGuard` (the prefix acceptor), `JsonParser` and
  `JsonPrinter` are the code; `JsonPrefix`, `JsonMeaning` and `JsonAgreement` connect them to the grammar
  and to each other; `JsonLoose` says exactly what the parser accepts.
- `SchemaPlan`, `SchemaGuard`: the schema compiler and the plan-driven guard; `SchemaFill` and
  `SchemaText` prove what a finished text is, `SchemaCompletion` when generation can finish at all.
  `SchemaWords` sets down the texts of a schema from the schema alone, and `SchemaAccept` and `SchemaWords`
  prove that the guard stops at exactly those.
- `Bpe`, `Unigram`, `SentencePiece`, `ByteLevel`: the tokenizer; `TextCuts` says where it cuts a text,
  `Utf8Cuts` that it never slices a text inside a character, `SpDecode` when decoding gives the text back.
- `Huffman`, `Inflate`: the PNG inflater; `DeflateFormat` is RFC 1951 written from the standard, without
  anything of the inflater's, and `Deflate` proves the one against the other. `PngFilter` adds scanline
  filters, `JpegHuffman` the JPEG decoder of Huffman codes.
- `GpuQueue`, `LogRing`, `Sidecar`, `RangeDownload`: the ticket lock, the shared log ring, the resumable
  parallel download and its sidecar file.
- `ChunkedStream`, `Braces`, `ToolCalls`: the NDJSON stream from server to client, and tool-call
  extraction.
- `GgufHeader`, `GgufEncoding`: the header reader with its growing window, and the format written down
  as an encoder; the reader takes exactly what the encoder writes.

Text is a sequence of bytes, and of code points inside the tokenizer. Numbers of unbounded size stand
for machine integers where the code cannot reach the width; where a width matters (`Combine` in the
parser, two's complement in GGUF metadata, byte arithmetic in PNG filters, the 64-bit chunk size, the
sidecar's 32-bit count) it is written out.

Results that differ from what the code's own comments suggest. Each is stated with the condition under
which the code keeps the promise, for all inputs, and with inputs on which it does not:

- A schema guard text is a JSON text exactly when no integer hole has a leading zero and no number hole
  has more than one minus sign (`SchemaText.SchemaGuarantee`); the comment at `src/json.rs:975` promises
  it without that condition. `00` is accepted as an integer (`SchemaText.LeadingZeros`), `--5` as a number
  (`SchemaText.ManyMinuses`).
- With those two liberties the guard is exact: generation may stop at precisely the texts the schema allows
  within the guard's limits, and every beginning of one is accepted (`SchemaWords.StopsExactly`,
  `SchemaWords.BeginsExactly`).
- The JSON parser takes more than JSON: exactly the JSON texts with leading zeros, with digits on one side of
  a point only, with raw control characters in strings, and with a plus in a `\u` escape
  (`JsonLoose.ParsesExactly`).
- The schema guard can strand its sampler, in a number hole that has used its forty bytes where a number
  may not end, and in no other position (`SchemaCompletion.FinishesExactly`); forty minus signs do it
  (`SchemaCompletion.FortyMinuses`).
- Merging word by word is merging the whole segment, for every text, if and only if no merge rule across a
  word boundary has two sides that the merge loop itself forms (`Bpe.WordsEqualWholeExactly`).
- With metaspace tokens, decoding the ids of a text gives the text back exactly when no piece used for it is
  a token that spells a byte, such as `<0x41>` (`SpDecode.MergedStands`, `SpDecode.PathStands`); a text in
  which no such token occurs always comes back (`SpDecode.SegmentRoundTrip`), and for every byte there is a
  tokenizer that turns the text spelling it into the byte (`SpDecode.SpellingsAreLost`).
- The admission cap of the GPU queue can be exceeded by the callers that are between their check and
  their ticket, and the excess is attained (`GpuQueue.CapHolds`, `GpuQueue.CapIsExceeded`).
- A log reader accepts nothing under a published number but what was written under it, as long as every
  writer publishes before the cursor is more than a lap ahead of it (`LogRing.NothingTorn`). If the cursor comes
  round to a writer that has not yet stored its head, one more record is enough for a reader to get the
  late writer's record under the other's number, whatever the checksum (`LogRing.LateWriterIsMisread`);
  this happens in rings of every size (`LogRing.EveryRingIsMisread`).
- The sidecar of a partial download never leads its file, whatever chunk sizes the calls have, as long as
  no response is longer than its range and a sidecar that vouches for chunks is removed right after the
  partial file it belongs to (`RangeDownload.CrashSafe`). After every departure from the second condition
  a run exists in which it does lead it, unless all it vouches for are zeros
  (`RangeDownload.CarelessMisleads`), and such departures are reached by changing the chunk size
  (`RangeDownload.ChunkChangeMisleads`). A response that is too long, even one
  with an error status, damages the chunk after its own (`RangeDownload.OverrunMisleads`) or makes a call
  return Ok with a file that is too long (`RangeDownload.OverrunReturnsOk`).
- A tool call whose own text contains the closing tag is not extracted
  (`ToolCalls.ClosedCallExactly`, `ToolCalls.AwkwardCallIsLost`).

## Model

| member | source | states |
|---|---|---|
| JsonGuard.JsonGuard.constructor | src/json.rs:647-654 | a new guard is in the start configuration and keeps its invariant |
| JsonGuard.JsonGuard.Complete | src/json.rs:657-663 | whether the text so far could stop here, including after a bare number |
| JsonGuard.JsonGuard.HardComplete | src/json.rs:665-670 | true exactly when whitespace is all that may still follow, and then the text is complete |
| JsonGuard.JsonGuard.ValueDone | src/json.rs:680-688 | a finished value returns to its container, or to the end |
| JsonGuard.JsonGuard.BeginValue | src/json.rs:690-716 | which bytes may begin a value and what they push; a refused byte changes nothing |
| JsonGuard.JsonGuard.PushStrByte | src/json.rs:718-898 | the string sub-automaton: escapes, four hex digits, no raw control bytes |
| JsonGuard.JsonGuard.PushByte | src/json.rs:718-898 | accepts exactly the bytes the automaton allows, keeps the invariant, and a refused byte leaves completeness as it was |
| JsonGuard.JsonGuard.PushBytes | src/json.rs:675-677 | accepts exactly the strings the automaton runs on |
| JsonGuard.StepWellFormed | src/json.rs:600-898 | every step keeps stack and state in agreement |
| JsonGuard.RunConcat | src/json.rs:675-677 | pushing two strings one after the other is pushing them at once |
| JsonPrefix.RunIsPartial | src/json.rs:718-898 | every accepted string is the text of an unfinished syntax tree whose shape is the guard's state |
| JsonPrefix.CompleteIsText | src/json.rs:657-663 | what the guard calls complete is a JSON text |
| JsonPrefix.TextIsComplete | src/json.rs:657-663 | every JSON text is accepted and called complete |
| JsonPrefix.Completion | src/json.rs:718-898 | every accepted prefix can be completed to a JSON text |
| JsonPrefix.AcceptsExactlyPrefixes | src/json.rs:646-898 | accepted if and only if it is a prefix of some RFC 8259 text |
| JsonPrefix.CompleteExactlyTexts | src/json.rs:646-898 | complete if and only if it is itself an RFC 8259 text |
| JsonPrefix.Accept | src/json.rs:646-677 | both facts for the running guard object |
| JsonParser.ParseText | src/json.rs:233-243 | the parser object computes the parse function on every input, errors included |
| JsonParser.Parser.Value | src/json.rs:270-285 | value dispatch with the depth limit: outcome and cursor as specified |
| JsonParser.Parser.Number | src/json.rs:296-323 | the permissive numeral scan and the literal it must still be |
| JsonParser.Parser.String | src/json.rs:325-405 | strings with escapes, surrogate pairs and their errors |
| JsonParser.Parser.Hex4 | src/json.rs:407-415 | four characters read as a hexadecimal number, leading plus included |
| JsonParser.Parser.Array | src/json.rs:417-439 | arrays: elements in order, or the first error and where |
| JsonParser.Parser.Object | src/json.rs:441-468 | objects: members in order with duplicates, or the first error and where |
| JsonMeaning.ParseDoc | src/json.rs:233-469 | on every JSON text, and on every text with the parser's liberties, parsing gives the text's meaning exactly when it is nested at most 128 deep and its surrogates pair up |
| JsonMeaning.ParseValueAt | src/json.rs:270-468 | the same for a value anywhere inside a longer input |
| JsonMeaning.LoneHigh | src/json.rs:370-388 | a high surrogate without an escape after it is refused |
| JsonMeaning.PairStands | src/json.rs:370-388 | the two escapes UTF-16 writes a code point with are combined into it |
| JsonMeaning.PairIsSum | src/json.rs:370-388 | a second escape that is no low half is taken into the sum all the same |
| JsonMeaning.EscapesStand | src/json.rs:333-369 | what each short escape stands for |
| JsonMeaning.PointMoves | src/json.rs:296-323 | moving a digit behind the point divides the number by ten |
| JsonMeaning.ExponentGrows | src/json.rs:296-323 | an exponent of one more multiplies by ten, or divides if negative |
| JsonGrammar.Spelled | src/json.rs:690-760 | the words and the character classes of the grammar, spelled out |
| JsonLoose.ParsedIsLoose | src/json.rs:233-469 | whatever the parser accepts is a JSON text but for leading zeros, missing digits on one side of a point, raw control characters and a plus in an escape, nested at most 128 deep, and the value is its meaning |
| JsonLoose.ParsesExactly | src/json.rs:233-469 | a value is given exactly for the texts that mean it |
| JsonAccess.GetIsFirst | src/json.rs:37-42 | access finds a value if and only if it stands under the first member with the key |
| JsonPrinter.Buffer.Write | src/json.rs:174-209 | the recursive printer appends the dump of the value |
| JsonPrinter.Buffer.WriteEscaped | src/json.rs:212-228 | the string writer appends the quoted, escaped bytes |
| JsonPrinter.DumpText | src/json.rs:168-172 | printing into a fresh buffer gives the dump |
| JsonAgreement.DumpSpells | src/json.rs:174-228 | every dump is the text of a valid syntax tree with the value as its meaning |
| JsonAgreement.RoundTrip | src/json.rs:168-469 | parsing a dump gives the value back if and only if its containers are at most 128 deep |
| JsonAgreement.DumpIsComplete | src/json.rs:174-228 | the guard accepts every dump and calls it complete |
| JsonAgreement.CompleteIsParsed | src/json.rs:657-663 | what the guard calls complete is parsed exactly when it is readable, to its meaning |
| JsonAgreement.GuardAndParserAgree | src/json.rs:270-468 | on JSON texts the parser succeeds if and only if depth is within the limit and each high-surrogate escape is followed by another escape |
| JsonAgreement.DumpVisible | src/json.rs:212-228 | a dump contains no control byte, so no raw newline |
| SchemaPlan.PlanBuilder.Value | src/json.rs:1026-1067 | the recursive compiler appends the segments of a schema, or fails exactly where the specification does |
| SchemaPlan.MergeSegs | src/json.rs:1015-1022 | the loop that joins neighbouring fixed runs |
| SchemaPlan.Compile | src/json.rs:1012-1023 | the compiled plan |
| SchemaPlan.PlansAlternate | src/json.rs:1012-1067 | in every compiled plan nonempty fixed text and holes strictly alternate |
| SchemaGuard.SchemaGuard.constructor | src/json.rs:1089-1099 | a new guard stands at the start of its plan |
| SchemaGuard.SchemaGuard.EnterSeg | src/json.rs:1101-1125 | entering a segment resets exactly what that segment needs |
| SchemaGuard.SchemaGuard.ForcedText | src/json.rs:1136-1142 | the rest of the current fixed text, if any |
| SchemaGuard.SchemaGuard.IsFinished | src/json.rs:1144-1148 | whether the plan is used up |
| SchemaGuard.SchemaGuard.IsComplete | src/json.rs:1150-1158 | whether generation may stop, in the last hole too |
| SchemaGuard.SchemaGuard.PushByte | src/json.rs:1176-1327 | one byte against fixed text or a typed hole, with the fall-through into the next segment; SchemaWords.StopsExactly says what that accepts |
| SchemaGuard.SchemaGuard.PushBytes | src/json.rs:1172-1174 | a string byte by byte: accepted, and complete, exactly as SchemaWords.BeginsExactly and SchemaWords.StopsExactly say |
| SchemaGuard.ForcedIsAccepted | src/json.rs:1136-1142 | forced text is always accepted and ends in a hole or at the end of the plan |
| SchemaFill.RunReached | src/json.rs:1176-1327 | every accepted text is a filling of the plan up to where the guard stands |
| SchemaFill.CompleteIsFilled | src/json.rs:1150-1158 | where generation may stop the text is the plan with every hole filled by a value of its kind |
| SchemaAccept.AcceptsFill | src/json.rs:1195-1327 | every value of a hole's kind within the limits (19 digits, 40 number bytes, the string budget) is accepted, and the hole may end there |
| SchemaAccept.CompletesExactly | src/json.rs:1150-1327 | for every compiled plan generation may stop at exactly the fillings of the plan |
| SchemaWords.StopsExactly | src/json.rs:1012-1327 | for every schema that compiles generation may stop at exactly the texts the schema allows: the wanted keys in order, each with a text of its declared kind |
| SchemaWords.BeginsExactly | src/json.rs:1012-1327 | a text is accepted, and can still be finished, exactly when it begins such a text |
| SchemaWords.CompilesExactly | src/json.rs:1026-1067 | a schema compiles exactly when its objects want at least one property each and nest at most sixteen deep |
| SchemaWords.SelectedAre | src/json.rs:1032-1046 | the properties compiled are the required ones, or all when none is required, in the schema's order |
| SchemaText.Unmerge | src/json.rs:1015-1022 | filling the merged plan is filling the plan before merging |
| SchemaText.SchemaDoc | src/json.rs:1026-1067 | canonical fills give a JSON document with exactly the selected keys, in order, each of the declared kind |
| SchemaText.BadFillsFail | src/json.rs:1195-1241 | fills with a leading zero or two minus signs make text the JSON guard refuses |
| SchemaText.SchemaGuarantee | src/json.rs:1012-1327 | a finished text is a JSON text if and only if its fills are canonical, and then it conforms to the schema |
| SchemaText.LeadingZeros | src/json.rs:1195-1210 | for an integer schema every text of two to nineteen digits with a leading zero is accepted as complete, and none is a JSON text |
| SchemaText.ManyMinuses | src/json.rs:1216-1230 | for a number schema a digit after two to thirty-nine minus signs is accepted as complete, and is no JSON text |
| SchemaCompletion.PlanBounded | src/json.rs:1026-1067 | in every compiled plan a hole is last or followed by text starting with a comma or a closing brace |
| SchemaCompletion.FinishHole | src/json.rs:1195-1327 | every hole that is not a full number hole can be finished |
| SchemaCompletion.StrandedIsStuck | src/json.rs:1216-1240 | from a full number hole no further bytes are accepted and generation may not stop |
| SchemaCompletion.FinishesExactly | src/json.rs:1150-1327 | after any accepted text generation can still finish if and only if the guard is not in a full number hole |
| SchemaCompletion.FortyMinuses | src/json.rs:1216-1240 | for a number schema forty minus signs are accepted, and generation can then never finish |
| Bpe.BestIsBest | src/tokenizer.rs:502-511 | the scan picks a mergeable pair of lowest rank, leftmost among equals, and none only if no pair merges |
| Bpe.BestIsUnique | src/tokenizer.rs:502-511 | that pair is the only one with that property |
| Bpe.FindBest | src/tokenizer.rs:503-511 | the scanning loop finds it |
| Bpe.MergeLoop | src/tokenizer.rs:497-522 | the splicing loop computes the merges to the end |
| Bpe.EncodePiece | src/tokenizer.rs:497-545 | the ids of a piece, unknown parts spelled by character and byte |
| Bpe.Spell | src/tokenizer.rs:523-544 | the fallback spelling of an unknown part |
| Bpe.UnknownChar | src/tokenizer.rs:526-541 | a character outside the vocabulary gives the ids of its bytes in order in the metaspace family, and nothing in the byte-level one |
| Bpe.LoopKeeps | src/tokenizer.rs:502-522 | merging keeps the text and stops only when no pair merges |
| Bpe.MergeConfluent | src/tokenizer.rs:502-522 | every stretch of the parts is, at every merge, where the loop arrives on the text of that stretch alone |
| Bpe.LoopSplits | src/tokenizer.rs:502-522 | merging across a word boundary is merging both sides apart |
| Bpe.PiecesFlat | src/tokenizer.rs:564-583 | the words cut out of a segment, joined, are the segment |
| Bpe.WordsEqualWhole | src/tokenizer.rs:547-583 | if no live rule crosses words, encoding word by word equals encoding the segment whole |
| Bpe.WordsEqualWholeExactly | src/tokenizer.rs:547-583 | the merged parts are equal for every text if and only if no rule across a word boundary has two sides the loop forms |
| Bpe.LiveRuleDiffersInIds | src/tokenizer.rs:497-583 | such a rule makes the ids differ too, on the text of its two sides, when characters and merges are tokens with distinct ids |
| Unigram.ReachHasPath | src/tokenizer.rs:447-477 | every position the search calls reachable is the end of a path |
| Unigram.PathReaches | src/tokenizer.rs:447-477 | every path ends at a reachable position |
| Unigram.TakePieces | src/tokenizer.rs:452-462 | the inner loop relaxes every piece edge from a position |
| Unigram.FillTable | src/tokenizer.rs:443-477 | the table holds a best path to every reachable position |
| Unigram.BestIsOptimal | src/tokenizer.rs:443-482 | the table's path to the end scores at least as much as every path, and exists exactly when one does |
| Unigram.Backtrack | src/tokenizer.rs:483-493 | the ids emitted are exactly the edges of that path, in order |
| Unigram.EncodeUnigram | src/tokenizer.rs:436-494 | the ids appended are those of an optimal path, or the merge encoding if there is no path |
| Unigram.NoneScoresMore | src/tokenizer.rs:443-482 | no way to cut the text into scored tokens has a higher total score than the path taken |
| Unigram.BestSegmentation | src/tokenizer.rs:443-494 | when no character falls back to bytes the ids are those of a segmentation of the text with the highest total score |
| SentencePiece.EncodeSp | src/tokenizer.rs:554-583 | normalization, cutting into words, each word encoded in order |
| SentencePiece.EncodeSpWhole | src/tokenizer.rs:547-583 | without live crossing rules the result is the encoding of the whole normalized segment |
| SpDecode.BuildSpTable | src/tokenizer.rs:239-261 | every id decodes to its special, to the byte it spells, or to its text with spaces for metaspaces |
| SpDecode.MergedStands | src/tokenizer.rs:497-545 | the merged parts decode to the text exactly when none of them is a token that spells a byte |
| SpDecode.PathStands | src/tokenizer.rs:436-494 | the ids of a path decode to the text under it exactly when none of its pieces is such a token |
| SpDecode.SegmentRoundTrip | src/tokenizer.rs:547-583 | a segment in which no such token occurs is given back, with the prepended space |
| SpDecode.EncodeSpDecodes | src/tokenizer.rs:547-583 | the same for the ids the running code returns |
| SpDecode.SpellingsAreLost | src/tokenizer.rs:436-494 | for every byte a loaded tokenizer turns the text that spells the byte into the byte |
| ByteLevel.ByteAlphabet | src/tokenizer.rs:60-79 | the two tables are inverse bijections between bytes and characters |
| ByteLevel.EncInjective | src/tokenizer.rs:60-79 | distinct bytes have distinct characters |
| ByteLevel.BuildIdTable | src/tokenizer.rs:239-261 | every id decodes to the bytes of its token, in whatever order the vocabulary is visited |
| ByteLevel.TokensStand | src/tokenizer.rs:239-261 | a special token decodes to its own text, any other to the bytes its characters stand for |
| ByteLevel.SplitSpecials | src/tokenizer.rs:643-665 | the nested loops compute the segments of the text, cut as TextCuts.SegmentsExactly says |
| ByteLevel.SegmentsPartition | src/tokenizer.rs:643-665 | splitting loses no text, and marked segments are exactly specials |
| TextCuts.SplitExactly | src/tokenizer.rs:653-661 | splitting at one special is cutting at its leftmost occurrences, and nothing else is |
| TextCuts.SegmentsExactly | src/tokenizer.rs:643-665 | the segments are those cuts, special by special, marked ones staying as they are |
| TextCuts.NoSpecialMissed | src/tokenizer.rs:643-665 | no special stands in an unmarked segment |
| ByteLevel.Pretokenize | src/tokenizer.rs:587-632 | the cursor loop computes the pieces |
| ByteLevel.PreTokensPartition | src/tokenizer.rs:587-632 | the pieces joined are the text |
| TextCuts.PreTokensExactly | src/tokenizer.rs:587-632 | the pieces are the longest runs of letters and non-ASCII, of digits, of spaces, of line ends or of anything else, each with one leading space, and no other cut is |
| Utf8Cuts.NoCharacterSplit | src/tokenizer.rs:587-665 | every segment and every piece cut out of a valid UTF-8 text is a valid UTF-8 text, so no slice is inside a character |
| Utf8Cuts.Utf8Carries | src/tokenizer.rs:533-540 | the bytes of every code point are its UTF-8, U+FFFD standing for what is not a scalar value |
| ByteLevel.EncodeBytes | src/tokenizer.rs:636-685 | the ids of a text: each special as its id, the pieces between them (TextCuts.PreTokensExactly) merged |
| TextCuts.EncodesExactly | src/tokenizer.rs:636-685 | the ids of a text are those of its specials and of its pieces, merged in the byte alphabet, after the beginning-of-text id if it is wanted, and no others |
| ByteLevel.RoundTrip | src/tokenizer.rs:636-692 | decoding the ids of any text gives back its bytes |
| ByteLevel.EncodeDecodes | src/tokenizer.rs:636-692 | the same for the ids the running code returns |
| Huffman.CheckKraft | src/imgcodec.rs:656-667 | the running check accepts exactly the lengths that are not over-subscribed |
| Huffman.PlaceSymbols | src/imgcodec.rs:668-679 | the placing loop puts every symbol in its slot |
| Huffman.Build | src/imgcodec.rs:651-681 | over-subscribed lengths are refused, all others get the table of their canonical codes |
| Huffman.TableOfIsFor | src/imgcodec.rs:668-680 | in the built table every symbol stands at the slot of its code |
| Huffman.SlotsDiffer | src/imgcodec.rs:668-679 | no two symbols share a slot |
| Huffman.CodeIsSpace | src/imgcodec.rs:668-696 | a code starts where the code space of the shorter codes and of the lower symbols of its length ends |
| Huffman.KraftInequality | src/imgcodec.rs:656-667 | no length is over-subscribed exactly when all codes fit the code space |
| Huffman.DecodeInvertsCode | src/imgcodec.rs:683-696 | decoding the canonical code of a symbol gives the symbol and consumes exactly its length |
| Huffman.DecodeFindsCode | src/imgcodec.rs:683-696 | decoding succeeds only on the code of a symbol |
| Inflate.ZBits.TakeBits | src/imgcodec.rs:620-634 | bits least significant first, or the truncation error |
| Inflate.ZBits.AlignByte | src/imgcodec.rs:636-641 | the next byte boundary |
| Inflate.ZBits.DecodeSymbol | src/imgcodec.rs:683-696 | the bit-by-bit decoder agrees with the decoding function, cursor included |
| Inflate.CopyMatch | src/imgcodec.rs:838-842 | the copy loop, which reads bytes it has just written |
| Inflate.TakeMatch | src/imgcodec.rs:827-843 | length, distance and their extra bits from tables that are those of RFC 1951 (Deflate.LengthTables, Deflate.DistanceTables), and the errors in order |
| Inflate.TakeSymbols | src/imgcodec.rs:822-846 | the symbol loop up to the end-of-block symbol |
| Inflate.TakeStored | src/imgcodec.rs:735-751 | stored blocks: length check, truncation, bytes |
| Inflate.TakeOrdered | src/imgcodec.rs:770-776 | the code lengths of the code-length alphabet in their fixed order |
| Inflate.TakeLengths | src/imgcodec.rs:778-816 | run-length coded code lengths, with the overflow errors |
| Inflate.TakeDynamic | src/imgcodec.rs:766-846 | dynamic blocks |
| Inflate.TakeBlocks | src/imgcodec.rs:731-853 | block after block to the one marked final |
| Inflate.InflateZlib | src/imgcodec.rs:716-854 | the whole inflater computes the inflating function on every input, errors included; Deflate.InflatesExactly says what that is |
| Deflate.CopyBackCopies | src/imgcodec.rs:838-842 | each byte of a copy equals the byte `dist` earlier, overlapping or not |
| Deflate.CopiesUnique | src/imgcodec.rs:838-842 | that determines the copy |
| Deflate.StreamIsBits | src/imgcodec.rs:620-634 | the inflater reads the bits of each byte lowest first |
| Deflate.LengthTables | src/imgcodec.rs:699-705 | the length tables are those of section 3.2.5 of RFC 1951, given by rule |
| Deflate.DistanceTables | src/imgcodec.rs:706-713 | the distance tables are those of section 3.2.5 |
| Deflate.EveryMatchNamed | src/imgcodec.rs:699-713 | every length from 3 to 258 and every distance from 1 to 32768 has a token |
| Deflate.MatchInRange | src/imgcodec.rs:699-713 | a token in a stream names no other length or distance |
| Deflate.OrderIsSent | src/imgcodec.rs:770-772 | the order of the code-length symbols is that of section 3.2.7 |
| Deflate.FixedCodes | src/imgcodec.rs:753-764 | the fixed codes are those section 3.2.6 lists |
| Deflate.FixedKraft | src/imgcodec.rs:753-764 | the fixed tables are not over-subscribed |
| Deflate.TokensRun | src/imgcodec.rs:822-846 | coded literals and matches inflate to what they stand for |
| Deflate.TokensFound | src/imgcodec.rs:822-846 | whatever the symbol loop accepts is coded literals and matches |
| Deflate.DynamicRuns | src/imgcodec.rs:766-846 | a dynamic block encoded by section 3.2.7 of RFC 1951 inflates to what its tokens stand for |
| Deflate.DynamicFound | src/imgcodec.rs:766-846 | whatever is accepted as a dynamic block is one |
| Deflate.InflateDecodes | src/imgcodec.rs:716-854 | inflating any encoding of any block list gives the bytes its literals and its (length, distance) matches stand for |
| Deflate.InflateAcceptsEncodings | src/imgcodec.rs:716-854 | inflating succeeds only on such encodings |
| Deflate.InflatesExactly | src/imgcodec.rs:716-854 | a stream inflates to an output if and only if it encodes blocks whose tokens stand for that output |
| PngFilter.DefilterByte | src/imgcodec.rs:967-1009 | one byte from its three neighbours under each filter, or the unknown-filter error; PngFilter.RestoresIs gives the five rules |
| PngFilter.Defilter | src/imgcodec.rs:963-1011 | the in-place loop computes the reconstruction, which PngFilter.UnfilterFollows characterises |
| PngFilter.UnfilterSucceeds | src/imgcodec.rs:1008 | it succeeds exactly when every row names one of the five filters |
| PngFilter.Equation | src/imgcodec.rs:986-1007 | every byte of the finished image is its filtered byte plus the prediction from the finished image |
| PngFilter.RestoresIs | src/imgcodec.rs:986-1007 | a byte is its filtered byte plus nothing, left, above, half of their sum rounded down, or the first of left, above and upper left that is nearest to left + above - upper left, modulo 256 |
| PngFilter.UnfilterFollows | src/imgcodec.rs:963-1011 | the loop gives an image exactly when every byte of it follows the filter of its row by those rules |
| PngFilter.UnfilterInverts | src/imgcodec.rs:963-1011 | reconstructing filtered rows restores the image, for every size, pixel width and choice of filters |
| PngFilter.DefilterInverts | src/imgcodec.rs:963-1011 | the loop gives an image if and only if the data are that image filtered |
| PngFilter.DecodeRows | src/imgcodec.rs:951-1011 | inflating, the length check and the loop together |
| PngFilter.DecodesImage | src/imgcodec.rs:951-1011 | any deflate encoding of any filtering of an image decodes to the image |
| JpegHuffman.BuildTable | src/imgcodec.rs:41-64 | smallest and largest code and first value of each length are those of the canonical assignment |
| JpegHuffman.NoOverflow | src/imgcodec.rs:44-56 | no code or index leaves 32 bits, whatever the counts |
| JpegHuffman.SegmentUnstuffs | src/imgcodec.rs:86-108 | reading stuffed data gives the data, up to the next marker |
| JpegHuffman.BitReader.NextBit | src/imgcodec.rs:86-108 | bits of the unstuffed bytes, most significant first, then zeros |
| JpegHuffman.BitReader.Huff | src/imgcodec.rs:118-130 | the decoder computes the table lookup and takes exactly its bits |
| JpegHuffman.HuffInvertsCode | src/imgcodec.rs:118-130 | decoding a canonical code gives the value assigned to it and takes exactly its bits |
| JpegHuffman.DecodersAgree | src/imgcodec.rs:118-130 | on the same code lengths the JPEG and deflate decoders read the same symbol from the same bits and refuse the same bits |
| GpuQueue.Counters.Admit | src/api.rs:265-275 | the depth check refuses exactly at the cap, with the depth it found |
| GpuQueue.Counters.TakeTicket | src/api.rs:246-249 | the ticket and the depth observed are those of the step |
| GpuQueue.Counters.MyTurn | src/api.rs:250-252 | the waiting test sends the caller to the permit or to sleep |
| GpuQueue.Counters.ServeNext | src/api.rs:295-303 | dropping the permit serves the next ticket |
| GpuQueue.RunKeeps | src/api.rs:244-303 | every step of every interleaving keeps the tickets outstanding exactly those from serving to next with one owner each, the mutex exclusive, the permit with ticket serving, and a notification pending for any sleeper whose turn it is |
| GpuQueue.ReachableInv | src/api.rs:244-303 | the same for every reachable state |
| GpuQueue.OnePermit | src/api.rs:216-258 | at most one caller holds the permit, and it is the one with ticket serving |
| GpuQueue.ServedAfterDepth | src/api.rs:244-261 | a caller that found `depth` ahead of it keeps its place, is let in after exactly `depth` drops and never before |
| GpuQueue.WakefulKept | src/api.rs:250-252 | no step loses a wakeup |
| GpuQueue.AlwaysAdmissible | src/api.rs:244-303 | from every reachable state every waiting caller can still be let in without arrivals or spurious wakeups |
| GpuQueue.CapHolds | src/api.rs:265-275 | with at most `k` callers between check and ticket the depth never exceeds cap - 1 + k |
| GpuQueue.CapIsExceeded | src/api.rs:265-275 | that depth is attained for every cap and `k` |
| LogRing.Ring.WriteRecord | src/log.rs:488-545 | truncation, reservation, and every store of the record in order |
| LogRing.Ring.ReadRecords | src/log.rs:549-628 | one pass over the slots and a sort |
| LogRing.Ring.ReadSlot | src/log.rs:551-617 | one slot: the checks before, the copy, the checks after |
| LogRing.WriteIsARun | src/log.rs:488-545 | an uninterrupted write is one schedule of the interleaved steps |
| LogRing.PayloadDecodes | src/log.rs:506-511 | a decoded record has the timestamp, line, level, file and message written, cut only at the largest size |
| LogRing.HeadLayout | src/log.rs:515-543 | the head slot field by field, its number cleared first and stored last |
| LogRing.TailLayout | src/log.rs:530-541 | the continuation slots, 64 bytes each |
| LogRing.StepKeeps | src/log.rs:501-543 | as long as writers publish within a lap, what a live record has stored stays in memory |
| LogRing.LiveApart | src/log.rs:501-504 | live reservations of different writers share no slot |
| LogRing.AcceptedIsUntorn | src/log.rs:549-628 | a reader that found a published record's number accepts exactly that record or nothing, under any interleaving and any checksum |
| LogRing.NothingTorn | src/log.rs:488-628 | the same for every state a timely run from the empty ring reaches |
| LogRing.LateWriterIsMisread | src/log.rs:501-543 | from every state in which the cursor has come round to a writer that has not stored its head, one more record is published and a reader gets the late writer's record under its number, whatever the checksum |
| LogRing.EveryRingIsMisread | src/log.rs:213-231 | such a state is reached in a ring of every size from its start, for every pair of records |
| LogRing.ReadsBody | src/log.rs:549-617 | with nobody writing, a number inside the window over a whole record is read as that record under that number |
| LogRing.LiveIsRead | src/log.rs:549-617 | with nobody writing, a published record inside the window is read back whole |
| LogRing.QuietReadIsComplete | src/log.rs:549-628 | a quiet read returns every such record after `since`, in the order written |
| LogRing.WrittenIsRead | src/log.rs:488-628 | a record written in a quiet ring is read back with everything it did not overrun |
| Sidecar.MetaWrite | src/hub.rs:586-609 | header and bitmap, bit by bit |
| Sidecar.MetaRead | src/hub.rs:613-630 | the checks in order and the bits |
| Sidecar.ReadFindsWritten | src/hub.rs:613-630 | whatever is accepted has the header and the chunk bits of a sidecar written for the same size, chunk size and count |
| Sidecar.ReadInvertsWrite | src/hub.rs:580-630 | a sidecar reads back as written, and only for the same size, chunk size and count |
| Sidecar.Layout | src/hub.rs:582-603 | magic, version, size, chunk size and count, lowest byte first, then one bit per chunk, lowest bit first |
| RangeDownload.ChunkOf | src/hub.rs:693-729 | every byte of the file lies in some chunk |
| RangeDownload.BeginsWhenNeeded | src/hub.rs:947-956 | a call does work exactly when the destination is missing or has the wrong size |
| RangeDownload.ResumesFromSidecar | src/hub.rs:691-747 | with a sidecar of this download a call keeps the partial file and starts with exactly the sidecar's bits |
| RangeDownload.StartsOver | src/hub.rs:695-711 | without one a partial file is not opened before it has been discarded |
| RangeDownload.Decides | src/hub.rs:891-915 | a call goes on to the rename exactly when no worker failed and no chunk is missing |
| RangeDownload.DeliverKeeps | src/hub.rs:647-670 | bytes written by one worker within its range never disturb another chunk |
| RangeDownload.RespondKeeps | src/hub.rs:790-818 | a chunk's bit is set only when its true bytes are in the file |
| RangeDownload.TallyKeeps | src/hub.rs:760-818 | whatever the responses bring, every step of the workers keeps the bookkeeping of chunks, claims and bytes |
| RangeDownload.SixAttempts | src/hub.rs:757-815 | five failed responses are each followed by a fresh attempt at the chunk, and the sixth ends the worker |
| RangeDownload.StepKeeps | src/hub.rs:680-944 | every step of workers, reporter, main thread or crash keeps the invariant, in range and with the sidecar removed after its file |
| RangeDownload.CrashSafe | src/hub.rs:582-930 | after any calls, with any chunk sizes, and any crashes, a bit in the sidecar while the partial file exists means the chunk's true bytes are there, if no response overran its range and no vouching sidecar outlived its file |
| RangeDownload.OkMeansComplete | src/hub.rs:905-930 | under the same conditions a call that returns Ok has left the remote file at the destination |
| RangeDownload.CarelessMisleads | src/hub.rs:695-711 | from every reachable state, every step that leaves a vouching sidecar behind is followed by a run in which it vouches for bytes the partial file does not hold |
| RangeDownload.ChunkChangeMisleads | src/hub.rs:691-711 | such a step is reached from a first call, for every file whose first chunk is not all zeros and any two chunk sizes, by a crash or a failed removal |
| RangeDownload.OverrunBreaks | src/hub.rs:647-670 | a response that runs on with a wrong byte into a chunk the sidecar vouches for breaks the promise at once |
| RangeDownload.OverrunMisleads | src/hub.rs:647-670 | this is reached from a first call, for every file of two or more chunks |
| RangeDownload.OverrunReturnsOk | src/hub.rs:786-930 | for every file, a failed response longer than the last chunk and a good retry end in Ok with the excess at the end of the destination |
| RangeDownload.WorkIsExact | src/hub.rs:760-800 | on every run no chunk is claimed twice or held by two workers, no complete chunk is fetched, and the byte total is that of the chunks set |
| RangeDownload.FinalTotal | src/hub.rs:733-800 | on every run, after the workers are joined the total is exactly the bytes of the chunks set |
| ChunkedStream.ChunkDecoder.FeedBytes | src/api.rs:567-598 | the decoder fed a slice does what it does byte by byte |
| ChunkedStream.FeedSplit | src/api.rs:567-598 | feeding in two parts is feeding at once |
| ChunkedStream.SizesExactly | src/api.rs:586-596 | a line is a chunk size exactly when, trimmed, it is hexadecimal digits worth less than 2^64, perhaps after a plus |
| ChunkedStream.FrameDecodes | src/api.rs:861-864 | decoding a chunk gives its data and is ready for the next |
| ChunkedStream.BodyDecodes | src/api.rs:567-598 | a chunked body decodes to the data of its chunks and its end is recognised |
| ChunkedStream.ChunkedWriter.Line | src/api.rs:845-870 | header once, then one chunk per object; a failed write silences the writer |
| ChunkedStream.ChunkedWriter.Finish | src/api.rs:871-875 | the last chunk, only after a start and only to a live client |
| ChunkedStream.WriteAll | src/api.rs:845-875 | a whole stream written without failures |
| ChunkedStream.GenerateStream | src/api.rs:483-536 | the client loop over any sequence of reads, failures and the unterminated last line included |
| ChunkedStream.ClientOfAll | src/api.rs:496-531 | however the stream is split, the client does what it would do had it come at once |
| ChunkedStream.StreamDelivers | src/api.rs:483-536 | every stream of objects the server writes reaches the callback whole and in order, and the done object is returned |
| ChunkedStream.PlainDelivers | src/api.rs:483-536 | without chunked framing the same, even if the last line is never ended |
| ChunkedStream.OnlyDoneIsReturned | src/api.rs:496-536 | whatever arrives, the object returned is the last one handed over that is marked done, and there is none when the client says so |
| ChunkedStream.BrokenFails | src/api.rs:513-516 | a read that fails makes the call fail |
| Braces.BalancedJsonEnd | src/api.rs:996-1026 | the scanning loop computes the end of the first balanced object |
| Braces.ObjectEnds | src/api.rs:996-1026 | for every JSON object text, with any text after it, the end found is the end of the object |
| Braces.DumpEnds | src/api.rs:996-1026 | for every printed object, of any depth, the end found is the length of the print |
| Braces.ParsedEnds | src/api.rs:996-1026 | the same for every text the parser accepts as an object |
| Braces.PrefixIsNoObject | src/api.rs:1034-1052 | no proper prefix of an object's text parses, trimmed or not |
| ToolCalls.ExtractToolCalls | src/api.rs:1028-1084 | the loop ends and computes the cut of the completion into prose and call blocks, which the rows below decide for every completion |
| Search.TrimExactly | src/api.rs:1036 | trimming removes exactly the ASCII whitespace at both ends |
| ToolCalls.NothingElseLost | src/api.rs:1053-1082 | the pieces are the whole completion in order, and a block is taken out only if its text is that of an object with a name, the call being its name and its arguments |
| ToolCalls.CallsExtracted | src/api.rs:1028-1063 | from every completion whose open tags are closed: one call for each block whose text is that of an object with a name, with that name and its own arguments (the empty object only when it has none), in order, and everything else as text |
| ToolCalls.ClosedStep | src/api.rs:1053-1063 | a closed block leaves the text as its call, or stays in it, and the search goes on behind it |
| ToolCalls.StrayStep | src/api.rs:1072-1079 | an open tag with no closing tag after it and no call behind it stays, and the search goes on |
| ToolCalls.UnclosedCall | src/api.rs:1064-1080 | a call without its closing tag comes out with its name and arguments, and the search goes on behind it |
| ToolCalls.ClosedCallExactly | src/api.rs:1053-1063 | a printed call comes out, with its name and arguments, if and only if its own text does not contain the closing tag |
| ToolCalls.AwkwardCallIsLost | src/api.rs:1053-1063 | a call named by the closing tag is printed and parsed like any other, and is not extracted |
| GgufHeader.Cursor.TakeValue | src/formats.rs:177-215 | a typed value, arrays to depth 2, with the errors in order |
| GgufHeader.Cursor.TakeString | src/formats.rs:165-175 | a length-prefixed string, with the limit checked before the bytes |
| GgufHeader.ParseHeaderBytes | src/formats.rs:449-503 | metadata, names, types and shapes, or the first error |
| GgufHeader.ParsePartHeader | src/formats.rs:513-571 | the loader's reader of the same header, with offsets and the position after it |
| GgufHeader.HeaderStable | src/formats.rs:449-503 | a header that parses parses the same on every extension, every error but truncation persists, and truncation means the header is longer |
| GgufHeader.PreflightHeader | src/hub.rs:1745-1763 | the doubling loop ends and computes the window search |
| GgufHeader.PreflightExactly | src/hub.rs:1739-1763 | the loop returns what the loader reads from the whole file exactly when the header ends within the cap |
| GgufHeader.PreflightErrors | src/hub.rs:1745-1763 | any other error than truncation is the whole file's error |
| GgufEncoding.ValueReads | src/formats.rs:177-215 | a metadata value written by the format is read back as what it means |
| GgufEncoding.RecordReads | src/formats.rs:481-501 | a tensor record is read back, dimensions outermost first |
| GgufEncoding.HeaderReads | src/formats.rs:449-503 | a header written by the format is read back whole, whatever data follow |
| GgufEncoding.HeaderFound | src/formats.rs:449-503 | whatever header is read was written by the format, limits included |
| GgufEncoding.HeadersExactly | src/formats.rs:449-503 | a file is read as a header if and only if it begins with one written for it |

## Left out

- JSON numbers: values are exact decimals, so rounding to 64-bit floats is not modelled; the printer is
  modelled on integers below 2^53 in magnitude, its other branch prints floats.
- JSON input: `parse` takes a valid UTF-8 string, and bytes from 0x80 up are opaque string bytes here, as
  they are to the code; invalid UTF-8 cannot reach it.
- JSON errors: messages become error kinds, and the texts of a few kinds (hexadecimal, surrogate) are one.
- JsonParser.Parser.String: the surrogate pair arithmetic wraps as in a release build; a debug build panics
  on a low half below 0xDC00.
- SchemaGuard.SchemaGuard.PushByte: the guard inside a free-form hole is a value that is cloned before each
  byte, as in the code.
- ByteLevel.EncodeBytes: an empty special literal makes the splitting loop of the code run forever, so
  specials are nonempty.
- Unigram.EncodeUnigram: scores are reals; 32-bit float rounding of sums is not modelled.
- SpDecode.BuildSpTable: the table as built from `tokenizer.json`; the GGUF loader decodes a token `<0x..>`
  that is no hexadecimal byte to a question mark instead of its text.
- SpDecode.EncodeSpDecodes: one text segment; where the specials between segments stand is TextCuts, and a text
  is not encoded across both modules.
- Tokenizer files: loading `tokenizer.json` or GGUF metadata, BOS and EOS discovery, chat templates.
- Inflate.InflateZlib: the checksum after the data is not read, as in the code; the two header errors are one.
- PNG chunk parsing, palettes, sub-byte samples and the expansion to RGB; JPEG beyond its Huffman codes.
- GpuQueue: ticket numbers do not wrap at 2^64; poisoned mutexes and waiting-time metrics; fairness of the
  scheduler, so admission is shown possible from every state, not inevitable.
- LogRing: sequentially consistent steps at slot granularity; the checksum is an unknown function, so
  nothing is claimed about forged heads; a forged record of length 0 panics in the code and is decoded as
  empty here; text is kept as bytes, without the lossy UTF-8 conversion.
- LogRing.NothingTorn: assumes each writer publishes before the cursor passes its start by more than one
  lap, which the code does not enforce and without which the statement is false
  (LogRing.LateWriterIsMisread). What a writer stores over newer records when it falls a lap behind after
  its head is stored is not analysed: whether a reader accepts it is up to the checksum, of which nothing is
  assumed.
- RangeDownload.CrashSafe: a success response no longer than its range is taken to bring the range's own
  bytes, and nobody else touches the files, calls over a single connection included. Rates, progress display,
  retry delays and power loss are not modelled.
- RangeDownload.CarelessMisleads: when the partial file is gone, only a vouched chunk that is not all zeros
  can be wrong, since what replaces the file are zeros.
- ChunkedStream: sockets, request headers and the response header parser; size lines padded with non-ASCII
  space; lossy UTF-8 conversion of lines.
- ToolCalls.ExtractToolCalls: trimming removes ASCII whitespace only.
- GgufHeader.ParsePartHeader: the data section check and alignment after the header; names keep their bytes,
  without the lossy UTF-8 conversion; floating-point metadata stay bit patterns; failing fetches.
- GPU kernels, device memory, quantization formats, samplers, the HTTP server, the CLI, the model registry
  and media preprocessing.
