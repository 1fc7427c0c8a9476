# WKOpenVR: models and proofs in Dafny

This project models the parts of WKOpenVR whose correctness is hardest to see, and proves what they promise. Each
component has a definition of what it means (functions on values), the code itself in its own form (methods with
loops, arrays and fields that change in place), and lemmas about the definition: round trips against an encoder,
invariants over every interleaving, or equality with a batch formula. The method's contract ties the two together.

- **Inflate** (`lib/stb_image.h`). `Bits` has the C operators bit by bit. `Canonical` defines canonical Huffman codes
  (section 3.2.2 of RFC 1951); `ZHuffman` builds the tables; `ZBuf` is the byte cursor, bit buffer, symbol decoder and
  growing output; `InflateBlock`, `Inflate` and `DynamicHeader` decode the three kinds of blocks; `ZlibStream` decodes a
  whole stream. `DeflateEncode`, `ZlibEncode` and `ZlibFile` are encoders as functions, with the proof that decoding
  undoes them. `DeflateTables` states the tables and orders of RFC 1951 in numbers, and two files in full.
- **GIF** (`lib/stb_image.h`). `GifLzw` is the code stream of Appendix F of GIF89a, `GifFrame` the walk over a frame,
  interlaced or not, and `GifRaster` the decoder over sub-blocks, bit buffer, code table and recursive emitter.
  `GifLaws` has widths, limits, line order and colours in numbers, and a raster in full.
- **PNG** (`lib/stb_image.h`). `PngFilter` undoes the filters of section 6 of RFC 2083 in two alternating rows,
  `PngSamples` unpacks samples, `PngImage` decodes an image and `Adam7` an interlaced one. `PngAlpha` adds alpha bytes in
  place, `Grid` numbers pixels, and `PngFormat` says what bytes, samples and pixels are without the decoder's functions.
- **JPEG** (`lib/stb_image.h`). `JpegAc` is the combined table for small AC coefficients against symbol and magnitude one
  after the other; `JpegScan` is the same over the entropy-coded bytes, with refill, byte stuffing and markers;
  `JpegBlock` decodes a whole block, with an encoder that the decoder undoes. `JpegLaws` has the facts of ITU-T T.81
  that these definitions rest on.
- **JSON** (`lib/picojson.h`). `JsonText` defines printing and parsing, `JsonRoundTrip` proves the round trip,
  `JsonOutput` is the serializer over an output iterator and `JsonInput` the parser over a cursor with push-back.
  `JsonGrammar` is the grammar of RFC 8259 byte by byte, with white space between any tokens: the parser accepts exactly
  its texts and gives each its value. `JsonLayout` says how printed texts look.
- **Shared memory** (`core/src/common/Protocol.h`). `Seqlock` (per-slot snapshots) and `FrameRing` (32 slots and a publish
  index) are state machines in which one writer and any number of readers take interleaved atomic steps and bodies are
  copied piece by piece; `SharedSlot` is what they share. `SeqlockReads` and `FrameReads` tie a read to what its call
  asked for and loaded, say when it fails, and what undisturbed calls do. `PoseRing` is the 65536-slot ring with a lagging cursor.
- **Driver** (`core/src/driver`, `core/src/common/MotionGate.h`). `Isometry` is the algebra of rigid transforms, `Blend`
  the law by which a device moves to its target, `DriverState` what each handler makes of the state that the mutex
  guards, `Driver` the provider class that changes it in place, `DriverRuns` runs of handlers in which the pose hook may
  be split where it drops the mutex, `FallbackTable` the flat table as a map from names, `DriverMotion` where the hook
  puts a device, across messages and frames, and `DriverMessages` where it puts a device behind a message, in the
  message's own terms. `BlendLaws` says which speed, gate and step a frame has.
- **Estimators**. `PageHinkley`, `BlendFilter` and `Welford`; `EstimatorLaws` has their terms in numbers, `RealMath`
  products of reals.
- `Options` is a value that may be missing.

## Assumptions

- Shared-memory steps are sequentially consistent, every started write finishes, and generations do not wrap.
- `double` is an exact real. Square roots, angular distance, slerp and the wrapping of angles are arbitrary functions
  given as parameters; the isometry lemmas that need it assume that a square root is non-negative and squares back, and
  `DriverMotion` that slerp returns unit quaternions, and `DriverMessages.MessageMovesFrame` that slerp between a rotation
  and itself is that rotation.
- JSON numbers are reals; printing and reading of numbers by the C library are parameters, assumed only to agree on
  integers below 2^53 in size (`JsonRoundTrip.ReadsIntegers`). `PICOJSON_USE_INT64` is not defined, as in this
  repository. An object is the list of its members in key order, as `std::map` has it.
- One clock reading stands for all readings of a handler, or of each half of the pose hook.

## Where the code and its comments disagree

The models follow the code.

- `lib/stb_image.h:6713` says that a missing first clear code is supported; line 6745 rejects data before a clear code
  (`GifLzw.FirstCodeDecides` says exactly when, `GifRaster.RasterNeedsClear` for which rasters).
- `lib/stb_image.h:6757` compares the code with the table size after the size was increased, so the comparison is never
  true there; the stored byte is right all the same (both in `GifRaster.TableGrows`).
- `core/src/driver/ServerTrackedDeviceProvider.cpp:894-899` says that the state is untouched while the hook has
  released the mutex. Messages may change it: `DriverRuns.SplitHookBreaksExclusion` has such a run, and
  `DriverRuns.RunExclusiveIff` says exactly which runs keep the exclusion.
- `core/src/common/Protocol.h:1862-1864` says that a read by index fails once the frame was overwritten. It may instead
  return a frame that is newer by a multiple of 32: `FrameRing.ReadIsExactIff` says exactly when, and
  `FrameRing.LateReadIsNewer` has a run with two different bodies.
- `core/src/driver/ServerTrackedDeviceProvider.cpp:776` tests a smoothness of the fallback that nothing sets any more.
- `lib/stb_image.h:2240` reports an error where the slower branch beside it would pad the data with zeros
  (`JpegScan.OverrunPads`; `JpegScan.OverrunHappens` has such a scan).

## Model

| member | source | states |
|---|---|---|
| Bits.BitReverseIsRev | lib/stb_image.h:4107-4122 | the swap-masks-and-shift reversal moves bit i of a `bits`-wide number to bit `bits - 1 - i`, for all widths up to 16 |
| Bits.PackKeeps | lib/stb_image.h:4202-4212 | bits packed into bytes least significant bit first are the bits that the reader meets first |
| Canonical.UsedFitImpliesAccepted | lib/stb_image.h:4124-4169 | if no used code length overflows its width, the Kraft sum of all lengths is at most 1 (the per-length test is the whole test) |
| Canonical.MaxCodeIsKraft | lib/stb_image.h:4139-4149 | maxcode of length l is twice the weighted count of the symbols with length at most l |
| Canonical.MatchUnique | lib/stb_image.h:4224-4241 | at most one symbol has a code that starts a given 16-bit window |
| Canonical.MatchExists | lib/stb_image.h:4224-4241 | a window between maxcode of l - 1 and maxcode of l starts with the code of a symbol of length l, at the offset the slow path computes |
| Canonical.StartsUnique | lib/stb_image.h:4243-4271 | with a Kraft sum of at most 1, at most one symbol has a canonical code (section 3.2.2 of RFC 1951) that starts a stream: the code is prefix-free |
| Canonical.DecodeUndoesSymbol | lib/stb_image.h:4243-4271 | decoding a symbol's code followed by anything returns that symbol and leaves what follows |
| ZHuffman.FastEntryMeaning | lib/stb_image.h:4151-4167 | a zero fast entry means no code of at most 9 bits starts the index; a non-zero one packs the symbol and length of the one that does |
| ZHuffman.Huffman.CountSizes | lib/stb_image.h:4129-4134 | counts how many symbols have each code length |
| ZHuffman.Huffman.AssignColumns | lib/stb_image.h:4138-4150 | fills the first code, first symbol and limit of every length, and succeeds exactly when the Kraft sum is at most 1 |
| ZHuffman.Huffman.FillFast | lib/stb_image.h:4159-4163 | the strided loop changes exactly the fast entries whose low s bits are the reversed code |
| ZHuffman.Huffman.EnterSymbols | lib/stb_image.h:4151-4167 | after all symbols, the fast table, sizes and values are those of the canonical code |
| ZHuffman.Huffman.Build | lib/stb_image.h:4124-4169 | the build succeeds exactly when the Kraft sum is at most 1, and then every table entry is that of the canonical code; the bad-sizes test never decides by itself |
| ZBuf.FastHit | lib/stb_image.h:4263-4269 | a non-zero fast entry gives the unique symbol whose code starts the window, and its length |
| ZBuf.FastMiss | lib/stb_image.h:4229-4233 | a zero fast entry means the window lies at or above the limit of length 9, so the slow path may start at length 10 |
| ZBuf.SlowHit | lib/stb_image.h:4230-4240 | the first length whose limit exceeds the reversed window yields the symbol whose code starts it, and the two defensive checks (length and index bounds) do not fire |
| ZBuf.SlowMiss | lib/stb_image.h:4230-4233 | at length 16 no code starts the window |
| ZBuf.Buf.Get8 | lib/stb_image.h:4192-4200 | next byte, or 0 past the end |
| ZBuf.Buf.FillBits | lib/stb_image.h:4202-4212 | keeps the bit accounting: the buffer holds exactly the stream's next num_bits bits and is smaller than 2^num_bits, num_bits stays at most 32, and at least 25 bits are buffered; so the corruption guard cannot fire |
| ZBuf.Buf.Receive | lib/stb_image.h:4214-4222 | returns the number formed by the next n bits of the stream, least significant first, and consumes exactly them |
| ZBuf.Buf.DecodeSlowPath | lib/stb_image.h:4224-4241 | returns the symbol that the definition assigns to the next 16 bits and consumes its length, or -1 when there is none |
| ZBuf.Buf.Decode | lib/stb_image.h:4243-4271 | fast table and slow path together agree with the definition: the symbol whose canonical code starts the stream, its length consumed, or -1 |
| ZBuf.Buf.Expand | lib/stb_image.h:4273-4293 | growing succeeds exactly when growing is allowed and doubling can reach the size below the overflow limit, and keeps every byte written so far |
| InflateBlock.CopyRun | lib/stb_image.h:4349-4351 | the distance-1 shortcut equals the general overlapped copy |
| InflateBlock.CopyBytes | lib/stb_image.h:4352-4354 | the copy loop yields the overlapped copy: byte k repeats the output byte `dist` places before |
| InflateBlock.PutMatch | lib/stb_image.h:4344-4355 | makes room, then appends the overlapped copy; fails exactly when room cannot be made |
| InflateBlock.ParseDistance | lib/stb_image.h:4339-4342 | decodes a distance symbol and its extra bits to a distance; fails when no code matches or the symbol is 30 or 31 |
| InflateBlock.ParseMatch | lib/stb_image.h:4336-4342 | length base plus extra bits, then the distance, as section 3.2.5 of RFC 1951 has them, whatever zeros follow the input; fails on none that is complete |
| InflateBlock.ParseHuffmanBlock | lib/stb_image.h:4309-4357 | for every input, cut off or not: success means that the block, with enough zeros behind the input, ends where the cursor is and stands for the output by the recursive definition; a block whose bits are all there succeeds exactly when it is valid and its output fits |
| DeflateEncode.LengthReached | lib/stb_image.h:4295-4301 | every length 3..258 is reached from its symbol's base with its number of extra bits |
| DeflateEncode.DistReached | lib/stb_image.h:4303-4307 | every distance 1..32768 is reached from its symbol's base with its number of extra bits |
| DeflateEncode.BlockUndone | lib/stb_image.h:4309-4357 | decoding the coding of any list of literals and matches, with any accepted pair of tables, ended by symbol 256, yields exactly its LZ77 expansion and leaves what follows |
| Inflate.DrainBuffer | lib/stb_image.h:4415-4421 | moves the bytes still in the bit buffer to the header, in order; the bytes taken are at most 4 |
| Inflate.ReadStoredHeader | lib/stb_image.h:4411-4425 | the drained and read bytes together are the 4 bytes at the byte-aligned position |
| Inflate.ParseUncompressedBlock | lib/stb_image.h:4409-4436 | stored block (section 3.2.4 of RFC 1951): skips to the byte boundary, checks length against its complement, and appends exactly the input bytes after the header; the cursor ends behind them |
| DynamicHeader.ReadSizes | lib/stb_image.h:4372-4376 | reads the 3-bit sizes of the code-length code in the permuted order |
| DynamicHeader.RepeatStep | lib/stb_image.h:4386-4400 | symbols 16, 17 and 18 repeat the previous length or zero the number of times of section 3.2.7 of RFC 1951; rejected when there is no previous length or too few places |
| DynamicHeader.ReadCodeLengths | lib/stb_image.h:4379-4403 | success means that the lengths are those of the recursive definition, with enough zeros behind the input, and end where the cursor is; lengths whose bits are all there are always read |
| DynamicHeader.BuildBoth | lib/stb_image.h:4404-4405 | both tables are built exactly when both halves of the lengths have a Kraft sum of at most 1 |
| DynamicHeader.ComputeHuffmanCodes | lib/stb_image.h:4359-4407 | success means that the header describes exactly the two tables built, with enough zeros behind the input; a header whose bits are all there fails only when it is invalid |
| ZlibEncode.OpsUndone | lib/stb_image.h:4379-4403 | any list of length and repeat operations that fits is read back as the lengths it writes |
| ZlibEncode.HeaderUndone | lib/stb_image.h:4359-4407 | any coded dynamic header is read back as its two lists of code lengths |
| ZlibStream.FixedLLAccepted | lib/stb_image.h:4452-4479 | the fixed literal/length table has a Kraft sum of at most 1 |
| ZlibStream.FixedDDAccepted | lib/stb_image.h:4452-4479 | the fixed distance table has a Kraft sum of at most 1 |
| ZlibStream.ParseZlibHeader | lib/stb_image.h:4438-4450 | accepts exactly the headers of RFC 1950 with checksum, without preset dictionary, of method 8, and consumes them |
| ZlibStream.ParseBlock | lib/stb_image.h:4490-4505 | one block of any of the three kinds as defined, whatever zeros follow the input; kind 3 is rejected, and a block behind the end of the input too |
| ZlibStream.ParseZlib | lib/stb_image.h:4481-4508 | the block loop succeeds only with the output that the input stands for, with enough zeros behind it if it is cut off; a complete stream fails exactly when it is invalid or its output exceeds the limit |
| ZlibStream.DoZlib | lib/stb_image.h:4510-4518 | for every input: success only with the output that the input stands for once enough zeros follow it (which output does not depend on how many); for a complete stream, success exactly when it is valid and fits |
| ZlibFile.StoredUndone | lib/stb_image.h:4409-4436 | a stored block read back yields its data |
| ZlibFile.PartsUndone | lib/stb_image.h:4481-4508 | any list of stored, fixed and dynamic blocks read back yields their joint output, whatever the blocks before left in the bit buffer |
| ZlibFile.ZlibUndone | lib/stb_image.h:4481-4518 | a whole zlib file (header, blocks, at least the trailer behind them) read back yields the output of its blocks |
| ZlibFile.EverythingEncodable | lib/stb_image.h:4481-4518 | every byte string has a zlib file that is read back as it |
| GifLzw.WidthInStep | lib/stb_image.h:6763-6766 | the decoder's mask test widens the code exactly when the encoder does, for every table size |
| GifLzw.ResolveUndone | lib/stb_image.h:6744-6761 | each sent code names the sent string, including the code that equals the next free entry |
| GifLzw.LzwUndone | lib/stb_image.h:6718-6773 | from any point in step, decoding the coding of the remaining indices yields them, across table resets |
| GifLzw.StreamUndone | lib/stb_image.h:6699-6773 | decoding the coding of any index sequence (minimum code size 2..8, a clear before the table is full) yields it (Appendix F of GIF89a) |
| GifLzw.FullTableRejects | lib/stb_image.h:6749-6753 | a data code that names a string is rejected exactly while the table holds all its 8192 entries, and drawn and learned otherwise |
| GifLzw.FirstCodeDecides | lib/stb_image.h:6713-6746 | before any clear code, a stream is rejected whatever follows its first code if and only if that code is neither the clear code nor the end code |
| GifLzw.CodingNeedsClear | lib/stb_image.h:6713-6746 | every coding of some indices is rejected when only its leading clear code is left out |
| GifFrame.RowsOnce | lib/stb_image.h:6679-6688 | the order in which rows are visited, interlaced or not, is a permutation of the rows: both directions |
| GifFrame.NextRow | lib/stb_image.h:6679-6688 | advancing from row r of the visit order gives row r + 1 of it, empty passes skipped, or ends below the frame |
| GifFrame.WalkPlace | lib/stb_image.h:6654-6689 | after n pixels the cursor stands on row n / w of the visit order and column n % w, or below the frame when it is full |
| GifFrame.PixelOnce | lib/stb_image.h:6654-6689 | the n-th pixel drawn is in the frame and no other number draws it |
| GifFrame.DrawAllPaints | lib/stb_image.h:6654-6689 | after drawing s, a byte is the colour of the index of its pixel when that was reached and is opaque, and the old byte otherwise; the marks of touched pixels likewise |
| GifRaster.BlocksUndone | lib/stb_image.h:6719-6742 | splitting bytes into sub-blocks and reading them back joins to the same bytes and ends behind the terminator |
| GifRaster.RasterUndone | lib/stb_image.h:6691-6774 | the raster bytes of any index sequence mean that sequence, and end where they end |
| GifRaster.RasterNeedsClear | lib/stb_image.h:6699-6746 | so is every raster that holds such a coding |
| GifRaster.OnePixelNeedsClear | lib/stb_image.h:6699-6746 | the raster bytes 2, 1, 40, 0, one pixel without a leading clear code, are rejected |
| GifRaster.TableGrows | lib/stb_image.h:6749-6757 | a new entry (prefix, first, suffix) denotes the old string plus the first byte of the new one, also when the code equals the new entry; all earlier entries keep their meaning; the code never equals the table size after its increase |
| GifRaster.Gif.OutGifCode | lib/stb_image.h:6654-6689 | draws exactly the string that the code denotes, in order; it terminates because every prefix is smaller than its entry |
| GifRaster.Gif.AddEntry | lib/stb_image.h:6750-6757 | stores the new entry so that the table denotes one more string |
| GifRaster.Gif.DataCode | lib/stb_image.h:6744-6770 | a data code is accepted exactly as defined, then draws its string and leaves variables and table in step with the definition |
| GifRaster.Gif.FillBits | lib/stb_image.h:6719-6727 | adding a byte, starting a new sub-block where needed, keeps the bits still to come the same |
| GifRaster.Gif.SkipBlocks | lib/stb_image.h:6739-6743 | after the end code the cursor ends behind the terminator of the sub-blocks |
| GifRaster.Gif.ProcessRaster | lib/stb_image.h:6691-6774 | for every input: fails exactly when the raster is corrupt, otherwise draws exactly the indices that the raster means |
| GifRaster.DrawFrame | lib/stb_image.h:6845-6891 | a decoded frame paints exactly its pixels, each with the colour of its index, and touches nothing else |
| JsonRoundTrip.DecimalReads | lib/picojson.h:473-501 | the decimal text of an integer is an integer text whose value is that integer |
| JsonRoundTrip.NumberUndone | lib/picojson.h:849-867 | the text of an integer below 2^53 in size, followed by what can follow a number, reads back as that number |
| JsonRoundTrip.CharUndone | lib/picojson.h:522-550 | each byte as printed, plain or escaped, reads back as that byte |
| JsonRoundTrip.CharsUndone | lib/picojson.h:552-557 | every byte string reads back from its printed text |
| JsonRoundTrip.ItemsUndone | lib/picojson.h:581-599 | the items of an array read back in order, at every indentation |
| JsonRoundTrip.MembersUndone | lib/picojson.h:601-627 | the members of an object with sorted keys read back in order, at every indentation |
| JsonRoundTrip.ValueUndone | lib/picojson.h:574-637 | every value reads back from its text at every indentation, before anything that can follow a value |
| JsonRoundTrip.RoundTrip | lib/picojson.h:559-643 | parsing the serialized text gives the same value, compact and prettified (RFC 8259) |
| JsonRoundTrip.AssignKeepsSorted | lib/picojson.h:998-1009 | assigning a member keeps the keys sorted and distinct |
| JsonRoundTrip.AssignSets | lib/picojson.h:998-1009 | assigning a key changes the value of that key only |
| JsonRoundTrip.ParsedIsMap | lib/picojson.h:869-921 | every parsed value has objects with sorted, distinct keys at every depth: a later member with the same key replaces the earlier one |
| JsonOutput.Output.SerializeString | lib/picojson.h:522-557 | appends the quoted and escaped string |
| JsonOutput.Output.SerializeArray | lib/picojson.h:581-599 | appends the array text: items separated by commas, lines and indentation in prettified form only |
| JsonOutput.Output.SerializeObject | lib/picojson.h:601-627 | appends the object text: members separated by commas, a space after the colon in prettified form only |
| JsonOutput.Output.Serialize | lib/picojson.h:574-637 | appends the serialized text of the value |
| JsonOutput.SerializeText | lib/picojson.h:559-565 | returns the serialized text, compact or prettified |
| JsonInput.TextInput.Getc | lib/picojson.h:654-667 | takes the next byte or -1 at the end; the rest shrinks by it, and a pushed-back byte comes again |
| JsonInput.TextInput.Ungetc | lib/picojson.h:668-672 | the last byte taken is in the rest again |
| JsonInput.TextInput.SkipWs | lib/picojson.h:682-690 | leaves the rest without leading white space |
| JsonInput.TextInput.ExpectChar | lib/picojson.h:691-698 | skips white space and takes the expected byte, or takes nothing but the white space |
| JsonInput.TextInput.MatchText | lib/picojson.h:699-708 | succeeds exactly when the rest starts with the pattern; takes what both have in common |
| JsonInput.TextInput.ParseQuadhex | lib/picojson.h:710-729 | the value of four hexadecimal digits, or -1 with the cursor on the first byte that is none |
| JsonInput.TextInput.ParseCodepoint | lib/picojson.h:731-770 | one escape, or two that form a surrogate pair, as UTF-8; fails exactly on lone or wrong surrogates and bad digits, with the cursor as defined |
| JsonInput.TextInput.ParseStringBody | lib/picojson.h:772-811 | reads a string as defined, on every input, or fails with the cursor as defined |
| JsonInput.TextInput.ParseNumberText | lib/picojson.h:849-867 | takes the longest run of number characters, the decimal point replaced by the locale's |
| JsonInput.TextInput.ParseArrayValue | lib/picojson.h:813-828 | reads an array as defined, or fails with the cursor as defined |
| JsonInput.TextInput.ParseObjectValue | lib/picojson.h:830-847 | reads an object as defined, or fails with the cursor as defined |
| JsonInput.TextInput.ParseAny | lib/picojson.h:869-921 | reads a value as defined, on every input: same value, same failures, same rest behind either; it terminates |
| JsonInput.ParseText | lib/picojson.h:1072-1093 | parsing a text gives the value, the failure or the exception of the definition, and the same unread rest behind a value or a failure |
| JsonInput.PairBits | lib/picojson.h:746-752 | the shifts and masks on a surrogate pair give the code point of the pair |
| JsonInput.PushUtf8 | lib/picojson.h:755-768 | the shifts and masks give the UTF-8 bytes of a code point |
| JsonInput.Utf8Undone | lib/picojson.h:755-768 | an independent UTF-8 reader recovers the code point and the length of its encoding |
| JsonInput.EscapeRead | lib/picojson.h:731-770 | the escape of every scalar code point, as one escape or a surrogate pair, reads back as its UTF-8 bytes |
| PngFilter.PaethSame | lib/stb_image.h:4657-4668 | the threshold form equals the definition in section 6.6 of RFC 2083 for all integers |
| PngFilter.FirstRowSame | lib/stb_image.h:4648-4655 | each substituted first-row filter predicts what the real one predicts below a row of zeros |
| PngFilter.FilterUndone | lib/stb_image.h:4737-4787 | for all five filters, every row and every prior row: unfiltering the filtered row gives the row back |
| PngFilter.UnfilterRow | lib/stb_image.h:4737-4787 | the in-place row loop computes the reconstruction of the row from the data and the prior row in the other half of the buffer, and keeps that half |
| PngSamples.SamplePacked | lib/stb_image.h:4797-4817 | the sample at each place of a packed row of depth 1, 2, 4, 8 or 16 is the sample that was packed there |
| PngSamples.RegisterStep | lib/stb_image.h:4797-4817 | the top bits of the shifted byte are the sample at that place, and shifting moves on to the next |
| PngSamples.ExpandBits | lib/stb_image.h:4797-4817 | the bit loops give every sample of the row times the scale, including a partial last byte |
| PngImage.RowsUndone | lib/stb_image.h:4737-4787 | every decoded row of an encoded image is the packed source row, whatever filter each row chose |
| PngImage.PixelUndone | lib/stb_image.h:4696-4859 | every decoded pixel of an encoded image is the source pixel, scaled to eight bits where the depth is below, with an opaque alpha where one is added |
| PngImage.CreatePngImageRaw | lib/stb_image.h:4696-4859 | fails exactly when the sizes, the data length or a filter byte are wrong; otherwise every output pixel is the decoded one |
| PngAlpha.OnePixel | lib/stb_image.h:4679-4691 | one pixel expanded at the front of those already expanded keeps them and all other bytes |
| PngAlpha.AlphaExpand8 | lib/stb_image.h:4675-4693 | every pixel becomes its own bytes and an opaque alpha byte, and nothing behind them changes, also when the expanded pixels overwrite the array they are read from |
| Adam7.PassHolds | lib/stb_image.h:4872-4900 | the place that a pass writes for its pixel (i, j) belongs to that pass and back to (i, j) |
| Adam7.PixelHasPlace | lib/stb_image.h:4872-4900 | every pixel is written by the pass of its residues modulo 8, from one place |
| Adam7.PlaceInside7 | lib/stb_image.h:4876-4880 | a pass has exactly the columns and rows whose places lie in the image |
| Adam7.CopyPass | lib/stb_image.h:4886-4894 | copying a pass writes exactly its pixels and leaves all others |
| Adam7.CreatePngImage | lib/stb_image.h:4861-4904 | all seven passes together give every pixel of the image the pixel of its pass; fails exactly when the image is too large or a pass with pixels does not decode |
| Adam7.InterlacedUndone | lib/stb_image.h:4861-4904 | de-interlacing an image interlaced as in section 2.6 of RFC 2083, each pass with any filters, gives every pixel back |
| Adam7.EncodedPassesOk | lib/stb_image.h:4861-4904 | every such interlaced image is accepted, followed by anything |
| JpegAc.ReceiveIsExtend | lib/stb_image.h:2153-2166 | rotation, masks and bias give EXTEND (section F.2.2.1 of ITU-T T.81) of the n top bits of the buffer, and drop them |
| JpegAc.FastIsSlow | lib/stb_image.h:2050-2073 | for every AC table and every buffer that holds the bits of a non-zero fast entry: run, signed coefficient, bits consumed and remaining buffer are those of decoding the symbol and receiving its magnitude |
| JpegAc.BuildFastAc | lib/stb_image.h:2050-2073 | fills every entry with the defined one, zero where it does not apply |
| JpegScan.GrowFollows | lib/stb_image.h:2075-2091 | refilling leaves all bits still to come the same: buffered bits, then the data without stuffed zeros and fill bytes up to the marker, then zeros |
| JpegScan.SymbolFollows | lib/stb_image.h:2097-2146 | a decoded symbol leaves exactly the bits behind its code to come |
| JpegScan.ReceiveMeaning | lib/stb_image.h:2153-2166 | a received magnitude is EXTEND of the next n bits of the data and leaves what follows them; when the data ended too early it is 0 and takes nothing |
| JpegScan.EntryIsNext | lib/stb_image.h:2229-2260 | with the buffer refilled as in the loop, an entry whose bits are buffered gives the run and coefficient of the slow branch and leaves the same bits to come |
| JpegScan.OverrunPads | lib/stb_image.h:2236-2241 | in the one remaining case, an entry longer than the data left, the code reports an error where the slow branch would find the same run and coefficient in zeros behind the marker |
| JpegScan.OverrunHappens | lib/stb_image.h:2234-2241 | that case occurs: two tables and a scan of four bytes before a marker, in which the DC symbol and two entries are decoded from the start of the block and the third entry overruns |
| JpegBlock.SymbolRead | lib/stb_image.h:2097-2146 | from the bits still to come, the decoder reads the symbol that the table gives for them alone and leaves the bits behind its code; how they are buffered does not matter |
| JpegBlock.MagnitudeRead | lib/stb_image.h:2153-2166 | a magnitude whose bits are all there is EXTEND of them, and the bits behind it are left |
| JpegBlock.NextRead | lib/stb_image.h:2229-2260 | a round of the AC loop by either branch reads the run and coefficient that the bits to come stand for, and never overruns while these bits are all there |
| JpegBlock.ZigzagUndone | lib/stb_image.h:2193-2207 | the zigzag table names each of the 64 places once |
| JpegBlock.SumFits | lib/stb_image.h:1070-1075 | the overflow test without an overflow is exactly that the sum fits in 32 bits |
| JpegBlock.ProductFits | lib/stb_image.h:1078-1084 | the test by truncating division is exactly that the product with an unsigned number fits in 16 bits |
| JpegBlock.HoldsMore | lib/stb_image.h:2242-2244 | storing a scaled value at its zigzag place changes no other value; one past the end of the block lands on the last place |
| JpegBlock.DecodeDc | lib/stb_image.h:2215-2222 | the DC symbol, at most 15, and the difference that its bits stand for |
| JpegBlock.DecodeAc | lib/stb_image.h:2228-2261 | for every table and all bits: places, multiplies and cuts down exactly the values that the bits stand for (runs, sixteen zeros, end of block), zeros elsewhere, or fails when the bits are invalid |
| JpegBlock.DecodeBlock | lib/stb_image.h:2210-2263 | for every source: DC value, AC values and the bits left are those that all bits to come stand for, or the block is rejected when they are invalid, the sum overflows or the DC value does not fit |
| JpegBlock.AcUndone | lib/stb_image.h:2228-2261 | decoding undoes encoding for every list of AC values and every table that reads its codes: run/size symbols, sixteen-zero symbols, end of block or none |
| JpegBlock.BlockUndone | lib/stb_image.h:2210-2263 | decoding undoes encoding for every DC difference and every list of AC values, and leaves what follows the block |
| JpegBlock.ShortCodeMeans | lib/stb_image.h:2097-2113 | a code of at most nine bits whose prefixes name its symbol in the table is read as that symbol, whatever follows |
| JpegScan.Jpeg.GrowBuffer | lib/stb_image.h:2075-2091 | the refill loop in place: the state after it, with byte stuffing, fill bytes and the marker |
| JpegScan.Jpeg.HuffDecodeSymbol | lib/stb_image.h:2097-2146 | refill, fast table and long codes as defined; after a symbol the buffer is consistent |
| JpegScan.Jpeg.ExtendReceiveBits | lib/stb_image.h:2153-2166 | refill and sign-extended magnitude as defined |
| JpegScan.Jpeg.NextCoefficient | lib/stb_image.h:2229-2260 | one round of the AC loop, fast branch or slow, has the outcome of the slow branch alone: run, coefficient and the bits to come; an overrunning entry is the exception and an error |
| Seqlock.StepKeepsInv | core/src/common/Protocol.h:1447-1479 | every step of the writer or of any reader keeps the invariant |
| Seqlock.NoTornReads | core/src/common/Protocol.h:1464-1479 | in every interleaving, a successful read returns in its entirety one body written to the slot, or the initial zero body, and none older than the newest at its start |
| Seqlock.EvenMeansQuiet | core/src/common/Protocol.h:1447-1459 | a generation is even exactly when no write to the slot is in flight, and then the slot holds the last body written |
| Seqlock.QuietReadSucceeds | core/src/common/Protocol.h:1464-1479 | an attempt while no write is in flight, undisturbed, succeeds with the newest body |
| FrameRing.EventKeepsInv | core/src/common/Protocol.h:1840-1899 | every step of the publisher or of any reader keeps the invariant |
| FrameRing.RingState | core/src/common/Protocol.h:1888-1898 | a slot's generation is odd exactly while it is being filled, and the publish index counts the complete frames, except between stamp and index store |
| FrameRing.ReadsAreFrames | core/src/common/Protocol.h:1840-1884 | a successful read returns one complete frame: the newest stamped one in the slot of the wanted frame, at least the wanted one and at most one ahead of the publish index at return |
| FrameRing.ReadIsExactIff | core/src/common/Protocol.h:1840-1884 | a successful read returns the wanted frame if and only if at most 31 later frames were stamped at its return; the stamped frames are as many as the publish index, or one more |
| FrameRing.ReadByIndexIsExact | core/src/common/Protocol.h:1866-1884 | a successful read by index, by the publish index at return: at most 30 ahead, exactly the requested frame; 32 or more ahead, one that is newer by at least 32; 31 ahead, the requested one if and only if no further frame is stamped |
| FrameRing.LateReadIsNewer | core/src/common/Protocol.h:1862-1884 | in a concrete interleaving, for every number of pieces, with the index 31 ahead, a read of frame 1 succeeds with the body of frame 33, which differs from that of frame 1 |
| PoseRing.DriverPoseShmem.SetPose | core/src/common/Protocol.h:1122-1134 | publishes the pose under the next number, or does nothing for a device out of range, negative ones included |
| PoseRing.DriverPoseShmem.ReadNewPoses | core/src/common/Protocol.h:1084-1101 | delivers the contents of the numbers from the cursor (moved up when more than 32768 behind) to the index, exclusive, and leaves cursor = index |
| PoseRing.RunIsFaithful | core/src/common/Protocol.h:1084-1134 | over every run of whole calls, delivered numbers strictly increase and number n >= 1 carries the n-th published pose |
| PoseRing.ReadDelivers | core/src/common/Protocol.h:1084-1101 | each read delivers exactly the numbers between cursor and index, or exactly the 32768 numbers before the index when further behind |
| Isometry.RotateIsSandwich | core/src/driver/IsometryTransform.h:57-59 | for unit quaternions, the rotation formula on vectors is conjugation |
| Isometry.RotateCompose | core/src/driver/IsometryTransform.h:36-59 | rotating by a product of unit quaternions is rotating by one after the other |
| Isometry.ComposeActs | core/src/driver/IsometryTransform.h:36-59 | for unit rotations (a b) p = a (b p), and the composed rotation is a unit again |
| Isometry.NormalizedIsUnit | core/src/driver/IsometryTransform.h:51-51 | normalizing any non-zero quaternion gives a unit |
| Isometry.InterpolatedPoint | core/src/driver/IsometryTransform.h:61-74 | the interpolation, applied to its pivot, lies exactly at (1 - l) this p + l target p, whatever the slerp |
| Isometry.InterpolatedError | core/src/driver/IsometryTransform.h:61-74 | so the pivot's distance vector to its target shrinks by exactly 1 - l |
| Blend.FloorGrows | core/src/common/MotionGate.h:70-87 | a larger correction never has a smaller floor, and every floor lies between 0.1 and 1 |
| Blend.GatedLerp | core/src/driver/ServerTrackedDeviceProvider.cpp:422-489 | after the seeding frame in motion-gated mode, the progress of a frame is at least min(1, 0.1 rate dt) and at most min(1, rate dt) |
| Blend.FrameShrinks | core/src/driver/ServerTrackedDeviceProvider.cpp:422-489 | one frame moves the device by exactly the clamped progress towards its target |
| Blend.NoOvershoot | core/src/driver/ServerTrackedDeviceProvider.cpp:422-489 | over any frames around a fixed device position, the error is the first error times a factor between 0 and 1 |
| Blend.GatedProgress | core/src/driver/ServerTrackedDeviceProvider.cpp:422-489 | in motion-gated mode that factor is at most the product of 1 - min(1, 0.1 rate dt) over the frames |
| Driver.ServerTrackedDeviceProvider.FindFallbackSlot | core/src/driver/ServerTrackedDeviceProvider.cpp:615-629 | the first occupied slot whose buffer holds the name, NUL-terminated or full; none for empty or over-long names |
| Driver.ServerTrackedDeviceProvider.AcquireFallbackSlot | core/src/driver/ServerTrackedDeviceProvider.cpp:636-650 | the slot of the name, else the first free one, cleared, named and occupied; none when the table is full or the name is empty or too long |
| Driver.ServerTrackedDeviceProvider.SetDeviceTransform | core/src/driver/ServerTrackedDeviceProvider.cpp:517-613 | the whole new state of the device tables: slot fields, cached system name and lookup state |
| Driver.ServerTrackedDeviceProvider.SetTrackingSystemFallback | core/src/driver/ServerTrackedDeviceProvider.cpp:683-729 | the whole new state of fallbacks and devices: an enabling message stores the transform, a disabling one frees the slot and releases every device that follows it |
| Driver.ServerTrackedDeviceProvider.BlendTransform | core/src/driver/ServerTrackedDeviceProvider.cpp:422-489 | replaces the slot by the blended one and changes no other |
| Driver.ServerTrackedDeviceProvider.HandleDevicePoseUpdated | core/src/driver/ServerTrackedDeviceProvider.cpp:731-900 | the first half of the hook: result, state and whether a name lookup is pending |
| Driver.ServerTrackedDeviceProvider.ResumePoseUpdate | core/src/driver/ServerTrackedDeviceProvider.cpp:916-985 | the second half, after the mutex is taken again: records the looked-up name, then follows the fallback as in the first half |
| Driver.ServerTrackedDeviceProvider.FollowFallback | core/src/driver/ServerTrackedDeviceProvider.cpp:934-981 | what happens to a device with a known system name: take over, blend and apply, or clean up |
| DriverRuns.OneName | core/src/driver/ServerTrackedDeviceProvider.cpp:615-629 | a slot matches at most one NUL-free name |
| DriverRuns.DisableKeeps | core/src/driver/ServerTrackedDeviceProvider.cpp:683-729 | disabling one name leaves every other enabled name found and enabled |
| DriverRuns.EnableKeeps | core/src/driver/ServerTrackedDeviceProvider.cpp:683-729 | enabling one name leaves every other enabled name found and enabled |
| DriverRuns.AcquireDistinct | core/src/driver/ServerTrackedDeviceProvider.cpp:636-650 | no two occupied slots ever hold the same name |
| DriverRuns.SetDeviceKeeps | core/src/driver/ServerTrackedDeviceProvider.cpp:517-613 | a device message keeps the invariant |
| DriverRuns.SetFallbackKeeps | core/src/driver/ServerTrackedDeviceProvider.cpp:683-729 | a fallback message keeps the invariant |
| DriverRuns.HookSecondKeeps | core/src/driver/ServerTrackedDeviceProvider.cpp:911-985 | the second half of the hook keeps the invariant from any state between the halves |
| DriverRuns.NextKeeps | core/src/driver/ServerTrackedDeviceProvider.cpp:517-985 | every step (message, first half, second half of a pending hook) keeps the invariant |
| DriverRuns.FollowersAreBacked | core/src/driver/ServerTrackedDeviceProvider.cpp:866-985 | in every reachable state, with the mutex drop split: fallbackActive implies that the device's NUL-free system name is cached and names an occupied, enabled slot |
| DriverRuns.CleanUpNeverTaken | core/src/driver/ServerTrackedDeviceProvider.cpp:971-981 | hence the late clean-up branch is never taken |
| DriverRuns.WholeRunExclusive | core/src/driver/ServerTrackedDeviceProvider.cpp:517-985 | with handlers atomic, fallbackActive implies that the per-ID transform is disabled, in every reachable state |
| DriverRuns.HookFirstExclusive | core/src/driver/ServerTrackedDeviceProvider.cpp:731-900 | the first half of the hook keeps that exclusion, whether or not it goes on to a query |
| DriverRuns.ResumeExclusive | core/src/driver/ServerTrackedDeviceProvider.cpp:911-985 | the second half keeps that exclusion if and only if the device is not both enabled and backed by a fallback when it resumes |
| DriverRuns.NextExclusive | core/src/driver/ServerTrackedDeviceProvider.cpp:517-985 | any step of the split machine keeps it if and only if it is not such a second half |
| DriverRuns.RunExclusiveIff | core/src/driver/ServerTrackedDeviceProvider.cpp:517-985 | a run with hooks split at the query is exclusive in all its states if and only if no second half ever finds its device both enabled and backed |
| DriverRuns.SplitHookBreaksExclusion | core/src/driver/ServerTrackedDeviceProvider.cpp:517-985 | a concrete interleaving in which messages between the halves break the exclusion |
| FallbackTable.EnableActs | core/src/driver/ServerTrackedDeviceProvider.cpp:711-728 | an enabling message puts its transform under its name in the flat table and changes no entry under any other name, nor any device |
| FallbackTable.DisableActs | core/src/driver/ServerTrackedDeviceProvider.cpp:692-709 | a disabling message disables the entry under its name, keeps all others, and releases exactly the devices of that system that follow it |
| FallbackTable.RefusedWhenFull | core/src/driver/ServerTrackedDeviceProvider.cpp:636-650 | a name is refused if and only if it is new and all eight slots are occupied, and then nothing changes |
| DriverMotion.HookPlaces | core/src/driver/ServerTrackedDeviceProvider.cpp:854-863 | the hook puts a moved device exactly on the line between where its active transform and its target put it, at a step between 0 and 1, whatever unit quaternions slerp computes |
| DriverMotion.FirstFollowIsExact | core/src/driver/ServerTrackedDeviceProvider.cpp:938-973 | the first frame that follows a fallback puts the device exactly where the fallback says |
| DriverMotion.EnabledDeviceStays | core/src/driver/ServerTrackedDeviceProvider.cpp:583-600 | a device that a message enables stands at its target at once, and any frames around a fixed position leave it there |
| DriverMotion.MessageRestartsClock | core/src/driver/ServerTrackedDeviceProvider.cpp:608-612 | the first blend step behind a message is the time since it at a rate that does not depend on the past, however long the device was away; with the motion gate of the message on, it is 0 if the gate has to be seeded and else between a tenth of that and all of it |
| DriverMotion.DisabledDeviceForgets | core/src/driver/ServerTrackedDeviceProvider.cpp:602-606 | a device that is disabled and enabled again without an update stands where it stood when it was disabled |
| DriverMotion.ReleasedDeviceStands | core/src/driver/ServerTrackedDeviceProvider.cpp:701-706 | a released follower stays where the fallback had put it, over any frames around a fixed position |
| PageHinkley.AccumulatorsAreSuffixSums | core/src/common/inputhealth/PageHinkley.h:58-86 | after any samples, ph_pos (ph_neg) is the maximum of 0 and all suffix sums of the (negated) deviations from the running mean minus delta |
| PageHinkley.AlarmIsThreshold | core/src/common/inputhealth/PageHinkley.h:73-86 | a suffix sum exceeds lambda exactly when an accumulator does |
| PageHinkley.FiresOnce | core/src/common/inputhealth/PageHinkley.h:58-86 | an update reports a change exactly at the first sample at which a suffix sum exceeds lambda |
| PageHinkley.FiresWithDirection | core/src/common/inputhealth/PageHinkley.h:73-86 | the reported direction is positive exactly when an upward suffix sum exceeds lambda |
| PageHinkley.PageHinkleyState.PageHinkleyUpdate | core/src/common/inputhealth/PageHinkley.h:58-86 | the in-place update equals the fold over all samples since the reset, and returns whether this is the first alarm |
| PageHinkley.PageHinkleyState.PageHinkleyReset | core/src/common/inputhealth/PageHinkley.h:91-99 | forgets all samples |
| BlendFilter.StepInformation | modules/calibration/src/overlay/BlendFilter.h:106-141 | with noise, a step leaves a variance between 0 and R, below the predicted one, and the precision-weighted estimate |
| BlendFilter.StepVariance | modules/calibration/src/overlay/BlendFilter.h:106-141 | without noise the measurement is taken over with variance zero; a certain estimate stays; in general the variance exceeds neither prediction nor noise |
| BlendFilter.StepStaysBetween | modules/calibration/src/overlay/BlendFilter.h:106-141 | a step stays in any interval that holds estimate and measurement |
| BlendFilter.EstimateInRange | modules/calibration/src/overlay/BlendFilter.h:83-141 | for all lists of measurements with their own drifts and noises, the estimate stays in the range of the measurements seen |
| BlendFilter.NoisyUsable | modules/calibration/src/overlay/BlendFilter.h:83-141 | with noise in every measurement no update divides by zero, and the variance stays strictly between 0 and the last noise |
| BlendFilter.FilterIsBatch | modules/calibration/src/overlay/BlendFilter.h:83-141 | without drift, n updates give variance 1/(1/P0 + n/R) and the precision-weighted mean of seed and measurements |
| BlendFilter.State.Update | modules/calibration/src/overlay/BlendFilter.h:83-141 | seeds, or moves all four components by one step: afterwards every field is what filtering the listed measurements since the last reset gives; returns the magnitudes of the innovations |
| BlendFilter.State.Reset | modules/calibration/src/overlay/BlendFilter.h:153-159 | forgets the estimate: the state before any measurement |
| Welford.Recenter | core/src/common/inputhealth/WelfordAccumulator.h:39-46 | how the sum of squared deviations changes with its centre, for every list |
| Welford.StreamingIsBatch | core/src/common/inputhealth/WelfordAccumulator.h:39-46 | after any samples, count mean is their sum and m2 the sum of squared deviations from the final mean |
| Welford.VariancesAreBatch | core/src/common/inputhealth/WelfordAccumulator.h:48-61 | both variances equal their batch definitions, and are 0 below one and two samples |
| Welford.WelfordState.WelfordUpdate | core/src/common/inputhealth/WelfordAccumulator.h:39-46 | the in-place update is one step of the fold |
| Welford.WelfordState.WelfordReset | core/src/common/inputhealth/WelfordAccumulator.h:75-80 | forgets all samples |
| Welford.Accumulate | core/src/common/inputhealth/WelfordAccumulator.h:39-46 | folding a list in place gives its length, mean and squared deviations |
| DeflateTables.LengthTable | lib/stb_image.h:4295-4301 | section 3.2.5 of RFC 1951 in numbers: no extra bits for 257 to 264 and 285, one more for each further group of four symbols, base 3 for 257 and 258 for 285, every other base where the range before ends |
| DeflateTables.DistTable | lib/stb_image.h:4303-4307 | section 3.2.5 of RFC 1951 in numbers: no extra bits for the first two distance symbols, d / 2 - 1 for the others, base 1 for the first, every other base where the range before ends |
| DeflateTables.ExtraBits | lib/stb_image.h:4214-4222 | bit t of a number read from the stream is bit t of the stream |
| DeflateTables.FixedCode | lib/stb_image.h:4452-4475 | all 288 fixed literal/length codes of section 3.2.6 of RFC 1951 in numbers |
| DeflateTables.FixedDistCode | lib/stb_image.h:4464-4467 | the fixed distance code of a symbol is its number in five bits |
| DeflateTables.CodeOrder | lib/stb_image.h:4116-4122 | codes are sent highest bit first |
| DeflateTables.HeaderParts | lib/stb_image.h:4367-4378 | a header starts with the counts 257 + 5 bits, 1 + 5 bits and 4 + 4 bits; then the lengths for the code of the lengths, and both lists as one |
| DeflateTables.ThreeBitLengths | lib/stb_image.h:4373-4375 | the i-th length sent is the three bits at place 3 i, lowest first |
| DeflateTables.SentLengths | lib/stb_image.h:4361-4376 | the i-th length sent belongs to the i-th symbol of 16, 17, 18, 0, 8, 7, 9, 6, 10, 5, 11, 4, 12, 3, 13, 2, 14, 1, 15; the others have none |
| DeflateTables.RepeatTable | lib/stb_image.h:4386-4400 | 16 repeats the previous length 3 to 6 times, 17 zero 3 to 10 times, 18 zero 11 to 138 times |
| DeflateTables.BlockKinds | lib/stb_image.h:4490-4505 | two bits behind the final bit, the lower one first: stored, fixed codes, own codes, rejected |
| DeflateTables.ZlibHeader | lib/stb_image.h:4438-4450 | a header is accepted exactly when the method is 8, the two bytes are a multiple of 31 and no dictionary is asked for |
| DeflateTables.FixedExample | lib/stb_image.h:4481-4518 | the zlib file 78 01 4b 4c 4a 06 42 00 and what follows stands for "abcbcb": a length 3 at the distance 2 |
| DeflateTables.StoredExample | lib/stb_image.h:4409-4436 | a stored block written out in bytes stands for its data |
| ZBuf.CapacityDoubles | lib/stb_image.h:4273-4293 | the largest size that growing reaches is the starting one doubled as often as 32 bits allow |
| GifLaws.WidthGrows | lib/stb_image.h:6763-6766 | the code width grows exactly when the next code does not fit, from three bits on and never beyond twelve |
| GifLaws.CodeSizeLimit | lib/stb_image.h:6699-6701 | a code size above 12 is rejected; one up to 12 with no data is an empty image |
| GifLaws.SixOnes | lib/stb_image.h:6691-6774 | the raster 2, 2, 8C, 5F, 0 stands for six times the index 1: clear, 1, two codes that name the entry being made, a wider end code |
| GifLaws.InterlaceOrder | lib/stb_image.h:6679-6688 | interlaced lines come in four groups, y mod 8 = 0, then 4, then y mod 4 = 2, then the odd ones, and from the top within a group |
| GifLaws.CountsByLine | lib/stb_image.h:6654-6689 | without interlacing, pixels are numbered line by line |
| GifLaws.PixelShown | lib/stb_image.h:6668-6676 | a drawn pixel shows red, green, blue and alpha of its colour, stored blue first, exactly when the alpha is above 128; otherwise it stays |
| JsonGrammar.ParserIsGrammar | lib/picojson.h:694-927 | for every text, the parser reads v and leaves rest if and only if the text is white space (20, 09, 0A, 0D), a text of the RFC 8259 grammar that stands for v, and rest; white space may stand between any two tokens; bytes, escapes, hexadecimal digits and surrogate pairs are written out |
| JsonGrammar.NodeRead | lib/picojson.h:894-927 | the text of a value, whatever the white space between its tokens, is read as what it stands for |
| JsonGrammar.NodeOf | lib/picojson.h:894-927 | whatever the parser accepts is a text of the grammar |
| JsonGrammar.CharsRead | lib/picojson.h:765-806 | a string of plain bytes, letter escapes, hexadecimal escapes in either case and surrogate pairs is read as its bytes |
| JsonGrammar.CharsOf | lib/picojson.h:765-806 | whatever is read as a string is such a string |
| JsonGrammar.WhiteSkipped | lib/picojson.h:682-690 | any run of the bytes 20, 09, 0A, 0D in front of a token is skipped |
| JsonGrammar.NeverSkipped | lib/picojson.h:682-690 | no other byte is skipped |
| JsonGrammar.TokenBehindGap | lib/picojson.h:691-698 | looking for a token skips white space in front of it |
| JsonGrammar.ValueBehindGap | lib/picojson.h:894-895 | reading a value skips white space in front of it |
| JsonGrammar.PrintedIsJson | lib/picojson.h:574-637 | what the serializer prints, compact or pretty, is a text of the grammar that stands for the printed value |
| JsonLayout.CharForm | lib/picojson.h:522-550 | how each byte is printed: a letter escape for eight of them, the code in four lower-case hexadecimal digits for other control characters and DEL, else the byte |
| JsonLayout.LineStart | lib/picojson.h:567-572 | a pretty line starts with a line feed and two spaces for each level |
| JsonLayout.NumberForm | lib/picojson.h:489-492 | integers below 2^53 in size are printed in decimal, every other number by the library |
| JsonLayout.LessIsLexicographic | lib/picojson.h:601-602 | keys come in the order of their first different byte, a proper prefix first |
| JsonLayout.CompactExample | lib/picojson.h:574-637 | an object with an array and an empty object, in compact form, byte by byte |
| JsonLayout.PrettyExample | lib/picojson.h:574-643 | the same in pretty form, byte by byte |
| PngFormat.Prediction | lib/stb_image.h:4755-4785 | a filter predicts 0, the left byte, the byte above, the p with 2 p <= left + above <= 2 p + 1, or Paeth's choice |
| PngFormat.PaethIsNearest | lib/stb_image.h:4657-4668 | Paeth's choice is the neighbour nearest to left + above - upper left, with left before above before upper left |
| PngFormat.DecodedByte | lib/stb_image.h:4735-4787 | every decoded byte of every row is the sent byte plus what the filter sent in front of the row predicts, modulo 256, zeros standing to the left and above |
| PngFormat.RowPlace | lib/stb_image.h:4716-4743 | row j starts behind j rows with a filter byte each; a row has just enough bytes for its samples |
| PngFormat.SampleBits | lib/stb_image.h:4796-4838 | which bits of which byte a sample is, for all five depths: highest first |
| PngFormat.ExpandedBytes | lib/stb_image.h:4672-4693 | a pixel that gets an alpha byte keeps its own bytes and has 255 behind them |
| PngFormat.PassPattern | lib/stb_image.h:4873-4893 | which pass sends a pixel, as an 8 by 8 pattern written out |
| PngFormat.PassOrder | lib/stb_image.h:4887-4893 | within a pass, lines come from the top and pixels from the left |
| JpegLaws.ExtendOrder | lib/stb_image.h:2148-2166 | EXTEND of n bits is the ascending one-to-one map onto the values whose absolute value has n bits, the negative ones first |
| JpegLaws.HighestFirst | lib/stb_image.h:2160-2165 | magnitude bits come highest first |
| JpegLaws.StuffingUndone | lib/stb_image.h:2075-2091 | the data bytes in front of a marker are those that were stuffed: a zero behind every FF |
| JpegLaws.RefillMeets | lib/stb_image.h:2079-2089 | a marker is kept and stops the refill; a stuffed FF comes in as eight bits |
| JpegLaws.ZigzagWalk | lib/stb_image.h:2192-2207 | the zigzag table walks the diagonals of the block, up to the right and down to the left in turn |
| JpegLaws.AcSymbol | lib/stb_image.h:2247-2259 | the symbol F0 skips sixteen zeros, others without magnitude bits end the block, and a value goes behind its run of zeros |
| JpegLaws.DcSymbol | lib/stb_image.h:2215-2222 | a DC symbol is the number of magnitude bits of the difference, at most 15 |
| JpegLaws.Dequantized | lib/stb_image.h:2242-2258 | a coefficient is multiplied by the table entry at its place of the block, as long as the product fits in 16 bits |
| JpegLaws.LongCodeMeans | lib/stb_image.h:2115-2145 | a code of ten to sixteen bits that the limits put at its length is read as the symbol in row code + delta, whatever follows |
| FrameReads.LatestIsNewest | core/src/common/Protocol.h:1840-1860 | in every interleaving, a successful read of the latest frame gets a frame not older than the publish index it loaded, at most one ahead of the index at return, and equal to it modulo 32; exactly that frame while fewer than 32 later ones are stamped |
| FrameReads.ByIndexWasRecent | core/src/common/Protocol.h:1866-1884 | in every interleaving, a successful read by number gets that frame, or one a multiple of 32 newer; exactly that one while fewer than 32 later ones are stamped; and the number was one of the last 32 at the publish index that the call loaded |
| FrameReads.FrameInSlot | core/src/common/Protocol.h:1888-1898 | frame f of the last 32 lies in slot (f - 1) mod 32, with generation 2 ((f - 1) / 32 + 1), unless that slot is being filled |
| FrameReads.QuietLatest | core/src/common/Protocol.h:1840-1860 | from every reachable state, whatever the writer was doing, an undisturbed read of the latest frame gets exactly that frame, and is refused exactly while nothing is published |
| FrameReads.QuietByIndex | core/src/common/Protocol.h:1866-1884 | from every reachable state with the writer at rest, an undisturbed read by number gets exactly that frame, and is refused exactly when it is not one of the last 32 |
| Isometry.NormalizedKeepsDirection | core/src/driver/IsometryTransform.h:51-51 | normalizing divides all parts by one positive number, the root of the sum of squares |
| Isometry.UnitProducts | core/src/driver/IsometryTransform.h:51-52 | Hamilton's rules for i, j and k |
| Isometry.TurnsForward | core/src/driver/IsometryTransform.h:57-59 | a unit quaternion (c, 0, 0, s) turns x towards y by the double angle, and so on in a circle |
| BlendLaws.SpeedSelected | core/src/driver/ServerTrackedDeviceProvider.cpp:362-403 | which speed a frame uses: tiny while both distances are within the small thresholds; then large if one is beyond its large threshold or the level was large before, else small |
| BlendLaws.GateOpens | core/src/driver/ServerTrackedDeviceProvider.cpp:448-453 | the gate is fully open exactly from 5 mm or 0.0175 rad of motion on; below, it is the larger of the two shares |
| BlendLaws.FloorSelected | core/src/driver/ServerTrackedDeviceProvider.cpp:460-466 | the floor of a pending correction by its length in metres and its angle in degrees: 0.9, 0.1 or 0.5 |
| BlendLaws.GateShare | core/src/driver/ServerTrackedDeviceProvider.cpp:431-472 | without the gate the whole step counts, in the seeding frame nothing, else the larger of gate and floor |
| BlendLaws.GateMeasuresFrame | core/src/driver/ServerTrackedDeviceProvider.cpp:426-481 | behind a frame, time and motion are measured from it |
| BlendLaws.StepOfFrame | core/src/driver/ServerTrackedDeviceProvider.cpp:422-486 | the step is elapsed ticks times rate times share over ticks per second, cut off at 1 |
| BlendLaws.StepOfSecond | core/src/driver/ServerTrackedDeviceProvider.cpp:422-486 | a frame a second after the last one goes the share that the rate says |
| DriverMessages.MessageSnaps | core/src/driver/ServerTrackedDeviceProvider.cpp:563-600 | behind a message that enables a device that was off, or updates both parts without lerp, the next pose puts it exactly where the wanted transform (updated parts from the message, others as wanted before) puts its scaled position, whatever slerp computes |
| DriverMessages.MessageMovesFrame | core/src/driver/ServerTrackedDeviceProvider.cpp:563-600 | every point of the device's tracking frame then goes where the message's own rotation and translation put it, if slerp between equal rotations is that rotation |
| DriverMessages.MessageBlends | core/src/driver/ServerTrackedDeviceProvider.cpp:563-600 | with lerp on an enabled device, the message moves nothing; over frames around a fixed position, the distance to where the wanted transform puts the device is multiplied by a factor between 0 and 1 |
| DriverMessages.MessageDecides | core/src/driver/ServerTrackedDeviceProvider.cpp:818-840 | behind a message, a device is hidden exactly when the message hides it and moved by its own transform exactly when it is enabled and not hidden; other devices and all fallbacks are as before |
| DriverMessages.LookupOncePerSecond | core/src/driver/ServerTrackedDeviceProvider.cpp:877-930 | an unnamed device's system is queried at its next pose, and after a failure again exactly when a second has gone by |
| DriverMessages.FoundOnce | core/src/driver/ServerTrackedDeviceProvider.cpp:922-926 | a system that was found is not queried again |
| DriverMessages.FollowerMoves | core/src/driver/ServerTrackedDeviceProvider.cpp:940-972 | a follower is put on the line between where it was and where its fallback now says |
| EstimatorLaws.PositionExample | modules/calibration/src/overlay/BlendFilter.h:83-139 | a position seeded at 0 and measured at 14 a second later, with sigmas 0.3 and 0.1, is estimated at 13 with the variance 0.13 / 14 |
| EstimatorLaws.AngleExample | modules/calibration/src/overlay/BlendFilter.h:83-139 | an angle starts with the variance 0.1 |
| EstimatorLaws.ReferenceMoves | core/src/common/inputhealth/PageHinkley.h:58-72 | the reference starts at the first sample and moves by alpha of each further one's distance |
| EstimatorLaws.SummedTerms | core/src/common/inputhealth/PageHinkley.h:66-72 | the terms summed upwards and downwards: the distance from the reference on that side less delta |
| PngFormat.PixelValues | lib/stb_image.h:4789-4850 | the samples of a pixel: gray below eight bits stretched in equal steps so that 0 stays 0 and the largest becomes 255, all others as they are, an added alpha of 255 or, at depth 16, 65535 |
| PngFormat.SizeLimits | lib/stb_image.h:4717-4720 | sizes are refused from 2^31 on |
| DriverMessages.MessageStarts | core/src/driver/ServerTrackedDeviceProvider.cpp:563-576 | behind any message to an enabled device, the next pose puts it on the line between its present transform (with the updated parts, unless lerp) and the wanted one |
| DriverMessages.Sizes | core/src/driver/ServerTrackedDeviceProvider.h:240-241 | 64 devices, eight fallbacks, names of 32 bytes |
| EstimatorLaws.NextMeasurement | modules/calibration/src/overlay/BlendFilter.h:102-138 | one more measurement: with P = v + sigma_process^2 dt (dt at least 0) and R = sigma_measured^2, the variance becomes P R / (P + R) and the estimate (x R + z P) / (P + R) |
| EstimatorLaws.InnovationIsDistance | modules/calibration/src/overlay/BlendFilter.h:119-120 | with a true square root, the innovation returned is the distance between measurement and estimate |
| EstimatorLaws.AlarmIs | core/src/common/inputhealth/PageHinkley.h:73-86 | the alarm: the last terms of a side, however many, add up to more than lambda; the downward side only if the detector is two-sided |
| JpegLaws.TwoMagnitudeBits | lib/stb_image.h:2148-2166 | the values of one and of two magnitude bits |
| BlendLaws.NormIsLength | core/src/driver/ServerTrackedDeviceProvider.cpp:380-380 | distances are Euclidean lengths |
| FrameReads.FailsWhenSpoilt | core/src/common/Protocol.h:1845-1884 | in every interleaving, a read fails only when nothing was published, the number was not one of the last 32, or as many attempts were spoilt by writes to the slot as the call was given |
| FrameReads.PublishAppends | core/src/common/Protocol.h:1888-1898 | a whole publication appends its body to the frames and moves the publish index on by one |
| SeqlockReads.ReadOfSlot | core/src/common/Protocol.h:1464-1479 | in every interleaving, a successful read returns a whole body of the slot that the call asked for, none older than the last one complete when it began |
| SeqlockReads.FailsWhenSpoilt | core/src/common/Protocol.h:1464-1479 | in every interleaving, a read fails only when there is no such slot, or when as many attempts were spoilt by writes to it as the call was given |
| SeqlockReads.QuietCallReads | core/src/common/Protocol.h:1464-1479 | from every reachable state, an undisturbed call for a slot that nobody is writing returns its last body; a call for no slot is refused |
| SeqlockReads.WholeWritePuts | core/src/common/Protocol.h:1447-1459 | from every reachable state, a whole write puts its body into its slot, adds two to the generation, and changes nothing else |
| DeflateTables.StoredCheck | lib/stb_image.h:4422-4434 | a stored block is accepted exactly when its length is followed by the complement and by that many bytes, which are its data |
| DeflateTables.BlockRejects | lib/stb_image.h:4333-4343 | literal/length symbols 286 and 287, distance symbols 30 and 31, and distances beyond the start of the output are rejected |
| DeflateTables.RepeatRejects | lib/stb_image.h:4386-4400 | a repeat without a previous length, and one beyond the number of lengths, are rejected |
| GifLaws.UnknownRejected | lib/stb_image.h:6744-6769 | a code beyond the entry being made is rejected, and that entry's own before any string |
| PngFormat.ImageLength | lib/stb_image.h:4720-4726 | an image needs as many bytes as its rows with their filter bytes |

## Left out

- ZlibStream.DoZlib: which of the inputs that end too early it accepts is not stated, only what it then returns.
- ZlibStream.ParseZlib: as for DoZlib, does not say which cut-off inputs are accepted.
- ZlibStream.ParseBlock: likewise for a block that is cut off.
- InflateBlock.ParseHuffmanBlock: likewise when the input ends before symbol 256.
- DynamicHeader.ReadCodeLengths: likewise when the input ends before the last code length.
- DynamicHeader.ComputeHuffmanCodes: likewise when the input ends inside the header.
- Inflate.ParseUncompressedBlock: the guard on a negative bit count is left out, since the count is never negative.
- ZBuf.Buf.Expand: a failing reallocation is not modelled.
- PngImage.CreatePngImageRaw: an output pixel is the list of its samples; the byte layout of the output is not modelled.
  The in-place insertion of alpha bytes is modelled apart from it (`PngAlpha.AlphaExpand8`).
- Adam7.CreatePngImage: as for a plain image, pixels are lists of samples, so the byte addressing is not modelled.
- GifRaster.Gif.DrawIndex: the cursor is one with four fields; 32-bit overflow of its byte positions is not modelled.
- JsonInput.ParseText: leaves out the text of the error message; the unread rest that it quotes is stated.
- JsonGrammar.ParserIsGrammar: which runs of number characters are numbers is left to strtod, as in the code, so at numbers
  the grammar is wider than that of RFC 8259.
- JpegBlock.DecodeAc: leaves the result open when the data ends inside the block.
- JpegBlock.DecodeDc: likewise inside the DC symbol or its difference.
- JpegBlock.DecodeBlock: likewise inside the block.
- Driver.ServerTrackedDeviceProvider.HandleDevicePoseUpdated: leaves out the debug transform, prediction smoothing of
  velocities, publishing to the pose ring, telemetry and logging; the property query is a parameter of the second half.
- Driver.ServerTrackedDeviceProvider.SetDeviceTransform: device slots are record values in an array, so a reference that
  the code keeps into a slot is a lookup by number.
- BlendFilter.State.Update: requires that no denominator is zero. Where one is, which takes a variance, a drift and a noise
  that are all zero, the code computes 0 / 0.
- Seqlock.NoTornReads: memory order, wrap-around of generations and a writer that dies half-way are not modelled.
- FrameRing.ReadsAreFrames: as for the seqlock, and the pause between attempts is not modelled.
- PoseRing.DriverPoseShmem.ReadNewPoses: whole calls only; the pose ring has no generations, so a pose may tear under
  concurrent access.
- Adler-32 checksums, chunk parsing, palettes and transparency of PNG; the heuristics of a DEFLATE encoder.
- GIF headers, colour tables, disposal and animation; a minimum code size above 8 in the encoder.
- JPEG table construction, progressive scans, inverse DCT, resampling, colour conversion, SIMD.
- Non-integer JSON numbers, negative zero, other parse contexts, stack depth.
- Floating-point rounding and NaN; the real slerp; yaw wrapping.
- Host supervision, inter-process communication, user interface, overlay, file system: operating-system calls.
- Path classification, feature flags, migration, themes, version comparison: easy members only.
