# Verified models of the kernel's decoder, scheduler, terminals and screen

Dafny models of the parts of the operating system in `student-distrib` whose correctness is not visible from one function
at a time, with proofs about them.

* **PNG and DEFLATE** (`Common`, `Bits`, `CanonicalCode`, `HuffmanTree`, `DynamicHeader`, `Lz77`, `Zlib`, `Upng`, `PngFilter`,
  `PaddingBits`, `PngImage`, `PngDecode`, `PngRoundTrip`). Pure functions say what RFC 1950, RFC 1951 and RFC 2083 decode to;
  class `Inflater` and the methods on arrays do it as `upng.c` does and are proved to compute the same. Encoders, written
  here for the purpose, give the round trips: codes, code lengths, tokens, blocks, streams, filters, and at the end a whole file.
* **Tasks, terminals and windows** (`Kernel`, `KernelInvariant`, `KernelRuns`, `KernelSteps`, `Scheduler`, `RtcWake`). A state machine with one
  step for each interrupt and system call that moves a task between lists or opens, closes or focuses a terminal. The invariants
  are proved for every run from boot, and what each step does is said once more in plain numbers.
* **The same, in place** (`TaskList`, `KernelLists`, `Windows`, `KernelMachine`). Nodes with next and prev pointers, a fixed window
  array and mutable tables. `Machine.Handle` shows that each event takes them where the state machine goes, and `Simulate`
  that every safe run from boot does.
* **Screen and files** (`QuickSort`, `Grid`, `Blit`, `FileRead`).

Some things the code does that its comments do not say are stated as results:

* `blcount[0]` is not zeroed, and that is harmless (`CanonicalCode.SourceCodeBits`).
* The check for oversubscribed code lengths lets some pass, such as three symbols of one bit each, with a symbol missing from
  the table (`HuffmanTree.ServesIff`, `HuffmanTree.OversubscribedFits`, `HuffmanTree.ThreeSymbols`).
* The buffer for the inflated data is not large enough for every image; `PngRoundTrip.FilesDecode` says exactly for which. For
  one column of whole-byte pixels it is exactly as large as the rows, so that the stored blocks of such an image are refused
  (`PngRoundTrip.ColumnFiles`). For narrow images whose rows end inside a byte it is too small: 113 bytes for the 200 of an
  image one pixel wide and 100 high at one bit a pixel, of which no file decodes (`PngRoundTrip.OneBitColumn`).
* A key can move the head of the run queue before itself, after which the queue's sentinel is on no cycle
  (`KernelMachine.Machine.Handle`). Closing the window of a blocked task leaves its request behind. A parent that comes back may
  then be that head (`KernelRuns.CloseThenKey`, `KernelRuns.CloseOtherBreaksList`), or a new shell on the reopened terminal
  (`KernelRuns.ReopenedTerminal`, `KernelRuns.ReopenedBreaksList`). And a key that completes a read while a function key
  switches terminals wakes the other terminal's task, which may be that head (`KernelRuns.KeyElsewhereWakesAnother`,
  `KernelRuns.KeyElsewhereBreaksList`) or just the wrong program (`KernelRuns.KeyElsewhereReached`). Runs without these are
  characterised by `KernelRuns.SafeRunsKeepLists`.
* The comment on `system_rtc_write` asks for a power of two; 0 is accepted too, and then the division faults
  (`KernelMachine.Machine.RtcWrite`).

## Model

| member | source | states |
|---|---|---|
| `CanonicalCode.SourceCodeBits` | student-distrib/gui/upng.c:192-217 | Because blcount[0] counts unused symbols, the assigned number is the RFC 1951 (section 3.2.2) code plus blcount[0] shifted past the code's length; so the bits the tree builder extracts are exactly the standard code's |
| `CanonicalCode.NoWrap` | student-distrib/gui/upng.c:182-207 | None of the running code numbers exceeds 32 bits, for up to 288 symbols and lengths up to 15 |
| `CanonicalCode.PrefixFree` | student-distrib/gui/upng.c:192-207 | If the Kraft sum of the lengths is at most 1, no code is a prefix of another symbol's |
| `CanonicalCode.EndFits` | student-distrib/gui/upng.c:192-207 | Under that condition the codes of each length fit in that many bits |
| `CanonicalCode.CodesAscend` | student-distrib/gui/upng.c:192-207 | The codes are in lexicographic order: shorter ones before longer ones, and those of one length by symbol |
| `CanonicalCode.CodesConsecutive` | student-distrib/gui/upng.c:192-207 | The codes of one length are consecutive binary numbers, and the first code of all is zeros |
| `Upng.Inflater.CountLengths` | student-distrib/gui/upng.c:190-198 | blcount[b] is the number of symbols of length b, also for b = 0 |
| `Upng.Inflater.FirstCodes` | student-distrib/gui/upng.c:199-202 | nextcode[b] is the first number given to length b |
| `Upng.Inflater.AssignCodes` | student-distrib/gui/upng.c:203-207 | Each used symbol gets the first number of its length plus its rank in it |
| `Upng.Inflater.InsertSymbol` | student-distrib/gui/upng.c:215-237 | The bit loop over one code puts the symbol at the end of its path, or reports that nodes have run out |
| `Upng.Inflater.CreateLengths` | student-distrib/gui/upng.c:179-244 | The array filled in place is the tree of the code lengths, and the error is set exactly when that tree does not fit |
| `HuffmanTree.TreeHoldsCodes` | student-distrib/gui/upng.c:179-244 | If the build ends without error, following a symbol's code from the root of the array leads to that symbol, for every used symbol |
| `HuffmanTree.FitsIff` | student-distrib/gui/upng.c:215-237 | For Kraft sums up to 1 the build succeeds if and only if the codes have at most numcodes - 1 proper prefixes |
| `HuffmanTree.CompleteFits` | student-distrib/gui/upng.c:208-237 | A complete code (Kraft sum exactly 1) never runs out of nodes |
| `HuffmanTree.ServesIff` | student-distrib/gui/upng.c:215-244 | Of the lists of lengths that the builder accepts, exactly those with Kraft sum at most 1 get a table that leads to every used symbol by its code; in any other a symbol is missing |
| `HuffmanTree.TableBound` | student-distrib/gui/upng.c:246-274 | A table that leads to each used symbol by as many bits as its length, along any paths, exists only for Kraft sums up to 1 |
| `HuffmanTree.OversubscribedFits` | student-distrib/gui/upng.c:215-237 | Of the lists of one-bit codes over an alphabet of any size, the builder accepts exactly those of up to three symbols; three are oversubscribed, and one of them is lost |
| `HuffmanTree.ThreeSymbols` | student-distrib/gui/upng.c:218-222 | So the check for oversubscribed lengths passes any three symbols of 19, 32 or 288, the end code among them or not |
| `HuffmanTree.FittingTreeIsOrdered` | student-distrib/gui/upng.c:215-244 | In a tree built without error, whatever the lengths, every child node has a larger index than its parent |
| `HuffmanTree.HuffmanRoundTrip` | student-distrib/gui/upng.c:179-274 | Decoding the bits of a used symbol's code gives the symbol and advances the bit pointer by exactly its length |
| `HuffmanTree.DecodeIsPath` | student-distrib/gui/upng.c:246-274 | On any table, a decoded symbol is where the consumed bits lead from the root: the converse of the round trip |
| `HuffmanTree.OrderedDecode` | student-distrib/gui/upng.c:251-273 | On an ordered table decoding from node pos takes at most numcodes - 1 - pos bits, and gives a symbol if these are inside the input |
| `HuffmanTree.SymbolBitBound` | student-distrib/gui/upng.c:251-273 | On a tree built without error one symbol takes fewer than numcodes bits, and decoding fails only for lack of input |
| `HuffmanTree.DecodeEnds` | student-distrib/gui/upng.c:251-258 | A symbol's bits stand at most one byte behind the input; at the end of that byte decoding fails |
| `Upng.Inflater.ReadBit` | student-distrib/gui/upng.c:153-158 | The next bit of the input, and the pointer one further |
| `Upng.Inflater.ReadBits` | student-distrib/gui/upng.c:160-167 | The value of the next bits, least significant first, and the pointer past them |
| `Upng.Inflater.DecodeSymbol` | student-distrib/gui/upng.c:246-274 | The loop through any table terminates, gives the symbol the pure decoder gives or an error, and leaves the bit pointer at most a constant number of bits past the input |
| `DynamicHeader.CodeLengthLensRoundTrip` | student-distrib/gui/upng.c:290-330 | The 3-bit lengths written in the permuted order are read back, with zeros for those not sent |
| `DynamicHeader.LengthsRoundTrip` | student-distrib/gui/upng.c:334-419 | Any sequence of lengths and runs 16/17/18 that does not start with 16 and fills hlit + hdist entries is read as its run-length expansion, runs crossing the boundary included (section 3.2.7 of RFC 1951) |
| `DynamicHeader.HeaderRoundTrip` | student-distrib/gui/upng.c:290-446 | A dynamic block header gives the literal/length and distance trees of the lengths it describes, and stops right behind the header |
| `DynamicHeader.CountsMean` | student-distrib/gui/upng.c:311-321 | The counts are 5, 5 and 4 bits wide, from 257, 1 and 4; then come the code length code's lengths and the others |
| `DynamicHeader.CountsMissing` | student-distrib/gui/upng.c:301-304 | A header that begins in the last two bytes of the input is an error |
| `DynamicHeader.StoredOrder` | student-distrib/gui/upng.c:102-103 | The k-th stored length belongs to 16, 17, 18, 0, 8, 7, 9, 6, ... 1, 15, said by arithmetic on k |
| `DynamicHeader.SymbolMeans` | student-distrib/gui/upng.c:335-432 | Symbol 16 repeats the last length 3 to 6 times by 2 bits, 17 gives 3 to 10 zeros by 3 bits, 18 gives 11 to 138 by 7 bits; 19 and more, runs that overflow and missing bits are errors |
| `DynamicHeader.RunsOf` | student-distrib/gui/upng.c:335-426 | Each of those run lengths is written by exactly one value of the extra bits, and no other length can be |
| `DynamicHeader.TablesMean` | student-distrib/gui/upng.c:434-446 | Of the lengths the first hlit are the literal/length code's and the others the distance code's, with zeros behind; without an end code, or if a tree does not fit, there is an error |
| `Upng.Inflater.ReadCodeLengthLens` | student-distrib/gui/upng.c:318-330 | The loop that reads the code length code's lengths, against its specification |
| `Upng.Inflater.ReadOneLength` | student-distrib/gui/upng.c:335-425 | One code length symbol: the two tables afterwards hold the longer list of lengths, cut at hlit, zeros behind |
| `Upng.Inflater.ReadAllLengths` | student-distrib/gui/upng.c:334-446 | The whole loop and both trees, or an error exactly when the specification has one |
| `Upng.Inflater.GetTreeInflateDynamic` | student-distrib/gui/upng.c:290-446 | The method fills both trees in place as the specification says and leaves the bit pointer behind the header |
| `Lz77.MatchCopy` | student-distrib/gui/upng.c:533-549 | For any length and 1 <= distance <= start, the copy that wraps around and reads only bytes before start equals the byte-by-byte overlapping copy; each new byte equals the one distance before it |
| `Lz77.CopyIsPeriodic` | student-distrib/gui/upng.c:533-549 | The overlapping copy repeats the last distance bytes periodically |
| `Lz77.TokenRoundTrip` | student-distrib/gui/upng.c:474-551 | One literal or match, encoded, is decoded to its effect on the output, or refused exactly when the strict output bound refuses it |
| `Lz77.TokensRoundTrip` | student-distrib/gui/upng.c:474-551 | Any list of literals and matches ended by 256 decodes to exactly its LZ77 expansion and stops just behind the end code, if and only if every step fits the output |
| `Lz77.EveryMatchHasCodes` | student-distrib/gui/upng.c:77-99 | Every match length 3..258 and distance 1..32768 can be written with the base and extra-bit tables |
| `Lz77.LengthTable` | student-distrib/gui/upng.c:77-86 | Codes 257 to 264 mean lengths 3 to 10 with no extra bits; then four codes share each number of extra bits, each beginning where the one before ends, up to 257; 285 means 258 |
| `Lz77.DistanceTable` | student-distrib/gui/upng.c:88-99 | The first four distance codes mean 1 to 4; then two codes share each number of extra bits, each beginning where the one before ends |
| `Lz77.OneTokenForMatch` | student-distrib/gui/upng.c:77-99 | Each length and distance is written in exactly one way, but for length 258, for which there are two; no other lengths and distances can be written |
| `Lz77.SymbolMeans` | student-distrib/gui/upng.c:480-506 | What each of the 288 symbols does: a byte if there is room, the end, a length with its extra bits if these are inside the input, or nothing for the two unused ones |
| `Lz77.DistanceMeans` | student-distrib/gui/upng.c:508-551 | What a distance symbol does: its extra bits and the copy; codes 30 and 31, a match that would take the last byte of the buffer, and missing bits are errors |
| `Upng.Inflater.CopyMatch` | student-distrib/gui/upng.c:533-549 | The copy loop appends what the specification says and leaves the rest of the buffer alone |
| `Upng.Inflater.InflateMatch` | student-distrib/gui/upng.c:485-551 | Length, distance and copy of one match, with each error exit |
| `Upng.Inflater.InflateToken` | student-distrib/gui/upng.c:474-551 | One turn of the loop refines one step of the specification |
| `Upng.Inflater.InflateHuffman` | student-distrib/gui/upng.c:449-552 | The loop of a compressed block terminates on every input and computes the specification's result |
| `Upng.Inflater.InflateUncompressed` | student-distrib/gui/upng.c:554-609 | A stored block: realignment, length check, bounds and copy as specified |
| `Upng.Inflater.InflateBlock` | student-distrib/gui/upng.c:619-646 | Block header and dispatch |
| `Upng.Inflater.UzInflateData` | student-distrib/gui/upng.c:612-649 | The block loop terminates on every input and computes the specification's result |
| `Upng.UzInflate` | student-distrib/gui/upng.c:612-682 | Error or not, and the bytes written, are those of the pure inflater on the same input; bytes behind them are untouched |
| `Zlib.StoredRoundTrip` | student-distrib/gui/upng.c:554-609 | A stored block gives its data and stops behind it if there is strictly more room than that, and fails otherwise |
| `Zlib.CompressedRoundTrip` | student-distrib/gui/upng.c:449-552 | A fixed or dynamic block gives its expansion if and only if it fits |
| `Zlib.BlocksRoundTrip` | student-distrib/gui/upng.c:612-649 | Any list of stored, fixed and dynamic blocks, with matches reaching back across blocks, inflates to its output, with alignment and positions carried over, if and only if all of it fits |
| `Zlib.StreamRoundTrip` | student-distrib/gui/upng.c:612-682 | The same for a whole zlib stream of bytes with a valid header and anything behind it |
| `Zlib.WrapperMeans` | student-distrib/gui/upng.c:655-676 | By its fields the header is accepted exactly for method 8, a window of at most 32k, no dictionary and a 16-bit number divisible by 31 |
| `Zlib.SomeCheck` | student-distrib/gui/upng.c:660-664 | Each window size and level has a check for which it is |
| `Zlib.KindMeans` | student-distrib/gui/upng.c:619-646 | The two bits behind the final bit, low one first: stored, fixed, dynamic, error |
| `Zlib.StoredMeans` | student-distrib/gui/upng.c:554-609 | From the next byte boundary 16 bits of length and 16 of its complement; refused if they do not agree, if the data would take the last byte of the buffer, or if it ends behind the input |
| `Zlib.StoredMissing` | student-distrib/gui/upng.c:554-575 | It is refused as well if fewer than five bytes of input follow |
| `Zlib.FixedCodes` | student-distrib/gui/upng.c:106-150 | The codes of the fixed lengths are those of section 3.2.6 of RFC 1951: 8 bits from 00110000, 9 from 110010000, 7 from 0000000, 8 from 11000000; distances are five-bit numbers |
| `Zlib.FixedTreesServe` | student-distrib/gui/upng.c:106-150 | The trees that the builder makes of the fixed lengths fit and lead to every symbol |
| `Zlib.StoredDataRoundTrip` | student-distrib/gui/upng.c:554-682 | Any data cut into stored blocks of at most 65535 bytes inflates to exactly that data if and only if outsize exceeds its total length |
| `PngFilter.PaethIsNearest` | student-distrib/gui/upng.c:685-698 | The predictor is one of its neighbours nearest to a + b - c, ties going to left, then up |
| `PngFilter.PaethAtEdges` | student-distrib/gui/upng.c:685-698 | With zero padding the predictor gives what the special first row and first pixel use |
| `PngFilter.PlainFilters` | student-distrib/gui/upng.c:713-731 | Type 0 leaves the line as it is, type 2 adds the row above modulo 256 |
| `PngFilter.SubFilter` | student-distrib/gui/upng.c:718-723 | Type 1 gives each byte the sum, modulo 256, of the bytes of the line at that place of this and all pixels to the left |
| `PngFilter.AveragingFilters` | student-distrib/gui/upng.c:732-757 | Types 3 and 4 add p and q: p is half of left plus above, rounded down; q is that of left, above and upper left which is nearest to left + above - upper left |
| `PngFilter.ReconOfFiltered` | student-distrib/gui/upng.c:700-762 | Reconstruction undoes each filter of section 6 of RFC 2083, for every row, row above and pixel width |
| `PngFilter.Scanline.Unfilter` | student-distrib/gui/upng.c:700-762 | The special-cased loops on one line agree with the uniform zero-padded definition, in place or not; an unknown type is an error and changes nothing |
| `PngFilter.UnfilterRows` | student-distrib/gui/upng.c:764-792 | All rows, output possibly in the input buffer: the image of the original contents up to the first bad filter type, nothing else changed |
| `PngFilter.Unfilter` | student-distrib/gui/upng.c:764-792 | The same from width, height and bits per pixel |
| `PngFilter.RowLayout` | student-distrib/gui/upng.c:764-792 | Row y of the inflated data is the type byte at y * (length + 1) and then the filtered bytes |
| `PngFilter.AcceptedRows` | student-distrib/gui/upng.c:758-760 | All rows are reconstructed exactly if every type is at most 4 |
| `PngFilter.ImageRoundTrip` | student-distrib/gui/upng.c:700-792 | For every image, pixel width and choice of filter types per row, unfiltering the filtered rows gives the original bytes |
| `PaddingBits.SetBitAt` | student-distrib/gui/upng.c:812-815 | Setting one bit of a byte changes that bit and no other |
| `PaddingBits.SetBitIsMask` | student-distrib/gui/upng.c:812-815 | Setting a bit has the arithmetic effect of the two masks: the old bit's power of two goes and the new bit's comes |
| `PaddingBits.ImageByte` | student-distrib/gui/upng.c:794-819 | The bits of an image are those of its bytes, most significant one first |
| `PaddingBits.UnpaddedBit` | student-distrib/gui/upng.c:794-819 | Bit x of row y is at y * olinebits + x afterwards and was at y * ilinebits + x before |
| `PaddingBits.RemovePaddingBits` | student-distrib/gui/upng.c:794-819 | The loop gives that result whether or not the buffers are the same one, and keeps all bits behind the image |
| `PngImage.PackedPixels` | student-distrib/gui/upng.c:794-819 | Packed rows show the same pixels |
| `PngImage.PostProcessScanlines` | student-distrib/gui/upng.c:822-842 | Unfiltering, in place and then packed if rows end inside a byte: success exactly on good filter types, and then each pixel bit is the reconstructed image's |
| `PngImage.Rounded` | student-distrib/gui/upng.c:822-842 | Rows and pixels take as many bytes as their bits need, not one more |
| `PngDecode.MeasureIdat` | student-distrib/gui/upng.c:1011-1048 | The first scan gives the total length of the IDAT chunks, or the error of the first bad chunk |
| `PngDecode.GatherIdat` | student-distrib/gui/upng.c:1063-1079 | The second scan concatenates their contents |
| `PngDecode.ScanRoundTrip` | student-distrib/gui/upng.c:1006-1079 | A well-formed list of chunks ended by IEND scans to the concatenation of its IDAT data |
| `PngDecode.FileFormat` | student-distrib/gui/upng.c:37-41 | Numbers are stored most significant byte first; the first chunk is behind an 8-byte signature and a chunk of 13 bytes; the two known types by their letters |
| `PngDecode.CriticalLetters` | student-distrib/gui/upng.c:65-65 | A type must be understood exactly if its first letter is a capital |
| `PngDecode.ForeignChunk` | student-distrib/gui/upng.c:1037-1048 | A chunk of another type is skipped if that letter is small, and makes the file unsupported if it is a capital |
| `PngDecode.ScanByLetters` | student-distrib/gui/upng.c:1006-1079 | Files of IDAT chunks and chunks with a small first letter, in any order and number, scan to their image data; one more chunk with a capital that is not IEND, and the file is refused |
| `PngDecode.TruncatedChunk` | student-distrib/gui/upng.c:1015-1032 | A chunk that does not end inside the file, or claims more than 2^31 - 1 bytes, makes it malformed |
| `PngDecode.Decode` | student-distrib/gui/upng.c:1004-1133 | The decoder puts the parts together: image and error code are those of the chunk scan, of inflating the gathered data and of post-processing the rows |
| `PngRoundTrip.FileRoundTrip` | student-distrib/gui/upng.c:975-1133 | A file whose IDAT chunks carry a zlib stream of blocks that expand to the filtered rows of an image decodes without error if and only if the blocks fit, and then shows exactly the rows' pixels |
| `PngRoundTrip.RoomForRows` | student-distrib/gui/upng.c:1082-1082 | For every pixel size, the computed size leaves the byte free that the strict bounds need exactly if 7 bits for each column cover the spare bits of all rows and 8 more, and is smaller than the rows exactly if they do not cover the spare bits |
| `PngRoundTrip.ComputedSizeRoundTrip` | student-distrib/gui/upng.c:1081-1133 | So with the computed size a file of an image in the first case decodes, and one of an image in the second does not |
| `PngRoundTrip.FilesDecode` | student-distrib/gui/upng.c:1081-1133 | With the computed size every file of an image decodes, whatever its blocks and chunks, if and only if 7 bits for each column cover the spare bits of all rows and 8 more; some file of it decodes if and only if they cover the spare bits |
| `PngRoundTrip.DecodesIff` | student-distrib/gui/upng.c:975-1133 | Every run on a file succeeds and shows the rows if and only if the file's blocks fit the buffer |
| `PngRoundTrip.ColumnFiles` | student-distrib/gui/upng.c:1082-1082 | Of every image of one column of whole-byte pixels one file is refused and another one decodes |
| `PngRoundTrip.OneBitColumn` | student-distrib/gui/upng.c:1082-1082 | Of an image of one column of 100 one-bit pixels no file decodes |
| `PngRoundTrip.NarrowImages` | student-distrib/gui/upng.c:1082-1082 | The sizes in these two cases: exactly that of the rows, and 113 bytes instead of 200 |
| `Zlib.StoredDataFits` | student-distrib/gui/upng.c:554-609 | Any data can be written in stored blocks; they fit exactly a buffer that is larger than the data |
| `Zlib.LiteralsFitExactly` | student-distrib/gui/upng.c:474-484 | Any data can be written as literals; they fit exactly a buffer that is not smaller than the data |
| `Zlib.StreamRoom` | student-distrib/gui/upng.c:474-609 | Blocks whose output leaves a byte free fit, and the output of blocks that fit is no larger than the buffer |
| `TaskList.MoveTaskToList` | student-distrib/task/task.c:788-796 | The six pointer writes keep both lists cyclic and move the node to its new place, on the same list or another, unless the node is asked to be its own neighbour; then no cycle goes through the new place |
| `TaskList.MoveTaskAfterNode` | student-distrib/task/task.c:798-800 | The same with the next node read first; a node that is already there is its own neighbour, and then no cycle goes through the place any more |
| `KernelLists.TaskLists.constructor` | student-distrib/task/task.c:24-24 | Empty lists: sentinels and nodes point to themselves |
| `KernelLists.TaskLists.MoveToFront` | student-distrib/task/task_sched.c:99-121 | A node moves from any list to the front of any other, or forward in its own; the other lists keep their nodes and order. The first node of a list, moved there again, points to itself, and the sentinel's cycle is lost |
| `KernelLists.TaskLists.MoveToLast` | student-distrib/task/task_sched.c:174-183 | A node that is not the last moves to the end of its list |
| `KernelLists.TaskLists.Attach` | student-distrib/task/task.c:338-338 | A node reset to point to itself is put at the front of a list |
| `KernelLists.TaskLists.Detach` | student-distrib/task/task.c:502-507 | A node leaves its list for a temporary one |
| `KernelMachine.Machine.constructor` | student-distrib/task/task.c:138-174 | The state after boot |
| `KernelMachine.Machine.LaunchToCurrentHead` | student-distrib/task/task_sched.c:127-167 | The head of the run queue runs; an idle head goes to the end first unless it is alone. On a lost queue the task the sentinel leads to runs |
| `KernelMachine.Machine.MoveRunningToLast` | student-distrib/task/task_sched.c:174-183 | The running task goes to the end, and stays if it is there |
| `KernelMachine.Machine.PitInterrupt` | student-distrib/task/task_sched.c:217-250 | A tick: time, refill, rotation and launch as in the state machine |
| `KernelMachine.Machine.Yield` | student-distrib/task/task_sched.c:262-268 | Giving up the processor |
| `KernelMachine.PowerOf` | student-distrib/rtc.c:207-220 | The loop gives the exponent of a power of two, taken as an unsigned number, and -1 for any other; 0 passes |
| `KernelMachine.Machine.RtcWrite` | student-distrib/rtc.c:177-200 | Frequency and counter are set exactly for the accepted numbers; for 0 the frequency is set and the division faults |
| `KernelMachine.Machine.RtcRead` | student-distrib/rtc.c:137-168 | The running task goes to the clock's wait list with a fresh counter, or nothing happens if the clock was not opened |
| `KernelMachine.Machine.RtcInterrupt` | student-distrib/rtc.c:77-108 | The removal-safe loop over linked nodes visits each waiting task once |
| `KernelMachine.Machine.TermRead` | student-distrib/terminal.c:301-340 | A read without input sets the request and puts the running task to sleep |
| `KernelMachine.Machine.InsertToHead` | student-distrib/task/task_sched.c:119-121 | A task goes from its list to the head of the run queue; if it heads it already, no cycle goes through the queue's sentinel any more and the other lists are whole |
| `KernelMachine.Machine.WakeUp` | student-distrib/terminal.c:165-179 | The woken task goes to the head of the run queue with full time and runs, and its read returns; if it heads the queue already it runs with the queue lost |
| `KernelMachine.Machine.ChangeFocus` | student-distrib/task/task.c:714-728 | The focus goes to a terminal's foreground task, and nowhere for a bad or closed terminal |
| `KernelMachine.Machine.GetAnotherTermId` | student-distrib/task/task.c:807-821 | The loop finds the next terminal below with a foreground task |
| `KernelMachine.Machine.ActivateWindow` | student-distrib/gui/gui_window.c:77-100 | Window to the top and focus to its terminal, unless it is the top one or none |
| `KernelMachine.Machine.FindTaskSlot` | student-distrib/task/task.c:180-195 | The first free slot |
| `KernelMachine.Machine.FindTerminalSlot` | student-distrib/terminal.c:406-417 | The first free terminal |
| `KernelMachine.Machine.ExecuteShell` | student-distrib/task/task.c:247-446 | A new owner of a new terminal and window, with roll-back at each failure |
| `KernelMachine.Machine.ExecuteProgram` | student-distrib/task/task.c:247-446 | A child on the caller's terminal; the caller waits on the child list |
| `KernelMachine.Machine.TearDownTask` | student-distrib/task/task.c:494-569 | Lists, terminal, window, focus and slot after a teardown |
| `KernelMachine.Machine.Halt` | student-distrib/task/task.c:577-630 | The parent, or the new head of the run queue, runs after the teardown |
| `KernelMachine.Machine.HandleKey` | student-distrib/terminal.c:216-271 | A key that completes a read, with or without a change of focus before, for every state its guard allows |
| `KernelMachine.Machine.Handle` | student-distrib/task/task_sched.c:190-268 | Every event takes the linked lists, tables and window array exactly where the state machine goes, and one that moves the head of the run queue before itself to a machine whose run queue has no cycle; the invariant supplies what each method needs |
| `KernelMachine.Machine.HandleAll` | student-distrib/task/task_sched.c:190-268 | One event after the other, the linked nodes follow any run of the state machine |
| `KernelMachine.Simulate` | student-distrib/task/task.c:138-174 | From boot the machine takes every offered and safe run, and ends exactly where the state machine does |
| `Windows.WindowStack.FindWindowIdx` | student-distrib/gui/gui_window.c:33-39 | The first place of a window or of NULL, or -1 |
| `Windows.WindowStack.New` | student-distrib/gui/gui_window.c:48-70 | The window is added below all others, and refused exactly when it is open already or the array is full |
| `Windows.WindowStack.Raise` | student-distrib/gui/gui_window.c:77-95 | The window comes to the top and the others keep their order |
| `Windows.WindowStack.Destroy` | student-distrib/gui/gui_window.c:107-122 | The window leaves and those below move up, without a gap |
| `KernelSteps.AtBoot` | student-distrib/task/task.c:138-174 | The idle task runs, init behind it with 50 ms; no other slot, terminal or window is taken, and nothing has the focus or is asked for |
| `KernelSteps.KeysOffered` | student-distrib/terminal.c:216-271 | A key completes a read exactly if bytes are asked for on the focused terminal, and with a change of focus if F1 to F3 stands for another open one |
| `KernelSteps.CallsOffered` | student-distrib/task/task.c:730-746 | Every task but init and the idle task can call and halt; the top window can be closed unless its foreground task runs |
| `KernelSteps.PressRaises` | student-distrib/gui/gui_window.c:77-100 | A press on a window behind the top one puts it in front of the others, which keep their order, and gives the focus to its terminal's foreground task; any other press changes nothing |
| `KernelSteps.FocusGoes` | student-distrib/task/task.c:714-728 | The number of an open terminal moves the focus to its foreground task; any other number changes nothing |
| `KernelSteps.NextBelow` | student-distrib/task/task.c:807-821 | Of several open terminals the next one below is taken, 4 coming after 0 |
| `KernelSteps.YieldRotates` | student-distrib/task/task_sched.c:262-268 | A task that yields gets 50 ms, unless it is the idle task, and goes behind the others, which keep their order but for an idle task at the head; the new head runs and nothing else changes |
| `KernelSteps.TickCounts` | student-distrib/task/task_sched.c:217-250 | A tick takes 10 ms from a task that has more; for any other it is like a yield |
| `KernelSteps.ReadWaits` | student-distrib/terminal.c:315-339 | A read that waits asks for at most 128 bytes, in one byte; the caller goes to the front of the readers and the next in the queue runs |
| `KernelSteps.ReadReturns` | student-distrib/terminal.c:320-351 | A read that finds its input takes its request back and changes nothing else |
| `KernelSteps.ClockWaits` | student-distrib/rtc.c:137-168 | A read from the clock starts a count and goes to the front of the wait list; without an open clock nothing changes |
| `KernelSteps.ClockSet` | student-distrib/rtc.c:124-200 | Opening sets 2 Hz; an accepted frequency sets it and starts a count, any other changes nothing |
| `KernelSteps.AcceptedFrequencies` | student-distrib/rtc.c:207-220 | Accepted are the powers of two from 1 to 2^30, and 0 and -2^31 |
| `KernelSteps.KeyWakes` | student-distrib/terminal.c:165-179 | The focused terminal's task goes to the head of the run queue with 50 ms and runs; if it was reading, its request is taken back; nothing else changes |
| `KernelSteps.KeyElsewhereWakes` | student-distrib/terminal.c:216-271 | With a function key the focus moves first, and the other terminal's task wakes like that |
| `KernelSteps.ShellStarts` | student-distrib/task/task.c:247-446 | The first free task slot and terminal: owner, window in front, focus, head of the queue, 50 ms, no clock; nothing else changes |
| `KernelSteps.NoRoom` | student-distrib/task/task.c:262-373 | Without a free task slot or terminal nothing changes but the contents of a free slot |
| `KernelSteps.ProgramStarts` | student-distrib/task/task.c:247-446 | The first free task slot: child of the caller on its terminal, window in front, focus, head of the queue, 50 ms; the caller waits at the front of the child list; nothing else changes |
| `KernelSteps.TornDown` | student-distrib/task/task.c:494-569 | The task leaves its list and slot; its terminal is closed, with the focus going to the next open one, or given back to the parent, which heads the queue with 50 ms |
| `KernelSteps.HaltEnds` | student-distrib/task/task.c:577-630 | So it is for a task that halts; then its parent runs, or the head of the queue if it has none |
| `KernelSteps.CloseEnds` | student-distrib/task/task.c:730-746 | And for the foreground task of the top window when that is closed, while the running task goes on |
| `KernelRuns.StepKeeps` | student-distrib/task/task.c:247-630 | Each step keeps the invariant; all but closing another task's window keep the running task at the head of the run queue and every requested read waited for |
| `KernelRuns.EveryRunLists` | student-distrib/task/task.c:788-800 | After every run from boot each live task is on exactly one of the four lists, once, the running one on the run queue, and the two boot tasks are runnable |
| `KernelRuns.EveryRunAgrees` | student-distrib/task/task.c:347-415 | After every run a terminal slot is taken iff its window is in the stack, once, iff it has a foreground task; the focus is empty iff no terminal is open, and otherwise the foreground task of its terminal |
| `KernelRuns.EveryRunWindowFits` | student-distrib/task/task.c:350-373 | After every run, if a terminal is free its window can be created |
| `KernelRuns.SafeRunsKeepLists` | student-distrib/task/task.c:788-800 | From boot, a run in which no window is closed on a terminal that is asked for input and no function key leads to the head of the run queue moves no node relative to itself and keeps every requested read waited for; and only such runs do both |
| `KernelRuns.SafeExactly` | student-distrib/task/task.c:788-800 | The same from any state of the invariant in which whoever is asked for waits |
| `KernelRuns.CalmRunsKeepLists` | student-distrib/task/task.c:788-800 | In particular runs without closing another task's window and without a function key held while a read completes; there the running task also heads the run queue |
| `KernelRuns.KeyWakesReader` | student-distrib/terminal.c:165-179 | Where every requested read is waited for, the key that completes a read wakes a task that waits for input, which is not on the run queue |
| `KernelInvariant.ShellRolledBack` | student-distrib/task/task.c:350-393 | A shell that cannot be loaded leaves lists, terminals, windows and focus as they were |
| `KernelInvariant.ProgramRolledBack` | student-distrib/task/task.c:386-393 | So does a program |
| `KernelInvariant.WindowFits` | student-distrib/gui/gui_window.c:48-60 | A free terminal slot leaves room in the window stack |
| `KernelInvariant.AnotherTerminal` | student-distrib/task/task.c:807-821 | Another terminal is found if and only if another one has a foreground task |
| `KernelRuns.CloseOtherAnswers` | student-distrib/task/task.c:741-745 | Closing another task's window leaves an unanswered request exactly when input was asked for on its terminal |
| `KernelRuns.CloseOtherExactly` | student-distrib/task/task.c:741-745 | It displaces the running task from the head of the run queue exactly when the closed task has a parent |
| `KernelRuns.CloseThenKey` | student-distrib/task/task.c:741-745 | The next key can then move the head of the run queue before itself exactly when input was asked for on the closed terminal, its task had a parent and it had the focus |
| `KernelRuns.ReopenedTerminal` | student-distrib/terminal.c:403-430 | A new shell does not clear the request of a terminal it opens again: the next key can move it before itself exactly when input was asked for there before |
| `KernelRuns.ReopenedBreaksList` | student-distrib/terminal.c:403-430 | So it is after four steps from boot: a shell reads, its window is closed, and another shell starts |
| `KernelRuns.CloseOtherBreaksList` | student-distrib/task/task.c:741-745 | Four steps after boot, a close last, a key can move the head of the run queue before itself |
| `KernelRuns.KeyElsewhereWakesAnother` | student-distrib/terminal.c:216-271 | A read completed while Alt and a function key are held leaves the asking task asleep: another terminal's foreground task is woken or, exactly if that heads the run queue, moved before itself |
| `KernelRuns.KeyElsewhereReached` | student-distrib/terminal.c:216-271 | Five steps after boot such a key wakes the second shell instead of the first |
| `KernelRuns.KeyElsewhereBreaksList` | student-distrib/terminal.c:216-271 | Four steps after boot such a key moves the head of the run queue before itself |
| `Scheduler.RunsAfterWait` | student-distrib/task/task_sched.c:217-250 | With ticks only, a runnable task runs after exactly the computed number of ticks and not before, at most 5 for each non-idle task that runs before it and one more; the running task may be anywhere in the queue |
| `Scheduler.EveryRunWaits` | student-distrib/task/task_sched.c:217-250 | So in every state that boot can reach, after closed windows and function keys too |
| `Scheduler.TickWait` | student-distrib/task/task_sched.c:217-250 | Each tick brings a waiting task exactly one tick closer |
| `Scheduler.WorkBounds` | student-distrib/task/task_sched.c:232-246 | Each task ahead accounts for between one and five ticks |
| `Scheduler.IdleOnlyAlone` | student-distrib/task/task_sched.c:136-144 | The idle task is launched if and only if it is alone in the run queue |
| `Scheduler.EveryRunTimes` | student-distrib/task/task_sched.c:232-246 | Remaining times are 10, 20, 30, 40 or 50 in every reachable state |
| `RtcWake.InterruptIs` | student-distrib/rtc.c:89-106 | An interrupt counts down every waiting task once, removes exactly those that reach 0, keeps the order of the rest, and puts the others in reverse order at the head of the run queue |
| `RtcWake.WaitCountIs` | student-distrib/rtc.c:156-156 | The counter for a frequency f is 64/f, and 0 exactly above 64 |
| `RtcWake.OtherStepWaits` | student-distrib/rtc.c:137-168 | Of the events other than the clock's, exactly the closing of the waiting task's own window and a key that wakes it end the wait; none changes its counter |
| `RtcWake.ReadWakes` | student-distrib/rtc.c:137-168 | After a read at frequency f the caller waits, through every run without those, while fewer than 64/f interrupts come, or for ever if f > 64, and the (64/f)-th wakes it with full time |
| `RtcWake.KeysLeaveClock` | student-distrib/terminal.c:165-179 | Where every requested read is waited for, a key does not wake a task that waits for the clock |
| `QuickSort.Partition` | student-distrib/gui/qsort.h:16-29 | The pivot ends between the smaller elements and the others, and the stretch keeps its elements |
| `QuickSort.Sort` | student-distrib/gui/qsort.h:37-47 | The stretch is sorted, a rearrangement of what it was, and the rest of the array is untouched |
| `Grid.PositionMeans` | student-distrib/gui/gui_window.c:131-159 | A point is reported in the body exactly where the body is, and a position is valid exactly if no point of the window is off the screen |
| `Grid.FrameMeans` | student-distrib/gui/gui_window.c:131-159 | Of the 652 columns and 505 rows of a window which are body, border, title bar and each button, in numbers; positions are valid from (6, 21) to (378, 284) |
| `Grid.GuiWindow.constructor` | student-distrib/gui/gui_window.c:62-63 | The five windows open at (50, 50), (100, 100) and so on, which are valid positions |
| `Grid.GuiWindow.MouseMove` | student-distrib/gui/gui_window.c:240-256 | A dragged window moves exactly if its new position is valid, and always stays on the screen |
| `Grid.OneStretch` | student-distrib/gui/gui_render.c:162-163 | Between sorted cuts each coordinate is in exactly one stretch |
| `Grid.CellVisible` | student-distrib/gui/gui_render.c:166-170 | The topmost window at the corner of a cell is the topmost window at each of its pixels |
| `Grid.FindVisibleWinOn` | student-distrib/gui/gui_render.c:130-137 | The loop reports the topmost window whose body has the point |
| `Grid.Renderer.Cuts` | student-distrib/gui/gui_render.c:145-163 | The cuts are sorted, run from edge to edge of the screen and include both edges of every window |
| `Grid.Renderer.Fill` | student-distrib/gui/gui_render.c:142-182 | Each pixel of the screen is in exactly one cell, and the window recorded there is the topmost one that covers the pixel |
| `Blit.OneByte` | student-distrib/vga/vga_accel.c:297-324 | A byte copied in the chosen direction has not been overwritten before |
| `Blit.Blitter.Run` | student-distrib/vga/vga_accel.c:297-324 | The byte loop, forward or backward, moves the rectangle |
| `Blit.Blitter.ScreenCopy` | student-distrib/vga/vga_accel.c:297-324 | With the addresses and direction computed, every destination byte gets the old value of its source byte and nothing else changes, however the rectangles overlap |
| `Blit.Blitter.PixelCopied` | student-distrib/vga/vga_accel.c:297-324 | Each byte of each pixel of the destination has the old value of that pixel of the source, rows being a pitch apart |
| `Blit.Blitter.PixelKept` | student-distrib/vga/vga_accel.c:297-324 | The pixels outside the destination stay as they are |
| `FileRead.FileSystem.ReadData` | student-distrib/file_system.c:365-412 | For any request, if the block numbers the loop looks at are in memory: the number of bytes, or -1 exactly for a bad inode or first block, and each byte read is the file's; the rest of the buffer is untouched |
| `FileRead.FileSystem.BytesMean` | student-distrib/file_system.c:365-412 | Inodes are 1024 words, the length and a block number for each 4096 bytes; byte i is at i % 4096 in block i / 4096 |
| `FileRead.FileSystem.ReadableMost` | student-distrib/file_system.c:385-411 | Reading stops only where the request or the file ends or a block number is bad |
| `FileRead.FileSystem.ReadableRest` | student-distrib/file_system.c:385-411 | On a good file shorter than 1023 blocks it gives what is asked for or the rest of the file |
| `FileRead.FileSystem.ReadGood` | student-distrib/file_system.c:365-412 | There the buffer is the slice of the concatenated blocks cut at the file's length |
| `FileRead.OpenFile.Read` | student-distrib/file_system.c:460-475 | A read gives the next piece of the contents and moves the position behind it |
| `FileRead.OpenFile.ReadSeries` | student-distrib/file_system.c:460-475 | A series of reads gives those pieces of the contents, which join to the contents from the first position to the last |
| `FileRead.ReadsJoin` | student-distrib/file_system.c:460-475 | Reads of any sizes join to the contents read so far |
| `FileRead.EmptyRead` | student-distrib/file_system.c:460-475 | A read gives nothing exactly when nothing is asked for or the end has been reached before it |
| `FileRead.WholeFileRead` | student-distrib/file_system.c:460-475 | Enough reads of positive sizes give the whole file, and every read after that nothing |

## Left out

- PngDecode.Decode: width, height and bits per pixel are given, since header checks, color formats and the error line are left out; width 0, files larger than the work buffer (its pointer is then not initialised), the memory error for an inflated size larger than it, and an inflated size that wraps at 32 bits are not covered.
- Upng.UzInflate: the compressed input has 7 bytes of memory behind it, because bits are read before the end is noticed; bytes in front of the output buffer (a distance larger than the output so far) are an arbitrary function.
- Upng.Inflater.CountLengths: the table has 16 entries; the code's 15 do not hold length 15, whose count is never looked up.
- Upng.Inflater.ReadOneLength: what is read in front of the distance lengths when the first code length symbol is 16 is an arbitrary parameter, at most 15.
- Zlib.StreamRoundTrip: the constant tables for fixed blocks are parameters, assumed to serve the fixed code lengths when a fixed block occurs. That tables can is `Zlib.FixedTreesServe`; the 640 numbers of upng.c:106-150 are not compared with those.
- HuffmanTree.FitsIff: for Kraft sums above 1 it does not say which lists the builder accepts. It then starts a code wherever the last one stopped, or outside the table, so that depends on the order of all symbols; what an accepted table is worth is stated by `HuffmanTree.ServesIff`.
- KernelMachine.Machine.ExecuteShell: the other arguments `system_execute` would take have no caller and are not modelled; the missing return after a failed window (task.c:368-373) is not reached, by `KernelRuns.EveryRunWindowFits`. Whether a program can be loaded is a parameter; `task_count`, page ids, the file array and signals are left out.
- KernelMachine.Machine.TermRead: the contents of the keyboard buffer are left out; reads and keys are events that block, find input or complete a read.
- KernelRuns.SafeRunsKeepLists: after a step that moves the head of the run queue before itself nothing more is said; runs end there.
- KernelMachine.Machine.Handle: whether a woken task sleeps in system_terminal_read, which its kernel stack tells, is a parameter required to agree with the reader list.
- RtcWake.InterruptIs: flags are left out; the handler clears one on the parent (rtc.c:93), which a shell does not have.
- RtcWake.ReadWakes: a counter that starts at 0 goes on down here instead of wrapping after 2^32 interrupts; a frequency of 0, which faults, is excluded.
- Grid.Renderer.Fill: visibility only; text, borders and double buffering are not drawn.
- Blit.Blitter.ScreenCopy: no transparency compare; the engine is a byte loop.
- FileRead.FileSystem.ReadData: the words of the inode that the loop looks at are in memory, as the code does not check them.
- Which event comes next, and which key or mouse position causes it: any order of events whose guards hold.
- Context switches, port and MMIO registers, paging and locks; a switch is a change of the running task.
- Directory entries, signals, color conversion, string helpers and user programs would add only simple members.
