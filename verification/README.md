# Verified models of a decompressor, a configuration language and a descriptor queue

The repository packages firmware and boot tools. Three parts of it do the kind of
work where a proof says more than a test, and are modelled here.

**The DEFLATE decompressor of the boot wrapper** (zlib 1.1.3). `Canonical` defines
the canonical code of a vector of code lengths as section 3.2.2 of RFC 1951 does.
`InfTrees` builds the multi-level tables in place, with `CodeLayout` and `Placement`
holding the argument why following them decodes that code, and `TableGaps` the
condition under which no entry is left unset. `InfUtil` has the bit buffer and the
circular window; `InfCodes`, `InfBlock` and `Inflate` the three resumable machines,
with the unchecked fast loop. `Deflate` is an independent functional decoder of a
complete stream: no tables, no bit buffer, no window. The invariant of every machine
is that what it has written, followed by what it is about to do, is what that decoder
yields; so any way of splitting input and output delivers the same bytes, and a whole
stream is delivered whole. `Format` compares the decompressor with the format, and
`Adler` the checksum with its definition. `Writer` is the format from the other side:
how a compressor may put literals, strings, code lengths and blocks into bits, stated
without any of the tables above, with the values of symbols in closed form from
`Values`. What is written is read back (`Writer`), what is finished has been written
(`Reader`), and so whatever a compressor sends is what is delivered (`Zlib`).

**Kconfig, the configuration language of the carl9170 firmware.** `Kconfig` has
expressions over n < m < y and their value; `ExprEq`, `ExprTransform`, `ExprJoin`,
`ExprDups` and `ExprContradict` the rewrites, and `ExprExact` and `ExprInexact` what
they do to the value; `ExprSame` says what they find and remove, and `ExprGood` what form
they keep. `SymValues` states the values of symbols as the solution of equations, and
`SymCalc` is the recursive, caching evaluator that finds it; `SymMeaning` says what those
values are in terms of the properties alone. `SymDeps` searches for recursive
dependencies, and `SymOrder` connects it with the evaluator. `Menus` is the pointer
surgery of `menu_finalize`, `MenuDeps` its decision what to nest, `MenuShown` when the
entries of the result are shown, and `MenuWalk` the walk of `conf_write`. `Confdata`
writes and reads configuration files, with the texts of numbers in `Numbers`, and `Saving`
says when that gives back the values.

**The descriptor queues of the carl9170 firmware.** `Dma` has the linked descriptors
and the exchange with the terminator, `DmaHardware` what the hardware does to a queue,
and `DmaSystem` the moves between queues. `DmaEvents` is the state machine of all
handlers, the hardware and the two special descriptors, `DmaPlaces` what stays where in
it, `Firmware` the same in memory,
and `DmaSteps` the exchange one memory write at a time, with the hardware running in
between.

## Where the code differs from what it should do

- Distances that reach before the start of the output are not rejected; they are
  taken modulo the window. `Format.Agree` says exactly when this matters and
  `Format.Differ` gives a stream.
- `huft_build` leaves table entries unset if and only if some region of patterns
  begins with a code more than a whole level longer than the bits that lead to it
  (`TableGaps.AllWritten`). A stream can bring this about: distance lengths 1, 2, 3,
  4, 5, 6, 15, for which tables of six bits are asked (`Trees.GapExample`). For the
  numbers of symbols that callers pass, only codes that are incomplete and have more
  than one bit do so, and these are refused (`Trees.GapRefused`).
- The table of the code-length code is read without a look at the operation, so that
  a lone code of one bit is decoded from either bit value. This is harmless: such a
  block is refused in any case, at worst later (`Format.LoneLengths`, `DifferLate`).
- A string of 258 bytes is also read from length symbol 284 with all extra bits set, which
  section 3.2.5 of RFC 1951 leaves to symbol 285 (`Values.LengthOnce`).
- The fast loop may report the end of a block with output pending in the window and
  the codes machine still in its WASH state; the blocks machine drops it there, which
  is harmless because the window is flushed later.
- `expr_eliminate_dups` may change m to n or y where it removes a contradiction
  (`ExprExact.RefuteValue`, `ExprInexact.Inexact`); it never changes n or y
  (`ExprExact.EliminateDupsDecided`). `expr_trans_compare` is wrong for a negated m
  (`ExprTransform.TransCompareNot`, `TransCompareNormal`).
- `sym_set_tristate_value` with the value a symbol has already calculates nothing
  again, although the value the user has set may be cut down to the visibility where
  a default is not (`SymCalc.Evaluator.SetTristateValue`, `SymFaults.SetAgainStale`).
  For the same reason a saved configuration need not be what is loaded
  (`Saving.SaveLoad`).
- `sym_check_deps` prints recursive dependencies but returns none of them to its
  caller, so that the program is not ended (`SymDeps.CheckAll`,
  `SymFaults.CheckMutual`). It does not follow the bounds of ranges, so that a
  configuration without an order of evaluation can pass (`SymOrder.RangeOfItself`);
  `SymOrder.CoveredExactly` is the condition under which it follows enough.
- `menu_finalize` does not look at the condition of an entry with a symbol and no prompt
  when it puts others below it; the last loop moves them out again (`MenuShown.OpenAt`).
- An int symbol takes the text "-0" (`Numbers.IntTexts`).
- The fixed trees are built with a work area declared with 19 entries for 288
  symbols. The model gives every work area 288 entries.

## Model

| member | source | states |
|---|---|---|
| Canonical.PrefixFree | utils/mkvmlinuz/mkvmlinuz/boot/inftrees.c:54-88 | no stream position matches the canonical codes of two different symbols, for any vector of lengths |
| Canonical.DecodeUnique | utils/mkvmlinuz/mkvmlinuz/boot/inftrees.c:54-88 | the symbol decoded at a position is s if and only if the next bits are the canonical code of s (section 3.2.2 of RFC 1951) |
| Canonical.CompleteDecodes | utils/mkvmlinuz/mkvmlinuz/boot/inftrees.c:54-88 | a complete code (Kraft sum exactly 1) finds a symbol in every stream |
| Canonical.KraftSign | utils/mkvmlinuz/mkvmlinuz/boot/inftrees.c:165-171 | the count that huft_build keeps while it looks for missing codes has the sign of one minus the Kraft sum |
| Canonical.CompleteMeans | utils/mkvmlinuz/mkvmlinuz/boot/inftrees.c:165-171 | a code that is not over-subscribed has Kraft sum 1 if and only if every stream begins with one of its codes |
| Canonical.CodeOrder | utils/mkvmlinuz/mkvmlinuz/boot/inftrees.c:54-88 | ordered by length and then by symbol, the first code is zero, and each code is the one before plus one, made longer by zeros where the length grows: this fixes all codes |
| InfTrees.CountLengths | utils/mkvmlinuz/mkvmlinuz/boot/inftrees.c:130-139 | the counts are the numbers of symbols of each length |
| InfTrees.Missing | utils/mkvmlinuz/mkvmlinuz/boot/inftrees.c:165-171 | the number of unused patterns of the greatest length, negative exactly for over-subscribed lengths |
| InfTrees.SortValues | utils/mkvmlinuz/mkvmlinuz/boot/inftrees.c:182-188 | v lists the symbols by length and, within a length, in order: entry Off(L) + r is the r-th symbol of length L |
| InfTrees.BackIncrement | utils/mkvmlinuz/mkvmlinuz/boot/inftrees.c:270-273 | the bit-reversed code becomes the reversal of the next code |
| InfTrees.FillEntries | utils/mkvmlinuz/mkvmlinuz/boot/inftrees.c:265-268 | exactly the slots whose low bits are the code get the entry, all others keep theirs |
| InfTrees.OpenTable | utils/mkvmlinuz/mkvmlinuz/boot/inftrees.c:208-248 | a new table of the least size that holds the codes left, or that reaches the next length in use, is linked into the slot of its parent; it is refused only if it does not fit the space, and then nothing changes |
| InfTrees.Backup | utils/mkvmlinuz/mkvmlinuz/boot/inftrees.c:275-282 | tables that the next code no longer extends are finished and left, and no others |
| InfTrees.GenerateTables | utils/mkvmlinuz/mkvmlinuz/boot/inftrees.c:191-284 | the tables lie in a row, one for each region that the code calls for, each of the size it calls for, with every slot for a pattern finished, and what is not written keeps its old content; failure means that the next of them does not fit |
| InfTrees.HuftBuild | utils/mkvmlinuz/mkvmlinuz/boot/inftrees.c:90-289 | the space ran out only where the next table exceeds it; otherwise data error if and only if the Kraft sum exceeds 1, and buffer error if and only if it is below 1 with a length above 1. In every other outcome all slots of all tables are written if and only if the code has no gap, and unset ones keep what was there; without a gap, following the tables on any stream gives what decoding the canonical code gives. Only hp[hn..hn'] changes |
| TableGaps.AllWritten | utils/mkvmlinuz/mkvmlinuz/boot/inftrees.c:208-284 | every slot of every table is written if and only if no region begins with a code more than a level longer than the bits that lead to it, dummy codes included; that is so if and only if no table is larger than a level |
| TableGaps.GapIsLarge | utils/mkvmlinuz/mkvmlinuz/boot/inftrees.c:215-228 | where there is such a region, its table is opened, and is larger than a level |
| TableGaps.FewCodesNoGap | utils/mkvmlinuz/mkvmlinuz/boot/inftrees.c:208-228 | there is no gap in a complete code of fewer than 2^(m+1) symbols, nor where the first table is wide enough for all codes |
| Trees.GapRefused | utils/mkvmlinuz/mkvmlinuz/boot/inftrees.c:287-288 | for the numbers of symbols that callers pass, a build with an unset entry is of an incomplete code of more than one bit, which every caller refuses |
| Trees.GapExample | utils/mkvmlinuz/mkvmlinuz/boot/inftrees.c:347-348 | distance lengths 1, 2, 3, 4, 5, 6, 15 with six-bit tables, which a stream may send, have a gap |
| Values.LengthTables | utils/mkvmlinuz/mkvmlinuz/boot/inftrees.c:38-44 | length symbols have no extra bits up to 264 and at 285, and (s - 261) / 4 of them in between, and the lengths of each symbol begin where those of the one before end |
| Values.LengthOnce | utils/mkvmlinuz/mkvmlinuz/boot/inftrees.c:38-44 | the lengths that can be written are 3 to 258; each below 258 has exactly one symbol and one value of the extra bits, and 258 is 285 without, or 284 with all of them set |
| Values.DistanceTables | utils/mkvmlinuz/mkvmlinuz/boot/inftrees.c:45-52 | distance symbols have no extra bits below 4 and s / 2 - 1 from there on, and the distances of each begin where those of the one before end |
| Values.DistanceOnce | utils/mkvmlinuz/mkvmlinuz/boot/inftrees.c:45-52 | the distances that can be written are 1 to 32768, each with exactly one symbol and one value of the extra bits |
| Writer.FixedCodeIs | utils/mkvmlinuz/mkvmlinuz/boot/inftrees.c:390-408 | the canonical codes of the fixed lengths are the codes that section 3.2.6 of RFC 1951 lists |
| Writer.FixedDistanceIs | utils/mkvmlinuz/mkvmlinuz/boot/inftrees.c:403-408 | the canonical code of a fixed distance symbol is the symbol in five bits |
| Writer.BorderIsOrder | utils/mkvmlinuz/mkvmlinuz/boot/infblock.c:19-20 | the lengths of the code-length code come in the order 16, 17, 18, 0, and then outwards from 8 in turn |
| Writer.CountFields | utils/mkvmlinuz/mkvmlinuz/boot/infblock.c:192-211 | the three counts of a dynamic block are the next five, five and four bits |
| Writer.ReadsToken | utils/mkvmlinuz/mkvmlinuz/boot/infcodes.c:61-164 | a literal or a string, written by symbols and extra bits, is read as the data that it tells |
| Writer.ReadsHeader | utils/mkvmlinuz/mkvmlinuz/boot/infblock.c:192-299 | the header of a dynamic block, written by the rules of section 3.2.7 of RFC 1951, is read back as the same two vectors of lengths |
| Writer.ReadsStream | utils/mkvmlinuz/mkvmlinuz/boot/infblock.c:105-328 | a stream of blocks that was written for some data, in whatever way, means that data |
| Reader.FinishedIsWritten | utils/mkvmlinuz/mkvmlinuz/boot/infblock.c:105-328 | the format finishes a stream with some data at some position if and only if there is a way of writing the data that puts these bits there |
| Zlib.HeaderAccepted | utils/mkvmlinuz/mkvmlinuz/boot/inflate.c:131-165 | the two header bytes are accepted if and only if they say method 8, a window that is not too large, no dictionary, and are a multiple of 31 |
| Zlib.CompressWrites | utils/mkvmlinuz/mkvmlinuz/boot/inflate.c:131-246 | header, blocks in any of the ways to write them, and checksum make a stream that was written for the data, to its last byte |
| Zlib.AnyData | utils/mkvmlinuz/mkvmlinuz/boot/infblock.c:165-191 | all data can be written, if only in stored blocks |
| Zlib.Decompressed | utils/mkvmlinuz/mkvmlinuz/boot/inflate.c:117-246 | of a stream that was written for some data, a prefix of the data is delivered in every state and all of it at the end, and there is no failure unless a table outgrows its space |
| Zlib.FinishedWritten | utils/mkvmlinuz/mkvmlinuz/boot/inflate.c:117-246 | a wrapped stream that the decompressor finishes, with no distance too far, was written for what has been delivered |
| CodeLayout.WalkTable | utils/mkvmlinuz/mkvmlinuz/boot/infcodes.c:80-109 | following tables laid out in a directory of patterns gives what decoding the code gives |
| CodeLayout.FinishedTableOK | utils/mkvmlinuz/mkvmlinuz/boot/inftrees.c:208-248 | in finished tables all links stay inside the used space and no path is longer than 15 bits |
| Placement.FillStep | utils/mkvmlinuz/mkvmlinuz/boot/inftrees.c:265-268 | writing the entries of one code keeps every earlier slot right and completes those of this code |
| Placement.OpenStep | utils/mkvmlinuz/mkvmlinuz/boot/inftrees.c:230-247 | opening a table keeps every slot right and adds one that is wholly unfinished |
| Placement.PopTable | utils/mkvmlinuz/mkvmlinuz/boot/inftrees.c:275-282 | when the next code leaves a table, the table is complete, and the code has no bits beyond those that index the parent |
| Placement.PopExactly | utils/mkvmlinuz/mkvmlinuz/boot/inftrees.c:275-282 | as long as there is a next code, the mask test leaves a table if and only if the codes have passed the last pattern it serves |
| InfCodes.Lookup | utils/mkvmlinuz/mkvmlinuz/boot/infcodes.c:80-109 | one table lookup is in bounds, and ends the symbol, finds none, or goes one level down on the way to the same symbol |
| Trees.TreesBits | utils/mkvmlinuz/mkvmlinuz/boot/inftrees.c:292-314 | accepted if and only if the code is complete or a lone code of one bit; then the table yields symbol and length without a look at the operation |
| Trees.TreesDynamic | utils/mkvmlinuz/mkvmlinuz/boot/inftrees.c:316-374 | accepted if and only if both codes are, the distance code possibly absent when there are no length symbols, or else refused because a table of one of the two exceeds the space; both trees then decode their codes side by side |
| Trees.TreesFixed | utils/mkvmlinuz/mkvmlinuz/boot/inftrees.c:377-412 | the two trees of the fixed codes, built from offsets 288 and 30, do not disturb each other and decode the fixed codes |
| Trees.FixedLiteralComplete | utils/mkvmlinuz/mkvmlinuz/boot/inftrees.c:390-398 | the lengths of the fixed literal code have Kraft sum exactly 1 |
| Adler.RawFits | utils/mkvmlinuz/mkvmlinuz/boot/zutil.h:65-67 | NMAX bytes never carry either sum past 2^32 - 1 |
| Adler.NmaxIsGreatest | utils/mkvmlinuz/mkvmlinuz/boot/zutil.h:65-67 | with one byte more a sum can pass 2^32 - 1 |
| Adler.BaseIsPrime | utils/mkvmlinuz/mkvmlinuz/boot/zutil.h:65 | BASE is the greatest prime below 2^16 |
| Adler.AdlerSums | utils/mkvmlinuz/mkvmlinuz/boot/zutil.h:69-73 | the two sums in closed form: one more than the sum of the bytes, and their number plus the sum of the bytes, each as often as there are bytes from it on, modulo BASE |
| Adler.AdlerConcat | utils/mkvmlinuz/mkvmlinuz/boot/zutil.h:90-116 | the checksum of a concatenation is the checksum of the second part continued from the first |
| Adler.Adler32 | utils/mkvmlinuz/mkvmlinuz/boot/zutil.h:90-116 | deferred reduction computes the byte-by-byte definition of section 2.2 of RFC 1950, from any valid checksum |
| InfUtil.BitInput.LoadByte | utils/mkvmlinuz/mkvmlinuz/boot/infutil.h:78-79 | or-ing in the next byte keeps b a preview of the next K >= k stream bits, even over stale bits left by a rewind |
| InfUtil.BitInput.Need | utils/mkvmlinuz/mkvmlinuz/boot/infutil.h:77-79 | NEEDBITS moves no stream position, succeeds with at least j bits, and fails only when the input is used up |
| InfUtil.BitInput.Dump | utils/mkvmlinuz/mkvmlinuz/boot/infutil.h:80 | DUMPBITS advances the stream position by exactly j bits and leaves a preview of the rest |
| InfUtil.BitInput.GiveBack | utils/mkvmlinuz/mkvmlinuz/boot/infcodes.c:171-176 | whole bytes go back to the input and the stream position stays |
| InfUtil.SlidingWindow.OutByte | utils/mkvmlinuz/mkvmlinuz/boot/infutil.h:87 | a byte goes over one that has been delivered, and the window still holds the last bytes of the history |
| InfUtil.SlidingWindow.CopyByte | utils/mkvmlinuz/mkvmlinuz/boot/infcodes.c:157-161 | the byte copied is the one d back in the history, across the end of the window |
| InfUtil.SlidingWindow.SourceOf | utils/mkvmlinuz/mkvmlinuz/boot/infcodes.c:152-154 | forcing the pointer into the window takes the distance modulo the window size |
| InfUtil.SlidingWindow.Flush | utils/mkvmlinuz/mkvmlinuz/boot/infutil.c:23-88 | as many pending bytes as there is room for leave the window, oldest first, each once, and the check follows |
| InfUtil.SlidingWindow.NeedOut | utils/mkvmlinuz/mkvmlinuz/boot/infutil.h:82-86 | room for a byte is made, or neither window nor caller has any |
| InfUtil.SlidingWindow.OutInHist | utils/mkvmlinuz/mkvmlinuz/boot/infutil.c:23-88 | delivered bytes are the history after the first window contents, all of it when read meets write |
| InfUtil.SlidingWindow.Checked | utils/mkvmlinuz/mkvmlinuz/boot/infutil.c:42-43 | the check value is the Adler-32 of exactly the delivered bytes |
| InfCodes.InflateCodes.StepLen | utils/mkvmlinuz/mkvmlinuz/boot/infcodes.c:80-113 | LEN keeps the symbol in progress, and fails only where the code has no symbol or an invalid one |
| InfCodes.InflateCodes.StepDist | utils/mkvmlinuz/mkvmlinuz/boot/infcodes.c:122-144 | DIST keeps the string in progress, and fails only where the distance code has no symbol |
| InfCodes.InflateCodes.StepCopy | utils/mkvmlinuz/mkvmlinuz/boot/infcodes.c:151-164 | COPY writes the string of the format, overlapping or not, stopping and resuming between any two bytes |
| InfCodes.InflateCodes.StepWash | utils/mkvmlinuz/mkvmlinuz/boot/infcodes.c:170-180 | at most 7 bits are left, because at most 15 were |
| InfCodes.InflateCodes.FastSymbol | utils/mkvmlinuz/mkvmlinuz/boot/inffast.c:59-169 | one pass of the unchecked loop is one whole symbol of the format: same bytes, same position, same end or error |
| InfCodes.InflateCodes.Fast | utils/mkvmlinuz/mkvmlinuz/boot/inffast.c:28-176 | the fast loop does some number of whole symbols, gives back unused bytes, and stops with the cause the checked machine would have |
| InfCodes.InflateCodes.Run | utils/mkvmlinuz/mkvmlinuz/boot/infcodes.c:39-194 | every call keeps the machine on the symbols of the block, and returns for want of input or of room, at the end, or at an error |
| InfCodes.InflateCodes.Yields | utils/mkvmlinuz/mkvmlinuz/boot/infcodes.c:39-194 | the bytes written are a prefix of what the block holds, and all of it at its end or error |
| Deflate.SymbolsBody | utils/mkvmlinuz/mkvmlinuz/boot/infcodes.c:61-190 | a block is its first n symbols and then the rest of it |
| InfBlock.StoredMore | utils/mkvmlinuz/mkvmlinuz/boot/infblock.c:178-191 | a stored block may be taken in pieces of any size |
| InfBlock.StoredHeader | utils/mkvmlinuz/mkvmlinuz/boot/infblock.c:165-177 | the test on the two halves of the bit buffer is LEN being the complement of NLEN (section 3.2.4 of RFC 1951) |
| InfBlock.LeadsOrder | utils/mkvmlinuz/mkvmlinuz/boot/infblock.c:210-216 | one length of the code-length code, in its order, leads on to the same stream |
| InfBlock.LeadsRun | utils/mkvmlinuz/mkvmlinuz/boot/infblock.c:253-286 | a run of lengths written to blens is the run of section 3.2.7 of RFC 1951 |
| InfBlock.InflateBlocks.StepType | utils/mkvmlinuz/mkvmlinuz/boot/infblock.c:125-164 | the three header bits select the kind of block; the third kind is refused |
| InfBlock.InflateBlocks.StepStored | utils/mkvmlinuz/mkvmlinuz/boot/infblock.c:178-191 | stored bytes go to the window as far as input, window and block allow |
| InfBlock.InflateBlocks.BuildLengths | utils/mkvmlinuz/mkvmlinuz/boot/infblock.c:217-230 | the code-length table is built from exactly the lengths sent, zeros elsewhere, or the stream is refused |
| InfBlock.InflateBlocks.ReadLength | utils/mkvmlinuz/mkvmlinuz/boot/infblock.c:231-287 | a length or a run is read, or the stream refused, and a stop in between loses nothing |
| InfBlock.InflateBlocks.BuildCodes | utils/mkvmlinuz/mkvmlinuz/boot/infblock.c:288-299 | the lengths are split between the two codes; accepted codes start the codes machine on the body of the block |
| InfBlock.InflateBlocks.Run | utils/mkvmlinuz/mkvmlinuz/boot/infblock.c:105-328 | every call keeps the machine on the stream, and returns for want of input or of room, at the end, or at an error |
| InfBlock.InflateBlocks.Yields | utils/mkvmlinuz/mkvmlinuz/boot/infblock.c:105-328 | what has been written is a prefix of what the stream of blocks yields, all of it at the end or at an error |
| Inflate.Inflate.StepCheck | utils/mkvmlinuz/mkvmlinuz/boot/inflate.c:209-232 | the four trailer bytes are read one at a time and compared with the check of the output |
| Inflate.Inflate.Call | utils/mkvmlinuz/mkvmlinuz/boot/inflate.c:117-246 | any flush value but Z_PACKET_FLUSH, any amount of input and room: the machine stays on the stream, room used up is output delivered, finished and failed streams stay so, and Z_FINISH never returns Z_OK. If all of a right, wrapped stream has been offered and room is left, or there was room for all of it, the reply is Z_STREAM_END, unless a table exceeds its space |
| InfBlock.InflateBlocks.Near | utils/mkvmlinuz/mkvmlinuz/boot/infblock.c:105-328 | if the blocks end, they do so less than 32 bits before the input taken so far, so that no machine starves before the trailer |
| Inflate.Inflate.Delivers | utils/mkvmlinuz/mkvmlinuz/boot/inflate.c:117-246 | in every state delivered and pending bytes are a prefix of the meaning of the stream; at Z_STREAM_END exactly all of it is delivered |
| Inflate.Inflate.Drive | utils/mkvmlinuz/mkvmlinuz/boot/inflate.c:117-246 | the same over any sequence of calls: Z_STREAM_END among the replies means the whole output and a right check |
| Inflate.Chunking | utils/mkvmlinuz/mkvmlinuz/boot/inflate.c:117-246 | two decompressors of one stream, however their input and output are split, deliver the same bytes and end at the same place |
| Format.SameBlocks | utils/mkvmlinuz/mkvmlinuz/boot/infcodes.c:152-154 | a stream whose distances stay within the output so far means the same to the decompressor as to the format, whatever the window held |
| Format.Agree | utils/mkvmlinuz/mkvmlinuz/boot/infcodes.c:152-154 | output and verdict of decompressor and format agree on a stream if and only if no distance in it reaches too far, except that the decompressor may still wait for more of a block that the format has refused; once it waits no more, they agree exactly |
| Format.LoneLengths | utils/mkvmlinuz/mkvmlinuz/boot/inftrees.c:301-313 | a block whose code-length code is a lone code of one bit is refused or cut short: whatever bit is read counts as that symbol, so all lengths are equal, and no equal lengths for 257 to 286 symbols are accepted |
| Format.DifferLate | utils/mkvmlinuz/mkvmlinuz/boot/infblock.c:231-287 | four bytes that the format refuses and after which the decompressor waits for more |
| Format.AcceptedMeans | utils/mkvmlinuz/mkvmlinuz/boot/inftrees.c:286-288 | of the codes that are not over-subscribed, those are accepted with which every stream begins with a code, and those of one symbol of one bit |
| Format.Decompresses | utils/mkvmlinuz/mkvmlinuz/boot/inflate.c:117-246 | unless a distance reaches too far: output is always a prefix of the format's, finished means all of it with the right check, and failure means a violation of format or check, or an accepted code whose next table exceeds the space |
| Format.Differ | utils/mkvmlinuz/mkvmlinuz/boot/inffast.c:94-98 | three bytes that the format rejects and the decompressor finishes, repeating a byte of the initial window |
| Kconfig.YnValue | firmware-free/linux-free/carl9170fw/config/expr.c:231-319 | removing y and n operands keeps the value in every assignment |
| Kconfig.YnClean | firmware-free/linux-free/carl9170fw/config/expr.c:231-319 | afterwards no operand of an and or an or is y or n; the expression is unchanged if and only if that was so already, and smaller otherwise |
| ExprEq.EliminateOpValue | firmware-free/linux-free/carl9170fw/config/expr.c:130-163 | what is removed from both expressions completes what is left of each to its old value |
| ExprEq.EliminateEqValue | firmware-free/linux-free/carl9170fw/config/expr.c:165-186 | expressions that agree once common operands are removed agree |
| ExprEq.EqSound | firmware-free/linux-free/carl9170fw/config/expr.c:191-229 | expressions that expr_eq calls equal have the same three-valued value in every assignment; the mutual recursion ends |
| ExprSame.EqReflexive | firmware-free/linux-free/carl9170fw/config/expr.c:191-229 | every expression equals itself, however many of its operands are alike |
| ExprTransform.TransformValue | firmware-free/linux-free/carl9170fw/config/expr.c:636-771 | the transformation keeps the exact value in every well-typed assignment, and ends although it runs again after each De Morgan step |
| ExprTransform.TransformNormal | firmware-free/linux-free/carl9170fw/config/expr.c:636-771 | negations remain only over symbols other than y, m and n |
| ExprTransform.TransformOnce | firmware-free/linux-free/carl9170fw/config/expr.c:636-771 | an expression is left alone if and only if it is in normal form, so a second run changes nothing |
| ExprTransform.TransBoolTruth | firmware-free/linux-free/carl9170fw/config/expr.c:321-345 | on normal forms, replacing FOO!=n by FOO keeps what is n and what is not |
| ExprTransform.TransBoolDone | firmware-free/linux-free/carl9170fw/config/expr.c:317-344 | no tristate symbol is left that is compared to be not n, and where there was none, nothing changes |
| ExprTransform.TransCompareValue | firmware-free/linux-free/carl9170fw/config/expr.c:874-939 | the result is the comparison of the value with y or n, unless the operand of a negation is m |
| ExprTransform.TransCompareNot | firmware-free/linux-free/carl9170fw/config/expr.c:908-909 | for a single negation the comparison is exact if and only if the operand is not m |
| ExprTransform.TransCompareCounted | firmware-free/linux-free/carl9170fw/config/expr.c:874-939 | whatever the expression, what is compared with s is its value with every negation counted as s, unless its operand is s, and as the opposite of s then |
| ExprTransform.TransCompareNormal | firmware-free/linux-free/carl9170fw/config/expr.c:874-939 | for normal forms the comparison is exact if and only if the expression equals s wherever it would with its negations that are m counted as s |
| ExprJoin.JoinOrValue | firmware-free/linux-free/carl9170fw/config/expr.c:347-404 | an operand that replaces two operands of an or has their joint value in every well-typed assignment |
| ExprJoin.JoinAndValue | firmware-free/linux-free/carl9170fw/config/expr.c:406-502 | the same for and |
| ExprDups.Dups1Value | firmware-free/linux-free/carl9170fw/config/expr.c:504-546 | joining operands of a whole tree, and of the trees inside it, keeps the exact value in every well-typed assignment |
| ExprDups.Dups1Dirty | firmware-free/linux-free/carl9170fw/config/expr.c:504-546 | a counted change leaves a constant for expr_eliminate_yn, and no change leaves the expression alone |
| ExprContradict.ExtractAll | firmware-free/linux-free/carl9170fw/config/expr.c:851-872 | an expression of which all operands are found in another is implied by it |
| ExprExact.RefuteValue | firmware-free/linux-free/carl9170fw/config/expr.c:568-601 | replacing a refuted operand by a constant is exact if and only if the operand is not m or the other operands decide anyway |
| ExprExact.Dups2Good | firmware-free/linux-free/carl9170fw/config/expr.c:548-605 | removing contradictions keeps a value that is not m, and keeps m wherever no operand of the other kind is m |
| ExprContradict.PassShrinks | firmware-free/linux-free/carl9170fw/config/expr.c:607-634 | a round that changes something makes the expression smaller, and one that does not leaves it alone |
| ExprContradict.EliminateDupsLoop | firmware-free/linux-free/carl9170fw/config/expr.c:607-634 | the loop ends and computes the recursive definition |
| ExprExact.EliminateDupsDecided | firmware-free/linux-free/carl9170fw/config/expr.c:607-634 | the whole elimination keeps y and n in every well-typed assignment |
| ExprExact.EliminateDupsValue | firmware-free/linux-free/carl9170fw/config/expr.c:607-634 | it keeps m too, through all rounds, wherever no and inside an or, or or inside an and, is m |
| ExprExact.EliminateDupsExact | firmware-free/linux-free/carl9170fw/config/expr.c:607-634 | it keeps the value in every well-typed assignment if every operand of the other kind is made of boolean symbols and comparisons; in particular for ands alone and ors alone |
| ExprContradict.EliminateDupsOnce | firmware-free/linux-free/carl9170fw/config/expr.c:607-634 | a second run changes nothing |
| ExprSame.NothingRepeated | firmware-free/linux-free/carl9170fw/config/expr.c:612-640 | after the elimination no operand occurs twice or equals another, no or has a boolean symbol and its negation, and no two comparisons of a tristate symbol are left that can be said as one |
| ExprSame.NothingRefuted | firmware-free/linux-free/carl9170fw/config/expr.c:612-640 | nor is an operand left of which the negation has all its operands among those of the whole |
| ExprGood.DupsGood | firmware-free/linux-free/carl9170fw/config/expr.c:612-640 | the normal form is kept, and no symbol comes under a negation that was not there before |
| ExprInexact.Inexact | firmware-free/linux-free/carl9170fw/config/expr.c:568-581 | for any two tristate symbols, (s || t) && !s && !t becomes n, which is exact if and only if it is not m; where s is m and t is n, it is |
| Dma.Queue.UnlinkHead | firmware-free/linux-free/carl9170fw/carlfw/src/dma.c:238-255 | the oldest packet leaves the queue, or nothing if it is empty; the rest stays linked up to the same terminator |
| Dma.Queue.Put | firmware-free/linux-free/carl9170fw/carlfw/src/dma.c:194-236 | one packet of the same buffers is appended; the descriptor where the hardware waits becomes its first, and its own first the terminator; all others, and that one, are with the hardware, have the length of the packet, know the last, and keep control and size |
| Dma.Queue.Reclaim | firmware-free/linux-free/carl9170fw/carlfw/src/dma.c:143-187 | each descriptor is appended as an empty packet of its own, in order, and all of them are with the hardware |
| Dma.MarkPut | firmware-free/linux-free/carl9170fw/carlfw/src/dma.c:200-218 | every descriptor of the packet goes to the hardware, knows the last, and keeps link and buffer |
| Dma.MarkReclaim | firmware-free/linux-free/carl9170fw/carlfw/src/dma.c:148-167 | every descriptor is emptied, goes to the hardware, and is on its own |
| Dma.LastsConcat | firmware-free/linux-free/carl9170fw/carlfw/include/dma.h:273-302 | two chains of packets one after the other are a chain of both, each first descriptor knowing the last of its packet |
| DmaSystem.StepConserves | firmware-free/linux-free/carl9170fw/carlfw/src/hostif.c:51-107 | moving a packet between any two queues, whole or reclaimed, keeps how often each buffer is in a queue |
| DmaSystem.Transfer | firmware-free/linux-free/carl9170fw/carlfw/include/dma.h:240-262 | on the descriptors themselves, taking a packet off one queue and putting or reclaiming it to another does to all queues what the move says, and they still share nothing |
| DmaHardware.Complete | firmware-free/linux-free/carl9170fw/carlfw/include/wl.h:65-85 | the hardware gives back descriptors that it owned as one packet; the queue stays in order, and no other descriptor changes |
| DmaEvents.NextSound | firmware-free/linux-free/carl9170fw/carlfw/src/wlan.c:336-752 | every event of every handler, and the hardware in between, keeps each buffer in exactly one queue or special descriptor, and the response buffer and the firmware's own frame in packets of their own |
| DmaEvents.InitialSound | firmware-free/linux-free/carl9170fw/carlfw/src/dma.c:74-136 | so it is after dma_init_descriptors |
| DmaEvents.ExactlyOnce | firmware-free/linux-free/carl9170fw/carlfw/src/dma.c:74-136 | after any events since initialisation every block, the response buffer and the firmware's frame are in exactly one queue or special descriptor, and nothing else is anywhere |
| DmaEvents.FlagsTell | firmware-free/linux-free/carl9170fw/carlfw/src/hostif.c:89-97 | after any events int_desc_available and fw_desc_available say whether their buffers are in no queue; if one is, it is a packet of its own in a queue that returns it, so that comparing the address of the first buffer is enough |
| DmaPlaces.EachOnItsSide | firmware-free/linux-free/carl9170fw/carlfw/include/dma.h:179-184 | after any events since initialisation each block of the first kind is in exactly one queue that leads to the air, and each later one in exactly one of the two queues of what comes from it |
| DmaPlaces.FilterGivesBack | firmware-free/linux-free/carl9170fw/carlfw/src/wlan.c:743-751 | a filtered packet leaves the receive queue and comes back to its end buffer by buffer, and nothing else changes |
| DmaPlaces.AirKept | firmware-free/linux-free/carl9170fw/carlfw/src/wlan.c:414-469 | packets on their way to the air stay whole: only sending adds one, only giving back takes one away, and trying again later only moves one |
| Firmware.Firmware.constructor | firmware-free/linux-free/carl9170fw/carlfw/src/dma.c:74-136 | the queues, descriptors and flags that dma_init_descriptors leaves are the initial state, and share no descriptor |
| Firmware.Firmware.DownloadOne | firmware-free/linux-free/carl9170fw/carlfw/src/hostif.c:60-77 | one packet of the host is put to a queue, or reclaimed if it is short |
| Firmware.Firmware.ReceiveOne | firmware-free/linux-free/carl9170fw/carlfw/src/wlan.c:743-751 | one received packet is put to the host's queue, or reclaimed if it is filtered |
| Firmware.Firmware.RetryOne | firmware-free/linux-free/carl9170fw/carlfw/src/wlan.c:414-420 | a packet without acknowledgement goes to the retry queue |
| Firmware.Firmware.TxDoneOne | firmware-free/linux-free/carl9170fw/carlfw/src/wlan.c:428-469 | a packet that was sent is reclaimed, or becomes the special descriptor if it is the firmware's own frame |
| Firmware.Firmware.UploadOne | firmware-free/linux-free/carl9170fw/carlfw/src/hostif.c:89-101 | a packet that the host has taken is reclaimed, or becomes the special descriptor if it is the response |
| Firmware.Firmware.HandleUpload | firmware-free/linux-free/carl9170fw/carlfw/src/hostif.c:85-107 | that for packet after packet: all others go back in order, and it stops where the hardware still owns the packet |
| Firmware.Firmware.Drain | firmware-free/linux-free/carl9170fw/carlfw/src/wlan.c:487-488 | all packets of the retry queue, or of a queue for later, go where their frames say, in order, and none is left |
| Firmware.Firmware.SendStatus | firmware-free/linux-free/carl9170fw/carlfw/usb/main.c:129-179 | the response descriptor is put to the host's queue, if it is available |
| Firmware.Firmware.TxFrame | firmware-free/linux-free/carl9170fw/carlfw/src/wlan.c:522-539 | the special descriptor is sent with a frame of the firmware, if it is available |
| Firmware.Firmware.Filled | firmware-free/linux-free/carl9170fw/carlfw/include/wl.h:65-85 | the hardware completing packets of a queue is the event in between |
| DmaSteps.ProgramDoes | firmware-free/linux-free/carl9170fw/carlfw/src/dma.c:143-236 | all writes of dma_put or dma_reclaim, the copy in whatever order, leave every descriptor of the packet in every field as it is to be in the queue, the first in place of the terminator, a cleared terminator, and nothing else changed |
| DmaSteps.StillWaiting | firmware-free/linux-free/carl9170fw/carlfw/src/dma.c:220-231 | until its last write the program keeps the old terminator in software's hands |
| DmaSteps.Interleaved | firmware-free/linux-free/carl9170fw/carlfw/src/dma.c:143-236 | under every interleaving with the hardware, which may also write the last address of descriptors it holds: a descriptor it finds its own is as it was before or, in every field, as the packet is to be in the queue; if it owns the old terminator, all writes are done and all the rest of the chain is so, up to a terminator that software owns |
| SymValues.Unique | firmware-free/linux-free/carl9170fw/config/symbol.c:292-428 | the equations of sym_calc_value have at most one solution if some order has every symbol after those it depends on |
| SymValues.SolutionSolves | firmware-free/linux-free/carl9170fw/config/symbol.c:292-428 | and then they have one |
| SymValues.SolutionTyped | firmware-free/linux-free/carl9170fw/config/symbol.c:292-428 | a solution is a well-typed assignment, so that the rewriting of expressions is right for the values that are calculated |
| SymMeaning.PromptIs | firmware-free/linux-free/carl9170fw/config/symbol.c:188-200 | a visibility is the one calculated if and only if no prompt is more visible and, unless it is n, some prompt is as visible |
| SymMeaning.PromptOrder | firmware-free/linux-free/carl9170fw/config/symbol.c:188-200 | it does not depend on the order of the properties |
| SymMeaning.FirstIs | firmware-free/linux-free/carl9170fw/config/symbol.c:115-137 | the default or range chosen is shown and none before it is, and none is chosen if and only if none is shown |
| SymMeaning.TriMeans | firmware-free/linux-free/carl9170fw/config/symbol.c:338-377 | a boolean or tristate symbol is at least what selects it; if visible and set, it has the value set, cut down to the greatest visibility, unless selected higher; else the first default that is shown, or n |
| SymMeaning.UserGets | firmware-free/linux-free/carl9170fw/config/symbol.c:338-377 | a value set within selection and visibility is the value of the symbol, unless it is m and there are only two |
| SymMeaning.TextMeans | firmware-free/linux-free/carl9170fw/config/symbol.c:380-396 | an int, hex or string symbol has the text set if visible, else that of the first default that is shown, or none |
| SymMeaning.RangeMeans | firmware-free/linux-free/carl9170fw/config/symbol.c:155-187 | a number inside the bounds stays as it is written, and any other becomes the nearest number inside them |
| SymMeaning.NoRange | firmware-free/linux-free/carl9170fw/config/symbol.c:155-173 | strings, and symbols of which no range is shown, are left as they are |
| SymMeaning.WithinExactly | firmware-free/linux-free/carl9170fw/config/symbol.c:462-479 | a value is within the range if and only if setting it would make it the value of the symbol, and the same holds of another value |
| SymMeaning.UnwrittenEmpty | firmware-free/linux-free/carl9170fw/config/symbol.c:309-407 | a symbol that is not to be saved is n, or has no text |
| SymCalc.Evaluator.CalcValue | firmware-free/linux-free/carl9170fw/config/symbol.c:292-428 | the recursive evaluation with its cache gives a symbol the value of the solution, whatever has been calculated before or is still being calculated |
| SymCalc.Evaluator.CalcAll | firmware-free/linux-free/carl9170fw/config/symbol.c:292-428 | evaluating a table of symbols in any order stores the solution |
| SymCalc.Evaluator.TristateWithinRange | firmware-free/linux-free/carl9170fw/config/symbol.c:462-479 | the range is read off the stored values as off the solution |
| SymCalc.Evaluator.SetTristateValue | firmware-free/linux-free/carl9170fw/config/symbol.c:481-515 | a new value is accepted if and only if it is within the range, and is then the value of the symbol; a refused one changes nothing; the present value is accepted without a look, nothing is calculated again, and the stored values stay right if and only if the symbol is not visible, the value is within its visibility, or it is what selects the symbol |
| SymValues.SetSame | firmware-free/linux-free/carl9170fw/config/symbol.c:486-513 | setting the present value keeps all values under exactly that condition |
| SymFaults.SetAgainStale | firmware-free/linux-free/carl9170fw/config/symbol.c:508-513 | a tristate symbol with default y and a prompt that allows m: set to y again it should be m, and stays y |
| SymDeps.Checker.CheckDeps | firmware-free/linux-free/carl9170fw/config/symbol.c:1192-1224 | the search leaves the symbol checked and the stack as it was, and returns only symbols still being checked |
| SymDeps.CheckAll | firmware-free/linux-free/carl9170fw/config/zconf.y:517-520 | over all symbols something is reported if and only if there is a recursive dependency, everything reported is one, and otherwise symbols are finished after those they mention; but no symbol is ever returned to the loop that would end the program |
| SymFaults.CheckMutual | firmware-free/linux-free/carl9170fw/config/zconf.y:517-522 | two symbols that depend on each other are reported, and no error is counted |
| SymOrder.CheckedRanked | firmware-free/linux-free/carl9170fw/config/symbol.c:1121-1152 | if nothing is reported, and every symbol needed is one that is followed, the order in which symbols were finished is one in which they can be evaluated |
| SymOrder.CoveredExactly | firmware-free/linux-free/carl9170fw/config/symbol.c:1121-1152 | everything needed is followed if and only if, for each symbol, the dependencies, the bounds of ranges and, where a tristate symbol is compared, the modules symbol are mentioned elsewhere in it or not defined |
| SymOrder.CoveredExample | firmware-free/linux-free/carl9170fw/config/symbol.c:1121-1152 | a configuration for which that holds |
| SymOrder.RangeOfItself | firmware-free/linux-free/carl9170fw/config/symbol.c:1121-1152 | the bounds of ranges are not followed: an int symbol that bounds itself passes, and there is no order |
| MenuDeps.EliminateEqImplies | firmware-free/linux-free/carl9170fw/config/menu.c:332-341 | if removing common operands leaves y of the second condition, the first implies it, for all three values |
| MenuDeps.NotNValue | firmware-free/linux-free/carl9170fw/config/menu.c:332-333 | the simplified condition says whether the expression is not n, if no negated operand is m |
| MenuDeps.BelongsShown | firmware-free/linux-free/carl9170fw/config/menu.c:326-346 | an entry that is put below another is shown only where the other is, or where its symbol is not n |
| MenuDeps.BelongsWhere | firmware-free/linux-free/carl9170fw/config/menu.c:326-330 | an entry with an operand that says that the symbol is not n always goes below, and one that does not mention the symbol never does |
| Menus.FinalKeeps | firmware-free/linux-free/carl9170fw/config/menu.c:262-424 | nesting and flattening keep every entry once and in order, and leave nothing below an entry without a title |
| Menus.Finalize | firmware-free/linux-free/carl9170fw/config/menu.c:262-424 | the pointer surgery leaves next, list and parent pointers of exactly the tree that the recursive definition gives, nesting the entries whose conditions imply the one above |
| Menus.TakeSiblings | firmware-free/linux-free/carl9170fw/config/menu.c:325-351 | the entries taken are the longest run that belongs below the one before, and the two lists are split there |
| MenuShown.TakeLongest | firmware-free/linux-free/carl9170fw/config/menu.c:325-351 | the entries taken belong there, and the first of the others does not |
| Menus.FlattenList | firmware-free/linux-free/carl9170fw/config/menu.c:395-404 | entries without a title are replaced by those below them |
| MenuShown.InheritedShown | firmware-free/linux-free/carl9170fw/config/menu.c:295-316 | an entry in the list of another is shown only where that one is and where its own conditions hold; where none is m, exactly there, and its new condition has the value of both |
| MenuShown.HiddenBelow | firmware-free/linux-free/carl9170fw/config/menu.c:262-424 | nothing that was in the list of an entry, however deep, is shown in the finalized menu where that entry is hidden |
| MenuShown.FinalNested | firmware-free/linux-free/carl9170fw/config/menu.c:262-424 | in the finalized menu an entry is shown below another only where that one is shown or its symbol is not n, or so for an entry without a title that it was below |
| MenuWalk.ConfWrite | firmware-free/linux-free/carl9170fw/config/confdata.c:768-801 | the walk over list, next and parent ends after visiting every entry below the root once, in order, and writes each flagged symbol once |
| MenuWalk.FirstTimesOnce | firmware-free/linux-free/carl9170fw/config/confdata.c:780-785 | a symbol is written if and only if it is flagged and has an entry, and none twice |
| MenuWalk.FinalizeThenWrite | firmware-free/linux-free/carl9170fw/config/confdata.c:768-801 | after menu_finalize the walk finds every entry there was before, once and in the same order |
| Confdata.EscapeUnescape | firmware-free/linux-free/carl9170fw/config/symbol.c:903-944 | every string is read back from its escaped form, whatever follows the closing quote |
| Confdata.Unquote | firmware-free/linux-free/carl9170fw/config/confdata.c:154-167 | the unescaping in place, with its search and moves within one buffer, computes the unescaped string, and fails if and only if there is no closing quote |
| Confdata.SetSymVal | firmware-free/linux-free/carl9170fw/config/confdata.c:120-183 | a value in the buffer is taken or refused as the type and the text say |
| Confdata.TriTaken | firmware-free/linux-free/carl9170fw/config/confdata.c:134-153 | a boolean or tristate symbol takes a text if and only if its first letter is that of a value it can have |
| Confdata.SymStringValid | firmware-free/linux-free/carl9170fw/config/symbol.c:541-571 | the loops over the characters take exactly the texts of numbers |
| Numbers.IntTexts | firmware-free/linux-free/carl9170fw/config/symbol.c:548-561 | an int symbol takes a text if and only if it is an integer in decimal, without zeros in front, or -0 |
| Numbers.HexTexts | firmware-free/linux-free/carl9170fw/config/symbol.c:562-571 | a hex symbol takes a text if and only if it is hexadecimal digits, with 0x or 0X in front or without |
| Confdata.EscapeLength | firmware-free/linux-free/carl9170fw/config/symbol.c:903-944 | a backslash is added for each quote and backslash and for nothing else |
| Confdata.LinesRead | firmware-free/linux-free/carl9170fw/config/confdata.c:420-440 | the lines as they stand in the file |
| Confdata.ValueRoundTrip | firmware-free/linux-free/carl9170fw/config/confdata.c:420-440 | what is printed of a value is read as that value, for every type |
| Confdata.LineRoundTrip | firmware-free/linux-free/carl9170fw/config/confdata.c:420-440 | the line printed for a symbol, or the comment in place of n, sets that symbol to that value and nothing else |
| Confdata.ConfReadSimple | firmware-free/linux-free/carl9170fw/config/confdata.c:185-343 | the loop over lines computes the recursive reading of the file |
| Confdata.FileRoundTrip | firmware-free/linux-free/carl9170fw/config/confdata.c:719-817 | reading a file gives back every value written to it |
| Confdata.TitleIgnored | firmware-free/linux-free/carl9170fw/config/confdata.c:771-778 | titles and headings set nothing, unless a title begins like a setting |
| Saving.SaveLoad | firmware-free/linux-free/carl9170fw/config/confdata.c:345-418 | loading what was saved gives back every value if and only if each symbol that is shown keeps its value when it is set to it |
| Saving.WriteRead | firmware-free/linux-free/carl9170fw/config/confdata.c:719-817 | the same through the text of the file: write, read, calculate |

## Left out

- Z_PACKET_FLUSH, which makes an empty input an error, zlib_inflateReset for a second stream, message texts, total counts and the check value copied to z->adler.
- The input is one sequence in which a call may step back over bytes it was given before; in the source those bytes lie before the buffer of the present call.
- zlib_inflate_blocks_reset at the end of a stream: the check value is taken and the bit buffer emptied; window pointers, equal by then, stay.
- Bits past the end of the input read as zero in `Peek`; no result depends on them, as the decoder asks whether there are enough.
- MANY: the guard is kept, and a refusal is tied to a table that exceeds it; that this never happens for accepted codes is not proved.
- InfTrees.HuftBuild: with a gap, what following the tables gives is not stated; such builds are refused.
- uLong is unbounded in the model; the bit buffer never holds more than 32 bits and checksums stay below 2^32, which is proved.
- expr.c rewrites trees in place through pointers that may point into one another; the model works on values, with the operands of one tree as a list, so that sharing between trees is not modelled.
- ExprExact.EliminateDupsExact: the condition is sufficient; that an operand is refuted depends on which operands are found equal, and RefuteValue says exactly when one refutation changes the value.
- Choices, in expressions, in the evaluator, in the dependency check and in menu_finalize; lists and ranges as expressions.
- In menu_finalize: properties other than the prompt, reverse dependencies, and warnings.
- SymCalc.Evaluator.SetTristateValue: a symbol that the modules symbol depends on is excluded; setting one changes modules_val half way through the next evaluation.
- Graphs of dependencies without an order of evaluation: sym_calc_value would read values that are still being calculated.
- strtol and sprintf are parameters; the WRITE and CHANGED flags matter only as sets given to the walk and as `Written`.
- Reading of auto.conf with symbols of unknown type, default configurations and split configurations. A last line of a file that is a lone # without a line end is compared with what the buffer held before; the model takes every line to be followed by nothing.
- ExprTransform.TransCompareValue: comparisons with y and n only; with m the source returns the expression itself for and and or.
- Which queue a packet goes to, and whether it is filtered, short or to be sent again, depends on frame contents and is a parameter of each handler; the offset by which a frame's own header is skipped while it is queued is not part of a buffer's address.
- dma_fix_downqueue, dma_rearm, register writes and triggers.
- The status word has its two owner bits as a field of its own; the other bits are never set by the functions modelled.
- Fields of a descriptor are unbounded numbers and addresses are object references, or numbers in `DmaSteps`; alignment and the memory map are not modelled.
