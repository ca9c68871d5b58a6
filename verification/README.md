# Radar firmware: a verified model

This project models the parts of a 24 GHz surveillance radar's firmware that do real computation and
proves what they are for. It is plain Dafny 4.11; `dafny verify dfyconfig.toml` checks all of it.

What is modelled, by file:

- **CFAR detection chain.** `Threshold` (histogram, mode, smoothed threshold), `PeakSearch` (transposition,
  two-dimensional peak search into a packed bitmap), `RangeCfar`, `RangeCfarTrim`, `RangeGo`, `CmldCfar`,
  `OsCfar`, `DopplerCfar` (the noise-floor estimators the detector dispatches to), `Detection` (bitmap
  decoding, dispatch, the six comparisons, the capped list), `MicroDoppler`, and `Frame`, which puts them
  together from the raw map to the marked list; `Floors` bounds the noise floors. Shared vocabulary: `RadarMap`, `Tallies`, `OrderStats`, `Arith`.
- **Auto-link wire frame.** `EthLink` packs and checks frames; `Crc16` holds the bit-vector facts about the
  16-bit checksum, `Bytes` the link between bytes and numbers.
- **Sorted index table.** `IndexTable` refines a bounded finite map.
- **UDP fragmentation.** `UdpFragment` cuts, retries, stages and reassembles, and says when a message arrives.
- **PIL injection.** `PilRuns` is the protocol as a state machine, `PilFailures` says when it gets stuck or
  repeats itself, and `Pil` holds the two records and the methods that update them, each refining one step.
- **Packed registers.** `Awmf` (beam weights), `RampRegisters` (ramp shadow registers), over `BitField` and
  `Bits32`, where `x >> 1` is `x / 2` and `x & 1` is `x % 2`.
- **Command line.** `CliScan` (the two scanners) and `Cli` (registration, dispatch, help).
- **Table files.** `Table2d` tokenises text in place, twice.

Conventions. Code that works in place stays in place: arrays, classes with mutable fields, loops. A method's
contract ties its result or new state to a specification function, and lemmas about that function state what
the source promises. Results of system calls (socket sends, serial reads and writes, queue sends, timers) are
parameters. What an operation computes is also stated apart from the functions it is built of, as plain
numbers, bytes or characters, so that the two readings hold each other. 32-bit unsigned sums wrap explicitly
(`Tallies.U32`). A C pointer to a column or row of the map is a base offset into the map's array.

Properties that turned out false of the code, each with the exact condition under which it holds and an input
for which it does not:

- A message handed to the sender arrives: it does exactly if every packet has a successful call among its at
  most 10001 tries. A packet given up is lost while the sender returns success: `UdpFragment.ReceivedIff`,
  `UdpFragment.GivenUpIsLost`, with `UdpFragment.FirstIsLost`; `UdpFragment.Sender.SendData` carries it.
- An injecting flag is cleared in the end: some run clears it exactly if a package is outstanding. A step ends
  with the flag set for good exactly if it is an accepted inject command, a hand-over that queues nothing or a
  failed write: `PilFailures.ClearableIff`, `PilFailures.EntersStuckIff`, over whole runs
  `PilFailures.RunStuckIff`, with `PilFailures.UnqueuedRunSticks` and `PilFailures.InjectRunSticks`.
- A hand-over with code 0 puts its package in the queue: it does exactly if the worker runs and the send
  succeeds: `PilFailures.HandOverQueuedIff`.
- A hand-over brings new bytes: it repeats the package written last exactly if the offset is already at the
  end, that is, if the chunk is empty: `PilFailures.HandOverRepeatsIff`, with `PilFailures.RepeatIsReached`.
- Each row's histogram counts that row's magnitudes: it does for all rows exactly if every magnitude is below
  16384: `Threshold.CountedIff`, with `Threshold.SpillExists`.
- At the map's range edges the ordered-statistic estimator can return the wrong rank, because a tap that
  sets a new maximum is never offered as a minimum: `OsCfar.EdgeSelectsIff` and `OsCfar.EdgeFloorIff`, with
  `OsCfar.EdgeCanMiss` at the far edge. With row 0 cleared the near edge is right: `OsCfar.ClearedFrontSelects`.
- The bubble sort permutes its list only if the slot after the list holds no more than any listed magnitude:
  `CmldCfar.BubbleSort`, with `CmldCfar.PrefixChanges`. The detector's input stage guarantees it by clearing range row 0.
- A packed frame is accepted only for payloads below 65536 bytes: `EthLink.PackedFrameAccepted`,
  with `EthLink.LongFrameRejected`.
- The beam-weight getter reports a channel as off when a higher channel of the same word is off:
  `Awmf.StateReadsLastIff`, with `Awmf.MisreadExists`.
- Ramp 6's length registers are ramp 7's low increment registers: `RampRegisters.AliasKeepsIff`,
  `RampRegisters.AliasKeepsLengthIff`, with `RampRegisters.AliasLoses`.
- A ramp increment keeps its sign only if its magnitude fits 30 bits signed: `RampRegisters.IncrementSurvivesIff`,
  with `RampRegisters.IncrementLost`.
- The two command-line scanners agree only up to 127 parameters: `CliScan.NumberOfParameters`,
  with `CliScan.CountWraps`.

## Model

| member | source | states |
|---|---|---|
| Threshold.CalcHistogram | app/src/app/Detection/detection_cfar_2d.c:78-103 | every cell is counted in slot row * 64 + magnitude / 256 of the histogram, and the rows' bins count their own rows exactly if all magnitudes are below 16384 |
| Threshold.CountedIff | app/src/app/Detection/detection_cfar_2d.c:91-100 | the histogram counts every row's own magnitudes exactly if all magnitudes of the map are below 16384 |
| Threshold.SpillExists | app/src/app/Detection/detection_cfar_2d.c:96 | an empty map with one cell of 16384 in row 0 has 33 counts or more in bin 0 of row 1 |
| Threshold.BinsSumToCells | app/src/app/Detection/detection_cfar_2d.c:91-100 | the 64 bins of a row sum to at most its cell count, and to that count exactly if all its magnitudes are below 16384 |
| Threshold.FindMode | app/src/app/Detection/detection_cfar_2d.c:122-136 | the index found is the first most frequent bin from bin 2 on, or 0 if all of these are empty |
| Threshold.ModeUnique | app/src/app/Detection/detection_cfar_2d.c:122-136 | that description fits one index only |
| Threshold.ModeZeroIff | app/src/app/Detection/detection_cfar_2d.c:91-136 | across histogram and mode: index 0 comes out exactly when every magnitude of the row is below 512 |
| Threshold.RawAboveMode | app/src/app/Detection/detection_cfar_2d.c:129-133 | the raw threshold lies 513 to 768 above every magnitude that falls into the modal bin |
| Threshold.ThresholdAboveMode | app/src/app/Detection/detection_cfar_2d.c:91-136 | across histogram and mode: the raw threshold lies 513 to 768 above a magnitude of the row, no bin from 2 on counts more than the modal one and no lower one as many |
| Threshold.CalcThreshold | app/src/app/Detection/detection_cfar_2d.c:106-182 | each threshold is the five-row mean of the mode thresholds; rows past the given count become 0 |
| Threshold.TapsDistinct | app/src/app/Detection/detection_cfar_2d.c:146-173 | with at least six rows the five averaged rows are distinct rows of the map, edges included |
| Threshold.FiveMeanIs | app/src/app/Detection/detection_cfar_2d.c:146-177 | which five rows are averaged: two on either side, and at rows 0, 1, n - 2 and n - 1 the ones written out |
| Threshold.FiveMeanBetween | app/src/app/Detection/detection_cfar_2d.c:146-177 | a smoothed threshold lies between the smallest and largest it averages |
| Threshold.TapSum | app/src/app/Detection/detection_cfar_2d.c:148-176 | adding fifths and truncating gives the truncated mean of the five |
| PeakSearch.Transpose | app/src/app/Detection/detection_cfar_2d.c:185-206 | the second buffer is the transpose of the first; bad dimensions leave it untouched |
| PeakSearch.MarkDopplerPeaks | app/src/app/Detection/detection_cfar_2d.c:229-268 | a cell is flagged exactly if it is in the searched rows, at or above threshold and a strict cyclic maximum in Doppler |
| PeakSearch.FindPeaks | app/src/app/Detection/detection_cfar_2d.c:209-317 | a bitmap bit is set exactly at the cells that are peaks in both dimensions, and the peak counter is the number of peaks |
| PeakSearch.PeaksAreIsolated | app/src/app/Detection/detection_cfar_2d.c:240-312 | no two cells next to each other, cyclically in Doppler, are both peaks |
| RangeCfar.CellAverage | app/src/app/Detection/detection_cfar_2d.c:534-662 | in all five edge branches the floor is the mean of the nonzero cells among the same 2w rows around the guard zone |
| RangeCfar.LeftRows | app/src/app/Detection/detection_cfar_2d.c:534-644 | how those rows split between the sides: always 2w distinct rows of the map outside the guard |
| RangeCfar.WindowIs | app/src/app/Detection/detection_cfar_2d.c:534-644 | the window written out in all five places: beyond the guard on both sides, or all rows of the short side and the missing ones on the other |
| RangeCfarTrim.CellAverageTrim | app/src/app/Detection/detection_cfar_2d.c:752-861 | the floor is the mean of what the two borrowing loops gather, less the least cell if trimming is on and more than two were seen |
| RangeCfarTrim.GatheredIsWindow | app/src/app/Detection/detection_cfar_2d.c:763-843 | the borrowing loops gather the same window as the explicit edge branches of the first estimator |
| RangeCfarTrim.LeastIsWindows | app/src/app/Detection/detection_cfar_2d.c:763-843 | for 16-bit magnitudes the value kept by the loops is the smallest nonzero cell of the 2w window rows, if there is one |
| RangeCfarTrim.TrimmedIsMean | app/src/app/Detection/detection_cfar_2d.c:752-861 | the trimmed floor is the mean of the window's nonzero cells without one smallest when there are more than two, and their plain mean otherwise |
| RangeCfarTrim.UntrimmedIsCellAverage | app/src/app/Detection/detection_cfar_2d.c:752-861 | with trimming off the second estimator equals the first for every row |
| RangeCfarTrim.TrimmingNeverLowers | app/src/app/Detection/detection_cfar_2d.c:763-858 | for 16-bit magnitudes trimming never gives a lower floor than not trimming |
| RangeGo.GreatestOf | app/src/app/Detection/detection_cfar_2d.c:864-990 | the floor is the greater of the two sides' means, of the one full side at the edges, of the one nonzero side otherwise |
| RangeGo.GreatestIs | app/src/app/Detection/detection_cfar_2d.c:864-990 | which rows the untrimmed floor averages, and that it is the greater mean where both sides have nonzero cells |
| RangeGo.SideTrimmed | app/src/app/Detection/detection_cfar_2d.c:880-987 | trimmed, a side with more than two nonzero cells gives their mean without one smallest |
| RangeGo.GreatestNotBelowAverage | app/src/app/Detection/detection_cfar_2d.c:910-987 | away from the edges and untrimmed the greatest-of floor is never below the cell average |
| CmldCfar.Pass | app/src/app/Detection/detection_cfar_2d.c:1002-1012 | one inner loop sinks a least magnitude to its end, permuting the rest |
| CmldCfar.BubbleSort | app/src/app/Detection/detection_cfar_2d.c:994-1014 | despite reading one slot past the list, the list is permuted exactly when that slot is no larger than any listed magnitude, and is then in descending order |
| CmldCfar.PrefixKeptIff | app/src/app/Detection/detection_cfar_2d.c:1000-1013 | sorting one slot too many keeps the first n magnitudes as a multiset exactly when the extra one was least |
| CmldCfar.PrefixChanges | app/src/app/Detection/detection_cfar_2d.c:1000-1013 | with magnitudes 3 and 4 listed and 5 in the slot after them, sorting changes what is listed |
| CmldCfar.GatherRight | app/src/app/Detection/detection_cfar_2d.c:1035-1056 | the right list names the w rows the trimmed cell average reads on that side; the spare steps are never needed |
| CmldCfar.GatherLeft | app/src/app/Detection/detection_cfar_2d.c:1058-1082 | the same for the left list |
| CmldCfar.CellsAre | app/src/app/Detection/detection_cfar_2d.c:1035-1082 | the cells of each side by distance, and where the missing ones are borrowed |
| CmldCfar.CensoredMean | app/src/app/Detection/detection_cfar_2d.c:1019-1120 | with row 0 cleared the floor is the mean of the nonzero cells left when each side drops its largest and smallest |
| CmldCfar.KeptParts | app/src/app/Detection/detection_cfar_2d.c:1019-1120 | the cells of a side split into the largest, the kept and the smallest, for any numbers of removals, and what is kept is summed and its nonzero cells counted |
| CmldCfar.UncensoredIsCellAverage | app/src/app/Detection/detection_cfar_2d.c:1019-1120 | dropping nothing, it is the plain cell average of the window |
| OrderStats.SortedUnique | app/src/app/Detection/detection_cfar_2d.c:994-1014 | the descending order of a list is unique, so what a removal keeps is well defined |
| OsCfar.TapsFillWindow | app/src/app/Detection/detection_cfar_2d.c:335-490 | the taps of all five branches are the cells cell averaging uses, in another order |
| OsCfar.Select | app/src/app/Detection/detection_cfar_2d.c:493-528 | the extreme placement and partial exchange sort return the picked tap for K = 1 and otherwise the (K-1)-th smallest of the others; with two taps always the smaller |
| OsCfar.OrderedStatistic | app/src/app/Detection/detection_cfar_2d.c:321-531 | away from the edges the K-th smallest of the window is returned for every K from 1 to 2w; with w = 1 always the smaller cell; at the edges what the scan's pick leads to |
| OsCfar.EdgePickLeastIff | app/src/app/Detection/detection_cfar_2d.c:336-453 | the edge scan finds a least tap unless the first tap alone is least and some later tap sets no record |
| OsCfar.EdgeSelectsIff | app/src/app/Detection/detection_cfar_2d.c:336-530 | at the edges the K-th smallest is returned exactly when the taps lack the missing shape (K = 1), or at most K - 2 of them lie below the least tap that sets no record, or the two ranks tie (K > 1) |
| OsCfar.EdgeFloorIff | app/src/app/Detection/detection_cfar_2d.c:321-531 | the same of a column: when the floor of an edge cell is the K-th smallest of its window |
| OsCfar.ClearedFrontSelects | app/src/app/Detection/detection_cfar_2d.c:336-394 | with row 0 cleared every cell of the near edge past the guard gets the K-th smallest of its window |
| OsCfar.EdgeCanMiss | app/src/app/Detection/detection_cfar_2d.c:396-453 | a column of 512 rows on which, at the default window 6, guard 2 and K = 6, the floor of range bin 510 is not the sixth smallest of its window |
| DopplerCfar.SidesFull | app/src/app/Detection/detection_cfar_2d.c:1367-1434 | if the usable cells are nonzero and guard, window and three steps together are fewer than the row's bins, w + 3 cyclic steps gather w taps on each side, however the skipped bins fall |
| DopplerCfar.SideHoldsFirst | app/src/app/Detection/detection_cfar_2d.c:1367-1434 | a side holds, in order of distance, the first w cells that are nonzero and off bins 0, 1 and the last, among those g + 1 to g + w + 3 bins away, counted modulo the row |
| DopplerCfar.TapsBeyondGuard | app/src/app/Detection/detection_cfar_2d.c:1378-1390 | every such cell is more than the guard and at most guard, window and three bins away on its side, and with room for both guards more than the guard away the other way round |
| DopplerCfar.StepsApart | app/src/app/Detection/detection_cfar_2d.c:1380-1390 | under the same condition all steps of both sides meet different bins |
| DopplerCfar.TapsDistinct | app/src/app/Detection/detection_cfar_2d.c:1367-1434 | if twice the guard, window and three steps are fewer than the row's bins, as with the defaults 4, 6 and 32, the taps of both sides are cells of different bins other than the tested one: none is counted twice |
| DopplerCfar.CellAverage | app/src/app/Detection/detection_cfar_2d.c:1355-1463 | the floor is the trimmed mean of the taps both sides gather, in 32-bit arithmetic |
| DopplerCfar.GreatestOf | app/src/app/Detection/detection_cfar_2d.c:1466-1642 | the floor is the greater of the sides' trimmed means; a side without taps has no say |
| DopplerCfar.GreatestIs | app/src/app/Detection/detection_cfar_2d.c:1550-1641 | which side's floor is taken: the greater, the only one with taps, or zero |
| DopplerCfar.FloorIsCensoredMean | app/src/app/Detection/detection_cfar_2d.c:1438-1456 | for 16-bit taps the floor is their mean, with more than three taps without one largest and one smallest as asked for; nothing wraps, and it lies between smallest and largest |
| DopplerCfar.GreatestNotBelowAverage | app/src/app/Detection/detection_cfar_2d.c:1550-1641 | without removals, which the detector never asks for, the greatest-of floor is never below the average over both sides |
| DopplerCfar.GreatestWithRemovals | app/src/app/Detection/detection_cfar_2d.c:1438-1641 | with the largest tap removed, as the detector always asks, the average over both sides exceeds the greatest-of floor only up to the lesser of the two sides' largest taps |
| DopplerCfar.AverageCanExceed | app/src/app/Detection/detection_cfar_2d.c:1438-1641 | with taps 1, 1, 1, 100 on both sides it does exceed it |
| Detection.RangeNoise | app/src/app/Detection/detection_cfar_2d.c:1779-1829 | the range floor is the one its segment or the configured method calls for |
| Detection.RangeFloorBySegment | app/src/app/Detection/detection_cfar_2d.c:1779-1829 | with ascending cuts: which cells the range floor of each segment is made of, and by which method elsewhere |
| Detection.RangeFloorModest | app/src/app/Detection/detection_cfar_2d.c:1779-1829 | on a prepared map the range floor is never negative and below 2^26 |
| Detection.DopplerNoise | app/src/app/Detection/detection_cfar_2d.c:1779-1842 | likewise for Doppler |
| Detection.DopplerFloorBySegment | app/src/app/Detection/detection_cfar_2d.c:1779-1842 | likewise for Doppler |
| Detection.DopplerFloorModest | app/src/app/Detection/detection_cfar_2d.c:1779-1842 | so is the Doppler floor |
| Detection.Test | app/src/app/Detection/detection_cfar_2d.c:1694-1876 | a cell is kept exactly if it passes all six unsigned comparisons against its segment's margins, a zero floor standing for the global one |
| Detection.PassesIff | app/src/app/Detection/detection_cfar_2d.c:1844-1872 | in plain numbers and with no sum reaching 2^32: a cell passes exactly if it lies strictly between its segment's margins over the range floor, over the Doppler floor and over the threshold less 768, which also stands for a floor of zero |
| Detection.KeptIff | app/src/app/Detection/detection_cfar_2d.c:1844-1872 | on a prepared map with margins below 2^31 no sum reaches 2^32, so exactly those cells pass |
| Detection.SegmentIs | app/src/app/Detection/detection_cfar_2d.c:1694-1776 | with ascending cuts a row's segment is the number of cuts below it, the first not counted; rows before the first belong to segment 2 |
| Detection.SetAtIsBitAt | app/src/app/Detection/detection_cfar_2d.c:1687-1691 | shifting and masking a bit position gives back the range and Doppler bin the peak search encoded |
| Detection.DecodeWord | app/src/app/Detection/detection_cfar_2d.c:1678-1898 | shifting a word until it is zero appends its hits in order and misses no set bit |
| Detection.PositionsOnce | app/src/app/Detection/detection_cfar_2d.c:1676-1692 | the visited positions are in increasing Doppler-major order, each once |
| Detection.Detect | app/src/app/Detection/detection_cfar_2d.c:1646-1918 | the list is the first 64 hits with ids 0 to n - 1, and n is their number |
| Detection.ShiftIsSigned | app/src/app/Detection/detection_cfar_2d.c:1860-1877 | the listed shift is the Doppler bin modulo 32, from -16 to 15, and the listed range 192 per range bin |
| Detection.DecibelsAre | app/src/app/Detection/detection_cfar_2d.c:1878 | the listed magnitude is the cell's times 0.0039 * 3.0103 * 64, rounded down |
| Detection.DecodedArePeaks | app/src/app/Detection/detection_cfar_2d.c:1676-1692 | decoding the peak search's bitmap visits exactly the peaks |
| Detection.DetectFrame | app/src/app/Detection/detection_cfar_2d.c:2152-2173 | transposition, peak search and detection together list the first 64 peaks that pass |
| MicroDoppler.Mark | app/src/app/Detection/detection_cfar_2d.c:2233-2309 | a detection is marked exactly if another one of its range bin, one of the first 200, has a larger listed magnitude; the bin is the one its listed range stands for |
| MicroDoppler.StrongestUnmarked | app/src/app/Detection/detection_cfar_2d.c:2239-2309 | every marked detection is outshone by one that stays unmarked |
| Frame.Process | app/src/app/Detection/detection_cfar_2d.c:2121-2173 | from the raw map: near rows cleared, thresholds the map's own, the list its first 64 passing peaks, marks on the outshone |
| Frame.ClearNear | app/src/app/Detection/detection_interface.c:104 | the first four range rows become zero, the others stay |
| Frame.ThresholdsUnique | app/src/app/Detection/detection_cfar_2d.c:78-182 | the map alone decides histogram, modes and thresholds |
| Frame.ThresholdsAboveGuard | app/src/app/Detection/detection_cfar_2d.c:119-182 | no threshold of a frame is below the guard, so the global noise is never negative |
| Frame.WhatIsReported | app/src/app/Detection/detection_cfar_2d.c:2121-2173 | every listed target of a frame is a peak past the near rows that passes all tests, read in plain numbers if the margins are below 2^31, and a marked one is outshone by an unmarked one |
| Frame.ReportedAreDetections | app/src/app/Detection/detection_cfar_2d.c:2121-2309 | every listed target of a frame, on its cells, thresholds, floors and margins as plain numbers, with the id, range, bins, shift and magnitude listed for it and exactly when it is marked |
| Frame.DetectionsAreReported | app/src/app/Detection/detection_cfar_2d.c:2121-2173 | with fewer than 64 listed, every cell that is such a detection is listed |
| Frame.ReportedApart | app/src/app/Detection/detection_cfar_2d.c:2121-2173 | no two listed targets are the same cell or neighbours in range or, cyclically, in Doppler |
| EthLink.CrcIsBitSerial | app/src/srv/eth_link/eth_link.c:466-473 | the nibble-folded update equals eight reflected bit steps with 0x8408, the FCS of Appendix C.2 of RFC 1662 without its final complement |
| EthLink.CheckValue | app/src/srv/eth_link/eth_link.c:466-473 | the CRC of the digits 1 to 9 is 0x6F91 |
| EthLink.Analyse | app/src/srv/eth_link/eth_link.c:441-482 | a frame is accepted exactly if magic, length, header sum and trailer are right, and the payload starts at byte 9 |
| EthLink.AcceptsIff | app/src/srv/eth_link/eth_link.c:441-482 | a frame is accepted exactly if its byte 0, its length bytes, the sum of its first eight byte values and the bit-serial CRC from byte 1 on are right |
| EthLink.Package | app/src/srv/eth_link/eth_link.c:484-516 | the buffer becomes the frame around the payload already in it, and nothing after it changes |
| EthLink.Sum8IsSum | app/src/srv/eth_link/eth_link.c:459-461 | the header sum is the sum of the byte values modulo 256 |
| EthLink.FrameBytes | app/src/srv/eth_link/eth_link.c:484-516 | every byte of a packed frame: 0xFD, length low byte first, 0, 0xFF, 0x03, message id, 0, the sum of these, the payload, and a CRC that leaves zero |
| EthLink.PackedFrameAccepted | app/src/srv/eth_link/eth_link.c:441-516 | the checker accepts what the packer builds exactly for payloads below 65536 bytes, and finds that payload |
| EthLink.LongFrameRejected | app/src/srv/eth_link/eth_link.c:441-516 | a packed frame of 65536 zero bytes is rejected |
| EthLink.AcceptedIsCodeword | app/src/srv/eth_link/eth_link.c:463-476 | the checksum over an accepted frame from byte 1 on, trailer included, is zero |
| EthLink.CrcSeesTwoBytes | app/src/srv/eth_link/eth_link.c:466-473 | two texts with zero checksum that differ in two consecutive bytes at most are equal |
| EthLink.BurstRejected | app/src/srv/eth_link/eth_link.c:441-482 | changing an accepted frame within two consecutive bytes always gives a rejected one |
| EthLink.OneByteRejected | app/src/srv/eth_link/eth_link.c:441-482 | replacing any one byte of an accepted frame always gives a rejected one |
| Crc16.StepInjectiveInState | app/src/srv/eth_link/eth_link.c:469-471 | for a fixed byte the checksum step loses no state |
| Crc16.StepInjectiveInByte | app/src/srv/eth_link/eth_link.c:469-471 | for a fixed state it tells all bytes apart |
| IndexTable.BinarySearch | app/src/service/sfbus/index/sfbus_index.c:27-61 | the search terminates and returns a position holding the id, or -1 exactly if it is absent |
| IndexTable.BinaryInsert | app/src/service/sfbus/index/sfbus_index.c:63-99 | -1 exactly if the id is present, otherwise its one insertion point |
| IndexTable.Table.constructor | app/src/service/sfbus/index/sfbus_index.c:101-147 | a new table is empty |
| IndexTable.Table.GetEmptyId | app/src/service/sfbus/index/sfbus_index.c:179-200 | the least free positive id, or -1 exactly if the table is full |
| IndexTable.Table.FindId | app/src/service/sfbus/index/sfbus_index.c:202-220 | lookup in the map the table stands for |
| IndexTable.Table.AddId | app/src/service/sfbus/index/sfbus_index.c:222-271 | map insertion, the position as result, and which error for which refusal |
| IndexTable.Table.DelId | app/src/service/sfbus/index/sfbus_index.c:273-303 | map removal; the result is the new count, not the position |
| IndexTable.InsertIsUpdate | app/src/service/sfbus/index/sfbus_index.c:246-260 | shifting an id in at its insertion point is the map update, and keeps the order |
| IndexTable.RemoveIsDelete | app/src/service/sfbus/index/sfbus_index.c:282-293 | shifting an id out is the map removal, and keeps the order |
| IndexTable.Perform | app/src/service/sfbus/index/sfbus_index.c:222-303 | a whole sequence of calls on the table has the effect of the same calls on the map |
| IndexTable.CallsKeepBounds | app/src/service/sfbus/index/sfbus_index.c:222-303 | over any sequence ids stay positive and their number within the size |
| IndexTable.EntrySurvives | app/src/service/sfbus/index/sfbus_index.c:222-303 | an entry stays as it was through any calls that do not delete it |
| UdpFragment.Sender.SendPackets | app/src/srv/protocol/protocol_common.c:196-237 | sendto is handed every packet with its retries, in order; the packet counter advances by their number modulo 2^16, given-up packets included; the staging buffer holds them end to end |
| UdpFragment.Sender.SendData | app/src/srv/protocol/protocol_common.c:162-241 | not ready is an error, a failed lock is success without effect; otherwise the result is success whatever the sends return, the message counter advances, and the datagrams the socket took rebuild the message exactly if every packet got through |
| UdpFragment.Sender.SendBlocking | app/src/srv/protocol/protocol_common.c:969-989 | messages no longer than head and tail are refused without effect; others arrive exactly if every packet gets through |
| UdpFragment.Tries | app/src/srv/protocol/protocol_common.c:217-227 | a packet goes out at least once and at most 10001 times |
| UdpFragment.OnlyLastTry | app/src/srv/protocol/protocol_common.c:217-227 | of a packet's tries only the last can succeed, and does exactly if one of the 10001 calls would; otherwise there are 10001 |
| UdpFragment.StagingFits | app/src/srv/protocol/protocol_common.c:74 | all packets of a message fit the staging buffer exactly for messages up to the ADC frame's size |
| UdpFragment.PacketFields | app/src/srv/protocol/protocol_common.c:185-216 | every byte of a packet as a receiver reads it: flag, packet counter modulo 2^16, length, message counter, the types copied from the message, number of packets, order, reserved bytes, payload |
| UdpFragment.SentIsPackets | app/src/srv/protocol/protocol_common.c:206-237 | what is handed to sendto is every packet and nothing else, within the retry bound |
| UdpFragment.DeliveredIs | app/src/srv/protocol/protocol_common.c:206-237 | the socket takes each packet that gets through once, in order, and nothing else |
| UdpFragment.Reassembles | app/src/srv/protocol/protocol_common.c:196-237 | the packets rebuild the message in whatever order and multiplicity they arrive |
| UdpFragment.ReceivedIff | app/src/srv/protocol/protocol_common.c:196-237 | what the socket took rebuilds the message exactly if every packet has a successful call among its at most 10001 tries |
| UdpFragment.GivenUpIsLost | app/src/srv/protocol/protocol_common.c:217-237 | a packet whose 10001 tries all fail is never delivered, and what is rebuilt is shorter than the message |
| UdpFragment.FirstIsLost | app/src/srv/protocol/protocol_common.c:217-237 | with a socket that refuses the first 10001 calls exactly the packets but the first are delivered |
| PilRuns.StepKeeps | app/src/app/pil/pil.c:36-312 | every command and worker step keeps: at most one package outstanding, and while it is, injecting, open, and header copied from the buffer as it stands |
| PilRuns.OutstandingFreezes | app/src/app/pil/pil.c:108-312 | while a package is outstanding no command changes the buffer or closes, and each is refused with a nonzero code |
| PilRuns.BufferIsUploaded | app/src/app/pil/pil.c:204-282 | in every reachable state the buffer starts with the accepted chunks since the last start, as rewritten, and while not injecting the offset is their length |
| PilRuns.WritesAreImages | app/src/app/DataPath/data_path.c:683-738 | over every run the worker's writes are the handed-over packages, bytes and order, all but at most the last |
| PilRuns.WriteIsUploaded | app/src/app/DataPath/data_path.c:704-731 | a write puts out the uploaded bytes past the header, though it reads them by pointer |
| PilRuns.CallerOffsetIgnored | app/src/app/pil/pil.c:242-275 | chunks append at the internal offset: state and code do not depend on the caller's |
| PilRuns.CheckedFirst | app/src/app/DataPath/data_path.c:757-780 | the status check inside a transmit command commutes with the rest of it |
| PilFailures.StuckForever | app/src/app/pil/pil.c:108-312 | with the flag set and nothing outstanding, no run clears the flag and every command is refused with a nonzero code |
| PilFailures.ClearableIff | app/src/app/pil/pil.c:36-312 | in a reachable state with the flag set some run clears it exactly if a package is outstanding |
| PilFailures.EntersStuckIff | app/src/app/pil/pil.c:252-312 | after a step the state is stuck exactly if it was before, or the step is an accepted inject command, a hand-over without running worker and successful send, or a failed write |
| PilFailures.RunStuckIff | app/src/app/pil/pil.c:108-312 | a run from the start ends stuck exactly if one of its steps was such a step |
| PilFailures.HandOverQueuedIff | app/src/app/DataPath/data_path.c:783-802 | a hand-over is answered with code 0 always, and its package is outstanding exactly if the worker runs and the send succeeds |
| PilFailures.UnqueuedRunSticks | app/src/app/pil/pil.c:108-275 | opening without a worker and one whole-package chunk end stuck |
| PilFailures.InjectRunSticks | app/src/app/pil/pil.c:284-312 | opening and an inject command end stuck |
| PilFailures.RunKeepsWritten | app/src/app/DataPath/data_path.c:683-738 | after any run, past a completed write and without the flag, the buffer still holds the package written last, as rewritten since |
| PilFailures.HandOverRepeatsIff | app/src/app/pil/pil.c:252-273 | a hand-over adds nothing to the uploaded bytes exactly if the offset is at the end already, and then repeats the package written last, as rewritten since |
| PilFailures.RepeatIsReached | app/src/app/pil/pil.c:252-273 | for every package there is a run from the start after which an empty chunk hands it over again |
| Pil.DataPath.Check | app/src/app/DataPath/data_path.c:757-780 | a loaded package counts as done once more than 8 ms have passed since the last time out, which is then moved to now |
| Pil.DataPath.SetData | app/src/app/DataPath/data_path.c:783-802 | the info is queued only if the worker runs and the send succeeds; the caller is not told |
| Pil.Uploader.constructor | app/src/app/pil/pil.c:29 | the machine starts closed and idle |
| Pil.Uploader.SetOpen | app/src/app/pil/pil.c:108-138 | refines the open step, state and error code |
| Pil.Uploader.SetClose | app/src/app/pil/pil.c:140-166 | refines the close step |
| Pil.Uploader.StartTransmit | app/src/app/pil/pil.c:168-202 | refines the start step with its order of refusals |
| Pil.Uploader.TransmitData | app/src/app/pil/pil.c:204-282 | refines the chunk step, and on the fields: refused with 3 when injecting, or when the status is inform, or loaded with at most 8 ms since the last time out; which code for which overflow, and where the chunk is placed |
| Pil.Uploader.Append | app/src/app/pil/pil.c:252-274 | hands over exactly when the appended chunk fills the buffer |
| Pil.Uploader.InjectData | app/src/app/pil/pil.c:284-312 | refines the inject step, which sets the flag without enqueueing |
| Pil.Uploader.SetInjectStatus | app/src/app/pil/pil.c:36-45 | clearing the flag moves the offset up to the size |
| Pil.Uploader.WorkerReceive | app/src/app/DataPath/data_path.c:134-149 | refines the worker's receive step |
| Pil.Uploader.WorkerWrite | app/src/app/DataPath/data_path.c:683-731 | refines the write step, which may fail and drop the package |
| Pil.Uploader.WorkerCallback | app/src/app/DataPath/data_path.c:729-731 | refines the callback step |
| Pil.Uploader.RdmapInterrupt | app/src/app/DataPath/data_path.c:277-289 | the map interrupt sets the status to done in any state |
| BitField.PutBit | app/src/drv/awmf_0165/awmf_0165_drv.c:428-445 | replacing a field takes the new value's bits inside it and the old word's outside |
| BitField.FieldIs | app/src/drv/awmf_0165/awmf_0165_drv.c:500-515 | a field is the word divided by two to its place, modulo two to its width |
| Awmf.PlacesDiffer | app/src/drv/awmf_0165/awmf_0165_drv.c:37-169 | no two antennas, transmit or receive, share a register and channel |
| Awmf.MapIsTable | app/src/drv/awmf_0165/awmf_0165_drv.c:37-169 | the regular layout of both antenna maps is their table, entry by entry |
| Awmf.PlaceIs | app/src/drv/awmf_0165/awmf_0165_drv.c:380-462 | which chip, register and channel an antenna's weights are in |
| Awmf.Driver.Lookup | app/src/drv/awmf_0165/awmf_0165_drv.c:173-217 | the search finds the antenna's chip and channel, and fails exactly off the 4 by 16 grid |
| Awmf.Driver.ChnSet | app/src/drv/awmf_0165/awmf_0165_drv.c:380-462 | which result for which input, row 4 and column 16 included; only success changes the one word and the cache |
| Awmf.SetWordBits | app/src/drv/awmf_0165/awmf_0165_drv.c:428-445 | every bit of the word a set leaves |
| Awmf.Driver.ChnGet | app/src/drv/awmf_0165/awmf_0165_drv.c:464-525 | the fields read from the antenna's own place, or the same refusals |
| Awmf.ReadIs | app/src/drv/awmf_0165/awmf_0165_drv.c:500-515 | what is read from a word, by division |
| Awmf.LastSetReads | app/src/drv/awmf_0165/awmf_0165_drv.c:380-525 | after any run of sets, phase and attenuation read for an antenna are the last set for it |
| Awmf.LastCommonReads | app/src/drv/awmf_0165/awmf_0165_drv.c:443-445 | the common attenuation read is the last set in the four-channel word |
| Awmf.StateReadIff | app/src/drv/awmf_0165/awmf_0165_drv.c:509 | the state reads on exactly if this channel and all higher ones of the word are enabled |
| Awmf.StateReadsLastIff | app/src/drv/awmf_0165/awmf_0165_drv.c:380-525 | after any run, the state read is the last one set exactly if that was off or all higher channels are enabled |
| Awmf.MisreadExists | app/src/drv/awmf_0165/awmf_0165_drv.c:509 | switching channel 3 off and channel 0 on makes 0 read as off, whatever the word was |
| RampRegisters.Chip.RegisterSetting | app/src/drv/lmx2492_drv/lmx2492_communication.c:167-182 | only the masked field of the one register changes |
| RampRegisters.Chip.Configure | app/src/app/Wave_Configuration/wave_parameter.c:55-86 | the setters in order, a cleared fastlock or reset request writing nothing |
| RampRegisters.AddressesAre | app/src/hal/lmx2492_hal/lmx2492_individual_ramp_config.h:48-190 | the register addresses of the eight ramps |
| RampRegisters.ConfiguredBytes | app/src/hal/lmx2492_hal/lmx2492_individual_ramp_config.c:74-317 | what every register of a configured ramp holds, by division and remainder |
| RampRegisters.Chip.ResetRamps | app/src/hal/lmx2492_hal/lmx2492_config_register.c:49-55 | registers 86 to 141 are cleared, the others kept |
| RampRegisters.Chip.SingleFrequency | app/src/app/Wave_Configuration/wave_parameter.c:149-154 | the single-frequency waveform leaves ramp 0 configured on cleared registers |
| RampRegisters.OthersUndisturbed | app/src/hal/lmx2492_hal/lmx2492_individual_ramp_config.c:33-72 | configuring a ramp leaves every other ramp's decoded fields alone, ramps 6 and 7 aside |
| RampRegisters.OwnConfiguration | app/src/hal/lmx2492_hal/lmx2492_individual_ramp_config.c:74-317 | a configured ramp decodes to its own 30-bit increment, 16-bit length, flag, trigger and next; fastlock and reset are only ever switched on |
| RampRegisters.RunDecodes | app/src/app/Wave_Configuration/wave_parameter.c:55-86 | from cleared registers any order and number of configurations leaves each ramp decoding to its own settings only |
| RampRegisters.ExpectedIsLast | app/src/app/Wave_Configuration/wave_parameter.c:55-86 | those settings are the ramp's last ones |
| RampRegisters.ExpectedIsSticky | app/src/app/Wave_Configuration/wave_parameter.c:65-78 | except that fastlock and reset are on if any of its configurations asked for them |
| RampRegisters.AliasKeepsIff | app/src/hal/lmx2492_hal/lmx2492_individual_ramp_config.c:40-56 | ramp 6 configured after ramp 7 leaves its increment exactly if the length equals the increment's low half |
| RampRegisters.AliasKeepsLengthIff | app/src/hal/lmx2492_hal/lmx2492_individual_ramp_config.c:40-56 | and the other way round |
| RampRegisters.AliasLoses | app/src/hal/lmx2492_hal/lmx2492_individual_ramp_config.c:40-56 | with length 1 and increment 0 for ramps 6 and 7 the one set up first loses its number |
| RampRegisters.IncrementSurvivesIff | app/src/app/Wave_Configuration/wave_parameter.c:103-113 | for every 32-bit magnitude, the subtraction wrapping, an increment comes back with its sign exactly if it fits 30 bits signed |
| RampRegisters.IncrementLost | app/src/app/Wave_Configuration/wave_parameter.c:103-113 | an unsigned magnitude of 2^29 is read back as -2^29 |
| CliScan.NumberOfParameters | app/src/srv/cli/FreeRTOS_CLI.c:308-342 | the 8-bit count equals the number of parameters exactly up to 127 |
| CliScan.CountWraps | app/src/srv/cli/FreeRTOS_CLI.c:308-342 | a line of 128 parameters is counted as -128 |
| CliScan.GetParameter | app/src/srv/cli/FreeRTOS_CLI.c:219-272 | a parameter is found exactly for 1 to that number, and it is the n-th maximal run of non-spaces after the first gap |
| CliScan.ParameterUnique | app/src/srv/cli/FreeRTOS_CLI.c:219-272 | there is one n-th parameter only |
| CliScan.LineParameters | app/src/srv/cli/FreeRTOS_CLI.c:238-342 | a line put together from a word and parameters has that many, and the k-th one found is the k-th put in |
| Cli.Interpreter.constructor | app/src/srv/cli/FreeRTOS_CLI.c:46-60 | help is always the first command |
| Cli.Interpreter.Register | app/src/srv/cli/FreeRTOS_CLI.c:83-135 | the command joins the end of the list; earlier commands and both cursors keep their place |
| Cli.Interpreter.Search | app/src/srv/cli/FreeRTOS_CLI.c:148-180 | the first command whose whole word starts the input, or none |
| Cli.Interpreter.HelpCommand | app/src/srv/cli/FreeRTOS_CLI.c:275-305 | one help text per call, moving the cursor, which rests again after the last |
| Cli.Interpreter.ProcessCommand | app/src/srv/cli/FreeRTOS_CLI.c:138-210 | refines one dispatch: continuation, unknown command, wrong parameter count, help, other commands |
| Cli.MatchesIff | app/src/srv/cli/FreeRTOS_CLI.c:150-180 | a line reaches a command if it starts with all its characters and a space or nothing follows |
| Cli.LineMatches | app/src/srv/cli/FreeRTOS_CLI.c:150-180 | a line made of a word and parameters reaches commands of that word only |
| Cli.DispatchIs | app/src/srv/cli/FreeRTOS_CLI.c:143-216 | a line at rest runs the first command it reaches exactly if that takes as many parameters as the line has, or any number, and is refused otherwise |
| Cli.DispatchElse | app/src/srv/cli/FreeRTOS_CLI.c:143-216 | a line that reaches no command is unknown, and a running command gets every line |
| Cli.HelpListsEachOnce | app/src/srv/cli/FreeRTOS_CLI.c:138-305 | repeated help calls give every command's text once, in order of registration, and then both cursors are at rest |
| Table2d.StrTok | app/src/common/table_2d/file_to_2d_table.c:97-114 | one call cuts off the first token of the text ahead, and the tokens after it are those ahead of the saved position |
| Table2d.TokensConserve | app/src/common/table_2d/file_to_2d_table.c:97-114 | cutting loses nothing but delimiters |
| Table2d.TokensOfSpaced | app/src/common/table_2d/file_to_2d_table.c:94-118 | tokens put together with delimiters come apart as they were |
| Table2d.SizeTable | app/src/common/table_2d/file_to_2d_table.c:76-119 | the first pass finds the number of lines and the widest line's number of cells, a given size overriding it |
| Table2d.FillLine | app/src/common/table_2d/file_to_2d_table.c:152-161 | the inner loop fills one line's stretch of the table and stays within its own line of text |
| Table2d.FillTable | app/src/common/table_2d/file_to_2d_table.c:142-165 | every cell of the table is its token's value, or 0 where the text has no such token |
| Table2d.FilledIs | app/src/common/table_2d/file_to_2d_table.c:137-163 | cell j of line i is the value of token j of line i, or 0 |
| Table2d.ReadTable | app/src/common/table_2d/file_to_2d_table.c:76-165 | the sizes are those given or found, a number of lines alone being a limit; both passes agree: without a given row size every token of the lines read has its place, and no table comes out exactly if there is nothing to hold |

## Left out

- Threshold.CalcHistogram: needs every cell's slot to lie inside the histogram, as the array bound; the source checks none and would write past it.
- Threshold.CalcThreshold: the five-row mean is in exact arithmetic, where the source's single-precision sum may come out one lower; fewer than six rows are not modelled, because the source then reads outside the rows it computed.
- Threshold.TapSum: adds exact fifths, because single-precision rounding is not modelled.
- MicroDoppler.Mark: compares listed magnitudes scaled in exact arithmetic, where single precision may round a step differently; the range factor 3 * 64 and its inverse are exact in single precision as well.
- Frame.ReportedAreDetections, Frame.DetectionsAreReported: for margins below 2^31; larger ones can wrap, as Detection.Test has it.
- Detection list fields velocity, angles and signal-to-noise values: float scalings of what the model keeps.
- Range_GOCFAR, Doppler_CACFAR and Doppler_GOCFAR: earlier versions of estimators the detector no longer calls.
- Maps of at most 2(w + g) rows: the first cell-averaging estimator then reads outside the map.
- OsCfar.OrderedStatistic: needs magnitudes of at most 65535, the sentinel of the source's minimum search. Any window is accepted, while the source's tap array has 12 slots, which a window above 6 overflows.
- Guards against null pointers in the modelled functions: references here are never null.
- IndexTable.Perform: calls are atomic; the source reads the count before taking its lock.
- sfbus_index_delete: frees the table and has no state left to describe.
- UdpFragment.Sender.SendData: a datagram the socket takes counts as arrived, whatever the network does with it afterwards; messages up to the ADC frame's 524444 bytes, for which the staging buffer is sized; the send queue in front of it is not modelled.
- Frame.Process: magnitudes of at most 65535, as the estimators' sentinels assume; thresholds and listed magnitudes in exact arithmetic; azimuth estimation after it is not modelled.
- Pil.Uploader.TransmitData: chunks carry the bytes they announce and offsets do not wrap at 32 bits; the source checks neither.
- The wave-position counter, the register writes around a PIL write, and worker threads left over after closing and reopening.
- pil_inject_adc and the map header copy: nothing calls the first, and the second only copies.
- Chip bring-up, work modes and close-all of the AWMF-0165: sequences of the modelled writes.
- The increment cycle (delay) setters, frequency limits and synthesizer dividers of the LMX2492: further masked writes of the same kind.
- get_ramp_length and the float part of get_ramp_increment: the magnitude enters as a number.
- Truncation of command output to the caller's buffer, and the mutex around registration.
- Table2d.ReadTable: needs a NUL somewhere in the buffer, which the source allocates at the file's exact size without adding one; file access and the debug dump are not modelled.
- strtol: a parameter that maps a cell's text to an integer.
- Tracking, angle estimation, link client lists, network reassembly, GPS time and the board support layers.
