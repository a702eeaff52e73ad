# Verified model of the ftape driver core

ftape drives QIC-40/80/3010/3020 floppy tapes. This project models the parts of it in which the
hard arguments lie, in Dafny 4.11, and proves what they promise. `dafny verify dfyconfig.toml`
checks everything. Nothing in it is executed; all results are proofs.

The five parts, and the main results about each:

* **Segment ECC** (`GaloisField`, `GaloisTables`, `GaloisPowers`, `ReedSolomon`, `Erasures`,
  `Vandermonde`, `EccArithmetic`, `Words`, `Columns`, `ColumnDecoder`, `SegmentEcc`, `MemorySegment`).
  The field GF(2^8) modulo r^8+r^7+r^2+r+1 is defined by polynomial arithmetic, not by the driver's
  tables; the tables are then proved right. The register divides by g(x), the closed-form inverses
  are inverses and their determinants do not vanish, the code has distance four, and
  `MemorySegment.CorrectData` restores every segment that the code can restore (up to three flagged
  blocks; or one wrong byte per column beside at most one flagged block) and is sound on every input.
  `ReadPath` joins this with the transfer machine, `ImageWriter` with the Python image writer.
* **Bad-sector map** (`SectorLists`, `BadSectorMap`, `HeaderList`). Over every run of gets and puts the sorted
  list with its cursor and one-entry cache answers like a plain table from segments to maps; `HeaderLists`
  says the same of the bytes of a header segment.
* **Segment transfer and buffer ring** (`Packing`, `SegmentTransfer`, `Rings`, `RingModel`, `RingSteps`,
  `RingProgress`, `BufferRing`, `HardErrorRecovery`; `TransferExamples` and `RingExamples` hold runs that go wrong). An
  interrupt may come between any two steps of the reader, with any error cause, any count up to the
  cluster size, any DMA residue and arbitrary bytes behind the sectors that arrived. `RingSteps` is the
  drive as a machine on values: a function from statuses, segment numbers, error maps and positions and
  from one step's inputs to the next such values, which does not see the bytes. `BufferRing.Run` proves
  that the drive follows this machine in every interleaving and states what is delivered, and when it is
  right, in terms of the first state and the steps alone. `RingProgress` proves of the machine that from
  every moment of a read call some steps without errors lead to a delivery, that a wanted segment is never
  disturbed and another one is replaced, and what each kind of interrupt does.
* **LZRW3 decompressor** (`Lzrw3`, `Lzrw3Format`, `Lzrw3Table`). The loop that handles sixteen items or one
  refines an item-by-item decoder. The hash table is told from the items and the text alone, by search for
  the last phrase under a key; every description of a text by items in these terms decodes to that text,
  and whatever decodes is described by the items in the source.
* **Positions** (`TapePosition`, `TapeGeometry`). The cached position equals the prefix sum, the byte
  coordinates invert it, and a header that passes the driver's test gives every sector its own floppy
  identifier.

How the source appears here:

* C structures that are updated in place are classes (`Buffer`, `Drive`, `MemorySegment`, `BadSectorMap`,
  `Writer`, `Cartridge`, `Tape`); byte buffers worked on in place are arrays. Each method is proved
  against a specification that does not repeat it.
* A 32-bit sector map is the sequence of its bits, least significant first. Exclusive or is defined on
  numbers of any width.
* The word-wide ECC loops are proved for `long` of 4 and of 8 bytes, in little-endian order.
* The interrupt handler and the reader communicate through statuses; the reader's position in
  `ftape_read_segment` is a variable, and setting a buffer's status to waiting and moving TAIL are two
  steps. Hardware results are inputs of the steps.
* `hide` statements inside proofs only keep definitions away from the solver.

Places where the code does not do what one would expect, each with its exact condition:

* `ftape_extract_bad_sector_map` resets the cursor but not the cache. `BadSectorMaps.ExtractionCoherent`
  says exactly when the answers are right all the same; `StaleCacheExample` is a run of calls after which they are not.
* `old_segment_id` belongs to the drive, `skip` to the buffer. If the segment set up last is requested
  again although HEAD was not interrupted in it, HEAD's skip count may come from an earlier segment, and
  the first sectors are left out without any flag. `RingExamples.StaleRetryExample` is a run with two
  buffers from their allocation to such a delivery. `BufferRing.Run` shows that all deliveries before the
  first such start are right, and `BufferRing.Drive.Start` that the contents are right after a start if
  and only if the blocks that are skipped already hold the wanted segment.
* After a hard error behind which all sectors are bad, a retry issues a read of no sectors. An error
  reported for it without a DMA residue marks the last, bad sector; `Buffer.DetermineProgress` says that
  error flags stay on good sectors exactly if this does not happen, and
  `TransferExamples.EmptyClusterExample` is a transfer that gets there. The data is not affected, because
  `convert_sector_map` drops such flags.
* With `ft_ignore_ecc_err` set, `ecc_correct` returns the data of a segment that could not be corrected as
  if it were right; `ReadPath.EccCorrect` says that this is the only case in which data that is not a code
  word is returned.
* `ftape_decode_header_segment` divides by zero exactly if, in a header that is signed and of a known
  format, the maximum sector is below 32 after the corrections (`TapeGeometry.Tape.DecodeHeader`). That is so
  if it is below 32 in the header and the header is not one without any values
  (`TapeGeometry.SectorCorrected`); `TapeGeometry.DivisionByZeroExample` is such a header.
* The correction for Imation cartridges with 50 tracks repairs the header only for some lengths
  (`TapeGeometry.ImationRepaired`).
* `ftape_hard_error_recovery` reads before the start of the buffer exactly if the failing segment has no room
  for data (`HardErrorRecovery.ReadsBeforeExample`). Otherwise it conserves the data exactly if the failing
  sector was not already marked bad (`HardErrorRecovery.Writer.Recover`).
* The decompressor copies an uncompressed block whatever the limit is: it writes behind its memory exactly if
  the block is longer than that (`Lzrw3.Decompress`).
* The image writer's header is accepted by the driver exactly up to 153600 segments
  (`ImageWriter.WriteAndDecode`).

## Model

| member | source | states |
|---|---|---|
| GaloisTables.GfPow | ftape/lowlevel/ftape-ecc.c:99-134 | the table entry at i is r^i in the field, for all indexes the driver uses |
| GaloisTables.GfLog | ftape/lowlevel/ftape-ecc.c:139-173 | the entry for a non-zero element is the exponent of r that gives it |
| GaloisTables.GfMulC0 | ftape/lowlevel/ftape-ecc.c:178-212 | the entry for a is the product of a and 0xc0 |
| GaloisTables.LogExists | ftape/lowlevel/ftape-ecc.c:62-64 | every non-zero element is a power of r |
| GaloisPowers.OrderExact | ftape/lowlevel/ftape-ecc.c:62-64 | r has order exactly 255: no smaller positive power is 1 |
| GaloisPowers.ExpAdd | ftape/lowlevel/ftape-ecc.c:81-82 | exponents add, with arithmetic modulo 255 and negative exponents included |
| GaloisPowers.MulIsZero | ftape/lowlevel/ftape-ecc.c:56-62 | a product is zero only if a factor is: the ring is a field |
| GaloisField.MulAssociates | ftape/lowlevel/ftape-ecc.c:56-62 | multiplication modulo f(r) is associative |
| GaloisField.MulCommutes | ftape/lowlevel/ftape-ecc.c:56-62 | multiplication modulo f(r) is commutative |
| ReedSolomon.GeneratorRoots | ftape/lowlevel/ftape-ecc.c:66-79 | r^-1, 1 and r are roots of g(x) = x^3 + r^105 x^2 + r^105 x + 1 |
| ReedSolomon.RemainderAtRoot | ftape/lowlevel/ftape-ecc.c:535-546 | for any number of blocks, the register's p satisfies x^k p(x) = m(x) at each root of g |
| ReedSolomon.ParityDivides | ftape/lowlevel/ftape-ecc.c:448-478 | coefficient by coefficient, m(x) plus the shifted parity is a multiple of g(x), with the register's feedback as quotient |
| Erasures.SyndromesPatchAll | ftape/lowlevel/ftape-ecc.c:339-345 | changing rows of a column changes its syndromes by the sum of the rows' effects |
| Vandermonde.Det3Factors | ftape/lowlevel/ftape-ecc.c:356-366 | the determinant used for three rows factors into differences of powers of r |
| Vandermonde.Det3NotZero | ftape/lowlevel/ftape-ecc.c:363-370 | it is not zero for distinct rows less than 255 apart |
| Vandermonde.Inverse3 | ftape/lowlevel/ftape-ecc.c:373-387 | three rows of the closed form pick out the three error magnitudes |
| Vandermonde.Inverse2 | ftape/lowlevel/ftape-ecc.c:391-414 | two rows of the closed form pick out the two error magnitudes |
| Vandermonde.LocateOne | ftape/lowlevel/ftape-ecc.c:600-615 | the quotient of syndromes of a single error is the power of r of its row |
| Vandermonde.LocateSecond | ftape/lowlevel/ftape-ecc.c:616-640 | the same for one further error beside a known row |
| Vandermonde.ThreeRowsIndependent | ftape/lowlevel/ftape-ecc.c:339-345 | errors in up to three rows with zero syndromes are no errors |
| Vandermonde.DistanceFour | ftape/lowlevel/ftape-ecc.c:66-79 | two code words that agree outside three rows are equal |
| Vandermonde.ParityZero | ftape/lowlevel/ftape-ecc.c:535-546 | the register is zero if and only if all three syndromes are |
| Vandermonde.EncodedIsCodeword | ftape/lowlevel/ftape-ecc.c:706-724 | data followed by its parity has zero syndromes |
| EccArithmetic.Mod255 | ftape/lowlevel/ftape-ecc.c:215-228 | the result is congruent to the argument modulo 255, by adding or taking away 255 at most once, and is 255 itself only for 0 |
| EccArithmetic.GfMul | ftape/lowlevel/ftape-ecc.c:252-259 | computes the field product |
| EccArithmetic.GfMulExp | ftape/lowlevel/ftape-ecc.c:265-272 | computes the product with r^b |
| EccArithmetic.GfDiv | ftape/lowlevel/ftape-ecc.c:319-329 | computes the field quotient; a zero divisor gives the source's error value |
| EccArithmetic.GfInv2 | ftape/lowlevel/ftape-ecc.c:391-414 | succeeds for distinct rows and returns a matrix that solves for both magnitudes |
| EccArithmetic.GfInv3 | ftape/lowlevel/ftape-ecc.c:347-388 | succeeds for distinct rows and returns a matrix that solves for all three magnitudes |
| EccArithmetic.GfMatMul | ftape/lowlevel/ftape-ecc.c:417-433 | multiplies a matrix and the syndrome vector |
| Words.MulC0Long | ftape/lowlevel/ftape-ecc.c:481-502 | each byte lane is multiplied by 0xc0 |
| Words.GfMulExpLong | ftape/lowlevel/ftape-ecc.c:278-314 | each byte lane is multiplied by r^b |
| Words.ParityStepLong | ftape/lowlevel/ftape-ecc.c:469-507 | one word-wide register step is the byte-wise step in each lane |
| SegmentEcc.SetParity | ftape/lowlevel/ftape-ecc.c:460-514 | the word-wide register holds the parity of each column in its lane |
| SegmentEcc.ComputeSyndromes | ftape/lowlevel/ftape-ecc.c:548-578 | zero exactly if all columns of the word have zero syndromes; otherwise the words hold the columns' values at the roots of g |
| ColumnDecoder.SolveKnown | ftape/lowlevel/ftape-ecc.c:641-647 | solving for flagged rows gives exactly the differences to the code word |
| ColumnDecoder.NoErasure | ftape/lowlevel/ftape-ecc.c:600-615 | without a flagged row, a single wrong byte is located exactly |
| ColumnDecoder.OneErasure | ftape/lowlevel/ftape-ecc.c:616-640 | with one flagged row, a single further wrong byte is located exactly |
| ColumnDecoder.FindErrors | ftape/lowlevel/ftape-ecc.c:588-652 | rows and magnitudes are those of the code word that can be restored, if there is one |
| SegmentEcc.ApplyErrors | ftape/lowlevel/ftape-ecc.c:660-683 | one column is patched, changed rows are recorded, and success means zero syndromes |
| SegmentEcc.CorrectBlock | ftape/lowlevel/ftape-ecc.c:588-684 | one column is brought back to its code word whenever that is possible; on success its syndromes are zero |
| MemorySegments.MemorySegment.FindErasures | ftape/lowlevel/ftape-ecc.c:754-766 | the erasure locations are the flagged blocks; failure exactly if there are more than three |
| MemorySegments.MemorySegment.CorrectWord | ftape/lowlevel/ftape-ecc.c:788-820 | the columns of one word are corrected one lane after the other, with exact records |
| MemorySegments.GaveUpMeans | ftape/lowlevel/ftape-ecc.c:788-820 | a segment at which the correction gives up stands for no code word, and what is left is not one |
| MemorySegments.MemorySegment.CorrectData | ftape/lowlevel/ftape-ecc.c:730-845 | fails if and only if the segment is not restorable under its flags (each column right, or wrong in up to three flagged rows, or in one byte beside at most one flagged row); otherwise restores every byte, so that no other row changes when two or three are flagged; success means that all columns have zero syndromes, and `corrected` has exactly the rows that changed; failure means that the first column that cannot be restored is wrong, those before it are restored and those behind it are as they were |
| MemorySegments.MemorySegment.SetSegmentParity | ftape/lowlevel/ftape-ecc.c:706-724 | data unchanged, every column a code word, nothing behind the segment touched |
| MemorySegments.CorrectableUnique | ftape/lowlevel/ftape-ecc.c:66-79 | a column with zero syndromes is the only code word it could be restored to |
| MemorySegments.ErasuresCorrectable | ftape/lowlevel/ftape-ecc.c:706-845 | up to three flagged blocks of a valid segment may be overwritten arbitrarily and are restored |
| MemorySegments.FurtherErrorCorrectable | ftape/lowlevel/ftape-ecc.c:788-837 | at most one flagged block plus one further wrong byte per column, in rows that may differ, are restored |
| SectorLists.SectorRoundTrip | ftape/lowlevel/ftape-bsm.c:116-132 | a sector number written as three bytes is read back; which bytes, see `HeaderLists.PutChangesWord` |
| SectorLists.SectorCountRoundTrip | ftape/lowlevel/ftape-bsm.c:116-135 | three bytes read as a sector number and written again are the same bytes |
| HeaderLists.EntryIsWord | ftape/lowlevel/ftape-bsm.c:125-143 | an entry is the lower three bytes of the little-endian word where it lies in the header |
| HeaderLists.PutChangesWord | ftape/lowlevel/ftape-bsm.c:116-123 | storing a sector number changes the lower three bytes of the little-endian word there to that number, and nothing else |
| HeaderLists.GetFromHeader | ftape/lowlevel/ftape-bsm.c:456-488 | for a list in the bytes of a header: a sector is bad if and only if its number, counted from 1, or the flagged number of its segment is among the words |
| HeaderLists.PutInHeader | ftape/lowlevel/ftape-bsm.c:385-454 | the words of the new header list exactly the new bad sectors of the segment and the old ones of all others; what lies before the list is unchanged |
| SectorLists.RunCount | ftape/lowlevel/ftape-bsm.c:301-335 | the entries of one segment number as many as its bad sectors, or one if it is flagged |
| SectorLists.LookupReplaced | ftape/lowlevel/ftape-bsm.c:385-454 | replacing the entries of one segment changes the map of that segment only |
| SectorLists.WellFormedReplaced | ftape/lowlevel/ftape-bsm.c:385-454 | the list stays sorted, and in the var and big formats a fully bad segment stays one flagged entry |
| BadSectorMaps.BadSectorMap.constructor | ftape/lowlevel/ftape-bsm.c:260-290 | a fresh map has cursor and cache in agreement with the list |
| BadSectorMaps.BadSectorMap.Extract | ftape/lowlevel/ftape-bsm.c:260-290 | the cursor is reset, last reference and cached map are not |
| BadSectorMaps.BadSectorMap.ForwardSeek | ftape/lowlevel/ftape-bsm.c:301-335 | finds the whole run of a segment's entries and its map, going forwards |
| BadSectorMaps.BadSectorMap.BackwardsSeek | ftape/lowlevel/ftape-bsm.c:337-383 | finds the first entry not below the segment and its map, going backwards |
| BadSectorMaps.BadSectorMap.Get | ftape/lowlevel/ftape-bsm.c:456-488 | answers what a scan of the whole list finds and keeps cursor and cache in agreement; no bad sectors before a header was read |
| BadSectorMaps.BadSectorMap.Put | ftape/lowlevel/ftape-bsm.c:385-454 | a functional update: the new map for one segment, all others unchanged, list well-formed and terminated |
| BadSectorMaps.Replay | ftape/lowlevel/ftape-bsm.c:385-488 | over every run of gets and puts, all answers are those of a plain table |
| BadSectorMaps.ExtractionCoherent | ftape/lowlevel/ftape-bsm.c:280-282 | the first answer after an extraction is right for all segments if and only if the cached map is right and no entry is below the last reference |
| BadSectorMaps.StaleCacheExample | ftape/lowlevel/ftape-bsm.c:280-282 | a run from a new map (get, extraction of another list, get) whose last answer reports a bad sector good |
| SectorMaps.CountOnesLoop | ftape/lowlevel/ftape-bsm.c:403-403 | counts the bad sectors of a map by shifting it out |
| Packing.ConvertSectorMap | ftape/lowlevel/ftape-read.c:67-100 | each flag of a good sector moves to its packed block, flags of bad sectors are dropped, no other block is flagged |
| Packing.PackedStrict | ftape/lowlevel/ftape-rw.c:104-112 | good sectors are packed into different blocks, in order |
| Packing.SectorOfBlock | ftape/lowlevel/ftape-read.c:67-100 | every block below the number of good sectors belongs to a good sector |
| Packing.SkipMask | ftape/lowlevel/ftape-rw.c:104-112 | the shifted offset mask has as many bits as there are good sectors before the offset |
| SegmentTransfer.Buffer.SetupSegment | ftape/lowlevel/ftape-rw.c:86-159 | offset, rest of the map, packed offset and DMA address agree; error maps are cleared or kept as for a retry |
| SegmentTransfer.Buffer.SetupNewSegment | ftape/lowlevel/ftape-rw.c:164-208 | a retry starts at the skip point with an empty soft error map if it resumes this buffer's own transfer, anything else starts afresh |
| SegmentTransfer.Buffer.CalcNextCluster | ftape/lowlevel/ftape-rw.c:212-235 | skips exactly the bad sectors and finds the longest run of good ones |
| SegmentTransfer.Buffer.NextCluster | ftape/lowlevel/ftape-rw.c:212-235 | skipping keeps all position fields in agreement, and the segment is complete if nothing is left |
| SegmentTransfer.Buffer.Receive | ftape/lowlevel/fdc-io.c:968-973 | DMA writes inside the buffer, behind the blocks that are already there |
| SegmentTransfer.Buffer.SkipBadSector | ftape/lowlevel/fdc-isr.c:184-204 | all position fields move on by one sector, or only the offset at the end of the segment |
| SegmentTransfer.TransferSize | ftape/lowlevel/fdc-isr.c:318-391 | there is no answer if and only if the sectors counted and the bytes left by DMA exceed the cluster, or an error comes with a complete transfer; otherwise it is the count |
| SegmentTransfer.AcceptedArrived | ftape/lowlevel/fdc-isr.c:344-368 | an accepted count is never more than the sectors whose bytes DMA has all moved |
| SegmentTransfer.Buffer.UpdateErrorMaps | ftape/lowlevel/fdc-isr.c:206-233 | the failing sector becomes a soft error, or a hard one after the allowed retries; soft and hard errors are disjoint then |
| SegmentTransfer.Buffer.DetermineProgress | ftape/lowlevel/fdc-isr.c:463-562 | position fields stay in agreement, everything behind the position is stored or flagged, and flags stay on good sectors if and only if no error came for an empty cluster |
| SegmentTransfer.Buffer.FindResumePoint | ftape/lowlevel/fdc-isr.c:757-801 | the first soft error before the position, else the sector behind the last hard error |
| SegmentTransfer.ResumeAtIs | ftape/lowlevel/fdc-isr.c:757-801 | the resume point is unique, and a search for the first soft and the last hard error finds it |
| SegmentTransfer.Buffer.HandleResult | ftape/lowlevel/fdc-isr.c:1060-1150 | for every cause and every reported count: the failing sector is noted as a soft or hard error, a first error is passed over, another one leads back to the resume point, contradictory counts to the start; and what is before the position or the resume point is stored or flagged |
| SegmentTransfer.Buffer.Resume | ftape/lowlevel/fdc-isr.c:1117-1139 | only a second error leads back, and never behind the last sector |
| SegmentTransfer.Buffer.Begin | ftape/lowlevel/ftape-read.c:311-316 | a fresh segment always has a cluster to read; everything before it is stored or flagged |
| SegmentTransfer.Buffer.Finish | ftape/lowlevel/fdc-isr.c:661-670 | bytes is 1024 times the good sectors and block k holds the k-th good sector unless flagged; an unusable segment has no bytes |
| TransferExamples.EmptyClusterExample | ftape/lowlevel/fdc-isr.c:463-562 | a transfer from a new buffer to a read of no sectors, whose error flags a bad sector |
| RingModel.FinishedKeeps | ftape/lowlevel/fdc-isr.c:661-700 | a completed HEAD joins the run of full buffers with the next segment number |
| RingModel.ReadAheadKeeps | ftape/lowlevel/fdc-isr.c:708-733 | read-ahead takes only a waiting buffer, for the segment after the last full one |
| RingModel.GivenUpKeeps | ftape/lowlevel/fdc-isr.c:739-755 | a retry leaves the ring in order and HEAD resumable |
| RingModel.ReleasedKeeps | ftape/lowlevel/ftape-read.c:234-234 | between freeing TAIL and moving it the ring is in order, even if the handler takes the freed buffer |
| RingModel.AdvancedKeeps | ftape/lowlevel/ftape-read.c:235-235 | moving TAIL keeps the ring in order |
| RingModel.SettledKeeps | ftape/lowlevel/ftape-read.c:266-287 | an interrupted HEAD is freed and the runner becomes idle |
| RingModel.StartedKeeps | ftape/lowlevel/ftape-read.c:309-328 | when TAIL is waiting, TAIL is HEAD, nothing is full and the runner is idle |
| RingModel.UnstartedKeeps | ftape/lowlevel/ftape-read.c:317-325 | if the tape cannot be started, HEAD is set up but free, and the ring is in order |
| RingModel.TailWhole | ftape/lowlevel/ftape-read.c:186-229 | a full buffer at TAIL holds its whole segment |
| RingSteps.WantedIsRequested | ftape/lowlevel/ftape-read.c:152-189 | after every run of the machine, the segment the reader looks for is the one the last read call asked for |
| RingSteps.AnsweredRing | ftape/lowlevel/fdc-isr.c:622-755 | an interrupt leaves HEAD where it is, or HEAD is full and the next buffer is HEAD; TAIL and the reader are not touched |
| RingSteps.PlainGood | ftape/lowlevel/ftape-read.c:179-329 | whether the ring is in order does not depend on the data |
| RingProgress.WantedArrives | ftape/lowlevel/ftape-read.c:237-262 | if the wanted segment is being read, a look does not disturb it: the interrupts for its remaining clusters and three more steps lead to a look that delivers it |
| RingProgress.WrongIsReplaced | ftape/lowlevel/ftape-read.c:254-328 | if another segment is being read, four steps stop that transfer and start the wanted one |
| RingProgress.AbortsOnly | ftape/lowlevel/ftape-read.c:237-262 | a transfer is aborted if and only if the reader sees another segment being read, or waiting for the wanted one fails |
| RingProgress.AlwaysDelivers | ftape/lowlevel/ftape-read.c:179-329 | from every moment at which the reader looks for its segment, some steps without errors lead to its delivery |
| RingProgress.RetryResumes | ftape/lowlevel/ftape-read.c:266-328 | a given-up transfer is taken up again at the first good sector from its skip count on, with its hard errors and one more try |
| RingProgress.SettleStep | ftape/lowlevel/ftape-read.c:266-287 | the runner is idle after an error or the end of a track, only an error frees HEAD |
| RingProgress.StopStep | ftape/lowlevel/ftape-ctl.c:131-161 | after an abort all buffers are free, without skip or retry count |
| RingProgress.ContradictionMeans | ftape/lowlevel/fdc-isr.c:1065-1069 | counts that contradict each other start the segment again, without a flag |
| RingProgress.SuccessMeans | ftape/lowlevel/fdc-isr.c:622-660 | without an error the transfer goes on at the next good sector behind those read, or HEAD is full if there is none |
| RingProgress.ErrorMeans | ftape/lowlevel/fdc-isr.c:1060-1150 | the failing sector is flagged, softly while retries are left; a first error is passed over, an unknown one leads to the start, any other to the resume point |
| RingProgress.CompletedMeans | ftape/lowlevel/fdc-isr.c:661-734 | after a full buffer the runner stops at the end of a track, without read-ahead and if the next buffer is not free, and otherwise reads the next segment into it |
| RingProgress.TrackEnd | ftape/lowlevel/fdc-isr.c:665-665 | a segment ends a track if and only if it is the last one of some track |
| BufferRing.Drive.ReadInterrupt | ftape/lowlevel/fdc-isr.c:1009-1151 | every read interrupt makes of the ring exactly what the machine on values says, and keeps ring order, contents and (but for the empty cluster) flags, although only the sectors that DMA has moved and the controller has read need be in memory; every full buffer is untouched; it reacts to its result as above, completes unusable segments, and does nothing to an aborted command |
| BufferRing.Drive.SkipUnusable | ftape/lowlevel/fdc-isr.c:1047-1059 | an unusable segment is completed without data; full buffers are untouched |
| BufferRing.Drive.ContinueXfer | ftape/lowlevel/fdc-isr.c:622-660 | goes on in the same segment if and only if a good sector is left; full buffers are untouched |
| BufferRing.Drive.FinishSegment | ftape/lowlevel/fdc-isr.c:661-734 | HEAD moves on; the runner stops at the end of a track, without read-ahead or when all buffers are full, and otherwise reads the next segment, in a buffer that is not full |
| BufferRing.Drive.BeginNext | ftape/lowlevel/fdc-isr.c:708-733 | the buffer taken is free and is set up afresh: no skip count, no errors, and the first good sector as position |
| BufferRing.Drive.RetrySector | ftape/lowlevel/fdc-isr.c:739-755 | HEAD is marked with an error and can be resumed |
| BufferRing.Drive.Look | ftape/lowlevel/ftape-read.c:186-262 | hands out a buffer exactly if it is full with the wanted segment, with its contents and its converted error map; goes on to release it, to wait, to abort or to the runner check as the source does |
| BufferRing.Drive.Await | ftape/lowlevel/ftape-read.c:237-253 | a wait that succeeds leads to the runner check, one that fails to an abort, and a signal out of the call |
| BufferRing.Drive.Deliver | ftape/lowlevel/ftape-read.c:190-229 | the delivered blocks are the good sectors of the wanted segment, except for suspect ones |
| BufferRing.Drive.GiveBack | ftape/lowlevel/ftape-read.c:234-234 | TAIL becomes free, nothing else changes |
| BufferRing.Drive.MoveTail | ftape/lowlevel/ftape-read.c:235-235 | TAIL moves to the next buffer |
| BufferRing.Drive.Settle | ftape/lowlevel/ftape-read.c:266-287 | the runner is idle after an error or the end of a track, and an error buffer is free |
| BufferRing.Drive.Start | ftape/lowlevel/ftape-read.c:293-328 | leaves with a result, starts HEAD if TAIL is free, or loops; after a start the contents are right if and only if the blocks before the skip count hold the wanted segment, in particular unless a segment is resumed in a buffer that was not interrupted and has a skip count |
| BufferRing.Drive.StartHead | ftape/lowlevel/ftape-read.c:309-328 | HEAD is set up for the wanted segment; the runner is started on it, or the call ends because the tape cannot be |
| BufferRing.Drive.FinishAbort | ftape/lowlevel/ftape-ctl.c:131-161 | all buffers are free and HEAD and TAIL are the first one |
| BufferRing.Drive.ZapBuffers | ftape/lowlevel/ftape-buffer.c:231-245 | every buffer is waiting, with no bytes, skip or retry count |
| BufferRing.Drive.Take | ftape/lowlevel/ftape-read.c:179-329 | any step of either side keeps the invariant and does exactly what the machine on values says; interrupts leave full buffers untouched; a delivery happens exactly when the reader looks at a full buffer with the wanted segment; contents and flags are kept except at a stale start and an error for an empty cluster, told from the state before the step |
| BufferRing.Run | ftape/lowlevel/ftape-read.c:179-329 | in every interleaving the drive ends as the machine does and the ring is in order after every step; deliveries happen exactly at the looks at a full wanted buffer, each is the segment requested last, and each is what is on tape except for flagged blocks unless a stale start came before, all told from the first state and the steps alone |
| BufferRing.Drive.CanDeliver | ftape/lowlevel/ftape-read.c:179-329 | whatever the drive is doing, some steps without errors make the reader deliver its segment |
| RingExamples.StaleRetryExample | ftape/lowlevel/ftape-rw.c:181-196 | a run from new buffers to a delivery with a block that is neither flagged nor what is on tape |
| ReadPath.EccCorrect | ftape/lowlevel/ftape-read.c:102-150 | the result is 1024 bytes for each block but three, or none for a segment with no data, or -EAGAIN if and only if the segment is not restorable and such errors are not ignored; a segment written as a code word is restored completely if at most three blocks are suspect; after a failure the columns before the first one that cannot be restored are restored, and those behind it are as they were read |
| ReadPath.SizesAgree | ftape/zftape/zftape-rw.c:51-83 | the size of a segment in the position bookkeeping is the number of bytes the read path returns for it, and in a raw image the number of bytes read |
| HardErrorRecovery.Conserved | ftape/lowlevel/ftape-write.c:497-532 | moving a block from each buffer to the next loses, duplicates and reorders nothing |
| HardErrorRecovery.Writer.ReadBuffer | ftape/internal/fdc-internal.c:586-598 | the two memory areas change places |
| HardErrorRecovery.Writer.CopyAndGenEcc | ftape/internal/fdc-internal.c:531-584 | the areas change places, the payload stays, and the buffer is a code word if it has room for data |
| HardErrorRecovery.Writer.ShrinkHead | ftape/lowlevel/ftape-write.c:495-505 | the payload of a failing segment with room for data loses its last block to scratch |
| HardErrorRecovery.Writer.ShiftBuffer | ftape/lowlevel/ftape-write.c:509-532 | payload and scratch together stay the same bytes in the same order; an empty segment only exchanges its memory |
| HardErrorRecovery.Writer.MoveOn | ftape/lowlevel/ftape-write.c:507-532 | exactly the waiting buffers behind HEAD are rewritten, as code words, without aliasing |
| HardErrorRecovery.Writer.Recover | ftape/lowlevel/ftape-write.c:465-538 | refused unless there is exactly one hard error; a read before the buffer exactly if the segment has no room for data; otherwise exactly the waiting run is rewritten as code words of the right number of bytes, and new payloads plus scratch equal the old payloads if and only if the failing sector was a good one, unless another waiting buffer has the same segment number; HEAD will not be set up as a retry |
| HardErrorRecovery.ReadsBeforeExample | ftape/lowlevel/ftape-write.c:490-505 | a drive for which the saved block begins 1024 bytes before the buffer |
| Lzrw3.ItemSound | ftape/compressor/lzrw3.c:425-481 | every table entry is the start string or at least three bytes behind the output, and at most two literals are pending |
| Lzrw3.CopyBytes | ftape/compressor/lzrw3.c:444-449 | a copy reads only bytes already written, including those it writes itself |
| Lzrw3.DoLiteral | ftape/compressor/lzrw3.c:470-481 | a literal is appended and the oldest of three literals is hashed |
| Lzrw3.DoCopy | ftape/compressor/lzrw3.c:429-469 | a copy is appended, pending literals are hashed, the entry is replaced |
| Lzrw3.Decompress | ftape/compressor/lzrw3.c:381-498 | on every compressed stream the nested loops terminate, agree with item-by-item decoding, and write at most 18 bytes beyond the limit; an uncompressed block is copied, and goes behind the memory exactly if it is longer |
| Lzrw3Format.CopyMatches | ftape/compressor/lzrw3.c:230-244 | a matching copy appends the next bytes of the text, even if it overlaps itself |
| Lzrw3Table.RoundTrip | ftape/compressor/lzrw3.c:207-247 | for every text and every description of it by items, copies being found by search over the items before, decoding the serialised groups gives the text |
| Lzrw3Format.LegalRoundTrip | ftape/compressor/lzrw3.c:207-247 | the same for items that are legal at the table |
| Lzrw3Table.BuiltNext | ftape/compressor/lzrw3.c:425-481 | after every item, table entry h is the start of the last phrase under h with three bytes in the text: a copy under its index, a literal under the hash at its place |
| Lzrw3Table.LastEnteredIs | ftape/compressor/lzrw3.c:207-247 | the search finds the last such phrase, or the start string if there is none |
| Lzrw3Table.DecodedDescription | ftape/compressor/lzrw3.c:403-498 | if decoding succeeds, the source is exactly a sequence of items that describe the text |
| Lzrw3Table.DescriptionUnique | ftape/compressor/lzrw3.c:230-244 | items describe at most one text |
| Lzrw3Table.Uncompress | ftape/compressor/lzrw3.c:117-133 | what comes out is described by the items in the source, and what they describe comes out |
| Lzrw3Table.CopiesExample | ftape/compressor/lzrw3.c:425-469 | a block of two copies, its bytes and its text |
| Lzrw3Table.LiteralsExample | ftape/compressor/lzrw3.c:470-481 | a block whose copy refers to the hash of three literals |
| Lzrw3Table.HashExamples | ftape/compressor/lzrw3.c:312-313 | what each byte contributes to the hash |
| Lzrw3Format.DecodedItems | ftape/compressor/lzrw3.c:403-498 | if decoding succeeds, the source up to its end is exactly a sequence of items that produce the text |
| TapePosition.Cartridge.SegmentSize | ftape/zftape/zftape-rw.c:51-83 | data bytes of a segment, with the parity blocks for a raw image |
| TapePosition.UserSizeMeans | ftape/zftape/zftape-rw.c:51-83 | that is 1024 bytes for each good sector, less the parity blocks unless the image is raw, and nothing for three good sectors or fewer |
| TapePosition.Cartridge.GetCapacity | ftape/zftape/zftape-rw.c:224-233 | the sum of all segment sizes, and a cache at the end |
| TapePosition.Cartridge.ReadHeaders | ftape/zftape/zftape-read.c:75-77 | after the headers are read the cache is right |
| TapePosition.Cartridge.UpdateRawImage | ftape/zftape/zftape-rw.c:107-131 | once headers are read, the cache is right under the new view |
| TapePosition.Cartridge.Approach | ftape/zftape/zftape-rw.c:247-263 | the walk starts at most max(10, least distance to the cached position and both ends) away |
| TapePosition.Cartridge.CalcTapePos | ftape/zftape/zftape-rw.c:235-276 | the sum of the sizes of all segments before, in at most that many steps |
| TapePosition.Replay | ftape/zftape/zftape-rw.c:107-276 | over every sequence of queries and changes of view, answers depend on the maps alone |
| TapePosition.Cartridge.CalcSegByteCoord | ftape/zftape/zftape-rw.c:177-207 | start of the segment plus offset is the position or the capacity; at a boundary the first segment that starts there |
| TapePosition.CoordinatesUnique | ftape/zftape/zftape-rw.c:160-207 | these coordinates are unique |
| TapePosition.StartLeadsBack | ftape/zftape/zftape-rw.c:210-213 | the start of a segment leads back to it if and only if it is the first or its predecessor is not empty |
| TapeGeometry.Tape.DecodeHeader | ftape/lowlevel/ftape-read.c:418-721 | each outcome with its exact condition; success gives whole cylinders per head and addresses that fit |
| TapeGeometry.SectorCorrected | ftape/lowlevel/ftape-read.c:547-648 | the maximum sector is below 32 after the corrections if and only if it is before and the header is not empty |
| TapeGeometry.DivisionByZeroExample | ftape/lowlevel/ftape-read.c:668-690 | a signed header of a known format for which the driver divides by zero |
| TapeGeometry.Tape.Correct | ftape/lowlevel/ftape-read.c:547-648 | the corrections for known software, in order |
| TapeGeometry.KnownBugsRepaired | ftape/lowlevel/ftape-read.c:547-648 | the headers with known wrong fields pass the test after their correction |
| TapeGeometry.ImationRepaired | ftape/lowlevel/ftape-read.c:623-634 | with 50 tracks, side 54 and track 255 the corrected header passes if and only if the tape has more than 53 * 1020 and at most 55 * 1020 segments |
| TapeGeometry.ConsistentMeans | ftape/lowlevel/ftape-read.c:668-690 | a header that passes has segments per head = cylinders times segments per cylinder, and a last side that fits a byte |
| TapeGeometry.IdFits | ftape/lowlevel/ftape-rw.c:100-102 | head, cylinder and sector of every segment fit a byte |
| TapeGeometry.IdRoundTrip | ftape/lowlevel/ftape-rw.c:312-319 | reading an identifier gives back the very segment and sector |
| TapeGeometry.IdsDistinct | ftape/lowlevel/ftape-rw.c:100-102 | no two sectors share an identifier |
| TapeGeometry.IdSuccessor | ftape/lowlevel/ftape-rw.c:100-102 | the identifiers run along the tape: sectors of a cylinder, then the next cylinder, then the next head |
| TapeGeometry.FillFormatBuffer | ftape/lowlevel/ftape-format.c:54-77 | the formatter writes the same identifiers |
| ImageWriter.EccTable | blanktapes/mkqictape.py:115-130 | the generated table is multiplication by r^105 |
| ImageWriter.EccParityForColumn | blanktapes/mkqictape.py:133-147 | the byte-wise recurrence is the driver's register |
| ImageWriter.BuildSegment | blanktapes/mkqictape.py:150-162 | the segment has the data and, column by column, the driver's parity; other lengths are refused |
| ImageWriter.DriverEncodingUnique | blanktapes/mkqictape.py:150-162 | only one segment satisfies this |
| ImageWriter.SameAsDriver | blanktapes/mkqictape.py:150-162 | the writer and the driver produce the same 32 blocks |
| ImageWriter.HeaderSegment | blanktapes/mkqictape.py:174-230 | succeeds exactly if all values fit their fields, and then states the geometry and data area |
| ImageWriter.WriterAccepted | blanktapes/mkqictape.py:212-216 | the driver's test passes if and only if there are at most 153600 segments |
| ImageWriter.WriteAndDecode | ftape/lowlevel/ftape-read.c:427-710 | the driver decodes the writer's header to the same tracks, segments per track and first and last segment, exactly up to 153600 segments |

## Left out

- Controller registers, DMA programming, wait queues and QIC-117 commands (`fdc-io.c`, `ftape-io.c`): hardware and timing; their results are inputs.
- Tape motion, seeking and time-outs (`ftape_start_tape`, `seek_forward` and others): physical behaviour of drives.
- Parallel-port and plug-and-play code: port access without deep properties.
- The write runner, formatting and verifying state machines: close copies of the read ring; only the recovery from hard write errors is modelled.
- SegmentTransfer.Buffer.HandleResult: the branch for segments with deleted data is not modelled.
- BufferRing.Drive.ReadInterrupt: nor is it here; without a DMA residue the controller's count is not larger than the cluster.
- BufferRing.Drive.Look: whether the correction succeeds and whether the call is given up after too many failures are inputs of the step; a deleted segment is not looked for.
- Failing command setup (`fdc_setup_read_write` returning an error): assumed not to happen.
- SegmentTransfer.Buffer.DetermineProgress: counters and addresses are taken as 32 bits wide and a shift count as wrapping at 32, as on the i386; elsewhere the case of an empty cluster would differ.
- SegmentTransfer.Buffer.SetupNewSegment: the short-start hint for the tape motion and the skipping of sectors under `ft_ignore_ecc_err` are not modelled.
- SegmentTransfer.Buffer.SetupSegment: head, cylinder, sector and the mark for deleted data are not fields of the buffer here; the first three are treated in `TapeGeometry`.
- BufferRing.Drive.GiveBack: the exchange of the delivered buffer's memory happens in this step, not already at delivery, which only the reader could notice.
- The fixed-size bad-sector format, which is a plain array access, and `fix_tape`.
- BadSectorMaps.BadSectorMap.Put: requires room in the list and sector numbers of 23 bits, which the source does not check; without room it writes behind its memory.
- HardErrorRecovery.Writer.Recover: the bad-sector table is a function here, its list form is the matter of `BadSectorMaps`; what follows a read before the buffer is not modelled.
- HardErrorRecovery.Writer.ShrinkHead: requires room for data; `Recover` says what happens without.
- Decryption of the bad-sector map of Ditto 2GB cartridges: it does not touch the bytes that are decoded here.
- Tape length and time-out calculation in `ftape_decode_header_segment`.
- The LZRW3 compressor: not part of the repository; any legal choice of items is covered.
- Big-endian machines: word lanes are little-endian.
- ImageWriter.HeaderSegment: the time stamp is a parameter; choosing a cartridge by name and writing the file are not modelled.
- Volume tables, compressed-volume seeking, `zftape` control code, tracing and statistics: no deep properties.
