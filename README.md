# HTStream Overlapper: a Dafny model

This project models the core of HTStream's Overlapper, plus the parts of the I/O layer it reads and
writes through. The Overlapper merges the two reads of a paired-end fragment when they overlap,
which happens when the insert is shorter than the two reads combined. It then counts long inserts
(`lins`), short inserts (`sins`) and pairs without an overlap (`Nolins`), and keeps a histogram of
the insert lengths.

- **Overlap search** (`Overlapper/src/overlapper.h`).
  - `KmerIndex`: the complement `rc` (in `Bases`) and the sampled k-mer index `readOneMap`.
  - `OverlapVerifier`: the candidate verifier `checkIfOverlap`, with the consensus rules for bases
    and qualities and the mismatch budget.
  - `OverlapLocator`: the two-ended probe search `getOverlappedReads`.
  - `Overlapper`: the read swap and minimum-length cut of `check_read`, and the record loop
    `helper_overlapper`.
  - `Stats`: the `OverlapperCounters` object.
- **Readers** (`Parsers`, over the `std::istream` model in `Streams`).
  - `string2fasta`.
  - The FASTQ, FASTA and tab-delimited `load_read`s, each a class over its own line buffers.
  - The single-end, paired, interleaved and tab `next()`s.
- **Writers** (`Writers`).
  - The FASTQ, interleaved, unmapped-SAM and tab serialisers.
  - The `WriterHelper` visitor, which decides what is written for a pair with a discarded read.
- **Round trips** (`Roundtrip`): the FASTQ record writer (plain and reverse-complemented), the
  paired and interleaved FASTQ writers, and the single-end (plain and reverse-complemented) and
  paired tab writers, each read back by the matching reader. The unmapped-SAM writers have no
  reader; they are checked column by column (`Writers.SamColumns`).

Each mutating object of the source is a class whose methods are proved equal to a specification
function. The listed properties are then proved about that function.

- `OverlapperCounters` has the counter map `c` and `insertLength` as fields.
- `PairedEndRead`'s two reads are swapped in place by `check_read`.
- Each reader keeps its line buffers between records, which matters at end of input.
- `WriterHelper` logs the write calls it makes.

A stream is `IStream(rest, eof, fail)`. `getline` follows the C++ library:

- On a stream that is not good, the sentry fails, failbit is set and the buffer keeps its old
  contents.
- Otherwise the line is extracted and the delimiter consumed. `peek` at the end sets eofbit.
- `peek` on a stream that is not good sets failbit. The break-skipping loop that ends each
  `load_read` peeks twice per test (`'\n'`, then `'\r'`). At end of input the first `peek` sets
  eofbit and the second sets failbit, so a record that ends the input leaves the stream with both
  bits set.

`misDensity` is a fraction `num/den`, so `maxMis` is `floor(maxLoop * num / den)`.

The k-mer index `seqLookup` is a `std::unordered_multimap`, which fixes no order for its entries.
The model is an ordered `seq<Entry>` in insertion order, which is one of the orders the container
allows. The locator lemmas hold for any order of the entries. The results that pick "the first
accepted candidate" do depend on the chosen order: `OverlapLocator.FirstHit`,
`Overlapper.CheckReadResult`, `Overlapper.CheckRead`, `Overlapper.HandlePaired` and
`Overlapper.HelperOverlapper`.

The model follows the code in the following points, where the code does something a reader might
not expect:

- `readOneMap` never indexes the last sampled k-mer window, and skips the last two when `|s| - k`
  is a multiple of the stride. The loop runs only while `off + stride + k < |s|`, and the tail
  branch only fires when the read is shorter than k. The comment above the function
  (overlapper.h:156-157) calls the table a lookup of the read's k-mers and says nothing of a window
  left out. `KmerIndex.LastWindowNotIndexed` shows an index that misses offsets 1 and 2.
- `check_read` records the swap in `swapped` but never reads it, so nothing swaps back. A pair
  whose read two is the longer and that does not merge is handed on with its reads exchanged
  (`Overlapper.PassThrough`).
- On a match, the consensus quality floor is Phred 0 (`'!'`) when both inputs are Phred 0. It is
  not Phred 1; see `OverlapVerifier.MatchQualityFloor`.
- The minimum-length cut in `check_read` uses the merged read's raw length. The later
  `checkDiscarded` uses the true length. On an untrimmed merge these coincide
  (`Overlapper.ConsensusNeverDiscarded`).
- The FASTA reader takes the first line after a header without looking at it. A header with no
  sequence therefore swallows the next header line (`Parsers.FastaEmptyRecordAbsorbsNextHeader`).
- On a paired tab line where only one read has comments, the other read comes back with the single
  comment `""` (`Roundtrip.TabPeRoundTrip`).

## Model

| member | source | states |
|---|---|---|
| `Bases.Rc` | Overlapper/src/overlapper.h:142-154 | the complement is always one of A, C, G, T, N, and it is N exactly for a character that is not A, C, G or T |
| `Bases.RcProperties` | Overlapper/src/overlapper.h:142-154 | a proper base is never its own complement |
| `Bases.RcInvolution` | Overlapper/src/overlapper.h:142-154 | complementing twice restores every base of the read alphabet |
| `Bases.ReverseComplementInvolution` | Overlapper/src/overlapper.h:142-154 | the reverse complement of the reverse complement of a base string is the string |
| `Bases.ReverseComplementAt` | Overlapper/src/overlapper.h:142-154 | position i of the reverse complement is the complement of position n-1-i |
| `KmerIndex.ReadOneMap` | Overlapper/src/overlapper.h:158-172 | the loop builds exactly the specified index; every entry's key is the k-mer at its offset, a multiple of the stride, with `off + stride + k < |s|` |
| `KmerIndex.IndexSound` | Overlapper/src/overlapper.h:162-164 | every index entry is sound (key = the k-mer at off, off sampled) |
| `KmerIndex.IndexComplete` | Overlapper/src/overlapper.h:162-164 | every sampled offset is in the index with its k-mer |
| `KmerIndex.LastWindowNotIndexed` | Overlapper/src/overlapper.h:162-169 | for "ACGTAC" with k = 4 and stride 1 only offset 0 is indexed; the windows at offsets 1 and 2, the last two sampled ones, are missing |
| `OverlapVerifier.MaxMis` | Overlapper/src/overlapper.h:184 | the mismatch budget is floor(maxLoop * misDensity) |
| `OverlapVerifier.MergeBase` | Overlapper/src/overlapper.h:209-213 | the consensus base is one of the two; on a mismatch it is read one's exactly when read one's quality is strictly higher |
| `OverlapVerifier.MergeQual` | Overlapper/src/overlapper.h:211-214 | the consensus quality of two printable Phred+33 qualities is printable |
| `OverlapVerifier.MergeQualBounds` | Overlapper/src/overlapper.h:211-214 | on a match the quality is at most 'I' and, unless capped, no lower than either input; on a mismatch it is at least '"' and, unless floored, no higher than read one's |
| `OverlapVerifier.WindowLength` | Overlapper/src/overlapper.h:180-183 | the window fits both reads and runs to the end of one of them |
| `OverlapVerifier.WalkWindow` | Overlapper/src/overlapper.h:205-223 | the loop gives up exactly when the window holds more than maxMis mismatches; otherwise it returns the consensus bases and qualities of the whole window |
| `OverlapVerifier.CheckIfOverlap` | Overlapper/src/overlapper.h:179-237 | the method returns exactly the specified overlap: none for a window not longer than minOverlap or over budget, else the merged read |
| `OverlapVerifier.AddFlanks` | Overlapper/src/overlapper.h:225-235 | prepending read one's bases before the window (when read one starts first) and appending read two's reverse-complemented tail (when read one ends first) gives exactly the merged read |
| `OverlapVerifier.OverlapAccepts` | Overlapper/src/overlapper.h:186-219 | a candidate is accepted iff its window is longer than minOverlap and holds at most maxMis mismatches against read two's reverse complement |
| `OverlapVerifier.MergedShape` | Overlapper/src/overlapper.h:225-235 | the merged read carries read one's id, is untrimmed and kept, has one quality per base, and is read one's prefix (when it starts first), then the window, then read two's reverse-complemented tail (when read one ends first) |
| `OverlapVerifier.MergedConsensusBase` | Overlapper/src/overlapper.h:205-223 | each window position of the merged bases is the MergeBase of the two aligned positions |
| `OverlapVerifier.MergedConsensusQual` | Overlapper/src/overlapper.h:205-223 | each window position of the merged qualities is the MergeQual of the two aligned positions |
| `OverlapVerifier.MergedQualsPrintable` | Overlapper/src/overlapper.h:198-235 | every quality byte of a merged read is printable Phred+33 |
| `OverlapVerifier.MatchQualityFloor` | Overlapper/src/overlapper.h:211 | two agreeing Phred 0 positions give Phred 0, below the mismatch floor |
| `OverlapVerifier.NoMismatchesMeansEqual` | Overlapper/src/overlapper.h:209-216 | no mismatch counted iff the two windows are equal |
| `OverlapVerifier.SuffixFollowsWindow` | Overlapper/src/overlapper.h:225-233 | with read one the longer, read two's tail is appended only when read two's anchor is 0, and a positive anchor means neither prefix nor tail |
| `OverlapLocator.Lookup` | Overlapper/src/overlapper.h:245 | `equal_range` returns exactly the offsets stored under the key |
| `OverlapLocator.TryProbe` | Overlapper/src/overlapper.h:245-251 | the inner loop returns the first accepted candidate of one probe position |
| `OverlapLocator.ScanProbes` | Overlapper/src/overlapper.h:242-264 | one probe loop returns the first accepted candidate over its probe positions |
| `OverlapLocator.FirstHitIsFirst` | Overlapper/src/overlapper.h:246-250 | first success wins: a hit is the result of a candidate all of whose predecessors were rejected; there is no hit iff every candidate is rejected |
| `OverlapLocator.LocateSplit` | Overlapper/src/overlapper.h:240-267 | the search result is the leading scan's hit, or else the trailing scan's |
| `OverlapLocator.GetOverlappedReads` | Overlapper/src/overlapper.h:240-267 | the method returns exactly the specified first hit over the leading, then the trailing, probes |
| `Overlapper.CheckRead` | Overlapper/src/overlapper.h:269-292 | the pair is swapped in place so that the longer read is first, and the result is the located overlap unless it is shorter than minLength |
| `Overlapper.NormalizedLongerFirst` | Overlapper/src/overlapper.h:276-279 | after the swap read one is the longer, and the pair holds the same two reads |
| `Overlapper.CheckReadOutcome` | Overlapper/src/overlapper.h:284-291 | no result iff nothing was located or the merge is shorter than minLength; a result is long enough, has the longer read's id, one quality per base, and is untrimmed and kept |
| `Overlapper.CheckDiscarded` | Overlapper/src/overlapper.h:316 | the read is flagged discarded iff it already was or its true length is below the minimum; nothing else changes |
| `Overlapper.ConsensusNeverDiscarded` | Overlapper/src/overlapper.h:287-316 | the length check on a merge that check_read returned changes nothing |
| `Overlapper.HandlePaired` | Overlapper/src/overlapper.h:310-319 | checks one pair, hands on the merge or the swapped pair, and updates the counters as the specification step does |
| `Overlapper.HelperOverlapper` | Overlapper/src/overlapper.h:304-334 | the record loop's handoffs, counters and error equal the specified run |
| `Overlapper.RunHandsOnEachRecord` | Overlapper/src/overlapper.h:306-331 | the run stops with "Unknown read type" iff some record is of unknown type; otherwise every record is handed on |
| `Overlapper.PassThrough` | Overlapper/src/overlapper.h:313-327 | a single-end record is handed on unchanged; a pair without a qualifying overlap is handed on as the two reads, longer first; otherwise the merge is handed on |
| `Stats.OverlapperCounters.constructor` | Overlapper/src/overlapper.h:32-44 | the nine overlapper keys start at 0 and the histogram has one bucket |
| `Stats.OverlapperCounters.SeStats` | Overlapper/src/overlapper.h:46-51 | SE_Length rises by the merged read's true length, R1/R2_Adapter_Trim by the originals' left trims |
| `Stats.OverlapperCounters.CountInsert` | Overlapper/src/overlapper.h:73-76 | the histogram grows to insertSize+1 buckets when shorter, then bucket insertSize rises |
| `Stats.OverlapperCounters.OutputSingle` | Overlapper/src/overlapper.h:53-59 | SE_Discard or SE_Out rises by the read's discard flag |
| `Stats.OverlapperCounters.OutputPaired` | Overlapper/src/overlapper.h:60-100 | the counters and histogram after one paired record equal the specified update |
| `Stats.AddCounts` | Overlapper/src/overlapper.h:47-49 | `c[k] += n` inserts k when absent, raises it by n and leaves every other key alone |
| `Stats.ExactlyOneClass` | Overlapper/src/overlapper.h:65-79 | exactly one of lins, sins, Nolins rises, by one; sins iff there is an overlap and either read's true length exceeds the insert size; Nolins iff there is none |
| `Stats.HistogramRecordsInsert` | Overlapper/src/overlapper.h:73-76 | on an overlap of length n bucket n rises by one (from 0 when new), other buckets keep their values, new ones are 0; without one the histogram is unchanged |
| `Stats.NoOverlapRouting` | Overlapper/src/overlapper.h:88-98 | without an overlap PE_Out rises iff both reads are kept, R1/R2_Discard by each read's flag, SE counters unchanged |
| `Stats.OverlapRouting` | Overlapper/src/overlapper.h:81-87 | with an overlap SE_Out or SE_Discard rises by the merge's flag, SE_Length and the adapter trims as in SE_stats, PE counters unchanged |
| `Stats.SingleRouting` | Overlapper/src/overlapper.h:53-59 | a single-end record raises exactly one of SE_Out / SE_Discard |
| `Parsers.String2Fasta` | common/src/ioHandler.cpp:19-37 | the loop yields, for each piece of the input split on the delimiter, a header `>prefix<i>` numbered from 1 and the piece |
| `Parsers.String2FastaCommas` | common/src/ioHandler.h:35 | called without a delimiter, the pieces are split on commas |
| `Parsers.FastaEntriesAt` | common/src/ioHandler.cpp:24-35 | entry i of the output is the header numbered i+1 and piece i |
| `Parsers.String2FastaEmpty` | common/src/ioHandler.cpp:24-35 | an empty input still yields one entry with an empty sequence |
| `Parsers.String2FastaTrailingDelimiter` | common/src/ioHandler.cpp:24-35 | a trailing delimiter yields one more, empty, entry |
| `Parsers.FastqReader.LoadRead` | common/src/ioHandler.cpp:85-115 | the result, stream and line buffers equal the specified FASTQ parse |
| `Parsers.FastqReader.NextSingle` | common/src/ioHandler.cpp:209-212 | one FASTQ record wrapped as a single-end record |
| `Parsers.FastqReader.NextPaired` | common/src/ioHandler.cpp:238-243 | one record from each stream, through the shared buffers, as a pair |
| `Parsers.FastqReader.NextInterleaved` | common/src/ioHandler.cpp:261-271 | two records from one stream; a failure on the second becomes the odd-count error |
| `Parsers.FastqParsesRecord` | common/src/ioHandler.cpp:85-115 | after blank lines, a well-formed record parses to (sequence, qualities, id without '@'), and the line breaks after it are consumed; at end of input the stream is left with eofbit and failbit set |
| `Parsers.FastqBlankInput` | common/src/ioHandler.cpp:86-90 | blank lines up to the end give "invalid id line empty" |
| `Parsers.FastqRejectsBadId` | common/src/ioHandler.cpp:91-93 | an id line not starting with '@' gives "id line did not begin with @" |
| `Parsers.FastqRejectsEmptySeq` | common/src/ioHandler.cpp:94-97 | an empty sequence line gives "invalid seq line empty" |
| `Parsers.FastqRejectsEmptySeparator` | common/src/ioHandler.cpp:98-101 | an empty separator line after a non-empty sequence gives "invalid id2 line empty" |
| `Parsers.FastqRejectsBadSeparator` | common/src/ioHandler.cpp:98-104 | a separator line not starting with '+' gives "invalid id2 line did not begin with +" |
| `Parsers.FastqRejectsQualityLength` | common/src/ioHandler.cpp:105-108 | qualities of another length than the sequence give "qual string not the same length as sequence" |
| `Parsers.FastqAtEndRepeatsLastRecord` | common/src/ioHandler.cpp:85-115 | on an exhausted stream the buffers of the previous record are parsed again |
| `Parsers.InterOddRecordIsPairedWithItself` | common/src/ioHandler.cpp:262-271 | as written, an interleaved file with one record yields that record paired with itself |
| `Parsers.InterCheckedReportsOddCount` | common/src/ioHandler.cpp:262-271 | with the intended parse a lone record gives "odd number of sequences in interleaved file" |
| `Parsers.InterCheckedPairsTwoRecords` | common/src/ioHandler.cpp:262-271 | with the intended parse two records still make the pair |
| `Parsers.FastqCheckedParsesRecord` | common/src/ioHandler.cpp:85-115 | the intended parse agrees with the parse as written on every well-formed record; at end of input the stream is left with eofbit and failbit set |
| `Parsers.FastaReader.CollectSequence` | common/src/ioHandler.cpp:126-132 | the sequence loop leaves the stream and buffers the specified collection gives |
| `Parsers.FastaReader.LoadRead` | common/src/ioHandler.cpp:117-141 | the result, stream and buffers equal the specified FASTA parse |
| `Parsers.FastaReader.NextSingle` | common/src/ioHandler.cpp:226-229 | one FASTA record wrapped as a single-end record |
| `Parsers.CollectLines` | common/src/ioHandler.cpp:127-132 | the sequence lines up to the next '>' are concatenated, the last one left in tmpSeq |
| `Parsers.FastaParsesRecord` | common/src/ioHandler.cpp:117-141 | after blank lines, a header and its sequence lines parse to (concatenation, "", id without '>') |
| `Parsers.FastaRejectsMissingSequence` | common/src/ioHandler.cpp:133-135 | a header followed only by blank lines gives "no sequence" |
| `Parsers.FastaEmptyRecordAbsorbsNextHeader` | common/src/ioHandler.cpp:127-132 | a header with no sequence takes the next header line into its sequence |
| `Parsers.TabReader.LoadRead` | common/src/ioHandler.cpp:144-207 | the result, stream and buffer equal the specified tab parse |
| `Parsers.TabReader.Next` | common/src/ioHandler.cpp:285-291 | one read becomes a single-end record, two a paired one; errors pass through |
| `Parsers.TabReadsShape` | common/src/ioHandler.cpp:150-200 | a line is accepted iff it has 3, 4, 5, 6 or 8 fields with matching sequence and quality lengths; the layout of the reads and which fields become comments split at bars |
| `Streams.SkipLineBreaks` | common/src/ioHandler.cpp:111-113 | the loop drops the line breaks at the head of the stream; at end of input the stream is left with eofbit and failbit set |
| `Streams.SkipEmptyLines` | common/src/ioHandler.cpp:86-87 | the loop reads lines until a non-empty one or a failed read |
| `Streams.JoinSplit` | common/src/ioHandler.cpp:151 | joining the pieces of a split restores the string, and no piece holds the delimiter |
| `Streams.SplitJoin` | common/src/ioHandler.cpp:166 | splitting a join of delimiter-free pieces restores the pieces |
| `Streams.NatToStringValue` | common/src/ioHandler.h:265 | a number written in decimal reads back as that number |
| `Reads.SubSeq` | hts_NTrimmer/test/hts_TestNTrimmer.cpp:142-153 | never empty: "N" when no base is left, otherwise exactly the bases between the two trims |
| `Reads.SubQual` | hts_QWindowTrim/test/hts_TestQWindowTrim.cpp:76-89 | "#" when no base is left, otherwise exactly the qualities between the two trims |
| `Reads.LengthTrue` | hts_NTrimmer/test/hts_TestNTrimmer.cpp:171-208 | at least 1: 1 when no base is left (an empty read included), otherwise the length less both trims |
| `Writers.FastqRecord` | common/src/ioHandler.h:194-196 | when no field holds a line break, the text splits into exactly the lines '@'+id, the active bases, '+', the active qualities, each ended by a line break (read back by `Roundtrip.FastqRoundTrip`) |
| `Writers.FastqRecordRc` | common/src/ioHandler.h:191-193 | when the id and the qualities hold no line break, the lines are '@'+id, the reverse complement, '+', the reversed qualities (read back by `Roundtrip.FastqRcRoundTrip`) |
| `Writers.FastqWriteRead` | common/src/ioHandler.h:187 | the four lines of the reverse-complemented record iff `rc`, otherwise of the active range |
| `Writers.PairedFastq` | common/src/ioHandler.h:208-211 | each output holds exactly the four lines of its own read (read back by `Roundtrip.PairedRoundTrip`) |
| `Writers.InterFastq` | common/src/ioHandler.h:221-224 | one output holding the four lines of read one, then the four lines of read two (read back by `Roundtrip.InterRoundTrip`) |
| `Writers.SamCommentLoop` | common/src/ioHandler.h:261-262 | the comment loop produces a tab before each comment |
| `Writers.Samout` | common/src/ioHandler.h:260-275 | an unmapped line of the read's id, flag, the fixed columns, active bases and qualities, and its comments |
| `Writers.SamoutRc` | common/src/ioHandler.h:277-292 | the same line with the whole read reverse-complemented |
| `Writers.SamPaired` | common/src/ioHandler.h:299-302 | read one with FLAG 77, then read two with FLAG 141 |
| `Writers.SamWriteRead` | common/src/ioHandler.h:234 | FLAG 4, reverse-complemented iff asked |
| `Writers.SamColumns` | common/src/ioHandler.h:256-275 | split on tabs, an unmapped line gives back its eleven columns in order, then one column per comment |
| `Writers.TabSe` | common/src/ioHandler.h:321-327 | a line ended by a line break whose tab columns are the id, the active bases, the active qualities and, when there are comments, the bar-joined comments (read back by `Roundtrip.TabSeRoundTrip`) |
| `Writers.TabSeRc` | common/src/ioHandler.h:347-353 | the same line over the reverse complement and the reversed qualities; the reverse complement never holds a tab |
| `Writers.TabWriteRead` | common/src/ioHandler.h:316 | the columns of the reverse-complemented line iff `rc`, otherwise of the active range |
| `Writers.TabPe` | common/src/ioHandler.h:329-345 | the paired tab line: six read columns, then both bar-joined comment columns when either read has comments |
| `Writers.TabSeColumns` | common/src/ioHandler.h:321-327 | split on tabs, a single-end tab line gives back id, bases, qualities and the joined comments when there are any |
| `Writers.TabPeColumns` | common/src/ioHandler.h:329-345 | split on tabs, a paired tab line gives back its six read columns and the two comment columns when either read has comments |
| `Writers.WriterHelper.constructor` | common/src/ioHandler.h:359-361 | the visitor keeps the stranded and no-orphans switches and has written nothing |
| `Writers.WriterHelper.VisitPaired` | common/src/ioHandler.h:375-389 | appends the routed writes, and the surviving orphan takes on the other read's comments in place |
| `Writers.WriterHelper.VisitSingle` | common/src/ioHandler.h:391-395 | a kept single-end read is written, a discarded one is not |
| `Writers.PairRouting` | common/src/ioHandler.h:379-387 | at most one write: the pair iff both survive; read one alone, never reverse-complemented, iff only it survives and orphans are allowed; read two alone, reverse-complemented iff stranded, iff only it survives and orphans are allowed |
| `Writers.SingleRouting` | common/src/ioHandler.h:391-395 | a single-end record is written unchanged iff it is not discarded |
| `Roundtrip.FastqRoundTrip` | common/src/ioHandler.h:194-196 | a written FASTQ record is read back as its active bases and qualities under its id, and the stream is left at the next record; at end of input the stream is left with eofbit and failbit set |
| `Roundtrip.FastqRcRoundTrip` | common/src/ioHandler.h:191-193 | a reverse-complemented record reads back as the reverse complement, and reverse-complementing that restores the read's bases (and reversing, its qualities); at end of input the stream is left with eofbit and failbit set |
| `Roundtrip.InterRoundTrip` | common/src/ioHandler.h:221-224 | an interleaved pair reads back through the interleaved `next()` as the pair; at end of input the stream is left with eofbit and failbit set |
| `Roundtrip.PairedRoundTrip` | common/src/ioHandler.h:208-211 | the two FASTQ files read back through the paired `next()` as the pair; at end of input the stream is left with eofbit and failbit set |
| `Roundtrip.TabSeRoundTrip` | common/src/ioHandler.h:321-327 | a single-end tab line reads back as the active read with its comments; at end of input the stream is left with eofbit and failbit set |
| `Roundtrip.TabSeRcRoundTrip` | common/src/ioHandler.h:347-353 | a reverse-complemented tab line reads back as the reverse complement of the whole read and its reversed qualities, under its id and with its comments (an empty read as an empty read); at end of input the stream is left with eofbit and failbit set |
| `Roundtrip.TabPeRoundTrip` | common/src/ioHandler.h:329-345 | a paired tab line reads back as the two active reads; with comment columns each gets its comments, an empty column as `[""]`; at end of input the stream is left with eofbit and failbit set |

## Left out

- The `double` arithmetic of `maxLoop * misDensity` is modelled as an exact fraction. Floating-point
  rounding is not captured.
- `OverlapVerifier.MergeQual` requires printable Phred+33 qualities (33..126). Outside that range
  the `char` arithmetic of the source wraps or is signed, and that behaviour is not modelled.
- `KmerIndex.ReadOneMap` requires `|seq1| >= kmer`.
  - When the read is shorter, the source's iterator arithmetic runs before the start of the
    string, which is undefined behaviour.
  - When `kmer <= |seq1| < kmer + kmerOffset`, the loop bound `seq1.end() - (kmerOffset + kmer)`
    also lies before `seq1.begin()`, which is undefined behaviour too. The model's signed bound is
    then negative, so the loop does not run and the index is empty.
  - `Overlapper.Applicable` likewise demands `checkLengths + kmer <= |read|`. For a shorter read
    two the source computes the probe bounds with `size_t` wrap-around (overlapper.h:242, 254).
    When also `|read| >= kmer` and `|read| >= checkLengths - 1`, the trailing loop's start wraps
    above its end, so only the leading probes run and a merge can still be returned. Otherwise a
    probe `seq2.substr(bp, kmer)` with `bp > |seq2|` (line 245) throws `std::out_of_range`, unless
    an earlier probe has already returned a merge. The model does not cover these inputs.
- `std::unordered_multimap` fixes no order for its entries; the model fixes insertion order.
  - `equal_range` is modelled in insertion order.
  - The locator lemmas are proved for an arbitrary entry sequence.
  - `OverlapLocator.FirstHit`, `Overlapper.CheckReadResult`, `Overlapper.CheckRead`,
    `Overlapper.HandlePaired` and `Overlapper.HelperOverlapper` return the first accepted candidate
    in that order. Under another order of the container they could pick another candidate.
- `Stats.OverlapperCounters`: the counters `c` and the histogram `insertLength` are `nat`. The
  source's are fixed-width (`std::vector<unsigned long long int>` at overlapper.h:30, and the
  `Counters` map), so their wrap-around at 2^64 is not modelled.
- `OverlapperCounters::write_out`, the base class `Counters` (`Common()`, `input`) and its generic
  keys are not part of this model. `check_read`'s unused `counters` parameter is dropped.
- `writer_helper`, as called by `helper_overlapper`, is not part of this model.
  - The model records each handoff: the pair, or the merged read.
  - `WriterHelper` itself is modelled separately.
- `Overlapper.CheckDiscarded` models `checkDiscarded` as described: discard iff the true length is
  below the minimum.
- read.h is not part of this model.
  - `SeqRc` and `QualRc` are assumed to reverse(-complement) the whole untrimmed read.
    `Writers.FastqRecordRc`, `Writers.SamoutRc` and `Writers.TabSeRc` depend on this.
  - A read with no base left (the two trims cover it, as for every empty read) is assumed to give
    the placeholder "N" from `get_sub_seq`, "#" from `get_sub_qual` and 1 from `getLengthTrue`, as
    the repository's tests expect (hts_NTrimmer/test/hts_TestNTrimmer.cpp:151, 182-185, 204-205;
    hts_QWindowTrim/test/hts_TestQWindowTrim.cpp:88). The writers then emit "N" and "#" for such a
    read, and `SE_Length` and the insert class count it as length 1. In the table, "active bases"
    and "active qualities" mean `SubSeq` and `SubQual`, placeholders included.
  - A read is the datatype `Read(bases, quals, id, lTrim, rTrim, discard, comments)`, and the
    accessors are written out.
  - `get_id_fastq`, `get_id_tab` and `get_id_first` are all modelled as the bare `id`. Their
    read-number suffixes and splitting are not captured.
- File handling is not modelled: opening, gzip pipes, `HtsOfstream`, `has_next` with `skip_lr`,
  and moving on to the next file. Output streams are strings; a write appends to them.
- In `WriterHelper::visit`, the names `r1` and `r2` are not declared in the shown code. They are
  modelled as the other read of the pair.
- Exceptions are `Err` results carrying the exception's message.
  - The FASTA and tab single-end/paired record wrappers build `SingleEndRead`/`PairedEndRead`
    objects; this is modelled as the `Record` datatype.
  - Any other `ReadBase` subtype is `UnknownRecord`.
- Super-Deduper and the trimmer tests from the same repository are outside this core.

## Findings

| source | as written | input that shows it | evidently intended | confidence | as-written member | corrected member |
|---|---|---|---|---|---|---|
| common/src/ioHandler.cpp:262-271 | the second `load_read` of the interleaved `next()` meets the exhausted stream. Its `getline`s fail without touching the member buffers, so the previous record is re-validated and returned again | an interleaved file holding the single record `@r\nA\n+\nI\n` | a lone final record raises "odd number of sequences in interleaved file" | not executed | `Parsers.InterOddRecordIsPairedWithItself` | `Parsers.InterCheckedReportsOddCount` |
