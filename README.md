# Barcode demultiplexer, modelled in Dafny

This project models `scripts/unmaintained/barcodeDemulti.py`, a paired-end
FASTQ demultiplexer. It reads four FASTQ streams in lock step: read 1, read 2,
index read 1 (I1) and index read 2 (I2). Each read quadruple goes to the first
sample of a sample sheet whose four sequences all match: the two index reads
against the sample's I1 and I2 indices, and the starts of read 1 and read 2
against its inline barcodes BC1 and BC2. The inline barcodes are then clipped
off both reads. Quadruples that no sample accepts are counted as undetermined.
At the end the script reports how many reads each sample received.

The repository's VCF-to-Eigenstrat conversion is not part of this model. Only
the demultiplexer script is modelled.

Modules, one file each:

- `wrappers.dfy` (`Wrappers`): `Option` and `Result`.
- `text.dfy` (`Text`): the Python string operations the script relies on:
  `str.isspace`, `strip()`, `split()`, slicing that clips at the end of the
  string, and `str.replace`.
- `fastq.dfy` (`Fastq`): the four-line FASTQ record. It covers the reader
  (`FastQIterator.__next__`), the `FastqEntry` object whose fields are
  reassigned in place, and the lines `writeFastQ` emits.
- `barcode.dfy` (`Barcode`): `Index`. It holds the mismatch count, the match
  rule and the hit table, which `recordHit` updates in place.
- `quadruple.dfy` (`Quadruple`): `QuadrupelIndex`. It is a class owning four
  `Index` objects, and its `Match` records a hit in all four tables or in none.
- `sheet.dfy` (`Sheet`): sample-sheet row parsing and validation, the
  dictionary the reading loop builds, and output file-name templating.
- `demultiplexer.dfy` (`Demultiplexer`): `SampleSheet`. This class holds its
  `QuadrupelIndex` objects, the output sinks and the `undetermined` counter.
  Its `Process` does first-match dispatch, in-place clipping and counting;
  its `ReportStats` adds up the totals.

The central invariant is `SampleSheet.Valid()`. It says:
- every sample's four hit tables have equal totals;
- every key of a table is a clipped query that its index accepts;
- the I1 totals summed over samples, plus `undetermined`, equal the number of
  `Process` calls. The model keeps that number in a ghost counter, `processed`.

## Model

| member | source | states |
|---|---|---|
| `Fastq.FastqEntry.constructor` | scripts/unmaintained/barcodeDemulti.py:11-15 | The entry's name, sequence and quality are lines one, two and four; the `+` line is dropped. |
| `Fastq.MakeRecord` | scripts/unmaintained/barcodeDemulti.py:25-28 | It takes the first, second and fourth lines read. There is a record iff the stripped first line is non-empty, and the record's name is then non-empty with no surrounding whitespace. |
| `Fastq.NextRecord` | scripts/unmaintained/barcodeDemulti.py:24-28 | Iteration stops iff the stripped line at the position is empty, so it always stops past the end of the file. |
| `Fastq.FastqReader.Next` | scripts/unmaintained/barcodeDemulti.py:24-28 | `__next__` always consumes four lines. It yields a fresh entry holding exactly the record at the old position, or stops iff that record does not exist. |
| `Fastq.RecordLines` | scripts/unmaintained/barcodeDemulti.py:126 | A read is written as four lines, the third being `+`. |
| `Fastq.ReadWritten` | scripts/unmaintained/barcodeDemulti.py:124-127 | Reading back a file written record by record yields exactly the records written, provided every name is non-empty and no field has surrounding whitespace or contains a line feed or carriage return (universal newlines split lines at either). |
| `Text.StripLine` | scripts/unmaintained/barcodeDemulti.py:25 | `strip()` of a trimmed string followed by its line terminator gives the string back. |
| `Text.Strip` | scripts/unmaintained/barcodeDemulti.py:25 | `strip()` returns a slice of its argument with no whitespace at either end, and everything cut off before and after that slice is whitespace. |
| `Text.Take` | scripts/unmaintained/barcodeDemulti.py:46 | `s[:n]` is the prefix of `s` of length `min(len(s), n)`. |
| `Text.TakeDrop` | scripts/unmaintained/barcodeDemulti.py:113-116 | `s[:n] + s[n:] == s`: clipping removes exactly the first `n` characters. |
| `Barcode.MismatchCountIsPositions` | scripts/unmaintained/barcodeDemulti.py:42 | The `zip` summation equals the number of positions below `min(len(query), len(index))` where the index base is not `N` and the bases differ. |
| `Barcode.Matches` | scripts/unmaintained/barcodeDemulti.py:39-43 | An index `-` matches every query. Any other index matches iff the number of mismatch positions is at most `mismatches`. |
| `Barcode.ExactMatch` | scripts/unmaintained/barcodeDemulti.py:42-43 | A query equal to the index matches whenever `mismatches >= 0`. |
| `Barcode.WildcardMatch` | scripts/unmaintained/barcodeDemulti.py:42-43 | An index made only of `N` matches every query when `mismatches >= 0`. |
| `Barcode.MatchMonotone` | scripts/unmaintained/barcodeDemulti.py:43 | Allowing more mismatches never turns a match into a non-match. |
| `Barcode.MatchSeesOnlyClip` | scripts/unmaintained/barcodeDemulti.py:42-46 | The query clipped to the index length matches iff the whole query does. |
| `Barcode.AddHit` | scripts/unmaintained/barcodeDemulti.py:47-49 | The key gains exactly one hit, entering at 1 if absent. Every other key keeps its count, and no other key appears. |
| `Barcode.AddHitTotal` | scripts/unmaintained/barcodeDemulti.py:47-49 | One recorded hit raises the sum of the table's values by exactly one. |
| `Barcode.SumHits` | scripts/unmaintained/barcodeDemulti.py:134 | The loop computes `sum(hits.values())`, whatever order the keys are visited in. |
| `Barcode.Index.constructor` | scripts/unmaintained/barcodeDemulti.py:34-37 | A new index keeps its sequence and mismatch limit and has an empty hit table. |
| `Barcode.Index.RecordHit` | scripts/unmaintained/barcodeDemulti.py:45-49 | The hit table becomes `AddHit` of the old table at the query clipped to the index length. |
| `Quadruple.QuadMatches` | scripts/unmaintained/barcodeDemulti.py:67 | A sample whose four sequences are all `-` accepts every read quadruple. |
| `Quadruple.ExactQuadMatches` | scripts/unmaintained/barcodeDemulti.py:67 | With a non-negative mismatch limit, a quadruple carrying the sample's own four sequences is accepted. |
| `Quadruple.RecordQuad` | scripts/unmaintained/barcodeDemulti.py:68-71 | After a match, each of the four tables has exactly its old keys plus its read clipped to the index length. |
| `Quadruple.RecordQuadTotals` | scripts/unmaintained/barcodeDemulti.py:67-71 | Recording a matched quadruple adds exactly one hit to each of the four tables. |
| `Quadruple.NoHitsAgree` | scripts/unmaintained/barcodeDemulti.py:60-64 | Four empty tables satisfy the per-sample invariant. |
| `Quadruple.RecordQuadAgrees` | scripts/unmaintained/barcodeDemulti.py:66-74 | Recording a matched quadruple keeps the totals equal, and every key stays a clipped query that its index accepts. |
| `Quadruple.QuadrupelIndex.constructor` | scripts/unmaintained/barcodeDemulti.py:60-64 | Four fresh, distinct `Index` objects share one mismatch limit, all of them have empty tables, and the per-sample invariant holds. |
| `Quadruple.QuadrupelIndex.Match` | scripts/unmaintained/barcodeDemulti.py:66-74 | The result is true iff I1, I2, BC1 and BC2 match `i1`, `i2`, `r1` and `r2`. On true, all four tables record the hit; on false, none changes. |
| `Sheet.ParseRow` | scripts/unmaintained/barcodeDemulti.py:85-87 | A row is accepted iff `split()` yields exactly five fields and every letter of the four sequences is in `ACTGN-`. It fails with the field count or with an illegal letter otherwise. |
| `Sheet.ParseSheetLine` | scripts/unmaintained/barcodeDemulti.py:85-87 | A tab-separated line written for a row with legal, non-empty sequences parses back to that row. |
| `Text.Words` | scripts/unmaintained/barcodeDemulti.py:85 | Every field `split()` returns is non-empty and holds no whitespace. |
| `Text.WordsOfWord` | scripts/unmaintained/barcodeDemulti.py:85 | A non-empty string without whitespace splits into just itself. |
| `Text.WordsAtSpace` | scripts/unmaintained/barcodeDemulti.py:85 | Splitting at any whitespace character gives the fields before it followed by the fields after it. |
| `Sheet.ParseRows` | scripts/unmaintained/barcodeDemulti.py:84-87 | If every line parses, there is one row per line. Otherwise reading stops at the first bad line, reporting its index and error, and every earlier line parsed. |
| `Sheet.KeysMembers` | scripts/unmaintained/barcodeDemulti.py:88 | The dictionary's keys are exactly the names assigned. |
| `Sheet.KeysOfDistinct` | scripts/unmaintained/barcodeDemulti.py:88-89 | With no repeated name, the keys in insertion order are `nameOrder`. |
| `Sheet.TableKeys` | scripts/unmaintained/barcodeDemulti.py:88 | The `samples` dictionary has exactly the sheet's names as keys. |
| `Sheet.TableLastWins` | scripts/unmaintained/barcodeDemulti.py:88 | For a name that no later row repeats, `samples[name]` holds that row's barcodes. |
| `Text.ReplaceAll` | scripts/unmaintained/barcodeDemulti.py:92-93 | A string without the pattern's first character is unchanged; replacing a pattern by itself changes nothing; a replacement of the pattern's length keeps the length. |
| `Text.ReplaceAbsent` | scripts/unmaintained/barcodeDemulti.py:92-93 | `replace` leaves a string with no occurrence of the pattern unchanged. |
| `Text.ReplaceFirst` | scripts/unmaintained/barcodeDemulti.py:92-93 | When the first occurrence of the pattern follows `a`, `replace` copies `a`, writes the replacement, and carries on after the occurrence. |
| `Text.ReplaceKeep` | scripts/unmaintained/barcodeDemulti.py:92-93 | Where the pattern does not start at the first character, `replace` keeps that character and carries on with the rest. |
| `Sheet.OutputName` | scripts/unmaintained/barcodeDemulti.py:92-93 | A template without `%` names the same file for every sample and read. |
| `Sheet.NamePass` | scripts/unmaintained/barcodeDemulti.py:92 | The first `replace` substitutes the name for `%name%` and leaves `%r%` in place, when `a`, `b` and `c` hold no `%`. |
| `Sheet.ReadPass` | scripts/unmaintained/barcodeDemulti.py:92-93 | The second `replace` substitutes the read number for `%r%` when the text around it holds no `%`. |
| `Sheet.OutputNameOf` | scripts/unmaintained/barcodeDemulti.py:92-93 | For a template `a%name%b%r%c` where `a`, `b`, `c` and the sample name contain no `%`, the output name is `a`, the sample name, `b`, the read number, then `c`. |
| `Sheet.ReadMarkKept` | scripts/unmaintained/barcodeDemulti.py:92 | The first `replace` leaves `%r%` in place unless the text right after it starts `name%`. |
| `Sheet.NamePassAll` | scripts/unmaintained/barcodeDemulti.py:92 | For a template built from `%`-free literals, `%name%` and `%r%` pieces, where no `%r%` is followed by `name%`, the first `replace` substitutes the name for every `%name%` piece and keeps every `%r%` piece. |
| `Sheet.ReadPassAll` | scripts/unmaintained/barcodeDemulti.py:93 | On such a template, with a `%`-free sample name, the second `replace` then substitutes the read number for every `%r%` piece. |
| `Sheet.OutputNameFilled` | scripts/unmaintained/barcodeDemulti.py:92-93 | The output name of such a template is the template with every `%name%` piece filled by the sample name and every `%r%` piece by the read number, however many of each there are. |
| `Sheet.ReadMarkSwallowed` | scripts/unmaintained/barcodeDemulti.py:92-93 | The restriction is needed: in the template `%r%name%name%` the first `replace` takes `%name%` starting inside `%r%`, so the name is filled in the wrong place and no read number is inserted (`%rsname%`, not `1names`). |
| `Sheet.AsWrittenTotalOvercounts` | scripts/unmaintained/barcodeDemulti.py:131-134 | With two rows named `s` and one read for `s`, summing over `nameOrder` reports 2 where the dictionary holds 1. |
| `Sheet.ReportedTotal` | scripts/unmaintained/barcodeDemulti.py:131-134 | A listed name's count is part of the total, and the total is 0 when no listed name has a count. |
| `Sheet.ReportedTotalUnlisted` | scripts/unmaintained/barcodeDemulti.py:131-134 | A count stored under a name the order does not list does not change the total. |
| `Sheet.ReportedTotalDistinct` | scripts/unmaintained/barcodeDemulti.py:131-134 | Without repeated names, summing over `nameOrder` equals summing over the dictionary's keys. |
| `Sheet.ReportedTotalAsWritten` | scripts/unmaintained/barcodeDemulti.py:131-134 | Summing over `nameOrder` gives the sum over the dictionary keys plus, once more, the count of every row that repeats an earlier name. |
| `Sheet.RepeatListed` | scripts/unmaintained/barcodeDemulti.py:88-89 | A row that repeats an earlier name is among those repeats. |
| `Sheet.RepeatedNameCountedTwice` | scripts/unmaintained/barcodeDemulti.py:131-134 | So a name on two rows makes the total exceed the sum over the keys by at least that name's count. |
| `Demultiplexer.FirstMatch` | scripts/unmaintained/barcodeDemulti.py:108-109 | The result is the least index whose quadruple matches: it matches and no earlier one does. It is `None` iff no sample matches. |
| `Demultiplexer.FirstMatchAt` | scripts/unmaintained/barcodeDemulti.py:108-118 | A sample that matches after all earlier samples failed is the first match. |
| `Demultiplexer.Append` | scripts/unmaintained/barcodeDemulti.py:124-127 | Writing a pair extends only that name's two files, keeping what they held; what is added is exactly the four lines of each read. |
| `Fastq.FileOfSnoc` | scripts/unmaintained/barcodeDemulti.py:124-127 | Writing one more record to a file appends exactly that record's four lines. |
| `Demultiplexer.AppendWritesRecords` | scripts/unmaintained/barcodeDemulti.py:124-127 | A sink holding the files of the records written so far holds, after `writeFastQ`, the files of those records followed by the new pair. |
| `Demultiplexer.AppendReadsBack` | scripts/unmaintained/barcodeDemulti.py:124-127 | With clean records, each file of the sink then reads back as exactly the records written to it, the new one last. |
| `Demultiplexer.ClipLength` | scripts/unmaintained/barcodeDemulti.py:111-112 | The clip is 0 for `-` and the barcode length otherwise. |
| `Demultiplexer.ClipRead` | scripts/unmaintained/barcodeDemulti.py:113-116 | The name is unchanged. Sequence and quality each lose exactly their first `n` characters. Equal lengths stay equal. |
| `Demultiplexer.Dispatch` | scripts/unmaintained/barcodeDemulti.py:107-118 | Every sample other than the first match keeps its tables. |
| `Demultiplexer.DispatchCounts` | scripts/unmaintained/barcodeDemulti.py:107-120 | A matched quadruple raises the demultiplexed total by exactly one, and an unmatched one leaves it unchanged. So at most one sample counts each read. |
| `Demultiplexer.DispatchAgrees` | scripts/unmaintained/barcodeDemulti.py:107-118 | Dispatch keeps every sample's table invariant. |
| `Demultiplexer.OutputPaths` | scripts/unmaintained/barcodeDemulti.py:90-93 | There is one pair of file names per sample name, plus `Undetermined` on request, and no others. |
| `Demultiplexer.EmptySinks` | scripts/unmaintained/barcodeDemulti.py:96-100 | Every output name has two empty files to begin with. |
| `Demultiplexer.ReportedTotalIsDemultiplexed` | scripts/unmaintained/barcodeDemulti.py:131-134 | Over distinct names, summing each name's I1 total gives the demultiplexed count. |
| `Demultiplexer.NameCountsAt` | scripts/unmaintained/barcodeDemulti.py:131-133 | With distinct names, looking up a name gives its own sample's I1 total. |
| `Demultiplexer.NoHitsDemultiplexed` | scripts/unmaintained/barcodeDemulti.py:78-83 | Samples with no hits account for no demultiplexed read. |
| `Demultiplexer.Clip` | scripts/unmaintained/barcodeDemulti.py:113-116 | The entry is clipped in place to `ClipRead` of its old value. |
| `Demultiplexer.AddSample` | scripts/unmaintained/barcodeDemulti.py:88 | Each row makes a fresh `QuadrupelIndex`. It replaces the object stored under a repeated name in place, or is appended under a new name. The objects stay disjoint and without hits. |
| `Demultiplexer.NewSamples` | scripts/unmaintained/barcodeDemulti.py:84-89 | The keys are the distinct names in first-insertion order, each holding its last row's barcodes. `nameOrder` lists every row's name, and all sample objects are fresh, disjoint and without hits. |
| `Demultiplexer.SampleSheet.constructor` | scripts/unmaintained/barcodeDemulti.py:77-100 | The sheet starts valid, with the samples of `NewSamples`, the templated output paths, empty sinks and `undetermined == 0`. |
| `Demultiplexer.SampleSheet.StartValid` | scripts/unmaintained/barcodeDemulti.py:83 | Samples without hits and a zero counter satisfy the sheet invariant. |
| `Demultiplexer.SampleSheet.WriteFastq` | scripts/unmaintained/barcodeDemulti.py:124-127 | The two reads' four lines are appended to the name's two files. |
| `Demultiplexer.SampleSheet.Process` | scripts/unmaintained/barcodeDemulti.py:107-122 | The pair goes to `FirstMatch` and the tables become `Dispatch` of the old ones. On a match, both reads are clipped by their barcode lengths and written to that sample. Otherwise the reads are unchanged, `undetermined` grows by one and they are written to `Undetermined` on request. The invariant is kept. |
| `Demultiplexer.SampleSheet.Deliver` | scripts/unmaintained/barcodeDemulti.py:110-122 | On a match the reads are clipped and written. Otherwise `undetermined` grows by exactly one and the reads are unchanged. |
| `Demultiplexer.SampleSheet.FindSample` | scripts/unmaintained/barcodeDemulti.py:108-118 | The loop stops at `FirstMatch`. Only that sample's tables record the quadruple, and later samples are not tried. |
| `Demultiplexer.SampleSheet.MatchSample` | scripts/unmaintained/barcodeDemulti.py:109 | `qIndex.match` on one sample changes no other sample's tables. |
| `Demultiplexer.SampleSheet.SumDemultiplexed` | scripts/unmaintained/barcodeDemulti.py:130-134 | The loop sums the I1 hit totals over all samples. |
| `Demultiplexer.SampleSheet.ReportedTotalMatches` | scripts/unmaintained/barcodeDemulti.py:129-134 | When no two rows share a name, `reportStats`' sum over `nameOrder` equals the demultiplexed count, which is the reads processed minus the undetermined ones. |
| `Demultiplexer.SampleSheet.ReportedTotalOfSheet` | scripts/unmaintained/barcodeDemulti.py:129-134 | For any valid sheet, `reportStats`' sum over `nameOrder` is the reads processed minus the undetermined ones, plus the I1 total of the sample behind every row that repeats a name. |
| `Demultiplexer.SampleSheet.RepeatedNameOvercounted` | scripts/unmaintained/barcodeDemulti.py:129-134 | When two rows share a name, the reported total exceeds the demultiplexed count by at least that sample's I1 hits. |
| `Demultiplexer.SampleSheet.ReportStats` | scripts/unmaintained/barcodeDemulti.py:129-141 | The reported demultiplexed total plus the undetermined count equals the number of reads processed. |

## Left out

- Gzip files, `open`, `readline`, `writelines` and the `__del__` closers are not modelled. An input file is the sequence of lines `readline()` returns, and an output file is the list of lines written to it (`Sink`).
- Output files are kept per output name, one `Sink` each, not per path. A template without `%`, or one without `%r%`, gives several names (or both reads) the same path; the source then opens that path several times with mode `wt`, so the later handle truncates the file and the gzip streams interleave. The model keeps a separate, clean file for each name and read instead.
- `Sheet.OutputNameFilled` covers templates made of `%`-free literals and the two placeholders, with no `%r%` directly followed by `name%`, and sample names without `%`. Other templates are modelled by `Sheet.OutputName` itself, and `Sheet.ReadMarkSwallowed` shows one that goes wrong.
- `os.makedirs`, the creation of output handles and the progress messages on stderr are left out. The handles are modelled by the file names they would open (`OutputPaths`).
- The printing in `Index.reportStats` and `SampleSheet.reportStats` is left out, including the perfect/other-match lists sorted by count. Only the totals are kept.
- `argparse`, the `__main__` loop over the four zipped iterators, `--endAfter` and the progress counter are left out. These are command-line and I/O orchestration.
- Reading the sample-sheet file is left out. `ParseRows` models the rows, and `SampleSheet.constructor` takes rows that parsed. A bad row aborts construction in the source, so no sheet exists then.
- Python's `assert` is disabled under `python -O`. That mode is not modelled: an illegal letter always rejects the row.
- A sample named `Undetermined` combined with `--withUndetermined` shares one file pair in the model. The source opens that pair twice and keeps the second handles.
- `Demultiplexer.SampleSheet.Process` requires its two read objects to be distinct. The four separate iterators in the source always provide distinct objects.
- `Demultiplexer.SampleSheet.ReportStats` counts each sample once; `nameOrder`'s summation as written is `Sheet.ReportedTotal` (see Findings), and `SampleSheet.ReportedTotalMatches` shows the two agree when no name repeats.
- `Demultiplexer.SampleSheet.SumDemultiplexed` sums the I1 totals over the distinct samples, once each. The source's loop at line 131 runs over `nameOrder`, which repeats a name once per row; that sum is `Sheet.ReportedTotal`, and `SampleSheet.ReportedTotalOfSheet` gives its value.

## Findings

| source | as written | input that shows it | evidently intended | confidence | as-written member | corrected member |
|---|---|---|---|---|---|---|
| scripts/unmaintained/barcodeDemulti.py:131-134 | `reportStats` sums the I1 hits over `nameOrder`, which lists a name once per sheet row, while `samples` keeps one entry per name | a sheet with two rows named `s` and one read assigned to `s`: the reported total is 2, but one read was demultiplexed | sum over the distinct samples, so that demultiplexed plus undetermined equals the reads processed | medium, not executed | `Sheet.AsWrittenTotalOvercounts` | `Demultiplexer.SampleSheet.ReportStats` |
