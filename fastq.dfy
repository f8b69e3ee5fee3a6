/**
 * FASTQ records: the four-line shape the demultiplexer reads
 * (`FastQIterator.__next__`, `FastqEntry`) and writes back (`writeFastQ`).
 * A file is modelled as the sequence of lines `readline()` returns, each with
 * its terminator; past the end `readline()` returns the empty string.
 */
module Fastq {
  import opened Wrappers
  import opened Text

  /** The three fields of a record that survive reading; the `+` line is dropped. */
  datatype FastqRecord = FastqRecord(name: string, sequence: string, quali: string)

  /** The four lines `writeFastQ` emits for one record. */
  function RecordLines(r: FastqRecord): (ls: seq<string>)
    ensures |ls| == 4 && ls[2] == "+\n"
  {
    [r.name + "\n", r.sequence + "\n", "+\n", r.quali + "\n"]
  }

  /** `readline()` on a file positioned at line `pos`. */
  function ReadLine(file: seq<string>, pos: nat): string
  {
    if pos < |file| then file[pos] else ""
  }

  /** The record made from the first, second and fourth of four lines read:
      each is stripped, and an empty first line means the input is exhausted. */
  function MakeRecord(nameLine: string, seqLine: string, qualiLine: string): (r: Option<FastqRecord>)
    ensures r.Some? ==> r.value.name != "" && Trimmed(r.value.name)
    ensures r.None? <==> Strip(nameLine) == ""
  {
    var name := Strip(nameLine);
    if name == "" then None else Some(FastqRecord(name, Strip(seqLine), Strip(qualiLine)))
  }

  /** What `FastQIterator.__next__` yields when the file is at line `pos`:
      four lines are read, and lines one, two and four make the record. */
  function NextRecord(file: seq<string>, pos: nat): (r: Option<FastqRecord>)
    ensures r.Some? ==> pos < |file|
    ensures r.None? <==> Strip(ReadLine(file, pos)) == ""
  {
    MakeRecord(ReadLine(file, pos), ReadLine(file, pos + 1), ReadLine(file, pos + 3))
  }

  /** The records an iterator started at line `pos` yields before it stops. */
  function RecordsFrom(file: seq<string>, pos: nat): seq<FastqRecord>
    decreases |file| - pos
  {
    match NextRecord(file, pos)
    case None => []
    case Some(r) => [r] + RecordsFrom(file, pos + 4)
  }

  /** The file `writeFastQ` produces for a sequence of records. */
  function FileOf(rs: seq<FastqRecord>): (file: seq<string>)
    ensures |file| == 4 * |rs|
  {
    if rs == [] then [] else RecordLines(rs[0]) + FileOf(rs[1..])
  }

  /** Writing one more record appends its four lines. */
  lemma {:induction false} FileOfSnoc(rs: seq<FastqRecord>, r: FastqRecord)
    ensures FileOf(rs + [r]) == FileOf(rs) + RecordLines(r)
  {
    if rs == [] {
      assert [] + [r] == [r] && [r][1..] == [];
    } else {
      assert (rs + [r])[0] == rs[0] && (rs + [r])[1..] == rs[1..] + [r];
      FileOfSnoc(rs[1..], r);
    }
  }

  /** A field that a line-by-line reader gets back unchanged: no whitespace at
      its ends (`strip()` would remove it) and no line break inside. */
  predicate CleanField(s: string)
  {
    Trimmed(s) && '\n' !in s && '\r' !in s
  }

  /** A record that survives a write and a read: clean fields and a non-empty
      name (an empty name line ends the iteration). */
  predicate CleanRecord(r: FastqRecord)
  {
    r.name != "" && CleanField(r.name) && CleanField(r.sequence) && CleanField(r.quali)
  }

  /** One step of the iteration: a record at `pos`, then whatever follows it. */
  lemma RecordsFromStep(file: seq<string>, pos: nat, r: FastqRecord)
    requires NextRecord(file, pos) == Some(r)
    ensures RecordsFrom(file, pos) == [r] + RecordsFrom(file, pos + 4)
  {
  }

  /** The record written right after the lines `pre` is read back. */
  lemma ReadRecordAt(pre: seq<string>, r: FastqRecord, rest: seq<string>)
    requires CleanRecord(r)
    ensures NextRecord(pre + RecordLines(r) + rest, |pre|) == Some(r)
  {
    var file := pre + RecordLines(r) + rest;
    assert ReadLine(file, |pre|) == r.name + "\n";
    assert ReadLine(file, |pre| + 1) == r.sequence + "\n";
    assert ReadLine(file, |pre| + 3) == r.quali + "\n";
    StripLine(r.name, '\n');
    StripLine(r.sequence, '\n');
    StripLine(r.quali, '\n');
  }

  /** Reading from the end of `pre` gives back the records written after it. */
  lemma {:induction false} ReadWrittenAfter(pre: seq<string>, rs: seq<FastqRecord>)
    requires forall r :: r in rs ==> CleanRecord(r)
    ensures RecordsFrom(pre + FileOf(rs), |pre|) == rs
    decreases |rs|
  {
    var file := pre + FileOf(rs);
    if rs == [] {
      assert ReadLine(file, |pre|) == "";
      assert Strip("") == "";
    } else {
      var r, tail := rs[0], rs[1..];
      assert rs == [r] + tail;
      assert r in rs;
      var pre' := pre + RecordLines(r);
      assert file == pre' + FileOf(tail) by {
        assert FileOf(rs) == RecordLines(r) + FileOf(tail);
      }
      ReadRecordAt(pre, r, FileOf(tail));
      RecordsFromStep(file, |pre|, r);
      assert forall t :: t in tail ==> t in rs;
      ReadWrittenAfter(pre', tail);
      calc {
        RecordsFrom(file, |pre|);
        [r] + RecordsFrom(pre' + FileOf(tail), |pre'|);
        [r] + tail;
        rs;
      }
    }
  }

  /** Round trip: reading back what `writeFastQ` wrote yields the same records. */
  lemma ReadWritten(rs: seq<FastqRecord>)
    requires forall r :: r in rs ==> CleanRecord(r)
    ensures RecordsFrom(FileOf(rs), 0) == rs
  {
    ReadWrittenAfter([], rs);
    assert [] + FileOf(rs) == FileOf(rs);
  }

  /** A read as the source holds it: its sequence and quality are reassigned
      in place when barcodes are clipped off. */
  class FastqEntry {
    var name: string
    var sequence: string
    var quali: string

    /** `FastqEntry(lines)`: the third line is ignored. */
    constructor (lines: seq<string>)
      requires |lines| == 4
      ensures name == lines[0] && sequence == lines[1] && quali == lines[3]
    {
      name, sequence, quali := lines[0], lines[1], lines[3];
    }

    function Record(): FastqRecord
      reads this
    {
      FastqRecord(name, sequence, quali)
    }
  }

  /** `FastQIterator`: a file and the number of lines consumed so far. */
  class FastqReader {
    const file: seq<string>
    var pos: nat

    constructor (file: seq<string>)
      ensures this.file == file && pos == 0
    {
      this.file, pos := file, 0;
    }

    /** `__next__`: consumes four lines; `None` stands for StopIteration. */
    method Next() returns (e: Option<FastqEntry>)
      modifies this
      ensures pos == old(pos) + 4
      ensures e.None? ==> NextRecord(file, old(pos)).None?
      ensures e.Some? ==> fresh(e.value) && NextRecord(file, old(pos)) == Some(e.value.Record())
    {
      var lines: seq<string> := [];
      var k := 0;
      while k < 4
        invariant 0 <= k <= 4 && pos == old(pos) + k && |lines| == k
        invariant forall j :: 0 <= j < k ==> lines[j] == Strip(ReadLine(file, old(pos) + j))
      {
        lines := lines + [Strip(ReadLine(file, pos))];
        pos := pos + 1;
        k := k + 1;
      }
      assert lines[0] == Strip(ReadLine(file, old(pos)));
      assert lines[1] == Strip(ReadLine(file, old(pos) + 1));
      assert lines[3] == Strip(ReadLine(file, old(pos) + 3));
      if lines[0] == "" {
        return None;
      }
      var entry := new FastqEntry(lines);
      return Some(entry);
    }
  }
}
