/**
 * `SampleSheet`: the samples of a sheet, the dispatch of each read quadruple
 * to the first sample that accepts it, and the counters behind `reportStats`.
 */
module Demultiplexer {
  import opened Wrappers
  import opened Text
  import opened Fastq
  import opened Barcode
  import opened Quadruple
  import opened Sheet

  /** The name whose output files receive the reads no sample accepts. */
  const UndeterminedName := "Undetermined"

  /** The lines written so far to the read-1 and read-2 files of one name. */
  datatype Sink = Sink(read1: seq<string>, read2: seq<string>)

  /** The first sample, in sheet order, whose four indices accept the quadruple. */
  function FirstMatch(codes: seq<Barcodes>, mismatches: int, quad: ReadSeqs): (r: Option<nat>)
    ensures r.Some? ==> r.value < |codes| && QuadMatches(codes[r.value], mismatches, quad)
    ensures r.Some? ==> forall j :: 0 <= j < r.value ==> !QuadMatches(codes[j], mismatches, quad)
    ensures r.None? ==> forall j :: 0 <= j < |codes| ==> !QuadMatches(codes[j], mismatches, quad)
  {
    if codes == [] then None
    else if QuadMatches(codes[0], mismatches, quad) then Some(0)
    else
      match FirstMatch(codes[1..], mismatches, quad)
      case None => None
      case Some(k) => Some(k + 1)
  }

  /** The sample that accepts the quadruple, when every sample before it
      rejects it, is the first match. */
  lemma FirstMatchAt(codes: seq<Barcodes>, mismatches: int, quad: ReadSeqs, i: nat)
    requires i < |codes| && QuadMatches(codes[i], mismatches, quad)
    requires forall j :: 0 <= j < i ==> !QuadMatches(codes[j], mismatches, quad)
    ensures FirstMatch(codes, mismatches, quad) == Some(i)
  {
  }

  /** How much of a read an inline barcode occupies: none for `-`. */
  function ClipLength(barcode: string): (n: nat)
    ensures barcode != "-" ==> n == |barcode|
    ensures barcode == "-" ==> n == 0
  {
    if barcode == "-" then 0 else |barcode|
  }

  /** A read with its first `n` bases, and the matching qualities, cut off. */
  function ClipRead(r: FastqRecord, n: nat): (c: FastqRecord)
    ensures c.name == r.name
    ensures r.sequence == Take(r.sequence, n) + c.sequence
    ensures r.quali == Take(r.quali, n) + c.quali
    ensures |r.sequence| == |r.quali| ==> |c.sequence| == |c.quali|
  {
    TakeDrop(r.sequence, n);
    TakeDrop(r.quali, n);
    FastqRecord(r.name, Drop(r.sequence, n), Drop(r.quali, n))
  }

  /** The sinks after `writeFastQ(name, (a, b))`. */
  function Append(w: map<string, Sink>, name: string, a: FastqRecord, b: FastqRecord): (r: map<string, Sink>)
    requires name in w
    ensures r.Keys == w.Keys
    ensures forall n :: n in w && n != name ==> r[n] == w[n]
    ensures |r[name].read1| == |w[name].read1| + 4 && r[name].read1[..|w[name].read1|] == w[name].read1
    ensures |r[name].read2| == |w[name].read2| + 4 && r[name].read2[..|w[name].read2|] == w[name].read2
    ensures r[name].read1[|w[name].read1|..] == RecordLines(a) && r[name].read2[|w[name].read2|..] == RecordLines(b)
  {
    w[name := Sink(w[name].read1 + RecordLines(a), w[name].read2 + RecordLines(b))]
  }

  /** A sink that holds the files of the records written to it so far still
      does after `writeFastQ` writes one more pair. */
  lemma AppendWritesRecords(w: map<string, Sink>, name: string, ra: seq<FastqRecord>, rb: seq<FastqRecord>,
                            a: FastqRecord, b: FastqRecord)
    requires name in w && w[name] == Sink(FileOf(ra), FileOf(rb))
    ensures Append(w, name, a, b)[name] == Sink(FileOf(ra + [a]), FileOf(rb + [b]))
  {
    FileOfSnoc(ra, a);
    FileOfSnoc(rb, b);
  }

  /** So each file of a sink reads back as the records written to it. */
  lemma AppendReadsBack(w: map<string, Sink>, name: string, ra: seq<FastqRecord>, rb: seq<FastqRecord>,
                        a: FastqRecord, b: FastqRecord)
    requires name in w && w[name] == Sink(FileOf(ra), FileOf(rb))
    requires forall r :: r in ra + [a] ==> CleanRecord(r)
    requires forall r :: r in rb + [b] ==> CleanRecord(r)
    ensures RecordsFrom(Append(w, name, a, b)[name].read1, 0) == ra + [a]
    ensures RecordsFrom(Append(w, name, a, b)[name].read2, 0) == rb + [b]
  {
    AppendWritesRecords(w, name, ra, rb, a, b);
    ReadWritten(ra + [a]);
    ReadWritten(rb + [b]);
  }

  /** The names that get output files: every sample, plus `Undetermined` on request. */
  function OutputNames(names: seq<string>, withUndetermined: bool): (s: set<string>)
    ensures forall n :: n in s <==> n in names || (withUndetermined && n == UndeterminedName)
  {
    (set n | n in names) + (if withUndetermined then {UndeterminedName} else {})
  }

  /** The read-1 and read-2 file names of every output name. */
  function OutputPaths(template: string, names: seq<string>, withUndetermined: bool): (paths: map<string, (string, string)>)
    ensures paths.Keys == OutputNames(names, withUndetermined)
  {
    map n | n in OutputNames(names, withUndetermined) :: (OutputName(template, n, "1"), OutputName(template, n, "2"))
  }

  /** A sink with nothing written yet for every output file pair. */
  function EmptySinks(paths: map<string, (string, string)>): (w: map<string, Sink>)
    ensures w.Keys == paths.Keys && forall n :: n in w ==> w[n] == Sink([], [])
  {
    map n | n in paths :: Sink([], [])
  }

  /** The reads assigned to samples: the I1 hit totals, summed over samples. */
  ghost function Demultiplexed(ts: seq<QuadHits>): nat
  {
    if ts == [] then 0 else Demultiplexed(ts[..|ts| - 1]) + HitTotal(ts[|ts| - 1].i1)
  }

  /** The count `reportStats` looks up for each sample name: the I1 hit
      total of the tables stored under that name, the later one winning. */
  ghost function NameCounts(names: seq<string>, ts: seq<QuadHits>): (m: map<string, nat>)
    requires |names| == |ts|
    ensures m.Keys == set n | n in names
  {
    if names == [] then map[]
    else NameCounts(names[..|names| - 1], ts[..|ts| - 1])[names[|names| - 1] := HitTotal(ts[|ts| - 1].i1)]
  }

  /** Summing the looked-up counts over distinct names gives the reads
      demultiplexed to samples. */
  lemma {:induction false} ReportedTotalIsDemultiplexed(names: seq<string>, ts: seq<QuadHits>)
    requires |names| == |ts| && Distinct(names)
    ensures ReportedTotal(names, NameCounts(names, ts)) == Demultiplexed(ts)
  {
    if names != [] {
      var k := |names| - 1;
      assert Distinct(names[..k]);
      assert names[k] !in names[..k];
      ReportedTotalIsDemultiplexed(names[..k], ts[..k]);
      ReportedTotalUnlisted(names[..k], NameCounts(names[..k], ts[..k]), names[k], HitTotal(ts[k].i1));
    }
  }

  /** With distinct names, each name's looked-up count is its own sample's
      I1 total. */
  lemma {:induction false} NameCountsAt(names: seq<string>, ts: seq<QuadHits>, j: nat)
    requires |names| == |ts| && Distinct(names) && j < |names|
    ensures names[j] in NameCounts(names, ts) && NameCounts(names, ts)[names[j]] == HitTotal(ts[j].i1)
  {
    var k := |names| - 1;
    if j < k {
      assert Distinct(names[..k]);
      NameCountsAt(names[..k], ts[..k], j);
    }
  }

  /** Replacing one sample's tables changes the sum by that sample's change only. */
  lemma {:induction false} DemultiplexedUpdate(ts: seq<QuadHits>, k: nat, h: QuadHits)
    requires k < |ts|
    ensures Demultiplexed(ts[k := h]) + HitTotal(ts[k].i1) == Demultiplexed(ts) + HitTotal(h.i1)
  {
    var n := |ts| - 1;
    var us := ts[k := h];
    if k < n {
      assert us[..n] == ts[..n][k := h];
      DemultiplexedUpdate(ts[..n], k, h);
    } else {
      assert us[..n] == ts[..n];
    }
  }

  /** The hit tables of all samples after `process` has seen a quadruple:
      the first accepting sample records it; every table else is kept. */
  function Dispatch(ts: seq<QuadHits>, codes: seq<Barcodes>, mismatches: int, quad: ReadSeqs): (r: seq<QuadHits>)
    requires |ts| == |codes|
    ensures |r| == |ts|
    ensures forall j :: 0 <= j < |ts| && FirstMatch(codes, mismatches, quad) != Some(j) ==> r[j] == ts[j]
  {
    match FirstMatch(codes, mismatches, quad)
    case None => ts
    case Some(k) => ts[k := RecordQuad(ts[k], codes[k], quad)]
  }

  /** A quadruple is counted once if some sample accepts it, not at all
      otherwise: at most one sample gains a hit. */
  lemma DispatchCounts(ts: seq<QuadHits>, codes: seq<Barcodes>, mismatches: int, quad: ReadSeqs)
    requires |ts| == |codes|
    ensures Demultiplexed(Dispatch(ts, codes, mismatches, quad))
            == Demultiplexed(ts) + (if FirstMatch(codes, mismatches, quad).Some? then 1 else 0)
  {
    match FirstMatch(codes, mismatches, quad)
    case None =>
    case Some(k) =>
      var h := RecordQuad(ts[k], codes[k], quad);
      RecordQuadTotals(ts[k], codes[k], quad);
      DemultiplexedUpdate(ts, k, h);
  }

  /** The invariant of every sample's four tables. */
  ghost predicate AllAgree(ts: seq<QuadHits>, codes: seq<Barcodes>, mismatches: int)
  {
    |ts| == |codes| && forall j {:trigger TablesAgree(ts[j], codes[j], mismatches)} :: 0 <= j < |ts| ==> TablesAgree(ts[j], codes[j], mismatches)
  }

  /** Fresh samples, with no hits yet, keep the invariant. */
  lemma NoHitsAllAgree(ts: seq<QuadHits>, codes: seq<Barcodes>, mismatches: int)
    requires |ts| == |codes| && forall j :: 0 <= j < |ts| ==> ts[j] == NoHits
    ensures AllAgree(ts, codes, mismatches)
  {
    forall j | 0 <= j < |ts| ensures TablesAgree(ts[j], codes[j], mismatches) {
      NoHitsAgree(codes[j], mismatches);
    }
  }

  /** Dispatching keeps the invariant of every sample's four tables: equal
      totals, and only accepted, clipped queries as keys. */
  lemma DispatchAgrees(ts: seq<QuadHits>, codes: seq<Barcodes>, mismatches: int, quad: ReadSeqs)
    requires AllAgree(ts, codes, mismatches)
    ensures AllAgree(Dispatch(ts, codes, mismatches, quad), codes, mismatches)
  {
    match FirstMatch(codes, mismatches, quad)
    case None =>
    case Some(k) =>
      RecordQuadAgrees(ts[k], codes[k], mismatches, quad);
  }

  /** The clipping step of `process`: the first `n` bases of a read, and
      their qualities, removed in place. */
  method Clip(r: FastqEntry, n: nat)
    modifies r
    ensures r.Record() == ClipRead(old(r.Record()), n)
  {
    r.sequence := Drop(r.sequence, n);
    r.quali := Drop(r.quali, n);
  }

  /** The barcodes of each sample object, in the same order. */
  function CodesOf(qs: seq<QuadrupelIndex>): (cs: seq<Barcodes>)
    ensures |cs| == |qs| && forall j :: 0 <= j < |qs| ==> cs[j] == qs[j].Codes()
  {
    seq(|qs|, j requires 0 <= j < |qs| => qs[j].Codes())
  }

  /** How the samples of a sheet are laid out: `cs[j]` is the barcodes the
      dictionary `t` keeps for the name `ns[j]`. */
  ghost predicate Placed(ns: seq<string>, cs: seq<Barcodes>, t: map<string, Barcodes>)
  {
    && |cs| == |ns|
    && (forall j :: 0 <= j < |ns| ==> ns[j] in t && cs[j] == t[ns[j]])
  }

  /** A row whose name is already a key: its barcodes take the old ones' place. */
  lemma ReplaceSample(ns: seq<string>, cs: seq<Barcodes>, t: map<string, Barcodes>, j: nat, codes: Barcodes)
    requires Placed(ns, cs, t) && Distinct(ns) && j < |ns|
    ensures Placed(ns, cs[j := codes], t[ns[j] := codes])
  {
  }

  /** A row with a new name: its barcodes are added at the end. */
  lemma AppendSample(ns: seq<string>, cs: seq<Barcodes>, t: map<string, Barcodes>, name: string, codes: Barcodes)
    requires Placed(ns, cs, t) && name !in ns
    ensures Placed(ns + [name], cs + [codes], t[name := codes])
  {
    forall k | 0 <= k < |ns| ensures (ns + [name])[k] != name {
      assert (ns + [name])[k] == ns[k];
    }
  }

  /** Sample objects that share nothing: each is wired, uses the sheet's
      mismatch limit, and owns index objects no other sample owns. */
  ghost predicate Separate(qs: seq<QuadrupelIndex>, mismatches: int, repr: set<Index>)
  {
    && (forall j :: 0 <= j < |qs| ==> qs[j].Wired() && qs[j].Mismatches() == mismatches && qs[j].Repr <= repr)
    && (forall j, k :: 0 <= j < k < |qs| ==> qs[j].Repr !! qs[k].Repr)
  }

  /** A new sample object sharing nothing with the others can join them. */
  lemma SeparateAppend(qs: seq<QuadrupelIndex>, mismatches: int, repr: set<Index>, q: QuadrupelIndex)
    requires Separate(qs, mismatches, repr)
    requires q.Wired() && q.Mismatches() == mismatches && q.Repr !! repr
    ensures Separate(qs + [q], mismatches, repr + q.Repr)
  {
    var qs' := qs + [q];
    forall j, k | 0 <= j < k < |qs'| ensures qs'[j].Repr !! qs'[k].Repr {
      if k == |qs| {
        assert qs'[j].Repr <= repr;
      }
    }
  }

  /** ... or take the place of one of them. */
  lemma SeparateReplace(qs: seq<QuadrupelIndex>, mismatches: int, repr: set<Index>, i: nat, q: QuadrupelIndex)
    requires Separate(qs, mismatches, repr) && i < |qs|
    requires q.Wired() && q.Mismatches() == mismatches && q.Repr !! repr
    ensures Separate(qs[i := q], mismatches, repr + q.Repr)
  {
    var qs' := qs[i := q];
    forall j, k | 0 <= j < k < |qs'| ensures qs'[j].Repr !! qs'[k].Repr {
      if k == i {
        assert qs'[j].Repr <= repr;
      } else if j == i {
        assert qs'[k].Repr <= repr;
      }
    }
  }

  /** After the first `i` rows: `ns` are the dictionary's keys in insertion
      order and `cs` the barcodes stored under them. */
  ghost predicate Loaded(rows: seq<SampleRow>, i: nat, ns: seq<string>, cs: seq<Barcodes>)
  {
    i <= |rows| && ns == Keys(NamesOf(rows[..i])) && Placed(ns, cs, Table(rows[..i]))
  }

  /** A row whose name is already a key replaces that key's barcodes. */
  lemma LoadedReplace(rows: seq<SampleRow>, i: nat, ns: seq<string>, cs: seq<Barcodes>, j: nat)
    requires Loaded(rows, i, ns, cs) && i < |rows| && j < |ns| && ns[j] == rows[i].name
    ensures Loaded(rows, i + 1, ns, cs[j := rows[i].codes])
  {
    TableStep(rows, i);
    KeysStep(rows, i);
    ReplaceSample(ns, cs, Table(rows[..i]), j, rows[i].codes);
  }

  /** A row with a new name adds a key at the end. */
  lemma LoadedAppend(rows: seq<SampleRow>, i: nat, ns: seq<string>, cs: seq<Barcodes>)
    requires Loaded(rows, i, ns, cs) && i < |rows| && rows[i].name !in ns
    ensures Loaded(rows, i + 1, ns + [rows[i].name], cs + [rows[i].codes])
  {
    TableStep(rows, i);
    KeysStep(rows, i);
    AppendSample(ns, cs, Table(rows[..i]), rows[i].name, rows[i].codes);
  }

  /** `QuadrupelIndex(...)` as the reading loop uses it: a fresh sample with
      the row's codes and empty tables, its objects apart from `repr`. */
  method NewSample(codes: Barcodes, mismatches: int, ghost repr: set<Index>) returns (q: QuadrupelIndex)
    ensures q.Wired() && fresh(q.Repr) && q.Repr !! repr
    ensures q.Codes() == codes && q.Mismatches() == mismatches && q.Hits() == NoHits
  {
    q := new QuadrupelIndex(codes, mismatches);
  }

  /** Row `i` of the reading loop: `samples[name] = QuadrupelIndex(...)`.
      A new object is made; it replaces the one stored under a name already
      present, and is otherwise added under the new name at the end. */
  method AddSample(rows: seq<SampleRow>, i: nat, ns: seq<string>, qs: seq<QuadrupelIndex>,
                   ghost repr: set<Index>, mismatches: int)
    returns (ns': seq<string>, qs': seq<QuadrupelIndex>, ghost repr': set<Index>)
    requires i < |rows| && Loaded(rows, i, ns, CodesOf(qs))
    requires Separate(qs, mismatches, repr)
    requires forall j :: 0 <= j < |qs| ==> qs[j].Hits() == NoHits
    ensures Loaded(rows, i + 1, ns', CodesOf(qs'))
    ensures Separate(qs', mismatches, repr') && repr <= repr' && fresh(repr' - repr)
    ensures forall j :: 0 <= j < |qs'| ==> qs'[j].Hits() == NoHits
  {
    var row := rows[i];
    label Before:
    var q := NewSample(row.codes, mismatches, repr);
    forall j | 0 <= j < |qs| ensures qs[j].Hits() == NoHits {
      assert old@Before(qs[j].Hits()) == NoHits;
    }
    if row.name in ns {
      var j :| 0 <= j < |ns| && ns[j] == row.name;
      LoadedReplace(rows, i, ns, CodesOf(qs), j);
      SeparateReplace(qs, mismatches, repr, j, q);
      assert CodesOf(qs[j := q]) == CodesOf(qs)[j := row.codes];
      ns', qs' := ns, qs[j := q];
    } else {
      LoadedAppend(rows, i, ns, CodesOf(qs));
      SeparateAppend(qs, mismatches, repr, q);
      assert CodesOf(qs + [q]) == CodesOf(qs) + [row.codes];
      ns', qs' := ns + [row.name], qs + [q];
    }
    repr' := repr + q.Repr;
  }

  /** The reading loop of `SampleSheet.__init__`: a new sample object per
      row, stored under the row's name, and the name appended to `nameOrder`. */
  method NewSamples(rows: seq<SampleRow>, mismatches: int)
    returns (ns: seq<string>, qs: seq<QuadrupelIndex>, order: seq<string>, ghost repr: set<Index>)
    ensures ns == Keys(NamesOf(rows)) && order == NamesOf(rows)
    ensures Placed(ns, CodesOf(qs), Table(rows))
    ensures Separate(qs, mismatches, repr) && fresh(repr)
    ensures forall j :: 0 <= j < |qs| ==> qs[j].Hits() == NoHits
  {
    ns, qs, order, repr := [], [], [], {};
    var i := 0;
    while i < |rows|
      invariant Loaded(rows, i, ns, CodesOf(qs)) && order == NamesOf(rows[..i])
      invariant Separate(qs, mismatches, repr) && fresh(repr)
      invariant forall j :: 0 <= j < |qs| ==> qs[j].Hits() == NoHits
    {
      NamesStep(rows, i);
      ns, qs, repr := AddSample(rows, i, ns, qs, repr, mismatches);
      order := order + [rows[i].name];
      i := i + 1;
    }
    assert rows[..|rows|] == rows;
  }

  class SampleSheet {
    const names: seq<string>              // the keys of `samples`, in insertion order
    const samples: seq<QuadrupelIndex>    // the value stored under each key, in the same order
    const nameOrder: seq<string>          // one entry per sheet row
    const mismatches: int
    const withUndetermined: bool
    const outputPaths: map<string, (string, string)>  // the files behind `outputHandles`
    ghost const Repr: set<Index>          // the index objects of all samples
    var written: map<string, Sink>
    var undetermined: nat
    ghost var processed: nat              // the number of `process` calls so far

    /** The fixed shape, made of constant fields only: one sample object per
        distinct name, no index object shared, an output pair per output name. */
    ghost predicate Wired()
    {
      && names == Keys(nameOrder)
      && Distinct(names)
      && Separate(samples, mismatches, Repr)
      && Outputs()
    }

    /** An output file pair for every sample name, and for `Undetermined`
        on request. */
    ghost predicate Outputs()
    {
      && |samples| == |names|
      && (forall n :: n in names ==> n in outputPaths)
      && (withUndetermined ==> UndeterminedName in outputPaths)
    }

    function Codes(): (cs: seq<Barcodes>)
    {
      CodesOf(samples)
    }

    /** The four hit tables of each sample, in sheet order. */
    ghost function Tables(): (ts: seq<QuadHits>)
      requires Wired()
      reads Repr
    {
      seq(|samples|, j requires 0 <= j < |samples| && Wired() reads Repr => samples[j].Hits())
    }

    /** Every read processed is either demultiplexed to a sample or
        undetermined, and each sample's four tables agree with each other and
        with its barcodes. */
    ghost predicate Valid()
      reads this, Repr
    {
      && Wired()
      && written.Keys == outputPaths.Keys
      && AllAgree(Tables(), Codes(), mismatches)
      && processed == undetermined + Demultiplexed(Tables())
    }

    /** `SampleSheet.__init__` on the rows of a sheet that parsed. */
    constructor (rows: seq<SampleRow>, template: string, mismatches: int, withUndetermined: bool)
      ensures Valid() && fresh(Repr)
      ensures names == Keys(NamesOf(rows)) && nameOrder == NamesOf(rows)
      ensures Placed(names, Codes(), Table(rows))
      ensures forall j :: 0 <= j < |samples| ==> Tables()[j] == NoHits
      ensures this.mismatches == mismatches && this.withUndetermined == withUndetermined
      ensures undetermined == 0 && processed == 0
      ensures outputPaths == OutputPaths(template, names, withUndetermined)
      ensures written == EmptySinks(outputPaths)
    {
      var ns, qs, order, repr := NewSamples(rows, mismatches);
      names, samples, nameOrder, Repr := ns, qs, order, repr;
      this.mismatches, this.withUndetermined := mismatches, withUndetermined;
      var paths := OutputPaths(template, ns, withUndetermined);
      outputPaths, written := paths, EmptySinks(paths);
      undetermined, processed := 0, 0;
      new;
      StartValid();
    }

    /** Samples without hits and no read processed satisfy the invariant. */
    lemma StartValid()
      requires Wired() && written.Keys == outputPaths.Keys
      requires forall j :: 0 <= j < |samples| ==> samples[j].Hits() == NoHits
      requires undetermined == 0 && processed == 0
      ensures Valid()
      ensures forall j :: 0 <= j < |samples| ==> Tables()[j] == NoHits
    {
      var ts := Tables();
      NoHitsAllAgree(ts, Codes(), mismatches);
      NoHitsDemultiplexed(ts);
    }

    /** When no two sheet rows share a name, `reportStats`' sum over
        `nameOrder` counts each demultiplexed read once: it is the number of
        processed reads that were not undetermined. */
    lemma ReportedTotalMatches()
      requires Valid() && Distinct(nameOrder)
      ensures ReportedTotal(nameOrder, NameCounts(names, Tables())) == Demultiplexed(Tables())
      ensures ReportedTotal(nameOrder, NameCounts(names, Tables())) == processed - undetermined
    {
      KeysOfDistinct(nameOrder);
      ReportedTotalIsDemultiplexed(names, Tables());
    }

    /** As written, `reportStats`' sum over `nameOrder` is the number of
        demultiplexed reads plus, once more, the count of every row that
        repeats a name. */
    lemma ReportedTotalOfSheet()
      requires Valid()
      ensures ReportedTotal(nameOrder, NameCounts(names, Tables()))
              == processed - undetermined + ReportedTotal(Repeats(nameOrder), NameCounts(names, Tables()))
    {
      ReportedTotalAsWritten(nameOrder, NameCounts(names, Tables()));
      ReportedTotalIsDemultiplexed(names, Tables());
    }

    /** As written, a name on two sheet rows makes `reportStats` report more
        reads than were demultiplexed, by at least that sample's I1 total. */
    lemma RepeatedNameOvercounted(i: nat, j: nat, s: nat)
      requires Valid() && i < j < |nameOrder| && nameOrder[i] == nameOrder[j]
      requires s < |names| && names[s] == nameOrder[j]
      ensures ReportedTotal(nameOrder, NameCounts(names, Tables())) >= processed - undetermined + HitTotal(Tables()[s].i1)
    {
      var ts := Tables();
      NameCountsAt(names, ts, s);
      RepeatedNameCountedTwice(nameOrder, NameCounts(names, ts), i, j);
      ReportedTotalIsDemultiplexed(names, ts);
    }

    /** `writeFastQ`: the four lines of each read appended to the name's two files. */
    method WriteFastq(name: string, e1: FastqEntry, e2: FastqEntry)
      requires name in written
      modifies this`written
      ensures written == Append(old(written), name, e1.Record(), e2.Record())
    {
      var sink := written[name];
      written := written[name := Sink(sink.read1 + RecordLines(e1.Record()), sink.read2 + RecordLines(e2.Record()))];
    }

    /** `process`: the read pair goes to the first sample that accepts the
        quadruple, with its inline barcodes clipped off in place; if none
        does, the `undetermined` counter grows and the pair is written
        unchanged to the `Undetermined` files on request. */
    method Process(r1: FastqEntry, r2: FastqEntry, i1: FastqEntry, i2: FastqEntry) returns (dest: Option<nat>)
      requires Valid() && r1 != r2
      modifies this, Repr, r1, r2
      ensures Valid()
      ensures var quad := old(ReadSeqs(r1.sequence, r2.sequence, i1.sequence, i2.sequence));
        && dest == FirstMatch(Codes(), mismatches, quad)
        && Tables() == Dispatch(old(Tables()), Codes(), mismatches, quad)
      ensures undetermined == old(undetermined) + (if dest.None? then 1 else 0)
      ensures processed == old(processed) + 1
      ensures dest.Some? ==>
        && r1.Record() == ClipRead(old(r1.Record()), ClipLength(Codes()[dest.value].bc1))
        && r2.Record() == ClipRead(old(r2.Record()), ClipLength(Codes()[dest.value].bc2))
        && written == Append(old(written), names[dest.value], r1.Record(), r2.Record())
      ensures dest.None? ==>
        && r1.Record() == old(r1.Record()) && r2.Record() == old(r2.Record())
        && written == if withUndetermined then Append(old(written), UndeterminedName, r1.Record(), r2.Record())
                      else old(written)
    {
      var quad := ReadSeqs(r1.sequence, r2.sequence, i1.sequence, i2.sequence);
      DispatchCounts(Tables(), Codes(), mismatches, quad);
      DispatchAgrees(Tables(), Codes(), mismatches, quad);
      dest := FindSample(quad);
      ghost var ts := Tables();
      label Found:
      Deliver(dest, r1, r2);
      processed := processed + 1;
      assert unchanged@Found(Repr);
      assert Tables() == ts;
    }

    /** The rest of `process` once the sample is known: the inline barcodes
        are clipped off and the pair written to the sample's files, or the
        `undetermined` counter grows and the pair goes, unchanged, to the
        `Undetermined` files on request. */
    method Deliver(dest: Option<nat>, r1: FastqEntry, r2: FastqEntry)
      requires Outputs() && written.Keys == outputPaths.Keys && r1 != r2
      requires dest.Some? ==> dest.value < |samples|
      modifies this`written, this`undetermined, r1, r2
      ensures written.Keys == outputPaths.Keys
      ensures undetermined == old(undetermined) + (if dest.None? then 1 else 0)
      ensures dest.Some? ==>
        && r1.Record() == ClipRead(old(r1.Record()), ClipLength(Codes()[dest.value].bc1))
        && r2.Record() == ClipRead(old(r2.Record()), ClipLength(Codes()[dest.value].bc2))
        && written == Append(old(written), names[dest.value], r1.Record(), r2.Record())
      ensures dest.None? ==>
        && r1.Record() == old(r1.Record()) && r2.Record() == old(r2.Record())
        && written == if withUndetermined then Append(old(written), UndeterminedName, r1.Record(), r2.Record())
                      else old(written)
    {
      if dest.Some? {
        var i := dest.value;
        var sample := samples[i];
        var clip1 := ClipLength(sample.bc1.sequence);
        var clip2 := ClipLength(sample.bc2.sequence);
        Clip(r1, clip1);
        Clip(r2, clip2);
        WriteFastq(names[i], r1, r2);
      } else {
        undetermined := undetermined + 1;
        if withUndetermined {
          WriteFastq(UndeterminedName, r1, r2);
        }
      }
    }

    /** The loop of `process` over the samples, in dictionary order: each
        sample's `match` runs until one accepts the quadruple, and only that
        sample's tables record it. */
    method FindSample(quad: ReadSeqs) returns (dest: Option<nat>)
      requires Wired()
      modifies Repr
      ensures dest == FirstMatch(Codes(), mismatches, quad)
      ensures Tables() == Dispatch(old(Tables()), Codes(), mismatches, quad)
    {
      ghost var cs, ts := Codes(), Tables();
      var i := 0;
      while i < |samples|
        invariant 0 <= i <= |samples|
        invariant Tables() == ts
        invariant forall j :: 0 <= j < i ==> !QuadMatches(cs[j], mismatches, quad)
      {
        var ok := MatchSample(i, quad);
        if ok {
          FirstMatchAt(cs, mismatches, quad, i);
          return Some(i);
        }
        i := i + 1;
      }
      return None;
    }

    /** `qIndex.match(...)` on sample `i`: its tables record the quadruple
        when it accepts it, and no other sample's tables change. */
    method MatchSample(i: nat, quad: ReadSeqs) returns (ok: bool)
      requires Wired() && i < |samples|
      modifies Repr
      ensures ok == QuadMatches(Codes()[i], mismatches, quad)
      ensures Tables() == old(Tables())[i := if ok then RecordQuad(old(Tables())[i], Codes()[i], quad) else old(Tables())[i]]
    {
      label Before:
      ok := samples[i].Match(quad.r1, quad.r2, quad.i1, quad.i2);
      OthersUnchanged@Before(i);
    }

    /** After sample `i` ran `match`, every other sample's tables are as they
        were: the samples own disjoint index objects. */
    twostate lemma OthersUnchanged(i: nat)
      requires Wired() && i < |samples|
      requires forall o :: o in Repr && o !in samples[i].Repr ==> unchanged(o)
      ensures Tables() == old(Tables())[i := samples[i].Hits()]
    {
      forall j | 0 <= j < |samples| && j != i ensures samples[j].Hits() == old(samples[j].Hits()) {
        if j < i {
          assert samples[j].Repr !! samples[i].Repr;
        } else {
          assert samples[i].Repr !! samples[j].Repr;
        }
      }
    }

    /** `reportStats`, counting each sample once: the reads demultiplexed
        (the I1 hits summed over samples) and the undetermined reads; together
        they are all the reads processed. */
    method ReportStats() returns (total: nat, undeterminedReads: nat)
      requires Valid()
      ensures total == Demultiplexed(Tables())
      ensures undeterminedReads == undetermined
      ensures total + undeterminedReads == processed
    {
      total := SumDemultiplexed();
      undeterminedReads := undetermined;
    }

    /** The loop of `reportStats` that adds up `sum(qi.i1.hits.values())`
        over the samples. */
    method SumDemultiplexed() returns (total: nat)
      requires Wired()
      ensures total == Demultiplexed(Tables())
    {
      total := 0;
      ghost var ts := Tables();
      var j := 0;
      while j < |samples|
        invariant 0 <= j <= |samples|
        invariant total == Demultiplexed(ts[..j])
      {
        var count := SumHits(samples[j].i1.hits);
        assert ts[j].i1 == samples[j].i1.hits;
        assert ts[..j + 1][..j] == ts[..j];
        total := total + count;
        j := j + 1;
      }
      assert ts[..|samples|] == ts;
    }
  }

  lemma {:induction false} NoHitsDemultiplexed(ts: seq<QuadHits>)
    requires forall j :: 0 <= j < |ts| ==> ts[j] == NoHits
    ensures Demultiplexed(ts) == 0
  {
    if ts != [] {
      NoHitsDemultiplexed(ts[..|ts| - 1]);
      assert HitTotal(map[]) == 0;
    }
  }
}
