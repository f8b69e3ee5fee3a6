/**
 * `QuadrupelIndex`: the rule that assigns a read quadruple to one sample.
 * The two index reads are matched against the sample's I1 and I2 indices and
 * the starts of read 1 and read 2 against its inline barcodes BC1 and BC2.
 */
module Quadruple {
  import opened Text
  import opened Barcode

  /** The four sequences of one sample-sheet row; `-` marks an absent one. */
  datatype Barcodes = Barcodes(i1: string, i2: string, bc1: string, bc2: string)

  /** The sequences of one read quadruple: read 1, read 2, index read 1, index read 2. */
  datatype ReadSeqs = ReadSeqs(r1: string, r2: string, i1: string, i2: string)

  /** The four hit tables of one sample. */
  datatype QuadHits = QuadHits(i1: map<string, nat>, i2: map<string, nat>, bc1: map<string, nat>, bc2: map<string, nat>)

  const NoHits := QuadHits(map[], map[], map[], map[])

  /** All four of I1, I2, BC1 and BC2 accept their read; a row of four `-`
      accepts every quadruple. */
  predicate QuadMatches(codes: Barcodes, mismatches: int, quad: ReadSeqs)
    ensures codes == Barcodes("-", "-", "-", "-") ==> QuadMatches(codes, mismatches, quad)
  {
    && Matches(codes.i1, mismatches, quad.i1)
    && Matches(codes.i2, mismatches, quad.i2)
    && Matches(codes.bc1, mismatches, quad.r1)
    && Matches(codes.bc2, mismatches, quad.r2)
  }

  /** A quadruple that carries a row's own sequences is accepted under any
      non-negative mismatch budget. */
  lemma ExactQuadMatches(codes: Barcodes, mismatches: int)
    requires mismatches >= 0
    ensures QuadMatches(codes, mismatches, ReadSeqs(codes.bc1, codes.bc2, codes.i1, codes.i2))
  {
    ExactMatch(codes.i1, mismatches);
    ExactMatch(codes.i2, mismatches);
    ExactMatch(codes.bc1, mismatches);
    ExactMatch(codes.bc2, mismatches);
  }

  /** The tables after a successful match: each records its read, clipped to
      the length of its index. */
  function RecordQuad(h: QuadHits, codes: Barcodes, quad: ReadSeqs): (r: QuadHits)
    ensures r.i1.Keys == h.i1.Keys + {Take(quad.i1, |codes.i1|)}
    ensures r.i2.Keys == h.i2.Keys + {Take(quad.i2, |codes.i2|)}
    ensures r.bc1.Keys == h.bc1.Keys + {Take(quad.r1, |codes.bc1|)}
    ensures r.bc2.Keys == h.bc2.Keys + {Take(quad.r2, |codes.bc2|)}
  {
    QuadHits(
      AddHit(h.i1, Take(quad.i1, |codes.i1|)),
      AddHit(h.i2, Take(quad.i2, |codes.i2|)),
      AddHit(h.bc1, Take(quad.r1, |codes.bc1|)),
      AddHit(h.bc2, Take(quad.r2, |codes.bc2|)))
  }

  /** A successful match adds exactly one hit to each of the four tables. */
  lemma RecordQuadTotals(h: QuadHits, codes: Barcodes, quad: ReadSeqs)
    ensures var h' := RecordQuad(h, codes, quad);
      && HitTotal(h'.i1) == HitTotal(h.i1) + 1
      && HitTotal(h'.i2) == HitTotal(h.i2) + 1
      && HitTotal(h'.bc1) == HitTotal(h.bc1) + 1
      && HitTotal(h'.bc2) == HitTotal(h.bc2) + 1
  {
    AddHitTotal(h.i1, Take(quad.i1, |codes.i1|));
    AddHitTotal(h.i2, Take(quad.i2, |codes.i2|));
    AddHitTotal(h.bc1, Take(quad.r1, |codes.bc1|));
    AddHitTotal(h.bc2, Take(quad.r2, |codes.bc2|));
  }

  /** Every key of a table is a clipped query its index accepts. */
  ghost predicate KeysMatch(hits: map<string, nat>, index: string, mismatches: int)
  {
    forall k :: k in hits ==> |k| <= |index| && Matches(index, mismatches, k)
  }

  /** The invariant of one sample's tables: the four totals agree (every hit
      is recorded in all four) and every key is an accepted, clipped query. */
  ghost predicate TablesAgree(h: QuadHits, codes: Barcodes, mismatches: int)
  {
    && HitTotal(h.i2) == HitTotal(h.i1)
    && HitTotal(h.bc1) == HitTotal(h.i1)
    && HitTotal(h.bc2) == HitTotal(h.i1)
    && KeysMatch(h.i1, codes.i1, mismatches)
    && KeysMatch(h.i2, codes.i2, mismatches)
    && KeysMatch(h.bc1, codes.bc1, mismatches)
    && KeysMatch(h.bc2, codes.bc2, mismatches)
  }

  /** Empty tables keep the invariant. */
  lemma NoHitsAgree(codes: Barcodes, mismatches: int)
    ensures TablesAgree(NoHits, codes, mismatches)
  {
    assert HitTotal(map[]) == 0;
  }

  lemma AddHitKeysMatch(hits: map<string, nat>, index: string, mismatches: int, query: string)
    requires KeysMatch(hits, index, mismatches) && Matches(index, mismatches, query)
    ensures KeysMatch(AddHit(hits, Take(query, |index|)), index, mismatches)
  {
    MatchSeesOnlyClip(index, mismatches, query);
  }

  /** Recording a matched quadruple keeps the invariant. */
  lemma RecordQuadAgrees(h: QuadHits, codes: Barcodes, mismatches: int, quad: ReadSeqs)
    requires TablesAgree(h, codes, mismatches) && QuadMatches(codes, mismatches, quad)
    ensures TablesAgree(RecordQuad(h, codes, quad), codes, mismatches)
  {
    RecordQuadTotals(h, codes, quad);
    AddHitKeysMatch(h.i1, codes.i1, mismatches, quad.i1);
    AddHitKeysMatch(h.i2, codes.i2, mismatches, quad.i2);
    AddHitKeysMatch(h.bc1, codes.bc1, mismatches, quad.r1);
    AddHitKeysMatch(h.bc2, codes.bc2, mismatches, quad.r2);
  }

  class QuadrupelIndex {
    const i1: Index
    const i2: Index
    const bc1: Index
    const bc2: Index
    ghost const Repr: set<Index>

    /** The fixed shape: four distinct index objects sharing one mismatch
        limit. It reads only constant fields, so no update can break it. */
    ghost predicate Wired()
    {
      && Repr == {i1, i2, bc1, bc2}
      && i1 != i2 && i1 != bc1 && i1 != bc2 && i2 != bc1 && i2 != bc2 && bc1 != bc2
      && i2.mismatches == i1.mismatches && bc1.mismatches == i1.mismatches && bc2.mismatches == i1.mismatches
    }

    /** The wiring and the invariant of the four hit tables. */
    ghost predicate Valid()
      reads Repr
    {
      Wired() && TablesAgree(Hits(), Codes(), Mismatches())
    }

    function Codes(): Barcodes
    {
      Barcodes(i1.sequence, i2.sequence, bc1.sequence, bc2.sequence)
    }

    function Mismatches(): int
    {
      i1.mismatches
    }

    ghost function Hits(): QuadHits
      reads i1, i2, bc1, bc2
    {
      QuadHits(i1.hits, i2.hits, bc1.hits, bc2.hits)
    }

    constructor (codes: Barcodes, mismatches: int)
      ensures Wired() && fresh(Repr)
      ensures Codes() == codes && Mismatches() == mismatches && Hits() == NoHits
      ensures Valid()
    {
      i1 := new Index(codes.i1, mismatches);
      i2 := new Index(codes.i2, mismatches);
      bc1 := new Index(codes.bc1, mismatches);
      bc2 := new Index(codes.bc2, mismatches);
      Repr := {i1, i2, bc1, bc2};
      new;
      NoHitsAgree(codes, mismatches);
    }

    /** `QuadrupelIndex.match(r1, r2, i1, i2)`: true iff all four indices
        accept their read; only then is a hit recorded, in all four tables. */
    method Match(r1: string, r2: string, i1: string, i2: string) returns (ok: bool)
      requires Wired()
      modifies Repr
      ensures Wired() && (old(Valid()) ==> Valid())
      ensures ok == QuadMatches(Codes(), Mismatches(), ReadSeqs(r1, r2, i1, i2))
      ensures Hits() == if ok then RecordQuad(old(Hits()), Codes(), ReadSeqs(r1, r2, i1, i2)) else old(Hits())
    {
      var quad := ReadSeqs(r1, r2, i1, i2);
      if Matches(this.i1.sequence, this.i1.mismatches, i1) && Matches(this.i2.sequence, this.i2.mismatches, i2)
         && Matches(bc1.sequence, bc1.mismatches, r1) && Matches(bc2.sequence, bc2.mismatches, r2)
      {
        if Valid() {
          RecordQuadAgrees(Hits(), Codes(), Mismatches(), quad);
        }
        this.i1.RecordHit(i1);
        this.i2.RecordHit(i2);
        bc1.RecordHit(r1);
        bc2.RecordHit(r2);
        return true;
      } else {
        return false;
      }
    }
  }
}
