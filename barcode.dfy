/**
 * One index or barcode (`Index`): the sequence it expects, how many
 * mismatches it tolerates, and the table of sequences it has been hit with.
 */
module Barcode {
  import opened Text

  /** A position where the query base counts as a mismatch: the expected base
      is not the wildcard `N` and the bases differ. An `N` in the query is an
      ordinary base. */
  predicate Differs(queryBase: char, indexBase: char)
  {
    indexBase != 'N' && queryBase != indexBase
  }

  /** `sum(t != 'N' and s != t for s, t in zip(query, index))`: the mismatches
      over the positions both strings have. */
  function MismatchCount(query: string, index: string): nat
    decreases |query|
  {
    var n := Min(|query|, |index|);
    if n == 0 then 0
    else MismatchCount(query[..n - 1], index[..n - 1]) + (if Differs(query[n - 1], index[n - 1]) then 1 else 0)
  }

  /** The mismatch positions, stated independently of the summation. */
  function MismatchPositions(query: string, index: string): set<int>
  {
    set i | 0 <= i < Min(|query|, |index|) && Differs(query[i], index[i])
  }

  lemma {:induction false} MismatchCountIsPositions(query: string, index: string)
    ensures MismatchCount(query, index) == |MismatchPositions(query, index)|
    decreases |query|
  {
    var n := Min(|query|, |index|);
    if n == 0 {
      assert MismatchPositions(query, index) == {};
    } else {
      var q, t := query[..n - 1], index[..n - 1];
      MismatchCountIsPositions(q, t);
      var before := MismatchPositions(q, t);
      var here := if Differs(query[n - 1], index[n - 1]) then {n - 1} else {};
      assert MismatchPositions(query, index) == before + here;
      assert n - 1 !in before;
    }
  }

  /** `Index.match`: the sequence `-` accepts every query; any other accepts
      a query with at most `mismatches` mismatch positions. */
  function Matches(index: string, mismatches: int, query: string): (r: bool)
    ensures index == "-" ==> r
    ensures index != "-" ==> (r <==> |MismatchPositions(query, index)| <= mismatches)
  {
    if index == "-" then true
    else
      MismatchCountIsPositions(query, index);
      MismatchCount(query, index) <= mismatches
  }

  lemma {:induction false} NoSelfMismatch(s: string)
    ensures MismatchCount(s, s) == 0
    decreases |s|
  {
    if s != [] {
      NoSelfMismatch(s[..|s| - 1]);
    }
  }

  /** A query equal to the index always matches when no mismatch is negative. */
  lemma ExactMatch(index: string, mismatches: int)
    requires mismatches >= 0
    ensures Matches(index, mismatches, index)
  {
    NoSelfMismatch(index);
  }

  /** An index made only of wildcards accepts every query. */
  lemma WildcardMatch(index: string, mismatches: int, query: string)
    requires mismatches >= 0
    requires forall i :: 0 <= i < |index| ==> index[i] == 'N'
    ensures Matches(index, mismatches, query)
  {
    assert MismatchPositions(query, index) == {};
  }

  /** Tolerating more mismatches never rejects a query that matched. */
  lemma MatchMonotone(index: string, m1: int, m2: int, query: string)
    requires m1 <= m2 && Matches(index, m1, query)
    ensures Matches(index, m2, query)
  {
  }

  /** Only the first `|index|` bases of the query take part in matching, so
      the clipped sequence `recordHit` stores matches exactly when the query does. */
  lemma MatchSeesOnlyClip(index: string, mismatches: int, query: string)
    ensures Matches(index, mismatches, Take(query, |index|)) == Matches(index, mismatches, query)
  {
    var c := Take(query, |index|);
    assert MismatchPositions(c, index) == MismatchPositions(query, index);
  }

  /** The hit table after one more hit for `key`: it enters with count one, or
      its count grows by one; every other entry is kept. */
  function AddHit(hits: map<string, nat>, key: string): (r: map<string, nat>)
    ensures r.Keys == hits.Keys + {key}
    ensures r[key] == (if key in hits then hits[key] else 0) + 1
    ensures forall k :: k in hits && k != key ==> r[k] == hits[k]
  {
    hits[key := (if key in hits then hits[key] else 0) + 1]
  }

  /** `sum(hits.values())`. */
  ghost function HitTotal(hits: map<string, nat>): nat
    decreases |hits|
  {
    if hits == map[] then 0
    else
      var k :| k in hits;
      hits[k] + HitTotal(hits - {k})
  }

  /** The total does not depend on which key the summation takes first. */
  lemma {:induction false} HitTotalRemove(hits: map<string, nat>, key: string)
    requires key in hits
    ensures HitTotal(hits) == hits[key] + HitTotal(hits - {key})
    decreases |hits|
  {
    var k :| k in hits && HitTotal(hits) == hits[k] + HitTotal(hits - {k});
    if k != key {
      var rest := hits - {k};
      assert |rest| < |hits| by { assert rest.Keys < hits.Keys; assert k !in rest.Keys; }
      HitTotalRemove(rest, key);
      var both := rest - {key};
      assert hits - {key} - {k} == both;
      HitTotalRemove(hits - {key}, k);
    }
  }

  /** Recording a hit raises the table's total by exactly one. */
  lemma AddHitTotal(hits: map<string, nat>, key: string)
    ensures HitTotal(AddHit(hits, key)) == HitTotal(hits) + 1
  {
    var r := AddHit(hits, key);
    HitTotalRemove(r, key);
    if key in hits {
      HitTotalRemove(hits, key);
      assert r - {key} == hits - {key};
    } else {
      assert r - {key} == hits;
    }
  }

  /** `sum(hits.values())` as the source computes it, one entry at a time. */
  method SumHits(hits: map<string, nat>) returns (total: nat)
    ensures total == HitTotal(hits)
  {
    total := 0;
    var rest := hits;
    while rest != map[]
      invariant total + HitTotal(rest) == HitTotal(hits)
      decreases |rest|
    {
      var k :| k in rest;
      HitTotalRemove(rest, k);
      total := total + rest[k];
      assert (rest - {k}).Keys < rest.Keys;
      rest := rest - {k};
    }
  }

  /** `Index`: `sequence` and `mismatches` are fixed when the sheet is read;
      `hits` counts, per clipped query, how often the index was hit. */
  class Index {
    const sequence: string
    const mismatches: int
    var hits: map<string, nat>

    constructor (sequence: string, mismatches: int)
      ensures this.sequence == sequence && this.mismatches == mismatches && hits == map[]
    {
      this.sequence, this.mismatches := sequence, mismatches;
      hits := map[];
    }

    /** `recordHit`: one more hit for the query clipped to the index length. */
    method RecordHit(query: string)
      modifies this
      ensures hits == AddHit(old(hits), Take(query, |sequence|))
    {
      var clipped := Take(query, |sequence|);
      var count := if clipped in hits then hits[clipped] else 0;
      hits := hits[clipped := count + 1];
    }
  }
}
