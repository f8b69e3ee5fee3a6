/**
 * The string primitives of Python that the demultiplexer relies on:
 * `str.isspace`, `str.strip()`, `str.split()` without a separator, slicing
 * that clips at the end of the string, and `str.replace`.
 */
module Text {

  /** The characters for which Python's `str.isspace` holds; `strip()` and
      `split()` without arguments remove exactly these. */
  predicate IsSpace(c: char)
  {
    var n := c as int;
    (9 <= n <= 13) || (28 <= n <= 32) || n == 0x85 || n == 0xA0 || n == 0x1680
    || (0x2000 <= n <= 0x200A) || n == 0x2028 || n == 0x2029 || n == 0x202F
    || n == 0x205F || n == 0x3000
  }

  /** No whitespace at either end: the strings `strip()` leaves alone. */
  predicate Trimmed(s: string)
  {
    s == [] || (!IsSpace(s[0]) && !IsSpace(s[|s| - 1]))
  }

  function Min(a: int, b: int): int
  {
    if a <= b then a else b
  }

  /** The index of the first non-whitespace character of `s` at or after `i`
      (`|s|` if there is none). */
  function SkipSpaces(s: string, i: nat): (j: nat)
    requires i <= |s|
    ensures i <= j <= |s|
    ensures j == |s| || !IsSpace(s[j])
    ensures forall k :: i <= k < j ==> IsSpace(s[k])
    decreases |s| - i
  {
    if i < |s| && IsSpace(s[i]) then SkipSpaces(s, i + 1) else i
  }

  /** The length of `s[..n]` without its trailing whitespace. */
  function TrimEnd(s: string, n: nat): (k: nat)
    requires n <= |s|
    ensures k <= n
    ensures k == 0 || !IsSpace(s[k - 1])
    ensures forall m :: k <= m < n ==> IsSpace(s[m])
  {
    if n > 0 && IsSpace(s[n - 1]) then TrimEnd(s, n - 1) else n
  }

  /** `s[i..j]` is what remains of `s` once whitespace alone is cut off
      its two ends. */
  predicate CutsSpaces(s: string, i: int, j: int)
  {
    && 0 <= i <= j <= |s|
    && (forall k :: 0 <= k < i ==> IsSpace(s[k]))
    && (forall k :: j <= k < |s| ==> IsSpace(s[k]))
  }

  /** `s.strip()`: `s` without its leading and trailing whitespace. */
  function Strip(s: string): (r: string)
    ensures Trimmed(r)
    ensures exists i, j :: CutsSpaces(s, i, j) && r == s[i..j]
  {
    var i := SkipSpaces(s, 0);
    var t := s[i..];
    var k := TrimEnd(t, |t|);
    assert forall m :: i + k <= m < |s| ==> IsSpace(s[m]) by {
      forall m | i + k <= m < |s| ensures IsSpace(s[m]) {
        assert s[m] == t[m - i];
      }
    }
    assert CutsSpaces(s, i, i + k) && t[..k] == s[i..i + k];
    t[..k]
  }

  /** Stripping a trimmed string followed by one whitespace character (a line
      terminator) gives the string back: what a reader gets from a line that a
      writer produced as `s + "\n"`. */
  lemma StripLine(s: string, c: char)
    requires Trimmed(s) && IsSpace(c)
    ensures Strip(s + [c]) == s
  {
    var t := s + [c];
    if s == [] {
      assert SkipSpaces(t, 0) == SkipSpaces(t, 1) == 1;
    } else {
      assert SkipSpaces(t, 0) == 0 by {
        assert !IsSpace(t[0]);
      }
      assert t[0..] == t;
      assert TrimEnd(t, |t|) == TrimEnd(t, |s|) == |s| by {
        assert !IsSpace(t[|s| - 1]);
      }
      assert t[..|s|] == s;
    }
  }

  /** `s[:n]` for `n >= 0`: the first `n` characters, or all of `s` if it is shorter. */
  function Take(s: string, n: nat): (r: string)
    ensures |r| == Min(|s|, n) && r == s[..|r|]
  {
    if n <= |s| then s[..n] else s
  }

  /** `s[n:]` for `n >= 0`: what follows the first `n` characters, empty if `s` is shorter. */
  function Drop(s: string, n: nat): (r: string)
    ensures |r| == (if n <= |s| then |s| - n else 0)
  {
    if n <= |s| then seq(|s| - n, i requires 0 <= i < |s| - n => s[n + i]) else ""
  }

  /** `s[:n] + s[n:] == s`: the two slices split the string. */
  lemma TakeDrop(s: string, n: nat)
    ensures Take(s, n) + Drop(s, n) == s
  {
    var t, d := Take(s, n), Drop(s, n);
    assert forall i :: 0 <= i < |s| ==> (t + d)[i] == s[i] by {
      forall i | 0 <= i < |s| ensures (t + d)[i] == s[i] {
        if i >= |t| {
          assert d[i - |t|] == s[n + i - |t|];
        }
      }
    }
  }

  // ---------------------------------------------------------------------
  // split()

  /** A field produced by `split()`: non-empty and free of whitespace. */
  predicate IsWord(w: string)
  {
    w != [] && forall i :: 0 <= i < |w| ==> !IsSpace(w[i])
  }

  /** Length of the run of non-whitespace characters at the start of `s`. */
  function WordEnd(s: string): (n: nat)
    ensures n <= |s|
    ensures forall i :: 0 <= i < n ==> !IsSpace(s[i])
    ensures n == |s| || IsSpace(s[n])
  {
    if s == [] || IsSpace(s[0]) then 0 else 1 + WordEnd(s[1..])
  }

  /** `s.split()`: the maximal whitespace-free runs of `s`, in order. */
  function Words(s: string): (ws: seq<string>)
    ensures forall w :: w in ws ==> IsWord(w)
    decreases |s|
  {
    if s == [] then []
    else if IsSpace(s[0]) then Words(s[1..])
    else
      var n := WordEnd(s);
      [s[..n]] + Words(s[n..])
  }

  /** A word on its own is one field. */
  lemma {:induction false} WordsOfWord(w: string)
    requires IsWord(w)
    ensures Words(w) == [w]
  {
    assert WordEnd(w) == |w| by { WordEndAll(w); }
    assert w[..|w|] == w && w[|w|..] == [];
  }

  /** A string without whitespace is one run. */
  lemma {:induction false} WordEndAll(w: string)
    requires forall i :: 0 <= i < |w| ==> !IsSpace(w[i])
    ensures WordEnd(w) == |w|
    decreases |w|
  {
    if w != [] {
      WordEndAll(w[1..]);
    }
  }

  /** `WordEnd` sees no further than the first whitespace character, so a
      prefix reaching it has the same first run. */
  lemma WordEndPrefix(s: string, i: nat)
    requires WordEnd(s) <= i <= |s|
    ensures WordEnd(s[..i]) == WordEnd(s)
  {
    assert forall k :: 0 <= k < i ==> s[..i][k] == s[k];
  }

  /** Every whitespace character separates fields: `s.split()` is the split
      of the text before it followed by the split of the text after it. */
  lemma {:induction false} WordsAtSpace(s: string, i: nat)
    requires i < |s| && IsSpace(s[i])
    ensures Words(s) == Words(s[..i]) + Words(s[i + 1..])
    decreases |s|, 1
  {
    if IsSpace(s[0]) {
      WordsAtSpaceAfterSpace(s, i);
    } else {
      WordsAtSpaceAfterWord(s, i);
    }
  }

  /** `WordsAtSpace` when `s` starts with whitespace. */
  lemma {:induction false} WordsAtSpaceAfterSpace(s: string, i: nat)
    requires i < |s| && IsSpace(s[i]) && IsSpace(s[0])
    ensures Words(s) == Words(s[..i]) + Words(s[i + 1..])
    decreases |s|, 0
  {
    if i == 0 {
      assert s[..0] == [] && s[1..] == s[i + 1..];
    } else {
      WordsAtSpace(s[1..], i - 1);
      assert s[1..][..i - 1] == s[..i][1..];
      assert s[1..][i..] == s[i + 1..];
      assert s[..i][0] == s[0];
    }
  }

  /** `WordsAtSpace` when `s` starts with a word, which ends at or before `i`. */
  lemma {:induction false} WordsAtSpaceAfterWord(s: string, i: nat)
    requires i < |s| && IsSpace(s[i]) && !IsSpace(s[0])
    ensures Words(s) == Words(s[..i]) + Words(s[i + 1..])
    decreases |s|, 0
  {
    var n := WordEnd(s);
    assert 0 < n <= i;
    calc {
      Words(s);
      == { WordsFirst(s); }
      [s[..n]] + Words(s[n..]);
      == { WordsAtSpace(s[n..], i - n); Slices(s, n, i); }
      [s[..n]] + (Words(s[n..i]) + Words(s[i + 1..]));
      == { Assoc([s[..n]], Words(s[n..i]), Words(s[i + 1..])); }
      [s[..n]] + Words(s[n..i]) + Words(s[i + 1..]);
      == { WordsOfPrefix(s, i); }
      Words(s[..i]) + Words(s[i + 1..]);
    }
  }

  /** Cutting `s` before `i` keeps its first word, which ends at or before `i`. */
  lemma WordsOfPrefix(s: string, i: nat)
    requires s != [] && !IsSpace(s[0]) && WordEnd(s) <= i <= |s|
    ensures Words(s[..i]) == [s[..WordEnd(s)]] + Words(s[WordEnd(s)..i])
  {
    var n := WordEnd(s);
    assert s[..i][0] == s[0];
    WordEndPrefix(s, i);
    WordsFirst(s[..i]);
    assert s[..i][..n] == s[..n] && s[..i][n..] == s[n..i];
  }

  /** The first field of a string that starts with a word. */
  lemma WordsFirst(s: string)
    requires s != [] && !IsSpace(s[0])
    ensures Words(s) == [s[..WordEnd(s)]] + Words(s[WordEnd(s)..])
  {
  }

  /** Slices of slices, as `WordsAtSpaceAfterWord` takes them. */
  lemma Slices(s: string, n: nat, i: nat)
    requires n <= i < |s|
    ensures s[n..][..i - n] == s[n..i] && s[n..][i - n + 1..] == s[i + 1..]
  {
  }

  lemma Assoc(x: seq<string>, y: seq<string>, z: seq<string>)
    ensures x + (y + z) == x + y + z
  {
  }

  lemma {:induction false} WordEndOfWord(w: string, rest: string)
    requires forall i :: 0 <= i < |w| ==> !IsSpace(w[i])
    requires rest != [] && IsSpace(rest[0])
    ensures WordEnd(w + rest) == |w|
    decreases |w|
  {
    if w != [] {
      assert (w + rest)[1..] == w[1..] + rest;
      WordEndOfWord(w[1..], rest);
    } else {
      assert w + rest == rest;
    }
  }

  /** A word followed by a whitespace character splits off as the first field. */
  lemma WordsCons(w: string, c: char, rest: string)
    requires IsWord(w) && IsSpace(c)
    ensures Words(w + [c] + rest) == [w] + Words(rest)
  {
    var s := w + [c] + rest;
    assert s == w + ([c] + rest);
    WordEndOfWord(w, [c] + rest);
    assert s[..|w|] == w;
    assert s[|w|..] == [c] + rest;
    assert ([c] + rest)[1..] == rest;
  }

  // ---------------------------------------------------------------------
  // str.replace

  /** `pat` occurs in `s` at position `i`. */
  predicate OccursAt(pat: string, s: string, i: int)
  {
    0 <= i && i + |pat| <= |s| && s[i..i + |pat|] == pat
  }

  /** `s.replace(pat, rep)`: every occurrence of `pat`, scanned left to right
      and without overlap, replaced by `rep`. */
  function ReplaceAll(s: string, pat: string, rep: string): (r: string)
    requires pat != []
    ensures pat[0] !in s ==> r == s
    ensures rep == pat ==> r == s
    ensures |rep| == |pat| ==> |r| == |s|
    decreases |s|
  {
    if |s| < |pat| then s
    else if s[..|pat|] == pat then rep + ReplaceAll(s[|pat|..], pat, rep)
    else [s[0]] + ReplaceAll(s[1..], pat, rep)
  }

  /** An occurrence in `t` is one in `[c] + t`, one position later. */
  lemma OccursShift(pat: string, c: char, t: string, i: int)
    requires 0 <= i
    ensures OccursAt(pat, [c] + t, i + 1) <==> OccursAt(pat, t, i)
  {
    if i + |pat| <= |t| {
      assert ([c] + t)[i + 1..i + 1 + |pat|] == t[i..i + |pat|];
    }
  }

  /** The first occurrence of the pattern is replaced, and scanning goes on
      after it. */
  lemma {:induction false} ReplaceFirst(a: string, pat: string, b: string, rep: string)
    requires pat != []
    requires forall i :: 0 <= i < |a| ==> !OccursAt(pat, a + pat + b, i)
    ensures ReplaceAll(a + pat + b, pat, rep) == a + rep + ReplaceAll(b, pat, rep)
    decreases |a|, 1
  {
    if a == [] {
      assert a + pat + b == pat + b;
      ReplaceFront(b, pat, rep);
    } else {
      ReplaceFirstLater(a, pat, b, rep);
    }
  }

  /** A character that does not start an occurrence is kept. */
  lemma ReplaceKeep(c: char, t: string, pat: string, rep: string)
    requires pat != [] && !OccursAt(pat, [c] + t, 0)
    ensures ReplaceAll([c] + t, pat, rep) == [c] + ReplaceAll(t, pat, rep)
  {
    assert ([c] + t)[1..] == t;
  }

  /** Splitting off the first character of `a` in `a + x + y`. */
  lemma ConsSplit(a: string, x: string, y: string)
    requires a != []
    ensures a + x + y == [a[0]] + (a[1..] + x + y)
  {
    assert a == [a[0]] + a[1..];
  }

  /** The step of `ReplaceFirst`: `a`'s first character is kept in front of
      the replaced rest. */
  lemma ReplaceFirstStep(a: string, pat: string, b: string, rep: string)
    requires pat != [] && a != []
    requires !OccursAt(pat, [a[0]] + (a[1..] + pat + b), 0)
    requires ReplaceAll(a[1..] + pat + b, pat, rep) == a[1..] + rep + ReplaceAll(b, pat, rep)
    ensures ReplaceAll(a + pat + b, pat, rep) == a + rep + ReplaceAll(b, pat, rep)
  {
    ConsSplit(a, pat, b);
    ConsSplit(a, rep, ReplaceAll(b, pat, rep));
    ReplaceKeep(a[0], a[1..] + pat + b, pat, rep);
  }

  /** No occurrence before `a`'s end means none at its first character and
      none before the end of the rest of `a`. */
  lemma NoEarlierOccurrence(a: string, pat: string, b: string)
    requires a != []
    requires forall i :: 0 <= i < |a| ==> !OccursAt(pat, a + pat + b, i)
    ensures !OccursAt(pat, [a[0]] + (a[1..] + pat + b), 0)
    ensures forall i :: 0 <= i < |a[1..]| ==> !OccursAt(pat, a[1..] + pat + b, i)
  {
    var t := a[1..] + pat + b;
    assert a + pat + b == [a[0]] + t;
    forall i | 0 <= i < |a[1..]| ensures !OccursAt(pat, t, i) {
      assert !OccursAt(pat, a + pat + b, i + 1);
      OccursShift(pat, a[0], t, i);
    }
  }

  /** `ReplaceFirst` when some text precedes the occurrence: its first
      character cannot start one, so it is kept. */
  lemma {:induction false} ReplaceFirstLater(a: string, pat: string, b: string, rep: string)
    requires pat != [] && a != []
    requires forall i :: 0 <= i < |a| ==> !OccursAt(pat, a + pat + b, i)
    ensures ReplaceAll(a + pat + b, pat, rep) == a + rep + ReplaceAll(b, pat, rep)
    decreases |a|, 0
  {
    NoEarlierOccurrence(a, pat, b);
    ReplaceFirst(a[1..], pat, b, rep);
    ReplaceFirstStep(a, pat, b, rep);
  }

  /** Replacing a pattern that does not occur changes nothing. */
  lemma {:induction false} ReplaceAbsent(s: string, pat: string, rep: string)
    requires pat != []
    requires forall i :: !OccursAt(pat, s, i)
    ensures ReplaceAll(s, pat, rep) == s
    decreases |s|
  {
    if |s| >= |pat| {
      assert !OccursAt(pat, s, 0);
      forall i ensures !OccursAt(pat, s[1..], i) {
        if OccursAt(pat, s[1..], i) {
          assert s[1..][i..i + |pat|] == s[i + 1..i + 1 + |pat|];
          assert OccursAt(pat, s, i + 1);
        }
      }
      ReplaceAbsent(s[1..], pat, rep);
    }
  }

  /** An occurrence of the pattern at the front is replaced. */
  lemma ReplaceFront(b: string, pat: string, rep: string)
    requires pat != []
    ensures ReplaceAll(pat + b, pat, rep) == rep + ReplaceAll(b, pat, rep)
  {
    var s := pat + b;
    assert s[..|pat|] == pat && s[|pat|..] == b;
  }

  /** Text that cannot start the pattern passes through unchanged; with
      ReplaceFront this says how a template `a + pat + b` is rewritten. */
  lemma {:induction false} ReplaceAfterLiteral(a: string, b: string, pat: string, rep: string)
    requires pat != []
    requires pat[0] !in a
    ensures ReplaceAll(a + b, pat, rep) == a + ReplaceAll(b, pat, rep)
    decreases |a|
  {
    if a != [] {
      var t := a + b;
      assert t[0] == a[0];
      assert |t| >= |pat| ==> t[..|pat|][0] != pat[0];
      assert t[1..] == a[1..] + b;
      ReplaceAfterLiteral(a[1..], b, pat, rep);
      assert a + ReplaceAll(b, pat, rep) == [a[0]] + (a[1..] + ReplaceAll(b, pat, rep));
    } else {
      assert a + b == b;
    }
  }
}
