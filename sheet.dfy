/**
 * The sample sheet as `SampleSheet.__init__` reads it: one row per line with a
 * sample name and its four index/barcode sequences, collected into a
 * dictionary keyed by name, and the output file names derived from a template.
 */
module Sheet {
  import opened Wrappers
  import opened Text
  import opened Quadruple

  datatype SampleRow = SampleRow(name: string, codes: Barcodes)

  datatype RowError =
    | FieldCount(found: nat)  // unpacking `split()` into five names fails
    | IllegalLetter           // the assertion on the index/barcode letters fails

  /** The row (counted from 0) that stopped the reading, and why. */
  datatype SheetError = SheetError(line: nat, error: RowError)

  /** The letters an index or barcode may contain. */
  predicate LegalLetter(c: char)
  {
    c in "ACTGN-"
  }

  predicate AllLegal(s: string)
  {
    forall i :: 0 <= i < |s| ==> LegalLetter(s[i])
  }

  /** One sheet line: `[name, i1, i2, bc1, bc2] = line.strip().split()`, then
      every letter of `i1 + i2 + bc1 + bc2` must be legal. (`split()` already
      ignores surrounding whitespace, so the `strip()` changes nothing.) */
  function ParseRow(line: string): (r: Result<SampleRow, RowError>)
    ensures r.Success? <==>
      |Words(line)| == 5 && AllLegal(Words(line)[1] + Words(line)[2] + Words(line)[3] + Words(line)[4])
    ensures r.Failure? && |Words(line)| != 5 ==> r.error == FieldCount(|Words(line)|)
    ensures r.Failure? && |Words(line)| == 5 ==> r.error == IllegalLetter
    ensures r.Success? ==>
      var row := r.value;
      && IsWord(row.name) && IsWord(row.codes.i1) && IsWord(row.codes.i2) && IsWord(row.codes.bc1) && IsWord(row.codes.bc2)
      && AllLegal(row.codes.i1 + row.codes.i2 + row.codes.bc1 + row.codes.bc2)
      && Words(line) == [row.name, row.codes.i1, row.codes.i2, row.codes.bc1, row.codes.bc2]
  {
    var ws := Words(line);
    if |ws| != 5 then Failure(FieldCount(|ws|))
    else if !AllLegal(ws[1] + ws[2] + ws[3] + ws[4]) then Failure(IllegalLetter)
    else
      assert ws[0] in ws && ws[1] in ws && ws[2] in ws && ws[3] in ws && ws[4] in ws;
      Success(SampleRow(ws[0], Barcodes(ws[1], ws[2], ws[3], ws[4])))
  }

  /** A line holding the given fields separated by tabs. */
  function SheetLine(fields: seq<string>): string
  {
    if fields == [] then "\n"
    else if |fields| == 1 then fields[0] + "\n"
    else fields[0] + "\t" + SheetLine(fields[1..])
  }

  lemma {:induction false} WordsOfSheetLine(fields: seq<string>)
    requires forall f :: f in fields ==> IsWord(f)
    ensures Words(SheetLine(fields)) == fields
  {
    if fields == [] {
      assert Words("\n") == Words("");
    } else {
      assert fields[0] in fields;
      var rest := if |fields| == 1 then "" else SheetLine(fields[1..]);
      assert SheetLine(fields) == fields[0] + [if |fields| == 1 then '\n' else '\t'] + rest;
      WordsCons(fields[0], if |fields| == 1 then '\n' else '\t', rest);
      if |fields| > 1 {
        WordsOfSheetLine(fields[1..]);
      }
      assert fields == [fields[0]] + fields[1..];
    }
  }

  /** A row is the one the sheet line written for it parses back to, when its
      name is a single word and its sequences are non-empty and legal. */
  lemma ParseSheetLine(row: SampleRow)
    requires IsWord(row.name)
    requires row.codes.i1 != [] && row.codes.i2 != [] && row.codes.bc1 != [] && row.codes.bc2 != []
    requires AllLegal(row.codes.i1 + row.codes.i2 + row.codes.bc1 + row.codes.bc2)
    ensures ParseRow(SheetLine([row.name, row.codes.i1, row.codes.i2, row.codes.bc1, row.codes.bc2])) == Success(row)
  {
    var c := row.codes;
    var all := c.i1 + c.i2 + c.bc1 + c.bc2;
    var a, b, d := |c.i1|, |c.i1| + |c.i2|, |c.i1| + |c.i2| + |c.bc1|;
    assert all[0..a] == c.i1 && all[a..b] == c.i2 && all[b..d] == c.bc1 && all[d..] == c.bc2;
    LegalPieceIsWord(all, 0, c.i1);
    LegalPieceIsWord(all, a, c.i2);
    LegalPieceIsWord(all, b, c.bc1);
    LegalPieceIsWord(all, d, c.bc2);
    WordsOfSheetLine([row.name, c.i1, c.i2, c.bc1, c.bc2]);
  }

  /** A non-empty piece of a string of legal letters is a single word. */
  lemma LegalPieceIsWord(all: string, off: nat, s: string)
    requires AllLegal(all) && s != [] && off + |s| <= |all| && all[off..off + |s|] == s
    ensures IsWord(s)
  {
    forall i | 0 <= i < |s| ensures !IsSpace(s[i]) {
      assert s[i] == all[off + i];
    }
  }

  /** The rows of a sheet, or the first line that fails, as the reading loop
      aborts there. */
  function ParseRows(lines: seq<string>): (r: Result<seq<SampleRow>, SheetError>)
    ensures r.Success? ==> (|r.value| == |lines|
      && forall i :: 0 <= i < |lines| ==> ParseRow(lines[i]) == Success(r.value[i]))
    ensures r.Failure? ==> (r.error.line < |lines|
      && ParseRow(lines[r.error.line]) == Failure(r.error.error)
      && forall i :: 0 <= i < r.error.line ==> ParseRow(lines[i]).Success?)
  {
    if lines == [] then Success([])
    else
      var n := |lines| - 1;
      match ParseRows(lines[..n])
      case Failure(e) => Failure(e)
      case Success(rows) =>
        match ParseRow(lines[n])
        case Failure(e) => Failure(SheetError(n, e))
        case Success(row) => Success(rows + [row])
  }

  function NamesOf(rows: seq<SampleRow>): (names: seq<string>)
    ensures |names| == |rows| && forall i :: 0 <= i < |rows| ==> names[i] == rows[i].name
  {
    seq(|rows|, i requires 0 <= i < |rows| => rows[i].name)
  }

  predicate Distinct(names: seq<string>)
  {
    forall i, j :: 0 <= i < j < |names| ==> names[i] != names[j]
  }

  /** The keys of a Python dictionary after assigning to `names[0]`,
      `names[1]`, ... in turn: each name once, where it was first inserted. */
  function Keys(names: seq<string>): (keys: seq<string>)
    ensures Distinct(keys)
  {
    if names == [] then []
    else
      var keys := Keys(names[..|names| - 1]);
      var n := names[|names| - 1];
      if n in keys then keys else keys + [n]
  }

  /** Every name assigned becomes a key, and nothing else does. */
  lemma {:induction false} KeysMembers(names: seq<string>)
    ensures forall n :: n in Keys(names) <==> n in names
  {
    if names != [] {
      var init := names[..|names| - 1];
      KeysMembers(init);
      assert names == init + [names[|names| - 1]];
    }
  }

  /** With no repeated name, the dictionary keys are the names in sheet order. */
  lemma {:induction false} KeysOfDistinct(names: seq<string>)
    requires Distinct(names)
    ensures Keys(names) == names
  {
    if names != [] {
      var init := names[..|names| - 1];
      KeysOfDistinct(init);
      assert names[|names| - 1] !in init;
      assert init + [names[|names| - 1]] == names;
    }
  }

  /** `samples` after the reading loop: per name, the barcodes of the rows
      assigned to it, the last one winning. */
  function Table(rows: seq<SampleRow>): map<string, Barcodes>
  {
    if rows == [] then map[]
    else Table(rows[..|rows| - 1])[rows[|rows| - 1].name := rows[|rows| - 1].codes]
  }

  /** The dictionary has exactly the names of the rows as keys. */
  lemma {:induction false} TableKeys(rows: seq<SampleRow>)
    ensures forall n :: n in Table(rows) <==> n in NamesOf(rows)
  {
    if rows != [] {
      var n := |rows| - 1;
      TableKeys(rows[..n]);
      assert NamesOf(rows) == NamesOf(rows[..n]) + [rows[n].name];
    }
  }

  /** A row that no later row shares its name with sets the name's entry. */
  lemma {:induction false} TableLastWins(rows: seq<SampleRow>, i: nat)
    requires i < |rows|
    requires forall j :: i < j < |rows| ==> rows[j].name != rows[i].name
    ensures rows[i].name in Table(rows) && Table(rows)[rows[i].name] == rows[i].codes
  {
    var n := |rows| - 1;
    if i < n {
      TableLastWins(rows[..n], i);
    }
  }

  /** One more row: the dictionary gains its name, or overwrites the entry
      already there. */
  lemma TableStep(rows: seq<SampleRow>, i: nat)
    requires i < |rows|
    ensures Table(rows[..i + 1]) == Table(rows[..i])[rows[i].name := rows[i].codes]
  {
    assert rows[..i + 1][..i] == rows[..i];
  }

  lemma NamesStep(rows: seq<SampleRow>, i: nat)
    requires i < |rows|
    ensures NamesOf(rows[..i + 1]) == NamesOf(rows[..i]) + [rows[i].name]
  {
  }

  /** One more row: its name joins the keys at the end unless already present. */
  lemma KeysStep(rows: seq<SampleRow>, i: nat)
    requires i < |rows|
    ensures Keys(NamesOf(rows[..i + 1])) ==
      if rows[i].name in Keys(NamesOf(rows[..i])) then Keys(NamesOf(rows[..i]))
      else Keys(NamesOf(rows[..i])) + [rows[i].name]
  {
    NamesStep(rows, i);
    var ns := NamesOf(rows[..i + 1]);
    assert ns[..|ns| - 1] == NamesOf(rows[..i]);
  }

  /** `outputTemplate.replace("%name%", name).replace("%r%", read)`. */
  function OutputName(template: string, name: string, read: string): (r: string)
    ensures '%' !in template ==> r == template
  {
    ReplaceAll(ReplaceAll(template, "%name%", name), "%r%", read)
  }

  /** The text after a `%r%` placeholder holds no `%name%` placeholder. */
  lemma ReadMarkerSurvives(c: string, name: string)
    requires '%' !in c
    ensures ReplaceAll("%r%" + c, "%name%", name) == "%r%" + c
  {
    var pat := "%name%";
    ReplaceAfterLiteral(c, "", pat, name);
    assert c + "" == c;
    assert ReplaceAll("", pat, name) == "";
    var u := "%" + c;
    assert u[1..] == c;
    assert ReplaceAll(u, pat, name) == u by {
      if |u| >= 6 {
        assert u[5] == c[4];
        assert u[..6] != pat by { assert u[..6][5] != pat[5]; }
        assert ReplaceAll(u, pat, name) == [u[0]] + ReplaceAll(c, pat, name);
      }
    }
    ReplaceAfterLiteral("r", u, pat, name);
    var s := "%r%" + c;
    assert s[1..] == "r" + u;
    if |s| >= 6 {
      assert s[..6] != pat by { assert s[..6][1] != pat[1]; }
      assert ReplaceAll(s, pat, name) == [s[0]] + ReplaceAll(s[1..], pat, name);
    }
  }

  /** The first pass of `OutputNameOf`: `%name%` is replaced, `%r%` kept. */
  lemma NamePass(a: string, b: string, c: string, name: string)
    requires '%' !in a && '%' !in b && '%' !in c
    ensures ReplaceAll(a + "%name%" + b + "%r%" + c, "%name%", name) == a + name + b + ("%r%" + c)
  {
    var tail := "%r%" + c;
    assert a + "%name%" + b + "%r%" + c == a + ("%name%" + (b + tail));
    ReplaceAfterLiteral(a, "%name%" + (b + tail), "%name%", name);
    ReplaceFront(b + tail, "%name%", name);
    ReplaceAfterLiteral(b, tail, "%name%", name);
    ReadMarkerSurvives(c, name);
  }

  /** The second pass of `OutputNameOf`: `%r%` is replaced. */
  lemma ReadPass(front: string, c: string, read: string)
    requires '%' !in front && '%' !in c
    ensures ReplaceAll(front + ("%r%" + c), "%r%", read) == front + read + c
  {
    ReplaceAfterLiteral(front, "%r%" + c, "%r%", read);
    ReplaceFront(c, "%r%", read);
  }

  /** For a template `a%name%b%r%c` whose literal parts and sample name hold
      no `%`, the output name is `a`, the name, `b`, the read number, `c`. */
  lemma OutputNameOf(a: string, b: string, c: string, name: string, read: string)
    requires '%' !in a && '%' !in b && '%' !in c && '%' !in name
    ensures OutputName(a + "%name%" + b + "%r%" + c, name, read) == a + name + b + read + c
  {
    NamePass(a, b, c, name);
    var front := a + name + b;
    assert '%' !in front;
    ReadPass(front, c, read);
  }

  /** One piece of an output template: literal text, or a placeholder. */
  datatype Piece = Literal(text: string) | NameMark | ReadMark

  /** The template as the user writes it, placeholders spelled `%name%` and `%r%`. */
  function TemplateText(ps: seq<Piece>): string
  {
    if ps == [] then ""
    else
      (match ps[0]
       case Literal(t) => t
       case NameMark => "%name%"
       case ReadMark => "%r%")
      + TemplateText(ps[1..])
  }

  /** The file name the template stands for: each placeholder filled in. */
  function Filled(ps: seq<Piece>, name: string, read: string): string
  {
    if ps == [] then ""
    else
      (match ps[0]
       case Literal(t) => t
       case NameMark => name
       case ReadMark => read)
      + Filled(ps[1..], name, read)
  }

  /** The template after its name placeholders only are filled in. */
  function NameFilled(ps: seq<Piece>, name: string): string
  {
    if ps == [] then ""
    else
      (match ps[0]
       case Literal(t) => t
       case NameMark => name
       case ReadMark => "%r%")
      + NameFilled(ps[1..], name)
  }

  predicate StartsWith(s: string, p: string)
  {
    |p| <= |s| && s[..|p|] == p
  }

  /** A template the two `replace` calls fill in as meant: its literal text
      holds no `%`, and no `%r%` is followed by `name%`, which would complete
      a `%name%` with the `%r%`'s closing `%`. */
  predicate SafeTemplate(ps: seq<Piece>)
  {
    ps == [] ||
    (&& (ps[0].Literal? ==> '%' !in ps[0].text)
     && (ps[0] == ReadMark ==> !StartsWith(TemplateText(ps[1..]), "name%"))
     && SafeTemplate(ps[1..]))
  }

  /** A `%r%` not followed by `name%` survives the name pass. */
  lemma ReadMarkKept(rest: string, name: string)
    requires !StartsWith(rest, "name%")
    ensures ReplaceAll("%r%" + rest, "%name%", name) == "%r%" + ReplaceAll(rest, "%name%", name)
  {
    var pat := "%name%";
    var x0 := ['%'] + rest;
    var x1 := ['r'] + x0;
    var x2 := ['%'] + x1;
    calc {
      ReplaceAll("%r%" + rest, pat, name);
      { assert "%r%" + rest == x2; }
      ReplaceAll(x2, pat, name);
      { assert x2[1] == 'r'; ReplaceKeep('%', x1, pat, name); }
      ['%'] + ReplaceAll(x1, pat, name);
      { assert x1[0] == 'r'; ReplaceKeep('r', x0, pat, name); }
      ['%'] + (['r'] + ReplaceAll(x0, pat, name));
      { assert |x0| >= 6 ==> x0[1..6] == rest[..5];
        ReplaceKeep('%', rest, pat, name); }
      ['%'] + (['r'] + (['%'] + ReplaceAll(rest, pat, name)));
      "%r%" + ReplaceAll(rest, pat, name);
    }
  }

  /** The first `replace` of lines 92-93 fills in every name placeholder. */
  lemma {:induction false} NamePassAll(ps: seq<Piece>, name: string)
    requires SafeTemplate(ps)
    ensures ReplaceAll(TemplateText(ps), "%name%", name) == NameFilled(ps, name)
  {
    if ps != [] {
      var rest := TemplateText(ps[1..]);
      NamePassAll(ps[1..], name);
      match ps[0]
      case Literal(t) => ReplaceAfterLiteral(t, rest, "%name%", name);
      case NameMark => ReplaceFront(rest, "%name%", name);
      case ReadMark => ReadMarkKept(rest, name);
    }
  }

  /** The second `replace` fills in every read placeholder. */
  lemma {:induction false} ReadPassAll(ps: seq<Piece>, name: string, read: string)
    requires SafeTemplate(ps) && '%' !in name
    ensures ReplaceAll(NameFilled(ps, name), "%r%", read) == Filled(ps, name, read)
  {
    if ps != [] {
      var rest := NameFilled(ps[1..], name);
      ReadPassAll(ps[1..], name, read);
      match ps[0]
      case Literal(t) => ReplaceAfterLiteral(t, rest, "%r%", read);
      case NameMark => ReplaceAfterLiteral(name, rest, "%r%", read);
      case ReadMark => ReplaceFront(rest, "%r%", read);
    }
  }

  /** Any number of placeholders, in any order: for a safe template and a
      sample name without `%`, the output name is the template filled in. */
  lemma OutputNameFilled(ps: seq<Piece>, name: string, read: string)
    requires SafeTemplate(ps) && '%' !in name
    ensures OutputName(TemplateText(ps), name, read) == Filled(ps, name, read)
  {
    NamePassAll(ps, name);
    ReadPassAll(ps, name, read);
  }

  /** Why `SafeTemplate` excludes `name%` after `%r%`: the name pass finds
      `%name%` straddling the two, and the read placeholder is lost. */
  lemma ReadMarkSwallowed()
    ensures var ps := [ReadMark, Literal("name"), NameMark];
      && TemplateText(ps) == "%r%name%name%"
      && Filled(ps, "s", "1") == "1names"
      && OutputName(TemplateText(ps), "s", "1") == "%rsname%"
  {
    SwallowedTemplate();
    SwallowedText();
    NameStraddles();
    ReadLost();
  }

  lemma SwallowedText()
    ensures "%r" + "%name%" + "name%" == "%r%name%name%"
  {
  }

  /** The pieces of the template `%r%name%name%`, spelled out and filled in. */
  lemma SwallowedTemplate()
    ensures var ps := [ReadMark, Literal("name"), NameMark];
      && TemplateText(ps) == "%r" + "%name%" + "name%"
      && Filled(ps, "s", "1") == "1names"
  {
    var ps := [ReadMark, Literal("name"), NameMark];
    assert ps[1..] == [Literal("name"), NameMark] && ps[1..][1..] == [NameMark];
    assert TemplateText([NameMark]) == "%name%";
    assert TemplateText(ps[1..]) == "name" + "%name%";
    assert Filled([NameMark], "s", "1") == "s";
    assert Filled(ps[1..], "s", "1") == "name" + "s";
  }

  /** The name pass over `%r%name%name%` replaces the `%name%` that starts
      at the `%r%`'s closing `%`. */
  lemma NameStraddles()
    ensures ReplaceAll("%r" + "%name%" + "name%", "%name%", "s") == "%rsname%"
  {
    var t := "%r" + "%name%" + "name%";
    assert !OccursAt("%name%", t, 0) by { assert t[1] == 'r'; }
    assert !OccursAt("%name%", t, 1) by { assert t[1] == 'r'; }
    ReplaceFirst("%r", "%name%", "name%", "s");
  }

  /** `%rsname%` holds no `%r%`, so the read pass leaves it alone. */
  lemma ReadLost()
    ensures ReplaceAll("%rsname%", "%r%", "1") == "%rsname%"
  {
    var x := "rsname" + "%";
    ReplaceAfterLiteral("rsname", "%", "%r%", "1");
    assert "%rsname%" == ['%'] + x;
    assert !OccursAt("%r%", ['%'] + x, 0) by { assert (['%'] + x)[2] == 's'; }
    ReplaceKeep('%', x, "%r%", "1");
  }

  /** `reportStats`' total: the demultiplexed count of every name in `order`,
      one term per entry. */
  function ReportedTotal(order: seq<string>, counts: map<string, nat>): (r: nat)
    ensures (forall k :: 0 <= k < |order| ==> order[k] !in counts) ==> r == 0
    ensures forall k :: 0 <= k < |order| && order[k] in counts ==> counts[order[k]] <= r
  {
    if order == [] then 0
    else ReportedTotal(order[..|order| - 1], counts)
         + (if order[|order| - 1] in counts then counts[order[|order| - 1]] else 0)
  }

  /** As written, `reportStats` sums over `nameOrder`, which lists a name once
      per sheet row: with two rows named `s` and one read assigned to `s`,
      it reports two demultiplexed reads where the dictionary holds one. */
  lemma AsWrittenTotalOvercounts(codes: Barcodes)
    ensures var rows := [SampleRow("s", codes), SampleRow("s", codes)];
      var counts := map["s" := 1];
      && Keys(NamesOf(rows)) == ["s"]
      && ReportedTotal(NamesOf(rows), counts) == 2
      && ReportedTotal(Keys(NamesOf(rows)), counts) == 1
  {
    var rows := [SampleRow("s", codes), SampleRow("s", codes)];
    assert NamesOf(rows) == ["s", "s"];
    assert NamesOf(rows)[..1] == ["s"];
    assert Keys(["s"]) == ["s"] by {
      assert ["s"][..0] == [];
    }
    assert ["s", "s"][..1] == ["s"];
    assert ["s"][..0] == [];
  }

  /** A count stored under a name that `order` does not list does not
      change the reported total. */
  lemma {:induction false} ReportedTotalUnlisted(order: seq<string>, counts: map<string, nat>, n: string, v: nat)
    requires n !in order
    ensures ReportedTotal(order, counts[n := v]) == ReportedTotal(order, counts)
  {
    if order != [] {
      var k := |order| - 1;
      assert order[..k] + [order[k]] == order;
      ReportedTotalUnlisted(order[..k], counts, n, v);
    }
  }

  /** Without repeated names, summing over `nameOrder` and over the
      dictionary keys agree. */
  lemma ReportedTotalDistinct(rows: seq<SampleRow>, counts: map<string, nat>)
    requires Distinct(NamesOf(rows))
    ensures ReportedTotal(NamesOf(rows), counts) == ReportedTotal(Keys(NamesOf(rows)), counts)
  {
    KeysOfDistinct(NamesOf(rows));
  }

  /** The entries of `order` that repeat an earlier one: the rows whose
      name was already a key of `samples` when they were read. */
  function Repeats(order: seq<string>): seq<string>
  {
    if order == [] then []
    else
      var init := order[..|order| - 1];
      var n := order[|order| - 1];
      if n in init then Repeats(init) + [n] else Repeats(init)
  }

  /** One more entry adds its count. */
  lemma ReportedTotalSnoc(order: seq<string>, n: string, counts: map<string, nat>)
    ensures ReportedTotal(order + [n], counts) == ReportedTotal(order, counts) + (if n in counts then counts[n] else 0)
  {
    assert (order + [n])[..|order|] == order;
  }

  /** As written, `reportStats` counts every key once and, once more, every
      row that repeats a name. */
  lemma {:induction false} ReportedTotalAsWritten(order: seq<string>, counts: map<string, nat>)
    ensures ReportedTotal(order, counts) == ReportedTotal(Keys(order), counts) + ReportedTotal(Repeats(order), counts)
  {
    if order != [] {
      var k := |order| - 1;
      var init, n := order[..k], order[k];
      assert order == init + [n];
      ReportedTotalAsWritten(init, counts);
      KeysMembers(init);
      if n in init {
        ReportedTotalSnoc(Repeats(init), n, counts);
      } else {
        ReportedTotalSnoc(Keys(init), n, counts);
      }
    }
  }

  /** A later row that repeats a name is among the repeats. */
  lemma {:induction false} RepeatListed(order: seq<string>, i: nat, j: nat)
    requires i < j < |order| && order[i] == order[j]
    ensures order[j] in Repeats(order)
  {
    var k := |order| - 1;
    var init := order[..k];
    if j == k {
      assert init[i] == order[j];
    } else {
      RepeatListed(init, i, j);
    }
  }

  /** As written, a name on two rows is counted at least twice: the total
      exceeds the sum over the dictionary keys by at least its count. */
  lemma RepeatedNameCountedTwice(order: seq<string>, counts: map<string, nat>, i: nat, j: nat)
    requires i < j < |order| && order[i] == order[j] && order[j] in counts
    ensures ReportedTotal(order, counts) >= ReportedTotal(Keys(order), counts) + counts[order[j]]
  {
    ReportedTotalAsWritten(order, counts);
    RepeatListed(order, i, j);
    var rs := Repeats(order);
    var k :| 0 <= k < |rs| && rs[k] == order[j];
  }
}
