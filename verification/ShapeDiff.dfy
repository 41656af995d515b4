/** The table-driven diff of assertion shapes: fills a table of longest-common-subsequence lengths
    from the ends of both lists, then walks it from the front and prints the rows it passes. */
module ShapeDiff {
  import opened Arithmetic
  import opened DiffScript

  /** The value the table holds at (i, j). Its meaning is given by `LcsBounds` and `Diff`. */
  function Lcs(actual: seq<Line>, expected: seq<Line>, i: nat, j: nat): nat
    requires i <= |actual| && j <= |expected|
    decreases |actual| - i + |expected| - j
  {
    if i == |actual| || j == |expected| then 0
    else if actual[i] == expected[j] then Lcs(actual, expected, i + 1, j + 1) + 1
    else Max(Lcs(actual, expected, i + 1, j), Lcs(actual, expected, i, j + 1))
  }

  /** Dropping one line on either side loses at most one common line. */
  lemma {:induction false} LcsDrop(actual: seq<Line>, expected: seq<Line>, i: nat, j: nat)
    requires i <= |actual| && j <= |expected|
    ensures i < |actual| ==> Lcs(actual, expected, i + 1, j) <= Lcs(actual, expected, i, j) <= Lcs(actual, expected, i + 1, j) + 1
    ensures j < |expected| ==> Lcs(actual, expected, i, j + 1) <= Lcs(actual, expected, i, j) <= Lcs(actual, expected, i, j + 1) + 1
    decreases |actual| - i + |expected| - j
  {
    if i < |actual| && j < |expected| {
      LcsDrop(actual, expected, i + 1, j);
      LcsDrop(actual, expected, i, j + 1);
    }
  }

  /** No script between the two remainders keeps more lines than the table says. */
  lemma {:induction false} LcsBounds(actual: seq<Line>, expected: seq<Line>, i: nat, j: nat, script: Script)
    requires i <= |actual| && j <= |expected|
    requires Explains(script, actual[i..], expected[j..], false)
    ensures Commons(script) <= Lcs(actual, expected, i, j)
    decreases |script|
  {
    if script != [] {
      match script[0].operation
      case Common => LcsBounds(actual, expected, i + 1, j + 1, script[1..]);
      case Actual => LcsBounds(actual, expected, i + 1, j, script[1..]); LcsDrop(actual, expected, i, j);
      case Expected => LcsBounds(actual, expected, i, j + 1, script[1..]); LcsDrop(actual, expected, i, j);
    }
  }

  function RowText(row: DiffLine): string {
    match row.operation
    case Common => "\n  " + row.line
    case Actual => "\n+ " + row.line
    case Expected => "\n- " + row.line
  }

  /** The text printed for `rows` under a header. */
  function Text(header: string, rows: Script): string {
    if rows == [] then header else Text(header, rows[..|rows| - 1]) + RowText(rows[|rows| - 1])
  }

  lemma {:induction false} TextGrows(header: string, rows: Script)
    ensures |Text(header, rows)| >= |header| + 3 * |rows|
    decreases |rows|
  {
    if rows != [] { TextGrows(header, rows[..|rows| - 1]); }
  }

  predicate OneLine(line: Line) {
    '\n' !in line
  }

  /** Nothing printed is lost: rows of single lines can be told from their text. */
  lemma {:induction false} TextReadsBack(header: string, rows: Script, others: Script)
    requires forall i :: 0 <= i < |rows| ==> OneLine(rows[i].line)
    requires forall i :: 0 <= i < |others| ==> OneLine(others[i].line)
    requires Text(header, rows) == Text(header, others)
    ensures rows == others
    decreases |rows|
  {
    TextGrows(header, rows);
    TextGrows(header, others);
    if rows != [] && others != [] {
      var a, b := rows[|rows| - 1], others[|others| - 1];
      LastRow(Text(header, rows[..|rows| - 1]), a, Text(header, others[..|others| - 1]), b);
      TextReadsBack(header, rows[..|rows| - 1], others[..|others| - 1]);
      assert rows == rows[..|rows| - 1] + [a] && others == others[..|others| - 1] + [b];
    }
  }

  function LastBreak(text: string): int {
    if text == "" then -1 else if text[|text| - 1] == '\n' then |text| - 1 else LastBreak(text[..|text| - 1])
  }

  lemma {:induction false} BreakAt(text: string, at: nat)
    requires at < |text| && text[at] == '\n' && forall i :: at < i < |text| ==> text[i] != '\n'
    ensures LastBreak(text) == at
    decreases |text|
  {
    if at < |text| - 1 { BreakAt(text[..|text| - 1], at); }
  }

  lemma LastRow(s: string, a: DiffLine, t: string, b: DiffLine)
    requires OneLine(a.line) && OneLine(b.line) && s + RowText(a) == t + RowText(b)
    ensures s == t && a == b
  {
    hide RowText, LastBreak;
    RowBreak(s, a);
    RowBreak(t, b);
    SameParts(s, RowText(a), t, RowText(b));
    RowReads(a, b);
  }

  lemma RowBreak(s: string, a: DiffLine)
    requires OneLine(a.line)
    ensures LastBreak(s + RowText(a)) == |s|
  {
    hide LastBreak;
    var row := RowText(a);
    assert row[0] == '\n' && forall i :: 0 < i < |row| ==> row[i] != '\n';
    BreakAt(s + row, |s|);
  }

  lemma SameParts(s: string, x: string, t: string, y: string)
    requires s + x == t + y && |s| == |t|
    ensures s == t && x == y
  {
    assert s == (s + x)[..|s|] && t == (t + y)[..|t|];
    assert x == (s + x)[|s|..] && y == (t + y)[|t|..];
  }

  lemma RowReads(a: DiffLine, b: DiffLine)
    requires RowText(a) == RowText(b)
    ensures a == b
  {
    assert a.line == RowText(a)[3..] && b.line == RowText(b)[3..];
    assert RowText(a)[1] == RowText(b)[1];
  }

  /** The table is right on the borders and from (i, j) on, in the order the loops fill it. */
  ghost predicate TableUpTo(actual: seq<Line>, expected: seq<Line>, lengths: array2<nat>, i: nat, j: nat)
    requires lengths.Length0 == |actual| + 1 && lengths.Length1 == |expected| + 1
    reads lengths
  {
    forall a, b :: 0 <= a <= |actual| && 0 <= b <= |expected| &&
                   (a == |actual| || b == |expected| || a > i || (a == i && b >= j))
                   ==> lengths[a, b] == Lcs(actual, expected, a, b)
  }

  method FillTable(actual: seq<Line>, expected: seq<Line>) returns (lengths: array2<nat>)
    ensures fresh(lengths) && lengths.Length0 == |actual| + 1 && lengths.Length1 == |expected| + 1
    ensures TableUpTo(actual, expected, lengths, 0, 0)
  {
    lengths := new nat[|actual| + 1, |expected| + 1]((_, _) => 0);
    for i := |actual| downto 0
      invariant TableUpTo(actual, expected, lengths, i, 0)
    {
      for j := |expected| downto 0
        invariant TableUpTo(actual, expected, lengths, i, j)
      {
        lengths[i, j] :=
          if actual[i] == expected[j] then lengths[i + 1, j + 1] + 1
          else Max(lengths[i + 1, j], lengths[i, j + 1]);
      }
    }
  }

  /** Rows so far explain the consumed prefixes and have kept all the lines the table promised. */
  ghost predicate Walked(actual: seq<Line>, expected: seq<Line>, rows: Script, i: nat, j: nat)
  {
    && i <= |actual| && j <= |expected|
    && Explains(rows, actual[..i], expected[..j], false)
    && Commons(rows) + Lcs(actual, expected, i, j) == Lcs(actual, expected, 0, 0)
  }

  lemma WalkStep(actual: seq<Line>, expected: seq<Line>, rows: Script, i: nat, j: nat, row: DiffLine)
    requires Walked(actual, expected, rows, i, j)
    requires row.operation != Expected ==> i < |actual| && row.line == actual[i]
    requires row.operation != Actual ==> j < |expected| && row.line == expected[j]
    requires row.operation == Actual ==> Lcs(actual, expected, i + 1, j) == Lcs(actual, expected, i, j)
    requires row.operation == Expected ==> Lcs(actual, expected, i, j + 1) == Lcs(actual, expected, i, j)
    ensures Walked(actual, expected, rows + [row],
                   if row.operation == Expected then i else i + 1, if row.operation == Actual then j else j + 1)
  {
    var a := if row.operation == Expected then [] else [actual[i]];
    var e := if row.operation == Actual then [] else [expected[j]];
    ExplainsAppend(rows, actual[..i], expected[..j], [row], a, e, false);
    assert actual[..i] + a == actual[..if row.operation == Expected then i else i + 1];
    assert expected[..j] + e == expected[..if row.operation == Actual then j else j + 1];
  }

  /** Rows come out insertions first, and a removal is printed only where the other choice is worse. */
  ghost predicate Settled(actual: seq<Line>, expected: seq<Line>, rows: Script, i: nat, j: nat) {
    && i <= |actual| && j <= |expected| && InsertionsFirst(rows)
    && (rows != [] && rows[|rows| - 1].operation == Expected && i < |actual| ==>
          Lcs(actual, expected, i, j) > Lcs(actual, expected, i + 1, j))
  }

  lemma SettledStep(actual: seq<Line>, expected: seq<Line>, rows: Script, i: nat, j: nat, row: DiffLine)
    requires Settled(actual, expected, rows, i, j)
    requires row.operation != Expected ==> i < |actual|
    requires row.operation != Actual ==> j < |expected|
    requires row.operation == Actual ==> Lcs(actual, expected, i + 1, j) == Lcs(actual, expected, i, j)
    requires row.operation == Expected && i < |actual| ==>
               Lcs(actual, expected, i, j) == Lcs(actual, expected, i, j + 1) > Lcs(actual, expected, i + 1, j)
    ensures Settled(actual, expected, rows + [row],
                    if row.operation == Expected then i else i + 1, if row.operation == Actual then j else j + 1)
  {
    hide Lcs;
    if row.operation == Expected && i < |actual| { LcsDrop(actual, expected, i + 1, j); }
  }

  /** Appends one row, both to the script and to the printed text. */
  method Print(ghost header: string, rows: Script, output: string, row: DiffLine)
    returns (rows': Script, output': string)
    requires output == Text(header, rows)
    ensures rows' == rows + [row] && output' == Text(header, rows')
  {
    rows' := rows + [row];
    output' := output + RowText(row);
    assert rows'[..|rows|] == rows;
  }

  method Walk(header: string, actual: seq<Line>, expected: seq<Line>, lengths: array2<nat>)
    returns (rows: Script, output: string, i: nat, j: nat)
    requires lengths.Length0 == |actual| + 1 && lengths.Length1 == |expected| + 1
    requires TableUpTo(actual, expected, lengths, 0, 0)
    ensures Walked(actual, expected, rows, i, j) && (i == |actual| || j == |expected|)
    ensures output == Text(header, rows) && Settled(actual, expected, rows, i, j)
  {
    rows, output, i, j := [], header, 0, 0;
    while i < |actual| && j < |expected|
      invariant Walked(actual, expected, rows, i, j) && output == Text(header, rows)
      invariant Settled(actual, expected, rows, i, j)
      decreases |actual| - i + |expected| - j
    {
      if actual[i] == expected[j] {
        WalkStep(actual, expected, rows, i, j, DiffLine(Common, actual[i]));
        SettledStep(actual, expected, rows, i, j, DiffLine(Common, actual[i]));
        rows, output := Print(header, rows, output, DiffLine(Common, actual[i]));
        i, j := i + 1, j + 1;
      } else if lengths[i + 1, j] >= lengths[i, j + 1] {
        WalkStep(actual, expected, rows, i, j, DiffLine(Actual, actual[i]));
        SettledStep(actual, expected, rows, i, j, DiffLine(Actual, actual[i]));
        rows, output := Print(header, rows, output, DiffLine(Actual, actual[i]));
        i := i + 1;
      } else {
        WalkStep(actual, expected, rows, i, j, DiffLine(Expected, expected[j]));
        SettledStep(actual, expected, rows, i, j, DiffLine(Expected, expected[j]));
        rows, output := Print(header, rows, output, DiffLine(Expected, expected[j]));
        j := j + 1;
      }
    }
  }

  /** What is left on the one side that is not used up. */
  method PrintRest(ghost header: string, actual: seq<Line>, expected: seq<Line>, walked: Script, text: string, i0: nat, j0: nat)
    returns (rows: Script, output: string)
    requires Walked(actual, expected, walked, i0, j0) && Settled(actual, expected, walked, i0, j0)
    requires i0 == |actual| || j0 == |expected|
    requires text == Text(header, walked)
    ensures Walked(actual, expected, rows, |actual|, |expected|) && InsertionsFirst(rows)
    ensures output == Text(header, rows)
  {
    hide Walked, Text;
    var i, j := i0, j0;
    rows, output := walked, text;
    while i < |actual|
      invariant i <= |actual| && j <= |expected| && (i == |actual| || j == |expected|)
      invariant Walked(actual, expected, rows, i, j) && Settled(actual, expected, rows, i, j)
      invariant output == Text(header, rows)
    {
      WalkStep(actual, expected, rows, i, j, DiffLine(Actual, actual[i]));
      SettledStep(actual, expected, rows, i, j, DiffLine(Actual, actual[i]));
      rows, output := Print(header, rows, output, DiffLine(Actual, actual[i]));
      i := i + 1;
    }
    while j < |expected|
      invariant i == |actual| && j <= |expected|
      invariant Walked(actual, expected, rows, i, j) && Settled(actual, expected, rows, i, j)
      invariant output == Text(header, rows)
    {
      WalkStep(actual, expected, rows, i, j, DiffLine(Expected, expected[j]));
      SettledStep(actual, expected, rows, i, j, DiffLine(Expected, expected[j]));
      rows, output := Print(header, rows, output, DiffLine(Expected, expected[j]));
      j := j + 1;
    }
  }

  lemma WalkedIsLongest(actual: seq<Line>, expected: seq<Line>, rows: Script)
    requires Walked(actual, expected, rows, |actual|, |expected|)
    ensures Explains(rows, actual, expected, false) && MostCommons(rows, actual, expected, false)
  {
    assert actual[..|actual|] == actual && expected[..|expected|] == expected;
    assert actual[0..] == actual && expected[0..] == expected;
    forall other: Script | Explains(other, actual, expected, false) ensures Commons(other) <= Commons(rows) {
      LcsBounds(actual, expected, 0, 0, other);
    }
  }

  /** The engine. `rows` is what `output` prints: it explains the two lists exactly and keeps a
      longest common subsequence of them, with insertions before removals. */
  method Diff(header: string, actual: seq<Line>, expected: seq<Line>) returns (rows: Script, output: string)
    ensures Explains(rows, actual, expected, false)
    ensures MostCommons(rows, actual, expected, false)
    ensures InsertionsFirst(rows)
    ensures output == Text(header, rows) + "\n"
  {
    hide Walked, Explains, MostCommons, Text, Settled;
    var lengths := FillTable(actual, expected);
    var i, j;
    rows, output, i, j := Walk(header, actual, expected, lengths);
    rows, output := PrintRest(header, actual, expected, rows, output, i, j);
    WalkedIsLongest(actual, expected, rows);
    output := output + "\n";
  }
}
