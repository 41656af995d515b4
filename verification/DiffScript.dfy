/** Edit scripts between two lists of lines, shared by the two assertion diff engines.

    A script lists, in print order, lines that are common to both sides, lines only in
    `actual` (printed with "+") and lines only in `expected` (printed with "-").
    `Explains` is the meaning of a script; it mentions no diff algorithm. */
module DiffScript {

  type Line = string

  datatype Operation = Common | Actual | Expected

  datatype DiffLine = DiffLine(operation: Operation, line: Line)

  type Script = seq<DiffLine>

  predicate EndsWithComma(s: Line) {
    s != [] && s[|s| - 1] == ','
  }

  /** `left` is `right` followed by exactly one more comma. */
  predicate OneMoreComma(left: Line, right: Line) {
    EndsWithComma(left) && left[..|left| - 1] == right
  }

  /** Line equality of the Myers engine: exact, or up to one trailing comma in comma mode. */
  predicate LinesEqual(left: Line, right: Line, comma: bool) {
    left == right || (comma && (OneMoreComma(left, right) || OneMoreComma(right, left)))
  }

  /** The text printed for a common pair. */
  function CommonLine(actual: Line, expected: Line, comma: bool): Line {
    if comma && !EndsWithComma(actual) then expected else actual
  }

  /** In comma mode the printed line has a trailing comma exactly if one of the pair has. It is the
      longer of the two unless the actual line already ends in a comma and the other in one more. */
  lemma CommonKeepsComma(actual: Line, expected: Line, comma: bool)
    requires LinesEqual(actual, expected, comma)
    ensures var line := CommonLine(actual, expected, comma);
            && (line == actual || line == expected)
            && (EndsWithComma(line) <==> EndsWithComma(actual) || EndsWithComma(expected))
            && (|line| < |actual| || |line| < |expected| <==> EndsWithComma(actual) && OneMoreComma(expected, actual))
  {
  }

  /** `script` turns `expected` into `actual`: read from the front it consumes both lists exactly. */
  predicate Explains(script: Script, actual: seq<Line>, expected: seq<Line>, comma: bool)
    decreases |script|
  {
    if script == [] then actual == [] && expected == []
    else
      var row := script[0];
      match row.operation
      case Common =>
        && actual != [] && expected != []
        && LinesEqual(actual[0], expected[0], comma)
        && row.line == CommonLine(actual[0], expected[0], comma)
        && Explains(script[1..], actual[1..], expected[1..], comma)
      case Actual =>
        && actual != [] && row.line == actual[0]
        && Explains(script[1..], actual[1..], expected, comma)
      case Expected =>
        && expected != [] && row.line == expected[0]
        && Explains(script[1..], actual, expected[1..], comma)
  }

  /** No "-" row stands directly before a "+" row. */
  predicate InsertionsFirst(script: Script) {
    forall i :: 0 <= i < |script| - 1 ==> !(script[i].operation == Expected && script[i + 1].operation == Actual)
  }

  /** How many rows are insertions or removals. */
  function Edits(script: Script): nat {
    if script == [] then 0
    else (if script[0].operation == Common then 0 else 1) + Edits(script[1..])
  }

  /** How many rows are kept on both sides. */
  function Commons(script: Script): nat {
    if script == [] then 0
    else (if script[0].operation == Common then 1 else 0) + Commons(script[1..])
  }

  /** Lines a reader sees on one side: the common ones and those of `side`. */
  function Side(script: Script, side: Operation): seq<Line> {
    if script == [] then []
    else (if script[0].operation in {Common, side} then [script[0].line] else []) + Side(script[1..], side)
  }

  ghost predicate SameUpToComma(left: seq<Line>, right: seq<Line>, comma: bool) {
    |left| == |right| && forall i :: 0 <= i < |left| ==> LinesEqual(left[i], right[i], comma)
  }

  /** No script between the same two lists has fewer edits. */
  ghost predicate FewestEdits(script: Script, actual: seq<Line>, expected: seq<Line>, comma: bool) {
    forall other: Script :: Explains(other, actual, expected, comma) ==> Edits(script) <= Edits(other)
  }

  /** No script between the same two lists keeps more common lines. */
  ghost predicate MostCommons(script: Script, actual: seq<Line>, expected: seq<Line>, comma: bool) {
    forall other: Script :: Explains(other, actual, expected, comma) ==> Commons(other) <= Commons(script)
  }

  /** Both inputs can be read back from a script, exactly or up to one trailing comma per line. */
  lemma {:induction false} ScriptRestores(script: Script, actual: seq<Line>, expected: seq<Line>, comma: bool)
    requires Explains(script, actual, expected, comma)
    ensures SameUpToComma(Side(script, Actual), actual, comma)
    ensures SameUpToComma(Side(script, Expected), expected, comma)
    ensures !comma ==> Side(script, Actual) == actual && Side(script, Expected) == expected
    decreases |script|
  {
    if script != [] {
      var actual', expected' := actual, expected;
      if script[0].operation != Expected { actual' := actual[1..]; assert actual == [actual[0]] + actual'; }
      if script[0].operation != Actual { expected' := expected[1..]; assert expected == [expected[0]] + expected'; }
      ScriptRestores(script[1..], actual', expected', comma);
    }
  }

  /** Every line is either kept, which uses up one of each side, or edited. */
  lemma {:induction false} EditsAndCommons(script: Script, actual: seq<Line>, expected: seq<Line>, comma: bool)
    requires Explains(script, actual, expected, comma)
    ensures Edits(script) + 2 * Commons(script) == |actual| + |expected|
    decreases |script|
  {
    if script != [] {
      EditsAndCommons(script[1..],
                      if script[0].operation != Expected then actual[1..] else actual,
                      if script[0].operation != Actual then expected[1..] else expected, comma);
    }
  }

  /** Fewest edits and most common lines are the same optimum, so any two engines that reach
      one each keep equally many lines. */
  lemma OptimaAgree(script: Script, other: Script, actual: seq<Line>, expected: seq<Line>, comma: bool)
    requires Explains(script, actual, expected, comma) && Explains(other, actual, expected, comma)
    ensures FewestEdits(script, actual, expected, comma) <==> MostCommons(script, actual, expected, comma)
    ensures FewestEdits(script, actual, expected, comma) && MostCommons(other, actual, expected, comma)
            ==> Commons(script) == Commons(other) && Edits(script) == Edits(other)
  {
    forall s: Script | Explains(s, actual, expected, comma)
      ensures Edits(s) + 2 * Commons(s) == |actual| + |expected|
    {
      EditsAndCommons(s, actual, expected, comma);
    }
  }

  lemma {:induction false} ExplainsAppend(script: Script, actual: seq<Line>, expected: seq<Line>,
                                          tail: Script, actual': seq<Line>, expected': seq<Line>, comma: bool)
    requires Explains(script, actual, expected, comma)
    requires Explains(tail, actual', expected', comma)
    ensures Explains(script + tail, actual + actual', expected + expected', comma)
    ensures Commons(script + tail) == Commons(script) + Commons(tail)
    decreases |script|
  {
    hide LinesEqual, CommonLine;
    if script == [] {
      assert script + tail == tail && actual + actual' == actual' && expected + expected' == expected';
    } else {
      var a := if script[0].operation != Expected then actual[1..] else actual;
      var e := if script[0].operation != Actual then expected[1..] else expected;
      ExplainsAppend(script[1..], a, e, tail, actual', expected', comma);
      assert (script + tail)[1..] == script[1..] + tail;
      assert script[0].operation != Expected ==> (actual + actual')[1..] == a + actual';
      assert script[0].operation != Actual ==> (expected + expected')[1..] == e + expected';
    }
  }
}
