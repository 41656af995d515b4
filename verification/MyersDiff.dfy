/** The Myers O(ND) line diff of the assertion messages: a forward search that keeps, for every
    diagonal, the furthest point reached with `depth` edits, and a backtrack through the recorded
    frontiers. Correctness is stated against `DiffScript.Explains` and minimality over all scripts. */
module MyersDiff {
  import opened DiffScript
  import opened Options

  /** The two inputs. Moving right consumes a line of `actual`, moving down one of `expected`. */
  datatype Problem = Problem(actual: seq<Line>, expected: seq<Line>, comma: bool) {

    predicate Match(x: int, y: int) {
      0 <= x < |actual| && 0 <= y < |expected| && LinesEqual(actual[x], expected[y], comma)
    }

    /** The lines where diagonal k leaves x match. */
    predicate MatchOn(k: int, x: int) {
      Match(x, x - k)
    }

    /** (x, y) can be reached from (0, 0) with exactly d edits. Edit moves may leave the grid, as
        the frontier does; diagonal moves may not. */
    predicate Reach(d: int, x: int, y: int)
      decreases x + y
    {
      && 0 <= x && 0 <= y && 0 <= d
      && if x == 0 && y == 0 then d == 0
         else
           || (x > 0 && Reach(d - 1, x - 1, y))
           || (y > 0 && Reach(d - 1, x, y - 1))
           || (Match(x - 1, y - 1) && Reach(d, x - 1, y - 1))
    }

    /** x ends the run of matching lines that starts at x0 on diagonal k. */
    ghost predicate SnakeEnd(x0: int, k: int, x: int) {
      x0 <= x && (forall i :: x0 <= i < x ==> MatchOn(k, i)) && !MatchOn(k, x)
    }

    /** Entry k of `next` is where level d ends on diagonal k when it starts from frontier v. */
    ghost predicate LevelOn(v: seq<int>, max: int, d: int, k: int, x: int) {
      Shape(v, max, d) && -d <= k <= d && SnakeEnd(Start(v, max, d, k), k, x)
    }

    ghost predicate LevelOf(v: seq<int>, max: int, d: int, next: seq<int>) {
      && Shape(v, max, d) && |next| == |v|
      && forall k :: OnLevel(d, k) ==> LevelOn(v, max, d, k, next[k + max])
    }

    /** v holds, for every diagonal of level d, exactly the furthest point d edits reach. */
    ghost predicate Furthest(v: seq<int>, max: int, d: int) {
      && Shape(v, max, d)
      && (forall k :: OnLevel(d, k) ==> Reach(d, v[k + max], v[k + max] - k))
      && (forall x, y :: Reach(d, x, y) ==> OnLevel(d, x - y) && x <= v[x - y + max])
    }

    /** v is the frontier that level d reads. */
    ghost predicate Ready(v: seq<int>, max: int, d: int) {
      && Shape(v, max, d)
      && if d == 0 then forall i :: 0 <= i < |v| ==> v[i] == 0 else Furthest(v, max, d - 1)
    }

    ghost predicate Unreached(level: int) {
      forall d :: 0 <= d < level ==> !Reach(d, |actual|, |expected|)
    }

    /** The recorded frontiers: each is what its level reads, and each level leads to the next. */
    ghost predicate Traced(trace: seq<seq<int>>, max: int) {
      && (forall l :: 0 <= l < |trace| ==> ReadyAt(trace, max, l))
      && (forall l :: 0 < l < |trace| ==> LinkedAt(trace, max, l))
    }

    ghost predicate ReadyAt(trace: seq<seq<int>>, max: int, l: int)
      requires 0 <= l < |trace|
    {
      Ready(trace[l], max, l)
    }

    ghost predicate LinkedAt(trace: seq<seq<int>>, max: int, l: int)
      requires 0 < l < |trace|
    {
      LevelOf(trace[l - 1], max, l - 1, trace[l])
    }
  }

  predicate Shape(v: seq<int>, max: int, d: int) {
    1 <= max && |v| == 2 * max + 1 && 0 <= d <= max
  }

  predicate OnLevel(d: int, k: int) {
    -d <= k <= d && (k + d) % 2 == 0
  }

  /** Where level d starts on diagonal k: one step down or right from the better neighbour. */
  function Start(v: seq<int>, max: int, d: int, k: int): int
    requires Shape(v, max, d) && -d <= k <= d
  {
    if k == -d || (k != d && v[k - 1 + max] < v[k + 1 + max]) then v[k + 1 + max] else v[k - 1 + max] + 1
  }

  lemma {:induction false} ReachOnLevel(p: Problem, d: int, x: int, y: int)
    requires p.Reach(d, x, y)
    ensures OnLevel(d, x - y)
    decreases x + y
  {
    if x == 0 && y == 0 {
    } else if x > 0 && p.Reach(d - 1, x - 1, y) {
      ReachOnLevel(p, d - 1, x - 1, y);
    } else if y > 0 && p.Reach(d - 1, x, y - 1) {
      ReachOnLevel(p, d - 1, x, y - 1);
    } else {
      ReachOnLevel(p, d, x - 1, y - 1);
    }
  }

  lemma {:induction false} SnakeReaches(p: Problem, d: int, x0: int, k: int, x: int)
    requires p.Reach(d, x0, x0 - k) && x0 <= x
    requires forall i :: x0 <= i < x ==> p.MatchOn(k, i)
    ensures p.Reach(d, x, x - k)
    decreases x
  {
    if x0 < x {
      SnakeReaches(p, d, x0, k, x - 1);
      assert p.MatchOn(k, x - 1);
    }
  }

  lemma StartReached(p: Problem, v: seq<int>, max: int, d: int, k: int)
    requires p.Ready(v, max, d) && OnLevel(d, k)
    ensures p.Reach(d, Start(v, max, d, k), Start(v, max, d, k) - k)
  {
    if d > 0 {
      if k == -d || (k != d && v[k - 1 + max] < v[k + 1 + max]) {
        assert OnLevel(d - 1, k + 1);
      } else {
        assert OnLevel(d - 1, k - 1);
      }
    }
  }

  /** Nothing reached with d edits on diagonal k lies beyond the end of the level's snake. */
  lemma {:induction false} SnakeIsFurthest(p: Problem, v: seq<int>, max: int, d: int, k: int, end: int, x: int, y: int)
    requires p.Ready(v, max, d) && OnLevel(d, k) && p.LevelOn(v, max, d, k, end)
    requires p.Reach(d, x, y) && x - y == k
    ensures x <= end
    decreases x + y
  {
    if x == 0 && y == 0 {
    } else if x > 0 && p.Reach(d - 1, x - 1, y) {
      ReachOnLevel(p, d - 1, x - 1, y);
      assert x - 1 <= v[x - 1 - y + max];
    } else if y > 0 && p.Reach(d - 1, x, y - 1) {
      ReachOnLevel(p, d - 1, x, y - 1);
      assert x <= v[x - (y - 1) + max];
    } else {
      SnakeIsFurthest(p, v, max, d, k, end, x - 1, y - 1);
    }
  }

  lemma LevelIsFurthest(p: Problem, v: seq<int>, max: int, d: int, next: seq<int>)
    requires p.Ready(v, max, d) && p.LevelOf(v, max, d, next)
    ensures p.Furthest(next, max, d)
  {
    forall k | OnLevel(d, k) ensures p.Reach(d, next[k + max], next[k + max] - k) {
      StartReached(p, v, max, d, k);
      assert p.LevelOn(v, max, d, k, next[k + max]);
      SnakeReaches(p, d, Start(v, max, d, k), k, next[k + max]);
    }
    forall x, y | p.Reach(d, x, y) ensures OnLevel(d, x - y) && x <= next[x - y + max] {
      ReachOnLevel(p, d, x, y);
      assert p.LevelOn(v, max, d, x - y, next[x - y + max]);
      SnakeIsFurthest(p, v, max, d, x - y, next[x - y + max], x, y);
    }
  }

  /** A path that leaves the grid past (n, m) has already paid one edit for every step outside:
      the corner itself was reached that much earlier. */
  lemma {:induction false} CornerCameFirst(p: Problem, d: int, x: int, y: int)
    requires p.Reach(d, x, y) && x >= |p.actual| && y >= |p.expected|
    ensures p.Reach(d - (x - |p.actual|) - (y - |p.expected|), |p.actual|, |p.expected|)
    decreases x + y
  {
    var n, m := |p.actual|, |p.expected|;
    if x == n && y == m {
    } else if x > 0 && p.Reach(d - 1, x - 1, y) {
      if x > n { CornerCameFirst(p, d - 1, x - 1, y); } else { StepsDown(p, d - 1, n - 1, m, y); }
    } else if y > 0 && p.Reach(d - 1, x, y - 1) {
      if y > m { CornerCameFirst(p, d - 1, x, y - 1); } else { StepsRight(p, d - 1, n, m - 1, x); }
    }
  }

  /** Below the grid only edits lead downwards. */
  lemma {:induction false} StepsDown(p: Problem, d: int, x: int, m: int, y: int)
    requires p.Reach(d, x, y) && y >= m == |p.expected| && 0 <= x
    ensures p.Reach(d - (y - m), x, m)
    decreases x + y
  {
    if y > m {
      if x > 0 && p.Reach(d - 1, x - 1, y) {
        StepsDown(p, d - 1, x - 1, m, y);
      } else {
        StepsDown(p, d - 1, x, m, y - 1);
      }
    }
  }

  /** Right of the grid only edits lead rightwards. */
  lemma {:induction false} StepsRight(p: Problem, d: int, n: int, y: int, x: int)
    requires p.Reach(d, x, y) && x >= n == |p.actual| && 0 <= y
    ensures p.Reach(d - (x - n), n, y)
    decreases x + y
  {
    if x > n {
      if y > 0 && p.Reach(d - 1, x, y - 1) {
        StepsRight(p, d - 1, n, y - 1, x);
      } else {
        StepsRight(p, d - 1, n, y, x - 1);
      }
    }
  }

  lemma {:induction false} EditsOnlyReach(p: Problem, x: nat, y: nat)
    ensures p.Reach(x + y, x, y)
    decreases x + y
  {
    if x > 0 { EditsOnlyReach(p, x - 1, y); } else if y > 0 { EditsOnlyReach(p, x, y - 1); }
  }

  /** Every script is a path: it costs as many edits as it has edited rows. */
  lemma {:induction false} ScriptIsPath(p: Problem, script: Script, d: int, x: nat, y: nat)
    requires x <= |p.actual| && y <= |p.expected| && p.Reach(d, x, y)
    requires Explains(script, p.actual[x..], p.expected[y..], p.comma)
    ensures p.Reach(d + Edits(script), |p.actual|, |p.expected|)
    decreases |script|
  {
    if script != [] {
      match script[0].operation
      case Common =>
        assert p.Match(x, y);
        assert p.Reach(d, x + 1, y + 1);
        ScriptIsPath(p, script[1..], d, x + 1, y + 1);
      case Actual =>
        assert p.Reach(d + 1, x + 1, y);
        ScriptIsPath(p, script[1..], d + 1, x + 1, y);
      case Expected =>
        assert p.Reach(d + 1, x, y + 1);
        ScriptIsPath(p, script[1..], d + 1, x, y + 1);
    }
  }

  lemma TracePush(p: Problem, trace: seq<seq<int>>, max: int, v: seq<int>)
    requires p.Traced(trace, max) && p.Ready(v, max, |trace|)
    requires trace != [] ==> p.LevelOf(trace[|trace| - 1], max, |trace| - 1, v)
    ensures p.Traced(trace + [v], max)
  {
    var longer := trace + [v];
    forall l | 0 <= l < |longer| ensures p.ReadyAt(longer, max, l) {
      if l < |trace| { assert p.ReadyAt(trace, max, l) && longer[l] == trace[l]; }
    }
    forall l | 0 < l < |longer| ensures p.LinkedAt(longer, max, l) {
      if l < |trace| { assert p.LinkedAt(trace, max, l) && longer[l] == trace[l] && longer[l - 1] == trace[l - 1]; }
    }
  }

  function Reversed(s: Script): (r: Script) {
    if s == [] then [] else [s[|s| - 1]] + Reversed(s[..|s| - 1])
  }

  lemma ReversedPush(s: Script, row: DiffLine)
    ensures Reversed(s + [row]) == [row] + Reversed(s)
  {
    assert (s + [row])[..|s|] == s;
  }

  lemma {:induction false} ReversedAt(s: Script, i: nat)
    requires i < |s|
    ensures |Reversed(s)| == |s| && Reversed(s)[i] == s[|s| - 1 - i]
    decreases |s|
  {
    if |s| > 1 { ReversedAt(s[..|s| - 1], if i > 0 then i - 1 else 0); }
  }

  method FollowSnake(p: Problem, x0: int, k: int) returns (x: int)
    requires 0 <= x0 && 0 <= x0 - k
    ensures p.SnakeEnd(x0, k, x)
  {
    x := x0;
    var y := x - k;
    while x < |p.actual| && y < |p.expected| && LinesEqual(p.actual[x], p.expected[y], p.comma)
      invariant x0 <= x && y == x - k
      invariant forall i :: x0 <= i < x ==> p.MatchOn(k, i)
    {
      x := x + 1;
      y := y + 1;
    }
  }

  /** Level d has been explored on the diagonals below `upto` and has not passed the corner there. */
  ghost predicate Explored(p: Problem, v: seq<int>, max: int, d: int, next: seq<int>, upto: int)
    requires Shape(v, max, d)
  {
    && |next| == |v|
    && (forall k :: OnLevel(d, k) && k < upto ==> p.LevelOn(v, max, d, k, next[k + max]) && !PastCorner(p, k, next[k + max]))
    && (forall k :: -max <= k <= max && !(OnLevel(d, k) && k < upto) ==> next[k + max] == v[k + max])
  }

  ghost predicate PastCorner(p: Problem, k: int, x: int) {
    x >= |p.actual| && x - k >= |p.expected|
  }

  lemma ExploredStart(p: Problem, v: seq<int>, max: int, d: int)
    requires Shape(v, max, d)
    ensures Explored(p, v, max, d, v, -d)
  {
  }

  lemma ExploredReads(p: Problem, v: seq<int>, max: int, d: int, next: seq<int>, k: int)
    requires Shape(v, max, d) && Explored(p, v, max, d, next, k) && OnLevel(d, k)
    ensures Start(next, max, d, k) == Start(v, max, d, k)
  {
    assert !OnLevel(d, k - 1) && !OnLevel(d, k + 1);
    assert k != -d ==> next[(k - 1) + max] == v[(k - 1) + max];
    assert k != d || d == 0 ==> next[(k + 1) + max] == v[(k + 1) + max];
  }

  lemma ExploredStep(p: Problem, v: seq<int>, max: int, d: int, next: seq<int>, k: int, x: int)
    requires Shape(v, max, d) && Explored(p, v, max, d, next, k) && OnLevel(d, k)
    requires p.LevelOn(v, max, d, k, x) && !PastCorner(p, k, x)
    ensures Explored(p, v, max, d, next[k + max := x], k + 2)
  {
  }

  /** A point past both ends on an otherwise unfinished search is the corner itself. */
  lemma PastCornerIsCorner(p: Problem, v: seq<int>, max: int, d: int, k: int, x: int)
    requires p.Ready(v, max, d) && OnLevel(d, k) && p.LevelOn(v, max, d, k, x)
    requires PastCorner(p, k, x) && p.Unreached(d)
    ensures x == |p.actual| && x - k == |p.expected| && p.Reach(d, x, x - k)
  {
    StartReached(p, v, max, d, k);
    SnakeReaches(p, d, Start(v, max, d, k), k, x);
    CornerCameFirst(p, d, x, x - k);
  }

  lemma NothingFound(p: Problem, v: seq<int>, max: int, d: int, next: seq<int>)
    requires p.Ready(v, max, d) && Explored(p, v, max, d, next, d + 2) && p.Unreached(d)
    ensures p.LevelOf(v, max, d, next) && p.Furthest(next, max, d) && p.Unreached(d + 1)
  {
    LevelIsFurthest(p, v, max, d, next);
  }

  /** One level of the search, in place: entries of the level's parity are overwritten while the
      ones it reads, of the other parity, stay. Stops at the first diagonal that passes both ends. */
  method ExploreLevel(p: Problem, max: int, depth: int, frontier: array<int>) returns (found: bool)
    requires p.Ready(frontier[..], max, depth) && p.Unreached(depth)
    modifies frontier
    ensures found ==> p.Reach(depth, |p.actual|, |p.expected|)
                      && OnLevel(depth, |p.actual| - |p.expected|)
                      && p.LevelOn(old(frontier[..]), max, depth, |p.actual| - |p.expected|, |p.actual|)
    ensures !found ==> p.LevelOf(old(frontier[..]), max, depth, frontier[..])
                       && p.Furthest(frontier[..], max, depth) && p.Unreached(depth + 1)
  {
    hide Explored, Problem.Furthest, Problem.Reach, Problem.Unreached, Problem.LevelOf, Problem.MatchOn;
    ghost var v := frontier[..];
    ExploredStart(p, v, max, depth);
    var k := -depth;
    while k <= depth
      invariant (k + depth) % 2 == 0 && -depth <= k <= depth + 2
      invariant Explored(p, v, max, depth, frontier[..], k)
    {
      var offset := k + max;
      ghost var before := frontier[..];
      ExploredReads(p, v, max, depth, before, k);
      var x0 := if k == -depth || (k != depth && frontier[offset - 1] < frontier[offset + 1])
                then frontier[offset + 1]
                else frontier[offset - 1] + 1;
      assert x0 == Start(before, max, depth, k);
      StartReached(p, v, max, depth, k);
      var x := FollowSnake(p, x0, k);
      assert p.LevelOn(v, max, depth, k, x);
      frontier[offset] := x;
      assert frontier[..] == before[offset := x];
      if x >= |p.actual| && x - k >= |p.expected| {
        PastCornerIsCorner(p, v, max, depth, k, x);
        return true;
      }
      ExploredStep(p, v, max, depth, before, k, x);
      k := k + 2;
    }
    NothingFound(p, v, max, depth, frontier[..]);
    return false;
  }

  /** The whole forward search: it always ends, at the smallest number of edits that reaches the
      far corner, and the first point past both ends is that corner. */
  method Search(p: Problem, max: int) returns (trace: seq<seq<int>>, level: int)
    requires max == |p.actual| + |p.expected| && max >= 1
    ensures |trace| == level + 1 && level <= max && p.Traced(trace, max)
    ensures p.Unreached(level) && p.Reach(level, |p.actual|, |p.expected|)
    ensures OnLevel(level, |p.actual| - |p.expected|)
    ensures p.LevelOn(trace[level], max, level, |p.actual| - |p.expected|, |p.actual|)
  {
    var frontier := new int[2 * max + 1](_ => 0);
    trace := [];
    for depth := 0 to max + 1
      invariant |trace| == depth
      invariant frontier.Length == 2 * max + 1
      invariant p.Traced(trace, max)
      invariant depth <= max ==> p.Ready(frontier[..], max, depth)
      invariant 0 < depth <= max ==> p.LevelOf(trace[depth - 1], max, depth - 1, frontier[..])
      invariant p.Unreached(depth)
    {
      TracePush(p, trace, max, frontier[..]);
      trace := trace + [frontier[..]];
      var found := ExploreLevel(p, max, depth, frontier);
      if found {
        level := depth;
        return;
      }
    }
    EditsOnlyReach(p, |p.actual|, |p.expected|);
    assert false;
  }

  /** The diagonal from which level d came to diagonal k. */
  function Previous(v: seq<int>, max: int, d: int, k: int): int
    requires Shape(v, max, d) && -d <= k <= d
  {
    if k == -d || (k != d && v[k - 1 + max] < v[k + 1 + max]) then k + 1 else k - 1
  }

  lemma PreviousPoint(p: Problem, trace: seq<seq<int>>, max: int, d: int, k: int)
    requires p.Traced(trace, max) && 0 < d < |trace| && d <= max && OnLevel(d, k)
    ensures Shape(trace[d], max, d)
    ensures var k' := Previous(trace[d], max, d, k);
            var x' := trace[d][k' + max];
            OnLevel(d - 1, k') && p.LevelOn(trace[d - 1], max, d - 1, k', x') && 0 <= x' && 0 <= x' - k'
  {
    assert p.ReadyAt(trace, max, d) && p.LinkedAt(trace, max, d);
    var k' := Previous(trace[d], max, d, k);
    assert OnLevel(d - 1, k');
  }

  lemma RowUndone(p: Problem, rows: Script, row: DiffLine, x: int, y: int, x': int, y': int)
    requires 0 <= x' <= x <= |p.actual| && 0 <= y' <= y <= |p.expected|
    requires Explains(Reversed(rows), p.actual[x..], p.expected[y..], p.comma)
    requires match row.operation
             case Common => x' == x - 1 && y' == y - 1 && p.Match(x', y')
                            && row.line == CommonLine(p.actual[x'], p.expected[y'], p.comma)
             case Actual => x' == x - 1 && y' == y && row.line == p.actual[x']
             case Expected => x' == x && y' == y - 1 && row.line == p.expected[y']
    ensures Explains(Reversed(rows + [row]), p.actual[x'..], p.expected[y'..], p.comma)
    ensures Edits(Reversed(rows + [row])) == Edits(Reversed(rows)) + if row.operation == Common then 0 else 1
  {
    ReversedPush(rows, row);
    assert x' < x ==> p.actual[x'..][1..] == p.actual[x..];
    assert y' < y ==> p.expected[y'..][1..] == p.expected[y..];
  }

  lemma NothingExplained(p: Problem)
    ensures Explains(Reversed([]), p.actual[|p.actual|..], p.expected[|p.expected|..], p.comma)
    ensures Edits(Reversed([])) == 0
  {
  }

  /** The backtrack has added a run of common rows and then these edits. */
  ghost predicate Added(rows: Script, result: Script, run: int, edits: seq<Operation>) {
    && 0 <= run && |result| == |rows| + run + |edits| && rows <= result
    && (forall i :: |rows| <= i < |rows| + run ==> result[i].operation == Common)
    && (forall e :: 0 <= e < |edits| ==> result[|rows| + run + e].operation == edits[e])
  }

  /** `InsertionsFirst` for rows that come last first. */
  predicate InsertionsLast(rows: Script) {
    forall i :: 0 <= i < |rows| - 1 ==> !(rows[i].operation == Actual && rows[i + 1].operation == Expected)
  }

  lemma AddedTidy(rows: Script, result: Script, run: int, edits: seq<Operation>)
    requires InsertionsLast(rows) && Added(rows, result, run, edits) && |edits| <= 1
    requires rows != [] && rows[|rows| - 1].operation == Actual && run == 0 ==> edits != [Expected]
    ensures InsertionsLast(result)
  {
  }

  lemma TidyReversed(rows: Script)
    requires InsertionsLast(rows)
    ensures InsertionsFirst(Reversed(rows))
  {
    var r := Reversed(rows);
    if rows != [] { ReversedAt(rows, 0); }
    forall i | 0 <= i < |r| - 1 ensures !(r[i].operation == Expected && r[i + 1].operation == Actual) {
      ReversedAt(rows, i);
      ReversedAt(rows, i + 1);
    }
  }

  /** Where a level comes down onto a diagonal and ends there at once, going right first and then down
      leads further, so the next level does not go right from there. */
  lemma RightFirst(p: Problem, trace: seq<seq<int>>, max: int, d: int, k: int)
    requires p.Traced(trace, max) && 1 < d < |trace| && d <= max && OnLevel(d - 1, k)
    requires Shape(trace[d - 1], max, d - 1) && Shape(trace[d], max, d)
    requires Previous(trace[d - 1], max, d - 1, k) == k + 1
    requires trace[d][k + max] == Start(trace[d - 1], max, d - 1, k)
    ensures Previous(trace[d], max, d, k + 1) != k
  {
    assert p.LinkedAt(trace, max, d);
    assert k + 2 <= d - 1 && OnLevel(d - 1, k + 2);
    assert p.LevelOn(trace[d - 1], max, d - 1, k + 2, trace[d][k + 2 + max]);
  }

  lemma LastAdded(rows: Script, result: Script, run: int, edit: Operation)
    requires Added(rows, result, run, [edit])
    ensures result != [] && result[|result| - 1].operation == edit
  {
    assert result[|rows| + run + 0].operation == [edit][0];
  }

  /** Level d went right from this point. */
  ghost predicate CameRight(trace: seq<seq<int>>, max: int, d: int, k: int, x: int) {
    && 0 < d < |trace| && Shape(trace[d], max, d) && -d <= k && k + 1 <= d
    && trace[d][k + max] == x && Previous(trace[d], max, d, k + 1) == k
  }

  lemma Unreversed(p: Problem, trace: seq<seq<int>>, max: int, d: int, k: int, x: int)
    requires p.Traced(trace, max) && 1 < d < |trace| && d <= max && OnLevel(d - 1, k)
    requires Shape(trace[d - 1], max, d - 1) && Previous(trace[d - 1], max, d - 1, k) == k + 1
    requires x == Start(trace[d - 1], max, d - 1, k)
    ensures !CameRight(trace, max, d, k, x)
  {
    if Shape(trace[d], max, d) && trace[d][k + max] == x { RightFirst(p, trace, max, d, k); }
  }

  /** The rows undone so far stand insertions first, and if the last was an insertion, the level it
      came from went right from this point. */
  ghost predicate Tidy(trace: seq<seq<int>>, max: int, level: int, x: int, y: int, rows: Script) {
    && InsertionsLast(rows)
    && (rows != [] && rows[|rows| - 1].operation == Actual ==> CameRight(trace, max, level + 1, x - y, x))
  }

  /** Undoing the run and the edit of a level keeps that. */
  lemma RoundTidy(p: Problem, trace: seq<seq<int>>, max: int, level: int, x: int, y: int, rows: Script,
                  x': int, y': int, result: Script)
    requires p.Traced(trace, max) && 0 < level < |trace| && level <= max && OnLevel(level, x - y)
    requires Shape(trace[level], max, level) && Tidy(trace, max, level, x, y, rows)
    requires x' - y' == Previous(trace[level], max, level, x - y) && x' == trace[level][x' - y' + max]
    requires Added(rows, result, x - Start(trace[level], max, level, x - y), [if x' - y' == x - y + 1 then Expected else Actual])
    ensures Tidy(trace, max, level - 1, x', y', result)
  {
    hide Added, InsertionsLast, Problem.Traced, Start;
    var k, run := x - y, x - Start(trace[level], max, level, x - y);
    var edit := if x' - y' == k + 1 then Expected else Actual;
    if run == 0 && edit == Expected && CameRight(trace, max, level + 1, k, x) {
      Unreversed(p, trace, max, level + 1, k, x);
    } else {
      AddedTidy(rows, result, run, [edit]);
    }
    LastAdded(rows, result, run, edit);
  }

  lemma FirstTidy(p: Problem, trace: seq<seq<int>>, max: int, x: int, y: int, rows: Script, result: Script, run: int)
    requires Tidy(trace, max, 0, x, y, rows) && Added(rows, result, run, [])
    ensures InsertionsFirst(Reversed(result))
  {
    hide Added, InsertionsLast, InsertionsFirst, Reversed, CameRight;
    AddedTidy(rows, result, run, []);
    TidyReversed(result);
  }

  /** Where the backtrack stands: at a recorded point, with rows that explain what lies behind it. */
  ghost predicate Backed(p: Problem, max: int, trace: seq<seq<int>>, found: int, level: int, x: int, y: int, rows: Script) {
    && 0 <= level <= found <= max && |trace| == found + 1 && p.Traced(trace, max)
    && 0 <= x <= |p.actual| && 0 <= y <= |p.expected|
    && OnLevel(level, x - y) && p.LevelOn(trace[level], max, level, x - y, x)
    && Explains(Reversed(rows), p.actual[x..], p.expected[y..], p.comma)
    && Edits(Reversed(rows)) == found - level
    && Tidy(trace, max, level, x, y, rows)
  }

  method Round(p: Problem, max: int, trace: seq<seq<int>>, ghost found: int, level: int, fromX: int, fromY: int, rows: Script)
    returns (x: int, y: int, result: Script)
    requires level > 0 && Backed(p, max, trace, found, level, fromX, fromY, rows)
    ensures Backed(p, max, trace, found, level - 1, x, y, result)
  {
    hide Explains, Edits, Reversed, Tidy, Added, Previous, Start, Problem.Traced;
    PreviousPoint(p, trace, max, level, fromX - fromY);
    x, y, result := UndoLevel(p, max, trace[level], level, fromX, fromY, rows);
    PreviousSide(trace[level], max, level, fromX - fromY);
    RoundTidy(p, trace, max, level, fromX, fromY, rows, x, y, result);
  }

  lemma PreviousSide(v: seq<int>, max: int, d: int, k: int)
    requires Shape(v, max, d) && -d <= k <= d
    ensures Previous(v, max, d, k) == k + 1 || Previous(v, max, d, k) == k - 1
  {
  }

  lemma BackedStart(p: Problem, max: int, trace: seq<seq<int>>, found: int)
    requires |trace| == found + 1 && 0 <= found <= max && p.Traced(trace, max)
    requires OnLevel(found, |p.actual| - |p.expected|)
    requires p.LevelOn(trace[found], max, found, |p.actual| - |p.expected|, |p.actual|)
    ensures Backed(p, max, trace, found, found, |p.actual|, |p.expected|, [])
  {
    NothingExplained(p);
  }

  lemma FirstLevel(p: Problem, max: int, trace: seq<seq<int>>, found: int, x: int, y: int, rows: Script)
    requires Backed(p, max, trace, found, 0, x, y, rows)
    ensures x == y && Shape(trace[0], max, 0) && trace[0][Previous(trace[0], max, 0, 0) + max] == 0
    ensures p.LevelOn(trace[0], max, 0, 0, x) && 0 <= x <= |p.actual| && y <= |p.expected|
    ensures Explains(Reversed(rows), p.actual[x..], p.expected[y..], p.comma) && Edits(Reversed(rows)) == found
    ensures Tidy(trace, max, 0, x, y, rows)
  {
    assert p.ReadyAt(trace, max, 0);
  }

  /** Walks the recorded frontiers back from the corner; rows come out last first. */
  method Backtrack(p: Problem, max: int, trace: seq<seq<int>>, found: int) returns (result: Script)
    requires max == |p.actual| + |p.expected| && max >= 1
    requires |trace| == found + 1 && 0 <= found <= max && p.Traced(trace, max)
    requires OnLevel(found, |p.actual| - |p.expected|)
    requires p.LevelOn(trace[found], max, found, |p.actual| - |p.expected|, |p.actual|)
    ensures Explains(Reversed(result), p.actual, p.expected, p.comma)
    ensures Edits(Reversed(result)) == found && InsertionsFirst(Reversed(result))
  {
    hide Explains, Edits, Reversed, InsertionsFirst, Added, Backed, Tidy, Start, Previous, Problem.Traced;
    result := [];
    var x, y := |p.actual|, |p.expected|;
    var level := found;
    BackedStart(p, max, trace, found);
    while level > 0
      invariant 0 <= level <= found
      invariant Backed(p, max, trace, found, level, x, y, result)
    {
      x, y, result := Round(p, max, trace, found, level, x, y, result);
      level := level - 1;
    }
    FirstLevel(p, max, trace, found, x, y, result);
    ghost var rows, fromX := result, x;
    x, y, result := UndoLevel(p, max, trace[0], 0, x, y, result);
    FirstTidy(p, trace, max, fromX, fromX, rows, result, fromX - Start(trace[0], max, 0, 0));
    assert p.actual[0..] == p.actual && p.expected[0..] == p.expected;
  }

  /** One round of the backtrack: the matching run of the level, then the edit that led to it. */
  method UndoLevel(p: Problem, max: int, frontier: seq<int>, level: int, fromX: int, fromY: int, rows: Script)
    returns (x: int, y: int, result: Script)
    requires 0 <= fromX <= |p.actual| && 0 <= fromY <= |p.expected| && OnLevel(level, fromX - fromY)
    requires p.LevelOn(frontier, max, level, fromX - fromY, fromX)
    requires var k := Previous(frontier, max, level, fromX - fromY);
             if level == 0 then frontier[k + max] == 0 else 0 <= frontier[k + max] && 0 <= frontier[k + max] - k
    requires Explains(Reversed(rows), p.actual[fromX..], p.expected[fromY..], p.comma)
    ensures level == 0 ==> x == y == 0
    ensures level > 0 ==> var k := Previous(frontier, max, level, fromX - fromY); x == frontier[k + max] && x - y == k
    ensures 0 <= x <= |p.actual| && 0 <= y <= |p.expected|
    ensures Explains(Reversed(result), p.actual[x..], p.expected[y..], p.comma)
    ensures Edits(Reversed(result)) == Edits(Reversed(rows)) + if level == 0 then 0 else 1
    ensures Added(rows, result, fromX - Start(frontier, max, level, fromX - fromY),
                  if level == 0 then []
                  else if Previous(frontier, max, level, fromX - fromY) == fromX - fromY + 1 then [Expected] else [Actual])
  {
    hide Explains, Edits, Reversed, LinesEqual;
    var k := fromX - fromY;
    var offset := k + max;
    var previousK := if k == -level || (k != level && frontier[offset - 1] < frontier[offset + 1])
                     then k + 1 else k - 1;
    var previousX := frontier[previousK + max];
    var previousY := previousX - previousK;
    ghost var x0 := Start(frontier, max, level, k);
    assert previousK == Previous(frontier, max, level, k);
    assert x0 == if previousK == k + 1 then previousX else previousX + 1;
    x, y, result := UndoSnake(p, x0, k, previousX, previousY, fromX, fromY, rows);
    if level > 0 {
      if x > previousX {
        assert previousK == k - 1;
        x := x - 1;
        RowUndone(p, result, DiffLine(Actual, p.actual[x]), x + 1, y, x, y);
        result := result + [DiffLine(Actual, p.actual[x])];
      } else {
        assert previousK == k + 1;
        y := y - 1;
        RowUndone(p, result, DiffLine(Expected, p.expected[y]), x, y + 1, x, y);
        result := result + [DiffLine(Expected, p.expected[y])];
      }
    }
  }

  /** The inner loop of the backtrack: undoes the matching run down to where the level started. */
  method UndoSnake(p: Problem, ghost x0: int, ghost k: int, previousX: int, previousY: int,
                   fromX: int, fromY: int, rows: Script)
    returns (x: int, y: int, result: Script)
    requires 0 <= x0 <= fromX <= |p.actual| && fromX - fromY == k <= x0 && fromY <= |p.expected|
    requires forall i :: x0 <= i < fromX ==> p.MatchOn(k, i)
    requires (previousX == x0 && previousY == x0 - k - 1)
             || (previousX == x0 - 1 && previousY == x0 - k)
    requires Explains(Reversed(rows), p.actual[fromX..], p.expected[fromY..], p.comma)
    ensures x == x0 && x - y == k
    ensures Explains(Reversed(result), p.actual[x..], p.expected[y..], p.comma)
    ensures Edits(Reversed(result)) == Edits(Reversed(rows)) && Added(rows, result, fromX - x0, [])
  {
    hide Explains, Edits, Reversed, EndsWithComma;
    x, y, result := fromX, fromY, rows;
    while x > previousX && y > previousY
      invariant x0 <= x <= fromX && x - y == k
      invariant Explains(Reversed(result), p.actual[x..], p.expected[y..], p.comma)
      invariant Edits(Reversed(result)) == Edits(Reversed(rows)) && Added(rows, result, fromX - x, [])
    {
      assert p.MatchOn(k, x - 1);
      var actualLine := p.actual[x - 1];
      var line := if p.comma && !EndsWithComma(actualLine) then p.expected[y - 1] else actualLine;
      RowUndone(p, result, DiffLine(Common, line), x, y, x - 1, y - 1);
      result := result + [DiffLine(Common, line)];
      x := x - 1;
      y := y - 1;
    }
  }

  /** The engine: refused exactly outside its size range, otherwise a script that explains the two
      lists, rows last first, with the fewest edits of all scripts and insertions before removals. */
  method Diff(actual: seq<Line>, expected: seq<Line>, comma: bool) returns (r: Option<Script>)
    ensures r.None? <==> |actual| + |expected| == 0 || |actual| + |expected| > 4096
    ensures r.Some? ==> Explains(Reversed(r.value), actual, expected, comma)
    ensures r.Some? ==> FewestEdits(Reversed(r.value), actual, expected, comma)
    ensures r.Some? ==> InsertionsFirst(Reversed(r.value))
  {
    var max := |actual| + |expected|;
    if max == 0 || max > 4096 {
      return None;
    }
    var p := Problem(actual, expected, comma);
    var trace, level := Search(p, max);
    var result := Backtrack(p, max, trace, level);
    forall other: Script | Explains(other, actual, expected, comma)
      ensures level <= Edits(other)
    {
      assert actual[0..] == actual && expected[0..] == expected;
      ScriptIsPath(p, other, 0, 0, 0);
    }
    return Some(result);
  }
}
