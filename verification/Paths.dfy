/** POSIX path algebra. A path is a string; its meaning is a walk from one absolute location to
    another, where a location is the list of names below the root. */
module Paths {

  // ---- text ----

  predicate SlashFree(parts: seq<string>) {
    forall i | 0 <= i < |parts| :: '/' !in parts[i]
  }

  predicate NoneEmpty(parts: seq<string>) {
    forall i | 0 <= i < |parts| :: parts[i] != ""
  }

  function Split(s: string): (parts: seq<string>)
    ensures |parts| > 0
    ensures SlashFree(parts)
  {
    if s == "" then [""]
    else if s[0] == '/' then [""] + Split(s[1..])
    else
      var rest := Split(s[1..]);
      [[s[0]] + rest[0]] + rest[1..]
  }

  function Join(parts: seq<string>): string {
    if |parts| == 0 then ""
    else if |parts| == 1 then parts[0]
    else parts[0] + "/" + Join(parts[1..])
  }

  function TrimEnd(s: string): string {
    if s != "" && s[|s| - 1] == '/' then TrimEnd(s[..|s| - 1]) else s
  }

  predicate Absolute(path: string) {
    path != "" && path[0] == '/'
  }

  predicate EndsInSlash(path: string) {
    path != "" && path[|path| - 1] == '/'
  }

  lemma {:induction false} SplitAppend(a: string, b: string)
    ensures Split(a + "/" + b) == Split(a) + Split(b)
  {
    hide SlashFree;
    if a == "" {
      assert a + "/" + b == "/" + b;
      assert ("/" + b)[1..] == b;
    } else {
      var rest := a[1..] + "/" + b;
      assert a + "/" + b == [a[0]] + rest;
      assert (a + "/" + b)[1..] == rest && (a + "/" + b)[0] == a[0];
      SplitAppend(a[1..], b);
    }
  }

  lemma {:induction false} SplitWhole(s: string)
    requires '/' !in s
    ensures Split(s) == [s]
  {
    if s != "" {
      SplitWhole(s[1..]);
      assert [s[0]] + s[1..] == s;
    }
  }

  lemma {:induction false} SplitJoin(parts: seq<string>)
    requires |parts| > 0 && SlashFree(parts)
    ensures Split(Join(parts)) == parts
  {
    SplitWhole(parts[0]);
    if |parts| > 1 {
      SplitJoin(parts[1..]);
      SplitAppend(parts[0], Join(parts[1..]));
    }
  }

  lemma {:induction false} JoinEnds(parts: seq<string>)
    requires |parts| > 0 && SlashFree(parts) && NoneEmpty(parts)
    ensures var s := Join(parts); s != "" && s[0] != '/' && s[|s| - 1] != '/'
  {
    var s := Join(parts);
    assert parts[0][0] in parts[0] && parts[0][|parts[0]| - 1] in parts[0];
    if |parts| > 1 {
      JoinEnds(parts[1..]);
      var rest := Join(parts[1..]);
      assert s == parts[0] + "/" + rest;
      assert s[0] == parts[0][0] && s[|s| - 1] == rest[|rest| - 1];
    }
  }

  function NonEmpty(parts: seq<string>): seq<string> {
    if |parts| == 0 then []
    else (if parts[0] == "" then [] else [parts[0]]) + NonEmpty(parts[1..])
  }

  lemma {:induction false} NonEmptyOfNames(at: seq<string>)
    requires NoneEmpty(at)
    ensures NonEmpty(at) == at
  {
    if |at| > 0 { NonEmptyOfNames(at[1..]); }
  }

  lemma {:induction false} NonEmptyAppend(a: seq<string>, b: seq<string>)
    ensures NonEmpty(a + b) == NonEmpty(a) + NonEmpty(b)
  {
    if |a| == 0 {
      assert a + b == b;
    } else {
      assert (a + b)[1..] == a[1..] + b;
      NonEmptyAppend(a[1..], b);
    }
  }

  // ---- walking ----

  function Step(at: seq<string>, part: string, absolute: bool): seq<string> {
    if part == "" || part == "." then at
    else if part == ".." then
      if |at| > 0 && at[|at| - 1] != ".." then at[..|at| - 1]
      else if !absolute then at + [part]
      else at
    else at + [part]
  }

  function Walk(at: seq<string>, parts: seq<string>, absolute: bool): seq<string>
    decreases |parts|
  {
    if |parts| == 0 then at else Walk(Step(at, parts[0], absolute), parts[1..], absolute)
  }

  /** The shape of every outcome: real names, after a run of ".." that only a relative path can have. */
  predicate Normal(at: seq<string>, absolute: bool) {
    && (forall i | 0 <= i < |at| :: Kept(at[i], absolute))
    && (forall i, j | 0 <= i < j < |at| && at[j] == ".." :: at[i] == "..")
  }

  predicate Kept(part: string, absolute: bool) {
    part != "" && part != "." && '/' !in part && (part == ".." ==> !absolute)
  }

  lemma {:induction false} WalkIsNormal(at: seq<string>, parts: seq<string>, absolute: bool)
    requires Normal(at, absolute) && SlashFree(parts)
    ensures Normal(Walk(at, parts, absolute), absolute)
    decreases |parts|
  {
    if |parts| > 0 { WalkIsNormal(Step(at, parts[0], absolute), parts[1..], absolute); }
  }

  lemma NormalStep(at: seq<string>, part: string, absolute: bool)
    requires Normal(at, absolute) && '/' !in part
    ensures Normal(Step(at, part, absolute), absolute)
  {
  }

  lemma WalkOne(at: seq<string>, parts: seq<string>, i: nat, absolute: bool)
    requires i < |parts|
    ensures Walk(at, parts[i..], absolute) == Walk(Step(at, parts[i], absolute), parts[i + 1..], absolute)
  {
    assert parts[i..][1..] == parts[i + 1..];
  }

  lemma {:induction false} WalkAppend(at: seq<string>, a: seq<string>, b: seq<string>, absolute: bool)
    ensures Walk(at, a + b, absolute) == Walk(Walk(at, a, absolute), b, absolute)
    decreases |a|
  {
    if |a| == 0 {
      assert a + b == b;
    } else {
      assert (a + b)[1..] == a[1..] + b;
      WalkAppend(Step(at, a[0], absolute), a[1..], b, absolute);
    }
  }

  /** Walking along a normal list from a normal place just appends it. */
  lemma {:induction false} WalkNormal(at: seq<string>, names: seq<string>, absolute: bool)
    requires Normal(at + names, absolute)
    ensures Walk(at, names, absolute) == at + names
    decreases |names|
  {
    if |names| == 0 {
      assert at + names == at;
    } else {
      assert (at + names)[|at|] == names[0];
      assert |at| > 0 ==> (at + names)[|at| - 1] == at[|at| - 1];
      assert (at + [names[0]]) + names[1..] == at + names;
      WalkNormal(at + [names[0]], names[1..], absolute);
    }
  }

  // ---- normalization ----

  function Spelling(at: seq<string>, absolute: bool, trailing: bool): string {
    var body := if |at| == 0 && !absolute then "." else Join(at);
    var closed := if trailing && body != "" then body + "/" else body;
    if absolute then "/" + closed else closed
  }

  function Normalized(path: string): string {
    if path == "" then "."
    else Spelling(Walk([], Split(path), Absolute(path)), Absolute(path), EndsInSlash(path))
  }

  method Normalize(path: string) returns (result: string)
    ensures result == Normalized(path)
  {
    hide Split, Join, Walk, Normal, Kept, Spelling;
    if path == "" { return "."; }
    var absolute, trailing := path[0] == '/', path[|path| - 1] == '/';
    var pieces := Split(path);
    var parts: seq<string> := [];
    var i := 0;
    NothingIsNormal(absolute);
    while i < |pieces|
      invariant 0 <= i <= |pieces|
      invariant Normal(parts, absolute)
      invariant Walk(parts, pieces[i..], absolute) == Walk([], pieces, absolute)
    {
      var part := pieces[i];
      ghost var before := parts;
      if part == "" || part == "." {
      } else if part == ".." {
        if |parts| > 0 && parts[|parts| - 1] != ".." {
          parts := parts[..|parts| - 1];
        } else if !absolute {
          parts := parts + [part];
        }
      } else {
        parts := parts + [part];
      }
      NormalStep(before, part, absolute);
      WalkOne(before, pieces, i, absolute);
      i := i + 1;
    }
    assert pieces[i..] == [];
    WalkNothing(parts, absolute);
    result := Assemble(parts, absolute, trailing);
  }

  lemma NothingIsNormal(absolute: bool)
    ensures Normal([], absolute)
  {
  }

  lemma WalkNothing(at: seq<string>, absolute: bool)
    ensures Walk(at, [], absolute) == at
  {
  }

  lemma JoinIsEmpty(parts: seq<string>)
    requires SlashFree(parts) && NoneEmpty(parts)
    ensures Join(parts) == "" <==> parts == []
    ensures Join(parts) != "/"
  {
    if |parts| > 0 { JoinEnds(parts); }
  }

  method Assemble(parts: seq<string>, absolute: bool, trailing: bool) returns (result: string)
    requires Normal(parts, absolute)
    ensures result == Spelling(parts, absolute, trailing)
  {
    hide Normal, Kept, Join;
    NormalParts(parts, absolute);
    JoinIsEmpty(parts);
    result := Join(parts);
    assert "" + "." == ".";
    if result == "" && !absolute { result := result + "."; }
    if trailing && result != "" && result != "/" { result := result + "/"; }
    if absolute { result := "/" + result; }
  }

  lemma BlankSteps(at: seq<string>, absolute: bool)
    ensures Walk(at, [""], absolute) == at && Walk(at, ["."], absolute) == at
  {
  }

  lemma NormalParts(at: seq<string>, absolute: bool)
    requires Normal(at, absolute)
    ensures SlashFree(at) && NoneEmpty(at)
  {
  }

  /** The text written for a normal list splits into that list and empty or "." pieces. */
  lemma SpellingSplits(at: seq<string>, absolute: bool, trailing: bool, from: seq<string>)
    requires Normal(at, absolute)
    ensures var s := Spelling(at, absolute, trailing);
            s != "" && Absolute(s) == absolute
            && (trailing && !(absolute && at == []) ==> EndsInSlash(s))
            && (!trailing && !(absolute && at == []) ==> !EndsInSlash(s))
            && Walk(from, Split(s), absolute) == Walk(from, at, absolute)
  {
    var body := if |at| == 0 && !absolute then "." else Join(at);
    var pieces := if |at| == 0 && !absolute then ["."] else if |at| == 0 then [""] else at;
    NormalParts(at, absolute);
    BlankSteps(from, absolute);
    assert Walk(from, [], absolute) == from;
    assert Split("") == [""];
    hide Walk, Step, Normal, Kept;
    if |at| > 0 {
      SplitJoin(at);
      JoinEnds(at);
    } else {
      SplitWhole(body);
    }
    hide SlashFree, NoneEmpty, Split, Join;
    assert Walk(from, Split(body), absolute) == Walk(from, at, absolute);
    var closed := if trailing && body != "" then body + "/" else body;
    assert Walk(from, Split(closed), absolute) == Walk(from, at, absolute) by {
      if trailing && body != "" {
        assert body + "/" == body + "/" + "";
        SplitAppend(body, "");
        WalkAppend(from, pieces, [""], absolute);
        BlankSteps(Walk(from, pieces, absolute), absolute);
      }
    }
    if absolute {
      assert "/" + closed == "" + "/" + closed;
      SplitAppend("", closed);
      WalkAppend(from, [""], Split(closed), absolute);
    }
  }

  /** A normalized path is its own normal form. */
  lemma NormalizeIdempotent(path: string)
    ensures Normalized(Normalized(path)) == Normalized(path)
  {
    if path == "" {
      SplitWhole(".");
    } else {
      var absolute, trailing := Absolute(path), EndsInSlash(path);
      var at := Walk([], Split(path), absolute);
      var again := Spelling(at, absolute, trailing);
      WalkIsNormal([], Split(path), absolute);
      SpellingSplits(at, absolute, trailing, []);
      assert [] + at == at;
      WalkNormal([], at, absolute);
      assert Spelling(at, absolute, EndsInSlash(again)) == again;
      hide Walk, Split, Normal, Step, Absolute, EndsInSlash, Spelling, SlashFree;
    }
  }

  /** What is written keeps the leading and the trailing slash of the input and has no empty, "." or
      misplaced ".." piece, except that "nothing" is written as ".". */
  lemma NormalizeShape(path: string)
    ensures var n := Normalized(path);
            n != "" && Absolute(n) == Absolute(path)
            && (EndsInSlash(n) <==> EndsInSlash(path) || n == "/")
            && (n == "." || n == "./" || Normal(NonEmpty(Split(n)), Absolute(n)))
  {
    hide Walk, Split, Normal, Kept, Step, Join, NonEmpty, Spelling;
    if path != "" {
      var absolute, trailing := Absolute(path), EndsInSlash(path);
      var at := Walk([], Split(path), absolute);
      NothingIsNormal(absolute);
      WalkIsNormal([], Split(path), absolute);
      SpellingSplits(at, absolute, trailing, []);
      SpellingOfNothing(absolute, trailing);
      if |at| > 0 {
        SpellingPieces(at, absolute, trailing);
        SpellingIsLong(at, absolute, trailing);
      } else {
        assert at == [];
        RootPieces();
        NothingIsNormal(absolute);
      }
    }
  }

  lemma SpellingOfNothing(absolute: bool, trailing: bool)
    ensures Spelling([], absolute, trailing) == if absolute then "/" else if trailing then "./" else "."
  {
  }

  lemma SpellingIsLong(at: seq<string>, absolute: bool, trailing: bool)
    requires Normal(at, absolute) && |at| > 0
    ensures Spelling(at, absolute, trailing) != "/"
  {
    JoinEnds(at);
  }

  lemma RootPieces()
    ensures NonEmpty(Split("/")) == []
  {
    assert Split("") == [""] && NonEmpty([""]) == [];
    assert "/"[1..] == "" && Split("/") == [""] + Split("");
    NonEmptyAppend([""], [""]);
  }

  lemma SpellingPieces(at: seq<string>, absolute: bool, trailing: bool)
    requires Normal(at, absolute) && |at| > 0
    ensures NonEmpty(Split(Spelling(at, absolute, trailing))) == at
  {
    JoinEnds(at);
    SplitJoin(at);
    NonEmptyOfNames(at);
    var body := Join(at);
    var closed := if trailing then body + "/" else body;
    assert Split("") == [""] && NonEmpty([""]) == [];
    assert NonEmpty(Split(closed)) == at by {
      if trailing {
        assert body + "/" == body + "/" + "";
        SplitAppend(body, "");
        NonEmptyAppend(at, [""]);
      }
    }
    if absolute {
      assert "/" + closed == "" + "/" + closed;
      SplitAppend("", closed);
      NonEmptyAppend([""], Split(closed));
    }
  }

  // ---- locations ----

  /** Where a path leads from a location. */
  function Cd(at: seq<string>, path: string): seq<string> {
    if path == "" then at else Walk(if Absolute(path) then [] else at, Split(path), true)
  }

  function Visit(at: seq<string>, paths: seq<string>): seq<string>
    decreases |paths|
  {
    if |paths| == 0 then at else Visit(Cd(at, paths[0]), paths[1..])
  }

  lemma CdIsNormal(at: seq<string>, path: string)
    requires Normal(at, true)
    ensures Normal(Cd(at, path), true)
  {
    if path != "" { WalkIsNormal(if Absolute(path) then [] else at, Split(path), true); }
  }

  lemma {:induction false} VisitIsNormal(at: seq<string>, paths: seq<string>)
    requires Normal(at, true)
    ensures Normal(Visit(at, paths), true)
    decreases |paths|
  {
    if |paths| > 0 {
      CdIsNormal(at, paths[0]);
      VisitIsNormal(Cd(at, paths[0]), paths[1..]);
    }
  }

  lemma {:induction false} VisitAppend(at: seq<string>, a: seq<string>, b: seq<string>)
    ensures Visit(at, a + b) == Visit(Visit(at, a), b)
    decreases |a|
  {
    if |a| == 0 {
      assert a + b == b;
    } else {
      assert (a + b)[1..] == a[1..] + b;
      VisitAppend(Cd(at, a[0]), a[1..], b);
    }
  }

  /** A relative walk done from anywhere: first the net climb and names of the walk on its own, then
      those again from the place. Climbing past the root stays at the root. */
  lemma {:induction false} WalkRelative(at: seq<string>, so: seq<string>, parts: seq<string>)
    requires Normal(at, true) && Normal(so, false) && SlashFree(parts)
    ensures Walk(at, Walk(so, parts, false), true) == Walk(Walk(at, so, true), parts, true)
    decreases |parts|
  {
    if |parts| > 0 {
      NormalStep(so, parts[0], false);
      StepRelative(at, so, parts[0]);
      var rest := parts[1..];
      assert SlashFree(rest);
      hide Normal, Step, SlashFree;
      WalkRelative(at, Step(so, parts[0], false), rest);
    }
  }

  lemma StepRelative(at: seq<string>, so: seq<string>, part: string)
    requires Normal(at, true) && Normal(so, false) && '/' !in part
    ensures Walk(at, Step(so, part, false), true) == Step(Walk(at, so, true), part, true)
  {
    if part != "" && part != "." {
      if part == ".." && |so| > 0 && so[|so| - 1] != ".." {
        var init, last := so[..|so| - 1], so[|so| - 1];
        assert so == init + [last];
        WalkAppend(at, init, [last], true);
        var mid := Walk(at, init, true);
        assert Walk(mid, [last], true) == mid + [last];
        assert (mid + [last])[..|mid|] == mid;
      } else {
        WalkAppend(at, so, [part], true);
        var mid := Walk(at, so, true);
        assert Walk(mid, [part], true) == Step(mid, part, true);
      }
    }
  }

  /** Normalizing never changes where a path leads, from any location. */
  lemma NormalizeKeepsMeaning(at: seq<string>, path: string)
    requires Normal(at, true)
    ensures Cd(at, Normalized(path)) == Cd(at, path)
  {
    if path == "" {
      SplitWhole(".");
      assert Walk(at, ["."], true) == at;
    } else {
      var absolute := Absolute(path);
      var so := Walk([], Split(path), absolute);
      WalkIsNormal([], Split(path), absolute);
      if absolute {
        SpellingSplits(so, true, EndsInSlash(path), []);
        assert [] + so == so;
        WalkNormal([], so, true);
      } else {
        SpellingLeads(so, EndsInSlash(path), at);
        WalkRelative(at, [], Split(path));
      }
    }
  }

  /** Reading the text of a relative normal list as part of an absolute walk. */
  lemma SpellingLeads(so: seq<string>, trailing: bool, at: seq<string>)
    requires Normal(so, false)
    ensures var s := Spelling(so, false, trailing);
            s != "" && !Absolute(s) && Walk(at, Split(s), true) == Walk(at, so, true)
  {
    SpellingSplits(so, false, trailing, []);
    var body := if |so| == 0 then "." else Join(so);
    var pieces := if |so| == 0 then ["."] else so;
    if |so| > 0 { SplitJoin(so); } else { SplitWhole(body); }
    if trailing {
      assert Split("") == [""];
      assert body + "/" == body + "/" + "";
      SplitAppend(body, "");
      WalkAppend(at, pieces, [""], true);
    }
  }

  // ---- join ----

  function JoinPaths(parts: seq<string>): string {
    Normalized(Join(NonEmpty(parts)))
  }

  /** Follow every part from where the last one led, a leading slash meaning nothing. */
  function Descend(at: seq<string>, parts: seq<string>): seq<string>
    decreases |parts|
  {
    if |parts| == 0 then at else Descend(Walk(at, Split(parts[0]), true), parts[1..])
  }

  lemma {:induction false} DescendIsWalk(at: seq<string>, parts: seq<string>)
    requires |parts| > 0
    ensures Descend(at, parts) == Walk(at, Split(Join(parts)), true)
    decreases |parts|
  {
    if |parts| > 1 {
      DescendIsWalk(Walk(at, Split(parts[0]), true), parts[1..]);
      SplitAppend(parts[0], Join(parts[1..]));
      WalkAppend(at, Split(parts[0]), Split(Join(parts[1..])), true);
    } else {
      assert Descend(Walk(at, Split(parts[0]), true), parts[1..]) == Walk(at, Split(parts[0]), true);
    }
  }

  /** Joined parts lead where the parts lead one after the other: only the first can be absolute. */
  lemma JoinFollows(at: seq<string>, parts: seq<string>)
    requires Normal(at, true)
    ensures var named := NonEmpty(parts);
            Cd(at, JoinPaths(parts)) == Descend(if |named| > 0 && Absolute(named[0]) then [] else at, named)
  {
    var named := NonEmpty(parts);
    NormalizeKeepsMeaning(at, Join(named));
    if |named| > 0 {
      NonEmptyHasNone(parts);
      DescendIsWalk(if Absolute(named[0]) then [] else at, named);
      assert Join(named) != "" && Join(named)[0] == named[0][0];
    }
  }

  lemma {:induction false} NonEmptyHasNone(parts: seq<string>)
    ensures NoneEmpty(NonEmpty(parts))
  {
    if |parts| > 0 { NonEmptyHasNone(parts[1..]); }
  }

  // ---- resolve ----

  function Spelled(at: seq<string>): string {
    "/" + Join(at)
  }

  /** The text is assembled from the last path backwards and stops at an absolute one; the outcome is
      the place reached by following the paths forwards. */
  method Resolve(cwd: string, parts: seq<string>) returns (result: string)
    requires Absolute(cwd)
    ensures result == Spelled(Visit([], [cwd] + parts))
  {
    var inputs := [cwd] + parts;
    var combined := "";
    var i := |inputs|;
    while i > 0
      invariant 0 < i <= |inputs|
      invariant !Absolute(combined)
      invariant forall at :: Visit(at, inputs[i..]) == Cd(at, combined)
    {
      i := i - 1;
      var part := inputs[i];
      assert inputs[i..][1..] == inputs[i + 1..];
      if part != "" {
        ghost var after := combined;
        combined := if combined == "" then part else part + "/" + combined;
        forall at ensures Visit(at, inputs[i..]) == Cd(at, combined) {
          CdCombined(at, part, after);
        }
        if part[0] == '/' { break; }
      }
    }
    assert Absolute(combined) && Visit([], inputs) == Cd([], combined) by {
      assert inputs == inputs[..i] + inputs[i..];
      VisitAppend([], inputs[..i], inputs[i..]);
    }
    ghost var at := Cd([], combined);
    CdIsNormal([], combined);
    var normalized := Normalize(combined);
    SpelledTrims(at, EndsInSlash(combined));
    if |normalized| > 1 { normalized := TrimEnd(normalized); }
    result := if normalized != "" && normalized[0] == '/' then normalized else "/" + normalized;
  }

  lemma CdCombined(at: seq<string>, part: string, after: string)
    requires part != "" && !Absolute(after)
    ensures Cd(at, if after == "" then part else part + "/" + after) == Cd(Cd(at, part), after)
  {
    if after != "" {
      SplitAppend(part, after);
      WalkAppend(if Absolute(part) then [] else at, Split(part), Split(after), true);
    }
  }

  lemma SpelledTrims(at: seq<string>, trailing: bool)
    requires Normal(at, true)
    ensures var s := Spelling(at, true, trailing);
            Spelled(at) == if |s| > 1 then TrimEnd(s) else s
  {
    if |at| > 0 {
      JoinEnds(at);
      var s := "/" + Join(at);
      assert TrimEnd(s) == s;
      assert (s + "/")[..|s|] == s;
      assert "/" + (Join(at) + "/") == s + "/";
    }
  }

  /** A resolved path spells exactly one location: it reads back as that location from anywhere. */
  lemma SpelledReadsBack(at: seq<string>, elsewhere: seq<string>)
    requires Normal(at, true)
    ensures Cd(elsewhere, Spelled(at)) == at
  {
    SpellingSplits(at, true, false, []);
    assert [] + at == at;
    WalkNormal([], at, true);
    assert Spelled(at) == Spelling(at, true, false);
  }

  // ---- relative ----

  function Common(a: seq<string>, b: seq<string>): (n: nat)
    ensures n <= |a| && n <= |b| && a[..n] == b[..n]
    ensures n < |a| && n < |b| ==> a[n] != b[n]
  {
    if |a| > 0 && |b| > 0 && a[0] == b[0] then
      assert forall n | 0 <= n <= |a[1..]| && n <= |b[1..]| && a[1..][..n] == b[1..][..n] ::
        a[..n + 1] == [a[0]] + a[1..][..n] && b[..n + 1] == [b[0]] + b[1..][..n];
      1 + Common(a[1..], b[1..])
    else 0
  }

  function Ups(n: nat): seq<string> {
    seq(n, i => "..")
  }

  /** Climb to the last common ancestor, then go down. */
  function Route(a: seq<string>, b: seq<string>): seq<string> {
    Ups(|a| - Common(a, b)) + b[Common(a, b)..]
  }

  lemma SpelledNames(at: seq<string>)
    requires Normal(at, true)
    ensures NonEmpty(Split(Spelled(at))) == at
  {
    assert Spelled(at) == Spelling(at, true, false);
    if |at| > 0 {
      SpellingPieces(at, true, false);
    } else {
      RootPieces();
    }
  }

  lemma NormalPrefix(at: seq<string>, k: nat)
    requires Normal(at, true) && k <= |at|
    ensures Normal(at[..k], true)
  {
    assert forall i | 0 <= i < k :: at[..k][i] == at[i];
  }

  lemma {:induction false} WalkUps(at: seq<string>, n: nat)
    requires Normal(at, true) && n <= |at|
    ensures Walk(at, Ups(n), true) == at[..|at| - n]
    decreases n
  {
    if n > 0 {
      NormalPrefix(at, |at| - 1);
      assert Ups(n)[1..] == Ups(n - 1);
      assert Ups(n)[0] == "..";
      WalkUps(at[..|at| - 1], n - 1);
    }
  }

  /** The route leads from the one location to the other. */
  lemma RouteReaches(a: seq<string>, b: seq<string>)
    requires Normal(a, true) && Normal(b, true)
    ensures Cd(a, Join(Route(a, b))) == b
  {
    var n := Common(a, b);
    var names := b[n..];
    var ups := Ups(|a| - n);
    var route := Route(a, b);
    var path := Join(route);
    assert Walk(a, route, true) == b by {
      assert a[..n] + names == b by { assert b[..n] + b[n..] == b; }
      WalkUps(a, |a| - n);
      WalkNormal(a[..n], names, true);
      hide Normal, Step, Common, Ups, Walk;
      WalkAppend(a, ups, names, true);
    }
    RouteParts(a, b);
    if |route| > 0 {
      SplitJoin(route);
      JoinEnds(route);
      hide Normal, Step, Common, Ups, Walk, Split, Join;
      assert !Absolute(path) && path != "" && Split(path) == route;
    }
  }

  lemma RouteParts(a: seq<string>, b: seq<string>)
    requires Normal(b, true)
    ensures SlashFree(Route(a, b)) && NoneEmpty(Route(a, b))
  {
    var n := Common(a, b);
    var ups, names := Ups(|a| - n), b[n..];
    forall i | 0 <= i < |ups + names| ensures (ups + names)[i] != "" && '/' !in (ups + names)[i] {
      if i >= |ups| { assert (ups + names)[i] == b[n + (i - |ups|)]; }
    }
  }

  method Relative(cwd: string, from: string, to: string) returns (result: string)
    requires Absolute(cwd)
    ensures result == Join(Route(Visit([], [cwd, from]), Visit([], [cwd, to])))
    ensures Visit([], [cwd, from, result]) == Visit([], [cwd, to])
  {
    hide Walk, Step, Split, Join, Kept, NonEmpty, Common, Ups, Cd;
    ghost var a, b := Visit([], [cwd, from]), Visit([], [cwd, to]);
    assert Normal([], true);
    VisitIsNormal([], [cwd, from]);
    VisitIsNormal([], [cwd, to]);
    assert [cwd] + [from] == [cwd, from] && [cwd] + [to] == [cwd, to];
    hide Normal;
    var fromPath := Resolve(cwd, [from]);
    var toPath := Resolve(cwd, [to]);
    SpelledNames(a);
    SpelledNames(b);
    var fromParts, toParts := NonEmpty(Split(fromPath)), NonEmpty(Split(toPath));
    var common := Common(fromParts, toParts);
    result := Join(Ups(|fromParts| - common) + toParts[common..]);
    RouteReaches(a, b);
    assert [cwd, from, result] == [cwd, from] + [result];
    VisitAppend([], [cwd, from], [result]);
    assert Visit(a, [result]) == Cd(a, result);
  }

  lemma SharedItem(a: seq<string>, b: seq<string>, n: nat, i: nat)
    requires i < n <= |a| && n <= |b| && a[..n] == b[..n]
    ensures a[i] == b[i]
  {
    assert a[..n][i] == b[..n][i];
  }

  lemma CommonUnique(a: seq<string>, b: seq<string>, n: nat)
    requires n <= |a| && n <= |b| && a[..n] == b[..n] && (n < |a| && n < |b| ==> a[n] != b[n])
    ensures n == Common(a, b)
  {
    var m := Common(a, b);
    if m < n { SharedItem(a, b, n, m); } else if n < m { SharedItem(a, b, m, n); }
  }

  // ---- the route is shortest ----

  function Distance(a: seq<string>, b: seq<string>): int {
    |a| + |b| - 2 * Common(a, b)
  }

  /** One step of a walk brings the goal nearer by at most one. */
  lemma StepDistance(at: seq<string>, part: string, goal: seq<string>)
    requires Normal(at, true)
    ensures Distance(at, goal) <= Distance(Step(at, part, true), goal) + 1
    ensures part == "" || part == "." ==> Step(at, part, true) == at
  {
    var next := Step(at, part, true);
    if next != at {
      var m, n := Common(at, goal), Common(next, goal);
      if |next| < |at| {
        CommonOfPrefix(at, goal, |next|);
      } else {
        assert next[..|at|] == at;
        CommonOfPrefix(next, goal, |at|);
      }
    }
  }

  /** Dropping the tail of a list cuts what it shares with another list down to the kept length. */
  lemma CommonOfPrefix(a: seq<string>, b: seq<string>, k: nat)
    requires k <= |a|
    ensures Common(a[..k], b) == if Common(a, b) < k then Common(a, b) else k
  {
    var m := Common(a, b);
    var n := if m < k then m else k;
    assert a[..k][..n] == a[..m][..n] == b[..m][..n] == b[..n];
    CommonUnique(a[..k], b, n);
  }

  function Steps(parts: seq<string>): nat {
    if |parts| == 0 then 0
    else (if parts[0] == "" || parts[0] == "." then 0 else 1) + Steps(parts[1..])
  }

  lemma {:induction false} WalkDistance(at: seq<string>, parts: seq<string>)
    requires Normal(at, true) && SlashFree(parts)
    ensures Distance(at, Walk(at, parts, true)) <= Steps(parts)
    decreases |parts|
  {
    var goal := Walk(at, parts, true);
    if |parts| == 0 {
      CommonUnique(at, at, |at|);
    } else {
      StepDistance(at, parts[0], goal);
      NormalStep(at, parts[0], true);
      WalkDistance(Step(at, parts[0], true), parts[1..]);
    }
  }

  /** No relative path between two locations takes fewer steps than the route. */
  lemma RouteIsShortest(a: seq<string>, b: seq<string>, path: string)
    requires Normal(a, true) && !Absolute(path) && Cd(a, path) == b
    ensures |Route(a, b)| <= Steps(Split(path))
  {
    if path == "" {
      CommonUnique(a, a, |a|);
    } else {
      WalkDistance(a, Split(path));
    }
  }
}
