/** The insertion-ordered map. Entries are kept in a vector; a deletion leaves a tombstone while an
    iteration is open, so that cursors stay valid, and compacts otherwise. Everything is proved
    against the plain association list of live entries. */
module OrderedMap {
  import opened Options

  type Entries<K, V> = seq<Option<(K, V)>>

  ghost predicate Equivalence<K(!new)>(equal: (K, K) -> bool) {
    && (forall a :: equal(a, a))
    && (forall a, b :: equal(a, b) ==> equal(b, a))
    && (forall a, b, c :: equal(a, b) && equal(b, c) ==> equal(a, c))
  }

  // ---- the plain association list ----

  /** The live entries, oldest first. */
  function Live<K, V>(entries: Entries<K, V>): seq<(K, V)> {
    if entries == [] then [] else (if entries[0].Some? then [entries[0].value] else []) + Live(entries[1..])
  }

  /** The position of a key in a list, or the length. */
  function Position<K, V>(list: seq<(K, V)>, key: K, equal: (K, K) -> bool): (i: nat)
    ensures i <= |list|
    ensures i < |list| ==> equal(list[i].0, key)
    ensures forall j :: 0 <= j < i ==> !equal(list[j].0, key)
  {
    if list == [] then 0 else if equal(list[0].0, key) then 0 else 1 + Position(list[1..], key, equal)
  }

  /** A known key keeps its place and its first spelling; a new one goes last. */
  function ListSet<K, V>(list: seq<(K, V)>, key: K, value: V, equal: (K, K) -> bool): seq<(K, V)> {
    var i := Position(list, key, equal);
    if i < |list| then list[i := (list[i].0, value)] else list + [(key, value)]
  }

  function ListDelete<K, V>(list: seq<(K, V)>, key: K, equal: (K, K) -> bool): seq<(K, V)> {
    var i := Position(list, key, equal);
    if i < |list| then list[..i] + list[i + 1..] else list
  }

  function ListGet<K, V>(list: seq<(K, V)>, key: K, equal: (K, K) -> bool): Option<V> {
    var i := Position(list, key, equal);
    if i < |list| then Some(list[i].1) else None
  }

  ghost predicate DistinctKeys<K, V>(list: seq<(K, V)>, equal: (K, K) -> bool) {
    forall i, j :: 0 <= i < j < |list| ==> !equal(list[i].0, list[j].0)
  }

  // ---- the vector ----

  predicate Holds<K, V>(entry: Option<(K, V)>, key: K, equal: (K, K) -> bool) {
    entry.Some? && equal(entry.value.0, key)
  }

  /** The first live entry with the key, or the length. */
  function Slot<K, V>(entries: Entries<K, V>, key: K, equal: (K, K) -> bool): (i: nat)
    ensures i <= |entries|
    ensures i < |entries| ==> Holds(entries[i], key, equal)
    ensures forall j :: 0 <= j < i ==> !Holds(entries[j], key, equal)
  {
    if entries == [] then 0 else if Holds(entries[0], key, equal) then 0 else 1 + Slot(entries[1..], key, equal)
  }

  function SetIn<K, V>(entries: Entries<K, V>, key: K, value: V, equal: (K, K) -> bool): Entries<K, V> {
    var i := Slot(entries, key, equal);
    if i < |entries| then entries[i := Some((entries[i].value.0, value))] else entries + [Some((key, value))]
  }

  function BuryIn<K, V>(entries: Entries<K, V>, key: K, equal: (K, K) -> bool): Entries<K, V> {
    var i := Slot(entries, key, equal);
    if i < |entries| then entries[i := None] else entries
  }

  function Buried<K, V>(entries: Entries<K, V>): (r: Entries<K, V>)
    ensures |r| == |entries| && forall i :: 0 <= i < |r| ==> r[i] == None
  {
    seq(|entries|, _ => None)
  }

  /** `retain(Option::is_some)`. */
  function Compact<K, V>(entries: Entries<K, V>): Entries<K, V> {
    if entries == [] then [] else (if entries[0].Some? then [entries[0]] else []) + Compact(entries[1..])
  }

  lemma {:induction false} LiveConcat<K, V>(a: Entries<K, V>, b: Entries<K, V>)
    ensures Live(a + b) == Live(a) + Live(b)
    decreases |a|
  {
    if a == [] {
      assert a + b == b;
    } else {
      var whole := a + b;
      assert whole[0] == a[0] && whole[1..] == a[1..] + b;
      LiveConcat(a[1..], b);
      LiveHead(whole);
      LiveHead(a);
      hide Live;
    }
  }

  lemma {:induction false} LiveOfCompact<K, V>(entries: Entries<K, V>)
    ensures Live(Compact(entries)) == Live(entries) && |Compact(entries)| == |Live(entries)|
    decreases |entries|
  {
    if entries != [] {
      LiveOfCompact(entries[1..]);
      LiveConcat(if entries[0].Some? then [entries[0]] else [], Compact(entries[1..]));
      assert entries[0].Some? ==> Live([entries[0]]) == [entries[0].value] by { assert [entries[0]][1..] == []; }
    }
  }

  lemma {:induction false} LiveOfBuried<K, V>(entries: Entries<K, V>)
    ensures Live(Buried(entries)) == []
    decreases |entries|
  {
    if entries != [] {
      LiveOfBuried(entries[1..]);
      assert Buried(entries)[1..] == Buried(entries[1..]);
    }
  }

  /** The key's slot in the vector and its position in the list are the same entry. */
  lemma {:induction false} SlotIsPosition<K, V>(entries: Entries<K, V>, key: K, equal: (K, K) -> bool)
    ensures Slot(entries, key, equal) < |entries| <==> Position(Live(entries), key, equal) < |Live(entries)|
    ensures |Live(entries[..Slot(entries, key, equal)])| == Position(Live(entries), key, equal)
    decreases |entries|
  {
    if entries != [] {
      var rest := entries[1..];
      SlotIsPosition(rest, key, equal);
      if !Holds(entries[0], key, equal) {
        var i := Slot(rest, key, equal);
        assert entries[..1 + i] == [entries[0]] + rest[..i];
        assert entries[..1 + i][1..] == rest[..i];
        if entries[0].Some? {
          assert Live(entries) == [entries[0].value] + Live(rest);
          assert Live(entries)[1..] == Live(rest);
        } else {
          assert Live(entries) == Live(rest);
        }
      }
    }
  }

  lemma SplitAt<K, V>(entries: Entries<K, V>, i: nat)
    requires i < |entries|
    ensures Live(entries) == Live(entries[..i]) + (if entries[i].Some? then [entries[i].value] else []) + Live(entries[i + 1..])
  {
    hide Live;
    var tail := entries[i..];
    assert entries == entries[..i] + tail && tail[0] == entries[i] && tail[1..] == entries[i + 1..];
    LiveConcat(entries[..i], tail);
    LiveHead(tail);
    Regrouped(Live(entries[..i]), if entries[i].Some? then [entries[i].value] else [], Live(entries[i + 1..]));
  }

  lemma Regrouped<T>(a: seq<T>, b: seq<T>, c: seq<T>)
    ensures a + (b + c) == a + b + c
  {
  }

  lemma LiveHead<K, V>(entries: Entries<K, V>)
    requires entries != []
    ensures Live(entries) == (if entries[0].Some? then [entries[0].value] else []) + Live(entries[1..])
  {
  }

  lemma LiveOne<K, V>(entry: (K, V))
    ensures Live([Some(entry)]) == [entry]
  {
    assert [Some(entry)][1..] == [];
  }

  lemma SetRefines<K, V>(entries: Entries<K, V>, key: K, value: V, equal: (K, K) -> bool)
    ensures Live(SetIn(entries, key, value, equal)) == ListSet(Live(entries), key, value, equal)
    ensures |Live(SetIn(entries, key, value, equal))| == |Live(entries)| + if Slot(entries, key, equal) < |entries| then 0 else 1
  {
    hide Live, Slot, Position;
    SlotIsPosition(entries, key, equal);
    var i := Slot(entries, key, equal);
    if i < |entries| {
      var r := SetIn(entries, key, value, equal);
      SplitAt(entries, i);
      SplitAt(r, i);
      assert r[..i] == entries[..i] && r[i + 1..] == entries[i + 1..];
      var a, b := Live(entries[..i]), Live(entries[i + 1..]);
      assert (a + [entries[i].value] + b)[|a| := (entries[i].value.0, value)] == a + [(entries[i].value.0, value)] + b;
    } else {
      LiveConcat(entries, [Some((key, value))]);
      LiveOne((key, value));
    }
  }

  lemma DeleteRefines<K, V>(entries: Entries<K, V>, key: K, equal: (K, K) -> bool)
    ensures Live(BuryIn(entries, key, equal)) == ListDelete(Live(entries), key, equal)
    ensures |Live(BuryIn(entries, key, equal))| == |Live(entries)| - if Slot(entries, key, equal) < |entries| then 1 else 0
  {
    hide Live, Slot, Position;
    SlotIsPosition(entries, key, equal);
    var i := Slot(entries, key, equal);
    if i < |entries| {
      var r := BuryIn(entries, key, equal);
      SplitAt(entries, i);
      SplitAt(r, i);
      assert r[..i] == entries[..i] && r[i + 1..] == entries[i + 1..];
      var a, x, b := Live(entries[..i]), [entries[i].value], Live(entries[i + 1..]);
      assert (a + x + b)[..|a|] == a && (a + x + b)[|a| + 1..] == b && a + [] + b == a + b;
    }
  }

  lemma GetRefines<K, V>(entries: Entries<K, V>, key: K, equal: (K, K) -> bool)
    ensures var i := Slot(entries, key, equal);
            ListGet(Live(entries), key, equal) == if i < |entries| then Some(entries[i].value.1) else None
  {
    SlotIsPosition(entries, key, equal);
    var i := Slot(entries, key, equal);
    if i < |entries| { SplitAt(entries, i); }
  }

  /** A key that is not there goes last, and deleting it or asking for it changes and finds nothing. */
  lemma NewKeyGoesLast<K, V>(list: seq<(K, V)>, key: K, value: V, equal: (K, K) -> bool)
    requires forall j :: 0 <= j < |list| ==> !equal(list[j].0, key)
    ensures ListSet(list, key, value, equal) == list + [(key, value)]
    ensures ListDelete(list, key, equal) == list && ListGet(list, key, equal) == None
  {
    var i := Position(list, key, equal);
    assert i == |list|;
  }

  /** A key that is there keeps its place and its first spelling, and deleting it moves no other. */
  lemma KnownKeyStays<K(!new), V>(list: seq<(K, V)>, key: K, value: V, equal: (K, K) -> bool, at: nat)
    requires Equivalence(equal) && DistinctKeys(list, equal) && at < |list| && equal(list[at].0, key)
    ensures ListSet(list, key, value, equal) == list[..at] + [(list[at].0, value)] + list[at + 1..]
    ensures ListDelete(list, key, equal) == list[..at] + list[at + 1..]
    ensures ListGet(list, key, equal) == Some(list[at].1)
  {
    PositionUnique(list, key, at, equal);
  }

  /** Keys stay pairwise unequal, so the list is a map. */
  lemma SetKeepsDistinct<K(!new), V>(list: seq<(K, V)>, key: K, value: V, equal: (K, K) -> bool)
    requires Equivalence(equal) && DistinctKeys(list, equal)
    ensures DistinctKeys(ListSet(list, key, value, equal), equal)
    ensures ListGet(ListSet(list, key, value, equal), key, equal) == Some(value)
  {
    var r := ListSet(list, key, value, equal);
    assert forall i :: 0 <= i < |list| ==> r[i].0 == list[i].0;
    PositionUnique(r, key, Position(list, key, equal), equal);
  }

  lemma DeleteKeepsDistinct<K(!new), V>(list: seq<(K, V)>, key: K, equal: (K, K) -> bool)
    requires Equivalence(equal) && DistinctKeys(list, equal)
    ensures DistinctKeys(ListDelete(list, key, equal), equal)
    ensures ListGet(ListDelete(list, key, equal), key, equal) == None
  {
    var i, r := Position(list, key, equal), ListDelete(list, key, equal);
    if i < |list| {
      forall j | 0 <= j < |r| ensures !equal(r[j].0, key) {
        var from := if j < i then j else j + 1;
        assert r[j] == list[from];
      }
    }
  }

  lemma PositionUnique<K, V>(list: seq<(K, V)>, key: K, p: nat, equal: (K, K) -> bool)
    requires p <= |list| && (p < |list| ==> equal(list[p].0, key))
    requires forall j :: 0 <= j < p ==> !equal(list[j].0, key)
    ensures Position(list, key, equal) == p
  {
  }

  /** Setting or deleting one key leaves what every other key maps to. */
  lemma OtherKeysKept<K(!new), V>(list: seq<(K, V)>, key: K, value: V, other: K, equal: (K, K) -> bool)
    requires Equivalence(equal) && DistinctKeys(list, equal) && !equal(key, other)
    ensures ListGet(ListSet(list, key, value, equal), other, equal) == ListGet(list, other, equal)
    ensures ListGet(ListDelete(list, key, equal), other, equal) == ListGet(list, other, equal)
  {
    var set_, deleted := ListSet(list, key, value, equal), ListDelete(list, key, equal);
    var i, p := Position(list, key, equal), Position(list, other, equal);
    assert p < |list| ==> i != p;
    PositionUnique(set_, other, if p < |list| then p else |set_|, equal);
    if i < |list| {
      var q := if p < i then p else p - 1;
      assert forall j :: 0 <= j < |deleted| ==> deleted[j] == list[if j < i then j else j + 1];
      PositionUnique(deleted, other, q, equal);
    }
  }

  // ---- iteration ----

  /** One open iteration: an upward cursor over the vector, and the entries it has visited, while
      the program keeps changing the map. */
  datatype Walk<K, V> = Walk(entries: Entries<K, V>, depth: nat, cursor: nat, visited: seq<(nat, K)>)

  datatype Step<K, V> = Advance | DoSet(key: K, value: V) | DoDelete(key: K) | DoClear | Enter | Exit

  /** Inner iterations are balanced: they exit before the walk's own does. */
  function Stepped<K, V>(w: Walk<K, V>, step: Step<K, V>, equal: (K, K) -> bool): Walk<K, V> {
    match step
    case Advance =>
      if w.cursor < |w.entries| then
        w.(cursor := w.cursor + 1,
           visited := if w.entries[w.cursor].Some? then w.visited + [(w.cursor, w.entries[w.cursor].value.0)] else w.visited)
      else w
    case DoSet(key, value) => w.(entries := SetIn(w.entries, key, value, equal))
    case DoDelete(key) =>
      var entries := BuryIn(w.entries, key, equal);
      w.(entries := if w.depth == 0 then Compact(entries) else entries)
    case DoClear => w.(entries := if w.depth == 0 then [] else Buried(w.entries))
    case Enter => w.(depth := w.depth + 1)
    case Exit => if w.depth >= 2 then w.(depth := w.depth - 1) else w
  }

  function Walked<K, V>(w: Walk<K, V>, steps: seq<Step<K, V>>, equal: (K, K) -> bool): Walk<K, V> {
    if steps == [] then w else Stepped(Walked(w, steps[..|steps| - 1], equal), steps[|steps| - 1], equal)
  }

  /** No entry moves, none returns from the dead, and new ones come last. */
  ghost predicate Undisturbed<K, V>(before: Entries<K, V>, after: Entries<K, V>) {
    && |before| <= |after|
    && forall i :: 0 <= i < |before| && after[i].Some? ==> before[i].Some? && after[i].value.0 == before[i].value.0
  }

  ghost predicate VisitedAt<K, V>(w: Walk<K, V>, i: nat) {
    exists v :: 0 <= v < |w.visited| && w.visited[v].0 == i
  }

  /** What holds while the iteration is open. */
  ghost predicate OnTheWay<K, V>(w: Walk<K, V>) {
    && w.depth >= 1 && w.cursor <= |w.entries|
    && (forall v :: 0 <= v < |w.visited| ==> w.visited[v].0 < w.cursor)
    && (forall u, v :: 0 <= u < v < |w.visited| ==> w.visited[u].0 < w.visited[v].0)
    && (forall i :: 0 <= i < w.cursor && w.entries[i].Some? ==> VisitedAt(w, i))
    && (forall v :: 0 <= v < |w.visited| && w.entries[w.visited[v].0].Some? ==>
          w.entries[w.visited[v].0].value.0 == w.visited[v].1)
  }

  lemma StepUndisturbed<K, V>(w: Walk<K, V>, step: Step<K, V>, equal: (K, K) -> bool)
    requires w.depth >= 1
    ensures Undisturbed(w.entries, Stepped(w, step, equal).entries) && Stepped(w, step, equal).depth >= 1
  {
  }

  lemma StepOnTheWay<K, V>(w: Walk<K, V>, step: Step<K, V>, equal: (K, K) -> bool)
    requires OnTheWay(w)
    ensures OnTheWay(Stepped(w, step, equal))
  {
    var t := Stepped(w, step, equal);
    StepUndisturbed(w, step, equal);
    if step == Advance && w.cursor < |w.entries| {
      forall i | 0 <= i < t.cursor && t.entries[i].Some? ensures VisitedAt(t, i) {
        if i < w.cursor {
          assert VisitedAt(w, i);
          var v :| 0 <= v < |w.visited| && w.visited[v].0 == i;
          assert t.visited[v].0 == i;
        } else {
          assert t.visited[|w.visited|].0 == i;
        }
      }
    } else {
      assert t.visited == w.visited && t.cursor == w.cursor;
      forall i | 0 <= i < t.cursor && t.entries[i].Some? ensures VisitedAt(t, i) {
        assert VisitedAt(w, i);
      }
    }
  }

  lemma {:induction false} WalkOnTheWay<K, V>(w: Walk<K, V>, steps: seq<Step<K, V>>, equal: (K, K) -> bool)
    requires OnTheWay(w)
    ensures OnTheWay(Walked(w, steps, equal)) && Undisturbed(w.entries, Walked(w, steps, equal).entries)
    decreases |steps|
  {
    if steps != [] {
      var before := Walked(w, steps[..|steps| - 1], equal);
      WalkOnTheWay(w, steps[..|steps| - 1], equal);
      StepOnTheWay(before, steps[|steps| - 1], equal);
      StepUndisturbed(before, steps[|steps| - 1], equal);
    }
  }

  /** Whatever the program does during an iteration, positions are visited upwards and at most once
      each, and when the cursor has passed the end every entry that is alive then has been visited,
      under its key. */
  lemma EachSurvivorVisitedOnce<K, V>(entries: Entries<K, V>, depth: nat, steps: seq<Step<K, V>>, equal: (K, K) -> bool)
    requires depth >= 1
    ensures var w := Walked(Walk(entries, depth, 0, []), steps, equal);
            && (forall u, v :: 0 <= u < v < |w.visited| ==> w.visited[u].0 < w.visited[v].0)
            && Undisturbed(entries, w.entries)
            && (w.cursor == |w.entries| ==>
                  forall i :: 0 <= i < |w.entries| && w.entries[i].Some? ==> (i, w.entries[i].value.0) in w.visited)
  {
    var start := Walk(entries, depth, 0, []);
    WalkOnTheWay(start, steps, equal);
    var w := Walked(start, steps, equal);
    if w.cursor == |w.entries| {
      forall i | 0 <= i < |w.entries| && w.entries[i].Some? ensures (i, w.entries[i].value.0) in w.visited {
        assert VisitedAt(w, i);
        var v :| 0 <= v < |w.visited| && w.visited[v].0 == i;
        assert w.visited[v] == (i, w.entries[i].value.0);
      }
    }
  }

  // ---- the object ----

  class JsMap<K(!new), V> {
    const equal: (K, K) -> bool
    var entries: Entries<K, V>
    var live: nat
    var iterationDepth: nat

    /** `live` is exact, and outside iterations there are no tombstones. */
    ghost predicate Valid()
      reads this
    {
      && Equivalence(equal)
      && live == |Live(entries)|
      && DistinctKeys(Contents(), equal)
      && (iterationDepth == 0 ==> forall i :: 0 <= i < |entries| ==> entries[i].Some?)
    }

    ghost function Contents(): seq<(K, V)>
      reads this
    {
      Live(entries)
    }

    constructor (equal: (K, K) -> bool)
      requires Equivalence(equal)
      ensures Valid() && Contents() == [] && this.equal == equal && iterationDepth == 0
    {
      this.equal := equal;
      entries, live, iterationDepth := [], 0, 0;
    }

    method Find(key: K) returns (i: nat)
      ensures i == Slot(entries, key, equal)
    {
      i := 0;
      while i < |entries|
        invariant i <= |entries| && forall j :: 0 <= j < i ==> !Holds(entries[j], key, equal)
      {
        if entries[i].Some? && equal(entries[i].value.0, key) {
          break;
        }
        i := i + 1;
      }
    }

    method Set(key: K, value: V)
      requires Valid()
      modifies this
      ensures Valid() && Contents() == ListSet(old(Contents()), key, value, equal)
      ensures iterationDepth == old(iterationDepth) && entries == SetIn(old(entries), key, value, equal)
    {
      SetRefines(entries, key, value, equal);
      SetKeepsDistinct(Contents(), key, value, equal);
      var i := Find(key);
      if i < |entries| {
        entries := entries[i := Some((entries[i].value.0, value))];
      } else {
        entries := entries + [Some((key, value))];
        live := live + 1;
      }
    }

    method Get(key: K) returns (r: Option<V>)
      requires Valid()
      ensures r == ListGet(Contents(), key, equal)
    {
      GetRefines(entries, key, equal);
      var i := Find(key);
      return if i < |entries| then Some(entries[i].value.1) else None;
    }

    method Delete(key: K) returns (found: bool)
      requires Valid()
      modifies this
      ensures Valid() && Contents() == ListDelete(old(Contents()), key, equal)
      ensures found <==> ListGet(old(Contents()), key, equal).Some?
      ensures iterationDepth == old(iterationDepth)
      ensures iterationDepth > 0 ==> entries == BuryIn(old(entries), key, equal)
    {
      DeleteRefines(entries, key, equal);
      DeleteKeepsDistinct(Contents(), key, equal);
      GetRefines(entries, key, equal);
      var i := Find(key);
      if i == |entries| {
        return false;
      }
      entries := entries[i := None];
      live := live - 1;
      if iterationDepth == 0 {
        LiveOfCompact(entries);
        CompactHasNoTombs(entries);
        entries := Compact(entries);
      }
      return true;
    }

    method Size() returns (n: nat)
      requires Valid()
      ensures n == |Contents()|
    {
      return live;
    }

    method Clear()
      requires Valid()
      modifies this
      ensures Valid() && Contents() == [] && iterationDepth == old(iterationDepth)
      ensures iterationDepth > 0 ==> entries == Buried(old(entries))
    {
      LiveOfBuried(entries);
      live := 0;
      entries := if iterationDepth == 0 then [] else Buried(entries);
    }

    method IterEnter()
      requires Valid()
      modifies this`iterationDepth
      ensures Valid() && iterationDepth == old(iterationDepth) + 1
    {
      iterationDepth := iterationDepth + 1;
    }

    /** Leaving the last open iteration compacts; leaving none panics. */
    method IterExit() returns (panicked: bool)
      requires Valid()
      modifies this
      ensures Valid() && Contents() == old(Contents())
      ensures panicked <==> old(iterationDepth) == 0
      ensures !panicked ==> iterationDepth == old(iterationDepth) - 1
      ensures panicked || iterationDepth > 0 ==> entries == old(entries)
    {
      if iterationDepth == 0 {
        return true;
      }
      iterationDepth := iterationDepth - 1;
      if iterationDepth == 0 {
        LiveOfCompact(entries);
        CompactHasNoTombs(entries);
        entries := Compact(entries);
      }
      return false;
    }
  }

  lemma {:induction false} CompactHasNoTombs<K, V>(entries: Entries<K, V>)
    ensures forall i :: 0 <= i < |Compact(entries)| ==> Compact(entries)[i].Some?
    decreases |entries|
  {
    if entries != [] { CompactHasNoTombs(entries[1..]); }
  }
}
