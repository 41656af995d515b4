/** Arrays with holes. The stored form is a dense vector plus optional bookkeeping: a state for every
    stored slot, a logical length beyond them, and the explicit undefined slots in between. Holes
    keep stale payloads. Everything is proved against the plain sequence of slots. */
module SparseArray {
  import opened Arithmetic
  import opened Numbers
  import opened Options

  datatype SlotState = HoleState | ValueState | UndefinedState

  /** What a program sees at an index. */
  datatype Slot<T> = Hole | Value(v: T) | Undefined

  /** `rooted` says that the tail set has owned a tree node since it was made: an ordered set that
      never held anything accepts a reversed range query, one that did panics on it. */
  datatype Sparse = Sparse(length: nat, states: seq<SlotState>, tail: set<nat>, rooted: bool)

  const DENSE_LIMIT: nat := 1048576

  /** Completed, panicked, or threw the runtime's "not supported" error or a RangeError or TypeError. */
  datatype Outcome<R> = Done(result: R) | Panicked | Unsupported | RangeError | TypeError

  datatype Store<T> = Store(elements: seq<T>, sparse: Option<Sparse>)

  // ---- meaning of the stored form ----

  ghost predicate Valid<T>(s: Store<T>) {
    s.sparse.Some? ==>
      var sparse := s.sparse.value;
      && |sparse.states| == |s.elements| <= sparse.length
      && (forall i :: i in sparse.tail ==> |s.elements| <= i < sparse.length)
      && (sparse.tail != {} ==> sparse.rooted)
  }

  function LengthOf<T>(s: Store<T>): nat {
    if s.sparse.None? then |s.elements| else s.sparse.value.length
  }

  function StateOf<T>(s: Store<T>, i: nat): SlotState {
    match s.sparse
    case None => if i < |s.elements| then ValueState else HoleState
    case Some(sparse) =>
      if i >= sparse.length then HoleState
      else if i < |sparse.states| then sparse.states[i]
      else if i in sparse.tail then UndefinedState
      else HoleState
  }

  /** The slot at i: a payload is read only where the state says value. */
  ghost function SlotAt<T>(s: Store<T>, i: nat): Slot<T>
    requires Valid(s)
  {
    match StateOf(s, i)
    case HoleState => Hole
    case UndefinedState => Undefined
    case ValueState => Value(s.elements[i])
  }

  ghost function Slots<T>(s: Store<T>): (slots: seq<Slot<T>>)
    requires Valid(s)
    ensures |slots| == LengthOf(s)
    ensures forall i :: 0 <= i < |slots| ==> slots[i] == SlotAt(s, i)
  {
    seq(LengthOf(s), i requires 0 <= i < LengthOf(s) => SlotAt(s, i))
  }

  // ---- the plain operations ----

  function Holes<T>(n: nat): (slots: seq<Slot<T>>)
    ensures |slots| == n && forall i :: 0 <= i < n ==> slots[i] == Hole
  {
    seq(n, _ => Hole)
  }

  function Resized<T>(slots: seq<Slot<T>>, n: nat): (r: seq<Slot<T>>)
    ensures |r| == n
    ensures forall i :: 0 <= i < n ==> r[i] == if i < |slots| then slots[i] else Hole
  {
    if n <= |slots| then slots[..n] else slots + Holes(n - |slots|)
  }

  /** Storing at or past the end makes the slots in between holes. */
  function Stored<T>(slots: seq<Slot<T>>, at: nat, slot: Slot<T>): (r: seq<Slot<T>>)
    ensures |r| == Max(|slots|, at + 1) && r[at] == slot
    ensures forall i :: 0 <= i < |r| && i != at ==> r[i] == if i < |slots| then slots[i] else Hole
  {
    if at < |slots| then slots[at := slot] else Resized(slots, at) + [slot]
  }

  function Deleted<T>(slots: seq<Slot<T>>, at: nat): (r: seq<Slot<T>>)
    ensures |r| == |slots| && forall i :: 0 <= i < |r| ==> r[i] == if i == at then Hole else slots[i]
  {
    if at < |slots| then slots[at := Hole] else slots
  }

  /** Copying methods read holes as undefined. */
  function Read<T>(slot: Slot<T>): Slot<T> {
    if slot.Hole? then Undefined else slot
  }

  function ReadAll<T>(slots: seq<Slot<T>>): (r: seq<Slot<T>>)
    ensures |r| == |slots| && forall i :: 0 <= i < |r| ==> r[i] == Read(slots[i])
  {
    seq(|slots|, i requires 0 <= i < |slots| => Read(slots[i]))
  }

  function Reversed<S>(s: seq<S>): (r: seq<S>)
    ensures |r| == |s| && forall i :: 0 <= i < |s| ==> r[i] == s[|s| - 1 - i]
  {
    seq(|s|, i requires 0 <= i < |s| => s[|s| - 1 - i])
  }

  // ---- bookkeeping ----

  /** Bookkeeping for an array that had none: every stored slot is a value. */
  function Opened<T>(s: Store<T>): (r: Store<T>)
    ensures r.sparse.Some? && r.elements == s.elements
    ensures s.sparse.Some? ==> r == s
  {
    if s.sparse.Some? then s
    else s.(sparse := Some(Sparse(|s.elements|, seq(|s.elements|, _ => ValueState), {}, false)))
  }

  lemma OpenedSame<T>(s: Store<T>)
    requires Valid(s)
    ensures Valid(Opened(s)) && Slots(Opened(s)) == Slots(s)
  {
  }

  /** Bookkeeping is dropped once it says nothing. */
  function Normalized<T>(s: Store<T>): Store<T> {
    if s.sparse.Some? && s.sparse.value.length == |s.elements| && s.sparse.value.tail == {}
       && forall i :: 0 <= i < |s.sparse.value.states| ==> s.sparse.value.states[i] == ValueState
    then s.(sparse := None) else s
  }

  lemma NormalizedSame<T>(s: Store<T>)
    requires Valid(s)
    ensures Valid(Normalized(s)) && Slots(Normalized(s)) == Slots(s)
  {
  }

  ghost predicate AllValues<T>(slots: seq<Slot<T>>) {
    forall i :: 0 <= i < |slots| ==> slots[i].Value?
  }

  /** Bookkeeping says something, or there are no slots it could speak of. */
  ghost predicate Tight<T>(s: Store<T>)
    requires Valid(s)
  {
    s.sparse.Some? && AllValues(Slots(s)) ==> Slots(s) == []
  }

  /** There is bookkeeping exactly if some slot is no value. */
  ghost predicate Exact<T>(s: Store<T>)
    requires Valid(s)
  {
    s.sparse.None? <==> AllValues(Slots(s))
  }

  /** Normalization leaves bookkeeping only where it is needed. */
  lemma NormalizedExact<T>(s: Store<T>)
    requires Valid(s)
    ensures Valid(Normalized(s)) && Exact(Normalized(s))
  {
    NormalizedSame(s);
    var r := Normalized(s);
    if r.sparse.Some? {
      var books := r.sparse.value;
      if books.length > |r.elements| {
        assert !Slots(r)[|r.elements|].Value?;
      } else {
        assert books.tail == {} by { assert forall i :: i !in books.tail; }
        var i :| 0 <= i < |books.states| && books.states[i] != ValueState;
        assert !Slots(r)[i].Value?;
      }
    }
  }

  /** No bookkeeping means no holes. */
  lemma DenseMeansValues<T>(s: Store<T>)
    requires Valid(s) && s.sparse.None?
    ensures AllValues(Slots(s)) && Exact(s)
  {
  }

  // ---- the loop that fills a gap ----

  /** Adding one gap slot to the stored ones: an explicit undefined keeps its meaning, anything else
      there is a hole, and the copied payload is not observed. */
  function GapFilled<T>(s: Store<T>, payload: T): (r: Store<T>)
    requires s.sparse.Some?
    ensures r.sparse.Some? && r.elements == s.elements + [payload]
  {
    var sparse, gap := s.sparse.value, |s.elements|;
    Store(s.elements + [payload],
          Some(sparse.(states := sparse.states + [if gap in sparse.tail then UndefinedState else HoleState],
                       tail := sparse.tail - {gap})))
  }

  lemma GapFilledSame<T>(s: Store<T>, payload: T)
    requires Valid(s) && s.sparse.Some? && |s.elements| < s.sparse.value.length
    ensures Valid(GapFilled(s, payload)) && Slots(GapFilled(s, payload)) == Slots(s)
  {
    var r := GapFilled(s, payload);
    assert Valid(r);
    forall i | 0 <= i < LengthOf(s) ensures SlotAt(r, i) == SlotAt(s, i) {
    }
  }

  /** The value itself, just behind the stored slots. */
  function ValuePushed<T>(s: Store<T>, value: T, length: nat): Store<T>
    requires s.sparse.Some?
  {
    var sparse, at := s.sparse.value, |s.elements|;
    Store(s.elements + [value], Some(sparse.(states := sparse.states + [ValueState], tail := sparse.tail - {at}, length := length)))
  }

  lemma ValuePushedStores<T>(s: Store<T>, value: T, length: nat)
    requires Valid(s) && s.sparse.Some?
    requires length == if LengthOf(s) > |s.elements| + 1 then LengthOf(s) else |s.elements| + 1
    ensures Valid(ValuePushed(s, value, length))
    ensures Slots(ValuePushed(s, value, length)) == Stored(Slots(s), |s.elements|, Value(value))
  {
    var r := ValuePushed(s, value, length);
    assert Valid(r);
    forall i | 0 <= i < LengthOf(r) ensures SlotAt(r, i) == Stored(Slots(s), |s.elements|, Value(value))[i] {
    }
  }

  lemma StoredAfterResize<T>(slots: seq<Slot<T>>, at: nat, slot: Slot<T>)
    requires at >= |slots|
    ensures Stored(Resized(slots, at), at, slot) == Stored(slots, at, slot)
  {
  }

  // ---- updates on stored slots ----

  lemma StateSet<T>(s: Store<T>, at: nat, state: SlotState)
    requires Valid(s) && s.sparse.Some? && at < |s.elements|
    ensures var sparse := s.sparse.value;
            var r := s.(sparse := Some(sparse.(states := sparse.states[at := state])));
            Valid(r) && Slots(r) == Slots(s)[at := match state case HoleState => Hole case UndefinedState => Undefined case ValueState => Value(s.elements[at])]
  {
    var sparse := s.sparse.value;
    var r := s.(sparse := Some(sparse.(states := sparse.states[at := state])));
    assert Valid(r);
    forall i | 0 <= i < LengthOf(s) && i != at ensures SlotAt(r, i) == SlotAt(s, i) {
    }
  }

  lemma ElementSet<T>(s: Store<T>, at: nat, value: T)
    requires Valid(s) && at < |s.elements| && StateOf(s, at) == ValueState
    ensures var r := s.(elements := s.elements[at := value]);
            Valid(r) && Slots(r) == Slots(s)[at := Value(value)]
  {
    var r := s.(elements := s.elements[at := value]);
    assert Valid(r);
    forall i | 0 <= i < LengthOf(s) && i != at ensures SlotAt(r, i) == SlotAt(s, i) {
    }
  }

  /** Changing a payload under a hole or an undefined slot changes nothing a program sees. */
  lemma StalePayloadUnseen<T>(s: Store<T>, at: nat, payload: T)
    requires Valid(s) && at < |s.elements| && StateOf(s, at) != ValueState
    ensures var r := s.(elements := s.elements[at := payload]); Valid(r) && Slots(r) == Slots(s)
  {
    var r := s.(elements := s.elements[at := payload]);
    assert Valid(r);
    forall i | 0 <= i < LengthOf(s) ensures SlotAt(r, i) == SlotAt(s, i) {
    }
  }

  lemma TailSet<T>(s: Store<T>, at: nat)
    requires Valid(s) && s.sparse.Some? && at >= |s.elements|
    ensures var sparse := s.sparse.value;
            var r := s.(sparse := Some(sparse.(tail := sparse.tail + {at}, rooted := true,
                                               length := if sparse.length > at + 1 then sparse.length else at + 1)));
            Valid(r) && Slots(r) == Stored(Slots(s), at, Undefined)
  {
    var sparse := s.sparse.value;
    var r := s.(sparse := Some(sparse.(tail := sparse.tail + {at}, rooted := true,
                                       length := if sparse.length > at + 1 then sparse.length else at + 1)));
    assert Valid(r);
    forall i | 0 <= i < LengthOf(r) ensures SlotAt(r, i) == Stored(Slots(s), at, Undefined)[i] {
    }
  }

  lemma TailRemoved<T>(s: Store<T>, at: nat)
    requires Valid(s) && s.sparse.Some? && at >= |s.elements|
    ensures var r := s.(sparse := Some(s.sparse.value.(tail := s.sparse.value.tail - {at})));
            Valid(r) && Slots(r) == Deleted(Slots(s), at)
  {
    var r := s.(sparse := Some(s.sparse.value.(tail := s.sparse.value.tail - {at})));
    assert Valid(r);
    forall i | 0 <= i < LengthOf(r) ensures SlotAt(r, i) == Deleted(Slots(s), at)[i] {
    }
  }

  /** Everything at or past n is cut off, and the length becomes n. */
  function Cut<T>(s: Store<T>, n: nat): Store<T>
    requires s.sparse.Some?
  {
    var sparse := s.sparse.value;
    Store(if n < |s.elements| then s.elements[..n] else s.elements,
          Some(Sparse(n, if n < |sparse.states| then sparse.states[..n] else sparse.states,
                      (set i | i in sparse.tail && i < n), sparse.rooted)))
  }

  lemma CutResizes<T>(s: Store<T>, n: nat)
    requires Valid(s) && s.sparse.Some?
    ensures Valid(Cut(s, n)) && Slots(Cut(s, n)) == Resized(Slots(s), n)
  {
    var r := Cut(s, n);
    assert Valid(r);
    forall i | 0 <= i < n ensures SlotAt(r, i) == Resized(Slots(s), n)[i] {
    }
  }

  // ---- the object ----

  class JsArray<T> {
    var elements: seq<T>
    var sparse: Option<Sparse>

    ghost function View(): Store<T>
      reads this
    {
      Store(elements, sparse)
    }

    /** The fields stand for a sequence of slots. */
    ghost predicate Stands()
      reads this
    {
      Valid(View())
    }

    /** Between operations there is moreover no idle bookkeeping. */
    ghost predicate Ok()
      reads this
    {
      Stands() && Tight(View())
    }

    /** The sequence of slots this array stands for. */
    ghost function Contents(): seq<Slot<T>>
      requires Stands()
      reads this
    {
      Slots(View())
    }

    constructor (values: seq<T>)
      ensures Ok() && Contents() == seq(|values|, i requires 0 <= i < |values| => Value(values[i]))
      ensures elements == values && sparse.None?
    {
      elements, sparse := values, None;
    }

    /** The array a copying method returns. */
    constructor Of(store: Store<T>)
      requires Valid(store) && Tight(store)
      ensures Ok() && View() == store
    {
      elements, sparse := store.elements, store.sparse;
    }

    method Length() returns (n: nat)
      requires Stands()
      ensures n == |Contents()|
    {
      n := if sparse.None? then |elements| else sparse.value.length;
    }

    method OpenBooks()
      requires Stands()
      modifies this`sparse
      ensures View() == Opened(old(View())) && Stands() && Contents() == old(Contents())
    {
      OpenedSame(View());
      if sparse.None? {
        sparse := Some(Sparse(|elements|, seq(|elements|, _ => ValueState), {}, false));
      }
    }

    method Normalize()
      requires Stands()
      modifies this`sparse
      ensures View() == Normalized(old(View())) && Stands() && Contents() == old(Contents())
      ensures Exact(View()) && Ok()
    {
      NormalizedSame(View());
      NormalizedExact(View());
      if sparse.Some? && sparse.value.length == |elements| && sparse.value.tail == {}
         && forall i :: 0 <= i < |sparse.value.states| ==> sparse.value.states[i] == ValueState
      {
        sparse := None;
      }
    }

    /** `a[index] = value`. Refused exactly when the index is no array index, or lies too far past
        the stored slots. */
    method Set(index: Number, value: T) returns (o: Outcome<()>)
      requires Ok()
      modifies this
      ensures Ok() && (View() == old(View()) || Exact(View()))
      ensures o.Panicked? <==> CanonicalIndex(index).None?
      ensures o.Unsupported? <==> CanonicalIndex(index).Some? && CanonicalIndex(index).value > |old(elements)| + DENSE_LIMIT
      ensures o.Done? || o.Panicked? || o.Unsupported?
      ensures if o.Done? then Contents() == Stored(old(Contents()), CanonicalIndex(index).value, Value(value))
              else View() == old(View())
    {
      var canonical := CanonicalIndex(index);
      if canonical.None? {
        return Panicked;
      }
      var at := canonical.value;
      var stored := |elements|;
      if sparse.None? && at <= stored {
        if at == stored {
          elements := elements + [value];
        } else {
          ElementSet(View(), at, value);
          elements := elements[at := value];
        }
        assert Contents() == Stored(old(Contents()), at, Value(value));
        return Done(());
      }
      if at < stored {
        ReplaceStored(at, value);
      } else {
        if at - stored > DENSE_LIMIT {
          return Unsupported;
        }
        FillTo(at, value);
      }
      Normalize();
      return Done(());
    }

    method ReplaceStored(at: nat, value: T)
      requires Stands() && sparse.Some? && at < |elements|
      modifies this
      ensures Stands() && Contents() == Stored(old(Contents()), at, Value(value))
    {
      StateSet(View(), at, ValueState);
      sparse := Some(sparse.value.(states := sparse.value.states[at := ValueState]));
      ElementSet(View(), at, value);
      elements := elements[at := value];
      assert Contents() == old(Contents())[at := Value(value)];
    }

    /** Grows the stored slots up to and including `at`. */
    method FillTo(at: nat, value: T)
      requires Stands() && at >= |elements|
      modifies this
      ensures Stands() && Contents() == Stored(old(Contents()), at, Value(value))
    {
      var length := if sparse.None? then |elements| else sparse.value.length;
      OpenBooks();
      ghost var slots := Contents();
      // The gap slots are counted in the length once the loop is over; counting them first changes
      // nothing below, because no step of the loop reads the length.
      ghost var logical := if length < at then at else length;
      GapLoopStart(View(), at, logical);
      while |elements| < at
        invariant sparse.Some? && sparse.value.length == length && |elements| <= at
        invariant Valid(Counted(View(), logical)) && Slots(Counted(View(), logical)) == Resized(slots, logical)
        decreases at - |elements|
      {
        GapFilledSame(Counted(View(), logical), value);
        var gap := |elements|;
        elements := elements + [value];
        sparse := Some(sparse.value.(states := sparse.value.states + [if gap in sparse.value.tail then UndefinedState else HoleState],
                                     tail := sparse.value.tail - {gap}));
      }
      ghost var last := Counted(View(), logical);
      ValuePushedStores(last, value, if logical > at + 1 then logical else at + 1);
      elements := elements + [value];
      sparse := Some(sparse.value.(tail := sparse.value.tail - {at}, states := sparse.value.states + [ValueState],
                                   length := if length > at + 1 then length else at + 1));
      assert View() == ValuePushed(last, value, if logical > at + 1 then logical else at + 1);
      if length < at { StoredAfterResize(slots, at, Value(value)); } else { assert Resized(slots, logical) == slots; }
    }

    /** `a.length = n`. */
    method SetLength(length: Number) returns (o: Outcome<()>)
      requires Ok()
      modifies this
      ensures Ok() && (View() == old(View()) || Exact(View()))
      ensures o.Done? <==> IsInteger(length) && 0.0 <= length.r <= 4294967295.0
      ensures o.Done? || o.RangeError?
      ensures if o.Done? then Contents() == Resized(old(Contents()), length.r.Floor) else View() == old(View())
    {
      if !IsInteger(length) || length.r < 0.0 || length.r > 4294967295.0 {
        return RangeError;
      }
      var n := length.r.Floor;
      var current := Length();
      if n == current {
        assert Contents() == Resized(Contents(), n);
        return Done(());
      }
      OpenedSame(View());
      CutResizes(Opened(View()), n);
      if n < |elements| {
        elements := elements[..n];
      }
      if sparse.None? {
        sparse := Some(Sparse(|elements|, seq(|elements|, _ => ValueState), {}, false));
      }
      var books := sparse.value;
      sparse := Some(Sparse(n, if n < |books.states| then books.states[..n] else books.states,
                            (set i | i in books.tail && i < n), books.rooted));
      assert sparse.value.states == Cut(Opened(old(View())), n).sparse.value.states;
      assert sparse.value.tail == Cut(Opened(old(View())), n).sparse.value.tail;
      assert View() == Cut(Opened(old(View())), n);
      Normalize();
      return Done(());
    }

    /** Stores an explicit undefined. */
    method SetUndefined(index: Number) returns (o: Outcome<()>)
      requires Ok()
      modifies this
      ensures Ok() && (View() == old(View()) || Exact(View()))
      ensures o.Done? <==> CanonicalIndex(index).Some?
      ensures o.Done? || o.Panicked?
      ensures if o.Done? then Contents() == Stored(old(Contents()), CanonicalIndex(index).value, Undefined)
              else View() == old(View())
      ensures o.Done? ==> elements == old(elements) && sparse.Some?
                          && (sparse.value.rooted <==> (old(sparse).Some? && old(sparse).value.rooted)
                                                       || CanonicalIndex(index).value >= |elements|)
    {
      var canonical := CanonicalIndex(index);
      if canonical.None? {
        return Panicked;
      }
      var at := canonical.value;
      OpenBooks();
      if at < |elements| {
        StateSet(View(), at, UndefinedState);
        sparse := Some(sparse.value.(states := sparse.value.states[at := UndefinedState]));
      } else {
        TailSet(View(), at);
        sparse := Some(sparse.value.(tail := sparse.value.tail + {at}, rooted := true,
                                     length := if sparse.value.length > at + 1 then sparse.value.length else at + 1));
      }
      assert Contents()[at] == Undefined;
      return Done(());
    }

    /** `delete a[index]`: any index, present or not. */
    method Delete(index: Number)
      requires Ok()
      modifies this
      ensures Ok() && (View() == old(View()) || Exact(View()))
      ensures |Contents()| == |old(Contents())|
      ensures var at := ElementIndex(index, |old(Contents())|);
              Contents() == if at.Some? then Deleted(old(Contents()), at.value) else old(Contents())
    {
      var length := Length();
      var element := ElementIndex(index, length);
      if element.None? {
        return;
      }
      var at := element.value;
      if StateOf(Store(elements, sparse), at) == HoleState {
        assert Contents() == Deleted(Contents(), at);
        return;
      }
      OpenBooks();
      if at < |elements| {
        StateSet(View(), at, HoleState);
        sparse := Some(sparse.value.(states := sparse.value.states[at := HoleState]));
      } else {
        TailRemoved(View(), at);
        sparse := Some(sparse.value.(tail := sparse.value.tail - {at}));
      }
      assert Contents()[at] == Hole;
    }

    /** The typed read: a hole or an undefined slot has no value of the element type. */
    method Get(index: Number) returns (o: Outcome<T>)
      requires Ok()
      ensures var at := ElementIndex(index, |Contents()|);
              if at.None? then o.Panicked?
              else match Contents()[at.value] case Value(v) => o == Done(v) case _ => o.TypeError?
    {
      var length := Length();
      var element := ElementIndex(index, length);
      if element.None? {
        return Panicked;
      }
      if StateOf(Store(elements, sparse), element.value) != ValueState {
        return TypeError;
      }
      return Done(elements[element.value]);
    }

    /** `a.push(value)`, with the new length. On a holey array it can be refused, like any store. */
    method Push(value: T) returns (o: Outcome<nat>)
      requires Ok()
      modifies this
      ensures Ok() && (View() == old(View()) || Exact(View()))
      ensures o.Done? ==> Contents() == old(Contents()) + [Value(value)] && o.result == |Contents()|
      ensures !o.Done? ==> View() == old(View())
      ensures !o.Done? <==> old(sparse).Some?
                            && (|old(Contents())| > 4294967294 || |old(Contents())| > |old(elements)| + DENSE_LIMIT)
    {
      if sparse.Some? {
        var length := Length();
        var set_ := Set(FromNat(length), value);
        if set_.Done? {
          return Done(length + 1);
        }
        return if set_.Panicked? then Panicked else Unsupported;
      }
      elements := elements + [value];
      assert Contents() == old(Contents()) + [Value(value)];
      return Done(|elements|);
    }

    /** `a.pop()`: only a value can be popped; anything else leaves the array as it was. */
    method Pop() returns (o: Outcome<T>)
      requires Ok()
      modifies this
      ensures Ok() && (View() == old(View()) || Exact(View()))
      ensures o.Done? <==> old(Contents()) != [] && old(Contents())[|old(Contents())| - 1].Value?
                           && (old(sparse).None? || |old(Contents())| <= 4294967296)
      ensures if o.Done? then old(Contents()) == Contents() + [Value(o.result)] else View() == old(View())
    {
      if sparse.Some? {
        var length := Length();
        if length == 0 {
          return Panicked;
        }
        o := Get(FromNat(length - 1));
        if o.Done? {
          var cut := SetLength(FromNat(length - 1));
          if !cut.Done? {
            return RangeError;
          }
        }
        return;
      }
      if elements == [] {
        return Panicked;
      }
      o := Done(elements[|elements| - 1]);
      elements := elements[..|elements| - 1];
      assert Contents() == old(Contents())[..|elements|];
    }

    /** The first present index at or after `start`, or the length. */
    method NextPresent(start: Number) returns (index: nat)
      requires Ok()
      ensures index <= |Contents()|
      ensures index < |Contents()| ==> !Contents()[index].Hole? && AtOrAfter(start, index)
      ensures forall i :: 0 <= i < index && AtOrAfter(start, i) ==> Contents()[i].Hole?
    {
      var length := Length();
      if start.NaN? || start.PosInf? || (start.Finite? && start.r >= length as real) {
        return length;
      }
      var first := if start.Finite? && start.r > 0.0 then Ceil(start.r) else 0;
      if sparse.None? {
        return first;
      }
      index := first;
      while index < sparse.value.length && StateOf(Store(elements, sparse), index) == HoleState
        invariant first <= index <= length
        invariant forall i :: first <= i < index ==> Contents()[i].Hole?
      {
        if index >= |sparse.value.states| {
          index := LeastTail(index);
          return;
        }
        index := index + 1;
      }
    }

    /** Past the stored slots only explicit undefined slots are present. */
    method LeastTail(start: nat) returns (index: nat)
      requires Ok() && sparse.Some? && |elements| <= start <= sparse.value.length
      ensures start <= index <= sparse.value.length
      ensures index < sparse.value.length ==> !Contents()[index].Hole?
      ensures forall i :: start <= i < index ==> Contents()[i].Hole?
    {
      index := start;
      while index < sparse.value.length && index !in sparse.value.tail
        invariant start <= index <= sparse.value.length
        invariant forall i :: start <= i < index ==> Contents()[i].Hole?
      {
        index := index + 1;
      }
    }

    /** `a.slice(start, end)`: each slot keeps its kind. On a holey array the range query over the
        tail panics exactly when that set has been used and the slice ends before the stored slots do. */
    method Slice(start: Number, end: Number) returns (o: Outcome<Store<T>>)
      requires Ok()
      ensures var from := RelativeIndex(start, |Contents()|);
              var to := Max(from, RelativeIndex(end, |Contents()|));
              && (o.Panicked? <==> sparse.Some? && sparse.value.rooted && to < Max(from, |elements|))
              && (o.Done? || o.Panicked?)
              && (o.Done? ==> Valid(o.result) && Exact(o.result) && Slots(o.result) == Sliced(Contents(), start, end))
    {
      hide RelativeIndex, Behind, SlotAt, SliceOf, Normalized, Exact, AllValues;
      if sparse.None? {
        var from := RelativeIndex(start, |elements|);
        var to := Max(from, RelativeIndex(end, |elements|));
        DenseSlice(elements, from, to);
        DenseMeansValues(Store(elements[from..to], None));
        return Done(Store(elements[from..to], None));
      }
      var books := sparse.value;
      var from := RelativeIndex(start, books.length);
      var to := Max(from, RelativeIndex(end, books.length));
      if books.rooted && to < Max(from, |elements|) {
        return Panicked;
      }
      SliceCopies(View(), from, to);
      NormalizedSame(SliceOf(Store(elements, sparse), from, to));
      NormalizedExact(SliceOf(Store(elements, sparse), from, to));
      return Done(Normalized(SliceOf(Store(elements, sparse), from, to)));
    }

    /** The copying methods' view of the array, refused when the gap to materialize is huge. */
    method CopySlots() returns (o: Outcome<seq<Slot<T>>>)
      requires Ok()
      ensures o.Done? || o.Unsupported?
      ensures o.Unsupported? <==> |Contents()| > |elements| + DENSE_LIMIT
      ensures o.Done? ==> o.result == ReadAll(Contents())
    {
      var length := Length();
      if length - |elements| > DENSE_LIMIT {
        return Unsupported;
      }
      var slots: seq<Slot<T>> := [];
      for i := 0 to length
        invariant |slots| == i && forall j :: 0 <= j < i ==> slots[j] == Read(Contents()[j])
      {
        slots := slots + [if StateOf(Store(elements, sparse), i) == ValueState then Value(elements[i]) else Undefined];
      }
      return Done(slots);
    }

    /** `a.toReversed()`: holes read as undefined. */
    method ToReversed() returns (o: Outcome<Store<T>>)
      requires Ok()
      ensures o.Done? || o.Unsupported?
      ensures o.Unsupported? <==> |Contents()| > |elements| + DENSE_LIMIT
      ensures o.Done? ==> Valid(o.result) && Tight(o.result) && Slots(o.result) == Reversed(ReadAll(Contents()))
    {
      if sparse.Some? {
        var slots := CopySlots();
        if !slots.Done? {
          return Unsupported;
        }
        var copy := FromSlots(Reversed(slots.result));
        return Done(copy);
      }
      var copy := Store(Reversed(elements), None);
      assert Slots(copy) == Reversed(ReadAll(Contents()));
      return Done(copy);
    }

    /** `a.with(index, value)`. */
    method With(index: Number, value: T) returns (o: Outcome<Store<T>>)
      requires Ok()
      ensures o.RangeError? <==> WithIndex(index, |Contents()|).None?
      ensures o.Unsupported? <==> WithIndex(index, |Contents()|).Some? && |Contents()| > |elements| + DENSE_LIMIT
      ensures o.Done? || o.RangeError? || o.Unsupported?
      ensures o.Done? ==> Valid(o.result) && Tight(o.result)
                          && Slots(o.result) == ReadAll(Contents())[WithIndex(index, |Contents()|).value := Value(value)]
    {
      var length := Length();
      var at := WithIndex(index, length);
      if at.None? {
        return RangeError;
      }
      if sparse.Some? {
        var slots := CopySlots();
        if !slots.Done? {
          return Unsupported;
        }
        var copy := FromSlots(slots.result[at.value := Value(value)]);
        return Done(copy);
      }
      var copy := Store(elements[at.value := value], None);
      assert Slots(copy) == ReadAll(Contents())[at.value := Value(value)];
      return Done(copy);
    }

    /** `a.toSpliced(start, count, ...items)`. */
    method ToSpliced(start: Number, count: Number, items: JsArray<T>) returns (o: Outcome<Store<T>>)
      requires Ok() && items.Ok()
      ensures o.Done? || o.Unsupported?
      ensures o.Unsupported? <==> |Contents()| > |elements| + DENSE_LIMIT || |items.Contents()| > |items.elements| + DENSE_LIMIT
      ensures o.Done? ==> Valid(o.result) && Tight(o.result) && Slots(o.result) == Spliced(ReadAll(Contents()), start, count, ReadAll(items.Contents()))
    {
      hide SlotAt, Spliced, RelativeIndex, DeleteCount;
      if sparse.Some? || items.sparse.Some? {
        var slots := CopySlots();
        if !slots.Done? {
          return Unsupported;
        }
        var inserted := items.CopySlots();
        if !inserted.Done? {
          return Unsupported;
        }
        SplicedKeepsOut(slots.result, start, count, inserted.result);
        var copy := FromSlots(Spliced(slots.result, start, count, inserted.result));
        return Done(copy);
      }
      var from := RelativeIndex(start, |elements|);
      var removed := DeleteCount(count, |elements| - from);
      var copy := Store(elements[..from] + items.elements + elements[from + removed..], None);
      DenseSplice(elements, start, count, items.elements);
      return Done(copy);
    }

    /** The first index from `start` on that holds a value equal to `needle`, or -1. */
    method IndexOfFrom(needle: T, start: Number, equal: (T, T) -> bool) returns (index: int)
      requires Ok()
      ensures -1 <= index < |Contents()|
      ensures index >= 0 ==> Behind(start, index, |Contents()|) && Matches(Contents()[index], needle, equal)
      ensures forall i :: 0 <= i < (if index < 0 then |Contents()| else index) && Behind(start, i, |Contents()|)
                          ==> !Matches(Contents()[i], needle, equal)
    {
      var length := Length();
      var from := RelativeIndex(start, length);
      for i := from to Max(from, |elements|)
        invariant forall j :: from <= j < i ==> !Matches(Contents()[j], needle, equal)
      {
        if StateOf(Store(elements, sparse), i) == ValueState && equal(elements[i], needle) {
          return i;
        }
      }
      return -1;
    }

    /** `a.join(separator)`: anything but a value contributes nothing between the separators. */
    method Join(separator: string, render: T -> string) returns (text: string)
      requires Ok()
      ensures text == Joined(Contents(), separator, render)
    {
      var length := Length();
      text := "";
      for i := 0 to length
        invariant text == Joined(Contents()[..i], separator, render)
      {
        assert Contents()[..i + 1][..i] == Contents()[..i];
        if i > 0 {
          text := text + separator;
        }
        if StateOf(Store(elements, sparse), i) == ValueState {
          text := text + render(elements[i]);
        }
      }
      assert Contents()[..length] == Contents();
    }
  }

  /** The same store with a length that already counts the gap. */
  ghost function Counted<T>(s: Store<T>, length: nat): Store<T> {
    if s.sparse.None? then s else s.(sparse := Some(s.sparse.value.(length := length)))
  }

  lemma GapLoopStart<T>(s: Store<T>, at: nat, logical: nat)
    requires Valid(s) && s.sparse.Some? && logical == if LengthOf(s) < at then at else LengthOf(s)
    ensures Valid(Counted(s, logical)) && Slots(Counted(s, logical)) == Resized(Slots(s), logical)
  {
    var r := Counted(s, logical);
    assert Valid(r);
    forall i | 0 <= i < logical ensures SlotAt(r, i) == Resized(Slots(s), logical)[i] {
    }
  }

  // ---- copies ----

  predicate AtOrAfter(start: Number, i: int) {
    match start
    case NegInf => true
    case Finite(r) => r <= i as real
    case _ => false
  }

  /** The number names slot j: cut to an integer, with NaN as 0, and from the end when negative. */
  ghost predicate Names(index: Number, j: int, length: nat) {
    match index
    case NaN => j == 0
    case Finite(r) =>
      if r <= -1.0 then (j - length - 1) as real < r <= (j - length) as real
      else if r < 0.0 then j == 0
      else j as real <= r < (j + 1) as real
    case _ => false
  }

  /** The one slot that is named, if it exists. */
  function WithIndex(index: Number, length: nat): (at: Option<nat>)
    ensures forall j :: 0 <= j < length && Names(index, j, length) <==> at == Some(j)
  {
    match index
    case NaN => if length > 0 then Some(0) else None
    case Finite(r) =>
      var at := if Trunc(r) >= 0 then Trunc(r) else length + Trunc(r);
      if 0 <= at < length then Some(at) else None
    case _ => None
  }

  predicate Matches<T>(slot: Slot<T>, needle: T, equal: (T, T) -> bool) {
    slot.Value? && equal(slot.v, needle)
  }

  function Joined<T>(slots: seq<Slot<T>>, separator: string, render: T -> string): string {
    if slots == [] then ""
    else
      var last := slots[|slots| - 1];
      Joined(slots[..|slots| - 1], separator, render) + (if |slots| > 1 then separator else "")
      + (if last.Value? then render(last.v) else "")
  }

  /** Joining splits anywhere between two slots. */
  lemma {:induction false} JoinedParts<T>(a: seq<Slot<T>>, b: seq<Slot<T>>, separator: string, render: T -> string)
    requires a != [] && b != []
    ensures Joined(a + b, separator, render) == Joined(a, separator, render) + separator + Joined(b, separator, render)
    decreases |b|
  {
    hide Joined;
    var last := b[|b| - 1];
    JoinedLast(a + b, separator, render);
    JoinedLast(b, separator, render);
    assert (a + b)[..|a + b| - 1] == a + b[..|b| - 1];
    if |b| > 1 {
      JoinedParts(a, b[..|b| - 1], separator, render);
    } else {
      JoinedOne(last, separator, render);
      assert a + b[..0] == a;
    }
  }

  lemma JoinedLast<T>(slots: seq<Slot<T>>, separator: string, render: T -> string)
    requires slots != []
    ensures var last := slots[|slots| - 1];
            var text := if last.Value? then render(last.v) else "";
            Joined(slots, separator, render)
            == if |slots| == 1 then text else Joined(slots[..|slots| - 1], separator, render) + separator + text
  {
  }

  /** A lone slot contributes its value or nothing. */
  lemma JoinedOne<T>(slot: Slot<T>, separator: string, render: T -> string)
    ensures Joined([], separator, render) == ""
    ensures Joined([slot], separator, render) == if slot.Value? then render(slot.v) else ""
  {
  }

  lemma DenseSlice<T>(elements: seq<T>, from: nat, to: nat)
    requires from <= to <= |elements|
    ensures Slots(Store(elements[from..to], None)) == Slots(Store(elements, None))[from..to]
  {
  }

  /** Stored slots and tail of the range [from, to), before normalization. */
  function SliceOf<T>(s: Store<T>, from: nat, to: nat): Store<T>
    requires s.sparse.Some? && |s.sparse.value.states| == |s.elements| && from <= to
  {
    var books := s.sparse.value;
    var storedEnd := if to < |s.elements| then to else |s.elements|;
    var tail := set i | i in books.tail && Max(from, |s.elements|) <= i < to :: i - from;
    Store(if from < storedEnd then s.elements[from..storedEnd] else [],
          Some(Sparse(to - from, if from < storedEnd then books.states[from..storedEnd] else [], tail, tail != {})))
  }

  lemma SliceCopies<T>(s: Store<T>, from: nat, to: nat)
    requires Valid(s) && s.sparse.Some? && from <= to <= LengthOf(s)
    ensures Valid(SliceOf(s, from, to)) && Slots(SliceOf(s, from, to)) == Slots(s)[from..to]
  {
    var copy := SliceOf(s, from, to);
    forall j: nat | j < to - from && j + from >= |s.elements|
      ensures j in copy.sparse.value.tail <==> j + from in s.sparse.value.tail
    {
      assert (j + from) - from == j;
    }
    assert Valid(copy);
    forall j | 0 <= j < to - from ensures SlotAt(copy, j) == SlotAt(s, j + from) {
    }
  }

  function Below(n: nat): (r: set<nat>)
    ensures forall i :: i in r <==> 0 <= i < n
  {
    if n == 0 then {} else Below(n - 1) + {n - 1}
  }

  lemma DenseSplice<T>(elements: seq<T>, start: Number, count: Number, items: seq<T>)
    ensures var from := RelativeIndex(start, |elements|);
            var to := from + DeleteCount(count, |elements| - from);
            var a, b := Slots(Store(elements, None)), Slots(Store(items, None));
            Slots(Store(elements[..from] + items + elements[to..], None)) == Spliced(ReadAll(a), start, count, ReadAll(b))
  {
    hide RelativeIndex, DeleteCount;
  }

  lemma SplicedKeepsOut<T>(slots: seq<Slot<T>>, start: Number, count: Number, inserted: seq<Slot<T>>)
    requires forall i :: 0 <= i < |slots| ==> !slots[i].Hole?
    requires forall i :: 0 <= i < |inserted| ==> !inserted[i].Hole?
    ensures var r := Spliced(slots, start, count, inserted); forall i :: 0 <= i < |r| ==> !r[i].Hole?
  {
    hide RelativeIndex, DeleteCount;
  }

  /** A fresh array from slots without holes. With no value among them it keeps its bookkeeping,
      even when it is empty. */
  method FromSlots<T>(slots: seq<Slot<T>>) returns (r: Store<T>)
    requires forall i :: 0 <= i < |slots| ==> !slots[i].Hole?
    ensures Valid(r) && Slots(r) == slots && Tight(r)
    ensures r.sparse.None? <==> slots != [] && forall i :: 0 <= i < |slots| ==> slots[i].Value?
  {
    var first := 0;
    while first < |slots| && !slots[first].Value?
      invariant first <= |slots| && forall i :: 0 <= i < first ==> slots[i] == Undefined
    {
      first := first + 1;
    }
    if first == |slots| {
      r := Store([], Some(Sparse(|slots|, [], Below(|slots|), slots != [])));
      assert slots != [] ==> 0 in r.sparse.value.tail && slots[0] == Undefined;
      assert Slots(r) == slots;
      return;
    }
    var placeholder := slots[first].v;
    var elements := seq(|slots|, i requires 0 <= i < |slots| => if slots[i].Value? then slots[i].v else placeholder);
    if forall i :: 0 <= i < |slots| ==> slots[i].Value? {
      r := Store(elements, None);
    } else {
      var states := seq(|slots|, i requires 0 <= i < |slots| => if slots[i].Value? then ValueState else UndefinedState);
      r := Store(elements, Some(Sparse(|slots|, states, {}, false)));
    }
    assert Slots(r) == slots;
  }

  // ---- whole runs ----

  datatype Op<T> =
    | SetOp(index: Number, value: T) | UndefinedOp(index: Number) | DeleteOp(index: Number)
    | LengthOp(length: Number) | PushOp(value: T) | PopOp

  /** The effect of an operation that completed on the plain slots. */
  function Effect<T>(slots: seq<Slot<T>>, op: Op<T>): seq<Slot<T>> {
    match op
    case SetOp(index, value) =>
      if CanonicalIndex(index).Some? then Stored(slots, CanonicalIndex(index).value, Value(value)) else slots
    case UndefinedOp(index) =>
      if CanonicalIndex(index).Some? then Stored(slots, CanonicalIndex(index).value, Undefined) else slots
    case DeleteOp(index) =>
      if ElementIndex(index, |slots|).Some? then Deleted(slots, ElementIndex(index, |slots|).value) else slots
    case LengthOp(length) => if IsInteger(length) && length.r >= 0.0 then Resized(slots, length.r.Floor) else slots
    case PushOp(value) => slots + [Value(value)]
    case PopOp => if slots == [] then slots else slots[..|slots| - 1]
  }

  function Effects<T>(slots: seq<Slot<T>>, ops: seq<Op<T>>, completed: seq<bool>): seq<Slot<T>>
    requires |ops| == |completed|
  {
    if ops == [] then slots
    else
      var before := Effects(slots, ops[..|ops| - 1], completed[..|ops| - 1]);
      if completed[|ops| - 1] then Effect(before, ops[|ops| - 1]) else before
  }

  /** Exactly when an operation completes; how far past the stored slots a store may reach is the
      one thing the plain slots do not tell. */
  ghost predicate Completes<T>(s: Store<T>, op: Op<T>)
    requires Valid(s)
  {
    var slots, stored := Slots(s), |s.elements|;
    match op
    case SetOp(index, _) => CanonicalIndex(index).Some? && CanonicalIndex(index).value <= stored + DENSE_LIMIT
    case UndefinedOp(index) => CanonicalIndex(index).Some?
    case DeleteOp(_) => true
    case LengthOp(length) => IsInteger(length) && 0.0 <= length.r <= 4294967295.0
    case PushOp(_) => s.sparse.None? || (|slots| <= 4294967294 && |slots| <= stored + DENSE_LIMIT)
    case PopOp => slots != [] && slots[|slots| - 1].Value? && (s.sparse.None? || |slots| <= 4294967296)
  }

  method Perform<T>(a: JsArray<T>, op: Op<T>) returns (completed: bool)
    requires a.Ok()
    modifies a
    ensures a.Ok() && a.Contents() == if completed then Effect(old(a.Contents()), op) else old(a.Contents())
    ensures completed <==> Completes(old(a.View()), op)
    ensures a.View() == old(a.View()) || Exact(a.View())
  {
    match op
    case SetOp(index, value) => var o := a.Set(index, value); completed := o.Done?;
    case UndefinedOp(index) => var o := a.SetUndefined(index); completed := o.Done?;
    case DeleteOp(index) => a.Delete(index); completed := true;
    case LengthOp(length) => var o := a.SetLength(length); completed := o.Done?;
    case PushOp(value) => var o := a.Push(value); completed := o.Done?;
    case PopOp => var o := a.Pop(); completed := o.Done?;
  }

  /** The stored forms of a run: each step that completes changes the slots by its effect, and any
      other step changes nothing. */
  ghost predicate Runs<T>(views: seq<Store<T>>, ops: seq<Op<T>>, completed: seq<bool>) {
    && |views| == |ops| + 1 && |completed| == |ops|
    && (forall i :: 0 <= i < |views| ==> Valid(views[i]))
    && forall i :: 0 <= i < |ops| ==> StepRuns(views[i], ops[i], completed[i], views[i + 1])
  }

  ghost predicate StepRuns<T>(before: Store<T>, op: Op<T>, completed: bool, after: Store<T>)
    requires Valid(before) && Valid(after)
  {
    (completed <==> Completes(before, op)) && Slots(after) == if completed then Effect(Slots(before), op) else Slots(before)
  }

  /** Over every run the stored form stays valid and stands for the plain sequence, changed by
      exactly the operations that completed. */
  method PerformAll<T>(a: JsArray<T>, ops: seq<Op<T>>) returns (completed: seq<bool>, ghost views: seq<Store<T>>)
    requires a.Ok()
    modifies a
    ensures a.Ok() && |completed| == |ops| && a.Contents() == Effects(old(a.Contents()), ops, completed)
    ensures Runs(views, ops, completed) && views[0] == old(a.View()) && views[|ops|] == a.View()
    ensures a.View() == old(a.View()) || Exact(a.View())
  {
    completed := [];
    views := [a.View()];
    for i := 0 to |ops|
      invariant a.Ok() && |completed| == i && a.Contents() == Effects(old(a.Contents()), ops[..i], completed)
      invariant Runs(views, ops[..i], completed) && views[0] == old(a.View()) && views[i] == a.View()
      invariant a.View() == old(a.View()) || Exact(a.View())
    {
      var done := Perform(a, ops[i]);
      ghost var before, ran := views, completed;
      completed := completed + [done];
      views := views + [a.View()];
      RunsPush(before, ops, i, ran, done, a.View());
      assert ops[..i + 1][..i] == ops[..i] && completed[..i] == ran;
    }
    assert ops[..|ops|] == ops;
  }

  /** In an array made from values there is bookkeeping, after any run, exactly if some slot is no
      value. */
  method RunFresh<T>(values: seq<T>, ops: seq<Op<T>>) returns (a: JsArray<T>, completed: seq<bool>)
    ensures fresh(a) && a.Ok() && |completed| == |ops|
    ensures a.Contents() == Effects(seq(|values|, i requires 0 <= i < |values| => Value(values[i])), ops, completed)
    ensures a.sparse.None? <==> AllValues(a.Contents())
  {
    a := new JsArray(values);
    DenseMeansValues(a.View());
    ghost var views;
    completed, views := PerformAll(a, ops);
  }

  /** The panic of a slice is in reach: one explicit undefined past the stored values of a new array
      and one slice that ends before them. */
  method SliceAfterUndefined<T>(values: seq<T>, at: nat, end: nat) returns (o: Outcome<Store<T>>)
    requires at <= 4294967294
    ensures o.Panicked? <==> at >= |values| && end < |values|
  {
    var a := new JsArray(values);
    var stored := a.SetUndefined(FromNat(at));
    o := a.Slice(FromNat(0), FromNat(end));
  }

  lemma RunsPush<T>(views: seq<Store<T>>, ops: seq<Op<T>>, i: nat, completed: seq<bool>, done: bool, next: Store<T>)
    requires i < |ops| && Runs(views, ops[..i], completed) && Valid(next)
    requires StepRuns(views[i], ops[i], done, next)
    ensures Runs(views + [next], ops[..i + 1], completed + [done])
  {
    hide StepRuns, Valid;
    var v, o, c := views + [next], ops[..i + 1], completed + [done];
    forall j | 0 <= j < |v| ensures Valid(v[j]) {
      if j < |views| { assert v[j] == views[j]; }
    }
    forall j | 0 <= j < |o| ensures StepRuns(v[j], o[j], c[j], v[j + 1]) {
      if j < i { assert v[j] == views[j] && v[j + 1] == views[j + 1] && o[j] == ops[..i][j] && c[j] == completed[j]; }
    }
  }
}
