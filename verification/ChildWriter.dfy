/** A child's stdin: a main-thread object and a writer thread joined by two FIFO channels, with a
    synchronous fast path that bypasses the queue. Every operation and every step of the thread is
    one transition; a run is any sequence of them, so all interleavings are covered. */
module ChildWriter {
  import opened Bytes

  const HIGH_WATER_MARK: nat := 65536

  datatype Command = Write(data: seq<Byte>, length: nat) | End | Destroy

  datatype Event = Wrote(length: nat) | Finished | Failed

  /** The thread is between commands, inside `write_all` with `rest` still to go, or done. A thread
      that is done lets go of its end of the command channel (`hears`) and of the event channel
      (`speaks`) in two later moments, in either order. */
  datatype Worker = Idle | Writing(rest: seq<Byte>, length: nat) | Gone(hears: bool, speaks: bool)

  /** What user code observes. */
  datatype Output = Returned(ready: bool) | Drain | Finish | ErrorEvent

  /** What the operating system does with one non-blocking write. The last case is a write whose
      bytes went out but whose descriptor flags could not be restored. */
  datatype Attempt = Refused | Accepted(n: nat) | AcceptedThenFailed(n: nat)

  datatype State = State(
    // the main-thread object
    sender: bool, receiver: bool, syncStdin: bool,
    queued: nat, needsDrain: bool, writable: bool, finished: bool,
    // the channels, the thread and the pipe
    commands: seq<Command>, events: seq<Event>, worker: Worker, pipe: seq<Byte>,
    // history: bytes of successful writes, bytes a failed write left in the pipe, lengths of
    // queued writes not yet acknowledged, and observations
    accepted: seq<Byte>, stray: seq<Byte>, unacked: seq<nat>, log: seq<Output>)

  /** A new writer; the thread may have failed to start and the descriptor to be duplicated. */
  function New(spawned: bool, duplicated: bool): State {
    State(true, true, duplicated, 0, false, true, false, [], [], if spawned then Idle else Gone(false, false), [], [], [], [], [])
  }

  /** The stdin of a child that never started. */
  function Husk(): State {
    State(false, false, false, 0, false, true, false, [], [], Gone(false, false), [], [], [], [], [])
  }

  // ---- main thread ----

  /** Drops both channel ends; the error event itself is delivered on a later tick. */
  function Fail(s: State): State {
    s.(sender := false, receiver := false, syncStdin := false, queued := 0, needsDrain := false, writable := false,
       events := [], unacked := [], log := s.log + [ErrorEvent])
  }

  function Return(s: State, ready: bool): State {
    s.(log := s.log + [Returned(ready)])
  }

  predicate Fits(attempt: Attempt, data: seq<Byte>) {
    attempt.Refused? || attempt.n <= |data|
  }

  function WriteStep(s: State, data: seq<Byte>, attempt: Attempt): State
    requires Fits(attempt, data)
  {
    if !s.writable || !s.sender then Return(Fail(s), false)
    else if s.queued == 0 && s.syncStdin then
      match attempt
      case Refused => Return(Fail(s), false)
      case AcceptedThenFailed(n) => Return(Fail(s.(pipe := s.pipe + data[..n], stray := s.stray + data[..n])), false)
      case Accepted(n) =>
        var s := s.(pipe := s.pipe + data[..n]);
        if n == |data| then Return(s.(accepted := s.accepted + data), true)
        else Enqueue(s, data, n)
    else Enqueue(s, data, 0)
  }

  /** A command can still be sent. */
  predicate Hears(worker: Worker) {
    worker.Gone? ==> worker.hears
  }

  /** Queues what the fast path left over; the whole original length counts until acknowledged. */
  function Enqueue(s: State, data: seq<Byte>, written: nat): State
    requires written <= |data|
  {
    if !Hears(s.worker) then Return(Fail(s.(stray := s.stray + data[..written])), false)
    else
      var queued := s.queued + |data|;
      var ready := queued < HIGH_WATER_MARK;
      Return(s.(commands := s.commands + [Write(data[written..], |data|)], accepted := s.accepted + data,
                unacked := s.unacked + [|data|], queued := queued, needsDrain := s.needsDrain || !ready), ready)
  }

  function EndStep(s: State): State {
    if !s.writable then s
    else if s.sender && Hears(s.worker) then s.(writable := false, commands := s.commands + [End])
    else Fail(s)
  }

  function DestroyStep(s: State): State {
    s.(sender := false, receiver := false, syncStdin := false, queued := 0, needsDrain := false, writable := false,
       commands := if s.sender && Hears(s.worker) then s.commands + [Destroy] else s.commands,
       events := [], unacked := [])
  }

  function Minus(a: nat, b: nat): nat { if a < b then 0 else a - b }

  /** A write has been acknowledged; the last one outstanding drains. */
  function Acknowledge(s: State, length: nat): State {
    var queued := Minus(s.queued, length);
    var drains := s.needsDrain && queued == 0 && s.writable;
    s.(events := if s.events == [] then [] else s.events[1..],
       unacked := if s.unacked == [] then [] else s.unacked[1..],
       queued := queued, needsDrain := s.needsDrain && !drains,
       log := if drains then s.log + [Drain] else s.log)
  }

  function Conclude(s: State): State {
    s.(sender := false, receiver := false, syncStdin := false, queued := 0, needsDrain := false, finished := true,
       events := [], unacked := [], log := s.log + [Finish])
  }

  /** Polls the event channel; an empty channel whose other end is gone reads as an error. */
  function DispatchStep(s: State): State {
    if !s.receiver then s
    else if s.events == [] then (if s.worker.Gone? && !s.worker.speaks then Fail(s) else s)
    else
      match s.events[0]
      case Wrote(length) => Acknowledge(s, length)
      case Finished => Conclude(s)
      case Failed => Fail(s)
  }

  // ---- the thread ----

  /** Sends an event unless the main thread has dropped its end. */
  function Post(s: State, event: Event): State {
    if s.receiver then s.(events := s.events + [event]) else s
  }

  /** The thread's function returns; both channel ends are still held. */
  function Leave(s: State): State {
    s.(worker := Gone(true, true))
  }

  function DeafStep(s: State): State {
    if s.worker.Gone? && s.worker.hears then s.(worker := s.worker.(hears := false), commands := []) else s
  }

  function MuteStep(s: State): State {
    if s.worker.Gone? && s.worker.speaks then s.(worker := s.worker.(speaks := false)) else s
  }

  function TakeStep(s: State): State {
    if !s.worker.Idle? then s
    else if s.commands == [] then (if s.sender then s else Leave(s))
    else
      var command, s := s.commands[0], s.(commands := s.commands[1..]);
      match command
      case Write(data, length) => s.(worker := Writing(data, length))
      case End => Leave(Post(s, Finished))
      case Destroy => Leave(s)
  }

  /** `write_all` hands over up to n more bytes. */
  function PipeStep(s: State, n: nat): State {
    if s.worker.Writing? && n <= |s.worker.rest| then
      s.(pipe := s.pipe + s.worker.rest[..n], worker := s.worker.(rest := s.worker.rest[n..]))
    else s
  }

  function WrittenStep(s: State): State {
    if !(s.worker.Writing? && s.worker.rest == []) then s
    else if s.receiver then Post(s, Wrote(s.worker.length)).(worker := Idle)
    else Leave(s)
  }

  /** `write_all` fails; it can only fail while bytes remain. */
  function BreakStep(s: State): State {
    if s.worker.Writing? && s.worker.rest != [] then Leave(Post(s, Failed)) else s
  }

  // ---- runs ----

  datatype Action =
    | DoWrite(data: seq<Byte>, attempt: Attempt) | DoEnd | DoDestroy | DoDispatch
    | Take | Pipe(n: nat) | Written | Break | Deaf | Mute

  predicate Possible(a: Action) {
    a.DoWrite? ==> Fits(a.attempt, a.data)
  }

  function Apply(s: State, a: Action): State
    requires Possible(a)
  {
    match a
    case DoWrite(data, attempt) => WriteStep(s, data, attempt)
    case DoEnd => EndStep(s)
    case DoDestroy => DestroyStep(s)
    case DoDispatch => DispatchStep(s)
    case Take => TakeStep(s)
    case Pipe(n) => PipeStep(s, n)
    case Written => WrittenStep(s)
    case Break => BreakStep(s)
    case Deaf => DeafStep(s)
    case Mute => MuteStep(s)
  }

  predicate AllPossible(run: seq<Action>) {
    forall i :: 0 <= i < |run| ==> Possible(run[i])
  }

  function Run(s: State, run: seq<Action>): State
    requires AllPossible(run)
  {
    if run == [] then s else Apply(Run(s, run[..|run| - 1]), run[|run| - 1])
  }

  // ---- what holds in every state ----

  function Data(commands: seq<Command>): seq<Byte> {
    if commands == [] then [] else (if commands[0].Write? then commands[0].data else []) + Data(commands[1..])
  }

  function Lengths(commands: seq<Command>): seq<nat> {
    if commands == [] then [] else (if commands[0].Write? then [commands[0].length] else []) + Lengths(commands[1..])
  }

  function Acks(events: seq<Event>): seq<nat> {
    if events == [] then [] else (if events[0].Wrote? then [events[0].length] else []) + Acks(events[1..])
  }

  function Sum(lengths: seq<nat>): nat {
    if lengths == [] then 0 else lengths[0] + Sum(lengths[1..])
  }

  /** Bytes the thread still has to hand over. */
  function Pending(worker: Worker, commands: seq<Command>): seq<Byte> {
    if worker.Gone? then [] else (if worker.Writing? then worker.rest else []) + Data(commands)
  }

  function Unwritten(worker: Worker, commands: seq<Command>): seq<nat> {
    (if worker.Writing? then [worker.length] else []) + Lengths(commands)
  }

  /** Every byte offered to the pipe, in call order. */
  function Offered(s: State): seq<Byte> {
    s.accepted + s.stray
  }

  /** Each queued write carries at most its own length, and nothing is queued after End or Destroy. */
  predicate Orderly(commands: seq<Command>) {
    && (forall i :: 0 <= i < |commands| && commands[i].Write? ==> |commands[i].data| <= commands[i].length)
    && (forall i, j :: 0 <= i < j < |commands| && !commands[i].Write? ==> !commands[j].Write?)
  }

  /** Bytes keep their order, whichever way they travel. */
  ghost predicate Orders(worker: Worker, commands: seq<Command>, pipe: seq<Byte>, offered: seq<Byte>,
                         strayed: bool, writable: bool, sender: bool)
  {
    && (!Hears(worker) ==> commands == [])
    && (if worker.Gone? then pipe <= offered else pipe + Pending(worker, commands) == offered)
    && (worker.Writing? ==> |worker.rest| <= worker.length)
    && Orderly(commands)
    && (strayed ==> !writable && !sender && Pending(worker, commands) == [] && pipe == offered)
    && (writable ==> (sender || worker.Gone?) && forall i :: 0 <= i < |commands| ==> commands[i].Write?)
  }

  /** Some write will never be acknowledged. */
  ghost predicate Unanswered(events: seq<Event>, unacked: seq<nat>) {
    Sum(Acks(events)) < Sum(unacked)
  }

  /** `queued` is exact: the total length of the writes the main thread has not seen acknowledged. */
  ghost predicate Counts(receiver: bool, queued: nat, unacked: seq<nat>, events: seq<Event>, worker: Worker,
                         commands: seq<Command>, written: bool, writable: bool, needsDrain: bool)
  {
    && queued == Sum(unacked)
    && (receiver && !worker.Gone? ==> unacked == Acks(events) + Unwritten(worker, commands))
    && (receiver && worker.Gone? ==> Acks(events) <= unacked && (written || Unanswered(events, unacked)))
    && (receiver && worker.Gone? && writable && Hears(worker) ==> Unanswered(events, unacked))
    && (!receiver ==> unacked == [] && events == [] && !needsDrain)
  }

  ghost predicate InOrder(s: State) {
    Orders(s.worker, s.commands, s.pipe, Offered(s), s.stray != [], s.writable, s.sender)
  }

  ghost predicate Counted(s: State) {
    && s.sender == s.receiver
    && Counts(s.receiver, s.queued, s.unacked, s.events, s.worker, s.commands, s.pipe == Offered(s), s.writable, s.needsDrain)
  }

  /** The last event, if any, is the only terminal one, and Finished means everything arrived. */
  ghost predicate Terminal(s: State) {
    && (forall i :: 0 <= i < |s.events| && !s.events[i].Wrote? ==> i == |s.events| - 1 && s.worker.Gone?)
    && (Finished in s.events ==> !s.writable && s.stray == [] && s.pipe == s.accepted)
    && (End in s.commands ==> !s.writable && s.stray == [])
    && (s.finished ==> !s.writable && !s.receiver && s.worker.Gone? && s.stray == [] && s.pipe == s.accepted)
    && (Finish in s.log <==> s.finished)
  }

  /** A failed readiness is remembered until the drain that answers it. */
  predicate Armed(log: seq<Output>) {
    log != [] && var last := log[|log| - 1];
      (last == Returned(false) || (last != Drain && Armed(log[..|log| - 1])))
  }

  predicate DrainsAnswer(log: seq<Output>) {
    log == [] || (DrainsAnswer(log[..|log| - 1]) && (log[|log| - 1] == Drain ==> Armed(log[..|log| - 1])))
  }

  predicate OneFinish(log: seq<Output>) {
    log == [] || (OneFinish(log[..|log| - 1]) && (log[|log| - 1] == Finish ==> Finish !in log[..|log| - 1]))
  }

  ghost predicate Backpressure(s: State) {
    && (s.writable && s.needsDrain ==> s.queued > 0)
    && (s.needsDrain ==> Armed(s.log))
    && DrainsAnswer(s.log) && OneFinish(s.log)
  }

  ghost predicate Inv(s: State) {
    InOrder(s) && Counted(s) && Terminal(s) && Backpressure(s)
  }

  // ---- lists ----

  lemma {:induction false} DataAppend(c: seq<Command>, x: Command)
    ensures Data(c + [x]) == Data(c) + if x.Write? then x.data else []
    ensures Lengths(c + [x]) == Lengths(c) + if x.Write? then [x.length] else []
    decreases |c|
  {
    if c != [] {
      DataAppend(c[1..], x);
      assert (c + [x])[1..] == c[1..] + [x];
    }
  }

  lemma {:induction false} AcksAppend(e: seq<Event>, x: Event)
    ensures Acks(e + [x]) == Acks(e) + if x.Wrote? then [x.length] else []
    decreases |e|
  {
    if e != [] {
      AcksAppend(e[1..], x);
      assert (e + [x])[1..] == e[1..] + [x];
    }
  }

  lemma {:induction false} SumConcat(a: seq<nat>, b: seq<nat>)
    ensures Sum(a + b) == Sum(a) + Sum(b)
    decreases |a|
  {
    if a == [] {
      assert a + b == b;
    } else {
      SumConcat(a[1..], b);
      assert (a + b)[1..] == a[1..] + b;
    }
  }

  /** Queued writes of total length zero carry nothing. */
  lemma {:induction false} NothingCounted(c: seq<Command>)
    requires Orderly(c) && Sum(Lengths(c)) == 0
    ensures Data(c) == []
    decreases |c|
  {
    if c != [] {
      assert Orderly(c[1..]) by {
        assert forall i :: 0 <= i < |c[1..]| ==> c[1..][i] == c[i + 1];
      }
      var head := if c[0].Write? then [c[0].length] else [];
      SumConcat(head, Lengths(c[1..]));
      NothingCounted(c[1..]);
    }
  }

  lemma {:induction false} NoWritesNoData(c: seq<Command>)
    requires forall i :: 0 <= i < |c| ==> !c[i].Write?
    ensures Data(c) == [] && Lengths(c) == []
    decreases |c|
  {
    if c != [] { NoWritesNoData(c[1..]); }
  }

  lemma LogPush(log: seq<Output>, o: Output)
    requires DrainsAnswer(log) && OneFinish(log)
    requires o == Drain ==> Armed(log)
    requires o == Finish ==> Finish !in log
    ensures DrainsAnswer(log + [o]) && OneFinish(log + [o])
    ensures Armed(log + [o]) == (o == Returned(false) || (o != Drain && Armed(log)))
    ensures Finish in log + [o] <==> o == Finish || Finish in log
  {
    assert (log + [o])[..|log|] == log;
  }

  // ---- the fast path ----

  /** When nothing is counted the thread has nothing left to write, so a direct write cannot
      overtake a queued one. */
  lemma FastPathIsNext(s: State)
    requires InOrder(s) && Counted(s) && s.receiver && s.queued == 0
    ensures Pending(s.worker, s.commands) == [] && s.pipe == Offered(s)
    ensures s.worker.Gone? ==> !s.writable || !Hears(s.worker)
  {
    if !s.worker.Gone? {
      var inflight := if s.worker.Writing? then [s.worker.length] else [];
      SumConcat(Acks(s.events), Unwritten(s.worker, s.commands));
      SumConcat(inflight, Lengths(s.commands));
      assert Sum(Lengths(s.commands)) == 0 && Sum(inflight) == 0;
      NothingCounted(s.commands);
      assert s.worker.Writing? ==> s.worker.rest == [];
      assert s.pipe + [] == s.pipe;
    }
  }

  // ---- how each part of the invariant follows a step ----

  lemma OrderlyAppend(c: seq<Command>, x: Command)
    requires Orderly(c)
    requires x.Write? ==> |x.data| <= x.length && forall i :: 0 <= i < |c| ==> c[i].Write?
    ensures Orderly(c + [x])
    ensures x.Write? ==> forall i :: 0 <= i < |c + [x]| ==> (c + [x])[i].Write?
  {
  }

  lemma PrefixGrows(a: seq<Byte>, b: seq<Byte>, more: seq<Byte>)
    requires a <= b
    ensures a <= b + more
  {
  }

  lemma SameOrder(pipe: seq<Byte>, pending: seq<Byte>, data: seq<Byte>, n: nat)
    requires n <= |data| && (n > 0 ==> pending == [])
    ensures (pipe + data[..n]) + (pending + data[n..]) == (pipe + pending) + data
  {
  }

  lemma PendingGrows(worker: Worker, commands: seq<Command>, data: seq<Byte>, n: nat)
    requires !worker.Gone? && n <= |data|
    ensures Pending(worker, commands + [Write(data[n..], |data|)]) == Pending(worker, commands) + data[n..]
  {
    DataAppend(commands, Write(data[n..], |data|));
    var first, later := if worker.Writing? then worker.rest else [], Data(commands);
    hide Data;
    assert first + (later + data[n..]) == (first + later) + data[n..];
  }

  lemma OrdersQueued(worker: Worker, commands: seq<Command>, pipe: seq<Byte>, offered: seq<Byte>, data: seq<Byte>, n: nat)
    requires Orders(worker, commands, pipe, offered, false, true, true) && Hears(worker)
    requires n <= |data| && (n > 0 ==> !worker.Gone? && Pending(worker, commands) == [])
    ensures Orders(worker, commands + [Write(data[n..], |data|)], pipe + data[..n], offered + data, false, true, true)
  {
    var longer := commands + [Write(data[n..], |data|)];
    DataAppend(commands, Write(data[n..], |data|));
    OrderlyAppend(commands, Write(data[n..], |data|));
    if !worker.Gone? { PendingGrows(worker, commands, data, n); } else { assert Pending(worker, longer) == []; }
    hide Orderly, Data, Pending;
    if worker.Gone? {
      assert pipe + data[..n] == pipe;
      PrefixGrows(pipe, offered, data);
    } else {
      SameOrder(pipe, Pending(worker, commands), data, n);
    }
  }

  lemma CountsQueued(queued: nat, unacked: seq<nat>, events: seq<Event>, worker: Worker, commands: seq<Command>,
                     written: bool, needsDrain: bool, x: Command, written': bool, needsDrain': bool)
    requires Counts(true, queued, unacked, events, worker, commands, written, true, needsDrain)
    requires Hears(worker) && x.Write?
    ensures Counts(true, queued + x.length, unacked + [x.length], events, worker, commands + [x], written', true, needsDrain')
  {
    SumConcat(unacked, [x.length]);
    assert Sum([x.length]) == x.length;
    if !worker.Gone? {
      DataAppend(commands, x);
      assert (Acks(events) + Unwritten(worker, commands)) + [x.length] == Acks(events) + Unwritten(worker, commands + [x]);
    }
  }

  /** After End or Destroy nothing is written. */
  lemma OrdersClosed(worker: Worker, commands: seq<Command>, pipe: seq<Byte>, offered: seq<Byte>,
                     strayed: bool, writable: bool, sender: bool, x: Command)
    requires Orders(worker, commands, pipe, offered, strayed, writable, sender) && Hears(worker) && !x.Write?
    ensures Orders(worker, commands + [x], pipe, offered, strayed, false, sender)
    ensures Orders(worker, commands + [x], pipe, offered, strayed, false, false)
    ensures Unwritten(worker, commands + [x]) == Unwritten(worker, commands)
  {
    DataAppend(commands, x);
    OrderlyAppend(commands, x);
    hide Orderly, Data, Lengths;
    assert Data(commands) + [] == Data(commands) && Lengths(commands) + [] == Lengths(commands);
    assert Pending(worker, commands + [x]) == Pending(worker, commands);
  }

  lemma OrdersShut(worker: Worker, commands: seq<Command>, pipe: seq<Byte>, offered: seq<Byte>,
                   strayed: bool, writable: bool, sender: bool)
    requires Orders(worker, commands, pipe, offered, strayed, writable, sender)
    ensures Orders(worker, commands, pipe, offered, strayed, false, sender)
    ensures Orders(worker, commands, pipe, offered, strayed, false, false)
  {
  }

  lemma CountsShut(receiver: bool, queued: nat, unacked: seq<nat>, events: seq<Event>, worker: Worker,
                   commands: seq<Command>, written: bool, writable: bool, needsDrain: bool, longer: seq<Command>)
    requires Counts(receiver, queued, unacked, events, worker, commands, written, writable, needsDrain)
    requires Unwritten(worker, longer) == Unwritten(worker, commands)
    ensures Counts(receiver, queued, unacked, events, worker, longer, written, false, needsDrain)
  {
  }

  /** Nothing is counted any more. */
  lemma CountsDropped(worker: Worker, commands: seq<Command>, written: bool, writable: bool)
    ensures Counts(false, 0, [], [], worker, commands, written, writable, false)
  {
  }

  lemma Rest(commands: seq<Command>, rest: seq<Command>)
    requires commands != [] && rest == commands[1..] && Orderly(commands)
    ensures Orderly(rest) && commands == [commands[0]] + rest
    ensures !commands[0].Write? ==> forall i :: 0 <= i < |rest| ==> !rest[i].Write?
  {
    assert forall i :: 0 <= i < |rest| ==> rest[i] == commands[i + 1];
  }

  lemma OrdersTaken(commands: seq<Command>, rest: seq<Command>, pipe: seq<Byte>, offered: seq<Byte>,
                    strayed: bool, writable: bool, sender: bool)
    requires Orders(Idle, commands, pipe, offered, strayed, writable, sender) && commands != [] && rest == commands[1..]
    ensures commands[0].Write? ==>
              var taken := Writing(commands[0].data, commands[0].length);
              Orders(taken, rest, pipe, offered, strayed, writable, sender) && Unwritten(taken, rest) == Unwritten(Idle, commands)
    ensures !commands[0].Write? ==>
              !writable && pipe == offered && Orders(Gone(true, true), rest, pipe, offered, strayed, false, sender)
              && Unwritten(Idle, commands) == []
  {
    Rest(commands, rest);
    if commands[0].Write? {
      assert Pending(Writing(commands[0].data, commands[0].length), rest) == Pending(Idle, commands);
    } else {
      NoWritesNoData(rest);
      assert pipe + [] == pipe;
    }
  }

  lemma EventsRest(events: seq<Event>, rest: seq<Event>)
    requires events != [] && rest == events[1..]
    ensures events == [events[0]] + rest && forall i :: 0 <= i < |rest| ==> rest[i] == events[i + 1]
  {
  }

  lemma FirstOff(length: nat, acks: seq<nat>, unwritten: seq<nat>)
    ensures (([length] + acks) + unwritten)[1..] == acks + unwritten
  {
  }

  lemma FirstOn(length: nat, acks: seq<nat>, lengths: seq<nat>)
    ensures (acks + [length]) + ([] + lengths) == acks + ([length] + lengths)
  {
  }

  /** The thread has written a command and says so. */
  lemma WrittenParts(worker: Worker, commands: seq<Command>, pipe: seq<Byte>, offered: seq<Byte>, strayed: bool,
                     writable: bool, sender: bool, queued: nat, unacked: seq<nat>, events: seq<Event>,
                     written: bool, needsDrain: bool)
    requires Orders(worker, commands, pipe, offered, strayed, writable, sender) && worker.Writing? && worker.rest == []
    requires Counts(true, queued, unacked, events, worker, commands, written, writable, needsDrain)
    ensures Orders(Idle, commands, pipe, offered, strayed, writable, sender)
    ensures Counts(true, queued, unacked, events + [Wrote(worker.length)], Idle, commands, written, writable, needsDrain)
  {
    AcksAppend(events, Wrote(worker.length));
    FirstOn(worker.length, Acks(events), Lengths(commands));
    assert Pending(worker, commands) == Pending(Idle, commands);
  }

  /** n more bytes of a write have gone out. */
  lemma OrdersPiped(worker: Worker, commands: seq<Command>, pipe: seq<Byte>, offered: seq<Byte>, strayed: bool,
                    writable: bool, sender: bool, n: nat)
    requires Orders(worker, commands, pipe, offered, strayed, writable, sender) && worker.Writing? && n <= |worker.rest|
    ensures Orders(worker.(rest := worker.rest[n..]), commands, pipe + worker.rest[..n], offered, strayed, writable, sender)
  {
    var later := Data(commands);
    hide Orderly, Data;
    assert worker.rest == worker.rest[..n] + worker.rest[n..];
    assert (pipe + worker.rest[..n]) + (worker.rest[n..] + later) == pipe + (worker.rest + later);
    if strayed { assert worker.rest == []; }
  }

  lemma CountsPiped(s: State, t: State)
    requires Counted(s) && s.worker.Writing? && t.worker.Writing? && t.worker.length == s.worker.length
    requires t.sender == s.sender && t.receiver == s.receiver && t.queued == s.queued && t.unacked == s.unacked
    requires t.events == s.events && t.needsDrain == s.needsDrain && t.commands == s.commands && t.writable == s.writable
    ensures Counted(t)
  {
    hide Sum, Acks, Lengths;
  }

  /** A direct write that took everything. */
  lemma OrdersDirect(worker: Worker, commands: seq<Command>, pipe: seq<Byte>, data: seq<Byte>, strayed: bool)
    requires Orders(worker, commands, pipe, pipe, false, true, true) && Pending(worker, commands) == []
    ensures Orders(worker, commands, pipe + data, pipe + data, false, true, true)
    ensures Orders(worker, commands, pipe + data, pipe + data, strayed, false, false)
  {
    assert (pipe + data) + [] == pipe + data && pipe + [] == pipe;
  }

  lemma CountsWritten(queued: nat, unacked: seq<nat>, events: seq<Event>, worker: Worker, commands: seq<Command>,
                      written: bool, writable: bool, needsDrain: bool)
    requires Counts(true, queued, unacked, events, worker, commands, written, writable, needsDrain)
    ensures Counts(true, queued, unacked, events, worker, commands, true, writable, needsDrain)
  {
  }

  lemma CountsMoved(receiver: bool, queued: nat, unacked: seq<nat>, events: seq<Event>, worker: Worker, commands: seq<Command>,
                    written: bool, writable: bool, needsDrain: bool, worker': Worker, commands': seq<Command>, written': bool)
    requires Counts(receiver, queued, unacked, events, worker, commands, written, writable, needsDrain)
    requires !worker.Gone? && !worker'.Gone? && Unwritten(worker', commands') == Unwritten(worker, commands)
    ensures Counts(receiver, queued, unacked, events, worker', commands', written', writable, needsDrain)
  {
  }

  /** The ends of the channels are let go. */
  lemma OrdersGone(worker: Worker, commands: seq<Command>, pipe: seq<Byte>, offered: seq<Byte>, strayed: bool,
                   writable: bool, sender: bool, speaks: bool)
    requires Orders(worker, commands, pipe, offered, strayed, writable, sender) && worker.Gone?
    ensures Orders(Gone(false, speaks), [], pipe, offered, strayed, writable, sender)
    ensures Orders(Gone(worker.hears, speaks), commands, pipe, offered, strayed, writable, sender)
  {
  }

  lemma CountsGone(receiver: bool, queued: nat, unacked: seq<nat>, events: seq<Event>, worker: Worker, commands: seq<Command>,
                   written: bool, writable: bool, needsDrain: bool, speaks: bool)
    requires Counts(receiver, queued, unacked, events, worker, commands, written, writable, needsDrain) && worker.Gone?
    ensures Counts(receiver, queued, unacked, events, Gone(false, speaks), [], written, writable, needsDrain)
    ensures Counts(receiver, queued, unacked, events, Gone(worker.hears, speaks), commands, written, writable, needsDrain)
  {
  }

  lemma NotStrayed(s: State)
    requires InOrder(s) && s.writable
    ensures s.stray == []
  {
  }

  lemma OrdersLeft(worker: Worker, commands: seq<Command>, pipe: seq<Byte>, offered: seq<Byte>, strayed: bool,
                   writable: bool, sender: bool)
    requires Orders(worker, commands, pipe, offered, strayed, writable, sender)
    ensures Orders(Gone(true, true), commands, pipe, offered, strayed, writable, sender)
    ensures worker.Writing? ==> |worker.rest| <= worker.length
  {
  }

  /** What the count means once the thread is done: it finished with everything out and the stream
      closed, or some write stays unanswered. */
  lemma CountsLeft(queued: nat, unacked: seq<nat>, events: seq<Event>, worker: Worker, commands: seq<Command>,
                   rest: seq<Command>, written: bool, writable: bool, needsDrain: bool, last: Event)
    requires Counts(true, queued, unacked, events, worker, commands, written, writable, needsDrain)
    requires !worker.Gone? && !last.Wrote?
    requires (written && !writable) || (worker.Writing? && worker.length > 0)
    ensures Counts(true, queued, unacked, events, Gone(true, true), rest, written, writable, needsDrain)
    ensures Counts(true, queued, unacked, events + [last], Gone(true, true), rest, written, writable, needsDrain)
    ensures worker.Writing? && worker.length > 0 ==> Unanswered(events + [last], unacked)
  {
    AcksAppend(events, last);
    assert Acks(events) + [] == Acks(events);
    SumConcat(Acks(events), Unwritten(worker, commands));
  }

  /** An acknowledgement takes the oldest outstanding length off the count. */
  lemma CountsAcknowledged(queued: nat, unacked: seq<nat>, events: seq<Event>, worker: Worker, commands: seq<Command>,
                           written: bool, writable: bool, needsDrain: bool, needsDrain': bool)
    requires Counts(true, queued, unacked, events, worker, commands, written, writable, needsDrain)
    requires events != [] && events[0].Wrote?
    ensures unacked != [] && unacked[0] == events[0].length && queued >= events[0].length
    ensures Counts(true, queued - events[0].length, unacked[1..], events[1..], worker, commands, written, writable, needsDrain')
    ensures Unanswered(events, unacked) ==> Unanswered(events[1..], unacked[1..])
  {
    var length, rest := events[0].length, events[1..];
    assert Acks(events) == [length] + Acks(rest);
    assert unacked[0] == length;
    assert Sum(Acks(events)) == length + Sum(Acks(rest)) by { assert Acks(events)[1..] == Acks(rest); }
    if worker.Gone? {
      assert Acks(rest) <= unacked[1..];
    } else {
      FirstOff(length, Acks(rest), Unwritten(worker, commands));
    }
  }

  // ---- every step keeps the invariant ----

  lemma FailKeeps(s: State)
    requires Inv(s)
    ensures Inv(Fail(s))
  {
    hide Orders, Counts, Pending, Unwritten, Data, Lengths, Acks, Sum, Orderly, Armed, DrainsAnswer, OneFinish;
    var t := Fail(s);
    OrdersShut(s.worker, s.commands, s.pipe, Offered(s), s.stray != [], s.writable, s.sender);
    CountsDropped(t.worker, t.commands, t.pipe == Offered(t), t.writable);
    LogPush(s.log, ErrorEvent);
  }

  lemma ReturnKeeps(s: State, ready: bool)
    requires Inv(s)
    ensures Inv(Return(s, ready))
  {
    hide Orders, Counts, Pending, Unwritten, Data, Lengths, Acks, Sum, Orderly, Armed, DrainsAnswer, OneFinish;
    LogPush(s.log, Returned(ready));
  }

  /** The queue takes over where the fast path stopped. */
  lemma EnqueueKeeps(s: State, data: seq<Byte>, n: nat)
    requires Inv(s) && s.writable && s.sender && Hears(s.worker)
    requires n <= |data| && (n > 0 ==> s.queued == 0)
    ensures Inv(Enqueue(s.(pipe := s.pipe + data[..n]), data, n))
  {
    hide Orders, Counts, Pending, Unwritten, Data, Lengths, Acks, Sum, Orderly, Armed, DrainsAnswer, OneFinish, Terminal, Backpressure;
    var t := Enqueue(s.(pipe := s.pipe + data[..n]), data, n);
    NotStrayed(s);
    assert Offered(t) == Offered(s) + data;
    if n > 0 { FastPathIsNext(s); }
    OrdersQueued(s.worker, s.commands, s.pipe, Offered(s), data, n);
    CountsQueued(s.queued, s.unacked, s.events, s.worker, s.commands, s.pipe == Offered(s), s.needsDrain,
                 Write(data[n..], |data|), t.pipe == Offered(t), t.needsDrain);
    EnqueueRest(s, data, n, t);
  }

  lemma EnqueueRest(s: State, data: seq<Byte>, n: nat, t: State)
    requires Terminal(s) && Backpressure(s) && s.writable && s.sender && Hears(s.worker) && n <= |data|
    requires t == Enqueue(s.(pipe := s.pipe + data[..n]), data, n)
    ensures Terminal(t) && Backpressure(t)
  {
    LogPush(s.log, Returned(t.queued < HIGH_WATER_MARK));
  }

  lemma FastPathKeeps(s: State, data: seq<Byte>, attempt: Attempt)
    requires Inv(s) && s.writable && s.sender && s.queued == 0 && s.syncStdin && Fits(attempt, data)
    ensures Inv(WriteStep(s, data, attempt))
  {
    hide Inv, Enqueue;
    match attempt
    case Refused =>
      FailKeeps(s);
      ReturnKeeps(Fail(s), false);
    case AcceptedThenFailed(n) =>
      StrayKeeps(s, data, n);
    case Accepted(n) =>
      if n == |data| {
        AllKeeps(s, data);
      } else if !Hears(s.worker) {
        EnqueueDeaf(s, data, n);
        StrayKeeps(s, data, n);
      } else {
        EnqueueKeeps(s, data, n);
      }
  }

  lemma EnqueueDeaf(s: State, data: seq<Byte>, n: nat)
    requires !Hears(s.worker) && n <= |data|
    ensures Enqueue(s.(pipe := s.pipe + data[..n]), data, n)
            == Return(Fail(s.(pipe := s.pipe + data[..n], stray := s.stray + data[..n])), false)
  {
  }

  /** The whole data went out at once. */
  lemma AllKeeps(s: State, data: seq<Byte>)
    requires Inv(s) && s.writable && s.sender && s.queued == 0
    ensures Inv(Return(s.(pipe := s.pipe + data[..|data|], accepted := s.accepted + data), true))
  {
    hide Orders, Counts, Pending, Unwritten, Data, Lengths, Acks, Sum, Orderly, Armed, DrainsAnswer, OneFinish, Terminal, Backpressure;
    FastPathIsNext(s);
    NotStrayed(s);
    var t := s.(pipe := s.pipe + data[..|data|], accepted := s.accepted + data);
    assert data[..|data|] == data;
    assert Offered(t) == Offered(s) + data;
    OrdersDirect(s.worker, s.commands, s.pipe, data, false);
    CountsWritten(s.queued, s.unacked, s.events, s.worker, s.commands, s.pipe == Offered(s), s.writable, s.needsDrain);
    AllRest(s, data);
    ReturnKeeps(t, true);
  }

  lemma AllRest(s: State, data: seq<Byte>)
    requires Terminal(s) && Backpressure(s) && s.writable
    ensures var t := s.(pipe := s.pipe + data[..|data|], accepted := s.accepted + data); Terminal(t) && Backpressure(t)
  {
  }

  /** A write that fails with bytes already out ends the stream right behind them. */
  lemma StrayKeeps(s: State, data: seq<Byte>, n: nat)
    requires Inv(s) && s.writable && s.sender && s.queued == 0 && n <= |data|
    ensures Inv(Return(Fail(s.(pipe := s.pipe + data[..n], stray := s.stray + data[..n])), false))
  {
    hide Orders, Counts, Pending, Unwritten, Data, Lengths, Acks, Sum, Orderly, Armed, DrainsAnswer, OneFinish, Terminal, Backpressure;
    FastPathIsNext(s);
    NotStrayed(s);
    var t := Fail(s.(pipe := s.pipe + data[..n], stray := s.stray + data[..n]));
    assert Offered(t) == Offered(s) + data[..n];
    OrdersDirect(s.worker, s.commands, s.pipe, data[..n], t.stray != []);
    CountsDropped(t.worker, t.commands, t.pipe == Offered(t), t.writable);
    StrayRest(s, data[..n]);
    ReturnKeeps(t, false);
  }

  lemma StrayRest(s: State, part: seq<Byte>)
    requires Terminal(s) && Backpressure(s) && s.writable
    ensures var t := Fail(s.(pipe := s.pipe + part, stray := s.stray + part)); Terminal(t) && Backpressure(t)
  {
    LogPush(s.log, ErrorEvent);
  }

  lemma WriteKeeps(s: State, data: seq<Byte>, attempt: Attempt)
    requires Inv(s) && Fits(attempt, data)
    ensures Inv(WriteStep(s, data, attempt))
  {
    hide Inv, Enqueue;
    if s.writable && s.sender && s.queued == 0 && s.syncStdin {
      FastPathKeeps(s, data, attempt);
    } else if s.writable && s.sender && Hears(s.worker) {
      EnqueueKeeps(s, data, 0);
      assert s.(pipe := s.pipe + data[..0]) == s;
    } else {
      FailKeeps(s);
      ReturnKeeps(Fail(s), false);
      if s.writable && s.sender {
        EnqueueDeaf(s, data, 0);
        assert s.(pipe := s.pipe + data[..0]) == s && s.(stray := s.stray + data[..0]) == s;
      }
    }
  }

  lemma EndKeeps(s: State)
    requires Inv(s)
    ensures Inv(EndStep(s))
  {
    hide Orders, Counts, Pending, Unwritten, Data, Lengths, Acks, Sum, Orderly, Armed, DrainsAnswer, OneFinish;
    if s.writable {
      if s.sender && Hears(s.worker) {
        NotStrayed(s);
        OrdersClosed(s.worker, s.commands, s.pipe, Offered(s), s.stray != [], s.writable, s.sender, End);
        CountsShut(s.receiver, s.queued, s.unacked, s.events, s.worker, s.commands, s.pipe == Offered(s), s.writable,
                   s.needsDrain, s.commands + [End]);
      } else {
        FailKeeps(s);
      }
    }
  }

  lemma DestroyKeeps(s: State)
    requires Inv(s)
    ensures Inv(DestroyStep(s))
  {
    hide Orders, Counts, Pending, Unwritten, Data, Lengths, Acks, Sum, Orderly, Armed, DrainsAnswer, OneFinish;
    var t := DestroyStep(s);
    OrdersShut(s.worker, s.commands, s.pipe, Offered(s), s.stray != [], s.writable, s.sender);
    if s.sender && Hears(s.worker) {
      OrdersClosed(s.worker, s.commands, s.pipe, Offered(s), s.stray != [], s.writable, s.sender, Destroy);
    }
    CountsDropped(t.worker, t.commands, t.pipe == Offered(t), t.writable);
    assert End in t.commands ==> End in s.commands;
  }

  lemma AcknowledgeKeeps(s: State, rest: seq<Event>)
    requires Inv(s) && s.receiver && s.events != [] && rest == s.events[1..] && s.events[0].Wrote?
    ensures Inv(DispatchStep(s)) && s.queued == s.events[0].length + DispatchStep(s).queued
    ensures DispatchStep(s).unacked == s.unacked[1..]
  {
    hide Orders, Counts, Pending, Unwritten, Data, Lengths, Acks, Sum, Orderly, Armed, DrainsAnswer, OneFinish;
    var t := DispatchStep(s);
    CountsAcknowledged(s.queued, s.unacked, s.events, s.worker, s.commands, s.pipe == Offered(s), s.writable,
                       s.needsDrain, t.needsDrain);
    EventsRest(s.events, rest);
    if s.needsDrain { LogPush(s.log, Drain); }
  }

  lemma ConcludeKeeps(s: State)
    requires Terminal(s) && Backpressure(s) && s.receiver && s.events != [] && s.events[0] == Finished
    ensures Terminal(Conclude(s)) && Backpressure(Conclude(s)) && !s.writable
  {
    hide Armed, DrainsAnswer, OneFinish;
    assert Finished in s.events;
    assert !s.events[0].Wrote?;
    LogPush(s.log, Finish);
  }

  lemma FinishKeeps(s: State)
    requires Inv(s) && s.receiver && s.events != [] && s.events[0] == Finished
    ensures Inv(DispatchStep(s))
  {
    hide Orders, Counts, Backpressure, Terminal, Pending, Unwritten, Data, Lengths, Acks, Sum, Orderly, Armed, DrainsAnswer, OneFinish;
    ConcludeKeeps(s);
    var t := Conclude(s);
    OrdersShut(s.worker, s.commands, s.pipe, Offered(s), s.stray != [], s.writable, s.sender);
    CountsDropped(t.worker, t.commands, t.pipe == Offered(t), t.writable);
  }

  lemma DispatchKeeps(s: State)
    requires Inv(s)
    ensures Inv(DispatchStep(s))
  {
    hide Inv;
    if s.receiver && s.events != [] {
      match s.events[0]
      case Wrote(_) => AcknowledgeKeeps(s, s.events[1..]);
      case Finished => FinishKeeps(s);
      case Failed => FailKeeps(s); assert DispatchStep(s) == Fail(s);
    } else {
      FailKeeps(s);
    }
  }

  lemma TakeWriteKeeps(s: State, rest: seq<Command>)
    requires Inv(s) && s.worker.Idle? && s.commands != [] && rest == s.commands[1..] && s.commands[0].Write?
    ensures Inv(TakeStep(s))
  {
    hide Orders, Counts, Pending, Unwritten, Data, Lengths, Acks, Sum, Orderly, Armed, DrainsAnswer, OneFinish;
    OrdersTaken(s.commands, rest, s.pipe, Offered(s), s.stray != [], s.writable, s.sender);
    CountsMoved(s.receiver, s.queued, s.unacked, s.events, s.worker, s.commands, s.pipe == Offered(s), s.writable, s.needsDrain,
                Writing(s.commands[0].data, s.commands[0].length), rest, s.pipe == Offered(s));
    assert End in rest ==> End in s.commands;
  }

  /** End is reached only after every write before it, and nothing follows it. */
  lemma TakeLastKeeps(s: State, rest: seq<Command>)
    requires Inv(s) && s.worker.Idle? && s.commands != [] && rest == s.commands[1..] && !s.commands[0].Write?
    ensures Inv(TakeStep(s))
  {
    hide Orders, Counts, Pending, Unwritten, Data, Lengths, Acks, Sum, Orderly, Armed, DrainsAnswer, OneFinish, Terminal, Backpressure;
    OrdersTaken(s.commands, rest, s.pipe, Offered(s), s.stray != [], s.writable, s.sender);
    if s.receiver {
      CountsLeft(s.queued, s.unacked, s.events, s.worker, s.commands, rest, s.pipe == Offered(s), s.writable,
                 s.needsDrain, Finished);
    } else {
      CountsKeptDropped(s, TakeStep(s));
    }
    TakeLastRest(s, rest);
  }

  lemma CountsKeptDropped(s: State, t: State)
    requires Counted(s) && !s.receiver
    requires t.sender == s.sender && t.receiver == s.receiver && t.queued == s.queued && t.unacked == s.unacked
    requires t.events == s.events && t.needsDrain == s.needsDrain
    ensures Counted(t)
  {
  }

  lemma TakeLastRest(s: State, rest: seq<Command>)
    requires Terminal(s) && Backpressure(s)
    requires s.worker.Idle? && s.commands != [] && rest == s.commands[1..] && !s.commands[0].Write?
    requires s.pipe == Offered(s) && !s.writable
    ensures Terminal(TakeStep(s)) && Backpressure(TakeStep(s))
  {
    hide Armed, DrainsAnswer, OneFinish;
    assert s.accepted + [] == s.accepted;
    assert End in rest ==> End in s.commands;
    var t := TakeStep(s);
    assert Finished in t.events ==> Finished in s.events || s.commands[0] == End;
  }

  lemma TakeKeeps(s: State)
    requires Inv(s)
    ensures Inv(TakeStep(s))
  {
    hide Inv;
    if s.worker.Idle? {
      if s.commands != [] {
        if s.commands[0].Write? { TakeWriteKeeps(s, s.commands[1..]); } else { TakeLastKeeps(s, s.commands[1..]); }
      } else if !s.sender {
        LeaveKeeps(s);
      }
    }
  }

  lemma LeaveKeeps(s: State)
    requires Inv(s) && !s.sender
    ensures Inv(Leave(s))
  {
    hide Orders, Counts, Pending, Unwritten, Data, Lengths, Acks, Sum, Orderly, Armed, DrainsAnswer, OneFinish;
    OrdersLeft(s.worker, s.commands, s.pipe, Offered(s), s.stray != [], s.writable, s.sender);
    CountsKeptDropped(s, Leave(s));
  }

  lemma PipeKeeps(s: State, n: nat)
    requires Inv(s)
    ensures Inv(PipeStep(s, n))
  {
    hide Orders, Counts, Pending, Unwritten, Data, Lengths, Acks, Sum, Orderly, Armed, DrainsAnswer, OneFinish;
    if s.worker.Writing? && n <= |s.worker.rest| {
      OrdersPiped(s.worker, s.commands, s.pipe, Offered(s), s.stray != [], s.writable, s.sender, n);
      CountsPiped(s, PipeStep(s, n));
    }
  }

  lemma WrittenKeeps(s: State)
    requires Inv(s)
    ensures Inv(WrittenStep(s))
  {
    hide Orders, Counts, Pending, Unwritten, Data, Lengths, Acks, Sum, Orderly, Armed, DrainsAnswer, OneFinish, Terminal, Backpressure;
    if s.worker.Writing? && s.worker.rest == [] {
      WrittenRest(s);
      if s.receiver {
        WrittenParts(s.worker, s.commands, s.pipe, Offered(s), s.stray != [], s.writable, s.sender, s.queued, s.unacked,
                     s.events, s.pipe == Offered(s), s.needsDrain);
      } else {
        OrdersLeft(s.worker, s.commands, s.pipe, Offered(s), s.stray != [], s.writable, s.sender);
        CountsKeptDropped(s, WrittenStep(s));
      }
    }
  }

  lemma WrittenRest(s: State)
    requires Terminal(s) && Backpressure(s) && s.worker.Writing?
    ensures Terminal(WrittenStep(s)) && Backpressure(WrittenStep(s))
  {
    hide Armed, DrainsAnswer, OneFinish;
  }

  lemma BreakKeeps(s: State)
    requires Inv(s)
    ensures Inv(BreakStep(s))
  {
    hide Orders, Counts, Pending, Unwritten, Data, Lengths, Acks, Sum, Orderly, Armed, DrainsAnswer, OneFinish, Terminal, Backpressure;
    if s.worker.Writing? && s.worker.rest != [] {
      BreakRest(s);
      OrdersLeft(s.worker, s.commands, s.pipe, Offered(s), s.stray != [], s.writable, s.sender);
      if s.receiver {
        CountsLeft(s.queued, s.unacked, s.events, s.worker, s.commands, s.commands, s.pipe == Offered(s), s.writable,
                   s.needsDrain, Failed);
      } else {
        CountsKeptDropped(s, BreakStep(s));
      }
    }
  }

  lemma BreakRest(s: State)
    requires Terminal(s) && Backpressure(s) && s.worker.Writing?
    ensures Terminal(BreakStep(s)) && Backpressure(BreakStep(s))
  {
    hide Armed, DrainsAnswer, OneFinish;
  }

  lemma DeafKeeps(s: State)
    requires Inv(s)
    ensures Inv(DeafStep(s))
  {
    hide Orders, Counts, Pending, Unwritten, Data, Lengths, Acks, Sum, Orderly, Armed, DrainsAnswer, OneFinish;
    if s.worker.Gone? && s.worker.hears {
      OrdersGone(s.worker, s.commands, s.pipe, Offered(s), s.stray != [], s.writable, s.sender, s.worker.speaks);
      CountsGone(s.receiver, s.queued, s.unacked, s.events, s.worker, s.commands, s.pipe == Offered(s), s.writable,
                 s.needsDrain, s.worker.speaks);
    }
  }

  lemma MuteKeeps(s: State)
    requires Inv(s)
    ensures Inv(MuteStep(s))
  {
    hide Orders, Counts, Pending, Unwritten, Data, Lengths, Acks, Sum, Orderly, Armed, DrainsAnswer, OneFinish;
    if s.worker.Gone? && s.worker.speaks {
      OrdersGone(s.worker, s.commands, s.pipe, Offered(s), s.stray != [], s.writable, s.sender, false);
      CountsGone(s.receiver, s.queued, s.unacked, s.events, s.worker, s.commands, s.pipe == Offered(s), s.writable,
                 s.needsDrain, false);
    }
  }

  lemma ApplyKeeps(s: State, a: Action)
    requires Inv(s) && Possible(a)
    ensures Inv(Apply(s, a))
  {
    hide Inv, WriteStep, EndStep, DestroyStep, DispatchStep, TakeStep, PipeStep, WrittenStep, BreakStep, DeafStep, MuteStep;
    match a
    case DoWrite(data, attempt) => WriteKeeps(s, data, attempt);
    case DoEnd => EndKeeps(s);
    case DoDestroy => DestroyKeeps(s);
    case DoDispatch => DispatchKeeps(s);
    case Take => TakeKeeps(s);
    case Pipe(n) => PipeKeeps(s, n);
    case Written => WrittenKeeps(s);
    case Break => BreakKeeps(s);
    case Deaf => DeafKeeps(s);
    case Mute => MuteKeeps(s);
  }

  /** The invariant holds after every run, whatever the interleaving and the outcomes. */
  lemma {:induction false} RunKeeps(s: State, run: seq<Action>)
    requires Inv(s) && AllPossible(run)
    ensures Inv(Run(s, run))
    decreases |run|
  {
    if run != [] {
      RunKeeps(s, run[..|run| - 1]);
      ApplyKeeps(Run(s, run[..|run| - 1]), run[|run| - 1]);
    }
  }

  // ---- what every run guarantees ----

  predicate IsStart(s: State) {
    s in {Husk(), New(true, true), New(true, false), New(false, true), New(false, false)}
  }

  ghost predicate ReachedBy(start: State, run: seq<Action>, s: State) {
    IsStart(start) && AllPossible(run) && s == Run(start, run)
  }

  ghost predicate Reachable(s: State) {
    exists start, run :: ReachedBy(start, run, s)
  }

  lemma ReachableKeeps(s: State)
    requires Reachable(s)
    ensures Inv(s)
  {
    hide Inv, Run, Apply;
    var start, run :| ReachedBy(start, run, s);
    StartHolds(start);
    RunKeeps(start, run);
  }

  lemma StartHolds(s: State)
    requires IsStart(s)
    ensures Inv(s) && s.stray == [] && Started(New(true, s.syncStdin))
  {
  }

  // ---- bytes of writes that failed ----

  /** A write that goes to the pipe directly. */
  predicate Direct(s: State, a: Action) {
    a.DoWrite? && s.writable && s.sender && s.queued == 0 && s.syncStdin
  }

  /** Bytes went out and then the descriptor's flags could not be restored. */
  predicate FlagsFail(s: State, a: Action) {
    Direct(s, a) && a.attempt.AcceptedThenFailed? && a.attempt.n > 0
  }

  /** A part went out and there is no thread to take the rest. */
  predicate NoThread(s: State, a: Action) {
    Direct(s, a) && a.attempt.Accepted? && 0 < a.attempt.n < |a.data| && !Hears(s.worker)
  }

  predicate Strays(s: State, a: Action) {
    FlagsFail(s, a) || NoThread(s, a)
  }

  lemma StepStrays(s: State, a: Action)
    requires Possible(a)
    ensures Apply(s, a).stray != [] <==> s.stray != [] || Strays(s, a)
  {
    hide WriteStep;
    match a
    case DoWrite(data, attempt) => WriteStrays(s, data, attempt);
    case DoDispatch => DispatchStrays(s);
    case Take => TakeStrays(s);
    case _ =>
  }

  lemma DispatchStrays(s: State)
    ensures DispatchStep(s).stray == s.stray
  {
  }

  lemma TakeStrays(s: State)
    ensures TakeStep(s).stray == s.stray
  {
  }

  lemma WriteStrays(s: State, data: seq<Byte>, attempt: Attempt)
    requires Fits(attempt, data)
    ensures WriteStep(s, data, attempt).stray != [] <==> s.stray != [] || Strays(s, DoWrite(data, attempt))
  {
    hide Enqueue;
    EnqueueStrays(s, data, 0);
    if attempt.Accepted? {
      EnqueueStrays(s.(pipe := s.pipe + data[..attempt.n]), data, attempt.n);
    }
  }

  lemma EnqueueStrays(s: State, data: seq<Byte>, n: nat)
    requires n <= |data|
    ensures Enqueue(s, data, n).stray == if Hears(s.worker) then s.stray else s.stray + data[..n]
  {
  }

  /** The i-th step of a run is a write that fails with bytes already out. */
  ghost predicate StraysAt(start: State, run: seq<Action>, i: int)
    requires AllPossible(run)
  {
    0 <= i < |run| && Strays(Run(start, run[..i]), run[i])
  }

  ghost predicate FlagsFailAt(start: State, run: seq<Action>, i: int)
    requires AllPossible(run)
  {
    0 <= i < |run| && FlagsFail(Run(start, run[..i]), run[i])
  }

  /** Bytes of failed writes are in the pipe exactly if some step was such a write. */
  lemma {:induction false} RunStrays(start: State, run: seq<Action>)
    requires start.stray == [] && AllPossible(run)
    ensures Run(start, run).stray != [] <==> exists i :: StraysAt(start, run, i)
    decreases |run|
  {
    if run != [] {
      var last := |run| - 1;
      var init := run[..last];
      RunStrays(start, init);
      assert Run(start, run) == Apply(Run(start, init), run[last]);
      assert StraysAt(start, run, last) <==> Strays(Run(start, init), run[last]);
      StepStrays(Run(start, init), run[last]);
      forall i ensures StraysAt(start, init, i) ==> StraysAt(start, run, i)
               ensures StraysAt(start, run, i) ==> i == last || StraysAt(start, init, i)
      {
        StraysEarlier(start, run, i);
      }
      hide Apply, Run, Strays, StraysAt, Possible;
    }
  }

  lemma StraysEarlier(start: State, run: seq<Action>, i: int)
    requires run != [] && AllPossible(run)
    ensures var init := run[..|run| - 1];
            (StraysAt(start, init, i) ==> StraysAt(start, run, i))
            && (StraysAt(start, run, i) ==> i == |run| - 1 || StraysAt(start, init, i))
  {
    hide Apply, Run, Strays;
    if 0 <= i < |run| - 1 { assert run[..|run| - 1][..i] == run[..i]; }
  }

  /** The pipe holds the offered bytes in call order with nothing skipped or repeated, although some
      went through the queue and some around it. They are the bytes of successful writes exactly
      unless some direct write failed with bytes already out: its flags could not be restored, or it
      was partial and there was no thread to take the rest. */
  lemma PipeIsPrefix(start: State, run: seq<Action>)
    requires IsStart(start) && AllPossible(run)
    ensures var s := Run(start, run);
            s.pipe <= s.accepted + s.stray
            && (s.pipe <= s.accepted <==> !exists i :: StraysAt(start, run, i))
  {
    hide Apply, StraysAt;
    StartHolds(start);
    RunKeeps(start, run);
    RunStrays(start, run);
    OrderedPipe(Run(start, run));
  }

  lemma OrderedPipe(s: State)
    requires InOrder(s)
    ensures s.pipe <= s.accepted + s.stray
    ensures s.pipe <= s.accepted <==> s.stray == []
  {
    assert s.accepted + [] == s.accepted;
  }

  /** Both happen: the bytes of a write that returned false can reach the child. */
  lemma RejectedBytesCanArrive(data: seq<Byte>)
    requires data != []
    ensures var run := [DoWrite(data, AcceptedThenFailed(|data|))];
            var s := Run(New(true, true), run);
            s.pipe == data && s.accepted == [] && s.log == [ErrorEvent, Returned(false)]
  {
    var run := [DoWrite(data, AcceptedThenFailed(|data|))];
    assert run[..0] == [] && data[..|data|] == data;
    assert Run(New(true, true), run[..0]) == New(true, true);
  }

  lemma RejectedPartCanArrive(data: seq<Byte>, n: nat)
    requires 0 < n < |data|
    ensures var run := [DoWrite(data, Accepted(n))];
            var s := Run(New(false, true), run);
            s.pipe == data[..n] && s.accepted == [] && s.log == [ErrorEvent, Returned(false)]
  {
    var run := [DoWrite(data, Accepted(n))];
    assert run[..0] == [];
    assert Run(New(false, true), run[..0]) == New(false, true);
  }

  /** A thread that started is only ever found gone, with the stream still writable, while a write
      is unacknowledged. */
  ghost predicate Started(s: State) {
    s.stray == [] && (s.worker.Gone? && s.writable && s.receiver ==> Unanswered(s.events, s.unacked))
  }

  lemma StartedIsBusy(s: State, a: Action)
    requires Counted(s) && Started(s)
    ensures !NoThread(s, a)
  {
  }

  lemma StartedWrite(s: State, data: seq<Byte>, attempt: Attempt)
    requires Counted(s) && Started(s) && Fits(attempt, data) && !FlagsFail(s, DoWrite(data, attempt))
    ensures Started(WriteStep(s, data, attempt))
  {
    StartedIsBusy(s, DoWrite(data, attempt));
    WriteStrays(s, data, attempt);
    if s.worker.Gone? && s.writable && s.receiver {
      assert s.queued > 0;
      SumConcat(s.unacked, [|data|]);
    }
  }

  lemma StartedBreak(s: State)
    requires InOrder(s) && Counted(s) && Started(s) && s.worker.Writing? && s.worker.rest != []
    ensures Started(BreakStep(s))
  {
    if s.receiver {
      hide Orders, Counts, Unanswered;
      OrdersLeft(s.worker, s.commands, s.pipe, Offered(s), s.stray != [], s.writable, s.sender);
      CountsLeft(s.queued, s.unacked, s.events, s.worker, s.commands, s.commands, s.pipe == Offered(s), s.writable,
                 s.needsDrain, Failed);
    }
  }

  lemma StartedDispatch(s: State)
    requires Counted(s) && Started(s)
    ensures Started(DispatchStep(s))
  {
    if s.receiver && s.events != [] && s.events[0].Wrote? {
      hide Counts, Unanswered;
      CountsAcknowledged(s.queued, s.unacked, s.events, s.worker, s.commands, s.pipe == Offered(s), s.writable,
                         s.needsDrain, s.needsDrain);
    }
  }

  lemma StartedTake(s: State)
    requires InOrder(s) && Started(s) && s.sender == s.receiver
    ensures Started(TakeStep(s))
  {
    if s.worker.Idle? && s.commands != [] {
      hide Orders;
      OrdersTaken(s.commands, s.commands[1..], s.pipe, Offered(s), s.stray != [], s.writable, s.sender);
    }
  }

  lemma StartedStep(s: State, a: Action)
    requires Inv(s) && Started(s) && Possible(a) && !FlagsFail(s, a)
    ensures Started(Apply(s, a))
  {
    hide Orders, Counts, Terminal, Backpressure, Unanswered;
    match a
    case DoWrite(data, attempt) => hide WriteStep; StartedWrite(s, data, attempt);
    case Break => if s.worker.Writing? && s.worker.rest != [] { StartedBreak(s); }
    case DoDispatch => hide DispatchStep; StartedDispatch(s);
    case Take => hide TakeStep; StartedTake(s);
    case _ =>
  }

  lemma {:induction false} StartedRun(start: State, run: seq<Action>)
    requires Inv(start) && Started(start) && AllPossible(run)
    requires forall i :: !FlagsFailAt(start, run, i)
    ensures Started(Run(start, run))
    decreases |run|
  {
    if run != [] {
      var last := |run| - 1;
      var init := run[..last];
      assert Run(start, run) == Apply(Run(start, init), run[last]);
      assert !FlagsFailAt(start, run, last);
      assert !FlagsFail(Run(start, init), run[last]) && Possible(run[last]);
      forall i ensures !FlagsFailAt(start, init, i) {
        FlagsFailEarlier(start, run, i);
      }
      hide Inv, Apply, Run, Started, FlagsFail, FlagsFailAt, Possible;
      RunKeeps(start, init);
      StartedRun(start, init);
      StartedStep(Run(start, init), run[last]);
    }
  }

  lemma FlagsFailEarlier(start: State, run: seq<Action>, i: int)
    requires run != [] && AllPossible(run)
    ensures FlagsFailAt(start, run[..|run| - 1], i) ==> FlagsFailAt(start, run, i)
  {
    hide Apply, Run, FlagsFail;
    if 0 <= i < |run| - 1 { assert run[..|run| - 1][..i] == run[..i]; }
  }

  /** Once the thread runs, exactly the accepted bytes arrive, in order, unless the flags of the
      descriptor could not be restored after a direct write. */
  lemma AcceptedInOrder(duplicated: bool, run: seq<Action>)
    requires AllPossible(run)
    ensures var start := New(true, duplicated);
            var s := Run(start, run);
            s.pipe <= s.accepted <==> !exists i :: FlagsFailAt(start, run, i)
  {
    var start := New(true, duplicated);
    PipeIsPrefix(start, run);
    StartHolds(start);
    hide Inv, Apply, Run, IsStart;
    if i :| FlagsFailAt(start, run, i) {
      assert StraysAt(start, run, i);
    } else {
      StartedRun(start, run);
      RunStrays(start, run);
    }
  }

  /** Finish fires at most once, and only when every accepted byte has been handed over. */
  lemma FinishMeansDelivered(s: State)
    requires Reachable(s)
    ensures s.finished ==> s.pipe == s.accepted && !s.writable
    ensures Finish in s.log <==> s.finished
    ensures OneFinish(s.log)
  {
    ReachableKeeps(s);
  }

  /** The counter is the total length of unacknowledged writes, so a drain that is owed always has
      an acknowledgement to wait for. */
  lemma CounterIsExact(s: State)
    requires Reachable(s)
    ensures s.queued == Sum(s.unacked)
    ensures s.receiver && !s.worker.Gone? ==> s.unacked == Acks(s.events) + Unwritten(s.worker, s.commands)
    ensures s.writable && s.needsDrain ==> s.queued > 0 && s.unacked != []
  {
    ReachableKeeps(s);
  }

  lemma {:induction false} ArmedBy(log: seq<Output>) returns (k: nat)
    requires Armed(log)
    ensures k < |log| && log[k] == Returned(false) && forall i :: k < i < |log| ==> log[i] != Drain
    decreases |log|
  {
    if log[|log| - 1] == Returned(false) {
      k := |log| - 1;
    } else {
      k := ArmedBy(log[..|log| - 1]);
    }
  }

  lemma {:induction false} DrainsAnswerAt(log: seq<Output>, j: nat)
    requires DrainsAnswer(log) && j < |log| && log[j] == Drain
    ensures Armed(log[..j])
    decreases |log|
  {
    if j < |log| - 1 {
      DrainsAnswerAt(log[..|log| - 1], j);
      assert log[..|log| - 1][..j] == log[..j];
    }
  }

  /** Between two drains some write was told to wait; so was one before the first. */
  lemma DrainAnswersWrite(s: State, j: nat) returns (k: nat)
    requires Reachable(s) && j < |s.log| && s.log[j] == Drain
    ensures k < j && s.log[k] == Returned(false) && forall i :: k < i < j ==> s.log[i] != Drain
  {
    ReachableKeeps(s);
    DrainsAnswerAt(s.log, j);
    k := ArmedBy(s.log[..j]);
    assert forall i :: 0 <= i < j ==> s.log[..j][i] == s.log[i];
  }

  function Dispatches(s: State, n: nat): State
    decreases n
  {
    if n == 0 then s else Dispatches(DispatchStep(s), n - 1)
  }

  /** No drain is lost: once the thread has written everything, delivering the waiting
      acknowledgements emits it. */
  lemma {:induction false} DrainComes(s: State)
    requires Inv(s) && s.writable && s.needsDrain && s.worker.Idle? && s.commands == []
    ensures var t := Dispatches(s, |s.events|); t.log == s.log + [Drain] && !t.needsDrain && t.queued == 0
    decreases |s.events|
  {
    assert s.receiver;
    assert s.unacked == Acks(s.events) + [] == Acks(s.events);
    assert s.events != [] && s.events[0].Wrote?;
    var t := DispatchStep(s);
    AcknowledgeKeeps(s, s.events[1..]);
    if t.needsDrain {
      DrainComes(t);
    } else {
      RestIsEmpty(t);
    }
  }

  /** After the drain only acknowledgements of empty writes can be left; they change nothing seen. */
  lemma {:induction false} RestIsEmpty(s: State)
    requires Inv(s) && !s.needsDrain && s.queued == 0 && s.worker.Idle? && s.commands == []
    requires s.receiver
    ensures var t := Dispatches(s, |s.events|); t.log == s.log && !t.needsDrain && t.queued == 0
    decreases |s.events|
  {
    if s.events != [] {
      assert s.events[0].Wrote?;
      AcknowledgeKeeps(s, s.events[1..]);
      RestIsEmpty(DispatchStep(s));
    }
  }
}
