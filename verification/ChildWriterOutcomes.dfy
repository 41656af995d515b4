/** What the program that writes to a child's stdin can rely on: what a write returns, that an end is
    finished once the thread has worked, and that every way the thread can end is reported. */
module ChildWriterOutcomes {
  import opened Bytes
  import opened ChildWriter

  // ---- what a write returns ----

  ghost predicate Answered(s: State, t: State, data: seq<Byte>) {
    if t.writable then
      && t.log == s.log + [Returned(t.queued < 65536)]
      && t.accepted == s.accepted + data && t.stray == s.stray
      && (t.queued == s.queued + |data| || (s.queued == 0 && t.queued == 0 && t.pipe == s.pipe + data))
      && (t.needsDrain <==> s.needsDrain || t.queued >= 65536)
    else
      && t.log == s.log + [ErrorEvent, Returned(false)]
      && t.accepted == s.accepted && !t.sender && !t.receiver && t.queued == 0
  }

  lemma FailAnswers(s: State, data: seq<Byte>, pipe: seq<Byte>, stray: seq<Byte>)
    ensures var t := Return(Fail(s.(pipe := pipe, stray := stray)), false); Answered(s, t, data) && !t.writable
  {
    assert (s.log + [ErrorEvent]) + [Returned(false)] == s.log + [ErrorEvent, Returned(false)];
  }

  lemma EnqueueAnswers(s: State, data: seq<Byte>, n: nat, pipe: seq<Byte>)
    requires n <= |data| && s.writable
    ensures var t := Enqueue(s.(pipe := pipe), data, n); Answered(s, t, data) && (t.writable <==> Hears(s.worker))
  {
    if !Hears(s.worker) {
      FailAnswers(s, data, pipe, s.stray + data[..n]);
    }
  }

  lemma DirectAnswers(s: State, data: seq<Byte>, pipe: seq<Byte>)
    requires s.writable && s.queued == 0 && !s.needsDrain && pipe == s.pipe + data
    ensures var t := Return(s.(pipe := pipe, accepted := s.accepted + data), true); Answered(s, t, data) && t.writable
  {
  }

  lemma NothingOwed(s: State)
    requires Inv(s) && s.writable && s.queued == 0
    ensures !s.needsDrain
  {
  }

  lemma FastPathAnswers(s: State, data: seq<Byte>, attempt: Attempt)
    requires Inv(s) && s.writable && s.sender && s.queued == 0 && s.syncStdin && Fits(attempt, data)
    ensures var t := WriteStep(s, data, attempt);
            Answered(s, t, data)
            && (t.writable <==> attempt.Accepted? && (attempt.n == |data| || Hears(s.worker)))
  {
    hide Inv, Fail, Return, Answered, Enqueue;
    NothingOwed(s);
    match attempt
    case Refused => FailAnswers(s, data, s.pipe, s.stray);
    case AcceptedThenFailed(n) => FailAnswers(s, data, s.pipe + data[..n], s.stray + data[..n]);
    case Accepted(n) =>
      if n == |data| {
        assert data[..n] == data;
        DirectAnswers(s, data, s.pipe + data[..n]);
      } else {
        EnqueueAnswers(s, data, n, s.pipe + data[..n]);
      }
  }

  /** A write either fails, with an error event, and closes the stream; or its data is accepted, and
      it returns true exactly if fewer than 64 KiB are then unacknowledged. Data that does not go out
      at once counts whole, and a write that returns false owes a drain. */
  lemma WriteReturns(s: State, data: seq<Byte>, attempt: Attempt)
    requires Reachable(s) && Fits(attempt, data)
    ensures Answered(s, WriteStep(s, data, attempt), data)
    ensures WriteStep(s, data, attempt).writable <==>
              s.writable && s.sender
              && (if s.queued == 0 && s.syncStdin then attempt.Accepted? && (attempt.n == |data| || Hears(s.worker))
                  else Hears(s.worker))
  {
    hide Inv, Fail, Return, Answered, Enqueue, Reachable;
    ReachableKeeps(s);
    if !s.writable || !s.sender {
      FailAnswers(s, data, s.pipe, s.stray);
    } else if s.queued == 0 && s.syncStdin {
      FastPathAnswers(s, data, attempt);
    } else {
      EnqueueAnswers(s, data, 0, s.pipe);
    }
  }

  predicate Drained(s: State, t: State) {
    |t.log| > |s.log| && t.log[|t.log| - 1] == Drain
  }

  /** A drain is emitted only by a step after which nothing is unacknowledged, and then every accepted
      byte has been handed over. */
  lemma DrainMeansDelivered(s: State, a: Action)
    requires Reachable(s) && Possible(a)
    ensures var t := Apply(s, a); Drained(s, t) ==> t.queued == 0 && t.pipe == t.accepted
  {
    hide Inv, Apply, DispatchStep, Reachable, Drained;
    ReachableKeeps(s);
    ApplyKeeps(s, a);
    if !a.DoDispatch? {
      OthersDrainNothing(s, a);
    } else {
      DispatchDrains(s);
      assert Apply(s, a) == DispatchStep(s) by { DispatchApplied(s); }
      if Drained(s, DispatchStep(s)) { EmptyIsDelivered(DispatchStep(s)); }
    }
  }

  lemma DispatchApplied(s: State)
    ensures Apply(s, DoDispatch) == DispatchStep(s)
  {
  }

  lemma OthersDrainNothing(s: State, a: Action)
    requires Reachable(s) && Possible(a) && !a.DoDispatch?
    ensures !Drained(s, Apply(s, a))
  {
    hide Reachable, WriteStep, TakeStep, PipeStep, WrittenStep, BreakStep, Possible;
    match a
    case DoWrite(data, attempt) => WritePossible(data, attempt); WriteReturns(s, data, attempt);
    case Take => TakeIsSilent(s);
    case Pipe(n) => PipeIsSilent(s, n);
    case Written => WrittenIsSilent(s);
    case Break => BreakIsSilent(s);
    case _ =>
  }

  lemma WritePossible(data: seq<Byte>, attempt: Attempt)
    requires Possible(DoWrite(data, attempt))
    ensures Fits(attempt, data)
  {
  }

  lemma TakeIsSilent(s: State)
    ensures TakeStep(s).log == s.log
  {
  }

  lemma WrittenIsSilent(s: State)
    ensures WrittenStep(s).log == s.log
  {
  }

  lemma BreakIsSilent(s: State)
    ensures BreakStep(s).log == s.log
  {
  }

  lemma PipeIsSilent(s: State, n: nat)
    ensures PipeStep(s, n).log == s.log
  {
  }

  lemma DispatchDrains(s: State)
    ensures var t := DispatchStep(s); Drained(s, t) ==> t.queued == 0 && t.writable && t.receiver
  {
  }

  lemma EmptyIsDelivered(s: State)
    requires Inv(s) && s.writable && s.queued == 0 && s.receiver
    ensures s.pipe == s.accepted
  {
    hide Counted, Terminal, Backpressure;
    FastPathIsNext(s);
    assert s.accepted + [] == s.accepted;
  }

  // ---- every end is reported ----

  /** What the program has not been told is on its way, unless the stream was destroyed. */
  ghost predicate Reported(started: bool, receiver: bool, writable: bool, commands: seq<Command>, worker: Worker,
                           events: seq<Event>)
  {
    && (Destroy in commands ==> !receiver)
    && (receiver && !worker.Gone? && !writable ==> End in commands)
    && (started && receiver && worker.Gone? ==> Finished in events || Failed in events)
    && (!started ==> worker.Gone?)
  }

  ghost predicate Reports(started: bool, s: State) {
    Reported(started, s.receiver, s.writable, s.commands, s.worker, s.events)
  }

  lemma Unheard(started: bool, receiver: bool, writable: bool, commands: seq<Command>, worker: Worker, events: seq<Event>)
    requires Reported(started, receiver, writable, commands, worker, events)
    ensures Reported(started, false, false, commands, worker, [])
    ensures Reported(started, false, false, commands + [Destroy], worker, [])
  {
  }

  lemma Asked(started: bool, receiver: bool, commands: seq<Command>, worker: Worker, events: seq<Event>,
              data: seq<Byte>, length: nat)
    requires Reported(started, receiver, true, commands, worker, events)
    ensures Reported(started, receiver, true, commands + [Write(data, length)], worker, events)
    ensures Reported(started, receiver, false, commands + [End], worker, events)
  {
  }

  lemma WriteReports(started: bool, s: State, data: seq<Byte>, attempt: Attempt)
    requires Reports(started, s) && Fits(attempt, data)
    ensures Reports(started, WriteStep(s, data, attempt))
  {
    hide Hears, Reported;
    Unheard(started, s.receiver, s.writable, s.commands, s.worker, s.events);
    if s.writable {
      Asked(started, s.receiver, s.commands, s.worker, s.events, data, |data|);
      if attempt.Accepted? {
        Asked(started, s.receiver, s.commands, s.worker, s.events, data[attempt.n..], |data|);
      }
      assert data[0..] == data;
    }
  }

  lemma TakeReports(started: bool, s: State)
    requires Reports(started, s) && s.sender == s.receiver
    ensures Reports(started, TakeStep(s))
  {
    if s.worker.Idle? && s.commands != [] {
      assert s.commands == [s.commands[0]] + s.commands[1..];
    }
  }

  lemma DispatchReports(started: bool, s: State)
    requires Reports(started, s)
    ensures Reports(started, DispatchStep(s))
  {
    hide Reported;
    Unheard(started, s.receiver, s.writable, s.commands, s.worker, s.events);
    if s.receiver && s.events != [] && s.events[0].Wrote? {
      Popped(started, s.receiver, s.writable, s.commands, s.worker, s.events);
    }
    ConcludedReports(started, s.receiver, s.writable, s.commands, s.worker, s.events);
  }

  lemma Popped(started: bool, receiver: bool, writable: bool, commands: seq<Command>, worker: Worker, events: seq<Event>)
    requires Reported(started, receiver, writable, commands, worker, events) && events != [] && events[0].Wrote?
    ensures Reported(started, receiver, writable, commands, worker, events[1..])
  {
    assert events == [events[0]] + events[1..];
  }

  lemma ConcludedReports(started: bool, receiver: bool, writable: bool, commands: seq<Command>, worker: Worker, events: seq<Event>)
    requires Reported(started, receiver, writable, commands, worker, events)
    ensures Reported(started, false, writable, commands, worker, [])
  {
  }

  lemma ThreadReports(started: bool, s: State, a: Action)
    requires Reports(started, s) && s.sender == s.receiver
    requires a.Pipe? || a.Written? || a.Break? || a.Deaf? || a.Mute?
    ensures Reports(started, Apply(s, a))
  {
  }

  lemma StepReports(started: bool, s: State, a: Action)
    requires Reports(started, s) && s.sender == s.receiver && Possible(a)
    ensures Reports(started, Apply(s, a))
  {
    hide WriteStep, TakeStep, DispatchStep, Reported;
    match a
    case DoWrite(data, attempt) => WriteReports(started, s, data, attempt);
    case DoEnd =>
      Unheard(started, s.receiver, s.writable, s.commands, s.worker, s.events);
      if s.writable { Asked(started, s.receiver, s.commands, s.worker, s.events, [], 0); }
    case DoDestroy => Unheard(started, s.receiver, s.writable, s.commands, s.worker, s.events);
    case DoDispatch => DispatchReports(started, s);
    case Take => TakeReports(started, s);
    case _ => ThreadReports(started, s, a);
  }

  lemma {:induction false} RunReports(spawned: bool, duplicated: bool, run: seq<Action>)
    requires AllPossible(run)
    ensures Reports(spawned, Run(New(spawned, duplicated), run)) && Inv(Run(New(spawned, duplicated), run))
    decreases |run|
  {
    hide Apply, Reports, Inv, New;
    StartReports(spawned, duplicated);
    RunKeeps(New(spawned, duplicated), run);
    if run != [] {
      var s := Run(New(spawned, duplicated), run[..|run| - 1]);
      RunReports(spawned, duplicated, run[..|run| - 1]);
      BothEnds(s);
      StepReports(spawned, s, run[|run| - 1]);
    }
  }

  lemma StartReports(spawned: bool, duplicated: bool)
    ensures Reports(spawned, New(spawned, duplicated)) && Inv(New(spawned, duplicated))
  {
    hide Inv;
    StartHolds(New(spawned, duplicated));
  }

  lemma BothEnds(s: State)
    requires Inv(s)
    ensures s.sender == s.receiver
  {
    hide InOrder, Terminal, Backpressure, Counts;
  }

  // ---- an end is finished ----

  lemma OnlyLast(s: State)
    requires Inv(s) && s.receiver && s.events != []
    ensures s.events[0] == Finished || s.events[0] == Failed ==> s.events == [s.events[0]]
    ensures Finished in s.events ==> !s.writable && s.pipe == s.accepted
    ensures Finished in s.events ==> Failed !in s.events
  {
    hide InOrder, Counted, Backpressure;
  }

  lemma Acknowledged(s: State)
    requires s.receiver && s.events != [] && s.events[0].Wrote?
    ensures var t := DispatchStep(s);
            t.receiver && t.events == s.events[1..] && t.writable == s.writable && t.pipe == s.pipe && t.accepted == s.accepted
            && (t.log == s.log || (s.writable && t.log == s.log + [Drain]))
  {
  }

  /** Delivering the events of a stream that is ended or broken, the last of which says so, closes it:
      with one finish if the thread came to the end, with an error if it failed before. */
  lemma {:induction false} EventsConclude(s: State)
    requires Inv(s) && s.receiver && (Finished in s.events || Failed in s.events)
    ensures var t := Dispatches(s, |s.events|);
            !t.receiver && t.log != [] && t.log[|t.log| - 1] == (if Finished in s.events then Finish else ErrorEvent)
            && (t.finished <==> Finished in s.events)
            && (Finished in s.events ==> t.log == s.log + [Finish] && t.pipe == t.accepted == s.accepted)
    decreases |s.events|
  {
    hide Inv, DispatchStep;
    OnlyLast(s);
    DispatchKeeps(s);
    assert s.events == [s.events[0]] + s.events[1..];
    if s.events[0].Wrote? {
      Acknowledged(s);
      EventsConclude(DispatchStep(s));
    } else {
      assert |s.events| == 1 && Dispatches(s, 1) == Dispatches(DispatchStep(s), 0);
      Concluded(s);
    }
  }

  lemma Concluded(s: State)
    requires Inv(s) && s.receiver && s.events != [] && !s.events[0].Wrote?
    ensures var t := DispatchStep(s);
            !t.receiver && t.log == s.log + [if s.events[0] == Finished then Finish else ErrorEvent]
            && (t.finished <==> s.events[0] == Finished) && t.pipe == s.pipe && t.accepted == s.accepted
  {
    hide InOrder, Counted, Backpressure;
  }

  /** Whatever happened before, when the thread of a stream that was not destroyed is gone, delivering
      the events that wait tells the program how the stream ended. */
  lemma EveryEndIsReported(duplicated: bool, run: seq<Action>)
    requires AllPossible(run)
    ensures var s := Run(New(true, duplicated), run);
            var t := Dispatches(s, |s.events|);
            s.receiver && s.worker.Gone? ==>
              !t.receiver && t.log != [] && t.log[|t.log| - 1] == (if Finished in s.events then Finish else ErrorEvent)
  {
    hide Apply, Run, Inv, New;
    RunReports(true, duplicated, run);
    var s := Run(New(true, duplicated), run);
    if s.receiver && s.worker.Gone? { EventsConclude(s); }
  }

  /** A thread that never started is reported by the first poll. */
  lemma NoThreadIsReported(duplicated: bool)
    ensures var s := New(false, duplicated); DispatchStep(s).log == [ErrorEvent] && !DispatchStep(s).writable
    ensures var s := New(false, duplicated); EndStep(s).log == [ErrorEvent]
  {
  }

  /** One command of the thread, with a pipe that takes every byte. */
  function Work(s: State): State {
    if s.worker.Writing? then WrittenStep(PipeStep(s, |s.worker.rest|)) else TakeStep(s)
  }

  function Works(s: State, n: nat): State
    decreases n
  {
    if n == 0 then s else Works(Work(s), n - 1)
  }

  /** What is left to do in the thread. */
  function Effort(s: State): nat {
    2 * |s.commands| + if s.worker.Writing? then 1 else 0
  }

  lemma WorkKeeps(s: State)
    requires Inv(s)
    ensures Inv(Work(s))
  {
    hide Inv, WrittenStep, PipeStep, TakeStep;
    if s.worker.Writing? {
      PipeKeeps(s, |s.worker.rest|);
      WrittenKeeps(PipeStep(s, |s.worker.rest|));
    } else {
      TakeKeeps(s);
    }
  }

  /** What the thread does is not seen until it is dispatched. */
  ghost predicate Behind(s: State, t: State) {
    && t.receiver && t.writable == s.writable && t.log == s.log && t.accepted == s.accepted && t.stray == s.stray
  }

  lemma WorkWrites(s: State)
    requires s.receiver && s.worker.Writing?
    ensures var t := Work(s); Behind(s, t) && t.sender == s.sender && t.worker.Idle? && t.commands == s.commands
  {
  }

  lemma WorkTakes(s: State)
    requires s.receiver && s.worker.Idle? && s.commands != []
    ensures var t := Work(s);
            Behind(s, t) && t.sender == s.sender && t.commands == s.commands[1..]
            && (s.commands[0].Write? ==> t.worker.Writing?)
            && (s.commands[0].End? ==> t.worker.Gone? && Finished in t.events)
  {
  }

  lemma WorkOn(s: State, writes: seq<Command>)
    requires s.receiver && s.sender && !s.worker.Gone? && s.commands == writes + [End]
    requires forall i :: 0 <= i < |writes| ==> writes[i].Write?
    ensures var t := Work(s);
            Behind(s, t) && t.sender
            && (if s.worker.Writing? then t.worker.Idle? && t.commands == s.commands
                else if writes == [] then t.worker.Gone? && Finished in t.events
                else t.worker.Writing? && t.commands == writes[1..] + [End])
  {
    hide Work, Behind;
    if s.worker.Writing? {
      WorkWrites(s);
    } else {
      WorkTakes(s);
      if writes != [] { assert s.commands[1..] == writes[1..] + [End]; }
    }
  }

  lemma {:induction false} WorksToEnd(s: State, writes: seq<Command>, n: nat)
    requires Inv(s) && s.receiver && s.sender && !s.worker.Gone? && s.commands == writes + [End]
    requires forall i :: 0 <= i < |writes| ==> writes[i].Write?
    requires n == Effort(s) - 1
    ensures var t := Works(s, n); Inv(t) && Behind(s, t) && t.worker.Gone? && Finished in t.events
    decreases n
  {
    hide Inv, Work;
    WorkKeeps(s);
    WorkOn(s, writes);
    var t := Work(s);
    assert Works(s, n) == Works(t, n - 1);
    if !t.worker.Gone? {
      WorksToEnd(t, if s.worker.Writing? then writes else writes[1..], n - 1);
    }
  }

  lemma WritableQueue(s: State)
    requires Inv(s) && s.writable && s.sender && !s.worker.Gone?
    ensures s.receiver && forall i :: 0 <= i < |s.commands| ==> s.commands[i].Write?
  {
    hide Counts, Terminal, Backpressure, Orderly, Pending;
  }

  /** No finish is lost: once `end` is called on a working stream, the thread writes what is queued and
      the events are dispatched, exactly one more output has been made, which is the finish, and every
      accepted byte has been handed over. */
  lemma EndFinishes(s: State)
    requires Reachable(s) && s.writable && s.sender && !s.worker.Gone?
    ensures var ended := EndStep(s);
            var worked := Works(ended, Effort(ended) - 1);
            var t := Dispatches(worked, |worked.events|);
            t.log == s.log + [Finish] && t.finished && t.pipe == t.accepted == s.accepted
  {
    hide Inv, Works, Dispatches, Reachable;
    ReachableKeeps(s);
    WritableQueue(s);
    EndKeeps(s);
    var ended := EndStep(s);
    WorksToEnd(ended, s.commands, Effort(ended) - 1);
    EventsConclude(Works(ended, Effort(ended) - 1));
  }
}
