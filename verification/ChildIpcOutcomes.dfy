/** What the program that uses a fork channel can rely on: which sends are accepted, what each
    callback is told, that a local disconnect loses nothing, and what is reported of the child. */
module ChildIpcOutcomes {
  import opened Bytes
  import opened IpcFraming
  import opened ChildIpc

  // ---- the program's calls ----

  datatype Asked = Asked(payload: Payload, callback: bool)

  /** The sends a run asks for, in order. */
  function Sends(run: seq<Action>): seq<Asked> {
    if run == [] then []
    else
      var last := run[|run| - 1];
      Sends(run[..|run| - 1]) + if last.DoSend? then [Asked(last.payload, last.callback)] else []
  }

  function Listens(run: seq<Action>): nat {
    if run == [] then 0 else Listens(run[..|run| - 1]) + B(run[|run| - 1].DoListen?)
  }

  function WithCallback(sends: seq<Asked>): nat {
    if sends == [] then 0 else WithCallback(sends[..|sends| - 1]) + B(sends[|sends| - 1].callback)
  }

  /** The first sends are numbered from 1 and keep their callback; all later ones are refused. */
  ghost predicate Accounted(sends: seq<Asked>, connected: bool, nextId: nat, registered: set<nat>, refused: nat,
                            submitted: seq<Payload>)
  {
    && |submitted| < nextId <= |sends| + 1
    && (connected ==> |submitted| == |sends|)
    && (forall i :: 0 <= i < |submitted| ==> submitted[i] == sends[i].payload)
    && (forall id :: id in registered <==> 1 <= id < nextId && sends[id - 1].callback)
    && refused == WithCallback(sends[nextId - 1..])
  }

  ghost predicate SameBooks(s: State, t: State) {
    && t.nextId == s.nextId && t.registered == s.registered && t.refused == s.refused
    && t.submitted == s.submitted && (t.connected ==> s.connected)
  }

  /** A step by which the program asks nothing and hears nothing of the child. */
  ghost predicate Quiet(s: State, t: State) {
    SameBooks(s, t) && t.listened == s.listened && t.child == s.child
  }

  /** Ticks are queued behind the ones that wait, and none is run. */
  ghost predicate Grows(s: State, t: State) {
    && s.ticks <= t.ticks && s.heard <= t.heard && s.refused <= t.refused
    && forall n: nat :: t.fired[Refusal(n)] == s.fired[Refusal(n)]
  }

  lemma SettledBooks(s: State, rest: seq<Event>, callbacks: set<nat>, fired: multiset<Fire>)
    requires forall n: nat :: fired[Refusal(n)] == s.fired[Refusal(n)]
    ensures var t := s.(events := rest, callbacks := callbacks, fired := fired); Quiet(s, t) && Grows(s, t)
  {
  }

  lemma SettleBooks(s: State, id: nat, ok: bool, rest: seq<Event>)
    ensures Quiet(s, Settle(s, id, ok, rest)) && Grows(s, Settle(s, id, ok, rest))
  {
    hide Quiet, Grows;
    if id in s.callbacks {
      SettledBooks(s, rest, s.callbacks - {id}, Ran(s.fired, Callback(id, ok)));
    } else {
      SettledBooks(s, rest, s.callbacks, s.fired);
    }
  }

  lemma CloseBooks(s: State, rest: seq<Event>)
    ensures Quiet(s, Close(s, rest)) && Grows(s, Close(s, rest))
  {
    hide AllFailed;
    AllFailedCounts(s.callbacks);
  }

  lemma DispatchBooks(s: State)
    ensures Quiet(s, DispatchStep(s)) && Grows(s, DispatchStep(s))
  {
    hide Settle, Close, Ran;
    if s.events != [] {
      match s.events[0]
      case Sent(id, ok) => SettleBooks(s, id, ok, s.events[1..]);
      case Message(_) =>
      case Disconnected => CloseBooks(s, s.events[1..]);
    }
  }

  lemma WorkerBooks(s: State, alive: bool, commands: seq<Command>, out: seq<Octet>, written: seq<Payload>,
                    events: seq<Event>, silent: bool)
    ensures var t := s.(alive := alive, commands := commands, out := out, written := written, events := events, silent := silent);
            Quiet(s, t) && Grows(s, t)
  {
  }

  lemma TakeBooks(s: State, n: nat)
    ensures Quiet(s, TakeStep(s, n)) && Grows(s, TakeStep(s, n))
  {
    hide Frame, Sized, Quiet, Grows;
    if !s.alive || s.commands == [] {
      WorkerBooks(s, s.alive, s.commands, s.out, s.written, s.events, s.silent);
    } else {
      var rest := s.commands[1..];
      match s.commands[0]
      case Disconnect => WorkerBooks(s, false, rest, s.out, s.written, s.events + [Disconnected], s.silent);
      case Send(id, payload) =>
        if !Sized(payload) {
          WorkerBooks(s, false, rest, s.out, s.written, s.events, true);
        } else if n >= |Frame(payload)| {
          WorkerBooks(s, s.alive, rest, s.out + Frame(payload), s.written + [payload], s.events + [Sent(id, true)], s.silent);
        } else {
          WorkerBooks(s, false, rest, s.out + Frame(payload)[..n], s.written, s.events + [Sent(id, false), Disconnected], s.silent);
        }
    }
  }

  lemma ReadBooks(s: State, chunk: seq<Octet>)
    ensures Quiet(s, ReadStep(s, chunk)) && Grows(s, ReadStep(s, chunk))
  {
    hide Parse, Messages;
  }

  lemma QueueBooks(s: State, ticks: seq<Tick>, fired: multiset<Fire>, heard: multiset<nat>)
    ensures var t := s.(ticks := ticks, fired := fired, heard := heard); Quiet(s, t)
  {
  }

  lemma TickBooks(s: State)
    ensures Quiet(s, TickStep(s))
  {
    hide Ran, Called, Quiet;
    if s.ticks == [] {
      QueueBooks(s, s.ticks, s.fired, s.heard);
    } else {
      match s.ticks[0]
      case RefusalTick(n) => QueueBooks(s, s.ticks[1..], Ran(s.fired, Refusal(n)), s.heard);
      case ListenerTick(listeners) => QueueBooks(s, s.ticks[1..], s.fired, Called(s.heard, listeners));
    }
  }

  lemma LeaveBooks(s: State)
    ensures Quiet(s, DisconnectStep(s)) && Grows(s, DisconnectStep(s))
    ensures Quiet(s, StopStep(s)) && Grows(s, StopStep(s))
    ensures Quiet(s, HangStep(s)) && Grows(s, HangStep(s))
  {
    hide Queued;
  }

  lemma StepBooks(s: State, a: Action)
    ensures !a.DoSend? ==> SameBooks(s, Apply(s, a))
    ensures Apply(s, a).listened == s.listened + B(a.DoListen?)
    ensures Apply(s, a).child == if a.DoPoll? then Polled(s.child, s.open, a.wait) else s.child
    ensures !a.DoTick? ==> Grows(s, Apply(s, a))
  {
    hide DispatchStep, TakeStep, ReadStep, TickStep, DisconnectStep, StopStep, HangStep, Polled, Queued;
    match a
    case DoDispatch => DispatchBooks(s);
    case Take(n) => TakeBooks(s, n);
    case Read(chunk) => ReadBooks(s, chunk);
    case DoTick => TickBooks(s);
    case DoDisconnect | Halt | Hang => LeaveBooks(s);
    case _ =>
  }

  lemma AcceptedBooks(sends: seq<Asked>, nextId: nat, registered: set<nat>, refused: nat, submitted: seq<Payload>,
                      ask: Asked, heard: bool)
    requires Accounted(sends, true, nextId, registered, refused, submitted)
    ensures Accounted(sends + [ask], heard, nextId + 1, registered + if ask.callback then {nextId} else {}, refused,
                      if heard then submitted + [ask.payload] else submitted)
  {
    assert sends[nextId - 1..] == [] && (sends + [ask])[nextId..] == [];
  }

  lemma RefusedBooks(sends: seq<Asked>, nextId: nat, registered: set<nat>, refused: nat, submitted: seq<Payload>, ask: Asked)
    requires Accounted(sends, false, nextId, registered, refused, submitted)
    ensures Accounted(sends + [ask], false, nextId, registered, refused + B(ask.callback), submitted)
  {
    var later := (sends + [ask])[nextId - 1..];
    assert later == sends[nextId - 1..] + [ask] && later[..|later| - 1] == sends[nextId - 1..];
  }

  lemma SendBooks(sends: seq<Asked>, s: State, payload: Payload, callback: bool)
    requires Accounted(sends, s.connected, s.nextId, s.registered, s.refused, s.submitted)
    requires s.connected ==> s.sender
    ensures var t := SendStep(s, payload, callback);
            Accounted(sends + [Asked(payload, callback)], t.connected, t.nextId, t.registered, t.refused, t.submitted)
  {
    hide Queued, Accounted;
    if s.connected {
      AcceptedBooks(sends, s.nextId, s.registered, s.refused, s.submitted, Asked(payload, callback), s.hears);
      assert s.registered + {} == s.registered;
    } else {
      RefusedBooks(sends, s.nextId, s.registered, s.refused, s.submitted, Asked(payload, callback));
    }
  }

  lemma ConnectedSender(s: State)
    requires Inv(s)
    ensures s.connected ==> s.sender
  {
    hide CallbacksConserved, RefusalsConserved, ListenersConserved, Honest, Numbered, Outgoing, Incoming, Exiting;
  }

  /** The accepted payloads are the first ones the run sends, all of them while the channel is
      connected; callbacks belong to the sends they were passed with, by number or as refused ones. */
  lemma {:induction false} SendsAccounted(spawned: bool, started: bool, run: seq<Action>)
    ensures var s := Run(New(spawned, started), run);
            Accounted(Sends(run), s.connected, s.nextId, s.registered, s.refused, s.submitted) && s.listened == Listens(run)
    decreases |run|
  {
    hide Accounted, Apply, Inv, WithCallback, New, Run, Sends, Listens;
    if run == [] {
      NothingSent(spawned, started);
    } else {
      var init, a := run[..|run| - 1], run[|run| - 1];
      var s := Run(New(spawned, started), init);
      SendsAccounted(spawned, started, init);
      LastStep(New(spawned, started), run);
      StepBooks(s, a);
      RunKeeps(spawned, started, init);
      ConnectedSender(s);
      StepAccounted(Sends(init), s, a);
    }
  }

  lemma StepAccounted(sends: seq<Asked>, s: State, a: Action)
    requires Accounted(sends, s.connected, s.nextId, s.registered, s.refused, s.submitted) && (s.connected ==> s.sender)
    ensures var t := Apply(s, a);
            Accounted(sends + if a.DoSend? then [Asked(a.payload, a.callback)] else [],
                      t.connected, t.nextId, t.registered, t.refused, t.submitted)
  {
    hide DispatchStep, DisconnectStep, ListenStep, TickStep, PollStep, TakeStep, ReadStep, StopStep, HangStep, SendStep, WithCallback;
    if a.DoSend? {
      SendBooks(sends, s, a.payload, a.callback);
    } else {
      StepBooks(s, a);
      assert sends + [] == sends;
    }
  }

  lemma LastStep(start: State, run: seq<Action>)
    requires run != []
    ensures var init, a := run[..|run| - 1], run[|run| - 1];
            Run(start, run) == Apply(Run(start, init), a)
            && Sends(run) == Sends(init) + (if a.DoSend? then [Asked(a.payload, a.callback)] else [])
            && Listens(run) == Listens(init) + B(a.DoListen?)
  {
    hide Apply;
  }

  lemma NothingSent(spawned: bool, started: bool)
    ensures var s := Run(New(spawned, started), []);
            Accounted(Sends([]), s.connected, s.nextId, s.registered, s.refused, s.submitted) && s.listened == Listens([])
  {
    hide New, Accounted;
    NewBooks(spawned, started);
  }

  lemma NewBooks(spawned: bool, started: bool)
    ensures var s := New(spawned, started);
            s.connected && s.nextId == 1 && s.registered == {} && s.refused == 0 && s.submitted == [] && s.listened == 0
    ensures Accounted([], true, 1, {}, 0, [])
  {
    var none: seq<Asked> := [];
    assert none[0..] == none;
  }

  lemma WrittenWasSubmitted(s: State)
    requires Inv(s)
    ensures s.written <= s.submitted
  {
    hide CallbacksConserved, RefusalsConserved, ListenersConserved, Honest, Incoming, Exiting, Partial, Frames, Lifecycle, Payloads;
  }

  lemma {:induction false} CallbackAmong(sends: seq<Asked>, j: nat)
    requires j < |sends|
    ensures WithCallback(sends[..j]) + B(sends[j].callback) <= WithCallback(sends)
    decreases |sends|
  {
    if j == |sends| - 1 {
    } else {
      CallbackAmong(sends[..|sends| - 1], j);
      assert sends[..|sends| - 1][..j] == sends[..j];
    }
  }

  /** The k-th send of a run: the callback passed with an accepted one has run once the channel has
      closed, with success exactly if the payload was written whole; the callback passed with a
      refused one has run once the ticks have. */
  lemma SendOutcome(spawned: bool, started: bool, run: seq<Action>, k: nat)
    requires 1 <= k <= |Sends(run)|
    ensures var s := Run(New(spawned, started), run);
            k <= |s.written| ==> s.written[k - 1] == Sends(run)[k - 1].payload
    ensures var s := Run(New(spawned, started), run);
            k < s.nextId && Sends(run)[k - 1].callback && !s.open ==>
              s.fired[Callback(k, true)] == B(k <= |s.written|) && s.fired[Callback(k, false)] == B(k > |s.written|)
    ensures var s := Run(New(spawned, started), run);
            k >= s.nextId > 0 && Sends(run)[k - 1].callback && s.ticks == [] ==>
              s.fired[Refusal(WithCallback(Sends(run)[s.nextId - 1..k - 1]))] == 1
  {
    hide Apply, WithCallback, Inv, New, Run, Sends;
    SendsAccounted(spawned, started, run);
    var s, sends := Run(New(spawned, started), run), Sends(run);
    assert Reachable(s);
    ReachableKeeps(s);
    WrittenWasSubmitted(s);
    if k < s.nextId {
      CallbacksRunOnce(s, k, 0);
    } else {
      CallbackAmong(sends[s.nextId - 1..], k - s.nextId);
      assert sends[s.nextId - 1..][..k - s.nextId] == sends[s.nextId - 1..k - 1];
      CallbacksRunOnce(s, k, WithCallback(sends[s.nextId - 1..k - 1]));
    }
  }

  /** What `send` returns: whether the command reached the worker's channel. */
  predicate SendResult(s: State) {
    s.connected && s.sender && s.hears
  }

  /** A send that returns true has its payload submitted; one that returns false submits nothing, and
      so does every later one. */
  lemma SendTells(s: State, payload: Payload, callback: bool, later: seq<Action>)
    requires Inv(s)
    ensures var t := SendStep(s, payload, callback);
            t.submitted == s.submitted + (if SendResult(s) then [payload] else [])
            && (!SendResult(s) ==> !SendResult(Run(t, later)) && Run(t, later).submitted == s.submitted)
  {
    hide Inv, Queued, Run;
    StaysRefused(SendStep(s, payload, callback), later);
  }

  lemma {:induction false} StaysRefused(s: State, later: seq<Action>)
    ensures !s.connected ==> !Run(s, later).connected && Run(s, later).submitted == s.submitted
    decreases |later|
  {
    hide Apply;
    if later != [] {
      StaysRefused(s, later[..|later| - 1]);
      StepRefused(Run(s, later[..|later| - 1]), later[|later| - 1]);
    }
  }

  lemma StepRefused(s: State, a: Action)
    ensures !s.connected ==> !Apply(s, a).connected && Apply(s, a).submitted == s.submitted
  {
    hide DispatchStep, DisconnectStep, ListenStep, TickStep, PollStep, TakeStep, ReadStep, StopStep, HangStep;
    if a.DoSend? {
    } else {
      StepBooks(s, a);
    }
  }

  // ---- a local disconnect loses nothing ----

  /** No frame is longer. */
  const WHOLE := 0x1_0000_0003

  /** The worker takes n commands and its socket takes every byte. */
  function Takes(s: State, n: nat): State
    decreases n
  {
    if n == 0 then s else Takes(TakeStep(s, WHOLE), n - 1)
  }

  function Ticks(s: State, n: nat): State
    decreases n
  {
    if n == 0 then s else Ticks(TickStep(s), n - 1)
  }

  /** Nothing is asked of the channel between s and t. */
  ghost predicate Onward(s: State, t: State) {
    && t.nextId == s.nextId && t.registered == s.registered && t.refused == s.refused && t.submitted == s.submitted
    && t.listened == s.listened && (s.listeners == [] ==> t.listeners == [])
  }

  lemma WorkerOnward(s: State, alive: bool, commands: seq<Command>, out: seq<Octet>, written: seq<Payload>, events: seq<Event>)
    ensures Onward(s, s.(alive := alive, commands := commands, out := out, written := written, events := events))
  {
  }

  lemma TakeOnward(s: State)
    requires s.alive && s.commands != [] && QueueSized(s)
    ensures var t := TakeStep(s, WHOLE);
            Onward(s, t) && t.commands == s.commands[1..] && t.silent == s.silent && QueueSized(t)
            && (t.alive <==> s.commands[0].Send?)
  {
    hide Frame, Onward;
    var rest := s.commands[1..];
    match s.commands[0]
    case Disconnect => WorkerOnward(s, false, rest, s.out, s.written, s.events + [Disconnected]);
    case Send(id, payload) =>
      FrameFits(payload);
      WorkerOnward(s, s.alive, rest, s.out + Frame(payload), s.written + [payload], s.events + [Sent(id, true)]);
  }

  lemma FrameFits(payload: Payload)
    requires Sized(payload)
    ensures |Frame(payload)| <= WHOLE
  {
  }

  lemma DisconnectOnward(s: State)
    requires s.connected && s.sender && s.hears
    ensures var t := DisconnectStep(s);
            Onward(s, t) && t.commands == s.commands + [Disconnect] && t.listeners == [] && t.alive == s.alive
  {
    hide Announced;
  }

  lemma SettleOnward(s: State, id: nat, ok: bool, rest: seq<Event>)
    ensures var t := Settle(s, id, ok, rest); Onward(s, t) && t.written == s.written && t.out == s.out && t.ticks == s.ticks
  {
    hide Ran;
  }

  lemma CloseOnward(s: State, rest: seq<Event>)
    ensures var t := Close(s, rest); Onward(s, t) && t.written == s.written && t.out == s.out && t.ticks == s.ticks
  {
    hide RanAll, Called;
  }

  lemma DispatchOnward(s: State)
    ensures var t := DispatchStep(s); Onward(s, t) && t.written == s.written && t.out == s.out && t.ticks == s.ticks
  {
    hide Settle, Close;
    if s.events != [] {
      match s.events[0]
      case Sent(id, ok) => SettleOnward(s, id, ok, s.events[1..]);
      case Message(_) =>
      case Disconnected => CloseOnward(s, s.events[1..]);
    }
  }

  lemma {:induction false} DispatchesOnward(s: State, n: nat)
    ensures var t := Dispatches(s, n); Onward(s, t) && t.written == s.written && t.out == s.out && t.ticks == s.ticks
    decreases n
  {
    hide DispatchStep;
    if n > 0 {
      DispatchOnward(s);
      DispatchesOnward(DispatchStep(s), n - 1);
    }
  }

  lemma QueueOnward(s: State, ticks: seq<Tick>, fired: multiset<Fire>, heard: multiset<nat>)
    ensures var t := s.(ticks := ticks, fired := fired, heard := heard);
            Onward(s, t) && t.written == s.written && t.out == s.out && t.open == s.open
  {
  }

  lemma TickOnward(s: State)
    requires s.ticks != []
    ensures var t := TickStep(s);
            Onward(s, t) && t.written == s.written && t.out == s.out && t.open == s.open && t.ticks == s.ticks[1..]
  {
    hide Ran, Called, Onward;
    match s.ticks[0]
    case RefusalTick(n) => QueueOnward(s, s.ticks[1..], Ran(s.fired, Refusal(n)), s.heard);
    case ListenerTick(listeners) => QueueOnward(s, s.ticks[1..], s.fired, Called(s.heard, listeners));
  }

  lemma {:induction false} TicksOnward(s: State)
    requires Inv(s)
    ensures var t := Ticks(s, |s.ticks|);
            Inv(t) && t.ticks == [] && Onward(s, t) && t.written == s.written && t.out == s.out && t.open == s.open
    decreases |s.ticks|
  {
    hide Inv, TickStep;
    if s.ticks != [] {
      TickKeeps(s);
      TickOnward(s);
      TicksOnward(TickStep(s));
    }
  }

  lemma LastTaken(s: State)
    requires Inv(s) && s.alive && s.commands == [Disconnect]
    ensures s.written == s.submitted && AllSized(s.submitted) && s.out == Frames(s.submitted) && !s.silent
    ensures var t := TakeStep(s, WHOLE); t.written == s.written && t.out == s.out
  {
    hide CallbacksConserved, RefusalsConserved, ListenersConserved, Honest, Numbered, Incoming, Exiting, Frames;
    assert Payloads([Disconnect][1..]) == [];
    assert s.written + [] == s.written;
  }

  /** A worker whose queue ends with a disconnect writes every accepted payload before it ends. */
  lemma {:induction false} TakesEverything(s: State, sends: seq<Command>)
    requires Inv(s) && s.alive && s.commands == sends + [Disconnect] && OnlySends(sends) && QueueSized(s)
    ensures var t := Takes(s, |s.commands|);
            Inv(t) && !t.alive && !t.silent && Onward(s, t)
            && t.written == s.submitted && AllSized(s.submitted) && t.out == Frames(s.submitted)
    decreases |sends|
  {
    hide Inv, TakeStep, Frames, QueueSized;
    var t := TakeStep(s, WHOLE);
    TakeKeeps(s, WHOLE);
    TakeOnward(s);
    if sends == [] {
      assert s.commands == [Disconnect];
      LastTaken(s);
      assert Takes(t, 0) == t;
    } else {
      assert s.commands[1..] == sends[1..] + [Disconnect];
      TakesEverything(t, sends[1..]);
    }
  }

  lemma ConnectedWorker(s: State)
    requires Inv(s) && s.connected && s.alive
    ensures s.sender && s.hears && OnlySends(s.commands)
  {
    hide CallbacksConserved, RefusalsConserved, ListenersConserved, Honest, Outgoing, Incoming, Exiting;
  }

  lemma RegisteredNumber(s: State, id: nat)
    requires Inv(s) && s.connected && id in s.registered
    ensures 1 <= id <= |s.submitted|
  {
    hide Lifecycle, RefusalsConserved, ListenersConserved, Honest, Outgoing, Incoming, Exiting;
  }

  /** A local disconnect on a working connection: when the worker has taken what is queued and the main
      thread has dispatched every event and run every tick, all accepted payloads have been written
      in order, the channel is closed, every callback has run, with success for every accepted send,
      and every disconnect listener has been called. */
  lemma DisconnectDelivers(s: State)
    requires Reachable(s) && s.connected && s.alive && QueueSized(s)
    ensures var left := DisconnectStep(s);
            var taken := Takes(left, |left.commands|);
            var heard := Dispatches(taken, |taken.events|);
            var t := Ticks(heard, |heard.ticks|);
            && !t.open && t.written == s.submitted && AllSized(s.submitted) && t.out == Frames(s.submitted)
            && (forall id :: id in s.registered ==> t.fired[Callback(id, true)] == 1)
            && (forall n :: 0 <= n < s.refused ==> t.fired[Refusal(n)] == 1)
            && (forall l :: 0 <= l < s.listened ==> t.heard[l] == 1)
  {
    hide Inv, DisconnectStep, Takes, Dispatches, Ticks, Frames, Reachable, QueueSized;
    ReachableKeeps(s);
    ConnectedWorker(s);
    DisconnectOnward(s);
    DisconnectKeeps(s);
    var left := DisconnectStep(s);
    DisconnectSized(s);
    TakesEverything(left, s.commands);
    var taken := Takes(left, |left.commands|);
    DispatchesClose(taken);
    DispatchesOnward(taken, |taken.events|);
    var heard := Dispatches(taken, |taken.events|);
    TicksOnward(heard);
    var t := Ticks(heard, |heard.ticks|);
    forall id | id in s.registered ensures t.fired[Callback(id, true)] == 1 {
      RegisteredNumber(s, id);
      CallbacksSettled(t, id, 0);
    }
    forall n: nat | n < s.refused ensures t.fired[Refusal(n)] == 1 {
      CallbacksSettled(t, 0, n);
    }
    forall l: nat | l < s.listened ensures t.heard[l] == 1 {
      ListenersSettled(t, l);
    }
  }

  lemma DisconnectSized(s: State)
    requires QueueSized(s)
    ensures QueueSized(DisconnectStep(s))
  {
    hide Announced;
  }

  // ---- the order of ticks ----

  ghost predicate AllHeard(heard: multiset<nat>, listeners: seq<nat>) {
    forall l :: l in listeners ==> heard[l] > 0
  }

  predicate OnlyBefore(ticks: seq<Tick>, refused: nat) {
    forall i :: 0 <= i < |ticks| && ticks[i].RefusalTick? ==> ticks[i].n < refused
  }

  /** The listeners wait at i, and no send refused later than the first `refused` is before them. */
  ghost predicate WaitsAt(ticks: seq<Tick>, listeners: seq<nat>, refused: nat, i: int) {
    0 <= i < |ticks| && ticks[i] == ListenerTick(listeners) && OnlyBefore(ticks[..i], refused)
  }

  ghost predicate Ahead(ticks: seq<Tick>, heard: multiset<nat>, fired: multiset<Fire>, listeners: seq<nat>, refused: nat) {
    || AllHeard(heard, listeners)
    || ((exists i :: WaitsAt(ticks, listeners, refused, i)) && forall n: nat :: n >= refused ==> fired[Refusal(n)] == 0)
  }

  lemma TickAhead(ticks: seq<Tick>, heard: multiset<nat>, fired: multiset<Fire>, listeners: seq<nat>, refused: nat)
    requires Ahead(ticks, heard, fired, listeners, refused) && ticks != []
    ensures ticks[0].RefusalTick? ==> Ahead(ticks[1..], heard, Ran(fired, Refusal(ticks[0].n)), listeners, refused)
    ensures ticks[0].ListenerTick? ==> Ahead(ticks[1..], Called(heard, ticks[0].listeners), fired, listeners, refused)
  {
    if !AllHeard(heard, listeners) {
      var i :| WaitsAt(ticks, listeners, refused, i);
      if i > 0 {
        assert ticks[..i][0] == ticks[0] && ticks[1..][..i - 1] == ticks[..i][1..];
        assert WaitsAt(ticks[1..], listeners, refused, i - 1);
      }
    }
  }

  lemma GrowAhead(s: State, t: State, listeners: seq<nat>, refused: nat)
    requires Ahead(s.ticks, s.heard, s.fired, listeners, refused) && Grows(s, t)
    ensures Ahead(t.ticks, t.heard, t.fired, listeners, refused)
  {
    if !AllHeard(s.heard, listeners) {
      var i :| WaitsAt(s.ticks, listeners, refused, i);
      assert t.ticks[..i] == s.ticks[..i];
      assert WaitsAt(t.ticks, listeners, refused, i);
    }
  }

  lemma StepAhead(s: State, a: Action, listeners: seq<nat>, refused: nat)
    requires Ahead(s.ticks, s.heard, s.fired, listeners, refused)
    ensures var t := Apply(s, a); Ahead(t.ticks, t.heard, t.fired, listeners, refused)
  {
    hide DispatchStep, TakeStep, ReadStep, DisconnectStep, StopStep, HangStep, SendStep, ListenStep, PollStep, Ahead, Ran, Called, Grows;
    if a.DoTick? {
      if s.ticks != [] { TickAhead(s.ticks, s.heard, s.fired, listeners, refused); }
    } else {
      StepBooks(s, a);
      GrowAhead(s, Apply(s, a), listeners, refused);
    }
  }

  lemma {:induction false} RunAhead(s: State, later: seq<Action>, listeners: seq<nat>, refused: nat)
    requires Ahead(s.ticks, s.heard, s.fired, listeners, refused)
    ensures var t := Run(s, later); Ahead(t.ticks, t.heard, t.fired, listeners, refused)
    decreases |later|
  {
    hide Apply, Ahead;
    if later != [] {
      RunAhead(s, later[..|later| - 1], listeners, refused);
      StepAhead(Run(s, later[..|later| - 1]), later[|later| - 1], listeners, refused);
    }
  }

  lemma {:induction false} TickCounted(ticks: seq<Tick>, i: nat)
    requires i < |ticks| && ticks[i].RefusalTick?
    ensures TickCount(ticks, ticks[i].n) > 0
    decreases i
  {
    if i > 0 { TickCounted(ticks[1..], i - 1); }
  }

  lemma RefusedBefore(s: State)
    requires Inv(s)
    ensures OnlyBefore(s.ticks, s.refused) && forall n: nat :: n >= s.refused ==> s.fired[Refusal(n)] == 0
  {
    hide Lifecycle, CallbacksConserved, ListenersConserved, Honest, Numbered, Outgoing, Incoming, Exiting;
    forall i | 0 <= i < |s.ticks| && s.ticks[i].RefusalTick? ensures s.ticks[i].n < s.refused {
      TickCounted(s.ticks, i);
    }
  }

  lemma DisconnectAhead(s: State)
    requires Inv(s) && s.connected
    ensures var t := DisconnectStep(s); Ahead(t.ticks, t.heard, t.fired, s.listeners, s.refused)
  {
    hide Inv, Queued;
    RefusedBefore(s);
    var t := DisconnectStep(s);
    if s.listeners != [] {
      assert t.ticks[..|s.ticks|] == s.ticks;
      assert WaitsAt(t.ticks, s.listeners, s.refused, |s.ticks|);
    }
  }

  /** The listeners that a local disconnect calls have been called before the callback of any send that
      was refused after it, whatever happens in between. */
  lemma DisconnectIsHeardFirst(s: State, later: seq<Action>, n: nat, l: nat)
    requires Reachable(s) && s.connected && n >= s.refused && l in s.listeners
    ensures var t := Run(DisconnectStep(s), later); t.fired[Refusal(n)] > 0 ==> t.heard[l] > 0
  {
    hide Inv, DisconnectStep, Run, Reachable;
    ReachableKeeps(s);
    DisconnectAhead(s);
    RunAhead(DisconnectStep(s), later, s.listeners, s.refused);
  }

  // ---- the child's exit ----

  /** What has been reported of a child that did or did not start. */
  ghost predicate Told(started: bool, c: Child) {
    && (started ==> !c.spawnError && NotStarted !in c.exits)
    && (!started ==> !c.process && !c.pendingExit && c.exits == if c.spawnError then [] else [NotStarted])
  }

  function Polls(run: seq<Action>): nat {
    if run == [] then 0 else Polls(run[..|run| - 1]) + B(run[|run| - 1].DoPoll?)
  }

  function PollErrors(run: seq<Action>): nat {
    if run == [] then 0 else PollErrors(run[..|run| - 1]) + B(run[|run| - 1] == DoPoll(WaitError))
  }

  /** A child that could not be started is reported so by the first poll and never again, and no other
      exit is reported of it; a child that was started is never reported as not started, and its exit is
      reported as unknown only after a poll that failed. */
  lemma {:induction false} StartIsTold(spawned: bool, started: bool, run: seq<Action>)
    ensures var c := Run(New(spawned, started), run).child;
            Told(started, c) && (!started ==> (c.spawnError <==> Polls(run) == 0))
            && (Unknown in c.exits ==> PollErrors(run) > 0)
    decreases |run|
  {
    hide Apply;
    if run != [] {
      StartIsTold(spawned, started, run[..|run| - 1]);
      StepBooks(Run(New(spawned, started), run[..|run| - 1]), run[|run| - 1]);
      PollTells(spawned, started, run[..|run| - 1]);
    }
  }

  lemma PollTells(spawned: bool, started: bool, run: seq<Action>)
    requires Told(started, Run(New(spawned, started), run).child)
    ensures forall open, wait :: Told(started, Polled(Run(New(spawned, started), run).child, open, wait))
    ensures forall open, wait :: Unknown in Polled(Run(New(spawned, started), run).child, open, wait).exits
                                 ==> wait == WaitError || Unknown in Run(New(spawned, started), run).child.exits
    ensures forall open, wait :: !started ==> !Polled(Run(New(spawned, started), run).child, open, wait).spawnError
  {
    hide Run;
    RunKeeps(spawned, started, run);
    ExitsOnce(Run(New(spawned, started), run));
  }

  lemma ExitsOnce(s: State)
    requires Inv(s)
    ensures Exiting(s.open, s.child)
  {
    hide Lifecycle, CallbacksConserved, RefusalsConserved, ListenersConserved, Honest, Numbered, Outgoing, Incoming;
  }
}
