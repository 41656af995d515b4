/** The fork channel as a transition system: the main-thread object, the worker thread, the two
    channels between them, the next-tick queue, and the child whose exit waits for the channel.
    A run is any sequence of steps, so all interleavings are covered. */
module ChildIpc {
  import opened Bytes
  import opened IpcFraming

  datatype Command = Send(id: nat, payload: Payload) | Disconnect

  datatype Event = Sent(id: nat, ok: bool) | Message(payload: Payload) | Disconnected

  /** A callback that ran: of send number id, or of the n-th send refused outright. */
  datatype Fire = Callback(id: nat, ok: bool) | Refusal(n: nat)

  datatype Tick = RefusalTick(n: nat) | ListenerTick(listeners: seq<nat>)

  /** What `try_wait` says about the child. */
  datatype Wait = StillRunning | Exited | WaitError

  datatype Exit = Normal | Unknown | NotStarted

  /** The child process, and what has been reported of its exit. */
  datatype Child = Child(process: bool, spawnError: bool, pendingExit: bool, settled: bool, exits: seq<Exit>)

  datatype State = State(
    // the channel object
    connected: bool, open: bool, sender: bool, nextId: nat, callbacks: set<nat>, listeners: seq<nat>,
    // the worker, its socket and the channels; a worker that ends lets go of its end of the command
    // channel (`hears`) a moment later
    alive: bool, hears: bool, commands: seq<Command>, events: seq<Event>, incoming: seq<Octet>, out: seq<Octet>,
    // the child and the next-tick queue
    child: Child, ticks: seq<Tick>,
    // history
    submitted: seq<Payload>, written: seq<Payload>, silent: bool,
    read: seq<Octet>, framed: seq<Payload>, dispatched: seq<Payload>,
    registered: set<nat>, refused: nat, fired: multiset<Fire>,
    listened: nat, heard: multiset<nat>)

  /** A new channel; its thread may have failed to start, and so may the child. */
  function New(spawned: bool, started: bool): State {
    State(true, true, true, 1, {}, [],
          spawned, spawned, [], [], [], [],
          Child(started, !started, false, false, []), [],
          [], [], !spawned, [], [], [], {}, 0, multiset{}, 0, multiset{})
  }

  // ---- main thread ----

  function Registered(s: State, callback: bool): State {
    if callback then s.(callbacks := s.callbacks + {s.nextId}, registered := s.registered + {s.nextId}) else s
  }

  function SendStep(s: State, payload: Payload, callback: bool): (t: State)
    ensures t.silent == s.silent
    ensures t.commands == s.commands || t.commands == Queued(s, Send(s.nextId, payload))
  {
    if !s.connected then
      if callback then s.(ticks := s.ticks + [RefusalTick(s.refused)], refused := s.refused + 1) else s
    else
      Registered(s, callback).(
        nextId := s.nextId + 1,
        connected := s.sender && s.hears,
        commands := Queued(s, Send(s.nextId, payload)),
        submitted := if s.sender && s.hears then s.submitted + [payload] else s.submitted)
  }

  function Queued(s: State, command: Command): seq<Command> {
    if s.sender && s.hears then s.commands + [command] else s.commands
  }

  function Announced(s: State): seq<Tick> {
    if s.listeners == [] then s.ticks else s.ticks + [ListenerTick(s.listeners)]
  }

  /** A local disconnect refuses further sends at once; the channel itself still drains. */
  function DisconnectStep(s: State): (t: State)
    ensures t.silent == s.silent && (t.commands == s.commands || t.commands == Queued(s, Disconnect))
  {
    if !s.connected then s
    else s.(connected := false, commands := Queued(s, Disconnect), listeners := [], ticks := Announced(s))
  }

  function ListenStep(s: State): (t: State)
    ensures t.silent == s.silent && t.commands == s.commands
  {
    s.(listeners := s.listeners + [s.listened], listened := s.listened + 1)
  }

  /** One more callback has run. */
  function Ran(fired: multiset<Fire>, fire: Fire): multiset<Fire> {
    fired + multiset{fire}
  }

  /** The listeners have been called. */
  function Called(heard: multiset<nat>, listeners: seq<nat>): multiset<nat> {
    heard + multiset(listeners)
  }

  function RanAll(fired: multiset<Fire>, ids: set<nat>): multiset<Fire> {
    fired + AllFailed(ids)
  }

  function AllFailed(ids: set<nat>): multiset<Fire> {
    multiset(set id | id in ids :: Callback(id, false))
  }

  function Settle(s: State, id: nat, ok: bool, rest: seq<Event>): State {
    if id in s.callbacks
    then s.(events := rest, callbacks := s.callbacks - {id}, fired := Ran(s.fired, Callback(id, ok)))
    else s.(events := rest)
  }

  function Close(s: State, rest: seq<Event>): State {
    if !s.open then s.(events := rest)
    else
      s.(events := rest, connected := false, open := false, sender := false,
         callbacks := {}, fired := RanAll(s.fired, s.callbacks),
         listeners := [], heard := Called(s.heard, s.listeners))
  }

  function DispatchStep(s: State): State {
    if s.events == [] then s
    else
      var rest := s.events[1..];
      match s.events[0]
      case Sent(id, ok) => Settle(s, id, ok, rest)
      case Message(payload) => s.(events := rest, dispatched := s.dispatched + [payload])
      case Disconnected => Close(s, rest)
  }

  function TickStep(s: State): (t: State)
    ensures t.silent == s.silent && t.commands == s.commands
  {
    if s.ticks == [] then s
    else
      match s.ticks[0]
      case RefusalTick(n) => s.(ticks := s.ticks[1..], fired := Ran(s.fired, Refusal(n)))
      case ListenerTick(listeners) => s.(ticks := s.ticks[1..], heard := Called(s.heard, listeners))
  }

  /** The child is polled until its exit is delivered; a reaped child waits for its channel. */
  function Polled(c: Child, open: bool, wait: Wait): Child {
    if c.settled then c
    else if c.pendingExit then
      if open then c else c.(pendingExit := false, settled := true, exits := c.exits + [Normal])
    else if c.spawnError then c.(spawnError := false, settled := true, exits := c.exits + [NotStarted])
    else if !c.process then c
    else
      match wait
      case StillRunning => c
      case WaitError => c.(process := false, settled := true, exits := c.exits + [Unknown])
      case Exited =>
        if open then c.(process := false, pendingExit := true)
        else c.(process := false, settled := true, exits := c.exits + [Normal])
  }

  function PollStep(s: State, wait: Wait): (t: State)
    ensures t.silent == s.silent && t.commands == s.commands
  {
    s.(child := Polled(s.child, s.open, wait))
  }

  // ---- the worker ----

  /** The worker's next command is a payload that no header can announce. */
  predicate Unframable(s: State) {
    s.alive && s.commands != [] && s.commands[0].Send? && !Sized(s.commands[0].payload)
  }

  /** The next command. A send writes its frame, or n bytes of it before an error; a payload too
      long for the header ends the thread without a word. */
  function TakeStep(s: State, n: nat): (t: State)
    ensures t.silent <==> s.silent || Unframable(s)
    ensures t.commands == s.commands || (s.commands != [] && t.commands == s.commands[1..])
  {
    if !s.alive || s.commands == [] then s
    else
      match s.commands[0]
      case Disconnect => s.(alive := false, commands := s.commands[1..], events := s.events + [Disconnected])
      case Send(id, payload) =>
        if !Sized(payload) then s.(alive := false, commands := s.commands[1..], silent := true)
        else if n >= |Frame(payload)| then
          s.(commands := s.commands[1..], out := s.out + Frame(payload), written := s.written + [payload],
             events := s.events + [Sent(id, true)])
        else
          s.(alive := false, commands := s.commands[1..], out := s.out + Frame(payload)[..n],
             events := s.events + [Sent(id, false), Disconnected])
  }

  function Messages(payloads: seq<Payload>): seq<Event> {
    seq(|payloads|, i requires 0 <= i < |payloads| => Message(payloads[i]))
  }

  function ReadStep(s: State, chunk: seq<Octet>): (t: State)
    ensures t.silent == s.silent && t.commands == s.commands
  {
    if !s.alive then s
    else
      var parsed := Parse(s.incoming + chunk);
      s.(incoming := parsed.rest, read := s.read + chunk,
         framed := s.framed + parsed.payloads, events := s.events + Messages(parsed.payloads))
  }

  /** End of stream, a read error, or a failure before the connection stood. */
  function StopStep(s: State): (t: State)
    ensures t.silent == s.silent && t.commands == s.commands
  {
    if !s.alive then s else s.(alive := false, events := s.events + [Disconnected])
  }

  function HangStep(s: State): (t: State)
    ensures t.silent == s.silent && (t.commands == s.commands || t.commands == [])
  {
    if s.alive || !s.hears then s else s.(hears := false, commands := [])
  }

  // ---- runs ----

  datatype Action =
    | DoSend(payload: Payload, callback: bool) | DoDisconnect | DoListen | DoDispatch | DoTick | DoPoll(wait: Wait)
    | Take(n: nat) | Read(chunk: seq<Octet>) | Halt | Hang

  function Apply(s: State, a: Action): State {
    match a
    case DoSend(payload, callback) => SendStep(s, payload, callback)
    case DoDisconnect => DisconnectStep(s)
    case DoListen => ListenStep(s)
    case DoDispatch => DispatchStep(s)
    case DoTick => TickStep(s)
    case DoPoll(wait) => PollStep(s, wait)
    case Take(n) => TakeStep(s, n)
    case Read(chunk) => ReadStep(s, chunk)
    case Halt => StopStep(s)
    case Hang => HangStep(s)
  }

  function Run(start: State, run: seq<Action>): State {
    if run == [] then start else Apply(Run(start, run[..|run| - 1]), run[|run| - 1])
  }

  // ---- what holds in every state ----

  /** The two flags, and the one closing event a worker that ended properly leaves behind. */
  ghost predicate Lifecycle(connected: bool, open: bool, sender: bool, callbacks: set<nat>,
                            alive: bool, hears: bool, commands: seq<Command>, events: seq<Event>, silent: bool)
  {
    && (connected ==> open) && (open <==> sender)
    && (!open ==> !alive && events == [] && callbacks == {})
    && (alive ==> hears) && (!hears ==> commands == [])
    && ClosesLast(events, alive)
    && (open && !alive && !silent ==> events != [] && events[|events| - 1] == Disconnected)
    && (silent ==> !alive && open && Disconnected !in events)
  }

  ghost predicate ClosesLast(events: seq<Event>, alive: bool) {
    forall i :: 0 <= i < |events| && events[i] == Disconnected ==> i == |events| - 1 && !alive
  }

  function B(b: bool): nat { if b then 1 else 0 }

  function TickCount(ticks: seq<Tick>, n: nat): nat {
    if ticks == [] then 0 else B(ticks[0] == RefusalTick(n)) + TickCount(ticks[1..], n)
  }

  function HeldListeners(ticks: seq<Tick>): multiset<nat> {
    if ticks == [] then multiset{}
    else (if ticks[0].ListenerTick? then multiset(ticks[0].listeners) else multiset{}) + HeldListeners(ticks[1..])
  }

  /** A registered send callback is either waiting or has run, once. */
  ghost predicate CallbacksConserved(fired: multiset<Fire>, callbacks: set<nat>, registered: set<nat>, nextId: nat) {
    && (forall id :: fired[Callback(id, true)] + fired[Callback(id, false)] + B(id in callbacks) == B(id in registered))
    && (forall id :: id in registered ==> 1 <= id < nextId)
  }

  /** The callback of a refused send is either queued for the next tick or has run, once. */
  ghost predicate RefusalsConserved(fired: multiset<Fire>, ticks: seq<Tick>, refused: nat) {
    forall n: nat :: fired[Refusal(n)] + TickCount(ticks, n) == B(n < refused)
  }

  /** A disconnect listener is registered, queued for the next tick, or has been called, once. */
  ghost predicate ListenersConserved(listeners: seq<nat>, ticks: seq<Tick>, heard: multiset<nat>, listened: nat) {
    forall l: nat :: multiset(listeners)[l] + HeldListeners(ticks)[l] + heard[l] == B(l < listened)
  }

  /** Success is reported for sends whose frame was written whole, failure for the others, and only
      once the worker has ended; and the success of a callback that still waits is on its way. */
  ghost predicate Honest(alive: bool, events: seq<Event>, callbacks: set<nat>, fired: multiset<Fire>, written: nat) {
    && (forall id: nat :: Sent(id, true) in events ==> 1 <= id <= written)
    && (forall id: nat :: fired[Callback(id, true)] > 0 ==> 1 <= id <= written)
    && (forall id: nat :: Sent(id, false) in events ==> !(1 <= id <= written) && !alive)
    && (forall id: nat :: fired[Callback(id, false)] > 0 ==> !(1 <= id <= written) && !alive)
    && (forall id :: id in callbacks && 1 <= id <= written ==> Sent(id, true) in events)
  }

  predicate Consecutive(commands: seq<Command>, first: nat) {
    commands != [] ==>
      if commands[0].Send? then commands[0].id == first && Consecutive(commands[1..], first + 1)
      else Consecutive(commands[1..], first)
  }

  predicate OnlySends(commands: seq<Command>) {
    forall i :: 0 <= i < |commands| ==> commands[i].Send?
  }

  /** Accepted sends are numbered from 1 on in order, and the worker takes them in that order. */
  ghost predicate Numbered(connected: bool, alive: bool, commands: seq<Command>, submitted: nat, written: nat, nextId: nat) {
    && written <= submitted < nextId
    && (connected ==> nextId == submitted + 1 && OnlySends(commands))
    && (alive ==> Consecutive(commands, written + 1) && submitted == written + |Payloads(commands)|)
  }

  function Payloads(commands: seq<Command>): seq<Payload> {
    if commands == [] then [] else (if commands[0].Send? then [commands[0].payload] else []) + Payloads(commands[1..])
  }

  ghost predicate AllSized(payloads: seq<Payload>) {
    forall i :: 0 <= i < |payloads| ==> Sized(payloads[i])
  }

  /** Whole frames of the accepted payloads in order, then perhaps part of the next one. */
  ghost predicate Outgoing(alive: bool, commands: seq<Command>, out: seq<Octet>,
                           submitted: seq<Payload>, written: seq<Payload>)
  {
    && AllSized(written)
    && (if alive then submitted == written + Payloads(commands) && out == Frames(written)
        else written <= submitted && Partial(out, submitted, written))
  }

  ghost predicate Partial(out: seq<Octet>, submitted: seq<Payload>, written: seq<Payload>)
    requires AllSized(written)
  {
    || out == Frames(written)
    || (|written| < |submitted| && Sized(submitted[|written|])
        && Frames(written) <= out <= Frames(written) + Frame(submitted[|written|]))
  }

  function MessagesIn(events: seq<Event>): seq<Payload> {
    if events == [] then [] else (if events[0].Message? then [events[0].payload] else []) + MessagesIn(events[1..])
  }

  /** The dispatched messages are the ones parsed from the bytes read, in order, up to those still
      in the event channel. */
  ghost predicate Incoming(read: seq<Octet>, incoming: seq<Octet>, framed: seq<Payload>,
                           dispatched: seq<Payload>, events: seq<Event>)
  {
    Parse(read) == Parsed(framed, incoming) && framed == dispatched + MessagesIn(events)
  }

  ghost predicate Exiting(open: bool, c: Child) {
    && (c.pendingExit ==> !c.process && !c.settled) && (c.spawnError ==> !c.process && !c.settled && !c.pendingExit)
    && (c.exits != [] <==> c.settled) && |c.exits| <= 1
    && (Normal in c.exits ==> !open)
  }

  ghost predicate Inv(s: State) {
    && Lifecycle(s.connected, s.open, s.sender, s.callbacks, s.alive, s.hears, s.commands, s.events, s.silent)
    && CallbacksConserved(s.fired, s.callbacks, s.registered, s.nextId)
    && RefusalsConserved(s.fired, s.ticks, s.refused)
    && ListenersConserved(s.listeners, s.ticks, s.heard, s.listened)
    && Honest(s.alive, s.events, s.callbacks, s.fired, |s.written|)
    && Numbered(s.connected, s.alive, s.commands, |s.submitted|, |s.written|, s.nextId)
    && Outgoing(s.alive, s.commands, s.out, s.submitted, s.written)
    && Incoming(s.read, s.incoming, s.framed, s.dispatched, s.events)
    && Exiting(s.open, s.child)
  }

  // ---- lists ----

  lemma {:induction false} TicksAppend(ticks: seq<Tick>, x: Tick)
    ensures forall n :: TickCount(ticks + [x], n) == TickCount(ticks, n) + B(x == RefusalTick(n))
    ensures HeldListeners(ticks + [x]) == HeldListeners(ticks) + if x.ListenerTick? then multiset(x.listeners) else multiset{}
    decreases |ticks|
  {
    if ticks == [] {
      assert (ticks + [x])[1..] == [];
    } else {
      TicksAppend(ticks[1..], x);
      assert (ticks + [x])[1..] == ticks[1..] + [x];
    }
  }

  lemma {:induction false} PayloadsAppend(c: seq<Command>, x: Command)
    ensures Payloads(c + [x]) == Payloads(c) + if x.Send? then [x.payload] else []
    decreases |c|
  {
    if c != [] {
      PayloadsAppend(c[1..], x);
      assert (c + [x])[1..] == c[1..] + [x];
    }
  }

  lemma {:induction false} ConsecutiveAppend(c: seq<Command>, x: Command, first: nat)
    requires Consecutive(c, first) && (x.Send? ==> x.id == first + |Payloads(c)|)
    ensures Consecutive(c + [x], first)
    decreases |c|
  {
    if c == [] {
      assert (c + [x])[1..] == [];
    } else {
      ConsecutiveAppend(c[1..], x, if c[0].Send? then first + 1 else first);
      assert (c + [x])[1..] == c[1..] + [x];
    }
  }

  lemma {:induction false} MessagesConcat(a: seq<Event>, b: seq<Event>)
    ensures MessagesIn(a + b) == MessagesIn(a) + MessagesIn(b)
    decreases |a|
  {
    if a == [] {
      assert a + b == b;
    } else {
      MessagesConcat(a[1..], b);
      assert (a + b)[1..] == a[1..] + b;
    }
  }

  lemma {:induction false} MessagesOfMessages(payloads: seq<Payload>)
    ensures MessagesIn(Messages(payloads)) == payloads
    decreases |payloads|
  {
    if payloads != [] {
      MessagesOfMessages(payloads[1..]);
      assert Messages(payloads)[1..] == Messages(payloads[1..]);
      assert payloads == [payloads[0]] + payloads[1..];
    }
  }

  lemma AllFailedCounts(ids: set<nat>)
    ensures forall id :: AllFailed(ids)[Callback(id, false)] == B(id in ids)
    ensures forall id :: AllFailed(ids)[Callback(id, true)] == 0
    ensures forall n :: AllFailed(ids)[Refusal(n)] == 0
  {
    var failed := set id | id in ids :: Callback(id, false);
    assert forall id :: Callback(id, false) in failed <==> id in ids;
  }

  // ---- every step keeps the invariant ----

  lemma SendKeeps(s: State, payload: Payload, callback: bool)
    requires Inv(s)
    ensures Inv(SendStep(s, payload, callback))
  {
    hide Lifecycle, CallbacksConserved, RefusalsConserved, ListenersConserved, Honest, Numbered, Outgoing, Incoming, Exiting, Registered;
    if s.connected {
      AcceptKeeps(s, payload, callback);
    } else if callback {
      TickQueued(s, RefusalTick(s.refused), s.listeners, s.refused + 1);
    }
  }

  lemma AcceptKeeps(s: State, payload: Payload, callback: bool)
    requires Inv(s) && s.connected
    ensures Inv(SendStep(s, payload, callback))
  {
    hide Lifecycle, CallbacksConserved, RefusalsConserved, ListenersConserved, Honest, Numbered, Outgoing, Incoming, Exiting;
    AcceptLifecycle(s, payload, callback);
    AcceptNumbered(s.connected, s.alive, s.commands, |s.submitted|, |s.written|, s.nextId, payload);
    AcceptCallbacks(s.fired, s.callbacks, s.registered, s.nextId);
    AcceptOutgoing(s.alive, s.commands, s.out, s.submitted, s.written, s.nextId, payload);
    AcceptHonest(s.alive, s.events, s.callbacks, s.fired, |s.written|, s.nextId);
  }

  lemma AcceptHonest(alive: bool, events: seq<Event>, callbacks: set<nat>, fired: multiset<Fire>, written: nat, nextId: nat)
    requires Honest(alive, events, callbacks, fired, written) && written < nextId
    ensures Honest(alive, events, callbacks + {nextId}, fired, written)
  {
  }

  lemma AcceptNumbered(connected: bool, alive: bool, commands: seq<Command>, submitted: nat, written: nat, nextId: nat,
                       payload: Payload)
    requires Numbered(connected, alive, commands, submitted, written, nextId) && connected
    ensures Numbered(true, alive, commands + [Send(nextId, payload)], submitted + 1, written, nextId + 1)
    ensures !alive ==> Numbered(false, alive, commands, submitted, written, nextId + 1)
    ensures written < nextId
  {
    PayloadsAppend(commands, Send(nextId, payload));
    if alive { ConsecutiveAppend(commands, Send(nextId, payload), written + 1); }
  }

  lemma AcceptLifecycle(s: State, payload: Payload, callback: bool)
    requires Lifecycle(s.connected, s.open, s.sender, s.callbacks, s.alive, s.hears, s.commands, s.events, s.silent) && s.connected
    ensures var t := SendStep(s, payload, callback);
            Lifecycle(t.connected, t.open, t.sender, t.callbacks, t.alive, t.hears, t.commands, t.events, t.silent)
  {
  }

  lemma AcceptCallbacks(fired: multiset<Fire>, callbacks: set<nat>, registered: set<nat>, nextId: nat)
    requires CallbacksConserved(fired, callbacks, registered, nextId) && nextId > 0
    ensures CallbacksConserved(fired, callbacks + {nextId}, registered + {nextId}, nextId + 1)
    ensures CallbacksConserved(fired, callbacks, registered, nextId + 1)
  {
  }

  lemma AcceptOutgoing(alive: bool, commands: seq<Command>, out: seq<Octet>, submitted: seq<Payload>, written: seq<Payload>,
                       id: nat, payload: Payload)
    requires Outgoing(alive, commands, out, submitted, written)
    ensures Outgoing(alive, commands + [Send(id, payload)], out, submitted + [payload], written)
  {
    hide Frames, Frame;
    PayloadsAppend(commands, Send(id, payload));
    assert |written| < |submitted| ==> (submitted + [payload])[|written|] == submitted[|written|];
  }

  lemma TickQueued(s: State, tick: Tick, listeners: seq<nat>, refused: nat)
    requires RefusalsConserved(s.fired, s.ticks, s.refused) && ListenersConserved(s.listeners, s.ticks, s.heard, s.listened)
    requires match tick
             case RefusalTick(n) => n == s.refused && refused == n + 1 && listeners == s.listeners
             case ListenerTick(taken) => taken == s.listeners && refused == s.refused && listeners == []
    ensures RefusalsConserved(s.fired, s.ticks + [tick], refused)
    ensures ListenersConserved(listeners, s.ticks + [tick], s.heard, s.listened)
  {
    TicksAppend(s.ticks, tick);
  }

  lemma DisconnectQueued(s: State)
    requires Outgoing(s.alive, s.commands, s.out, s.submitted, s.written)
    requires Numbered(s.connected, s.alive, s.commands, |s.submitted|, |s.written|, s.nextId)
    ensures Outgoing(s.alive, s.commands + [Disconnect], s.out, s.submitted, s.written)
    ensures Numbered(false, s.alive, s.commands + [Disconnect], |s.submitted|, |s.written|, s.nextId)
    ensures Numbered(false, s.alive, s.commands, |s.submitted|, |s.written|, s.nextId)
  {
    PayloadsAppend(s.commands, Disconnect);
    if s.alive { ConsecutiveAppend(s.commands, Disconnect, |s.written| + 1); }
    assert Payloads(s.commands) + [] == Payloads(s.commands);
  }

  lemma DisconnectKeeps(s: State)
    requires Inv(s)
    ensures Inv(DisconnectStep(s))
  {
    hide CallbacksConserved, RefusalsConserved, ListenersConserved, Honest, Numbered, Outgoing, Incoming, Exiting;
    TickQueued(s, ListenerTick(s.listeners), [], s.refused);
    DisconnectQueued(s);
  }

  lemma ListenKeeps(s: State)
    requires Inv(s)
    ensures Inv(ListenStep(s))
  {
    hide Lifecycle, CallbacksConserved, RefusalsConserved, Honest, Numbered, Outgoing, Incoming, Exiting;
    var t := ListenStep(s);
    assert multiset(t.listeners) == multiset(s.listeners) + multiset{s.listened};
    assert ListenersConserved(t.listeners, t.ticks, t.heard, t.listened);
  }

  lemma RefusalRuns(fired: multiset<Fire>, ticks: seq<Tick>, refused: nat)
    requires RefusalsConserved(fired, ticks, refused) && ticks != []
    ensures ticks[0].RefusalTick? ==> RefusalsConserved(Ran(fired, Refusal(ticks[0].n)), ticks[1..], refused)
    ensures ticks[0].ListenerTick? ==> RefusalsConserved(fired, ticks[1..], refused)
  {
    forall n: nat ensures TickCount(ticks, n) == B(ticks[0] == RefusalTick(n)) + TickCount(ticks[1..], n) {
    }
  }

  lemma ListenersRun(listeners: seq<nat>, ticks: seq<Tick>, heard: multiset<nat>, listened: nat)
    requires ListenersConserved(listeners, ticks, heard, listened) && ticks != []
    ensures ticks[0].RefusalTick? ==> ListenersConserved(listeners, ticks[1..], heard, listened)
    ensures ticks[0].ListenerTick? ==> ListenersConserved(listeners, ticks[1..], Called(heard, ticks[0].listeners), listened)
  {
  }

  /** Running one kind of callback leaves the books of the others alone. */
  lemma RefusalIsNoCallback(s: State, n: nat)
    requires CallbacksConserved(s.fired, s.callbacks, s.registered, s.nextId) && Honest(s.alive, s.events, s.callbacks, s.fired, |s.written|)
    ensures CallbacksConserved(Ran(s.fired, Refusal(n)), s.callbacks, s.registered, s.nextId)
    ensures Honest(s.alive, s.events, s.callbacks, Ran(s.fired, Refusal(n)), |s.written|)
  {
  }

  lemma RefusalTickKeeps(s: State)
    requires Inv(s) && s.ticks != [] && s.ticks[0].RefusalTick?
    ensures Inv(TickStep(s))
  {
    hide Lifecycle, CallbacksConserved, RefusalsConserved, ListenersConserved, Honest, Numbered, Outgoing, Incoming, Exiting;
    RefusalRuns(s.fired, s.ticks, s.refused);
    ListenersRun(s.listeners, s.ticks, s.heard, s.listened);
    RefusalIsNoCallback(s, s.ticks[0].n);
  }

  lemma ListenerTickKeeps(s: State)
    requires Inv(s) && s.ticks != [] && s.ticks[0].ListenerTick?
    ensures Inv(TickStep(s))
  {
    hide Lifecycle, CallbacksConserved, RefusalsConserved, ListenersConserved, Honest, Numbered, Outgoing, Incoming, Exiting;
    RefusalRuns(s.fired, s.ticks, s.refused);
    ListenersRun(s.listeners, s.ticks, s.heard, s.listened);
  }

  lemma TickKeeps(s: State)
    requires Inv(s)
    ensures Inv(TickStep(s))
  {
    hide Lifecycle, CallbacksConserved, RefusalsConserved, ListenersConserved, Honest, Numbered, Outgoing, Incoming, Exiting;
    if s.ticks != [] {
      if s.ticks[0].RefusalTick? { RefusalTickKeeps(s); } else { ListenerTickKeeps(s); }
    }
  }

  lemma PollKeeps(s: State, wait: Wait)
    requires Inv(s)
    ensures Inv(PollStep(s, wait))
  {
    hide Lifecycle, CallbacksConserved, RefusalsConserved, ListenersConserved, Honest, Numbered, Outgoing, Incoming, Exiting, Polled;
    PolledExits(s.child, s.open, wait);
  }

  lemma PolledExits(c: Child, open: bool, wait: Wait)
    requires Exiting(open, c)
    ensures Exiting(open, Polled(c, open, wait))
  {
  }

  lemma EventLeaves(s: State, rest: seq<Event>)
    requires Inv(s) && s.events != [] && rest == s.events[1..]
    ensures s.events[0] != Disconnected ==>
              Lifecycle(s.connected, s.open, s.sender, s.callbacks, s.alive, s.hears, s.commands, rest, s.silent)
    ensures s.events[0] == Disconnected ==> rest == [] && !s.alive
    ensures !s.events[0].Sent? || s.events[0].id !in s.callbacks ==> Honest(s.alive, rest, s.callbacks, s.fired, |s.written|)
    ensures MessagesIn(s.events) == (if s.events[0].Message? then [s.events[0].payload] else []) + MessagesIn(rest)
  {
    hide CallbacksConserved, RefusalsConserved, ListenersConserved, Numbered, Outgoing, Incoming, Exiting;
    assert forall i :: 0 <= i < |rest| ==> rest[i] == s.events[i + 1];
    assert s.events == [s.events[0]] + rest;
  }

  lemma CallbackRuns(fired: multiset<Fire>, callbacks: set<nat>, registered: set<nat>, nextId: nat,
                     ticks: seq<Tick>, refused: nat, id: nat, ok: bool)
    requires CallbacksConserved(fired, callbacks, registered, nextId) && RefusalsConserved(fired, ticks, refused)
    requires id in callbacks
    ensures CallbacksConserved(Ran(fired, Callback(id, ok)), callbacks - {id}, registered, nextId)
    ensures RefusalsConserved(Ran(fired, Callback(id, ok)), ticks, refused)
  {
    hide TickCount;
  }

  lemma ReportHonest(alive: bool, events: seq<Event>, callbacks: set<nat>, fired: multiset<Fire>, written: nat, id: nat, ok: bool)
    requires Honest(alive, events, callbacks, fired, written) && events != [] && events[0] == Sent(id, ok)
    ensures Honest(alive, events[1..], callbacks - {id}, Ran(fired, Callback(id, ok)), written)
  {
    assert events == [Sent(id, ok)] + events[1..];
  }

  lemma CallbackLeaves(s: State, rest: seq<Event>, id: nat)
    requires Lifecycle(s.connected, s.open, s.sender, s.callbacks, s.alive, s.hears, s.commands, rest, s.silent)
    ensures Lifecycle(s.connected, s.open, s.sender, s.callbacks - {id}, s.alive, s.hears, s.commands, rest, s.silent)
  {
  }

  lemma SettleKeeps(s: State, id: nat, ok: bool, rest: seq<Event>)
    requires Inv(s) && s.events != [] && s.events[0] == Sent(id, ok) && rest == s.events[1..] && id in s.callbacks
    ensures Inv(s.(events := rest, callbacks := s.callbacks - {id}, fired := Ran(s.fired, Callback(id, ok))))
  {
    hide Lifecycle, CallbacksConserved, RefusalsConserved, ListenersConserved, Honest, Numbered, Outgoing, Incoming, Exiting, Ran;
    EventLeaves(s, rest);
    IncomingLeaves(s, rest);
    CallbackRuns(s.fired, s.callbacks, s.registered, s.nextId, s.ticks, s.refused, id, ok);
    ReportHonest(s.alive, s.events, s.callbacks, s.fired, |s.written|, id, ok);
    CallbackLeaves(s, rest, id);
  }

  lemma SentKeeps(s: State)
    requires Inv(s) && s.events != [] && s.events[0].Sent?
    ensures Inv(DispatchStep(s))
  {
    hide Lifecycle, CallbacksConserved, RefusalsConserved, ListenersConserved, Honest, Numbered, Outgoing, Incoming, Exiting, Ran;
    EventLeaves(s, s.events[1..]);
    IncomingLeaves(s, s.events[1..]);
    if s.events[0].id in s.callbacks {
      SettleKeeps(s, s.events[0].id, s.events[0].ok, s.events[1..]);
    }
  }

  lemma IncomingLeaves(s: State, rest: seq<Event>)
    requires Incoming(s.read, s.incoming, s.framed, s.dispatched, s.events)
    requires s.events != [] && rest == s.events[1..] && !s.events[0].Message?
    ensures Incoming(s.read, s.incoming, s.framed, s.dispatched, rest)
  {
    hide Parse;
    assert MessagesIn(s.events) == [] + MessagesIn(rest);
  }

  lemma MessageKeeps(s: State)
    requires Inv(s) && s.events != [] && s.events[0].Message?
    ensures Inv(DispatchStep(s))
  {
    hide Lifecycle, CallbacksConserved, RefusalsConserved, ListenersConserved, Honest, Numbered, Outgoing, Exiting, Parse;
    EventLeaves(s, s.events[1..]);
    var payload, later := s.events[0].payload, MessagesIn(s.events[1..]);
    assert s.dispatched + ([payload] + later) == (s.dispatched + [payload]) + later;
  }

  lemma DispatchKeeps(s: State)
    requires Inv(s)
    ensures Inv(DispatchStep(s))
  {
    if s.events != [] {
      match s.events[0]
      case Sent(_, _) => SentKeeps(s);
      case Message(_) => MessageKeeps(s);
      case Disconnected => EventLeaves(s, s.events[1..]); DisconnectedKeeps(s);
    }
  }

  /** The closing event fires what still waits and leaves nothing behind. */
  lemma DisconnectedKeeps(s: State)
    requires Inv(s) && s.events == [Disconnected] && s.open
    ensures Inv(DispatchStep(s))
  {
    hide CallbacksConserved, RefusalsConserved, ListenersConserved, Honest, Numbered, Outgoing, Parse, RanAll, Called;
    ClosedBooks(s.fired, s.callbacks, s.registered, s.nextId, s.ticks, s.refused, s.alive, s.events, |s.written|);
    ClosedListeners(s.listeners, s.ticks, s.heard, s.listened);
    ClosedNumbered(s.connected, s.alive, s.commands, |s.submitted|, |s.written|, s.nextId);
  }

  lemma ClosedNumbered(connected: bool, alive: bool, commands: seq<Command>, submitted: nat, written: nat, nextId: nat)
    requires Numbered(connected, alive, commands, submitted, written, nextId)
    ensures Numbered(false, alive, commands, submitted, written, nextId)
  {
  }

  lemma ClosedBooks(fired: multiset<Fire>, callbacks: set<nat>, registered: set<nat>, nextId: nat,
                    ticks: seq<Tick>, refused: nat, alive: bool, events: seq<Event>, written: nat)
    requires CallbacksConserved(fired, callbacks, registered, nextId) && RefusalsConserved(fired, ticks, refused)
    requires Honest(alive, events, callbacks, fired, written) && events == [Disconnected] && !alive
    ensures CallbacksConserved(RanAll(fired, callbacks), {}, registered, nextId)
    ensures RefusalsConserved(RanAll(fired, callbacks), ticks, refused)
    ensures Honest(alive, [], {}, RanAll(fired, callbacks), written)
  {
    hide TickCount, AllFailed;
    AllFailedCounts(callbacks);
  }

  lemma ClosedListeners(listeners: seq<nat>, ticks: seq<Tick>, heard: multiset<nat>, listened: nat)
    requires ListenersConserved(listeners, ticks, heard, listened)
    ensures ListenersConserved([], ticks, Called(heard, listeners), listened)
  {
    hide HeldListeners;
  }

  lemma PostKeeps(s: State, posted: seq<Event>, alive: bool)
    requires Inv(s) && s.alive && MessagesIn(posted) == []
    requires forall i :: 0 <= i < |posted| ==> posted[i] != Disconnected || (i == |posted| - 1 && !alive)
    ensures ClosesLast(s.events + posted, alive)
    ensures Incoming(s.read, s.incoming, s.framed, s.dispatched, s.events + posted)
  {
    hide CallbacksConserved, RefusalsConserved, ListenersConserved, Honest, Numbered, Outgoing, Exiting;
    MessagesConcat(s.events, posted);
    assert MessagesIn(s.events) + [] == MessagesIn(s.events);
  }

  lemma OutgoingTaken(commands: seq<Command>, out: seq<Octet>, submitted: seq<Payload>, written: seq<Payload>)
    requires Outgoing(true, commands, out, submitted, written) && commands != [] && commands[0].Send?
    ensures |written| < |submitted| && submitted[|written|] == commands[0].payload && written <= submitted
    ensures submitted == (written + [commands[0].payload]) + Payloads(commands[1..])
    ensures AllSized(written) && out == Frames(written)
  {
    hide Frames, AllSized, Payloads;
    PayloadsFirst(commands);
    Middle(submitted, written, commands[0].payload, Payloads(commands[1..]));
  }

  lemma PayloadsFirst(commands: seq<Command>)
    requires commands != [] && commands[0].Send?
    ensures Payloads(commands) == [commands[0].payload] + Payloads(commands[1..])
  {
  }

  lemma Middle(all: seq<Payload>, first: seq<Payload>, x: Payload, rest: seq<Payload>)
    requires all == first + ([x] + rest)
    ensures |first| < |all| && all[|first|] == x && first <= all && all == (first + [x]) + rest
  {
  }

  lemma OutgoingWritten(commands: seq<Command>, out: seq<Octet>, submitted: seq<Payload>, written: seq<Payload>)
    requires Outgoing(true, commands, out, submitted, written) && commands != [] && commands[0].Send? && Sized(commands[0].payload)
    ensures var payload := commands[0].payload;
            Outgoing(true, commands[1..], out + Frame(payload), submitted, written + [payload])
  {
    hide Frames, Frame, Payloads;
    OutgoingTaken(commands, out, submitted, written);
    FramesAppend(written, commands[0].payload);
  }

  lemma OutgoingBroken(commands: seq<Command>, out: seq<Octet>, submitted: seq<Payload>, written: seq<Payload>, n: nat)
    requires Outgoing(true, commands, out, submitted, written) && commands != [] && commands[0].Send?
    ensures Outgoing(false, commands[1..], out, submitted, written)
    ensures Sized(commands[0].payload) && n < |Frame(commands[0].payload)| ==>
              Outgoing(false, commands[1..], out + Frame(commands[0].payload)[..n], submitted, written)
  {
    hide Frames, Frame, Payloads;
    OutgoingTaken(commands, out, submitted, written);
  }

  lemma WrittenIsHonest(events: seq<Event>, callbacks: set<nat>, fired: multiset<Fire>, written: nat, id: nat)
    requires Honest(true, events, callbacks, fired, written) && id == written + 1
    ensures Honest(true, events + [Sent(id, true)], callbacks, fired, written + 1)
  {
  }

  lemma EndIsHonest(events: seq<Event>, callbacks: set<nat>, fired: multiset<Fire>, written: nat, id: nat)
    requires Honest(true, events, callbacks, fired, written)
    ensures id > written ==> Honest(false, events + [Sent(id, false), Disconnected], callbacks, fired, written)
    ensures Honest(false, events + [Disconnected], callbacks, fired, written)
    ensures Honest(false, events, callbacks, fired, written)
  {
  }

  lemma TakenNumbered(connected: bool, commands: seq<Command>, submitted: nat, written: nat, nextId: nat)
    requires Numbered(connected, true, commands, submitted, written, nextId) && commands != []
    ensures Numbered(connected, false, commands[1..], submitted, written, nextId)
    ensures commands[0].Send? ==> commands[0].id == written + 1 <= submitted
                                  && Numbered(connected, true, commands[1..], submitted, written + 1, nextId)
  {
  }

  /** What the worker's next event does to the lifecycle. */
  lemma LifecycleWritten(s: State, id: nat)
    requires Lifecycle(s.connected, s.open, s.sender, s.callbacks, s.alive, s.hears, s.commands, s.events, s.silent) && s.alive
    ensures Lifecycle(s.connected, s.open, s.sender, s.callbacks, true, s.hears, s.commands[if s.commands == [] then 0 else 1..],
                      s.events + [Sent(id, true)], s.silent)
  {
  }

  lemma LifecycleEnds(s: State, posted: seq<Event>, rest: seq<Command>)
    requires Lifecycle(s.connected, s.open, s.sender, s.callbacks, s.alive, s.hears, s.commands, s.events, s.silent) && s.alive
    requires posted == [Disconnected] || exists id :: posted == [Sent(id, false), Disconnected]
    ensures Lifecycle(s.connected, s.open, s.sender, s.callbacks, false, s.hears, rest, s.events + posted, s.silent)
  {
  }

  lemma LifecycleSilent(s: State, rest: seq<Command>)
    requires Lifecycle(s.connected, s.open, s.sender, s.callbacks, s.alive, s.hears, s.commands, s.events, s.silent) && s.alive
    ensures Lifecycle(s.connected, s.open, s.sender, s.callbacks, false, s.hears, rest, s.events, true)
  {
  }

  lemma SendWritten(s: State, id: nat, payload: Payload, n: nat)
    requires Inv(s) && s.alive && s.commands != [] && s.commands[0] == Send(id, payload) && Sized(payload)
    requires n >= |Frame(payload)|
    ensures Inv(TakeStep(s, n))
  {
    hide Lifecycle, CallbacksConserved, RefusalsConserved, ListenersConserved, Honest, Numbered, Outgoing, Incoming, Exiting, Frame;
    PostKeeps(s, [Sent(id, true)], true);
    LifecycleWritten(s, id);
    TakenNumbered(s.connected, s.commands, |s.submitted|, |s.written|, s.nextId);
    WrittenIsHonest(s.events, s.callbacks, s.fired, |s.written|, id);
    OutgoingWritten(s.commands, s.out, s.submitted, s.written);
  }

  lemma SendBroken(s: State, id: nat, payload: Payload, n: nat)
    requires Inv(s) && s.alive && s.commands != [] && s.commands[0] == Send(id, payload)
    requires !Sized(payload) || n < |Frame(payload)|
    ensures Inv(TakeStep(s, n))
  {
    hide Lifecycle, CallbacksConserved, RefusalsConserved, ListenersConserved, Honest, Numbered, Outgoing, Incoming, Exiting, Frame;
    TakenNumbered(s.connected, s.commands, |s.submitted|, |s.written|, s.nextId);
    OutgoingBroken(s.commands, s.out, s.submitted, s.written, n);
    EndIsHonest(s.events, s.callbacks, s.fired, |s.written|, id);
    if Sized(payload) {
      NoMessages(id);
      PostKeeps(s, [Sent(id, false), Disconnected], false);
      LifecycleEnds(s, [Sent(id, false), Disconnected], s.commands[1..]);
    } else {
      LifecycleSilent(s, s.commands[1..]);
    }
  }

  lemma NoMessages(id: nat)
    ensures MessagesIn([Sent(id, false), Disconnected]) == []
  {
    MessagesConcat([Sent(id, false)], [Disconnected]);
    assert [Sent(id, false)] + [Disconnected] == [Sent(id, false), Disconnected];
  }

  lemma TakeKeeps(s: State, n: nat)
    requires Inv(s)
    ensures Inv(TakeStep(s, n))
  {
    hide CallbacksConserved, RefusalsConserved, ListenersConserved, Honest, Numbered, Outgoing, Incoming, Exiting;
    if s.alive && s.commands != [] {
      match s.commands[0]
      case Disconnect => DisconnectTaken(s);
      case Send(id, payload) =>
        if Sized(payload) && n >= |Frame(payload)| { SendWritten(s, id, payload, n); } else { SendBroken(s, id, payload, n); }
    }
  }

  lemma MessagesPosted(s: State, payloads: seq<Payload>)
    requires Inv(s) && s.alive
    ensures Lifecycle(s.connected, s.open, s.sender, s.callbacks, s.alive, s.hears, s.commands, s.events + Messages(payloads), s.silent)
    ensures Honest(s.alive, s.events + Messages(payloads), s.callbacks, s.fired, |s.written|)
  {
    hide CallbacksConserved, RefusalsConserved, ListenersConserved, Outgoing, Incoming, Exiting;
  }

  lemma BytesParsed(s: State, chunk: seq<Octet>, parsed: Parsed)
    requires Incoming(s.read, s.incoming, s.framed, s.dispatched, s.events) && parsed == Parse(s.incoming + chunk)
    ensures Incoming(s.read + chunk, parsed.rest, s.framed + parsed.payloads, s.dispatched, s.events + Messages(parsed.payloads))
  {
    hide Parse, HasFrame, Messages;
    ParseResumes(s.read, chunk);
    MessagesConcat(s.events, Messages(parsed.payloads));
    MessagesOfMessages(parsed.payloads);
    assert (s.dispatched + MessagesIn(s.events)) + parsed.payloads == s.dispatched + (MessagesIn(s.events) + parsed.payloads);
  }

  lemma ReadKeeps(s: State, chunk: seq<Octet>)
    requires Inv(s)
    ensures Inv(ReadStep(s, chunk))
  {
    hide Lifecycle, CallbacksConserved, RefusalsConserved, ListenersConserved, Honest, Numbered, Outgoing, Incoming, Exiting, Parse;
    if s.alive {
      MessagesPosted(s, Parse(s.incoming + chunk).payloads);
      BytesParsed(s, chunk, Parse(s.incoming + chunk));
    }
  }

  lemma HaltKeeps(s: State)
    requires Inv(s)
    ensures Inv(StopStep(s))
  {
    hide CallbacksConserved, RefusalsConserved, ListenersConserved, Incoming;
    if s.alive {
      PostKeeps(s, [Disconnected], false);
      var t := StopStep(s);
      assert Outgoing(t.alive, t.commands, t.out, t.submitted, t.written);
      EndIsHonest(s.events, s.callbacks, s.fired, |s.written|, 0);
    }
  }

  lemma DisconnectTaken(s: State)
    requires Inv(s) && s.alive && s.commands != [] && s.commands[0] == Disconnect
    ensures Inv(TakeStep(s, 0)) && forall n :: TakeStep(s, n) == TakeStep(s, 0)
  {
    hide CallbacksConserved, RefusalsConserved, ListenersConserved, Honest, Numbered, Exiting, Parse, Frames;
    PostKeeps(s, [Disconnected], false);
    TakenNumbered(s.connected, s.commands, |s.submitted|, |s.written|, s.nextId);
    EndIsHonest(s.events, s.callbacks, s.fired, |s.written|, 0);
    assert Payloads(s.commands) == Payloads(s.commands[1..]);
  }

  lemma HangKeeps(s: State)
    requires Inv(s)
    ensures Inv(HangStep(s))
  {
    hide CallbacksConserved, RefusalsConserved, ListenersConserved, Honest, Incoming, Exiting;
  }

  lemma NewHolds(spawned: bool, started: bool)
    ensures Inv(New(spawned, started))
  {
  }

  lemma ApplyKeeps(s: State, a: Action)
    requires Inv(s)
    ensures Inv(Apply(s, a))
  {
    hide Inv, SendStep, DisconnectStep, ListenStep, DispatchStep, TickStep, PollStep, TakeStep, ReadStep, StopStep, HangStep;
    match a
    case DoSend(payload, callback) => SendKeeps(s, payload, callback);
    case DoDisconnect => DisconnectKeeps(s);
    case DoListen => ListenKeeps(s);
    case DoDispatch => DispatchKeeps(s);
    case DoTick => TickKeeps(s);
    case DoPoll(wait) => PollKeeps(s, wait);
    case Take(n) => TakeKeeps(s, n);
    case Read(chunk) => ReadKeeps(s, chunk);
    case Halt => HaltKeeps(s);
    case Hang => HangKeeps(s);
  }

  /** The invariant holds after every run, whether or not the thread and the child started. */
  lemma {:induction false} RunKeeps(spawned: bool, started: bool, run: seq<Action>)
    ensures Inv(Run(New(spawned, started), run))
    decreases |run|
  {
    hide Inv, Apply, New;
    if run == [] {
      NewHolds(spawned, started);
    } else {
      RunKeeps(spawned, started, run[..|run| - 1]);
      ApplyKeeps(Run(New(spawned, started), run[..|run| - 1]), run[|run| - 1]);
    }
  }

  // ---- what every run guarantees ----

  ghost predicate Reachable(s: State) {
    exists spawned, started, run :: s == Run(New(spawned, started), run)
  }

  lemma ReachableKeeps(s: State)
    requires Reachable(s)
    ensures Inv(s)
  {
    hide Inv, New, Run;
    var spawned, started, run :| s == Run(New(spawned, started), run);
    RunKeeps(spawned, started, run);
  }

  /** The public flag never outlives the channel. */
  lemma ConnectedImpliesOpen(s: State)
    requires Reachable(s)
    ensures s.connected ==> s.open
  {
    ReachableKeeps(s);
  }

  /** Every callback passed to send runs at most once. Once the channel has closed, each callback of
      an accepted send has run: with success if the frame of that send was written whole, with an
      error if it was not. The callback of a refused send runs in the tick queue. */
  lemma CallbacksRunOnce(s: State, id: nat, n: nat)
    requires Reachable(s)
    ensures s.fired[Callback(id, true)] + s.fired[Callback(id, false)] <= B(id in s.registered)
    ensures s.fired[Callback(id, true)] > 0 ==> 1 <= id <= |s.written|
    ensures s.fired[Callback(id, false)] > 0 ==> id > |s.written| && !s.alive
    ensures !s.open && id in s.registered ==>
              s.fired[Callback(id, true)] == B(id <= |s.written|) && s.fired[Callback(id, false)] == B(id > |s.written|)
    ensures s.fired[Refusal(n)] <= B(n < s.refused)
    ensures s.ticks == [] ==> s.fired[Refusal(n)] == B(n < s.refused)
  {
    ReachableKeeps(s);
    CallbacksSettled(s, id, n);
  }

  lemma CallbacksSettled(s: State, id: nat, n: nat)
    requires Inv(s)
    ensures s.fired[Callback(id, true)] + s.fired[Callback(id, false)] <= B(id in s.registered)
    ensures s.fired[Callback(id, true)] > 0 ==> 1 <= id <= |s.written|
    ensures s.fired[Callback(id, false)] > 0 ==> id > |s.written| && !s.alive
    ensures !s.open && id in s.registered ==>
              s.fired[Callback(id, true)] == B(id <= |s.written|) && s.fired[Callback(id, false)] == B(id > |s.written|)
    ensures s.fired[Refusal(n)] <= B(n < s.refused)
    ensures s.ticks == [] ==> s.fired[Refusal(n)] == B(n < s.refused)
  {
    hide Outgoing, Incoming, Exiting, Numbered, ListenersConserved;
  }

  /** Every disconnect listener is called at most once; once the channel has closed and the tick
      queue has run, every listener registered before that has been called. */
  lemma ListenersCalledOnce(s: State, l: nat)
    requires Reachable(s)
    ensures s.heard[l] <= 1
    ensures l < s.listened && l !in s.listeners && s.ticks == [] ==> s.heard[l] == 1
  {
    ReachableKeeps(s);
    ListenersSettled(s, l);
  }

  lemma ListenersSettled(s: State, l: nat)
    requires Inv(s)
    ensures s.heard[l] <= 1
    ensures l < s.listened && l !in s.listeners && s.ticks == [] ==> s.heard[l] == 1
  {
    hide Outgoing, Incoming, Exiting, CallbacksConserved, RefusalsConserved, Honest, Numbered;
    assert multiset(s.listeners)[l] + HeldListeners(s.ticks)[l] + s.heard[l] == B(l < s.listened);
  }

  /** On the normal path an exit is delivered only when the channel has closed, and by then every
      message that arrived whole has been dispatched. */
  lemma ExitComesLast(s: State)
    requires Reachable(s) && Normal in s.child.exits
    ensures !s.open && s.events == [] && s.dispatched == s.framed
    ensures s.dispatched == Parse(s.read).payloads
  {
    ReachableKeeps(s);
    assert s.dispatched + [] == s.dispatched;
  }

  lemma OutputFramed(s: State) returns (framed: seq<Payload>)
    requires Inv(s)
    ensures AllSized(framed) && framed <= s.submitted && s.out <= Frames(framed)
  {
    if s.out == Frames(s.written) {
      framed := s.written;
    } else {
      framed := s.written + [s.submitted[|s.written|]];
      FramesAppend(s.written, s.submitted[|s.written|]);
    }
  }

  /** When one side reads a prefix of the other's output, wherever that broke off, it has dispatched
      an in-order prefix of the payloads the other sent, without gaps or repeats; and all of them
      once every byte has been read and every event dispatched. */
  lemma MessagesArriveInOrder(sender: State, receiver: State)
    requires Reachable(sender) && Reachable(receiver) && receiver.read <= sender.out
    ensures receiver.dispatched <= sender.submitted
    ensures AllSized(sender.submitted) && receiver.read == Frames(sender.submitted) && receiver.events == []
            ==> receiver.dispatched == sender.submitted
  {
    ReachableKeeps(sender);
    ReachableKeeps(receiver);
    hide Lifecycle, CallbacksConserved, RefusalsConserved, ListenersConserved, Honest, Numbered, Exiting, Parse;
    var framed := OutputFramed(sender);
    PrefixParses(framed, receiver.read);
    assert receiver.dispatched <= receiver.framed <= framed <= sender.submitted;
    if AllSized(sender.submitted) && receiver.read == Frames(sender.submitted) && receiver.events == [] {
      PrefixParses(sender.submitted, receiver.read);
      assert receiver.dispatched + [] == receiver.dispatched;
    }
  }

  // ---- when the channel closes ----

  predicate TakesOversized(s: State, a: Action) {
    a.Take? && Unframable(s)
  }

  predicate TakesOversizedAt(start: State, run: seq<Action>, i: int) {
    0 <= i < |run| && TakesOversized(Run(start, run[..i]), run[i])
  }

  ghost predicate SameElsewhere(s: State, t: State, rest: seq<Event>) {
    && t.silent == s.silent && t.commands == s.commands && t.alive == s.alive
    && t.child == s.child && t.events == rest
  }

  lemma SettledFrame(s: State, rest: seq<Event>, callbacks: set<nat>, fired: multiset<Fire>)
    ensures SameElsewhere(s, s.(events := rest, callbacks := callbacks, fired := fired), rest)
  {
  }

  lemma SettleFrame(s: State, id: nat, ok: bool, rest: seq<Event>)
    ensures SameElsewhere(s, Settle(s, id, ok, rest), rest)
  {
    hide Ran, SameElsewhere;
    if id in s.callbacks {
      SettledFrame(s, rest, s.callbacks - {id}, Ran(s.fired, Callback(id, ok)));
    } else {
      MessageFrame(s, rest, s.dispatched);
      assert s.(events := rest, dispatched := s.dispatched) == s.(events := rest);
    }
  }

  lemma CloseFrame(s: State, rest: seq<Event>)
    ensures SameElsewhere(s, Close(s, rest), rest)
  {
    hide RanAll, Called;
  }

  lemma MessageFrame(s: State, rest: seq<Event>, dispatched: seq<Payload>)
    ensures SameElsewhere(s, s.(events := rest, dispatched := dispatched), rest)
  {
  }

  lemma DispatchFrame(s: State)
    ensures SameElsewhere(s, DispatchStep(s), if s.events == [] then [] else s.events[1..])
  {
    hide Settle, Close, SameElsewhere;
    if s.events == [] {
      MessageFrame(s, [], s.dispatched);
      assert s.(events := [], dispatched := s.dispatched) == s;
    } else {
      var rest := s.events[1..];
      match s.events[0]
      case Sent(id, ok) => SettleFrame(s, id, ok, rest);
      case Message(payload) => MessageFrame(s, rest, s.dispatched + [payload]);
      case Disconnected => CloseFrame(s, rest);
    }
  }

  lemma StepSilent(s: State, a: Action)
    ensures Apply(s, a).silent <==> s.silent || TakesOversized(s, a)
  {
    hide SendStep, DisconnectStep, ListenStep, DispatchStep, TickStep, PollStep, TakeStep, ReadStep, StopStep, HangStep;
    if a.DoDispatch? { DispatchFrame(s); }
  }

  lemma TakesEarlier(start: State, run: seq<Action>, i: int)
    requires run != []
    ensures var init := run[..|run| - 1];
            (TakesOversizedAt(start, init, i) ==> TakesOversizedAt(start, run, i))
            && (TakesOversizedAt(start, run, i) ==> i == |run| - 1 || TakesOversizedAt(start, init, i))
  {
    hide Run, TakesOversized;
    if 0 <= i < |run| - 1 { assert run[..|run| - 1][..i] == run[..i]; }
  }

  lemma TakesLast(start: State, run: seq<Action>)
    requires run != []
    ensures Run(start, run) == Apply(Run(start, run[..|run| - 1]), run[|run| - 1])
    ensures TakesOversizedAt(start, run, |run| - 1) <==> TakesOversized(Run(start, run[..|run| - 1]), run[|run| - 1])
  {
    hide Apply, TakesOversized;
  }

  /** A worker ends without a word exactly if it never started or met an oversized payload. */
  lemma {:induction false} RunSilent(spawned: bool, started: bool, run: seq<Action>)
    ensures Run(New(spawned, started), run).silent
            <==> !spawned || exists i :: TakesOversizedAt(New(spawned, started), run, i)
    decreases |run|
  {
    if run == [] {
      NewSilent(spawned, started);
    } else {
      RunSilentStep(spawned, started, run);
    }
  }

  lemma NewSilent(spawned: bool, started: bool)
    ensures Run(New(spawned, started), []).silent <==> !spawned
    ensures forall i :: !TakesOversizedAt(New(spawned, started), [], i)
  {
  }

  lemma {:induction false} RunSilentStep(spawned: bool, started: bool, run: seq<Action>)
    requires run != []
    ensures Run(New(spawned, started), run).silent
            <==> !spawned || exists i :: TakesOversizedAt(New(spawned, started), run, i)
    decreases |run|, 0
  {
    hide Apply, Run, New, TakesOversized, TakesOversizedAt;
    var start, last := New(spawned, started), |run| - 1;
    var init := run[..last];
    RunSilent(spawned, started, init);
    TakesLast(start, run);
    StepSilent(Run(start, init), run[last]);
    forall i ensures TakesOversizedAt(start, init, i) ==> TakesOversizedAt(start, run, i)
             ensures TakesOversizedAt(start, run, i) ==> i == last || TakesOversizedAt(start, init, i)
    {
      TakesEarlier(start, run, i);
    }
  }

  predicate SendsSized(run: seq<Action>) {
    forall i :: 0 <= i < |run| && run[i].DoSend? ==> Sized(run[i].payload)
  }

  predicate QueueSized(s: State) {
    forall i :: 0 <= i < |s.commands| && s.commands[i].Send? ==> Sized(s.commands[i].payload)
  }

  lemma StepSized(s: State, a: Action)
    requires QueueSized(s) && (a.DoSend? ==> Sized(a.payload))
    ensures QueueSized(Apply(s, a))
  {
    hide SendStep, DisconnectStep, ListenStep, DispatchStep, TickStep, PollStep, TakeStep, ReadStep, StopStep, HangStep;
    if a.DoDispatch? { DispatchFrame(s); }
  }

  lemma {:induction false} RunSized(start: State, run: seq<Action>)
    requires QueueSized(start) && SendsSized(run)
    ensures QueueSized(Run(start, run))
    decreases |run|
  {
    hide Apply, QueueSized;
    if run != [] {
      RunSized(start, run[..|run| - 1]);
      StepSized(Run(start, run[..|run| - 1]), run[|run| - 1]);
    }
  }

  /** No worker meets an oversized payload that the program did not send. */
  lemma OversizedWasSent(spawned: bool, started: bool, run: seq<Action>, i: int)
    requires TakesOversizedAt(New(spawned, started), run, i)
    ensures !SendsSized(run)
  {
    hide Apply, Run;
    if SendsSized(run) {
      RunSized(New(spawned, started), run[..i]);
    }
  }

  /** A worker that is gone has left its closing event exactly if it had started and met no oversized
      payload. */
  lemma ClosingEventWaits(spawned: bool, started: bool, run: seq<Action>)
    requires var s := Run(New(spawned, started), run); s.open && !s.alive
    ensures var start := New(spawned, started);
            Disconnected in Run(start, run).events <==> spawned && !exists i :: TakesOversizedAt(start, run, i)
  {
    hide Apply, Run, New, TakesOversizedAt, Inv;
    RunKeeps(spawned, started, run);
    RunSilent(spawned, started, run);
    ClosingWaits(Run(New(spawned, started), run));
  }

  lemma ClosingWaits(s: State)
    requires Inv(s) && s.open && !s.alive
    ensures Disconnected in s.events <==> !s.silent
  {
    hide CallbacksConserved, RefusalsConserved, ListenersConserved, Honest, Numbered, Outgoing, Incoming, Exiting;
  }

  function Dispatches(s: State, n: nat): State
    decreases n
  {
    if n == 0 then s else Dispatches(DispatchStep(s), n - 1)
  }

  /** Once the worker is gone, delivering the events that wait closes the channel exactly unless the
      worker ended without a word. */
  lemma {:induction false} DispatchesClose(s: State)
    requires Inv(s) && !s.alive
    ensures var t := Dispatches(s, |s.events|);
            Inv(t) && (t.open <==> s.silent) && t.child == s.child
    decreases |s.events|
  {
    hide Inv, DispatchStep;
    DispatchKeeps(s);
    DispatchFrame(s);
    if s.events == [] {
      NothingWaits(s);
    } else {
      DispatchesClose(DispatchStep(s));
    }
  }

  lemma NothingWaits(s: State)
    requires Inv(s) && !s.alive && s.events == []
    ensures s.open <==> s.silent
  {
    hide CallbacksConserved, RefusalsConserved, ListenersConserved, Honest, Numbered, Outgoing, Incoming, Exiting;
  }

  /** The exit of a reaped child whose worker is gone is delivered, after the events that wait, exactly
      if the worker had started and met no oversized payload. */
  lemma ExitIsDelivered(spawned: bool, started: bool, run: seq<Action>, wait: Wait)
    requires var s := Run(New(spawned, started), run); s.child.pendingExit && !s.alive
    ensures var start := New(spawned, started);
            var s := Run(start, run);
            Normal in PollStep(Dispatches(s, |s.events|), wait).child.exits
            <==> spawned && !exists i :: TakesOversizedAt(start, run, i)
  {
    hide Apply, Run, New, TakesOversizedAt, Inv;
    RunKeeps(spawned, started, run);
    RunSilent(spawned, started, run);
    var s := Run(New(spawned, started), run);
    DispatchesClose(s);
    PendingPoll(s);
    PendingPoll(Dispatches(s, |s.events|));
  }

  lemma PendingPoll(s: State)
    requires Inv(s) && s.child.pendingExit
    ensures !s.child.settled && s.child.exits == []
  {
    hide Lifecycle, CallbacksConserved, RefusalsConserved, ListenersConserved, Honest, Numbered, Outgoing, Incoming;
  }

  /** An oversized payload can be sent: the main thread accepts it and the worker cannot frame it. */
  lemma OversizedSendSilences(payload: Payload)
    requires !Sized(payload)
    ensures Run(New(true, true), [DoSend(payload, false), Take(0)]).silent
  {
    var run := [DoSend(payload, false), Take(0)];
    assert run[..1] == [DoSend(payload, false)] && run[..1][..0] == [];
    assert Run(New(true, true), run[..1][..0]) == New(true, true);
    assert Run(New(true, true), run[..1]) == SendStep(New(true, true), payload, false);
  }

  /** From then on, whatever happens, the channel never closes and a reaped child's exit is never
      delivered; the same holds from the start if the worker did not start. */
  lemma {:induction false} SilentNeverCloses(spawned: bool, started: bool, run: seq<Action>, later: seq<Action>)
    requires !spawned || exists i :: TakesOversizedAt(New(spawned, started), run, i)
    ensures var s := Run(New(spawned, started), run + later);
            s.silent && s.open && Disconnected !in s.events && Normal !in s.child.exits
    decreases |later|
  {
    hide Inv, Apply, New, Run, TakesOversizedAt;
    var start := New(spawned, started);
    RunKeeps(spawned, started, run + later);
    if later == [] {
      assert run + later == run;
      RunSilent(spawned, started, run);
    } else {
      SilentNeverCloses(spawned, started, run, later[..|later| - 1]);
      assert (run + later)[..|run + later| - 1] == run + later[..|later| - 1];
      TakesLast(start, run + later);
      StepSilent(Run(start, run + later[..|later| - 1]), later[|later| - 1]);
    }
    SilentIsOpen(Run(start, run + later));
  }

  lemma SilentIsOpen(s: State)
    requires Inv(s) && s.silent
    ensures s.open && !s.alive && Disconnected !in s.events && Normal !in s.child.exits
  {
    hide CallbacksConserved, RefusalsConserved, ListenersConserved, Honest, Numbered, Outgoing, Incoming;
  }
}
