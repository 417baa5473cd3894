/**
 The event registry as a step system.

 Every access to shared memory is one action: reading the current channel (`er.ch`), a channel send or
 receive, taking the mutex, replacing the channel. A goroutine that has read `er.ch` keeps the channel
 it read, so sends and receives may go through a channel that has been replaced in the meantime.
 Channels are never forgotten: they are kept in creation order and named by their index.
 */
module EventRegistry {
  import opened Common

  type Handler = nat

  datatype Event = Event(name: string, payload: int)

  /** A buffered channel: its capacity and the events in it, oldest first. */
  datatype Channel = Channel(capacity: nat, buffer: seq<Event>) {
    predicate Full() {
      |buffer| >= capacity
    }
  }

  /** Where one call of PushEvent stands. */
  datatype Push =
    | Trying(ev: Event, ch: nat)  // has read er.ch, about to send without the lock
    | Waiting(ev: Event)          // the send did not succeed, waiting for the mutex
    | Retrying(ev: Event)         // holds the mutex, about to try again
    | Growing(ev: Event)          // holds the mutex, the channel was full again
    | Pushed                      // returned

  /** The goroutine that empties a replaced channel. */
  datatype Drainer = Drainer(source: nat, held: Option<Event>, target: Option<nat>)

  datatype Worker =
    | Idle
    | Receiving(ch: nat)                                   // has read er.ch, waiting for an event on it
    | Received(ev: Event)                                  // about to look up the handlers
    | Dispatching(ev: Event, hs: seq<Handler>, done: nat)  // has called the first `done` handlers

  datatype Handled = Handled(ev: Event, hs: seq<Handler>)

  datatype State = State(
    channels: seq<Channel>,
    current: nat,
    mutex: Option<nat>,
    pushes: seq<Push>,
    drainers: seq<Drainer>,
    workers: seq<Worker>,
    handlers: map<string, seq<Handler>>,
    // history
    offered: multiset<Event>,            // events PushEvent was called with
    accepted: multiset<Event>,           // events put into some channel by PushEvent
    handled: seq<Handled>,               // events processEvent has finished with
    calls: multiset<(Handler, Event)>    // calls of HandleEvent
  )

  datatype Action =
    | CallPush(ev: Event)
    | TrySend(p: nat)
    | TryFail(p: nat)
    | Lock(p: nat)
    | RetrySend(p: nat)
    | RetryFail(p: nat)
    | Grow(p: nat)
    | DrainReceive(d: nat)
    | DrainRead(d: nat)
    | DrainSend(d: nat)
    | WorkRead(w: nat)
    | WorkReceive(w: nat)
    | WorkLookup(w: nat)
    | WorkCall(w: nat)
    | WorkFinish(w: nat)
    | Register(name: string, h: Handler)
  {
    predicate IsDrain() {
      DrainReceive? || DrainRead? || DrainSend?
    }

    /** The actions by which PushEvent puts an event into a channel. */
    predicate IsAccept() {
      TrySend? || RetrySend? || Grow?
    }
  }

  const INITIAL_BUFFER_SIZE: nat := 1024
  const MIN_GROWN_SIZE: nat := 1024
  const WORKER_COUNT: nat := 4

  function NewRegistry(): State {
    State([Channel(INITIAL_BUFFER_SIZE, [])], 0, None, [], [], seq(WORKER_COUNT, _ => Idle), map[],
          multiset{}, multiset{}, [], multiset{})
  }

  function GrownCapacity(capacity: nat): nat {
    if capacity * 2 >= MIN_GROWN_SIZE then capacity * 2 else MIN_GROWN_SIZE
  }

  function HandlersOf(s: State, name: string): seq<Handler> {
    if name in s.handlers then s.handlers[name] else []
  }

  /** Names in an action refer to existing pushes, drainers, workers and channels. */
  predicate Enabled(s: State, a: Action) {
    && s.current < |s.channels|
    && match a
       case CallPush(_) => true
       case TrySend(p) =>
         p < |s.pushes| && s.pushes[p].Trying? && s.pushes[p].ch < |s.channels| &&
         !s.channels[s.pushes[p].ch].Full()
       case TryFail(p) =>
         p < |s.pushes| && s.pushes[p].Trying? && s.pushes[p].ch < |s.channels| &&
         s.channels[s.pushes[p].ch].Full()
       case Lock(p) => p < |s.pushes| && s.pushes[p].Waiting? && s.mutex.None?
       case RetrySend(p) => p < |s.pushes| && s.pushes[p].Retrying? && !s.channels[s.current].Full()
       case RetryFail(p) => p < |s.pushes| && s.pushes[p].Retrying? && s.channels[s.current].Full()
       case Grow(p) => p < |s.pushes| && s.pushes[p].Growing?
       case DrainReceive(d) =>
         d < |s.drainers| && s.drainers[d].held.None? && s.drainers[d].source < |s.channels| &&
         s.channels[s.drainers[d].source].buffer != []
       case DrainRead(d) => d < |s.drainers| && s.drainers[d].held.Some? && s.drainers[d].target.None?
       case DrainSend(d) =>
         d < |s.drainers| && s.drainers[d].held.Some? && s.drainers[d].target.Some? &&
         s.drainers[d].target.value < |s.channels| && !s.channels[s.drainers[d].target.value].Full()
       case WorkRead(w) => w < |s.workers| && s.workers[w].Idle?
       case WorkReceive(w) =>
         w < |s.workers| && s.workers[w].Receiving? && s.workers[w].ch < |s.channels| &&
         s.channels[s.workers[w].ch].buffer != []
       case WorkLookup(w) => w < |s.workers| && s.workers[w].Received? && s.mutex.None?
       case WorkCall(w) =>
         w < |s.workers| && s.workers[w].Dispatching? && s.workers[w].done < |s.workers[w].hs|
       case WorkFinish(w) =>
         w < |s.workers| && s.workers[w].Dispatching? && s.workers[w].done >= |s.workers[w].hs|
       case Register(_, _) => s.mutex.None?
  }

  function Append(s: State, ch: nat, ev: Event): seq<Channel>
    requires ch < |s.channels|
  {
    s.channels[ch := s.channels[ch].(buffer := s.channels[ch].buffer + [ev])]
  }

  function DropHead(s: State, ch: nat): seq<Channel>
    requires ch < |s.channels| && s.channels[ch].buffer != []
  {
    s.channels[ch := s.channels[ch].(buffer := s.channels[ch].buffer[1..])]
  }

  /** PushEvent: event_registry.go lines 51 to 89. */
  function PushStep(s: State, a: Action): State
    requires Enabled(s, a)
    requires a.CallPush? || a.TrySend? || a.TryFail? || a.Lock? || a.RetrySend? || a.RetryFail? || a.Grow?
  {
    match a
    case CallPush(ev) =>
      s.(pushes := s.pushes + [Trying(ev, s.current)], offered := s.offered + multiset{ev})
    case TrySend(p) =>
      var Trying(ev, ch) := s.pushes[p];
      s.(channels := Append(s, ch, ev), pushes := s.pushes[p := Pushed], accepted := s.accepted + multiset{ev})
    case TryFail(p) =>
      s.(pushes := s.pushes[p := Waiting(s.pushes[p].ev)])
    case Lock(p) =>
      s.(pushes := s.pushes[p := Retrying(s.pushes[p].ev)], mutex := Some(p))
    case RetrySend(p) =>
      var ev := s.pushes[p].ev;
      s.(channels := Append(s, s.current, ev), pushes := s.pushes[p := Pushed], mutex := None,
         accepted := s.accepted + multiset{ev})
    case RetryFail(p) =>
      s.(pushes := s.pushes[p := Growing(s.pushes[p].ev)])
    case Grow(p) =>
      var ev := s.pushes[p].ev;
      var grown := Channel(GrownCapacity(s.channels[s.current].capacity), [ev]);
      s.(channels := s.channels + [grown], current := |s.channels|, pushes := s.pushes[p := Pushed],
         mutex := None, drainers := s.drainers + [Drainer(s.current, None, None)],
         accepted := s.accepted + multiset{ev})
  }

  /** The draining goroutine: lines 80 to 86. */
  function DrainStep(s: State, a: Action): State
    requires Enabled(s, a) && a.IsDrain()
  {
    match a
    case DrainReceive(d) =>
      var src := s.drainers[d].source;
      s.(channels := DropHead(s, src),
         drainers := s.drainers[d := Drainer(src, Some(s.channels[src].buffer[0]), None)])
    case DrainRead(d) =>
      s.(drainers := s.drainers[d := s.drainers[d].(target := Some(s.current))])
    case DrainSend(d) =>
      var Drainer(src, held, target) := s.drainers[d];
      s.(channels := Append(s, target.value, held.value), drainers := s.drainers[d := Drainer(src, None, None)])
  }

  /** worker and processEvent: lines 123 to 148; RegisterEventHandler: lines 40 to 49. */
  function WorkStep(s: State, a: Action): State
    requires Enabled(s, a)
    requires a.WorkRead? || a.WorkReceive? || a.WorkLookup? || a.WorkCall? || a.WorkFinish? || a.Register?
  {
    match a
    case WorkRead(w) =>
      s.(workers := s.workers[w := Receiving(s.current)])
    case WorkReceive(w) =>
      var ch := s.workers[w].ch;
      s.(channels := DropHead(s, ch), workers := s.workers[w := Received(s.channels[ch].buffer[0])])
    case WorkLookup(w) =>
      var ev := s.workers[w].ev;
      s.(workers := s.workers[w := Dispatching(ev, HandlersOf(s, ev.name), 0)])
    case WorkCall(w) =>
      var Dispatching(ev, hs, done) := s.workers[w];
      s.(workers := s.workers[w := Dispatching(ev, hs, done + 1)], calls := s.calls + multiset{(hs[done], ev)})
    case WorkFinish(w) =>
      var Dispatching(ev, hs, _) := s.workers[w];
      s.(workers := s.workers[w := Idle], handled := s.handled + [Handled(ev, hs)])
    case Register(name, h) =>
      s.(handlers := s.handlers[name := HandlersOf(s, name) + [h]])
  }

  function Step(s: State, a: Action): State
    requires Enabled(s, a)
  {
    if a.IsDrain() then DrainStep(s, a)
    else if a.WorkRead? || a.WorkReceive? || a.WorkLookup? || a.WorkCall? || a.WorkFinish? || a.Register? then
      WorkStep(s, a)
    else PushStep(s, a)
  }

  /** Every action of the schedule is enabled when its turn comes. */
  predicate Runs(s: State, schedule: seq<Action>)
    decreases schedule
  {
    schedule != [] ==> Enabled(s, schedule[0]) && Runs(Step(s, schedule[0]), schedule[1..])
  }

  function Run(s: State, schedule: seq<Action>): State
    requires Runs(s, schedule)
    decreases schedule
  {
    if schedule == [] then s else Run(Step(s, schedule[0]), schedule[1..])
  }

  // ---------- Counting events ----------

  function Buffered(c: Channel, e: Event): nat {
    multiset(c.buffer)[e]
  }

  function Held(d: Drainer, e: Event): nat {
    One(d.held == Some(e))
  }

  function InWork(w: Worker, e: Event): nat {
    One((w.Received? || w.Dispatching?) && w.ev == e)
  }

  function Pending(p: Push, e: Event): nat {
    One(!p.Pushed? && p.ev == e)
  }

  function Finished(h: Handled, e: Event): nat {
    One(h.ev == e)
  }

  /** How often handler call.0 has been called for a finished event, and by a worker so far. */
  function CallsFinished(h: Handled, call: (Handler, Event)): nat {
    if h.ev == call.1 then multiset(h.hs)[call.0] else 0
  }

  function CallsBegun(w: Worker, call: (Handler, Event)): nat {
    if w.Dispatching? && w.done <= |w.hs| && w.ev == call.1 then multiset(w.hs[..w.done])[call.0] else 0
  }

  // ---------- The invariant ----------

  function Pow2(n: nat): nat {
    if n == 0 then 1 else 2 * Pow2(n - 1)
  }

  lemma PowPositive(n: nat)
    ensures Pow2(n) >= 1
  {
  }

  /** The current channel is the newest one and each channel is twice as large as the one before. */
  ghost predicate ChannelShape(channels: seq<Channel>, current: nat) {
    && current + 1 == |channels|
    && (forall i :: 0 <= i < |channels| ==>
          |channels[i].buffer| <= channels[i].capacity == INITIAL_BUFFER_SIZE * Pow2(i))
  }

  /** There is one drainer per replaced channel, and it forwards only to later channels. */
  ghost predicate DrainerShape(drainers: seq<Drainer>, current: nat) {
    && |drainers| == current
    && (forall d :: 0 <= d < |drainers| ==>
          && drainers[d].source == d
          && (drainers[d].target.Some? ==> drainers[d].held.Some? && d < drainers[d].target.value <= current))
  }

  /** Exactly the holder of the mutex is inside the critical section of PushEvent. */
  ghost predicate PushShape(pushes: seq<Push>, mutex: Option<nat>, current: nat) {
    && (mutex.Some? ==> mutex.value < |pushes|)
    && (forall p :: 0 <= p < |pushes| ==>
          && ((pushes[p].Retrying? || pushes[p].Growing?) <==> mutex == Some(p))
          && (pushes[p].Trying? ==> pushes[p].ch <= current))
  }

  ghost predicate WorkerShape(workers: seq<Worker>, current: nat) {
    forall w :: 0 <= w < |workers| ==>
      && (workers[w].Receiving? ==> workers[w].ch <= current)
      && (workers[w].Dispatching? ==> workers[w].done <= |workers[w].hs|)
  }

  ghost predicate Shape(s: State) {
    && ChannelShape(s.channels, s.current)
    && DrainerShape(s.drainers, s.current)
    && PushShape(s.pushes, s.mutex, s.current)
    && WorkerShape(s.workers, s.current)
  }

  /** Occurrences of e in channels, held by drainers, being handled, and handled. */
  function Everywhere(s: State, e: Event): nat {
    Tally(s.channels, Buffered, e) + Tally(s.drainers, Held, e)
    + Tally(s.workers, InWork, e) + Tally(s.handled, Finished, e)
  }

  /** No occurrence of e is lost or duplicated, neither on its way in nor afterwards. */
  ghost predicate Conserved(s: State, e: Event) {
    && s.offered[e] == s.accepted[e] + Tally(s.pushes, Pending, e)
    && s.accepted[e] == Everywhere(s, e)
  }

  /** Every call of HandleEvent belongs to one event that is handled or being handled. */
  ghost predicate Delivered(s: State, call: (Handler, Event)) {
    s.calls[call] == Tally(s.handled, CallsFinished, call) + Tally(s.workers, CallsBegun, call)
  }

  ghost predicate Inv(s: State) {
    && Shape(s)
    && (forall e :: Conserved(s, e))
    && (forall call :: Delivered(s, call))
  }

  lemma InitInv()
    ensures Inv(NewRegistry())
  {
    var s := NewRegistry();
    assert Pow2(0) == 1;
    forall e
      ensures Conserved(s, e)
    {
      TallyZero(s.channels, Buffered, e);
      TallyZero(s.workers, InWork, e);
    }
    forall call
      ensures Delivered(s, call)
    {
      TallyZero(s.workers, CallsBegun, call);
    }
  }

  lemma PushKeepsShape(s: State, a: Action)
    requires Shape(s) && Enabled(s, a)
    requires a.CallPush? || a.TrySend? || a.TryFail? || a.Lock? || a.RetrySend? || a.RetryFail?
    ensures Shape(PushStep(s, a))
  {
    var t := PushStep(s, a);
    assert PushShape(t.pushes, t.mutex, t.current);
  }

  lemma GrowKeepsShape(s: State, a: Action)
    requires Shape(s) && Enabled(s, a) && a.Grow?
    ensures Shape(PushStep(s, a))
  {
    var t := PushStep(s, a);
    PowPositive(s.current);
    assert ChannelShape(t.channels, t.current) by {
      assert Pow2(s.current + 1) == 2 * Pow2(s.current);
    }
    assert s.mutex == Some(a.p);
  }

  lemma StepShape(s: State, a: Action)
    requires Shape(s) && Enabled(s, a)
    ensures Shape(Step(s, a))
  {
    if a.Grow? {
      GrowKeepsShape(s, a);
    } else if a.CallPush? || a.TrySend? || a.TryFail? || a.Lock? || a.RetrySend? || a.RetryFail? {
      PushKeepsShape(s, a);
    } else if a.IsDrain() {
      assert DrainerShape(Step(s, a).drainers, s.current);
    } else {
      assert WorkerShape(Step(s, a).workers, s.current);
    }
  }

  lemma AppendCounts(s: State, ch: nat, ev: Event, e: Event)
    requires ch < |s.channels|
    ensures Tally(Append(s, ch, ev), Buffered, e) == Tally(s.channels, Buffered, e) + One(e == ev)
  {
    TallyUpdate(s.channels, ch, Append(s, ch, ev)[ch], Buffered, e);
  }

  lemma DropCounts(s: State, ch: nat, e: Event)
    requires ch < |s.channels| && s.channels[ch].buffer != []
    ensures Tally(DropHead(s, ch), Buffered, e) == Tally(s.channels, Buffered, e) - One(e == s.channels[ch].buffer[0])
  {
    var buffer := s.channels[ch].buffer;
    assert buffer == [buffer[0]] + buffer[1..];
    TallyUpdate(s.channels, ch, DropHead(s, ch)[ch], Buffered, e);
  }

  lemma AcceptConserves(s: State, a: Action, e: Event)
    requires Conserved(s, e) && Enabled(s, a) && (a.TrySend? || a.RetrySend?)
    ensures Conserved(PushStep(s, a), e)
  {
    TallyUpdate(s.pushes, a.p, Pushed, Pending, e);
    AppendCounts(s, if a.TrySend? then s.pushes[a.p].ch else s.current, s.pushes[a.p].ev, e);
  }

  lemma GrowConserves(s: State, a: Action, e: Event)
    requires Conserved(s, e) && Enabled(s, a) && a.Grow?
    ensures Conserved(PushStep(s, a), e)
  {
    TallyUpdate(s.pushes, a.p, Pushed, Pending, e);
    TallySnoc(s.channels, PushStep(s, a).channels[|s.channels|], Buffered, e);
    TallySnoc(s.drainers, Drainer(s.current, None, None), Held, e);
  }

  lemma PushConserves(s: State, a: Action, e: Event)
    requires Conserved(s, e) && Enabled(s, a)
    requires a.CallPush? || a.TrySend? || a.TryFail? || a.Lock? || a.RetrySend? || a.RetryFail? || a.Grow?
    ensures Conserved(PushStep(s, a), e)
  {
    if a.TrySend? || a.RetrySend? {
      AcceptConserves(s, a, e);
    } else if a.Grow? {
      GrowConserves(s, a, e);
    } else if a.CallPush? {
      TallySnoc(s.pushes, Trying(a.ev, s.current), Pending, e);
    } else {
      TallyUpdate(s.pushes, a.p, PushStep(s, a).pushes[a.p], Pending, e);
    }
  }

  lemma DrainConserves(s: State, a: Action, e: Event)
    requires Conserved(s, e) && Enabled(s, a) && a.IsDrain()
    ensures Conserved(DrainStep(s, a), e)
  {
    TallyUpdate(s.drainers, a.d, DrainStep(s, a).drainers[a.d], Held, e);
    if a.DrainReceive? {
      DropCounts(s, s.drainers[a.d].source, e);
    } else if a.DrainSend? {
      AppendCounts(s, s.drainers[a.d].target.value, s.drainers[a.d].held.value, e);
    }
  }

  lemma ReceiveConserves(s: State, w: nat, e: Event)
    requires Conserved(s, e) && Enabled(s, WorkReceive(w))
    ensures Conserved(WorkStep(s, WorkReceive(w)), e)
  {
    TallyUpdate(s.workers, w, WorkStep(s, WorkReceive(w)).workers[w], InWork, e);
    DropCounts(s, s.workers[w].ch, e);
  }

  lemma FinishConserves(s: State, w: nat, e: Event)
    requires Conserved(s, e) && Enabled(s, WorkFinish(w))
    ensures Conserved(WorkStep(s, WorkFinish(w)), e)
  {
    TallyUpdate(s.workers, w, Idle, InWork, e);
    TallySnoc(s.handled, Handled(s.workers[w].ev, s.workers[w].hs), Finished, e);
  }

  lemma WorkConserves(s: State, a: Action, e: Event)
    requires Conserved(s, e) && Enabled(s, a)
    requires a.WorkRead? || a.WorkReceive? || a.WorkLookup? || a.WorkCall? || a.WorkFinish? || a.Register?
    ensures Conserved(WorkStep(s, a), e)
  {
    if a.WorkReceive? {
      ReceiveConserves(s, a.w, e);
    } else if a.WorkFinish? {
      FinishConserves(s, a.w, e);
    } else if !a.Register? {
      TallyUpdate(s.workers, a.w, WorkStep(s, a).workers[a.w], InWork, e);
    }
  }

  /** Calling the next handler counts one more call of it. */
  lemma OneMoreCall(ev: Event, hs: seq<Handler>, done: nat, call: (Handler, Event))
    requires done < |hs|
    ensures CallsBegun(Dispatching(ev, hs, done + 1), call) ==
              CallsBegun(Dispatching(ev, hs, done), call) + One((hs[done], ev) == call)
  {
    assert hs[..done + 1] == hs[..done] + [hs[done]];
  }

  lemma CallDelivers(s: State, w: nat, call: (Handler, Event))
    requires WorkerShape(s.workers, s.current) && Delivered(s, call) && Enabled(s, WorkCall(w))
    ensures Delivered(WorkStep(s, WorkCall(w)), call)
  {
    var Dispatching(ev, hs, done) := s.workers[w];
    OneMoreCall(ev, hs, done, call);
    TallyUpdate(s.workers, w, Dispatching(ev, hs, done + 1), CallsBegun, call);
  }

  lemma FinishDelivers(s: State, w: nat, call: (Handler, Event))
    requires WorkerShape(s.workers, s.current) && Delivered(s, call) && Enabled(s, WorkFinish(w))
    ensures Delivered(WorkStep(s, WorkFinish(w)), call)
  {
    var Dispatching(ev, hs, done) := s.workers[w];
    assert hs[..done] == hs;
    TallyUpdate(s.workers, w, Idle, CallsBegun, call);
    TallySnoc(s.handled, Handled(ev, hs), CallsFinished, call);
  }

  lemma WorkDelivers(s: State, a: Action, call: (Handler, Event))
    requires WorkerShape(s.workers, s.current) && Delivered(s, call) && Enabled(s, a)
    requires a.WorkRead? || a.WorkReceive? || a.WorkLookup? || a.WorkCall? || a.WorkFinish? || a.Register?
    ensures Delivered(WorkStep(s, a), call)
  {
    if a.WorkCall? {
      CallDelivers(s, a.w, call);
    } else if a.WorkFinish? {
      FinishDelivers(s, a.w, call);
    } else if !a.Register? {
      TallyUpdate(s.workers, a.w, WorkStep(s, a).workers[a.w], CallsBegun, call);
    }
  }

  lemma {:induction false} StepInv(s: State, a: Action)
    requires Inv(s) && Enabled(s, a)
    ensures Inv(Step(s, a))
  {
    StepShape(s, a);
    forall e
      ensures Conserved(Step(s, a), e)
    {
      StepConserves(s, a, e);
    }
    forall call
      ensures Delivered(Step(s, a), call)
    {
      StepDelivers(s, a, call);
    }
  }

  lemma StepConserves(s: State, a: Action, e: Event)
    requires Conserved(s, e) && Enabled(s, a)
    ensures Conserved(Step(s, a), e)
  {
    if a.IsDrain() {
      DrainConserves(s, a, e);
    } else if a.WorkRead? || a.WorkReceive? || a.WorkLookup? || a.WorkCall? || a.WorkFinish? || a.Register? {
      WorkConserves(s, a, e);
    } else {
      PushConserves(s, a, e);
    }
  }

  lemma StepDelivers(s: State, a: Action, call: (Handler, Event))
    requires WorkerShape(s.workers, s.current) && Delivered(s, call) && Enabled(s, a)
    ensures Delivered(Step(s, a), call)
  {
    if a.WorkRead? || a.WorkReceive? || a.WorkLookup? || a.WorkCall? || a.WorkFinish? || a.Register? {
      WorkDelivers(s, a, call);
    }
  }

  lemma {:induction false} RunInv(s: State, schedule: seq<Action>)
    requires Inv(s) && Runs(s, schedule)
    ensures Inv(Run(s, schedule))
    decreases schedule
  {
    if schedule != [] {
      StepInv(s, schedule[0]);
      RunInv(Step(s, schedule[0]), schedule[1..]);
    }
  }
}
