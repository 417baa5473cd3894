/**
 What moves on: drainers move events forward and never block each other, pushes that are called put in their events,
 and once no push puts in an event any more, pushes, drainers and workers together take only so many more actions.
 */
module EventProgress {
  import opened Common
  import opened EventRegistry
  import opened EventHistory

  // ---------- Drainers ----------

  /** A drainer only ever sends to a channel created after its source, and the fresh channel of a
      growing push always has room for the event that caused the growth. */
  lemma DrainersMoveForward(schedule: seq<Action>, a: Action)
    requires Runs(NewRegistry(), schedule) && Enabled(Run(NewRegistry(), schedule), a)
    ensures var s := Run(NewRegistry(), schedule);
            && (a.DrainSend? ==> s.drainers[a.d].source < s.drainers[a.d].target.value < |s.channels|)
            && (a.Grow? ==> var grown := Step(s, a).channels[|s.channels|];
                            grown.buffer == [s.pushes[a.p].ev] && grown.capacity == 1024 * Pow2(|s.channels|) >= 2048)
  {
    InitInv();
    RunInv(NewRegistry(), schedule);
    var s := Run(NewRegistry(), schedule);
    StepInv(s, a);
    if a.Grow? {
      PowPositive(s.current);
      assert Pow2(|s.channels|) == 2 * Pow2(s.current);
    }
  }

  /** How far the events of the first n channels, and those held by the first n drainers, still have to go. */
  function ChannelRank(s: State, n: nat): int
    requires n <= |s.channels|
  {
    if n == 0 then 0 else ChannelRank(s, n - 1) + |s.channels[n - 1].buffer| * (3 * (s.current - (n - 1)))
  }

  function DrainerRank(s: State, n: nat): int
    requires n <= |s.drainers|
  {
    if n == 0 then 0 else DrainerRank(s, n - 1) + HeldRank(s.drainers[n - 1], s.current)
  }

  function HeldRank(d: Drainer, current: nat): int {
    if d.held.None? then 0
    else 3 * (current - d.source) - if d.target.None? then 1 else 2
  }

  function Rank(s: State): int {
    ChannelRank(s, |s.channels|) + DrainerRank(s, |s.drainers|)
  }

  lemma {:induction false} ChannelRankUpdate(s: State, t: State, ch: nat, n: nat)
    requires n <= |s.channels| == |t.channels| && s.current == t.current && ch < |s.channels|
    requires forall i :: 0 <= i < |s.channels| && i != ch ==> s.channels[i] == t.channels[i]
    ensures ChannelRank(t, n) == ChannelRank(s, n) +
              if ch < n then (|t.channels[ch].buffer| - |s.channels[ch].buffer|) * (3 * (s.current - ch)) else 0
  {
    if n > 0 {
      ChannelRankUpdate(s, t, ch, n - 1);
      if ch == n - 1 {
        var x, y, w := |t.channels[ch].buffer|, |s.channels[ch].buffer|, 3 * (s.current - ch);
        assert x * w == y * w + (x - y) * w;
      }
    }
  }

  lemma {:induction false} ChannelRankSame(s: State, t: State, n: nat)
    requires n <= |s.channels| && s.channels == t.channels && s.current == t.current
    ensures ChannelRank(t, n) == ChannelRank(s, n)
  {
    if n > 0 {
      ChannelRankSame(s, t, n - 1);
    }
  }

  lemma {:induction false} DrainerRankUpdate(s: State, t: State, d: nat, n: nat)
    requires n <= |s.drainers| == |t.drainers| && s.current == t.current && d < |s.drainers|
    requires forall i :: 0 <= i < |s.drainers| && i != d ==> s.drainers[i] == t.drainers[i]
    ensures DrainerRank(t, n) == DrainerRank(s, n) +
              if d < n then HeldRank(t.drainers[d], s.current) - HeldRank(s.drainers[d], s.current) else 0
  {
    if n > 0 {
      DrainerRankUpdate(s, t, d, n - 1);
    }
  }

  lemma {:induction false} DrainerRankSame(s: State, t: State, n: nat)
    requires n <= |s.drainers| && s.drainers == t.drainers && s.current == t.current
    ensures DrainerRank(t, n) == DrainerRank(s, n)
  {
    if n > 0 {
      DrainerRankSame(s, t, n - 1);
    }
  }

  lemma {:induction false} RankNonNegative(s: State, n: nat, m: nat)
    requires Shape(s) && n <= |s.channels| && m <= |s.drainers|
    ensures ChannelRank(s, n) >= 0 && DrainerRank(s, m) >= 0
  {
    if n > 0 {
      RankNonNegative(s, n - 1, 0);
      assert |s.channels[n - 1].buffer| * (3 * (s.current - (n - 1))) >= 0;
    }
    if m > 0 {
      RankNonNegative(s, 0, m - 1);
    }
  }

  lemma ReceiveLowersRank(s: State, d: nat)
    requires Shape(s) && Enabled(s, DrainReceive(d))
    ensures Rank(DrainStep(s, DrainReceive(d))) < Rank(s)
  {
    var t := DrainStep(s, DrainReceive(d));
    DrainerRankUpdate(s, t, d, |s.drainers|);
    ChannelRankUpdate(s, t, d, |s.channels|);
    assert (-1) * (3 * (s.current - d)) == -(3 * (s.current - d));
  }

  lemma SendLowersRank(s: State, d: nat)
    requires Shape(s) && Enabled(s, DrainSend(d))
    ensures Rank(DrainStep(s, DrainSend(d))) < Rank(s)
  {
    var t := DrainStep(s, DrainSend(d));
    DrainerRankUpdate(s, t, d, |s.drainers|);
    ChannelRankUpdate(s, t, s.drainers[d].target.value, |s.channels|);
  }

  lemma DrainLowersRank(s: State, a: Action)
    requires Shape(s) && Enabled(s, a) && a.IsDrain()
    ensures Rank(Step(s, a)) < Rank(s)
  {
    if a.DrainReceive? {
      ReceiveLowersRank(s, a.d);
    } else if a.DrainSend? {
      SendLowersRank(s, a.d);
    } else {
      var t := Step(s, a);
      DrainerRankUpdate(s, t, a.d, |s.drainers|);
      ChannelRankSame(s, t, |s.channels|);
    }
  }

  lemma OthersKeepRank(s: State, a: Action)
    requires Shape(s) && Enabled(s, a) && !a.IsDrain() && !a.IsAccept()
    ensures Rank(Step(s, a)) <= Rank(s)
  {
    var t := Step(s, a);
    DrainerRankSame(s, t, |s.drainers|);
    if a.WorkReceive? {
      var ch := s.workers[a.w].ch;
      ChannelRankUpdate(s, t, ch, |s.channels|);
      assert (-1) * (3 * (s.current - ch)) <= 0;
    } else {
      ChannelRankSame(s, t, |s.channels|);
    }
  }

  function DrainCount(schedule: seq<Action>): nat {
    if schedule == [] then 0 else (if schedule[0].IsDrain() then 1 else 0) + DrainCount(schedule[1..])
  }

  /** Forwarding terminates: while no push puts in an event, the drainers take at most Rank(s) actions
      between them, whatever the workers do and however the actions interleave. */
  lemma {:induction false} ForwardingTerminates(s: State, schedule: seq<Action>)
    requires Inv(s) && Runs(s, schedule)
    requires forall a :: a in schedule ==> !a.IsAccept()
    ensures DrainCount(schedule) <= Rank(s)
    decreases schedule
  {
    if schedule == [] {
      RankNonNegative(s, |s.channels|, |s.drainers|);
    } else {
      var a := schedule[0];
      assert !a.IsAccept();
      StepInv(s, a);
      if a.IsDrain() {
        DrainLowersRank(s, a);
      } else {
        OthersKeepRank(s, a);
      }
      ForwardingTerminates(Step(s, a), schedule[1..]);
    }
  }

  ghost predicate DrainersStuck(s: State) {
    forall a: Action :: a.IsDrain() ==> !Enabled(s, a)
  }

  /** A drainer that holds an event and cannot move leads, through later and later channels, to the
      current one, which must then be full. */
  lemma {:induction false} StuckBehindCurrent(s: State, d: nat)
    requires Shape(s) && DrainersStuck(s) && d < |s.drainers| && s.drainers[d].held.Some?
    ensures s.channels[s.current].Full()
    decreases s.current - d
  {
    assert !Enabled(s, DrainRead(d));
    assert !Enabled(s, DrainSend(d));
    var t := s.drainers[d].target.value;
    assert s.channels[t].Full();
    if t < s.current {
      PowPositive(t);
      assert s.channels[t].buffer != [];
      assert !Enabled(s, DrainReceive(t));
      StuckBehindCurrent(s, t);
    }
  }

  /** The drainers never block each other: when none of them can move, either the current channel is
      full, or every replaced channel is empty and no drainer holds an event. */
  lemma DrainersFinish(s: State)
    requires Shape(s) && DrainersStuck(s)
    ensures s.channels[s.current].Full() ||
            forall d :: 0 <= d < s.current ==> s.channels[d].buffer == [] && s.drainers[d].held.None?
  {
    if !s.channels[s.current].Full() {
      forall d | 0 <= d < s.current
        ensures s.channels[d].buffer == [] && s.drainers[d].held.None?
      {
        if s.drainers[d].held.Some? {
          StuckBehindCurrent(s, d);
        }
        assert !Enabled(s, DrainReceive(d));
      }
    }
  }

  // ---------- Pushes ----------

  /** How often a schedule calls PushEvent with e. */
  function Called(schedule: seq<Action>, e: Event): nat {
    if schedule == [] then 0
    else Called(schedule[..|schedule| - 1], e) + One(schedule[|schedule| - 1] == CallPush(e))
  }

  /** The offered events are those PushEvent was called with. */
  lemma {:induction false} OfferedAreCalled(schedule: seq<Action>, e: Event)
    requires Runs(NewRegistry(), schedule)
    ensures Run(NewRegistry(), schedule).offered[e] == Called(schedule, e)
  {
    if schedule != [] {
      var n := |schedule| - 1;
      RunSnoc(NewRegistry(), schedule);
      OfferedAreCalled(schedule[..n], e);
      StepOffers(Run(NewRegistry(), schedule[..n]), schedule[n], e);
    }
  }

  lemma StepOffers(s: State, a: Action, e: Event)
    requires Enabled(s, a)
    ensures Step(s, a).offered[e] == s.offered[e] + One(a == CallPush(e))
  {
  }

  function Open(p: Push, u: ()): nat {
    One(!p.Pushed?)
  }

  function Accepts(schedule: seq<Action>): nat {
    if schedule == [] then 0 else One(schedule[0].IsAccept()) + Accepts(schedule[1..])
  }

  function Calls(schedule: seq<Action>): nat {
    if schedule == [] then 0 else One(schedule[0].CallPush?) + Calls(schedule[1..])
  }

  lemma PushOpens(s: State, a: Action)
    requires Enabled(s, a)
    requires a.TrySend? || a.TryFail? || a.Lock? || a.RetrySend? || a.RetryFail? || a.Grow?
    ensures Tally(Step(s, a).pushes, Open, ()) == Tally(s.pushes, Open, ()) - One(a.IsAccept())
  {
    var p := Step(s, a).pushes[a.p];
    assert Open(p, ()) == Open(s.pushes[a.p], ()) - One(a.IsAccept());
    TallyUpdate(s.pushes, a.p, p, Open, ());
  }

  lemma StepOpens(s: State, a: Action)
    requires Enabled(s, a)
    ensures Tally(Step(s, a).pushes, Open, ()) ==
              Tally(s.pushes, Open, ()) + One(a.CallPush?) - One(a.IsAccept())
  {
    if a.CallPush? {
      TallySnoc(s.pushes, Trying(a.ev, s.current), Open, ());
    } else if a.TrySend? || a.TryFail? || a.Lock? || a.RetrySend? || a.RetryFail? || a.Grow? {
      PushOpens(s, a);
    }
  }

  /** Each call of PushEvent puts in its event once at most: the calls that have returned are those that did. */
  lemma {:induction false} PushesReturn(s: State, schedule: seq<Action>)
    requires Runs(s, schedule)
    ensures Tally(Run(s, schedule).pushes, Open, ()) + Accepts(schedule) == Tally(s.pushes, Open, ()) + Calls(schedule)
    decreases schedule
  {
    if schedule != [] {
      StepOpens(s, schedule[0]);
      PushesReturn(Step(s, schedule[0]), schedule[1..]);
    }
  }

  // ---------- Everything else ----------

  /** How many steps a push can still take without putting in its event. */
  function TriesLeft(p: Push, u: ()): nat {
    match p
    case Trying(_, _) => 3
    case Waiting(_) => 2
    case Retrying(_) => 1
    case Growing(_) => 0
    case Pushed => 0
  }

  /** How many steps a worker can still take without receiving another event, if no event has more than h handlers. */
  function WorkLeft(w: Worker, h: nat): nat {
    match w
    case Idle => 1
    case Receiving(_) => 0
    case Received(_) => h + 3
    case Dispatching(_, hs, done) => 2 + if done <= |hs| then |hs| - done else 0
  }

  function Length(c: Channel, u: ()): nat {
    |c.buffer|
  }

  function Holds(d: Drainer, u: ()): nat {
    One(d.held.Some?)
  }

  /** Events in channels and in the hands of drainers. */
  function Unreceived(s: State): nat {
    Tally(s.channels, Length, ()) + Tally(s.drainers, Holds, ())
  }

  function Measure(s: State, h: nat): int {
    Tally(s.pushes, TriesLeft, ()) + Rank(s) + Unreceived(s) * (h + 4) + Tally(s.workers, WorkLeft, h)
  }

  ghost predicate FewHandlers(s: State, h: nat) {
    forall name :: |HandlersOf(s, name)| <= h
  }

  /** Neither calls PushEvent, nor puts in an event, nor registers a handler. */
  predicate Quiet(a: Action) {
    !a.CallPush? && !a.IsAccept() && !a.Register?
  }

  lemma AppendLength(s: State, ch: nat, ev: Event)
    requires ch < |s.channels|
    ensures Tally(Append(s, ch, ev), Length, ()) == Tally(s.channels, Length, ()) + 1
  {
    TallyUpdate(s.channels, ch, Append(s, ch, ev)[ch], Length, ());
  }

  lemma DropLength(s: State, ch: nat)
    requires ch < |s.channels| && s.channels[ch].buffer != []
    ensures Tally(DropHead(s, ch), Length, ()) == Tally(s.channels, Length, ()) - 1
  {
    TallyUpdate(s.channels, ch, DropHead(s, ch)[ch], Length, ());
  }

  lemma TryLowers(s: State, a: Action, h: nat)
    requires Shape(s) && Enabled(s, a) && (a.TryFail? || a.Lock? || a.RetryFail?)
    ensures Measure(Step(s, a), h) < Measure(s, h)
  {
    var t := Step(s, a);
    TallyUpdate(s.pushes, a.p, t.pushes[a.p], TriesLeft, ());
    ChannelRankSame(s, t, |s.channels|);
    DrainerRankSame(s, t, |s.drainers|);
  }

  lemma DrainLowers(s: State, a: Action, h: nat)
    requires Shape(s) && Enabled(s, a) && a.IsDrain()
    ensures Measure(Step(s, a), h) < Measure(s, h)
  {
    DrainLowersRank(s, a);
    TallyUpdate(s.drainers, a.d, Step(s, a).drainers[a.d], Holds, ());
    if a.DrainReceive? {
      DropLength(s, s.drainers[a.d].source);
    } else if a.DrainSend? {
      AppendLength(s, s.drainers[a.d].target.value, s.drainers[a.d].held.value);
    }
    assert Unreceived(Step(s, a)) == Unreceived(s);
  }

  lemma ReceiveLowers(s: State, w: nat, h: nat)
    requires Shape(s) && Enabled(s, WorkReceive(w))
    ensures Measure(Step(s, WorkReceive(w)), h) < Measure(s, h)
  {
    var t := Step(s, WorkReceive(w));
    OthersKeepRank(s, WorkReceive(w));
    DropLength(s, s.workers[w].ch);
    TallyUpdate(s.workers, w, t.workers[w], WorkLeft, h);
    assert t.drainers == s.drainers && t.pushes == s.pushes;
    Times(Unreceived(t), Unreceived(s), h + 4);
  }

  lemma Times(x: nat, y: nat, k: nat)
    requires x + 1 == y
    ensures x * k == y * k - k
  {
  }

  lemma WorkLowers(s: State, a: Action, h: nat)
    requires Shape(s) && FewHandlers(s, h) && Enabled(s, a)
    requires a.WorkRead? || a.WorkLookup? || a.WorkCall? || a.WorkFinish?
    ensures Measure(Step(s, a), h) < Measure(s, h)
  {
    var t := Step(s, a);
    OthersKeepRank(s, a);
    TallyUpdate(s.workers, a.w, t.workers[a.w], WorkLeft, h);
    assert a.WorkLookup? ==> |HandlersOf(s, s.workers[a.w].ev.name)| <= h;
  }

  lemma QuietLowers(s: State, a: Action, h: nat)
    requires Shape(s) && FewHandlers(s, h) && Enabled(s, a) && Quiet(a)
    ensures Measure(Step(s, a), h) < Measure(s, h) && FewHandlers(Step(s, a), h)
  {
    forall name
      ensures |HandlersOf(Step(s, a), name)| <= h
    {
      StepHandlers(s, a, name);
    }
    if a.IsDrain() {
      DrainLowers(s, a, h);
    } else if a.WorkReceive? {
      ReceiveLowers(s, a.w, h);
    } else if a.TryFail? || a.Lock? || a.RetryFail? {
      TryLowers(s, a, h);
    } else {
      WorkLowers(s, a, h);
    }
  }

  lemma MeasureNonNegative(s: State, h: nat)
    requires Shape(s)
    ensures Measure(s, h) >= 0
  {
    RankNonNegative(s, |s.channels|, |s.drainers|);
    var worth: nat := Unreceived(s) * (h + 4);
    assert Measure(s, h) == Tally(s.pushes, TriesLeft, ()) + Rank(s) + worth + Tally(s.workers, WorkLeft, h);
  }

  /** While no push puts in an event and no handler is registered, all goroutines together take at most Measure(s, h)
      actions: no action is idle, and nothing circulates. */
  lemma {:induction false} EverythingSettles(s: State, schedule: seq<Action>, h: nat)
    requires Inv(s) && FewHandlers(s, h) && Runs(s, schedule)
    requires forall a :: a in schedule ==> Quiet(a)
    ensures |schedule| <= Measure(s, h)
    decreases schedule
  {
    if schedule == [] {
      MeasureNonNegative(s, h);
    } else {
      assert schedule[0] in schedule;
      StepInv(s, schedule[0]);
      QuietLowers(s, schedule[0], h);
      EverythingSettles(Step(s, schedule[0]), schedule[1..], h);
    }
  }

  /** When nothing can move any more, every push has returned or is about to put in its event, no drainer holds an
      event unless the current channel is full, and no worker has an event in hand. */
  lemma SettledMeans(s: State)
    requires Inv(s) && forall a :: Quiet(a) ==> !Enabled(s, a)
    ensures forall w :: 0 <= w < |s.workers| ==>
              || (s.workers[w].Receiving? && s.channels[s.workers[w].ch].buffer == [])
              || (s.workers[w].Received? && s.mutex.Some?)
    ensures s.channels[s.current].Full() ||
            forall d :: 0 <= d < s.current ==> s.channels[d].buffer == [] && s.drainers[d].held.None?
    ensures forall p :: 0 <= p < |s.pushes| ==>
              || s.pushes[p].Pushed? || (s.pushes[p].Growing? && Enabled(s, Grow(p)))
              || (s.pushes[p].Trying? && Enabled(s, TrySend(p)))
              || (s.pushes[p].Retrying? && Enabled(s, RetrySend(p)))
              || (s.pushes[p].Waiting? && s.mutex.Some?)
  {
    forall w | 0 <= w < |s.workers|
      ensures || (s.workers[w].Receiving? && s.channels[s.workers[w].ch].buffer == [])
              || (s.workers[w].Received? && s.mutex.Some?)
    {
      assert !Enabled(s, WorkRead(w)) && !Enabled(s, WorkReceive(w)) && !Enabled(s, WorkLookup(w));
      assert !Enabled(s, WorkCall(w)) && !Enabled(s, WorkFinish(w));
    }
    DrainersFinish(s);
    forall p | 0 <= p < |s.pushes|
      ensures || s.pushes[p].Pushed? || (s.pushes[p].Growing? && Enabled(s, Grow(p)))
              || (s.pushes[p].Trying? && Enabled(s, TrySend(p)))
              || (s.pushes[p].Retrying? && Enabled(s, RetrySend(p)))
              || (s.pushes[p].Waiting? && s.mutex.Some?)
    {
      assert !Enabled(s, TryFail(p)) && !Enabled(s, Lock(p)) && !Enabled(s, RetryFail(p));
    }
  }
}
