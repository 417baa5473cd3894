/**
 What holds of every run: no event is lost or doubled, every registered handler is called, and what the schedule says
 by itself: which handlers are registered when an event is looked up, which channel is the current one when it is
 read, when a channel is replaced, and in which order events leave a channel.
 */
module EventHistory {
  import opened Common
  import opened EventRegistry

  // ---------- Main results ----------

  /** In every interleaving each occurrence of an accepted event is in exactly one place, and each
      occurrence of an offered event is accepted or still pending in its PushEvent call. */
  lemma {:induction false} EveryRunConserves(schedule: seq<Action>, e: Event)
    requires Runs(NewRegistry(), schedule)
    ensures var s := Run(NewRegistry(), schedule);
            && s.accepted[e] == Tally(s.channels, Buffered, e) + Tally(s.drainers, Held, e)
                                + Tally(s.workers, InWork, e) + Tally(s.handled, Finished, e)
            && s.offered[e] == s.accepted[e] + Tally(s.pushes, Pending, e)
  {
    InitInv();
    RunInv(NewRegistry(), schedule);
    assert Conserved(Run(NewRegistry(), schedule), e);
  }

  ghost predicate AtRest(s: State) {
    && (forall p :: p in s.pushes ==> p.Pushed?)
    && (forall c :: c in s.channels ==> c.buffer == [])
    && (forall d :: d in s.drainers ==> d.held.None?)
    && (forall w :: w in s.workers ==> w.Idle? || w.Receiving?)
  }

  /** Once nothing is in flight, every event has been handled exactly as often as it was pushed, and
      each handler found for it has been called once per time it was handled. */
  lemma RestMeansHandled(schedule: seq<Action>, e: Event, h: Handler)
    requires Runs(NewRegistry(), schedule) && AtRest(Run(NewRegistry(), schedule))
    ensures var s := Run(NewRegistry(), schedule);
            && Tally(s.handled, Finished, e) == s.offered[e]
            && s.calls[(h, e)] == Tally(s.handled, CallsFinished, (h, e))
  {
    InitInv();
    RunInv(NewRegistry(), schedule);
    var s := Run(NewRegistry(), schedule);
    RestCounts(s, e, h);
  }

  lemma RestCounts(s: State, e: Event, h: Handler)
    requires Conserved(s, e) && Delivered(s, (h, e)) && AtRest(s)
    ensures Tally(s.handled, Finished, e) == s.offered[e]
    ensures s.calls[(h, e)] == Tally(s.handled, CallsFinished, (h, e))
  {
    TallyZero(s.pushes, Pending, e);
    TallyZero(s.channels, Buffered, e);
    TallyZero(s.drainers, Held, e);
    TallyZero(s.workers, InWork, e);
    TallyZero(s.workers, CallsBegun, (h, e));
  }

  // ---------- Registration during dispatch ----------

  /** The event was looked up in a list that does not begin with the handlers s0 has for it. */
  function Outdated(h: Handled, s0: State): nat {
    One(!(HandlersOf(s0, h.ev.name) <= h.hs))
  }

  /** The worker is calling the handlers of such a list. */
  function Lagging(w: Worker, s0: State): nat {
    One(w.Dispatching? && !(HandlersOf(s0, w.ev.name) <= w.hs))
  }

  /** Handlers only get appended, and the events handled since s0 with an outdated list, together with those still
      being handled so, are exactly as many as the workers that were calling such a list in s0. */
  ghost predicate LookedUpSince(s0: State, s: State) {
    && (forall name :: HandlersOf(s0, name) <= HandlersOf(s, name))
    && s0.handled <= s.handled
    && Tally(s.handled[|s0.handled|..], Outdated, s0) + Tally(s.workers, Lagging, s0) == Tally(s0.workers, Lagging, s0)
  }

  lemma FinishLooksUp(s0: State, s: State, w: nat)
    requires LookedUpSince(s0, s) && Enabled(s, WorkFinish(w))
    ensures LookedUpSince(s0, WorkStep(s, WorkFinish(w)))
  {
    var Dispatching(ev, hs, _) := s.workers[w];
    TallyUpdate(s.workers, w, Idle, Lagging, s0);
    TallySnoc(s.handled[|s0.handled|..], Handled(ev, hs), Outdated, s0);
    assert (s.handled + [Handled(ev, hs)])[|s0.handled|..] == s.handled[|s0.handled|..] + [Handled(ev, hs)];
  }

  lemma WorkLooksUp(s0: State, s: State, a: Action)
    requires LookedUpSince(s0, s) && Enabled(s, a)
    requires a.WorkRead? || a.WorkReceive? || a.WorkLookup? || a.WorkCall?
    ensures LookedUpSince(s0, WorkStep(s, a))
  {
    var t := WorkStep(s, a);
    TallyUpdate(s.workers, a.w, t.workers[a.w], Lagging, s0);
    assert Lagging(t.workers[a.w], s0) == Lagging(s.workers[a.w], s0);
  }

  lemma StepLooksUp(s0: State, s: State, a: Action)
    requires LookedUpSince(s0, s) && Enabled(s, a)
    ensures LookedUpSince(s0, Step(s, a))
  {
    if a.WorkFinish? {
      FinishLooksUp(s0, s, a.w);
    } else if a.WorkRead? || a.WorkReceive? || a.WorkLookup? || a.WorkCall? {
      WorkLooksUp(s0, s, a);
    }
  }

  lemma {:induction false} RunLooksUp(s0: State, s: State, schedule: seq<Action>)
    requires LookedUpSince(s0, s) && Runs(s, schedule)
    ensures LookedUpSince(s0, Run(s, schedule))
    decreases schedule
  {
    if schedule != [] {
      StepLooksUp(s0, s, schedule[0]);
      RunLooksUp(s0, Step(s, schedule[0]), schedule[1..]);
    }
  }

  lemma StartsLookedUp(s0: State)
    ensures LookedUpSince(s0, s0)
  {
    assert s0.handled[|s0.handled|..] == [];
  }

  /** Whatever moment of a run is taken, and however the run goes on: the events handled from then on are handled
      with lists that begin with the handlers registered at that moment, in registration order, except for exactly
      those that a worker was handling at that moment with an older list. */
  lemma {:induction false} RegisteredHandlersAreCalled(before: seq<Action>, after: seq<Action>)
    requires Runs(NewRegistry(), before) && Runs(Run(NewRegistry(), before), after)
    ensures var s0 := Run(NewRegistry(), before);
            var t := Run(s0, after);
            && s0.handled <= t.handled
            && Tally(t.handled[|s0.handled|..], Outdated, s0) + Tally(t.workers, Lagging, s0)
               == Tally(s0.workers, Lagging, s0) <= |s0.workers| == 4
  {
    var s0 := Run(NewRegistry(), before);
    StartsLookedUp(s0);
    RunLooksUp(s0, s0, after);
    WorkersStay(NewRegistry(), before);
    LaggingAtMost(s0.workers, s0);
  }

  lemma {:induction false} WorkersStay(s: State, schedule: seq<Action>)
    requires Runs(s, schedule)
    ensures |Run(s, schedule).workers| == |s.workers|
    decreases schedule
  {
    if schedule != [] {
      WorkersStay(Step(s, schedule[0]), schedule[1..]);
    }
  }

  lemma {:induction false} LaggingAtMost(workers: seq<Worker>, s0: State)
    ensures Tally(workers, Lagging, s0) <= |workers|
  {
    if workers != [] {
      LaggingAtMost(workers[..|workers| - 1], s0);
    }
  }

  lemma NoExceptionSince(s0: State, t: State)
    requires LookedUpSince(s0, t) && forall w :: w in s0.workers ==> !w.Dispatching?
    ensures forall k :: |s0.handled| <= k < |t.handled| ==> HandlersOf(s0, t.handled[k].ev.name) <= t.handled[k].hs
  {
    TallyZero(s0.workers, Lagging, s0);
    var since := t.handled[|s0.handled|..];
    forall k | |s0.handled| <= k < |t.handled|
      ensures HandlersOf(s0, t.handled[k].ev.name) <= t.handled[k].hs
    {
      assert since[k - |s0.handled|] == t.handled[k];
      TallyAt(since, k - |s0.handled|, Outdated, s0);
    }
  }

  /** Where no worker is calling handlers, there is no exception. */
  lemma {:induction false} NoneLagging(before: seq<Action>, after: seq<Action>)
    requires Runs(NewRegistry(), before) && Runs(Run(NewRegistry(), before), after)
    ensures var s0 := Run(NewRegistry(), before);
            var t := Run(s0, after);
            (forall w :: w in s0.workers ==> !w.Dispatching?) ==>
              forall k :: |s0.handled| <= k < |t.handled| ==> HandlersOf(s0, t.handled[k].ev.name) <= t.handled[k].hs
  {
    var s0 := Run(NewRegistry(), before);
    StartsLookedUp(s0);
    RunLooksUp(s0, s0, after);
    if forall w :: w in s0.workers ==> !w.Dispatching? {
      NoExceptionSince(s0, Run(s0, after));
    }
  }

  // ---------- What the schedule says ----------

  /** The handlers a schedule registers for a name, in order. */
  function Registered(schedule: seq<Action>, name: string): seq<Handler> {
    if schedule == [] then []
    else
      var n := |schedule| - 1;
      Registered(schedule[..n], name) + match schedule[n] {
        case Register(other, h) => if other == name then [h] else []
        case _ => []
      }
  }

  /** How often a schedule grows the channel. */
  function Grown(schedule: seq<Action>): nat {
    if schedule == [] then 0
    else Grown(schedule[..|schedule| - 1]) + One(schedule[|schedule| - 1].Grow?)
  }

  lemma {:induction false} RunSnoc(s: State, schedule: seq<Action>)
    requires Runs(s, schedule) && schedule != []
    ensures var n := |schedule| - 1;
            Runs(s, schedule[..n]) && Enabled(Run(s, schedule[..n]), schedule[n]) &&
            Run(s, schedule) == Step(Run(s, schedule[..n]), schedule[n])
    decreases schedule
  {
    var n := |schedule| - 1;
    if n > 0 {
      RunSnoc(Step(s, schedule[0]), schedule[1..]);
      assert schedule[1..][..n - 1] == schedule[..n][1..];
    } else {
      assert schedule[1..] == [];
    }
  }

  lemma {:induction false} RunPrefix(s: State, schedule: seq<Action>, i: nat)
    requires Runs(s, schedule) && i <= |schedule|
    ensures Runs(s, schedule[..i])
    decreases |schedule|
  {
    if i < |schedule| {
      RunSnoc(s, schedule);
      RunPrefix(s, schedule[..|schedule| - 1], i);
      assert schedule[..|schedule| - 1][..i] == schedule[..i];
    } else {
      assert schedule[..i] == schedule;
    }
  }

  /** The handlers of a name are those registered for it so far, in order, whatever else happened. */
  lemma {:induction false} HandlersAreRegistered(schedule: seq<Action>, name: string)
    requires Runs(NewRegistry(), schedule)
    ensures HandlersOf(Run(NewRegistry(), schedule), name) == Registered(schedule, name)
  {
    if schedule != [] {
      var n := |schedule| - 1;
      RunSnoc(NewRegistry(), schedule);
      HandlersAreRegistered(schedule[..n], name);
      StepHandlers(Run(NewRegistry(), schedule[..n]), schedule[n], name);
    }
  }

  lemma StepHandlers(s: State, a: Action, name: string)
    requires Enabled(s, a)
    ensures HandlersOf(Step(s, a), name) ==
              HandlersOf(s, name) + if a.Register? && a.name == name then [a.h] else []
  {
  }

  /** At some earlier point of the schedule a worker that had received the event looked up its handlers, and these are
      the handlers registered by then, neither fewer nor more. */
  ghost predicate LookedUp(schedule: seq<Action>, ev: Event, hs: seq<Handler>) {
    exists i: nat, w: nat :: LooksUpAt(schedule, i, w, ev) && hs == Registered(schedule[..i], ev.name)
  }

  ghost predicate LooksUpAt(schedule: seq<Action>, i: nat, w: nat, ev: Event) {
    && i < |schedule| && schedule[i] == WorkLookup(w)
    && Runs(NewRegistry(), schedule[..i])
    && w < |Run(NewRegistry(), schedule[..i]).workers|
    && Run(NewRegistry(), schedule[..i]).workers[w] == Received(ev)
  }

  lemma StillLookedUp(schedule: seq<Action>, ev: Event, hs: seq<Handler>)
    requires schedule != [] && LookedUp(schedule[..|schedule| - 1], ev, hs)
    ensures LookedUp(schedule, ev, hs)
  {
    var shorter := schedule[..|schedule| - 1];
    var i: nat, w: nat :| LooksUpAt(shorter, i, w, ev) && hs == Registered(shorter[..i], ev.name);
    assert shorter[..i] == schedule[..i];
    assert LooksUpAt(schedule, i, w, ev);
  }

  lemma {:induction false} LookupNow(schedule: seq<Action>, w: nat)
    requires schedule != [] && Runs(NewRegistry(), schedule) && schedule[|schedule| - 1] == WorkLookup(w)
    ensures var t := Run(NewRegistry(), schedule);
            w < |t.workers| && t.workers[w].Dispatching? && LookedUp(schedule, t.workers[w].ev, t.workers[w].hs)
  {
    var n := |schedule| - 1;
    RunSnoc(NewRegistry(), schedule);
    var s := Run(NewRegistry(), schedule[..n]);
    HandlersAreRegistered(schedule[..n], s.workers[w].ev.name);
    assert LooksUpAt(schedule, n, w, s.workers[w].ev);
  }

  ghost predicate AllLookedUp(schedule: seq<Action>)
    requires Runs(NewRegistry(), schedule)
  {
    var t := Run(NewRegistry(), schedule);
    && (forall w :: 0 <= w < |t.workers| && t.workers[w].Dispatching? ==>
          LookedUp(schedule, t.workers[w].ev, t.workers[w].hs))
    && (forall k :: 0 <= k < |t.handled| ==> LookedUp(schedule, t.handled[k].ev, t.handled[k].hs))
  }

  /** What an action leaves of the dispatching workers and adds to the handled events. */
  lemma StepDispatches(s: State, a: Action)
    requires Enabled(s, a)
    ensures var t := Step(s, a);
            && |t.workers| == |s.workers|
            && (forall w :: 0 <= w < |t.workers| && t.workers[w].Dispatching? && a != WorkLookup(w) ==>
                  s.workers[w].Dispatching? && s.workers[w].ev == t.workers[w].ev && s.workers[w].hs == t.workers[w].hs)
            && (t.handled == s.handled ||
                (a.WorkFinish? && t.handled == s.handled + [Handled(s.workers[a.w].ev, s.workers[a.w].hs)]))
  {
  }

  /** In every run each event is handled, and being handled, with exactly the handlers that were registered for its
      name when it was looked up, in registration order. */
  lemma {:induction false} HandledAsRegistered(schedule: seq<Action>)
    requires Runs(NewRegistry(), schedule)
    ensures AllLookedUp(schedule)
  {
    if schedule != [] {
      var n := |schedule| - 1;
      RunSnoc(NewRegistry(), schedule);
      HandledAsRegistered(schedule[..n]);
      var s, t := Run(NewRegistry(), schedule[..n]), Run(NewRegistry(), schedule);
      StepDispatches(s, schedule[n]);
      forall w | 0 <= w < |t.workers| && t.workers[w].Dispatching?
        ensures LookedUp(schedule, t.workers[w].ev, t.workers[w].hs)
      {
        if schedule[n] == WorkLookup(w) {
          LookupNow(schedule, w);
        } else {
          StillLookedUp(schedule, s.workers[w].ev, s.workers[w].hs);
        }
      }
      forall k | 0 <= k < |t.handled|
        ensures LookedUp(schedule, t.handled[k].ev, t.handled[k].hs)
      {
        if k < |s.handled| {
          StillLookedUp(schedule, s.handled[k].ev, s.handled[k].hs);
        } else {
          StillLookedUp(schedule, s.workers[schedule[n].w].ev, s.workers[schedule[n].w].hs);
        }
      }
    }
  }

  // ---------- Which channel is read ----------

  /** Some action of that kind read the channel c while it was the newest, that is, after c growths. */
  ghost predicate ReadAt(schedule: seq<Action>, a: Action, c: nat) {
    exists i :: 0 <= i < |schedule| && schedule[i] == a && Grown(schedule[..i]) == c
  }

  /** Whoever holds a channel read it when it was the newest. */
  ghost predicate AllRead(schedule: seq<Action>, t: State) {
    && t.current == Grown(schedule) && |t.channels| == Grown(schedule) + 1
    && (forall p :: 0 <= p < |t.pushes| && t.pushes[p].Trying? ==>
          ReadAt(schedule, CallPush(t.pushes[p].ev), t.pushes[p].ch))
    && (forall d :: 0 <= d < |t.drainers| && t.drainers[d].target.Some? ==>
          ReadAt(schedule, DrainRead(d), t.drainers[d].target.value))
    && (forall w :: 0 <= w < |t.workers| && t.workers[w].Receiving? ==>
          ReadAt(schedule, WorkRead(w), t.workers[w].ch))
  }

  lemma StillRead(schedule: seq<Action>, a: Action, c: nat)
    requires schedule != [] && ReadAt(schedule[..|schedule| - 1], a, c)
    ensures ReadAt(schedule, a, c)
  {
    var n := |schedule| - 1;
    var i :| 0 <= i < n && schedule[..n][i] == a && Grown(schedule[..n][..i]) == c;
    assert schedule[..n][..i] == schedule[..i];
    assert schedule[i] == a;
  }

  lemma StepReadsPush(s: State, a: Action)
    requires Enabled(s, a) && |s.channels| == s.current + 1
    ensures var t := Step(s, a);
            && t.current == s.current + One(a.Grow?) && |t.channels| == t.current + 1
            && (forall p :: 0 <= p < |t.pushes| && t.pushes[p].Trying? ==>
                  (p < |s.pushes| && s.pushes[p] == t.pushes[p]) ||
                  (a == CallPush(t.pushes[p].ev) && t.pushes[p].ch == s.current))
  {
  }

  lemma StepReadsDrain(s: State, a: Action)
    requires Enabled(s, a)
    ensures var t := Step(s, a);
            forall d :: 0 <= d < |t.drainers| && t.drainers[d].target.Some? ==>
              (d < |s.drainers| && s.drainers[d].target == t.drainers[d].target) ||
              (a == DrainRead(d) && t.drainers[d].target.value == s.current)
  {
  }

  lemma StepReadsWork(s: State, a: Action)
    requires Enabled(s, a)
    ensures var t := Step(s, a);
            forall w :: 0 <= w < |t.workers| && t.workers[w].Receiving? ==>
              (w < |s.workers| && s.workers[w] == t.workers[w]) ||
              (a == WorkRead(w) && t.workers[w].ch == s.current)
  {
  }

  /** In every run each push, drainer and worker uses the channel that was the newest when it read the field. */
  lemma {:induction false} ReadsAreCurrent(schedule: seq<Action>)
    requires Runs(NewRegistry(), schedule)
    ensures AllRead(schedule, Run(NewRegistry(), schedule))
  {
    if schedule != [] {
      var n := |schedule| - 1;
      var a := schedule[n];
      RunSnoc(NewRegistry(), schedule);
      ReadsAreCurrent(schedule[..n]);
      var s, t := Run(NewRegistry(), schedule[..n]), Run(NewRegistry(), schedule);
      StepReadsPush(s, a);
      StepReadsDrain(s, a);
      StepReadsWork(s, a);
      forall p | 0 <= p < |t.pushes| && t.pushes[p].Trying?
        ensures ReadAt(schedule, CallPush(t.pushes[p].ev), t.pushes[p].ch)
      {
        if p < |s.pushes| && s.pushes[p] == t.pushes[p] {
          StillRead(schedule, CallPush(t.pushes[p].ev), t.pushes[p].ch);
        }
      }
      forall d | 0 <= d < |t.drainers| && t.drainers[d].target.Some?
        ensures ReadAt(schedule, DrainRead(d), t.drainers[d].target.value)
      {
        if d < |s.drainers| && s.drainers[d].target == t.drainers[d].target {
          StillRead(schedule, DrainRead(d), t.drainers[d].target.value);
        }
      }
      forall w | 0 <= w < |t.workers| && t.workers[w].Receiving?
        ensures ReadAt(schedule, WorkRead(w), t.workers[w].ch)
      {
        if w < |s.workers| && s.workers[w] == t.workers[w] {
          StillRead(schedule, WorkRead(w), t.workers[w].ch);
        }
      }
    }
  }

  // ---------- When the channel grows ----------

  /** Push p, under the mutex, found channel c full while it was the newest. */
  ghost predicate SeenFull(schedule: seq<Action>, p: nat, c: nat) {
    exists i: nat :: FoundFullAt(schedule, i, p, c)
  }

  ghost predicate FoundFullAt(schedule: seq<Action>, i: nat, p: nat, c: nat) {
    && i < |schedule| && schedule[i] == RetryFail(p) && Runs(NewRegistry(), schedule[..i])
    && var s := Run(NewRegistry(), schedule[..i]);
       s.mutex == Some(p) && s.current == c < |s.channels| && |s.channels[c].buffer| == s.channels[c].capacity
  }

  lemma StillSeenFull(schedule: seq<Action>, p: nat, c: nat)
    requires schedule != [] && SeenFull(schedule[..|schedule| - 1], p, c)
    ensures SeenFull(schedule, p, c)
  {
    var shorter := schedule[..|schedule| - 1];
    var i: nat :| FoundFullAt(shorter, i, p, c);
    assert shorter[..i] == schedule[..i];
    assert FoundFullAt(schedule, i, p, c);
  }

  /** While a push is about to grow the channel, nobody else replaces it. */
  lemma GrowingKeepsCurrent(s: State, a: Action, p: nat)
    requires PushShape(s.pushes, s.mutex, s.current) && Enabled(s, a) && p < |Step(s, a).pushes|
    requires Step(s, a).pushes[p].Growing? && a != RetryFail(p)
    ensures p < |s.pushes| && s.pushes[p].Growing? && Step(s, a).current == s.current
  {
  }

  /** In every run a channel is only replaced after the replacing push saw that very channel full. */
  lemma {:induction false} GrowsOnlyWhenFull(schedule: seq<Action>)
    requires Runs(NewRegistry(), schedule)
    ensures var t := Run(NewRegistry(), schedule);
            forall p :: 0 <= p < |t.pushes| && t.pushes[p].Growing? ==> SeenFull(schedule, p, t.current)
  {
    if schedule != [] {
      var n := |schedule| - 1;
      var a := schedule[n];
      RunSnoc(NewRegistry(), schedule);
      GrowsOnlyWhenFull(schedule[..n]);
      InitInv();
      RunInv(NewRegistry(), schedule[..n]);
      var s, t := Run(NewRegistry(), schedule[..n]), Run(NewRegistry(), schedule);
      forall p | 0 <= p < |t.pushes| && t.pushes[p].Growing?
        ensures SeenFull(schedule, p, t.current)
      {
        if a == RetryFail(p) {
          assert FoundFullAt(schedule, n, p, t.current);
        } else {
          GrowingKeepsCurrent(s, a, p);
          StillSeenFull(schedule, p, t.current);
        }
      }
    }
  }

  /** Push p found the channel it had read full. */
  ghost predicate TriedFull(schedule: seq<Action>, p: nat) {
    exists i: nat :: FailedAt(schedule, i, p)
  }

  ghost predicate FailedAt(schedule: seq<Action>, i: nat, p: nat) {
    && i < |schedule| && schedule[i] == TryFail(p) && Runs(NewRegistry(), schedule[..i])
    && var s := Run(NewRegistry(), schedule[..i]);
       p < |s.pushes| && s.pushes[p].Trying? && s.pushes[p].ch < |s.channels| &&
       |s.channels[s.pushes[p].ch].buffer| == s.channels[s.pushes[p].ch].capacity
  }

  lemma StillTriedFull(schedule: seq<Action>, p: nat)
    requires schedule != [] && TriedFull(schedule[..|schedule| - 1], p)
    ensures TriedFull(schedule, p)
  {
    var shorter := schedule[..|schedule| - 1];
    var i: nat :| FailedAt(shorter, i, p);
    assert shorter[..i] == schedule[..i];
    assert FailedAt(schedule, i, p);
  }

  predicate PastFirstTry(p: Push) {
    p.Waiting? || p.Retrying? || p.Growing?
  }

  lemma OnlyTryFailPasses(s: State, a: Action, p: nat)
    requires Enabled(s, a) && p < |Step(s, a).pushes| && PastFirstTry(Step(s, a).pushes[p]) && a != TryFail(p)
    ensures p < |s.pushes| && PastFirstTry(s.pushes[p])
  {
  }

  /** In every run a push goes for the mutex only after it found the channel it had read full. */
  lemma {:induction false} WaitsOnlyWhenFull(schedule: seq<Action>)
    requires Runs(NewRegistry(), schedule)
    ensures var t := Run(NewRegistry(), schedule);
            forall p :: 0 <= p < |t.pushes| && PastFirstTry(t.pushes[p]) ==> TriedFull(schedule, p)
  {
    if schedule != [] {
      var n := |schedule| - 1;
      RunSnoc(NewRegistry(), schedule);
      WaitsOnlyWhenFull(schedule[..n]);
      InitInv();
      RunInv(NewRegistry(), schedule[..n]);
      var s, t := Run(NewRegistry(), schedule[..n]), Run(NewRegistry(), schedule);
      forall p | 0 <= p < |t.pushes| && PastFirstTry(t.pushes[p])
        ensures TriedFull(schedule, p)
      {
        if schedule[n] == TryFail(p) {
          assert FailedAt(schedule, n, p);
        } else {
          OnlyTryFailPasses(s, schedule[n], p);
          StillTriedFull(schedule, p);
        }
      }
    }
  }

  // ---------- First in, first out ----------

  /** The event an action puts into channel c. */
  function Put(s: State, a: Action, c: nat): seq<Event>
    requires Enabled(s, a)
  {
    match a
    case TrySend(p) => if s.pushes[p].ch == c then [s.pushes[p].ev] else []
    case RetrySend(p) => if s.current == c then [s.pushes[p].ev] else []
    case Grow(p) => if |s.channels| == c then [s.pushes[p].ev] else []
    case DrainSend(d) => if s.drainers[d].target.value == c then [s.drainers[d].held.value] else []
    case _ => []
  }

  /** The event somebody has in hand after an action that receives from channel c. */
  function Got(s: State, a: Action, c: nat): seq<Event>
    requires Enabled(s, a)
  {
    var t := Step(s, a);
    match a
    case DrainReceive(d) =>
      if s.drainers[d].source == c && d < |t.drainers| && t.drainers[d].held.Some? then [t.drainers[d].held.value]
      else []
    case WorkReceive(w) =>
      if s.workers[w].ch == c && w < |t.workers| && t.workers[w].Received? then [t.workers[w].ev] else []
    case _ => []
  }

  /** All that is put into channel c in a run, in order, and all that is received from it. */
  function PutInto(s: State, schedule: seq<Action>, c: nat): seq<Event>
    requires Runs(s, schedule)
    decreases schedule
  {
    if schedule == [] then []
    else Put(s, schedule[0], c) + PutInto(Step(s, schedule[0]), schedule[1..], c)
  }

  function GotFrom(s: State, schedule: seq<Action>, c: nat): seq<Event>
    requires Runs(s, schedule)
    decreases schedule
  {
    if schedule == [] then []
    else Got(s, schedule[0], c) + GotFrom(Step(s, schedule[0]), schedule[1..], c)
  }

  function BufferOf(s: State, c: nat): seq<Event> {
    if c < |s.channels| then s.channels[c].buffer else []
  }

  lemma ReceiveIsFifo(s: State, a: Action, c: nat)
    requires Enabled(s, a) && (a.DrainReceive? || a.WorkReceive?)
    ensures BufferOf(s, c) + Put(s, a, c) == Got(s, a, c) + BufferOf(Step(s, a), c)
  {
    var source := if a.DrainReceive? then s.drainers[a.d].source else s.workers[a.w].ch;
    if source == c {
      assert BufferOf(s, c) == [BufferOf(s, c)[0]] + BufferOf(s, c)[1..];
    }
  }

  lemma StepIsFifo(s: State, a: Action, c: nat)
    requires Enabled(s, a)
    ensures BufferOf(s, c) + Put(s, a, c) == Got(s, a, c) + BufferOf(Step(s, a), c)
  {
    if a.DrainReceive? || a.WorkReceive? {
      ReceiveIsFifo(s, a, c);
    }
  }

  lemma Shift(before: seq<Event>, put: seq<Event>, got: seq<Event>, between: seq<Event>,
              moreGot: seq<Event>, morePut: seq<Event>, after: seq<Event>)
    requires before + put == got + between && between + morePut == moreGot + after
    ensures before + (put + morePut) == (got + moreGot) + after
  {
    assert before + (put + morePut) == (before + put) + morePut;
    assert (got + between) + morePut == got + (between + morePut);
    assert got + (moreGot + after) == (got + moreGot) + after;
  }

  lemma {:induction false} RunIsFifo(s: State, schedule: seq<Action>, c: nat)
    requires Runs(s, schedule)
    ensures BufferOf(s, c) + PutInto(s, schedule, c) == GotFrom(s, schedule, c) + BufferOf(Run(s, schedule), c)
    decreases schedule
  {
    if schedule != [] {
      var a, t := schedule[0], Step(s, schedule[0]);
      StepIsFifo(s, a, c);
      RunIsFifo(t, schedule[1..], c);
      Shift(BufferOf(s, c), Put(s, a, c), Got(s, a, c), BufferOf(t, c),
            GotFrom(t, schedule[1..], c), PutInto(t, schedule[1..], c), BufferOf(Run(s, schedule), c));
    }
  }

  /** What is received from a channel comes in the order in which it was put in; the rest is still in the buffer. */
  lemma {:induction false} ChannelsAreFifo(schedule: seq<Action>, c: nat)
    requires Runs(NewRegistry(), schedule)
    ensures PutInto(NewRegistry(), schedule, c) ==
              GotFrom(NewRegistry(), schedule, c) + BufferOf(Run(NewRegistry(), schedule), c)
  {
    RunIsFifo(NewRegistry(), schedule, c);
    assert BufferOf(NewRegistry(), c) == [];
    assert [] + PutInto(NewRegistry(), schedule, c) == PutInto(NewRegistry(), schedule, c);
  }
}
