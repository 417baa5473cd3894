/**
 What invalidating a cached answer achieves: when the calls begun afterwards only get answers of executions that were
 begun afterwards too. An execution is begun when a call enters the single flight as its leader.
 */
module CacheFreshness {
  import opened Common
  import opened CachedCalls

  /** Call c was running the function in state s0 already. */
  predicate LedAt(s0: State, c: nat) {
    c < |s0.calls| && s0.calls[c].pc.Leading?
  }

  /** What an action adds to the answers of executions begun after s0. */
  function NewAnswer(s0: State, s: State, a: Action): set<(CallId, Value)> {
    if a.Execute? && a.r.Some? && a.c < |s.calls| && !LedAt(s0, a.c) then {(s.calls[a.c].id, a.r.value)} else {}
  }

  function FreshAnswers(cfg: Config, s0: State, s: State, schedule: seq<Action>): set<(CallId, Value)>
    requires Runs(cfg, s, schedule)
    decreases schedule
  {
    if schedule == [] then {}
    else NewAnswer(s0, s, schedule[0]) + FreshAnswers(cfg, s0, Step(cfg, s, schedule[0]), schedule[1..])
  }

  /** However the run goes on from s0, every value that a later begun call for the key returns is an answer of an
      execution begun after s0. */
  ghost predicate OnlyFresh(cfg: Config, s0: State, key: Key) {
    forall schedule, i: nat :: Runs(cfg, s0, schedule) && ReturnsValue(cfg, s0, Run(cfg, s0, schedule), key, i) ==>
      var c := Run(cfg, s0, schedule).calls[i];
      (c.id, c.pc.r.value) in FreshAnswers(cfg, s0, s0, schedule)
  }

  /** Call i for the key was begun after s0 and has returned a value. */
  predicate ReturnsValue(cfg: Config, s0: State, s: State, key: Key, i: nat) {
    |s0.calls| <= i < |s.calls| && cfg.keyOf(s.calls[i].id) == key && s.calls[i].pc.Returned? && s.calls[i].pc.r.Some?
  }

  /** A flight in this phase can still end with a value. */
  predicate CanDeliver(cfg: Config, phase: Phase) {
    match phase
    case Executing => true
    case Storing(v) => cfg.encode(v).Some?
    case Finishing(r) => r.Some?
  }

  // ---------- Nothing stale without such a flight ----------

  ghost predicate FlightFresh(cfg: Config, s0: State, s: State, key: Key, f: Flight, since: set<(CallId, Value)>) {
    CanDeliver(cfg, f.phase) ==>
      && f.leader < |s.calls| && cfg.keyOf(s.calls[f.leader].id) == key && !LedAt(s0, f.leader)
      && (InFlight(f.phase).Some? ==> (s.calls[f.leader].id, InFlight(f.phase).value) in since)
  }

  ghost predicate CallFresh(c: Call, since: set<(CallId, Value)>) {
    InHand(c.pc).Some? ==> (c.id, InHand(c.pc).value) in since
  }

  /** Leaders of s0 have at most returned since. */
  ghost predicate LeadersDone(s0: State, s: State) {
    && |s0.calls| <= |s.calls|
    && (forall i :: 0 <= i < |s0.calls| && s0.calls[i].pc.Leading? ==>
          s.calls[i].pc.Leading? || s.calls[i].pc.Returned?)
  }

  ghost predicate Fresh(cfg: Config, s0: State, s: State, key: Key, since: set<(CallId, Value)>) {
    && LeadersDone(s0, s)
    && (key in s.store ==> FromAnswer(cfg, since, key, s.store[key]))
    && (key in s.flights ==> FlightFresh(cfg, s0, s, key, s.flights[key], since))
    && (forall i :: |s0.calls| <= i < |s.calls| && cfg.keyOf(s.calls[i].id) == key ==> CallFresh(s.calls[i], since))
  }

  /** One call moves on, the entry is kept or dropped, and the key's flight stays as it is. */
  lemma MoveFresh(cfg: Config, s0: State, s: State, key: Key, since: set<(CallId, Value)>, c: nat, call: Call, t: State)
    requires Fresh(cfg, s0, s, key, since) && c < |s.calls| && t.calls == s.calls[c := call]
    requires call.id == s.calls[c].id && (c >= |s0.calls| && cfg.keyOf(call.id) == key ==> CallFresh(call, since))
    requires s.calls[c].pc.Leading? || s.calls[c].pc.Returned? ==> call.pc == s.calls[c].pc
    requires key in t.store ==> key in s.store && t.store[key] == s.store[key]
    requires key in t.flights ==> key in s.flights && t.flights[key] == s.flights[key]
    ensures Fresh(cfg, s0, t, key, since)
  {
  }

  lemma AddFresh(cfg: Config, s0: State, s: State, key: Key, since: set<(CallId, Value)>, call: Call, t: State)
    requires Fresh(cfg, s0, s, key, since) && InHand(call.pc).None? && t.calls == s.calls + [call]
    requires t.store == s.store && t.flights == s.flights
    ensures Fresh(cfg, s0, t, key, since)
  {
  }

  lemma FoundIsFresh(cfg: Config, since: set<(CallId, Value)>, key: Key, e: Encoded, id: CallId)
    requires Faithful(cfg) && FromAnswer(cfg, since, key, e) && cfg.keyOf(id) == key
    ensures cfg.decode(e).Some? && (id, cfg.decode(e).value) in since
  {
    var id', v :| (id', v) in since && cfg.keyOf(id') == key && cfg.encode(v) == Some(e);
  }

  lemma LookupFresh(cfg: Config, s0: State, s: State, key: Key, since: set<(CallId, Value)>, a: Action)
    requires Faithful(cfg) && Fresh(cfg, s0, s, key, since) && Enabled(cfg, s, a) && MovesOneCall(a)
    ensures Fresh(cfg, s0, Step(cfg, s, a), key, since)
  {
    var t := Step(cfg, s, a);
    var id := s.calls[a.c].id;
    if cfg.keyOf(id) == key {
      assert a.c >= |s0.calls| ==> CallFresh(s.calls[a.c], since);
      if a.Get? && key in s.store {
        FoundIsFresh(cfg, since, key, s.store[key], id);
      }
    }
    assert t.calls == s.calls[a.c := t.calls[a.c]];
    MoveFresh(cfg, s0, s, key, since, a.c, t.calls[a.c], t);
  }

  lemma LaunchFresh(cfg: Config, s0: State, s: State, key: Key, since: set<(CallId, Value)>, c: nat, allowed: bool)
    requires Fresh(cfg, s0, s, key, since) && c < |s.calls| && s.calls[c].pc.Counted?
    ensures Fresh(cfg, s0, LaunchStep(cfg, s, c, allowed), key, since)
  {
    var t := LaunchStep(cfg, s, c, allowed);
    var moved := Move(s, c, Returned(Some(s.calls[c].pc.v)));
    assert c >= |s0.calls| && cfg.keyOf(s.calls[c].id) == key ==> CallFresh(s.calls[c], since);
    MoveFresh(cfg, s0, s, key, since, c, moved.calls[c], moved);
    if |t.calls| > |s.calls| {
      AddFresh(cfg, s0, moved, key, since, t.calls[|s.calls|], t);
    } else {
      MoveFresh(cfg, s0, s, key, since, c, moved.calls[c], t);
    }
  }

  lemma EnterFresh(cfg: Config, s0: State, s: State, key: Key, since: set<(CallId, Value)>, c: nat)
    requires Fresh(cfg, s0, s, key, since) && Enabled(cfg, s, Enter(c))
    ensures Fresh(cfg, s0, Step(cfg, s, Enter(c)), key, since)
  {
    var t := Step(cfg, s, Enter(c));
    var moved := Move(s, c, t.calls[c].pc);
    MoveFresh(cfg, s0, s, key, since, c, moved.calls[c], moved);
    assert !LedAt(s0, c);
  }

  lemma FlightStaysFresh(cfg: Config, s0: State, s: State, key: Key, since: set<(CallId, Value)>, a: Action)
    requires Faithful(cfg) && Fresh(cfg, s0, s, key, since) && Enabled(cfg, s, a) && (a.Execute? || a.Store?)
    ensures Fresh(cfg, s0, Step(cfg, s, a), key, since + NewAnswer(s0, s, a))
  {
    var t, more := Step(cfg, s, a), since + NewAnswer(s0, s, a);
    if key in t.store && key in s.store && t.store[key] == s.store[key] {
      var id, v :| (id, v) in since && cfg.keyOf(id) == key && cfg.encode(v) == Some(s.store[key]);
      assert (id, v) in more;
    } else if key in t.store {
      assert cfg.keyOf(s.calls[a.c].id) == key;
      assert (s.calls[a.c].id, s.flights[key].phase.v) in more;
    }
    forall i | |s0.calls| <= i < |t.calls| && cfg.keyOf(t.calls[i].id) == key
      ensures CallFresh(t.calls[i], more)
    {
      assert CallFresh(s.calls[i], since);
    }
  }

  lemma FinishFresh(cfg: Config, s0: State, s: State, key: Key, since: set<(CallId, Value)>, c: nat)
    requires Faithful(cfg) && Fresh(cfg, s0, s, key, since) && Enabled(cfg, s, Finish(c))
    ensures Fresh(cfg, s0, Step(cfg, s, Finish(c)), key, since)
  {
    var t := Step(cfg, s, Finish(c));
    forall i | |s0.calls| <= i < |t.calls| && cfg.keyOf(t.calls[i].id) == key
      ensures CallFresh(t.calls[i], since)
    {
      assert CallFresh(s.calls[i], since);
      assert cfg.keyOf(s.calls[c].id) == key ==> s.calls[c].id == s.calls[i].id;
    }
  }

  lemma StepFresh(cfg: Config, s0: State, s: State, key: Key, since: set<(CallId, Value)>, a: Action)
    requires Faithful(cfg) && Fresh(cfg, s0, s, key, since) && Enabled(cfg, s, a)
    ensures Fresh(cfg, s0, Step(cfg, s, a), key, since + NewAnswer(s0, s, a))
  {
    if a.Execute? || a.Store? {
      FlightStaysFresh(cfg, s0, s, key, since, a);
    } else {
      assert since + NewAnswer(s0, s, a) == since;
      match a
      case Begin(id) => AddFresh(cfg, s0, s, key, since, Call(id, false, NotCounted, Keyed, false), Step(cfg, s, a));
      case Launch(c, allowed) => LaunchFresh(cfg, s0, s, key, since, c, allowed);
      case Enter(c) => EnterFresh(cfg, s0, s, key, since, c);
      case Finish(c) => FinishFresh(cfg, s0, s, key, since, c);
      case Forget(_) => assert Step(cfg, s, a).calls == s.calls;
      case _ => LookupFresh(cfg, s0, s, key, since, a);
    }
  }

  lemma {:induction false} RunFresh(cfg: Config, s0: State, s: State, schedule: seq<Action>, key: Key,
                                    since: set<(CallId, Value)>)
    requires Faithful(cfg) && Fresh(cfg, s0, s, key, since) && Runs(cfg, s, schedule)
    ensures Fresh(cfg, s0, Run(cfg, s, schedule), key, since + FreshAnswers(cfg, s0, s, schedule))
    decreases schedule
  {
    if schedule == [] {
      assert since + {} == since;
    } else {
      var a := schedule[0];
      var t, more := Step(cfg, s, a), since + NewAnswer(s0, s, a);
      StepFresh(cfg, s0, s, key, since, a);
      RunFresh(cfg, s0, t, schedule[1..], key, more);
      assert more + FreshAnswers(cfg, s0, t, schedule[1..]) == since + FreshAnswers(cfg, s0, s, schedule);
    }
  }

  lemma NoFlightNoStale(cfg: Config, s0: State, key: Key)
    requires Faithful(cfg) && key !in s0.store
    requires key in s0.flights ==> !CanDeliver(cfg, s0.flights[key].phase)
    ensures OnlyFresh(cfg, s0, key)
  {
    forall schedule, i: nat | Runs(cfg, s0, schedule) && ReturnsValue(cfg, s0, Run(cfg, s0, schedule), key, i)
      ensures var c := Run(cfg, s0, schedule).calls[i];
              (c.id, c.pc.r.value) in FreshAnswers(cfg, s0, s0, schedule)
    {
      RunFresh(cfg, s0, s0, schedule, key, {});
      assert CallFresh(Run(cfg, s0, schedule).calls[i], {} + FreshAnswers(cfg, s0, s0, schedule));
      assert {} + FreshAnswers(cfg, s0, s0, schedule) == FreshAnswers(cfg, s0, s0, schedule);
    }
  }

  // ---------- Something stale with it ----------

  /** The flight is led by a call for its key. */
  predicate FlightLed(cfg: Config, s: State, key: Key, f: Flight) {
    f.leader < |s.calls| && s.calls[f.leader].pc.Leading? && cfg.keyOf(s.calls[f.leader].id) == key
  }

  ghost predicate FlightsLed(cfg: Config, s: State) {
    forall key :: key in s.flights ==> FlightLed(cfg, s, key, s.flights[key])
  }

  lemma {:induction false} RunFlightsLed(cfg: Config, s: State, schedule: seq<Action>)
    requires FlightsLed(cfg, s) && Runs(cfg, s, schedule)
    ensures FlightsLed(cfg, Run(cfg, s, schedule))
    decreases schedule
  {
    if schedule != [] {
      StepFlightsLed(cfg, s, schedule[0]);
      RunFlightsLed(cfg, Step(cfg, s, schedule[0]), schedule[1..]);
    }
  }

  lemma FinishFlightsLed(cfg: Config, s: State, c: nat)
    requires FlightsLed(cfg, s) && Enabled(cfg, s, Finish(c))
    ensures FlightsLed(cfg, Step(cfg, s, Finish(c)))
  {
    var t := Step(cfg, s, Finish(c));
    forall key | key in t.flights
      ensures FlightLed(cfg, t, key, t.flights[key])
    {
      assert FlightLed(cfg, s, key, s.flights[key]);
    }
  }

  /** Calls that lead go on leading for the same key. */
  ghost predicate LeadersStay(s: State, t: State) {
    && |s.calls| <= |t.calls|
    && (forall i :: 0 <= i < |s.calls| && s.calls[i].pc.Leading? ==>
          t.calls[i].pc.Leading? && t.calls[i].id == s.calls[i].id)
  }

  lemma StepLeadersStay(cfg: Config, s: State, a: Action)
    requires Enabled(cfg, s, a) && !a.Finish?
    ensures LeadersStay(s, Step(cfg, s, a))
  {
  }

  lemma StepFlightsLed(cfg: Config, s: State, a: Action)
    requires FlightsLed(cfg, s) && Enabled(cfg, s, a)
    ensures FlightsLed(cfg, Step(cfg, s, a))
  {
    if a.Finish? {
      FinishFlightsLed(cfg, s, a.c);
    } else {
      var t := Step(cfg, s, a);
      StepLeadersStay(cfg, s, a);
      forall key | key in t.flights
        ensures FlightLed(cfg, t, key, t.flights[key])
      {
        if key in s.flights && t.flights[key].leader == s.flights[key].leader {
          assert FlightLed(cfg, s, key, s.flights[key]);
        }
      }
    }
  }

  lemma {:induction false} OldExecutionsOnly(cfg: Config, s0: State, s: State, schedule: seq<Action>)
    requires Runs(cfg, s, schedule) && forall a :: a in schedule && a.Execute? ==> LedAt(s0, a.c)
    ensures FreshAnswers(cfg, s0, s, schedule) == {}
    decreases schedule
  {
    if schedule != [] {
      assert schedule[0] in schedule;
      OldExecutionsOnly(cfg, s0, Step(cfg, s, schedule[0]), schedule[1..]);
    }
  }

  /** A call for the key that begins now joins the flight. */
  lemma Join(cfg: Config, s0: State, key: Key) returns (schedule: seq<Action>)
    requires FlightsLed(cfg, s0) && key in s0.flights && key !in s0.store
    ensures Runs(cfg, s0, schedule) && forall a :: a in schedule ==> !a.Execute?
    ensures var l := s0.flights[key].leader;
            Run(cfg, s0, schedule) ==
              s0.(calls := s0.calls + [Call(s0.calls[l].id, false, Miss, Joined, false)], misses := s0.misses + 1)
  {
    var id, j := s0.calls[s0.flights[key].leader].id, |s0.calls|;
    var at := (pc: Pc, lookup: Lookup) => s0.calls + [Call(id, false, lookup, pc, false)];
    schedule := [];
    RunsSnoc(cfg, s0, schedule, Begin(id));
    schedule := schedule + [Begin(id)];
    assert Run(cfg, s0, schedule) == s0.(calls := at(Keyed, NotCounted));
    RunsSnoc(cfg, s0, schedule, Get(j));
    schedule := schedule + [Get(j)];
    assert Run(cfg, s0, schedule) == s0.(calls := at(FoundNothing, NotCounted));
    RunsSnoc(cfg, s0, schedule, CountMiss(j));
    schedule := schedule + [CountMiss(j)];
    assert Run(cfg, s0, schedule) == s0.(calls := at(Calling, Miss), misses := s0.misses + 1);
    RunsSnoc(cfg, s0, schedule, Enter(j));
    schedule := schedule + [Enter(j)];
  }

  function StepsToLand(phase: Phase): nat {
    match phase
    case Executing => 2
    case Storing(_) => 1
    case Finishing(_) => 0
  }

  /** From a flight that can deliver, the joined call gets a value without another execution being begun. */
  lemma LandFlight(cfg: Config, s: State, l: nat, j: nat, v: Value) returns (schedule: seq<Action>)
    requires LeadsIn(cfg, s, l) && j < |s.calls| && j != l && s.calls[j].pc.Joined?
    requires cfg.keyOf(s.calls[j].id) == cfg.keyOf(s.calls[l].id) && cfg.encode(v).Some?
    requires CanDeliver(cfg, s.flights[cfg.keyOf(s.calls[l].id)].phase)
    ensures Runs(cfg, s, schedule) && forall a :: a in schedule && a.Execute? ==> a.c == l
    ensures var t := Run(cfg, s, schedule);
            |t.calls| == |s.calls| && t.calls[j].id == s.calls[j].id && t.calls[j].pc.Returned? && t.calls[j].pc.r.Some?
    decreases StepsToLand(s.flights[cfg.keyOf(s.calls[l].id)].phase)
  {
    var a := match s.flights[cfg.keyOf(s.calls[l].id)].phase
      case Executing => Execute(l, Some(v))
      case Storing(_) => Store(l, true)
      case Finishing(_) => Finish(l);
    var t := Step(cfg, s, a);
    var rest := [];
    if !a.Finish? {
      rest := LandFlight(cfg, t, l, j, v);
    }
    schedule := [a] + rest;
    assert schedule[1..] == rest;
  }

  lemma FlightGoesStale(cfg: Config, s0: State, key: Key, v: Value)
    requires FlightsLed(cfg, s0) && key !in s0.store && key in s0.flights && cfg.encode(v).Some?
    requires CanDeliver(cfg, s0.flights[key].phase)
    ensures !OnlyFresh(cfg, s0, key)
  {
    var l, j := s0.flights[key].leader, |s0.calls|;
    var join := Join(cfg, s0, key);
    var landing := LandFlight(cfg, Run(cfg, s0, join), l, j, v);
    RunsConcat(cfg, s0, join, landing);
    var schedule := join + landing;
    forall a: Action | a in schedule && a.Execute?
      ensures LedAt(s0, a.c)
    {
      assert a in landing;
    }
    OldExecutionsOnly(cfg, s0, s0, schedule);
    assert ReturnsValue(cfg, s0, Run(cfg, s0, schedule), key, j);
  }

  /** After an invalidation in any reachable state, later calls only get answers of later executions iff at that
      moment no flight for the key can still deliver a value. */
  lemma {:induction false} InvalidationExactly(cfg: Config, before: seq<Action>, key: Key, v: Value)
    requires Faithful(cfg) && Runs(cfg, EMPTY, before) && cfg.encode(v).Some?
    ensures var s := Run(cfg, EMPTY, before);
            OnlyFresh(cfg, Step(cfg, s, Forget(key)), key) <==>
              !(key in s.flights && CanDeliver(cfg, s.flights[key].phase))
  {
    var s0 := Step(cfg, Run(cfg, EMPTY, before), Forget(key));
    RunFlightsLed(cfg, EMPTY, before);
    StepFlightsLed(cfg, Run(cfg, EMPTY, before), Forget(key));
    if key in s0.flights && CanDeliver(cfg, s0.flights[key].phase) {
      FlightGoesStale(cfg, s0, key, v);
    } else {
      NoFlightNoStale(cfg, s0, key);
    }
  }
}
