/**
 What becomes of one cached call: the refresh that a hit launches, the answer that it stores, and a call that nobody
 interferes with, compared with the program's own sequence of checks.
 */
module CacheRefreshes {
  import opened Common
  import opened CachedCalls

  // ---------- Launching ----------

  /** initConcurrentRefreshLimit: cache_base.go lines 54 to 60. */
  function LimitOf(maxDbConcurrentRefreshes: int): RefreshLimit {
    if maxDbConcurrentRefreshes > 0 then AtMost(maxDbConcurrentRefreshes)
    else if maxDbConcurrentRefreshes < 0 then Unlimited
    else NoRefresh
  }

  /** Everybody but call c is as before, and call c has returned the value it found. */
  predicate HitReturned(s: State, t: State, c: nat)
    requires c < |s.calls| && s.calls[c].pc.Counted?
  {
    && |s.calls| <= |t.calls|
    && (forall i :: 0 <= i < |s.calls| && i != c ==> t.calls[i] == s.calls[i])
    && t.calls[c] == s.calls[c].(pc := Returned(Some(s.calls[c].pc.v)))
    && t.store == s.store && t.flights == s.flights && t.hits == s.hits && t.misses == s.misses
  }

  /** An allowed launch starts one refresh of the very call that was hit iff the limit is negative, or positive and not
      reached; a refused one starts none but takes a token all the same. */
  lemma LaunchExactly(cfg: Config, maxDbConcurrentRefreshes: int, s: State, c: nat, allowed: bool)
    requires cfg.limit == LimitOf(maxDbConcurrentRefreshes) && Enabled(cfg, s, Launch(c, allowed))
    ensures var t := Step(cfg, s, Launch(c, allowed));
            var limited, free := maxDbConcurrentRefreshes > 0, s.tokens < maxDbConcurrentRefreshes;
            && HitReturned(s, t, c)
            && (if allowed && (maxDbConcurrentRefreshes < 0 || (limited && free)) then
                  && |t.calls| == |s.calls| + 1
                  && var refresh := t.calls[|s.calls|];
                     refresh.id == s.calls[c].id && refresh.background && refresh.pc == Calling &&
                     refresh.lookup == NotCounted && (refresh.holdsToken <==> limited)
                else |t.calls| == |s.calls|)
            && t.tokens == (if limited && free then s.tokens + 1 else s.tokens)
            && t.refused == (if limited && free && !allowed then s.refused + 1 else s.refused)
  {
  }

  // ---------- Giving tokens back ----------

  /** All refreshes have returned. */
  predicate RefreshesReturned(s: State) {
    forall c :: c in s.calls ==> (c.background ==> c.pc.Returned?)
  }

  lemma ReturnOne(cfg: Config, s: State, c: nat)
    requires TokensBalance(cfg, s) && RefreshesReturned(s) && c < |s.calls| && s.calls[c].holdsToken
    ensures Enabled(cfg, s, ReturnToken(c))
    ensures var t := Step(cfg, s, ReturnToken(c));
            && TokensBalance(cfg, t) && RefreshesReturned(t) && t.refused == s.refused
            && t.tokens == s.tokens - 1 && Tally(t.calls, Holding, ()) == Tally(s.calls, Holding, ()) - 1
  {
    assert s.calls[c] in s.calls;
    assert HoldsProperly(cfg, s.calls[c]);
    TallyAt(s.calls, c, Holding, ());
    StepBalance(cfg, s, ReturnToken(c));
    var call := s.calls[c].(holdsToken := false);
    TallyUpdate(s.calls, c, call, Holding, ());
    assert forall x :: x in s.calls[c := call] ==> x == call || x in s.calls;
  }

  /** Once all refreshes have returned they can give back all their tokens, one each, and none but those that the
      limiter refused stay taken. */
  lemma {:induction false} AllTokensComeBack(cfg: Config, s: State) returns (schedule: seq<Action>)
    requires TokensBalance(cfg, s) && RefreshesReturned(s)
    ensures Runs(cfg, s, schedule) && forall a :: a in schedule ==> a.ReturnToken?
    ensures |schedule| == Tally(s.calls, Holding, ()) == s.tokens - s.refused
    ensures Run(cfg, s, schedule).tokens == s.refused && Quiet(cfg, Run(cfg, s, schedule))
    decreases Tally(s.calls, Holding, ())
  {
    if forall c :: c in s.calls ==> !c.holdsToken {
      schedule := [];
      TallyZero(s.calls, Holding, ());
    } else {
      var call :| call in s.calls && call.holdsToken;
      var c :| 0 <= c < |s.calls| && s.calls[c] == call;
      ReturnOne(cfg, s, c);
      var rest := AllTokensComeBack(cfg, Step(cfg, s, ReturnToken(c)));
      schedule := [ReturnToken(c)] + rest;
      assert schedule[1..] == rest;
    }
  }

  // ---------- Whose refresh it is ----------

  /** Calls keep what they were begun with, and a counted hit stays one. */
  ghost predicate CallsStay(s: State, t: State) {
    && |s.calls| <= |t.calls|
    && (forall i :: 0 <= i < |s.calls| ==>
          && t.calls[i].id == s.calls[i].id && t.calls[i].background == s.calls[i].background
          && (s.calls[i].lookup.Hit? ==> t.calls[i].lookup.Hit?))
  }

  lemma StepCallsStay(cfg: Config, s: State, a: Action)
    requires Counts(s) && Enabled(cfg, s, a)
    ensures CallsStay(s, Step(cfg, s, a))
  {
    if a.CountMiss? || a.CountHit? {
      assert CountedOnce(s.calls[a.c]);
    }
  }

  lemma {:induction false} RunCallsStay(cfg: Config, s: State, schedule: seq<Action>)
    requires Counts(s) && Runs(cfg, s, schedule)
    ensures CallsStay(s, Run(cfg, s, schedule))
    decreases schedule
  {
    if schedule != [] {
      StepCallsStay(cfg, s, schedule[0]);
      StepCounts(cfg, s, schedule[0]);
      RunCallsStay(cfg, Step(cfg, s, schedule[0]), schedule[1..]);
    }
  }

  /** Call b is a refresh of an earlier call that was a hit. */
  ghost predicate FollowsHit(s: State, b: nat)
    requires b < |s.calls|
  {
    exists i :: 0 <= i < b && !s.calls[i].background && s.calls[i].lookup.Hit? && s.calls[i].id == s.calls[b].id
  }

  ghost predicate AllFollowHits(s: State) {
    forall b :: 0 <= b < |s.calls| && s.calls[b].background ==> FollowsHit(s, b)
  }

  lemma StepFollowsHits(cfg: Config, s: State, a: Action)
    requires Counts(s) && AllFollowHits(s) && Enabled(cfg, s, a)
    ensures AllFollowHits(Step(cfg, s, a))
  {
    var t := Step(cfg, s, a);
    StepCallsStay(cfg, s, a);
    forall b | 0 <= b < |t.calls| && t.calls[b].background
      ensures FollowsHit(t, b)
    {
      if b < |s.calls| {
        var i :| 0 <= i < b && !s.calls[i].background && s.calls[i].lookup.Hit? && s.calls[i].id == s.calls[b].id;
        assert t.calls[i].id == t.calls[b].id;
      } else {
        assert CountedOnce(s.calls[a.c]);
        assert !t.calls[a.c].background && t.calls[a.c].lookup.Hit? && t.calls[a.c].id == t.calls[b].id;
      }
    }
  }

  lemma {:induction false} RunFollowsHits(cfg: Config, s: State, schedule: seq<Action>)
    requires Counts(s) && AllFollowHits(s) && Runs(cfg, s, schedule)
    ensures AllFollowHits(Run(cfg, s, schedule))
    decreases schedule
  {
    if schedule != [] {
      StepFollowsHits(cfg, s, schedule[0]);
      StepCounts(cfg, s, schedule[0]);
      RunFollowsHits(cfg, Step(cfg, s, schedule[0]), schedule[1..]);
    }
  }

  /** In every run each refresh is for the function and arguments of an earlier call that was a hit. */
  lemma {:induction false} RefreshesFollowHits(cfg: Config, schedule: seq<Action>)
    requires Runs(cfg, EMPTY, schedule)
    ensures AllFollowHits(Run(cfg, EMPTY, schedule))
  {
    RunFollowsHits(cfg, EMPTY, schedule);
  }

  // ---------- What it stores ----------

  /** Call c has got v from the function and is about to store it. */
  predicate IsStoring(cfg: Config, s: State, c: nat, v: Value) {
    LeadsIn(cfg, s, c) && s.flights[cfg.keyOf(s.calls[c].id)] == Flight(c, Storing(v))
  }

  lemma OthersLeaveStoring(cfg: Config, s: State, a: Action, c: nat, v: Value)
    requires IsStoring(cfg, s, c, v) && Enabled(cfg, s, a) && !(a.Store? && a.c == c)
    ensures IsStoring(cfg, Step(cfg, s, a), c, v)
    ensures Step(cfg, s, a).calls[c].id == s.calls[c].id
  {
  }

  lemma {:induction false} StoringLasts(cfg: Config, s: State, schedule: seq<Action>, c: nat, v: Value)
    requires IsStoring(cfg, s, c, v) && Runs(cfg, s, schedule)
    requires forall a :: a in schedule ==> !(a.Store? && a.c == c)
    ensures IsStoring(cfg, Run(cfg, s, schedule), c, v)
    ensures Run(cfg, s, schedule).calls[c].id == s.calls[c].id
    decreases schedule
  {
    if schedule != [] {
      assert schedule[0] in schedule;
      OthersLeaveStoring(cfg, s, schedule[0], c, v);
      StoringLasts(cfg, Step(cfg, s, schedule[0]), schedule[1..], c, v);
    }
  }

  /** A call, refresh or not, whose function answers v and whose Set succeeds, leaves exactly the encoding of v under
      the key of its own function and arguments, whatever happens in between. */
  lemma AnswerIsStored(cfg: Config, s: State, c: nat, v: Value, between: seq<Action>)
    requires Enabled(cfg, s, Execute(c, Some(v))) && cfg.encode(v).Some?
    requires Runs(cfg, Step(cfg, s, Execute(c, Some(v))), between)
    requires forall a :: a in between ==> !(a.Store? && a.c == c)
    ensures var t := Run(cfg, Step(cfg, s, Execute(c, Some(v))), between);
            && Enabled(cfg, t, Store(c, true))
            && var key := cfg.keyOf(s.calls[c].id);
               && Step(cfg, t, Store(c, true)).store == t.store[key := cfg.encode(v).value]
               && (Step(cfg, t, Store(c, false)).store == t.store)
  {
    StoringLasts(cfg, Step(cfg, s, Execute(c, Some(v))), between, c, v);
  }

  // ---------- A call by itself ----------

  /** What the surroundings do: the lookup works, the function's answer, the value can be stored. */
  datatype Luck = Luck(getOk: bool, answer: Outcome, setOk: bool)

  /** The counters and entries callEnabled works on. */
  class Caller {
    var store: map<Key, Encoded>
    var hits: nat
    var misses: nat
    const cfg: Config

    constructor (cfg: Config, store: map<Key, Encoded>, hits: nat, misses: nat)
      ensures this.cfg == cfg && this.store == store && this.hits == hits && this.misses == misses
    {
      this.cfg, this.store, this.hits, this.misses := cfg, store, hits, misses;
    }

    /** cache.go lines 166 to 200, without the refresh: a hit returns the decoded entry, a lookup error is passed on,
        an entry that does not decode is dropped, and everything else is a miss. */
    method CallEnabled(id: CallId, luck: Luck) returns (r: Outcome)
      modifies this
      ensures SoloResult(r, store, hits, misses) ==
                Solo(cfg, SoloResult(None, old(store), old(hits), old(misses)), id, luck)
    {
      var key := cfg.keyOf(id);
      if !luck.getOk {
        return None;
      }
      if key in store {
        var val := cfg.decode(store[key]);
        if val.Some? {
          hits := hits + 1;
          return val;
        }
        store := store - {key};
      }
      misses := misses + 1;
      r := CallFn(key, luck);
    }

    /** cache.go lines 215 to 258: only an answer that was encoded and stored is returned. */
    method CallFn(key: Key, luck: Luck) returns (r: Outcome)
      modifies this`store
      ensures luck.answer.None? ==> r == None && store == old(store)
      ensures luck.answer.Some? && (cfg.encode(luck.answer.value).None? || !luck.setOk) ==>
                r == None && store == old(store)
      ensures luck.answer.Some? && cfg.encode(luck.answer.value).Some? && luck.setOk ==>
                r == luck.answer && store == old(store)[key := cfg.encode(luck.answer.value).value]
    {
      if luck.answer.None? {
        return None;
      }
      var enc := cfg.encode(luck.answer.value);
      if enc.None? {
        return None;
      }
      if !luck.setOk {
        return None;
      }
      store := store[key := enc.value];
      r := luck.answer;
    }
  }

  datatype SoloResult = SoloResult(r: Outcome, store: map<Key, Encoded>, hits: nat, misses: nat)

  /** The outcome by case: the entry decodes, or the answer is stored, or nothing is returned. */
  function Solo(cfg: Config, before: SoloResult, id: CallId, luck: Luck): SoloResult {
    var key := cfg.keyOf(id);
    var hit := key in before.store && cfg.decode(before.store[key]).Some?;
    var stored := luck.answer.Some? && cfg.encode(luck.answer.value).Some? && luck.setOk;
    if !luck.getOk then before.(r := None)
    else if hit then before.(r := cfg.decode(before.store[key]), hits := before.hits + 1)
    else if stored then
      SoloResult(luck.answer, before.store[key := cfg.encode(luck.answer.value).value], before.hits, before.misses + 1)
    else SoloResult(None, before.store - {key}, before.hits, before.misses + 1)
  }

  function View(s: State, r: Outcome): SoloResult {
    SoloResult(r, s.store, s.hits, s.misses)
  }

  /** From callFn on: the call leads a flight of its own. */
  lemma FlyAlone(cfg: Config, s: State, c: nat, luck: Luck) returns (schedule: seq<Action>)
    requires c < |s.calls| && s.calls[c].pc.Calling? && cfg.keyOf(s.calls[c].id) !in s.flights
    ensures Runs(cfg, s, schedule)
    ensures var t, key := Run(cfg, s, schedule), cfg.keyOf(s.calls[c].id);
            var stored := luck.answer.Some? && cfg.encode(luck.answer.value).Some? && luck.setOk;
            && c < |t.calls| && t.calls[c].pc == Returned(if stored then luck.answer else None)
            && t.store == (if stored then s.store[key := cfg.encode(luck.answer.value).value] else s.store)
            && t.hits == s.hits && t.misses == s.misses
  {
    schedule := [];
    RunsSnoc(cfg, s, schedule, Enter(c));
    schedule := schedule + [Enter(c)];
    RunsSnoc(cfg, s, schedule, Execute(c, luck.answer));
    schedule := schedule + [Execute(c, luck.answer)];
    if luck.answer.Some? {
      RunsSnoc(cfg, s, schedule, Store(c, luck.setOk));
      schedule := schedule + [Store(c, luck.setOk)];
    }
    RunsSnoc(cfg, s, schedule, Finish(c));
    schedule := schedule + [Finish(c)];
  }

  /** Up to the end of the lookup. */
  lemma LookUpAlone(cfg: Config, s: State, id: CallId) returns (schedule: seq<Action>)
    requires cfg.keyOf(id) !in s.store || cfg.decode(s.store[cfg.keyOf(id)]).None?
    ensures Runs(cfg, s, schedule)
    ensures Run(cfg, s, schedule) ==
              s.(calls := s.calls + [Call(id, false, Miss, Calling, false)], store := s.store - {cfg.keyOf(id)},
                 misses := s.misses + 1)
  {
    var c, key := |s.calls|, cfg.keyOf(id);
    var at := (pc: Pc, lookup: Lookup) => s.calls + [Call(id, false, lookup, pc, false)];
    schedule := [];
    RunsSnoc(cfg, s, schedule, Begin(id));
    schedule := schedule + [Begin(id)];
    assert Run(cfg, s, schedule) == s.(calls := at(Keyed, NotCounted));
    RunsSnoc(cfg, s, schedule, Get(c));
    schedule := schedule + [Get(c)];
    if key in s.store {
      assert Run(cfg, s, schedule) == s.(calls := at(FoundPoison, NotCounted));
      RunsSnoc(cfg, s, schedule, DropPoison(c));
      schedule := schedule + [DropPoison(c)];
    } else {
      assert s.store - {key} == s.store;
    }
    assert Run(cfg, s, schedule) == s.(calls := at(FoundNothing, NotCounted), store := s.store - {key});
    RunsSnoc(cfg, s, schedule, CountMiss(c));
    schedule := schedule + [CountMiss(c)];
  }

  lemma HitAlone(cfg: Config, s: State, id: CallId) returns (schedule: seq<Action>)
    requires cfg.keyOf(id) in s.store && cfg.decode(s.store[cfg.keyOf(id)]).Some?
    ensures Runs(cfg, s, schedule)
    ensures var t := Run(cfg, s, schedule);
            && |s.calls| < |t.calls| && t.calls[|s.calls|].pc == Returned(cfg.decode(s.store[cfg.keyOf(id)]))
            && t.store == s.store && t.hits == s.hits + 1 && t.misses == s.misses
  {
    var c := |s.calls|;
    var v := cfg.decode(s.store[cfg.keyOf(id)]).value;
    var at := (pc: Pc, lookup: Lookup) => s.calls + [Call(id, false, lookup, pc, false)];
    schedule := [];
    RunsSnoc(cfg, s, schedule, Begin(id));
    schedule := schedule + [Begin(id)];
    assert Run(cfg, s, schedule) == s.(calls := at(Keyed, NotCounted));
    RunsSnoc(cfg, s, schedule, Get(c));
    schedule := schedule + [Get(c)];
    assert Run(cfg, s, schedule) == s.(calls := at(FoundValue(v), NotCounted));
    RunsSnoc(cfg, s, schedule, CountHit(c));
    schedule := schedule + [CountHit(c)];
    assert Run(cfg, s, schedule) == s.(calls := at(Counted(v), Hit), hits := s.hits + 1);
    RunsSnoc(cfg, s, schedule, Launch(c, true));
    schedule := schedule + [Launch(c, true)];
  }

  /** A call that nobody interferes with can run as callEnabled does: with the same result, entries and counters, in
      every case of lookup, answer and storing. */
  lemma {:induction false} SoloRun(cfg: Config, s: State, id: CallId, luck: Luck) returns (schedule: seq<Action>)
    requires cfg.keyOf(id) !in s.flights
    ensures Runs(cfg, s, schedule)
    ensures var t := Run(cfg, s, schedule);
            && |s.calls| < |t.calls| && t.calls[|s.calls|].pc.Returned?
            && View(t, t.calls[|s.calls|].pc.r) == Solo(cfg, View(s, None), id, luck)
  {
    var key := cfg.keyOf(id);
    if !luck.getOk {
      var begun := s.(calls := s.calls + [Call(id, false, NotCounted, Keyed, false)]);
      RunsSnoc(cfg, s, [], Begin(id));
      assert [] + [Begin(id)] == [Begin(id)];
      assert Run(cfg, s, [Begin(id)]) == begun;
      RunsSnoc(cfg, s, [Begin(id)], GetFails(|s.calls|));
      schedule := [Begin(id)] + [GetFails(|s.calls|)];
    } else if key in s.store && cfg.decode(s.store[key]).Some? {
      schedule := HitAlone(cfg, s, id);
    } else {
      var lookup := LookUpAlone(cfg, s, id);
      var flight := FlyAlone(cfg, Run(cfg, s, lookup), |s.calls|, luck);
      RunsConcat(cfg, s, lookup, flight);
      schedule := lookup + flight;
      if luck.answer.Some? && cfg.encode(luck.answer.value).Some? {
        var e := cfg.encode(luck.answer.value).value;
        assert (s.store - {key})[key := e] == s.store[key := e];
      }
    }
  }
}
