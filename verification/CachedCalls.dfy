/**
 Cached calls as a step system: foreground calls, background refreshes, single flight, expiry and invalidation,
 interleaved in any way. Calls with the same key share one execution; the function itself may answer differently
 every time it runs.
 */
module CachedCalls {
  import opened Common
  import opened KeyCodec

  datatype CallId = CallId(fn: string, args: seq<string>)
  type Key = Bytes
  type Encoded = string
  datatype Value = Value(content: string)

  /** How many refreshes may run at a time: MaxDbConcurrentRefreshes below, at and above zero. */
  datatype RefreshLimit = Unlimited | NoRefresh | AtMost(n: nat)

  datatype Config = Config(
    keyOf: CallId -> Key,
    encode: Value -> Option<Encoded>,
    decode: Encoded -> Option<Value>,
    limit: RefreshLimit,
    hasLimiter: bool)

  /** Keys tell calls apart, and what was encoded decodes to itself. */
  ghost predicate Faithful(cfg: Config) {
    && (forall a, b :: cfg.keyOf(a) == cfg.keyOf(b) ==> a == b)
    && (forall v :: cfg.encode(v).Some? ==> cfg.decode(cfg.encode(v).value) == Some(v))
  }

  /** Keys made as CacheKey makes them, from the JSON text of function name and arguments, tell calls apart in the
      decodable modes, given that JSON texts do. */
  lemma CacheKeysTellCallsApart(cfg: Config, json: CallId -> Bytes, hash: KeyHash,
                                 sha256: Bytes -> Bytes, sha512: Bytes -> Bytes)
    requires forall id :: cfg.keyOf(id) == EncodeKey(hash, sha256, sha512, json(id))
    requires Decodable(hash) && forall a, b :: json(a) == json(b) ==> a == b
    ensures forall a, b :: cfg.keyOf(a) == cfg.keyOf(b) ==> a == b
  {
    forall a, b | cfg.keyOf(a) == cfg.keyOf(b)
      ensures a == b
    {
      EncodeKeyInjective(hash, sha256, sha512, json(a), json(b));
    }
  }

  /** None stands for an error. */
  type Outcome = Option<Value>

  datatype Pc =
    | Keyed                // parameters checked and key made; about to Get
    | FoundValue(v: Value) // a hit, not yet counted
    | FoundPoison          // an entry that does not decode
    | FoundNothing         // a miss, not yet counted
    | Counted(v: Value)    // the hit is counted; about to launch a refresh
    | Calling              // in callFn, about to enter the single flight
    | Leading              // runs the function
    | Joined               // waits for the flight of the same key
    | Returned(r: Outcome)

  datatype Lookup = NotCounted | Hit | Miss

  datatype Call = Call(id: CallId, background: bool, lookup: Lookup, pc: Pc, holdsToken: bool)

  datatype Phase = Executing | Storing(v: Value) | Finishing(r: Outcome)

  datatype Flight = Flight(leader: nat, phase: Phase)

  datatype State = State(
    store: map<Key, Encoded>,
    calls: seq<Call>,
    flights: map<Key, Flight>,
    hits: nat,
    misses: nat,
    tokens: nat,    // taken from the semaphore and not returned
    refused: nat,   // taken for a refresh that the limiter then refused
    answers: set<(CallId, Value)>  // history: what the functions returned without error
  )

  datatype Action =
    | Begin(id: CallId)
    | Get(c: nat)
    | GetFails(c: nat)
    | DropPoison(c: nat)
    | CountHit(c: nat)
    | CountMiss(c: nat)
    | Launch(c: nat, allowed: bool)
    | Enter(c: nat)
    | Execute(c: nat, r: Outcome)
    | Store(c: nat, ok: bool)
    | Finish(c: nat)
    | ReturnToken(c: nat)
    | Forget(key: Key)  // expiry, or invalidation by anybody

  const EMPTY: State := State(map[], [], map[], 0, 0, 0, 0, {})

  predicate Enabled(cfg: Config, s: State, a: Action) {
    match a
    case Begin(_) => true
    case Forget(_) => true
    case Get(c) => c < |s.calls| && s.calls[c].pc.Keyed?
    case GetFails(c) => c < |s.calls| && s.calls[c].pc.Keyed?
    case DropPoison(c) => c < |s.calls| && s.calls[c].pc.FoundPoison?
    case CountHit(c) => c < |s.calls| && s.calls[c].pc.FoundValue?
    case CountMiss(c) => c < |s.calls| && s.calls[c].pc.FoundNothing?
    case Launch(c, allowed) => c < |s.calls| && s.calls[c].pc.Counted? && (!cfg.hasLimiter ==> allowed)
    case Enter(c) => c < |s.calls| && s.calls[c].pc.Calling?
    case Execute(c, _) => LeadsIn(cfg, s, c) && s.flights[cfg.keyOf(s.calls[c].id)].phase.Executing?
    case Store(c, _) => LeadsIn(cfg, s, c) && s.flights[cfg.keyOf(s.calls[c].id)].phase.Storing?
    case Finish(c) => LeadsIn(cfg, s, c) && s.flights[cfg.keyOf(s.calls[c].id)].phase.Finishing?
    case ReturnToken(c) => c < |s.calls| && s.calls[c].pc.Returned? && s.calls[c].holdsToken && s.tokens > 0
  }

  predicate LeadsIn(cfg: Config, s: State, c: nat) {
    && c < |s.calls| && s.calls[c].pc.Leading?
    && cfg.keyOf(s.calls[c].id) in s.flights && s.flights[cfg.keyOf(s.calls[c].id)].leader == c
  }

  function Move(s: State, c: nat, pc: Pc): State
    requires c < |s.calls|
  {
    s.(calls := s.calls[c := s.calls[c].(pc := pc)])
  }

  function SetPhase(cfg: Config, s: State, c: nat, phase: Phase): State
    requires c < |s.calls|
  {
    s.(flights := s.flights[cfg.keyOf(s.calls[c].id) := Flight(c, phase)])
  }

  function Refresh(id: CallId, token: bool): Call {
    Call(id, true, NotCounted, Calling, token)
  }

  /** LaunchRefresh and launchRefreshWithThrottling: cache_base.go lines 151 to 173. */
  function LaunchStep(cfg: Config, s: State, c: nat, allowed: bool): State
    requires c < |s.calls| && s.calls[c].pc.Counted?
  {
    var s' := Move(s, c, Returned(Some(s.calls[c].pc.v)));
    match cfg.limit
    case Unlimited => if allowed then s'.(calls := s'.calls + [Refresh(s.calls[c].id, false)]) else s'
    case NoRefresh => s'
    case AtMost(n) =>
      if s.tokens >= n then s'
      else if allowed then s'.(calls := s'.calls + [Refresh(s.calls[c].id, true)], tokens := s.tokens + 1)
      else s'.(tokens := s.tokens + 1, refused := s.refused + 1)
  }

  /** The leader's result goes to itself and to everybody who joined. */
  function Deliver(cfg: Config, s: State, c: nat, r: Outcome): seq<Call>
    requires c < |s.calls|
  {
    seq(|s.calls|, i requires 0 <= i < |s.calls| =>
      if i == c || (s.calls[i].pc.Joined? && cfg.keyOf(s.calls[i].id) == cfg.keyOf(s.calls[c].id))
      then s.calls[i].(pc := Returned(r)) else s.calls[i])
  }

  /** callEnabled and callFn: cache.go lines 166 to 258. */
  function Step(cfg: Config, s: State, a: Action): State
    requires Enabled(cfg, s, a)
  {
    match a
    case Begin(id) => s.(calls := s.calls + [Call(id, false, NotCounted, Keyed, false)])
    case Forget(key) => s.(store := s.store - {key})
    case Get(c) =>
      var key := cfg.keyOf(s.calls[c].id);
      if key !in s.store then Move(s, c, FoundNothing)
      else (match cfg.decode(s.store[key])
            case Some(v) => Move(s, c, FoundValue(v))
            case None => Move(s, c, FoundPoison))
    case GetFails(c) => Move(s, c, Returned(None))
    case DropPoison(c) => Move(s, c, FoundNothing).(store := s.store - {cfg.keyOf(s.calls[c].id)})
    case CountHit(c) =>
      s.(calls := s.calls[c := s.calls[c].(pc := Counted(s.calls[c].pc.v), lookup := Hit)], hits := s.hits + 1)
    case CountMiss(c) =>
      s.(calls := s.calls[c := s.calls[c].(pc := Calling, lookup := Miss)], misses := s.misses + 1)
    case Launch(c, allowed) => LaunchStep(cfg, s, c, allowed)
    case Enter(c) =>
      if cfg.keyOf(s.calls[c].id) in s.flights then Move(s, c, Joined)
      else SetPhase(cfg, Move(s, c, Leading), c, Executing)
    case Execute(c, r) =>
      (match r
       case None => SetPhase(cfg, s, c, Finishing(None))
       case Some(v) => SetPhase(cfg, s, c, Storing(v)).(answers := s.answers + {(s.calls[c].id, v)}))
    case Store(c, ok) =>
      var key := cfg.keyOf(s.calls[c].id);
      var v := s.flights[key].phase.v;
      if cfg.encode(v).Some? && ok then
        SetPhase(cfg, s, c, Finishing(Some(v))).(store := s.store[key := cfg.encode(v).value])
      else SetPhase(cfg, s, c, Finishing(None))
    case Finish(c) =>
      var key := cfg.keyOf(s.calls[c].id);
      s.(calls := Deliver(cfg, s, c, s.flights[key].phase.r), flights := s.flights - {key})
    case ReturnToken(c) =>
      s.(calls := s.calls[c := s.calls[c].(holdsToken := false)], tokens := s.tokens - 1)
  }

  predicate Runs(cfg: Config, s: State, schedule: seq<Action>)
    decreases schedule
  {
    schedule != [] ==> Enabled(cfg, s, schedule[0]) && Runs(cfg, Step(cfg, s, schedule[0]), schedule[1..])
  }

  function Run(cfg: Config, s: State, schedule: seq<Action>): State
    requires Runs(cfg, s, schedule)
    decreases schedule
  {
    if schedule == [] then s else Run(cfg, Step(cfg, s, schedule[0]), schedule[1..])
  }

  // ---------- Provenance ----------

  /** The entry was encoded from an answer of the function on exactly these arguments. */
  ghost predicate FromAnswer(cfg: Config, answers: set<(CallId, Value)>, key: Key, e: Encoded) {
    exists id, v :: (id, v) in answers && cfg.keyOf(id) == key && cfg.encode(v) == Some(e)
  }

  /** The value a call has in hand, if any. */
  function InHand(pc: Pc): Option<Value> {
    match pc
    case FoundValue(v) => Some(v)
    case Counted(v) => Some(v)
    case Returned(r) => r
    case _ => None
  }

  function InFlight(phase: Phase): Option<Value> {
    match phase
    case Executing => None
    case Storing(v) => Some(v)
    case Finishing(r) => r
  }

  ghost predicate CallOk(s: State, c: Call) {
    InHand(c.pc).Some? ==> (c.id, InHand(c.pc).value) in s.answers
  }

  ghost predicate FlightOk(cfg: Config, s: State, key: Key, f: Flight) {
    && f.leader < |s.calls| && cfg.keyOf(s.calls[f.leader].id) == key
    && (InFlight(f.phase).Some? ==> (s.calls[f.leader].id, InFlight(f.phase).value) in s.answers)
  }

  ghost predicate Provenance(cfg: Config, s: State) {
    && (forall key :: key in s.store ==> FromAnswer(cfg, s.answers, key, s.store[key]))
    && (forall i :: 0 <= i < |s.calls| ==> CallOk(s, s.calls[i]))
    && (forall key :: key in s.flights ==> FlightOk(cfg, s, key, s.flights[key]))
  }

  lemma FoundIsAnswer(cfg: Config, s: State, id: CallId)
    requires Faithful(cfg) && Provenance(cfg, s) && cfg.keyOf(id) in s.store
    ensures cfg.decode(s.store[cfg.keyOf(id)]).Some?
    ensures (id, cfg.decode(s.store[cfg.keyOf(id)]).value) in s.answers
  {
    var e := s.store[cfg.keyOf(id)];
    var id', v :| (id', v) in s.answers && cfg.keyOf(id') == cfg.keyOf(id) && cfg.encode(v) == Some(e);
  }

  /** Changing what one call stands at, and dropping entries, keeps provenance if the call's value is an answer. */
  lemma MoveProvenance(cfg: Config, s: State, c: nat, call: Call, t: State)
    requires Provenance(cfg, s) && c < |s.calls| && call.id == s.calls[c].id && CallOk(s, call)
    requires t.calls == s.calls[c := call] && t.answers == s.answers && t.flights == s.flights
    requires forall key :: key in t.store ==> key in s.store && t.store[key] == s.store[key]
    ensures Provenance(cfg, t)
  {
    forall i | 0 <= i < |t.calls|
      ensures CallOk(t, t.calls[i])
    {
      assert CallOk(s, s.calls[i]);
    }
    forall key | key in t.flights
      ensures FlightOk(cfg, t, key, t.flights[key])
    {
      assert FlightOk(cfg, s, key, s.flights[key]);
    }
  }

  lemma AddCallProvenance(cfg: Config, s: State, call: Call, t: State)
    requires Provenance(cfg, s) && InHand(call.pc).None?
    requires t.calls == s.calls + [call] && t.answers == s.answers && t.flights == s.flights && t.store == s.store
    ensures Provenance(cfg, t)
  {
    forall i | 0 <= i < |t.calls|
      ensures CallOk(t, t.calls[i])
    {
      if i < |s.calls| {
        assert CallOk(s, s.calls[i]);
      }
    }
    forall key | key in t.flights
      ensures FlightOk(cfg, t, key, t.flights[key])
    {
      assert FlightOk(cfg, s, key, s.flights[key]);
    }
  }

  predicate MovesOneCall(a: Action) {
    a.Get? || a.GetFails? || a.DropPoison? || a.CountHit? || a.CountMiss? || a.ReturnToken?
  }

  lemma LookupProvenance(cfg: Config, s: State, a: Action)
    requires Faithful(cfg) && Provenance(cfg, s) && Enabled(cfg, s, a) && MovesOneCall(a)
    ensures Provenance(cfg, Step(cfg, s, a))
  {
    var t := Step(cfg, s, a);
    assert CallOk(s, s.calls[a.c]);
    if a.Get? && cfg.keyOf(s.calls[a.c].id) in s.store {
      FoundIsAnswer(cfg, s, s.calls[a.c].id);
    }
    assert t.calls == s.calls[a.c := t.calls[a.c]];
    MoveProvenance(cfg, s, a.c, t.calls[a.c], t);
  }

  lemma LaunchProvenance(cfg: Config, s: State, c: nat, allowed: bool)
    requires Provenance(cfg, s) && c < |s.calls| && s.calls[c].pc.Counted?
    ensures Provenance(cfg, LaunchStep(cfg, s, c, allowed))
  {
    var t := LaunchStep(cfg, s, c, allowed);
    assert CallOk(s, s.calls[c]);
    var moved := Move(s, c, Returned(Some(s.calls[c].pc.v)));
    MoveProvenance(cfg, s, c, moved.calls[c], moved);
    if |t.calls| > |s.calls| {
      AddCallProvenance(cfg, moved, t.calls[|s.calls|], t);
    } else {
      MoveProvenance(cfg, s, c, moved.calls[c], t);
    }
  }

  lemma EnterProvenance(cfg: Config, s: State, c: nat)
    requires Provenance(cfg, s) && Enabled(cfg, s, Enter(c))
    ensures Provenance(cfg, Step(cfg, s, Enter(c)))
  {
    var t := Step(cfg, s, Enter(c));
    var moved := Move(s, c, t.calls[c].pc);
    MoveProvenance(cfg, s, c, moved.calls[c], moved);
    forall key | key in t.flights
      ensures FlightOk(cfg, t, key, t.flights[key])
    {
      assert key in s.flights ==> FlightOk(cfg, moved, key, s.flights[key]);
    }
  }

  lemma FlightProvenance(cfg: Config, s: State, a: Action)
    requires Faithful(cfg) && Provenance(cfg, s) && Enabled(cfg, s, a)
    requires a.Execute? || a.Store?
    ensures Provenance(cfg, Step(cfg, s, a))
  {
    var t := Step(cfg, s, a);
    var key := cfg.keyOf(s.calls[a.c].id);
    assert FlightOk(cfg, s, key, s.flights[key]);
    forall k | k in t.store
      ensures FromAnswer(cfg, t.answers, k, t.store[k])
    {
      if k in s.store && t.store[k] == s.store[k] {
        var id, v :| (id, v) in s.answers && cfg.keyOf(id) == k && cfg.encode(v) == Some(s.store[k]);
        assert (id, v) in t.answers;
      } else {
        assert (s.calls[a.c].id, s.flights[key].phase.v) in t.answers;
      }
    }
    forall i | 0 <= i < |t.calls|
      ensures CallOk(t, t.calls[i])
    {
      assert CallOk(s, s.calls[i]);
    }
    forall k | k in t.flights
      ensures FlightOk(cfg, t, k, t.flights[k])
    {
      assert k != key ==> FlightOk(cfg, s, k, s.flights[k]);
    }
  }

  lemma FinishProvenance(cfg: Config, s: State, c: nat)
    requires Faithful(cfg) && Provenance(cfg, s) && Enabled(cfg, s, Finish(c))
    ensures Provenance(cfg, Step(cfg, s, Finish(c)))
  {
    var t := Step(cfg, s, Finish(c));
    var key := cfg.keyOf(s.calls[c].id);
    assert FlightOk(cfg, s, key, s.flights[key]);
    forall i | 0 <= i < |t.calls|
      ensures CallOk(t, t.calls[i])
    {
      assert CallOk(s, s.calls[i]);
      assert cfg.keyOf(s.calls[i].id) == key ==> s.calls[i].id == s.calls[c].id;
    }
    forall k | k in t.flights
      ensures FlightOk(cfg, t, k, t.flights[k])
    {
      assert FlightOk(cfg, s, k, s.flights[k]);
    }
  }

  lemma {:induction false} StepProvenance(cfg: Config, s: State, a: Action)
    requires Faithful(cfg) && Provenance(cfg, s) && Enabled(cfg, s, a)
    ensures Provenance(cfg, Step(cfg, s, a))
  {
    match a
    case Begin(id) => AddCallProvenance(cfg, s, Call(id, false, NotCounted, Keyed, false), Step(cfg, s, a));
    case Launch(c, allowed) => LaunchProvenance(cfg, s, c, allowed);
    case Enter(c) => EnterProvenance(cfg, s, c);
    case Execute(_, _) => FlightProvenance(cfg, s, a);
    case Store(_, _) => FlightProvenance(cfg, s, a);
    case Finish(c) => FinishProvenance(cfg, s, c);
    case Forget(_) => ForgetProvenance(cfg, s, a);
    case _ => LookupProvenance(cfg, s, a);
  }

  lemma ForgetProvenance(cfg: Config, s: State, a: Action)
    requires Provenance(cfg, s) && a.Forget?
    ensures Provenance(cfg, Step(cfg, s, a))
  {
    var t := Step(cfg, s, a);
    forall i | 0 <= i < |t.calls|
      ensures CallOk(t, t.calls[i])
    {
      assert CallOk(s, s.calls[i]);
    }
    forall key | key in t.flights
      ensures FlightOk(cfg, t, key, t.flights[key])
    {
      assert FlightOk(cfg, s, key, s.flights[key]);
    }
  }

  lemma {:induction false} RunProvenance(cfg: Config, s: State, schedule: seq<Action>)
    requires Faithful(cfg) && Provenance(cfg, s) && Runs(cfg, s, schedule)
    ensures Provenance(cfg, Run(cfg, s, schedule))
    decreases schedule
  {
    if schedule != [] {
      StepProvenance(cfg, s, schedule[0]);
      RunProvenance(cfg, Step(cfg, s, schedule[0]), schedule[1..]);
    }
  }

  /** In every run, every stored value and every value returned by a call was an answer of that very function on
      those very arguments, given earlier in the run. */
  lemma CacheOnlyReturnsAnswers(cfg: Config, schedule: seq<Action>, c: nat)
    requires Faithful(cfg) && Runs(cfg, EMPTY, schedule)
    ensures var s := Run(cfg, EMPTY, schedule);
            forall key :: key in s.store ==> FromAnswer(cfg, s.answers, key, s.store[key])
    ensures var s := Run(cfg, EMPTY, schedule);
            c < |s.calls| && s.calls[c].pc.Returned? && s.calls[c].pc.r.Some? ==>
              (s.calls[c].id, s.calls[c].pc.r.value) in s.answers
  {
    RunProvenance(cfg, EMPTY, schedule);
    var s := Run(cfg, EMPTY, schedule);
    if c < |s.calls| {
      assert CallOk(s, s.calls[c]);
    }
  }

  /** callDisabled runs the function and returns what it answers: cache.go lines 202 to 213. */
  function DisabledCall(answer: CallId -> Outcome, id: CallId): Outcome {
    answer(id)
  }

  /** While the functions' answers do not change, a successful cached call returns what a successful call
      without a cache returns. */
  lemma CachedEqualsUncached(cfg: Config, schedule: seq<Action>, answer: CallId -> Outcome, c: nat)
    requires Faithful(cfg) && Runs(cfg, EMPTY, schedule)
    requires forall id, v :: (id, v) in Run(cfg, EMPTY, schedule).answers ==> answer(id) == Some(v)
    ensures var s := Run(cfg, EMPTY, schedule);
            c < |s.calls| && s.calls[c].pc.Returned? && s.calls[c].pc.r.Some? ==>
              s.calls[c].pc.r == DisabledCall(answer, s.calls[c].id)
  {
    CacheOnlyReturnsAnswers(cfg, schedule, c);
  }

  // ---------- Counters ----------

  function LookedUp(c: Call, l: Lookup): nat {
    One(c.lookup == l)
  }

  /** A foreground call is counted exactly when it has got past its lookup. */
  ghost predicate CountedOnce(c: Call) {
    if c.background then c.lookup.NotCounted? && (c.pc.Calling? || c.pc.Leading? || c.pc.Joined? || c.pc.Returned?)
    else match c.pc
      case Keyed => c.lookup.NotCounted?
      case FoundValue(_) => c.lookup.NotCounted?
      case FoundPoison => c.lookup.NotCounted?
      case FoundNothing => c.lookup.NotCounted?
      case Counted(_) => c.lookup.Hit?
      case Calling => c.lookup.Miss?
      case Leading => c.lookup.Miss?
      case Joined => c.lookup.Miss?
      case Returned(r) => r.Some? ==> c.lookup.Hit? || c.lookup.Miss?
  }

  ghost predicate Counts(s: State) {
    && s.hits == Tally(s.calls, LookedUp, Hit)
    && s.misses == Tally(s.calls, LookedUp, Miss)
    && (forall i :: 0 <= i < |s.calls| ==> CountedOnce(s.calls[i]))
  }

  /** One call replaced, with the counters following its lookup. */
  lemma ReplaceCounts(s: State, t: State, c: nat, call: Call)
    requires Counts(s) && c < |s.calls| && t.calls == s.calls[c := call] && CountedOnce(call)
    requires t.hits == s.hits - LookedUp(s.calls[c], Hit) + LookedUp(call, Hit)
    requires t.misses == s.misses - LookedUp(s.calls[c], Miss) + LookedUp(call, Miss)
    ensures Counts(t)
  {
    TallyUpdate(s.calls, c, call, LookedUp, Hit);
    TallyUpdate(s.calls, c, call, LookedUp, Miss);
  }

  lemma MoveCounts(cfg: Config, s: State, a: Action)
    requires Counts(s) && Enabled(cfg, s, a) && (MovesOneCall(a) || a.Enter?)
    ensures Counts(Step(cfg, s, a))
  {
    var t := Step(cfg, s, a);
    assert CountedOnce(s.calls[a.c]);
    ReplaceCounts(s, t, a.c, t.calls[a.c]);
  }

  lemma LaunchCounts(cfg: Config, s: State, c: nat, allowed: bool)
    requires Counts(s) && c < |s.calls| && s.calls[c].pc.Counted?
    ensures Counts(LaunchStep(cfg, s, c, allowed))
  {
    assert CountedOnce(s.calls[c]);
    LaunchTally(cfg, s, c, allowed, LookedUp, Hit);
    LaunchTally(cfg, s, c, allowed, LookedUp, Miss);
    var t := LaunchStep(cfg, s, c, allowed);
    forall i | 0 <= i < |t.calls|
      ensures CountedOnce(t.calls[i])
    {
      assert i < |s.calls| ==> CountedOnce(s.calls[i]);
    }
  }

  lemma DeliverCounts(cfg: Config, s: State, c: nat, r: Outcome, t: State)
    requires Counts(s) && c < |s.calls| && s.calls[c].pc.Leading?
    requires t.calls == Deliver(cfg, s, c, r) && t.hits == s.hits && t.misses == s.misses
    ensures Counts(t)
  {
    TallySame(s.calls, t.calls, LookedUp, Hit);
    TallySame(s.calls, t.calls, LookedUp, Miss);
    forall i | 0 <= i < |t.calls|
      ensures CountedOnce(t.calls[i])
    {
      assert CountedOnce(s.calls[i]);
    }
  }

  lemma StepCounts(cfg: Config, s: State, a: Action)
    requires Counts(s) && Enabled(cfg, s, a)
    ensures Counts(Step(cfg, s, a))
  {
    if a.Begin? {
      var call := Call(a.id, false, NotCounted, Keyed, false);
      TallySnoc(s.calls, call, LookedUp, Hit);
      TallySnoc(s.calls, call, LookedUp, Miss);
    } else if a.Finish? {
      DeliverCounts(cfg, s, a.c, s.flights[cfg.keyOf(s.calls[a.c].id)].phase.r, Step(cfg, s, a));
    } else if a.Launch? {
      LaunchCounts(cfg, s, a.c, a.allowed);
    } else if MovesOneCall(a) || a.Enter? {
      MoveCounts(cfg, s, a);
    }
  }

  /** A launch changes one call and appends at most one refresh. */
  lemma LaunchTally<K>(cfg: Config, s: State, c: nat, allowed: bool, count: (Call, K) -> nat, k: K)
    requires c < |s.calls| && s.calls[c].pc.Counted?
    ensures var t := LaunchStep(cfg, s, c, allowed);
            && |s.calls| <= |t.calls| <= |s.calls| + 1
            && Tally(t.calls, count, k) == Tally(s.calls, count, k) - count(s.calls[c], k) + count(t.calls[c], k)
                 + if |t.calls| > |s.calls| then count(t.calls[|s.calls|], k) else 0
  {
    var t := LaunchStep(cfg, s, c, allowed);
    var moved := s.calls[c := t.calls[c]];
    TallyUpdate(s.calls, c, t.calls[c], count, k);
    if |t.calls| > |s.calls| {
      assert t.calls == moved + [t.calls[|s.calls|]];
      TallySnoc(moved, t.calls[|s.calls|], count, k);
    } else {
      assert t.calls == moved;
    }
  }

  lemma {:induction false} RunCounts(cfg: Config, s: State, schedule: seq<Action>)
    requires Counts(s) && Runs(cfg, s, schedule)
    ensures Counts(Run(cfg, s, schedule))
    decreases schedule
  {
    if schedule != [] {
      StepCounts(cfg, s, schedule[0]);
      RunCounts(cfg, Step(cfg, s, schedule[0]), schedule[1..]);
    }
  }

  /** Hits and misses are exactly the calls counted as such, and a call that got past Get and returned a value
      was counted once; background refreshes are never counted. */
  lemma EachCallCountsOnce(cfg: Config, schedule: seq<Action>)
    requires Runs(cfg, EMPTY, schedule)
    ensures Counts(Run(cfg, EMPTY, schedule))
  {
    RunCounts(cfg, EMPTY, schedule);
  }

  // ---------- Refresh tokens ----------

  function Holding(c: Call, u: ()): nat {
    One(c.holdsToken)
  }

  /** Tokens are held by refreshes that have not given theirs back, or lost to the limiter. */
  ghost predicate TokensBalance(cfg: Config, s: State) {
    && s.tokens == Tally(s.calls, Holding, ()) + s.refused
    && (cfg.limit.AtMost? ==> s.tokens <= cfg.limit.n)
    && (!cfg.limit.AtMost? ==> s.tokens == 0)
    && (!cfg.hasLimiter ==> s.refused == 0)
    && (forall i :: 0 <= i < |s.calls| ==> HoldsProperly(cfg, s.calls[i]))
  }

  predicate InFunction(pc: Pc) {
    pc.Calling? || pc.Leading? || pc.Joined? || pc.Returned?
  }

  ghost predicate HoldsProperly(cfg: Config, c: Call) {
    && (c.holdsToken ==> c.background)
    && (cfg.limit.AtMost? && c.background && !c.pc.Returned? ==> c.holdsToken)
    && (c.background ==> InFunction(c.pc))
  }

  lemma ReplaceBalance(cfg: Config, s: State, t: State, c: nat, call: Call)
    requires TokensBalance(cfg, s) && c < |s.calls| && t.calls == s.calls[c := call] && HoldsProperly(cfg, call)
    requires t.refused == s.refused && t.tokens <= s.tokens
    requires t.tokens == s.tokens - Holding(s.calls[c], ()) + Holding(call, ())
    ensures TokensBalance(cfg, t)
  {
    TallyUpdate(s.calls, c, call, Holding, ());
  }

  lemma MoveBalance(cfg: Config, s: State, a: Action)
    requires TokensBalance(cfg, s) && Enabled(cfg, s, a) && (MovesOneCall(a) || a.Enter?)
    ensures TokensBalance(cfg, Step(cfg, s, a))
  {
    var t := Step(cfg, s, a);
    assert HoldsProperly(cfg, s.calls[a.c]);
    ReplaceBalance(cfg, s, t, a.c, t.calls[a.c]);
  }

  lemma LaunchBalance(cfg: Config, s: State, c: nat, allowed: bool)
    requires TokensBalance(cfg, s) && c < |s.calls| && s.calls[c].pc.Counted? && (!cfg.hasLimiter ==> allowed)
    ensures TokensBalance(cfg, LaunchStep(cfg, s, c, allowed))
  {
    var t := LaunchStep(cfg, s, c, allowed);
    LaunchTally(cfg, s, c, allowed, Holding, ());
    forall i | 0 <= i < |t.calls|
      ensures HoldsProperly(cfg, t.calls[i])
    {
      assert i < |s.calls| ==> HoldsProperly(cfg, s.calls[i]);
    }
  }

  lemma {:induction false} StepBalance(cfg: Config, s: State, a: Action)
    requires TokensBalance(cfg, s) && Enabled(cfg, s, a)
    ensures TokensBalance(cfg, Step(cfg, s, a))
  {
    if a.Begin? {
      TallySnoc(s.calls, Call(a.id, false, NotCounted, Keyed, false), Holding, ());
    } else if a.Finish? {
      TallySame(s.calls, Step(cfg, s, a).calls, Holding, ());
    } else if a.Launch? {
      LaunchBalance(cfg, s, a.c, a.allowed);
    } else if MovesOneCall(a) || a.Enter? {
      MoveBalance(cfg, s, a);
    }
  }

  lemma {:induction false} RunBalance(cfg: Config, s: State, schedule: seq<Action>)
    requires TokensBalance(cfg, s) && Runs(cfg, s, schedule)
    ensures TokensBalance(cfg, Run(cfg, s, schedule))
    decreases schedule
  {
    if schedule != [] {
      StepBalance(cfg, s, schedule[0]);
      RunBalance(cfg, Step(cfg, s, schedule[0]), schedule[1..]);
    }
  }

  function RunningRefresh(c: Call, u: ()): nat {
    One(c.background && !c.pc.Returned?)
  }

  lemma {:induction false} RunningHold(cfg: Config, s: State, calls: seq<Call>)
    requires forall c :: c in calls ==> c.background && !c.pc.Returned? ==> c.holdsToken
    ensures Tally(calls, RunningRefresh, ()) <= Tally(calls, Holding, ())
  {
    if calls != [] {
      RunningHold(cfg, s, calls[..|calls| - 1]);
      assert calls[|calls| - 1] in calls;
    }
  }

  /** With a positive limit, running refreshes and refusals by the limiter together never exceed it. */
  lemma RefreshesStayBelowLimit(cfg: Config, schedule: seq<Action>)
    requires cfg.limit.AtMost? && Runs(cfg, EMPTY, schedule)
    ensures var s := Run(cfg, EMPTY, schedule);
            && s.tokens == Tally(s.calls, Holding, ()) + s.refused
            && Tally(s.calls, RunningRefresh, ()) + s.refused <= s.tokens <= cfg.limit.n
  {
    RunBalance(cfg, EMPTY, schedule);
    RunningHold(cfg, EMPTY, Run(cfg, EMPTY, schedule).calls);
  }

  /** All refreshes have returned, and none has a token left to give back. */
  ghost predicate Quiet(cfg: Config, s: State) {
    forall c: nat :: c < |s.calls| ==>
      && (s.calls[c].background ==> s.calls[c].pc.Returned?)
      && !Enabled(cfg, s, ReturnToken(c))
  }

  /** What is still taken when all is quiet was lost to the limiter. */
  lemma QuietTokens(cfg: Config, s: State)
    requires TokensBalance(cfg, s) && Quiet(cfg, s)
    ensures s.tokens == s.refused
  {
    if s.tokens > 0 {
      forall c | c in s.calls
        ensures !c.holdsToken
      {
        var i :| 0 <= i < |s.calls| && s.calls[i] == c;
        assert HoldsProperly(cfg, s.calls[i]);
        assert !Enabled(cfg, s, ReturnToken(i));
      }
      TallyZero(s.calls, Holding, ());
    }
  }

  /** Without a limiter every token comes back by the time all is quiet. */
  lemma TokensReturn(cfg: Config, schedule: seq<Action>)
    requires !cfg.hasLimiter && Runs(cfg, EMPTY, schedule) && Quiet(cfg, Run(cfg, EMPTY, schedule))
    ensures Run(cfg, EMPTY, schedule).tokens == 0
  {
    RunBalance(cfg, EMPTY, schedule);
    QuietTokens(cfg, Run(cfg, EMPTY, schedule));
  }

  // ---------- Runs one after the other ----------

  lemma {:induction false} RunsConcat(cfg: Config, s: State, first: seq<Action>, then_: seq<Action>)
    requires Runs(cfg, s, first) && Runs(cfg, Run(cfg, s, first), then_)
    ensures Runs(cfg, s, first + then_)
    ensures Run(cfg, s, first + then_) == Run(cfg, Run(cfg, s, first), then_)
    decreases first
  {
    if first == [] {
      assert first + then_ == then_;
    } else {
      assert (first + then_)[1..] == first[1..] + then_;
      RunsConcat(cfg, Step(cfg, s, first[0]), first[1..], then_);
    }
  }

  lemma RunsSnoc(cfg: Config, s: State, schedule: seq<Action>, a: Action)
    requires Runs(cfg, s, schedule) && Enabled(cfg, Run(cfg, s, schedule), a)
    ensures Runs(cfg, s, schedule + [a])
    ensures Run(cfg, s, schedule + [a]) == Step(cfg, Run(cfg, s, schedule), a)
  {
    var t := Run(cfg, s, schedule);
    assert [a][1..] == [];
    assert Run(cfg, t, [a]) == Run(cfg, Step(cfg, t, a), [a][1..]);
    RunsConcat(cfg, s, schedule, [a]);
  }

  // ---------- Losing tokens ----------

  /** The answer v to id is stored, no refresh was ever started, and k of them were refused. */
  ghost predicate Warm(cfg: Config, s: State, id: CallId, v: Value, k: nat) {
    && cfg.keyOf(id) in s.store && cfg.decode(s.store[cfg.keyOf(id)]) == Some(v)
    && (forall c :: c in s.calls ==> !c.background && !c.holdsToken)
    && s.tokens == s.refused == k
  }

  lemma WarmIsQuiet(cfg: Config, s: State, id: CallId, v: Value, k: nat)
    requires Warm(cfg, s, id, v, k)
    ensures Quiet(cfg, s)
  {
    forall c: nat | c < |s.calls|
      ensures !s.calls[c].background && !Enabled(cfg, s, ReturnToken(c))
    {
      assert s.calls[c] in s.calls;
    }
  }

  /** One successful call warms the cache. */
  lemma WarmUp(cfg: Config, id: CallId, v: Value) returns (schedule: seq<Action>)
    requires Faithful(cfg) && cfg.encode(v).Some?
    ensures Runs(cfg, EMPTY, schedule) && Warm(cfg, Run(cfg, EMPTY, schedule), id, v, 0)
  {
    var key, e := cfg.keyOf(id), cfg.encode(v).value;
    var at := (pc: Pc, lookup: Lookup) => Call(id, false, lookup, pc, false);
    var flight := (phase: Phase) => map[key := Flight(0, phase)];
    schedule := [];
    RunsSnoc(cfg, EMPTY, schedule, Begin(id));
    schedule := schedule + [Begin(id)];
    assert Run(cfg, EMPTY, schedule) == EMPTY.(calls := [at(Keyed, NotCounted)]);
    RunsSnoc(cfg, EMPTY, schedule, Get(0));
    schedule := schedule + [Get(0)];
    assert Run(cfg, EMPTY, schedule) == EMPTY.(calls := [at(FoundNothing, NotCounted)]);
    RunsSnoc(cfg, EMPTY, schedule, CountMiss(0));
    schedule := schedule + [CountMiss(0)];
    assert Run(cfg, EMPTY, schedule) == EMPTY.(calls := [at(Calling, Miss)], misses := 1);
    RunsSnoc(cfg, EMPTY, schedule, Enter(0));
    schedule := schedule + [Enter(0)];
    var leading := EMPTY.(calls := [at(Leading, Miss)], misses := 1);
    assert Run(cfg, EMPTY, schedule) == leading.(flights := flight(Executing));
    RunsSnoc(cfg, EMPTY, schedule, Execute(0, Some(v)));
    schedule := schedule + [Execute(0, Some(v))];
    assert Run(cfg, EMPTY, schedule) == leading.(flights := flight(Storing(v)), answers := {(id, v)});
    RunsSnoc(cfg, EMPTY, schedule, Store(0, true));
    schedule := schedule + [Store(0, true)];
    assert Run(cfg, EMPTY, schedule) ==
           leading.(flights := flight(Finishing(Some(v))), answers := {(id, v)}, store := map[key := e]);
    RunsSnoc(cfg, EMPTY, schedule, Finish(0));
    schedule := schedule + [Finish(0)];
  }

  /** One more hit whose refresh the limiter refuses. */
  lemma OneRefusal(cfg: Config, s: State, id: CallId, v: Value, k: nat) returns (schedule: seq<Action>)
    requires cfg.limit.AtMost? && cfg.hasLimiter && Warm(cfg, s, id, v, k) && k < cfg.limit.n
    ensures Runs(cfg, s, schedule) && Warm(cfg, Run(cfg, s, schedule), id, v, k + 1)
  {
    var c := |s.calls|;
    var at := (pc: Pc, lookup: Lookup) => s.calls + [Call(id, false, lookup, pc, false)];
    schedule := [];
    RunsSnoc(cfg, s, schedule, Begin(id));
    schedule := schedule + [Begin(id)];
    assert Run(cfg, s, schedule) == s.(calls := at(Keyed, NotCounted));
    RunsSnoc(cfg, s, schedule, Get(c));
    schedule := schedule + [Get(c)];
    assert Run(cfg, s, schedule) == s.(calls := at(FoundValue(v), NotCounted));
    RunsSnoc(cfg, s, schedule, CountHit(c));
    schedule := schedule + [CountHit(c)];
    assert Run(cfg, s, schedule) == s.(calls := at(Counted(v), Hit), hits := s.hits + 1);
    RunsSnoc(cfg, s, schedule, Launch(c, false));
    schedule := schedule + [Launch(c, false)];
    assert Run(cfg, s, schedule) == s.(calls := at(Returned(Some(v)), Hit), hits := s.hits + 1,
                                       tokens := s.tokens + 1, refused := s.refused + 1);
  }

  /** With a limiter any number of tokens up to all of them can be lost. */
  lemma {:induction false} TokensCanBeLost(cfg: Config, id: CallId, v: Value, k: nat) returns (schedule: seq<Action>)
    requires Faithful(cfg) && cfg.limit.AtMost? && cfg.hasLimiter && cfg.encode(v).Some? && k <= cfg.limit.n
    ensures Runs(cfg, EMPTY, schedule) && Warm(cfg, Run(cfg, EMPTY, schedule), id, v, k)
  {
    if k == 0 {
      schedule := WarmUp(cfg, id, v);
    } else {
      var before := TokensCanBeLost(cfg, id, v, k - 1);
      var refusal := OneRefusal(cfg, Run(cfg, EMPTY, before), id, v, k - 1);
      RunsConcat(cfg, EMPTY, before, refusal);
      schedule := before + refusal;
    }
  }

  /** Every token comes back by the time all is quiet. */
  ghost predicate TokensComeBack(cfg: Config) {
    forall schedule :: Runs(cfg, EMPTY, schedule) && Quiet(cfg, Run(cfg, EMPTY, schedule)) ==>
      Run(cfg, EMPTY, schedule).tokens == 0
  }

  /** Tokens come back in every run iff there is no rate limiter, if the limit is positive and anything can be
      cached at all. */
  lemma {:induction false} TokensReturnExactly(cfg: Config, v: Value)
    requires Faithful(cfg) && cfg.limit.AtMost? && cfg.limit.n > 0 && cfg.encode(v).Some?
    ensures TokensComeBack(cfg) <==> !cfg.hasLimiter
  {
    if cfg.hasLimiter {
      var id := CallId("", []);
      var schedule := TokensCanBeLost(cfg, id, v, 1);
      WarmIsQuiet(cfg, Run(cfg, EMPTY, schedule), id, v, 1);
    } else {
      forall schedule | Runs(cfg, EMPTY, schedule) && Quiet(cfg, Run(cfg, EMPTY, schedule))
        ensures Run(cfg, EMPTY, schedule).tokens == 0
      {
        TokensReturn(cfg, schedule);
      }
    }
  }

  function BackgroundCall(c: Call, u: ()): nat {
    One(c.background)
  }

  lemma {:induction false} ExhaustedStays(cfg: Config, s: State, schedule: seq<Action>)
    requires cfg.limit.AtMost? && TokensBalance(cfg, s) && s.refused == cfg.limit.n && Runs(cfg, s, schedule)
    ensures var t := Run(cfg, s, schedule);
            t.refused == cfg.limit.n && Tally(t.calls, BackgroundCall, ()) == Tally(s.calls, BackgroundCall, ())
    decreases schedule
  {
    if schedule != [] {
      var a := schedule[0];
      StepBalance(cfg, s, a);
      NoNewRefresh(cfg, s, a);
      ExhaustedStays(cfg, Step(cfg, s, a), schedule[1..]);
    }
  }

  /** With a limiter a run can lose every token; and in whatever run that has happened, no refresh is started ever
      again, however the run goes on. */
  lemma {:induction false} RefusalsStopRefreshing(cfg: Config, v: Value)
    requires Faithful(cfg) && cfg.limit.AtMost? && cfg.encode(v).Some?
    ensures cfg.hasLimiter ==>
              exists before :: Runs(cfg, EMPTY, before) && Run(cfg, EMPTY, before).refused == cfg.limit.n
    ensures forall before, after ::
              Runs(cfg, EMPTY, before) && Run(cfg, EMPTY, before).refused == cfg.limit.n &&
              Runs(cfg, Run(cfg, EMPTY, before), after) ==>
                Tally(Run(cfg, Run(cfg, EMPTY, before), after).calls, BackgroundCall, ()) ==
                Tally(Run(cfg, EMPTY, before).calls, BackgroundCall, ())
  {
    if cfg.hasLimiter {
      var before := TokensCanBeLost(cfg, CallId("", []), v, cfg.limit.n);
    }
    forall before, after | Runs(cfg, EMPTY, before) && Run(cfg, EMPTY, before).refused == cfg.limit.n &&
                           Runs(cfg, Run(cfg, EMPTY, before), after)
      ensures Tally(Run(cfg, Run(cfg, EMPTY, before), after).calls, BackgroundCall, ()) ==
              Tally(Run(cfg, EMPTY, before).calls, BackgroundCall, ())
    {
      RunBalance(cfg, EMPTY, before);
      ExhaustedStays(cfg, Run(cfg, EMPTY, before), after);
    }
  }

  lemma NoNewRefresh(cfg: Config, s: State, a: Action)
    requires cfg.limit.AtMost? && TokensBalance(cfg, s) && s.refused == cfg.limit.n && Enabled(cfg, s, a)
    ensures var t := Step(cfg, s, a);
            t.refused == s.refused && Tally(t.calls, BackgroundCall, ()) == Tally(s.calls, BackgroundCall, ())
  {
    if a.Begin? {
      TallySnoc(s.calls, Call(a.id, false, NotCounted, Keyed, false), BackgroundCall, ());
    } else if a.Finish? {
      TallySame(s.calls, Step(cfg, s, a).calls, BackgroundCall, ());
    } else if a.Launch? {
      NoLaunch(cfg, s, a.c, a.allowed);
    } else if MovesOneCall(a) || a.Enter? {
      var t := Step(cfg, s, a);
      assert t.calls == s.calls[a.c := t.calls[a.c]];
      TallyUpdate(s.calls, a.c, t.calls[a.c], BackgroundCall, ());
    }
  }

  lemma NoLaunch(cfg: Config, s: State, c: nat, allowed: bool)
    requires cfg.limit.AtMost? && s.tokens >= cfg.limit.n && c < |s.calls| && s.calls[c].pc.Counted?
    ensures var t := LaunchStep(cfg, s, c, allowed);
            t.refused == s.refused && Tally(t.calls, BackgroundCall, ()) == Tally(s.calls, BackgroundCall, ())
  {
    LaunchTally(cfg, s, c, allowed, BackgroundCall, ());
  }
}
