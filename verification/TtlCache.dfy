/**
 * The single-flight cache with time to live, as a machine whose steps are the stretches between two
 * suspension points of a caller, ticks of the clock, and cancellations.
 */
module TtlCache {
  import opened Wrappers

  type Caller = nat

  datatype Config = Config(ttl: nat, failureTtl: nat)

  /** A cached success or failure and when it was stored; it expires its time to live later. */
  datatype Slot<T> = Slot(value: T, at: nat)

  datatype Phase<T, E> =
    | CheckValue(locked: bool)
    | CheckError(locked: bool)
    | Waiting
    | Refreshing
    | StoreValue(value: T)
    | ClearError(value: T)
    | StoreError(error: E)
    | HitValue(slot: Slot<T>, now: nat)
    | HitError(failure: Slot<E>, now: nat)
    | Led(result: Result<T, E>)
    | Cancelled

  /** What happened, in order. */
  datatype Event<T, E> =
    | Started(caller: Caller, at: nat)
    | Finished(caller: Caller, at: nat, result: Result<T, E>)
    | Succeeded(slot: Slot<T>)
    | Failed(failure: Slot<E>)

  datatype State<T, E> = State(
    now: nat,
    value: Option<Slot<T>>,
    error: Option<Slot<E>>,
    lock: Option<Caller>,
    phases: map<Caller, Phase<T, E>>,
    log: seq<Event<T, E>>)

  datatype Action<T, E> =
    | Arrive(caller: Caller)
    | Advance(caller: Caller)
    | Finish(caller: Caller, result: Result<T, E>)
    | Cancel(caller: Caller)
    | Tick(delay: nat)

  predicate Fresh<T>(slot: Option<Slot<T>>, ttl: nat, now: nat) {
    slot.Some? && slot.value.at + ttl > now
  }

  /** Between taking the lock and returning. */
  predicate Holding<T, E>(p: Phase<T, E>) {
    match p
    case CheckValue(locked) => locked
    case CheckError(locked) => locked
    case Refreshing => true
    case StoreValue(_) => true
    case ClearError(_) => true
    case StoreError(_) => true
    case _ => false
  }

  predicate Returned<T, E>(p: Phase<T, E>) {
    p.HitValue? || p.HitError? || p.Led? || p.Cancelled?
  }

  /** Move a caller on; a caller that returns or is dropped gives up the lock. */
  function Go<T, E>(s: State<T, E>, k: Caller, p: Phase<T, E>): State<T, E> {
    s.(phases := s.phases[k := p],
       lock := if Holding(p) then Some(k) else if s.lock == Some(k) then None else s.lock)
  }

  /** One step of `get_or_refresh` for a caller, none if it cannot move. */
  function Next<T, E>(c: Config, s: State<T, E>, k: Caller): Option<State<T, E>>
    requires k in s.phases
  {
    match s.phases[k]
    case CheckValue(locked) =>
      if Fresh(s.value, c.ttl, s.now) then Some(Go(s, k, HitValue(s.value.value, s.now)))
      else Some(Go(s, k, CheckError(locked)))
    case CheckError(locked) =>
      if Fresh(s.error, c.failureTtl, s.now) then Some(Go(s, k, HitError(s.error.value, s.now)))
      else if locked then Some(Go(s, k, Refreshing).(log := s.log + [Started(k, s.now)]))
      else Some(Go(s, k, Waiting))
    case Waiting => if s.lock.None? then Some(Go(s, k, CheckValue(true))) else None
    case StoreValue(v) =>
      var slot := Slot(v, s.now);
      Some(Go(s, k, ClearError(v)).(value := Some(slot), log := s.log + [Succeeded(slot)]))
    case ClearError(v) => Some(Go(s, k, Led(Success(v))).(error := None))
    case StoreError(e) =>
      var slot := Slot(e, s.now);
      Some(Go(s, k, Led(Failure(e))).(error := Some(slot), log := s.log + [Failed(slot)]))
    case _ => None
  }

  function Step<T, E>(c: Config, s: State<T, E>, a: Action<T, E>): Option<State<T, E>> {
    match a
    case Arrive(k) => if k in s.phases then None else Some(Go(s, k, CheckValue(false)))
    case Advance(k) => if k in s.phases then Next(c, s, k) else None
    case Finish(k, r) =>
      if k in s.phases && s.phases[k].Refreshing? then
        Some(Go(s, k, match r case Success(v) => StoreValue(v) case Failure(e) => StoreError(e))
             .(log := s.log + [Finished(k, s.now, r)]))
      else None
    case Cancel(k) =>
      if k in s.phases && !Returned(s.phases[k]) then Some(Go(s, k, Cancelled)) else None
    case Tick(delay) => Some(s.(now := s.now + delay))
  }

  function Initial<T, E>(): State<T, E> {
    State(0, None, None, None, map[], [])
  }

  // ---- The invariant ----

  /** Only the lock holder is past the lock. */
  ghost predicate Locked<T(!new), E(!new)>(s: State<T, E>) {
    && (forall k :: k in s.phases ==> (Holding(s.phases[k]) <==> s.lock == Some(k)))
    && (s.lock.Some? ==> s.lock.value in s.phases)
  }

  /** The slots hold the latest stored outcomes, unless a failure is over anyway. */
  ghost predicate Slots<T(!new), E(!new)>(c: Config, s: State<T, E>) {
    && (s.value.Some? ==> Succeeded(s.value.value) in s.log && s.value.value.at <= s.now)
    && (s.error.Some? ==> Failed(s.error.value) in s.log && s.error.value.at <= s.now)
    && (forall e :: e in s.log && e.Succeeded? ==> s.value.Some? && e.slot.at <= s.value.value.at)
    && (forall e :: e in s.log && e.Failed? ==>
          e.failure.at + c.failureTtl <= s.now || (s.error.Some? && e.failure.at <= s.error.value.at))
  }

  ghost predicate ValuesOver<T(!new), E(!new)>(c: Config, s: State<T, E>) {
    forall e :: e in s.log && e.Succeeded? ==> e.slot.at + c.ttl <= s.now
  }

  ghost predicate ErrorsOver<T(!new), E(!new)>(c: Config, s: State<T, E>) {
    forall e :: e in s.log && e.Failed? ==> e.failure.at + c.failureTtl <= s.now
  }

  /** A refresh produced the outcome. */
  ghost predicate Produced<T(!new), E(!new)>(log: seq<Event<T, E>>, r: Result<T, E>) {
    exists e :: e in log && e.Finished? && e.result == r
  }

  /** An outcome was stored at or after a time. */
  ghost predicate StoredSince<T(!new), E(!new)>(log: seq<Event<T, E>>, r: Result<T, E>, at: nat) {
    match r
    case Success(v) => exists e :: e in log && e.Succeeded? && e.slot.value == v && e.slot.at >= at
    case Failure(x) => exists e :: e in log && e.Failed? && e.failure.value == x && e.failure.at >= at
  }

  predicate IsFinish<T, E>(e: Event<T, E>, k: Caller) {
    e.Finished? && e.caller == k
  }

  /** The caller has refreshed, with this result, and no other refresh has started since. */
  ghost predicate Leads<T(!new), E(!new)>(s: State<T, E>, k: Caller, r: Result<T, E>) {
    && Produced(s.log, r)
    && (forall e :: e in s.log && IsFinish(e, k) ==> e.result == r && e.at <= s.now)
    && (forall i, j :: 0 <= i < j < |s.log| && IsFinish(s.log[i], k) ==> !s.log[j].Started?)
  }

  /** Whatever the caller's refresh produced was stored no earlier than it finished. */
  ghost predicate Keeps<T(!new), E(!new)>(log: seq<Event<T, E>>, k: Caller, r: Result<T, E>) {
    forall e :: e in log && IsFinish(e, k) ==> e.result == r && StoredSince(log, r, e.at)
  }

  ghost predicate Unfinished<T(!new), E(!new)>(log: seq<Event<T, E>>, k: Caller) {
    forall e :: e in log ==> !IsFinish(e, k)
  }

  /** What a lock holder has established, and that stored and returned outcomes are real ones. */
  ghost predicate Justified<T(!new), E(!new)>(c: Config, s: State<T, E>, k: Caller, p: Phase<T, E>) {
    match p
    case CheckValue(_) => Unfinished(s.log, k)
    case CheckError(locked) => Unfinished(s.log, k) && (locked ==> ValuesOver(c, s))
    case Waiting => Unfinished(s.log, k)
    case Refreshing => Unfinished(s.log, k) && ValuesOver(c, s) && ErrorsOver(c, s)
    case StoreValue(v) => ErrorsOver(c, s) && Leads(s, k, Success(v))
    case ClearError(v) => ErrorsOver(c, s) && Leads(s, k, Success(v)) && StoredSince(s.log, Success(v), 0) && Keeps(s.log, k, Success(v))
    case StoreError(e) => Leads(s, k, Failure(e))
    case HitValue(slot, now) => Succeeded(slot) in s.log && slot.at <= now < slot.at + c.ttl
    case HitError(f, now) => Failed(f) in s.log && f.at <= now < f.at + c.failureTtl
    case Led(r) => Produced(s.log, r) && StoredSince(s.log, r, 0) && Keeps(s.log, k, r)
    case Cancelled => true
  }

  /** Every stored outcome came out of a refresh. */
  ghost predicate Real<T(!new), E(!new)>(s: State<T, E>) {
    && (forall e :: e in s.log && e.Succeeded? ==> Produced(s.log, Success(e.slot.value)))
    && (forall e :: e in s.log && e.Failed? ==> Produced(s.log, Failure(e.failure.value)))
  }

  /** No refresh starts within the time to live of an outcome stored before it. */
  ghost predicate Spaced<T(!new), E(!new)>(c: Config, log: seq<Event<T, E>>) {
    forall i, j :: 0 <= i < j < |log| && log[j].Started? ==>
      (log[i].Succeeded? ==> log[i].slot.at + c.ttl <= log[j].at) &&
      (log[i].Failed? ==> log[i].failure.at + c.failureTtl <= log[j].at)
  }

  /** How long a result keeps others from refreshing. */
  function Lasts<T, E>(c: Config, r: Result<T, E>): nat {
    if r.Success? then c.ttl else c.failureTtl
  }

  /**
   * No refresh starts within the time to live of the completion of one that started before it, if the
   * caller of that one was not cancelled.
   */
  ghost predicate Rested<T(!new), E(!new)>(c: Config, s: State<T, E>) {
    forall i, j :: 0 <= i < j < |s.log| && s.log[i].Finished? && s.log[j].Started? && HasLed(s, s.log[i].caller) ==>
      s.log[i].at + Lasts(c, s.log[i].result) <= s.log[j].at
  }

  predicate HasLed<T, E>(s: State<T, E>, k: Caller) {
    k in s.phases && s.phases[k].Led?
  }

  ghost predicate Invariant<T(!new), E(!new)>(c: Config, s: State<T, E>) {
    && Locked(s) && Slots(c, s) && Real(s) && Spaced(c, s.log) && Rested(c, s)
    && (forall k :: k in s.phases ==> Justified(c, s, k, s.phases[k]))
    && (forall e :: e in s.log && e.Finished? ==> e.caller in s.phases && e.at <= s.now)
  }

  // ---- Steps ----

  lemma ProducedGrows<T(!new), E(!new)>(log: seq<Event<T, E>>, e: Event<T, E>, r: Result<T, E>)
    requires Produced(log, r)
    ensures Produced(log + [e], r)
  {
    var x :| x in log && x.Finished? && x.result == r;
    assert x in log + [e];
  }

  lemma StoredGrows<T(!new), E(!new)>(log: seq<Event<T, E>>, e: Event<T, E>, r: Result<T, E>, at: nat)
    requires StoredSince(log, r, at)
    ensures StoredSince(log + [e], r, at)
  {
    match r
    case Success(v) =>
      var x :| x in log && x.Succeeded? && x.slot.value == v && x.slot.at >= at;
      assert x in log + [e];
    case Failure(f) =>
      var x :| x in log && x.Failed? && x.failure.value == f && x.failure.at >= at;
      assert x in log + [e];
  }

  lemma KeepsGrows<T(!new), E(!new)>(log: seq<Event<T, E>>, e: Event<T, E>, k: Caller, r: Result<T, E>)
    requires Keeps(log, k, r) && !IsFinish(e, k)
    ensures Keeps(log + [e], k, r)
  {
    forall x | x in log + [e] && IsFinish(x, k) ensures x.result == r && StoredSince(log + [e], r, x.at) {
      assert x in log;
      StoredGrows(log, e, r, x.at);
    }
  }

  /** A step that adds nothing to the log and touches no slot only has to justify its own caller. */
  lemma QuietStep<T(!new), E(!new)>(c: Config, s: State<T, E>, k: Caller, p: Phase<T, E>)
    requires Invariant(c, s) && Justified(c, s, k, p)
    requires Holding(p) ==> s.lock.None? || s.lock == Some(k)
    requires p.Led? ==> Leads(s, k, p.result)
    ensures Invariant(c, Go(s, k, p))
  {
    var s' := Go(s, k, p);
    assert Rested(c, s') by { RestedQuietly(c, s, s', k, p); }
    hide Rested, Leads, Keeps, Spaced, Slots, Real;
    forall j | j in s'.phases ensures Justified(c, s', j, s'.phases[j]) {
      SameJustified(c, s, s', j, s'.phases[j]);
    }
  }

  /** A caller that becomes the leader has seen no refresh start since its own. */
  lemma RestedQuietly<T(!new), E(!new)>(c: Config, s: State<T, E>, s': State<T, E>, k: Caller, p: Phase<T, E>)
    requires Rested(c, s) && s'.log == s.log && s'.phases == s.phases[k := p]
    requires p.Led? ==> Leads(s, k, p.result)
    ensures Rested(c, s')
  {
    forall i, j | 0 <= i < j < |s.log| && s.log[i].Finished? && s.log[j].Started? && HasLed(s', s.log[i].caller)
      ensures s.log[i].at + Lasts(c, s.log[i].result) <= s.log[j].at
    {
      var e := s.log[i];
      assert IsFinish(e, e.caller);
    }
  }

  lemma SameJustified<T(!new), E(!new)>(c: Config, s: State<T, E>, s': State<T, E>, k: Caller, p: Phase<T, E>)
    requires Justified(c, s, k, p) && s'.log == s.log && s'.now >= s.now
    ensures Justified(c, s', k, p)
  {
    hide Keeps, StoredSince;
  }

  /** New log entries keep what other callers know, if those hold no lock. */
  lemma OthersJustified<T(!new), E(!new)>(c: Config, s: State<T, E>, s': State<T, E>, j: Caller, p: Phase<T, E>, e: Event<T, E>)
    requires Justified(c, s, j, p) && !Holding(p) && s'.log == s.log + [e] && !IsFinish(e, j)
    ensures Justified(c, s', j, p)
  {
    hide Keeps, StoredSince, Produced;
    if p.Led? {
      ProducedGrows(s.log, e, p.result);
      StoredGrows(s.log, e, p.result, 0);
      KeepsGrows(s.log, e, j, p.result);
    }
  }

  lemma SpacedPush<T(!new), E(!new)>(c: Config, log: seq<Event<T, E>>, e: Event<T, E>)
    requires Spaced(c, log)
    requires e.Started? ==> forall x :: x in log ==>
      (x.Succeeded? ==> x.slot.at + c.ttl <= e.at) && (x.Failed? ==> x.failure.at + c.failureTtl <= e.at)
    ensures Spaced(c, log + [e])
  {
  }

  lemma RealPush<T(!new), E(!new)>(s: State<T, E>, s': State<T, E>, e: Event<T, E>)
    requires Real(s) && s'.log == s.log + [e]
    requires e.Succeeded? ==> Produced(s.log, Success(e.slot.value))
    requires e.Failed? ==> Produced(s.log, Failure(e.failure.value))
    ensures Real(s')
  {
    hide Produced;
    forall x | x in s'.log && x.Succeeded? ensures Produced(s'.log, Success(x.slot.value)) {
      ProducedGrows(s.log, e, Success(x.slot.value));
    }
    forall x | x in s'.log && x.Failed? ensures Produced(s'.log, Failure(x.failure.value)) {
      ProducedGrows(s.log, e, Failure(x.failure.value));
    }
  }

  /** A start is late enough for every leader before it, as what each produced was stored and is over. */
  lemma RestedStart<T(!new), E(!new)>(c: Config, s: State<T, E>, i: nat)
    requires Invariant(c, s) && ValuesOver(c, s) && ErrorsOver(c, s)
    requires i < |s.log| && s.log[i].Finished? && HasLed(s, s.log[i].caller)
    ensures s.log[i].at + Lasts(c, s.log[i].result) <= s.now
  {
    var e := s.log[i];
    assert Justified(c, s, e.caller, s.phases[e.caller]);
    assert e in s.log && IsFinish(e, e.caller);
    assert StoredSince(s.log, e.result, e.at);
  }

  lemma RestedPush<T(!new), E(!new)>(c: Config, s: State<T, E>, s': State<T, E>, k: Caller, p: Phase<T, E>, e: Event<T, E>)
    requires Invariant(c, s) && s'.log == s.log + [e] && s'.phases == s.phases[k := p]
    requires e.Started? ==> e.at == s.now && ValuesOver(c, s) && ErrorsOver(c, s) && !p.Led?
    requires p.Led? ==> Leads(s, k, p.result)
    ensures Rested(c, s')
  {
    forall i, j | 0 <= i < j < |s'.log| && s'.log[i].Finished? && s'.log[j].Started? && HasLed(s', s'.log[i].caller)
      ensures s'.log[i].at + Lasts(c, s'.log[i].result) <= s'.log[j].at
    {
      assert s'.log[i] == s.log[i];
      var e := s.log[i];
      assert IsFinish(e, e.caller);
      if e.caller != k && j == |s.log| {
        RestedStart(c, s, i);
      }
    }
  }

  /** A step of the lock holder that logs one event. */
  lemma LoggedStep<T(!new), E(!new)>(c: Config, s: State<T, E>, s': State<T, E>, k: Caller, p: Phase<T, E>, e: Event<T, E>)
    requires Invariant(c, s) && k in s.phases && s.lock == Some(k)
    requires s'.log == s.log + [e] && s'.phases == s.phases[k := p] && s'.now == s.now
    requires s'.lock == if Holding(p) then Some(k) else None
    requires Slots(c, s') && Real(s') && Justified(c, s', k, p) && Spaced(c, s'.log) && Rested(c, s')
    requires e.Finished? ==> e.caller == k && e.at == s.now
    ensures Invariant(c, s')
  {
    hide Rested, Spaced, Slots, Real;
    forall j | j in s'.phases ensures Justified(c, s', j, s'.phases[j]) {
      if j != k {
        OthersJustified(c, s, s', j, s.phases[j], e);
      }
    }
  }

  lemma StaleValue<T(!new), E(!new)>(c: Config, s: State<T, E>)
    requires Slots(c, s) && !Fresh(s.value, c.ttl, s.now)
    ensures ValuesOver(c, s)
  {
  }

  lemma StaleError<T(!new), E(!new)>(c: Config, s: State<T, E>)
    requires Slots(c, s) && !Fresh(s.error, c.failureTtl, s.now)
    ensures ErrorsOver(c, s)
  {
  }

  lemma CheckKeepsInvariant<T(!new), E(!new)>(c: Config, s: State<T, E>, k: Caller)
    requires Invariant(c, s) && k in s.phases
    requires s.phases[k].CheckValue? || s.phases[k].Waiting? || (s.phases[k].CheckError? && !s.phases[k].locked)
    requires Next(c, s, k).Some?
    ensures Invariant(c, Next(c, s, k).value)
  {
    assert Justified(c, s, k, s.phases[k]);
    match s.phases[k]
    case CheckValue(locked) =>
      if Fresh(s.value, c.ttl, s.now) {
        QuietStep(c, s, k, HitValue(s.value.value, s.now));
      } else {
        StaleValue(c, s);
        QuietStep(c, s, k, CheckError(locked));
      }
    case CheckError(locked) =>
      if Fresh(s.error, c.failureTtl, s.now) {
        QuietStep(c, s, k, HitError(s.error.value, s.now));
      } else {
        QuietStep(c, s, k, Waiting);
      }
    case Waiting => QuietStep(c, s, k, CheckValue(true));
  }

  lemma StartKeepsInvariant<T(!new), E(!new)>(c: Config, s: State<T, E>, k: Caller)
    requires Invariant(c, s) && k in s.phases && s.phases[k] == CheckError(true)
    ensures Invariant(c, Next(c, s, k).value)
  {
    assert Justified(c, s, k, s.phases[k]);
    if Fresh(s.error, c.failureTtl, s.now) {
      QuietStep(c, s, k, HitError(s.error.value, s.now));
    } else {
      StaleError(c, s);
      var e, s' := Started(k, s.now), Next(c, s, k).value;
      SpacedPush(c, s.log, e);
      RealPush(s, s', e);
      RestedPush(c, s, s', k, Refreshing, e);
      hide Rested, Real, Spaced;
      LoggedStep(c, s, s', k, Refreshing, e);
    }
  }

  lemma StoreValueKeepsInvariant<T(!new), E(!new)>(c: Config, s: State<T, E>, k: Caller)
    requires Invariant(c, s) && k in s.phases && s.phases[k].StoreValue?
    ensures Invariant(c, Next(c, s, k).value)
  {
    var v := s.phases[k].value;
    assert Justified(c, s, k, s.phases[k]);
    var e, s' := Succeeded(Slot(v, s.now)), Next(c, s, k).value;
    SpacedPush(c, s.log, e);
    RealPush(s, s', e);
    RestedPush(c, s, s', k, ClearError(v), e);
    StillLeads(s, s', k, Success(v), e);
    assert e in s'.log;
    hide Rested, Real, Spaced;
    LoggedStep(c, s, s', k, ClearError(v), e);
  }

  lemma StillLeads<T(!new), E(!new)>(s: State<T, E>, s': State<T, E>, k: Caller, r: Result<T, E>, e: Event<T, E>)
    requires Leads(s, k, r) && s'.log == s.log + [e] && s'.now == s.now && (e.Succeeded? || e.Failed?)
    ensures Leads(s', k, r)
  {
    ProducedGrows(s.log, e, r);
  }

  lemma StoreErrorKeepsInvariant<T(!new), E(!new)>(c: Config, s: State<T, E>, k: Caller)
    requires Invariant(c, s) && k in s.phases && s.phases[k].StoreError?
    ensures Invariant(c, Next(c, s, k).value)
  {
    var x := s.phases[k].error;
    assert Justified(c, s, k, s.phases[k]);
    var e, s' := Failed(Slot(x, s.now)), Next(c, s, k).value;
    SpacedPush(c, s.log, e);
    RealPush(s, s', e);
    RestedPush(c, s, s', k, Led(Failure(x)), e);
    ProducedGrows(s.log, e, Failure(x));
    assert e in s'.log;
    hide Rested, Real, Spaced;
    LoggedStep(c, s, s', k, Led(Failure(x)), e);
  }

  lemma ClearErrorKeepsInvariant<T(!new), E(!new)>(c: Config, s: State<T, E>, k: Caller)
    requires Invariant(c, s) && k in s.phases && s.phases[k].ClearError?
    ensures Invariant(c, Next(c, s, k).value)
  {
    var v := s.phases[k].value;
    assert Justified(c, s, k, s.phases[k]);
    QuietStep(c, s, k, Led(Success(v)));
    var quiet, s' := Go(s, k, Led(Success(v))), Next(c, s, k).value;
    hide Keeps, StoredSince, Leads, Spaced;
    forall j | j in s'.phases ensures Justified(c, s', j, s'.phases[j]) {
      SameJustified(c, quiet, s', j, s'.phases[j]);
    }
  }

  lemma FinishKeepsInvariant<T(!new), E(!new)>(c: Config, s: State<T, E>, k: Caller, r: Result<T, E>)
    requires Invariant(c, s) && k in s.phases && s.phases[k].Refreshing?
    ensures Invariant(c, Step(c, s, Finish(k, r)).value)
  {
    assert Justified(c, s, k, s.phases[k]);
    var e, s' := Finished(k, s.now, r), Step(c, s, Finish(k, r)).value;
    var p := if r.Success? then StoreValue(r.value) else StoreError(r.error);
    SpacedPush(c, s.log, e);
    RealPush(s, s', e);
    RestedPush(c, s, s', k, p, e);
    assert e in s'.log;
    assert Leads(s', k, r);
    hide Rested, Real, Spaced;
    LoggedStep(c, s, s', k, p, e);
  }

  lemma TickKeepsInvariant<T(!new), E(!new)>(c: Config, s: State<T, E>, delay: nat)
    requires Invariant(c, s)
    ensures Invariant(c, s.(now := s.now + delay))
  {
    var s' := s.(now := s.now + delay);
    hide Keeps, StoredSince, Leads, Spaced;
    forall k | k in s'.phases ensures Justified(c, s', k, s'.phases[k]) {
      SameJustified(c, s, s', k, s.phases[k]);
    }
  }

  lemma StepKeepsInvariant<T(!new), E(!new)>(c: Config, s: State<T, E>, a: Action<T, E>)
    requires Invariant(c, s) && Step(c, s, a).Some?
    ensures Invariant(c, Step(c, s, a).value)
  {
    match a
    case Arrive(k) => QuietStep(c, s, k, CheckValue(false));
    case Finish(k, r) => FinishKeepsInvariant(c, s, k, r);
    case Cancel(k) => QuietStep(c, s, k, Cancelled);
    case Tick(delay) => TickKeepsInvariant(c, s, delay);
    case Advance(k) =>
      hide Invariant;
      match s.phases[k] {
        case StoreValue(_) => StoreValueKeepsInvariant(c, s, k);
        case ClearError(_) => ClearErrorKeepsInvariant(c, s, k);
        case StoreError(_) => StoreErrorKeepsInvariant(c, s, k);
        case CheckError(locked) =>
          if locked { StartKeepsInvariant(c, s, k); } else { CheckKeepsInvariant(c, s, k); }
        case CheckValue(_) => CheckKeepsInvariant(c, s, k);
        case Waiting => CheckKeepsInvariant(c, s, k);
      }
  }

  // ---- Whole runs ----

  function Run<T, E>(c: Config, s: State<T, E>, actions: seq<Action<T, E>>): Option<State<T, E>> {
    if actions == [] then Some(s)
    else
      match Run(c, s, actions[..|actions| - 1])
      case None => None
      case Some(before) => Step(c, before, actions[|actions| - 1])
  }

  lemma {:induction false} RunKeepsInvariant<T(!new), E(!new)>(c: Config, s: State<T, E>, actions: seq<Action<T, E>>)
    requires Invariant(c, s) && Run(c, s, actions).Some?
    ensures Invariant(c, Run(c, s, actions).value)
    decreases |actions|
  {
    hide Invariant, Step;
    if actions != [] {
      var n := |actions| - 1;
      RunKeepsInvariant(c, s, actions[..n]);
      StepKeepsInvariant(c, Run(c, s, actions[..n]).value, actions[n]);
    }
  }

  predicate InRefresh<T, E>(p: Phase<T, E>) {
    p.Refreshing? || p.StoreValue? || p.ClearError? || p.StoreError?
  }

  /**
   * Single flight: for any callers, interleaving and cancellations, at most one refresh runs at a
   * time; none starts within the time to live of the completion of an earlier one, success or failure,
   * whose caller was not cancelled; and only a caller that is still running holds the lock.
   */
  lemma SingleFlight<T(!new), E(!new)>(c: Config, actions: seq<Action<T, E>>)
    requires Run(c, Initial<T, E>(), actions).Some?
    ensures var s := Run(c, Initial<T, E>(), actions).value;
            && (forall j, k :: j in s.phases && k in s.phases && InRefresh(s.phases[j]) && InRefresh(s.phases[k]) ==> j == k)
            && Spaced(c, s.log) && Rested(c, s)
            && (s.lock.Some? ==> s.lock.value in s.phases && Holding(s.phases[s.lock.value]))
  {
    RunKeepsInvariant(c, Initial(), actions);
    var s := Run(c, Initial<T, E>(), actions).value;
    hide Rested, Spaced;
    forall j, k | j in s.phases && k in s.phases && InRefresh(s.phases[j]) && InRefresh(s.phases[k]) ensures j == k {
      assert Holding(s.phases[j]) && Holding(s.phases[k]);
    }
  }

  /**
   * Every returned outcome is one a refresh produced, a cached one was served while it was fresh, and a
   * leader's own outcome was stored, no earlier than its refresh finished.
   */
  lemma ResultsAreReal<T(!new), E(!new)>(c: Config, actions: seq<Action<T, E>>, k: Caller)
    requires Run(c, Initial<T, E>(), actions).Some?
    requires k in Run(c, Initial<T, E>(), actions).value.phases
    ensures var s := Run(c, Initial<T, E>(), actions).value;
            match s.phases[k]
            case HitValue(slot, now) =>
              Succeeded(slot) in s.log && slot.at <= now < slot.at + c.ttl && Produced(s.log, Success(slot.value))
            case HitError(f, now) =>
              Failed(f) in s.log && f.at <= now < f.at + c.failureTtl && Produced(s.log, Failure(f.value))
            case Led(r) => Produced(s.log, r) && StoredSince(s.log, r, 0) && Keeps(s.log, k, r)
            case _ => true
  {
    RunKeepsInvariant(c, Initial(), actions);
    var s := Run(c, Initial<T, E>(), actions).value;
    assert Justified(c, s, k, s.phases[k]);
    hide Keeps, StoredSince, Produced;
    match s.phases[k]
    case HitValue(slot, _) => assert Succeeded(slot) in s.log;
    case HitError(f, _) => assert Failed(f) in s.log;
    case _ =>
  }

  /**
   * After any run, a caller that looks within the time to live of a stored success is served a success,
   * stored no earlier, without refreshing.
   */
  lemma FreshIsServed<T(!new), E(!new)>(c: Config, actions: seq<Action<T, E>>, k: Caller, slot: Slot<T>)
    requires Run(c, Initial<T, E>(), actions).Some?
    requires var s := Run(c, Initial<T, E>(), actions).value;
             k in s.phases && s.phases[k].CheckValue? && Succeeded(slot) in s.log && s.now < slot.at + c.ttl
    ensures var s := Run(c, Initial<T, E>(), actions).value;
            var next := Step(c, s, Advance(k));
            next.Some? && next.value.phases[k].HitValue? && next.value.phases[k].slot.at >= slot.at && next.value.log == s.log
  {
    RunKeepsInvariant(c, Initial(), actions);
    var s := Run(c, Initial<T, E>(), actions).value;
    hide Run, Rested, Spaced, Justified, Real;
    assert Succeeded(slot) in s.log;
  }

  /** Likewise for a failure, once no fresh success was found; the lock is not needed for it. */
  lemma RecentErrorIsServed<T(!new), E(!new)>(c: Config, actions: seq<Action<T, E>>, k: Caller, failure: Slot<E>)
    requires Run(c, Initial<T, E>(), actions).Some?
    requires var s := Run(c, Initial<T, E>(), actions).value;
             k in s.phases && s.phases[k].CheckError? && Failed(failure) in s.log && s.now < failure.at + c.failureTtl
    ensures var s := Run(c, Initial<T, E>(), actions).value;
            var next := Step(c, s, Advance(k));
            next.Some? && next.value.phases[k].HitError? && next.value.phases[k].failure.at >= failure.at && next.value.log == s.log
  {
    RunKeepsInvariant(c, Initial(), actions);
    var s := Run(c, Initial<T, E>(), actions).value;
    hide Run, Rested, Spaced, Justified, Real;
    assert Failed(failure) in s.log;
  }
}
