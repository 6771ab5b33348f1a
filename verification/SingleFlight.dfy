/** The single-flight TTL cache of refrate/cached.go as a step relation. */
module SingleFlight {
  import opened Results

  // Every call of `Rate` is one process. The processes share the map from pair to
  // entry and the heap of entries; each critical section of the mutex is one step,
  // the upstream fetch is a separate step with an arbitrary outcome, and the reads
  // made after the mutex is released are steps of their own.

  type Key = string

  /** What the wrapped provider answered. */
  datatype Outcome = Fetched(rate: real) | Failed

  /** One `cacheEntry`. `inFlight` says that `ready` is non-nil, `closed` that the
      channel has been closed; `owner` is the call that claimed the entry. */
  datatype Entry = Entry(
    key: Key, owner: nat, claimedAt: int,
    inFlight: bool, closed: bool, outcome: Option<Outcome>, fetchedAt: int)
  {
    predicate Success() {
      !inFlight && outcome.Some? && outcome.value.Fetched?
    }
  }

  /** `Served` carries the entry the rate came from and the moment the cache
      decided to serve it. */
  datatype Answer =
    | Served(rate: real, fetchedAt: int, entry: nat, decidedAt: int)
    | Uncached(rate: real)
    | ProviderError
    | Cancelled

  /** Where a call of `Rate` stands. */
  datatype Pc =
    | Start                                      // about to take the mutex
    | Hit(entry: nat, rate: real, at: int)       // hit decided, mutex released
    | Wait(entry: nat)                           // blocked on the entry's channel
    | Fetching(entry: nat)                       // claimed; upstream call running
    | Answered(entry: nat, outcome: Outcome)     // upstream call back, not published
    | Closing(entry: nat, outcome: Outcome)      // published, channel not yet closed
    | Returning(entry: nat, rate: real, at: int) // channel closed, about to return
    | Direct                                     // caching disabled
    | Done(answer: Answer)

  datatype Call = Call(key: Key, start: int, pc: Pc)

  datatype State = State(
    configured: int,               // Cached.TTL
    now: int,
    entries: map<Key, nat>,
    heap: seq<Entry>,
    calls: seq<Call>,
    invalidated: multiset<Key>)    // how often each pair was invalidated

  const DEFAULT_TTL := 3_600_000_000_000

  /** Zero means the default; a negative value disables caching. */
  function Ttl(s: State): int {
    if s.configured == 0 then DEFAULT_TTL else s.configured
  }

  datatype Step =
    | NewCall(key: Key)
    | Tick(dt: nat)
    | Invalidate(key: Key)
    | Lookup(i: nat)
    | FinishHit(i: nat)
    | Wake(i: nat)
    | GiveUp(i: nat)
    | FetchReturns(i: nat, outcome: Outcome)
    | Publish(i: nat)
    | Close(i: nat)
    | Return(i: nat)
    | DirectReturns(i: nat, outcome: Outcome)
  {
    /** Steps of the environment, as opposed to steps of a call. */
    predicate External() { NewCall? || Tick? || Invalidate? }
  }

  predicate Enabled(s: State, step: Step) {
    step.External() ||
    (step.i < |s.calls| &&
      var pc := s.calls[step.i].pc;
      match step
      case Lookup(_) => pc.Start?
      case FinishHit(_) => pc.Hit? && pc.entry < |s.heap|
      case Wake(_) => pc.Wait? && pc.entry < |s.heap| && s.heap[pc.entry].closed
      case GiveUp(_) => pc.Wait?
      case FetchReturns(_, _) => pc.Fetching?
      case Publish(_) => pc.Answered? && pc.entry < |s.heap|
      case Close(_) => pc.Closing? && pc.entry < |s.heap|
      case Return(_) => pc.Returning? && pc.entry < |s.heap|
      case DirectReturns(_, _) => pc.Direct?)
  }

  function At(s: State, i: nat, pc: Pc): State
    requires i < |s.calls|
  {
    s.(calls := s.calls[i := s.calls[i].(pc := pc)])
  }

  /** A failed entry's rate field is the zero value. */
  function RateField(e: Entry): real {
    if e.outcome.Some? && e.outcome.value.Fetched? then e.outcome.value.rate else 0.0
  }

  predicate FreshHit(s: State, e: Entry) {
    !e.inFlight && s.now - e.fetchedAt < Ttl(s)
  }

  function Claim(s: State, i: nat): State
    requires i < |s.calls|
  {
    var k := s.calls[i].key;
    var e := |s.heap|;
    At(s.(heap := s.heap + [Entry(k, i, s.now, true, false, None, 0)], entries := s.entries[k := e]),
       i, Fetching(e))
  }

  /** The first critical section: hit, wait, or claim. */
  function LookUp(s: State, i: nat): State
    requires i < |s.calls|
  {
    var k := s.calls[i].key;
    if k in s.entries && s.entries[k] < |s.heap| then
      var e := s.entries[k];
      if FreshHit(s, s.heap[e]) then At(s, i, Hit(e, RateField(s.heap[e]), s.now))
      else if s.heap[e].inFlight then At(s, i, Wait(e))
      else Claim(s, i)
    else Claim(s, i)
  }

  /** The second critical section: fill the entry in, and forget a failure. The
      deletion is by key, whatever entry the map holds under it by then. */
  function PublishIn(s: State, i: nat): State
    requires Enabled(s, Publish(i))
  {
    var c := s.calls[i];
    var e, o := c.pc.entry, c.pc.outcome;
    var filled := s.heap[e].(inFlight := false, outcome := Some(o), fetchedAt := s.now);
    At(s.(heap := s.heap[e := filled],
          entries := if o.Failed? then s.entries - {c.key} else s.entries),
       i, Closing(e, o))
  }

  function Next(s: State, step: Step): State
    requires Enabled(s, step)
  {
    match step
    case NewCall(k) =>
      s.(calls := s.calls + [Call(k, s.now, if Ttl(s) < 0 then Direct else Start)])
    case Tick(dt) => s.(now := s.now + dt)
    case Invalidate(k) => s.(entries := s.entries - {k}, invalidated := s.invalidated + multiset{k})
    case Lookup(i) => LookUp(s, i)
    case FinishHit(i) =>
      var pc := s.calls[i].pc;
      At(s, i, Done(Served(pc.rate, s.heap[pc.entry].fetchedAt, pc.entry, pc.at)))
    case Wake(i) => At(s, i, Start)
    case GiveUp(i) => At(s, i, Done(Cancelled))
    case FetchReturns(i, o) => At(s, i, Answered(s.calls[i].pc.entry, o))
    case Publish(i) => PublishIn(s, i)
    case Close(i) =>
      var pc := s.calls[i].pc;
      At(s.(heap := s.heap[pc.entry := s.heap[pc.entry].(closed := true)]), i,
         if pc.outcome.Failed? then Done(ProviderError)
         else Returning(pc.entry, pc.outcome.rate, s.now))
    case Return(i) =>
      var pc := s.calls[i].pc;
      At(s, i, Done(Served(pc.rate, s.heap[pc.entry].fetchedAt, pc.entry, pc.at)))
    case DirectReturns(i, o) =>
      At(s, i, Done(if o.Failed? then ProviderError else Uncached(o.rate)))
  }

  predicate Init(s: State) {
    s.entries == map[] && s.heap == [] && s.calls == [] && s.invalidated == multiset{}
  }

  /** The state after an interleaving, or nothing if some step was not enabled. */
  function Run(s: State, steps: seq<Step>): Option<State>
    decreases |steps|
  {
    if steps == [] then Some(s)
    else if Enabled(s, steps[0]) then Run(Next(s, steps[0]), steps[1..])
    else None
  }

  // ---------------------------------------------------------------- invariant

  /** What an entry and the call that owns it agree on. */
  predicate EntryOk(s: State, e: nat)
    requires e < |s.heap|
  {
    var x := s.heap[e];
    && x.owner < |s.calls|
    && s.calls[x.owner].key == x.key
    && s.calls[x.owner].start <= x.claimedAt <= s.now
    && var pc := s.calls[x.owner].pc;
       if x.inFlight then
         !x.closed && x.outcome == None
         && (pc == Fetching(e) || (pc.Answered? && pc.entry == e))
       else
         x.outcome.Some? && x.claimedAt <= x.fetchedAt <= s.now
         && (!x.closed ==> pc == Closing(e, x.outcome.value))
  }

  /** The map only ever points at an entry of its own pair that is in flight or
      holds a success. */
  predicate SlotOk(s: State, k: Key)
    requires k in s.entries
  {
    s.entries[k] < |s.heap| && s.heap[s.entries[k]].key == k
    && (s.heap[s.entries[k]].inFlight || s.heap[s.entries[k]].Success())
  }

  /** A rate a call holds or has returned is the one its entry was published with,
      and it is the call's own fetch or was inside the age bound when served. */
  predicate Sound(s: State, i: nat, e: nat, rate: real, at: int)
    requires i < |s.calls|
  {
    e < |s.heap| && s.heap[e].key == s.calls[i].key
    && !s.heap[e].inFlight && s.heap[e].outcome == Some(Fetched(rate))
    && s.calls[i].start <= at <= s.now
    && (s.heap[e].owner == i || at - s.heap[e].fetchedAt < Ttl(s))
  }

  predicate CallOk(s: State, i: nat)
    requires i < |s.calls|
  {
    var c := s.calls[i];
    && c.start <= s.now
    && match c.pc
       case Start => Ttl(s) >= 0
       case Hit(e, rate, at) => Sound(s, i, e, rate, at) && at - s.heap[e].fetchedAt < Ttl(s)
       case Wait(e) => Ttl(s) >= 0 && e < |s.heap| && s.heap[e].key == c.key
       case Fetching(e) => e < |s.heap| && s.heap[e].owner == i && s.heap[e].inFlight
       case Answered(e, _) => e < |s.heap| && s.heap[e].owner == i && s.heap[e].inFlight
       case Closing(e, o) =>
         e < |s.heap| && s.heap[e].owner == i && !s.heap[e].inFlight && s.heap[e].outcome == Some(o)
         && !s.heap[e].closed
       case Returning(e, rate, at) => Sound(s, i, e, rate, at) && s.heap[e].owner == i
       case Direct => true
       case Done(a) =>
         a.Served? ==> Sound(s, i, a.entry, a.rate, a.decidedAt) && a.fetchedAt == s.heap[a.entry].fetchedAt
  }

  predicate Inv(s: State) {
    && (forall k | k in s.entries :: SlotOk(s, k))
    && (forall e: nat | e < |s.heap| :: EntryOk(s, e))
    && (forall i: nat | i < |s.calls| :: CallOk(s, i))
  }

  /** Entries keep their identity, and a completed entry is never rewritten. */
  predicate HeapGrows(s: State, t: State) {
    && s.now <= t.now && s.configured == t.configured
    && |s.heap| <= |t.heap|
    && forall e: nat | e < |s.heap| :: EntryKept(s.heap[e], t.heap[e])
  }

  predicate EntryKept(x: Entry, y: Entry) {
    && y.key == x.key && y.owner == x.owner && y.claimedAt == x.claimedAt
    && (!x.inFlight ==> !y.inFlight && y.outcome == x.outcome && y.fetchedAt == x.fetchedAt)
    && (x.closed ==> y.closed)
  }

  /** No step rewrites a completed entry: the reads of `fetchedAt` made after the
      mutex is released see the value that was there when it was held. */
  lemma CompletedEntriesAreImmutable(s: State, step: Step)
    requires Inv(s) && Enabled(s, step)
    ensures HeapGrows(s, Next(s, step))
  {
    if !step.External() {
      assert CallOk(s, step.i);
    }
  }

  lemma StepKeepsInv(s: State, step: Step)
    requires Inv(s) && Enabled(s, step)
    ensures Inv(Next(s, step))
  {
    StepKeepsEntries(s, step);
    StepKeepsSlots(s, step);
    StepKeepsCalls(s, step);
  }

  lemma {:induction false} RunKeepsInv(s: State, steps: seq<Step>)
    requires Inv(s) && Run(s, steps).Some?
    ensures Inv(Run(s, steps).value)
    decreases |steps|
  {
    if steps != [] {
      StepKeepsInv(s, steps[0]);
      RunKeepsInv(Next(s, steps[0]), steps[1..]);
    }
  }

  // ------------------------------------------------------------ what is served

  /** In every interleaving, a rate that a call returns was published by a
      successful fetch of its own pair, carries that fetch's time, and is either
      the call's own fetch, made after the call began, or younger than the age
      bound at a moment inside the call. */
  lemma ServedRateIsOwnOrFresh(init: State, steps: seq<Step>, i: nat)
    requires Init(init) && Run(init, steps).Some?
    requires var s := Run(init, steps).value; i < |s.calls| && s.calls[i].pc.Done? && s.calls[i].pc.answer.Served?
    ensures var s := Run(init, steps).value;
            var c, a := s.calls[i], s.calls[i].pc.answer;
            && a.entry < |s.heap|
            && var x := s.heap[a.entry];
               x.Success() && x.key == c.key && x.outcome.value.rate == a.rate && x.fetchedAt == a.fetchedAt
               && ((x.owner == i && a.fetchedAt >= c.start)
                   || (c.start <= a.decidedAt <= s.now && a.decidedAt - a.fetchedAt < Ttl(s)))
  {
    RunKeepsInv(init, steps);
    var s := Run(init, steps).value;
    assert CallOk(s, i);
    assert EntryOk(s, s.calls[i].pc.answer.entry);
  }

  /** When no fetch of the pair has succeeded inside the age bound before the call
      began, nor since, an expired entry with a failing provider is an error: with
      caching on, a call that was not cancelled answers with the failure of a fetch of
      its own, never with a rate. */
  lemma ExpiredAndFailingIsAnError(init: State, steps: seq<Step>, i: nat)
    requires Init(init) && Run(init, steps).Some?
    requires var s := Run(init, steps).value;
             && i < |s.calls| && s.calls[i].pc.Done?
             && forall e | 0 <= e < |s.heap| && s.heap[e].key == s.calls[i].key && s.heap[e].Success() ::
                  s.heap[e].fetchedAt < s.calls[i].start && s.calls[i].start - s.heap[e].fetchedAt >= Ttl(s)
    ensures var s := Run(init, steps).value;
            var a := s.calls[i].pc.answer;
            && !a.Served?
            && (Ttl(s) >= 0 && GiveUp(i) !in steps ==> a == ProviderError && FetchReturns(i, Failed) in steps)
  {
    var s := Run(init, steps).value;
    if s.calls[i].pc.answer.Served? {
      ServedRateIsOwnOrFresh(init, steps, i);
    }
    CallAnswersWhatItWasTold(init, steps, i);
  }

  // ----------------------------------------------------------- what a call answers

  /** Whether this step tells call `i` something: an answer of the provider to a fetch
      of its own, or that it is to give up. */
  predicate Tells(step: Step, i: nat) {
    (step.FetchReturns? || step.DirectReturns? || step.GiveUp?) && step.i == i
  }

  function Told(steps: seq<Step>, i: nat): seq<Step> {
    if steps == [] then []
    else
      var last := steps[|steps| - 1];
      Told(steps[..|steps| - 1], i) + if Tells(last, i) then [last] else []
  }

  lemma {:induction false} ToldMeans(steps: seq<Step>, i: nat)
    ensures forall x :: x in Told(steps, i) <==> x in steps && Tells(x, i)
  {
    if steps != [] {
      var front, last := steps[..|steps| - 1], steps[|steps| - 1];
      assert steps == front + [last];
      ToldMeans(front, i);
    }
  }

  /** Where a call stands, from what it has been told alone. */
  predicate Accounted(s: State, i: nat, told: seq<Step>) {
    if i >= |s.calls| then told == []
    else
      match s.calls[i].pc
      case Start => told == []
      case Hit(_, _, _) => told == []
      case Wait(_) => told == []
      case Fetching(_) => told == []
      case Answered(_, o) => told == [FetchReturns(i, o)]
      case Closing(_, o) => told == [FetchReturns(i, o)]
      case Returning(_, rate, _) => told == [FetchReturns(i, Fetched(rate))]
      case Direct => told == [] && Ttl(s) < 0
      case Done(a) =>
        match a
        case Served(rate, _, _, _) => told == [] || told == [FetchReturns(i, Fetched(rate))]
        case Uncached(rate) => told == [DirectReturns(i, Fetched(rate))] && Ttl(s) < 0
        case ProviderError => told == [FetchReturns(i, Failed)] || (told == [DirectReturns(i, Failed)] && Ttl(s) < 0)
        case Cancelled => told == [GiveUp(i)]
  }

  lemma StepAccounts(s: State, step: Step, i: nat, told: seq<Step>)
    requires Enabled(s, step) && Accounted(s, i, told)
    ensures Accounted(Next(s, step), i, told + if Tells(step, i) then [step] else [])
  {
    assert told + [] == told;
    if !step.External() && step.i == i {
      OwnStepAccounts(s, step, told);
    }
  }

  lemma OwnStepAccounts(s: State, step: Step, told: seq<Step>)
    requires Enabled(s, step) && !step.External() && Accounted(s, step.i, told)
    ensures Accounted(Next(s, step), step.i, told + if Tells(step, step.i) then [step] else [])
  {
    assert told + [] == told;
    match step
    case Lookup(i) => assert Next(s, step) == LookUp(s, i);
    case Publish(i) => assert Next(s, step) == PublishIn(s, i);
    case _ =>
  }

  lemma {:induction false} RunAccounts(s: State, past: seq<Step>, steps: seq<Step>, i: nat)
    requires Run(s, steps).Some? && Accounted(s, i, Told(past, i))
    ensures Accounted(Run(s, steps).value, i, Told(past + steps, i))
    decreases |steps|
  {
    hide Accounted, Next, Enabled;
    if steps == [] {
      assert past + steps == past;
    } else {
      StepAccounts(s, steps[0], i, Told(past, i));
      assert (past + [steps[0]])[..|past|] == past;
      RunAccounts(Next(s, steps[0]), past + [steps[0]], steps[1..], i);
      assert past + [steps[0]] + steps[1..] == past + steps;
    }
  }

  /** What a finished call answers, in every interleaving: an error exactly when its own
      fetch failed, an uncached rate exactly when caching is off and its own fetch gave
      that rate, a cancellation exactly when it gave up; and when a fetch of its own
      succeeded with caching on, that very rate. */
  lemma CallAnswersWhatItWasTold(init: State, steps: seq<Step>, i: nat)
    requires Init(init) && Run(init, steps).Some?
    requires var s := Run(init, steps).value; i < |s.calls| && s.calls[i].pc.Done?
    ensures var s := Run(init, steps).value;
            var a := s.calls[i].pc.answer;
            && (a == ProviderError <==> FetchReturns(i, Failed) in steps || DirectReturns(i, Failed) in steps)
            && (forall r :: a == Uncached(r) <==> DirectReturns(i, Fetched(r)) in steps)
            && (a == Cancelled <==> GiveUp(i) in steps)
            && (forall r | FetchReturns(i, Fetched(r)) in steps :: a.Served? && a.rate == r)
            && (forall o | DirectReturns(i, o) in steps :: Ttl(s) < 0)
  {
    assert [] + steps == steps && Told([], i) == [];
    hide Run, Told, Next, Enabled;
    RunAccounts(init, [], steps, i);
    ToldMeans(steps, i);
    hide Init, Accounted;
    AnswerFollows(Run(init, steps).value, i, Told(steps, i), steps);
  }

  lemma AnswerFollows(s: State, i: nat, told: seq<Step>, steps: seq<Step>)
    requires i < |s.calls| && s.calls[i].pc.Done? && Accounted(s, i, told)
    requires forall x :: x in told <==> x in steps && Tells(x, i)
    ensures var a := s.calls[i].pc.answer;
            && (a == ProviderError <==> FetchReturns(i, Failed) in steps || DirectReturns(i, Failed) in steps)
            && (forall r :: a == Uncached(r) <==> DirectReturns(i, Fetched(r)) in steps)
            && (a == Cancelled <==> GiveUp(i) in steps)
            && (forall r | FetchReturns(i, Fetched(r)) in steps :: a.Served? && a.rate == r)
            && (forall o | DirectReturns(i, o) in steps :: Ttl(s) < 0)
  {
    hide Ttl;
    assert forall o :: FetchReturns(i, o) in steps <==> FetchReturns(i, o) in told;
    assert forall o :: DirectReturns(i, o) in steps <==> DirectReturns(i, o) in told;
    assert GiveUp(i) in steps <==> GiveUp(i) in told;
  }

  // -------------------------------------------------------------- when things happened

  lemma {:induction false} RunConcat(s: State, a: seq<Step>, b: seq<Step>)
    ensures Run(s, a + b) == if Run(s, a).Some? then Run(Run(s, a).value, b) else None
    decreases |a|
  {
    if a == [] {
      assert a + b == b;
    } else {
      assert (a + b)[0] == a[0] && (a + b)[1..] == a[1..] + b;
      if Enabled(s, a[0]) {
        RunConcat(Next(s, a[0]), a[1..], b);
      }
    }
  }

  lemma RunSnoc(init: State, front: seq<Step>, x: Step)
    requires Run(init, front + [x]).Some?
    ensures Run(init, front).Some? && Enabled(Run(init, front).value, x)
    ensures Run(init, front + [x]).value == Next(Run(init, front).value, x)
  {
    RunConcat(init, front, [x]);
    var s := Run(init, front).value;
    assert [x][1..] == [];
    assert Run(s, [x]).Some?;
  }

  /** The moment at which step `n` of this run was taken. */
  function MomentOf(init: State, steps: seq<Step>, n: nat): int
    requires n < |steps|
  {
    var before := Run(init, steps[..n]);
    if before.Some? then before.value.now else 0
  }

  /** Call `i` was made then, as the `i`-th of its run. */
  ghost predicate Began(init: State, steps: seq<Step>, c: Call) {
    exists n: nat | n < |steps| :: steps[n] == NewCall(c.key) && MomentOf(init, steps, n) == c.start
  }

  /** The entry was filled in then, by its owner, with what the provider had answered it. */
  ghost predicate PublishedThen(init: State, steps: seq<Step>, e: Entry) {
    exists n: nat | n < |steps| ::
      && steps[n] == Publish(e.owner) && MomentOf(init, steps, n) == e.fetchedAt
      && e.outcome.Some? && FetchReturns(e.owner, e.outcome.value) in steps[..n]
  }

  ghost predicate Timed(init: State, steps: seq<Step>, s: State) {
    && (forall i: nat | i < |s.calls| :: Began(init, steps, s.calls[i]))
    && (forall e: nat | e < |s.heap| && !s.heap[e].inFlight :: PublishedThen(init, steps, s.heap[e]))
  }

  lemma EarlierStays(init: State, steps: seq<Step>, x: Step)
    ensures forall c: Call | Began(init, steps, c) :: Began(init, steps + [x], c)
    ensures forall e: Entry | PublishedThen(init, steps, e) :: PublishedThen(init, steps + [x], e)
  {
    forall n: nat | n < |steps|
      ensures (steps + [x])[..n] == steps[..n] && MomentOf(init, steps + [x], n) == MomentOf(init, steps, n)
    {
    }
  }

  lemma {:induction false} RunIsTimed(init: State, steps: seq<Step>)
    requires Init(init) && Run(init, steps).Some?
    ensures Timed(init, steps, Run(init, steps).value)
  {
    if steps != [] {
      hide Next, Enabled, Run, Timed, Inv;
      var front, x := steps[..|steps| - 1], steps[|steps| - 1];
      assert steps == front + [x];
      RunSnoc(init, front, x);
      RunIsTimed(init, front);
      StepIsTimed(init, front, x);
    }
  }

  lemma StepIsTimed(init: State, front: seq<Step>, x: Step)
    requires Init(init) && Run(init, front).Some?
    requires var s := Run(init, front).value; Enabled(s, x) && Timed(init, front, s)
    ensures Timed(init, front + [x], Next(Run(init, front).value, x))
  {
    RunKeepsInv(init, front);
    var t := Next(Run(init, front).value, x);
    forall i: nat | i < |t.calls|
      ensures Began(init, front + [x], t.calls[i])
    {
      CallIsTimed(init, front, x, i);
    }
    forall e: nat | e < |t.heap| && !t.heap[e].inFlight
      ensures PublishedThen(init, front + [x], t.heap[e])
    {
      EntryIsTimed(init, front, x, e);
    }
    hide *;
    assert Timed(init, front + [x], t) by { TimedMeans(init, front + [x], t); }
  }

  lemma TimedMeans(init: State, steps: seq<Step>, s: State)
    ensures Timed(init, steps, s) <==>
              (forall i: nat | i < |s.calls| :: Began(init, steps, s.calls[i]))
              && (forall e: nat | e < |s.heap| && !s.heap[e].inFlight :: PublishedThen(init, steps, s.heap[e]))
  {
  }

  lemma CallIsTimed(init: State, front: seq<Step>, x: Step, i: nat)
    requires Run(init, front).Some?
    requires var s := Run(init, front).value; Enabled(s, x) && Timed(init, front, s) && i < |Next(s, x).calls|
    ensures Began(init, front + [x], Next(Run(init, front).value, x).calls[i])
  {
    var s, steps := Run(init, front).value, front + [x];
    if i < |s.calls| {
      CallKeepsStart(s, x, i);
      EarlierStays(init, front, x);
      assert Began(init, front, s.calls[i]);
      hide *;
      SameBeginning(init, steps, s.calls[i], Next(s, x).calls[i]);
    } else {
      assert steps[|front|] == x && steps[..|front|] == front && MomentOf(init, steps, |front|) == s.now;
      hide Run, MomentOf;
      assert steps[|front|] == NewCall(Next(s, x).calls[i].key);
    }
  }

  lemma CallKeepsStart(s: State, x: Step, i: nat)
    requires Enabled(s, x) && i < |s.calls|
    ensures var t := Next(s, x);
            i < |t.calls| && t.calls[i].key == s.calls[i].key && t.calls[i].start == s.calls[i].start
  {
  }

  lemma SameBeginning(init: State, steps: seq<Step>, c: Call, d: Call)
    requires Began(init, steps, c) && d.key == c.key && d.start == c.start
    ensures Began(init, steps, d)
  {
  }

  lemma EntryIsTimed(init: State, front: seq<Step>, x: Step, e: nat)
    requires Init(init) && Run(init, front).Some?
    requires var s := Run(init, front).value;
             && Enabled(s, x) && Inv(s) && Timed(init, front, s)
             && e < |Next(s, x).heap| && !Next(s, x).heap[e].inFlight
    ensures PublishedThen(init, front + [x], Next(Run(init, front).value, x).heap[e])
  {
    var s, steps := Run(init, front).value, front + [x];
    var t := Next(s, x);
    assert steps[|front|] == x && steps[..|front|] == front && MomentOf(init, steps, |front|) == s.now;
    if e < |s.heap| && !s.heap[e].inFlight {
      CompletedEntriesAreImmutable(s, x);
      assert PublishedThen(init, front, s.heap[e]);
      EarlierStays(init, front, x);
      hide Inv, Enabled, Next;
    } else {
      assert x.Publish? && CallOk(s, x.i);
      var o := s.calls[x.i].pc.outcome;
      assert [] + front == front;
      RunAccounts(init, [], front, x.i);
      ToldMeans(front, x.i);
      assert FetchReturns(x.i, o) in Told(front, x.i);
    }
  }

  /** So every time in an answer is the time it claims to be. A call starts when it is
      made; a rate served from the cache was given by the provider to a call for the same
      pair, before that call published it, and the answer carries the moment it did. */
  lemma ServedRateWasFetchedThen(init: State, steps: seq<Step>, i: nat)
    requires Init(init) && Run(init, steps).Some?
    requires var s := Run(init, steps).value; i < |s.calls| && s.calls[i].pc.Done? && s.calls[i].pc.answer.Served?
    ensures var s := Run(init, steps).value;
            var c, a := s.calls[i], s.calls[i].pc.answer;
            && Began(init, steps, c)
            && exists o: nat, n: nat | o < |s.calls| && n < |steps| ::
                 && s.calls[o].key == c.key && steps[n] == Publish(o) && MomentOf(init, steps, n) == a.fetchedAt
                 && FetchReturns(o, Fetched(a.rate)) in steps[..n]
  {
    RunKeepsInv(init, steps);
    RunIsTimed(init, steps);
    var s := Run(init, steps).value;
    assert CallOk(s, i);
    var e := s.heap[s.calls[i].pc.answer.entry];
    assert EntryOk(s, s.calls[i].pc.answer.entry);
    assert PublishedThen(init, steps, e);
  }

  // ------------------------------------------------------------------ liveness

  function Total(f: nat -> nat, n: nat): nat {
    if n == 0 then 0 else Total(f, n - 1) + f(n - 1)
  }

  lemma {:induction false} TotalMonotone(f: nat -> nat, g: nat -> nat, n: nat)
    requires forall j: nat | j < n :: f(j) <= g(j)
    ensures Total(f, n) <= Total(g, n)
  {
    if n > 0 {
      TotalMonotone(f, g, n - 1);
    }
  }

  lemma {:induction false} TotalStrict(f: nat -> nat, g: nat -> nat, n: nat, i: nat)
    requires i < n && f(i) < g(i)
    requires forall j: nat | j < n :: f(j) <= g(j)
    ensures Total(f, n) < Total(g, n)
  {
    if i == n - 1 {
      TotalMonotone(f, g, n - 1);
    } else {
      TotalStrict(f, g, n - 1, i);
    }
  }

  const ONE: nat -> nat := _ => 1
  const SIX: nat -> nat := _ => 6

  lemma {:induction false} ConstantTotals(n: nat)
    ensures Total(ONE, n) == n && Total(SIX, n) == 6 * n
  {
    if n > 0 {
      ConstantTotals(n - 1);
    }
  }

  /** How far a call is from returning, while no further entry is published. */
  function Weight(s: State, i: nat): nat {
    if i >= |s.calls| then 0 else
    match s.calls[i].pc
    case Done(_) => 0
    case Hit(_, _, _) => 1
    case Returning(_, _, _) => 1
    case Direct => 1
    case Closing(_, _) => 2
    case Answered(_, _) => 3
    case Fetching(_) => 4
    case Start => 5
    case Wait(e) => if e < |s.heap| && s.heap[e].inFlight then 1 else 6
  }

  /** Whether a call may still publish an entry. */
  function Pending(s: State, i: nat): nat {
    if i >= |s.calls| then 0 else
    var pc := s.calls[i].pc;
    if pc.Start? || pc.Wait? || pc.Fetching? || pc.Answered? then 1 else 0
  }

  function Weights(s: State): nat -> nat { i => Weight(s, i) }

  function Pendings(s: State): nat -> nat { i => Pending(s, i) }

  /** Each pending publication is worth one more than all the weights together can be. */
  function WorkOf(pending: nat, weight: nat, n: nat): nat {
    if pending == 0 then weight else 6 * n + 1 + WorkOf(pending - 1, weight, n)
  }

  function Work(s: State): nat {
    WorkOf(Total(Pendings(s), |s.calls|), Total(Weights(s), |s.calls|), |s.calls|)
  }

  lemma {:induction false} WorkOfIsBounded(pending: nat, weight: nat, n: nat, m: nat)
    requires pending <= m && weight <= 6 * n
    ensures WorkOf(pending, weight, n) <= m * (6 * n + 1) + 6 * n
  {
    if m > 0 {
      WorkOfIsBounded(if pending > 0 then pending - 1 else 0, weight, n, m - 1);
      assert m * (6 * n + 1) == (m - 1) * (6 * n + 1) + (6 * n + 1);
    }
  }

  lemma WorkIsBounded(s: State)
    ensures Total(Weights(s), |s.calls|) <= 6 * |s.calls|
    ensures Work(s) <= |s.calls| * (6 * |s.calls| + 1) + 6 * |s.calls|
  {
    var n := |s.calls|;
    ConstantTotals(n);
    TotalMonotone(Weights(s), SIX, n);
    TotalMonotone(Pendings(s), ONE, n);
    hide Total, WorkOf, Weights, Pendings;
    WorkOfIsBounded(Total(Pendings(s), n), Total(Weights(s), n), n, n);
  }

  lemma {:induction false} PendingDominates(p: nat, q: nat, v: nat, w: nat, n: nat)
    requires if p < q then v <= 6 * n else p == q && v < w
    ensures WorkOf(p, v, n) < WorkOf(q, w, n)
  {
    if p > 0 {
      PendingDominates(p - 1, q - 1, v, w, n);
    }
  }

  lemma OwnWeighs(s: State, step: Step)
    requires Inv(s) && Enabled(s, step) && !step.External()
    ensures Pending(Next(s, step), step.i) <= Pending(s, step.i)
    ensures if step.Publish? then Pending(Next(s, step), step.i) < Pending(s, step.i)
            else Weight(Next(s, step), step.i) < Weight(s, step.i)
  {
    assert CallOk(s, step.i);
    if step.Wake? {
      assert EntryOk(s, s.calls[step.i].pc.entry);
    }
  }

  lemma ExternalStepsDoNoWork(s: State, step: Step)
    requires step.Tick? || step.Invalidate?
    ensures Work(Next(s, step)) == Work(s)
  {
    var t, n := Next(s, step), |s.calls|;
    TotalMonotone(Pendings(s), Pendings(t), n);
    TotalMonotone(Pendings(t), Pendings(s), n);
    TotalMonotone(Weights(s), Weights(t), n);
    TotalMonotone(Weights(t), Weights(s), n);
  }

  lemma LighterIsLessWork(s: State, t: State, i: nat, published: bool)
    requires |t.calls| == |s.calls| && i < |s.calls|
    requires forall j: nat :: Pending(t, j) <= Pending(s, j) && (!published ==> Weight(t, j) <= Weight(s, j))
    requires if published then Pending(t, i) < Pending(s, i) else Weight(t, i) < Weight(s, i)
    ensures Work(t) < Work(s)
  {
    hide Pending, Weight;
    var n := |s.calls|;
    WorkIsBounded(t);
    TotalMonotone(Pendings(t), Pendings(s), n);
    if published {
      TotalStrict(Pendings(t), Pendings(s), n, i);
    } else {
      TotalStrict(Weights(t), Weights(s), n, i);
    }
    PendingDominates(Total(Pendings(t), n), Total(Pendings(s), n), Total(Weights(t), n), Total(Weights(s), n), n);
  }

  /** Every step a call takes uses up work; only a new call adds any. So with
      finitely many calls no scheduler can make them loop forever, however often
      the provider fails. */
  lemma EveryStepIsProgress(s: State, step: Step)
    requires Inv(s) && Enabled(s, step) && !step.NewCall?
    ensures if step.External() then Work(Next(s, step)) == Work(s) else Work(Next(s, step)) < Work(s)
  {
    if step.External() {
      ExternalStepsDoNoWork(s, step);
    } else {
      var t := Next(s, step);
      forall j: nat
        ensures Pending(t, j) <= Pending(s, j) && (!step.Publish? ==> Weight(t, j) <= Weight(s, j))
      {
        if j == step.i {
          OwnWeighs(s, step);
        }
      }
      OwnWeighs(s, step);
      hide *;
      LighterIsLessWork(s, t, step.i, step.Publish?);
    }
  }

  /** The step by which call `i`, or the owner of the entry it waits on, can move. */
  function NextMove(s: State, i: nat): Step
    requires i < |s.calls|
  {
    match s.calls[i].pc
    case Start => Lookup(i)
    case Hit(_, _, _) => FinishHit(i)
    case Fetching(_) => FetchReturns(i, Failed)
    case Answered(_, _) => Publish(i)
    case Closing(_, _) => Close(i)
    case Returning(_, _, _) => Return(i)
    case Direct => DirectReturns(i, Failed)
    case Done(_) => Tick(0)
    case Wait(e) =>
      if e >= |s.heap| || s.heap[e].closed then Wake(i)
      else
        var o := s.heap[e].owner;
        if o >= |s.calls| then GiveUp(i)
        else if s.calls[o].pc.Fetching? then FetchReturns(o, Failed)
        else if s.calls[o].pc.Answered? then Publish(o)
        else Close(o)
  }

  /** No reachable state is stuck: an unfinished call can move, or it waits on an
      entry whose owner is still there and can move towards closing its channel. */
  lemma NeverStuck(init: State, steps: seq<Step>, i: nat)
    requires Init(init) && Run(init, steps).Some?
    requires var s := Run(init, steps).value; i < |s.calls| && !s.calls[i].pc.Done?
    ensures var s := Run(init, steps).value;
            var move := NextMove(s, i);
            && Enabled(s, move) && !move.External() && !move.GiveUp?
            && (move.i != i ==> s.calls[i].pc.Wait? && s.calls[i].pc.entry < |s.heap|
                                && move.i == s.heap[s.calls[i].pc.entry].owner)
  {
    RunKeepsInv(init, steps);
    var s := Run(init, steps).value;
    assert CallOk(s, i);
    if s.calls[i].pc.Wait? {
      assert EntryOk(s, s.calls[i].pc.entry);
    }
  }

  function CallSteps(steps: seq<Step>): nat {
    if steps == [] then 0
    else (if steps[0].External() then 0 else 1) + CallSteps(steps[1..])
  }

  /** Once calls stop arriving, the calls of a reachable state take a bounded
      number of further steps in total: quadratic in how many calls there are. */
  lemma {:induction false} CallsTerminate(s: State, steps: seq<Step>)
    requires Inv(s) && Run(s, steps).Some?
    requires forall j | 0 <= j < |steps| :: !steps[j].NewCall?
    ensures CallSteps(steps) + Work(Run(s, steps).value) <= Work(s)
    ensures CallSteps(steps) <= |s.calls| * (6 * |s.calls| + 1) + 6 * |s.calls|
    decreases |steps|
  {
    WorkIsBounded(s);
    if steps != [] {
      StepKeepsInv(s, steps[0]);
      EveryStepIsProgress(s, steps[0]);
      CallsTerminate(Next(s, steps[0]), steps[1..]);
    }
  }

  // ------------------------------------------- how one step keeps the invariant

  lemma OwnEntryKept(s: State, step: Step, e: nat)
    requires Inv(s) && Enabled(s, step) && !step.External()
    requires e < |s.heap| && s.heap[e].owner == step.i
    ensures e < |Next(s, step).heap| && EntryOk(Next(s, step), e)
  {
    assert CallOk(s, step.i);
    assert EntryOk(s, e);
  }

  lemma StepKeepsEntries(s: State, step: Step)
    requires Inv(s) && Enabled(s, step)
    ensures var t := Next(s, step);
            forall e: nat | e < |t.heap| :: EntryOk(t, e)
  {
    var t := Next(s, step);
    CompletedEntriesAreImmutable(s, step);
    forall e: nat | e < |t.heap|
      ensures EntryOk(t, e)
    {
      if e >= |s.heap| {
        assert CallOk(s, step.i);
      } else if !step.External() && s.heap[e].owner == step.i {
        OwnEntryKept(s, step, e);
      } else {
        assert EntryOk(s, e);
        OthersUntouched(s, step, s.heap[e].owner);
      }
    }
  }

  lemma PublishKeepsSlot(s: State, i: nat, k: Key)
    requires Inv(s) && Enabled(s, Publish(i)) && k in Next(s, Publish(i)).entries
    ensures SlotOk(Next(s, Publish(i)), k)
  {
    assert CallOk(s, i) && EntryOk(s, s.calls[i].pc.entry);
    assert SlotOk(s, k);
  }

  lemma LookupKeepsSlot(s: State, i: nat, k: Key)
    requires Inv(s) && Enabled(s, Lookup(i)) && k in Next(s, Lookup(i)).entries
    ensures SlotOk(Next(s, Lookup(i)), k)
  {
    if k in s.entries {
      assert SlotOk(s, k);
    }
  }

  lemma OtherStepsKeepSlot(s: State, step: Step, k: Key)
    requires Inv(s) && Enabled(s, step) && !step.Publish? && !step.Lookup?
    requires k in Next(s, step).entries
    ensures SlotOk(Next(s, step), k)
  {
  }

  lemma StepKeepsSlots(s: State, step: Step)
    requires Inv(s) && Enabled(s, step)
    ensures var t := Next(s, step);
            forall k | k in t.entries :: SlotOk(t, k)
  {
    forall k | k in Next(s, step).entries
      ensures SlotOk(Next(s, step), k)
    {
      match step
      case Publish(i) => PublishKeepsSlot(s, i, k);
      case Lookup(i) => LookupKeepsSlot(s, i, k);
      case _ => OtherStepsKeepSlot(s, step, k);
    }
  }

  /** A step of another call leaves a call, and the entries it owns, alone. */
  lemma OthersUntouched(s: State, step: Step, i: nat)
    requires Inv(s) && Enabled(s, step) && i < |s.calls|
    requires step.External() || step.i != i
    ensures var t := Next(s, step);
            && i < |t.calls| && t.calls[i] == s.calls[i] && |s.heap| <= |t.heap|
            && forall e: nat | e < |s.heap| && s.heap[e].owner == i :: t.heap[e] == s.heap[e]
  {
    if !step.External() {
      assert CallOk(s, step.i);
    }
  }

  lemma CallStays(s: State, t: State, i: nat)
    requires i < |s.calls| && CallOk(s, i) && HeapGrows(s, t)
    requires i < |t.calls| && t.calls[i] == s.calls[i]
    requires forall e: nat | e < |s.heap| && s.heap[e].owner == i :: t.heap[e] == s.heap[e]
    ensures CallOk(t, i)
  {
  }

  lemma OwnCallKept(s: State, step: Step)
    requires Inv(s) && Enabled(s, step) && !step.External()
    ensures CallOk(Next(s, step), step.i)
  {
    var t := Next(s, step);
    var i := step.i;
    assert CallOk(s, i);
    CompletedEntriesAreImmutable(s, step);
    match step
    case Lookup(_) =>
      var k := s.calls[i].key;
      if k in s.entries {
        assert SlotOk(s, k);
        assert EntryOk(s, s.entries[k]);
      }
    case FinishHit(_) =>
    case Return(_) =>
    case Wake(_) =>
    case Publish(_) =>
      assert EntryOk(s, s.calls[i].pc.entry);
    case Close(_) =>
      assert EntryOk(s, s.calls[i].pc.entry);
    case _ =>
  }

  lemma StepKeepsCalls(s: State, step: Step)
    requires Inv(s) && Enabled(s, step)
    ensures var t := Next(s, step);
            forall i: nat | i < |t.calls| :: CallOk(t, i)
  {
    var t := Next(s, step);
    forall i: nat | i < |t.calls|
      ensures CallOk(t, i)
    {
      if i < |s.calls| {
        if step.External() || step.i != i {
          OthersUntouched(s, step, i);
          CompletedEntriesAreImmutable(s, step);
          assert CallOk(s, i);
          CallStays(s, t, i);
        } else {
          OwnCallKept(s, step);
        }
      }
    }
  }
}
