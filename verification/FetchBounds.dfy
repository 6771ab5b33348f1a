/** How often the cache of refrate/cached.go asks upstream: the fetches that can be in
    flight at once, and how far apart successful ones are. */
module FetchBounds {
  import opened Results
  import opened SingleFlight

  // ------------------------------------------------------------- single flight

  ghost function InFlight(s: State, k: Key): set<nat> {
    set e: nat | e < |s.heap| && s.heap[e].key == k && s.heap[e].inFlight
  }

  /** Entries in flight that the map no longer points at. */
  ghost function Orphans(s: State, k: Key): set<nat> {
    if k in s.entries then InFlight(s, k) - {s.entries[k]} else InFlight(s, k)
  }

  ghost function Fetchers(s: State, k: Key): set<nat> {
    set i: nat | i < |s.calls| && s.calls[i].key == k && s.calls[i].pc.Fetching?
  }

  lemma SubsetCard(a: set<nat>, b: set<nat>)
    requires a <= b
    ensures |a| <= |b|
  {
    if a != {} {
      var x :| x in a;
      SubsetCard(a - {x}, b - {x});
    }
  }

  ghost function Current(s: State, k: Key): set<nat> {
    if k in s.entries then {s.entries[k]} else {}
  }

  lemma PublishEndsOneFlight(s: State, i: nat, k: Key)
    requires Inv(s) && Enabled(s, Publish(i))
    ensures var e := s.calls[i].pc.entry;
            && e < |s.heap| && (s.heap[e].key == k <==> e in InFlight(s, k))
            && InFlight(Next(s, Publish(i)), k) == InFlight(s, k) - {e}
            && (s.heap[e].key != k ==> Current(Next(s, Publish(i)), k) == Current(s, k))
            && (Current(Next(s, Publish(i)), k) == {} || Current(Next(s, Publish(i)), k) == Current(s, k))
  {
    var e := s.calls[i].pc.entry;
    assert CallOk(s, i) && EntryOk(s, e);
  }

  lemma PublishCutsLooseAtMostItsOwn(s: State, i: nat, k: Key)
    requires Inv(s) && Enabled(s, Publish(i))
    ensures |Orphans(Next(s, Publish(i)), k)| <= |Orphans(s, k)|
  {
    var t := Next(s, Publish(i));
    var e := s.calls[i].pc.entry;
    PublishEndsOneFlight(s, i, k);
    hide Next, Inv, Enabled, InFlight;
    if s.heap[e].key == k && e !in Current(s, k) {
      SubsetCard(Orphans(t, k), (Orphans(s, k) - {e}) + Current(s, k));
    } else {
      SubsetCard(Orphans(t, k), Orphans(s, k));
    }
  }

  lemma LookupOrphansNothing(s: State, i: nat, k: Key)
    requires Inv(s) && Enabled(s, Lookup(i))
    ensures Orphans(Next(s, Lookup(i)), k) <= Orphans(s, k)
  {
    if k in s.entries {
      assert SlotOk(s, k);
    }
  }

  lemma OtherStepsOrphanNothing(s: State, step: Step, k: Key)
    requires Inv(s) && Enabled(s, step)
    requires !step.Lookup? && !step.Publish? && step != Invalidate(k)
    ensures Orphans(Next(s, step), k) <= Orphans(s, k)
  {
  }

  /** Each orphan is owed to an invalidation: a publication that fails removes its
      own entry from flight before it can cut another one loose. */
  lemma StepKeepsOrphansPaidFor(s: State, step: Step, k: Key)
    requires Inv(s) && Enabled(s, step) && |Orphans(s, k)| <= s.invalidated[k]
    ensures |Orphans(Next(s, step), k)| <= Next(s, step).invalidated[k]
  {
    hide Inv, Enabled, Orphans;
    var t := Next(s, step);
    if step == Invalidate(k) {
      InvalidateOrphansOne(s, k);
    } else if step.Publish? {
      PublishCutsLooseAtMostItsOwn(s, step.i, k);
    } else {
      if step.Lookup? {
        LookupOrphansNothing(s, step.i, k);
      } else {
        OtherStepsOrphanNothing(s, step, k);
      }
      SubsetCard(Orphans(t, k), Orphans(s, k));
    }
  }

  lemma InvalidateOrphansOne(s: State, k: Key)
    ensures |Orphans(Next(s, Invalidate(k)), k)| <= |Orphans(s, k)| + 1
  {
    SubsetCard(Orphans(Next(s, Invalidate(k)), k), Orphans(s, k) + Current(s, k));
  }

  lemma {:induction false} RunKeepsOrphansPaidFor(s: State, steps: seq<Step>, k: Key)
    requires Inv(s) && |Orphans(s, k)| <= s.invalidated[k] && Run(s, steps).Some?
    ensures var t := Run(s, steps).value; Inv(t) && |Orphans(t, k)| <= t.invalidated[k]
    decreases |steps|
  {
    if steps != [] {
      StepKeepsInv(s, steps[0]);
      StepKeepsOrphansPaidFor(s, steps[0], k);
      RunKeepsOrphansPaidFor(Next(s, steps[0]), steps[1..], k);
    }
  }

  /** The entries these calls fetch. */
  function Owned(s: State, calls: set<nat>): set<nat> {
    set i | i in calls && i < |s.calls| && s.calls[i].pc.Fetching? :: s.calls[i].pc.entry
  }

  lemma {:induction false} FetchersOwnEntries(s: State, calls: set<nat>, k: Key)
    requires Inv(s) && calls <= Fetchers(s, k)
    ensures Owned(s, calls) <= InFlight(s, k) && |Owned(s, calls)| == |calls|
  {
    if calls != {} {
      var i :| i in calls;
      FetchersOwnEntries(s, calls - {i}, k);
      OwnsOneMore(s, calls, i, k);
    }
  }

  lemma OwnsOneMore(s: State, calls: set<nat>, i: nat, k: Key)
    requires Inv(s) && calls <= Fetchers(s, k) && i in calls
    ensures i < |s.calls| && s.calls[i].pc.Fetching?
    ensures var e := s.calls[i].pc.entry;
            Owned(s, calls) == Owned(s, calls - {i}) + {e} && e !in Owned(s, calls - {i}) && e in InFlight(s, k)
  {
    var e := s.calls[i].pc.entry;
    assert CallOk(s, i) && EntryOk(s, e);
    forall j | j in calls - {i}
      ensures s.calls[j].pc.entry != e
    {
      assert CallOk(s, j);
    }
  }

  /** In every interleaving, one pair never has more upstream fetches running than
      one plus the number of times it was invalidated. */
  lemma FetchesInFlightAreBounded(init: State, steps: seq<Step>, k: Key)
    requires Init(init) && Run(init, steps).Some?
    ensures var s := Run(init, steps).value; |Fetchers(s, k)| <= 1 + s.invalidated[k]
  {
    assert Orphans(init, k) == {};
    RunKeepsOrphansPaidFor(init, steps, k);
    var s := Run(init, steps).value;
    FetchersOwnEntries(s, Fetchers(s, k), k);
    SubsetCard(InFlight(s, k), Orphans(s, k) + Current(s, k));
    SubsetCard(Owned(s, Fetchers(s, k)), InFlight(s, k));
  }

  /** Without invalidation the misses of one pair collapse into one fetch. */
  lemma SingleFlightWithoutInvalidate(init: State, steps: seq<Step>, i: nat, j: nat)
    requires Init(init) && Run(init, steps).Some?
    requires var s := Run(init, steps).value;
             && i < |s.calls| && j < |s.calls| && s.calls[i].key == s.calls[j].key
             && s.calls[i].pc.Fetching? && s.calls[j].pc.Fetching?
             && s.invalidated[s.calls[i].key] == 0
    ensures i == j
  {
    var s := Run(init, steps).value;
    var k := s.calls[i].key;
    FetchesInFlightAreBounded(init, steps, k);
    SubsetCard({i, j}, Fetchers(s, k));
  }

  /** Every call there is fetches the one pair, which was invalidated `n` times. */
  predicate AllFetching(s: State, k: Key, calls: nat, n: nat) {
    && s.configured == 0 && |s.calls| == calls && s.invalidated[k] == n
    && forall i | 0 <= i < |s.calls| :: s.calls[i].key == k && s.calls[i].pc.Fetching?
  }

  lemma OneMoreFetch(s: State, k: Key, n: nat)
    requires AllFetching(s, k, n, n) && k !in s.entries
    ensures var r := Run(s, [NewCall(k), Lookup(n)]);
            && r.Some? && AllFetching(r.value, k, n + 1, n)
            && AllFetching(Next(r.value, Invalidate(k)), k, n + 1, n + 1) && k !in Next(r.value, Invalidate(k)).entries
  {
    var s1 := Next(s, NewCall(k));
    var s2 := Next(s1, Lookup(n));
    assert Run(s2, []) == Some(s2);
    assert [NewCall(k), Lookup(n)][1..] == [Lookup(n)] && [Lookup(n)][1..] == [];
    assert Run(s1, [Lookup(n)]) == Some(s2);
  }

  /** Claim, invalidate, claim again: `n` times over. */
  lemma {:induction false} Storm(k: Key, n: nat) returns (steps: seq<Step>, s: State)
    ensures Run(State(0, 0, map[], [], [], multiset{}), steps) == Some(s)
    ensures AllFetching(s, k, n, n) && k !in s.entries
  {
    var init := State(0, 0, map[], [], [], multiset{});
    if n == 0 {
      steps, s := [], init;
    } else {
      var before, t := Storm(k, n - 1);
      var claim := [NewCall(k), Lookup(n - 1)];
      hide Enabled, Next, AllFetching;
      OneMoreFetch(t, k, n - 1);
      var u := Run(t, claim).value;
      RunConcat(init, before, claim);
      RunConcat(init, before + claim, [Invalidate(k)]);
      s := Next(u, Invalidate(k));
      assert Run(u, [Invalidate(k)]) == Some(s) by { OneStepRun(u, k); }
      steps := before + claim + [Invalidate(k)];
    }
  }

  lemma OneStepRun(s: State, k: Key)
    ensures Run(s, [Invalidate(k)]) == Some(Next(s, Invalidate(k)))
  {
    assert [Invalidate(k)][1..] == [];
  }

  /** The bound is met for every number of invalidations: each, made while a fetch runs,
      lets one more start. */
  lemma InvalidateBreaksSingleFlight(k: Key, n: nat)
    ensures exists steps :: var r := Run(State(0, 0, map[], [], [], multiset{}), steps);
              r.Some? && r.value.invalidated[k] == n && |Fetchers(r.value, k)| == n + 1
  {
    var init := State(0, 0, map[], [], [], multiset{});
    var before, s := Storm(k, n);
    var claim := [NewCall(k), Lookup(n)];
    OneMoreFetch(s, k, n);
    RunConcat(init, before, claim);
    var t := Run(init, before + claim).value;
    assert Fetchers(t, k) == Below(n + 1);
  }

  function Below(n: nat): (out: set<nat>)
    ensures |out| == n && forall i: nat :: i in out <==> i < n
  {
    if n == 0 then {} else Below(n - 1) + {n - 1}
  }

  // ------------------------------------------------------------ rate of fetches

  /** An entry that no longer counts: out of flight and, if a success, expired. */
  predicate Spent(s: State, e: nat)
    requires e < |s.heap|
  {
    !s.heap[e].inFlight && (s.heap[e].Success() ==> s.now - s.heap[e].fetchedAt >= Ttl(s))
  }

  predicate Apart(s: State, d: nat, e: nat)
    requires d < e < |s.heap|
  {
    !s.heap[d].inFlight && (s.heap[d].Success() ==> s.heap[e].claimedAt - s.heap[d].fetchedAt >= Ttl(s))
  }

  /** For a pair that was never invalidated: every entry but the current one is
      spent, and each claim came at least the age bound after every earlier success. */
  ghost predicate Spaced(s: State, k: Key) {
    && (forall e: nat | e < |s.heap| && s.heap[e].key == k && e !in Current(s, k) :: Spent(s, e))
    && (forall d: nat, e: nat | d < e < |s.heap| && s.heap[d].key == k && s.heap[e].key == k :: Apart(s, d, e))
  }

  /** A claim is only made over a current entry that is spent itself. */
  lemma LookupKeepsSpaced(s: State, i: nat, k: Key)
    requires Inv(s) && Enabled(s, Lookup(i)) && Spaced(s, k)
    ensures Spaced(Next(s, Lookup(i)), k)
  {
    var t := Next(s, Lookup(i));
    if k in s.entries {
      assert SlotOk(s, k);
    }
    forall e: nat | e < |s.heap| && s.heap[e].key == k
      ensures e in Current(s, k) || (Spent(s, e) && Spent(t, e))
    {
    }
    forall d: nat, e: nat | d < e < |t.heap| && t.heap[d].key == k && t.heap[e].key == k
      ensures Apart(t, d, e)
    {
      if e < |s.heap| {
        assert Apart(s, d, e);
      }
    }
  }

  lemma PublishKeepsSpaced(s: State, i: nat, k: Key)
    requires Inv(s) && Enabled(s, Publish(i)) && Spaced(s, k)
    ensures Spaced(Next(s, Publish(i)), k)
  {
    var t := Next(s, Publish(i));
    var p := s.calls[i].pc.entry;
    assert CallOk(s, i) && EntryOk(s, p);
    forall e: nat | e < |t.heap| && t.heap[e].key == k && e !in Current(t, k)
      ensures Spent(t, e)
    {
      assert e !in Current(s, k) ==> Spent(s, e);
    }
    forall d: nat, e: nat | d < e < |t.heap| && t.heap[d].key == k && t.heap[e].key == k
      ensures Apart(t, d, e)
    {
      assert Apart(s, d, e);
    }
  }

  lemma StepKeepsSpaced(s: State, step: Step, k: Key)
    requires Inv(s) && Enabled(s, step) && Spaced(s, k)
    requires step != Invalidate(k)
    ensures Spaced(Next(s, step), k)
  {
    if step.Lookup? {
      LookupKeepsSpaced(s, step.i, k);
    } else if step.Publish? {
      PublishKeepsSpaced(s, step.i, k);
    } else {
      var t := Next(s, step);
      assert Current(t, k) == Current(s, k);
      forall e: nat | e < |t.heap| && t.heap[e].key == k && e !in Current(t, k)
        ensures Spent(t, e)
      {
        assert Spent(s, e);
      }
      forall d: nat, e: nat | d < e < |t.heap| && t.heap[d].key == k && t.heap[e].key == k
        ensures Apart(t, d, e)
      {
        assert Apart(s, d, e);
      }
    }
  }

  lemma {:induction false} RunKeepsSpaced(s: State, steps: seq<Step>, k: Key)
    requires Inv(s) && Spaced(s, k) && Run(s, steps).Some?
    requires Run(s, steps).value.invalidated[k] == 0
    ensures Inv(Run(s, steps).value) && Spaced(Run(s, steps).value, k)
    ensures s.invalidated[k] == 0
    decreases |steps|
  {
    if steps != [] {
      var t := Next(s, steps[0]);
      StepKeepsInv(s, steps[0]);
      if steps[0] == Invalidate(k) {
        InvalidationsOnlyGrow(t, steps[1..], k);
      } else {
        StepKeepsSpaced(s, steps[0], k);
        RunKeepsSpaced(t, steps[1..], k);
      }
    }
  }

  lemma {:induction false} InvalidationsOnlyGrow(s: State, steps: seq<Step>, k: Key)
    requires Run(s, steps).Some?
    ensures s.invalidated[k] <= Run(s, steps).value.invalidated[k]
    decreases |steps|
  {
    if steps != [] {
      InvalidationsOnlyGrow(Next(s, steps[0]), steps[1..], k);
    }
  }

  predicate Successes(s: State, k: Key, es: seq<nat>) {
    && (forall j | 0 <= j < |es| :: es[j] < |s.heap| && s.heap[es[j]].key == k && s.heap[es[j]].Success())
    && (forall i, j | 0 <= i < j < |es| :: es[i] < es[j])
  }

  lemma {:induction false} SuccessesSpread(s: State, k: Key, es: seq<nat>)
    requires Inv(s) && Spaced(s, k) && Successes(s, k, es) && es != []
    ensures s.heap[es[|es| - 1]].fetchedAt - s.heap[es[0]].fetchedAt >= (|es| - 1) * Ttl(s)
  {
    if |es| > 1 {
      var init := es[..|es| - 1];
      SuccessesSpread(s, k, init);
      var d, e := es[|es| - 2], es[|es| - 1];
      assert EntryOk(s, e);
      assert Apart(s, d, e);
      assert (|es| - 1) * Ttl(s) == (|es| - 2) * Ttl(s) + Ttl(s);
    }
  }

  /** For a pair that is never invalidated: a claim comes at least the age bound
      after every earlier success, and so the successful fetches made inside any
      window number at most one plus the window over the age bound. */
  lemma FetchRateIsBounded(init: State, steps: seq<Step>, k: Key, es: seq<nat>, window: nat)
    requires Init(init) && Run(init, steps).Some?
    requires Run(init, steps).value.invalidated[k] == 0
    requires var s := Run(init, steps).value;
             && Ttl(s) > 0 && es != [] && Successes(s, k, es)
             && s.heap[es[|es| - 1]].fetchedAt - s.heap[es[0]].fetchedAt <= window
    ensures var s := Run(init, steps).value;
            && (forall d: nat, e: nat | d < e < |s.heap| && s.heap[d].key == k && s.heap[e].key == k && s.heap[d].Success() ::
                  s.heap[e].claimedAt - s.heap[d].fetchedAt >= Ttl(s))
            && |es| <= 1 + window / Ttl(s)
  {
    RunKeepsSpaced(init, steps, k);
    var s := Run(init, steps).value;
    SuccessesSpread(s, k, es);
    forall d: nat, e: nat | d < e < |s.heap| && s.heap[d].key == k && s.heap[e].key == k && s.heap[d].Success()
      ensures s.heap[e].claimedAt - s.heap[d].fetchedAt >= Ttl(s)
    {
      assert Apart(s, d, e);
    }
    DivideDown(|es| - 1, Ttl(s), window);
  }

  lemma DivideDown(q: nat, d: int, n: nat)
    requires d > 0 && q * d <= n
    ensures q <= n / d
  {
    assert (n / d + 1 - q) * d > 0;
  }
}
