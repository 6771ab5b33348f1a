/** The token-bucket limiter of server/ratelimit.go. Instants and durations are
    whole nanoseconds, as in the source; token balances are exact. */
module RateLimiter {
  import opened Reals
  import opened Results

  const NANOS := 1_000_000_000
  const EVICT_THRESHOLD := 4096
  const IDLE_EVICTION := 600 * NANOS

  datatype Config = Config(rate: real, burst: int)
  {
    predicate Enabled() { rate > 0.0 && burst > 0 }
  }

  datatype Bucket = Bucket(tokens: real, last: int)

  type Buckets = map<string, Bucket>

  function Min(a: real, b: real): real { if a <= b then a else b }

  /** Tokens earned over a span of time. */
  function Refill(c: Config, span: int): real {
    span as real / NANOS as real * c.rate
  }

  /** A bucket's balance brought up to `now`. */
  function Filled(c: Config, b: Bucket, now: int): real {
    if now - b.last > 0 then Min(c.burst as real, b.tokens + Refill(c, now - b.last)) else b.tokens
  }

  /** The sweep for idle buckets, worth doing only in a large map. */
  function Evict(m: Buckets, now: int): Buckets {
    if |m| < EVICT_THRESHOLD then m else map k | k in m && now - m[k].last <= IDLE_EVICTION :: m[k]
  }

  /** Look the client up, opening a full bucket for a new one. `sweep` tells the
      limiter from an ideal one that never evicts. */
  function Touch(c: Config, m: Buckets, key: string, now: int, sweep: bool): Buckets {
    if key in m then m
    else
      var grown := m[key := Bucket(c.burst as real, now)];
      if sweep then Evict(grown, now) else grown
  }

  datatype Decision = Decision(admitted: bool, wait: int)

  /** The exact wait, in nanoseconds, until a balance reaches one token. */
  function Need(c: Config, tokens: real): real
    requires c.rate > 0.0
  {
    (1.0 - tokens) / c.rate * NANOS as real
  }

  /** The decision on a balance; the wait is cut to whole nanoseconds. */
  function Judge(c: Config, tokens: real): Decision
    requires c.rate > 0.0
  {
    if tokens >= 1.0 then Decision(true, 0) else Decision(false, Need(c, tokens).Floor)
  }

  function Spend(tokens: real): real { if tokens >= 1.0 then tokens - 1.0 else tokens }

  function BalanceOf(c: Config, m: Buckets, key: string, now: int, sweep: bool): real {
    Filled(c, Touch(c, m, key, now, sweep)[key], now)
  }

  /** The buckets after one request. */
  function After(c: Config, m: Buckets, key: string, now: int, sweep: bool): Buckets {
    Touch(c, m, key, now, sweep)[key := Bucket(Spend(BalanceOf(c, m, key, now, sweep)), now)]
  }

  class Limiter {
    const cfg: Config
    var buckets: Buckets

    constructor (rate: real, burst: int)
      ensures cfg == Config(rate, burst) && buckets == map[]
    {
      cfg := Config(rate, burst);
      buckets := map[];
    }

    method EvictLocked(now: int)
      modifies this
      ensures buckets == Evict(old(buckets), now)
    {
      if |buckets| < EVICT_THRESHOLD {
        return;
      }
      ghost var was := buckets;
      var todo := buckets.Keys;
      while todo != {}
        invariant todo <= was.Keys
        invariant buckets == map k | k in was && (k in todo || now - was[k].last <= IDLE_EVICTION) :: was[k]
        decreases |todo|
      {
        var k :| k in todo;
        if now - buckets[k].last > IDLE_EVICTION {
          buckets := buckets - {k};
        }
        todo := todo - {k};
      }
    }

    /** Whether the client may proceed now and, if not, how long until it may. */
    method Allow(key: string, now: int) returns (ok: bool, wait: int)
      modifies this
      ensures !cfg.Enabled() ==> ok && wait == 0 && buckets == old(buckets)
      ensures cfg.Enabled() ==>
                Decision(ok, wait) == Judge(cfg, BalanceOf(cfg, old(buckets), key, now, true))
                && buckets == After(cfg, old(buckets), key, now, true)
    {
      if !cfg.Enabled() {
        return true, 0;
      }
      if key !in buckets {
        buckets := buckets[key := Bucket(cfg.burst as real, now)];
        EvictLocked(now);
      }
      var b := buckets[key];
      var elapsed := now - b.last;
      if elapsed > 0 {
        b := b.(tokens := Min(cfg.burst as real, b.tokens + Refill(cfg, elapsed)));
      }
      b := b.(last := now);
      if b.tokens >= 1.0 {
        buckets := buckets[key := b.(tokens := b.tokens - 1.0)];
        return true, 0;
      }
      buckets := buckets[key := b];
      return false, Need(cfg, b.tokens).Floor;
    }
  }

  /** The `Retry-After` header: whole seconds, rounded up, at least one. */
  function RetryAfterSeconds(wait: int): int {
    var secs := (wait + NANOS - 1) / NANOS;
    if secs < 1 then 1 else secs
  }

  // ------------------------------------------------------------------- levels

  /** Buckets that can occur: balances within the depth. */
  predicate Sane(c: Config, m: Buckets) { forall k | k in m :: 0.0 <= m[k].tokens <= c.burst as real }

  /** Those that can occur while stamps come in order: none last touched after `now`. */
  predicate Valid(c: Config, m: Buckets, now: int) { Sane(c, m) && forall k | k in m :: m[k].last <= now }

  /** The balance a client would find, remembered or not. */
  function Level(c: Config, m: Buckets, k: string, now: int): real {
    if k in m then Filled(c, m[k], now) else c.burst as real
  }

  /** Eviction forgets no more than a full bucket: the depth is earned back in the
      shortest idle time after which a bucket can be dropped. */
  predicate Forgettable(c: Config) {
    c.burst as real <= Refill(c, IDLE_EVICTION + 1)
  }

  lemma RefillAdds(c: Config, a: int, b: int)
    ensures Refill(c, a + b) == Refill(c, a) + Refill(c, b)
  {
    var n := NANOS as real;
    assert (a + b) as real / n == a as real / n + b as real / n;
  }

  lemma RefillNonnegative(c: Config, a: int)
    requires c.rate > 0.0 && a >= 0
    ensures Refill(c, a) >= 0.0
  {
    assert a as real / NANOS as real >= 0.0;
  }

  lemma RefillMonotone(c: Config, a: int, b: int)
    requires c.rate > 0.0 && a <= b
    ensures Refill(c, a) <= Refill(c, b)
  {
    RefillAdds(c, a, b - a);
    RefillNonnegative(c, b - a);
  }

  lemma LevelAdvances(c: Config, m: Buckets, k: string, s: int, t: int)
    requires c.Enabled() && Valid(c, m, s) && s <= t
    ensures Level(c, m, k, t) == Min(c.burst as real, Level(c, m, k, s) + Refill(c, t - s))
    ensures 0.0 <= Level(c, m, k, t) <= c.burst as real
  {
    RefillNonnegative(c, t - s);
    if k in m {
      RefillNonnegative(c, s - m[k].last);
      RefillNonnegative(c, t - m[k].last);
      RefillAdds(c, s - m[k].last, t - s);
      assert Refill(c, 0) == 0.0;
    }
  }

  function Ahead(span: int): nat { if span > 0 then span else 0 }

  /** Whatever order stamps come in, a level grows by no more than a step forward earns. */
  lemma LevelFollows(c: Config, m: Buckets, k: string, s: int, t: int)
    requires c.Enabled() && Sane(c, m)
    ensures Level(c, m, k, t) <= Level(c, m, k, s) + Refill(c, Ahead(t - s))
    ensures 0.0 <= Level(c, m, k, t) <= c.burst as real
  {
    RefillNonnegative(c, Ahead(t - s));
    if k in m {
      var last := m[k].last;
      RefillNonnegative(c, Ahead(t - last));
      RefillNonnegative(c, Ahead(s - last));
      RefillAdds(c, Ahead(s - last), Ahead(t - s));
      RefillMonotone(c, Ahead(t - last), Ahead(s - last) + Ahead(t - s));
    }
  }

  lemma AfterIsSane(c: Config, m: Buckets, key: string, now: int, sweep: bool)
    requires c.Enabled() && Sane(c, m)
    ensures Sane(c, After(c, m, key, now, sweep))
  {
    JudgedOnLevel(c, m, key, now, sweep);
    LevelFollows(c, m, key, now, now);
  }

  /** The balance a request is judged on is the client's level. */
  lemma JudgedOnLevel(c: Config, m: Buckets, key: string, now: int, sweep: bool)
    ensures BalanceOf(c, m, key, now, sweep) == Level(c, m, key, now)
  {
  }

  lemma AfterIsValid(c: Config, m: Buckets, key: string, now: int, sweep: bool)
    requires c.Enabled() && Valid(c, m, now)
    ensures Valid(c, After(c, m, key, now, sweep), now)
  {
    AfterIsSane(c, m, key, now, sweep);
  }

  lemma OwnLevel(c: Config, m: Buckets, key: string, now: int, sweep: bool)
    ensures Level(c, After(c, m, key, now, sweep), key, now) == Spend(Level(c, m, key, now))
  {
    JudgedOnLevel(c, m, key, now, sweep);
  }

  /** A request leaves every other client's level alone: what is evicted was full. */
  lemma OtherLevels(c: Config, m: Buckets, key: string, now: int, sweep: bool, k: string)
    requires c.Enabled() && Sane(c, m) && k != key
    requires sweep ==> Forgettable(c)
    ensures Level(c, After(c, m, key, now, sweep), k, now) == Level(c, m, k, now)
  {
    if k in m && k !in Touch(c, m, key, now, sweep) {
      RefillMonotone(c, IDLE_EVICTION + 1, now - m[k].last);
    }
  }

  // --------------------------------------------------------------------- runs

  datatype Request = Request(key: string, at: int)

  predicate Monotone(from: int, rs: seq<Request>)
    decreases |rs|
  {
    rs != [] ==> from <= rs[0].at && Monotone(rs[0].at, rs[1..])
  }

  function Play(c: Config, m: Buckets, rs: seq<Request>, sweep: bool): (ds: seq<Decision>)
    requires c.rate > 0.0
    ensures |ds| == |rs|
    decreases |rs|
  {
    if rs == [] then []
    else
      [Judge(c, BalanceOf(c, m, rs[0].key, rs[0].at, sweep))]
      + Play(c, After(c, m, rs[0].key, rs[0].at, sweep), rs[1..], sweep)
  }

  function EndState(c: Config, m: Buckets, rs: seq<Request>, sweep: bool): Buckets
    decreases |rs|
  {
    if rs == [] then m
    else EndState(c, After(c, m, rs[0].key, rs[0].at, sweep), rs[1..], sweep)
  }

  function EndTime(from: int, rs: seq<Request>): int
    decreases |rs|
  {
    if rs == [] then from else EndTime(rs[0].at, rs[1..])
  }

  /** The steps forward along the stamps, from `from` on. */
  function Forward(from: int, rs: seq<Request>): nat
    decreases |rs|
  {
    if rs == [] then 0 else Ahead(rs[0].at - from) + Forward(rs[0].at, rs[1..])
  }

  /** The steps back. */
  function Backward(from: int, rs: seq<Request>): nat
    decreases |rs|
  {
    if rs == [] then 0 else Ahead(from - rs[0].at) + Backward(rs[0].at, rs[1..])
  }

  /** What goes forward is what separates the ends and whatever went back; in order
      nothing does. */
  lemma {:induction false} ForwardIs(from: int, rs: seq<Request>)
    ensures Forward(from, rs) == EndTime(from, rs) - from + Backward(from, rs)
    ensures Monotone(from, rs) <==> Backward(from, rs) == 0
    decreases |rs|
  {
    if rs != [] {
      ForwardIs(rs[0].at, rs[1..]);
    }
  }

  /** How many of a client's requests were admitted. */
  function Admissions(rs: seq<Request>, ds: seq<Decision>, k: string): nat
    requires |rs| == |ds|
  {
    if rs == [] then 0
    else (if rs[0].key == k && ds[0].admitted then 1 else 0) + Admissions(rs[1..], ds[1..], k)
  }

  lemma {:induction false} TimesConcat(a: seq<Request>, b: seq<Request>, from: int)
    ensures Monotone(from, a + b) <==> Monotone(from, a) && Monotone(EndTime(from, a), b)
    ensures EndTime(from, a + b) == EndTime(EndTime(from, a), b)
    decreases |a|
  {
    if a == [] {
      assert a + b == b;
    } else {
      assert (a + b)[1..] == a[1..] + b && (a + b)[0] == a[0];
      TimesConcat(a[1..], b, a[0].at);
    }
  }

  lemma {:induction false} EndStateConcat(c: Config, m: Buckets, a: seq<Request>, b: seq<Request>, sweep: bool)
    ensures EndState(c, m, a + b, sweep) == EndState(c, EndState(c, m, a, sweep), b, sweep)
    decreases |a|
  {
    if a == [] {
      assert a + b == b;
    } else {
      assert (a + b)[1..] == a[1..] + b && (a + b)[0] == a[0];
      EndStateConcat(c, After(c, m, a[0].key, a[0].at, sweep), a[1..], b, sweep);
    }
  }

  lemma {:induction false} DecisionsConcat(c: Config, m: Buckets, a: seq<Request>, b: seq<Request>, sweep: bool)
    requires c.rate > 0.0
    ensures Play(c, m, a + b, sweep) == Play(c, m, a, sweep) + Play(c, EndState(c, m, a, sweep), b, sweep)
    decreases |a|
  {
    if a == [] {
      assert a + b == b;
    } else {
      assert (a + b)[1..] == a[1..] + b && (a + b)[0] == a[0];
      DecisionsConcat(c, After(c, m, a[0].key, a[0].at, sweep), a[1..], b, sweep);
    }
  }

  lemma PlayConcat(c: Config, m: Buckets, a: seq<Request>, b: seq<Request>, sweep: bool, from: int)
    requires c.rate > 0.0
    ensures Play(c, m, a + b, sweep) == Play(c, m, a, sweep) + Play(c, EndState(c, m, a, sweep), b, sweep)
    ensures EndState(c, m, a + b, sweep) == EndState(c, EndState(c, m, a, sweep), b, sweep)
    ensures Monotone(from, a + b) <==> Monotone(from, a) && Monotone(EndTime(from, a), b)
    ensures EndTime(from, a + b) == EndTime(EndTime(from, a), b)
  {
    TimesConcat(a, b, from);
    EndStateConcat(c, m, a, b, sweep);
    DecisionsConcat(c, m, a, b, sweep);
  }

  lemma {:induction false} AdmissionsConcat(a: seq<Request>, da: seq<Decision>, b: seq<Request>, db: seq<Decision>, k: string)
    requires |a| == |da| && |b| == |db|
    ensures Admissions(a + b, da + db, k) == Admissions(a, da, k) + Admissions(b, db, k)
  {
    if a == [] {
      assert a + b == b && da + db == db;
    } else {
      assert (a + b)[1..] == a[1..] + b && (da + db)[1..] == da[1..] + db;
      AdmissionsConcat(a[1..], da[1..], b, db, k);
    }
  }

  lemma {:induction false} EndIsValid(c: Config, m: Buckets, from: int, rs: seq<Request>, sweep: bool)
    requires c.Enabled() && Valid(c, m, from) && Monotone(from, rs)
    ensures Valid(c, EndState(c, m, rs, sweep), EndTime(from, rs)) && from <= EndTime(from, rs)
    decreases |rs|
  {
    if rs != [] {
      AfterIsValid(c, m, rs[0].key, rs[0].at, sweep);
      EndIsValid(c, After(c, m, rs[0].key, rs[0].at, sweep), rs[0].at, rs[1..], sweep);
    }
  }

  /** Tokens are conserved, in whatever order the stamps come: what a client is admitted
      it had, or the steps forward earned. */
  lemma {:induction false} AdmissionsArePaidFor(c: Config, m: Buckets, from: int, rs: seq<Request>, k: string, sweep: bool)
    requires c.Enabled() && Sane(c, m)
    requires sweep ==> Forgettable(c)
    ensures Admissions(rs, Play(c, m, rs, sweep), k) as real + Level(c, EndState(c, m, rs, sweep), k, EndTime(from, rs))
         <= Level(c, m, k, from) + Refill(c, Forward(from, rs))
    ensures Sane(c, EndState(c, m, rs, sweep))
    decreases |rs|
  {
    if rs == [] {
      assert Refill(c, 0) == 0.0;
    } else {
      var q := rs[0];
      var next := After(c, m, q.key, q.at, sweep);
      LevelFollows(c, m, k, from, q.at);
      JudgedOnLevel(c, m, q.key, q.at, sweep);
      if q.key == k {
        OwnLevel(c, m, k, q.at, sweep);
      } else {
        OtherLevels(c, m, q.key, q.at, sweep, k);
      }
      AfterIsSane(c, m, q.key, q.at, sweep);
      AdmissionsArePaidFor(c, next, q.at, rs[1..], k, sweep);
      RefillAdds(c, Ahead(q.at - from), Forward(q.at, rs[1..]));
      var ds := Play(c, m, rs, sweep);
      assert ds[1..] == Play(c, next, rs[1..], sweep);
    }
  }

  /** The steps forward between one client's own stamps, from `from` on if it is known. */
  function OwnForward(from: Option<int>, rs: seq<Request>, k: string): nat
    decreases |rs|
  {
    if rs == [] then 0
    else if rs[0].key != k then OwnForward(from, rs[1..], k)
    else (if from.Some? then Ahead(rs[0].at - from.value) else 0) + OwnForward(Some(rs[0].at), rs[1..], k)
  }

  function Held(c: Config, m: Buckets, k: string): real { if k in m then m[k].tokens else c.burst as real }

  function LastOf(m: Buckets, k: string): Option<int> { if k in m then Some(m[k].last) else None }

  /** Without eviction only the client's own stamps matter: it is admitted what it had, or
      what the steps forward between its own requests earned. */
  lemma {:induction false} OwnStepsPay(c: Config, m: Buckets, rs: seq<Request>, k: string)
    requires c.Enabled() && Sane(c, m)
    ensures Admissions(rs, Play(c, m, rs, false), k) as real + Held(c, EndState(c, m, rs, false), k)
         <= Held(c, m, k) + Refill(c, OwnForward(LastOf(m, k), rs, k))
    ensures Sane(c, EndState(c, m, rs, false))
    decreases |rs|
  {
    if rs == [] {
      assert Refill(c, 0) == 0.0;
    } else {
      var q := rs[0];
      var next := After(c, m, q.key, q.at, false);
      AfterIsSane(c, m, q.key, q.at, false);
      OwnStepsPay(c, next, rs[1..], k);
      var ds := Play(c, m, rs, false);
      assert ds[1..] == Play(c, next, rs[1..], false);
      if q.key == k {
        JudgedOnLevel(c, m, k, q.at, false);
        var step := if k in m then Ahead(q.at - m[k].last) else 0;
        RefillAdds(c, step, OwnForward(Some(q.at), rs[1..], k));
      }
    }
  }

  /** Two limiters whose clients all have the same levels decide alike from there
      on, whether or not they sweep. */
  lemma {:induction false} EqualLevelsDecideAlike(c: Config, m: Buckets, n: Buckets, from: int, rs: seq<Request>)
    requires c.Enabled() && Forgettable(c) && Monotone(from, rs)
    requires Valid(c, m, from) && Valid(c, n, from)
    requires forall k :: Level(c, m, k, from) == Level(c, n, k, from)
    ensures Play(c, m, rs, true) == Play(c, n, rs, false)
    decreases |rs|
  {
    if rs != [] {
      var q := rs[0];
      var m', n' := After(c, m, q.key, q.at, true), After(c, n, q.key, q.at, false);
      forall k
        ensures Level(c, m, k, q.at) == Level(c, n, k, q.at)
      {
        LevelAdvances(c, m, k, from, q.at);
        LevelAdvances(c, n, k, from, q.at);
      }
      forall k
        ensures Level(c, m', k, q.at) == Level(c, n', k, q.at)
      {
        OwnLevel(c, m, q.key, q.at, true);
        OwnLevel(c, n, q.key, q.at, false);
        if k != q.key {
          OtherLevels(c, m, q.key, q.at, true, k);
          OtherLevels(c, n, q.key, q.at, false, k);
        }
      }
      JudgedOnLevel(c, m, q.key, q.at, true);
      JudgedOnLevel(c, n, q.key, q.at, false);
      AfterIsValid(c, m, q.key, q.at, true);
      AfterIsValid(c, n, q.key, q.at, false);
      EqualLevelsDecideAlike(c, m', n', q.at, rs[1..]);
    }
  }

  // ------------------------------------------------------- the eviction witness

  function Times(k: string, at: int, n: nat): (rs: seq<Request>)
    ensures |rs| == n && forall i | 0 <= i < n :: rs[i] == Request(k, at)
  {
    if n == 0 then [] else [Request(k, at)] + Times(k, at, n - 1)
  }

  /** While fewer than 4096 clients are known, no configuration forgets any of them. */
  lemma {:induction false} FewAreNeverForgotten(c: Config, m: Buckets, rs: seq<Request>, keys: set<string>)
    requires c.rate > 0.0 && m.Keys <= keys && |keys| < 4096 && forall r | r in rs :: r.key in keys
    ensures Play(c, m, rs, true) == Play(c, m, rs, false) && EndState(c, m, rs, true) == EndState(c, m, rs, false)
    decreases |rs|
  {
    if rs != [] {
      var q := rs[0];
      assert q in rs;
      var grown := m[q.key := Bucket(c.burst as real, q.at)];
      assert grown.Keys == m.Keys + {q.key};
      Fewer(grown.Keys, keys);
      assert |grown| == |grown.Keys|;
      assert Touch(c, m, q.key, q.at, true) == Touch(c, m, q.key, q.at, false);
      var next := After(c, m, q.key, q.at, true);
      assert next.Keys <= keys;
      FewAreNeverForgotten(c, next, rs[1..], keys);
    }
  }

  lemma {:induction false} Fewer(a: set<string>, b: set<string>)
    requires a <= b
    ensures |a| <= |b|
  {
    if a != {} {
      var x :| x in a;
      Fewer(a - {x}, b - {x});
    }
  }

  /** As many requests at one instant as the level allows are all admitted. */
  lemma {:induction false} BurstIsAdmitted(c: Config, m: Buckets, k: string, at: int, n: nat)
    requires c.Enabled() && Sane(c, m) && Level(c, m, k, at) >= n as real
    ensures Admissions(Times(k, at, n), Play(c, m, Times(k, at, n), true), k) == n
    ensures Monotone(at, Times(k, at, n)) && EndTime(at, Times(k, at, n)) == at
    ensures n > 0 ==> var e := EndState(c, m, Times(k, at, n), true);
                      k in e && e[k].last == at && (k in m ==> e.Keys == m.Keys)
                      && (m == map[] ==> e.Keys == {k})
    decreases n
  {
    if n > 0 {
      var rs := Times(k, at, n);
      JudgedOnLevel(c, m, k, at, true);
      OwnLevel(c, m, k, at, true);
      AfterIsSane(c, m, k, at, true);
      var next := After(c, m, k, at, true);
      assert rs[1..] == Times(k, at, n - 1);
      BurstIsAdmitted(c, next, k, at, n - 1);
      assert Play(c, m, rs, true)[1..] == Play(c, next, rs[1..], true);
    }
  }

  lemma {:induction false} LongestOf(keys: set<string>) returns (n: nat)
    ensures forall k | k in keys :: |k| <= n
  {
    n := 0;
    if keys != {} {
      var x :| x in keys;
      n := LongestOf(keys - {x});
      n := if |x| > n then |x| else n;
    }
  }

  /** Some client the limiter has not seen. */
  lemma Newcomer(m: Buckets) returns (k: string)
    ensures k !in m
  {
    var n := LongestOf(m.Keys);
    k := seq(n + 1, _ => 'x');
    assert k !in m.Keys;
  }

  /** Requests that all come at one instant, none of them from `k`. */
  predicate Strangers(rs: seq<Request>, k: string, at: int) {
    forall i | 0 <= i < |rs| :: rs[i].key != k && rs[i].at == at
  }

  lemma {:induction false} OneInstant(rs: seq<Request>, k: string, at: int)
    requires Strangers(rs, k, at)
    ensures Monotone(at, rs) && EndTime(at, rs) == at
    decreases |rs|
  {
    if rs != [] {
      OneInstant(rs[1..], k, at);
    }
  }

  /** A newcomer's request either makes the map larger or sweeps an idle client out. */
  lemma NewcomerArrives(c: Config, m: Buckets, k: string, other: string, at: int)
    requires k in m && other !in m && at - m[k].last > IDLE_EVICTION
    ensures var next := After(c, m, other, at, true);
            k !in next || (next[k] == m[k] && |next| == |m| + 1 && |next| < EVICT_THRESHOLD)
  {
    var grown := m[other := Bucket(c.burst as real, at)];
    assert |grown| == |m| + 1;
    var next := After(c, m, other, at, true);
    if |grown| < EVICT_THRESHOLD {
      assert next.Keys == grown.Keys && |next| == |next.Keys| == |grown.Keys|;
    }
  }

  /** From any state, enough newcomers at one instant sweep an idle client out. */
  lemma {:induction false} CrowdSweeps(c: Config, m: Buckets, k: string, at: int) returns (crowd: seq<Request>)
    requires c.Enabled() && Valid(c, m, at) && (k in m ==> at - m[k].last > IDLE_EVICTION)
    ensures Strangers(crowd, k, at)
    ensures k !in EndState(c, m, crowd, true) && Valid(c, EndState(c, m, crowd, true), at)
    ensures Level(c, EndState(c, m, crowd, true), k, at) == c.burst as real
    decreases if k in m then 1 else 0, EVICT_THRESHOLD - |m|
  {
    if k !in m {
      crowd := [];
    } else {
      var first := Newcomer(m);
      var next := After(c, m, first, at, true);
      NewcomerArrives(c, m, k, first, at);
      AfterIsValid(c, m, first, at, true);
      var rest := CrowdSweeps(c, next, k, at);
      crowd := [Request(first, at)] + rest;
      assert crowd[1..] == rest;
    }
  }

  /** When eviction forgets more than was earned, a client that spends its burst, waits
      out a long enough silence filled by strangers and returns gets its whole burst
      again. */
  lemma ComebackIsAdmittedTwice(c: Config) returns (rs: seq<Request>)
    requires c.Enabled()
    ensures rs != [] && rs[0].at == 0 && Monotone(0, rs) && EndTime(0, rs) == IDLE_EVICTION + 1
    ensures Admissions(rs, Play(c, map[], rs, true), "") >= 2 * c.burst
  {
    var t := IDLE_EVICTION + 1;
    var first, again := Times("", 0, c.burst), Times("", t, c.burst);
    BurstIsAdmitted(c, map[], "", 0, c.burst);
    EndIsValid(c, map[], 0, first, true);
    var m := EndState(c, map[], first, true);
    assert first[0].at == 0;
    hide Times, EndState, Play, After, Level;
    var crowd := CrowdSweeps(c, m, "", t);
    OneInstant(crowd, "", t);
    var e := EndState(c, m, crowd, true);
    BurstIsAdmitted(c, e, "", t, c.burst);
    var a := first + crowd;
    PlayConcat(c, map[], first, crowd, true, 0);
    AdmissionsConcat(first, Play(c, map[], first, true), crowd, Play(c, m, crowd, true), "");
    PlayConcat(c, map[], a, again, true, 0);
    AdmissionsConcat(a, Play(c, map[], a, true), again, Play(c, e, again, true), "");
    rs := a + again;
  }

  // ------------------------------------------------------------- main results

  /** The budget of a run: no client is admitted more than the burst plus the rate
      times the elapsed time. */
  predicate WithinBudget(c: Config, from: int, rs: seq<Request>, ds: seq<Decision>, k: string)
    requires |rs| == |ds|
  {
    Admissions(rs, ds, k) as real <= c.burst as real + Refill(c, EndTime(from, rs) - from)
  }

  /** The same with the steps forward in place of the elapsed time. */
  predicate WithinSteps(c: Config, rs: seq<Request>, ds: seq<Decision>, k: string)
    requires |rs| == |ds| && rs != []
  {
    Admissions(rs, ds, k) as real <= c.burst as real + Refill(c, Forward(rs[0].at, rs))
  }

  /** In any run, over any stretch of it and in whatever order the stamps reach the
      limiter, a client's admissions are paid for by the burst and the steps forward,
      provided that eviction forgets no more than a full bucket. */
  lemma StepBound(c: Config, before: seq<Request>, window: seq<Request>, k: string)
    requires c.Enabled() && Forgettable(c) && window != []
    ensures var m := EndState(c, map[], before, true);
            Play(c, map[], before + window, true) == Play(c, map[], before, true) + Play(c, m, window, true)
            && WithinSteps(c, window, Play(c, m, window, true), k)
  {
    PlayConcat(c, map[], before, window, true, 0);
    AdmissionsArePaidFor(c, map[], 0, before, k, true);
    var from := window[0].at;
    var m := EndState(c, map[], before, true);
    AdmissionsArePaidFor(c, m, from, window, k, true);
    LevelFollows(c, m, k, from, from);
    LevelFollows(c, EndState(c, m, window, true), k, EndTime(from, window), EndTime(from, window));
  }

  /** When stamps come in order the steps forward are the elapsed time: over any stretch of
      any run, each client stays within budget, the time running from the stretch's first
      request to its last. */
  lemma WindowBound(c: Config, before: seq<Request>, window: seq<Request>, start: int, k: string)
    requires c.Enabled() && Forgettable(c) && window != [] && Monotone(start, before + window)
    ensures var m := EndState(c, map[], before, true);
            Play(c, map[], before + window, true) == Play(c, map[], before, true) + Play(c, m, window, true)
            && WithinBudget(c, window[0].at, window, Play(c, m, window, true), k)
  {
    StepBound(c, before, window, k);
    TimesConcat(before, window, start);
    ForwardIs(window[0].at, window);
  }

  lemma EvictionShows(c: Config) returns (rs: seq<Request>)
    requires c.Enabled() && !Forgettable(c)
    ensures rs != [] && Monotone(0, rs) && Play(c, map[], rs, true) != Play(c, map[], rs, false)
    ensures Monotone(0, [] + rs)
    ensures !WithinBudget(c, rs[0].at, rs, Play(c, EndState(c, map[], [], true), rs, true), "")
    ensures !WithinSteps(c, rs, Play(c, EndState(c, map[], [], true), rs, true), "")
  {
    rs := ComebackIsAdmittedTwice(c);
    AdmissionsArePaidFor(c, map[], 0, rs, "", false);
    LevelFollows(c, EndState(c, map[], rs, false), "", EndTime(0, rs), EndTime(0, rs));
    ForwardIs(0, rs);
    assert [] + rs == rs;
  }

  /** With stamps in order the eviction sweep is unobservable, and the budget holds over
      every stretch of every run, and in any order the bound by steps forward holds,
      exactly when the burst is at most what the rate earns in the shortest
      evictable idle time, one nanosecond over ten minutes. */
  lemma EvictionThreshold(c: Config)
    requires c.Enabled()
    ensures Forgettable(c) <==>
              forall start: int, rs: seq<Request> | Monotone(start, rs) :: Play(c, map[], rs, true) == Play(c, map[], rs, false)
    ensures Forgettable(c) <==>
              forall start: int, before: seq<Request>, window: seq<Request>, k: string
                | window != [] && Monotone(start, before + window) ::
                WithinBudget(c, window[0].at, window, Play(c, EndState(c, map[], before, true), window, true), k)
    ensures Forgettable(c) <==>
              forall before: seq<Request>, window: seq<Request>, k: string | window != [] ::
                WithinSteps(c, window, Play(c, EndState(c, map[], before, true), window, true), k)
  {
    hide Forgettable, Monotone, Play, EndState, WithinBudget, WithinSteps;
    if Forgettable(c) {
      forall start: int, rs: seq<Request> | Monotone(start, rs)
        ensures Play(c, map[], rs, true) == Play(c, map[], rs, false)
      {
        EqualLevelsDecideAlike(c, map[], map[], start, rs);
      }
      forall start: int, before: seq<Request>, window: seq<Request>, k: string
        | window != [] && Monotone(start, before + window)
        ensures WithinBudget(c, window[0].at, window, Play(c, EndState(c, map[], before, true), window, true), k)
      {
        WindowBound(c, before, window, start, k);
      }
      forall before: seq<Request>, window: seq<Request>, k: string | window != []
        ensures WithinSteps(c, window, Play(c, EndState(c, map[], before, true), window, true), k)
      {
        StepBound(c, before, window, k);
      }
    } else {
      var rs := EvictionShows(c);
      var none: seq<Request> := [];
      assert Monotone(0, rs) && Play(c, map[], rs, true) != Play(c, map[], rs, false);
      assert Monotone(0, none + rs) && !WithinBudget(c, rs[0].at, rs, Play(c, EndState(c, map[], none, true), rs, true), "");
      assert !WithinSteps(c, rs, Play(c, EndState(c, map[], none, true), rs, true), "");
    }
  }

  // ---------------------------------------------------- stamps out of order

  /** Pairs of overlapping calls whose earlier stamp reaches the limiter first, then its
      later one, over and over. */
  function Teeth(t: int, n: nat): seq<Request> {
    if n == 0 then [] else [Request("", 0), Request("", t)] + Teeth(t, n - 1)
  }

  lemma {:induction false} EveryToothIsAdmitted(c: Config, m: Buckets, t: int, n: nat)
    requires c.Enabled() && Sane(c, m) && t > 0 && Refill(c, t) >= 1.0
    ensures Admissions(Teeth(t, n), Play(c, m, Teeth(t, n), true), "") >= n
    ensures n > 0 ==> EndTime(0, Teeth(t, n)) == t
    ensures forall i | 0 <= i < |Teeth(t, n)| :: 0 <= Teeth(t, n)[i].at <= t
    decreases n
  {
    if n > 0 {
      var rs := Teeth(t, n);
      var low := After(c, m, "", 0, true);
      var high := After(c, low, "", t, true);
      AfterIsSane(c, m, "", 0, true);
      AfterIsSane(c, low, "", t, true);
      assert low[""].last == 0;
      JudgedOnLevel(c, low, "", t, true);
      EveryToothIsAdmitted(c, high, t, n - 1);
      var ds := Play(c, m, rs, true);
      assert rs[1..][1..] == Teeth(t, n - 1);
      assert EndTime(0, rs) == EndTime(t, Teeth(t, n - 1));
      assert ds[1..] == Play(c, low, rs[1..], true);
      assert ds[1..][1..] == Play(c, high, rs[1..][1..], true);
    }
  }

  /** A stamp is taken before the lock, so stamps can reach the limiter out of order; then
      the same span is earned again and again. For every configuration some run with all
      its stamps in one span admits more than the budget for that span. */
  lemma OutOfOrderBreaksTheBudget(c: Config) returns (rs: seq<Request>, span: int)
    requires c.Enabled()
    ensures rs != [] && rs[0].at == 0 && EndTime(0, rs) == span
    ensures forall i | 0 <= i < |rs| :: 0 <= rs[i].at <= span
    ensures !WithinBudget(c, 0, rs, Play(c, map[], rs, true), "")
  {
    var need := Need(c, 0.0);
    assert need > 0.0 by { assert need / NANOS as real * c.rate == 1.0; }
    span := need.Floor + 1;
    EarnedEnough(c, 0.0, span);
    var n := (c.burst as real + Refill(c, span)).Floor + 1;
    EveryToothIsAdmitted(c, map[], span, n);
    rs := Teeth(span, n);
  }

  /** Out of order, eviction shows under every configuration: a client whose own stamps
      never move can have its burst twice, with the sweep's stamp between. So with eviction
      the steps of all stamps count, not of the client's own alone. */
  lemma LateStampsShowEviction(c: Config) returns (rs: seq<Request>)
    requires c.Enabled()
    ensures OwnForward(None, rs, "") == 0
    ensures Admissions(rs, Play(c, map[], rs, true), "") >= 2 * c.burst
    ensures Play(c, map[], rs, true) != Play(c, map[], rs, false)
  {
    var t := IDLE_EVICTION + 1;
    var burst := Times("", 0, c.burst);
    BurstIsAdmitted(c, map[], "", 0, c.burst);
    EndIsValid(c, map[], 0, burst, true);
    var m := EndState(c, map[], burst, true);
    assert forall i | 0 <= i < |burst| :: burst[i].at == 0;
    hide Times, EndState, Play, After, Level, Strangers, OwnForward;
    var crowd := CrowdSweeps(c, m, "", t);
    var e := EndState(c, m, crowd, true);
    BurstIsAdmitted(c, e, "", 0, c.burst);
    var a := burst + crowd;
    PlayConcat(c, map[], burst, crowd, true, 0);
    AdmissionsConcat(burst, Play(c, map[], burst, true), crowd, Play(c, m, crowd, true), "");
    PlayConcat(c, map[], a, burst, true, 0);
    AdmissionsConcat(a, Play(c, map[], a, true), burst, Play(c, e, burst, true), "");
    rs := a + burst;
    StandingStill(burst, crowd, t);
    NoStepsNoMore(c, rs);
  }

  lemma NoStepsNoMore(c: Config, rs: seq<Request>)
    requires c.Enabled() && OwnForward(None, rs, "") == 0
    ensures Admissions(rs, Play(c, map[], rs, false), "") <= c.burst
  {
    OwnStepsPay(c, map[], rs, "");
    assert Refill(c, 0) == 0.0;
  }

  lemma StandingStill(burst: seq<Request>, crowd: seq<Request>, t: int)
    requires (forall i | 0 <= i < |burst| :: burst[i].at == 0) && Strangers(crowd, "", t)
    ensures OwnForward(None, burst + crowd + burst, "") == 0
  {
    OwnStamps(None, burst + crowd + burst);
  }

  lemma {:induction false} OwnStamps(from: Option<int>, rs: seq<Request>)
    requires from.Some? ==> from.value == 0
    requires forall i | 0 <= i < |rs| && rs[i].key == "" :: rs[i].at == 0
    ensures OwnForward(from, rs, "") == 0
    decreases |rs|
  {
    if rs != [] {
      OwnStamps(if rs[0].key == "" then Some(0) else from, rs[1..]);
    }
  }

  // --------------------------------------------------------------- the wait told

  predicate Others(rs: seq<Request>, k: string) { forall i | 0 <= i < |rs| :: rs[i].key != k }

  /** A bucket its client does not touch stays as it is, or goes once it has been idle
      long enough. */
  lemma {:induction false} BucketStaysOrGoes(c: Config, m: Buckets, from: int, rs: seq<Request>, k: string)
    requires c.Enabled() && Valid(c, m, from) && Monotone(from, rs) && Others(rs, k)
    ensures from <= EndTime(from, rs)
    ensures k !in m ==> k !in EndState(c, m, rs, true)
    ensures var e := EndState(c, m, rs, true);
            k in m ==> if k in e then e[k] == m[k] else EndTime(from, rs) - m[k].last > IDLE_EVICTION
    decreases |rs|
  {
    if rs != [] {
      var q := rs[0];
      AfterIsValid(c, m, q.key, q.at, true);
      BucketStaysOrGoes(c, After(c, m, q.key, q.at, true), q.at, rs[1..], k);
    }
  }

  /** What a client that was denied finds on its return, whatever the others did: what
      it had and has earned since or, if it stayed away long enough to be forgotten, a
      full bucket. */
  lemma BalanceOnReturn(c: Config, m: Buckets, key: string, now: int, between: seq<Request>, t: int)
    requires c.Enabled() && Valid(c, m, now)
    requires Level(c, m, key, now) < 1.0
    requires Monotone(now, between) && EndTime(now, between) <= t && Others(between, key)
    ensures var balance := BalanceOf(c, EndState(c, After(c, m, key, now, true), between, true), key, t, true);
            || balance == Min(c.burst as real, Level(c, m, key, now) + Refill(c, t - now))
            || (balance == c.burst as real && t - now > IDLE_EVICTION)
  {
    var next := After(c, m, key, now, true);
    var back := EndState(c, next, between, true);
    AfterIsValid(c, m, key, now, true);
    BucketStaysOrGoes(c, next, now, between, key);
    JudgedOnLevel(c, back, key, t, true);
    OwnLevel(c, m, key, now, true);
    LevelAdvances(c, next, key, now, t);
    assert key in back ==> Level(c, back, key, t) == Level(c, next, key, t);
  }

  /** A token is earned before the client could be forgotten. */
  predicate BeforeEviction(c: Config, level: real)
    requires c.rate > 0.0
  {
    Need(c, level) <= (IDLE_EVICTION + 1) as real
  }

  /** A denied client that comes back at `t`, whatever the others did meanwhile, is
      admitted exactly when `t` lies `Need` or more ahead, provided that is no later
      than it could be forgotten. The wait it was told is `Need` cut to whole
      nanoseconds: less is never enough, one nanosecond more always is, and the wait
      itself is enough exactly when nothing was cut. */
  lemma DenialWait(c: Config, m: Buckets, key: string, now: int, between: seq<Request>, back: Buckets, t: int)
    requires c.Enabled() && Valid(c, m, now)
    requires Level(c, m, key, now) < 1.0 && BeforeEviction(c, Level(c, m, key, now))
    requires Monotone(now, between) && EndTime(now, between) <= t && Others(between, key)
    requires back == EndState(c, After(c, m, key, now, true), between, true)
    ensures var need := Need(c, Level(c, m, key, now));
            var denial := Judge(c, BalanceOf(c, m, key, now, true));
            var retry := Judge(c, BalanceOf(c, back, key, t, true));
            && denial == Decision(false, need.Floor) && denial.wait <= IDLE_EVICTION + 1
            && (retry.admitted <==> (t - now) as real >= need)
            && (t - now < denial.wait ==> !retry.admitted)
            && (t - now > denial.wait ==> retry.admitted)
            && (t - now == denial.wait ==> (retry.admitted <==> need == denial.wait as real))
  {
    var level := Level(c, m, key, now);
    JudgedOnLevel(c, m, key, now, true);
    BalanceOnReturn(c, m, key, now, between, t);
    hide Level, BalanceOf, After, EndState, Refill, Need;
    JudgeLater(c, level, t - now);
  }

  /** The condition is exact: beyond it a crowd of newcomers gets the denied client
      admitted early. */
  lemma DenialWaitThreshold(c: Config, m: Buckets, key: string, now: int)
    requires c.Enabled() && Valid(c, m, now) && Level(c, m, key, now) < 1.0
    ensures var next, need := After(c, m, key, now, true), Need(c, Level(c, m, key, now));
            BeforeEviction(c, Level(c, m, key, now)) <==>
              forall between: seq<Request>, t: int
                | Monotone(now, between) && EndTime(now, between) <= t && Others(between, key) ::
                Judge(c, BalanceOf(c, EndState(c, next, between, true), key, t, true)).admitted <==> (t - now) as real >= need
  {
    var level, next := Level(c, m, key, now), After(c, m, key, now, true);
    if BeforeEviction(c, level) {
      forall between: seq<Request>, t: int
        | Monotone(now, between) && EndTime(now, between) <= t && Others(between, key)
        ensures Judge(c, BalanceOf(c, EndState(c, next, between, true), key, t, true)).admitted <==> (t - now) as real >= Need(c, level)
      {
        DenialWait(c, m, key, now, between, EndState(c, next, between, true), t);
      }
    } else {
      var crowd := ForgottenEarly(c, m, key, now);
      assert Monotone(now, crowd) && EndTime(now, crowd) <= now + IDLE_EVICTION + 1 && Others(crowd, key);
    }
  }

  lemma ForgottenEarly(c: Config, m: Buckets, key: string, now: int) returns (crowd: seq<Request>)
    requires c.Enabled() && Valid(c, m, now)
    ensures var t := now + IDLE_EVICTION + 1;
            && Monotone(now, crowd) && EndTime(now, crowd) <= t && Others(crowd, key)
            && Judge(c, BalanceOf(c, EndState(c, After(c, m, key, now, true), crowd, true), key, t, true)).admitted
  {
    var t := now + IDLE_EVICTION + 1;
    var next := After(c, m, key, now, true);
    AfterIsValid(c, m, key, now, true);
    crowd := CrowdSweeps(c, next, key, t);
    OneInstant(crowd, key, t);
    JudgedOnLevel(c, EndState(c, next, crowd, true), key, t, true);
  }

  /** Every denial is within the condition exactly when the rate earns one token in ten
      minutes and a nanosecond, whatever the burst; so it is when eviction is
      unobservable. */
  lemma WaitsAreShortExactly(c: Config)
    requires c.Enabled()
    ensures (forall level: real | 0.0 <= level < 1.0 :: BeforeEviction(c, level)) <==> Refill(c, IDLE_EVICTION + 1) >= 1.0
    ensures Forgettable(c) ==> Refill(c, IDLE_EVICTION + 1) >= 1.0
  {
    hide Need, Refill;
    forall level: real | 0.0 <= level < 1.0
      ensures BeforeEviction(c, level) <==> level + Refill(c, IDLE_EVICTION + 1) >= 1.0
    {
      EarnedEnough(c, level, IDLE_EVICTION + 1);
    }
    assert BeforeEviction(c, 0.0) <==> Refill(c, IDLE_EVICTION + 1) >= 1.0;
  }

  lemma JudgeLater(c: Config, level: real, span: int)
    requires c.Enabled() && level < 1.0
    ensures var need := Need(c, level);
            var denial, retry := Judge(c, level), Judge(c, Min(c.burst as real, level + Refill(c, span)));
            && denial == Decision(false, need.Floor)
            && (retry.admitted <==> span as real >= need)
            && (span < denial.wait ==> !retry.admitted)
            && (span > denial.wait ==> retry.admitted)
            && (span == denial.wait ==> (retry.admitted <==> need == denial.wait as real))
  {
    EarnedEnough(c, level, span);
  }

  lemma EarnedEnough(c: Config, level: real, span: int)
    requires c.Enabled() && level < 1.0
    ensures level + Refill(c, span) >= 1.0 <==> span as real >= Need(c, level)
  {
    var seconds, lack := span as real / NANOS as real, (1.0 - level) / c.rate;
    assert lack * c.rate == 1.0 - level;
    Scale(c.rate, lack, seconds);
  }

  /** The header is rounded up from the wait, not from the need, so a client that
      honours it is refused again exactly when the wait is a positive whole number
      of seconds from which a fraction of a nanosecond was cut. */
  lemma RetryAfterIsEnough(need: real)
    requires need > 0.0
    ensures var wait := need.Floor;
            (RetryAfterSeconds(wait) * NANOS) as real >= need <==> !(wait > 0 && wait % NANOS == 0 && need != wait as real)
  {
    var wait := need.Floor;
    assert wait == NANOS * (wait / NANOS) + wait % NANOS;
  }

  /** Such a limiter: one token every 1.0000000005 seconds, and a client that has
      just spent its only token. */
  lemma RetryAfterCanFallShort()
    ensures var c := Config(2_000_000_000.0 / 2_000_000_001.0, 1);
            var d := Judge(c, 0.0);
            c.Enabled() && Forgettable(c) && d == Decision(false, NANOS) && RetryAfterSeconds(d.wait) == 1
            && (RetryAfterSeconds(d.wait) * NANOS) as real < Need(c, 0.0)
  {
    var c := Config(2_000_000_000.0 / 2_000_000_001.0, 1);
    assert Need(c, 0.0) == 1_000_000_000.5;
  }
}
