/** The inbound token-bucket limiter: one bucket per client, a bound on how many buckets are kept, and
    one shared bucket for the clients beyond it. Tokens and seconds are reals; the clock does not run
    backwards. */
module RateLimiter {

  const OVERFLOW_KEY: string := ['\0'] + "overflow"

  datatype Bucket = Bucket(tokens: real, last: real)

  datatype Config = Config(rate: real, burst: real, maxBuckets: int)

  type Buckets = map<string, Bucket>

  predicate Positive(c: Config) {
    c.rate > 0.0 && c.burst >= 1.0 && c.maxBuckets >= 1
  }

  /** Every bucket holds between nothing and the burst, and was last touched no later than now. */
  ghost predicate Sound(c: Config, m: Buckets, now: real) {
    forall k :: k in m ==> 0.0 <= m[k].tokens <= c.burst && m[k].last <= now
  }

  /** One slot is reserved for the overflow bucket. */
  predicate Bounded(c: Config, m: Buckets) {
    |m| < c.maxBuckets || (|m| == c.maxBuckets && OVERFLOW_KEY in m)
  }

  // ----- the limiter as a function -----

  function Refill(c: Config, b: Bucket, now: real): Bucket {
    if now - b.last > 0.0 then
      var tokens := b.tokens + (now - b.last) * c.rate;
      Bucket(if tokens > c.burst then c.burst else tokens, now)
    else b
  }

  /** Take a token from the bucket of key, creating it full. */
  function Take(c: Config, m: Buckets, key: string, now: real): (Buckets, bool) {
    var b := if key in m then Refill(c, m[key], now) else Bucket(c.burst, now);
    if b.tokens >= 1.0 then (m[key := b.(tokens := b.tokens - 1.0)], true) else (m[key := b], false)
  }

  predicate FullyRefilled(c: Config, b: Bucket, now: real) {
    (now - b.last) * c.rate >= c.burst
  }

  function Reclaim(c: Config, m: Buckets, now: real): Buckets {
    map k | k in m && (k == OVERFLOW_KEY || !FullyRefilled(c, m[k], now)) :: m[k]
  }

  /** The buckets left after making room, and the bucket the request is charged to. */
  function Route(c: Config, m: Buckets, key: string, now: real): (Buckets, string) {
    if key !in m && |m| >= c.maxBuckets - 1 then
      var kept := Reclaim(c, m, now);
      (kept, if |kept| >= c.maxBuckets - 1 then OVERFLOW_KEY else key)
    else (m, key)
  }

  function Allow(c: Config, m: Buckets, key: string, now: real): (Buckets, bool) {
    var (kept, charged) := Route(c, m, key, now);
    Take(c, kept, charged, now)
  }

  // ----- the limiter as the source has it -----

  class Limiter {
    const c: Config
    var buckets: Buckets

    constructor (rate: real, burst: real, maxBuckets: int)
      ensures Positive(c) && buckets == map[]
      ensures c.rate == if rate <= 0.0 then 1.0 else rate
      ensures c.burst == if burst < 1.0 then 1.0 else burst
      ensures c.maxBuckets == if maxBuckets < 1 then 1 else maxBuckets
    {
      c := Config(if rate <= 0.0 then 1.0 else rate, if burst < 1.0 then 1.0 else burst,
                  if maxBuckets < 1 then 1 else maxBuckets);
      buckets := map[];
    }

    method AllowRequest(key: string, now: real) returns (allowed: bool)
      modifies this
      ensures (buckets, allowed) == Allow(c, old(buckets), key, now)
    {
      var charged := key;
      var regularCapacity := c.maxBuckets - 1;
      if key !in buckets && |buckets| >= regularCapacity {
        DropRefilled(now);
        if |buckets| >= regularCapacity {
          charged := OVERFLOW_KEY;
        }
      }
      ghost var kept := Route(c, old(buckets), key, now).0;
      assert buckets == kept && charged == Route(c, old(buckets), key, now).1;
      var b;
      if charged !in buckets {
        b := Bucket(c.burst, now);
      } else {
        b := buckets[charged];
        var elapsed := now - b.last;
        if elapsed > 0.0 {
          b := b.(tokens := b.tokens + elapsed * c.rate);
          if b.tokens > c.burst {
            b := b.(tokens := c.burst);
          }
          b := b.(last := now);
        }
      }
      assert b == if charged in kept then Refill(c, kept[charged], now) else Bucket(c.burst, now);
      allowed := b.tokens >= 1.0;
      if allowed {
        b := b.(tokens := b.tokens - 1.0);
      }
      buckets := buckets[charged := b];
      assert (buckets, allowed) == Take(c, kept, charged, now);
    }

    /** The loop over the map, in whatever order the runtime visits it. */
    method DropRefilled(now: real)
      modifies this
      ensures buckets == Reclaim(c, old(buckets), now)
    {
      ghost var before := buckets;
      var pending := buckets.Keys;
      while pending != {}
        invariant pending <= buckets.Keys <= before.Keys
        invariant forall k :: k in buckets ==> buckets[k] == before[k]
        invariant forall k :: k in before && k !in pending ==> (k in buckets <==> k in Reclaim(c, before, now))
        decreases |pending|
      {
        var k :| k in pending;
        pending := pending - {k};
        if k != OVERFLOW_KEY && (now - buckets[k].last) * c.rate >= c.burst {
          buckets := buckets - {k};
        }
      }
    }
  }

  // ----- levels: what a bucket is worth, kept or not -----

  function Level(c: Config, m: Buckets, k: string, now: real): real {
    if k in m then Refill(c, m[k], now).tokens else c.burst
  }

  function Charge(charged: bool): real {
    if charged then 1.0 else 0.0
  }

  lemma Later(c: Config, m: Buckets, k: string, now: real, t: real)
    requires Positive(c) && Sound(c, m, now) && now <= t
    ensures Level(c, m, k, t) == var l := Level(c, m, k, now) + (t - now) * c.rate; if l > c.burst then c.burst else l
    ensures Sound(c, m, t) && 0.0 <= Level(c, m, k, now) <= c.burst
  {
    if k in m {
      var b := m[k];
      var before, since := now - b.last, t - now;
      Distribute(before, since, c.rate);
      Grows(c.rate, before);
      Grows(c.rate, since);
      assert 0.0 <= b.tokens <= c.burst;
      assert t - b.last == before + since;
      var flows := b.tokens + before * c.rate;
      assert Level(c, m, k, now) == if flows > c.burst then c.burst else flows;
      var later := b.tokens + (before + since) * c.rate;
      assert Level(c, m, k, t) == if later > c.burst then c.burst else later;
    } else {
      Grows(c.rate, t - now);
    }
  }

  /** The clock, counted in tokens. */
  function Credit(c: Config, t: real): real {
    t * c.rate
  }

  /** The tokens that flow into a bucket between two moments. */
  function Inflow(c: Config, from: real, to: real): real {
    (to - from) * c.rate
  }

  lemma LevelRises(c: Config, m: Buckets, k: string, now: real, t: real)
    requires Positive(c) && Sound(c, m, now) && now <= t
    ensures Level(c, m, k, t) <= Level(c, m, k, now) + Credit(c, t) - Credit(c, now)
  {
    Later(c, m, k, now, t);
    CreditBetween(c, now, t);
  }

  lemma LevelWithinBurst(c: Config, m: Buckets, k: string, now: real)
    requires Positive(c) && Sound(c, m, now)
    ensures 0.0 <= Level(c, m, k, now) <= c.burst
  {
    Later(c, m, k, now, now);
  }

  lemma CreditBetween(c: Config, now: real, t: real)
    ensures Credit(c, t) - Credit(c, now) == Inflow(c, now, t)
  {
    Distribute(t - now, now, c.rate);
  }

  lemma Distribute(x: real, y: real, rate: real)
    ensures (x + y) * rate == x * rate + y * rate
  {
  }

  lemma Grows(rate: real, elapsed: real)
    requires rate > 0.0 && elapsed >= 0.0
    ensures elapsed * rate >= 0.0
    ensures elapsed > 0.0 ==> elapsed * rate > 0.0
  {
  }

  /** Reclaiming changes no bucket's worth. */
  lemma ReclaimKeepsLevels(c: Config, m: Buckets, now: real, k: string)
    requires Positive(c) && Sound(c, m, now)
    ensures Sound(c, Reclaim(c, m, now), now)
    ensures Level(c, Reclaim(c, m, now), k, now) == Level(c, m, k, now)
  {
    if k in m && k !in Reclaim(c, m, now) {
      Grows(c.rate, now - m[k].last);
    }
  }

  lemma TakeChargesOne(c: Config, m: Buckets, key: string, now: real, k: string)
    requires Positive(c) && Sound(c, m, now)
    ensures var (m', ok) := Take(c, m, key, now);
            && Sound(c, m', now)
            && (ok <==> Level(c, m, key, now) >= 1.0)
            && Level(c, m', k, now) == Level(c, m, k, now) - Charge(k == key && ok)
  {
    Later(c, m, key, now, now);
  }

  /** A request is admitted exactly when the bucket it is charged to is worth a token, and that token
      is all that changes, in any bucket. */
  lemma AllowChargesOne(c: Config, m: Buckets, key: string, now: real, k: string)
    requires Positive(c) && Sound(c, m, now)
    ensures var charged := Route(c, m, key, now).1;
            var (m', ok) := Allow(c, m, key, now);
            && Sound(c, m', now)
            && (ok <==> Level(c, m, charged, now) >= 1.0)
            && Level(c, m', k, now) == Level(c, m, k, now) - Charge(k == charged && ok)
  {
    var (kept, charged) := Route(c, m, key, now);
    ReclaimKeepsLevels(c, m, now, k);
    ReclaimKeepsLevels(c, m, now, charged);
    TakeChargesOne(c, kept, charged, now, k);
  }

  lemma AllowKeepsBound(c: Config, m: Buckets, key: string, now: real)
    requires Positive(c) && Bounded(c, m)
    ensures Bounded(c, Allow(c, m, key, now).0)
    ensures |Allow(c, m, key, now).0| <= c.maxBuckets
  {
    var (kept, charged) := Route(c, m, key, now);
    assert Reclaim(c, m, now).Keys <= m.Keys;
    SubsetSize(Reclaim(c, m, now).Keys, m.Keys);
    assert |Reclaim(c, m, now)| == |Reclaim(c, m, now).Keys| && |m| == |m.Keys|;
    var m' := Allow(c, m, key, now).0;
    assert m'.Keys == kept.Keys + {charged};
  }

  lemma SubsetSize<T>(a: set<T>, b: set<T>)
    requires a <= b
    ensures |a| <= |b|
  {
    assert b == a + (b - a);
  }

  // ----- whole runs -----

  datatype Call = Call(key: string, at: real)
  datatype Decision = Decision(charged: string, at: real, ok: bool)

  ghost predicate Serves(c: Config, m: Buckets, call: Call, m': Buckets, d: Decision) {
    && d.charged == Route(c, m, call.key, call.at).1 && d.at == call.at
    && (m', d.ok) == Allow(c, m, call.key, call.at)
  }

  ghost predicate ServesAt(c: Config, calls: seq<Call>, ms: seq<Buckets>, ds: seq<Decision>, i: nat)
    requires i < |calls| == |ds| && |ms| == |calls| + 1
  {
    Serves(c, ms[i], calls[i], ms[i + 1], ds[i])
  }

  /** A run of the limiter: the buckets before and after each call, and what it decided. */
  ghost predicate Run(c: Config, calls: seq<Call>, ms: seq<Buckets>, ds: seq<Decision>) {
    && Positive(c)
    && |ms| == |calls| + 1 && |ds| == |calls| && ms[0] == map[]
    && (forall i :: 0 <= i < |calls| ==> ServesAt(c, calls, ms, ds, i))
    && (forall i, j :: 0 <= i < j < |calls| ==> calls[i].at <= calls[j].at)
  }

  ghost predicate TakesFrom(c: Config, n: Buckets, d: Decision, n': Buckets, ok: bool) {
    (n', ok) == Take(c, n, d.charged, d.at)
  }

  /** The same requests, charged to the same buckets, in a limiter that never drops one. */
  ghost predicate Unbounded(c: Config, ds: seq<Decision>, ns: seq<Buckets>, oks: seq<bool>) {
    && |ns| == |ds| + 1 && |oks| == |ds| && ns[0] == map[]
    && forall i :: 0 <= i < |ds| ==> TakesFrom(c, ns[i], ds[i], ns[i + 1], oks[i])
  }

  ghost predicate SameWorth(c: Config, m: Buckets, n: Buckets, now: real) {
    forall k :: Level(c, m, k, now) == Level(c, n, k, now)
  }

  lemma SameWorthLater(c: Config, m: Buckets, n: Buckets, now: real, t: real)
    requires Positive(c) && Sound(c, m, now) && Sound(c, n, now) && SameWorth(c, m, n, now) && now <= t
    ensures Sound(c, m, t) && Sound(c, n, t) && SameWorth(c, m, n, t)
  {
    forall k
      ensures Level(c, m, k, t) == Level(c, n, k, t)
    {
      Later(c, m, k, now, t);
      Later(c, n, k, now, t);
    }
    Later(c, m, "", now, t);
    Later(c, n, "", now, t);
  }

  lemma StepSameWorth(c: Config, m: Buckets, n: Buckets, key: string, now: real)
    requires Positive(c) && Sound(c, m, now) && Sound(c, n, now) && SameWorth(c, m, n, now)
    ensures var charged := Route(c, m, key, now).1;
            var (m', ok) := Allow(c, m, key, now);
            var (n', ok') := Take(c, n, charged, now);
            ok == ok' && Sound(c, m', now) && Sound(c, n', now) && SameWorth(c, m', n', now)
  {
    var charged := Route(c, m, key, now).1;
    var (m', ok) := Allow(c, m, key, now);
    var (n', ok') := Take(c, n, charged, now);
    forall k
      ensures ok == ok' && Sound(c, m', now) && Sound(c, n', now) && Level(c, m', k, now) == Level(c, n', k, now)
    {
      AllowChargesOne(c, m, key, now, k);
      TakeChargesOne(c, n, charged, now, k);
    }
    AllowChargesOne(c, m, key, now, "");
    TakeChargesOne(c, n, charged, now, "");
  }

  lemma {:induction false} RunKeeps(c: Config, calls: seq<Call>, ms: seq<Buckets>, ds: seq<Decision>, i: nat)
    requires Run(c, calls, ms, ds) && i < |calls|
    ensures Sound(c, ms[i], calls[i].at) && Bounded(c, ms[i])
  {
    if i > 0 {
      RunKeeps(c, calls, ms, ds, i - 1);
      var t := calls[i - 1].at;
      assert ServesAt(c, calls, ms, ds, i - 1);
      AllowChargesOne(c, ms[i - 1], calls[i - 1].key, t, "");
      AllowKeepsBound(c, ms[i - 1], calls[i - 1].key, t);
      Later(c, ms[i], "", t, calls[i].at);
    }
  }

  /** The map never outgrows its bound. */
  lemma NeverMoreThanMaxBuckets(c: Config, calls: seq<Call>, ms: seq<Buckets>, ds: seq<Decision>, i: nat)
    requires Run(c, calls, ms, ds) && i <= |calls|
    ensures |ms[i]| <= c.maxBuckets
  {
    if i > 0 {
      RunKeeps(c, calls, ms, ds, i - 1);
      assert ServesAt(c, calls, ms, ds, i - 1);
      AllowKeepsBound(c, ms[i - 1], calls[i - 1].key, calls[i - 1].at);
    }
  }

  lemma {:induction false} RunsAreWorthTheSame(c: Config, calls: seq<Call>, ms: seq<Buckets>, ds: seq<Decision>,
                                               ns: seq<Buckets>, oks: seq<bool>, i: nat)
    requires Run(c, calls, ms, ds) && Unbounded(c, ds, ns, oks) && i < |calls|
    ensures Sound(c, ms[i], calls[i].at) && Sound(c, ns[i], calls[i].at) && SameWorth(c, ms[i], ns[i], calls[i].at)
  {
    if i > 0 {
      RunsAreWorthTheSame(c, calls, ms, ds, ns, oks, i - 1);
      var t := calls[i - 1].at;
      assert ServesAt(c, calls, ms, ds, i - 1);
      assert TakesFrom(c, ns[i - 1], ds[i - 1], ns[i], oks[i - 1]);
      StepSameWorth(c, ms[i - 1], ns[i - 1], calls[i - 1].key, t);
      SameWorthLater(c, ms[i], ns[i], t, calls[i].at);
    }
  }

  /** Dropping refilled buckets is unobservable: every decision is the one a limiter that keeps every
      bucket for ever makes. */
  lemma ReclaimingIsUnobservable(c: Config, calls: seq<Call>, ms: seq<Buckets>, ds: seq<Decision>,
                                 ns: seq<Buckets>, oks: seq<bool>, i: nat)
    requires Run(c, calls, ms, ds) && Unbounded(c, ds, ns, oks) && i < |calls|
    ensures ds[i].ok == oks[i]
  {
    RunsAreWorthTheSame(c, calls, ms, ds, ns, oks, i);
    assert ServesAt(c, calls, ms, ds, i);
    assert TakesFrom(c, ns[i], ds[i], ns[i + 1], oks[i]);
    StepSameWorth(c, ms[i], ns[i], calls[i].key, calls[i].at);
  }

  /** How many of the decisions i..j admitted a request at the expense of bucket k. */
  function Admitted(ds: seq<Decision>, i: nat, j: nat, k: string): nat
    requires i <= j <= |ds|
  {
    if i == j then 0 else Admitted(ds, i, j - 1, k) + if ds[j - 1].charged == k && ds[j - 1].ok then 1 else 0
  }

  lemma AdmittedOneMore(ds: seq<Decision>, i: nat, j: nat, k: string)
    requires i <= j < |ds|
    ensures Admitted(ds, i, j + 1, k) as real
            == Admitted(ds, i, j, k) as real + Charge(ds[j].charged == k && ds[j].ok)
    ensures Admitted(ds, i, i, k) == 0
  {
  }

  lemma {:induction false} WindowLeaves(c: Config, calls: seq<Call>, ms: seq<Buckets>, ds: seq<Decision>,
                                        i: nat, j: nat, k: string)
    requires Run(c, calls, ms, ds) && i <= j < |calls|
    ensures Sound(c, ms[j + 1], calls[j].at)
    ensures Admitted(ds, i, j + 1, k) as real + Level(c, ms[j + 1], k, calls[j].at)
            <= c.burst + Credit(c, calls[j].at) - Credit(c, calls[i].at)
  {
    var t := calls[j].at;
    DecisionCharges(c, calls, ms, ds, j, k);
    if i == j {
      LevelWithinBurst(c, ms[j], k, t);
      AdmittedOneMore(ds, i, j, k);
    } else {
      WindowLeaves(c, calls, ms, ds, i, j - 1, k);
      LevelRises(c, ms[j], k, calls[j - 1].at, t);
      AdmittedOneMore(ds, i, j, k);
    }
  }

  lemma DecisionCharges(c: Config, calls: seq<Call>, ms: seq<Buckets>, ds: seq<Decision>, j: nat, k: string)
    requires Run(c, calls, ms, ds) && j < |calls|
    ensures Sound(c, ms[j], calls[j].at) && Sound(c, ms[j + 1], calls[j].at)
    ensures Level(c, ms[j + 1], k, calls[j].at)
            == Level(c, ms[j], k, calls[j].at) - Charge(ds[j].charged == k && ds[j].ok)
  {
    RunKeeps(c, calls, ms, ds, j);
    assert ServesAt(c, calls, ms, ds, j);
    AllowChargesOne(c, ms[j], calls[j].key, calls[j].at, k);
  }

  /** In any window of any run, every bucket, the overflow bucket included, admits at most the burst
      plus what flows in during the window. */
  lemma WindowBound(c: Config, calls: seq<Call>, ms: seq<Buckets>, ds: seq<Decision>, i: nat, j: nat, k: string)
    requires Run(c, calls, ms, ds) && i <= j < |calls|
    ensures Admitted(ds, i, j + 1, k) as real <= c.burst + Inflow(c, calls[i].at, calls[j].at)
  {
    WindowLeaves(c, calls, ms, ds, i, j, k);
    LevelWithinBurst(c, ms[j + 1], k, calls[j].at);
    CreditBetween(c, calls[i].at, calls[j].at);
  }

  // ----- whose bucket pays -----

  /** The buckets that must stay although room is short: the shared one, and those not yet full again. */
  function StillUsed(c: Config, m: Buckets, now: real): set<string> {
    set k | k in m && (k == "\0overflow" || (now - m[k].last) * c.rate < c.burst)
  }

  /** A request is charged to its own key exactly when the key has a bucket, or a slot is free, or one is
      once the full buckets are gone; otherwise it shares the overflow bucket. */
  lemma ChargedExactly(c: Config, calls: seq<Call>, ms: seq<Buckets>, ds: seq<Decision>, i: nat)
    requires Run(c, calls, ms, ds) && i < |calls|
    ensures ds[i].charged ==
            if || calls[i].key in ms[i]
               || |ms[i]| < c.maxBuckets - 1
               || |StillUsed(c, ms[i], calls[i].at)| < c.maxBuckets - 1 then calls[i].key
            else "\0overflow"
  {
    assert ServesAt(c, calls, ms, ds, i);
    assert Reclaim(c, ms[i], calls[i].at).Keys == StillUsed(c, ms[i], calls[i].at);
    assert OVERFLOW_KEY == "\0overflow";
  }

  /** The clients of the first n calls. */
  function Clients(calls: seq<Call>, n: nat): set<string>
    requires n <= |calls|
  {
    if n == 0 then {} else Clients(calls, n - 1) + {calls[n - 1].key}
  }

  /** What a bucket of this client alone, filled at the rate up to the burst and charged by its own calls
      while it can pay, is worth at time t after the first n calls. */
  function Worth(c: Config, calls: seq<Call>, n: nat, key: string, t: real): real
    requires n <= |calls|
  {
    if n == 0 then c.burst
    else if calls[n - 1].key != key then Worth(c, calls, n - 1, key, t)
    else
      var before := Worth(c, calls, n - 1, key, calls[n - 1].at);
      var left := if before >= 1.0 then before - 1.0 else before;
      Filled(c, left, t - calls[n - 1].at)
  }

  /** A level after some seconds of filling. */
  function Filled(c: Config, level: real, seconds: real): real {
    var filled := level + seconds * c.rate;
    if filled > c.burst then c.burst else filled
  }

  lemma LevelFills(c: Config, m: Buckets, k: string, now: real, t: real)
    requires Positive(c) && Sound(c, m, now) && now <= t
    ensures Level(c, m, k, t) == Filled(c, Level(c, m, k, now), t - now)
  {
    Later(c, m, k, now, t);
  }

  /** With fewer clients than buckets, each has its own, and is treated as if it were alone: admitted
      exactly when that bucket is worth a token. */
  lemma FewClientsAreIndependent(c: Config, calls: seq<Call>, ms: seq<Buckets>, ds: seq<Decision>, i: nat)
    requires Run(c, calls, ms, ds) && i < |calls| && |Clients(calls, |calls|)| < c.maxBuckets
    ensures ds[i].charged == calls[i].key
    ensures ds[i].ok <==> Worth(c, calls, i, calls[i].key, calls[i].at) >= 1.0
  {
    ChargedToSelf(c, calls, ms, ds, i);
    RunKeeps(c, calls, ms, ds, i);
    LevelIsWorth(c, calls, ms, ds, i, calls[i].key, calls[i].at);
    assert ServesAt(c, calls, ms, ds, i);
    AllowChargesOne(c, ms[i], calls[i].key, calls[i].at, calls[i].key);
  }

  lemma {:induction false} ClientsGrow(calls: seq<Call>, n: nat, m: nat)
    requires n <= m <= |calls|
    ensures Clients(calls, n) <= Clients(calls, m)
    ensures n < m ==> calls[n].key in Clients(calls, m)
  {
    if n < m {
      ClientsGrow(calls, n, m - 1);
    }
  }

  lemma {:induction false} KeptAreClients(c: Config, calls: seq<Call>, ms: seq<Buckets>, ds: seq<Decision>, i: nat)
    requires Run(c, calls, ms, ds) && i <= |calls| && |Clients(calls, |calls|)| < c.maxBuckets
    ensures ms[i].Keys <= Clients(calls, i)
    decreases i, 0
  {
    if i > 0 {
      ChargedToSelf(c, calls, ms, ds, i - 1);
      KeptAreClients(c, calls, ms, ds, i - 1);
      ServedKeys(c, calls, ms, ds, i - 1);
      assert Clients(calls, i) == Clients(calls, i - 1) + {calls[i - 1].key};
    }
  }

  lemma ServedKeys(c: Config, calls: seq<Call>, ms: seq<Buckets>, ds: seq<Decision>, i: nat)
    requires Run(c, calls, ms, ds) && i < |calls|
    ensures ms[i + 1].Keys <= ms[i].Keys + {ds[i].charged}
  {
    assert ServesAt(c, calls, ms, ds, i);
  }

  lemma {:induction false} ChargedToSelf(c: Config, calls: seq<Call>, ms: seq<Buckets>, ds: seq<Decision>, i: nat)
    requires Run(c, calls, ms, ds) && i < |calls| && |Clients(calls, |calls|)| < c.maxBuckets
    ensures ds[i].charged == calls[i].key
    decreases i, 1
  {
    KeptAreClients(c, calls, ms, ds, i);
    ClientsGrow(calls, i, |calls|);
    ChargedExactly(c, calls, ms, ds, i);
    if calls[i].key !in ms[i] {
      SubsetSize(ms[i].Keys + {calls[i].key}, Clients(calls, |calls|));
      assert |ms[i].Keys + {calls[i].key}| == |ms[i].Keys| + 1 && |ms[i]| == |ms[i].Keys|;
    }
  }

  /** What one decision does to the worth of a bucket, at its own time. */
  lemma DecisionPays(c: Config, calls: seq<Call>, ms: seq<Buckets>, ds: seq<Decision>, i: nat, k: string)
    requires Run(c, calls, ms, ds) && i < |calls| && ds[i].charged == calls[i].key
    ensures Sound(c, ms[i], calls[i].at) && Sound(c, ms[i + 1], calls[i].at)
    ensures var before := Level(c, ms[i], k, calls[i].at);
            Level(c, ms[i + 1], k, calls[i].at)
            == if k == calls[i].key && before >= 1.0 then before - 1.0 else before
  {
    RunKeeps(c, calls, ms, ds, i);
    assert ServesAt(c, calls, ms, ds, i);
    AllowChargesOne(c, ms[i], calls[i].key, calls[i].at, k);
  }

  lemma {:induction false} LevelIsWorth(c: Config, calls: seq<Call>, ms: seq<Buckets>, ds: seq<Decision>, i: nat,
                                        k: string, t: real)
    requires Run(c, calls, ms, ds) && i <= |calls| && |Clients(calls, |calls|)| < c.maxBuckets
    requires i > 0 ==> calls[i - 1].at <= t
    ensures Level(c, ms[i], k, t) == Worth(c, calls, i, k, t)
  {
    if i > 0 {
      var at := calls[i - 1].at;
      ChargedToSelf(c, calls, ms, ds, i - 1);
      DecisionPays(c, calls, ms, ds, i - 1, k);
      LevelFills(c, ms[i], k, at, t);
      if calls[i - 1].key == k {
        LevelIsWorth(c, calls, ms, ds, i - 1, k, at);
      } else {
        LevelIsWorth(c, calls, ms, ds, i - 1, k, t);
        LevelFills(c, ms[i - 1], k, at, t);
      }
    }
  }
}
