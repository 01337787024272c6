/** The token-bucket rate limiter over real-valued tokens and a non-decreasing clock.  What a check
    sees of a key is its level: the tokens its bucket would hold if refilled now, or a full bucket if
    it has none.  Eviction and statistics leave every level alone. */
module RateLimiter {
  import opened Common

  /** The limiter's fields after construction; `refillRate` is tokens per millisecond. */
  datatype Config = Config(refillRate: real, burstLimit: real, maxBuckets: nat, idleEvictMs: nat)
  datatype Bucket = Bucket(tokens: real, lastRefillAt: int)
  type Buckets = map<string, Bucket>

  ghost predicate Sound(c: Config) { c.refillRate > 0.0 && c.burstLimit >= 0.0 }

  function Capped(limit: real, x: real): real { if limit < x then limit else x }

  /** What `ms` milliseconds yield at `rate` tokens each; the clock does not go back. */
  function Earned(rate: real, ms: int): real
    decreases ms
  {
    if ms <= 0 then 0.0 else Earned(rate, ms - 1) + rate
  }

  /** Tokens after `elapsed` milliseconds at `rate`. */
  function Grown(tokens: real, burst: real, rate: real, elapsed: int): real {
    Capped(burst, tokens + Earned(rate, elapsed))
  }

  function Refill(c: Config, b: Bucket, now: int): Bucket
  {
    Bucket(Grown(b.tokens, c.burstLimit, c.refillRate, now - b.lastRefillAt), now)
  }

  function Level(c: Config, s: Buckets, key: string, now: int): real
  {
    if key in s then Refill(c, s[key], now).tokens else c.burstLimit
  }

  predicate Idle(c: Config, b: Bucket, now: int)
  {
    b.lastRefillAt + c.idleEvictMs < now && Refill(c, b, now).tokens >= c.burstLimit
  }

  function Evicted(c: Config, s: Buckets, now: int): Buckets
  {
    map k | k in s && !Idle(c, s[k], now) :: s[k]
  }

  datatype Result =
    | Allowed(remaining: int, resetAt: int)
    | Denied(resetAt: int, retryAfter: int)
    | Throws  // the bucket was evicted between its creation and its lookup

  function Verdict(c: Config, level: real, now: int): Result
    requires Sound(c)
  {
    if level >= 1.0 then
      Allowed((level - 1.0).Floor, now + Ceiling((c.burstLimit - (level - 1.0)) / c.refillRate))
    else
      Denied(now + Ceiling((c.burstLimit - level) / c.refillRate), Ceiling((1.0 - level) / c.refillRate))
  }

  /** The state change of `check`, where `coin` is the outcome of `Math.random() < 0.01`, and the
      level the decision is made on; none if the bucket is gone when it is looked up. */
  function Draw(c: Config, s: Buckets, key: string, now: int, coin: bool): (Buckets, Option<real>) {
    var made := if key in s then s else s[key := Bucket(c.burstLimit, now)];
    var kept := if |made| > c.maxBuckets && coin then Evicted(c, made, now) else made;
    if key !in kept then (kept, None)
    else
      var full := Refill(c, kept[key], now);
      var left := if full.tokens >= 1.0 then full.(tokens := full.tokens - 1.0) else full;
      (kept[key := left], Some(full.tokens))
  }

  /** `check`. */
  function Check(c: Config, s: Buckets, key: string, now: int, coin: bool): (Buckets, Result)
    requires Sound(c)
  {
    var (s', level) := Draw(c, s, key, now, coin);
    (s', match level case Some(l) => Verdict(c, l, now) case None => Throws)
  }

  function GetStats(c: Config, s: Buckets, key: string, now: int): Buckets
    requires Sound(c)
  {
    if key in s then s[key := Refill(c, s[key], now)] else s
  }

  // ---- Arithmetic -----------------------------------------------------------------------------------

  /** ... which is the product the source computes. */
  lemma {:induction false} EarnedIsProduct(rate: real, ms: nat)
    ensures Earned(rate, ms) == ms as real * rate
  {
    if ms > 0 {
      EarnedIsProduct(rate, ms - 1);
      assert ms as real * rate == (ms - 1) as real * rate + rate;
    }
  }

  lemma {:induction false} EarnedAdds(rate: real, e: nat, f: nat)
    ensures Earned(rate, e + f) == Earned(rate, e) + Earned(rate, f)
    decreases f
  {
    if f > 0 { EarnedAdds(rate, e, f - 1); }
  }

  lemma {:induction false} EarnedNonNegative(rate: real, e: int)
    requires rate > 0.0
    ensures Earned(rate, e) >= 0.0
    decreases e
  {
    if e > 0 { EarnedNonNegative(rate, e - 1); }
  }

  /** Growing in two steps is growing once. */
  lemma GrownTwice(tokens: real, burst: real, rate: real, e: nat, f: nat)
    requires rate > 0.0
    ensures Grown(Grown(tokens, burst, rate, e), burst, rate, f) == Grown(tokens, burst, rate, e + f)
  {
    EarnedAdds(rate, e, f);
    EarnedNonNegative(rate, f);
  }

  lemma Scale(a: real, b: real, rate: real)
    requires rate > 0.0
    ensures a * rate >= b * rate <==> a >= b
  {
    var d := a - b;
    assert a * rate - b * rate == d * rate;
    if d >= 0.0 { assert d * rate >= 0.0; } else { assert d * rate < 0.0; }
  }

  /** `m` milliseconds yield at least `need` exactly from the rounded-up quotient on. */
  lemma CeilingIsLeast(need: real, rate: real, m: nat)
    requires rate > 0.0
    ensures Earned(rate, m) >= need <==> m >= Ceiling(need / rate)
  {
    var q := need / rate;
    assert q * rate == need;
    EarnedIsProduct(rate, m);
    Scale(m as real, q, rate);
    assert m >= Ceiling(q) <==> m as real >= q;
  }

  lemma FullFrom(tokens: real, burst: real, rate: real, m: nat)
    requires rate > 0.0
    ensures Grown(tokens, burst, rate, m) == burst <==> m >= Ceiling((burst - tokens) / rate)
  {
    CeilingIsLeast(burst - tokens, rate, m);
  }

  lemma OneTokenFrom(tokens: real, burst: real, rate: real, m: nat)
    requires rate > 0.0
    ensures Grown(tokens, burst, rate, m) >= 1.0 <==> burst >= 1.0 && m >= Ceiling((1.0 - tokens) / rate)
  {
    CeilingIsLeast(1.0 - tokens, rate, m);
  }

  // ---- Levels ---------------------------------------------------------------------------------------

  ghost predicate Valid(c: Config, s: Buckets, now: int) {
    forall k :: k in s ==> 0.0 <= s[k].tokens <= c.burstLimit && s[k].lastRefillAt <= now
  }

  /** refill(refill(b, t1), t2) is refill(b, t2). */
  lemma RefillTwice(c: Config, b: Bucket, t1: int, t2: int)
    requires Sound(c) && b.lastRefillAt <= t1 <= t2
    ensures Refill(c, Refill(c, b, t1), t2) == Refill(c, b, t2)
  {
    GrownTwice(b.tokens, c.burstLimit, c.refillRate, t1 - b.lastRefillAt, t2 - t1);
  }

  /** From `now` on, nobody can tell `s` and `t` apart by checking any key. */
  ghost predicate SameLevels(c: Config, s: Buckets, t: Buckets, now: int)
    requires Sound(c)
  {
    forall k, later :: later >= now ==> Level(c, s, k, later) == Level(c, t, k, later)
  }

  lemma FullStaysFull(c: Config, b: Bucket, now: int, later: int)
    requires Sound(c) && b.lastRefillAt <= now <= later && Refill(c, b, now).tokens >= c.burstLimit
    ensures Refill(c, b, later).tokens == c.burstLimit
  {
    EarnedAdds(c.refillRate, now - b.lastRefillAt, later - now);
    EarnedNonNegative(c.refillRate, later - now);
  }

  /** Evicting idle full buckets changes no level, now or later. */
  lemma EvictionInvisible(c: Config, s: Buckets, now: int)
    requires Sound(c) && Valid(c, s, now)
    ensures SameLevels(c, Evicted(c, s, now), s, now)
    ensures Valid(c, Evicted(c, s, now), now)
  {
    forall k, later | later >= now ensures Level(c, Evicted(c, s, now), k, later) == Level(c, s, k, later) {
      if k in s && Idle(c, s[k], now) { FullStaysFull(c, s[k], now, later); }
    }
  }

  lemma RefillBounds(c: Config, b: Bucket, now: int)
    requires Sound(c) && b.lastRefillAt <= now && 0.0 <= b.tokens <= c.burstLimit
    ensures b.tokens <= Refill(c, b, now).tokens <= c.burstLimit
  {
    EarnedNonNegative(c.refillRate, now - b.lastRefillAt);
  }

  lemma StatsInvisible(c: Config, s: Buckets, key: string, now: int)
    requires Sound(c) && Valid(c, s, now)
    ensures SameLevels(c, GetStats(c, s, key, now), s, now)
    ensures Valid(c, GetStats(c, s, key, now), now)
  {
    if key in s {
      RefillBounds(c, s[key], now);
      forall later | later >= now ensures Refill(c, Refill(c, s[key], now), later) == Refill(c, s[key], later) {
        RefillTwice(c, s[key], now, later);
      }
    }
  }

  // ---- One check ------------------------------------------------------------------------------------

  function Spend(level: real): real { if level >= 1.0 then level - 1.0 else level }

  /** A check throws exactly when it evicts the very bucket it is about to use. */
  lemma ThrowsIff(c: Config, s: Buckets, key: string, now: int, coin: bool)
    requires Sound(c)
    ensures Check(c, s, key, now, coin).1.Throws?
            <==> coin && |s| > c.maxBuckets && key in s && Idle(c, s[key], now)
  {
  }

  lemma DrawSpends(c: Config, s: Buckets, key: string, now: int, coin: bool)
    requires Sound(c) && Valid(c, s, now) && Draw(c, s, key, now, coin).1.Some?
    ensures var (s', level) := Draw(c, s, key, now, coin);
            level.value == Level(c, s, key, now) && key in s' && s'[key] == Bucket(Spend(level.value), now)
  {
  }

  lemma FailedDraw(c: Config, s: Buckets, key: string, now: int, coin: bool)
    requires Sound(c) && Valid(c, s, now) && Draw(c, s, key, now, coin).1.None?
    ensures Draw(c, s, key, now, coin).0 == Evicted(c, s, now)
  {
  }

  /** A check that does not throw depends only on the key's level, and takes one token from it if
      there is one; a check that throws takes nothing. */
  lemma CheckSpends(c: Config, s: Buckets, key: string, now: int, coin: bool, later: int)
    requires Sound(c) && Valid(c, s, now) && later >= now
    ensures var (s', r) := Check(c, s, key, now, coin);
            && (r.Throws? ==> Level(c, s', key, later) == Level(c, s, key, later))
            && (!r.Throws? ==>
                 && r == Verdict(c, Level(c, s, key, now), now)
                 && key in s' && s'[key] == Bucket(Spend(Level(c, s, key, now)), now))
  {
    if Draw(c, s, key, now, coin).1.Some? {
      DrawSpends(c, s, key, now, coin);
    } else {
      FailedDraw(c, s, key, now, coin);
      EvictionInvisible(c, s, now);
      assert Level(c, Evicted(c, s, now), key, later) == Level(c, s, key, later);
    }
  }

  lemma CheckLeavesOthers(c: Config, s: Buckets, key: string, now: int, coin: bool, k: string, later: int)
    requires Sound(c) && Valid(c, s, now) && later >= now && k != key
    ensures Level(c, Check(c, s, key, now, coin).0, k, later) == Level(c, s, k, later)
  {
    var made := if key in s then s else s[key := Bucket(c.burstLimit, now)];
    assert Valid(c, made, now);
    EvictionInvisible(c, made, now);
    assert Level(c, Evicted(c, made, now), k, later) == Level(c, made, k, later);
  }

  lemma CheckValid(c: Config, s: Buckets, key: string, now: int, coin: bool)
    requires Sound(c) && Valid(c, s, now)
    ensures Valid(c, Check(c, s, key, now, coin).0, now)
  {
    if key in s { RefillBounds(c, s[key], now); }
  }

  /** After a denial, a check of the undisturbed bucket `m` ms later is allowed exactly when the burst
      limit is at least one token and `m` has reached `retryAfter`. */
  lemma RetryAfterIsLeast(c: Config, s: Buckets, key: string, now: int, coin: bool, m: nat)
    requires Sound(c) && Valid(c, s, now) && Check(c, s, key, now, coin).1.Denied?
    ensures var (s', r) := Check(c, s, key, now, coin);
            Check(c, s', key, now + m, false).1.Allowed? <==> c.burstLimit >= 1.0 && m >= r.retryAfter
  {
    CheckSpends(c, s, key, now, coin, now);
    OneTokenFrom(Level(c, s, key, now), c.burstLimit, c.refillRate, m);
  }

  /** The bucket is full again exactly from `resetAt` on. */
  lemma ResetAtIsLeast(c: Config, s: Buckets, key: string, now: int, coin: bool, m: nat)
    requires Sound(c) && Valid(c, s, now) && !Check(c, s, key, now, coin).1.Throws?
    ensures var (s', r) := Check(c, s, key, now, coin);
            Level(c, s', key, now + m) == c.burstLimit <==> now + m >= r.resetAt
  {
    CheckSpends(c, s, key, now, coin, now);
    FullFrom(Spend(Level(c, s, key, now)), c.burstLimit, c.refillRate, m);
  }

  // ---- Runs -----------------------------------------------------------------------------------------

  datatype Op =
    | CheckOp(key: string, now: int, coin: bool)
    | StatsOp(key: string, now: int)
    | ResetOp(key: string, now: int)

  function Apply(c: Config, s: Buckets, op: Op): Buckets
    requires Sound(c)
  {
    match op
    case CheckOp(key, now, coin) => Draw(c, s, key, now, coin).0
    case StatsOp(key, now) => GetStats(c, s, key, now)
    case ResetOp(key, now) => s - {key}
  }

  /** The clock never goes back, and starts at `from`. */
  ghost predicate Timed(ops: seq<Op>, from: int) {
    ops == [] || (from <= ops[0].now && Timed(ops[1..], ops[0].now))
  }

  ghost predicate Until(ops: seq<Op>, end: int) {
    forall op :: op in ops ==> op.now <= end
  }

  predicate IsAllowed(c: Config, s: Buckets, op: Op, key: string) {
    && op.CheckOp? && op.key == key
    && var level := Draw(c, s, key, op.now, op.coin).1; level.Some? && level.value >= 1.0
  }

  lemma IsAllowedResult(c: Config, s: Buckets, op: Op)
    requires Sound(c) && op.CheckOp?
    ensures IsAllowed(c, s, op, op.key) <==> Check(c, s, op.key, op.now, op.coin).1.Allowed?
  {
  }

  function AllowedIn(c: Config, s: Buckets, ops: seq<Op>, key: string): nat
    requires Sound(c)
    decreases |ops|
  {
    if ops == [] then 0
    else AllowedIn(c, Apply(c, s, ops[0]), ops[1..], key) + if IsAllowed(c, s, ops[0], key) then 1 else 0
  }

  /** How many checks of `key` in the run return `allowed: true`. */
  function AllowedChecks(c: Config, s: Buckets, ops: seq<Op>, key: string): nat
    requires Sound(c)
    decreases |ops|
  {
    if ops == [] then 0
    else
      var op, rest := ops[0], AllowedChecks(c, Apply(c, s, ops[0]), ops[1..], key);
      if op.CheckOp? && op.key == key && Check(c, s, key, op.now, op.coin).1.Allowed? then rest + 1 else rest
  }

  lemma {:induction false} AllowedChecksCounted(c: Config, s: Buckets, ops: seq<Op>, key: string)
    requires Sound(c)
    ensures AllowedChecks(c, s, ops, key) == AllowedIn(c, s, ops, key)
    decreases |ops|
  {
    if ops != [] {
      AllowedChecksCounted(c, Apply(c, s, ops[0]), ops[1..], key);
      if ops[0].CheckOp? { IsAllowedResult(c, s, ops[0]); }
    }
  }

  lemma ApplyValid(c: Config, s: Buckets, op: Op)
    requires Sound(c) && Valid(c, s, op.now)
    ensures Valid(c, Apply(c, s, op), op.now)
  {
    match op
    case CheckOp(key, now, coin) => CheckValid(c, s, key, now, coin);
    case StatsOp(key, now) => StatsInvisible(c, s, key, now);
    case ResetOp(_, _) =>
  }

  /** An operation takes from a key's level exactly what it allows. */
  lemma ApplyLevel(c: Config, s: Buckets, op: Op, key: string)
    requires Sound(c) && Valid(c, s, op.now) && !(op.ResetOp? && op.key == key)
    ensures Level(c, Apply(c, s, op), key, op.now)
            == Level(c, s, key, op.now) - if IsAllowed(c, s, op, key) then 1.0 else 0.0
  {
    match op
    case CheckOp(k, now, coin) =>
      if k == key {
        CheckSpends(c, s, k, now, coin, now);
        LevelBounds(c, s, key, now);
      } else {
        CheckLeavesOthers(c, s, k, now, coin, key, now);
      }
    case StatsOp(k, now) =>
      StatsInvisible(c, s, k, now);
      assert Level(c, GetStats(c, s, k, now), key, now) == Level(c, s, key, now);
    case ResetOp(_, _) =>
  }

  lemma LevelBounds(c: Config, s: Buckets, key: string, now: int)
    requires Sound(c) && Valid(c, s, now)
    ensures 0.0 <= Level(c, s, key, now) <= c.burstLimit
  {
    if key in s { RefillBounds(c, s[key], now); }
  }

  /** A level rises at most at the refill rate. */
  lemma LevelGrowth(c: Config, s: Buckets, key: string, t1: int, t2: int)
    requires Sound(c) && Valid(c, s, t1) && t1 <= t2
    ensures Level(c, s, key, t2) <= Level(c, s, key, t1) + Earned(c.refillRate, t2 - t1)
  {
    EarnedNonNegative(c.refillRate, t2 - t1);
    if key in s { EarnedAdds(c.refillRate, t1 - s[key].lastRefillAt, t2 - t1); }
  }

  /** A stretch of a run up to `end`, from a state the limiter can be in. */
  ghost predicate Stretch(c: Config, s: Buckets, ops: seq<Op>, from: int, end: int) {
    from <= end && Valid(c, s, from) && Timed(ops, from) && Until(ops, end)
  }

  lemma StretchStep(c: Config, s: Buckets, ops: seq<Op>, from: int, end: int)
    requires Sound(c) && Stretch(c, s, ops, from, end) && ops != []
    ensures from <= ops[0].now <= end
    ensures Stretch(c, Apply(c, s, ops[0]), ops[1..], ops[0].now, end)
  {
    assert ops[0] in ops;
    ApplyValid(c, s, ops[0]);
  }

  /** What a key can pay for until `end`: its level and what the time yields. */
  ghost function Budget(c: Config, s: Buckets, key: string, from: int, end: int): real {
    Level(c, s, key, from) + Earned(c.refillRate, end - from)
  }

  lemma BudgetStep(c: Config, s: Buckets, s': Buckets, key: string, from: int, now: int, end: int, spent: real)
    requires Sound(c) && Valid(c, s, from) && from <= now <= end
    requires Level(c, s', key, now) == Level(c, s, key, now) - spent
    ensures Budget(c, s', key, now, end) + spent <= Budget(c, s, key, from, end)
  {
    LevelGrowth(c, s, key, from, now);
    EarnedAdds(c.refillRate, now - from, end - now);
  }

  lemma BudgetBounds(c: Config, s: Buckets, key: string, from: int, end: int)
    requires Sound(c) && Valid(c, s, from)
    ensures 0.0 <= Budget(c, s, key, from, end) <= c.burstLimit + Earned(c.refillRate, end - from)
  {
    LevelBounds(c, s, key, from);
    EarnedNonNegative(c.refillRate, end - from);
  }

  predicate ResetsKey(op: Op, key: string) { op.ResetOp? && op.key == key }

  /** What a reset of `key` can add to its budget. */
  function Refund(c: Config, op: Op, key: string): real {
    if ResetsKey(op, key) then c.burstLimit else 0.0
  }

  lemma ResetIsRefunded(c: Config, s: Buckets, op: Op, key: string, from: int, end: int)
    requires Sound(c) && Valid(c, s, from) && from <= op.now <= end && ResetsKey(op, key)
    ensures Budget(c, Apply(c, s, op), key, op.now, end) <= Budget(c, s, key, from, end) + c.burstLimit
  {
    LevelBounds(c, s, key, from);
    EarnedAdds(c.refillRate, op.now - from, end - op.now);
    EarnedNonNegative(c.refillRate, op.now - from);
  }

  lemma OpIsPaidFor(c: Config, s: Buckets, op: Op, key: string, from: int, end: int)
    requires Sound(c) && Valid(c, s, from) && from <= op.now <= end
    ensures Budget(c, Apply(c, s, op), key, op.now, end) + (if IsAllowed(c, s, op, key) then 1.0 else 0.0)
            <= Budget(c, s, key, from, end) + Refund(c, op, key)
  {
    if ResetsKey(op, key) {
      ResetIsRefunded(c, s, op, key, from, end);
    } else {
      ApplyLevel(c, s, op, key);
      BudgetStep(c, s, Apply(c, s, op), key, from, op.now, end, if IsAllowed(c, s, op, key) then 1.0 else 0.0);
    }
  }

  function Refunds(c: Config, ops: seq<Op>, key: string): real {
    if ops == [] then 0.0 else Refund(c, ops[0], key) + Refunds(c, ops[1..], key)
  }

  function ResetsOf(ops: seq<Op>, key: string): nat {
    if ops == [] then 0 else ResetsOf(ops[1..], key) + if ResetsKey(ops[0], key) then 1 else 0
  }

  lemma {:induction false} RefundsCounted(c: Config, ops: seq<Op>, key: string)
    ensures Refunds(c, ops, key) == ResetsOf(ops, key) as real * c.burstLimit
  {
    if ops != [] { RefundsCounted(c, ops[1..], key); }
  }

  lemma AddOne(n: nat, one: bool, before: real, after: real, refund: real, refunds: real)
    requires n as real <= after + refunds && after + (if one then 1.0 else 0.0) <= before + refund
    ensures (n + if one then 1 else 0) as real <= before + (refund + refunds)
  {
  }

  /** The allowed checks of a key never exceed its budget. */
  lemma {:induction false} AllowedIsPaidFor(c: Config, s: Buckets, ops: seq<Op>, key: string, from: int, end: int)
    returns (n: nat)
    requires Sound(c) && Stretch(c, s, ops, from, end)
    ensures n == AllowedIn(c, s, ops, key) && n as real <= Budget(c, s, key, from, end) + Refunds(c, ops, key)
    decreases |ops|
  {
    if ops == [] {
      BudgetBounds(c, s, key, from, end);
      n := 0;
    } else {
      var op, s' := ops[0], Apply(c, s, ops[0]);
      var one := IsAllowed(c, s, op, key);
      StretchStep(c, s, ops, from, end);
      var rest := AllowedIsPaidFor(c, s', ops[1..], key, op.now, end);
      OpIsPaidFor(c, s, op, key, from, end);
      AddOne(rest, one, Budget(c, s, key, from, end), Budget(c, s', key, op.now, end),
             Refund(c, op, key), Refunds(c, ops[1..], key));
      n := rest + if one then 1 else 0;
    }
  }

  lemma BudgetAsProduct(c: Config, s: Buckets, key: string, from: int, d: nat)
    requires Sound(c) && Valid(c, s, from)
    ensures Budget(c, s, key, from, from + d) <= c.burstLimit + d as real * c.refillRate
  {
    assert from + d - from == d;
    BudgetBounds(c, s, key, from, from + d);
    EarnedIsProduct(c.refillRate, d);
  }

  lemma Within(n: nat, budget: real, refunds: real, bound: real)
    requires n as real <= budget + refunds && budget <= bound
    ensures n as real <= bound + refunds
  {
  }

  /** In any interval of `d` ms of any run, over any mix of keys, evictions and statistics, the checks
      of a key that are allowed number at most `burstLimit + d * maxRequests / windowMs`, and another
      `burstLimit` for every reset of the key in that interval. */
  lemma BurstBound(c: Config, s: Buckets, ops: seq<Op>, key: string, from: int, d: nat) returns (allowed: nat)
    requires Sound(c) && Stretch(c, s, ops, from, from + d)
    ensures allowed == AllowedChecks(c, s, ops, key)
    ensures allowed as real <= c.burstLimit + d as real * c.refillRate + ResetsOf(ops, key) as real * c.burstLimit
  {
    AllowedChecksCounted(c, s, ops, key);
    allowed := AllowedIsPaidFor(c, s, ops, key, from, from + d);
    BudgetAsProduct(c, s, key, from, d);
    RefundsCounted(c, ops, key);
    Within(allowed, Budget(c, s, key, from, from + d), Refunds(c, ops, key), c.burstLimit + d as real * c.refillRate);
  }

  // ---- What `remaining` promises --------------------------------------------------------------------

  function ChecksOf(ops: seq<Op>, key: string): nat {
    if ops == [] then 0 else ChecksOf(ops[1..], key) + if ops[0].CheckOp? && ops[0].key == key then 1 else 0
  }

  /** Checks of any keys, with or without eviction, and statistics, all at one instant. */
  ghost predicate AtOnce(ops: seq<Op>, now: int) {
    forall op :: op in ops ==> op.now == now && !op.ResetOp?
  }

  /** The key's bucket was just used. */
  ghost predicate Current(c: Config, s: Buckets, key: string, now: int) {
    Valid(c, s, now) && key in s && s[key].lastRefillAt == now
  }

  lemma CurrentLevel(c: Config, s: Buckets, key: string, now: int)
    requires Sound(c) && Current(c, s, key, now)
    ensures Refill(c, s[key], now) == s[key] && !Idle(c, s[key], now)
  {
  }

  lemma ApplyCurrent(c: Config, s: Buckets, op: Op, key: string, now: int)
    requires Sound(c) && Current(c, s, key, now) && op.now == now && !op.ResetOp?
    ensures var s' := Apply(c, s, op);
            && Current(c, s', key, now)
            && s'[key].tokens == s[key].tokens - (if IsAllowed(c, s, op, key) then 1.0 else 0.0)
            && (IsAllowed(c, s, op, key) <==> op.CheckOp? && op.key == key && s[key].tokens >= 1.0)
  {
    CurrentLevel(c, s, key, now);
    ApplyValid(c, s, op);
  }

  lemma {:induction false} InstantChecks(c: Config, s: Buckets, ops: seq<Op>, key: string, now: int)
    requires Sound(c) && Current(c, s, key, now) && AtOnce(ops, now)
    ensures AllowedIn(c, s, ops, key) == Min(ChecksOf(ops, key), s[key].tokens.Floor)
    decreases |ops|
  {
    if ops != [] {
      assert ops[0] in ops;
      ApplyCurrent(c, s, ops[0], key, now);
      InstantChecks(c, Apply(c, s, ops[0]), ops[1..], key, now);
    }
  }

  /** Of whatever checks follow at the same instant, exactly the first `remaining` of the key are allowed. */
  lemma RemainingIsExact(c: Config, s: Buckets, key: string, now: int, coin: bool, ops: seq<Op>)
    requires Sound(c) && Valid(c, s, now) && Check(c, s, key, now, coin).1.Allowed? && AtOnce(ops, now)
    ensures var (s', r) := Check(c, s, key, now, coin);
            AllowedChecks(c, s', ops, key) == Min(ChecksOf(ops, key), r.remaining)
  {
    var s' := Check(c, s, key, now, coin).0;
    CheckSpends(c, s, key, now, coin, now);
    CheckValid(c, s, key, now, coin);
    InstantChecks(c, s', ops, key, now);
    AllowedChecksCounted(c, s', ops, key);
  }

  /** A reset makes the key's level full, from then on, and touches no other. */
  lemma ResetRestores(c: Config, s: Buckets, key: string, now: int, k: string, later: int)
    requires Sound(c)
    ensures Level(c, Apply(c, s, ResetOp(key, now)), k, later)
            == if k == key then c.burstLimit else Level(c, s, k, later)
  {
  }

  // ---- The plain limiter ----------------------------------------------------------------------------

  /** The results of a run's checks, in order. */
  function Results(c: Config, s: Buckets, ops: seq<Op>): seq<Result>
    requires Sound(c)
    decreases |ops|
  {
    if ops == [] then []
    else
      var op, rest := ops[0], Results(c, Apply(c, s, ops[0]), ops[1..]);
      if op.CheckOp? then [Check(c, s, op.key, op.now, op.coin).1] + rest else rest
  }

  function Answers(results: seq<Result>): seq<Result> {
    if results == [] then []
    else if results[0].Throws? then Answers(results[1..])
    else [results[0]] + Answers(results[1..])
  }

  lemma AnswersCons(r: Result, rest: seq<Result>)
    ensures Answers([r] + rest) == if r.Throws? then Answers(rest) else [r] + Answers(rest)
  {
    assert ([r] + rest)[1..] == rest;
  }

  /** The same operations without any eviction, without statistics and without the throwing checks. */
  function Plain(c: Config, s: Buckets, ops: seq<Op>): seq<Op>
    requires Sound(c)
    decreases |ops|
  {
    if ops == [] then [] else PlainOp(c, s, ops[0]) + Plain(c, Apply(c, s, ops[0]), ops[1..])
  }

  function PlainOp(c: Config, s: Buckets, op: Op): seq<Op>
    requires Sound(c)
  {
    match op
    case CheckOp(key, now, coin) =>
      if Check(c, s, key, now, coin).1.Throws? then [] else [CheckOp(key, now, false)]
    case StatsOp(_, _) => []
    case ResetOp(_, _) => [op]
  }

  lemma ThrowingCheckInvisible(c: Config, s: Buckets, op: Op)
    requires Sound(c) && op.CheckOp? && Valid(c, s, op.now) && Check(c, s, op.key, op.now, op.coin).1.Throws?
    ensures SameLevels(c, Apply(c, s, op), s, op.now)
  {
    forall k, later | later >= op.now ensures Level(c, Apply(c, s, op), k, later) == Level(c, s, k, later) {
      if k == op.key {
        CheckSpends(c, s, op.key, op.now, op.coin, later);
      } else {
        CheckLeavesOthers(c, s, op.key, op.now, op.coin, k, later);
      }
    }
  }

  lemma SameCheck(c: Config, s: Buckets, t: Buckets, op: Op)
    requires Sound(c) && op.CheckOp? && Valid(c, s, op.now) && Valid(c, t, op.now) && SameLevels(c, s, t, op.now)
    requires !Check(c, s, op.key, op.now, op.coin).1.Throws?
    ensures Check(c, s, op.key, op.now, op.coin).1 == Check(c, t, op.key, op.now, false).1
    ensures SameLevels(c, Check(c, s, op.key, op.now, op.coin).0, Check(c, t, op.key, op.now, false).0, op.now)
  {
    var s', t' := Check(c, s, op.key, op.now, op.coin).0, Check(c, t, op.key, op.now, false).0;
    CheckSpends(c, s, op.key, op.now, op.coin, op.now);
    CheckSpends(c, t, op.key, op.now, false, op.now);
    assert Level(c, s, op.key, op.now) == Level(c, t, op.key, op.now);
    forall k, later | later >= op.now ensures Level(c, s', k, later) == Level(c, t', k, later) {
      if k != op.key {
        CheckLeavesOthers(c, s, op.key, op.now, op.coin, k, later);
        CheckLeavesOthers(c, t, op.key, op.now, false, k, later);
        assert Level(c, s, k, later) == Level(c, t, k, later);
      }
    }
  }

  lemma SameReset(c: Config, s: Buckets, t: Buckets, key: string, now: int)
    requires Sound(c) && SameLevels(c, s, t, now)
    ensures SameLevels(c, s - {key}, t - {key}, now)
  {
    forall k, later | later >= now ensures Level(c, s - {key}, k, later) == Level(c, t - {key}, k, later) {
      assert Level(c, s, k, later) == Level(c, t, k, later);
    }
  }

  lemma SameLevelsLater(c: Config, s: Buckets, t: Buckets, u: Buckets, from: int, now: int)
    requires Sound(c) && from <= now && SameLevels(c, s, t, from) && SameLevels(c, u, s, now)
    ensures SameLevels(c, u, t, now)
  {
    forall k, later | later >= now ensures Level(c, u, k, later) == Level(c, t, k, later) {
      assert Level(c, u, k, later) == Level(c, s, k, later) == Level(c, t, k, later);
    }
  }

  /** Two limiters in a position to answer alike. */
  ghost predicate Alike(c: Config, s: Buckets, t: Buckets, from: int)
    requires Sound(c)
  {
    Valid(c, s, from) && Valid(c, t, from) && SameLevels(c, s, t, from)
  }

  lemma AlikeLater(c: Config, s: Buckets, t: Buckets, from: int, now: int)
    requires Sound(c) && Alike(c, s, t, from) && from <= now
    ensures Alike(c, s, t, now)
  {
  }

  lemma OpKeepsAlike(c: Config, s: Buckets, t: Buckets, op: Op)
    requires Sound(c) && Alike(c, s, t, op.now)
    ensures var plain := PlainOp(c, s, op);
            Alike(c, Apply(c, s, op), if plain == [] then t else Apply(c, t, plain[0]), op.now)
  {
    ApplyValid(c, s, op);
    match op
    case CheckOp(key, now, coin) =>
      if Check(c, s, key, now, coin).1.Throws? {
        ThrowingCheckInvisible(c, s, op);
        SameLevelsLater(c, s, t, Apply(c, s, op), now, now);
      } else {
        SameCheck(c, s, t, op);
        ApplyValid(c, t, CheckOp(key, now, false));
      }
    case StatsOp(key, now) =>
      StatsInvisible(c, s, key, now);
      SameLevelsLater(c, s, t, Apply(c, s, op), now, now);
    case ResetOp(key, now) => SameReset(c, s, t, key, now);
  }

  lemma {:induction false} SameResults(c: Config, s: Buckets, t: Buckets, ops: seq<Op>, from: int)
    requires Sound(c) && Alike(c, s, t, from) && Timed(ops, from)
    ensures Answers(Results(c, s, ops)) == Results(c, t, Plain(c, s, ops))
    decreases |ops|
  {
    if ops != [] {
      var op, s' := ops[0], Apply(c, s, ops[0]);
      var plain, rest := PlainOp(c, s, op), Plain(c, s', ops[1..]);
      AlikeLater(c, s, t, from, op.now);
      OpKeepsAlike(c, s, t, op);
      if op.CheckOp? { AnswersCons(Check(c, s, op.key, op.now, op.coin).1, Results(c, s', ops[1..])); }
      if plain == [] {
        assert plain + rest == rest;
        SameResults(c, s', t, ops[1..], op.now);
      } else {
        if op.CheckOp? { SameCheck(c, s, t, op); }
        assert (plain + rest)[1..] == rest;
        SameResults(c, s', Apply(c, t, plain[0]), ops[1..], op.now);
      }
    }
  }

  /** In every run, whatever is returned by the checks that return is what a limiter would return that
      never evicts a bucket, never refills one for statistics and is never asked the others. */
  lemma EvictionAndStatsInvisible(c: Config, s: Buckets, ops: seq<Op>, from: int)
    requires Sound(c) && Valid(c, s, from) && Timed(ops, from)
    ensures Answers(Results(c, s, ops)) == Results(c, s, Plain(c, s, ops))
  {
    SameResults(c, s, s, ops, from);
  }

  // ---- Throwing checks ------------------------------------------------------------------------------

  /** Some run from here, from time `from` on, has a check that throws. */
  ghost predicate CanThrow(c: Config, s: Buckets, from: int)
    requires Sound(c)
  {
    exists ops :: Timed(ops, from) && Throws in Results(c, s, ops)
  }

  lemma CheckCanThrow(c: Config, s: Buckets, op: Op, from: int)
    requires Sound(c) && op.CheckOp? && from <= op.now
    requires Check(c, s, op.key, op.now, op.coin).1.Throws? || CanThrow(c, Apply(c, s, op), op.now)
    ensures CanThrow(c, s, from)
  {
    var rest := [];
    if !Check(c, s, op.key, op.now, op.coin).1.Throws? {
      rest :| Timed(rest, op.now) && Throws in Results(c, Apply(c, s, op), rest);
    }
    var ops := [op] + rest;
    assert ops[1..] == rest;
    assert Results(c, s, ops) == [Check(c, s, op.key, op.now, op.coin).1] + Results(c, Apply(c, s, op), rest);
    assert Timed(ops, from) && Throws in Results(c, s, ops);
  }

  function Name(i: nat): string { seq(i, _ => 'k') }

  lemma NamesDiffer(i: nat, j: nat)
    requires i != j
    ensures Name(i) != Name(j)
  {
    assert |Name(i)| != |Name(j)|;
  }

  /** A bucket that has been left alone long enough is idle. */
  lemma IdleEventually(c: Config, b: Bucket) returns (now: int)
    requires Sound(c)
    ensures now >= b.lastRefillAt && Idle(c, b, now)
  {
    var full := Ceiling((c.burstLimit - b.tokens) / c.refillRate);
    var m := Max(c.idleEvictMs + 1, full);
    FullFrom(b.tokens, c.burstLimit, c.refillRate, m);
    now := b.lastRefillAt + m;
  }

  /** Buckets of the first `n` names, all touched at time 0. */
  ghost predicate Filled(s: Buckets, n: nat) {
    && |s| == n && (n > 0 ==> Name(0) in s && s[Name(0)].lastRefillAt == 0)
    && forall i :: i >= n ==> Name(i) !in s
  }

  lemma FillOne(c: Config, s: Buckets, n: nat)
    requires Sound(c) && Filled(s, n)
    ensures Filled(Apply(c, s, CheckOp(Name(n), 0, false)), n + 1)
  {
    forall i | i >= n + 1 ensures Name(i) != Name(n) { NamesDiffer(i, n); }
    if n > 0 { NamesDiffer(0, n); }
  }

  lemma {:induction false} FillThenThrow(c: Config, s: Buckets, n: nat)
    requires Sound(c) && Filled(s, n) && n <= c.maxBuckets + 1
    ensures CanThrow(c, s, 0)
    decreases c.maxBuckets + 1 - n
  {
    if n <= c.maxBuckets {
      FillOne(c, s, n);
      FillThenThrow(c, Apply(c, s, CheckOp(Name(n), 0, false)), n + 1);
      CheckCanThrow(c, s, CheckOp(Name(n), 0, false), 0);
    } else {
      var now := IdleEventually(c, s[Name(0)]);
      ThrowsIff(c, s, Name(0), now, true);
      CheckCanThrow(c, s, CheckOp(Name(0), now, true), 0);
    }
  }

  /** Every limiter, whatever its options, can come to throw. */
  lemma EveryLimiterCanThrow(c: Config)
    requires Sound(c)
    ensures CanThrow(c, map[], 0)
  {
    FillThenThrow(c, map[], 0);
  }

  // ---- The limiter object ---------------------------------------------------------------------------

  class RateLimiter {
    const config: Config
    var buckets: Buckets

    /** `burstLimit` defaults to `maxRequests`, `maxBuckets` to 10000, `idleEvictMs` to 300000. */
    constructor (maxRequests: real, windowMs: real, burstLimit: Option<real>,
                 maxBuckets: Option<nat>, idleEvictMs: Option<nat>)
      requires maxRequests > 0.0 && windowMs > 0.0 && (burstLimit.Some? ==> burstLimit.value >= 0.0)
      ensures Sound(config) && buckets == map[]
      ensures config.refillRate == maxRequests / windowMs
      ensures config.burstLimit == match burstLimit case Some(b) => b case None => maxRequests
      ensures maxBuckets.None? && idleEvictMs.None? ==> config.maxBuckets == 10000 && config.idleEvictMs == 300000
      ensures maxBuckets.Some? ==> config.maxBuckets == maxBuckets.value
      ensures idleEvictMs.Some? ==> config.idleEvictMs == idleEvictMs.value
    {
      config := Config(
        maxRequests / windowMs,
        match burstLimit case Some(b) => b case None => maxRequests,
        match maxBuckets case Some(n) => n case None => 10000,
        match idleEvictMs case Some(ms) => ms case None => 300000);
      buckets := map[];
    }

    /** No bucket was touched after `now`. */
    ghost predicate ClockIsCurrent(now: int)
      reads this
    {
      Valid(config, buckets, now)
    }

    method RefillBucket(key: string, now: int)
      requires Sound(config) && key in buckets && buckets[key].lastRefillAt <= now
      modifies this
      ensures buckets == old(buckets)[key := Refill(config, old(buckets)[key], now)]
    {
      var elapsed := now - buckets[key].lastRefillAt;
      EarnedIsProduct(config.refillRate, elapsed);
      var tokens := Capped(config.burstLimit, buckets[key].tokens + elapsed as real * config.refillRate);
      buckets := buckets[key := Bucket(tokens, now)];
    }

    method EvictIdle(now: int)
      requires Sound(config)
      modifies this
      ensures buckets == Evicted(config, old(buckets), now)
    {
      var todo := buckets.Keys;
      while todo != {}
        invariant todo <= buckets.Keys
        invariant buckets ==
          map k | k in old(buckets) && (k in todo || !Idle(config, old(buckets)[k], now)) :: old(buckets)[k]
        decreases todo
      {
        var key :| key in todo;
        var bucket := buckets[key];
        if Idle(config, bucket, now) { buckets := buckets - {key}; }
        todo := todo - {key};
      }
    }

    method ResetKey(key: string)
      requires Sound(config)
      modifies this
      ensures buckets == Apply(config, old(buckets), ResetOp(key, 0))
      ensures forall k, now ::
        Level(config, buckets, k, now) == if k == key then config.burstLimit else Level(config, old(buckets), k, now)
    {
      buckets := buckets - {key};
    }

    method StatsOf(key: string, now: int) returns (stats: Option<(int, int)>)
      requires Sound(config) && ClockIsCurrent(now)
      modifies this
      ensures buckets == GetStats(config, old(buckets), key, now)
      ensures stats == if key in old(buckets) then Some((Level(config, old(buckets), key, now).Floor, now)) else None
    {
      if key !in buckets { return None; }
      RefillBucket(key, now);
      stats := Some((buckets[key].tokens.Floor, buckets[key].lastRefillAt));
    }

    /** The tokens of a bucket after refilling it, less one if there is one to take. */
    method DrawToken(key: string, now: int) returns (level: real)
      requires Sound(config) && key in buckets && buckets[key].lastRefillAt <= now
      modifies this
      ensures level == Refill(config, old(buckets)[key], now).tokens
      ensures buckets == old(buckets)[key := Bucket(Spend(level), now)]
    {
      RefillBucket(key, now);
      level := buckets[key].tokens;
      if level >= 1.0 { buckets := buckets[key := Bucket(level - 1.0, now)]; }
    }

    method CheckKey(key: string, now: int, coin: bool) returns (result: Result)
      requires Sound(config) && ClockIsCurrent(now)
      modifies this
      ensures (buckets, result) == Check(config, old(buckets), key, now, coin)
    {
      if key !in buckets { buckets := buckets[key := Bucket(config.burstLimit, now)]; }
      if |buckets| > config.maxBuckets && coin { EvictIdle(now); }
      if key !in buckets {
        assert buckets == Draw(config, old(buckets), key, now, coin).0;
        return Throws;
      }
      var level := DrawToken(key, now);
      result := Verdict(config, level, now);
    }
  }
}
