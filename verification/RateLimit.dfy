/**
 The token-bucket limiter (ratelimit.go) over real time and real tokens. The
 clock is an input that does not go back. Two promises: no interval lets more
 than capacity + rate * T requests of one key through, and the periodic
 cleanup never changes a decision.
 */
module RateLimit {

  datatype Config = Config(requestsPerMinute: int, cleanupInterval: real, staleAfter: real)

  const DEFAULTS: Config := Config(100, 300.0, 600.0)

  function Normalize(cfg: Config): (c: Config)
    ensures c.requestsPerMinute > 0 && c.cleanupInterval > 0.0 && c.staleAfter >= 60.0
    ensures cfg.requestsPerMinute > 0 && cfg.cleanupInterval > 0.0 && cfg.staleAfter >= 60.0 ==> c == cfg
    ensures cfg.requestsPerMinute <= 0 ==> c.requestsPerMinute == 100
    ensures cfg.cleanupInterval <= 0.0 ==> c.cleanupInterval == 300.0
    ensures cfg.staleAfter <= 0.0 ==> c.staleAfter == 600.0
    ensures 0.0 < cfg.staleAfter < 60.0 ==> c.staleAfter == 60.0
  {
    var stale := if cfg.staleAfter <= 0.0 then DEFAULTS.staleAfter else cfg.staleAfter;
    Config(if cfg.requestsPerMinute <= 0 then DEFAULTS.requestsPerMinute else cfg.requestsPerMinute,
           if cfg.cleanupInterval <= 0.0 then DEFAULTS.cleanupInterval else cfg.cleanupInterval,
           if stale < 60.0 then 60.0 else stale)
  }

  datatype Bucket = Bucket(tokens: real, lastSeen: real)

  /** One limiter's speed: it refills its whole capacity in a minute. */
  datatype Rate = Rate(rate: real, capacity: real)

  ghost predicate Fits(r: Rate) {
    r.capacity >= 1.0 && r.rate * 60.0 == r.capacity
  }

  function Min(a: real, b: real): real {
    if a < b then a else b
  }

  /** A bucket's tokens after the time since it was last seen, before the cap. */
  function Refilled(r: Rate, b: Bucket, now: real): real {
    b.tokens + (now - b.lastSeen) * r.rate
  }

  /** The tokens of a bucket at a moment: a key without one starts full. */
  function TokensAt(r: Rate, buckets: map<string, Bucket>, key: string, now: real): real {
    if key in buckets then Min(r.capacity, Refilled(r, buckets[key], now)) else r.capacity
  }

  ghost predicate Sane(r: Rate, buckets: map<string, Bucket>, now: real) {
    forall k :: k in buckets ==> 0.0 <= buckets[k].tokens <= r.capacity && buckets[k].lastSeen <= now
  }

  function Allows(r: Rate, buckets: map<string, Bucket>, key: string, now: real): bool {
    TokensAt(r, buckets, key, now) >= 1.0
  }

  function Requested(r: Rate, buckets: map<string, Bucket>, key: string, now: real): map<string, Bucket> {
    var tokens := TokensAt(r, buckets, key, now);
    buckets[key := Bucket(if tokens >= 1.0 then tokens - 1.0 else tokens, now)]
  }

  function Cleaned(buckets: map<string, Bucket>, cutoff: real): map<string, Bucket> {
    map k | k in buckets && buckets[k].lastSeen >= cutoff :: buckets[k]
  }

  /** The whole milliseconds until one token is there. */
  function RetryAfter(r: Rate, tokens: real): int
    requires r.rate > 0.0
  {
    ((1.0 - tokens) / r.rate * 1000.0).Floor
  }

  class Limiter {
    const r: Rate
    const staleAfter: real
    var buckets: map<string, Bucket>

    constructor (cfg: Config)
      ensures buckets == map[] && Fits(r) && staleAfter >= 60.0
      ensures r.capacity == Normalize(cfg).requestsPerMinute as real
    {
      var c := Normalize(cfg);
      this.r := Rate(c.requestsPerMinute as real / 60.0, c.requestsPerMinute as real);
      this.staleAfter := c.staleAfter;
      this.buckets := map[];
    }

    method Allow(key: string, now: real) returns (allowed: bool, retryAfter: int)
      requires Fits(r) && Sane(r, buckets, now)
      modifies this`buckets
      ensures allowed == Allows(r, old(buckets), key, now)
      ensures retryAfter == if allowed then 0 else RetryAfter(r, TokensAt(r, old(buckets), key, now))
      ensures buckets == Requested(r, old(buckets), key, now)
      ensures Sane(r, buckets, now)
    {
      OneRequest(r, buckets, key, now);
      NewBucketIsFull(r, now);
      Refills(r, 0.0);
      hide Sane, Refilled, Fits;
      retryAfter := 0;
      var b := if key in buckets then buckets[key] else Bucket(r.capacity, now);
      b := Bucket(Min(r.capacity, Refilled(r, b, now)), now);
      allowed := b.tokens >= 1.0;
      if allowed {
        b := b.(tokens := b.tokens - 1.0);
      } else {
        retryAfter := RetryAfter(r, b.tokens);
      }
      buckets := buckets[key := b];
    }

    /** One tick of cleanup. */
    method Cleanup(now: real)
      modifies this`buckets
      ensures buckets == Cleaned(old(buckets), now - staleAfter)
    {
      var cutoff := now - staleAfter;
      var left := buckets.Keys;
      while left != {}
        invariant left <= old(buckets).Keys
        invariant buckets == map k | k in old(buckets)
                  && (k in left || old(buckets)[k].lastSeen >= cutoff) :: old(buckets)[k]
        decreases left
      {
        var key :| key in left;
        left := left - {key};
        if buckets[key].lastSeen < cutoff {
          buckets := buckets - {key};
        }
      }
    }
  }

  lemma Refills(r: Rate, elapsed: real)
    requires Fits(r)
    ensures r.rate > 0.0
    ensures elapsed >= 0.0 ==> elapsed * r.rate >= 0.0
    ensures elapsed >= 60.0 ==> elapsed * r.rate >= r.capacity
  {
    if elapsed >= 60.0 {
      assert (elapsed - 60.0) * r.rate >= 0.0;
      assert (elapsed - 60.0) * r.rate == elapsed * r.rate - 60.0 * r.rate;
    }
  }

  lemma NewBucketIsFull(r: Rate, now: real)
    ensures Refilled(r, Bucket(r.capacity, now), now) == r.capacity
  {
    assert (now - now) * r.rate == 0.0;
  }

  lemma RefilledGrows(r: Rate, b: Bucket, now: real)
    requires Fits(r) && b.lastSeen <= now
    ensures Refilled(r, b, now) >= b.tokens
    ensures now - b.lastSeen >= 60.0 ==> Refilled(r, b, now) >= b.tokens + r.capacity
  {
    var elapsed := now - b.lastSeen;
    Refills(r, elapsed);
    assert Refilled(r, b, now) == b.tokens + elapsed * r.rate;
  }

  // ---- Retry-After.

  /** A refused client that stays away is let in again after its delay, to the millisecond. */
  lemma RetryAfterIsExact(r: Rate, buckets: map<string, Bucket>, key: string, now: real, later: real)
    requires Fits(r) && Sane(r, buckets, now) && !Allows(r, buckets, key, now) && now <= later && r.rate > 0.0
    ensures var retry, after := RetryAfter(r, TokensAt(r, buckets, key, now)), Requested(r, buckets, key, now);
            && ((later - now) * 1000.0 >= (retry + 1) as real ==> Allows(r, after, key, later))
            && ((later - now) * 1000.0 < retry as real ==> !Allows(r, after, key, later))
  {
    hide Sane, TokensAt, Requested, Fits, Refilled, Allows;
    var tokens, elapsed := TokensAt(r, buckets, key, now), later - now;
    OneRequest(r, buckets, key, now);
    var after := Requested(r, buckets, key, now);
    RefilledIs(r, after[key], now, later);
    var wait := (1.0 - tokens) / r.rate;
    TimesRate(1.0 - tokens, r.rate);
    WaitedEnough(r.rate, wait, elapsed, tokens);
    FloorWait(wait, elapsed);
    FullEnough(r, after, key, later);
  }

  lemma RefilledIs(r: Rate, b: Bucket, now: real, later: real)
    requires b.lastSeen == now
    ensures Refilled(r, b, later) == b.tokens + (later - now) * r.rate
  {
  }

  lemma FullEnough(r: Rate, buckets: map<string, Bucket>, key: string, now: real)
    requires Fits(r) && key in buckets
    ensures Allows(r, buckets, key, now) <==> Refilled(r, buckets[key], now) >= 1.0
  {
    hide Refilled;
  }

  lemma TimesRate(x: real, rate: real)
    requires rate > 0.0
    ensures x / rate * rate == x
  {
  }

  lemma FloorWait(wait: real, elapsed: real)
    ensures elapsed * 1000.0 >= ((wait * 1000.0).Floor + 1) as real ==> elapsed >= wait
    ensures elapsed * 1000.0 < (wait * 1000.0).Floor as real ==> elapsed < wait
  {
  }

  lemma WaitedEnough(rate: real, wait: real, elapsed: real, tokens: real)
    requires rate > 0.0 && wait * rate == 1.0 - tokens
    ensures elapsed >= wait <==> tokens + elapsed * rate >= 1.0
  {
    var more := (elapsed - wait) * rate;
    assert more == elapsed * rate - wait * rate;
    if elapsed >= wait {
      assert more >= 0.0;
    } else {
      assert (wait - elapsed) * rate > 0.0;
      assert (wait - elapsed) * rate == -more;
    }
  }

  lemma OneRequest(r: Rate, buckets: map<string, Bucket>, key: string, now: real)
    requires Fits(r) && Sane(r, buckets, now)
    ensures Sane(r, Requested(r, buckets, key, now), now)
    ensures 0.0 <= TokensAt(r, buckets, key, now) <= r.capacity
    ensures key in buckets ==> TokensAt(r, buckets, key, now) <= Refilled(r, buckets[key], now)
    ensures var after := Requested(r, buckets, key, now);
            key in after && after[key].lastSeen == now
            && after[key].tokens + (if Allows(r, buckets, key, now) then 1.0 else 0.0) == TokensAt(r, buckets, key, now)
  {
    if key in buckets {
      RefilledGrows(r, buckets[key], now);
    }
    hide Refilled;
    var after := Requested(r, buckets, key, now);
    assert 0.0 <= after[key].tokens <= r.capacity;
    forall k | k in after
      ensures 0.0 <= after[k].tokens <= r.capacity && after[k].lastSeen <= now
    {
      if k != key {
        assert after[k] == buckets[k];
      }
    }
  }

  // ---- Cleanup.

  datatype Event = Request(key: string, at: real) | Tick(at: real)

  datatype Outcome = Outcome(buckets: map<string, Bucket>, decisions: seq<bool>)

  /** What one event makes of an outcome. */
  function Next(r: Rate, staleAfter: real, o: Outcome, e: Event): Outcome {
    match e
    case Request(key, at) => Outcome(Requested(r, o.buckets, key, at), o.decisions + [Allows(r, o.buckets, key, at)])
    case Tick(at) => Outcome(Cleaned(o.buckets, at - staleAfter), o.decisions)
  }

  /** A run with its cleanup ticks. */
  function Run(r: Rate, staleAfter: real, events: seq<Event>): Outcome {
    if events == [] then Outcome(map[], [])
    else
      Next(r, staleAfter, Run(r, staleAfter, events[..|events| - 1]), events[|events| - 1])
  }

  /** The same run with every tick left out. */
  function Untidied(events: seq<Event>): seq<Event> {
    if events == [] then []
    else Untidied(events[..|events| - 1]) + if events[|events| - 1].Request? then [events[|events| - 1]] else []
  }

  ghost predicate InOrder(events: seq<Event>) {
    forall i, j :: 0 <= i <= j < |events| ==> events[i].at <= events[j].at
  }

  function Now(events: seq<Event>): real {
    if events == [] then 0.0 else events[|events| - 1].at
  }

  /** The cleaned state lacks only buckets that are full again. */
  ghost predicate SameButFull(r: Rate, cleaned: map<string, Bucket>, full: map<string, Bucket>, now: real) {
    && (forall k :: k in cleaned ==> k in full && cleaned[k] == full[k])
    && (forall k :: k in full && k !in cleaned ==> Refilled(r, full[k], now) >= r.capacity)
  }

  lemma LaterIsFuller(r: Rate, full: map<string, Bucket>, k: string, now: real, later: real)
    requires Fits(r) && now <= later && k in full
    requires Refilled(r, full[k], now) >= r.capacity
    ensures Refilled(r, full[k], later) >= r.capacity
  {
    Refills(r, later - now);
    assert (later - full[k].lastSeen) * r.rate == (now - full[k].lastSeen) * r.rate + (later - now) * r.rate;
  }

  lemma {:induction false} CleanupSimulates(r: Rate, staleAfter: real, events: seq<Event>)
    requires Fits(r) && staleAfter >= 60.0 && InOrder(events)
    ensures var tidy, full := Run(r, staleAfter, events), Run(r, staleAfter, Untidied(events));
            tidy.decisions == full.decisions
            && (events != [] ==>
                SameButFull(r, tidy.buckets, full.buckets, Now(events)) && Sane(r, full.buckets, Now(events)))
            && (events == [] ==> tidy.buckets == full.buckets == map[])
  {
    if events != [] {
      var n := |events| - 1;
      var front, e := events[..n], events[n];
      CleanupSimulates(r, staleAfter, front);
      var tidy, full := Run(r, staleAfter, front), Run(r, staleAfter, Untidied(front));
      if n > 0 {
        assert Now(front) == events[n - 1].at <= e.at;
        StillSameButFull(r, tidy.buckets, full.buckets, Now(front), e.at);
      } else {
        NothingYet(r, e.at);
      }
      hide SameButFull, Sane, Fits, InOrder;
      StepSimulates(r, staleAfter, tidy, full, e);
      if e.Request? {
        assert Untidied(events)[..|Untidied(events)| - 1] == Untidied(front);
      } else {
        assert Untidied(events) == Untidied(front);
      }
    }
  }

  lemma StepSimulates(r: Rate, staleAfter: real, tidy: Outcome, full: Outcome, e: Event)
    requires Fits(r) && staleAfter >= 60.0 && tidy.decisions == full.decisions
    requires SameButFull(r, tidy.buckets, full.buckets, e.at) && Sane(r, full.buckets, e.at)
    ensures var tidy', full' := Next(r, staleAfter, tidy, e), if e.Request? then Next(r, staleAfter, full, e) else full;
            tidy'.decisions == full'.decisions
            && SameButFull(r, tidy'.buckets, full'.buckets, e.at) && Sane(r, full'.buckets, e.at)
  {
    hide SameButFull, Sane, Fits, Requested, Allows, Cleaned;
    match e
    case Request(key, at) => SameRequest(r, tidy.buckets, full.buckets, key, at);
    case Tick(at) => TickDropsFull(r, staleAfter, tidy.buckets, full.buckets, at);
  }

  lemma NothingYet(r: Rate, now: real)
    ensures SameButFull(r, map[], map[], now) && Sane(r, map[], now)
  {
  }

  lemma StillSameButFull(r: Rate, cleaned: map<string, Bucket>, full: map<string, Bucket>, now: real, later: real)
    requires Fits(r) && now <= later && SameButFull(r, cleaned, full, now) && Sane(r, full, now)
    ensures SameButFull(r, cleaned, full, later) && Sane(r, full, later)
  {
    forall k | k in full && k !in cleaned
      ensures Refilled(r, full[k], later) >= r.capacity
    {
      LaterIsFuller(r, full, k, now, later);
    }
  }

  lemma SameRequest(r: Rate, cleaned: map<string, Bucket>, full: map<string, Bucket>, key: string, now: real)
    requires Fits(r) && SameButFull(r, cleaned, full, now) && Sane(r, full, now)
    ensures Allows(r, cleaned, key, now) == Allows(r, full, key, now)
    ensures SameButFull(r, Requested(r, cleaned, key, now), Requested(r, full, key, now), now)
    ensures Sane(r, Requested(r, full, key, now), now)
  {
    OneRequest(r, full, key, now);
    hide Refilled, Sane, Fits;
    assert TokensAt(r, cleaned, key, now) == TokensAt(r, full, key, now);
  }

  lemma TickDropsFull(r: Rate, staleAfter: real, cleaned: map<string, Bucket>, full: map<string, Bucket>, now: real)
    requires Fits(r) && staleAfter >= 60.0 && SameButFull(r, cleaned, full, now) && Sane(r, full, now)
    ensures SameButFull(r, Cleaned(cleaned, now - staleAfter), full, now)
  {
    forall k | k in full && k !in Cleaned(cleaned, now - staleAfter)
      ensures Refilled(r, full[k], now) >= r.capacity
    {
      if k in cleaned {
        RefilledGrows(r, full[k], now);
      }
    }
  }

  /** Interleaving cleanup at any times changes no decision. */
  lemma CleanupChangesNoDecision(r: Rate, staleAfter: real, events: seq<Event>)
    requires Fits(r) && staleAfter >= 60.0 && InOrder(events)
    ensures Run(r, staleAfter, events).decisions == Run(r, staleAfter, Untidied(events)).decisions
  {
    CleanupSimulates(r, staleAfter, events);
  }

  /** The minute that normalize insists on is needed: any shorter staleness forgives a client. */
  lemma EarlierCleanupForgives(staleAfter: real)
    requires 0.0 < staleAfter < 60.0
    ensures exists r: Rate, events: seq<Event> ::
              Fits(r) && InOrder(events)
                  && Run(r, staleAfter, events).decisions != Run(r, staleAfter, Untidied(events)).decisions
  {
    var r := Rate(1.0 / 60.0, 1.0);
    var t := (staleAfter + 60.0) / 2.0;
    var events := [Request("k", 0.0), Tick(t), Request("k", t)];
    Forgiven(r, staleAfter, t);
    NotForgiven(r, staleAfter, t);
    assert Untidied(events) == [Request("k", 0.0), Request("k", t)] by {
      UntidiedThree(Request("k", 0.0), Tick(t), Request("k", t));
    }
    assert Fits(r) && InOrder(events);
    assert Run(r, staleAfter, events).decisions[1] != Run(r, staleAfter, Untidied(events)).decisions[1];
  }

  lemma UntidiedThree(a: Event, b: Event, c: Event)
    requires a.Request? && b.Tick? && c.Request?
    ensures Untidied([a, b, c]) == [a, c]
  {
    assert [a, b, c][..2] == [a, b] && [a, b][..1] == [a] && [a][..0] == [];
    assert Untidied([]) == [];
    assert Untidied([a]) == [a];
    assert Untidied([a, b]) == [a];
  }

  lemma FirstOfOne(r: Rate, staleAfter: real)
    requires r == Rate(1.0 / 60.0, 1.0)
    ensures Run(r, staleAfter, [Request("k", 0.0)]) == Outcome(map["k" := Bucket(0.0, 0.0)], [true])
  {
    assert [Request("k", 0.0)][..0] == [];
    assert Run(r, staleAfter, []) == Outcome(map[], []);
  }

  lemma Forgiven(r: Rate, staleAfter: real, t: real)
    requires r == Rate(1.0 / 60.0, 1.0) && 0.0 < staleAfter < t
    ensures Run(r, staleAfter, [Request("k", 0.0), Tick(t), Request("k", t)]).decisions == [true, true]
  {
    var a, b, c := Request("k", 0.0), Tick(t), Request("k", t);
    FirstOfOne(r, staleAfter);
    assert [a, b][..1] == [a] && [a, b, c][..2] == [a, b];
    assert Run(r, staleAfter, [a, b]) == Outcome(map[], [true]);
  }

  lemma NotForgiven(r: Rate, staleAfter: real, t: real)
    requires r == Rate(1.0 / 60.0, 1.0) && 0.0 < t < 60.0
    ensures Run(r, staleAfter, [Request("k", 0.0), Request("k", t)]).decisions == [true, false]
  {
    var a, c := Request("k", 0.0), Request("k", t);
    FirstOfOne(r, staleAfter);
    assert [a, c][..1] == [a];
    assert Refilled(r, Bucket(0.0, 0.0), t) == t * (1.0 / 60.0);
    assert t * (1.0 / 60.0) < 1.0;
  }

  // ---- The bound.

  /** How many requests of a key a run lets through between two positions, whatever else happens in between. */
  function AllowedIn(r: Rate, staleAfter: real, events: seq<Event>, key: string, i: nat, j: nat): nat
    requires i <= j <= |events|
  {
    if i == j then 0
    else
      AllowedIn(r, staleAfter, events, key, i, j - 1)
      + if events[j - 1].Request? && events[j - 1].key == key
          && Allows(r, Run(r, staleAfter, events[..j - 1]).buckets, key, events[j - 1].at)
        then 1 else 0
  }

  /** What one key may spend between two moments. */
  function Budget(r: Rate, from: real, until: real): real {
    r.capacity + r.rate * (until - from)
  }

  /**
   In every run, with requests of other keys and cleanup ticks anywhere in
   between, the requests of one key in any interval let at most
   capacity + rate * T through.
   */
  lemma AtMostBurstPlusRate(r: Rate, staleAfter: real, events: seq<Event>, key: string, i: nat, j: nat)
    requires Fits(r) && staleAfter >= 60.0 && InOrder(events) && i < j <= |events|
    ensures AllowedIn(r, staleAfter, events, key, i, j) as real <= r.capacity
            + r.rate * (events[j - 1].at - events[i].at)
  {
    hide InOrder, Run, Allows, Sane;
    TokensCover(r, staleAfter, events, key, i, j);
    RunIsSane(r, staleAfter, events, j);
    TokensBetween(r, Run(r, staleAfter, events[..j]).buckets, key, events[j - 1].at);
  }

  /** What was let through and what is left never exceed what was there plus what came in. */
  lemma {:induction false} TokensCover(r: Rate, staleAfter: real, events: seq<Event>, key: string, i: nat, j: nat)
    requires Fits(r) && staleAfter >= 60.0 && InOrder(events) && i < j <= |events|
    ensures AllowedIn(r, staleAfter, events, key, i, j) as real
            + TokensAt(r, Run(r, staleAfter, events[..j]).buckets, key, events[j - 1].at)
            <= Budget(r, events[i].at, events[j - 1].at)
    decreases j
  {
    hide TokensAt, Allows, Sane, Run, Budget, Next, Fits;
    var before, e := Run(r, staleAfter, events[..j - 1]).buckets, events[j - 1];
    RunSnoc(r, staleAfter, events, j);
    SaneBefore(r, staleAfter, events, j);
    EventTokens(r, staleAfter, Run(r, staleAfter, events[..j - 1]), e, key);
    if i == j - 1 {
      TokensBetween(r, before, key, e.at);
      BudgetStarts(r, e.at);
    } else {
      TokensCover(r, staleAfter, events, key, i, j - 1);
      var last := events[j - 2].at;
      RunIsSane(r, staleAfter, events, j - 1);
      TokensGrow(r, before, key, last, e.at);
      BudgetGrows(r, events[i].at, last, e.at);
    }
  }

  lemma BudgetStarts(r: Rate, at: real)
    ensures Budget(r, at, at) == r.capacity
  {
    assert r.rate * (at - at) == 0.0;
  }

  lemma BudgetGrows(r: Rate, from: real, now: real, later: real)
    ensures Budget(r, from, later) == Budget(r, from, now) + (later - now) * r.rate
  {
    assert r.rate * (later - from) == r.rate * (now - from) + (later - now) * r.rate;
  }

  lemma RunSnoc(r: Rate, staleAfter: real, events: seq<Event>, j: nat)
    requires 0 < j <= |events|
    ensures Run(r, staleAfter, events[..j]) == Next(r, staleAfter, Run(r, staleAfter, events[..j - 1]), events[j - 1])
  {
    assert events[..j][..j - 1] == events[..j - 1];
  }

  lemma TokensBetween(r: Rate, buckets: map<string, Bucket>, key: string, now: real)
    requires Fits(r) && Sane(r, buckets, now)
    ensures 0.0 <= TokensAt(r, buckets, key, now) <= r.capacity
  {
    OneRequest(r, buckets, key, now);
  }

  /** Tokens come in no faster than the rate. */
  lemma TokensGrow(r: Rate, buckets: map<string, Bucket>, key: string, now: real, later: real)
    requires Fits(r) && Sane(r, buckets, now) && now <= later
    ensures TokensAt(r, buckets, key, later) <= TokensAt(r, buckets, key, now) + (later - now) * r.rate
  {
    Refills(r, later - now);
    if key in buckets {
      var b := buckets[key];
      assert (later - b.lastSeen) * r.rate == (now - b.lastSeen) * r.rate + (later - now) * r.rate;
    }
  }

  lemma SaneBefore(r: Rate, staleAfter: real, events: seq<Event>, j: nat)
    requires Fits(r) && InOrder(events) && 0 < j <= |events|
    ensures Sane(r, Run(r, staleAfter, events[..j - 1]).buckets, events[j - 1].at)
  {
    if j > 1 {
      RunIsSane(r, staleAfter, events, j - 1);
      assert events[j - 2].at <= events[j - 1].at;
    }
  }

  lemma {:induction false} RunIsSane(r: Rate, staleAfter: real, events: seq<Event>, j: nat)
    requires Fits(r) && InOrder(events) && 0 < j <= |events|
    ensures Sane(r, Run(r, staleAfter, events[..j]).buckets, events[j - 1].at)
    decreases j
  {
    hide Run, Requested, Fits;
    RunSnoc(r, staleAfter, events, j);
    var before, e := Run(r, staleAfter, events[..j - 1]).buckets, events[j - 1];
    if j > 1 {
      RunIsSane(r, staleAfter, events, j - 1);
      assert events[j - 2].at <= e.at;
    } else {
      assert events[..0] == [] && before == map[] by { EmptyRun(r, staleAfter); }
    }
    assert Sane(r, before, e.at);
    if e.Request? {
      OneRequest(r, before, e.key, e.at);
    }
  }

  lemma EmptyRun(r: Rate, staleAfter: real)
    ensures Run(r, staleAfter, []) == Outcome(map[], [])
  {
  }

  /** An event takes one token from a key when it lets the key's request through, and none otherwise. */
  lemma EventTokens(r: Rate, staleAfter: real, o: Outcome, e: Event, key: string)
    requires Fits(r) && staleAfter >= 60.0 && Sane(r, o.buckets, e.at)
    ensures TokensAt(r, Next(r, staleAfter, o, e).buckets, key, e.at)
         == TokensAt(r, o.buckets, key, e.at) - if e.Request? && e.key == key && Allows(r, o.buckets, key, e.at)
             then 1.0 else 0.0
  {
    match e
    case Request(k, at) =>
      OneRequest(r, o.buckets, k, at);
      var after := Requested(r, o.buckets, k, at);
      assert Refilled(r, after[k], at) == after[k].tokens by {
        assert (at - at) * r.rate == 0.0;
      }
      hide Refilled, Sane;
      assert key != k ==> (key in after <==> key in o.buckets);
    case Tick(at) =>
      if key in o.buckets && o.buckets[key].lastSeen < at - staleAfter {
        RefilledGrows(r, o.buckets[key], at);
      }
  }

  // ---- And no more is refused than that.

  /** The tokens that come in between two moments. */
  function Gain(r: Rate, now: real, later: real): real {
    (later - now) * r.rate
  }

  /** Tokens come in at the rate up to the capacity. */
  lemma TokensLater(r: Rate, buckets: map<string, Bucket>, key: string, now: real, later: real)
    requires Fits(r) && Sane(r, buckets, now) && now <= later
    ensures TokensAt(r, buckets, key, later) == Min(r.capacity, TokensAt(r, buckets, key, now) + Gain(r, now, later))
  {
    Refills(r, later - now);
    assert Gain(r, now, later) >= 0.0;
    if key in buckets {
      var b := buckets[key];
      assert Refilled(r, b, later) == Refilled(r, b, now) + Gain(r, now, later) by {
        assert (later - b.lastSeen) * r.rate == (now - b.lastSeen) * r.rate + (later - now) * r.rate;
      }
      hide Refilled, Gain;
    }
  }

  lemma BudgetLater(r: Rate, from: real, now: real, later: real)
    ensures Budget(r, from, later) == Budget(r, from, now) + Gain(r, now, later)
    ensures Budget(r, now, now) == r.capacity
  {
    BudgetGrows(r, from, now, later);
    BudgetStarts(r, now);
  }

  /** A key's tokens are just what is left of the budget since some event. */
  ghost predicate Spent(r: Rate, staleAfter: real, events: seq<Event>, key: string, i: nat, j: nat, now: real)
    requires j <= |events|
  {
    i < j && TokensAt(r, Run(r, staleAfter, events[..j]).buckets, key, now)
             == Budget(r, events[i].at, now) - AllowedIn(r, staleAfter, events, key, i, j) as real
  }

  /** A key's tokens are full, or what is left of some budget. */
  lemma {:induction false} TokensAreExact(r: Rate, staleAfter: real, events: seq<Event>, key: string, j: nat, now: real)
    requires Fits(r) && staleAfter >= 60.0 && InOrder(events) && j <= |events|
    requires j > 0 ==> events[j - 1].at <= now
    ensures TokensAt(r, Run(r, staleAfter, events[..j]).buckets, key, now) == r.capacity
            || exists i: nat :: Spent(r, staleAfter, events, key, i, j, now)
    decreases j
  {
    if j == 0 {
      assert events[..0] == [];
      EmptyRun(r, staleAfter);
    } else {
      hide Run, Allows, Sane, Budget, InOrder, TokensAt, Fits, Gain, AllowedIn, Next;
      var before, e := Run(r, staleAfter, events[..j - 1]).buckets, events[j - 1];
      EarlierIsOlder(events, j);
      TokensAreExact(r, staleAfter, events, key, j - 1, e.at);
      var i: nat := j - 1;
      if TokensAt(r, before, key, e.at) != r.capacity {
        i :| Spent(r, staleAfter, events, key, i, j - 1, e.at);
      }
      AllowedSnoc(r, staleAfter, events, key, i, j);
      BudgetLater(r, events[i].at, e.at, now);
      BudgetLater(r, e.at, e.at, now);
      SpentMore(r, staleAfter, events, key, i, j, now);
    }
  }

  /** What is left after one more event. */
  lemma SpentMore(r: Rate, staleAfter: real, events: seq<Event>, key: string, i: nat, j: nat, now: real)
    requires Fits(r) && staleAfter >= 60.0 && InOrder(events) && i < j <= |events| && events[j - 1].at <= now
    requires TokensAt(r, Run(r, staleAfter, events[..j - 1]).buckets, key, events[j - 1].at)
          == Budget(r, events[i].at, events[j - 1].at) - AllowedIn(r, staleAfter, events, key, i, j - 1) as real
    ensures TokensAt(r, Run(r, staleAfter, events[..j]).buckets, key, now) == r.capacity
            || Spent(r, staleAfter, events, key, i, j, now)
  {
    hide Run, Allows, Sane, Budget, InOrder, TokensAt, Fits, Gain, AllowedIn, Next;
    var e := events[j - 1];
    RunSnoc(r, staleAfter, events, j);
    SaneBefore(r, staleAfter, events, j);
    RunIsSane(r, staleAfter, events, j);
    EventTokens(r, staleAfter, Run(r, staleAfter, events[..j - 1]), e, key);
    TokensLater(r, Run(r, staleAfter, events[..j]).buckets, key, e.at, now);
    AllowedSnoc(r, staleAfter, events, key, i, j);
    BudgetLater(r, events[i].at, e.at, now);
  }

  lemma AllowedSnoc(r: Rate, staleAfter: real, events: seq<Event>, key: string, i: nat, j: nat)
    requires i < j <= |events|
    ensures AllowedIn(r, staleAfter, events, key, i, i) == 0
    ensures AllowedIn(r, staleAfter, events, key, i, j) as real
         == AllowedIn(r, staleAfter, events, key, i, j - 1) as real
            + if events[j - 1].Request? && events[j - 1].key == key
                 && Allows(r, Run(r, staleAfter, events[..j - 1]).buckets, key, events[j - 1].at) then 1.0 else 0.0
  {
    hide Run, Allows;
  }

  lemma EarlierIsOlder(events: seq<Event>, j: nat)
    requires InOrder(events) && 0 < j <= |events|
    ensures j > 1 ==> events[j - 2].at <= events[j - 1].at
  {
  }

  lemma TokensAtMost(r: Rate, staleAfter: real, events: seq<Event>, key: string, i: nat, j: nat, now: real)
    requires Fits(r) && staleAfter >= 60.0 && InOrder(events) && i < j <= |events| && events[j - 1].at <= now
    ensures TokensAt(r, Run(r, staleAfter, events[..j]).buckets, key, now)
         <= Budget(r, events[i].at, now) - AllowedIn(r, staleAfter, events, key, i, j) as real
  {
    hide Run, TokensAt, InOrder, AllowedIn, Sane, Budget, Gain, Fits;
    var last := events[j - 1].at;
    TokensCover(r, staleAfter, events, key, i, j);
    RunIsSane(r, staleAfter, events, j);
    TokensLater(r, Run(r, staleAfter, events[..j]).buckets, key, last, now);
    BudgetLater(r, events[i].at, last, now);
  }

  /**
   A request is let in exactly when, since every earlier event, it and the
   requests of its key let in until then fit into capacity + rate * T.
   */
  lemma LetInExactly(r: Rate, staleAfter: real, events: seq<Event>, j: nat)
    requires Fits(r) && staleAfter >= 60.0 && InOrder(events) && j < |events| && events[j].Request?
    ensures var key, now := events[j].key, events[j].at;
            Allows(r, Run(r, staleAfter, events[..j]).buckets, key, now)
            <==> forall i :: 0 <= i < j ==>
                   AllowedIn(r, staleAfter, events, key, i, j) as real + 1.0 <= Budget(r, events[i].at, now)
  {
    var key, now := events[j].key, events[j].at;
    var tokens := TokensAt(r, Run(r, staleAfter, events[..j]).buckets, key, now);
    assert Allows(r, Run(r, staleAfter, events[..j]).buckets, key, now) <==> tokens >= 1.0;
    assert r.capacity >= 1.0;
    hide Run, TokensAt, InOrder, AllowedIn, Sane, Budget, Allows, Fits;
    EarlierIsOlder(events, j + 1);
    TokensAreExact(r, staleAfter, events, key, j, now);
    forall i | 0 <= i < j
      ensures tokens <= Budget(r, events[i].at, now) - AllowedIn(r, staleAfter, events, key, i, j) as real
    {
      TokensAtMost(r, staleAfter, events, key, i, j, now);
    }
    if tokens != r.capacity {
      var i: nat :| Spent(r, staleAfter, events, key, i, j, now);
    }
  }

  /** What the limiter answers over a run is what it lets in. */
  lemma {:induction false} DecisionsAreAllows(r: Rate, staleAfter: real, events: seq<Event>)
    ensures Run(r, staleAfter, events).decisions == Answers(r, staleAfter, events)
  {
    hide Requested, Cleaned, Allows;
    if events != [] {
      var front := events[..|events| - 1];
      DecisionsAreAllows(r, staleAfter, front);
    }
  }

  function Answers(r: Rate, staleAfter: real, events: seq<Event>): seq<bool> {
    if events == [] then []
    else
      var front, e := events[..|events| - 1], events[|events| - 1];
      Answers(r, staleAfter, front)
      + if e.Request? then [Allows(r, Run(r, staleAfter, front).buckets, e.key, e.at)] else []
  }
}
