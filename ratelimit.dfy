/**
 * The per-client rate limiter of the `rateLimit` middleware: a map from
 * client IP to that client's token bucket and the time it was last seen,
 * plus the once-a-minute sweep that forgets idle clients. Times are
 * nanoseconds on a monotonic clock, passed in as `now`.
 */
module RateLimit {
  /** `time.Minute` in nanoseconds. */
  const Minute: int := 60_000_000_000
  /** Clients whose last request is more than this long ago are removed. */
  const IdleTimeout: int := 3 * Minute

  /**
   * The limiter settings: whether limiting is on, the burst size, and the
   * time between two token refills (the reciprocal of the requests-per-second
   * setting; 0 stands for a rate of zero, which never refills).
   */
  datatype Config = Config(enabled: bool, burst: nat, period: nat)

  /** A token bucket: tokens available, and the time up to which refills were credited. */
  datatype Bucket = Bucket(tokens: nat, last: int)

  /** `rate.NewLimiter`: a bucket starts full. */
  function NewBucket(config: Config, now: int): (b: Bucket)
    ensures b.tokens == config.burst && b.last == now
  {
    Bucket(config.burst, now)
  }

  /** Credit the whole periods elapsed since `b.last`, never beyond the burst size. */
  function Refill(config: Config, b: Bucket, now: int): (r: Bucket)
    requires b.tokens <= config.burst
    ensures b.tokens <= r.tokens <= config.burst
    ensures config.period == 0 || now <= b.last ==> r == b
    ensures config.period > 0 && b.last <= now ==>
              r.tokens == if b.tokens + (now - b.last) / config.period >= config.burst
                          then config.burst else b.tokens + (now - b.last) / config.period
  {
    if config.period == 0 || now <= b.last then b
    else
      var earned := (now - b.last) / config.period;
      if b.tokens + earned >= config.burst then Bucket(config.burst, now)
      else Bucket(b.tokens + earned, b.last + earned * config.period)
  }

  /** `Limiter.Allow()`: take one token after refilling, if there is one. */
  function Allow(config: Config, b: Bucket, now: int): (r: (bool, Bucket))
    requires b.tokens <= config.burst
    ensures r.1.tokens <= config.burst
    ensures r.0 <==> Refill(config, b, now).tokens >= 1
    ensures r.0 ==> r.1 == Refill(config, b, now).(tokens := Refill(config, b, now).tokens - 1)
    ensures !r.0 ==> r.1 == Refill(config, b, now)
  {
    var filled := Refill(config, b, now);
    if filled.tokens >= 1 then (true, filled.(tokens := filled.tokens - 1)) else (false, filled)
  }

  /** After an empty bucket waits one full period, exactly one request gets through. */
  lemma OneTokenPerPeriod(config: Config, last: int)
    requires config.period > 0 && config.burst >= 1
    ensures var (first, b) := Allow(config, Bucket(0, last), last + config.period);
            first && !Allow(config, b, last + config.period).0
  {
    var now := last + config.period;
    assert (now - last) / config.period == 1;
    var (first, b) := Allow(config, Bucket(0, last), now);
    assert b.tokens == 0 && b.last >= now;
  }

  /** One map entry: the client's bucket and the time of its latest request. */
  datatype Client = Client(limiter: Bucket, lastSeen: int)

  /** Every bucket in the map holds at most the burst size. */
  ghost predicate WellFormed(config: Config, clients: map<string, Client>)
  {
    forall ip :: ip in clients ==> clients[ip].limiter.tokens <= config.burst
  }

  /** Whether the request is passed on, or answered with 429 Too Many Requests. */
  datatype Outcome = Forward | RateLimitExceeded

  /**
   * One request from `ip` at `now`: when limiting is on, the client is added
   * with a fresh bucket if unknown, marked as seen, and charged one token.
   */
  function Admit(config: Config, clients: map<string, Client>, ip: string, now: int)
    : (r: (map<string, Client>, Outcome))
    requires WellFormed(config, clients)
    ensures WellFormed(config, r.0)
    ensures !config.enabled ==> r == (clients, Forward)
    ensures config.enabled ==> r.0.Keys == clients.Keys + {ip} && r.0[ip].lastSeen == now
    ensures config.enabled ==> forall other :: other in clients && other != ip ==> r.0[other] == clients[other]
    ensures config.enabled ==>
              var b := if ip in clients then clients[ip].limiter else NewBucket(config, now);
              r.0[ip].limiter == Allow(config, b, now).1 &&
              (r.1 == Forward <==> Allow(config, b, now).0)
  {
    if !config.enabled then (clients, Forward)
    else
      var b := if ip in clients then clients[ip].limiter else NewBucket(config, now);
      var (allowed, b') := Allow(config, b, now);
      (clients[ip := Client(b', now)], if allowed then Forward else RateLimitExceeded)
  }

  /** The sweep: keep exactly the clients seen within the idle timeout, unchanged. */
  function Evict(clients: map<string, Client>, now: int): (r: map<string, Client>)
    ensures r.Keys <= clients.Keys
    ensures forall ip :: ip in r ==> r[ip] == clients[ip]
    ensures forall ip :: ip in clients ==> (ip in r <==> now - clients[ip].lastSeen <= IdleTimeout)
  {
    map ip | ip in clients && now - clients[ip].lastSeen <= IdleTimeout :: clients[ip]
  }

  /** The outcome for one client depends on that client's entry alone. */
  lemma ClientsAreIndependent(config: Config, c1: map<string, Client>, c2: map<string, Client>,
                              ip: string, now: int)
    requires WellFormed(config, c1) && WellFormed(config, c2)
    requires ip in c1 <==> ip in c2
    requires ip in c1 ==> c1[ip] == c2[ip]
    ensures Admit(config, c1, ip, now).1 == Admit(config, c2, ip, now).1
    ensures config.enabled ==> Admit(config, c1, ip, now).0[ip] == Admit(config, c2, ip, now).0[ip]
  {
  }

  /** An entry seen exactly the idle timeout ago survives the sweep; one nanosecond older is removed. */
  lemma SweepBoundary(clients: map<string, Client>, ip: string, now: int)
    requires ip in clients
    ensures now - clients[ip].lastSeen == IdleTimeout ==> ip in Evict(clients, now)
    ensures now - clients[ip].lastSeen == IdleTimeout + 1 ==> ip !in Evict(clients, now)
  {
  }

  /** A client removed by the sweep starts over with a full bucket on its next request. */
  lemma EvictedStartsFull(config: Config, clients: map<string, Client>, ip: string, sweep: int, now: int)
    requires config.enabled && config.burst >= 1
    requires WellFormed(config, clients)
    requires ip in clients && sweep - clients[ip].lastSeen > IdleTimeout
    ensures WellFormed(config, Evict(clients, sweep))
    ensures Admit(config, Evict(clients, sweep), ip, now).1 == Forward
    ensures Admit(config, Evict(clients, sweep), ip, now).0[ip].limiter.tokens == config.burst - 1
  {
    var kept := Evict(clients, sweep);
    assert ip !in kept;
  }

  /** `n` requests from the same client at the same instant, applied in order. */
  function Burst(config: Config, clients: map<string, Client>, ip: string, now: int, n: nat)
    : (r: (map<string, Client>, seq<Outcome>))
    requires WellFormed(config, clients)
    ensures WellFormed(config, r.0) && |r.1| == n
  {
    if n == 0 then (clients, [])
    else
      var (before, outcomes) := Burst(config, clients, ip, now, n - 1);
      var (after, outcome) := Admit(config, before, ip, now);
      (after, outcomes + [outcome])
  }

  /** After `n` same-instant requests from a new client, its bucket holds `burst - n` tokens (at least 0). */
  lemma {:induction false} BurstState(config: Config, clients: map<string, Client>, ip: string, now: int, n: nat)
    requires config.enabled && WellFormed(config, clients) && ip !in clients
    requires n >= 1
    ensures var r := Burst(config, clients, ip, now, n);
            ip in r.0 && r.0[ip].limiter.last == now &&
            r.0[ip].limiter.tokens == if n <= config.burst then config.burst - n else 0
  {
    if n > 1 {
      BurstState(config, clients, ip, now, n - 1);
    }
  }

  /**
   * A new client sending requests all at once gets exactly `burst` of them
   * through; every later one is refused.
   */
  lemma {:induction false} BurstAdmitsExactlyBurst(config: Config, clients: map<string, Client>,
                                                    ip: string, now: int, n: nat)
    requires config.enabled && WellFormed(config, clients) && ip !in clients
    ensures var outcomes := Burst(config, clients, ip, now, n).1;
            forall k :: 0 <= k < n ==> (outcomes[k] == Forward <==> k < config.burst)
  {
    if n > 0 {
      BurstAdmitsExactlyBurst(config, clients, ip, now, n - 1);
      if n > 1 {
        BurstState(config, clients, ip, now, n - 1);
      }
    }
  }

  /** The `rateLimit` middleware's state: the client map shared by all requests. */
  class RateLimiter {
    const config: Config
    var clients: map<string, Client>

    ghost predicate Valid()
      reads this
    {
      WellFormed(config, clients)
    }

    constructor (config: Config)
      ensures this.config == config && clients == map[] && Valid()
    {
      this.config := config;
      clients := map[];
    }

    /** The middleware's handler for one request from `ip` at `now`. */
    method Handle(ip: string, now: int) returns (outcome: Outcome)
      requires Valid()
      modifies this
      ensures Valid()
      ensures (clients, outcome) == Admit(config, old(clients), ip, now)
    {
      if config.enabled {
        if ip !in clients {
          clients := clients[ip := Client(NewBucket(config, now), 0)];
        }
        clients := clients[ip := clients[ip].(lastSeen := now)];
        assert clients[ip].limiter == if ip in old(clients) then old(clients)[ip].limiter else NewBucket(config, now);
        var (allowed, bucket) := Allow(config, clients[ip].limiter, now);
        clients := clients[ip := clients[ip].(limiter := bucket)];
        assert clients == old(clients)[ip := Client(bucket, now)];
        if !allowed {
          return RateLimitExceeded;
        }
      }
      return Forward;
    }

    /** One pass of the background cleanup: delete every entry idle for more than the timeout. */
    method Sweep(now: int)
      requires Valid()
      modifies this
      ensures Valid()
      ensures clients == Evict(old(clients), now)
    {
      var pending := clients.Keys;
      while pending != {}
        invariant pending <= old(clients).Keys
        invariant clients.Keys <= old(clients).Keys
        invariant forall ip :: ip in clients ==> clients[ip] == old(clients)[ip]
        invariant forall ip :: ip in old(clients) && ip !in pending ==>
                    (ip in clients <==> now - old(clients)[ip].lastSeen <= IdleTimeout)
        invariant forall ip :: ip in pending ==> ip in clients
        decreases pending
      {
        var ip :| ip in pending;
        if now - clients[ip].lastSeen > IdleTimeout {
          clients := clients - {ip};
        }
        pending := pending - {ip};
      }
    }
  }
}
