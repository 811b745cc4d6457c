/** The per-client token bucket of internal/web/middleware.go, with its five-minute
    eviction of idle buckets. Clock readings are inputs, in seconds, and tokens are reals. */
module RateLimiter {

  datatype Bucket = Bucket(tokens: real, lastCheck: real)
  type Clients = map<string, Bucket>

  datatype Config = Config(rate: int, burst: int) {
    function Rate(): real { rate as real }
    function Burst(): real { burst as real }
  }

  const IDLE_LIMIT := 300.0

  // ---------- What one call does, as a function of the bucket map ----------

  /** Tokens earned in `dt` seconds. */
  function Earned(cfg: Config, dt: real): real { dt * cfg.Rate() }

  function Refill(cfg: Config, b: Bucket, now: real): real {
    var t := b.tokens + Earned(cfg, now - b.lastCheck);
    if t > cfg.Burst() then cfg.Burst() else t
  }

  function Allowed(cfg: Config, cs: Clients, ip: string, now: real): bool {
    ip !in cs || Refill(cfg, cs[ip], now) >= 1.0
  }

  function AfterAllow(cfg: Config, cs: Clients, ip: string, now: real): Clients {
    if ip !in cs then cs[ip := Bucket(cfg.Burst() - 1.0, now)]
    else
      var t := Refill(cfg, cs[ip], now);
      cs[ip := Bucket(if t < 1.0 then t else t - 1.0, now)]
  }

  predicate Idle(b: Bucket, now: real) { now - b.lastCheck > IDLE_LIMIT }

  function Evict(cs: Clients, now: real): Clients {
    map ip | ip in cs && !Idle(cs[ip], now) :: cs[ip]
  }

  class Limiter {
    const cfg: Config
    var clients: Clients

    constructor (rate: int, burst: int)
      ensures cfg == Config(rate, burst) && clients == map[]
    {
      cfg := Config(rate, burst);
      clients := map[];
    }

    method Allow(ip: string, now: real) returns (ok: bool)
      modifies this
      ensures ok == Allowed(cfg, old(clients), ip, now)
      ensures clients == AfterAllow(cfg, old(clients), ip, now)
    {
      if ip !in clients {
        clients := clients[ip := Bucket(cfg.Burst() - 1.0, now)];
        return true;
      }
      var b := clients[ip];
      var elapsed := now - b.lastCheck;
      b := b.(tokens := b.tokens + elapsed * cfg.Rate());
      if b.tokens > cfg.Burst() {
        b := b.(tokens := cfg.Burst());
      }
      b := b.(lastCheck := now);
      assert b == Bucket(Refill(cfg, old(clients)[ip], now), now);
      if b.tokens < 1.0 {
        clients := clients[ip := b];
        return false;
      }
      clients := clients[ip := b.(tokens := b.tokens - 1.0)];
      return true;
    }

    /** One tick of the cleanup goroutine; the order in which the map is walked is arbitrary. */
    method Cleanup(now: real)
      modifies this
      ensures clients == Evict(old(clients), now)
    {
      var todo := clients.Keys;
      while todo != {}
        invariant todo <= old(clients).Keys
        invariant clients == map ip | ip in old(clients) && (ip in todo || !Idle(old(clients)[ip], now)) :: old(clients)[ip]
        decreases |todo|
      {
        var ip :| ip in todo;
        if now - clients[ip].lastCheck > IDLE_LIMIT {
          clients := clients - {ip};
        }
        todo := todo - {ip};
      }
    }
  }

  // ---------- Runs ----------

  datatype Event = Request(ip: string, at: real) | Sweep(at: real)

  ghost predicate Chronological(evs: seq<Event>) {
    forall i, j :: 0 <= i < j < |evs| ==> evs[i].at <= evs[j].at
  }

  function After(cfg: Config, evicting: bool, cs: Clients, e: Event): Clients {
    match e
    case Request(ip, at) => AfterAllow(cfg, cs, ip, at)
    case Sweep(at) => if evicting then Evict(cs, at) else cs
  }

  /** The answer to each event of a run; a sweep counts as answered `true`. */
  function Answers(cfg: Config, evicting: bool, cs: Clients, evs: seq<Event>): (r: seq<bool>)
    ensures |r| == |evs|
    decreases |evs|
  {
    if evs == [] then [] else
      [evs[0].Request? ==> Allowed(cfg, cs, evs[0].ip, evs[0].at)]
      + Answers(cfg, evicting, After(cfg, evicting, cs, evs[0]), evs[1..])
  }

  predicate Counted(e: Event, ip: string, s: real, t: real) {
    e.Request? && e.ip == ip && s <= e.at <= t
  }

  /** Allowed requests of `ip` with a clock reading in [s, t]. */
  function AllowedIn(evs: seq<Event>, answers: seq<bool>, ip: string, s: real, t: real): nat
    requires |evs| == |answers|
  {
    if evs == [] then 0 else
      (if Counted(evs[0], ip, s, t) && answers[0] then 1 else 0) + AllowedIn(evs[1..], answers[1..], ip, s, t)
  }

  ghost predicate WindowLaw(cfg: Config, evicting: bool) {
    forall evs: seq<Event>, ip, s, t :: Chronological(evs) && s <= t ==>
      AllowedIn(evs, Answers(cfg, evicting, map[], evs), ip, s, t) as real <= cfg.Burst() + Earned(cfg, t - s)
  }

  ghost predicate EvictionInvisible(cfg: Config) {
    forall evs: seq<Event> :: Chronological(evs) ==> Answers(cfg, true, map[], evs) == Answers(cfg, false, map[], evs)
  }

  /** The condition a caller of NewRateLimiter can check. */
  predicate RefillsWhileIdle(cfg: Config) { cfg.burst >= 1 && 300 * cfg.rate >= cfg.burst }

  // ---------- The bucket invariant ----------

  ghost predicate Sane(cfg: Config, cs: Clients, now: real) {
    forall ip :: ip in cs ==> 0.0 <= cs[ip].tokens <= cfg.Burst() && cs[ip].lastCheck <= now
  }

  ghost predicate From(evs: seq<Event>, now: real) { Chronological(evs) && (evs != [] ==> now <= evs[0].at) }

  lemma EarnedMonotone(cfg: Config, x: real, y: real)
    requires cfg.rate >= 0 && x <= y
    ensures Earned(cfg, x) <= Earned(cfg, y)
    ensures Earned(cfg, 0.0) == 0.0
  {
    assert (y - x) * cfg.Rate() >= 0.0;
  }

  lemma EarnedAdds(cfg: Config, x: real, y: real)
    ensures Earned(cfg, x + y) == Earned(cfg, x) + Earned(cfg, y)
  {}

  lemma RefillBounds(cfg: Config, b: Bucket, now: real)
    requires cfg.burst >= 1 && cfg.rate >= 0 && 0.0 <= b.tokens <= cfg.Burst() && b.lastCheck <= now
    ensures b.tokens <= Refill(cfg, b, now) <= cfg.Burst()
  {
    EarnedMonotone(cfg, 0.0, now - b.lastCheck);
  }

  /** Tokens stay in [0, burst], whatever the limiter does next. */
  lemma SaneStep(cfg: Config, evicting: bool, cs: Clients, now: real, e: Event)
    requires cfg.burst >= 1 && cfg.rate >= 0 && Sane(cfg, cs, now) && now <= e.at
    ensures Sane(cfg, After(cfg, evicting, cs, e), e.at)
  {
    if e.Request? && e.ip in cs {
      RefillBounds(cfg, cs[e.ip], e.at);
    }
  }

  /** What `ip` could spend at `now`. */
  function Spendable(cfg: Config, cs: Clients, ip: string, now: real): real {
    if ip in cs then Refill(cfg, cs[ip], now) else cfg.Burst()
  }

  lemma SpendableGrows(cfg: Config, cs: Clients, ip: string, now: real, later: real)
    requires cfg.burst >= 1 && cfg.rate >= 0 && Sane(cfg, cs, now) && now <= later
    ensures 0.0 <= Spendable(cfg, cs, ip, now) <= cfg.Burst()
    ensures Spendable(cfg, cs, ip, later) <= Spendable(cfg, cs, ip, now) + Earned(cfg, later - now)
  {
    EarnedMonotone(cfg, 0.0, later - now);
    if ip in cs {
      RefillBounds(cfg, cs[ip], now);
      EarnedAdds(cfg, now - cs[ip].lastCheck, later - now);
      assert (now - cs[ip].lastCheck) + (later - now) == later - cs[ip].lastCheck;
    }
  }

  /** An evicted bucket was full. */
  lemma EvictedWasFull(cfg: Config, b: Bucket, now: real)
    requires RefillsWhileIdle(cfg) && 0.0 <= b.tokens && Idle(b, now)
    ensures Refill(cfg, b, now) == cfg.Burst()
  {
    EarnedMonotone(cfg, IDLE_LIMIT, now - b.lastCheck);
    assert Earned(cfg, IDLE_LIMIT) == (300 * cfg.rate) as real;
  }

  lemma NoTimePasses(cfg: Config, cs: Clients, who: string, at: real)
    requires who in cs && cs[who].lastCheck == at && cs[who].tokens <= cfg.Burst()
    ensures Refill(cfg, cs[who], at) == cs[who].tokens
  {
    assert Earned(cfg, at - at) == 0.0;
  }

  /** One event spends what it allows: the potential behind the counting bound. */
  lemma SpendStep(cfg: Config, evicting: bool, cs: Clients, now: real, e: Event, ip: string)
    requires cfg.burst >= 1 && cfg.rate >= 0 && (evicting ==> RefillsWhileIdle(cfg))
    requires Sane(cfg, cs, now) && now <= e.at
    ensures Spendable(cfg, After(cfg, evicting, cs, e), ip, e.at)
         == Spendable(cfg, cs, ip, e.at)
          - (if e.Request? && e.ip == ip && Allowed(cfg, cs, ip, e.at) then 1.0 else 0.0)
  {
    match e
    case Request(who, at) =>
      if who == ip && ip in cs { RefillBounds(cfg, cs[ip], at); }
      NoTimePasses(cfg, AfterAllow(cfg, cs, who, at), who, at);
    case Sweep(at) =>
      if evicting && ip in cs && Idle(cs[ip], at) { EvictedWasFull(cfg, cs[ip], at); }
  }

  lemma {:induction false} NothingAfter(cfg: Config, evs: seq<Event>, answers: seq<bool>, ip: string, s: real, t: real)
    requires |evs| == |answers| && Chronological(evs) && (evs != [] ==> t < evs[0].at)
    ensures AllowedIn(evs, answers, ip, s, t) == 0
  {
    if evs != [] { NothingAfter(cfg, evs[1..], answers[1..], ip, s, t); }
  }

  lemma {:induction false} SpentFrom(cfg: Config, evicting: bool, cs: Clients, evs: seq<Event>, ip: string, now: real, s: real, t: real)
    requires cfg.burst >= 1 && cfg.rate >= 0 && (evicting ==> RefillsWhileIdle(cfg))
    requires Sane(cfg, cs, now) && From(evs, now) && now <= t
    ensures AllowedIn(evs, Answers(cfg, evicting, cs, evs), ip, s, t) as real
         <= Spendable(cfg, cs, ip, now) + Earned(cfg, t - now)
    decreases |evs|
  {
    SpendableGrows(cfg, cs, ip, now, now);
    EarnedMonotone(cfg, 0.0, t - now);
    if evs == [] { return; }
    var a, cs' := evs[0].at, After(cfg, evicting, cs, evs[0]);
    if a > t {
      NothingAfter(cfg, evs, Answers(cfg, evicting, cs, evs), ip, s, t);
      return;
    }
    SaneStep(cfg, evicting, cs, now, evs[0]);
    SpentFrom(cfg, evicting, cs', evs[1..], ip, a, s, t);
    SpendStep(cfg, evicting, cs, now, evs[0], ip);
    SpendableGrows(cfg, cs, ip, now, a);
    EarnedAdds(cfg, t - a, a - now);
    assert (t - a) + (a - now) == t - now;
    assert Answers(cfg, evicting, cs, evs)[1..] == Answers(cfg, evicting, cs', evs[1..]);
  }

  lemma {:induction false} SpentInWindow(cfg: Config, evicting: bool, cs: Clients, evs: seq<Event>, ip: string, now: real, s: real, t: real)
    requires cfg.burst >= 1 && cfg.rate >= 0 && (evicting ==> RefillsWhileIdle(cfg))
    requires Sane(cfg, cs, now) && From(evs, now) && s <= t
    ensures AllowedIn(evs, Answers(cfg, evicting, cs, evs), ip, s, t) as real <= cfg.Burst() + Earned(cfg, t - s)
    decreases |evs|
  {
    EarnedMonotone(cfg, 0.0, t - s);
    if evs == [] { return; }
    if evs[0].at < s {
      var cs' := After(cfg, evicting, cs, evs[0]);
      SaneStep(cfg, evicting, cs, now, evs[0]);
      SpentInWindow(cfg, evicting, cs', evs[1..], ip, evs[0].at, s, t);
      assert Answers(cfg, evicting, cs, evs)[1..] == Answers(cfg, evicting, cs', evs[1..]);
    } else {
      var from := if now < s then s else now;
      if from > t {
        NothingAfter(cfg, evs, Answers(cfg, evicting, cs, evs), ip, s, t);
      } else {
        SpentFrom(cfg, evicting, cs, evs, ip, from, s, t);
        SpendableGrows(cfg, cs, ip, from, from);
        EarnedMonotone(cfg, t - from, t - s);
      }
    }
  }

  lemma WindowLawHolds(cfg: Config, evicting: bool)
    requires cfg.burst >= 1 && cfg.rate >= 0 && (evicting ==> RefillsWhileIdle(cfg))
    ensures WindowLaw(cfg, evicting)
  {
    forall evs: seq<Event>, ip, s, t | Chronological(evs) && s <= t
      ensures AllowedIn(evs, Answers(cfg, evicting, map[], evs), ip, s, t) as real <= cfg.Burst() + Earned(cfg, t - s)
    {
      SpentInWindow(cfg, evicting, map[], evs, ip, if evs == [] then s else evs[0].at, s, t);
    }
  }

  // ---------- Eviction is invisible ----------

  /** The evicting limiter lost only buckets that are full by now. */
  ghost predicate Related(cfg: Config, lean: Clients, full: Clients, now: real) {
    && Sane(cfg, full, now)
    && (forall ip :: ip in lean ==> ip in full && lean[ip] == full[ip])
    && (forall ip :: ip in full && ip !in lean ==> Refill(cfg, full[ip], now) == cfg.Burst())
  }

  lemma StaysFull(cfg: Config, b: Bucket, now: real, later: real)
    requires cfg.rate >= 0 && now <= later && Refill(cfg, b, now) == cfg.Burst()
    ensures Refill(cfg, b, later) == cfg.Burst()
  {
    EarnedMonotone(cfg, now - b.lastCheck, later - b.lastCheck);
  }

  lemma RelatedStep(cfg: Config, lean: Clients, full: Clients, now: real, e: Event)
    requires RefillsWhileIdle(cfg) && Related(cfg, lean, full, now) && now <= e.at
    ensures Related(cfg, After(cfg, true, lean, e), After(cfg, false, full, e), e.at)
    ensures e.Request? ==> Allowed(cfg, lean, e.ip, e.at) == Allowed(cfg, full, e.ip, e.at)
  {
    SaneStep(cfg, false, full, now, e);
    forall ip | ip in full && ip !in lean
      ensures Refill(cfg, full[ip], e.at) == cfg.Burst()
    {
      StaysFull(cfg, full[ip], now, e.at);
    }
    if e.Sweep? {
      forall ip | ip in lean && Idle(lean[ip], e.at)
        ensures Refill(cfg, full[ip], e.at) == cfg.Burst()
      {
        EvictedWasFull(cfg, full[ip], e.at);
      }
    }
  }

  lemma {:induction false} SameAnswers(cfg: Config, lean: Clients, full: Clients, evs: seq<Event>, now: real)
    requires RefillsWhileIdle(cfg) && Related(cfg, lean, full, now) && From(evs, now)
    ensures Answers(cfg, true, lean, evs) == Answers(cfg, false, full, evs)
    decreases |evs|
  {
    if evs != [] {
      RelatedStep(cfg, lean, full, now, evs[0]);
      SameAnswers(cfg, After(cfg, true, lean, evs[0]), After(cfg, false, full, evs[0]), evs[1..], evs[0].at);
    }
  }

  // ---------- ... and the condition is exact ----------

  function Final(cfg: Config, evicting: bool, cs: Clients, evs: seq<Event>): Clients
    decreases |evs|
  {
    if evs == [] then cs else Final(cfg, evicting, After(cfg, evicting, cs, evs[0]), evs[1..])
  }

  lemma {:induction false} AnswersConcat(cfg: Config, evicting: bool, cs: Clients, a: seq<Event>, b: seq<Event>)
    ensures Answers(cfg, evicting, cs, a + b) == Answers(cfg, evicting, cs, a) + Answers(cfg, evicting, Final(cfg, evicting, cs, a), b)
    decreases |a|
  {
    if a == [] {
      assert a + b == b;
    } else {
      assert (a + b)[1..] == a[1..] + b;
      AnswersConcat(cfg, evicting, After(cfg, evicting, cs, a[0]), a[1..], b);
    }
  }

  lemma {:induction false} AllowedInConcat(a: seq<Event>, x: seq<bool>, b: seq<Event>, y: seq<bool>, ip: string, s: real, t: real)
    requires |a| == |x| && |b| == |y|
    ensures AllowedIn(a + b, x + y, ip, s, t) == AllowedIn(a, x, ip, s, t) + AllowedIn(b, y, ip, s, t)
  {
    if a == [] {
      assert a + b == b && x + y == y;
    } else {
      assert (a + b)[1..] == a[1..] + b && (x + y)[1..] == x[1..] + y;
      AllowedInConcat(a[1..], x[1..], b, y, ip, s, t);
    }
  }

  function Volley(ip: string, n: nat, at: real): seq<Event> { seq(n, _ => Request(ip, at)) }

  /** A volley that the bucket can pay for is allowed entirely and costs its length. */
  lemma {:induction false} VolleyAllowed(cfg: Config, evicting: bool, cs: Clients, ip: string, n: nat, at: real)
    requires ip in cs && cs[ip].lastCheck == at && n as real <= cs[ip].tokens <= cfg.Burst()
    ensures Answers(cfg, evicting, cs, Volley(ip, n, at)) == seq(n, _ => true)
    ensures Final(cfg, evicting, cs, Volley(ip, n, at)) == cs[ip := Bucket(cs[ip].tokens - n as real, at)]
    decreases n
  {
    if n > 0 {
      NoTimePasses(cfg, cs, ip, at);
      var next := AfterAllow(cfg, cs, ip, at);
      assert next == cs[ip := Bucket(cs[ip].tokens - 1.0, at)];
      assert Volley(ip, n, at)[1..] == Volley(ip, n - 1, at);
      VolleyAllowed(cfg, evicting, next, ip, n - 1, at);
    }
  }

  /** From an absent bucket: `burst` calls at one instant all pass and leave zero tokens. */
  lemma FreshVolley(cfg: Config, evicting: bool, cs: Clients, ip: string, at: real)
    requires cfg.burst >= 1 && ip !in cs
    ensures Answers(cfg, evicting, cs, Volley(ip, cfg.burst, at)) == seq(cfg.burst, _ => true)
    ensures Final(cfg, evicting, cs, Volley(ip, cfg.burst, at)) == cs[ip := Bucket(0.0, at)]
  {
    var next := AfterAllow(cfg, cs, ip, at);
    assert Volley(ip, cfg.burst, at)[1..] == Volley(ip, cfg.burst - 1, at);
    VolleyAllowed(cfg, evicting, next, ip, cfg.burst - 1, at);
  }

  lemma {:induction false} VolleyCounts(ip: string, n: nat, at: real, s: real, t: real)
    requires s <= at <= t
    ensures AllowedIn(Volley(ip, n, at), seq(n, _ => true), ip, s, t) == n
  {
    if n > 0 {
      assert Volley(ip, n, at)[1..] == Volley(ip, n - 1, at);
      assert seq(n, _ => true)[1..] == seq(n - 1, _ => true);
      VolleyCounts(ip, n - 1, at, s, t);
    }
  }

  /** A pause just long enough to be evicted, chosen so that the refill stays short of `burst`. */
  function Pause(cfg: Config): (u: real)
    requires 0 <= 300 * cfg.rate < cfg.burst
    ensures u > IDLE_LIMIT && Earned(cfg, u) < cfg.Burst()
  {
    if cfg.rate == 0 then 301.0
    else
      var half := 0.5 / cfg.Rate();
      assert half * cfg.Rate() == 0.5;
      EarnedAdds(cfg, 300.0, half);
      assert Earned(cfg, 300.0) == (300 * cfg.rate) as real <= (cfg.burst - 1) as real;
      300.0 + half
  }

  lemma SweepForgets(cfg: Config, b: Bucket, u: real)
    requires Idle(b, u)
    ensures Final(cfg, true, map["c" := b], [Sweep(u)]) == map[] && Final(cfg, false, map["c" := b], [Sweep(u)]) == map["c" := b]
    ensures forall evicting :: Answers(cfg, evicting, map["c" := b], [Sweep(u)]) == [true]
    ensures AllowedIn([Sweep(u)], [true], "c", 0.0, u) == 0
  {
    assert [Sweep(u)][1..] == [] && Evict(map["c" := b], u) == map[];
  }

  /** Two volleys around an eviction. */
  function DoubleSpend(cfg: Config, u: real): seq<Event>
    requires cfg.burst >= 1
  {
    Volley("c", cfg.burst, 0.0) + ([Sweep(u)] + Volley("c", cfg.burst, u))
  }

  lemma DoubleSpendCounts(cfg: Config, u: real)
    requires cfg.burst >= 1 && u > IDLE_LIMIT
    ensures Chronological(DoubleSpend(cfg, u))
    ensures AllowedIn(DoubleSpend(cfg, u), Answers(cfg, true, map[], DoubleSpend(cfg, u)), "c", 0.0, u) == 2 * cfg.burst
  {
    var v0, v1, sweep, yes := Volley("c", cfg.burst, 0.0), Volley("c", cfg.burst, u), [Sweep(u)], seq(cfg.burst, _ => true);
    var drained: Clients := map["c" := Bucket(0.0, 0.0)];
    FreshVolley(cfg, true, map[], "c", 0.0);
    assert map[]["c" := Bucket(0.0, 0.0)] == drained;
    SweepForgets(cfg, Bucket(0.0, 0.0), u);
    FreshVolley(cfg, true, map[], "c", u);
    hide Answers, Final, AllowedIn;
    AnswersConcat(cfg, true, drained, sweep, v1);
    AnswersConcat(cfg, true, map[], v0, sweep + v1);
    var x := [true];
    AllowedInConcat(sweep, x, v1, yes, "c", 0.0, u);
    AllowedInConcat(v0, yes, sweep + v1, x + yes, "c", 0.0, u);
    VolleyCounts("c", cfg.burst, 0.0, 0.0, u);
    VolleyCounts("c", cfg.burst, u, 0.0, u);
  }

  lemma WindowLawFails(cfg: Config, evs: seq<Event>, u: real)
    requires Chronological(evs) && 0.0 <= u
    requires AllowedIn(evs, Answers(cfg, true, map[], evs), "c", 0.0, u) as real > cfg.Burst() + Earned(cfg, u)
    ensures !WindowLaw(cfg, true)
  {
    assert u - 0.0 == u;
  }

  /** The counting bound, for every client, run and window, holds of exactly the
      configurations that refill completely while idle. */
  lemma WindowLawIff(cfg: Config)
    ensures WindowLaw(cfg, true) <==> RefillsWhileIdle(cfg)
  {
    if RefillsWhileIdle(cfg) {
      WindowLawHolds(cfg, true);
    } else if cfg.burst < 1 {
      var evs := [Request("c", 0.0)];
      assert evs[1..] == [];
      assert Earned(cfg, 0.0) == 0.0;
      WindowLawFails(cfg, evs, 0.0);
    } else {
      var u := if cfg.rate < 0 then 301.0 else Pause(cfg);
      DoubleSpendCounts(cfg, u);
      assert cfg.rate < 0 ==> Earned(cfg, 301.0) == (301 * cfg.rate) as real;
      WindowLawFails(cfg, DoubleSpend(cfg, u), u);
    }
  }

  /** One call per ever: a limiter that never refills lets a client in again after its eviction. */
  lemma NoRefillDoubles()
    ensures var cfg, evs := Config(0, 1), DoubleSpend(Config(0, 1), 301.0);
            && Chronological(evs) && AllowedIn(evs, Answers(cfg, true, map[], evs), "c", 0.0, 301.0) == 2
            && cfg.Burst() + Earned(cfg, 301.0) == 1.0 && !WindowLaw(cfg, true)
  {
    DoubleSpendCounts(Config(0, 1), 301.0);
    WindowLawIff(Config(0, 1));
  }

  // ---------- Tokens in range ----------

  lemma {:induction false} RunSane(cfg: Config, evicting: bool, cs: Clients, evs: seq<Event>, now: real) returns (later: real)
    requires cfg.burst >= 1 && cfg.rate >= 0 && Sane(cfg, cs, now) && From(evs, now)
    ensures Sane(cfg, Final(cfg, evicting, cs, evs), later)
    decreases |evs|
  {
    later := now;
    if evs != [] {
      SaneStep(cfg, evicting, cs, now, evs[0]);
      later := RunSane(cfg, evicting, After(cfg, evicting, cs, evs[0]), evs[1..], evs[0].at);
    }
  }

  /** After every run every bucket holds between 0 and `burst` tokens. */
  ghost predicate TokensInRange(cfg: Config, evicting: bool) {
    forall evs: seq<Event>, ip :: Chronological(evs) && ip in Final(cfg, evicting, map[], evs) ==>
      0.0 <= Final(cfg, evicting, map[], evs)[ip].tokens <= cfg.Burst()
  }

  lemma Overdrawn(cfg: Config, evicting: bool, evs: seq<Event>)
    requires Chronological(evs)
    requires "c" in Final(cfg, evicting, map[], evs) && Final(cfg, evicting, map[], evs)["c"].tokens < 0.0
    ensures !TokensInRange(cfg, evicting)
  {}

  lemma NegativeEarned(cfg: Config)
    requires cfg.burst >= 1 && cfg.rate < 0
    ensures Earned(cfg, cfg.Burst()) <= -cfg.Burst()
  {
    assert cfg.Burst() * (cfg.Rate() + 1.0) <= 0.0;
  }

  /** A second call much later overdraws a bucket that loses tokens. */
  lemma NegativeRateOverdraws(cfg: Config, evicting: bool)
    requires cfg.burst >= 1 && cfg.rate < 0
    ensures !TokensInRange(cfg, evicting)
  {
    hide TokensInRange, Earned;
    var a, b := Request("c", 0.0), Request("c", cfg.Burst());
    var first: Clients := map["c" := Bucket(cfg.Burst() - 1.0, 0.0)];
    var second := AfterAllow(cfg, first, "c", cfg.Burst());
    NegativeEarned(cfg);
    assert cfg.Burst() - 0.0 == cfg.Burst();
    assert AfterAllow(cfg, map[], "c", 0.0) == first;
    assert [a, b][1..] == [b] && [b][1..] == [];
    assert Final(cfg, evicting, second, []) == second;
    assert Final(cfg, evicting, first, [b]) == second;
    assert Final(cfg, evicting, map[], [a, b]) == second;
    Overdrawn(cfg, evicting, [a, b]);
  }

  lemma NoBurstOverdraws(cfg: Config, evicting: bool)
    requires cfg.burst < 1
    ensures !TokensInRange(cfg, evicting)
  {
    hide TokensInRange;
    var a, first: Clients := Request("c", 0.0), map["c" := Bucket(cfg.Burst() - 1.0, 0.0)];
    assert [a][1..] == [] && AfterAllow(cfg, map[], "c", 0.0) == first;
    assert Final(cfg, evicting, first, []) == first;
    Overdrawn(cfg, evicting, [a]);
  }

  /** Tokens stay in range in every run, evicting or not, exactly for a positive burst and a non-negative rate. */
  lemma TokensInRangeIff(cfg: Config, evicting: bool)
    ensures TokensInRange(cfg, evicting) <==> cfg.burst >= 1 && cfg.rate >= 0
  {
    hide Final;
    if cfg.burst < 1 {
      NoBurstOverdraws(cfg, evicting);
    } else if cfg.rate < 0 {
      NegativeRateOverdraws(cfg, evicting);
    } else {
      forall evs: seq<Event>, ip | Chronological(evs) && ip in Final(cfg, evicting, map[], evs)
        ensures 0.0 <= Final(cfg, evicting, map[], evs)[ip].tokens <= cfg.Burst()
      {
        var later := RunSane(cfg, evicting, map[], evs, if evs == [] then 0.0 else evs[0].at);
      }
    }
  }

  /** An empty bucket that cannot refill refuses, unless it was evicted. */
  lemma StarvedRefuses(cfg: Config, calls: seq<Event>, left: real)
    requires cfg.burst < 1 || cfg.rate < 0
    requires left < 1.0 && forall i :: 0 <= i < |calls| ==> calls[i] == Request("c", 0.0)
    requires forall evicting :: Final(cfg, evicting, map[], calls) == map["c" := Bucket(left, 0.0)]
    ensures !EvictionInvisible(cfg)
  {
    var sweep, last := [Sweep(301.0)], [Request("c", 301.0)];
    var evs, n := calls + (sweep + last), |calls|;
    var drained: Clients := map["c" := Bucket(left, 0.0)];
    AnswersConcat(cfg, true, map[], calls, sweep + last);
    AnswersConcat(cfg, true, drained, sweep, last);
    AnswersConcat(cfg, false, map[], calls, sweep + last);
    AnswersConcat(cfg, false, drained, sweep, last);
    assert Final(cfg, true, map[], calls) == drained && Final(cfg, false, map[], calls) == drained;
    SweepForgets(cfg, Bucket(left, 0.0), 301.0);
    assert last[1..] == [];
    assert Earned(cfg, 301.0) == (301 * cfg.rate) as real;
    assert Refill(cfg, drained["c"], 301.0) < 1.0;
    assert Answers(cfg, true, map[], evs)[n + 1] && !Answers(cfg, false, map[], evs)[n + 1];
    assert Chronological(evs);
  }

  /** Evicting idle buckets never changes an answer, in any run, for exactly the same configurations. */
  lemma EvictionInvisibleIff(cfg: Config)
    ensures EvictionInvisible(cfg) <==> RefillsWhileIdle(cfg)
  {
    if RefillsWhileIdle(cfg) {
      forall evs: seq<Event> | Chronological(evs)
        ensures Answers(cfg, true, map[], evs) == Answers(cfg, false, map[], evs)
      {
        SameAnswers(cfg, map[], map[], evs, if evs == [] then 0.0 else evs[0].at);
      }
    } else if cfg.burst < 1 {
      var calls := [Request("c", 0.0)];
      assert calls[1..] == [];
      StarvedRefuses(cfg, calls, cfg.Burst() - 1.0);
    } else if cfg.rate < 0 {
      FreshVolley(cfg, true, map[], "c", 0.0);
      FreshVolley(cfg, false, map[], "c", 0.0);
      StarvedRefuses(cfg, Volley("c", cfg.burst, 0.0), 0.0);
    } else {
      var u := Pause(cfg);
      DoubleSpendCounts(cfg, u);
      WindowLawHolds(cfg, false);
      var evs := DoubleSpend(cfg, u);
      assert u - 0.0 == u;
      assert AllowedIn(evs, Answers(cfg, false, map[], evs), "c", 0.0, u) as real <= cfg.Burst() + Earned(cfg, u - 0.0);
      assert Answers(cfg, true, map[], evs) != Answers(cfg, false, map[], evs);
    }
  }

  // ---------- Exactly which calls pass ----------

  /** Nothing but the answers: a call passes exactly when every window that ends with it, itself included,
      stays within burst + rate * length. */
  ghost predicate Fits(cfg: Config, evs: seq<Event>, answers: seq<bool>, n: nat)
    requires n < |evs| == |answers| && evs[n].Request?
  {
    forall s :: s <= evs[n].at ==>
      AllowedIn(evs[..n], answers[..n], evs[n].ip, s, evs[n].at) as real + 1.0 <= cfg.Burst() + Earned(cfg, evs[n].at - s)
  }

  ghost predicate ExactLaw(cfg: Config) {
    forall evs: seq<Event>, n :: Chronological(evs) && 0 <= n < |evs| && evs[n].Request? ==>
      var answers := Answers(cfg, true, map[], evs); answers[n] <==> Fits(cfg, evs, answers, n)
  }

  lemma {:induction false} FinalSnoc(cfg: Config, evicting: bool, cs: Clients, evs: seq<Event>, e: Event)
    ensures Final(cfg, evicting, cs, evs + [e]) == After(cfg, evicting, Final(cfg, evicting, cs, evs), e)
    decreases |evs|
  {
    hide After;
    if evs == [] {
      assert (evs + [e])[1..] == [];
      assert Final(cfg, evicting, After(cfg, evicting, cs, e), []) == After(cfg, evicting, cs, e);
    } else {
      assert (evs + [e])[1..] == evs[1..] + [e];
      FinalSnoc(cfg, evicting, After(cfg, evicting, cs, evs[0]), evs[1..], e);
    }
  }

  ghost predicate Until(evs: seq<Event>, now: real) { forall i :: 0 <= i < |evs| ==> evs[i].at <= now }

  lemma SaneLater(cfg: Config, cs: Clients, now: real, later: real)
    requires Sane(cfg, cs, now) && now <= later
    ensures Sane(cfg, cs, later)
  {}

  lemma {:induction false} SaneAfter(cfg: Config, evs: seq<Event>, now: real)
    requires cfg.burst >= 1 && cfg.rate >= 0 && Chronological(evs) && Until(evs, now)
    ensures Sane(cfg, Final(cfg, true, map[], evs), now)
    decreases |evs|
  {
    hide After, Sane;
    if evs == [] {
      NobodySane(cfg, now);
    } else {
      var n := |evs| - 1;
      var init, e := evs[..n], evs[n];
      assert evs == init + [e] && Until(init, e.at);
      SaneAfter(cfg, init, e.at);
      FinalSnoc(cfg, true, map[], init, e);
      SaneStep(cfg, true, Final(cfg, true, map[], init), e.at, e);
      SaneLater(cfg, Final(cfg, true, map[], evs), e.at, now);
    }
  }

  lemma NobodySane(cfg: Config, now: real)
    ensures Sane(cfg, map[], now)
  {}

  lemma {:induction false} CountUntil(evs: seq<Event>, answers: seq<bool>, ip: string, s: real, t: real, now: real)
    requires |evs| == |answers| && Until(evs, t) && t <= now
    ensures AllowedIn(evs, answers, ip, s, t) == AllowedIn(evs, answers, ip, s, now)
  {
    if evs != [] { CountUntil(evs[1..], answers[1..], ip, s, t, now); }
  }

  lemma {:induction false} CountBefore(evs: seq<Event>, answers: seq<bool>, ip: string, s: real, t: real, last: real)
    requires |evs| == |answers| && Until(evs, last) && last < s
    ensures AllowedIn(evs, answers, ip, s, t) == 0
  {
    if evs != [] { CountBefore(evs[1..], answers[1..], ip, s, t, last); }
  }

  lemma CountSnoc(cfg: Config, init: seq<Event>, e: Event, ip: string, s: real, t: real)
    ensures var evs := init + [e];
            var answers, before := Answers(cfg, true, map[], evs), Answers(cfg, true, map[], init);
            && answers[..|init|] == before
            && answers[|init|] == (e.Request? ==> Allowed(cfg, Final(cfg, true, map[], init), e.ip, e.at))
            && AllowedIn(evs, answers, ip, s, t) == AllowedIn(init, before, ip, s, t) + (if Counted(e, ip, s, t) && answers[|init|] then 1 else 0)
  {
    var cs := Final(cfg, true, map[], init);
    AnswersConcat(cfg, true, map[], init, [e]);
    assert [e][1..] == [];
    var last := Answers(cfg, true, cs, [e]);
    assert last == [e.Request? ==> Allowed(cfg, cs, e.ip, e.at)];
    assert last[1..] == [];
    AllowedInConcat(init, Answers(cfg, true, map[], init), [e], last, ip, s, t);
    assert AllowedIn([e], last, ip, s, t) == (if Counted(e, ip, s, t) && last[0] then 1 else 0) + AllowedIn([], [], ip, s, t);
  }

  /** The bucket is never emptier than some window warrants. */
  ghost predicate Tight(cfg: Config, evs: seq<Event>, ip: string, now: real, s: real) {
    s <= now && Spendable(cfg, Final(cfg, true, map[], evs), ip, now)
             == cfg.Burst() + Earned(cfg, now - s) - AllowedIn(evs, Answers(cfg, true, map[], evs), ip, s, now) as real
  }

  /** As time passes the same window stays tight, or the bucket is full and the empty one is. */
  lemma TightLater(cfg: Config, evs: seq<Event>, ip: string, t: real, now: real, s: real) returns (s': real)
    requires cfg.burst >= 1 && cfg.rate >= 0 && Chronological(evs) && Until(evs, t) && t <= now && Tight(cfg, evs, ip, t, s)
    ensures Tight(cfg, evs, ip, now, s')
  {
    hide Final, Answers, AllowedIn, Earned;
    var cs, answers := Final(cfg, true, map[], evs), Answers(cfg, true, map[], evs);
    SaneAfter(cfg, evs, t);
    CountUntil(evs, answers, ip, s, t, now);
    EarnedAdds(cfg, t - s, now - t);
    assert (t - s) + (now - t) == now - s;
    EarnedMonotone(cfg, 0.0, now - t);
    if now > t && Spendable(cfg, cs, ip, now) == cfg.Burst() {
      CountBefore(evs, answers, ip, now, now, t);
      assert now - now == 0.0;
      s' := now;
    } else {
      if now > t {
        EarnedAdds(cfg, t - cs[ip].lastCheck, now - t);
        assert (t - cs[ip].lastCheck) + (now - t) == now - cs[ip].lastCheck;
      }
      s' := s;
    }
  }

  lemma {:induction false} TightAfter(cfg: Config, evs: seq<Event>, ip: string, now: real) returns (s: real)
    requires RefillsWhileIdle(cfg) && Chronological(evs) && Until(evs, now)
    ensures Tight(cfg, evs, ip, now, s)
    decreases |evs|
  {
    if evs == [] {
      s := now;
      assert now - now == 0.0 && Earned(cfg, 0.0) == 0.0;
    } else {
      hide Final, Answers, AllowedIn, Earned, Spendable, After, Sane, Allowed;
      var n := |evs| - 1;
      var init, e := evs[..n], evs[n];
      assert evs == init + [e] && Until(init, e.at) && Until(evs, e.at);
      s := TightAfter(cfg, init, ip, e.at);
      SaneAfter(cfg, init, e.at);
      FinalSnoc(cfg, true, map[], init, e);
      SpendStep(cfg, true, Final(cfg, true, map[], init), e.at, e, ip);
      CountSnoc(cfg, init, e, ip, s, e.at);
      s := TightLater(cfg, evs, ip, e.at, now, s);
    }
  }

  /** The last call of a run that ends with it. */
  lemma LastFitsIff(cfg: Config, init: seq<Event>, e: Event)
    requires RefillsWhileIdle(cfg) && Chronological(init + [e]) && e.Request?
    ensures var evs := init + [e];
            var answers := Answers(cfg, true, map[], evs); answers[|init|] <==> Fits(cfg, evs, answers, |init|)
  {
    hide Final, Answers, AllowedIn, Earned, Spendable;
    var evs := init + [e];
    var answers, n, ip, t := Answers(cfg, true, map[], evs), |init|, e.ip, e.at;
    assert evs[..n] == init && evs[n] == e;
    forall i | 0 <= i < n ensures init[i].at <= t { assert evs[i].at <= evs[n].at; }
    assert Chronological(init) by { assert forall i :: 0 <= i < n ==> init[i] == evs[i]; }
    CountSnoc(cfg, init, e, ip, t, t);
    if answers[n] {
      WindowLawHolds(cfg, true);
      forall s | s <= t
        ensures AllowedIn(init, answers[..n], ip, s, t) as real + 1.0 <= cfg.Burst() + Earned(cfg, t - s)
      {
        CountSnoc(cfg, init, e, ip, s, t);
        assert AllowedIn(evs, answers, ip, s, t) as real <= cfg.Burst() + Earned(cfg, t - s);
      }
    } else {
      var s := TightAfter(cfg, init, ip, t);
      RefusedIsEmpty(cfg, Final(cfg, true, map[], init), ip, t);
      assert !(AllowedIn(init, answers[..n], ip, s, t) as real + 1.0 <= cfg.Burst() + Earned(cfg, t - s));
    }
  }

  lemma RefusedIsEmpty(cfg: Config, cs: Clients, ip: string, t: real)
    ensures Allowed(cfg, cs, ip, t) || Spendable(cfg, cs, ip, t) < 1.0
  {}

  lemma CallFitsIff(cfg: Config, evs: seq<Event>, n: nat)
    requires RefillsWhileIdle(cfg) && Chronological(evs) && n < |evs| && evs[n].Request?
    ensures var answers := Answers(cfg, true, map[], evs); answers[n] <==> Fits(cfg, evs, answers, n)
  {
    hide Final, Answers, AllowedIn, Earned;
    var init, e, rest := evs[..n], evs[n], evs[n + 1..];
    var upTo := init + [e];
    assert evs == upTo + rest;
    assert Chronological(upTo) by { assert forall i :: 0 <= i <= n ==> upTo[i] == evs[i]; }
    AnswersConcat(cfg, true, map[], upTo, rest);
    LastFitsIff(cfg, init, e);
    var answers, some := Answers(cfg, true, map[], evs), Answers(cfg, true, map[], upTo);
    assert answers[..n] == some[..n] && answers[n] == some[n] && upTo[..n] == init;
  }

  lemma {:induction false} ExactImpliesWindow(cfg: Config, evs: seq<Event>, ip: string, s: real, t: real)
    requires cfg.burst >= 1 && cfg.rate >= 0 && ExactLaw(cfg) && Chronological(evs) && s <= t
    ensures AllowedIn(evs, Answers(cfg, true, map[], evs), ip, s, t) as real <= cfg.Burst() + Earned(cfg, t - s)
    decreases |evs|
  {
    EarnedMonotone(cfg, 0.0, t - s);
    if evs != [] {
      hide Answers, Earned;
      var n := |evs| - 1;
      var init, e, answers := evs[..n], evs[n], Answers(cfg, true, map[], evs);
      assert evs == init + [e] && Until(init, e.at);
      CountSnoc(cfg, init, e, ip, s, t);
      ExactImpliesWindow(cfg, init, ip, s, t);
      if Counted(e, ip, s, t) && answers[n] {
        assert Fits(cfg, evs, answers, n);
        CountUntil(init, answers[..n], ip, s, e.at, t);
        EarnedMonotone(cfg, e.at - s, t - s);
      }
    }
  }

  lemma FirstCallUnfit(cfg: Config, s: real)
    requires s <= 0.0 && cfg.Burst() + Earned(cfg, 0.0 - s) < 1.0
    ensures !ExactLaw(cfg)
  {
    var evs := [Request("c", 0.0)];
    var answers := Answers(cfg, true, map[], evs);
    assert evs[1..] == [] && evs[..0] == [] && answers[..0] == [];
    assert answers[0] && !Fits(cfg, evs, answers, 0) by {
      assert AllowedIn(evs[..0], answers[..0], "c", s, 0.0) == 0;
    }
  }

  /** The answers are exactly those of the windows, for exactly the configurations that refill while idle. */
  lemma ExactLawIff(cfg: Config)
    ensures ExactLaw(cfg) <==> RefillsWhileIdle(cfg)
  {
    hide Answers, AllowedIn;
    if RefillsWhileIdle(cfg) {
      forall evs: seq<Event>, n | Chronological(evs) && 0 <= n < |evs| && evs[n].Request?
        ensures var answers := Answers(cfg, true, map[], evs); answers[n] <==> Fits(cfg, evs, answers, n)
      {
        CallFitsIff(cfg, evs, n);
      }
    } else if cfg.burst < 1 {
      assert Earned(cfg, 0.0 - 0.0) == 0.0;
      FirstCallUnfit(cfg, 0.0);
    } else if cfg.rate < 0 {
      NegativeEarned(cfg);
      assert 0.0 - (-cfg.Burst()) == cfg.Burst();
      FirstCallUnfit(cfg, -cfg.Burst());
    } else if ExactLaw(cfg) {
      WindowLawIff(cfg);
      forall evs: seq<Event>, ip, s, t | Chronological(evs) && s <= t
        ensures AllowedIn(evs, Answers(cfg, true, map[], evs), ip, s, t) as real <= cfg.Burst() + Earned(cfg, t - s)
      {
        ExactImpliesWindow(cfg, evs, ip, s, t);
      }
    }
  }
}
