/** The in-memory per-IP limiter and its background cleanup. Times are in nanoseconds. The limiter of
    golang.org/x/time/rate is foreign code: first it is any state with an initial value and a decision
    function, then the token bucket that it documents. */
module LocalRateLimit {
  import opened Prelude

  datatype Limiter<!S> = Limiter(initial: S, allow: (S, int) -> (bool, S))

  datatype Entry<S> = Entry(state: S, resetAt: int)

  type Entries<S> = map<string, Entry<S>>

  const SECOND := 1000000000

  /** One minute. */
  const LIFETIME := 60 * SECOND

  /** A request reads the clock as `now`, then the limiter reads it again as `at`. */
  datatype Event = Request(ip: string, now: int, at: int) | Cleanup(now: int)

  function EntryFor<S>(l: Limiter<S>, entries: Entries<S>, ip: string, now: int): Entry<S> {
    if ip !in entries || now > entries[ip].resetAt then Entry(l.initial, now + LIFETIME) else entries[ip]
  }

  function Serve<S>(l: Limiter<S>, entries: Entries<S>, ip: string, now: int, at: int): (Entries<S>, bool) {
    var (allowed, state) := l.allow(EntryFor(l, entries, ip, now).state, at);
    (entries[ip := Entry(state, now + LIFETIME)], allowed)
  }

  function Evict<S>(entries: Entries<S>, now: int): Entries<S> {
    map ip | ip in entries && now <= entries[ip].resetAt :: entries[ip]
  }

  function Final<S>(l: Limiter<S>, events: seq<Event>): Entries<S> {
    if events == [] then map[]
    else
      var before := Final(l, events[..|events| - 1]);
      match events[|events| - 1]
      case Request(ip, now, at) => Serve(l, before, ip, now, at).0
      case Cleanup(now) => Evict(before, now)
  }

  /** The answers given to the requests, in order. */
  function Decisions<S>(l: Limiter<S>, events: seq<Event>): seq<bool> {
    if events == [] then []
    else
      var init := events[..|events| - 1];
      match events[|events| - 1]
      case Request(ip, now, at) => Decisions(l, init) + [Serve(l, Final(l, init), ip, now, at).1]
      case Cleanup(_) => Decisions(l, init)
  }

  function Requests(events: seq<Event>): seq<Event> {
    if events == [] then []
    else
      var e := events[|events| - 1];
      Requests(events[..|events| - 1]) + if e.Request? then [e] else []
  }

  /** In the order in which the lock is taken, the clock readings do not go back. */
  ghost predicate Monotone(events: seq<Event>) {
    forall i, j :: 0 <= i < j < |events| ==> events[i].now <= events[j].now
  }

  /** The entries differ only by some that any request from `now` on would replace. */
  ghost predicate SameUntil<S>(cleaned: Entries<S>, kept: Entries<S>, now: int) {
    && (forall ip :: ip in cleaned ==> ip in kept && cleaned[ip] == kept[ip])
    && (forall ip :: ip in kept && ip !in cleaned ==> kept[ip].resetAt < now)
  }

  lemma {:induction false} ServeAlike<S>(l: Limiter<S>, cleaned: Entries<S>, kept: Entries<S>, ip: string,
                                         now: int, at: int)
    requires SameUntil(cleaned, kept, now)
    ensures Serve(l, cleaned, ip, now, at).1 == Serve(l, kept, ip, now, at).1
    ensures SameUntil(Serve(l, cleaned, ip, now, at).0, Serve(l, kept, ip, now, at).0, now)
  {
    assert EntryFor(l, cleaned, ip, now).state == EntryFor(l, kept, ip, now).state;
  }

  lemma {:induction false} EntriesDifferOnlyByExpired<S>(l: Limiter<S>, events: seq<Event>, now: int)
    requires Monotone(events) && (events != [] ==> events[|events| - 1].now <= now)
    ensures SameUntil(Final(l, events), Final(l, Requests(events)), now)
    ensures Decisions(l, events) == Decisions(l, Requests(events))
  {
    if events != [] {
      var init, e := events[..|events| - 1], events[|events| - 1];
      EntriesDifferOnlyByExpired(l, init, e.now);
      var requests := Requests(init);
      match e {
        case Request(ip, t, at) =>
          assert (requests + [e])[..|requests|] == requests;
          ServeAlike(l, Final(l, init), Final(l, requests), ip, t, at);
        case Cleanup(t) =>
          assert requests + [] == requests;
      }
    }
  }

  /** However requests and cleanups interleave, if the clock readings do not go back in lock order,
      every request gets the answer it would get if nothing were ever cleaned up. */
  lemma {:induction false} CleanupIsInvisible<S>(l: Limiter<S>, events: seq<Event>)
    requires Monotone(events)
    ensures Decisions(l, events) == Decisions(l, Requests(events))
  {
    EntriesDifferOnlyByExpired(l, events, if events == [] then 0 else events[|events| - 1].now);
  }

  // ----- clock readings that are older than the lock order -----

  datatype Config = Config(rate: int, burst: int)

  /** Missing settings: one request a second, and a burst of one second. */
  function Normalize(config: Config): (r: Config)
    ensures r.rate > 0 && r.burst > 0
    ensures if config.rate > 0 then r.rate == config.rate else r.rate == 1
    ensures if config.burst > 0 then r.burst == config.burst else r.burst == r.rate
  {
    var rate := if config.rate <= 0 then 1 else config.rate;
    Config(rate, if config.burst <= 0 then rate else config.burst)
  }

  /** A token bucket, in billionths of a token; one that was never asked is full. */
  datatype Bucket = Bucket(level: int, last: Option<int>)

  function Level(c: Config, s: Bucket, at: int): int {
    if s.last.None? then c.burst * SECOND
    else
      var filled := s.level + if at > s.last.value then (at - s.last.value) * c.rate else 0;
      if filled > c.burst * SECOND then c.burst * SECOND else filled
  }

  function Allow(c: Config, s: Bucket, at: int): (bool, Bucket) {
    if Level(c, s, at) >= SECOND then (true, Bucket(Level(c, s, at) - SECOND, Some(at))) else (false, s)
  }

  /** What the code creates for an entry: a full bucket of the configured rate and burst. */
  function CodeLimiter(c: Config): Limiter<Bucket> {
    Limiter(Bucket(c.burst * SECOND, None), (s: Bucket, at: int) => Allow(c, s, at))
  }

  /** The reading of the clock that an event takes under the lock. */
  function Seen(e: Event): int {
    match e
    case Request(_, _, at) => at
    case Cleanup(now) => now
  }

  /** Readings under the lock do not go back; a request's first reading, made before it waits for the
      lock, is at most `delay` old by then. */
  ghost predicate LockOrder(events: seq<Event>, delay: nat) {
    && (forall i, j :: 0 <= i < j < |events| ==> Seen(events[i]) <= Seen(events[j]))
    && (forall i :: 0 <= i < |events| && events[i].Request? ==> 0 <= events[i].at - events[i].now <= delay)
  }

  /** No request waits, or what an entry's bucket regains in its life, less the wait, is a whole burst. */
  predicate RefillCovers(c: Config, delay: nat) {
    delay == 0 || (LIFETIME + 1 - delay) * c.rate >= c.burst * SECOND
  }

  /** From `now` on the bucket is as good as a new one. */
  ghost predicate FullFrom(c: Config, s: Bucket, now: int) {
    forall at :: at >= now ==> Level(c, s, at) == c.burst * SECOND
  }

  /** What an entry's bucket remembers is not much older than the entry's life tells. */
  predicate Recent(e: Entry<Bucket>, now: int, delay: nat) {
    e.state.last.Some? ==>
      e.state.level >= 0 && e.state.last.value <= now && e.state.last.value <= e.resetAt - LIFETIME + delay
  }

  ghost predicate AlikeFrom(c: Config, cleaned: Entries<Bucket>, kept: Entries<Bucket>, now: int, delay: nat) {
    && (forall ip :: ip in cleaned ==> ip in kept && cleaned[ip] == kept[ip])
    && (forall ip :: ip in kept ==> Recent(kept[ip], now, delay))
    && (forall ip :: ip in kept && ip !in cleaned ==>
          kept[ip].resetAt < now && (delay == 0 || FullFrom(c, kept[ip].state, now)))
  }

  lemma {:induction false} FullAfterLife(c: Config, e: Entry<Bucket>, now: int, delay: nat)
    requires c.rate > 0 && c.burst > 0 && RefillCovers(c, delay) && delay > 0
    requires Recent(e, now, delay) && now > e.resetAt
    ensures FullFrom(c, e.state, now)
  {
    if e.state.last.Some? {
      var least := LIFETIME + 1 - delay;
      forall at | at >= now
        ensures Level(c, e.state, at) == c.burst * SECOND
      {
        Product(least, at - e.state.last.value, c.rate);
        if at <= e.state.last.value {
          Product(least, 0, c.rate);
        }
      }
    }
  }

  lemma {:induction false} Product(a: int, b: int, rate: int)
    requires a <= b && rate > 0
    ensures a * rate <= b * rate
  {
  }

  lemma {:induction false} ServeFull(c: Config, cleaned: Entries<Bucket>, kept: Entries<Bucket>,
                                     ip: string, now: int, at: int, delay: nat)
    requires c.rate > 0 && c.burst > 0 && 0 <= at - now <= delay && AlikeFrom(c, cleaned, kept, at, delay)
    ensures
      var (e, a), (e', a') := Serve(CodeLimiter(c), cleaned, ip, now, at), Serve(CodeLimiter(c), kept, ip, now, at);
      a == a' && AlikeFrom(c, e, e', at, delay)
  {
    var l := CodeLimiter(c);
    var f, k := EntryFor(l, cleaned, ip, now), EntryFor(l, kept, ip, now);
    if f != k {
      assert ip in kept && ip !in cleaned && delay > 0;
      assert Level(c, k.state, at) == Level(c, f.state, at) == c.burst * SECOND;
    }
    assert Allow(c, f.state, at) == Allow(c, k.state, at);
  }

  lemma {:induction false} Later(c: Config, cleaned: Entries<Bucket>, kept: Entries<Bucket>,
                                 now: int, later: int, delay: nat)
    requires AlikeFrom(c, cleaned, kept, now, delay) && now <= later
    ensures AlikeFrom(c, cleaned, kept, later, delay)
  {
    hide Level;
  }

  lemma {:induction false} EvictFull(c: Config, cleaned: Entries<Bucket>, kept: Entries<Bucket>, now: int, delay: nat)
    requires c.rate > 0 && c.burst > 0 && RefillCovers(c, delay) && AlikeFrom(c, cleaned, kept, now, delay)
    ensures AlikeFrom(c, Evict(cleaned, now), kept, now, delay)
  {
    hide Level, RefillCovers, FullFrom;
    forall ip | ip in kept && ip !in Evict(cleaned, now) && ip in cleaned
      ensures kept[ip].resetAt < now && (delay == 0 || FullFrom(c, kept[ip].state, now))
    {
      if delay > 0 {
        FullAfterLife(c, kept[ip], now, delay);
      }
    }
  }

  lemma {:induction false} CoveredCleanupIsInvisible(c: Config, events: seq<Event>, delay: nat)
    requires c.rate > 0 && c.burst > 0 && RefillCovers(c, delay) && LockOrder(events, delay)
    ensures
      var l := CodeLimiter(c);
      && Decisions(l, events) == Decisions(l, Requests(events))
      && (if events == [] then Final(l, events) == map[] == Final(l, Requests(events))
          else AlikeFrom(c, Final(l, events), Final(l, Requests(events)), Seen(events[|events| - 1]), delay))
  {
    var l := CodeLimiter(c);
    hide CodeLimiter, RefillCovers, AlikeFrom, Serve, Evict;
    if events != [] {
      var init, e := events[..|events| - 1], events[|events| - 1];
      CoveredCleanupIsInvisible(c, init, delay);
      var requests := Requests(init);
      var before, kept := Final(l, init), Final(l, requests);
      if init == [] {
        NothingYet(c, Seen(e), delay);
      } else {
        Later(c, before, kept, Seen(init[|init| - 1]), Seen(e), delay);
      }
      match e {
        case Request(ip, t, at) =>
          assert (requests + [e])[..|requests|] == requests;
          ServeFull(c, before, kept, ip, t, at, delay);
        case Cleanup(t) =>
          assert requests + [] == requests;
          EvictFull(c, before, kept, t, delay);
      }
    }
  }

  lemma {:induction false} NothingYet(c: Config, now: int, delay: nat)
    ensures AlikeFrom(c, map[], map[], now, delay)
  {
  }

  // ----- when the refill does not cover the burst -----

  function Volley(ip: string, now: int, at: int, k: nat): seq<Event> {
    seq(k, _ => Request(ip, now, at))
  }

  function AllAllowed(k: nat): seq<bool> {
    seq(k, _ => true)
  }

  /** The tokens a request finds. */
  function Offered(c: Config, entries: Entries<Bucket>, ip: string, now: int, at: int): int {
    Level(c, EntryFor(CodeLimiter(c), entries, ip, now).state, at)
  }

  lemma {:induction false} ServeTakes(c: Config, entries: Entries<Bucket>, ip: string, now: int, at: int)
    ensures
      var v, (after, allowed) := Offered(c, entries, ip, now, at), Serve(CodeLimiter(c), entries, ip, now, at);
      && (allowed <==> v >= SECOND) && ip in after && after[ip].resetAt == now + LIFETIME
      && Offered(c, after, ip, now, at) == (if allowed then v - SECOND else v)
      && (allowed ==> after[ip].state == Bucket(v - SECOND, Some(at)))
  {
  }

  lemma {:induction false} OneMore(c: Config, events: seq<Event>, ip: string, now: int, at: int, k: nat)
    requires k > 0
    ensures
      var l := CodeLimiter(c);
      var before := events + Volley(ip, now, at, k - 1);
      && Final(l, events + Volley(ip, now, at, k)) == Serve(l, Final(l, before), ip, now, at).0
      && Decisions(l, events + Volley(ip, now, at, k))
         == Decisions(l, before) + [Serve(l, Final(l, before), ip, now, at).1]
  {
    var before, all := events + Volley(ip, now, at, k - 1), events + Volley(ip, now, at, k);
    assert all == before + [Request(ip, now, at)] && all[..|all| - 1] == before;
    hide Serve, CodeLimiter;
  }

  /** A volley is allowed entirely exactly when there is a token for each of it. */
  lemma {:induction false} VolleyTakes(c: Config, events: seq<Event>, ip: string, now: int, at: int, k: nat)
    requires Offered(c, Final(CodeLimiter(c), events), ip, now, at) >= 0
    ensures
      var l := CodeLimiter(c);
      var v, after := Offered(c, Final(l, events), ip, now, at), Final(l, events + Volley(ip, now, at, k));
      && (Decisions(l, events + Volley(ip, now, at, k)) == Decisions(l, events) + AllAllowed(k) <==> v >= k * SECOND)
      && (v >= k * SECOND ==> Offered(c, after, ip, now, at) == v - k * SECOND)
      && (k > 0 ==> ip in after && after[ip].resetAt == now + LIFETIME)
      && (k > 0 && v >= k * SECOND ==> after[ip].state == Bucket(v - k * SECOND, Some(at)))
  {
    hide Offered, CodeLimiter, Serve, Final, Decisions;
    if k == 0 {
      assert events + Volley(ip, now, at, 0) == events;
    } else {
      var l := CodeLimiter(c);
      var before := events + Volley(ip, now, at, k - 1);
      VolleyTakes(c, events, ip, now, at, k - 1);
      OneMore(c, events, ip, now, at, k);
      ServeTakes(c, Final(l, before), ip, now, at);
      AllowedAgain(Decisions(l, before), Decisions(l, events), k, Serve(l, Final(l, before), ip, now, at).1);
    }
  }

  lemma {:induction false} AllowedAgain(before: seq<bool>, start: seq<bool>, k: nat, last: bool)
    requires k > 0
    ensures before + [last] == start + AllAllowed(k) <==> before == start + AllAllowed(k - 1) && last
  {
    assert start + AllAllowed(k) == start + AllAllowed(k - 1) + [true];
    if before + [last] == start + AllAllowed(k) {
      assert (before + [last])[..|before|] == before;
      assert (start + AllAllowed(k - 1) + [true])[..|before|] == start + AllAllowed(k - 1);
    }
  }

  /** A burst of requests that waited `delay` for the lock; the cleanup, as soon as their entry has
      outlived them; and a burst of requests that read the clock while the entry was still alive. */
  function LateRun(c: Config, delay: nat): (seq<Event>, int, seq<Event>)
    requires c.burst >= 0
  {
    var t := if delay <= LIFETIME + 1 then LIFETIME + 1 else delay;
    (Volley("", 0, delay, c.burst), t, Volley("", LIFETIME, t, c.burst))
  }

  lemma {:induction false} RequestAdds(events: seq<Event>, e: Event)
    requires e.Request?
    ensures Requests(events + [e]) == Requests(events) + [e]
  {
    assert (events + [e])[..|events|] == events;
  }

  lemma {:induction false} VolleyGrows(some: seq<Event>, ip: string, now: int, at: int, k: nat)
    ensures some + Volley(ip, now, at, 0) == some
    ensures k > 0 ==> some + Volley(ip, now, at, k) == some + Volley(ip, now, at, k - 1) + [Request(ip, now, at)]
  {
  }

  lemma {:induction false} RequestsOfVolley(events: seq<Event>, ip: string, now: int, at: int, k: nat)
    ensures Requests(events + Volley(ip, now, at, k)) == Requests(events) + Volley(ip, now, at, k)
  {
    VolleyGrows(events, ip, now, at, k);
    VolleyGrows(Requests(events), ip, now, at, k);
    hide Requests, Volley;
    if k > 0 {
      RequestsOfVolley(events, ip, now, at, k - 1);
      RequestAdds(events + Volley(ip, now, at, k - 1), Request(ip, now, at));
    }
  }

  lemma {:induction false} CleanupAdds(l: Limiter<Bucket>, events: seq<Event>, t: int)
    ensures Final(l, events + [Cleanup(t)]) == Evict(Final(l, events), t)
    ensures Decisions(l, events + [Cleanup(t)]) == Decisions(l, events)
    ensures Requests(events + [Cleanup(t)]) == Requests(events)
  {
    assert (events + [Cleanup(t)])[..|events|] == events;
    assert Requests(events) + [] == Requests(events);
  }

  lemma {:induction false} LateRunIsOrdered(c: Config, delay: nat)
    requires c.burst > 0 && delay > 0
    ensures var (first, t, second) := LateRun(c, delay); LockOrder(first + [Cleanup(t)] + second, delay)
  {
    var (first, t, second) := LateRun(c, delay);
    var events := first + [Cleanup(t)] + second;
    assert forall i :: 0 <= i < |first| ==> events[i] == Request("", 0, delay);
    assert events[|first|] == Cleanup(t);
    assert forall i :: |first| < i < |events| ==> events[i] == Request("", LIFETIME, t);
  }

  /** After the first burst the bucket is empty, and alive until LIFETIME. */
  lemma {:induction false} FirstBurst(c: Config, delay: nat)
    requires c.burst > 0 && c.rate > 0
    ensures
      var l, first := CodeLimiter(c), Volley("", 0, delay, c.burst);
      && Requests(first) == first
      && "" in Final(l, first) && Final(l, first)[""] == Entry(Bucket(0, Some(delay)), LIFETIME)
  {
    var none: seq<Event> := [];
    var first := Volley("", 0, delay, c.burst);
    assert none + first == first;
    VolleyTakes(c, none, "", 0, delay, c.burst);
    RequestsOfVolley(none, "", 0, delay, c.burst);
  }

  lemma {:induction false} LateRunSeesCleanup(c: Config, delay: nat)
    requires c.burst > 0 && c.rate > 0 && !RefillCovers(c, delay)
    ensures
      var (first, t, second) := LateRun(c, delay);
      var l, events := CodeLimiter(c), first + [Cleanup(t)] + second;
      Decisions(l, events) != Decisions(l, Requests(events))
  {
    var l := CodeLimiter(c);
    var (first, t, second) := LateRun(c, delay);
    FirstBurst(c, delay);
    CleanupAdds(l, first, t);
    RequestsOfVolley(first + [Cleanup(t)], "", LIFETIME, t, c.burst);
    CleanedBurst(c, Evict(Final(l, first), t), t);
    KeptBurst(c, Final(l, first), t, delay);
    hide Final, Decisions, Offered, Evict, CodeLimiter;
    VolleyTakes(c, first + [Cleanup(t)], "", LIFETIME, t, c.burst);
    VolleyTakes(c, first, "", LIFETIME, t, c.burst);
  }

  lemma {:induction false} CleanedBurst(c: Config, entries: Entries<Bucket>, t: int)
    requires "" !in entries
    ensures Offered(c, entries, "", LIFETIME, t) == c.burst * SECOND
  {
  }

  lemma {:induction false} KeptBurst(c: Config, entries: Entries<Bucket>, t: int, delay: nat)
    requires "" in entries && entries[""] == Entry(Bucket(0, Some(delay)), LIFETIME)
    requires c.burst > 0 && c.rate > 0 && !RefillCovers(c, delay)
    requires t == if delay <= LIFETIME + 1 then LIFETIME + 1 else delay
    ensures 0 <= Offered(c, entries, "", LIFETIME, t) < c.burst * SECOND
  {
    if t > delay {
      Product(0, t - delay, c.rate);
    }
  }

  ghost predicate CleanupInvisible(c: Config, delay: nat) {
    forall events :: LockOrder(events, delay) ==>
      Decisions(CodeLimiter(c), events) == Decisions(CodeLimiter(c), Requests(events))
  }

  /** With requests that may wait up to `delay` between reading the clock and getting the lock, every
      request gets the answer it would get if nothing were ever cleaned up exactly when no request waits
      or the refill over an entry's life, less the wait, covers the burst. */
  lemma {:induction false} CleanupInvisibleExactlyWhen(config: Config, delay: nat)
    ensures CleanupInvisible(Normalize(config), delay) <==> RefillCovers(Normalize(config), delay)
  {
    var c := Normalize(config);
    hide Final, Decisions, Requests, CodeLimiter, LockOrder;
    if RefillCovers(c, delay) {
      forall events | LockOrder(events, delay)
        ensures Decisions(CodeLimiter(c), events) == Decisions(CodeLimiter(c), Requests(events))
      {
        CoveredCleanupIsInvisible(c, events, delay);
      }
    } else {
      LateRunIsOrdered(c, delay);
      LateRunSeesCleanup(c, delay);
    }
  }

  // ----- the code -----

  class RateLimitMiddleware<S> {
    const limiter: Limiter<S>
    var entries: Entries<S>

    constructor (limiter: Limiter<S>)
      ensures this.limiter == limiter && entries == map[]
    {
      this.limiter := limiter;
      entries := map[];
    }

    method HandleRequest(ip: string, now: int, at: int) returns (allowed: bool)
      modifies this
      ensures (entries, allowed) == Serve(limiter, old(entries), ip, now, at)
      ensures
        var renewed := ip !in old(entries) || now > old(entries)[ip].resetAt;
        var (ok, state) := limiter.allow(if renewed then limiter.initial else old(entries)[ip].state, at);
        allowed == ok && entries == old(entries)[ip := Entry(state, now + 60000000000)]
    {
      if ip !in entries || now > entries[ip].resetAt {
        entries := entries[ip := Entry(limiter.initial, now + LIFETIME)];
      }
      var e := entries[ip];
      var (ok, state) := limiter.allow(e.state, at);
      entries := entries[ip := Entry(state, now + LIFETIME)];
      assert entries == old(entries)[ip := Entry(state, now + LIFETIME)];
      return ok;
    }

    method CleanUp(now: int)
      modifies this
      ensures entries == Evict(old(entries), now)
      ensures forall ip :: ip in entries <==> ip in old(entries) && now <= old(entries)[ip].resetAt
      ensures forall ip :: ip in entries ==> entries[ip] == old(entries)[ip]
    {
      var todo := entries.Keys;
      while todo != {}
        invariant todo <= entries.Keys <= old(entries).Keys
        invariant forall ip :: ip in entries ==> entries[ip] == old(entries)[ip]
        invariant forall ip :: ip in old(entries) && ip !in todo ==>
                    (ip in entries <==> now <= old(entries)[ip].resetAt)
        decreases todo
      {
        var ip :| ip in todo;
        if now > entries[ip].resetAt {
          entries := entries - {ip};
        }
        todo := todo - {ip};
      }
    }
  }
}
