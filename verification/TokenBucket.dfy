/** The Redis token bucket: the Lua script as one atomic step, and the expiry of its two keys. */
module TokenBucket {
  import opened Prelude

  /** `rate` tokens per `window` seconds, at most `burst` at a time. */
  datatype Config = Config(rate: nat, burst: nat, window: nat) {
    predicate Valid() {
      window > 0
    }
  }

  /** The two keys of one limiter key; None when absent or expired. */
  datatype Bucket = Bucket(tokens: Option<real>, stamp: Option<int>)

  const EMPTY := Bucket(None, None)

  function Fill(c: Config, delta: int): real
    requires c.Valid()
  {
    (delta * c.rate) as real / c.window as real
  }

  function Min(a: real, b: real): real {
    if a <= b then a else b
  }

  /** new_tokens before the test. */
  function Level(c: Config, b: Bucket, now: int): real
    requires c.Valid()
  {
    var lastTokens := if b.tokens.Some? then b.tokens.value else c.burst as real;
    var lastStamp := if b.stamp.Some? then b.stamp.value else now;
    var delta := if now - lastStamp > 0 then now - lastStamp else 0;
    Min(c.burst as real, lastTokens + Fill(c, delta))
  }

  function Admits(c: Config, b: Bucket, now: int): bool
    requires c.Valid()
  {
    Level(c, b, now) >= 1.0
  }

  /** The script; a refused request stores nothing. */
  function Take(c: Config, b: Bucket, now: int): Bucket
    requires c.Valid()
  {
    if Admits(c, b, now) then Bucket(Some(Level(c, b, now) - 1.0), Some(now)) else b
  }

  /** One request, and which keys Redis has dropped by the time it arrives. */
  datatype Event = Request(now: int, lostTokens: bool, lostStamp: bool)

  function Expire(b: Bucket, e: Event): Bucket {
    Bucket(if e.lostTokens then None else b.tokens, if e.lostStamp then None else b.stamp)
  }

  /** SETEX gives both keys a life of two windows on the clock of Redis, the tokens key first. A request's
      reading of the clock, taken before it reaches Redis, may be up to `late` seconds behind: nothing goes
      before two windows, less that, have passed by the readings, and the time stamp never before the
      tokens. Both may also outlive that. */
  predicate TtlRespected(c: Config, late: nat, b: Bucket, e: Event) {
    && (e.lostTokens || e.lostStamp ==> b.stamp.Some? ==> e.now - b.stamp.value >= 2 * c.window - late)
    && (e.lostStamp ==> e.lostTokens || b.tokens.None?)
  }

  function Final(c: Config, b: Bucket, events: seq<Event>): Bucket
    requires c.Valid()
  {
    if events == [] then b
    else
      var e := events[|events| - 1];
      Take(c, Expire(Final(c, b, events[..|events| - 1]), e), e.now)
  }

  function Decisions(c: Config, b: Bucket, events: seq<Event>): (r: seq<bool>)
    requires c.Valid()
    ensures |r| == |events|
  {
    if events == [] then []
    else
      var init, e := events[..|events| - 1], events[|events| - 1];
      Decisions(c, b, init) + [Admits(c, Expire(Final(c, b, init), e), e.now)]
  }

  function Count(decisions: seq<bool>): nat {
    if decisions == [] then 0
    else Count(decisions[..|decisions| - 1]) + if decisions[|decisions| - 1] then 1 else 0
  }

  /** A run that the clock and Redis allow. */
  ghost predicate Possible(c: Config, late: nat, b: Bucket, events: seq<Event>)
    requires c.Valid()
  {
    events == [] ||
    var init, e := events[..|events| - 1], events[|events| - 1];
    && Possible(c, late, b, init)
    && TtlRespected(c, late, Final(c, b, init), e)
    && (init != [] ==> init[|init| - 1].now <= e.now)
  }

  /** The same requests against keys that never expire. */
  function Keep(events: seq<Event>): seq<Event> {
    seq(|events|, i requires 0 <= i < |events| => Request(events[i].now, false, false))
  }

  // ----- arithmetic of refills -----

  lemma {:induction false} FillAdds(c: Config, a: int, b: int)
    requires c.Valid()
    ensures Fill(c, a) + Fill(c, b) == Fill(c, a + b)
  {
    assert (a + b) * c.rate == a * c.rate + b * c.rate;
  }

  lemma {:induction false} FillAgainst(c: Config, delta: int, tokens: int)
    requires c.Valid()
    ensures Fill(c, delta) >= tokens as real <==> delta * c.rate >= tokens * c.window
  {
    var w, f := c.window as real, Fill(c, delta);
    assert f * w == (delta * c.rate) as real;
    assert (tokens * c.window) as real == tokens as real * w;
    if f >= tokens as real {
      assert f * w >= tokens as real * w;
    } else {
      assert f * w < tokens as real * w;
    }
  }

  lemma {:induction false} FillGrows(c: Config, a: nat)
    requires c.Valid()
    ensures Fill(c, a) >= 0.0
  {
    assert a * c.rate >= 0;
  }

  // ----- stored tokens stay within the bucket, under any clock -----

  ghost predicate InRange(c: Config, b: Bucket) {
    b.tokens.Some? ==> 0.0 <= b.tokens.value <= c.burst as real
  }

  lemma {:induction false} LevelInRange(c: Config, b: Bucket, now: int)
    requires c.Valid() && InRange(c, b)
    ensures 0.0 <= Level(c, b, now) <= c.burst as real
    ensures InRange(c, Take(c, b, now))
  {
    var delta := if b.stamp.Some? && now - b.stamp.value > 0 then now - b.stamp.value else 0;
    FillGrows(c, delta);
  }

  lemma {:induction false} TokensStayInRange(c: Config, events: seq<Event>)
    requires c.Valid()
    ensures InRange(c, Final(c, EMPTY, events))
  {
    if events != [] {
      var init, e := events[..|events| - 1], events[|events| - 1];
      TokensStayInRange(c, init);
      LevelInRange(c, Expire(Final(c, EMPTY, init), e), e.now);
    }
  }

  // ----- how many requests an interval admits when keys never expire -----

  lemma {:induction false} LevelLater(c: Config, b: Bucket, t: int, u: int)
    requires c.Valid() && InRange(c, b) && t <= u
    requires b.stamp.Some? ==> b.stamp.value <= t
    ensures Level(c, b, u) <= Level(c, b, t) + Fill(c, u - t)
  {
    FillGrows(c, u - t);
    if b.stamp.Some? {
      FillAdds(c, t - b.stamp.value, u - t);
    }
  }

  lemma {:induction false} LevelAfterTake(c: Config, b: Bucket, now: int)
    requires c.Valid() && InRange(c, b)
    requires b.stamp.Some? ==> b.stamp.value <= now
    ensures Level(c, Take(c, b, now), now) == Level(c, b, now) - if Admits(c, b, now) then 1.0 else 0.0
  {
    LevelInRange(c, b, now);
    assert Fill(c, 0) == 0.0;
  }

  lemma {:induction false} KeptEvents(events: seq<Event>)
    requires events != []
    ensures Keep(events)[..|events| - 1] == Keep(events[..|events| - 1])
  {
  }

  /** One request spends no more than the refill since `mid` added. */
  lemma {:induction false} OneRequestBudget(c: Config, b: Bucket, mid: int, now: int)
    requires c.Valid() && InRange(c, b) && mid <= now
    requires b.stamp.Some? ==> b.stamp.value <= mid
    ensures
      var b' := Take(c, b, now);
      && InRange(c, b') && (b'.stamp.Some? ==> b'.stamp.value <= now)
      && Level(c, b', now) + (if Admits(c, b, now) then 1.0 else 0.0) <= Level(c, b, mid) + Fill(c, now - mid)
  {
    LevelLater(c, b, mid, now);
    LevelAfterTake(c, b, now);
    LevelInRange(c, b, now);
  }

  lemma {:induction false} LastKept(c: Config, b: Bucket, events: seq<Event>)
    requires c.Valid() && events != []
    ensures
      var init, e := events[..|events| - 1], events[|events| - 1];
      var before := Final(c, b, Keep(init));
      && Final(c, b, Keep(events)) == Take(c, before, e.now)
      && Count(Decisions(c, b, Keep(events)))
         == Count(Decisions(c, b, Keep(init))) + if Admits(c, before, e.now) then 1 else 0
  {
    KeptEvents(events);
    var e := events[|events| - 1];
    var before := Final(c, b, Keep(events[..|events| - 1]));
    assert Expire(before, Keep(events)[|events| - 1]) == before;
    var ds := Decisions(c, b, Keep(events));
    assert ds[..|ds| - 1] == Decisions(c, b, Keep(events[..|events| - 1]));
  }

  /** The clock does not run backwards, starting no earlier than the bucket's own stamp. */
  ghost predicate Timely(b: Bucket, events: seq<Event>) {
    && (forall i, j :: 0 <= i < j < |events| ==> events[i].now <= events[j].now)
    && (b.stamp.Some? && events != [] ==> b.stamp.value <= events[0].now)
  }

  lemma {:induction false} NothingKept(c: Config, b: Bucket)
    requires c.Valid()
    ensures Final(c, b, Keep([])) == b && Count(Decisions(c, b, Keep([]))) == 0 && Fill(c, 0) == 0.0
  {
  }

  /** Admissions plus what is left never exceed what was there plus the refill. */
  lemma {:induction false} KeptBudget(c: Config, b: Bucket, events: seq<Event>)
    requires c.Valid() && InRange(c, b) && Timely(b, events) && events != []
    ensures
      var first, last := events[0].now, events[|events| - 1].now;
      var after := Final(c, b, Keep(events));
      && InRange(c, after) && (after.stamp.Some? ==> after.stamp.value <= last)
      && Count(Decisions(c, b, Keep(events))) as real + Level(c, after, last)
          <= Level(c, b, first) + Fill(c, last - first)
  {
    hide Fill, Level, Take, Admits, Final, Decisions, Count, Keep;
    var init, e := events[..|events| - 1], events[|events| - 1];
    var first := events[0].now;
    LastKept(c, b, events);
    if init == [] {
      NothingKept(c, b);
      OneRequestBudget(c, b, first, first);
    } else {
      KeptBudget(c, b, init);
      var mid := init[|init| - 1].now;
      OneRequestBudget(c, Final(c, b, Keep(init)), mid, e.now);
      FillAdds(c, mid - first, e.now - mid);
    }
  }

  /** The time from the first request to the last. */
  function Span(events: seq<Event>): int {
    if events == [] then 0 else events[|events| - 1].now - events[0].now
  }

  /** With keys that never expire, any stretch of requests, from whatever bucket it starts, is admitted
      at most burst + rate * T / window times, T being the time it spans. */
  lemma {:induction false} KeptIntervalBound(c: Config, b: Bucket, events: seq<Event>)
    requires c.Valid() && InRange(c, b) && Timely(b, events)
    ensures Count(Decisions(c, b, Keep(events))) as real <= c.burst as real + Fill(c, Span(events))
  {
    if events == [] {
      FillGrows(c, 0);
    } else {
      KeptBudget(c, b, events);
      LevelInRange(c, b, events[0].now);
      LevelInRange(c, Final(c, b, Keep(events)), events[|events| - 1].now);
    }
  }

  // ----- intervals inside a run -----

  lemma {:induction false} Split(c: Config, b: Bucket, x: seq<Event>, y: seq<Event>)
    requires c.Valid()
    ensures Final(c, b, x + y) == Final(c, Final(c, b, x), y)
    ensures Decisions(c, b, x + y) == Decisions(c, b, x) + Decisions(c, Final(c, b, x), y)
  {
    hide Take, Admits, Expire;
    if y == [] {
      assert x + y == x;
    } else {
      Split(c, b, x, y[..|y| - 1]);
      assert (x + y)[..|x + y| - 1] == x + y[..|y| - 1];
    }
  }

  /** Requests i up to j of a run with kept keys are a run of their own, from the bucket before them. */
  lemma {:induction false} KeptSlice(c: Config, b: Bucket, events: seq<Event>, i: int, j: int)
    requires c.Valid() && 0 <= i <= j <= |events|
    ensures |Keep(events)| == |events|
    ensures Decisions(c, b, Keep(events))[i..j] == Decisions(c, Final(c, b, Keep(events[..i])), Keep(events[i..j]))
  {
    var x, y, z := Keep(events[..i]), Keep(events[i..j]), Keep(events[j..]);
    assert Keep(events) == x + y + z;
    Split(c, b, x + y, z);
    Split(c, b, x, y);
    hide Decisions, Final;
  }

  /** The time from request i to the last request before j. */
  function Between(events: seq<Event>, i: int, j: int): int
    requires 0 <= i < j <= |events|
  {
    events[j - 1].now - events[i].now
  }

  lemma {:induction false} KeptBefore(c: Config, events: seq<Event>, i: int)
    requires c.Valid() && Timely(EMPTY, events) && 0 <= i < |events|
    ensures
      var b := Final(c, EMPTY, Keep(events[..i]));
      InRange(c, b) && (b.stamp.Some? ==> b.stamp.value <= events[i].now)
  {
    if i > 0 {
      KeptBudget(c, EMPTY, events[..i]);
    } else {
      assert Keep(events[..0]) == [];
    }
  }

  /** With keys that never expire, every interval of a run keeps the limit. */
  lemma {:induction false} KeptIntervals(c: Config, events: seq<Event>, i: int, j: int)
    requires c.Valid() && Timely(EMPTY, events) && 0 <= i < j <= |events|
    ensures Count(Decisions(c, EMPTY, Keep(events))[i..j]) as real <= c.burst as real + Fill(c, Between(events, i, j))
  {
    hide Final, Decisions, Count, Fill, InRange;
    KeptBefore(c, events, i);
    KeptSlice(c, EMPTY, events, i, j);
    KeptIntervalBound(c, Final(c, EMPTY, Keep(events[..i])), events[i..j]);
  }

  // ----- expiry -----

  /** Both buckets offer a full burst from `now` on, or they are the same. */
  ghost predicate Alike(c: Config, late: nat, b: Bucket, kept: Bucket, now: int)
    requires c.Valid()
  {
    || b == kept
    || (b.tokens.None? && (kept.tokens.None? || (kept.stamp.Some? && now - kept.stamp.value >= 2 * c.window - late)))
  }

  /** What the keys' life, less the lag of a reading, refills covers the burst. */
  predicate RefillCovers(c: Config, late: nat) {
    c.burst == 0 || c.burst * c.window <= (2 * c.window - late) * c.rate
  }

  lemma {:induction false} FullAfterLife(c: Config, late: nat, b: Bucket, now: int)
    requires c.Valid() && InRange(c, b) && RefillCovers(c, late)
    requires b.tokens.None? || (b.stamp.Some? && now - b.stamp.value >= 2 * c.window - late)
    ensures Level(c, b, now) == c.burst as real
  {
    var delta := if b.stamp.Some? && now - b.stamp.value > 0 then now - b.stamp.value else 0;
    FillGrows(c, delta);
    if b.tokens.Some? && c.burst > 0 {
      RefillOfLife(c, late, delta);
    }
  }

  lemma {:induction false} RefillOfLife(c: Config, late: nat, delta: nat)
    requires c.Valid() && c.burst > 0 && RefillCovers(c, late) && delta >= 2 * c.window - late
    ensures Fill(c, delta) >= c.burst as real
  {
    var life := 2 * c.window - late;
    assert (delta - life) * c.rate >= 0;
    assert delta * c.rate == life * c.rate + (delta - life) * c.rate;
    FillAgainst(c, delta, c.burst);
  }

  predicate Stamped(b: Bucket) {
    b.tokens.Some? ==> b.stamp.Some?
  }

  lemma {:induction false} OneExpiry(c: Config, late: nat, b: Bucket, kept: Bucket, e: Event, before: int)
    requires c.Valid() && RefillCovers(c, late)
    requires InRange(c, b) && InRange(c, kept) && Stamped(b) && Stamped(kept)
    requires Alike(c, late, b, kept, before) && before <= e.now && TtlRespected(c, late, b, e)
    ensures Admits(c, Expire(b, e), e.now) == Admits(c, kept, e.now)
    ensures
      var after, after' := Take(c, Expire(b, e), e.now), Take(c, kept, e.now);
      && Alike(c, late, after, after', e.now)
      && InRange(c, after) && InRange(c, after') && Stamped(after) && Stamped(after')
  {
    var b' := Expire(b, e);
    LevelInRange(c, b', e.now);
    LevelInRange(c, kept, e.now);
    if b' != kept {
      FullAfterLife(c, late, b', e.now);
      FullAfterLife(c, late, kept, e.now);
    }
  }

  lemma {:induction false} ExpiryChangesNothing(c: Config, late: nat, events: seq<Event>)
    requires c.Valid() && RefillCovers(c, late) && Possible(c, late, EMPTY, events)
    ensures Decisions(c, EMPTY, events) == Decisions(c, EMPTY, Keep(events))
    ensures
      var b, kept := Final(c, EMPTY, events), Final(c, EMPTY, Keep(events));
      && InRange(c, b) && InRange(c, kept) && Stamped(b) && Stamped(kept)
      && (if events == [] then b == kept else Alike(c, late, b, kept, events[|events| - 1].now))
  {
    if events != [] {
      KeptEvents(events);
      var init, e := events[..|events| - 1], events[|events| - 1];
      ExpiryChangesNothing(c, late, init);
      var before := if init == [] then e.now else init[|init| - 1].now;
      OneExpiry(c, late, Final(c, EMPTY, init), Final(c, EMPTY, Keep(init)), e, before);
      assert Expire(Final(c, EMPTY, Keep(init)), Keep(events)[|events| - 1]) == Final(c, EMPTY, Keep(init));
      hide Alike, Take, Admits, Level;
    }
  }

  // ----- when the refill does not cover the burst -----

  /** k requests at one instant. */
  function Volley(now: int, k: nat): seq<Event> {
    seq(k, _ => Request(now, false, false))
  }

  lemma {:induction false} Longer(c: Config, late: nat, b: Bucket, events: seq<Event>, e: Event)
    requires c.Valid()
    ensures
      var before := Expire(Final(c, b, events), e);
      && Final(c, b, events + [e]) == Take(c, before, e.now)
      && Decisions(c, b, events + [e]) == Decisions(c, b, events) + [Admits(c, before, e.now)]
      && Count(Decisions(c, b, events + [e]))
          == Count(Decisions(c, b, events)) + (if Admits(c, before, e.now) then 1 else 0)
      && (Possible(c, late, b, events + [e]) <==>
            Possible(c, late, b, events) && TtlRespected(c, late, Final(c, b, events), e)
            && (events != [] ==> events[|events| - 1].now <= e.now))
  {
    var all := events + [e];
    assert all[..|all| - 1] == events;
    var ds := Decisions(c, b, all);
    assert ds[..|ds| - 1] == Decisions(c, b, events);
  }

  ghost predicate Reached(c: Config, late: nat, events: seq<Event>, now: int, count: nat, level: real)
    requires c.Valid()
  {
    var b := Final(c, EMPTY, events);
    && Possible(c, late, EMPTY, events) && InRange(c, b)
    && (events != [] ==> events[|events| - 1].now <= now)
    && (b.stamp.Some? ==> b.stamp.value <= now)
    && Count(Decisions(c, EMPTY, events)) == count
    && Level(c, b, now) == level
  }

  lemma {:induction false} OneMoreAdmitted(c: Config, late: nat, events: seq<Event>, e: Event, count: nat, level: real)
    requires c.Valid() && TtlRespected(c, late, Final(c, EMPTY, events), e)
    requires Reached(c, late, events, e.now, count, Level(c, Final(c, EMPTY, events), e.now))
    requires InRange(c, Expire(Final(c, EMPTY, events), e))
        && Level(c, Expire(Final(c, EMPTY, events), e), e.now) == level
    requires level >= 1.0
    ensures Reached(c, late, events + [e], e.now, count + 1, level - 1.0)
    ensures Final(c, EMPTY, events + [e]).stamp == Some(e.now) && Final(c, EMPTY, events + [e]).tokens.Some?
  {
    Longer(c, late, EMPTY, events, e);
    hide Final, Decisions, Possible, Count;
    var before := Expire(Final(c, EMPTY, events), e);
    assert before.stamp.Some? ==> before.stamp.value <= e.now;
    LevelAfterTake(c, before, e.now);
    LevelInRange(c, before, e.now);
  }

  /** As many requests as there are whole tokens are all admitted at one instant. */
  lemma {:induction false} VolleyAdmitted(c: Config, late: nat, events: seq<Event>, now: int, k: nat,
                                          count: nat, level: real)
    requires c.Valid() && Reached(c, late, events, now, count, level) && level >= k as real
    ensures Reached(c, late, events + Volley(now, k), now, count + k, level - k as real)
    ensures k > 0 ==> Final(c, EMPTY, events + Volley(now, k)).stamp == Some(now)
                      && Final(c, EMPTY, events + Volley(now, k)).tokens.Some?
  {
    hide Final, Decisions, Possible, Count, Level, InRange, Expire, TtlRespected, Volley;
    VolleyGrows(events, now, k);
    if k > 0 {
      VolleyAdmitted(c, late, events, now, k - 1, count, level);
      var before, e := events + Volley(now, k - 1), Request(now, false, false);
      NothingLost(c, late, Final(c, EMPTY, before), e);
      OneMoreAdmitted(c, late, before, e, count + k - 1, level - (k - 1) as real);
    }
  }

  lemma {:induction false} VolleyGrows(events: seq<Event>, now: int, k: nat)
    ensures k == 0 ==> events + Volley(now, k) == events
    ensures k > 0 ==> events + Volley(now, k) == events + Volley(now, k - 1) + [Request(now, false, false)]
  {
  }

  lemma {:induction false} NothingLost(c: Config, late: nat, b: Bucket, e: Event)
    requires !e.lostTokens && !e.lostStamp
    ensures Expire(b, e) == b && TtlRespected(c, late, b, e)
  {
  }

  /** The earliest reading, after one at 0, of a request that may find the keys gone. */
  function Gap(c: Config, late: nat): nat {
    if late <= 2 * c.window then 2 * c.window - late else 0
  }

  /** A full burst, the keys expire, and another full burst as early as the readings allow. */
  function TwoBursts(c: Config, late: nat): seq<Event>
    requires c.Valid() && c.burst > 0
  {
    Volley(0, c.burst) + [Request(Gap(c, late), true, true)] + Volley(Gap(c, late), c.burst - 1)
  }

  lemma {:induction false} EmptyIsFull(c: Config, now: int)
    requires c.Valid()
    ensures Level(c, EMPTY, now) == c.burst as real
  {
    assert Fill(c, 0) == 0.0;
  }

  lemma {:induction false} TwoBurstsAdmitted(c: Config, late: nat)
    requires c.Valid() && c.burst > 0
    ensures Possible(c, late, EMPTY, TwoBursts(c, late))
    ensures Count(Decisions(c, EMPTY, TwoBursts(c, late))) == 2 * c.burst
    ensures TwoBursts(c, late)[0].now == 0 && TwoBursts(c, late)[|TwoBursts(c, late)| - 1].now == Gap(c, late)
  {
    var start: seq<Event> := [];
    var later := Gap(c, late);
    var e := Request(later, true, true);
    var first := Volley(0, c.burst);
    assert start + first == first;
    EmptyIsFull(c, 0);
    EmptyIsFull(c, later);
    assert Reached(c, late, start, 0, 0, c.burst as real);
    hide Final, Decisions, Possible, Count, Level;
    VolleyAdmitted(c, late, start, 0, c.burst, 0, c.burst as real);
    assert Expire(Final(c, EMPTY, first), e) == EMPTY;
    assert Reached(c, late, first, later, c.burst, Level(c, Final(c, EMPTY, first), later));
    OneMoreAdmitted(c, late, first, e, c.burst, c.burst as real);
    VolleyAdmitted(c, late, first + [e], later, c.burst - 1, c.burst + 1, c.burst as real - 1.0);
  }

  /** In every run that the clock and Redis allow, every interval, of length T, admits at most
      burst + rate * T / window requests. */
  ghost predicate LimitHolds(c: Config, late: nat)
    requires c.Valid()
  {
    forall events, i, j :: Possible(c, late, EMPTY, events) && 0 <= i < j <= |events| ==>
      Count(Decisions(c, EMPTY, events)[i..j]) as real <= c.burst as real + Fill(c, Between(events, i, j))
  }

  /** Every such run decides as if the keys never expired. */
  ghost predicate ExpiryInvisible(c: Config, late: nat)
    requires c.Valid()
  {
    forall events :: Possible(c, late, EMPTY, events) ==>
      Decisions(c, EMPTY, events) == Decisions(c, EMPTY, Keep(events))
  }

  lemma {:induction false} PossibleIsTimely(c: Config, late: nat, events: seq<Event>)
    requires c.Valid() && Possible(c, late, EMPTY, events)
    ensures Timely(EMPTY, events)
  {
    if events != [] {
      PossibleIsTimely(c, late, events[..|events| - 1]);
      var init := events[..|events| - 1];
      assert forall i :: 0 <= i < |init| ==> init[i].now <= init[|init| - 1].now;
    }
  }

  /** With readings up to `late` seconds behind, the advertised limit holds, and expiry goes unnoticed,
      exactly when what is refilled in the keys' life less that covers the burst: with no lag, when burst
      is at most twice the rate; with a window and a lag of one second, when it is at most the rate. */
  lemma {:induction false} LimitHoldsExactlyWhen(c: Config, late: nat)
    requires c.Valid()
    ensures LimitHolds(c, late) <==> RefillCovers(c, late)
    ensures ExpiryInvisible(c, late) <==> RefillCovers(c, late)
  {
    if RefillCovers(c, late) {
      forall events | Possible(c, late, EMPTY, events)
        ensures Decisions(c, EMPTY, events) == Decisions(c, EMPTY, Keep(events)) && Timely(EMPTY, events)
      {
        ExpiryChangesNothing(c, late, events);
        PossibleIsTimely(c, late, events);
      }
      forall events, i, j | Possible(c, late, EMPTY, events) && 0 <= i < j <= |events|
        ensures Count(Decisions(c, EMPTY, events)[i..j]) as real <= c.burst as real + Fill(c, Between(events, i, j))
      {
        KeptIntervals(c, events, i, j);
      }
    } else {
      TwoBurstsBreakBoth(c, late);
    }
  }

  lemma {:induction false} MoreThanTheLimit(c: Config, late: nat)
    requires c.Valid() && !RefillCovers(c, late)
    ensures (2 * c.burst) as real > c.burst as real + Fill(c, Gap(c, late))
  {
    assert c.burst * c.window > 0;
    FillAgainst(c, Gap(c, late), c.burst);
    hide Fill;
  }

  lemma {:induction false} TwoBurstsBreakBoth(c: Config, late: nat)
    requires c.Valid() && !RefillCovers(c, late)
    ensures !LimitHolds(c, late) && !ExpiryInvisible(c, late)
  {
    hide Decisions, Possible, Count, Fill, Keep, Timely;
    var events := TwoBursts(c, late);
    TwoBurstsAdmitted(c, late);
    PossibleIsTimely(c, late, events);
    hide TwoBursts;
    MoreThanTheLimit(c, late);
    KeptIntervals(c, events, 0, |events|);
    assert Between(events, 0, |events|) == Gap(c, late);
    var all, kept := Decisions(c, EMPTY, events), Decisions(c, EMPTY, Keep(events));
    WholeSlice(all);
    WholeSlice(kept);
    assert Count(all) as real > c.burst as real + Fill(c, Gap(c, late));
  }

  lemma {:induction false} WholeSlice(decisions: seq<bool>)
    ensures decisions[0..|decisions|] == decisions
  {
  }

  // ----- readings out of order -----

  function Plain(now: int): Event {
    Request(now, false, false)
  }

  /** Requests that read 1 and 0 in turn. */
  function Disorder(k: nat): seq<Event> {
    if k == 0 then [Plain(0)] else Disorder(k - 1) + [Plain(1)] + [Plain(0)]
  }

  lemma {:induction false} TakeTwo(c: Config, b: Bucket)
    requires c.Valid() && c.rate >= 2 * c.window && c.burst >= 2
    requires b.stamp == Some(0) && b.tokens.Some? && b.tokens.value >= 0.0
    ensures Admits(c, b, 1) && Admits(c, Take(c, b, 1), 0)
    ensures var b' := Take(c, Take(c, b, 1), 0); b'.stamp == Some(0) && b'.tokens.Some? && b'.tokens.value >= 0.0
  {
    FillAgainst(c, 1, 2);
    assert Fill(c, 0) == 0.0;
  }

  /** The bound needs readings that do not go back: if two requests a second are refilled and fit, requests
      whose readings alternate between two seconds are all admitted, however many there are. */
  lemma {:induction false} DisorderBreaksLimit(c: Config, k: nat)
    requires c.Valid() && c.rate >= 2 * c.window && c.burst >= 2
    ensures
      var b := Final(c, EMPTY, Disorder(k));
      && Count(Decisions(c, EMPTY, Disorder(k))) == 2 * k + 1
      && b.stamp == Some(0) && b.tokens.Some? && b.tokens.value >= 0.0
  {
    if k == 0 {
      var none: seq<Event> := [];
      Longer(c, 0, EMPTY, none, Plain(0));
      EmptyIsFull(c, 0);
      assert none + [Plain(0)] == Disorder(0);
    } else {
      DisorderBreaksLimit(c, k - 1);
      var before := Disorder(k - 1);
      TakeTwo(c, Final(c, EMPTY, before));
      Longer(c, 0, EMPTY, before, Plain(1));
      Longer(c, 0, EMPTY, before + [Plain(1)], Plain(0));
      hide Final, Decisions, Count, Take, Admits, Possible;
    }
  }

  // ----- the code -----

  /** What comes of a call to Redis. */
  datatype Reply = Answers | Lost | AnswerLost

  class TokenBucketLimiter {
    const config: Config
    var tokens: map<string, real>
    var stamps: map<string, int>

    constructor (rate: nat, burst: nat)
      ensures config == Config(rate, burst, 1) && tokens == map[] && stamps == map[]
    {
      config := Config(rate, burst, 1);
      tokens, stamps := map[], map[];
    }

    /** The two Redis keys of one limiter key. */
    function BucketOf(key: string): Bucket
      reads this
    {
      Bucket(if key in tokens then Some(tokens[key]) else None, if key in stamps then Some(stamps[key]) else None)
    }

    /** Eval of the script: it may fail before or after the script has run, and then nothing is allowed. */
    method Allow(key: string, now: int, reply: Reply) returns (allowed: bool, err: bool)
      requires config.Valid()
      modifies this
      ensures err <==> reply != Answers
      ensures allowed == (reply == Answers && Admits(config, old(BucketOf(key)), now))
      ensures BucketOf(key) == if reply == Lost then old(BucketOf(key)) else Take(config, old(BucketOf(key)), now)
      ensures forall other :: other != key ==> BucketOf(other) == old(BucketOf(other))
    {
      if reply == Lost {
        return false, true;
      }
      var result := RunScript(key, now);
      if reply == AnswerLost {
        return false, true;
      }
      return result, false;
    }

    method RunScript(key: string, now: int) returns (admitted: bool)
      requires config.Valid()
      modifies this
      ensures admitted == Admits(config, old(BucketOf(key)), now)
      ensures BucketOf(key) == Take(config, old(BucketOf(key)), now)
      ensures forall other :: other != key ==> BucketOf(other) == old(BucketOf(other))
      ensures
        var filled := (if key in old(tokens) then old(tokens)[key] else config.burst as real)
                      + if key in old(stamps) && now > old(stamps)[key]
                        then ((now - old(stamps)[key]) * config.rate) as real / config.window as real else 0.0;
        var level := if filled <= config.burst as real then filled else config.burst as real;
        && admitted == (level >= 1.0)
        && tokens == (if admitted then old(tokens)[key := level - 1.0] else old(tokens))
        && stamps == if admitted then old(stamps)[key := now] else old(stamps)
    {
      var lastTokens := if key in tokens then tokens[key] else config.burst as real;
      var lastStamp := if key in stamps then stamps[key] else now;
      var delta := if now - lastStamp > 0 then now - lastStamp else 0;
      var newTokens := Min(config.burst as real, lastTokens + (delta * config.rate) as real / config.window as real);
      if newTokens >= 1.0 {
        newTokens := newTokens - 1.0;
        tokens := tokens[key := newTokens];
        stamps := stamps[key := now];
        return true;
      }
      return false;
    }
  }
}
