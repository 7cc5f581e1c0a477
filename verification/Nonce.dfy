/** Replay protection: the time-stamp window of the signature middleware followed, not atomically, by
    the nonce cache, whose entries a background task removes. */
module Nonce {

  /** Five minutes, in seconds: the width of the time-stamp window and the life of a nonce. */
  const WINDOW := 300

  type Cache = map<string, int>

  /** A request reads the clock as `checked` for its time stamp, and again as `now` for its nonce. */
  datatype Event = Request(nonce: string, timestamp: int, checked: int, now: int) | Cleanup(now: int)

  function Abs(n: int): int {
    if n < 0 then -n else n
  }

  /** A request passes when its time stamp is in the window and its nonce is unknown. */
  predicate Accepts(cache: Cache, e: Event)
    requires e.Request?
  {
    Abs(e.checked - e.timestamp) <= WINDOW && e.nonce !in cache
  }

  function Expire(cache: Cache, now: int): Cache {
    map n | n in cache && now - cache[n] <= WINDOW :: cache[n]
  }

  /** The nonce check of a request, which is reached and recorded only if its time stamp was in the window. */
  function Step(cache: Cache, e: Event): Cache {
    match e
    case Request(nonce, _, _, now) => if Accepts(cache, e) then cache[nonce := now] else cache
    case Cleanup(now) => Expire(cache, now)
  }

  function Final(events: seq<Event>): Cache {
    if events == [] then map[] else Step(Final(events[..|events| - 1]), events[|events| - 1])
  }

  /** The request at position i is accepted. */
  predicate AcceptedAt(events: seq<Event>, i: int) {
    0 <= i < |events| && events[i].Request? && Accepts(Final(events[..i]), events[i])
  }

  /** The nonce checks and cleanups, in the order of the lock, do not see the clock go back. */
  ghost predicate Monotone(events: seq<Event>) {
    forall i, j :: 0 <= i < j < |events| ==> events[i].now <= events[j].now
  }

  /** No request waits longer than `delay` between its two checks. */
  predicate Prompt(e: Event, delay: nat) {
    e.Request? ==> 0 <= e.now - e.checked <= delay
  }

  /** Positions i and k accept the same nonce with the same time stamp. */
  ghost predicate Replayed(events: seq<Event>, i: int, k: int) {
    && AcceptedAt(events, i) && AcceptedAt(events, k) && i < k
    && events[i].nonce == events[k].nonce && events[i].timestamp == events[k].timestamp
  }

  /** After acceptance at time a, the nonce stays in the cache as long as the clock has not passed a + 300;
      a later acceptance of the same nonce only makes it stay longer. */
  lemma {:induction false} NonceRemembered(events: seq<Event>, i: int, k: int)
    requires Monotone(events) && AcceptedAt(events, i) && i < k <= |events|
    requires events[k - 1].now - events[i].now <= 300
    ensures events[i].nonce in Final(events[..k]) && Final(events[..k])[events[i].nonce] >= events[i].now
    decreases k
  {
    assert events[..k][..k - 1] == events[..k - 1];
    if k > i + 1 {
      NonceRemembered(events, i, k - 1);
    }
  }

  /** A request whose nonce was recorded at least `delay` after its time stamp is never accepted again,
      for any schedule of cleanups, unless the replay waits longer than that between its two checks.
      With the two checks as one step: unless its time stamp was ahead of the clock. */
  lemma {:induction false} NeverReplayed(events: seq<Event>, i: int, k: int, delay: nat)
    requires Monotone(events) && AcceptedAt(events, i) && events[i].timestamp + delay <= events[i].now
    requires 0 <= k < |events| ==> Prompt(events[k], delay)
    ensures !Replayed(events, i, k)
  {
    if Replayed(events, i, k) {
      assert events[k].now - events[i].now <= WINDOW;
      NonceRemembered(events, i, k);
    }
  }

  /** The schedule that lets a request through twice: the nonce is dropped as soon as it may be, and the
      replay has its time stamp checked just before it leaves the window. */
  function ReplaySchedule(first: Event): seq<Event>
    requires first.Request?
  {
    var again := first.now + WINDOW + 1;
    var checked := if again <= first.timestamp + WINDOW then again else first.timestamp + WINDOW;
    [first, Cleanup(again), Request(first.nonce, first.timestamp, checked, again)]
  }

  ghost predicate AllPrompt(events: seq<Event>, delay: nat) {
    forall i :: 0 <= i < |events| ==> Prompt(events[i], delay)
  }

  lemma {:induction false} LateReplayAccepted(first: Event, delay: nat)
    requires first.Request? && Prompt(first, delay) && -300 <= first.checked - first.timestamp <= 300
    requires first.timestamp + delay > first.now
    ensures
      var events := ReplaySchedule(first);
      Monotone(events) && AllPrompt(events, delay) && Replayed(events, 0, 2)
  {
    var events := ReplaySchedule(first);
    assert events[..0] == [] && events[..1][..0] == [] && events[..2][..1] == events[..1];
    assert Final(events[..1]) == map[first.nonce := first.now];
    assert Final(events[..2]) == map[];
  }

  ghost predicate CanReplay(first: Event, delay: nat)
    requires first.Request?
  {
    exists events, k :: Monotone(events) && AllPrompt(events, delay) && Replayed(events, 0, k) && events[0] == first
  }

  /** A request in the window, met by an empty cache, can be accepted again under some schedule whose
      requests wait at most `delay` exactly when its time stamp plus the delay is ahead of the clock. */
  lemma {:induction false} ReplayExactlyWhenAhead(first: Event, delay: nat)
    requires first.Request? && Prompt(first, delay) && -300 <= first.checked - first.timestamp <= 300
    ensures CanReplay(first, delay) <==> first.timestamp + delay > first.now
  {
    if first.timestamp + delay > first.now {
      LateReplayAccepted(first, delay);
      assert ReplaySchedule(first)[0] == first;
    }
    forall events, k | Monotone(events) && AllPrompt(events, delay) && Replayed(events, 0, k) && events[0] == first
      ensures first.timestamp + delay > first.now
    {
      if first.timestamp + delay <= first.now {
        NeverReplayed(events, 0, k, delay);
      }
    }
  }

  // ----- the code -----

  class NonceManager {
    var cache: Cache

    constructor ()
      ensures cache == map[]
    {
      cache := map[];
    }

    method CheckNonce(nonce: string, now: int) returns (ok: bool)
      modifies this
      ensures ok <==> nonce !in old(cache)
      ensures cache == if ok then old(cache)[nonce := now] else old(cache)
    {
      if nonce in cache {
        return false;
      }
      cache := cache[nonce := now];
      return true;
    }

    method CleanupExpired(now: int)
      modifies this
      ensures cache == Expire(old(cache), now)
      ensures forall n :: n in cache <==> n in old(cache) && now - old(cache)[n] <= 300
      ensures forall n :: n in cache ==> cache[n] == old(cache)[n]
    {
      var todo := cache.Keys;
      while todo != {}
        invariant todo <= cache.Keys <= old(cache).Keys
        invariant forall n :: n in cache ==> cache[n] == old(cache)[n]
        invariant forall n :: n in old(cache) && n !in todo ==> (n in cache <==> now - old(cache)[n] <= WINDOW)
        decreases todo
      {
        var n :| n in todo;
        if now - cache[n] > WINDOW {
          cache := cache - {n};
        }
        todo := todo - {n};
      }
    }
  }

  datatype Rejection = MissingHeader | BadTimestamp | TimestampExpired | NonceReplay | Passed

  /** SignatureAuth up to the nonce: the headers, the window, then the nonce, with early exits. Without a
      nonce checker, the window alone decides. */
  method CheckFreshness(manager: NonceManager?, complete: bool, timestamp: int, parses: bool, nonce: string,
                        checked: int, now: int)
    returns (r: Rejection)
    modifies manager
    ensures r == MissingHeader <==> !complete
    ensures r == BadTimestamp <==> complete && !parses
    ensures r == TimestampExpired <==> complete && parses && !(-300 <= checked - timestamp <= 300)
    ensures r == NonceReplay <==> complete && parses && -300 <= checked - timestamp <= 300
                                  && manager != null && nonce in old(manager.cache)
    ensures manager != null ==> manager.cache == if r == Passed then old(manager.cache)[nonce := now]
                                                 else old(manager.cache)
    ensures manager != null ==>
      (r == Passed <==> complete && parses && Accepts(old(manager.cache), Request(nonce, timestamp, checked, now)))
    ensures manager != null ==>
      manager.cache == if complete && parses then Step(old(manager.cache), Request(nonce, timestamp, checked, now))
                       else old(manager.cache)
  {
    if !complete {
      return MissingHeader;
    }
    if !parses {
      return BadTimestamp;
    }
    if Abs(checked - timestamp) > WINDOW {
      return TimestampExpired;
    }
    if manager != null {
      var ok := manager.CheckNonce(nonce, now);
      if !ok {
        return NonceReplay;
      }
    }
    return Passed;
  }
}
