/** The per-user fixed-window throttle in front of every bot handler. Each user has a
    record `(start_time, count)` in a TTL cache whose entries live `timeframe` ticks
    after their last write. The monotonic clock is an integer tick passed in. */
module Throttling {
  import opened Optional

  datatype ThrottledUserData = ThrottledUserData(startTime: int, count: int)

  /** A cache slot: the record and the tick from which the cache no longer returns it. */
  datatype CacheEntry = CacheEntry(data: ThrottledUserData, expires: int)

  /** What one request leads to: the record written back (if any), whether the handler
      runs, and whether the "slow down" answer is sent. */
  datatype Decision = Decision(write: Option<ThrottledUserData>, pass: bool, warn: bool)

  function Min(a: int, b: int): int { if a <= b then a else b }
  function Max(a: int, b: int): int { if a >= b then a else b }

  function Get(cache: map<int, CacheEntry>, userId: int): Option<CacheEntry> {
    if userId in cache then Some(cache[userId]) else None
  }

  /** `TTLCache.get`: an entry is returned only strictly before it expires. */
  function Lookup(entry: Option<CacheEntry>, now: int): (r: Option<ThrottledUserData>)
    ensures r.Some? <==> entry.Some? && now < entry.value.expires
    ensures r.Some? ==> r.value == entry.value.data
  {
    if entry.Some? && now < entry.value.expires then Some(entry.value.data) else None
  }

  /** True when the record starts a new window at `now`: none, or its window is over. */
  predicate WindowOver(throttled: Option<ThrottledUserData>, now: int, timeframe: int) {
    throttled.None? || throttled.value.startTime + timeframe <= now
  }

  /** The admission rule for one request, given the record the cache returned. */
  function Admit(throttled: Option<ThrottledUserData>, now: int, timeframe: int, capacity: int): (d: Decision)
    // a new window always lets the request through and restarts the count at 1
    ensures WindowOver(throttled, now, timeframe) ==>
      d == Decision(Some(ThrottledUserData(now, 1)), true, false)
    // inside a window: the request passes iff the incremented count fits the capacity
    ensures !WindowOver(throttled, now, timeframe) ==>
      (d.pass <==> throttled.value.count + 1 <= capacity)
    // the warning is sent iff this request is the first one over capacity
    ensures d.warn <==> !WindowOver(throttled, now, timeframe) && throttled.value.count == capacity
    ensures !(d.pass && d.warn)
    // inside a window the start is kept; a warned request bumps the count by two
    ensures !WindowOver(throttled, now, timeframe) && d.write.Some? ==>
      d.write.value.startTime == throttled.value.startTime &&
      d.write.value.count == throttled.value.count + (if d.warn then 2 else 1)
    // over capacity and already warned: nothing is written
    ensures d.write.None? <==> !d.pass && !d.warn
  {
    match throttled
    case None => Decision(Some(ThrottledUserData(now, 1)), true, false)
    case Some(t) =>
      if t.startTime + timeframe > now then
        var reqNum := t.count + 1;
        if reqNum <= capacity then Decision(Some(ThrottledUserData(t.startTime, reqNum)), true, false)
        else if reqNum == capacity + 1 then Decision(Some(ThrottledUserData(t.startTime, reqNum + 1)), false, true)
        else Decision(None, false, false)
      else Decision(Some(ThrottledUserData(now, 1)), true, false)
  }

  /** One request at `now` against a user's cache slot: the slot afterwards (a write
      restarts the TTL) and the decision. */
  function Step(entry: Option<CacheEntry>, now: int, timeframe: int, capacity: int): (Option<CacheEntry>, Decision) {
    var d := Admit(Lookup(entry, now), now, timeframe, capacity);
    (if d.write.Some? then Some(CacheEntry(d.write.value, now + timeframe)) else entry, d)
  }

  /** A slot the middleware itself wrote: it expires no earlier than its window ends. */
  predicate EntryValid(e: CacheEntry, timeframe: int) {
    e.data.startTime + timeframe <= e.expires
  }

  /** A sequence of requests of one user: the final slot, how many passed and how many
      were answered with the warning. */
  function Run(entry: Option<CacheEntry>, times: seq<int>, timeframe: int, capacity: int): (Option<CacheEntry>, nat, nat)
    decreases |times|
  {
    if times == [] then (entry, 0, 0)
    else
      var s := Step(entry, times[0], timeframe, capacity);
      var rest := Run(s.0, times[1..], timeframe, capacity);
      (rest.0, rest.1 + (if s.1.pass then 1 else 0), rest.2 + (if s.1.warn then 1 else 0))
  }

  /** The TTL never changes a decision: for a slot the middleware wrote, reading it
      through the cache (which hides it once expired) decides exactly as reading it
      directly would, because an expired slot's window is already over. */
  lemma TtlExpiryUnobservable(e: CacheEntry, now: int, timeframe: int, capacity: int)
    requires EntryValid(e, timeframe)
    ensures Admit(Lookup(Some(e), now), now, timeframe, capacity) == Admit(Some(e.data), now, timeframe, capacity)
  {
  }

  /** Requests inside the window that started at `start`, from a slot holding `count`:
      they pass until the count reaches the capacity, and exactly one warning is sent
      if the capacity is reached while the slot still holds at most the capacity. */
  lemma {:induction false} WindowCounts(start: int, count: int, expires: int, times: seq<int>, timeframe: int, capacity: int)
    requires start + timeframe <= expires
    requires forall i :: 0 <= i < |times| ==> start <= times[i] < start + timeframe
    ensures var r := Run(Some(CacheEntry(ThrottledUserData(start, count), expires)), times, timeframe, capacity);
      r.1 == Min(|times|, Max(capacity - count, 0)) &&
      r.2 == (if count <= capacity && |times| > capacity - count then 1 else 0)
    decreases |times|
  {
    if times != [] {
      var e := Some(CacheEntry(ThrottledUserData(start, count), expires));
      var now := times[0];
      var s := Step(e, now, timeframe, capacity);
      assert forall i :: 0 <= i < |times[1..]| ==> start <= times[1..][i] < start + timeframe by {
        forall i | 0 <= i < |times[1..]| ensures start <= times[1..][i] < start + timeframe {
          assert times[1..][i] == times[i + 1];
        }
      }
      if count + 1 <= capacity {
        assert s.0 == Some(CacheEntry(ThrottledUserData(start, count + 1), now + timeframe));
        WindowCounts(start, count + 1, now + timeframe, times[1..], timeframe, capacity);
      } else if count == capacity {
        assert s.0 == Some(CacheEntry(ThrottledUserData(start, count + 2), now + timeframe));
        WindowCounts(start, count + 2, now + timeframe, times[1..], timeframe, capacity);
      } else {
        assert s.0 == e;
        WindowCounts(start, count, expires, times[1..], timeframe, capacity);
      }
    }
  }

  /** Per user and per window: a request that finds no live record (or an elapsed one)
      opens a window, and of all requests inside that window at most `max(capacity, 1)`
      reach the handler and the warning is sent at most once (never when the capacity
      is below 1). */
  lemma WindowAdmitsAtMostCapacity(entry: Option<CacheEntry>, times: seq<int>, timeframe: int, capacity: int)
    requires times != []
    requires WindowOver(Lookup(entry, times[0]), times[0], timeframe)
    requires forall i :: 0 <= i < |times| ==> times[0] <= times[i] < times[0] + timeframe
    ensures var r := Run(entry, times, timeframe, capacity);
      r.1 == Min(|times|, Max(capacity, 1)) &&
      r.2 == (if capacity >= 1 && |times| > capacity then 1 else 0)
  {
    var t0 := times[0];
    assert Step(entry, t0, timeframe, capacity).0 == Some(CacheEntry(ThrottledUserData(t0, 1), t0 + timeframe));
    assert forall i :: 0 <= i < |times[1..]| ==> t0 <= times[1..][i] < t0 + timeframe by {
      forall i | 0 <= i < |times[1..]| ensures t0 <= times[1..][i] < t0 + timeframe {
        assert times[1..][i] == times[i + 1];
      }
    }
    WindowCounts(t0, 1, t0 + timeframe, times[1..], timeframe, capacity);
  }

  class ThrottlingMiddleware {
    const timeframe: int
    const capacity: int
    var throttleCache: map<int, CacheEntry>

    ghost predicate Valid()
      reads this
    {
      forall u :: u in throttleCache ==> EntryValid(throttleCache[u], timeframe)
    }

    /** The monotonic clock has not gone back behind any stored window start. */
    ghost predicate NotBefore(now: int)
      reads this
    {
      forall u :: u in throttleCache ==> throttleCache[u].data.startTime <= now
    }

    constructor(timeframe: int := 60, capacity: int := 20)
      ensures this.timeframe == timeframe && this.capacity == capacity
      ensures throttleCache == map[]
      ensures Valid()
    {
      this.timeframe := timeframe;
      this.capacity := capacity;
      throttleCache := map[];
    }

    /** `__call__`: `handled` says whether the wrapped handler runs, `warned` whether
        the "slow down" answer is sent. Only the caller's slot can change. */
    method Call(userId: int, now: int) returns (handled: bool, warned: bool)
      requires Valid() && NotBefore(now)
      modifies this
      ensures Valid() && NotBefore(now)
      ensures var s := Step(Get(old(throttleCache), userId), now, timeframe, capacity);
        handled == s.1.pass && warned == s.1.warn &&
        throttleCache == (if s.0.Some? then old(throttleCache)[userId := s.0.value] else old(throttleCache))
    {
      var throttled := Lookup(Get(throttleCache, userId), now);
      handled, warned := false, false;
      if throttled.Some? {
        var t := throttled.value;
        if t.startTime + timeframe > now {
          var reqNum := t.count + 1;
          if reqNum <= capacity {
            throttleCache := throttleCache[userId := CacheEntry(ThrottledUserData(t.startTime, reqNum), now + timeframe)];
            handled := true;
          } else if reqNum == capacity + 1 {
            throttleCache := throttleCache[userId := CacheEntry(ThrottledUserData(t.startTime, reqNum + 1), now + timeframe)];
            warned := true;
          }
        } else {
          throttleCache := throttleCache[userId := CacheEntry(ThrottledUserData(now, 1), now + timeframe)];
          handled := true;
        }
      } else {
        throttleCache := throttleCache[userId := CacheEntry(ThrottledUserData(now, 1), now + timeframe)];
        handled := true;
      }
    }
  }
}
