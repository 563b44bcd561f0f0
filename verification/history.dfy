/**
  The in-memory message history: a map from message id to what was last
  seen of that message, plus the time of the last retention sweep.

  Timestamps are whole seconds.  The source stores each timestamp as a
  'YYYY-MM-DD HH:MM:SS' string and parses it back during the sweep; a
  string that does not parse is represented here by `None`.
 */
module History {
  import opened Base

  /** `timedelta(hours=5)`: entries older than this are swept away. */
  const RetentionSeconds: int := 5 * 60 * 60

  /** The sweep runs at most once per this many seconds. */
  const SweepIntervalSeconds: int := 3600

  /** One cached message.  `Current` is the `(date, text, username)` tuple
      every handler writes; `Legacy` is the older `(date, text)` tuple the
      handlers still accept when they read. */
  datatype Entry =
    | Current(stamp: Option<int>, text: string, sender: Option<string>)
    | Legacy(stamp: Option<int>, text: string)
  {
    /** The sender label a reader recovers: none for a legacy tuple. */
    function Label(): Option<string> {
      if Current? then sender else None
    }
  }

  /** The cache together with the sweep's memory of when it last ran. */
  datatype Monitor = Monitor(history: map<int, Entry>, lastSweep: Option<int>)

  /** The state of a freshly started process. */
  const Initial: Monitor := Monitor(map[], None)

  /** An entry the sweep at `now` removes: its date parses and lies strictly
      before `now` minus the retention window. */
  predicate Expired(e: Entry, now: int) {
    e.stamp.Some? && e.stamp.value < now - RetentionSeconds
  }

  /** The throttle: a sweep is due on the first call and whenever at least an
      hour has passed since the last one that ran. */
  predicate SweepDue(lastSweep: Option<int>, now: int) {
    lastSweep.None? || now - lastSweep.value >= SweepIntervalSeconds
  }

  /** The entries of `h` that a sweep at `now` keeps. */
  function Survivors(h: map<int, Entry>, now: int): map<int, Entry> {
    map id | id in h && !Expired(h[id], now) :: h[id]
  }

  /** The throttled retention sweep (`cleanup_old_messages`). */
  function Sweep(m: Monitor, now: int): (r: Monitor)
    ensures !SweepDue(m.lastSweep, now) ==> r == m
    ensures SweepDue(m.lastSweep, now) ==> r.lastSweep == Some(now)
    ensures r.history.Keys <= m.history.Keys
    ensures forall id :: id in r.history ==> r.history[id] == m.history[id]
    ensures SweepDue(m.lastSweep, now) ==>
              forall id :: id in m.history ==> (id in r.history <==> !Expired(m.history[id], now))
  {
    if SweepDue(m.lastSweep, now) then Monitor(Survivors(m.history, now), Some(now)) else m
  }

  /** One pass of the sweep as the source performs it: walk the cache in
      its iteration order `order`, collecting the ids of expired entries,
      then pop each of them.  It removes exactly the entries the functional
      `Sweep` drops, each id once. */
  method SweepPass(h: map<int, Entry>, order: seq<int>, now: int) returns (r: map<int, Entry>, removed: seq<int>)
    requires forall id :: id in order <==> id in h
    requires forall i, j :: 0 <= i < j < |order| ==> order[i] != order[j]
    ensures r == Survivors(h, now)
    ensures forall id :: id in removed <==> id in h && Expired(h[id], now)
    ensures forall i, j :: 0 <= i < j < |removed| ==> removed[i] != removed[j]
  {
    removed := [];
    var k := 0;
    while k < |order|
      invariant 0 <= k <= |order|
      invariant forall id :: id in removed <==> id in order[..k] && Expired(h[id], now)
      invariant forall i, j :: 0 <= i < j < |removed| ==> removed[i] != removed[j]
    {
      var id := order[k];
      assert id !in order[..k];
      if Expired(h[id], now) {
        removed := removed + [id];
      }
      assert order[..k + 1] == order[..k] + [id];
      k := k + 1;
    }
    assert order[..k] == order;
    r := h;
    var i := 0;
    while i < |removed|
      invariant 0 <= i <= |removed|
      invariant r.Keys <= h.Keys
      invariant forall id :: id in h ==> (id in r <==> id !in removed[..i])
      invariant forall id :: id in r ==> r[id] == h[id]
    {
      r := r - {removed[i]};
      i := i + 1;
    }
    assert removed[..i] == removed;
    forall id | id in h
      ensures id in r <==> !Expired(h[id], now)
    {
      assert id in order;
    }
    var kept := Survivors(h, now);
    assert r.Keys == kept.Keys;
    assert forall id :: id in r ==> r[id] == kept[id];
  }

  /** Once the sweep has run at `now`, every later call within the hour is a
      no-op: the throttle holds. */
  lemma SweepThrottled(m: Monitor, now: int, later: int)
    requires SweepDue(m.lastSweep, now)
    requires now <= later < now + SweepIntervalSeconds
    ensures Sweep(Sweep(m, now), later) == Sweep(m, now)
  {
  }

  /** Sweeping twice at the same moment is sweeping once. */
  lemma SweepIdempotent(m: Monitor, now: int)
    ensures Sweep(Sweep(m, now), now) == Sweep(m, now)
  {
  }
}
