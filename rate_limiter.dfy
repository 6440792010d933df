/**
 * The per-API-key sliding-window rate limiter that runs before every controller call.
 *
 * Each API key owns a deque of admission instants in milliseconds, oldest first. A call
 * drops expired instants from the front of its key's deque and is admitted when fewer than
 * QuotaLimit instants remain; an admitted call appends its own instant at the back, a
 * rejected call leaves the pruned deque as it is and is answered with status 429.
 *
 * The decision for one key is specified by the functions Prune and Step; the class
 * RateLimiterInterceptor holds the registry of deques and changes it in place, and its
 * methods are proved to agree with those functions. The lemmas state what the limiter
 * guarantees over any sequence of calls.
 */
module RateLimiter {
  import opened Wrappers

  /** QUOTA_LIMIT: the most admissions a key may have inside one window. */
  const QuotaLimit: nat := 10

  /** TIME_WINDOW: ten seconds, in milliseconds. */
  const TimeWindow: int := 10000

  /** Status and body written on a rejected call. */
  const TooManyRequests: nat := 429
  const QuotaExceededMessage: string := "Quota exceeded. Try again later."

  /**
   * An admission instant `t` has left the window at `now` when it is strictly more than
   * TimeWindow ms old; an instant exactly TimeWindow ms old is still inside.
   */
  predicate Expired(t: int, now: int)
  {
    now - t > TimeWindow
  }

  ghost predicate Sorted(s: seq<int>)
  {
    forall i, j :: 0 <= i <= j < |s| ==> s[i] <= s[j]
  }

  /** No instant of `s` lies after `now`: the clock has not gone back behind any of them. */
  ghost predicate NotAfter(s: seq<int>, now: int)
  {
    forall i :: 0 <= i < |s| ==> s[i] <= now
  }

  function Repeat(t: int, n: nat): (r: seq<int>)
  {
    seq(n, _ => t)
  }

  // ---------------------------------------------------------------------------
  // The decision for one key, on the contents of its deque
  // ---------------------------------------------------------------------------

  /**
   * What the front-pruning loop leaves of a deque: no more than it had, every instant in
   * front of what is kept had expired, and the first kept instant (if any) has not.
   * PruneIsSuffix adds that what is kept is the deque's tail.
   */
  function Prune(window: seq<int>, now: int): (r: seq<int>)
    ensures |r| <= |window|
    ensures forall i :: 0 <= i < |window| - |r| ==> Expired(window[i], now)
    ensures r != [] ==> !Expired(r[0], now)
    decreases |window|
  {
    if window != [] && Expired(window[0], now) then Prune(window[1..], now) else window
  }

  /** Pruning removes a prefix and nothing else. */
  lemma {:induction false} PruneIsSuffix(window: seq<int>, now: int)
    ensures Prune(window, now) == window[|window| - |Prune(window, now)|..]
    decreases |window|
  {
    if window != [] && Expired(window[0], now) {
      PruneIsSuffix(window[1..], now);
    }
  }

  /** Outcome of one call for one key: whether it is admitted, and the key's deque afterwards. */
  datatype Decision = Decision(admitted: bool, window: seq<int>)

  /**
   * Prune, then admit and append `now` when fewer than QuotaLimit instants remain. An
   * admitted call leaves at most QuotaLimit instants, the last of them `now`; a rejected one
   * leaves at least QuotaLimit and does not record `now`.
   */
  function Step(window: seq<int>, now: int): (r: Decision)
    ensures |r.window| <= |window| + 1
    ensures r.admitted ==> 0 < |r.window| <= QuotaLimit && r.window[|r.window| - 1] == now
    ensures !r.admitted ==> QuotaLimit <= |r.window| <= |window|
  {
    var pruned := Prune(window, now);
    if |pruned| < QuotaLimit then Decision(true, pruned + [now]) else Decision(false, pruned)
  }

  /**
   * Reference definition, independent of the deque's order: the instants of `log` that are
   * still inside the window at `now`, in their original order.
   */
  function Recent(log: seq<int>, now: int): seq<int>
  {
    if log == [] then []
    else (if Expired(log[0], now) then [] else [log[0]]) + Recent(log[1..], now)
  }

  // ---------------------------------------------------------------------------
  // Lemmas about one call
  // ---------------------------------------------------------------------------

  lemma {:induction false} RecentOfUnexpired(s: seq<int>, now: int)
    requires forall i :: 0 <= i < |s| ==> !Expired(s[i], now)
    ensures Recent(s, now) == s
    decreases |s|
  {
    if s != [] {
      RecentOfUnexpired(s[1..], now);
      assert [s[0]] + s[1..] == s;
    }
  }

  /** On a sorted deque, pruning only from the front keeps exactly the unexpired instants. */
  lemma {:induction false} PruneIsRecent(window: seq<int>, now: int)
    requires Sorted(window)
    ensures Prune(window, now) == Recent(window, now)
    decreases |window|
  {
    if window != [] {
      if Expired(window[0], now) {
        PruneIsRecent(window[1..], now);
      } else {
        assert forall i :: 0 <= i < |window| ==> window[0] <= window[i];
        RecentOfUnexpired(window, now);
      }
    }
  }

  lemma {:induction false} RecentAppend(a: seq<int>, b: seq<int>, now: int)
    ensures Recent(a + b, now) == Recent(a, now) + Recent(b, now)
    decreases |a|
  {
    if a == [] {
      assert a + b == b;
    } else {
      RecentAppend(a[1..], b, now);
      assert (a + b)[0] == a[0];
      assert (a + b)[1..] == a[1..] + b;
    }
  }

  lemma RecentCons(x: int, s: seq<int>, now: int)
    ensures Recent([x] + s, now) == (if Expired(x, now) then [] else [x]) + Recent(s, now)
  {
  }

  /** Taking the window again at a later instant is the same as taking it once, at that instant. */
  lemma {:induction false} RecentLater(log: seq<int>, last: int, now: int)
    requires last <= now
    ensures Recent(Recent(log, last), now) == Recent(log, now)
    decreases |log|
  {
    if log != [] {
      RecentLater(log[1..], last, now);
      var rest := Recent(log[1..], last);
      assert log == [log[0]] + log[1..];
      RecentCons(log[0], log[1..], last);
      RecentCons(log[0], log[1..], now);
      if !Expired(log[0], last) {
        RecentCons(log[0], rest, now);
      } else {
        assert [] + rest == rest;
      }
    }
  }

  lemma {:induction false} RecentShorter(log: seq<int>, now: int)
    ensures |Recent(log, now)| <= |log|
    decreases |log|
  {
    if log != [] {
      RecentShorter(log[1..], now);
    }
  }

  /** A deque within the quota stays within it, whatever the call's outcome. */
  lemma StepBounded(window: seq<int>, now: int)
    requires |window| <= QuotaLimit
    ensures |Step(window, now).window| <= QuotaLimit
  {
  }

  /**
   * The call is admitted iff fewer than QuotaLimit instants of the (sorted) deque are inside
   * the window; the new deque is those instants, followed by `now` exactly when admitted.
   */
  lemma StepAgainstRecent(window: seq<int>, now: int)
    requires Sorted(window)
    ensures Step(window, now).admitted <==> |Recent(window, now)| < QuotaLimit
    ensures Step(window, now).window
            == Recent(window, now) + (if Step(window, now).admitted then [now] else [])
  {
    PruneIsRecent(window, now);
  }

  /** With a clock that does not go back, a sorted deque stays sorted: why pruning from the front suffices. */
  lemma StepKeepsOrder(window: seq<int>, now: int)
    requires Sorted(window) && NotAfter(window, now)
    ensures Sorted(Step(window, now).window) && NotAfter(Step(window, now).window, now)
  {
    PruneIsSuffix(window, now);
    var pruned := Prune(window, now);
    assert forall i :: 0 <= i < |pruned| ==> pruned[i] == window[|window| - |pruned| + i];
  }

  /** After a call on a sorted deque, every instant kept lies in [now - TimeWindow, now]. */
  lemma StepWithinWindow(window: seq<int>, now: int)
    requires Sorted(window) && NotAfter(window, now)
    ensures forall i :: 0 <= i < |Step(window, now).window| ==>
              now - TimeWindow <= Step(window, now).window[i] <= now
  {
    PruneIsSuffix(window, now);
    var pruned := Prune(window, now);
    assert forall i :: 0 <= i < |pruned| ==> pruned[i] == window[|window| - |pruned| + i];
    assert pruned != [] ==> forall i :: 0 <= i < |pruned| ==> pruned[0] <= pruned[i];
  }

  /** A key's first call is always admitted and leaves a deque holding only its instant. */
  lemma FirstCallAdmitted(now: int)
    ensures Step([], now) == Decision(true, [now])
  {
  }

  /** Once every recorded instant has expired, a deque behaves exactly like a fresh one. */
  lemma ElapsedWindowActsFresh(window: seq<int>, now: int)
    requires forall i :: 0 <= i < |window| ==> Expired(window[i], now)
    ensures Step(window, now) == Step([], now)
  {
    PruneIsSuffix(window, now);
  }

  lemma {:induction false} PruneRepeat(t: int, n: nat, now: int)
    ensures Prune(Repeat(t, n), now) == if Expired(t, now) then [] else Repeat(t, n)
    decreases n
  {
    if n > 0 {
      assert Repeat(t, n)[1..] == Repeat(t, n - 1);
      PruneRepeat(t, n - 1, now);
    }
  }

  /** A full deque of instants `t` rejects a call at `now` until `t` has expired. */
  lemma WindowSlide(t: int, now: int)
    ensures Step(Repeat(t, QuotaLimit), now).admitted <==> Expired(t, now)
  {
  }

  /**
   * The boundary is inclusive: a call exactly TimeWindow ms after a full burst is still
   * rejected; one a millisecond later is admitted and finds every earlier instant gone.
   */
  lemma WindowBoundary(t: int)
    ensures !Step(Repeat(t, QuotaLimit), t + TimeWindow).admitted
    ensures Step(Repeat(t, QuotaLimit), t + TimeWindow + 1) == Decision(true, [t + TimeWindow + 1])
  {
    WindowSlide(t, t + TimeWindow);
    PruneRepeat(t, QuotaLimit, t + TimeWindow + 1);
  }

  // ---------------------------------------------------------------------------
  // Sequences of calls for one key
  // ---------------------------------------------------------------------------

  /** A key's deque after a run of calls, and the instants of the calls that were admitted. */
  datatype KeyRun = KeyRun(window: seq<int>, admissions: seq<int>)

  /** One more call at `now`: the deque steps, and `now` joins the admissions if admitted. */
  function StepRun(run: KeyRun, now: int): KeyRun
  {
    var d := Step(run.window, now);
    KeyRun(d.window, if d.admitted then run.admissions + [now] else run.admissions)
  }

  /** Calls at the instants `times`, in order, starting from the deque `window`. */
  function RunKey(window: seq<int>, times: seq<int>): KeyRun
    decreases |times|
  {
    if times == [] then KeyRun(window, [])
    else StepRun(RunKey(window, times[..|times| - 1]), times[|times| - 1])
  }

  /** Invariant: the deque size never exceeds QuotaLimit, across any run of calls. */
  lemma {:induction false} RunKeyBounded(window: seq<int>, times: seq<int>)
    requires |window| <= QuotaLimit
    ensures |RunKey(window, times).window| <= QuotaLimit
    decreases |times|
  {
    if times != [] {
      RunKeyBounded(window, times[..|times| - 1]);
      StepBounded(RunKey(window, times[..|times| - 1]).window, times[|times| - 1]);
    }
  }

  /**
   * The deque of a run holds exactly the admissions still inside the window at the latest
   * call `last`, and no admission lies after `last`.
   */
  ghost predicate Tracks(run: KeyRun, last: int)
  {
    Sorted(run.admissions) && NotAfter(run.admissions, last)
    && run.window == Recent(run.admissions, last)
  }

  lemma RecentOfSortedIsSuffix(log: seq<int>, now: int)
    requires Sorted(log)
    ensures Sorted(Recent(log, now))
  {
    PruneIsRecent(log, now);
    PruneIsSuffix(log, now);
    var r := Prune(log, now);
    assert forall i :: 0 <= i < |r| ==> r[i] == log[|log| - |r| + i];
  }

  lemma AppendKeepsOrder(s: seq<int>, now: int)
    requires Sorted(s) && NotAfter(s, now)
    ensures Sorted(s + [now]) && NotAfter(s + [now], now)
  {
  }

  /** One call with a clock that does not go back keeps a run's deque equal to its recent admissions. */
  lemma StepRunTracks(run: KeyRun, last: int, now: int)
    requires Tracks(run, last) && last <= now
    ensures Tracks(StepRun(run, now), now)
  {
    var adm := run.admissions;
    assert Prune(run.window, now) == Recent(adm, now) by {
      RecentOfSortedIsSuffix(adm, last);
      PruneIsRecent(run.window, now);
      RecentLater(adm, last, now);
    }
    if Step(run.window, now).admitted {
      assert Recent(adm + [now], now) == Recent(adm, now) + [now] by {
        RecentAppend(adm, [now], now);
        assert Recent([now], now) == [now];
      }
      AppendKeepsOrder(adm, now);
    }
  }

  /**
   * With a clock that does not go back, a fresh key's deque after any run of calls holds
   * exactly the admissions still inside the window at the latest call, in order.
   */
  lemma {:induction false} RunKeyTracksAdmissions(times: seq<int>)
    requires Sorted(times) && times != []
    ensures Tracks(RunKey([], times), times[|times| - 1])
    decreases |times|
  {
    var prefix := times[..|times| - 1];
    var now := times[|times| - 1];
    if prefix == [] {
      StepRunTracks(KeyRun([], []), now, now);
    } else {
      RunKeyTracksAdmissions(prefix);
      StepRunTracks(RunKey([], prefix), prefix[|prefix| - 1], now);
    }
  }

  /**
   * The sliding-window guarantee: with a clock that does not go back, at any instant `at`
   * not before the latest call, at most QuotaLimit admissions of a key lie in the closed
   * interval [at - TimeWindow, at].
   */
  lemma SlidingWindowQuota(times: seq<int>, at: int)
    requires Sorted(times) && times != [] && times[|times| - 1] <= at
    ensures |Recent(RunKey([], times).admissions, at)| <= QuotaLimit
  {
    var run := RunKey([], times);
    var last := times[|times| - 1];
    RunKeyTracksAdmissions(times);
    RunKeyBounded([], times);
    RecentLater(run.admissions, last, at);
    RecentShorter(run.window, at);
  }

  /**
   * Later calls never revise earlier admissions: the admissions of the first `k` calls are a
   * prefix of those of the whole run. With SlidingWindowQuota applied to `times[..k]`, this
   * bounds the admissions in the window ending at any instant at or after the k-th call.
   */
  lemma {:induction false} RunKeyPrefix(window: seq<int>, times: seq<int>, k: nat)
    requires k <= |times|
    ensures RunKey(window, times[..k]).admissions <= RunKey(window, times).admissions
    decreases |times|
  {
    if k == |times| {
      assert times[..k] == times;
    } else {
      var prefix := times[..|times| - 1];
      assert times[..k] == prefix[..k];
      RunKeyPrefix(window, prefix, k);
    }
  }

  /** QuotaLimit calls at one instant on a fresh key are all admitted. */
  lemma {:induction false} BurstWithinQuota(t: int, n: nat)
    requires n <= QuotaLimit
    ensures RunKey([], Repeat(t, n)) == KeyRun(Repeat(t, n), Repeat(t, n))
    decreases n
  {
    if n > 0 {
      var before := RunKey([], Repeat(t, n - 1));
      assert before == KeyRun(Repeat(t, n - 1), Repeat(t, n - 1)) by {
        assert Repeat(t, n)[..n - 1] == Repeat(t, n - 1);
        BurstWithinQuota(t, n - 1);
      }
      assert Step(before.window, t) == Decision(true, Repeat(t, n)) by {
        PruneRepeat(t, n - 1, t);
        assert Repeat(t, n - 1) + [t] == Repeat(t, n);
      }
      assert Repeat(t, n)[..n - 1] == Repeat(t, n - 1);
    }
  }

  /** Of QuotaLimit + 1 calls at one instant on a fresh key, exactly the first QuotaLimit are admitted. */
  lemma QuotaBurst(t: int)
    ensures RunKey([], Repeat(t, QuotaLimit + 1)).admissions == Repeat(t, QuotaLimit)
  {
    assert Repeat(t, QuotaLimit + 1)[..QuotaLimit] == Repeat(t, QuotaLimit);
    BurstWithinQuota(t, QuotaLimit);
    WindowSlide(t, t);
  }

  // ---------------------------------------------------------------------------
  // The registry of all keys
  // ---------------------------------------------------------------------------

  /** The deque of `key`; a key never seen behaves as one with an empty deque. */
  function WindowOf(m: map<string, seq<int>>, key: string): seq<int>
  {
    if key in m then m[key] else []
  }

  /** Every deque is within the quota. */
  ghost predicate Bounded(m: map<string, seq<int>>)
  {
    forall k :: k in m ==> |m[k]| <= QuotaLimit
  }

  /** Every deque is sorted and holds no instant after `now`. */
  ghost predicate Ordered(m: map<string, seq<int>>, now: int)
  {
    forall k :: k in m ==> Sorted(m[k]) && NotAfter(m[k], now)
  }

  /** One request reaching the interceptor: its `x-api-key` header (absent or a value) and its instant. */
  datatype Call = Call(headerApiKey: Option<string>, now: int)

  /**
   * The registry after one call: unchanged without a header key, else the key's deque steps.
   * No key is ever removed, and only the header's key can be added or changed.
   */
  function Handle(m: map<string, seq<int>>, call: Call): (r: map<string, seq<int>>)
    ensures call.headerApiKey.None? ==> r == m
    ensures call.headerApiKey.Some? ==> r.Keys == m.Keys + {call.headerApiKey.value}
    ensures forall k :: k in m && Some(k) != call.headerApiKey ==> r[k] == m[k]
  {
    match call.headerApiKey
    case None => m
    case Some(key) => m[key := Step(WindowOf(m, key), call.now).window]
  }

  /** The registry after a sequence of calls, in order. */
  function Replay(m: map<string, seq<int>>, calls: seq<Call>): map<string, seq<int>>
    decreases |calls|
  {
    if calls == [] then m else Handle(Replay(m, calls[..|calls| - 1]), calls[|calls| - 1])
  }

  /** The instants of the calls, in `calls`, that carry `key` in their header. */
  function KeyTimes(calls: seq<Call>, key: string): seq<int>
    decreases |calls|
  {
    if calls == [] then []
    else
      var c := calls[|calls| - 1];
      KeyTimes(calls[..|calls| - 1], key) + (if c.headerApiKey == Some(key) then [c.now] else [])
  }

  function CallTimes(calls: seq<Call>): seq<int>
  {
    seq(|calls|, i requires 0 <= i < |calls| => calls[i].now)
  }

  /** Invariant: every deque stays within QuotaLimit across any sequence of calls. */
  lemma {:induction false} ReplayBounded(m: map<string, seq<int>>, calls: seq<Call>)
    requires Bounded(m)
    ensures Bounded(Replay(m, calls))
    decreases |calls|
  {
    if calls != [] {
      var before := Replay(m, calls[..|calls| - 1]);
      ReplayBounded(m, calls[..|calls| - 1]);
      var c := calls[|calls| - 1];
      if c.headerApiKey.Some? {
        StepBounded(WindowOf(before, c.headerApiKey.value), c.now);
      }
    }
  }

  /**
   * Per-key isolation: a key's deque after any sequence of calls depends only on its own
   * deque and the instants of the calls carrying that key.
   */
  lemma {:induction false} ReplayIsolation(m: map<string, seq<int>>, calls: seq<Call>, key: string)
    ensures WindowOf(Replay(m, calls), key) == RunKey(WindowOf(m, key), KeyTimes(calls, key)).window
    decreases |calls|
  {
    if calls != [] {
      var prefix := calls[..|calls| - 1];
      ReplayIsolation(m, prefix, key);
      var c := calls[|calls| - 1];
      var times := KeyTimes(calls, key);
      if c.headerApiKey == Some(key) {
        assert times[..|times| - 1] == KeyTimes(prefix, key);
      } else {
        assert times == KeyTimes(prefix, key);
      }
    }
  }

  /** A key no call carries is neither created nor changed. */
  lemma {:induction false} ReplayUntouched(m: map<string, seq<int>>, calls: seq<Call>, key: string)
    requires KeyTimes(calls, key) == []
    ensures key in Replay(m, calls) <==> key in m
    ensures key in m ==> Replay(m, calls)[key] == m[key]
    decreases |calls|
  {
    if calls != [] {
      ReplayUntouched(m, calls[..|calls| - 1], key);
    }
  }

  lemma UpdateBounded(m: map<string, seq<int>>, key: string, window: seq<int>)
    requires Bounded(m) && |window| <= QuotaLimit
    ensures Bounded(m[key := window])
  {
  }

  lemma UpdateOrdered(m: map<string, seq<int>>, key: string, window: seq<int>, now: int)
    requires Ordered(m, now) && Sorted(window) && NotAfter(window, now)
    ensures Ordered(m[key := window], now)
  {
  }

  /** One call with a non-decreasing clock keeps every deque sorted. */
  lemma HandleKeepsOrder(m: map<string, seq<int>>, last: int, call: Call)
    requires Ordered(m, last) && last <= call.now
    ensures Ordered(Handle(m, call), call.now)
  {
    if call.headerApiKey.Some? {
      var key := call.headerApiKey.value;
      StepKeepsOrder(WindowOf(m, key), call.now);
    }
  }

  /** Invariant: with a clock that does not go back, every deque stays sorted across any sequence of calls. */
  lemma {:induction false} ReplayKeepsOrder(m: map<string, seq<int>>, start: int, calls: seq<Call>)
    requires Ordered(m, start)
    requires Sorted([start] + CallTimes(calls))
    ensures Ordered(Replay(m, calls), if calls == [] then start else calls[|calls| - 1].now)
    decreases |calls|
  {
    if calls != [] {
      var prefix := calls[..|calls| - 1];
      var times := [start] + CallTimes(calls);
      var ptimes := [start] + CallTimes(prefix);
      assert forall i :: 0 <= i < |ptimes| ==> ptimes[i] == times[i];
      ReplayKeepsOrder(m, start, prefix);
      var last := if prefix == [] then start else prefix[|prefix| - 1].now;
      assert last == times[|times| - 2] && calls[|calls| - 1].now == times[|times| - 1];
      HandleKeepsOrder(Replay(m, prefix), last, calls[|calls| - 1]);
    }
  }

  // ---------------------------------------------------------------------------
  // The interceptor
  // ---------------------------------------------------------------------------

  /** What preHandle tells the framework: go on to the controller, or stop with this status and body. */
  datatype Outcome = Proceed | Rejected(status: nat, body: string)

  class RateLimiterInterceptor {
    /** requestTimestamps: each API key's deque of admission instants, oldest first. */
    var requestTimestamps: map<string, seq<int>>

    ghost predicate Valid()
      reads this
    {
      Bounded(requestTimestamps)
    }

    constructor ()
      ensures Valid() && requestTimestamps == map[]
    {
      requestTimestamps := map[];
    }

    /**
     * The admission decision for `apiKey` at `now`: creates the key's deque if absent,
     * prunes it from the front, then admits and appends `now` iff fewer than QuotaLimit
     * instants remain. No other key's deque changes.
     */
    method TryAcquire(apiKey: string, now: int) returns (admitted: bool)
      requires Valid()
      modifies this
      ensures Valid()
      ensures var d := Step(WindowOf(old(requestTimestamps), apiKey), now);
              admitted == d.admitted && requestTimestamps == old(requestTimestamps)[apiKey := d.window]
      ensures Ordered(old(requestTimestamps), now) ==> Ordered(requestTimestamps, now)
    {
      if apiKey !in requestTimestamps {
        requestTimestamps := requestTimestamps[apiKey := []];
      }
      // `timestamps` stands for the deque object the map holds for the key: the calls of
      // one key are serialised, so updating it and storing it back at the end is the same
      // as updating it inside the map.
      var timestamps := requestTimestamps[apiKey];
      while timestamps != [] && now - timestamps[0] > TimeWindow
        invariant Prune(timestamps, now) == Prune(WindowOf(old(requestTimestamps), apiKey), now)
        decreases |timestamps|
      {
        timestamps := timestamps[1..];
      }
      assert timestamps == Prune(WindowOf(old(requestTimestamps), apiKey), now);
      if |timestamps| < QuotaLimit {
        timestamps := timestamps + [now];
        admitted := true;
      } else {
        admitted := false;
      }
      ghost var was := old(requestTimestamps);
      ghost var before := WindowOf(was, apiKey);
      assert Step(before, now) == Decision(admitted, timestamps);
      StepBounded(before, now);
      UpdateBounded(was, apiKey, timestamps);
      if Ordered(was, now) {
        StepKeepsOrder(before, now);
        UpdateOrdered(was, apiKey, timestamps, now);
      }
      requestTimestamps := requestTimestamps[apiKey := timestamps];
    }

    /**
     * preHandle: a request without an `x-api-key` header passes untouched (the `apikey`
     * query parameter is never rate-limited); otherwise the call goes through TryAcquire
     * and a rejection becomes status 429 with a fixed body.
     */
    method PreHandle(headerApiKey: Option<string>, now: int) returns (outcome: Outcome)
      requires Valid()
      modifies this
      ensures Valid()
      ensures requestTimestamps == Handle(old(requestTimestamps), Call(headerApiKey, now))
      ensures headerApiKey.None? ==> outcome == Proceed
      ensures headerApiKey.Some? ==>
                (outcome == Proceed <==> Step(WindowOf(old(requestTimestamps), headerApiKey.value), now).admitted)
      ensures outcome == Proceed || outcome == Rejected(TooManyRequests, QuotaExceededMessage)
    {
      if headerApiKey.None? {
        return Proceed;
      }
      var admitted := TryAcquire(headerApiKey.value, now);
      if admitted {
        outcome := Proceed;
      } else {
        outcome := Rejected(TooManyRequests, QuotaExceededMessage);
      }
    }
  }
}
