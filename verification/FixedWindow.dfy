/** The mailbox's fixed-window rate limiter: 60-second windows, pruned when the map grows large. */
module FixedWindow {
  import opened Wrappers
  import opened MachineInts
  import opened Text

  const WINDOW: nat := 60
  const KEEP: nat := 120
  const PRUNE_ABOVE: nat := 50_000

  datatype Counter = Counter(startedAt: u64, count: nat)

  type Counters = map<string, Counter>

  predicate Limited(key: string, limit: u32) {
    limit != 0 && Trim(key) != []
  }

  /** A call is limited exactly for a positive limit and a key with a character that is no blank. */
  lemma LimitedIff(key: string, limit: u32)
    ensures Limited(key, limit) <==> 1 <= limit && HasNonBlank(key)
  {
    TrimLeavesIff(key);
  }

  /** The counter a call at `now` works on: created if missing, restarted if its window is over. */
  function Current(m: Counters, key: string, now: u64): Counter {
    if key in m && SatSubU64(now, m[key].startedAt) < WINDOW then m[key] else Counter(now, 0)
  }

  function Retain(m: Counters, now: u64): Counters {
    map k | k in m && SatSubU64(now, m[k].startedAt) < KEEP :: m[k]
  }

  /** The counters after a call, before any pruning. */
  function Counted(m: Counters, key: string, limit: u32, now: u64): Counters {
    var c := Current(m, key, now);
    if !Limited(key, limit) then m
    else m[key := if c.count >= limit then c else c.(count := c.count + 1)]
  }

  /** None admits the call; Some(r) refuses it and asks to retry after r seconds. */
  function Verdict(m: Counters, key: string, limit: u32, now: u64): Option<nat> {
    var c := Current(m, key, now);
    if Limited(key, limit) && c.count >= limit
    then Some(WINDOW - Min(SatSubU64(now, c.startedAt), WINDOW)) else None
  }

  function Check(m: Counters, key: string, limit: u32, now: u64): Counters {
    var m' := Counted(m, key, limit, now);
    if Limited(key, limit) && Verdict(m, key, limit, now).None? && |m'| > PRUNE_ABOVE then Retain(m', now) else m'
  }

  class FixedWindowLimiter {
    var inner: Counters

    constructor ()
      ensures inner == map[]
    {
      inner := map[];
    }

    method CheckCall(key: string, limitPerMin: u32, now: u64) returns (retryAfter: Option<nat>)
      modifies this
      ensures inner == Check(old(inner), key, limitPerMin, now)
      ensures retryAfter == Verdict(old(inner), key, limitPerMin, now)
      ensures limitPerMin == 0 || !HasNonBlank(key) ==> retryAfter == None && inner == old(inner)
      ensures inner != old(inner) && retryAfter == None ==>
                |inner| <= 50_000 || forall k :: k in inner ==> SatSubU64(now, inner[k].startedAt) < 120
    {
      LimitedIff(key, limitPerMin);
      hide Trim, HasNonBlank;
      if limitPerMin == 0 || Trim(key) == [] {
        return None;
      }
      var counter := if key in inner then inner[key] else Counter(now, 0);
      if SatSubU64(now, counter.startedAt) >= WINDOW {
        counter := Counter(now, 0);
      }
      if counter.count >= limitPerMin {
        inner := inner[key := counter];
        var elapsed := Min(SatSubU64(now, counter.startedAt), WINDOW);
        return Some(WINDOW - elapsed);
      }
      counter := counter.(count := counter.count + 1);
      inner := inner[key := counter];
      if |inner| > PRUNE_ABOVE {
        inner := Retain(inner, now);
      }
      return None;
    }
  }

  // ---- runs ----

  datatype Call = Call(key: string, limit: u32, now: u64)

  /** A run from the empty limiter. */
  ghost predicate Run(ms: seq<Counters>, calls: seq<Call>) {
    && |ms| == |calls| + 1 && ms[0] == map[]
    && forall i :: 0 <= i < |calls| ==> ms[i + 1] == Check(ms[i], calls[i].key, calls[i].limit, calls[i].now)
  }

  /** The same calls on a limiter that never forgets a counter. */
  ghost predicate ReferenceRun(rs: seq<Counters>, calls: seq<Call>) {
    && |rs| == |calls| + 1 && rs[0] == map[]
    && forall i :: 0 <= i < |calls| ==> rs[i + 1] == Counted(rs[i], calls[i].key, calls[i].limit, calls[i].now)
  }

  ghost predicate SteadyClock(calls: seq<Call>) {
    forall i, j :: 0 <= i <= j < |calls| ==> calls[i].now <= calls[j].now
  }

  ghost predicate FixedLimit(calls: seq<Call>, limit: u32) {
    forall i :: 0 <= i < |calls| ==> calls[i].limit == limit
  }

  predicate Admitted(m: Counters, call: Call) {
    Verdict(m, call.key, call.limit, call.now).None?
  }

  /** No call so far is later than `now`. */
  ghost predicate ReachedBy(calls: seq<Call>, n: nat, now: u64)
    requires n <= |calls|
  {
    forall i :: 0 <= i < n ==> calls[i].now <= now
  }

  // ---- pruning is invisible ----

  /** What the limiter may have forgotten is over for every clock from `now` on. */
  ghost predicate Forgot(m: Counters, r: Counters, now: u64) {
    && (forall k :: k in m ==> k in r && m[k] == r[k])
    && (forall k :: k in r ==> r[k].startedAt <= now)
    && (forall k :: k in r && k !in m ==> KEEP <= now - r[k].startedAt)
  }

  lemma CheckKeepsForgot(m: Counters, r: Counters, call: Call)
    requires Forgot(m, r, call.now)
    ensures Verdict(m, call.key, call.limit, call.now) == Verdict(r, call.key, call.limit, call.now)
    ensures Forgot(Check(m, call.key, call.limit, call.now), Counted(r, call.key, call.limit, call.now), call.now)
  {
    hide Forgot, Retain, Counted, Limited;
    SameCounter(m, r, call.key, call.now);
    CountedKeepsForgot(m, r, call);
    RetainKeepsForgot(Counted(m, call.key, call.limit, call.now), Counted(r, call.key, call.limit, call.now), call.now);
  }

  lemma SameCounter(m: Counters, r: Counters, key: string, now: u64)
    requires Forgot(m, r, now)
    ensures Current(m, key, now) == Current(r, key, now)
  {
  }

  lemma CountedKeepsForgot(m: Counters, r: Counters, call: Call)
    requires Forgot(m, r, call.now)
    ensures Forgot(Counted(m, call.key, call.limit, call.now), Counted(r, call.key, call.limit, call.now), call.now)
  {
    hide Limited;
    SameCounter(m, r, call.key, call.now);
  }

  lemma RetainKeepsForgot(m: Counters, r: Counters, now: u64)
    requires Forgot(m, r, now)
    ensures Forgot(Retain(m, now), r, now)
  {
  }

  lemma {:induction false} ForgotAt(ms: seq<Counters>, rs: seq<Counters>, calls: seq<Call>, n: nat, now: u64)
    requires Run(ms, calls) && ReferenceRun(rs, calls) && SteadyClock(calls)
    requires n <= |calls| && ReachedBy(calls, n, now)
    ensures Forgot(ms[n], rs[n], now)
  {
    hide Check, Counted, Verdict;
    if 0 < n {
      var c := calls[n - 1];
      assert ReachedBy(calls, n - 1, c.now);
      ForgotAt(ms, rs, calls, n - 1, c.now);
      assert ms[n - 1 + 1] == Check(ms[n - 1], c.key, c.limit, c.now);
      assert rs[n - 1 + 1] == Counted(rs[n - 1], c.key, c.limit, c.now);
      CheckKeepsForgot(ms[n - 1], rs[n - 1], c);
    }
  }

  /** With a non-decreasing clock the limiter answers every call of every run like one that never prunes. */
  lemma {:induction false} PruningInvisible(ms: seq<Counters>, rs: seq<Counters>, calls: seq<Call>, i: nat)
    requires Run(ms, calls) && ReferenceRun(rs, calls) && SteadyClock(calls) && i < |calls|
    ensures Verdict(ms[i], calls[i].key, calls[i].limit, calls[i].now)
         == Verdict(rs[i], calls[i].key, calls[i].limit, calls[i].now)
  {
    hide Check, Counted, Verdict;
    assert ReachedBy(calls, i, calls[i].now);
    ForgotAt(ms, rs, calls, i, calls[i].now);
    CheckKeepsForgot(ms[i], rs[i], calls[i]);
  }

  lemma {:induction false} ReferenceExists(calls: seq<Call>) returns (rs: seq<Counters>)
    ensures ReferenceRun(rs, calls)
  {
    if calls == [] {
      rs := [map[]];
    } else {
      var n := |calls| - 1;
      var init := ReferenceExists(calls[..n]);
      var c := calls[n];
      rs := init + [Counted(init[n], c.key, c.limit, c.now)];
      forall i | 0 <= i < |calls|
        ensures rs[i + 1] == Counted(rs[i], calls[i].key, calls[i].limit, calls[i].now)
      {
        if i < n {
          assert calls[..n][i] == calls[i];
        }
      }
    }
  }

  // ---- how many calls get through ----

  /** Admitted calls of `key` among the first `n`, at clocks in [lo, lo + 60). */
  function AdmittedIn(ms: seq<Counters>, calls: seq<Call>, key: string, lo: int, n: nat): nat
    requires n <= |calls| < |ms|
  {
    if n == 0 then 0
    else
      var c := calls[n - 1];
      AdmittedIn(ms, calls, key, lo, n - 1)
      + (if c.key == key && lo <= c.now < lo + WINDOW && Admitted(ms[n - 1], c) then 1 else 0)
  }

  /** What the current counter says about the calls admitted in [lo, lo + 60). A window opens with an
      admitted call, so an interval that starts later misses at least that one. */
  predicate CounterBounds(c: Counter, limit: nat, lo: int, admitted: nat) {
    && 1 <= c.count <= limit
    && (c.startedAt + WINDOW <= lo ==> admitted == 0)
    && (c.startedAt < lo ==> admitted <= c.count - 1)
    && (c.startedAt == lo ==> admitted <= c.count)
    && (lo < c.startedAt < lo + WINDOW ==> admitted <= limit - 1 + c.count)
    && (lo + WINDOW <= c.startedAt ==> admitted <= 2 * limit - 1)
  }

  lemma CallKeepsBounds(c: Counter, limit: nat, lo: int, admitted: nat, now: nat)
    requires 1 <= limit && CounterBounds(c, limit, lo, admitted) && c.startedAt <= now <= U64_MAX
    ensures var d := if now - c.startedAt < WINDOW then c else Counter(now, 0);
            var hit := if lo <= now < lo + WINDOW then 1 else 0;
            if d.count >= limit then CounterBounds(d, limit, lo, admitted)
            else CounterBounds(d.(count := d.count + 1), limit, lo, admitted + hit)
  {
  }

  /** What the counters, if they hold `key`, say about its calls admitted so far, none later than `now`. */
  ghost predicate KeyBounds(m: Counters, key: string, limit: nat, lo: int, admitted: nat, now: u64) {
    if key in m then CounterBounds(m[key], limit, lo, admitted) && m[key].startedAt <= now else admitted == 0
  }

  lemma CallKeepsKeyBounds(m: Counters, key: string, limit: u32, lo: int, admitted: nat, c: Call)
    requires Limited(key, limit) && c.limit == limit && KeyBounds(m, key, limit, lo, admitted, c.now)
    ensures var hit := if c.key == key && lo <= c.now < lo + WINDOW && Admitted(m, c) then 1 else 0;
            KeyBounds(Counted(m, c.key, c.limit, c.now), key, limit, lo, admitted + hit, c.now)
  {
    if c.key == key && key in m {
      hide CounterBounds;
      CallKeepsBounds(m[key], limit, lo, admitted, c.now);
    }
  }

  lemma {:induction false} BoundsAt(
    rs: seq<Counters>, calls: seq<Call>, key: string, limit: u32, lo: int, n: nat, now: u64)
    requires ReferenceRun(rs, calls) && SteadyClock(calls) && FixedLimit(calls, limit) && Limited(key, limit)
    requires n <= |calls| && ReachedBy(calls, n, now)
    ensures KeyBounds(rs[n], key, limit, lo, AdmittedIn(rs, calls, key, lo, n), now)
  {
    hide Counted, Verdict, CounterBounds, Limited, Admitted;
    if 0 < n {
      var c := calls[n - 1];
      assert ReachedBy(calls, n - 1, c.now);
      BoundsAt(rs, calls, key, limit, lo, n - 1, c.now);
      assert rs[n - 1 + 1] == Counted(rs[n - 1], c.key, c.limit, c.now);
      CallKeepsKeyBounds(rs[n - 1], key, limit, lo, AdmittedIn(rs, calls, key, lo, n - 1), c);
    }
  }

  lemma {:induction false} SameAdmitted(ms: seq<Counters>, rs: seq<Counters>, calls: seq<Call>, key: string, lo: int, n: nat)
    requires Run(ms, calls) && ReferenceRun(rs, calls) && SteadyClock(calls) && n <= |calls|
    ensures AdmittedIn(ms, calls, key, lo, n) == AdmittedIn(rs, calls, key, lo, n)
  {
    hide Check, Counted, Verdict;
    if 0 < n {
      SameAdmitted(ms, rs, calls, key, lo, n - 1);
      PruningInvisible(ms, rs, calls, n - 1);
    }
  }

  /** With a non-decreasing clock and a fixed limit, fewer than twice the limit get through
      in any 60 seconds, wherever they start. */
  lemma {:induction false} SlidingBound(ms: seq<Counters>, calls: seq<Call>, key: string, limit: u32, lo: int, n: nat)
    requires Run(ms, calls) && SteadyClock(calls) && FixedLimit(calls, limit) && 1 <= limit && HasNonBlank(key) && n <= |calls|
    ensures AdmittedIn(ms, calls, key, lo, n) <= 2 * limit - 1
  {
    LimitedIff(key, limit);
    var rs := ReferenceExists(calls);
    SameAdmitted(ms, rs, calls, key, lo, n);
    BoundsAt(rs, calls, key, limit, lo, n, U64_MAX);
  }

  /** One admitted call on a single counter. */
  lemma SingleCounter(key: string, limit: u32, c: Counter, now: u64)
    requires Limited(key, limit) && c.startedAt <= now
    ensures var d := if now - c.startedAt < WINDOW then c else Counter(now, 0);
            d.count < limit ==>
              && Check(map[key := c], key, limit, now) == map[key := d.(count := d.count + 1)]
              && Admitted(map[key := c], Call(key, limit, now))
  {
  }

  lemma FirstCall(key: string, limit: u32)
    requires Limited(key, limit)
    ensures Check(map[], key, limit, 0) == map[key := Counter(0, 1)] && Admitted(map[], Call(key, limit, 0))
  {
  }

  /** One more call. */
  lemma Extend(ms: seq<Counters>, calls: seq<Call>, c: Call, lo: int) returns (ms': seq<Counters>, calls': seq<Call>)
    requires Run(ms, calls)
    ensures calls' == calls + [c] && |ms'| == |calls'| + 1 && Run(ms', calls')
    ensures ms'[|calls'|] == Check(ms[|calls|], c.key, c.limit, c.now)
    ensures AdmittedIn(ms', calls', c.key, lo, |calls'|) == AdmittedIn(ms, calls, c.key, lo, |calls|)
              + (if lo <= c.now < lo + WINDOW && Admitted(ms[|calls|], c) then 1 else 0)
  {
    hide Check, Admitted;
    ms', calls' := ms + [Check(ms[|calls|], c.key, c.limit, c.now)], calls + [c];
    forall i | 0 <= i < |calls'|
      ensures ms'[i + 1] == Check(ms'[i], calls'[i].key, calls'[i].limit, calls'[i].now)
    {
      if i < |calls| {
        assert ms'[i] == ms[i] && ms'[i + 1] == ms[i + 1] && calls'[i] == calls[i];
      }
    }
    SamePrefix(ms, calls, ms', calls', c.key, lo, |calls|);
  }

  lemma {:induction false} SamePrefix(
    ms: seq<Counters>, calls: seq<Call>, ms': seq<Counters>, calls': seq<Call>, key: string, lo: int, n: nat)
    requires n <= |calls| < |ms| && ms <= ms' && calls <= calls' && |calls'| < |ms'|
    ensures AdmittedIn(ms', calls', key, lo, n) == AdmittedIn(ms, calls, key, lo, n)
  {
    hide Admitted;
    if 0 < n {
      SamePrefix(ms, calls, ms', calls', key, lo, n - 1);
    }
  }

  /** The calls are in clock order, all of one key and limit, none after `now`. */
  ghost predicate Steady(calls: seq<Call>, key: string, limit: u32, now: u64) {
    && SteadyClock(calls) && FixedLimit(calls, limit)
    && forall i :: 0 <= i < |calls| ==> calls[i].key == key && calls[i].now <= now
  }

  lemma StaysSteady(calls: seq<Call>, key: string, limit: u32, now: u64)
    requires Steady(calls, key, limit, now)
    ensures Steady(calls + [Call(key, limit, now)], key, limit, now)
  {
  }

  /** A run of such calls that ends with counter `c` and has let `admitted` calls through in [lo, lo + 60). */
  ghost predicate Reached(
    ms: seq<Counters>, calls: seq<Call>, key: string, limit: u32, now: u64, c: Counter, lo: int, admitted: nat)
  {
    && Run(ms, calls) && Steady(calls, key, limit, now) && ms[|calls|] == map[key := c]
    && AdmittedIn(ms, calls, key, lo, |calls|) == admitted
  }

  lemma OneMore(
    ms: seq<Counters>, calls: seq<Call>, key: string, limit: u32, now: u64, c: Counter, lo: int, admitted: nat)
    returns (ms': seq<Counters>, calls': seq<Call>)
    requires Reached(ms, calls, key, limit, now, c, lo, admitted) && Limited(key, limit)
    requires c.startedAt <= now && lo <= now < lo + WINDOW
    requires c.startedAt + WINDOW <= now || c.count < limit
    ensures var d := if now - c.startedAt < WINDOW then c else Counter(now, 0);
            Reached(ms', calls', key, limit, now, d.(count := d.count + 1), lo, admitted + 1)
  {
    assert |ms| == |calls| + 1;
    hide Check, Admitted, Run, AdmittedIn, Steady;
    SingleCounter(key, limit, c, now);
    ms', calls' := Extend(ms, calls, Call(key, limit, now), lo);
    StaysSteady(calls, key, limit, now);
  }

  /** A burst of `k` admitted calls at `now` on a counter with room for them. */
  lemma {:induction false} Burst(
    ms: seq<Counters>, calls: seq<Call>, key: string, limit: u32, now: u64, c: Counter, lo: int, admitted: nat, k: nat)
    returns (ms': seq<Counters>, calls': seq<Call>)
    requires Reached(ms, calls, key, limit, now, c, lo, admitted) && Limited(key, limit)
    requires c.startedAt <= now < c.startedAt + WINDOW && c.count + k <= limit && lo <= now < lo + WINDOW
    ensures Reached(ms', calls', key, limit, now, c.(count := c.count + k), lo, admitted + k)
    decreases k
  {
    hide Reached, Limited;
    if k == 0 {
      ms', calls' := ms, calls;
    } else {
      var m1, c1 := OneMore(ms, calls, key, limit, now, c, lo, admitted);
      ms', calls' := Burst(m1, c1, key, limit, now, c.(count := c.count + 1), lo, admitted + 1, k - 1);
    }
  }

  /** A run stays one when the clock moves on. */
  lemma Later(
    ms: seq<Counters>, calls: seq<Call>, key: string, limit: u32, now: u64, c: Counter, lo: int, admitted: nat, later: u64)
    requires Reached(ms, calls, key, limit, now, c, lo, admitted) && now <= later
    ensures Reached(ms, calls, key, limit, later, c, lo, admitted)
  {
  }

  /** The bound is attained for every limit: one call at 0, the rest of that window's calls at 59 and a full
      window at 60 put 2 * limit - 1 calls into [59, 119). */
  lemma {:induction false} SlidingBoundAttained(key: string, limit: u32) returns (ms: seq<Counters>, calls: seq<Call>)
    requires 1 <= limit && HasNonBlank(key)
    ensures Run(ms, calls) && SteadyClock(calls) && FixedLimit(calls, limit)
    ensures AdmittedIn(ms, calls, key, 59, |calls|) == 2 * limit - 1
  {
    LimitedIff(key, limit);
    ms, calls := Opening(key, limit);
    hide Limited;
    ms, calls := Burst(ms, calls, key, limit, 59, Counter(0, 1), 59, 0, limit - 1);
    Later(ms, calls, key, limit, 59, Counter(0, limit), 59, limit - 1, 60);
    ms, calls := OneMore(ms, calls, key, limit, 60, Counter(0, limit), 59, limit - 1);
    ms, calls := Burst(ms, calls, key, limit, 60, Counter(60, 1), 59, limit, limit - 1);
  }

  lemma Opening(key: string, limit: u32) returns (ms: seq<Counters>, calls: seq<Call>)
    requires Limited(key, limit)
    ensures Reached(ms, calls, key, limit, 59, Counter(0, 1), 59, 0)
  {
    FirstCall(key, limit);
    hide Check, Admitted, Limited;
    ms, calls := Extend([map[]], [], Call(key, limit, 0), 59);
  }

  /** The counter is still in the window that started at `lo`, or that window is over. */
  ghost predicate WindowOf(c: Counter, limit: nat, lo: nat, admitted: nat) {
    || (c.startedAt == lo && admitted <= c.count <= limit)
    || (lo + WINDOW <= c.startedAt && admitted <= limit)
  }

  lemma CallKeepsWindow(m: Counters, key: string, limit: u32, lo: u64, admitted: nat, c: Call)
    requires Limited(key, limit) && c.limit == limit && key in m && m[key].startedAt <= c.now
    requires WindowOf(m[key], limit, lo, admitted)
    ensures var m' := Counted(m, c.key, c.limit, c.now);
            var hit := if c.key == key && lo <= c.now < lo + WINDOW && Admitted(m, c) then 1 else 0;
            key in m' && WindowOf(m'[key], limit, lo, admitted + hit)
  {
  }

  /** Once a window has started at `lo`, it admits at most the limit for the rest of the run. */
  lemma {:induction false} WindowStays(rs: seq<Counters>, calls: seq<Call>, key: string, limit: u32, i: nat, n: nat)
    requires ReferenceRun(rs, calls) && SteadyClock(calls) && FixedLimit(calls, limit) && Limited(key, limit)
    requires i <= n <= |calls| && key in rs[i]
    ensures key in rs[n]
    ensures var lo := rs[i][key].startedAt; WindowOf(rs[n][key], limit, lo, AdmittedIn(rs, calls, key, lo, n))
  {
    hide Counted, Limited, Admitted;
    var lo := rs[i][key].startedAt;
    if i == n {
      BoundsAt(rs, calls, key, limit, lo, n, U64_MAX);
    } else {
      var c := calls[n - 1];
      WindowStays(rs, calls, key, limit, i, n - 1);
      assert ReachedBy(calls, n - 1, c.now);
      BoundsAt(rs, calls, key, limit, lo, n - 1, c.now);
      assert rs[n - 1 + 1] == Counted(rs[n - 1], c.key, c.limit, c.now);
      CallKeepsWindow(rs[n - 1], key, limit, lo, AdmittedIn(rs, calls, key, lo, n - 1), c);
    }
  }

  /** At most the limit gets through in a window: a window starts with the admitted call `i` that
      finds no running window of its key. */
  lemma {:induction false} WindowBound(ms: seq<Counters>, calls: seq<Call>, key: string, limit: u32, i: nat, n: nat)
    requires Run(ms, calls) && SteadyClock(calls) && FixedLimit(calls, limit) && 1 <= limit && HasNonBlank(key)
    requires i < n <= |calls| && calls[i].key == key && Current(ms[i], key, calls[i].now) == Counter(calls[i].now, 0)
    ensures AdmittedIn(ms, calls, key, calls[i].now, n) <= limit
  {
    LimitedIff(key, limit);
    var rs := ReferenceExists(calls);
    SameAdmitted(ms, rs, calls, key, calls[i].now, n);
    assert ReachedBy(calls, i, calls[i].now);
    ForgotAt(ms, rs, calls, i, calls[i].now);
    assert rs[i + 1] == Counted(rs[i], key, calls[i].limit, calls[i].now);
    WindowStays(rs, calls, key, limit, i + 1, n);
  }

  /** A call without a limit, or with a blank key, is always admitted and not counted. */
  lemma UnlimitedIsAdmitted(m: Counters, call: Call)
    requires call.limit == 0 || !HasNonBlank(call.key)
    ensures Admitted(m, call) && Check(m, call.key, call.limit, call.now) == m
  {
    LimitedIff(call.key, call.limit);
  }

  // ---- refusals ----

  lemma {:induction false} RefusedCounterStays(
    rs: seq<Counters>, calls: seq<Call>, i: nat, j: nat, key: string, limit: u32)
    requires ReferenceRun(rs, calls) && SteadyClock(calls) && FixedLimit(calls, limit) && Limited(key, limit)
    requires i <= j <= |calls| && key in rs[i] && limit <= rs[i][key].count
    requires forall k :: i <= k < j && calls[k].key == key ==> calls[k].now < rs[i][key].startedAt + WINDOW
    ensures key in rs[j] && rs[j][key] == rs[i][key]
    decreases j
  {
    if i < j {
      RefusedCounterStays(rs, calls, i, j - 1, key, limit);
      var c := calls[j - 1];
      assert rs[j - 1 + 1] == Counted(rs[j - 1], c.key, c.limit, c.now);
    }
  }

  /** A refusal names a wait of 1 to 60 seconds: every call of the key before its end is refused, and the first one
      after it is admitted. */
  lemma {:induction false} RefusalEnds(ms: seq<Counters>, calls: seq<Call>, i: nat, j: nat, limit: u32)
    requires Run(ms, calls) && SteadyClock(calls) && FixedLimit(calls, limit) && i < |calls|
    requires !Admitted(ms[i], calls[i])
    ensures var r := Verdict(ms[i], calls[i].key, limit, calls[i].now).value;
            && 1 <= r <= WINDOW
            && (&& i < j < |calls| && calls[j].key == calls[i].key && calls[i].now + r <= calls[j].now
                && (forall k :: i < k < j && calls[k].key == calls[i].key ==> calls[k].now < calls[i].now + r)
                ==> Admitted(ms[j], calls[j]))
            && (i < j < |calls| && calls[j].key == calls[i].key && calls[j].now < calls[i].now + r ==>
                  !Admitted(ms[j], calls[j]))
  {
    var key := calls[i].key;
    var rs := ReferenceExists(calls);
    PruningInvisible(ms, rs, calls, i);
    assert ReachedBy(calls, i, calls[i].now);
    ForgotAt(ms, rs, calls, i, calls[i].now);
    assert rs[i + 1] == Counted(rs[i], key, limit, calls[i].now);
    var r := Verdict(ms[i], key, limit, calls[i].now).value;
    if && i < j < |calls| && calls[j].key == key && calls[i].now + r <= calls[j].now
       && (forall k :: i < k < j && calls[k].key == key ==> calls[k].now < calls[i].now + r) {
      PruningInvisible(ms, rs, calls, j);
      RefusedCounterStays(rs, calls, i + 1, j, key, limit);
    }
    if i < j < |calls| && calls[j].key == key && calls[j].now < calls[i].now + r {
      PruningInvisible(ms, rs, calls, j);
      RefusedCounterStays(rs, calls, i + 1, j, key, limit);
    }
  }
}
