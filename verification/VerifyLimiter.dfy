/** The signer's limiter on token verification: a bounded map that drops stale entries and evicts the oldest. */
module VerifyLimiter {
  import opened Wrappers
  import opened MachineInts
  import opened Sets

  datatype Entry = Entry(windowStart: u64, count: nat, lastSeen: u64)

  type Entries = map<string, Entry>

  datatype Config = Config(maxAttempts: nat, windowSecs: nat, maxKeys: nat)

  function NewConfig(maxAttempts: u32, windowSecs: u64, maxKeys: nat): Config {
    Config(Max(maxAttempts, 1), Max(windowSecs, 1), Max(maxKeys, 64))
  }

  predicate ValidConfig(cfg: Config) {
    1 <= cfg.maxAttempts && 1 <= cfg.windowSecs && 64 <= cfg.maxKeys
  }

  function Retain(m: Entries, cfg: Config, now: u64): Entries {
    map k | k in m && SatSubU64(now, m[k].lastSeen) < cfg.windowSecs :: m[k]
  }

  predicate Evicts(m: Entries, cfg: Config, key: string, now: u64) {
    key !in Retain(m, cfg, now) && |Retain(m, cfg, now)| >= cfg.maxKeys
  }

  predicate IsOldest(m: Entries, victim: string) {
    victim in m && forall k :: k in m ==> m[victim].lastSeen <= m[k].lastSeen
  }

  /** The entries a call works on: stale ones dropped, one evicted if there is no room for a new key. */
  function Roomy(m: Entries, cfg: Config, key: string, now: u64, victim: string): Entries {
    if Evicts(m, cfg, key, now) then Retain(m, cfg, now) - {victim} else Retain(m, cfg, now)
  }

  /** The entry of the key at `now`: created if missing, restarted if its window is over, marked as seen. */
  function Touched(m: Entries, cfg: Config, key: string, now: u64): Entry {
    if key in m && SatSubU64(now, m[key].windowStart) < cfg.windowSecs then m[key].(lastSeen := now)
    else Entry(now, 0, now)
  }

  predicate Allows(m: Entries, cfg: Config, key: string, now: u64) {
    Touched(m, cfg, key, now).count < cfg.maxAttempts
  }

  function Recorded(m: Entries, cfg: Config, key: string, now: u64): Entries {
    var e := Touched(m, cfg, key, now);
    m[key := if e.count >= cfg.maxAttempts then e else e.(count := e.count + 1)]
  }

  /** Scan for a key with the smallest `last_seen`; which of several is left to the map's order. */
  method OldestKey(entries: Entries) returns (oldest: Option<string>)
    ensures oldest.None? <==> entries == map[]
    ensures oldest.Some? ==> IsOldest(entries, oldest.value)
  {
    oldest := None;
    var rest := entries.Keys;
    while rest != {}
      invariant rest <= entries.Keys
      invariant oldest.None? ==> rest == entries.Keys
      invariant oldest.Some? ==> oldest.value in entries
      invariant oldest.Some? ==> forall k :: k in entries && k !in rest ==> entries[oldest.value].lastSeen <= entries[k].lastSeen
    {
      var key :| key in rest;
      if oldest.None? || entries[key].lastSeen < entries[oldest.value].lastSeen {
        oldest := Some(key);
      }
      rest := rest - {key};
    }
  }

  // ---- runs ----

  datatype Call = Call(key: string, now: u64, victim: string)

  ghost predicate Run(ms: seq<Entries>, calls: seq<Call>, cfg: Config) {
    && ValidConfig(cfg) && |ms| == |calls| + 1 && ms[0] == map[]
    && forall i :: 0 <= i < |calls| ==> Follows(ms[i], ms[i + 1], calls[i], cfg)
  }

  ghost predicate Follows(m: Entries, m': Entries, call: Call, cfg: Config) {
    && (Evicts(m, cfg, call.key, call.now) ==> IsOldest(Retain(m, cfg, call.now), call.victim))
    && m' == Recorded(Roomy(m, cfg, call.key, call.now, call.victim), cfg, call.key, call.now)
  }

  /** The same calls on a limiter that neither drops nor evicts. */
  ghost predicate ReferenceRun(rs: seq<Entries>, calls: seq<Call>, cfg: Config) {
    && |rs| == |calls| + 1 && rs[0] == map[]
    && forall i :: 0 <= i < |calls| ==> rs[i + 1] == Recorded(rs[i], cfg, calls[i].key, calls[i].now)
  }

  ghost predicate SteadyClock(calls: seq<Call>) {
    forall i, j :: 0 <= i <= j < |calls| ==> calls[i].now <= calls[j].now
  }

  /** Call `i` of a run is let through. */
  ghost predicate Allowed(m: Entries, call: Call, cfg: Config) {
    Allows(Roomy(m, cfg, call.key, call.now, call.victim), cfg, call.key, call.now)
  }

  // ---- the map is bounded ----

  lemma RetainSmaller(m: Entries, cfg: Config, now: u64)
    ensures |Retain(m, cfg, now)| <= |m|
  {
    assert Retain(m, cfg, now).Keys <= m.Keys;
    SubsetSize(Retain(m, cfg, now).Keys, m.Keys);
  }

  lemma RoomyHasRoom(m: Entries, cfg: Config, call: Call)
    requires ValidConfig(cfg) && |m| <= cfg.maxKeys
    requires Evicts(m, cfg, call.key, call.now) ==> call.victim in Retain(m, cfg, call.now)
    ensures var room := Roomy(m, cfg, call.key, call.now, call.victim);
            |room| <= cfg.maxKeys && (call.key !in room ==> |room| < cfg.maxKeys)
  {
    RetainSmaller(m, cfg, call.now);
    var kept := Retain(m, cfg, call.now);
    if Evicts(m, cfg, call.key, call.now) {
      assert (kept - {call.victim}).Keys == kept.Keys - {call.victim};
    }
  }

  lemma RecordedSize(m: Entries, cfg: Config, key: string, now: u64)
    ensures |Recorded(m, cfg, key, now)| == if key in m then |m| else |m| + 1
  {
    assert Recorded(m, cfg, key, now).Keys == m.Keys + {key};
  }

  /** In no run, whatever the clock does, are more than `max_keys` entries stored. */
  lemma {:induction false} NeverMoreThanMaxKeys(ms: seq<Entries>, calls: seq<Call>, cfg: Config, n: nat)
    requires Run(ms, calls, cfg) && n <= |calls|
    ensures |ms[n]| <= cfg.maxKeys
  {
    if 0 < n {
      NeverMoreThanMaxKeys(ms, calls, cfg, n - 1);
      var c := calls[n - 1];
      assert Follows(ms[n - 1], ms[n - 1 + 1], c, cfg);
      RoomyHasRoom(ms[n - 1], cfg, c);
      RecordedSize(Roomy(ms[n - 1], cfg, c.key, c.now, c.victim), cfg, c.key, c.now);
    }
  }

  // ---- dropping stale entries is invisible ----

  /** For key `k`, the limiter holds what the reference holds, or has dropped an entry that is over. */
  ghost predicate Faithful(m: Entries, r: Entries, k: string, cfg: Config, now: u64) {
    && (k in m ==> k in r && m[k] == r[k])
    && (k in r ==> r[k].windowStart <= r[k].lastSeen <= now)
    && (k in r && k !in m ==> cfg.windowSecs <= now - r[k].lastSeen)
  }

  lemma CallKeepsFaithful(m: Entries, r: Entries, k: string, call: Call, cfg: Config)
    requires ValidConfig(cfg) && Faithful(m, r, k, cfg, call.now)
    requires Evicts(m, cfg, call.key, call.now) ==> call.victim != k
    ensures Faithful(Recorded(Roomy(m, cfg, call.key, call.now, call.victim), cfg, call.key, call.now),
                     Recorded(r, cfg, call.key, call.now), k, cfg, call.now)
    ensures call.key == k ==> (Allowed(m, call, cfg) <==> Allows(r, cfg, k, call.now))
  {
    var room := Roomy(m, cfg, call.key, call.now, call.victim);
    assert k in room ==> k in m && room[k] == m[k];
    assert k in m && k !in room ==> cfg.windowSecs <= call.now - m[k].lastSeen;
    if call.key == k {
      assert Touched(room, cfg, k, call.now) == Touched(r, cfg, k, call.now);
    }
  }

  lemma {:induction false} FaithfulAt(
    ms: seq<Entries>, rs: seq<Entries>, calls: seq<Call>, cfg: Config, k: string, n: nat, now: u64)
    requires Run(ms, calls, cfg) && ReferenceRun(rs, calls, cfg) && SteadyClock(calls) && n <= |calls|
    requires forall i :: 0 <= i < n ==> calls[i].now <= now
    requires forall i :: 0 <= i < n && Evicts(ms[i], cfg, calls[i].key, calls[i].now) ==> calls[i].victim != k
    ensures Faithful(ms[n], rs[n], k, cfg, now)
  {
    hide Evicts, Recorded, Roomy;
    if 0 < n {
      var c := calls[n - 1];
      FaithfulAt(ms, rs, calls, cfg, k, n - 1, c.now);
      assert Follows(ms[n - 1], ms[n - 1 + 1], c, cfg);
      assert rs[n - 1 + 1] == Recorded(rs[n - 1], cfg, c.key, c.now);
      CallKeepsFaithful(ms[n - 1], rs[n - 1], k, c, cfg);
    }
  }

  /** With a non-decreasing clock, every call whose key was not evicted before gets the verdict of a limiter
      that never forgets anything. */
  lemma {:induction false} DroppingInvisible(ms: seq<Entries>, rs: seq<Entries>, calls: seq<Call>, cfg: Config, i: nat)
    requires Run(ms, calls, cfg) && ReferenceRun(rs, calls, cfg) && SteadyClock(calls) && i < |calls|
    requires forall j :: 0 <= j < i && Evicts(ms[j], cfg, calls[j].key, calls[j].now) ==> calls[j].victim != calls[i].key
    ensures Allowed(ms[i], calls[i], cfg) <==> Allows(rs[i], cfg, calls[i].key, calls[i].now)
  {
    FaithfulAt(ms, rs, calls, cfg, calls[i].key, i, calls[i].now);
    assert Follows(ms[i], ms[i + 1], calls[i], cfg);
    CallKeepsFaithful(ms[i], rs[i], calls[i].key, calls[i], cfg);
  }

  // ---- exactly the first calls of a window are let through ----

  /** The window a key's calls are in: the clock of its first call, and the calls of the key in it so far. */
  datatype Window = Window(start: u64, made: nat)

  /** The window after the first `n` calls, read off the calls alone: a call opens a new one when the last is over. */
  function WindowAt(calls: seq<Call>, cfg: Config, key: string, n: nat): Option<Window>
    requires n <= |calls|
  {
    if n == 0 then None
    else
      var before, c := WindowAt(calls, cfg, key, n - 1), calls[n - 1];
      if c.key != key then before
      else if before.Some? && c.now < before.value.start + cfg.windowSecs then Some(before.value.(made := before.value.made + 1))
      else Some(Window(c.now, 1))
  }

  /** What the entry of a limiter that never forgets says about the window. */
  ghost predicate Counts(r: Entries, key: string, w: Option<Window>, cfg: Config, now: u64) {
    if key in r then
      && w.Some? && r[key].windowStart == w.value.start <= now
      && 1 <= w.value.made && r[key].count == Min(w.value.made, cfg.maxAttempts)
    else w.None?
  }

  lemma CallKeepsCounts(r: Entries, key: string, w: Option<Window>, cfg: Config, c: Call)
    requires ValidConfig(cfg) && Counts(r, key, w, cfg, c.now)
    ensures var w' := if c.key != key then w
                      else if w.Some? && c.now < w.value.start + cfg.windowSecs then Some(w.value.(made := w.value.made + 1))
                      else Some(Window(c.now, 1));
            && Counts(Recorded(r, cfg, c.key, c.now), key, w', cfg, c.now)
            && (c.key == key ==> (Allows(r, cfg, key, c.now) <==> w'.value.made <= cfg.maxAttempts))
  {
  }

  lemma {:induction false} CountsAt(rs: seq<Entries>, calls: seq<Call>, cfg: Config, key: string, n: nat, now: u64)
    requires ValidConfig(cfg) && ReferenceRun(rs, calls, cfg) && SteadyClock(calls) && n <= |calls|
    requires forall i :: 0 <= i < n ==> calls[i].now <= now
    ensures Counts(rs[n], key, WindowAt(calls, cfg, key, n), cfg, now)
  {
    hide Recorded, Allows;
    if 0 < n {
      var c := calls[n - 1];
      CountsAt(rs, calls, cfg, key, n - 1, c.now);
      assert rs[n - 1 + 1] == Recorded(rs[n - 1], cfg, c.key, c.now);
      CallKeepsCounts(rs[n - 1], key, WindowAt(calls, cfg, key, n - 1), cfg, c);
    }
  }

  lemma {:induction false} ReferenceExists(calls: seq<Call>, cfg: Config) returns (rs: seq<Entries>)
    ensures ReferenceRun(rs, calls, cfg)
  {
    hide Recorded;
    if calls == [] {
      rs := [map[]];
    } else {
      var n := |calls| - 1;
      var init := ReferenceExists(calls[..n], cfg);
      var c := calls[n];
      rs := init + [Recorded(init[n], cfg, c.key, c.now)];
      forall i | 0 <= i < |calls| ensures rs[i + 1] == Recorded(rs[i], cfg, calls[i].key, calls[i].now) {
        if i < n {
          assert calls[..n][i] == calls[i];
        }
      }
    }
  }

  /** The key was not evicted by any of the first `n` calls. */
  ghost predicate NeverEvicted(ms: seq<Entries>, calls: seq<Call>, cfg: Config, key: string, n: nat)
    requires n <= |calls| <= |ms|
  {
    forall j :: 0 <= j < n && Evicts(ms[j], cfg, calls[j].key, calls[j].now) ==> calls[j].victim != key
  }

  /** With a non-decreasing clock, the calls of a key that was not evicted are let through exactly while they are
      among the first `maxAttempts` of their window; every later one of the window is refused. */
  lemma {:induction false} AllowedIffAmongFirst(ms: seq<Entries>, calls: seq<Call>, cfg: Config, i: nat)
    requires Run(ms, calls, cfg) && SteadyClock(calls) && i < |calls| && NeverEvicted(ms, calls, cfg, calls[i].key, i)
    ensures WindowAt(calls, cfg, calls[i].key, i + 1).Some?
    ensures Allowed(ms[i], calls[i], cfg) <==> WindowAt(calls, cfg, calls[i].key, i + 1).value.made <= cfg.maxAttempts
  {
    hide Recorded, Allows, Allowed, Evicts;
    var rs := ReferenceExists(calls, cfg);
    var c := calls[i];
    DroppingInvisible(ms, rs, calls, cfg, i);
    CountsAt(rs, calls, cfg, c.key, i, c.now);
    CallKeepsCounts(rs[i], c.key, WindowAt(calls, cfg, c.key, i), cfg, c);
  }

  /** Calls of `key` let through among the first `n`, at clocks in [lo, lo + windowSecs). */
  ghost function AllowedIn(ms: seq<Entries>, calls: seq<Call>, cfg: Config, key: string, lo: int, n: nat): nat
    requires n <= |calls| < |ms|
  {
    if n == 0 then 0
    else
      var c := calls[n - 1];
      AllowedIn(ms, calls, cfg, key, lo, n - 1)
      + (if c.key == key && lo <= c.now < lo + cfg.windowSecs && Allowed(ms[n - 1], c, cfg) then 1 else 0)
  }

  lemma {:induction false} WindowHasStarted(calls: seq<Call>, cfg: Config, key: string, n: nat, now: u64)
    requires n <= |calls| && (forall i :: 0 <= i < n ==> calls[i].now <= now) && WindowAt(calls, cfg, key, n).Some?
    ensures WindowAt(calls, cfg, key, n).value.start <= now && 1 <= WindowAt(calls, cfg, key, n).value.made
  {
    if WindowAt(calls, cfg, key, n - 1).Some? {
      WindowHasStarted(calls, cfg, key, n - 1, now);
    }
  }

  /** Before and while the window that starts at `lo` runs. */
  lemma {:induction false} CountedUpTo(ms: seq<Entries>, calls: seq<Call>, cfg: Config, key: string, lo: nat, n: nat)
    requires Run(ms, calls, cfg) && SteadyClock(calls) && n <= |calls| && NeverEvicted(ms, calls, cfg, key, n)
    ensures var w, admitted := WindowAt(calls, cfg, key, n), AllowedIn(ms, calls, cfg, key, lo, n);
            && (w.None? || w.value.start + cfg.windowSecs <= lo ==> admitted == 0)
            && (w.Some? && w.value.start == lo ==> admitted == Min(w.value.made, cfg.maxAttempts))
  {
    hide Allowed, Evicts, Follows;
    if 0 < n {
      CountedUpTo(ms, calls, cfg, key, lo, n - 1);
      if calls[n - 1].key == key {
        AllowedIffAmongFirst(ms, calls, cfg, n - 1);
        if WindowAt(calls, cfg, key, n - 1).Some? {
          WindowHasStarted(calls, cfg, key, n - 1, calls[n - 1].now);
        }
      }
    }
  }

  /** In a window, whatever follows it, the number of calls let through is that of its calls, up to `maxAttempts`. */
  lemma {:induction false} WindowBound(ms: seq<Entries>, calls: seq<Call>, cfg: Config, key: string, i: nat, n: nat)
    requires Run(ms, calls, cfg) && SteadyClock(calls) && i <= n <= |calls| && NeverEvicted(ms, calls, cfg, key, n)
    requires WindowAt(calls, cfg, key, i).Some?
    ensures var lo := WindowAt(calls, cfg, key, i).value.start;
            var w, admitted := WindowAt(calls, cfg, key, n), AllowedIn(ms, calls, cfg, key, lo, n);
            && w.Some? && (w.value.start == lo || lo + cfg.windowSecs <= w.value.start)
            && (w.value.start == lo ==> admitted == Min(w.value.made, cfg.maxAttempts))
            && admitted <= cfg.maxAttempts
  {
    hide Allowed, Evicts, Follows;
    var lo := WindowAt(calls, cfg, key, i).value.start;
    if i == n {
      CountedUpTo(ms, calls, cfg, key, lo, n);
    } else {
      WindowBound(ms, calls, cfg, key, i, n - 1);
      if calls[n - 1].key == key {
        AllowedIffAmongFirst(ms, calls, cfg, n - 1);
        if WindowAt(calls, cfg, key, n - 1).Some? {
          WindowHasStarted(calls, cfg, key, n - 1, calls[n - 1].now);
        }
      }
    }
  }

  // ---- the limiter as the signer uses it ----

  lemma RunExtends(ms: seq<Entries>, calls: seq<Call>, cfg: Config, call: Call, m: Entries)
    requires Run(ms, calls, cfg) && Follows(ms[|calls|], m, call, cfg)
    ensures Run(ms + [m], calls + [call], cfg)
  {
    hide Follows;
    var ms', calls' := ms + [m], calls + [call];
    forall i | 0 <= i < |calls'| ensures Follows(ms'[i], ms'[i + 1], calls'[i], cfg) {
      if i < |calls| {
        assert ms'[i] == ms[i] && ms'[i + 1] == ms[i + 1] && calls'[i] == calls[i];
      }
    }
  }

  /** The last call is let through exactly if it is among the first `maxAttempts` of its window; for a clock that
      never went back and a key that was not evicted. */
  ghost predicate AnswersFromCalls(ms: seq<Entries>, calls: seq<Call>, cfg: Config, ok: bool)
    requires 1 <= |calls| <= |ms|
  {
    var n := |calls| - 1;
    SteadyClock(calls) && NeverEvicted(ms, calls, cfg, calls[n].key, n) ==>
      && WindowAt(calls, cfg, calls[n].key, n + 1).Some?
      && (ok <==> WindowAt(calls, cfg, calls[n].key, n + 1).value.made <= cfg.maxAttempts)
  }

  /** The keys that had a call within the last window. */
  function Recent(m: Entries, cfg: Config, now: u64): set<string> {
    set k | k in m && SatSubU64(now, m[k].lastSeen) < cfg.windowSecs
  }

  /** A recent key is dropped only if a new key finds `maxKeys` of them, and then it is one and the least recent. */
  ghost predicate DropsOnlyWhenFull(before: Entries, after: Entries, key: string, now: u64, cfg: Config) {
    forall k :: k in Recent(before, cfg, now) && k !in after ==>
                  && key !in Recent(before, cfg, now) && cfg.maxKeys <= |Recent(before, cfg, now)|
                  && (forall l :: l in Recent(before, cfg, now) ==> before[k].lastSeen <= before[l].lastSeen)
                  && (forall l :: l in Recent(before, cfg, now) && l != k ==> l in after)
  }

  lemma DropsFew(m: Entries, key: string, now: u64, cfg: Config)
    ensures forall m', victim :: Follows(m, m', Call(key, now, victim), cfg) ==> DropsOnlyWhenFull(m, m', key, now, cfg)
  {
    var kept := Retain(m, cfg, now);
    assert kept.Keys == Recent(m, cfg, now);
    assert |kept| == |kept.Keys|;
  }

  /** The entries, and the calls that led to them. */
  class VerifyRateLimiter {
    const cfg: Config
    /** hex(SHA-256(token)) */
    const digest: string -> string
    var state: Entries
    ghost var ms: seq<Entries>
    ghost var calls: seq<Call>

    ghost predicate Valid()
      reads this
    {
      Run(ms, calls, cfg) && ms[|calls|] == state
    }

    constructor (maxAttempts: u32, windowSecs: u64, maxKeys: nat, digest: string -> string)
      ensures Valid() && calls == [] && this.digest == digest
      ensures cfg == Config(Max(maxAttempts, 1), Max(windowSecs, 1), Max(maxKeys, 64))
    {
      cfg := NewConfig(maxAttempts, windowSecs, maxKeys);
      this.digest := digest;
      state := map[];
      ms, calls := [map[]], [];
    }

    /** At most `maxKeys` entries are kept, none of them stale, and only the first `maxAttempts` calls of a window
        are let through. */
    method Check(actionToken: string, now: u64) returns (ok: bool, ghost victim: string)
      requires Valid()
      modifies this
      ensures Valid() && calls == old(calls) + [Call(digest(actionToken), now, victim)]
      ensures ok == Allowed(old(state), Call(digest(actionToken), now, victim), cfg)
      ensures AnswersFromCalls(ms, calls, cfg, ok)
      ensures |state| <= cfg.maxKeys && forall k :: k in state ==> SatSubU64(now, state[k].lastSeen) < cfg.windowSecs
      ensures DropsOnlyWhenFull(old(state), state, digest(actionToken), now, cfg)
    {
      DropsFew(state, digest(actionToken), now, cfg);
      ok, victim := Count(digest(actionToken), now);
      ghost var call := Call(digest(actionToken), now, victim);
      hide Follows, Allowed, AnswersFromCalls, DropsOnlyWhenFull;
      RunExtends(ms, calls, cfg, call, state);
      LastCallFromCalls(ms + [state], calls + [call], cfg);
      NeverMoreThanMaxKeys(ms + [state], calls + [call], cfg, |calls| + 1);
      ms, calls := ms + [state], calls + [call];
    }

    /** Drop stale entries, evict one if there is no room, then restart, refuse or count. */
    method Count(key: string, now: u64) returns (ok: bool, ghost victim: string)
      requires ValidConfig(cfg)
      modifies `state
      ensures Follows(old(state), state, Call(key, now, victim), cfg)
      ensures ok == Allowed(old(state), Call(key, now, victim), cfg)
      ensures forall k :: k in state ==> SatSubU64(now, state[k].lastSeen) < cfg.windowSecs
    {
      victim := "";
      state := Retain(state, cfg, now);
      if key !in state && |state| >= cfg.maxKeys {
        var oldest := OldestKey(state);
        if oldest.Some? {
          victim := oldest.value;
          state := state - {oldest.value};
        }
      }
      var entry := if key in state then state[key] else Entry(now, 0, now);
      if SatSubU64(now, entry.windowStart) >= cfg.windowSecs {
        entry := Entry(now, 0, entry.lastSeen);
      }
      entry := entry.(lastSeen := now);
      if entry.count >= cfg.maxAttempts {
        state := state[key := entry];
        return false, victim;
      }
      state := state[key := entry.(count := entry.count + 1)];
      ok := true;
    }
  }

  lemma LastCallFromCalls(ms: seq<Entries>, calls: seq<Call>, cfg: Config)
    requires Run(ms, calls, cfg) && calls != []
    ensures AnswersFromCalls(ms, calls, cfg, Allowed(ms[|calls| - 1], calls[|calls| - 1], cfg))
  {
    hide Allowed, Follows;
    var n := |calls| - 1;
    if SteadyClock(calls) && NeverEvicted(ms, calls, cfg, calls[n].key, n) {
      AllowedIffAmongFirst(ms, calls, cfg, n);
    }
  }
}
