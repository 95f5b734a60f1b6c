/** The login failure tracker of `server/src/auth/brute_force.rs`, and when its cleanup shows. */
module BruteForce {
  import opened Arithmetic
  import opened Sets

  const MAX_RECORDS := 3000
  const IDLE_TTL := 1800

  datatype LoginAttempt = LoginAttempt(failures: nat, lastFailed: nat, lockoutEnd: nat)

  datatype Security = Security(loginLockoutDuration: int, loginMaxFailures: int)

  predicate IsEnabled(sec: Security) {
    sec.loginLockoutDuration > 0 && sec.loginMaxFailures > 0
  }

  type Attempts = map<string, LoginAttempt>

  // ---- one operation on the table ----

  predicate IsLocked(a: LoginAttempt, now: nat) {
    a.lockoutEnd > 0 && now < a.lockoutEnd
  }

  predicate CheckLocked(sec: Security, m: Attempts, ip: string, now: nat) {
    IsEnabled(sec) && ip in m && IsLocked(m[ip], now)
  }

  /** A failure at `now` on a record that may have gone quiet for longer than the window. */
  function Bumped(sec: Security, a: LoginAttempt, now: nat): LoginAttempt
    requires IsEnabled(sec)
  {
    var quiet := a.lastFailed > 0 && SaturatingSub(now, a.lastFailed) > sec.loginLockoutDuration;
    var failures := (if quiet then 0 else a.failures) + 1;
    var lockoutEnd := if quiet then 0 else a.lockoutEnd;
    LoginAttempt(failures, now, if failures >= sec.loginMaxFailures then now + sec.loginLockoutDuration else lockoutEnd)
  }

  function Failed(sec: Security, m: Attempts, ip: string, now: nat): Attempts
    requires IsEnabled(sec)
  {
    var m := if |m| >= MAX_RECORDS then map[] else m;
    m[ip := Bumped(sec, if ip in m then m[ip] else LoginAttempt(0, 0, 0), now)]
  }

  predicate Kept(a: LoginAttempt, now: nat) {
    IsLocked(a, now) || (a.lockoutEnd == 0 && SaturatingSub(now, a.lastFailed) < IDLE_TTL)
  }

  function Retained(m: Attempts, now: nat): Attempts {
    map ip | ip in m && Kept(m[ip], now) :: m[ip]
  }

  function Cleaned(sec: Security, m: Attempts, now: nat): Attempts {
    if !IsEnabled(sec) then m
    else if |Retained(m, now)| > MAX_RECORDS then map[]
    else Retained(m, now)
  }

  /** A window of 1 s and a single failure are enough to lock; without a window, or
      without a maximum, nothing ever does. */
  lemma {:induction false} LocksFromOneOn(m: Attempts, k: int, ip: string, now: nat)
    ensures IsEnabled(Security(1, 1)) && CheckLocked(Security(1, 1), Failed(Security(1, 1), map[], ip, now), ip, now)
    ensures k <= 0 ==> !CheckLocked(Security(k, 1), m, ip, now) && !CheckLocked(Security(1, k), m, ip, now)
  {}

  // ---- the tracker ----

  class BruteForceTracker {
    var attempts: Attempts
    const security: Security

    constructor (security: Security)
      ensures attempts == map[] && this.security == security
    {
      attempts := map[];
      this.security := security;
    }

    method Check(ip: string, now: nat) returns (locked: bool)
      ensures locked == CheckLocked(security, attempts, ip, now)
    {
      if !IsEnabled(security) {
        return false;
      }
      if ip in attempts {
        var attempt := attempts[ip];
        if attempt.lockoutEnd > 0 && now < attempt.lockoutEnd {
          return true;
        }
      }
      return false;
    }

    method RecordFailure(ip: string, now: nat) returns (locked: bool)
      modifies this
      ensures IsEnabled(security) ==>
                attempts == Failed(security, old(attempts), ip, now)
                && locked == (attempts[ip].failures >= security.loginMaxFailures)
      ensures !IsEnabled(security) ==> attempts == old(attempts) && !locked
    {
      if !IsEnabled(security) {
        return false;
      }
      var window := security.loginLockoutDuration;
      if |attempts| >= MAX_RECORDS {
        attempts := map[];
      }
      var attempt := if ip in attempts then attempts[ip] else LoginAttempt(0, 0, 0);
      if attempt.lastFailed > 0 && SaturatingSub(now, attempt.lastFailed) > window {
        attempt := attempt.(failures := 0, lockoutEnd := 0);
      }
      attempt := attempt.(failures := attempt.failures + 1, lastFailed := now);
      locked := attempt.failures >= security.loginMaxFailures;
      if locked {
        attempt := attempt.(lockoutEnd := now + window);
      }
      attempts := attempts[ip := attempt];
    }

    method Clear(ip: string)
      modifies this
      ensures attempts == if IsEnabled(security) then old(attempts) - {ip} else old(attempts)
    {
      if IsEnabled(security) {
        attempts := attempts - {ip};
      }
    }

    /** One tick of the task that `spawn_cleanup` starts. */
    method Cleanup(now: nat)
      modifies this
      ensures attempts == Cleaned(security, old(attempts), now)
    {
      if !IsEnabled(security) {
        return;
      }
      attempts := map ip | ip in attempts && Kept(attempts[ip], now) :: attempts[ip];
      if |attempts| > MAX_RECORDS {
        attempts := map[];
      }
    }
  }

  // ---- runs ----

  datatype Op = Check(ip: string) | Fail(ip: string) | Clear(ip: string) | Cleanup

  datatype Event = Event(op: Op, now: nat)

  function After(sec: Security, m: Attempts, e: Event): Attempts
    requires IsEnabled(sec)
  {
    match e.op
    case Check(_) => m
    case Fail(ip) => Failed(sec, m, ip, e.now)
    case Clear(ip) => m - {ip}
    case Cleanup => Cleaned(sec, m, e.now)
  }

  /** What the caller of the operation is told: locked or not. */
  function Reply(sec: Security, m: Attempts, e: Event): seq<bool>
    requires IsEnabled(sec)
  {
    match e.op
    case Check(ip) => [CheckLocked(sec, m, ip, e.now)]
    case Fail(ip) => [Failed(sec, m, ip, e.now)[ip].failures >= sec.loginMaxFailures]
    case _ => []
  }

  function Replies(sec: Security, m: Attempts, events: seq<Event>): seq<bool>
    requires IsEnabled(sec)
    decreases |events|
  {
    if events == [] then [] else Reply(sec, m, events[0]) + Replies(sec, After(sec, m, events[0]), events[1..])
  }

  function WithoutCleanups(events: seq<Event>): seq<Event> {
    if events == [] then []
    else (if events[0].op.Cleanup? then [] else [events[0]]) + WithoutCleanups(events[1..])
  }

  predicate NoCleanups(events: seq<Event>) {
    forall i :: 0 <= i < |events| ==> !events[i].op.Cleanup?
  }

  /** A positive monotone clock from `now` on. */
  predicate Timed(events: seq<Event>, now: nat) {
    events == [] || (events[0].now > 0 && now <= events[0].now && Timed(events[1..], events[0].now))
  }

  /** The same, and every failure comes strictly later than every cleanup before
      it (the last one at `cleaned`). */
  predicate Clocked(events: seq<Event>, now: nat, cleaned: nat) {
    events == [] ||
    (&& events[0].now > 0 && now <= events[0].now
     && (if events[0].op.Cleanup? then Clocked(events[1..], events[0].now, events[0].now)
         else (events[0].op.Fail? ==> cleaned < events[0].now) && Clocked(events[1..], events[0].now, cleaned)))
  }

  /** The record cap is never reached when the tracker is not cleaned. */
  predicate BelowCap(sec: Security, m: Attempts, events: seq<Event>)
    requires IsEnabled(sec)
    decreases |events|
  {
    events == [] ||
    (&& (events[0].op.Fail? ==> |m| < MAX_RECORDS)
     && BelowCap(sec, if events[0].op.Cleanup? then m else After(sec, m, events[0]), events[1..]))
  }

  predicate Admissible(sec: Security, events: seq<Event>)
    requires IsEnabled(sec)
  {
    Clocked(events, 1, 0) && BelowCap(sec, map[], events)
  }

  // ---- cleanup is invisible ----

  /** What a record of a run on a positive clock looks like. */
  predicate Plausible(sec: Security, a: LoginAttempt, now: nat) {
    && 0 < a.lastFailed <= now && a.failures >= 1
    && a.lockoutEnd == if a.failures >= sec.loginMaxFailures then a.lastFailed + sec.loginLockoutDuration else 0
  }

  /** A record that no check from `cleaned` on and no failure later than
      `cleaned` can tell from an absent one. */
  predicate Stale(sec: Security, a: LoginAttempt, cleaned: nat) {
    a.lastFailed > 0 && a.lastFailed + sec.loginLockoutDuration <= cleaned && a.lockoutEnd <= cleaned
  }

  predicate SameRecord(sec: Security, m: Attempts, k: Attempts, ip: string, now: nat, cleaned: nat) {
    && (ip in m ==> Plausible(sec, m[ip], now))
    && (ip in k ==> ip in m && m[ip] == k[ip])
    && (ip in m && ip !in k ==> Stale(sec, m[ip], cleaned))
  }

  /** m has never been cleaned, k has, last at `cleaned`. */
  ghost predicate Alike(sec: Security, m: Attempts, k: Attempts, now: nat, cleaned: nat) {
    |m| <= MAX_RECORDS && forall ip :: SameRecord(sec, m, k, ip, now, cleaned)
  }

  /** The windows for which a cleanup drops only records that have expired. */
  predicate CleanupIsSafe(sec: Security) {
    sec.loginLockoutDuration <= 1800 || sec.loginMaxFailures == 1
  }

  lemma {:induction false} FewerKeys(m: Attempts, k: Attempts)
    requires k.Keys <= m.Keys
    ensures |k| <= |m|
  {
    SubsetCount(k.Keys, m.Keys);
    assert |k| == |k.Keys| && |m| == |m.Keys|;
  }

  lemma {:induction false} AlikeKeys(sec: Security, m: Attempts, k: Attempts, now: nat, cleaned: nat)
    requires Alike(sec, m, k, now, cleaned)
    ensures |k| <= |m|
  {
    assert forall ip :: ip in k ==> SameRecord(sec, m, k, ip, now, cleaned);
    FewerKeys(m, k);
  }

  lemma {:induction false} CleanupKeepsAlike(sec: Security, m: Attempts, k: Attempts, now: nat, cleaned: nat, c: nat)
    requires IsEnabled(sec) && CleanupIsSafe(sec) && Alike(sec, m, k, now, cleaned) && now <= c && cleaned <= c
    ensures Alike(sec, m, Cleaned(sec, k, c), c, c)
  {
    var k' := Retained(k, c);
    forall ip ensures SameRecord(sec, m, k', ip, c, c) {
      assert SameRecord(sec, m, k, ip, now, cleaned);
    }
    AlikeKeys(sec, m, k', c, c);
  }

  lemma {:induction false} BumpedAlike(sec: Security, a: LoginAttempt, now: nat, cleaned: nat)
    requires IsEnabled(sec) && Stale(sec, a, cleaned) && cleaned < now
    ensures Bumped(sec, a, now) == Bumped(sec, LoginAttempt(0, 0, 0), now)
  {}

  lemma {:induction false} BumpedPlausible(sec: Security, a: LoginAttempt, now: nat)
    requires IsEnabled(sec) && now > 0 && (a == LoginAttempt(0, 0, 0) || exists before: nat :: before <= now && Plausible(sec, a, before))
    ensures Plausible(sec, Bumped(sec, a, now), now)
  {}

  lemma {:induction false} FailKeepsAlike(sec: Security, m: Attempts, k: Attempts, now: nat, cleaned: nat, ip: string, t: nat)
    requires IsEnabled(sec) && Alike(sec, m, k, now, cleaned) && 0 < t && now <= t && cleaned < t && |m| < MAX_RECORDS
    ensures Alike(sec, Failed(sec, m, ip, t), Failed(sec, k, ip, t), t, cleaned)
    ensures Failed(sec, m, ip, t)[ip] == Failed(sec, k, ip, t)[ip]
  {
    AlikeKeys(sec, m, k, now, cleaned);
    var m', k' := Failed(sec, m, ip, t), Failed(sec, k, ip, t);
    var a := if ip in m then m[ip] else LoginAttempt(0, 0, 0);
    assert SameRecord(sec, m, k, ip, now, cleaned);
    if ip in m && ip !in k { BumpedAlike(sec, a, t, cleaned); }
    BumpedPlausible(sec, a, t);
    hide Bumped;
    forall x ensures SameRecord(sec, m', k', x, t, cleaned) {
      assert SameRecord(sec, m, k, x, now, cleaned);
    }
  }

  lemma {:induction false} OperationKeepsAlike(sec: Security, m: Attempts, k: Attempts, now: nat, cleaned: nat, e: Event)
    requires IsEnabled(sec) && Alike(sec, m, k, now, cleaned)
    requires !e.op.Cleanup? && 0 < e.now && cleaned <= now <= e.now
    requires e.op.Fail? ==> cleaned < e.now && |m| < MAX_RECORDS
    ensures Alike(sec, After(sec, m, e), After(sec, k, e), e.now, cleaned)
    ensures Reply(sec, m, e) == Reply(sec, k, e)
  {
    match e.op {
      case Check(ip) => CheckKeepsAlike(sec, m, k, now, cleaned, ip, e.now);
      case Fail(ip) => FailKeepsAlike(sec, m, k, now, cleaned, ip, e.now);
      case Clear(ip) => ClearKeepsAlike(sec, m, k, now, cleaned, ip, e.now);
    }
    hide Failed, CheckLocked, Alike;
  }

  lemma {:induction false} CheckKeepsAlike(sec: Security, m: Attempts, k: Attempts, now: nat, cleaned: nat, ip: string, t: nat)
    requires Alike(sec, m, k, now, cleaned) && cleaned <= now <= t
    ensures Alike(sec, m, k, t, cleaned) && CheckLocked(sec, m, ip, t) == CheckLocked(sec, k, ip, t)
  {
    assert SameRecord(sec, m, k, ip, now, cleaned);
    forall x ensures SameRecord(sec, m, k, x, t, cleaned) { assert SameRecord(sec, m, k, x, now, cleaned); }
  }

  lemma {:induction false} ClearKeepsAlike(sec: Security, m: Attempts, k: Attempts, now: nat, cleaned: nat, ip: string, t: nat)
    requires Alike(sec, m, k, now, cleaned) && now <= t
    ensures Alike(sec, m - {ip}, k - {ip}, t, cleaned)
  {
    FewerKeys(m, m - {ip});
    forall x ensures SameRecord(sec, m - {ip}, k - {ip}, x, t, cleaned) {
      assert SameRecord(sec, m, k, x, now, cleaned);
    }
  }

  lemma {:induction false} AlikeReplies(
    sec: Security, m: Attempts, k: Attempts, now: nat, cleaned: nat, events: seq<Event>)
    requires IsEnabled(sec) && (CleanupIsSafe(sec) || NoCleanups(events)) && Alike(sec, m, k, now, cleaned) && cleaned <= now
    requires Clocked(events, now, cleaned) && BelowCap(sec, m, events)
    ensures Replies(sec, k, events) == Replies(sec, m, WithoutCleanups(events))
    decreases |events|
  {
    if events == [] {
    } else {
      var e, rest := events[0], events[1..];
      if e.op.Cleanup? {
        CleanupKeepsAlike(sec, m, k, now, cleaned, e.now);
        AlikeReplies(sec, m, After(sec, k, e), e.now, e.now, rest);
        assert [] + Replies(sec, After(sec, k, e), rest) == Replies(sec, After(sec, k, e), rest);
        assert [] + WithoutCleanups(rest) == WithoutCleanups(rest);
      } else {
        OperationKeepsAlike(sec, m, k, now, cleaned, e);
        AlikeReplies(sec, After(sec, m, e), After(sec, k, e), e.now, cleaned, rest);
        assert ([e] + WithoutCleanups(rest))[1..] == WithoutCleanups(rest);
      }
    }
  }

  // ---- and visible otherwise ----

  /** `n` failures of `ip` at one time, then `tail`. */
  function Burst(ip: string, n: nat, at: nat, tail: seq<Event>): seq<Event> {
    if n == 0 then tail else [Event(Fail(ip), at)] + Burst(ip, n - 1, at, tail)
  }

  function AfterBurst(ip: string, n: nat, at: nat): Attempts {
    if n == 0 then map[] else map[ip := LoginAttempt(n, at, 0)]
  }

  function Refused(n: nat, tail: seq<bool>): seq<bool> {
    if n == 0 then tail else [false] + Refused(n - 1, tail)
  }

  lemma {:induction false} RefusedTells(n: nat, a: seq<bool>, b: seq<bool>)
    requires a != b
    ensures Refused(n, a) != Refused(n, b)
  {
    if n == 0 {
    } else {
      RefusedTells(n - 1, a, b);
      assert Refused(n, a)[1..] == Refused(n - 1, a) && Refused(n, b)[1..] == Refused(n - 1, b);
    }
  }

  lemma {:induction false} BurstStep(sec: Security, ip: string, at: nat, j: nat)
    requires IsEnabled(sec) && at > 0 && j + 1 < sec.loginMaxFailures
    ensures var m, e := AfterBurst(ip, j, at), Event(Fail(ip), at);
            After(sec, m, e) == AfterBurst(ip, j + 1, at) && Reply(sec, m, e) == [false] && |m| < MAX_RECORDS
  {
    var m, a := AfterBurst(ip, j, at), LoginAttempt(j, if j == 0 then 0 else at, 0);
    assert Bumped(sec, a, at) == LoginAttempt(j + 1, at, 0);
    hide Bumped;
    assert Failed(sec, m, ip, at) == map[ip := LoginAttempt(j + 1, at, 0)];
  }

  lemma {:induction false} BurstHead(ip: string, n: nat, at: nat, tail: seq<Event>)
    requires n > 0
    ensures var events := Burst(ip, n, at, tail);
            events != [] && events[0] == Event(Fail(ip), at) && events[1..] == Burst(ip, n - 1, at, tail)
  {}

  /** Fewer failures than the maximum are all let through. */
  lemma {:induction false} BurstReplies(sec: Security, ip: string, at: nat, j: nat, n: nat, tail: seq<Event>)
    requires IsEnabled(sec) && at > 0 && j + n < sec.loginMaxFailures
    ensures Replies(sec, AfterBurst(ip, j, at), Burst(ip, n, at, tail)) == Refused(n, Replies(sec, AfterBurst(ip, j + n, at), tail))
    decreases n
  {
    hide AfterBurst, Reply, After, IsEnabled;
    if n == 0 {
    } else {
      BurstHead(ip, n, at, tail);
      BurstStep(sec, ip, at, j);
      hide Burst;
      BurstReplies(sec, ip, at, j + 1, n - 1, tail);
    }
  }

  lemma {:induction false} BurstIsBelowCap(sec: Security, ip: string, at: nat, j: nat, n: nat, tail: seq<Event>)
    requires IsEnabled(sec) && at > 0 && j + n < sec.loginMaxFailures && BelowCap(sec, AfterBurst(ip, j + n, at), tail)
    ensures BelowCap(sec, AfterBurst(ip, j, at), Burst(ip, n, at, tail))
    decreases n
  {
    hide AfterBurst, Reply, After, IsEnabled;
    if n == 0 {
    } else {
      BurstHead(ip, n, at, tail);
      BurstStep(sec, ip, at, j);
      hide Burst;
      BurstIsBelowCap(sec, ip, at, j + 1, n - 1, tail);
    }
  }

  lemma {:induction false} BurstIsTimed(ip: string, n: nat, at: nat, tail: seq<Event>)
    requires at > 0
    ensures Timed(tail, at) ==> Timed(Burst(ip, n, at, tail), at)
    ensures Clocked(tail, at, 0) ==> Clocked(Burst(ip, n, at, tail), at, 0)
  {
    if n == 0 {
    } else {
      BurstHead(ip, n, at, tail);
      hide Burst;
      BurstIsTimed(ip, n - 1, at, tail);
    }
  }

  lemma {:induction false} FromOne(events: seq<Event>, at: nat)
    requires at > 0
    ensures Timed(events, at) ==> Timed(events, 1)
    ensures Clocked(events, at, 0) ==> Clocked(events, 1, 0)
  {}

  lemma {:induction false} BurstHasNoCleanup(ip: string, n: nat, at: nat, tail: seq<Event>)
    ensures WithoutCleanups(Burst(ip, n, at, tail)) == Burst(ip, n, at, WithoutCleanups(tail))
    ensures NoCleanups(tail) ==> NoCleanups(Burst(ip, n, at, tail))
  {
    if n == 0 {
    } else {
      BurstHead(ip, n, at, tail);
      BurstHasNoCleanup(ip, n - 1, at, tail);
    }
  }

  /** One failure short of a lockout, a cleanup just when the record turns idle,
      and one more failure inside the window: only the uncleaned tracker locks. */
  function Telltale(sec: Security, ip: string, at: nat): seq<Event>
    requires sec.loginMaxFailures >= 1
  {
    Burst(ip, sec.loginMaxFailures - 1, at, [Event(Cleanup, at + IDLE_TTL), Event(Fail(ip), at + IDLE_TTL + 1)])
  }

  /** The end of the telltale, with and without its cleanup. */
  lemma {:induction false} TelltaleEnd(sec: Security, ip: string, at: nat, c: Event, f: Event)
    requires IsEnabled(sec) && !CleanupIsSafe(sec) && at > 0
    requires c == Event(Cleanup, at + IDLE_TTL) && f == Event(Fail(ip), at + IDLE_TTL + 1)
    ensures var m := AfterBurst(ip, sec.loginMaxFailures - 1, at);
            Reply(sec, After(sec, m, c), f) == [false] && Reply(sec, m, f) == [true] && Reply(sec, m, c) == []
  {
    var m, a := AfterBurst(ip, sec.loginMaxFailures - 1, at), LoginAttempt(sec.loginMaxFailures - 1, at, 0);
    assert Cleaned(sec, m, at + IDLE_TTL) == map[];
    assert Bumped(sec, LoginAttempt(0, 0, 0), f.now).failures == 1;
    assert Bumped(sec, a, f.now).failures == sec.loginMaxFailures;
    hide Bumped, Cleaned;
  }

  lemma {:induction false} TwoEvents(sec: Security, m: Attempts, at: nat, c: Event, f: Event)
    requires IsEnabled(sec) && c.op.Cleanup? && !f.op.Cleanup? && Reply(sec, m, c) == []
    requires 0 < at <= c.now < f.now && |m| < MAX_RECORDS
    ensures Replies(sec, m, [c, f]) == Reply(sec, After(sec, m, c), f) && Replies(sec, m, [f]) == Reply(sec, m, f)
    ensures WithoutCleanups([c, f]) == [f]
    ensures Clocked([c, f], at, 0) && BelowCap(sec, m, [c, f])
  {
    assert [c, f][1..] == [f] && [f][1..] == [];
    var k := After(sec, m, c);
    hide After, Reply;
    assert Replies(sec, m, [f]) == Reply(sec, m, f) + Replies(sec, After(sec, m, f), []);
    assert Replies(sec, k, [f]) == Reply(sec, k, f) + Replies(sec, After(sec, k, f), []);
    assert Replies(sec, m, [c, f]) == [] + Replies(sec, k, [f]);
    assert WithoutCleanups([f]) == [f] + WithoutCleanups([]);
    assert Clocked([f], c.now, c.now);
    assert BelowCap(sec, m, [f]);
  }

  lemma {:induction false} SmallBurst(ip: string, n: nat, at: nat)
    ensures AfterBurst(ip, 0, at) == map[] && |AfterBurst(ip, n, at)| < MAX_RECORDS
  {}

  lemma {:induction false} TelltaleIsAdmissible(sec: Security, ip: string, at: nat)
    requires IsEnabled(sec) && !CleanupIsSafe(sec) && at > 0
    ensures Admissible(sec, Telltale(sec, ip, at))
  {
    hide Clocked, BelowCap, Burst, AfterBurst, After, Reply, Replies, WithoutCleanups, CleanupIsSafe;
    var n: nat, c, f := sec.loginMaxFailures - 1, Event(Cleanup, at + IDLE_TTL), Event(Fail(ip), at + IDLE_TTL + 1);
    SmallBurst(ip, n, at);
    TelltaleEnd(sec, ip, at, c, f);
    TwoEvents(sec, AfterBurst(ip, n, at), at, c, f);
    BurstIsBelowCap(sec, ip, at, 0, n, [c, f]);
    BurstIsTimed(ip, n, at, [c, f]);
    FromOne(Telltale(sec, ip, at), at);
  }

  lemma {:induction false} TelltaleTells(sec: Security, ip: string, at: nat)
    requires IsEnabled(sec) && !CleanupIsSafe(sec) && at > 0
    ensures Replies(sec, map[], Telltale(sec, ip, at)) != Replies(sec, map[], WithoutCleanups(Telltale(sec, ip, at)))
  {
    hide Clocked, BelowCap, Burst, AfterBurst, After, Reply, Replies, WithoutCleanups, CleanupIsSafe, Refused;
    var n: nat, c, f := sec.loginMaxFailures - 1, Event(Cleanup, at + IDLE_TTL), Event(Fail(ip), at + IDLE_TTL + 1);
    SmallBurst(ip, n, at);
    TelltaleEnd(sec, ip, at, c, f);
    TwoEvents(sec, AfterBurst(ip, n, at), at, c, f);
    BurstReplies(sec, ip, at, 0, n, [c, f]);
    BurstReplies(sec, ip, at, 0, n, [f]);
    BurstHasNoCleanup(ip, n, at, [c, f]);
    RefusedTells(n, [false], [true]);
  }

  lemma {:induction false} CleanupIsInvisible(sec: Security, events: seq<Event>)
    requires IsEnabled(sec) && CleanupIsSafe(sec) && Admissible(sec, events)
    ensures Replies(sec, map[], events) == Replies(sec, map[], WithoutCleanups(events))
  {
    AlikeReplies(sec, map[], map[], 1, 0, events);
  }

  /** Cleanups never change a reply, in any run, exactly when the window is at
      most IDLE_TTL or a single failure locks. */
  lemma {:induction false} CleanupInvisibleExactly(sec: Security)
    requires IsEnabled(sec)
    ensures (forall events :: Admissible(sec, events) ==>
              Replies(sec, map[], events) == Replies(sec, map[], WithoutCleanups(events)))
            <==> CleanupIsSafe(sec)
  {
    if CleanupIsSafe(sec) {
      forall events | Admissible(sec, events)
        ensures Replies(sec, map[], events) == Replies(sec, map[], WithoutCleanups(events))
      {
        CleanupIsInvisible(sec, events);
      }
    } else {
      TelltaleIsAdmissible(sec, "", 1);
      TelltaleTells(sec, "", 1);
    }
  }

  // ---- failures in the second of the cleanup ----

  ghost predicate AllPlausible(sec: Security, m: Attempts, now: nat) {
    forall ip :: ip in m ==> Plausible(sec, m[ip], now)
  }

  /** A cleanup at c drops a record that a failure in the same second would
      still have prolonged. */
  predicate Tells(sec: Security, m: Attempts, ip: string, c: nat) {
    sec.loginMaxFailures > 1 && ip in m && !Kept(m[ip], c) && m[ip].lastFailed + sec.loginLockoutDuration >= c
  }

  lemma {:induction false} CleanedBelowCap(sec: Security, m: Attempts, c: nat)
    requires IsEnabled(sec) && |m| <= MAX_RECORDS
    ensures Cleaned(sec, m, c) == Retained(m, c) && |Retained(m, c)| <= |m|
  {
    FewerKeys(m, Retained(m, c));
  }

  lemma {:induction false} FailReply(sec: Security, m: Attempts, ip: string, c: nat)
    requires IsEnabled(sec) && |m| < MAX_RECORDS
    ensures Reply(sec, m, Event(Fail(ip), c))
         == [Bumped(sec, if ip in m then m[ip] else LoginAttempt(0, 0, 0), c).failures >= sec.loginMaxFailures]
  {
    hide Bumped;
  }

  /** The very next answer in the second of the cleanup: a check is never
      answered differently, a failure exactly when its record would have been
      prolonged up to the maximum. */
  lemma {:induction false} NextAnswerExactly(sec: Security, m: Attempts, ip: string, c: nat)
    requires IsEnabled(sec) && |m| < MAX_RECORDS && AllPlausible(sec, m, c)
    ensures Reply(sec, Cleaned(sec, m, c), Event(Check(ip), c)) == Reply(sec, m, Event(Check(ip), c))
    ensures Reply(sec, Cleaned(sec, m, c), Event(Fail(ip), c)) != Reply(sec, m, Event(Fail(ip), c))
            <==> Tells(sec, m, ip, c) && m[ip].failures + 1 >= sec.loginMaxFailures
  {
    CleanedBelowCap(sec, m, c);
    var k := Retained(m, c);
    assert ip in k <==> ip in m && Kept(m[ip], c);
    assert ip in k ==> k[ip] == m[ip];
    assert ip in m ==> Plausible(sec, m[ip], c);
    hide Retained, Cleaned, AllPlausible;
    FailReply(sec, m, ip, c);
    FailReply(sec, k, ip, c);
    hide Failed;
  }

  /** What may come after a cleanup at c. */
  predicate Follows(sec: Security, m: Attempts, tail: seq<Event>, c: nat)
    requires IsEnabled(sec)
  {
    Timed(tail, c) && NoCleanups(tail) && BelowCap(sec, m, tail)
  }

  lemma {:induction false} TimedIsClocked(tail: seq<Event>, c: nat, cleaned: nat)
    requires Timed(tail, c) && NoCleanups(tail) && cleaned < c
    ensures Clocked(tail, c, cleaned) && WithoutCleanups(tail) == tail
  {
    if tail == [] {
    } else {
      TimedIsClocked(tail[1..], tail[0].now, cleaned);
    }
  }

  /** If no record tells, the cleanup might as well have come a second earlier. */
  lemma {:induction false} NothingTells(sec: Security, m: Attempts, c: nat)
    requires IsEnabled(sec) && sec.loginMaxFailures > 1 && 0 < c && |m| <= MAX_RECORDS && AllPlausible(sec, m, c)
    requires forall ip :: !Tells(sec, m, ip, c)
    ensures Alike(sec, m, Cleaned(sec, m, c), c, c - 1)
  {
    CleanedBelowCap(sec, m, c);
    var k, cleaned: nat := Retained(m, c), c - 1;
    forall ip ensures SameRecord(sec, m, k, ip, c, cleaned) {
      assert !Tells(sec, m, ip, c);
    }
  }

  /** The next failure of ip at c is its f + 1st. */
  predicate CountsFrom(sec: Security, m: Attempts, ip: string, c: nat, f: nat)
    requires IsEnabled(sec)
  {
    Bumped(sec, if ip in m then m[ip] else LoginAttempt(0, 0, 0), c).failures == f + 1
  }

  lemma {:induction false} CountsOn(sec: Security, m: Attempts, ip: string, c: nat, f: nat)
    requires IsEnabled(sec) && 0 < c && CountsFrom(sec, m, ip, c, f)
    requires |m| < MAX_RECORDS && (ip in m || |m| + 1 < MAX_RECORDS)
    ensures var m', e := After(sec, m, Event(Fail(ip), c)), Event(Fail(ip), c);
            ip in m' && |m'| < MAX_RECORDS && CountsFrom(sec, m', ip, c, f + 1) && Reply(sec, m, e) == [f + 1 >= sec.loginMaxFailures]
  {}

  /** The last answer to n failures of ip at c. */
  lemma {:induction false} LastAnswer(sec: Security, m: Attempts, ip: string, c: nat, f: nat, n: nat)
    requires IsEnabled(sec) && 0 < c && CountsFrom(sec, m, ip, c, f) && n > 0
    requires |m| < MAX_RECORDS && (ip in m || |m| + 1 < MAX_RECORDS)
    ensures var answers := Replies(sec, m, Burst(ip, n, c, []));
            |answers| == n && answers[n - 1] == (f + n >= sec.loginMaxFailures)
    ensures BelowCap(sec, m, Burst(ip, n, c, []))
    decreases n
  {
    BurstHead(ip, n, c, []);
    CountsOn(sec, m, ip, c, f);
    hide CountsFrom, After, Reply, Burst;
    if n == 1 {
      assert Burst(ip, 0, c, []) == [] by { NoBurst(ip, c); }
    } else {
      LastAnswer(sec, After(sec, m, Event(Fail(ip), c)), ip, c, f + 1, n - 1);
    }
  }

  lemma {:induction false} NoBurst(ip: string, c: nat)
    ensures Burst(ip, 0, c, []) == []
  {}

  /** max - 1 failures in the second of the cleanup lock only the uncleaned table. */
  lemma {:induction false} BurstTells(sec: Security, m: Attempts, ip: string, c: nat)
    requires IsEnabled(sec) && 0 < c && |m| < MAX_RECORDS && AllPlausible(sec, m, c) && Tells(sec, m, ip, c)
    ensures var tail := Burst(ip, sec.loginMaxFailures - 1, c, []);
            Follows(sec, m, tail, c) && Replies(sec, Cleaned(sec, m, c), tail) != Replies(sec, m, tail)
  {
    var n: nat, k := sec.loginMaxFailures - 1, Retained(m, c);
    CleanedBelowCap(sec, m, c);
    assert m.Keys >= k.Keys + {ip};
    assert |k.Keys| + 1 == |k.Keys + {ip}| <= |m.Keys| by { SubsetCount(k.Keys + {ip}, m.Keys); }
    assert Plausible(sec, m[ip], c);
    assert CountsFrom(sec, m, ip, c, m[ip].failures) && CountsFrom(sec, k, ip, c, 0);
    hide CountsFrom, Tells, AllPlausible, Retained, Cleaned, Replies, BelowCap;
    LastAnswer(sec, m, ip, c, m[ip].failures, n);
    LastAnswer(sec, k, ip, c, 0, n);
    BurstIsTimed(ip, n, c, []);
    BurstHasNoCleanup(ip, n, c, []);
  }

  /** For every table below the cap and every configuration: whatever follows in
      the cleanup's second and later is answered as without the cleanup exactly
      when no record tells. */
  lemma {:induction false} SameSecondExactly(sec: Security, m: Attempts, c: nat)
    requires IsEnabled(sec) && 0 < c && |m| < MAX_RECORDS && AllPlausible(sec, m, c)
    ensures (forall tail :: Follows(sec, m, tail, c) ==> Replies(sec, Cleaned(sec, m, c), tail) == Replies(sec, m, tail))
            <==> forall ip :: !Tells(sec, m, ip, c)
  {
    if forall ip :: !Tells(sec, m, ip, c) {
      forall tail | Follows(sec, m, tail, c) ensures Replies(sec, Cleaned(sec, m, c), tail) == Replies(sec, m, tail) {
        NothingShows(sec, m, c, tail);
      }
    } else {
      var ip :| Tells(sec, m, ip, c);
      BurstTells(sec, m, ip, c);
    }
  }

  lemma {:induction false} NothingShows(sec: Security, m: Attempts, c: nat, tail: seq<Event>)
    requires IsEnabled(sec) && 0 < c && |m| < MAX_RECORDS && AllPlausible(sec, m, c) && Follows(sec, m, tail, c)
    requires forall ip :: !Tells(sec, m, ip, c)
    ensures Replies(sec, Cleaned(sec, m, c), tail) == Replies(sec, m, tail)
  {
    TimedIsClocked(tail, c, c - 1);
    hide AllPlausible, Tells, Replies, Clocked, BelowCap, Timed, NoCleanups;
    if sec.loginMaxFailures > 1 {
      NothingTells(sec, m, c);
      AlikeReplies(sec, m, Cleaned(sec, m, c), c, c - 1, tail);
    } else {
      TwinsThemselves(sec, m, c);
      CleanupKeepsTwins(sec, m, m, c, c);
      TwinReplies(sec, m, Cleaned(sec, m, c), c, tail);
    }
  }

  // ---- when a single failure locks ----

  predicate TwinRecord(m: Attempts, k: Attempts, ip: string, now: nat) {
    && (ip in k ==> ip in m && m[ip].lastFailed == k[ip].lastFailed && m[ip].lockoutEnd == k[ip].lockoutEnd)
    && (ip in m && ip !in k ==> m[ip].lockoutEnd <= now)
  }

  /** m has never been cleaned, k has: they differ in counts and in expired records. */
  ghost predicate Twins(m: Attempts, k: Attempts, now: nat) {
    |m| <= MAX_RECORDS && forall ip :: TwinRecord(m, k, ip, now)
  }

  lemma {:induction false} TwinsThemselves(sec: Security, m: Attempts, now: nat)
    requires |m| <= MAX_RECORDS
    ensures Twins(m, m, now)
  {}

  lemma {:induction false} TwinKeys(m: Attempts, k: Attempts, now: nat)
    requires Twins(m, k, now)
    ensures |k| <= |m|
  {
    assert forall ip :: ip in k ==> TwinRecord(m, k, ip, now);
    FewerKeys(m, k);
  }

  lemma {:induction false} CleanupKeepsTwins(sec: Security, m: Attempts, k: Attempts, now: nat, c: nat)
    requires IsEnabled(sec) && Twins(m, k, now) && now <= c
    ensures Twins(m, Cleaned(sec, k, c), c)
  {
    TwinKeys(m, k, now);
    CleanedBelowCap(sec, k, c);
    forall ip ensures TwinRecord(m, Retained(k, c), ip, c) {
      assert TwinRecord(m, k, ip, now);
    }
  }

  lemma {:induction false} BumpedAtOnce(sec: Security, a: LoginAttempt, now: nat)
    requires IsEnabled(sec) && sec.loginMaxFailures == 1
    ensures var b := Bumped(sec, a, now);
            b.failures >= 1 && b.lastFailed == now && b.lockoutEnd == now + sec.loginLockoutDuration
  {}

  lemma {:induction false} FailKeepsTwins(sec: Security, m: Attempts, k: Attempts, now: nat, ip: string, t: nat)
    requires IsEnabled(sec) && sec.loginMaxFailures == 1 && Twins(m, k, now) && now <= t && |m| < MAX_RECORDS
    ensures var e := Event(Fail(ip), t);
            Twins(After(sec, m, e), After(sec, k, e), t) && Reply(sec, m, e) == Reply(sec, k, e) == [true]
  {
    TwinKeys(m, k, now);
    BumpedAtOnce(sec, if ip in m then m[ip] else LoginAttempt(0, 0, 0), t);
    BumpedAtOnce(sec, if ip in k then k[ip] else LoginAttempt(0, 0, 0), t);
    hide Bumped;
    forall x ensures TwinRecord(Failed(sec, m, ip, t), Failed(sec, k, ip, t), x, t) {
      assert TwinRecord(m, k, x, now);
    }
  }

  lemma {:induction false} OtherKeepsTwins(sec: Security, m: Attempts, k: Attempts, now: nat, e: Event)
    requires IsEnabled(sec) && Twins(m, k, now) && now <= e.now && (e.op.Check? || e.op.Clear?)
    ensures Twins(After(sec, m, e), After(sec, k, e), e.now) && Reply(sec, m, e) == Reply(sec, k, e)
  {
    FewerKeys(m, m - {e.op.ip});
    assert TwinRecord(m, k, e.op.ip, now);
    forall x ensures TwinRecord(After(sec, m, e), After(sec, k, e), x, e.now) {
      assert TwinRecord(m, k, x, now);
    }
  }

  lemma {:induction false} TwinReplies(sec: Security, m: Attempts, k: Attempts, now: nat, events: seq<Event>)
    requires IsEnabled(sec) && sec.loginMaxFailures == 1 && Twins(m, k, now)
    requires Timed(events, now) && BelowCap(sec, m, events)
    ensures Replies(sec, k, events) == Replies(sec, m, WithoutCleanups(events))
    decreases |events|
  {
    hide Twins, After, Reply;
    if events == [] {
    } else {
      var e, rest := events[0], events[1..];
      if e.op.Cleanup? {
        CleanupKeepsTwins(sec, m, k, now, e.now);
        CleanupStep(sec, k, e);
        TwinReplies(sec, m, After(sec, k, e), e.now, rest);
        assert [] + Replies(sec, After(sec, k, e), rest) == Replies(sec, After(sec, k, e), rest);
        assert [] + WithoutCleanups(rest) == WithoutCleanups(rest);
      } else {
        if e.op.Fail? { FailKeepsTwins(sec, m, k, now, e.op.ip, e.now); } else { OtherKeepsTwins(sec, m, k, now, e); }
        TwinReplies(sec, After(sec, m, e), After(sec, k, e), e.now, rest);
        assert ([e] + WithoutCleanups(rest))[1..] == WithoutCleanups(rest);
      }
    }
  }

  lemma {:induction false} CleanupStep(sec: Security, k: Attempts, e: Event)
    requires IsEnabled(sec) && e.op.Cleanup?
    ensures After(sec, k, e) == Cleaned(sec, k, e.now) && Reply(sec, k, e) == []
  {
    hide Cleaned;
  }

  // ---- runs with failures in the second of a cleanup ----

  /** A lockout, and a cleanup and one more failure as it ends. */
  function Prolonged(sec: Security, ip: string, at: nat): seq<Event>
    requires IsEnabled(sec)
  {
    var c := at + sec.loginLockoutDuration;
    Burst(ip, sec.loginMaxFailures - 1, at, [Event(Fail(ip), at), Event(Cleanup, c), Event(Fail(ip), c)])
  }

  lemma {:induction false} FirstEvent(sec: Security, m: Attempts, e: Event, rest: seq<Event>, now: nat)
    requires IsEnabled(sec)
    ensures var events := [e] + rest;
            && Replies(sec, m, events) == Reply(sec, m, e) + Replies(sec, After(sec, m, e), rest)
            && WithoutCleanups(events) == (if e.op.Cleanup? then [] else [e]) + WithoutCleanups(rest)
            && (Timed(events, now) <==> 0 < e.now && now <= e.now && Timed(rest, e.now))
            && (BelowCap(sec, m, events) <==>
                  (e.op.Fail? ==> |m| < MAX_RECORDS) && BelowCap(sec, if e.op.Cleanup? then m else After(sec, m, e), rest))
  {
    hide After, Reply;
    assert ([e] + rest)[0] == e && ([e] + rest)[1..] == rest;
  }

  lemma {:induction false} NoEvent(sec: Security, m: Attempts, now: nat)
    requires IsEnabled(sec)
    ensures Replies(sec, m, []) == [] && WithoutCleanups([]) == [] && Timed([], now) && BelowCap(sec, m, [])
  {}

  lemma {:induction false} LastEvent(sec: Security, m: Attempts, f: Event, now: nat)
    requires IsEnabled(sec) && !f.op.Cleanup?
    ensures Replies(sec, m, [f]) == Reply(sec, m, f) && WithoutCleanups([f]) == [f]
    ensures Timed([f], now) <==> 0 < f.now && now <= f.now
    ensures |m| < MAX_RECORDS ==> BelowCap(sec, m, [f])
  {
    var m' := After(sec, m, f);
    FirstEvent(sec, m, f, [], now);
    NoEvent(sec, m', f.now);
    hide After, Reply, Replies, WithoutCleanups, Timed, BelowCap;
    assert [f] + [] == [f];
  }

  lemma {:induction false} ThreeEvents(sec: Security, m: Attempts, a: Event, c: Event, f: Event)
    requires IsEnabled(sec) && !a.op.Cleanup? && c.op.Cleanup? && !f.op.Cleanup? && Reply(sec, After(sec, m, a), c) == []
    ensures var m1 := After(sec, m, a);
            && Replies(sec, m, [a, c, f]) == Reply(sec, m, a) + Reply(sec, After(sec, m1, c), f)
            && Replies(sec, m, [a, f]) == Reply(sec, m, a) + Reply(sec, m1, f)
    ensures WithoutCleanups([a, c, f]) == [a, f]
    ensures 0 < a.now <= c.now <= f.now ==> Timed([a, c, f], a.now)
    ensures |m| < MAX_RECORDS && |After(sec, m, a)| < MAX_RECORDS ==> BelowCap(sec, m, [a, c, f])
  {
    hide After, Reply, Replies, WithoutCleanups, Timed, BelowCap;
    var m1 := After(sec, m, a);
    LastEvent(sec, m1, f, c.now);
    LastEvent(sec, After(sec, m1, c), f, c.now);
    FirstEvent(sec, m1, c, [f], a.now);
    FirstEvent(sec, m, a, [c] + [f], a.now);
    FirstEvent(sec, m, a, [f], a.now);
    assert [a] + ([c] + [f]) == [a, c, f] && [a] + [f] == [a, f] && [] + [f] == [f];
    assert [] + Reply(sec, After(sec, m1, c), f) == Reply(sec, After(sec, m1, c), f);
  }

  lemma {:induction false} ProlongedEnd(sec: Security, ip: string, a: Event, c: Event)
    requires IsEnabled(sec) && sec.loginMaxFailures > 1
    requires a.op == Fail(ip) && a.now > 0 && c == Event(Cleanup, a.now + sec.loginLockoutDuration)
    ensures var m, f := AfterBurst(ip, sec.loginMaxFailures - 1, a.now), Event(Fail(ip), c.now);
            var m1 := After(sec, m, a);
            && Reply(sec, m, a) == [true] && Reply(sec, m1, c) == [] && |m1| < MAX_RECORDS
            && Reply(sec, After(sec, m1, c), f) == [false] && Reply(sec, m1, f) == [true]
  {
    var max := sec.loginMaxFailures;
    var m := AfterBurst(ip, max - 1, a.now);
    var locked := LoginAttempt(max, a.now, c.now);
    assert Bumped(sec, LoginAttempt(max - 1, a.now, 0), a.now) == locked;
    assert Bumped(sec, locked, c.now).failures == max + 1;
    assert Bumped(sec, LoginAttempt(0, 0, 0), c.now).failures == 1;
    SmallBurst(ip, max - 1, a.now);
    hide Bumped;
    var m1 := map[ip := locked];
    assert Failed(sec, m, ip, a.now) == m1;
    assert Cleaned(sec, m1, c.now) == map[];
    hide Cleaned;
  }

  /** So in a run a failure may not share the second of a cleanup, whatever the
      window, unless a single failure locks. */
  lemma {:induction false} ProlongedTells(sec: Security, ip: string, at: nat)
    requires IsEnabled(sec) && sec.loginMaxFailures > 1 && at > 0
    ensures Replies(sec, map[], Prolonged(sec, ip, at)) != Replies(sec, map[], WithoutCleanups(Prolonged(sec, ip, at)))
    ensures Timed(Prolonged(sec, ip, at), 1) && BelowCap(sec, map[], Prolonged(sec, ip, at))
  {
    hide Burst, AfterBurst, After, Reply, Replies, WithoutCleanups, Refused, Timed, BelowCap;
    var n: nat, t := sec.loginMaxFailures - 1, at + sec.loginLockoutDuration;
    var a, c, f := Event(Fail(ip), at), Event(Cleanup, t), Event(Fail(ip), t);
    SmallBurst(ip, n, at);
    ProlongedEnd(sec, ip, a, c);
    ThreeEvents(sec, AfterBurst(ip, n, at), a, c, f);
    BurstReplies(sec, ip, at, 0, n, [a, c, f]);
    BurstReplies(sec, ip, at, 0, n, [a, f]);
    BurstHasNoCleanup(ip, n, at, [a, c, f]);
    BurstIsBelowCap(sec, ip, at, 0, n, [a, c, f]);
    BurstIsTimed(ip, n, at, [a, c, f]);
    FromOne(Prolonged(sec, ip, at), at);
    assert ([true] + [false])[1] != ([true] + [true])[1];
    RefusedTells(n, [true] + [false], [true] + [true]);
  }

  /** Over all runs on a merely monotone clock, where failures may share the
      second of a cleanup, cleanups never change a reply exactly when a single
      failure locks. */
  lemma {:induction false} InvisibleInAnySecondExactly(sec: Security)
    requires IsEnabled(sec)
    ensures (forall events :: Timed(events, 1) && BelowCap(sec, map[], events) ==>
              Replies(sec, map[], events) == Replies(sec, map[], WithoutCleanups(events)))
            <==> sec.loginMaxFailures == 1
  {
    if sec.loginMaxFailures == 1 {
      forall events | Timed(events, 1) && BelowCap(sec, map[], events)
        ensures Replies(sec, map[], events) == Replies(sec, map[], WithoutCleanups(events))
      {
        TwinsThemselves(sec, map[], 1);
        TwinReplies(sec, map[], map[], 1, events);
      }
    } else {
      ProlongedTells(sec, "", 1);
    }
  }
}
