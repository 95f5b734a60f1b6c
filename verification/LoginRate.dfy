/** What a record of module BruteForce stands for, and how many failures get past
    the login gate of `server/src/auth.rs`. */
module LoginRate {
  import opened Arithmetic
  import opened BruteForce

  // ---- the record stands for a history ----

  /** The failure times of `ip` among the first n events since its last clear. */
  function History(events: seq<Event>, n: nat, ip: string): seq<nat>
    requires n <= |events|
  {
    if n == 0 then []
    else
      var e, h := events[n - 1], History(events, n - 1, ip);
      if e.op == Fail(ip) then h + [e.now] else if e.op == Clear(ip) then [] else h
  }

  function Table(sec: Security, events: seq<Event>, n: nat): Attempts
    requires IsEnabled(sec) && n <= |events|
  {
    if n == 0 then map[] else After(sec, Table(sec, events, n - 1), events[n - 1])
  }

  /** The length of the longest suffix of the history with all gaps within the window. */
  function Streak(h: seq<nat>, window: nat): (k: nat)
    ensures k <= |h| && (h != [] ==> k >= 1)
  {
    if |h| <= 1 then |h|
    else if SaturatingSub(h[|h| - 1], h[|h| - 2]) > window then 1
    else 1 + Streak(h[..|h| - 1], window)
  }

  ghost predicate GapsWithin(h: seq<nat>, from: nat, window: nat) {
    forall i :: from < i < |h| ==> SaturatingSub(h[i], h[i - 1]) <= window
  }

  ghost predicate LongGap(h: seq<nat>, i: int, window: nat) {
    0 < i < |h| && SaturatingSub(h[i], h[i - 1]) > window
  }

  lemma {:induction false} StreakGaps(h: seq<nat>, window: nat)
    ensures GapsWithin(h, |h| - Streak(h, window), window)
    ensures Streak(h, window) < |h| ==> LongGap(h, |h| - Streak(h, window), window)
  {
    if |h| > 1 && SaturatingSub(h[|h| - 1], h[|h| - 2]) <= window {
      StreakGaps(h[..|h| - 1], window);
    }
  }

  lemma {:induction false} StreakIsLongestSuffix(h: seq<nat>, window: nat)
    ensures var k := Streak(h, window);
            && GapsWithin(h, |h| - k, window)
            && forall from :: 0 <= from < |h| - k ==> !GapsWithin(h, from, window)
  {
    StreakGaps(h, window);
  }

  /** A monotone positive clock. */
  predicate Monotone(events: seq<Event>) {
    && (forall i :: 0 <= i < |events| ==> events[i].now > 0)
    && (forall i, j :: 0 <= i < j < |events| ==> events[i].now <= events[j].now)
  }

  /** And a table that is below the record cap at every failure. */
  ghost predicate SteadyRun(sec: Security, events: seq<Event>)
    requires IsEnabled(sec)
  {
    Monotone(events) && forall n :: 0 <= n < |events| && events[n].op.Fail? ==> |Table(sec, events, n)| < MAX_RECORDS
  }

  /** In every run whatsoever, no more than 3000 IPs are on record. */
  lemma {:induction false} TableSize(sec: Security, events: seq<Event>, n: nat)
    requires IsEnabled(sec) && n <= |events|
    ensures |Table(sec, events, n)| <= 3000
  {
    if n == 0 {
    } else {
      TableSize(sec, events, n - 1);
      var e, m := events[n - 1], Table(sec, events, n - 1);
      hide Bumped;
      match e.op {
        case Check(_) =>
        case Fail(_) =>
        case Clear(ip) => FewerKeys(m, m - {ip});
        case Cleanup => CleanedBelowCap(sec, m, e.now);
      }
    }
  }

  /** At the cap the next failure forgets every other IP, locked ones included, and
      its own streak; only its own record is left. */
  lemma {:induction false} CapForgets(sec: Security, m: Attempts, ip: string, now: nat, other: string, later: nat)
    requires IsEnabled(sec) && |m| >= 3000 && now > 0
    ensures Failed(sec, m, ip, now).Keys == {ip}
    ensures Failed(sec, m, ip, now)[ip].failures == 1
    ensures other != ip ==> !CheckLocked(sec, Failed(sec, m, ip, now), other, later)
    ensures CheckLocked(sec, Failed(sec, m, ip, now), ip, later) <==>
              sec.loginMaxFailures == 1 && later < now + sec.loginLockoutDuration
  {}

  lemma {:induction false} SteadyIsMonotone(sec: Security, events: seq<Event>)
    requires IsEnabled(sec) && SteadyRun(sec, events)
    ensures Monotone(events)
  {}

  /** A cleanup takes the record of ip away. */
  predicate Loses(sec: Security, m: Attempts, e: Event, ip: string) {
    e.op.Cleanup? && ip in m && !Kept(m[ip], e.now)
  }

  /** The failure times of `ip` since its last clear or dropping cleanup. */
  function Live(sec: Security, events: seq<Event>, n: nat, ip: string): seq<nat>
    requires IsEnabled(sec) && n <= |events|
  {
    if n == 0 then []
    else
      var e, h := events[n - 1], Live(sec, events, n - 1, ip);
      if e.op == Fail(ip) then h + [e.now]
      else if e.op == Clear(ip) || Loses(sec, Table(sec, events, n - 1), e, ip) then [] else h
  }

  /** The record that stands for a history. */
  predicate StandsFor(sec: Security, m: Attempts, ip: string, h: seq<nat>)
    requires IsEnabled(sec)
  {
    && (ip in m <==> h != [])
    && (h != [] ==>
          var k, last := Streak(h, sec.loginLockoutDuration), h[|h| - 1];
          m[ip] == LoginAttempt(k, last, if k >= sec.loginMaxFailures then last + sec.loginLockoutDuration else 0))
  }

  lemma {:induction false} FailExtends(sec: Security, m: Attempts, ip: string, h: seq<nat>, now: nat)
    requires IsEnabled(sec) && StandsFor(sec, m, ip, h) && |m| < MAX_RECORDS && (forall i :: 0 <= i < |h| ==> 0 < h[i])
    ensures StandsFor(sec, Failed(sec, m, ip, now), ip, h + [now])
  {
    assert (h + [now])[..|h|] == h;
  }

  /** An event other than a failure of ip keeps its record, or takes it away. */
  lemma {:induction false} OtherEvents(sec: Security, m: Attempts, e: Event, ip: string)
    requires IsEnabled(sec) && e.op != Fail(ip) && |m| <= MAX_RECORDS && (e.op.Fail? ==> |m| < MAX_RECORDS)
    ensures var m' := After(sec, m, e);
            if e.op == Clear(ip) || Loses(sec, m, e, ip) then ip !in m'
            else (ip in m' <==> ip in m) && (ip in m ==> m'[ip] == m[ip])
  {
    match e.op {
      case Check(_) =>
      case Fail(_) =>
      case Clear(_) =>
      case Cleanup => CleanedBelowCap(sec, m, e.now);
    }
    hide Bumped, Cleaned;
  }

  ghost predicate Ordered(h: seq<nat>, now: nat) {
    && (forall i :: 0 <= i < |h| ==> 0 < h[i] <= now)
    && (forall i, j :: 0 <= i < j < |h| ==> h[i] <= h[j])
  }

  lemma {:induction false} OrderedExtends(h: seq<nat>, before: nat, now: nat)
    requires Ordered(h, before) && before <= now && 0 < now
    ensures Ordered(h, now) && Ordered(h + [now], now)
  {}

  /** The time of the latest of the first n events. */
  function TimeOf(events: seq<Event>, n: nat): nat
    requires n <= |events|
  {
    if n == 0 then 0 else events[n - 1].now
  }

  lemma {:induction false} HistoryIsOrdered(events: seq<Event>, n: nat, ip: string)
    requires Monotone(events) && n <= |events|
    ensures Ordered(History(events, n, ip), TimeOf(events, n))
  {
    if n == 0 {
    } else {
      HistoryIsOrdered(events, n - 1, ip);
      var e, h := events[n - 1], History(events, n - 1, ip);
      assert TimeOf(events, n - 1) <= e.now && 0 < e.now;
      hide Monotone;
      OrderedExtends(h, TimeOf(events, n - 1), e.now);
    }
  }

  lemma {:induction false} LiveIsPositive(sec: Security, events: seq<Event>, n: nat, ip: string)
    requires IsEnabled(sec) && Monotone(events) && n <= |events|
    ensures forall i :: 0 <= i < |Live(sec, events, n, ip)| ==> 0 < Live(sec, events, n, ip)[i]
  {
    if n == 0 {
    } else {
      LiveIsPositive(sec, events, n - 1, ip);
      assert events[n - 1].now > 0;
      hide Monotone, Loses, Table;
    }
  }

  /** In every run below the cap, cleanups and all: `failures` is the length of
      the longest suffix of the IP's failure times, since its record was last
      cleared or dropped, with all gaps within the window, and `lockout_end` is
      last + window exactly when that length has reached the maximum, else 0. */
  lemma {:induction false} RecordIsHistory(sec: Security, events: seq<Event>, n: nat, ip: string)
    requires IsEnabled(sec) && SteadyRun(sec, events) && n <= |events|
    ensures StandsFor(sec, Table(sec, events, n), ip, Live(sec, events, n, ip))
  {
    hide SteadyRun, Table, Live, StandsFor, After, Loses;
    if n == 0 {
      NothingYet(sec, events, ip);
    } else {
      RecordIsHistory(sec, events, n - 1, ip);
      LiveIsPositive(sec, events, n - 1, ip) by { SteadyIsMonotone(sec, events); }
      SteadyStep(sec, events, n);
      LiveStep(sec, events, n, ip);
      RecordFollows(sec, Table(sec, events, n - 1), events[n - 1], ip, Live(sec, events, n - 1, ip));
    }
  }

  /** So in every such run the two answers are: a check finds the IP locked exactly
      when the streak of its live failures has reached the maximum and the latest
      lies less than a window back, and a failure locks exactly when the streak
      it extends reaches the maximum. */
  lemma {:induction false} AnswersFollowHistory(sec: Security, events: seq<Event>, n: nat, ip: string, now: nat)
    requires IsEnabled(sec) && SteadyRun(sec, events) && n <= |events|
    ensures var live := Live(sec, events, n, ip);
            CheckLocked(sec, Table(sec, events, n), ip, now) <==>
              live != [] && Streak(live, sec.loginLockoutDuration) >= sec.loginMaxFailures
              && now < live[|live| - 1] + sec.loginLockoutDuration
    ensures |Table(sec, events, n)| < MAX_RECORDS ==>
              (Reply(sec, Table(sec, events, n), Event(Fail(ip), now))
               == [Streak(Live(sec, events, n, ip) + [now], sec.loginLockoutDuration) >= sec.loginMaxFailures])
  {
    var m, live := Table(sec, events, n), Live(sec, events, n, ip);
    RecordIsHistory(sec, events, n, ip);
    LiveIsPositive(sec, events, n, ip) by { SteadyIsMonotone(sec, events); }
    hide SteadyRun, Live, Table;
    if |m| < MAX_RECORDS {
      FailExtends(sec, m, ip, live, now);
      assert (live + [now])[|live|] == now;
    }
    hide Streak, Failed;
  }

  lemma {:induction false} NothingYet(sec: Security, events: seq<Event>, ip: string)
    requires IsEnabled(sec)
    ensures History(events, 0, ip) == [] && Live(sec, events, 0, ip) == [] && StandsFor(sec, Table(sec, events, 0), ip, [])
  {}

  lemma {:induction false} SteadyStep(sec: Security, events: seq<Event>, n: nat)
    requires IsEnabled(sec) && SteadyRun(sec, events) && 0 < n <= |events|
    ensures var e, m := events[n - 1], Table(sec, events, n - 1);
            && |m| <= MAX_RECORDS && (e.op.Fail? ==> |m| < MAX_RECORDS) && Table(sec, events, n) == After(sec, m, e)
            && TimeOf(events, n - 1) <= e.now
  {
    TableSize(sec, events, n - 1);
    hide After;
  }

  lemma {:induction false} LiveStep(sec: Security, events: seq<Event>, n: nat, ip: string)
    requires IsEnabled(sec) && 0 < n <= |events|
    ensures var e, m := events[n - 1], Table(sec, events, n - 1);
            && Live(sec, events, n, ip) == LiveAfter(sec, m, e, ip, Live(sec, events, n - 1, ip))
            && History(events, n, ip) == HistoryAfter(e, ip, History(events, n - 1, ip))
  {
    hide Loses, Table;
  }

  function LiveAfter(sec: Security, m: Attempts, e: Event, ip: string, live: seq<nat>): seq<nat> {
    if e.op == Fail(ip) then live + [e.now] else if e.op == Clear(ip) || Loses(sec, m, e, ip) then [] else live
  }

  function HistoryAfter(e: Event, ip: string, h: seq<nat>): seq<nat> {
    if e.op == Fail(ip) then h + [e.now] else if e.op == Clear(ip) then [] else h
  }

  lemma {:induction false} RecordFollows(sec: Security, m: Attempts, e: Event, ip: string, live: seq<nat>)
    requires IsEnabled(sec) && StandsFor(sec, m, ip, live) && (forall i :: 0 <= i < |live| ==> 0 < live[i])
    requires |m| <= MAX_RECORDS && (e.op.Fail? ==> |m| < MAX_RECORDS)
    ensures StandsFor(sec, After(sec, m, e), ip, LiveAfter(sec, m, e, ip, live))
  {
    hide Streak, Loses, Failed, Cleaned;
    if e.op == Fail(ip) {
      FailExtends(sec, m, ip, live, e.now);
    } else {
      OtherEvents(sec, m, e, ip);
      hide After;
    }
  }

  /** Without cleanups that is all failures since the last clear. */
  lemma {:induction false} LiveWithoutCleanups(sec: Security, events: seq<Event>, n: nat, ip: string)
    requires IsEnabled(sec) && n <= |events| && NoCleanups(events)
    ensures Live(sec, events, n, ip) == History(events, n, ip)
  {
    if n == 0 {
    } else {
      LiveWithoutCleanups(sec, events, n - 1, ip);
      assert !events[n - 1].op.Cleanup?;
      hide Table;
    }
  }

  // ---- how the record relates to the whole history ----

  /** Nothing a cleanup drops in the run could still have locked. */
  ghost predicate Undisturbed(sec: Security, events: seq<Event>) {
    CleanupIsSafe(sec) || NoCleanups(events)
  }

  /** The record stands for the history from p on; what came before p was over a
      window old at the failure p, or is now. */
  ghost predicate RestIsOld(h: seq<nat>, p: int, window: int, now: nat) {
    0 <= p <= |h| && (p > 0 ==> (if p < |h| then h[p] else now) >= h[p - 1] + window)
  }

  lemma {:induction false} DroppedIsOld(sec: Security, m: Attempts, e: Event, ip: string, live: seq<nat>)
    requires IsEnabled(sec) && CleanupIsSafe(sec) && StandsFor(sec, m, ip, live) && Loses(sec, m, e, ip)
    ensures live != [] && e.now >= live[|live| - 1] + sec.loginLockoutDuration
  {
    hide Streak;
    var k := Streak(live, sec.loginLockoutDuration);
    assert k >= 1 by { StreakIsPositive(live, sec.loginLockoutDuration); }
  }

  lemma {:induction false} StreakIsPositive(h: seq<nat>, window: nat)
    requires h != []
    ensures Streak(h, window) >= 1
  {}

  /** The record's failures are the last ones of the history, the rest is old. */
  ghost predicate EndsOf(h: seq<nat>, live: seq<nat>, window: int, now: nat) {
    |live| <= |h| && live == h[|h| - |live|..] && RestIsOld(h, |h| - |live|, window, now)
  }

  lemma {:induction false} EndsFollow(sec: Security, m: Attempts, e: Event, ip: string, h: seq<nat>, live: seq<nat>, before: nat)
    requires IsEnabled(sec) && StandsFor(sec, m, ip, live) && EndsOf(h, live, sec.loginLockoutDuration, before) && before <= e.now
    requires Loses(sec, m, e, ip) ==> CleanupIsSafe(sec)
    ensures EndsOf(HistoryAfter(e, ip, h), LiveAfter(sec, m, e, ip, live), sec.loginLockoutDuration, e.now)
  {
    if Loses(sec, m, e, ip) {
      DroppedIsOld(sec, m, e, ip, live);
    }
    hide StandsFor, Loses, CleanupIsSafe;
  }

  lemma {:induction false} LiveIsSuffix(sec: Security, events: seq<Event>, n: nat, ip: string)
    requires IsEnabled(sec) && SteadyRun(sec, events) && Undisturbed(sec, events) && n <= |events|
    ensures EndsOf(History(events, n, ip), Live(sec, events, n, ip), sec.loginLockoutDuration, TimeOf(events, n))
  {
    hide SteadyRun, Table, Live, History, StandsFor, After, CleanupIsSafe, LiveAfter, HistoryAfter;
    if n == 0 {
      NothingYet(sec, events, ip);
    } else {
      LiveIsSuffix(sec, events, n - 1, ip);
      SteadyStep(sec, events, n);
      LiveStep(sec, events, n, ip);
      RecordIsHistory(sec, events, n - 1, ip);
      assert Loses(sec, Table(sec, events, n - 1), events[n - 1], ip) ==> CleanupIsSafe(sec);
      hide Undisturbed, Loses, EndsOf;
      EndsFollow(sec, Table(sec, events, n - 1), events[n - 1], ip,
                 History(events, n - 1, ip), Live(sec, events, n - 1, ip), TimeOf(events, n - 1));
    }
  }

  // ---- attempts in flight ----

  /** How one event may change the number of attempts of ip that are in flight,
      that is, between the check that let them pass and their failure: only a
      check that lets pass adds one, every failure ends one, and an attempt may
      end without a failure at any time. */
  predicate Flies(sec: Security, m: Attempts, e: Event, ip: string, before: nat, after: nat) {
    && after <= before + (if e.op == Check(ip) && !CheckLocked(sec, m, ip, e.now) then 1 else 0)
    && (e.op == Fail(ip) ==> after < before)
  }

  ghost predicate FliesAt(sec: Security, events: seq<Event>, flights: seq<nat>, ip: string, n: int)
    requires IsEnabled(sec)
  {
    0 <= n < |events| < |flights| && Flies(sec, Table(sec, events, n), events[n], ip, flights[n], flights[n + 1])
  }

  /** Before event n, flights[n] attempts of ip are in flight, and never more than M. */
  ghost predicate Flown(sec: Security, events: seq<Event>, flights: seq<nat>, ip: string, M: nat)
    requires IsEnabled(sec)
  {
    && |flights| == |events| + 1 && flights[0] == 0
    && (forall n :: 0 <= n < |flights| ==> flights[n] <= M)
    && forall n :: 0 <= n < |events| ==> FliesAt(sec, events, flights, ip, n)
  }

  /** Every failure of ip has passed a check, and at most M attempts of ip overlap. */
  ghost predicate Gated(sec: Security, events: seq<Event>, ip: string, M: nat)
    requires IsEnabled(sec)
  {
    exists flights :: Flown(sec, events, flights, ip, M)
  }

  /** Cleanups are at least `gap` seconds apart: six hours as the task schedules
      them, anything when the server restarts or its clock is set. */
  ghost predicate Spaced(events: seq<Event>, gap: nat) {
    forall i, j :: 0 <= i < j < |events| && events[i].op.Cleanup? && events[j].op.Cleanup? ==> events[j].now >= events[i].now + gap
  }

  /** The time of the latest cleanup among the first n events, or 0. */
  function LastCleanup(events: seq<Event>, n: nat): nat
    requires n <= |events|
  {
    if n == 0 then 0 else if events[n - 1].op.Cleanup? then events[n - 1].now else LastCleanup(events, n - 1)
  }

  lemma {:induction false} LastCleanupIs(events: seq<Event>, n: nat)
    requires n <= |events|
    ensures LastCleanup(events, n) > 0 ==> exists i :: 0 <= i < n && events[i] == Event(Cleanup, LastCleanup(events, n))
  {
    if n == 0 {
    } else if events[n - 1].op.Cleanup? {
      assert events[n - 1] == Event(Cleanup, LastCleanup(events, n));
    } else {
      LastCleanupIs(events, n - 1);
    }
  }

  lemma {:induction false} NextCleanup(events: seq<Event>, n: nat, gap: nat)
    requires Spaced(events, gap) && n < |events| && events[n].op.Cleanup? && LastCleanup(events, n) > 0
    ensures events[n].now >= LastCleanup(events, n) + gap
  {
    LastCleanupIs(events, n);
  }

  // ---- the rate of failures behind the gate ----

  /** The least distance of two cleanups that both drop a record of one IP. */
  function Period(gap: nat): nat { if gap >= IDLE_TTL then gap else IDLE_TTL }

  /** The least time after a failure at which the d-th record since can be dropped. */
  function DropTime(gap: nat, d: nat): nat { if d == 0 then 0 else IDLE_TTL + Period(gap) * (d - 1) }

  /** How many records of an IP can be dropped within less than a window. */
  function Drops(sec: Security, gap: nat): nat {
    if sec.loginLockoutDuration <= IDLE_TTL then 0 else (sec.loginLockoutDuration - 1 - IDLE_TTL) / Period(gap) + 1
  }

  /** How many failures of an IP get past the gate within less than a window. */
  function Most(sec: Security, gap: nat, M: nat): nat
    requires IsEnabled(sec)
  {
    (Drops(sec, gap) + 1) * (sec.loginMaxFailures - 1) + M
  }

  lemma {:induction false} DropsExactly(sec: Security, gap: nat, d: nat)
    requires IsEnabled(sec)
    ensures DropTime(gap, d) < sec.loginLockoutDuration <==> d <= Drops(sec, gap)
  {
    var x := sec.loginLockoutDuration - 1 - IDLE_TTL;
    if d > 0 && x >= 0 {
      Quotient(x, Period(gap), d - 1);
    } else if d > 0 {
      assert Period(gap) * (d - 1) >= 0;
    }
  }

  lemma {:induction false} Quotient(x: nat, p: nat, d: nat)
    requires p > 0
    ensures p * d <= x <==> d <= x / p
  {
    var q := x / p;
    assert p * q <= x < p * (q + 1);
    if d <= q { assert p * d <= p * q; } else { assert p * d >= p * (q + 1); }
  }

  lemma {:induction false} MoreDrops(d: nat, e: nat, k: nat)
    requires d <= e
    ensures (d + 1) * k == d * k + k <= (e + 1) * k
  {
    assert (e - d) * k >= 0;
    assert (e + 1) * k == (d + 1) * k + (e - d) * k;
  }

  /** What is known some time after failure i, d dropped records later: all but the
      streak of the record were at most max - 1 for each dropped record, and once
      the record locks, only attempts in flight can still fail. */
  ghost predicate Tally(sec: Security, h: seq<nat>, live: seq<nat>, i: nat, d: nat, flight: nat, gap: nat, M: nat)
    requires IsEnabled(sec)
  {
    var max, k := sec.loginMaxFailures, Streak(live, sec.loginLockoutDuration);
    && i < |h|
    && (live != [] ==> live[|live| - 1] >= h[i] + DropTime(gap, d))
    && |h| - i <= d * (max - 1) + if k < max then k else max - 1 + M - flight
  }

  lemma {:induction false} StreakGrows(live: seq<nat>, now: nat, window: nat)
    requires live != [] ==> now <= live[|live| - 1] + window
    ensures Streak(live + [now], window) == Streak(live, window) + 1
  {
    assert (live + [now])[..|live|] == live;
  }

  /** Failure i itself. */
  lemma {:induction false} TallyStarts(sec: Security, h: seq<nat>, live: seq<nat>, now: nat, flight: nat, gap: nat, M: nat)
    requires IsEnabled(sec) && flight < M
    ensures Tally(sec, h + [now], live + [now], |h|, 0, flight, gap, M)
  {
    StreakIsPositive(live + [now], sec.loginLockoutDuration);
  }

  /** A later failure. */
  lemma {:induction false} TallyFails(
    sec: Security, h: seq<nat>, live: seq<nat>, i: nat, d: nat, before: nat, after: nat, gap: nat, M: nat, now: nat)
    requires IsEnabled(sec) && Tally(sec, h, live, i, d, before, gap, M) && after < before <= M
    requires h[i] + DropTime(gap, d) <= now < h[i] + sec.loginLockoutDuration
    ensures Tally(sec, h + [now], live + [now], i, d, after, gap, M)
  {
    hide DropTime, Streak;
    StreakGrows(live, now, sec.loginLockoutDuration);
  }

  /** A cleanup that drops the record. */
  lemma {:induction false} TallyDrops(
    sec: Security, m: Attempts, e: Event, ip: string, h: seq<nat>, live: seq<nat>, i: nat, d: nat,
    before: nat, after: nat, gap: nat, M: nat, last: nat)
    requires IsEnabled(sec) && Tally(sec, h, live, i, d, before, gap, M) && e.now < h[i] + sec.loginLockoutDuration
    requires StandsFor(sec, m, ip, live) && Loses(sec, m, e, ip)
    requires d > 0 ==> last >= h[i] + DropTime(gap, d) && e.now >= last + gap
    ensures Tally(sec, h, [], i, d + 1, after, gap, M) && e.now >= h[i] + DropTime(gap, d + 1)
  {
    assert Streak([], sec.loginLockoutDuration) == 0;
    hide Streak;
    var max := sec.loginMaxFailures;
    assert e.now >= live[|live| - 1] + IDLE_TTL;
    MoreDrops(d, d, max - 1);
    NextDropTime(gap, d);
  }

  lemma {:induction false} DropTimeIsPositive(gap: nat, d: nat)
    ensures d > 0 ==> DropTime(gap, d) > 0
  {}

  lemma {:induction false} NextDropTime(gap: nat, d: nat)
    ensures DropTime(gap, d + 1) == if d == 0 then IDLE_TTL else DropTime(gap, d) + Period(gap)
  {
    if d > 0 { assert Period(gap) * d == Period(gap) * (d - 1) + Period(gap); }
  }

  /** Any other event: only a check that lets pass adds to the attempts in flight. */
  lemma {:induction false} TallyStays(
    sec: Security, m: Attempts, e: Event, ip: string, h: seq<nat>, live: seq<nat>, i: nat, d: nat,
    before: nat, after: nat, gap: nat, M: nat)
    requires IsEnabled(sec) && Tally(sec, h, live, i, d, before, gap, M) && e.now < h[i] + sec.loginLockoutDuration
    requires StandsFor(sec, m, ip, live) && Flies(sec, m, e, ip, before, after)
    ensures Tally(sec, h, live, i, d, after, gap, M)
  {
    hide Streak, DropTime;
  }

  /** The tally at a time `now` within a window of failure i, when the latest
      cleanup was at `last`. */
  ghost predicate TallyNow(
    sec: Security, h: seq<nat>, live: seq<nat>, now: nat, last: nat, i: nat, d: nat, flight: nat, gap: nat, M: nat)
    requires IsEnabled(sec)
  {
    && i < |h| && Tally(sec, h, live, i, d, flight, gap, M)
    && now >= h[i] + DropTime(gap, d) && (d > 0 ==> last >= h[i] + DropTime(gap, d))
  }

  /** The tally after n events. */
  ghost predicate TallyAt(sec: Security, events: seq<Event>, flights: seq<nat>, n: nat, ip: string, i: nat, d: nat, gap: nat, M: nat)
    requires IsEnabled(sec) && n <= |events| < |flights|
  {
    TallyNow(sec, History(events, n, ip), Live(sec, events, n, ip), TimeOf(events, n), LastCleanup(events, n), i, d, flights[n], gap, M)
  }

  function LastAfter(e: Event, last: nat): nat { if e.op.Cleanup? then e.now else last }

  /** One event that is not a clear. */
  lemma {:induction false} TallyFollows(
    sec: Security, m: Attempts, e: Event, ip: string, h: seq<nat>, live: seq<nat>, now: nat, last: nat, i: nat, d: nat,
    before: nat, after: nat, gap: nat, M: nat) returns (d': nat)
    requires IsEnabled(sec) && TallyNow(sec, h, live, now, last, i, d, before, gap, M) && before <= M && e.op != Clear(ip)
    requires StandsFor(sec, m, ip, live) && Flies(sec, m, e, ip, before, after)
    requires i < |h| && now <= e.now < h[i] + sec.loginLockoutDuration
    requires last > 0 && e.op.Cleanup? ==> e.now >= last + gap
    ensures TallyNow(sec, HistoryAfter(e, ip, h), LiveAfter(sec, m, e, ip, live), e.now, LastAfter(e, last), i, d', after, gap, M)
  {
    assert d > 0 ==> DropTime(gap, d) > 0;
    hide Tally, DropTime, StandsFor;
    d' := d;
    if e.op == Fail(ip) {
      TallyFails(sec, h, live, i, d, before, after, gap, M, e.now);
    } else if Loses(sec, m, e, ip) {
      d' := d + 1;
      TallyDrops(sec, m, e, ip, h, live, i, d, before, after, gap, M, last);
    } else {
      TallyStays(sec, m, e, ip, h, live, i, d, before, after, gap, M);
    }
  }

  /** What the run says about event n. */
  lemma {:induction false} EventFacts(sec: Security, events: seq<Event>, flights: seq<nat>, n: nat, ip: string, gap: nat, M: nat)
    requires IsEnabled(sec) && SteadyRun(sec, events) && Flown(sec, events, flights, ip, M) && Spaced(events, gap)
    requires n < |events|
    ensures var e, m := events[n], Table(sec, events, n);
            && |events| < |flights| && flights[n] <= M && Flies(sec, m, e, ip, flights[n], flights[n + 1])
            && StandsFor(sec, m, ip, Live(sec, events, n, ip))
            && Live(sec, events, n + 1, ip) == LiveAfter(sec, m, e, ip, Live(sec, events, n, ip))
            && History(events, n + 1, ip) == HistoryAfter(e, ip, History(events, n, ip))
            && TimeOf(events, n) <= e.now == TimeOf(events, n + 1)
  {
    RecordIsHistory(sec, events, n, ip);
    SteadyStep(sec, events, n + 1);
    LiveStep(sec, events, n + 1, ip);
    assert FliesAt(sec, events, flights, ip, n) && flights[n] <= M;
    hide SteadyRun, Flown, Spaced, Table, History, Live, StandsFor, Flies, LiveAfter, HistoryAfter;
  }

  lemma {:induction false} CleanupFacts(events: seq<Event>, n: nat, gap: nat)
    requires Spaced(events, gap) && n < |events|
    ensures LastCleanup(events, n + 1) == LastAfter(events[n], LastCleanup(events, n))
    ensures LastCleanup(events, n) > 0 && events[n].op.Cleanup? ==> events[n].now >= LastCleanup(events, n) + gap
  {
    if LastCleanup(events, n) > 0 && events[n].op.Cleanup? { NextCleanup(events, n, gap); }
    hide Spaced;
  }

  lemma {:induction false} NeverCleaned(events: seq<Event>, n: nat)
    requires NoCleanups(events) && n <= |events|
    ensures LastCleanup(events, n) == 0
  {
    if n == 0 {
    } else {
      NeverCleaned(events, n - 1);
    }
  }

  lemma {:induction false} TallyStep(
    sec: Security, events: seq<Event>, flights: seq<nat>, n: nat, ip: string, i: nat, d: nat, gap: nat, M: nat) returns (d': nat)
    requires IsEnabled(sec) && SteadyRun(sec, events) && Flown(sec, events, flights, ip, M) && Spaced(events, gap)
    requires n < |events| && events[n].op != Clear(ip) && i < |History(events, n, ip)|
    requires TallyAt(sec, events, flights, n, ip, i, d, gap, M)
    requires events[n].now < History(events, n, ip)[i] + sec.loginLockoutDuration
    ensures TallyAt(sec, events, flights, n + 1, ip, i, d', gap, M)
  {
    EventFacts(sec, events, flights, n, ip, gap, M);
    CleanupFacts(events, n, gap);
    hide SteadyRun, Flown, Spaced, Table, History, Live, StandsFor, TallyNow, Flies, HistoryAfter, LiveAfter, LastAfter,
      LastCleanup, TimeOf;
    d' := TallyFollows(sec, Table(sec, events, n), events[n], ip, History(events, n, ip), Live(sec, events, n, ip),
                       TimeOf(events, n), LastCleanup(events, n), i, d, flights[n], flights[n + 1], gap, M);
  }

  lemma {:induction false} Tallied(
    sec: Security, events: seq<Event>, flights: seq<nat>, n: nat, ip: string, i: nat, gap: nat, M: nat) returns (d: nat)
    requires IsEnabled(sec) && SteadyRun(sec, events) && Flown(sec, events, flights, ip, M) && Spaced(events, gap)
    requires n <= |events| && i < |History(events, n, ip)|
    requires TimeOf(events, n) < History(events, n, ip)[i] + sec.loginLockoutDuration
    ensures TallyAt(sec, events, flights, n, ip, i, d, gap, M)
  {
    var e, h := events[n - 1], History(events, n - 1, ip);
    LiveStep(sec, events, n, ip);
    SteadyStep(sec, events, n);
    assert FliesAt(sec, events, flights, ip, n - 1) && flights[n - 1] <= M;
    hide SteadyRun, Flown, Spaced, Table, Live, Tally, FliesAt;
    if i < |h| {
      hide TallyAt;
      d := Tallied(sec, events, flights, n - 1, ip, i, gap, M);
      d := TallyStep(sec, events, flights, n - 1, ip, i, d, gap, M);
    } else {
      d := 0;
      TallyStarts(sec, h, Live(sec, events, n - 1, ip), e.now, flights[n], gap, M);
    }
  }

  /** Failures i and i + N of ip, since its last clear, are a window apart. */
  predicate SpreadAt(sec: Security, events: seq<Event>, n: nat, ip: string, N: nat, i: nat)
    requires IsEnabled(sec) && n <= |events|
  {
    var h := History(events, n, ip);
    i + N < |h| ==> h[i + N] >= h[i] + sec.loginLockoutDuration
  }

  /** At most N failures of ip fall within less than a window. */
  ghost predicate RateBounded(sec: Security, events: seq<Event>, ip: string, N: nat)
    requires IsEnabled(sec)
  {
    forall n: nat, i: nat :: n <= |events| ==> SpreadAt(sec, events, n, ip, N, i)
  }

  lemma {:induction false} TallyBounds(
    sec: Security, h: seq<nat>, live: seq<nat>, i: nat, d: nat, flight: nat, gap: nat, M: nat, now: nat)
    requires IsEnabled(sec) && Tally(sec, h, live, i, d, flight, gap, M) && 0 < flight <= M
    requires h[i] + DropTime(gap, d) <= now < h[i] + sec.loginLockoutDuration
    ensures |h| - i < Most(sec, gap, M)
    ensures d == 0 ==> |h| - i < sec.loginMaxFailures - 1 + M
  {
    hide Streak, DropTime, Drops;
    DropsExactly(sec, gap, d);
    MoreDrops(d, Drops(sec, gap), sec.loginMaxFailures - 1);
  }

  /** Behind the gate, with at most M overlapping attempts of an IP and cleanups at
      least `gap` apart, no more than Most failures of it (since its last clear)
      fall within less than a window, and max - 1 + M if there are no cleanups. */
  lemma {:induction false} FailureRateIsBounded(
    sec: Security, events: seq<Event>, flights: seq<nat>, n: nat, ip: string, i: nat, gap: nat, M: nat, N: nat)
    requires IsEnabled(sec) && SteadyRun(sec, events) && Flown(sec, events, flights, ip, M) && Spaced(events, gap)
    requires n <= |events| && N > 0
    requires N >= Most(sec, gap, M) || (NoCleanups(events) && N >= sec.loginMaxFailures - 1 + M)
    ensures SpreadAt(sec, events, n, ip, N, i)
  {
    hide SteadyRun, Flown, Spaced, Table, Live, Tally, FliesAt, Most, DropTime;
    if n == 0 {
    } else {
      FailureRateIsBounded(sec, events, flights, n - 1, ip, i, gap, M, N);
      var e, h := events[n - 1], History(events, n - 1, ip);
      SteadyStep(sec, events, n);
      if e.op == Fail(ip) && i + N == |h| && e.now < h[i] + sec.loginLockoutDuration {
        FlightBefore(sec, events, flights, ip, M, n - 1);
        var d := Tallied(sec, events, flights, n - 1, ip, i, gap, M);
        if NoCleanups(events) { NeverCleaned(events, n - 1); }
        assert DropTime(gap, d) > 0 || d == 0 by { DropTimeIsPositive(gap, d); }
        TallyBounds(sec, h, Live(sec, events, n - 1, ip), i, d, flights[n - 1], gap, M, e.now);
      }
    }
  }

  lemma {:induction false} FlightBefore(sec: Security, events: seq<Event>, flights: seq<nat>, ip: string, M: nat, n: nat)
    requires IsEnabled(sec) && Flown(sec, events, flights, ip, M) && n < |events| && events[n].op == Fail(ip)
    ensures |flights| == |events| + 1 && 0 < flights[n] <= M
  {
    assert FliesAt(sec, events, flights, ip, n);
  }

  // ---- and it is reached ----

  /** The table of one IP after k failures, all at time `at`. */
  function Rec(sec: Security, ip: string, at: nat, k: nat): Attempts
    requires IsEnabled(sec)
  {
    if k == 0 then map[]
    else map[ip := LoginAttempt(k, at, if k >= sec.loginMaxFailures then at + sec.loginLockoutDuration else 0)]
  }

  lemma {:induction false} RecFails(sec: Security, ip: string, at: nat, k: nat)
    requires IsEnabled(sec) && at > 0
    ensures Failed(sec, Rec(sec, ip, at, k), ip, at) == Rec(sec, ip, at, k + 1) && |Rec(sec, ip, at, k)| < MAX_RECORDS
    ensures CheckLocked(sec, Rec(sec, ip, at, k), ip, at) <==> k >= sec.loginMaxFailures
  {
    var m := Rec(sec, ip, at, k);
    var locks := k + 1 >= sec.loginMaxFailures;
    assert Bumped(sec, if k == 0 then LoginAttempt(0, 0, 0) else m[ip], at)
        == LoginAttempt(k + 1, at, if locks then at + sec.loginLockoutDuration else 0);
    hide Bumped;
  }

  lemma {:induction false} RecTurns(sec: Security, ip: string, at: nat, c: nat)
    requires IsEnabled(sec) && at + IDLE_TTL <= c
    ensures Cleaned(sec, Rec(sec, ip, at, sec.loginMaxFailures - 1), c) == Rec(sec, ip, c, 0)
  {
    var m := Rec(sec, ip, at, sec.loginMaxFailures - 1);
    assert Retained(m, c) == map[];
  }

  lemma {:induction false} SamePrefix(sec: Security, events: seq<Event>, e: Event, n: nat, ip: string)
    requires IsEnabled(sec) && n <= |events|
    ensures Table(sec, events + [e], n) == Table(sec, events, n)
    ensures History(events + [e], n, ip) == History(events, n, ip)
    ensures LastCleanup(events + [e], n) == LastCleanup(events, n)
  {
    hide After;
    if n == 0 {
    } else {
      SamePrefix(sec, events, e, n - 1, ip);
    }
  }

  lemma {:induction false} SteadyExtends(sec: Security, events: seq<Event>, e: Event)
    requires IsEnabled(sec) && SteadyRun(sec, events) && 0 < e.now && TimeOf(events, |events|) <= e.now
    requires e.op.Fail? ==> |Table(sec, events, |events|)| < MAX_RECORDS
    ensures SteadyRun(sec, events + [e])
  {
    hide Table;
    forall n | 0 <= n < |events + [e]| && (events + [e])[n].op.Fail? ensures |Table(sec, events + [e], n)| < MAX_RECORDS {
      SamePrefix(sec, events, e, n, "");
    }
  }

  lemma {:induction false} FlightExtends(sec: Security, events: seq<Event>, flights: seq<nat>, e: Event, after: nat, ip: string, M: nat)
    requires IsEnabled(sec) && Flown(sec, events, flights, ip, M) && after <= M
    requires Flies(sec, Table(sec, events, |events|), e, ip, flights[|events|], after)
    ensures Flown(sec, events + [e], flights + [after], ip, M)
  {
    hide Table, Flies;
    forall n | 0 <= n < |events + [e]| ensures FliesAt(sec, events + [e], flights + [after], ip, n) {
      SamePrefix(sec, events, e, n, ip);
      assert n < |events| ==> FliesAt(sec, events, flights, ip, n);
    }
  }

  lemma {:induction false} SpacingExtends(events: seq<Event>, e: Event, gap: nat)
    requires Monotone(events) && Spaced(events, gap)
    requires e.op.Cleanup? && LastCleanup(events, |events|) > 0 ==> e.now >= LastCleanup(events, |events|) + gap
    ensures Spaced(events + [e], gap)
  {
    LatestCleanup(events, |events|);
  }

  lemma {:induction false} LatestCleanup(events: seq<Event>, n: nat)
    requires Monotone(events) && n <= |events|
    ensures forall i :: 0 <= i < n && events[i].op.Cleanup? ==> 0 < events[i].now <= LastCleanup(events, n)
  {
    if n == 0 {
    } else {
      LatestCleanup(events, n - 1);
    }
  }

  /** A run with its flights. */
  datatype Flight = Flight(events: seq<Event>, flights: seq<nat>)

  /** The record holds k failures, all at the present time `at`, and f attempts are in flight. */
  ghost predicate Stands(sec: Security, r: Flight, ip: string, gap: nat, M: nat, at: nat, k: nat, f: nat)
    requires IsEnabled(sec)
  {
    var n := |r.events|;
    && SteadyRun(sec, r.events) && Flown(sec, r.events, r.flights, ip, M) && Spaced(r.events, gap)
    && 0 < at && TimeOf(r.events, n) <= at && r.flights[n] == f && Table(sec, r.events, n) == Rec(sec, ip, at, k)
  }

  /** c failures in all, none before `start`, and no cleanup at `start`. */
  ghost predicate Counts(r: Flight, ip: string, start: nat, at: nat, c: nat) {
    var n := |r.events|; var h := History(r.events, n, ip);
    && |h| == c && (forall i :: 0 <= i < c ==> start <= h[i] <= at)
    && LastCleanup(r.events, n) <= at && (at == start ==> LastCleanup(r.events, n) == 0)
  }

  ghost predicate Stage(sec: Security, r: Flight, ip: string, gap: nat, M: nat, start: nat, at: nat, k: nat, f: nat, c: nat)
    requires IsEnabled(sec)
  {
    Stands(sec, r, ip, gap, M, at, k, f) && Counts(r, ip, start, at, c) && start <= at
  }

  function Then(r: Flight, e: Event, f: nat): Flight { Flight(r.events + [e], r.flights + [f]) }

  lemma {:induction false} ThenStands(sec: Security, r: Flight, ip: string, gap: nat, M: nat, at: nat, k: nat, f: nat,
                                      e: Event, k': nat, f': nat)
    requires IsEnabled(sec) && Stands(sec, r, ip, gap, M, at, k, f) && at <= e.now && f' <= M
    requires Flies(sec, Rec(sec, ip, at, k), e, ip, f, f') && After(sec, Rec(sec, ip, at, k), e) == Rec(sec, ip, e.now, k')
    requires e.op.Cleanup? && LastCleanup(r.events, |r.events|) > 0 ==> e.now >= LastCleanup(r.events, |r.events|) + gap
    ensures Stands(sec, Then(r, e, f'), ip, gap, M, e.now, k', f')
    ensures History(r.events + [e], |r.events| + 1, ip) == HistoryAfter(e, ip, History(r.events, |r.events|, ip))
    ensures LastCleanup(r.events + [e], |r.events| + 1) == if e.op.Cleanup? then e.now else LastCleanup(r.events, |r.events|)
  {
    var n := |r.events|;
    RecFails(sec, ip, at, k);
    SamePrefix(sec, r.events, e, n, ip);
    assert (r.events + [e])[n] == e;
    assert Table(sec, r.events + [e], n + 1) == After(sec, Table(sec, r.events, n), e);
    hide After, Flies, Rec, Table, Failed, History;
    SteadyExtends(sec, r.events, e);
    FlightExtends(sec, r.events, r.flights, e, f', ip, M);
    SteadyIsMonotone(sec, r.events);
    SpacingExtends(r.events, e, gap);
    hide SteadyRun, Flown, Spaced;
  }

  lemma {:induction false} OneCheck(sec: Security, r: Flight, ip: string, gap: nat, M: nat, start: nat, at: nat, k: nat, f: nat, c: nat)
    requires IsEnabled(sec) && Stage(sec, r, ip, gap, M, start, at, k, f, c) && k < sec.loginMaxFailures && f < M
    ensures Stage(sec, Then(r, Event(Check(ip), at), f + 1), ip, gap, M, start, at, k, f + 1, c)
  {
    RecFails(sec, ip, at, k);
    hide Stands, Rec, History, LastCleanup;
    ThenStands(sec, r, ip, gap, M, at, k, f, Event(Check(ip), at), k, f + 1);
  }

  lemma {:induction false} OneFail(sec: Security, r: Flight, ip: string, gap: nat, M: nat, start: nat, at: nat, k: nat, f: nat, c: nat)
    requires IsEnabled(sec) && Stage(sec, r, ip, gap, M, start, at, k, f, c) && 0 < f <= M
    ensures Stage(sec, Then(r, Event(Fail(ip), at), f - 1), ip, gap, M, start, at, k + 1, f - 1, c + 1)
  {
    assert 0 < at;
    FailFlies(sec, ip, at, k, f);
    hide Stands, Rec, History, LastCleanup, Counts, After, Flies;
    ThenStands(sec, r, ip, gap, M, at, k, f, Event(Fail(ip), at), k + 1, f - 1);
    FailCounts(r, ip, start, at, c, f - 1);
  }

  lemma {:induction false} FailFlies(sec: Security, ip: string, at: nat, k: nat, f: nat)
    requires IsEnabled(sec) && at > 0 && f > 0
    ensures var e := Event(Fail(ip), at);
            After(sec, Rec(sec, ip, at, k), e) == Rec(sec, ip, at, k + 1) && Flies(sec, Rec(sec, ip, at, k), e, ip, f, f - 1)
  {
    RecFails(sec, ip, at, k);
    hide Rec, Failed;
  }

  lemma {:induction false} FailCounts(r: Flight, ip: string, start: nat, at: nat, c: nat, f: nat)
    requires Counts(r, ip, start, at, c) && start <= at
    requires History(r.events + [Event(Fail(ip), at)], |r.events| + 1, ip) == History(r.events, |r.events|, ip) + [at]
    requires LastCleanup(r.events + [Event(Fail(ip), at)], |r.events| + 1) == LastCleanup(r.events, |r.events|)
    ensures Counts(Then(r, Event(Fail(ip), at), f), ip, start, at, c + 1)
  {
    hide History, LastCleanup;
  }

  lemma {:induction false} OneCleanup(
    sec: Security, r: Flight, ip: string, gap: nat, M: nat, start: nat, at: nat, later: nat, f: nat, c: nat)
    requires IsEnabled(sec) && Stage(sec, r, ip, gap, M, start, at, sec.loginMaxFailures - 1, f, c) && f <= M
    requires at + IDLE_TTL <= later && (start < at ==> at + gap <= later)
    ensures Stage(sec, Then(r, Event(Cleanup, later), f), ip, gap, M, start, later, 0, f, c)
  {
    RecTurns(sec, ip, at, later);
    hide Stands, Rec, History, LastCleanup, Cleaned;
    ThenStands(sec, r, ip, gap, M, at, sec.loginMaxFailures - 1, f, Event(Cleanup, later), 0, f);
  }

  /** n attempts, one after the other. */
  lemma {:induction false} InTurn(sec: Security, r: Flight, ip: string, gap: nat, M: nat, start: nat, at: nat, n: nat, c: nat)
    returns (r': Flight)
    requires IsEnabled(sec) && Stage(sec, r, ip, gap, M, start, at, 0, 0, c) && n < sec.loginMaxFailures && M > 0
    ensures Stage(sec, r', ip, gap, M, start, at, n, 0, c + n)
  {
    hide Stage;
    r' := r;
    if n == 0 {
    } else {
      r' := InTurn(sec, r, ip, gap, M, start, at, n - 1, c);
      OneCheck(sec, r', ip, gap, M, start, at, n - 1, 0, c + n - 1);
      r' := Then(r', Event(Check(ip), at), 1);
      OneFail(sec, r', ip, gap, M, start, at, n - 1, 1, c + n - 1);
      r' := Then(r', Event(Fail(ip), at), 0);
    }
  }

  /** n attempts get past the check before any of them fails. */
  lemma {:induction false} PassTogether(sec: Security, r: Flight, ip: string, gap: nat, M: nat, start: nat, at: nat, k: nat, n: nat, c: nat)
    returns (r': Flight)
    requires IsEnabled(sec) && Stage(sec, r, ip, gap, M, start, at, k, 0, c) && k < sec.loginMaxFailures && n <= M
    ensures Stage(sec, r', ip, gap, M, start, at, k, n, c)
  {
    hide Stage;
    r' := r;
    if n == 0 {
    } else {
      r' := PassTogether(sec, r, ip, gap, M, start, at, k, n - 1, c);
      OneCheck(sec, r', ip, gap, M, start, at, k, n - 1, c);
      r' := Then(r', Event(Check(ip), at), n);
    }
  }

  /** Then n of the f attempts in flight fail. */
  lemma {:induction false} FailTogether(
    sec: Security, r: Flight, ip: string, gap: nat, M: nat, start: nat, at: nat, k: nat, f: nat, n: nat, c: nat)
    returns (r': Flight)
    requires IsEnabled(sec) && Stage(sec, r, ip, gap, M, start, at, k, f, c) && n <= f <= M
    ensures Stage(sec, r', ip, gap, M, start, at, k + n, f - n, c + n)
  {
    hide Stage;
    r' := r;
    if n == 0 {
    } else {
      r' := FailTogether(sec, r, ip, gap, M, start, at, k, f, n - 1, c);
      OneFail(sec, r', ip, gap, M, start, at, k + n - 1, f - n + 1, c + n - 1);
      r' := Then(r', Event(Fail(ip), at), f - n);
    }
  }

  lemma {:induction false} NothingStands(sec: Security, ip: string, gap: nat, M: nat, start: nat)
    requires IsEnabled(sec) && start > 0
    ensures Stage(sec, Flight([], [0]), ip, gap, M, start, start, 0, 0, 0)
  {}

  /** max - 1 attempts, and a cleanup that drops their record. */
  lemma {:induction false} Round(sec: Security, r: Flight, ip: string, gap: nat, M: nat, start: nat, at: nat, later: nat, c: nat)
    returns (r': Flight)
    requires IsEnabled(sec) && Stage(sec, r, ip, gap, M, start, at, 0, 0, c) && M > 0
    requires at + IDLE_TTL <= later && (start < at ==> at + gap <= later)
    ensures Stage(sec, r', ip, gap, M, start, later, 0, 0, c + (sec.loginMaxFailures - 1))
  {
    hide Stage;
    var k: nat := sec.loginMaxFailures - 1;
    r' := InTurn(sec, r, ip, gap, M, start, at, k, c);
    OneCleanup(sec, r', ip, gap, M, start, at, later, 0, c + k);
    r' := Then(r', Event(Cleanup, later), 0);
  }

  /** d such rounds, one as soon as the record of the one before can be dropped. */
  lemma {:induction false} Rounds(sec: Security, ip: string, gap: nat, M: nat, start: nat, d: nat) returns (r: Flight)
    requires IsEnabled(sec) && M > 0 && start > 0
    ensures Stage(sec, r, ip, gap, M, start, start + DropTime(gap, d), 0, 0, d * (sec.loginMaxFailures - 1))
  {
    var k: nat := sec.loginMaxFailures - 1;
    hide Stage, IsEnabled;
    if d == 0 {
      assert d * k == 0;
      r := Flight([], [0]);
      NothingStands(sec, ip, gap, M, start);
    } else {
      MoreDrops(d - 1, d - 1, k);
      NextDropTime(gap, d - 1);
      assert d == 1 ==> DropTime(gap, d - 1) == 0;
      hide DropTime;
      r := Rounds(sec, ip, gap, M, start, d - 1);
      r := Round(sec, r, ip, gap, M, start, start + DropTime(gap, d - 1), start + DropTime(gap, d), (d - 1) * k);
    }
  }

  /** From any second on: Most failures within less than a window. */
  lemma {:induction false} MostAreReached(sec: Security, ip: string, gap: nat, M: nat, start: nat) returns (r: Flight)
    requires IsEnabled(sec) && M > 0 && start > 0
    ensures SteadyRun(sec, r.events) && Flown(sec, r.events, r.flights, ip, M) && Spaced(r.events, gap)
    ensures var h := History(r.events, |r.events|, ip);
            |h| == Most(sec, gap, M) && forall i :: 0 <= i < |h| ==> start <= h[i] < start + sec.loginLockoutDuration
  {
    var k: nat, d := sec.loginMaxFailures - 1, Drops(sec, gap);
    var at := start + DropTime(gap, d);
    DropsExactly(sec, gap, d);
    MoreDrops(d, d, k);
    hide DropTime, Drops;
    StageMeans(sec, ip, gap, M, start, at);
    hide Stage;
    r := Rounds(sec, ip, gap, M, start, d);
    r := InTurn(sec, r, ip, gap, M, start, at, k, d * k);
    r := PassTogether(sec, r, ip, gap, M, start, at, k, M, d * k + k);
    r := FailTogether(sec, r, ip, gap, M, start, at, k, M, M, d * k + k);
  }

  lemma {:induction false} StageMeans(sec: Security, ip: string, gap: nat, M: nat, start: nat, at: nat)
    requires IsEnabled(sec)
    ensures forall r, k: nat, f: nat, c: nat :: Stage(sec, r, ip, gap, M, start, at, k, f, c) ==>
              SteadyRun(sec, r.events) && Flown(sec, r.events, r.flights, ip, M) && Spaced(r.events, gap)
    ensures forall r, k: nat, f: nat, c: nat :: Stage(sec, r, ip, gap, M, start, at, k, f, c) ==>
              var h := History(r.events, |r.events|, ip);
              |h| == c && forall i :: 0 <= i < c ==> start <= h[i] <= at
  {}

  lemma {:induction false} MostIsNeeded(sec: Security, ip: string, gap: nat, M: nat, N: nat, start: nat) returns (r: Flight)
    requires IsEnabled(sec) && M > 0 && start > 0 && N < Most(sec, gap, M)
    ensures SteadyRun(sec, r.events) && Gated(sec, r.events, ip, M) && Spaced(r.events, gap)
    ensures !SpreadAt(sec, r.events, |r.events|, ip, N, 0)
  {
    r := MostAreReached(sec, ip, gap, M, start);
    hide SteadyRun, Flown, Spaced, Most, History;
  }

  /** With at most M overlapping attempts of an IP and cleanups at least `gap`
      apart, at most N of its failures fall within less than a window, in every
      run, exactly when N is at least Most. */
  lemma {:induction false} RateIsBoundedExactly(sec: Security, ip: string, gap: nat, M: nat, N: nat)
    requires IsEnabled(sec) && M > 0
    ensures (forall events :: SteadyRun(sec, events) && Spaced(events, gap) && Gated(sec, events, ip, M) ==>
              RateBounded(sec, events, ip, N))
            <==> N >= Most(sec, gap, M)
  {
    assert Most(sec, gap, M) > 0 by { MostIs(sec, gap, M); }
    hide SteadyRun, Spaced, SpreadAt, Most, Flown;
    if N >= Most(sec, gap, M) {
      forall events | SteadyRun(sec, events) && Spaced(events, gap) && Gated(sec, events, ip, M)
        ensures RateBounded(sec, events, ip, N)
      {
        var flights :| Flown(sec, events, flights, ip, M);
        forall n: nat, i: nat | n <= |events| ensures SpreadAt(sec, events, n, ip, N, i) {
          FailureRateIsBounded(sec, events, flights, n, ip, i, gap, M, N);
        }
      }
    } else {
      var r := MostIsNeeded(sec, ip, gap, M, N, 1);
      assert !RateBounded(sec, r.events, ip, N);
    }
  }

  lemma {:induction false} MostIs(sec: Security, gap: nat, M: nat)
    requires IsEnabled(sec)
    ensures Most(sec, gap, M) >= sec.loginMaxFailures - 1 + M
    ensures Most(sec, gap, M) == sec.loginMaxFailures - 1 + M <==> CleanupIsSafe(sec)
  {
    var k, d := sec.loginMaxFailures - 1, Drops(sec, gap);
    MoreDrops(d, d, k);
    assert d > 0 <==> sec.loginLockoutDuration > IDLE_TTL;
    hide Drops;
    if d > 0 { MoreDrops(1, d, k); }
  }

  /** So the configured maximum bounds the rate exactly when attempts of an IP do
      not overlap and no cleanup can drop a record that has not expired. */
  lemma {:induction false} MaximumBoundsRateExactly(sec: Security, ip: string, gap: nat, M: nat)
    requires IsEnabled(sec) && M > 0
    ensures (forall events :: SteadyRun(sec, events) && Spaced(events, gap) && Gated(sec, events, ip, M) ==>
              RateBounded(sec, events, ip, sec.loginMaxFailures))
            <==> M == 1 && CleanupIsSafe(sec)
  {
    hide SteadyRun, Spaced, Gated, RateBounded;
    RateIsBoundedExactly(sec, ip, gap, M, sec.loginMaxFailures);
    MostIs(sec, gap, M);
    hide Most;
  }
}
