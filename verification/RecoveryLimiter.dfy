/** The rate limit on recovery codes in `server/src/passkey/recovery.rs`. Times are in seconds. */
module RecoveryLimiter {
  import opened Arithmetic

  const WINDOW := 900
  const MAX_ATTEMPTS := 5

  /** `last_attempt` is the time the current window was opened. */
  datatype RateLimit = RateLimit(lastAttempt: nat, attempts: nat)

  type Limits = map<string, RateLimit>

  function EntryOf(m: Limits, ip: string): RateLimit { if ip in m then m[ip] else RateLimit(0, 0) }

  predicate Expired(e: RateLimit, now: nat) { SaturatingSub(now, e.lastAttempt) > WINDOW }

  predicate Allows(e: RateLimit, now: nat) { Expired(e, now) || e.attempts < MAX_ATTEMPTS }

  function Charged(e: RateLimit, now: nat): RateLimit {
    if Expired(e, now) then RateLimit(now, 1)
    else if e.attempts < MAX_ATTEMPTS then e.(attempts := e.attempts + 1)
    else e
  }

  /** The wait announced to a refused client. */
  function WaitTime(e: RateLimit, now: nat): nat { SaturatingSub(WINDOW, SaturatingSub(now, e.lastAttempt)) }

  class RateLimiter {
    var byIp: Limits

    constructor ()
      ensures byIp == map[]
    {
      byIp := map[];
    }

    method CheckRateLimit(ip: string, now: nat) returns (allowed: bool)
      modifies this
      ensures allowed == Allows(EntryOf(old(byIp), ip), now)
      ensures byIp == old(byIp)[ip := Charged(EntryOf(old(byIp), ip), now)]
    {
      if ip !in byIp {
        byIp := byIp[ip := RateLimit(0, 0)];
      }
      var entry := byIp[ip];
      if SaturatingSub(now, entry.lastAttempt) > WINDOW {
        byIp := byIp[ip := RateLimit(now, 1)];
        return true;
      }
      if entry.attempts < MAX_ATTEMPTS {
        byIp := byIp[ip := entry.(attempts := entry.attempts + 1)];
        return true;
      }
      return false;
    }
  }

  /** A refused client is admitted again only after more than the announced
      wait: waiting exactly that long is refused once more. */
  lemma {:induction false} WaitIsOneSecondShort(e: RateLimit, now: nat, later: nat)
    requires !Allows(e, now) && e.lastAttempt <= now <= later
    ensures Charged(e, now) == e && now + WaitTime(e, now) == e.lastAttempt + 900
    ensures Allows(e, later) <==> later > now + WaitTime(e, now)
  {}

  // ---- runs ----

  datatype Attempt = Attempt(ip: string, now: nat)

  function After(attempts: seq<Attempt>, n: nat): Limits
    requires n <= |attempts|
  {
    if n == 0 then map[]
    else
      var m, a := After(attempts, n - 1), attempts[n - 1];
      m[a.ip := Charged(EntryOf(m, a.ip), a.now)]
  }

  predicate AllowedAt(attempts: seq<Attempt>, i: nat)
    requires i < |attempts|
  {
    Allows(EntryOf(After(attempts, i), attempts[i].ip), attempts[i].now)
  }

  predicate GrantedAt(attempts: seq<Attempt>, i: nat, ip: string)
    requires i < |attempts|
  {
    attempts[i].ip == ip && AllowedAt(attempts, i)
  }

  /** The times of the attempts of `ip` that were let through among the first n. */
  function Granted(attempts: seq<Attempt>, n: nat, ip: string): seq<nat>
    requires n <= |attempts|
  {
    if n == 0 then []
    else Granted(attempts, n - 1, ip) + if GrantedAt(attempts, n - 1, ip) then [attempts[n - 1].now] else []
  }

  /** For each of them the start of the window it was charged to. */
  function Windows(attempts: seq<Attempt>, n: nat, ip: string): seq<nat>
    requires n <= |attempts|
  {
    if n == 0 then []
    else Windows(attempts, n - 1, ip) + if GrantedAt(attempts, n - 1, ip) then [EntryOf(After(attempts, n), ip).lastAttempt] else []
  }

  /** A monotone clock that has passed `from`. */
  predicate Clocked(attempts: seq<Attempt>, from: nat) {
    && (forall i :: 0 <= i < |attempts| ==> from <= attempts[i].now)
    && (forall i, j :: 0 <= i < j < |attempts| ==> attempts[i].now <= attempts[j].now)
  }

  /** The last `attempts` grants belong to the open window, the others to
      windows that were over when it opened. */
  ghost predicate Placed(h: seq<nat>, w: seq<nat>, e: RateLimit, now: nat) {
    && |h| == |w| && e.attempts <= MAX_ATTEMPTS && e.attempts <= |w| && e.lastAttempt <= now
    && (forall i :: 0 <= i < |h| ==> w[i] <= h[i] <= now && h[i] <= w[i] + WINDOW)
    && (forall i :: |w| - e.attempts <= i < |w| ==> w[i] == e.lastAttempt)
    && (forall i :: 0 <= i < |w| - e.attempts ==> w[i] + WINDOW < e.lastAttempt)
    && (if h == [] then e == RateLimit(0, 0) else e.attempts >= 1)
  }

  /** No window takes a sixth grant, and windows do not overlap. */
  ghost predicate FivePerWindow(w: seq<nat>) {
    && (forall i :: 0 <= i && i + MAX_ATTEMPTS < |w| ==> w[i] + WINDOW < w[i + MAX_ATTEMPTS])
    && (forall i, j :: 0 <= i < j < |w| ==> w[i] == w[j] || w[i] + WINDOW < w[j])
  }

  ghost predicate StartsWindow(w: seq<nat>, i: int) {
    0 <= i < |w| && (i == 0 || w[i - 1] != w[i])
  }

  /** A window starts at its first grant. */
  ghost predicate OpenedByGrant(h: seq<nat>, w: seq<nat>)
    requires |h| == |w|
  {
    forall i :: StartsWindow(w, i) ==> h[i] == w[i]
  }

  lemma {:induction false} GrantKeepsPlaced(h: seq<nat>, w: seq<nat>, e: RateLimit, before: nat, now: nat)
    requires Placed(h, w, e, before) && before <= now && Allows(e, now)
    ensures Placed(h + [now], w + [Charged(e, now).lastAttempt], Charged(e, now), now)
  {}

  lemma {:induction false} GrantKeepsFive(h: seq<nat>, w: seq<nat>, e: RateLimit, before: nat, now: nat)
    requires Placed(h, w, e, before) && FivePerWindow(w) && before <= now && Allows(e, now)
    ensures FivePerWindow(w + [Charged(e, now).lastAttempt])
  {
    var w' := w + [Charged(e, now).lastAttempt];
    forall i | 0 <= i && i + MAX_ATTEMPTS < |w'| ensures w'[i] + WINDOW < w'[i + MAX_ATTEMPTS] {
      assert i + MAX_ATTEMPTS < |w| ==> w[i] + WINDOW < w[i + MAX_ATTEMPTS];
    }
    forall i, j | 0 <= i < j < |w'| ensures w'[i] == w'[j] || w'[i] + WINDOW < w'[j] {
      assert j < |w| ==> w[i] == w[j] || w[i] + WINDOW < w[j];
    }
  }

  lemma {:induction false} GrantKeepsOpened(h: seq<nat>, w: seq<nat>, e: RateLimit, before: nat, now: nat)
    requires Placed(h, w, e, before) && OpenedByGrant(h, w) && before <= now && WINDOW < now && Allows(e, now)
    ensures OpenedByGrant(h + [now], w + [Charged(e, now).lastAttempt])
  {
    var h', w' := h + [now], w + [Charged(e, now).lastAttempt];
    forall i | StartsWindow(w', i) ensures h'[i] == w'[i] {
      if i < |h| {
        assert StartsWindow(w, i);
        assert h'[i] == h[i] && w'[i] == w[i] && (i > 0 ==> w'[i - 1] == w[i - 1]);
      } else {
        assert i > 0 ==> w'[i - 1] == w[i - 1] && w[i - 1] == e.lastAttempt;
        assert w'[i] == Charged(e, now).lastAttempt && h'[i] == now;
      }
    }
  }

  lemma {:induction false} PlacedLater(h: seq<nat>, w: seq<nat>, e: RateLimit, before: nat, now: nat)
    requires Placed(h, w, e, before) && before <= now
    ensures Placed(h, w, e, now)
  {}

  /** The n-th attempt seen by one IP. */
  lemma {:induction false} OneAttempt(attempts: seq<Attempt>, n: nat, ip: string)
    requires 0 < n <= |attempts|
    ensures var a, e := attempts[n - 1], EntryOf(After(attempts, n - 1), ip);
            var charged := EntryOf(After(attempts, n), ip);
            var h, w := Granted(attempts, n - 1, ip), Windows(attempts, n - 1, ip);
            if a.ip == ip && Allows(e, a.now)
            then charged == Charged(e, a.now) && Granted(attempts, n, ip) == h + [a.now] && Windows(attempts, n, ip) == w + [charged.lastAttempt]
            else charged == e && Granted(attempts, n, ip) == h && Windows(attempts, n, ip) == w
  {
    var a, e := attempts[n - 1], EntryOf(After(attempts, n - 1), ip);
    assert !Allows(e, a.now) ==> Charged(e, a.now) == e;
    hide Charged, Allows;
  }

  lemma {:induction false} RunIsPlaced(attempts: seq<Attempt>, from: nat, n: nat, ip: string)
    requires Clocked(attempts, from) && n <= |attempts|
    ensures var h, w := Granted(attempts, n, ip), Windows(attempts, n, ip);
            && Placed(h, w, EntryOf(After(attempts, n), ip), if n == 0 then 0 else attempts[n - 1].now)
            && FivePerWindow(w)
            && (WINDOW < from ==> OpenedByGrant(h, w))
  {
    hide Granted, Windows, After, EntryOf, Placed, FivePerWindow, OpenedByGrant, StartsWindow, Charged, Allows;
    if n == 0 {
      NothingGranted(attempts, ip);
    } else {
      RunIsPlaced(attempts, from, n - 1, ip);
      OneAttempt(attempts, n, ip);
      PlacedTogether(attempts, n - 1, ip);
      var h, w := Granted(attempts, n - 1, ip), Windows(attempts, n - 1, ip);
      var a, e := attempts[n - 1], EntryOf(After(attempts, n - 1), ip);
      var before := if n == 1 then 0 else attempts[n - 2].now;
      assert before <= a.now && from <= a.now;
      hide Clocked;
      if a.ip == ip && Allows(e, a.now) {
        GrantKeepsPlaced(h, w, e, before, a.now);
        GrantKeepsFive(h, w, e, before, a.now);
        if WINDOW < from { GrantKeepsOpened(h, w, e, before, a.now); }
      } else {
        PlacedLater(h, w, e, before, a.now);
      }
    }
  }

  lemma {:induction false} NothingGranted(attempts: seq<Attempt>, ip: string)
    ensures Granted(attempts, 0, ip) == [] && Windows(attempts, 0, ip) == []
    ensures Placed([], [], EntryOf(After(attempts, 0), ip), 0) && FivePerWindow([]) && OpenedByGrant([], [])
  {}

  lemma {:induction false} PlacedTogether(attempts: seq<Attempt>, n: nat, ip: string)
    requires n <= |attempts|
    ensures |Granted(attempts, n, ip)| == |Windows(attempts, n, ip)|
  {
    if n == 0 {
    } else {
      PlacedTogether(attempts, n - 1, ip);
      hide GrantedAt;
    }
  }

  /** Every window takes at most 5 attempts of an IP, each within 900 s of its
      start, and windows lie more than 900 s apart. */
  lemma {:induction false} AtMostFivePerWindow(attempts: seq<Attempt>, ip: string, i: nat)
    requires Clocked(attempts, 0) && i < |Granted(attempts, |attempts|, ip)|
    ensures var h, w := Granted(attempts, |attempts|, ip), Windows(attempts, |attempts|, ip);
            && |h| == |w| && w[i] <= h[i] <= w[i] + 900
            && (i + 5 < |w| ==> w[i] + 900 < w[i + 5])
            && (forall j :: i < j < |w| ==> w[i] == w[j] || w[i] + 900 < w[j])
  {
    RunIsPlaced(attempts, 0, |attempts|, ip);
  }

  /** At most 10 attempts of one IP are let through in any span of 900 s, and at
      most 9 once the clock reads more than 900. */
  lemma {:induction false} AtMostTenPerSpan(attempts: seq<Attempt>, from: nat, ip: string, i: nat)
    requires Clocked(attempts, from)
    ensures var h := Granted(attempts, |attempts|, ip);
            && (i + 10 < |h| ==> h[i] + 900 < h[i + 10])
            && (900 < from && i + 9 < |h| ==> h[i] + 900 < h[i + 9])
  {
    RunIsPlaced(attempts, from, |attempts|, ip);
    var h, w := Granted(attempts, |attempts|, ip), Windows(attempts, |attempts|, ip);
    hide Granted, Windows;
    if i + 10 < |h| {
      assert w[i] + WINDOW < w[i + 5] && w[i + 5] + WINDOW < w[i + 5 + 5];
    }
    if WINDOW < from && i + 9 < |h| {
      if w[i + 4] == w[i] {
        assert i > 0 ==> w[i - 1] + WINDOW < w[i - 1 + 5];
        assert StartsWindow(w, i);
        assert w[i] + WINDOW < w[i + 5] <= w[i + 9];
      } else {
        assert w[i] + WINDOW < w[i + 4] && w[i + 4] + WINDOW < w[i + 4 + 5];
      }
    }
  }

  /** A refusal has a cause: 5 attempts let through in the last 900 s. */
  lemma {:induction false} RefusalHasACause(attempts: seq<Attempt>, i: nat)
    requires Clocked(attempts, 0) && i < |attempts| && !AllowedAt(attempts, i)
    ensures var h := Granted(attempts, i, attempts[i].ip);
            |h| >= 5 && forall k :: |h| - 5 <= k < |h| ==> attempts[i].now - 900 <= h[k] <= attempts[i].now
  {
    RunIsPlaced(attempts, 0, i, attempts[i].ip);
  }

  // ---- and the bounds are reached ----

  function BurstTime(first: nat, rest: nat, next: nat, i: nat): nat {
    if i == 0 then first else if i < 5 then rest else next
  }

  /** Ten attempts: one at `first`, four at `rest`, five at `next`. */
  function Bursts(ip: string, first: nat, rest: nat, next: nat): seq<Attempt> {
    seq(10, i requires 0 <= i < 10 => Attempt(ip, BurstTime(first, rest, next, i)))
  }

  /** All ten are let through when `next` is just past the first window. */
  lemma {:induction false} BurstsAreGranted(ip: string, first: nat, rest: nat, next: nat, n: nat)
    requires first <= rest < next && n <= 10
    requires var w := if first > WINDOW then first else 0; rest <= w + WINDOW < next
    ensures var attempts, w := Bursts(ip, first, rest, next), if first > WINDOW then first else 0;
            && EntryOf(After(attempts, n), ip)
                == (if n == 0 then RateLimit(0, 0) else if n <= 5 then RateLimit(w, n) else RateLimit(next, n - 5))
            && |Granted(attempts, n, ip)| == n
            && forall i :: 0 <= i < n ==> Granted(attempts, n, ip)[i] == BurstTime(first, rest, next, i)
  {
    if n == 0 {
    } else {
      BurstsAreGranted(ip, first, rest, next, n - 1);
      var attempts := Bursts(ip, first, rest, next);
      OneAttempt(attempts, n, ip);
      assert attempts[n - 1] == Attempt(ip, BurstTime(first, rest, next, n - 1));
      hide After, Granted, Windows;
    }
  }

  /** Ten attempts within a second, at the very start of the clock. */
  lemma {:induction false} TenAreReached(ip: string)
    ensures var attempts := Bursts(ip, 900, 900, 901);
            var h := Granted(attempts, 10, ip);
            Clocked(attempts, 0) && |h| == 10 && h[9] == h[0] + 1
  {
    BurstsAreGranted(ip, WINDOW, WINDOW, WINDOW + 1, 10);
    hide Granted;
  }

  /** Nine attempts within a second, at any later time. */
  lemma {:induction false} NineAreReached(ip: string, t: nat)
    requires t > 900
    ensures var attempts := Bursts(ip, t, t + 900, t + 901);
            var h := Granted(attempts, 10, ip);
            Clocked(attempts, t) && |h| == 10 && h[9] == h[1] + 1
  {
    BurstsAreGranted(ip, t, t + WINDOW, t + WINDOW + 1, 10);
    hide Granted;
  }
}
