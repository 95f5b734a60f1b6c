/** The adaptive quality controller of `server/src/quality.rs`. Times are in milliseconds. */
module QualityController {
  const H264_BITRATES: seq<nat> := [4000, 2500, 1500, 800, 400]
  const DEFAULT_TIER := 1
  const LOWEST_TIER := 4
  const INCREASE_THRESHOLD := 90
  const DECREASE_THRESHOLD := 3
  const MIN_CHANGE_INTERVAL := 2000

  datatype Quality = Quality(
    autoEnabled: bool, tier: nat, successes: nat, failures: nat, lastChange: nat, total: nat, dropped: nat)

  function New(now: nat): Quality { Quality(true, DEFAULT_TIER, 0, 0, now, 0, 0) }

  // ---- what one report does ----

  predicate CanChange(q: Quality, now: nat) { now - q.lastChange >= MIN_CHANGE_INTERVAL }

  function OnFrame(q: Quality, success: bool, now: nat): Quality {
    if !q.autoEnabled then q
    else if success then
      var counted := q.(successes := q.successes + 1, failures := 0, total := q.total + 1);
      if CanChange(q, now) && counted.successes >= INCREASE_THRESHOLD && q.tier > 0
      then counted.(tier := q.tier - 1, successes := 0, lastChange := now)
      else counted
    else
      var counted := q.(failures := q.failures + 1, successes := 0, total := q.total + 1, dropped := q.dropped + 1);
      if CanChange(q, now) && counted.failures >= DECREASE_THRESHOLD && q.tier < LOWEST_TIER
      then counted.(tier := q.tier + 1, failures := 0, lastChange := now)
      else counted
  }

  /** The first tier from i on whose bitrate fits, or the lowest. */
  function FirstFit(kbps: nat, i: nat): (tier: nat)
    requires i <= |H264_BITRATES|
    decreases |H264_BITRATES| - i
  {
    if i == |H264_BITRATES| then LOWEST_TIER
    else if H264_BITRATES[i] <= kbps then i
    else FirstFit(kbps, i + 1)
  }

  /** `bitrate_kbps` is a u16. */
  function TargetTier(bps: nat): nat { FirstFit(bps / 1000 % 65536, 0) }

  function OnRemb(q: Quality, bps: nat, now: nat): Quality {
    if q.autoEnabled && TargetTier(bps) != q.tier && CanChange(q, now)
    then q.(tier := TargetTier(bps), lastChange := now, successes := 0, failures := 0)
    else q
  }

  function WithAuto(q: Quality, enabled: bool): Quality {
    if enabled then q.(autoEnabled := true, tier := DEFAULT_TIER, successes := 0, failures := 0)
    else q.(autoEnabled := false)
  }

  // ---- the controller ----

  class Controller {
    var autoEnabled: bool
    var currentTier: nat
    var consecutiveSuccesses: nat
    var consecutiveFailures: nat
    var lastChange: nat
    var totalFrames: nat
    var droppedFrames: nat

    constructor (now: nat)
      ensures View() == New(now)
    {
      autoEnabled, currentTier, consecutiveSuccesses, consecutiveFailures := true, DEFAULT_TIER, 0, 0;
      lastChange, totalFrames, droppedFrames := now, 0, 0;
    }

    ghost function View(): Quality
      reads this
    {
      Quality(autoEnabled, currentTier, consecutiveSuccesses, consecutiveFailures, lastChange, totalFrames, droppedFrames)
    }

    method SetAutoEnabled(enabled: bool)
      modifies this
      ensures View() == WithAuto(old(View()), enabled)
    {
      autoEnabled := enabled;
      if enabled {
        currentTier := DEFAULT_TIER;
        consecutiveSuccesses := 0;
        consecutiveFailures := 0;
      }
    }

    method OnFrameResult(success: bool, now: nat) returns (changed: bool)
      modifies this
      ensures View() == OnFrame(old(View()), success, now)
      ensures changed <==> currentTier != old(currentTier)
    {
      if !autoEnabled {
        return false;
      }
      totalFrames := totalFrames + 1;
      if !success {
        droppedFrames := droppedFrames + 1;
      }
      var canChange := now - lastChange >= MIN_CHANGE_INTERVAL;
      if success {
        consecutiveSuccesses := consecutiveSuccesses + 1;
        consecutiveFailures := 0;
        if canChange && consecutiveSuccesses >= INCREASE_THRESHOLD && currentTier > 0 {
          currentTier := currentTier - 1;
          consecutiveSuccesses := 0;
          lastChange := now;
          return true;
        }
      } else {
        consecutiveFailures := consecutiveFailures + 1;
        consecutiveSuccesses := 0;
        if canChange && consecutiveFailures >= DECREASE_THRESHOLD && currentTier < |H264_BITRATES| - 1 {
          currentTier := currentTier + 1;
          consecutiveFailures := 0;
          lastChange := now;
          return true;
        }
      }
      return false;
    }

    method OnRembReceived(bps: nat, now: nat)
      modifies this
      ensures View() == OnRemb(old(View()), bps, now)
    {
      if !autoEnabled {
        return;
      }
      var kbps := bps / 1000 % 65536;
      var targetTier := 0;
      while targetTier < |H264_BITRATES| && H264_BITRATES[targetTier] > kbps
        invariant 0 <= targetTier <= |H264_BITRATES|
        invariant FirstFit(kbps, targetTier) == FirstFit(kbps, 0)
      {
        targetTier := targetTier + 1;
      }
      if targetTier == |H264_BITRATES| {
        targetTier := |H264_BITRATES| - 1;
      }
      if targetTier != currentTier && now - lastChange >= MIN_CHANGE_INTERVAL {
        currentTier := targetTier;
        lastChange := now;
        consecutiveSuccesses := 0;
        consecutiveFailures := 0;
      }
    }

    method ResetStats()
      modifies this
      ensures View() == old(View()).(total := 0, dropped := 0)
    {
      totalFrames := 0;
      droppedFrames := 0;
    }
  }

  // ---- which tier a bitrate estimate asks for ----

  /** The highest quality (least index) whose bitrate fits, else the lowest. */
  ghost predicate IsBestTier(kbps: nat, tier: nat) {
    && tier < |H264_BITRATES|
    && (H264_BITRATES[tier] <= kbps || (tier == LOWEST_TIER && forall i :: 0 <= i < |H264_BITRATES| ==> H264_BITRATES[i] > kbps))
    && (forall i :: 0 <= i < tier ==> H264_BITRATES[i] > kbps)
  }

  lemma {:induction false} FirstFitIsBest(kbps: nat, i: nat)
    requires i <= |H264_BITRATES| && forall j :: 0 <= j < i ==> H264_BITRATES[j] > kbps
    ensures IsBestTier(kbps, FirstFit(kbps, i))
    decreases |H264_BITRATES| - i
  {
    if i < |H264_BITRATES| && H264_BITRATES[i] > kbps {
      FirstFitIsBest(kbps, i + 1);
    }
  }

  /** The chosen tier is the best one for the estimate exactly when truncating
      kbps to 16 bits does not matter. */
  lemma {:induction false} TargetTierIsBestExactly(bps: nat)
    ensures IsBestTier(bps / 1000, TargetTier(bps)) <==> (bps / 1000 < 65536 || bps / 1000 % 65536 >= 4000)
  {
    FirstFitIsBest(bps / 1000 % 65536, 0);
    assert H264_BITRATES[0] == 4000;
  }

  /** Which rates ask for which tier. */
  lemma {:induction false} TierOfRate(kbps: nat)
    ensures var tier := FirstFit(kbps, 0);
            && (tier == 0 <==> 4000 <= kbps) && (tier == 1 <==> 2500 <= kbps < 4000) && (tier == 2 <==> 1500 <= kbps < 2500)
            && (tier == 3 <==> 800 <= kbps < 1500) && (tier == 4 <==> kbps < 800)
  {
    assert FirstFit(kbps, 4) == 4;
    assert FirstFit(kbps, 3) == if 800 <= kbps then 3 else 4;
    assert FirstFit(kbps, 2) == if 1500 <= kbps then 2 else FirstFit(kbps, 3);
    assert FirstFit(kbps, 1) == if 2500 <= kbps then 1 else FirstFit(kbps, 2);
  }

  /** An estimate of 65536 kbit/s gets the lowest tier, although the highest fits. */
  lemma {:induction false} LargeEstimateGetsLowestTier()
    ensures TargetTier(65_536_000) == LOWEST_TIER && IsBestTier(65_536_000 / 1000, 0) && LOWEST_TIER != 0
  {
    FirstFitIsBest(0, 0);
  }

  // ---- runs ----

  datatype Event = Frame(success: bool, now: nat) | Remb(bps: nat, now: nat) | Auto(enabled: bool) | ResetStats

  function After(q: Quality, e: Event): Quality {
    match e
    case Frame(success, now) => OnFrame(q, success, now)
    case Remb(bps, now) => OnRemb(q, bps, now)
    case Auto(enabled) => WithAuto(q, enabled)
    case ResetStats => q.(total := 0, dropped := 0)
  }

  /** What has happened so far: reports, and how often each kind moved the tier. */
  datatype Ledger = Ledger(successes: nat, failures: nat, upgrades: nat, downgrades: nat, rembs: nat)

  function Entered(l: Ledger, q: Quality, e: Event): Ledger {
    var moved := After(q, e).tier;
    match e
    case Frame(true, _) => l.(successes := l.successes + 1, upgrades := l.upgrades + if moved != q.tier then 1 else 0)
    case Frame(false, _) => l.(failures := l.failures + 1, downgrades := l.downgrades + if moved != q.tier then 1 else 0)
    case Remb(_, _) => l.(rembs := l.rembs + if moved != q.tier then 1 else 0)
    case _ => l
  }

  function Play(q: Quality, events: seq<Event>, n: nat): (Quality, Ledger)
    requires n <= |events|
  {
    if n == 0 then (q, Ledger(0, 0, 0, 0, 0))
    else
      var (before, l) := Play(q, events, n - 1);
      (After(before, events[n - 1]), Entered(l, before, events[n - 1]))
  }

  predicate Sane(q: Quality) {
    q.tier <= LOWEST_TIER && (q.successes == 0 || q.failures == 0)
  }

  /** Between q0 and q the reports in l have come in. */
  predicate Accounts(q0: Quality, q: Quality, l: Ledger) {
    && 90 * l.upgrades + q.successes <= q0.successes + l.successes
    && 3 * l.downgrades + q.failures <= q0.failures + l.failures
    && 2000 * (l.upgrades + l.downgrades + l.rembs) <= q.lastChange - q0.lastChange
  }

  lemma {:induction false} AfterAccounts(q0: Quality, q: Quality, l: Ledger, e: Event)
    requires Sane(q) && Accounts(q0, q, l)
    ensures Sane(After(q, e)) && Accounts(q0, After(q, e), Entered(l, q, e))
  {
    if e.Remb? {
      FirstFitIsBest(e.bps / 1000 % 65536, 0);
      hide FirstFit;
    }
  }

  /** In any stretch of any run: the tier is in range, at most one streak is
      running, 90 successes pay for each upgrade, 3 failures for each downgrade,
      and 2 s for each change made by a frame or an estimate. */
  lemma {:induction false} RunIsBounded(q0: Quality, events: seq<Event>, n: nat)
    requires Sane(q0) && n <= |events|
    ensures var (q, l) := Play(q0, events, n);
            Sane(q) && Accounts(q0, q, l)
  {
    if n == 0 {
    } else {
      RunIsBounded(q0, events, n - 1);
      var (q, l) := Play(q0, events, n - 1);
      hide Sane, Accounts, After, Entered;
      AfterAccounts(q0, q, l, events[n - 1]);
    }
  }

  predicate Clocked(events: seq<Event>, now: nat) {
    forall i :: 0 <= i < |events| && (events[i].Frame? || events[i].Remb?) ==> events[i].now <= now
  }

  lemma {:induction false} LastChangeIsPast(q0: Quality, events: seq<Event>, n: nat, now: nat)
    requires n <= |events| && Clocked(events, now) && q0.lastChange <= now
    ensures Play(q0, events, n).0.lastChange <= now
  {
    if n == 0 {
    } else {
      LastChangeIsPast(q0, events, n - 1, now);
    }
  }

  /** From a new controller: 2 s times the changes never exceed the time elapsed. */
  lemma {:induction false} ChangesTakeTime(start: nat, events: seq<Event>, now: nat)
    requires Clocked(events, now) && start <= now
    ensures var (q, l) := Play(New(start), events, |events|);
            2000 * (l.upgrades + l.downgrades + l.rembs) <= now - start
  {
    RunIsBounded(New(start), events, |events|);
    LastChangeIsPast(New(start), events, |events|, now);
  }

  /** Without estimates and toggles the tier is the balance of the changes. */
  lemma {:induction false} TierIsTheBalance(q0: Quality, events: seq<Event>, n: nat)
    requires n <= |events| && forall i :: 0 <= i < n ==> events[i].Frame? || events[i].ResetStats?
    ensures var (q, l) := Play(q0, events, n);
            q.tier == q0.tier - l.upgrades + l.downgrades && l.rembs == 0
  {
    if n == 0 {
    } else {
      TierIsTheBalance(q0, events, n - 1);
    }
  }

  // ---- and it reacts ----

  predicate FramesOnly(events: seq<Event>) { forall i :: 0 <= i < |events| ==> events[i].Frame? }

  /** A run of frames that starts with both streaks at 0: the tier is the balance
      of the changes, and each change has been paid for since. */
  lemma {:induction false} RunFromRest(q0: Quality, events: seq<Event>, n: nat)
    requires q0.autoEnabled && q0.successes == 0 && q0.failures == 0 && q0.tier <= 4 && FramesOnly(events) && n <= |events|
    ensures var (q, l) := Play(q0, events, n);
            && q.autoEnabled && q.tier == q0.tier - l.upgrades + l.downgrades
            && 90 * l.upgrades + q.successes <= l.successes && 3 * l.downgrades + q.failures <= l.failures
            && (l.upgrades + l.downgrades == 0 ==> q.lastChange == q0.lastChange)
            && q.total == q0.total + n && q.dropped == q0.dropped + l.failures && l.successes + l.failures == n
  {
    RunIsBounded(q0, events, n);
    TierIsTheBalance(q0, events, n);
    FramesAreCounted(q0, events, n);
    hide Play, After;
  }

  lemma {:induction false} FramesAreCounted(q0: Quality, events: seq<Event>, n: nat)
    requires q0.autoEnabled && FramesOnly(events) && n <= |events|
    ensures var (q, l) := Play(q0, events, n);
            && q.autoEnabled && (l.upgrades + l.downgrades == 0 ==> q.lastChange == q0.lastChange)
            && q.total == q0.total + n && q.dropped == q0.dropped + l.failures && l.successes + l.failures == n
  {
    if n == 0 {
    } else {
      FramesAreCounted(q0, events, n - 1);
      assert events[n - 1].Frame?;
    }
  }

  /** A new controller has automatic quality on, at tier 1, and starts from rest. */
  lemma {:induction false} NewRun(start: nat, events: seq<Event>, n: nat)
    requires FramesOnly(events) && n <= |events|
    ensures var (q, l) := Play(New(start), events, n);
            && q.autoEnabled && q.tier == 1 - l.upgrades + l.downgrades
            && 90 * l.upgrades + q.successes <= l.successes && 3 * l.downgrades + q.failures <= l.failures
            && (l.upgrades + l.downgrades == 0 ==> q.lastChange == start)
            && q.total == n && q.dropped == l.failures && l.successes + l.failures == n
  {
    RunFromRest(New(start), events, n);
    hide Play;
  }

  /** Enabling automatic quality, in any state, starts over from tier 1 and from
      rest, but changes have to wait for the one before. */
  lemma {:induction false} EnablingStartsOver(q: Quality, events: seq<Event>, n: nat)
    requires FramesOnly(events) && n <= |events|
    ensures var q0 := After(q, Auto(true)); var (q', l) := Play(q0, events, n);
            && q0.lastChange == q.lastChange && q0.total == q.total && q0.dropped == q.dropped
            && q'.autoEnabled && q'.tier == 1 - l.upgrades + l.downgrades
            && 90 * l.upgrades + q'.successes <= l.successes && 3 * l.downgrades + q'.failures <= l.failures
            && (l.upgrades + l.downgrades == 0 ==> q'.lastChange == q.lastChange)
  {
    RunFromRest(After(q, Auto(true)), events, n);
    hide Play;
  }

  /** An estimate that comes when a change is allowed is followed at once; if that
      moves the tier, the streaks start over. Any other estimate changes nothing. */
  lemma {:induction false} EstimateIsFollowed(q: Quality, bps: nat, now: nat)
    requires q.autoEnabled
    ensures var q' := OnRemb(q, bps, now); var tier := FirstFit(bps / 1000 % 65536, 0);
            && IsBestTier(bps / 1000 % 65536, tier)
            && (now - q.lastChange >= 2000 && q.tier != tier ==>
                  q' == Quality(true, tier, 0, 0, now, q.total, q.dropped))
            && (now - q.lastChange < 2000 || q.tier == tier ==> q' == q)
  {
    FirstFitIsBest(bps / 1000 % 65536, 0);
    hide FirstFit, IsBestTier;
  }

  /** So after it, too, each change by a frame is paid for anew. */
  lemma {:induction false} EstimateStartsOver(q: Quality, bps: nat, now: nat, events: seq<Event>, n: nat)
    requires q.autoEnabled && now - q.lastChange >= 2000 && q.tier != FirstFit(bps / 1000 % 65536, 0)
    requires FramesOnly(events) && n <= |events|
    ensures var (q', l) := Play(After(q, Remb(bps, now)), events, n);
            && q'.tier == FirstFit(bps / 1000 % 65536, 0) - l.upgrades + l.downgrades
            && 90 * l.upgrades + q'.successes <= l.successes && 3 * l.downgrades + q'.failures <= l.failures
            && 2000 * (l.upgrades + l.downgrades) <= q'.lastChange - now
  {
    EstimateIsFollowed(q, bps, now);
    RunFromRest(After(q, Remb(bps, now)), events, n);
    RunIsBounded(After(q, Remb(bps, now)), events, n);
    TierIsTheBalance(After(q, Remb(bps, now)), events, n);
    hide Play, FirstFit;
  }

  /** While automatic quality is off, reports change nothing. */
  lemma {:induction false} OffIsFrozen(q0: Quality, events: seq<Event>, n: nat)
    requires !q0.autoEnabled && n <= |events|
    requires forall i :: 0 <= i < |events| ==> events[i].Frame? || events[i].Remb?
    ensures Play(q0, events, n).0 == q0
  {
    if n == 0 {
    } else {
      OffIsFrozen(q0, events, n - 1);
    }
  }

  /** Switching it off freezes the state it is in, until it is switched on again. */
  lemma {:induction false} DisablingFreezes(q: Quality, events: seq<Event>, n: nat)
    requires n <= |events| && forall i :: 0 <= i < |events| ==> events[i].Frame? || events[i].Remb?
    ensures Play(After(q, Auto(false)), events, n).0 == q.(autoEnabled := false)
  {
    OffIsFrozen(After(q, Auto(false)), events, n);
  }

  predicate SameBut(q: Quality, q': Quality) { q'.(total := q.total, dropped := q.dropped) == q }

  /** The statistics never steer: resetting them at any moment sets them to 0 and
      leaves the course of everything else as it would have been. */
  lemma {:induction false} StatisticsDoNotSteer(q: Quality, q': Quality, events: seq<Event>, n: nat)
    requires SameBut(q, q') && n <= |events|
    ensures SameBut(Play(q, events, n).0, Play(q', events, n).0) && Play(q, events, n).1 == Play(q', events, n).1
  {
    if n == 0 {
    } else {
      StatisticsDoNotSteer(q, q', events, n - 1);
      StepDoesNotSteer(Play(q, events, n - 1).0, Play(q', events, n - 1).0, Play(q, events, n - 1).1, events[n - 1]);
      hide SameBut, After, Entered;
    }
  }

  lemma {:induction false} StepDoesNotSteer(q: Quality, q': Quality, l: Ledger, e: Event)
    requires SameBut(q, q')
    ensures SameBut(After(q, e), After(q', e)) && Entered(l, q, e) == Entered(l, q', e)
  {
    hide FirstFit;
  }

  lemma {:induction false} ResettingIsHarmless(q: Quality, events: seq<Event>, n: nat)
    requires n <= |events|
    ensures var q0 := After(q, ResetStats);
            q0.total == 0 && q0.dropped == 0 && SameBut(Play(q, events, n).0, Play(q0, events, n).0)
  {
    StatisticsDoNotSteer(q, After(q, ResetStats), events, n);
    hide Play;
  }

  predicate Steady(events: seq<Event>, success: bool) {
    forall i :: 0 <= i < |events| ==> events[i].Frame? && events[i].success == success
  }

  /** Until the tier moves, the streak just grows. */
  lemma {:induction false} StreakGrows(q0: Quality, events: seq<Event>, success: bool, n: nat)
    requires q0.autoEnabled && Steady(events, success) && n <= |events|
    ensures var (q, l) := Play(q0, events, n);
            q.autoEnabled
            && (l.upgrades + l.downgrades == 0 ==>
                  && q.tier == q0.tier && q.lastChange == q0.lastChange
                  && (if success then q.successes >= n else q.failures >= n))
  {
    if n == 0 {
    } else {
      StreakGrows(q0, events, success, n - 1);
      assert events[n - 1].Frame? && events[n - 1].success == success;
    }
  }

  /** 90 successes in a row, or 3 failures, that last until 2 s after the latest
      change do move the tier, unless it is already at that end. */
  lemma {:induction false} SustainedReportsMoveTheTier(q0: Quality, events: seq<Event>, success: bool)
    requires q0.autoEnabled && Sane(q0) && Steady(events, success)
    requires |events| >= if success then 90 else 3
    requires events[|events| - 1].now - q0.lastChange >= 2000
    ensures var (q, l) := Play(q0, events, |events|);
            if success then l.upgrades > 0 || q0.tier == 0 else l.downgrades > 0 || q0.tier == LOWEST_TIER
  {
    var n := |events| - 1;
    StreakGrows(q0, events, success, n);
    OnlyOneWay(q0, events, success, |events|);
    assert events[n].Frame? && events[n].success == success;
  }

  lemma {:induction false} OnlyOneWay(q0: Quality, events: seq<Event>, success: bool, n: nat)
    requires Steady(events, success) && n <= |events|
    ensures var (q, l) := Play(q0, events, n); if success then l.downgrades == 0 else l.upgrades == 0
  {
    if n == 0 {
    } else {
      OnlyOneWay(q0, events, success, n - 1);
      assert events[n - 1].Frame? && events[n - 1].success == success;
    }
  }
}
