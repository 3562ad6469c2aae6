/** How errors are counted, what a report writes into an account, and when a tripped account is back in rotation. */
module AccountBreakerLadders {
  import opened Prelude
  import opened AccountPools
  import opened AccountBreakers

  // ------------------------------------------------------------------
  // Streaks
  // ------------------------------------------------------------------

  /** The counters after error reports at the given times. */
  function CountedAll(a: Account, times: seq<int>, windowMs: int): Account {
    if times == [] then a else Counted(CountedAll(a, times[..|times| - 1], windowMs), times[|times| - 1], windowMs)
  }

  /** When the report before the k-th was, the account's last one for the first. */
  function Previous(a: Account, times: seq<int>, k: nat): int
    requires k < |times|
  {
    if k == 0 then a.errorAt else times[k - 1]
  }

  /** The k-th report and all behind it came within the window of the one before. */
  predicate Unbroken(a: Account, times: seq<int>, k: nat, windowMs: int) {
    forall j :: k <= j < |times| ==> times[j] - Previous(a, times, j) < windowMs
  }

  /** The k-th report came too late to belong to a streak, and is the last that did. */
  predicate StartsOver(a: Account, times: seq<int>, k: nat, windowMs: int) {
    k < |times| && times[k] - Previous(a, times, k) >= windowMs && Unbroken(a, times, k + 1, windowMs)
  }

  /** The error count is the length of the streak: the reports since the last one that came too late, or all of them on top of
      what was there. */
  lemma {:induction false} StreakIsCounted(a: Account, times: seq<int>, windowMs: int, k: nat)
    ensures Unbroken(a, times, 0, windowMs) ==> CountedAll(a, times, windowMs).errorCount == a.errorCount + |times|
    ensures StartsOver(a, times, k, windowMs) ==> CountedAll(a, times, windowMs).errorCount == |times| - k
    ensures CountedAll(a, times, windowMs).errorAt == if times == [] then a.errorAt else times[|times| - 1]
    decreases |times|
  {
    if times != [] {
      var n := |times| - 1;
      var init := times[..n];
      StreakIsCounted(a, init, windowMs, k);
      assert forall j :: 0 <= j < n ==> Previous(a, init, j) == Previous(a, times, j) && init[j] == times[j];
      assert Unbroken(a, times, 0, windowMs) ==> Unbroken(a, init, 0, windowMs) && times[n] - Previous(a, times, n) < windowMs;
      assert StartsOver(a, times, k, windowMs) && k < n ==> StartsOver(a, init, k, windowMs) && times[n] - Previous(a, times, n) < windowMs;
    }
  }

  // ------------------------------------------------------------------
  // What a report writes
  // ------------------------------------------------------------------

  /** A tripped account rests for its place in the streak of episodes, unless resting is off, the streak is short or the
      account is new. */
  predicate Rests(cfg: Tunables, a: Account, now: int) {
    cfg.breakerEnabled && a.breakerStreak + 1 >= cfg.breakerStreakStart && (a.addedAt == 0 || now >= a.addedAt + cfg.newAccountGraceMs)
  }

  /** What an error report makes of the account it names. */
  lemma ErrorReportWrites(cfg: Tunables, accounts: seq<Account>, apiKey: string, selector: string, windowMs: int, now: int, k: nat)
    requires FindKey(accounts, apiKey) == Some(k)
    ensures var a, b := accounts[k], ReportError(cfg, accounts, apiKey, selector, windowMs, now)[k];
            var count := if now - a.errorAt < windowMs then a.errorCount + 1 else 1;
            var out := && count >= cfg.errorStreakThreshold && !a.status.Errored?
                       && !(cfg.lastAccountExempt && IsLastUsable(accounts, k, selector, now));
            if a.status in {Disabled, Banned, Reauth} then b == a
            else && b.errorCount == count && b.errorAt == now && b.status == (if out then Errored else a.status)
                 && b.erroredAt == (if out then now else a.erroredAt) && b.breakerStreak == a.breakerStreak + (if out then 1 else 0)
                 && b.rateLimitedUntil == (if out && Rests(cfg, a, now) then Max(a.rateLimitedUntil, now + Backoff(cfg, a.breakerStreak + 1))
                                           else a.rateLimitedUntil)
                 && b.internalErrorStreak == a.internalErrorStreak && b.inflight == a.inflight && b.history == a.history
                 && b.tier == a.tier && b.id == a.id && b.apiKey == a.apiKey
    ensures forall i :: 0 <= i < |accounts| && i != k ==> ReportError(cfg, accounts, apiKey, selector, windowMs, now)[i] == accounts[i]
  {
    LastDespiteCounting(accounts, k, Counted(accounts[k], now, windowMs), selector, now);
  }

  /** What an internal error makes of it: a streak, and at its threshold a quarantine. */
  lemma InternalReportWrites(cfg: Tunables, accounts: seq<Account>, apiKey: string, selector: string, now: int, k: nat)
    requires FindKey(accounts, apiKey) == Some(k)
    ensures var a, b := accounts[k], ReportInternalError(cfg, accounts, apiKey, selector, now)[k];
            var out := a.internalErrorStreak + 1 >= cfg.internalErrorThreshold
                       && !(cfg.lastAccountExempt && IsLastUsable(accounts, k, selector, now));
            b == a.(internalErrorStreak := a.internalErrorStreak + 1,
                    rateLimitedUntil := if out then Max(a.rateLimitedUntil, now + cfg.internalQuarantineMs) else a.rateLimitedUntil)
    ensures forall i :: 0 <= i < |accounts| && i != k ==> ReportInternalError(cfg, accounts, apiKey, selector, now)[i] == accounts[i]
  {
    var a := accounts[k];
    LastDespiteCounting(accounts, k, a.(internalErrorStreak := a.internalErrorStreak + 1), selector, now);
  }

  /** The report is about the first account with the key, and an unknown key changes nothing. */
  lemma {:induction false} ReportNamesFirst(accounts: seq<Account>, apiKey: string, k: nat)
    ensures FindKey(accounts, apiKey) == Some(k) <==>
            k < |accounts| && accounts[k].apiKey == apiKey && forall j :: 0 <= j < k ==> accounts[j].apiKey != apiKey
    ensures FindKey(accounts, apiKey).None? <==> forall j :: 0 <= j < |accounts| ==> accounts[j].apiKey != apiKey
  {
    FirstFrom(accounts, apiKey, 0);
  }

  lemma {:induction false} FirstFrom(accounts: seq<Account>, apiKey: string, n: nat)
    requires n <= |accounts|
    ensures var r := FindFirst(accounts, (a: Account) => a.apiKey == apiKey, n);
            && (r.Some? ==> forall j :: n <= j < r.value ==> accounts[j].apiKey != apiKey)
            && (r.None? ==> forall j :: n <= j < |accounts| ==> accounts[j].apiKey != apiKey)
    decreases |accounts| - n
  {
    if n < |accounts| && accounts[n].apiKey != apiKey {
      FirstFrom(accounts, apiKey, n + 1);
    }
  }

  /** A paid account stands in for every other, one of unknown tier for those that are free, and an expired one for no other. */
  lemma TiersStandIn(a: Tier, b: Tier)
    ensures TierRank(a) >= TierRank(b) <==>
            a.Pro? || a.Named? || b.Expired? || (a.Unknown? && !b.Pro? && !b.Named?) || (a.Free? && b.Free?)
  {
  }

  // ------------------------------------------------------------------
  // The ladder
  // ------------------------------------------------------------------

  lemma {:induction false} PowerGrows(x: real, n: nat)
    requires x >= 1.0
    ensures 1.0 <= Power(x, n) <= Power(x, n + 1)
    decreases n
  {
    if n > 0 {
      PowerGrows(x, n - 1);
      Scale(x, Power(x, n - 1), Power(x, n));
      Scale(x, 1.0, Power(x, n - 1));
    } else {
      assert Power(x, 1) == x * Power(x, 0) == x;
    }
  }

  lemma Scale(x: real, y: real, z: real)
    requires x >= 1.0 && y <= z
    ensures x * y <= x * z && (y >= 1.0 ==> x * y >= 1.0)
  {
  }

  /** The unrounded rest of the n-th episode in a row: the base, and the factor once more from episode to episode. */
  ghost predicate Rungs(cfg: Tunables, rungs: seq<real>) {
    && |rungs| > 0 && rungs[0] == cfg.breakerBaseMs as real
    && forall n :: 0 < n < |rungs| ==> rungs[n] == cfg.breakerFactor * rungs[n - 1]
  }

  lemma {:induction false} RungIs(cfg: Tunables, rungs: seq<real>, n: nat)
    requires Rungs(cfg, rungs) && n < |rungs|
    ensures rungs[n] == cfg.breakerBaseMs as real * Power(cfg.breakerFactor, n)
    decreases n
  {
    if n > 0 {
      RungIs(cfg, rungs, n - 1);
      Regroup(cfg.breakerFactor, cfg.breakerBaseMs as real, Power(cfg.breakerFactor, n - 1));
    }
  }

  lemma Regroup(x: real, b: real, p: real)
    ensures x * (b * p) == b * (x * p)
  {
  }

  lemma RestIs(cfg: Tunables, streak: nat, raw: real)
    requires streak > 0 && raw == cfg.breakerBaseMs as real * Power(cfg.breakerFactor, streak - 1)
    ensures Backoff(cfg, streak) == Min(raw.Floor, cfg.breakerMaxMs)
  {
  }

  /** The rests climb that ladder up to the cap, and never get shorter. */
  lemma {:induction false} BackoffClimbs(cfg: Tunables, rungs: seq<real>, n: nat)
    requires Rungs(cfg, rungs) && 0 < n < |rungs|
    ensures Backoff(cfg, n) == Min(rungs[n - 1].Floor, cfg.breakerMaxMs)
    ensures cfg.breakerFactor >= 1.0 ==> Backoff(cfg, n) <= Backoff(cfg, n + 1) <= cfg.breakerMaxMs
  {
    RungIs(cfg, rungs, n - 1);
    RungIs(cfg, rungs, n);
    RestIs(cfg, n, rungs[n - 1]);
    RestIs(cfg, n + 1, rungs[n]);
    if cfg.breakerFactor >= 1.0 {
      RungsGrow(cfg, rungs, n);
      FloorGrows(rungs[n - 1], rungs[n]);
    }
  }

  lemma RungsGrow(cfg: Tunables, rungs: seq<real>, n: nat)
    requires Rungs(cfg, rungs) && 0 < n < |rungs| && cfg.breakerFactor >= 1.0
    ensures rungs[n - 1] <= rungs[n]
  {
    RungIs(cfg, rungs, n - 1);
    RungIs(cfg, rungs, n);
    PowerGrows(cfg.breakerFactor, n - 1);
    Weigh(cfg.breakerBaseMs as real, Power(cfg.breakerFactor, n - 1), Power(cfg.breakerFactor, n));
  }

  lemma FloorGrows(x: real, y: real)
    requires x <= y
    ensures x.Floor <= y.Floor
  {
  }

  lemma Weigh(b: real, y: real, z: real)
    requires b >= 0.0 && y <= z
    ensures b * y <= b * z
  {
  }

  /** A tripped account is back in rotation, at all or for a selector, exactly when it has rested: for the trial time after the
      trip, for its place on the ladder, and for whatever else it was cooling. */
  lemma {:induction false} BackInRotationIff(cfg: Tunables, trial: Config, accounts: seq<Account>, apiKey: string, reported: string, windowMs: int,
                                             now: int, k: nat, selector: string, at: int)
    requires FindKey(accounts, apiKey) == Some(k) && now > 0 && Usable(accounts[k], selector, now) && now <= at
    requires ReportError(cfg, accounts, apiKey, reported, windowMs, now)[k].status.Errored?
    ensures var a := accounts[k];
            var b := ReportError(cfg, accounts, apiKey, reported, windowMs, now)[k];
            Usable(Recovered(trial, b, at), selector, at) <==>
              at >= now + trial.errorRecoveryMs && (Rests(cfg, a, now) ==> at >= now + Backoff(cfg, a.breakerStreak + 1))
  {
    ErrorReportWrites(cfg, accounts, apiKey, reported, windowMs, now, k);
    var b := ReportError(cfg, accounts, apiKey, reported, windowMs, now)[k];
    assert OnlyDemoted(accounts[k], b) by {
      ReportErrorChanges(cfg, accounts, k, reported, windowMs, now);
    }
  }
}
