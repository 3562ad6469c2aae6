/** The breaker: errors take an account out of rotation, unless it is the last that can do what it does. */
module AccountBreakers {
  import opened Prelude
  import opened AccountPools

  datatype Tunables = Tunables(
    errorStreakThreshold: nat, internalErrorThreshold: nat, internalQuarantineMs: nat, lastAccountExempt: bool,
    breakerEnabled: bool, breakerStreakStart: nat, breakerBaseMs: nat, breakerFactor: real, breakerMaxMs: nat, newAccountGraceMs: nat)

  /** What an account's tier can stand in for. */
  function TierRank(t: Tier): int {
    match t
    case Pro => 2
    case Named => 2
    case Unknown => 1
    case Free => 0
    case Expired => -1
  }

  predicate Cooling(a: Account, now: int) {
    RateLimited(a, "", now)
  }

  predicate Serves(a: Account, selector: string, now: int) {
    selector != "" ==> selector !in a.refused && !SelectorIneligible(a, selector, now)
  }

  /** In rotation, for a selector or, with none, at all. */
  predicate Usable(a: Account, selector: string, now: int) {
    a.status.Active? && !Cooling(a, now) && Serves(a, selector, now)
  }

  /** No other account can take over from account `k`. */
  predicate IsLastUsable(accounts: seq<Account>, k: nat, selector: string, now: int)
    requires k < |accounts|
  {
    forall i :: 0 <= i < |accounts| && i != k && Usable(accounts[i], selector, now) ==>
      TierRank(accounts[i].tier) < TierRank(accounts[k].tier)
  }

  predicate IsNew(cfg: Tunables, a: Account, now: int) {
    a.addedAt != 0 && now - a.addedAt < cfg.newAccountGraceMs
  }

  function Power(x: real, n: nat): real {
    if n == 0 then 1.0 else x * Power(x, n - 1)
  }

  /** The cooldown of the n-th error episode in a row. */
  function Backoff(cfg: Tunables, streak: nat): int
    requires streak > 0
  {
    Min((cfg.breakerBaseMs as real * Power(cfg.breakerFactor, streak - 1)).Floor, cfg.breakerMaxMs)
  }

  /** Count an error; a streak older than the window starts over. */
  function Counted(a: Account, now: int, windowMs: int): Account {
    a.(errorCount := if now - a.errorAt < windowMs then a.errorCount + 1 else 1, errorAt := now)
  }

  /** Take an account out of rotation, longer from episode to episode. */
  function Tripped(cfg: Tunables, a: Account, now: int): Account {
    var streak := a.breakerStreak + 1;
    var b := a.(status := Errored, erroredAt := now, breakerStreak := streak);
    if cfg.breakerEnabled && streak >= cfg.breakerStreakStart && !IsNew(cfg, b, now)
    then b.(rateLimitedUntil := Max(a.rateLimitedUntil, now + Backoff(cfg, streak))) else b
  }

  predicate IgnoresErrors(a: Account) {
    a.status.Disabled? || a.status.Banned? || a.status.Reauth?
  }

  function FindKey(accounts: seq<Account>, apiKey: string): (r: Option<nat>)
    ensures r.Some? ==> r.value < |accounts|
  {
    FindFirst(accounts, (a: Account) => a.apiKey == apiKey, 0)
  }

  function ReportErrorAt(cfg: Tunables, accounts: seq<Account>, k: nat, selector: string, windowMs: int, now: int): seq<Account>
    requires k < |accounts|
  {
    if IgnoresErrors(accounts[k]) then accounts
    else
      var counted := accounts[k := Counted(accounts[k], now, windowMs)];
      if counted[k].errorCount < cfg.errorStreakThreshold || counted[k].status.Errored? then counted
      else if cfg.lastAccountExempt && IsLastUsable(counted, k, selector, now) then counted
      else counted[k := Tripped(cfg, counted[k], now)]
  }

  function ReportError(cfg: Tunables, accounts: seq<Account>, apiKey: string, selector: string, windowMs: int, now: int): seq<Account> {
    var k := FindKey(accounts, apiKey);
    if k.None? then accounts else ReportErrorAt(cfg, accounts, k.value, selector, windowMs, now)
  }

  function ReportInternalErrorAt(cfg: Tunables, accounts: seq<Account>, k: nat, selector: string, now: int): seq<Account>
    requires k < |accounts|
  {
    var a := accounts[k];
    var counted := accounts[k := a.(internalErrorStreak := a.internalErrorStreak + 1)];
    if counted[k].internalErrorStreak < cfg.internalErrorThreshold then counted
    else if cfg.lastAccountExempt && IsLastUsable(counted, k, selector, now) then counted
    else counted[k := counted[k].(rateLimitedUntil := Max(a.rateLimitedUntil, now + cfg.internalQuarantineMs))]
  }

  function ReportInternalError(cfg: Tunables, accounts: seq<Account>, apiKey: string, selector: string, now: int): seq<Account> {
    var k := FindKey(accounts, apiKey);
    if k.None? then accounts else ReportInternalErrorAt(cfg, accounts, k.value, selector, now)
  }

  /** Reports change the accounts of the pool that the scheduler selects from. */
  class AccountBreaker {
    const pool: AccountPool
    const cfg: Tunables

    constructor (pool: AccountPool, cfg: Tunables)
      ensures this.pool == pool && this.cfg == cfg
    {
      this.pool, this.cfg := pool, cfg;
    }

    method IsLastUsableAccount(k: nat, selector: string, now: int) returns (last: bool)
      requires k < |pool.accounts|
      ensures last == IsLastUsable(pool.accounts, k, selector, now)
    {
      var ownRank := TierRank(pool.accounts[k].tier);
      var i := 0;
      while i < |pool.accounts|
        invariant i <= |pool.accounts|
        invariant forall j :: 0 <= j < i && j != k && Usable(pool.accounts[j], selector, now) ==> TierRank(pool.accounts[j].tier) < ownRank
      {
        var a := pool.accounts[i];
        if i != k && a.status.Active? && !Cooling(a, now) && Serves(a, selector, now) && TierRank(a.tier) >= ownRank {
          return false;
        }
        i := i + 1;
      }
      return true;
    }

    method ReportErrorCall(apiKey: string, selector: string, windowMs: int, now: int)
      modifies pool`accounts
      ensures pool.accounts == ReportError(cfg, old(pool.accounts), apiKey, selector, windowMs, now)
    {
      var found := FindKey(pool.accounts, apiKey);
      if found.None? || IgnoresErrors(pool.accounts[found.value]) {
        return;
      }
      var k := found.value;
      pool.accounts := pool.accounts[k := Counted(pool.accounts[k], now, windowMs)];
      var account := pool.accounts[k];
      if account.errorCount >= cfg.errorStreakThreshold && !account.status.Errored? {
        if cfg.lastAccountExempt {
          var last := IsLastUsableAccount(k, selector, now);
          if last {
            return;
          }
        }
        Trip(k, now);
      }
    }

    method Trip(k: nat, now: int)
      requires k < |pool.accounts|
      modifies pool`accounts
      ensures pool.accounts == old(pool.accounts)[k := Tripped(cfg, old(pool.accounts)[k], now)]
    {
      var account := pool.accounts[k];
      account := account.(status := Errored, erroredAt := now, breakerStreak := account.breakerStreak + 1);
      if cfg.breakerEnabled && account.breakerStreak >= cfg.breakerStreakStart && !IsNew(cfg, account, now) {
        var until := now + Backoff(cfg, account.breakerStreak);
        account := account.(rateLimitedUntil := if account.rateLimitedUntil >= until then account.rateLimitedUntil else until);
      }
      pool.accounts := pool.accounts[k := account];
    }

    method ReportInternalErrorCall(apiKey: string, selector: string, now: int)
      modifies pool`accounts
      ensures pool.accounts == ReportInternalError(cfg, old(pool.accounts), apiKey, selector, now)
    {
      var found := FindKey(pool.accounts, apiKey);
      if found.None? {
        return;
      }
      var k := found.value;
      var account := pool.accounts[k].(internalErrorStreak := pool.accounts[k].internalErrorStreak + 1);
      pool.accounts := pool.accounts[k := account];
      if account.internalErrorStreak >= cfg.internalErrorThreshold {
        if cfg.lastAccountExempt {
          var last := IsLastUsableAccount(k, selector, now);
          if last {
            return;
          }
        }
        pool.accounts := pool.accounts[k := account.(rateLimitedUntil := Max(account.rateLimitedUntil, now + cfg.internalQuarantineMs))];
      }
    }
  }

  // ------------------------------------------------------------------
  // What reports keep
  // ------------------------------------------------------------------

  /** Some account in rotation for the selector has at least this rank. */
  ghost predicate Covers(accounts: seq<Account>, rank: int, selector: string, now: int) {
    exists i :: 0 <= i < |accounts| && Usable(accounts[i], selector, now) && TierRank(accounts[i].tier) >= rank
  }

  datatype Report = ErrorReport(apiKey: string, selector: string, windowMs: int, now: int) | InternalReport(apiKey: string, selector: string, now: int)

  function Apply(cfg: Tunables, accounts: seq<Account>, r: Report): seq<Account> {
    match r
    case ErrorReport(apiKey, selector, windowMs, now) => ReportError(cfg, accounts, apiKey, selector, windowMs, now)
    case InternalReport(apiKey, selector, now) => ReportInternalError(cfg, accounts, apiKey, selector, now)
  }

  /** The same but for counters. */
  predicate OnlyCounted(a: Account, b: Account) {
    && b.status == a.status && b.tier == a.tier && b.refused == a.refused && b.ineligible == a.ineligible
    && b.rateLimitedUntil == a.rateLimitedUntil && b.quotaResetAt == a.quotaResetAt && b.modelLimits == a.modelLimits
  }

  /** Out of rotation, or cooling for longer. */
  predicate OnlyDemoted(a: Account, b: Account) {
    && b.tier == a.tier && b.refused == a.refused && b.ineligible == a.ineligible
    && b.rateLimitedUntil >= a.rateLimitedUntil && b.quotaResetAt == a.quotaResetAt && b.modelLimits == a.modelLimits
  }

  /** A report changes one account at most; unless it is not the last usable one, only its counters. */
  predicate Reported(cfg: Tunables, accounts: seq<Account>, after: seq<Account>, k: nat, selector: string, now: int)
    requires k < |accounts|
  {
    && |after| == |accounts|
    && after == accounts[k := after[k]]
    && OnlyDemoted(accounts[k], after[k])
    && (cfg.lastAccountExempt && IsLastUsable(accounts, k, selector, now) ==> OnlyCounted(accounts[k], after[k]))
  }

  lemma ReportErrorChanges(cfg: Tunables, accounts: seq<Account>, k: nat, selector: string, windowMs: int, now: int)
    requires k < |accounts|
    ensures Reported(cfg, accounts, ReportErrorAt(cfg, accounts, k, selector, windowMs, now), k, selector, now)
  {
    var counted := accounts[k := Counted(accounts[k], now, windowMs)];
    LastDespiteCounting(accounts, k, counted[k], selector, now);
  }

  lemma ReportInternalErrorChanges(cfg: Tunables, accounts: seq<Account>, k: nat, selector: string, now: int)
    requires k < |accounts|
    ensures Reported(cfg, accounts, ReportInternalErrorAt(cfg, accounts, k, selector, now), k, selector, now)
  {
    var a := accounts[k];
    LastDespiteCounting(accounts, k, a.(internalErrorStreak := a.internalErrorStreak + 1), selector, now);
  }

  lemma LastDespiteCounting(accounts: seq<Account>, k: nat, a: Account, selector: string, now: int)
    requires k < |accounts| && a.tier == accounts[k].tier
    ensures IsLastUsable(accounts[k := a], k, selector, now) <==> IsLastUsable(accounts, k, selector, now)
  {
    var counted := accounts[k := a];
    assert forall i :: 0 <= i < |accounts| && i != k ==> counted[i] == accounts[i];
  }

  /** No report moves a cooldown deadline earlier. */
  lemma DeadlinesOnlyMoveOut(cfg: Tunables, accounts: seq<Account>, r: Report, i: nat)
    requires i < |accounts|
    ensures var after := Apply(cfg, accounts, r);
            |after| == |accounts| && after[i].rateLimitedUntil >= accounts[i].rateLimitedUntil
            && after[i].quotaResetAt == accounts[i].quotaResetAt && after[i].modelLimits == accounts[i].modelLimits
  {
    var k := FindKey(accounts, r.apiKey);
    if k.Some? {
      match r
      case ErrorReport(_, selector, windowMs, now) => ReportErrorChanges(cfg, accounts, k.value, selector, windowMs, now);
      case InternalReport(_, selector, now) => ReportInternalErrorChanges(cfg, accounts, k.value, selector, now);
    }
  }

  /** Time only lets accounts back in. */
  lemma UsableLater(a: Account, selector: string, now: int, later: int)
    requires Usable(a, selector, now) && now <= later
    ensures Usable(a, selector, later)
  {
  }

  /** Somebody at least as good takes over from an account that is not the last usable one. */
  lemma ReportKeepsCover(cfg: Tunables, accounts: seq<Account>, after: seq<Account>, k: nat, reported: string,
                                            rank: int, selector: string, now: int)
    requires cfg.lastAccountExempt && k < |accounts| && Reported(cfg, accounts, after, k, reported, now)
    requires selector == "" || selector == reported
    requires Covers(accounts, rank, selector, now)
    ensures Covers(after, rank, selector, now)
  {
    var i :| 0 <= i < |accounts| && Usable(accounts[i], selector, now) && TierRank(accounts[i].tier) >= rank;
    if i != k || OnlyCounted(accounts[k], after[k]) {
      assert Usable(after[i], selector, now) && TierRank(after[i].tier) >= rank;
    } else {
      var j :| 0 <= j < |accounts| && j != k && Usable(accounts[j], reported, now) && TierRank(accounts[j].tier) >= TierRank(accounts[k].tier);
      assert Usable(after[j], selector, now) && TierRank(after[j].tier) >= rank;
    }
  }

  lemma StepKeepsCover(cfg: Tunables, accounts: seq<Account>, r: Report, rank: int, selector: string, before: int)
    requires cfg.lastAccountExempt && before <= r.now && (selector == "" || selector == r.selector)
    requires Covers(accounts, rank, selector, before)
    ensures Covers(Apply(cfg, accounts, r), rank, selector, r.now)
  {
    var i :| 0 <= i < |accounts| && Usable(accounts[i], selector, before) && TierRank(accounts[i].tier) >= rank;
    UsableLater(accounts[i], selector, before, r.now);
    assert Covers(accounts, rank, selector, r.now);
    var k := FindKey(accounts, r.apiKey);
    if k.Some? {
      match r {
        case ErrorReport(_, reported, windowMs, now) => ReportErrorChanges(cfg, accounts, k.value, reported, windowMs, now);
        case InternalReport(_, reported, now) => ReportInternalErrorChanges(cfg, accounts, k.value, reported, now);
      }
      ReportKeepsCover(cfg, accounts, Apply(cfg, accounts, r), k.value, r.selector, rank, selector, r.now);
    }
  }

  function Run(cfg: Tunables, accounts: seq<Account>, run: seq<Report>): seq<Account> {
    if run == [] then accounts else Apply(cfg, Run(cfg, accounts, run[..|run| - 1]), run[|run| - 1])
  }

  function End(start: int, run: seq<Report>): int {
    if run == [] then start else run[|run| - 1].now
  }

  /** The clock does not go back. */
  ghost predicate InTime(start: int, run: seq<Report>) {
    forall i :: 0 <= i < |run| ==> End(start, run[..i]) <= run[i].now
  }

  /** With the exemption on, no run of reports lowers the best rank in rotation; nor, when all the reports name one
      selector, the best rank in rotation for it. */
  lemma {:induction false} RunKeepsCover(cfg: Tunables, accounts: seq<Account>, run: seq<Report>, rank: int, selector: string, start: int)
    requires cfg.lastAccountExempt && InTime(start, run) && Covers(accounts, rank, selector, start)
    requires selector == "" || forall i :: 0 <= i < |run| ==> run[i].selector == selector
    ensures Covers(Run(cfg, accounts, run), rank, selector, End(start, run))
    decreases |run|
  {
    if run != [] {
      var init, last := run[..|run| - 1], run[|run| - 1];
      forall i | 0 <= i < |init| ensures End(start, init[..i]) <= init[i].now {
        assert init[..i] == run[..i];
      }
      RunKeepsCover(cfg, accounts, init, rank, selector, start);
      StepKeepsCover(cfg, Run(cfg, accounts, init), last, rank, selector, End(start, init));
    }
  }

  // ------------------------------------------------------------------
  // Selectors that a report does not name
  // ------------------------------------------------------------------

  /** The guards under which a report takes account `k` out of rotation. */
  predicate TakesOut(cfg: Tunables, accounts: seq<Account>, r: Report, k: nat)
    requires k < |accounts|
  {
    var a := accounts[k];
    && !(cfg.lastAccountExempt && IsLastUsable(accounts, k, r.selector, r.now))
    && match r
       case ErrorReport(_, _, windowMs, now) =>
         !IgnoresErrors(a) && !a.status.Errored? && Counted(a, now, windowMs).errorCount >= cfg.errorStreakThreshold
       case InternalReport(_, _, _) =>
         a.internalErrorStreak + 1 >= cfg.internalErrorThreshold && cfg.internalQuarantineMs > 0
  }

  lemma ReportedUsableIff(cfg: Tunables, accounts: seq<Account>, r: Report, k: nat, after: seq<Account>, selector: string)
    requires FindKey(accounts, r.apiKey) == Some(k) && after == Apply(cfg, accounts, r)
    ensures |after| == |accounts| && after == accounts[k := after[k]] && after[k].tier == accounts[k].tier
    ensures Usable(after[k], selector, r.now) <==> Usable(accounts[k], selector, r.now) && !TakesOut(cfg, accounts, r, k)
  {
    var a := accounts[k];
    match r {
      case ErrorReport(_, reported, windowMs, now) =>
        LastDespiteCounting(accounts, k, Counted(a, now, windowMs), reported, now);
      case InternalReport(_, reported, now) =>
        LastDespiteCounting(accounts, k, a.(internalErrorStreak := a.internalErrorStreak + 1), reported, now);
    }
  }

  /** Putting `b` in the place of account `k` keeps every rank unless it takes the last usable account out. */
  lemma ReplacementKeepsIff(accounts: seq<Account>, k: nat, b: Account, selector: string, now: int)
    requires k < |accounts| && b.tier == accounts[k].tier && (Usable(b, selector, now) ==> Usable(accounts[k], selector, now))
    ensures KeepsEveryRank(accounts, accounts[k := b], selector, now) <==>
            (!Usable(accounts[k], selector, now) || Usable(b, selector, now) || !IsLastUsable(accounts, k, selector, now))
  {
    var after, own := accounts[k := b], TierRank(accounts[k].tier);
    if Usable(accounts[k], selector, now) && !Usable(b, selector, now) && IsLastUsable(accounts, k, selector, now) {
      assert Covers(accounts, own, selector, now);
      assert !Covers(after, own, selector, now);
    } else {
      forall rank | Covers(accounts, rank, selector, now) ensures Covers(after, rank, selector, now) {
        var i :| 0 <= i < |accounts| && Usable(accounts[i], selector, now) && TierRank(accounts[i].tier) >= rank;
        if i != k || Usable(b, selector, now) {
          assert Usable(after[i], selector, now);
        } else {
          var j :| 0 <= j < |accounts| && j != k && Usable(accounts[j], selector, now) && TierRank(accounts[j].tier) >= own;
          assert Usable(after[j], selector, now);
        }
      }
    }
  }

  ghost predicate KeepsEveryRank(accounts: seq<Account>, after: seq<Account>, selector: string, now: int) {
    forall rank :: Covers(accounts, rank, selector, now) ==> Covers(after, rank, selector, now)
  }

  /** For any selector, named or not: a report keeps every rank in rotation if and only if it does not take the account
      out, or the account was out of rotation for the selector, or was not the last usable one for it. */
  lemma ReportKeepsSelectorIff(cfg: Tunables, accounts: seq<Account>, r: Report, k: nat, selector: string)
    requires FindKey(accounts, r.apiKey) == Some(k)
    ensures KeepsEveryRank(accounts, Apply(cfg, accounts, r), selector, r.now) <==>
            (!TakesOut(cfg, accounts, r, k) || !Usable(accounts[k], selector, r.now) || !IsLastUsable(accounts, k, selector, r.now))
  {
    var after := Apply(cfg, accounts, r);
    ReportedUsableIff(cfg, accounts, r, k, after, selector);
    ReplacementKeepsIff(accounts, k, after[k], selector, r.now);
  }

  /** Two paid accounts, one of which cannot serve "opus": a report about the other, naming no selector, leaves nobody
      who can, with the exemption on. */
  lemma OtherSelectorCanLose() returns (cfg: Tunables, accounts: seq<Account>, r: Report)
    ensures cfg.lastAccountExempt && r.selector == "" && Covers(accounts, 2, "opus", r.now)
    ensures !Covers(Apply(cfg, accounts, r), 0, "opus", r.now)
  {
    var a := Account("a", "key a", Active, Pro, 0, 0, 0, 0, map[], map[], {}, 0, 0, 0, 0, 0, 0, [], 0, 0, 0, 100.0);
    var b := a.(id := "b", apiKey := "key b", refused := {"opus"});
    cfg := Tunables(3, 1, 120_000, true, true, 2, 900_000, 1.5, 3_600_000, 600_000);
    accounts, r := [a, b], InternalReport("key a", "", 5);
    assert accounts[0] == a && accounts[1] == b;
    assert Usable(accounts[0], "opus", 5) && Usable(accounts[1], "", 5);
    assert FindKey(accounts, "key a") == Some(0);
    ReportedUsableIff(cfg, accounts, r, 0, Apply(cfg, accounts, r), "opus");
  }
}
