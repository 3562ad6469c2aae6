/** Whom a lease goes to, by which path, and what it costs: the sticky binding, the bars that keep an account out, and the
    balance of requests in flight. */
module AccountLeases {
  import opened Prelude
  import opened AccountPools
  import opened AccountSelection
  import opened AccountRates

  // ------------------------------------------------------------------
  // The sticky binding
  // ------------------------------------------------------------------

  /** The first active account with this id. */
  ghost predicate FirstActive(accounts: seq<Account>, id: string, i: nat) {
    && i < |accounts| && accounts[i].id == id && accounts[i].status.Active?
    && forall j :: 0 <= j < i ==> accounts[j].id != id || !accounts[j].status.Active?
  }

  /** The first account with this id is active. */
  ghost predicate StillActive(accounts: seq<Account>, id: string) {
    exists i :: 0 <= i < |accounts| && accounts[i].id == id && accounts[i].status.Active? && forall j :: 0 <= j < i ==> accounts[j].id != id
  }

  lemma {:induction false} FindFirstIs(accounts: seq<Account>, p: Account -> bool, n: nat)
    requires n <= |accounts|
    ensures var r := FindFirst(accounts, p, n);
            && (r.Some? ==> forall j :: n <= j < r.value ==> !p(accounts[j]))
            && (r.None? ==> forall j :: n <= j < |accounts| ==> !p(accounts[j]))
    decreases |accounts| - n
  {
    if n < |accounts| && !p(accounts[n]) {
      FindFirstIs(accounts, p, n + 1);
    }
  }

  /** The caller is bound, and the account it is bound to would be admitted for this request. */
  ghost predicate PinHolds(cfg: Config, p: Pool, q: Request, bound: Option<string>, i: nat) {
    bound.Some? && FirstActive(p.accounts, bound.value, i) && Admitted(cfg, p.accounts[i], q)
  }

  ghost predicate Pinned(cfg: Config, p: Pool, q: Request, bound: Option<string>) {
    exists i: nat :: PinHolds(cfg, p, q, bound, i)
  }

  lemma PinIs(cfg: Config, p: Pool, q: Request, bound: string) returns (i: Option<nat>)
    ensures i == FindFirst(p.accounts, (a: Account) => a.id == bound && a.status.Active?, 0)
    ensures forall k: nat :: PinHolds(cfg, p, q, Some(bound), k) <==> i == Some(k) && Admitted(cfg, p.accounts[k], q)
    ensures Pinned(cfg, p, q, Some(bound)) <==> i.Some? && Admitted(cfg, p.accounts[i.value], q)
  {
    var active := (a: Account) => a.id == bound && a.status.Active?;
    i := FindFirst(p.accounts, active, 0);
    FindFirstIs(p.accounts, active, 0);
    if i.Some? && Admitted(cfg, p.accounts[i.value], q) {
      assert PinHolds(cfg, p, q, Some(bound), i.value);
    }
  }

  /** A caller's own account is handed out, as such, exactly when the caller is bound and the first active account with the
      bound id is admitted; which it is depends on no hash and on no other account. */
  lemma StickyIff(cfg: Config, p: Pool, q: Request, hash: Option<nat>, bound: Option<string>, pinOnly: bool, i: nat)
    ensures var lease := GetApiKey(cfg, p, q, hash, bound, pinOnly).1;
            lease.Some? && lease.value.path.Sticky? && lease.value.index == i <==> PinHolds(cfg, p, q, bound, i)
  {
    SelectIsNotSticky(cfg, p, q, hash);
    if bound.Some? {
      var found := PinIs(cfg, p, q, bound.value);
    }
  }

  lemma SelectIsNotSticky(cfg: Config, p: Pool, q: Request, hash: Option<nat>)
    ensures Select(cfg, p, q, hash).1.Some? ==> Select(cfg, p, q, hash).1.value.path in {Selected, Degraded}
  {
  }

  /** A caller that polls for its own account gets that or nothing, and a poll that fails changes nothing. */
  lemma PollIsPinOrNothing(cfg: Config, p: Pool, q: Request, hash: Option<nat>, bound: Option<string>)
    ensures var (r, lease) := GetApiKey(cfg, p, q, hash, bound, true);
            && (lease.Some? <==> Pinned(cfg, p, q, bound)) && (lease.Some? ==> lease.value.path.Sticky?)
            && (lease.None? ==> r == p)
  {
    if bound.Some? {
      var found := PinIs(cfg, p, q, bound.value);
    }
  }

  lemma StillActiveIs(p: Pool, bound: string) returns (first: Option<nat>)
    ensures first == FindFirst(p.accounts, (a: Account) => a.id == bound, 0)
    ensures StillActive(p.accounts, bound) <==> first.Some? && p.accounts[first.value].status.Active?
  {
    var mine := (a: Account) => a.id == bound;
    first := FindFirst(p.accounts, mine, 0);
    FindFirstIs(p.accounts, mine, 0);
  }

  /** Without fallback, a bound account that is still active but not admitted is waited for; in every other case without a
      pin that holds the answer is that of selection. */
  lemma NoPinSelectsIff(cfg: Config, p: Pool, q: Request, hash: Option<nat>, bound: Option<string>)
    requires !Pinned(cfg, p, q, bound)
    ensures GetApiKey(cfg, p, q, hash, bound, false) ==
            if cfg.stickyNoFallback && bound.Some? && StillActive(p.accounts, bound.value) then (p, None) else Select(cfg, p, q, hash)
  {
    if bound.Some? {
      var found := PinIs(cfg, p, q, bound.value);
      var first := StillActiveIs(p, bound.value);
    }
  }

  // ------------------------------------------------------------------
  // The bars
  // ------------------------------------------------------------------

  /** What can keep an account from a request. */
  datatype Bar =
    | Inactive
    | Excluded
    | InService
    | AccountCooling
    | QuotaUsedUp
    | ModelCooling
    | SelectorCooling
    | SelectorLatched
    | RateUsedUp
    | SlotsUsedUp
    | ModelRefused
    | SelectorRefused

  /** The reservations from the k-th on are what is left of the last minute. */
  ghost predicate RecentFrom(history: seq<int>, now: int, k: nat) {
    && k <= |history| && (forall j :: 0 <= j < k ==> history[j] < (now - 60_000) * 1000)
    && (k < |history| ==> history[k] >= (now - 60_000) * 1000)
  }

  ghost predicate Barred(cfg: Config, a: Account, q: Request, bar: Bar) {
    match bar
    case Inactive => a.status != Active
    case Excluded => a.apiKey in q.exclude
    case InService => a.maintenance + a.lsMaintenance > 0
    case AccountCooling => q.now < a.rateLimitedUntil
    case QuotaUsedUp => q.now < a.quotaResetAt
    case ModelCooling => q.model != "" && q.now < Until(a.modelLimits, q.model)
    case SelectorCooling => q.selector != "" && q.now < Until(a.modelLimits, q.selector)
    case SelectorLatched => q.selector != "" && q.now < Until(a.ineligible, q.selector)
    case RateUsedUp => forall k :: RecentFrom(a.history, q.now, k) ==> |a.history| - k >= RpmLimit(a.tier)
    case SlotsUsedUp => cfg.inflightCap > 0 && a.inflight >= cfg.inflightCap
    case ModelRefused => q.model != "" && q.model in a.refused
    case SelectorRefused => q.selector != "" && q.selector in a.refused
  }

  ghost predicate Clear(cfg: Config, a: Account, q: Request, bars: set<Bar>) {
    forall bar :: bar in bars ==> !Barred(cfg, a, q, bar)
  }

  lemma {:induction false} PrunedIsRecent(history: seq<int>, now: int) returns (k: nat)
    ensures RecentFrom(history, now, k) && Pruned(history, now) == history[k..]
    ensures forall j: nat :: RecentFrom(history, now, j) <==> j == k
    decreases |history|
  {
    k := 0;
    if history != [] && history[0] < Cutoff(now) {
      var rest := PrunedIsRecent(history[1..], now);
      k := rest + 1;
      assert forall j :: 1 <= j < |history| ==> history[j] == history[1..][j - 1];
    }
  }

  lemma HeadroomIff(cfg: Config, a: Account, q: Request)
    ensures HasHeadroom(a, q.now) <==> !Barred(cfg, a, q, RateUsedUp)
  {
    var k := PrunedIsRecent(a.history, q.now);
    assert RecentFrom(a.history, q.now, k);
  }

  /** An account is admitted exactly when nothing bars it. */
  lemma AdmittedIff(cfg: Config, a: Account, q: Request)
    ensures Admitted(cfg, a, q) <==> forall bar :: !Barred(cfg, a, q, bar)
  {
    HeadroomIff(cfg, a, q);
    if forall bar :: !Barred(cfg, a, q, bar) {
      assert !Barred(cfg, a, q, Inactive) && !Barred(cfg, a, q, Excluded) && !Barred(cfg, a, q, InService)
             && !Barred(cfg, a, q, AccountCooling) && !Barred(cfg, a, q, QuotaUsedUp) && !Barred(cfg, a, q, ModelCooling)
             && !Barred(cfg, a, q, SelectorCooling) && !Barred(cfg, a, q, SelectorLatched) && !Barred(cfg, a, q, SlotsUsedUp)
             && !Barred(cfg, a, q, ModelRefused) && !Barred(cfg, a, q, SelectorRefused);
    }
  }

  /** By key neither the exclusions nor the slots in flight nor a cooling selector count. */
  lemma ByKeyIff(cfg: Config, a: Account, q: Request)
    ensures AcquirableByKey(a, q) <==>
            Clear(cfg, a, q, {Inactive, InService, AccountCooling, QuotaUsedUp, ModelCooling, SelectorLatched, RateUsedUp, ModelRefused, SelectorRefused})
  {
    HeadroomIff(cfg, a, q);
  }

  /** A degraded serve looks past the cooldown of the account or of the model, one of which must be there. */
  lemma DegradableIff(cfg: Config, a: Account, q: Request)
    ensures Degradable(a, q) <==>
            && Clear(cfg, a, q, {Inactive, Excluded, InService, QuotaUsedUp, SelectorLatched, RateUsedUp, ModelRefused, SelectorRefused})
            && CooledUntil(a, q) != 0
    ensures CooledUntil(a, q) != 0 ==> Barred(cfg, a, q, AccountCooling) || Barred(cfg, a, q, ModelCooling)
  {
    HeadroomIff(cfg, a, q);
  }

  /** The time at which such a cooldown is over: not earlier, and not later. */
  lemma CooledUntilIsTight(cfg: Config, a: Account, q: Request, t: int)
    requires CooledUntil(a, q) != 0 && q.now <= t
    ensures t < CooledUntil(a, q) <==>
            Barred(cfg, a, q.(now := t), AccountCooling) || Barred(cfg, a, q.(now := t), ModelCooling)
  {
  }

  // ------------------------------------------------------------------
  // Whom a lease goes to
  // ------------------------------------------------------------------

  /** An account in error comes back when it has rested long enough, and no other is changed. */
  lemma RestsBeforeTrial(cfg: Config, a: Account, now: int)
    ensures var since := if a.erroredAt != 0 then a.erroredAt else a.errorAt;
            var b := Recovered(cfg, a, now);
            && (b.status.Active? <==> a.status.Active? || (a.status.Errored? && since > 0 && now >= since + cfg.errorRecoveryMs))
            && (!a.status.Errored? || !b.status.Active? ==> b == a)
            && (a.status.Errored? && b.status.Active? ==> b == a.(status := Active, errorCount := 0))
  {
  }

  /** Nothing bars the account of a lease, with its trial counted; a degraded lease looks past a cooldown, and only when
      everybody is barred. */
  ghost predicate GoesWhereItMay(cfg: Config, p: Pool, q: Request, lease: Lease) {
    && lease.index < |p.accounts|
    && match lease.path
       case Sticky => forall bar :: !Barred(cfg, p.accounts[lease.index], q, bar)
       case Selected => forall bar :: !Barred(cfg, Recovered(cfg, p.accounts[lease.index], q.now), q, bar)
       case Degraded =>
         && cfg.degradedServe && EverybodyBarred(cfg, p, q)
         && Clear(cfg, Recovered(cfg, p.accounts[lease.index], q.now), q,
                  {Inactive, Excluded, InService, QuotaUsedUp, SelectorLatched, RateUsedUp, ModelRefused, SelectorRefused})
       case ByKey => false
  }

  ghost predicate Out(cfg: Config, a: Account, q: Request) {
    exists bar :: Barred(cfg, Recovered(cfg, a, q.now), q, bar)
  }

  ghost predicate EverybodyBarred(cfg: Config, p: Pool, q: Request) {
    forall i :: 0 <= i < |p.accounts| ==> Out(cfg, p.accounts[i], q)
  }

  lemma NobodyAdmitted(cfg: Config, p: Pool, q: Request)
    ensures EverybodyBarred(cfg, p, q) <==> !SomeAdmitted(cfg, p, q)
  {
    forall i | 0 <= i < |p.accounts| ensures Out(cfg, p.accounts[i], q) <==> !Admitted(cfg, Recovered(cfg, p.accounts[i], q.now), q) {
      AdmittedIff(cfg, Recovered(cfg, p.accounts[i], q.now), q);
    }
  }

  lemma SelectedGoesWhereItMay(cfg: Config, p: Pool, q: Request, hash: Option<nat>)
    ensures var lease := Select(cfg, p, q, hash).1; lease.Some? ==> GoesWhereItMay(cfg, p, q, lease.value)
  {
    var looked := AllLookedAt(cfg, p.accounts, q);
    var cs := Candidates(cfg, looked, q);
    SelectsIff(cfg, p, q, hash);
    NobodyAdmitted(cfg, p, q);
    if cs != [] {
      var chosen := Chosen(cs, hash, cfg.strictPin);
      CandidateExists(cfg, looked, q, chosen);
      LookedAtEach(cfg, p.accounts, q, chosen.index);
      LookingKeepsAdmission(cfg, p.accounts[chosen.index], q);
      AdmittedIff(cfg, Recovered(cfg, p.accounts[chosen.index], q.now), q);
    } else if cfg.degradedServe && LeastCooled(looked, q).Some? {
      var i := LeastCooled(looked, q).value;
      LookedAtEach(cfg, p.accounts, q, i);
      DegradableAfterLook(cfg, p.accounts[i], q);
      DegradableIff(cfg, Recovered(cfg, p.accounts[i], q.now), q);
    }
  }

  lemma DegradableAfterLook(cfg: Config, a: Account, q: Request)
    ensures Degradable(LookedAt(cfg, a, q), q) <==> Degradable(Recovered(cfg, a, q.now), q)
  {
    PrunedTwice(a.history, Cutoff(q.now));
  }

  /** No lease ever goes to an account that something bars. */
  lemma LeaseGoesWhereItMay(cfg: Config, p: Pool, q: Request, hash: Option<nat>, bound: Option<string>, pinOnly: bool)
    ensures var lease := GetApiKey(cfg, p, q, hash, bound, pinOnly).1; lease.Some? ==> GoesWhereItMay(cfg, p, q, lease.value)
  {
    SelectedGoesWhereItMay(cfg, p, q, hash);
    if bound.Some? {
      var found := PinIs(cfg, p, q, bound.value);
      if found.Some? {
        AdmittedIff(cfg, p.accounts[found.value], q);
      }
    }
  }

  /** A lease by key goes to the first account with the key, exactly when nothing that counts there bars it. */
  lemma ByKeyLeaseIff(cfg: Config, p: Pool, apiKey: string, q: Request, i: nat)
    ensures var lease := AcquireByKey(p, apiKey, q).1;
            lease.Some? && lease.value.index == i <==>
              && i < |p.accounts| && p.accounts[i].apiKey == apiKey && (forall j :: 0 <= j < i ==> p.accounts[j].apiKey != apiKey)
              && Clear(cfg, p.accounts[i], q,
                       {Inactive, InService, AccountCooling, QuotaUsedUp, ModelCooling, SelectorLatched, RateUsedUp, ModelRefused, SelectorRefused})
  {
    var found := FirstWithKey(p.accounts, apiKey);
    if found.Some? {
      ByKeyIff(cfg, p.accounts[found.value], q);
    }
  }

  lemma FirstWithKey(accounts: seq<Account>, apiKey: string) returns (i: Option<nat>)
    ensures i == FindFirst(accounts, (a: Account) => a.apiKey == apiKey, 0)
    ensures forall k: nat :: i == Some(k) <==>
              k < |accounts| && accounts[k].apiKey == apiKey && forall j :: 0 <= j < k ==> accounts[j].apiKey != apiKey
  {
    var mine := (a: Account) => a.apiKey == apiKey;
    i := FindFirst(accounts, mine, 0);
    FindFirstIs(accounts, mine, 0);
  }

  /** Whose history a look prunes: selection does it for whom it admits, a degraded serve before it asks for the rate, and an
      acquisition by key that is refused likewise. */
  lemma LooksPrune(cfg: Config, a: Account, q: Request)
    ensures LookedAt(cfg, a, q).history ==
            if Admitted(cfg, Recovered(cfg, a, q.now), q) then Pruned(a.history, q.now) else a.history
    ensures DegradedLook(a, q) ==
            if Clear(cfg, a, q, {Inactive, Excluded, InService, QuotaUsedUp}) && RpmLimit(a.tier) > 0
            then a.(history := Pruned(a.history, q.now)) else a
    ensures ByKeyLook(a, q) ==
            if Clear(cfg, a, q, {Inactive, InService, AccountCooling, QuotaUsedUp, ModelCooling}) && RpmLimit(a.tier) > 0
            then a.(history := Pruned(a.history, q.now)) else a
  {
  }

  /** A refund on an account with nothing in flight does nothing; otherwise it drops what is older than a minute, and of what is left
      the last reservation with the token, if there is one. */
  lemma RefundLeaves(a: Account, token: int, now: int)
    ensures var (b, done) := Refunded(a, token, now);
            var recent := Pruned(a.history, now);
            && b == a.(history := b.history)
            && (done <==> a.inflight > 0 && token in recent)
            && (a.inflight == 0 ==> b == a)
            && (a.inflight > 0 && !done ==> b.history == recent)
            && (done ==> exists k :: 0 <= k < |recent| && recent[k] == token && (forall j :: k < j < |recent| ==> recent[j] != token)
                                     && b.history == recent[..k] + recent[k + 1..])
  {
    var recent := Pruned(a.history, now);
    var k := LastIndexOf(recent, token);
    if token in recent {
      var i :| 0 <= i < |recent| && recent[i] == token;
      assert k >= i;
    }
  }

  // ------------------------------------------------------------------
  // Requests in flight
  // ------------------------------------------------------------------

  datatype Act =
    | Get(cfg: Config, q: Request, hash: Option<nat>, bound: Option<string>, pinOnly: bool)
    | GetByKey(apiKey: string, q: Request)
    | GiveBack(apiKey: string)

  function After(p: Pool, a: Act): Pool {
    match a
    case Get(cfg, q, hash, bound, pinOnly) => GetApiKey(cfg, p, q, hash, bound, pinOnly).0
    case GetByKey(apiKey, q) => AcquireByKey(p, apiKey, q).0
    case GiveBack(apiKey) => Release(p, apiKey)
  }

  function EndPool(p: Pool, run: seq<Act>): Pool
    decreases |run|
  {
    if run == [] then p else EndPool(After(p, run[0]), run[1..])
  }

  /** The act hands out account i. */
  predicate Leases(p: Pool, a: Act, i: nat) {
    match a
    case Get(cfg, q, hash, bound, pinOnly) =>
      var lease := GetApiKey(cfg, p, q, hash, bound, pinOnly).1; lease.Some? && lease.value.index == i
    case GetByKey(apiKey, q) => var lease := AcquireByKey(p, apiKey, q).1; lease.Some? && lease.value.index == i
    case GiveBack(_) => false
  }

  /** The act gives back account i: the first with the key, which is not empty. */
  predicate Returns(p: Pool, a: Act, i: nat) {
    a.GiveBack? && a.apiKey != "" && i < |p.accounts| && p.accounts[i].apiKey == a.apiKey && forall j :: 0 <= j < i ==> p.accounts[j].apiKey != a.apiKey
  }

  function Leased(p: Pool, run: seq<Act>, i: nat): nat
    decreases |run|
  {
    if run == [] then 0 else (if Leases(p, run[0], i) then 1 else 0) + Leased(After(p, run[0]), run[1..], i)
  }

  function Returned(p: Pool, run: seq<Act>, i: nat): nat
    decreases |run|
  {
    if run == [] then 0 else (if Returns(p, run[0], i) then 1 else 0) + Returned(After(p, run[0]), run[1..], i)
  }

  /** Given back with nothing in flight. */
  function Overpaid(p: Pool, run: seq<Act>, i: nat): nat
    decreases |run|
  {
    if run == [] then 0
    else (if Returns(p, run[0], i) && p.accounts[i].inflight == 0 then 1 else 0) + Overpaid(After(p, run[0]), run[1..], i)
  }

  lemma ActMoves(p: Pool, a: Act, i: nat)
    requires i < |p.accounts|
    ensures |After(p, a).accounts| == |p.accounts|
    ensures After(p, a).accounts[i].inflight ==
            if Leases(p, a, i) then p.accounts[i].inflight + 1
            else if Returns(p, a, i) then Max(0, p.accounts[i].inflight - 1)
            else p.accounts[i].inflight
    ensures After(p, a).accounts[i].lastUsed == if Leases(p, a, i) then a.q.now else p.accounts[i].lastUsed
  {
    match a
    case Get(cfg, q, hash, bound, pinOnly) =>
      GetApiKeyEffect(cfg, p, q, hash, bound, pinOnly);
      assert Effect(p, After(p, a), GetApiKey(cfg, p, q, hash, bound, pinOnly).1, q.now, i);
    case GetByKey(apiKey, q) =>
      AcquireByKeyEffect(p, apiKey, q);
      assert Effect(p, After(p, a), AcquireByKey(p, apiKey, q).1, q.now, i);
    case GiveBack(apiKey) =>
      FindFirstIs(p.accounts, (x: Account) => x.apiKey == apiKey, 0);
  }

  /** Over every run, what is in flight on an account and what was given back balance with what was in flight before, the leases
      handed out, and the returns that found nothing in flight. */
  lemma {:induction false} InflightBalances(p: Pool, run: seq<Act>, i: nat)
    requires i < |p.accounts|
    ensures |EndPool(p, run).accounts| == |p.accounts|
    ensures EndPool(p, run).accounts[i].inflight + Returned(p, run, i) == p.accounts[i].inflight + Leased(p, run, i) + Overpaid(p, run, i)
    decreases |run|
  {
    if run != [] {
      ActMoves(p, run[0], i);
      InflightBalances(After(p, run[0]), run[1..], i);
    }
  }

  // ------------------------------------------------------------------
  // The order of health
  // ------------------------------------------------------------------

  /** The terms of health, smaller being better, the most important first. */
  function Health(a: Account): seq<real>
    requires RpmLimit(a.tier) > 0
  {
    [(a.inflight + a.maintenance) as real, (a.trouble / 3) as real, -((a.quota / 5.0).Floor as real),
     -((RpmLimit(a.tier) - |a.history|) as real / RpmLimit(a.tier) as real), a.lastUsed as real]
  }

  /** The first term that differs decides. */
  predicate Before(x: seq<real>, y: seq<real>) {
    |x| == |y| && exists k :: 0 <= k < |x| && x[k] < y[k] && forall j :: 0 <= j < k ==> x[j] == y[j]
  }

  /** Deciding five terms one after the other. */
  lemma BeforeFive(x: seq<real>, y: seq<real>)
    requires |x| == |y| == 5
    ensures Before(x, y) <==>
            if x[0] != y[0] then x[0] < y[0]
            else if x[1] != y[1] then x[1] < y[1]
            else if x[2] != y[2] then x[2] < y[2]
            else if x[3] != y[3] then x[3] < y[3]
            else x[4] < y[4]
  {
    assert x[0] < y[0] ==> Before(x, y);
    assert x[0] == y[0] && x[1] < y[1] ==> Before(x, y);
    assert x[0] == y[0] && x[1] == y[1] && x[2] < y[2] ==> Before(x, y);
    assert x[0] == y[0] && x[1] == y[1] && x[2] == y[2] && x[3] < y[3] ==> Before(x, y);
    assert x[0] == y[0] && x[1] == y[1] && x[2] == y[2] && x[3] == y[3] && x[4] < y[4] ==> Before(x, y);
  }

  /** Accounts rank as their terms of health do: whoever is better comes first in the order of the terms. */
  lemma BetterIff(a: Account, b: Account)
    requires RpmLimit(a.tier) > 0 && RpmLimit(b.tier) > 0
    ensures Better(RankOf(a), RankOf(b)) <==> Before(Health(a), Health(b))
  {
    BeforeFive(Health(a), Health(b));
  }
}
