/** The account scheduler: who may serve a request, who is chosen, and what an acquisition leaves behind.
    `Pool` is its value, the functions below are its operations and the class `AccountPool` performs them. */
module AccountPools {
  import opened Prelude

  datatype Status = Active | Errored | Reauth | Disabled | Banned

  datatype Tier = Pro | Free | Unknown | Expired | Named

  function RpmLimit(t: Tier): nat {
    match t
    case Pro => 60
    case Free => 10
    case Expired => 0
    case _ => 20
  }

  const RPM_WINDOW_MS := 60 * 1000

  /** Reservation tokens are counted in thousandths of a millisecond. */
  const TOKENS_PER_MS := 1000

  /** 0 stands for a time that is not set. `refused` are the models and selectors the account is not entitled
      to, `quota` is its remaining percentage and `trouble` its recent trouble score. */
  datatype Account = Account(
    id: string, apiKey: string, status: Status, tier: Tier, maintenance: nat, lsMaintenance: nat,
    rateLimitedUntil: int, quotaResetAt: int, modelLimits: map<string, int>, ineligible: map<string, int>,
    refused: set<string>, addedAt: int, errorAt: int, erroredAt: int, errorCount: nat, breakerStreak: nat, internalErrorStreak: nat,
    history: seq<int>, lastUsed: int, inflight: nat, trouble: nat, quota: real)

  datatype Pool = Pool(accounts: seq<Account>, reservationSeq: nat)

  /** An empty model or selector stands for none. */
  datatype Request = Request(model: string, selector: string, exclude: set<string>, now: int)

  datatype Config = Config(
    inflightCap: nat, errorRecoveryMs: int, degradedServe: bool, strictPin: bool, stickyNoFallback: bool)

  // ------------------------------------------------------------------
  // The rolling window
  // ------------------------------------------------------------------

  function Cutoff(now: int): int {
    (now - RPM_WINDOW_MS) * TOKENS_PER_MS
  }

  function PrunedAt(history: seq<int>, cutoff: int): seq<int> {
    if history != [] && history[0] < cutoff then PrunedAt(history[1..], cutoff) else history
  }

  function Pruned(history: seq<int>, now: int): seq<int> {
    PrunedAt(history, Cutoff(now))
  }

  /** The read-only count. */
  method RpmHistoryCount(history: seq<int>, now: int) returns (n: nat)
    ensures n == |Pruned(history, now)|
  {
    var cutoff := Cutoff(now);
    var first := 0;
    while first < |history| && history[first] < cutoff
      invariant first <= |history|
      invariant PrunedAt(history, cutoff) == PrunedAt(history[first..], cutoff)
    {
      assert history[first..][1..] == history[first + 1..];
      first := first + 1;
    }
    assert |history[first..]| == |history| - first;
    return |history| - first;
  }

  // ------------------------------------------------------------------
  // Admission
  // ------------------------------------------------------------------

  function Until(limits: map<string, int>, key: string): int {
    if key in limits then limits[key] else 0
  }

  predicate InMaintenance(a: Account) {
    a.maintenance > 0 || a.lsMaintenance > 0
  }

  predicate SelectorIneligible(a: Account, selector: string, now: int) {
    selector != "" && Until(a.ineligible, selector) > now
  }

  predicate Cooled(a: Account, model: string, selector: string, now: int) {
    || a.rateLimitedUntil > now
    || a.quotaResetAt > now
    || (model != "" && Until(a.modelLimits, model) > now)
    || (selector != "" && selector != model && Until(a.modelLimits, selector) > now)
    || SelectorIneligible(a, selector, now)
  }

  predicate RateLimited(a: Account, model: string, now: int) {
    a.rateLimitedUntil > now || a.quotaResetAt > now || (model != "" && Until(a.modelLimits, model) > now)
  }

  predicate Entitled(a: Account, q: Request) {
    (q.model != "" ==> q.model !in a.refused) && (q.selector != "" ==> q.selector !in a.refused)
  }

  predicate HasHeadroom(a: Account, now: int) {
    RpmLimit(a.tier) > 0 && |Pruned(a.history, now)| < RpmLimit(a.tier)
  }

  predicate Admitted(cfg: Config, a: Account, q: Request) {
    && a.status.Active?
    && a.apiKey !in q.exclude
    && !InMaintenance(a)
    && !Cooled(a, q.model, q.selector, q.now)
    && HasHeadroom(a, q.now)
    && !(cfg.inflightCap > 0 && a.inflight >= cfg.inflightCap)
    && Entitled(a, q)
  }

  // ------------------------------------------------------------------
  // Acquisition
  // ------------------------------------------------------------------

  datatype Path = Sticky | Selected | Degraded | ByKey

  datatype Lease = Lease(index: nat, token: int, path: Path)

  function Reserved(a: Account, now: int, token: int): Account {
    a.(history := Pruned(a.history, now) + [token], lastUsed := now, inflight := a.inflight + 1)
  }

  function Token(now: int, reservationSeq: nat): int {
    now * TOKENS_PER_MS + reservationSeq
  }

  /** Hand out account `i`. */
  function Acquire(p: Pool, i: nat, now: int, path: Path): (Pool, Option<Lease>)
    requires i < |p.accounts|
  {
    var next := (p.reservationSeq + 1) % TOKENS_PER_MS;
    var token := Token(now, next);
    (Pool(p.accounts[i := Reserved(p.accounts[i], now, token)], next), Some(Lease(i, token, path)))
  }

  /** The half-open trial of an account that has been in error long enough. */
  function Recovered(cfg: Config, a: Account, now: int): Account {
    var since := if a.erroredAt != 0 then a.erroredAt else a.errorAt;
    if a.status.Errored? && since > 0 && now - since >= cfg.errorRecoveryMs then a.(status := Active, errorCount := 0) else a
  }

  /** What selection does to an account that it only looks at. */
  function LookedAt(cfg: Config, a: Account, q: Request): Account {
    var b := Recovered(cfg, a, q.now);
    if Admitted(cfg, b, q) then b.(history := Pruned(b.history, q.now)) else b
  }

  function AllLookedAt(cfg: Config, accounts: seq<Account>, q: Request): (r: seq<Account>)
    ensures |r| == |accounts|
  {
    if accounts == [] then []
    else AllLookedAt(cfg, accounts[..|accounts| - 1], q) + [LookedAt(cfg, accounts[|accounts| - 1], q)]
  }

  /** The health terms on which accounts are compared, the first that differs deciding. */
  datatype Rank = Rank(load: int, trouble: int, quota: int, headroom: real, lastUsed: int)

  datatype Candidate = Candidate(index: nat, rank: Rank)

  function RankOf(a: Account): Rank
    requires RpmLimit(a.tier) > 0
  {
    Rank(a.inflight + a.maintenance, a.trouble / 3, (a.quota / 5.0).Floor,
         (RpmLimit(a.tier) - |a.history|) as real / RpmLimit(a.tier) as real, a.lastUsed)
  }

  /** Less load, less trouble, more quota, more headroom, used longer ago. */
  predicate Better(x: Rank, y: Rank) {
    if x.load != y.load then x.load < y.load
    else if x.trouble != y.trouble then x.trouble < y.trouble
    else if x.quota != y.quota then x.quota > y.quota
    else if x.headroom != y.headroom then x.headroom > y.headroom
    else x.lastUsed < y.lastUsed
  }

  /** The admitted ones of the accounts that were looked at. */
  function Candidates(cfg: Config, accounts: seq<Account>, q: Request): seq<Candidate> {
    if accounts == [] then []
    else
      var n := |accounts| - 1;
      Candidates(cfg, accounts[..n], q) + CandidateOf(cfg, accounts[n], q, n)
  }

  function CandidateOf(cfg: Config, a: Account, q: Request, i: nat): seq<Candidate> {
    if Admitted(cfg, a, q) then [Candidate(i, RankOf(a))] else []
  }

  const BETTER: (Candidate, Candidate) -> bool := (c: Candidate, d: Candidate) => Better(c.rank, d.rank)

  /** The stable sort by rank. */
  function BestFirst(cs: seq<Candidate>): (r: seq<Candidate>)
    ensures |r| == |cs|
  {
    if cs != [] then SortByHas(cs, BETTER, cs[0]); SortBy(cs, BETTER) else []
  }

  /** How many candidates at the front are tied with the first on every term. */
  function TiedPrefix(sorted: seq<Candidate>, n: nat): (span: nat)
    requires 0 < n <= |sorted|
    ensures n <= span <= |sorted|
    decreases |sorted| - n
  {
    if n < |sorted| && sorted[n].rank == sorted[0].rank then TiedPrefix(sorted, n + 1) else n
  }

  /** Which of the sorted candidates a caller with this hash gets; no hash stands for no caller. */
  function Slot(sorted: seq<Candidate>, hash: Option<nat>, strictPin: bool): (k: nat)
    requires sorted != []
    ensures k < |sorted|
  {
    if hash.None? || |sorted| == 1 then 0
    else
      var span := if strictPin then |sorted| else TiedPrefix(sorted, 1);
      hash.value % span
  }

  /** The transient cooldown of an account in the way of this request. */
  function CooledUntil(a: Account, q: Request): int {
    Max(if a.rateLimitedUntil > q.now then a.rateLimitedUntil else 0,
        if q.model != "" && Until(a.modelLimits, q.model) > q.now then Until(a.modelLimits, q.model) else 0)
  }

  /** The checks of a degraded serve before its rate check. */
  predicate MayDegrade(a: Account, q: Request) {
    && a.status.Active?
    && a.apiKey !in q.exclude
    && !InMaintenance(a)
    && !(a.quotaResetAt > q.now)
    && RpmLimit(a.tier) > 0
  }

  predicate Degradable(a: Account, q: Request) {
    && MayDegrade(a, q)
    && HasHeadroom(a, q.now)
    && Entitled(a, q)
    && !SelectorIneligible(a, q.selector, q.now)
    && CooledUntil(a, q) != 0
  }

  /** The degradable account whose cooldown ends first. */
  function LeastCooled(accounts: seq<Account>, q: Request): (best: Option<nat>)
    ensures best.Some? ==> best.value < |accounts| && Degradable(accounts[best.value], q)
  {
    if accounts == [] then None
    else
      var n := |accounts| - 1;
      var before := LeastCooled(accounts[..n], q);
      var a := accounts[n];
      if Degradable(a, q) && (before.None? || CooledUntil(a, q) < CooledUntil(accounts[before.value], q)) then Some(n)
      else before
  }

  function DegradedLook(a: Account, q: Request): Account {
    if MayDegrade(a, q) then a.(history := Pruned(a.history, q.now)) else a
  }

  function AllDegradedLook(accounts: seq<Account>, q: Request): (r: seq<Account>)
    ensures |r| == |accounts|
  {
    if accounts == [] then []
    else AllDegradedLook(accounts[..|accounts| - 1], q) + [DegradedLook(accounts[|accounts| - 1], q)]
  }

  function DegradedServe(cfg: Config, p: Pool, q: Request): (Pool, Option<Lease>) {
    if !cfg.degradedServe then (p, None)
    else
      var best := LeastCooled(p.accounts, q);
      var looked := p.(accounts := AllDegradedLook(p.accounts, q));
      if best.None? then (looked, None) else Acquire(looked, best.value, q.now, Degraded)
  }

  /** Selection among all accounts. */
  function Select(cfg: Config, p: Pool, q: Request, hash: Option<nat>): (Pool, Option<Lease>) {
    var looked := p.(accounts := AllLookedAt(cfg, p.accounts, q));
    var cs := Candidates(cfg, looked.accounts, q);
    if cs == [] then DegradedServe(cfg, looked, q)
    else
      var chosen := Chosen(cs, hash, cfg.strictPin);
      CandidateExists(cfg, looked.accounts, q, chosen);
      Acquire(looked, chosen.index, q.now, Selected)
  }

  function Chosen(cs: seq<Candidate>, hash: Option<nat>, strictPin: bool): (c: Candidate)
    requires cs != []
    ensures c in cs
  {
    var sorted := BestFirst(cs);
    var c := sorted[Slot(sorted, hash, strictPin)];
    SortByHas(cs, BETTER, c);
    c
  }

  lemma {:induction false} CandidateExists(cfg: Config, accounts: seq<Account>, q: Request, c: Candidate)
    requires c in Candidates(cfg, accounts, q)
    ensures c.index < |accounts| && Admitted(cfg, accounts[c.index], q) && c.rank == RankOf(accounts[c.index])
    decreases |accounts|
  {
    var n := |accounts| - 1;
    if c in Candidates(cfg, accounts[..n], q) {
      CandidateExists(cfg, accounts[..n], q, c);
    }
  }

  /** The first account with an id, or an API key, that also passes a test. */
  function FindFirst(accounts: seq<Account>, p: Account -> bool, n: nat): (r: Option<nat>)
    requires n <= |accounts|
    ensures r.Some? ==> n <= r.value < |accounts| && p(accounts[r.value])
    decreases |accounts| - n
  {
    if n == |accounts| then None else if p(accounts[n]) then Some(n) else FindFirst(accounts, p, n + 1)
  }

  /** `bound` is the account the caller is bound to, if sticky sessions are on and there is a binding. */
  function GetApiKey(cfg: Config, p: Pool, q: Request, hash: Option<nat>, bound: Option<string>, pinOnly: bool): (Pool, Option<Lease>) {
    if bound.None? then if pinOnly then (p, None) else Select(cfg, p, q, hash)
    else
      var i := FindFirst(p.accounts, (a: Account) => a.id == bound.value && a.status.Active?, 0);
      if i.Some? && Admitted(cfg, p.accounts[i.value], q) then Acquire(p, i.value, q.now, Sticky)
      else if pinOnly then (p, None)
      else
        var first := FindFirst(p.accounts, (a: Account) => a.id == bound.value, 0);
        if cfg.stickyNoFallback && first.Some? && p.accounts[first.value].status.Active? then (p, None)
        else Select(cfg, p, q, hash)
  }

  predicate AcquirableByKey(a: Account, q: Request) {
    && a.status.Active?
    && !InMaintenance(a)
    && !RateLimited(a, q.model, q.now)
    && HasHeadroom(a, q.now)
    && Entitled(a, q)
    && !SelectorIneligible(a, q.selector, q.now)
  }

  /** An account that has a limit is pruned before the limit is asked. */
  function ByKeyLook(a: Account, q: Request): Account {
    if a.status.Active? && !InMaintenance(a) && !RateLimited(a, q.model, q.now) && RpmLimit(a.tier) > 0
    then a.(history := Pruned(a.history, q.now)) else a
  }

  /** Acquire a given account; `q.exclude` plays no part. */
  function AcquireByKey(p: Pool, apiKey: string, q: Request): (Pool, Option<Lease>) {
    var i := FindFirst(p.accounts, (a: Account) => a.apiKey == apiKey, 0);
    if i.None? then (p, None)
    else
      var a := p.accounts[i.value];
      if AcquirableByKey(a, q) then Acquire(p, i.value, q.now, ByKey)
      else (p.(accounts := p.accounts[i.value := ByKeyLook(a, q)]), None)
  }

  /** The last place of a token, or -1. */
  function LastIndexOf(history: seq<int>, token: int): (k: int)
    ensures -1 <= k < |history|
    ensures k >= 0 ==> history[k] == token
    ensures forall j :: k < j < |history| ==> history[j] != token
  {
    if history == [] then -1
    else if history[|history| - 1] == token then |history| - 1
    else LastIndexOf(history[..|history| - 1], token)
  }

  function Refunded(a: Account, token: int, now: int): (Account, bool) {
    if a.inflight == 0 then (a, false)
    else
      var pruned := Pruned(a.history, now);
      var k := LastIndexOf(pruned, token);
      if k < 0 then (a.(history := pruned), false)
      else (a.(history := pruned[..k] + pruned[k + 1..]), true)
  }

  function Refund(p: Pool, apiKey: string, token: int, now: int): (Pool, bool) {
    var i := FindFirst(p.accounts, (a: Account) => a.apiKey == apiKey, 0);
    if i.None? then (p, false)
    else
      var (a, done) := Refunded(p.accounts[i.value], token, now);
      (p.(accounts := p.accounts[i.value := a]), done)
  }

  function Release(p: Pool, apiKey: string): Pool {
    var i := FindFirst(p.accounts, (a: Account) => a.apiKey == apiKey, 0);
    if apiKey == "" || i.None? then p
    else
      var a := p.accounts[i.value];
      p.(accounts := p.accounts[i.value := a.(inflight := Max(0, a.inflight - 1))])
  }

  // ------------------------------------------------------------------
  // The object
  // ------------------------------------------------------------------

  lemma {:induction false} PrunedTwice(history: seq<int>, cutoff: int)
    ensures PrunedAt(PrunedAt(history, cutoff), cutoff) == PrunedAt(history, cutoff)
    decreases |history|
  {
    if history != [] && history[0] < cutoff {
      PrunedTwice(history[1..], cutoff);
    }
  }

  lemma LookingKeepsAdmission(cfg: Config, a: Account, q: Request)
    ensures Admitted(cfg, LookedAt(cfg, a, q), q) <==> Admitted(cfg, Recovered(cfg, a, q.now), q)
  {
    PrunedTwice(a.history, Cutoff(q.now));
  }

  lemma {:induction false} LookedAtEach(cfg: Config, accounts: seq<Account>, q: Request, i: nat)
    requires i < |accounts|
    ensures AllLookedAt(cfg, accounts, q)[i] == LookedAt(cfg, accounts[i], q)
    decreases |accounts|
  {
    if i < |accounts| - 1 {
      LookedAtEach(cfg, accounts[..|accounts| - 1], q, i);
    }
  }

  class AccountPool {
    const cfg: Config
    var accounts: seq<Account>
    var reservationSeq: nat

    ghost function Value(): Pool
      reads this
    {
      Pool(accounts, reservationSeq)
    }

    constructor (cfg: Config, accounts: seq<Account>)
      ensures this.cfg == cfg && Value() == Pool(accounts, 0)
    {
      this.cfg := cfg;
      this.accounts, reservationSeq := accounts, 0;
    }

    static method PruneRpmHistory(history: seq<int>, now: int) returns (kept: seq<int>)
      ensures kept == Pruned(history, now)
    {
      kept := history;
      var cutoff := Cutoff(now);
      while |kept| > 0 && kept[0] < cutoff
        invariant PrunedAt(kept, cutoff) == PrunedAt(history, cutoff)
        decreases |kept|
      {
        kept := kept[1..];
      }
    }

    method NextReservationToken(now: int) returns (token: int)
      modifies this`reservationSeq
      ensures reservationSeq == (old(reservationSeq) + 1) % TOKENS_PER_MS && token == Token(now, reservationSeq)
    {
      reservationSeq := (reservationSeq + 1) % TOKENS_PER_MS;
      token := now * TOKENS_PER_MS + reservationSeq;
    }

    method AcquireAt(i: nat, now: int, path: Path) returns (lease: Option<Lease>)
      requires i < |accounts|
      modifies this`accounts, this`reservationSeq
      ensures (Value(), lease) == Acquire(old(Value()), i, now, path)
    {
      var a := accounts[i];
      var history := PruneRpmHistory(a.history, now);
      var token := NextReservationToken(now);
      accounts := accounts[i := a.(history := history + [token], lastUsed := now, inflight := a.inflight + 1)];
      return Some(Lease(i, token, path));
    }

    /** The account after its half-open trial, pruned if it is admitted, and then the candidate that it is. */
    method LookAtAccount(account: Account, q: Request, i: nat) returns (a: Account, candidate: seq<Candidate>)
      ensures a == LookedAt(cfg, account, q) && candidate == CandidateOf(cfg, a, q, i)
    {
      LookingKeepsAdmission(cfg, account, q);
      a := Recovered(cfg, account, q.now);
      candidate := [];
      if Admitted(cfg, a, q) {
        var history := PruneRpmHistory(a.history, q.now);
        a := a.(history := history);
        candidate := [Candidate(i, RankOf(a))];
      }
    }

    /** Every account gets its half-open trial; the admitted ones are pruned and become candidates. */
    method CollectCandidates(q: Request) returns (candidates: seq<Candidate>)
      modifies this`accounts
      ensures accounts == AllLookedAt(cfg, old(accounts), q) && candidates == Candidates(cfg, accounts, q)
    {
      ghost var before, looked: seq<Account> := accounts, [];
      candidates := [];
      var i := 0;
      while i < |accounts|
        invariant i <= |accounts| && Collected(cfg, before, i, q, looked, candidates, accounts)
      {
        var more;
        more, looked := CollectNext(i, q, candidates, before, looked);
        candidates, i := candidates + more, i + 1;
      }
      AllCollected(cfg, before, q, looked, candidates, accounts);
    }

    method CollectNext(i: nat, q: Request, candidates: seq<Candidate>, ghost before: seq<Account>, ghost looked: seq<Account>)
      returns (candidate: seq<Candidate>, ghost more: seq<Account>)
      requires i < |accounts| && Collected(cfg, before, i, q, looked, candidates, accounts)
      modifies this`accounts
      ensures |accounts| == |old(accounts)| && Collected(cfg, before, i + 1, q, more, candidates + candidate, accounts)
    {
      var a;
      a, candidate := LookAtAccount(accounts[i], q, i);
      more := looked + [a];
      OneMoreAccount(before, i, looked, a, more);
      OneMoreLooked(cfg, before, i, q, looked, a, more);
      accounts := accounts[i := a];
    }

    /** How many candidates the shard may permute, and which of them the caller gets. */
    method ChooseSlot(sorted: seq<Candidate>, hash: Option<nat>) returns (k: nat)
      requires sorted != []
      ensures k == Slot(sorted, hash, cfg.strictPin)
    {
      if hash.None? || |sorted| <= 1 {
        return 0;
      }
      var span := 1;
      if cfg.strictPin {
        span := |sorted|;
      } else {
        while span < |sorted| && sorted[span].rank == sorted[0].rank
          invariant 1 <= span <= |sorted| && TiedPrefix(sorted, 1) == TiedPrefix(sorted, span)
        {
          span := span + 1;
        }
      }
      if span > 1 {
        return hash.value % span;
      }
      return 0;
    }

    method SelectAccount(q: Request, hash: Option<nat>) returns (lease: Option<Lease>)
      modifies this`accounts, this`reservationSeq
      ensures (Value(), lease) == Select(cfg, old(Value()), q, hash)
    {
      var candidates := CollectCandidates(q);
      if |candidates| == 0 {
        lease := DegradedAcquire(q);
        return;
      }
      var sorted := BestFirst(candidates);
      var bucket := ChooseSlot(sorted, hash);
      SortByHas(candidates, BETTER, sorted[bucket]);
      CandidateExists(cfg, accounts, q, sorted[bucket]);
      var chosen := sorted[bucket];
      sorted := sorted[bucket := sorted[0]][0 := chosen];
      lease := AcquireAt(sorted[0].index, q.now, Selected);
    }

    method DegradedAcquire(q: Request) returns (lease: Option<Lease>)
      modifies this`accounts, this`reservationSeq
      ensures (Value(), lease) == DegradedServe(cfg, old(Value()), q)
    {
      if !cfg.degradedServe {
        return None;
      }
      var best := PickDegradedFallback(q);
      if best.None? {
        return None;
      }
      lease := AcquireAt(best.value, q.now, Degraded);
    }

    /** The cooldown to serve through, or 0 when something else stands in the way. */
    method CooldownToServe(account: Account, q: Request) returns (a: Account, until: int)
      ensures a == DegradedLook(account, q) && until == if Degradable(account, q) then CooledUntil(account, q) else 0
    {
      a := account;
      if !MayDegrade(account, q) {
        return a, 0;
      }
      var history := PruneRpmHistory(account.history, q.now);
      a := account.(history := history);
      if |history| >= RpmLimit(account.tier) || !Entitled(account, q) || SelectorIneligible(account, q.selector, q.now) {
        return a, 0;
      }
      return a, CooledUntil(account, q);
    }

    method PickDegradedFallback(q: Request) returns (best: Option<nat>)
      modifies this`accounts
      ensures accounts == AllDegradedLook(old(accounts), q) && best == LeastCooled(old(accounts), q)
    {
      var before := accounts;
      ghost var looked: seq<Account> := [];
      best := None;
      var bestUntil := 0;
      var i := 0;
      while i < |before|
        invariant i <= |before| && looked == AllDegradedLook(before[..i], q)
        invariant best == LeastCooled(before[..i], q)
        invariant best.Some? ==> bestUntil == CooledUntil(before[best.value], q)
        invariant accounts == looked + before[i..]
      {
        var a, until := CooldownToServe(before[i], q);
        ghost var more := looked + [a];
        OneMoreAccount(before, i, looked, a, more);
        OneMoreDegraded(before, i, q, looked, a, more);
        accounts := accounts[i := a];
        if until != 0 && (best.None? || until < bestUntil) {
          best, bestUntil := Some(i), until;
        }
        looked := more;
        i := i + 1;
      }
      assert before[..i] == before;
    }

    method GetApiKeyCall(q: Request, hash: Option<nat>, bound: Option<string>, pinOnly: bool) returns (lease: Option<Lease>)
      modifies this`accounts, this`reservationSeq
      ensures (Value(), lease) == GetApiKey(cfg, old(Value()), q, hash, bound, pinOnly)
    {
      if bound.Some? {
        var i := FindFirst(accounts, (a: Account) => a.id == bound.value && a.status.Active?, 0);
        if i.Some? && Admitted(cfg, accounts[i.value], q) {
          lease := AcquireAt(i.value, q.now, Sticky);
          return;
        }
        if pinOnly {
          return None;
        }
        if cfg.stickyNoFallback {
          var first := FindFirst(accounts, (a: Account) => a.id == bound.value, 0);
          if first.Some? && accounts[first.value].status.Active? {
            return None;
          }
        }
      }
      if pinOnly {
        return None;
      }
      lease := SelectAccount(q, hash);
    }

    method AcquireAccountByKey(apiKey: string, q: Request) returns (lease: Option<Lease>)
      modifies this`accounts, this`reservationSeq
      ensures (Value(), lease) == AcquireByKey(old(Value()), apiKey, q)
    {
      var i := FindFirst(accounts, (a: Account) => a.apiKey == apiKey, 0);
      if i.None? {
        return None;
      }
      var a := accounts[i.value];
      if !a.status.Active? || InMaintenance(a) || RateLimited(a, q.model, q.now) || RpmLimit(a.tier) <= 0 {
        assert accounts[i.value := a] == accounts;
        return None;
      }
      var history := PruneRpmHistory(a.history, q.now);
      if |history| >= RpmLimit(a.tier) || !Entitled(a, q) || SelectorIneligible(a, q.selector, q.now) {
        accounts := accounts[i.value := a.(history := history)];
        return None;
      }
      lease := AcquireAt(i.value, q.now, ByKey);
    }

    method RefundReservation(apiKey: string, token: int, now: int) returns (refunded: bool)
      modifies this`accounts
      ensures (Value(), refunded) == Refund(old(Value()), apiKey, token, now)
    {
      var i := FindFirst(accounts, (a: Account) => a.apiKey == apiKey, 0);
      if i.None? {
        return false;
      }
      var a := accounts[i.value];
      if a.inflight == 0 {
        assert accounts[i.value := a] == accounts;
        return false;
      }
      var history := PruneRpmHistory(a.history, now);
      var k := LastIndexOf(history, token);
      refunded := k != -1;
      if refunded {
        history := history[..k] + history[k + 1..];
      }
      accounts := accounts[i.value := a.(history := history)];
    }

    method ReleaseAccount(apiKey: string)
      modifies this`accounts
      ensures Value() == Release(old(Value()), apiKey)
    {
      var i := FindFirst(accounts, (a: Account) => a.apiKey == apiKey, 0);
      if apiKey != "" && i.Some? {
        var a := accounts[i.value];
        accounts := accounts[i.value := a.(inflight := if a.inflight > 0 then a.inflight - 1 else 0)];
      }
    }
  }

  lemma OneMoreAccount(before: seq<Account>, i: nat, looked: seq<Account>, a: Account, more: seq<Account>)
    requires i < |before| && |looked| == i && more == looked + [a]
    ensures (looked + before[i..])[i := a] == more + before[i + 1..]
    ensures before[..i + 1][..i] == before[..i]
  {
  }

  /** The first `i` accounts have been looked at, and the others are as they were. */
  ghost predicate Collected(cfg: Config, before: seq<Account>, i: nat, q: Request, looked: seq<Account>, candidates: seq<Candidate>,
                            accounts: seq<Account>)
  {
    && i <= |before| && looked == AllLookedAt(cfg, before[..i], q) && candidates == Candidates(cfg, looked, q)
    && accounts == looked + before[i..]
  }

  lemma {:induction false} AllCollected(cfg: Config, before: seq<Account>, q: Request, looked: seq<Account>, candidates: seq<Candidate>, accounts: seq<Account>)
    requires Collected(cfg, before, |before|, q, looked, candidates, accounts)
    ensures accounts == AllLookedAt(cfg, before, q) && candidates == Candidates(cfg, accounts, q)
  {
    assert before[..|before|] == before && accounts == looked;
  }

  lemma {:induction false} OneMoreLooked(cfg: Config, before: seq<Account>, i: nat, q: Request, looked: seq<Account>, a: Account, more: seq<Account>)
    requires i < |before| && looked == AllLookedAt(cfg, before[..i], q) && a == LookedAt(cfg, before[i], q) && more == looked + [a]
    ensures more == AllLookedAt(cfg, before[..i + 1], q)
    ensures Candidates(cfg, more, q) == Candidates(cfg, looked, q) + CandidateOf(cfg, a, q, i)
  {
    assert before[..i + 1][..i] == before[..i];
    assert more[..i] == looked;
  }

  lemma {:induction false} OneMoreDegraded(before: seq<Account>, i: nat, q: Request, looked: seq<Account>, a: Account, more: seq<Account>)
    requires i < |before| && looked == AllDegradedLook(before[..i], q) && a == DegradedLook(before[i], q) && more == looked + [a]
    ensures more == AllDegradedLook(before[..i + 1], q)
  {
    assert before[..i + 1][..i] == before[..i];
  }
}
