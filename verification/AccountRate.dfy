/** The rolling rate bound: in every window of a minute an account holds at most its limit of reservations that were
    not refunded, whichever path they came by. The log of all reservations is kept beside the pool. */
module AccountRates {
  import opened Prelude
  import opened AccountPools

  /** A reservation: when it was made, and that it was the n-th of the process. */
  datatype Grant = Grant(ms: int, n: nat)

  function TokenOf(g: Grant): int {
    Token(g.ms, g.n % TOKENS_PER_MS)
  }

  function Tokens(log: seq<Grant>): (tokens: seq<int>)
    ensures |tokens| == |log|
  {
    if log == [] then [] else Tokens(log[..|log| - 1]) + [TokenOf(log[|log| - 1])]
  }

  /** How many reservations of the log were made in [lo, hi]. */
  function Count(log: seq<Grant>, lo: int, hi: int): nat {
    if log == [] then 0
    else Count(log[..|log| - 1], lo, hi) + if lo <= log[|log| - 1].ms <= hi then 1 else 0
  }

  /** How many were made in the minute that ends at t. */
  function InMinute(log: seq<Grant>, t: int): nat {
    Count(log, t - RPM_WINDOW_MS, t)
  }

  /** Every window of a minute, wherever it ends. */
  ghost predicate Bounded(log: seq<Grant>, limit: nat) {
    forall t :: InMinute(log, t) <= limit
  }

  /** In the order of time and of numbers, none in the future. */
  ghost predicate Ordered(log: seq<Grant>, clock: int, granted: nat) {
    && (forall i, j :: 0 <= i < j < |log| ==> log[i].ms <= log[j].ms && log[i].n < log[j].n)
    && (forall i :: 0 <= i < |log| ==> log[i].ms <= clock && log[i].n <= granted)
  }

  /** The history is the end of the log, and what it has dropped is too old to count. */
  ghost predicate Tracks(history: seq<int>, log: seq<Grant>, clock: int) {
    && |history| <= |log|
    && history == Tokens(log)[|log| - |history|..]
    && forall i :: 0 <= i < |log| - |history| ==> log[i].ms < clock - RPM_WINDOW_MS
  }

  // ------------------------------------------------------------------
  // Logs
  // ------------------------------------------------------------------

  lemma {:induction false} TokensAt(log: seq<Grant>, i: nat)
    ensures i < |log| ==> Tokens(log)[i] == TokenOf(log[i])
    decreases |log|
  {
    if log != [] {
      TokensAt(log[..|log| - 1], i);
    }
  }

  /** The integer cutoff orders fractional tokens as it orders their times. */
  lemma CutoffSplits(g: Grant, now: int)
    ensures TokenOf(g) < Cutoff(now) <==> g.ms < now - RPM_WINDOW_MS
  {
  }

  /** A double that stands for a token: rounding never takes it below its millisecond, and moves it by less than half
      a thousandth. */
  predicate Rounds(token: real, g: Grant) {
    var exact := g.ms as real + (g.n % TOKENS_PER_MS) as real / 1000.0;
    g.ms as real <= token && exact - 0.0005 < token < exact + 0.0005
  }

  /** Doubles keep what the model's integer tokens keep: the cutoff orders them by their times, and two tokens are the
      same double only if they are the same token. */
  lemma RoundedTokensAgree(token: real, g: Grant, other: real, h: Grant, now: int)
    requires Rounds(token, g) && Rounds(other, h)
    ensures token < (now - RPM_WINDOW_MS) as real <==> TokenOf(g) < Cutoff(now)
    ensures token == other ==> TokenOf(g) == TokenOf(h)
  {
    var x, y := g.ms * TOKENS_PER_MS + g.n % TOKENS_PER_MS, h.ms * TOKENS_PER_MS + h.n % TOKENS_PER_MS;
    assert token - 0.0005 < x as real / 1000.0 < token + 0.0005;
    assert other - 0.0005 < y as real / 1000.0 < other + 0.0005;
    CutoffSplits(g, now);
    assert (g.n % TOKENS_PER_MS) as real <= 999.0;
  }

  lemma {:induction false} CountWithin(log: seq<Grant>, lo: int, hi: int, lo': int, hi': int)
    requires forall i :: 0 <= i < |log| && lo <= log[i].ms <= hi ==> lo' <= log[i].ms <= hi'
    ensures Count(log, lo, hi) <= Count(log, lo', hi')
    decreases |log|
  {
    if log != [] {
      CountWithin(log[..|log| - 1], lo, hi, lo', hi');
    }
  }

  lemma {:induction false} CountSnoc(log: seq<Grant>, g: Grant, lo: int, hi: int)
    ensures Count(log + [g], lo, hi) == Count(log, lo, hi) + if lo <= g.ms <= hi then 1 else 0
  {
    assert (log + [g])[..|log|] == log;
  }

  lemma {:induction false} CountSplit(a: seq<Grant>, b: seq<Grant>, lo: int, hi: int)
    ensures Count(a + b, lo, hi) == Count(a, lo, hi) + Count(b, lo, hi)
    decreases |b|
  {
    if b == [] {
      assert a + b == a;
    } else {
      var init, last := b[..|b| - 1], b[|b| - 1];
      assert a + b == (a + init) + [last];
      CountSnoc(a + init, last, lo, hi);
      CountSplit(a, init, lo, hi);
    }
  }

  /** A reservation made while the count is below the limit keeps every window within it. */
  lemma GrantKeepsBound(log: seq<Grant>, g: Grant, clock: int, granted: nat, limit: nat)
    requires Ordered(log, clock, granted) && clock <= g.ms && Bounded(log, limit)
    requires InMinute(log, g.ms) < limit
    ensures Bounded(log + [g], limit)
  {
    forall t ensures InMinute(log + [g], t) <= limit {
      assert InMinute(log, t) <= limit;
      CountSnoc(log, g, t - RPM_WINDOW_MS, t);
      if t - RPM_WINDOW_MS <= g.ms <= t {
        CountWithin(log, t - RPM_WINDOW_MS, t, g.ms - RPM_WINDOW_MS, g.ms);
      }
    }
  }

  lemma {:induction false} CountWithoutOne(log: seq<Grant>, k: nat, lo: int, hi: int)
    requires k < |log|
    ensures Count(log[..k] + log[k + 1..], lo, hi) <= Count(log, lo, hi)
  {
    var a, b := log[..k], log[k + 1..];
    CountSplit(a, b, lo, hi);
    CountSplit(a, [log[k]] + b, lo, hi);
    CountSplit([log[k]], b, lo, hi);
    assert log == a + ([log[k]] + b);
  }

  lemma RefundKeepsBound(log: seq<Grant>, k: nat, limit: nat)
    requires k < |log| && Bounded(log, limit)
    ensures Bounded(log[..k] + log[k + 1..], limit)
  {
    var rest := log[..k] + log[k + 1..];
    forall t ensures InMinute(rest, t) <= limit {
      assert InMinute(log, t) <= limit;
      CountWithoutOne(log, k, t - RPM_WINDOW_MS, t);
    }
  }

  // ------------------------------------------------------------------
  // The history follows the log
  // ------------------------------------------------------------------

  /** When the first of the history still counts, all of it does. */
  lemma NothingToPrune(history: seq<int>, log: seq<Grant>, granted: nat, now: int, d: nat)
    requires Tracks(history, log, now) && Ordered(log, now, granted) && d == |log| - |history|
    requires history == [] || history[0] >= Cutoff(now)
    ensures |history| == InMinute(log, now)
  {
    var dropped, kept, from := log[..d], log[d..], now - RPM_WINDOW_MS;
    if history != [] {
      TokensAt(log, d);
      CutoffSplits(log[d], now);
    }
    forall i | 0 <= i < |kept| ensures from <= kept[i].ms <= now {
      assert kept[i] == log[d + i];
    }
    assert log == dropped + kept;
    CountSplit(dropped, kept, from, now);
    CountNone(dropped, from, now);
    CountAll(kept, from, now);
  }

  lemma DropOldest(history: seq<int>, log: seq<Grant>, now: int, d: nat)
    requires Tracks(history, log, now) && d == |log| - |history| && history != [] && history[0] < Cutoff(now)
    ensures Tracks(history[1..], log, now)
  {
    TokensAt(log, d);
    CutoffSplits(log[d], now);
    assert history[1..] == Tokens(log)[d + 1..];
  }

  lemma {:induction false} PruningNow(history: seq<int>, log: seq<Grant>, granted: nat, now: int)
    requires Tracks(history, log, now) && Ordered(log, now, granted)
    ensures Tracks(Pruned(history, now), log, now)
    ensures |Pruned(history, now)| == InMinute(log, now)
    decreases |history|
  {
    var d := |log| - |history|;
    if history != [] && history[0] < Cutoff(now) {
      DropOldest(history, log, now, d);
      PruningNow(history[1..], log, granted, now);
    } else {
      NothingToPrune(history, log, granted, now, d);
    }
  }

  /** Pruning drops exactly what is too old; what is left is the count of the window that ends now. */
  lemma PruningTracks(history: seq<int>, log: seq<Grant>, clock: int, granted: nat, now: int)
    requires Tracks(history, log, clock) && Ordered(log, clock, granted) && clock <= now
    ensures Tracks(history, log, now) && Tracks(Pruned(history, now), log, now)
    ensures |Pruned(history, now)| == InMinute(log, now)
  {
    OrderedLater(log, clock, granted, now);
    PruningNow(history, log, granted, now);
  }

  lemma OrderedLater(log: seq<Grant>, clock: int, granted: nat, now: int)
    requires Ordered(log, clock, granted) && clock <= now
    ensures Ordered(log, now, granted)
  {
  }

  lemma {:induction false} CountNone(log: seq<Grant>, lo: int, hi: int)
    requires forall i :: 0 <= i < |log| ==> log[i].ms < lo
    ensures Count(log, lo, hi) == 0
    decreases |log|
  {
    if log != [] {
      CountNone(log[..|log| - 1], lo, hi);
    }
  }

  lemma {:induction false} CountAll(log: seq<Grant>, lo: int, hi: int)
    requires forall i :: 0 <= i < |log| ==> lo <= log[i].ms <= hi
    ensures Count(log, lo, hi) == |log|
    decreases |log|
  {
    if log != [] {
      CountAll(log[..|log| - 1], lo, hi);
    }
  }

  lemma GrantTracks(history: seq<int>, log: seq<Grant>, now: int, g: Grant)
    requires Tracks(history, log, now)
    ensures Tracks(history + [TokenOf(g)], log + [g], now)
  {
    TokensAt(log, 0);
    assert (log + [g])[..|log|] == log;
    assert Tokens(log + [g]) == Tokens(log) + [TokenOf(g)];
  }

  /** The place in the log of the k-th token of the history. */
  function PlaceOf(history: seq<int>, log: seq<Grant>, k: nat): int {
    |log| - |history| + k
  }

  lemma {:induction false} RefundTokens(history: seq<int>, log: seq<Grant>, k: nat, place: nat)
    requires |history| <= |log| && history == Tokens(log)[|log| - |history|..]
    requires k < |history| && place == PlaceOf(history, log, k)
    ensures history[..k] + history[k + 1..] == Tokens(log[..place] + log[place + 1..])[|log| - |history|..]
  {
    var h, l := history[..k] + history[k + 1..], log[..place] + log[place + 1..];
    var d := |log| - |history|;
    TokensAt(log, 0);
    TokensAt(l, 0);
    forall i | 0 <= i < |h| ensures h[i] == Tokens(l)[d + i] {
      var j := if i < k then i else i + 1;
      assert h[i] == history[j] == Tokens(log)[d + j];
      TokensAt(log, d + j);
      TokensAt(l, d + i);
      assert l[d + i] == log[d + j];
    }
  }

  lemma {:induction false} RefundTracks(history: seq<int>, log: seq<Grant>, now: int, k: nat, place: nat)
    requires Tracks(history, log, now) && k < |history| && place == PlaceOf(history, log, k)
    ensures Tracks(history[..k] + history[k + 1..], log[..place] + log[place + 1..], now)
  {
    RefundTokens(history, log, k, place);
    var l := log[..place] + log[place + 1..];
    forall i | 0 <= i < |log| - |history| ensures l[i].ms < now - RPM_WINDOW_MS {
      assert l[i] == log[i];
    }
  }

  lemma RefundOrdered(log: seq<Grant>, clock: int, granted: nat, place: nat)
    requires Ordered(log, clock, granted) && place < |log|
    ensures Ordered(log[..place] + log[place + 1..], clock, granted)
  {
    var l := log[..place] + log[place + 1..];
    forall i | 0 <= i < |l| ensures l[i] == log[if i < place then i else i + 1] {}
  }

  // ------------------------------------------------------------------
  // What acquisitions do to an account
  // ------------------------------------------------------------------

  /** `b` is `a` but for its history and for having come back from an error. */
  predicate SameButHistory(a: Account, b: Account) {
    b == a.(history := b.history, status := b.status, errorCount := b.errorCount)
  }

  /** Nothing, or pruning. */
  predicate Untouched(a: Account, b: Account, now: int) {
    SameButHistory(a, b) && (b.history == a.history || b.history == Pruned(a.history, now))
  }

  /** One reservation, for which there was room, and one more request in flight. */
  predicate Granted(a: Account, b: Account, now: int, token: int) {
    && SameButHistory(a.(lastUsed := now, inflight := a.inflight + 1), b)
    && |Pruned(a.history, now)| < RpmLimit(a.tier) && b.history == Pruned(a.history, now) + [token]
  }

  predicate Effect(p: Pool, r: Pool, lease: Option<Lease>, now: int, i: nat)
    requires i < |p.accounts| && i < |r.accounts|
  {
    if lease.Some? && lease.value.index == i then Granted(p.accounts[i], r.accounts[i], now, lease.value.token)
    else Untouched(p.accounts[i], r.accounts[i], now)
  }

  /** What an acquisition does to the pool, by whichever path it comes. */
  ghost predicate Acquired(p: Pool, r: Pool, lease: Option<Lease>, now: int) {
    && |r.accounts| == |p.accounts|
    && (forall i :: 0 <= i < |p.accounts| ==> Effect(p, r, lease, now, i))
    && (lease.None? ==> r.reservationSeq == p.reservationSeq)
    && (lease.Some? ==> lease.value.index < |p.accounts|
                        && r.reservationSeq == (p.reservationSeq + 1) % TOKENS_PER_MS
                        && lease.value.token == Token(now, r.reservationSeq))
  }

  lemma AcquireEffect(p: Pool, looked: Pool, i: nat, now: int, path: Path)
    requires Acquired(p, looked, None, now) && i < |looked.accounts|
    requires HasHeadroom(looked.accounts[i], now)
    ensures Acquired(p, Acquire(looked, i, now, path).0, Acquire(looked, i, now, path).1, now)
  {
    var (r, lease) := Acquire(looked, i, now, path);
    assert Effect(p, looked, None, now, i);
    PrunedTwice(p.accounts[i].history, Cutoff(now));
    forall k | 0 <= k < |p.accounts| ensures Effect(p, r, lease, now, k) {
      assert Effect(p, looked, None, now, k);
    }
  }

  lemma {:induction false} LookingEffect(cfg: Config, p: Pool, q: Request)
    ensures Acquired(p, p.(accounts := AllLookedAt(cfg, p.accounts, q)), None, q.now)
  {
    forall i | 0 <= i < |p.accounts| ensures AllLookedAt(cfg, p.accounts, q)[i] == LookedAt(cfg, p.accounts[i], q) {
      LookedAtEach(cfg, p.accounts, q, i);
    }
  }

  lemma {:induction false} EachDegradedLook(accounts: seq<Account>, q: Request, i: nat)
    requires i < |accounts|
    ensures AllDegradedLook(accounts, q)[i] == DegradedLook(accounts[i], q)
    decreases |accounts|
  {
    if i < |accounts| - 1 {
      EachDegradedLook(accounts[..|accounts| - 1], q, i);
    }
  }

  /** Looking a second time changes nothing that counts. */
  lemma {:induction false} LookingAgain(p: Pool, looked: Pool, q: Request, again: Pool)
    requires Acquired(p, looked, None, q.now) && again == looked.(accounts := AllDegradedLook(looked.accounts, q))
    ensures Acquired(p, again, None, q.now)
  {
    forall i | 0 <= i < |p.accounts| ensures Effect(p, again, None, q.now, i) {
      assert Effect(p, looked, None, q.now, i);
      EachDegradedLook(looked.accounts, q, i);
      PrunedTwice(p.accounts[i].history, Cutoff(q.now));
    }
  }

  lemma DegradedEffect(cfg: Config, p: Pool, looked: Pool, q: Request)
    requires Acquired(p, looked, None, q.now)
    ensures Acquired(p, DegradedServe(cfg, looked, q).0, DegradedServe(cfg, looked, q).1, q.now)
  {
    if cfg.degradedServe {
      var best := LeastCooled(looked.accounts, q);
      var again := looked.(accounts := AllDegradedLook(looked.accounts, q));
      LookingAgain(p, looked, q, again);
      if best.Some? {
        EachDegradedLook(looked.accounts, q, best.value);
        PrunedTwice(looked.accounts[best.value].history, Cutoff(q.now));
        AcquireEffect(p, again, best.value, q.now, Degraded);
      }
    }
  }

  lemma SelectEffect(cfg: Config, p: Pool, q: Request, hash: Option<nat>)
    ensures Acquired(p, Select(cfg, p, q, hash).0, Select(cfg, p, q, hash).1, q.now)
  {
    var looked := p.(accounts := AllLookedAt(cfg, p.accounts, q));
    LookingEffect(cfg, p, q);
    var cs := Candidates(cfg, looked.accounts, q);
    if cs == [] {
      DegradedEffect(cfg, p, looked, q);
    } else {
      var chosen := Chosen(cs, hash, cfg.strictPin);
      CandidateExists(cfg, looked.accounts, q, chosen);
      AcquireEffect(p, looked, chosen.index, q.now, Selected);
    }
  }

  /** Sticky, selected and degraded acquisitions all reserve only below the limit. */
  lemma GetApiKeyEffect(cfg: Config, p: Pool, q: Request, hash: Option<nat>, bound: Option<string>, pinOnly: bool)
    ensures var (r, lease) := GetApiKey(cfg, p, q, hash, bound, pinOnly); Acquired(p, r, lease, q.now)
  {
    SelectEffect(cfg, p, q, hash);
    assert Acquired(p, p, None, q.now);
    if bound.Some? {
      var i := FindFirst(p.accounts, (a: Account) => a.id == bound.value && a.status.Active?, 0);
      if i.Some? && Admitted(cfg, p.accounts[i.value], q) {
        AcquireEffect(p, p, i.value, q.now, Sticky);
      }
    }
  }

  /** So does an acquisition by key. */
  lemma AcquireByKeyEffect(p: Pool, apiKey: string, q: Request)
    ensures var (r, lease) := AcquireByKey(p, apiKey, q); Acquired(p, r, lease, q.now)
  {
    assert Acquired(p, p, None, q.now);
    var i := FindFirst(p.accounts, (a: Account) => a.apiKey == apiKey, 0);
    if i.Some? && AcquirableByKey(p.accounts[i.value], q) {
      AcquireEffect(p, p, i.value, q.now, ByKey);
    }
  }

  // ------------------------------------------------------------------
  // Runs
  // ------------------------------------------------------------------

  datatype Action =
    | DoGet(cfg: Config, q: Request, hash: Option<nat>, bound: Option<string>, pinOnly: bool)
    | DoByKey(apiKey: string, q: Request)
    | DoRefund(apiKey: string, token: int, now: int)
    | DoOther(accounts: seq<Account>)

  /** `DoOther` stands for whatever else happens to accounts: releases, cooldowns, new keys, status changes. */
  ghost predicate LeavesRates(p: Pool, accounts: seq<Account>) {
    |accounts| == |p.accounts|
    && forall i :: 0 <= i < |accounts| ==> accounts[i].tier == p.accounts[i].tier && accounts[i].history == p.accounts[i].history
  }

  datatype World = World(pool: Pool, logs: seq<seq<Grant>>, granted: nat, clock: int)

  function Log(w: World, pool: Pool, lease: Option<Lease>, now: int): World {
    if lease.None? || lease.value.index >= |w.logs| then World(pool, w.logs, w.granted, now)
    else
      var i := lease.value.index;
      World(pool, w.logs[i := w.logs[i] + [Grant(now, w.granted + 1)]], w.granted + 1, now)
  }

  /** What a refund leaves of the log. */
  function LogAfterRefund(a: Account, log: seq<Grant>, token: int, now: int): seq<Grant> {
    var pruned := Pruned(a.history, now);
    var k := LastIndexOf(pruned, token);
    var place := PlaceOf(pruned, log, Max(0, k));
    if a.inflight > 0 && k >= 0 && 0 <= place < |log| then log[..place] + log[place + 1..] else log
  }

  /** The log loses the entry whose token the history loses. */
  function Unlog(w: World, apiKey: string, token: int, now: int): World {
    var pool := Refund(w.pool, apiKey, token, now).0;
    var i := FindFirst(w.pool.accounts, (a: Account) => a.apiKey == apiKey, 0);
    var logs := if i.Some? && i.value < |w.logs|
                then w.logs[i.value := LogAfterRefund(w.pool.accounts[i.value], w.logs[i.value], token, now)] else w.logs;
    World(pool, logs, w.granted, now)
  }

  function Step(w: World, a: Action): World {
    match a
    case DoGet(cfg, q, hash, bound, pinOnly) =>
      var (pool, lease) := GetApiKey(cfg, w.pool, q, hash, bound, pinOnly);
      Log(w, pool, lease, q.now)
    case DoByKey(apiKey, q) =>
      var (pool, lease) := AcquireByKey(w.pool, apiKey, q);
      Log(w, pool, lease, q.now)
    case DoRefund(apiKey, token, now) => Unlog(w, apiKey, token, now)
    case DoOther(accounts) => w.(pool := w.pool.(accounts := accounts))
  }

  /** The clock does not go back, and nothing else touches tiers or histories. */
  ghost predicate Possible(w: World, a: Action) {
    match a
    case DoGet(_, q, _, _, _) => w.clock <= q.now
    case DoByKey(_, q) => w.clock <= q.now
    case DoRefund(_, _, now) => w.clock <= now
    case DoOther(accounts) => LeavesRates(w.pool, accounts)
  }

  ghost predicate Fine(w: World, i: nat)
    requires i < |w.pool.accounts| && i < |w.logs|
  {
    && Tracks(w.pool.accounts[i].history, w.logs[i], w.clock)
    && Ordered(w.logs[i], w.clock, w.granted)
    && Bounded(w.logs[i], RpmLimit(w.pool.accounts[i].tier))
  }

  ghost predicate Inv(w: World) {
    && |w.logs| == |w.pool.accounts|
    && w.pool.reservationSeq == w.granted % TOKENS_PER_MS
    && forall i :: 0 <= i < |w.logs| ==> Fine(w, i)
  }

  /** One account under an acquisition. */
  lemma AccountKeeps(a: Account, b: Account, log: seq<Grant>, clock: int, granted: nat, now: int)
    requires Tracks(a.history, log, clock) && Ordered(log, clock, granted) && Bounded(log, RpmLimit(a.tier)) && clock <= now
    requires Untouched(a, b, now)
    ensures Tracks(b.history, log, now) && Ordered(log, now, granted) && Bounded(log, RpmLimit(b.tier))
  {
    PruningTracks(a.history, log, clock, granted, now);
  }

  lemma AccountGains(a: Account, b: Account, log: seq<Grant>, clock: int, granted: nat, now: int, g: Grant)
    requires Tracks(a.history, log, clock) && Ordered(log, clock, granted) && Bounded(log, RpmLimit(a.tier)) && clock <= now
    requires Granted(a, b, now, TokenOf(g)) && g == Grant(now, granted + 1)
    ensures Tracks(b.history, log + [g], now) && Ordered(log + [g], now, granted + 1) && Bounded(log + [g], RpmLimit(b.tier))
  {
    PruningTracks(a.history, log, clock, granted, now);
    GrantTracks(Pruned(a.history, now), log, now, g);
    GrantKeepsBound(log, g, clock, granted, RpmLimit(a.tier));
  }

  lemma FineAfterAcquisition(w: World, v: World, lease: Option<Lease>, now: int, i: nat)
    requires |v.logs| == |v.pool.accounts| == |w.logs| == |w.pool.accounts| && i < |w.logs| && Fine(w, i)
    requires w.clock <= now == v.clock && Effect(w.pool, v.pool, lease, now, i)
    requires w.granted <= v.granted
    requires lease.Some? && lease.value.index == i ==>
               v.granted == w.granted + 1 && v.logs[i] == w.logs[i] + [Grant(now, v.granted)]
               && lease.value.token == TokenOf(Grant(now, v.granted))
    requires !(lease.Some? && lease.value.index == i) ==> v.logs[i] == w.logs[i]
    ensures Fine(v, i)
  {
    var a, b, log := w.pool.accounts[i], v.pool.accounts[i], w.logs[i];
    if lease.Some? && lease.value.index == i {
      AccountGains(a, b, log, w.clock, w.granted, now, Grant(now, v.granted));
    } else {
      AccountKeeps(a, b, log, w.clock, w.granted, now);
      assert Ordered(log, now, v.granted);
    }
  }

  lemma AcquisitionKeepsInv(w: World, pool: Pool, lease: Option<Lease>, now: int)
    requires Inv(w) && Acquired(w.pool, pool, lease, now) && w.clock <= now
    ensures Inv(Log(w, pool, lease, now))
  {
    var v := Log(w, pool, lease, now);
    NextSeq(w.granted);
    forall i | 0 <= i < |v.logs| ensures Fine(v, i) {
      assert Fine(w, i) && Effect(w.pool, pool, lease, now, i);
      FineAfterAcquisition(w, v, lease, now, i);
    }
  }

  lemma NextSeq(n: nat)
    ensures (n % TOKENS_PER_MS + 1) % TOKENS_PER_MS == (n + 1) % TOKENS_PER_MS
  {
  }

  lemma LogLoses(history: seq<int>, log: seq<Grant>, clock: int, granted: nat, now: int, limit: nat, pruned: seq<int>, k: nat, place: int)
    requires Tracks(history, log, clock) && Ordered(log, clock, granted) && Bounded(log, limit) && clock <= now
    requires pruned == Pruned(history, now) && k < |pruned| && place == PlaceOf(pruned, log, k)
    ensures 0 <= place < |log|
    ensures Tracks(pruned[..k] + pruned[k + 1..], log[..place] + log[place + 1..], now)
    ensures Ordered(log[..place] + log[place + 1..], now, granted) && Bounded(log[..place] + log[place + 1..], limit)
  {
    PruningTracks(history, log, clock, granted, now);
    OrderedLater(log, clock, granted, now);
    RemovalKeeps(pruned, log, granted, now, k, place, limit);
  }

  lemma AccountLoses(a: Account, log: seq<Grant>, clock: int, granted: nat, token: int, now: int, b: Account, rest: seq<Grant>)
    requires Tracks(a.history, log, clock) && Ordered(log, clock, granted) && Bounded(log, RpmLimit(a.tier)) && clock <= now
    requires b == Refunded(a, token, now).0 && rest == LogAfterRefund(a, log, token, now)
    ensures Tracks(b.history, rest, now) && Ordered(rest, now, granted) && Bounded(rest, RpmLimit(b.tier))
  {
    var pruned := Pruned(a.history, now);
    var k := LastIndexOf(pruned, token);
    var place := PlaceOf(pruned, log, Max(0, k));
    PruningTracks(a.history, log, clock, granted, now);
    OrderedLater(log, clock, granted, now);
    RefundShape(a, log, token, now, pruned, k, place);
    if a.inflight > 0 && k >= 0 {
      LogLoses(a.history, log, clock, granted, now, RpmLimit(a.tier), pruned, k, place);
    }
  }

  /** What a refund changes, by the place of its token. */
  lemma {:induction false} RefundShape(a: Account, log: seq<Grant>, token: int, now: int, pruned: seq<int>, k: int, place: int)
    requires pruned == Pruned(a.history, now) && k == LastIndexOf(pruned, token) && place == PlaceOf(pruned, log, Max(0, k))
    requires |pruned| <= |log|
    ensures Refunded(a, token, now).0.tier == a.tier && (Refunded(a, token, now).1 <==> a.inflight > 0 && k >= 0)
    ensures a.inflight > 0 && k >= 0 ==>
              Refunded(a, token, now).0.history == pruned[..k] + pruned[k + 1..]
              && 0 <= place < |log| && LogAfterRefund(a, log, token, now) == log[..place] + log[place + 1..]
    ensures !(a.inflight > 0 && k >= 0) ==>
              Refunded(a, token, now).0.history in {a.history, pruned} && LogAfterRefund(a, log, token, now) == log
  {
  }

  lemma RemovalKeeps(history: seq<int>, log: seq<Grant>, granted: nat, now: int, k: nat, place: nat, limit: nat)
    requires Tracks(history, log, now) && Ordered(log, now, granted) && Bounded(log, limit)
    requires k < |history| && place == PlaceOf(history, log, k)
    ensures Tracks(history[..k] + history[k + 1..], log[..place] + log[place + 1..], now)
    ensures Ordered(log[..place] + log[place + 1..], now, granted) && Bounded(log[..place] + log[place + 1..], limit)
  {
    RefundTracks(history, log, now, k, place);
    RefundOrdered(log, now, granted, place);
    RefundKeepsBound(log, place, limit);
  }

  /** A refund changes one account and its log at most. */
  ghost predicate RefundAt(w: World, v: World, token: int, now: int, i: nat)
    requires i < |w.logs| && i < |v.logs| && i < |w.pool.accounts| && i < |v.pool.accounts|
  {
    var a, b, log, rest := w.pool.accounts[i], v.pool.accounts[i], w.logs[i], v.logs[i];
    (b == a && rest == log) || (b == Refunded(a, token, now).0 && rest == LogAfterRefund(a, log, token, now))
  }

  lemma UnlogShape(w: World, apiKey: string, token: int, now: int, v: World)
    requires |w.logs| == |w.pool.accounts| && v == Unlog(w, apiKey, token, now)
    ensures |v.logs| == |v.pool.accounts| == |w.logs| && v.clock == now && v.granted == w.granted
    ensures v.pool.reservationSeq == w.pool.reservationSeq
    ensures forall i :: 0 <= i < |w.logs| ==> RefundAt(w, v, token, now, i)
  {
  }

  lemma FineAfterRefund(w: World, v: World, token: int, now: int, i: nat)
    requires |v.logs| == |v.pool.accounts| == |w.logs| == |w.pool.accounts| && i < |w.logs|
    requires Fine(w, i) && w.clock <= now && v.clock == now && v.granted == w.granted && RefundAt(w, v, token, now, i)
    ensures Fine(v, i)
  {
    var a, b, log, rest := w.pool.accounts[i], v.pool.accounts[i], w.logs[i], v.logs[i];
    if b == a && rest == log {
      AccountKeeps(a, b, log, w.clock, w.granted, now);
    } else {
      AccountLoses(a, log, w.clock, w.granted, token, now, b, rest);
    }
  }

  lemma RefundKeepsInv(w: World, apiKey: string, token: int, now: int)
    requires Inv(w) && w.clock <= now
    ensures Inv(Unlog(w, apiKey, token, now))
  {
    var v := Unlog(w, apiKey, token, now);
    UnlogShape(w, apiKey, token, now, v);
    forall i | 0 <= i < |v.logs| ensures Fine(v, i) {
      assert Fine(w, i) && RefundAt(w, v, token, now, i);
      FineAfterRefund(w, v, token, now, i);
    }
  }

  lemma StepKeepsInv(w: World, a: Action)
    requires Inv(w) && Possible(w, a)
    ensures Inv(Step(w, a))
  {
    match a
    case DoGet(cfg, q, hash, bound, pinOnly) =>
      var (pool, lease) := GetApiKey(cfg, w.pool, q, hash, bound, pinOnly);
      GetApiKeyEffect(cfg, w.pool, q, hash, bound, pinOnly);
      AcquisitionKeepsInv(w, pool, lease, q.now);
    case DoByKey(apiKey, q) =>
      var (pool, lease) := AcquireByKey(w.pool, apiKey, q);
      AcquireByKeyEffect(w.pool, apiKey, q);
      AcquisitionKeepsInv(w, pool, lease, q.now);
    case DoRefund(apiKey, token, now) =>
      RefundKeepsInv(w, apiKey, token, now);
    case DoOther(accounts) =>
      var v := Step(w, a);
      forall i | 0 <= i < |v.logs| ensures Fine(v, i) {
        assert Fine(w, i);
      }
  }

  function Run(w: World, run: seq<Action>): World {
    if run == [] then w else Step(Run(w, run[..|run| - 1]), run[|run| - 1])
  }

  ghost predicate PossibleRun(w: World, run: seq<Action>) {
    forall i :: 0 <= i < |run| ==> Possible(Run(w, run[..i]), run[i])
  }

  /** Accounts that have not served yet. */
  ghost predicate Idle(w: World) {
    w.granted == 0 && w.pool.reservationSeq == 0 && |w.logs| == |w.pool.accounts|
    && forall i :: 0 <= i < |w.logs| ==> w.logs[i] == [] && w.pool.accounts[i].history == []
  }

  lemma {:induction false} RunKeepsInv(w: World, run: seq<Action>)
    requires Inv(w) && PossibleRun(w, run)
    ensures Inv(Run(w, run))
    decreases |run|
  {
    if run != [] {
      var init := run[..|run| - 1];
      forall i | 0 <= i < |init| ensures Possible(Run(w, init[..i]), init[i]) {
        assert init[..i] == run[..i];
      }
      RunKeepsInv(w, init);
      StepKeepsInv(Run(w, init), run[|run| - 1]);
    }
  }

  /** Over every run, by all four paths and with refunds, no minute holds more than the limit of an account. */
  lemma {:induction false} EveryMinuteIsBounded(w: World, run: seq<Action>, i: nat, t: int)
    requires Idle(w) && PossibleRun(w, run) && i < |w.logs|
    ensures var v := Run(w, run);
            i < |v.logs| && i < |v.pool.accounts| && InMinute(v.logs[i], t) <= RpmLimit(v.pool.accounts[i].tier)
  {
    forall k | 0 <= k < |w.logs| ensures Fine(w, k) {
      assert w.logs[k] == [];
    }
    RunKeepsInv(w, run);
    RunKeepsLength(w, run);
    var v := Run(w, run);
    assert Fine(v, i);
  }

  lemma StepKeepsLength(w: World, a: Action)
    ensures |Step(w, a).logs| == |w.logs|
  {
  }

  lemma {:induction false} RunKeepsLength(w: World, run: seq<Action>)
    ensures |Run(w, run).logs| == |w.logs|
    decreases |run|
  {
    if run != [] {
      RunKeepsLength(w, run[..|run| - 1]);
      StepKeepsLength(Run(w, run[..|run| - 1]), run[|run| - 1]);
    }
  }

  // ------------------------------------------------------------------
  // A refund removes the reservation it names
  // ------------------------------------------------------------------

  /** Fewer than a thousand reservations of the process apart when they were made in the same millisecond. */
  ghost predicate FewPerMillisecond(log: seq<Grant>) {
    forall i, j :: 0 <= i < j < |log| && log[i].ms == log[j].ms ==> log[j].n - log[i].n < TOKENS_PER_MS
  }

  lemma SameToken(g: Grant, h: Grant)
    requires TokenOf(g) == TokenOf(h)
    ensures g.ms == h.ms && g.n % TOKENS_PER_MS == h.n % TOKENS_PER_MS
  {
  }

  lemma Congruent(m: nat, n: nat)
    requires m <= n < m + TOKENS_PER_MS && m % TOKENS_PER_MS == n % TOKENS_PER_MS
    ensures m == n
  {
  }

  lemma TokensApart(log: seq<Grant>, clock: int, granted: nat, i: nat, j: nat)
    requires Ordered(log, clock, granted) && FewPerMillisecond(log) && i < j < |log|
    ensures TokenOf(log[i]) != TokenOf(log[j])
  {
    if TokenOf(log[i]) == TokenOf(log[j]) {
      SameToken(log[i], log[j]);
      Congruent(log[i].n, log[j].n);
    }
  }

  /** Entry j is the last with its token. */
  ghost predicate LastWithToken(log: seq<Grant>, j: nat)
    requires j < |log|
  {
    forall i :: j < i < |log| ==> TokenOf(log[i]) != TokenOf(log[j])
  }

  lemma RemovalsApart(log: seq<Grant>, clock: int, granted: nat, i: nat, j: nat)
    requires Ordered(log, clock, granted) && i < j < |log|
    ensures log[..i] + log[i + 1..] != log[..j] + log[j + 1..]
  {
    var a, b := log[..i] + log[i + 1..], log[..j] + log[j + 1..];
    assert a[i] == log[i + 1] && b[i] == log[i];
    assert log[i].n < log[i + 1].n;
  }

  lemma {:induction false} FoundPlace(history: seq<int>, log: seq<Grant>, now: int, token: int, k: int)
    requires Tracks(history, log, now) && k == LastIndexOf(history, token)
    ensures k >= 0 ==> TokenOf(log[PlaceOf(history, log, k)]) == token
    ensures forall i :: Max(0, PlaceOf(history, log, Max(0, k)) + (if k < 0 then 0 else 1)) <= i < |log| ==> TokenOf(log[i]) != token
  {
    var d := |log| - |history|;
    if k >= 0 {
      TokensAt(log, d + k);
    }
    forall i | d <= i < |log| && i - d > k ensures TokenOf(log[i]) != token {
      TokensAt(log, i);
      assert history[i - d] == Tokens(log)[i];
    }
  }

  /** The entries that a pruned history keeps are those of the last minute. */
  lemma KeptIff(a: Account, log: seq<Grant>, clock: int, granted: nat, now: int, j: nat)
    requires Tracks(a.history, log, clock) && Ordered(log, clock, granted) && clock <= now && j < |log|
    ensures j >= |log| - |Pruned(a.history, now)| <==> log[j].ms >= now - RPM_WINDOW_MS
  {
    PruningTracks(a.history, log, clock, granted, now);
    FirstIsFresh(a.history, now);
    var d := |log| - |Pruned(a.history, now)|;
    if j >= d {
      TokensAt(log, d);
      CutoffSplits(log[d], now);
    }
  }

  lemma {:induction false} FirstIsFresh(history: seq<int>, now: int)
    ensures Pruned(history, now) != [] ==> Pruned(history, now)[0] >= Cutoff(now)
    decreases |history|
  {
    if history != [] && history[0] < Cutoff(now) {
      FirstIsFresh(history[1..], now);
    }
  }

  /** Naming a reservation by its token removes that one if and only if a request is in flight, the reservation is no
      older than a minute and no later one has the same token. */
  lemma RefundRemovesNamedIff(a: Account, log: seq<Grant>, clock: int, granted: nat, now: int, j: nat, rest: seq<Grant>)
    requires Tracks(a.history, log, clock) && Ordered(log, clock, granted) && clock <= now && j < |log|
    requires rest == LogAfterRefund(a, log, TokenOf(log[j]), now)
    ensures (Refunded(a, TokenOf(log[j]), now).1 && rest == log[..j] + log[j + 1..]) <==>
            (a.inflight > 0 && log[j].ms >= now - RPM_WINDOW_MS && LastWithToken(log, j))
  {
    var token, pruned := TokenOf(log[j]), Pruned(a.history, now);
    var k := LastIndexOf(pruned, token);
    var place := PlaceOf(pruned, log, Max(0, k));
    PruningTracks(a.history, log, clock, granted, now);
    KeptIff(a, log, clock, granted, now, j);
    RefundShape(a, log, token, now, pruned, k, place);
    NamedPlaceIff(pruned, log, clock, granted, now, token, k, place, j);
  }

  lemma {:induction false} NamedPlaceIff(pruned: seq<int>, log: seq<Grant>, clock: int, granted: nat, now: int, token: int, k: int, place: int, j: nat)
    requires Tracks(pruned, log, now) && Ordered(log, clock, granted) && j < |log| && token == TokenOf(log[j])
    requires k == LastIndexOf(pruned, token) && place == PlaceOf(pruned, log, Max(0, k))
    ensures (k >= 0 && 0 <= place < |log| && log[..place] + log[place + 1..] == log[..j] + log[j + 1..]) <==>
            (j >= |log| - |pruned| && LastWithToken(log, j))
  {
    FoundPlace(pruned, log, now, token, k);
    if k >= 0 && j < place {
      RemovalsApart(log, clock, granted, j, place);
    }
  }

  /** With fewer than a thousand reservations in a millisecond, a refund within the minute removes exactly the
      reservation it names. */
  lemma RefundIsExact(a: Account, log: seq<Grant>, clock: int, granted: nat, now: int, j: nat)
    requires Tracks(a.history, log, clock) && Ordered(log, clock, granted) && clock <= now && a.inflight > 0 && j < |log|
    requires FewPerMillisecond(log) && log[j].ms >= now - RPM_WINDOW_MS
    ensures Refunded(a, TokenOf(log[j]), now).1
    ensures LogAfterRefund(a, log, TokenOf(log[j]), now) == log[..j] + log[j + 1..]
  {
    forall i | j < i < |log| ensures TokenOf(log[i]) != TokenOf(log[j]) {
      TokensApart(log, clock, granted, j, i);
    }
    RefundRemovesNamedIff(a, log, clock, granted, now, j, LogAfterRefund(a, log, TokenOf(log[j]), now));
  }
}
