/** The conversation pool: cascades kept for reuse under a fingerprint, with a TTL, a size bound and a
    fair share for every tenant. `Pool` is its value, the functions below are its operations and the class
    `ConversationPool` performs them. */
module ConversationPools {
  import opened Prelude

  datatype Config = Config(max: nat, ttlMs: nat, reuseByCaller: bool)

  const DEFAULTS: Config := Config(500, 30 * 60 * 1000, false)

  /** An empty string and port 0 stand for what is not known. */
  datatype Entry = Entry(
    cascadeId: string, apiKey: string, lsPort: nat, lsGeneration: Option<nat>, callerKey: string, modelKey: string,
    stepOffset: int, generatorOffset: Option<int>, lastAccess: int, ttlHint: Option<int>)

  datatype Slot = Slot(fp: string, e: Entry)

  datatype Stats = Stats(
    hits: int, misses: int, stores: int, aliasWrites: int, evictions: int, expired: int, fallbackHits: int)

  /** `slots` is in insertion order; `latest` points from a caller and a model to a fingerprint. */
  datatype Pool = Pool(slots: seq<Slot>, latest: map<string, string>, stats: Stats)
  {
    function Missed(): Pool {
      this.(stats := stats.(misses := stats.misses + 1))
    }
  }

  const EMPTY: Pool := Pool([], map[], Stats(0, 0, 0, 0, 0, 0, 0))

  // ------------------------------------------------------------------
  // Tenants: the first two segments of a caller key
  // ------------------------------------------------------------------

  /** Where the first colon at or after `i` is, or the length. */
  function Colon(s: string, i: nat): (j: nat)
    requires i <= |s|
    ensures i <= j <= |s|
    decreases |s| - i
  {
    if i == |s| || s[i] == ':' then i else Colon(s, i + 1)
  }

  function TenantOf(callerKey: string): string {
    var i := Colon(callerKey, 0);
    if i == |callerKey| then callerKey else callerKey[..Colon(callerKey, i + 1)]
  }

  function Tenant(s: Slot): string {
    TenantOf(s.e.callerKey)
  }

  // ------------------------------------------------------------------
  // Slots
  // ------------------------------------------------------------------

  function Find(es: seq<Slot>, fp: string): (r: Option<Entry>)
    ensures r.Some? <==> exists s :: s in es && s.fp == fp
    ensures r.Some? ==> Slot(fp, r.value) in es
  {
    if es == [] then None else if es[0].fp == fp then Some(es[0].e) else Find(es[1..], fp)
  }

  function Delete(es: seq<Slot>, fp: string): (out: seq<Slot>)
    ensures forall s :: s in out <==> s in es && s.fp != fp
  {
    if es == [] then [] else if es[0].fp == fp then Delete(es[1..], fp) else [es[0]] + Delete(es[1..], fp)
  }

  /** An existing slot is overwritten where it stands; a new one goes to the end. */
  function Put(es: seq<Slot>, fp: string, e: Entry): seq<Slot> {
    if es == [] then [Slot(fp, e)]
    else if es[0].fp == fp then [Slot(fp, e)] + es[1..]
    else [es[0]] + Put(es[1..], fp, e)
  }

  function PutAll(es: seq<Slot>, fps: seq<string>, e: Entry): seq<Slot>
    decreases |fps|
  {
    if fps == [] then es else Put(PutAll(es, fps[..|fps| - 1], e), fps[|fps| - 1], e)
  }

  function Without(es: seq<Slot>, gone: set<Slot>): seq<Slot> {
    if es == [] then [] else if es[0] in gone then Without(es[1..], gone) else [es[0]] + Without(es[1..], gone)
  }

  // ------------------------------------------------------------------
  // Pruning
  // ------------------------------------------------------------------

  function EffectiveTtl(cfg: Config, e: Entry): int {
    if e.ttlHint.Some? && e.ttlHint.value > 0 then e.ttlHint.value else cfg.ttlMs
  }

  predicate Expired(cfg: Config, e: Entry, now: int) {
    now - e.lastAccess > EffectiveTtl(cfg, e)
  }

  function Lapsed(cfg: Config, es: seq<Slot>, now: int): set<Slot> {
    set s | s in es && Expired(cfg, s.e, now)
  }

  function Live(cfg: Config, es: seq<Slot>, now: int): seq<Slot> {
    Without(es, Lapsed(cfg, es, now))
  }

  const EARLIER: (Slot, Slot) -> bool := (a: Slot, b: Slot) => a.e.lastAccess < b.e.lastAccess

  /** The stable sort by last access. */
  function ByAccess(es: seq<Slot>): seq<Slot> {
    SortBy(es, EARLIER)
  }

  function Held(counts: map<string, int>, tenant: string): int {
    if tenant in counts then counts[tenant] else 0
  }

  /** How many slots each tenant has. */
  function Shares(es: seq<Slot>): (counts: map<string, int>)
    ensures es != [] ==> |counts| > 0
  {
    if es == [] then map[]
    else
      var last := |es| - 1;
      var counts := Shares(es[..last]);
      counts[Tenant(es[last]) := Held(counts, Tenant(es[last])) + 1]
  }

  function FairShare(max: nat, tenants: nat): int
    requires tenants > 0
  {
    Max(1, max / tenants)
  }

  /** The first `excess` slots whose tenant is above its fair share when its turn comes. */
  function OverShare(todo: seq<Slot>, counts: map<string, int>, fair: int, excess: int): set<Slot>
    decreases |todo|
  {
    if todo == [] || excess <= 0 then {}
    else
      var t := Tenant(todo[0]);
      if Held(counts, t) <= fair then OverShare(todo[1..], counts, fair, excess)
      else {todo[0]} + OverShare(todo[1..], counts[t := Held(counts, t) - 1], fair, excess - 1)
  }

  /** The first `excess` slots of `tenant` that are not already gone. */
  function OfTenant(todo: seq<Slot>, gone: set<Slot>, tenant: string, excess: int): set<Slot>
    decreases |todo|
  {
    if todo == [] || excess <= 0 then {}
    else if Tenant(todo[0]) != tenant || todo[0] in gone then OfTenant(todo[1..], gone, tenant, excess)
    else {todo[0]} + OfTenant(todo[1..], gone, tenant, excess - 1)
  }

  /** The share of each of the tenants that have live slots. */
  function ShareOf(max: nat, live: seq<Slot>): int
    requires live != []
  {
    FairShare(max, |Shares(ByAccess(live))|)
  }

  function FirstPass(max: nat, live: seq<Slot>): set<Slot>
    requires live != []
  {
    var todo := ByAccess(live);
    OverShare(todo, Shares(todo), ShareOf(max, live), |live| - max)
  }

  /** What goes when the live slots are more than the pool may hold. */
  function Squeezed(max: nat, live: seq<Slot>, admitting: Option<string>): set<Slot> {
    if |live| <= max then {}
    else
      var first := FirstPass(max, live);
      first + SecondPass(max, live, first, admitting)
  }

  /** What the first pass leaves too many goes at the cost of the admitting tenant. */
  function SecondPass(max: nat, live: seq<Slot>, first: set<Slot>, admitting: Option<string>): set<Slot> {
    var kept := |Without(live, first)|;
    if kept > max && admitting.Some? then OfTenant(ByAccess(live), first, admitting.value, kept - max) else {}
  }

  /** Drop what points to no slot. */
  function Indexed(cfg: Config, latest: map<string, string>, es: seq<Slot>): map<string, string> {
    if cfg.reuseByCaller then map ck | ck in latest && Find(es, latest[ck]).Some? :: latest[ck] else latest
  }

  function Prune(cfg: Config, p: Pool, now: int, admitting: Option<string>): Pool {
    var live := Live(cfg, p.slots, now);
    var kept := Without(live, Squeezed(cfg.max, live, admitting));
    Pool(kept, Indexed(cfg, p.latest, kept),
         p.stats.(expired := p.stats.expired + (|p.slots| - |live|), evictions := p.stats.evictions + (|live| - |kept|)))
  }

  // ------------------------------------------------------------------
  // Checking in and out
  // ------------------------------------------------------------------

  /** The TTL hint of a check-in: none given, one that clears, or a number of milliseconds. */
  datatype Hint = Keep | Clear | Use(ms: int)

  function Resolved(hint: Hint, e: Entry): Option<int> {
    var ms := match hint case Keep => e.ttlHint case Clear => None case Use(n) => Some(n);
    if ms.Some? && ms.value > 0 then ms else None
  }

  function Or(a: string, b: string): string {
    if a != "" then a else b
  }

  function Named(fps: seq<string>): seq<string> {
    if fps == [] then [] else (if fps[0] == "" then [] else [fps[0]]) + Named(fps[1..])
  }

  function IndexKey(caller: string, model: string): string {
    caller + "\0" + model
  }

  function Stored(e: Entry, callerKey: string, hint: Hint, now: int): Entry {
    e.(callerKey := Or(callerKey, e.callerKey), lastAccess := now, ttlHint := Resolved(hint, e))
  }

  /** The check-in before it prunes. */
  function Indexing(cfg: Config, p: Pool, fps: seq<string>, e: Entry, callerKey: string, hint: Hint, now: int): Pool
    requires fps != []
  {
    var caller := Or(callerKey, e.callerKey);
    Pool(PutAll(p.slots, fps, Stored(e, callerKey, hint, now)),
         if cfg.reuseByCaller && caller != "" then p.latest[IndexKey(caller, e.modelKey) := fps[0]] else p.latest,
         p.stats.(stores := p.stats.stores + 1, aliasWrites := p.stats.aliasWrites + (|fps| - 1)))
  }

  function Checkin(cfg: Config, p: Pool, fingerprints: seq<string>, e: Entry, callerKey: string, hint: Hint, now: int): Pool {
    var fps := Named(fingerprints);
    if fps == [] then p
    else Prune(cfg, Indexing(cfg, p, fps, e, callerKey, hint, now), now, Some(TenantOf(Or(callerKey, e.callerKey))))
  }

  datatype Owner = Owner(apiKey: string, lsPort: nat, lsGeneration: Option<nat>)

  predicate OwnedBy(e: Entry, expected: Option<Owner>) {
    expected.None?
    || (var o := expected.value;
        && !(o.apiKey != "" && e.apiKey != "" && o.apiKey != e.apiKey)
        && !(o.lsPort != 0 && e.lsPort != 0 && o.lsPort != e.lsPort)
        && !(o.lsGeneration.Some? && e.lsGeneration.Some? && o.lsGeneration != e.lsGeneration))
  }

  predicate ForCaller(e: Entry, callerKey: string) {
    e.callerKey == "" || callerKey == "" || e.callerKey == callerKey
  }

  /** Remove the slot of `fp`, for the outcome counted by `stats`. */
  function Taken(p: Pool, fp: string, stats: Stats): Pool {
    p.(slots := Delete(p.slots, fp), stats := stats)
  }

  function Unindexed(latest: map<string, string>, fp: string): map<string, string> {
    map ck | ck in latest && latest[ck] != fp :: latest[ck]
  }

  function Hand(cfg: Config, p: Pool, fp: string, e: Entry): (Pool, Option<Entry>) {
    var q := Taken(p, fp, p.stats.(hits := p.stats.hits + 1));
    (if cfg.reuseByCaller && e.callerKey != "" then q.(latest := Unindexed(p.latest, fp)) else q, Some(e))
  }

  function Fallback(cfg: Config, p: Pool, callerKey: string, expected: Option<Owner>, modelKey: string, now: int): (Pool, Option<Entry>) {
    var ck := IndexKey(callerKey, modelKey);
    if ck !in p.latest then (p, None)
    else
      var fp := p.latest[ck];
      var found := Find(p.slots, fp);
      if found.None? then (p.(latest := p.latest - {ck}), None)
      else
        var e := found.value;
        if !ForCaller(e, callerKey) then (p, None)
        else if Expired(cfg, e, now) then
          (Taken(p, fp, p.stats.(expired := p.stats.expired + 1)).(latest := p.latest - {ck}), None)
        else if !OwnedBy(e, expected) then (p, None)
        else
          (Taken(p, fp, p.stats.(hits := p.stats.hits + 1, fallbackHits := p.stats.fallbackHits + 1)).(latest := p.latest - {ck}),
           Some(e))
  }

  function Missing(cfg: Config, p: Pool, callerKey: string, expected: Option<Owner>, modelKey: string, now: int): (Pool, Option<Entry>) {
    var (q, e) := if cfg.reuseByCaller && callerKey != "" && modelKey != ""
                  then Fallback(cfg, p, callerKey, expected, modelKey, now) else (p, None);
    if e.Some? then (q, e) else (q.Missed(), None)
  }

  /** An empty fingerprint stands for none. */
  function Checkout(cfg: Config, p: Pool, fp: string, callerKey: string, expected: Option<Owner>, modelKey: string, now: int)
    : (Pool, Option<Entry>)
  {
    var found := if fp == "" then None else Find(p.slots, fp);
    if found.None? then Missing(cfg, p, callerKey, expected, modelKey, now)
    else
      var e := found.value;
      if !ForCaller(e, callerKey) then (p.Missed(), None)
      else if Expired(cfg, e, now) then
        (Taken(p, fp, p.stats.(expired := p.stats.expired + 1)).Missed(), None)
      else if !OwnedBy(e, expected) then (p.Missed(), None)
      else Hand(cfg, p, fp, e)
  }

  // ------------------------------------------------------------------
  // Invalidation
  // ------------------------------------------------------------------

  /** What went away: an account, a language server, or one generation of it. */
  predicate Hit(e: Entry, o: Owner) {
    || (o.apiKey != "" && e.apiKey == o.apiKey)
    || (o.lsPort != 0 && e.lsPort == o.lsPort
        && (o.lsGeneration.None? || e.lsGeneration.None? || e.lsGeneration == o.lsGeneration))
  }

  /** The cascades that some slot ties to what went away. */
  function DeadCascades(es: seq<Slot>, o: Owner): set<string> {
    set s | s in es && Hit(s.e, o) && s.e.cascadeId != "" :: s.e.cascadeId
  }

  function Doomed(es: seq<Slot>, o: Owner): set<Slot> {
    set s | s in es && (Hit(s.e, o) || s.e.cascadeId in DeadCascades(es, o))
  }

  function InvalidateFor(cfg: Config, p: Pool, o: Owner): (Pool, int) {
    var kept := Without(p.slots, Doomed(p.slots, o));
    var dropped := |p.slots| - |kept|;
    (p.(slots := kept, latest := if dropped > 0 then Indexed(cfg, p.latest, kept) else p.latest), dropped)
  }

  // ------------------------------------------------------------------
  // Facts the class and the theorems share
  // ------------------------------------------------------------------

  /** No two slots have the same fingerprint. */
  predicate Distinct(es: seq<Slot>) {
    es == [] || (es[0].fp !in Fps(es[1..]) && Distinct(es[1..]))
  }

  function Fps(es: seq<Slot>): set<string> {
    set s | s in es :: s.fp
  }

  function Elems(es: seq<Slot>): set<Slot> {
    set s | s in es
  }

  lemma {:induction false} DistinctTail(es: seq<Slot>, s: Slot)
    requires Distinct(es) && es != [] && s in es[1..]
    ensures s.fp != es[0].fp
  {
  }

  lemma {:induction false} FindFinds(es: seq<Slot>, s: Slot)
    requires Distinct(es) && s in es
    ensures Find(es, s.fp) == Some(s.e)
    decreases |es|
  {
    if s != es[0] {
      DistinctTail(es, s);
      FindFinds(es[1..], s);
    }
  }

  lemma {:induction false} WithoutHas(es: seq<Slot>, gone: set<Slot>, s: Slot)
    ensures s in Without(es, gone) <==> s in es && s !in gone
    decreases |es|
  {
    if es != [] {
      assert s in es <==> s == es[0] || s in es[1..];
      WithoutHas(es[1..], gone, s);
      var rest := Without(es[1..], gone);
      assert s in [es[0]] + rest <==> s == es[0] || s in rest;
    }
  }

  lemma {:induction false} WithoutAll(es: seq<Slot>, gone: set<Slot>)
    requires forall s :: s in gone ==> s !in es
    ensures Without(es, gone) == es
    decreases |es|
  {
    if es != [] {
      WithoutAll(es[1..], gone);
    }
  }

  lemma {:induction false} DistinctCons(x: Slot, es: seq<Slot>)
    ensures Distinct([x] + es) <==> x.fp !in Fps(es) && Distinct(es)
  {
    assert ([x] + es)[1..] == es;
  }

  lemma {:induction false} WithoutKeepsDistinct(es: seq<Slot>, gone: set<Slot>)
    requires Distinct(es)
    ensures Distinct(Without(es, gone))
    decreases |es|
  {
    if es != [] {
      WithoutKeepsDistinct(es[1..], gone);
      var rest := Without(es[1..], gone);
      DistinctCons(es[0], rest);
      forall s | s in rest ensures s in es[1..] {
        WithoutHas(es[1..], gone, s);
      }
    }
  }

  /** Deleting by key takes out exactly the slot. */
  lemma {:induction false} DeleteOne(es: seq<Slot>, gone: set<Slot>, s: Slot)
    requires Distinct(es) && s in es && s !in gone
    ensures Delete(Without(es, gone), s.fp) == Without(es, gone + {s})
    ensures |Delete(Without(es, gone), s.fp)| == |Without(es, gone)| - 1
    decreases |es|
  {
    var rest, both := Without(es[1..], gone), gone + {s};
    forall x | x in rest ensures x in es[1..] {
      WithoutHas(es[1..], gone, x);
    }
    if s == es[0] {
      DeleteNone(rest, s.fp);
      WithoutSame(es[1..], gone, both);
      DeleteCons(s, rest, s.fp);
    } else {
      DistinctTail(es, s);
      DeleteOne(es[1..], gone, s);
      if es[0] !in gone {
        DeleteCons(es[0], rest, s.fp);
      }
    }
  }

  lemma {:induction false} DeleteCons(x: Slot, es: seq<Slot>, fp: string)
    ensures Delete([x] + es, fp) == if x.fp == fp then Delete(es, fp) else [x] + Delete(es, fp)
  {
    assert ([x] + es)[1..] == es;
  }

  lemma {:induction false} DeleteKeepsDistinct(es: seq<Slot>, fp: string)
    requires Distinct(es)
    ensures Distinct(Delete(es, fp))
    decreases |es|
  {
    if es != [] {
      DeleteKeepsDistinct(es[1..], fp);
      DistinctCons(es[0], Delete(es[1..], fp));
    }
  }

  lemma {:induction false} PutHas(es: seq<Slot>, fp: string, e: Entry, s: Slot)
    requires Distinct(es)
    ensures s in Put(es, fp, e) <==> s == Slot(fp, e) || (s in es && s.fp != fp)
    decreases |es|
  {
    if es != [] {
      var rest := Put(es[1..], fp, e);
      PutHas(es[1..], fp, e, s);
      assert s in es <==> s == es[0] || s in es[1..];
      assert s in [es[0]] + rest <==> s == es[0] || s in rest;
      assert s in [Slot(fp, e)] + es[1..] <==> s == Slot(fp, e) || s in es[1..];
      if s in es[1..] {
        DistinctTail(es, s);
      }
    }
  }

  lemma {:induction false} PutKeepsDistinct(es: seq<Slot>, fp: string, e: Entry)
    requires Distinct(es)
    ensures Distinct(Put(es, fp, e))
    decreases |es|
  {
    if es == [] {
    } else if es[0].fp == fp {
      DistinctCons(Slot(fp, e), es[1..]);
    } else {
      PutKeepsDistinct(es[1..], fp, e);
      forall s | s in Put(es[1..], fp, e) ensures s.fp != es[0].fp {
        PutHas(es[1..], fp, e, s);
      }
      DistinctCons(es[0], Put(es[1..], fp, e));
    }
  }

  lemma {:induction false} DeleteNone(es: seq<Slot>, fp: string)
    requires fp !in Fps(es)
    ensures Delete(es, fp) == es
    decreases |es|
  {
    if es != [] {
      assert es[0] in es && (forall s :: s in es[1..] ==> s in es);
      DeleteNone(es[1..], fp);
    }
  }

  lemma {:induction false} WithoutSame(es: seq<Slot>, a: set<Slot>, b: set<Slot>)
    requires forall s :: s in es ==> (s in a <==> s in b)
    ensures Without(es, a) == Without(es, b)
    decreases |es|
  {
    if es != [] {
      WithoutSame(es[1..], a, b);
    }
  }

  lemma {:induction false} InsertKeepsDistinct(x: Slot, es: seq<Slot>)
    requires x.fp !in Fps(es) && Distinct(es)
    ensures Distinct(InsertBy(x, es, EARLIER))
    decreases |es|
  {
    DistinctCons(x, es);
    if es != [] && EARLIER(es[0], x) {
      var rest := InsertBy(x, es[1..], EARLIER);
      assert es[0] in es && forall s :: s in es[1..] ==> s in es;
      InsertKeepsDistinct(x, es[1..]);
      DistinctCons(es[0], rest);
      forall s | s in rest ensures s == x || s in es[1..] {
        InsertByHas(x, es[1..], EARLIER, s);
      }
    }
  }

  lemma {:induction false} ByAccessKeepsDistinct(es: seq<Slot>)
    requires Distinct(es)
    ensures Distinct(ByAccess(es))
    decreases |es|
  {
    if es != [] {
      ByAccessKeepsDistinct(es[1..]);
      forall s | s in ByAccess(es[1..]) ensures s in es[1..] {
        SortByHas(es[1..], EARLIER, s);
      }
      InsertKeepsDistinct(es[0], ByAccess(es[1..]));
    }
  }

  lemma LapsedSnoc(cfg: Config, es: seq<Slot>, i: nat, now: int)
    requires i < |es|
    ensures Lapsed(cfg, es[..i + 1], now) == Lapsed(cfg, es[..i], now) + if Expired(cfg, es[i].e, now) then {es[i]} else {}
  {
    assert es[..i + 1] == es[..i] + [es[i]];
  }

  lemma {:induction false} DistinctPrefix(es: seq<Slot>, i: nat)
    requires Distinct(es) && i < |es|
    ensures es[i] !in es[..i]
    decreases i
  {
    if i > 0 {
      DistinctPrefix(es[1..], i - 1);
      assert es[..i] == [es[0]] + es[1..][..i - 1];
      DistinctTail(es, es[i]);
    }
  }

  lemma OnceMore(before: set<Slot>, gone: set<Slot>, out: set<Slot>, seen: set<Slot>, s: Slot)
    requires out == before + gone && gone <= seen && s !in seen
    ensures (s in out <==> s in before) && out + {s} == before + (gone + {s}) && gone + {s} <= seen + {s}
  {
  }

  lemma {:induction false} OneMoreDoomed(es: seq<Slot>, i: nat, s: Slot, doomed: set<Slot>)
    requires Distinct(es) && i < |es| && s == es[i]
    ensures s in es && s !in doomed * Elems(es[..i])
    ensures doomed * Elems(es[..i + 1]) == doomed * Elems(es[..i]) + if s in doomed then {s} else {}
  {
    TailStep(es, i, s);
  }

  lemma OverShareStep(todo: seq<Slot>, s: Slot, rest: seq<Slot>, counts: map<string, int>, fair: int, excess: int)
    requires todo == [s] + rest && excess > 0
    ensures OverShare(todo, counts, fair, excess)
         == if Held(counts, Tenant(s)) <= fair then OverShare(rest, counts, fair, excess)
            else {s} + OverShare(rest, counts[Tenant(s) := Held(counts, Tenant(s)) - 1], fair, excess - 1)
  {
    assert todo[1..] == rest;
  }

  lemma OfTenantStep(todo: seq<Slot>, s: Slot, rest: seq<Slot>, gone: set<Slot>, tenant: string, excess: int)
    requires todo == [s] + rest && excess > 0
    ensures OfTenant(todo, gone, tenant, excess)
         == if Tenant(s) != tenant || s in gone then OfTenant(rest, gone, tenant, excess)
            else {s} + OfTenant(rest, gone, tenant, excess - 1)
  {
    assert todo[1..] == rest;
  }

  lemma {:induction false} TailStep(es: seq<Slot>, i: nat, s: Slot)
    requires Distinct(es) && i < |es| && s == es[i]
    ensures es[i..] == [s] + es[i + 1..]
    ensures Elems(es[..i + 1]) == Elems(es[..i]) + {s} && s !in Elems(es[..i])
  {
    DistinctPrefix(es, i);
  }

  // ------------------------------------------------------------------
  // The object
  // ------------------------------------------------------------------

  class ConversationPool {
    const cfg: Config
    var slots: seq<Slot>
    var latest: map<string, string>
    var stats: Stats

    ghost function Value(): Pool
      reads this
    {
      Pool(slots, latest, stats)
    }

    ghost predicate Valid()
      reads this
    {
      Distinct(slots)
    }

    constructor (cfg: Config := DEFAULTS)
      ensures this.cfg == cfg && Valid() && Value() == EMPTY
    {
      this.cfg := cfg;
      slots, latest, stats := [], map[], EMPTY.stats;
    }

    /** Delete one of the slots that are left of `all`. */
    method Drop(s: Slot, ghost all: seq<Slot>, ghost gone: set<Slot>)
      requires Distinct(all) && slots == Without(all, gone) && s in all && s !in gone
      modifies this`slots
      ensures slots == Without(all, gone + {s}) && |slots| == old(|slots|) - 1
    {
      DeleteOne(all, gone, s);
      slots := Delete(slots, s.fp);
    }

    method EvictSlot(s: Slot, ghost all: seq<Slot>, ghost gone: set<Slot>)
      requires Distinct(all) && slots == Without(all, gone) && s in all && s !in gone
      modifies this`slots, this`stats
      ensures slots == Without(all, gone + {s}) && |slots| == old(|slots|) - 1
      ensures stats == old(stats).(evictions := old(stats.evictions) + 1)
    {
      Drop(s, all, gone);
      stats := stats.(evictions := stats.evictions + 1);
    }

    method ExpireSlots(now: int)
      requires Valid()
      modifies this`slots, this`stats
      ensures slots == Live(cfg, old(slots), now)
      ensures stats == old(stats).(expired := old(stats.expired) + (|old(slots)| - |slots|))
    {
      var all := slots;
      ghost var gone: set<Slot> := {};
      WithoutAll(all, {});
      var i := 0;
      while i < |all|
        invariant i <= |all|
        invariant gone == Lapsed(cfg, all[..i], now)
        invariant slots == Without(all, gone)
        invariant stats == old(stats).(expired := old(stats.expired) + (|all| - |slots|))
      {
        var s := all[i];
        LapsedSnoc(cfg, all, i, now);
        if Expired(cfg, s.e, now) {
          DistinctPrefix(all, i);
          Drop(s, all, gone);
          gone := gone + {s};
          stats := stats.(expired := stats.expired + 1);
        }
        i := i + 1;
      }
      assert all[..i] == all;
    }

    static method CountShares(es: seq<Slot>) returns (counts: map<string, int>)
      ensures counts == Shares(es)
    {
      counts := map[];
      var i := 0;
      while i < |es|
        invariant i <= |es|
        invariant counts == Shares(es[..i])
      {
        assert es[..i + 1][..i] == es[..i];
        counts := counts[Tenant(es[i]) := Held(counts, Tenant(es[i])) + 1];
        i := i + 1;
      }
      assert es[..i] == es;
    }

    /** The first pass: least recently used first, from tenants above their share. */
    method SqueezeOverShare(todo: seq<Slot>, fairShare: int, shares: map<string, int>, ghost all: seq<Slot>, ghost excess: int)
      returns (ghost gone: set<Slot>)
      requires slots == all && Distinct(all) && todo == ByAccess(all) && excess == |all| - cfg.max
      modifies this`slots, this`stats
      ensures gone == OverShare(todo, shares, fairShare, excess)
      ensures slots == Without(all, gone)
      ensures stats == old(stats).(evictions := old(stats.evictions) + (|all| - |slots|))
    {
      var counts := shares;
      gone := {};
      ghost var left, rest := excess, todo;
      WithoutAll(all, {});
      ByAccessKeepsDistinct(all);
      var i := 0;
      while i < |todo|
        invariant i <= |todo| && rest == todo[i..] && left == |slots| - cfg.max
        invariant OverShare(todo, shares, fairShare, excess) == gone + OverShare(rest, counts, fairShare, left)
        invariant gone <= Elems(todo[..i])
        invariant slots == Without(all, gone)
        invariant stats == old(stats).(evictions := old(stats.evictions) + (|all| - |slots|))
      {
        if |slots| <= cfg.max {
          break;
        }
        var s := todo[i];
        TailStep(todo, i, s);
        SortByHas(all, EARLIER, s);
        rest := todo[i + 1..];
        counts, gone, left := WeighSlot(s, fairShare, counts, all, gone, rest, left);
        i := i + 1;
      }
    }

    /** Evict one slot if its tenant is above its share. */
    method WeighSlot(s: Slot, fairShare: int, counts: map<string, int>, ghost all: seq<Slot>, ghost gone: set<Slot>, ghost rest: seq<Slot>,
                     ghost left: int)
      returns (counts': map<string, int>, ghost gone': set<Slot>, ghost left': int)
      requires Distinct(all) && slots == Without(all, gone) && s in all && s !in gone && left == |slots| - cfg.max > 0
      modifies this`slots, this`stats
      ensures gone + OverShare([s] + rest, counts, fairShare, left) == gone' + OverShare(rest, counts', fairShare, left')
      ensures slots == Without(all, gone') && left' == |slots| - cfg.max && gone' <= gone + {s}
      ensures stats == old(stats).(evictions := old(stats.evictions) + (|old(slots)| - |slots|))
    {
      OverShareStep([s] + rest, s, rest, counts, fairShare, left);
      counts', gone', left' := counts, gone, left;
      var t := Tenant(s);
      if Held(counts, t) > fairShare {
        EvictSlot(s, all, gone);
        counts', gone', left' := counts[t := Held(counts, t) - 1], gone + {s}, left - 1;
      }
    }

    /** The second pass: the admitting tenant pays when there are more tenants than slots. */
    method SqueezeTenant(todo: seq<Slot>, tenant: string, ghost all: seq<Slot>, ghost before: set<Slot>, ghost excess: int)
      returns (ghost gone: set<Slot>)
      requires slots == Without(all, before) && Distinct(all) && todo == ByAccess(all) && excess == |slots| - cfg.max
      modifies this`slots, this`stats
      ensures gone == OfTenant(todo, before, tenant, excess)
      ensures slots == Without(all, before + gone)
      ensures stats == old(stats).(evictions := old(stats.evictions) + (|old(slots)| - |slots|))
    {
      gone := {};
      ghost var left, rest, out := excess, todo, before;
      ByAccessKeepsDistinct(all);
      var i := 0;
      while i < |todo|
        invariant i <= |todo| && rest == todo[i..] && left == |slots| - cfg.max && out == before + gone
        invariant OfTenant(todo, before, tenant, excess) == gone + OfTenant(rest, before, tenant, left)
        invariant gone <= Elems(todo[..i])
        invariant slots == Without(all, out)
        invariant stats == old(stats).(evictions := old(stats.evictions) + (|old(slots)| - |slots|))
      {
        if |slots| <= cfg.max {
          break;
        }
        var s := todo[i];
        TailStep(todo, i, s);
        SortByHas(all, EARLIER, s);
        rest := todo[i + 1..];
        OnceMore(before, gone, out, Elems(todo[..i]), s);
        gone, left := ChargeSlot(s, tenant, all, before, gone, out, rest, left);
        out := before + gone;
        i := i + 1;
      }
    }

    /** Evict one slot if it is the tenant's and still there. */
    method ChargeSlot(s: Slot, tenant: string, ghost all: seq<Slot>, ghost before: set<Slot>, ghost gone: set<Slot>, ghost out: set<Slot>,
                      ghost rest: seq<Slot>, ghost left: int)
      returns (ghost gone': set<Slot>, ghost left': int)
      requires Distinct(all) && slots == Without(all, out) && s in all && left == |slots| - cfg.max > 0
      requires out == before + gone && (s in out <==> s in before) && out + {s} == before + (gone + {s})
      modifies this`slots, this`stats
      ensures gone + OfTenant([s] + rest, before, tenant, left) == gone' + OfTenant(rest, before, tenant, left')
      ensures slots == Without(all, before + gone') && left' == |slots| - cfg.max && gone' <= gone + {s}
      ensures stats == old(stats).(evictions := old(stats.evictions) + (|old(slots)| - |slots|))
    {
      OfTenantStep([s] + rest, s, rest, before, tenant, left);
      WithoutHas(all, out, s);
      gone', left' := gone, left;
      if Tenant(s) == tenant && s in slots {
        EvictSlot(s, all, out);
        gone', left' := gone + {s}, left - 1;
      }
    }

    method PruneCallerIndex()
      modifies this`latest
      ensures latest == Indexed(cfg, old(latest), slots)
    {
      if cfg.reuseByCaller {
        latest := map ck | ck in latest && Find(slots, latest[ck]).Some? :: latest[ck];
      }
    }

    method PruneSlots(now: int, admitting: Option<string>)
      requires Valid()
      modifies this`slots, this`latest, this`stats
      ensures Valid() && Value() == Prune(cfg, old(Value()), now, admitting)
    {
      ExpireSlots(now);
      ghost var live := slots;
      WithoutKeepsDistinct(old(slots), Lapsed(cfg, old(slots), now));
      ghost var gone := MakeFit(admitting);
      WithoutKeepsDistinct(live, gone);
      PruneCallerIndex();
    }

    method MakeFit(admitting: Option<string>) returns (ghost gone: set<Slot>)
      requires Valid()
      modifies this`slots, this`stats
      ensures gone == Squeezed(cfg.max, old(slots), admitting)
      ensures slots == Without(old(slots), gone)
      ensures stats == old(stats).(evictions := old(stats.evictions) + (|old(slots)| - |slots|))
    {
      gone := {};
      WithoutAll(slots, {});
      if |slots| > cfg.max {
        ghost var all := slots;
        var todo := ByAccess(slots);
        ghost var first := RunFirstPass(todo);
        ghost var more := RunSecondPass(todo, admitting, all, first);
        gone := first + more;
      }
    }

    method RunSecondPass(todo: seq<Slot>, admitting: Option<string>, ghost all: seq<Slot>, ghost first: set<Slot>)
      returns (ghost more: set<Slot>)
      requires slots == Without(all, first) && Distinct(all) && todo == ByAccess(all)
      modifies this`slots, this`stats
      ensures more == SecondPass(cfg.max, all, first, admitting)
      ensures slots == Without(all, first + more)
      ensures stats == old(stats).(evictions := old(stats.evictions) + (|old(slots)| - |slots|))
    {
      more := {};
      assert first + more == first;
      if |slots| > cfg.max && admitting.Some? {
        more := SqueezeTenant(todo, admitting.value, all, first, |slots| - cfg.max);
      }
    }

    /** Count the shares and level them. */
    method RunFirstPass(todo: seq<Slot>) returns (ghost first: set<Slot>)
      requires Valid() && |slots| > cfg.max && todo == ByAccess(slots)
      modifies this`slots, this`stats
      ensures first == FirstPass(cfg.max, old(slots)) && slots == Without(old(slots), first)
      ensures stats == old(stats).(evictions := old(stats.evictions) + (|old(slots)| - |slots|))
    {
      var counts := CountShares(todo);
      var fairShare := FairShare(cfg.max, |counts|);
      first := SqueezeOverShare(todo, fairShare, counts, slots, |slots| - cfg.max);
    }

    method CheckinEntry(fingerprints: seq<string>, e: Entry, callerKey: string, hint: Hint, now: int)
      requires Valid()
      modifies this`slots, this`latest, this`stats
      ensures Valid() && Value() == Checkin(cfg, old(Value()), fingerprints, e, callerKey, hint, now)
    {
      var fps := Named(fingerprints);
      if |fps| == 0 {
        return;
      }
      IndexEntry(fps, e, callerKey, hint, now);
      PruneSlots(now, Some(TenantOf(Or(callerKey, e.callerKey))));
    }

    method IndexEntry(fps: seq<string>, e: Entry, callerKey: string, hint: Hint, now: int)
      requires Valid() && fps != []
      modifies this`slots, this`latest, this`stats
      ensures Valid() && Value() == Indexing(cfg, old(Value()), fps, e, callerKey, hint, now)
    {
      WriteSlots(fps, Stored(e, callerKey, hint, now));
      stats := stats.(stores := stats.stores + 1, aliasWrites := stats.aliasWrites + (|fps| - 1));
      var caller := Or(callerKey, e.callerKey);
      if cfg.reuseByCaller && caller != "" {
        latest := latest[IndexKey(caller, e.modelKey) := fps[0]];
      }
    }

    /** The same entry under every fingerprint. */
    method WriteSlots(fps: seq<string>, e: Entry)
      requires Valid()
      modifies this`slots
      ensures Valid() && slots == PutAll(old(slots), fps, e)
    {
      var i := 0;
      while i < |fps|
        invariant i <= |fps|
        invariant Distinct(slots) && slots == PutAll(old(slots), fps[..i], e)
      {
        assert fps[..i + 1][..i] == fps[..i];
        PutKeepsDistinct(slots, fps[i], e);
        slots := Put(slots, fps[i], e);
        i := i + 1;
      }
      assert fps[..i] == fps;
    }

    method Miss()
      modifies this`stats
      ensures Value() == old(Value()).Missed()
    {
      stats := stats.(misses := stats.misses + 1);
    }

    method CheckoutEntry(fp: string, callerKey: string, expected: Option<Owner>, modelKey: string, now: int)
      returns (handed: Option<Entry>)
      requires Valid()
      modifies this`slots, this`latest, this`stats
      ensures Valid() && (Value(), handed) == Checkout(cfg, old(Value()), fp, callerKey, expected, modelKey, now)
    {
      var found := if fp == "" then None else Find(slots, fp);
      if found.None? {
        if cfg.reuseByCaller && callerKey != "" && modelKey != "" {
          handed := CallerFallbackCheckout(callerKey, modelKey, expected, now);
          if handed.Some? {
            return;
          }
        }
        Miss();
        return None;
      }
      handed := CheckoutFound(fp, found.value, callerKey, expected, now);
    }

    /** Validate first, remove afterwards. */
    method CheckoutFound(fp: string, e: Entry, callerKey: string, expected: Option<Owner>, now: int)
      returns (handed: Option<Entry>)
      requires Valid() && fp != "" && Find(slots, fp) == Some(e)
      modifies this`slots, this`latest, this`stats
      ensures Valid() && forall model: string :: (Value(), handed) == Checkout(cfg, old(Value()), fp, callerKey, expected, model, now)
    {
      DeleteKeepsDistinct(slots, fp);
      if e.callerKey != "" && callerKey != "" && e.callerKey != callerKey {
        Miss();
        return None;
      }
      if Expired(cfg, e, now) {
        slots := Delete(slots, fp);
        stats := stats.(expired := stats.expired + 1, misses := stats.misses + 1);
        return None;
      }
      if !OwnedBy(e, expected) {
        Miss();
        return None;
      }
      slots := Delete(slots, fp);
      if cfg.reuseByCaller && e.callerKey != "" {
        latest := map ck | ck in latest && latest[ck] != fp :: latest[ck];
      }
      stats := stats.(hits := stats.hits + 1);
      return Some(e);
    }

    method CallerFallbackCheckout(callerKey: string, modelKey: string, expected: Option<Owner>, now: int)
      returns (handed: Option<Entry>)
      requires Valid()
      modifies this`slots, this`latest, this`stats
      ensures Valid() && (Value(), handed) == Fallback(cfg, old(Value()), callerKey, expected, modelKey, now)
    {
      var ck := IndexKey(callerKey, modelKey);
      if ck !in latest {
        return None;
      }
      var fp := latest[ck];
      var found := Find(slots, fp);
      if found.None? {
        latest := latest - {ck};
        return None;
      }
      var e := found.value;
      if e.callerKey != "" && callerKey != "" && e.callerKey != callerKey {
        return None;
      }
      if Expired(cfg, e, now) {
        DeleteKeepsDistinct(slots, fp);
        slots, latest := Delete(slots, fp), latest - {ck};
        stats := stats.(expired := stats.expired + 1);
        return None;
      }
      if !OwnedBy(e, expected) {
        return None;
      }
      DeleteKeepsDistinct(slots, fp);
      slots, latest := Delete(slots, fp), latest - {ck};
      stats := stats.(hits := stats.hits + 1, fallbackHits := stats.fallbackHits + 1);
      return Some(e);
    }

    /** Two passes: first the cascades that are dead, then every slot of one of them. */
    method Invalidate(o: Owner) returns (dropped: int)
      requires Valid()
      modifies this`slots, this`latest
      ensures Valid() && (Value(), dropped) == InvalidateFor(cfg, old(Value()), o)
    {
      var targets := CollectDead(o);
      ghost var gone := Doomed(slots, o);
      WithoutKeepsDistinct(slots, gone);
      dropped := DropDoomed(o, targets);
      if cfg.reuseByCaller && dropped > 0 {
        PruneCallerIndex();
      }
    }

    method CollectDead(o: Owner) returns (targets: set<string>)
      ensures targets == DeadCascades(slots, o)
    {
      targets := {};
      var i := 0;
      while i < |slots|
        invariant i <= |slots|
        invariant targets == DeadCascades(slots[..i], o)
      {
        var s := slots[i];
        assert slots[..i + 1] == slots[..i] + [s];
        if Hit(s.e, o) && s.e.cascadeId != "" {
          targets := targets + {s.e.cascadeId};
        }
        i := i + 1;
      }
      assert slots[..i] == slots;
    }

    method DropDoomed(o: Owner, targets: set<string>) returns (dropped: int)
      requires Valid() && targets == DeadCascades(slots, o)
      modifies this`slots
      ensures slots == Without(old(slots), Doomed(old(slots), o)) && dropped == |old(slots)| - |slots|
    {
      var all := slots;
      ghost var gone: set<Slot>, doomed := {}, Doomed(all, o);
      dropped := 0;
      WithoutAll(all, {});
      var i := 0;
      while i < |all|
        invariant i <= |all|
        invariant gone == doomed * Elems(all[..i])
        invariant slots == Without(all, gone) && dropped == |all| - |slots|
      {
        var s := all[i];
        OneMoreDoomed(all, i, s, doomed);
        if Hit(s.e, o) || s.e.cascadeId in targets {
          Drop(s, all, gone);
          gone := gone + {s};
          dropped := dropped + 1;
        }
        i := i + 1;
      }
      assert all[..i] == all;
      assert doomed * Elems(all) == doomed;
    }

    method Clear() returns (n: nat)
      modifies this`slots, this`latest
      ensures Valid() && slots == [] && latest == map[] && n == |old(slots)|
    {
      n := |slots|;
      slots, latest := [], map[];
    }
  }
}
