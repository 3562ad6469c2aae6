/** What is checked in can be checked out: under every fingerprint that was named, on the terms of the check-in. */
module ConversationPoolRoundTrips {
  import opened Prelude
  import opened ConversationPools
  import opened ConversationPoolRuns

  // ------------------------------------------------------------------
  // What a check-in asks for
  // ------------------------------------------------------------------

  /** The caller a check-in files its entry for. */
  function FiledFor(e: Entry, callerKey: string): string {
    if callerKey == "" then e.callerKey else callerKey
  }

  /** How long the entry is good for, in milliseconds: the hint if it is positive, and the hint the entry came with if none is given. */
  function GoodFor(cfg: Config, e: Entry, hint: Hint): int {
    match hint
    case Keep => if e.ttlHint.Some? && e.ttlHint.value > 0 then e.ttlHint.value else cfg.ttlMs
    case Clear => cfg.ttlMs
    case Use(ms) => if ms > 0 then ms else cfg.ttlMs
  }

  /** `x` is the entry that the check-in of `e` at `now` files. */
  ghost predicate FiledAs(cfg: Config, x: Entry, e: Entry, callerKey: string, hint: Hint, now: int) {
    && x.cascadeId == e.cascadeId && x.apiKey == e.apiKey && x.lsPort == e.lsPort && x.lsGeneration == e.lsGeneration
    && x.modelKey == e.modelKey && x.stepOffset == e.stepOffset && x.generatorOffset == e.generatorOffset
    && x.callerKey == FiledFor(e, callerKey) && x.lastAccess == now
    && forall at :: Expired(cfg, x, at) <==> at > now + GoodFor(cfg, e, hint)
  }

  lemma StoredIsFiled(cfg: Config, e: Entry, callerKey: string, hint: Hint, now: int)
    ensures FiledAs(cfg, Stored(e, callerKey, hint, now), e, callerKey, hint, now)
  {
  }

  /** What survives of the pool: slots that are current and are not overwritten. */
  function Survivors(cfg: Config, p: Pool, fingerprints: seq<string>, now: int): set<Slot> {
    set s | s in p.slots && now <= s.e.lastAccess + EffectiveTtl(cfg, s.e) && s.fp !in fingerprints
  }

  function Aliases(fingerprints: seq<string>): set<string> {
    set fp | fp in fingerprints && fp != ""
  }

  lemma {:induction false} NamedHas(fps: seq<string>, fp: string)
    ensures fp in Named(fps) <==> fp in fps && fp != ""
    decreases |fps|
  {
    if fps != [] {
      NamedHas(fps[1..], fp);
    }
  }

  // ------------------------------------------------------------------
  // What it writes
  // ------------------------------------------------------------------

  /** Every fingerprint of the list holds the entry, and no other slot has changed. */
  lemma {:induction false} PutAllWrites(es: seq<Slot>, fps: seq<string>, e: Entry, s: Slot)
    requires Distinct(es)
    ensures Distinct(PutAll(es, fps, e))
    ensures s in PutAll(es, fps, e) <==> (s.fp in fps && s.e == e) || (s in es && s.fp !in fps)
    decreases |fps|
  {
    if fps != [] {
      var i := |fps| - 1;
      var init, fp := fps[..i], fps[i];
      assert fps == init + [fp];
      PutAllWrites(es, init, e, s);
      PutKeepsDistinct(PutAll(es, init, e), fp, e);
      PutHas(PutAll(es, init, e), fp, e, s);
    }
  }

  /** The slots the pool chooses from after the writing. */
  lemma CandidatesAre(cfg: Config, p: Pool, fingerprints: seq<string>, e: Entry, callerKey: string, hint: Hint, now: int, s: Slot)
    requires Distinct(p.slots)
    ensures s in Candidates(cfg, p, Named(fingerprints), e, callerKey, hint, now) <==>
            || (s.fp in Aliases(fingerprints) && s.e == Stored(e, callerKey, hint, now))
            || (s in p.slots && now <= s.e.lastAccess + EffectiveTtl(cfg, s.e) && s.fp !in Named(fingerprints))
  {
    var fps, stored := Named(fingerprints), Stored(e, callerKey, hint, now);
    var written := PutAll(p.slots, fps, stored);
    PutAllWrites(p.slots, fps, stored, s);
    WithoutHas(written, Lapsed(cfg, written, now), s);
    NamedHas(fingerprints, s.fp);
    StoredIsFiled(cfg, e, callerKey, hint, now);
  }

  function Order(es: seq<Slot>): seq<string> {
    if es == [] then [] else [es[0].fp] + Order(es[1..])
  }

  /** A fingerprint that is there keeps its place, a new one comes last. */
  lemma {:induction false} PutKeepsPlace(es: seq<Slot>, fp: string, e: Entry)
    ensures Order(Put(es, fp, e)) == if Find(es, fp).Some? then Order(es) else Order(es) + [fp]
    decreases |es|
  {
    if es != [] {
      PutKeepsPlace(es[1..], fp, e);
    }
  }

  lemma {:induction false} SizeOfDistinct(es: seq<Slot>)
    requires Distinct(es)
    ensures |Elems(es)| == |es|
    decreases |es|
  {
    if es != [] {
      SizeOfDistinct(es[1..]);
      assert Elems(es) == {es[0]} + Elems(es[1..]);
    }
  }

  lemma {:induction false} OneSlotEach(fps: set<string>, e: Entry)
    ensures |set fp | fp in fps :: Slot(fp, e)| == |fps|
    decreases |fps|
  {
    if fps != {} {
      var fp :| fp in fps;
      var rest := fps - {fp};
      OneSlotEach(rest, e);
      assert (set x | x in fps :: Slot(x, e)) == {Slot(fp, e)} + (set x | x in rest :: Slot(x, e));
    }
  }

  /** How many they are, when the pool holds no slot without a fingerprint. */
  lemma {:induction false} CandidatesCount(cfg: Config, p: Pool, fingerprints: seq<string>, e: Entry, callerKey: string, hint: Hint, now: int)
    requires Distinct(p.slots) && forall s :: s in p.slots ==> s.fp != ""
    ensures |Candidates(cfg, p, Named(fingerprints), e, callerKey, hint, now)|
         == |Survivors(cfg, p, fingerprints, now)| + |Aliases(fingerprints)|
  {
    var stored := Stored(e, callerKey, hint, now);
    var filed := set fp | fp in Aliases(fingerprints) :: Slot(fp, stored);
    CandidatesDistinct(cfg, p, fingerprints, e, callerKey, hint, now);
    SizeOfDistinct(Candidates(cfg, p, Named(fingerprints), e, callerKey, hint, now));
    OneSlotEach(Aliases(fingerprints), stored);
    CandidatesUnite(cfg, p, fingerprints, e, callerKey, hint, now, filed);
  }

  lemma {:induction false} CandidatesUnite(cfg: Config, p: Pool, fingerprints: seq<string>, e: Entry, callerKey: string, hint: Hint, now: int,
                                           filed: set<Slot>)
    requires Distinct(p.slots) && forall s :: s in p.slots ==> s.fp != ""
    requires filed == set fp | fp in Aliases(fingerprints) :: Slot(fp, Stored(e, callerKey, hint, now))
    ensures Elems(Candidates(cfg, p, Named(fingerprints), e, callerKey, hint, now)) == filed + Survivors(cfg, p, fingerprints, now)
    ensures filed !! Survivors(cfg, p, fingerprints, now)
  {
    var live, survivors := Candidates(cfg, p, Named(fingerprints), e, callerKey, hint, now), Survivors(cfg, p, fingerprints, now);
    forall s ensures s in Elems(live) <==> s in filed || s in survivors {
      CandidatesAre(cfg, p, fingerprints, e, callerKey, hint, now, s);
      NamedHas(fingerprints, s.fp);
      assert s.fp in Aliases(fingerprints) && s.e == Stored(e, callerKey, hint, now) ==> s == Slot(s.fp, s.e) && s in filed;
    }
  }

  lemma CandidatesDistinct(cfg: Config, p: Pool, fingerprints: seq<string>, e: Entry, callerKey: string, hint: Hint, now: int)
    requires Distinct(p.slots)
    ensures Distinct(Candidates(cfg, p, Named(fingerprints), e, callerKey, hint, now))
  {
    var stored := Stored(e, callerKey, hint, now);
    var written := PutAll(p.slots, Named(fingerprints), stored);
    PutAllKeeps(p.slots, Named(fingerprints), stored);
    WithoutKeepsDistinct(written, Lapsed(cfg, written, now));
  }

  /** What is current, and what is written, fits into the pool. */
  predicate Fits(cfg: Config, p: Pool, fingerprints: seq<string>, now: int) {
    |Survivors(cfg, p, fingerprints, now)| + |Aliases(fingerprints)| <= cfg.max
  }

  /** A sound pool: one slot for a fingerprint, and none without one. */
  predicate Orderly(p: Pool) {
    Distinct(p.slots) && forall s :: s in p.slots ==> s.fp != ""
  }

  /** When it fits, a check-in files its entry under every fingerprint that is named, keeps every other current slot, and
      drops only what is not current; a check-in that names none does nothing. */
  lemma {:induction false} CheckinFiles(cfg: Config, p: Pool, fingerprints: seq<string>, e: Entry, callerKey: string, hint: Hint, now: int, s: Slot)
    requires Orderly(p) && Fits(cfg, p, fingerprints, now)
    ensures var q := Checkin(cfg, p, fingerprints, e, callerKey, hint, now);
            && Distinct(q.slots)
            && (Aliases(fingerprints) == {} ==> q == p)
            && (Aliases(fingerprints) != {} ==>
                  (s in q.slots <==> (s.fp in Aliases(fingerprints) && s.e == Stored(e, callerKey, hint, now))
                                     || s in Survivors(cfg, p, fingerprints, now)))
  {
    var fps, t := Named(fingerprints), Admitting(e, callerKey);
    NamedEmptyIff(fingerprints);
    if fps != [] {
      var live := Candidates(cfg, p, fps, e, callerKey, hint, now);
      CandidatesDistinct(cfg, p, fingerprints, e, callerKey, hint, now);
      CandidatesCount(cfg, p, fingerprints, e, callerKey, hint, now);
      CandidatesAre(cfg, p, fingerprints, e, callerKey, hint, now, s);
      NamedHas(fingerprints, s.fp);
      assert Squeezed(cfg.max, live, Some(t)) == {};
      WithoutAll(live, {});
    }
  }

  lemma {:induction false} NamedEmptyIff(fps: seq<string>)
    ensures Named(fps) == [] <==> Aliases(fps) == {}
  {
    if Named(fps) != [] {
      NamedHas(fps, Named(fps)[0]);
      assert Named(fps)[0] in Aliases(fps);
    }
    if Aliases(fps) != {} {
      var fp :| fp in Aliases(fps);
      NamedHas(fps, fp);
    }
  }

  lemma FiledIsFound(cfg: Config, p: Pool, fingerprints: seq<string>, e: Entry, callerKey: string, hint: Hint, now: int, fp: string)
    requires Orderly(p) && Fits(cfg, p, fingerprints, now) && fp in Aliases(fingerprints)
    ensures Find(Checkin(cfg, p, fingerprints, e, callerKey, hint, now).slots, fp) == Some(Stored(e, callerKey, hint, now))
  {
    var s := Slot(fp, Stored(e, callerKey, hint, now));
    CheckinFiles(cfg, p, fingerprints, e, callerKey, hint, now, s);
    FindFinds(Checkin(cfg, p, fingerprints, e, callerKey, hint, now).slots, s);
  }

  // ------------------------------------------------------------------
  // Round trips
  // ------------------------------------------------------------------

  /** The owner a caller expects is the one the entry was checked in with, as far as both are known. */
  predicate SameOwner(e: Entry, expected: Option<Owner>) {
    expected.None?
    || (var o := expected.value;
        && (o.apiKey == e.apiKey || o.apiKey == "" || e.apiKey == "")
        && (o.lsPort == e.lsPort || o.lsPort == 0 || e.lsPort == 0)
        && (o.lsGeneration == e.lsGeneration || o.lsGeneration.None? || e.lsGeneration.None?))
  }

  /** What was checked in is checked out: under every fingerprint named, by its caller or where no caller is known, exactly while it
      is good and where the owner agrees; what is handed out is what was filed, and only this slot is given up. */
  lemma {:induction false} CheckinThenCheckoutIff(
      cfg: Config, p: Pool, fingerprints: seq<string>, e: Entry, callerKey: string, hint: Hint, now: int,
      fp: string, asker: string, expected: Option<Owner>, modelKey: string, at: int)
    requires Orderly(p) && Fits(cfg, p, fingerprints, now) && fp in Aliases(fingerprints)
    ensures var filed := Checkin(cfg, p, fingerprints, e, callerKey, hint, now);
            var (q, handed) := Checkout(cfg, filed, fp, asker, expected, modelKey, at);
            && (handed.Some? <==> at <= now + GoodFor(cfg, e, hint) && SameOwner(e, expected)
                                  && (asker == FiledFor(e, callerKey) || asker == "" || FiledFor(e, callerKey) == ""))
            && (handed.Some? ==> FiledAs(cfg, handed.value, e, callerKey, hint, now) && q.slots == Delete(filed.slots, fp)
                                 && q.stats == filed.stats.(hits := filed.stats.hits + 1))
  {
    FiledIsFound(cfg, p, fingerprints, e, callerKey, hint, now, fp);
    StoredIsFiled(cfg, e, callerKey, hint, now);
  }

  /** An alias is as good as the first fingerprint, and stays when another one is used. */
  lemma {:induction false} AliasesAreAlike(
      cfg: Config, p: Pool, fingerprints: seq<string>, e: Entry, callerKey: string, hint: Hint, now: int,
      fp: string, alias: string, modelKey: string, at: int)
    requires Orderly(p) && Fits(cfg, p, fingerprints, now) && fp in Aliases(fingerprints) && alias in Aliases(fingerprints) && fp != alias
    requires now <= at <= now + GoodFor(cfg, e, hint)
    ensures var filed := Checkin(cfg, p, fingerprints, e, callerKey, hint, now);
            var (q, first) := Checkout(cfg, filed, fp, FiledFor(e, callerKey), None, modelKey, at);
            var (_, second) := Checkout(cfg, q, alias, FiledFor(e, callerKey), None, modelKey, at);
            first.Some? && first == second
  {
    FiledIsFound(cfg, p, fingerprints, e, callerKey, hint, now, fp);
    FiledIsFound(cfg, p, fingerprints, e, callerKey, hint, now, alias);
    StoredIsFiled(cfg, e, callerKey, hint, now);
    var filed := Checkin(cfg, p, fingerprints, e, callerKey, hint, now);
    var s := Slot(alias, Stored(e, callerKey, hint, now));
    CheckinFiles(cfg, p, fingerprints, e, callerKey, hint, now, s);
    DeleteKeepsDistinct(filed.slots, fp);
    FindFinds(Delete(filed.slots, fp), s);
  }

  /** A check-in that fits counts as one store, with an alias for each further fingerprint named, and evicts nothing. */
  lemma {:induction false} CheckinCounts(cfg: Config, p: Pool, fingerprints: seq<string>, e: Entry, callerKey: string, hint: Hint, now: int)
    requires Orderly(p) && Fits(cfg, p, fingerprints, now) && Aliases(fingerprints) != {}
    ensures var a, b := p.stats, Checkin(cfg, p, fingerprints, e, callerKey, hint, now).stats;
            && b.stores == a.stores + 1 && b.aliasWrites == a.aliasWrites + |Named(fingerprints)| - 1
            && b.evictions == a.evictions && b.hits == a.hits && b.misses == a.misses && b.fallbackHits == a.fallbackHits
  {
    var live := Candidates(cfg, p, Named(fingerprints), e, callerKey, hint, now);
    NamedEmptyIff(fingerprints);
    CandidatesCount(cfg, p, fingerprints, e, callerKey, hint, now);
    WithoutAll(live, {});
  }

  /** The first fingerprint that is not empty. */
  predicate FirstNamed(fingerprints: seq<string>, k: nat) {
    k < |fingerprints| && fingerprints[k] != "" && forall j :: 0 <= j < k ==> fingerprints[j] == ""
  }

  lemma {:induction false} NamedFirst(fps: seq<string>, k: nat)
    requires FirstNamed(fps, k)
    ensures Named(fps) != [] && Named(fps)[0] == fps[k]
    decreases |fps|
  {
    if k > 0 {
      NamedFirst(fps[1..], k - 1);
    }
  }

  /** A lookup that has lost its fingerprint, when the caller's index leads to a slot of the caller. */
  lemma {:induction false} FallbackHandsIff(cfg: Config, p: Pool, lost: string, caller: string, expected: Option<Owner>, model: string, at: int,
                                            fp: string, x: Entry)
    requires cfg.reuseByCaller && caller != "" && model != "" && (lost == "" || Find(p.slots, lost).None?)
    requires IndexKey(caller, model) in p.latest && p.latest[IndexKey(caller, model)] == fp
    requires Find(p.slots, fp) == Some(x) && x.callerKey == caller
    ensures var (q, handed) := Checkout(cfg, p, lost, caller, expected, model, at);
            if Expired(cfg, x, at) || !OwnedBy(x, expected) then handed.None?
            else handed == Some(x) && q.slots == Delete(p.slots, fp) && IndexKey(caller, model) !in q.latest
                 && q.stats == p.stats.(hits := p.stats.hits + 1, fallbackHits := p.stats.fallbackHits + 1)
  {
  }

  /** With reuse by caller, the next turn of the same caller and model finds the entry without its fingerprint. */
  lemma {:induction false} CheckinThenFallback(
      cfg: Config, p: Pool, fingerprints: seq<string>, e: Entry, callerKey: string, hint: Hint, now: int, k: nat,
      lost: string, expected: Option<Owner>, at: int)
    requires Orderly(p) && Fits(cfg, p, fingerprints, now) && FirstNamed(fingerprints, k)
    requires cfg.reuseByCaller && FiledFor(e, callerKey) != "" && e.modelKey != ""
    requires lost == "" || Find(Checkin(cfg, p, fingerprints, e, callerKey, hint, now).slots, lost).None?
    ensures var filed := Checkin(cfg, p, fingerprints, e, callerKey, hint, now);
            var (q, handed) := Checkout(cfg, filed, lost, FiledFor(e, callerKey), expected, e.modelKey, at);
            && (handed.Some? <==> at <= now + GoodFor(cfg, e, hint) && SameOwner(e, expected))
            && (handed.Some? ==> FiledAs(cfg, handed.value, e, callerKey, hint, now) && q.slots == Delete(filed.slots, fingerprints[k])
                                 && q.stats == filed.stats.(hits := filed.stats.hits + 1, fallbackHits := filed.stats.fallbackHits + 1)
                                 && IndexKey(FiledFor(e, callerKey), e.modelKey) !in q.latest)
  {
    var filed, x := Checkin(cfg, p, fingerprints, e, callerKey, hint, now), Stored(e, callerKey, hint, now);
    NamedFirst(fingerprints, k);
    NamedHas(fingerprints, fingerprints[k]);
    FiledIsFound(cfg, p, fingerprints, e, callerKey, hint, now, fingerprints[k]);
    FiledIsLatest(cfg, p, fingerprints, e, callerKey, hint, now);
    FallbackHandsIff(cfg, filed, lost, FiledFor(e, callerKey), expected, e.modelKey, at, fingerprints[k], x);
    StoredIsFiled(cfg, e, callerKey, hint, now);
    OwnedIffSame(e, x, expected);
  }

  lemma OwnedIffSame(e: Entry, x: Entry, expected: Option<Owner>)
    requires x.apiKey == e.apiKey && x.lsPort == e.lsPort && x.lsGeneration == e.lsGeneration
    ensures OwnedBy(x, expected) <==> SameOwner(e, expected)
  {
  }

  lemma {:induction false} FiledIsLatest(cfg: Config, p: Pool, fingerprints: seq<string>, e: Entry, callerKey: string, hint: Hint, now: int)
    requires Orderly(p) && Fits(cfg, p, fingerprints, now) && Named(fingerprints) != []
    requires cfg.reuseByCaller && FiledFor(e, callerKey) != ""
    ensures var q, ck := Checkin(cfg, p, fingerprints, e, callerKey, hint, now), IndexKey(FiledFor(e, callerKey), e.modelKey);
            ck in q.latest && q.latest[ck] == Named(fingerprints)[0]
  {
    var first := Named(fingerprints)[0];
    NamedHas(fingerprints, first);
    FiledIsFound(cfg, p, fingerprints, e, callerKey, hint, now, first);
  }

  // ------------------------------------------------------------------
  // The index by caller
  // ------------------------------------------------------------------

  /** Pruning leaves exactly the index entries that lead to a slot. */
  lemma PrunedIndexLeads(cfg: Config, p: Pool, now: int, admitting: Option<string>, ck: string)
    requires cfg.reuseByCaller
    ensures var q := Prune(cfg, p, now, admitting);
            && (ck in q.latest <==> ck in p.latest && exists s :: s in q.slots && s.fp == p.latest[ck])
            && (ck in q.latest ==> q.latest[ck] == p.latest[ck])
  {
  }

  /** A hand-out by fingerprint takes out exactly the index entries that lead to it, if the entry has a caller. */
  lemma HandedOutIsUnindexed(cfg: Config, p: Pool, fp: string, callerKey: string, expected: Option<Owner>, modelKey: string, now: int, ck: string)
    requires fp != "" && Find(p.slots, fp).Some? && Checkout(cfg, p, fp, callerKey, expected, modelKey, now).1.Some?
    ensures var q := Checkout(cfg, p, fp, callerKey, expected, modelKey, now).0;
            && (ck in q.latest <==> ck in p.latest && !(cfg.reuseByCaller && Find(p.slots, fp).value.callerKey != "" && p.latest[ck] == fp))
            && (ck in q.latest ==> q.latest[ck] == p.latest[ck])
  {
  }

  /** A fallback takes out the asker's own index entry when it hands out, and when what that leads to is gone or expired; any
      other refusal leaves the index alone. */
  lemma FallbackUnindexes(cfg: Config, p: Pool, callerKey: string, expected: Option<Owner>, modelKey: string, now: int)
    ensures var ck := IndexKey(callerKey, modelKey);
            var (q, handed) := Fallback(cfg, p, callerKey, expected, modelKey, now);
            var led := if ck in p.latest then Find(p.slots, p.latest[ck]) else None;
            q.latest == if handed.Some? || led.None? || (ForCaller(led.value, callerKey) && Expired(cfg, led.value, now))
                        then p.latest - {ck} else p.latest
  {
    assert IndexKey(callerKey, modelKey) !in p.latest ==> p.latest - {IndexKey(callerKey, modelKey)} == p.latest;
  }

  // ------------------------------------------------------------------
  // Invalidation
  // ------------------------------------------------------------------

  /** The entry belongs to the account that went away, or to the language server, unless both know their generation and differ. */
  predicate BelongsTo(e: Entry, o: Owner) {
    || (o.apiKey != "" && e.apiKey == o.apiKey)
    || (o.lsPort != 0 && e.lsPort == o.lsPort && !(o.lsGeneration.Some? && e.lsGeneration.Some? && e.lsGeneration != o.lsGeneration))
  }

  /** A slot survives an invalidation exactly when neither it nor any slot of its cascade belongs to what went away. */
  lemma {:induction false} InvalidationSparesIff(cfg: Config, p: Pool, o: Owner, s: Slot)
    requires s in p.slots
    ensures s in InvalidateFor(cfg, p, o).0.slots <==>
            && !BelongsTo(s.e, o)
            && (s.e.cascadeId != "" ==> forall x :: x in p.slots && BelongsTo(x.e, o) ==> x.e.cascadeId != s.e.cascadeId)
  {
    WithoutHas(p.slots, Doomed(p.slots, o), s);
    assert forall x :: BelongsTo(x, o) <==> Hit(x, o);
    if s.e.cascadeId in DeadCascades(p.slots, o) {
      var x :| x in p.slots && Hit(x.e, o) && x.e.cascadeId == s.e.cascadeId;
      assert BelongsTo(x.e, o);
    }
  }

  /** An invalidation that drops something leaves exactly the index entries that lead to a slot. */
  lemma {:induction false} InvalidatedIndexLeads(cfg: Config, p: Pool, o: Owner, ck: string)
    requires cfg.reuseByCaller && InvalidateFor(cfg, p, o).1 > 0
    ensures var q := InvalidateFor(cfg, p, o).0;
            && (ck in q.latest <==> ck in p.latest && exists s :: s in q.slots && s.fp == p.latest[ck])
            && (ck in q.latest ==> q.latest[ck] == p.latest[ck])
  {
  }

  // ------------------------------------------------------------------
  // Every pool is orderly
  // ------------------------------------------------------------------

  lemma NoEmptyAfterStep(cfg: Config, p: Pool, a: Action, s: Slot)
    requires Orderly(p) && s in Step(cfg, p, a).slots
    ensures s.fp != ""
  {
    match a
    case DoCheckin(fps, e, callerKey, hint, now) =>
      if Named(fps) != [] {
        var live := Candidates(cfg, p, Named(fps), e, callerKey, hint, now);
        WithoutHas(live, Squeezed(cfg.max, live, Some(Admitting(e, callerKey))), s);
        CandidatesAre(cfg, p, fps, e, callerKey, hint, now, s);
      }
    case DoCheckout(fp, callerKey, expected, modelKey, now) =>
    case DoInvalidate(o) => WithoutHas(p.slots, Doomed(p.slots, o), s);
    case DoPrune(now) =>
      var live := Live(cfg, p.slots, now);
      WithoutHas(live, Squeezed(cfg.max, live, None), s);
      WithoutHas(p.slots, Lapsed(cfg, p.slots, now), s);
  }

  /** After every run of check-ins, checkouts, invalidations and prunes the pool is orderly, so the round trips hold of it. */
  lemma {:induction false} RunKeepsOrderly(cfg: Config, run: seq<Action>)
    ensures Orderly(Run(cfg, run))
    decreases |run|
  {
    RunKeepsBound(cfg, run);
    if run != [] {
      var n := |run| - 1;
      RunKeepsOrderly(cfg, run[..n]);
      forall s | s in Run(cfg, run).slots ensures s.fp != "" {
        NoEmptyAfterStep(cfg, Run(cfg, run[..n]), run[n], s);
      }
    }
  }

  // ------------------------------------------------------------------
  // Shares
  // ------------------------------------------------------------------

  /** The share of a tenant under pressure: the slots divided by the tenants that hold any, and at least one. */
  lemma ShareIsEqual(max: nat, live: seq<Slot>)
    requires live != []
    ensures var n := |Tenants(live)|;
            n > 0 && (max >= n ==> n * ShareOf(max, live) <= max < n * (ShareOf(max, live) + 1)) && (max < n ==> ShareOf(max, live) == 1)
  {
    TenantCount(live);
    var n := |Tenants(live)|;
    assert Tenant(live[0]) in Tenants(live);
    Quotient(max, n);
  }

  lemma Quotient(max: nat, n: nat)
    requires n > 0
    ensures n * (max / n) <= max < n * (max / n + 1)
    ensures max >= n <==> max / n >= 1
  {
  }
}
