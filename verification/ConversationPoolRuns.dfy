/** What the pool guarantees: its bound, what a tenant can lose to another, which slots go first, and that a
    stored conversation is handed out at most once under each of its fingerprints. */
module ConversationPoolRuns {
  import opened Prelude
  import opened ConversationPools

  // ------------------------------------------------------------------
  // Tenants
  // ------------------------------------------------------------------

  lemma {:induction false} ColonIs(s: string, i: nat, j: nat)
    requires i <= j <= |s| && (j < |s| ==> s[j] == ':') && forall k :: i <= k < j ==> s[k] != ':'
    ensures Colon(s, i) == j
    decreases j - i
  {
    if i < j {
      ColonIs(s, i + 1, j);
    }
  }

  /** A tenant is what comes before the second colon of a caller key: all sub-keys of a caller are one tenant. */
  lemma TenantIsTwoSegments(a: string, b: string, rest: string)
    requires ':' !in a && ':' !in b
    ensures TenantOf(a) == a && TenantOf(a + ":" + b) == a + ":" + b
    ensures TenantOf(a + ":" + b + ":" + rest) == a + ":" + b
  {
    var two, three := a + ":" + b, a + ":" + b + ":" + rest;
    ColonIs(a, 0, |a|);
    ColonIs(two, 0, |a|);
    ColonIs(two, |a| + 1, |two|);
    assert three[..|a|] == a && three[|a|] == ':' && three[|a| + 1..|two|] == b && three[|two|] == ':';
    ColonIs(three, 0, |a|);
    ColonIs(three, |a| + 1, |two|);
  }

  // ------------------------------------------------------------------
  // Counting slots
  // ------------------------------------------------------------------

  function Tally(es: seq<Slot>, p: Slot -> bool): nat {
    if es == [] then 0 else (if p(es[0]) then 1 else 0) + Tally(es[1..], p)
  }

  function Of(tenant: string): Slot -> bool {
    (s: Slot) => Tenant(s) == tenant
  }

  /** The slots of a tenant that are not gone. */
  function Left(tenant: string, gone: set<Slot>): Slot -> bool {
    (s: Slot) => Tenant(s) == tenant && s !in gone
  }

  function In(tenants: set<string>): Slot -> bool {
    (s: Slot) => Tenant(s) in tenants
  }

  function Tenants(es: seq<Slot>): set<string> {
    set s | s in es :: Tenant(s)
  }

  lemma {:induction false} TallySame(es: seq<Slot>, p: Slot -> bool, q: Slot -> bool)
    requires forall s :: s in es ==> p(s) == q(s)
    ensures Tally(es, p) == Tally(es, q)
    decreases |es|
  {
    if es != [] {
      TallySame(es[1..], p, q);
    }
  }

  lemma {:induction false} TallyCovers(es: seq<Slot>, p: Slot -> bool, q: Slot -> bool, r: Slot -> bool)
    requires forall s :: s in es && p(s) ==> q(s) || r(s)
    ensures Tally(es, p) <= Tally(es, q) + Tally(es, r)
    decreases |es|
  {
    if es != [] {
      TallyCovers(es[1..], p, q, r);
    }
  }

  lemma {:induction false} TallyAll(es: seq<Slot>, p: Slot -> bool)
    requires forall s :: s in es ==> p(s)
    ensures Tally(es, p) == |es|
    decreases |es|
  {
    if es != [] {
      TallyAll(es[1..], p);
    }
  }

  lemma {:induction false} TallyNone(es: seq<Slot>, p: Slot -> bool)
    requires Tally(es, p) == 0
    ensures forall s :: s in es ==> !p(s)
    decreases |es|
  {
    if es != [] {
      TallyNone(es[1..], p);
      assert es == [es[0]] + es[1..];
    }
  }

  lemma {:induction false} TallyCons(x: Slot, es: seq<Slot>, p: Slot -> bool)
    ensures Tally([x] + es, p) == (if p(x) then 1 else 0) + Tally(es, p)
  {
    assert ([x] + es)[1..] == es;
  }

  lemma {:induction false} TallySnoc(es: seq<Slot>, x: Slot, p: Slot -> bool)
    ensures Tally(es + [x], p) == Tally(es, p) + if p(x) then 1 else 0
    decreases |es|
  {
    if es == [] {
      assert es + [x] == [x];
    } else {
      assert (es + [x])[1..] == es[1..] + [x];
      TallySnoc(es[1..], x, p);
    }
  }

  lemma {:induction false} TallyInsert(x: Slot, es: seq<Slot>, p: Slot -> bool)
    ensures Tally(InsertBy(x, es, EARLIER), p) == (if p(x) then 1 else 0) + Tally(es, p)
    decreases |es|
  {
    TallyCons(x, es, p);
    if es != [] {
      TallyInsert(x, es[1..], p);
      TallyCons(es[0], InsertBy(x, es[1..], EARLIER), p);
    }
  }

  lemma {:induction false} TallyByAccess(es: seq<Slot>, p: Slot -> bool)
    ensures Tally(ByAccess(es), p) == Tally(es, p)
    decreases |es|
  {
    if es != [] {
      TallyByAccess(es[1..], p);
      TallyInsert(es[0], ByAccess(es[1..]), p);
    }
  }

  /** Filtering and then counting is counting what is not gone. */
  lemma {:induction false} TallyWithout(es: seq<Slot>, gone: set<Slot>, p: Slot -> bool, q: Slot -> bool)
    requires forall s :: q(s) <==> p(s) && s !in gone
    ensures Tally(Without(es, gone), p) == Tally(es, q)
    decreases |es|
  {
    if es != [] {
      TallyWithout(es[1..], gone, p, q);
      TallyCons(es[0], Without(es[1..], gone), p);
    }
  }

  /** How many slots go. */
  lemma {:induction false} WithoutSize(es: seq<Slot>, gone: set<Slot>)
    requires Distinct(es) && forall s :: s in gone ==> s in es
    ensures |Without(es, gone)| == |es| - |gone|
    decreases |es|
  {
    if es == [] {
      assert gone == {};
    } else {
      var s, rest, less := es[0], es[1..], gone - {es[0]};
      assert forall x :: x in less ==> x in rest;
      assert s !in rest;
      WithoutSame(rest, gone, less);
      WithoutSize(rest, less);
      assert s in gone ==> gone == less + {s};
    }
  }

  // ------------------------------------------------------------------
  // Shares
  // ------------------------------------------------------------------

  lemma {:induction false} SharesCount(es: seq<Slot>, tenant: string)
    ensures Held(Shares(es), tenant) == Tally(es, Of(tenant))
    decreases |es|
  {
    if es != [] {
      var i := |es| - 1;
      var init, last := es[..i], es[i];
      SharesCount(init, tenant);
      SharesCount(init, Tenant(last));
      TallySnoc(init, last, Of(tenant));
      assert es == init + [last];
    }
  }

  lemma {:induction false} TenantsSnoc(init: seq<Slot>, last: Slot)
    ensures Tenants(init + [last]) == Tenants(init) + {Tenant(last)}
  {
    assert forall s :: s in init + [last] <==> s in init || s == last;
  }

  lemma {:induction false} SharesNameTenants(es: seq<Slot>)
    ensures Shares(es).Keys == Tenants(es)
    decreases |es|
  {
    if es != [] {
      var i := |es| - 1;
      SharesNameTenants(es[..i]);
      assert es == es[..i] + [es[i]];
      TenantsSnoc(es[..i], es[i]);
    }
  }

  lemma {:induction false} CrowdStep(es: seq<Slot>, tenants: set<string>, t: string)
    requires t in tenants
    ensures Tally(es, In(tenants)) <= Tally(es, In(tenants - {t})) + Tally(es, Of(t))
  {
    TallyCovers(es, In(tenants), In(tenants - {t}), Of(t));
  }

  lemma Times(fair: nat, less: nat, n: nat)
    requires n == less + 1
    ensures fair * n == fair * less + fair
  {
  }

  /** Slots of tenants that hold at most `fair` each are at most `fair` times the tenants. */
  lemma {:induction false} Crowd(es: seq<Slot>, tenants: set<string>, fair: nat)
    requires forall t :: t in tenants ==> Tally(es, Of(t)) <= fair
    ensures Tally(es, In(tenants)) <= fair * |tenants|
    decreases |tenants|
  {
    if tenants == {} {
      NoneTallied(es, In(tenants));
    } else {
      var t :| t in tenants;
      var rest := tenants - {t};
      Crowd(es, rest, fair);
      CrowdStep(es, tenants, t);
      Times(fair, |rest|, |tenants|);
    }
  }

  lemma {:induction false} NoneTallied(es: seq<Slot>, p: Slot -> bool)
    requires forall s :: s in es ==> !p(s)
    ensures Tally(es, p) == 0
    decreases |es|
  {
    if es != [] {
      NoneTallied(es[1..], p);
    }
  }

  // ------------------------------------------------------------------
  // The order of eviction
  // ------------------------------------------------------------------

  lemma ByAccessSorts(es: seq<Slot>)
    ensures InOrder(ByAccess(es), EARLIER)
  {
    SortByOrders(es, EARLIER);
  }

  function UsedAt(t: int): Slot -> bool {
    (s: Slot) => s.e.lastAccess == t
  }

  /** Slots used at the same time keep their order. */
  lemma {:induction false} ByAccessIsStable(es: seq<Slot>, t: int)
    ensures Filter(ByAccess(es), UsedAt(t)) == Filter(es, UsedAt(t))
  {
    SortByIsStable(es, EARLIER, UsedAt(t));
  }

  // ------------------------------------------------------------------
  // The first pass
  // ------------------------------------------------------------------

  lemma {:induction false} OverShareHas(todo: seq<Slot>, counts: map<string, int>, fair: int, excess: int, s: Slot)
    requires s in OverShare(todo, counts, fair, excess)
    ensures s in todo
    decreases |todo|
  {
    var first, rest, less := todo[0], todo[1..], excess - 1;
    var t := Tenant(first);
    if Held(counts, t) <= fair {
      OverShareHas(rest, counts, fair, excess, s);
    } else if s != first {
      var fewer := counts[t := Held(counts, t) - 1];
      OverShareHas(rest, fewer, fair, less, s);
    }
  }

  lemma {:induction false} OverShareSize(todo: seq<Slot>, counts: map<string, int>, fair: int, excess: int)
    ensures |OverShare(todo, counts, fair, excess)| <= Max(0, excess)
    decreases |todo|
  {
    if todo != [] && excess > 0 {
      var first, rest, less := todo[0], todo[1..], excess - 1;
      var t := Tenant(first);
      if Held(counts, t) <= fair {
        OverShareSize(rest, counts, fair, excess);
      } else {
        var fewer := counts[t := Held(counts, t) - 1];
        OverShareSize(rest, fewer, fair, less);
        OneMore(first, OverShare(rest, fewer, fair, less));
      }
    }
  }

  lemma {:induction false} OverShareWithin(todo: seq<Slot>, counts: map<string, int>, fair: int, excess: int)
    ensures forall s :: s in OverShare(todo, counts, fair, excess) ==> s in todo
    ensures |OverShare(todo, counts, fair, excess)| <= Max(0, excess)
  {
    forall s | s in OverShare(todo, counts, fair, excess) ensures s in todo {
      OverShareHas(todo, counts, fair, excess, s);
    }
    OverShareSize(todo, counts, fair, excess);
  }

  lemma OneMore(s: Slot, some: set<Slot>)
    ensures |{s} + some| <= 1 + |some|
  {
  }

  lemma {:induction false} ShareIsKept(todo: seq<Slot>, counts: map<string, int>, fair: int, excess: int, tenant: string)
    requires Held(counts, tenant) <= fair
    ensures forall s :: s in OverShare(todo, counts, fair, excess) ==> Tenant(s) != tenant
    decreases |todo|
  {
    if todo != [] && excess > 0 {
      var t := Tenant(todo[0]);
      if Held(counts, t) <= fair {
        ShareIsKept(todo[1..], counts, fair, excess, tenant);
      } else {
        ShareIsKept(todo[1..], counts[t := Held(counts, t) - 1], fair, excess - 1, tenant);
      }
    }
  }

  /** The number of slots a tenant keeps in the first pass. */
  function Keeps(todo: seq<Slot>, counts: map<string, int>, fair: int, excess: int, tenant: string): nat {
    Tally(todo, Left(tenant, OverShare(todo, counts, fair, excess)))
  }

  lemma {:induction false} KeepsOnSkip(todo: seq<Slot>, s: Slot, rest: seq<Slot>, counts: map<string, int>, fair: int, excess: int, tenant: string)
    requires Distinct(todo) && todo == [s] + rest && excess > 0 && Held(counts, Tenant(s)) <= fair && Tenant(s) != tenant
    ensures Keeps(todo, counts, fair, excess, tenant) == Keeps(rest, counts, fair, excess, tenant)
    ensures OverShare(todo, counts, fair, excess) == OverShare(rest, counts, fair, excess)
  {
    OverShareStep(todo, s, rest, counts, fair, excess);
    TallyCons(s, rest, Left(tenant, OverShare(todo, counts, fair, excess)));
  }

  /** An evicted slot counts for nobody, and the rest goes on with one less for its tenant. */
  lemma {:induction false} KeepsOnTake(todo: seq<Slot>, s: Slot, rest: seq<Slot>, counts: map<string, int>, fewer: map<string, int>, fair: int,
                                       excess: int, less: int, tenant: string)
    requires Distinct(todo) && todo == [s] + rest && excess > 0 && less == excess - 1 && Held(counts, Tenant(s)) > fair
    requires fewer == counts[Tenant(s) := Held(counts, Tenant(s)) - 1]
    ensures Keeps(todo, counts, fair, excess, tenant) == Keeps(rest, fewer, fair, less, tenant)
    ensures |OverShare(todo, counts, fair, excess)| == 1 + |OverShare(rest, fewer, fair, less)|
  {
    DistinctCons(s, rest);
    OverShareStep(todo, s, rest, counts, fair, excess);
    OverShareWithin(rest, fewer, fair, less);
    var gone, more := OverShare(todo, counts, fair, excess), OverShare(rest, fewer, fair, less);
    assert gone == {s} + more && s !in rest && s !in more;
    TallyCons(s, rest, Left(tenant, gone));
    TallySame(rest, Left(tenant, gone), Left(tenant, more));
  }

  /** A tenant that loses something keeps its fair share, and is brought down to it unless the pass stops early. */
  predicate Level(held: int, keeps: int, took: int, excess: int, fair: int) {
    keeps <= held && (keeps < held ==> keeps >= fair) && (took < excess ==> keeps <= fair)
  }

  ghost predicate Levelling(todo: seq<Slot>, counts: map<string, int>, fair: int, excess: int, tenant: string) {
    Level(Tally(todo, Of(tenant)), Keeps(todo, counts, fair, excess, tenant), |OverShare(todo, counts, fair, excess)|, excess, fair)
  }

  lemma {:induction false} OverShareLevels(todo: seq<Slot>, counts: map<string, int>, fair: nat, excess: int, tenant: string)
    requires Distinct(todo) && Tally(todo, Of(tenant)) <= Held(counts, tenant)
    requires Held(counts, tenant) <= fair || Held(counts, tenant) == Tally(todo, Of(tenant))
    ensures Levelling(todo, counts, fair, excess, tenant)
    decreases |todo|
  {
    if Held(counts, tenant) <= fair {
      ShareIsKept(todo, counts, fair, excess, tenant);
      TallySame(todo, Left(tenant, OverShare(todo, counts, fair, excess)), Of(tenant));
    } else if excess <= 0 {
      TallySame(todo, Left(tenant, {}), Of(tenant));
    } else if todo != [] {
      var s, rest, less := todo[0], todo[1..], excess - 1;
      assert todo == [s] + rest;
      TallyCons(s, rest, Of(tenant));
      if Held(counts, Tenant(s)) <= fair {
        OverShareLevels(rest, counts, fair, excess, tenant);
        KeepsOnSkip(todo, s, rest, counts, fair, excess, tenant);
      } else {
        var fewer := counts[Tenant(s) := Held(counts, Tenant(s)) - 1];
        OverShareLevels(rest, fewer, fair, less, tenant);
        KeepsOnTake(todo, s, rest, counts, fewer, fair, excess, less, tenant);
      }
    }
  }

  /** Among the slots of a tenant, what goes was used no later than what stays. */
  ghost predicate OldestGo(all: seq<Slot>, gone: set<Slot>, tenant: string) {
    forall a, b :: a in gone && b in all && b !in gone && Tenant(a) == tenant && Tenant(b) == tenant
                   ==> a.e.lastAccess <= b.e.lastAccess
  }

  /** A slot that stays, of a tenant that loses nothing. */
  lemma {:induction false} OldestGoSkip(todo: seq<Slot>, s: Slot, rest: seq<Slot>, gone: set<Slot>, tenant: string)
    requires todo == [s] + rest && OldestGo(rest, gone, tenant) && forall g :: g in gone ==> Tenant(g) != Tenant(s)
    ensures OldestGo(todo, gone, tenant)
  {
  }

  /** The least recently used slot goes first. */
  lemma {:induction false} OldestGoTake(todo: seq<Slot>, s: Slot, rest: seq<Slot>, gone: set<Slot>, more: set<Slot>, tenant: string)
    requires todo == [s] + rest && gone == {s} + more && OldestGo(rest, more, tenant)
    requires forall x :: x in rest ==> s.e.lastAccess <= x.e.lastAccess
    ensures OldestGo(todo, gone, tenant)
  {
  }

  lemma {:induction false} OverShareTakesOldest(todo: seq<Slot>, counts: map<string, int>, fair: int, excess: int, tenant: string)
    requires InOrder(todo, EARLIER)
    ensures OldestGo(todo, OverShare(todo, counts, fair, excess), tenant)
    decreases |todo|
  {
    if todo != [] && excess > 0 {
      var s, rest, less := todo[0], todo[1..], excess - 1;
      var gone := OverShare(todo, counts, fair, excess);
      if Held(counts, Tenant(s)) <= fair {
        OverShareTakesOldest(rest, counts, fair, excess, tenant);
        ShareIsKept(rest, counts, fair, excess, Tenant(s));
        OldestGoSkip(todo, s, rest, gone, tenant);
      } else {
        var fewer := counts[Tenant(s) := Held(counts, Tenant(s)) - 1];
        var more := OverShare(rest, fewer, fair, less);
        OverShareTakesOldest(rest, fewer, fair, less, tenant);
        assert forall x :: x in rest ==> !EARLIER(x, s);
        OldestGoTake(todo, s, rest, gone, more, tenant);
      }
    }
  }

  // ------------------------------------------------------------------
  // The second pass
  // ------------------------------------------------------------------

  lemma {:induction false} OfTenantHas(todo: seq<Slot>, before: set<Slot>, tenant: string, excess: int, s: Slot)
    requires s in OfTenant(todo, before, tenant, excess)
    ensures s in todo && s !in before && Tenant(s) == tenant
    decreases |todo|
  {
    var first, rest, less := todo[0], todo[1..], excess - 1;
    if Tenant(first) != tenant || first in before {
      OfTenantHas(rest, before, tenant, excess, s);
    } else if s != first {
      OfTenantHas(rest, before, tenant, less, s);
    }
  }

  lemma {:induction false} OfTenantSize(todo: seq<Slot>, before: set<Slot>, tenant: string, excess: int)
    ensures |OfTenant(todo, before, tenant, excess)| <= Max(0, excess)
    decreases |todo|
  {
    if todo != [] && excess > 0 {
      var first, rest, less := todo[0], todo[1..], excess - 1;
      if Tenant(first) != tenant || first in before {
        OfTenantSize(rest, before, tenant, excess);
      } else {
        OfTenantSize(rest, before, tenant, less);
        OneMore(first, OfTenant(rest, before, tenant, less));
      }
    }
  }

  lemma {:induction false} OfTenantTakes(todo: seq<Slot>, before: set<Slot>, tenant: string, excess: int)
    ensures forall s :: s in OfTenant(todo, before, tenant, excess) ==> s in todo && s !in before && Tenant(s) == tenant
    ensures |OfTenant(todo, before, tenant, excess)| <= Max(0, excess)
  {
    forall s | s in OfTenant(todo, before, tenant, excess) ensures s in todo && s !in before && Tenant(s) == tenant {
      OfTenantHas(todo, before, tenant, excess, s);
    }
    OfTenantSize(todo, before, tenant, excess);
  }

  /** Falling short means that nothing of the tenant is left. */
  lemma {:induction false} OfTenantExhausts(todo: seq<Slot>, before: set<Slot>, tenant: string, excess: int, s: Slot)
    requires Distinct(todo) && |OfTenant(todo, before, tenant, excess)| < excess
    requires s in todo && Tenant(s) == tenant && s !in before
    ensures s in OfTenant(todo, before, tenant, excess)
    decreases |todo|
  {
    var first, rest, less := todo[0], todo[1..], excess - 1;
    if Tenant(first) != tenant || first in before {
      OfTenantExhausts(rest, before, tenant, excess, s);
    } else if s != first {
      var more := OfTenant(rest, before, tenant, less);
      FirstIsNew(todo, before, tenant, less, more);
      OfTenantExhausts(rest, before, tenant, less, s);
    }
  }

  lemma {:induction false} FirstIsNew(todo: seq<Slot>, before: set<Slot>, tenant: string, less: int, more: set<Slot>)
    requires Distinct(todo) && todo != [] && more == OfTenant(todo[1..], before, tenant, less)
    ensures |{todo[0]} + more| == 1 + |more|
  {
    if todo[0] in more {
      OfTenantHas(todo[1..], before, tenant, less, todo[0]);
    }
  }

  lemma {:induction false} OfTenantTakesOldest(todo: seq<Slot>, before: set<Slot>, tenant: string, excess: int, a: Slot, b: Slot)
    requires Distinct(todo) && InOrder(todo, EARLIER) && a in OfTenant(todo, before, tenant, excess)
    requires b in todo && Tenant(b) == tenant && b !in before && b !in OfTenant(todo, before, tenant, excess)
    ensures a.e.lastAccess <= b.e.lastAccess
    decreases |todo|
  {
    var s, rest, less := todo[0], todo[1..], excess - 1;
    assert todo == [s] + rest;
    if Tenant(s) != tenant || s in before {
      OfTenantTakesOldest(rest, before, tenant, excess, a, b);
    } else if a != s {
      OfTenantTakesOldest(rest, before, tenant, less, a, b);
    }
  }

  // ------------------------------------------------------------------
  // What pruning guarantees
  // ------------------------------------------------------------------

  function Others(tenant: string): Slot -> bool {
    (s: Slot) => Tenant(s) != tenant
  }

  lemma Fits(max: nat, tenants: nat, fair: nat, kept: nat)
    requires tenants > 0 && fair == FairShare(max, tenants) && max < kept <= fair * tenants
    ensures tenants > max && fair == 1
  {
  }

  /** What the first pass leaves of a tenant when it falls short. */
  lemma {:induction false} Levelled(todo: seq<Slot>, counts: map<string, int>, fair: nat, excess: int, first: set<Slot>, t: string)
    requires Distinct(todo) && counts == Shares(todo) && first == OverShare(todo, counts, fair, excess) && |first| < excess
    ensures Tally(Without(todo, first), Of(t)) == Tally(todo, Left(t, first)) <= fair
  {
    SharesCount(todo, t);
    OverShareLevels(todo, counts, fair, excess, t);
    TallyWithout(todo, first, Of(t), Left(t, first));
  }

  lemma {:induction false} CrowdLeft(todo: seq<Slot>, first: set<Slot>, fair: nat)
    requires Distinct(todo) && forall s :: s in first ==> s in todo
    requires forall t :: Tally(Without(todo, first), Of(t)) <= fair
    ensures |todo| - |first| <= fair * |Shares(todo)|
  {
    WithoutSize(todo, first);
    KeptTenants(todo, first);
    Crowd(Without(todo, first), Tenants(todo), fair);
    SharesNameTenants(todo);
    SameKeys(Shares(todo), Tenants(todo));
  }

  lemma {:induction false} FallingShort(todo: seq<Slot>, counts: map<string, int>, fair: nat, excess: int, first: set<Slot>, tenant: string,
                     max: nat, tenants: nat, kept: nat)
    requires tenants == |counts| > 0 && fair == FairShare(max, tenants) && max < kept == |todo| - |first|
    requires Distinct(todo) && counts == Shares(todo) && first == OverShare(todo, counts, fair, excess) && |first| < excess
    ensures Tally(todo, Left(tenant, first)) <= 1 && tenants > max
  {
    forall t ensures Tally(Without(todo, first), Of(t)) <= fair {
      Levelled(todo, counts, fair, excess, first, t);
    }
    Levelled(todo, counts, fair, excess, first, tenant);
    OverShareWithin(todo, counts, fair, excess);
    CrowdLeft(todo, first, fair);
    Fits(max, tenants, fair, kept);
  }

  /** When the first pass falls short there are more tenants than slots, and each keeps at most one. */
  lemma {:induction false} FirstPassFallsShort(max: nat, live: seq<Slot>, first: set<Slot>, fair: nat, tenants: nat, tenant: string)
    requires Distinct(live) && |live| > max && first == FirstPass(max, live) && |first| < |live| - max
    requires fair == ShareOf(max, live) && tenants == |Shares(ByAccess(live))|
    ensures tenants > max && Tally(live, Left(tenant, first)) <= 1
  {
    var todo, excess := ByAccess(live), |live| - max;
    var counts := Shares(todo);
    ByAccessKeepsDistinct(live);
    SortByHas(live, EARLIER, live[0]);
    FallingShort(todo, counts, fair, excess, first, tenant, max, tenants, |todo| - |first|);
    TallyByAccess(live, Left(tenant, first));
    assert tenants > max;
    assert Tally(live, Left(tenant, first)) <= 1;
  }

  lemma SameKeys<V>(m: map<string, V>, keys: set<string>)
    requires m.Keys == keys
    ensures |m| == |keys|
  {
  }

  lemma {:induction false} KeptTenants(todo: seq<Slot>, gone: set<Slot>)
    ensures Tally(Without(todo, gone), In(Tenants(todo))) == |Without(todo, gone)|
  {
    forall s | s in Without(todo, gone) ensures Tenant(s) in Tenants(todo) {
      WithoutHas(todo, gone, s);
    }
    TallyAll(Without(todo, gone), In(Tenants(todo)));
  }

  lemma {:induction false} FirstPassWithin(max: nat, live: seq<Slot>, first: set<Slot>)
    requires Distinct(live) && |live| > max && first == FirstPass(max, live)
    ensures (forall s :: s in first ==> s in live) && |first| <= |live| - max
    ensures |Without(live, first)| == |live| - |first|
  {
    var todo := ByAccess(live);
    var counts := Shares(todo);
    OverShareWithin(todo, counts, ShareOf(max, live), |live| - max);
    forall s | s in first ensures s in live {
      SortByHas(live, EARLIER, s);
    }
    WithoutSize(live, first);
  }

  lemma {:induction false} SecondPassWithin(live: seq<Slot>, first: set<Slot>, tenant: string, excess: nat, more: set<Slot>)
    requires Distinct(live) && more == OfTenant(ByAccess(live), first, tenant, excess)
    requires forall s :: s in first ==> s in live
    ensures |more| <= excess && (forall s :: s in more ==> s in live && s !in first && Tenant(s) == tenant)
    ensures |more| < excess ==> forall s :: s in live && Tenant(s) == tenant && s !in first ==> s in more
    ensures |Without(live, first + more)| == |live| - |first| - |more|
  {
    var todo := ByAccess(live);
    ByAccessKeepsDistinct(live);
    OfTenantTakes(todo, first, tenant, excess);
    forall s ensures s in todo <==> s in live {
      SortByHas(live, EARLIER, s);
    }
    if |more| < excess {
      forall s | s in live && Tenant(s) == tenant && s !in first ensures s in more {
        OfTenantExhausts(todo, first, tenant, excess, s);
      }
    }
    Apart(first, more);
    WithoutSize(live, first + more);
  }

  lemma Apart<T>(a: set<T>, b: set<T>)
    requires forall s :: s in b ==> s !in a
    ensures |a + b| == |a| + |b|
  {
    assert a !! b;
  }

  /** When the first pass falls short, at most one slot of the admitting tenant is in the way. */
  lemma {:induction false} OneTooMany(max: nat, live: seq<Slot>, first: set<Slot>, tenant: string)
    requires Distinct(live) && |live| > max && first == FirstPass(max, live) && |first| < |live| - max
    requires Tally(live, Others(tenant)) <= max
    ensures |live| - |first| == max + 1 && Tally(live, Left(tenant, first)) == 1
  {
    FirstPassFallsShort(max, live, first, ShareOf(max, live), |Shares(ByAccess(live))|, tenant);
    FirstPassWithin(max, live, first);
    var kept := Without(live, first);
    TallyWithout(live, first, Of(tenant), Left(tenant, first));
    TallyAll(kept, (s: Slot) => true);
    TallyCovers(kept, (s: Slot) => true, Of(tenant), Others(tenant));
    TallyFewer(live, first, Others(tenant));
  }

  lemma {:induction false} TallyFewer(es: seq<Slot>, gone: set<Slot>, p: Slot -> bool)
    ensures Tally(Without(es, gone), p) <= Tally(es, p)
    decreases |es|
  {
    if es != [] {
      TallyFewer(es[1..], gone, p);
      TallyCons(es[0], Without(es[1..], gone), p);
    }
  }

  /** The pool is brought down to its bound and not one slot further. */
  lemma {:induction false} SqueezeFits(max: nat, live: seq<Slot>, tenant: string)
    requires Distinct(live) && Tally(live, Others(tenant)) <= max
    ensures |Without(live, Squeezed(max, live, Some(tenant)))| == Min(|live|, max)
  {
    if |live| <= max {
      WithoutAll(live, {});
    } else {
      var first, gone := FirstPass(max, live), Squeezed(max, live, Some(tenant));
      FirstPassWithin(max, live, first);
      var more, excess := SqueezeIs(max, live, Some(tenant), first, gone);
      if excess == 0 {
        assert gone == first;
      } else {
        OneTooMany(max, live, first, tenant);
        SecondPassWithin(live, first, tenant, excess, more);
        if |more| < excess {
          NoneTallied(live, Left(tenant, first));
        }
      }
    }
  }

  lemma {:induction false} FirstPassIsFair(max: nat, live: seq<Slot>, first: set<Slot>, fair: nat, tenant: string)
    requires Distinct(live) && |live| > max && first == FirstPass(max, live) && fair == ShareOf(max, live)
    ensures var left, held := Tally(live, Left(tenant, first)), Tally(live, Of(tenant));
            left == held || held > left >= fair
  {
    var todo, excess := ByAccess(live), |live| - max;
    var counts := Shares(todo);
    ByAccessKeepsDistinct(live);
    SharesCount(todo, tenant);
    OverShareLevels(todo, counts, fair, excess, tenant);
    TallyByAccess(live, Of(tenant));
    TallyByAccess(live, Left(tenant, first));
  }

  lemma TenantCount(live: seq<Slot>)
    ensures |Shares(ByAccess(live))| == |Tenants(live)|
  {
    var todo := ByAccess(live);
    SharesNameTenants(todo);
    forall s ensures s in todo <==> s in live {
      SortByHas(live, EARLIER, s);
    }
    assert Tenants(todo) == Tenants(live);
    SameKeys(Shares(todo), Tenants(live));
  }

  lemma {:induction false} TallyLess(es: seq<Slot>, p: Slot -> bool, q: Slot -> bool, x: Slot)
    requires (forall s :: q(s) ==> p(s)) && x in es && p(x) && !q(x)
    ensures Tally(es, q) < Tally(es, p)
    decreases |es|
  {
    if x == es[0] {
      TallyWider(es[1..], p, q);
    } else {
      TallyLess(es[1..], p, q, x);
    }
  }

  lemma {:induction false} TallyWider(es: seq<Slot>, p: Slot -> bool, q: Slot -> bool)
    requires forall s :: q(s) ==> p(s)
    ensures Tally(es, q) <= Tally(es, p)
    decreases |es|
  {
    if es != [] {
      TallyWider(es[1..], p, q);
    }
  }

  /** The last slot of the admitting tenant goes. */
  lemma {:induction false} SecondPassTakesAll(live: seq<Slot>, first: set<Slot>, more: set<Slot>, tenant: string)
    requires Tally(live, Left(tenant, first)) == 1
    requires forall s :: s in more ==> s in live && s !in first && Tenant(s) == tenant
    requires more == {} ==> forall s :: s in live && Tenant(s) == tenant && s !in first ==> s in more
    ensures Tally(live, Left(tenant, first + more)) == 0
  {
    if more == {} {
      NoneTallied(live, Left(tenant, first));
    } else {
      var x :| x in more;
      TallyLess(live, Left(tenant, first), Left(tenant, first + more), x);
    }
  }

  /** A squeeze is the first pass, or the first pass and some slots of the admitting tenant. */
  lemma SqueezeIs(max: nat, live: seq<Slot>, admitting: Option<string>, first: set<Slot>, gone: set<Slot>)
    returns (more: set<Slot>, excess: nat)
    requires Distinct(live) && |live| > max && first == FirstPass(max, live) && gone == Squeezed(max, live, admitting)
    ensures gone == first + more && |live| - |first| == max + excess
    ensures admitting.None? || excess == 0 ==> more == {}
    ensures admitting.Some? ==> more == OfTenant(ByAccess(live), first, admitting.value, excess)
  {
    FirstPassWithin(max, live, first);
    excess := |live| - |first| - max;
    more := if excess > 0 && admitting.Some? then OfTenant(ByAccess(live), first, admitting.value, excess) else {};
  }

  /** The admitting tenant pays beyond its share only when there are more tenants than slots. */
  lemma {:induction false} AdmittingPays(max: nat, live: seq<Slot>, first: set<Slot>, more: set<Slot>, excess: nat, tenant: string)
    requires Distinct(live) && |live| > max && first == FirstPass(max, live) && |first| < |live| - max
    requires |live| - |first| == max + excess && more == OfTenant(ByAccess(live), first, tenant, excess)
    requires Tally(live, Others(tenant)) <= max
    ensures |Tenants(live)| > max && Tally(live, Left(tenant, first + more)) == 0
  {
    OneTooMany(max, live, first, tenant);
    FirstPassFallsShort(max, live, first, ShareOf(max, live), |Shares(ByAccess(live))|, tenant);
    TenantCount(live);
    FirstPassWithin(max, live, first);
    SecondPassWithin(live, first, tenant, excess, more);
    SecondPassTakesAll(live, first, more, tenant);
  }

  lemma {:induction false} OthersUntouched(live: seq<Slot>, first: set<Slot>, more: set<Slot>, excess: nat, payer: string, tenant: string)
    requires more == OfTenant(ByAccess(live), first, payer, excess) && payer != tenant
    ensures Tally(live, Left(tenant, first + more)) == Tally(live, Left(tenant, first))
  {
    OfTenantTakes(ByAccess(live), first, payer, excess);
    TallySame(live, Left(tenant, first + more), Left(tenant, first));
  }

  /** Nothing lost, or lost from above the share and not below it. */
  predicate WithinShare(held: nat, left: nat, share: int) {
    left == held || held > left >= share
  }

  /** What a squeeze leaves of each tenant. Only the admitting tenant can lose its last slot. */
  lemma {:induction false} SqueezeIsFair(max: nat, live: seq<Slot>, admitting: Option<string>, gone: set<Slot>, share: int, tenant: string)
    requires Distinct(live) && |live| > max && gone == Squeezed(max, live, admitting) && share == ShareOf(max, live)
    requires admitting.Some? ==> Tally(live, Others(admitting.value)) <= max
    ensures WithinShare(Tally(live, Of(tenant)), Tally(live, Left(tenant, gone)), share)
            || (admitting == Some(tenant) && |Tenants(live)| > max && Tally(live, Left(tenant, gone)) == 0)
  {
    var first := FirstPass(max, live);
    FirstPassIsFair(max, live, first, share, tenant);
    var more, excess := SqueezeIs(max, live, admitting, first, gone);
    if more == {} {
      assert gone == first;
    } else if admitting.value != tenant {
      OthersUntouched(live, first, more, excess, admitting.value, tenant);
    } else {
      AdmittingPays(max, live, first, more, excess, tenant);
    }
  }

  /** Whatever is squeezed out of a tenant was used no later than what the tenant keeps. */
  lemma {:induction false} SqueezeTakesOldest(max: nat, live: seq<Slot>, admitting: Option<string>, gone: set<Slot>, tenant: string)
    requires Distinct(live) && gone == Squeezed(max, live, admitting)
    ensures OldestGo(live, gone, tenant)
  {
    if |live| > max {
      var todo, first := ByAccess(live), FirstPass(max, live);
      ByAccessKeepsDistinct(live);
      ByAccessSorts(live);
      OverShareTakesOldest(todo, Shares(todo), ShareOf(max, live), |live| - max, tenant);
      var more, excess := SqueezeIs(max, live, admitting, first, gone);
      forall a, b | a in gone && b in live && b !in gone && Tenant(a) == tenant && Tenant(b) == tenant
        ensures a.e.lastAccess <= b.e.lastAccess
      {
        SortByHas(live, EARLIER, b);
        if a in more {
          OfTenantTakes(todo, first, admitting.value, excess);
          OfTenantTakesOldest(todo, first, tenant, excess, a, b);
        }
      }
    }
  }

  // ------------------------------------------------------------------
  // What a check-in guarantees
  // ------------------------------------------------------------------

  lemma {:induction false} PutTally(es: seq<Slot>, fp: string, e: Entry, p: Slot -> bool)
    requires !p(Slot(fp, e))
    ensures Tally(Put(es, fp, e), p) <= Tally(es, p)
    decreases |es|
  {
    if es == [] {
    } else if es[0].fp == fp {
      TallyCons(Slot(fp, e), es[1..], p);
    } else {
      PutTally(es[1..], fp, e, p);
      TallyCons(es[0], Put(es[1..], fp, e), p);
    }
  }

  /** What writing leaves of the slots that it does not overwrite. */
  lemma {:induction false} PutAllKeeps(es: seq<Slot>, fps: seq<string>, e: Entry)
    requires Distinct(es)
    ensures Distinct(PutAll(es, fps, e))
    ensures forall s :: s in es && s.fp !in fps ==> s in PutAll(es, fps, e)
    ensures forall s :: s in PutAll(es, fps, e) ==> (s.fp in fps && s.e == e) || s in es
    decreases |fps|
  {
    if fps != [] {
      var i := |fps| - 1;
      var init, fp := fps[..i], fps[i];
      var before := PutAll(es, init, e);
      PutAllKeeps(es, init, e);
      PutKeepsDistinct(before, fp, e);
      assert fps == init + [fp];
      forall s ensures s in Put(before, fp, e) <==> s == Slot(fp, e) || (s in before && s.fp != fp) {
        PutHas(before, fp, e, s);
      }
    }
  }

  lemma {:induction false} PutAllTally(es: seq<Slot>, fps: seq<string>, e: Entry, p: Slot -> bool)
    requires forall fp :: !p(Slot(fp, e))
    ensures Tally(PutAll(es, fps, e), p) <= Tally(es, p)
    decreases |fps|
  {
    if fps != [] {
      var i := |fps| - 1;
      PutAllTally(es, fps[..i], e, p);
      PutTally(PutAll(es, fps[..i], e), fps[i], e, p);
    }
  }

  lemma {:induction false} TallyAtMost(es: seq<Slot>, p: Slot -> bool)
    ensures Tally(es, p) <= |es|
    decreases |es|
  {
    if es != [] {
      TallyAtMost(es[1..], p);
    }
  }

  /** The slots a check-in has to choose from: what it wrote and what has not expired. */
  function Candidates(cfg: Config, p: Pool, fps: seq<string>, e: Entry, callerKey: string, hint: Hint, now: int): seq<Slot> {
    Live(cfg, PutAll(p.slots, fps, Stored(e, callerKey, hint, now)), now)
  }

  function Admitting(e: Entry, callerKey: string): string {
    TenantOf(Or(callerKey, e.callerKey))
  }

  lemma CandidatesFit(cfg: Config, p: Pool, fps: seq<string>, e: Entry, callerKey: string, hint: Hint, now: int)
    requires Distinct(p.slots) && |p.slots| <= cfg.max
    ensures Distinct(Candidates(cfg, p, fps, e, callerKey, hint, now))
    ensures Tally(Candidates(cfg, p, fps, e, callerKey, hint, now), Others(Admitting(e, callerKey))) <= cfg.max
  {
    var stored, others := Stored(e, callerKey, hint, now), Others(Admitting(e, callerKey));
    var written := PutAll(p.slots, fps, stored);
    PutAllKeeps(p.slots, fps, stored);
    PutAllTally(p.slots, fps, stored, others);
    WithoutKeepsDistinct(written, Lapsed(cfg, written, now));
    TallyFewer(written, Lapsed(cfg, written, now), others);
    TallyAtMost(p.slots, others);
  }

  /** From a pool within its bound every check-in, under any number of fingerprints, ends within it and
      evicts nothing it need not evict. */
  lemma {:induction false} CheckinKeepsBound(cfg: Config, p: Pool, fingerprints: seq<string>, e: Entry, callerKey: string, hint: Hint, now: int)
    requires Distinct(p.slots) && |p.slots| <= cfg.max
    ensures var q := Checkin(cfg, p, fingerprints, e, callerKey, hint, now);
            var live := Candidates(cfg, p, Named(fingerprints), e, callerKey, hint, now);
            Distinct(q.slots) && |q.slots| <= cfg.max && (Named(fingerprints) != [] ==> |q.slots| == Min(|live|, cfg.max))
  {
    var fps, t := Named(fingerprints), Admitting(e, callerKey);
    if fps != [] {
      var live := Candidates(cfg, p, fps, e, callerKey, hint, now);
      CandidatesFit(cfg, p, fps, e, callerKey, hint, now);
      SqueezeFits(cfg.max, live, t);
      WithoutKeepsDistinct(live, Squeezed(cfg.max, live, Some(t)));
    }
  }

  lemma {:induction false} AllLeft(live: seq<Slot>, gone: set<Slot>, tenant: string, s: Slot)
    requires Tally(live, Left(tenant, gone)) == Tally(live, Of(tenant)) && s in live && Tenant(s) == tenant
    ensures s in Without(live, gone)
  {
    if s in gone {
      TallyLess(live, Of(tenant), Left(tenant, gone), s);
    }
    WithoutHas(live, gone, s);
  }

  /** What a check-in leaves of each tenant: all it had, or at least its share of what it had. Only the tenant that
      checks in may be left with less, and with nothing, when there are more tenants than slots. Within a
      tenant the least recently used slots go first. */
  lemma {:induction false} CheckinIsFair(cfg: Config, p: Pool, fingerprints: seq<string>, e: Entry, callerKey: string, hint: Hint, now: int,
                                         fps: seq<string>, live: seq<Slot>, q: Pool, tenant: string)
    requires Distinct(p.slots) && |p.slots| <= cfg.max && fps == Named(fingerprints) && fps != []
    requires live == Candidates(cfg, p, fps, e, callerKey, hint, now) && live != []
    requires q == Checkin(cfg, p, fingerprints, e, callerKey, hint, now)
    ensures WithinShare(Tally(live, Of(tenant)), Tally(q.slots, Of(tenant)), ShareOf(cfg.max, live))
            || (tenant == Admitting(e, callerKey) && |Tenants(live)| > cfg.max && Tally(q.slots, Of(tenant)) == 0)
    ensures forall a, b :: a in live && a !in q.slots && b in q.slots && Tenant(a) == tenant && Tenant(b) == tenant
                           ==> a.e.lastAccess <= b.e.lastAccess
  {
    var t := Admitting(e, callerKey);
    var gone := Squeezed(cfg.max, live, Some(t));
    CandidatesFit(cfg, p, fps, e, callerKey, hint, now);
    TallyWithout(live, gone, Of(tenant), Left(tenant, gone));
    SqueezeTakesOldest(cfg.max, live, Some(t), gone, tenant);
    forall a ensures a in q.slots <==> a in live && a !in gone {
      WithoutHas(live, gone, a);
    }
    if |live| > cfg.max {
      SqueezeIsFair(cfg.max, live, Some(t), gone, ShareOf(cfg.max, live), tenant);
    } else {
      TallySame(live, Of(tenant), Left(tenant, gone));
    }
  }

  /** A tenant within its share loses nothing to another tenant's check-in. */
  lemma {:induction false} TenantIsolation(cfg: Config, p: Pool, fingerprints: seq<string>, e: Entry, callerKey: string, hint: Hint, now: int,
                                           fps: seq<string>, live: seq<Slot>, s: Slot)
    requires Distinct(p.slots) && |p.slots| <= cfg.max && fps == Named(fingerprints) && fps != []
    requires live == Candidates(cfg, p, fps, e, callerKey, hint, now)
    requires s in p.slots && s.fp !in fps && !Expired(cfg, s.e, now)
    requires Tenant(s) != Admitting(e, callerKey)
    requires Tally(live, Of(Tenant(s))) <= FairShare(cfg.max, Max(1, |Tenants(live)|))
    ensures s in Checkin(cfg, p, fingerprints, e, callerKey, hint, now).slots
  {
    var stored, t := Stored(e, callerKey, hint, now), Admitting(e, callerKey);
    var written := PutAll(p.slots, fps, stored);
    PutAllKeeps(p.slots, fps, stored);
    WithoutHas(written, Lapsed(cfg, written, now), s);
    assert s in live;
    CandidatesFit(cfg, p, fps, e, callerKey, hint, now);
    var gone := Squeezed(cfg.max, live, Some(t));
    if |live| > cfg.max {
      TenantCount(live);
      assert Tenant(s) in Tenants(live);
      SqueezeIsFair(cfg.max, live, Some(t), gone, ShareOf(cfg.max, live), Tenant(s));
      AllLeft(live, gone, Tenant(s), s);
    } else {
      WithoutHas(live, gone, s);
    }
  }

  // ------------------------------------------------------------------
  // What a checkout and an invalidation guarantee
  // ------------------------------------------------------------------

  /** The fingerprint under which a checkout finds its entry. */
  function FoundUnder(cfg: Config, p: Pool, fp: string, callerKey: string, modelKey: string): Option<string> {
    if fp != "" && Find(p.slots, fp).Some? then Some(fp)
    else if !cfg.reuseByCaller || callerKey == "" || modelKey == "" || IndexKey(callerKey, modelKey) !in p.latest then None
    else Some(p.latest[IndexKey(callerKey, modelKey)])
  }

  /** An entry may be handed out: it is current, it is the caller's and it lives where the caller can use it. */
  predicate Usable(cfg: Config, e: Entry, callerKey: string, expected: Option<Owner>, now: int) {
    !Expired(cfg, e, now) && ForCaller(e, callerKey) && OwnedBy(e, expected)
  }

  /** A checkout hands out the entry it finds if and only if that is usable, and takes exactly its slot; a checkout
      that fails costs nobody a current entry. */
  lemma CheckoutHandsIff(cfg: Config, p: Pool, fp: string, callerKey: string, expected: Option<Owner>, modelKey: string,
                                            now: int, under: Option<string>, q: Pool, r: Option<Entry>)
    requires under == FoundUnder(cfg, p, fp, callerKey, modelKey)
    requires (q, r) == Checkout(cfg, p, fp, callerKey, expected, modelKey, now)
    ensures r.Some? <==> under.Some? && Find(p.slots, under.value).Some?
                         && Usable(cfg, Find(p.slots, under.value).value, callerKey, expected, now)
    ensures r.Some? ==> r == Find(p.slots, under.value) && q.slots == Delete(p.slots, under.value)
    ensures r.None? ==> q.slots == p.slots || (under.Some? && Find(p.slots, under.value).Some?
                                               && Expired(cfg, Find(p.slots, under.value).value, now)
                                               && q.slots == Delete(p.slots, under.value))
    ensures q.stats.hits == p.stats.hits + (if r.Some? then 1 else 0) && q.stats.evictions == p.stats.evictions
    ensures q.stats.misses == p.stats.misses + (if r.None? then 1 else 0)
    ensures q.stats.expired == p.stats.expired + (if r.None? && q.slots != p.slots then 1 else 0)
  {
    if under.Some? && Find(p.slots, under.value).Some? {
      DeleteChanges(p.slots, under.value);
    }
  }

  lemma {:induction false} DeleteChanges(es: seq<Slot>, fp: string)
    ensures Find(es, fp).Some? ==> |Delete(es, fp)| < |es|
    ensures |Delete(es, fp)| <= |es|
    decreases |es|
  {
    if es != [] {
      DeleteChanges(es[1..], fp);
    }
  }

  /** Some slot tied to what went away has the same cascade. */
  ghost predicate SharesCascade(es: seq<Slot>, e: Entry, o: Owner) {
    exists d :: d in es && Hit(d.e, o) && d.e.cascadeId != "" && d.e.cascadeId == e.cascadeId
  }

  /** Exactly the slots tied to what went away, and the other slots of their cascades, are dropped. */
  lemma InvalidationIsComplete(cfg: Config, p: Pool, o: Owner, q: Pool, dropped: int)
    requires Distinct(p.slots) && (q, dropped) == InvalidateFor(cfg, p, o)
    ensures forall s :: s in q.slots <==> (s in p.slots && !Hit(s.e, o) && !SharesCascade(p.slots, s.e, o))
    ensures InvalidateFor(cfg, q, o) == (q, 0)
    ensures dropped == |p.slots| - |q.slots|
  {
    var gone := Doomed(p.slots, o);
    forall s ensures s in q.slots <==> s in p.slots && s !in gone {
      WithoutHas(p.slots, gone, s);
    }
    assert DeadCascades(q.slots, o) == {};
    WithoutAll(q.slots, Doomed(q.slots, o));
  }

  // ------------------------------------------------------------------
  // Runs
  // ------------------------------------------------------------------

  datatype Action =
    | DoCheckin(fingerprints: seq<string>, e: Entry, callerKey: string, hint: Hint, now: int)
    | DoCheckout(fp: string, caller: string, expected: Option<Owner>, model: string, now: int)
    | DoInvalidate(o: Owner)
    | DoPrune(now: int)
    | DoClear

  function Step(cfg: Config, p: Pool, a: Action): Pool {
    match a
    case DoCheckin(fps, e, callerKey, hint, now) => Checkin(cfg, p, fps, e, callerKey, hint, now)
    case DoCheckout(fp, caller, expected, model, now) => Checkout(cfg, p, fp, caller, expected, model, now).0
    case DoInvalidate(o) => InvalidateFor(cfg, p, o).0
    case DoPrune(now) => Prune(cfg, p, now, None)
    case DoClear => p.(slots := [], latest := map[])
  }

  function Run(cfg: Config, run: seq<Action>): Pool {
    if run == [] then EMPTY else Step(cfg, Run(cfg, run[..|run| - 1]), run[|run| - 1])
  }

  ghost predicate Sound(cfg: Config, p: Pool) {
    Distinct(p.slots) && |p.slots| <= cfg.max
  }

  lemma StepKeepsBound(cfg: Config, p: Pool, a: Action)
    requires Sound(cfg, p)
    ensures Sound(cfg, Step(cfg, p, a))
  {
    match a
    case DoCheckin(fps, e, callerKey, hint, now) =>
      CheckinKeepsBound(cfg, p, fps, e, callerKey, hint, now);
    case DoCheckout(fp, caller, expected, model, now) =>
      var under := FoundUnder(cfg, p, fp, caller, model);
      var (q, r) := Checkout(cfg, p, fp, caller, expected, model, now);
      CheckoutHandsIff(cfg, p, fp, caller, expected, model, now, under, q, r);
      if under.Some? {
        DeleteKeepsDistinct(p.slots, under.value);
        DeleteChanges(p.slots, under.value);
      }
    case DoInvalidate(o) =>
      ShrinkKeeps(p.slots, Doomed(p.slots, o));
    case DoPrune(now) =>
      QuietPrune(cfg, p, now);
      ShrinkKeeps(p.slots, Lapsed(cfg, p.slots, now));
    case DoClear =>
  }

  lemma {:induction false} ShrinkKeeps(es: seq<Slot>, gone: set<Slot>)
    requires Distinct(es)
    ensures Distinct(Without(es, gone)) && |Without(es, gone)| <= |es|
  {
    WithoutKeepsDistinct(es, gone);
    TallyAll(Without(es, gone), (s: Slot) => true);
    TallyFewer(es, gone, (s: Slot) => true);
    TallyAtMost(es, (s: Slot) => true);
  }

  /** Within its bound the pool loses only what has expired. */
  lemma QuietPrune(cfg: Config, p: Pool, now: int)
    requires Sound(cfg, p)
    ensures Prune(cfg, p, now, None).slots == Live(cfg, p.slots, now)
  {
    ShrinkKeeps(p.slots, Lapsed(cfg, p.slots, now));
    WithoutAll(Live(cfg, p.slots, now), {});
  }

  /** The bound holds after every run. */
  lemma {:induction false} RunKeepsBound(cfg: Config, run: seq<Action>)
    ensures Sound(cfg, Run(cfg, run))
    decreases |run|
  {
    if run != [] {
      RunKeepsBound(cfg, run[..|run| - 1]);
      StepKeepsBound(cfg, Run(cfg, run[..|run| - 1]), run[|run| - 1]);
    }
  }

  // ------------------------------------------------------------------
  // Single use
  // ------------------------------------------------------------------

  /** The fingerprint whose entry an action hands out. */
  function Handed(cfg: Config, p: Pool, a: Action): Option<string> {
    if a.DoCheckout? && Checkout(cfg, p, a.fp, a.caller, a.expected, a.model, a.now).1.Some?
    then FoundUnder(cfg, p, a.fp, a.caller, a.model) else None
  }

  function Handouts(cfg: Config, run: seq<Action>, fp: string): nat {
    if run == [] then 0
    else
      var init, last := run[..|run| - 1], run[|run| - 1];
      Handouts(cfg, init, fp) + if Handed(cfg, Run(cfg, init), last) == Some(fp) then 1 else 0
  }

  /** The check-ins that name the fingerprint. */
  function Stores(run: seq<Action>, fp: string): nat {
    if run == [] then 0
    else
      var last := run[|run| - 1];
      Stores(run[..|run| - 1], fp) + if last.DoCheckin? && fp in Named(last.fingerprints) then 1 else 0
  }

  function Present(p: Pool, fp: string): nat {
    if Find(p.slots, fp).Some? then 1 else 0
  }

  lemma PruneAddsNothing(cfg: Config, p: Pool, now: int, admitting: Option<string>, fp: string)
    ensures Present(Prune(cfg, p, now, admitting), fp) <= Present(p, fp)
  {
    var live := Live(cfg, p.slots, now);
    FewerFound(p.slots, Lapsed(cfg, p.slots, now), fp);
    FewerFound(live, Squeezed(cfg.max, live, admitting), fp);
  }

  lemma {:induction false} FewerFound(es: seq<Slot>, gone: set<Slot>, fp: string)
    ensures Find(Without(es, gone), fp).Some? ==> Find(es, fp).Some?
  {
    if Find(Without(es, gone), fp).Some? {
      var s := Slot(fp, Find(Without(es, gone), fp).value);
      WithoutHas(es, gone, s);
    }
  }

  lemma StepIsLinear(cfg: Config, p: Pool, a: Action, fp: string)
    requires Sound(cfg, p)
    ensures Present(Step(cfg, p, a), fp) + (if Handed(cfg, p, a) == Some(fp) then 1 else 0)
         <= Present(p, fp) + if a.DoCheckin? && fp in Named(a.fingerprints) then 1 else 0
  {
    match a
    case DoCheckin(fingerprints, e, callerKey, hint, now) =>
      var fps := Named(fingerprints);
      if fps != [] {
        PutAllKeeps(p.slots, fps, Stored(e, callerKey, hint, now));
        PruneAddsNothing(cfg, Indexing(cfg, p, fps, e, callerKey, hint, now), now, Some(Admitting(e, callerKey)), fp);
      }
    case DoCheckout(f, caller, expected, model, now) =>
      var under := FoundUnder(cfg, p, f, caller, model);
      var (q, r) := Checkout(cfg, p, f, caller, expected, model, now);
      CheckoutHandsIff(cfg, p, f, caller, expected, model, now, under, q, r);
    case DoInvalidate(o) =>
      FewerFound(p.slots, Doomed(p.slots, o), fp);
    case DoPrune(now) =>
      PruneAddsNothing(cfg, p, now, None, fp);
    case DoClear =>
  }

  /** Over every run an entry is handed out under a fingerprint at most as often as it was checked in under it. */
  lemma {:induction false} EachStoreServesOnce(cfg: Config, run: seq<Action>, fp: string)
    ensures Handouts(cfg, run, fp) + Present(Run(cfg, run), fp) <= Stores(run, fp)
    decreases |run|
  {
    if run != [] {
      var init := run[..|run| - 1];
      EachStoreServesOnce(cfg, init, fp);
      RunKeepsBound(cfg, init);
      StepIsLinear(cfg, Run(cfg, init), run[|run| - 1], fp);
    }
  }

  // ------------------------------------------------------------------
  // Every slot is accounted for
  // ------------------------------------------------------------------

  /** The slots an action makes, less those it invalidates. */
  function Made(cfg: Config, p: Pool, a: Action): int {
    match a
    case DoCheckin(fps, e, callerKey, hint, now) => |PutAll(p.slots, Named(fps), Stored(e, callerKey, hint, now))| - |p.slots|
    case DoCheckout(_, _, _, _, _) => 0
    case DoInvalidate(o) => -InvalidateFor(cfg, p, o).1
    case DoPrune(_) => 0
    case DoClear => -|p.slots|
  }

  function TotalMade(cfg: Config, run: seq<Action>): int {
    if run == [] then 0
    else
      var init := run[..|run| - 1];
      TotalMade(cfg, init) + Made(cfg, Run(cfg, init), run[|run| - 1])
  }

  function Balance(p: Pool): int {
    |p.slots| + p.stats.expired + p.stats.evictions + p.stats.hits
  }

  lemma StepBalances(cfg: Config, p: Pool, a: Action)
    requires Sound(cfg, p)
    ensures Balance(Step(cfg, p, a)) == Balance(p) + Made(cfg, p, a)
  {
    if a.DoCheckout? {
      var under := FoundUnder(cfg, p, a.fp, a.caller, a.model);
      var (q, r) := Checkout(cfg, p, a.fp, a.caller, a.expected, a.model, a.now);
      CheckoutHandsIff(cfg, p, a.fp, a.caller, a.expected, a.model, a.now, under, q, r);
      if under.Some? && Find(p.slots, under.value).Some? {
        DeleteTakesOne(p.slots, under.value);
      }
    }
  }

  lemma {:induction false} DeleteTakesOne(es: seq<Slot>, fp: string)
    requires Distinct(es) && Find(es, fp).Some?
    ensures |Delete(es, fp)| == |es| - 1
  {
    var s := Slot(fp, Find(es, fp).value);
    WithoutAll(es, {});
    DeleteOne(es, {}, s);
  }

  /** What was made and not invalidated is in the pool, was handed out, expired or was evicted. */
  lemma {:induction false} RunBalances(cfg: Config, run: seq<Action>)
    ensures Balance(Run(cfg, run)) == TotalMade(cfg, run)
    decreases |run|
  {
    if run != [] {
      var init := run[..|run| - 1];
      RunBalances(cfg, init);
      RunKeepsBound(cfg, init);
      StepBalances(cfg, Run(cfg, init), run[|run| - 1]);
    }
  }
}
