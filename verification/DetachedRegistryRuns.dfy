/** What every operation of the detached registry keeps, and what that means for its callers. */
module DetachedTurnRuns {
  import opened Prelude
  import opened CascadeTurns
  import opened DetachedTurns

  datatype Action =
    | DoAdmit(request: Request, t0: int, now: int)
    | DoLookup(key: Key, caller: string, now: int)
    | DoClaim(key: Key, caller: string, now: int)
    | DoOwns(key: Key, token: nat, now: int)
    | DoRelease(key: Key, token: nat, mode: Mode, t0: int, now: int)
    | DoEvict(key: Key, cause: Cause, who: Identity, now: int)
    | DoTimer(key: Key, id: nat, now: int)
    | DoSweep(now: int)
    | DoEvictForAccount(account: string)
    | DoBeginDrain

  function Step(lim: Limits, r: Reg, a: Action): Reg {
    match a
    case DoAdmit(q, t0, now) => Admit(lim, r, q, t0, now).0
    case DoLookup(key, caller, now) => Lookup(r, key, caller, now).0
    case DoClaim(key, caller, now) => Claim(r, key, caller, now).0
    case DoOwns(key, token, now) => Owns(r, key, token, now).0
    case DoRelease(key, token, mode, t0, now) => Release(lim, r, key, token, mode, t0, now).0
    case DoEvict(key, cause, who, now) => Evict(r, key, cause, who, now).0
    case DoTimer(key, id, now) => TimerFires(r, key, id, now)
    case DoSweep(now) => Sweep(r, now)
    case DoEvictForAccount(account) => EvictForAccount(r, account)
    case DoBeginDrain => BeginDrain(r)
  }

  // ------------------------------------------------------------------
  // Entries are told apart by identity, by key and by token
  // ------------------------------------------------------------------

  predicate Apart(a: Entry, b: Entry) {
    && a.id < b.id
    && a.key != b.key
    && (a.own.Claimed? && b.own.Claimed? ==> a.own.token != b.own.token)
  }

  predicate AllApart(es: seq<Entry>) {
    es == [] || ((forall e :: e in es[1..] ==> Apart(es[0], e)) && AllApart(es[1..]))
  }

  lemma {:induction false} ApartMembers(es: seq<Entry>, x: Entry, y: Entry)
    requires AllApart(es) && x in es && y in es
    ensures x == y || Apart(x, y) || Apart(y, x)
    decreases |es|
  {
    if x != es[0] && y != es[0] {
      ApartMembers(es[1..], x, y);
    }
  }

  lemma {:induction false} FindKeyFinds(es: seq<Entry>, e: Entry)
    requires AllApart(es) && e in es
    ensures FindKey(es, e.key) == Some(e)
    decreases |es|
  {
    if es[0] != e {
      FindKeyFinds(es[1..], e);
    }
  }

  lemma {:induction false} WithoutKeepsApart(es: seq<Entry>, id: nat)
    requires AllApart(es)
    ensures AllApart(Without(es, id))
    decreases |es|
  {
    if es != [] {
      WithoutKeepsApart(es[1..], id);
      if es[0].id != id {
        assert Without(es, id)[1..] == Without(es[1..], id);
      }
    }
  }

  lemma {:induction false} WithoutAbsent(es: seq<Entry>, id: nat)
    requires forall e :: e in es ==> e.id != id
    ensures Without(es, id) == es
    decreases |es|
  {
    if es != [] {
      WithoutAbsent(es[1..], id);
    }
  }

  lemma {:induction false} SumWithout(es: seq<Entry>, e: Entry, weight: Entry -> nat)
    requires AllApart(es) && e in es
    ensures Sum(Without(es, e.id), weight) + weight(e) == Sum(es, weight)
    ensures |Without(es, e.id)| + 1 == |es|
    decreases |es|
  {
    if es[0] == e {
      WithoutAbsent(es[1..], e.id);
    } else {
      SumWithout(es[1..], e, weight);
      ApartMembers(es, es[0], e);
      assert Without(es, e.id)[1..] == Without(es[1..], e.id);
    }
  }

  lemma {:induction false} AppendKeepsApart(es: seq<Entry>, e: Entry, weight: Entry -> nat)
    requires AllApart(es) && forall x :: x in es ==> Apart(x, e)
    ensures AllApart(es + [e])
    ensures Sum(es + [e], weight) == Sum(es, weight) + weight(e)
    decreases |es|
  {
    if es != [] {
      AppendKeepsApart(es[1..], e, weight);
      assert (es + [e])[1..] == es[1..] + [e];
    } else {
      assert es + [e] == [e];
      assert Sum([e], weight) == weight(e) + Sum([e][1..], weight);
    }
  }

  lemma {:induction false} ReplaceKeepsApart(es: seq<Entry>, old_: Entry, new_: Entry, weight: Entry -> nat)
    requires AllApart(es) && old_ in es && new_.id == old_.id && new_.key == old_.key
    requires new_.own.Claimed? ==> forall x :: x in es && x.own.Claimed? ==> x.own.token != new_.own.token
    ensures AllApart(Replace(es, new_))
    ensures Sum(Replace(es, new_), weight) + weight(old_) == Sum(es, weight) + weight(new_)
    ensures forall x :: x in Replace(es, new_) <==> x == new_ || (x in es && x != old_)
    decreases |es|
  {
    var r := Replace(es, new_);
    assert r[1..] == Replace(es[1..], new_);
    if es[0] == old_ {
      forall x | x in es[1..] ensures x.id != new_.id { assert Apart(es[0], x); }
      ReplaceAbsent(es[1..], new_);
    } else {
      ApartMembers(es, es[0], old_);
      ReplaceKeepsApart(es[1..], old_, new_, weight);
      assert forall x :: x in r <==> x == es[0] || x in r[1..];
    }
  }

  lemma {:induction false} ReplaceAbsent(es: seq<Entry>, e: Entry)
    requires forall x :: x in es ==> x.id != e.id
    ensures Replace(es, e) == es
    decreases |es|
  {
    if es != [] {
      ReplaceAbsent(es[1..], e);
    }
  }

  // ------------------------------------------------------------------
  // The invariant
  // ------------------------------------------------------------------

  /** How many entries have left, by the counters. */
  function Gone(c: multiset<Counter>): nat {
    c[Served] + c[Evicted(Ttl)] + c[Evicted(Drain)] + c[Evicted(AccountRemoved)] + c[Evicted(ResumeMiss)]
    + c[Evicted(Capacity)] + c[Evicted(Superseded)] + c[Evicted(Deadline)]
  }

  /** The identities in use, and the scope rule of keys. */
  ghost predicate Sound(r: Reg) {
    && AllApart(r.entries)
    && (forall e :: e in r.entries ==> e.id < r.nextId && e.caller == e.key.scope)
    && (forall e :: e in r.entries && e.own.Claimed? ==> e.own.token < r.nextToken)
  }

  /** The byte account and the entry account are exact. */
  ghost predicate Exact(r: Reg) {
    && r.totalBytes == TotalBytes(r.entries)
    && r.counters[Admitted] == |r.entries| + Gone(r.counters)
  }

  ghost predicate Capped(lim: Limits, r: Reg) {
    && |r.entries| <= lim.maxEntries
    && r.totalBytes <= lim.maxTotalBytes
    && (forall e :: e in r.entries ==> e.bytes <= lim.maxEntryBytes)
    && (forall caller: string :: CallerCount(r.entries, caller) <= lim.maxPerCaller)
  }

  ghost predicate Inv(lim: Limits, r: Reg) {
    Sound(r) && Exact(r) && Capped(lim, r)
  }

  predicate Ending(c: Counter) {
    c.Served? || c.Evicted?
  }

  lemma CountsAdd(c: multiset<Counter>, x: Counter)
    ensures Gone(c + multiset{x}) == Gone(c) + (if Ending(x) then 1 else 0)
    ensures (c + multiset{x})[Admitted] == c[Admitted] + (if x == Admitted then 1 else 0)
  {
    if x.Evicted? {
      match x.cause
      case Ttl => case Drain => case AccountRemoved => case ResumeMiss =>
      case Capacity => case Superseded => case Deadline =>
    }
  }

  lemma CountKeepsInv(lim: Limits, r: Reg, c: Counter)
    requires Inv(lim, r) && !Ending(c) && c != Admitted
    ensures Inv(lim, r.Count(c))
  {
    CountsAdd(r.counters, c);
  }

  /** Deleting an entry that is there: it alone goes, and both accounts follow; the clamp never bites. */
  lemma DeleteKeepsInv(lim: Limits, r: Reg, e: Entry, outcome: Counter)
    requires Inv(lim, r) && e in r.entries && Ending(outcome)
    ensures Inv(lim, Delete(r, e, outcome))
    ensures Delete(r, e, outcome) == r.(entries := Without(r.entries, e.id), totalBytes := r.totalBytes - e.bytes,
                                        counters := r.counters + multiset{outcome})
    ensures |Without(r.entries, e.id)| == |r.entries| - 1
    ensures forall x :: x in Without(r.entries, e.id) <==> x in r.entries && x != e
  {
    var es := Without(r.entries, e.id);
    assert HasId(r.entries, e.id);
    WithoutKeepsApart(r.entries, e.id);
    SumWithout(r.entries, e, (x: Entry) => x.bytes);
    CountsAdd(r.counters, outcome);
    forall x | x in r.entries && x.id == e.id ensures x == e {
      ApartMembers(r.entries, x, e);
    }
    forall caller: string ensures CallerCount(es, caller) <= CallerCount(r.entries, caller) {
      SumWithout(r.entries, e, (x: Entry) => if x.caller == caller then 1 else 0);
    }
  }

  lemma {:induction false} PurgeKeepsInv(lim: Limits, r: Reg, todo: seq<Entry>, verdict: Entry -> Option<Cause>)
    requires Inv(lim, r) && AllApart(todo) && forall y :: y in todo && HasId(r.entries, y.id) ==> y in r.entries
    ensures var p := Purge(r, todo, verdict);
            && Inv(lim, p)
            && p.draining == r.draining && p.nextId == r.nextId && p.nextToken == r.nextToken
            && (forall x :: x in p.entries <==> x in r.entries && (x in todo ==> verdict(x).None?))
    decreases |todo|
  {
    if todo != [] {
      var y := todo[0];
      var r1 := if verdict(y).Some? then Delete(r, y, Evicted(verdict(y).value)) else r;
      if verdict(y).Some? && HasId(r.entries, y.id) {
        DeleteKeepsInv(lim, r, y, Evicted(verdict(y).value));
      }
      PurgeKeepsInv(lim, r1, todo[1..], verdict);
      assert forall x :: x in todo <==> x == y || x in todo[1..];
      if y in r.entries { assert HasId(r.entries, y.id); }
    }
  }

  /** A sweep removes exactly the entries that are due. */
  lemma SweepKeepsInv(lim: Limits, r: Reg, now: int)
    requires Inv(lim, r)
    ensures Inv(lim, Sweep(r, now)) && Sweep(r, now).nextId == r.nextId && Sweep(r, now).nextToken == r.nextToken
    ensures forall x :: x in Sweep(r, now).entries <==> x in r.entries && Due(x, now).None?
  {
    OwnEntriesAreConsistent(r);
    PurgeKeepsInv(lim, r, r.entries, (e: Entry) => Due(e, now));
  }

  lemma OwnEntriesAreConsistent(r: Reg)
    ensures forall y :: y in r.entries && HasId(r.entries, y.id) ==> y in r.entries
  {
  }

  // ------------------------------------------------------------------
  // Admission
  // ------------------------------------------------------------------

  /** Without one running entry there is room for another of the same caller. */
  lemma OneLessFits(lim: Limits, r: Reg, e: Entry, caller: string)
    requires Inv(lim, r) && e in r.entries && (e.caller == caller || CallerCount(r.entries, caller) < lim.maxPerCaller)
    ensures var d := Delete(r, e, Evicted(Capacity));
            && Inv(lim, d) && d.nextId == r.nextId && d.nextToken == r.nextToken && d.totalBytes <= r.totalBytes
            && |d.entries| < lim.maxEntries && CallerCount(d.entries, caller) < lim.maxPerCaller
  {
    DeleteKeepsInv(lim, r, e, Evicted(Capacity));
    SumWithout(r.entries, e, (x: Entry) => if x.caller == caller then 1 else 0);
    assert CallerCount(r.entries, caller) <= lim.maxPerCaller;
    SumWithout(r.entries, e, (x: Entry) => x.bytes);
  }

  /** Freeing a slot costs at most one running entry, and nothing when it fails or when there was room. */
  lemma FreeSlotKeepsInv(lim: Limits, r: Reg, caller: string)
    requires Inv(lim, r)
    ensures var (room, ok) := FreeSlot(lim, r, caller);
            && Inv(lim, room) && room.nextId == r.nextId && room.nextToken == r.nextToken
            && room.totalBytes <= r.totalBytes
            && (ok ==> |room.entries| < lim.maxEntries && CallerCount(room.entries, caller) < lim.maxPerCaller)
            && (!ok ==> room == r)
            && (CallerCount(r.entries, caller) < lim.maxPerCaller && |r.entries| < lim.maxEntries ==> room == r && ok)
            && (room == r || exists e :: e in r.entries && e.own.Running? && room == Delete(r, e, Evicted(Capacity)))
  {
    var full := CallerCount(r.entries, caller) >= lim.maxPerCaller;
    var victim := if full then Oldest(r.entries, Some(caller)) else Oldest(r.entries, None);
    if (full || |r.entries| >= lim.maxEntries) && victim.Some? {
      var e := victim.value;
      var d := Delete(r, e, Evicted(Capacity));
      OneLessFits(lim, r, e, caller);
      assert MakeRoom(d, lim.maxEntries) == (d, true);
      assert FreeSlot(lim, r, caller) == (d, true);
    }
  }

  lemma InsertKeepsInv(lim: Limits, r: Reg, e: Entry)
    requires Inv(lim, r) && e.id == r.nextId && e.own.Running? && e.caller == e.key.scope
    requires FindKey(r.entries, e.key).None?
    requires |r.entries| < lim.maxEntries && CallerCount(r.entries, e.caller) < lim.maxPerCaller
    requires e.bytes <= lim.maxEntryBytes && r.totalBytes + e.bytes <= lim.maxTotalBytes
    ensures Inv(lim, Insert(r, e))
  {
    AppendKeepsApart(r.entries, e, (x: Entry) => x.bytes);
    CountsAdd(r.counters, Admitted);
    forall caller: string ensures CallerCount(r.entries + [e], caller) <= lim.maxPerCaller {
      AppendKeepsApart(r.entries, e, (x: Entry) => if x.caller == caller then 1 else 0);
      assert CallerCount(r.entries, caller) <= lim.maxPerCaller;
    }
  }

  lemma {:induction false} ClearedKeepsInv(lim: Limits, swept: Reg, key: Key)
    requires Inv(lim, swept)
    ensures var c := Cleared(swept, key);
            && Inv(lim, c) && c.nextId == swept.nextId && c.nextToken == swept.nextToken
            && FindKey(c.entries, key).None?
            && (forall x :: x in c.entries <==> x in swept.entries && Some(x) != FindKey(swept.entries, key))
            && c.totalBytes == swept.totalBytes - (if FindKey(swept.entries, key).Some? then FindKey(swept.entries, key).value.bytes else 0)
            && (FindKey(swept.entries, key).Some? ==>
                  |c.entries| < lim.maxEntries && CallerCount(c.entries, key.scope) < lim.maxPerCaller)
  {
    var existing := FindKey(swept.entries, key);
    if existing.Some? {
      var e := existing.value;
      DeleteKeepsInv(lim, swept, e, Evicted(Superseded));
      SumWithout(swept.entries, e, (x: Entry) => if x.caller == key.scope then 1 else 0);
      assert CallerCount(swept.entries, key.scope) <= lim.maxPerCaller;
      forall x | x in swept.entries && x.key == key ensures x == e {
        ApartMembers(swept.entries, x, e);
      }
    }
  }

  lemma {:induction false} FewerStillLack(es: seq<Entry>, fewer: seq<Entry>, key: Key)
    requires FindKey(es, key).None? && forall e :: e in fewer ==> e in es
    ensures FindKey(fewer, key).None?
  {
  }

  lemma FittingKeepsInv(lim: Limits, cleared: Reg, e: Entry)
    requires Inv(lim, cleared) && e.id == cleared.nextId && e.own.Running? && e.caller == e.key.scope
    requires FindKey(cleared.entries, e.key).None?
    requires e.bytes <= lim.maxEntryBytes && cleared.totalBytes + e.bytes <= lim.maxTotalBytes
    ensures Inv(lim, AdmitFitting(lim, cleared, e).0)
  {
    FreeSlotKeepsInv(lim, cleared, e.caller);
    var (room, ok) := FreeSlot(lim, cleared, e.caller);
    if ok {
      assert room == cleared || exists v :: v in cleared.entries && v.own.Running? && room == Delete(cleared, v, Evicted(Capacity));
      FewerStillLack(cleared.entries, room.entries, e.key);
      InsertKeepsInv(lim, room, e);
    } else {
      CountKeepsInv(lim, room, Refused(OverEntries));
    }
  }

  lemma SweptKeepsInv(lim: Limits, r: Reg, e: Entry)
    requires Inv(lim, r) && e.id == r.nextId && e.own.Running? && e.caller == e.key.scope
    ensures Inv(lim, AdmitSwept(lim, r, e).0)
  {
    CountKeepsInv(lim, r, Refused(Busy));
    CountKeepsInv(lim, r, Refused(OverBytes));
    ClearedKeepsInv(lim, r, e.key);
    if AdmitSwept(lim, r, e) == AdmitFitting(lim, Cleared(r, e.key), e) && e.bytes <= lim.maxEntryBytes
       && Cleared(r, e.key).totalBytes + e.bytes <= lim.maxTotalBytes {
      FittingKeepsInv(lim, Cleared(r, e.key), e);
    }
  }

  lemma AdmitKeepsInv(lim: Limits, r: Reg, q: Request, t0: int, now: int)
    requires Inv(lim, r) && (q.key.Some? ==> q.key.value.scope == q.caller)
    ensures Inv(lim, Admit(lim, r, q, t0, now).0)
  {
    if Screen(r, q, t0).Some? {
      CountKeepsInv(lim, r, Refused(Screen(r, q, t0).value));
    } else {
      SweepKeepsInv(lim, r, now);
      SweptKeepsInv(lim, Sweep(r, now), NewEntry(lim, Sweep(r, now), q, now));
    }
  }

  // ------------------------------------------------------------------
  // Ownership
  // ------------------------------------------------------------------

  lemma {:induction false} ReplaceKeepsInv(lim: Limits, r: Reg, e: Entry, e': Entry, r': Reg, c: Counter)
    requires Inv(lim, r) && e in r.entries && !Ending(c) && c != Admitted
    requires e'.id == e.id && e'.key == e.key && e'.caller == e.caller
    requires e'.own.Claimed? ==> e'.own.token == r.nextToken && r'.nextToken == r.nextToken + 1
    requires e'.own.Running? ==> r'.nextToken == r.nextToken
    requires e'.bytes <= lim.maxEntryBytes && r.totalBytes - e.bytes + e'.bytes <= lim.maxTotalBytes
    requires r'.entries == Replace(r.entries, e') && r'.totalBytes == r.totalBytes - e.bytes + e'.bytes
    requires r'.counters == r.counters + multiset{c} && r'.nextId == r.nextId
    ensures Inv(lim, r')
    ensures forall x :: x in r'.entries <==> x == e' || (x in r.entries && x != e)
  {
    ReplaceKeepsApart(r.entries, e, e', (x: Entry) => x.bytes);
    CountsAdd(r.counters, c);
    forall caller: string ensures CallerCount(r'.entries, caller) <= lim.maxPerCaller {
      ReplaceKeepsApart(r.entries, e, e', (x: Entry) => if x.caller == caller then 1 else 0);
      assert CallerCount(r.entries, caller) <= lim.maxPerCaller;
    }
  }

  predicate SameTerms(e: Entry, e': Entry) {
    && e.id == e'.id && e.key == e'.key && e.caller == e'.caller && e.account == e'.account
    && e.createdAt == e'.createdAt && e.expiresAt == e'.expiresAt && e.deadline == e'.deadline
  }

  /** Where an entry of the next state can come from: it was there, it is new, or it is an entry whose
      ownership moved on unchanged terms, and then a snapshot only changes when a claim is given back. */
  predicate ComesFrom(r: Reg, e': Entry) {
    || e' in r.entries
    || e'.id >= r.nextId
    || (exists e :: e in r.entries && SameTerms(e, e') && e.own.Running? != e'.own.Running?
                    && (e.own.Running? ==> e.snapshot == e'.snapshot && e.bytes == e'.bytes))
  }

  /** Nothing old comes back: ids and tokens only go up, terms never move, claims are new or kept. */
  ghost predicate Moves(r: Reg, r': Reg) {
    && r.nextId <= r'.nextId && r.nextToken <= r'.nextToken
    && (forall e' :: e' in r'.entries ==> ComesFrom(r, e'))
    && (forall e' :: e' in r'.entries && e'.own.Claimed? ==> e' in r.entries || e'.own.token >= r.nextToken)
  }

  /** Exactly which actions end the claim that `e` is: its own release or eviction by token, its deadline
      observed, the removal of its account, or a drain. */
  predicate ClaimEnds(r: Reg, a: Action, e: Entry)
    requires e.own.Claimed?
  {
    match a
    case DoAdmit(q, t0, now) => Screen(r, q, t0).None? && e.deadline <= now
    case DoLookup(key, caller, now) => key == e.key && caller == e.caller && e.deadline <= now
    case DoClaim(_, _, _) => false
    case DoOwns(key, token, now) => key == e.key && token == e.own.token && e.deadline <= now
    case DoRelease(key, token, mode, t0, _) => key == e.key && token == e.own.token && (e.deadline <= t0 || !mode.ToOther?)
    case DoEvict(key, _, who, _) => key == e.key && who == ByToken(e.own.token)
    case DoTimer(key, id, now) => key == e.key && id == e.id && e.deadline <= now
    case DoSweep(now) => e.deadline <= now
    case DoEvictForAccount(account) => account != "" && account == e.account
    case DoBeginDrain => true
  }

  ghost predicate ClaimsKept(r: Reg, r': Reg, a: Action) {
    forall e :: e in r.entries && e.own.Claimed? ==> (e in r'.entries <==> !ClaimEnds(r, a, e))
  }

  ghost predicate Effects(lim: Limits, r: Reg, r': Reg, a: Action) {
    Inv(lim, r') && Moves(r, r') && ClaimsKept(r, r', a)
  }

  /** Only counters moved, and the action ends no claim. */
  lemma QuietEffects(lim: Limits, r: Reg, r': Reg, a: Action)
    requires Inv(lim, r') && r'.entries == r.entries && r'.nextId == r.nextId && r'.nextToken == r.nextToken
    requires forall x :: x in r.entries && x.own.Claimed? ==> !ClaimEnds(r, a, x)
    ensures Effects(lim, r, r', a)
  {
  }

  /** One entry was deleted, and it is the only claim, if any, that the action ends. */
  lemma DeletionEffects(lim: Limits, r: Reg, e: Entry, c: Counter, a: Action)
    requires Inv(lim, r) && e in r.entries && Ending(c)
    requires forall x :: x in r.entries && x.own.Claimed? ==> (ClaimEnds(r, a, x) <==> x == e)
    ensures Effects(lim, r, Delete(r, e, c), a)
  {
    DeleteKeepsInv(lim, r, e, c);
  }

  lemma CountedEffects(lim: Limits, r: Reg, r1: Reg, c: Counter, a: Action)
    requires Effects(lim, r, r1, a) && !Ending(c) && c != Admitted
    ensures Effects(lim, r, r1.Count(c), a)
  {
    CountKeepsInv(lim, r1, c);
  }

  lemma KeyIsUnique(r: Reg, e: Entry)
    requires AllApart(r.entries) && FindKey(r.entries, e.key) == Some(e)
    ensures forall x :: x in r.entries && x.key == e.key ==> x == e
  {
    forall x | x in r.entries && x.key == e.key ensures x == e {
      ApartMembers(r.entries, x, e);
    }
  }

  lemma LookupEffects(lim: Limits, r: Reg, key: Key, caller: string, now: int)
    requires Inv(lim, r)
    ensures Effects(lim, r, Lookup(r, key, caller, now).0, DoLookup(key, caller, now))
  {
    var r', a := Lookup(r, key, caller, now).0, DoLookup(key, caller, now);
    var found := FindKey(r.entries, key);
    if found.Some? { KeyIsUnique(r, found.value); }
    if found.Some? && found.value.caller == caller && Due(found.value, now).Some? {
      var c := Evicted(Due(found.value, now).value);
      DeletionEffects(lim, r, found.value, c, a);
      CountedEffects(lim, r, Delete(r, found.value, c), LookupMiss, a);
    } else {
      QuietEffects(lim, r, r, a);
      CountedEffects(lim, r, r, LookupMiss, a);
      CountedEffects(lim, r, r, LookupHit, a);
    }
  }

  lemma ClaimEffects(lim: Limits, r: Reg, key: Key, caller: string, now: int)
    requires Inv(lim, r)
    ensures Effects(lim, r, Claim(r, key, caller, now).0, DoClaim(key, caller, now))
  {
    var found := FindKey(r.entries, key);
    var r' := Claim(r, key, caller, now).0;
    if found.None? || found.value.caller != caller {
      ClaimRefusedEffects(lim, r, key, caller, now, ClaimGone);
      assert r' == r.Count(ClaimGone);
    } else if !found.value.own.Running? {
      ClaimRefusedEffects(lim, r, key, caller, now, ClaimBusy);
      assert r' == r.Count(ClaimBusy);
    } else if found.value.expiresAt <= now {
      ClaimTooLateEffects(lim, r, key, caller, now, found.value, Ttl, ClaimTtl);
      assert r' == Delete(r, found.value, Evicted(Ttl)).Count(ClaimTtl);
    } else if found.value.deadline <= now {
      ClaimTooLateEffects(lim, r, key, caller, now, found.value, Deadline, ClaimDeadline);
      assert r' == Delete(r, found.value, Evicted(Deadline)).Count(ClaimDeadline);
    } else {
      ClaimTakenEffects(lim, r, key, caller, now, found.value);
    }
  }

  lemma ClaimRefusedEffects(lim: Limits, r: Reg, key: Key, caller: string, now: int, c: Counter)
    requires Inv(lim, r) && (c == ClaimGone || c == ClaimBusy)
    ensures Effects(lim, r, r.Count(c), DoClaim(key, caller, now))
  {
    QuietEffects(lim, r, r, DoClaim(key, caller, now));
    CountedEffects(lim, r, r, c, DoClaim(key, caller, now));
  }

  lemma ClaimTooLateEffects(lim: Limits, r: Reg, key: Key, caller: string, now: int, e: Entry, cause: Cause, c: Counter)
    requires Inv(lim, r) && e in r.entries && e.own.Running? && (c == ClaimTtl || c == ClaimDeadline)
    ensures Effects(lim, r, Delete(r, e, Evicted(cause)).Count(c), DoClaim(key, caller, now))
  {
    DeletionEffects(lim, r, e, Evicted(cause), DoClaim(key, caller, now));
    CountedEffects(lim, r, Delete(r, e, Evicted(cause)), c, DoClaim(key, caller, now));
  }

  lemma {:induction false} ClaimTakenEffects(lim: Limits, r: Reg, key: Key, caller: string, now: int, e: Entry)
    requires Inv(lim, r) && FindKey(r.entries, key) == Some(e) && e.caller == caller && e.own.Running?
    requires now < e.expiresAt && now < e.deadline
    ensures Effects(lim, r, Claim(r, key, caller, now).0, DoClaim(key, caller, now))
  {
    var e' := e.(own := Claimed(r.nextToken));
    var r' := r.(entries := Replace(r.entries, e'), counters := r.counters + multiset{ClaimOk}, nextToken := r.nextToken + 1);
    assert Claim(r, key, caller, now).0 == r';
    HandOverEffects(lim, r, e, e', r', ClaimOk, DoClaim(key, caller, now));
  }

  /** Ownership of one entry moved on unchanged terms. */
  lemma {:induction false} HandOverEffects(lim: Limits, r: Reg, e: Entry, e': Entry, r': Reg, c: Counter, a: Action)
    requires Inv(lim, r) && e in r.entries && !Ending(c) && c != Admitted
    requires SameTerms(e, e') && e.own.Running? != e'.own.Running?
    requires e.own.Running? ==> e.snapshot == e'.snapshot && e.bytes == e'.bytes && e'.own.token == r.nextToken
    requires r'.nextToken == r.nextToken + (if e.own.Running? then 1 else 0)
    requires e'.bytes <= lim.maxEntryBytes && r.totalBytes - e.bytes + e'.bytes <= lim.maxTotalBytes
    requires r'.entries == Replace(r.entries, e') && r'.totalBytes == r.totalBytes - e.bytes + e'.bytes
    requires r'.counters == r.counters + multiset{c} && r'.nextId == r.nextId
    requires forall x :: x in r.entries && x.own.Claimed? ==> (ClaimEnds(r, a, x) <==> x == e)
    ensures Effects(lim, r, r', a)
  {
    ReplaceKeepsInv(lim, r, e, e', r', c);
    assert ComesFrom(r, e');
  }

  lemma ClaimIsUnique(lim: Limits, r: Reg, key: Key, token: nat)
    requires Inv(lim, r)
    ensures forall x :: x in r.entries && x.key == key && x.own == Claimed(token) <==> ClaimOf(r, key, token) == Some(x)
  {
    forall x | x in r.entries && x.key == key && x.own == Claimed(token) ensures ClaimOf(r, key, token) == Some(x) {
      FindKeyFinds(r.entries, x);
    }
  }

  lemma OwnsEffects(lim: Limits, r: Reg, key: Key, token: nat, now: int)
    requires Inv(lim, r)
    ensures Effects(lim, r, Owns(r, key, token, now).0, DoOwns(key, token, now))
  {
    ClaimIsUnique(lim, r, key, token);
    var e := ClaimOf(r, key, token);
    if e.Some? && e.value.deadline <= now {
      DeletionEffects(lim, r, e.value, Evicted(Deadline), DoOwns(key, token, now));
    } else {
      QuietEffects(lim, r, r, DoOwns(key, token, now));
    }
  }

  lemma EvictEffects(lim: Limits, r: Reg, key: Key, cause: Cause, who: Identity, now: int)
    requires Inv(lim, r)
    ensures Effects(lim, r, Evict(r, key, cause, who, now).0, DoEvict(key, cause, who, now))
  {
    var e := FindKey(r.entries, key);
    if e.Some? { KeyIsUnique(r, e.value); }
    if e.Some? && Names(who, e.value) {
      var c := Evicted(if e.value.own.Claimed? && e.value.deadline <= now then Deadline else cause);
      DeletionEffects(lim, r, e.value, c, DoEvict(key, cause, who, now));
    } else {
      QuietEffects(lim, r, r, DoEvict(key, cause, who, now));
    }
  }

  lemma TimerEffects(lim: Limits, r: Reg, key: Key, id: nat, now: int)
    requires Inv(lim, r)
    ensures Effects(lim, r, TimerFires(r, key, id, now), DoTimer(key, id, now))
  {
    var e := FindKey(r.entries, key);
    if e.Some? { KeyIsUnique(r, e.value); }
    if e.Some? && e.value.id == id && Due(e.value, now).Some? {
      var c := Evicted(Due(e.value, now).value);
      DeletionEffects(lim, r, e.value, c, DoTimer(key, id, now));
    } else {
      QuietEffects(lim, r, r, DoTimer(key, id, now));
    }
  }

  lemma ReleaseEffects(lim: Limits, r: Reg, key: Key, token: nat, mode: Mode, t0: int, now: int)
    requires Inv(lim, r)
    ensures Effects(lim, r, Release(lim, r, key, token, mode, t0, now).0, DoRelease(key, token, mode, t0, now))
  {
    var claim := ClaimOf(r, key, token);
    if claim.None? || (claim.value.deadline > t0 && mode.ToOther?) {
      ClaimIsUnique(lim, r, key, token);
      QuietEffects(lim, r, r, DoRelease(key, token, mode, t0, now));
    } else if mode.ToRunning? && Release(lim, r, key, token, mode, t0, now).1 {
      GivenBackEffects(lim, r, key, token, mode, t0, now, claim.value);
    } else {
      ReleaseEndsEffects(lim, r, key, token, mode, t0, now, claim.value);
    }
  }

  lemma ReleaseEndsEffects(lim: Limits, r: Reg, key: Key, token: nat, mode: Mode, t0: int, now: int, e: Entry)
    requires Inv(lim, r) && ClaimOf(r, key, token) == Some(e) && (e.deadline <= t0 || !mode.ToOther?)
    requires mode.ToRunning? ==> !Release(lim, r, key, token, mode, t0, now).1
    ensures Release(lim, r, key, token, mode, t0, now).0 == Delete(r, e, EndingOf(lim, r, e, mode, t0, now))
    ensures Effects(lim, r, Release(lim, r, key, token, mode, t0, now).0, DoRelease(key, token, mode, t0, now))
  {
    ClaimIsUnique(lim, r, key, token);
    DeletionEffects(lim, r, e, EndingOf(lim, r, e, mode, t0, now), DoRelease(key, token, mode, t0, now));
  }

  /** What a successful re-detach does to the registry. */
  lemma {:induction false} GivenBack(lim: Limits, r: Reg, key: Key, token: nat, mode: Mode, t0: int, now: int, e: Entry, e': Entry, r': Reg)
    requires ClaimOf(r, key, token) == Some(e) && mode.ToRunning? && Release(lim, r, key, token, mode, t0, now) == (r', true)
    requires e' == e.(snapshot := mode.snapshot.value, bytes := SnapshotBytes(mode.snapshot.value, e.pinBytes), own := Running)
    ensures e'.bytes <= lim.maxEntryBytes && r.totalBytes - e.bytes + e'.bytes <= lim.maxTotalBytes
    ensures r'.entries == Replace(r.entries, e') && r'.totalBytes == Max(0, r.totalBytes - e.bytes) + e'.bytes
    ensures r'.counters == r.counters + multiset{ReDetached} && r'.nextId == r.nextId && r'.nextToken == r.nextToken
  {
  }

  lemma GivenBackEffects(lim: Limits, r: Reg, key: Key, token: nat, mode: Mode, t0: int, now: int, e: Entry)
    requires Inv(lim, r) && ClaimOf(r, key, token) == Some(e)
    requires mode.ToRunning? && Release(lim, r, key, token, mode, t0, now).1
    ensures Effects(lim, r, Release(lim, r, key, token, mode, t0, now).0, DoRelease(key, token, mode, t0, now))
  {
    var r', a := Release(lim, r, key, token, mode, t0, now).0, DoRelease(key, token, mode, t0, now);
    var e' := e.(snapshot := mode.snapshot.value, bytes := SnapshotBytes(mode.snapshot.value, e.pinBytes), own := Running);
    GivenBack(lim, r, key, token, mode, t0, now, e, e', r');
    TotalCovers(lim, r, e);
    ClaimIsUnique(lim, r, key, token);
    HandOverEffects(lim, r, e, e', r', ReDetached, a);
  }

  /** How a release that deletes its entry is counted. */
  function EndingOf(lim: Limits, r: Reg, e: Entry, mode: Mode, t0: int, now: int): (c: Counter)
    ensures Ending(c)
  {
    if e.deadline <= t0 then Evicted(Deadline)
    else if mode.ToServed? then Served
    else if e.expiresAt <= now then Evicted(Ttl)
    else if mode.ToRunning? && !SettledSnapshot(mode.snapshot) then Evicted(ResumeMiss)
    else Evicted(Capacity)
  }

  lemma TotalCovers(lim: Limits, r: Reg, e: Entry)
    requires Inv(lim, r) && e in r.entries
    ensures e.bytes <= r.totalBytes
  {
    SumWithout(r.entries, e, (x: Entry) => x.bytes);
  }

  lemma {:induction false} PurgeEffects(lim: Limits, r: Reg, verdict: Entry -> Option<Cause>, a: Action)
    requires Inv(lim, r)
    requires forall x :: x in r.entries && x.own.Claimed? ==> (ClaimEnds(r, a, x) <==> verdict(x).Some?)
    ensures Effects(lim, r, Purge(r, r.entries, verdict), a)
  {
    OwnEntriesAreConsistent(r);
    PurgeKeepsInv(lim, r, r.entries, verdict);
  }

  lemma DrainEffects(lim: Limits, r: Reg)
    requires Inv(lim, r)
    ensures Effects(lim, r, BeginDrain(r), DoBeginDrain)
    ensures forall x :: x !in BeginDrain(r).entries
  {
    var r1 := r.(draining := true);
    assert Inv(lim, r1);
    PurgeEffects(lim, r1, Targets(None, Drain), DoBeginDrain);
    PurgeKeepsInv(lim, r1, r1.entries, Targets(None, Drain));
  }

  /** `before` lost nothing but at most one running entry, and gained nothing but `e`. */
  ghost predicate CostsOne(before: seq<Entry>, after: seq<Entry>, e: Entry) {
    && (forall x :: x in after ==> x in before || x == e)
    && (forall x, y :: x in before && y in before && x !in after && y !in after ==> x == y && x.own.Running?)
  }

  lemma FittingOutcome(lim: Limits, cleared: Reg, e: Entry)
    requires Inv(lim, cleared)
    ensures var (r', why) := AdmitFitting(lim, cleared, e);
            && cleared.nextId <= r'.nextId && cleared.nextToken <= r'.nextToken
            && CostsOne(cleared.entries, r'.entries, e)
            && (why.Some? ==> why == Some(OverEntries) && r'.entries == cleared.entries)
            && (CallerCount(cleared.entries, e.caller) < lim.maxPerCaller && |cleared.entries| < lim.maxEntries ==>
                  why.None? && r'.entries == cleared.entries + [e])
  {
    FreeSlotKeepsInv(lim, cleared, e.caller);
    var (room, ok) := FreeSlot(lim, cleared, e.caller);
    if room != cleared {
      var v :| v in cleared.entries && v.own.Running? && room == Delete(cleared, v, Evicted(Capacity));
      DeleteKeepsInv(lim, cleared, v, Evicted(Capacity));
    }
  }

  /** What an admission does to the swept entries: a refusal touches none of them, and a success gives up
      at most one, a running one. */
  lemma SweptOutcome(lim: Limits, r: Reg, e: Entry)
    requires Inv(lim, r) && e.caller == e.key.scope
    ensures var (r', why) := AdmitSwept(lim, r, e);
            && r.nextId <= r'.nextId && r.nextToken <= r'.nextToken
            && CostsOne(r.entries, r'.entries, e)
            && (why.Some? ==> r'.entries == r.entries)
  {
    ClearedKeepsInv(lim, r, e.key);
    FittingOutcome(lim, Cleared(r, e.key), e);
  }

  lemma AdmitMoves(lim: Limits, r: Reg, q: Request, t0: int, now: int)
    requires Inv(lim, r) && (q.key.Some? ==> q.key.value.scope == q.caller) && Screen(r, q, t0).None?
    ensures Moves(r, Admit(lim, r, q, t0, now).0)
  {
    var swept := Sweep(r, now);
    SweepKeepsInv(lim, r, now);
    SweptOutcome(lim, swept, NewEntry(lim, swept, q, now));
  }

  lemma AdmitKeepsClaims(lim: Limits, r: Reg, q: Request, t0: int, now: int)
    requires Inv(lim, r) && (q.key.Some? ==> q.key.value.scope == q.caller) && Screen(r, q, t0).None?
    ensures ClaimsKept(r, Admit(lim, r, q, t0, now).0, DoAdmit(q, t0, now))
  {
    var swept := Sweep(r, now);
    SweepKeepsInv(lim, r, now);
    SweptOutcome(lim, swept, NewEntry(lim, swept, q, now));
  }

  lemma AdmitEffects(lim: Limits, r: Reg, q: Request, t0: int, now: int)
    requires Inv(lim, r) && (q.key.Some? ==> q.key.value.scope == q.caller)
    ensures Effects(lim, r, Admit(lim, r, q, t0, now).0, DoAdmit(q, t0, now))
  {
    AdmitKeepsInv(lim, r, q, t0, now);
    if Screen(r, q, t0).None? {
      AdmitMoves(lim, r, q, t0, now);
      AdmitKeepsClaims(lim, r, q, t0, now);
    }
  }

  /** Callers compute the key from their own scope. */
  predicate Proper(a: Action) {
    a.DoAdmit? && a.request.key.Some? ==> a.request.key.value.scope == a.request.caller
  }

  /** Every operation keeps the accounts exact and the caps, moves no terms, and ends exactly the claims it
      is entitled to end. */
  lemma StepEffects(lim: Limits, r: Reg, a: Action)
    requires Inv(lim, r) && Proper(a)
    ensures Effects(lim, r, Step(lim, r, a), a)
  {
    match a
    case DoAdmit(q, t0, now) => AdmitEffects(lim, r, q, t0, now);
    case DoLookup(key, caller, now) => LookupEffects(lim, r, key, caller, now);
    case DoClaim(key, caller, now) => ClaimEffects(lim, r, key, caller, now);
    case DoOwns(key, token, now) => OwnsEffects(lim, r, key, token, now);
    case DoRelease(key, token, mode, t0, now) => ReleaseEffects(lim, r, key, token, mode, t0, now);
    case DoEvict(key, cause, who, now) => EvictEffects(lim, r, key, cause, who, now);
    case DoTimer(key, id, now) => TimerEffects(lim, r, key, id, now);
    case DoSweep(now) => PurgeEffects(lim, r, (e: Entry) => Due(e, now), a);
    case DoEvictForAccount(account) =>
      if account == "" { QuietEffects(lim, r, r, a); }
      else { PurgeEffects(lim, r, Targets(Some(account), AccountRemoved), a); }
    case DoBeginDrain => DrainEffects(lim, r);
  }

  // ------------------------------------------------------------------
  // Admission safety
  // ------------------------------------------------------------------

  /** An entry that could have lived on is gone. */
  predicate Lost(r: Reg, r': Reg, x: Entry, now: int) {
    x in r.entries && Due(x, now).None? && x !in r'.entries
  }

  /** A refused admission deletes no entry that could still live; a successful one costs at most one
      unexpired entry, and never a claimed one. */
  lemma AdmitCosts(lim: Limits, r: Reg, q: Request, t0: int, now: int)
    requires Inv(lim, r) && (q.key.Some? ==> q.key.value.scope == q.caller)
    ensures var (r', why) := Admit(lim, r, q, t0, now);
            && (why.Some? ==> forall x :: !Lost(r, r', x, now))
            && (forall x, y :: Lost(r, r', x, now) && Lost(r, r', y, now) ==> x == y && x.own.Running?)
  {
    if Screen(r, q, t0).None? {
      var swept := Sweep(r, now);
      SweepKeepsInv(lim, r, now);
      SweptOutcome(lim, swept, NewEntry(lim, swept, q, now));
    }
  }

  /** The same-key entry belongs to another caller and would be superseded, the sizes fit, and the requester's own
      slots are all taken by claims. */
  ghost predicate SupersedesInVain(lim: Limits, swept: Reg, e: Entry) {
    var existing := FindKey(swept.entries, e.key);
    && existing.Some? && existing.value.own.Running? && existing.value.caller != e.caller
    && e.bytes <= lim.maxEntryBytes && swept.totalBytes - existing.value.bytes + e.bytes <= lim.maxTotalBytes
    && CallerCount(swept.entries, e.caller) >= lim.maxPerCaller
    && (forall x :: x in swept.entries && x.caller == e.caller ==> x.own.Claimed?)
  }

  /** With room overall a slot is refused exactly when the caller's own slots are all taken by claims. */
  lemma FreeSlotRefusesIff(lim: Limits, r: Reg, caller: string)
    requires Inv(lim, r) && |r.entries| < lim.maxEntries
    ensures FreeSlot(lim, r, caller).1 <==>
            (CallerCount(r.entries, caller) < lim.maxPerCaller || exists x :: x in r.entries && x.caller == caller && x.own.Running?)
  {
    var own := Oldest(r.entries, Some(caller));
    if own.Some? {
      DeleteKeepsInv(lim, r, own.value, Evicted(Capacity));
    }
  }

  /** Superseding leaves room overall, so only the requester's own cap can still refuse. */
  lemma ClearedRefusesIff(lim: Limits, swept: Reg, e: Entry, existing: Entry)
    requires Inv(lim, swept) && FindKey(swept.entries, e.key) == Some(existing) && existing.own.Running?
    ensures AdmitFitting(lim, Cleared(swept, e.key), e).1.Some? <==>
            (existing.caller != e.caller && CallerCount(swept.entries, e.caller) >= lim.maxPerCaller
             && (forall x :: x in swept.entries && x.caller == e.caller ==> x.own.Claimed?))
  {
    var cleared := Delete(swept, existing, Evicted(Superseded));
    ClearedKeepsInv(lim, swept, e.key);
    SumWithout(swept.entries, existing, (x: Entry) => if x.caller == e.caller then 1 else 0);
    DeleteKeepsInv(lim, swept, existing, Evicted(Superseded));
    assert CallerCount(swept.entries, e.caller) <= lim.maxPerCaller;
    FreeSlotRefusesIff(lim, cleared, e.caller);
  }

  /** Without the scope rule a refusal could destroy an entry, in exactly one way: the running entry of another caller
      is superseded before the requester's own cap refuses. */
  lemma RefusedAdmitLosesIff(lim: Limits, r: Reg, q: Request, t0: int, now: int)
    requires Inv(lim, r)
    ensures (Admit(lim, r, q, t0, now).1.Some? && exists x :: Lost(r, Admit(lim, r, q, t0, now).0, x, now))
            <==> Screen(r, q, t0).None? && SupersedesInVain(lim, Sweep(r, now), NewEntry(lim, Sweep(r, now), q, now))
  {
    if Screen(r, q, t0).None? {
      var swept := Sweep(r, now);
      var e := NewEntry(lim, swept, q, now);
      SweepKeepsInv(lim, r, now);
      ClearedKeepsInv(lim, swept, e.key);
      FittingOutcome(lim, Cleared(swept, e.key), e);
      var existing := FindKey(swept.entries, e.key);
      if existing.Some? && existing.value.own.Running? {
        ClearedRefusesIff(lim, swept, e, existing.value);
        if SupersedesInVain(lim, swept, e) {
          assert Lost(r, Admit(lim, r, q, t0, now).0, existing.value, now);
        }
      }
    }
  }

  /** A registry of two callers with one entry each, of one byte. */
  lemma TwoCallers(lim: Limits, r: Reg, a: Entry, b: Entry)
    requires r.entries == [a, b] && Apart(a, b) && a.caller == a.key.scope && b.caller == b.key.scope && a.caller != b.caller
    requires a.bytes == b.bytes == 1 && b.id < r.nextId && b.own.Running? && (a.own.Claimed? ==> a.own.token < r.nextToken)
    requires r.totalBytes == 2 && r.counters == multiset{Admitted, Admitted}
    requires lim.maxEntries >= 2 && lim.maxPerCaller >= 1 && lim.maxTotalBytes >= 2 && lim.maxEntryBytes >= 1
    ensures Inv(lim, r) && CallerCount(r.entries, a.caller) == 1
  {
    assert r.entries[1..] == [b] && [b][1..] == [];
    forall caller: string ensures CallerCount(r.entries, caller) == (if caller == a.caller then 1 else 0) + (if caller == b.caller then 1 else 0) {
      SumOfTwo(a, b, (e: Entry) => if e.caller == caller then 1 else 0);
    }
    SumOfTwo(a, b, (e: Entry) => e.bytes);
  }

  lemma SumOfTwo(a: Entry, b: Entry, weight: Entry -> nat)
    ensures Sum([a, b], weight) == weight(a) + weight(b)
  {
    assert [a, b][1..] == [b];
    assert Sum([b], weight) == weight(b) + Sum([b][1..], weight);
  }

  /** Such an admission: its caller holds one slot, which is claimed, and names the running entry of another. */
  lemma NamingAnotherLoses(lim: Limits, r: Reg, q: Request, mine: Entry, x: Entry)
    requires Inv(lim, r) && r.entries == [mine, x] && mine.own.Claimed? && x.own.Running? && mine.key != x.key && mine.caller != x.caller
    requires Due(mine, 0).None? && Due(x, 0).None? && Screen(r, q, 0).None?
    requires q.key == Some(x.key) && q.caller == mine.caller && CallerCount(r.entries, q.caller) >= lim.maxPerCaller
    requires var bytes := SnapshotBytes(q.snapshot.value, q.pinBytes);
             bytes <= lim.maxEntryBytes && r.totalBytes - x.bytes + bytes <= lim.maxTotalBytes
    ensures Admit(lim, r, q, 0, 0).1 == Some(OverEntries) && Lost(r, Admit(lim, r, q, 0, 0).0, x, 0)
  {
    NothingDue(r);
    var e := NewEntry(lim, r, q, 0);
    NamesAnother(lim, r, mine, x, e);
    LosesToVain(lim, r, e, x);
    LostInAdmission(lim, r, q, e, x);
  }

  lemma RefusedAdmitCanLose(frozen: Snapshot) returns (lim: Limits, r: Reg, q: Request, x: Entry)
    requires SettledSnapshot(Some(frozen)) && frozen.chunks == Some([])
    ensures Inv(lim, r) && Admit(lim, r, q, 0, 0).1 == Some(OverEntries) && Lost(r, Admit(lim, r, q, 0, 0).0, x, 0)
  {
    var mine := Entry(0, Key("a", "1"), "a", "account", frozen, 0, 1, 0, 9, 9, Claimed(0));
    x := Entry(1, Key("b", "2"), "b", "account", frozen, 0, 1, 0, 9, 9, Running);
    lim := Limits(9, 2, 1, 5000, 5000);
    r := Reg([mine, x], 2, false, multiset{Admitted, Admitted}, 2, 2);
    q := Request(Some(x.key), "a", "account", Some(frozen), Some(9), 0, true);
    assert mine.caller == "a" && x.caller == "b" && "a"[0] != "b"[0];
    TwoCallers(lim, r, mine, x);
    NamingAnotherLoses(lim, r, q, mine, x);
  }

  lemma LostInAdmission(lim: Limits, r: Reg, q: Request, e: Entry, x: Entry)
    requires Screen(r, q, 0).None? && Sweep(r, 0) == r && e == NewEntry(lim, r, q, 0)
    requires x in r.entries && Due(x, 0).None? && AdmitSwept(lim, r, e).1.Some? && x !in AdmitSwept(lim, r, e).0.entries
    ensures Admit(lim, r, q, 0, 0) == AdmitSwept(lim, r, e) && Lost(r, Admit(lim, r, q, 0, 0).0, x, 0)
  {
  }

  lemma NamesAnother(lim: Limits, r: Reg, mine: Entry, x: Entry, e: Entry)
    requires r.entries == [mine, x] && mine.own.Claimed? && x.own.Running? && mine.key != x.key && mine.caller != x.caller
    requires e.key == x.key && e.caller == mine.caller && CallerCount(r.entries, e.caller) >= lim.maxPerCaller
    requires e.bytes <= lim.maxEntryBytes && r.totalBytes - x.bytes + e.bytes <= lim.maxTotalBytes
    ensures SupersedesInVain(lim, r, e) && FindKey(r.entries, e.key) == Some(x)
  {
    assert r.entries[1..] == [x];
  }

  lemma LosesToVain(lim: Limits, r: Reg, e: Entry, x: Entry)
    requires Inv(lim, r) && SupersedesInVain(lim, r, e) && FindKey(r.entries, e.key) == Some(x)
    ensures AdmitSwept(lim, r, e).1 == Some(OverEntries) && x !in AdmitSwept(lim, r, e).0.entries
  {
    var cleared := Cleared(r, e.key);
    ClearedRefusesIff(lim, r, e, x);
    ClearedKeepsInv(lim, r, e.key);
    FittingOutcome(lim, cleared, e);
    assert x !in cleared.entries;
    assert AdmitSwept(lim, r, e) == AdmitFitting(lim, cleared, e);
  }

  lemma NothingDue(r: Reg)
    requires |r.entries| == 2 && Due(r.entries[0], 0).None? && Due(r.entries[1], 0).None?
    ensures Sweep(r, 0) == r
  {
    PurgeOfNone(r, r.entries, (e: Entry) => Due(e, 0));
  }

  // ------------------------------------------------------------------
  // Runs
  // ------------------------------------------------------------------

  function EndReg(lim: Limits, r: Reg, run: seq<Action>): Reg
    decreases |run|
  {
    if run == [] then r else EndReg(lim, Step(lim, r, run[0]), run[1..])
  }

  predicate ProperRun(run: seq<Action>) {
    forall k :: 0 <= k < |run| ==> Proper(run[k])
  }

  /** In every reachable state the byte account is the sum over the entries, every cap holds, and
      admissions are entries plus served plus evictions. */
  lemma {:induction false} RunKeepsInv(lim: Limits, r: Reg, run: seq<Action>)
    requires Inv(lim, r) && ProperRun(run)
    ensures Inv(lim, EndReg(lim, r, run)) && r.nextToken <= EndReg(lim, r, run).nextToken
    decreases |run|
  {
    if run != [] {
      StepEffects(lim, r, run[0]);
      RunKeepsInv(lim, Step(lim, r, run[0]), run[1..]);
    }
  }

  /** What this says of a registry that started out empty. */
  lemma {:induction false} ReachableIsAccounted(lim: Limits, run: seq<Action>, caller: string)
    requires ProperRun(run)
    ensures var r := EndReg(lim, EMPTY, run);
            && Inv(lim, r)
            && r.totalBytes == TotalBytes(r.entries) <= lim.maxTotalBytes
            && |r.entries| <= lim.maxEntries && CallerCount(r.entries, caller) <= lim.maxPerCaller
            && r.counters[Admitted] == |r.entries| + Gone(r.counters)
  {
    assert Inv(lim, EMPTY);
    RunKeepsInv(lim, EMPTY, run);
  }

  /** However often an entry is claimed and given back, its key, caller, account, expiry and deadline are
      those it was admitted with. */
  lemma {:induction false} TermsNeverMove(lim: Limits, r: Reg, run: seq<Action>)
    requires Inv(lim, r) && ProperRun(run)
    ensures forall e' :: e' in EndReg(lim, r, run).entries && e'.id < r.nextId ==>
              exists e :: e in r.entries && SameTerms(e, e')
    decreases |run|
  {
    if run == [] {
      assert forall e :: SameTerms(e, e);
    } else {
      var mid := Step(lim, r, run[0]);
      StepEffects(lim, r, run[0]);
      TermsNeverMove(lim, mid, run[1..]);
      forall e' | e' in EndReg(lim, r, run).entries && e'.id < r.nextId ensures exists e :: e in r.entries && SameTerms(e, e') {
        var m :| m in mid.entries && SameTerms(m, e');
        assert ComesFrom(r, m);
        if m !in r.entries {
          var e :| e in r.entries && SameTerms(e, m);
          assert SameTerms(e, e');
        }
      }
    }
  }

  /** None of the actions of a run ends the claim. */
  ghost predicate LeftAlone(lim: Limits, r: Reg, run: seq<Action>, e: Entry)
    requires e.own.Claimed?
    decreases |run|
  {
    run == [] || (!ClaimEnds(r, run[0], e) && LeftAlone(lim, Step(lim, r, run[0]), run[1..], e))
  }

  /** A claim lives on, entry and all, through any run that does not end it: TTL sweeps, other callers'
      admissions at capacity, supersede attempts and stale tokens included. */
  lemma {:induction false} ClaimSurvives(lim: Limits, r: Reg, run: seq<Action>, e: Entry)
    requires Inv(lim, r) && ProperRun(run) && e in r.entries && e.own.Claimed? && LeftAlone(lim, r, run, e)
    ensures e in EndReg(lim, r, run).entries
    ensures forall now :: now < e.deadline ==> Owns(EndReg(lim, r, run), e.key, e.own.token, now).1
    decreases |run|
  {
    if run == [] {
      FindKeyFinds(r.entries, e);
    } else {
      StepEffects(lim, r, run[0]);
      ClaimSurvives(lim, Step(lim, r, run[0]), run[1..], e);
    }
  }

  // ------------------------------------------------------------------
  // Tokens
  // ------------------------------------------------------------------

  /** The token was handed out and no claim carries it any more. */
  predicate Dead(r: Reg, token: nat) {
    token < r.nextToken && forall e :: e in r.entries ==> e.own != Claimed(token)
  }

  lemma {:induction false} DeadStaysDead(lim: Limits, r: Reg, run: seq<Action>, token: nat)
    requires Inv(lim, r) && ProperRun(run) && Dead(r, token)
    ensures Dead(EndReg(lim, r, run), token)
    decreases |run|
  {
    if run != [] {
      StepEffects(lim, r, run[0]);
      DeadStaysDead(lim, Step(lim, r, run[0]), run[1..], token);
    }
  }

  /** A dead token owns nothing and changes nothing, also when its key names a successor. */
  lemma DeadTokenIsPowerless(lim: Limits, r: Reg, key: Key, token: nat, mode: Mode, cause: Cause, t0: int, now: int)
    requires Dead(r, token)
    ensures Owns(r, key, token, now) == (r, false)
    ensures Release(lim, r, key, token, mode, t0, now) == (r, false)
    ensures Evict(r, key, cause, ByToken(token), now) == (r, false)
  {
  }

  /** Ownership that was lost, in whatever way, is never regained. */
  lemma {:induction false} LostOwnershipIsFinal(lim: Limits, r: Reg, a: Action, run: seq<Action>, e: Entry, now: int)
    requires Inv(lim, r) && Proper(a) && ProperRun(run) && e in r.entries && e.own.Claimed? && ClaimEnds(r, a, e)
    ensures !Owns(EndReg(lim, Step(lim, r, a), run), e.key, e.own.token, now).1
  {
    StepEffects(lim, r, a);
    ClaimEndsInDeath(lim, r, a, e);
    DeadStaysDead(lim, Step(lim, r, a), run, e.own.token);
  }

  lemma ClaimEndsInDeath(lim: Limits, r: Reg, a: Action, e: Entry)
    requires Inv(lim, r) && Proper(a) && e in r.entries && e.own.Claimed? && ClaimEnds(r, a, e)
    ensures Dead(Step(lim, r, a), e.own.token)
  {
    StepEffects(lim, r, a);
    forall x | x in Step(lim, r, a).entries ensures x.own != Claimed(e.own.token) {
      if x in r.entries { ApartMembers(r.entries, x, e); }
    }
  }

  /** The action is a release of `token` that reports the turn as served. */
  predicate Serves(lim: Limits, r: Reg, a: Action, token: nat) {
    a.DoRelease? && a.token == token && a.mode.ToServed? && Release(lim, r, a.key, token, a.mode, a.t0, a.now).1
  }

  function TimesServed(lim: Limits, r: Reg, run: seq<Action>, token: nat): nat
    decreases |run|
  {
    if run == [] then 0
    else (if Serves(lim, r, run[0], token) then 1 else 0) + TimesServed(lim, Step(lim, r, run[0]), run[1..], token)
  }

  lemma {:induction false} EachTokenServesOnce(lim: Limits, r: Reg, run: seq<Action>, token: nat)
    requires Inv(lim, r) && ProperRun(run)
    ensures TimesServed(lim, r, run, token) <= 1
    ensures Dead(r, token) ==> TimesServed(lim, r, run, token) == 0
    decreases |run|
  {
    if run != [] {
      StepEffects(lim, r, run[0]);
      EachTokenServesOnce(lim, Step(lim, r, run[0]), run[1..], token);
      if Dead(r, token) {
        DeadStaysDead(lim, r, [run[0]], token);
        assert EndReg(lim, r, [run[0]]) == Step(lim, r, run[0]);
      } else if Serves(lim, r, run[0], token) {
        ClaimEndsInDeath(lim, r, run[0], ClaimOf(r, run[0].key, token).value);
      }
    }
  }

  // ------------------------------------------------------------------
  // Observer-order independence
  // ------------------------------------------------------------------

  /** Who notices that a claim has outlived its deadline. */
  datatype Observer = ATimer | ASweep | ALookup | AnOwns | ARelease(mode: Mode, now: int) | AnEvict(cause: Cause)

  datatype Sighting = Sighting(who: Observer, at: int)

  function Observe(lim: Limits, r: Reg, e: Entry, s: Sighting): Reg
    requires e.own.Claimed?
  {
    match s.who
    case ATimer => TimerFires(r, e.key, e.id, s.at)
    case ASweep => Sweep(r, s.at)
    case ALookup => Lookup(r, e.key, e.caller, s.at).0
    case AnOwns => Owns(r, e.key, e.own.token, s.at).0
    case ARelease(mode, now) => Release(lim, r, e.key, e.own.token, mode, s.at, now).0
    case AnEvict(cause) => Evict(r, e.key, cause, ByToken(e.own.token), s.at).0
  }

  function ObserveAll(lim: Limits, r: Reg, e: Entry, seen: seq<Sighting>): Reg
    requires e.own.Claimed?
    decreases |seen|
  {
    if seen == [] then r else ObserveAll(lim, Observe(lim, r, e, seen[0]), e, seen[1..])
  }

  /** Everything but the count of lookups that missed. */
  function Core(r: Reg): Reg {
    r.(counters := r.counters[LookupMiss := 0])
  }

  /** Besides `e`, nothing is due up to `horizon`. */
  predicate OnlyDue(es: seq<Entry>, e: Entry, horizon: int) {
    forall x :: x in es && x != e ==> Due(x, horizon).None?
  }

  lemma {:induction false} PurgeOfOne(r: Reg, todo: seq<Entry>, verdict: Entry -> Option<Cause>, e: Entry)
    requires AllApart(todo) && forall x :: x in todo && x != e ==> verdict(x).None?
    ensures Purge(r, todo, verdict) ==
            if e in todo && verdict(e).Some? then Delete(r, e, Evicted(verdict(e).value)) else r
    decreases |todo|
  {
    if todo != [] {
      if todo[0] == e {
        PurgeOfNone(if verdict(e).Some? then Delete(r, e, Evicted(verdict(e).value)) else r, todo[1..], verdict);
      } else {
        PurgeOfOne(r, todo[1..], verdict, e);
      }
    }
  }

  lemma {:induction false} PurgeOfNone(r: Reg, todo: seq<Entry>, verdict: Entry -> Option<Cause>)
    requires forall x :: x in todo ==> verdict(x).None?
    ensures Purge(r, todo, verdict) == r
    decreases |todo|
  {
    if todo != [] {
      PurgeOfNone(r, todo[1..], verdict);
    }
  }

  /** What purging leaves of a list, and what it counts. */
  function Kept(es: seq<Entry>, verdict: Entry -> Option<Cause>): seq<Entry> {
    if es == [] then []
    else if verdict(es[0]).Some? then Kept(es[1..], verdict)
    else [es[0]] + Kept(es[1..], verdict)
  }

  function Outcomes(es: seq<Entry>, verdict: Entry -> Option<Cause>): multiset<Counter> {
    if es == [] then multiset{}
    else (if verdict(es[0]).Some? then multiset{Evicted(verdict(es[0]).value)} else multiset{}) + Outcomes(es[1..], verdict)
  }

  function Purged(r: Reg, verdict: Entry -> Option<Cause>): Reg {
    var es := Kept(r.entries, verdict);
    r.(entries := es, totalBytes := TotalBytes(es), counters := r.counters + Outcomes(r.entries, verdict))
  }

  lemma {:induction false} WithoutOne(done: seq<Entry>, x: Entry, rest: seq<Entry>)
    requires AllApart(done + [x] + rest)
    ensures Without(done + [x] + rest, x.id) == done + rest
    decreases |done|
  {
    var all := done + [x] + rest;
    if done == [] {
      assert all[1..] == rest;
      WithoutAbsent(rest, x.id);
    } else {
      assert all[1..] == done[1..] + [x] + rest;
      assert Apart(all[0], x);
      WithoutOne(done[1..], x, rest);
    }
  }

  lemma {:induction false} DeleteOfOne(r: Reg, done: seq<Entry>, x: Entry, rest: seq<Entry>, c: Counter)
    requires r.entries == done + [x] + rest && AllApart(r.entries) && r.totalBytes == TotalBytes(r.entries)
    ensures AllApart(done + rest)
    ensures Delete(r, x, c) == r.(entries := done + rest, totalBytes := TotalBytes(done + rest), counters := r.counters + multiset{c})
  {
    assert r.entries[|done|] == x;
    WithoutOne(done, x, rest);
    WithoutKeepsApart(r.entries, x.id);
    SumWithout(r.entries, x, (y: Entry) => y.bytes);
  }

  lemma Regroup(a: seq<Entry>, x: Entry, b: seq<Entry>)
    ensures a + [x] + b == a + ([x] + b)
  {
  }

  lemma OneMoreOutcome(counters: multiset<Counter>, x: Entry, rest: seq<Entry>, verdict: Entry -> Option<Cause>)
    requires verdict(x).Some?
    ensures counters + multiset{Evicted(verdict(x).value)} + Outcomes(rest, verdict) == counters + Outcomes([x] + rest, verdict)
  {
    assert ([x] + rest)[1..] == rest;
  }

  /** Purging one by one is filtering, with one count for each entry that goes. */
  lemma {:induction false} PurgeFilters(r: Reg, done: seq<Entry>, todo: seq<Entry>, verdict: Entry -> Option<Cause>)
    requires r.entries == done + todo && AllApart(r.entries) && r.totalBytes == TotalBytes(r.entries)
    ensures Purge(r, todo, verdict) ==
            r.(entries := done + Kept(todo, verdict), totalBytes := TotalBytes(done + Kept(todo, verdict)),
               counters := r.counters + Outcomes(todo, verdict))
    decreases |todo|
  {
    if todo != [] {
      var x, rest := todo[0], todo[1..];
      assert r.entries == done + [x] + rest;
      if verdict(x).Some? {
        var c := Evicted(verdict(x).value);
        var d := Delete(r, x, c);
        DeleteOfOne(r, done, x, rest, c);
        PurgeFilters(d, done, rest, verdict);
        OneMoreOutcome(r.counters, x, rest, verdict);
      } else {
        var more := done + [x];
        PurgeFilters(r, more, rest, verdict);
        Regroup(done, x, Kept(rest, verdict));
      }
    }
  }

  lemma {:induction false} PurgeIsPurged(r: Reg, verdict: Entry -> Option<Cause>)
    requires AllApart(r.entries) && r.totalBytes == TotalBytes(r.entries)
    ensures Purge(r, r.entries, verdict) == Purged(r, verdict)
  {
    assert [] + r.entries == r.entries && [] + Kept(r.entries, verdict) == Kept(r.entries, verdict);
    PurgeFilters(r, [], r.entries, verdict);
  }

  /** The first verdict stands; the second is asked about what the first spares. */
  function Then(v: Entry -> Option<Cause>, w: Entry -> Option<Cause>): Entry -> Option<Cause> {
    (x: Entry) => if v(x).Some? then v(x) else w(x)
  }

  lemma {:induction false} KeptTwice(es: seq<Entry>, v: Entry -> Option<Cause>, w: Entry -> Option<Cause>)
    ensures Kept(Kept(es, v), w) == Kept(es, Then(v, w))
    ensures Outcomes(es, v) + Outcomes(Kept(es, v), w) == Outcomes(es, Then(v, w))
    ensures Outcomes(es, v)[LookupMiss] == 0
    decreases |es|
  {
    if es != [] {
      KeptTwice(es[1..], v, w);
      var rest := Kept(es[1..], v);
      assert ([es[0]] + rest)[1..] == rest;
    }
  }

  lemma {:induction false} KeptHas(es: seq<Entry>, v: Entry -> Option<Cause>, x: Entry)
    ensures x in Kept(es, v) <==> x in es && v(x).None?
    decreases |es|
  {
    if es != [] {
      KeptHas(es[1..], v, x);
      var rest := Kept(es[1..], v);
      assert x in [es[0]] + rest <==> x == es[0] || x in rest;
      assert x in es <==> x == es[0] || x in es[1..];
    }
  }

  lemma {:induction false} SameFate(es: seq<Entry>, v: Entry -> Option<Cause>, w: Entry -> Option<Cause>)
    requires forall x :: x in es ==> v(x) == w(x)
    ensures Kept(es, v) == Kept(es, w) && Outcomes(es, v) == Outcomes(es, w)
    decreases |es|
  {
    if es != [] {
      SameFate(es[1..], v, w);
    }
  }

  /** What one observer of the overdue claim `e` takes out: the claim, and for a sweep whatever else is due. */
  function Verdict(e: Entry, s: Sighting): Entry -> Option<Cause> {
    (x: Entry) => if x == e || s.who.ASweep? then Due(x, s.at) else None
  }

  /** The fate of every entry under a row of observers. */
  function Fate(e: Entry, seen: seq<Sighting>): Entry -> Option<Cause> {
    if seen == [] then (x: Entry) => None else Then(Verdict(e, seen[0]), Fate(e, seen[1..]))
  }

  /** The claim is there, or its key is free. */
  ghost predicate ThereOrFree(r: Reg, e: Entry) {
    e in r.entries || FindKey(r.entries, e.key).None?
  }

  lemma SweepPurges(r: Reg, now: int, v: Entry -> Option<Cause>)
    requires forall x :: v(x) == Due(x, now)
    requires AllApart(r.entries) && r.totalBytes == TotalBytes(r.entries)
    ensures Sweep(r, now) == Purged(r, v)
  {
    var due := (x: Entry) => Due(x, now);
    PurgeIsPurged(r, due);
    SameFate(r.entries, due, v);
  }

  /** Every observer but the sweep deletes the claim if it is there, and nothing else. */
  lemma OwnerSees(lim: Limits, r: Reg, e: Entry, s: Sighting, d: Reg)
    requires FindKey(r.entries, e.key) == Some(e) && d == Delete(r, e, Evicted(Deadline))
    requires e.own.Claimed? && e.deadline <= s.at && !s.who.ASweep?
    ensures Core(Observe(lim, r, e, s)) == Core(d)
  {
    assert ClaimOf(r, e.key, e.own.token) == Some(e);
  }

  lemma NobodySees(lim: Limits, r: Reg, e: Entry, s: Sighting)
    requires FindKey(r.entries, e.key).None? && e.own.Claimed? && !s.who.ASweep?
    ensures Core(Observe(lim, r, e, s)) == Core(r)
  {
  }

  /** Lookups that missed do not count in the invariant. */
  lemma InvUpToMisses(lim: Limits, r: Reg, r': Reg)
    requires Inv(lim, r) && Core(r) == Core(r')
    ensures Inv(lim, r')
  {
    assert Core(r).entries == r.entries && Core(r').entries == r'.entries;
    assert Core(r).totalBytes == r.totalBytes && Core(r').totalBytes == r'.totalBytes;
    assert Core(r).nextId == r.nextId && Core(r').nextId == r'.nextId;
    assert Core(r).nextToken == r.nextToken && Core(r').nextToken == r'.nextToken;
    forall c | c != LookupMiss ensures r.counters[c] == r'.counters[c] {
      assert Core(r).counters[c] == Core(r').counters[c];
    }
  }

  /** What one observer leaves. */
  lemma ObserverLeaves(lim: Limits, r: Reg, e: Entry, s: Sighting, d: Reg)
    requires Inv(lim, r) && e.own.Claimed? && e.deadline <= s.at && ThereOrFree(r, e)
    requires d == if s.who.ASweep? then Sweep(r, s.at) else if e in r.entries then Delete(r, e, Evicted(Deadline)) else r
    ensures Core(Observe(lim, r, e, s)) == Core(d) && Inv(lim, Observe(lim, r, e, s))
  {
    if s.who.ASweep? {
      SweepKeepsInv(lim, r, s.at);
    } else if e in r.entries {
      FindKeyFinds(r.entries, e);
      DeleteKeepsInv(lim, r, e, Evicted(Deadline));
      OwnerSees(lim, r, e, s, d);
    } else {
      NobodySees(lim, r, e, s);
    }
    InvUpToMisses(lim, d, Observe(lim, r, e, s));
  }

  lemma ObserverPurges(lim: Limits, r: Reg, e: Entry, s: Sighting)
    requires Inv(lim, r) && e.own.Claimed? && e.deadline <= s.at && ThereOrFree(r, e)
    ensures Core(Observe(lim, r, e, s)) == Core(Purged(r, Verdict(e, s)))
    ensures Inv(lim, Observe(lim, r, e, s)) && ThereOrFree(Observe(lim, r, e, s), e)
  {
    var v, r' := Verdict(e, s), Observe(lim, r, e, s);
    var d := if s.who.ASweep? then Sweep(r, s.at) else if e in r.entries then Delete(r, e, Evicted(Deadline)) else r;
    ObserverLeaves(lim, r, e, s, d);
    if s.who.ASweep? {
      SweepPurges(r, s.at, v);
    } else {
      PurgeIsPurged(r, v);
      PurgeOfOne(r, r.entries, v, e);
    }
    assert r'.entries == Core(r').entries == Purged(r, v).entries;
    KeyStaysFree(r, e, v, r');
  }

  lemma KeyStaysFree(r: Reg, e: Entry, v: Entry -> Option<Cause>, r': Reg)
    requires AllApart(r.entries) && ThereOrFree(r, e) && r'.entries == Kept(r.entries, v)
    ensures ThereOrFree(r', e)
  {
    var found := FindKey(r'.entries, e.key);
    if found.Some? {
      KeptHas(r.entries, v, found.value);
      KeptHas(r.entries, v, e);
      if e in r.entries {
        ApartMembers(r.entries, found.value, e);
      }
    }
  }

  /** Whatever else is due: observers of an overdue claim leave exactly the registry in which every entry has met
      its fate, the claim its deadline and everything else the first sweep that found it due. */
  lemma {:induction false} ObserversMeetFate(lim: Limits, r: Reg, e: Entry, seen: seq<Sighting>)
    requires Inv(lim, r) && e.own.Claimed? && ThereOrFree(r, e)
    requires forall k :: 0 <= k < |seen| ==> e.deadline <= seen[k].at
    ensures Core(ObserveAll(lim, r, e, seen)) == Core(Purged(r, Fate(e, seen)))
    ensures Inv(lim, ObserveAll(lim, r, e, seen))
    decreases |seen|
  {
    var fate := Fate(e, seen);
    if seen == [] {
      NothingPurged(r, fate);
    } else {
      var v, w := Verdict(e, seen[0]), Fate(e, seen[1..]);
      var r1 := Observe(lim, r, e, seen[0]);
      ObserverPurges(lim, r, e, seen[0]);
      ObserversMeetFate(lim, r1, e, seen[1..]);
      KeptTwice(r.entries, v, w);
      KeptTwice(r1.entries, w, w);
      PurgedTwice(r, r1, v, w);
    }
  }

  lemma NothingPurged(r: Reg, v: Entry -> Option<Cause>)
    requires r.totalBytes == TotalBytes(r.entries) && forall x :: v(x).None?
    ensures Purged(r, v) == r
  {
    var none := (x: Entry) => None;
    assert forall x :: v(x) == none(x);
    KeepsAll(r.entries, v);
  }

  lemma {:induction false} KeepsAll(es: seq<Entry>, v: Entry -> Option<Cause>)
    requires forall x :: x in es ==> v(x).None?
    ensures Kept(es, v) == es && Outcomes(es, v) == multiset{}
    decreases |es|
  {
    if es != [] {
      var rest := es[1..];
      KeepsAll(rest, v);
      assert es == [es[0]] + rest;
    }
  }

  lemma PurgedTwice(r: Reg, r1: Reg, v: Entry -> Option<Cause>, w: Entry -> Option<Cause>)
    requires Core(r1) == Core(Purged(r, v))
    requires Kept(Kept(r.entries, v), w) == Kept(r.entries, Then(v, w))
    requires Outcomes(r.entries, v) + Outcomes(Kept(r.entries, v), w) == Outcomes(r.entries, Then(v, w))
    ensures Core(Purged(r1, w)) == Core(Purged(r, Then(v, w)))
  {
    assert r1.entries == Core(r1).entries == Kept(r.entries, v);
    var a, b := Purged(r1, w), Purged(r, Then(v, w));
    forall c ensures Core(a).counters[c] == Core(b).counters[c] {
      assert Core(r1).counters[c] == Core(Purged(r, v)).counters[c];
    }
    assert Core(a).counters == Core(b).counters;
    assert Core(r1).draining == r1.draining && Core(r1).nextId == r1.nextId && Core(r1).nextToken == r1.nextToken;
  }

  predicate SweptDue(seen: seq<Sighting>, x: Entry) {
    exists k :: 0 <= k < |seen| && seen[k].who.ASweep? && Due(x, seen[k].at).Some?
  }

  lemma {:induction false} FateOf(e: Entry, seen: seq<Sighting>, x: Entry)
    ensures Fate(e, seen)(x).Some? <==>
            SweptDue(seen, x) || (x == e && exists k :: 0 <= k < |seen| && Due(e, seen[k].at).Some?)
    ensures x == e && e.own.Claimed? && Fate(e, seen)(x).Some? ==> Fate(e, seen)(x) == Some(Deadline)
    decreases |seen|
  {
    if seen != [] {
      var rest := seen[1..];
      FateOf(e, rest, x);
      assert forall k :: 0 <= k < |rest| ==> rest[k] == seen[k + 1];
      if SweptDue(seen, x) {
        var k :| 0 <= k < |seen| && seen[k].who.ASweep? && Due(x, seen[k].at).Some?;
        assert k == 0 || seen[k] == rest[k - 1];
      }
      if x == e && exists k :: 0 <= k < |seen| && Due(e, seen[k].at).Some? {
        var k :| 0 <= k < |seen| && Due(e, seen[k].at).Some?;
        assert k == 0 || seen[k] == rest[k - 1];
      }
    }
  }

  lemma {:induction false} OutcomesServeNobody(es: seq<Entry>, v: Entry -> Option<Cause>)
    ensures Outcomes(es, v)[Served] == 0
    decreases |es|
  {
    if es != [] {
      OutcomesServeNobody(es[1..], v);
    }
  }

  /** What happens to the claim itself does not depend on who else is due: it goes, by its deadline, unserved, and its
      token is dead. Of the others exactly those go that some sweep finds due. */
  lemma {:induction false} ObservedClaimGoes(lim: Limits, r: Reg, e: Entry, seen: seq<Sighting>)
    requires Inv(lim, r) && e in r.entries && e.own.Claimed? && seen != []
    requires forall k :: 0 <= k < |seen| ==> e.deadline <= seen[k].at
    ensures var end := ObserveAll(lim, r, e, seen);
            && Inv(lim, end) && Dead(end, e.own.token)
            && Fate(e, seen)(e) == Some(Deadline)
            && end.counters[Served] == r.counters[Served]
            && (forall x :: x in end.entries <==> x in r.entries && x != e && !SweptDue(seen, x))
  {
    var end := ObserveAll(lim, r, e, seen);
    ObserversMeetFate(lim, r, e, seen);
    assert Core(end).entries == end.entries == Kept(r.entries, Fate(e, seen));
    assert Core(end).counters[Served] == end.counters[Served];
    OutcomesServeNobody(r.entries, Fate(e, seen));
    FateOf(e, seen, e);
    assert Due(e, seen[0].at).Some?;
    forall x ensures x in end.entries <==> x in r.entries && x != e && !SweptDue(seen, x) {
      KeptHas(r.entries, Fate(e, seen), x);
      FateOf(e, seen, x);
    }
    assert end.nextToken == Core(end).nextToken == r.nextToken;
    forall x | x in end.entries ensures x.own != Claimed(e.own.token) {
      ApartMembers(r.entries, x, e);
    }
  }

  /** When no sweep finds a bystander due, the claim is deleted and that is all. */
  lemma {:induction false} OnlyTheClaimGoes(lim: Limits, r: Reg, e: Entry, seen: seq<Sighting>)
    requires Inv(lim, r) && e in r.entries && e.own.Claimed? && seen != []
    requires forall k :: 0 <= k < |seen| ==> e.deadline <= seen[k].at
    requires forall x :: x in r.entries && x != e ==> !SweptDue(seen, x)
    ensures Core(ObserveAll(lim, r, e, seen)) == Core(Delete(r, e, Evicted(Deadline)))
  {
    var v := (x: Entry) => if x == e then Some(Deadline) else None;
    ObserversMeetFate(lim, r, e, seen);
    forall x | x in r.entries ensures Fate(e, seen)(x) == v(x) {
      FateOf(e, seen, x);
      assert x == e ==> Due(e, seen[0].at).Some?;
    }
    SameFate(r.entries, Fate(e, seen), v);
    PurgeIsPurged(r, v);
    PurgeOfOne(r, r.entries, v, e);
  }

  /** Observers that do not sweep leave everybody else alone, whoever else is due. */
  lemma {:induction false} OthersDoNotSweep(lim: Limits, r: Reg, e: Entry, seen: seq<Sighting>)
    requires Inv(lim, r) && e in r.entries && e.own.Claimed? && seen != []
    requires forall k :: 0 <= k < |seen| ==> e.deadline <= seen[k].at && !seen[k].who.ASweep?
    ensures Core(ObserveAll(lim, r, e, seen)) == Core(Delete(r, e, Evicted(Deadline)))
  {
    OnlyTheClaimGoes(lim, r, e, seen);
  }

  /** Once a claim is past its deadline, any observers, in any order and number but at least one, leave the
      same entries, bytes and counters: the claim is evicted once, by its deadline, and never served. */
  lemma {:induction false} ObserverOrderIndependence(lim: Limits, r: Reg, e: Entry, seen: seq<Sighting>, horizon: int)
    requires Inv(lim, r) && e in r.entries && e.own.Claimed? && seen != []
    requires forall k :: 0 <= k < |seen| ==> e.deadline <= seen[k].at <= horizon
    requires OnlyDue(r.entries, e, horizon)
    ensures var end := Core(ObserveAll(lim, r, e, seen));
            && end == Core(Delete(r, e, Evicted(Deadline)))
            && end.counters[Evicted(Deadline)] == r.counters[Evicted(Deadline)] + 1
            && end.counters[Served] == r.counters[Served]
            && end.totalBytes == r.totalBytes - e.bytes
            && (forall x :: x in end.entries <==> x in r.entries && x != e)
  {
    OnlyTheClaimGoes(lim, r, e, seen);
    DeleteKeepsInv(lim, r, e, Evicted(Deadline));
    var end := Core(ObserveAll(lim, r, e, seen));
    assert end.entries == Delete(r, e, Evicted(Deadline)).entries;
  }

  predicate Sightings(e: Entry, seen: seq<Sighting>, horizon: int) {
    seen != [] && forall k :: 0 <= k < |seen| ==> e.deadline <= seen[k].at <= horizon
  }

  ghost predicate ObserversAgree(lim: Limits, r: Reg, e: Entry, horizon: int)
    requires e.own.Claimed?
  {
    forall a, b :: Sightings(e, a, horizon) && Sightings(e, b, horizon) ==>
      Core(ObserveAll(lim, r, e, a)) == Core(ObserveAll(lim, r, e, b))
  }

  /** The pair that disagrees when a bystander is due: its owner asking, and a sweep, both at the horizon. */
  lemma {:induction false} OwnerAndSweepDisagree(lim: Limits, r: Reg, e: Entry, horizon: int, x: Entry)
    requires Inv(lim, r) && e in r.entries && e.own.Claimed? && e.deadline <= horizon
    requires x in r.entries && x != e && Due(x, horizon).Some?
    ensures x in ObserveAll(lim, r, e, [Sighting(AnOwns, horizon)]).entries
    ensures x !in ObserveAll(lim, r, e, [Sighting(ASweep, horizon)]).entries
  {
    var a, b := [Sighting(AnOwns, horizon)], [Sighting(ASweep, horizon)];
    ObservedClaimGoes(lim, r, e, a);
    ObservedClaimGoes(lim, r, e, b);
    assert b[0].who.ASweep? && Due(x, b[0].at).Some?;
  }

  /** Exactly when the order and choice of observers do not matter: when nothing but the claim is due by the horizon. */
  lemma ObserversAgreeIff(lim: Limits, r: Reg, e: Entry, horizon: int)
    requires Inv(lim, r) && e in r.entries && e.own.Claimed? && e.deadline <= horizon
    ensures OnlyDue(r.entries, e, horizon) <==> ObserversAgree(lim, r, e, horizon)
  {
    if OnlyDue(r.entries, e, horizon) {
      forall a, b | Sightings(e, a, horizon) && Sightings(e, b, horizon)
        ensures Core(ObserveAll(lim, r, e, a)) == Core(ObserveAll(lim, r, e, b))
      {
        ObserverOrderIndependence(lim, r, e, a, horizon);
        ObserverOrderIndependence(lim, r, e, b, horizon);
      }
    } else {
      var x :| x in r.entries && x != e && Due(x, horizon).Some?;
      var a, b := [Sighting(AnOwns, horizon)], [Sighting(ASweep, horizon)];
      OwnerAndSweepDisagree(lim, r, e, horizon, x);
      assert Sightings(e, a, horizon) && Sightings(e, b, horizon);
      assert Core(ObserveAll(lim, r, e, a)).entries != Core(ObserveAll(lim, r, e, b)).entries;
    }
  }

  /** Even among sweeps: a bystander whose deadline comes before its expiry is counted by whichever bound the
      sweep that finds it happens to come after. */
  lemma SweepTimeDecidesCause(r: Reg, x: Entry, t1: int, t2: int)
    requires r.entries == [x] && x.own.Running? && x.deadline <= t1 < x.expiresAt <= t2
    ensures Sweep(r, t1).counters == r.counters + multiset{Evicted(Deadline)}
    ensures Sweep(r, t2).counters == r.counters + multiset{Evicted(Ttl)}
  {
    assert r.entries[0] == x;
    PurgeOfOne(r, r.entries, (y: Entry) => Due(y, t1), x);
    PurgeOfOne(r, r.entries, (y: Entry) => Due(y, t2), x);
  }
}
