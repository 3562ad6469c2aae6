/** What every operation on an admitted entry answers, and on what terms a request is kept through any run. */
module DetachedTurnAnswers {
  import opened Prelude
  import CascadeTurns
  import opened DetachedTurns
  import opened DetachedTurnRuns
  import opened DetachedTurnTerms

  // ------------------------------------------------------------------
  // Single operations
  // ------------------------------------------------------------------

  /** A lookup finds exactly the live entry under the key, and only for its own caller; it moves no entry that is alive, and
      deletes the one it was asked for when that is due. */
  lemma LookupFindsIff(lim: Limits, r: Reg, key: Key, caller: string, now: int, e: Entry)
    requires Inv(lim, r)
    ensures var (r', found) := Lookup(r, key, caller, now);
            && (found == Some(e) <==> Holds(r, key, now, e) && e.caller == caller)
            && (e in r'.entries <==> e in r.entries && !(e.key == key && e.caller == caller && !Lives(e, now)))
            && r'.counters[LookupHit] == r.counters[LookupHit] + (if found.Some? then 1 else 0)
            && r'.counters[LookupMiss] == r.counters[LookupMiss] + (if found.Some? then 0 else 1)
  {
    var at := FindKey(r.entries, key);
    if at.Some? {
      KeyIsUnique(r, at.value);
      if Due(at.value, now).Some? {
        DeleteKeepsInv(lim, r, at.value, Evicted(Due(at.value, now).value));
      }
    }
  }

  /** A claim is granted exactly on a running, live entry of the same caller. */
  lemma ClaimGrantsIff(lim: Limits, r: Reg, key: Key, caller: string, now: int, e: Entry)
    requires Inv(lim, r) && e in r.entries && e.key == key
    ensures Claim(r, key, caller, now).1.Ok? <==> e.own.Running? && e.caller == caller && Lives(e, now)
  {
    FindKeyFinds(r.entries, e);
  }

  lemma {:induction false} ClaimShape(r: Reg, key: Key, caller: string, now: int, e: Entry, r': Reg, e': Entry)
    requires FindKey(r.entries, key) == Some(e) && e.caller == caller && e.own.Running? && !(e.expiresAt <= now) && !(e.deadline <= now)
    requires e' == e.(own := Claimed(r.nextToken)) && r' == Claim(r, key, caller, now).0
    ensures r'.entries == Replace(r.entries, e')
    ensures r'.counters == r.counters + multiset{ClaimOk}
    ensures r'.nextToken == r.nextToken + 1 && r'.nextId == r.nextId && r'.totalBytes == r.totalBytes
    ensures Claim(r, key, caller, now).1 == Ok(e')
  {
  }

  /** A granted claim replaces one entry by itself with an owner. */
  lemma GrantedClaim(lim: Limits, r: Reg, key: Key, caller: string, now: int, e: Entry, r': Reg, e': Entry)
    requires Inv(lim, r) && FindKey(r.entries, key) == Some(e) && Claim(r, key, caller, now).1.Ok? && e' == e.(own := Claimed(r.nextToken))
    requires r' == Claim(r, key, caller, now).0
    ensures Inv(lim, r') && Claim(r, key, caller, now).1 == Ok(e')
    ensures forall x :: x in r'.entries <==> x == e' || (x in r.entries && x != e)
    ensures r'.nextToken == r.nextToken + 1 && r'.counters == r.counters + multiset{ClaimOk}
  {
    ClaimGrantsIff(lim, r, key, caller, now, e);
    ClaimShape(r, key, caller, now, e, r', e');
    ReplaceKeepsInv(lim, r, e, e', r', ClaimOk);
  }

  /** What it hands out is that entry as it was stored, under a token that no entry has ever had. */
  lemma ClaimHandsOut(lim: Limits, r: Reg, key: Key, caller: string, now: int, e: Entry)
    requires Inv(lim, r) && e in r.entries && e.key == key && Claim(r, key, caller, now).1.Ok?
    ensures var (r', got) := Claim(r, key, caller, now);
            && got.value == e.(own := Claimed(r.nextToken)) && r'.nextToken == r.nextToken + 1
            && Inv(lim, r') && FindKey(r'.entries, key) == Some(got.value) && Owns(r', key, r.nextToken, now) == (r', true)
            && r'.counters == r.counters + multiset{ClaimOk}
  {
    var e', r' := e.(own := Claimed(r.nextToken)), Claim(r, key, caller, now).0;
    FindKeyFinds(r.entries, e);
    ClaimGrantsIff(lim, r, key, caller, now, e);
    GrantedClaim(lim, r, key, caller, now, e, r', e');
    FindKeyFinds(r'.entries, e');
  }

  lemma RefusedClaimLeaves(r: Reg, key: Key, caller: string, now: int)
    requires Claim(r, key, caller, now).1.Err?
    ensures var found := FindKey(r.entries, key);
            Claim(r, key, caller, now).0.entries ==
            if found.Some? && found.value.caller == caller && found.value.own.Running?
            then Delete(r, found.value, Evicted(if found.value.expiresAt <= now then Ttl else Deadline)).entries else r.entries
  {
  }

  /** A claim that comes too late takes the entry with it; any other refusal leaves the entries alone. */
  lemma RefusedClaimTakes(lim: Limits, r: Reg, key: Key, caller: string, now: int, x: Entry)
    requires Inv(lim, r) && x in r.entries && Claim(r, key, caller, now).1.Err?
    ensures x in Claim(r, key, caller, now).0.entries <==> !(x.key == key && x.caller == caller && x.own.Running? && !Lives(x, now))
  {
    RefusedClaimLeaves(r, key, caller, now);
    var found := FindKey(r.entries, key);
    if found.Some? {
      KeyIsUnique(r, found.value);
      ClaimGrantsIff(lim, r, key, caller, now, found.value);
      DeleteKeepsInv(lim, r, found.value, Evicted(if found.value.expiresAt <= now then Ttl else Deadline));
    }
  }

  /** Why a claim is refused. */
  lemma ClaimRefusesFor(lim: Limits, r: Reg, key: Key, caller: string, now: int)
    requires Inv(lim, r)
    ensures var why := Claim(r, key, caller, now).1;
            && (why == Err(ClaimGone) <==> !exists e :: e in r.entries && e.key == key && e.caller == caller)
            && (why == Err(ClaimBusy) <==> exists e :: e in r.entries && e.key == key && e.caller == caller && e.own.Claimed?)
            && (why == Err(ClaimTtl) <==> exists e :: e in r.entries && e.key == key && e.caller == caller && e.own.Running? && e.expiresAt <= now)
            && (why == Err(ClaimDeadline) <==>
                  exists e :: e in r.entries && e.key == key && e.caller == caller && e.own.Running? && now < e.expiresAt && e.deadline <= now)
  {
    var at := FindKey(r.entries, key);
    if at.Some? {
      KeyIsUnique(r, at.value);
    }
  }

  lemma OwnsIff(lim: Limits, r: Reg, key: Key, token: nat, now: int)
    requires Inv(lim, r)
    ensures Owns(r, key, token, now).1 <==> exists e :: e in r.entries && e.key == key && e.own == Claimed(token) && now < e.deadline
  {
    ClaimIsUnique(lim, r, key, token);
  }

  /** A claim is served exactly once by its own token before the deadline, and with that its entry is gone. */
  lemma ServesIff(lim: Limits, r: Reg, key: Key, token: nat, t0: int, now: int)
    requires Inv(lim, r)
    ensures var (r', ok) := Release(lim, r, key, token, ToServed, t0, now);
            && (ok <==> exists e :: e in r.entries && e.key == key && e.own == Claimed(token) && t0 < e.deadline)
            && (ok ==> FindKey(r'.entries, key).None? && r'.counters[Served] == r.counters[Served] + 1)
  {
    ClaimIsUnique(lim, r, key, token);
    var claim := ClaimOf(r, key, token);
    if claim.Some? {
      KeyIsUnique(r, claim.value);
      DeleteKeepsInv(lim, r, claim.value, Served);
    }
  }

  /** A claim is given back exactly under a settled snapshot that fits, in time for both bounds. */
  lemma GivesBackIff(lim: Limits, r: Reg, key: Key, token: nat, snapshot: Option<CascadeTurns.Snapshot>, t0: int, now: int, e: Entry)
    requires Inv(lim, r) && e in r.entries && e.key == key && e.own == Claimed(token)
    ensures Release(lim, r, key, token, ToRunning(snapshot), t0, now).1 <==>
              && t0 < e.deadline && now < e.expiresAt && SettledSnapshot(snapshot)
              && BytesOf(CascadeTurns.GetOr(snapshot.value.chunks, []), e.pinBytes) <= lim.maxEntryBytes
              && r.totalBytes - e.bytes + BytesOf(CascadeTurns.GetOr(snapshot.value.chunks, []), e.pinBytes) <= lim.maxTotalBytes
  {
    FindKeyFinds(r.entries, e);
    if SettledSnapshot(snapshot) {
      SnapshotWeighs(snapshot.value, e.pinBytes);
    }
  }

  /** From then on it is running with that snapshot: what the next claimant in time is handed. */
  lemma GivenBackIsHandedOut(lim: Limits, r: Reg, key: Key, token: nat, snapshot: Option<CascadeTurns.Snapshot>, t0: int, now: int, e: Entry, at: int)
    requires Inv(lim, r) && e in r.entries && e.key == key && e.own == Claimed(token) && at < e.expiresAt && at < e.deadline
    requires Release(lim, r, key, token, ToRunning(snapshot), t0, now).1
    ensures var got := Claim(Release(lim, r, key, token, ToRunning(snapshot), t0, now).0, key, e.caller, at).1;
            && got.Ok? && got.value.snapshot == snapshot.value && got.value.deadline == e.deadline && got.value.expiresAt == e.expiresAt
  {
    var mode := ToRunning(snapshot);
    var r' := Release(lim, r, key, token, mode, t0, now).0;
    FindKeyFinds(r.entries, e);
    var e' := e.(snapshot := snapshot.value, bytes := SnapshotBytes(snapshot.value, e.pinBytes), own := Running);
    GivenBackEffects(lim, r, key, token, mode, t0, now, e);
    GivenBack(lim, r, key, token, mode, t0, now, e, e', r');
    ReplaceKeepsApart(r.entries, e, e', (x: Entry) => x.bytes);
    FindKeyFinds(r'.entries, e');
  }

  /** A claim that cannot be given back is gone. */
  lemma NotGivenBackIsGone(lim: Limits, r: Reg, key: Key, token: nat, snapshot: Option<CascadeTurns.Snapshot>, t0: int, now: int, e: Entry)
    requires Inv(lim, r) && e in r.entries && e.key == key && e.own == Claimed(token)
    requires !Release(lim, r, key, token, ToRunning(snapshot), t0, now).1
    ensures forall x :: x in Release(lim, r, key, token, ToRunning(snapshot), t0, now).0.entries <==> x in r.entries && x != e
  {
    FindKeyFinds(r.entries, e);
    var mode := ToRunning(snapshot);
    ReleaseEndsEffects(lim, r, key, token, mode, t0, now, e);
    DeleteKeepsInv(lim, r, e, EndingOf(lim, r, e, mode, t0, now));
  }

  /** An eviction takes exactly the entry under the key, and only when its owner is named: a claim by its token, a running entry
      by its identity. A claim past its deadline is counted as that, whatever cause was given. */
  lemma EvictsIff(lim: Limits, r: Reg, key: Key, cause: Cause, who: Identity, now: int, e: Entry)
    requires Inv(lim, r) && e in r.entries
    ensures var (r', ok) := Evict(r, key, cause, who, now);
            && (e !in r'.entries <==> e.key == key && (if e.own.Claimed? then who == ByToken(e.own.token) else who == ByEntry(e.id)))
            && (!ok ==> r' == r)
  {
    var at := FindKey(r.entries, key);
    if at.Some? {
      KeyIsUnique(r, at.value);
      if Names(who, at.value) {
        DeleteKeepsInv(lim, r, at.value, Evicted(if at.value.own.Claimed? && at.value.deadline <= now then Deadline else cause));
      }
    }
  }

  lemma EvictionIsCounted(lim: Limits, r: Reg, key: Key, cause: Cause, who: Identity, now: int, e: Entry)
    requires Inv(lim, r) && e in r.entries && e !in Evict(r, key, cause, who, now).0.entries
    ensures var (r', ok) := Evict(r, key, cause, who, now);
            ok && r'.counters == r.counters + multiset{Evicted(if e.own.Claimed? && e.deadline <= now then Deadline else cause)}
  {
    var at := FindKey(r.entries, key);
    EvictsIff(lim, r, key, cause, who, now, e);
    FindKeyFinds(r.entries, e);
    assert HasId(r.entries, e.id);
  }

  lemma {:induction false} SameOutcomes(es: seq<Entry>, verdict: Entry -> Option<Cause>, cause: Cause)
    requires forall x :: verdict(x).Some? ==> verdict(x) == Some(cause)
    ensures Outcomes(es, verdict)[Evicted(cause)] == |es| - |Kept(es, verdict)|
    decreases |es|
  {
    if es != [] {
      SameOutcomes(es[1..], verdict, cause);
    }
  }

  lemma {:induction false} KeptNothing(es: seq<Entry>, verdict: Entry -> Option<Cause>)
    requires forall x :: verdict(x).Some?
    ensures Kept(es, verdict) == []
    decreases |es|
  {
    if es != [] {
      KeptNothing(es[1..], verdict);
    }
  }

  /** Removing an account takes exactly its entries, claimed or not, each counted once. */
  lemma AccountEvictionIsExact(lim: Limits, r: Reg, account: string, e: Entry)
    requires Inv(lim, r) && e in r.entries
    ensures var r' := EvictForAccount(r, account);
            && (e in r'.entries <==> account == "" || e.account != account)
            && r'.counters[Evicted(AccountRemoved)] == r.counters[Evicted(AccountRemoved)] + |r.entries| - |r'.entries|
  {
    if account != "" {
      var verdict := Targets(Some(account), AccountRemoved);
      PurgeIsPurged(r, verdict);
      KeptHas(r.entries, verdict, e);
      SameOutcomes(r.entries, verdict, AccountRemoved);
    }
  }

  lemma {:induction false} DrainStays(lim: Limits, r: Reg, run: seq<Action>)
    requires Inv(lim, r) && ProperRun(run) && r.draining && r.entries == []
    ensures EndReg(lim, r, run).draining && EndReg(lim, r, run).entries == []
    decreases |run|
  {
    if run != [] {
      StepEffects(lim, r, run[0]);
      assert Step(lim, r, run[0]).draining && Step(lim, r, run[0]).entries == [];
      DrainStays(lim, Step(lim, r, run[0]), run[1..]);
    }
  }

  /** Draining is final: it drops every entry, and from then on nothing is admitted, found or claimed. */
  lemma {:induction false} DrainIsFinal(lim: Limits, r: Reg, run: seq<Action>, q: Request, t0: int, now: int)
    requires Inv(lim, r) && ProperRun(run)
    ensures var end := EndReg(lim, BeginDrain(r), run);
            && end.entries == [] && Admit(lim, end, q, t0, now).1 == Some(Draining)
            && (q.key.Some? ==> Lookup(end, q.key.value, q.caller, now).1.None? && Claim(end, q.key.value, q.caller, now).1.Err?)
  {
    var drained, all := BeginDrain(r), Targets(None, Drain);
    PurgeIsPurged(r.(draining := true), all);
    KeptNothing(r.entries, all);
    DrainEffects(lim, r);
    DrainStays(lim, drained, run);
  }

  // ------------------------------------------------------------------
  // The terms of a request
  // ------------------------------------------------------------------

  /** Exactly which actions end or hand over a running entry: a claim of its caller, its own eviction, one of its bounds
      observed, an admission that displaces it, the removal of its account, or a drain. */
  ghost predicate RunningEnds(lim: Limits, r: Reg, a: Action, e: Entry) {
    match a
    case DoAdmit(q, t0, now) =>
      !r.draining && Acceptable(q, t0) && (!Lives(e, now) || (Admits(lim, r, q, now) && Displaced(lim, r, q.key.value, q.caller, now, e)))
    case DoLookup(key, caller, now) => key == e.key && caller == e.caller && !Lives(e, now)
    case DoClaim(key, caller, _) => key == e.key && caller == e.caller
    case DoOwns(_, _, _) => false
    case DoRelease(_, _, _, _, _) => false
    case DoEvict(key, _, who, _) => key == e.key && who == ByEntry(e.id)
    case DoTimer(key, id, now) => key == e.key && id == e.id && !Lives(e, now)
    case DoSweep(now) => !Lives(e, now)
    case DoEvictForAccount(account) => account != "" && account == e.account
    case DoBeginDrain => true
  }

  /** An acceptable request finds room. */
  ghost predicate Admits(lim: Limits, r: Reg, q: Request, now: int)
    requires q.key.Some?
  {
    Fits(lim, r, q, q.key.value, now) && ((exists x :: Holds(r, q.key.value, now, x)) || SlotFor(lim, r, q.caller, now))
  }

  lemma OwnsSpares(lim: Limits, r: Reg, key: Key, token: nat, now: int, e: Entry)
    requires Inv(lim, r) && e in r.entries && e.own.Running?
    ensures e in Owns(r, key, token, now).0.entries
  {
    var claim := ClaimOf(r, key, token);
    if claim.Some? {
      DeleteKeepsInv(lim, r, claim.value, Evicted(Deadline));
    }
  }

  lemma ReleaseSpares(lim: Limits, r: Reg, key: Key, token: nat, mode: Mode, t0: int, now: int, e: Entry)
    requires Inv(lim, r) && e in r.entries && e.own.Running?
    ensures e in Release(lim, r, key, token, mode, t0, now).0.entries
  {
    var claim := ClaimOf(r, key, token);
    if claim.Some? && (claim.value.deadline <= t0 || !mode.ToOther?) {
      if mode.ToRunning? && Release(lim, r, key, token, mode, t0, now).1 {
        GivenBackSpares(lim, r, key, token, mode, t0, now, claim.value, e);
      } else {
        ReleaseEndsEffects(lim, r, key, token, mode, t0, now, claim.value);
        DeleteKeepsInv(lim, r, claim.value, EndingOf(lim, r, claim.value, mode, t0, now));
      }
    }
  }

  lemma GivenBackSpares(lim: Limits, r: Reg, key: Key, token: nat, mode: Mode, t0: int, now: int, c: Entry, e: Entry)
    requires Inv(lim, r) && ClaimOf(r, key, token) == Some(c) && mode.ToRunning? && Release(lim, r, key, token, mode, t0, now).1
    requires e in r.entries && e != c
    ensures e in Release(lim, r, key, token, mode, t0, now).0.entries
  {
    var c' := c.(snapshot := mode.snapshot.value, bytes := SnapshotBytes(mode.snapshot.value, c.pinBytes), own := Running);
    GivenBack(lim, r, key, token, mode, t0, now, c, c', Release(lim, r, key, token, mode, t0, now).0);
    ReplaceKeepsApart(r.entries, c, c', (x: Entry) => x.bytes);
  }

  lemma ClaimSparesIff(lim: Limits, r: Reg, key: Key, caller: string, now: int, e: Entry)
    requires Inv(lim, r) && e in r.entries && e.own.Running?
    ensures e in Claim(r, key, caller, now).0.entries <==> key != e.key || caller != e.caller
  {
    if e.key == key {
      FindKeyFinds(r.entries, e);
      ClaimGrantsIff(lim, r, key, caller, now, e);
    }
    if Claim(r, key, caller, now).1.Ok? {
      var at := FindKey(r.entries, key).value;
      GrantedClaim(lim, r, key, caller, now, at, Claim(r, key, caller, now).0, at.(own := Claimed(r.nextToken)));
    } else {
      RefusedClaimTakes(lim, r, key, caller, now, e);
    }
  }

  lemma TimerSparesIff(lim: Limits, r: Reg, key: Key, id: nat, now: int, e: Entry)
    requires Inv(lim, r) && e in r.entries
    ensures e in TimerFires(r, key, id, now).entries <==> !(key == e.key && id == e.id && !Lives(e, now))
  {
    var at := FindKey(r.entries, key);
    if at.Some? {
      KeyIsUnique(r, at.value);
      if Due(at.value, now).Some? {
        DeleteKeepsInv(lim, r, at.value, Evicted(Due(at.value, now).value));
      }
    }
  }

  /** A running entry goes, or is handed over, exactly by the actions that may do so. */
  lemma RunningStaysIff(lim: Limits, r: Reg, a: Action, e: Entry)
    requires Inv(lim, r) && Proper(a) && e in r.entries && e.own.Running?
    ensures e in Step(lim, r, a).entries <==> !RunningEnds(lim, r, a, e)
  {
    match a
    case DoAdmit(q, t0, now) =>
      AdmitSucceedsIff(lim, r, q, t0, now);
      AdmitSpares(lim, r, q, t0, now, e);
    case DoLookup(key, caller, now) => LookupFindsIff(lim, r, key, caller, now, e);
    case DoClaim(key, caller, now) => ClaimSparesIff(lim, r, key, caller, now, e);
    case DoOwns(key, token, now) => OwnsSpares(lim, r, key, token, now, e);
    case DoRelease(key, token, mode, t0, now) => ReleaseSpares(lim, r, key, token, mode, t0, now, e);
    case DoEvict(key, cause, who, now) => EvictsIff(lim, r, key, cause, who, now, e);
    case DoTimer(key, id, now) => TimerSparesIff(lim, r, key, id, now, e);
    case DoSweep(now) => SweepKeepsInv(lim, r, now);
    case DoEvictForAccount(account) => AccountEvictionIsExact(lim, r, account, e);
    case DoBeginDrain => DrainEffects(lim, r);
  }

  lemma AdmitSpares(lim: Limits, r: Reg, q: Request, t0: int, now: int, e: Entry)
    requires Inv(lim, r) && (q.key.Some? ==> q.key.value.scope == q.caller) && e in r.entries && e.own.Running?
    ensures e in Admit(lim, r, q, t0, now).0.entries <==> !RunningEnds(lim, r, DoAdmit(q, t0, now), e)
  {
    AdmitSucceedsIff(lim, r, q, t0, now);
    assert e.id < r.nextId;
  }

  /** None of the actions of a run ends or hands over the running entry. */
  ghost predicate RunSpares(lim: Limits, r: Reg, run: seq<Action>, e: Entry)
    decreases |run|
  {
    run == [] || (!RunningEnds(lim, r, run[0], e) && RunSpares(lim, Step(lim, r, run[0]), run[1..], e))
  }

  lemma {:induction false} SparedStays(lim: Limits, r: Reg, run: seq<Action>, e: Entry)
    requires Inv(lim, r) && ProperRun(run) && e in r.entries && e.own.Running? && RunSpares(lim, r, run, e)
    ensures Inv(lim, EndReg(lim, r, run)) && e in EndReg(lim, r, run).entries
    decreases |run|
  {
    if run != [] {
      StepEffects(lim, r, run[0]);
      RunningStaysIff(lim, r, run[0], e);
      SparedStays(lim, Step(lim, r, run[0]), run[1..], e);
    }
  }

  /** The entry of an admitted request. */
  ghost predicate IsFor(r: Reg, e: Entry, q: Request) {
    && q.key.Some? && q.snapshot.Some? && q.deadline.Some? && e in r.entries && e.own.Running?
    && e.key == q.key.value && e.caller == q.caller && e.account == q.account && e.snapshot == q.snapshot.value
  }

  /** A request that was admitted is kept on its own terms. After any run that spares its entry, the key finds that entry, and
      its caller's claim is granted if and only if the clock is before both the admission plus the time to live and the
      requested deadline; what is granted is the requested snapshot. */
  lemma {:induction false} AdmittedIsClaimable(lim: Limits, r: Reg, q: Request, t0: int, now: int, e: Entry, run: seq<Action>, at: int)
    requires Inv(lim, r) && (q.key.Some? ==> q.key.value.scope == q.caller) && Admit(lim, r, q, t0, now).1.None?
    requires var r1 := Admit(lim, r, q, t0, now).0; IsFor(r1, e, q) && ProperRun(run) && RunSpares(lim, r1, run, e)
    ensures var end := EndReg(lim, Admit(lim, r, q, t0, now).0, run);
            && FindKey(end.entries, q.key.value) == Some(e)
            && (Claim(end, q.key.value, q.caller, at).1.Ok? <==> at < now + lim.ttlMs && at < q.deadline.value)
            && (Claim(end, q.key.value, q.caller, at).1.Ok? ==> Claim(end, q.key.value, q.caller, at).1.value.snapshot == q.snapshot.value)
  {
    var r1 := Admit(lim, r, q, t0, now).0;
    var stored := AdmitStores(lim, r, q, t0, now);
    ApartMembers(r1.entries, e, stored);
    SparedStays(lim, r1, run, e);
    var end := EndReg(lim, r1, run);
    FindKeyFinds(end.entries, e);
    ClaimGrantsIff(lim, end, q.key.value, q.caller, at, e);
    if Claim(end, q.key.value, q.caller, at).1.Ok? {
      ClaimHandsOut(lim, end, q.key.value, q.caller, at, e);
    }
  }

  /** The claimant owns it, through any run that leaves the claim alone, if and only if the clock is before the requested
      deadline: the time to live has no say any more. */
  lemma {:induction false} AdmittedIsOwned(lim: Limits, r: Reg, q: Request, t0: int, now: int, e: Entry, run: seq<Action>, at: int,
                                           later: seq<Action>, when: int)
    requires Inv(lim, r) && (q.key.Some? ==> q.key.value.scope == q.caller) && Admit(lim, r, q, t0, now).1.None?
    requires var r1 := Admit(lim, r, q, t0, now).0; IsFor(r1, e, q) && ProperRun(run) && RunSpares(lim, r1, run, e)
    requires at < now + lim.ttlMs && at < q.deadline.value
    requires var (held, got) := Claim(EndReg(lim, Admit(lim, r, q, t0, now).0, run), q.key.value, q.caller, at);
             got.Ok? ==> got.value.own.Claimed? && ProperRun(later) && LeftAlone(lim, held, later, got.value)
    ensures var (held, got) := Claim(EndReg(lim, Admit(lim, r, q, t0, now).0, run), q.key.value, q.caller, at);
            got.Ok? && (Owns(EndReg(lim, held, later), q.key.value, got.value.own.token, when).1 <==> when < q.deadline.value)
  {
    var r1 := Admit(lim, r, q, t0, now).0;
    AdmittedIsClaimable(lim, r, q, t0, now, e, run, at);
    var stored := AdmitStores(lim, r, q, t0, now);
    ApartMembers(r1.entries, e, stored);
    SparedStays(lim, r1, run, e);
    var end := EndReg(lim, r1, run);
    ClaimHandsOut(lim, end, q.key.value, q.caller, at, e);
    var (held, got) := Claim(end, q.key.value, q.caller, at);
    OwnedUntilDeadline(lim, held, later, got.value, when);
  }

  lemma {:induction false} OwnedUntilDeadline(lim: Limits, r: Reg, run: seq<Action>, e: Entry, when: int)
    requires Inv(lim, r) && ProperRun(run) && FindKey(r.entries, e.key) == Some(e) && e.own.Claimed? && LeftAlone(lim, r, run, e)
    ensures Owns(EndReg(lim, r, run), e.key, e.own.token, when).1 <==> when < e.deadline
  {
    ClaimSurvives(lim, r, run, e);
    RunKeepsInv(lim, r, run);
    FindKeyFinds(EndReg(lim, r, run).entries, e);
  }
}
