/** What a client may count on, said by the request it made: when it is admitted and whom that displaces, on what terms its
    entry is kept, and what each later operation answers. */
module DetachedTurnTerms {
  import opened Prelude
  import opened CascadeTurns
  import opened CascadeTurnRuns
  import opened DetachedTurns
  import opened DetachedTurnRuns

  // ------------------------------------------------------------------
  // Requests and the entries alive
  // ------------------------------------------------------------------

  /** Before the deadline, and before the expiry unless somebody has claimed the entry. */
  predicate Lives(x: Entry, now: int) {
    now < x.deadline && (x.own.Running? ==> now < x.expiresAt)
  }

  lemma LivesIffNotDue(x: Entry, now: int)
    ensures Lives(x, now) <==> Due(x, now).None?
  {
  }

  predicate Acceptable(q: Request, t0: int) {
    && q.key.Some? && q.caller != "" && q.clientGone
    && q.snapshot.Some? && q.snapshot.value.version == Some(2) && q.snapshot.value.chunks.Some?
    && q.snapshot.value.consumedThrough.Some? && q.snapshot.value.consumedThrough == q.snapshot.value.stepOffset
    && q.deadline.Some? && t0 < q.deadline.value
  }

  /** Two bytes a unit, 64 a chunk, 1024 an entry, and the pin. */
  function BytesOf(chunks: seq<Chunk>, pinBytes: nat): nat {
    1024 + 2 * TextLength(chunks) + 2 * ThinkingLength(chunks) + 64 * |chunks| + pinBytes
  }

  lemma {:induction false} LengthsFromFront(chunks: seq<Chunk>)
    requires chunks != []
    ensures TextLength(chunks) == |chunks[0].text| + TextLength(chunks[1..])
    ensures ThinkingLength(chunks) == |chunks[0].thinking| + ThinkingLength(chunks[1..])
    decreases |chunks|
  {
    if |chunks| > 1 {
      var init := chunks[..|chunks| - 1];
      LengthsFromFront(init);
      assert chunks[1..][..|chunks| - 2] == init[1..];
    }
  }

  lemma {:induction false} ChunksWeigh(chunks: seq<Chunk>)
    ensures ChunkBytes(chunks) == 2 * TextLength(chunks) + 2 * ThinkingLength(chunks) + 64 * |chunks|
    decreases |chunks|
  {
    if chunks != [] {
      ChunksWeigh(chunks[1..]);
      LengthsFromFront(chunks);
    }
  }

  /** The size of an entry. */
  lemma SnapshotWeighs(s: Snapshot, pinBytes: nat)
    ensures SnapshotBytes(s, pinBytes) == BytesOf(GetOr(s.chunks, []), pinBytes)
  {
    ChunksWeigh(GetOr(s.chunks, []));
  }

  /** How many live entries a caller holds, and how many there are. */
  function LiveOf(caller: string, now: int): Entry -> nat {
    (x: Entry) => if Lives(x, now) && x.caller == caller then 1 else 0
  }

  function LiveAtAll(now: int): Entry -> nat {
    (x: Entry) => if Lives(x, now) then 1 else 0
  }

  function LiveBytes(now: int): Entry -> nat {
    (x: Entry) => if Lives(x, now) then x.bytes else 0
  }

  lemma {:induction false} SumOfKept(es: seq<Entry>, verdict: Entry -> Option<Cause>, weight: Entry -> nat, live: Entry -> nat)
    requires forall x :: live(x) == if verdict(x).Some? then 0 else weight(x)
    ensures Sum(Kept(es, verdict), weight) == Sum(es, live)
    decreases |es|
  {
    if es != [] {
      SumOfKept(es[1..], verdict, weight, live);
      if verdict(es[0]).None? {
        assert ([es[0]] + Kept(es[1..], verdict))[1..] == Kept(es[1..], verdict);
      }
    }
  }

  lemma {:induction false} SumOfOnes(es: seq<Entry>)
    ensures Sum(es, (x: Entry) => 1) == |es|
    decreases |es|
  {
    if es != [] {
      SumOfOnes(es[1..]);
    }
  }

  /** What a sweep leaves, counted before it. */
  lemma SweptSums(lim: Limits, r: Reg, now: int)
    requires Inv(lim, r)
    ensures var swept := Sweep(r, now);
            && swept.totalBytes == Sum(r.entries, LiveBytes(now)) && |swept.entries| == Sum(r.entries, LiveAtAll(now))
            && forall caller: string :: CallerCount(swept.entries, caller) == Sum(r.entries, LiveOf(caller, now))
  {
    var verdict := (e: Entry) => Due(e, now);
    PurgeIsPurged(r, verdict);
    assert Sweep(r, now) == Purged(r, verdict);
    SumOfKept(r.entries, verdict, (x: Entry) => x.bytes, LiveBytes(now));
    SumOfKept(r.entries, verdict, (x: Entry) => 1, LiveAtAll(now));
    SumOfOnes(Kept(r.entries, verdict));
    forall caller: string ensures CallerCount(Sweep(r, now).entries, caller) == Sum(r.entries, LiveOf(caller, now)) {
      SumOfKept(r.entries, verdict, (x: Entry) => if x.caller == caller then 1 else 0, LiveOf(caller, now));
    }
  }

  // ------------------------------------------------------------------
  // Who has to go
  // ------------------------------------------------------------------

  /** Among the running entries of a caller, or of all, nobody is older, and nobody as old came first. */
  predicate IsOldest(es: seq<Entry>, caller: Option<string>, e: Entry) {
    && e in es && e.own.Running? && (caller.Some? ==> e.caller == caller.value)
    && forall x :: x in es && x.own.Running? && (caller.Some? ==> x.caller == caller.value) ==>
         e.createdAt < x.createdAt || (e.createdAt == x.createdAt && e.id <= x.id)
  }

  lemma {:induction false} ApartSnoc(es: seq<Entry>, init: seq<Entry>, last: Entry)
    requires AllApart(es) && es == init + [last]
    ensures AllApart(init) && forall x :: x in init ==> Apart(x, last)
    decreases |es|
  {
    if init != [] {
      assert es[1..] == init[1..] + [last];
      ApartSnoc(es[1..], init[1..], last);
      assert last in es[1..] && forall x :: x in init ==> x == init[0] || x in init[1..];
    }
  }

  lemma {:induction false} OldestStays(es: seq<Entry>, init: seq<Entry>, last: Entry, caller: Option<string>, best: Entry)
    requires es == init + [last] && IsOldest(init, caller, best) && Apart(best, last)
    requires !(Eligible(last, caller) && last.createdAt < best.createdAt)
    ensures IsOldest(es, caller, best)
  {
    assert forall x :: x in es <==> x in init || x == last;
  }

  lemma {:induction false} LastIsOldest(es: seq<Entry>, init: seq<Entry>, last: Entry, caller: Option<string>)
    requires es == init + [last] && Eligible(last, caller)
    requires forall x :: x in init && Eligible(x, caller) ==> last.createdAt < x.createdAt
    ensures IsOldest(es, caller, last)
  {
    assert forall x :: x in es <==> x in init || x == last;
  }

  lemma {:induction false} OldestIsOldest(es: seq<Entry>, caller: Option<string>)
    requires AllApart(es)
    ensures Oldest(es, caller).Some? ==> IsOldest(es, caller, Oldest(es, caller).value)
    decreases |es|
  {
    if es != [] {
      var init, last := es[..|es| - 1], es[|es| - 1];
      var before := Oldest(init, caller);
      assert es == init + [last];
      ApartSnoc(es, init, last);
      OldestIsOldest(init, caller);
      if Eligible(last, caller) && (before.None? || last.createdAt < before.value.createdAt) {
        LastIsOldest(es, init, last, caller);
      } else if before.Some? {
        OldestStays(es, init, last, caller, before.value);
      }
    }
  }

  /** The oldest is the first inserted of those with the least creation time. */
  lemma OldestIff(es: seq<Entry>, caller: Option<string>, e: Entry)
    requires AllApart(es)
    ensures Oldest(es, caller) == Some(e) <==> IsOldest(es, caller, e)
  {
    OldestIsOldest(es, caller);
    if IsOldest(es, caller, e) {
      ApartMembers(es, e, Oldest(es, caller).value);
    }
  }

  // ------------------------------------------------------------------
  // Admission, said by the request and the entries before it
  // ------------------------------------------------------------------

  /** The live entry under the key of a request. */
  predicate Holds(r: Reg, key: Key, now: int, x: Entry) {
    x in r.entries && x.key == key && Lives(x, now)
  }

  function HeldBytes(key: Key, now: int): Entry -> nat {
    (x: Entry) => if Lives(x, now) && x.key == key then x.bytes else 0
  }

  function RequestBytes(q: Request): nat {
    if q.snapshot.Some? then BytesOf(GetOr(q.snapshot.value.chunks, []), q.pinBytes) else 0
  }

  /** The new entry fits when the one under its key is gone, and that one is not claimed. */
  ghost predicate Fits(lim: Limits, r: Reg, q: Request, key: Key, now: int) {
    && RequestBytes(q) <= lim.maxEntryBytes
    && Sum(r.entries, LiveBytes(now)) - Sum(r.entries, HeldBytes(key, now)) + RequestBytes(q) <= lim.maxTotalBytes
    && forall x :: Holds(r, key, now, x) ==> x.own.Running?
  }

  predicate CallerFull(lim: Limits, r: Reg, caller: string, now: int) {
    Sum(r.entries, LiveOf(caller, now)) >= lim.maxPerCaller
  }

  predicate AllFull(lim: Limits, r: Reg, now: int) {
    Sum(r.entries, LiveAtAll(now)) >= lim.maxEntries
  }

  predicate Yields(r: Reg, caller: Option<string>, now: int, x: Entry) {
    x in r.entries && Lives(x, now) && x.own.Running? && (caller.Some? ==> x.caller == caller.value)
  }

  /** There is a slot, or a running entry that can give up its own: one of the caller's at its cap, anybody's at the other. */
  ghost predicate SlotFor(lim: Limits, r: Reg, caller: string, now: int) {
    if CallerFull(lim, r, caller, now) then exists x :: Yields(r, Some(caller), now, x)
    else !AllFull(lim, r, now) || exists x :: Yields(r, None, now, x)
  }

  ghost predicate FirstToGo(r: Reg, caller: Option<string>, now: int, e: Entry) {
    Yields(r, caller, now, e)
    && forall x :: Yields(r, caller, now, x) ==> e.createdAt < x.createdAt || (e.createdAt == x.createdAt && e.id <= x.id)
  }

  /** Whom an admission that fits displaces: the holder of the key; else at a full cap the oldest running entry, of the caller
      if that cap is the caller's. */
  ghost predicate Displaced(lim: Limits, r: Reg, key: Key, caller: string, now: int, e: Entry) {
    if exists x :: Holds(r, key, now, x) then Holds(r, key, now, e)
    else if CallerFull(lim, r, caller, now) then FirstToGo(r, Some(caller), now, e)
    else AllFull(lim, r, now) && FirstToGo(r, None, now, e)
  }

  lemma {:induction false} SumOfKey(es: seq<Entry>, key: Key, weight: Entry -> nat)
    requires AllApart(es) && forall x :: weight(x) == if x.key == key then x.bytes else 0
    ensures Sum(es, weight) == if FindKey(es, key).Some? then FindKey(es, key).value.bytes else 0
    decreases |es|
  {
    if es != [] {
      SumOfKey(es[1..], key, weight);
      if es[0].key == key {
        assert FindKey(es[1..], key).None?;
      }
    }
  }

  /** The same for a registry that has been swept. */
  lemma SweptHolder(lim: Limits, r: Reg, key: Key, now: int)
    requires Inv(lim, r)
    ensures var held := FindKey(Sweep(r, now).entries, key);
            && (forall x :: Holds(r, key, now, x) <==> held == Some(x))
            && (held.Some? ==> Holds(r, key, now, held.value))
            && Sum(r.entries, HeldBytes(key, now)) == if held.Some? then held.value.bytes else 0
  {
    var swept, verdict := Sweep(r, now), (e: Entry) => Due(e, now);
    SweepKeepsInv(lim, r, now);
    PurgeIsPurged(r, verdict);
    var weight := (x: Entry) => if x.key == key then x.bytes else 0;
    SumOfKept(r.entries, verdict, weight, HeldBytes(key, now));
    SumOfKey(swept.entries, key, weight);
    forall x | Holds(r, key, now, x) ensures FindKey(swept.entries, key) == Some(x) {
      FindKeyFinds(swept.entries, x);
    }
  }

  /** Whom freeing a slot takes. */
  function Victim(lim: Limits, r: Reg, caller: string): Option<Entry> {
    if CallerCount(r.entries, caller) >= lim.maxPerCaller then Oldest(r.entries, Some(caller))
    else if |r.entries| >= lim.maxEntries then Oldest(r.entries, None)
    else None
  }

  lemma FreeSlotTakes(lim: Limits, r: Reg, caller: string)
    requires Inv(lim, r)
    ensures var (room, ok) := FreeSlot(lim, r, caller);
            && (ok <==> Victim(lim, r, caller).Some? || (CallerCount(r.entries, caller) < lim.maxPerCaller && |r.entries| < lim.maxEntries))
            && forall x :: x in room.entries <==> x in r.entries && Some(x) != Victim(lim, r, caller)
  {
    var victim := Victim(lim, r, caller);
    if victim.Some? {
      var e := victim.value;
      DeleteKeepsInv(lim, r, e, Evicted(Capacity));
      OneLessFits(lim, r, e, caller);
      assert MakeRoom(Delete(r, e, Evicted(Capacity)), lim.maxEntries) == (Delete(r, e, Evicted(Capacity)), true);
    }
  }

  lemma SomebodyYields(lim: Limits, r: Reg, now: int, caller: Option<string>)
    requires Inv(lim, r)
    ensures Oldest(Sweep(r, now).entries, caller).Some? <==> exists x :: Yields(r, caller, now, x)
  {
    var swept := Sweep(r, now).entries;
    SweepKeepsInv(lim, r, now);
    assert forall x :: Yields(r, caller, now, x) <==> x in swept && Eligible(x, caller);
    if Oldest(swept, caller).Some? {
      assert Yields(r, caller, now, Oldest(swept, caller).value);
    }
  }

  lemma FirstOfSwept(lim: Limits, r: Reg, now: int, caller: Option<string>, e: Entry)
    requires Inv(lim, r)
    ensures Oldest(Sweep(r, now).entries, caller) == Some(e) <==> FirstToGo(r, caller, now, e)
  {
    var swept := Sweep(r, now).entries;
    SweepKeepsInv(lim, r, now);
    OldestIff(swept, caller, e);
    assert forall x :: Yields(r, caller, now, x) <==> x in swept && Eligible(x, caller);
  }

  /** The victim of a full registry without a holder of the key, said before the sweep. */
  lemma VictimIff(lim: Limits, r: Reg, key: Key, now: int, e: Entry)
    requires Inv(lim, r) && forall x :: !Holds(r, key, now, x)
    ensures Victim(lim, Sweep(r, now), key.scope) == Some(e) <==> Displaced(lim, r, key, key.scope, now, e)
  {
    SweptSums(lim, r, now);
    FirstOfSwept(lim, r, now, Some(key.scope), e);
    FirstOfSwept(lim, r, now, None, e);
  }

  lemma VictimExistsIff(lim: Limits, r: Reg, caller: string, now: int)
    requires Inv(lim, r)
    ensures var swept := Sweep(r, now);
            (Victim(lim, swept, caller).Some? || (CallerCount(swept.entries, caller) < lim.maxPerCaller && |swept.entries| < lim.maxEntries))
            <==> SlotFor(lim, r, caller, now)
  {
    SweptSums(lim, r, now);
    SomebodyYields(lim, r, now, Some(caller));
    SomebodyYields(lim, r, now, None);
  }

  /** An entry that fits, under a key that is free. */
  lemma FreeKeyOutcome(lim: Limits, cleared: Reg, e: Entry)
    requires Inv(lim, cleared)
    ensures var (r', why) := AdmitFitting(lim, cleared, e);
            var v := Victim(lim, cleared, e.caller);
            && (why.None? <==> v.Some? || (CallerCount(cleared.entries, e.caller) < lim.maxPerCaller && |cleared.entries| < lim.maxEntries))
            && (why.None? ==> forall x :: x in r'.entries <==> x == e || (x in cleared.entries && Some(x) != v))
            && (why.Some? ==> why == Some(OverEntries) && r'.entries == cleared.entries && v.None?)
  {
    FreeSlotTakes(lim, cleared, e.caller);
    FreeSlotKeepsInv(lim, cleared, e.caller);
  }

  /** What a request meets when it is not screened out. */
  ghost predicate Meets(lim: Limits, r: Reg, q: Request, now: int, e: Entry, r': Reg, why: Option<Refusal>)
    requires q.key.Some?
  {
    var key := q.key.value;
    && (why.None? <==> Fits(lim, r, q, key, now) && ((exists x :: Holds(r, key, now, x)) || SlotFor(lim, r, key.scope, now)))
    && (why.None? ==> forall x :: x in r'.entries <==> x == e || (x in r.entries && Lives(x, now) && !Displaced(lim, r, key, key.scope, now, x)))
    && (why.Some? ==> forall x :: x in r'.entries <==> x in r.entries && Lives(x, now))
  }

  /** Whether the sizes fit and the key is free, said after the sweep. */
  lemma FitsSwept(lim: Limits, r: Reg, q: Request, key: Key, now: int)
    requires Inv(lim, r)
    ensures var swept := Sweep(r, now);
            var held := FindKey(swept.entries, key);
            Fits(lim, r, q, key, now) <==>
              && RequestBytes(q) <= lim.maxEntryBytes
              && swept.totalBytes - (if held.Some? then held.value.bytes else 0) + RequestBytes(q) <= lim.maxTotalBytes
              && (held.Some? ==> held.value.own.Running?)
  {
    SweptSums(lim, r, now);
    SweptHolder(lim, r, key, now);
  }

  lemma MeetsNobody(lim: Limits, r: Reg, q: Request, now: int, e: Entry)
    requires Inv(lim, r) && q.key.Some? && q.key.value == e.key && e.caller == e.key.scope && e.bytes == RequestBytes(q)
    requires forall x :: !Holds(r, e.key, now, x)
    ensures var (r', why) := AdmitSwept(lim, Sweep(r, now), e); Meets(lim, r, q, now, e, r', why)
  {
    var swept := Sweep(r, now);
    SweepKeepsInv(lim, r, now);
    SweptHolder(lim, r, e.key, now);
    FitsSwept(lim, r, q, e.key, now);
    VictimExistsIff(lim, r, e.caller, now);
    FreeKeyOutcome(lim, swept, e);
    forall x ensures Victim(lim, swept, e.caller) == Some(x) <==> Displaced(lim, r, e.key, e.caller, now, x) {
      VictimIff(lim, r, e.key, now, x);
    }
  }

  lemma OnlyHolderDisplaced(lim: Limits, r: Reg, key: Key, caller: string, now: int, h: Entry)
    requires Holds(r, key, now, h) && forall x :: Holds(r, key, now, x) ==> x == h
    ensures forall x :: Displaced(lim, r, key, caller, now, x) <==> x == h
  {
  }

  /** Superseding the holder of the key always leaves room. */
  lemma {:induction false} HolderGivesWay(lim: Limits, swept: Reg, e: Entry, h: Entry)
    requires Inv(lim, swept) && FindKey(swept.entries, e.key) == Some(h) && e.caller == e.key.scope
    ensures var (r', why) := AdmitFitting(lim, Cleared(swept, e.key), e);
            why.None? && forall x :: x in r'.entries <==> x == e || (x in swept.entries && x != h)
  {
    ClearedKeepsInv(lim, swept, e.key);
    FreeKeyOutcome(lim, Cleared(swept, e.key), e);
  }

  lemma MeetsHolder(lim: Limits, r: Reg, q: Request, now: int, e: Entry, h: Entry)
    requires Inv(lim, r) && q.key.Some? && q.key.value == e.key && e.caller == e.key.scope && e.bytes == RequestBytes(q)
    requires Holds(r, e.key, now, h)
    ensures var (r', why) := AdmitSwept(lim, Sweep(r, now), e); Meets(lim, r, q, now, e, r', why)
  {
    var swept := Sweep(r, now);
    SweepKeepsInv(lim, r, now);
    SweptHolder(lim, r, e.key, now);
    FitsSwept(lim, r, q, e.key, now);
    HolderGivesWay(lim, swept, e, h);
    OnlyHolderDisplaced(lim, r, e.key, e.caller, now, h);
  }

  /** Exactly when a request is admitted, and exactly who is in the registry afterwards: those still alive but for the one
      entry it displaces, if it is admitted, and the new one. */
  lemma AdmitSucceedsIff(lim: Limits, r: Reg, q: Request, t0: int, now: int)
    requires Inv(lim, r) && (q.key.Some? ==> q.key.value.scope == q.caller)
    ensures var why := Admit(lim, r, q, t0, now).1;
            why.None? <==>
              && !r.draining && Acceptable(q, t0) && Fits(lim, r, q, q.key.value, now)
              && ((exists x :: Holds(r, q.key.value, now, x)) || SlotFor(lim, r, q.caller, now))
    ensures var (r', why) := Admit(lim, r, q, t0, now);
            && (why.None? ==> forall x :: x in r'.entries && x.id < r.nextId <==>
                                x in r.entries && Lives(x, now) && !Displaced(lim, r, q.key.value, q.caller, now, x))
            && (why.Some? && !r.draining && Acceptable(q, t0) ==> forall x :: x in r'.entries <==> x in r.entries && Lives(x, now))
            && (r.draining || !Acceptable(q, t0) ==> r'.entries == r.entries)
  {
    assert !r.draining && Acceptable(q, t0) <==> Screen(r, q, t0).None?;
    if Screen(r, q, t0).None? {
      var e := NewEntry(lim, Sweep(r, now), q, now);
      SnapshotWeighs(q.snapshot.value, q.pinBytes);
      SweepKeepsInv(lim, r, now);
      if h :| Holds(r, e.key, now, h) {
        MeetsHolder(lim, r, q, now, e, h);
      } else {
        MeetsNobody(lim, r, q, now, e);
      }
    }
  }

  /** What a successful admission stores, said by the request and the clock. */
  lemma AdmitStores(lim: Limits, r: Reg, q: Request, t0: int, now: int) returns (e: Entry)
    requires Inv(lim, r) && (q.key.Some? ==> q.key.value.scope == q.caller) && Admit(lim, r, q, t0, now).1.None?
    ensures var r' := Admit(lim, r, q, t0, now).0;
            && Inv(lim, r') && q.key.Some? && q.snapshot.Some? && q.deadline.Some?
            && FindKey(r'.entries, q.key.value) == Some(e) && e.id == r.nextId
            && e.key == q.key.value && e.caller == q.caller && e.account == q.account && e.snapshot == q.snapshot.value
            && e.bytes == RequestBytes(q) && e.createdAt == now && e.expiresAt == now + lim.ttlMs && e.deadline == q.deadline.value
            && e.own.Running?
  {
    e := NewEntry(lim, Sweep(r, now), q, now);
    AdmitKeepsInv(lim, r, q, t0, now);
    SweepKeepsInv(lim, r, now);
    SnapshotWeighs(q.snapshot.value, q.pinBytes);
    var r' := Admit(lim, r, q, t0, now).0;
    assert e in r'.entries by {
      var room := FreeSlot(lim, Cleared(Sweep(r, now), e.key), e.caller).0;
      assert r'.entries == room.entries + [e];
    }
    FindKeyFinds(r'.entries, e);
  }

  /** The reasons for a refusal, in the order in which they are found. */
  const REASONS: seq<Refusal> := [Draining, NoScope, NotClientGone, BadSnapshot, NoDeadline, Busy, OverBytes, OverEntries]

  ghost predicate AtFault(lim: Limits, r: Reg, q: Request, t0: int, now: int, why: Refusal) {
    match why
    case Draining => r.draining
    case NoScope => q.key.None? || q.caller == ""
    case NotClientGone => !q.clientGone
    case BadSnapshot =>
      || q.snapshot.None? || q.snapshot.value.version != Some(2) || q.snapshot.value.chunks.None?
      || q.snapshot.value.consumedThrough.None? || q.snapshot.value.consumedThrough != q.snapshot.value.stepOffset
    case NoDeadline => q.deadline.None? || q.deadline.value <= t0
    case Busy => q.key.Some? && exists x :: Holds(r, q.key.value, now, x) && x.own.Claimed?
    case OverBytes =>
      q.key.Some? && (RequestBytes(q) > lim.maxEntryBytes
                      || Sum(r.entries, LiveBytes(now)) - Sum(r.entries, HeldBytes(q.key.value, now)) + RequestBytes(q) > lim.maxTotalBytes)
    case OverEntries => q.key.Some? && (forall x :: !Holds(r, q.key.value, now, x)) && !SlotFor(lim, r, q.caller, now)
  }

  /** The first reason that applies, from the k-th on. */
  ghost function FirstFault(lim: Limits, r: Reg, q: Request, t0: int, now: int, k: nat): Option<Refusal>
    requires k <= |REASONS|
    decreases |REASONS| - k
  {
    if k == |REASONS| then None
    else if AtFault(lim, r, q, t0, now, REASONS[k]) then Some(REASONS[k])
    else FirstFault(lim, r, q, t0, now, k + 1)
  }

  lemma ScreenIs(lim: Limits, r: Reg, q: Request, t0: int, now: int)
    ensures Screen(r, q, t0) ==
            if AtFault(lim, r, q, t0, now, Draining) then Some(Draining)
            else if AtFault(lim, r, q, t0, now, NoScope) then Some(NoScope)
            else if AtFault(lim, r, q, t0, now, NotClientGone) then Some(NotClientGone)
            else if AtFault(lim, r, q, t0, now, BadSnapshot) then Some(BadSnapshot)
            else if AtFault(lim, r, q, t0, now, NoDeadline) then Some(NoDeadline)
            else None
    ensures Screen(r, q, t0).None? <==> !r.draining && Acceptable(q, t0)
  {
  }

  /** Behind the screen, what is left of the reasons, in terms of the swept registry. */
  lemma FaultsSwept(lim: Limits, r: Reg, q: Request, t0: int, now: int)
    requires Inv(lim, r) && q.key.Some?
    ensures var swept := Sweep(r, now);
            var held := FindKey(swept.entries, q.key.value);
            && (AtFault(lim, r, q, t0, now, Busy) <==> held.Some? && held.value.own.Claimed?)
            && (AtFault(lim, r, q, t0, now, OverBytes) <==>
                  RequestBytes(q) > lim.maxEntryBytes
                  || swept.totalBytes - (if held.Some? then held.value.bytes else 0) + RequestBytes(q) > lim.maxTotalBytes)
  {
    SweptHolder(lim, r, q.key.value, now);
    SweptSums(lim, r, now);
  }

  lemma FittingRefusal(lim: Limits, cleared: Reg, e: Entry)
    ensures AdmitFitting(lim, cleared, e).1.Some? ==> AdmitFitting(lim, cleared, e).1 == Some(OverEntries)
  {
  }

  lemma {:induction false} SweptRefusal(lim: Limits, swept: Reg, e: Entry)
    ensures var held := FindKey(swept.entries, e.key);
            AdmitSwept(lim, swept, e).1 ==
            if held.Some? && held.value.own.Claimed? then Some(Busy)
            else if e.bytes > lim.maxEntryBytes || swept.totalBytes - (if held.Some? then held.value.bytes else 0) + e.bytes > lim.maxTotalBytes
            then Some(OverBytes)
            else AdmitFitting(lim, Cleared(swept, e.key), e).1
  {
  }

  lemma {:induction false} RefusedAfterScreen(lim: Limits, r: Reg, q: Request, t0: int, now: int)
    requires Inv(lim, r) && (q.key.Some? ==> q.key.value.scope == q.caller) && Screen(r, q, t0).None?
    ensures Admit(lim, r, q, t0, now).1 ==
            if AtFault(lim, r, q, t0, now, Busy) then Some(Busy)
            else if AtFault(lim, r, q, t0, now, OverBytes) then Some(OverBytes)
            else if AtFault(lim, r, q, t0, now, OverEntries) then Some(OverEntries)
            else None
  {
    var e := NewEntry(lim, Sweep(r, now), q, now);
    SnapshotWeighs(q.snapshot.value, q.pinBytes);
    var why := Admit(lim, r, q, t0, now).1;
    assert why == AdmitSwept(lim, Sweep(r, now), e).1;
    SweptRefusal(lim, Sweep(r, now), e);
    FaultsSwept(lim, r, q, t0, now);
    FittingRefusal(lim, Cleared(Sweep(r, now), e.key), e);
    RoomDecides(lim, r, q, t0, now);
  }

  lemma {:induction false} FitsIsFaultless(lim: Limits, r: Reg, q: Request, t0: int, now: int)
    requires q.key.Some?
    ensures Fits(lim, r, q, q.key.value, now) <==> !AtFault(lim, r, q, t0, now, Busy) && !AtFault(lim, r, q, t0, now, OverBytes)
  {
    assert forall x :: Holds(r, q.key.value, now, x) ==> (x.own.Running? <==> !x.own.Claimed?);
  }

  /** What is left when the key is free to take and the sizes fit. */
  lemma {:induction false} RoomDecides(lim: Limits, r: Reg, q: Request, t0: int, now: int)
    requires Inv(lim, r) && (q.key.Some? ==> q.key.value.scope == q.caller) && Screen(r, q, t0).None?
    ensures Admit(lim, r, q, t0, now).1.None? <==>
            !AtFault(lim, r, q, t0, now, Busy) && !AtFault(lim, r, q, t0, now, OverBytes) && !AtFault(lim, r, q, t0, now, OverEntries)
  {
    ScreenIs(lim, r, q, t0, now);
    AdmitSucceedsIff(lim, r, q, t0, now);
    FitsIsFaultless(lim, r, q, t0, now);
  }

  /** A request is refused for the first reason that applies, and admitted when none does. */
  lemma {:induction false} AdmitRefusesFirst(lim: Limits, r: Reg, q: Request, t0: int, now: int)
    requires Inv(lim, r) && (q.key.Some? ==> q.key.value.scope == q.caller)
    ensures Admit(lim, r, q, t0, now).1 == FirstFault(lim, r, q, t0, now, 0)
  {
    ScreenIs(lim, r, q, t0, now);
    if Screen(r, q, t0).None? {
      RefusedAfterScreen(lim, r, q, t0, now);
    }
    LastReasons(lim, r, q, t0, now);
    EarlyReasons(lim, r, q, t0, now);
  }

  lemma {:induction false} LastReasons(lim: Limits, r: Reg, q: Request, t0: int, now: int)
    ensures FirstFault(lim, r, q, t0, now, 5) ==
            if AtFault(lim, r, q, t0, now, Busy) then Some(Busy)
            else if AtFault(lim, r, q, t0, now, OverBytes) then Some(OverBytes)
            else if AtFault(lim, r, q, t0, now, OverEntries) then Some(OverEntries)
            else None
  {
    assert FirstFault(lim, r, q, t0, now, 8).None?;
    assert FirstFault(lim, r, q, t0, now, 7) == if AtFault(lim, r, q, t0, now, OverEntries) then Some(OverEntries) else None;
    assert FirstFault(lim, r, q, t0, now, 6) ==
           if AtFault(lim, r, q, t0, now, OverBytes) then Some(OverBytes) else FirstFault(lim, r, q, t0, now, 7);
  }

  lemma {:induction false} EarlyReasons(lim: Limits, r: Reg, q: Request, t0: int, now: int)
    ensures FirstFault(lim, r, q, t0, now, 0) ==
            if AtFault(lim, r, q, t0, now, Draining) then Some(Draining)
            else if AtFault(lim, r, q, t0, now, NoScope) then Some(NoScope)
            else if AtFault(lim, r, q, t0, now, NotClientGone) then Some(NotClientGone)
            else if AtFault(lim, r, q, t0, now, BadSnapshot) then Some(BadSnapshot)
            else if AtFault(lim, r, q, t0, now, NoDeadline) then Some(NoDeadline)
            else FirstFault(lim, r, q, t0, now, 5)
  {
    assert FirstFault(lim, r, q, t0, now, 4) ==
           if AtFault(lim, r, q, t0, now, NoDeadline) then Some(NoDeadline) else FirstFault(lim, r, q, t0, now, 5);
    assert FirstFault(lim, r, q, t0, now, 3) ==
           if AtFault(lim, r, q, t0, now, BadSnapshot) then Some(BadSnapshot) else FirstFault(lim, r, q, t0, now, 4);
    assert FirstFault(lim, r, q, t0, now, 2) ==
           if AtFault(lim, r, q, t0, now, NotClientGone) then Some(NotClientGone) else FirstFault(lim, r, q, t0, now, 3);
    assert FirstFault(lim, r, q, t0, now, 1) ==
           if AtFault(lim, r, q, t0, now, NoScope) then Some(NoScope) else FirstFault(lim, r, q, t0, now, 2);
  }

  // ------------------------------------------------------------------
  // What an admission counts
  // ------------------------------------------------------------------

  lemma {:induction false} FittingCounts(lim: Limits, cleared: Reg, e: Entry)
    requires Inv(lim, cleared)
    ensures var (r', why) := AdmitFitting(lim, cleared, e);
            r'.counters == if why.Some? then cleared.counters + multiset{Refused(OverEntries)}
                           else if Victim(lim, cleared, e.caller).Some? then cleared.counters + multiset{Evicted(Capacity), Admitted}
                           else cleared.counters + multiset{Admitted}
  {
    var v := Victim(lim, cleared, e.caller);
    FreeSlotTakes(lim, cleared, e.caller);
    if v.Some? {
      DeleteKeepsInv(lim, cleared, v.value, Evicted(Capacity));
      OneLessFits(lim, cleared, v.value, e.caller);
      var d := Delete(cleared, v.value, Evicted(Capacity));
      assert MakeRoom(d, lim.maxEntries) == (d, true);
    }
  }

  lemma TwoCounts(c: multiset<Counter>, x: Counter, y: Counter)
    ensures c + multiset{x} + multiset{y} == c + multiset{x, y}
  {
  }

  /** The counts of an admission into a registry that has been swept. */
  function CountsOf(lim: Limits, swept: Reg, key: Key, why: Option<Refusal>): multiset<Counter> {
    if why.Some? then multiset{Refused(why.value)}
    else if FindKey(swept.entries, key).Some? then multiset{Evicted(Superseded), Admitted}
    else if Victim(lim, swept, key.scope).Some? then multiset{Evicted(Capacity), Admitted}
    else multiset{Admitted}
  }

  lemma {:induction false} SupersedingCounts(lim: Limits, swept: Reg, e: Entry, h: Entry)
    requires Inv(lim, swept) && e.caller == e.key.scope && FindKey(swept.entries, e.key) == Some(h)
    ensures var (r', why) := AdmitFitting(lim, Cleared(swept, e.key), e);
            why.None? && r'.counters == swept.counters + multiset{Evicted(Superseded), Admitted}
  {
    var cleared := Cleared(swept, e.key);
    ClearedKeepsInv(lim, swept, e.key);
    FittingCounts(lim, cleared, e);
    DeleteKeepsInv(lim, swept, h, Evicted(Superseded));
    HolderGivesWay(lim, swept, e, h);
    TwoCounts(swept.counters, Evicted(Superseded), Admitted);
  }

  lemma {:induction false} RefusedSwept(lim: Limits, swept: Reg, e: Entry)
    ensures var (r', why) := AdmitSwept(lim, swept, e);
            (r', why) == AdmitFitting(lim, Cleared(swept, e.key), e) || (why.Some? && r'.counters == swept.counters + multiset{Refused(why.value)})
  {
  }

  lemma {:induction false} SweptCounts(lim: Limits, swept: Reg, e: Entry)
    requires Inv(lim, swept) && e.caller == e.key.scope
    ensures var (r', why) := AdmitSwept(lim, swept, e); r'.counters == swept.counters + CountsOf(lim, swept, e.key, why)
  {
    RefusedSwept(lim, swept, e);
    FreeCounts(lim, swept, e);
    if h: Entry :| FindKey(swept.entries, e.key) == Some(h) {
      SupersedingCounts(lim, swept, e, h);
    }
  }

  lemma {:induction false} FreeCounts(lim: Limits, swept: Reg, e: Entry)
    requires Inv(lim, swept) && e.caller == e.key.scope
    ensures FindKey(swept.entries, e.key).None? ==>
              var (r', why) := AdmitFitting(lim, Cleared(swept, e.key), e); r'.counters == swept.counters + CountsOf(lim, swept, e.key, why)
  {
    if FindKey(swept.entries, e.key).None? {
      FittingCounts(lim, swept, e);
    }
  }

  /** One count for a refusal, under its reason; for an admission one, and one for the entry that was superseded or gave up its
      slot, behind what the sweep counts. */
  lemma {:induction false} AdmitCounts(lim: Limits, r: Reg, q: Request, t0: int, now: int)
    requires Inv(lim, r) && (q.key.Some? ==> q.key.value.scope == q.caller)
    ensures var (r', why) := Admit(lim, r, q, t0, now);
            if r.draining || !Acceptable(q, t0) then why.Some? && r' == r.Count(Refused(why.value))
            else r'.counters == Sweep(r, now).counters + CountsOf(lim, Sweep(r, now), q.key.value, why)
  {
    ScreenIs(lim, r, q, t0, now);
    if Screen(r, q, t0).None? {
      SweepKeepsInv(lim, r, now);
      SweptCounts(lim, Sweep(r, now), NewEntry(lim, Sweep(r, now), q, now));
    }
  }

  /** Who has to give up a slot, said before the sweep: the entry that the request displaces. */
  lemma {:induction false} VictimIsDisplaced(lim: Limits, r: Reg, q: Request, now: int, e: Entry)
    requires Inv(lim, r) && q.key.Some? && q.key.value.scope == q.caller && forall x :: !Holds(r, q.key.value, now, x)
    ensures Victim(lim, Sweep(r, now), q.caller) == Some(e) <==> Displaced(lim, r, q.key.value, q.caller, now, e)
  {
    VictimIff(lim, r, q.key.value, now, e);
  }
}
