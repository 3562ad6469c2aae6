/** Detached turns: a key names a frozen snapshot with at most one resumer. `Reg` is the value of the
    registry and the functions below are its operations; the class `DetachedRegistry` performs them. */
module DetachedTurns {
  import opened Prelude
  import opened CascadeTurns

  /** A key is a digest of body, caller scope and route; the scope is kept in sight because it is
      part of what is hashed. */
  datatype Key = Key(scope: string, digest: string)

  datatype Ownership = Running | Claimed(token: nat)

  /** `id` is the identity of the entry object. */
  datatype Entry = Entry(
    id: nat, key: Key, caller: string, account: string, snapshot: Snapshot, pinBytes: nat,
    bytes: nat, createdAt: int, expiresAt: int, deadline: int, own: Ownership)

  datatype Cause = Ttl | Drain | AccountRemoved | ResumeMiss | Capacity | Superseded | Deadline

  datatype Refusal = Draining | NoScope | NotClientGone | BadSnapshot | NoDeadline | Busy | OverBytes | OverEntries

  datatype Counter =
    | Admitted
    | Refused(reason: Refusal)
    | LookupHit
    | LookupMiss
    | ClaimOk
    | ClaimBusy
    | ClaimTtl
    | ClaimDeadline
    | ClaimGone
    | Served
    | ReDetached
    | Evicted(cause: Cause)

  datatype Limits = Limits(ttlMs: nat, maxEntries: nat, maxPerCaller: nat, maxEntryBytes: nat, maxTotalBytes: nat)

  const DEFAULTS: Limits := Limits(120_000, 8, 2, 4 * 1024 * 1024, 32 * 1024 * 1024)

  /** `entries` is in insertion order; `nextId` and `nextToken` hand out identities never used before. */
  datatype Reg = Reg(
    entries: seq<Entry>, totalBytes: int, draining: bool, counters: multiset<Counter>, nextId: nat, nextToken: nat)
  {
    function Count(c: Counter): Reg {
      this.(counters := counters + multiset{c})
    }
  }

  const EMPTY: Reg := Reg([], 0, false, multiset{}, 0, 0)

  // ------------------------------------------------------------------
  // Entries
  // ------------------------------------------------------------------

  function FindKey(es: seq<Entry>, key: Key): (r: Option<Entry>)
    ensures r.Some? ==> r.value in es && r.value.key == key
    ensures r.None? ==> forall e :: e in es ==> e.key != key
  {
    if es == [] then None else if es[0].key == key then Some(es[0]) else FindKey(es[1..], key)
  }

  predicate HasId(es: seq<Entry>, id: nat) {
    exists k :: 0 <= k < |es| && es[k].id == id
  }

  function Without(es: seq<Entry>, id: nat): (r: seq<Entry>)
    ensures forall e :: e in r <==> e in es && e.id != id
    ensures |r| <= |es| && (HasId(es, id) ==> |r| < |es|)
  {
    if es == [] then []
    else if es[0].id == id then Without(es[1..], id)
    else [es[0]] + Without(es[1..], id)
  }

  function Sum(es: seq<Entry>, weight: Entry -> nat): nat {
    if es == [] then 0 else weight(es[0]) + Sum(es[1..], weight)
  }

  function TotalBytes(es: seq<Entry>): nat {
    Sum(es, (e: Entry) => e.bytes)
  }

  function CallerCount(es: seq<Entry>, caller: string): nat {
    Sum(es, (e: Entry) => if e.caller == caller then 1 else 0)
  }

  /** Why an entry must go at `now`, if it must: a claimed entry only by its deadline. */
  function Due(e: Entry, now: int): Option<Cause> {
    if e.own.Claimed? then (if e.deadline <= now then Some(Deadline) else None)
    else if e.expiresAt <= now then Some(Ttl)
    else if e.deadline <= now then Some(Deadline)
    else None
  }

  // ------------------------------------------------------------------
  // Deleting
  // ------------------------------------------------------------------

  function Delete(r: Reg, e: Entry, outcome: Counter): Reg {
    if HasId(r.entries, e.id) then
      r.(entries := Without(r.entries, e.id),
         totalBytes := Max(0, r.totalBytes - e.bytes),
         counters := r.counters + multiset{outcome})
    else r
  }

  function DeleteDue(r: Reg, e: Entry, now: int): Reg {
    if Due(e, now).Some? then Delete(r, e, Evicted(Due(e, now).value)) else r
  }

  /** Visit a copy of the entries in order and delete those for which `verdict` names a cause. */
  function Purge(r: Reg, todo: seq<Entry>, verdict: Entry -> Option<Cause>): Reg
    decreases |todo|
  {
    if todo == [] then r
    else
      var cause := verdict(todo[0]);
      Purge(if cause.Some? then Delete(r, todo[0], Evicted(cause.value)) else r, todo[1..], verdict)
  }

  function Sweep(r: Reg, now: int): Reg {
    Purge(r, r.entries, (e: Entry) => Due(e, now))
  }

  predicate Eligible(e: Entry, caller: Option<string>) {
    e.own.Running? && (caller.None? || e.caller == caller.value)
  }

  /** The oldest running entry, the first inserted among equals. */
  function Oldest(es: seq<Entry>, caller: Option<string>): (r: Option<Entry>)
    ensures r.Some? ==> r.value in es && Eligible(r.value, caller)
    ensures r.None? ==> forall e :: e in es ==> !Eligible(e, caller)
    ensures r.Some? ==> forall e :: e in es && Eligible(e, caller) ==> r.value.createdAt <= e.createdAt
  {
    if es == [] then None
    else
      var last := es[|es| - 1];
      var before := Oldest(es[..|es| - 1], caller);
      assert forall e :: e in es ==> e == last || e in es[..|es| - 1];
      if Eligible(last, caller) && (before.None? || last.createdAt < before.value.createdAt) then Some(last) else before
  }

  /** Evict oldest running entries until there is a free slot; false when only claimed ones are left. */
  function MakeRoom(r: Reg, maxEntries: nat): (Reg, bool)
    decreases |r.entries|
  {
    if |r.entries| < maxEntries then (r, true)
    else
      var oldest := Oldest(r.entries, None);
      if oldest.None? then (r, false)
      else
        assert HasId(r.entries, oldest.value.id);
        MakeRoom(Delete(r, oldest.value, Evicted(Capacity)), maxEntries)
  }

  // ------------------------------------------------------------------
  // Admission
  // ------------------------------------------------------------------

  function ChunkBytes(chunks: seq<Chunk>): nat {
    if chunks == [] then 0
    else (|chunks[0].text| + |chunks[0].thinking|) * 2 + 64 + ChunkBytes(chunks[1..])
  }

  function SnapshotBytes(s: Snapshot, pinBytes: nat): nat {
    1024 + ChunkBytes(GetOr(s.chunks, [])) + pinBytes
  }

  /** `pinBytes` is the length of the pin as JSON; `None` stands for what is missing or not an integer. */
  datatype Request = Request(
    key: Option<Key>, caller: string, account: string, snapshot: Option<Snapshot>,
    deadline: Option<int>, pinBytes: nat, clientGone: bool)

  predicate SettledSnapshot(s: Option<Snapshot>) {
    s.Some? && s.value.version == Some(SNAPSHOT_VERSION)
    && s.value.consumedThrough.Some? && s.value.consumedThrough == s.value.stepOffset
  }

  /** The checks that need nothing but the request and the clock. */
  function Screen(r: Reg, q: Request, now: int): Option<Refusal> {
    if r.draining then Some(Draining)
    else if q.key.None? || q.caller == "" then Some(NoScope)
    else if !q.clientGone then Some(NotClientGone)
    else if !SettledSnapshot(q.snapshot) || q.snapshot.value.chunks.None? then Some(BadSnapshot)
    else if q.deadline.None? || q.deadline.value <= now then Some(NoDeadline)
    else None
  }

  function Refuse(r: Reg, why: Refusal): (Reg, Option<Refusal>) {
    (r.Count(Refused(why)), Some(why))
  }

  function NewEntry(lim: Limits, r: Reg, q: Request, now: int): Entry
    requires q.key.Some? && q.snapshot.Some? && q.deadline.Some?
  {
    Entry(r.nextId, q.key.value, q.caller, q.account, q.snapshot.value, q.pinBytes,
          SnapshotBytes(q.snapshot.value, q.pinBytes), now, now + lim.ttlMs, q.deadline.value, Running)
  }

  function Insert(r: Reg, e: Entry): Reg {
    r.(entries := r.entries + [e], totalBytes := r.totalBytes + e.bytes,
       counters := r.counters + multiset{Admitted}, nextId := r.nextId + 1, nextToken := r.nextToken + 1)
  }

  /** Free a slot for one more entry of `caller`: first within the caller's own cap, then overall. */
  function FreeSlot(lim: Limits, r: Reg, caller: string): (Reg, bool) {
    if CallerCount(r.entries, caller) >= lim.maxPerCaller then
      var own := Oldest(r.entries, Some(caller));
      if own.None? then (r, false) else MakeRoom(Delete(r, own.value, Evicted(Capacity)), lim.maxEntries)
    else MakeRoom(r, lim.maxEntries)
  }

  /** The same-key entry gives way to its successor. */
  function Cleared(r: Reg, key: Key): Reg {
    var existing := FindKey(r.entries, key);
    if existing.Some? then Delete(r, existing.value, Evicted(Superseded)) else r
  }

  function AdmitFitting(lim: Limits, cleared: Reg, e: Entry): (Reg, Option<Refusal>) {
    var (room, ok) := FreeSlot(lim, cleared, e.caller);
    if ok then (Insert(room, e), None) else Refuse(room, OverEntries)
  }

  /** The size is checked before anything is given up; the superseded bytes are credited. */
  function AdmitSwept(lim: Limits, r: Reg, e: Entry): (Reg, Option<Refusal>) {
    var existing := FindKey(r.entries, e.key);
    var freed := if existing.Some? then existing.value.bytes else 0;
    if existing.Some? && existing.value.own.Claimed? then Refuse(r, Busy)
    else if e.bytes > lim.maxEntryBytes || r.totalBytes - freed + e.bytes > lim.maxTotalBytes then Refuse(r, OverBytes)
    else AdmitFitting(lim, Cleared(r, e.key), e)
  }

  /** `t0` is read by the deadline check and `now` by everything after it. */
  function Admit(lim: Limits, r: Reg, q: Request, t0: int, now: int): (Reg, Option<Refusal>) {
    var early := Screen(r, q, t0);
    if early.Some? then Refuse(r, early.value)
    else
      var swept := Sweep(r, now);
      AdmitSwept(lim, swept, NewEntry(lim, swept, q, now))
  }

  // ------------------------------------------------------------------
  // The other operations
  // ------------------------------------------------------------------

  function Lookup(r: Reg, key: Key, caller: string, now: int): (Reg, Option<Entry>) {
    var e := FindKey(r.entries, key);
    if e.None? || e.value.caller != caller then (r.Count(LookupMiss), None)
    else if Due(e.value, now).Some? then (DeleteDue(r, e.value, now).Count(LookupMiss), None)
    else (r.Count(LookupHit), e)
  }

  function Replace(es: seq<Entry>, e: Entry): (out: seq<Entry>)
    ensures |out| == |es|
    ensures forall k :: 0 <= k < |es| ==> out[k] == if es[k].id == e.id then e else es[k]
  {
    if es == [] then [] else [if es[0].id == e.id then e else es[0]] + Replace(es[1..], e)
  }

  /** The claimed entry, or which counter says why there is none. */
  function Claim(r: Reg, key: Key, caller: string, now: int): (Reg, Result<Entry, Counter>) {
    var found := FindKey(r.entries, key);
    if found.None? || found.value.caller != caller then (r.Count(ClaimGone), Err(ClaimGone))
    else
      var e := found.value;
      if !e.own.Running? then (r.Count(ClaimBusy), Err(ClaimBusy))
      else if e.expiresAt <= now then (Delete(r, e, Evicted(Ttl)).Count(ClaimTtl), Err(ClaimTtl))
      else if e.deadline <= now then (Delete(r, e, Evicted(Deadline)).Count(ClaimDeadline), Err(ClaimDeadline))
      else
        var mine := e.(own := Claimed(r.nextToken));
        (r.(entries := Replace(r.entries, mine), counters := r.counters + multiset{ClaimOk}, nextToken := r.nextToken + 1),
         Ok(mine))
  }

  /** The entry that `token` has claimed under `key`. */
  function ClaimOf(r: Reg, key: Key, token: nat): Option<Entry> {
    var e := FindKey(r.entries, key);
    if e.Some? && e.value.own == Claimed(token) then e else None
  }

  function Owns(r: Reg, key: Key, token: nat, now: int): (Reg, bool) {
    var e := ClaimOf(r, key, token);
    if e.None? then (r, false)
    else if e.value.deadline <= now then (Delete(r, e.value, Evicted(Deadline)), false)
    else (r, true)
  }

  datatype Mode = ToServed | ToRunning(snapshot: Option<Snapshot>) | ToOther

  /** `t0` is read by the deadline check and `now` by the TTL check behind it. */
  function Release(lim: Limits, r: Reg, key: Key, token: nat, mode: Mode, t0: int, now: int): (Reg, bool) {
    var claim := ClaimOf(r, key, token);
    if claim.None? then (r, false)
    else
      var e := claim.value;
      if e.deadline <= t0 then (Delete(r, e, Evicted(Deadline)), false)
      else if mode.ToServed? then (Delete(r, e, Served), true)
      else if mode.ToOther? then (r, false)
      else if e.expiresAt <= now then (Delete(r, e, Evicted(Ttl)), false)
      else ReDetach(lim, r, e, mode.snapshot)
  }

  /** Put a claimed entry back to running under a new snapshot, or give it up when that does not fit. */
  function ReDetach(lim: Limits, r: Reg, e: Entry, snapshot: Option<Snapshot>): (Reg, bool) {
    if !SettledSnapshot(snapshot) then (Delete(r, e, Evicted(ResumeMiss)), false)
    else
      var bytes := SnapshotBytes(snapshot.value, e.pinBytes);
      if bytes > lim.maxEntryBytes || r.totalBytes - e.bytes + bytes > lim.maxTotalBytes then
        (Delete(r, e, Evicted(Capacity)), false)
      else
        (r.(entries := Replace(r.entries, e.(snapshot := snapshot.value, bytes := bytes, own := Running)),
            totalBytes := Max(0, r.totalBytes - e.bytes) + bytes,
            counters := r.counters + multiset{ReDetached}),
         true)
  }

  /** Which instance an eviction means: nothing, a claim, or an entry object. */
  datatype Identity = Nobody | ByToken(token: nat) | ByEntry(id: nat)

  predicate Names(who: Identity, e: Entry) {
    match e.own
    case Claimed(token) => who == ByToken(token)
    case Running => who == ByEntry(e.id)
  }

  function Evict(r: Reg, key: Key, cause: Cause, who: Identity, now: int): (Reg, bool) {
    var e := FindKey(r.entries, key);
    if e.None? || !Names(who, e.value) then (r, false)
    else
      (Delete(r, e.value, Evicted(if e.value.own.Claimed? && e.value.deadline <= now then Deadline else cause)), true)
  }

  /** The timer armed for an entry object fires; whether it was ever armed does not matter. */
  function TimerFires(r: Reg, key: Key, id: nat, now: int): Reg {
    var e := FindKey(r.entries, key);
    if e.None? || e.value.id != id then r else DeleteDue(r, e.value, now)
  }

  /** Every entry, or every entry of one account, goes for the same cause. */
  function Targets(account: Option<string>, cause: Cause): Entry -> Option<Cause> {
    (e: Entry) => if account.None? || e.account == account.value then Some(cause) else None
  }

  function EvictForAccount(r: Reg, account: string): Reg {
    if account == "" then r else Purge(r, r.entries, Targets(Some(account), AccountRemoved))
  }

  function BeginDrain(r: Reg): Reg {
    Purge(r.(draining := true), r.entries, Targets(None, Drain))
  }

  // ------------------------------------------------------------------
  // The object
  // ------------------------------------------------------------------

  class DetachedRegistry {
    const lim: Limits
    var entries: seq<Entry>
    var totalBytes: int
    var draining: bool
    var counters: multiset<Counter>
    var nextId: nat
    var nextToken: nat

    ghost function Value(): Reg
      reads this
    {
      Reg(entries, totalBytes, draining, counters, nextId, nextToken)
    }

    constructor (lim: Limits := DEFAULTS)
      ensures this.lim == lim && Value() == EMPTY
    {
      this.lim := lim;
      entries, totalBytes, draining, counters, nextId, nextToken := [], 0, false, multiset{}, 0, 0;
    }

    method Tally(c: Counter)
      modifies this`counters
      ensures Value() == old(Value()).Count(c)
    {
      counters := counters + multiset{c};
    }

    /** Identity-checked delete: nothing happens when the key already holds a successor. */
    method DeleteEntry(e: Entry, outcome: Counter) returns (deleted: bool)
      modifies this`entries, this`totalBytes, this`counters
      ensures Value() == Delete(old(Value()), e, outcome)
      ensures |counters| == |old(counters)| + if deleted then 1 else 0
      ensures deleted <==> HasId(old(entries), e.id)
    {
      deleted := exists k :: 0 <= k < |entries| && entries[k].id == e.id;
      if deleted {
        entries := Without(entries, e.id);
        totalBytes := if totalBytes - e.bytes >= 0 then totalBytes - e.bytes else 0;
        counters := counters + multiset{outcome};
      }
    }

    method SweepExpired(now: int) returns (evicted: nat)
      modifies this`entries, this`totalBytes, this`counters
      ensures Value() == Sweep(old(Value()), now) && |counters| == |old(counters)| + evicted
    {
      ghost var v := (e: Entry) => Due(e, now);
      ghost var goal := Sweep(Value(), now);
      var copy := entries;
      evicted := 0;
      var k := 0;
      assert copy[0..] == copy;
      while k < |copy|
        invariant k <= |copy|
        invariant goal == Purge(Value(), copy[k..], v) && |counters| == |old(counters)| + evicted
      {
        assert copy[k..][0] == copy[k] && copy[k..][1..] == copy[k + 1..];
        var e := copy[k];
        var deleted := false;
        if e.own.Claimed? {
          if e.deadline <= now {
            deleted := DeleteEntry(e, Evicted(Deadline));
          }
        } else if e.expiresAt <= now {
          deleted := DeleteEntry(e, Evicted(Ttl));
        } else if e.deadline <= now {
          deleted := DeleteEntry(e, Evicted(Deadline));
        }
        if deleted {
          evicted := evicted + 1;
        }
        k := k + 1;
      }
    }

    method OldestRunning(caller: Option<string>) returns (oldest: Option<Entry>)
      ensures oldest == Oldest(entries, caller)
    {
      oldest := None;
      var k := 0;
      while k < |entries|
        invariant k <= |entries|
        invariant oldest == Oldest(entries[..k], caller)
      {
        assert entries[..k + 1][..k] == entries[..k];
        var e := entries[k];
        if e.own.Running? && (caller.None? || e.caller == caller.value) {
          if oldest.None? || e.createdAt < oldest.value.createdAt {
            oldest := Some(e);
          }
        }
        k := k + 1;
      }
      assert entries[..|entries|] == entries;
    }

    /** Evict the oldest non-claimed entry, of one caller or of all. */
    method EvictOldestRunning(caller: Option<string>) returns (dropped: bool)
      modifies this`entries, this`totalBytes, this`counters
      ensures dropped <==> Oldest(old(entries), caller).Some?
      ensures Value() == if dropped then Delete(old(Value()), Oldest(old(entries), caller).value, Evicted(Capacity)) else old(Value())
    {
      var oldest := OldestRunning(caller);
      if oldest.None? {
        return false;
      }
      dropped := DeleteEntry(oldest.value, Evicted(Capacity));
    }

    method CountCaller(caller: string) returns (count: nat)
      ensures count == CallerCount(entries, caller)
    {
      ghost var weight := (e: Entry) => if e.caller == caller then 1 else 0;
      count := 0;
      var k := 0;
      assert entries[0..] == entries;
      while k < |entries|
        invariant 0 <= k <= |entries|
        invariant count + Sum(entries[k..], weight) == Sum(entries, weight)
      {
        assert entries[k..][0] == entries[k] && entries[k..][1..] == entries[k + 1..];
        if entries[k].caller == caller {
          count := count + 1;
        }
        k := k + 1;
      }
      assert entries[k..] == [];
    }

    method MakeFreeSlot(caller: string) returns (ok: bool)
      modifies this`entries, this`totalBytes, this`counters
      ensures (Value(), ok) == FreeSlot(lim, old(Value()), caller)
    {
      var count := CountCaller(caller);
      if count >= lim.maxPerCaller {
        var dropped := EvictOldestRunning(Some(caller));
        if !dropped {
          return false;
        }
      }
      ghost var goal := MakeRoom(Value(), lim.maxEntries);
      while |entries| >= lim.maxEntries
        invariant goal == MakeRoom(Value(), lim.maxEntries)
        decreases |entries|
      {
        assert Oldest(entries, None).Some? ==> HasId(entries, Oldest(entries, None).value.id);
        var dropped := EvictOldestRunning(None);
        if !dropped {
          return false;
        }
      }
      return true;
    }

    method AdmitTurn(q: Request, t0: int, now: int) returns (refused: Option<Refusal>)
      modifies this
      ensures (Value(), refused) == Admit(lim, old(Value()), q, t0, now)
    {
      if draining {
        Tally(Refused(Draining));
        return Some(Draining);
      }
      if q.key.None? || q.caller == "" {
        Tally(Refused(NoScope));
        return Some(NoScope);
      }
      if !q.clientGone {
        Tally(Refused(NotClientGone));
        return Some(NotClientGone);
      }
      if !SettledSnapshot(q.snapshot) || q.snapshot.value.chunks.None? {
        Tally(Refused(BadSnapshot));
        return Some(BadSnapshot);
      }
      if q.deadline.None? || q.deadline.value <= t0 {
        Tally(Refused(NoDeadline));
        return Some(NoDeadline);
      }
      var evicted := SweepExpired(now);
      var e := Entry(nextId, q.key.value, q.caller, q.account, q.snapshot.value, q.pinBytes,
                     SnapshotBytes(q.snapshot.value, q.pinBytes), now, now + lim.ttlMs, q.deadline.value, Running);
      refused := AdmitEntry(e);
    }

    method AdmitEntry(e: Entry) returns (refused: Option<Refusal>)
      modifies this
      ensures (Value(), refused) == AdmitSwept(lim, old(Value()), e)
    {
      var existing := FindKey(entries, e.key);
      if existing.Some? && existing.value.own.Claimed? {
        Tally(Refused(Busy));
        return Some(Busy);
      }
      var existingBytes := if existing.Some? then existing.value.bytes else 0;
      if e.bytes > lim.maxEntryBytes || totalBytes - existingBytes + e.bytes > lim.maxTotalBytes {
        Tally(Refused(OverBytes));
        return Some(OverBytes);
      }
      if existing.Some? {
        var _ := DeleteEntry(existing.value, Evicted(Superseded));
      }
      refused := AdmitIntoSlot(e);
    }

    method AdmitIntoSlot(e: Entry) returns (refused: Option<Refusal>)
      modifies this
      ensures (Value(), refused) == AdmitFitting(lim, old(Value()), e)
    {
      var ok := MakeFreeSlot(e.caller);
      if !ok {
        Tally(Refused(OverEntries));
        return Some(OverEntries);
      }
      StoreEntry(e);
      return None;
    }

    method StoreEntry(e: Entry)
      modifies this
      ensures Value() == Insert(old(Value()), e)
    {
      entries, totalBytes := entries + [e], totalBytes + e.bytes;
      nextId, nextToken := nextId + 1, nextToken + 1;
      Tally(Admitted);
    }

    method LookupEntry(key: Key, caller: string, now: int) returns (found: Option<Entry>)
      modifies this`entries, this`totalBytes, this`counters
      ensures (Value(), found) == Lookup(old(Value()), key, caller, now)
    {
      var e := FindKey(entries, key);
      if e.None? || e.value.caller != caller {
        Tally(LookupMiss);
        return None;
      }
      if e.value.own.Claimed? {
        if e.value.deadline <= now {
          var _ := DeleteEntry(e.value, Evicted(Deadline));
          Tally(LookupMiss);
          return None;
        }
        Tally(LookupHit);
        return e;
      }
      if e.value.expiresAt <= now {
        var _ := DeleteEntry(e.value, Evicted(Ttl));
        Tally(LookupMiss);
        return None;
      }
      if e.value.deadline <= now {
        var _ := DeleteEntry(e.value, Evicted(Deadline));
        Tally(LookupMiss);
        return None;
      }
      Tally(LookupHit);
      return e;
    }

    method ClaimEntry(key: Key, caller: string, now: int) returns (r: Result<Entry, Counter>)
      modifies this`entries, this`totalBytes, this`counters, this`nextToken
      ensures (Value(), r) == Claim(old(Value()), key, caller, now)
    {
      var found := FindKey(entries, key);
      if found.None? || found.value.caller != caller {
        Tally(ClaimGone);
        return Err(ClaimGone);
      }
      var e := found.value;
      if !e.own.Running? {
        Tally(ClaimBusy);
        return Err(ClaimBusy);
      }
      if e.expiresAt <= now {
        var _ := DeleteEntry(e, Evicted(Ttl));
        Tally(ClaimTtl);
        return Err(ClaimTtl);
      }
      if e.deadline <= now {
        var _ := DeleteEntry(e, Evicted(Deadline));
        Tally(ClaimDeadline);
        return Err(ClaimDeadline);
      }
      var mine := e.(own := Claimed(nextToken));
      entries, nextToken := Replace(entries, mine), nextToken + 1;
      Tally(ClaimOk);
      return Ok(mine);
    }

    method OwnsClaim(key: Key, token: nat, now: int) returns (owns: bool)
      modifies this`entries, this`totalBytes, this`counters
      ensures (Value(), owns) == Owns(old(Value()), key, token, now)
    {
      var e := FindKey(entries, key);
      if e.None? || e.value.own != Claimed(token) {
        return false;
      }
      if e.value.deadline <= now {
        var _ := DeleteEntry(e.value, Evicted(Deadline));
        return false;
      }
      return true;
    }

    method ReleaseClaim(key: Key, token: nat, mode: Mode, t0: int, now: int) returns (ok: bool)
      modifies this`entries, this`totalBytes, this`counters
      ensures (Value(), ok) == Release(lim, old(Value()), key, token, mode, t0, now)
    {
      var found := FindKey(entries, key);
      if found.None? || found.value.own != Claimed(token) {
        return false;
      }
      var e := found.value;
      if e.deadline <= t0 {
        var _ := DeleteEntry(e, Evicted(Deadline));
        return false;
      }
      if mode.ToServed? {
        var _ := DeleteEntry(e, Served);
        return true;
      }
      if mode.ToOther? {
        return false;
      }
      if e.expiresAt <= now {
        var _ := DeleteEntry(e, Evicted(Ttl));
        return false;
      }
      ok := ReDetachEntry(e, mode.snapshot);
    }

    method ReDetachEntry(e: Entry, snapshot: Option<Snapshot>) returns (ok: bool)
      modifies this`entries, this`totalBytes, this`counters
      ensures (Value(), ok) == ReDetach(lim, old(Value()), e, snapshot)
    {
      if !SettledSnapshot(snapshot) {
        var _ := DeleteEntry(e, Evicted(ResumeMiss));
        return false;
      }
      var bytes := SnapshotBytes(snapshot.value, e.pinBytes);
      if bytes > lim.maxEntryBytes || totalBytes - e.bytes + bytes > lim.maxTotalBytes {
        var _ := DeleteEntry(e, Evicted(Capacity));
        return false;
      }
      totalBytes := Max(0, totalBytes - e.bytes) + bytes;
      entries := Replace(entries, e.(snapshot := snapshot.value, bytes := bytes, own := Running));
      Tally(ReDetached);
      return true;
    }

    method EvictEntry(key: Key, cause: Cause, who: Identity, now: int) returns (ok: bool)
      modifies this`entries, this`totalBytes, this`counters
      ensures (Value(), ok) == Evict(old(Value()), key, cause, who, now)
    {
      var e := FindKey(entries, key);
      if e.None? || !Names(who, e.value) {
        return false;
      }
      var effective := if e.value.own.Claimed? && e.value.deadline <= now then Deadline else cause;
      var _ := DeleteEntry(e.value, Evicted(effective));
      return true;
    }

    /** The callback of the timer armed for an entry object. */
    method OnTimer(key: Key, id: nat, now: int)
      modifies this`entries, this`totalBytes, this`counters
      ensures Value() == TimerFires(old(Value()), key, id, now)
    {
      var e := FindKey(entries, key);
      if e.None? || e.value.id != id {
        return;
      }
      if e.value.own.Running? {
        if e.value.expiresAt <= now {
          var ok := EvictEntry(key, Ttl, ByEntry(id), now);
        } else if e.value.deadline <= now {
          var ok := EvictEntry(key, Deadline, ByEntry(id), now);
        }
      } else if e.value.deadline <= now {
        var ok := EvictEntry(key, Deadline, ByToken(e.value.own.token), now);
      }
    }

    /** Delete every entry, or every entry of an account. */
    method PurgeEntries(account: Option<string>, cause: Cause) returns (evicted: nat)
      modifies this`entries, this`totalBytes, this`counters
      ensures Value() == Purge(old(Value()), old(entries), Targets(account, cause)) && |counters| == |old(counters)| + evicted
    {
      ghost var goal := Purge(Value(), entries, Targets(account, cause));
      var copy := entries;
      evicted := 0;
      var k := 0;
      assert copy[0..] == copy;
      while k < |copy|
        invariant k <= |copy|
        invariant goal == Purge(Value(), copy[k..], Targets(account, cause)) && |counters| == |old(counters)| + evicted
      {
        assert copy[k..][0] == copy[k] && copy[k..][1..] == copy[k + 1..];
        if account.None? || copy[k].account == account.value {
          var deleted := DeleteEntry(copy[k], Evicted(cause));
          if deleted {
            evicted := evicted + 1;
          }
        }
        k := k + 1;
      }
    }

    method EvictAccount(account: string) returns (evicted: nat)
      modifies this`entries, this`totalBytes, this`counters
      ensures Value() == EvictForAccount(old(Value()), account) && |counters| == |old(counters)| + evicted
    {
      evicted := 0;
      if account != "" {
        evicted := PurgeEntries(Some(account), AccountRemoved);
      }
    }

    method StartDrain()
      modifies this`entries, this`totalBytes, this`counters, this`draining
      ensures Value() == BeginDrain(old(Value()))
    {
      draining := true;
      var _ := PurgeEntries(None, Drain);
    }
  }
}
