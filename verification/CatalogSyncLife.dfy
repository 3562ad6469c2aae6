/** The life of an attempt to fetch a catalog: when one begins, what it needs to succeed, and what success and failure mean for
    the next one. */
module CatalogSyncLives {
  import opened Prelude
  import opened CatalogSyncs
  import opened CatalogSyncRuns

  // ------------------------------------------------------------------
  // Selectors
  // ------------------------------------------------------------------

  predicate AllSpace(s: string) {
    forall k :: 0 <= k < |s| ==> IsSpace(s[k])
  }

  lemma {:induction false} TrimLeftIs(s: string) returns (space: string)
    ensures s == space + TrimLeft(s) && AllSpace(space) && (TrimLeft(s) != "" ==> !IsSpace(TrimLeft(s)[0]))
    decreases |s|
  {
    space := "";
    if s != "" && IsSpace(s[0]) {
      var more := TrimLeftIs(s[1..]);
      space := [s[0]] + more;
    }
  }

  lemma {:induction false} TrimRightIs(s: string) returns (space: string)
    ensures s == TrimRight(s) + space && AllSpace(space) && (TrimRight(s) != "" ==> !IsSpace(TrimRight(s)[|TrimRight(s)| - 1]))
    decreases |s|
  {
    space := "";
    if s != "" && IsSpace(s[|s| - 1]) {
      var less := TrimRightIs(s[..|s| - 1]);
      space := less + [s[|s| - 1]];
    }
  }

  /** A name is a selector without the white space around it. */
  lemma NameIsTrimmed(row: Row) returns (before: string, after: string)
    ensures row.selector == before + Name(row) + after && AllSpace(before) && AllSpace(after)
    ensures Name(row) != "" ==> !IsSpace(Name(row)[0]) && !IsSpace(Name(row)[|Name(row)| - 1])
  {
    before := TrimLeftIs(row.selector);
    var rest := TrimLeft(row.selector);
    after := TrimRightIs(rest);
    if Name(row) != "" {
      assert rest[0] == Name(row)[0];
    }
  }

  /** Tabs, line breaks, blanks, non-breaking blanks and byte order marks name nothing. */
  lemma {:induction false} SpaceNamesNothing(s: string)
    requires forall k :: 0 <= k < |s| ==> s[k] in {'\t', '\n', '\r', ' ', 0xA0 as char, 0xFEFF as char}
    ensures Name(Bare(s)) == ""
  {
    TrimmedAway(s);
  }

  lemma {:induction false} TrimmedAway(s: string)
    requires AllSpace(s)
    ensures TrimLeft(s) == ""
    decreases |s|
  {
    if s != "" {
      TrimmedAway(s[1..]);
    }
  }

  lemma {:induction false} NonblankHas(rows: seq<Row>, row: Row)
    ensures row in Nonblank(rows) <==> row in rows && Name(row) != ""
    decreases |rows|
  {
    if rows != [] {
      var init, last := rows[..|rows| - 1], rows[|rows| - 1];
      NonblankHas(init, row);
      assert rows == init + [last];
    }
  }

  /** The response names a selector. */
  ghost predicate NamesSome(response: seq<Row>) {
    exists row :: row in response && Name(row) != ""
  }

  lemma NonblankIff(response: seq<Row>)
    ensures Nonblank(response) != [] <==> NamesSome(response)
  {
    if Nonblank(response) != [] {
      NonblankHas(response, Nonblank(response)[0]);
    }
    if NamesSome(response) {
      var row :| row in response && Name(row) != "";
      NonblankHas(response, row);
    }
  }

  // ------------------------------------------------------------------
  // One contribution for an account
  // ------------------------------------------------------------------

  ghost predicate OneEach(stored: seq<Synced>) {
    forall i, j :: 0 <= i < j < |stored| ==> stored[i].id != stored[j].id
  }

  lemma {:induction false} PutKeepsOneEach(stored: seq<Synced>, x: Synced)
    requires OneEach(stored)
    ensures OneEach(Put(stored, x)) && Ids(Put(stored, x)) == Ids(stored) + {x.id}
    decreases |stored|
  {
    if stored != [] {
      var rest := stored[1..];
      assert forall s :: s in stored <==> s == stored[0] || s in rest;
      assert forall i :: 0 <= i < |rest| ==> rest[i] == stored[i + 1];
      if stored[0].id == x.id {
        assert Put(stored, x) == [x] + rest;
      } else {
        PutKeepsOneEach(rest, x);
        var more := Put(rest, x);
        assert Put(stored, x) == [stored[0]] + more;
        HeadIsNew(stored[0], more, rest, x);
      }
    }
  }

  lemma {:induction false} HeadIsNew(head: Synced, more: seq<Synced>, rest: seq<Synced>, x: Synced)
    requires Ids(more) == Ids(rest) + {x.id} && head.id != x.id && head.id !in Ids(rest) && OneEach(more)
    ensures OneEach([head] + more)
    ensures Ids([head] + more) == {head.id} + Ids(rest) + {x.id}
  {
    forall i | 0 <= i < |more| ensures more[i].id != head.id {
      assert more[i].id in Ids(more);
    }
    var all := [head] + more;
    forall id ensures id in Ids(all) <==> id == head.id || id in Ids(more) {
      assert forall s :: s in all <==> s == head || s in more;
      assert all[0] == head && head in all;
      if id in Ids(more) {
        var s :| s in more && s.id == id;
        assert s in all;
      }
    }
  }

  lemma {:induction false} WithoutKeepsOneEach(stored: seq<Synced>, dead: set<string>)
    requires OneEach(stored)
    ensures OneEach(Without(stored, dead))
    decreases |stored|
  {
    if stored != [] {
      var rest := stored[1..];
      assert forall i :: 0 <= i < |rest| ==> rest[i] == stored[i + 1];
      WithoutKeepsOneEach(rest, dead);
      if stored[0].id !in dead {
        var kept := Without(rest, dead);
        forall i | 0 <= i < |kept| ensures kept[i].id != stored[0].id {
          WithoutHas(rest, dead, kept[i]);
        }
        assert Without(stored, dead) == [stored[0]] + kept;
      }
    }
  }

  /** The rows stored for an account, if any. */
  ghost predicate Stores(c: Catalog, id: string, s: Synced) {
    s in c.stored && s.id == id
  }

  lemma {:induction false} FindRowsIff(stored: seq<Synced>, id: string, s: Synced)
    requires OneEach(stored)
    ensures FindRows(stored, id) == Some(s) <==> s in stored && s.id == id
    decreases |stored|
  {
    if stored != [] {
      assert forall i :: 0 <= i < |stored[1..]| ==> stored[1..][i] == stored[i + 1];
      FindRowsIff(stored[1..], id, s);
    }
  }

  /** In every reachable catalog an account contributes once, and only rows that name something. */
  ghost predicate Tidy(c: Catalog) {
    OneEach(c.stored) && forall s, row :: s in c.stored && row in s.rows ==> Name(row) != ""
  }

  lemma ForgetKeepsTidy(c: Catalog, dead: set<string>)
    requires Tidy(c)
    ensures Tidy(Forget(c, dead))
  {
    WithoutKeepsOneEach(c.stored, dead);
    forall s | s in Without(c.stored, dead) ensures s in c.stored {
      WithoutHas(c.stored, dead, s);
    }
  }

  lemma StoreKeepsTidy(c: Catalog, x: Synced, response: seq<Row>)
    requires Tidy(c) && x.rows == Nonblank(response)
    ensures Tidy(c.(stored := Put(c.stored, x)))
  {
    PutKeepsOneEach(c.stored, x);
    forall s, row | s in Put(c.stored, x) && row in s.rows ensures Name(row) != "" {
      PutHas(c.stored, x, s);
      NonblankHas(response, row);
    }
  }

  lemma StepKeepsTidy(cfg: Config, c: Catalog, a: Action)
    requires Tidy(c)
    ensures Tidy(Step(cfg, c, a))
  {
    match a
    case DoStart(id, now) =>
    case DoResolve(t, response, now) =>
      StoreKeepsTidy(c, Synced(t.id, Nonblank(response), t.key, now, t), response);
    case DoFail(t, now) =>
    case DoSettle(t) =>
    case DoForget(id) => ForgetKeepsTidy(c, {id});
    case DoReconcile => ForgetKeepsTidy(c, Departed(c));
    case DoSetActive(id, active) =>
      if id in c.accounts {
        var d := c.(accounts := c.accounts[id := c.accounts[id].(active := active)]);
        ForgetKeepsTidy(d, Departed(d));
      }
    case DoRekey(id, key) =>
      if id in c.accounts {
        var d := c.(accounts := c.accounts[id := c.accounts[id].(key := key)]);
        ForgetKeepsTidy(d, {id});
        ForgetKeepsTidy(Forget(d, {id}), Departed(Forget(d, {id})));
      }
    case DoAdd(id, key) =>
      var d := c.(accounts := c.accounts[id := Account(true, key)]);
      ForgetKeepsTidy(d, Departed(d));
    case DoRemove(id) =>
      var d := c.(accounts := c.accounts - {id});
      ForgetKeepsTidy(d, {id});
      ForgetKeepsTidy(Forget(d, {id}), Departed(Forget(d, {id})));
  }

  lemma {:induction false} RunKeepsTidy(cfg: Config, run: seq<Action>)
    ensures Tidy(Run(cfg, NEW, run))
    decreases |run|
  {
    if run != [] {
      RunKeepsTidy(cfg, run[..|run| - 1]);
      StepKeepsTidy(cfg, Run(cfg, NEW, run[..|run| - 1]), run[|run| - 1]);
    }
  }

  // ------------------------------------------------------------------
  // What is published
  // ------------------------------------------------------------------

  /** An active account whose rows are missing. */
  ghost predicate Missing(c: Catalog, id: string) {
    id in c.accounts && c.accounts[id].active && c.accounts[id].key != "" && forall s :: s in c.stored ==> s.id != id
  }

  lemma {:induction false} RowsOfStored(stored: seq<Synced>, row: Row)
    ensures row in AllRows(stored) <==> exists s :: s in stored && row in s.rows
    decreases |stored|
  {
    if stored != [] {
      var init, last := stored[..|stored| - 1], stored[|stored| - 1];
      RowsOfStored(init, row);
      assert stored == init + [last];
      assert row in AllRows(stored) <==> row in AllRows(init) || row in last.rows;
      if row in last.rows { assert last in stored; }
    }
  }

  /** After every run: a live catalog is published exactly when some account has contributed; it names exactly the selectors that
      are stored, and the snapshot stays beside it exactly when nobody is active or an active account's rows are missing. */
  lemma {:induction false} LiveSays(cfg: Config, run: seq<Action>)
    ensures var c := Run(cfg, NEW, run);
            && (c.live.Some? <==> c.stored != [])
            && (c.live.Some? ==>
                  && (forall name :: name in Names(c.live.value.union) <==> exists s, row :: s in c.stored && row in s.rows && Name(row) == name)
                  && (c.live.value.fallback <==>
                        (forall id :: id in c.accounts ==> !IsActive(c, id)) || exists id :: Missing(c, id)))
  {
    var c := Run(cfg, NEW, run);
    RunKeepsInv(cfg, run);
    RunKeepsTidy(cfg, run);
    LiveNames(c);
    LiveFallback(c);
  }

  lemma {:induction false} LiveNames(c: Catalog)
    requires Inv(c) && Tidy(c)
    ensures forall name :: name in Names(Union(c.stored)) <==> exists s, row :: s in c.stored && row in s.rows && Name(row) == name
    ensures Union(c.stored) == [] <==> c.stored == []
  {
    UnionIsDeduplicated(c.stored);
    forall name ensures name in Names(Union(c.stored)) <==> exists s, row :: s in c.stored && row in s.rows && Name(row) == name {
      if name in Names(AllRows(c.stored)) {
        var row :| row in AllRows(c.stored) && Name(row) == name;
        RowsOfStored(c.stored, row);
      }
      if s, row :| s in c.stored && row in s.rows && Name(row) == name {
        RowsOfStored(c.stored, row);
      }
    }
    if c.stored != [] {
      var s := c.stored[0];
      assert Sourced(c, s);
      assert s.rows[0] in s.rows && Name(s.rows[0]) in Names(Union(c.stored));
    }
  }

  lemma LiveFallback(c: Catalog)
    ensures NeedsFallback(c) <==> (forall id :: id in c.accounts ==> !IsActive(c, id)) || exists id :: Missing(c, id)
  {
    if exists id :: Missing(c, id) {
      var id :| Missing(c, id);
      assert IsActive(c, id) && FindRows(c.stored, id).None?;
    }
    if id :| id in c.accounts && IsActive(c, id) && FindRows(c.stored, id).None? {
      assert Missing(c, id);
    }
  }

  // ------------------------------------------------------------------
  // When an attempt begins
  // ------------------------------------------------------------------

  /** Rows of the current key that are younger than the time to live. */
  ghost predicate Fresh(cfg: Config, c: Catalog, id: string, key: string, now: int) {
    exists s :: s in c.stored && s.id == id && s.key == key && s.at <= now < s.at + cfg.ttlMs
  }

  predicate Resting(c: Catalog, id: string, key: string, now: int) {
    id in c.retries && c.retries[id].key == key && now < c.retries[id].retryAt
  }

  predicate UnderWay(c: Catalog, id: string, key: string) {
    id in c.attempts && c.attempts[id].key == key
  }

  /** The attempt that would begin now. */
  function NextAttempt(c: Catalog, id: string): Attempt
    requires id in c.accounts
  {
    Attempt(c.nextSerial, id, c.accounts[id].key, Epoch(c, id))
  }

  /** An attempt begins exactly for an active account with a key, whose rows are not fresh, which does not rest, and for whose key
      none is under way; it is current at once, and nothing that is stored or published changes. */
  lemma StartsIff(cfg: Config, c: Catalog, id: string, now: int)
    requires Tidy(c) && Distinct(c)
    ensures var d := Start(cfg, c, id, now);
            && (d.begun != c.begun <==>
                  && id in c.accounts && c.accounts[id].active && c.accounts[id].key != ""
                  && !Fresh(cfg, c, id, c.accounts[id].key, now) && !Resting(c, id, c.accounts[id].key, now)
                  && !UnderWay(c, id, c.accounts[id].key))
            && (d.begun != c.begun ==> d.begun == c.begun + {NextAttempt(c, id)} && IsCurrent(d, NextAttempt(c, id)))
            && d.stored == c.stored && d.live == c.live && d.accounts == c.accounts && d.epochs == c.epochs
            && d.retries == if IsActive(c, id) && !Fresh(cfg, c, id, c.accounts[id].key, now)
                               && id in c.retries && c.retries[id].key != c.accounts[id].key then c.retries - {id} else c.retries
  {
    if id in c.accounts {
      FreshIff(cfg, c, id, c.accounts[id].key, now);
      assert NextAttempt(c, id) !in c.begun;
    }
  }

  lemma FreshIff(cfg: Config, c: Catalog, id: string, key: string, now: int)
    requires Tidy(c)
    ensures IsFresh(cfg, c, id, key, now) <==> Fresh(cfg, c, id, key, now)
  {
    var found := FindRows(c.stored, id);
    if Fresh(cfg, c, id, key, now) {
      var s :| s in c.stored && s.id == id && s.key == key && s.at <= now < s.at + cfg.ttlMs;
      FindRowsIff(c.stored, id, s);
    }
  }

  // ------------------------------------------------------------------
  // What becomes of it
  // ------------------------------------------------------------------

  /** Nothing that happens disowns the attempt: it is not settled, its account is not forgotten, disabled, removed or re-keyed,
      and no fetch is begun for another key. */
  predicate Spares(x: Action, a: Attempt) {
    match x
    case DoSettle(b) => b != a
    case DoForget(id) => id != a.id
    case DoSetActive(id, active) => id != a.id || active
    case DoRekey(id, key) => id != a.id || key == a.key
    case DoRemove(id) => id != a.id
    case _ => true
  }

  lemma ReconcilingSpares(c: Catalog, a: Attempt)
    requires IsCurrent(c, a) && a.key != ""
    ensures IsCurrent(Reconcile(c), a)
  {
    assert a.id !in Departed(c);
  }

  lemma ForgettingSpares(c: Catalog, dead: set<string>, a: Attempt)
    requires IsCurrent(c, a) && a.id !in dead
    ensures IsCurrent(Forget(c, dead), a)
  {
  }

  lemma SparedStaysCurrent(cfg: Config, c: Catalog, x: Action, a: Attempt)
    requires IsCurrent(c, a) && a.key != "" && Spares(x, a)
    ensures IsCurrent(Step(cfg, c, x), a)
  {
    match x
    case DoStart(_, _) =>
    case DoResolve(_, _, _) =>
    case DoFail(_, _) =>
    case DoSettle(_) =>
    case DoForget(id) => ForgettingSpares(c, {id}, a);
    case DoReconcile => ReconcilingSpares(c, a);
    case DoSetActive(id, active) =>
      if id in c.accounts { ReconcilingSpares(c.(accounts := c.accounts[id := c.accounts[id].(active := active)]), a); }
    case DoRekey(id, key) =>
      if id in c.accounts && c.accounts[id].key != key {
        var d := c.(accounts := c.accounts[id := c.accounts[id].(key := key)]);
        ForgettingSpares(d, {id}, a);
        ReconcilingSpares(Forget(d, {id}), a);
      }
    case DoAdd(id, key) =>
      if id !in c.accounts { ReconcilingSpares(c.(accounts := c.accounts[id := Account(true, key)]), a); }
    case DoRemove(id) =>
      if id in c.accounts {
        ForgettingSpares(c.(accounts := c.accounts - {id}), {id}, a);
        ReconcilingSpares(Forget(c.(accounts := c.accounts - {id}), {id}), a);
      }
  }

  /** An attempt that is spared stays current through any run, whatever other accounts and attempts do, and then its response
      is stored, whole and in order, if it names a selector. */
  lemma {:induction false} UndisturbedAttemptStores(cfg: Config, c: Catalog, run: seq<Action>, a: Attempt, response: seq<Row>, now: int)
    requires IsCurrent(c, a) && a.key != "" && forall x :: x in run ==> Spares(x, a)
    ensures var d := Run(cfg, c, run);
            && IsCurrent(d, a)
            && (NamesSome(response) ==> FindRows(Resolve(cfg, d, a, response, now).stored, a.id) == Some(Synced(a.id, Nonblank(response), a.key, now, a)))
    decreases |run|
  {
    if run != [] {
      var init, last := run[..|run| - 1], run[|run| - 1];
      assert last in run && forall x :: x in init ==> x in run;
      UndisturbedAttemptStores(cfg, c, init, a, response, now);
      SparedStaysCurrent(cfg, Run(cfg, c, init), last, a);
    }
    NonblankIff(response);
    PutIsFound(Run(cfg, c, run).stored, Synced(a.id, Nonblank(response), a.key, now, a));
  }

  function Order(stored: seq<Synced>): seq<string> {
    if stored == [] then [] else [stored[0].id] + Order(stored[1..])
  }

  /** An account that contributes again keeps its place, a new one comes last: so the first writer of a selector stays first. */
  lemma {:induction false} PutKeepsPlace(stored: seq<Synced>, x: Synced)
    ensures Order(Put(stored, x)) == if x.id in Ids(stored) then Order(stored) else Order(stored) + [x.id]
    decreases |stored|
  {
    if stored != [] {
      PutKeepsPlace(stored[1..], x);
      assert x.id in Ids(stored) <==> x.id == stored[0].id || x.id in Ids(stored[1..]);
    }
  }

  lemma {:induction false} PutIsFound(stored: seq<Synced>, x: Synced)
    ensures FindRows(Put(stored, x), x.id) == Some(x)
    decreases |stored|
  {
    if stored != [] && stored[0].id != x.id {
      PutIsFound(stored[1..], x);
      assert Put(stored, x)[1..] == Put(stored[1..], x);
    }
  }

  /** After a success and its settling the next attempt begins exactly when the rows have outlived their time. */
  lemma {:induction false} SuccessKeepsFresh(cfg: Config, c: Catalog, a: Attempt, response: seq<Row>, at: int, now: int)
    requires Tidy(c) && Distinct(c) && IsCurrent(c, a) && a.key != "" && NamesSome(response)
    ensures var d := Settle(Resolve(cfg, c, a, response, at), a);
            Start(cfg, d, a.id, now).begun != d.begun <==> !(at <= now < at + cfg.ttlMs)
  {
    var x := Synced(a.id, Nonblank(response), a.key, at, a);
    NonblankIff(response);
    StoreKeepsTidy(c, x, response);
    PutIsFound(c.stored, x);
    var d := Settle(Resolve(cfg, c, a, response, at), a);
    StartsIff(cfg, d, a.id, now);
    FreshIff(cfg, d, a.id, a.key, now);
  }

  lemma SameAccount(accounts: map<string, Account>, id: string)
    requires id in accounts
    ensures accounts[id := accounts[id]] == accounts
  {
  }

  /** What the operations on accounts do to the accounts themselves. */
  lemma {:induction false} ChangedAccountIs(c: Catalog, id: string, key: string, active: bool)
    requires id in c.accounts
    ensures SetActive(c, id, active).accounts == c.accounts[id := Account(active, c.accounts[id].key)]
    ensures Rekey(c, id, key).accounts == c.accounts[id := Account(c.accounts[id].active, key)]
    ensures Add(c, id, key) == c
  {
    SameAccount(c.accounts, id);
  }

  lemma {:induction false} AddedAccountIs(c: Catalog, id: string, key: string, active: bool)
    requires id !in c.accounts
    ensures Add(c, id, key).accounts == c.accounts[id := Account(true, key)]
    ensures SetActive(c, id, active) == Rekey(c, id, key) == Remove(c, id) == c
  {
  }

  lemma {:induction false} RemovedAccountIs(c: Catalog, id: string)
    requires id in c.accounts
    ensures Remove(c, id).accounts == c.accounts - {id}
  {
  }

  /** A new key, and leaving the pool, withdraw what the account has stored. */
  lemma {:induction false} RekeyWithdraws(c: Catalog, id: string, key: string)
    requires id in c.accounts && key != c.accounts[id].key
    ensures FindRows(Rekey(c, id, key).stored, id).None?
  {
    var e := Forget(c.(accounts := c.accounts[id := c.accounts[id].(key := key)]), {id});
    NothingLeft(c.stored, {id}, id);
    NothingLeft(e.stored, Departed(e), id);
  }

  lemma {:induction false} RemovalWithdraws(c: Catalog, id: string)
    requires id in c.accounts
    ensures FindRows(Remove(c, id).stored, id).None?
  {
    var d := Forget(c.(accounts := c.accounts - {id}), {id});
    NothingLeft(c.stored, {id}, id);
    NothingLeft(d.stored, Departed(d), id);
  }

  lemma {:induction false} NothingLeft(stored: seq<Synced>, dead: set<string>, id: string)
    requires id in dead || FindRows(stored, id).None?
    ensures FindRows(Without(stored, dead), id).None?
  {
    var found := FindRows(Without(stored, dead), id);
    if found.Some? {
      WithoutHas(stored, dead, found.value);
    }
  }

  /** A fetch that failed, or brought no selector. */
  function Misses(cfg: Config, c: Catalog, a: Attempt, response: Option<seq<Row>>, now: int): Catalog
  {
    Settle(if response.Some? then Resolve(cfg, c, a, response.value, now) else Fail(cfg, c, a, now), a)
  }

  /** How many failures in a row the account has had with its key. */
  function FailuresOf(c: Catalog, id: string, key: string): nat {
    if id in c.retries && c.retries[id].key == key then c.retries[id].failureCount else 0
  }

  /** After a failure the account keeps what it had, one more failure is counted, and the next attempt begins exactly when the
      rest that belongs to that count is over and the rows it may have are not fresh. */
  lemma {:induction false} FailureRests(cfg: Config, c: Catalog, a: Attempt, response: Option<seq<Row>>, at: int, now: int)
    requires Tidy(c) && Distinct(c) && IsCurrent(c, a) && a.key != "" && (response.Some? ==> !NamesSome(response.value))
    ensures var d, n := Misses(cfg, c, a, response, at), FailuresOf(c, a.id, a.key) + 1;
            && d.stored == c.stored && d.live == c.live && FailuresOf(d, a.id, a.key) == n
            && (Start(cfg, d, a.id, now).begun != d.begun <==>
                  now >= at + cfg.retryDelay(n, a.id, a.key) && !Fresh(cfg, c, a.id, a.key, now))
  {
    if response.Some? { NonblankIff(response.value); }
    var d := Misses(cfg, c, a, response, at);
    StartsIff(cfg, d, a.id, now);
  }

  /** A success forgets the failures, and so does a new key. */
  lemma {:induction false} SuccessForgetsFailures(cfg: Config, c: Catalog, a: Attempt, response: seq<Row>, at: int, id: string, key: string)
    requires IsCurrent(c, a) && NamesSome(response) && id in c.accounts && key != c.accounts[id].key
    ensures FailuresOf(Resolve(cfg, c, a, response, at), a.id, a.key) == 0
    ensures FailuresOf(Rekey(c, id, key), id, key) == 0
  {
    NonblankIff(response);
  }
}
