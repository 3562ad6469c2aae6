/** Over every interleaving, stored rows come only from attempts that are still the account's own, responses without
    selectors shrink nothing, and what is published is always the union of what is stored. */
module CatalogSyncRuns {
  import opened Prelude
  import opened CatalogSyncs

  datatype Action =
    | DoStart(id: string, now: int)
    | DoResolve(a: Attempt, response: seq<Row>, now: int)
    | DoFail(a: Attempt, now: int)
    | DoSettle(a: Attempt)
    | DoForget(id: string)
    | DoReconcile
    | DoSetActive(id: string, active: bool)
    | DoRekey(id: string, key: string)
    | DoAdd(id: string, key: string)
    | DoRemove(id: string)

  function Step(cfg: Config, c: Catalog, x: Action): Catalog {
    match x
    case DoStart(id, now) => Start(cfg, c, id, now)
    case DoResolve(a, response, now) => Resolve(cfg, c, a, response, now)
    case DoFail(a, now) => Fail(cfg, c, a, now)
    case DoSettle(a) => Settle(c, a)
    case DoForget(id) => Forget(c, {id})
    case DoReconcile => Reconcile(c)
    case DoSetActive(id, active) => SetActive(c, id, active)
    case DoRekey(id, key) => Rekey(c, id, key)
    case DoAdd(id, key) => Add(c, id, key)
    case DoRemove(id) => Remove(c, id)
  }

  function Run(cfg: Config, c: Catalog, run: seq<Action>): Catalog {
    if run == [] then c else Step(cfg, Run(cfg, c, run[..|run| - 1]), run[|run| - 1])
  }

  const NEW: Catalog := Catalog(map[], [], map[], map[], None, map[], {}, 0)

  // ------------------------------------------------------------------
  // Where rows come from
  // ------------------------------------------------------------------

  /** The attempt began after the last invalidation of its account, and the account still has its key. */
  ghost predicate Valid(c: Catalog, a: Attempt) {
    a in c.begun && IsActive(c, a.id) && c.accounts[a.id].key == a.key && a.epoch == Epoch(c, a.id)
  }

  ghost predicate Sourced(c: Catalog, s: Synced) {
    s.origin.id == s.id && s.key == s.origin.key && s.rows != [] && Valid(c, s.origin)
  }

  ghost predicate AllSourced(c: Catalog) {
    forall s :: s in c.stored ==> Sourced(c, s)
  }

  ghost predicate AttemptsValid(c: Catalog) {
    forall id :: id in c.attempts ==> c.attempts[id].id == id && Valid(c, c.attempts[id])
  }

  /** Attempts are told apart by their serial numbers, and none is of a later epoch than now. */
  ghost predicate Distinct(c: Catalog) {
    && (forall a :: a in c.begun ==> a.serial < c.nextSerial && a.epoch <= Epoch(c, a.id))
    && (forall a, b :: a in c.begun && b in c.begun && a.serial == b.serial ==> a == b)
  }

  ghost predicate Inv(c: Catalog) {
    AllSourced(c) && AttemptsValid(c) && Distinct(c) && c.live == Published(c)
  }

  lemma {:induction false} WithoutHas(stored: seq<Synced>, dead: set<string>, s: Synced)
    ensures s in Without(stored, dead) <==> s in stored && s.id !in dead
    decreases |stored|
  {
    if stored != [] {
      var rest := Without(stored[1..], dead);
      WithoutHas(stored[1..], dead, s);
      assert s in stored <==> s == stored[0] || s in stored[1..];
      assert s in [stored[0]] + rest <==> s == stored[0] || s in rest;
    }
  }

  lemma {:induction false} PutHas(stored: seq<Synced>, x: Synced, s: Synced)
    ensures s in Put(stored, x) ==> s == x || s in stored
    ensures x in Put(stored, x)
    decreases |stored|
  {
    if stored != [] {
      PutHas(stored[1..], x, s);
      assert s in stored <==> s == stored[0] || s in stored[1..];
    }
  }

  /** Accounts may change as long as the changed ones are forgotten. */
  lemma ForgettingKeepsInv(c: Catalog, d: Catalog, dead: set<string>)
    requires AllSourced(c) && AttemptsValid(c) && Distinct(c)
    requires d == Forget(c.(accounts := d.accounts), dead)
    requires forall id :: id in c.accounts && IsActive(c, id) && id !in dead ==> id in d.accounts && d.accounts[id] == c.accounts[id]
    ensures Inv(d)
  {
    forall s | s in d.stored ensures Sourced(d, s) {
      WithoutHas(c.stored, dead, s);
      assert Sourced(c, s);
    }
  }

  lemma PublishingKeepsInv(c: Catalog)
    requires Inv(c)
    ensures Inv(Publish(c)) && Publish(c) == c
  {
  }

  /** After accounts changed, whatever belongs to accounts that are not active any more is forgotten. */
  lemma ReconcilingKeepsInv(c: Catalog, b: Catalog)
    requires AllSourced(c) && AttemptsValid(c) && Distinct(c) && b == c.(accounts := b.accounts)
    requires forall id :: id in c.accounts && IsActive(c, id) && id in b.accounts && IsActive(b, id) ==> b.accounts[id] == c.accounts[id]
    ensures Inv(Reconcile(b))
  {
    var dead := Departed(b);
    var d := Forget(b, dead);
    forall s | s in d.stored ensures Sourced(d, s) {
      WithoutHas(b.stored, dead, s);
      assert Sourced(c, s);
      assert s.id in Ids(b.stored);
    }
    forall id | id in d.attempts ensures d.attempts[id].id == id && Valid(d, d.attempts[id]) {
      assert Valid(c, c.attempts[id]);
    }
    PublishingKeepsInv(d);
  }

  lemma SameSources(c: Catalog, d: Catalog)
    requires AllSourced(c) && d.stored == c.stored && d.accounts == c.accounts && d.epochs == c.epochs && c.begun <= d.begun
    ensures AllSourced(d) && (c.live == Published(c) && d.live == c.live ==> d.live == Published(d))
  {
    forall s | s in d.stored ensures Sourced(d, s) {
      assert Sourced(c, s);
    }
  }

  lemma BeginKeepsInv(c: Catalog, id: string, key: string)
    requires Inv(c) && IsActive(c, id) && c.accounts[id].key == key
    ensures Inv(Begin(c, id, key))
  {
    SameSources(c, Begin(c, id, key));
  }

  lemma StartShape(cfg: Config, c: Catalog, id: string, now: int, d: Catalog)
    requires IsActive(c, id) && d == c.(retries := c.retries - {id})
    ensures Start(cfg, c, id, now) in {c, d, Begin(c, id, c.accounts[id].key), Begin(d, id, c.accounts[id].key)}
  {
  }

  lemma StartKeepsInv(cfg: Config, c: Catalog, id: string, now: int)
    requires Inv(c)
    ensures Inv(Start(cfg, c, id, now))
  {
    if IsActive(c, id) {
      var d, key := c.(retries := c.retries - {id}), c.accounts[id].key;
      StartShape(cfg, c, id, now, d);
      RetryKeepsInv(c, d);
      BeginKeepsInv(c, id, key);
      BeginKeepsInv(d, id, key);
    }
  }

  lemma RetryKeepsInv(c: Catalog, d: Catalog)
    requires Inv(c) && d == c.(retries := d.retries)
    ensures Inv(d)
  {
    SameSources(c, d);
  }

  lemma SettleKeepsInv(c: Catalog, a: Attempt)
    requires Inv(c)
    ensures Inv(Settle(c, a))
  {
    SameSources(c, Settle(c, a));
  }

  lemma {:induction false} StoringKeepsInv(c: Catalog, a: Attempt, rows: seq<Row>, x: Synced, d: Catalog)
    requires Inv(c) && IsCurrent(c, a) && rows != [] && x.id == a.id && x.rows == rows && x.key == a.key && x.origin == a
    requires d == Publish(c.(retries := c.retries - {a.id}, stored := Put(c.stored, x)))
    ensures Inv(d)
  {
    assert Valid(c, a);
    forall s | s in d.stored ensures Sourced(d, s) {
      PutHas(c.stored, x, s);
      assert s == x || Sourced(c, s);
    }
  }

  lemma ResolveKeepsInv(cfg: Config, c: Catalog, a: Attempt, response: seq<Row>, now: int)
    requires Inv(c)
    ensures Inv(Resolve(cfg, c, a, response, now))
  {
    var d, rows := Resolve(cfg, c, a, response, now), Nonblank(response);
    if IsCurrent(c, a) && rows != [] {
      StoringKeepsInv(c, a, rows, Synced(a.id, rows, a.key, now, a), d);
    } else {
      RetryKeepsInv(c, d);
    }
  }

  lemma StepKeepsInv(cfg: Config, c: Catalog, x: Action)
    requires Inv(c)
    ensures Inv(Step(cfg, c, x))
  {
    match x
    case DoStart(id, now) => StartKeepsInv(cfg, c, id, now);
    case DoResolve(a, response, now) => ResolveKeepsInv(cfg, c, a, response, now);
    case DoFail(a, now) => RetryKeepsInv(c, Fail(cfg, c, a, now));
    case DoSettle(a) => SettleKeepsInv(c, a);
    case DoForget(id) => ForgettingKeepsInv(c, Forget(c, {id}), {id});
    case DoReconcile => ReconcilingKeepsInv(c, c);
    case DoSetActive(id, active) =>
      if id in c.accounts {
        ReconcilingKeepsInv(c, c.(accounts := c.accounts[id := c.accounts[id].(active := active)]));
      }
    case DoRekey(id, key) => RekeyKeepsInv(c, id, key);
    case DoAdd(id, key) =>
      if id !in c.accounts {
        ReconcilingKeepsInv(c, c.(accounts := c.accounts[id := Account(true, key)]));
      }
    case DoRemove(id) => RemoveKeepsInv(c, id);
  }

  lemma RemoveKeepsInv(c: Catalog, id: string)
    requires Inv(c)
    ensures Inv(Remove(c, id))
  {
    if id in c.accounts {
      var d := Forget(c.(accounts := c.accounts - {id}), {id});
      ForgettingKeepsInv(c, d, {id});
      ReconcilingKeepsInv(d, d);
    }
  }

  lemma RekeyKeepsInv(c: Catalog, id: string, key: string)
    requires Inv(c)
    ensures Inv(Rekey(c, id, key))
  {
    if id in c.accounts && c.accounts[id].key != key {
      var d := Forget(c.(accounts := c.accounts[id := c.accounts[id].(key := key)]), {id});
      ForgettingKeepsInv(c, d, {id});
      ReconcilingKeepsInv(d, d);
    }
  }

  /** Over all interleavings: stored rows come only from an attempt begun after the account's last invalidation and with
      its current key, and what is published is what is stored. */
  lemma {:induction false} RunKeepsInv(cfg: Config, run: seq<Action>)
    ensures Inv(Run(cfg, NEW, run))
    decreases |run|
  {
    if run != [] {
      RunKeepsInv(cfg, run[..|run| - 1]);
      StepKeepsInv(cfg, Run(cfg, NEW, run[..|run| - 1]), run[|run| - 1]);
    }
  }

  // ------------------------------------------------------------------
  // Late attempts
  // ------------------------------------------------------------------

  lemma EpochsGrow(cfg: Config, c: Catalog, x: Action, id: string)
    ensures Epoch(c, id) <= Epoch(Step(cfg, c, x), id)
    ensures c.begun <= Step(cfg, c, x).begun
  {
  }

  /** An attempt of an epoch that is over changes nothing, whatever it brings. */
  lemma OldEpochIsInert(cfg: Config, c: Catalog, a: Attempt, response: seq<Row>, now: int)
    requires Inv(c) && a.epoch < Epoch(c, a.id)
    ensures Resolve(cfg, c, a, response, now) == Fail(cfg, c, a, now) == Settle(c, a) == c
  {
  }

  /** An account that was invalidated, by a new key, by leaving the pool or otherwise, is out of reach of every attempt
      begun before, however the run goes on; so disabling and enabling an account does not revive an attempt. */
  lemma {:induction false} InvalidatedAttemptStaysInert(cfg: Config, before: seq<Action>, after: seq<Action>, a: Attempt, response: seq<Row>, now: int)
    requires a in Run(cfg, NEW, before).begun
    ensures var c := Run(cfg, Forget(Run(cfg, NEW, before), {a.id}), after);
            Resolve(cfg, c, a, response, now) == Fail(cfg, c, a, now) == Settle(c, a) == c
  {
    RunKeepsInv(cfg, before);
    var start := Run(cfg, NEW, before);
    ForgettingKeepsInv(start, Forget(start, {a.id}), {a.id});
    LaterRun(cfg, Forget(start, {a.id}), after, a.id);
    OldEpochIsInert(cfg, Run(cfg, Forget(start, {a.id}), after), a, response, now);
  }

  lemma {:induction false} LaterRun(cfg: Config, c: Catalog, run: seq<Action>, id: string)
    requires Inv(c)
    ensures Inv(Run(cfg, c, run)) && Epoch(c, id) <= Epoch(Run(cfg, c, run), id)
    decreases |run|
  {
    if run != [] {
      var d := Run(cfg, c, run[..|run| - 1]);
      LaterRun(cfg, c, run[..|run| - 1], id);
      StepKeepsInv(cfg, d, run[|run| - 1]);
      EpochsGrow(cfg, d, run[|run| - 1], id);
    }
  }

  /** Disabling an account with an attempt under way, or with rows, invalidates it. */
  lemma {:induction false} DisablingInvalidates(c: Catalog, id: string)
    requires id in c.accounts && id in Tracked(c)
    ensures Epoch(SetActive(c, id, false), id) == Epoch(c, id) + 1
    ensures id !in SetActive(c, id, false).attempts && FindRows(SetActive(c, id, false).stored, id).None?
  {
    var b := c.(accounts := c.accounts[id := c.accounts[id].(active := false)]);
    assert id in Departed(b);
    var gone := Without(b.stored, Departed(b));
    if FindRows(gone, id).Some? {
      WithoutHas(b.stored, Departed(b), FindRows(gone, id).value);
    }
  }

  // ------------------------------------------------------------------
  // Responses
  // ------------------------------------------------------------------

  /** A response changes what is stored if and only if its attempt is current and it names a selector. */
  lemma {:induction false} ResolveStoresIff(cfg: Config, c: Catalog, a: Attempt, response: seq<Row>, now: int)
    requires Inv(c)
    ensures IsCurrent(c, a) && Nonblank(response) != [] ==>
              Synced(a.id, Nonblank(response), a.key, now, a) in Resolve(cfg, c, a, response, now).stored
    ensures !(IsCurrent(c, a) && Nonblank(response) != []) ==>
              Resolve(cfg, c, a, response, now).stored == c.stored && Resolve(cfg, c, a, response, now).live == c.live
    ensures forall s :: s in c.stored && s.id != a.id ==> s in Resolve(cfg, c, a, response, now).stored
    ensures Fail(cfg, c, a, now).stored == c.stored && Fail(cfg, c, a, now).live == c.live
  {
    var x := Synced(a.id, Nonblank(response), a.key, now, a);
    PutHas(c.stored, x, x);
    forall s | s in c.stored && s.id != a.id ensures s in Put(c.stored, x) {
      PutKeeps(c.stored, x, s);
    }
  }

  lemma {:induction false} PutKeeps(stored: seq<Synced>, x: Synced, s: Synced)
    requires s in stored && s.id != x.id
    ensures s in Put(stored, x)
    decreases |stored|
  {
    if stored[0].id != x.id && s != stored[0] {
      PutKeeps(stored[1..], x, s);
    }
  }

  // ------------------------------------------------------------------
  // The union
  // ------------------------------------------------------------------

  /** `row` is the first of the stored rows with its selector. */
  ghost predicate IsFirst(rows: seq<Row>, row: Row) {
    exists i :: 0 <= i < |rows| && rows[i] == row && Name(row) != "" && forall j :: 0 <= j < i ==> Name(rows[j]) != Name(row)
  }

  function AllRows(stored: seq<Synced>): seq<Row> {
    if stored == [] then [] else AllRows(stored[..|stored| - 1]) + stored[|stored| - 1].rows
  }

  lemma {:induction false} AddRowsAppend(out: seq<Row>, a: seq<Row>, b: seq<Row>)
    ensures AddRows(out, a + b) == AddRows(AddRows(out, a), b)
    decreases |b|
  {
    if b == [] {
      assert a + b == a;
    } else {
      assert (a + b)[..|a + b| - 1] == a + b[..|b| - 1];
      AddRowsAppend(out, a, b[..|b| - 1]);
    }
  }

  lemma {:induction false} UnionIsOneList(stored: seq<Synced>)
    ensures Union(stored) == AddRows([], AllRows(stored))
    decreases |stored|
  {
    if stored != [] {
      var init := stored[..|stored| - 1];
      UnionIsOneList(init);
      AddRowsAppend([], AllRows(init), stored[|stored| - 1].rows);
    }
  }

  ghost predicate NamesApart(rows: seq<Row>) {
    forall i, j :: 0 <= i < j < |rows| ==> Name(rows[i]) != Name(rows[j])
  }

  lemma FirstGrows(rows: seq<Row>, x: Row, row: Row)
    ensures IsFirst(rows + [x], row) <==> IsFirst(rows, row) || (row == x && Name(x) != "" && Name(x) !in Names(rows))
  {
    var more := rows + [x];
    if IsFirst(more, row) {
      var i :| 0 <= i < |more| && more[i] == row && Name(row) != "" && forall j :: 0 <= j < i ==> Name(more[j]) != Name(row);
      if i < |rows| {
        assert rows[i] == row && forall j :: 0 <= j < i ==> rows[j] == more[j];
      } else {
        assert forall j :: 0 <= j < i ==> rows[j] == more[j];
      }
    }
    if IsFirst(rows, row) {
      var i :| 0 <= i < |rows| && rows[i] == row && Name(row) != "" && forall j :: 0 <= j < i ==> Name(rows[j]) != Name(row);
      assert more[i] == row && forall j :: 0 <= j < i ==> more[j] == rows[j];
    }
    if row == x && Name(x) != "" && Name(x) !in Names(rows) {
      assert more[|rows|] == row && forall j :: 0 <= j < |rows| ==> more[j] == rows[j] && Name(rows[j]) in Names(rows);
    }
  }

  lemma {:induction false} AddRowsNames(rows: seq<Row>)
    ensures NamesApart(AddRows([], rows))
    ensures Names(AddRows([], rows)) == Names(rows) - {""}
    decreases |rows|
  {
    if rows != [] {
      var init, x := rows[..|rows| - 1], rows[|rows| - 1];
      AddRowsNames(init);
      assert rows == init + [x];
      NamesSnoc(init, x);
      NamesSnoc(AddRows([], init), x);
    }
  }

  lemma {:induction false} AddRowsIsFirsts(rows: seq<Row>, row: Row)
    ensures row in AddRows([], rows) <==> IsFirst(rows, row)
    decreases |rows|
  {
    if rows != [] {
      var init, x := rows[..|rows| - 1], rows[|rows| - 1];
      AddRowsIsFirsts(init, row);
      AddRowsNames(init);
      assert rows == init + [x];
      FirstGrows(init, x, row);
    }
  }

  /** The union names every selector that some account contributes, each once, by the row that came first. */
  lemma {:induction false} UnionIsDeduplicated(stored: seq<Synced>)
    ensures NamesApart(Union(stored))
    ensures forall row :: row in Union(stored) <==> IsFirst(AllRows(stored), row)
    ensures Names(Union(stored)) == Names(AllRows(stored)) - {""}
  {
    UnionIsOneList(stored);
    AddRowsNames(AllRows(stored));
    forall row ensures row in Union(stored) <==> IsFirst(AllRows(stored), row) {
      AddRowsIsFirsts(AllRows(stored), row);
    }
  }
}
