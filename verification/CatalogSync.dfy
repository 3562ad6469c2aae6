/** The selector catalog of a pool of accounts: attempts to fetch it may settle late, in any order, and after the
    account was disabled, enabled again or given a new key. */
module CatalogSyncs {
  import opened Prelude

  /** A row is a bare selector or carries a title. */
  datatype Row = Bare(selector: string) | Rich(selector: string, title: string)

  datatype Account = Account(active: bool, key: string)

  /** `serial` is the identity of an attempt; `epoch` says how often the account had been invalidated when it began. */
  datatype Attempt = Attempt(serial: nat, id: string, key: string, epoch: nat)

  /** The rows an account contributes, and the attempt they came from. */
  datatype Synced = Synced(id: string, rows: seq<Row>, key: string, at: int, origin: Attempt)

  datatype Retry = Retry(key: string, failureCount: nat, retryAt: int)

  /** The pool-wide union and whether the frozen snapshot stays in use beside it. */
  datatype Live = Live(union: seq<Row>, fallback: bool)

  datatype Config = Config(ttlMs: int, retryDelay: (nat, string, string) -> nat)

  /** `stored` is in insertion order. `epochs` and `begun` are not in the original: they keep account of what happened. */
  datatype Catalog = Catalog(
    accounts: map<string, Account>, stored: seq<Synced>, attempts: map<string, Attempt>, retries: map<string, Retry>,
    live: Option<Live>, epochs: map<string, nat>, begun: set<Attempt>, nextSerial: nat)

  // ------------------------------------------------------------------
  // Rows
  // ------------------------------------------------------------------

  predicate IsSpace(c: char) {
    var u := c as int;
    9 <= u <= 13 || u == 32 || u == 0xA0 || u == 0x1680 || 0x2000 <= u <= 0x200A || u == 0x2028 || u == 0x2029
    || u == 0x202F || u == 0x205F || u == 0x3000 || u == 0xFEFF
  }

  function TrimLeft(s: string): string {
    if s != "" && IsSpace(s[0]) then TrimLeft(s[1..]) else s
  }

  function TrimRight(s: string): string {
    if s != "" && IsSpace(s[|s| - 1]) then TrimRight(s[..|s| - 1]) else s
  }

  function Name(row: Row): string {
    TrimRight(TrimLeft(row.selector))
  }

  function Nonblank(rows: seq<Row>): seq<Row> {
    if rows == [] then []
    else Nonblank(rows[..|rows| - 1]) + if Name(rows[|rows| - 1]) != "" then [rows[|rows| - 1]] else []
  }

  function Names(rows: seq<Row>): set<string> {
    set row | row in rows :: Name(row)
  }

  /** Add one row unless it is blank or its selector is there. */
  function AddRow(out: seq<Row>, row: Row): seq<Row> {
    if Name(row) == "" || Name(row) in Names(out) then out else out + [row]
  }

  function AddRows(out: seq<Row>, rows: seq<Row>): seq<Row> {
    if rows == [] then out else AddRow(AddRows(out, rows[..|rows| - 1]), rows[|rows| - 1])
  }

  /** First writer wins. */
  function Union(stored: seq<Synced>): seq<Row> {
    if stored == [] then [] else AddRows(Union(stored[..|stored| - 1]), stored[|stored| - 1].rows)
  }

  // ------------------------------------------------------------------
  // Contributions
  // ------------------------------------------------------------------

  function FindRows(stored: seq<Synced>, id: string): (r: Option<Synced>)
    ensures r.Some? ==> r.value in stored && r.value.id == id
    ensures r.None? ==> forall s :: s in stored ==> s.id != id
  {
    if stored == [] then None else if stored[0].id == id then Some(stored[0]) else FindRows(stored[1..], id)
  }

  /** An account that contributes again keeps its place. */
  function Put(stored: seq<Synced>, s: Synced): seq<Synced> {
    if stored == [] then [s]
    else if stored[0].id == s.id then [s] + stored[1..]
    else [stored[0]] + Put(stored[1..], s)
  }

  function Without(stored: seq<Synced>, dead: set<string>): seq<Synced> {
    if stored == [] then []
    else if stored[0].id in dead then Without(stored[1..], dead)
    else [stored[0]] + Without(stored[1..], dead)
  }

  predicate IsActive(c: Catalog, id: string) {
    id in c.accounts && c.accounts[id].active && c.accounts[id].key != ""
  }

  function Epoch(c: Catalog, id: string): nat {
    if id in c.epochs then c.epochs[id] else 0
  }

  /** The snapshot stays in use until every active account has contributed. */
  predicate NeedsFallback(c: Catalog) {
    (forall id :: id in c.accounts ==> !IsActive(c, id))
    || exists id :: id in c.accounts && IsActive(c, id) && FindRows(c.stored, id).None?
  }

  function Published(c: Catalog): Option<Live> {
    if Union(c.stored) == [] then None else Some(Live(Union(c.stored), NeedsFallback(c)))
  }

  function Publish(c: Catalog): Catalog {
    c.(live := Published(c))
  }

  // ------------------------------------------------------------------
  // Invalidation
  // ------------------------------------------------------------------

  function Later(c: Catalog, dead: set<string>): map<string, nat> {
    map id | id in c.epochs.Keys + dead :: if id in dead then Epoch(c, id) + 1 else Epoch(c, id)
  }

  /** Withdraw what some accounts contribute, and disown the attempts they have under way. */
  function Forget(c: Catalog, dead: set<string>): Catalog {
    Publish(c.(stored := Without(c.stored, dead), attempts := c.attempts - dead, retries := c.retries - dead,
               epochs := Later(c, dead)))
  }

  function Ids(stored: seq<Synced>): set<string> {
    set s | s in stored :: s.id
  }

  function Tracked(c: Catalog): set<string> {
    Ids(c.stored) + c.attempts.Keys + c.retries.Keys
  }

  function Departed(c: Catalog): set<string> {
    set id | id in Tracked(c) && !IsActive(c, id)
  }

  /** Accounts that are not active any more are forgotten; then the union is published once more. */
  function Reconcile(c: Catalog): Catalog {
    Publish(Forget(c, Departed(c)))
  }

  function SetActive(c: Catalog, id: string, active: bool): Catalog {
    if id !in c.accounts then c else Reconcile(c.(accounts := c.accounts[id := c.accounts[id].(active := active)]))
  }

  /** A new key withdraws what the old one fetched; the same key withdraws nothing. */
  function Rekey(c: Catalog, id: string, key: string): Catalog {
    if id !in c.accounts || c.accounts[id].key == key then c
    else Reconcile(Forget(c.(accounts := c.accounts[id := c.accounts[id].(key := key)]), {id}))
  }

  function Add(c: Catalog, id: string, key: string): Catalog {
    if id in c.accounts then c else Reconcile(c.(accounts := c.accounts[id := Account(true, key)]))
  }

  function Remove(c: Catalog, id: string): Catalog {
    if id !in c.accounts then c else Reconcile(Forget(c.(accounts := c.accounts - {id}), {id}))
  }

  // ------------------------------------------------------------------
  // Attempts
  // ------------------------------------------------------------------

  predicate IsFresh(cfg: Config, c: Catalog, id: string, key: string, now: int) {
    var s := FindRows(c.stored, id);
    s.Some? && s.value.key == key && 0 <= now - s.value.at < cfg.ttlMs
  }

  predicate BacksOff(c: Catalog, id: string, key: string, now: int) {
    id in c.retries && c.retries[id].key == key && now < c.retries[id].retryAt
  }

  /** The account is active, its rows are not fresh and it does not back off. */
  predicate Due(cfg: Config, c: Catalog, id: string, now: int) {
    IsActive(c, id) && !IsFresh(cfg, c, id, c.accounts[id].key, now) && !BacksOff(c, id, c.accounts[id].key, now)
  }

  /** Begin an attempt for an active account, unless its rows are fresh, it backs off or one is under way. */
  function Start(cfg: Config, c: Catalog, id: string, now: int): Catalog {
    if !IsActive(c, id) then c
    else
      var key := c.accounts[id].key;
      if IsFresh(cfg, c, id, key, now) then c
      else
        var d := if id in c.retries && c.retries[id].key != key then c.(retries := c.retries - {id}) else c;
        if BacksOff(d, id, key, now) || (id in d.attempts && d.attempts[id].key == key) then d else Begin(d, id, key)
  }

  function Begin(c: Catalog, id: string, key: string): Catalog {
    var a := Attempt(c.nextSerial, id, key, Epoch(c, id));
    c.(attempts := c.attempts[id := a], begun := c.begun + {a}, nextSerial := c.nextSerial + 1)
  }

  /** Identity, not equality of keys and status, makes an attempt current. */
  predicate IsCurrent(c: Catalog, a: Attempt) {
    a.id in c.attempts && c.attempts[a.id] == a
    && a.id in c.accounts && c.accounts[a.id].active && c.accounts[a.id].key == a.key
  }

  function Failed(cfg: Config, c: Catalog, a: Attempt, now: int): Catalog {
    var n := if a.id in c.retries && c.retries[a.id].key == a.key then c.retries[a.id].failureCount + 1 else 1;
    c.(retries := c.retries[a.id := Retry(a.key, n, now + cfg.retryDelay(n, a.id, a.key))])
  }

  /** A response arrives; one without selectors is no data. */
  function Resolve(cfg: Config, c: Catalog, a: Attempt, response: seq<Row>, now: int): Catalog {
    if !IsCurrent(c, a) then c
    else
      var rows := Nonblank(response);
      if rows == [] then Failed(cfg, c, a, now)
      else Publish(c.(retries := c.retries - {a.id}, stored := Put(c.stored, Synced(a.id, rows, a.key, now, a))))
  }

  function Fail(cfg: Config, c: Catalog, a: Attempt, now: int): Catalog {
    if !IsCurrent(c, a) then c else Failed(cfg, c, a, now)
  }

  /** The last act of an attempt, current or not. */
  function Settle(c: Catalog, a: Attempt): Catalog {
    if a.id in c.attempts && c.attempts[a.id] == a then c.(attempts := c.attempts - {a.id}) else c
  }

  // ------------------------------------------------------------------
  // The object
  // ------------------------------------------------------------------

  class CatalogSync {
    const cfg: Config
    var accounts: map<string, Account>
    var stored: seq<Synced>
    var attempts: map<string, Attempt>
    var retries: map<string, Retry>
    var live: Option<Live>
    var nextSerial: nat
    var epochs: map<string, nat>
    ghost var begun: set<Attempt>

    ghost function Value(): Catalog
      reads this
    {
      Catalog(accounts, stored, attempts, retries, live, epochs, begun, nextSerial)
    }

    constructor (cfg: Config)
      ensures this.cfg == cfg && Value() == Catalog(map[], [], map[], map[], None, map[], {}, 0)
    {
      this.cfg := cfg;
      accounts, stored, attempts, retries, live := map[], [], map[], map[], None;
      nextSerial, epochs, begun := 0, map[], {};
    }

    method UnionRows() returns (out: seq<Row>)
      ensures out == Union(stored)
    {
      out := [];
      var bySelector: set<string> := {};
      var i := 0;
      while i < |stored|
        invariant i <= |stored| && out == Union(stored[..i]) && bySelector == Names(out)
      {
        var rows := stored[i].rows;
        ghost var before := out;
        var j := 0;
        while j < |rows|
          invariant j <= |rows| && out == AddRows(before, rows[..j]) && bySelector == Names(out)
        {
          assert rows[..j + 1][..j] == rows[..j];
          var selector := Name(rows[j]);
          if selector != "" && selector !in bySelector {
            NamesSnoc(out, rows[j]);
            bySelector := bySelector + {selector};
            out := out + [rows[j]];
          }
          j := j + 1;
        }
        assert rows[..j] == rows;
        assert stored[..i + 1][..i] == stored[..i];
        i := i + 1;
      }
      assert stored[..i] == stored;
    }

    method PublishUnion()
      modifies this`live
      ensures Value() == Publish(old(Value()))
    {
      var union := UnionRows();
      var noneActive := forall id :: id in accounts ==> !(accounts[id].active && accounts[id].key != "");
      var someMissing := exists id :: id in accounts && accounts[id].active && accounts[id].key != "" && FindRows(stored, id).None?;
      if |union| == 0 {
        live := None;
      } else {
        live := Some(Live(union, noneActive || someMissing));
      }
    }

    method ForgetAccount(id: string)
      modifies this`stored, this`attempts, this`retries, this`live, this`epochs
      ensures Value() == Forget(old(Value()), {id})
    {
      LaterOne(Value(), id);
      epochs := epochs[id := (if id in epochs then epochs[id] else 0) + 1];
      stored, attempts, retries := Without(stored, {id}), attempts - {id}, retries - {id};
      PublishUnion();
    }

    /** Visit the tracked accounts in some order. */
    method ReconcileAccounts()
      modifies this`stored, this`attempts, this`retries, this`live, this`epochs
      ensures Value() == Reconcile(old(Value()))
    {
      var tracked := (set s | s in stored :: s.id) + attempts.Keys + retries.Keys;
      var departed := set id | id in tracked && !(id in accounts && accounts[id].active && accounts[id].key != "");
      assert departed == Departed(Value());
      ForgetEach(departed);
      PublishUnion();
    }

    method ForgetEach(ids: set<string>)
      modifies this`stored, this`attempts, this`retries, this`live, this`epochs
      ensures Publish(Value()) == Publish(Forget(old(Value()), ids))
    {
      ghost var start, done: set<string> := Value(), {};
      var todo := ids;
      ForgetNobody(start);
      while todo != {}
        invariant done + todo == ids && done !! todo
        invariant Publish(Value()) == Publish(Forget(start, done))
        decreases todo
      {
        var id :| id in todo;
        ForgetMore(Value(), start, done, id);
        ForgetAccount(id);
        done, todo := done + {id}, todo - {id};
      }
      assert done == ids;
    }

    method SetAccountActive(id: string, active: bool)
      modifies this`accounts, this`stored, this`attempts, this`retries, this`live, this`epochs
      ensures Value() == SetActive(old(Value()), id, active)
    {
      if id in accounts {
        accounts := accounts[id := accounts[id].(active := active)];
        ReconcileAccounts();
      }
    }

    method RekeyAccount(id: string, key: string)
      modifies this`accounts, this`stored, this`attempts, this`retries, this`live, this`epochs
      ensures Value() == Rekey(old(Value()), id, key)
    {
      if id in accounts && accounts[id].key != key {
        accounts := accounts[id := accounts[id].(key := key)];
        ForgetAccount(id);
        ReconcileAccounts();
      }
    }

    method StartAttempt(id: string, now: int) returns (attempt: Option<Attempt>)
      modifies this`attempts, this`retries, this`nextSerial, this`begun
      ensures Value() == Start(cfg, old(Value()), id, now)
      ensures attempt.Some? <==> Due(cfg, old(Value()), id, now)
      ensures attempt.Some? ==> id in attempts && attempts[id] == attempt.value
    {
      if !(id in accounts && accounts[id].active && accounts[id].key != "") {
        return None;
      }
      var key := accounts[id].key;
      var synced := FindRows(stored, id);
      if synced.Some? && synced.value.key == key && 0 <= now - synced.value.at < cfg.ttlMs {
        return None;
      }
      if id in retries && retries[id].key != key {
        retries := retries - {id};
      }
      if id in retries && retries[id].key == key && now < retries[id].retryAt {
        return None;
      }
      if id in attempts && attempts[id].key == key {
        return Some(attempts[id]);
      }
      var a := BeginAttempt(id, key);
      return Some(a);
    }

    /** The attempt is registered before the fetch is called. */
    method BeginAttempt(id: string, key: string) returns (a: Attempt)
      modifies this`attempts, this`nextSerial, this`begun
      ensures Value() == Begin(old(Value()), id, key) && id in attempts && attempts[id] == a
    {
      a := Attempt(nextSerial, id, key, if id in epochs then epochs[id] else 0);
      attempts, nextSerial, begun := attempts[id := a], nextSerial + 1, begun + {a};
    }

    method IsCurrentAttempt(a: Attempt) returns (current: bool)
      ensures current == IsCurrent(Value(), a)
    {
      if !(a.id in attempts && attempts[a.id] == a) {
        return false;
      }
      return a.id in accounts && accounts[a.id].active && accounts[a.id].key == a.key;
    }

    method RecordFailure(a: Attempt, now: int)
      modifies this`retries
      ensures Value() == Failed(cfg, old(Value()), a, now)
    {
      var n := 1;
      if a.id in retries && retries[a.id].key == a.key {
        n := retries[a.id].failureCount + 1;
      }
      retries := retries[a.id := Retry(a.key, n, now + cfg.retryDelay(n, a.id, a.key))];
    }

    method ResolveAttempt(a: Attempt, response: seq<Row>, now: int)
      modifies this`stored, this`retries, this`live
      ensures Value() == Resolve(cfg, old(Value()), a, response, now)
    {
      var current := IsCurrentAttempt(a);
      if !current {
        return;
      }
      var rows := Nonblank(response);
      if |rows| == 0 {
        RecordFailure(a, now);
      } else {
        retries, stored := retries - {a.id}, Put(stored, Synced(a.id, rows, a.key, now, a));
        PublishUnion();
      }
    }

    method FailAttempt(a: Attempt, now: int)
      modifies this`retries
      ensures Value() == Fail(cfg, old(Value()), a, now)
    {
      var current := IsCurrentAttempt(a);
      if current {
        RecordFailure(a, now);
      }
    }

    method SettleAttempt(a: Attempt)
      modifies this`attempts
      ensures Value() == Settle(old(Value()), a)
    {
      if a.id in attempts && attempts[a.id] == a {
        attempts := attempts - {a.id};
      }
    }

    method AddAccount(id: string, key: string)
      modifies this`accounts, this`stored, this`attempts, this`retries, this`live, this`epochs
      ensures Value() == Add(old(Value()), id, key)
    {
      if id !in accounts {
        accounts := accounts[id := Account(true, key)];
        ReconcileAccounts();
      }
    }

    method RemoveAccount(id: string)
      modifies this`accounts, this`stored, this`attempts, this`retries, this`live, this`epochs
      ensures Value() == Remove(old(Value()), id)
    {
      if id in accounts {
        accounts := accounts - {id};
        ForgetAccount(id);
        ReconcileAccounts();
      }
    }
  }

  lemma NamesSnoc(rows: seq<Row>, row: Row)
    ensures Names(rows + [row]) == Names(rows) + {Name(row)}
  {
  }

  lemma {:induction false} WithoutMore(stored: seq<Synced>, dead: set<string>, id: string)
    ensures Without(Without(stored, dead), {id}) == Without(stored, dead + {id})
    decreases |stored|
  {
    if stored != [] {
      var rest := Without(stored[1..], dead);
      WithoutMore(stored[1..], dead, id);
      assert ([stored[0]] + rest)[1..] == rest;
    }
  }

  lemma {:induction false} WithoutNobody(stored: seq<Synced>)
    ensures Without(stored, {}) == stored
    decreases |stored|
  {
    if stored != [] {
      WithoutNobody(stored[1..]);
    }
  }

  lemma MapMinusTwice<V>(m: map<string, V>, dead: set<string>, id: string)
    ensures m - dead - {id} == m - (dead + {id}) && m - {} == m
  {
  }

  lemma LaterTwice(v: Catalog, c: Catalog, dead: set<string>, id: string)
    requires v.epochs == Later(c, dead) && id !in dead
    ensures Later(v, {id}) == Later(c, dead + {id})
  {
  }

  lemma LaterOne(c: Catalog, id: string)
    ensures Later(c, {id}) == c.epochs[id := Epoch(c, id) + 1]
  {
  }

  /** Forgetting one by one is forgetting all. */
  lemma ForgetMore(v: Catalog, c: Catalog, dead: set<string>, id: string)
    requires Publish(v) == Publish(Forget(c, dead)) && id !in dead
    ensures Publish(Forget(v, {id})) == Publish(Forget(c, dead + {id}))
  {
    WithoutMore(c.stored, dead, id);
    MapMinusTwice(c.attempts, dead, id);
    MapMinusTwice(c.retries, dead, id);
    assert v.epochs == Publish(v).epochs == Later(c, dead);
    LaterTwice(v, c, dead, id);
    assert v.stored == Publish(v).stored && v.attempts == Publish(v).attempts && v.retries == Publish(v).retries;
    assert v.accounts == Publish(v).accounts && v.begun == Publish(v).begun && v.nextSerial == Publish(v).nextSerial;
  }

  lemma ForgetNobody(c: Catalog)
    ensures Publish(Forget(c, {})) == Publish(c)
  {
    WithoutNobody(c.stored);
    MapMinusTwice(c.attempts, {}, "");
    MapMinusTwice(c.retries, {}, "");
    assert Later(c, {}) == c.epochs;
  }
}
