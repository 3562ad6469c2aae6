/** Sharding by caller never costs health: whoever the caller is, no admitted account is better than the chosen one. */
module AccountSelection {
  import opened Prelude
  import opened AccountPools

  // ------------------------------------------------------------------
  // The order
  // ------------------------------------------------------------------

  lemma BetterIsStrict(x: Rank, y: Rank)
    ensures !(Better(x, y) && Better(y, x)) && !Better(x, x)
    ensures !Better(x, y) && !Better(y, x) <==> x == y
  {
  }

  lemma NoBetterIsTransitive(x: Rank, y: Rank, z: Rank)
    requires !Better(y, x) && !Better(z, y)
    ensures !Better(z, x)
  {
  }

  lemma BetterCarries(x: Rank, y: Rank, z: Rank)
    requires Better(x, y) && !Better(z, y)
    ensures Better(x, z)
  {
  }

  /** No later candidate is better than an earlier one. */
  ghost predicate Sorted(cs: seq<Candidate>) {
    forall i, j :: 0 <= i < j < |cs| ==> !Better(cs[j].rank, cs[i].rank)
  }

  lemma BestFirstSorts(cs: seq<Candidate>)
    ensures Sorted(BestFirst(cs))
  {
    BetterRanks();
    SortByOrders(cs, BETTER);
    var sorted := BestFirst(cs);
    forall i, j | 0 <= i < j < |sorted| ensures !Better(sorted[j].rank, sorted[i].rank) {
      InOrderPairs(sorted, BETTER, i, j);
    }
  }

  lemma BetterRanks()
    ensures Ranks(BETTER)
  {
    forall x, y ensures !(BETTER(x, y) && BETTER(y, x)) {
      BetterIsStrict(x.rank, y.rank);
    }
    forall x, y, z | !BETTER(y, x) && !BETTER(z, y) ensures !BETTER(z, x) {
      NoBetterIsTransitive(x.rank, y.rank, z.rank);
    }
  }

  /** Nobody is better. */
  ghost predicate Unbeaten(cs: seq<Candidate>, c: Candidate) {
    forall d :: d in cs ==> !Better(d.rank, c.rank)
  }

  lemma {:induction false} TiedPrefixTies(sorted: seq<Candidate>, n: nat, span: nat)
    requires 0 < n <= |sorted| && span == TiedPrefix(sorted, n)
    requires forall k :: 0 <= k < n ==> sorted[k].rank == sorted[0].rank
    ensures forall k :: 0 <= k < span ==> sorted[k].rank == sorted[0].rank
    ensures span < |sorted| ==> sorted[span].rank != sorted[0].rank
    decreases |sorted| - n
  {
    if n < |sorted| && sorted[n].rank == sorted[0].rank {
      TiedPrefixTies(sorted, n + 1, span);
    }
  }

  /** The part of the sorted candidates that the shard permutes is exactly the unbeaten ones. */
  lemma {:induction false} TiedPrefixIsUnbeaten(cs: seq<Candidate>, sorted: seq<Candidate>, k: nat)
    requires sorted == BestFirst(cs) && k < |sorted|
    ensures k < TiedPrefix(sorted, 1) <==> Unbeaten(cs, sorted[k])
  {
    var span := TiedPrefix(sorted, 1);
    BestFirstSorts(cs);
    TiedPrefixTies(sorted, 1, span);
    forall d ensures d in cs <==> d in sorted {
      SortByHas(cs, BETTER, d);
    }
    if k < span {
      forall d | d in cs ensures !Better(d.rank, sorted[k].rank) {
        var i :| 0 <= i < |sorted| && sorted[i] == d;
        BetterIsStrict(d.rank, d.rank);
      }
    } else {
      assert !Better(sorted[k].rank, sorted[span].rank) by {
        BetterIsStrict(sorted[k].rank, sorted[k].rank);
      }
      BetterIsStrict(sorted[0].rank, sorted[span].rank);
      assert Better(sorted[0].rank, sorted[span].rank);
      BetterCarries(sorted[0].rank, sorted[span].rank, sorted[k].rank);
      assert sorted[0] in cs;
    }
  }

  /** Without strict pinning the choice is unbeaten for every caller; with it, exactly when the caller's slot is among
      the tied ones. */
  lemma ChosenIsUnbeatenIff(cs: seq<Candidate>, hash: Option<nat>, strictPin: bool)
    requires cs != []
    ensures Unbeaten(cs, Chosen(cs, hash, strictPin)) <==>
            (!strictPin || hash.None? || hash.value % |BestFirst(cs)| < TiedPrefix(BestFirst(cs), 1))
  {
    var sorted := BestFirst(cs);
    TiedPrefixIsUnbeaten(cs, sorted, Slot(sorted, hash, strictPin));
  }

  /** Every unbeaten candidate is the choice of some caller. */
  lemma EveryUnbeatenIsReached(cs: seq<Candidate>, c: Candidate)
    requires c in cs && Unbeaten(cs, c)
    ensures exists hash: nat :: Chosen(cs, Some(hash), false) == c
  {
    var sorted := BestFirst(cs);
    SortByHas(cs, BETTER, c);
    var k :| 0 <= k < |sorted| && sorted[k] == c;
    TiedPrefixIsUnbeaten(cs, sorted, k);
    SmallRemainder(k, TiedPrefix(sorted, 1));
    var hash: nat := k;
    assert Chosen(cs, Some(hash), false) == sorted[Slot(sorted, Some(hash), false)] == c;
  }

  lemma SmallRemainder(k: nat, n: nat)
    requires k < n
    ensures k % n == k
  {
  }

  // ------------------------------------------------------------------
  // Selection over the pool
  // ------------------------------------------------------------------

  lemma {:induction false} CandidatesComplete(cfg: Config, accounts: seq<Account>, q: Request, i: nat)
    requires i < |accounts| && Admitted(cfg, accounts[i], q)
    ensures Candidate(i, RankOf(accounts[i])) in Candidates(cfg, accounts, q)
    decreases |accounts|
  {
    var n := |accounts| - 1;
    if i < n {
      CandidatesComplete(cfg, accounts[..n], q, i);
    }
  }

  /** Whom selection hands out was admitted, and no admitted account is better. */
  lemma SelectedIsBest(cfg: Config, p: Pool, q: Request, hash: Option<nat>, lease: Lease, i: nat)
    requires Select(cfg, p, q, hash).1 == Some(lease) && lease.path.Selected? && !cfg.strictPin
    requires i < |p.accounts| && Admitted(cfg, Recovered(cfg, p.accounts[i], q.now), q)
    ensures lease.index < |p.accounts| && Admitted(cfg, Recovered(cfg, p.accounts[lease.index], q.now), q)
    ensures !Better(RankOf(LookedAt(cfg, p.accounts[i], q)), RankOf(LookedAt(cfg, p.accounts[lease.index], q)))
  {
    var looked := AllLookedAt(cfg, p.accounts, q);
    var cs := Candidates(cfg, looked, q);
    LookedAtEach(cfg, p.accounts, q, i);
    LookingKeepsAdmission(cfg, p.accounts[i], q);
    CandidatesComplete(cfg, looked, q, i);
    var chosen := Chosen(cs, hash, false);
    ChosenIsUnbeatenIff(cs, hash, false);
    CandidateExists(cfg, looked, q, chosen);
    LookedAtEach(cfg, p.accounts, q, chosen.index);
    LookingKeepsAdmission(cfg, p.accounts[chosen.index], q);
  }

  ghost predicate SomeAdmitted(cfg: Config, p: Pool, q: Request) {
    exists i :: 0 <= i < |p.accounts| && Admitted(cfg, Recovered(cfg, p.accounts[i], q.now), q)
  }

  /** Selection takes an admitted account whenever there is one. */
  lemma SelectsIff(cfg: Config, p: Pool, q: Request, hash: Option<nat>)
    ensures SomeAdmitted(cfg, p, q) <==> (Select(cfg, p, q, hash).1.Some? && Select(cfg, p, q, hash).1.value.path.Selected?)
  {
    var looked := AllLookedAt(cfg, p.accounts, q);
    var cs := Candidates(cfg, looked, q);
    if cs != [] {
      CandidateExists(cfg, looked, q, cs[0]);
      LookedAtEach(cfg, p.accounts, q, cs[0].index);
      LookingKeepsAdmission(cfg, p.accounts[cs[0].index], q);
    }
    if SomeAdmitted(cfg, p, q) {
      var i :| 0 <= i < |p.accounts| && Admitted(cfg, Recovered(cfg, p.accounts[i], q.now), q);
      LookedAtEach(cfg, p.accounts, q, i);
      LookingKeepsAdmission(cfg, p.accounts[i], q);
      CandidatesComplete(cfg, looked, q, i);
    }
  }

  /** A degraded serve takes the account that is closest to being available again, the first among equals. */
  lemma {:induction false} DegradedIsLeastCooled(accounts: seq<Account>, q: Request, i: nat)
    requires i < |accounts| && Degradable(accounts[i], q)
    ensures var best := LeastCooled(accounts, q);
            && best.Some? && CooledUntil(accounts[best.value], q) <= CooledUntil(accounts[i], q)
            && (CooledUntil(accounts[best.value], q) == CooledUntil(accounts[i], q) ==> best.value <= i)
    decreases |accounts|
  {
    var n := |accounts| - 1;
    if i < n {
      DegradedIsLeastCooled(accounts[..n], q, i);
    }
  }
}
