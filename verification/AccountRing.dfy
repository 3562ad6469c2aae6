/** The request history of an account: a bounded ring in which billed rows come before failed ones. */
module AccountRings {
  import opened Prelude

  /** A row of the history; a failed attempt is not billed. */
  datatype Row = Row(billed: bool, ts: int, attemptId: string, model: string)

  const ACCOUNT_REQUEST_CAP: nat := 100

  function FirstFailed(ring: seq<Row>): (k: int)
    ensures -1 <= k < |ring|
    ensures k >= 0 ==> !ring[k].billed
    ensures forall i :: 0 <= i < (if k < 0 then |ring| else k) ==> ring[i].billed
  {
    if ring == [] then -1
    else if !ring[0].billed then 0
    else
      var k := FirstFailed(ring[1..]);
      if k < 0 then -1 else k + 1
  }

  function Drop(ring: seq<Row>, k: nat): seq<Row>
    requires k < |ring|
  {
    ring[..k] + ring[k + 1..]
  }

  /** Push a row; over the cap the oldest failure goes, or the oldest row when all are billed. */
  function Recorded(cap: nat, ring: seq<Row>, row: Row): seq<Row> {
    var pushed := ring + [row];
    if |pushed| <= cap then pushed
    else
      var failedAt := FirstFailed(pushed);
      if failedAt >= 0 then Drop(pushed, failedAt) else Drop(pushed, 0)
  }

  function Ring(cap: nat, history: seq<Row>): seq<Row> {
    if history == [] then [] else Recorded(cap, Ring(cap, history[..|history| - 1]), history[|history| - 1])
  }

  class AccountRequests {
    const cap: nat
    var rings: map<string, seq<Row>>

    constructor (cap: nat := ACCOUNT_REQUEST_CAP)
      ensures this.cap == cap && rings == map[]
    {
      this.cap := cap;
      rings := map[];
    }

    function RingOf(id: string): seq<Row>
      reads this
    {
      if id in rings then rings[id] else []
    }

    /** A row without an owner is not kept. */
    method Record(id: string, row: Row)
      modifies this`rings
      ensures id == "" ==> rings == old(rings)
      ensures id != "" ==> rings == old(rings)[id := Recorded(cap, old(RingOf(id)), row)]
    {
      if id == "" {
        return;
      }
      var ring := if id in rings then rings[id] else [];
      ring := ring + [row];
      if |ring| > cap {
        var failedAt := FirstFailed(ring);
        assert ring[|ring| - 1] == row;
        if failedAt != -1 {
          ring := ring[..failedAt] + ring[failedAt + 1..];
        } else if row.billed {
          assert Drop(ring, 0) == ring[1..];
          ring := ring[1..];
        } else {
          assert false; // the row itself would be the failure found
        }
      }
      rings := rings[id := ring];
    }
  }

  // ------------------------------------------------------------------
  // The two lists it stands for
  // ------------------------------------------------------------------

  function Billed(rows: seq<Row>): seq<Row> {
    if rows == [] then [] else Billed(rows[..|rows| - 1]) + if rows[|rows| - 1].billed then [rows[|rows| - 1]] else []
  }

  function Failed(rows: seq<Row>): seq<Row> {
    if rows == [] then [] else Failed(rows[..|rows| - 1]) + if rows[|rows| - 1].billed then [] else [rows[|rows| - 1]]
  }

  function Last(rows: seq<Row>, n: nat): seq<Row> {
    if n >= |rows| then rows else rows[|rows| - n..]
  }

  /** The most recent `b` billed rows and the most recent `f` failures, in the order of the history. */
  function Latest(history: seq<Row>, b: nat, f: nat): seq<Row> {
    if history == [] then []
    else
      var init, last := history[..|history| - 1], history[|history| - 1];
      if last.billed then if b == 0 then Latest(init, b, f) else Latest(init, b - 1, f) + [last]
      else if f == 0 then Latest(init, b, f) else Latest(init, b, f - 1) + [last]
  }

  lemma {:induction false} BilledSnoc(rows: seq<Row>, x: Row)
    ensures Billed(rows + [x]) == Billed(rows) + if x.billed then [x] else []
    ensures Failed(rows + [x]) == Failed(rows) + if x.billed then [] else [x]
  {
    assert (rows + [x])[..|rows|] == rows;
  }

  lemma LastSnoc(rows: seq<Row>, x: Row, n: nat)
    requires n > 0
    ensures Last(rows + [x], n) == Last(rows, n - 1) + [x]
  {
  }

  lemma LatestSnoc(history: seq<Row>, x: Row, b: nat, f: nat)
    ensures Latest(history + [x], b, f)
         == if x.billed then if b == 0 then Latest(history, b, f) else Latest(history, b - 1, f) + [x]
            else if f == 0 then Latest(history, b, f) else Latest(history, b, f - 1) + [x]
  {
    assert (history + [x])[..|history|] == history;
  }

  /** One more row in the history, kept or not kept. */
  lemma {:induction false} BilledStep(kept: seq<Row>, history: seq<Row>, x: Row, n: nat)
    ensures x.billed && n > 0 && Billed(kept) == Last(Billed(history), n - 1) ==> Billed(kept + [x]) == Last(Billed(history + [x]), n)
    ensures x.billed && n == 0 && Billed(kept) == [] ==> Billed(kept) == Last(Billed(history + [x]), n)
    ensures !x.billed && Billed(kept) == Last(Billed(history), n) ==>
              Billed(kept + [x]) == Last(Billed(history + [x]), n) && Billed(kept) == Last(Billed(history + [x]), n)
  {
    BilledSnoc(kept, x);
    BilledSnoc(history, x);
    if x.billed && n > 0 {
      LastSnoc(Billed(history), x, n);
    }
  }

  lemma {:induction false} FailedStep(kept: seq<Row>, history: seq<Row>, x: Row, n: nat)
    ensures !x.billed && n > 0 && Failed(kept) == Last(Failed(history), n - 1) ==> Failed(kept + [x]) == Last(Failed(history + [x]), n)
    ensures !x.billed && n == 0 && Failed(kept) == [] ==> Failed(kept) == Last(Failed(history + [x]), n)
    ensures x.billed && Failed(kept) == Last(Failed(history), n) ==>
              Failed(kept + [x]) == Last(Failed(history + [x]), n) && Failed(kept) == Last(Failed(history + [x]), n)
  {
    BilledSnoc(kept, x);
    BilledSnoc(history, x);
    if !x.billed && n > 0 {
      LastSnoc(Failed(history), x, n);
    }
  }

  function Less(n: nat, taken: bool): nat {
    if taken && n > 0 then n - 1 else n
  }

  lemma {:induction false} LatestBilled(history: seq<Row>, b: nat, f: nat)
    ensures Billed(Latest(history, b, f)) == Last(Billed(history), b)
    decreases |history|
  {
    if history != [] {
      var init, last := history[..|history| - 1], history[|history| - 1];
      var b', f' := Less(b, last.billed), Less(f, !last.billed);
      assert history == init + [last];
      LatestBilled(init, b', f');
      BilledStep(Latest(init, b', f'), init, last, b);
    }
  }

  lemma {:induction false} LatestFailed(history: seq<Row>, b: nat, f: nat)
    ensures Failed(Latest(history, b, f)) == Last(Failed(history), f)
    decreases |history|
  {
    if history != [] {
      var init, last := history[..|history| - 1], history[|history| - 1];
      var b', f' := Less(b, last.billed), Less(f, !last.billed);
      assert history == init + [last];
      LatestFailed(init, b', f');
      FailedStep(Latest(init, b', f'), init, last, f);
    }
  }

  lemma {:induction false} TwoKinds(history: seq<Row>)
    ensures |Billed(history)| + |Failed(history)| == |history|
    decreases |history|
  {
    if history != [] {
      TwoKinds(history[..|history| - 1]);
    }
  }

  /** What `Latest` means for the two kinds of rows. */
  lemma {:induction false} LatestSplits(history: seq<Row>, b: nat, f: nat)
    ensures Billed(Latest(history, b, f)) == Last(Billed(history), b)
    ensures Failed(Latest(history, b, f)) == Last(Failed(history), f)
    ensures |Latest(history, b, f)| == Min(b, |Billed(history)|) + Min(f, |Failed(history)|)
  {
    LatestBilled(history, b, f);
    LatestFailed(history, b, f);
    TwoKinds(Latest(history, b, f));
  }

  lemma {:induction false} FirstFailedSnoc(ring: seq<Row>, x: Row)
    ensures FirstFailed(ring + [x]) == if FirstFailed(ring) >= 0 then FirstFailed(ring) else if x.billed then -1 else |ring|
    decreases |ring|
  {
    if ring != [] {
      assert (ring + [x])[1..] == ring[1..] + [x];
      FirstFailedSnoc(ring[1..], x);
    }
  }

  lemma DropSnoc(ring: seq<Row>, x: Row, k: nat)
    requires k < |ring|
    ensures Drop(ring + [x], k) == Drop(ring, k) + [x]
  {
  }

  /** With room for one failure less, the oldest of them goes, if there were that many. */
  ghost predicate FailureLess(history: seq<Row>, b: nat, f: nat)
    requires f > 0
  {
    && (|Failed(history)| < f ==> Latest(history, b, f) == Latest(history, b, f - 1))
    && (|Failed(history)| >= f ==> IsDrop(Latest(history, b, f), Latest(history, b, f - 1)))
  }

  lemma BilledThenLess(init: seq<Row>, x: Row, b: nat, f: nat)
    requires x.billed && f > 0 && FailureLess(init, Less(b, true), f)
    ensures FailureLess(init + [x], b, f)
  {
    LatestSnoc(init, x, b, f);
    LatestSnoc(init, x, b, f - 1);
    FailedCount(init, x);
    if b > 0 {
      IsDropSnoc(Latest(init, b - 1, f), Latest(init, b - 1, f - 1), x);
    }
  }

  lemma FailedThenLess(init: seq<Row>, x: Row, b: nat, f: nat)
    requires !x.billed && f > 1 && FailureLess(init, b, f - 1)
    ensures FailureLess(init + [x], b, f)
  {
    LatestSnoc(init, x, b, f);
    LatestSnoc(init, x, b, f - 1);
    FailedCount(init, x);
    IsDropSnoc(Latest(init, b, f - 1), Latest(init, b, f - 2), x);
  }

  lemma OnlyRoomForOne(init: seq<Row>, x: Row, b: nat)
    requires !x.billed
    ensures FailureLess(init + [x], b, 1)
  {
    LatestSnoc(init, x, b, 1);
    LatestSnoc(init, x, b, 0);
    FailedCount(init, x);
    NoFailures(init, b);
    OnlyFailure(Latest(init, b, 0), x);
  }

  lemma {:induction false} OneFailureLess(history: seq<Row>, b: nat, f: nat)
    requires f > 0
    ensures FailureLess(history, b, f)
    decreases |history|
  {
    if history != [] {
      var init, last := history[..|history| - 1], history[|history| - 1];
      assert history == init + [last];
      if last.billed {
        OneFailureLess(init, Less(b, true), f);
        BilledThenLess(init, last, b, f);
      } else if f > 1 {
        OneFailureLess(init, b, f - 1);
        FailedThenLess(init, last, b, f);
      } else {
        OnlyRoomForOne(init, last, b);
      }
    }
  }

  lemma {:induction false} FailedCount(rows: seq<Row>, x: Row)
    ensures |Failed(rows + [x])| == |Failed(rows)| + if x.billed then 0 else 1
  {
    BilledSnoc(rows, x);
  }

  lemma {:induction false} OnlyFailure(ring: seq<Row>, x: Row)
    requires FirstFailed(ring) == -1 && !x.billed
    ensures IsDrop(ring + [x], ring)
  {
    FirstFailedSnoc(ring, x);
    assert Drop(ring + [x], |ring|) == ring;
  }

  /** `less` is `ring` without its first failure. */
  ghost predicate IsDrop(ring: seq<Row>, less: seq<Row>) {
    FirstFailed(ring) >= 0 && less == Drop(ring, FirstFailed(ring))
  }

  lemma IsDropSnoc(ring: seq<Row>, less: seq<Row>, x: Row)
    ensures IsDrop(ring, less) ==> IsDrop(ring + [x], less + [x])
  {
    FirstFailedSnoc(ring, x);
    if IsDrop(ring, less) {
      DropSnoc(ring, x, FirstFailed(ring));
    }
  }

  lemma {:induction false} NoFailures(history: seq<Row>, b: nat)
    ensures FirstFailed(Latest(history, b, 0)) == -1
    decreases |history|
  {
    if history != [] {
      var init, last := history[..|history| - 1], history[|history| - 1];
      if last.billed && b > 0 {
        NoFailures(init, b - 1);
        FirstFailedSnoc(Latest(init, b - 1, 0), last);
      } else {
        NoFailures(init, b);
      }
    }
  }

  /** With room for one billed row less, the oldest of them goes, if there were that many. */
  lemma {:induction false} OneBilledLess(history: seq<Row>, b: nat, f: nat)
    requires b > 0
    ensures |Billed(history)| < b ==> Latest(history, b, f) == Latest(history, b - 1, f)
    ensures |Billed(history)| >= b && f == 0 ==> Latest(history, b, f) != [] && Latest(history, b - 1, f) == Latest(history, b, f)[1..]
    decreases |history|
  {
    if history != [] {
      var init, last := history[..|history| - 1], history[|history| - 1];
      if !last.billed {
        OneBilledLess(init, b, if f > 0 then f - 1 else f);
      } else if b > 1 {
        OneBilledLess(init, b - 1, f);
      } else if f == 0 {
        LatestSplits(init, 0, 0);
      }
    }
  }

  /** The slots that billed rows leave to failures. */
  function FailureSlots(cap: nat, history: seq<Row>): nat {
    cap - Min(cap, |Billed(history)|)
  }

  lemma {:induction false} RecordingFailure(cap: nat, history: seq<Row>, x: Row, s: nat, ring: seq<Row>)
    requires s == FailureSlots(cap, history) && ring == Latest(history, cap, s) && !x.billed
    ensures Recorded(cap, ring, x) == Latest(history + [x], cap, s)
  {
    LatestSnoc(history, x, cap, s);
    LatestSplits(history, cap, s);
    FirstFailedSnoc(ring, x);
    if s == 0 {
      NoFailures(history, cap);
      assert Drop(ring + [x], |ring|) == ring;
    } else {
      OneFailureLess(history, cap, s);
      IsDropSnoc(ring, Latest(history, cap, s - 1), x);
    }
  }

  /** A billed row takes the slot of the oldest failure while there are slots for failures. */
  lemma {:induction false} RecordingBilled(cap: nat, history: seq<Row>, x: Row, s: nat, s': nat, ring: seq<Row>)
    requires cap > 0 && s == FailureSlots(cap, history) && ring == Latest(history, cap, s) && x.billed
    requires s' == FailureSlots(cap, history + [x])
    ensures Recorded(cap, ring, x) == Latest(history + [x], cap, s')
  {
    BilledSnoc(history, x);
    if s == 0 {
      RecordingOverBilled(cap, history, x, ring);
    } else {
      RecordingOverFailed(cap, history, x, s, s', ring);
    }
  }

  /** With every slot billed the oldest billed row goes. */
  lemma {:induction false} RecordingOverBilled(cap: nat, history: seq<Row>, x: Row, ring: seq<Row>)
    requires cap > 0 && FailureSlots(cap, history) == 0 && ring == Latest(history, cap, 0) && x.billed
    ensures Recorded(cap, ring, x) == Latest(history + [x], cap, 0)
  {
    LatestSnoc(history, x, cap, 0);
    LatestSplits(history, cap, 0);
    FirstFailedSnoc(ring, x);
    OneBilledLess(history, cap, 0);
    NoFailures(history, cap);
    assert Drop(ring + [x], 0) == ring[1..] + [x];
  }

  lemma {:induction false} RecordingOverFailed(cap: nat, history: seq<Row>, x: Row, s: nat, s': nat, ring: seq<Row>)
    requires 0 < s == FailureSlots(cap, history) && s' == s - 1 && ring == Latest(history, cap, s) && x.billed
    ensures Recorded(cap, ring, x) == Latest(history + [x], cap, s')
  {
    LatestSnoc(history, x, cap, s');
    LatestSplits(history, cap, s);
    FirstFailedSnoc(ring, x);
    OneBilledLess(history, cap, s');
    OneFailureLess(history, cap, s);
    IsDropSnoc(ring, Latest(history, cap, s'), x);
  }

  /** After any history the ring is exactly the last `cap` billed rows and, in the slots these leave, the most
      recent failures, all in the order in which they happened. */
  lemma {:induction false} RingIsLatest(cap: nat, history: seq<Row>)
    requires cap > 0
    ensures Ring(cap, history) == Latest(history, cap, FailureSlots(cap, history))
    decreases |history|
  {
    if history != [] {
      var init, last := history[..|history| - 1], history[|history| - 1];
      RingIsLatest(cap, init);
      assert history == init + [last];
      BilledSnoc(init, last);
      var s := FailureSlots(cap, init);
      if last.billed {
        RecordingBilled(cap, init, last, s, FailureSlots(cap, history), Ring(cap, init));
      } else {
        RecordingFailure(cap, init, last, s, Ring(cap, init));
      }
    }
  }

  /** The two lists. */
  lemma {:induction false} RingIsTwoLists(cap: nat, history: seq<Row>)
    requires cap > 0
    ensures Billed(Ring(cap, history)) == Last(Billed(history), cap)
    ensures Failed(Ring(cap, history)) == Last(Failed(history), cap - Min(cap, |Billed(history)|))
    ensures |Ring(cap, history)| == Min(cap, |history|)
  {
    RingIsLatest(cap, history);
    LatestSplits(history, cap, FailureSlots(cap, history));
    TwoKinds(history);
  }
}
