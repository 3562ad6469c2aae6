/** The producer-level turn state: a cursor over an append-only trajectory whose
    steps grow in place, with snapshot and resume. `Turn` is the value of a turn,
    the class `CascadeTurn` is the object that holds it. */
module CascadeTurns {
  import opened Prelude

  const STEP_OVERLAP: nat := 8
  const SNAPSHOT_VERSION: int := 2

  datatype Chunk = Chunk(text: Text, thinking: Text)

  /** One trajectory step as parsed from the language server; an absent field is empty. */
  datatype Step = Step(thinking: Text, responseText: Text, text: Text, modifiedText: Text)
  {
    /** The text that streaming reads: `responseText`, or `text` when that is empty. */
    function Live(): Text {
      if responseText != [] then responseText else text
    }
  }

  datatype Usage = Usage(inputTokens: nat, outputTokens: nat, cacheReadTokens: nat, cacheWriteTokens: nat)

  /** Where a turn is in the trajectory. */
  datatype Cursor = Cursor(
    stepOffset: nat,
    pollFloor: nat,
    overlap: nat,
    consumedThrough: nat,
    lastWindowStart: int,
    resumeWindowStart: Option<nat>)
  {
    ghost predicate Wf() {
      && pollFloor <= stepOffset
      && consumedThrough <= stepOffset
      && 1 <= overlap
      && (resumeWindowStart.Some? ==> pollFloor <= resumeWindowStart.value <= stepOffset)
    }

    /** Every counted step has been consumed: the guard of `snapshot`. */
    predicate Settled() {
      consumedThrough == stepOffset
    }

    function LiveWindow(): nat {
      Max(pollFloor, stepOffset - overlap)
    }

    function NextWindow(): nat {
      if resumeWindowStart.Some? then resumeWindowStart.value else LiveWindow()
    }

    /** After a successful read that returned `count` steps. */
    function AfterRead(count: nat): Cursor {
      Cursor(Max(stepOffset, NextWindow() + count), pollFloor, overlap, consumedThrough, NextWindow(), None)
    }

    function AfterProof(i: nat): Cursor {
      if i < stepOffset && i + 1 > consumedThrough then this.(consumedThrough := i + 1) else this
    }

    /** After consuming `count` steps from `start` on. */
    function AfterProofs(start: nat, count: nat): Cursor
      decreases count
    {
      if count == 0 then this else AfterProofs(start, count - 1).AfterProof(start + count - 1)
    }

    function AfterAdvance(offset: int): Cursor {
      if offset > stepOffset then this.(stepOffset := offset) else this
    }
  }

  /** What a turn has emitted: the chunk buffer and the emitted length of every step. */
  datatype Output = Output(
    chunks: seq<Chunk>,
    yielded: map<nat, nat>,
    thought: map<nat, nat>,
    totalYielded: int,
    totalThinking: int,
    sawText: bool)
  {
    function TextCursor(i: nat): nat {
      if i in yielded then yielded[i] else 0
    }

    function ThinkingCursor(i: nat): nat {
      if i in thought then thought[i] else 0
    }

    function ThinkingDelta(thinking: Text, i: nat): Text {
      if |thinking| > ThinkingCursor(i) then thinking[ThinkingCursor(i)..] else []
    }

    function TextDelta(text: Text, i: nat): Text {
      if |text| > TextCursor(i) then text[TextCursor(i)..] else []
    }

    function AfterThinking(thinking: Text, i: nat): Output {
      var delta := ThinkingDelta(thinking, i);
      if delta == [] then this
      else Output(chunks + [Chunk([], delta)], yielded, thought[i := |thinking|],
                  totalYielded, totalThinking + |delta|, sawText)
    }

    function AfterText(text: Text, i: nat): Output {
      var delta := TextDelta(text, i);
      if delta == [] then this
      else Output(chunks + [Chunk(delta, [])], yielded[i := |text|], thought,
                  totalYielded + |delta|, totalThinking, true)
    }

    function AfterStep(step: Step, i: nat): Output {
      AfterThinking(step.thinking, i).AfterText(step.Live(), i)
    }

    function AfterSteps(steps: seq<Step>, start: nat): Output {
      Fold(this, ConsumeInto, steps, start)
    }

    /** The polish pass: `responseText` is topped up, then `modifiedText` if it extends it. */
    function AfterFinalStep(step: Step, i: nat): Output {
      var topped := AfterText(step.responseText, i);
      if step.responseText <= step.modifiedText then topped.AfterText(step.modifiedText, i) else topped
    }

    function AfterFinalSteps(steps: seq<Step>, start: nat): Output {
      Fold(this, PolishInto, steps, start)
    }
  }

  function ConsumeInto(o: Output, step: Step, i: nat): Output {
    o.AfterStep(step, i)
  }

  function PolishInto(o: Output, step: Step, i: nat): Output {
    o.AfterFinalStep(step, i)
  }

  /** What a turn carries along for billing and idle detection. */
  datatype Meta = Meta(cascadeId: string, generatorOffset: nat, sawActive: bool, usage: map<nat, Usage>)

  datatype Turn = Turn(cur: Cursor, out: Output, meta: Meta)

  /** A turn that starts reading at `start`. */
  function FreshTurn(id: string, start: nat): Turn {
    Turn(Cursor(start, start, STEP_OVERLAP, start, start, None),
         Output([], map[], map[], 0, 0, false),
         Meta(id, 0, false, map[]))
  }

  // ------------------------------------------------------------------
  // One poll and the final sweep, as functions of the turn
  // ------------------------------------------------------------------

  /** What ends a batch early, named by the step's absolute index. A sink that rejects a text chunk of
      step k has already moved every cursor of that step, so it is `StopBefore(k + 1)`. */
  datatype Cut = Completed | StopBefore(k: nat) | ThinkingSinkFails(k: nat)

  /** The index at which a batch stops, and whether the step there is half consumed.
      A thinking sink is only called, and can only fail, when that step's thinking grew. */
  function Extent(o: Output, steps: seq<Step>, start: nat, cut: Cut): (e: (nat, bool))
    ensures start <= e.0 <= start + |steps| && (e.1 ==> e.0 < start + |steps|)
    ensures cut.Completed? ==> e == (start + |steps|, false)
  {
    var end := start + |steps|;
    if cut.Completed? || !(start <= cut.k < end) then (end, false)
    else if cut.StopBefore? then (cut.k, false)
    else if SinkIsCalled(o, steps, start, cut.k) then (cut.k, true)
    else (end, false)
  }

  predicate SinkIsCalled(o: Output, steps: seq<Step>, start: nat, k: nat)
    requires start <= k < start + |steps|
  {
    o.AfterSteps(steps[..k - start], start).ThinkingDelta(steps[k - start].thinking, k) != []
  }

  /** The steps below `stop`, and at `stop` the thinking alone when a sink failed there. */
  function OutputUpTo(o: Output, steps: seq<Step>, start: nat, stop: nat, half: bool): Output
    requires start <= stop <= start + |steps| && (half ==> stop < start + |steps|)
  {
    var done := o.AfterSteps(steps[..stop - start], start);
    if half then done.AfterThinking(steps[stop - start].thinking, stop) else done
  }

  function OutputAfterBatch(o: Output, steps: seq<Step>, start: nat, cut: Cut): Output {
    var (stop, half) := Extent(o, steps, start, cut);
    OutputUpTo(o, steps, start, stop, half)
  }

  /** The proof pointer moves before the sink is awaited, so a half consumed step counts. */
  function Consumed(o: Output, steps: seq<Step>, start: nat, cut: Cut): (n: nat)
    ensures n <= |steps|
  {
    var (stop, half) := Extent(o, steps, start, cut);
    stop - start + (if half then 1 else 0)
  }

  function AfterPoll(t: Turn, steps: seq<Step>, cut: Cut): Turn {
    var start := t.cur.NextWindow();
    Turn(t.cur.AfterRead(|steps|).AfterProofs(start, Consumed(t.out, steps, start, cut)),
         OutputAfterBatch(t.out, steps, start, cut),
         t.meta)
  }

  /** The final IDLE sweep: re-read the last window, then polish every step of it. */
  function AfterSweep(t: Turn, steps: seq<Step>): Turn
    requires t.cur.lastWindowStart >= 0
  {
    var start := t.cur.lastWindowStart;
    Turn(t.cur.AfterAdvance(start + |steps|).AfterProofs(start, |steps|),
         t.out.AfterFinalSteps(steps, start),
         t.meta)
  }

  // ------------------------------------------------------------------
  // Snapshot and restore
  // ------------------------------------------------------------------

  /** `None` stands for a field that is missing or not of the type the reader asks for. */
  datatype Snapshot = Snapshot(
    version: Option<int>,
    cascadeId: string,
    stepOffset: Option<int>,
    pollFloor: Option<int>,
    windowStart: Option<int>,
    lastWindowStart: Option<int>,
    overlap: Option<int>,
    yieldedByStep: Option<seq<(int, Option<nat>)>>,
    thinkingByStep: Option<seq<(int, Option<nat>)>>,
    totalYielded: Option<int>,
    totalThinking: Option<int>,
    sawText: bool,
    generatorOffset: Option<int>,
    sawActive: Option<bool>,
    usageByStep: Option<seq<(int, Option<Usage>)>>,
    consumedThrough: Option<int>,
    chunks: Option<seq<Chunk>>)

  datatype CursorError =
    | UnsupportedVersion
    | BadStepOffset
    | BadPollFloor
    | NoCursors
    | MidBatch
    | BadGeneratorOffset
    | BadSawActive
    | BadUsage
    | BadCursorEntry
    | WindowOutOfRange

  lemma {:induction false} LeastOf(s: set<nat>) returns (least: nat)
    requires s != {}
    ensures least in s && forall j :: j in s ==> least <= j
    decreases |s|
  {
    var k :| k in s;
    least := k;
    if s != {k} {
      var l := LeastOf(s - {k});
      least := if k <= l then k else l;
      forall j | j in s ensures least <= j {
        if j != k { assert j in s - {k}; }
      }
    }
  }

  lemma LeastExists(s: set<nat>)
    requires s != {}
    ensures exists k :: k in s && forall j :: j in s ==> k <= j
  {
    var k := LeastOf(s);
  }

  function LeastKey<V>(m: map<nat, V>): (k: nat)
    requires m != map[]
    ensures k in m && forall j :: j in m.Keys ==> k <= j
  {
    assert m.Keys != {};
    LeastExists(m.Keys);
    var k :| k in m.Keys && forall j :: j in m.Keys ==> k <= j;
    k
  }

  /** The entries of a cursor map as an array sorted by index. */
  function SortedPairs<V>(m: map<nat, V>): seq<(int, Option<V>)>
    decreases |m.Keys|
  {
    if m == map[] then []
    else
      var k := LeastKey(m);
      assert (m - {k}).Keys == m.Keys - {k};
      [(k, Some(m[k]))] + SortedPairs(m - {k})
  }

  /** The cursor map of a pair array: later pairs win, one bad pair spoils the whole. */
  function MapOfPairs<V>(pairs: seq<(int, Option<V>)>): Option<map<nat, V>> {
    if pairs == [] then Some(map[])
    else if pairs[0].0 < 0 || pairs[0].1.None? then None
    else match MapOfPairs(pairs[1..])
         case None => None
         case Some(rest) => Some(map[pairs[0].0 as nat := pairs[0].1.value] + rest)
  }

  /** The array form of a cursor map loses nothing. */
  lemma {:induction false} PairsRoundTrip<V>(m: map<nat, V>)
    ensures MapOfPairs(SortedPairs(m)) == Some(m)
    decreases |m.Keys|
  {
    if m != map[] {
      var k := LeastKey(m);
      assert (m - {k}).Keys == m.Keys - {k};
      PairsRoundTrip(m - {k});
      assert SortedPairs(m)[1..] == SortedPairs(m - {k});
      assert map[k := m[k]] + (m - {k}) == m;
    }
  }

  /** The array form of a cursor map is in increasing index order. */
  lemma {:induction false} PairsSorted<V>(m: map<nat, V>)
    ensures forall a :: 0 <= a < |SortedPairs(m)| ==> 0 <= SortedPairs(m)[a].0 && SortedPairs(m)[a].0 as nat in m
    ensures forall a, b :: 0 <= a < b < |SortedPairs(m)| ==> SortedPairs(m)[a].0 < SortedPairs(m)[b].0
    decreases |m.Keys|
  {
    if m != map[] {
      var k := LeastKey(m);
      var rest := m - {k};
      assert rest.Keys == m.Keys - {k};
      PairsSorted(rest);
      var s, r := SortedPairs(m), SortedPairs(rest);
      assert s == [(k, Some(m[k]))] + r;
      forall a | 0 <= a < |s| ensures 0 <= s[a].0 && s[a].0 as nat in m {
        if a > 0 { assert s[a] == r[a - 1]; }
      }
      forall a, b | 0 <= a < b < |s| ensures s[a].0 < s[b].0 {
        assert s[b] == r[b - 1];
        if a > 0 { assert s[a] == r[a - 1]; }
      }
    }
  }

  function SnapshotOf(t: Turn): Result<Snapshot, CursorError> {
    if !t.cur.Settled() then Err(MidBatch)
    else Ok(Snapshot(
              Some(SNAPSHOT_VERSION), t.meta.cascadeId, Some(t.cur.stepOffset), Some(t.cur.pollFloor),
              Some(t.cur.NextWindow()), Some(t.cur.lastWindowStart), Some(t.cur.overlap),
              Some(SortedPairs(t.out.yielded)), Some(SortedPairs(t.out.thought)),
              Some(t.out.totalYielded), Some(t.out.totalThinking), t.out.sawText,
              Some(t.meta.generatorOffset), Some(t.meta.sawActive), Some(SortedPairs(t.meta.usage)),
              Some(t.cur.consumedThrough), Some(t.out.chunks)))
  }

  predicate IsNat(x: Option<int>) {
    x.Some? && x.value >= 0
  }

  function GetOr<T>(x: Option<T>, default: T): T {
    if x.Some? then x.value else default
  }

  function Restore(s: Snapshot): Result<Turn, CursorError> {
    if s.version.Some? && s.version.value != SNAPSHOT_VERSION then Err(UnsupportedVersion)
    else if !IsNat(s.stepOffset) then Err(BadStepOffset)
    else if !IsNat(s.pollFloor) || s.pollFloor.value > s.stepOffset.value then Err(BadPollFloor)
    else if s.yieldedByStep.None? || s.thinkingByStep.None? then Err(NoCursors)
    else if s.consumedThrough != s.stepOffset then Err(MidBatch)
    else if !IsNat(s.generatorOffset) then Err(BadGeneratorOffset)
    else if s.sawActive.None? then Err(BadSawActive)
    else if s.usageByStep.None? then Err(BadUsage)
    else
      var yielded := MapOfPairs(s.yieldedByStep.value);
      var thought := MapOfPairs(s.thinkingByStep.value);
      var usage := MapOfPairs(s.usageByStep.value);
      if yielded.None? || thought.None? || usage.None? then Err(BadCursorEntry)
      else if s.windowStart.Some? && !(s.pollFloor.value <= s.windowStart.value <= s.stepOffset.value) then
        Err(WindowOutOfRange)
      else
        Ok(Turn(
             Cursor(s.stepOffset.value, s.pollFloor.value,
                    if s.overlap.Some? && s.overlap.value > 0 then s.overlap.value else STEP_OVERLAP,
                    s.stepOffset.value, GetOr(s.lastWindowStart, s.pollFloor.value),
                    if s.windowStart.Some? then Some(s.windowStart.value as nat) else None),
             Output(GetOr(s.chunks, []), yielded.value, thought.value,
                    GetOr(s.totalYielded, 0), GetOr(s.totalThinking, 0), s.sawText),
             Meta(s.cascadeId, s.generatorOffset.value, s.sawActive.value, usage.value)))
  }

  /** The turn that a resume continues with: only the pending window is new. */
  function Resumed(t: Turn): Turn {
    t.(cur := t.cur.(resumeWindowStart := Some(t.cur.NextWindow())))
  }

  /** Every snapshot that can be taken is accepted, and restores the turn it was taken from. */
  lemma RestoreUndoesSnapshot(t: Turn)
    requires t.cur.Wf() && t.cur.Settled()
    ensures SnapshotOf(t).Ok? && Restore(SnapshotOf(t).value) == Ok(Resumed(t))
    ensures SnapshotOf(Resumed(t)) == SnapshotOf(t)
  {
    PairsRoundTrip(t.out.yielded);
    PairsRoundTrip(t.out.thought);
    PairsRoundTrip(t.meta.usage);
  }

  /** A restored turn is well formed and can be detached again at once; from then on freezing and restoring change
      neither the snapshot nor the turn, and a snapshot that names its window restores to such a turn at once. */
  lemma RestoreIsStable(s: Snapshot)
    requires Restore(s).Ok?
    ensures var t := Restore(s).value;
            && t.cur.Wf() && SnapshotOf(t).Ok?
            && Restore(SnapshotOf(t).value) == Ok(Resumed(t))
            && SnapshotOf(Resumed(t)) == SnapshotOf(t)
            && (s.windowStart.Some? ==> Resumed(t) == t)
  {
    RestoreUndoesSnapshot(Restore(s).value);
  }

  /** A pair array of steps and values, each of them there. */
  predicate AllPairs<V>(pairs: seq<(int, Option<V>)>) {
    forall k :: 0 <= k < |pairs| ==> pairs[k].0 >= 0 && pairs[k].1.Some?
  }

  /** The rules for snapshots, in the order in which they are checked. */
  const RULES: nat := 10

  predicate Obeys(s: Snapshot, rule: nat) {
    match rule
    case 0 => s.version.None? || s.version.value == SNAPSHOT_VERSION
    case 1 => IsNat(s.stepOffset)
    case 2 => IsNat(s.pollFloor) && (s.stepOffset.Some? ==> s.pollFloor.value <= s.stepOffset.value)
    case 3 => s.yieldedByStep.Some? && s.thinkingByStep.Some?
    case 4 => s.consumedThrough == s.stepOffset
    case 5 => IsNat(s.generatorOffset)
    case 6 => s.sawActive.Some?
    case 7 => s.usageByStep.Some?
    case 8 => && (s.yieldedByStep.Some? ==> AllPairs(s.yieldedByStep.value))
              && (s.thinkingByStep.Some? ==> AllPairs(s.thinkingByStep.value))
              && (s.usageByStep.Some? ==> AllPairs(s.usageByStep.value))
    case 9 => s.windowStart.Some? && s.pollFloor.Some? && s.stepOffset.Some? ==>
                s.pollFloor.value <= s.windowStart.value <= s.stepOffset.value
    case _ => true
  }

  function Complaint(rule: nat): CursorError
    requires rule < RULES
  {
    [UnsupportedVersion, BadStepOffset, BadPollFloor, NoCursors, MidBatch,
     BadGeneratorOffset, BadSawActive, BadUsage, BadCursorEntry, WindowOutOfRange][rule]
  }

  predicate ObeysBelow(s: Snapshot, rule: nat) {
    forall earlier :: 0 <= earlier < rule ==> Obeys(s, earlier)
  }

  lemma {:induction false} OneMoreRule(s: Snapshot, rule: nat)
    ensures ObeysBelow(s, rule + 1) <==> ObeysBelow(s, rule) && Obeys(s, rule)
  {
  }

  /** A snapshot is restored exactly when it obeys every rule, and refused for the first one that it breaks. */
  lemma RestoreRefusesIff(s: Snapshot)
    ensures Restore(s).Ok? <==> ObeysBelow(s, RULES)
    ensures forall rule :: 0 <= rule < RULES ==> (Restore(s) == Err(Complaint(rule)) <==> ObeysBelow(s, rule) && !Obeys(s, rule))
  {
    if s.yieldedByStep.Some? { MapOfPairsIff(s.yieldedByStep.value); }
    if s.thinkingByStep.Some? { MapOfPairsIff(s.thinkingByStep.value); }
    if s.usageByStep.Some? { MapOfPairsIff(s.usageByStep.value); }
    OneMoreRule(s, 0);
    OneMoreRule(s, 1);
    OneMoreRule(s, 2);
    OneMoreRule(s, 3);
    OneMoreRule(s, 4);
    OneMoreRule(s, 5);
    OneMoreRule(s, 6);
    OneMoreRule(s, 7);
    OneMoreRule(s, 8);
    OneMoreRule(s, 9);
  }

  /** What a snapshot that leaves optional fields out is restored to: a window that trails the offset by the usual overlap, but not
      below the floor, nothing read before the floor, and an empty buffer. */
  lemma RestoreFillsIn(s: Snapshot)
    requires Restore(s).Ok?
    ensures var c, o := Restore(s).value.cur, Restore(s).value.out;
            && c.overlap == (if s.overlap.Some? && s.overlap.value >= 1 then s.overlap.value else 8)
            && c.NextWindow() == (if s.windowStart.Some? then s.windowStart.value
                                  else if c.stepOffset - c.overlap >= c.pollFloor then c.stepOffset - c.overlap else c.pollFloor)
            && c.lastWindowStart == (if s.lastWindowStart.Some? then s.lastWindowStart.value else s.pollFloor.value)
            && o.chunks == (if s.chunks.Some? then s.chunks.value else [])
            && o.totalYielded == (if s.totalYielded.Some? then s.totalYielded.value else 0)
            && o.totalThinking == (if s.totalThinking.Some? then s.totalThinking.value else 0)
  {
  }

  /** A pair array is refused exactly when one pair is malformed; otherwise the last pair of a step counts. */
  lemma {:induction false} MapOfPairsIff<V>(pairs: seq<(int, Option<V>)>)
    ensures MapOfPairs(pairs).Some? <==> AllPairs(pairs)
    decreases |pairs|
  {
    if pairs != [] {
      MapOfPairsIff(pairs[1..]);
      assert forall k :: 1 <= k < |pairs| ==> pairs[k] == pairs[1..][k - 1];
    }
  }

  lemma {:induction false} LastPairCounts<V>(pairs: seq<(int, Option<V>)>, k: nat)
    requires AllPairs(pairs) && k < |pairs| && forall later :: k < later < |pairs| ==> pairs[later].0 != pairs[k].0
    ensures MapOfPairs(pairs).Some?
    ensures var i := pairs[k].0 as nat; i in MapOfPairs(pairs).value && MapOfPairs(pairs).value[i] == pairs[k].1.value
    decreases |pairs|
  {
    MapOfPairsIff(pairs);
    MapOfPairsIff(pairs[1..]);
    if k > 0 {
      LastPairCounts(pairs[1..], k - 1);
    } else if pairs[0].0 as nat in MapOfPairs(pairs[1..]).value {
      OnlyFromPairs(pairs[1..], pairs[0].0 as nat);
    }
  }

  lemma {:induction false} OnlyFromPairs<V>(pairs: seq<(int, Option<V>)>, i: nat)
    requires MapOfPairs(pairs).Some? && i in MapOfPairs(pairs).value
    ensures exists k :: 0 <= k < |pairs| && pairs[k].0 == i
    decreases |pairs|
  {
    if pairs[0].0 != i {
      OnlyFromPairs(pairs[1..], i);
      var k :| 0 <= k < |pairs[1..]| && pairs[1..][k].0 == i;
      assert pairs[k + 1].0 == i;
    }
  }

  // ------------------------------------------------------------------
  // The object
  // ------------------------------------------------------------------

  predicate HaltsInThinking(o: Output, step: Step, i: nat, sinkOk: bool) {
    o.ThinkingDelta(step.thinking, i) != [] && !sinkOk
  }

  /** What holds inside a batch when the steps below index j are consumed and nothing has ended it. */
  ghost predicate BatchUnderWay(c0: Cursor, o0: Output, steps: seq<Step>, start: nat, cut: Cut, j: nat, c: Cursor, o: Output) {
    && start <= j <= start + |steps|
    && c == c0.AfterProofs(start, j - start)
    && o == o0.AfterSteps(steps[..j - start], start)
    && (cut.StopBefore? && start <= cut.k ==> j <= cut.k)
    && (cut.ThinkingSinkFails? && start <= cut.k < j ==> !SinkIsCalled(o0, steps, start, cut.k))
  }

  ghost predicate BatchIsOver(c0: Cursor, o0: Output, steps: seq<Step>, start: nat, cut: Cut, completed: bool, c: Cursor, o: Output) {
    && c == c0.AfterProofs(start, Consumed(o0, steps, start, cut))
    && o == OutputAfterBatch(o0, steps, start, cut)
    && completed == (Extent(o0, steps, start, cut) == (start + |steps|, false))
  }

  lemma BatchEnds(c0: Cursor, o0: Output, steps: seq<Step>, start: nat, cut: Cut, j: nat, c: Cursor, o: Output)
    requires BatchUnderWay(c0, o0, steps, start, cut, j, c, o)
    requires j == start + |steps| || cut == StopBefore(j)
    ensures BatchIsOver(c0, o0, steps, start, cut, j == start + |steps|, c, o)
  {
  }

  lemma BatchHalts(c0: Cursor, o0: Output, steps: seq<Step>, start: nat, cut: Cut, j: nat, c: Cursor, o: Output, step: Step)
    requires BatchUnderWay(c0, o0, steps, start, cut, j, c, o) && j < start + |steps| && step == steps[j - start]
    requires HaltsInThinking(o, step, j, cut != ThinkingSinkFails(j))
    ensures BatchIsOver(c0, o0, steps, start, cut, false, c.AfterProof(j), o.AfterThinking(step.thinking, j))
  {
    assert Extent(o0, steps, start, cut) == (j, true);
  }

  lemma BatchAdvances(c0: Cursor, o0: Output, steps: seq<Step>, start: nat, cut: Cut, j: nat, c: Cursor, o: Output, step: Step)
    requires BatchUnderWay(c0, o0, steps, start, cut, j, c, o) && j < start + |steps| && step == steps[j - start]
    requires cut != StopBefore(j) && !HaltsInThinking(o, step, j, cut != ThinkingSinkFails(j))
    ensures BatchUnderWay(c0, o0, steps, start, cut, j + 1, c.AfterProof(j), o.AfterStep(step, j))
  {
    assert steps[..j + 1 - start] == steps[..j - start] + [step];
    FoldSnoc(o0, ConsumeInto, steps[..j - start], step, start);
  }

  lemma {:induction false} ProofsKeepOffset(c: Cursor, start: nat, count: nat)
    ensures c.AfterProofs(start, count).stepOffset == c.stepOffset
    decreases count
  {
    if count > 0 {
      ProofsKeepOffset(c, start, count - 1);
    }
  }

  datatype Deltas = Deltas(textDelta: Text, thinkingDelta: Text)

  class CascadeTurn {
    var cascadeId: string
    var stepOffset: nat
    var pollFloor: nat
    var overlap: nat
    var chunks: seq<Chunk>
    var yieldedByStep: map<nat, nat>
    var thinkingByStep: map<nat, nat>
    var totalYielded: int
    var totalThinking: int
    var sawText: bool
    var generatorOffset: nat
    var sawActive: bool
    var usageByStep: map<nat, Usage>
    var consumedThrough: nat
    var lastWindowStart: int
    var resumeWindowStart: Option<nat>

    ghost function Value(): Turn
      reads this
    {
      Turn(Cur(), Out(), Carried())
    }

    ghost function Cur(): Cursor
      reads this
    {
      Cursor(stepOffset, pollFloor, overlap, consumedThrough, lastWindowStart, resumeWindowStart)
    }

    ghost function Out(): Output
      reads this
    {
      Output(chunks, yieldedByStep, thinkingByStep, totalYielded, totalThinking, sawText)
    }

    ghost function Carried(): Meta
      reads this
    {
      Meta(cascadeId, generatorOffset, sawActive, usageByStep)
    }

    constructor Fresh(id: string, start: nat)
      ensures Value() == FreshTurn(id, start)
    {
      cascadeId, stepOffset, pollFloor, overlap, chunks := id, start, start, STEP_OVERLAP, [];
      yieldedByStep, thinkingByStep, totalYielded, totalThinking, sawText := map[], map[], 0, 0, false;
      generatorOffset, sawActive, usageByStep := 0, false, map[];
      consumedThrough, lastWindowStart, resumeWindowStart := start, start, None;
    }

    /** The field values of a turn that passed every check. */
    constructor Of(t: Turn)
      ensures Value() == t
    {
      cascadeId, generatorOffset, sawActive, usageByStep := t.meta.cascadeId, t.meta.generatorOffset, t.meta.sawActive, t.meta.usage;
      stepOffset, pollFloor, overlap, consumedThrough := t.cur.stepOffset, t.cur.pollFloor, t.cur.overlap, t.cur.consumedThrough;
      lastWindowStart, resumeWindowStart := t.cur.lastWindowStart, t.cur.resumeWindowStart;
      chunks, yieldedByStep, thinkingByStep := t.out.chunks, t.out.yielded, t.out.thought;
      totalYielded, totalThinking, sawText := t.out.totalYielded, t.out.totalThinking, t.out.sawText;
    }

    function NextWindowStart(): (start: nat)
      reads this
      ensures start == Cur().NextWindow()
    {
      if resumeWindowStart.Some? then resumeWindowStart.value else Max(pollFloor, stepOffset - overlap)
    }

    /** One read: `fetched` is what the server answered, or nothing when the fetch threw. */
    method ReadWindow(fetched: Option<seq<Step>>) returns (r: Option<(nat, bool)>)
      modifies this
      ensures fetched.None? ==> r.None? && Value() == old(Value())
      ensures fetched.Some? ==>
                && Cur() == old(Cur()).AfterRead(|fetched.value|) && Out() == old(Out()) && Carried() == old(Carried())
                && r == Some((old(NextWindowStart()), stepOffset > old(stepOffset)))
    {
      var windowStart := NextWindowStart();
      if fetched.None? {
        return None;
      }
      resumeWindowStart := None;
      lastWindowStart := windowStart;
      var previous := stepOffset;
      var next := windowStart + |fetched.value|;
      if next > stepOffset {
        stepOffset := next;
      }
      return Some((windowStart, stepOffset > previous));
    }

    method AdvanceProof(stepIndex: nat)
      modifies this`consumedThrough
      ensures Cur() == old(Cur()).AfterProof(stepIndex)
    {
      if stepIndex < stepOffset && stepIndex + 1 > consumedThrough {
        consumedThrough := stepIndex + 1;
      }
    }

    /** Emit what `thinking` has beyond the step's thinking cursor; the cursor moves before the sink. */
    method EmitThinking(thinking: Text, stepIndex: nat) returns (delta: Text)
      modifies this`chunks, this`thinkingByStep, this`totalThinking
      ensures delta == old(Out()).ThinkingDelta(thinking, stepIndex)
      ensures Out() == old(Out()).AfterThinking(thinking, stepIndex)
    {
      delta := [];
      var prev := if stepIndex in thinkingByStep then thinkingByStep[stepIndex] else 0;
      if |thinking| > prev {
        delta := thinking[prev..];
        thinkingByStep := thinkingByStep[stepIndex := |thinking|];
        totalThinking := totalThinking + |delta|;
        chunks := chunks + [Chunk([], delta)];
      }
    }

    /** Emit what `text` has beyond the step's text cursor; the cursor moves before the sink. */
    method EmitText(text: Text, stepIndex: nat) returns (delta: Text)
      modifies this`chunks, this`yieldedByStep, this`totalYielded, this`sawText
      ensures delta == old(Out()).TextDelta(text, stepIndex)
      ensures Out() == old(Out()).AfterText(text, stepIndex)
    {
      delta := [];
      var prev := if stepIndex in yieldedByStep then yieldedByStep[stepIndex] else 0;
      if |text| > prev {
        delta := text[prev..];
        yieldedByStep := yieldedByStep[stepIndex := |text|];
        totalYielded := totalYielded + |delta|;
        sawText := true;
        chunks := chunks + [Chunk(delta, [])];
      }
    }

    /** `None` is the rejection of a sink, passed on to the caller. */
    method ConsumeStep(step: Step, stepIndex: nat, thinkingSinkOk: bool, textSinkOk: bool) returns (r: Option<Deltas>)
      modifies this
      ensures Cur() == old(Cur()).AfterProof(stepIndex)
      ensures Out() == if HaltsInThinking(old(Out()), step, stepIndex, thinkingSinkOk)
                             then old(Out()).AfterThinking(step.thinking, stepIndex)
                             else old(Out()).AfterStep(step, stepIndex)
      ensures Carried() == old(Carried())
      ensures r.Some? ==> r.value == Deltas(
                old(Out()).AfterThinking(step.thinking, stepIndex).TextDelta(step.Live(), stepIndex),
                old(Out()).ThinkingDelta(step.thinking, stepIndex))
      ensures r.None? <==>
                || HaltsInThinking(old(Out()), step, stepIndex, thinkingSinkOk)
                || (!textSinkOk && old(Out()).AfterThinking(step.thinking, stepIndex).TextDelta(step.Live(), stepIndex) != [])
    {
      AdvanceProof(stepIndex);
      var thinkingDelta := EmitThinking(step.thinking, stepIndex);
      if thinkingDelta != [] && !thinkingSinkOk {
        return None;
      }
      var textDelta := EmitText(step.Live(), stepIndex);
      if textDelta != [] && !textSinkOk {
        return None;
      }
      return Some(Deltas(textDelta, thinkingDelta));
    }

    /** The polish pass of one step; a sink that fails ends it after the emission that it was given. */
    method ConsumeFinalStep(step: Step, stepIndex: nat, sinkOk: bool, polishSinkOk: bool) returns (textDelta: Option<Text>)
      modifies this
      ensures Cur() == old(Cur()).AfterProof(stepIndex) && Carried() == old(Carried())
      ensures var topUp, topped := old(Out()).TextDelta(step.responseText, stepIndex), old(Out()).AfterText(step.responseText, stepIndex);
              var polish := if step.responseText <= step.modifiedText then topped.TextDelta(step.modifiedText, stepIndex) else [];
              if topUp != [] && !sinkOk then textDelta.None? && Out() == topped
              else Out() == old(Out()).AfterFinalStep(step, stepIndex)
                   && textDelta == if polish != [] && !polishSinkOk then None else Some(topUp + polish)
    {
      AdvanceProof(stepIndex);
      var topUp := EmitText(step.responseText, stepIndex);
      if topUp != [] && !sinkOk {
        return None;
      }
      var polish := [];
      if step.responseText <= step.modifiedText {
        polish := EmitText(step.modifiedText, stepIndex);
        if polish != [] && !polishSinkOk {
          return None;
        }
      }
      return Some(topUp + polish);
    }

    /** Consume a batch in order; `cut` says which callback ends it early, if any. */
    method ConsumeBatch(steps: seq<Step>, start: nat, cut: Cut) returns (completed: bool)
      modifies this
      ensures BatchIsOver(old(Cur()), old(Out()), steps, start, cut, completed, Cur(), Out())
      ensures Carried() == old(Carried())
    {
      ghost var c0, o0 := Cur(), Out();
      var stepIndex := start;
      while stepIndex < start + |steps|
        invariant BatchUnderWay(c0, o0, steps, start, cut, stepIndex, Cur(), Out())
        invariant Carried() == old(Carried())
      {
        var stopped := ConsumeNext(steps, start, cut, stepIndex, c0, o0);
        if stopped {
          return false;
        }
        stepIndex := stepIndex + 1;
      }
      BatchEnds(c0, o0, steps, start, cut, stepIndex, Cur(), Out());
      return true;
    }

    /** One iteration of the batch loop. */
    method ConsumeNext(steps: seq<Step>, start: nat, cut: Cut, stepIndex: nat, ghost c0: Cursor, ghost o0: Output)
      returns (stopped: bool)
      requires BatchUnderWay(c0, o0, steps, start, cut, stepIndex, Cur(), Out()) && stepIndex < start + |steps|
      modifies this
      ensures Carried() == old(Carried())
      ensures stopped ==> BatchIsOver(c0, o0, steps, start, cut, false, Cur(), Out())
      ensures !stopped ==> BatchUnderWay(c0, o0, steps, start, cut, stepIndex + 1, Cur(), Out())
    {
      if cut == StopBefore(stepIndex) {
        BatchEnds(c0, o0, steps, start, cut, stepIndex, Cur(), Out());
        return true;
      }
      var step := steps[stepIndex - start];
      if HaltsInThinking(Out(), step, stepIndex, cut != ThinkingSinkFails(stepIndex)) {
        BatchHalts(c0, o0, steps, start, cut, stepIndex, Cur(), Out(), step);
      } else {
        BatchAdvances(c0, o0, steps, start, cut, stepIndex, Cur(), Out(), step);
      }
      var r := ConsumeStep(step, stepIndex, cut != ThinkingSinkFails(stepIndex), true);
      stopped := r.None?;
    }

    /** Fetch and consume in one call; no result when the fetch fails. `completed` says that no callback ended the batch,
        and `grew` that a step or a character is new. */
    method PollOnce(fetched: Option<seq<Step>>, cut: Cut) returns (completed: bool, grew: bool)
      modifies this
      ensures fetched.None? ==> Value() == old(Value()) && !completed && !grew
      ensures fetched.Some? ==>
                var steps, start := fetched.value, old(NextWindowStart());
                && Value() == AfterPoll(old(Value()), steps, cut)
                && (completed <==> Extent(old(Out()), steps, start, cut) == (start + |steps|, false))
                && (grew <==> stepOffset > old(stepOffset) || chunks != old(chunks))
    {
      var start, buffered := NextWindowStart(), chunks;
      var read := ReadWindow(fetched);
      if read.None? {
        return false, false;
      }
      completed := ConsumeBatch(fetched.value, start, cut);
      ProofsKeepOffset(old(Cur()).AfterRead(|fetched.value|), start, Consumed(old(Out()), fetched.value, start, cut));
      grew := read.value.1 || chunks != buffered;
    }

    method AdvanceTo(offset: int) returns (reached: nat)
      modifies this`stepOffset
      ensures Cur() == old(Cur()).AfterAdvance(offset) && Out() == old(Out()) && Carried() == old(Carried())
      ensures stepOffset == Max(old(stepOffset), offset)
      ensures reached == stepOffset
    {
      if offset > stepOffset {
        stepOffset := offset;
      }
      return stepOffset;
    }

    method TakeSnapshot() returns (r: Result<Snapshot, CursorError>)
      ensures r == SnapshotOf(Value())
    {
      if consumedThrough != stepOffset {
        return Err(MidBatch);
      }
      r := Ok(Snapshot(
                Some(SNAPSHOT_VERSION), cascadeId, Some(stepOffset), Some(pollFloor), Some(NextWindowStart()),
                Some(lastWindowStart), Some(overlap), Some(SortedPairs(yieldedByStep)), Some(SortedPairs(thinkingByStep)),
                Some(totalYielded), Some(totalThinking), sawText, Some(generatorOffset), Some(sawActive),
                Some(SortedPairs(usageByStep)), Some(consumedThrough), Some(chunks)));
    }

    static method FromSnapshot(s: Snapshot) returns (r: Result<CascadeTurn, CursorError>)
      ensures Restore(s).Ok? <==> r.Ok?
      ensures r.Ok? ==> fresh(r.value) && r.value.Value() == Restore(s).value
      ensures r.Err? ==> r.error == Restore(s).error
    {
      if s.version.Some? && s.version.value != SNAPSHOT_VERSION {
        return Err(UnsupportedVersion);
      } else if !IsNat(s.stepOffset) {
        return Err(BadStepOffset);
      } else if !IsNat(s.pollFloor) || s.pollFloor.value > s.stepOffset.value {
        return Err(BadPollFloor);
      } else if s.yieldedByStep.None? || s.thinkingByStep.None? {
        return Err(NoCursors);
      } else if s.consumedThrough != s.stepOffset {
        return Err(MidBatch);
      } else if !IsNat(s.generatorOffset) {
        return Err(BadGeneratorOffset);
      } else if s.sawActive.None? {
        return Err(BadSawActive);
      } else if s.usageByStep.None? {
        return Err(BadUsage);
      }
      var yielded := CursorMapOf(s.yieldedByStep.value);
      var thought := CursorMapOf(s.thinkingByStep.value);
      var usage := CursorMapOf(s.usageByStep.value);
      if yielded.None? || thought.None? || usage.None? {
        return Err(BadCursorEntry);
      }
      var cur := Cursor(s.stepOffset.value, s.pollFloor.value,
                        if s.overlap.Some? && s.overlap.value > 0 then s.overlap.value else STEP_OVERLAP,
                        s.consumedThrough.value, s.pollFloor.value, None);
      if s.windowStart.Some? {
        if s.windowStart.value < s.pollFloor.value || s.windowStart.value > s.stepOffset.value {
          return Err(WindowOutOfRange);
        }
        cur := cur.(resumeWindowStart := Some(s.windowStart.value as nat));
      }
      if s.lastWindowStart.Some? {
        cur := cur.(lastWindowStart := s.lastWindowStart.value);
      }
      var turn := new CascadeTurn.Of(
        Turn(cur,
             Output(GetOr(s.chunks, []), yielded.value, thought.value,
                    GetOr(s.totalYielded, 0), GetOr(s.totalThinking, 0), s.sawText),
             Meta(s.cascadeId, s.generatorOffset.value, s.sawActive.value, usage.value)));
      return Ok(turn);
    }
  }

  function JoinMaps<V>(m: map<nat, V>, rest: Option<map<nat, V>>): Option<map<nat, V>> {
    if rest.None? then None else Some(m + rest.value)
  }

  lemma JoinUnits<V>(m: map<nat, V>, rest: Option<map<nat, V>>)
    ensures JoinMaps(map[], rest) == rest && JoinMaps(m, Some(map[])) == Some(m)
  {
    assert m + map[] == m;
    if rest.Some? { assert map[] + rest.value == rest.value; }
  }

  /** The loop that builds a cursor map out of a pair array, and refuses the first bad pair. */
  method CursorMapOf<V>(pairs: seq<(int, Option<V>)>) returns (r: Option<map<nat, V>>)
    ensures r == MapOfPairs(pairs)
  {
    var m: map<nat, V> := map[];
    var k := 0;
    assert pairs[0..] == pairs;
    JoinUnits(m, MapOfPairs(pairs));
    while k < |pairs|
      invariant k <= |pairs|
      invariant MapOfPairs(pairs) == JoinMaps(m, MapOfPairs(pairs[k..]))
    {
      var (index, value) := pairs[k];
      assert pairs[k..][0] == pairs[k] && pairs[k..][1..] == pairs[k + 1..];
      if index < 0 || value.None? {
        return None;
      }
      ghost var rest := MapOfPairs(pairs[k + 1..]);
      assert rest.Some? ==> m + (map[index as nat := value.value] + rest.value) == m[index as nat := value.value] + rest.value;
      m := m[index as nat := value.value];
      k := k + 1;
    }
    assert pairs[k..] == [];
    JoinUnits(m, Some(map[]));
    return Some(m);
  }
}
