/** What every run of polls, failed reads, detaches and resumes of a Cascade turn keeps. */
module CascadeTurnRuns {
  import opened Prelude
  import opened CascadeTurns

  /** The language server's side: a trajectory only gains steps, and a step's thinking and
      streamed text only gain characters at the end. */
  ghost predicate Grows(before: seq<Step>, after: seq<Step>) {
    && |before| <= |after|
    && forall k :: 0 <= k < |before| ==>
         before[k].thinking <= after[k].thinking && before[k].Live() <= after[k].Live()
  }

  function LiveAt(view: seq<Step>, i: nat): Text {
    if i < |view| then view[i].Live() else []
  }

  function ThinkingAt(view: seq<Step>, i: nat): Text {
    if i < |view| then view[i].thinking else []
  }

  datatype Event =
    | FetchFailed                         // the read threw: nothing moves, the same window is retried
    | Poll(view: seq<Step>, cut: Cut)     // the read saw `view` from the window start on
    | Resume                              // snapshot, then fromSnapshot

  function StepTurn(t: Turn, e: Event): Turn
    requires e.Poll? ==> t.cur.NextWindow() <= |e.view|
  {
    match e
    case FetchFailed => t
    case Poll(view, cut) => AfterPoll(t, view[t.cur.NextWindow()..], cut)
    case Resume => if SnapshotOf(t).Ok? && Restore(SnapshotOf(t).value).Ok?
                   then Restore(SnapshotOf(t).value).value else t
  }

  // ------------------------------------------------------------------
  // What one step has emitted
  // ------------------------------------------------------------------

  /** Everything emitted for one step, whichever step it is: the deltas put together. */
  datatype Said = Said(text: Text, thinking: Text)

  /** An output together with what it has said for step i. */
  datatype Tracked = Tracked(said: Said, out: Output)

  function TrackThinking(w: Tracked, i: nat, thinking: Text, j: nat): Tracked {
    Tracked(if i == j then w.said.(thinking := w.said.thinking + w.out.ThinkingDelta(thinking, j)) else w.said,
            w.out.AfterThinking(thinking, j))
  }

  function TrackText(w: Tracked, i: nat, text: Text, j: nat): Tracked {
    Tracked(if i == j then w.said.(text := w.said.text + w.out.TextDelta(text, j)) else w.said,
            w.out.AfterText(text, j))
  }

  function TrackStep(w: Tracked, i: nat, step: Step, j: nat): Tracked {
    TrackText(TrackThinking(w, i, step.thinking, j), i, step.Live(), j)
  }

  function TrackSteps(w: Tracked, i: nat, steps: seq<Step>, start: nat): Tracked {
    Fold(w, (v: Tracked, step: Step, j: nat) => TrackStep(v, i, step, j), steps, start)
  }

  function TrackUpTo(w: Tracked, i: nat, steps: seq<Step>, start: nat, stop: nat, half: bool): Tracked
    requires start <= stop <= start + |steps| && (half ==> stop < start + |steps|)
  {
    var done := TrackSteps(w, i, steps[..stop - start], start);
    if half then TrackThinking(done, i, steps[stop - start].thinking, stop) else done
  }

  function TrackBatch(w: Tracked, i: nat, steps: seq<Step>, start: nat, cut: Cut): Tracked {
    var (stop, half) := Extent(w.out, steps, start, cut);
    TrackUpTo(w, i, steps, start, stop, half)
  }

  /** Tracking watches the output without changing it. */
  lemma TrackingWatches(w: Tracked, i: nat, steps: seq<Step>, start: nat)
    ensures TrackSteps(w, i, steps, start).out == w.out.AfterSteps(steps, start)
  {
    FoldProjects(w, (v: Tracked, step: Step, j: nat) => TrackStep(v, i, step, j), ConsumeInto,
                 (v: Tracked) => v.out, steps, start);
  }

  function SaidEvent(s: Said, t: Turn, i: nat, e: Event): Said
    requires e.Poll? ==> t.cur.NextWindow() <= |e.view|
  {
    if e.Poll? then TrackBatch(Tracked(s, t.out), i, e.view[t.cur.NextWindow()..], t.cur.NextWindow(), e.cut).said else s
  }

  // ------------------------------------------------------------------
  // Exactly once: what a step has emitted is a prefix of its text
  // ------------------------------------------------------------------

  ghost predicate Exact(w: Tracked, view: seq<Step>, i: nat) {
    ExactText(w, view, i) && ExactThinking(w, view, i)
  }

  ghost predicate ExactText(w: Tracked, view: seq<Step>, i: nat) {
    w.out.TextCursor(i) <= |LiveAt(view, i)| && w.said.text == LiveAt(view, i)[..w.out.TextCursor(i)]
  }

  ghost predicate ExactThinking(w: Tracked, view: seq<Step>, i: nat) {
    w.out.ThinkingCursor(i) <= |ThinkingAt(view, i)| && w.said.thinking == ThinkingAt(view, i)[..w.out.ThinkingCursor(i)]
  }

  ghost predicate FullyRead(s: Said, view: seq<Step>, i: nat) {
    s.text == LiveAt(view, i) && s.thinking == ThinkingAt(view, i)
  }

  lemma GrowthKeepsExact(w: Tracked, before: seq<Step>, after: seq<Step>, i: nat)
    requires Exact(w, before, i) && Grows(before, after)
    ensures Exact(w, after, i)
  {
    assert LiveAt(before, i) <= LiveAt(after, i);
    assert ThinkingAt(before, i) <= ThinkingAt(after, i);
  }

  lemma ThinkingKeepsExact(w: Tracked, view: seq<Step>, i: nat, j: nat)
    requires Exact(w, view, i)
    ensures var r := TrackThinking(w, i, ThinkingAt(view, j), j);
            && Exact(r, view, i) && r.said.text == w.said.text
            && (if i == j then r.said.thinking == ThinkingAt(view, i) else r.said == w.said)
  {
  }

  lemma TextKeepsExact(w: Tracked, view: seq<Step>, i: nat, j: nat)
    requires Exact(w, view, i)
    ensures var r := TrackText(w, i, LiveAt(view, j), j);
            && Exact(r, view, i) && r.said.thinking == w.said.thinking
            && (if i == j then r.said.text == LiveAt(view, i) else r.said == w.said)
  {
  }

  lemma StepKeepsExact(w: Tracked, view: seq<Step>, i: nat, j: nat)
    requires Exact(w, view, i) && j < |view|
    ensures var r := TrackStep(w, i, view[j], j);
            Exact(r, view, i) && (if i == j then FullyRead(r.said, view, i) else r.said == w.said)
  {
    ThinkingKeepsExact(w, view, i, j);
    TextKeepsExact(TrackThinking(w, i, view[j].thinking, j), view, i, j);
  }

  /** Consuming the steps from `start` up to `end` keeps the step exact, reads it in full when it
      is among them, and does not touch it otherwise. */
  ghost predicate StretchRead(s: Said, view: seq<Step>, i: nat, start: nat, w: Tracked, end: nat) {
    && Exact(w, view, i)
    && (if start <= i < end then FullyRead(w.said, view, i) else w.said == s)
  }

  lemma StretchKeepsExact(w: Tracked, view: seq<Step>, i: nat, start: nat, steps: seq<Step>)
    requires Exact(w, view, i) && start + |steps| <= |view| && steps == view[start..start + |steps|]
    ensures StretchRead(w.said, view, i, start, TrackSteps(w, i, steps, start), start + |steps|)
  {
    var f := (v: Tracked, step: Step, j: nat) => TrackStep(v, i, step, j);
    var inv := (v: Tracked, j: nat) => StretchRead(w.said, view, i, start, v, j);
    assert Preserves(f, steps, start, inv) by {
      forall v: Tracked, e: Step, j: nat | At(steps, start, j, e) && inv(v, j) ensures inv(f(v, e, j), j + 1) {
        assert e == view[j];
        StepKeepsExact(v, view, i, j);
      }
    }
    FoldInduction(w, f, steps, start, inv);
  }

  /** The step at which a sink failed has its thinking read and no more. */
  lemma HalfStepKeepsExact(s: Said, view: seq<Step>, i: nat, start: nat, v: Tracked, stop: nat)
    requires StretchRead(s, view, i, start, v, stop) && start <= stop
    ensures var r := TrackThinking(v, i, ThinkingAt(view, stop), stop);
            && Exact(r, view, i)
            && (start <= i < stop ==> FullyRead(r.said, view, i))
            && (!(start <= i <= stop) ==> r.said == s)
  {
    ThinkingKeepsExact(v, view, i, stop);
  }

  lemma ExtentWatches(w: Tracked, i: nat, start: nat, steps: seq<Step>, stop: nat, half: bool)
    requires start <= stop <= start + |steps| && (half ==> stop < start + |steps|)
    ensures TrackUpTo(w, i, steps, start, stop, half).out == OutputUpTo(w.out, steps, start, stop, half)
  {
    TrackingWatches(w, i, steps[..stop - start], start);
  }

  /** A batch read up to `stop`, and at `stop` half if a sink failed there. */
  lemma ExtentKeepsExact(w: Tracked, view: seq<Step>, i: nat, start: nat, steps: seq<Step>, stop: nat, half: bool)
    requires Exact(w, view, i) && start <= |view| && steps == view[start..]
    requires start <= stop <= start + |steps| && (half ==> stop < start + |steps|)
    ensures var r := TrackUpTo(w, i, steps, start, stop, half);
            && Exact(r, view, i)
            && (start <= i < stop ==> FullyRead(r.said, view, i))
            && (!(start <= i < (if half then stop + 1 else stop)) ==> r.said == w.said)
  {
    var prefix := steps[..stop - start];
    assert prefix == view[start..start + |prefix|];
    StretchKeepsExact(w, view, i, start, prefix);
    if half {
      assert steps[stop - start] == view[stop];
      HalfStepKeepsExact(w.said, view, i, start, TrackSteps(w, i, prefix, start), stop);
    }
  }

  lemma BatchKeepsExact(w: Tracked, view: seq<Step>, i: nat, start: nat, steps: seq<Step>, cut: Cut)
    requires Exact(w, view, i) && start <= |view| && steps == view[start..]
    ensures var r := TrackBatch(w, i, steps, start, cut);
            && Exact(r, view, i)
            && r.out == OutputAfterBatch(w.out, steps, start, cut)
            && (start <= i < Extent(w.out, steps, start, cut).0 ==> FullyRead(r.said, view, i))
            && (!(start <= i < start + Consumed(w.out, steps, start, cut)) ==> r.said == w.said)
  {
    var (stop, half) := Extent(w.out, steps, start, cut);
    ExtentWatches(w, i, start, steps, stop, half);
    ExtentKeepsExact(w, view, i, start, steps, stop, half);
  }

  // ------------------------------------------------------------------
  // The cursor
  // ------------------------------------------------------------------

  lemma {:induction false} ProofsClosedForm(c: Cursor, start: nat, count: nat)
    requires start + count <= c.stepOffset
    ensures c.AfterProofs(start, count) ==
            c.(consumedThrough := if count == 0 then c.consumedThrough else Max(c.consumedThrough, start + count))
    decreases count
  {
    if count > 0 {
      ProofsClosedForm(c, start, count - 1);
    }
  }

  lemma PollKeepsCursor(t: Turn, steps: seq<Step>, cut: Cut)
    requires t.cur.Wf()
    ensures var start, n := t.cur.NextWindow(), Consumed(t.out, steps, t.cur.NextWindow(), cut);
            var c := AfterPoll(t, steps, cut).cur;
            && c.Wf()
            && c.resumeWindowStart.None?
            && c.pollFloor == t.cur.pollFloor && c.overlap == t.cur.overlap
            && c.stepOffset == Max(t.cur.stepOffset, start + |steps|)
            && c.consumedThrough == (if n == 0 then t.cur.consumedThrough else Max(t.cur.consumedThrough, start + n))
  {
    var start := t.cur.NextWindow();
    ProofsClosedForm(t.cur.AfterRead(|steps|), start, Consumed(t.out, steps, start, cut));
  }

  lemma ResumeIsRestore(t: Turn)
    requires t.cur.Wf()
    ensures StepTurn(t, Resume) == if t.cur.Settled() then Resumed(t) else t
  {
    if t.cur.Settled() { RestoreUndoesSnapshot(t); }
  }

  // ------------------------------------------------------------------
  // Runs
  // ------------------------------------------------------------------

  /** The trajectory a run has seen last. */
  function ViewAfter(view: seq<Step>, e: Event): seq<Step> {
    if e.Poll? then e.view else view
  }

  function LastView(view: seq<Step>, run: seq<Event>): seq<Step>
    decreases |run|
  {
    if run == [] then view else LastView(ViewAfter(view, run[0]), run[1..])
  }

  /** Every read sees a trajectory that grew from the one seen before. */
  ghost predicate GrowingRun(view: seq<Step>, run: seq<Event>)
    decreases |run|
  {
    run == [] || (
      && (run[0].Poll? ==> Grows(view, run[0].view))
      && GrowingRun(ViewAfter(view, run[0]), run[1..]))
  }

  ghost predicate Tracks(s: Said, t: Turn, view: seq<Step>, i: nat) {
    t.cur.Wf() && t.cur.stepOffset <= |view| && Exact(Tracked(s, t.out), view, i)
  }

  lemma EventKeepsTracks(s: Said, t: Turn, view: seq<Step>, e: Event, i: nat)
    requires Tracks(s, t, view, i) && (e.Poll? ==> Grows(view, e.view))
    ensures e.Poll? ==> t.cur.NextWindow() <= |e.view|
    ensures Tracks(SaidEvent(s, t, i, e), StepTurn(t, e), ViewAfter(view, e), i)
  {
    match e
    case FetchFailed =>
    case Poll(v, cut) =>
      GrowthKeepsExact(Tracked(s, t.out), view, v, i);
      BatchKeepsExact(Tracked(s, t.out), v, i, t.cur.NextWindow(), v[t.cur.NextWindow()..], cut);
      PollKeepsCursor(t, v[t.cur.NextWindow()..], cut);
    case Resume => ResumeIsRestore(t);
  }

  /** What the step has said at the end of a run, with the turn the run ends in. */
  ghost function RunTracked(s: Said, t: Turn, view: seq<Step>, i: nat, run: seq<Event>): (r: (Said, Turn))
    requires Tracks(s, t, view, i) && GrowingRun(view, run)
    ensures Tracks(r.0, r.1, LastView(view, run), i)
    decreases |run|
  {
    if run == [] then (s, t)
    else
      EventKeepsTracks(s, t, view, run[0], i);
      RunTracked(SaidEvent(s, t, i, run[0]), StepTurn(t, run[0]), ViewAfter(view, run[0]), i, run[1..])
  }

  /** Whatever is read, stopped, failed, detached and resumed, in any order: all that a step
      ever emitted, put together, is a prefix of its text. Nothing is emitted twice. */
  lemma {:induction false} ExactlyOnce(id: string, start: nat, view: seq<Step>, run: seq<Event>, i: nat)
    requires start <= |view| && GrowingRun(view, run)
    ensures Tracks(Said([], []), FreshTurn(id, start), view, i)
    ensures var (said, turn) := RunTracked(Said([], []), FreshTurn(id, start), view, i, run);
            && said.text == LiveAt(LastView(view, run), i)[..turn.out.TextCursor(i)]
            && said.thinking == ThinkingAt(LastView(view, run), i)[..turn.out.ThinkingCursor(i)]
  {
  }

  // ------------------------------------------------------------------
  // Nothing lost: the re-read window always covers what is unread
  // ------------------------------------------------------------------

  /** The driver's discipline and the server's bound on late growth: a read only starts when every
      counted step was consumed, and only steps inside the window about to be read have grown. */
  ghost predicate Disciplined(t: Turn, view: seq<Step>, i: nat, e: Event) {
    e.Poll? ==>
      && t.cur.Settled()
      && Grows(view, e.view)
      && (i < t.cur.NextWindow() ==> LiveAt(e.view, i) == LiveAt(view, i) && ThinkingAt(e.view, i) == ThinkingAt(view, i))
  }

  /** Below the next window everything is fully read whenever a snapshot can be taken. */
  ghost predicate Covered(s: Said, t: Turn, view: seq<Step>, i: nat) {
    && Tracks(s, t, view, i)
    && (t.cur.resumeWindowStart.Some? ==> t.cur.resumeWindowStart.value == t.cur.LiveWindow())
    && (t.cur.Settled() && t.cur.pollFloor <= i < t.cur.NextWindow() ==> FullyRead(s, view, i))
  }

  lemma EventKeepsCovered(s: Said, t: Turn, view: seq<Step>, e: Event, i: nat)
    requires Covered(s, t, view, i) && Disciplined(t, view, i, e)
    ensures e.Poll? ==> t.cur.NextWindow() <= |e.view|
    ensures Covered(SaidEvent(s, t, i, e), StepTurn(t, e), ViewAfter(view, e), i)
    ensures e.Poll? && e.cut.Completed? && t.cur.pollFloor <= i < |e.view| ==> FullyRead(SaidEvent(s, t, i, e), e.view, i)
    ensures StepTurn(t, e).cur.pollFloor == t.cur.pollFloor
  {
    EventKeepsTracks(s, t, view, e, i);
    match e
    case FetchFailed =>
    case Poll(v, cut) =>
      BatchKeepsExact(Tracked(s, t.out), v, i, t.cur.NextWindow(), v[t.cur.NextWindow()..], cut) by { GrowthKeepsExact(Tracked(s, t.out), view, v, i); }
      PollKeepsCursor(t, v[t.cur.NextWindow()..], cut);
    case Resume => ResumeIsRestore(t);
  }

  ghost predicate DisciplinedRun(t: Turn, view: seq<Step>, i: nat, run: seq<Event>)
    decreases |run|
  {
    run == [] || (
      && Disciplined(t, view, i, run[0])
      && (run[0].Poll? ==> t.cur.NextWindow() <= |run[0].view|)
      && DisciplinedRun(StepTurn(t, run[0]), ViewAfter(view, run[0]), i, run[1..]))
  }

  lemma {:induction false} DisciplinedRunsGrow(t: Turn, view: seq<Step>, i: nat, run: seq<Event>)
    requires DisciplinedRun(t, view, i, run)
    ensures GrowingRun(view, run)
    decreases |run|
  {
    if run != [] {
      DisciplinedRunsGrow(StepTurn(t, run[0]), ViewAfter(view, run[0]), i, run[1..]);
    }
  }

  /** The last thing that happened is a poll that went through its whole batch. */
  predicate EndsInCompletedPoll(run: seq<Event>) {
    run != [] && run[|run| - 1].Poll? && run[|run| - 1].cut.Completed?
  }

  lemma {:induction false} RunKeepsCovered(s: Said, t: Turn, view: seq<Step>, i: nat, run: seq<Event>)
    requires Covered(s, t, view, i) && DisciplinedRun(t, view, i, run) && GrowingRun(view, run)
    ensures var (said, turn) := RunTracked(s, t, view, i, run);
            && Covered(said, turn, LastView(view, run), i)
            && turn.cur.pollFloor == t.cur.pollFloor
            && (EndsInCompletedPoll(run) && t.cur.pollFloor <= i < |LastView(view, run)| ==>
                  FullyRead(said, LastView(view, run), i))
    decreases |run|
  {
    if run != [] {
      var s1, t1, view1 := SaidEvent(s, t, i, run[0]), StepTurn(t, run[0]), ViewAfter(view, run[0]);
      EventKeepsCovered(s, t, view, run[0], i);
      RunKeepsCovered(s1, t1, view1, i, run[1..]);
      if |run| > 1 {
        assert run[1..][|run| - 2] == run[|run| - 1];
      } else {
        assert run[1..] == [];
      }
    }
  }

  /** In a disciplined run no step is lost: whenever a snapshot can be taken everything below the next
      window has been emitted in full, even after a sink failed halfway through a step, and
      a completed poll leaves nothing of the trajectory unemitted. */
  lemma {:induction false} NothingLost(id: string, start: nat, view: seq<Step>, run: seq<Event>, i: nat)
    requires start <= |view| && DisciplinedRun(FreshTurn(id, start), view, i, run)
    ensures Tracks(Said([], []), FreshTurn(id, start), view, i) && GrowingRun(view, run)
    ensures var (said, turn) := RunTracked(Said([], []), FreshTurn(id, start), view, i, run);
            && (turn.cur.Settled() && start <= i < turn.cur.NextWindow() ==> FullyRead(said, LastView(view, run), i))
            && (EndsInCompletedPoll(run) && start <= i ==>
                  said.text == LiveAt(LastView(view, run), i) && said.thinking == ThinkingAt(LastView(view, run), i))
  {
    DisciplinedRunsGrow(FreshTurn(id, start), view, i, run);
    RunKeepsCovered(Said([], []), FreshTurn(id, start), view, i, run);
  }

  /** Why the discipline is needed, exactly: a completed read recovers an unread step if and only if
      its window reaches back to it, and afterwards the snapshot guard passes either way. */
  lemma ReadRecoversIff(s: Said, t: Turn, before: seq<Step>, view: seq<Step>, i: nat)
    requires Tracks(s, t, before, i) && Grows(before, view) && i < |view| && !FullyRead(s, view, i)
    requires t.cur.NextWindow() < |view|
    ensures FullyRead(SaidEvent(s, t, i, Poll(view, Completed)), view, i) <==> t.cur.NextWindow() <= i
    ensures SnapshotOf(StepTurn(t, Poll(view, Completed))).Ok?
  {
    GrowthKeepsExact(Tracked(s, t.out), before, view, i);
    BatchKeepsExact(Tracked(s, t.out), view, i, t.cur.NextWindow(), view[t.cur.NextWindow()..], Completed);
    PollKeepsCursor(t, view[t.cur.NextWindow()..], Completed);
  }

  /** The trap in full: ten steps, the batch is stopped before the first one, the same turn reads
      on, and the first two steps are gone although the turn can be snapshotted. */
  lemma ReadAfterStoppedBatchLoses(view: seq<Step>)
    requires |view| == 10 && view[0].Live() != []
    ensures var t0 := FreshTurn("c", 0);
            var t1 := StepTurn(t0, Poll(view, StopBefore(0)));
            var s1 := SaidEvent(Said([], []), t0, 0, Poll(view, StopBefore(0)));
            && !t1.cur.Settled() && t1.cur.NextWindow() == 2
            && !FullyRead(SaidEvent(s1, t1, 0, Poll(view, Completed)), view, 0)
            && SnapshotOf(StepTurn(t1, Poll(view, Completed))).Ok?
  {
    var t0 := FreshTurn("c", 0);
    var s0 := Said([], []);
    PollKeepsCursor(t0, view[0..], StopBefore(0));
    EventKeepsTracks(s0, t0, view, Poll(view, StopBefore(0)), 0);
    BatchKeepsExact(Tracked(s0, t0.out), view, 0, 0, view[0..], StopBefore(0));
    ReadRecoversIff(SaidEvent(s0, t0, 0, Poll(view, StopBefore(0))), StepTurn(t0, Poll(view, StopBefore(0))), view, view, 0);
  }

  // ------------------------------------------------------------------
  // Resume transparency
  // ------------------------------------------------------------------

  ghost predicate Runnable(t: Turn, run: seq<Event>)
    decreases |run|
  {
    run == [] || (
      && (run[0].Poll? ==> t.cur.NextWindow() <= |run[0].view|)
      && Runnable(StepTurn(t, run[0]), run[1..]))
  }

  ghost function EndTurn(t: Turn, run: seq<Event>): Turn
    requires Runnable(t, run)
    decreases |run|
  {
    if run == [] then t else EndTurn(StepTurn(t, run[0]), run[1..])
  }

  /** The window starts a run asks the server for, failed reads included. */
  ghost function Windows(t: Turn, run: seq<Event>): seq<nat>
    requires Runnable(t, run)
    decreases |run|
  {
    if run == [] then []
    else (if run[0].Resume? then [] else [t.cur.NextWindow()]) + Windows(StepTurn(t, run[0]), run[1..])
  }

  /** The same run without the detaches. */
  ghost function Uncut(run: seq<Event>): seq<Event> {
    if run == [] then [] else (if run[0].Resume? then [] else [run[0]]) + Uncut(run[1..])
  }

  /** Equal but for a pending window that says what the live formula would say anyway. */
  ghost predicate SameTurn(a: Turn, b: Turn) {
    && a.out == b.out && a.meta == b.meta
    && a.cur.(resumeWindowStart := None) == b.cur.(resumeWindowStart := None)
    && a.cur.NextWindow() == b.cur.NextWindow()
  }

  lemma PollsAlike(a: Turn, b: Turn, steps: seq<Step>, cut: Cut)
    requires SameTurn(a, b)
    ensures AfterPoll(a, steps, cut) == AfterPoll(b, steps, cut)
  {
    assert a.cur.AfterRead(|steps|) == b.cur.AfterRead(|steps|);
  }

  lemma EventSimulates(a: Turn, b: Turn, e: Event)
    requires SameTurn(a, b) && a.cur.Wf() && b.cur.Wf() && (e.Poll? ==> a.cur.NextWindow() <= |e.view|)
    ensures StepTurn(a, e).cur.Wf() && StepTurn(b, e).cur.Wf()
    ensures if e.Resume? then SameTurn(StepTurn(a, e), b) else SameTurn(StepTurn(a, e), StepTurn(b, e))
  {
    match e
    case FetchFailed =>
    case Poll(view, cut) =>
      PollKeepsCursor(a, view[a.cur.NextWindow()..], cut);
      PollsAlike(a, b, view[a.cur.NextWindow()..], cut);
    case Resume =>
      ResumeIsRestore(a);
      ResumeIsRestore(b);
  }

  lemma {:induction false} UncutSimulates(a: Turn, b: Turn, run: seq<Event>)
    requires SameTurn(a, b) && a.cur.Wf() && b.cur.Wf() && Runnable(a, run)
    ensures Runnable(b, Uncut(run))
    ensures SameTurn(EndTurn(a, run), EndTurn(b, Uncut(run)))
    ensures Windows(a, run) == Windows(b, Uncut(run))
    decreases |run|
  {
    if run != [] {
      EventSimulates(a, b, run[0]);
      if run[0].Resume? {
        UncutSimulates(StepTurn(a, run[0]), b, run[1..]);
        assert Uncut(run) == Uncut(run[1..]);
        assert Windows(a, run) == Windows(StepTurn(a, run[0]), run[1..]);
      } else {
        UncutSimulates(StepTurn(a, run[0]), StepTurn(b, run[0]), run[1..]);
        assert Uncut(run)[0] == run[0] && Uncut(run)[1..] == Uncut(run[1..]);
      }
    }
  }

  /** A run that is detached and resumed any number of times, at any points where a snapshot can be
      taken, asks for the same windows and ends with the same chunks, cursors and offsets as
      the run that was never cut. */
  lemma {:induction false} ResumeTransparency(t: Turn, run: seq<Event>)
    requires t.cur.Wf() && Runnable(t, run)
    ensures Runnable(t, Uncut(run))
    ensures Windows(t, run) == Windows(t, Uncut(run))
    ensures var (a, b) := (EndTurn(t, run), EndTurn(t, Uncut(run)));
            && a.out == b.out && a.meta == b.meta && a.cur.stepOffset == b.cur.stepOffset
            && a.cur.consumedThrough == b.cur.consumedThrough && a.cur.NextWindow() == b.cur.NextWindow()
            && a.cur.lastWindowStart == b.cur.lastWindowStart
  {
    UncutSimulates(t, t, run);
  }

  /** Where transparency ends: moving the offset of a restored turn before its first read keeps the
      window of the uncut turn if and only if that window is still held by the poll floor. */
  lemma AdvanceBeforeFirstReadIff(t: Turn, offset: int)
    requires t.cur.Wf() && t.cur.resumeWindowStart.None? && offset > t.cur.stepOffset
    ensures Resumed(t).cur.AfterAdvance(offset).NextWindow() == t.cur.AfterAdvance(offset).NextWindow()
            <==> offset <= t.cur.pollFloor + t.cur.overlap
  {
  }

  // ------------------------------------------------------------------
  // Which windows a turn asks for
  // ------------------------------------------------------------------

  /** The longest trajectory seen, `seen` at the start. */
  function Highest(seen: nat, run: seq<Event>): nat
    decreases |run|
  {
    if run == [] then seen
    else Highest(if run[0].Poll? && |run[0].view| > seen then |run[0].view| else seen, run[1..])
  }

  /** Eight steps behind the end of what was seen, but not before `start`. */
  function Behind(start: nat, seen: nat): nat {
    if seen >= start + STEP_OVERLAP then seen - STEP_OVERLAP else start
  }

  /** The windows asked for by a turn that started at `start` and has seen `seen` steps. */
  function Asked(start: nat, seen: nat, run: seq<Event>): seq<nat>
    decreases |run|
  {
    if run == [] then []
    else (if run[0].Resume? then [] else [Behind(start, seen)])
         + Asked(start, if run[0].Poll? && |run[0].view| > seen then |run[0].view| else seen, run[1..])
  }

  /** The window of the last read that succeeded, `window` before the first. */
  function LastRead(start: nat, seen: nat, window: int, run: seq<Event>): int
    decreases |run|
  {
    if run == [] then window
    else LastRead(start, if run[0].Poll? && |run[0].view| > seen then |run[0].view| else seen,
                  if run[0].Poll? then Behind(start, seen) else window, run[1..])
  }

  /** A turn that started at `start` has seen `seen` steps, and reads on where `Behind` says. */
  ghost predicate HasSeen(t: Turn, start: nat, seen: nat) {
    && t.cur.Wf() && t.cur.pollFloor == start && t.cur.overlap == STEP_OVERLAP && t.cur.stepOffset == seen
    && t.cur.NextWindow() == Behind(start, seen)
  }

  lemma EventKeepsSeen(t: Turn, start: nat, seen: nat, e: Event)
    requires HasSeen(t, start, seen) && (e.Poll? ==> Behind(start, seen) <= |e.view|)
    ensures var t' := StepTurn(t, e);
            && HasSeen(t', start, if e.Poll? && |e.view| > seen then |e.view| else seen)
            && t'.cur.lastWindowStart == if e.Poll? then Behind(start, seen) else t.cur.lastWindowStart
  {
    match e
    case FetchFailed =>
    case Poll(view, cut) =>
      var steps := view[t.cur.NextWindow()..];
      PollKeepsCursor(t, steps, cut);
      ProofsClosedForm(t.cur.AfterRead(|steps|), t.cur.NextWindow(), Consumed(t.out, steps, t.cur.NextWindow(), cut));
    case Resume => ResumeIsRestore(t);
  }

  lemma {:induction false} WindowsOfSeen(t: Turn, start: nat, seen: nat, run: seq<Event>)
    requires HasSeen(t, start, seen) && Runnable(t, run)
    ensures Windows(t, run) == Asked(start, seen, run)
    ensures HasSeen(EndTurn(t, run), start, Highest(seen, run))
    ensures EndTurn(t, run).cur.lastWindowStart == LastRead(start, seen, t.cur.lastWindowStart, run)
    decreases |run|
  {
    if run != [] {
      EventKeepsSeen(t, start, seen, run[0]);
      WindowsOfSeen(StepTurn(t, run[0]), start, if run[0].Poll? && |run[0].view| > seen then |run[0].view| else seen, run[1..]);
    }
  }

  /** Whatever fails, stops or is resumed in between: every read of a new turn starts eight steps behind the longest
      trajectory it has seen, never before the step it started at; its offset is that length, and the sweep goes back
      to the last window that was read. */
  lemma WindowsTrailTheTrajectory(id: string, start: nat, run: seq<Event>)
    requires Runnable(FreshTurn(id, start), run)
    ensures Windows(FreshTurn(id, start), run) == Asked(start, start, run)
    ensures var end := EndTurn(FreshTurn(id, start), run).cur;
            && end.stepOffset == Highest(start, run) && end.NextWindow() == Behind(start, Highest(start, run))
            && end.lastWindowStart == LastRead(start, start, start, run)
  {
    WindowsOfSeen(FreshTurn(id, start), start, start, run);
  }

  // ------------------------------------------------------------------
  // The final sweep
  // ------------------------------------------------------------------

  /** What the sweep aims at: `modifiedText` when it extends `responseText`, else `responseText`. */
  function Polished(step: Step): Text {
    if step.responseText <= step.modifiedText then step.modifiedText else step.responseText
  }

  function TrackFinalStep(w: Tracked, i: nat, step: Step, j: nat): Tracked {
    var topped := TrackText(w, i, step.responseText, j);
    if step.responseText <= step.modifiedText then TrackText(topped, i, step.modifiedText, j) else topped
  }

  function TrackFinalSteps(w: Tracked, i: nat, steps: seq<Step>, start: nat): Tracked {
    Fold(w, (v: Tracked, step: Step, j: nat) => TrackFinalStep(v, i, step, j), steps, start)
  }

  lemma FinalTrackingWatches(w: Tracked, i: nat, steps: seq<Step>, start: nat)
    ensures TrackFinalSteps(w, i, steps, start).out == w.out.AfterFinalSteps(steps, start)
  {
    FoldProjects(w, (v: Tracked, step: Step, j: nat) => TrackFinalStep(v, i, step, j), PolishInto,
                 (v: Tracked) => v.out, steps, start);
  }

  /** The cursor of step i counts what the step has said. */
  ghost predicate Counts(w: Tracked, i: nat) {
    w.out.TextCursor(i) == |w.said.text|
  }

  /** The polish pass of a step ends exactly on the polished text if and only if what was already
      emitted is a prefix of it; a rewritten prefix is never repaired. */
  lemma FinalStepPolishesIff(w: Tracked, step: Step, i: nat)
    requires Counts(w, i)
    ensures var r := TrackFinalStep(w, i, step, i);
            && Counts(r, i) && r.said.thinking == w.said.thinking
            && (r.said.text == Polished(step) <==> w.said.text <= Polished(step))
            && (w.said.text <= step.responseText ==> r.said.text == Polished(step))
  {
    assert w.said.text <= TrackFinalStep(w, i, step, i).said.text;
  }

  lemma FinalStepFrame(w: Tracked, step: Step, i: nat, j: nat)
    requires Counts(w, i) && i != j
    ensures Counts(TrackFinalStep(w, i, step, j), i) && TrackFinalStep(w, i, step, j).said == w.said
  {
  }

  /** The sweep is done below `end`, and `goal` is the polished text of step i. */
  ghost predicate StretchPolished(s: Said, i: nat, goal: Text, start: nat, w: Tracked, end: nat) {
    && Counts(w, i)
    && w.said.thinking == s.thinking
    && (if start <= i < end then w.said.text == goal <==> s.text <= goal else w.said == s)
  }

  lemma PolishOneMore(s: Said, i: nat, goal: Text, start: nat, v: Tracked, step: Step, j: nat)
    requires start <= j && StretchPolished(s, i, goal, start, v, j) && (i == j ==> goal == Polished(step))
    ensures StretchPolished(s, i, goal, start, TrackFinalStep(v, i, step, j), j + 1)
  {
    if i == j {
      FinalStepPolishesIff(v, step, i);
    } else {
      FinalStepFrame(v, step, i, j);
    }
  }

  lemma StretchPolishes(w: Tracked, i: nat, goal: Text, steps: seq<Step>, start: nat)
    requires Counts(w, i) && (start <= i < start + |steps| ==> goal == Polished(steps[i - start]))
    ensures StretchPolished(w.said, i, goal, start, TrackFinalSteps(w, i, steps, start), start + |steps|)
  {
    var f := (v: Tracked, step: Step, j: nat) => TrackFinalStep(v, i, step, j);
    var inv := (v: Tracked, j: nat) => StretchPolished(w.said, i, goal, start, v, j);
    assert Preserves(f, steps, start, inv) by {
      forall v: Tracked, e: Step, j: nat | At(steps, start, j, e) && inv(v, j) ensures inv(f(v, e, j), j + 1) {
        PolishOneMore(w.said, i, goal, start, v, e, j);
      }
    }
    FoldInduction(w, f, steps, start, inv);
  }

  /** The sweep after the last poll: every step of the swept window ends exactly on its polished text
      if and only if it had said a prefix of it, steps before the window keep what they said, and
      no thinking is topped up. */
  lemma SweepPolishesIff(s: Said, t: Turn, seen: seq<Step>, final: seq<Step>, i: nat)
    requires Tracks(s, t, seen, i) && 0 <= t.cur.lastWindowStart <= |final|
    ensures var start := t.cur.lastWindowStart;
            var r := TrackFinalSteps(Tracked(s, t.out), i, final[start..], start);
            && r.out == AfterSweep(t, final[start..]).out
            && r.said.thinking == s.thinking
            && (start <= i < |final| ==> (r.said.text == Polished(final[i]) <==> s.text <= Polished(final[i])))
            && (!(start <= i < |final|) ==> r.said == s)
  {
    var start := t.cur.lastWindowStart;
    StretchPolishes(Tracked(s, t.out), i, if start <= i < |final| then Polished(final[i]) else [], final[start..], start);
    FinalTrackingWatches(Tracked(s, t.out), i, final[start..], start);
  }

  /** After any run of a new turn, the sweep over a trajectory that grew once more ends every swept step that has a
      `responseText` exactly on that, or on `modifiedText` when that extends it. */
  lemma {:induction false} SweepEndsOnPolished(id: string, start: nat, view: seq<Step>, run: seq<Event>, final: seq<Step>, i: nat)
    requires start <= |view| && GrowingRun(view, run) && Grows(LastView(view, run), final)
    ensures Tracks(Said([], []), FreshTurn(id, start), view, i)
    ensures var (said, turn) := RunTracked(Said([], []), FreshTurn(id, start), view, i, run);
            var from := turn.cur.lastWindowStart;
            0 <= from <= i < |final| && final[i].responseText != [] ==>
              TrackFinalSteps(Tracked(said, turn.out), i, final[from..], from).said.text == Polished(final[i])
  {
    ExactlyOnce(id, start, view, run, i);
    var (said, turn) := RunTracked(Said([], []), FreshTurn(id, start), view, i, run);
    var from, last := turn.cur.lastWindowStart, LastView(view, run);
    if 0 <= from <= i < |final| && final[i].responseText != [] {
      SweepPolishesIff(said, turn, last, final, i);
      assert said.text <= LiveAt(last, i) <= final[i].Live() == final[i].responseText <= Polished(final[i]);
    }
  }

  /** The sweep moves the offset to the end of what it saw, and consumes what it saw: a turn that had nothing unread has
      nothing unread after it. */
  lemma SweepMovesOn(t: Turn, final: seq<Step>)
    requires t.cur.Wf() && 0 <= t.cur.lastWindowStart <= |final|
    ensures var end := AfterSweep(t, final[t.cur.lastWindowStart..]).cur;
            && end.stepOffset == Max(t.cur.stepOffset, |final|)
            && (t.cur.Settled() && (t.cur.lastWindowStart < |final| || |final| <= t.cur.stepOffset) ==> end.Settled())
            && end.pollFloor == t.cur.pollFloor && end.lastWindowStart == t.cur.lastWindowStart
  {
    var start: nat := t.cur.lastWindowStart;
    ProofsClosedForm(t.cur.AfterAdvance(|final|), start, |final| - start);
  }

  /** A new turn that reads a step to the end has said its live text. */
  lemma FirstPollReads(view: seq<Step>)
    requires |view| > 0 && view[0].Live() != []
    ensures var t := FreshTurn("c", 0);
            var said, end := SaidEvent(Said([], []), t, 0, Poll(view, Completed)), StepTurn(t, Poll(view, Completed));
            said.text == view[0].Live() && Tracks(said, end, view, 0) && end.cur.lastWindowStart == 0
  {
    var t, e := FreshTurn("c", 0), Poll(view, Completed);
    EventKeepsTracks(Said([], []), t, [], e, 0);
    ReadRecoversIff(Said([], []), t, [], view, 0);
    ProofsClosedForm(t.cur.AfterRead(|view|), 0, |view|);
  }

  /** Without a `responseText` it can fail: a step that streamed through the fallback and was rewritten at the end
      does not end on its polished text. */
  lemma FallbackIsNotRepaired()
    ensures var view, final := [Step([], [], Word("ab"), [])], [Step([], [], Word("ab"), Word("xy"))];
            var t := FreshTurn("c", 0);
            var said, end := SaidEvent(Said([], []), t, 0, Poll(view, Completed)), StepTurn(t, Poll(view, Completed));
            && Grows(view, final) && end.cur.lastWindowStart == 0
            && TrackFinalSteps(Tracked(said, end.out), 0, final[0..], 0).said.text != Polished(final[0])
  {
    var view, final := [Step([], [], Word("ab"), [])], [Step([], [], Word("ab"), Word("xy"))];
    FirstPollReads(view);
    var t := FreshTurn("c", 0);
    var said, end := SaidEvent(Said([], []), t, 0, Poll(view, Completed)), StepTurn(t, Poll(view, Completed));
    SweepPolishesIff(said, end, view, final, 0);
    assert Word("ab")[0] != Word("xy")[0];
  }

  // ------------------------------------------------------------------
  // The buffer and the counters
  // ------------------------------------------------------------------

  /** How many characters of text the buffer holds. */
  function TextLength(chunks: seq<Chunk>): nat {
    if chunks == [] then 0 else TextLength(chunks[..|chunks| - 1]) + |chunks[|chunks| - 1].text|
  }

  function ThinkingLength(chunks: seq<Chunk>): nat {
    if chunks == [] then 0 else ThinkingLength(chunks[..|chunks| - 1]) + |chunks[|chunks| - 1].thinking|
  }

  ghost predicate Balanced(o: Output) {
    && o.totalYielded == TextLength(o.chunks)
    && o.totalThinking == ThinkingLength(o.chunks)
    && (o.sawText <==> o.totalYielded > 0)
  }

  lemma EmitKeepsBalanced(o: Output, text: Text, i: nat)
    requires Balanced(o)
    ensures Balanced(o.AfterText(text, i)) && Balanced(o.AfterThinking(text, i))
  {
    assert (o.chunks + [Chunk(o.TextDelta(text, i), [])])[..|o.chunks|] == o.chunks;
    assert (o.chunks + [Chunk([], o.ThinkingDelta(text, i))])[..|o.chunks|] == o.chunks;
  }

  /** A property of outputs that no single emission breaks. */
  ghost predicate Stable(inv: Output -> bool) {
    && (forall o: Output, text: Text, i: nat {:trigger o.AfterText(text, i)} :: inv(o) ==> inv(o.AfterText(text, i)))
    && (forall o: Output, text: Text, i: nat {:trigger o.AfterThinking(text, i)} :: inv(o) ==> inv(o.AfterThinking(text, i)))
  }

  lemma StepsKeep(inv: Output -> bool, o: Output, steps: seq<Step>, start: nat)
    requires Stable(inv) && inv(o)
    ensures inv(o.AfterSteps(steps, start)) && inv(o.AfterFinalSteps(steps, start))
  {
    var inv' := (v: Output, j: nat) => inv(v);
    assert Preserves(ConsumeInto, steps, start, inv');
    FoldInduction(o, ConsumeInto, steps, start, inv');
    assert Preserves(PolishInto, steps, start, inv');
    FoldInduction(o, PolishInto, steps, start, inv');
  }

  lemma BatchKeeps(inv: Output -> bool, o: Output, steps: seq<Step>, start: nat, cut: Cut)
    requires Stable(inv) && inv(o)
    ensures inv(OutputAfterBatch(o, steps, start, cut))
  {
    StepsKeep(inv, o, steps[..Extent(o, steps, start, cut).0 - start], start);
  }

  /** All a turn ever does to its output is to emit: what one emission keeps, a run keeps. */
  lemma {:induction false} RunKeeps(inv: Output -> bool, t: Turn, run: seq<Event>)
    requires Stable(inv) && inv(t.out) && t.cur.Wf() && Runnable(t, run)
    ensures inv(EndTurn(t, run).out)
    decreases |run|
  {
    if run != [] {
      match run[0] {
        case FetchFailed =>
        case Poll(view, cut) =>
          PollKeepsCursor(t, view[t.cur.NextWindow()..], cut);
          BatchKeeps(inv, t.out, view[t.cur.NextWindow()..], t.cur.NextWindow(), cut);
        case Resume => ResumeIsRestore(t);
      }
      RunKeeps(inv, StepTurn(t, run[0]), run[1..]);
    }
  }

  /** Detached or not, the counters of a turn are the lengths of its buffer, and `sawText`
      says whether any text was emitted; the final sweep keeps this too. */
  lemma {:induction false} RunKeepsBalanced(t: Turn, run: seq<Event>, final: seq<Step>, start: nat)
    requires Balanced(t.out) && t.cur.Wf() && Runnable(t, run)
    ensures Balanced(EndTurn(t, run).out) && Balanced(EndTurn(t, run).out.AfterFinalSteps(final, start))
  {
    var inv := (o: Output) => Balanced(o);
    assert Stable(inv) by {
      forall o: Output, text: Text, i: nat | inv(o) ensures inv(o.AfterText(text, i)) && inv(o.AfterThinking(text, i)) {
        EmitKeepsBalanced(o, text, i);
      }
    }
    RunKeeps(inv, t, run);
    StepsKeep(inv, EndTurn(t, run).out, final, start);
    assert inv(EndTurn(t, run).out) && inv(EndTurn(t, run).out.AfterFinalSteps(final, start));
  }

  // ------------------------------------------------------------------
  // The buffer holds what the steps said
  // ------------------------------------------------------------------

  /** How much text the first `n` steps have emitted, and how much thinking. */
  function TextOfSteps(o: Output, n: nat): nat {
    if n == 0 then 0 else TextOfSteps(o, n - 1) + o.TextCursor(n - 1)
  }

  function ThinkingOfSteps(o: Output, n: nat): nat {
    if n == 0 then 0 else ThinkingOfSteps(o, n - 1) + o.ThinkingCursor(n - 1)
  }

  /** The buffer holds the emissions of the steps below any bound that covers them, and nothing else. */
  ghost predicate Attributed(o: Output) {
    && (forall n: nat :: (forall k :: k in o.yielded ==> k < n) ==> TextOfSteps(o, n) == TextLength(o.chunks))
    && (forall n: nat :: (forall k :: k in o.thought ==> k < n) ==> ThinkingOfSteps(o, n) == ThinkingLength(o.chunks))
  }

  lemma {:induction false} TextOfOneStep(o: Output, o': Output, i: nat, n: nat, more: nat)
    requires forall k: nat :: o'.TextCursor(k) == o.TextCursor(k) + if k == i then more else 0
    ensures TextOfSteps(o', n) == TextOfSteps(o, n) + if i < n then more else 0
    decreases n
  {
    if n > 0 {
      TextOfOneStep(o, o', i, n - 1, more);
    }
  }

  lemma {:induction false} ThinkingOfOneStep(o: Output, o': Output, i: nat, n: nat, more: nat)
    requires forall k: nat :: o'.ThinkingCursor(k) == o.ThinkingCursor(k) + if k == i then more else 0
    ensures ThinkingOfSteps(o', n) == ThinkingOfSteps(o, n) + if i < n then more else 0
    decreases n
  {
    if n > 0 {
      ThinkingOfOneStep(o, o', i, n - 1, more);
    }
  }

  lemma {:induction false} LengthOfMore(chunks: seq<Chunk>, c: Chunk)
    ensures TextLength(chunks + [c]) == TextLength(chunks) + |c.text|
    ensures ThinkingLength(chunks + [c]) == ThinkingLength(chunks) + |c.thinking|
  {
    assert (chunks + [c])[..|chunks|] == chunks;
  }

  lemma TextKeepsAttributed(o: Output, text: Text, i: nat)
    requires Attributed(o)
    ensures Attributed(o.AfterText(text, i))
  {
    var o', delta := o.AfterText(text, i), o.TextDelta(text, i);
    LengthOfMore(o.chunks, Chunk(delta, []));
    if delta != [] {
      forall n: nat | forall k :: k in o'.yielded ==> k < n ensures TextOfSteps(o', n) == TextLength(o'.chunks) {
        assert i in o'.yielded && forall k :: k in o.yielded ==> k in o'.yielded;
        TextOfOneStep(o, o', i, n, |delta|);
      }
      forall n: nat | forall k :: k in o'.thought ==> k < n ensures ThinkingOfSteps(o', n) == ThinkingLength(o'.chunks) {
        ThinkingOfOneStep(o, o', i, n, 0);
      }
    }
  }

  lemma ThinkingKeepsAttributed(o: Output, thinking: Text, i: nat)
    requires Attributed(o)
    ensures Attributed(o.AfterThinking(thinking, i))
  {
    var o', delta := o.AfterThinking(thinking, i), o.ThinkingDelta(thinking, i);
    LengthOfMore(o.chunks, Chunk([], delta));
    if delta != [] {
      forall n: nat | forall k :: k in o'.thought ==> k < n ensures ThinkingOfSteps(o', n) == ThinkingLength(o'.chunks) {
        assert i in o'.thought && forall k :: k in o.thought ==> k in o'.thought;
        ThinkingOfOneStep(o, o', i, n, |delta|);
      }
      forall n: nat | forall k :: k in o'.yielded ==> k < n ensures TextOfSteps(o', n) == TextLength(o'.chunks) {
        TextOfOneStep(o, o', i, n, 0);
      }
    }
  }

  lemma {:induction false} NothingSaid(o: Output, n: nat)
    requires o.yielded == map[] && o.thought == map[]
    ensures TextOfSteps(o, n) == 0 && ThinkingOfSteps(o, n) == 0
    decreases n
  {
    if n > 0 {
      NothingSaid(o, n - 1);
    }
  }

  /** All that the buffer of a turn holds after a run is what the steps have said, step by step: the lengths add up. */
  lemma {:induction false} RunKeepsAttributed(id: string, start: nat, run: seq<Event>)
    requires Runnable(FreshTurn(id, start), run)
    ensures Attributed(EndTurn(FreshTurn(id, start), run).out)
  {
    var t := FreshTurn(id, start);
    var inv := (o: Output) => Attributed(o);
    forall n: nat ensures TextOfSteps(t.out, n) == 0 && ThinkingOfSteps(t.out, n) == 0 {
      NothingSaid(t.out, n);
    }
    assert Stable(inv) by {
      forall o: Output, text: Text, i: nat | inv(o) ensures inv(o.AfterText(text, i)) && inv(o.AfterThinking(text, i)) {
        TextKeepsAttributed(o, text, i);
        ThinkingKeepsAttributed(o, text, i);
      }
    }
    RunKeeps(inv, t, run);
    assert inv(EndTurn(t, run).out);
  }

  lemma {:induction false} TrackedRunEnds(s: Said, t: Turn, view: seq<Step>, i: nat, run: seq<Event>)
    requires Tracks(s, t, view, i) && GrowingRun(view, run)
    ensures Runnable(t, run) && RunTracked(s, t, view, i, run).1 == EndTurn(t, run)
    decreases |run|
  {
    if run != [] {
      EventKeepsTracks(s, t, view, run[0], i);
      TrackedRunEnds(SaidEvent(s, t, i, run[0]), StepTurn(t, run[0]), ViewAfter(view, run[0]), i, run[1..]);
    }
  }

  /** What each step is tracked to have said is what the buffer's turn has counted for it. */
  lemma {:induction false} SaidIsCounted(id: string, start: nat, view: seq<Step>, run: seq<Event>, i: nat)
    requires start <= |view| && GrowingRun(view, run)
    ensures Runnable(FreshTurn(id, start), run) && Tracks(Said([], []), FreshTurn(id, start), view, i)
    ensures var said, out := RunTracked(Said([], []), FreshTurn(id, start), view, i, run).0, EndTurn(FreshTurn(id, start), run).out;
            |said.text| == out.TextCursor(i) && |said.thinking| == out.ThinkingCursor(i)
  {
    ExactlyOnce(id, start, view, run, i);
    TrackedRunEnds(Said([], []), FreshTurn(id, start), view, i, run);
  }
}
