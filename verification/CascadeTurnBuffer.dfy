/** What the chunk buffer of a cascade turn holds after any run: an interleaving of what its steps have said. */
module CascadeTurnBuffers {
  import opened Prelude
  import opened CascadeTurns
  import opened CascadeTurnRuns

  // ------------------------------------------------------------------
  // Chunks and the steps they belong to
  // ------------------------------------------------------------------

  /** The text of the chunks that belong to step i, in buffer order. */
  function TextOf(chunks: seq<Chunk>, owner: seq<nat>, i: nat): Text
    requires |owner| == |chunks|
  {
    if chunks == [] then []
    else
      var n := |chunks| - 1;
      TextOf(chunks[..n], owner[..n], i) + if owner[n] == i then chunks[n].text else []
  }

  function ThinkingOf(chunks: seq<Chunk>, owner: seq<nat>, i: nat): Text
    requires |owner| == |chunks|
  {
    if chunks == [] then []
    else
      var n := |chunks| - 1;
      ThinkingOf(chunks[..n], owner[..n], i) + if owner[n] == i then chunks[n].thinking else []
  }

  /** A chunk carries text or thinking, and never both or neither. */
  predicate OfOneKind(chunks: seq<Chunk>) {
    forall k :: 0 <= k < |chunks| ==> (chunks[k].text == [] <==> chunks[k].thinking != [])
  }

  /** Every chunk belongs to one step, and the chunks of each step put together are what `said` says. */
  ghost predicate Owned(chunks: seq<Chunk>, owner: seq<nat>, said: nat -> Said) {
    && |owner| == |chunks| && OfOneKind(chunks)
    && forall i: nat :: TextOf(chunks, owner, i) == said(i).text && ThinkingOf(chunks, owner, i) == said(i).thinking
  }

  ghost predicate Interleaves(chunks: seq<Chunk>, said: nat -> Said) {
    exists owner: seq<nat> :: Owned(chunks, owner, said)
  }

  /** What the steps of a trajectory have said as far as the cursors of an output reach. */
  function ReadOf(o: Output, view: seq<Step>): nat -> Said {
    (i: nat) => Said(Upto(LiveAt(view, i), o.TextCursor(i)), Upto(ThinkingAt(view, i), o.ThinkingCursor(i)))
  }

  function Upto(text: Text, n: nat): Text {
    if n <= |text| then text[..n] else text
  }

  lemma OneMoreChunk(chunks: seq<Chunk>, owner: seq<nat>, c: Chunk, j: nat, i: nat)
    requires |owner| == |chunks|
    ensures TextOf(chunks + [c], owner + [j], i) == TextOf(chunks, owner, i) + if i == j then c.text else []
    ensures ThinkingOf(chunks + [c], owner + [j], i) == ThinkingOf(chunks, owner, i) + if i == j then c.thinking else []
  {
    assert (chunks + [c])[..|chunks|] == chunks && (owner + [j])[..|chunks|] == owner;
  }

  /** A chunk more is a chunk more for its step. */
  lemma ChunkKeepsOwned(chunks: seq<Chunk>, said: nat -> Said, c: Chunk, j: nat, said': nat -> Said)
    requires Interleaves(chunks, said) && OfOneKind([c])
    requires forall i: nat :: said'(i) == if i == j then Said(said(i).text + c.text, said(i).thinking + c.thinking) else said(i)
    ensures Interleaves(chunks + [c], said')
  {
    var owner :| Owned(chunks, owner, said);
    forall i: nat ensures TextOf(chunks + [c], owner + [j], i) == said'(i).text
                          && ThinkingOf(chunks + [c], owner + [j], i) == said'(i).thinking {
      OneMoreChunk(chunks, owner, c, j, i);
    }
    assert OfOneKind(chunks + [c]) by {
      assert [c][0] == c;
    }
    assert Owned(chunks + [c], owner + [j], said');
  }

  lemma SameSaid(chunks: seq<Chunk>, said: nat -> Said, said': nat -> Said)
    requires Interleaves(chunks, said) && forall i: nat :: said(i) == said'(i)
    ensures Interleaves(chunks, said')
  {
    var owner :| Owned(chunks, owner, said);
    assert Owned(chunks, owner, said');
  }

  // ------------------------------------------------------------------
  // Over every run
  // ------------------------------------------------------------------

  /** Cursors are within the trajectory, and the buffer interleaves what they cover. */
  ghost predicate Told(o: Output, view: seq<Step>) {
    && (forall i: nat :: o.TextCursor(i) <= |LiveAt(view, i)| && o.ThinkingCursor(i) <= |ThinkingAt(view, i)|)
    && Interleaves(o.chunks, ReadOf(o, view))
  }

  lemma GrowthKeepsTold(o: Output, before: seq<Step>, after: seq<Step>)
    requires Told(o, before) && Grows(before, after)
    ensures Told(o, after)
  {
    forall i: nat ensures LiveAt(before, i) <= LiveAt(after, i) && ThinkingAt(before, i) <= ThinkingAt(after, i) {}
    SameSaid(o.chunks, ReadOf(o, before), ReadOf(o, after));
  }

  lemma {:induction false} ThinkingIsRead(o: Output, view: seq<Step>, j: nat, i: nat)
    requires o.ThinkingCursor(i) <= |ThinkingAt(view, i)|
    ensures var o', thinking, was := o.AfterThinking(ThinkingAt(view, j), j), ThinkingAt(view, j), ReadOf(o, view)(i);
            && o'.ThinkingCursor(i) <= |ThinkingAt(view, i)| && o'.TextCursor(i) == o.TextCursor(i)
            && ReadOf(o', view)(i) == if i == j then Said(was.text, was.thinking + thinking[o.ThinkingCursor(j)..]) else was
  {
  }

  lemma {:induction false} TextIsRead(o: Output, view: seq<Step>, j: nat, i: nat)
    requires o.TextCursor(i) <= |LiveAt(view, i)|
    ensures var o', text, was := o.AfterText(LiveAt(view, j), j), LiveAt(view, j), ReadOf(o, view)(i);
            && o'.TextCursor(i) <= |LiveAt(view, i)| && o'.ThinkingCursor(i) == o.ThinkingCursor(i)
            && ReadOf(o', view)(i) == if i == j then Said(was.text + text[o.TextCursor(j)..], was.thinking) else was
  {
  }

  lemma {:induction false} ThinkingKeepsTold(o: Output, view: seq<Step>, j: nat)
    requires Told(o, view)
    ensures Told(o.AfterThinking(ThinkingAt(view, j), j), view)
  {
    var o', n := o.AfterThinking(ThinkingAt(view, j), j), o.ThinkingCursor(j);
    if n < |ThinkingAt(view, j)| {
      var c, was, now := Chunk([], ThinkingAt(view, j)[n..]), ReadOf(o, view), ReadOf(o', view);
      forall i: nat ensures now(i) == if i == j then Said(was(i).text + c.text, was(i).thinking + c.thinking) else was(i) {
        ThinkingIsRead(o, view, j, i);
      }
      ChunkKeepsOwned(o.chunks, was, c, j, now);
    }
  }

  lemma {:induction false} TextKeepsTold(o: Output, view: seq<Step>, j: nat)
    requires Told(o, view)
    ensures Told(o.AfterText(LiveAt(view, j), j), view)
  {
    var o', n := o.AfterText(LiveAt(view, j), j), o.TextCursor(j);
    if n < |LiveAt(view, j)| {
      var c, was, now := Chunk(LiveAt(view, j)[n..], []), ReadOf(o, view), ReadOf(o', view);
      forall i: nat ensures now(i) == if i == j then Said(was(i).text + c.text, was(i).thinking + c.thinking) else was(i) {
        TextIsRead(o, view, j, i);
      }
      ChunkKeepsOwned(o.chunks, was, c, j, now);
    }
  }

  lemma StepsKeepTold(o: Output, view: seq<Step>, steps: seq<Step>, start: nat)
    requires Told(o, view) && start + |steps| <= |view| && steps == view[start..start + |steps|]
    ensures Told(o.AfterSteps(steps, start), view)
  {
    var inv := (v: Output, j: nat) => Told(v, view);
    assert Preserves(ConsumeInto, steps, start, inv) by {
      forall v: Output, e: Step, j: nat | At(steps, start, j, e) && inv(v, j) ensures inv(ConsumeInto(v, e, j), j + 1) {
        assert e == view[j];
        ThinkingKeepsTold(v, view, j);
        TextKeepsTold(v.AfterThinking(e.thinking, j), view, j);
      }
    }
    FoldInduction(o, ConsumeInto, steps, start, inv);
  }

  lemma {:induction false} StretchKeepsTold(o: Output, view: seq<Step>, start: nat, steps: seq<Step>, stop: nat, half: bool)
    requires Told(o, view) && start <= stop <= |view| && steps == view[start..] && (half ==> stop < |view|)
    ensures Told(OutputUpTo(o, steps, start, stop, half), view)
  {
    SliceOfRest(view, start, stop);
    StepsKeepTold(o, view, view[start..stop], start);
    if half {
      ThinkingKeepsTold(o.AfterSteps(view[start..stop], start), view, stop);
    }
  }

  lemma {:induction false} BatchKeepsTold(o: Output, view: seq<Step>, start: nat, steps: seq<Step>, cut: Cut)
    requires Told(o, view) && start <= |view| && steps == view[start..]
    ensures Told(OutputAfterBatch(o, steps, start, cut), view)
  {
    var (stop, half) := Extent(o, steps, start, cut);
    StretchKeepsTold(o, view, start, steps, stop, half);
  }

  lemma {:induction false} RunKeepsTold(t: Turn, view: seq<Step>, run: seq<Event>)
    requires t.cur.Wf() && t.cur.stepOffset <= |view| && Told(t.out, view) && GrowingRun(view, run)
    ensures Runnable(t, run) && Told(EndTurn(t, run).out, LastView(view, run))
    decreases |run|
  {
    if run != [] {
      match run[0] {
        case FetchFailed =>
        case Poll(v, cut) =>
          GrowthKeepsTold(t.out, view, v);
          BatchKeepsTold(t.out, v, t.cur.NextWindow(), v[t.cur.NextWindow()..], cut);
          PollKeepsCursor(t, v[t.cur.NextWindow()..], cut);
        case Resume => ResumeIsRestore(t);
      }
      RunKeepsTold(StepTurn(t, run[0]), ViewAfter(view, run[0]), run[1..]);
    }
  }

  lemma NothingTold(id: string, start: nat, view: seq<Step>)
    ensures Told(FreshTurn(id, start).out, view)
  {
    var o := FreshTurn(id, start).out;
    assert Owned([], [], ReadOf(o, view));
  }

  /** Whatever is read, stopped, failed, detached and resumed: the buffer is an interleaving of the steps. Every chunk belongs
      to one step, and the chunks of each step, in buffer order, are its text and its thinking up to its cursors. */
  lemma BufferInterleavesSteps(id: string, start: nat, view: seq<Step>, run: seq<Event>)
    requires start <= |view| && GrowingRun(view, run)
    ensures Runnable(FreshTurn(id, start), run)
    ensures var o, last := EndTurn(FreshTurn(id, start), run).out, LastView(view, run);
            exists owner: seq<nat> ::
              && |owner| == |o.chunks| && OfOneKind(o.chunks)
              && forall i: nat ::
                   && o.TextCursor(i) <= |LiveAt(last, i)| && TextOf(o.chunks, owner, i) == LiveAt(last, i)[..o.TextCursor(i)]
                   && o.ThinkingCursor(i) <= |ThinkingAt(last, i)|
                   && ThinkingOf(o.chunks, owner, i) == ThinkingAt(last, i)[..o.ThinkingCursor(i)]
  {
    NothingTold(id, start, view);
    RunKeepsTold(FreshTurn(id, start), view, run);
    var o, last := EndTurn(FreshTurn(id, start), run).out, LastView(view, run);
    var owner :| Owned(o.chunks, owner, ReadOf(o, last));
    forall i: nat ensures o.TextCursor(i) <= |LiveAt(last, i)| && TextOf(o.chunks, owner, i) == LiveAt(last, i)[..o.TextCursor(i)]
                          && o.ThinkingCursor(i) <= |ThinkingAt(last, i)|
                          && ThinkingOf(o.chunks, owner, i) == ThinkingAt(last, i)[..o.ThinkingCursor(i)] {
      assert TextOf(o.chunks, owner, i) == ReadOf(o, last)(i).text;
    }
  }

  // ------------------------------------------------------------------
  // The order within one poll
  // ------------------------------------------------------------------

  function ThinkingNews(o: Output, step: Step, j: nat): seq<Chunk> {
    if |step.thinking| > o.ThinkingCursor(j) then [Chunk([], step.thinking[o.ThinkingCursor(j)..])] else []
  }

  function TextNews(o: Output, step: Step, j: nat): seq<Chunk> {
    if |step.Live()| > o.TextCursor(j) then [Chunk(step.Live()[o.TextCursor(j)..], [])] else []
  }

  /** What the steps from `start` below `end` have beyond the cursors of `o`: step by step, thinking before text. */
  function News(o: Output, view: seq<Step>, start: nat, end: nat): seq<Chunk>
    requires start <= end <= |view|
  {
    if start == end then []
    else News(o, view, start, end - 1) + ThinkingNews(o, view[end - 1], end - 1) + TextNews(o, view[end - 1], end - 1)
  }

  /** `r` is `o` after the steps from `start` below `end`, whose news are in the buffer. */
  ghost predicate Reported(o: Output, view: seq<Step>, start: nat, r: Output, end: nat) {
    && start <= end <= |view|
    && r.chunks == o.chunks + News(o, view, start, end)
    && forall j: nat :: j >= end ==> r.TextCursor(j) == o.TextCursor(j) && r.ThinkingCursor(j) == o.ThinkingCursor(j)
  }

  lemma {:induction false} ThinkingReports(r: Output, step: Step, j: nat)
    ensures var r' := r.AfterThinking(step.thinking, j);
            && r'.chunks == r.chunks + ThinkingNews(r, step, j)
            && (forall k: nat :: r'.TextCursor(k) == r.TextCursor(k))
            && forall k: nat :: k != j ==> r'.ThinkingCursor(k) == r.ThinkingCursor(k)
  {
    assert r.chunks + [] == r.chunks;
  }

  lemma {:induction false} TextReports(r: Output, step: Step, j: nat)
    ensures var r' := r.AfterText(step.Live(), j);
            && r'.chunks == r.chunks + TextNews(r, step, j)
            && forall k: nat :: k != j ==> r'.TextCursor(k) == r.TextCursor(k) && r'.ThinkingCursor(k) == r.ThinkingCursor(k)
  {
    assert r.chunks + [] == r.chunks;
  }

  lemma {:induction false} OneMoreReported(o: Output, view: seq<Step>, start: nat, r: Output, j: nat)
    requires Reported(o, view, start, r, j) && j < |view|
    ensures Reported(o, view, start, r.AfterStep(view[j], j), j + 1)
  {
    var step := view[j];
    ThinkingReports(r, step, j);
    TextReports(r.AfterThinking(step.thinking, j), step, j);
    assert ThinkingNews(r, step, j) == ThinkingNews(o, step, j);
    assert TextNews(r.AfterThinking(step.thinking, j), step, j) == TextNews(o, step, j);
    assert News(o, view, start, j + 1) == News(o, view, start, j) + ThinkingNews(o, step, j) + TextNews(o, step, j);
  }

  lemma {:induction false} NothingReported(o: Output, view: seq<Step>, start: nat)
    requires start <= |view|
    ensures Reported(o, view, start, o, start)
  {
    assert o.chunks + [] == o.chunks;
  }

  ghost function Reports(o: Output, view: seq<Step>, start: nat): (Output, nat) -> bool {
    (r: Output, j: nat) => Reported(o, view, start, r, j)
  }

  lemma {:induction false} ReportsArePreserved(o: Output, view: seq<Step>, start: nat, end: nat, steps: seq<Step>)
    requires start <= end <= |view| && steps == view[start..end]
    ensures Preserves(ConsumeInto, steps, start, Reports(o, view, start))
  {
    var inv := Reports(o, view, start);
    forall r: Output, e: Step, j: nat | At(steps, start, j, e) && inv(r, j) ensures inv(ConsumeInto(r, e, j), j + 1) {
      assert e == view[j];
      OneMoreReported(o, view, start, r, j);
    }
  }

  lemma {:induction false} StepsReport(o: Output, view: seq<Step>, start: nat, end: nat, steps: seq<Step>, inv: (Output, nat) -> bool)
    requires start <= end <= |view| && steps == view[start..end] && inv == Reports(o, view, start)
    ensures inv(o.AfterSteps(steps, start), start + |steps|)
  {
    NothingReported(o, view, start);
    ReportsArePreserved(o, view, start, end, steps);
    FoldInduction(o, ConsumeInto, steps, start, inv);
  }

  lemma {:induction false} StepsEmitNews(o: Output, view: seq<Step>, start: nat, end: nat, steps: seq<Step>)
    requires start <= end <= |view| && steps == view[start..end]
    ensures Reported(o, view, start, o.AfterSteps(steps, start), end)
  {
    StepsReport(o, view, start, end, steps, Reports(o, view, start));
  }

  /** The same up to the callback that ends the poll: a thinking sink can only fail where there is new thinking, and leaves
      the text of its step out. */
  function NewsUntil(o: Output, view: seq<Step>, start: nat, cut: Cut): seq<Chunk>
    requires start <= |view|
  {
    if cut.Completed? || !(start <= cut.k < |view|) then News(o, view, start, |view|)
    else if cut.StopBefore? then News(o, view, start, cut.k)
    else if ThinkingNews(o, view[cut.k], cut.k) == [] then News(o, view, start, |view|)
    else News(o, view, start, cut.k) + ThinkingNews(o, view[cut.k], cut.k)
  }

  /** A poll adds to the buffer, in the order of the steps of its window, what they have beyond the cursors it started with. */
  lemma PollEmitsInOrder(t: Turn, view: seq<Step>, cut: Cut)
    requires t.cur.NextWindow() <= |view|
    ensures StepTurn(t, Poll(view, cut)).out.chunks == t.out.chunks + NewsUntil(t.out, view, t.cur.NextWindow(), cut)
  {
    BatchEmitsInOrder(t.out, view, t.cur.NextWindow(), view[t.cur.NextWindow()..], cut);
  }

  lemma {:induction false} BatchEmitsInOrder(o: Output, view: seq<Step>, start: nat, steps: seq<Step>, cut: Cut)
    requires start <= |view| && steps == view[start..]
    ensures OutputAfterBatch(o, steps, start, cut).chunks == o.chunks + NewsUntil(o, view, start, cut)
  {
    var (stop, half) := Extent(o, steps, start, cut);
    CutReported(o, view, start, steps, cut);
    StretchEmits(o, view, start, steps, stop, half);
  }

  lemma {:induction false} StretchEmits(o: Output, view: seq<Step>, start: nat, steps: seq<Step>, stop: nat, half: bool)
    requires start <= stop <= |view| && steps == view[start..] && (half ==> stop < |view|)
    ensures OutputUpTo(o, steps, start, stop, half).chunks
         == o.chunks + News(o, view, start, stop) + if half then ThinkingNews(o, view[stop], stop) else []
  {
    var r := o.AfterSteps(view[start..stop], start);
    SliceOfRest(view, start, stop);
    StepsEmitNews(o, view, start, stop, view[start..stop]);
    if half {
      ThinkingReports(r, view[stop], stop);
      assert ThinkingNews(r, view[stop], stop) == ThinkingNews(o, view[stop], stop);
    }
  }

  /** Where a batch ends, said by the cursors it started with. */
  lemma {:induction false} CutReported(o: Output, view: seq<Step>, start: nat, steps: seq<Step>, cut: Cut)
    requires start <= |view| && steps == view[start..]
    ensures Extent(o, steps, start, cut) ==
            if cut.Completed? || !(start <= cut.k < |view|) then (|view|, false)
            else if cut.StopBefore? then (cut.k, false)
            else if ThinkingNews(o, view[cut.k], cut.k) == [] then (|view|, false)
            else (cut.k, true)
  {
    if !cut.Completed? && start <= cut.k < |view| {
      SliceOfRest(view, start, cut.k);
      StepsEmitNews(o, view, start, cut.k, view[start..cut.k]);
    }
  }

  // ------------------------------------------------------------------
  // The buffer after the final sweep
  // ------------------------------------------------------------------

  /** `said` continued by whatever `text` has beyond its length. */
  function Topped(said: Text, text: Text): Text {
    if |text| > |said| then said + text[|said|..] else said
  }

  function PolishedFrom(said: Text, step: Step): Text {
    var topped := Topped(said, step.responseText);
    if step.responseText <= step.modifiedText then Topped(topped, step.modifiedText) else topped
  }

  lemma BeginningIsPolished(said: Text, step: Step)
    requires said <= step.responseText
    ensures PolishedFrom(said, step) == Polished(step)
  {
    assert Topped(said, step.responseText) == step.responseText;
  }

  /** Every chunk belongs to one step, and the cursors count the text of each. */
  ghost predicate Counted(o: Output, owner: seq<nat>) {
    && |owner| == |o.chunks| && OfOneKind(o.chunks)
    && forall i: nat :: o.TextCursor(i) == |TextOf(o.chunks, owner, i)|
  }

  lemma {:induction false} TextJoins(o: Output, owner: seq<nat>, text: Text, j: nat) returns (more: seq<nat>)
    requires Counted(o, owner)
    ensures var r := o.AfterText(text, j);
            && Counted(r, more)
            && forall i: nat ::
                 && TextOf(r.chunks, more, i) == (if i == j then Topped(TextOf(o.chunks, owner, i), text) else TextOf(o.chunks, owner, i))
                 && ThinkingOf(r.chunks, more, i) == ThinkingOf(o.chunks, owner, i)
  {
    more := owner;
    if |text| > o.TextCursor(j) {
      var c := Chunk(text[o.TextCursor(j)..], []);
      more := owner + [j];
      assert OfOneKind(o.chunks + [c]) by {
        assert OfOneKind(o.chunks);
      }
      forall i: nat ensures TextOf(o.chunks + [c], more, i) == TextOf(o.chunks, owner, i) + (if i == j then c.text else [])
                            && ThinkingOf(o.chunks + [c], more, i) == ThinkingOf(o.chunks, owner, i) {
        OneMoreChunk(o.chunks, owner, c, j, i);
      }
    }
  }

  lemma {:induction false} FinalStepJoins(o: Output, owner: seq<nat>, step: Step, j: nat) returns (more: seq<nat>)
    requires Counted(o, owner)
    ensures var r := o.AfterFinalStep(step, j);
            && Counted(r, more)
            && forall i: nat ::
                 && TextOf(r.chunks, more, i) == (if i == j then PolishedFrom(TextOf(o.chunks, owner, i), step) else TextOf(o.chunks, owner, i))
                 && ThinkingOf(r.chunks, more, i) == ThinkingOf(o.chunks, owner, i)
  {
    more := TextJoins(o, owner, step.responseText, j);
    if step.responseText <= step.modifiedText {
      more := TextJoins(o.AfterText(step.responseText, j), more, step.modifiedText, j);
    }
  }

  /** `r` is `o` after the sweep has come from `start` up to `end`: the steps in between are polished. */
  ghost predicate SweptBy(o: Output, owner: seq<nat>, final: seq<Step>, start: nat, r: Output, end: nat, more: seq<nat>)
    requires |owner| == |o.chunks|
  {
    && Counted(r, more)
    && forall i: nat ::
         && TextOf(r.chunks, more, i) == (if start <= i < end <= |final| then PolishedFrom(TextOf(o.chunks, owner, i), final[i])
                                          else TextOf(o.chunks, owner, i))
         && ThinkingOf(r.chunks, more, i) == ThinkingOf(o.chunks, owner, i)
  }

  ghost predicate SweptTo(o: Output, owner: seq<nat>, final: seq<Step>, start: nat, r: Output, end: nat)
    requires |owner| == |o.chunks|
  {
    start <= end <= |final| && exists more: seq<nat> :: SweptBy(o, owner, final, start, r, end, more)
  }

  lemma {:induction false} SweptOneMore(o: Output, owner: seq<nat>, final: seq<Step>, start: nat, r: Output, j: nat)
    requires |owner| == |o.chunks| && SweptTo(o, owner, final, start, r, j) && j < |final|
    ensures SweptTo(o, owner, final, start, r.AfterFinalStep(final[j], j), j + 1)
  {
    var more :| SweptBy(o, owner, final, start, r, j, more);
    var most := FinalStepJoins(r, more, final[j], j);
    assert SweptBy(o, owner, final, start, r.AfterFinalStep(final[j], j), j + 1, most);
  }

  ghost function Sweeps(o: Output, owner: seq<nat>, final: seq<Step>, start: nat): (Output, nat) -> bool
    requires |owner| == |o.chunks|
  {
    (r: Output, j: nat) => SweptTo(o, owner, final, start, r, j)
  }

  lemma {:induction false} SweepsArePreserved(o: Output, owner: seq<nat>, final: seq<Step>, start: nat, steps: seq<Step>)
    requires |owner| == |o.chunks| && start <= |final| && steps == final[start..]
    ensures Preserves(PolishInto, steps, start, Sweeps(o, owner, final, start))
  {
    var inv := Sweeps(o, owner, final, start);
    forall r: Output, e: Step, j: nat | At(steps, start, j, e) && inv(r, j) ensures inv(PolishInto(r, e, j), j + 1) {
      assert e == final[j];
      SweptOneMore(o, owner, final, start, r, j);
    }
  }

  lemma {:induction false} FoldSweeps(
      o: Output, owner: seq<nat>, final: seq<Step>, start: nat, f: (Output, Step, nat) -> Output, steps: seq<Step>, r: Output)
    returns (more: seq<nat>)
    requires Counted(o, owner) && start <= |final| && Preserves(f, steps, start, Sweeps(o, owner, final, start))
    requires r == Fold(o, f, steps, start)
    ensures SweptBy(o, owner, final, start, r, start + |steps|, more)
  {
    var inv := Sweeps(o, owner, final, start);
    assert SweptBy(o, owner, final, start, o, start, owner);
    FoldInduction(o, f, steps, start, inv);
    assert inv(r, start + |steps|);
    more :| SweptBy(o, owner, final, start, r, start + |steps|, more);
  }

  lemma {:induction false} SweptPolishes(o: Output, owner: seq<nat>, final: seq<Step>, start: nat, steps: seq<Step>, r: Output)
    returns (more: seq<nat>)
    requires Counted(o, owner) && start <= |final| && steps == final[start..] && r == o.AfterFinalSteps(steps, start)
    ensures SweptBy(o, owner, final, start, r, start + |steps|, more)
  {
    SweepsArePreserved(o, owner, final, start, steps);
    more := FoldSweeps(o, owner, final, start, PolishInto, steps, r);
  }

  lemma {:induction false} ToldIsCounted(o: Output, last: seq<Step>, owner: seq<nat>)
    requires Told(o, last) && Owned(o.chunks, owner, ReadOf(o, last))
    ensures Counted(o, owner)
  {
    forall i: nat ensures o.TextCursor(i) == |TextOf(o.chunks, owner, i)| {
      assert TextOf(o.chunks, owner, i) == ReadOf(o, last)(i).text;
    }
  }

  /** What the sweep from `from` on makes of step i: the polished text if there is a `responseText`; a step before the window
      keeps its text, and every step its thinking. */
  ghost predicate SweptStep(chunks: seq<Chunk>, more: seq<nat>, o: Output, last: seq<Step>, final: seq<Step>, from: nat, i: nat)
    requires |more| == |chunks|
  {
    && (from <= i < |final| && final[i].responseText != [] ==> TextOf(chunks, more, i) == Polished(final[i]))
    && o.TextCursor(i) <= |LiveAt(last, i)| && (i < from ==> TextOf(chunks, more, i) == LiveAt(last, i)[..o.TextCursor(i)])
    && o.ThinkingCursor(i) <= |ThinkingAt(last, i)| && ThinkingOf(chunks, more, i) == ThinkingAt(last, i)[..o.ThinkingCursor(i)]
  }

  lemma {:induction false} SweptStepHolds(o: Output, owner: seq<nat>, last: seq<Step>, final: seq<Step>, from: nat, r: Output, more: seq<nat>, i: nat)
    requires Told(o, last) && Grows(last, final) && from <= |final| && Owned(o.chunks, owner, ReadOf(o, last))
    requires SweptBy(o, owner, final, from, r, |final|, more)
    ensures SweptStep(r.chunks, more, o, last, final, from, i)
  {
    var said := ReadOf(o, last)(i);
    assert TextOf(o.chunks, owner, i) == said.text && ThinkingOf(o.chunks, owner, i) == said.thinking;
    if from <= i < |final| && final[i].responseText != [] {
      assert said.text <= LiveAt(last, i) <= LiveAt(final, i) == final[i].responseText;
      BeginningIsPolished(said.text, final[i]);
    }
  }

  /** After any run and the sweep over a trajectory that grew once more, the buffer is still an interleaving of the steps,
      and what it holds for the swept ones is their polished text. */
  lemma {:induction false} SweptBufferIsPolished(id: string, start: nat, view: seq<Step>, run: seq<Event>, final: seq<Step>)
    requires start <= |view| && GrowingRun(view, run) && Grows(LastView(view, run), final)
    ensures Runnable(FreshTurn(id, start), run)
    ensures var t := EndTurn(FreshTurn(id, start), run);
            var from := t.cur.lastWindowStart;
            0 <= from <= |final| ==> SweptInto(t.out, LastView(view, run), final, from, AfterSweep(t, final[from..]).out.chunks)
  {
    var t := FreshTurn(id, start);
    NothingTold(id, start, view);
    RunKeepsTold(t, view, run);
    var end := EndTurn(t, run);
    if 0 <= end.cur.lastWindowStart <= |final| {
      var from: nat := end.cur.lastWindowStart;
      SweepOfTold(end.out, LastView(view, run), final, from, final[from..], AfterSweep(end, final[from..]).out);
    }
  }

  ghost predicate SweptInto(o: Output, last: seq<Step>, final: seq<Step>, from: nat, chunks: seq<Chunk>) {
    exists more: seq<nat> :: |more| == |chunks| && OfOneKind(chunks) && forall i: nat :: SweptStep(chunks, more, o, last, final, from, i)
  }

  lemma {:induction false} SweptFromTold(o: Output, owner: seq<nat>, last: seq<Step>, final: seq<Step>, from: nat, r: Output, end: nat,
                                         more: seq<nat>)
    requires Told(o, last) && Grows(last, final) && from <= |final| == end && Owned(o.chunks, owner, ReadOf(o, last))
    requires SweptBy(o, owner, final, from, r, end, more)
    ensures SweptInto(o, last, final, from, r.chunks)
  {
    forall i: nat ensures SweptStep(r.chunks, more, o, last, final, from, i) {
      SweptStepHolds(o, owner, last, final, from, r, more, i);
    }
  }

  lemma {:induction false} SweepOfTold(o: Output, last: seq<Step>, final: seq<Step>, from: nat, steps: seq<Step>, r: Output)
    requires Told(o, last) && Grows(last, final) && from <= |final| && steps == final[from..] && r == o.AfterFinalSteps(steps, from)
    ensures SweptInto(o, last, final, from, r.chunks)
  {
    var owner := OwnerOf(o, last);
    var more := SweptPolishes(o, owner, final, from, steps, r);
    SweptFromTold(o, owner, last, final, from, r, from + |steps|, more);
  }

  lemma {:induction false} OwnerOf(o: Output, last: seq<Step>) returns (owner: seq<nat>)
    requires Told(o, last)
    ensures Owned(o.chunks, owner, ReadOf(o, last)) && Counted(o, owner)
  {
    owner :| Owned(o.chunks, owner, ReadOf(o, last));
    ToldIsCounted(o, last, owner);
  }

  // ------------------------------------------------------------------
  // What a snapshot says
  // ------------------------------------------------------------------

  lemma {:induction false} RunKeepsMeta(t: Turn, run: seq<Event>)
    requires t.cur.Wf() && Runnable(t, run)
    ensures EndTurn(t, run).meta == t.meta
    decreases |run|
  {
    if run != [] {
      match run[0] {
        case FetchFailed =>
        case Poll(view, cut) => PollKeepsCursor(t, view[t.cur.NextWindow()..], cut);
        case Resume => ResumeIsRestore(t);
      }
      RunKeepsMeta(StepTurn(t, run[0]), run[1..]);
    }
  }

  /** How far the pair array of a snapshot says that step i was emitted. */
  function CursorIn(pairs: Option<seq<(int, Option<nat>)>>, i: nat): nat {
    if pairs.None? || MapOfPairs(pairs.value).None? || i !in MapOfPairs(pairs.value).value then 0 else MapOfPairs(pairs.value).value[i]
  }

  /** The buffer of a snapshot interleaves the steps as far as its own cursors say. */
  ghost predicate SaysWhatItHolds(s: Snapshot, last: seq<Step>) {
    && s.chunks.Some? && OfOneKind(s.chunks.value)
    && exists owner: seq<nat> :: |owner| == |s.chunks.value| && forall i: nat :: StepAsSaid(s, owner, last, i)
  }

  ghost predicate StepAsSaid(s: Snapshot, owner: seq<nat>, last: seq<Step>, i: nat)
    requires s.chunks.Some? && |owner| == |s.chunks.value|
  {
    var text, thinking := CursorIn(s.yieldedByStep, i), CursorIn(s.thinkingByStep, i);
    && text <= |LiveAt(last, i)| && TextOf(s.chunks.value, owner, i) == LiveAt(last, i)[..text]
    && thinking <= |ThinkingAt(last, i)| && ThinkingOf(s.chunks.value, owner, i) == ThinkingAt(last, i)[..thinking]
  }

  lemma {:induction false} SnapshotSays(t: Turn, last: seq<Step>, s: Snapshot)
    requires Told(t.out, last) && SnapshotOf(t) == Ok(s)
    ensures SaysWhatItHolds(s, last)
  {
    PairsRoundTrip(t.out.yielded);
    PairsRoundTrip(t.out.thought);
    var owner :| Owned(t.out.chunks, owner, ReadOf(t.out, last));
    forall i: nat ensures StepAsSaid(s, owner, last, i) {
      assert TextOf(t.out.chunks, owner, i) == ReadOf(t.out, last)(i).text;
    }
  }

  /** Every snapshot of a run is self-contained: where the turn was in the trajectory, the buffer with a cursor for each of its
      steps, and the totals of the buffer, each in its own field. */
  lemma {:induction false} SnapshotOfRun(id: string, start: nat, view: seq<Step>, run: seq<Event>, s: Snapshot)
    requires start <= |view| && GrowingRun(view, run) && Runnable(FreshTurn(id, start), run)
    requires SnapshotOf(EndTurn(FreshTurn(id, start), run)) == Ok(s)
    ensures s.version == Some(2) && s.cascadeId == id && s.overlap == Some(8) && s.pollFloor == Some(start)
    ensures s.stepOffset == s.consumedThrough == Some(Highest(start, run))
    ensures s.windowStart == Some(Behind(start, Highest(start, run)))
    ensures s.lastWindowStart == Some(LastRead(start, start, start, run))
    ensures SaysWhatItHolds(s, LastView(view, run))
    ensures s.totalYielded == Some(TextLength(s.chunks.value)) && s.totalThinking == Some(ThinkingLength(s.chunks.value))
    ensures s.sawText <==> TextLength(s.chunks.value) > 0
    ensures s.generatorOffset == Some(0) && s.sawActive == Some(false) && s.usageByStep == Some([])
  {
    var t := FreshTurn(id, start);
    NothingTold(id, start, view);
    RunKeepsTold(t, view, run);
    SnapshotSays(EndTurn(t, run), LastView(view, run), s);
    WindowsOfSeen(t, start, start, run);
    RunKeepsBalanced(t, run, [], 0);
    RunKeepsMeta(t, run);
  }
}
