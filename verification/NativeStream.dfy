/** The streaming guard that withholds provider-native <function_calls> blocks from the text of a
    stream and turns them into tool calls. The parser of one closed block is a parameter. */
module NativeStream {
  import opened Prelude

  const OPEN: Text := Word("<function_calls")
  const CLOSE: Text := Word("</function_calls>")
  const BODY_MAX: nat := 65536

  /** ASCII lower case: the only folding that can make a unit match a tag character. */
  function Lower(c: Unit): Unit {
    if 'A' as int <= c <= 'Z' as int then c + 32 else c
  }

  predicate IsWord(c: Unit) {
    'a' as int <= c <= 'z' as int || 'A' as int <= c <= 'Z' as int || '0' as int <= c <= '9' as int || c == '_' as int
  }

  predicate Matches(s: Text, lit: Text) {
    |s| == |lit| && forall k :: 0 <= k < |lit| ==> Lower(s[k]) == lit[k]
  }

  /** An opening tag name starts at i: followed by a word boundary, which the end of the text is too. */
  predicate OpensAt(s: Text, i: nat) {
    && i + |OPEN| <= |s|
    && Matches(s[i..i + |OPEN|], OPEN)
    && (i + |OPEN| == |s| || !IsWord(s[i + |OPEN|]))
  }

  predicate ClosesAt(s: Text, i: nat) {
    i + |CLOSE| <= |s| && Matches(s[i..i + |CLOSE|], CLOSE)
  }

  function FindOpenFrom(s: Text, i: nat): (r: Option<nat>)
    requires i <= |s|
    ensures r.Some? ==> i <= r.value && OpensAt(s, r.value)
    ensures forall j :: i <= j < (if r.Some? then r.value else |s|) ==> !OpensAt(s, j)
    decreases |s| - i
  {
    if i == |s| then None else if OpensAt(s, i) then Some(i) else FindOpenFrom(s, i + 1)
  }

  /** The first opening tag name. */
  function FindOpen(s: Text): Option<nat> {
    FindOpenFrom(s, 0)
  }

  function FindCloseFrom(s: Text, i: nat): (r: Option<nat>)
    requires i <= |s|
    ensures r.Some? ==> i <= r.value && ClosesAt(s, r.value)
    ensures forall j :: i <= j < (if r.Some? then r.value else |s|) ==> !ClosesAt(s, j)
    decreases |s| - i
  {
    if i == |s| then None else if ClosesAt(s, i) then Some(i) else FindCloseFrom(s, i + 1)
  }

  function FindClose(s: Text): Option<nat> {
    FindCloseFrom(s, 0)
  }

  /** The text ends in the first n characters of the opening tag name. */
  predicate EndsInPrefix(s: Text, n: nat) {
    n <= |s| && n < |OPEN| && Matches(s[|s| - n..], OPEN[..n])
  }

  function HoldUpTo(s: Text, n: nat): (h: nat)
    requires n < |OPEN| && n <= |s|
    ensures h <= n && EndsInPrefix(s, h)
    ensures forall k :: h < k <= n ==> !EndsInPrefix(s, k)
  {
    if n == 0 || EndsInPrefix(s, n) then n else HoldUpTo(s, n - 1)
  }

  /** The length of the longest suffix that may still become an opening tag. */
  function HoldLength(s: Text): (h: nat)
    ensures h <= |s| && EndsInPrefix(s, h)
    ensures forall k :: h < k ==> !EndsInPrefix(s, k)
  {
    HoldUpTo(s, Min(|OPEN| - 1, |s|))
  }

  /** Text and tool calls that came out, in order. */
  datatype Out<C> = Out(text: Text, calls: seq<C>)
  {
    function Then(o: Out<C>): Out<C> {
      Out(text + o.text, calls + o.calls)
    }
  }

  function Joined<C>(text: Text, block: Out<C>, rest: Out<C>): Out<C> {
    Out(text + block.text + rest.text, block.calls + rest.calls)
  }

  /** What surrounds the first block: the text before it, the block if it is closed, and the rest. */
  datatype Split = NoBlock | Dangling(open: nat) | Closed(open: nat, end: nat)

  function FirstBlock(s: Text): (r: Split)
    ensures r.Dangling? ==> r.open + |OPEN| <= |s|
    ensures r.Closed? ==> r.open + |OPEN| < r.end <= |s| && r.open + |CLOSE| <= r.end
  {
    var open := FindOpen(s);
    if open.None? then NoBlock else BlockOf(open.value, FindClose(s[open.value..]))
  }

  function BlockOf(open: nat, close: Option<nat>): Split {
    if close.None? then Dangling(open) else Closed(open, open + close.value + |CLOSE|)
  }

  // ------------------------------------------------------------------
  // The reference: the whole text at once
  // ------------------------------------------------------------------

  /** Text outside blocks is kept, closed blocks are parsed, an unclosed block is dropped. */
  function Whole<C>(parse: Text -> Out<C>, s: Text): Out<C> {
    match FirstBlock(s)
    case NoBlock => Out(s, [])
    case Dangling(open) => Out(s[..open], [])
    case Closed(open, end) => Joined(s[..open], parse(s[open..end]), Whole(parse, s[end..]))
  }

  /** No block, closed or not, is longer than the cap plus the unit that closes it. */
  predicate WithinCap(s: Text) {
    match FirstBlock(s)
    case NoBlock => true
    case Dangling(open) => |s| - open <= BODY_MAX + 1
    case Closed(open, end) => end - open <= BODY_MAX + 1 && WithinCap(s[end..])
  }

  // ------------------------------------------------------------------
  // The streaming parser, as functions of its buffer
  // ------------------------------------------------------------------

  function Drain<C>(parse: Text -> Out<C>, buffer: Text, flush: bool): (Out<C>, Text) {
    match FirstBlock(buffer)
    case NoBlock =>
      var keep := if flush then 0 else HoldLength(buffer);
      (Out(buffer[..|buffer| - keep], []), buffer[|buffer| - keep..])
    case Dangling(open) =>
      (Out(buffer[..open], []), if flush || |buffer| - open > BODY_MAX then [] else buffer[open..])
    case Closed(open, end) =>
      var (out, rest) := Drain(parse, buffer[end..], flush);
      (Joined(buffer[..open], parse(buffer[open..end]), out), rest)
  }

  /** Feed the pieces one by one to a parser that holds `buffer`, then flush. */
  function Stream<C>(parse: Text -> Out<C>, buffer: Text, pieces: seq<Text>): Out<C>
    decreases |pieces|
  {
    if pieces == [] then Drain(parse, buffer, true).0
    else
      var (out, rest) := if pieces[0] == [] then (Out([], []), buffer) else Drain(parse, buffer + pieces[0], false);
      out.Then(Stream(parse, rest, pieces[1..]))
  }

  // ------------------------------------------------------------------
  // What more text can and cannot change
  // ------------------------------------------------------------------

  lemma OpenIsLocal(c: Text, e: Text, i: nat)
    requires i + |OPEN| < |c|
    ensures OpensAt(c + e, i) == OpensAt(c, i)
  {
    assert (c + e)[i..i + |OPEN|] == c[i..i + |OPEN|];
  }

  lemma CloseIsLocal(c: Text, e: Text, i: nat)
    requires i + |CLOSE| <= |c|
    ensures ClosesAt(c + e, i) == ClosesAt(c, i)
  {
    assert (c + e)[i..i + |CLOSE|] == c[i..i + |CLOSE|];
  }

  lemma OpenShifts(x: Text, z: Text, i: nat, j: nat)
    requires i == |x| + j
    ensures OpensAt(x + z, i) == OpensAt(z, j)
  {
    if j + |OPEN| <= |z| {
      assert (x + z)[i..i + |OPEN|] == z[j..j + |OPEN|];
    }
  }

  /** No opening tag starts in `x` when `x + z` is read. */
  ghost predicate NoOpenIn(x: Text, z: Text) {
    forall i :: 0 <= i < |x| ==> !OpensAt(x + z, i)
  }

  function Shifted(b: Split, n: nat): Split {
    match b
    case NoBlock => NoBlock
    case Dangling(open) => Dangling(open + n)
    case Closed(open, end) => Closed(open + n, end + n)
  }

  lemma FoundBehind(x: Text, z: Text, j: nat)
    requires FindOpen(z) == Some(j)
    ensures FindOpen(x + z).Some? && FindOpen(x + z).value <= |x| + j
  {
    OpenShifts(x, z, |x| + j, j);
    assert OpensAt(x + z, |x| + j);
  }

  lemma FoundWithin(x: Text, z: Text, i: nat)
    requires FindOpen(x + z) == Some(i) && i >= |x|
    ensures FindOpen(z).Some? && FindOpen(z).value <= i - |x|
  {
    OpenShifts(x, z, i, i - |x|);
    assert OpensAt(z, i - |x|);
  }

  lemma FindOpenSkips(x: Text, z: Text)
    requires NoOpenIn(x, z)
    ensures FindOpen(x + z) == if FindOpen(z).Some? then Some(FindOpen(z).value + |x|) else None
  {
    var r, q := FindOpen(x + z), FindOpen(z);
    if q.Some? {
      FoundBehind(x, z, q.value);
    }
    if r.Some? {
      FoundWithin(x, z, r.value);
    }
  }

  lemma FirstCloseSkips(x: Text, z: Text, i: nat, j: nat)
    requires i == j + |x| && j <= |z|
    ensures FindClose((x + z)[i..]) == FindClose(z[j..])
  {
    assert (x + z)[i..] == z[j..];
  }

  lemma FirstBlockIs(s: Text, open: nat, close: Option<nat>)
    requires FindOpen(s) == Some(open) && close == FindClose(s[open..])
    ensures FirstBlock(s) == BlockOf(open, close)
  {
  }

  lemma FirstBlockSkips(x: Text, z: Text)
    requires NoOpenIn(x, z)
    ensures FirstBlock(x + z) == Shifted(FirstBlock(z), |x|)
  {
    FindOpenSkips(x, z);
    if FindOpen(z).Some? {
      BlockMoves(x, z, FindOpen(z).value + |x|, FindOpen(z).value);
    }
  }

  lemma BlockMoves(x: Text, z: Text, i: nat, j: nat)
    requires i == j + |x| && FindOpen(z) == Some(j) && FindOpen(x + z) == Some(i)
    ensures FirstBlock(x + z) == Shifted(FirstBlock(z), |x|)
  {
    FirstCloseSkips(x, z, i, j);
    FirstBlockIs(z, j, FindClose(z[j..]));
    FirstBlockIs(x + z, i, FindClose(z[j..]));
  }

  /** What a text gives when its first block is known. */
  lemma {:induction false} WholeUnfolds<C>(parse: Text -> Out<C>, s: Text, b: Split)
    requires b == FirstBlock(s)
    ensures b.NoBlock? ==> Whole(parse, s) == Out(s, []) && WithinCap(s)
    ensures b.Dangling? ==> Whole(parse, s) == Out(s[..b.open], []) && WithinCap(s) == (|s| - b.open <= BODY_MAX + 1)
    ensures b.Closed? ==>
              && Whole(parse, s) == Joined(s[..b.open], parse(s[b.open..b.end]), Whole(parse, s[b.end..]))
              && WithinCap(s) == (b.end - b.open <= BODY_MAX + 1 && WithinCap(s[b.end..]))
  {
  }

  lemma CutShifted(x: Text, z: Text, from: nat, to: nat, from': nat, to': nat)
    requires from <= to <= |z| && from' == from + |x| && to' == to + |x|
    ensures (x + z)[..from'] == x + z[..from]
    ensures (x + z)[from'..to'] == z[from..to]
    ensures (x + z)[to'..] == z[to..]
  {
  }

  /** Text before the first possible tag passes straight through. */
  lemma {:induction false} WholeSkips<C>(parse: Text -> Out<C>, x: Text, z: Text)
    requires NoOpenIn(x, z)
    ensures Whole(parse, x + z) == Out(x, []).Then(Whole(parse, z))
    ensures WithinCap(x + z) == WithinCap(z)
  {
    FirstBlockSkips(x, z);
    var b := FirstBlock(z);
    var b' := Shifted(b, |x|);
    WholeUnfolds(parse, z, b);
    WholeUnfolds(parse, x + z, b');
    if b.Dangling? {
      CutShifted(x, z, b.open, |z|, b'.open, |x + z|);
    } else if b.Closed? {
      CutShifted(x, z, b.open, b.end, b'.open, b'.end);
      JoinedSkips(x, z[..b.open], parse(z[b.open..b.end]), Whole(parse, z[b.end..]));
    }
  }

  lemma JoinedSkips<C>(x: Text, y: Text, block: Out<C>, rest: Out<C>)
    ensures Joined(x + y, block, rest) == Out(x, []).Then(Joined(y, block, rest))
  {
  }

  /** A tag that has been seen to open, or not to, is never reconsidered once a character follows it. */
  lemma FirstOpenStays(c: Text, e: Text, o: nat)
    requires o + |OPEN| < |c|
    ensures FindOpen(c) == Some(o) <==> FindOpen(c + e) == Some(o)
  {
    forall i | 0 <= i <= o ensures OpensAt(c + e, i) == OpensAt(c, i) {
      OpenIsLocal(c, e, i);
    }
  }

  lemma FirstCloseStays(c: Text, e: Text, k: nat)
    requires k + |CLOSE| <= |c|
    ensures FindClose(c) == Some(k) <==> FindClose(c + e) == Some(k)
  {
    forall i | 0 <= i <= k ensures ClosesAt(c + e, i) == ClosesAt(c, i) {
      CloseIsLocal(c, e, i);
    }
  }

  lemma ClosedIff(s: Text, open: nat, end: nat)
    requires end <= |s| && open + |CLOSE| <= end
    ensures FirstBlock(s) == Closed(open, end) <==> FindOpen(s) == Some(open) && FindClose(s[open..]) == Some(end - open - |CLOSE|)
  {
  }

  lemma FirstCloseBehind(c: Text, e: Text, open: nat, k: nat)
    requires open + k + |CLOSE| <= |c|
    ensures FindClose(c[open..]) == Some(k) <==> FindClose((c + e)[open..]) == Some(k)
  {
    assert (c + e)[open..] == c[open..] + e;
    FirstCloseStays(c[open..], e, k);
  }

  lemma ClosedBlockStays(c: Text, e: Text, open: nat, end: nat)
    requires end <= |c| && open + |CLOSE| <= end
    ensures FirstBlock(c) == Closed(open, end) <==> FirstBlock(c + e) == Closed(open, end)
  {
    ClosedIff(c, open, end);
    ClosedIff(c + e, open, end);
    FirstOpenStays(c, e, open);
    FirstCloseBehind(c, e, open, end - open - |CLOSE|);
  }

  /** A block that is open at the end of what has arrived stays the first one, and can only be closed
      by characters still to come. */
  lemma DanglingBlockStays(c: Text, e: Text, open: nat)
    requires FirstBlock(c) == Dangling(open) && open + |OPEN| < |c|
    ensures !FirstBlock(c + e).NoBlock? && FirstBlock(c + e).open == open
    ensures FirstBlock(c + e).Closed? ==> FirstBlock(c + e).end > |c|
  {
    FirstOpenStays(c, e, open);
    var b := FirstBlock(c + e);
    if b.Closed? && b.end <= |c| {
      ClosedBlockStays(c, e, open, b.end);
    }
  }

  /** A tag cannot start in text without one unless its first characters are held back. */
  lemma NoTagAcross(c: Text, e: Text, i: nat, m: nat)
    requires FirstBlock(c).NoBlock? && i < |c| && m == |c| - i && OpensAt(c + e, i)
    ensures EndsInPrefix(c, m)
  {
    var tag := (c + e)[i..i + |OPEN|];
    if m > |OPEN| {
      OpenIsLocal(c, e, i);
    } else if m == |OPEN| {
      assert tag == c[i..];
      assert OpensAt(c, i);
    } else {
      assert c[i..] == tag[..m];
    }
  }

  /** The held suffix is long enough: no tag can start before it, whatever arrives. */
  lemma HoldIsEnough(c: Text, e: Text, n: nat)
    requires FirstBlock(c).NoBlock? && n == |c| - HoldLength(c)
    ensures c[..n] + (c[n..] + e) == c + e && NoOpenIn(c[..n], c[n..] + e)
  {
    assert c[..n] + (c[n..] + e) == c + e;
    forall i | 0 <= i < n ensures !OpensAt(c + e, i) {
      if OpensAt(c + e, i) {
        NoTagAcross(c, e, i, |c| - i);
      }
    }
  }

  // ------------------------------------------------------------------
  // Cutting a stream does not matter
  // ------------------------------------------------------------------

  lemma {:induction false} DrainUnfolds<C>(parse: Text -> Out<C>, s: Text, flush: bool, b: Split)
    requires b == FirstBlock(s)
    ensures b.NoBlock? ==>
              var n := |s| - (if flush then 0 else HoldLength(s));
              Drain(parse, s, flush) == (Out(s[..n], []), s[n..])
    ensures b.Dangling? ==>
              Drain(parse, s, flush) == (Out(s[..b.open], []), if flush || |s| - b.open > BODY_MAX then [] else s[b.open..])
    ensures b.Closed? ==>
              var (out, rest) := Drain(parse, s[b.end..], flush);
              Drain(parse, s, flush) == (Joined(s[..b.open], parse(s[b.open..b.end]), out), rest)
  {
  }

  /** Flushing gives what is left of the whole text. */
  lemma {:induction false} FlushIsWhole<C>(parse: Text -> Out<C>, s: Text)
    ensures Drain(parse, s, true) == (Whole(parse, s), [])
    decreases |s|
  {
    var b := FirstBlock(s);
    DrainUnfolds(parse, s, true, b);
    WholeUnfolds(parse, s, b);
    if b.Closed? {
      FlushIsWhole(parse, s[b.end..]);
    } else if b.NoBlock? {
      assert s[..|s|] == s && s[|s|..] == [];
    }
  }

  /** One drain in the middle of a text: what it lets out, followed by the whole of what it keeps
      together with what is still to come, is the whole text. */
  lemma {:induction false} DrainKeepsWhole<C>(parse: Text -> Out<C>, c: Text, e: Text)
    requires WithinCap(c + e)
    ensures var (out, rest) := Drain(parse, c, false);
            Whole(parse, c + e) == out.Then(Whole(parse, rest + e)) && WithinCap(rest + e)
    decreases |c|
  {
    var b := FirstBlock(c);
    DrainUnfolds(parse, c, false, b);
    match b
    case NoBlock =>
      var n := |c| - HoldLength(c);
      HoldIsEnough(c, e, n);
      WholeSkips(parse, c[..n], c[n..] + e);
    case Dangling(open) =>
      DanglingDrainKeepsWhole(parse, c, e, open);
    case Closed(open, end) =>
      ClosedBlockStays(c, e, open, end);
      WholeUnfolds(parse, c + e, b);
      CutExtended(c, e, open, end);
      DrainKeepsWhole(parse, c[end..], e);
      var (out, rest) := Drain(parse, c[end..], false);
      JoinedThen(c[..open], parse(c[open..end]), out, Whole(parse, rest + e));
  }

  lemma CutExtended(c: Text, e: Text, from: nat, to: nat)
    requires from <= to <= |c|
    ensures (c + e)[..from] == c[..from]
    ensures (c + e)[from..to] == c[from..to]
    ensures (c + e)[to..] == c[to..] + e
  {
  }

  lemma JoinedThen<C>(text: Text, block: Out<C>, out: Out<C>, rest: Out<C>)
    ensures Joined(text, block, out.Then(rest)) == Joined(text, block, out).Then(rest)
  {
  }

  lemma NoOpenBefore(c: Text, e: Text, open: nat)
    requires FirstBlock(c) == Dangling(open)
    ensures c[..open] + (c[open..] + e) == c + e && NoOpenIn(c[..open], c[open..] + e)
  {
    assert c[..open] + (c[open..] + e) == c + e;
    forall i | 0 <= i < open ensures !OpensAt(c + e, i) {
      OpenIsLocal(c, e, i);
    }
  }

  /** An unclosed block is kept whole, or dropped when it can no longer be closed within the cap. */
  lemma DanglingDrainKeepsWhole<C>(parse: Text -> Out<C>, c: Text, e: Text, open: nat)
    requires FirstBlock(c) == Dangling(open) && WithinCap(c + e)
    ensures var rest := if |c| - open > BODY_MAX then [] else c[open..];
            Whole(parse, c + e) == Out(c[..open], []).Then(Whole(parse, rest + e)) && WithinCap(rest + e)
  {
    if |c| - open > BODY_MAX {
      DanglingBlockStays(c, e, open);
      WholeUnfolds(parse, c + e, FirstBlock(c + e));
      CutExtended(c, e, open, |c|);
      assert e == [];
      WholeUnfolds(parse, [], NoBlock);
      assert [] + e == [];
    } else {
      NoOpenBefore(c, e, open);
      WholeSkips(parse, c[..open], c[open..] + e);
    }
  }

  /** Feeding pieces to a parser that holds `buffer` gives the whole of buffer and pieces. */
  lemma {:induction false} StreamFollowsWhole<C>(parse: Text -> Out<C>, buffer: Text, pieces: seq<Text>)
    requires WithinCap(buffer + Flatten(pieces))
    ensures Stream(parse, buffer, pieces) == Whole(parse, buffer + Flatten(pieces))
    decreases |pieces|
  {
    if pieces == [] {
      assert buffer + Flatten(pieces) == buffer;
      FlushIsWhole(parse, buffer);
    } else {
      var later := Flatten(pieces[1..]);
      assert buffer + Flatten(pieces) == (buffer + pieces[0]) + later;
      if pieces[0] == [] {
        assert buffer + pieces[0] == buffer;
        StreamFollowsWhole(parse, buffer, pieces[1..]);
      } else {
        DrainKeepsWhole(parse, buffer + pieces[0], later);
        StreamFollowsWhole(parse, Drain(parse, buffer + pieces[0], false).1, pieces[1..]);
      }
    }
  }

  /** A text fed in one piece gives the whole of it, whatever the size of its blocks. */
  lemma {:induction false} DrainThenFlush<C>(parse: Text -> Out<C>, s: Text)
    ensures var (out, rest) := Drain(parse, s, false);
            out.Then(Drain(parse, rest, true).0) == Whole(parse, s)
    decreases |s|
  {
    var b := FirstBlock(s);
    DrainUnfolds(parse, s, false, b);
    WholeUnfolds(parse, s, b);
    match b
    case NoBlock =>
      var n := |s| - HoldLength(s);
      HoldIsEnough(s, [], n);
      assert s[n..] + [] == s[n..] && s + [] == s;
      WholeSkips(parse, s[..n], s[n..]);
      FlushIsWhole(parse, s[n..]);
    case Dangling(open) =>
      FlushIsWhole(parse, s[open..]);
      FlushIsWhole(parse, []);
      WholeUnfolds(parse, [], NoBlock);
      if |s| - open <= BODY_MAX {
        SuffixDangles(s, open);
        WholeUnfolds(parse, s[open..], Dangling(0));
      }
    case Closed(open, end) =>
      DrainThenFlush(parse, s[end..]);
      var (out, rest) := Drain(parse, s[end..], false);
      JoinedThen(s[..open], parse(s[open..end]), out, Drain(parse, rest, true).0);
  }

  lemma SuffixDangles(s: Text, open: nat)
    requires FirstBlock(s) == Dangling(open)
    ensures FirstBlock(s[open..]) == Dangling(0)
  {
    var x, z := s[..open], s[open..];
    assert x + z == s;
    FirstBlockSkips(x, z);
  }

  /** The streamed output of any cut of a text within the cap is its reference output; in particular
      no two cuts differ. */
  lemma {:induction false} StreamCutInvariance<C>(parse: Text -> Out<C>, pieces: seq<Text>)
    requires WithinCap(Flatten(pieces))
    ensures Stream(parse, [], pieces) == Whole(parse, Flatten(pieces))
  {
    assert [] + Flatten(pieces) == Flatten(pieces);
    StreamFollowsWhole(parse, [], pieces);
  }

  lemma {:induction false} OneFeedIsWhole<C>(parse: Text -> Out<C>, s: Text)
    ensures Stream(parse, [], [s]) == Whole(parse, s)
  {
    assert [] + s == s;
    if s == [] {
      FlushIsWhole(parse, []);
    } else {
      DrainThenFlush(parse, s);
      var (out, rest) := Drain(parse, s, false);
      assert Stream(parse, rest, []) == Drain(parse, rest, true).0;
    }
  }

  // ------------------------------------------------------------------
  // ... and beyond the cap it does
  // ------------------------------------------------------------------

  /** Block parsers give no text: a block starts at its opening tag and ends at its closing tag. */
  ghost predicate Textless<C>(parse: Text -> Out<C>) {
    forall t: Text :: parse(t).text == []
  }

  lemma {:induction false} TwoPieces<C>(parse: Text -> Out<C>, a: Text, z: Text, out: Out<C>, rest: Text)
    requires a != [] && Drain(parse, a, false) == (out, rest)
    ensures Stream(parse, [], [a, z]) == out.Then(Stream(parse, rest, [z]))
  {
    assert [] + a == a;
    assert [a, z][1..] == [z];
  }

  /** `a` ends inside the first block of `a + z`, past the cap. */
  ghost predicate CutTooLate(a: Text, z: Text, b: Split) {
    && b == FirstBlock(a + z)
    && !b.NoBlock?
    && |a| - b.open > BODY_MAX
    && (b.Closed? ==> |a| < b.end)
  }

  lemma {:induction false} TooLateIsDropped<C>(parse: Text -> Out<C>, a: Text, z: Text, b: Split)
    requires CutTooLate(a, z, b)
    ensures Drain(parse, a, false) == (Out((a + z)[..b.open], []), [])
  {
    FirstOpenStays(a, z, b.open);
    var b' := FirstBlock(a);
    if b'.Closed? {
      ClosedBlockStays(a, z, b'.open, b'.end);
    }
    DrainUnfolds(parse, a, false, b');
    CutExtended(a, z, b.open, |a|);
  }

  /** How much text comes from behind the first block. */
  function TextBehind<C>(parse: Text -> Out<C>, s: Text, b: Split): nat
    requires b.Closed? ==> b.end <= |s|
  {
    if b.Closed? then |Whole(parse, s[b.end..]).text| else 0
  }

  lemma {:induction false} WholeLength<C>(parse: Text -> Out<C>, s: Text, b: Split)
    requires Textless(parse) && b == FirstBlock(s) && !b.NoBlock?
    ensures |Whole(parse, s).text| == b.open + TextBehind(parse, s, b)
  {
    WholeUnfolds(parse, s, b);
  }

  /** The last character of a block, fed without the block, is text. */
  lemma LastCharacterIsText<C>(parse: Text -> Out<C>, s: Text, n: nat, b: Split)
    requires b == FirstBlock(s) && !b.NoBlock? && n + 1 == if b.Closed? then b.end else |s|
    ensures |Whole(parse, s[n..]).text| == 1 + TextBehind(parse, s, b)
  {
    if b.Dangling? {
      SingleCharacter(parse, s[n..]);
    } else {
      LastOfClose(s, b.open, b.end);
      HeadAndTail(s, n, b.end);
      BracketIsText(parse, [s[n]], s[b.end..]);
    }
  }

  lemma {:induction false} BracketIsText<C>(parse: Text -> Out<C>, x: Text, y: Text)
    requires |x| == 1 && x[0] == '>' as int
    ensures |Whole(parse, x + y).text| == 1 + |Whole(parse, y).text|
  {
    NoTagInBracket(x, y);
    WholeSkips(parse, x, y);
  }

  lemma HeadAndTail(s: Text, n: nat, m: nat)
    requires m == n + 1 <= |s|
    ensures s[n..] == [s[n]] + s[m..]
  {
  }

  lemma NoTagInBracket(x: Text, y: Text)
    requires |x| == 1 && x[0] == '>' as int
    ensures NoOpenIn(x, y)
  {
    assert OPEN[0] == '<' as int;
    if |OPEN| <= |x + y| {
      assert (x + y)[0..|OPEN|][0] == x[0];
    }
  }

  /** Cut one character before an oversized block ends: the block is dropped too early, and that
      character comes out as text. */
  lemma {:induction false} OversizedBlockShows<C>(parse: Text -> Out<C>, s: Text, a: Text, z: Text, b: Split)
    requires Textless(parse) && s == a + z && CutTooLate(a, z, b)
    requires |a| + 1 == if b.Closed? then b.end else |s|
    ensures |Stream(parse, [], [a, z]).text| == |Whole(parse, s).text| + 1
  {
    WholeLength(parse, s, b);
    TooLateIsDropped(parse, a, z, b);
    TwoPieces(parse, a, z, Out(s[..b.open], []), []);
    OneFeedIsWhole(parse, z);
    assert z == s[|a|..];
    LastCharacterIsText(parse, s, |a|, b);
  }

  lemma {:induction false} SingleCharacter<C>(parse: Text -> Out<C>, z: Text)
    requires |z| == 1
    ensures Whole(parse, z) == Out(z, [])
  {
    assert FirstBlock(z) == NoBlock;
  }

  lemma LastOfClose(s: Text, open: nat, end: nat)
    requires FirstBlock(s) == Closed(open, end)
    ensures s[end - 1] == '>' as int
  {
    var tail := s[open..];
    var k := FindClose(tail).value;
    assert Lower(tail[k..k + |CLOSE|][|CLOSE| - 1]) == '>' as int;
  }

  /** A cut behind the first block is a cut of what follows it. */
  lemma CutBehindBlock<C>(parse: Text -> Out<C>, a: Text, z: Text, a': Text, b: Split)
    requires b.Closed? && b == FirstBlock(a + z) && b.end <= |a| && a' == a[b.end..] && a' != []
    ensures Stream(parse, [], [a, z]) == Joined(a[..b.open], parse(a[b.open..b.end]), Stream(parse, [], [a', z]))
  {
    ClosedBlockStays(a, z, b.open, b.end);
    DrainUnfolds(parse, a, false, b);
    var text, block := a[..b.open], parse(a[b.open..b.end]);
    var d := Drain(parse, a', false);
    TwoPieces(parse, a', z, d.0, d.1);
    TwoPieces(parse, a, z, Joined(text, block, d.0), d.1);
    JoinedThen(text, block, d.0, Stream(parse, d.1, [z]));
  }

  lemma Reassemble(s: Text, n: nat, a': Text, z: Text, a: Text)
    requires n <= |s| && s[n..] == a' + z && a == s[..n] + a'
    ensures s == a + z && a' == a[n..]
  {
    assert s == s[..n] + s[n..];
  }

  lemma {:induction false} OversizeShowsBehind<C>(parse: Text -> Out<C>, s: Text, b: Split, a: Text, z: Text, a': Text)
    requires Textless(parse) && b == FirstBlock(s) && b.Closed? && s[b.end..] == a' + z && a == s[..b.end] + a' && a' != []
    requires |Stream(parse, [], [a', z]).text| == |Whole(parse, s[b.end..]).text| + 1
    ensures s == a + z && |Stream(parse, [], [a, z]).text| == |Whole(parse, s).text| + 1
  {
    Reassemble(s, b.end, a', z, a);
    WholeLength(parse, s, b);
    CutBehindBlock(parse, a, z, a', b);
  }

  /** Every text with an oversized block has a cut that shows it. */
  lemma {:induction false} OversizeShows<C>(parse: Text -> Out<C>, s: Text) returns (a: Text, z: Text)
    requires Textless(parse) && !WithinCap(s)
    ensures s == a + z && a != [] && |Stream(parse, [], [a, z]).text| == |Whole(parse, s).text| + 1
    decreases |s|
  {
    var b := FirstBlock(s);
    WholeUnfolds(parse, s, b);
    if b.Closed? && b.end - b.open <= BODY_MAX + 1 {
      var rest := s[b.end..];
      var a', z' := OversizeShows(parse, rest);
      a, z := s[..b.end] + a', z';
      OversizeShowsBehind(parse, s, b, a, z, a');
      assert a != [] && s == a + z;
    } else {
      var n := if b.Dangling? then |s| - 1 else b.end - 1;
      a, z := s[..n], s[n..];
      assert s == a + z;
      OversizedBlockShows(parse, s, a, z, b);
    }
  }

  lemma {:induction false} DrainOfEmpty<C>(parse: Text -> Out<C>, flush: bool)
    ensures Drain(parse, [], flush) == (Out([], []), [])
  {
    DrainUnfolds(parse, [], flush, NoBlock);
  }

  /** Exactly when cutting is harmless: every cut of a text gives the same output if and only if no
      block of it, closed or not, exceeds the cap by more than its last unit. */
  lemma {:induction false} CutsAgreeIff<C>(parse: Text -> Out<C>, s: Text)
    requires Textless(parse)
    ensures WithinCap(s) <==> forall pieces: seq<Text> :: Flatten(pieces) == s ==> Stream(parse, [], pieces) == Whole(parse, s)
  {
    if WithinCap(s) {
      forall pieces: seq<Text> | Flatten(pieces) == s ensures Stream(parse, [], pieces) == Whole(parse, s) {
        StreamCutInvariance(parse, pieces);
      }
    } else {
      var a, z := OversizeShows(parse, s);
      assert [a, z][1..] == [z];
      assert Flatten([z]) == z + Flatten([]) == z;
      assert Flatten([a, z]) == s;
    }
  }

  // ------------------------------------------------------------------
  // The object
  // ------------------------------------------------------------------

  class NativeFunctionCallStreamParser<C> {
    const parse: Text -> Out<C>
    var buffer: Text

    constructor (parse: Text -> Out<C>)
      ensures this.parse == parse && buffer == []
    {
      this.parse, buffer := parse, [];
    }

    method Feed(delta: Text) returns (out: Out<C>)
      modifies this
      ensures (out, buffer) == if delta == [] then (Out([], []), old(buffer)) else Drain(parse, old(buffer) + delta, false)
    {
      if delta == [] {
        return Out([], []);
      }
      buffer := buffer + delta;
      out := DrainBuffer(false);
    }

    method Flush() returns (out: Out<C>)
      modifies this
      ensures buffer == [] && out == Whole(parse, old(buffer))
    {
      FlushIsWhole(parse, buffer);
      out := DrainBuffer(true);
    }

    /** No closed block is left: give out the text before what is held back or dropped. */
    method KeepRest(s: Text, block: Split, flush: bool) returns (before: Text)
      requires block == FirstBlock(s) && !block.Closed?
      modifies this`buffer
      ensures Drain(parse, s, flush) == (Out(before, []), buffer)
    {
      if block.Dangling? {
        buffer := if flush || |s| - block.open > BODY_MAX then [] else s[block.open..];
        return s[..block.open];
      }
      var hold := PartialPrefixLength(s);
      var n := if !flush && hold > 0 then |s| - hold else |s|;
      buffer := s[n..];
      return s[..n];
    }

    /** Give out the text before a closed block and what the block means, and go on behind it. */
    method TakeBlock(s: Text, block: Split, ghost flush: bool) returns (before: Text, parsed: Out<C>, after: Text)
      requires s != [] && block == FirstBlock(s) && block.Closed?
      modifies this`buffer
      ensures |after| < |s| && buffer == after
      ensures Drain(parse, s, flush) == (Joined(before, parsed, Drain(parse, after, flush).0), Drain(parse, after, flush).1)
    {
      DrainUnfolds(parse, s, flush, block);
      before := s[..block.open];
      parsed := parse(s[block.open..block.end]);
      after := s[block.end..];
      buffer := after;
    }

    /** One turn of the loop; `ended` when no closed block is left. */
    method DrainStep(text: Text, calls: seq<C>, s: Text, flush: bool, ghost total: (Out<C>, Text))
      returns (ended: bool, text': Text, calls': seq<C>, after: Text)
      requires s != [] && Follows(total, text, calls, Drain(parse, s, flush))
      modifies this`buffer
      ensures ended ==> total == (Out(text', calls'), buffer)
      ensures !ended ==> |after| < |s| && buffer == after && Follows(total, text', calls', Drain(parse, after, flush))
    {
      var block := FirstBlock(s);
      if !block.Closed? {
        var last := KeepRest(s, block, flush);
        FollowsToEnd(total, text, calls, last, Drain(parse, s, flush));
        return true, text + last, calls, [];
      }
      var before, parsed, next := TakeBlock(s, block, flush);
      FollowsOn(total, text, calls, before, parsed, Drain(parse, next, flush));
      return false, text + before + parsed.text, calls + parsed.calls, next;
    }

    method DrainBuffer(flush: bool) returns (out: Out<C>)
      modifies this
      ensures (out, buffer) == Drain(parse, old(buffer), flush)
    {
      var text, calls: seq<C>, s := [], [], buffer;
      ghost var total := Drain(parse, s, flush);
      while s != []
        invariant buffer == s && Follows(total, text, calls, Drain(parse, s, flush))
        decreases |s|
      {
        var ended;
        ended, text, calls, s := DrainStep(text, calls, s, flush, total);
        if ended {
          return Out(text, calls);
        }
      }
      DrainOfEmpty(parse, flush);
      FollowsToEnd(total, text, calls, [], Drain(parse, s, flush));
      assert text + [] == text;
      return Out(text, calls);
    }
  }

  /** `total` is the text and calls that came out so far, followed by what the rest of the drain gives. */
  ghost predicate Follows<C>(total: (Out<C>, Text), text: Text, calls: seq<C>, rest: (Out<C>, Text)) {
    total.0.text == text + rest.0.text && total.0.calls == calls + rest.0.calls && total.1 == rest.1
  }

  lemma FollowsToEnd<C>(total: (Out<C>, Text), text: Text, calls: seq<C>, before: Text, rest: (Out<C>, Text))
    requires Follows(total, text, calls, rest) && rest.0 == Out(before, [])
    ensures total == (Out(text + before, calls), rest.1)
  {
    assert calls + [] == calls;
  }

  lemma FollowsOn<C>(total: (Out<C>, Text), text: Text, calls: seq<C>, before: Text, block: Out<C>, rest: (Out<C>, Text))
    requires Follows(total, text, calls, (Joined(before, block, rest.0), rest.1))
    ensures Follows(total, text + before + block.text, calls + block.calls, rest)
  {
  }

  method PartialPrefixLength(text: Text) returns (n: nat)
    ensures n == HoldLength(text)
  {
    n := Min(|OPEN| - 1, |text|);
    while n > 0
      invariant n <= Min(|OPEN| - 1, |text|) && HoldUpTo(text, n) == HoldLength(text)
    {
      if EndsInPrefix(text, n) {
        return n;
      }
      n := n - 1;
    }
  }
}
