/** Text written around tool-call blocks comes back as that text and the calls of the blocks, however it is cut. */
module NativeStreamRoundTrips {
  import opened Prelude
  import opened NativeStream

  const LESS_THAN: Unit := '<' as int

  /** The letters of a tag may come in either case; everything else must be as it is. */
  predicate SpellsAs(s: Text, lit: Text) {
    |s| == |lit| && forall k :: 0 <= k < |lit| ==> s[k] == lit[k] || (97 <= lit[k] <= 122 && s[k] == lit[k] - 32)
  }

  lemma TagsAreLower()
    ensures forall k :: 0 <= k < |OPEN| ==> OPEN[k] < 65 || OPEN[k] > 90
    ensures forall k :: 0 <= k < |CLOSE| ==> CLOSE[k] < 65 || CLOSE[k] > 90
  {
  }

  lemma MatchesIff(s: Text, lit: Text)
    requires lit == OPEN || lit == CLOSE
    ensures Matches(s, lit) <==> SpellsAs(s, lit)
  {
    TagsAreLower();
  }

  /** Text that opens nothing. */
  predicate Quiet(p: Text) {
    LESS_THAN !in p
  }

  /** A closing tag starts at j. */
  predicate EndsAt(b: Text, j: nat) {
    j + 17 <= |b| && SpellsAs(b[j..j + 17], CLOSE)
  }

  /** The name of the opening tag, anything up to the first closing tag, and that. */
  ghost predicate IsBlock(b: Text) {
    var n := |b| - 17;
    && |OPEN| <= n && SpellsAs(b[..|OPEN|], OPEN) && !IsWord(b[|OPEN|])
    && EndsAt(b, n) && forall j :: 0 <= j < n ==> !EndsAt(b, j)
  }

  function Composed(plains: seq<Text>, blocks: seq<Text>): Text
    requires |plains| == |blocks| + 1
  {
    if blocks == [] then plains[0] else plains[0] + blocks[0] + Composed(plains[1..], blocks[1..])
  }

  function Spoken<C>(parse: Text -> Out<C>, plains: seq<Text>, blocks: seq<Text>): Out<C>
    requires |plains| == |blocks| + 1
  {
    if blocks == [] then Out(plains[0], [])
    else
      var rest := Spoken(parse, plains[1..], blocks[1..]);
      Out(plains[0] + parse(blocks[0]).text + rest.text, parse(blocks[0]).calls + rest.calls)
  }

  lemma {:induction false} QuietOpensNothing(p: Text, rest: Text, i: nat)
    requires Quiet(p) && i < |p|
    ensures !OpensAt(p + rest, i)
  {
    var s := p + rest;
    assert p[i] in p && s[i] == p[i] && OPEN[0] == LESS_THAN;
    if i + |OPEN| <= |s| {
      MatchesIff(s[i..i + |OPEN|], OPEN);
      assert s[i..i + |OPEN|][0] == s[i];
    }
  }

  lemma {:induction false} BlockOpens(p: Text, b: Text, rest: Text)
    requires Quiet(p) && IsBlock(b)
    ensures FindOpen(p + b + rest) == Some(|p|)
  {
    var s := p + b + rest;
    assert s == p + (b + rest);
    MatchesIff(b[..|OPEN|], OPEN);
    assert s[|p|..|p| + |OPEN|] == b[..|OPEN|] && s[|p| + |OPEN|] == b[|OPEN|];
    assert OpensAt(s, |p|);
    forall i | 0 <= i < |p| ensures !OpensAt(s, i) {
      QuietOpensNothing(p, b + rest, i);
    }
  }

  lemma {:induction false} ClosesIff(s: Text, j: nat)
    ensures ClosesAt(s, j) <==> EndsAt(s, j)
  {
    if j + 17 <= |s| {
      MatchesIff(s[j..j + 17], CLOSE);
    }
  }

  lemma {:induction false} EndsAlike(b: Text, rest: Text, j: nat)
    requires j + 17 <= |b|
    ensures EndsAt(b + rest, j) <==> EndsAt(b, j)
  {
    assert (b + rest)[j..j + 17] == b[j..j + 17];
  }

  lemma {:induction false} FirstEnd(s: Text, n: nat)
    requires EndsAt(s, n) && forall j :: 0 <= j < n ==> !EndsAt(s, j)
    ensures FindClose(s) == Some(n)
  {
    ClosesIff(s, n);
    forall j | 0 <= j < n ensures !ClosesAt(s, j) {
      ClosesIff(s, j);
    }
  }

  lemma {:induction false} NoEnd(s: Text)
    requires forall j :: 0 <= j < |s| ==> !EndsAt(s, j)
    ensures FindClose(s).None?
  {
    forall j | 0 <= j < |s| ensures !ClosesAt(s, j) {
      ClosesIff(s, j);
    }
  }

  lemma {:induction false} BlockCloses(b: Text, rest: Text)
    requires IsBlock(b)
    ensures FindClose(b + rest) == Some(|b| - 17)
  {
    var n: nat := |b| - 17;
    forall j: nat | j <= n ensures EndsAt(b + rest, j) <==> EndsAt(b, j) {
      EndsAlike(b, rest, j);
    }
    FirstEnd(b + rest, n);
  }

  lemma {:induction false} FirstBlockOf(p: Text, b: Text, rest: Text)
    requires Quiet(p) && IsBlock(b)
    ensures var s := p + b + rest;
            && FirstBlock(s) == Closed(|p|, |p| + |b|)
            && s[..|p|] == p && s[|p|..|p| + |b|] == b && s[|p| + |b|..] == rest
  {
    var s := p + b + rest;
    BlockOpens(p, b, rest);
    BlockCloses(b, rest);
    assert s[|p|..] == b + rest;
    FirstBlockIs(s, |p|, Some(|b| - 17));
  }

  lemma {:induction false} QuietHasNoBlock(p: Text)
    requires Quiet(p)
    ensures FirstBlock(p) == NoBlock
  {
    forall i | 0 <= i < |p| ensures !OpensAt(p, i) {
      assert p + [] == p;
      QuietOpensNothing(p, [], i);
    }
  }

  ghost predicate WellWritten(plains: seq<Text>, blocks: seq<Text>) {
    |plains| == |blocks| + 1 && (forall p :: p in plains ==> Quiet(p)) && forall b :: b in blocks ==> IsBlock(b)
  }

  /** The text around the blocks comes through, the blocks become what they parse to, in order. */
  lemma {:induction false} ComposedIsSpoken<C>(parse: Text -> Out<C>, plains: seq<Text>, blocks: seq<Text>, s: Text)
    requires WellWritten(plains, blocks) && s == Composed(plains, blocks)
    ensures Whole(parse, s) == Spoken(parse, plains, blocks)
    decreases |blocks|
  {
    assert plains[0] in plains;
    if blocks == [] {
      QuietHasNoBlock(s);
    } else {
      var rest := Composed(plains[1..], blocks[1..]);
      assert blocks[0] in blocks && WellWritten(plains[1..], blocks[1..]);
      FirstBlockOf(plains[0], blocks[0], rest);
      ComposedIsSpoken(parse, plains[1..], blocks[1..], rest);
    }
  }

  lemma {:induction false} ComposedWithinCap(plains: seq<Text>, blocks: seq<Text>, s: Text)
    requires WellWritten(plains, blocks) && s == Composed(plains, blocks)
    ensures WithinCap(s) <==> forall b :: b in blocks ==> |b| <= 65_537
    decreases |blocks|
  {
    assert plains[0] in plains;
    if blocks == [] {
      QuietHasNoBlock(s);
    } else {
      var rest := Composed(plains[1..], blocks[1..]);
      assert blocks[0] in blocks && WellWritten(plains[1..], blocks[1..]);
      FirstBlockOf(plains[0], blocks[0], rest);
      ComposedWithinCap(plains[1..], blocks[1..], rest);
      assert forall b :: b in blocks <==> b == blocks[0] || b in blocks[1..];
    }
  }

  /** However such a text is cut into deltas, what comes out is the text around its blocks and their calls, as long as no block
      is longer than the cap and its last unit. */
  lemma {:induction false} SpokenSurvivesCuts<C>(parse: Text -> Out<C>, plains: seq<Text>, blocks: seq<Text>, pieces: seq<Text>)
    requires WellWritten(plains, blocks) && (forall b :: b in blocks ==> |b| <= 65_537)
    requires Flatten(pieces) == Composed(plains, blocks)
    ensures Stream(parse, [], pieces) == Spoken(parse, plains, blocks)
  {
    ComposedIsSpoken(parse, plains, blocks, Flatten(pieces));
    ComposedWithinCap(plains, blocks, Flatten(pieces));
    StreamCutInvariance(parse, pieces);
  }

  /** A block that never closes is dropped, with everything behind it. */
  lemma {:induction false} UnclosedIsDropped<C>(parse: Text -> Out<C>, p: Text, b: Text)
    requires Quiet(p) && |b| > |OPEN| && SpellsAs(b[..|OPEN|], OPEN) && !IsWord(b[|OPEN|])
    requires forall j :: 0 <= j < |b| ==> !EndsAt(b, j)
    ensures Whole(parse, p + b) == Out(p, [])
  {
    var s := p + b;
    MatchesIff(b[..|OPEN|], OPEN);
    assert s[|p|..|p| + |OPEN|] == b[..|OPEN|] && s[|p| + |OPEN|] == b[|OPEN|];
    assert OpensAt(s, |p|);
    forall i | 0 <= i < |p| ensures !OpensAt(s, i) {
      QuietOpensNothing(p, b, i);
    }
    assert s[|p|..] == b && s[..|p|] == p;
    NoEnd(b);
    FirstBlockIs(s, |p|, None);
  }

  /** A longer word that only begins like the tag opens nothing. */
  lemma {:induction false} LongerWordIsText<C>(parse: Text -> Out<C>, p: Text, tag: Text, c: Unit, rest: Text)
    requires Quiet(p) && Quiet(rest) && SpellsAs(tag, OPEN) && IsWord(c)
    ensures var s := p + tag + [c] + rest; Whole(parse, s) == Out(s, [])
  {
    var s := p + tag + [c] + rest;
    forall i | 0 <= i < |s| ensures !OpensAt(s, i) {
      if i < |p| {
        assert s == p + (tag + [c] + rest);
        QuietOpensNothing(p, tag + [c] + rest, i);
      } else if i == |p| {
        assert s[|p| + |OPEN|] == c;
      } else if OpensAt(s, i) {
        assert s[i..i + |OPEN|][0] == s[i];
        MatchesIff(s[i..i + |OPEN|], OPEN);
        assert OPEN[0] == LESS_THAN;
        OnlyOneLessThan(p, tag, c, rest, i);
      }
    }
  }

  lemma {:induction false} OnlyOneLessThan(p: Text, tag: Text, c: Unit, rest: Text, i: nat)
    requires Quiet(rest) && SpellsAs(tag, OPEN) && IsWord(c) && |p| < i < |p + tag + [c] + rest|
    ensures (p + tag + [c] + rest)[i] != LESS_THAN
  {
    var s := p + tag + [c] + rest;
    if i < |p| + |tag| {
      assert s[i] == tag[i - |p|];
      assert forall k :: 1 <= k < |OPEN| ==> OPEN[k] != LESS_THAN && OPEN[k] - 32 != LESS_THAN;
    } else if i > |p| + |tag| {
      assert s[i] == rest[i - |p| - |tag| - 1];
      assert s[i] in rest;
    }
  }
}
