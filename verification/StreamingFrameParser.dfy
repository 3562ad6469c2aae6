/** The parser object: a queue of borrowed transport chunks that behaves like one flat buffer. */
module StreamingParser {
  import opened Prelude
  import opened ConnectFraming

  /** A queue slot; a slot whose chunk was used up is cleared until compaction drops it. */
  datatype Slot = Cleared | Chunk(bytes: Bytes)

  /** The bytes a stretch of slots holds, in order. */
  function Held(slots: seq<Slot>): Bytes {
    if slots == [] then [] else (if slots[0].Chunk? then slots[0].bytes else []) + Held(slots[1..])
  }

  lemma {:induction false} HeldAppend(a: seq<Slot>, b: seq<Slot>)
    ensures Held(a + b) == Held(a) + Held(b)
    decreases |a|
  {
    if a == [] {
      assert a + b == b;
    } else {
      assert (a + b)[1..] == a[1..] + b;
      HeldAppend(a[1..], b);
    }
  }

  lemma HeldFrom(slots: seq<Slot>, k: nat)
    requires k < |slots| && slots[k].Chunk?
    ensures Held(slots[k..]) == slots[k].bytes + Held(slots[k + 1..])
  {
    assert slots[k..][1..] == slots[k + 1..];
  }

  /** The bytes of a queue whose first live slot is `head`, `offset` bytes of which are used up. */
  ghost function View(slots: seq<Slot>, head: nat, offset: nat): Bytes
    requires head <= |slots| && offset <= |Held(slots[head..])|
  {
    Held(slots[head..])[offset..]
  }

  lemma ViewStep(slots: seq<Slot>, head: nat, offset: nat, take: nat)
    requires head < |slots| && slots[head].Chunk? && offset + take <= |slots[head].bytes|
    ensures offset + take <= |Held(slots[head..])|
    ensures take <= |View(slots, head, offset)|
    ensures View(slots, head, offset)[..take] == slots[head].bytes[offset..offset + take]
    ensures View(slots, head, offset)[take..] == View(slots, head, offset + take)
    ensures offset + take == |slots[head].bytes| ==>
              && View(slots, head, offset)[take..] == View(slots, head + 1, 0)
              && View(slots[head := Cleared], head + 1, 0) == View(slots, head + 1, 0)
  {
    HeldFrom(slots, head);
    assert slots[head := Cleared][head + 1..] == slots[head + 1..];
  }

  lemma ViewGrows(slots: seq<Slot>, head: nat, offset: nat, chunk: Bytes)
    requires head <= |slots| && offset <= |Held(slots[head..])|
    ensures offset <= |Held((slots + [Chunk(chunk)])[head..])|
    ensures View(slots + [Chunk(chunk)], head, offset) == View(slots, head, offset) + chunk
  {
    assert (slots + [Chunk(chunk)])[head..] == slots[head..] + [Chunk(chunk)];
    HeldAppend(slots[head..], [Chunk(chunk)]);
    assert Held([Chunk(chunk)]) == chunk + Held([]);
  }

  /** `rest` is what a live queue holds from position `pos` of slot `index` on. */
  ghost predicate Reaches(slots: seq<Slot>, index: nat, pos: nat, rest: Bytes) {
    && index < |slots|
    && (forall k :: index <= k < |slots| ==> slots[k].Chunk? && slots[k].bytes != [])
    && pos < |slots[index].bytes|
    && pos <= |Held(slots[index..])|
    && rest == View(slots, index, pos)
  }

  lemma ReachesOn(slots: seq<Slot>, index: nat, pos: nat, rest: Bytes, take: nat, next: nat, rest': Bytes)
    requires Reaches(slots, index, pos, rest) && pos + take <= |slots[index].bytes| && next == index + 1
    requires take <= |rest| ==> rest' == rest[take..]
    ensures rest == slots[index].bytes[pos..pos + take] + rest'
    ensures pos + take == |slots[index].bytes| && rest' != [] ==> Reaches(slots, next, 0, rest')
  {
    ViewStep(slots, index, pos, take);
    if pos + take == |slots[index].bytes| && rest' != [] {
      assert rest' == View(slots, next, 0);
      assert slots[next..] != [];
    }
  }

  /** Copy a stretch of a chunk into the payload buffer. */
  method Blit(dst: array<Byte>, at: nat, src: Bytes, from: nat, take: nat, end: nat)
    requires end == at + take <= dst.Length && from + take <= |src|
    modifies dst
    ensures dst[..end] == old(dst[..at]) + src[from..from + take]
  {
    forall k | 0 <= k < take {
      dst[at + k] := src[from + k];
    }
  }

  lemma Regroup(all: Bytes, a: Bytes, b: Bytes, c: Bytes)
    requires all == a + (b + c)
    ensures all == (a + b) + c
  {
  }

  /** Fill the payload buffer from a queue, chunk by chunk. */
  method FillFrom(queue: seq<Slot>, start: nat, offset: nat, ghost body: Bytes, payload: array<Byte>)
    requires Reaches(queue, start, offset, body) && payload.Length <= |body|
    modifies payload
    ensures payload[..] == body[..payload.Length]
  {
    var index, pos, written := start, offset, 0;
    ghost var rest := body;
    while written < payload.Length
      invariant written <= payload.Length && 0 <= index && 0 <= pos
      invariant body == payload[..written] + rest
      invariant written < payload.Length ==> Reaches(queue, index, pos, rest)
    {
      var chunk := queue[index].bytes;
      var take := Min(payload.Length - written, |chunk| - pos);
      var next, total := index + 1, written + take;
      ghost var done, piece, rest' := payload[..written], chunk[pos..pos + take], rest[take..];
      ReachesOn(queue, index, pos, rest, take, next, rest');
      Regroup(body, done, piece, rest');
      Blit(payload, written, chunk, pos, take, total);
      index, written, pos, rest := next, total, 0, rest';
    }
    assert payload[..] == payload[..written];
  }

  datatype DrainResult = Drained(frames: seq<Frame>) | Threw(error: FrameError)

  class StreamingFrameParser {
    const g: Gzip
    var chunks: seq<Slot>
    var head: nat
    var offset: nat
    var length: nat

    // Chunks pushed, references that compaction copied and chunks that consumption cleared, over the parser's whole life.
    ghost var pushed: nat
    ghost var copied: nat
    ghost var retired: nat

    ghost predicate Shaped()
      reads this
    {
      && head <= |chunks|
      && (forall k :: 0 <= k < head ==> chunks[k].Cleared?)
      && (forall k :: head <= k < |chunks| ==> chunks[k].Chunk? && chunks[k].bytes != [])
      && (if head < |chunks| then offset < |chunks[head].bytes| else offset == 0)
    }

    ghost function Contents(): Bytes
      requires Shaped()
      reads this
    {
      View(chunks, head, Skipped())
    }

    ghost function Skipped(): (n: nat)
      requires Shaped()
      reads this
      ensures n <= |Held(chunks[head..])|
    {
      if head < |chunks| then HeldFrom(chunks, head); offset else 0
    }

    ghost predicate Valid()
      reads this
    {
      && Shaped()
      && length == |Contents()|
      && (head == 0 || 2 * head < |chunks|)    // empty, or fewer than half the slots are dead
      && copied + head <= retired              // copying is paid for by chunks already used up
      && retired + (|chunks| - head) == pushed // a pushed chunk is in the queue or was used up
    }

    constructor (g: Gzip)
      ensures Valid() && Contents() == [] && this.g == g && pushed == copied == retired == 0
    {
      this.g := g;
      chunks, head, offset, length := [], 0, 0, 0;
      pushed, copied, retired := 0, 0, 0;
    }

    method Push(chunk: Bytes)
      requires Valid()
      modifies this`chunks, this`length, this`pushed
      ensures Valid() && Contents() == old(Contents()) + chunk
      ensures pushed == old(pushed) + if chunk == [] then 0 else 1
    {
      if |chunk| == 0 {
        return;
      }
      ViewGrows(chunks, head, Skipped(), chunk);
      chunks := chunks + [Chunk(chunk)];
      length, pushed := length + |chunk|, pushed + 1;
    }

    /** Where the byte `skip` bytes into the queue lies: slot `index`, position `pos`. */
    method Locate(skip: nat) returns (index: nat, pos: nat)
      requires Valid() && skip < length
      ensures head <= index < |chunks| && pos < |chunks[index].bytes|
      ensures Reaches(chunks, index, pos, Contents()[skip..])
    {
      index, pos := head, offset + skip;
      while pos >= |chunks[index].bytes|
        invariant head <= index < |chunks|
        invariant pos < |Held(chunks[index..])|
        invariant Contents()[skip..] == Held(chunks[index..])[pos..]
        decreases |chunks| - index
      {
        HeldFrom(chunks, index);
        pos, index := pos - |chunks[index].bytes|, index + 1;
        assert Held(chunks[|chunks|..]) == [];
      }
    }

    method ByteAt(relative: nat) returns (b: Byte)
      requires Valid() && relative < length
      ensures b == Contents()[relative]
    {
      var index, pos := Locate(relative);
      HeldFrom(chunks, index);
      assert Contents()[relative] == Contents()[relative..][0];
      b := chunks[index].bytes[pos];
    }

    /** The advertised length of the first frame. */
    method FrameLength() returns (len: nat)
      requires Valid() && HEADER <= length
      ensures len == BodyLength(Contents())
    {
      len := 0;
      for i := 1 to HEADER
        invariant len == PrefixNumber(Contents(), i)
      {
        var b := ByteAt(i);
        len := len * 256 + b as nat;
      }
      LengthIsPrefixNumber(Contents());
    }

    method CopyPayload(size: nat) returns (payload: array<Byte>)
      requires Valid() && HEADER + size <= length
      ensures fresh(payload) && payload[..] == Contents()[HEADER..HEADER + size]
    {
      payload := new Byte[size];
      if size == 0 {
        return;
      }
      var index, pos := Locate(HEADER);
      FillFrom(chunks, index, pos, Contents()[HEADER..], payload);
    }

    /** Drop what was used up: everything at once, or the dead half of the slots. */
    method Compact()
      requires Shaped() && length == |Contents()| && copied + head <= retired && retired + (|chunks| - head) == pushed
      modifies this`chunks, this`head, this`copied
      ensures Valid() && Contents() == old(Contents())
      ensures length == 0 ==> chunks == []
      ensures copied == old(copied) + if chunks == old(chunks) then 0 else |chunks|
    {
      if head == |chunks| {
        assert Held(chunks[head..]) == [];
        chunks, head := [], 0;
      } else {
        HeldFrom(chunks, head);
        if head * 2 >= |chunks| {
          copied := copied + (|chunks| - head);
          chunks, head := chunks[head..], 0;
          assert chunks[0..] == chunks;
        }
      }
    }

    /** Use up `step` bytes of the front chunk; a chunk that is used up is cleared. */
    method UseUp(step: nat)
      requires Shaped() && head < |chunks| && step <= |chunks[head].bytes| - offset
      modifies this`chunks, this`head, this`offset, this`retired
      ensures Shaped() && step <= |old(Contents())| && Contents() == old(Contents())[step..]
      ensures retired - head == old(retired - head)
      ensures retired == old(retired) + if head == old(head) then 0 else 1
      ensures |chunks| == |old(chunks)| && head >= old(head)
      ensures step < old(|chunks[head].bytes| - offset) || head > old(head)
    {
      ViewStep(chunks, head, offset, step);
      if step < |chunks[head].bytes| - offset {
        offset := offset + step;
      } else {
        chunks, head, offset := chunks[head := Cleared], head + 1, 0;
        retired := retired + 1;
      }
    }

    method Consume(size: nat)
      requires Valid() && size <= length
      modifies this`chunks, this`head, this`offset, this`length, this`copied, this`retired
      ensures Valid() && Contents() == old(Contents())[size..]
    {
      ghost var all := Contents();
      length := length - size;
      var left: nat := size;
      while left > 0
        invariant Shaped() && left <= size <= |all|
        invariant Contents() == all[size - left..]
        invariant length == |all| - size && copied + head <= retired && retired + (|chunks| - head) == pushed
        decreases left, |chunks| - head
      {
        left := UseUpSome(left, all, size - left);
      }
      Compact();
    }

    /** Use up at most `left` bytes, all from the front chunk. */
    method UseUpSome(left: nat, ghost all: Bytes, ghost done: nat) returns (left': nat)
      requires Shaped() && 0 < left && done + left <= |all| && Contents() == all[done..]
      requires copied + head <= retired && retired + (|chunks| - head) == pushed
      modifies this`chunks, this`head, this`offset, this`retired
      ensures Shaped() && left' <= left && Contents() == all[done + (left - left')..]
      ensures copied + head <= retired && retired + (|chunks| - head) == pushed
      ensures left' < left || |chunks| - head < old(|chunks| - head)
    {
      assert head < |chunks| by { assert Held(chunks[|chunks|..]) == []; }
      var step := Min(left, |chunks[head].bytes| - offset);
      UseUp(step);
      CutTwice(all, done, step);
      left' := left - step;
    }

    /** Over the whole life of the parser compaction copies at most one reference for each chunk it was given. */
    lemma CopyingIsPaidFor()
      requires Valid()
      ensures copied <= pushed && |chunks| <= 2 * (pushed - retired)
    {
    }

    /** Read the first frame without consuming it: the advertised length is checked before the body
        is waited for, and the body is copied before it is inflated. */
    method FirstFrame() returns (front: Front)
      requires Valid()
      ensures front == FrontOf(g, Contents())
    {
      if length < HEADER {
        return Incomplete;
      }
      var len := FrameLength();
      if len > MAX_FRAME_SIZE {
        return Refused(FrameTooLarge(len));
      }
      if length < HEADER + len {
        return Incomplete;
      }
      var flags := ByteAt(0);
      var body := CopyPayload(len);
      var payload := body[..];
      if IsCompressed(flags) {
        var plain := g.Gunzip(payload);
        if plain.None? {
          return Refused(DecompressionFailed);
        }
        payload := plain.value;
      }
      return Ready(Frame(flags, IsEndStream(flags), payload), HEADER + len);
    }

    /** Drain all complete frames; the frames read before a throw are lost. */
    method Drain() returns (r: DrainResult)
      requires Valid()
      modifies this`chunks, this`head, this`offset, this`length, this`copied, this`retired
      ensures Valid()
      ensures Contents() == Parse(g, old(Contents())).rest
      ensures r == ResultOf(Parse(g, old(Contents())))
    {
      var frames: seq<Frame> := [];
      var front := FirstFrame();
      while front.Ready?
        invariant Valid() && front == FrontOf(g, Contents())
        invariant Parse(g, old(Contents())) == Parse(g, Contents()).After(frames)
        decreases length
      {
        TakeOne(g, Contents(), frames, front.frame, front.size);
        frames := frames + [front.frame];
        Consume(front.size);
        front := FirstFrame();
      }
      return if front.Refused? then Threw(front.error) else Drained(frames);
    }
  }

  function ResultOf(p: Parsed): DrainResult {
    if p.error.Some? then Threw(p.error.value) else Drained(p.frames)
  }

  lemma {:induction false} TakeOne(g: Gzip, buf: Bytes, frames: seq<Frame>, frame: Frame, size: nat)
    requires FrontOf(g, buf) == Ready(frame, size)
    ensures Parse(g, buf).After(frames) == Parse(g, buf[size..]).After(frames + [frame])
  {
    var rest := Parse(g, buf[size..]).frames;
    assert frames + ([frame] + rest) == frames + [frame] + rest;
  }

  lemma CutTwice(s: Bytes, a: nat, b: nat)
    requires a <= |s| && b <= |s[a..]|
    ensures s[a + b..] == s[a..][b..]
    ensures s[..a + b] == s[..a] + s[a..][..b]
  {
  }

  /** The number written by the header bytes before index i. */
  ghost function PrefixNumber(buf: Bytes, i: nat): nat
    requires 1 <= i <= HEADER <= |buf|
  {
    if i == 1 then 0 else PrefixNumber(buf, i - 1) * 256 + buf[i - 1] as nat
  }

  lemma {:induction false} LengthIsPrefixNumber(buf: Bytes)
    requires |buf| >= HEADER
    ensures PrefixNumber(buf, HEADER) == BodyLength(buf)
  {
    assert PrefixNumber(buf, 2) == buf[1] as nat;
    assert PrefixNumber(buf, 3) == PrefixNumber(buf, 2) * 256 + buf[2] as nat;
    assert PrefixNumber(buf, 4) == PrefixNumber(buf, 3) * 256 + buf[3] as nat;
  }
}
