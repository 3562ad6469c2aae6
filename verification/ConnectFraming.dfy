/** The Connect envelope format and the streaming parser that reads it off a queue of transport
    chunks. Enveloped-Message: one flags byte, a four byte big-endian length, the payload. */
module ConnectFraming {
  import opened Prelude

  type Byte = b: nat | b < 256
  type Bytes = seq<Byte>

  const MAX_FRAME_SIZE: nat := 16 * 1024 * 1024
  const MAX_UINT32: nat := 0xFFFF_FFFF
  const HEADER: nat := 5

  /** gzip (RFC 1952) as an abstract pair; `inflate` fails on bytes that are not a gzip stream. */
  datatype Gzip = Gzip(deflate: Bytes -> Bytes, inflate: Bytes -> Option<Bytes>)
  {
    ghost predicate Lawful() {
      forall x: Bytes :: inflate(deflate(x)) == Some(x)
    }

    /** Decompression bounded by `maxOutputLength`. */
    function Gunzip(wire: Bytes): Option<Bytes> {
      var out := inflate(wire);
      if out.Some? && |out.value| <= MAX_FRAME_SIZE then out else None
    }
  }

  function Be32(n: nat): (r: Bytes)
    requires n <= MAX_UINT32
    ensures |r| == 4
  {
    [n / 0x100_0000, n / 0x1_0000 % 0x100, n / 0x100 % 0x100, n % 0x100]
  }

  function ReadBe32(b: Bytes): nat
    requires |b| >= 4
  {
    ((b[0] as nat * 256 + b[1] as nat) * 256 + b[2] as nat) * 256 + b[3] as nat
  }

  lemma Be32RoundTrip(n: nat)
    requires n <= MAX_UINT32
    ensures ReadBe32(Be32(n)) == n
  {
    var a, b, c := n / 0x100, n / 0x1_0000, n / 0x100_0000;
    assert b == a / 0x100 && c == b / 0x100;
  }

  predicate IsCompressed(flags: Byte) {
    flags % 2 == 1
  }

  predicate IsEndStream(flags: Byte) {
    flags / 2 % 2 == 1
  }

  // ------------------------------------------------------------------
  // Writing
  // ------------------------------------------------------------------

  function Envelope(flags: Byte, payload: Bytes): Bytes
    requires |payload| <= MAX_UINT32
  {
    [flags] + Be32(|payload|) + payload
  }

  /** Whether a message goes over the wire compressed. */
  predicate Squeezed(message: Bytes, compress: bool) {
    compress && |message| > 0
  }

  function Wire(g: Gzip, message: Bytes, compress: bool): Bytes {
    if Squeezed(message, compress) then g.deflate(message) else message
  }

  /** Nothing when the length does not fit the header: the writer throws. */
  function WrapEnvelope(g: Gzip, message: Bytes, compress: bool): Option<Bytes> {
    var payload := Wire(g, message, compress);
    if |payload| > MAX_UINT32 then None
    else Some(Envelope(if Squeezed(message, compress) then 1 else 0, payload))
  }

  const TRAILER: Bytes := [123, 125]  // {}

  function EndOfStreamEnvelope(): Bytes {
    Envelope(2, TRAILER)
  }

  // ------------------------------------------------------------------
  // Reading a flat buffer
  // ------------------------------------------------------------------

  datatype Frame = Frame(flags: Byte, isEndStream: bool, payload: Bytes)

  datatype FrameError = FrameTooLarge(len: nat) | DecompressionFailed

  datatype Parsed = Parsed(frames: seq<Frame>, rest: Bytes, error: Option<FrameError>)
  {
    function After(frames': seq<Frame>): Parsed {
      this.(frames := frames' + frames)
    }
  }

  function BodyLength(buf: Bytes): nat
    requires |buf| >= HEADER
  {
    ReadBe32(buf[1..5])
  }

  /** What the front of a buffer holds: too few bytes, a frame that is refused, or a frame. */
  datatype Front = Incomplete | Refused(error: FrameError) | Ready(frame: Frame, size: nat)

  function FrontOf(g: Gzip, buf: Bytes): (r: Front)
    ensures r.Ready? ==> HEADER <= r.size <= |buf|
  {
    if |buf| < HEADER then Incomplete
    else
      var len := BodyLength(buf);
      if len > MAX_FRAME_SIZE then Refused(FrameTooLarge(len))
      else if |buf| < HEADER + len then Incomplete
      else
        var body := buf[HEADER..HEADER + len];
        var payload := if IsCompressed(buf[0]) then g.Gunzip(body) else Some(body);
        if payload.None? then Refused(DecompressionFailed)
        else Ready(Frame(buf[0], IsEndStream(buf[0]), payload.value), HEADER + len)
  }

  /** The reference: read frames off one flat buffer until it runs dry or a frame is refused. */
  function Parse(g: Gzip, buf: Bytes): Parsed {
    match FrontOf(g, buf)
    case Incomplete => Parsed([], buf, None)
    case Refused(e) => Parsed([], buf, Some(e))
    case Ready(frame, size) => Parse(g, buf[size..]).After([frame])
  }

  lemma FrontExtends(g: Gzip, a: Bytes, b: Bytes)
    requires !FrontOf(g, a).Incomplete?
    ensures FrontOf(g, a + b) == FrontOf(g, a)
  {
    assert (a + b)[1..5] == a[1..5];
    if |a| >= HEADER + BodyLength(a) {
      assert (a + b)[HEADER..HEADER + BodyLength(a)] == a[HEADER..HEADER + BodyLength(a)];
    }
  }

  /** A reader of flat buffers for which bytes that arrive later never change what was already read,
      what is left over gives nothing more on its own, and a refused frame stays refused. */
  ghost predicate Incremental(parse: Bytes -> Parsed) {
    forall a: Bytes, b: Bytes {:trigger Split(a, b)} ::
      Split(a, b) ==> ReadsOn(parse(a), parse(a + b), parse(parse(a).rest + b), b)
  }

  /** Some of the stream has arrived and some is still to come. */
  predicate Split(now: Bytes, later: Bytes) {
    true
  }

  ghost predicate ReadsOn(now: Parsed, all: Parsed, next: Parsed, later: Bytes) {
    if now.error.Some? then all == now.(rest := now.rest + later) && next == Parsed([], now.rest + later, now.error)
    else all == next.After(now.frames)
  }

  lemma {:induction false} ParseReadsOn(g: Gzip, a: Bytes, b: Bytes)
    ensures ReadsOn(Parse(g, a), Parse(g, a + b), Parse(g, Parse(g, a).rest + b), b)
    decreases |a|
  {
    var front := FrontOf(g, a);
    if front.Ready? {
      ParseReadsOn(g, a[front.size..], b);
      FrontExtends(g, a, b);
      assert (a + b)[front.size..] == a[front.size..] + b;
    } else if front.Refused? {
      FrontExtends(g, a, b);
    }
  }

  lemma ParseIsIncremental(g: Gzip)
    ensures Incremental(b => Parse(g, b))
  {
    forall a: Bytes, b: Bytes | Split(a, b)
      ensures ReadsOn(Parse(g, a), Parse(g, a + b), Parse(g, Parse(g, a).rest + b), b)
    {
      ParseReadsOn(g, a, b);
    }
  }

  // ------------------------------------------------------------------
  // Runs of the parser, on its abstract contents
  // ------------------------------------------------------------------

  datatype Action = Push(chunk: Bytes) | Drain

  /** What has been handed to the caller, and what is still queued. */
  datatype Feed = Feed(delivered: seq<Frame>, queued: Bytes)

  /** A drain that throws hands over nothing and leaves the queue at the frame it refused. */
  function StepFeed(parse: Bytes -> Parsed, s: Feed, a: Action): Feed {
    match a
    case Push(chunk) => Feed(s.delivered, s.queued + chunk)
    case Drain =>
      var p := parse(s.queued);
      Feed(if p.error.Some? then s.delivered else s.delivered + p.frames, p.rest)
  }

  function RunFeed(parse: Bytes -> Parsed, s: Feed, run: seq<Action>): Feed
    decreases |run|
  {
    if run == [] then s else RunFeed(parse, StepFeed(parse, s, run[0]), run[1..])
  }

  function Pushed(run: seq<Action>): Bytes {
    if run == [] then [] else (if run[0].Push? then run[0].chunk else []) + Pushed(run[1..])
  }

  /** `end` is where a run from `s` may be, when the flat stream from `s` on parses as `whole`. */
  ghost predicate OnTrack(s: Feed, whole: Parsed, end: Feed, left: Parsed) {
    && left.rest == whole.rest
    && left.error == whole.error
    && (whole.error.None? ==> end.delivered + left.frames == s.delivered + whole.frames)
    && (whole.error.Some? ==> s.delivered <= end.delivered <= s.delivered + whole.frames)
  }

  /** A drain moves what `now` has read to the delivered side. */
  lemma DrainStaysOnTrack(s: Feed, now: Parsed, all: Parsed, next: Parsed, later: Bytes, end: Feed, left: Parsed)
    requires ReadsOn(now, all, next, later)
    requires OnTrack(Feed(if now.error.Some? then s.delivered else s.delivered + now.frames, now.rest), next, end, left)
    ensures OnTrack(s, all, end, left)
  {
    if now.error.None? {
      assert s.delivered + all.frames == (s.delivered + now.frames) + next.frames;
    } else {
      assert s.delivered + next.frames == s.delivered;
    }
  }

  lemma {:induction false} FlatStreamSplits(queued: Bytes, run: seq<Action>)
    requires run != []
    ensures queued + Pushed(run) ==
            (if run[0].Push? then queued + run[0].chunk else queued) + Pushed(run[1..])
  {
    if run[0].Push? {
      Regroup(queued, run[0].chunk, Pushed(run[1..]));
    }
  }

  lemma Regroup(a: Bytes, b: Bytes, c: Bytes)
    ensures a + (b + c) == (a + b) + c
  {
  }

  lemma {:induction false} RunFollowsParse(parse: Bytes -> Parsed, s: Feed, run: seq<Action>, flat: Bytes, end: Feed)
    requires Incremental(parse) && flat == s.queued + Pushed(run) && end == RunFeed(parse, s, run)
    ensures OnTrack(s, parse(flat), end, parse(end.queued))
    decreases |run|
  {
    if run == [] {
      assert flat == s.queued;
    } else {
      var later := Pushed(run[1..]);
      var next := StepFeed(parse, s, run[0]);
      FlatStreamSplits(s.queued, run);
      RunFollowsParse(parse, next, run[1..], next.queued + later, end);
      if run[0].Drain? {
        assert Split(s.queued, later);
        DrainStaysOnTrack(s, parse(s.queued), parse(flat), parse(next.queued + later), later, end, parse(end.queued));
      }
    }
  }

  /** However a byte stream is cut into chunks and however pushes and drains interleave: on a stream
      without a refused frame, what was drained and what one more drain would give are together
      the frames of the flat stream, with the same leftover. On a stream with one, the queue
      ends up starting exactly at it, and what was delivered is a prefix of the good frames. */
  lemma {:induction false} ChunkingIndependence(g: Gzip, run: seq<Action>)
    ensures var whole := Parse(g, Pushed(run));
            var end := RunFeed(b => Parse(g, b), Feed([], []), run);
            var left := Parse(g, end.queued);
            && left.rest == whole.rest && left.error == whole.error
            && (whole.error.None? ==> end.delivered + left.frames == whole.frames)
            && (whole.error.Some? ==> end.delivered <= whole.frames)
  {
    ParseIsIncremental(g);
    assert [] + Pushed(run) == Pushed(run);
    RunFollowsParse(b => Parse(g, b), Feed([], []), run, Pushed(run), RunFeed(b => Parse(g, b), Feed([], []), run));
    assert [] + Parse(g, Pushed(run)).frames == Parse(g, Pushed(run)).frames;
  }

  // ------------------------------------------------------------------
  // Round trips
  // ------------------------------------------------------------------

  datatype Message = Message(bytes: Bytes, compress: bool)

  /** Both bounds of the reader: the advertised length and the inflated size. */
  predicate Fits(g: Gzip, m: Message) {
    |Wire(g, m.bytes, m.compress)| <= MAX_FRAME_SIZE && |m.bytes| <= MAX_FRAME_SIZE
  }

  function FrameOf(m: Message): Frame {
    Frame(if Squeezed(m.bytes, m.compress) then 1 else 0, false, m.bytes)
  }

  /** One wrapped message is read back, and the bytes behind it are read next, if and only if it
      fits; otherwise its frame is refused. */
  lemma {:induction false} WrappedParsesIff(g: Gzip, m: Message, behind: Bytes)
    requires g.Lawful() && WrapEnvelope(g, m.bytes, m.compress).Some?
    ensures var p := Parse(g, WrapEnvelope(g, m.bytes, m.compress).value + behind);
            if Fits(g, m) then p == Parse(g, behind).After([FrameOf(m)])
            else p.frames == [] && p.error.Some?
  {
    var f := Sent(if Squeezed(m.bytes, m.compress) then 1 else 0, Wire(g, m.bytes, m.compress));
    OneFrameReads(g, f, behind);
    FrameIsTaken(f, behind);
  }

  function WrapAll(g: Gzip, ms: seq<Message>): Bytes
    requires forall m :: m in ms ==> WrapEnvelope(g, m.bytes, m.compress).Some?
  {
    if ms == [] then EndOfStreamEnvelope()
    else WrapEnvelope(g, ms[0].bytes, ms[0].compress).value + WrapAll(g, ms[1..])
  }

  function FramesOf(ms: seq<Message>): seq<Frame> {
    if ms == [] then [Frame(2, true, TRAILER)] else [FrameOf(ms[0])] + FramesOf(ms[1..])
  }

  /** A wrapped and closed list is read back in full if and only if every message fits. */
  lemma {:induction false} StreamRoundTripIff(g: Gzip, ms: seq<Message>)
    requires g.Lawful() && forall m :: m in ms ==> WrapEnvelope(g, m.bytes, m.compress).Some?
    ensures (forall m :: m in ms ==> Fits(g, m)) <==> Parse(g, WrapAll(g, ms)) == Parsed(FramesOf(ms), [], None)
    ensures Parse(g, WrapAll(g, ms)).error.None? ==> forall m :: m in ms ==> Fits(g, m)
    decreases |ms|
  {
    if ms == [] {
      var buf := EndOfStreamEnvelope();
      assert buf[1..5] == Be32(2);
      Be32RoundTrip(2);
      assert buf[HEADER..7] == TRAILER && buf[7..] == [];
      assert Parse(g, []) == Parsed([], [], None);
    } else {
      StreamRoundTripIff(g, ms[1..]);
      WrappedParsesIff(g, ms[0], WrapAll(g, ms[1..]));
      assert forall m :: m in ms <==> m == ms[0] || m in ms[1..];
    }
  }

  /** Sent as any list of payloads, compressed or not, and cut anywhere on the way: a reader that ends
      with a drain has been handed the same payloads in order, then the trailer, and only the
      trailer is marked as the end of the stream. */
  lemma {:induction false} SentIsReceived(g: Gzip, ms: seq<Message>, run: seq<Action>)
    requires g.Lawful() && forall m :: m in ms ==> WrapEnvelope(g, m.bytes, m.compress).Some? && Fits(g, m)
    requires Pushed(run) == WrapAll(g, ms)
    ensures StepFeed(b => Parse(g, b), RunFeed(b => Parse(g, b), Feed([], []), run), Drain) == Feed(FramesOf(ms), [])
    ensures |FramesOf(ms)| == |ms| + 1 && FramesOf(ms)[|ms|].isEndStream
    ensures forall k :: 0 <= k < |ms| ==> FramesOf(ms)[k].payload == ms[k].bytes && !FramesOf(ms)[k].isEndStream
  {
    StreamRoundTripIff(g, ms);
    ChunkingIndependence(g, run);
    FramesOfElements(ms);
  }

  lemma {:induction false} FramesOfElements(ms: seq<Message>)
    ensures |FramesOf(ms)| == |ms| + 1 && FramesOf(ms)[|ms|] == Frame(2, true, TRAILER)
    ensures forall k :: 0 <= k < |ms| ==> FramesOf(ms)[k] == FrameOf(ms[k])
    decreases |ms|
  {
    if ms != [] {
      FramesOfElements(ms[1..]);
    }
  }

  // ------------------------------------------------------------------
  // Requests
  // ------------------------------------------------------------------

  /** Looks like a single envelope: flags 0 or 1 and a length that fits exactly. */
  predicate EnvelopeShaped(buf: Bytes) {
    |buf| >= HEADER && BodyLength(buf) == |buf| - HEADER && buf[0] <= 1
  }

  function Unwrap(g: Gzip, buf: Bytes): Option<Bytes> {
    if !EnvelopeShaped(buf) then Some(buf)
    else if IsCompressed(buf[0]) then g.Gunzip(buf[HEADER..])
    else Some(buf[HEADER..])
  }

  /** Nothing when decompression throws; `contentGzip` is the HTTP-level content encoding. */
  function UnwrapRequest(g: Gzip, body: Bytes, contentGzip: bool): Option<Bytes> {
    if !contentGzip then Unwrap(g, body)
    else
      var buf := g.Gunzip(body);
      if buf.None? then None else Unwrap(g, buf.value)
  }

  /** Unwrapping undoes wrapping for every request up to the inflation bound, and only for those. */
  lemma UnwrapUndoesWrapIff(g: Gzip, request: Bytes)
    requires g.Lawful() && WrapEnvelope(g, request, true).Some?
    ensures UnwrapRequest(g, WrapEnvelope(g, request, true).value, false) == Some(request) <==> |request| <= MAX_FRAME_SIZE
  {
    var wire := Wire(g, request, true);
    var buf := WrapEnvelope(g, request, true).value;
    assert buf[1..5] == Be32(|wire|);
    Be32RoundTrip(|wire|);
    assert buf[HEADER..] == wire;
  }

  /** The same with the whole body compressed once more at the HTTP level: both bounds count. */
  lemma UnwrapUndoesWrapInGzipIff(g: Gzip, request: Bytes)
    requires g.Lawful() && WrapEnvelope(g, request, true).Some?
    ensures UnwrapRequest(g, g.deflate(WrapEnvelope(g, request, true).value), true) == Some(request)
            <==> |request| <= MAX_FRAME_SIZE && |WrapEnvelope(g, request, true).value| <= MAX_FRAME_SIZE
  {
    UnwrapUndoesWrapIff(g, request);
  }

  /** A body that was never wrapped comes back unchanged unless it happens to be shaped like an envelope; one that is
      shaped like a compressed envelope must in addition inflate to itself. */
  lemma RawBodySurvivesIff(g: Gzip, body: Bytes)
    ensures UnwrapRequest(g, body, false) == Some(body) <==>
            (!EnvelopeShaped(body) || (body[0] == 1 && g.Gunzip(body[HEADER..]) == Some(body)))
  {
  }

  /** Of the envelopes a request may come in, plain ones give up their payload, compressed ones what it inflates to within the
      bound, and anything with other flags is taken as it is. */
  lemma {:induction false} EnvelopeUnwraps(g: Gzip, flags: Byte, payload: Bytes)
    requires |payload| <= MAX_UINT32
    ensures var body := Envelope(flags, payload);
            UnwrapRequest(g, body, false) ==
            if flags == 0 then Some(payload)
            else if flags != 1 then Some(body)
            else if g.inflate(payload).Some? && |g.inflate(payload).value| <= 16_777_216 then g.inflate(payload)
            else None
  {
    var body := Envelope(flags, payload);
    Be32RoundTrip(|payload|);
    assert body[1..5] == Be32(|payload|) && body[HEADER..] == payload;
  }

  /** On the wire: a message that is not compressed, or empty, goes as it is behind flags 0; the end of a stream is an empty JSON
      object behind flags 2. */
  lemma {:induction false} WireBytes(g: Gzip, message: Bytes, compress: bool)
    requires |message| < 256 && (!compress || message == [])
    ensures WrapEnvelope(g, message, compress) == Some([0, 0, 0, 0, |message|] + message)
    ensures EndOfStreamEnvelope() == [2, 0, 0, 0, 2, 123, 125]
  {
    var n := |message|;
    assert n / 0x100_0000 == 0 && n / 0x1_0000 == 0 && n / 0x100 == 0;
    assert Be32(n) == [0, 0, 0, n] && Be32(2) == [0, 0, 0, 2];
    assert [0] + Be32(n) + message == [0, 0, 0, 0, n] + message;
    assert [2] + Be32(2) + TRAILER == [2, 0, 0, 0, 2, 123, 125];
  }

  /** A compressed message goes behind flags 1. */
  lemma {:induction false} CompressedBytes(g: Gzip, message: Bytes)
    requires message != [] && |g.deflate(message)| <= MAX_UINT32
    ensures var wire := WrapEnvelope(g, message, true);
            wire.Some? && wire.value[0] == 1 && wire.value[HEADER..] == g.deflate(message)
            && ReadBe32(wire.value[1..5]) == |g.deflate(message)|
  {
    var wire := WrapEnvelope(g, message, true).value;
    Be32RoundTrip(|g.deflate(message)|);
    assert wire[1..5] == Be32(|g.deflate(message)|);
  }

  /** Five zero bytes are taken for an empty message, and lost. */
  lemma RawBodyCanBeLost(g: Gzip)
    ensures UnwrapRequest(g, [0, 0, 0, 0, 0], false) == Some([])
  {
    var body: Bytes := [0, 0, 0, 0, 0];
    assert ReadBe32(body[1..5]) == 0 by {
      assert body[1..5] == [0, 0, 0, 0];
    }
    assert body[HEADER..] == [];
  }

  // ------------------------------------------------------------------
  // Whatever a server may send
  // ------------------------------------------------------------------

  /** A frame as sent: any flags, and the bytes behind the length. */
  datatype Sent = Sent(flags: Byte, body: Bytes)

  predicate Sendable(fs: seq<Sent>) {
    forall f :: f in fs ==> |f.body| <= MAX_UINT32
  }

  function Encoded(fs: seq<Sent>): Bytes
    requires Sendable(fs)
  {
    if fs == [] then [] else Envelope(fs[0].flags, fs[0].body) + Encoded(fs[1..])
  }

  /** Bit 0 says compressed, bit 1 says end of stream, in every combination; the other bits are handed on. */
  function Meant(g: Gzip, f: Sent): Frame {
    var inflated := if g.inflate(f.body).Some? then g.inflate(f.body).value else [];
    Frame(f.flags, f.flags % 4 == 2 || f.flags % 4 == 3, if f.flags % 4 == 1 || f.flags % 4 == 3 then inflated else f.body)
  }

  /** Why a frame cannot be read: 16 MiB is too much for the body as for what it inflates to. */
  function Fault(g: Gzip, f: Sent): Option<FrameError> {
    if |f.body| > 16_777_216 then Some(FrameTooLarge(|f.body|))
    else if f.flags % 4 != 1 && f.flags % 4 != 3 then None
    else if g.inflate(f.body).None? || |g.inflate(f.body).value| > 16_777_216 then Some(DecompressionFailed)
    else None
  }

  lemma {:induction false} OneFrameReads(g: Gzip, f: Sent, rest: Bytes)
    requires |f.body| <= MAX_UINT32
    ensures FrontOf(g, Envelope(f.flags, f.body) + rest) ==
            if Fault(g, f).Some? then Refused(Fault(g, f).value) else Ready(Meant(g, f), HEADER + |f.body|)
  {
    var buf := Envelope(f.flags, f.body) + rest;
    Be32RoundTrip(|f.body|);
    assert buf[1..5] == Be32(|f.body|) && buf[HEADER..HEADER + |f.body|] == f.body;
  }

  /** What there is to read in a list of frames: up to the first one that cannot be read, which is left in front. */
  function Readable(g: Gzip, fs: seq<Sent>): Parsed
    requires Sendable(fs)
  {
    if fs == [] then Parsed([], [], None)
    else if Fault(g, fs[0]).Some? then Parsed([], Encoded(fs), Fault(g, fs[0]))
    else Readable(g, fs[1..]).After([Meant(g, fs[0])])
  }

  /** Any list of frames, compressed trailers and unknown flags included, reads back frame by frame. */
  lemma {:induction false} AnyStreamReads(g: Gzip, fs: seq<Sent>)
    requires Sendable(fs)
    ensures Parse(g, Encoded(fs)) == Readable(g, fs)
    decreases |fs|
  {
    if fs != [] {
      var f, rest := fs[0], Encoded(fs[1..]);
      OneFrameReads(g, f, rest);
      AnyStreamReads(g, fs[1..]);
      FrameIsTaken(f, rest);
    }
  }

  lemma FrameIsTaken(f: Sent, rest: Bytes)
    requires |f.body| <= MAX_UINT32
    ensures (Envelope(f.flags, f.body) + rest)[HEADER + |f.body|..] == rest
  {
  }
}
