/**
  The streaming body reader (monitor-v2/api_bridge/grpc_web.py): bytes arrive from
  a socket in arbitrary pieces, are de-chunked (section 7.1 of RFC 9112) and cut
  into length-prefixed frames. The incremental reader is proved against a decoder
  that sees the whole input at once.
  */
module GrpcWeb {
  import opened Prelude

  type Byte = x: int | 0 <= x < 256

  const CR: Byte := 13
  const LF: Byte := 10
  const SEMICOLON: Byte := 59
  const TRAILER := 128

  // ---------------------------------------------------------------- the one-shot decoder

  /** How a body ends: cleanly, or with a transport error once its bytes are used up. */
  datatype End = Clean | Broken
  datatype Body = Body(bytes: seq<Byte>, end: End)

  function Before(prefix: seq<Byte>, b: Body): Body { Body(prefix + b.bytes, b.end) }

  /** The position of the first CRLF. */
  function FindCrlf(raw: seq<Byte>): (r: Option<nat>)
    ensures r.Some? ==> r.value + 2 <= |raw| && raw[r.value] == CR && raw[r.value + 1] == LF
  {
    if |raw| < 2 then None
    else if raw[0] == CR && raw[1] == LF then Some(0)
    else match FindCrlf(raw[1..]) case Some(i) => Some(i + 1) case None => None
  }

  function HexDigit(b: Byte): Option<nat> {
    if 48 <= b <= 57 then Some(b - 48)
    else if 97 <= b <= 102 then Some(b - 87)
    else if 65 <= b <= 70 then Some(b - 55)
    else None
  }

  /** The value of a run of hexadecimal digits. */
  function Hex(digits: seq<Byte>): Option<nat> {
    if digits == [] then Some(0)
    else
      var n := |digits| - 1;
      match (Hex(digits[..n]), HexDigit(digits[n]))
      case (Some(high), Some(low)) => Some(16 * high + low)
      case _ => None
  }

  function UpToSemicolon(line: seq<Byte>): seq<Byte> {
    if line == [] || line[0] == SEMICOLON then [] else [line[0]] + UpToSemicolon(line[1..])
  }

  /** A chunk header line: a hexadecimal size, then extensions nobody reads. */
  function ChunkSize(line: seq<Byte>): Option<nat> {
    var digits := UpToSemicolon(line);
    if digits == [] then None else Hex(digits)
  }

  /**
    The rest of a chunked body, from any point inside it. `left` is what remains
    of the current chunk (nothing: a header is due); `tail` says its closing CRLF
    is still to come.
    */
  function Dechunk(left: Option<nat>, tail: bool, raw: seq<Byte>): Body
    decreases |raw|, if left.None? then 0 else 1
  {
    match left
    case None =>
      (match FindCrlf(raw)
       case None => Body([], Broken)
       case Some(i) =>
         match ChunkSize(raw[..i])
         case None => Body([], Broken)
         case Some(size) => Dechunk(Some(size), false, raw[i + 2..]))
    case Some(n) =>
      if n == 0 then
        if !tail then Body([], Clean)
        else if |raw| < 2 || raw[0] != CR || raw[1] != LF then Body([], Broken)
        else Dechunk(None, false, raw[2..])
      else if |raw| < n then Body(raw, Broken)
      else Before(raw[..n], Dechunk(Some(0), true, raw[n..]))
  }

  datatype Frame = Frame(flags: Byte, payload: seq<Byte>)

  function Length(header: seq<Byte>): nat
    requires |header| == 5
  {
    ((header[1] as int * 256 + header[2]) * 256 + header[3]) * 256 + header[4]
  }

  /** How a stream of frames ends. */
  datatype Verdict = EndOfStream | StreamError | TrailerFrame(payload: seq<Byte>) | UnknownFlags(flags: Byte)

  datatype Parsed = Parsed(frames: seq<Frame>, verdict: Verdict)

  predicate HasFrame(b: Body) {
    |b.bytes| >= 5 && |b.bytes| >= 5 + Length(b.bytes[..5])
  }

  function FirstFrame(b: Body): Frame
    requires HasFrame(b)
  {
    Frame(b.bytes[0], b.bytes[5..5 + Length(b.bytes[..5])])
  }

  function AfterFrame(b: Body): Body
    requires HasFrame(b)
  {
    b.(bytes := b.bytes[5 + Length(b.bytes[..5])..])
  }

  /**
    Why there is no further frame. A body that stops cleanly between a frame's header and payload
    counts as its end.
    */
  function NoFrame(b: Body): Verdict
    requires !HasFrame(b)
  {
    if b.end == Broken then StreamError
    else if b.bytes == [] || |b.bytes| == 5 then EndOfStream
    else StreamError
  }

  /** All data frames of a body, up to its trailer, its first unknown frame, or its end. */
  function Parse(b: Body): Parsed
    decreases |b.bytes|
  {
    if !HasFrame(b) then Parsed([], NoFrame(b))
    else
      var f := FirstFrame(b);
      if f.flags >= TRAILER then Parsed([], TrailerFrame(f.payload))
      else if f.flags != 0 then Parsed([], UnknownFlags(f.flags))
      else
        var rest := Parse(AfterFrame(b));
        Parsed([f] + rest.frames, rest.verdict)
  }

  // ---------------------------------------------------------------- lemmas about cutting the input

  lemma {:induction false} FindIsStable(raw: seq<Byte>, more: seq<Byte>)
    requires FindCrlf(raw).Some?
    ensures FindCrlf(raw + more) == FindCrlf(raw)
  {
    if raw[0] == CR && raw[1] == LF {
    } else {
      assert (raw + more)[1..] == raw[1..] + more;
      FindIsStable(raw[1..], more);
    }
  }

  lemma CutTwice(raw: seq<Byte>, t: nat, n: nat, rest: seq<Byte>)
    requires t <= n <= |raw|
    ensures raw[t..][..n - t] == raw[t..n] && raw[t..][n - t..] == raw[n..]
    ensures raw[..n] + rest == raw[..t] + (raw[t..n] + rest)
  {
    assert raw[..n] == raw[..t] + raw[t..n];
  }

  /** Delivering part of a chunk early leaves the rest of the body as it was. */
  lemma DechunkTakes(n: nat, raw: seq<Byte>, t: nat)
    requires 1 <= t <= n && t <= |raw|
    ensures Dechunk(Some(n), false, raw) == Before(raw[..t], Dechunk(Some(n - t), t == n, raw[t..]))
  {
    if |raw| < n {
      assert raw == raw[..t] + raw[t..];
    } else if t < n {
      CutTwice(raw, t, n, Dechunk(Some(0), true, raw[n..]).bytes);
    }
  }

  lemma ArrivedTakes(n: nat, raw: seq<Byte>, more: seq<Byte>, t: nat)
    requires 1 <= t <= n && t <= |raw|
    ensures Dechunk(Some(n), false, raw + more) == Before(raw[..t], Dechunk(Some(n - t), t == n, raw[t..] + more))
  {
    DechunkTakes(n, raw + more, t);
    assert (raw + more)[..t] == raw[..t] && (raw + more)[t..] == raw[t..] + more;
  }

  lemma BeforeGrows(a: seq<Byte>, x: Body, y: Body)
    requires x.bytes <= y.bytes
    ensures Before(a, x).bytes <= Before(a, y).bytes
  {
  }

  /** What comes later only adds to what has been decoded. */
  lemma {:induction false} DechunkGrows(left: Option<nat>, tail: bool, raw: seq<Byte>, more: seq<Byte>)
    ensures Dechunk(left, tail, raw).bytes <= Dechunk(left, tail, raw + more).bytes
    decreases |raw|, if left.None? then 0 else 1
  {
    var all := raw + more;
    if left.None? {
      if FindCrlf(raw).Some? {
        var i := FindCrlf(raw).value;
        FindIsStable(raw, more);
        assert all[..i] == raw[..i] && all[i + 2..] == raw[i + 2..] + more;
        if ChunkSize(raw[..i]).Some? { DechunkGrows(ChunkSize(raw[..i]), false, raw[i + 2..], more); }
      }
    } else if left.value == 0 {
      if tail && 2 <= |raw| && raw[0] == CR && raw[1] == LF {
        assert all[2..] == raw[2..] + more;
        DechunkGrows(None, false, raw[2..], more);
      }
    } else if left.value <= |raw| {
      var n := left.value;
      assert all[..n] == raw[..n] && all[n..] == raw[n..] + more;
      DechunkGrows(Some(0), true, raw[n..], more);
      BeforeGrows(raw[..n], Dechunk(Some(0), true, raw[n..]), Dechunk(Some(0), true, all[n..]));
    }
  }

  lemma BeforeTwice(a: seq<Byte>, b: seq<Byte>, body: Body)
    ensures Before(a, Before(b, body)) == Before(a + b, body)
  {
    assert a + (b + body.bytes) == (a + b) + body.bytes;
  }

  /** A parse result with frames read earlier in front. */
  function After(frames: seq<Frame>, p: Parsed): Parsed { Parsed(frames + p.frames, p.verdict) }

  lemma ReadOneMore(frames: seq<Frame>, b: Body)
    requires HasFrame(b) && FirstFrame(b).flags == 0
    ensures After(frames, Parse(b)) == After(frames + [FirstFrame(b)], Parse(AfterFrame(b)))
  {
    var first, rest := [FirstFrame(b)], Parse(AfterFrame(b)).frames;
    assert frames + (first + rest) == (frames + first) + rest;
  }

  lemma NothingMore(frames: seq<Frame>, v: Verdict)
    ensures After(frames, Parsed([], v)) == Parsed(frames, v)
  {
    assert frames + [] == frames;
  }

  /** A body that starts with a header and its whole payload. */
  lemma StartsWithFrame(whole: Body, h: seq<Byte>, p: seq<Byte>, rest: Body)
    requires |h| == 5 && |p| == Length(h) && whole == Before(h, Before(p, rest))
    ensures HasFrame(whole) && FirstFrame(whole) == Frame(h[0], p) && AfterFrame(whole) == rest
  {
    assert whole.bytes[..5] == h;
    assert whole.bytes[5..5 + |p|] == p && whole.bytes[5 + |p|..] == rest.bytes;
  }

  /** A body that starts with a header and lacks some of its payload. */
  lemma LacksPayload(whole: Body, h: seq<Byte>, after: Body)
    requires |h| == 5 && |after.bytes| < Length(h) && whole == Before(h, after)
    ensures !HasFrame(whole)
    ensures after == Body([], Clean) ==> NoFrame(whole) == EndOfStream
    ensures after.end == Broken || after.bytes != [] ==> NoFrame(whole) == StreamError
    ensures |after.bytes| < |whole.bytes|
  {
    assert whole.bytes[..5] == h;
  }

  // ---------------------------------------------------------------- what has been decoded when

  /** The rest of a body, chunked or plain, from any point inside it. */
  function Decoded(chunked: bool, left: Option<nat>, tail: bool, raw: seq<Byte>): Body {
    if chunked then Dechunk(left, tail, raw) else Body(raw, Clean)
  }

  lemma DecodedGrows(chunked: bool, left: Option<nat>, tail: bool, raw: seq<Byte>, more: seq<Byte>)
    ensures Decoded(chunked, left, tail, raw).bytes <= Decoded(chunked, left, tail, raw + more).bytes
  {
    DechunkGrows(left, tail, raw, more);
  }

  /** Whatever still comes: decoding from the start is what has been decoded, then decoding on from here. */
  ghost predicate Resumes(chunked: bool, arrived: seq<Byte>, decoded: seq<Byte>, left: Option<nat>, tail: bool,
                          raw: seq<Byte>) {
    forall more :: ResumesWith(chunked, arrived, decoded, left, tail, raw, more)
  }

  predicate ResumesWith(chunked: bool, arrived: seq<Byte>, decoded: seq<Byte>, left: Option<nat>, tail: bool,
                        raw: seq<Byte>, more: seq<Byte>) {
    Decoded(chunked, None, false, arrived + more) == Before(decoded, Decoded(chunked, left, tail, raw + more))
  }

  lemma ResumesFromStart(chunked: bool, raw: seq<Byte>)
    ensures Resumes(chunked, raw, [], None, false, raw)
  {
    forall more ensures ResumesWith(chunked, raw, [], None, false, raw, more) {
      var body := Decoded(chunked, None, false, raw + more);
      assert [] + body.bytes == body.bytes;
    }
  }

  lemma ResumesAfterRead(chunked: bool, arrived: seq<Byte>, decoded: seq<Byte>, left: Option<nat>, tail: bool,
                         raw: seq<Byte>, bytes: seq<Byte>)
    requires Resumes(chunked, arrived, decoded, left, tail, raw)
    ensures Resumes(chunked, arrived + bytes, decoded, left, tail, raw + bytes)
  {
    forall more ensures ResumesWith(chunked, arrived + bytes, decoded, left, tail, raw + bytes, more) {
      assert ResumesWith(chunked, arrived, decoded, left, tail, raw, bytes + more);
      Assoc(arrived, bytes, more);
      Assoc(raw, bytes, more);
    }
  }

  lemma LineThenMore(raw: seq<Byte>, i: nat, size: nat, more: seq<Byte>)
    requires FindCrlf(raw) == Some(i) && ChunkSize(raw[..i]) == Some(size)
    ensures Dechunk(None, false, raw + more) == Dechunk(Some(size), false, raw[i + 2..] + more)
  {
    FindIsStable(raw, more);
    assert (raw + more)[..i] == raw[..i] && (raw + more)[i + 2..] == raw[i + 2..] + more;
  }

  lemma ResumesAfterLine(arrived: seq<Byte>, decoded: seq<Byte>, raw: seq<Byte>, i: nat, size: nat)
    requires Resumes(true, arrived, decoded, None, false, raw) && FindCrlf(raw) == Some(i) &&
      ChunkSize(raw[..i]) == Some(size)
    ensures Resumes(true, arrived, decoded, Some(size), false, raw[i + 2..])
  {
    var rest := raw[i + 2..];
    forall more ensures ResumesWith(true, arrived, decoded, Some(size), false, rest, more) {
      assert ResumesWith(true, arrived, decoded, None, false, raw, more);
      LineThenMore(raw, i, size, more);
    }
  }

  lemma ResumesAfterTail(arrived: seq<Byte>, decoded: seq<Byte>, raw: seq<Byte>)
    requires Resumes(true, arrived, decoded, Some(0), true, raw) && 2 <= |raw| && raw[0] == CR && raw[1] == LF
    ensures Resumes(true, arrived, decoded, None, false, raw[2..])
  {
    forall more ensures ResumesWith(true, arrived, decoded, None, false, raw[2..], more) {
      assert ResumesWith(true, arrived, decoded, Some(0), true, raw, more);
      assert (raw + more)[2..] == raw[2..] + more;
    }
  }

  lemma ResumesAfterTake(arrived: seq<Byte>, decoded: seq<Byte>, n: nat, raw: seq<Byte>, t: nat)
    requires Resumes(true, arrived, decoded, Some(n), false, raw) && 1 <= t <= n && t <= |raw|
    ensures Resumes(true, arrived, decoded + raw[..t], Some(n - t), t == n, raw[t..])
  {
    var all, left, tail, rest := decoded + raw[..t], Some(n - t), t == n, raw[t..];
    forall more ensures ResumesWith(true, arrived, all, left, tail, rest, more) {
      assert ResumesWith(true, arrived, decoded, Some(n), false, raw, more);
      ArrivedTakes(n, raw, more, t);
      BeforeTwice(decoded, raw[..t], Dechunk(Some(n - t), t == n, raw[t..] + more));
    }
  }

  lemma ResumesPlain(arrived: seq<Byte>, decoded: seq<Byte>, raw: seq<Byte>, left: Option<nat>, tail: bool)
    requires Resumes(false, arrived, decoded, left, tail, raw)
    ensures Resumes(false, arrived, decoded + raw, left, tail, [])
  {
    forall more ensures ResumesWith(false, arrived, decoded + raw, left, tail, [], more) {
      assert ResumesWith(false, arrived, decoded, left, tail, raw, more);
      assert decoded + (raw + more) == (decoded + raw) + ([] + more);
    }
  }

  /** When nothing more can be decoded from what is at hand, all that arrived has been decoded. */
  lemma AllDecoded(chunked: bool, arrived: seq<Byte>, decoded: seq<Byte>, left: Option<nat>, tail: bool, raw: seq<Byte>)
    requires Resumes(chunked, arrived, decoded, left, tail, raw) && Decoded(chunked, left, tail, raw).bytes == []
    ensures Decoded(chunked, None, false, arrived).bytes == decoded
  {
    assert ResumesWith(chunked, arrived, decoded, left, tail, raw, []);
    assert arrived + [] == arrived && raw + [] == raw;
  }

  /** Body bytes that stop inside the payload of a frame. */
  predicate InPayload(body: seq<Byte>)
    decreases |body|
  {
    |body| >= 5 && (|body| < 5 + Length(body[..5]) || InPayload(body[5 + Length(body[..5])..]))
  }

  /** Body bytes that stop between two frames. */
  predicate BetweenFrames(body: seq<Byte>)
    decreases |body|
  {
    body == [] || (|body| >= 5 && |body| >= 5 + Length(body[..5]) && BetweenFrames(body[5 + Length(body[..5])..]))
  }

  lemma {:induction false} BetweenThenIn(a: seq<Byte>, b: seq<Byte>)
    requires BetweenFrames(a)
    ensures InPayload(a + b) <==> InPayload(b)
    ensures BetweenFrames(a + b) <==> BetweenFrames(b)
    decreases |a|
  {
    if a == [] {
      assert a + b == b;
    } else {
      var n := 5 + Length(a[..5]);
      assert (a + b)[..5] == a[..5] && (a + b)[n..] == a[n..] + b;
      BetweenThenIn(a[n..], b);
    }
  }

  lemma {:induction false} NotBoth(body: seq<Byte>)
    requires BetweenFrames(body)
    ensures !InPayload(body)
    decreases |body|
  {
    if body != [] { NotBoth(body[5 + Length(body[..5])..]); }
  }

  /** How many body bytes these frames take up. */
  function Span(frames: seq<Frame>): nat {
    if frames == [] then 0 else Span(frames[..|frames| - 1]) + 5 + |frames[|frames| - 1].payload|
  }

  lemma {:induction false} SpanConcat(a: seq<Frame>, b: seq<Frame>)
    ensures Span(a + b) == Span(a) + Span(b)
  {
    if b == [] {
      assert a + b == a;
    } else {
      var n := |b| - 1;
      assert (a + b)[..|a| + n] == a + b[..n];
      SpanConcat(a, b[..n]);
    }
  }

  lemma SpanOneMore(frames: seq<Frame>, f: Frame)
    ensures Span(frames + [f]) == Span(frames) + 5 + |f.payload|
  {
    assert (frames + [f])[..|frames|] == frames;
  }

  /** The body bytes the end of a stream takes up. */
  function Spent(v: Verdict): nat { if v.TrailerFrame? then 5 + |v.payload| else 0 }

  /** A body of whole data frames, with or without a trailer frame after them, and nothing else. */
  predicate Complete(b: Body) {
    var p := Parse(b);
    (p.verdict.EndOfStream? || p.verdict.TrailerFrame?) && Span(p.frames) + Spent(p.verdict) == |b.bytes|
  }

  lemma OneFrame(h: seq<Byte>, p: seq<Byte>)
    requires |h| == 5
    ensures |p| < Length(h) ==> InPayload(h + p)
    ensures |p| == Length(h) ==> BetweenFrames(h + p)
  {
    assert (h + p)[..5] == h && (h + p)[5..] == p;
    if |p| == Length(h) { assert (h + p)[5 + Length(h)..] == []; }
  }

  lemma FrameExtends(handed: seq<Byte>, h: seq<Byte>, p: seq<Byte>)
    requires |h| == 5 && |p| == Length(h)
    ensures BetweenFrames(handed) ==> BetweenFrames((handed + h) + p)
  {
    OneFrame(h, p);
    Assoc(handed, h, p);
    if BetweenFrames(handed) { BetweenThenIn(handed, h + p); }
  }

  // ---------------------------------------------------------------- the incremental reader

  /** What one read of the socket brings; when nothing is left, the peer has closed. */
  datatype SocketRead = Data(bytes: seq<Byte>) | Idle

  function Incoming(script: seq<SocketRead>): seq<Byte> {
    if script == [] then []
    else (if script[0].Data? then script[0].bytes else []) + Incoming(script[1..])
  }

  lemma {:induction false} IncomingSnoc(script: seq<SocketRead>, k: nat)
    requires k < |script|
    ensures Incoming(script[..k + 1]) == Incoming(script[..k]) + if script[k].Data? then script[k].bytes else []
  {
    if k == 0 {
      assert script[..1][1..] == [] && script[..0] == [];
    } else {
      var rest := script[1..];
      IncomingSnoc(rest, k - 1);
      assert script[..k + 1][1..] == rest[..k] && script[..k][1..] == rest[..k - 1];
      var first := if script[0].Data? then script[0].bytes else [];
      var last := if script[k].Data? then script[k].bytes else [];
      Assoc(first, Incoming(rest[..k - 1]), last);
    }
  }

  lemma {:induction false} IncomingConcat(a: seq<SocketRead>, b: seq<SocketRead>)
    ensures Incoming(a + b) == Incoming(a) + Incoming(b)
  {
    if a == [] {
      assert a + b == b;
    } else {
      assert (a + b)[1..] == a[1..] + b;
      IncomingConcat(a[1..], b);
      Assoc(if a[0].Data? then a[0].bytes else [], Incoming(a[1..]), Incoming(b));
    }
  }

  /** The socket goes idle at this read while the body bytes that have arrived stop inside a frame's payload. */
  predicate IdleInPayload(chunked: bool, first: seq<Byte>, script: seq<SocketRead>, k: nat) {
    k < |script| && script[k].Idle? && InPayload(Decoded(chunked, None, false, first + Incoming(script[..k])).bytes)
  }

  datatype Filled = Filled | FillIdle | FillEof
  datatype Pumped = Progress | Ended | PumpIdle | PumpError
  datatype Turn = Moved | Stop(r: Pumped)
  datatype Exact = Exactly(bytes: seq<Byte>) | ExactIdle | ExactEof | ExactError
  datatype FrameRead = GotFrame(frame: Frame) | FrameIdle(headerLost: bool) | FrameEof | FrameError

  /** A connection: how its body is encoded, what came with the response head, and its reads. */
  datatype Connection = Connection(chunked: bool, first: seq<Byte>, origin: seq<SocketRead>)

  /** Every read from number `n` to before `m` brings data. */
  ghost predicate OnlyData(origin: seq<SocketRead>, n: int, m: int) {
    forall k :: n <= k < m ==> IsData(origin, k)
  }

  predicate IsData(origin: seq<SocketRead>, k: int) {
    0 <= k < |origin| && origin[k].Data?
  }

  lemma OnlyDataJoins(origin: seq<SocketRead>, a: int, b: int, c: int)
    requires OnlyData(origin, a, b) && OnlyData(origin, b, c)
    ensures OnlyData(origin, a, c)
  {
  }

  /** None of the first `n` reads paused inside a payload. */
  ghost predicate NoneLost(c: Connection, n: int) {
    forall k: nat :: k < n ==> !IdleInPayload(c.chunked, c.first, c.origin, k)
  }

  lemma DataLosesNothing(c: Connection, at: int, at': int)
    requires NoneLost(c, at) && OnlyData(c.origin, at, at')
    ensures NoneLost(c, at')
  {
    forall k: nat | k < at' ensures !IdleInPayload(c.chunked, c.first, c.origin, k) {
      assert at <= k ==> IsData(c.origin, k);
    }
  }

  lemma NoneLostAfter(c: Connection, n: nat)
    requires NoneLost(c, n) && !IdleInPayload(c.chunked, c.first, c.origin, n)
    ensures NoneLost(c, n + 1)
  {
  }

  /**
    Where the frame loop stands after `at` reads: in step with the body, having lost
    nothing, or five body bytes short for every header lost.
    */
  ghost predicate InTrack(c: Connection, handed: seq<Byte>, at: int, whole: Body, body: Body, frames: seq<Frame>,
                          headerLost: bool) {
    if headerLost then
      && (exists k: nat :: IdleInPayload(c.chunked, c.first, c.origin, k))
      && Span(frames) + |whole.bytes| + 5 <= |body.bytes|
    else
      && BetweenFrames(handed) && NoneLost(c, at)
      && Parse(body) == After(frames, Parse(whole))
      && Span(frames) + |whole.bytes| == |body.bytes|
  }

  lemma TrackStarts(c: Connection, body: Body)
    ensures InTrack(c, [], 0, body, body, [], false)
  {
    assert [] + Parse(body).frames == Parse(body).frames;
  }

  lemma TrackFrame(c: Connection, handed: seq<Byte>, at: int, whole: Body, body: Body, frames: seq<Frame>,
                   headerLost: bool, handed': seq<Byte>, at': int)
    requires InTrack(c, handed, at, whole, body, frames, headerLost) && HasFrame(whole) && FirstFrame(whole).flags == 0
    requires BetweenFrames(handed) ==> BetweenFrames(handed')
    requires OnlyData(c.origin, at, at')
    ensures InTrack(c, handed', at', AfterFrame(whole), body, frames + [FirstFrame(whole)], headerLost)
  {
    hide NoneLost, IdleInPayload;
    if !headerLost { DataLosesNothing(c, at, at'); }
    ReadOneMore(frames, whole);
    SpanOneMore(frames, FirstFrame(whole));
  }

  lemma TrackPause(c: Connection, handed: seq<Byte>, at: int, whole: Body, body: Body, frames: seq<Frame>,
                   headerLost: bool, lost: bool, handed': seq<Byte>, at': int, whole': Body)
    requires InTrack(c, handed, at, whole, body, frames, headerLost)
    requires OnlyData(c.origin, at, at' - 1)
    requires lost ==> |whole'.bytes| + 5 == |whole.bytes|
    requires !lost ==> whole' == whole && handed' == handed
    requires BetweenFrames(handed) ==> 0 < at' && (lost <==> IdleInPayload(c.chunked, c.first, c.origin, at' - 1))
    ensures InTrack(c, handed', at', whole', body, frames, headerLost || lost)
  {
    hide NoneLost, IdleInPayload;
    if !headerLost {
      DataLosesNothing(c, at, at' - 1);
      if !lost { NoneLostAfter(c, at' - 1); }
    }
  }

  /** The end of a stream is part of its body. */
  lemma SpentFits(b: Body)
    ensures Parse(b).frames == [] ==> Spent(Parse(b).verdict) <= |b.bytes|
  {
  }

  /** What the next frame, or its absence, says about parsing. */
  lemma ParseStep(b: Body)
    ensures !HasFrame(b) ==> Parse(b) == Parsed([], NoFrame(b))
    ensures HasFrame(b) && FirstFrame(b).flags >= TRAILER ==>
      Parse(b) == Parsed([], TrailerFrame(FirstFrame(b).payload))
    ensures HasFrame(b) && 0 < FirstFrame(b).flags < TRAILER ==>
      Parse(b) == Parsed([], UnknownFlags(FirstFrame(b).flags))
  {
  }

  ghost predicate InStep(origin: seq<SocketRead>, first: seq<Byte>, script: seq<SocketRead>, arrived: seq<Byte>) {
    && |script| <= |origin| && script == origin[|origin| - |script|..]
    && arrived == first + Incoming(origin[..|origin| - |script|])
  }

  lemma InStepNext(origin: seq<SocketRead>, first: seq<Byte>, script: seq<SocketRead>, arrived: seq<Byte>)
    requires InStep(origin, first, script, arrived) && script != []
    ensures InStep(origin, first, script[1..], arrived + if script[0].Data? then script[0].bytes else [])
    ensures origin[|origin| - |script|] == script[0]
  {
    IncomingSnoc(origin, |origin| - |script|);
  }

  class Stream {
    const chunked: bool
    var script: seq<SocketRead>
    var raw: seq<Byte>
    var buffer: seq<Byte>
    var left: Option<nat>
    var tail: bool
    /** History: how reading began, the bytes that have arrived, and the body bytes handed out. */
    ghost const first: seq<Byte>
    ghost const origin: seq<SocketRead>
    ghost var arrived: seq<Byte>
    ghost var handed: seq<Byte>

    ghost predicate Valid()
      reads this
    {
      (tail ==> left == Some(0)) && forall i :: 0 <= i < |script| && script[i].Data? ==> script[i].bytes != []
    }

    /** The bytes at hand are those of the socket's first reads, and decoding can go on from here. */
    ghost predicate Synced()
      reads this
    {
      && InStep(origin, first, script, arrived)
      && Resumes(chunked, arrived, handed + buffer, left, tail, raw)
    }

    /** The last read was idle, and everything that had arrived is decoded. */
    ghost predicate PausedHere()
      reads this
    {
      |script| < |origin| && origin[|origin| - |script| - 1].Idle? && Decoded(chunked, left, tail, raw).bytes == []
    }

    /** How many reads there have been. */
    ghost function Position(): int
      reads this`script
    {
      |origin| - |script|
    }

    /** Every read since number `n` brought data, but for the last one if it was idle. */
    ghost predicate ReadsSince(n: int, idle: bool)
      reads this`script
    {
      OnlyData(origin, n, if idle then Position() - 1 else Position())
    }

    /** Undecoded input: what has been read and what the socket will still deliver. */
    ghost function Input(): seq<Byte>
      reads this
    {
      raw + Incoming(script)
    }

    /** The body bytes not yet handed to the frame reader, decoded in one go. */
    ghost function Remaining(): Body
      reads this
    {
      if chunked then Dechunk(left, tail, Input()) else Body(Input(), Clean)
    }

    /** The body bytes no frame has consumed yet. */
    ghost function Whole(): Body
      reads this
    {
      Before(buffer, Remaining())
    }

    constructor (chunked: bool, raw: seq<Byte>, script: seq<SocketRead>)
      requires forall i :: 0 <= i < |script| && script[i].Data? ==> script[i].bytes != []
      ensures Valid()
      ensures var input := raw + Incoming(script);
        Whole() == if chunked then Dechunk(None, false, input) else Body(input, Clean)
      ensures Synced() && handed == [] && first == raw && this.script == origin == script && this.chunked == chunked
    {
      this.chunked, this.raw, this.script := chunked, raw, script;
      buffer, left, tail := [], None, false;
      first, origin, arrived, handed := raw, script, raw, [];
      assert raw + Incoming(script[..0]) == raw;
      ResumesFromStart(chunked, raw);
    }

    /** This pause fell inside a payload. */
    ghost predicate LostHere()
      reads this
    {
      |script| < |origin| && IdleInPayload(chunked, first, origin, |origin| - |script| - 1)
    }

    method FillRaw() returns (r: Filled)
      requires Valid() && Synced()
      modifies this`raw, this`script, this`arrived
      ensures Valid() && Input() == old(Input()) && old(raw) <= raw && Synced()
      ensures r == FillEof ==> raw == old(raw) && Incoming(script) == [] && script == []
      ensures r == FillIdle ==> raw == old(raw) && |script| < |origin| && origin[|origin| - |script| - 1].Idle?
      ensures ReadsSince(old(Position()), r == FillIdle)
      ensures r == Filled ==> |raw| > |old(raw)|
      ensures r != FillEof ==> |script| < |old(script)|
    {
      if script == [] { return FillEof; }
      var next := script[0];
      ghost var later := Incoming(script[1..]);
      InStepNext(origin, first, script, arrived);
      script := script[1..];
      match next {
        case Idle => return FillIdle;
        case Data(bytes) =>
          assert raw + (bytes + later) == (raw + bytes) + later;
          ResumesAfterRead(chunked, arrived, handed + buffer, left, tail, raw, bytes);
          raw, arrived := raw + bytes, arrived + bytes;
          return Filled;
      }
    }

    /** `_pump`: moves one step of decoded body bytes into the buffer, reading as often as it must. */
    method Pump() returns (r: Pumped)
      requires Valid() && Synced()
      modifies this`raw, this`script, this`buffer, this`left, this`tail, this`arrived
      ensures Valid() && |script| <= old(|script|)
      ensures r == Progress || r == PumpIdle ==> Synced()
      ensures r == Progress ==> Whole() == old(Whole()) && |old(buffer)| < |buffer|
      ensures r == PumpIdle ==> Whole() == old(Whole()) && buffer == old(buffer)
      ensures r == PumpIdle ==> |script| < old(|script|) && PausedHere()
      ensures ReadsSince(old(Position()), r == PumpIdle)
      ensures r == Ended ==> buffer == old(buffer) && old(Remaining()) == Remaining() == Body([], Clean)
      ensures r == PumpError ==> buffer == old(buffer) && old(Remaining()) == Body([], Broken)
    {
      if chunked {
        r := PumpChunked();
        return;
      }
      r := PumpPlain();
    }

    method PumpPlain() returns (r: Pumped)
      requires Valid() && Synced() && !chunked
      modifies this`raw, this`script, this`buffer, this`arrived
      ensures Valid() && Synced() && |script| <= old(|script|)
      ensures r == Progress ==> Whole() == old(Whole()) && |old(buffer)| < |buffer|
      ensures r == PumpIdle ==> Whole() == old(Whole()) && buffer == old(buffer)
      ensures r == PumpIdle ==> |script| < old(|script|) && PausedHere()
      ensures ReadsSince(old(Position()), r == PumpIdle)
      ensures r == Ended ==> buffer == old(buffer) && old(Remaining()) == Remaining() == Body([], Clean)
      ensures r != PumpError
    {
      if raw == [] {
        var fill := FillRaw();
        if fill == FillIdle { return PumpIdle; }
        if fill == FillEof {
          assert Input() == [];
          return Ended;
        }
      }
      MovePlain();
      return Progress;
    }

    /** Without chunking everything read is body. */
    method MovePlain()
      requires Valid() && Synced() && !chunked && raw != []
      modifies this`raw, this`buffer
      ensures Valid() && Synced() && Whole() == old(Whole()) && |old(buffer)| < |buffer|
    {
      assert buffer + (raw + Incoming(script)) == (buffer + raw) + ([] + Incoming(script));
      ResumesPlain(arrived, handed + buffer, raw, left, tail);
      Assoc(handed, buffer, raw);
      buffer, raw := buffer + raw, [];
    }

    method PumpChunked() returns (r: Pumped)
      requires Valid() && Synced() && chunked
      modifies this`raw, this`script, this`buffer, this`left, this`tail, this`arrived
      ensures Valid() && |script| <= old(|script|)
      ensures r == Progress || r == PumpIdle ==> Synced()
      ensures r == Progress ==> Whole() == old(Whole()) && |old(buffer)| < |buffer|
      ensures r == PumpIdle ==> Whole() == old(Whole()) && buffer == old(buffer)
      ensures r == PumpIdle ==> |script| < old(|script|) && PausedHere()
      ensures ReadsSince(old(Position()), r == PumpIdle)
      ensures r == Ended ==> buffer == old(buffer) && old(Remaining()) == Remaining() == Body([], Clean)
      ensures r == PumpError ==> buffer == old(buffer) && old(Remaining()) == Body([], Broken)
    {
      ghost var target := Remaining();
      while true
        invariant Valid() && Synced() && |script| <= old(|script|) && buffer == old(buffer)
        invariant Remaining() == target && ReadsSince(old(Position()), false)
        decreases |Input()|, |script|
      {
        var step := Advance();
        if step.Stop? { return step.r; }
      }
    }

    /** One turn of the chunk loop: it reads on, strips framing, or stops with the outcome. */
    method Advance() returns (step: Turn)
      requires Valid() && Synced() && chunked
      modifies this`raw, this`script, this`buffer, this`left, this`tail, this`arrived
      ensures Valid() && |script| <= old(|script|)
      ensures step == Moved || step == Stop(Progress) || step == Stop(PumpIdle) ==> Synced()
      ensures step != Stop(Progress) ==> buffer == old(buffer)
      ensures step == Moved ==> Remaining() == old(Remaining())
      ensures step == Moved ==> |Input()| < |old(Input())| || (Input() == old(Input()) && |script| < old(|script|))
      ensures step == Stop(Progress) ==> Whole() == old(Whole()) && |old(buffer)| < |buffer|
      ensures step == Stop(PumpIdle) ==> Remaining() == old(Remaining()) && |script| < old(|script|) && PausedHere()
      ensures step == Stop(Ended) ==> old(Remaining()) == Remaining() == Body([], Clean)
      ensures step == Stop(PumpError) ==> old(Remaining()) == Body([], Broken)
      ensures ReadsSince(old(Position()), step == Stop(PumpIdle))
    {
      if left.None? {
        if FindCrlf(raw).None? {
          step := Refill();
        } else {
          var ok := ReadHeader();
          step := if ok then Moved else Stop(PumpError);
        }
      } else if left.value == 0 && !tail {
        raw := [];
        step := Stop(Ended);
      } else if left.value == 0 {
        step := StripTail();
      } else if raw == [] {
        step := Refill();
      } else {
        TakeChunk();
        step := Stop(Progress);
      }
    }

    /** More input is needed before anything can be decoded: the three places that read the socket. */
    method Refill() returns (step: Turn)
      requires Valid() && Synced() && chunked && Decoded(chunked, left, tail, raw) == Body([], Broken)
      modifies this`raw, this`script, this`arrived
      ensures Valid() && Synced() && |script| <= old(|script|) && Input() == old(Input())
      ensures step == Moved ==> |script| < old(|script|)
      ensures step.Stop? ==> step.r == PumpIdle || step.r == PumpError
      ensures step == Stop(PumpIdle) ==> |script| < old(|script|) && PausedHere()
      ensures step == Stop(PumpError) ==> Remaining() == Body([], Broken)
      ensures ReadsSince(old(Position()), step == Stop(PumpIdle))
    {
      var fill := FillRaw();
      match fill {
        case FillIdle => return Stop(PumpIdle);
        case FillEof =>
          assert Input() == raw;
          return Stop(PumpError);
        case Filled => return Moved;
      }
    }

    /** The CRLF that closes a chunk. */
    method StripTail() returns (step: Turn)
      requires Valid() && Synced() && chunked && left == Some(0) && tail
      modifies this`raw, this`script, this`left, this`tail, this`arrived
      ensures Valid() && Synced() && |script| <= old(|script|)
      ensures step == Moved ==> Remaining() == old(Remaining())
      ensures step == Moved ==> |Input()| < |old(Input())| || (Input() == old(Input()) && |script| < old(|script|))
      ensures step.Stop? ==> step.r == PumpIdle || step.r == PumpError
      ensures step == Stop(PumpIdle) ==> Remaining() == old(Remaining()) && |script| < old(|script|) && PausedHere()
      ensures step == Stop(PumpError) ==> old(Remaining()) == Body([], Broken)
      ensures ReadsSince(old(Position()), step == Stop(PumpIdle))
    {
      if |raw| < 2 {
        step := Refill();
        return;
      }
      if raw[0] != CR || raw[1] != LF { return Stop(PumpError); }
      assert Input()[2..] == raw[2..] + Incoming(script);
      ResumesAfterTail(arrived, handed + buffer, raw);
      raw, left, tail := raw[2..], None, false;
      return Moved;
    }

    /** A complete header line is there: it sizes the next chunk, or is refused. */
    method ReadHeader() returns (ok: bool)
      requires Valid() && Synced() && chunked && left.None? && FindCrlf(raw).Some?
      modifies this`raw, this`left, this`tail
      ensures Valid() && Synced()
      ensures ok ==> Remaining() == old(Remaining()) && |Input()| < |old(Input())|
      ensures !ok ==> old(Remaining()) == Body([], Broken)
    {
      var i := FindCrlf(raw).value;
      FindIsStable(raw, Incoming(script));
      assert Input()[..i] == raw[..i] && Input()[i + 2..] == raw[i + 2..] + Incoming(script);
      var size := ChunkSize(raw[..i]);
      if size.None? { return false; }
      ResumesAfterLine(arrived, handed + buffer, raw, i, size.value);
      raw, left, tail := raw[i + 2..], size, false;
      return true;
    }

    /** Delivers as much of the current chunk as has arrived. */
    method TakeChunk()
      requires Valid() && Synced() && chunked && raw != [] && left.Some? && left.value > 0
      modifies this`raw, this`buffer, this`left, this`tail
      ensures Valid() && Whole() == old(Whole()) && |buffer| > |old(buffer)|
      ensures Synced()
    {
      hide Dechunk, BetweenFrames, InPayload;
      var n := left.value;
      var take := if |raw| < n then |raw| else n;
      ArrivedTakes(n, raw, Incoming(script), take);
      BeforeTwice(buffer, raw[..take], Dechunk(Some(n - take), take == n, raw[take..] + Incoming(script)));
      ResumesAfterTake(arrived, handed + buffer, n, raw, take);
      Assoc(handed, buffer, raw[..take]);
      buffer := buffer + raw[..take];
      raw := raw[take..];
      left := Some(n - take);
      tail := n == take;
    }

    /** `_read_exact`: an idle socket leaves everything in place; a body too short ends or breaks the stream. */
    method ReadExact(count: nat) returns (r: Exact)
      requires Valid() && Synced()
      modifies this`raw, this`script, this`buffer, this`left, this`tail, this`arrived, this`handed
      ensures Valid() && |script| <= old(|script|)
      ensures r.Exactly? ==> Synced() && handed == old(handed) + r.bytes
      ensures r == ExactIdle ==> Synced() && handed == old(handed) && PausedHere()
      ensures r.Exactly? ==> |r.bytes| == count && old(Whole()) == Before(r.bytes, Whole())
      ensures r == ExactIdle ==> Whole() == old(Whole()) && |script| < old(|script|) && |buffer| < count
      ensures r == ExactEof ==> old(Whole()) == Body([], Clean) && 0 < count
      ensures r == ExactError ==>
        |old(Whole()).bytes| < count && (old(Whole()).end == Broken || old(Whole()).bytes != [])
      ensures ReadsSince(old(Position()), r == ExactIdle)
    {
      while |buffer| < count
        invariant Valid() && Synced() && |script| <= old(|script|)
        invariant Whole() == old(Whole()) && handed == old(handed) && ReadsSince(old(Position()), false)
        decreases count - |buffer|
      {
        var pump := Pump();
        match pump {
          case Progress =>
          case PumpIdle => return ExactIdle;
          case PumpError => return ExactError;
          case Ended => return if buffer != [] then ExactError else ExactEof;
        }
      }
      r := Exactly(buffer[..count]);
      HandOut(count);
    }

    /** The first bytes of the buffer are handed out. */
    method HandOut(count: nat)
      requires Synced() && count <= |buffer|
      modifies this`buffer, this`handed
      ensures Synced() && buffer == old(buffer)[count..] && handed == old(handed) + old(buffer)[..count]
      ensures old(Whole()) == Before(old(buffer)[..count], Whole())
    {
      assert buffer + Remaining().bytes == buffer[..count] + (buffer[count..] + Remaining().bytes);
      assert handed + buffer == (handed + buffer[..count]) + buffer[count..];
      handed, buffer := handed + buffer[..count], buffer[count..];
    }

    /** `_read_frame`: only an idle that falls after the header was consumed loses anything. */
    method ReadFrame() returns (r: FrameRead)
      requires Valid() && Synced()
      modifies this`raw, this`script, this`buffer, this`left, this`tail, this`arrived, this`handed
      ensures Valid() && |script| <= old(|script|)
      ensures r.GotFrame? || r.FrameIdle? ==> Synced()
      ensures r.GotFrame? && BetweenFrames(old(handed)) ==> BetweenFrames(handed)
      ensures r == FrameIdle(false) ==> handed == old(handed)
      ensures r == FrameIdle(true) && BetweenFrames(old(handed)) ==> LostHere()
      ensures r.GotFrame? ==>
        HasFrame(old(Whole())) && r.frame == FirstFrame(old(Whole())) && Whole() == AfterFrame(old(Whole()))
      ensures r == FrameIdle(false) ==> Whole() == old(Whole()) && |script| < old(|script|)
      ensures r == FrameIdle(true) ==> |Whole().bytes| + 5 == |old(Whole()).bytes|
      ensures ReadsSince(old(Position()), r.FrameIdle?)
      ensures r == FrameIdle(false) && BetweenFrames(old(handed)) ==> !LostHere()
      ensures r.FrameIdle? ==> 0 < Position()
      ensures r == FrameEof ==> !HasFrame(old(Whole())) && NoFrame(old(Whole())) == EndOfStream
      ensures r == FrameError ==> !HasFrame(old(Whole())) && NoFrame(old(Whole())) == StreamError
    {
      hide InStep, Resumes, Decoded, Incoming, Dechunk, IdleInPayload, InPayload, BetweenFrames, Length, OnlyData;
      ghost var whole, before := Whole(), handed;
      var header := ReadExact(5);
      match header {
        case ExactIdle =>
          PauseBeforeHeader();
          return FrameIdle(false);
        case ExactEof => return FrameEof;
        case ExactError => return FrameError;
        case Exactly(h) =>
          ghost var after, at := Whole(), Position();
          r := ReadPayload(h);
          OnlyDataJoins(origin, old(Position()), at, if r.FrameIdle? then Position() - 1 else Position());
          if r.GotFrame? {
            StartsWithFrame(whole, h, r.frame.payload, Whole());
            FrameExtends(before, h, r.frame.payload);
          } else if r.FrameIdle? {
            PauseIsInPayload(before, h);
          } else {
            LacksPayload(whole, h, after);
          }
      }
    }

    /** The second half of a frame. */
    method ReadPayload(h: seq<Byte>) returns (r: FrameRead)
      requires Valid() && Synced() && |h| == 5
      modifies this`raw, this`script, this`buffer, this`left, this`tail, this`arrived, this`handed
      ensures Valid() && |script| <= old(|script|)
      ensures r.GotFrame? ==> Synced() && handed == old(handed) + r.frame.payload
      ensures r.GotFrame? ==>
        r.frame.flags == h[0] && |r.frame.payload| == Length(h) && old(Whole()) == Before(r.frame.payload, Whole())
      ensures r.FrameIdle? ==> r.headerLost && Synced() && PausedHere() && handed == old(handed) && |buffer| < Length(h)
      ensures r.FrameIdle? ==> Whole() == old(Whole())
      ensures r == FrameEof ==> old(Whole()) == Body([], Clean) && 0 < Length(h)
      ensures r == FrameError ==>
        |old(Whole()).bytes| < Length(h) && (old(Whole()).end == Broken || old(Whole()).bytes != [])
      ensures ReadsSince(old(Position()), r.FrameIdle?)
    {
      var payload := ReadExact(Length(h));
      match payload {
        case ExactIdle => return FrameIdle(true);
        case ExactEof => return FrameEof;
        case ExactError => return FrameError;
        case Exactly(p) => return GotFrame(Frame(h[0], p));
      }
    }

    /** At a pause all that has arrived is what was handed out and what is buffered. */
    lemma PauseShowsAll()
      requires Synced() && PausedHere()
      ensures LostHere() <==> InPayload(handed + buffer)
    {
      AllDecoded(chunked, arrived, handed + buffer, left, tail, raw);
      var k := |origin| - |script| - 1;
      IncomingSnoc(origin, k);
      assert Incoming(origin[..k]) + [] == Incoming(origin[..k]);
    }

    /** A pause after a header was handed out, with its payload incomplete. */
    lemma PauseIsInPayload(before: seq<Byte>, h: seq<Byte>)
      requires Synced() && PausedHere() && |h| == 5 && handed == before + h && |buffer| < Length(h)
      ensures BetweenFrames(before) ==> LostHere()
    {
      PauseShowsAll();
      Assoc(before, h, buffer);
      OneFrame(h, buffer);
      if BetweenFrames(before) { BetweenThenIn(before, h + buffer); }
    }

    /** A pause before a header is complete. */
    lemma PauseBeforeHeader()
      requires Synced() && PausedHere() && |buffer| < 5
      ensures BetweenFrames(handed) ==> !LostHere()
    {
      PauseShowsAll();
      if BetweenFrames(handed) { BetweenThenIn(handed, buffer); }
    }

    /** When the body is used up between two frames, no read still to come can pause inside a payload. */
    lemma NothingToInterrupt(k: nat)
      requires Synced() && BetweenFrames(handed) && Whole().bytes == [] && Position() <= k
      ensures !IdleInPayload(chunked, first, origin, k)
    {
      hide Dechunk, BetweenFrames, InPayload, Incoming;
      if k < |origin| {
        var n := Position();
        var more, rest := Incoming(origin[n..k]), Incoming(origin[k..]);
        assert origin[..k] == origin[..n] + origin[n..k] && script == origin[n..k] + origin[k..];
        IncomingConcat(origin[..n], origin[n..k]);
        IncomingConcat(origin[n..k], origin[k..]);
        Assoc(first, Incoming(origin[..n]), more);
        Assoc(raw, more, rest);
        assert ResumesWith(chunked, arrived, handed + buffer, left, tail, raw, more);
        DecodedGrows(chunked, left, tail, raw + more, rest);
        assert (handed + buffer) + [] == handed;
        NotBoth(handed);
      }
    }

    /** Where the frame loop stands. */
    ghost predicate OnTrack(body: Body, frames: seq<Frame>, headerLost: bool)
      reads this
    {
      InTrack(Connection(chunked, first, origin), handed, Position(), Whole(), body, frames, headerLost)
    }

    /** What the loop may conclude when the rest of the body parses to no frame and this verdict. */
    lemma Finishes(body: Body, frames: seq<Frame>, headerLost: bool, verdict: Verdict)
      requires Synced() && OnTrack(body, frames, headerLost) && Parse(Whole()) == Parsed([], verdict)
      ensures (forall k: nat :: !IdleInPayload(chunked, first, origin, k)) ==> Parsed(frames, verdict) == Parse(body)
      ensures Complete(body) && Parsed(frames, verdict) == Parse(body) && (headerLost || !verdict.TrailerFrame?) ==>
        forall k: nat :: !IdleInPayload(chunked, first, origin, k)
    {
      hide Synced, BetweenFrames, IdleInPayload;
      SpentFits(Whole());
      if !headerLost {
        NothingMore(frames, verdict);
        if Complete(body) && verdict.EndOfStream? {
          UsedUp(Connection(chunked, first, origin));
        }
      }
    }

    /** A body used up between two frames, with nothing lost so far: no read at all pauses inside a payload. */
    lemma UsedUp(c: Connection)
      requires Synced() && c == Connection(chunked, first, origin)
      requires BetweenFrames(handed) && NoneLost(c, Position()) && Whole().bytes == []
      ensures forall k: nat :: !IdleInPayload(chunked, first, origin, k)
    {
      hide Synced, BetweenFrames, IdleInPayload, Whole;
      forall k: nat ensures !IdleInPayload(chunked, first, origin, k) {
        if Position() <= k { NothingToInterrupt(k); }
      }
    }

    /** The trailer has just been read; if it was the end of the body nothing can be lost any more. */
    lemma TrailerFinishes(body: Body, frames: seq<Frame>, before: seq<Byte>, at: int, whole: Body, f: Frame)
      requires Synced() && InTrack(Connection(chunked, first, origin), before, at, whole, body, frames, false)
      requires HasFrame(whole) && f == FirstFrame(whole) && f.flags >= TRAILER && Whole() == AfterFrame(whole)
      requires (BetweenFrames(before) ==> BetweenFrames(handed)) && ReadsSince(at, false)
      ensures Complete(body) && Parsed(frames, TrailerFrame(f.payload)) == Parse(body) ==>
        forall k: nat :: !IdleInPayload(chunked, first, origin, k)
    {
      hide Synced, BetweenFrames, IdleInPayload, NoneLost;
      var c := Connection(chunked, first, origin);
      DataLosesNothing(c, at, Position());
      if Complete(body) && Parsed(frames, TrailerFrame(f.payload)) == Parse(body) { UsedUp(c); }
    }

    /**
      The frame loop of `batches`: an idle read is a heartbeat and the loop goes on.
      Unless the socket goes idle while the bytes that have arrived stop inside a
      payload, the frames and the way the stream ends are those of the whole body
      parsed at once, however the socket cut it up and wherever else it paused. If
      the body is made of whole data frames, and perhaps a trailer, only then.
      */
    method Frames() returns (frames: seq<Frame>, verdict: Verdict)
      requires Valid() && Synced() && handed == [] && script == origin
      modifies this`raw, this`script, this`buffer, this`left, this`tail, this`arrived, this`handed
      ensures (forall k: nat :: !IdleInPayload(chunked, first, origin, k)) ==>
        Parsed(frames, verdict) == Parse(old(Whole()))
      ensures Complete(old(Whole())) && Parsed(frames, verdict) == Parse(old(Whole())) ==>
        forall k: nat :: !IdleInPayload(chunked, first, origin, k)
    {
      hide Synced, Whole, InTrack, BetweenFrames, IdleInPayload, Complete, Parse;
      frames := [];
      ghost var headerLost, body, c := false, Whole(), Connection(chunked, first, origin);
      TrackStarts(c, body);
      while true
        invariant Valid() && Synced()
        invariant OnTrack(body, frames, headerLost)
        decreases |Whole().bytes|, |script|
      {
        ghost var whole, at, before := Whole(), Position(), handed;
        ParseStep(whole);
        if Parse(whole).frames == [] { Finishes(body, frames, headerLost, Parse(whole).verdict); }
        var read := ReadFrame();
        match read {
          case FrameIdle(lost) =>
            TrackPause(c, before, at, whole, body, frames, headerLost, lost, handed, Position(), Whole());
            headerLost := headerLost || lost;
          case FrameEof => return frames, EndOfStream;
          case FrameError => return frames, StreamError;
          case GotFrame(f) =>
            if f.flags != 0 {
              if f.flags >= TRAILER && !headerLost { TrailerFinishes(body, frames, before, at, whole, f); }
              verdict := if f.flags >= TRAILER then TrailerFrame(f.payload) else UnknownFlags(f.flags);
              return;
            }
            TrackFrame(c, before, at, whole, body, frames, headerLost, handed, Position());
            frames := frames + [f];
        }
      }
    }
  }

  // ---------------------------------------------------------------- what a well-formed sender sends

  /** A hexadecimal digit as a sender writes it, in either case. */
  datatype Digit = Digit(value: nat, upper: bool)

  const LOWER_CASE := "0123456789abcdef"
  const UPPER_CASE := "0123456789ABCDEF"

  predicate Digits(digits: seq<Digit>) {
    digits != [] && forall i :: 0 <= i < |digits| ==> digits[i].value < 16
  }

  function Glyph(d: Digit): Byte
    requires d.value < 16
  {
    assert forall i :: 0 <= i < 16 ==> LOWER_CASE[i] < 128 as char && UPPER_CASE[i] < 128 as char;
    if d.upper then UPPER_CASE[d.value] as int else LOWER_CASE[d.value] as int
  }

  function Power16(n: nat): nat { if n == 0 then 1 else 16 * Power16(n - 1) }

  /** The number the digits write, leading zeros allowed: each digit times the power of its place. */
  function Number(digits: seq<Digit>): nat {
    if digits == [] then 0 else digits[0].value * Power16(|digits| - 1) + Number(digits[1..])
  }

  function Glyphs(digits: seq<Digit>): (g: seq<Byte>)
    requires forall i :: 0 <= i < |digits| ==> digits[i].value < 16
    ensures |g| == |digits| && forall i :: 0 <= i < |g| ==> g[i] == Glyph(digits[i])
  {
    seq(|digits|, i requires 0 <= i < |digits| => Glyph(digits[i]))
  }

  /** A chunk's header line: its size, and extensions after a semicolon or none. */
  datatype SizeLine = SizeLine(digits: seq<Digit>, extension: Option<seq<Byte>>)

  predicate GoodLine(l: SizeLine) {
    Digits(l.digits) && (l.extension.Some? ==> CR !in l.extension.value)
  }

  function EncodeLine(l: SizeLine): seq<Byte>
    requires GoodLine(l)
  {
    Glyphs(l.digits) + if l.extension.Some? then [SEMICOLON] + l.extension.value else []
  }

  lemma GlyphIsADigit(d: Digit)
    requires d.value < 16
    ensures HexDigit(Glyph(d)) == Some(d.value) && Glyph(d) != SEMICOLON && Glyph(d) != CR
  {
    if d.upper { assert UPPER_CASE == ['0','1','2','3','4','5','6','7','8','9','A','B','C','D','E','F']; }
    else { assert LOWER_CASE == ['0','1','2','3','4','5','6','7','8','9','a','b','c','d','e','f']; }
  }

  /** What the reader makes of digits, last one last, is the number they write. */
  lemma {:induction false} NumberFromTheEnd(digits: seq<Digit>)
    requires digits != []
    ensures Number(digits) == 16 * Number(digits[..|digits| - 1]) + digits[|digits| - 1].value
  {
    var n := |digits| - 1;
    if n == 0 {
      assert digits[1..] == [] && digits[..0] == [];
    } else {
      NumberFromTheEnd(digits[1..]);
      assert digits[1..][..n - 1] == digits[..n][1..];
      var d, p := digits[0].value, Power16(n - 1);
      assert d * (16 * p) == 16 * (d * p);
    }
  }

  lemma {:induction false} DigitsReadBack(digits: seq<Digit>)
    requires forall i :: 0 <= i < |digits| ==> digits[i].value < 16
    ensures Hex(Glyphs(digits)) == Some(Number(digits))
  {
    hide Glyph, HexDigit, Number;
    if digits == [] {
      NumberOfNothing();
    } else {
      var n := |digits| - 1;
      DigitsReadBack(digits[..n]);
      GlyphIsADigit(digits[n]);
      NumberFromTheEnd(digits);
      assert Glyphs(digits)[..n] == Glyphs(digits[..n]);
    }
  }

  lemma NumberOfNothing()
    ensures Number([]) == 0
  {
  }

  lemma {:induction false} SizeEndsAtSemicolon(a: seq<Byte>, b: seq<Byte>)
    requires SEMICOLON !in a && (b == [] || b[0] == SEMICOLON)
    ensures UpToSemicolon(a + b) == a
  {
    if a == [] {
      assert a + b == b;
    } else {
      assert (a + b)[1..] == a[1..] + b;
      SizeEndsAtSemicolon(a[1..], b);
    }
  }

  /** The reader reads a size line as the number it writes, and no carriage return is in it. */
  lemma SizeReadsBack(l: SizeLine)
    requires GoodLine(l)
    ensures ChunkSize(EncodeLine(l)) == Some(Number(l.digits)) && CR !in EncodeLine(l)
  {
    hide Glyph, HexDigit, Number, Hex;
    forall i | 0 <= i < |l.digits| ensures Glyphs(l.digits)[i] != SEMICOLON && Glyphs(l.digits)[i] != CR {
      GlyphIsADigit(l.digits[i]);
    }
    SizeEndsAtSemicolon(Glyphs(l.digits), if l.extension.Some? then [SEMICOLON] + l.extension.value else []);
    DigitsReadBack(l.digits);
  }

  lemma {:induction false} DigitsOfHex(digits: seq<Byte>) returns (ds: seq<Digit>)
    requires Hex(digits).Some?
    ensures |ds| == |digits| && (forall i :: 0 <= i < |ds| ==> ds[i].value < 16) && Glyphs(ds) == digits
  {
    hide HexDigit, Glyph;
    if digits == [] {
      ds := [];
    } else {
      var n := |digits| - 1;
      ds := DigitsOfHex(digits[..n]);
      GlyphOfDigit(digits[n]);
      assert Glyphs(ds + [Digit(HexDigit(digits[n]).value, digits[n] < 97)]) == digits[..n] + [digits[n]];
      ds := ds + [Digit(HexDigit(digits[n]).value, digits[n] < 97)];
    }
  }

  lemma GlyphOfDigit(b: Byte)
    requires HexDigit(b).Some?
    ensures HexDigit(b).value < 16 && Glyph(Digit(HexDigit(b).value, b < 97)) == b
  {
    assert UPPER_CASE == ['0','1','2','3','4','5','6','7','8','9','A','B','C','D','E','F'];
    assert LOWER_CASE == ['0','1','2','3','4','5','6','7','8','9','a','b','c','d','e','f'];
  }

  lemma {:induction false} SplitAtSemicolon(line: seq<Byte>) returns (extension: Option<seq<Byte>>)
    ensures line == UpToSemicolon(line) + if extension.Some? then [SEMICOLON] + extension.value else []
  {
    if line == [] {
      extension := None;
    } else if line[0] == SEMICOLON {
      extension := Some(line[1..]);
      assert line == [SEMICOLON] + line[1..];
    } else {
      extension := SplitAtSemicolon(line[1..]);
      assert line == [line[0]] + line[1..];
    }
  }

  /** Nothing else is read as a size: a line the reader accepts is a size line for the number it reads. */
  lemma OnlySizeLinesAreRead(line: seq<Byte>) returns (l: SizeLine)
    requires CR !in line && ChunkSize(line).Some?
    ensures GoodLine(l) && EncodeLine(l) == line && ChunkSize(line) == Some(Number(l.digits))
  {
    var digits := DigitsOfHex(UpToSemicolon(line));
    var extension := SplitAtSemicolon(line);
    l := SizeLine(digits, extension);
    if extension.Some? {
      forall i | 0 <= i < |extension.value| ensures extension.value[i] != CR {
        assert extension.value[i] == line[|UpToSemicolon(line)| + 1 + i];
      }
    }
    SizeReadsBack(l);
  }

  /** A chunk on the wire: its header line, without the CRLF, and its data. */
  datatype Chunk = Chunk(line: SizeLine, data: seq<Byte>)

  /** The header line writes the number of data bytes; a chunk of none would end the body. */
  predicate GoodChunk(c: Chunk) {
    GoodLine(c.line) && Number(c.line.digits) == |c.data| && c.data != []
  }

  /** The line that ends a chunked body. */
  predicate LastLine(l: SizeLine) {
    GoodLine(l) && Number(l.digits) == 0
  }

  function EncodeChunks(chunks: seq<Chunk>, last: seq<Byte>): seq<Byte>
    requires forall i :: 0 <= i < |chunks| ==> GoodChunk(chunks[i])
  {
    if chunks == [] then last
    else
      assert GoodChunk(chunks[0]);
      (EncodeLine(chunks[0].line) + [CR, LF]) + (chunks[0].data + ([CR, LF] + EncodeChunks(chunks[1..], last)))
  }

  function Carried(chunks: seq<Chunk>): seq<Byte> {
    if chunks == [] then [] else chunks[0].data + Carried(chunks[1..])
  }

  lemma {:induction false} FindAfterLine(line: seq<Byte>, rest: seq<Byte>)
    requires CR !in line
    ensures FindCrlf((line + [CR, LF]) + rest) == Some(|line|)
  {
    var raw := (line + [CR, LF]) + rest;
    if line != [] {
      assert raw[0] == line[0];
      assert raw[1..] == (line[1..] + [CR, LF]) + rest;
      FindAfterLine(line[1..], rest);
    }
  }

  lemma DechunkLine(line: seq<Byte>, size: nat, rest: seq<Byte>)
    requires CR !in line && ChunkSize(line) == Some(size)
    ensures Dechunk(None, false, (line + [CR, LF]) + rest) == Dechunk(Some(size), false, rest)
  {
    FindAfterLine(line, rest);
    var raw := (line + [CR, LF]) + rest;
    assert raw[..|line|] == line && raw[|line| + 2..] == rest;
  }

  /** De-chunking a well-formed chunked body, extensions, trailers and all, gives back the data its chunks carry. */
  lemma {:induction false} DechunkInvertsChunking(chunks: seq<Chunk>, last: SizeLine, trailers: seq<Byte>)
    requires forall i :: 0 <= i < |chunks| ==> GoodChunk(chunks[i])
    requires LastLine(last)
    ensures Dechunk(None, false, EncodeChunks(chunks, (EncodeLine(last) + [CR, LF]) + trailers))
      == Body(Carried(chunks), Clean)
  {
    hide EncodeLine, ChunkSize, Number;
    var ending := (EncodeLine(last) + [CR, LF]) + trailers;
    if chunks == [] {
      SizeReadsBack(last);
      DechunkLine(EncodeLine(last), 0, trailers);
    } else {
      var c, more := chunks[0], EncodeChunks(chunks[1..], ending);
      assert GoodChunk(c);
      DechunkInvertsChunking(chunks[1..], last, trailers);
      SizeReadsBack(c.line);
      DechunkLine(EncodeLine(c.line), |c.data|, c.data + ([CR, LF] + more));
      var raw := c.data + ([CR, LF] + more);
      assert raw[..|c.data|] == c.data && raw[|c.data|..] == [CR, LF] + more;
      assert ([CR, LF] + more)[2..] == more;
    }
  }

  lemma {:induction false} FindNoneInLine(raw: seq<Byte>)
    requires forall i :: 0 <= i < |raw| && raw[i] == CR ==> i == |raw| - 1
    ensures FindCrlf(raw).None?
  {
    if 2 <= |raw| { FindNoneInLine(raw[1..]); }
  }

  /** A chunked body cut short anywhere is an error, after nothing but data it carries. */
  lemma {:induction false} CutBodyIsBroken(chunks: seq<Chunk>, last: SizeLine, n: nat)
    requires forall i :: 0 <= i < |chunks| ==> GoodChunk(chunks[i])
    requires LastLine(last) && n < |EncodeChunks(chunks, EncodeLine(last) + [CR, LF])|
    ensures var b := Dechunk(None, false, EncodeChunks(chunks, EncodeLine(last) + [CR, LF])[..n]);
      b.end == Broken && b.bytes <= Carried(chunks)
    decreases |chunks|
  {
    hide EncodeLine, ChunkSize, Number;
    var ending := EncodeLine(last) + [CR, LF];
    var raw := EncodeChunks(chunks, ending)[..n];
    if chunks == [] {
      SizeReadsBack(last);
      FindNoneInLine(raw);
    } else {
      var c, more := chunks[0], EncodeChunks(chunks[1..], ending);
      assert GoodChunk(c);
      SizeReadsBack(c.line);
      var line, tail := EncodeLine(c.line), c.data + ([CR, LF] + more);
      var whole := (line + [CR, LF]) + tail;
      var h := |line| + 2;
      assert raw == whole[..n];
      if n < h {
        assert raw == (line + [CR, LF])[..n];
        FindNoneInLine(raw);
      } else {
        assert raw == (line + [CR, LF]) + tail[..n - h];
        DechunkLine(line, |c.data|, tail[..n - h]);
        CutChunkIsBroken(chunks, last, n - h, tail, more);
      }
    }
  }

  lemma CutChunkIsBroken(chunks: seq<Chunk>, last: SizeLine, m: nat, tail: seq<Byte>, more: seq<Byte>)
    requires chunks != [] && forall i :: 0 <= i < |chunks| ==> GoodChunk(chunks[i])
    requires LastLine(last) && more == EncodeChunks(chunks[1..], EncodeLine(last) + [CR, LF])
    requires tail == chunks[0].data + ([CR, LF] + more) && m < |tail|
    ensures var b := Dechunk(Some(|chunks[0].data|), false, tail[..m]);
      b.end == Broken && b.bytes <= Carried(chunks)
    decreases |chunks|, 0
  {
    hide EncodeLine, ChunkSize, Number, EncodeChunks;
    var data := chunks[0].data;
    assert GoodChunk(chunks[0]);
    if m < |data| {
      assert tail[..m] == data[..m];
    } else {
      assert tail[..m][..|data|] == data;
      var rest := tail[..m][|data|..];
      assert rest == ([CR, LF] + more)[..m - |data|];
      if m - |data| >= 2 {
        assert rest[2..] == more[..m - |data| - 2];
        CutBodyIsBroken(chunks[1..], last, m - |data| - 2);
      }
    }
  }

  /** A length in four bytes, most significant first. */
  function BigEndian(n: nat): seq<Byte>
    requires n < 0x1_0000_0000
  {
    [n / 0x100_0000, n / 0x1_0000 % 256, n / 256 % 256, n % 256]
  }

  function EncodeFrame(f: Frame): seq<Byte>
    requires |f.payload| < 0x1_0000_0000
  {
    ([f.flags] + BigEndian(|f.payload|)) + f.payload
  }

  predicate Sendable(f: Frame) { |f.payload| < 0x1_0000_0000 && f.flags == 0 }

  function EncodeFrames(frames: seq<Frame>): seq<Byte>
    requires forall i :: 0 <= i < |frames| ==> Sendable(frames[i])
  {
    if frames == [] then []
    else
      assert Sendable(frames[0]);
      EncodeFrame(frames[0]) + EncodeFrames(frames[1..])
  }

  lemma LengthReadsBack(flags: Byte, n: nat)
    requires n < 0x1_0000_0000
    ensures Length([flags] + BigEndian(n)) == n
  {
    var high, middle := n / 0x1_0000, n / 256;
    assert n / 0x100_0000 == high / 256 && middle / 256 == high;
    assert high / 256 * 256 + high % 256 == high;
    assert high * 256 + middle % 256 == middle;
  }

  /** What may end a response: nothing, or a trailer frame. */
  predicate GoodEnd(end: Option<Frame>) {
    end.Some? ==> |end.value.payload| < 0x1_0000_0000 && end.value.flags >= 128
  }

  function EncodeEnd(end: Option<Frame>): seq<Byte>
    requires GoodEnd(end)
  {
    if end.None? then [] else EncodeFrame(end.value)
  }

  function VerdictOf(end: Option<Frame>): Verdict {
    if end.None? then EndOfStream else TrailerFrame(end.value.payload)
  }

  lemma FirstIsEncoded(f: Frame, more: seq<Byte>)
    requires |f.payload| < 0x1_0000_0000
    ensures var b := Body(EncodeFrame(f) + more, Clean);
      HasFrame(b) && FirstFrame(b) == f && AfterFrame(b) == Body(more, Clean)
  {
    hide Parse, EncodeFrames;
    var b := Body(EncodeFrame(f) + more, Clean);
    LengthReadsBack(f.flags, |f.payload|);
    assert b.bytes[..5] == [f.flags] + BigEndian(|f.payload|);
    assert b.bytes[5..5 + |f.payload|] == f.payload;
    assert b.bytes[5 + |f.payload|..] == more;
  }

  /** Parsing a body of framed messages, and what ends it, gives back the messages and the end. */
  lemma {:induction false} ParseInvertsFraming(frames: seq<Frame>, end: Option<Frame>)
    requires (forall i :: 0 <= i < |frames| ==> Sendable(frames[i])) && GoodEnd(end)
    ensures Parse(Body(EncodeFrames(frames) + EncodeEnd(end), Clean)) == Parsed(frames, VerdictOf(end))
  {
    hide EncodeFrame, FirstFrame, AfterFrame, HasFrame;
    if frames == [] {
      EndParses(end);
      assert [] + EncodeEnd(end) == EncodeEnd(end);
    } else {
      var more := EncodeFrames(frames[1..]);
      ParseInvertsFraming(frames[1..], end);
      Assoc(EncodeFrame(frames[0]), more, EncodeEnd(end));
      FirstIsEncoded(frames[0], more + EncodeEnd(end));
    }
  }

  /** A frame of unknown flags ends the messages before it, whatever follows. */
  lemma {:induction false} UnknownFrameEnds(frames: seq<Frame>, f: Frame, more: seq<Byte>)
    requires (forall i :: 0 <= i < |frames| ==> Sendable(frames[i])) && |f.payload| < 0x1_0000_0000
    requires 0 < f.flags < 128
    ensures Parse(Body(EncodeFrames(frames) + (EncodeFrame(f) + more), Clean)) == Parsed(frames, UnknownFlags(f.flags))
  {
    hide EncodeFrame, FirstFrame, AfterFrame, HasFrame;
    if frames == [] {
      FirstIsEncoded(f, more);
      assert [] + (EncodeFrame(f) + more) == EncodeFrame(f) + more;
    } else {
      UnknownFrameEnds(frames[1..], f, more);
      Assoc(EncodeFrame(frames[0]), EncodeFrames(frames[1..]), EncodeFrame(f) + more);
      FirstIsEncoded(frames[0], EncodeFrames(frames[1..]) + (EncodeFrame(f) + more));
    }
  }

  /**
    A body that stops inside a frame, after some whole ones: an error, except exactly where the code
    takes a clean stop between header and payload for the end.
    */
  lemma {:induction false} CutFrameFails(frames: seq<Frame>, f: Frame, n: nat)
    requires (forall i :: 0 <= i < |frames| ==> Sendable(frames[i])) && |f.payload| < 0x1_0000_0000
    requires 0 < n < |EncodeFrame(f)|
    ensures Parse(Body(EncodeFrames(frames) + EncodeFrame(f)[..n], Clean))
      == Parsed(frames, if n == 5 then EndOfStream else StreamError)
  {
    hide FirstFrame, AfterFrame;
    if frames == [] {
      assert [] + EncodeFrame(f)[..n] == EncodeFrame(f)[..n];
      LengthReadsBack(f.flags, |f.payload|);
      if 5 <= n { assert EncodeFrame(f)[..n][..5] == [f.flags] + BigEndian(|f.payload|); }
    } else {
      CutFrameFails(frames[1..], f, n);
      Assoc(EncodeFrame(frames[0]), EncodeFrames(frames[1..]), EncodeFrame(f)[..n]);
      FirstIsEncoded(frames[0], EncodeFrames(frames[1..]) + EncodeFrame(f)[..n]);
    }
  }

  lemma EndParses(end: Option<Frame>)
    requires GoodEnd(end)
    ensures Parse(Body(EncodeEnd(end), Clean)) == Parsed([], VerdictOf(end))
  {
    hide EncodeFrame, FirstFrame;
    if end.Some? {
      FirstIsEncoded(end.value, []);
      assert EncodeFrame(end.value) + [] == EncodeFrame(end.value);
    }
  }

  lemma {:induction false} FramingSpans(frames: seq<Frame>)
    requires forall i :: 0 <= i < |frames| ==> Sendable(frames[i])
    ensures |EncodeFrames(frames)| == Span(frames)
  {
    if frames != [] {
      FramingSpans(frames[1..]);
      SpanConcat([frames[0]], frames[1..]);
      assert [frames[0]] + frames[1..] == frames && [frames[0]][..0] == [];
    }
  }

  /** A well-formed response is a complete body. */
  lemma FramingIsComplete(frames: seq<Frame>, end: Option<Frame>)
    requires (forall i :: 0 <= i < |frames| ==> Sendable(frames[i])) && GoodEnd(end)
    ensures var b := Body(EncodeFrames(frames) + EncodeEnd(end), Clean);
      Complete(b) && Parse(b) == Parsed(frames, VerdictOf(end))
  {
    hide Parse, EncodeFrames;
    ParseInvertsFraming(frames, end);
    FramingSpans(frames);
  }

  /**
    End to end: messages framed, with a trailer after them or none, chunked in any way,
    and delivered in any pieces with pauses in between, come out as the same messages and
    the same end if and only if no pause fell inside a payload.
    */
  method Receive(ghost frames: seq<Frame>, ghost end: Option<Frame>, ghost chunks: seq<Chunk>, ghost last: SizeLine,
                 ghost trailers: seq<Byte>, raw: seq<Byte>, script: seq<SocketRead>)
    returns (received: seq<Frame>, verdict: Verdict)
    requires (forall i :: 0 <= i < |frames| ==> Sendable(frames[i])) && GoodEnd(end)
    requires forall i :: 0 <= i < |chunks| ==> GoodChunk(chunks[i])
    requires LastLine(last)
    requires Carried(chunks) == EncodeFrames(frames) + EncodeEnd(end)
    requires forall i :: 0 <= i < |script| && script[i].Data? ==> script[i].bytes != []
    requires raw + Incoming(script) == EncodeChunks(chunks, (EncodeLine(last) + [CR, LF]) + trailers)
    ensures (forall k: nat :: !IdleInPayload(true, raw, script, k)) <==> received == frames && verdict == VerdictOf(end)
  {
    hide Parse, Complete, EncodeFrames, EncodeEnd, IdleInPayload, Dechunk;
    var stream := new Stream(true, raw, script);
    DechunkInvertsChunking(chunks, last, trailers);
    FramingIsComplete(frames, end);
    received, verdict := stream.Frames();
  }

  const ONE_BYTE_HEADER: seq<Byte> := [0, 0, 0, 0, 1]

  lemma OneByteMessage()
    ensures ONE_BYTE_HEADER + [7] == EncodeFrames([Frame(0, [7])])
    ensures Incoming([Idle, Data([7])]) == [7]
    ensures IdleInPayload(false, ONE_BYTE_HEADER, [Idle, Data([7])], 0)
  {
    var f, script := Frame(0, [7]), [Idle, Data([7])];
    assert [f][1..] == [] && EncodeFrame(f) == ONE_BYTE_HEADER + [7];
    assert script[1..] == [Data([7])] && script[1..][1..] == [];
    assert script[..0] == [] && ONE_BYTE_HEADER + [] == ONE_BYTE_HEADER && ONE_BYTE_HEADER[..5] == ONE_BYTE_HEADER;
  }

  /** The smallest such loss: a header announces one byte, the socket pauses, the byte comes: its frame does not. */
  method PauseLosesFrame() returns (received: seq<Frame>, verdict: Verdict)
    ensures Parse(Body(ONE_BYTE_HEADER + [7], Clean)) == Parsed([Frame(0, [7])], EndOfStream)
    ensures Parsed(received, verdict) != Parsed([Frame(0, [7])], EndOfStream)
  {
    hide Parse, Complete, BetweenFrames, IdleInPayload, Incoming, EncodeFrames;
    var script := [Idle, Data([7])];
    OneByteMessage();
    FramingIsComplete([Frame(0, [7])], None);
    assert EncodeFrames([Frame(0, [7])]) + EncodeEnd(None) == EncodeFrames([Frame(0, [7])]);
    var stream := new Stream(false, ONE_BYTE_HEADER, script);
    received, verdict := stream.Frames();
  }
}
