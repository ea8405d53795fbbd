/**
 * gRPC message framing: a flag byte, a big-endian length and the message. The driver checks the
 * sizes of what it sends and takes whole frames out of a growing buffer as response chunks arrive.
 */
module Grpc {
  import opened Base
  import opened Streaming

  const MAX_MESSAGE_BYTES: nat := 16 * 1024 * 1024
  const MAX_REQUEST_BYTES: nat := 64 * 1024 * 1024
  const MAX_RESPONSE_BYTES: nat := 64 * 1024 * 1024

  datatype GrpcError = MessageTooLarge | Compressed | RequestTooLarge | ResponseTooLarge

  /** `u32::to_be_bytes` of the low 32 bits. */
  function ToBigEndian(n: nat): (b: Bytes)
    ensures |b| == 4
  {
    [n / 0x100_0000 % 256, n / 0x1_0000 % 256, n / 0x100 % 256, n % 256]
  }

  function FromBigEndian(a: byte, b: byte, c: byte, d: byte): nat {
    a * 0x100_0000 + b * 0x1_0000 + c * 0x100 + d
  }

  lemma BigEndianRoundTrip(n: nat)
    requires n < 0x1_0000_0000
    ensures var b := ToBigEndian(n); FromBigEndian(b[0], b[1], b[2], b[3]) == n
  {
    var high, low := n / 0x1_0000, n % 0x1_0000;
    assert n / 0x100_0000 == high / 0x100;
    assert n / 0x100 % 256 == low / 0x100;
    assert n % 256 == low % 0x100;
  }

  function EncodeFrame(message: Bytes): Bytes {
    [0] + ToBigEndian(|message|) + message
  }

  function EncodeAll(messages: seq<Bytes>): Bytes {
    if messages == [] then [] else EncodeFrame(messages[0]) + EncodeAll(messages[1..])
  }

  /** The frame at the front of the buffer, as `take_frame` decides it. */
  function ParseFrame(b: Bytes): (r: Parse<Bytes, GrpcError>)
    ensures r.Frame? ==> 5 <= r.used <= |b|
  {
    if |b| < 5 then NeedMore
    else
      var length := FromBigEndian(b[1], b[2], b[3], b[4]);
      if length > MAX_MESSAGE_BYTES then Broken(MessageTooLarge)
      else if |b| < length + 5 then NeedMore
      else if b[0] != 0 then Broken(Compressed)
      else Frame(b[5..5 + length], 5 + length)
  }

  /** The parser never changes its mind, so incremental reading applies. */
  lemma ParserFitsStreaming()
    ensures Stable(ParseFrame) && Advances(ParseFrame)
  {
    forall b: Bytes, ext: Bytes | !ParseFrame(b).NeedMore? ensures ParseFrame(b + ext) == ParseFrame(b) {
      var length := FromBigEndian(b[1], b[2], b[3], b[4]);
      if length <= MAX_MESSAGE_BYTES {
        assert (b + ext)[5..5 + length] == b[5..5 + length];
      }
    }
  }

  /** Fewer bytes than the whole frame are never mistaken for one; from there on it is the message. */
  lemma EncodedFramePrefix(message: Bytes, rest: Bytes, k: nat)
    requires |message| <= MAX_MESSAGE_BYTES && k <= |EncodeFrame(message)|
    ensures k < |EncodeFrame(message)| ==> ParseFrame(EncodeFrame(message)[..k]).NeedMore?
    ensures ParseFrame(EncodeFrame(message) + rest) == Frame(message, |EncodeFrame(message)|)
  {
    BigEndianRoundTrip(|message|);
    var frame := EncodeFrame(message);
    var b := ToBigEndian(|message|);
    var whole := frame + rest;
    assert whole[1] == b[0] && whole[2] == b[1] && whole[3] == b[2] && whole[4] == b[3];
    assert whole[5..5 + |message|] == message;
    if 5 <= k < |frame| {
      var part := frame[..k];
      assert part[1] == b[0] && part[2] == b[1] && part[3] == b[2] && part[4] == b[3];
    }
  }

  /** A frame with any flag byte; a flag other than 0 announces compression. */
  function FlaggedFrame(flag: byte, message: Bytes): Bytes {
    [flag] + ToBigEndian(|message|) + message
  }

  /** A whole frame yields its message if its flag is 0, and otherwise an error and no message. */
  lemma FlagDecides(flag: byte, message: Bytes, rest: Bytes)
    requires |message| <= MAX_MESSAGE_BYTES
    ensures ParseFrame(FlaggedFrame(flag, message) + rest) ==
            if flag == 0 then Frame(message, 5 + |message|) else Broken(Compressed)
  {
    var n := |message|;
    BigEndianRoundTrip(n);
    var b := ToBigEndian(n);
    var input := FlaggedFrame(flag, message) + rest;
    assert input[0] == flag && input[1] == b[0] && input[2] == b[1] && input[3] == b[2] && input[4] == b[3];
    assert input[5..5 + n] == message;
  }

  /** A compressed frame after good ones ends the answer with an error, whatever follows it. */
  lemma CompressedEnds(messages: seq<Bytes>, flag: byte, message: Bytes, rest: Bytes)
    requires AllSmall(messages) && flag != 0 && |message| <= MAX_MESSAGE_BYTES
    ensures Advances(ParseFrame)
    ensures var d := Drain(ParseFrame, EncodeAll(messages) + (FlaggedFrame(flag, message) + rest));
            d.frames == messages && d.error == Some(Compressed)
    decreases |messages|
  {
    hide ParseFrame, EncodeFrame, FlaggedFrame;
    ParserFitsStreaming();
    var tail := FlaggedFrame(flag, message) + rest;
    if messages == [] {
      FlagDecides(flag, message, rest);
      assert EncodeAll(messages) + tail == tail;
    } else {
      var first := EncodeFrame(messages[0]);
      var more := EncodeAll(messages[1..]) + tail;
      assert EncodeAll(messages) + tail == first + more;
      EncodedFramePrefix(messages[0], more, 0);
      assert (first + more)[|first|..] == more;
      CompressedEnds(messages[1..], flag, message, rest);
      assert [messages[0]] + messages[1..] == messages;
    }
  }

  /** An announced length over the limit is an error as soon as it is read. */
  lemma OversizedRefused(header: Bytes, rest: Bytes)
    requires |header| == 5 && FromBigEndian(header[1], header[2], header[3], header[4]) > MAX_MESSAGE_BYTES
    ensures ParseFrame(header + rest) == Broken(MessageTooLarge)
  {
    var input := header + rest;
    assert forall i :: 0 <= i < 5 ==> input[i] == header[i];
  }

  ghost predicate AllSmall(messages: seq<Bytes>) {
    forall i :: 0 <= i < |messages| ==> |messages[i]| <= MAX_MESSAGE_BYTES
  }

  /** Framed messages followed by the start of another frame drain to exactly those messages. */
  lemma {:induction false} FramesRoundTrip(messages: seq<Bytes>, tail: Bytes)
    requires AllSmall(messages) && ParseFrame(tail).NeedMore?
    ensures Advances(ParseFrame)
    ensures Drain(ParseFrame, EncodeAll(messages) + tail) == Drained(messages, tail, None)
    decreases |messages|
  {
    ParserFitsStreaming();
    hide ParseFrame, EncodeFrame;
    if messages == [] {
      assert EncodeAll(messages) + tail == tail;
    } else {
      var first := EncodeFrame(messages[0]);
      var rest := EncodeAll(messages[1..]) + tail;
      assert EncodeAll(messages) + tail == first + rest;
      EncodedFramePrefix(messages[0], rest, 0);
      assert (first + rest)[|first|..] == rest;
      FramesRoundTrip(messages[1..], tail);
      assert [messages[0]] + messages[1..] == messages;
    }
  }

  /** The chunks carry framed messages and the first `k` bytes of another frame. */
  ghost predicate Carries(chunks: seq<Bytes>, messages: seq<Bytes>, next: Bytes, k: nat) {
    && AllSmall(messages) && |next| <= MAX_MESSAGE_BYTES && k < |EncodeFrame(next)|
    && Concat(chunks) == EncodeAll(messages) + EncodeFrame(next)[..k]
  }

  /** Whatever the chunks, those messages and that beginning of a frame are what is in them. */
  lemma CarriedDrains(chunks: seq<Bytes>, messages: seq<Bytes>, next: Bytes, k: nat)
    requires Carries(chunks, messages, next, k)
    ensures Advances(ParseFrame)
    ensures Drain(ParseFrame, Concat(chunks)) == Drained(messages, EncodeFrame(next)[..k], None)
  {
    hide ParseFrame, EncodeFrame, EncodeAll, Drain;
    ParserFitsStreaming();
    EncodedFramePrefix(next, [], k);
    FramesRoundTrip(messages, EncodeFrame(next)[..k]);
  }

  // ----- sizes -----

  function WireSize(messages: seq<Bytes>): nat {
    if messages == [] then 0 else WireSize(messages[..|messages| - 1]) + |messages[|messages| - 1]| + 5
  }

  lemma {:induction false} WireSizeIsEncodedSize(messages: seq<Bytes>)
    ensures WireSize(messages) == |EncodeAll(messages)|
    decreases |messages|
  {
    if messages != [] {
      WireSizeSplit(messages[..1], messages[1..]);
      assert messages[..1] + messages[1..] == messages;
      WireSizeIsEncodedSize(messages[1..]);
    }
  }

  lemma {:induction false} WireSizeSplit(a: seq<Bytes>, b: seq<Bytes>)
    ensures WireSize(a + b) == WireSize(a) + WireSize(b)
    decreases |b|
  {
    if b == [] {
      assert a + b == a;
    } else {
      assert (a + b)[..|a + b| - 1] == a + b[..|b| - 1];
      WireSizeSplit(a, b[..|b| - 1]);
    }
  }

  /** Accepts exactly the message lists that are small one by one and at most 64 MiB on the wire. */
  method ValidateMessageSizes(messages: seq<Bytes>) returns (r: Option<GrpcError>)
    ensures r.None? <==> AllSmall(messages) && |EncodeAll(messages)| <= MAX_REQUEST_BYTES
  {
    var total := 0;
    WireSizeIsEncodedSize(messages);
    for i := 0 to |messages|
      invariant total == WireSize(messages[..i])
      invariant AllSmall(messages[..i]) && total <= MAX_REQUEST_BYTES
    {
      WireSizeStep(messages, i);
      if |messages[i]| > MAX_MESSAGE_BYTES {
        return Some(MessageTooLarge);
      }
      total := total + |messages[i]| + 5;
      if total > MAX_REQUEST_BYTES {
        return Some(RequestTooLarge);
      }
    }
    assert messages[..|messages|] == messages;
    r := None;
  }

  lemma WireSizeStep(messages: seq<Bytes>, i: nat)
    requires i < |messages|
    ensures WireSize(messages[..i + 1]) == WireSize(messages[..i]) + |messages[i]| + 5 <= WireSize(messages)
  {
    assert messages[..i + 1][..i] == messages[..i];
    assert messages[..i + 1] + messages[i + 1..] == messages;
    WireSizeSplit(messages[..i + 1], messages[i + 1..]);
  }

  // ----- receiving -----

  function TotalLength(messages: seq<Bytes>): nat {
    if messages == [] then 0 else |messages[0]| + TotalLength(messages[1..])
  }

  lemma {:induction false} TotalLengthAppend(a: seq<Bytes>, b: seq<Bytes>)
    ensures TotalLength(a + b) == TotalLength(a) + TotalLength(b)
    decreases |a|
  {
    if a == [] {
      assert a + b == b;
    } else {
      assert (a + b)[1..] == a[1..] + b;
      TotalLengthAppend(a[1..], b);
    }
  }

  class Response {
    var buffer: Bytes
    var messages: seq<Bytes>
    var bytesReceived: nat

    constructor ()
      ensures buffer == [] && messages == [] && bytesReceived == 0
    {
      buffer, messages, bytesReceived := [], [], 0;
    }

    /** Takes one whole frame off the front of the buffer, if there is one. */
    method TakeFrame() returns (r: Result<Option<Bytes>, GrpcError>)
      modifies this`buffer
      ensures match ParseFrame(old(buffer)) {
                case NeedMore => r == Ok(None) && buffer == old(buffer)
                case Broken(e) => r == Err(e)
                case Frame(v, used) => r == Ok(Some(v)) && buffer == old(buffer)[used..]
              }
    {
      if |buffer| < 5 {
        return Ok(None);
      }
      var compressed := buffer[0];
      var length := FromBigEndian(buffer[1], buffer[2], buffer[3], buffer[4]);
      if length > MAX_MESSAGE_BYTES {
        return Err(MessageTooLarge);
      }
      if |buffer| < length + 5 {
        return Ok(None);
      }
      var message := buffer[5..5 + length];
      buffer := buffer[5 + length..];
      if compressed != 0 {
        return Err(Compressed);
      }
      r := Ok(Some(message));
    }

    /** Takes every complete frame; in single-message mode, at most one. */
    method TakeMessages(single: bool) returns (r: Option<GrpcError>)
      requires bytesReceived == TotalLength(messages)
      modifies this
      ensures bytesReceived == TotalLength(messages)
      ensures if single then TakenOne(old(messages), old(buffer), messages, buffer, r)
              else TakenAll(old(messages), old(buffer), messages, buffer, r)
    {
      ParserFitsStreaming();
      hide ParseFrame, TotalLength, Drain;
      ghost var all := Drain(ParseFrame, buffer);
      assert [] + all.frames == all.frames;
      ghost var taken := [];
      assert messages + taken == messages;
      while true
        invariant bytesReceived == TotalLength(messages)
        invariant messages == old(messages) + taken
        invariant var d := Drain(ParseFrame, buffer); all == Drained(taken + d.frames, d.rest, d.error)
        invariant single ==> taken == [] && buffer == old(buffer)
        decreases |buffer|
      {
        DrainUnfold(ParseFrame, buffer);
        assert taken + [] == taken;
        var frame := TakeFrame();
        if frame.Err? {
          return Some(frame.error);
        }
        if frame.value.None? {
          return None;
        }
        var message := frame.value.value;
        OneMoreMessage(messages, message);
        bytesReceived := bytesReceived + |message|;
        Regroup(old(messages), taken, message);
        Regroup'(taken, message, Drain(ParseFrame, buffer).frames);
        messages := messages + [message];
        taken := taken + [message];
        if single {
          return None;
        }
      }
    }

    /** The response loop over the chunks of a stream. */
    method Receive(chunks: seq<Bytes>, single: bool) returns (r: Option<GrpcError>)
      requires buffer == [] && messages == [] && bytesReceived == 0
      modifies this
      ensures bytesReceived == TotalLength(messages)
      ensures if single then IsFirstAnswer(chunks, messages, r) else IsAnswer(chunks, messages, buffer, r)
    {
      hide TotalLength, Concat, Fitting, Overflow, IsAnswer, IsFirstAnswer, TakenOne, TakenAll, SoFar, ParseFrame;
      var wire := 0;
      ghost var fed: Bytes := [];
      ghost var fit := Fitting(chunks, MAX_RESPONSE_BYTES);
      NothingYet(single);
      FittingStart(chunks, MAX_RESPONSE_BYTES);
      for i := 0 to |chunks|
        invariant wire == |fed| <= MAX_RESPONSE_BYTES
        invariant fit == fed + Fitting(chunks[i..], MAX_RESPONSE_BYTES - wire)
        invariant Overflow(chunks).Some? <==> |Concat(chunks[i..])| > MAX_RESPONSE_BYTES - wire
        invariant bytesReceived == TotalLength(messages)
        invariant SoFar(single, fed, messages, buffer)
      {
        var chunk := chunks[i];
        FittingNext(chunks, i, MAX_RESPONSE_BYTES - wire);
        wire := wire + |chunk|;
        if wire > MAX_RESPONSE_BYTES {
          Exhausted(chunks, single, fed, messages, buffer);
          return Some(ResponseTooLarge);
        }
        ghost var more := Fitting(chunks[i + 1..], MAX_RESPONSE_BYTES - wire);
        Regrouped(fed, chunk, more);
        ghost var messages0, buffer0 := messages, buffer;
        buffer := buffer + chunk;
        r := TakeMessages(single);
        if single {
          OneTaken(chunks, fed, chunk, more, messages0, buffer0, messages, buffer, r);
        } else {
          AllTaken(chunks, fed, chunk, more, messages0, buffer0, messages, buffer, r);
        }
        if r.Some? || (single && messages != []) {
          return;
        }
        fed := fed + chunk;
      }
      FittingEnd(chunks, MAX_RESPONSE_BYTES - wire);
      Exhausted(chunks, single, fed, messages, buffer);
      r := None;
    }
  }

  /** What draining a buffer does to it and to the messages. */
  ghost predicate TakenAll(messages: seq<Bytes>, buffer: Bytes, messages': seq<Bytes>, buffer': Bytes, r: Option<GrpcError>) {
    && Advances(ParseFrame)
    && var d := Drain(ParseFrame, buffer);
       messages' == messages + d.frames && r == d.error && (r.None? ==> buffer' == d.rest)
  }

  /** What taking at most one frame does. */
  ghost predicate TakenOne(messages: seq<Bytes>, buffer: Bytes, messages': seq<Bytes>, buffer': Bytes, r: Option<GrpcError>) {
    match ParseFrame(buffer)
    case NeedMore => r.None? && buffer' == buffer && messages' == messages
    case Broken(e) => r == Some(e) && messages' == messages
    case Frame(v, used) => r.None? && messages' == messages + [v]
  }

  /** The state between two chunks. */
  ghost predicate SoFar(single: bool, fed: Bytes, messages: seq<Bytes>, buffer: Bytes) {
    && Advances(ParseFrame)
    && if single then messages == [] && buffer == fed && ParseFrame(fed).NeedMore?
       else Drain(ParseFrame, fed) == Drained(messages, buffer, None)
  }

  /** Another chunk drained: the state goes on, or a bad frame settles the answer whatever follows. */
  lemma AllTaken(
      chunks: seq<Bytes>, fed: Bytes, chunk: Bytes, more: Bytes, messages: seq<Bytes>, buffer: Bytes,
      messages': seq<Bytes>, buffer': Bytes, r: Option<GrpcError>)
    requires SoFar(false, fed, messages, buffer) && TakenAll(messages, buffer + chunk, messages', buffer', r)
    requires Fitting(chunks, MAX_RESPONSE_BYTES) == (fed + chunk) + more
    ensures r.None? ==> SoFar(false, fed + chunk, messages', buffer')
    ensures r.Some? ==> IsAnswer(chunks, messages', buffer', r)
  {
    hide ParseFrame, Drain, Fitting;
    ParserFitsStreaming();
    DrainExtends(ParseFrame, fed, chunk);
    DrainExtends(ParseFrame, fed + chunk, more);
  }

  /** The same when one message is expected. */
  lemma OneTaken(
      chunks: seq<Bytes>, fed: Bytes, chunk: Bytes, more: Bytes, messages: seq<Bytes>, buffer: Bytes,
      messages': seq<Bytes>, buffer': Bytes, r: Option<GrpcError>)
    requires SoFar(true, fed, messages, buffer) && TakenOne(messages, buffer + chunk, messages', buffer', r)
    requires Fitting(chunks, MAX_RESPONSE_BYTES) == (fed + chunk) + more
    ensures r.None? && messages' == [] ==> SoFar(true, fed + chunk, messages', buffer')
    ensures r.Some? || messages' != [] ==> IsFirstAnswer(chunks, messages', r)
  {
    hide ParseFrame, Fitting;
    ParserFitsStreaming();
    StableVerdict(ParseFrame, fed + chunk, more);
  }

  /** The bytes of the leading chunks that together stay within the room. */
  function Fitting(chunks: seq<Bytes>, room: nat): Bytes {
    if chunks == [] || |chunks[0]| > room then [] else chunks[0] + Fitting(chunks[1..], room - |chunks[0]|)
  }

  function Overflow(chunks: seq<Bytes>): Option<GrpcError> {
    if |Concat(chunks)| > MAX_RESPONSE_BYTES then Some(ResponseTooLarge) else None
  }

  /**
   * The answer to a stream: the frames in the chunks that fit the limit. It fails on the first bad frame
   * among them, else on a chunk beyond the limit; what is left over is an unfinished frame.
   */
  ghost predicate IsAnswer(chunks: seq<Bytes>, messages: seq<Bytes>, buffer: Bytes, r: Option<GrpcError>) {
    && Advances(ParseFrame)
    && var d := Drain(ParseFrame, Fitting(chunks, MAX_RESPONSE_BYTES));
       && messages == d.frames
       && r == (if d.error.Some? then d.error else Overflow(chunks))
       && (r.None? ==> buffer == d.rest)
  }

  /** The same when one message is expected: what comes after it does not matter. */
  ghost predicate IsFirstAnswer(chunks: seq<Bytes>, messages: seq<Bytes>, r: Option<GrpcError>) {
    match ParseFrame(Fitting(chunks, MAX_RESPONSE_BYTES))
    case NeedMore => r == Overflow(chunks) && messages == []
    case Broken(e) => r == Some(e) && messages == []
    case Frame(v, used) => r.None? && messages == [v]
  }

  /** No more chunks, or none that fits. */
  lemma Exhausted(chunks: seq<Bytes>, single: bool, fed: Bytes, messages: seq<Bytes>, buffer: Bytes)
    requires SoFar(single, fed, messages, buffer) && Fitting(chunks, MAX_RESPONSE_BYTES) == fed + []
    ensures var r := if Overflow(chunks).Some? then Some(ResponseTooLarge) else None;
            if single then IsFirstAnswer(chunks, messages, r) else IsAnswer(chunks, messages, buffer, r)
  {
    hide ParseFrame, Drain, Fitting;
    assert fed + [] == fed;
  }

  /**
   * However framed messages and the first `k` bytes of another frame are cut into chunks, the response
   * loop returns those messages in order, and bytes are left over exactly when the stream stopped
   * inside a frame.
   */
  lemma AnyChunkingDelivers(
      chunks: seq<Bytes>, sent: seq<Bytes>, next: Bytes, k: nat, messages: seq<Bytes>, buffer: Bytes, r: Option<GrpcError>)
    requires IsAnswer(chunks, messages, buffer, r) && |Concat(chunks)| <= MAX_RESPONSE_BYTES
    requires Carries(chunks, sent, next, k)
    ensures r.None? && messages == sent && buffer == EncodeFrame(next)[..k] && (buffer != [] <==> k > 0)
  {
    FittingAll(chunks, MAX_RESPONSE_BYTES);
    CarriedDrains(chunks, sent, next, k);
    hide ParseFrame, Drain, Fitting, EncodeFrame, EncodeAll;
    assert |EncodeFrame(next)[..k]| == k;
  }

  lemma {:induction false} FittingAll(chunks: seq<Bytes>, room: nat)
    requires |Concat(chunks)| <= room
    ensures Fitting(chunks, room) == Concat(chunks)
    decreases |chunks|
  {
    if chunks != [] {
      FittingAll(chunks[1..], room - |chunks[0]|);
    }
  }

  lemma FittingStart(chunks: seq<Bytes>, room: nat)
    ensures [] + Fitting(chunks[0..], room) == Fitting(chunks, room)
    ensures Overflow(chunks).Some? <==> |Concat(chunks[0..])| > MAX_RESPONSE_BYTES
  {
    assert chunks[0..] == chunks;
  }

  lemma FittingNext(chunks: seq<Bytes>, i: nat, room: nat)
    requires i < |chunks|
    ensures Fitting(chunks[i..], room) ==
            if |chunks[i]| > room then [] else chunks[i] + Fitting(chunks[i + 1..], room - |chunks[i]|)
    ensures |Concat(chunks[i..])| == |chunks[i]| + |Concat(chunks[i + 1..])|
  {
    assert chunks[i..][1..] == chunks[i + 1..];
  }

  lemma FittingEnd(chunks: seq<Bytes>, room: nat)
    ensures Fitting(chunks[|chunks|..], room) == [] && Concat(chunks[|chunks|..]) == []
  {
    assert chunks[|chunks|..] == [];
  }

  lemma Regrouped(a: Bytes, b: Bytes, c: Bytes)
    ensures a + (b + c) == (a + b) + c
  {}

  lemma OneMoreMessage(messages: seq<Bytes>, message: Bytes)
    ensures TotalLength(messages + [message]) == TotalLength(messages) + |message|
  {
    TotalLengthAppend(messages, [message]);
  }

  lemma Regroup<T>(a: seq<T>, b: seq<T>, x: T)
    ensures (a + b) + [x] == a + (b + [x])
  {}

  lemma Regroup'<T>(a: seq<T>, x: T, b: seq<T>)
    ensures a + ([x] + b) == (a + [x]) + b
  {}

  lemma NothingYet(single: bool)
    ensures SoFar(single, [], [], []) && TotalLength([]) == 0
  {
    ParserFitsStreaming();
    DrainUnfold(ParseFrame, []);
  }

  lemma StableVerdict<T, E>(p: Parser<T, E>, b: Bytes, ext: Bytes)
    requires Stable(p)
    ensures !p(b).NeedMore? ==> p(b + ext) == p(b)
  {}
}
