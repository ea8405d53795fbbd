/**
 * The Redis driver around the frame parser: encoding commands, reading frames off a connection
 * chunk by chunk, and collecting the replies to a pipeline.
 */
module RespSession {
  import opened Base
  import opened Decimal
  import opened Utf8
  import opened Streaming
  import opened Resp

  /** The read buffer may not grow beyond 64 MiB. */
  const BUFFER_LIMIT: nat := 64 * 1024 * 1024

  // ----- encoding -----

  function EncodeBulk(arg: Bytes): Bytes {
    [36] + Digits(|arg|) + CRLF + arg + CRLF
  }

  function EncodeArguments(args: seq<Bytes>): Bytes {
    if args == [] then [] else EncodeArguments(args[..|args| - 1]) + EncodeBulk(args[|args| - 1])
  }

  function EncodeCommand(args: seq<Bytes>): Bytes {
    [42] + Digits(|args|) + CRLF + EncodeArguments(args)
  }

  function EncodePipeline(commands: seq<seq<Bytes>>): Bytes {
    if commands == [] then [] else EncodeCommand(commands[0]) + EncodePipeline(commands[1..])
  }

  method EncodeCommandBytes(args: seq<Bytes>) returns (output: Bytes)
    ensures output == EncodeCommand(args)
  {
    output := [42] + Digits(|args|) + CRLF;
    var head := output;
    for i := 0 to |args|
      invariant output == head + EncodeArguments(args[..i])
    {
      assert args[..i + 1][..i] == args[..i];
      output := output + ([36] + Digits(|args[i]|) + CRLF);
      output := output + args[i];
      output := output + CRLF;
    }
    assert args[..|args|] == args;
  }

  /** Arguments are text, and lengths are what a Rust vector can have. */
  ghost predicate Encodable(args: seq<Bytes>) {
    |args| <= I64_MAX && forall i :: 0 <= i < |args| ==> ValidUtf8(args[i]) && |args[i]| <= I64_MAX
  }

  function BulkValues(args: seq<Bytes>): seq<Value> {
    seq(|args|, i requires 0 <= i < |args| => Bulk(args[i]))
  }

  /** A header line written by the encoder is found whole by the parser. */
  lemma HeaderLine(prefix: byte, n: nat, rest: Bytes)
    ensures var input := [prefix] + Digits(n) + CRLF + rest;
            var end := 1 + |Digits(n)|;
            FindCrlf(input, 1) == Some(end) && input[1..end] == Digits(n) && input[end + 2..] == rest
  {
    var input := [prefix] + Digits(n) + CRLF + rest;
    var end := 1 + |Digits(n)|;
    assert CrlfAt(input, end);
    forall i | 1 <= i < end ensures !CrlfAt(input, i) {
      assert input[i] == Digits(n)[i - 1];
      assert IsDigit(Digits(n)[i - 1]);
    }
    FindCrlfIsFirst(input, 1, end);
  }

  lemma BulkFromParts(arg: Bytes, head: Bytes, input: Bytes, cursor: nat)
    requires ValidUtf8(arg) && ParseI64(head) == Some(|arg|) && cursor + |arg| + 2 <= |input|
    requires input[cursor..cursor + |arg|] == arg && input[cursor + |arg|..cursor + |arg| + 2] == CRLF
    ensures ParseBulk(36, head, cursor, input) == Frame(Bulk(arg), cursor + |arg| + 2)
  {
    hide ValidUtf8, ParseI64;
  }

  lemma BulkBody(arg: Bytes, input: Bytes, cursor: nat, rest: Bytes)
    requires ValidUtf8(arg) && |arg| <= I64_MAX && cursor <= |input| && input[cursor..] == arg + (CRLF + rest)
    ensures ParseBulk(36, Digits(|arg|), cursor, input) == Frame(Bulk(arg), cursor + |arg| + 2)
  {
    hide ValidUtf8, Digits, ParseI64, ParseBulk;
    ParseOfDigits(|arg|);
    SplitTail(input, cursor, arg, CRLF + rest);
    SplitTail(input, cursor + |arg|, CRLF, rest);
    BulkFromParts(arg, Digits(|arg|), input, cursor);
  }

  lemma SplitTail(input: Bytes, cursor: nat, a: Bytes, b: Bytes)
    requires cursor <= |input| && input[cursor..] == a + b
    ensures cursor + |a| <= |input| && input[cursor..cursor + |a|] == a && input[cursor + |a|..] == b
  {
    assert |input| - cursor == |a| + |b|;
    assert input[cursor..cursor + |a|] == input[cursor..][..|a|];
    assert input[cursor + |a|..] == input[cursor..][|a|..];
  }

  lemma BulkRoundTrip(arg: Bytes, rest: Bytes)
    requires ValidUtf8(arg) && |arg| <= I64_MAX
    ensures ParseFrame(EncodeBulk(arg) + rest) == Frame(Bulk(arg), |EncodeBulk(arg)|)
  {
    hide ValidUtf8, Digits, ParseBulk, ParseScalar, ParseAggregate;
    var input := [36] + Digits(|arg|) + CRLF + (arg + (CRLF + rest));
    assert EncodeBulk(arg) + rest == input;
    HeaderLine(36, |arg|, arg + (CRLF + rest));
    BulkBody(arg, input, 3 + |Digits(|arg|)|, rest);
  }

  lemma AppendThree(a: Bytes, b: Bytes, c: Bytes)
    ensures (a + b) + c == a + (b + c)
    ensures ((a + b) + c)[|a|..] == b + c
  {}

  lemma {:induction false} ArgumentsRoundTrip(args: seq<Bytes>, rest: Bytes)
    requires Encodable(args)
    ensures Advances(ParseFrame)
    ensures ParseMany(ParseFrame, EncodeArguments(args) + rest, |args|) == Many(BulkValues(args), |EncodeArguments(args)|)
    decreases |args|
  {
    ParserFitsStreaming();
    hide ParseFrame, EncodeBulk, ValidUtf8, BulkValues, ParseMany;
    if args != [] {
      var front := args[..|args| - 1];
      var last := args[|args| - 1];
      var tail := EncodeBulk(last) + rest;
      var input := EncodeArguments(args) + rest;
      AppendThree(EncodeArguments(front), EncodeBulk(last), rest);
      ArgumentsRoundTrip(front, tail);
      BulkRoundTrip(last, rest);
      ManyNext(ParseFrame, input, |args| - 1, |args|, BulkValues(front), |EncodeArguments(front)|);
      BulkValuesLast(args);
      assert |EncodeArguments(args)| == |EncodeArguments(front)| + |EncodeBulk(last)|;
    } else {
      NoArguments(rest);
    }
  }

  lemma BulkValuesLast(args: seq<Bytes>)
    requires args != []
    ensures BulkValues(args) == BulkValues(args[..|args| - 1]) + [Bulk(args[|args| - 1])]
  {}

  lemma NoArguments(rest: Bytes)
    ensures Advances(ParseFrame)
    ensures ParseMany(ParseFrame, EncodeArguments([]) + rest, 0) == Many(BulkValues([]), 0)
  {
    ParserFitsStreaming();
  }

  /** Any command, with arguments that may contain CRLF, decodes to itself and takes exactly its bytes. */
  lemma CommandRoundTrip(args: seq<Bytes>, rest: Bytes)
    requires Encodable(args)
    ensures ParseFrame(EncodeCommand(args) + rest) == Frame(Array(BulkValues(args)), |EncodeCommand(args)|)
  {
    var body := EncodeArguments(args) + rest;
    var input := [42] + Digits(|args|) + CRLF + body;
    assert EncodeCommand(args) + rest == input;
    HeaderLine(42, |args|, body);
    AggregateBody(args, input, 3 + |Digits(|args|)|, rest);
    hide ParseAggregate, EncodeArguments, BulkValues, Digits, FindCrlf;
    assert |EncodeCommand(args)| == 3 + |Digits(|args|)| + |EncodeArguments(args)|;
  }

  lemma AggregateBody(args: seq<Bytes>, input: Bytes, cursor: nat, rest: Bytes)
    requires Encodable(args) && 0 < cursor <= |input| && input[cursor..] == EncodeArguments(args) + rest
    ensures ParseAggregate(42, Digits(|args|), cursor, input)
            == Frame(Array(BulkValues(args)), cursor + |EncodeArguments(args)|)
  {
    hide ParseFrame, Digits, ParseI64, EncodeArguments, BulkValues, ParseEntries, ParseMany;
    ParseOfDigits(|args|);
    ParserFitsStreaming();
    ArgumentsRoundTrip(args, rest);
    EntriesAreFrames(input[cursor..], |args|);
  }

  function CommandValues(commands: seq<seq<Bytes>>): seq<Value> {
    if commands == [] then [] else [Array(BulkValues(commands[0]))] + CommandValues(commands[1..])
  }

  /** A whole pipeline decodes to the same commands in order, with nothing left over. */
  lemma {:induction false} PipelineRoundTrip(commands: seq<seq<Bytes>>)
    requires forall i :: 0 <= i < |commands| ==> Encodable(commands[i])
    ensures Advances(ParseFrame)
    ensures Drain(ParseFrame, EncodePipeline(commands)) == Drained(CommandValues(commands), [], None)
    decreases |commands|
  {
    ParserFitsStreaming();
    if commands != [] {
      var rest := EncodePipeline(commands[1..]);
      CommandRoundTrip(commands[0], rest);
      assert (EncodeCommand(commands[0]) + rest)[|EncodeCommand(commands[0])|..] == rest;
      PipelineRoundTrip(commands[1..]);
    }
  }

  // ----- the parser as the driver writes it: a loop over the entries of an aggregate -----

  method ParseFrameBytes(input: Bytes) returns (r: Parse<Value, RespError>)
    ensures r == ParseFrame(input)
    decreases |input|, 1
  {
    if input == [] {
      return NeedMore;
    }
    var end := FindCrlf(input, 1);
    if end.None? {
      return NeedMore;
    }
    var head, cursor := input[1..end.value], end.value + 2;
    if IsBulkPrefix(input[0]) {
      return ParseBulk(input[0], head, cursor, input);
    }
    if !IsAggregatePrefix(input[0]) {
      return ParseScalar(input[0], head, cursor);
    }
    var count := ParseI64(head);
    if count.None? {
      return Broken(BadAggregateLength);
    }
    if count.value < 0 {
      return Frame(Null, cursor);
    }
    r := ParseAggregateLoop(input, cursor, EntryCount(input[0], count.value));
  }

  /** The loop over the entries of an aggregate. */
  method ParseAggregateLoop(input: Bytes, cursor: nat, entries: nat) returns (r: Parse<Value, RespError>)
    requires 0 < cursor <= |input|
    ensures match ParseEntries(input[cursor..], entries) {
              case Unfinished => r == NeedMore
              case BadMany(e) => r == Broken(e)
              case Many(values, used) => r == Frame(if input[0] == 37 then Map(values) else Array(values), cursor + used)
            }
    decreases |input|, 0
  {
    hide ParseFrame, ParseEntries, ParseMany;
    ParserFitsStreaming();
    EntriesAreFrames(input[cursor..], entries);
    ManyNone(ParseFrame, input[cursor..]);
    var values: seq<Value>, used := [], cursor;
    for i := 0 to entries
      invariant cursor <= used <= |input|
      invariant ParseMany(ParseFrame, input[cursor..], i) == Many(values, used - cursor)
    {
      var step := ParseFrameBytes(input[used..]);
      ManyNext(ParseFrame, input[cursor..], i, entries, values, used - cursor);
      assert input[cursor..][used - cursor..] == input[used..];
      if step.NeedMore? {
        return NeedMore;
      }
      if step.Broken? {
        return Broken(step.error);
      }
      values, used := values + [step.value], used + step.used;
    }
    r := Frame(if input[0] == 37 then Map(values) else Array(values), used);
  }

  // ----- reading replies -----

  datatype SessionError = ReadFailed(error: ReadError<RespError>) | SetupFailed(text: Bytes)

  /** The replies to a pipeline, as a function of the whole stream: setup replies are dropped. */
  function Replies(stream: Bytes, index: nat, total: nat, setup: nat): Result<seq<Value>, SessionError>
    requires index <= total
    decreases total - index
  {
    if index == total then Ok([])
    else
      match ParseFrame(stream)
      case NeedMore => Err(ReadFailed(Closed))
      case Broken(e) => Err(ReadFailed(BadFrame(e)))
      case Frame(v, used) =>
        if index < setup && v.Error? then Err(SetupFailed(v.text))
        else
          var rest := Replies(stream[used..], index + 1, total, setup);
          if rest.Err? then rest else Ok((if index >= setup then [v] else []) + rest.value)
  }

  /** Successful replies are exactly the frames of the stream after the setup ones, in order. */
  lemma {:induction false} RepliesAreFrames(stream: Bytes, index: nat, total: nat, setup: nat)
    requires index <= total && setup <= total && Replies(stream, index, total, setup).Ok?
    ensures Advances(ParseFrame)
    ensures var many := ParseMany(ParseFrame, stream, total - index);
            many.Many? && Replies(stream, index, total, setup).value == many.values[if index < setup then setup - index else 0..]
    decreases total - index
  {
    ParserFitsStreaming();
    hide ParseFrame;
    if index < total {
      var f := ParseFrame(stream);
      RepliesAreFrames(stream[f.used..], index + 1, total, setup);
      var rest := ParseMany(ParseFrame, stream[f.used..], total - index - 1).values;
      ManyUnfold(ParseFrame, stream, total - index);
      DropFront(f.value, rest, if index < setup then setup - index else 0);
    }
  }

  lemma DropFront(v: Value, rest: seq<Value>, n: nat)
    requires n <= |rest| + 1
    ensures ([v] + rest)[n..] == if n == 0 then [v] + rest[0..] else rest[n - 1..]
  {}

  /** Dropping setup replies, a run of `total` successful replies is a slice of the drained stream. */
  lemma RepliesAreDrained(stream: Bytes, total: nat, setup: nat)
    requires setup <= total && Replies(stream, 0, total, setup).Ok?
    ensures Advances(ParseFrame)
    ensures |Drain(ParseFrame, stream).frames| >= total
    ensures Replies(stream, 0, total, setup).value == Drain(ParseFrame, stream).frames[setup..total]
  {
    ParserFitsStreaming();
    hide ParseFrame, Replies, ParseMany, Drain;
    RepliesAreFrames(stream, 0, total, setup);
    ManyIsDrained(ParseFrame, stream, total);
    PrefixSlice(ParseMany(ParseFrame, stream, total).values, Drain(ParseFrame, stream).frames, setup);
  }

  lemma PrefixSlice(a: seq<Value>, b: seq<Value>, n: nat)
    requires a <= b && n <= |a|
    ensures a[n..] == b[n..|a|]
  {}

  class Connection {
    var incoming: seq<Bytes>
    var buffer: Bytes

    ghost function Unread(): Bytes
      reads this
    {
      buffer + Concat(incoming)
    }

    /** Chunks have at most `chunk` bytes, and no frame is so long that one more could overflow the buffer. */
    ghost predicate Calm(chunk: nat)
      reads this
    {
      && AllNonEmpty(incoming) && AtMost(incoming, chunk)
      && Advances(ParseFrame) && RoomyThroughout(ParseFrame, BUFFER_LIMIT, chunk, Unread())
    }

    constructor (chunks: seq<Bytes>)
      ensures incoming == chunks && buffer == []
    {
      incoming, buffer := chunks, [];
    }

    /** Parses the buffer, fetching another chunk whenever there is not a whole frame yet. */
    method ReadFrame() returns (r: Result<Value, ReadError<RespError>>)
      modifies this
      ensures Advances(ParseFrame)
      ensures Read(r, buffer, incoming) == ReadOne(ParseFrame, BUFFER_LIMIT, old(buffer), old(incoming))
    {
      ParserFitsStreaming();
      while true
        invariant ReadOne(ParseFrame, BUFFER_LIMIT, buffer, incoming) == ReadOne(ParseFrame, BUFFER_LIMIT, old(buffer), old(incoming))
        decreases |incoming|
      {
        var parsed := ParseFrameBytes(buffer);
        if parsed.Frame? {
          buffer := buffer[parsed.used..];
          return Ok(parsed.value);
        }
        if parsed.Broken? {
          return Err(BadFrame(parsed.error));
        }
        if incoming == [] {
          return Err(Closed);
        }
        var chunk := incoming[0];
        incoming := incoming[1..];
        if chunk == [] {
          return Err(Closed);
        }
        buffer := buffer + chunk;
        if |buffer| > BUFFER_LIMIT {
          return Err(TooLong);
        }
      }
    }

    /** Reads one reply per command; the first `setup` must not be errors and are not returned. */
    method ReadReplies(total: nat, setup: nat) returns (r: Result<seq<Value>, SessionError>)
      modifies this
      ensures (exists chunk: nat :: old(Calm(chunk))) ==> r == Replies(old(Unread()), 0, total, setup)
    {
      hide ParseFrame, Replies, ReadOne, Concat, Roomy;
      ParserFitsStreaming();
      var responses: seq<Value> := [];
      ghost var chunk: nat :| (exists c: nat :: Calm(c)) ==> Calm(chunk);
      ghost var calm, stream := Calm(chunk), Unread();
      PrefixedNothing(Replies(stream, 0, total, setup));
      for index := 0 to total
        invariant calm ==> Calm(chunk)
        invariant calm ==> Prefixed(responses, Replies(Unread(), index, total, setup)) == Replies(stream, 0, total, setup)
      {
        ghost var before := Unread();
        RepliesUnfold(before, index, total, setup);
        if calm {
          ReadOneIgnoresChunking(ParseFrame, BUFFER_LIMIT, chunk, buffer, incoming);
        }
        var value := ReadFrame();
        if value.Err? {
          return Err(ReadFailed(value.error));
        }
        if index < setup && value.value.Error? {
          return Err(SetupFailed(value.value.text));
        }
        var kept := if index >= setup then [value.value] else [];
        PrefixedStep(responses, kept, Replies(Unread(), index + 1, total, setup));
        responses := responses + kept;
      }
      RepliesDone(Unread(), total, setup);
      assert responses + [] == responses;
      r := Ok(responses);
    }
  }

  lemma RepliesUnfold(stream: Bytes, index: nat, total: nat, setup: nat)
    requires index < total
    ensures Replies(stream, index, total, setup) ==
            match ParseFrame(stream) {
              case NeedMore => Err(ReadFailed(Closed))
              case Broken(e) => Err(ReadFailed(BadFrame(e)))
              case Frame(v, used) =>
                if index < setup && v.Error? then Err(SetupFailed(v.text))
                else Prefixed(if index >= setup then [v] else [], Replies(stream[used..], index + 1, total, setup))
            }
  {
    hide ParseFrame;
  }

  lemma RepliesDone(stream: Bytes, total: nat, setup: nat)
    ensures Replies(stream, total, total, setup) == Ok([])
  {}

  lemma PrefixedNothing(rest: Result<seq<Value>, SessionError>)
    ensures Prefixed([], rest) == rest
  {
    assert rest.Ok? ==> [] + rest.value == rest.value;
  }

  ghost function Prefixed(done: seq<Value>, rest: Result<seq<Value>, SessionError>): Result<seq<Value>, SessionError> {
    if rest.Err? then rest else Ok(done + rest.value)
  }

  lemma PrefixedStep(done: seq<Value>, kept: seq<Value>, rest: Result<seq<Value>, SessionError>)
    ensures Prefixed(done + kept, rest) == Prefixed(done, Prefixed(kept, rest))
  {
    if rest.Ok? {
      assert (done + kept) + rest.value == done + (kept + rest.value);
    }
  }
}
