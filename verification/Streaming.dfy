/**
 * Incremental parsing. A parser looks at a buffer and finds a frame at its front, an error, or
 * not enough bytes yet. If it never changes its mind when more bytes arrive, then what a reader
 * sees does not depend on how the stream was cut into chunks.
 */
module Streaming {
  import opened Base

  datatype Parse<+T, +E> = NeedMore | Frame(value: T, used: nat) | Broken(error: E)

  type Parser<!T, !E> = Bytes -> Parse<T, E>

  /** A verdict on a buffer stands for every extension of that buffer. */
  ghost predicate Stable<T, E>(p: Parser<T, E>) {
    forall b: Bytes, ext: Bytes :: !p(b).NeedMore? ==> p(b + ext) == p(b)
  }

  /** A frame takes at least one byte and no more than there are. */
  ghost predicate Advances<T, E>(p: Parser<T, E>) {
    forall b: Bytes :: p(b).Frame? ==> 0 < p(b).used <= |b|
  }

  function Concat(chunks: seq<Bytes>): Bytes {
    if chunks == [] then [] else chunks[0] + Concat(chunks[1..])
  }

  lemma SliceAppend(b: Bytes, ext: Bytes, i: nat)
    requires i <= |b|
    ensures (b + ext)[i..] == b[i..] + ext
  {}

  // ----- draining: take every frame that is complete -----

  datatype Drained<+T, +E> = Drained(frames: seq<T>, rest: Bytes, error: Option<E>)

  ghost function Drain<T, E>(p: Parser<T, E>, b: Bytes): Drained<T, E>
    requires Advances(p)
    decreases |b|
  {
    match p(b)
    case NeedMore => Drained([], b, None)
    case Broken(e) => Drained([], b, Some(e))
    case Frame(v, used) => After(v, Drain(p, b[used..]))
  }

  function After<T, E>(v: T, d: Drained<T, E>): Drained<T, E> {
    Drained([v] + d.frames, d.rest, d.error)
  }

  lemma DrainUnfold<T, E>(p: Parser<T, E>, b: Bytes)
    requires Advances(p)
    ensures p(b).NeedMore? ==> Drain(p, b) == Drained([], b, None)
    ensures p(b).Broken? ==> Drain(p, b) == Drained([], b, Some(p(b).error))
    ensures p(b).Frame? ==> Drain(p, b) == After(p(b).value, Drain(p, b[p(b).used..]))
  {}

  /** Going on from `d` with what draining its leftover and `ext` gives. */
  ghost function Resume<T, E>(p: Parser<T, E>, d: Drained<T, E>, ext: Bytes): Drained<T, E>
    requires Advances(p)
  {
    if d.error.Some? then Drained(d.frames, d.rest + ext, d.error)
    else
      var more := Drain(p, d.rest + ext);
      Drained(d.frames + more.frames, more.rest, more.error)
  }

  lemma ResumeAfterFrame<T, E>(p: Parser<T, E>, v: T, d: Drained<T, E>, ext: Bytes)
    requires Advances(p)
    ensures var r := Resume(p, d, ext);
            Resume(p, Drained([v] + d.frames, d.rest, d.error), ext) == Drained([v] + r.frames, r.rest, r.error)
  {
    if d.error.None? {
      var more := Drain(p, d.rest + ext);
      assert ([v] + d.frames) + more.frames == [v] + (d.frames + more.frames);
    }
  }

  /** Draining a longer buffer is draining the shorter one and going on with what was left. */
  lemma {:induction false} DrainExtends<T, E>(p: Parser<T, E>, b: Bytes, ext: Bytes)
    requires Advances(p) && Stable(p)
    ensures Drain(p, b + ext) == Resume(p, Drain(p, b), ext)
    decreases |b|
  {
    if p(b).NeedMore? {
      var more := Drain(p, b + ext);
      assert [] + more.frames == more.frames;
    } else {
      assert p(b + ext) == p(b);
      if p(b).Frame? {
        var used := p(b).used;
        SliceAppend(b, ext, used);
        DrainExtends(p, b[used..], ext);
        ResumeAfterFrame(p, p(b).value, Drain(p, b[used..]), ext);
      }
    }
  }

  /** A reader that drains its buffer after each chunk, stopping at the first error. */
  ghost function Feed<T, E>(p: Parser<T, E>, buffer: Bytes, chunks: seq<Bytes>): Drained<T, E>
    requires Advances(p)
    decreases |chunks|
  {
    if chunks == [] then Drained([], buffer, None)
    else
      var d := Drain(p, buffer + chunks[0]);
      if d.error.Some? then d
      else
        var rest := Feed(p, d.rest, chunks[1..]);
        Drained(d.frames + rest.frames, rest.rest, rest.error)
  }

  /** The same frames, the same error and the same leftover, however the bytes are cut. */
  lemma {:induction false} FeedIgnoresChunking<T, E>(p: Parser<T, E>, buffer: Bytes, chunks: seq<Bytes>)
    requires Advances(p) && Stable(p) && p(buffer).NeedMore?
    ensures var f := Feed(p, buffer, chunks);
            var d := Drain(p, buffer + Concat(chunks));
            && f.frames == d.frames && f.error == d.error
            && (f.error.None? ==> f.rest == d.rest)
    decreases |chunks|
  {
    if chunks == [] {
      assert buffer + [] == buffer;
    } else {
      var d := Drain(p, buffer + chunks[0]);
      assert buffer + Concat(chunks) == (buffer + chunks[0]) + Concat(chunks[1..]);
      DrainExtends(p, buffer + chunks[0], Concat(chunks[1..]));
      if d.error.None? {
        DrainEndsHungry(p, buffer + chunks[0]);
        FeedIgnoresChunking(p, d.rest, chunks[1..]);
      }
    }
  }

  /** What is left after draining without an error is the start of an unfinished frame. */
  lemma {:induction false} DrainEndsHungry<T, E>(p: Parser<T, E>, b: Bytes)
    requires Advances(p) && Drain(p, b).error.None?
    ensures p(Drain(p, b).rest).NeedMore?
    decreases |b|
  {
    if p(b).Frame? {
      DrainEndsHungry(p, b[p(b).used..]);
    }
  }

  // ----- a fixed number of frames in a row -----

  datatype Many<+T, +E> = Unfinished | Many(values: seq<T>, used: nat) | BadMany(error: E)

  /** Frames already read, followed by what the rest turns out to be. */
  function Continue<T, E>(values: seq<T>, used: nat, rest: Many<T, E>): Many<T, E> {
    if rest.Many? then Many(values + rest.values, used + rest.used) else rest
  }

  lemma ContinueTwice<T, E>(a: seq<T>, i: nat, b: seq<T>, j: nat, rest: Many<T, E>)
    ensures Continue(a, i, Continue(b, j, rest)) == Continue(a + b, i + j, rest)
  {
    if rest.Many? {
      assert a + (b + rest.values) == (a + b) + rest.values;
    }
  }

  ghost function ParseMany<T, E>(p: Parser<T, E>, input: Bytes, count: nat): (r: Many<T, E>)
    requires Advances(p)
    ensures r.Many? ==> r.used <= |input| && |r.values| == count
    decreases count
  {
    if count == 0 then Many([], 0)
    else
      match p(input)
      case NeedMore => Unfinished
      case Broken(e) => BadMany(e)
      case Frame(v, size) => Continue([v], size, ParseMany(p, input[size..], count - 1))
  }

  lemma SliceTwice(b: Bytes, i: nat, j: nat)
    requires i + j <= |b|
    ensures b[i..][j..] == b[i + j..]
  {}

  /** Reading `n` frames and then `m` more is reading `n + m`. */
  lemma {:induction false} ManySplit<T, E>(p: Parser<T, E>, input: Bytes, n: nat, m: nat, values: seq<T>, used: nat)
    requires Advances(p) && ParseMany(p, input, n) == Many(values, used)
    ensures used <= |input|
    ensures ParseMany(p, input, n + m) == Continue(values, used, ParseMany(p, input[used..], m))
    decreases n
  {
    hide ParseMany;
    ManyNone(p, input);
    if n == 0 {
      assert input[used..] == input;
      ContinueNothing(ParseMany(p, input, m));
    } else {
      ManyStarts(p, input, n);
      var v, size := p(input).value, p(input).used;
      ManyUnfold(p, input, n);
      var tail := ParseMany(p, input[size..], n - 1);
      ManySplit(p, input[size..], n - 1, m, tail.values, tail.used);
      SliceTwice(input, size, tail.used);
      ManyUnfold(p, input, n + m);
      ContinueTwice([v], size, tail.values, tail.used, ParseMany(p, input[used..], m));
    }
  }

  lemma ContinueNothing<T, E>(rest: Many<T, E>)
    ensures Continue([], 0, rest) == rest
  {
    assert rest.Many? ==> [] + rest.values == rest.values;
  }

  lemma ManyNone<T, E>(p: Parser<T, E>, input: Bytes)
    requires Advances(p)
    ensures ParseMany(p, input, 0) == Many<T, E>.Many([], 0)
  {}

  lemma ManyStarts<T, E>(p: Parser<T, E>, input: Bytes, n: nat)
    requires Advances(p) && n > 0 && ParseMany(p, input, n).Many?
    ensures p(input).Frame?
  {}

  lemma ManyUnfold<T, E>(p: Parser<T, E>, input: Bytes, count: nat)
    requires Advances(p) && count > 0 && p(input).Frame?
    ensures ParseMany(p, input, count) == Continue([p(input).value], p(input).used, ParseMany(p, input[p(input).used..], count - 1))
  {}

  /** What the next frame decides about a longer run of frames. */
  lemma ManyNext<T, E>(p: Parser<T, E>, input: Bytes, n: nat, total: nat, values: seq<T>, used: nat)
    requires Advances(p) && n < total && ParseMany(p, input, n) == Many(values, used)
    ensures used <= |input|
    ensures p(input[used..]).NeedMore? ==> ParseMany(p, input, total).Unfinished?
    ensures p(input[used..]).Broken? ==> ParseMany(p, input, total) == BadMany(p(input[used..]).error)
    ensures p(input[used..]).Frame? ==>
              ParseMany(p, input, n + 1) == Many(values + [p(input[used..]).value], used + p(input[used..]).used)
  {
    ManySplit(p, input, n, total - n, values, used);
    ManySplit(p, input, n, 1, values, used);
    if p(input[used..]).Frame? {
      ManyOne(p, input[used..]);
    }
  }

  lemma ManyOne<T, E>(p: Parser<T, E>, input: Bytes)
    requires Advances(p) && p(input).Frame?
    ensures ParseMany(p, input, 1) == Many([p(input).value], p(input).used)
  {
    assert ParseMany(p, input[p(input).used..], 0) == Many<T, E>.Many([], 0);
    assert [p(input).value] + [] == [p(input).value];
  }

  /** Draining finds the same frames as reading a known number of them. */
  lemma {:induction false} ManyIsDrained<T, E>(p: Parser<T, E>, input: Bytes, n: nat)
    requires Advances(p) && ParseMany(p, input, n).Many?
    ensures ParseMany(p, input, n).values <= Drain(p, input).frames
    decreases n
  {
    if n > 0 {
      ManyIsDrained(p, input[p(input).used..], n - 1);
    }
  }

  // ----- reading one frame at a time, fetching only when needed -----

  datatype ReadError<+E> = BadFrame(error: E) | Closed | TooLong

  datatype Read<+T, +E> = Read(result: Result<T, ReadError<E>>, buffer: Bytes, chunks: seq<Bytes>)

  /** One frame from the buffer, pulling chunks until it is there; an empty chunk is end of stream. */
  ghost function ReadOne<T, E>(p: Parser<T, E>, limit: nat, buffer: Bytes, chunks: seq<Bytes>): Read<T, E>
    requires Advances(p)
    decreases |chunks|
  {
    match p(buffer)
    case Frame(v, used) => Read(Ok(v), buffer[used..], chunks)
    case Broken(e) => Read(Err(BadFrame(e)), buffer, chunks)
    case NeedMore =>
      if chunks == [] then Read(Err(Closed), buffer, chunks)
      else if chunks[0] == [] then Read(Err(Closed), buffer, chunks[1..])
      else if |buffer + chunks[0]| > limit then Read(Err(TooLong), buffer + chunks[0], chunks[1..])
      else ReadOne(p, limit, buffer + chunks[0], chunks[1..])
  }

  ghost predicate AllNonEmpty(chunks: seq<Bytes>) {
    forall i :: 0 <= i < |chunks| ==> chunks[i] != []
  }

  ghost predicate AtMost(chunks: seq<Bytes>, size: nat) {
    forall i :: 0 <= i < |chunks| ==> |chunks[i]| <= size
  }

  /**
   * The stream fits the limit, or whatever has to be buffered before the parser decides leaves room for
   * one more chunk.
   */
  ghost predicate Roomy<T, E>(p: Parser<T, E>, limit: nat, chunk: nat, stream: Bytes) {
    |stream| <= limit || forall k: nat :: k <= |stream| && p(stream[..k]).NeedMore? ==> k + chunk <= limit
  }

  /** The same at the start of every frame. */
  ghost predicate RoomyThroughout<T, E>(p: Parser<T, E>, limit: nat, chunk: nat, stream: Bytes)
    requires Advances(p)
    decreases |stream|
  {
    && Roomy(p, limit, chunk, stream)
    && (p(stream).Frame? ==> RoomyThroughout(p, limit, chunk, stream[p(stream).used..]))
  }

  /** A stream within the limit is roomy, whatever its frames. */
  lemma {:induction false} ShortIsRoomy<T, E>(p: Parser<T, E>, limit: nat, chunk: nat, stream: Bytes)
    requires Advances(p) && |stream| <= limit
    ensures RoomyThroughout(p, limit, chunk, stream)
    decreases |stream|
  {
    if p(stream).Frame? {
      ShortIsRoomy(p, limit, chunk, stream[p(stream).used..]);
    }
  }

  /** As long as the buffer has room, reading a frame depends only on the bytes still to come. */
  lemma {:induction false} ReadOneIgnoresChunking<T, E>(
      p: Parser<T, E>, limit: nat, chunk: nat, buffer: Bytes, chunks: seq<Bytes>)
    requires Advances(p) && Stable(p) && AllNonEmpty(chunks) && AtMost(chunks, chunk)
    requires Roomy(p, limit, chunk, buffer + Concat(chunks))
    ensures var stream := buffer + Concat(chunks);
            var r := ReadOne(p, limit, buffer, chunks);
            match p(stream) {
              case Frame(v, used) =>
                && r.result == Ok(v) && r.buffer + Concat(r.chunks) == stream[used..]
                && AllNonEmpty(r.chunks) && AtMost(r.chunks, chunk)
              case Broken(e) => r.result == Err(BadFrame(e))
              case NeedMore => r.result == Err(Closed)
            }
    decreases |chunks|
  {
    var stream := buffer + Concat(chunks);
    if !p(buffer).NeedMore? {
      assert p(stream) == p(buffer);
      if p(buffer).Frame? {
        assert stream[p(buffer).used..] == buffer[p(buffer).used..] + Concat(chunks);
      }
    } else if chunks == [] {
      assert stream == buffer;
    } else {
      assert stream == (buffer + chunks[0]) + Concat(chunks[1..]);
      assert stream[..|buffer|] == buffer;
      ReadOneIgnoresChunking(p, limit, chunk, buffer + chunks[0], chunks[1..]);
    }
  }
}
