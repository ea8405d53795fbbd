/**
 * The Redis serialisation protocol as the driver speaks it: commands out, RESP2 and RESP3 frames
 * in. Text in a reply is kept as its raw bytes.
 */
module Resp {
  import opened Base
  import opened Decimal
  import opened Utf8
  import opened Streaming

  const CR: byte := 13
  const LF: byte := 10
  const CRLF: Bytes := [13, 10]

  datatype Value =
    | Null
    | Simple(text: Bytes)
    | Error(text: Bytes)
    | Integer(number: int)
    | Bulk(text: Bytes)
    | Binary(bytes: Bytes)
    | Boolean(truth: bool)
    | Double(text: Bytes)
    | Array(values: seq<Value>)
    | Map(values: seq<Value>)

  datatype RespError = BadInteger | BadBulkLength | BadTerminator | BadDouble | BadAggregateLength | BadPrefix(prefix: byte)

  // ----- lines -----

  predicate CrlfAt(input: Bytes, i: int) {
    0 <= i && i + 2 <= |input| && input[i] == CR && input[i + 1] == LF
  }

  /** The first CRLF at or after `start`. */
  function FindCrlf(input: Bytes, start: nat): (r: Option<nat>)
    requires start <= |input|
    ensures r.Some? ==> start <= r.value && r.value + 2 <= |input|
    decreases |input| - start
  {
    if start + 2 > |input| then None
    else if CrlfAt(input, start) then Some(start)
    else FindCrlf(input, start + 1)
  }

  /** The search stops at the first CRLF and nowhere else. */
  lemma {:induction false} FindCrlfIsFirst(input: Bytes, start: nat, at: nat)
    requires start <= at && CrlfAt(input, at)
    requires forall i :: start <= i < at ==> !CrlfAt(input, i)
    ensures FindCrlf(input, start) == Some(at)
    decreases at - start
  {
    if start < at {
      FindCrlfIsFirst(input, start + 1, at);
    }
  }

  lemma {:induction false} FindCrlfStable(input: Bytes, ext: Bytes, start: nat)
    requires start <= |input| && FindCrlf(input, start).Some?
    ensures FindCrlf(input + ext, start) == FindCrlf(input, start)
    decreases |input| - start
  {
    if !CrlfAt(input, start) {
      FindCrlfStable(input, ext, start + 1);
    }
  }

  // ----- frames -----

  predicate IsBulkPrefix(c: byte) { c == 36 || c == 61 || c == 33 }

  predicate IsAggregatePrefix(c: byte) { c == 42 || c == 126 || c == 62 || c == 37 }

  /** ASCII case folding for the words Rust's float parser knows. */
  function LowerAscii(s: Bytes): Bytes {
    seq(|s|, i requires 0 <= i < |s| => if 65 <= s[i] <= 90 then s[i] + 32 else s[i])
  }

  function SkipDigits(s: Bytes): (r: Bytes)
    ensures |r| <= |s|
  {
    if s != [] && IsDigit(s[0]) then SkipDigits(s[1..]) else s
  }

  predicate IsExponent(s: Bytes) {
    || s == []
    || ((s[0] == 101 || s[0] == 69) &&
        var t := if |s| > 1 && (s[1] == 43 || s[1] == 45) then s[2..] else s[1..];
        t != [] && AllDigits(t))
  }

  /** What `str::parse::<f64>` accepts: a sign, then `inf`, `infinity`, `nan` or a decimal number. */
  predicate IsFloatText(s: Bytes) {
    var t := if s != [] && (s[0] == 43 || s[0] == 45) then s[1..] else s;
    || LowerAscii(t) in {[105, 110, 102], [105, 110, 102, 105, 110, 105, 116, 121], [110, 97, 110]}
    || (var a := SkipDigits(t);
        var b := if a != [] && a[0] == 46 then SkipDigits(a[1..]) else a;
        var whole := |t| - |a|;
        var fraction := if a != [] && a[0] == 46 then |a| - 1 - |b| else 0;
        whole + fraction > 0 && IsExponent(b))
  }

  function ParseBulk(prefix: byte, head: Bytes, cursor: nat, input: Bytes): (r: Parse<Value, RespError>)
    requires cursor <= |input|
    ensures r.Frame? ==> cursor <= r.used <= |input|
  {
    var length := ParseI64(head);
    if length.None? then Broken(BadBulkLength)
    else if length.value < 0 then Frame(Null, cursor)
    else
      var end := cursor + length.value;
      if |input| < end + 2 then NeedMore
      else if input[end..end + 2] != CRLF then Broken(BadTerminator)
      else
        var bytes := input[cursor..end];
        Frame(if !ValidUtf8(bytes) then Binary(bytes) else if prefix == 33 then Error(bytes) else Bulk(bytes), end + 2)
  }

  function ParseScalar(prefix: byte, head: Bytes, cursor: nat): (r: Parse<Value, RespError>)
    ensures r.Frame? ==> r.used == cursor
    ensures !r.NeedMore?
  {
    if prefix == 43 then Frame(Simple(head), cursor)
    else if prefix == 45 then Frame(Error(head), cursor)
    else if prefix == 58 then
      var n := ParseI64(head);
      if n.None? then Broken(BadInteger) else Frame(Integer(n.value), cursor)
    else if prefix == 95 then Frame(Null, cursor)
    else if prefix == 35 then Frame(Boolean(head == [116]), cursor)
    else if prefix == 44 then
      if IsFloatText(head) then Frame(Double(head), cursor) else Broken(BadDouble)
    else Broken(BadPrefix(prefix))
  }

  /** One frame at the front of the input; it takes at least 3 bytes and at most all of them. */
  function ParseFrame(input: Bytes): (r: Parse<Value, RespError>)
    ensures r.Frame? ==> 3 <= r.used <= |input|
    decreases |input|, 2
  {
    if input == [] then NeedMore
    else
      var end := FindCrlf(input, 1);
      if end.None? then NeedMore
      else
        var head := input[1..end.value];
        var cursor := end.value + 2;
        if IsBulkPrefix(input[0]) then ParseBulk(input[0], head, cursor, input)
        else if IsAggregatePrefix(input[0]) then ParseAggregate(input[0], head, cursor, input)
        else ParseScalar(input[0], head, cursor)
  }

  function ParseAggregate(prefix: byte, head: Bytes, cursor: nat, input: Bytes): (r: Parse<Value, RespError>)
    requires 0 < cursor <= |input|
    ensures r.Frame? ==> cursor <= r.used <= |input|
    decreases |input|, 1
  {
    var count := ParseI64(head);
    if count.None? then Broken(BadAggregateLength)
    else if count.value < 0 then Frame(Null, cursor)
    else
      match ParseEntries(input[cursor..], EntryCount(prefix, count.value))
      case Unfinished => NeedMore
      case BadMany(e) => Broken(e)
      case Many(values, used) => Frame(if prefix == 37 then Map(values) else Array(values), cursor + used)
  }

  /** A map announces pairs. */
  function EntryCount(prefix: byte, count: nat): nat {
    if prefix == 37 then count * 2 else count
  }

  /** The given number of frames, one after another. */
  function ParseEntries(input: Bytes, count: nat): (r: Many<Value, RespError>)
    ensures r.Many? ==> r.used <= |input| && |r.values| == count
    decreases |input|, 3
  {
    if count == 0 then Many([], 0)
    else
      match ParseFrame(input)
      case NeedMore => Unfinished
      case Broken(e) => BadMany(e)
      case Frame(v, size) => Continue([v], size, ParseEntries(input[size..], count - 1))
  }

  // ----- a verdict never changes when more bytes arrive -----

  lemma BulkStable(prefix: byte, head: Bytes, cursor: nat, input: Bytes, ext: Bytes)
    requires cursor <= |input| && !ParseBulk(prefix, head, cursor, input).NeedMore?
    ensures ParseBulk(prefix, head, cursor, input + ext) == ParseBulk(prefix, head, cursor, input)
  {
    var length := ParseI64(head);
    if length.Some? && length.value >= 0 {
      var end := cursor + length.value;
      assert (input + ext)[end..end + 2] == input[end..end + 2];
      assert (input + ext)[cursor..end] == input[cursor..end];
    }
  }

  lemma {:induction false} ParseFrameStable(input: Bytes, ext: Bytes)
    requires !ParseFrame(input).NeedMore?
    ensures ParseFrame(input + ext) == ParseFrame(input)
    decreases |input|, 2
  {
    FindCrlfStable(input, ext, 1);
    var end := FindCrlf(input, 1).value;
    var head := input[1..end];
    assert (input + ext)[1..end] == head;
    if IsBulkPrefix(input[0]) {
      BulkStable(input[0], head, end + 2, input, ext);
    } else if IsAggregatePrefix(input[0]) {
      AggregateStable(input[0], head, end + 2, input, ext);
    }
  }

  lemma {:induction false} AggregateStable(prefix: byte, head: Bytes, cursor: nat, input: Bytes, ext: Bytes)
    requires 0 < cursor <= |input| && !ParseAggregate(prefix, head, cursor, input).NeedMore?
    ensures ParseAggregate(prefix, head, cursor, input + ext) == ParseAggregate(prefix, head, cursor, input)
    decreases |input|, 1
  {
    var count := ParseI64(head);
    if count.Some? && count.value >= 0 {
      SliceAppend(input, ext, cursor);
      ParseEntriesStable(input[cursor..], EntryCount(prefix, count.value), ext);
    }
  }

  lemma {:induction false} ParseEntriesStable(input: Bytes, count: nat, ext: Bytes)
    requires !ParseEntries(input, count).Unfinished?
    ensures ParseEntries(input + ext, count) == ParseEntries(input, count)
    decreases |input|, 3
  {
    if count > 0 {
      ParseFrameStable(input, ext);
      if ParseFrame(input).Frame? {
        var size := ParseFrame(input).used;
        SliceAppend(input, ext, size);
        ParseEntriesStable(input[size..], count - 1, ext);
      }
    }
  }

  /** The frame parser meets what incremental reading needs. */
  lemma ParserFitsStreaming()
    ensures Stable(ParseFrame) && Advances(ParseFrame)
  {
    forall b: Bytes, ext: Bytes | !ParseFrame(b).NeedMore? ensures ParseFrame(b + ext) == ParseFrame(b) {
      ParseFrameStable(b, ext);
    }
  }

  lemma EntriesUnfold(input: Bytes, count: nat)
    requires count > 0
    ensures ParseEntries(input, count) ==
            match ParseFrame(input) {
              case NeedMore => Unfinished
              case Broken(e) => BadMany(e)
              case Frame(v, size) => Continue([v], size, ParseEntries(input[size..], count - 1))
            }
  {}

  lemma {:induction false} EntriesFollow(p: Parser<Value, RespError>, input: Bytes, count: nat)
    requires Advances(p) && forall b: Bytes :: p(b) == ParseFrame(b)
    ensures ParseEntries(input, count) == ParseMany(p, input, count)
    decreases count
  {
    hide ParseFrame;
    if count > 0 {
      EntriesUnfold(input, count);
      assert p(input) == ParseFrame(input);
      if p(input).Frame? {
        EntriesFollow(p, input[p(input).used..], count - 1);
      }
    }
  }

  /** The entries of an aggregate are a run of frames. */
  lemma EntriesAreFrames(input: Bytes, count: nat)
    ensures Advances(ParseFrame)
    ensures ParseEntries(input, count) == ParseMany(ParseFrame, input, count)
  {
    ParserFitsStreaming();
    EntriesFollow(ParseFrame, input, count);
  }
}
