/**
 * The wire form of every reply a server may send, RESP2 and RESP3, and what each must be decoded to. The
 * decoder is proved to invert the wire form, aggregates within aggregates included.
 */
module RespWire {
  import opened Base
  import opened Decimal
  import opened Utf8
  import opened Streaming
  import opened Resp
  import opened RespSession

  /** A reply as a server means it; nulls have several forms, and so have errors and aggregates. */
  datatype Reply =
    | SimpleString(text: Bytes)
    | SimpleError(text: Bytes)
    | Number(n: int)
    | PlainNull
    | NullBulk
    | NullArray
    | BulkString(bytes: Bytes)
    | Verbatim(bytes: Bytes)
    | BulkError(bytes: Bytes)
    | Flag(truth: bool)
    | FloatNumber(text: Bytes)
    | List(items: seq<Reply>)
    | Group(items: seq<Reply>)
    | Push(items: seq<Reply>)
    | Pairs(items: seq<Reply>)

  const MINUS_ONE: Bytes := [45, 49]

  function Signed(n: int): Bytes {
    if n < 0 then [45] + Digits(-n) else Digits(n)
  }

  function Line(prefix: byte, head: Bytes): Bytes {
    [prefix] + head + CRLF
  }

  function Block(prefix: byte, bytes: Bytes): Bytes {
    Line(prefix, Digits(|bytes|)) + (bytes + CRLF)
  }

  /** `+`, `-`, `:`, `_`, `$`, `*`, `=`, `!`, `#`, `,`, `~`, `>` and `%`, in the order of the protocol. */
  function Wire(r: Reply): Bytes
    decreases r, 1
  {
    match r
    case SimpleString(text) => Line(43, text)
    case SimpleError(text) => Line(45, text)
    case Number(n) => Line(58, Signed(n))
    case PlainNull => Line(95, [])
    case NullBulk => Line(36, MINUS_ONE)
    case NullArray => Line(42, MINUS_ONE)
    case BulkString(bytes) => Block(36, bytes)
    case Verbatim(bytes) => Block(61, bytes)
    case BulkError(bytes) => Block(33, bytes)
    case Flag(truth) => Line(35, if truth then [116] else [102])
    case FloatNumber(text) => Line(44, text)
    case List(items) => Line(42, Digits(|items|)) + WireAll(items)
    case Group(items) => Line(126, Digits(|items|)) + WireAll(items)
    case Push(items) => Line(62, Digits(|items|)) + WireAll(items)
    case Pairs(items) => Line(37, Digits(|items| / 2)) + WireAll(items)
  }

  function WireAll(items: seq<Reply>): Bytes
    decreases items, 0
  {
    if items == [] then [] else Wire(items[0]) + WireAll(items[1..])
  }

  /** What the caller is shown. Text that is not UTF-8 is shown as binary, even in a bulk error. */
  function Shown(r: Reply): Value
    decreases r, 1
  {
    match r
    case SimpleString(text) => Simple(text)
    case SimpleError(text) => Error(text)
    case Number(n) => Integer(n)
    case PlainNull => Null
    case NullBulk => Null
    case NullArray => Null
    case BulkString(bytes) => if ValidUtf8(bytes) then Bulk(bytes) else Binary(bytes)
    case Verbatim(bytes) => if ValidUtf8(bytes) then Bulk(bytes) else Binary(bytes)
    case BulkError(bytes) => if ValidUtf8(bytes) then Error(bytes) else Binary(bytes)
    case Flag(truth) => Boolean(truth)
    case FloatNumber(text) => Double(text)
    case List(items) => Array(ShownAll(items))
    case Group(items) => Array(ShownAll(items))
    case Push(items) => Array(ShownAll(items))
    case Pairs(items) => Map(ShownAll(items))
  }

  function ShownAll(items: seq<Reply>): (r: seq<Value>)
    ensures |r| == |items|
    decreases items, 0
  {
    if items == [] then [] else [Shown(items[0])] + ShownAll(items[1..])
  }

  /** Lines hold no line end, lengths and numbers fit 64 bits, and maps hold pairs. */
  ghost predicate Sendable(r: Reply)
    decreases r
  {
    match r
    case SimpleString(text) => OneLine(text)
    case SimpleError(text) => OneLine(text)
    case Number(n) => -I64_MAX - 1 <= n <= I64_MAX
    case BulkString(bytes) => |bytes| <= I64_MAX
    case Verbatim(bytes) => |bytes| <= I64_MAX
    case BulkError(bytes) => |bytes| <= I64_MAX
    case FloatNumber(text) => OneLine(text) && IsFloatText(text)
    case List(items) => |items| <= I64_MAX && forall i :: 0 <= i < |items| ==> Sendable(items[i])
    case Group(items) => |items| <= I64_MAX && forall i :: 0 <= i < |items| ==> Sendable(items[i])
    case Push(items) => |items| <= I64_MAX && forall i :: 0 <= i < |items| ==> Sendable(items[i])
    case Pairs(items) => |items| <= I64_MAX && |items| % 2 == 0 && forall i :: 0 <= i < |items| ==> Sendable(items[i])
    case _ => true
  }

  ghost predicate AllSendable(items: seq<Reply>) {
    forall i :: 0 <= i < |items| ==> Sendable(items[i])
  }

  ghost predicate OneLine(text: Bytes) {
    forall i :: 0 <= i < |text| - 1 ==> !(text[i] == CR && text[i + 1] == LF)
  }

  // ----- numbers -----

  lemma SignedParses(n: int)
    requires -I64_MAX - 1 <= n <= I64_MAX
    ensures ParseI64(Signed(n)) == Some(n) && OneLine(Signed(n))
  {
    if n < 0 {
      DigitsRoundTrip(-n);
      var s := Signed(n);
      assert s[1..] == Digits(-n);
      forall i | 0 <= i < |s| ensures s[i] != CR {
        assert i > 0 ==> IsDigit(Digits(-n)[i - 1]);
      }
    } else {
      ParseOfDigits(n);
      DigitsOneLine(n);
    }
  }

  lemma DigitsOneLine(n: nat)
    ensures OneLine(Digits(n))
  {
    forall i | 0 <= i < |Digits(n)| ensures Digits(n)[i] != CR {
      assert IsDigit(Digits(n)[i]);
    }
  }

  lemma MinusOneParses()
    ensures ParseI64(MINUS_ONE) == Some(-1) && OneLine(MINUS_ONE)
  {
    assert MINUS_ONE[1..] == [49];
    assert [49][..0] == [];
    assert DigitsValue([49]) == 1;
  }

  // ----- lines -----

  /** A line is found whole, whatever follows it. */
  lemma LineFound(prefix: byte, head: Bytes, rest: Bytes)
    requires OneLine(head)
    ensures var input := Line(prefix, head) + rest;
            && input != [] && input[0] == prefix && |Line(prefix, head)| == 3 + |head|
            && FindCrlf(input, 1) == Some(1 + |head|)
            && input[1..1 + |head|] == head && input[3 + |head|..] == rest
  {
    var input := Line(prefix, head) + rest;
    var end := 1 + |head|;
    assert CrlfAt(input, end);
    forall i | 1 <= i < end ensures !CrlfAt(input, i) {
      assert input[i] == head[i - 1];
      if i + 1 < end {
        assert input[i + 1] == head[i];
      }
    }
    FindCrlfIsFirst(input, 1, end);
  }

  lemma ScalarParses(prefix: byte, head: Bytes, rest: Bytes)
    requires OneLine(head) && !IsBulkPrefix(prefix) && !IsAggregatePrefix(prefix)
    ensures ParseFrame(Line(prefix, head) + rest) == ParseScalar(prefix, head, |Line(prefix, head)|)
  {
    LineFound(prefix, head, rest);
    hide FindCrlf, ParseScalar, Line, OneLine;
  }

  lemma BulkLineParses(prefix: byte, head: Bytes, rest: Bytes)
    requires OneLine(head) && IsBulkPrefix(prefix)
    ensures |Line(prefix, head)| <= |Line(prefix, head) + rest|
    ensures ParseFrame(Line(prefix, head) + rest) == ParseBulk(prefix, head, |Line(prefix, head)|, Line(prefix, head) + rest)
  {
    LineFound(prefix, head, rest);
    hide FindCrlf, ParseBulk, Line, OneLine;
  }

  lemma AggregateLineParses(prefix: byte, head: Bytes, rest: Bytes)
    requires OneLine(head) && IsAggregatePrefix(prefix)
    ensures 0 < |Line(prefix, head)| <= |Line(prefix, head) + rest|
    ensures ParseFrame(Line(prefix, head) + rest) ==
            ParseAggregate(prefix, head, |Line(prefix, head)|, Line(prefix, head) + rest)
  {
    LineFound(prefix, head, rest);
    hide FindCrlf, ParseAggregate, Line, OneLine, IsBulkPrefix;
    assert !IsBulkPrefix(prefix) by {
      NotBoth(prefix);
    }
  }

  lemma NotBoth(prefix: byte)
    ensures !(IsBulkPrefix(prefix) && IsAggregatePrefix(prefix))
  {}

  // ----- blocks -----

  lemma LineRest(prefix: byte, head: Bytes, rest: Bytes)
    ensures (Line(prefix, head) + rest)[|Line(prefix, head)|..] == rest
  {}

  lemma BulkOf(prefix: byte, head: Bytes, bytes: Bytes, input: Bytes, cursor: nat)
    requires ParseI64(head) == Some(|bytes|) && cursor + |bytes| + 2 <= |input|
    requires input[cursor..cursor + |bytes|] == bytes && input[cursor + |bytes|..cursor + |bytes| + 2] == CRLF
    ensures ParseBulk(prefix, head, cursor, input) ==
            Frame(if !ValidUtf8(bytes) then Binary(bytes) else if prefix == 33 then Error(bytes) else Bulk(bytes), cursor + |bytes| + 2)
  {
    hide ValidUtf8, ParseI64;
  }

  lemma BlockRegroups(line: Bytes, bytes: Bytes, rest: Bytes)
    ensures (line + (bytes + CRLF)) + rest == line + (bytes + (CRLF + rest))
  {}

  /** What follows the line of a block. */
  lemma BlockBody(line: Bytes, bytes: Bytes, rest: Bytes)
    ensures var input := line + (bytes + (CRLF + rest));
            var cursor := |line|;
            && cursor + |bytes| + 2 <= |input|
            && input[cursor..cursor + |bytes|] == bytes && input[cursor + |bytes|..cursor + |bytes| + 2] == CRLF
  {
    var input := line + (bytes + (CRLF + rest));
    assert input[|line|..] == bytes + (CRLF + rest);
    SplitTail(input, |line|, bytes, CRLF + rest);
    SplitTail(input, |line| + |bytes|, CRLF, rest);
  }

  lemma BlockParses(prefix: byte, bytes: Bytes, rest: Bytes)
    requires IsBulkPrefix(prefix) && |bytes| <= I64_MAX
    ensures ParseFrame(Block(prefix, bytes) + rest) ==
            Frame(if !ValidUtf8(bytes) then Binary(bytes) else if prefix == 33 then Error(bytes) else Bulk(bytes), |Block(prefix, bytes)|)
  {
    hide ParseFrame, ParseBulk, ValidUtf8, ParseI64, Digits, Line, IsBulkPrefix, OneLine;
    var head := Digits(|bytes|);
    ParseOfDigits(|bytes|);
    DigitsOneLine(|bytes|);
    var line := Line(prefix, head);
    BlockRegroups(line, bytes, rest);
    BulkLineParses(prefix, head, bytes + (CRLF + rest));
    BlockBody(line, bytes, rest);
    BulkOf(prefix, head, bytes, line + (bytes + (CRLF + rest)), |line|);
  }

  lemma NullBulkParses(rest: Bytes)
    ensures ParseFrame(Line(36, MINUS_ONE) + rest) == Frame(Null, |Line(36, MINUS_ONE)|)
  {
    MinusOneParses();
    hide ParseI64, OneLine, ParseFrame;
    BulkLineParses(36, MINUS_ONE, rest);
  }

  lemma NullArrayParses(rest: Bytes)
    ensures ParseFrame(Line(42, MINUS_ONE) + rest) == Frame(Null, |Line(42, MINUS_ONE)|)
  {
    MinusOneParses();
    hide ParseI64, OneLine, ParseFrame;
    AggregateLineParses(42, MINUS_ONE, rest);
  }

  // ----- aggregates -----

  /** An aggregate whose entries follow it. */
  lemma AggregateParses(prefix: byte, count: nat, items: seq<Reply>, rest: Bytes)
    requires IsAggregatePrefix(prefix) && count <= I64_MAX && EntryCount(prefix, count) == |items|
    requires ParseEntries(WireAll(items) + rest, |items|) == Many(ShownAll(items), |WireAll(items)|)
    ensures ParseFrame(Line(prefix, Digits(count)) + WireAll(items) + rest) ==
            Frame(if prefix == 37 then Map(ShownAll(items)) else Array(ShownAll(items)), |Line(prefix, Digits(count)) + WireAll(items)|)
  {
    var head := Digits(count);
    ParseOfDigits(count);
    DigitsOneLine(count);
    hide ParseFrame, ParseI64, Digits, Line, IsAggregatePrefix, OneLine, WireAll, ShownAll, ParseEntries;
    var line := Line(prefix, head);
    var body := WireAll(items) + rest;
    assert line + WireAll(items) + rest == line + body;
    AggregateLineParses(prefix, head, body);
    LineRest(prefix, head, body);
  }

  lemma ItemsUnfold(items: seq<Reply>)
    requires items != []
    ensures WireAll(items) == Wire(items[0]) + WireAll(items[1..])
    ensures ShownAll(items) == [Shown(items[0])] + ShownAll(items[1..])
    ensures AllSendable(items) ==> Sendable(items[0]) && AllSendable(items[1..])
  {
    hide Wire, Shown, Sendable;
  }

  lemma NoItems(rest: Bytes)
    ensures ParseEntries(WireAll([]) + rest, 0) == Many(ShownAll([]), |WireAll([])|)
  {}

  /** Replies one after another. */
  lemma {:induction false} ItemsParse(items: seq<Reply>, rest: Bytes)
    requires AllSendable(items)
    ensures ParseEntries(WireAll(items) + rest, |items|) == Many(ShownAll(items), |WireAll(items)|)
    decreases items, 0
  {
    hide ParseFrame, Wire, Shown, Sendable, AllSendable, ParseEntries, WireAll, ShownAll;
    if items == [] {
      NoItems(rest);
    } else {
      var first, more := Wire(items[0]), WireAll(items[1..]);
      ItemsUnfold(items);
      WireRoundTrip(items[0], more + rest);
      ItemsParse(items[1..], rest);
      AppendThree(first, more, rest);
      EntriesUnfold(WireAll(items) + rest, |items|);
    }
  }

  /** Every reply a server can send is decoded to what it means, and takes exactly its own bytes. */
  lemma {:induction false} WireRoundTrip(r: Reply, rest: Bytes)
    requires Sendable(r)
    ensures ParseFrame(Wire(r) + rest) == Frame(Shown(r), |Wire(r)|)
    decreases r, 1
  {
    hide ParseFrame, Line, Block, OneLine, ParseI64, ValidUtf8, IsFloatText, Digits;
    match r
    case SimpleString(text) => ScalarParses(43, text, rest);
    case SimpleError(text) => ScalarParses(45, text, rest);
    case Number(n) =>
      SignedParses(n);
      ScalarParses(58, Signed(n), rest);
    case PlainNull =>
      EmptyLine();
      ScalarParses(95, [], rest);
    case NullBulk => NullBulkParses(rest);
    case NullArray => NullArrayParses(rest);
    case BulkString(bytes) => BlockParses(36, bytes, rest);
    case Verbatim(bytes) => BlockParses(61, bytes, rest);
    case BulkError(bytes) => BlockParses(33, bytes, rest);
    case Flag(truth) =>
      OneCharacterLine(if truth then 116 else 102);
      ScalarParses(35, if truth then [116] else [102], rest);
    case FloatNumber(text) => ScalarParses(44, text, rest);
    case List(items) =>
      ItemsParse(items, rest);
      AggregateParses(42, |items|, items, rest);
    case Group(items) =>
      ItemsParse(items, rest);
      AggregateParses(126, |items|, items, rest);
    case Push(items) =>
      ItemsParse(items, rest);
      AggregateParses(62, |items|, items, rest);
    case Pairs(items) =>
      ItemsParse(items, rest);
      AggregateParses(37, |items| / 2, items, rest);
  }

  lemma EmptyLine()
    ensures OneLine([])
  {}

  lemma OneCharacterLine(c: byte)
    ensures OneLine([c])
  {}

  // ----- replies to a pipeline -----

  /** An error in either form, as long as it can be shown as text. */
  predicate IsErrorReply(r: Reply) {
    r.SimpleError? || (r.BulkError? && ValidUtf8(r.bytes))
  }

  function ErrorText(r: Reply): Bytes
    requires IsErrorReply(r)
  {
    if r.SimpleError? then r.text else r.bytes
  }

  lemma ErrorsAreShown(r: Reply)
    ensures Shown(r).Error? <==> IsErrorReply(r)
    ensures IsErrorReply(r) ==> Shown(r) == Error(ErrorText(r))
  {
    hide ValidUtf8;
  }

  /** No error among the setup replies: the rest is what the caller gets, in order. */
  lemma {:induction false} SetupPasses(replies: seq<Reply>, index: nat, total: nat, setup: nat, rest: Bytes)
    requires AllSendable(replies) && index + |replies| == total
    requires forall i :: 0 <= i < |replies| && index + i < setup ==> !IsErrorReply(replies[i])
    ensures Replies(WireAll(replies) + rest, index, total, setup) ==
            Ok(ShownAll(replies)[if index >= setup then 0 else if setup - index <= |replies| then setup - index else |replies|..])
    decreases |replies|
  {
    hide ParseFrame, Wire, Shown, Sendable, IsErrorReply;
    if replies == [] {
      RepliesDone(WireAll(replies) + rest, total, setup);
    } else {
      FirstReply(replies, rest);
      ErrorsAreShown(replies[0]);
      assert forall i :: 0 <= i < |replies[1..]| ==> replies[1..][i] == replies[i + 1];
      SetupPasses(replies[1..], index + 1, total, setup, rest);
      var stream := WireAll(replies) + rest;
      RepliesUnfold(stream, index, total, setup);
      hide Replies, WireAll;
      var later := ShownAll(replies[1..]);
      assert ShownAll(replies) == [Shown(replies[0])] + later;
      if index >= setup {
        assert later[0..] == later && ShownAll(replies)[0..] == ShownAll(replies);
      } else {
        var k := if setup - index <= |replies| then setup - index else |replies|;
        assert ShownAll(replies)[k..] == later[k - 1..];
        assert [] + later[k - 1..] == later[k - 1..];
      }
    }
  }

  lemma FirstReply(replies: seq<Reply>, rest: Bytes)
    requires replies != [] && AllSendable(replies)
    ensures var stream := WireAll(replies) + rest;
            && ParseFrame(stream) == Frame(Shown(replies[0]), |Wire(replies[0])|)
            && |Wire(replies[0])| <= |stream| && stream[|Wire(replies[0])|..] == WireAll(replies[1..]) + rest
  {
    hide ParseFrame, Wire, Shown, Sendable;
    var first, more := Wire(replies[0]), WireAll(replies[1..]);
    WireRoundTrip(replies[0], more + rest);
    AppendThree(first, more, rest);
  }

  /** The first error among the setup replies is what the run fails with. */
  lemma {:induction false} SetupFails(replies: seq<Reply>, index: nat, total: nat, setup: nat, at: nat, rest: Bytes)
    requires AllSendable(replies) && index + |replies| == total && at < |replies| && index + at < setup
    requires IsErrorReply(replies[at]) && forall i :: 0 <= i < at ==> !IsErrorReply(replies[i])
    ensures Replies(WireAll(replies) + rest, index, total, setup) == Err(SetupFailed(ErrorText(replies[at])))
    decreases |replies|
  {
    hide ParseFrame, Wire, Shown, Sendable, IsErrorReply;
    FirstReply(replies, rest);
    ErrorsAreShown(replies[0]);
    RepliesUnfold(WireAll(replies) + rest, index, total, setup);
    if at > 0 {
      assert forall i :: 0 <= i < |replies[1..]| ==> replies[1..][i] == replies[i + 1];
      SetupFails(replies[1..], index + 1, total, setup, at - 1, rest);
    }
    hide Replies, WireAll;
  }

  /** What no reply begins with is refused by name. */
  lemma UnknownPrefix(prefix: byte, head: Bytes, rest: Bytes)
    requires OneLine(head) && prefix !in {33, 35, 36, 37, 42, 43, 44, 45, 58, 61, 62, 95, 126}
    ensures ParseFrame(Line(prefix, head) + rest) == Broken(BadPrefix(prefix))
  {
    ScalarParses(prefix, head, rest);
    hide ParseFrame, Line;
  }

  // ----- numbers with a fraction -----

  lemma {:induction false} SkipsDigits(digits: Bytes, rest: Bytes)
    requires AllDigits(digits) && (rest == [] || !IsDigit(rest[0]))
    ensures SkipDigits(digits + rest) == rest
    decreases |digits|
  {
    if digits == [] {
      assert digits + rest == rest;
    } else {
      assert (digits + rest)[1..] == digits[1..] + rest;
      SkipsDigits(digits[1..], rest);
    }
  }

  /** Decimal numbers, signed or not, with or without a fraction, are numbers. */
  lemma NumeralsAreFloats(sign: Bytes, whole: nat, fraction: Bytes)
    requires sign in {[], [43], [45]} && AllDigits(fraction)
    ensures IsFloatText(sign + Digits(whole)) && IsFloatText(sign + (Digits(whole) + ([46] + fraction)))
  {
    hide LowerAscii;
    var digits := Digits(whole);
    SkipsDigits(digits, []);
    SkipsDigits(digits, [46] + fraction);
    SkipsDigits(fraction, []);
    assert digits + [] == digits && fraction + [] == fraction;
    assert ([46] + fraction)[1..] == fraction;
    assert IsDigit(digits[0]);
    var a, b := sign + digits, sign + (digits + ([46] + fraction));
    if sign == [] {
      assert a == digits && b == digits + ([46] + fraction);
    } else {
      assert a[1..] == digits && b[1..] == digits + ([46] + fraction);
    }
  }

  /** A text without digits is a number only if it spells infinity or not-a-number. */
  lemma WordsAreNoFloats(text: Bytes)
    requires forall i :: 0 <= i < |text| ==> !IsDigit(text[i])
    requires var t := if text != [] && (text[0] == 43 || text[0] == 45) then text[1..] else text;
             LowerAscii(t) !in {[105, 110, 102], [105, 110, 102, 105, 110, 105, 116, 121], [110, 97, 110]}
    ensures !IsFloatText(text)
  {
    hide LowerAscii, IsExponent;
  }
}
