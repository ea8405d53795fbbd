/**
 * One run of the MQTT driver against an arbitrary broker: what it writes, what it reads and what
 * it hands to its caller, in order. The broker is any byte stream.
 */
module MqttSession {
  import opened Base
  import opened Utf8
  import opened Mqtt

  datatype Mode = PublishMode | SubscribeMode

  datatype Request = Request(mode: Mode, clientId: Bytes, username: Option<Bytes>, password: Option<Bytes>,
                             cleanSession: bool, keepAlive: nat, message: Publish, receiveLimit: nat)

  datatype Event =
    | Sent(bytes: Bytes)
    | Got(header: byte, body: Bytes)
    | Published
    | Delivered(topic: Bytes, data: Bytes, qos: nat, retain: bool, done: bool)

  const DISCONNECT: Bytes := [0xe0, 0]
  const PUBREL_ONE: Bytes := [0x62, 2, 0, 1]

  // ----- packets of the session -----

  function PushUtf8(text: Bytes): Option<Bytes> {
    if |text| > 65535 then None else Some(ToBigEndian16(|text|) + text)
  }

  function PushOptional(text: Option<Bytes>): Option<Bytes> {
    if text.None? then Some([]) else PushUtf8(text.value)
  }

  function ConnectPacket(r: Request): Result<Bytes, MqttError> {
    var flags := (if r.cleanSession then 0x02 else 0) + (if r.username.Some? then 0x80 else 0) + (if r.password.Some? then 0x40 else 0);
    var client, user, pass := PushUtf8(r.clientId), PushOptional(r.username), PushOptional(r.password);
    if client.None? || user.None? || pass.None? then Err(StringTooLong)
    else Ok(Packet(0x10, [0, 4, 77, 81, 84, 84, 4, flags] + ToBigEndian16(r.keepAlive) + client.value + user.value + pass.value))
  }

  function SubscribePacket(topic: Bytes, qos: byte): Result<Bytes, MqttError> {
    var pushed := PushUtf8(topic);
    if pushed.None? then Err(StringTooLong) else Ok(Packet(0x82, [0, 1] + pushed.value + [qos]))
  }

  function PubAck(id: nat): Bytes { Packet(0x40, ToBigEndian16(id)) }

  function PubRec(id: nat): Bytes { Packet(0x50, ToBigEndian16(id)) }

  function PubComp(id: nat): Bytes { Packet(0x70, ToBigEndian16(id)) }

  predicate AcceptsConnection(e: Event) {
    e.Got? && Kind(e.header) == 2 && |e.body| == 2 && e.body[1] == 0
  }

  predicate AcceptsSubscription(e: Event) {
    e.Got? && Kind(e.header) == 9 && |e.body| >= 3 && e.body[..2] == [0, 1] && e.body[2] != 0x80
  }

  /** A broker reply of the given kind for packet identifier 1. */
  predicate RepliesToOne(e: Event, kind: nat) {
    e.Got? && Kind(e.header) == kind && e.body == [0, 1]
  }

  // ----- what a successful publish looks like -----

  /** Sections 4.3.1 to 4.3.3 of MQTT 3.1.1 between the PUBLISH packet and the report of success. */
  ghost predicate IsHandshake(t: seq<Event>, qos: byte) {
    if qos == 1 then |t| == 1 && RepliesToOne(t[0], 4)
    else if qos == 2 then |t| == 3 && RepliesToOne(t[0], 5) && t[1] == Sent(PUBREL_ONE) && RepliesToOne(t[2], 7)
    else t == []
  }

  ghost predicate IsConnect(t: seq<Event>, r: Request) {
    && ConnectPacket(r).Ok?
    && |t| == 2 && t[0] == Sent(ConnectPacket(r).value) && AcceptsConnection(t[1])
  }

  ghost predicate IsPublishRun(t: seq<Event>, r: Request) {
    && 5 <= |t| && IsConnect(t[..2], r)
    && PublishPacket(r.message, 1).Ok? && t[2] == Sent(PublishPacket(r.message, 1).value)
    && IsHandshake(t[3..|t| - 2], r.message.qos)
    && t[|t| - 2..] == [Published, Sent(DISCONNECT)]
  }

  // ----- what a successful subscription looks like -----

  function DeliveryOf(header: byte, m: Incoming, done: bool): Event {
    Delivered(m.topic, m.data, Qos(header), Retained(header), done)
  }

  /** The events one received packet gives rise to, from its arrival to its delivery. */
  ghost predicate IsStep(t: seq<Event>, done: bool) {
    && t != [] && t[0].Got?
    && var h, b := t[0].header, t[0].body;
       if Kind(h) != 3 then |t| == 1
       else
         var m := IncomingPublish(h, b);
         && m.Ok?
         && if Qos(h) == 1 then
              t[1..] == [Sent(PubAck(m.value.id.value)), DeliveryOf(h, m.value, done)]
            else if Qos(h) == 2 then
              t[1..] == [Sent(PubRec(m.value.id.value)), Got(0x62, ToBigEndian16(m.value.id.value)),
                         Sent(PubComp(m.value.id.value)), DeliveryOf(h, m.value, done)]
            else t[1..] == [DeliveryOf(h, m.value, done)]
  }

  /** The events of `count` loop iterations, from iteration `from` on, out of `limit`. */
  ghost predicate IsDelivery(t: seq<Event>, from: nat, count: nat, limit: nat)
    decreases count
  {
    if count == 0 then t == []
    else exists k :: 0 < k <= |t| && IsStep(t[..k], from + 1 == limit) && IsDelivery(t[k..], from + 1, count - 1, limit)
  }

  ghost predicate IsSubscribeRun(t: seq<Event>, r: Request) {
    && 5 <= |t| && IsConnect(t[..2], r)
    && SubscribePacket(r.message.topic, r.message.qos).Ok? && t[2] == Sent(SubscribePacket(r.message.topic, r.message.qos).value)
    && AcceptsSubscription(t[3])
    && IsDelivery(t[4..|t| - 1], 0, r.receiveLimit, r.receiveLimit)
    && t[|t| - 1] == Sent(DISCONNECT)
  }

  // ----- what the broker has to send -----

  /** The packets read, in order, are those at the front of the broker's bytes; `rest` is left. */
  ghost predicate Follows(t: seq<Event>, stream: Bytes, rest: Bytes)
    decreases |t|
  {
    if t == [] then rest == stream
    else
      var init, last := t[..|t| - 1], t[|t| - 1];
      if last.Got? then
        exists middle: Bytes :: Follows(init, stream, middle) && ReadPacket(middle) == Ok(Received(last.header, last.body, rest))
      else Follows(init, stream, rest)
  }

  lemma FollowsMore(t: seq<Event>, e: Event, stream: Bytes, middle: Bytes, rest: Bytes)
    requires Follows(t, stream, middle)
    requires if e.Got? then ReadPacket(middle) == Ok(Received(e.header, e.body, rest)) else rest == middle
    ensures Follows(t + [e], stream, rest)
  {
    hide ReadPacket;
    var all := t + [e];
    assert all[..|all| - 1] == t && all[|all| - 1] == e;
  }

  /** What is left of the stream after one packet of the wanted form, if there is one. */
  function Take(stream: Bytes, wanted: Event -> bool): Option<Bytes> {
    var p := ReadPacket(stream);
    if p.Ok? && wanted(Got(p.value.header, p.value.body)) then Some(p.value.rest) else None
  }

  function ThenTake(rest: Option<Bytes>, wanted: Event -> bool): Option<Bytes> {
    if rest.None? then None else Take(rest.value, wanted)
  }

  /** The replies a publish waits for. */
  function AfterHandshake(stream: Bytes, qos: byte): Option<Bytes> {
    if qos == 1 then Take(stream, e => RepliesToOne(e, 4))
    else if qos == 2 then ThenTake(Take(stream, e => RepliesToOne(e, 5)), e => RepliesToOne(e, 7))
    else Some(stream)
  }

  /** One iteration of the receive loop: any packet, and after a PUBLISH of QoS 2 its release. */
  function AfterStep(stream: Bytes): Option<Bytes> {
    var p := ReadPacket(stream);
    if p.Err? then None
    else if Kind(p.value.header) != 3 then Some(p.value.rest)
    else
      var m := IncomingPublish(p.value.header, p.value.body);
      if m.Err? then None
      else if Qos(p.value.header) == 2 && m.value.id.Some? then
        Take(p.value.rest, e => e == Got(0x62, ToBigEndian16(m.value.id.value)))
      else Some(p.value.rest)
  }

  function AfterSteps(stream: Bytes, count: nat): Option<Bytes> {
    if count == 0 then Some(stream)
    else
      var front := AfterSteps(stream, count - 1);
      if front.None? then None else AfterStep(front.value)
  }

  function AfterConnect(r: Request, stream: Bytes): Option<Bytes> {
    if ConnectPacket(r).Err? then None else Take(stream, AcceptsConnection)
  }

  function AfterPublish(r: Request, stream: Bytes): Option<Bytes> {
    if PublishPacket(r.message, 1).Err? then None else AfterHandshake(stream, r.message.qos)
  }

  function AfterSubscribe(r: Request, stream: Bytes): Option<Bytes> {
    if SubscribePacket(r.message.topic, r.message.qos).Err? then None
    else
      var granted := Take(stream, AcceptsSubscription);
      if granted.None? then None else AfterSteps(granted.value, r.receiveLimit)
  }

  /** What is left of a broker's bytes that serve the request from beginning to end. */
  function AfterRun(r: Request, stream: Bytes): Option<Bytes> {
    var connected := AfterConnect(r, stream);
    if connected.None? then None
    else if r.mode.PublishMode? then AfterPublish(r, connected.value)
    else AfterSubscribe(r, connected.value)
  }

  // ----- the run itself -----

  class Session {
    ghost const broker: Bytes
    var unread: Bytes
    var trace: seq<Event>

    /** The trace and what is unread account for all of the broker's bytes. */
    ghost predicate Valid() reads this {
      Follows(trace, broker, unread)
    }

    constructor (broker: Bytes)
      ensures Valid() && this.broker == broker && unread == broker && trace == []
    {
      this.broker := broker;
      unread, trace := broker, [];
    }

    method Write(bytes: Bytes)
      requires Valid()
      modifies this`trace
      ensures Valid() && trace == old(trace) + [Sent(bytes)]
    {
      FollowsMore(trace, Sent(bytes), broker, unread, unread);
      trace := trace + [Sent(bytes)];
    }

    /** Reads one packet: a header byte, up to four length bytes, then the body. */
    method Read() returns (r: Result<(byte, Bytes), MqttError>)
      requires Valid()
      modifies this
      ensures Valid()
      ensures r.Err? ==> ReadPacket(old(unread)) == Err(r.error) && trace == old(trace) && unread == old(unread)
      ensures r.Ok? ==> ReadPacket(old(unread)) == Ok(Received(r.value.0, r.value.1, unread))
                        && trace == old(trace) + [Got(r.value.0, r.value.1)]
    {
      hide Follows;
      r := Fetch();
      if r.Ok? {
        FollowsMore(old(trace), Got(r.value.0, r.value.1), broker, old(unread), unread);
      }
    }

    method Fetch() returns (r: Result<(byte, Bytes), MqttError>)
      modifies this
      ensures r.Err? ==> ReadPacket(old(unread)) == Err(r.error) && trace == old(trace) && unread == old(unread)
      ensures r.Ok? ==> ReadPacket(old(unread)) == Ok(Received(r.value.0, r.value.1, unread))
                        && trace == old(trace) + [Got(r.value.0, r.value.1)]
    {
      hide DecodeLength;
      if unread == [] {
        return Err(Disconnected);
      }
      var length := ReadLength(unread[1..]);
      if length.Err? {
        return Err(length.error);
      }
      if length.value.value > MAX_PACKET_BYTES {
        return Err(PacketTooLarge);
      }
      var start := 1 + length.value.used;
      var end := start + length.value.value;
      if |unread| < end {
        return Err(Disconnected);
      }
      r := Ok((unread[0], unread[start..end]));
      trace := trace + [Got(unread[0], unread[start..end])];
      unread := unread[end..];
    }

    /** Succeeds exactly when the broker's next packet accepts the connection. */
    method Connect(r: Request) returns (e: Option<MqttError>)
      requires Valid() && trace == []
      modifies this
      ensures Valid()
      ensures e.None? <==> AfterConnect(r, old(unread)).Some?
      ensures e.None? ==> IsConnect(trace, r) && AfterConnect(r, old(unread)) == Some(unread)
      ensures forall i :: 0 <= i < |trace| ==> trace[i].Sent? || trace[i].Got?
    {
      hide Follows, ReadPacket, ConnectPacket;
      var packet := ConnectPacket(r);
      if packet.Err? {
        return Some(packet.error);
      }
      Write(packet.value);
      var reply := Read();
      if reply.Err? {
        return Some(reply.error);
      }
      var (header, body) := reply.value;
      if Kind(header) != 2 || |body| != 2 || body[1] != 0 {
        return Some(Unexpected);
      }
      e := None;
    }

    /** Reads the broker's answer about packet 1 and checks its kind. */
    method ExpectOne(kind: nat) returns (e: Option<MqttError>)
      requires Valid()
      modifies this
      ensures Valid()
      ensures e.None? <==> Take(old(unread), e => RepliesToOne(e, kind)).Some?
      ensures e.None? ==>
                && |trace| == |old(trace)| + 1 && trace[..|old(trace)|] == old(trace) && RepliesToOne(trace[|old(trace)|], kind)
                && Take(old(unread), e => RepliesToOne(e, kind)) == Some(unread)
      ensures e.Some? ==> forall i :: |old(trace)| <= i < |trace| ==> trace[i].Got?
      ensures old(trace) <= trace
    {
      hide Follows, ReadPacket;
      var reply := Read();
      if reply.Err? {
        return Some(reply.error);
      }
      var (header, body) := reply.value;
      if Kind(header) != kind || body != [0, 1] {
        return Some(Unexpected);
      }
      e := None;
    }

    /** Publishes and completes the acknowledgement the quality of service asks for; fails exactly without it. */
    method PublishOne(r: Request) returns (e: Option<MqttError>)
      requires Valid()
      modifies this
      ensures Valid() && old(trace) <= trace
      ensures e.None? <==> AfterPublish(r, old(unread)).Some?
      ensures e.None? ==>
                && AfterPublish(r, old(unread)) == Some(unread)
                && PublishPacket(r.message, 1).Ok?
                && |trace| > |old(trace)| && trace[|old(trace)|] == Sent(PublishPacket(r.message, 1).value)
                && IsHandshake(trace[|old(trace)| + 1..], r.message.qos)
      ensures forall i :: |old(trace)| <= i < |trace| ==> trace[i].Sent? || trace[i].Got?
    {
      hide Follows, ReadPacket, PublishPacket, Take;
      var packet := PublishPacket(r.message, 1);
      if packet.Err? {
        return Some(packet.error);
      }
      Write(packet.value);
      if r.message.qos == 1 {
        e := ExpectOne(4);
        if e.Some? {
          return;
        }
      }
      if r.message.qos == 2 {
        e := ExpectOne(5);
        if e.Some? {
          return;
        }
        assert Packet(0x62, [0, 1]) == PUBREL_ONE;
        Write(PUBREL_ONE);
        e := ExpectOne(7);
        if e.Some? {
          return;
        }
      }
      e := None;
    }

    /** Handles one packet of the receive loop; fails exactly on a bad PUBLISH or a missing release. */
    method Deliver(done: bool) returns (e: Option<MqttError>)
      requires Valid()
      modifies this
      ensures Valid() && old(trace) <= trace
      ensures e.None? <==> AfterStep(old(unread)).Some?
      ensures e.None? ==> IsStep(trace[|old(trace)|..], done) && AfterStep(old(unread)) == Some(unread)
    {
      hide Follows, ReadPacket, IncomingPublish, Packet, IsStep;
      var reply := Read();
      if reply.Err? {
        return Some(reply.error);
      }
      var (header, body) := reply.value;
      ghost var got := Got(header, body);
      IdExactlyAboveZero(header, body);
      if Kind(header) != 3 {
        StepIgnores(got, done);
        assert trace[|old(trace)|..] == [got];
        return None;
      }
      var m := IncomingPublish(header, body);
      if m.Err? {
        return Some(m.error);
      }
      var delivery := DeliveryOf(header, m.value, done);
      StepDelivers(got, done);
      if m.value.id.Some? && Qos(header) == 1 {
        Write(PubAck(m.value.id.value));
      }
      if m.value.id.Some? && Qos(header) == 2 {
        Write(PubRec(m.value.id.value));
        var release := Read();
        if release.Err? {
          return Some(release.error);
        }
        var (replyHeader, replyBody) := release.value;
        if replyHeader != 0x62 || replyBody != ToBigEndian16(m.value.id.value) {
          return Some(Unexpected);
        }
        Write(PubComp(m.value.id.value));
      }
      Hand(delivery);
      assert trace[|old(trace)|..] == StepEvents(got, m.value, delivery);
      e := None;
    }

    /** Hands an event to the caller. */
    method Hand(event: Event)
      requires Valid() && !event.Got?
      modifies this`trace
      ensures Valid() && trace == old(trace) + [event]
    {
      FollowsMore(trace, event, broker, unread, unread);
      trace := trace + [event];
    }

    method Subscribe(r: Request) returns (e: Option<MqttError>)
      requires Valid()
      modifies this
      ensures Valid() && old(trace) <= trace
      ensures e.None? <==> AfterSubscribe(r, old(unread)).Some?
      ensures e.None? ==>
                && AfterSubscribe(r, old(unread)) == Some(unread)
                && SubscribePacket(r.message.topic, r.message.qos).Ok?
                && |trace| >= |old(trace)| + 2
                && trace[|old(trace)|] == Sent(SubscribePacket(r.message.topic, r.message.qos).value)
                && AcceptsSubscription(trace[|old(trace)| + 1])
                && IsDelivery(trace[|old(trace)| + 2..], 0, r.receiveLimit, r.receiveLimit)
    {
      hide IncomingPublish, ReadPacket, SubscribePacket, IsStep, IsDelivery, Follows, AfterStep, AfterSteps;
      var packet := SubscribePacket(r.message.topic, r.message.qos);
      if packet.Err? {
        return Some(packet.error);
      }
      Write(packet.value);
      var reply := Read();
      if reply.Err? {
        return Some(reply.error);
      }
      var (header, body) := reply.value;
      if Kind(header) != 9 || |body| < 3 || body[..2] != [0, 1] || body[2] == 0x80 {
        return Some(Unexpected);
      }
      ghost var start, opening, granted := |trace|, trace, unread;
      assert Take(old(unread), AcceptsSubscription) == Some(granted);
      assert trace[start..] == [];
      DeliveryNone(r.receiveLimit);
      StepsNone(granted);
      for index := 0 to r.receiveLimit
        invariant Valid() && opening <= trace && start == |opening|
        invariant AfterSteps(granted, index) == Some(unread)
        invariant IsDelivery(trace[start..], 0, index, r.receiveLimit)
      {
        ghost var before := trace;
        StepsUnfold(granted, index);
        e := Deliver(index + 1 == r.receiveLimit);
        if e.Some? {
          StepsStayNone(granted, index + 1, r.receiveLimit);
          return;
        }
        SplitAt(trace, start, |before|);
        assert trace[start..|before|] == before[start..];
        DeliverySnoc(before[start..], trace[|before|..], 0, index, r.receiveLimit);
      }
      e := None;
    }

    /**
     * A whole run: connect, publish or subscribe, disconnect. It succeeds if and only if the packets at
     * the front of the broker's bytes are those the request waits for.
     */
    method Execute(r: Request) returns (e: Option<MqttError>)
      requires Valid() && trace == []
      modifies this
      ensures Valid()
      ensures e.None? <==> AfterRun(r, old(unread)).Some?
      ensures e.None? ==> AfterRun(r, old(unread)) == Some(unread)
      ensures e.None? && r.mode.PublishMode? ==> IsPublishRun(trace, r)
      ensures e.None? && r.mode.SubscribeMode? ==> IsSubscribeRun(trace, r)
      ensures e.Some? && r.mode.PublishMode? ==> Published !in trace
    {
      hide IncomingPublish, ReadPacket, SubscribePacket, PublishPacket, ConnectPacket, IsDelivery, Follows;
      hide AfterConnect, AfterPublish, AfterSubscribe, IsConnect, IsHandshake, IsPublishRun, IsSubscribeRun, AcceptsSubscription;
      e := Connect(r);
      if e.Some? {
        return;
      }
      ghost var connected := trace;
      if r.mode.PublishMode? {
        e := PublishOne(r);
        if e.Some? {
          return;
        }
        ghost var all := trace;
        Hand(Published);
        Write(DISCONNECT);
        PublishRunIs(connected, all, r);
        assert trace == all + [Published] + [Sent(DISCONNECT)];
      } else {
        e := Subscribe(r);
        if e.Some? {
          return;
        }
        ghost var all := trace;
        Write(DISCONNECT);
        SubscribeRunIs(connected, all, r);
      }
      e := None;
    }
  }

  lemma PublishRunIs(connected: seq<Event>, all: seq<Event>, r: Request)
    requires IsConnect(connected, r) && connected <= all && |all| > |connected|
    requires PublishPacket(r.message, 1).Ok? && all[|connected|] == Sent(PublishPacket(r.message, 1).value)
    requires IsHandshake(all[|connected| + 1..], r.message.qos)
    ensures IsPublishRun(all + [Published] + [Sent(DISCONNECT)], r)
  {
    hide PublishPacket, ConnectPacket, IsHandshake;
    var t := all + [Published] + [Sent(DISCONNECT)];
    assert |connected| == 2 && t[..2] == connected && t[2] == all[2];
    assert t[3..|t| - 2] == all[3..];
    assert t[|t| - 2..] == [Published, Sent(DISCONNECT)];
  }

  lemma SubscribeRunIs(connected: seq<Event>, all: seq<Event>, r: Request)
    requires IsConnect(connected, r) && connected <= all && |all| >= |connected| + 2
    requires SubscribePacket(r.message.topic, r.message.qos).Ok?
    requires all[|connected|] == Sent(SubscribePacket(r.message.topic, r.message.qos).value)
    requires AcceptsSubscription(all[|connected| + 1])
    requires IsDelivery(all[|connected| + 2..], 0, r.receiveLimit, r.receiveLimit)
    ensures IsSubscribeRun(all + [Sent(DISCONNECT)], r)
  {
    hide SubscribePacket, ConnectPacket, AcceptsSubscription, IsDelivery;
    var t := all + [Sent(DISCONNECT)];
    assert |connected| == 2 && t[..2] == connected && t[2] == all[2] && t[3] == all[3];
    assert t[4..|t| - 1] == all[4..];
  }

  /** The events of a delivering step. */
  function StepEvents(got: Event, m: Incoming, delivery: Event): seq<Event>
    requires got.Got?
  {
    if m.id.Some? && Qos(got.header) == 1 then [got, Sent(PubAck(m.id.value)), delivery]
    else if m.id.Some? && Qos(got.header) == 2 then
      [got, Sent(PubRec(m.id.value)), Got(0x62, ToBigEndian16(m.id.value)), Sent(PubComp(m.id.value)), delivery]
    else [got, delivery]
  }

  lemma StepIgnores(got: Event, done: bool)
    requires got.Got? && Kind(got.header) != 3
    ensures IsStep([got], done)
  {}

  lemma StepDelivers(got: Event, done: bool)
    requires got.Got? && Kind(got.header) == 3 && IncomingPublish(got.header, got.body).Ok?
    ensures var m := IncomingPublish(got.header, got.body).value;
            IsStep(StepEvents(got, m, DeliveryOf(got.header, m, done)), done)
  {
    IdExactlyAboveZero(got.header, got.body);
    hide IncomingPublish, Packet;
    var m := IncomingPublish(got.header, got.body).value;
    var t := StepEvents(got, m, DeliveryOf(got.header, m, done));
    assert t == [got] + t[1..];
  }

  lemma StepsNone(stream: Bytes)
    ensures AfterSteps(stream, 0) == Some(stream)
  {}

  lemma StepsUnfold(stream: Bytes, count: nat)
    ensures AfterSteps(stream, count + 1) ==
            if AfterSteps(stream, count).None? then None else AfterStep(AfterSteps(stream, count).value)
  {}

  lemma {:induction false} StepsStayNone(stream: Bytes, count: nat, more: nat)
    requires count <= more && AfterSteps(stream, count).None?
    ensures AfterSteps(stream, more).None?
    decreases more
  {
    hide AfterStep;
    if count < more {
      StepsStayNone(stream, count, more - 1);
    }
  }

  /** A packet identifier is present exactly for a quality of service above zero. */
  lemma IdExactlyAboveZero(header: byte, body: Bytes)
    ensures IncomingPublish(header, body).Ok? ==> (IncomingPublish(header, body).value.id.Some? <==> Qos(header) > 0)
  {}

  /** The loop that reads a remaining length byte by byte. */
  method ReadLength(s: Bytes) returns (r: Result<Length, MqttError>)
    ensures r == DecodeLength(s, 0, 1, 0)
  {
    hide DecodeLength;
    var multiplier: nat, length: nat := 1, 0;
    var index := 0;
    assert s[0..] == s;
    while true
      invariant 0 <= index < 4 && index <= |s|
      invariant DecodeLength(s, 0, 1, 0) == Later(index, DecodeLength(s[index..], index, multiplier, length))
      decreases 4 - index
    {
      DecodeUnfold(s, index, multiplier, length);
      if index == |s| {
        return Err(Disconnected);
      }
      length := length + s[index] % 128 * multiplier;
      if s[index] < 128 {
        return Ok(Length(length, index + 1));
      }
      if index == 3 {
        return Err(BadRemainingLength);
      }
      multiplier := multiplier * 128;
      index := index + 1;
    }
  }

  function Later(read: nat, r: Result<Length, MqttError>): Result<Length, MqttError> {
    if r.Err? then r else Ok(Length(r.value.value, r.value.used + read))
  }

  lemma DecodeUnfold(s: Bytes, index: nat, multiplier: nat, length: nat)
    requires index < 4 && index <= |s|
    ensures DecodeLength(s[index..], index, multiplier, length) ==
            if index == |s| then Err(Disconnected)
            else if s[index] < 128 then Ok(Length(length + s[index] % 128 * multiplier, 1))
            else if index == 3 then Err(BadRemainingLength)
            else Later(1, DecodeLength(s[index + 1..], index + 1, multiplier * 128, length + s[index] % 128 * multiplier))
  {
    if index < |s| {
      assert s[index..][1..] == s[index + 1..];
    }
  }

  lemma SplitAt(t: seq<Event>, a: nat, b: nat)
    requires a <= b <= |t|
    ensures t[a..] == t[a..b] + t[b..]
  {}

  lemma DeliveryNone(limit: nat)
    ensures IsDelivery([], 0, 0, limit)
  {}

  /** One more iteration at the end of a run of iterations. */
  lemma {:induction false} DeliverySnoc(t: seq<Event>, step: seq<Event>, from: nat, count: nat, limit: nat)
    requires IsDelivery(t, from, count, limit) && IsStep(step, from + count + 1 == limit)
    ensures IsDelivery(t + step, from, count + 1, limit)
    decreases count
  {
    hide IsStep;
    if count == 0 {
      var k := |step|;
      StepNonEmpty(step, from + 1 == limit);
      assert (t + step)[..k] == step && (t + step)[k..] == [];
    } else {
      var k :| 0 < k <= |t| && IsStep(t[..k], from + 1 == limit) && IsDelivery(t[k..], from + 1, count - 1, limit);
      DeliverySnoc(t[k..], step, from + 1, count - 1, limit);
      assert (t + step)[..k] == t[..k] && (t + step)[k..] == t[k..] + step;
    }
  }

  lemma StepNonEmpty(step: seq<Event>, done: bool)
    requires IsStep(step, done)
    ensures step != []
  {}

  // ----- what every successful subscription guarantees -----

  /** A packet as its receiver reads it: the header byte and the body. */
  datatype Ack = Ack(header: byte, body: Bytes)

  /** What the bytes written are to whoever reads them; none if they are not one whole packet. */
  function ReadAs(sent: Bytes): Option<Ack> {
    var p := ReadPacket(sent);
    if p.Ok? && p.value.rest == [] then Some(Ack(p.value.header, p.value.body)) else None
  }

  function SentPackets(t: seq<Event>): seq<Option<Ack>> {
    if t == [] then []
    else (if t[0].Sent? then [ReadAs(t[0].bytes)] else []) + SentPackets(t[1..])
  }

  /** Two bytes, the more significant first. */
  function Word(high: int, low: int): int { high * 256 + low }

  /** The two bytes after the topic of a PUBLISH body: its packet identifier. */
  function IdentifierOf(body: Bytes): Bytes
    requires |body| >= 2 && |body| >= 4 + Word(body[0], body[1])
  {
    var topic := Word(body[0], body[1]);
    body[2 + topic..4 + topic]
  }

  predicate HasIdentifier(body: Bytes) {
    |body| >= 2 && |body| >= 4 + Word(body[0], body[1])
  }

  /**
   * The acknowledgements sections 4.3.2 and 4.3.3 of MQTT 3.1.1 ask of the receiver of one packet, with
   * the codes of sections 3.4, 3.5 and 3.7: PUBACK is 0x40, PUBREC 0x50 and PUBCOMP 0x70.
   */
  function OwedFor(header: byte, body: Bytes): seq<Option<Ack>> {
    if header / 16 != 3 || !HasIdentifier(body) then []
    else if header / 2 % 4 == 1 then [Some(Ack(0x40, IdentifierOf(body)))]
    else if header / 2 % 4 == 2 then [Some(Ack(0x50, IdentifierOf(body))), Some(Ack(0x70, IdentifierOf(body)))]
    else []
  }

  function Owed(t: seq<Event>): seq<Option<Ack>> {
    if t == [] then []
    else (if t[0].Got? then OwedFor(t[0].header, t[0].body) else []) + Owed(t[1..])
  }

  function Deliveries(t: seq<Event>): nat {
    if t == [] then 0 else (if t[0].Delivered? then 1 else 0) + Deliveries(t[1..])
  }

  lemma {:induction false} TracesAppend(a: seq<Event>, b: seq<Event>)
    ensures SentPackets(a + b) == SentPackets(a) + SentPackets(b)
    ensures Owed(a + b) == Owed(a) + Owed(b)
    ensures Deliveries(a + b) == Deliveries(a) + Deliveries(b)
    decreases |a|
  {
    hide OwedFor, ReadAs, SentPackets, Owed, Deliveries;
    if a == [] {
      NoTraces();
      assert a + b == b;
    } else {
      var e, rest := a[0], a[1..];
      TracesAppend(rest, b);
      TracesCons(e, rest);
      TracesCons(e, rest + b);
      assert a == [e] + rest && a + b == [e] + (rest + b);
      Associated(if e.Sent? then [ReadAs(e.bytes)] else [], SentPackets(rest), SentPackets(b));
      Associated(if e.Got? then OwedFor(e.header, e.body) else [], Owed(rest), Owed(b));
    }
  }

  lemma Associated(a: seq<Option<Ack>>, b: seq<Option<Ack>>, c: seq<Option<Ack>>)
    ensures a + (b + c) == (a + b) + c
  {}

  lemma NoTraces()
    ensures SentPackets([]) == [] && Owed([]) == [] && Deliveries([]) == 0
  {}

  lemma TracesOne(e: Event)
    ensures SentPackets([e]) == if e.Sent? then [ReadAs(e.bytes)] else []
    ensures Owed([e]) == if e.Got? then OwedFor(e.header, e.body) else []
    ensures Deliveries([e]) == if e.Delivered? then 1 else 0
  {
    hide OwedFor, ReadAs;
    assert [e][1..] == [];
  }

  lemma TracesCons(e: Event, t: seq<Event>)
    ensures SentPackets([e] + t) == (if e.Sent? then [ReadAs(e.bytes)] else []) + SentPackets(t)
    ensures Owed([e] + t) == (if e.Got? then OwedFor(e.header, e.body) else []) + Owed(t)
    ensures Deliveries([e] + t) == (if e.Delivered? then 1 else 0) + Deliveries(t)
  {
    hide OwedFor, ReadAs;
    assert ([e] + t)[1..] == t;
  }

  /** Everything owed for what was read has been written, and nothing was delivered yet. */
  ghost predicate Settled(t: seq<Event>) {
    SentPackets(t) == Owed(t) && Deliveries(t) == 0
  }

  lemma OneReplySettles(g: Event, ack: Bytes)
    requires g.Got? && OwedFor(g.header, g.body) == [ReadAs(ack)]
    ensures Settled([g, Sent(ack)])
  {
    hide OwedFor, ReadAs;
    assert [g, Sent(ack)] == [g] + [Sent(ack)];
    TracesCons(g, [Sent(ack)]);
    TracesOne(Sent(ack));
  }

  lemma TwoRepliesSettle(g: Event, first: Bytes, release: Bytes, second: Bytes)
    requires g.Got? && OwedFor(g.header, g.body) == [ReadAs(first), ReadAs(second)]
    ensures Settled([g, Sent(first), Got(0x62, release), Sent(second)])
  {
    ReleaseOwesNothing(release);
    hide OwedFor, ReadAs;
    var c, d := Got(0x62, release), Sent(second);
    assert [g, Sent(first), c, d] == [g] + ([Sent(first)] + ([c] + [d]));
    TracesCons(g, [Sent(first)] + ([c] + [d]));
    TracesCons(Sent(first), [c] + [d]);
    TracesCons(c, [d]);
    TracesOne(d);
  }

  lemma ReleaseOwesNothing(body: Bytes)
    ensures OwedFor(0x62, body) == []
  {}

  /** An acknowledgement reads as its header and identifier. */
  lemma AckReads(header: byte, id: Bytes)
    requires |id| == 2
    ensures ReadAs(Packet(header, id)) == Some(Ack(header, id))
  {
    WholePacketReads(header, id);
  }

  /** The identifier of a PUBLISH of quality of service 1 or 2 is the one that is written back. */
  lemma IdentifierReturned(header: byte, body: Bytes)
    requires IncomingPublish(header, body).Ok? && Qos(header) > 0
    ensures HasIdentifier(body) && IncomingPublish(header, body).value.id.Some?
    ensures ToBigEndian16(IncomingPublish(header, body).value.id.value) == IdentifierOf(body)
  {
    hide ValidUtf8;
    var cursor := 2 + FromBigEndian16(body[0], body[1]);
    BytesReturned(body[cursor], body[cursor + 1]);
    assert body[cursor..cursor + 2] == [body[cursor], body[cursor + 1]];
  }

  lemma BytesReturned(a: byte, b: byte)
    ensures ToBigEndian16(FromBigEndian16(a, b)) == [a, b]
  {}

  lemma OwedExactly(header: byte, body: Bytes)
    requires Kind(header) == 3 && IncomingPublish(header, body).Ok? && Qos(header) > 0
    ensures var m := IncomingPublish(header, body).value;
            && m.id.Some?
            && (Qos(header) == 1 ==> OwedFor(header, body) == [ReadAs(PubAck(m.id.value))])
            && (Qos(header) == 2 ==> OwedFor(header, body) == [ReadAs(PubRec(m.id.value)), ReadAs(PubComp(m.id.value))])
  {
    IdentifierReturned(header, body);
    hide IncomingPublish, ReadAs, IdentifierOf, HasIdentifier, ToBigEndian16, Packet;
    var id := IdentifierOf(body);
    AckReads(0x40, id);
    AckReads(0x50, id);
    AckReads(0x70, id);
  }

  lemma NothingOwedFor(header: byte, body: Bytes)
    requires Qos(header) != 1 && Qos(header) != 2
    ensures OwedFor(header, body) == []
  {}

  /** A step that delivers is a settled prefix followed by the delivery. */
  lemma StepShape(t: seq<Event>, done: bool)
    requires IsStep(t, done) && Kind(t[0].header) == 3
    ensures Settled(t[..|t| - 1]) && t[|t| - 1].Delivered?
  {
    hide IncomingPublish, Packet, Settled, OwedFor, ReadAs;
    var h, b := t[0].header, t[0].body;
    IdExactlyAboveZero(h, b);
    var m := IncomingPublish(h, b).value;
    assert t == [t[0]] + t[1..];
    if Qos(h) == 2 {
      OwedExactly(h, b);
      TwoRepliesSettle(t[0], PubRec(m.id.value), ToBigEndian16(m.id.value), PubComp(m.id.value));
      assert t[..|t| - 1] == [t[0], Sent(PubRec(m.id.value)), Got(0x62, ToBigEndian16(m.id.value)), Sent(PubComp(m.id.value))];
    } else if Qos(h) == 1 {
      OwedExactly(h, b);
      OneReplySettles(t[0], PubAck(m.id.value));
      assert t[..|t| - 1] == [t[0], Sent(PubAck(m.id.value))];
    } else {
      NothingOwedFor(h, b);
      NothingOwed(t[0]);
      assert t[..|t| - 1] == [t[0]];
    }
  }

  lemma NothingOwed(g: Event)
    requires g.Got? && OwedFor(g.header, g.body) == []
    ensures Settled([g])
  {
    hide OwedFor, ReadAs;
    TracesOne(g);
  }

  lemma StepStart(t: seq<Event>, done: bool)
    requires IsStep(t, done)
    ensures t != [] && t[0].Got?
    ensures Kind(t[0].header) != 3 ==> |t| == 1 && OwedFor(t[0].header, t[0].body) == []
  {
    hide IncomingPublish;
  }

  lemma SettledIs(t: seq<Event>)
    requires Settled(t)
    ensures SentPackets(t) == Owed(t) && Deliveries(t) == 0
  {}

  /** Something settled and then a delivery. */
  lemma SettledThenDelivered(init: seq<Event>, last: Event)
    requires Settled(init) && last.Delivered?
    ensures var t := init + [last];
            && SentPackets(t) == Owed(t) && Deliveries(t) <= 1
            && forall i :: 0 <= i < |t| && t[i].Delivered? ==> SentPackets(t[..i]) == Owed(t[..i])
  {
    SettledIs(init);
    hide ReadAs, OwedFor, Settled, SentPackets, Owed, Deliveries;
    var t := init + [last];
    TracesAppend(init, [last]);
    TracesOne(last);
    forall i | 0 <= i < |t| && t[i].Delivered? ensures SentPackets(t[..i]) == Owed(t[..i]) {
      if i < |init| {
        assert init[i].Delivered?;
        DeliveredCounts(init, i);
      } else {
        assert t[..i] == init;
      }
    }
  }

  lemma NothingSettled(g: Event)
    requires g.Got? && OwedFor(g.header, g.body) == []
    ensures SentPackets([g]) == Owed([g]) && Deliveries([g]) == 0
  {
    TracesOne(g);
  }

  /** In one step the acknowledgements owed are written, all of them before the delivery. */
  lemma StepSettles(t: seq<Event>, done: bool)
    requires IsStep(t, done)
    ensures SentPackets(t) == Owed(t) && Deliveries(t) <= 1
    ensures forall i :: 0 <= i < |t| && t[i].Delivered? ==> SentPackets(t[..i]) == Owed(t[..i])
  {
    hide IsStep, ReadAs, OwedFor, Settled, SentPackets, Owed, Deliveries;
    StepStart(t, done);
    if Kind(t[0].header) == 3 {
      StepShape(t, done);
      SettledThenDelivered(t[..|t| - 1], t[|t| - 1]);
      assert t[..|t| - 1] + [t[|t| - 1]] == t;
    } else {
      NothingSettled(t[0]);
      assert t == [t[0]];
    }
  }

  lemma {:induction false} DeliveredCounts(t: seq<Event>, i: nat)
    requires i < |t| && t[i].Delivered?
    ensures Deliveries(t) > 0
    decreases i
  {
    if i > 0 {
      DeliveredCounts(t[1..], i - 1);
    }
  }

  /**
   * A successful subscription wrote, in order, exactly the acknowledgements owed for the PUBLISH
   * packets it read, delivered at most one message an iteration, and at every delivery had already
   * written everything owed so far.
   */
  lemma {:induction false} DeliverySettles(t: seq<Event>, from: nat, count: nat, limit: nat)
    requires IsDelivery(t, from, count, limit)
    ensures SentPackets(t) == Owed(t) && Deliveries(t) <= count
    ensures forall i :: 0 <= i < |t| && t[i].Delivered? ==> SentPackets(t[..i]) == Owed(t[..i])
    decreases count
  {
    hide IsStep, ReadAs, OwedFor, SentPackets, Owed, Deliveries;
    NoTraces();
    if count > 0 {
      var k :| 0 < k <= |t| && IsStep(t[..k], from + 1 == limit) && IsDelivery(t[k..], from + 1, count - 1, limit);
      var a, b := t[..k], t[k..];
      assert t == a + b;
      StepSettles(a, from + 1 == limit);
      DeliverySettles(b, from + 1, count - 1, limit);
      TracesAppend(a, b);
      forall i | 0 <= i < |t| && t[i].Delivered? ensures SentPackets(t[..i]) == Owed(t[..i]) {
        if i < k {
          assert t[..i] == a[..i] && a[i] == t[i];
        } else {
          assert t[..i] == a + b[..i - k] && b[i - k] == t[i];
          TracesAppend(a, b[..i - k]);
        }
      }
    }
  }

  /** The receive loop of a successful subscription, cut out of its trace, is settled throughout. */
  lemma SubscribeRunSettles(t: seq<Event>, loop: seq<Event>, r: Request)
    requires IsSubscribeRun(t, r) && loop == t[4..|t| - 1]
    ensures SentPackets(loop) == Owed(loop) && Deliveries(loop) <= r.receiveLimit
    ensures forall i :: 0 <= i < |loop| && loop[i].Delivered? ==> SentPackets(loop[..i]) == Owed(loop[..i])
  {
    hide SentPackets, Owed, Deliveries;
    DeliverySettles(loop, 0, r.receiveLimit, r.receiveLimit);
  }

  /** A PUBLISH is refused exactly when it is cut short or its topic is not UTF-8. */
  lemma RefusedExactly(header: byte, body: Bytes)
    ensures IncomingPublish(header, body).Err? <==>
            || |body| < 2
            || |body| < 2 + Word(body[0], body[1])
            || !ValidUtf8(body[2..2 + Word(body[0], body[1])])
            || (header / 2 % 4 != 0 && !HasIdentifier(body))
  {
    hide ValidUtf8;
  }

  /** A message published by anyone is handed over with the same topic, payload, QoS and retain flag. */
  lemma DeliveredAsPublished(t: seq<Event>, done: bool, p: Publish, id: nat)
    requires IsStep(t, done) && p.qos <= 2 && |p.topic| <= 65535 && ValidUtf8(p.topic) && id < 65536
    requires t[0].Got? && t[0].header == PublishHeader(p.qos, p.retain) && t[0].body == PublishBody(p, id)
    ensures t[|t| - 1] == Delivered(p.topic, p.payload, p.qos, p.retain, done)
  {
    PublishBodyRoundTrip(p, id);
    HeaderFields(p.qos, p.retain);
    hide IncomingPublish, PublishHeader, PublishBody, ValidUtf8, Packet;
    assert t[|t| - 1] == t[1..][|t| - 2];
  }

  // ----- what the opening packets carry -----

  /** A string with its two length bytes, and what follows it. */
  function TakeString(body: Bytes): Option<(Bytes, Bytes)> {
    if |body| < 2 || |body| < 2 + Word(body[0], body[1]) then None
    else
      var end := 2 + Word(body[0], body[1]);
      Some((body[2..end], body[end..]))
  }

  lemma StringTaken(text: Bytes, rest: Bytes)
    requires |text| <= 65535
    ensures PushUtf8(text).Some? && TakeString(PushUtf8(text).value + rest) == Some((text, rest))
  {
    var n := |text|;
    var body := ToBigEndian16(n) + text + rest;
    SplitLength(n);
    assert body[0] == n / 256 % 256 && body[1] == n % 256;
    assert body[2..2 + n] == text && body[2 + n..] == rest;
  }

  lemma SplitLength(n: nat)
    requires n <= 65535
    ensures n / 256 % 256 * 256 + n % 256 == n
  {}

  /** The strings in a body, one after another, with nothing after them. */
  ghost predicate CarriesStrings(body: Bytes, strings: seq<Bytes>)
    decreases |strings|
  {
    if strings == [] then body == []
    else TakeString(body).Some? && TakeString(body).value.0 == strings[0] && CarriesStrings(TakeString(body).value.1, strings[1..])
  }

  function Present(text: Option<Bytes>): seq<Bytes> {
    if text.None? then [] else [text.value]
  }

  lemma OneMoreString(text: Bytes, rest: Bytes, strings: seq<Bytes>)
    requires |text| <= 65535 && CarriesStrings(rest, strings)
    ensures CarriesStrings(PushUtf8(text).value + rest, [text] + strings)
  {
    StringTaken(text, rest);
    assert ([text] + strings)[1..] == strings;
  }

  lemma OptionalString(text: Option<Bytes>, rest: Bytes, strings: seq<Bytes>)
    requires PushOptional(text).Some? && CarriesStrings(rest, strings)
    ensures CarriesStrings(PushOptional(text).value + rest, Present(text) + strings)
  {
    if text.Some? {
      OneMoreString(text.value, rest, strings);
    } else {
      assert [] + rest == rest && [] + strings == strings;
    }
  }

  lemma ConnectStrings(r: Request)
    requires ConnectPacket(r).Ok?
    ensures PushUtf8(r.clientId).Some? && PushOptional(r.username).Some? && PushOptional(r.password).Some?
    ensures var strings := PushUtf8(r.clientId).value + PushOptional(r.username).value + PushOptional(r.password).value;
            && |strings| <= 3 * 65537
            && CarriesStrings(strings, [r.clientId] + Present(r.username) + Present(r.password))
  {
    var client, user, pass := PushUtf8(r.clientId).value, PushOptional(r.username).value, PushOptional(r.password).value;
    OptionalString(r.password, [], []);
    OptionalString(r.username, pass + [], Present(r.password) + []);
    OneMoreString(r.clientId, user + (pass + []), Present(r.username) + (Present(r.password) + []));
    hide CarriesStrings, Present, PushUtf8, PushOptional;
    assert client + (user + (pass + [])) == client + user + pass;
    assert [r.clientId] + (Present(r.username) + (Present(r.password) + [])) == [r.clientId] + Present(r.username) + Present(r.password);
  }

  /** The CONNECT flags of section 3.1.2.3, bit by bit. */
  ghost predicate IsFlags(flags: int, r: Request) {
    && (flags / 2 % 2 == 1 <==> r.cleanSession)
    && (flags / 128 == 1 <==> r.username.Some?)
    && (flags / 64 % 2 == 1 <==> r.password.Some?)
  }

  ghost predicate IsConnectBody(body: Bytes, r: Request) {
    && |body| >= 10 && body[..7] == [0, 4, 77, 81, 84, 84, 4] && IsFlags(body[7], r)
    && Word(body[8], body[9]) == r.keepAlive
    && CarriesStrings(body[10..], [r.clientId] + Present(r.username) + Present(r.password))
  }

  lemma ConnectBodyIs(r: Request, flags: byte, strings: Bytes)
    requires IsFlags(flags, r) && r.keepAlive < 65536
    requires CarriesStrings(strings, [r.clientId] + Present(r.username) + Present(r.password))
    ensures IsConnectBody([0, 4, 77, 81, 84, 84, 4, flags] + ToBigEndian16(r.keepAlive) + strings, r)
  {
    SplitLength(r.keepAlive);
    hide CarriesStrings, Present, IsFlags;
    var body := [0, 4, 77, 81, 84, 84, 4, flags] + ToBigEndian16(r.keepAlive) + strings;
    assert body[10..] == strings;
  }

  function Flags(r: Request): byte {
    (if r.cleanSession then 0x02 else 0) + (if r.username.Some? then 0x80 else 0) + (if r.password.Some? then 0x40 else 0)
  }

  lemma FlagsAre(r: Request)
    ensures IsFlags(Flags(r), r)
  {}

  lemma ConnectUnfold(r: Request)
    requires ConnectPacket(r).Ok?
    ensures PushUtf8(r.clientId).Some? && PushOptional(r.username).Some? && PushOptional(r.password).Some?
    ensures var strings := PushUtf8(r.clientId).value + PushOptional(r.username).value + PushOptional(r.password).value;
            ConnectPacket(r).value == Packet(0x10, [0, 4, 77, 81, 84, 84, 4, Flags(r)] + ToBigEndian16(r.keepAlive) + strings)
  {
    hide PushUtf8, PushOptional, Packet, ToBigEndian16;
    var client, user, pass := PushUtf8(r.clientId).value, PushOptional(r.username).value, PushOptional(r.password).value;
    var opening := [0, 4, 77, 81, 84, 84, 4, Flags(r)] + ToBigEndian16(r.keepAlive);
    Regrouped(opening, client, user, pass);
  }

  lemma Regrouped(a: Bytes, b: Bytes, c: Bytes, d: Bytes)
    ensures a + b + c + d == a + (b + c + d)
  {}

  /**
   * Section 3.1 of MQTT 3.1.1: the CONNECT packet carries protocol and level, the flags, the keep-alive
   * and then client identifier, user name and password, the latter two if there are any.
   */
  lemma ConnectCarries(r: Request)
    requires ConnectPacket(r).Ok? && r.keepAlive < 65536
    ensures var p := ReadAs(ConnectPacket(r).value);
            p.Some? && p.value.header == 0x10 && IsConnectBody(p.value.body, r)
  {
    hide ConnectPacket, PushUtf8, PushOptional, CarriesStrings, Present, IsConnectBody, ReadAs, Packet, IsFlags, Flags;
    ConnectStrings(r);
    ConnectUnfold(r);
    FlagsAre(r);
    var strings := PushUtf8(r.clientId).value + PushOptional(r.username).value + PushOptional(r.password).value;
    ConnectBodyIs(r, Flags(r), strings);
    WholePacketReads(0x10, [0, 4, 77, 81, 84, 84, 4, Flags(r)] + ToBigEndian16(r.keepAlive) + strings);
  }

  lemma WholePacketReads(header: byte, body: Bytes)
    requires |body| <= MAX_PACKET_BYTES
    ensures ReadAs(Packet(header, body)) == Some(Ack(header, body))
  {
    hide ReadPacket;
    PacketRoundTrip(header, body, []);
    assert Packet(header, body) + [] == Packet(header, body);
  }

  /** The release of a QoS 2 publish and the farewell, as a broker reads them (sections 3.6 and 3.14). */
  lemma FixedPackets()
    ensures ReadAs(PUBREL_ONE) == Some(Ack(0x62, [0, 1])) && ReadAs(DISCONNECT) == Some(Ack(0xe0, []))
  {
    assert Packet(0x62, [0, 1]) == PUBREL_ONE && Packet(0xe0, []) == DISCONNECT;
    WholePacketReads(0x62, [0, 1]);
    WholePacketReads(0xe0, []);
  }

  /** Section 3.8: the SUBSCRIBE packet carries packet identifier 1, the topic and the wanted QoS. */
  lemma SubscribeCarries(topic: Bytes, qos: byte)
    requires SubscribePacket(topic, qos).Ok?
    ensures var p := ReadAs(SubscribePacket(topic, qos).value);
            && p.Some? && p.value.header == 0x82 && |p.value.body| >= 2 && p.value.body[..2] == [0, 1]
            && TakeString(p.value.body[2..]) == Some((topic, [qos]))
  {
    StringTaken(topic, [qos]);
    var body := [0, 1] + PushUtf8(topic).value + [qos];
    assert SubscribePacket(topic, qos).value == Packet(0x82, body);
    assert |body| <= MAX_PACKET_BYTES;
    hide SubscribePacket, ReadAs, PushUtf8;
    WholePacketReads(0x82, body);
    assert body[2..] == PushUtf8(topic).value + [qos];
  }
}
