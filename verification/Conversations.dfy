/** Whole conversations on a connection: any sequence of calls, reading to the end, and publishing from one
    connection to another. */
module Conversations {
  import opened Basics
  import opened Bytes
  import opened Framing
  import opened PropertyLists
  import opened Frames
  import opened Queues
  import opened Writers
  import opened Delivery
  import opened Images
  import opened Connections

  datatype Command =
    | AwaitFrame
    | Request(channel: u16, call: Method, replies: seq<u32>)
    | Announce(channel: u16, exchange: seq<byte>, key: seq<byte>, mandatory: bool, immediate: bool,
               properties: Option<Properties>, body: seq<byte>)
    | ReleaseBuffers

  // The structs that a caller hands over are of the type that the call expects.
  predicate Proper(c: Command) {
    match c
    case Request(_, call, _) => WellTyped(call)
    case Announce(_, _, _, _, _, p, body) =>
      |body| <= MAX_LENGTH && (p.Some? ==> WellTypedProperties(BASIC_CLASS, p.value))
    case _ => true
  }

  // What the command does to the frames that are still to be delivered.
  ghost function OperationOf(max: nat, c: Command): seq<Operation> {
    match c
    case AwaitFrame => [Wait]
    case Request(channel, call, replies) => if Fits(MethodFrame(channel, call), max) then [Call(channel, replies)] else []
    case _ => []
  }

  ghost function OperationsOf(max: nat, cs: seq<Command>): seq<Operation> {
    if cs == [] then [] else OperationsOf(max, cs[..|cs| - 1]) + OperationOf(max, cs[|cs| - 1])
  }

  function Came(f: Option<Frame>): seq<Frame> {
    if f.None? then [] else [f.value]
  }

  // One command; the octets of the frames that were queued before stay, except those of the frame that is returned.
  method Do(c: Connection, command: Command) returns (out: Option<Frame>, ghost added: seq<seq<byte>>, ghost gone: nat)
    requires c.Valid() && Proper(command)
    modifies c, c.sockBuffer, c.outbound, c.framePool, c.framePool.blocks, c.queue, c.queue.links
    ensures forall b :: b in c.framePool.blocks ==> b in old(c.framePool.blocks) || fresh(b)
    ensures forall i :: 0 <= i < |c.queue.links| ==> c.queue.links[i] in old(c.queue.links) || fresh(c.queue.links[i])
    ensures c.Valid()
    ensures (c.Outline(), Came(out)) == RunAll(c.frameMax, old(c.Outline()), OperationOf(c.frameMax, command))
    ensures gone <= |old(c.images) + added| && c.images == (old(c.images) + added)[gone..]
  {
    hide Step, RunAll, Scan, NextFrame, Await, Fits, StreamOf, PublishFrames, PublishMethod, WellTyped, WellTypedProperties,
      Connection.Valid, Connection.Outline, Connection.SocketReady, Connection.Queued, Connection.Pending,
      Connection.Upcoming, Connection.Awaiting;
    c.ReadyIs();
    out, added, gone := None, [], 0;
    ghost var before, images := c.Outline(), c.images;
    RunOne(c.frameMax, before, Wait);
    match command {
      case AwaitFrame =>
        out, gone := DoAwait(c);
      case Request(channel, call, replies) =>
        out, added := DoRequest(c, channel, call, replies);
      case Announce(channel, exchange, key, mandatory, immediate, p, body) =>
        var _ := c.Publish(channel, exchange, key, mandatory, immediate, p, body);
      case ReleaseBuffers =>
        var _ := c.MaybeReleaseBuffers();
    }
  }

  // A wait takes the octets of the oldest queued frame with it.
  method DoAwait(c: Connection) returns (out: Option<Frame>, ghost gone: nat)
    requires c.Valid()
    modifies c, c.sockBuffer, c.framePool, c.framePool.blocks, c.queue
    ensures forall b :: b in c.framePool.blocks ==> b in old(c.framePool.blocks) || fresh(b)
    ensures forall i :: 0 <= i < |c.queue.links| ==> c.queue.links[i] in old(c.queue.links)
    ensures c.Valid()
    ensures (c.Outline(), Came(out)) == RunAll(c.frameMax, old(c.Outline()), [Wait])
    ensures gone <= |old(c.images)| && c.images == old(c.images)[gone..]
  {
    hide Step, RunAll, Scan, NextFrame, Connection.Valid, Connection.Outline, Connection.SocketReady, Connection.Upcoming,
      Connection.Pending, FrameQueue.Contents;
    c.ReadyIs();
    c.QueueIs();
    RunOne(c.frameMax, c.Outline(), Wait);
    gone := if c.queue.Contents() == [] then 0 else 1;
    var r, image := c.SimpleWaitFrame();
    out := FrameOf(r);
  }

  // A call leaves the octets of all the frames that are queued.
  method DoRequest(c: Connection, channel: u16, call: Method, replies: seq<u32>)
    returns (out: Option<Frame>, ghost added: seq<seq<byte>>)
    requires c.Valid() && WellTyped(call)
    modifies c, c.sockBuffer, c.outbound, c.framePool, c.framePool.blocks, c.queue, c.queue.links
    ensures forall b :: b in c.framePool.blocks ==> b in old(c.framePool.blocks) || fresh(b)
    ensures forall i :: 0 <= i < |c.queue.links| ==> c.queue.links[i] in old(c.queue.links) || fresh(c.queue.links[i])
    ensures c.Valid()
    ensures (c.Outline(), Came(out)) == RunAll(c.frameMax, old(c.Outline()), OperationOf(c.frameMax, Request(channel, call, replies)))
    ensures c.images == old(c.images) + added
  {
    hide Step, RunAll, Scan, NextFrame, Await, Fits, WellTyped, Connection.Valid, Connection.Outline, Connection.SocketReady,
      Connection.Queued, Connection.Pending, Connection.Upcoming, Connection.Awaiting;
    c.ReadyIs();
    ghost var images := c.images;
    RunOne(c.frameMax, c.Outline(), Call(channel, replies));
    var r := c.SimpleRpc(channel, call, replies);
    out, added := AnswerOf(r), c.images[|images|..];
  }

  lemma Commands(max: nat, cs: seq<Command>, i: nat)
    requires i < |cs|
    ensures OperationsOf(max, cs[..i + 1]) == OperationsOf(max, cs[..i]) + OperationOf(max, cs[i])
  {
    assert cs[..i + 1][..i] == cs[..i];
  }

  lemma Slid<T>(start: seq<T>, added: seq<T>, gone: nat, more: seq<T>, fewer: nat)
    requires gone <= |start + added| && fewer <= |(start + added)[gone..] + more|
    ensures gone + fewer <= |start + (added + more)|
    ensures ((start + added)[gone..] + more)[fewer..] == (start + (added + more))[gone + fewer..]
  {
    assert start + (added + more) == start + added + more;
  }

  /** Any sequence of commands delivers what the specification delivers for it, and every frame that is queued at the
      end still has its octets. */
  method Play(c: Connection, cs: seq<Command>) returns (outs: seq<Frame>, ghost added: seq<seq<byte>>, ghost gone: nat)
    requires c.Valid() && forall i :: 0 <= i < |cs| ==> Proper(cs[i])
    modifies c, c.sockBuffer, c.outbound, c.framePool, c.framePool.blocks, c.queue, c.queue.links
    ensures forall b :: b in c.framePool.blocks ==> b in old(c.framePool.blocks) || fresh(b)
    ensures forall i :: 0 <= i < |c.queue.links| ==> c.queue.links[i] in old(c.queue.links) || fresh(c.queue.links[i])
    ensures c.Valid()
    ensures (c.Outline(), outs) == RunAll(c.frameMax, old(c.Outline()), OperationsOf(c.frameMax, cs))
    ensures gone <= |old(c.images) + added| && c.images == (old(c.images) + added)[gone..]
    ensures forall k :: 0 <= k < |c.queue.Contents()| ==> Stands(c, k)
  {
    hide *;
    c.ReadyIs();
    ghost var start, images := c.Outline(), c.images;
    outs, added, gone := [], [], 0;
    Nothing(c.frameMax, start);
    assert cs[..0] == [] && images + [] == images;
    for i := 0 to |cs|
      invariant c.Valid() && c.SocketReady()
      invariant forall b :: b in c.framePool.blocks ==> b in old(c.framePool.blocks) || fresh(b)
      invariant forall i :: 0 <= i < |c.queue.links| ==> c.queue.links[i] in old(c.queue.links) || fresh(c.queue.links[i])
      invariant (c.Outline(), outs) == RunAll(c.frameMax, start, OperationsOf(c.frameMax, cs[..i]))
      invariant gone <= |images + added| && c.images == (images + added)[gone..]
    {
      RunsOn(c.frameMax, start, OperationsOf(c.frameMax, cs[..i]), OperationOf(c.frameMax, cs[i]));
      Commands(c.frameMax, cs, i);
      var out;
      ghost var more, fewer;
      out, more, fewer := Do(c, cs[i]);
      Slid(images, added, gone, more, fewer);
      outs, added, gone := outs + Came(out), added + more, gone + fewer;
      c.ReadyIs();
    }
    assert cs[..|cs|] == cs;
    forall k | 0 <= k < |c.queue.Contents()| ensures Stands(c, k) {
      AllStand(c, k);
    }
  }

  // A queued frame, and the octets that it was decoded from, unchanged where its pointers lead.
  ghost predicate Stands(c: Connection, k: nat)
    reads c, c.queue, c.queue.links
    reads if k < |c.queue.Contents()| then {c.queue.Contents()[k].block.block} else {}
  {
    k < |c.queue.Contents()| && k < |c.images| &&
    var d, image := c.queue.Contents()[k], c.images[k];
    && d.block.start + |image| <= d.block.block.Length && Octets(d.block, |image|) == image
    && Scan(c.frameMax, image) == Item(|image|, Some(d.frame))
  }

  lemma AllStand(c: Connection, k: nat)
    requires c.Valid() && k < |c.queue.Contents()|
    ensures Stands(c, k)
  {
    hide Scan, Connection.Valid;
    c.QueueStands(k);
  }

  lemma Nothing(max: nat, s: Session)
    ensures RunAll(max, s, OperationsOf(max, [])) == (s, [])
  {
  }

  /// Reading to the end

  // What the wait comes to that finds no frame any more.
  ghost function EndOf(c: Connection): Waited
    reads c, c.sockBuffer, if c.inbound.Some? then {c.inbound.value.block} else {}
    requires c.SocketReady()
  {
    if c.broken.Some? then Failure(c.broken.value)
    else
      var error := Parse(c.frameMax, c.Pending()).error;
      if error.Some? then Failure(error.value) else HungUp(c.lastRead)
  }

  // The next outstanding frame, or the end.
  method ReadNext(c: Connection) returns (r: Waited)
    requires c.Valid()
    modifies c, c.sockBuffer, c.framePool, c.framePool.blocks, c.queue
    ensures forall b :: b in c.framePool.blocks ==> b in old(c.framePool.blocks) || fresh(b)
    ensures forall i :: 0 <= i < |c.queue.links| ==> c.queue.links[i] in old(c.queue.links)
    ensures c.Valid()
    ensures var all, now := old(Outstanding(c.frameMax, c.Outline())), Outstanding(c.frameMax, c.Outline());
            if r.Arrived? then all != [] && r.d.frame == all[0] && now == all[1..] && EndOf(c) == old(EndOf(c))
            else all == now == [] && r == old(EndOf(c))
  {
    hide Step, Parse, Scan, NextFrame, Outstanding, Connection.Valid, Connection.SocketReady, Connection.Pending,
      FrameQueue.Contents;
    c.ReadyIs();
    c.QueueIs();
    WaitTakesFirst(c.frameMax, c.Outline());
    NextIsFirst(c.frameMax, c.Pending());
    ghost var image;
    r, image := c.SimpleWaitFrame();
  }

  lemma Divided(fs: seq<Frame>, rest: seq<Frame>)
    ensures if rest == [] then fs + rest == fs else fs + rest == fs + [rest[0]] + rest[1..]
  {
  }

  /** amqp_simple_wait_frame again and again: all that is outstanding arrives, in order, and then comes the end. */
  method ReadAll(c: Connection) returns (fs: seq<Frame>, last: Waited)
    requires c.Valid()
    modifies c, c.sockBuffer, c.framePool, c.framePool.blocks, c.queue
    ensures forall b :: b in c.framePool.blocks ==> b in old(c.framePool.blocks) || fresh(b)
    ensures forall i :: 0 <= i < |c.queue.links| ==> c.queue.links[i] in old(c.queue.links)
    ensures c.Valid()
    ensures fs == old(Outstanding(c.frameMax, c.Outline())) && Outstanding(c.frameMax, c.Outline()) == []
    ensures last == old(EndOf(c)) && !last.Arrived?
  {
    hide *;
    c.ReadyIs();
    ghost var all, end := Outstanding(c.frameMax, c.Outline()), EndOf(c);
    fs := [];
    assert [] + all == all;
    while true
      invariant c.Valid() && c.SocketReady()
      invariant forall b :: b in c.framePool.blocks ==> b in old(c.framePool.blocks) || fresh(b)
      invariant forall i :: 0 <= i < |c.queue.links| ==> c.queue.links[i] in old(c.queue.links)
      invariant all == fs + Outstanding(c.frameMax, c.Outline()) && EndOf(c) == end
      decreases |Outstanding(c.frameMax, c.Outline())|
    {
      Divided(fs, Outstanding(c.frameMax, c.Outline()));
      last := ReadNext(c);
      c.ReadyIs();
      if !last.Arrived? { return; }
      fs := fs + [last.d.frame];
    }
  }

  // The octets of one message.
  method Send(c: Connection, channel: u16, exchange: seq<byte>, key: seq<byte>, mandatory: bool, immediate: bool,
              properties: Option<Properties>, body: seq<byte>)
    returns (r: Result<()>, octets: seq<byte>)
    requires c.Valid() && |body| <= MAX_LENGTH
    requires properties.Some? ==> WellTypedProperties(BASIC_CLASS, properties.value)
    modifies c, c.outbound
    ensures c.Valid() && c.Outline() == old(c.Outline()) && c.sent == old(c.sent) + octets
    ensures var max, m, p := c.frameMax, PublishMethod(exchange, key, mandatory, immediate), properties.GetOr(Properties(0, []));
            && (r.Ok? <==> Fits(MethodFrame(channel, m), max) && Fits(HeaderFrame(channel, BASIC_CLASS, |body|, p), max))
            && (r.Ok? ==> max > HEADER_SIZE + FOOTER_SIZE && octets == StreamOf(PublishFrames(channel, m, p, body, max)))
  {
    hide *;
    c.ReadyIs();
    ghost var sent := c.sent;
    var before := |c.sent|;
    r := c.Publish(channel, exchange, key, mandatory, immediate, properties, body);
    octets := c.sent[before..];
    assert sent <= c.sent;
  }

  // What a new connection has to deliver.
  lemma AllToCome(c: Connection)
    requires c.Valid() && c.queue.Contents() == [] && c.broken == None
    ensures c.SocketReady() && c.Outline() == Session([], c.Pending())
    ensures var p := Parse(c.frameMax, c.Pending());
            Outstanding(c.frameMax, c.Outline()) == p.frames && (EndOf(c) == HungUp(c.lastRead) <==> p.error == None)
  {
    hide Parse, Scan, Connection.Pending, FrameQueue.Contents, Connection.Valid;
    c.ReadyIs();
  }

  // A new connection that gets these octets and is read to the end.
  method Receive(octets: seq<byte>, max: nat, sockSize: nat, cut: seq<byte> -> seq<seq<byte>>, status: int)
    returns (got: seq<Frame>, last: Waited)
    requires 8 <= max <= MAX_LENGTH && sockSize > 0
    requires Flatten(cut(octets)) == octets && forall i :: 0 <= i < |cut(octets)| ==> 0 < |cut(octets)[i]| <= sockSize
    ensures var p := Parse(max, octets); got == p.frames && (last == HungUp(status) <==> p.error == None)
  {
    hide *;
    var receiver := new Connection(max, sockSize, cut(octets), status);
    AllToCome(receiver);
    got, last := ReadAll(receiver);
  }

  lemma AllArrives(channel: u16, exchange: seq<byte>, key: seq<byte>, mandatory: bool, immediate: bool,
                   p: Properties, body: seq<byte>, max: nat, peerMax: nat)
    requires HEADER_SIZE + FOOTER_SIZE < max <= peerMax && |body| <= MAX_LENGTH
    requires Fits(MethodFrame(channel, PublishMethod(exchange, key, mandatory, immediate)), max)
    requires Fits(HeaderFrame(channel, BASIC_CLASS, |body|, p), max)
    ensures var fs := PublishFrames(channel, PublishMethod(exchange, key, mandatory, immediate), p, body, max);
            var q := Parse(peerMax, StreamOf(fs));
            q.frames == fs && q.error == None <==>
            |exchange| < 0x100 && |key| < 0x100 && EncodableProperties(BASIC_CLASS, p) && Kept(p.flags) == p.flags
  {
    hide *;
    var m := PublishMethod(exchange, key, mandatory, immediate);
    var fs := PublishFrames(channel, m, p, body, max);
    PublishEncodable(exchange, key, mandatory, immediate);
    PublishShape(channel, m, p, body, max, peerMax);
    assert StreamOf(fs) + [] == StreamOf(fs) && fs + [] == fs;
    if AllEncodable(fs) {
      StreamBack(peerMax, fs, []);
    }
    StreamExactly(peerMax, fs, []);
  }

  // The header frame has the size of the property list and 20 octets; without properties it has 22.
  ghost predicate RoomFor(properties: Option<Properties>, max: nat)
    requires properties.Some? ==> WellTypedProperties(60, properties.value)
  {
    if properties.None? then 22 <= max
    else PropertyLayout(60, properties.value.flags).Some? && AllWritable(properties.value.fields) &&
         |EncProperties(60, properties.value)| + 20 <= max
  }

  lemma HowMuchRoom(c: Connection, channel: u16, exchange: seq<byte>, key: seq<byte>, mandatory: bool, immediate: bool,
                    properties: Option<Properties>, size: u64)
    requires c.Valid() && (properties.Some? ==> WellTypedProperties(BASIC_CLASS, properties.value))
    ensures var first := MethodFrame(channel, PublishMethod(exchange, key, mandatory, immediate));
            var second := HeaderFrame(channel, BASIC_CLASS, size, properties.GetOr(Properties(0, [])));
            Fits(first, c.frameMax) && Fits(second, c.frameMax) <==>
            |exchange| + |key| + 17 <= c.frameMax && RoomFor(properties, c.frameMax)
  {
    hide Fits, PublishMethod, EncProperties, WellTypedProperties, PropertyLayout;
    SizeIs(c);
    PublishFits(channel, exchange, key, mandatory, immediate, c.frameMax);
    NoPropertiesImage();
    HeaderFits(channel, size, properties.GetOr(Properties(0, [])), c.frameMax);
  }

  lemma SizeIs(c: Connection)
    requires c.Valid()
    ensures 8 <= c.frameMax <= MAX_LENGTH
  {
  }

  /** amqp_basic_publish on one connection, and the other end, which gets the octets in any pieces and reads them all:
      the message arrives as it is exactly when nothing is lost in the encoding. */
  method PublishAndRead(sender: Connection, channel: u16, exchange: seq<byte>, key: seq<byte>, mandatory: bool, immediate: bool,
                        properties: Option<Properties>, body: seq<byte>,
                        peerMax: nat, sockSize: nat, cut: seq<byte> -> seq<seq<byte>>, status: int)
    returns (r: Result<()>, got: seq<Frame>, last: Waited)
    requires sender.Valid() && |body| <= MAX_LENGTH
    requires properties.Some? ==> WellTypedProperties(BASIC_CLASS, properties.value)
    requires sender.frameMax <= peerMax <= MAX_LENGTH && sockSize > 0
    requires forall s :: Flatten(cut(s)) == s && forall i :: 0 <= i < |cut(s)| ==> 0 < |cut(s)[i]| <= sockSize
    modifies sender, sender.outbound
    ensures sender.Valid() && sender.Outline() == old(sender.Outline())
    ensures var max, m, p := sender.frameMax, PublishMethod(exchange, key, mandatory, immediate), properties.GetOr(Properties(0, []));
            && (r.Ok? <==> Fits(MethodFrame(channel, m), max) && Fits(HeaderFrame(channel, BASIC_CLASS, |body|, p), max))
            && (r.Ok? ==>
                  max > HEADER_SIZE + FOOTER_SIZE &&
                  var fs := PublishFrames(channel, m, p, body, max);
                  && Carries(fs, channel, exchange, key, mandatory, immediate, p, body)
                  && (got == fs && last == HungUp(status) <==>
                      |exchange| < 0x100 && |key| < 0x100 && EncodableProperties(BASIC_CLASS, p) && Kept(p.flags) == p.flags))
    ensures r.Ok? <==> |exchange| + |key| + 17 <= sender.frameMax && RoomFor(properties, sender.frameMax)
  {
    hide Parse, Fits, PublishFrames, PublishMethod, StreamOf, EncodableProperties, Kept, Flatten, WellTypedProperties, Carries,
      Connection.Valid, Connection.Queued;
    HowMuchRoom(sender, channel, exchange, key, mandatory, immediate, properties, |body|);
    var octets;
    r, octets := Send(sender, channel, exchange, key, mandatory, immediate, properties, body);
    got, last := [], HungUp(status);
    if r.Ok? {
      sender.ReadyIs();
      PublishCarries(channel, exchange, key, mandatory, immediate, properties.GetOr(Properties(0, [])), body, sender.frameMax);
      AllArrives(channel, exchange, key, mandatory, immediate, properties.GetOr(Properties(0, [])), body, sender.frameMax, peerMax);
      label Sent:
      got, last := Receive(octets, peerMax, sockSize, cut, status);
      sender.ReadyIs();
      assert sender.inbound == old@Sent(sender.inbound);
      assert sender.Pending() == old@Sent(sender.Pending());
    }
  }
}
