/** What waiting, calling and publishing do to the stream of frames, as functions on values. */
module Delivery {
  import opened Basics
  import opened Bytes
  import opened Fields
  import opened Framing
  import opened PropertyLists
  import opened Frames
  import opened Writers

  /// Many frames on one stream

  // The images of the frames, one behind the other.
  function StreamOf(fs: seq<Frame>): seq<byte> {
    if fs == [] then []
    else (if Sendable(fs[0]) && |Payload(fs[0])| <= MAX_LENGTH then FrameBytes(fs[0]) else []) + StreamOf(fs[1..])
  }

  predicate AllWithin(fs: seq<Frame>, max: nat) {
    forall i :: 0 <= i < |fs| ==>
      Sendable(fs[i]) && |Payload(fs[i])| <= MAX_LENGTH && |FrameBytes(fs[i])| <= max
  }

  ghost predicate AllEncodable(fs: seq<Frame>) {
    forall i :: 0 <= i < |fs| ==> EncodableFrame(fs[i])
  }

  lemma {:induction false} StreamBack(max: nat, fs: seq<Frame>, rest: seq<byte>)
    requires AllWithin(fs, max) && AllEncodable(fs)
    ensures var q := Parse(max, rest);
            Parse(max, StreamOf(fs) + rest) == q.(frames := fs + q.frames)
  {
    hide EncodableFrame, FrameBytes, Scan, Payload, Sendable;
    if fs == [] {
      assert [] + rest == rest;
    } else {
      var b, later := FrameBytes(fs[0]), StreamOf(fs[1..]) + rest;
      assert StreamOf(fs) + rest == b + later;
      assert (b + later)[|b|..] == later;
      StreamBack(max, fs[1..], rest);
      WriteReadExactly(max, fs[0], later);
      assert [fs[0]] + (fs[1..] + Parse(max, rest).frames) == fs + Parse(max, rest).frames;
    }
  }

  lemma {:induction false} StreamLoss(max: nat, fs: seq<Frame>, rest: seq<byte>)
    requires AllWithin(fs, max) && fs <= Parse(max, StreamOf(fs) + rest).frames
    ensures AllEncodable(fs)
  {
    hide EncodableFrame, FrameBytes, Scan, Payload, Sendable;
    if fs != [] {
      var b, later := FrameBytes(fs[0]), StreamOf(fs[1..]) + rest;
      assert StreamOf(fs) + rest == b + later;
      assert (b + later)[|b|..] == later;
      ReadSize(max, fs[0], later);
      WriteReadExactly(max, fs[0], later);
      assert Parse(max, b + later).frames[1..] == Parse(max, later).frames;
      StreamLoss(max, fs[1..], rest);
    }
  }

  // A stream of frames that fit the receiver is read back as these frames if, and only if, each is encodable.
  lemma StreamExactly(max: nat, fs: seq<Frame>, rest: seq<byte>)
    requires AllWithin(fs, max)
    ensures fs <= Parse(max, StreamOf(fs) + rest).frames <==> AllEncodable(fs)
  {
    if AllEncodable(fs) {
      StreamBack(max, fs, rest);
    } else if fs <= Parse(max, StreamOf(fs) + rest).frames {
      StreamLoss(max, fs, rest);
    }
  }

  /// Publishing (amqp_basic_publish)

  function PublishMethod(exchange: seq<byte>, key: seq<byte>, mandatory: bool, immediate: bool): Method {
    Method(BASIC_PUBLISH, [Num(0), Text(exchange), Text(key), Flags([mandatory, immediate])])
  }

  // Fragments of the full size, and what remains in the last one.
  function BodyFrames(channel: u16, body: seq<byte>, usable: nat): seq<Frame>
    requires usable > 0
  {
    if body == [] then []
    else if |body| >= usable then [BodyFrame(channel, body[..usable])] + BodyFrames(channel, body[usable..], usable)
    else [BodyFrame(channel, body)]
  }

  function PublishFrames(channel: u16, m: Method, p: Properties, body: seq<byte>, max: nat): seq<Frame>
    requires max > HEADER_SIZE + FOOTER_SIZE && |body| <= MAX_LENGTH
  {
    [MethodFrame(channel, m), HeaderFrame(channel, BASIC_CLASS, |body|, p)] +
    BodyFrames(channel, body, max - (HEADER_SIZE + FOOTER_SIZE))
  }

  // The first fragment and what is left for the others.
  lemma NextFragment(channel: u16, body: seq<byte>, max: nat)
    requires max > HEADER_SIZE + FOOTER_SIZE && 0 < |body| <= MAX_LENGTH
    ensures var usable := max - (HEADER_SIZE + FOOTER_SIZE);
            var k := if |body| >= usable then usable else |body|;
            var f := BodyFrame(channel, body[..k]);
            Fits(f, max) && StreamOf(BodyFrames(channel, body, usable)) ==
              Emitted(f, max) + StreamOf(BodyFrames(channel, body[k..], usable))
  {
    hide FrameBytes;
    var usable := max - (HEADER_SIZE + FOOTER_SIZE);
    var k := if |body| >= usable then usable else |body|;
    var f, later := BodyFrame(channel, body[..k]), BodyFrames(channel, body[k..], usable);
    assert body[..|body|] == body;
    assert BodyFrames(channel, body, usable) == [f] + later;
    assert ([f] + later)[1..] == later;
  }

  lemma FitsSize(f: Frame, max: nat)
    requires Fits(f, max) && f.HeaderFrame?
    ensures max > HEADER_SIZE + FOOTER_SIZE
  {
  }

  lemma PublishStream(channel: u16, m: Method, p: Properties, body: seq<byte>, max: nat)
    requires |body| <= MAX_LENGTH
    requires Fits(MethodFrame(channel, m), max) && Fits(HeaderFrame(channel, BASIC_CLASS, |body|, p), max)
    ensures max > HEADER_SIZE + FOOTER_SIZE
    ensures StreamOf(PublishFrames(channel, m, p, body, max)) ==
              Emitted(MethodFrame(channel, m), max) + Emitted(HeaderFrame(channel, BASIC_CLASS, |body|, p), max) +
              StreamOf(BodyFrames(channel, body, max - (HEADER_SIZE + FOOTER_SIZE)))
  {
    hide FrameBytes, Payload, Sendable, BodyFrames;
    FitsSize(HeaderFrame(channel, BASIC_CLASS, |body|, p), max);
    var fs, later := PublishFrames(channel, m, p, body, max), BodyFrames(channel, body, max - (HEADER_SIZE + FOOTER_SIZE));
    assert fs[1..][1..] == later;
  }

  // The fragments, joined.
  function BodyOf(fs: seq<Frame>): seq<byte> {
    if fs == [] then []
    else (if fs[0].BodyFrame? then fs[0].fragment else []) + BodyOf(fs[1..])
  }

  predicate AllFragments(fs: seq<Frame>, channel: u16) {
    forall i :: 0 <= i < |fs| ==> fs[i].BodyFrame? && fs[i].channel == channel && fs[i].fragment != []
  }

  // So many pieces of this size hold so much, and one less would not.
  predicate LeastNumber(n: nat, size: nat, length: nat) {
    length <= n * size < length + size
  }

  // The body in order and whole, in the least number of fragments, none of them empty or too large.
  lemma {:induction false} Fragmentation(channel: u16, body: seq<byte>, max: nat)
    requires max > HEADER_SIZE + FOOTER_SIZE && |body| <= MAX_LENGTH
    ensures var usable := max - (HEADER_SIZE + FOOTER_SIZE);
            var fs := BodyFrames(channel, body, usable);
            && BodyOf(fs) == body
            && LeastNumber(|fs|, usable, |body|)
            && AllFragments(fs, channel)
            && AllWithin(fs, max) && AllEncodable(fs)
  {
    hide FrameBytes, Payload, LeastNumber, AllWithin, AllEncodable, AllFragments, BodyOf;
    var usable := max - (HEADER_SIZE + FOOTER_SIZE);
    if body == [] {
      NoFrames(max);
      OneMore(0, usable, 0);
    } else if |body| >= usable {
      var first, fs := BodyFrame(channel, body[..usable]), BodyFrames(channel, body[usable..], usable);
      Fragmentation(channel, body[usable..], max);
      OneFragment(first, fs, max);
      OneMore(|fs|, usable, |body| - usable);
      FirstOf(first, fs);
      assert body == body[..usable] + body[usable..];
    } else {
      NoFrames(max);
      var first := BodyFrame(channel, body);
      OneFragment(first, [], max);
      FirstOf(first, []);
      OnePiece(usable, |body|);
      assert body + [] == body && [first] + [] == [first];
    }
  }

  lemma FirstOf(f: Frame, fs: seq<Frame>)
    requires f.BodyFrame?
    ensures BodyOf([f] + fs) == f.fragment + BodyOf(fs)
  {
    assert ([f] + fs)[1..] == fs;
  }

  lemma OneMore(n: nat, size: nat, length: nat)
    requires size > 0
    ensures LeastNumber(n, size, length) ==> LeastNumber(n + 1, size, length + size)
    ensures LeastNumber(0, size, 0)
  {
    assert (n + 1) * size == n * size + size;
  }

  lemma OnePiece(size: nat, length: nat)
    requires 0 < length < size
    ensures LeastNumber(1, size, length)
  {
  }

  lemma NoFrames(max: nat)
    ensures AllWithin([], max) && AllEncodable([]) && BodyOf([]) == [] && forall c :: AllFragments([], c)
  {
  }

  lemma OneFragment(f: Frame, fs: seq<Frame>, max: nat)
    requires f.BodyFrame? && 0 < |f.fragment| && |f.fragment| + HEADER_SIZE + FOOTER_SIZE <= max && |f.fragment| <= MAX_LENGTH
    requires AllWithin(fs, max) && AllEncodable(fs) && AllFragments(fs, f.channel)
    ensures AllWithin([f] + fs, max) && AllEncodable([f] + fs) && AllFragments([f] + fs, f.channel)
  {
    assert Sendable(f) && EncodableFrame(f) && |Payload(f)| <= MAX_LENGTH && |FrameBytes(f)| <= max;
  }

  lemma PublishEncodable(exchange: seq<byte>, key: seq<byte>, mandatory: bool, immediate: bool)
    ensures var m := PublishMethod(exchange, key, mandatory, immediate);
            MethodLayout(m.id).Some? && WellTyped(m) && AllWritable(m.args) &&
            (EncodableMethod(m) <==> |exchange| < 0x100 && |key| < 0x100)
  {
    var m := PublishMethod(exchange, key, mandatory, immediate);
    assert MethodLayout(m.id) == Some([Short, ShortStr, ShortStr, Bits(2)]);
    if EncodableMethod(m) {
      assert EncodableField(m.args[1], ShortStr) && EncodableField(m.args[2], ShortStr);
    }
  }

  // Frames that say what the caller of amqp_basic_publish said: a basic.publish method with exchange, routing key,
  // mandatory and immediate in their own members, the header of a body of this size, and the body.
  ghost predicate Carries(fs: seq<Frame>, channel: u16, exchange: seq<byte>, key: seq<byte>, mandatory: bool, immediate: bool,
                          p: Properties, body: seq<byte>) {
    && |fs| >= 2 && |body| < 0x1_0000_0000_0000_0000
    && fs[0] == MethodFrame(channel, Method(0x003C_0028, [Num(0), Text(exchange), Text(key), Flags([mandatory, immediate])]))
    && fs[1] == HeaderFrame(channel, 60, |body|, p)
    && AllFragments(fs[2..], channel) && BodyOf(fs[2..]) == body
  }

  lemma PublishCarries(channel: u16, exchange: seq<byte>, key: seq<byte>, mandatory: bool, immediate: bool,
                       p: Properties, body: seq<byte>, max: nat)
    requires HEADER_SIZE + FOOTER_SIZE < max && |body| <= MAX_LENGTH
    ensures Carries(PublishFrames(channel, PublishMethod(exchange, key, mandatory, immediate), p, body, max),
                    channel, exchange, key, mandatory, immediate, p, body)
  {
    hide BodyFrames, AllFragments, BodyOf, AllWithin, AllEncodable;
    var m := PublishMethod(exchange, key, mandatory, immediate);
    var fs := PublishFrames(channel, m, p, body, max);
    Fragmentation(channel, body, max);
    assert fs[2..] == BodyFrames(channel, body, max - (HEADER_SIZE + FOOTER_SIZE));
  }

  // Publish, cut anywhere, read again: the receiver gets the method, the header and the fragments, and
  // nothing is changed in them, exactly when every short string fits its length octet, every table its
  // lengths, and the flags are flags of their own.
  lemma EndToEnd(channel: u16, exchange: seq<byte>, key: seq<byte>, mandatory: bool, immediate: bool,
                 p: Properties, body: seq<byte>, max: nat, peerMax: nat, chunks: seq<seq<byte>>)
    requires HEADER_SIZE + FOOTER_SIZE < max <= peerMax && |body| <= MAX_LENGTH
    requires Fits(MethodFrame(channel, PublishMethod(exchange, key, mandatory, immediate)), max)
    requires Fits(HeaderFrame(channel, BASIC_CLASS, |body|, p), max)
    requires var fs := PublishFrames(channel, PublishMethod(exchange, key, mandatory, immediate), p, body, max);
             Flatten(chunks) == StreamOf(fs)
    ensures var fs := PublishFrames(channel, PublishMethod(exchange, key, mandatory, immediate), p, body, max);
            && Carries(fs, channel, exchange, key, mandatory, immediate, p, body)
            && (Run(peerMax, [], chunks) == Parsed(fs, [], None) <==>
                |exchange| < 0x100 && |key| < 0x100 && EncodableProperties(BASIC_CLASS, p) && Kept(p.flags) == p.flags)
  {
    hide Carries, Scan, Run, EncodableFrame, EncodableProperties, Kept, PublishMethod, Fits, StreamOf, BodyFrames, AllWithin;
    var m := PublishMethod(exchange, key, mandatory, immediate);
    var fs := PublishFrames(channel, m, p, body, max);
    PublishEncodable(exchange, key, mandatory, immediate);
    PublishShape(channel, m, p, body, max, peerMax);
    PublishCarries(channel, exchange, key, mandatory, immediate, p, body, max);
    ChunksDoNotMatter(peerMax, [], chunks);
    assert [] + Flatten(chunks) == StreamOf(fs) + [];
    if AllEncodable(fs) {
      StreamBack(peerMax, fs, []);
      assert fs + [] == fs;
    }
    StreamExactly(peerMax, fs, []);
  }

  lemma PublishShape(channel: u16, m: Method, p: Properties, body: seq<byte>, max: nat, peerMax: nat)
    requires HEADER_SIZE + FOOTER_SIZE < max <= peerMax && |body| <= MAX_LENGTH
    requires Fits(MethodFrame(channel, m), max) && Fits(HeaderFrame(channel, BASIC_CLASS, |body|, p), max)
    ensures var fs := PublishFrames(channel, m, p, body, max);
            && AllWithin(fs, peerMax)
            && (AllEncodable(fs) <==>
                EncodableMethod(m) && EncodableProperties(BASIC_CLASS, p) && Kept(p.flags) == p.flags)
    ensures Scan(peerMax, []).Incomplete? && Parse(peerMax, []) == Parsed([], [], None)
  {
    hide Payload, FrameBytes, EncodableMethod, EncodableProperties, Kept, BodyFrames;
    var fs, bodies := PublishFrames(channel, m, p, body, max), BodyFrames(channel, body, max - 8);
    Fragmentation(channel, body, max);
    assert fs[0] == MethodFrame(channel, m) && fs[1] == HeaderFrame(channel, BASIC_CLASS, |body|, p);
    assert forall i :: 2 <= i < |fs| ==> fs[i] == bodies[i - 2];
    if AllEncodable(fs) {
      assert EncodableFrame(fs[0]) && EncodableFrame(fs[1]);
    }
  }

  /// Calling (amqp_simple_rpc)

  // The number stands in the list, which ends at its first zero.
  ghost predicate IdInReplyList(id: u32, list: seq<u32>) {
    exists i :: 0 <= i < |list| && list[i] == id && forall j :: 0 <= j <= i ==> list[j] != 0
  }

  // What stands behind the first zero does not matter; without a zero, and for a number that is none, it is membership.
  lemma ListEndsAtZero(id: u32, list: seq<u32>)
    ensures forall k :: 0 <= k < |list| && list[k] == 0 ==> (IdInReplyList(id, list) <==> IdInReplyList(id, list[..k]))
    ensures 0 !in list ==> (IdInReplyList(id, list) <==> id in list)
  {
    forall k | 0 <= k < |list| && list[k] == 0 && IdInReplyList(id, list) ensures IdInReplyList(id, list[..k]) {
      var i :| 0 <= i < |list| && list[i] == id && forall j :: 0 <= j <= i ==> list[j] != 0;
      assert i < k && list[..k][i] == id;
    }
    forall k | 0 <= k < |list| && list[k] == 0 && IdInReplyList(id, list[..k]) ensures IdInReplyList(id, list) {
      var i :| 0 <= i < k && list[..k][i] == id && forall j :: 0 <= j <= i ==> list[..k][j] != 0;
      assert list[i] == id && forall j :: 0 <= j <= i ==> list[j] == list[..k][j];
    }
    if id in list && 0 !in list {
      var i :| 0 <= i < |list| && list[i] == id;
      assert forall j :: 0 <= j <= i ==> list[j] in list;
    }
  }

  /** amqp_id_in_reply_list. */
  method FindReply(id: u32, list: seq<u32>) returns (found: bool)
    ensures found <==> IdInReplyList(id, list)
  {
    var k := 0;
    while k < |list| && list[k] != 0
      invariant k <= |list| && forall j :: 0 <= j < k ==> list[j] != 0 && list[j] != id
    {
      if list[k] == id { return true; }
      k := k + 1;
    }
    return false;
  }

  method TestReply(f: Frame, channel: u16, replies: seq<u32>) returns (yes: bool)
    ensures yes <==> IsReply(f, channel, replies)
    ensures yes <==> f.MethodFrame? &&
                     ((f.channel == channel && IdInReplyList(f.call.id, replies)) ||
                      (f.channel == channel && f.call.id == 0x0014_0028) || (f.channel == 0 && f.call.id == 0x000A_003C))
  {
    if !f.MethodFrame? { return false; }
    var listed := FindReply(f.call.id, replies);
    yes := (f.channel == channel && (listed || f.call.id == CHANNEL_CLOSE)) ||
           (f.channel == 0 && f.call.id == CONNECTION_CLOSE);
  }

  ghost predicate IsReply(f: Frame, channel: u16, replies: seq<u32>) {
    f.MethodFrame? &&
    ((f.channel == channel && (IdInReplyList(f.call.id, replies) || f.call.id == CHANNEL_CLOSE)) ||
     (f.channel == 0 && f.call.id == CONNECTION_CLOSE))
  }

  datatype Awaited =
    | Reply(skipped: seq<Frame>, reply: Frame, rest: seq<byte>)
    | NoReply(skipped: seq<Frame>, rest: seq<byte>)
    | Lost(skipped: seq<Frame>, error: Error)

  function Skip(f: Frame, a: Awaited): Awaited {
    match a
    case Reply(skipped, reply, rest) => Reply([f] + skipped, reply, rest)
    case NoReply(skipped, rest) => NoReply([f] + skipped, rest)
    case Lost(skipped, e) => Lost([f] + skipped, e)
  }

  // The outcome of a call that has put these frames aside already.
  function SkipAll(fs: seq<Frame>, a: Awaited): Awaited {
    match a
    case Reply(skipped, reply, rest) => Reply(fs + skipped, reply, rest)
    case NoReply(skipped, rest) => NoReply(fs + skipped, rest)
    case Lost(skipped, e) => Lost(fs + skipped, e)
  }

  lemma SkipOne(fs: seq<Frame>, f: Frame, a: Awaited)
    ensures SkipAll(fs, Skip(f, a)) == SkipAll(fs + [f], a)
  {
    assert fs + ([f] + a.skipped) == (fs + [f]) + a.skipped;
  }

  lemma SkipAllIs(fs: seq<Frame>, a: Awaited)
    ensures a.skipped == [] ==> SkipAll(fs, a).skipped == fs
    ensures SkipAll([], a) == a
  {
    assert fs + [] == fs && [] + a.skipped == a.skipped;
  }

  ghost function Await(max: nat, s: seq<byte>, channel: u16, replies: seq<u32>): Awaited
    decreases |s|
  {
    match NextFrame(max, s)
    case Starved(rest) => NoReply([], rest)
    case Failed(e) => Lost([], e)
    case Got(f, rest) =>
      if IsReply(f, channel, replies) then Reply([], f, rest) else Skip(f, Await(max, rest, channel, replies))
  }

  lemma {:induction false} NextIsFirst(max: nat, s: seq<byte>)
    ensures var n, p := NextFrame(max, s), Parse(max, s);
            && (n.Got? ==> p == Parse(max, n.rest).(frames := [n.frame] + Parse(max, n.rest).frames))
            && (n.Starved? ==> p == Parsed([], n.rest, None) == Parse(max, n.rest))
            && (n.Failed? ==> p == Parsed([], [], Some(n.error)))
    decreases |s|
  {
    hide Scan;
    if Scan(max, s).Item? && Scan(max, s).frame.None? {
      NextIsFirst(max, s[Scan(max, s).size..]);
    }
  }

  // The call takes the frames up to its reply off the stream, and puts none aside that could be the reply.
  lemma {:induction false} AwaitConserves(max: nat, s: seq<byte>, channel: u16, replies: seq<u32>)
    ensures var a, p := Await(max, s, channel, replies), Parse(max, s);
            && (forall i :: 0 <= i < |a.skipped| ==> !IsReply(a.skipped[i], channel, replies))
            && (a.Reply? ==> IsReply(a.reply, channel, replies) &&
                             p == Parse(max, a.rest).(frames := a.skipped + [a.reply] + Parse(max, a.rest).frames))
            && (a.NoReply? ==> p == Parsed(a.skipped, a.rest, None) && Parse(max, a.rest) == Parsed([], a.rest, None))
            && (a.Lost? ==> p == Parsed(a.skipped, [], Some(a.error)))
    decreases |s|
  {
    hide NextFrame, Parse, IsReply;
    NextIsFirst(max, s);
    NextShrinks(max, s);
    var n := NextFrame(max, s);
    if n.Got? && !IsReply(n.frame, channel, replies) {
      AwaitConserves(max, n.rest, channel, replies);
      var a := Await(max, n.rest, channel, replies);
      if a.Reply? {
        var later := Parse(max, a.rest).frames;
        assert [n.frame] + (a.skipped + [a.reply] + later) == [n.frame] + a.skipped + [a.reply] + later;
      }
    } else if n.Got? {
      assert [] + [n.frame] + Parse(max, n.rest).frames == [n.frame] + Parse(max, n.rest).frames;
    }
  }

  lemma NextShrinks(max: nat, s: seq<byte>)
    ensures NextFrame(max, s).Got? ==> |NextFrame(max, s).rest| < |s|
  {
  }

  /// Waiting and calling in any order

  datatype Operation = Wait | Call(channel: u16, replies: seq<u32>)

  // The frames put aside and the octets still to be read.
  datatype Session = Session(queued: seq<Frame>, stream: seq<byte>)

  // What is still to be delivered, oldest first.
  function Outstanding(max: nat, s: Session): seq<Frame> {
    s.queued + Parse(max, s.stream).frames
  }

  // amqp_simple_wait_frame and amqp_simple_rpc; a broken stream brings nothing any more.
  ghost function Step(max: nat, s: Session, op: Operation): (Session, Option<Frame>) {
    match op
    case Wait =>
      if s.queued != [] then (s.(queued := s.queued[1..]), Some(s.queued[0]))
      else
        (match NextFrame(max, s.stream)
         case Got(f, rest) => (s.(stream := rest), Some(f))
         case Starved(rest) => (s.(stream := rest), None)
         case Failed(_) => (s.(stream := []), None))
    case Call(channel, replies) =>
      match Await(max, s.stream, channel, replies)
      case Reply(skipped, f, rest) => (Session(s.queued + skipped, rest), Some(f))
      case NoReply(skipped, rest) => (Session(s.queued + skipped, rest), None)
      case Lost(skipped, _) => (Session(s.queued + skipped, []), None)
  }

  // One frame is taken out, the oldest by a wait, and the others keep their order.
  ghost predicate TakesOut(before: seq<Frame>, out: Option<Frame>, after: seq<Frame>, first: bool) {
    match out
    case None => before == after
    case Some(f) => exists k :: 0 <= k < |before| && before[k] == f && after == before[..k] + before[k + 1..] && (first ==> k == 0)
  }

  lemma StepTakesOut(max: nat, s: Session, op: Operation)
    ensures TakesOut(Outstanding(max, s), Step(max, s, op).1, Outstanding(max, Step(max, s, op).0), op.Wait?)
  {
    hide NextFrame, Parse, Await, IsReply;
    var before := Outstanding(max, s);
    var (t, out) := Step(max, s, op);
    var after := Outstanding(max, t);
    match op {
      case Wait =>
        NextIsFirst(max, s.stream);
        NothingLeft(max);
        if out.Some? {
          assert before[0] == out.value && after == before[..0] + before[0 + 1..];
        }
      case Call(channel, replies) =>
        AwaitConserves(max, s.stream, channel, replies);
        NothingLeft(max);
        var a := Await(max, s.stream, channel, replies);
        var k := |s.queued| + |a.skipped|;
        if a.Reply? {
          assert before[k] == a.reply && after == before[..k] + before[k + 1..];
        }
    }
  }

  lemma NothingLeft(max: nat)
    ensures Parse(max, []) == Parsed([], [], None)
  {
  }

  ghost function RunAll(max: nat, s: Session, ops: seq<Operation>): (Session, seq<Frame>)
    decreases |ops|
  {
    if ops == [] then (s, [])
    else
      var (t, out) := Step(max, s, ops[0]);
      var (u, outs) := RunAll(max, t, ops[1..]);
      (u, if out.None? then outs else [out.value] + outs)
  }

  lemma {:induction false} RunsOn(max: nat, s: Session, ops: seq<Operation>, more: seq<Operation>)
    ensures var (t, outs) := RunAll(max, s, ops);
            var (u, later) := RunAll(max, t, more);
            RunAll(max, s, ops + more) == (u, outs + later)
    decreases |ops|
  {
    hide Step;
    if ops == [] {
      assert [] + more == more;
      assert [] + RunAll(max, s, more).1 == RunAll(max, s, more).1;
    } else {
      var (t, out) := Step(max, s, ops[0]);
      assert (ops + more)[1..] == ops[1..] + more && (ops + more)[0] == ops[0];
      RunsOn(max, t, ops[1..], more);
      var (v, outs) := RunAll(max, t, ops[1..]);
      var later := RunAll(max, v, more).1;
      if out.Some? {
        assert [out.value] + (outs + later) == [out.value] + outs + later;
      }
    }
  }

  lemma RunOne(max: nat, s: Session, op: Operation)
    ensures var (t, out) := Step(max, s, op);
            RunAll(max, s, [op]) == (t, if out.None? then [] else [out.value]) && RunAll(max, s, []) == (s, [])
  {
    hide Step;
    var (t, out) := Step(max, s, op);
    assert [op][1..] == [] && RunAll(max, t, []) == (t, []);
    assert out.Some? ==> [out.value] + [] == [out.value];
  }

  lemma TakenOutCount(before: seq<Frame>, out: Option<Frame>, after: seq<Frame>, first: bool)
    requires TakesOut(before, out, after, first)
    ensures multiset(before) == (if out.None? then multiset{} else multiset{out.value}) + multiset(after)
  {
    if out.Some? {
      var k :| 0 <= k < |before| && before[k] == out.value && after == before[..k] + before[k + 1..];
      assert before == before[..k] + [before[k]] + before[k + 1..];
    }
  }

  // No frame of the stream is lost or delivered twice, whatever waits and calls are made.
  lemma {:induction false} FramesAreConserved(max: nat, s: Session, ops: seq<Operation>)
    ensures var (t, outs) := RunAll(max, s, ops);
            multiset(Outstanding(max, s)) == multiset(outs) + multiset(Outstanding(max, t))
    decreases |ops|
  {
    hide Step, Outstanding, TakesOut;
    if ops != [] {
      var (t, out) := Step(max, s, ops[0]);
      StepTakesOut(max, s, ops[0]);
      TakenOutCount(Outstanding(max, s), out, Outstanding(max, t), ops[0].Wait?);
      FramesAreConserved(max, t, ops[1..]);
    }
  }

  // Waits alone deliver what is outstanding in the order of its arrival.
  lemma {:induction false} WaitsKeepOrder(max: nat, s: Session, ops: seq<Operation>)
    requires forall i :: 0 <= i < |ops| ==> ops[i].Wait?
    ensures var (t, outs) := RunAll(max, s, ops);
            Outstanding(max, s) == outs + Outstanding(max, t)
    decreases |ops|
  {
    hide Step, Outstanding;
    if ops == [] {
      assert [] + Outstanding(max, s) == Outstanding(max, s);
    } else {
      var (t, out) := Step(max, s, ops[0]);
      WaitTakesFirst(max, s);
      WaitsKeepOrder(max, t, ops[1..]);
      if Outstanding(max, s) != [] {
        FirstAgain(Outstanding(max, s), RunAll(max, t, ops[1..]).1, Outstanding(max, RunAll(max, t, ops[1..]).0));
      }
    }
  }

  lemma FirstAgain(all: seq<Frame>, outs: seq<Frame>, rest: seq<Frame>)
    requires all != [] && all[1..] == outs + rest
    ensures all == [all[0]] + outs + rest
  {
  }

  /// Waiting for a whole message

  function Waits(n: nat): seq<Operation> {
    seq(n, _ => Wait)
  }

  lemma WaitTakesFirst(max: nat, s: Session)
    ensures var all, (t, out) := Outstanding(max, s), Step(max, s, Wait);
            if all != [] then out == Some(all[0]) && Outstanding(max, t) == all[1..] else out == None && Outstanding(max, t) == [] && t.queued == []
    ensures s.queued == [] ==>
              var t := Step(max, s, Wait).0;
              t.queued == [] &&
              (Parse(max, s.stream).error == None ==>
                 Parse(max, t.stream).rest == Parse(max, s.stream).rest && Parse(max, t.stream).error == None)
  {
    hide NextFrame, Parse;
    NextIsFirst(max, s.stream);
    NothingLeft(max);
  }

  // So many waits deliver so many of the outstanding frames, and leave the others.
  lemma {:induction false} WaitsDeliver(max: nat, s: Session, n: nat)
    requires s.queued == [] && n <= |Outstanding(max, s)| && Parse(max, s.stream).error == None
    ensures var all, (t, outs) := Outstanding(max, s), RunAll(max, s, Waits(n));
            && outs == all[..n] && Outstanding(max, t) == all[n..] && t.queued == []
            && Parse(max, t.stream).rest == Parse(max, s.stream).rest && Parse(max, t.stream).error == None
    decreases n
  {
    hide Step, Outstanding, Parse;
    if n > 0 {
      var ops := Waits(n);
      assert ops[0] == Wait && ops[1..] == Waits(n - 1);
      WaitTakesFirst(max, s);
      WaitsDeliver(max, Step(max, s, Wait).0, n - 1);
    }
  }

  // Publish, cut anywhere, wait: so many waits deliver the method, the header and the fragments, and then the
  // stream is at its end, exactly when nothing is lost in the encoding.
  lemma PublishedIsDelivered(channel: u16, exchange: seq<byte>, key: seq<byte>, mandatory: bool, immediate: bool,
                             p: Properties, body: seq<byte>, max: nat, peerMax: nat)
    requires HEADER_SIZE + FOOTER_SIZE < max <= peerMax && |body| <= MAX_LENGTH
    requires Fits(MethodFrame(channel, PublishMethod(exchange, key, mandatory, immediate)), max)
    requires Fits(HeaderFrame(channel, BASIC_CLASS, |body|, p), max)
    ensures var fs := PublishFrames(channel, PublishMethod(exchange, key, mandatory, immediate), p, body, max);
            var (t, outs) := RunAll(peerMax, Session([], StreamOf(fs)), Waits(|fs|));
            && Carries(fs, channel, exchange, key, mandatory, immediate, p, body)
            && (outs == fs && NextFrame(peerMax, t.stream) == Starved([]) <==>
                |exchange| < 0x100 && |key| < 0x100 && EncodableProperties(BASIC_CLASS, p) && Kept(p.flags) == p.flags)
  {
    hide Carries, Scan, NextFrame, Step, EncodableFrame, EncodableProperties, Kept, PublishMethod, Fits, StreamOf, BodyFrames,
      AllWithin, RunAll, Parse, PublishFrames, Waits;
    var m := PublishMethod(exchange, key, mandatory, immediate);
    var fs := PublishFrames(channel, m, p, body, max);
    var s := Session([], StreamOf(fs));
    var (t, outs) := RunAll(peerMax, s, Waits(|fs|));
    PublishEncodable(exchange, key, mandatory, immediate);
    PublishShape(channel, m, p, body, max, peerMax);
    PublishCarries(channel, exchange, key, mandatory, immediate, p, body, max);
    assert StreamOf(fs) + [] == StreamOf(fs);
    StreamExactly(peerMax, fs, []);
    var all := Outstanding(peerMax, s);
    assert all == Parse(peerMax, StreamOf(fs)).frames;
    if AllEncodable(fs) {
      StreamBack(peerMax, fs, []);
      assert all == fs + [] == fs && all[..|fs|] == fs;
      WaitsDeliver(peerMax, s, |fs|);
      NextIsFirst(peerMax, t.stream);
    }
    AreWaits(|fs|);
    WaitsKeepOrder(peerMax, s, Waits(|fs|));
    assert outs == fs ==> fs <= all;
  }

  lemma AreWaits(n: nat)
    ensures forall i :: 0 <= i < |Waits(n)| ==> Waits(n)[i].Wait?
  {
  }
}
