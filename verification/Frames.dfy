/** Frames as values: the image the frame writer produces, and what the frame reader makes of a
    stream of octets, however the stream is cut into reads. */
module Frames {
  import opened Basics
  import opened Bytes
  import opened Fields
  import opened Framing
  import opened PropertyLists

  const FRAME_METHOD: byte := 1
  const FRAME_HEADER: byte := 2
  const FRAME_BODY: byte := 3
  const FRAME_HEARTBEAT: byte := 8
  const PROTOCOL_HEADER: byte := 65
  const PROTOCOL_CHANNEL: u16 := 0x4D51
  const FRAME_END: byte := 206

  const HEADER_SIZE := 7
  const FOOTER_SIZE := 1

  datatype Frame =
    | MethodFrame(channel: u16, call: Method)
    | HeaderFrame(channel: u16, class_id: u16, body_size: u64, properties: Properties)
    | BodyFrame(channel: u16, fragment: seq<byte>)
    | HeartbeatFrame(channel: u16)
    | ProtocolFrame(transport_high: byte, transport_low: byte, major: byte, minor: byte)

  /// Writing

  function FrameType(f: Frame): byte {
    match f
    case MethodFrame(_, _) => FRAME_METHOD
    case HeaderFrame(_, _, _, _) => FRAME_HEADER
    case BodyFrame(_, _) => FRAME_BODY
    case HeartbeatFrame(_) => FRAME_HEARTBEAT
    case ProtocolFrame(_, _, _, _) => PROTOCOL_HEADER
  }

  function Channel(f: Frame): u16 {
    if f.ProtocolFrame? then PROTOCOL_CHANNEL else f.channel
  }

  // The payload union holds the struct that the method number or the class announces.
  predicate WellTypedFrame(f: Frame) {
    match f
    case MethodFrame(_, m) => WellTyped(m)
    case HeaderFrame(_, class_id, _, p) => WellTypedProperties(class_id, p)
    case _ => true
  }

  // A frame of a kind that can be sent.
  predicate Sendable(f: Frame) {
    WellTypedFrame(f) &&
    match f
    case MethodFrame(_, m) => MethodLayout(m.id).Some?
    case HeaderFrame(_, class_id, _, p) => PropertyLayout(class_id, p.flags).Some?
    case ProtocolFrame(_, _, _, _) => false
    case _ => true
  }

  // ... and whose strings, tables and flags survive their encoding.
  predicate EncodableFrame(f: Frame) {
    Sendable(f) &&
    match f
    case MethodFrame(_, m) => EncodableMethod(m)
    case HeaderFrame(_, class_id, _, p) => EncodableProperties(class_id, p) && Kept(p.flags) == p.flags
    case _ => true
  }

  function Payload(f: Frame): seq<byte>
    requires Sendable(f)
  {
    match f
    case MethodFrame(_, m) => Be32(m.id) + EncMethod(m)
    case HeaderFrame(_, class_id, size, p) => HeaderPrefix(class_id, size) + EncProperties(class_id, p)
    case BodyFrame(_, fragment) => fragment
    case HeartbeatFrame(_) => []
  }

  // The class, the unused weight and the size of the body.
  function HeaderPrefix(class_id: u16, size: u64): (s: seq<byte>)
    ensures |s| == 12
  {
    Be16(class_id) + Be16(0) + Be64(size)
  }

  function FrameHead(kind: byte, channel: u16, size: u32): (s: seq<byte>)
    ensures |s| == HEADER_SIZE
  {
    [kind] + Be16(channel) + Be32(size)
  }

  function FrameBytes(f: Frame): (s: seq<byte>)
    requires Sendable(f) && |Payload(f)| <= MAX_LENGTH
    ensures |s| == HEADER_SIZE + |Payload(f)| + FOOTER_SIZE
  {
    FrameHead(FrameType(f), Channel(f), |Payload(f)|) + Payload(f) + [FRAME_END]
  }

  /// Reading

  // What stands at the front of a stream: no complete frame yet, a frame (or an ignored one) of
  // this many octets, or an error.
  datatype Scanned = Incomplete | Item(size: nat, frame: Option<Frame>) | Bad(error: Error)

  predicate IsProtocolHeader(w: seq<byte>)
    requires |w| >= HEADER_SIZE
  {
    w[0] == PROTOCOL_HEADER && U16(w, 1) == PROTOCOL_CHANNEL
  }

  // The frame and the part of it that has been seen have to fit the inbound buffer.
  function Scan(max: nat, w: seq<byte>): (r: Scanned)
    ensures r.Item? ==> HEADER_SIZE < r.size <= |w|
  {
    if |w| < HEADER_SIZE then Incomplete
    else if IsProtocolHeader(w) then
      if |w| < 8 then Incomplete
      else if w[3] != 80 then Bad(EABORT)
      else Item(8, Some(ProtocolFrame(w[4], w[5], w[6], w[7])))
    else
      var target := U32(w, 3) + HEADER_SIZE + FOOTER_SIZE;
      if |w| == HEADER_SIZE then Incomplete
      else if target >= 0x1_0000_0000 then Bad(EWRAP)
      else if target > max && |w| > max then Bad(EFAULT)
      else if |w| < target then Incomplete
      else
        match DecodeBlock(w[..target])
        case Ok(frame) => Item(target, frame)
        case Err(e) => Bad(e)
  }

  // The switch on the frame type, on the octets of one complete frame; an unknown type is ignored.
  function DecodeBlock(b: seq<byte>): Result<Option<Frame>>
    requires |b| >= HEADER_SIZE + FOOTER_SIZE
  {
    var last, channel := |b| - FOOTER_SIZE, U16(b, 1);
    if b[last] != FRAME_END then Err(EINVAL)
    else if b[0] == FRAME_METHOD then
      if |b| < HEADER_SIZE + 4 + FOOTER_SIZE then Err(EWRAP)
      else
        var m :- DecMethod(U32(b, HEADER_SIZE), b[HEADER_SIZE + 4..last]);
        Ok(Some(MethodFrame(channel, m)))
    else if b[0] == FRAME_HEADER then
      if |b| < HEADER_SIZE + 12 + FOOTER_SIZE then Err(EWRAP)
      else
        var class_id := U16(b, HEADER_SIZE);
        var p :- DecProperties(class_id, b[HEADER_SIZE + 12..last]);
        Ok(Some(HeaderFrame(channel, class_id, U64(b, HEADER_SIZE + 4), p)))
    else if b[0] == FRAME_BODY then Ok(Some(BodyFrame(channel, b[HEADER_SIZE..last])))
    else if b[0] == FRAME_HEARTBEAT then Ok(Some(HeartbeatFrame(channel)))
    else Ok(None)
  }

  // The outcome of reading a whole stream: the frames in it, the incomplete tail, the error that ended it.
  datatype Parsed = Parsed(frames: seq<Frame>, rest: seq<byte>, error: Option<Error>)

  function Prepend(f: Option<Frame>, p: Parsed): Parsed {
    if f.None? then p else p.(frames := [f.value] + p.frames)
  }

  function Parse(max: nat, s: seq<byte>): Parsed
    decreases |s|
  {
    match Scan(max, s)
    case Incomplete => Parsed([], s, None)
    case Bad(e) => Parsed([], [], Some(e))
    case Item(n, f) => Prepend(f, Parse(max, s[n..]))
  }

  /// The reader undoes the writer

  lemma HeadFields(kind: byte, channel: u16, size: u32, rest: seq<byte>)
    ensures var w := FrameHead(kind, channel, size) + rest;
            w[0] == kind && U16(w, 1) == channel && U32(w, 3) == size
  {
    hide At, Be16, Be32, U16, U32;
    var w := FrameHead(kind, channel, size) + rest;
    AtFront(FrameHead(kind, channel, size), rest);
    AtSplit(w, 0, [kind] + Be16(channel), Be32(size));
    AtSplit(w, 0, [kind], Be16(channel));
    At8(w, 0, kind);
    At16(w, 1, channel);
    At32(w, 3, size);
  }

  lemma AtFront(a: seq<byte>, rest: seq<byte>)
    ensures At(a + rest, 0, a)
  {
  }

  lemma HeaderPrefixFields(class_id: u16, size: u64, rest: seq<byte>)
    ensures var w := HeaderPrefix(class_id, size) + rest;
            U16(w, 0) == class_id && U64(w, 4) == size
  {
    hide At, Be16, Be64, U16, U64;
    var w := HeaderPrefix(class_id, size) + rest;
    AtFront(HeaderPrefix(class_id, size), rest);
    AtSplit(w, 0, Be16(class_id) + Be16(0), Be64(size));
    AtSplit(w, 0, Be16(class_id), Be16(0));
    At16(w, 0, class_id);
    At64(w, 4, size);
  }

  // Integers inside a slice.
  lemma Shifted(s: seq<byte>, off: nat, t: seq<byte>, k: nat)
    requires off <= |s| && t <= s[off..]
    ensures k + 2 <= |t| ==> U16(s, off + k) == U16(t, k)
    ensures k + 4 <= |t| ==> U32(s, off + k) == U32(t, k)
    ensures k + 8 <= |t| ==> U64(s, off + k) == U64(t, k)
  {
  }

  lemma BlockRoundTrip(f: Frame)
    requires EncodableFrame(f) && |Payload(f)| <= MAX_LENGTH
    ensures DecodeBlock(FrameBytes(f)) == Ok(Some(f))
  {
    hide Payload, DecMethod, DecProperties, EncodableFrame, FrameHead, U32, U64;
    PlainPayload(f);
    var p := Payload(f);
    var b := FrameBytes(f);
    HeadFields(FrameType(f), Channel(f), |p|, p + [FRAME_END]);
    assert b == FrameHead(FrameType(f), Channel(f), |p|) + (p + [FRAME_END]);
    assert b[HEADER_SIZE..|b| - FOOTER_SIZE] == p;
    match f
    case MethodFrame(_, m) => MethodBlock(f, b, p);
    case HeaderFrame(_, _, _, _) => HeaderBlock(f, b, p);
    case BodyFrame(_, _) =>
    case HeartbeatFrame(_) =>
  }

  lemma PlainPayload(f: Frame)
    requires EncodableFrame(f)
    ensures Sendable(f) && (f.BodyFrame? ==> Payload(f) == f.fragment)
  {
  }

  lemma MethodBlock(f: Frame, b: seq<byte>, p: seq<byte>)
    requires EncodableFrame(f) && f.MethodFrame? && p == Payload(f) && |p| <= MAX_LENGTH
    requires |b| == |p| + 8 && b[HEADER_SIZE..|b| - FOOTER_SIZE] == p
    ensures |p| >= 4 && U32(b, HEADER_SIZE) == f.call.id
    ensures DecMethod(f.call.id, b[HEADER_SIZE + 4..|b| - FOOTER_SIZE]) == Ok(f.call)
  {
    hide Be32, U32, EncMethod, DecMethod, At;
    var id, args := Be32(f.call.id), EncMethod(f.call);
    assert b[HEADER_SIZE + 4..|b| - FOOTER_SIZE] == p[4..] == args + [];
    AtFront(id, args);
    At32(p, 0, f.call.id);
    Shifted(b, HEADER_SIZE, p, 0);
    RoundTripMethod(f.call, []);
  }

  lemma HeaderBlock(f: Frame, b: seq<byte>, p: seq<byte>)
    requires EncodableFrame(f) && f.HeaderFrame? && p == Payload(f) && |p| <= MAX_LENGTH
    requires |b| == |p| + 8 && b[HEADER_SIZE..|b| - FOOTER_SIZE] == p
    ensures |p| >= 12 && U16(b, HEADER_SIZE) == f.class_id && U64(b, HEADER_SIZE + 4) == f.body_size
    ensures DecProperties(f.class_id, b[HEADER_SIZE + 12..|b| - FOOTER_SIZE]) == Ok(f.properties)
  {
    hide HeaderPrefix, U16, U64, EncProperties, DecProperties, Kept, PropertyLayout, EncodableProperties;
    var prefix, list := HeaderPrefix(f.class_id, f.body_size), EncProperties(f.class_id, f.properties);
    assert b[HEADER_SIZE + 12..|b| - FOOTER_SIZE] == p[12..] == list + [];
    HeaderPrefixFields(f.class_id, f.body_size, list);
    Shifted(b, HEADER_SIZE, p, 0);
    Shifted(b, HEADER_SIZE, p, 4);
    RoundTripProperties(f.class_id, f.properties, []);
  }

  lemma WriteRead(max: nat, f: Frame, rest: seq<byte>)
    requires EncodableFrame(f) && |Payload(f)| <= MAX_LENGTH && |FrameBytes(f)| <= max
    ensures Scan(max, FrameBytes(f) + rest) == Item(|FrameBytes(f)|, Some(f))
  {
    hide Payload, DecodeBlock, EncodableFrame, FrameHead, U32;
    PlainPayload(f);
    var p, b := Payload(f), FrameBytes(f);
    var w := b + rest;
    assert w == FrameHead(FrameType(f), Channel(f), |p|) + (p + [FRAME_END] + rest);
    HeadFields(FrameType(f), Channel(f), |p|, p + [FRAME_END] + rest);
    assert w[..|b|] == b;
    BlockRoundTrip(f);
  }

  // And no other frame survives: what the length octets, the table or the flag words lose is lost.
  lemma WriteReadExactly(max: nat, f: Frame, rest: seq<byte>)
    requires Sendable(f) && |Payload(f)| <= MAX_LENGTH && |FrameBytes(f)| <= max
    ensures Scan(max, FrameBytes(f) + rest) == Item(|FrameBytes(f)|, Some(f)) <==> EncodableFrame(f)
  {
    hide Payload, DecodeBlock, FrameHead, U32;
    if EncodableFrame(f) {
      WriteRead(max, f, rest);
    } else if Scan(max, FrameBytes(f) + rest) == Item(|FrameBytes(f)|, Some(f)) {
      var p, b := Payload(f), FrameBytes(f);
      assert b + rest == FrameHead(FrameType(f), Channel(f), |p|) + (p + [FRAME_END] + rest);
      HeadFields(FrameType(f), Channel(f), |p|, p + [FRAME_END] + rest);
      assert (b + rest)[..|b|] == b;
      ReadIsEncodable(f, b, p);
    }
  }

  // Even a frame that does not survive takes its own octets and no more.
  lemma ReadSize(max: nat, f: Frame, rest: seq<byte>)
    requires Sendable(f) && |Payload(f)| <= MAX_LENGTH && |FrameBytes(f)| <= max
    ensures var r := Scan(max, FrameBytes(f) + rest);
            r.Bad? || (r.Item? && r.size == |FrameBytes(f)| && r.frame.Some?)
  {
    hide Payload, DecMethod, DecProperties, FrameHead, U32, U64;
    var p, b := Payload(f), FrameBytes(f);
    assert b + rest == FrameHead(FrameType(f), Channel(f), |p|) + (p + [FRAME_END] + rest);
    HeadFields(FrameType(f), Channel(f), |p|, p + [FRAME_END] + rest);
    assert (b + rest)[..|b|] == b;
  }

  lemma ReadIsEncodable(f: Frame, b: seq<byte>, p: seq<byte>)
    requires Sendable(f) && p == Payload(f) && |p| <= MAX_LENGTH && b == FrameBytes(f)
    requires DecodeBlock(b) == Ok(Some(f))
    ensures EncodableFrame(f)
  {
    hide Payload, DecMethod, DecProperties, U32, U64, FrameHead, MethodLayout, PropertyLayout;
    assert b == FrameHead(FrameType(f), Channel(f), |p|) + (p + [FRAME_END]);
    HeadFields(FrameType(f), Channel(f), |p|, p + [FRAME_END]);
    if f.MethodFrame? {
      DecodedMethod(U32(b, HEADER_SIZE), b[HEADER_SIZE + 4..|b| - FOOTER_SIZE]);
    } else if f.HeaderFrame? {
      var list := b[HEADER_SIZE + 12..|b| - FOOTER_SIZE];
      assert list == EncProperties(f.class_id, f.properties) by {
        HeaderList(f);
        assert b[HEADER_SIZE..|b| - FOOTER_SIZE] == p;
        assert list == p[12..];
      }
      DecodedProperties(f.class_id, f.properties, list);
    }
  }

  lemma HeaderList(f: Frame)
    requires Sendable(f) && f.HeaderFrame?
    ensures |Payload(f)| >= 12 && Payload(f)[12..] == EncProperties(f.class_id, f.properties)
  {
  }

  lemma DecodedMethod(id: u32, s: seq<byte>)
    requires |s| <= MAX_LENGTH && DecMethod(id, s).Ok? && WellTyped(DecMethod(id, s).value)
    ensures EncodableMethod(DecMethod(id, s).value)
  {
    hide MethodLayout, ReadLayout, DecFields, HasLayout;
    SameLayouts(id);
    DecodedFields(s, 0, MethodLayout(id).value, []);
  }

  lemma DecodedProperties(class_id: u16, p: Properties, list: seq<byte>)
    requires PropertyLayout(class_id, p.flags).Some? && WellTypedProperties(class_id, p)
    requires list == EncProperties(class_id, p) && |list| <= MAX_LENGTH && DecProperties(class_id, list) == Ok(p)
    ensures EncodableProperties(class_id, p) && Kept(p.flags) == p.flags
  {
    hide PropertyLayout, ReadProperties, EncFlags, DecFlags, DecFields, EncArgs, HasLayout, Kept;
    SameProperties(class_id, p.flags);
    AtFront(EncFlags(p.flags), EncArgs(p.fields, PropertyLayout(class_id, p.flags).value));
    FlagsRoundTrip(list, 0, p.flags);
    DecodedFields(list, |EncFlags(p.flags)|, PropertyLayout(class_id, p.flags).value, []);
  }

  /// Reads of any size give the same frames

  // What comes later does not change the frame, or the error, at the front of a stream.
  lemma ScanStable(max: nat, w: seq<byte>, more: seq<byte>)
    ensures !Scan(max, w).Incomplete? ==> Scan(max, w + more) == Scan(max, w)
    ensures Scan(max, w + more).Item? && Scan(max, w + more).size <= |w| ==> Scan(max, w) == Scan(max, w + more)
  {
    hide DecodeBlock;
    if |w| >= HEADER_SIZE {
      var target := U32(w, 3) + HEADER_SIZE + FOOTER_SIZE;
      if target <= |w| {
        assert (w + more)[..target] == w[..target];
      }
    }
  }

  // One call of the frame reader: so many octets taken from the data, the octets of an incomplete
  // frame it now holds, and the frame it completed, if any.
  datatype Fed = Fed(consumed: nat, got: seq<byte>, frame: Option<Frame>) | Broken(error: Error)

  function Feed(max: nat, got: seq<byte>, data: seq<byte>): (r: Fed)
    requires Scan(max, got).Incomplete?
    ensures r.Fed? ==> r.consumed <= |data| && Scan(max, r.got).Incomplete?
    ensures r.Fed? && data != [] ==> r.consumed > 0
    ensures r.Fed? && r.frame.Some? ==> r.got == []
  {
    match Scan(max, got + data)
    case Incomplete => Fed(|data|, got + data, None)
    case Bad(e) => Broken(e)
    case Item(n, f) =>
      ScanStable(max, got, data);
      Fed(n - |got|, [], f)
  }

  // Waiting for a frame: ignored frames are skipped.
  datatype Next = Got(frame: Frame, rest: seq<byte>) | Starved(rest: seq<byte>) | Failed(error: Error)

  function NextFrame(max: nat, s: seq<byte>): (r: Next)
    ensures r.Got? ==> |r.rest| < |s|
    decreases |s|
  {
    match Scan(max, s)
    case Incomplete => Starved(s)
    case Bad(e) => Failed(e)
    case Item(n, None) => NextFrame(max, s[n..])
    case Item(n, Some(f)) => Got(f, s[n..])
  }

  // Whatever follows the data of one call, the call moves the wait on by exactly what it consumed.
  lemma FeedStep(max: nat, got: seq<byte>, data: seq<byte>, later: seq<byte>)
    requires Scan(max, got).Incomplete?
    ensures var fed, next := Feed(max, got, data), NextFrame(max, got + data + later);
            if fed.Broken? then next == Failed(fed.error)
            else if fed.frame.Some? then next == Got(fed.frame.value, data[fed.consumed..] + later)
            else next == NextFrame(max, fed.got + data[fed.consumed..] + later)
  {
    hide Scan;
    ScanStable(max, got + data, later);
    ScanStable(max, got, data);
    match Scan(max, got + data)
    case Incomplete => assert got + data + data[|data|..] + later == got + data + later;
    case Bad(_) =>
    case Item(n, f) =>
      assert (got + data + later)[n..] == data[n - |got|..] + later;
      assert [] + data[n - |got|..] + later == data[n - |got|..] + later;
  }

  lemma FeedParse(max: nat, got: seq<byte>, data: seq<byte>, later: seq<byte>)
    requires Scan(max, got).Incomplete?
    ensures var fed, all := Feed(max, got, data), Parse(max, got + data + later);
            if fed.Broken? then all == Parsed([], [], Some(fed.error))
            else all == Prepend(fed.frame, Parse(max, fed.got + data[fed.consumed..] + later))
  {
    hide Scan;
    ScanStable(max, got + data, later);
    ScanStable(max, got, data);
    match Scan(max, got + data)
    case Incomplete => assert got + data + data[|data|..] + later == got + data + later;
    case Bad(_) =>
    case Item(n, f) =>
      assert (got + data + later)[n..] == data[n - |got|..] + later;
      assert [] + data[n - |got|..] + later == data[n - |got|..] + later;
  }

  function Flatten(chunks: seq<seq<byte>>): seq<byte> {
    if chunks == [] then [] else chunks[0] + Flatten(chunks[1..])
  }

  // The frame reader called until each read is used up, read after read.
  function Run(max: nat, got: seq<byte>, chunks: seq<seq<byte>>): Parsed
    requires Scan(max, got).Incomplete?
    decreases |Flatten(chunks)|, |chunks|
  {
    if chunks == [] then Parsed([], got, None)
    else if chunks[0] == [] then Run(max, got, chunks[1..])
    else
      match Feed(max, got, chunks[0])
      case Broken(e) => Parsed([], [], Some(e))
      case Fed(n, got', f) =>
        var rest := [chunks[0][n..]] + chunks[1..];
        assert rest[1..] == chunks[1..];
        Prepend(f, Run(max, got', rest))
  }

  // Cutting a stream into reads, anywhere and into any number of pieces, changes nothing.
  lemma {:induction false} ChunksDoNotMatter(max: nat, got: seq<byte>, chunks: seq<seq<byte>>)
    requires Scan(max, got).Incomplete?
    ensures Run(max, got, chunks) == Parse(max, got + Flatten(chunks))
    decreases |Flatten(chunks)|, |chunks|
  {
    hide Scan, Feed, Parse;
    if chunks == [] {
      assert got + [] == got;
      ParseTail(max, got);
    } else if chunks[0] == [] {
      assert [] + Flatten(chunks[1..]) == Flatten(chunks[1..]);
      ChunksDoNotMatter(max, got, chunks[1..]);
    } else {
      var data, later := chunks[0], Flatten(chunks[1..]);
      assert got + Flatten(chunks) == got + data + later;
      FeedParse(max, got, data, later);
      var fed := Feed(max, got, data);
      if fed.Fed? {
        var rest := [data[fed.consumed..]] + chunks[1..];
        assert rest[1..] == chunks[1..];
        assert fed.got + Flatten(rest) == fed.got + data[fed.consumed..] + later;
        ChunksDoNotMatter(max, fed.got, rest);
      }
    }
  }

  lemma ParseTail(max: nat, got: seq<byte>)
    requires Scan(max, got).Incomplete?
    ensures Parse(max, got) == Parsed([], got, None)
  {
  }
}
