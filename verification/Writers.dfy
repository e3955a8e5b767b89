/** The frame writer: inner_send_frame on the outbound buffer. */
module Writers {
  import opened Bytes
  import opened Framing
  import opened PropertyLists
  import opened Frames

  // The payload is copied into a buffer of this size, except that of a body frame.
  predicate Fits(f: Frame, max: nat) {
    && Sendable(f) && |Payload(f)| <= MAX_LENGTH
    && (f.MethodFrame? ==> AllWritable(f.call.args) && |FrameBytes(f)| <= max)
    && (f.HeaderFrame? ==> AllWritable(f.properties.fields) && |FrameBytes(f)| <= max)
  }

  // What becomes visible of an attempt to send the frame.
  function Emitted(f: Frame, max: nat): seq<byte> {
    if Fits(f, max) then FrameBytes(f) else []
  }

  // The parts of a frame, written in the order of the code: head, payload, then the size in between.
  lemma HeadPayloadSize(s: seq<byte>, head: seq<byte>, size: seq<byte>, payload: seq<byte>)
    requires |head| == 3 && |size| == 4 && HEADER_SIZE + |payload| <= |s|
    ensures Splice(Splice(Splice(s, 0, head), HEADER_SIZE, payload), 3, size) == Splice(s, 0, head + size + payload)
  {
  }

  lemma SpliceFront(s: seq<byte>, t: seq<byte>)
    requires |t| <= |s|
    ensures Splice(s, 0, t)[..|t|] == t
  {
  }

  lemma PayloadOf(f: Frame)
    requires Sendable(f)
    ensures f.MethodFrame? ==> Payload(f) == Be32(f.call.id) + EncMethod(f.call)
    ensures f.HeaderFrame? ==>
              Payload(f) == HeaderPrefix(f.class_id, f.body_size) + EncProperties(f.class_id, f.properties)
    ensures f.BodyFrame? ==> Payload(f) == f.fragment
    ensures f.HeartbeatFrame? ==> Payload(f) == []
  {
  }

  method PutPrefix(buf: array<byte>, class_id: u16, size: u64) returns (ok: bool)
    requires buf.Length <= MAX_LENGTH
    modifies buf
    ensures ok <==> HEADER_SIZE + 12 <= buf.Length
    ensures ok ==> buf[..] == Splice(old(buf[..]), HEADER_SIZE, HeaderPrefix(class_id, size))
  {
    hide Splice, SameOutside, Be16, Be64;
    ghost var was := buf[..];
    ok := Put(buf, buf.Length, HEADER_SIZE, Be16(class_id));
    if ok {
      ok := Put(buf, buf.Length, HEADER_SIZE + 2, Be16(0));
      if ok {
        SpliceBehind(was, HEADER_SIZE, Be16(class_id), Be16(0));
        ok := Put64(buf, buf.Length, HEADER_SIZE + 4, size);
        if ok {
          SpliceBehind(was, HEADER_SIZE, Be16(class_id) + Be16(0), Be64(size));
        }
      }
    }
  }

  // The method and header cases: the payload goes right behind the room for the frame head.
  method EncodePayload(buf: array<byte>, f: Frame) returns (r: Result<nat>)
    requires HEADER_SIZE <= buf.Length <= MAX_LENGTH && WellTypedFrame(f) && (f.MethodFrame? || f.HeaderFrame?)
    modifies buf
    ensures r.Ok? <==> Fits(f, buf.Length)
    ensures r.Ok? ==> r.value == |Payload(f)| && buf[..] == Splice(old(buf[..]), HEADER_SIZE, Payload(f))
  {
    hide Splice, SameOutside, MethodLayout, PropertyLayout, WellTyped, WellTypedProperties,
      EncMethod, EncProperties, AllWritable, Be32, HeaderPrefix;
    ghost var was := buf[..];
    if f.MethodFrame? {
      var ok := Put(buf, buf.Length, HEADER_SIZE, Be32(f.call.id));
      if !ok { return Err(EFAULT); }
      if buf.Length < HEADER_SIZE + 4 + FOOTER_SIZE { return Err(EWRAP); }
      r := EncodeMethod(buf, buf.Length - FOOTER_SIZE, f.call, HEADER_SIZE + 4);
      if r.Ok? {
        SpliceBehind(was, HEADER_SIZE, Be32(f.call.id), EncMethod(f.call));
        r := Ok(r.value - HEADER_SIZE);
      }
    } else {
      var ok := PutPrefix(buf, f.class_id, f.body_size);
      if !ok { return Err(EFAULT); }
      if buf.Length < HEADER_SIZE + 12 + FOOTER_SIZE { return Err(EWRAP); }
      r := EncodeProperties(buf, buf.Length - FOOTER_SIZE, f.class_id, f.properties, HEADER_SIZE + 12);
      if r.Ok? {
        SpliceBehind(was, HEADER_SIZE, HeaderPrefix(f.class_id, f.body_size), EncProperties(f.class_id, f.properties));
        r := Ok(r.value - HEADER_SIZE);
      }
    }
  }

  /** inner_send_frame, and what amqp_send_frame_to then hands to its output function. */
  method WriteFrame(buf: array<byte>, f: Frame) returns (r: Result<seq<byte>>)
    requires 8 <= buf.Length <= MAX_LENGTH && WellTypedFrame(f)
    requires f.BodyFrame? ==> |f.fragment| <= MAX_LENGTH
    modifies buf
    ensures r.Ok? <==> Fits(f, buf.Length)
    ensures r.Ok? ==> r.value == FrameBytes(f)
  {
    hide Splice, SameOutside, MethodLayout, PropertyLayout, WellTyped, WellTypedProperties,
      EncMethod, EncProperties, AllWritable, Be16, Be32, HeaderPrefix, Payload;
    ghost var was := buf[..];
    if f.ProtocolFrame? { return Err(EINVAL); }
    var kind, channel := [FrameType(f)], Be16(Channel(f));
    var ok := Put(buf, buf.Length, 0, kind);
    ok := Put(buf, buf.Length, 1, channel);
    SpliceBehind(was, 0, kind, channel);
    var payload_len := 0;
    if f.MethodFrame? || f.HeaderFrame? {
      payload_len :- EncodePayload(buf, f);
    } else {
      PayloadOf(f);
      SpliceNothing(buf[..], HEADER_SIZE);
      if f.BodyFrame? { payload_len := |f.fragment|; }
    }
    ghost var copied := if f.BodyFrame? then [] else Payload(f);
    var size := Be32(payload_len);
    ok := Put(buf, buf.Length, 3, size);
    HeadPayloadSize(was, kind + channel, size, copied);
    if f.BodyFrame? {
      SpliceFront(was, kind + channel + size + []);
      r := Ok(buf[..HEADER_SIZE] + f.fragment + [FRAME_END]);
    } else {
      ok := Put(buf, buf.Length, payload_len + HEADER_SIZE, [FRAME_END]);
      SpliceBehind(was, 0, kind + channel + size + copied, [FRAME_END]);
      SpliceFront(was, kind + channel + size + copied + [FRAME_END]);
      r := Ok(buf[..payload_len + HEADER_SIZE + FOOTER_SIZE]);
    }
  }
}
