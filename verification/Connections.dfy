/** A connection (amqp_connection.c, amqp_socket.c and amqp_basic_publish): the frame reader on blocks
    of the frame pool, the frame writer on the outbound buffer, and the queue of frames put aside. */
module Connections {
  import opened Basics
  import opened Bytes
  import opened Framing
  import opened PropertyLists
  import opened Frames
  import opened Pools
  import opened Queues
  import opened Writers
  import opened Delivery

  datatype State = Idle | WaitingForHeader | WaitingForBody | WaitingForProtocolHeader

  // A decoded frame, and the inbound block that its pointers lead into.
  datatype Decoded = Decoded(frame: Frame, block: Region)

  datatype Waited = Arrived(d: Decoded) | HungUp(status: int) | Failure(error: Error)

  datatype Outcome = Normal(d: Decoded) | ServerException(d: Decoded) | LibraryException(cause: Waited)

  // The state that belongs to the octets held of an incomplete frame, and the size it waits for.
  function StateOf(got: seq<byte>): State {
    if got == [] then Idle
    else if |got| < HEADER_SIZE then WaitingForHeader
    else if IsProtocolHeader(got) then WaitingForProtocolHeader
    else WaitingForBody
  }

  function TargetOf(got: seq<byte>): nat {
    if |got| < HEADER_SIZE then HEADER_SIZE
    else if IsProtocolHeader(got) then 8
    else (U32(got, 3) + HEADER_SIZE + FOOTER_SIZE) % 0x1_0000_0000
  }

  class Connection {
    const frameMax: nat
    const framePool: Pool
    const outbound: array<byte>
    const sockBuffer: array<byte>
    const queue: FrameQueue<Decoded>

    var state: State
    var inbound: Option<Region>
    var inboundOffset: nat
    var targetSize: nat

    var sockOffset: nat
    var sockLimit: nat

    // The environment: what the reads to come will deliver, what read returns after that (0 at the end of
    // the stream, a negative number on an error), and all that was written.
    var incoming: seq<seq<byte>>
    const lastRead: int
    var sent: seq<byte>

    // The input error that the connection has run into, if any: the octets that caused it stay where they are,
    // and every later read meets them again.
    ghost var broken: Option<Error>

    // For each queued frame: which live block of the pool it leads into, and the octets it was decoded from.
    ghost var slots: seq<nat>
    ghost var images: seq<seq<byte>>

    // The octets held of an incomplete frame.
    ghost function Got(): seq<byte>
      reads `inbound, `inboundOffset, if inbound.Some? then {inbound.value.block} else {}
    {
      if inbound.Some? && inbound.value.start + inboundOffset <= inbound.value.block.Length
      then Octets(inbound.value, inboundOffset) else []
    }

    ghost predicate Owns()
      reads framePool
    {
      && framePool.Valid() && framePool.pageSize == frameMax
      && 8 <= frameMax <= MAX_LENGTH && outbound.Length == frameMax
      && outbound != sockBuffer && outbound !in framePool.blocks && sockBuffer !in framePool.blocks
    }

    ghost predicate SocketReady()
      reads `sockOffset, `sockLimit, `incoming
    {
      && sockOffset <= sockLimit <= sockBuffer.Length
      && (forall i :: 0 <= i < |incoming| ==> 0 < |incoming[i]| <= sockBuffer.Length)
    }

    // The inbound block is the youngest block of the pool.
    ghost predicate InboundHeld()
      reads `inbound, `inboundOffset, framePool
    {
      && (inbound.Some? ==>
            && framePool.live != [] && inbound.value == framePool.live[|framePool.live| - 1]
            && inbound.value.len == frameMax && inbound.value.start + frameMax <= inbound.value.block.Length
            && inbound.value.block in framePool.blocks)
      && inboundOffset <= frameMax && (inbound.None? ==> inboundOffset == 0)
    }

    // The comment on top of amqp_private.h: IDLE means no inbound block, and every state says what has been seen.
    ghost predicate Reading()
      reads `state, `targetSize, `inbound, `inboundOffset, if inbound.Some? then {inbound.value.block} else {}
    {
      && (state == Idle <==> inbound.None?)
      && state == StateOf(Got()) && targetSize == TargetOf(Got())
      && Scan(frameMax, Got()).Incomplete?
    }

    // What the reader makes of its block when it is complete.
    function Decode(b: seq<byte>): Result<Option<Frame>>
      requires |b| >= HEADER_SIZE + FOOTER_SIZE
      reads `state
    {
      if state == WaitingForBody then DecodeBlock(b) else ProtocolBlock(b)
    }

    // The reader answers this error to every read of at least so many octets, and changes nothing.
    ghost predicate Jammed(e: Error, n: nat)
      reads `state, `targetSize, `inbound, `inboundOffset, if inbound.Some? then {inbound.value.block} else {}
    {
      && inbound.Some? && (state == WaitingForBody || state == WaitingForProtocolHeader)
      && HEADER_SIZE <= inboundOffset == |Got()|
      && if targetSize <= HEADER_SIZE then e == EWRAP
         else if inboundOffset < targetSize then e == EFAULT && inboundOffset + n > frameMax && targetSize > frameMax
         else inboundOffset == targetSize && Decode(Got()) == Err(e)
    }

    ghost predicate Reader(n: nat)
      reads `broken, `state, `targetSize, `inbound, `inboundOffset, if inbound.Some? then {inbound.value.block} else {}
    {
      if broken.None? then Reading() else Jammed(broken.value, n)
    }

    // The live blocks that the reader will not write to any more.
    ghost function SettledCount(): int
      reads `inbound, framePool
    {
      |framePool.live| - if inbound.Some? then 1 else 0
    }

    // What a queued frame leads into is a settled block, and still holds what the frame was decoded from.
    ghost predicate Entry(slot: nat, image: seq<byte>, d: Decoded)
      reads `inbound, framePool, d.block.block
    {
      && slot < SettledCount() && d.block == framePool.live[slot]
      && |image| <= d.block.len && d.block.start + |image| <= d.block.block.Length
      && Octets(d.block, |image|) == image
      && Scan(frameMax, image) == Item(|image|, Some(d.frame))
    }

    ghost predicate QueueHeld()
      reads `slots, `images, `inbound, framePool, queue, queue.links, framePool.blocks
    {
      && queue.Valid()
      && |slots| == |images| == |queue.Contents()|
      && (forall k :: 0 <= k < |slots| ==>
            queue.Contents()[k].block.block in framePool.blocks && Entry(slots[k], images[k], queue.Contents()[k]))
    }

    ghost predicate Holding()
      reads `slots, `images, `inbound, `inboundOffset, framePool, queue, queue.links, framePool.blocks
    {
      Owns() && InboundHeld() && QueueHeld()
    }

    ghost predicate Valid()
      reads this, framePool, queue, queue.links, framePool.blocks
    {
      && Holding() && SocketReady() && Reader(sockLimit - sockOffset)
      && (broken.Some? ==> sockOffset < sockLimit)
    }

    /** amqp_new_connection, with the frame size of amqp_tune_connection. */
    constructor (max: nat, sockSize: nat, arrivals: seq<seq<byte>>, status: int)
      requires 8 <= max <= MAX_LENGTH && sockSize > 0
      requires forall i :: 0 <= i < |arrivals| ==> 0 < |arrivals[i]| <= sockSize
      ensures Valid() && frameMax == max && Pending() == Flatten(arrivals) && queue.Contents() == [] && sent == []
      ensures broken == None && lastRead == status && framePool.blocks == {} && queue.links == []
      ensures fresh(framePool) && fresh(outbound) && fresh(sockBuffer) && fresh(queue)
    {
      hide Scan, Flatten, Pool.Valid, Pool.Abs, FrameQueue.Valid, FrameQueue.Contents, Valid, Pending;
      frameMax := max;
      framePool := new Pool(max);
      outbound := new byte[max](_ => 0);
      sockBuffer := new byte[sockSize](_ => 0);
      queue := new FrameQueue();
      state, inbound, inboundOffset, targetSize := Idle, None, 0, HEADER_SIZE;
      sockOffset, sockLimit, incoming, sent := 0, 0, arrivals, [];
      lastRead := status;
      slots, images, broken := [], [], None;
      new;
      NothingYet();
    }

    // The fields of a new connection.
    lemma NothingYet()
      requires framePool.Valid() && framePool.live == [] && framePool.blocks == {} && framePool.pageSize == frameMax
      requires 8 <= frameMax <= MAX_LENGTH && outbound.Length == frameMax && outbound != sockBuffer
      requires queue.Valid() && queue.links == [] && slots == [] && images == [] && broken == None
      requires state == Idle && inbound == None && inboundOffset == 0 && targetSize == HEADER_SIZE
      requires sockOffset == sockLimit == 0
      requires forall i :: 0 <= i < |incoming| ==> 0 < |incoming[i]| <= sockBuffer.Length
      ensures Valid() && Pending() == Flatten(incoming) && queue.Contents() == []
    {
      hide Scan, StateOf, TargetOf, Pool.Valid, Pool.Abs, Flatten;
      NothingHeld(frameMax);
      assert [] + [] + Flatten(incoming) == Flatten(incoming);
    }

    // A frame starts: a block for it, with nothing in it yet.
    method Begin()
      requires Holding() && Reading() && state == Idle
      modifies `inbound, `state, framePool
      ensures Holding() && inbound.Some? && Got() == [] && inboundOffset == 0
      ensures state == WaitingForHeader
      ensures forall b :: b in framePool.blocks ==> b in old(framePool.blocks) || fresh(b)
      ensures queue.Contents() == old(queue.Contents())
    {
      hide Scan, StateOf, TargetOf, Pool.Valid, Pool.Abs, FrameQueue.Valid, FrameQueue.Contents;
      inbound := framePool.Alloc(frameMax);
      state := WaitingForHeader;
    }

    lemma PoolIsValid()
      requires Owns()
      ensures framePool.Valid()
    {
    }

    lemma QueueApart(k: nat)
      requires Holding() && inbound.Some? && k < |slots|
      ensures Apart(queue.Contents()[k].block, inbound.value)
    {
      hide Owns, Scan, Pool.Valid, FrameQueue.Valid, FrameQueue.Contents;
      PoolIsValid();
      framePool.LiveApart(slots[k], |framePool.live| - 1);
    }

    // E_BYTES into the inbound block.
    method Store(chunk: seq<byte>)
      requires Holding() && inbound.Some? && inboundOffset + |chunk| <= frameMax
      modifies `inboundOffset, inbound.value.block
      ensures Holding() && Got() == old(Got()) + chunk && inboundOffset == old(inboundOffset) + |chunk|
    {
      hide Owns, SocketReady, Scan, StateOf, TargetOf, Pool.Valid, FrameQueue.Valid, FrameQueue.Contents;
      ghost var before, held := Got(), queue.Contents();
      forall k | 0 <= k < |slots| ensures Entry(slots[k], images[k], held[k]) && Apart(held[k].block, inbound.value) {
        QueueApart(k);
      }
      CopyInto(inbound.value.block, inbound.value.start + inboundOffset, chunk);
      inboundOffset := inboundOffset + |chunk|;
      assert Got() == before + chunk;
      forall k | 0 <= k < |slots| ensures Entry(slots[k], images[k], held[k]) {
        assert Octets(held[k].block, |images[k]|) == images[k];
      }
    }

    // A block that the reader has left behind, and the octets in it.
    ghost predicate Settled(block: Region, image: seq<byte>)
      reads `inbound, framePool, block.block
    {
      && inbound == None && framePool.live != [] && block == framePool.live[|framePool.live| - 1]
      && block.block in framePool.blocks && |image| <= block.len
      && block.start + |image| <= block.block.Length && Octets(block, |image|) == image
    }

    // The frame is complete: decode it and give the block up (return_to_idle). An error leaves everything in place.
    method Complete() returns (r: Result<Option<Frame>>)
      requires Holding() && inbound.Some? && |Got()| == inboundOffset == targetSize
      requires state == WaitingForBody || state == WaitingForProtocolHeader
      requires targetSize >= HEADER_SIZE + FOOTER_SIZE
      modifies `state, `inbound, `inboundOffset, `targetSize
      ensures r == old(Decode(Got())) && Holding()
      ensures r.Ok? ==> Reading() && Got() == [] && Settled(old(inbound.value), old(Got()))
      ensures r.Err? ==> Got() == old(Got()) && forall n :: Jammed(r.error, n)
    {
      hide Owns, Scan, DecodeBlock, U32, StateOf, TargetOf, Pool.Valid, FrameQueue.Valid, FrameQueue.Contents;
      var block := inbound.value.block[inbound.value.start..inbound.value.start + targetSize];
      assert block == Got();
      r := Decode(block);
      if r.Ok? {
        NothingHeld(frameMax);
        inbound, inboundOffset, targetSize, state := None, 0, HEADER_SIZE, Idle;
      }
    }

    // The frame was decoded from a settled block of the pool, whose octets are the image.
    ghost predicate CanQueue(d: Decoded, image: seq<byte>)
      reads `inbound, framePool, d.block.block
    {
      Settled(d.block, image) && Scan(frameMax, image) == Item(|image|, Some(d.frame))
    }

    /** amqp_handle_input: what Feed says about the octets held and the data received. After an error the queued
        frames are what they were, and the same data meets the same error again. */
    method HandleInput(data: seq<byte>) returns (r: Result<nat>, d: Option<Decoded>, ghost image: seq<byte>)
      requires Holding() && SocketReady() && Reader(|data|) && (broken.Some? ==> data != [])
      modifies `state, `inbound, `inboundOffset, `targetSize, framePool, framePool.blocks
      ensures forall b :: b in framePool.blocks ==> b in old(framePool.blocks) || fresh(b)
      ensures Holding() && (r.Err? ==> Jammed(r.error, |data|))
      ensures broken.Some? ==> r == Err(broken.value)
      ensures broken.None? ==>
                var fed := Feed(frameMax, old(Got()), data);
                if fed.Broken? then r == Err(fed.error)
                else r == Ok(fed.consumed) && Reading() && Got() == fed.got &&
                     (d.None? <==> fed.frame.None?) && (d.Some? ==> d.value.frame == fed.frame.value)
      ensures r.Ok? && d.Some? ==> CanQueue(d.value, image)
    {
      hide Scan, StateOf, TargetOf, Feed, Holding, Reading, Jammed, CanQueue, Got;
      ghost var held := Got();
      if broken.None? {
        NothingComplete();
        FeedIs(frameMax, held, data);
      }
      var rest, total := data, 0;
      d, image := None, [];
      while rest != []
        invariant Holding() && SocketReady() && total + |rest| == |data| && d == None
        invariant if broken.None? then Reading() && Got() + rest == held + data else rest == data && Jammed(broken.value, |rest|)
        invariant forall b :: b in framePool.blocks ==> b in old(framePool.blocks) || fresh(b)
        decreases |rest|
      {
        var n, done;
        n, done, d, image := Advance(rest);
        if n.Err? {
          JammedMore(n.error, |rest|, |data|);
          return n, None, [];
        }
        total := total + n.value;
        if done { return Ok(total), d, image; }
        rest := rest[n.value..];
      }
      assert Got() == held + data;
      NothingComplete();
      r := Ok(total);
    }

    lemma NothingComplete()
      requires Reading()
      ensures Scan(frameMax, Got()).Incomplete?
    {
    }

    lemma JammedMore(e: Error, n: nat, m: nat)
      requires Jammed(e, n) && n <= m
      ensures Jammed(e, m)
    {
    }

    // One round of read_more: as much of the data as the awaited size allows, and then the switch on the state.
    method Advance(rest: seq<byte>)
      returns (n: Result<nat>, done: bool, d: Option<Decoded>, ghost image: seq<byte>)
      requires Holding() && SocketReady() && Reader(|rest|) && rest != []
      modifies `state, `inbound, `inboundOffset, `targetSize, framePool, framePool.blocks
      ensures forall b :: b in framePool.blocks ==> b in old(framePool.blocks) || fresh(b)
      ensures Holding() && (n.Err? ==> Jammed(n.error, |rest|))
      ensures broken.Some? ==> n == Err(broken.value)
      ensures broken.None? ==> Advanced(frameMax, old(Got()), rest, Got(), n, done, d)
      ensures broken.None? && n.Ok? ==> Reading()
      ensures n.Ok? && d.Some? ==> CanQueue(d.value, image)
    {
      hide Scan, DecodeBlock, StateOf, TargetOf, Holding, Reading, SocketReady, CanQueue, Got, Pool.Valid, Advanced;
      d, image, done := None, [], true;
      ghost var got := Got();
      InboundIs();
      if broken.None? { SizeLeft(); }
      if inboundOffset >= HEADER_SIZE && targetSize <= HEADER_SIZE {
        if broken.None? { StepRefused(frameMax, got, got + rest); Refused(got, rest, EWRAP); }
        return Err(EWRAP), done, d, image;
      }
      var k := if |rest| < targetSize - inboundOffset then |rest| else targetSize - inboundOffset;
      if inboundOffset + k > frameMax {
        if broken.None? { StepRefused(frameMax, got, got + rest); Refused(got, rest, EFAULT); }
        return Err(EFAULT), done, d, image;
      }
      if state == Idle {
        Begin();
      }
      InboundIs();
      Store(rest[..k]);
      assert k == 0 ==> Got() == got;
      n, done, d, image := Switch(got, rest, k);
    }

    // The switch on the state, after k octets were stored behind those held before.
    method Switch(ghost got: seq<byte>, rest: seq<byte>, k: nat)
      returns (n: Result<nat>, done: bool, d: Option<Decoded>, ghost image: seq<byte>)
      requires Holding() && inbound.Some? && k <= |rest| && Got() == got + rest[..k] && |Got()| == inboundOffset
      requires broken.None? ==> OnItsWay(got, rest, k)
      requires broken.Some? ==> Jammed(broken.value, |rest|) && targetSize > HEADER_SIZE && inboundOffset == targetSize
      modifies `state, `inbound, `inboundOffset, `targetSize
      ensures Holding() && (n.Err? ==> Jammed(n.error, |rest|))
      ensures broken.Some? ==> n == Err(broken.value)
      ensures broken.None? ==> Advanced(frameMax, got, rest, Got(), n, done, d)
      ensures broken.None? && n.Ok? ==> Reading()
      ensures n.Ok? && d.Some? ==> CanQueue(d.value, image)
    {
      hide Scan, DecodeBlock, StateOf, TargetOf, Holding, Reading, CanQueue, Got, Pool.Valid;
      ghost var w := Got();
      assert w + rest[k..] == got + rest;
      ScanStable(frameMax, w, rest[k..]);
      n, done, d, image := Ok(k), true, None, [];
      if inboundOffset < targetSize {
        StepShort(frameMax, got, w);
        StateOfSome(w);
        IsReading();
        assert w == got + rest;
      } else if state == WaitingForHeader {
        StepShort(frameMax, got, w);
        ReadHeader();
        done := false;
      } else {
        if broken.None? { StepFull(frameMax, got, w); }
        var block := inbound.value;
        var f := Complete();
        if f.Err? { return Err(f.error), done, d, image; }
        if f.value.Some? {
          d, image := Some(Decoded(f.value.value, block)), w;
          IsQueueable(d.value, w);
        }
      }
    }

    // The octets stored are a step of the reader that the state and the size it waits for still describe.
    ghost predicate OnItsWay(got: seq<byte>, rest: seq<byte>, k: nat)
      requires k <= |rest|
      reads `state, `targetSize, `inboundOffset
    {
      && InStep(frameMax, got, got + rest[..k]) && inboundOffset == |got| + k <= targetSize == TargetOf(got)
      && state == (if got == [] then WaitingForHeader else StateOf(got)) && (inboundOffset < targetSize ==> k == |rest|)
      && if |got| < HEADER_SIZE then state == WaitingForHeader && targetSize == HEADER_SIZE
         else (state == WaitingForBody || state == WaitingForProtocolHeader) && targetSize > HEADER_SIZE
    }

    lemma Refused(got: seq<byte>, rest: seq<byte>, e: Error)
      requires Scan(frameMax, got + rest) == Bad(e)
      ensures Advanced(frameMax, got, rest, got, Err(e), true, None)
    {
    }

    lemma InboundIs()
      requires Holding()
      ensures inbound.Some? ==> inbound.value.block in framePool.blocks && inbound.value.start + frameMax <= inbound.value.block.Length
      ensures outbound != sockBuffer && outbound !in framePool.blocks && sockBuffer !in framePool.blocks
      ensures inboundOffset <= frameMax && outbound.Length == frameMax && 8 <= frameMax <= MAX_LENGTH
    {
    }

    // The header is complete: it announces how much there is to come.
    method ReadHeader()
      requires Holding() && inbound.Some? && state == WaitingForHeader && |Got()| == inboundOffset == HEADER_SIZE
      requires Scan(frameMax, Got()).Incomplete?
      modifies `state, `targetSize
      ensures Holding() && Reading() && Got() == old(Got())
    {
      hide Scan, Owns, QueueHeld;
      var header := inbound.value.block[inbound.value.start..inbound.value.start + HEADER_SIZE];
      assert header == Got();
      if IsProtocolHeader(header) {
        targetSize, state := 8, WaitingForProtocolHeader;
      } else {
        targetSize, state := (U32(header, 3) + HEADER_SIZE + FOOTER_SIZE) % 0x1_0000_0000, WaitingForBody;
      }
    }

    lemma GotSize()
      requires Holding()
      ensures |Got()| == inboundOffset
    {
      hide Owns, QueueHeld, Scan;
    }

    lemma IsReading()
      requires inbound.Some? && Scan(frameMax, Got()).Incomplete?
      requires state == StateOf(Got()) != Idle && targetSize == TargetOf(Got())
      ensures Reading()
    {
    }

    lemma IsQueueable(d: Decoded, image: seq<byte>)
      requires Settled(d.block, image) && Scan(frameMax, image) == Item(|image|, Some(d.frame))
      ensures CanQueue(d, image)
    {
    }

    // Something is always missing, unless the announced size wrapped around.
    lemma SizeLeft()
      requires Holding() && Reading()
      ensures |Got()| == inboundOffset && Scan(frameMax, Got()).Incomplete?
      ensures state == StateOf(Got()) && targetSize == TargetOf(Got()) && (state == Idle ==> Got() == [])
      ensures inbound.Some? <==> state != Idle
      ensures inboundOffset < HEADER_SIZE ==> targetSize == HEADER_SIZE && (state == Idle || state == WaitingForHeader)
      ensures inboundOffset >= HEADER_SIZE && targetSize > HEADER_SIZE ==> inboundOffset < targetSize
      ensures inboundOffset >= HEADER_SIZE ==> state == WaitingForBody || state == WaitingForProtocolHeader
      ensures frameMax >= 8
    {
      hide QueueHeld, DecodeBlock;
      GotSize();
    }

    // Everything that has arrived or will arrive and has not been delivered as a frame.
    ghost function Pending(): seq<byte>
      reads `inbound, `inboundOffset, `sockOffset, `sockLimit, `incoming, sockBuffer
      reads if inbound.Some? then {inbound.value.block} else {}
      requires SocketReady()
    {
      Got() + sockBuffer[sockOffset..sockLimit] + Flatten(incoming)
    }

    method Fill(chunk: seq<byte>)
      requires |chunk| <= sockBuffer.Length
      modifies sockBuffer
      ensures sockBuffer[..|chunk|] == chunk
    {
      forall i | 0 <= i < |chunk| {
        sockBuffer[i] := chunk[i];
      }
    }

    // read into sock_inbound_buffer.
    method Read()
      requires Valid() && sockOffset == sockLimit && incoming != []
      modifies `sockOffset, `sockLimit, `incoming, sockBuffer
      ensures Valid() && Pending() == old(Pending()) && |incoming| == |old(incoming)| - 1
    {
      hide Scan, Holding, Reading, Jammed, Pool.Valid, Got, Flatten;
      InboundIs();
      var chunk, later := incoming[0], incoming[1..];
      NextChunk(Got(), incoming);
      Fill(chunk);
      sockOffset, sockLimit, incoming := 0, |chunk|, later;
      assert sockBuffer[sockOffset..sockLimit] == chunk;
    }

    // What the next wait for a frame of the stream comes to.
    ghost function Upcoming(): Next
      reads `inbound, `inboundOffset, `sockOffset, `sockLimit, `incoming, `broken, sockBuffer
      reads if inbound.Some? then {inbound.value.block} else {}
      requires SocketReady()
    {
      if broken.Some? then Failed(broken.value) else NextFrame(frameMax, Pending())
    }

    // One turn of the inner loop: the reader on what the socket buffer still holds.
    method Poll() returns (r: Result<Option<Decoded>>, ghost image: seq<byte>)
      requires Valid() && sockOffset < sockLimit
      modifies `state, `inbound, `inboundOffset, `targetSize, `sockOffset, `broken, framePool, framePool.blocks
      ensures forall b :: b in framePool.blocks ==> b in old(framePool.blocks) || fresh(b)
      ensures Valid() && (broken.Some? <==> r.Err?)
      ensures r.Err? ==> old(Upcoming()) == Failed(r.error) && broken == Some(r.error)
      ensures r.Ok? ==> sockOffset > old(sockOffset)
      ensures r == Ok(None) ==> old(Upcoming()) == Upcoming()
      ensures r.Ok? && r.value.Some? ==> old(Upcoming()) == Next.Got(r.value.value.frame, Pending()) && CanQueue(r.value.value, image)
    {
      hide Scan, Feed, NextFrame, Holding, Reading, Jammed, Flatten, Pool.Valid, Got, CanQueue, Settled, Valid, Reader;
      ReaderIs();
      InboundIs();
      ghost var got, later := Got(), Flatten(incoming);
      var buffer := sockBuffer[sockOffset..sockLimit];
      if broken.None? {
        NothingComplete();
        FeedFacts(frameMax, got, buffer, later);
      }
      var result, d;
      result, d, image := HandleInput(buffer);
      if result.Err? {
        InboundIs();
        broken := Some(result.error);
        ReaderJammed(result.error);
        return Err(result.error), [];
      }
      Consume(result.value, d, image);
      r := Ok(d);
    }

    lemma ReaderIs()
      requires Valid()
      ensures Holding() && SocketReady() && Reader(sockLimit - sockOffset) && (broken.None? ==> Reading())
    {
    }

    lemma ReaderJammed(e: Error)
      requires Holding() && SocketReady() && sockOffset < sockLimit && Jammed(e, sockLimit - sockOffset) && broken == Some(e)
      ensures Valid()
    {
    }

    // sock_inbound_offset moves on; a frame that has just been decoded is not touched.
    method Consume(n: nat, ghost d: Option<Decoded>, ghost image: seq<byte>)
      requires Holding() && Reading() && SocketReady() && broken.None? && sockOffset + n <= sockLimit
      requires d.Some? ==> CanQueue(d.value, image)
      modifies `sockOffset
      ensures Valid() && sockOffset == old(sockOffset) + n && (d.Some? ==> CanQueue(d.value, image))
      ensures Pending() == Got() + old(sockBuffer[sockOffset..sockLimit])[n..] + Flatten(incoming)
      ensures Got() == old(Got())
    {
      hide Scan, Holding, Reading, Flatten, Got;
      InboundIs();
      ghost var buffer := sockBuffer[sockOffset..sockLimit];
      sockOffset := sockOffset + n;
      assert sockBuffer[sockOffset..sockLimit] == buffer[n..];
    }

    /** wait_frame_inner: the next frame of the stream, wherever the reads cut it; an error stays. */
    method WaitFrame() returns (r: Waited, ghost image: seq<byte>)
      requires Valid()
      modifies `state, `inbound, `inboundOffset, `targetSize, `sockOffset, `sockLimit, `incoming, `broken
      modifies sockBuffer, framePool, framePool.blocks
      ensures forall b :: b in framePool.blocks ==> b in old(framePool.blocks) || fresh(b)
      ensures Valid()
      ensures var next := old(Upcoming());
              if next.Failed? then r == Failure(next.error) && broken == Some(next.error)
              else broken == None && Pending() == next.rest &&
                   if next.Got? then r.Arrived? && r.d.frame == next.frame && CanQueue(r.d, image)
                   else r == HungUp(lastRead)
    {
      hide Scan, NextFrame, Holding, Reading, Jammed, CanQueue, Pool.Valid, Got;
      ghost var next := Upcoming();
      image := [];
      while true
        invariant Valid() && Upcoming() == next
        invariant forall b :: b in framePool.blocks ==> b in old(framePool.blocks) || fresh(b)
        decreases |incoming|
      {
        ghost var toRead := |incoming|;
        while sockOffset < sockLimit
          invariant |incoming| == toRead
          invariant Valid() && Upcoming() == next
          invariant forall b :: b in framePool.blocks ==> b in old(framePool.blocks) || fresh(b)
          decreases sockLimit - sockOffset
        {
          var result;
          result, image := Poll();
          if result.Err? { return Failure(result.error), []; }
          if result.value.Some? { return Arrived(result.value.value), image; }
        }
        if incoming == [] {
          NothingComplete();
          assert Pending() == Got();
          StarvedNow(frameMax, Got());
          return HungUp(lastRead), [];
        }
        Read();
      }
    }

    /// The queue

    // The frames put aside, oldest first.
    ghost function Queued(): seq<Frame>
      reads queue, queue.links
    {
      FramesOf(queue.Contents())
    }

    // The frames put aside, and the stream that will be read; a broken one brings nothing any more.
    ghost function Outline(): Session
      reads `inbound, `inboundOffset, `sockOffset, `sockLimit, `incoming, `broken, sockBuffer, queue, queue.links
      reads if inbound.Some? then {inbound.value.block} else {}
      requires SocketReady()
    {
      Session(Queued(), if broken.Some? then [] else Pending())
    }

    // The frame goes to the end of the queue.
    method LinkLast(d: Decoded, ghost image: seq<byte>)
      requires Holding() && CanQueue(d, image)
      modifies `slots, `images, queue, queue.links
      ensures Holding() && queue.Contents() == old(queue.Contents()) + [d] && images == old(images) + [image]
      ensures forall i :: 0 <= i < |queue.links| ==> queue.links[i] in old(queue.links) || fresh(queue.links[i])
    {
      hide Scan, Owns, Pool.Valid, FrameQueue.Valid, FrameQueue.Contents, Got;
      queue.Enqueue(d);
      slots, images := slots + [|framePool.live| - 1], images + [image];
    }

    // The enqueueing branch of amqp_simple_rpc, right after the frame was decoded.
    method PutAside(d: Decoded, ghost image: seq<byte>)
      requires Valid() && CanQueue(d, image)
      modifies `slots, `images, queue, queue.links
      ensures Valid() && queue.Contents() == old(queue.Contents()) + [d] && images == old(images) + [image]
      ensures Upcoming() == old(Upcoming()) && Pending() == old(Pending())
      ensures forall i :: 0 <= i < |queue.links| ==> queue.links[i] in old(queue.links) || fresh(queue.links[i])
    {
      hide Scan, Reader, Holding, FrameQueue.Contents, Got, CanQueue;
      InboundIs();
      LinkLast(d, image);
    }

    // The first frame leaves the queue; the others keep their octets.
    method Unlink() returns (d: Decoded, ghost image: seq<byte>)
      requires Holding() && queue.Contents() != []
      modifies `slots, `images, queue
      ensures forall i :: 0 <= i < |queue.links| ==> queue.links[i] in old(queue.links)
      ensures Holding() && d == old(queue.Contents())[0] && image == old(images)[0]
      ensures queue.Contents() == old(queue.Contents())[1..] && images == old(images)[1..]
      ensures d.block.start + |image| <= d.block.block.Length && Octets(d.block, |image|) == image
      ensures Scan(frameMax, image) == Item(|image|, Some(d.frame))
    {
      hide Scan, Owns, InboundHeld, Pool.Valid, FrameQueue.Valid, FrameQueue.Contents, Got;
      InboundIs();
      ghost var before := queue.Contents();
      image := images[0];
      d := queue.Dequeue();
      assert before[0] == d && before[1..] == queue.Contents();
      slots, images := slots[1..], images[1..];
    }

    // The dequeueing branch of amqp_simple_wait_frame.
    method TakeQueued() returns (d: Decoded, ghost image: seq<byte>)
      requires Valid() && queue.Contents() != []
      modifies `slots, `images, queue
      ensures forall i :: 0 <= i < |queue.links| ==> queue.links[i] in old(queue.links)
      ensures Valid() && d == old(queue.Contents())[0] && image == old(images)[0]
      ensures queue.Contents() == old(queue.Contents())[1..] && images == old(images)[1..]
      ensures Upcoming() == old(Upcoming()) && Pending() == old(Pending())
      ensures d.block.start + |image| <= d.block.block.Length && Octets(d.block, |image|) == image
      ensures Scan(frameMax, image) == Item(|image|, Some(d.frame))
    {
      hide Scan, Reader, Holding, FrameQueue.Contents, Got;
      InboundIs();
      d, image := Unlink();
    }

    /** amqp_simple_wait_frame: the oldest frame put aside, with its octets as they arrived, or the next of the stream.
        A stream that is broken does not get in the way of the frames put aside. */
    method SimpleWaitFrame() returns (r: Waited, ghost image: seq<byte>)
      requires Valid()
      modifies `state, `inbound, `inboundOffset, `targetSize, `sockOffset, `sockLimit, `incoming, `slots, `images, `broken
      modifies sockBuffer, framePool, framePool.blocks, queue
      ensures forall b :: b in framePool.blocks ==> b in old(framePool.blocks) || fresh(b)
      ensures forall i :: 0 <= i < |queue.links| ==> queue.links[i] in old(queue.links)
      ensures Valid()
      ensures old(queue.Contents()) != [] ==>
                && Pending() == old(Pending()) && broken == old(broken) && r == Arrived(old(queue.Contents())[0])
                && queue.Contents() == old(queue.Contents())[1..] && images == old(images)[1..]
                && image == old(images)[0] && r.d.block.start + |image| <= r.d.block.block.Length
                && Octets(r.d.block, |image|) == image && Scan(frameMax, image) == Item(|image|, Some(r.d.frame))
      ensures var next := old(Upcoming());
              old(queue.Contents()) == [] ==>
                queue.Contents() == [] && images == old(images) &&
                if next.Failed? then r == Failure(next.error) && broken == Some(next.error)
                else broken == None && Pending() == next.rest &&
                     if next.Got? then r.Arrived? && r.d.frame == next.frame && CanQueue(r.d, image)
                     else r == HungUp(lastRead)
      ensures (Outline(), FrameOf(r)) == Step(frameMax, old(Outline()), Wait)
    {
      hide Scan, NextFrame, Holding, Reader, SocketReady, Got, CanQueue, FrameQueue.Valid, FrameQueue.Contents, Step, Pending;
      QueueIs();
      ghost var before := Outline();
      WaitIsStep(frameMax, before, broken, Upcoming());
      if queue.first != null {
        var d;
        d, image := TakeQueued();
        r := Arrived(d);
        assert Queued() == before.queued[1..] && d.frame == before.queued[0];
      } else {
        r, image := WaitFrame();
        assert Queued() == before.queued == [];
      }
    }

    lemma QueueIs()
      requires Valid()
      ensures queue.Valid() && (queue.first == null <==> queue.Contents() == []) && |images| == |queue.Contents()|
    {
      hide Scan, Owns, Reader;
    }

    // Every queued frame still has the octets that it was decoded from.
    lemma QueueStands(k: nat)
      requires Valid() && k < |queue.Contents()|
      ensures |images| == |queue.Contents()|
      ensures var block := queue.Contents()[k].block;
              && block.start + |images[k]| <= block.block.Length && Octets(block, |images[k]|) == images[k]
              && Scan(frameMax, images[k]) == Item(|images[k]|, Some(queue.Contents()[k].frame))
    {
      hide Scan, Owns, Reader, InboundHeld;
      assert Entry(slots[k], images[k], queue.Contents()[k]);
    }

    /** amqp_maybe_release_buffers: the pool is recycled only when nothing can lead into it. */
    method MaybeReleaseBuffers() returns (released: bool)
      requires Valid()
      modifies framePool
      ensures framePool.blocks == old(framePool.blocks)
      ensures Valid() && released == (inbound == None && queue.Contents() == [])
      ensures queue.Contents() == old(queue.Contents()) && images == old(images) && Outline() == old(Outline())
      ensures if released then framePool.live == [] else framePool.live == old(framePool.live)
    {
      hide Scan, Pool.Valid;
      released := state == Idle && queue.first == null;
      if released {
        framePool.Recycle();
      }
    }

    // The next frame, and whether it is the reply.
    method WaitReply(channel: u16, replies: seq<u32>) returns (r: Waited, wanted: bool, ghost image: seq<byte>)
      requires Valid()
      modifies `state, `inbound, `inboundOffset, `targetSize, `sockOffset, `sockLimit, `incoming, `broken
      modifies sockBuffer, framePool, framePool.blocks
      ensures forall b :: b in framePool.blocks ==> b in old(framePool.blocks) || fresh(b)
      ensures Valid()
      ensures var next := old(Upcoming());
              if next.Failed? then r == Failure(next.error) && broken == Some(next.error)
              else broken == None && Pending() == next.rest &&
                   if next.Got? then r.Arrived? && r.d.frame == next.frame && CanQueue(r.d, image)
                   else r == HungUp(lastRead)
      ensures r.Arrived? ==> (wanted <==> IsReply(r.d.frame, channel, replies))
    {
      hide Scan, NextFrame, Holding, Reader, SocketReady, Got, IsReply, Pool.Valid;
      r, image := WaitFrame();
      wanted := false;
      if r.Arrived? {
        wanted := TestReply(r.d.frame, channel, replies);
      }
    }

    // What a call comes to that starts to wait now.
    ghost function Awaiting(channel: u16, replies: seq<u32>): Awaited
      reads `inbound, `inboundOffset, `sockOffset, `sockLimit, `incoming, `broken, sockBuffer
      reads if inbound.Some? then {inbound.value.block} else {}
      requires SocketReady()
    {
      if broken.Some? then Lost([], broken.value) else Await(frameMax, Pending(), channel, replies)
    }

    // From retry to the next retry: the frame is the reply, or it is put aside.
    method Retry(channel: u16, replies: seq<u32>) returns (r: Waited, over: bool)
      requires Valid()
      modifies `state, `inbound, `inboundOffset, `targetSize, `sockOffset, `sockLimit, `incoming, `slots, `images, `broken
      modifies sockBuffer, framePool, framePool.blocks, queue, queue.links
      ensures forall b :: b in framePool.blocks ==> b in old(framePool.blocks) || fresh(b)
      ensures forall i :: 0 <= i < |queue.links| ==> queue.links[i] in old(queue.links) || fresh(queue.links[i])
      ensures Valid() && old(images) <= images
      ensures over ==> Queued() == old(Queued()) && Finished(old(Awaiting(channel, replies)), r) &&
                       old(Awaiting(channel, replies)).skipped == []
      ensures !over ==>
                && r.Arrived? && Queued() == old(Queued()) + [r.d.frame] && |Pending()| < |old(Pending())|
                && old(Awaiting(channel, replies)) == Skip(r.d.frame, Awaiting(channel, replies))
    {
      hide Scan, NextFrame, Await, Holding, Reader, SocketReady, Got, CanQueue, FrameQueue.Valid, FrameQueue.Contents, IsReply,
        Pending;
      AwaitingIs(channel, replies);
      ghost var image;
      var wanted;
      r, wanted, image := WaitReply(channel, replies);
      over := !r.Arrived? || wanted;
      if !over {
        PutAside(r.d, image);
        AwaitingIs(channel, replies);
      }
    }

    // The call has come to this end.
    ghost predicate Finished(a: Awaited, r: Waited)
      reads `inbound, `inboundOffset, `sockOffset, `sockLimit, `incoming, `broken, sockBuffer
      reads if inbound.Some? then {inbound.value.block} else {}
      requires SocketReady()
    {
      if a.Lost? then r == Failure(a.error) && broken == Some(a.error)
      else broken == None && Pending() == a.rest && if a.Reply? then r.Arrived? && r.d.frame == a.reply else r == HungUp(lastRead)
    }

    /** amqp_simple_rpc from the reading of the first frame on: other frames are put aside until the reply comes. */
    method AwaitReply(channel: u16, replies: seq<u32>) returns (r: Waited)
      requires Valid()
      modifies `state, `inbound, `inboundOffset, `targetSize, `sockOffset, `sockLimit, `incoming, `slots, `images, `broken
      modifies sockBuffer, framePool, framePool.blocks, queue, queue.links
      ensures forall b :: b in framePool.blocks ==> b in old(framePool.blocks) || fresh(b)
      ensures forall i :: 0 <= i < |queue.links| ==> queue.links[i] in old(queue.links) || fresh(queue.links[i])
      ensures Valid() && old(images) <= images
      ensures Queued() == old(Queued()) + old(Awaiting(channel, replies)).skipped
      ensures Finished(old(Awaiting(channel, replies)), r)
    {
      hide *;
      ReadyIs();
      ghost var aim := Awaiting(channel, replies);
      ghost var skipped := [];
      SkipAllIs([], aim);
      while true
        invariant Valid() && SocketReady() && old(images) <= images && Queued() == old(Queued()) + skipped
        invariant aim == SkipAll(skipped, Awaiting(channel, replies))
        invariant forall b :: b in framePool.blocks ==> b in old(framePool.blocks) || fresh(b)
        invariant forall i :: 0 <= i < |queue.links| ==> queue.links[i] in old(queue.links) || fresh(queue.links[i])
        decreases |Pending()|
      {
        ghost var now := Awaiting(channel, replies);
        SkipAllIs(skipped, now);
        var over;
        r, over := Retry(channel, replies);
        ReadyIs();
        if over {
          FinishedAll(skipped, now, r);
          return;
        }
        SkipOne(skipped, r.d.frame, Awaiting(channel, replies));
        skipped := skipped + [r.d.frame];
      }
    }

    lemma ReadyIs()
      requires Valid()
      ensures SocketReady()
    {
    }

    // The frames put aside do not change the end of the call.
    lemma FinishedAll(skipped: seq<Frame>, a: Awaited, r: Waited)
      requires SocketReady() && Finished(a, r)
      ensures Finished(SkipAll(skipped, a), r)
    {
    }

    // One frame of the call.
    lemma AwaitingIs(channel: u16, replies: seq<u32>)
      requires SocketReady()
      ensures broken.None? ==> Awaiting(channel, replies) == Await(frameMax, Pending(), channel, replies)
      ensures var next, a := Upcoming(), Awaiting(channel, replies);
              if next.Failed? then a == Lost([], next.error)
              else if next.Starved? then a == NoReply([], next.rest)
              else |next.rest| < |Pending()| &&
                   a == if IsReply(next.frame, channel, replies) then Reply([], next.frame, next.rest)
                        else Skip(next.frame, Await(frameMax, next.rest, channel, replies))
    {
      hide NextFrame, IsReply;
    }

    /// Sending

    /** amqp_send_frame_to with an output function that takes every octet. */
    method SendFrame(f: Frame) returns (r: Result<()>)
      requires Valid() && WellTypedFrame(f) && (f.BodyFrame? ==> |f.fragment| <= MAX_LENGTH)
      modifies outbound, `sent
      ensures Valid() && Pending() == old(Pending()) && Queued() == old(Queued()) && images == old(images)
      ensures r.Ok? <==> Fits(f, frameMax)
      ensures sent == old(sent) + Emitted(f, frameMax)
    {
      hide Scan, Holding, Reader, SocketReady, Got, Fits, FrameBytes, WellTypedFrame, FramesOf;
      InboundIs();
      var octets := WriteFrame(outbound, f);
      if octets.Err? { return Err(octets.error); }
      sent := sent + octets.value;
      r := Ok(());
    }

    /** amqp_simple_rpc. */
    method SimpleRpc(channel: u16, request: Method, replies: seq<u32>) returns (r: Outcome)
      requires Valid() && WellTyped(request)
      modifies `state, `inbound, `inboundOffset, `targetSize, `sockOffset, `sockLimit, `incoming, `slots, `images, `sent, `broken
      modifies sockBuffer, outbound, framePool, framePool.blocks, queue, queue.links
      ensures forall b :: b in framePool.blocks ==> b in old(framePool.blocks) || fresh(b)
      ensures forall i :: 0 <= i < |queue.links| ==> queue.links[i] in old(queue.links) || fresh(queue.links[i])
      ensures Valid() && old(images) <= images
      ensures sent == old(sent) + Emitted(MethodFrame(channel, request), frameMax)
      ensures !Fits(MethodFrame(channel, request), frameMax) ==>
                r.LibraryException? && Outline() == old(Outline())
      ensures var a := old(Awaiting(channel, replies));
              Fits(MethodFrame(channel, request), frameMax) ==>
                && (r.LibraryException? <==> !a.Reply?)
                && Queued() == old(Queued()) + a.skipped
                && (if a.Lost? then r == LibraryException(Failure(a.error)) && broken == Some(a.error)
                    else broken == None && Pending() == a.rest)
                && (a.Reply? ==> r.d.frame == a.reply && (r.Normal? <==> IsExpected(a.reply, replies)))
      ensures Fits(MethodFrame(channel, request), frameMax) ==>
                (Outline(), AnswerOf(r)) == Step(frameMax, old(Outline()), Call(channel, replies))
    {
      hide Scan, NextFrame, Await, Holding, Reader, SocketReady, Got, Pending, Queued, Fits, Emitted, WellTyped, IdInReplyList,
        FramesOf, Step;
      CallIsStep(frameMax, Outline(), broken, channel, replies, Awaiting(channel, replies));
      var status := SendFrame(MethodFrame(channel, request));
      if status.Err? { return LibraryException(Failure(status.error)); }
      ReplyIsMethod(frameMax, Pending(), channel, replies);
      var waited := AwaitReply(channel, replies);
      if !waited.Arrived? { return LibraryException(waited); }
      InboundIs();
      var listed := FindReply(waited.d.frame.call.id, replies);
      r := if listed then Normal(waited.d) else ServerException(waited.d);
    }

    /** amqp_basic_publish: what was sent is the stream of the frames of this message, for any body and any frame size. */
    method Publish(channel: u16, exchange: seq<byte>, key: seq<byte>, mandatory: bool, immediate: bool,
                   properties: Option<Properties>, body: seq<byte>)
      returns (r: Result<()>)
      requires Valid() && |body| <= MAX_LENGTH
      requires properties.Some? ==> WellTypedProperties(BASIC_CLASS, properties.value)
      modifies outbound, `sent
      ensures Valid() && Pending() == old(Pending()) && Queued() == old(Queued()) && images == old(images)
      ensures Outline() == old(Outline())
      ensures var m, p := PublishMethod(exchange, key, mandatory, immediate), properties.GetOr(Properties(0, []));
              var first, second := MethodFrame(channel, m), HeaderFrame(channel, BASIC_CLASS, |body|, p);
              if Fits(first, frameMax) && Fits(second, frameMax)
              then r.Ok? && frameMax > HEADER_SIZE + FOOTER_SIZE &&
                   sent == old(sent) + StreamOf(PublishFrames(channel, m, p, body, frameMax)) &&
                   Carries(PublishFrames(channel, m, p, body, frameMax), channel, exchange, key, mandatory, immediate, p, body)
              else r.Err? && sent == old(sent) + Emitted(first, frameMax)
    {
      hide Holding, Reader, SocketReady, Got, Pending, Queued, Fits, Emitted, WellTyped, WellTypedProperties,
        BodyFrames, StreamOf, PublishMethod, PublishFrames, Carries;
      var m, p := PublishMethod(exchange, key, mandatory, immediate), properties.GetOr(Properties(0, []));
      PublishEncodable(exchange, key, mandatory, immediate);
      var status := SendFrame(MethodFrame(channel, m));
      if status.Err? { return status; }
      NoProperties();
      status := SendFrame(HeaderFrame(channel, BASIC_CLASS, |body|, p));
      if status.Err? { NothingEmitted(HeaderFrame(channel, BASIC_CLASS, |body|, p), frameMax); return status; }
      PublishStream(channel, m, p, body, frameMax);
      PublishCarries(channel, exchange, key, mandatory, immediate, p, body, frameMax);
      r := PublishBody(channel, body);
    }

    // The loop over the body.
    method PublishBody(channel: u16, body: seq<byte>) returns (r: Result<()>)
      requires Valid() && |body| <= MAX_LENGTH && frameMax > HEADER_SIZE + FOOTER_SIZE
      modifies outbound, `sent
      ensures Valid() && Pending() == old(Pending()) && Queued() == old(Queued()) && images == old(images)
      ensures r.Ok? && sent == old(sent) + StreamOf(BodyFrames(channel, body, frameMax - (HEADER_SIZE + FOOTER_SIZE)))
    {
      hide Holding, Reader, SocketReady, Got, Pending, Queued, Fits, Emitted, BodyFrames, StreamOf;
      var usable, offset := frameMax - (HEADER_SIZE + FOOTER_SIZE), 0;
      var status := Ok(());
      ghost var goal := sent + StreamOf(BodyFrames(channel, body, usable));
      assert body[0..] == body;
      while status.Ok? && offset < |body|
        invariant status.Ok? && Valid() && Pending() == old(Pending()) && Queued() == old(Queued()) && images == old(images)
        invariant offset <= |body| && goal == sent + StreamOf(BodyFrames(channel, body[offset..], usable))
      {
        var k := if |body| - offset >= usable then usable else |body| - offset;
        NextFragment(channel, body[offset..], frameMax);
        assert body[offset..][..k] == body[offset..offset + k] && body[offset..][k..] == body[offset + k..];
        status := SendFrame(BodyFrame(channel, body[offset..offset + k]));
        offset := offset + k;
      }
      assert body[offset..] == [];
      NoFragments(channel, usable);
      r := status;
    }
  }

  ghost function FramesOf(ds: seq<Decoded>): (fs: seq<Frame>)
    ensures |fs| == |ds| && forall i :: 0 <= i < |fs| ==> fs[i] == ds[i].frame
  {
    seq(|ds|, i requires 0 <= i < |ds| => ds[i].frame)
  }

  // What one round of the reader does to the octets held, when it has met no error before.
  ghost predicate Advanced(max: nat, got: seq<byte>, rest: seq<byte>, now: seq<byte>,
                           n: Result<nat>, done: bool, d: Option<Decoded>) {
    var w := got + rest;
    match n
    case Err(e) => Scan(max, w) == Bad(e)
    case Ok(k) =>
      0 < k <= |rest| &&
      if !done then d == None && now + rest[k..] == w
      else if Scan(max, w).Incomplete? then d == None && k == |rest| && now == w
      else now == [] && Scan(max, w) == Item(|got| + k, if d.None? then None else Some(d.value.frame))
  }

  // memcpy.
  method CopyInto(buf: array<byte>, at: nat, chunk: seq<byte>)
    requires at + |chunk| <= buf.Length
    modifies buf
    ensures buf[..at] == old(buf[..at]) && buf[at..at + |chunk|] == chunk && buf[at + |chunk|..] == old(buf[at + |chunk|..])
    ensures forall i :: 0 <= i < buf.Length && !(at <= i < at + |chunk|) ==> buf[i] == old(buf[i])
  {
    forall i | 0 <= i < |chunk| {
      buf[at + i] := chunk[i];
    }
  }

  // What a call of the reader consumes is taken off the stream.
  lemma FeedFacts(max: nat, got: seq<byte>, data: seq<byte>, later: seq<byte>)
    requires Scan(max, got).Incomplete? && data != []
    ensures var fed, next := Feed(max, got, data), NextFrame(max, got + data + later);
            if fed.Broken? then next == Failed(fed.error)
            else 0 < fed.consumed <= |data| &&
                 var rest := fed.got + data[fed.consumed..] + later;
                 next == if fed.frame.Some? then Next.Got(fed.frame.value, rest) else NextFrame(max, rest)
  {
    hide Scan, NextFrame;
    FeedStep(max, got, data, later);
    assert forall k :: 0 <= k <= |data| ==> [] + data[k..] + later == data[k..] + later;
  }

  lemma NextChunk(got: seq<byte>, chunks: seq<seq<byte>>)
    requires chunks != []
    ensures got + [] + Flatten(chunks) == got + chunks[0] + Flatten(chunks[1..])
  {
    assert got + [] + (chunks[0] + Flatten(chunks[1..])) == got + chunks[0] + Flatten(chunks[1..]);
  }

  function FrameOf(r: Waited): Option<Frame> {
    if r.Arrived? then Some(r.d.frame) else None
  }

  function AnswerOf(r: Outcome): Option<Frame> {
    if r.LibraryException? then None else Some(r.d.frame)
  }

  lemma WaitIsStep(max: nat, s: Session, broken: Option<Error>, next: Next)
    requires if broken.Some? then next == Failed(broken.value) && s.stream == [] else next == NextFrame(max, s.stream)
    ensures var (t, out) := Step(max, s, Wait);
            if s.queued != [] then t == s.(queued := s.queued[1..]) && out == Some(s.queued[0])
            else if next.Got? then t == s.(stream := next.rest) && out == Some(next.frame)
            else t == s.(stream := if next.Failed? then [] else next.rest) && out == None
  {
  }

  lemma CallIsStep(max: nat, s: Session, broken: Option<Error>, channel: u16, replies: seq<u32>, a: Awaited)
    requires if broken.Some? then a == Lost([], broken.value) && s.stream == [] else a == Await(max, s.stream, channel, replies)
    ensures var (t, out) := Step(max, s, Call(channel, replies));
            && t == Session(s.queued + a.skipped, if a.Lost? then [] else a.rest)
            && out == if a.Reply? then Some(a.reply) else None
  {
  }

  lemma StarvedNow(max: nat, got: seq<byte>)
    requires Scan(max, got).Incomplete?
    ensures NextFrame(max, got) == Starved(got)
  {
  }

  ghost function Octets(r: Region, n: nat): seq<byte>
    requires r.start + n <= r.block.Length
    reads r.block
  {
    r.block[r.start..r.start + n]
  }

  // The protocol header that a peer of another version answers with.
  function ProtocolBlock(b: seq<byte>): Result<Option<Frame>>
    requires |b| >= 8
  {
    if b[3] != 80 then Err(EABORT) else Ok(Some(ProtocolFrame(b[4], b[5], b[6], b[7])))
  }

  lemma FeedIs(max: nat, got: seq<byte>, data: seq<byte>)
    requires Scan(max, got).Incomplete?
    ensures var fed, scan := Feed(max, got, data), Scan(max, got + data);
            && (scan.Incomplete? ==> fed == Fed(|data|, got + data, None))
            && (scan.Bad? ==> fed == Broken(scan.error))
            && (scan.Item? ==> fed == Fed(scan.size - |got|, [], scan.frame))
  {
    hide Scan;
  }

  // A step of the reader that stays within the size it waits for and within the buffer.
  predicate InStep(max: nat, got: seq<byte>, w: seq<byte>) {
    && Scan(max, got).Incomplete? && got <= w && |got| < |w| <= max
    && |w| <= TargetOf(got) && (|got| >= HEADER_SIZE ==> TargetOf(got) > HEADER_SIZE)
  }

  lemma StateOfSome(got: seq<byte>)
    requires got != []
    ensures StateOf(got) != Idle
  {
  }

  lemma StepShort(max: nat, got: seq<byte>, w: seq<byte>)
    requires InStep(max, got, w) && (|w| < TargetOf(got) || |w| <= HEADER_SIZE)
    ensures Scan(max, w).Incomplete?
    ensures |w| < TargetOf(got) ==> TargetOf(w) == TargetOf(got)
    ensures |w| < TargetOf(got) ==> StateOf(w) == if got == [] then WaitingForHeader else StateOf(got)
  {
    hide DecodeBlock;
  }

  lemma StepFull(max: nat, got: seq<byte>, w: seq<byte>)
    requires InStep(max, got, w) && |w| == TargetOf(got) && |w| > HEADER_SIZE
    ensures |got| >= HEADER_SIZE && |w| >= HEADER_SIZE + FOOTER_SIZE
    ensures var r := if StateOf(got) == WaitingForBody then DecodeBlock(w) else ProtocolBlock(w);
            Scan(max, w) == if r.Ok? then Item(|w|, r.value) else Bad(r.error)
  {
    hide DecodeBlock;
    assert w[..|w|] == w;
  }

  // The two refusals: a block that does not fit the buffer, and a size that wraps around.
  lemma StepRefused(max: nat, got: seq<byte>, w: seq<byte>)
    requires Scan(max, got).Incomplete? && got < w && max >= 8 && |got| >= HEADER_SIZE
    ensures TargetOf(got) <= HEADER_SIZE ==> Scan(max, w) == Bad(EWRAP)
    ensures TargetOf(got) > HEADER_SIZE && TargetOf(got) > max && |w| > max ==> Scan(max, w) == Bad(EFAULT)
  {
    hide DecodeBlock;
  }

  lemma NoProperties()
    ensures WellTypedProperties(BASIC_CLASS, Properties(0, []))
  {
    hide Select;
    NothingSelected(PROPERTIES);
  }

  // The reply is one of the expected methods, and not an exception of the server.
  ghost predicate IsExpected(f: Frame, replies: seq<u32>) {
    f.MethodFrame? && IdInReplyList(f.call.id, replies)
  }

  lemma ReplyIsMethod(max: nat, s: seq<byte>, channel: u16, replies: seq<u32>)
    ensures var a := Await(max, s, channel, replies); a.Reply? ==> a.reply.MethodFrame?
  {
    hide Await, Parse;
    AwaitConserves(max, s, channel, replies);
  }

  lemma NothingEmitted(f: Frame, max: nat)
    requires !Fits(f, max)
    ensures forall s :: s + Emitted(f, max) == s
  {
  }

  lemma NoFragments(channel: u16, usable: nat)
    requires usable > 0
    ensures StreamOf(BodyFrames(channel, [], usable)) == []
  {
  }

  lemma NothingHeld(max: nat)
    ensures StateOf([]) == Idle && TargetOf([]) == HEADER_SIZE && Scan(max, []).Incomplete?
  {
  }
}
