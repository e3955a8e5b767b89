/** The list of frames that amqp_simple_rpc puts aside (first_queued_frame, last_queued_frame). */
module Queues {

  class Link<T> {
    const data: T
    var next: Link?<T>

    constructor (data: T)
      ensures this.data == data && next == null
    {
      this.data := data;
      next := null;
    }
  }

  function DataOf<T>(links: seq<Link<T>>): (s: seq<T>)
    ensures |s| == |links| && forall i :: 0 <= i < |s| ==> s[i] == links[i].data
  {
    seq(|links|, i requires 0 <= i < |links| => links[i].data)
  }

  class FrameQueue<T> {
    var first: Link?<T>
    var last: Link?<T>
    ghost var links: seq<Link<T>>

    // From first to last by next, and nothing behind last.
    ghost predicate Valid()
      reads this, links
    {
      && (forall i, j :: 0 <= i < j < |links| ==> links[i] != links[j])
      && (forall i :: 0 <= i < |links| - 1 ==> links[i].next == links[i + 1])
      && if links == [] then first == null && last == null
         else first == links[0] && last == links[|links| - 1] && links[|links| - 1].next == null
    }

    ghost function Contents(): seq<T>
      reads this, links
    {
      DataOf(links)
    }

    constructor ()
      ensures Valid() && links == []
    {
      first, last := null, null;
      links := [];
    }

    /** The enqueueing branch of amqp_simple_rpc. */
    method Enqueue(data: T)
      requires Valid()
      modifies this, links
      ensures Valid() && Contents() == old(Contents()) + [data]
      ensures forall l :: l in links ==> l in old(links) || fresh(l)
    {
      var link := new Link(data);
      if last == null {
        first := link;
      } else {
        last.next := link;
      }
      last := link;
      links := links + [link];
    }

    /** The dequeueing branch of amqp_simple_wait_frame. */
    method Dequeue() returns (data: T)
      requires Valid() && Contents() != []
      modifies this
      ensures Valid() && old(Contents()) == [data] + Contents()
      ensures forall l :: l in links ==> l in old(links)
    {
      data := first.data;
      first := first.next;
      if first == null {
        last := null;
      }
      links := links[1..];
    }
  }
}
