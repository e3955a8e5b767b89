/** The broker states of a backend in memory: the list HEAD_BS and the functions of pg_amqp.c that work on it. */
module Backends {
  import opened Failover
  import opened Brokers
  import opened Outcomes
  import opened Sessions

  // What the broker holds, and the books on the messages (see Brokers.Broker).
  datatype Remote = Remote(buffer: seq<Message>, delivered: seq<Message>, direct: seq<Message>,
                           acked: seq<Message>, lost: nat)

  lemma NextHost(idx: nat, t: nat, n: nat)
    requires idx < n && t + 1 < n
    ensures HostAt(idx, t + 1, n) == (HostAt(idx, t, n) + 1) % n
  {
    hide HostAt;
    HostOf(idx, t, n);
    HostOf(idx, t + 1, n);
    WrapOnce(HostAt(idx, t, n) + 1, n);
  }

  class BrokerState {
    const id: int
    var conn: bool
    var sockfd: int
    var uncommitted: nat
    var inerror: bool
    var blocked: bool
    var idx: nat
    var failures: nat
    var lastFailed: int
    var hosts: nat
    var next: BrokerState?
    ghost var remote: Remote

    ghost function Abs(): (b: Broker)
      reads `conn, `sockfd, `uncommitted, `inerror, `blocked, `idx, `failures, `lastFailed, `hosts, `remote
      ensures b.id == id
    {
      Broker(id, conn, sockfd, uncommitted, inerror, blocked, idx, failures, lastFailed, hosts,
             remote.buffer, remote.delivered, remote.direct, remote.acked, remote.lost)
    }

    constructor (id: int, next: BrokerState?)
      ensures Abs() == New(id) && this.next == next && this.id == id
    {
      this.id := id;
      conn, sockfd, uncommitted, inerror, blocked, idx, failures, lastFailed, hosts := false, -1, 0, false, false, 0, 0, 0, 0;
      this.next := next;
      remote := Remote([], [], [], [], 0);
    }

    /** local_amqp_disconnect_bs. */
    method DisconnectBs()
      modifies `conn, `sockfd, `uncommitted, `blocked, `remote
      ensures Abs() == Disconnected(old(Abs()))
    {
      if conn {
        remote := remote.(buffer := [], lost := remote.lost + uncommitted);
        conn, sockfd, uncommitted, blocked := false, -1, 0, false;
      }
    }

    /** local_amqp_drain_returns. */
    method DrainReturns(d: Drained) returns (ok: bool)
      modifies `blocked
      ensures (Abs(), ok) == Surfaced(old(Abs()), d)
    {
      if !conn { return false; }
      var k := 0;
      while k < |d.notices|
        invariant k <= |d.notices|
        invariant Drain(old(blocked), d.notices) == Drain(blocked, d.notices[k..])
      {
        assert d.notices[k..][1..] == d.notices[k + 1..];
        match d.notices[k] {
          case CloseNotice => return false;
          case BlockedNotice => blocked := true;
          case UnblockedNotice => blocked := false;
          case _ =>
        }
        k := k + 1;
      }
      ok := d.healthy;
    }

    /** local_amqp_load_hosts. */
    method LoadHosts(rows: nat, pid: nat) returns (n: nat)
      modifies `hosts, `idx
      ensures forall d: Dial :: d.rows == rows && d.pid == pid ==> Abs() == Cached(old(Abs()), d)
      ensures n == hosts
    {
      if hosts == 0 && rows > 0 {
        hosts, idx := rows, pid % rows;
      }
      n := hosts;
    }

    // One turn of the failover loop.
    method TryHost(answer: Try, fd: int) returns (ok: bool)
      requires !conn && Sane(Abs()) && hosts > 0
      modifies `conn, `sockfd, `uncommitted, `blocked, `idx, `failures, `lastFailed, `remote
      ensures ok == answer.accepted
      ensures var b := old(Abs()).(idx := (old(idx) + 1) % hosts);
              Abs() == if ok then b.(conn := true, sockfd := fd, failures := 0, lastFailed := 0) else b
    {
      assert Abs().acked[Abs().lost..] == [];
      idx := (idx + 1) % hosts;
      conn := true;
      ok := answer.accepted;
      if ok {
        sockfd, lastFailed, failures, blocked := fd, 0, 0, false;
      } else {
        DisconnectBs();
      }
    }

    // The failover loop.
    method TryHosts(d: Dial) returns (ok: bool)
      requires !conn && Sane(Abs()) && hosts > 0
      modifies `conn, `sockfd, `uncommitted, `blocked, `idx, `failures, `lastFailed, `remote
      ensures (Abs(), ok) == HostsTried(old(Abs()), d)
    {
      hide HostAt, Tried, Exhausted;
      ghost var c := Abs();
      var n := hosts;
      var tries, late := n, false;
      while tries > 0 && !late
        invariant 0 <= tries <= n && (late ==> tries < n)
        invariant Abs() == c.(idx := if tries == n then c.idx else HostAt(c.idx, n - tries - 1, n))
        invariant Tried(d, 0, n) == if late then (n - tries, false) else Tried(d, n - tries, n)
      {
        StepTry(d, c.idx, n - tries, n);
        var accepted := TryHost(d.tries(n - tries), d.fd);
        if accepted { return true; }
        late := Exhausted(d, n - tries);
        tries := tries - 1;
      }
      NoTry(d, n);
      ok := false;
    }

    /** local_amqp_get_bs, after the broker state was found. */
    method GetBs(d: Dial)
      requires Sane(Abs())
      modifies `conn, `sockfd, `uncommitted, `blocked, `idx, `failures, `lastFailed, `hosts, `remote
      ensures Abs() == Dialed(old(Abs()), d)
    {
      hide HostsTried, Window;
      if conn || (lastFailed != 0 && d.now - lastFailed < Window(failures, d.pid)) { return; }
      var n := LoadHosts(d.rows, d.pid);
      if n > 0 {
        var ok := TryHosts(d);
        if ok { return; }
      }
      failures, lastFailed := failures + 1, d.later;
    }

    // What the socket and the broker do with a message.
    ghost method Send(channel: nat, m: Message, a: Attempt)
      modifies `remote
      ensures Abs() == Sent(old(Abs()), channel, m, a)
    {
      if a.written || a.landed {
        if channel == 2 {
          remote := remote.(buffer := remote.buffer + [m]);
        } else {
          remote := remote.(direct := remote.direct + [m]);
        }
      }
    }

    /** pg_amqp_publish_opt on this broker, with its one redo. */
    method PublishOpt(channel: nat, ghost m: Message, mandatory: bool, first: Attempt, second: Attempt) returns (ok: bool)
      requires Sane(Abs()) && channel in {1, 2}
      modifies `conn, `sockfd, `uncommitted, `inerror, `blocked, `idx, `failures, `lastFailed, `hosts, `remote
      ensures (Abs(), ok) == Publish(old(Abs()), channel, m, mandatory, first, second)
    {
      hide Round, Sane;
      var outcome := PublishRound(channel, m, mandatory, true, first);
      RoundEffect(old(Abs()), channel, m, mandatory, true, first);
      if outcome == Again {
        DisconnectBs();
        outcome := PublishRound(channel, m, mandatory, false, second);
      }
      ok := outcome == Accepted;
    }

    method PublishRound(channel: nat, ghost m: Message, mandatory: bool, onceMore: bool, a: Attempt) returns (o: Outcome)
      requires Sane(Abs())
      modifies `conn, `sockfd, `uncommitted, `inerror, `blocked, `idx, `failures, `lastFailed, `hosts, `remote
      ensures (Abs(), o) == Round(old(Abs()), channel, m, mandatory, onceMore, a)
    {
      hide Dialed, Sane, Drain, Write;
      GetBs(a.dial);
      if !conn || (channel != 1 && inerror) { return Refused; }
      var usable := DrainReturns(a.drained);
      var again := onceMore && (channel == 1 || uncommitted == 0);
      if !usable {
        if again { return Again; }
        if channel == 2 { inerror := true; }
        return Refused;
      }
      if blocked { return Refused; }
      o := WriteMessage(channel, m, mandatory, again, a);
    }

    // basic.publish on a connection that looks usable, and what is made of its outcome.
    method WriteMessage(channel: nat, ghost m: Message, mandatory: bool, again: bool, a: Attempt) returns (o: Outcome)
      modifies `uncommitted, `inerror, `blocked, `remote
      ensures (Abs(), o) == Write(old(Abs()), channel, m, mandatory, again, a)
    {
      hide Sent, Surfaced;
      Send(channel, m, a);
      if channel == 1 && mandatory {
        var _ := DrainReturns(a.after);
      }
      if !a.written {
        if again { return Again; }
        inerror := true;
        return Refused;
      }
      if channel == 2 {
        uncommitted := uncommitted + 1;
        remote := remote.(acked := remote.acked + [m]);
      }
      o := Accepted;
    }

    /** pg_amqp_exchange_declare on this broker. */
    method ExchangeDeclare(dial: Dial, accepted: bool) returns (ok: bool)
      requires Sane(Abs())
      modifies `conn, `sockfd, `uncommitted, `blocked, `idx, `failures, `lastFailed, `hosts, `remote
      ensures (Abs(), ok) == Declare(old(Abs()), dial, accepted)
    {
      hide Dialed, Sane;
      GetBs(dial);
      ok := conn && accepted;
      if conn && !accepted {
        DisconnectBs();
      }
    }

    /** local_amqp_disconnect on this broker. */
    method DisconnectAndReset()
      modifies `conn, `sockfd, `uncommitted, `inerror, `blocked, `idx, `failures, `lastFailed, `hosts, `remote
      ensures Abs() == Reset(old(Abs()))
    {
      DisconnectBs();
      inerror, idx, failures, lastFailed, hosts := false, 0, 0, 0, 0;
    }

    // The transaction is over: its books are closed.
    ghost method CloseBooks()
      modifies `remote
      ensures Abs() == Ended(old(Abs()))
    {
      remote := remote.(acked := [], lost := 0);
    }

    /** The turn of XACT_EVENT_COMMIT for this broker. */
    method CommitBroker(a: Answer) returns (w: Warning)
      modifies `conn, `sockfd, `uncommitted, `inerror, `blocked, `remote
      ensures (Abs(), w) == CommitOne(old(Abs()), a)
    {
      hide Drain;
      w := NoWarning;
      if uncommitted > 0 && (inerror || !conn) {
        w := Discarding(uncommitted);
        DisconnectBs();
        inerror, uncommitted := false, 0;
      } else {
        if inerror {
          DisconnectBs();
          inerror := false;
        }
        if uncommitted > 0 {
          var _ := DrainReturns(a.drained);
          if a.normal || a.done {
            remote := remote.(delivered := remote.delivered + remote.buffer, buffer := []);
          }
          if !a.normal {
            w := CommitFailed(uncommitted);
            DisconnectBs();
          }
          uncommitted := 0;
        }
      }
      CloseBooks();
    }

    /** The turn of XACT_EVENT_ABORT for this broker. */
    method AbortBroker(a: Answer)
      modifies `conn, `sockfd, `uncommitted, `inerror, `blocked, `remote
      ensures Abs() == AbortOne(old(Abs()), a)
    {
      if inerror { DisconnectBs(); }
      inerror := false;
      if uncommitted > 0 {
        if conn {
          if a.normal {
            remote := remote.(buffer := []);
          } else {
            DisconnectBs();
          }
        }
        uncommitted := 0;
      }
      CloseBooks();
    }

    /** The turn of amqp_local_subxact for this broker. */
    method AbortSubBroker()
      modifies `inerror
      ensures Abs() == AbortSub(old(Abs()))
    {
      if uncommitted > 0 && !inerror {
        inerror := true;
      }
    }
  }

  lemma NoTry(d: Dial, n: nat)
    ensures Tried(d, n, n) == (n, false)
  {
  }

  lemma StepTry(d: Dial, idx: nat, t: nat, n: nat)
    requires idx < n && t < n
    ensures HostAt(idx, t, n) == if t == 0 then (idx + 1) % n else (HostAt(idx, t - 1, n) + 1) % n
    ensures Tried(d, t, n) ==
            if d.tries(t).accepted then (t + 1, true) else if Exhausted(d, t) then (t + 1, false) else Tried(d, t + 1, n)
    ensures Tried(d, n, n) == (n, false)
  {
    if t > 0 {
      NextHost(idx, t - 1, n);
    }
  }

  class Backend {
    var head: BrokerState?
    ghost var nodes: seq<BrokerState>
    // All that has happened so far, and what the specification makes of it.
    ghost var events: seq<Event>
    ghost var session: Session

    // From the head by next, each node once.
    ghost predicate Linked()
      reads `head, `nodes, nodes`next
    {
      && (forall i, j :: 0 <= i < j < |nodes| ==> nodes[i] != nodes[j])
      && (forall i :: 0 <= i < |nodes| - 1 ==> nodes[i].next == nodes[i + 1])
      && (nodes != [] ==> nodes[|nodes| - 1].next == null)
      && head == if nodes == [] then null else nodes[0]
    }

    ghost function List(): (bs: seq<Broker>)
      reads this, nodes
      ensures |bs| == |nodes| && forall i :: 0 <= i < |bs| ==> bs[i] == nodes[i].Abs()
    {
      seq(|nodes|, i requires 0 <= i < |nodes| reads this, nodes => nodes[i].Abs())
    }

    ghost predicate Valid()
      reads this, nodes
    {
      Linked() && List() == session.brokers && Genuine(events) && session == Run(events)
    }

    constructor ()
      ensures Valid() && events == [] && nodes == []
    {
      head := null;
      nodes, events, session := [], [], START;
    }

    /** local_amqp_get_a_bs. */
    method GetABs(id: int) returns (bs: BrokerState, ghost k: nat)
      requires Linked()
      modifies this
      ensures Linked() && List() == Ensured(old(List()), id) && session == old(session) && events == old(events)
      ensures List() == if exists i :: 0 <= i < |old(List())| && old(List())[i].id == id then old(List())
                        else [New(id)] + old(List())
      ensures k < |nodes| && nodes[k] == bs && bs.id == id
      ensures forall i :: 0 <= i < |nodes| ==> nodes[i] in old(nodes) || fresh(nodes[i])
    {
      var b := head;
      k := 0;
      while b != null
        invariant k <= |nodes| && b == if k < |nodes| then nodes[k] else null
        invariant forall i :: 0 <= i < k ==> nodes[i].id != id
        decreases |nodes| - k
      {
        if b.id == id {
          assert List()[k].id == id;
          return b, k;
        }
        b := b.next;
        k := k + 1;
      }
      assert forall i :: 0 <= i < |nodes| ==> List()[i].id == nodes[i].id;
      bs := Prepend(id);
      k := 0;
    }

    // A new node at the head.
    method Prepend(id: int) returns (bs: BrokerState)
      requires Linked()
      modifies `head, `nodes
      ensures Linked() && fresh(bs) && nodes == [bs] + old(nodes) && List() == [New(id)] + old(List()) && bs.id == id
    {
      hide BrokerState.Abs;
      ghost var before := List();
      bs := new BrokerState(id, head);
      nodes, head := [bs] + nodes, bs;
      AllNodes([New(id)] + before);
    }

    // One node has changed.
    lemma OneNode(before: seq<Broker>, k: nat)
      requires |before| == |nodes| && k < |nodes| && forall i :: 0 <= i < |nodes| && i != k ==> nodes[i].Abs() == before[i]
      ensures List() == before[k := nodes[k].Abs()]
    {
      hide BrokerState.Abs;
    }

    lemma AllNodes(bs: seq<Broker>)
      requires |bs| == |nodes| && forall i :: 0 <= i < |nodes| ==> nodes[i].Abs() == bs[i]
      ensures List() == bs
    {
      hide BrokerState.Abs;
    }

    // The specification makes the step that the list has made.
    ghost method Record(e: Event)
      requires Linked() && Genuine(events) && session == Run(events) && (e.Published? ==> e.channel in {1, 2})
      requires List() == Step(session, e).brokers
      modifies `session, `events
      ensures Valid() && events == old(events) + [e]
    {
      hide Step;
      assert (events + [e])[..|events|] == events;
      session, events := Step(session, e), events + [e];
    }

    // Savepoints come and go without a call of pg_amqp.c.
    ghost method Nest(e: Event)
      requires Valid() && (e.Savepoint? || e.Release?)
      modifies `session, `events
      ensures Valid() && events == old(events) + [e]
    {
      hide SessionOk, Step;
      NoStep(session, e);
      Record(e);
    }

    // The state that the event is about, and what its step will be.
    method Locate(id: int, ghost e: Event) returns (bs: BrokerState, ghost k: nat)
      requires Valid() && Touches(e, id) && !Ends(e)
      modifies this
      ensures Linked() && Genuine(events) && session == Run(events) == old(session) && events == old(events)
      ensures k < |nodes| && nodes[k] == bs && bs.id == id && forall i :: 0 <= i < |nodes| && i != k ==> nodes[i] != bs
      ensures forall i :: 0 <= i < |nodes| ==> nodes[i] in old(nodes) || fresh(nodes[i])
      ensures bs.Abs() == View(session.brokers, id) && Sane(bs.Abs())
      ensures Step(session, e).brokers == List()[k := BrokerStep(bs.Abs(), session, e)]
    {
      hide Genuine, Run, SessionOk, Linked, Step, View, Sane, BrokerStep, BrokerState.Abs;
      bs, k := GetABs(id);
      NextOf(k);
      Reachable(events);
      SingleStep(session, e, k);
    }

    /** pg_amqp_publish (channel 2) and pg_amqp_autonomous_publish (channel 1). */
    method PublishMessage(id: int, channel: nat, body: seq<char>, limit: nat, mandatory: bool,
                          first: Attempt, second: Attempt) returns (ok: bool)
      requires Valid() && channel in {1, 2}
      modifies this, nodes
      ensures forall i :: 0 <= i < |nodes| ==> nodes[i] in old(nodes) || fresh(nodes[i])
      ensures Valid() && events == old(events) + [Published(id, channel, body, limit, mandatory, first, second)]
      ensures ok <==> !TooLarge(body, limit) &&
                      Publish(View(old(session).brokers, id), channel, MessageOf(old(session), body), mandatory, first, second).1
      ensures ok <==> !(limit > 0 && |body| > limit) && Succeeds(View(old(session).brokers, id), channel, first, second)
      ensures limit > 0 && |body| > limit ==> session.brokers == old(session).brokers
    {
      hide Genuine, Run, SessionOk, Publish, Linked, Step, View, MessageOf, Sane, List, Listed, BrokerState.Abs, Succeeds;
      ghost var e := Published(id, channel, body, limit, mandatory, first, second);
      if TooLarge(body, limit) {
        NoStep(session, e);
        Record(e);
        return false;
      }
      var bs;
      ghost var k;
      bs, k := Locate(id, e);
      ghost var before := List();
      PublishOutcome(bs.Abs(), channel, MessageOf(session, body), mandatory, first, second);
      ok := bs.PublishOpt(channel, MessageOf(session, body), mandatory, first, second);
      OneNode(before, k);
      Record(e);
    }

    /** pg_amqp_exchange_declare. */
    method DeclareExchange(id: int, dial: Dial, accepted: bool) returns (ok: bool)
      requires Valid()
      modifies this, nodes
      ensures forall i :: 0 <= i < |nodes| ==> nodes[i] in old(nodes) || fresh(nodes[i])
      ensures Valid() && events == old(events) + [Declared(id, dial, accepted)]
      ensures ok == Declare(View(old(session).brokers, id), dial, accepted).1
      ensures ok <==> Dialed(View(old(session).brokers, id), dial).conn && accepted
    {
      hide Genuine, Run, SessionOk, Declare, Dialed, Linked, Step, View, Sane, List, Listed, BrokerState.Abs;
      var bs;
      ghost var k;
      bs, k := Locate(id, Declared(id, dial, accepted));
      ghost var before := List();
      DeclareOutcome(bs.Abs(), dial, accepted);
      ok := bs.ExchangeDeclare(dial, accepted);
      OneNode(before, k);
      Record(Declared(id, dial, accepted));
    }

    /** amqp.disconnect. */
    method DisconnectBroker(id: int)
      requires Valid()
      modifies this, nodes
      ensures forall i :: 0 <= i < |nodes| ==> nodes[i] in old(nodes) || fresh(nodes[i])
      ensures Valid() && events == old(events) + [Disconnect(id)]
    {
      hide Genuine, Run, SessionOk, Reset, Linked, Step, View, Sane, List, Listed, BrokerState.Abs;
      var bs;
      ghost var k;
      bs, k := Locate(id, Disconnect(id));
      ghost var before := List();
      bs.DisconnectAndReset();
      OneNode(before, k);
      Record(Disconnect(id));
    }

    lemma NextOf(k: nat)
      requires Linked() && k < |nodes|
      ensures nodes[k].next == if k + 1 < |nodes| then nodes[k + 1] else null
      ensures forall i :: 0 <= i < |nodes| && i != k ==> nodes[i] != nodes[k]
    {
    }

    lemma HeadOf()
      requires Linked()
      ensures head == if nodes == [] then null else nodes[0]
    {
    }

    /** XACT_EVENT_COMMIT: every broker has its turn; the warnings come in the order of the list. */
    method CommitAll(answers: int -> Answer) returns (warnings: seq<Warning>)
      requires Valid()
      modifies this, nodes
      ensures forall i :: 0 <= i < |nodes| ==> nodes[i] in old(nodes) || fresh(nodes[i])
      ensures Valid() && events == old(events) + [Commit(answers)]
      ensures |warnings| == |old(session).brokers| && forall i :: 0 <= i < |warnings| ==>
                warnings[i] == CommitOne(old(session).brokers[i], answers(old(session).brokers[i].id)).1
    {
      hide SessionOk, CommitOne, Step, Linked, BrokerState.Abs;
      HeadOf();
      var bs := head;
      ghost var k, before := 0, List();
      warnings := [];
      while bs != null
        invariant k <= |nodes| == |before| && bs == (if k < |nodes| then nodes[k] else null) && |warnings| == k
        invariant Linked() && nodes == old(nodes) && session == old(session) && events == old(events)
        invariant forall i :: k <= i < |nodes| ==> nodes[i].Abs() == before[i]
        invariant forall i :: 0 <= i < k ==> (nodes[i].Abs(), warnings[i]) == CommitOne(before[i], answers(before[i].id))
        decreases |nodes| - k
      {
        NextOf(k);
        var w := bs.CommitBroker(answers(bs.id));
        warnings := warnings + [w];
        bs := bs.next;
        k := k + 1;
      }
      CommitIsStep(session, answers);
      Record(Commit(answers));
    }

    /** XACT_EVENT_ABORT. */
    method AbortAll(answers: int -> Answer)
      requires Valid()
      modifies this, nodes
      ensures forall i :: 0 <= i < |nodes| ==> nodes[i] in old(nodes) || fresh(nodes[i])
      ensures Valid() && events == old(events) + [Abort(answers)]
    {
      hide SessionOk, Step;
      AbortIsStep(session, Abort(answers));
      RollBack(answers);
      Record(Abort(answers));
    }

    method RollBack(answers: int -> Answer)
      requires Linked()
      modifies nodes
      ensures Linked() && forall i :: 0 <= i < |nodes| ==> nodes[i].Abs() == AbortOne(old(nodes[i].Abs()), answers(nodes[i].id))
    {
      hide AbortOne, Linked, BrokerState.Abs;
      HeadOf();
      var bs := head;
      ghost var k := 0;
      while bs != null
        invariant k <= |nodes| && bs == if k < |nodes| then nodes[k] else null
        invariant Linked()
        invariant forall i :: k <= i < |nodes| ==> nodes[i].Abs() == old(nodes[i].Abs())
        invariant forall i :: 0 <= i < k ==> nodes[i].Abs() == AbortOne(old(nodes[i].Abs()), answers(nodes[i].id))
        decreases |nodes| - k
      {
        NextOf(k);
        bs.AbortBroker(answers(bs.id));
        bs := bs.next;
        k := k + 1;
      }
    }

    /** SUBXACT_EVENT_ABORT_SUB. */
    method RollbackToSavepoint()
      requires Valid() && session.open != []
      modifies this, nodes
      ensures forall i :: 0 <= i < |nodes| ==> nodes[i] in old(nodes) || fresh(nodes[i])
      ensures Valid() && events == old(events) + [RollbackTo]
    {
      hide SessionOk, Step, Linked, BrokerState.Abs, AbortSub;
      RollbackIsStep(session);
      HeadOf();
      var bs := head;
      ghost var k, before := 0, List();
      while bs != null
        invariant k <= |nodes| == |before| && bs == if k < |nodes| then nodes[k] else null
        invariant Linked() && nodes == old(nodes) && session == old(session) && events == old(events)
        invariant forall i :: k <= i < |nodes| ==> nodes[i].Abs() == before[i]
        invariant forall i :: 0 <= i < k ==> nodes[i].Abs() == AbortSub(before[i])
        decreases |nodes| - k
      {
        NextOf(k);
        bs.AbortSubBroker();
        bs := bs.next;
        k := k + 1;
      }
      Record(RollbackTo);
    }

    /** XACT_EVENT_PRE_PREPARE: an error, and with it an abort, exactly when a broker holds messages. */
    method PrepareTransaction(answers: int -> Answer) returns (refused: bool)
      requires Valid()
      modifies this, nodes
      ensures forall i :: 0 <= i < |nodes| ==> nodes[i] in old(nodes) || fresh(nodes[i])
      ensures Valid() && events == old(events) + [Prepare(answers)]
      ensures refused <==> PrepareRefused(old(session).brokers)
    {
      hide Genuine, Run, SessionOk, Step, Linked, PrepareRefused, AbortOne, Ended, BrokerState.Abs;
      PrepareIsStep(session, answers);
      refused := HoldsMessages();
      if refused {
        RollBack(answers);
      } else {
        CloseAllBooks();
      }
      AllNodes(Step(session, Prepare(answers)).brokers);
      Record(Prepare(answers));
    }

    method HoldsMessages() returns (some: bool)
      requires Linked()
      ensures some <==> PrepareRefused(List())
    {
      var bs := head;
      ghost var k := 0;
      while bs != null
        invariant k <= |nodes| && bs == if k < |nodes| then nodes[k] else null
        invariant forall i :: 0 <= i < k ==> nodes[i].uncommitted == 0
        decreases |nodes| - k
      {
        NextOf(k);
        if bs.uncommitted > 0 {
          assert List()[k].uncommitted > 0;
          return true;
        }
        bs := bs.next;
        k := k + 1;
      }
      some := false;
    }

    ghost method CloseAllBooks()
      requires Linked()
      modifies nodes
      ensures Linked() && forall i :: 0 <= i < |nodes| ==> nodes[i].Abs() == Ended(old(nodes[i].Abs()))
    {
      hide Linked;
      for k := 0 to |nodes|
        invariant Linked()
        invariant forall i :: k <= i < |nodes| ==> nodes[i].Abs() == old(nodes[i].Abs())
        invariant forall i :: 0 <= i < k ==> nodes[i].Abs() == Ended(old(nodes[i].Abs()))
      {
        NextOf(k);
        nodes[k].CloseBooks();
      }
    }

    /** The next event of the backend. */
    method Handle(e: Event) returns (told: Told)
      requires Valid() && (e.Published? ==> e.channel in {1, 2}) && (e.RollbackTo? ==> session.open != [])
      modifies this, nodes
      ensures forall i :: 0 <= i < |nodes| ==> nodes[i] in old(nodes) || fresh(nodes[i])
      ensures Valid() && events == old(events) + [e] && told == Tells(old(session), e)
    {
      hide Genuine, Run, SessionOk, Publish, Declare, CommitOne, Linked, Step, View, MessageOf, List, PrepareRefused;
      told := Nothing;
      match e {
        case Published(id, channel, body, limit, mandatory, first, second) =>
          var ok := PublishMessage(id, channel, body, limit, mandatory, first, second);
          told := Answered(ok);
        case Declared(id, dial, accepted) =>
          var ok := DeclareExchange(id, dial, accepted);
          told := Answered(ok);
        case Disconnect(id) =>
          DisconnectBroker(id);
        case Savepoint =>
          Nest(e);
        case Release =>
          Nest(e);
        case RollbackTo =>
          RollbackToSavepoint();
        case Prepare(answers) =>
          var refused := PrepareTransaction(answers);
          told := Answered(!refused);
        case Commit(answers) =>
          var warnings := CommitAll(answers);
          told := Warned(warnings);
        case Abort(answers) =>
          AbortAll(answers);
      }
    }

    /** A whole session: any events, one after the other, lead to the state that the specification gives for them, and
        the caller is told what it says. */
    method Play(es: seq<Event>) returns (told: seq<Told>)
      requires Valid() && Genuine(es)
      requires forall i :: 0 <= i < |es| && es[i].RollbackTo? ==> Run(events + es[..i]).open != []
      modifies this, nodes
      ensures forall i :: 0 <= i < |nodes| ==> nodes[i] in old(nodes) || fresh(nodes[i])
      ensures Valid() && events == old(events) + es && List() == Run(old(events) + es).brokers
      ensures |told| == |es| && forall i :: 0 <= i < |es| ==> told[i] == Tells(Run(old(events) + es[..i]), es[i])
    {
      hide *;
      ghost var before := events;
      told := [];
      assert before + es[..0] == before;
      for k := 0 to |es|
        invariant Valid() && events == before + es[..k] && |told| == k
        invariant forall i :: 0 <= i < |nodes| ==> nodes[i] in old(nodes) || fresh(nodes[i])
        invariant forall i :: 0 <= i < k ==> told[i] == Tells(Run(before + es[..i]), es[i])
      {
        RunIs();
        GenuineAt(es, k);
        var t := Handle(es[k]);
        told := told + [t];
        assert before + es[..k] + [es[k]] == before + es[..k + 1];
      }
      assert es[..|es|] == es;
      RunIs();
    }

    lemma RunIs()
      requires Valid()
      ensures session == Run(events) && List() == Run(events).brokers
    {
      hide Run, Linked, List;
    }
  }

  lemma GenuineAt(es: seq<Event>, k: nat)
    requires Genuine(es) && k < |es|
    ensures es[k].Published? ==> es[k].channel in {1, 2}
  {
  }

  // What the caller of SQL sees of an event: a truth value, the warnings of a COMMIT, or nothing.
  datatype Told = Nothing | Answered(ok: bool) | Warned(warnings: seq<Warning>)

  function Tells(s: Session, e: Event): Told {
    match e
    case Published(id, channel, body, limit, mandatory, first, second) =>
      Answered(!TooLarge(body, limit) &&
               Publish(View(s.brokers, id), channel, MessageOf(s, body), mandatory, first, second).1)
    case Declared(id, dial, accepted) => Answered(Declare(View(s.brokers, id), dial, accepted).1)
    case Prepare(_) => Answered(!PrepareRefused(s.brokers))
    case Commit(answers) =>
      Warned(seq(|s.brokers|, i requires 0 <= i < |s.brokers| => CommitOne(s.brokers[i], answers(s.brokers[i].id)).1))
    case _ => Nothing
  }

  lemma AbortIsStep(s: Session, e: Event)
    requires e.Abort?
    ensures var bs := Step(s, e).brokers;
            |bs| == |s.brokers| && forall i :: 0 <= i < |bs| ==> bs[i] == AbortOne(s.brokers[i], e.answers(s.brokers[i].id))
  {
    hide AbortOne;
  }

  lemma RollbackIsStep(s: Session)
    requires s.open != []
    ensures var bs := Step(s, RollbackTo).brokers;
            |bs| == |s.brokers| && forall i :: 0 <= i < |bs| ==> bs[i] == AbortSub(s.brokers[i])
  {
    hide AbortSub;
  }

  lemma PrepareIsStep(s: Session, answers: int -> Answer)
    ensures var bs := Step(s, Prepare(answers)).brokers;
            |bs| == |s.brokers| && forall i :: 0 <= i < |bs| ==>
              bs[i] == if PrepareRefused(s.brokers) then AbortOne(s.brokers[i], answers(s.brokers[i].id)) else Ended(s.brokers[i])
  {
    hide AbortOne;
  }

  lemma CommitIsStep(s: Session, answers: int -> Answer)
    ensures var bs := Step(s, Commit(answers)).brokers;
            |bs| == |s.brokers| && forall i :: 0 <= i < |bs| ==> bs[i] == CommitOne(s.brokers[i], answers(s.brokers[i].id)).0
  {
    hide CommitOne;
  }
}
