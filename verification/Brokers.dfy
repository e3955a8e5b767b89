/** One broker state of a backend (struct brokerstate in pg_amqp.c), and what the broker holds for its channels. */
module Brokers {
  import opened Failover

  // A message, with the transaction and the open subtransactions it was published in.
  datatype Message = Message(body: seq<char>, txn: nat, path: set<nat>)

  // The fields of struct brokerstate (conn: whether it is set), and then: the transaction buffer of channel 2
  // at the broker, what its commits delivered, what was published on channel 1, the messages that were
  // accepted on channel 2 since the transaction began, and how many of these a dropped connection took along.
  datatype Broker = Broker(
    id: int, conn: bool, sockfd: int, uncommitted: nat, inerror: bool, blocked: bool,
    idx: nat, failures: nat, lastFailed: int, hosts: nat,
    buffer: seq<Message>, delivered: seq<Message>, direct: seq<Message>,
    acked: seq<Message>, lost: nat)

  function New(id: int): Broker {
    Broker(id, false, -1, 0, false, false, 0, 0, 0, 0, [], [], [], [], 0)
  }

  // A dropped connection takes the transaction buffer with it; inerror and the backoff stay.
  function Disconnected(b: Broker): Broker {
    if !b.conn then b
    else b.(conn := false, sockfd := -1, uncommitted := 0, blocked := false,
            buffer := [], lost := b.lost + b.uncommitted)
  }

  // amqp.disconnect.
  function Reset(b: Broker): Broker {
    Disconnected(b).(inerror := false, idx := 0, failures := 0, lastFailed := 0, hosts := 0)
  }

  /// Frames that the broker has pushed

  datatype Notice = Returned | BlockedNotice | UnblockedNotice | CloseNotice | OtherNotice

  // The frames that have arrived, and whether there are just no more of them for now.
  datatype Drained = Drained(notices: seq<Notice>, healthy: bool)

  // Whether the broker is blocked after these frames, and whether none of them closes a channel.
  function Drain(blocked: bool, notices: seq<Notice>): (bool, bool)
    decreases |notices|
  {
    if notices == [] then (blocked, true)
    else
      match notices[0]
      case CloseNotice => (blocked, false)
      case BlockedNotice => Drain(true, notices[1..])
      case UnblockedNotice => Drain(false, notices[1..])
      case _ => Drain(blocked, notices[1..])
  }

  function Surfaced(b: Broker, d: Drained): (Broker, bool) {
    if !b.conn then (b, false)
    else var (blocked, open) := Drain(b.blocked, d.notices); (b.(blocked := blocked), open && d.healthy)
  }

  /// Connecting

  function Cached(b: Broker, d: Dial): Broker {
    if b.hosts != 0 || d.rows == 0 then b else b.(hosts := d.rows, idx := d.pid % d.rows)
  }

  // The failover loop: idx advances with every try.
  function HostsTried(b: Broker, d: Dial): (Broker, bool)
    requires b.hosts > 0
  {
    var (k, ok) := Tried(d, 0, b.hosts);
    var c := b.(idx := HostAt(b.idx, k - 1, b.hosts), blocked := false, buffer := []);
    if ok then (c.(conn := true, sockfd := d.fd, failures := 0, lastFailed := 0), true)
    else (c.(sockfd := -1, uncommitted := 0), false)
  }

  // local_amqp_get_bs, after the broker state was found.
  function Dialed(b: Broker, d: Dial): Broker {
    if b.conn || Suppressed(Backoff(b.failures, b.lastFailed), d.now, d.pid) then b
    else
      var c := Cached(b, d);
      var (e, ok) := if c.hosts == 0 then (c, false) else HostsTried(c, d);
      if ok then e else e.(failures := e.failures + 1, lastFailed := d.later)
  }

  /// Publishing

  // One round of pg_amqp_publish_opt: connecting, the frames that had arrived, whether the socket took the
  // message, whether the broker got it although the socket reported an error, and the frames after that.
  datatype Attempt = Attempt(dial: Dial, drained: Drained, written: bool, landed: bool, after: Drained)

  function Sent(b: Broker, channel: nat, m: Message, a: Attempt): Broker {
    if !a.written && !a.landed then b
    else if channel == 2 then b.(buffer := b.buffer + [m])
    else b.(direct := b.direct + [m])
  }

  datatype Outcome = Accepted | Refused | Again

  // basic.publish on a connection that looks usable.
  function Write(b: Broker, channel: nat, m: Message, mandatory: bool, again: bool, a: Attempt): (Broker, Outcome) {
    var e := Sent(b, channel, m, a);
    var f := if channel == 1 && mandatory then Surfaced(e, a.after).0 else e;
    if a.written then
      (if channel == 2 then f.(uncommitted := f.uncommitted + 1, acked := f.acked + [m]) else f, Accepted)
    else if again then (f, Again)
    else (f.(inerror := true), Refused)
  }

  // One round of pg_amqp_publish_opt. It ends with the wish for another one on a new connection if that is
  // still allowed, and no accepted message would go with the old one (channel 1 does not care).
  function Round(b: Broker, channel: nat, m: Message, mandatory: bool, onceMore: bool, a: Attempt): (Broker, Outcome) {
    var c := Dialed(b, a.dial);
    if !c.conn || (channel != 1 && c.inerror) then (c, Refused)
    else
      var (d, usable) := Surfaced(c, a.drained);
      var again := onceMore && (channel == 1 || d.uncommitted == 0);
      if usable then (if d.blocked then (d, Refused) else Write(d, channel, m, mandatory, again, a))
      else if again then (d, Again)
      else (if channel == 2 then d.(inerror := true) else d, Refused)
  }

  function Publish(b: Broker, channel: nat, m: Message, mandatory: bool, first: Attempt, second: Attempt)
    : (Broker, bool)
  {
    var (c, o) := Round(b, channel, m, mandatory, true, first);
    if o != Again then (c, o == Accepted)
    else
      var (d, o') := Round(Disconnected(c), channel, m, mandatory, false, second);
      (d, o' == Accepted)
  }

  // The failure path of pg_amqp_exchange_declare drops the connection.
  function Declare(b: Broker, dial: Dial, accepted: bool): (Broker, bool) {
    var c := Dialed(b, dial);
    if !c.conn then (c, false)
    else if accepted then (c, true)
    else (Disconnected(c), false)
  }

  /// The end of a transaction

  // The answer to tx.commit or tx.rollback, and whether the broker did it although the answer did not come.
  datatype Answer = Answer(drained: Drained, normal: bool, done: bool)

  // The broker's side of a tx.commit: all of the buffer or nothing.
  function Flushed(b: Broker, a: Answer): Broker {
    if a.normal || a.done then b.(delivered := b.delivered + b.buffer, buffer := []) else b
  }

  // A warning about lost messages, with their number.
  datatype Warning = NoWarning | Discarding(count: nat) | CommitFailed(count: nat)

  // What the transaction accepted is history when it ends.
  function Ended(b: Broker): Broker {
    b.(acked := [], lost := 0)
  }

  // XACT_EVENT_COMMIT on one broker.
  function CommitOne(b: Broker, a: Answer): (Broker, Warning) {
    if b.uncommitted > 0 && (b.inerror || !b.conn) then
      (Ended(Disconnected(b).(inerror := false, uncommitted := 0)), Discarding(b.uncommitted))
    else
      var c := if b.inerror then Disconnected(b).(inerror := false) else b;
      if c.uncommitted == 0 then (Ended(c), NoWarning)
      else
        var d := Flushed(Surfaced(c, a.drained).0, a);
        if a.normal then (Ended(d.(uncommitted := 0)), NoWarning)
        else (Ended(Disconnected(d).(uncommitted := 0)), CommitFailed(d.uncommitted))
  }

  // XACT_EVENT_ABORT on one broker.
  function AbortOne(b: Broker, a: Answer): Broker {
    var c := (if b.inerror then Disconnected(b) else b).(inerror := false);
    Ended(
      if c.uncommitted == 0 || !c.conn then c.(uncommitted := 0)
      else if a.normal then c.(buffer := [], uncommitted := 0)
      else Disconnected(c).(uncommitted := 0))
  }

  // SUBXACT_EVENT_ABORT_SUB on one broker: the buffer cannot be undone in part, so it will be discarded.
  function AbortSub(b: Broker): Broker {
    if b.uncommitted > 0 && !b.inerror then b.(inerror := true) else b
  }

  /// What holds of every broker state

  ghost predicate Sane(b: Broker) {
    && (b.uncommitted > 0 ==> b.conn)
    && (!b.conn ==> b.sockfd == -1 && !b.blocked && b.buffer == [])
    && (b.buffer != [] ==> b.uncommitted > 0 || b.inerror)
    && |b.acked| == b.uncommitted + b.lost
    && (!b.inerror ==> b.buffer == b.acked[b.lost..])
    && (b.hosts > 0 ==> b.idx < b.hosts)
    && (b.conn ==> b.failures == 0 && b.lastFailed == 0)
  }

  lemma DialedSane(b: Broker, d: Dial)
    requires Sane(b)
    ensures var c := Dialed(b, d);
            && Sane(c) && c.id == b.id && c.inerror == b.inerror && c.uncommitted == b.uncommitted && c.lost == b.lost
            && c.acked == b.acked && c.buffer == b.buffer && c.delivered == b.delivered && c.direct == b.direct
  {
    hide Tried, HostAt, Window;
  }

  lemma DisconnectedSane(b: Broker)
    requires Sane(b)
    ensures Sane(Disconnected(b)) && Sane(Reset(b))
  {
    assert b.acked[|b.acked|..] == [];
  }

  // What a round does to the messages; what is left of a connection that is given up is dropped next.
  ghost predicate Effect(b: Broker, channel: nat, m: Message, c: Broker, o: Outcome) {
    var sent := if o == Accepted then [m] else [];
    && c.id == b.id && c.delivered == b.delivered && c.lost == b.lost
    && Sane(if o == Again then Disconnected(c) else c)
    && (!c.inerror ==> !b.inerror)
    && (o == Again ==> c.conn && (b.inerror || channel == 1 || b.buffer == []))
    && (channel == 1 ==>
          && c.uncommitted == b.uncommitted && c.acked == b.acked && c.buffer == b.buffer
          && b.direct + sent <= c.direct <= b.direct + [m])
    && (channel == 2 ==>
          && c.uncommitted == b.uncommitted + |sent| && c.acked == b.acked + sent && c.direct == b.direct
          && (o == Again ==> b.uncommitted == 0)
          && (!c.inerror && o != Again ==> c.buffer == b.buffer + sent))
  }

  lemma WriteEffect1(b: Broker, m: Message, mandatory: bool, again: bool, a: Attempt)
    requires Sane(b) && b.conn
    ensures var (c, o) := Write(b, 1, m, mandatory, again, a);
            Effect(b, 1, m, c, o) && (o == Again ==> again)
  {
    hide Drain;
  }

  lemma WriteEffect2(b: Broker, m: Message, mandatory: bool, again: bool, a: Attempt)
    requires Sane(b) && b.conn && !b.inerror && (again ==> b.uncommitted == 0)
    ensures var (c, o) := Write(b, 2, m, mandatory, again, a);
            Effect(b, 2, m, c, o) && (o == Again ==> again)
  {
    hide Drain, Surfaced;
  }

  lemma RoundEffect(b: Broker, channel: nat, m: Message, mandatory: bool, once: bool, a: Attempt)
    requires Sane(b) && channel in {1, 2}
    ensures var (c, o) := Round(b, channel, m, mandatory, once, a);
            Effect(b, channel, m, c, o) && (o == Again ==> once)
  {
    hide Dialed, Drain, Write;
    DialedSane(b, a.dial);
    var (d, usable) := Surfaced(Dialed(b, a.dial), a.drained);
    if d.conn && usable {
      if channel == 1 { WriteEffect1(d, m, mandatory, once, a); }
      else if !d.inerror { WriteEffect2(d, m, mandatory, once && d.uncommitted == 0, a); }
    }
  }

  // Publishing delivers nothing, and accepts the message exactly when it returns true. Only channel 1 can
  // drop a connection with accepted messages on it, and it does so exactly when its first round fails.
  lemma PublishEffect(b: Broker, channel: nat, m: Message, mandatory: bool, first: Attempt, second: Attempt)
    requires Sane(b) && channel in {1, 2}
    ensures var (c, ok) := Publish(b, channel, m, mandatory, first, second);
            && Sane(c) && c.id == b.id && c.delivered == b.delivered
            && (channel == 1 ==> c.acked == b.acked && c.lost == b.lost + if GivesUp(b, first) then b.uncommitted else 0)
            && (channel == 1 ==> b.direct <= c.direct <= b.direct + [m, m] && (ok ==> |c.direct| > |b.direct|))
            && (channel == 1 && !c.inerror ==> !b.inerror && (c.buffer == b.buffer || c.buffer == []))
            && (channel == 2 ==> c.direct == b.direct && c.lost == b.lost && c.acked == b.acked + if ok then [m] else [])
            && (channel == 2 && !c.inerror ==> !b.inerror && c.buffer == b.buffer + if ok then [m] else [])
  {
    hide Round, Sane;
    RoundEffect(b, channel, m, mandatory, true, first);
    var (c, o) := Round(b, channel, m, mandatory, true, first);
    GivesUpIs(b, m, mandatory, first);
    if o == Again {
      RoundEffect(Disconnected(c), channel, m, mandatory, false, second);
    }
  }

  // While the broker blocks publishers, a publish fails at once: nothing is sent, dropped or marked.
  lemma BlockedFailsFast(b: Broker, channel: nat, m: Message, mandatory: bool, first: Attempt, second: Attempt)
    requires Sane(b) && Surfaced(Dialed(b, first.dial), first.drained).1
    requires Surfaced(Dialed(b, first.dial), first.drained).0.blocked
    ensures var (c, ok) := Publish(b, channel, m, mandatory, first, second);
            && !ok && c.buffer == b.buffer && c.direct == b.direct && c.acked == b.acked
            && c.uncommitted == b.uncommitted && c.lost == b.lost && c.inerror == b.inerror
  {
    hide Dialed, Drain;
    DialedSane(b, first.dial);
  }

  // The first round of a publish on channel 1 finds its connection dead, or cannot write to it.
  predicate GivesUp(b: Broker, a: Attempt) {
    var (c, usable) := Surfaced(b, a.drained);
    b.conn && (!usable || (!c.blocked && !a.written))
  }

  lemma GivesUpIs(b: Broker, m: Message, mandatory: bool, a: Attempt)
    requires Sane(b)
    ensures b.uncommitted > 0 ==> (Round(b, 1, m, mandatory, true, a).1 == Again <==> GivesUp(b, a))
  {
    hide Drain;
  }

  /// The end of a transaction

  // Nothing is left over on any broker, whatever it answered.
  ghost predicate Settled(b: Broker) {
    b.uncommitted == 0 && !b.inerror && b.buffer == [] && b.acked == [] && b.lost == 0
  }

  lemma CommitSettles(b: Broker, a: Answer)
    requires Sane(b)
    ensures var c := CommitOne(b, a).0;
            && Sane(c) && Settled(c) && c.id == b.id && c.direct == b.direct
            && (c.delivered == b.delivered || (!b.inerror && c.delivered == b.delivered + b.buffer))
  {
    hide Drain;
  }

  lemma AbortSettles(b: Broker, a: Answer)
    requires Sane(b)
    ensures var c := AbortOne(b, a);
            Sane(c) && Settled(c) && c.id == b.id && c.delivered == b.delivered && c.direct == b.direct
  {
  }

  // A commit is exact if it delivers the accepted messages in their order and says nothing, or reports the
  // number of them and delivers all or none.
  ghost predicate Exact(accepted: seq<Message>, b: Broker, c: Broker, w: Warning) {
    match w
    case NoWarning => c.delivered == b.delivered + accepted
    case Discarding(n) => n == |accepted| && c.delivered == b.delivered
    case CommitFailed(n) => n == |accepted| && (c.delivered == b.delivered || c.delivered == b.delivered + accepted)
  }

  // It is exact if, and only if, no dropped connection has taken accepted messages along.
  lemma CommitExact(b: Broker, a: Answer)
    requires Sane(b)
    ensures Exact(b.acked, b, CommitOne(b, a).0, CommitOne(b, a).1) <==> b.lost == 0
  {
    hide Drain;
    var (c, w) := CommitOne(b, a);
    assert b.lost == 0 ==> b.acked[b.lost..] == b.acked;
    if b.lost > 0 && w.NoWarning? {
      assert |c.delivered| < |b.delivered + b.acked|;
    }
  }

  // On what no dropped connection has taken along, it is always exact.
  lemma CommitExactOnRest(b: Broker, a: Answer)
    requires Sane(b)
    ensures Exact(b.acked[b.lost..], b, CommitOne(b, a).0, CommitOne(b, a).1)
  {
    hide Drain;
  }

  /// Connect attempts of a broker state

  // A call that does not connect is an attempt that failed, or none.
  lemma FailedDial(b: Broker, d: Dial)
    requires !b.conn && !Dialed(b, d).conn
    ensures var c := Dialed(b, d);
            Backoff(c.failures, c.lastFailed) == Failing(Backoff(b.failures, b.lastFailed), d.now, d.later, d.pid)
  {
    hide Tried, HostAt, Window;
  }

  ghost function Times(ds: seq<Dial>): (ts: seq<(int, int)>)
    ensures |ts| == |ds| && forall i :: 0 <= i < |ts| ==> ts[i] == (ds[i].now, ds[i].later)
  {
    seq(|ds|, i requires 0 <= i < |ds| => (ds[i].now, ds[i].later))
  }
}
