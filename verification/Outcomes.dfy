/** What the calls of pg_amqp.c come to, in terms of what the environment does and of the state before the call:
    when a broker is dialled, when a publish returns true, what a COMMIT does. */
module Outcomes {
  import opened Basics
  import opened Failover
  import opened Brokers

  /// Connecting

  // The seconds after a failure in which no attempt is made, by the number of failures; the backend adds up to two.
  function Delay(failures: nat): nat {
    if failures == 0 then 2 else if failures == 1 then 4 else if failures == 2 then 8 else if failures == 3 then 16 else 30
  }

  // The clock of the call says that an attempt is due.
  predicate Due(b: Broker, d: Dial) {
    b.lastFailed == 0 || d.now - b.lastFailed >= Delay(b.failures) + d.pid % 3
  }

  lemma DueExactly(b: Broker, d: Dial)
    ensures Suppressed(Backoff(b.failures, b.lastFailed), d.now, d.pid) <==> !Due(b, d)
    ensures d.now - b.lastFailed >= 32 ==> Due(b, d)
  {
    PowersOf2();
    assert b.failures in {0, 1, 2, 3} || b.failures >= 4;
  }

  // The connect budget, if there is one, is used up when this try is over.
  predicate OverBudget(d: Dial, t: nat) {
    d.budget > 0 && d.startMs + d.budget != 0 && d.tries(t).doneAt >= d.startMs + d.budget
  }

  // The attempt has made k of n tries: none of them was accepted but perhaps the last one, and it has gone on as long
  // as there was time and a host left.
  predicate Made(d: Dial, k: nat, n: nat) {
    && 1 <= k <= n && (forall t :: 0 <= t < k - 1 ==> !d.tries(t).accepted && !OverBudget(d, t))
    && (k < n && !d.tries(k - 1).accepted ==> OverBudget(d, k - 1))
  }

  // The hosts that an attempt goes through, and the one before the first of them.
  function Hosts(b: Broker, d: Dial): nat {
    if b.hosts != 0 then b.hosts else d.rows
  }

  function Behind(b: Broker, d: Dial): nat {
    if b.hosts == 0 && d.rows > 0 then d.pid % d.rows else b.idx
  }

  // A call for a broker that is not connected: nothing happens before its time; else the hosts are tried one after the
  // other, and the broker is connected to the one that was accepted, or has failed once more.
  lemma DialOutcome(b: Broker, d: Dial)
    requires Sane(b) && !b.conn
    ensures !Due(b, d) ==> Dialed(b, d) == b
    ensures Due(b, d) && Hosts(b, d) == 0 ==> Dialed(b, d) == b.(failures := b.failures + 1, lastFailed := d.later)
    ensures Due(b, d) && Hosts(b, d) > 0 ==>
              var n, i, c := Hosts(b, d), Behind(b, d), Dialed(b, d);
              exists k: nat :: Made(d, k, n) &&
                c == b.(hosts := n, idx := (i + k) % n, conn := d.tries(k - 1).accepted,
                        sockfd := if d.tries(k - 1).accepted then d.fd else -1,
                        failures := if d.tries(k - 1).accepted then 0 else b.failures + 1,
                        lastFailed := if d.tries(k - 1).accepted then 0 else d.later)
  {
    hide Tried, HostAt, Suppressed, Made;
    DueExactly(b, d);
    var c := Cached(b, d);
    if Due(b, d) && c.hosts > 0 {
      var (k, ok) := Tried(d, 0, c.hosts);
      TriesMade(d, c.hosts);
      HostIs(c.idx, k, c.hosts);
      assert c == b.(hosts := Hosts(b, d), idx := Behind(b, d));
    }
  }

  lemma TriesMade(d: Dial, n: nat)
    requires n > 0
    ensures var (k, ok) := Tried(d, 0, n); Made(d, k, n) && (ok <==> d.tries(k - 1).accepted)
  {
    hide Tried;
    TriedIs(d, 0, n);
  }

  lemma HostIs(idx: nat, k: nat, n: nat)
    requires 0 < k && 0 < n
    ensures HostAt(idx, k - 1, n) == (idx + k) % n
  {
    assert idx + 1 + (k - 1) == idx + k;
  }

  // A call for a broker that is connected changes nothing.
  lemma ConnectedStays(b: Broker, d: Dial)
    ensures b.conn ==> Dialed(b, d) == b
  {
  }

  // With no budget to run out of, one host that can be used is enough.
  lemma UsableHostConnects(b: Broker, d: Dial, t: nat)
    requires Sane(b) && !b.conn && Due(b, d) && d.budget == 0 && t < Hosts(b, d) && d.tries(t).accepted
    ensures Dialed(b, d).conn
  {
    hide Dialed, Due;
    DialOutcome(b, d);
  }

  // With hosts that answer the same on every try and no budget, the attempt ends with the first usable host in
  // the cyclic order behind idx; if there is none, all were tried once, and idx is where it was.
  lemma FirstUsableHostIsChosen(b: Broker, d: Dial, usable: nat -> bool)
    requires Sane(b) && !b.conn && Due(b, d) && d.budget == 0 && Hosts(b, d) > 0
    requires forall t :: 0 <= t < Hosts(b, d) ==> d.tries(t).accepted == usable(HostAt(Behind(b, d), t, Hosts(b, d)))
    ensures var i, n, c := Behind(b, d), Hosts(b, d), Dialed(b, d);
            && i < n && c.hosts == n && c.idx < n && (forall t :: 0 <= t < n ==> HostAt(i, t, n) == (i + 1 + t) % n)
            && (c.conn <==> exists h :: 0 <= h < n && usable(h))
            && (c.conn ==> usable(c.idx) && forall h :: 0 <= h < n && usable(h) ==> TryOf(i, c.idx, n) <= TryOf(i, h, n))
            && (c.conn ==> c.failures == 0 && c.lastFailed == 0)
            && (!c.conn ==> c.idx == i && c.failures == b.failures + 1 && c.lastFailed == d.later)
  {
    hide Tried, HostAt, TryOf, Suppressed, Due;
    DueExactly(b, d);
    var c := Cached(b, d);
    FirstUsableHost(d, c.idx, c.hosts, usable);
    RoundOfHosts(c.idx, c.hosts);
    forall t | 0 <= t < c.hosts ensures HostAt(c.idx, t, c.hosts) == (c.idx + 1 + t) % c.hosts {
      HostIs(c.idx, t + 1, c.hosts);
    }
    var (k, ok) := Tried(d, 0, c.hosts);
    TryBack(c.idx, k - 1, c.hosts);
  }

  /// Frames that the broker has pushed

  // Publishers are blocked after these frames: the last alarm is on, or there is none and it was on before.
  ghost predicate Blocks(blocked: bool, ns: seq<Notice>) {
    || (exists i :: 0 <= i < |ns| && ns[i] == BlockedNotice && forall j :: i < j < |ns| ==> ns[j] != UnblockedNotice)
    || (blocked && UnblockedNotice !in ns)
  }

  lemma BlocksFirst(blocked: bool, ns: seq<Notice>)
    requires ns != []
    ensures Blocks(blocked, ns) <==>
            Blocks(if ns[0] == BlockedNotice then true else if ns[0] == UnblockedNotice then false else blocked, ns[1..])
  {
    var now := if ns[0] == BlockedNotice then true else if ns[0] == UnblockedNotice then false else blocked;
    assert UnblockedNotice in ns <==> ns[0] == UnblockedNotice || UnblockedNotice in ns[1..];
    if i :| 0 <= i < |ns| && ns[i] == BlockedNotice && forall j :: i < j < |ns| ==> ns[j] != UnblockedNotice {
      if i > 0 {
        assert ns[1..][i - 1] == BlockedNotice;
      } else {
        assert forall j :: 0 <= j < |ns[1..]| ==> ns[1..][j] == ns[j + 1];
      }
    }
    if i :| 0 <= i < |ns[1..]| && ns[1..][i] == BlockedNotice && forall j :: i < j < |ns[1..]| ==> ns[1..][j] != UnblockedNotice {
      assert ns[i + 1] == BlockedNotice;
      assert forall j :: i + 1 < j < |ns| ==> ns[j] == ns[1..][j - 1];
    }
    if now && UnblockedNotice !in ns[1..] && ns[0] == BlockedNotice {
      assert forall j :: 0 < j < |ns| ==> ns[j] == ns[1..][j - 1];
    }
  }

  // A close ends the reading; up to it, or to the end, the last alarm counts.
  lemma {:induction false} DrainOutcome(blocked: bool, ns: seq<Notice>, k: nat)
    requires k <= |ns| && CloseNotice !in ns[..k] && (k < |ns| ==> ns[k] == CloseNotice)
    ensures Drain(blocked, ns).1 <==> CloseNotice !in ns
    ensures Drain(blocked, ns).0 <==> Blocks(blocked, ns[..k])
    decreases |ns|
  {
    hide Blocks;
    if k == 0 {
      NoAlarm(blocked);
      assert ns[..0] == [];
    } else {
      var now := if ns[0] == BlockedNotice then true else if ns[0] == UnblockedNotice then false else blocked;
      assert ns[..k][1..] == ns[1..][..k - 1] && ns[..k][0] == ns[0];
      BlocksFirst(blocked, ns[..k]);
      DrainOutcome(now, ns[1..], k - 1);
      assert CloseNotice in ns <==> CloseNotice in ns[1..];
    }
  }

  lemma NoAlarm(blocked: bool)
    ensures Blocks(blocked, []) <==> blocked
  {
  }

  // There is a connection, and the frames that have arrived do not end it.
  predicate Open(b: Broker, d: Drained) {
    b.conn && d.healthy && CloseNotice !in d.notices
  }

  lemma OpenExactly(b: Broker, d: Drained)
    ensures var (c, usable) := Surfaced(b, d);
            && (usable <==> Open(b, d))
            && (Open(b, d) ==> (c.blocked <==> Blocks(b.blocked, d.notices)))
            && c == b.(blocked := c.blocked)
  {
    hide Blocks, Drain;
    assert d.notices[..|d.notices|] == d.notices;
    if CloseNotice !in d.notices {
      DrainOutcome(b.blocked, d.notices, |d.notices|);
    } else {
      var k := FirstClose(d.notices);
      DrainOutcome(b.blocked, d.notices, k);
    }
  }

  lemma {:induction false} FirstClose(ns: seq<Notice>) returns (k: nat)
    requires CloseNotice in ns
    ensures k < |ns| && ns[k] == CloseNotice && CloseNotice !in ns[..k]
  {
    if ns[0] == CloseNotice {
      k := 0;
    } else {
      k := FirstClose(ns[1..]);
      assert ns[..k + 1] == [ns[0]] + ns[1..][..k];
      k := k + 1;
    }
  }

  /// Publishing

  // The message is written to the socket: the connection is open and not blocked.
  ghost predicate Writes(b: Broker, a: Attempt) {
    Open(b, a.drained) && !Blocks(b.blocked, a.drained.notices)
  }

  // There is a connection, but it is dead or does not take the message.
  ghost predicate Fails(b: Broker, a: Attempt) {
    b.conn && (!Open(b, a.drained) || (Writes(b, a) && !a.written))
  }

  // The copy of the message that the broker gets.
  ghost function Copy(b: Broker, a: Attempt, m: Message): seq<Message> {
    if Writes(b, a) && (a.written || a.landed) then [m] else []
  }

  // One round, on the connection that there is or that the call makes.
  lemma RoundOutcome(b: Broker, channel: nat, m: Message, mandatory: bool, onceMore: bool, a: Attempt)
    requires Sane(b) && channel in {1, 2}
    ensures var one := Dialed(b, a.dial);
            var may := channel == 1 || !b.inerror;
            var again := onceMore && (channel == 1 || b.uncommitted == 0);
            var (c, o) := Round(b, channel, m, mandatory, onceMore, a);
            && (o == Accepted <==> may && Writes(one, a) && a.written)
            && (o == Again <==> may && Fails(one, a) && again)
            && (c.inerror <==> b.inerror || (may && Fails(one, a) && !again && (channel == 2 || Writes(one, a))))
            && c == one.(blocked := c.blocked, inerror := c.inerror, uncommitted := c.uncommitted,
                         acked := c.acked, buffer := c.buffer, direct := c.direct)
            && (channel == 1 ==> c.direct == one.direct + Copy(one, a, m))
            && (channel == 2 ==> c.buffer == one.buffer + if may then Copy(one, a, m) else [])
            && (o == Accepted ==> (c.blocked <==> channel == 1 && mandatory && Drain(false, a.after.notices).0))
  {
    hide Dialed, Drain, Blocks;
    DialedSane(b, a.dial);
    OpenExactly(Dialed(b, a.dial), a.drained);
  }

  // A publish that returns true marks nothing.
  lemma NotBoth(b: Broker, channel: nat, first: Attempt, second: Attempt)
    ensures !(Succeeds(b, channel, first, second) && Spoils(b, channel, first, second))
  {
    hide Dialed, Redialed, Blocks;
  }

  // The log of what went out on channel 1 does not matter to a call that connects.
  lemma DialedDirect(b: Broker, direct: seq<Message>, d: Dial)
    ensures Dialed(b.(direct := direct), d) == Dialed(b, d).(direct := direct)
  {
    hide Tried, HostAt, Suppressed, HostsTried;
    var c := Cached(b, d);
    assert Cached(b.(direct := direct), d) == c.(direct := direct);
    if c.hosts > 0 { TriedDirect(c, direct, d); }
  }

  lemma TriedDirect(b: Broker, direct: seq<Message>, d: Dial)
    requires b.hosts > 0
    ensures var (c, ok) := HostsTried(b, d); HostsTried(b.(direct := direct), d) == (c.(direct := direct), ok)
  {
    hide Tried, HostAt;
  }

  lemma FailsOnConnection(b: Broker, a: Attempt)
    ensures Fails(b, a) ==> b.conn
  {
  }

  lemma DirectApart(b: Broker, direct: seq<Message>, a: Attempt, m: Message)
    ensures var c := b.(direct := direct);
            (Writes(c, a) <==> Writes(b, a)) && (Fails(c, a) <==> Fails(b, a)) && Copy(c, a, m) == Copy(b, a, m)
  {
  }

  // The publish has a second round: the first connection fails, and no accepted message would be lost with it
  // (channel 1 does not look).
  ghost predicate Redials(b: Broker, channel: nat, first: Attempt) {
    (channel == 1 || (!b.inerror && b.uncommitted == 0)) && Fails(Dialed(b, first.dial), first)
  }

  // What the call of the second round leads to.
  function Redialed(b: Broker, first: Attempt, second: Attempt): Broker {
    Dialed(Disconnected(Dialed(b, first.dial)), second.dial)
  }

  // The connection that there is, or that the call makes, takes the message; or it fails, and the next one does.
  ghost predicate Succeeds(b: Broker, channel: nat, first: Attempt, second: Attempt) {
    || ((channel == 1 || !b.inerror) && Writes(Dialed(b, first.dial), first) && first.written)
    || (Redials(b, channel, first) && Writes(Redialed(b, first, second), second) && second.written)
  }

  // The publish marks the transaction as failed: the connection that fails has accepted messages on it, or the second
  // one fails as well; on channel 1 only if it does not take the message.
  ghost predicate Spoils(b: Broker, channel: nat, first: Attempt, second: Attempt) {
    var two := Redialed(b, first, second);
    Fails(Dialed(b, first.dial), first) &&
    if channel == 1 then Writes(two, second) && !second.written else b.uncommitted > 0 || Fails(two, second)
  }

  // The second round starts from a connection that was dropped, and knows nothing of the first one but its copy.
  lemma SecondRound(b: Broker, channel: nat, m: Message, mandatory: bool, first: Attempt, second: Attempt)
    requires Sane(b) && channel in {1, 2} && Round(b, channel, m, mandatory, true, first).1 == Again
    ensures var c, two := Round(b, channel, m, mandatory, true, first).0, Redialed(b, first, second);
            var e := Dialed(Disconnected(c), second.dial);
            && e == two.(direct := c.direct) && Disconnected(c).inerror == b.inerror && two.buffer == []
            && (Writes(e, second) <==> Writes(two, second)) && (Fails(e, second) <==> Fails(two, second))
            && Copy(e, second, m) == Copy(two, second, m) && Sane(Disconnected(c)) && Disconnected(c).uncommitted == 0
  {
    hide Round, Dialed, Writes, Fails, Copy, Drain, Sane;
    RoundOutcome(b, channel, m, mandatory, true, first);
    RoundEffect(b, channel, m, mandatory, true, first);
    var one, c := Dialed(b, first.dial), Round(b, channel, m, mandatory, true, first).0;
    DialedSane(b, first.dial);
    FailsOnConnection(one, first);
    assert Disconnected(c) == Disconnected(one).(direct := c.direct);
    DialedDirect(Disconnected(one), c.direct, second.dial);
    DirectApart(Redialed(b, first, second), c.direct, second, m);
    DialedSane(Disconnected(c), second.dial);
  }

  // A connection that fails is always redialled at once: the backoff counts from failed attempts only.
  lemma RedialIsDue(b: Broker, first: Attempt, second: Attempt)
    requires Sane(b) && Dialed(b, first.dial).conn
    ensures Due(Disconnected(Dialed(b, first.dial)), second.dial)
  {
    hide Dialed;
    DialedSane(b, first.dial);
  }

  // A publish, for every state and every environment: when it returns true, when it marks the transaction as failed,
  // which connection is left, and what the broker gets.
  lemma PublishOutcome(b: Broker, channel: nat, m: Message, mandatory: bool, first: Attempt, second: Attempt)
    requires Sane(b) && channel in {1, 2}
    ensures Publish(b, channel, m, mandatory, first, second).1 <==> Succeeds(b, channel, first, second)
    ensures Publish(b, channel, m, mandatory, first, second).0.inerror <==> b.inerror || Spoils(b, channel, first, second)
    ensures var last := if Redials(b, channel, first) then Redialed(b, first, second) else Dialed(b, first.dial);
            var c := Publish(b, channel, m, mandatory, first, second).0;
            && c.conn == last.conn && c.sockfd == last.sockfd && c.idx == last.idx && c.hosts == last.hosts
            && c.failures == last.failures && c.lastFailed == last.lastFailed
    ensures var one, two := Dialed(b, first.dial), Redialed(b, first, second);
            channel == 1 ==>
              Publish(b, channel, m, mandatory, first, second).0.direct ==
                b.direct + Copy(one, first, m) + if Redials(b, channel, first) then Copy(two, second, m) else []
    ensures var one, two := Dialed(b, first.dial), Redialed(b, first, second);
            channel == 2 ==>
              Publish(b, channel, m, mandatory, first, second).0.buffer ==
                if b.inerror then b.buffer
                else if Redials(b, channel, first) then Copy(two, second, m) else b.buffer + Copy(one, first, m)
    ensures var (c, ok) := Publish(b, channel, m, mandatory, first, second);
            ok ==> (c.blocked <==>
                    channel == 1 && mandatory &&
                    Drain(false, (if Redials(b, channel, first) then second else first).after.notices).0)
  {
    hide Round, Dialed, Blocks, Copy, Drain, Sane, Redialed;
    RoundOutcome(b, channel, m, mandatory, true, first);
    DialedSane(b, first.dial);
    var (c, o) := Round(b, channel, m, mandatory, true, first);
    if o == Again {
      SecondRound(b, channel, m, mandatory, first, second);
      RoundOutcome(Disconnected(c), channel, m, mandatory, false, second);
    }
  }

  /// The end of a transaction, savepoints, and the other calls

  // The broker does the tx.commit, or the tx.rollback, of a connection that is not in error; whatever is wrong, the
  // connection is given up, and what is wrong with accepted messages is said with their number.
  lemma CommitOutcome(b: Broker, a: Answer)
    requires Sane(b)
    ensures CommitOne(b, a).1 == if b.uncommitted == 0 then NoWarning
                                 else if b.inerror then Discarding(b.uncommitted)
                                 else if a.normal then NoWarning else CommitFailed(b.uncommitted)
    ensures CommitOne(b, a).0.delivered ==
              b.delivered + if b.uncommitted > 0 && !b.inerror && (a.normal || a.done) then b.buffer else []
    ensures var c := CommitOne(b, a).0;
            && (c.conn <==> b.conn && !b.inerror && (b.uncommitted == 0 || a.normal))
            && c.sockfd == (if c.conn then b.sockfd else -1) && c.direct == b.direct
            && c.uncommitted == 0 && !c.inerror && c.buffer == []
            && c.idx == b.idx && c.hosts == b.hosts && c.failures == b.failures && c.lastFailed == b.lastFailed
    ensures CommitOne(b, a).0.conn && Open(b, a.drained) ==>
              (CommitOne(b, a).0.blocked <==> if b.uncommitted > 0 then Blocks(b.blocked, a.drained.notices) else b.blocked)
  {
    hide Drain, Blocks;
    OpenExactly(b, a.drained);
  }

  lemma AbortOutcome(b: Broker, a: Answer)
    requires Sane(b)
    ensures var c := AbortOne(b, a);
            && (c.conn <==> b.conn && !b.inerror && (b.uncommitted == 0 || a.normal))
            && c.sockfd == (if c.conn then b.sockfd else -1) && c.direct == b.direct && c.delivered == b.delivered
            && c.uncommitted == 0 && !c.inerror && c.buffer == [] && (c.conn ==> c.blocked == b.blocked)
            && c.idx == b.idx && c.hosts == b.hosts && c.failures == b.failures && c.lastFailed == b.lastFailed
  {
  }

  // A savepoint that is rolled back marks exactly the brokers that hold messages, and changes nothing else.
  lemma SavepointOutcome(b: Broker)
    ensures AbortSub(b) == b.(inerror := b.inerror || b.uncommitted > 0)
  {
  }

  // exchange.declare is true exactly when there is a connection and the broker agrees; if it does not, the connection
  // goes with all that waits on it, and the error mark of the transaction stays as it is.
  lemma DeclareOutcome(b: Broker, d: Dial, accepted: bool)
    requires Sane(b)
    ensures var one, (c, ok) := Dialed(b, d), Declare(b, d, accepted);
            && (ok <==> one.conn && accepted) && (c.conn <==> ok) && c.inerror == b.inerror
            && c.idx == one.idx && c.hosts == one.hosts && c.failures == one.failures && c.lastFailed == one.lastFailed
            && (ok ==> c == one) && (!ok ==> c.sockfd == -1 && c.uncommitted == 0 && c.buffer == [])
            && c.delivered == b.delivered && c.direct == b.direct
  {
    hide Dialed;
    DialedSane(b, d);
  }

  // After amqp.disconnect the next call connects at once, and reads the hosts anew.
  lemma ResetOutcome(b: Broker, d: Dial)
    requires Sane(b)
    ensures var c := Reset(b);
            && !c.conn && c.sockfd == -1 && c.uncommitted == 0 && !c.inerror && !c.blocked && c.buffer == []
            && c.delivered == b.delivered && c.direct == b.direct
            && Due(c, d) && Hosts(c, d) == d.rows && (d.rows > 0 ==> Behind(c, d) == d.pid % d.rows)
  {
  }
}
