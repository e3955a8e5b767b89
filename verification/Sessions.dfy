/** A whole session of one backend: any sequence of publishes, savepoints, disconnects and ends of transactions. */
module Sessions {
  import opened Failover
  import opened Brokers
  import opened Outcomes

  datatype Event =
    | Published(id: int, channel: nat, body: seq<char>, limit: nat, mandatory: bool, first: Attempt, second: Attempt)
    | Declared(id: int, dial: Dial, accepted: bool)
    | Disconnect(id: int)
    | Savepoint
    | Release
    | RollbackTo
    | Prepare(answers: int -> Answer)
    | Commit(answers: int -> Answer)
    | Abort(answers: int -> Answer)

  // The list of broker states, the current transaction and its open subtransactions (innermost last); and
  // what PostgreSQL did so far.
  datatype Session = Session(brokers: seq<Broker>, txn: nat, open: seq<nat>, nextSub: nat,
                             aborted: set<nat>, committed: set<nat>)

  const START := Session([], 0, [], 0, {}, {})

  // pg_amqp.max_body_bytes, before the broker state is looked up.
  predicate TooLarge(body: seq<char>, limit: nat) {
    limit > 0 && |body| > limit
  }

  function Elements(s: seq<nat>): set<nat> {
    set i | i in s
  }

  function MessageOf(s: Session, body: seq<char>): Message {
    Message(body, s.txn, Elements(s.open))
  }

  // The event calls local_amqp_get_a_bs for this broker.
  predicate Touches(e: Event, id: int) {
    match e
    case Published(i, _, body, limit, _, _, _) => i == id && !TooLarge(body, limit)
    case Declared(i, _, _) => i == id
    case Disconnect(i) => i == id
    case _ => false
  }

  // XACT_EVENT_PRE_PREPARE raises an error, which aborts the transaction.
  predicate PrepareRefused(bs: seq<Broker>) {
    exists i :: 0 <= i < |bs| && bs[i].uncommitted > 0
  }

  predicate Ends(e: Event) {
    e.Prepare? || e.Commit? || e.Abort?
  }

  function BrokerStep(b: Broker, s: Session, e: Event): Broker {
    match e
    case Published(_, channel, body, _, mandatory, first, second) =>
      if Touches(e, b.id) then Publish(b, channel, MessageOf(s, body), mandatory, first, second).0 else b
    case Declared(_, dial, accepted) => if Touches(e, b.id) then Declare(b, dial, accepted).0 else b
    case Disconnect(_) => if Touches(e, b.id) then Reset(b) else b
    case Savepoint => b
    case Release => b
    case RollbackTo => if s.open == [] then b else AbortSub(b)
    case Prepare(answers) => if PrepareRefused(s.brokers) then AbortOne(b, answers(b.id)) else Ended(b)
    case Commit(answers) => CommitOne(b, answers(b.id)).0
    case Abort(answers) => AbortOne(b, answers(b.id))
  }

  predicate Has(bs: seq<Broker>, id: int) {
    exists i :: 0 <= i < |bs| && bs[i].id == id
  }

  // local_amqp_get_a_bs: a new broker state goes to the front.
  function Ensured(bs: seq<Broker>, id: int): (cs: seq<Broker>)
    ensures Has(cs, id)
  {
    if Has(bs, id) then bs else var cs := [New(id)] + bs; assert cs[0].id == id; cs
  }

  function Listed(bs: seq<Broker>, e: Event): seq<Broker> {
    match e
    case Published(id, _, body, limit, _, _, _) => if TooLarge(body, limit) then bs else Ensured(bs, id)
    case Declared(id, _, _) => Ensured(bs, id)
    case Disconnect(id) => Ensured(bs, id)
    case _ => bs
  }

  function StepAll(bs: seq<Broker>, s: Session, e: Event): (cs: seq<Broker>)
    ensures |cs| == |bs| && forall i :: 0 <= i < |cs| ==> cs[i] == BrokerStep(bs[i], s, e)
  {
    seq(|bs|, i requires 0 <= i < |bs| => BrokerStep(bs[i], s, e))
  }

  function Step(s: Session, e: Event): Session {
    Session(
      StepAll(Listed(s.brokers, e), s, e),
      if Ends(e) then s.txn + 1 else s.txn,
      if Ends(e) then [] else if e.Savepoint? then s.open + [s.nextSub]
      else if (e.Release? || e.RollbackTo?) && s.open != [] then s.open[..|s.open| - 1] else s.open,
      if e.Savepoint? then s.nextSub + 1 else s.nextSub,
      if e.RollbackTo? && s.open != [] then s.aborted + {s.open[|s.open| - 1]} else s.aborted,
      if e.Commit? then s.committed + {s.txn} else s.committed)
  }

  function Run(es: seq<Event>): Session {
    if es == [] then START else Step(Run(es[..|es| - 1]), es[|es| - 1])
  }

  // Events as pg_amqp.c raises them: there are two channels.
  predicate Genuine(es: seq<Event>) {
    forall i :: 0 <= i < |es| && es[i].Published? ==> es[i].channel in {1, 2}
  }

  /// Every reachable state

  ghost predicate Distinct(bs: seq<Broker>) {
    forall i, j :: 0 <= i < j < |bs| ==> bs[i].id != bs[j].id
  }

  // A buffered message that will not be discarded belongs to work that has not been rolled back.
  ghost predicate Live(m: Message, s: Session) {
    m.txn == s.txn && m.path !! s.aborted && forall i :: i in m.path ==> i < s.nextSub
  }

  ghost predicate Justified(m: Message, s: Session) {
    m.txn in s.committed && m.path !! s.aborted
  }

  // A delivered message: nothing that happens later can undo it.
  ghost predicate Past(m: Message, s: Session) {
    Justified(m, s) && m.path !! Elements(s.open) && forall i :: i in m.path ==> i < s.nextSub
  }

  ghost predicate BrokerOk(b: Broker, s: Session) {
    && Sane(b)
    && (!b.inerror ==> forall m :: m in b.buffer ==> Live(m, s))
    && (forall m :: m in b.delivered ==> Past(m, s))
  }

  ghost predicate OpenOk(s: Session) {
    && (forall i :: 0 <= i < |s.open| ==> s.open[i] < s.nextSub && s.open[i] !in s.aborted)
    && (forall i, j :: 0 <= i < j < |s.open| ==> s.open[i] != s.open[j])
    && (forall i :: i in s.aborted ==> i < s.nextSub)
  }

  ghost predicate SessionOk(s: Session) {
    OpenOk(s) && Distinct(s.brokers) && forall i :: 0 <= i < |s.brokers| ==> BrokerOk(s.brokers[i], s)
  }

  lemma OpenStep(s: Session, e: Event)
    requires OpenOk(s)
    ensures OpenOk(Step(s, e))
  {
    hide StepAll, Listed, BrokerStep;
  }

  // What was true of the messages of the past stays true.
  lemma PastStep(m: Message, s: Session, e: Event)
    requires OpenOk(s) && Past(m, s)
    ensures Past(m, Step(s, e))
  {
    hide StepAll, Listed, BrokerStep;
  }

  // A live message stays live, unless a subtransaction is rolled back or the transaction ends.
  lemma LiveStep(m: Message, s: Session, e: Event)
    requires OpenOk(s) && Live(m, s) && !Ends(e) && (e.RollbackTo? ==> s.open == [])
    ensures Live(m, Step(s, e))
  {
    hide StepAll, Listed, BrokerStep;
  }

  // What is flushed at a commit becomes part of the past.
  lemma Flushes(m: Message, s: Session, e: Event)
    requires Live(m, s) && e.Commit?
    ensures Past(m, Step(s, e))
  {
    hide StepAll, Listed, BrokerStep;
  }

  lemma NewIsLive(s: Session, body: seq<char>)
    requires OpenOk(s)
    ensures Live(MessageOf(s, body), s)
  {
  }

  lemma PublishedOk(b: Broker, s: Session, e: Event)
    requires e.Published? && e.channel in {1, 2} && BrokerOk(b, s) && OpenOk(s)
    ensures var c := BrokerStep(b, s, e);
            c.id == b.id && Sane(c) && c.delivered == b.delivered && (!c.inerror ==> forall m :: m in c.buffer ==> Live(m, s))
  {
    hide Publish, Sane, GivesUp, Live, Past;
    PublishEffect(b, e.channel, MessageOf(s, e.body), e.mandatory, e.first, e.second);
    NewIsLive(s, e.body);
  }

  lemma OtherOk(b: Broker, s: Session, e: Event)
    requires !e.Published? && BrokerOk(b, s) && OpenOk(s)
    requires e.Prepare? && !PrepareRefused(s.brokers) ==> b.uncommitted == 0
    ensures var c := BrokerStep(b, s, e);
            && c.id == b.id && Sane(c)
            && (c.delivered == b.delivered || (e.Commit? && !b.inerror && c.delivered == b.delivered + b.buffer))
            && (!c.inerror ==> c.buffer == [] || (!b.inerror && c.buffer == b.buffer))
            && (!c.inerror && (Ends(e) || (e.RollbackTo? && s.open != [])) ==> c.buffer == [])
  {
    hide Dialed, CommitOne, AbortOne, Live, Past;
    match e
    case Declared(_, dial, _) =>
      DialedSane(b, dial);
      DisconnectedSane(Dialed(b, dial));
    case Disconnect(_) => DisconnectedSane(b);
    case Prepare(answers) => AbortSettles(b, answers(b.id));
    case Commit(answers) => CommitSettles(b, answers(b.id));
    case Abort(answers) => AbortSettles(b, answers(b.id));
    case _ =>
  }

  lemma BrokerStepOk(b: Broker, s: Session, e: Event)
    requires (e.Published? ==> e.channel in {1, 2}) && BrokerOk(b, s) && OpenOk(s)
    requires e.Prepare? && !PrepareRefused(s.brokers) ==> b.uncommitted == 0
    ensures BrokerOk(BrokerStep(b, s, e), Step(s, e)) && BrokerStep(b, s, e).id == b.id
  {
    hide BrokerStep, Step, Sane, Live, Past, OpenOk, PrepareRefused;
    var c, t := BrokerStep(b, s, e), Step(s, e);
    if e.Published? { PublishedOk(b, s, e); } else { OtherOk(b, s, e); }
    forall m | m in b.delivered ensures Past(m, t) {
      PastStep(m, s, e);
    }
    if e.Commit? && !b.inerror {
      forall m | m in b.buffer ensures Past(m, t) {
        Flushes(m, s, e);
      }
    }
    if !c.inerror && c.buffer != [] {
      forall m | m in c.buffer ensures Live(m, t) {
        LiveStep(m, s, e);
      }
    }
  }

  lemma ListedOk(s: Session, e: Event)
    requires SessionOk(s)
    ensures var bs := Listed(s.brokers, e);
            Distinct(bs) && forall i :: 0 <= i < |bs| ==> BrokerOk(bs[i], s) && (!PrepareRefused(s.brokers) && e.Prepare? ==> bs[i].uncommitted == 0)
  {
    hide Live, Past;
  }

  lemma StepOk(s: Session, e: Event)
    requires SessionOk(s) && (e.Published? ==> e.channel in {1, 2})
    ensures SessionOk(Step(s, e))
  {
    hide BrokerStep, BrokerOk, OpenOk, Listed, PrepareRefused;
    OpenStep(s, e);
    ListedOk(s, e);
    var bs := Listed(s.brokers, e);
    forall i | 0 <= i < |bs|
      ensures BrokerOk(BrokerStep(bs[i], s, e), Step(s, e)) && BrokerStep(bs[i], s, e).id == bs[i].id
    {
      BrokerStepOk(bs[i], s, e);
    }
  }

  lemma {:induction false} Reachable(es: seq<Event>)
    requires Genuine(es)
    ensures SessionOk(Run(es))
  {
    hide Step;
    if es != [] {
      Reachable(es[..|es| - 1]);
      StepOk(Run(es[..|es| - 1]), es[|es| - 1]);
    }
  }

  /// The main results

  // In every reachable state: each message that was delivered by a transaction of the broker was published in
  // a transaction of the database that committed, and in no subtransaction that was rolled back.
  lemma NoPhantomDelivery(es: seq<Event>, k: nat, m: Message)
    requires Genuine(es) && k < |Run(es).brokers| && m in Run(es).brokers[k].delivered
    ensures m.txn in Run(es).committed && m.path !! Run(es).aborted
  {
    hide Run;
    Reachable(es);
    assert BrokerOk(Run(es).brokers[k], Run(es)) && Past(m, Run(es));
  }

  // In every reachable state: one state per broker; messages wait on a connection only; a buffer is held by a
  // connection and will be flushed or discarded.
  lemma BrokerListInvariant(es: seq<Event>)
    requires Genuine(es)
    ensures var bs := Run(es).brokers;
            && (forall i, j :: 0 <= i < j < |bs| ==> bs[i].id != bs[j].id)
            && (forall i :: 0 <= i < |bs| ==>
                  && (bs[i].uncommitted > 0 ==> bs[i].conn)
                  && (!bs[i].conn ==> bs[i].sockfd == -1 && !bs[i].blocked)
                  && (bs[i].buffer != [] ==> bs[i].conn && (bs[i].uncommitted > 0 || bs[i].inerror))
                  && (bs[i].hosts > 0 ==> bs[i].idx < bs[i].hosts))
  {
    hide Run;
    Reachable(es);
  }

  // Every COMMIT and every ABORT, and every PREPARE that is refused, leaves no broker with messages or with
  // an error, whatever some of the brokers answered; and only a COMMIT delivers anything.
  lemma {:induction false} EndSettlesAll(es: seq<Event>, e: Event)
    requires Genuine(es) && (e.Commit? || e.Abort? || (e.Prepare? && PrepareRefused(Run(es).brokers)))
    ensures var bs, cs := Run(es).brokers, Step(Run(es), e).brokers;
            |cs| == |bs| && forall i :: 0 <= i < |cs| ==>
              Settled(cs[i]) && cs[i].id == bs[i].id && (!e.Commit? ==> cs[i].delivered == bs[i].delivered)
  {
    hide Run, PrepareRefused, CommitOne, AbortOne;
    Reachable(es);
    var s := Run(es);
    forall i | 0 <= i < |s.brokers|
      ensures var b, c := s.brokers[i], BrokerStep(s.brokers[i], s, e);
              Settled(c) && c.id == b.id && (!e.Commit? ==> c.delivered == b.delivered)
    {
      assert BrokerOk(s.brokers[i], s);
      if e.Commit? {
        CommitSettles(s.brokers[i], e.answers(s.brokers[i].id));
      } else {
        AbortSettles(s.brokers[i], e.answers(s.brokers[i].id));
      }
    }
  }

  /// What a commit delivers

  // The state of a broker; one that is not in the list is a new one.
  function View(bs: seq<Broker>, id: int): (b: Broker)
    ensures b.id == id
  {
    if bs == [] then New(id) else if bs[0].id == id then bs[0] else View(bs[1..], id)
  }

  // The message of this event, if it is one for which publish returns true.
  function AcceptedBy(b: Broker, s: Session, e: Event): seq<Message> {
    if e.Published? && e.channel == 2 && Touches(e, b.id) &&
       Publish(b, 2, MessageOf(s, e.body), e.mandatory, e.first, e.second).1
    then [Message(e.body, s.txn, Elements(s.open))] else []
  }

  // The messages for which publish returned true in the current transaction, in order.
  function AcceptedIn(es: seq<Event>, id: int): seq<Message> {
    if es == [] || Ends(es[|es| - 1]) then []
    else
      var s, e := Run(es[..|es| - 1]), es[|es| - 1];
      AcceptedIn(es[..|es| - 1], id) + AcceptedBy(View(s.brokers, id), s, e)
  }

  // The event drops a connection that accepted messages wait on: an autonomous publish that has to
  // reconnect, an exchange.declare that is refused, or a disconnect.
  predicate Drops(b: Broker, e: Event) {
    b.uncommitted > 0 && Touches(e, b.id) &&
    match e
    case Published(_, channel, _, _, _, first, _) => channel == 1 && GivesUp(b, first)
    case Declared(_, _, accepted) => !accepted
    case _ => true
  }

  // Some event of the current transaction did.
  predicate Dropped(es: seq<Event>, id: int) {
    es != [] && !Ends(es[|es| - 1]) &&
    (Dropped(es[..|es| - 1], id) || Drops(View(Run(es[..|es| - 1]).brokers, id), es[|es| - 1]))
  }

  // The messages accepted since the last event that did.
  function Remaining(es: seq<Event>, id: int): seq<Message> {
    if es == [] || Ends(es[|es| - 1]) then []
    else
      var s, e := Run(es[..|es| - 1]), es[|es| - 1];
      var b := View(s.brokers, id);
      (if Drops(b, e) then [] else Remaining(es[..|es| - 1], id)) + AcceptedBy(b, s, e)
  }

  lemma {:induction false} ViewIs(bs: seq<Broker>, k: nat)
    requires Distinct(bs) && k < |bs|
    ensures View(bs, bs[k].id) == bs[k]
  {
    if k > 0 {
      assert bs[1..][k - 1] == bs[k];
      ViewIs(bs[1..], k - 1);
    }
  }

  lemma {:induction false} ViewListed(bs: seq<Broker>, id: int)
    ensures View(bs, id) == New(id) || exists k :: 0 <= k < |bs| && bs[k] == View(bs, id)
    ensures !Has(bs, id) ==> View(bs, id) == New(id)
  {
    if bs != [] && bs[0].id != id {
      ViewListed(bs[1..], id);
      if View(bs, id) != New(id) {
        var k :| 0 <= k < |bs[1..]| && bs[1..][k] == View(bs, id);
        assert bs[k + 1] == View(bs, id);
      }
      if Has(bs[1..], id) {
        var k :| 0 <= k < |bs[1..]| && bs[1..][k].id == id;
        assert bs[k + 1].id == id;
      }
    }
  }

  // A new broker state is what all events but the touching ones leave it.
  lemma NewUntouched(s: Session, e: Event, id: int)
    requires !Touches(e, id)
    ensures BrokerStep(New(id), s, e) == New(id)
  {
  }

  lemma {:induction false} ViewMapped(bs: seq<Broker>, s: Session, e: Event, id: int)
    requires forall i :: 0 <= i < |bs| ==> BrokerStep(bs[i], s, e).id == bs[i].id
    requires Has(bs, id) || !Touches(e, id)
    ensures View(StepAll(bs, s, e), id) == BrokerStep(View(bs, id), s, e)
  {
    hide BrokerStep, Touches, StepAll, Has;
    if bs == [] {
      NotEmpty(bs, id);
      NewUntouched(s, e, id);
    } else if bs[0].id != id {
      HasRest(bs, id);
      assert StepAll(bs, s, e)[1..] == StepAll(bs[1..], s, e);
      ViewMapped(bs[1..], s, e, id);
    }
  }

  lemma NotEmpty(bs: seq<Broker>, id: int)
    ensures Has(bs, id) ==> bs != []
  {
  }

  lemma HasRest(bs: seq<Broker>, id: int)
    requires bs != [] && bs[0].id != id
    ensures Has(bs, id) ==> Has(bs[1..], id)
  {
    if Has(bs, id) {
      var k :| 0 <= k < |bs| && bs[k].id == id;
      assert bs[1..][k - 1].id == id;
    }
  }

  // The view of a broker makes the step of that broker.
  lemma ViewStep(s: Session, e: Event, id: int)
    requires SessionOk(s) && (e.Published? ==> e.channel in {1, 2})
    ensures View(Step(s, e).brokers, id) == BrokerStep(View(s.brokers, id), s, e)
  {
    hide BrokerStep, BrokerOk, OpenOk, PrepareRefused;
    var bs := Listed(s.brokers, e);
    ListedOk(s, e);
    forall i | 0 <= i < |bs| ensures BrokerStep(bs[i], s, e).id == bs[i].id {
      BrokerStepOk(bs[i], s, e);
    }
    assert View(bs, id) == View(s.brokers, id) && (Has(bs, id) || !Touches(e, id)) by {
      ViewListed(s.brokers, id);
      if bs != s.brokers {
        assert bs[1..] == s.brokers;
      }
    }
    ViewMapped(bs, s, e, id);
  }

  // What the fields of the specification count is what the run has accepted and dropped.
  lemma BookStep(b: Broker, s: Session, e: Event)
    requires Sane(b) && !Ends(e) && (e.Published? ==> e.channel in {1, 2})
    ensures var c := BrokerStep(b, s, e);
            && c.lost == b.lost + (if Drops(b, e) then b.uncommitted else 0)
            && c.acked == b.acked + AcceptedBy(b, s, e)
  {
    hide Publish, GivesUp, Dialed;
    match e
    case Published(_, channel, body, _, mandatory, first, second) =>
      PublishEffect(b, channel, MessageOf(s, body), mandatory, first, second);
    case Declared(_, dial, _) => DialedSane(b, dial);
    case _ =>
  }

  lemma {:induction false} Books(es: seq<Event>, id: int)
    requires Genuine(es)
    ensures var b := View(Run(es).brokers, id);
            && Sane(b) && b.acked == AcceptedIn(es, id) && (b.lost > 0 <==> Dropped(es, id))
            && b.lost <= |b.acked| && b.acked[b.lost..] == Remaining(es, id)
  {
    hide Step, BrokerStep, Drops, AcceptedBy, Sane;
    if es == [] {
      NewIsSane(id);
    } else {
      var init, e := es[..|es| - 1], es[|es| - 1];
      var s := Run(init);
      var b := View(s.brokers, id);
      Books(init, id);
      Reachable(init);
      ViewStep(s, e, id);
      ViewSane(es, id);
      if Ends(e) {
        EndsBooks(b, s, e);
      } else {
        BookStep(b, s, e);
        DropsSome(b, e);
        Acked(b, BrokerStep(b, s, e), AcceptedBy(b, s, e), Drops(b, e));
      }
    }
  }

  lemma Acked(b: Broker, c: Broker, more: seq<Message>, drops: bool)
    requires Sane(b) && c.acked == b.acked + more && c.lost == b.lost + if drops then b.uncommitted else 0
    ensures b.lost <= |b.acked| && c.lost <= |c.acked|
    ensures c.acked[c.lost..] == (if drops then [] else b.acked[b.lost..]) + more
  {
  }

  lemma NewIsSane(id: int)
    ensures Sane(New(id))
  {
  }

  lemma DropsSome(b: Broker, e: Event)
    ensures Drops(b, e) ==> b.uncommitted > 0
  {
  }

  lemma ViewSane(es: seq<Event>, id: int)
    requires Genuine(es)
    ensures Sane(View(Run(es).brokers, id))
  {
    hide Run, View;
    Reachable(es);
    ViewListed(Run(es).brokers, id);
    NewIsSane(id);
  }

  lemma EndsBooks(b: Broker, s: Session, e: Event)
    requires Ends(e)
    ensures BrokerStep(b, s, e).acked == [] && BrokerStep(b, s, e).lost == 0
  {
    hide Drain;
  }

  // A COMMIT is exact on a broker if, and only if, no event of the transaction dropped a connection that
  // accepted messages waited on.
  lemma CommitExactness(es: seq<Event>, id: int, e: Event)
    requires Genuine(es) && e.Commit?
    ensures var b, c := View(Run(es).brokers, id), View(Step(Run(es), e).brokers, id);
            Exact(AcceptedIn(es, id), b, c, CommitOne(b, e.answers(id)).1) <==> !Dropped(es, id)
  {
    hide Run, AcceptedIn, Dropped, CommitOne, Sane, Exact, Step;
    Books(es, id);
    Reachable(es);
    ViewStep(Run(es), e, id);
    CommitExact(View(Run(es).brokers, id), e.answers(id));
  }

  lemma {:induction false} NothingDropped(es: seq<Event>, id: int)
    requires forall i :: 0 <= i < |es| ==> (es[i].Published? ==> es[i].channel == 2) && !es[i].Declared? && !es[i].Disconnect?
    ensures !Dropped(es, id)
  {
    hide Run;
    if es != [] {
      NothingDropped(es[..|es| - 1], id);
    }
  }

  // What the transaction has accepted since the last such event is what is left of all it has accepted; there is
  // less of it exactly when such an event happened.
  lemma RemainingIsLeft(es: seq<Event>, id: int)
    requires Genuine(es)
    ensures var all, rest := AcceptedIn(es, id), Remaining(es, id);
            |rest| <= |all| && rest == all[|all| - |rest|..] && (|rest| < |all| <==> Dropped(es, id))
  {
    hide Run, AcceptedIn, Dropped, Remaining, Sane;
    Books(es, id);
  }

  // On these messages every COMMIT is exact, and what it reports is their number.
  lemma CommitOfRemaining(es: seq<Event>, id: int, e: Event)
    requires Genuine(es) && e.Commit?
    ensures var b, c := View(Run(es).brokers, id), View(Step(Run(es), e).brokers, id);
            Exact(Remaining(es, id), b, c, CommitOne(b, e.answers(id)).1)
  {
    hide Run, AcceptedIn, Dropped, Remaining, CommitOne, Sane, Exact, Step;
    Books(es, id);
    Reachable(es);
    ViewStep(Run(es), e, id);
    CommitExactOnRest(View(Run(es).brokers, id), e.answers(id));
  }

  // In particular on channel 2 alone every COMMIT is exact, whatever the brokers answer.
  lemma TransactionalTrafficIsExact(es: seq<Event>, id: int, e: Event)
    requires forall i :: 0 <= i < |es| ==> (es[i].Published? ==> es[i].channel == 2) && !es[i].Declared? && !es[i].Disconnect?
    requires e.Commit?
    ensures var b, c := View(Run(es).brokers, id), View(Step(Run(es), e).brokers, id);
            Exact(AcceptedIn(es, id), b, c, CommitOne(b, e.answers(id)).1)
  {
    hide Run, AcceptedIn, Dropped, CommitOne, Exact, Step;
    NothingDropped(es, id);
    CommitExactness(es, id, e);
  }

  // The transaction is marked as failed on this broker: a savepoint was rolled back while it held messages, or a publish
  // has failed that could not be tried again. A disconnect forgets the mark; a PREPARE that goes through does not.
  ghost predicate Marked(es: seq<Event>, id: int) {
    es != [] &&
    var init, e := es[..|es| - 1], es[|es| - 1];
    var s := Run(init);
    match e
    case Published(_, channel, _, _, _, first, second) =>
      Marked(init, id) || (Touches(e, id) && Spoils(View(s.brokers, id), channel, first, second))
    case RollbackTo => Marked(init, id) || (s.open != [] && Remaining(init, id) != [])
    case Disconnect(i) => i != id && Marked(init, id)
    case Prepare(_) => !PrepareRefused(s.brokers) && Marked(init, id)
    case Commit(_) => false
    case Abort(_) => false
    case _ => Marked(init, id)
  }

  lemma MarkStep(b: Broker, s: Session, e: Event)
    requires Sane(b) && (e.Published? ==> e.channel in {1, 2})
    ensures var c := BrokerStep(b, s, e);
            && (e.Published? ==> (c.inerror <==> b.inerror || (Touches(e, b.id) && Spoils(b, e.channel, e.first, e.second))))
            && (e.RollbackTo? ==> (c.inerror <==> b.inerror || (s.open != [] && b.uncommitted > 0)))
            && (e.Disconnect? ==> (c.inerror <==> e.id != b.id && b.inerror))
            && (e.Prepare? ==> (c.inerror <==> !PrepareRefused(s.brokers) && b.inerror))
            && (e.Commit? || e.Abort? ==> !c.inerror)
            && (e.Declared? || e.Savepoint? || e.Release? ==> c.inerror == b.inerror)
  {
    hide Publish, Spoils, Dialed, PrepareRefused, CommitOne, AbortOne;
    match e
    case Published(_, channel, body, _, mandatory, first, second) =>
      PublishOutcome(b, channel, MessageOf(s, body), mandatory, first, second);
    case Declared(_, dial, _) => DialedSane(b, dial);
    case Prepare(answers) => AbortOutcome(b, answers(b.id));
    case Commit(answers) => CommitOutcome(b, answers(b.id));
    case Abort(answers) => AbortOutcome(b, answers(b.id));
    case _ =>
  }

  lemma {:induction false} MarkedIs(es: seq<Event>, id: int)
    requires Genuine(es)
    ensures View(Run(es).brokers, id).inerror <==> Marked(es, id)
  {
    hide Step, BrokerStep, Spoils, Touches, PrepareRefused, Sane, SessionOk, Remaining;
    if es != [] {
      var init, e := es[..|es| - 1], es[|es| - 1];
      MarkedIs(init, id);
      Reachable(init);
      ViewStep(Run(init), e, id);
      ViewSane(init, id);
      MarkStep(View(Run(init).brokers, id), Run(init), e);
      WaitingIs(init, id);
    }
  }

  lemma WaitingIs(es: seq<Event>, id: int)
    requires Genuine(es)
    ensures View(Run(es).brokers, id).uncommitted == |Remaining(es, id)|
  {
    hide Run, Remaining, AcceptedIn, Dropped;
    Books(es, id);
  }

  // What a COMMIT does, over all runs: with nothing waiting it does nothing; a marked transaction is discarded with a
  // warning; else all that waits is delivered in its order, or a warning says how much of it may be lost.
  lemma CommitDelivers(es: seq<Event>, id: int, e: Event)
    requires Genuine(es) && e.Commit?
    ensures var rest, b, c := Remaining(es, id), View(Run(es).brokers, id), View(Step(Run(es), e).brokers, id);
            var a, w := e.answers(id), CommitOne(View(Run(es).brokers, id), e.answers(id)).1;
            if rest == [] then w == NoWarning && c.delivered == b.delivered
            else if Marked(es, id) then w == Discarding(|rest|) && c.delivered == b.delivered
            else if a.normal then w == NoWarning && c.delivered == b.delivered + rest
            else w == CommitFailed(|rest|) && c.delivered == b.delivered + if a.done then rest else []
  {
    hide Run, AcceptedIn, Dropped, Remaining, CommitOne, Step, Marked;
    var b := View(Run(es).brokers, id);
    Books(es, id);
    MarkedIs(es, id);
    Reachable(es);
    ViewStep(Run(es), e, id);
    CommitOutcome(b, e.answers(id));
  }

  // So a COMMIT delivers all that was accepted and says nothing if, and only if, nothing of it was dropped, the
  // transaction is not marked, and the broker confirms.
  lemma CommitSucceeds(es: seq<Event>, id: int, e: Event)
    requires Genuine(es) && e.Commit?
    ensures var all, b, c := AcceptedIn(es, id), View(Run(es).brokers, id), View(Step(Run(es), e).brokers, id);
            CommitOne(b, e.answers(id)).1 == NoWarning && c.delivered == b.delivered + all <==>
            !Dropped(es, id) && (all == [] || (!Marked(es, id) && e.answers(id).normal))
  {
    hide Run, AcceptedIn, Dropped, Remaining, CommitOne, Step, Marked;
    CommitDelivers(es, id, e);
    RemainingIsLeft(es, id);
    var all, b, c := AcceptedIn(es, id), View(Run(es).brokers, id), View(Step(Run(es), e).brokers, id);
    assert c.delivered == b.delivered + all ==> |c.delivered| == |b.delivered| + |all|;
    assert all == all[0..];
  }

  // A transaction in which no savepoint is rolled back and every publish on the broker returns true is not marked.
  lemma {:induction false} NothingMarked(es: seq<Event>, id: int)
    requires Genuine(es) && forall i :: 0 <= i < |es| ==> !es[i].RollbackTo?
    requires forall i :: 0 <= i < |es| && es[i].Published? && Touches(es[i], id) ==>
               Succeeds(View(Run(es[..i]).brokers, id), es[i].channel, es[i].first, es[i].second)
    ensures !Marked(es, id)
  {
    hide Run, Touches, Spoils, Succeeds, Remaining, PrepareRefused, View;
    if es != [] {
      var init, e := es[..|es| - 1], es[|es| - 1];
      forall i | 0 <= i < |init| ensures init[i] == es[i] && init[..i] == es[..i] {
      }
      NothingMarked(init, id);
      if e.Published? {
        ViewSane(init, id);
        NotBoth(View(Run(init).brokers, id), e.channel, e.first, e.second);
      }
    }
  }

  // A PREPARE is refused if, and only if, some broker has accepted a message since the last event that dropped
  // what it had accepted before. So it slips through after the others, as a COMMIT does.
  lemma PrepareIsRefused(es: seq<Event>)
    requires Genuine(es)
    ensures PrepareRefused(Run(es).brokers) <==> exists id :: Remaining(es, id) != []
  {
    hide Run, AcceptedIn, Dropped, Remaining, View;
    var bs := Run(es).brokers;
    Reachable(es);
    if k :| 0 <= k < |bs| && bs[k].uncommitted > 0 {
      Books(es, bs[k].id);
      ViewIs(bs, k);
      assert Remaining(es, bs[k].id) != [];
    } else if id :| Remaining(es, id) != [] {
      Books(es, id);
      ViewListed(bs, id);
    }
  }

  /// How often a backend tries to connect

  // The call of local_amqp_get_bs with which the event starts on this broker.
  function DialsIn(e: Event, id: int): seq<Dial> {
    if !Touches(e, id) then []
    else
      match e
      case Published(_, _, _, _, _, first, _) => [first.dial]
      case Declared(_, dial, _) => [dial]
      case _ => []
  }

  function DialsOf(es: seq<Event>, id: int): seq<Dial> {
    if es == [] then [] else DialsOf(es[..|es| - 1], id) + DialsIn(es[|es| - 1], id)
  }

  // The broker is not connected, and this event neither connects it nor makes it forget its failures.
  ghost predicate StaysDown(b: Broker, e: Event, pid: nat) {
    && !b.conn && e != Disconnect(b.id)
    && forall d :: d in DialsIn(e, b.id) ==> d.pid == pid && !Dialed(b, d).conn
  }

  // So this was so from the end of `es` on.
  ghost predicate Down(es: seq<Event>, more: seq<Event>, id: int, pid: nat) {
    && !View(Run(es).brokers, id).conn
    && forall k :: 0 <= k < |more| ==> StaysDown(View(Run(es + more[..k]).brokers, id), more[k], pid)
  }

  function BackoffOf(b: Broker): Backoff {
    Backoff(b.failures, b.lastFailed)
  }

  // The event makes its call, and nothing else in it concerns the backoff.
  lemma DownStep(b: Broker, s: Session, e: Event, pid: nat)
    requires StaysDown(b, e, pid)
    ensures var c, ds := BrokerStep(b, s, e), DialsIn(e, b.id);
            !c.conn && BackoffOf(c) == FailingAll(BackoffOf(b), Times(ds), pid)
  {
    hide Dialed, Failing, Window, Drain;
    var ds := DialsIn(e, b.id);
    if ds != [] {
      assert ds[0] in ds;
      FailedDial(b, ds[0]);
      assert Times(ds)[..0] == [];
    }
  }

  lemma {:induction false} FailingMore(b: Backoff, calls: seq<(int, int)>, more: seq<(int, int)>, pid: nat)
    ensures FailingAll(b, calls + more, pid) == FailingAll(FailingAll(b, calls, pid), more, pid)
  {
    hide Failing;
    if more == [] {
      assert calls + more == calls;
    } else {
      assert (calls + more)[..|calls + more| - 1] == calls + more[..|more| - 1];
      FailingMore(b, calls, more[..|more| - 1], pid);
    }
  }

  lemma DownBefore(es: seq<Event>, more: seq<Event>, id: int, pid: nat)
    requires Down(es, more, id, pid) && more != []
    ensures Down(es, more[..|more| - 1], id, pid)
    ensures StaysDown(View(Run(es + more[..|more| - 1]).brokers, id), more[|more| - 1], pid)
  {
    hide Run, StaysDown;
    var init := more[..|more| - 1];
    assert forall k :: 0 <= k < |init| ==> init[..k] == more[..k] && init[k] == more[k];
  }

  lemma {:induction false} DownRun(es: seq<Event>, more: seq<Event>, id: int, pid: nat)
    requires Genuine(es + more) && Down(es, more, id, pid)
    ensures var b, c := View(Run(es).brokers, id), View(Run(es + more).brokers, id);
            BackoffOf(c) == FailingAll(BackoffOf(b), Times(DialsOf(more, id)), pid)
  {
    hide Step, BrokerStep, FailingAll, Down, StaysDown, DialsIn, SessionOk, View;
    if more == [] {
      assert es + more == es;
      NoCalls(BackoffOf(View(Run(es).brokers, id)), pid);
    } else {
      var init, e := more[..|more| - 1], more[|more| - 1];
      var now := es + init;
      assert (es + more)[..|es + more| - 1] == now;
      assert Genuine(now) && (e.Published? ==> e.channel in {1, 2}) by {
        assert (es + more)[|es + more| - 1] == e;
      }
      DownBefore(es, more, id, pid);
      DownRun(es, init, id, pid);
      Reachable(now);
      ViewStep(Run(now), e, id);
      DownStep(View(Run(now).brokers, id), Run(now), e, pid);
      assert Times(DialsOf(more, id)) == Times(DialsOf(init, id)) + Times(DialsIn(e, id));
      FailingMore(BackoffOf(View(Run(es).brokers, id)), Times(DialsOf(init, id)), Times(DialsIn(e, id)), pid);
    }
  }

  lemma NoCalls(b: Backoff, pid: nat)
    ensures FailingAll(b, [], pid) == b
  {
  }

  // While a broker stays away, whatever else the backend does: n failed attempts in a row take at least Span(n)
  // seconds from the first call on, which is 30 seconds for each one more from the fifth on.
  lemma ReconnectRate(es: seq<Event>, more: seq<Event>, id: int, pid: nat)
    requires Genuine(es + more) && Down(es, more, id, pid) && Clock(Times(DialsOf(more, id)))
    ensures var b, c, ds := View(Run(es).brokers, id), View(Run(es + more).brokers, id), DialsOf(more, id);
            var n := c.failures - b.failures;
            && 0 <= n
            && (n > 0 ==> ds != [] && c.lastFailed - ds[0].now >= Span(n))
            && (n >= 4 ==> Span(n) == 28 + 30 * (n - 4))
  {
    hide Run, View, Down, DialsOf, FailingAll;
    DownRun(es, more, id, pid);
    AttemptsAreRare(BackoffOf(View(Run(es).brokers, id)), Times(DialsOf(more, id)), pid);
  }

  // And a broker that has come back is found again: 32 seconds after its last failure at the latest, the next call
  // connects if some host can be used, and then does what it was called for.
  lemma FoundAgain(es: seq<Event>, e: Event, id: int, d: Dial, t: nat)
    requires Genuine(es + [e]) && DialsIn(e, id) == [d]
    requires var b := View(Run(es).brokers, id);
             !b.conn && d.now - b.lastFailed >= 32 && d.budget == 0 && t < Hosts(b, d) && d.tries(t).accepted
    ensures var b, c := View(Run(es).brokers, id), View(Step(Run(es), e).brokers, id);
            && (e.Declared? ==> Declare(b, d, e.accepted).1 == c.conn == e.accepted)
            && (e.Published? && (e.channel == 1 || !Marked(es, id)) && Fine(e.first) ==>
                  && Publish(b, e.channel, MessageOf(Run(es), e.body), e.mandatory, e.first, e.second).1
                  && c.conn && c.failures == 0 && c.lastFailed == 0)
  {
    hide Run, Publish, Declare, Dialed, Due, Step, Marked, View, Made, Copy, Blocks;
    var b := View(Run(es).brokers, id);
    assert Genuine(es) && (e.Published? ==> e.channel in {1, 2}) by {
      assert (es + [e])[|es|] == e && forall i :: 0 <= i < |es| ==> (es + [e])[i] == es[i];
    }
    assert DialsIn(e, id)[0] == d;
    Reachable(es);
    ViewSane(es, id);
    ViewStep(Run(es), e, id);
    MarkedIs(es, id);
    DueExactly(b, d);
    UsableHostConnects(b, d, t);
    NewlyConnected(b, d);
    NoAlarm(false);
    if e.Published? {
      PublishOutcome(b, e.channel, MessageOf(Run(es), e.body), e.mandatory, e.first, e.second);
      DialedSane(b, d);
    } else if e.Declared? {
      DeclareOutcome(b, d, e.accepted);
    }
  }

  // The broker has nothing to say on a new connection, and takes the message.
  predicate Fine(a: Attempt) {
    a.drained.notices == [] && a.drained.healthy && a.written
  }

  lemma NewlyConnected(b: Broker, d: Dial)
    requires Sane(b) && !b.conn && Dialed(b, d).conn
    ensures var c := Dialed(b, d); !c.blocked && c.failures == 0 && c.lastFailed == 0
  {
    hide Dialed, Due, Made;
    DialOutcome(b, d);
  }

  // After amqp.disconnect the next call makes an attempt whatever the clock says, with the hosts read anew.
  lemma DisconnectForgets(es: seq<Event>, id: int, d: Dial)
    requires Genuine(es)
    ensures var b, c := View(Run(es).brokers, id), View(Step(Run(es), Disconnect(id)).brokers, id);
            && !c.conn && !c.inerror && c.uncommitted == 0 && c.delivered == b.delivered
            && Due(c, d) && Hosts(c, d) == d.rows && (d.rows > 0 ==> Behind(c, d) == d.pid % d.rows)
  {
    hide Run, Step, Reset, Due;
    Reachable(es);
    ViewSane(es, id);
    ViewStep(Run(es), Disconnect(id), id);
    ResetOutcome(View(Run(es).brokers, id), d);
  }

  // An event on one broker changes its state only.
  lemma SingleStep(s: Session, e: Event, k: nat)
    requires SessionOk(s)
    requires var bs := Listed(s.brokers, e); k < |bs| && Touches(e, bs[k].id)
    ensures var bs := Listed(s.brokers, e);
            && Step(s, e).brokers == bs[k := BrokerStep(bs[k], s, e)]
            && bs[k] == View(s.brokers, bs[k].id) && Sane(bs[k])
  {
    hide BrokerStep, Sane, Live, Past, OpenOk;
    ListedOk(s, e);
    var bs := Listed(s.brokers, e);
    forall i | 0 <= i < |bs| && i != k ensures BrokerStep(bs[i], s, e) == bs[i] {
      Untouched(bs[i], bs[k].id, s, e);
    }
    ViewIs(bs, k);
    ViewListed(s.brokers, bs[k].id);
    if bs != s.brokers {
      assert bs[1..] == s.brokers;
    }
  }

  lemma Untouched(b: Broker, id: int, s: Session, e: Event)
    requires Touches(e, id) && b.id != id
    ensures BrokerStep(b, s, e) == b
  {
  }

  lemma NoStep(s: Session, e: Event)
    requires (e.Published? && TooLarge(e.body, e.limit)) || e.Savepoint? || e.Release?
    ensures Step(s, e).brokers == s.brokers
  {
    assert forall i :: 0 <= i < |s.brokers| ==> BrokerStep(s.brokers[i], s, e) == s.brokers[i];
  }

  /// The failing case

  // A broker that is there at the first try, has nothing to say and takes what it is sent.
  const DIAL := Dial(1, 1, 0, 0, 0, 1, 3, (t: nat) => Try(true, 0))
  const QUIET := Drained([], true)
  const GOOD := Attempt(DIAL, QUIET, true, true, QUIET)
  const CONNECTED := New(1).(conn := true, sockfd := 3, hosts := 1)

  lemma Connects(b: Broker)
    requires !b.conn && b.lastFailed == 0 && b.hosts <= 1 && b.idx == 0
    ensures Dialed(b, DIAL) == b.(conn := true, sockfd := 3, hosts := 1, failures := 0, blocked := false, buffer := [])
  {
    hide Window, Tried, HostAt;
    var c := Cached(b, DIAL);
    assert c.hosts == 1 && c.idx == 0;
    FirstTry();
  }

  lemma FirstTry()
    ensures Tried(DIAL, 0, 1) == (1, true) && HostAt(0, 0, 1) == 0
  {
  }

  lemma Accepts(m: Message)
    ensures Publish(New(1), 2, m, false, GOOD, GOOD) == (CONNECTED.(uncommitted := 1, buffer := [m], acked := [m]), true)
  {
    hide Dialed;
    Connects(New(1));
    assert [] + [m] == [m];
    assert Surfaced(CONNECTED, QUIET) == (CONNECTED, true);
    assert Round(New(1), 2, m, false, true, GOOD) == (CONNECTED.(uncommitted := 1, buffer := [m], acked := [m]), Accepted);
  }

  // The broker has closed the connection: an autonomous publish reconnects, and takes no notice of the buffer.
  lemma Reconnects(m: Message, n: Message)
    ensures var b := CONNECTED.(uncommitted := 1, buffer := [m], acked := [m]);
            Publish(b, 1, n, false, GOOD.(drained := Drained([CloseNotice], true)), GOOD) ==
              (CONNECTED.(acked := [m], lost := 1, direct := [n]), true)
  {
    hide Dialed;
    var b := CONNECTED.(uncommitted := 1, buffer := [m], acked := [m]);
    var closed := GOOD.(drained := Drained([CloseNotice], true));
    assert Dialed(b, DIAL) == b by { Stays(b, DIAL); }
    assert Round(b, 1, n, false, true, closed) == (b, Again) by {
      assert Drain(false, [CloseNotice]) == (false, false);
    }
    var c := CONNECTED.(acked := [m], lost := 1);
    Connects(Disconnected(b));
    assert Dialed(Disconnected(b), DIAL) == c;
    assert [] + [n] == [n];
    assert Surfaced(c, QUIET) == (c, true);
    assert Round(Disconnected(b), 1, n, false, false, GOOD) == (c.(direct := [n]), Accepted);
  }

  lemma Stays(b: Broker, d: Dial)
    ensures b.conn ==> Dialed(b, d) == b
  {
  }

  lemma {:induction false} NothingOn(es: seq<Event>, id: int)
    requires forall i :: 0 <= i < |es| ==> !Touches(es[i], id)
    ensures Remaining(es, id) == []
  {
    hide Touches, Run;
    if es != [] {
      NothingOn(es[..|es| - 1], id);
    }
  }

  // So a message was accepted, the transaction commits, the message is gone, and no warning says so; a PREPARE
  // in place of the COMMIT would not have been refused either.
  lemma SilentLoss() returns (es: seq<Event>, a: Answer)
    ensures Genuine(es) && |AcceptedIn(es, 1)| == 1
    ensures var b := View(Run(es).brokers, 1); CommitOne(b, a) == (Ended(b), NoWarning) && b.delivered == []
    ensures !PrepareRefused(Run(es).brokers)
  {
    hide Publish, Remaining, PrepareRefused, CommitOne, Step, StepAll;
    var closed := GOOD.(drained := Drained([CloseNotice], true));
    var first, second := Published(1, 2, "a", 0, false, GOOD, GOOD), Published(1, 1, "b", 0, false, closed, GOOD);
    es, a := [first, second], Answer(QUIET, true, true);
    assert [first][..0] == [] && es[..1] == [first];
    var s := Run([first]);
    var m, n := MessageOf(START, "a"), MessageOf(s, "b");
    Reachable([]);
    Reachable([first]);
    ViewStep(START, first, 1);
    Accepts(m);
    assert View(s.brokers, 1) == CONNECTED.(uncommitted := 1, buffer := [m], acked := [m]);
    ViewStep(s, second, 1);
    Reconnects(m, n);
    Books(es, 1);
    NothingToCommit(View(Run(es).brokers, 1), a);
    forall id ensures Remaining(es, id) == [] {
      if id != 1 { NothingOn(es, id); }
    }
    PrepareIsRefused(es);
  }

  lemma NothingToCommit(b: Broker, a: Answer)
    requires b.uncommitted == 0 && !b.inerror
    ensures CommitOne(b, a) == (Ended(b), NoWarning)
  {
  }
}
