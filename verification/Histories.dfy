/** What is delivered, told from the events alone: which publish it comes from, and what became of it. */
module Histories {
  import opened Brokers
  import opened Sessions

  // How many savepoints are open.
  function Depth(es: seq<Event>): nat {
    if es == [] then 0
    else
      var d, e := Depth(es[..|es| - 1]), es[|es| - 1];
      if Ends(e) then 0
      else if e.Savepoint? then d + 1
      else if (e.Release? || e.RollbackTo?) && d > 0 then d - 1
      else d
  }

  // The transaction does not end between these two.
  predicate Together(es: seq<Event>, i: nat, j: nat) {
    i <= j <= |es| && forall k :: i <= k < j ==> !Ends(es[k])
  }

  // The transaction of this event has committed.
  ghost predicate MadeGood(es: seq<Event>, i: nat) {
    exists j :: i < j < |es| && Together(es, i, j) && es[j].Commit?
  }

  // This rollback goes back to a savepoint that was open at event i already, and has been open ever since.
  ghost predicate TakesBack(es: seq<Event>, i: nat, j: nat) {
    && Together(es, i, j) && j < |es| && es[j].RollbackTo? && 0 < Depth(es[..j])
    && forall k :: i <= k <= j ==> Depth(es[..k]) >= Depth(es[..j])
  }

  ghost predicate TakenBack(es: seq<Event>, i: nat) {
    exists j :: i < j && TakesBack(es, i, j)
  }

  predicate PublishedAt(es: seq<Event>, i: nat, id: int, body: seq<char>) {
    i < |es| && es[i].Published? && es[i].id == id && es[i].channel == 2 && es[i].body == body
  }

  lemma {:induction false} DepthIs(es: seq<Event>)
    ensures |Run(es).open| == Depth(es)
  {
    if es != [] {
      DepthIs(es[..|es| - 1]);
    }
  }

  // The savepoints that stay open keep their numbers.
  lemma {:induction false} LevelsStay(es: seq<Event>, i: nat, j: nat, d: nat)
    requires Together(es, i, j) && forall k :: i <= k <= j ==> Depth(es[..k]) >= d
    ensures |Run(es[..i]).open| >= d && |Run(es[..j]).open| >= d && Run(es[..i]).open[..d] == Run(es[..j]).open[..d]
    decreases j - i
  {
    hide Run, Depth, Step;
    DepthIs(es[..i]);
    DepthIs(es[..j]);
    if i < j {
      RunTo(es, j);
      LevelsStay(es, i, j - 1, d);
      LevelStep(Run(es[..j - 1]), es[j - 1], d);
    }
  }

  lemma RunTo(es: seq<Event>, j: nat)
    requires 0 < j <= |es|
    ensures Run(es[..j]) == Step(Run(es[..j - 1]), es[j - 1])
  {
    hide Step;
    assert es[..j][..j - 1] == es[..j - 1] && es[..j][j - 1] == es[j - 1];
  }

  lemma LevelStep(s: Session, e: Event, d: nat)
    requires !Ends(e) && |s.open| >= d && |Step(s, e).open| >= d
    ensures Step(s, e).open[..d] == s.open[..d]
  {
    hide StepAll, Listed, BrokerStep;
  }

  lemma {:induction false} AbortedStays(es: seq<Event>, j: nat)
    requires j <= |es|
    ensures Run(es[..j]).aborted <= Run(es).aborted
    decreases |es| - j
  {
    hide StepAll, Listed, BrokerStep;
    if j == |es| {
      assert es[..j] == es;
    } else {
      AbortedStays(es, j + 1);
      assert es[..j + 1][..j] == es[..j];
    }
  }

  // What is taken back carries the number of a subtransaction that was aborted.
  lemma TakenBackIsAborted(es: seq<Event>, i: nat, j: nat)
    requires i < j && TakesBack(es, i, j)
    ensures exists x :: x in Elements(Run(es[..i]).open) && x in Run(es).aborted
  {
    hide Run, Depth, Step, Elements;
    var d, open := Depth(es[..j]), Run(es[..j]).open;
    DepthIs(es[..j]);
    LevelsStay(es, i, j, d);
    RunTo(es, j + 1);
    LastAborts(Run(es[..j]), es[j]);
    SamePlace(Run(es[..i]).open, open, d);
    AbortedStays(es, j + 1);
  }

  lemma LastAborts(s: Session, e: Event)
    requires s.open != [] && e.RollbackTo?
    ensures s.open[|s.open| - 1] in Step(s, e).aborted
  {
    hide StepAll, Listed, BrokerStep;
  }

  lemma SamePlace(a: seq<nat>, b: seq<nat>, d: nat)
    requires 0 < d == |b| <= |a| && a[..d] == b[..d]
    ensures b[d - 1] in Elements(a)
  {
    assert a[d - 1] == a[..d][d - 1] && b[d - 1] == b[..d][d - 1];
  }

  /// Where a message comes from

  ghost predicate Source(es: seq<Event>, i: nat, id: int, m: Message) {
    PublishedAt(es, i, id, m.body) && m.path == Elements(Run(es[..i]).open)
  }

  lemma SourceStill(es: seq<Event>, i: nat, id: int, m: Message)
    requires es != [] && Source(es[..|es| - 1], i, id, m)
    ensures Source(es, i, id, m)
  {
    hide Run;
    assert es[..|es| - 1][..i] == es[..i];
  }

  lemma {:induction false} AcceptedFrom(es: seq<Event>, id: int, m: Message) returns (i: nat)
    requires m in AcceptedIn(es, id)
    ensures Source(es, i, id, m) && Together(es, i, |es|)
  {
    hide Run, Publish, View, MessageOf;
    var init, e := es[..|es| - 1], es[|es| - 1];
    if m in AcceptedIn(init, id) {
      i := AcceptedFrom(init, id, m);
      SourceStill(es, i, id, m);
    } else {
      i := |es| - 1;
    }
  }

  lemma DeliveredStep(b: Broker, s: Session, e: Event)
    requires Sane(b) && (e.Published? ==> e.channel in {1, 2})
    ensures var c := BrokerStep(b, s, e).delivered;
            c == b.delivered || (e.Commit? && c == b.delivered + b.buffer && !b.inerror)
  {
    hide Publish, CommitOne, AbortOne, Dialed;
    match e
    case Published(_, channel, body, _, mandatory, first, second) =>
      PublishEffect(b, channel, MessageOf(s, body), mandatory, first, second);
    case Declared(_, dial, _) => DialedSane(b, dial);
    case Prepare(answers) => AbortSettles(b, answers(b.id));
    case Commit(answers) => CommitSettles(b, answers(b.id));
    case Abort(answers) => AbortSettles(b, answers(b.id));
    case _ =>
  }

  lemma BufferIsAccepted(es: seq<Event>, id: int)
    requires Genuine(es)
    ensures var b := View(Run(es).brokers, id); Sane(b) && (!b.inerror ==> forall m :: m in b.buffer ==> m in AcceptedIn(es, id))
  {
    hide Run, AcceptedIn, Dropped, Remaining;
    Books(es, id);
  }

  lemma {:induction false} DeliveredFrom(es: seq<Event>, id: int, m: Message) returns (i: nat)
    requires Genuine(es) && m in View(Run(es).brokers, id).delivered
    ensures Source(es, i, id, m) && MadeGood(es, i)
  {
    hide Step, BrokerStep, Source, SessionOk, Sane, AcceptedIn, Together;
    var init, e := es[..|es| - 1], es[|es| - 1];
    var b := View(Run(init).brokers, id);
    Reachable(init);
    BufferIsAccepted(init, id);
    ViewStep(Run(init), e, id);
    DeliveredStep(b, Run(init), e);
    if m in b.delivered {
      i := DeliveredFrom(init, id, m);
      SourceStill(es, i, id, m);
      StillGood(es, i);
    } else {
      i := AcceptedFrom(init, id, m);
      SourceStill(es, i, id, m);
      GoodNow(es, i, id, m);
    }
  }

  lemma StillGood(es: seq<Event>, i: nat)
    requires es != [] && MadeGood(es[..|es| - 1], i)
    ensures MadeGood(es, i)
  {
    var init := es[..|es| - 1];
    var j :| i < j < |init| && Together(init, i, j) && init[j].Commit?;
    assert Together(es, i, j);
  }

  lemma GoodNow(es: seq<Event>, i: nat, id: int, m: Message)
    requires es != [] && es[|es| - 1].Commit? && Together(es[..|es| - 1], i, |es| - 1) && Source(es[..|es| - 1], i, id, m)
    ensures MadeGood(es, i)
  {
    hide Run;
    assert Together(es, i, |es| - 1);
  }

  // Over all runs: every message that a transaction of the broker has delivered is that of a publish on this broker in a
  // transaction that has committed, and that no rollback to a savepoint has taken back.
  lemma DeliveredWasMeant(es: seq<Event>, id: int, m: Message)
    requires Genuine(es) && m in View(Run(es).brokers, id).delivered
    ensures exists i :: 0 <= i < |es| && PublishedAt(es, i, id, m.body) && MadeGood(es, i) && !TakenBack(es, i)
  {
    hide Run, MadeGood, TakesBack;
    var bs := Run(es).brokers;
    ViewListed(bs, id);
    var k :| 0 <= k < |bs| && bs[k] == View(bs, id);
    NoPhantomDelivery(es, k, m);
    var i := DeliveredFrom(es, id, m);
    if j :| i < j && TakesBack(es, i, j) {
      TakenBackIsAborted(es, i, j);
      assert false;
    }
  }
}
