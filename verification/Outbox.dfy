/** The transactional outbox (functions.sql): transactions that enqueue rows, relay them and end, step by step. */
module Outbox {
  import opened Basics

  datatype Row = Row(broker: int, publishedAt: Option<nat>, attempts: nat)

  // A running call of publish_outbox_batch: the rows its query has locked so far, and how many of them the
  // loop is done with.
  datatype Call = Call(filter: Option<int>, limit: int, claimed: seq<nat>, pos: nat, count: nat)

  // A live transaction: now(), the rows it inserted, its versions of the rows it changed, the rows that no
  // other transaction can get at, what it was at each open savepoint (the innermost last), and the books:
  // rows visited and sent, sends whose marks were rolled back, and what its calls have counted.
  datatype Txn = Txn(now: nat, own: set<nat>, changes: map<nat, Row>, held: set<nat>, call: Option<Call>,
                     saves: seq<Txn>, counted: nat, visits: multiset<nat>, sent: multiset<nat>, undone: multiset<nat>)

  // The committed rows, the sequence, the live transactions, and the books: visits of committed
  // transactions, all successful sends, and those whose marks were rolled back.
  datatype Store = Store(rows: map<nat, Row>, nextId: nat, txns: map<nat, Txn>,
                         visits: multiset<nat>, sent: multiset<nat>, wasted: multiset<nat>)

  const EMPTY := Store(map[], 0, map[], multiset{}, multiset{}, multiset{})

  datatype Step =
    | Begin(t: nat, now: nat)
    | Enqueue(t: nat, broker: int)
    | Start(t: nat, filter: Option<int>, limit: int)
    | Claim(t: nat, id: nat)
    | Relay(t: nat, ok: bool)
    | Return(t: nat)
    | Savepoint(t: nat)
    | Release(t: nat)
    | RollbackTo(t: nat)
    | Commit(t: nat)
    | Rollback(t: nat)

  // The version of a row that a transaction sees.
  predicate Sees(rows: map<nat, Row>, x: Txn, id: nat) {
    id in x.changes || id in rows
  }

  function Seen(rows: map<nat, Row>, x: Txn, id: nat): Row
    requires Sees(rows, x, id)
  {
    if id in x.changes then x.changes[id] else rows[id]
  }

  // The WHERE clause.
  predicate Matches(rows: map<nat, Row>, x: Txn, filter: Option<int>, id: nat) {
    Sees(rows, x, id) && Seen(rows, x, id).publishedAt == None &&
    (filter == None || Seen(rows, x, id).broker == filter.value)
  }

  // FOR UPDATE SKIP LOCKED.
  predicate Lockable(s: Store, t: nat, id: nat) {
    forall u :: u in s.txns && u != t ==> id !in s.txns[u].held
  }

  predicate Enabled(s: Store, a: Step) {
    if a.Begin? then a.t !in s.txns
    else
      a.t in s.txns &&
      var x := s.txns[a.t];
      match a
      case Enqueue(_, _) => x.call.None?
      case Start(_, _, _) => x.call.None?
      case Claim(_, id) =>
        x.call.Some? &&
        var c := x.call.value;
        && |c.claimed| < c.limit && (c.claimed != [] ==> c.claimed[|c.claimed| - 1] < id)
        && Matches(s.rows, x, c.filter, id) && Lockable(s, a.t, id)
      case Relay(_, _) => x.call.Some? && x.call.value.pos < |x.call.value.claimed| &&
                          Sees(s.rows, x, Current(x))
      case Return(_) => x.call.Some? && x.call.value.pos == |x.call.value.claimed|
      case Savepoint(_) => x.call.None?
      case Release(_) => x.call.None? && x.saves != []
      case RollbackTo(_) => x.saves != []
      case Commit(_) => x.call.None?
      case Rollback(_) => true
  }

  // The body of the loop: autonomous_publish has answered, and the row is updated.
  function Relayed(rows: map<nat, Row>, x: Txn, ok: bool): Txn
    requires x.call.Some? && x.call.value.pos < |x.call.value.claimed|
    requires Sees(rows, x, Current(x))
  {
    var c, id := x.call.value, Current(x);
    var row := Seen(rows, x, id);
    var updated := if ok then row.(publishedAt := Some(x.now), attempts := row.attempts + 1)
                   else row.(attempts := row.attempts + 1);
    x.(changes := x.changes[id := updated],
       call := Some(c.(pos := c.pos + 1, count := if ok then c.count + 1 else c.count)),
       counted := if ok then x.counted + 1 else x.counted,
       visits := x.visits + multiset{id},
       sent := if ok then x.sent + multiset{id} else x.sent)
  }

  function Fresh(now: nat): Txn {
    Txn(now, {}, map[], {}, None, [], 0, multiset{}, multiset{}, multiset{})
  }

  // publish_outbox.
  function Enqueued(x: Txn, id: nat, broker: int): Txn {
    x.(own := x.own + {id}, held := x.held + {id}, changes := x.changes[id := Row(broker, None, 0)])
  }

  // The query goes on to the next row and locks it.
  function Claimed(x: Txn, id: nat): Txn
    requires x.call.Some?
  {
    x.(held := x.held + {id}, call := Some(x.call.value.(claimed := x.call.value.claimed + [id])))
  }

  function Saved(x: Txn): Txn
    requires x.saves != []
  {
    x.saves[|x.saves| - 1]
  }

  function Popped(x: Txn): seq<Txn>
    requires x.saves != []
  {
    x.saves[..|x.saves| - 1]
  }

  // The sends that a rollback to the last savepoint takes the marks from.
  function Lost(x: Txn): multiset<nat>
    requires x.saves != []
  {
    x.sent - Saved(x).sent
  }

  // Everything since the last savepoint is undone, a running call included, and the locks taken since are given up.
  function BackTo(x: Txn): Txn
    requires x.saves != []
  {
    Saved(x).(saves := Popped(x), counted := x.counted, undone := x.undone + Lost(x))
  }

  // What the transaction is after a step that does not end it.
  function Acted(s: Store, a: Step): Txn
    requires Enabled(s, a) && !a.Commit? && !a.Rollback?
  {
    if a.Begin? then Fresh(a.now)
    else
      var x := s.txns[a.t];
      match a
      case Enqueue(_, broker) => Enqueued(x, s.nextId, broker)
      case Start(_, filter, limit) => x.(call := Some(Call(filter, limit, [], 0, 0)))
      case Claim(_, id) => Claimed(x, id)
      case Relay(_, ok) => Relayed(s.rows, x, ok)
      case Return(_) => x.(call := None)
      case Savepoint(_) => x.(saves := x.saves + [x.(saves := [])])
      case Release(_) => x.(saves := Popped(x))
      case RollbackTo(_) => BackTo(x)
  }

  function Apply(s: Store, a: Step): Store
    requires Enabled(s, a)
  {
    if a.Commit? then
      s.(rows := s.rows + s.txns[a.t].changes, visits := s.visits + s.txns[a.t].visits, txns := s.txns - {a.t})
    else if a.Rollback? then
      s.(wasted := s.wasted + s.txns[a.t].sent, txns := s.txns - {a.t})
    else
      s.(txns := s.txns[a.t := Acted(s, a)],
         nextId := if a.Enqueue? then s.nextId + 1 else s.nextId,
         wasted := if a.RollbackTo? then s.wasted + Lost(s.txns[a.t]) else s.wasted,
         sent := if a.Relay? && a.ok then s.sent + multiset{Current(s.txns[a.t])} else s.sent)
  }

  // The row that the loop is at.
  function Current(x: Txn): nat
    requires x.call.Some? && x.call.value.pos < |x.call.value.claimed|
  {
    x.call.value.claimed[x.call.value.pos]
  }

  // A step that is not possible does not happen.
  function Next(s: Store, a: Step): Store {
    if Enabled(s, a) then Apply(s, a) else s
  }

  function RunAll(s: Store, run: seq<Step>): Store {
    if run == [] then s else Next(RunAll(s, run[..|run| - 1]), run[|run| - 1])
  }

  /// What holds in every reachable state

  ghost predicate CallOk(rows: map<nat, Row>, x: Txn, c: Call) {
    && c.pos <= |c.claimed|
    && (forall i :: 0 <= i < |c.claimed| ==> c.claimed[i] in x.held)
    && (forall i, j :: 0 <= i < j < |c.claimed| ==> c.claimed[i] < c.claimed[j])
    && (forall i :: c.pos <= i < |c.claimed| ==>
          Sees(rows, x, c.claimed[i]) && Seen(rows, x, c.claimed[i]).publishedAt == None)
  }

  // A row that a transaction holds is not published yet, and the books of the transaction say what it did to it.
  ghost predicate RowOk(rows: map<nat, Row>, x: Txn, id: nat) {
    && (id in x.own <==> id !in rows)
    && (id in rows ==> rows[id].publishedAt == None)
    && (id in x.own ==> id in x.changes)
    && (id in x.changes ==>
          var before := if id in rows then rows[id].attempts else 0;
          x.changes[id].attempts == before + x.visits[id] &&
          (id in rows ==> x.changes[id].broker == rows[id].broker) &&
          x.changes[id].publishedAt == (if x.sent[id] > 0 then Some(x.now) else None) && x.sent[id] <= 1)
  }

  ghost predicate TxnOk(rows: map<nat, Row>, nextId: nat, x: Txn) {
    && x.own <= x.held && x.changes.Keys <= x.held
    && (forall id :: id in x.held ==> id < nextId && RowOk(rows, x, id))
    && (forall id :: id !in x.changes ==> x.visits[id] == 0 && x.sent[id] == 0)
    && (x.call.Some? ==> CallOk(rows, x, x.call.value))
    && x.counted == |x.sent| + |x.undone|
  }

  // What a transaction had at a savepoint it still has.
  ghost predicate Under(y: Txn, x: Txn) {
    y.held <= x.held && y.own <= x.own && y.sent <= x.sent && y.now == x.now
  }

  ghost predicate SavesOk(rows: map<nat, Row>, nextId: nat, x: Txn) {
    && (forall k :: 0 <= k < |x.saves| ==> TxnOk(rows, nextId, x.saves[k]) && x.saves[k].call.None? && Under(x.saves[k], x))
    && (forall k, l :: 0 <= k < l < |x.saves| ==> Under(x.saves[k], x.saves[l]))
  }

  ghost predicate Disjoint(txns: map<nat, Txn>) {
    forall t, u :: t in txns && u in txns && t != u ==> txns[t].held !! txns[u].held
  }

  function Committed(rows: map<nat, Row>, id: nat): nat {
    if id in rows && rows[id].publishedAt.Some? then 1 else 0
  }

  // Every successful send is the one behind a published row, one of the live transaction that holds the
  // row, or one whose mark was rolled back.
  ghost predicate BalancedAt(s: Store, id: nat) {
    && (forall t :: t in s.txns && id in s.txns[t].held ==> s.sent[id] == s.txns[t].sent[id] + s.wasted[id])
    && ((forall t :: t in s.txns ==> id !in s.txns[t].held) ==> s.sent[id] == Committed(s.rows, id) + s.wasted[id])
  }

  ghost predicate Balanced(s: Store) {
    forall id :: BalancedAt(s, id)
  }

  ghost predicate RowsOk(s: Store) {
    && (forall id :: id in s.rows ==> id < s.nextId && s.rows[id].attempts == s.visits[id])
    && (forall id :: id !in s.rows ==> s.visits[id] == 0)
    && (forall id :: id >= s.nextId ==> s.sent[id] == 0 && s.wasted[id] == 0)
  }

  ghost predicate StoreOk(s: Store) {
    && (forall t :: t in s.txns ==> TxnOk(s.rows, s.nextId, s.txns[t]) && SavesOk(s.rows, s.nextId, s.txns[t]))
    && Disjoint(s.txns) && Balanced(s) && RowsOk(s)
  }

  lemma EnqueuedOk(rows: map<nat, Row>, nextId: nat, x: Txn, broker: int)
    requires TxnOk(rows, nextId, x) && x.call.None? && nextId !in rows
    ensures TxnOk(rows, nextId + 1, Enqueued(x, nextId, broker))
  {
    hide CallOk;
    var y := Enqueued(x, nextId, broker);
    forall id | id in y.held ensures id < nextId + 1 && RowOk(rows, y, id) {
      if id != nextId { assert RowOk(rows, x, id); }
    }
  }

  lemma ClaimedOk(rows: map<nat, Row>, nextId: nat, x: Txn, id: nat)
    requires TxnOk(rows, nextId, x) && x.call.Some? && Sees(rows, x, id) && Seen(rows, x, id).publishedAt == None
    requires id < nextId && forall i :: 0 <= i < |x.call.value.claimed| ==> x.call.value.claimed[i] < id
    ensures TxnOk(rows, nextId, Claimed(x, id))
  {
    var y := Claimed(x, id);
    forall i | i in y.held ensures i < nextId && RowOk(rows, y, i) {
      if i in x.held { assert RowOk(rows, x, i); }
    }
  }

  lemma RelayedOk(rows: map<nat, Row>, nextId: nat, x: Txn, ok: bool)
    requires TxnOk(rows, nextId, x) && x.call.Some? && x.call.value.pos < |x.call.value.claimed|
    ensures var id := Current(x);
            Sees(rows, x, id) && id in x.held && x.sent[id] == 0 && TxnOk(rows, nextId, Relayed(rows, x, ok))
  {
    var id, y, c := Current(x), Relayed(rows, x, ok), x.call.value;
    assert RowOk(rows, x, id);
    assert Sees(rows, x, c.claimed[c.pos]) && Seen(rows, x, c.claimed[c.pos]).publishedAt == None;
    forall i | i in y.held ensures i < nextId && RowOk(rows, y, i) {
      assert RowOk(rows, x, i);
    }
    assert CallOk(rows, y, y.call.value) by {
      RelayedCall(rows, x, ok);
    }
  }

  lemma RelayedCall(rows: map<nat, Row>, x: Txn, ok: bool)
    requires x.call.Some? && x.call.value.pos < |x.call.value.claimed| && CallOk(rows, x, x.call.value)
    ensures CallOk(rows, Relayed(rows, x, ok), Relayed(rows, x, ok).call.value)
  {
  }

  // TxnOk does not look at the savepoints.
  lemma OtherSaves(rows: map<nat, Row>, nextId: nat, x: Txn, saves: seq<Txn>)
    requires TxnOk(rows, nextId, x)
    ensures TxnOk(rows, nextId, x.(saves := saves))
  {
    forall id | id in x.held ensures RowOk(rows, x.(saves := saves), id) {
      assert RowOk(rows, x, id);
    }
  }

  lemma BackToOk(rows: map<nat, Row>, nextId: nat, x: Txn)
    requires TxnOk(rows, nextId, x) && SavesOk(rows, nextId, x) && x.saves != []
    ensures TxnOk(rows, nextId, BackTo(x)) && Under(Saved(x), x)
  {
    var y, z := Saved(x), BackTo(x);
    assert TxnOk(rows, nextId, y) && Under(y, x);
    assert x.sent == y.sent + Lost(x);
    forall id | id in z.held ensures RowOk(rows, z, id) {
      assert RowOk(rows, y, id);
    }
  }

  lemma ActedOk(s: Store, a: Step)
    requires StoreOk(s) && Enabled(s, a) && !a.Commit? && !a.Rollback?
    ensures TxnOk(s.rows, Apply(s, a).nextId, Acted(s, a))
  {
    hide Relayed, Claimed, Enqueued, BackTo, Balanced, Disjoint, RowOk, CallOk, SavesOk, Apply;
    NextIdStep(s, a);
    match a
    case Begin(_, _) =>
    case Enqueue(t, broker) => EnqueuedOk(s.rows, s.nextId, s.txns[t], broker);
    case Start(t, filter, limit) => NewCall(s.rows, s.nextId, s.txns[t], Some(Call(filter, limit, [], 0, 0)));
    case Claim(t, id) => SeenIsOld(s, t, id); ClaimAscends(s, t, id); ClaimedOk(s.rows, s.nextId, s.txns[t], id);
    case Relay(t, ok) => RelayedOk(s.rows, s.nextId, s.txns[t], ok);
    case Return(t) => NewCall(s.rows, s.nextId, s.txns[t], None);
    case Savepoint(t) => OtherSaves(s.rows, s.nextId, s.txns[t], Acted(s, a).saves);
    case Release(t) => OtherSaves(s.rows, s.nextId, s.txns[t], Acted(s, a).saves);
    case RollbackTo(t) => BackToOk(s.rows, s.nextId, s.txns[t]);
  }

  // Rows that a transaction holds are left alone by all others, so it stays in order.
  lemma KeepsOk(rows: map<nat, Row>, rows': map<nat, Row>, nextId: nat, nextId': nat, x: Txn)
    requires TxnOk(rows, nextId, x) && nextId <= nextId' && forall id :: id in x.held ==> SameAt(rows, rows', id)
    ensures TxnOk(rows', nextId', x)
  {
    forall id | id in x.held ensures id < nextId' && RowOk(rows', x, id) {
      assert RowOk(rows, x, id) && SameAt(rows, rows', id);
    }
    if x.call.Some? {
      var c := x.call.value;
      forall i | c.pos <= i < |c.claimed|
        ensures Sees(rows', x, c.claimed[i]) && Seen(rows', x, c.claimed[i]).publishedAt == None
      {
        assert c.claimed[i] in x.held && SameAt(rows, rows', c.claimed[i]);
      }
    }
  }

  ghost predicate SameAt(rows: map<nat, Row>, rows': map<nat, Row>, id: nat) {
    (id in rows <==> id in rows') && (id in rows ==> rows'[id] == rows[id])
  }

  lemma SavesKeepOk(rows: map<nat, Row>, rows': map<nat, Row>, nextId: nat, nextId': nat, x: Txn)
    requires SavesOk(rows, nextId, x) && nextId <= nextId' && forall id :: id in x.held ==> SameAt(rows, rows', id)
    ensures SavesOk(rows', nextId', x)
  {
    hide TxnOk, SameAt;
    forall k | 0 <= k < |x.saves| ensures TxnOk(rows', nextId', x.saves[k]) {
      assert Under(x.saves[k], x);
      KeepsOk(rows, rows', nextId, nextId', x.saves[k]);
    }
  }

  lemma GrownSaves(rows: map<nat, Row>, nextId: nat, x: Txn, y: Txn)
    requires SavesOk(rows, nextId, x) && y.saves == x.saves && Under(x, y)
    ensures SavesOk(rows, nextId, y)
  {
    hide TxnOk;
  }

  lemma OneMoreSave(rows: map<nat, Row>, nextId: nat, x: Txn)
    requires TxnOk(rows, nextId, x) && SavesOk(rows, nextId, x) && x.call.None?
    ensures SavesOk(rows, nextId, x.(saves := x.saves + [x.(saves := [])]))
  {
    OtherSaves(rows, nextId, x, []);
    hide TxnOk;
  }

  lemma OneSaveLess(rows: map<nat, Row>, nextId: nat, x: Txn)
    requires SavesOk(rows, nextId, x) && x.saves != []
    ensures SavesOk(rows, nextId, x.(saves := Popped(x))) && SavesOk(rows, nextId, BackTo(x))
  {
    hide TxnOk, Lost;
  }

  // What the transaction had it still has, except after a rollback.
  lemma ActedUnder(s: Store, a: Step)
    requires StoreOk(s) && Enabled(s, a) && (a.Enqueue? || a.Start? || a.Claim? || a.Relay? || a.Return?)
    ensures a.t in s.txns && Under(s.txns[a.t], Acted(s, a)) && Acted(s, a).saves == s.txns[a.t].saves
  {
    hide StoreOk, Matches, Lockable;
  }

  // The savepoints of the transaction that makes the step.
  lemma ActedSaves(s: Store, a: Step)
    requires StoreOk(s) && Enabled(s, a) && !a.Commit? && !a.Rollback?
    ensures SavesOk(s.rows, Apply(s, a).nextId, Acted(s, a))
  {
    hide TxnOk, SavesOk, Balanced, Disjoint, RowsOk, Apply, BackTo, Under, Relayed, Claimed, Enqueued, Matches, Lockable;
    NextIdStep(s, a);
    EnabledLives(s, a);
    if a.Begin? {
      NoSaves(s.rows, s.nextId, a.now);
    } else {
      var x := s.txns[a.t];
      SameRows(s.rows);
      SavesKeepOk(s.rows, s.rows, s.nextId, Apply(s, a).nextId, x);
      match a
      case Savepoint(_) => OneMoreSave(s.rows, s.nextId, x);
      case Release(_) => OneSaveLess(s.rows, s.nextId, x);
      case RollbackTo(_) => OneSaveLess(s.rows, s.nextId, x);
      case _ => ActedUnder(s, a); GrownSaves(s.rows, Apply(s, a).nextId, x, Acted(s, a));
    }
  }

  lemma NoSaves(rows: map<nat, Row>, nextId: nat, now: nat)
    ensures SavesOk(rows, nextId, Fresh(now))
  {
  }

  lemma SameRows(rows: map<nat, Row>)
    ensures forall id :: SameAt(rows, rows, id)
  {
  }

  lemma NextIdStep(s: Store, a: Step)
    requires Enabled(s, a)
    ensures Apply(s, a).nextId == s.nextId + if a.Enqueue? then 1 else 0
  {
  }

  // Beginning and ending a call changes nothing else.
  lemma NewCall(rows: map<nat, Row>, nextId: nat, x: Txn, c: Option<Call>)
    requires TxnOk(rows, nextId, x) && (c.Some? ==> c.value.claimed == [] && c.value.pos == 0)
    ensures TxnOk(rows, nextId, x.(call := c))
  {
    forall id | id in x.held ensures RowOk(rows, x.(call := c), id) {
      assert RowOk(rows, x, id);
    }
  }

  lemma SeenIsOld(s: Store, t: nat, id: nat)
    requires StoreOk(s) && t in s.txns && Sees(s.rows, s.txns[t], id)
    ensures id < s.nextId
  {
    hide RowOk, Balanced, Disjoint, CallOk;
    assert TxnOk(s.rows, s.nextId, s.txns[t]);
  }

  lemma ClaimAscends(s: Store, t: nat, id: nat)
    requires StoreOk(s) && Enabled(s, Claim(t, id))
    ensures var c := s.txns[t].call.value; forall i :: 0 <= i < |c.claimed| ==> c.claimed[i] < id
  {
    hide RowOk, Balanced, Disjoint, Lockable;
    assert TxnOk(s.rows, s.nextId, s.txns[t]);
  }

  // The transactions that do not make the step stay in order: what another one commits, they do not hold.
  lemma OthersOk(s: Store, a: Step, u: nat)
    requires StoreOk(s) && Enabled(s, a) && u in s.txns && u != a.t
    ensures TxnOk(Apply(s, a).rows, Apply(s, a).nextId, s.txns[u])
    ensures SavesOk(Apply(s, a).rows, Apply(s, a).nextId, s.txns[u])
  {
    hide Acted, Balanced, RowOk, CallOk, SavesOk, RowsOk, Enabled;
    NextIdStep(s, a);
    assert TxnOk(s.rows, s.nextId, s.txns[u]) && SavesOk(s.rows, s.nextId, s.txns[u]);
    forall id | id in s.txns[u].held ensures SameAt(s.rows, Apply(s, a).rows, id) {
      if a.Commit? {
        assert a.t in s.txns by { EnabledLives(s, a); }
        assert id !in s.txns[a.t].held && TxnOk(s.rows, s.nextId, s.txns[a.t]);
      }
    }
    KeepsOk(s.rows, Apply(s, a).rows, s.nextId, Apply(s, a).nextId, s.txns[u]);
    SavesKeepOk(s.rows, Apply(s, a).rows, s.nextId, Apply(s, a).nextId, s.txns[u]);
  }

  lemma EnabledLives(s: Store, a: Step)
    requires Enabled(s, a)
    ensures if a.Begin? then a.t !in s.txns else a.t in s.txns
  {
  }

  // What a transaction gets hold of was nobody else's.
  lemma ActorHolds(s: Store, a: Step)
    requires StoreOk(s) && Enabled(s, a) && !a.Commit? && !a.Rollback?
    ensures forall id :: id in Acted(s, a).held ==>
              (a.t in s.txns && id in s.txns[a.t].held) || id == s.nextId || (a.Claim? && id == a.id && Lockable(s, a.t, id))
  {
    hide StoreOk, Lockable, Matches, Lost;
    if a.RollbackTo? { SavedUnder(s, a.t); }
  }

  lemma SavedUnder(s: Store, t: nat)
    requires StoreOk(s) && t in s.txns && s.txns[t].saves != []
    ensures Under(Saved(s.txns[t]), s.txns[t]) && TxnOk(s.rows, s.nextId, Saved(s.txns[t]))
  {
    hide TxnOk, Balanced, Disjoint, RowsOk;
    assert SavesOk(s.rows, s.nextId, s.txns[t]);
  }

  lemma HeldStep(s: Store, a: Step)
    requires StoreOk(s) && Enabled(s, a)
    ensures Disjoint(Apply(s, a).txns)
  {
    hide StoreOk, Acted, Enabled, Apply, Lockable;
    TxnsAfter(s, a);
    assert Disjoint(s.txns) by { HeldApart(s); }
    if !a.Commit? && !a.Rollback? {
      ActorHolds(s, a);
      forall t | t in s.txns && t != a.t ensures s.txns[t].held !! Acted(s, a).held {
        HeldIsOld(s, t);
        if a.Claim? && Lockable(s, a.t, a.id) { LockedOut(s, a.t, a.id, t); }
      }
    }
  }

  lemma HeldApart(s: Store)
    requires StoreOk(s)
    ensures Disjoint(s.txns)
  {
    hide TxnOk, SavesOk, Balanced, RowsOk;
  }

  lemma LockedOut(s: Store, t: nat, id: nat, u: nat)
    requires Lockable(s, t, id) && u in s.txns && u != t
    ensures id !in s.txns[u].held
  {
  }

  lemma TxnsAfter(s: Store, a: Step)
    requires Enabled(s, a)
    ensures Apply(s, a).txns == if a.Commit? || a.Rollback? then s.txns - {a.t} else s.txns[a.t := Acted(s, a)]
  {
    hide Acted;
  }

  ghost predicate Free(s: Store, id: nat) {
    forall t :: t in s.txns ==> id !in s.txns[t].held
  }

  // What the books say about a row that a transaction holds, and about one that it does not.
  lemma HeldBooks(s: Store, t: nat, id: nat)
    requires StoreOk(s) && t in s.txns
    ensures var x := s.txns[t];
            if id in x.held then
              && s.sent[id] == x.sent[id] + s.wasted[id] && Committed(s.rows, id) == 0
              && Committed(s.rows + x.changes, id) == x.sent[id]
              && (forall u :: u in s.txns && u != t ==> id !in s.txns[u].held)
            else id !in x.changes && x.sent[id] == 0
  {
    hide CallOk;
    assert TxnOk(s.rows, s.nextId, s.txns[t]) && BalancedAt(s, id);
    if id in s.txns[t].held {
      assert RowOk(s.rows, s.txns[t], id);
    }
  }

  lemma FreeBooks(s: Store, id: nat)
    requires StoreOk(s) && Free(s, id)
    ensures s.sent[id] == Committed(s.rows, id) + s.wasted[id]
  {
    hide TxnOk, Disjoint, RowsOk;
    assert BalancedAt(s, id);
  }

  lemma EndBalanced(s: Store, a: Step, id: nat)
    requires StoreOk(s) && Enabled(s, a) && (a.Commit? || a.Rollback?)
    ensures BalancedAt(Apply(s, a), id)
  {
    hide StoreOk, Committed;
    var u := Apply(s, a);
    HeldBooks(s, a.t, id);
    forall t | t in u.txns && id in u.txns[t].held ensures u.sent[id] == u.txns[t].sent[id] + u.wasted[id] {
      HeldBooks(s, t, id);
    }
    if Free(u, id) && id !in s.txns[a.t].held {
      assert Free(s, id) by { assert forall t :: t in s.txns && t != a.t ==> t in u.txns && u.txns[t] == s.txns[t]; }
      FreeBooks(s, id);
      Unchanged(s.rows, s.txns[a.t].changes, id);
    }
  }

  lemma Unchanged(rows: map<nat, Row>, changes: map<nat, Row>, id: nat)
    requires id !in changes
    ensures Committed(rows + changes, id) == Committed(rows, id)
  {
  }

  lemma LockableIsFree(s: Store, t: nat, id: nat)
    requires Lockable(s, t, id) && (t in s.txns ==> id !in s.txns[t].held)
    ensures Free(s, id)
  {
  }

  lemma ClaimBalanced(s: Store, a: Step, id: nat)
    requires StoreOk(s) && Enabled(s, a) && a.Claim?
    ensures BalancedAt(Apply(s, a), id)
  {
    hide StoreOk;
    var u := Apply(s, a);
    forall t | t in u.txns && id in u.txns[t].held ensures u.sent[id] == u.txns[t].sent[id] + u.wasted[id] {
      HeldBooks(s, t, id);
      if id !in s.txns[t].held {
        assert t == a.t && id == a.id && Lockable(s, t, id);
        LockableIsFree(s, t, id);
        FreeBooks(s, id);
      }
    }
    if Free(u, id) {
      assert Free(s, id) by { assert forall t :: t in s.txns ==> s.txns[t].held <= u.txns[t].held; }
      FreeBooks(s, id);
    }
  }

  lemma RelayBalanced(s: Store, a: Step, id: nat)
    requires StoreOk(s) && Enabled(s, a) && a.Relay?
    ensures BalancedAt(Apply(s, a), id)
  {
    hide StoreOk, Committed;
    var u := Apply(s, a);
    CurrentHeld(s, a);
    HeldBooks(s, a.t, Current(s.txns[a.t]));
    forall t | t in u.txns && id in u.txns[t].held ensures u.sent[id] == u.txns[t].sent[id] + u.wasted[id] {
      HeldBooks(s, t, id);
    }
    if Free(u, id) {
      assert Free(s, id) by { assert forall t :: t in s.txns ==> s.txns[t].held == u.txns[t].held; }
      FreeBooks(s, id);
    }
  }

  lemma CurrentHeld(s: Store, a: Step)
    requires StoreOk(s) && Enabled(s, a) && a.Relay?
    ensures Current(s.txns[a.t]) in s.txns[a.t].held
  {
    hide Balanced, RowOk;
    assert TxnOk(s.rows, s.nextId, s.txns[a.t]);
  }

  // The steps that only take hold of new rows: they move no send.
  lemma QuietStep(s: Store, a: Step)
    requires StoreOk(s) && Enabled(s, a) && (a.Begin? || a.Enqueue? || a.Start? || a.Return? || a.Savepoint? || a.Release?)
    ensures var u := Apply(s, a);
            && u.rows == s.rows && u.sent == s.sent && u.wasted == s.wasted && u.txns == s.txns[a.t := Acted(s, a)]
            && (if a.t in s.txns then Acted(s, a).sent == s.txns[a.t].sent && s.txns[a.t].held <= Acted(s, a).held
                else Acted(s, a).held == {})
            && (forall id :: id in Acted(s, a).held ==> (a.t in s.txns && id in s.txns[a.t].held) || id == s.nextId)
  {
    hide StoreOk, Matches, Lockable;
  }

  lemma OtherBalanced(s: Store, a: Step, id: nat)
    requires StoreOk(s) && Enabled(s, a) && (a.Begin? || a.Enqueue? || a.Start? || a.Return? || a.Savepoint? || a.Release?)
    ensures BalancedAt(Apply(s, a), id)
  {
    hide StoreOk, Committed, Enabled, Apply, Acted;
    var u := Apply(s, a);
    QuietStep(s, a);
    NewIdBooks(s);
    forall t | t in u.txns && id in u.txns[t].held ensures u.sent[id] == u.txns[t].sent[id] + u.wasted[id] {
      if t in s.txns { HeldBooks(s, t, id); }
    }
    if Free(u, id) {
      assert Free(s, id) by { assert forall t :: t in s.txns ==> s.txns[t].held <= u.txns[t].held; }
      FreeBooks(s, id);
    }
  }

  // A row that the transaction gives up was not marked before the savepoint, and its sends are written off.
  lemma BackToBalanced(s: Store, a: Step, id: nat)
    requires StoreOk(s) && Enabled(s, a) && a.RollbackTo?
    ensures BalancedAt(Apply(s, a), id)
  {
    hide StoreOk, Committed, Enabled, Apply, Acted, BackTo, Lost;
    BackToIs(s, a);
    var u, x := Apply(s, a), s.txns[a.t];
    HeldBooks(s, a.t, id);
    SavedBooks(s, a.t, id);
    forall t | t in u.txns && id in u.txns[t].held ensures u.sent[id] == u.txns[t].sent[id] + u.wasted[id] {
      HeldBooks(s, t, id);
    }
    if Free(u, id) {
      assert id !in u.txns[a.t].held;
      if id !in x.held {
        assert Free(s, id) by { assert forall t :: t in s.txns && t != a.t ==> t in u.txns && u.txns[t] == s.txns[t]; }
        FreeBooks(s, id);
      }
    }
  }

  lemma BackToIs(s: Store, a: Step)
    requires StoreOk(s) && Enabled(s, a) && a.RollbackTo?
    ensures var u := Apply(s, a);
            && a.t in s.txns && s.txns[a.t].saves != [] && u.rows == s.rows && u.sent == s.sent
            && u.wasted == s.wasted + Lost(s.txns[a.t]) && u.txns == s.txns[a.t := BackTo(s.txns[a.t])]
            && u.txns[a.t].held == Saved(s.txns[a.t]).held <= s.txns[a.t].held && u.txns[a.t].sent == Saved(s.txns[a.t]).sent
  {
    hide StoreOk;
    SavedUnder(s, a.t);
  }

  lemma SavedBooks(s: Store, t: nat, id: nat)
    requires StoreOk(s) && t in s.txns && s.txns[t].saves != []
    ensures var x := s.txns[t];
            && Lost(x)[id] + Saved(x).sent[id] == x.sent[id]
            && (id !in Saved(x).held ==> Saved(x).sent[id] == 0)
  {
    hide StoreOk;
    SavedUnder(s, t);
  }

  lemma NewIdBooks(s: Store)
    requires StoreOk(s)
    ensures s.sent[s.nextId] == 0 && s.wasted[s.nextId] == 0
  {
    hide TxnOk, Balanced, Disjoint;
  }

  lemma BalancedStep(s: Store, a: Step)
    requires StoreOk(s) && Enabled(s, a)
    ensures Balanced(Apply(s, a))
  {
    hide StoreOk, Enabled, Apply, BalancedAt;
    forall id ensures BalancedAt(Apply(s, a), id) {
      match a
      case Commit(_) => EndBalanced(s, a, id);
      case Rollback(_) => EndBalanced(s, a, id);
      case Claim(_, _) => ClaimBalanced(s, a, id);
      case Relay(_, _) => RelayBalanced(s, a, id);
      case RollbackTo(_) => BackToBalanced(s, a, id);
      case _ => OtherBalanced(s, a, id);
    }
  }

  // A commit brings the visits of the transaction into the column.
  lemma CommitRows(s: Store, t: nat)
    requires StoreOk(s) && t in s.txns
    ensures forall id :: id in s.txns[t].changes ==>
              id < s.nextId && s.txns[t].changes[id].attempts == s.visits[id] + s.txns[t].visits[id]
    ensures forall id :: id !in s.txns[t].changes ==> s.txns[t].visits[id] == 0
  {
    hide CallOk, Balanced, Disjoint;
    var x := s.txns[t];
    forall id | id in x.changes
      ensures id < s.nextId && x.changes[id].attempts == s.visits[id] + x.visits[id]
    {
      assert id in x.held && RowOk(s.rows, x, id);
    }
  }

  lemma RowsStep(s: Store, a: Step)
    requires StoreOk(s) && Enabled(s, a)
    ensures RowsOk(Apply(s, a))
  {
    hide CallOk, Lockable, RowOk, Balanced, Disjoint, TxnOk, SavesOk, Acted;
    if a.Commit? { CommitRows(s, a.t); }
    if a.Rollback? || a.RollbackTo? { RollbackSends(s, a.t); }
    if a.Relay? { CurrentHeld(s, a); HeldIsOld(s, a.t); }
  }

  lemma HeldIsOld(s: Store, t: nat)
    requires StoreOk(s) && t in s.txns
    ensures forall id :: id in s.txns[t].held ==> id < s.nextId
  {
    hide RowOk, Balanced, CallOk, Disjoint;
  }

  lemma RollbackSends(s: Store, t: nat)
    requires StoreOk(s) && t in s.txns
    ensures forall id :: id >= s.nextId ==> s.txns[t].sent[id] == 0
  {
    hide RowOk, Balanced, CallOk, Disjoint;
    HeldIsOld(s, t);
    assert TxnOk(s.rows, s.nextId, s.txns[t]);
  }

  lemma NextOk(s: Store, a: Step)
    requires StoreOk(s)
    ensures StoreOk(Next(s, a))
  {
    hide TxnOk, SavesOk, Balanced, RowsOk, Disjoint, Lockable;
    if Enabled(s, a) {
      BalancedStep(s, a);
      RowsStep(s, a);
      HeldStep(s, a);
      var u := Apply(s, a);
      forall t | t in u.txns ensures TxnOk(u.rows, u.nextId, u.txns[t]) && SavesOk(u.rows, u.nextId, u.txns[t]) {
        if t != a.t { OthersOk(s, a, t); } else { ActedOk(s, a); ActedSaves(s, a); }
      }
    }
  }

  lemma {:induction false} Reachable(run: seq<Step>)
    ensures StoreOk(RunAll(EMPTY, run))
  {
    hide Next;
    if run != [] {
      Reachable(run[..|run| - 1]);
      NextOk(RunAll(EMPTY, run[..|run| - 1]), run[|run| - 1]);
    }
  }

  /// The main results

  // The successful sends of live transactions.
  ghost function InFlight(s: Store, id: nat): nat {
    if Free(s, id) then 0
    else
      var t :| t in s.txns && id in s.txns[t].held;
      s.txns[t].sent[id]
  }

  // In every reachable state, for every row: no two live transactions hold it; it was sent once if it is
  // committed as published, once if the transaction that holds it has marked it, and once for each mark that
  // was rolled back; and its attempts are the visits of committed transactions.
  lemma Conservation(run: seq<Step>, id: nat)
    ensures var s := RunAll(EMPTY, run);
            && (forall t, u :: t in s.txns && u in s.txns && t != u ==> !(id in s.txns[t].held && id in s.txns[u].held))
            && s.sent[id] == Committed(s.rows, id) + InFlight(s, id) + s.wasted[id]
            && InFlight(s, id) <= 1
            && (id in s.rows ==> s.rows[id].attempts == s.visits[id])
  {
    hide RunAll, StoreOk;
    var s := RunAll(EMPTY, run);
    Reachable(run);
    if Free(s, id) {
      FreeBooks(s, id);
    } else {
      var t :| t in s.txns && id in s.txns[t].held && InFlight(s, id) == s.txns[t].sent[id];
      HeldBooks(s, t, id);
    }
    SomeRows(s, id);
  }

  lemma SomeRows(s: Store, id: nat)
    requires StoreOk(s)
    ensures id in s.rows ==> s.rows[id].attempts == s.visits[id]
    ensures forall t, u :: t in s.txns && u in s.txns && t != u ==> !(id in s.txns[t].held && id in s.txns[u].held)
  {
    hide TxnOk, Balanced;
  }

  // What the calls of a transaction have counted is the number of rows it has marked as published and of marks that
  // went with a savepoint: so it is the number of marked rows if, and only if, no mark was undone.
  lemma CountedIsMarked(run: seq<Step>, t: nat)
    requires t in RunAll(EMPTY, run).txns
    ensures var x := RunAll(EMPTY, run).txns[t];
            && x.counted == |x.sent| + |x.undone| && (x.counted == |x.sent| <==> x.undone == multiset{})
            && (forall id :: x.sent[id] == if id in x.changes && x.changes[id].publishedAt.Some? then 1 else 0)
  {
    hide RunAll, SavesOk;
    Reachable(run);
    var s := RunAll(EMPTY, run);
    var x := s.txns[t];
    assert TxnOk(s.rows, s.nextId, x);
    forall id ensures x.sent[id] == if id in x.changes && x.changes[id].publishedAt.Some? then 1 else 0 {
      if id in x.changes { assert id in x.held && RowOk(s.rows, x, id); }
    }
  }

  // A published row is never touched again.
  lemma PublishedStays(s: Store, a: Step, id: nat)
    requires StoreOk(s) && id in s.rows && s.rows[id].publishedAt.Some?
    ensures id in Next(s, a).rows && Next(s, a).rows[id] == s.rows[id]
  {
    hide Acted, StoreOk;
    if a.t in s.txns {
      HeldBooks(s, a.t, id);
    }
  }

  lemma {:induction false} PublishedOnce(run: seq<Step>, bs: seq<Step>, id: nat)
    requires id in RunAll(EMPTY, run).rows && RunAll(EMPTY, run).rows[id].publishedAt.Some?
    ensures var s, u := RunAll(EMPTY, run), RunAll(EMPTY, run + bs); id in u.rows && u.rows[id] == s.rows[id]
  {
    hide Next, StoreOk;
    if bs == [] {
      assert run + bs == run;
    } else {
      var init := bs[..|bs| - 1];
      PublishedOnce(run, init, id);
      Reachable(run + init);
      assert (run + bs)[..|run + bs| - 1] == run + init;
      PublishedStays(RunAll(EMPTY, run + init), bs[|bs| - 1], id);
    }
  }

  lemma RowStays(s: Store, a: Step, id: nat)
    requires StoreOk(s) && id in s.rows
    ensures var rows := Next(s, a).rows;
            && id in rows && rows[id].broker == s.rows[id].broker
            && (s.rows[id].publishedAt.None? && rows[id].publishedAt.Some? ==> s.sent[id] > s.wasted[id])
  {
    hide Acted, StoreOk;
    if a.t in s.txns {
      HeldBooks(s, a.t, id);
      if id in s.txns[a.t].changes { ChangeOk(s, a.t, id); }
    }
  }

  lemma ChangeOk(s: Store, t: nat, id: nat)
    requires StoreOk(s) && t in s.txns && id in s.txns[t].changes
    ensures id in s.txns[t].held
    ensures id in s.rows ==> s.txns[t].changes[id].broker == s.rows[id].broker
  {
    hide Balanced, Disjoint, RowsOk, CallOk, SavesOk;
    assert TxnOk(s.rows, s.nextId, s.txns[t]) && RowOk(s.rows, s.txns[t], id);
  }

  // A committed row is never lost, whatever happens: it stays with its broker, and a row that is published was
  // sent, by a send that was not rolled back.
  lemma {:induction false} NeverLost(run: seq<Step>, more: seq<Step>, id: nat)
    requires id in RunAll(EMPTY, run).rows
    ensures var s, u := RunAll(EMPTY, run), RunAll(EMPTY, run + more);
            && id in u.rows && u.rows[id].broker == s.rows[id].broker
            && (u.rows[id].publishedAt.Some? ==> u.sent[id] == u.wasted[id] + 1)
            && (u.rows[id].publishedAt.None? && Free(u, id) ==> u.sent[id] == u.wasted[id])
  {
    hide Next, StoreOk;
    Reachable(run + more);
    PublishedBooks(RunAll(EMPTY, run + more), id);
    if more == [] {
      assert run + more == run;
    } else {
      var init := more[..|more| - 1];
      NeverLost(run, init, id);
      Reachable(run + init);
      assert (run + more)[..|run + more| - 1] == run + init;
      RowStays(RunAll(EMPTY, run + init), more[|more| - 1], id);
    }
  }

  // A published row is nobody's.
  lemma PublishedBooks(s: Store, id: nat)
    requires StoreOk(s)
    ensures Committed(s.rows, id) == 1 || Free(s, id) ==> s.sent[id] == Committed(s.rows, id) + s.wasted[id]
  {
    hide StoreOk, Committed;
    if Free(s, id) {
      FreeBooks(s, id);
    } else {
      var t :| t in s.txns && id in s.txns[t].held;
      HeldBooks(s, t, id);
    }
  }

  /// Where the rows come from

  // The broker of the step that has enqueued the row.
  function BrokerOf(run: seq<Step>, id: nat): Option<int> {
    if run == [] then None
    else
      var s, a := RunAll(EMPTY, run[..|run| - 1]), run[|run| - 1];
      if a.Enqueue? && Enabled(s, a) && s.nextId == id then Some(a.broker) else BrokerOf(run[..|run| - 1], id)
  }

  // A transaction that had enqueued the row, and had not gone back behind that, has committed.
  ghost predicate BroughtIn(run: seq<Step>, id: nat) {
    run != [] &&
    var s, a := RunAll(EMPTY, run[..|run| - 1]), run[|run| - 1];
    BroughtIn(run[..|run| - 1], id) || (a.Commit? && Enabled(s, a) && id in s.txns[a.t].own)
  }

  ghost predicate Named(run: seq<Step>, x: Txn) {
    forall id :: id in x.own ==> id in x.changes && BrokerOf(run, id) == Some(x.changes[id].broker)
  }

  ghost predicate TxnNamed(run: seq<Step>, x: Txn) {
    Named(run, x) && forall k :: 0 <= k < |x.saves| ==> Named(run, x.saves[k])
  }

  ghost predicate AllNamed(run: seq<Step>, s: Store) {
    && (forall t :: t in s.txns ==> TxnNamed(run, s.txns[t]))
    && (forall id :: id in s.rows ==> BrokerOf(run, id) == Some(s.rows[id].broker))
  }

  lemma BrokerStep(run: seq<Step>, a: Step, id: nat)
    ensures var s := RunAll(EMPTY, run);
            BrokerOf(run + [a], id) == if a.Enqueue? && Enabled(s, a) && s.nextId == id then Some(a.broker) else BrokerOf(run, id)
  {
    hide Enabled;
    assert (run + [a])[..|run|] == run;
  }

  // A row that is there already keeps its name.
  lemma StillNamed(run: seq<Step>, a: Step, nextId: nat, x: Txn)
    requires Named(run, x) && nextId == RunAll(EMPTY, run).nextId && forall id :: id in x.own ==> id < nextId
    ensures Named(run + [a], x)
  {
    hide Enabled;
    forall id | id in x.own ensures BrokerOf(run + [a], id) == BrokerOf(run, id) {
      BrokerStep(run, a, id);
    }
  }

  lemma OwnIsOld(s: Store, t: nat)
    requires StoreOk(s) && t in s.txns
    ensures forall id :: id in s.txns[t].own ==> id < s.nextId
    ensures forall k, id :: 0 <= k < |s.txns[t].saves| && id in s.txns[t].saves[k].own ==> id < s.nextId
  {
    hide Balanced, Disjoint, RowsOk, RowOk, CallOk;
    assert TxnOk(s.rows, s.nextId, s.txns[t]) && SavesOk(s.rows, s.nextId, s.txns[t]);
  }

  lemma TxnStillNamed(run: seq<Step>, a: Step, t: nat)
    requires var s := RunAll(EMPTY, run); StoreOk(s) && t in s.txns && TxnNamed(run, s.txns[t])
    ensures TxnNamed(run + [a], RunAll(EMPTY, run).txns[t])
  {
    hide StoreOk, Named, RunAll;
    var s := RunAll(EMPTY, run);
    OwnIsOld(s, t);
    StillNamed(run, a, s.nextId, s.txns[t]);
    forall k | 0 <= k < |s.txns[t].saves| ensures Named(run + [a], s.txns[t].saves[k]) {
      StillNamed(run, a, s.nextId, s.txns[t].saves[k]);
    }
  }

  // The transaction that makes the step: a visit does not change the broker, and a new row has the one it is enqueued for.
  lemma ActedNamed(run: seq<Step>, s: Store, a: Step)
    requires s == RunAll(EMPTY, run) && StoreOk(s) && Enabled(s, a) && !a.Commit? && !a.Rollback?
    requires a.t in s.txns ==> TxnNamed(run + [a], s.txns[a.t])
    ensures TxnNamed(run + [a], Acted(s, a))
  {
    hide StoreOk, BrokerOf, Matches, Lockable, RunAll, Lost;
    if a.Enqueue? { NamedNow(run, a); }
  }

  lemma NamedNow(run: seq<Step>, a: Step)
    requires a.Enqueue? && Enabled(RunAll(EMPTY, run), a)
    ensures BrokerOf(run + [a], RunAll(EMPTY, run).nextId) == Some(a.broker)
  {
    BrokerStep(run, a, RunAll(EMPTY, run).nextId);
  }

  lemma RowsNamed(run: seq<Step>, s: Store, a: Step)
    requires s == RunAll(EMPTY, run) && StoreOk(s) && Enabled(s, a) && AllNamed(run, s)
    ensures forall id :: id in Apply(s, a).rows ==> BrokerOf(run + [a], id) == Some(Apply(s, a).rows[id].broker)
  {
    hide StoreOk, BrokerOf, RunAll, Acted;
    forall id | id in Apply(s, a).rows ensures BrokerOf(run + [a], id) == Some(Apply(s, a).rows[id].broker) {
      BrokerStep(run, a, id);
      RowIsOld(s, id);
      if a.Commit? && id in s.txns[a.t].changes {
        ChangeOk(s, a.t, id);
        if id !in s.rows { HeldIsOwn(s, a.t, id); HeldIsOld(s, a.t); }
      }
    }
  }

  lemma RowIsOld(s: Store, id: nat)
    requires StoreOk(s)
    ensures id in s.rows ==> id < s.nextId
  {
    hide TxnOk, Balanced, Disjoint, SavesOk;
  }

  lemma {:induction false} NamesAreKept(run: seq<Step>)
    ensures AllNamed(run, RunAll(EMPTY, run))
  {
    hide StoreOk, Apply, Enabled, BrokerOf, TxnNamed;
    if run != [] {
      var init, a := run[..|run| - 1], run[|run| - 1];
      var s := RunAll(EMPTY, init);
      assert init + [a] == run;
      NamesAreKept(init);
      Reachable(init);
      forall t | t in s.txns ensures TxnNamed(run, s.txns[t]) {
        TxnStillNamed(init, a, t);
      }
      if Enabled(s, a) {
        TxnsAfter(s, a);
        RowsNamed(init, s, a);
        if !a.Commit? && !a.Rollback? { ActedNamed(init, s, a); }
      } else {
        forall id ensures BrokerOf(run, id) == BrokerOf(init, id) {
          BrokerStep(init, a, id);
        }
      }
    }
  }

  // A row is in the table exactly when a transaction that had enqueued it has committed, with the broker that it was
  // enqueued for.
  lemma {:induction false} RowsAreEnqueued(run: seq<Step>, id: nat)
    ensures var s := RunAll(EMPTY, run);
            (id in s.rows <==> BroughtIn(run, id)) && (id in s.rows ==> BrokerOf(run, id) == Some(s.rows[id].broker))
  {
    hide StoreOk, Enabled, BrokerOf, Apply, AllNamed;
    NamesAreKept(run);
    RowIsNamed(run, RunAll(EMPTY, run), id);
    if run != [] {
      var init, a := run[..|run| - 1], run[|run| - 1];
      var s := RunAll(EMPTY, init);
      RowsAreEnqueued(init, id);
      Reachable(init);
      if Enabled(s, a) { RowStep(s, a, id); }
    }
  }

  lemma RowIsNamed(run: seq<Step>, s: Store, id: nat)
    requires AllNamed(run, s)
    ensures id in s.rows ==> BrokerOf(run, id) == Some(s.rows[id].broker)
  {
  }

  lemma RowStep(s: Store, a: Step, id: nat)
    requires StoreOk(s) && Enabled(s, a)
    ensures a.Commit? ==> a.t in s.txns
    ensures id in Apply(s, a).rows <==> id in s.rows || (a.Commit? && id in s.txns[a.t].own)
  {
    hide StoreOk, Acted;
    if a.Commit? {
      if id in s.txns[a.t].own { OwnIsHeld(s, a.t, id); }
      if id in s.txns[a.t].changes && id !in s.rows {
        ChangeOk(s, a.t, id);
        HeldIsOwn(s, a.t, id);
      }
    }
  }

  /// Rows whose insertion was rolled back

  // The row was sent, and no transaction that enqueued it has committed or can still commit.
  ghost predicate Orphaned(s: Store, id: nat) {
    s.sent[id] > 0 && id !in s.rows && forall t :: t in s.txns ==> id !in s.txns[t].own
  }

  // The step rolls back the insertion of a row that was relayed already.
  ghost predicate Orphans(s: Store, a: Step, id: nat) {
    && Enabled(s, a) && (a.Rollback? || a.RollbackTo?) && s.sent[id] > 0
    && id in s.txns[a.t].own && (a.RollbackTo? ==> id !in Saved(s.txns[a.t]).own)
  }

  ghost predicate OrphanedBy(run: seq<Step>, id: nat) {
    run != [] && (OrphanedBy(run[..|run| - 1], id) || Orphans(RunAll(EMPTY, run[..|run| - 1]), run[|run| - 1], id))
  }

  // What the step does to the rows that belong to no one else yet.
  lemma OwnStep(s: Store, a: Step, t: nat)
    requires StoreOk(s) && Enabled(s, a) && t in Apply(s, a).txns
    ensures (a.Begin? && a.t == t) || t in s.txns
    ensures var own, own' := (if t in s.txns then s.txns[t].own else {}), Apply(s, a).txns[t].own;
            if a.Enqueue? && a.t == t then own' == own + {s.nextId}
            else if a.RollbackTo? && a.t == t then s.txns[t].saves != [] && own' == Saved(s.txns[t]).own <= own
            else own' == own
  {
    hide StoreOk, Acted, Enabled;
    EnabledLives(s, a);
    if t == a.t && !a.Commit? && !a.Rollback? { ActedOwn(s, a); }
  }

  lemma ActedOwn(s: Store, a: Step)
    requires StoreOk(s) && Enabled(s, a) && !a.Commit? && !a.Rollback?
    ensures if a.Begin? then Acted(s, a).own == {}
            else a.t in s.txns &&
                 if a.Enqueue? then Acted(s, a).own == s.txns[a.t].own + {s.nextId}
                 else if a.RollbackTo? then s.txns[a.t].saves != [] && Acted(s, a).own == Saved(s.txns[a.t]).own <= s.txns[a.t].own
                 else Acted(s, a).own == s.txns[a.t].own
  {
    hide StoreOk, Matches, Lockable, Lost;
    if a.RollbackTo? { SavedUnder(s, a.t); }
  }

  lemma OwnIsHeld(s: Store, t: nat, id: nat)
    requires StoreOk(s) && t in s.txns && id in s.txns[t].own
    ensures id in s.txns[t].held && id !in s.rows && id in s.txns[t].changes
  {
    hide Balanced, Disjoint, RowsOk, CallOk, SavesOk;
    assert TxnOk(s.rows, s.nextId, s.txns[t]) && RowOk(s.rows, s.txns[t], id);
  }

  lemma HeldIsOwn(s: Store, t: nat, id: nat)
    requires StoreOk(s) && t in s.txns && id in s.txns[t].held && id !in s.rows
    ensures id in s.txns[t].own
  {
    hide Balanced, Disjoint, RowsOk, CallOk, SavesOk;
    assert TxnOk(s.rows, s.nextId, s.txns[t]) && RowOk(s.rows, s.txns[t], id);
  }

  lemma OrphanStays(s: Store, a: Step, id: nat)
    requires StoreOk(s) && Enabled(s, a) && Orphaned(s, id)
    ensures Orphaned(Apply(s, a), id)
  {
    hide StoreOk, Acted;
    var u := Apply(s, a);
    NewIdBooks(s);
    forall t | t in u.txns ensures id !in u.txns[t].own {
      OwnStep(s, a, t);
    }
    if a.Commit? && id in s.txns[a.t].changes {
      HeldBooks(s, a.t, id);
      HeldIsOwn(s, a.t, id);
    }
  }

  lemma OrphanMade(s: Store, a: Step, id: nat)
    requires StoreOk(s) && Orphans(s, a, id)
    ensures Orphaned(Apply(s, a), id)
  {
    hide StoreOk, Acted;
    OwnIsHeld(s, a.t, id);
    HeldBooks(s, a.t, id);
    var u := Apply(s, a);
    forall t | t in u.txns ensures id !in u.txns[t].own {
      OwnStep(s, a, t);
      if id in u.txns[t].own { OwnIsHeld(s, t, id); }
    }
  }

  lemma OrphanCause(s: Store, a: Step, id: nat)
    requires StoreOk(s) && Enabled(s, a) && Orphaned(Apply(s, a), id) && !Orphaned(s, id)
    ensures Orphans(s, a, id)
  {
    hide StoreOk, Acted;
    var u := Apply(s, a);
    if t :| t in s.txns && id in s.txns[t].own {
      OwnIsHeld(s, t, id);
      if t in u.txns { OwnStep(s, a, t); }
      if a.Relay? { CurrentHeld(s, a); }
    } else if a.Relay? {
      CurrentHeld(s, a);
      if id == Current(s.txns[a.t]) && id !in s.rows { HeldIsOwn(s, a.t, id); }
    }
  }

  // A message is sent although its insertion was rolled back, with its transaction or to a savepoint, if, and only
  // if, that rollback comes after the row was relayed, which only the transaction that enqueued it can do.
  lemma {:induction false} OrphansExactly(run: seq<Step>, id: nat)
    ensures Orphaned(RunAll(EMPTY, run), id) <==> OrphanedBy(run, id)
  {
    hide Apply, Enabled, Orphans, Orphaned, StoreOk;
    if run == [] {
      NoOrphans(id);
    } else {
      var init, a := run[..|run| - 1], run[|run| - 1];
      var s := RunAll(EMPTY, init);
      OrphansExactly(init, id);
      Reachable(init);
      OrphansEnabled(s, a, id);
      if Enabled(s, a) {
        if Orphaned(s, id) {
          OrphanStays(s, a, id);
        } else if Orphans(s, a, id) {
          OrphanMade(s, a, id);
        } else if Orphaned(Apply(s, a), id) {
          OrphanCause(s, a, id);
        }
      }
    }
  }

  lemma OrphansEnabled(s: Store, a: Step, id: nat)
    ensures Orphans(s, a, id) ==> Enabled(s, a)
  {
  }

  lemma NoOrphans(id: nat)
    ensures !Orphaned(EMPTY, id)
  {
  }

  // The step relays a row that its own transaction has enqueued.
  ghost predicate RelaysOwn(s: Store, a: Step) {
    a.Relay? && Enabled(s, a) && Current(s.txns[a.t]) in s.txns[a.t].own
  }

  ghost predicate NeverRelaysOwn(run: seq<Step>) {
    run != [] ==> NeverRelaysOwn(run[..|run| - 1]) && !RelaysOwn(RunAll(EMPTY, run[..|run| - 1]), run[|run| - 1])
  }

  lemma OwnUnsentStep(s: Store, a: Step, t: nat, id: nat)
    requires StoreOk(s) && Enabled(s, a) && !RelaysOwn(s, a) && t in Apply(s, a).txns && id in Apply(s, a).txns[t].own
    ensures (t in s.txns && id in s.txns[t].own) || s.sent[id] == 0
    ensures Apply(s, a).sent[id] == s.sent[id]
  {
    hide StoreOk, Acted, Enabled;
    OwnStep(s, a, t);
    NewIdBooks(s);
    if a.Relay? {
      EnabledLives(s, a);
      CurrentHeld(s, a);
      OwnIsHeld(s, t, id);
      HeldBooks(s, t, id);
    }
  }

  lemma {:induction false} OwnIsUnsent(run: seq<Step>, t: nat, id: nat)
    requires NeverRelaysOwn(run) && t in RunAll(EMPTY, run).txns && id in RunAll(EMPTY, run).txns[t].own
    ensures RunAll(EMPTY, run).sent[id] == 0
  {
    hide StoreOk, Apply, Enabled, RelaysOwn;
    if run != [] {
      var init, a := run[..|run| - 1], run[|run| - 1];
      var s := RunAll(EMPTY, init);
      Reachable(init);
      if Enabled(s, a) { OwnUnsentStep(s, a, t, id); }
      if t in s.txns && id in s.txns[t].own { OwnIsUnsent(init, t, id); }
    }
  }

  // If no transaction relays a row that it has enqueued itself, then no row is ever sent without being there.
  lemma {:induction false} SeparateRelays(run: seq<Step>, id: nat)
    requires NeverRelaysOwn(run)
    ensures !Orphaned(RunAll(EMPTY, run), id)
  {
    OrphansExactly(run, id);
    NeverOrphans(run, id);
  }

  lemma {:induction false} NeverOrphans(run: seq<Step>, id: nat)
    requires NeverRelaysOwn(run)
    ensures !OrphanedBy(run, id)
  {
    hide RunAll, RelaysOwn;
    if run != [] {
      var init, a := run[..|run| - 1], run[|run| - 1];
      NeverOrphans(init, id);
      if Orphans(RunAll(EMPTY, init), a, id) { OwnIsUnsent(init, a.t, id); }
    }
  }

  // Batches are started in transactions only that have enqueued nothing.
  ghost predicate BatchesApart(run: seq<Step>) {
    run != [] ==>
      var init, a := run[..|run| - 1], run[|run| - 1];
      BatchesApart(init) && (a.Start? && a.t in RunAll(EMPTY, init).txns ==> RunAll(EMPTY, init).txns[a.t].own == {})
  }

  // A call goes on in the transaction that it was started in, and nothing is enqueued meanwhile.
  lemma CallStep(s: Store, a: Step, t: nat)
    requires StoreOk(s) && Enabled(s, a) && t in Apply(s, a).txns && Apply(s, a).txns[t].call.Some?
    ensures t in s.txns && Apply(s, a).txns[t].own == s.txns[t].own && (s.txns[t].call.Some? || (a.Start? && a.t == t))
  {
    hide Enabled, Apply, Acted, StoreOk;
    TxnsAfter(s, a);
    if a.t == t { CallActed(s, a); }
  }

  lemma CallActed(s: Store, a: Step)
    requires StoreOk(s) && Enabled(s, a) && !a.Commit? && !a.Rollback? && Acted(s, a).call.Some?
    ensures a.t in s.txns && Acted(s, a).own == s.txns[a.t].own && (s.txns[a.t].call.Some? || a.Start?)
  {
    hide Matches, Lockable, StoreOk, Lost;
    if a.t in s.txns { SavedCalls(s, a.t); }
  }

  lemma SavedCalls(s: Store, t: nat)
    requires StoreOk(s) && t in s.txns
    ensures s.txns[t].saves != [] ==> Saved(s.txns[t]).call.None?
  {
    hide TxnOk, Balanced, Disjoint, RowsOk;
    assert SavesOk(s.rows, s.nextId, s.txns[t]);
  }

  lemma {:induction false} CallsApart(run: seq<Step>, t: nat)
    requires BatchesApart(run) && t in RunAll(EMPTY, run).txns && RunAll(EMPTY, run).txns[t].call.Some?
    ensures RunAll(EMPTY, run).txns[t].own == {}
  {
    hide StoreOk, Apply, Enabled;
    if run != [] {
      var init, a := run[..|run| - 1], run[|run| - 1];
      var s := RunAll(EMPTY, init);
      Reachable(init);
      if Enabled(s, a) { CallStep(s, a, t); }
      if s.txns[t].call.Some? { CallsApart(init, t); }
    }
  }

  lemma {:induction false} ApartIsSeparate(run: seq<Step>)
    requires BatchesApart(run)
    ensures NeverRelaysOwn(run)
  {
    hide RunAll;
    if run != [] {
      var init, a := run[..|run| - 1], run[|run| - 1];
      ApartIsSeparate(init);
      if RelaysOwn(RunAll(EMPTY, init), a) { CallsApart(init, a.t); }
    }
  }

  // So a caller that starts batches only where nothing was enqueued never sends a row that is not there.
  lemma SeparateBatches(run: seq<Step>, id: nat)
    requires BatchesApart(run)
    ensures !Orphaned(RunAll(EMPTY, run), id)
  {
    hide RunAll, Orphaned, NeverRelaysOwn, BatchesApart;
    ApartIsSeparate(run);
    SeparateRelays(run, id);
  }

  // A transaction enqueues a row, and has started a batch.
  const MINE := Enqueued(Fresh(7), 0, 1).(call := Some(Call(None, 100, [], 0, 0)))
  const BATCH := [Begin(0, 7), Enqueue(0, 1), Start(0, None, 100)]

  lemma BatchStarts()
    ensures RunAll(EMPTY, BATCH) == EMPTY.(nextId := 1, txns := map[0 := MINE])
  {
    var x := Fresh(7);
    Extend([], Begin(0, 7), EMPTY.(txns := map[0 := x]));
    assert [] + [Begin(0, 7)] == BATCH[..1] && BATCH[..1] + [Enqueue(0, 1)] == BATCH[..2] && BATCH[..2] + [Start(0, None, 100)] == BATCH;
    assert x.own + {0} == {0} && Enqueued(x, 0, 1) == MINE.(call := None);
    Extend(BATCH[..1], Enqueue(0, 1), EMPTY.(nextId := 1, txns := map[0 := MINE.(call := None)]));
    Extend(BATCH[..2], Start(0, None, 100), EMPTY.(nextId := 1, txns := map[0 := MINE]));
  }

  lemma OwnRowIsRelayed(s: Store)
    requires s == EMPTY.(nextId := 1, txns := map[0 := MINE])
    ensures var u := Next(Next(s, Claim(0, 0)), Relay(0, true));
            u.rows == map[] && u.sent == multiset{0} && 0 in u.txns && u.txns.Keys == {0}
  {
    var u := Next(s, Claim(0, 0));
    assert Enabled(s, Claim(0, 0));
    assert u.txns[0] == Claimed(MINE, 0) && Enabled(u, Relay(0, true));
  }

  // It can happen: the batch runs in the transaction that enqueued the row, and this one is rolled back.
  lemma SentButRolledBack()
    ensures Orphaned(RunAll(EMPTY, BATCH + [Claim(0, 0)] + [Relay(0, true)] + [Rollback(0)]), 0)
  {
    hide Next;
    BatchStarts();
    var s := RunAll(EMPTY, BATCH);
    OwnRowIsRelayed(s);
    var u := Next(s, Claim(0, 0));
    var v := Next(u, Relay(0, true));
    Extend(BATCH, Claim(0, 0), u);
    Extend(BATCH + [Claim(0, 0)], Relay(0, true), v);
    Extend(BATCH + [Claim(0, 0)] + [Relay(0, true)], Rollback(0), Next(v, Rollback(0)));
    RolledBack(v, 0);
  }

  lemma RolledBack(s: Store, t: nat)
    ensures t in s.txns ==> Next(s, Rollback(t)) == s.(wasted := s.wasted + s.txns[t].sent, txns := s.txns - {t})
  {
  }

  lemma Extend(run: seq<Step>, a: Step, s: Store)
    requires Next(RunAll(EMPTY, run), a) == s
    ensures RunAll(EMPTY, run + [a]) == s
  {
    assert (run + [a])[..|run|] == run;
  }
}
