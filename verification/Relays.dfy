/** The function publish_outbox_batch (functions.sql) as a loop on the store of `Outbox`, with steps of other
    transactions before each row is looked at and while it is sent. */
module Relays {
  import opened Basics
  import opened Outbox

  predicate Foreign(steps: seq<Step>, t: nat) {
    forall k :: 0 <= k < |steps| ==> steps[k].t != t
  }

  lemma CommitIs(s: Store, t: nat)
    requires Enabled(s, Commit(t))
    ensures t in s.txns && Next(s, Commit(t)).rows == s.rows + s.txns[t].changes
  {
  }

  lemma OtherKeeps(s: Store, a: Step, t: nat)
    requires StoreOk(s) && t in s.txns && a.t != t
    ensures t in Next(s, a).txns && Next(s, a).txns[t] == s.txns[t]
    ensures forall id :: id in s.txns[t].held ==> SameAt(s.rows, Next(s, a).rows, id)
  {
    hide Acted, StoreOk, Enabled;
    if a.Commit? && Enabled(s, a) {
      CommitIs(s, a.t);
      forall id | id in s.txns[t].held ensures id !in s.txns[a.t].changes {
        HeldBooks(s, t, id);
        HeldBooks(s, a.t, id);
      }
    }
  }

  // Steps of other transactions leave this one as it is, and the rows that it holds.
  lemma {:induction false} OthersKeep(s: Store, others: seq<Step>, t: nat)
    requires StoreOk(s) && t in s.txns && Foreign(others, t)
    ensures var u := RunAll(s, others);
            && StoreOk(u) && t in u.txns && u.txns[t] == s.txns[t]
            && forall id :: id in s.txns[t].held ==> SameAt(s.rows, u.rows, id)
  {
    hide Next, StoreOk;
    if others != [] {
      var u := RunAll(s, others[..|others| - 1]);
      OthersKeep(s, others[..|others| - 1], t);
      OtherKeeps(u, others[|others| - 1], t);
      NextOk(u, others[|others| - 1]);
    }
  }

  lemma {:induction false} RunsOn(s: Store, run: seq<Step>, more: seq<Step>)
    ensures RunAll(s, run + more) == RunAll(RunAll(s, run), more)
  {
    hide Next;
    if more == [] {
      assert run + more == run;
    } else {
      assert (run + more)[..|run + more| - 1] == run + more[..|more| - 1];
      RunsOn(s, run, more[..|more| - 1]);
    }
  }

  // The row is unpublished as the transaction sees it, and is for this broker if the call asks for one.
  predicate Eligible(rows: map<nat, Row>, x: Txn, filter: Option<int>, id: nat) {
    && (id in x.changes || id in rows)
    && var row := if id in x.changes then x.changes[id] else rows[id];
       row.publishedAt.None? && (filter.Some? ==> row.broker == filter.value)
  }

  lemma MatchesIs(rows: map<nat, Row>, x: Txn, filter: Option<int>, id: nat)
    ensures Matches(rows, x, filter, id) <==> Eligible(rows, x, filter, id)
  {
  }

  // Such a row, and no other transaction holds it.
  ghost predicate ToBeHad(s: Store, t: nat, filter: Option<int>, id: nat) {
    t in s.txns && Eligible(s.rows, s.txns[t], filter, id) && forall u :: u in s.txns && u != t ==> id !in s.txns[u].held
  }

  lemma AvailableIs(s: Store, t: nat, filter: Option<int>, id: nat)
    ensures Available(s, t, filter, id) <==> ToBeHad(s, t, filter, id)
  {
    hide Matches, Eligible;
    if t in s.txns { MatchesIs(s.rows, s.txns[t], filter, id); }
  }

  // What is still ahead of the query in a store.
  ghost predicate Available(s: Store, t: nat, filter: Option<int>, id: nat) {
    t in s.txns && Matches(s.rows, s.txns[t], filter, id) && Lockable(s, t, id)
  }

  class Database {
    var store: Store
    // All steps so far.
    ghost var run: seq<Step>

    ghost predicate Valid()
      reads this
    {
      store == RunAll(EMPTY, run)
    }

    constructor ()
      ensures Valid() && run == []
    {
      store, run := EMPTY, [];
    }

    lemma InOrder()
      requires Valid()
      ensures StoreOk(store)
    {
      hide StoreOk;
      Reachable(run);
    }

    method Do(a: Step)
      requires Valid()
      modifies this
      ensures Valid() && store == Next(old(store), a) && run == old(run) + [a]
    {
      hide Next;
      Extend(run, a, Next(store, a));
      store, run := Next(store, a), run + [a];
    }

    // Other transactions do something in the meantime.
    method Meanwhile(t: nat, others: seq<Step>)
      requires Valid() && t in store.txns && Foreign(others, t)
      modifies this
      ensures Valid() && t in store.txns && store.txns[t] == old(store).txns[t] && run == old(run) + others
      ensures others == [] ==> store == old(store)
      ensures forall id :: id in store.txns[t].held ==> SameAt(old(store).rows, store.rows, id)
    {
      hide Next, StoreOk;
      Reachable(run);
      OthersKeep(store, others, t);
      RunsOn(EMPTY, run, others);
      store, run := RunAll(store, others), run + others;
    }

    /** publish_outbox_batch, in a live transaction: the answers of the broker, and what other transactions do before
        each row is looked at and while it is sent, come from the environment. */
    method PublishOutboxBatch(t: nat, filter: Option<int>, limit: int, answers: nat -> bool,
                              before: nat -> seq<Step>, during: nat -> seq<Step>)
      returns (count: nat, ghost visited: seq<nat>, ghost oks: seq<bool>)
      requires Valid() && t in store.txns && store.txns[t].call.None?
      requires forall i :: Foreign(before(i), t) && Foreign(during(i), t)
      modifies this
      ensures Valid() && old(run) <= run && t in store.txns && store.txns[t].call.None?
      ensures BatchDone(old(store).txns[t], store.txns[t], visited, oks, count)
      ensures Wanted(Batch(old(store), t, filter, limit, answers), visited, oks)
      ensures (forall i :: before(i) == [] && during(i) == []) ==>
                NonePassedOver(Batch(old(store), t, filter, limit, answers), visited) &&
                AllRewritten(Batch(old(store), t, filter, limit, answers), store.txns[t].changes, visited)
    {
      hide *;
      InOrder();
      var b := Batch(store, t, filter, limit, answers);
      ghost var quiet := forall i :: before(i) == [] && during(i) == [];
      StartIs(b, quiet);
      Do(Start(t, filter, limit));
      ghost var id;
      visited, oks, id := Scan(b, before, during, quiet);
      Finish(b, store, visited, oks, id, quiet);
      count := store.txns[t].call.value.count;
      Do(Return(t));
    }

    // The loop over the rows of the query.
    method Scan(b: Batch, before: nat -> seq<Step>, during: nat -> seq<Step>, ghost quiet: bool)
      returns (ghost visited: seq<nat>, ghost oks: seq<bool>, ghost end: nat)
      requires Valid() && Progress(b, store, [], [], 0, quiet)
      requires forall i :: Foreign(before(i), b.t) && Foreign(during(i), b.t)
      requires quiet ==> forall i :: before(i) == [] && during(i) == []
      modifies this
      ensures Valid() && old(run) <= run && b.t in store.txns
      ensures Progress(b, store, visited, oks, end, quiet) && (end >= b.start.nextId || |visited| >= b.limit)
    {
      hide *;
      CallStands(b, store, [], [], 0, quiet);
      visited, oks := [], [];
      var id: nat, n: nat := 0, 0;
      while id < b.start.nextId && n < b.limit
        invariant Valid() && old(run) <= run && n == |visited| && b.t in store.txns
        invariant Progress(b, store, visited, oks, id, quiet)
      {
        var taken := Turn(b, id, visited, oks, before(id), during(id), quiet);
        if taken {
          visited, oks, n := visited + [id], oks + [b.answers(id)], n + 1;
        }
        id := id + 1;
      }
      end := id;
    }

    // One row of the scan: it is visited if the query has seen it and it is still to be had.
    method Turn(b: Batch, id: nat, ghost visited: seq<nat>, ghost oks: seq<bool>,
                before: seq<Step>, during: seq<Step>, ghost quiet: bool) returns (taken: bool)
      requires Valid() && Progress(b, store, visited, oks, id, quiet) && |visited| < b.limit
      requires Foreign(before, b.t) && Foreign(during, b.t)
      requires quiet ==> before == [] && during == []
      modifies this
      ensures Valid() && old(run) <= run && b.t in store.txns
      ensures Progress(b, store, if taken then visited + [id] else visited,
                       if taken then oks + [b.answers(id)] else oks, id + 1, quiet)
    {
      hide StoreOk, Next, Matches, Visited, BatchDone, SameAt, Relayed, Enabled, Undisturbed, Visits;
      ghost var seen := store;
      CallIs(b, store.txns[b.t], visited, oks, id);
      Meanwhile(b.t, before);
      KeepGoing(b, seen, store, visited, oks, id, quiet);
      seen := store;
      taken := Matches(b.start.rows, b.start.txns[b.t], b.filter, id) && Enabled(store, Claim(b.t, id));
      if taken {
        Visit(b.t, id, b.answers(id), during);
        VisitsMore(b, seen, visited, oks, id);
        UndisturbedMore(b, seen, store, visited, oks, id, quiet);
      } else {
        Skip(b, store, visited, oks, id, quiet);
      }
    }

    // The loop body: the row is locked, sent and updated. Others may come between the lock and the update.
    method Visit(t: nat, id: nat, ok: bool, others: seq<Step>)
      requires Valid() && Enabled(store, Claim(t, id)) && store.txns[t].call.value.pos == |store.txns[t].call.value.claimed|
      requires Foreign(others, t)
      modifies this
      ensures Valid() && old(run) <= run && t in store.txns
      ensures store.txns[t] == Visited(old(store), t, id, ok)
      ensures var x, y := old(store).txns[t], store.txns[t];
              && (id in x.changes || id in old(store).rows)
              && var row := if id in x.changes then x.changes[id] else old(store).rows[id];
                 && y.changes == x.changes[id := Row(row.broker, if ok then Some(x.now) else None, row.attempts + 1)]
                 && y.held == x.held + {id} && y.sent == x.sent + if ok then multiset{id} else multiset{}
      ensures others == [] ==>
                store.rows == old(store).rows && store.txns == old(store).txns[t := store.txns[t]]
    {
      hide StoreOk, Enabled, Next, Relayed, SameAt;
      ghost var before := store;
      VisitedIs(before, t, id, ok);
      ClaimIs(before, t, id);
      Do(Claim(t, id));
      Meanwhile(t, others);
      Reachable(run);
      RelayIs(before, store, t, id, ok);
      Do(Relay(t, ok));
    }
  }

  // The rows are marked exactly as the broker answered.
  ghost predicate Marks(now: nat, changes: map<nat, Row>, visited: seq<nat>, oks: seq<bool>) {
    |oks| == |visited| && forall k :: 0 <= k < |visited| ==>
      visited[k] in changes && changes[visited[k]].publishedAt == if oks[k] then Some(now) else None
  }

  ghost predicate SameBut(before: map<nat, Row>, after: map<nat, Row>, visited: seq<nat>) {
    forall id :: id !in visited ==> (id in before <==> id in after) && (id in before ==> after[id] == before[id])
  }

  ghost predicate Ascending(visited: seq<nat>) {
    forall i, j :: 0 <= i < j < |visited| ==> visited[i] < visited[j]
  }

  // The transaction after the batch: so many rows visited, in this order, and what came of each.
  ghost predicate BatchDone(x: Txn, y: Txn, visited: seq<nat>, oks: seq<bool>, count: nat) {
    && y.now == x.now && y.own == x.own && y.saves == x.saves && y.undone == x.undone
    && y.counted == x.counted + count && count == Trues(oks) && y.visits == x.visits + multiset(visited)
    && Marks(x.now, y.changes, visited, oks) && SameBut(x.changes, y.changes, visited) && Ascending(visited)
  }

  function Trues(oks: seq<bool>): nat {
    if oks == [] then 0 else Trues(oks[..|oks| - 1]) + if oks[|oks| - 1] then 1 else 0
  }

  lemma VisitedIs(s: Store, t: nat, id: nat, ok: bool)
    requires Enabled(s, Claim(t, id)) && s.txns[t].call.value.pos == |s.txns[t].call.value.claimed|
    ensures t in s.txns &&
            var x, y := s.txns[t], Visited(s, t, id, ok);
            && x.call.Some? && y.now == x.now && y.own == x.own && y.saves == x.saves && y.undone == x.undone
            && y.counted == x.counted + (if ok then 1 else 0)
            && y.visits == x.visits + multiset{id}
            && id in y.changes && y.changes == x.changes[id := y.changes[id]]
            && (id in x.changes || id in s.rows)
            && y.changes[id] == (var row := if id in x.changes then x.changes[id] else s.rows[id];
                                 Row(row.broker, if ok then Some(x.now) else None, row.attempts + 1))
            && y.held == x.held + {id} && y.sent == x.sent + (if ok then multiset{id} else multiset{})
            && y.call == Some(x.call.value.(claimed := x.call.value.claimed + [id], pos := x.call.value.pos + 1,
                                            count := x.call.value.count + if ok then 1 else 0))
  {
    hide Lockable;
  }

  lemma OneMore(s: Store, x: Txn, t: nat, visited: seq<nat>, oks: seq<bool>, count: nat, id: nat, ok: bool)
    requires Enabled(s, Claim(t, id)) && s.txns[t].call.value.pos == |s.txns[t].call.value.claimed|
    requires BatchDone(x, s.txns[t], visited, oks, count) && forall k :: 0 <= k < |visited| ==> visited[k] < id
    ensures BatchDone(x, Visited(s, t, id, ok), visited + [id], oks + [ok], Trues(oks + [ok]))
    ensures Trues(oks + [ok]) == count + if ok then 1 else 0
    ensures s.txns[t].call.Some? &&
            var c := s.txns[t].call.value;
            Visited(s, t, id, ok).call ==
              Some(c.(claimed := c.claimed + [id], pos := c.pos + 1, count := c.count + if ok then 1 else 0))
  {
    hide Visited, Enabled, Marks, SameBut, Ascending;
    VisitedIs(s, t, id, ok);
    var y := Visited(s, t, id, ok);
    assert (oks + [ok])[..|oks|] == oks;
    MarksMore(x.now, s.txns[t].changes, visited, oks, id, y.changes[id], ok);
    SameMore(x.changes, s.txns[t].changes, visited, id, y.changes[id]);
    AscendingMore(visited, id);
  }

  lemma MarksMore(now: nat, changes: map<nat, Row>, visited: seq<nat>, oks: seq<bool>, id: nat, row: Row, ok: bool)
    requires Marks(now, changes, visited, oks) && forall k :: 0 <= k < |visited| ==> visited[k] < id
    requires row.publishedAt == if ok then Some(now) else None
    ensures Marks(now, changes[id := row], visited + [id], oks + [ok])
  {
  }

  lemma SameMore(before: map<nat, Row>, after: map<nat, Row>, visited: seq<nat>, id: nat, row: Row)
    requires SameBut(before, after, visited)
    ensures SameBut(before, after[id := row], visited + [id])
  {
    forall j | j !in visited + [id] ensures j != id && j !in visited {
      assert j != (visited + [id])[|visited|];
    }
  }

  lemma AscendingMore(visited: seq<nat>, id: nat)
    requires Ascending(visited) && forall k :: 0 <= k < |visited| ==> visited[k] < id
    ensures Ascending(visited + [id])
  {
  }

  // The transaction after the visit of a row.
  function Visited(s: Store, t: nat, id: nat, ok: bool): Txn
    requires Enabled(s, Claim(t, id)) && s.txns[t].call.value.pos == |s.txns[t].call.value.claimed|
  {
    Relayed(s.rows, Claimed(s.txns[t], id), ok)
  }

  lemma ClaimIs(s: Store, t: nat, id: nat)
    requires Enabled(s, Claim(t, id))
    ensures Next(s, Claim(t, id)) == s.(txns := s.txns[t := Claimed(s.txns[t], id)])
  {
  }

  lemma RelayIs(before: Store, s: Store, t: nat, id: nat, ok: bool)
    requires Enabled(before, Claim(t, id)) && before.txns[t].call.value.pos == |before.txns[t].call.value.claimed|
    requires StoreOk(s) && t in s.txns && s.txns[t] == Claimed(before.txns[t], id) && SameAt(before.rows, s.rows, id)
    ensures var u := Next(s, Relay(t, ok));
            && u.rows == s.rows && u.txns == s.txns[t := Visited(before, t, id, ok)]
  {
    hide StoreOk, Relayed, Lockable, SameAt;
    var x := s.txns[t];
    assert Current(x) == id;
    RelayedSame(before.rows, s.rows, x, ok);
  }

  lemma RelayedSame(rows: map<nat, Row>, rows': map<nat, Row>, x: Txn, ok: bool)
    requires x.call.Some? && x.call.value.pos < |x.call.value.claimed|
    requires Sees(rows, x, Current(x)) && SameAt(rows, rows', Current(x))
    ensures Sees(rows', x, Current(x)) && Relayed(rows', x, ok) == Relayed(rows, x, ok)
  {
  }

  // A call: the store when its query starts, and its arguments.
  datatype Batch = Batch(start: Store, t: nat, filter: Option<int>, limit: int, answers: nat -> bool)

  // What the loop has done to its transaction, with the rows below id behind it.
  ghost predicate Visits(b: Batch, y: Txn, visited: seq<nat>, oks: seq<bool>, id: nat) {
    && b.t in b.start.txns && |oks| == |visited| && (visited != [] ==> |visited| <= b.limit)
    && BatchDone(b.start.txns[b.t], y, visited, oks, Trues(oks))
    && y.call == Some(Call(b.filter, b.limit, visited, |visited|, Trues(oks)))
    && forall k :: 0 <= k < |visited| ==>
         visited[k] < id && oks[k] == b.answers(visited[k]) && Matches(b.start.rows, b.start.txns[b.t], b.filter, visited[k])
  }

  // Only rows that the query can have returned are visited, at most as many as the limit says.
  ghost predicate Wanted(b: Batch, visited: seq<nat>, oks: seq<bool>) {
    && b.t in b.start.txns && |oks| == |visited| <= (if b.limit > 0 then b.limit else 0)
    && forall k :: 0 <= k < |visited| ==>
         oks[k] == b.answers(visited[k]) && Eligible(b.start.rows, b.start.txns[b.t], b.filter, visited[k])
  }

  // Every row that could be had was visited, except those behind the limit.
  ghost predicate NonePassedOver(b: Batch, visited: seq<nat>) {
    forall id :: ToBeHad(b.start, b.t, b.filter, id) ==>
      id in visited || (|visited| >= b.limit && forall k :: 0 <= k < |visited| ==> visited[k] < id)
  }

  // When nobody interferes, nothing else has changed, and no row that could be had was passed over.
  ghost predicate Undisturbed(b: Batch, u: Store, visited: seq<nat>, id: nat) {
    && b.t in u.txns && u.rows == b.start.rows && u.txns == b.start.txns[b.t := u.txns[b.t]]
    && (forall i :: 0 <= i < id && Available(b.start, b.t, b.filter, i) ==> i in visited)
    && (forall k :: 0 <= k < |visited| ==> Rewritten(b, u.txns[b.t].changes, visited[k]))
  }

  // The row is what it was when the query started, but for the mark and one more attempt.
  ghost predicate Rewritten(b: Batch, changes: map<nat, Row>, i: nat) {
    && b.t in b.start.txns && i in changes && (i in b.start.txns[b.t].changes || i in b.start.rows)
    && var x := b.start.txns[b.t];
       var row := if i in x.changes then x.changes[i] else b.start.rows[i];
       changes[i] == Row(row.broker, if b.answers(i) then Some(x.now) else None, row.attempts + 1)
  }

  // The row is visited for the first time.
  lemma RewrittenNow(b: Batch, u: Store, visited: seq<nat>, oks: seq<bool>, id: nat)
    requires Undisturbed(b, u, visited, id) && Visits(b, u.txns[b.t], visited, oks, id) && Enabled(u, Claim(b.t, id))
    requires u.txns[b.t].call.value.pos == |u.txns[b.t].call.value.claimed|
    ensures Rewritten(b, Visited(u, b.t, id, b.answers(id)).changes, id)
    ensures Visited(u, b.t, id, b.answers(id)).changes.Keys == u.txns[b.t].changes.Keys + {id}
    ensures forall i :: i in u.txns[b.t].changes && i != id ==>
              Visited(u, b.t, id, b.answers(id)).changes[i] == u.txns[b.t].changes[i]
  {
    hide Enabled, Matches, Available, Marks, Visited, Trues;
    VisitedIs(u, b.t, id, b.answers(id));
    assert id !in visited;
  }

  ghost predicate Progress(b: Batch, u: Store, visited: seq<nat>, oks: seq<bool>, id: nat, quiet: bool) {
    && b.t in u.txns && Visits(b, u.txns[b.t], visited, oks, id)
    && (quiet ==> Undisturbed(b, u, visited, id))
  }

  // When nobody interferes, this is all that happens to the rows.
  ghost predicate AllRewritten(b: Batch, changes: map<nat, Row>, visited: seq<nat>) {
    forall k :: 0 <= k < |visited| ==> Rewritten(b, changes, visited[k])
  }

  lemma CallIs(b: Batch, y: Txn, visited: seq<nat>, oks: seq<bool>, id: nat)
    requires Visits(b, y, visited, oks, id)
    ensures b.t in b.start.txns && y.call == Some(Call(b.filter, b.limit, visited, |visited|, Trues(oks)))
  {
  }

  lemma CallStands(b: Batch, u: Store, visited: seq<nat>, oks: seq<bool>, id: nat, quiet: bool)
    requires Progress(b, u, visited, oks, id, quiet)
    ensures b.t in u.txns
  {
    hide Visits, Undisturbed;
  }

  lemma KeepGoing(b: Batch, u: Store, v: Store, visited: seq<nat>, oks: seq<bool>, id: nat, quiet: bool)
    requires Progress(b, u, visited, oks, id, quiet)
    requires b.t in v.txns && v.txns[b.t] == u.txns[b.t] && (quiet ==> v == u)
    ensures Progress(b, v, visited, oks, id, quiet)
  {
    hide Visits, Undisturbed;
  }

  lemma Skip(b: Batch, u: Store, visited: seq<nat>, oks: seq<bool>, id: nat, quiet: bool)
    requires Progress(b, u, visited, oks, id, quiet) && |visited| < b.limit && b.t in b.start.txns
    requires !(Matches(b.start.rows, b.start.txns[b.t], b.filter, id) && Enabled(u, Claim(b.t, id)))
    ensures Progress(b, u, visited, oks, id + 1, quiet)
  {
    hide BatchDone, Matches, Available, Enabled, Trues;
    if quiet { StillAvailable(b, u, visited, oks, id); }
  }

  lemma StillAvailable(b: Batch, u: Store, visited: seq<nat>, oks: seq<bool>, id: nat)
    requires Undisturbed(b, u, visited, id) && Visits(b, u.txns[b.t], visited, oks, id) && |visited| < b.limit
    ensures Available(b.start, b.t, b.filter, id) ==>
              Matches(b.start.rows, b.start.txns[b.t], b.filter, id) && Enabled(u, Claim(b.t, id))
  {
    hide Trues;
  }

  lemma VisitsMore(b: Batch, u: Store, visited: seq<nat>, oks: seq<bool>, id: nat)
    requires b.t in u.txns && Visits(b, u.txns[b.t], visited, oks, id) && |visited| < b.limit
    requires Matches(b.start.rows, b.start.txns[b.t], b.filter, id) && Enabled(u, Claim(b.t, id))
    ensures Visits(b, Visited(u, b.t, id, b.answers(id)), visited + [id], oks + [b.answers(id)], id + 1)
  {
    hide BatchDone, Matches, Enabled, Visited, Trues;
    OneMore(u, b.start.txns[b.t], b.t, visited, oks, Trues(oks), id, b.answers(id));
    var more, all := visited + [id], oks + [b.answers(id)];
    forall k | 0 <= k < |more|
      ensures more[k] < id + 1 && all[k] == b.answers(more[k]) && Matches(b.start.rows, b.start.txns[b.t], b.filter, more[k])
    {
      assert k < |visited| ==> more[k] == visited[k] && all[k] == oks[k];
    }
  }

  lemma UndisturbedMore(b: Batch, u: Store, v: Store, visited: seq<nat>, oks: seq<bool>, id: nat, quiet: bool)
    requires b.t in u.txns && Visits(b, u.txns[b.t], visited, oks, id) && (quiet ==> Undisturbed(b, u, visited, id))
    requires Enabled(u, Claim(b.t, id)) && u.txns[b.t].call.value.pos == |u.txns[b.t].call.value.claimed|
    requires b.t in v.txns && v.txns[b.t] == Visited(u, b.t, id, b.answers(id))
    requires quiet ==> v.rows == u.rows && v.txns == u.txns[b.t := v.txns[b.t]]
    ensures quiet ==> Undisturbed(b, v, visited + [id], id + 1)
  {
    hide Available, Visits, Rewritten, Enabled, Visited;
    if quiet {
      RewrittenNow(b, u, visited, oks, id);
      forall k | 0 <= k < |visited + [id]| ensures Rewritten(b, v.txns[b.t].changes, (visited + [id])[k]) {
        if k < |visited| {
          assert Rewritten(b, u.txns[b.t].changes, visited[k]);
          if visited[k] != id { RewrittenStill(b, u.txns[b.t].changes, v.txns[b.t].changes, visited[k]); }
        }
      }
      assert v.txns == b.start.txns[b.t := v.txns[b.t]];
      assert forall i :: i in visited + [id] <==> i in visited || i == id;
    }
  }

  lemma RewrittenStill(b: Batch, before: map<nat, Row>, after: map<nat, Row>, i: nat)
    requires Rewritten(b, before, i) && (i in before ==> i in after && after[i] == before[i])
    ensures Rewritten(b, after, i)
  {
  }

  // When the scan has come to its end, or to its limit.
  lemma Finish(b: Batch, u: Store, visited: seq<nat>, oks: seq<bool>, id: nat, quiet: bool)
    requires StoreOk(b.start) && b.t in u.txns && Progress(b, u, visited, oks, id, quiet) && b.t in b.start.txns
    requires id >= b.start.nextId || |visited| >= b.limit
    ensures Next(u, Return(b.t)) == u.(txns := u.txns[b.t := u.txns[b.t].(call := None)])
    ensures BatchDone(b.start.txns[b.t], u.txns[b.t].(call := None), visited, oks, Trues(oks))
    ensures u.txns[b.t].call.Some? && u.txns[b.t].call.value.count == Trues(oks)
    ensures Wanted(b, visited, oks)
    ensures quiet ==> NonePassedOver(b, visited) && AllRewritten(b, u.txns[b.t].changes, visited)
  {
    hide StoreOk, Matches, Eligible, Lockable, Available, ToBeHad, Trues;
    forall i: nat ensures ToBeHad(b.start, b.t, b.filter, i) <==> Available(b.start, b.t, b.filter, i) {
      AvailableIs(b.start, b.t, b.filter, i);
    }
    forall k | 0 <= k < |visited| ensures Eligible(b.start.rows, b.start.txns[b.t], b.filter, visited[k]) {
      MatchesIs(b.start.rows, b.start.txns[b.t], b.filter, visited[k]);
    }
    forall i: nat | Available(b.start, b.t, b.filter, i) ensures i < b.start.nextId {
      AvailableIsOld(b.start, b.t, b.filter, i);
    }
  }

  lemma AvailableIsOld(s: Store, t: nat, filter: Option<int>, id: nat)
    requires StoreOk(s) && Available(s, t, filter, id)
    ensures id < s.nextId
  {
    hide StoreOk;
    SeenIsOld(s, t, id);
  }

  lemma StartIs(b: Batch, quiet: bool)
    requires b.t in b.start.txns && b.start.txns[b.t].call.None?
    ensures var u := Next(b.start, Start(b.t, b.filter, b.limit)); b.t in u.txns && Progress(b, u, [], [], 0, quiet)
  {
    hide Matches, Available;
  }
}
