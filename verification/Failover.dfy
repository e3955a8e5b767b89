/** Which host a connect attempt ends up with, and how often attempts are made (local_amqp_get_bs in pg_amqp.c). */
module Failover {
  import opened Basics

  const BACKOFF_BASE := 2
  const BACKOFF_CAP := 30

  /// Reconnect backoff

  // Seconds after a failure in which no attempt is made: the base, doubled up to four times, up to the
  // cap, and a jitter that depends on the backend.
  function Window(failures: nat, pid: nat): nat {
    var backoff := BACKOFF_BASE * Pow2(if failures > 4 then 4 else failures);
    (if backoff > BACKOFF_CAP then BACKOFF_CAP else backoff) + pid % (BACKOFF_BASE + 1)
  }

  lemma PowersOf2()
    ensures Pow2(0) == 1 && Pow2(1) == 2 && Pow2(2) == 4 && Pow2(3) == 8 && Pow2(4) == 16
  {
    assert Pow2(2) == 4;
  }

  // The window never shrinks from failure to failure, and stays between 2 and 32 seconds.
  lemma WindowGrows(f: nat, g: nat, pid: nat)
    requires f <= g
    ensures 2 <= Window(f, pid) <= Window(g, pid) <= 32
    ensures f >= 1 ==> Window(f, pid) >= 4
    ensures f >= 2 ==> Window(f, pid) >= 8
    ensures f >= 3 ==> Window(f, pid) >= 16
    ensures f >= 4 ==> Window(f, pid) >= 30
  {
    PowersOf2();
    assert f == 0 || f == 1 || f == 2 || f == 3 || f >= 4;
  }

  /// One connect attempt

  // What the environment does with one host: whether it can be used, and the time when that is known.
  datatype Try = Try(accepted: bool, doneAt: int)

  // One call of local_amqp_get_bs: the clock at its start and at its end (seconds), the budget and the
  // clock in milliseconds, the rows of amqp.broker, the socket, and the answers to each try.
  datatype Dial = Dial(now: int, later: int, pid: nat, budget: nat, startMs: int, rows: nat, fd: int, tries: nat -> Try)

  predicate Exhausted(d: Dial, t: nat) {
    d.budget > 0 && d.startMs + d.budget != 0 && d.tries(t).doneAt >= d.startMs + d.budget
  }

  // How many hosts are tried, from try number t on, with n tries in all, and whether the last one was accepted.
  function Tried(d: Dial, t: nat, n: nat): (r: (nat, bool))
    requires t <= n
    ensures t <= r.0 <= n && (t < n ==> t < r.0)
    decreases n - t
  {
    if t == n then (n, false)
    else if d.tries(t).accepted then (t + 1, true)
    else if Exhausted(d, t) then (t + 1, false)
    else Tried(d, t + 1, n)
  }

  // The tries end with the first host that is accepted, or when the budget is used up, and not before.
  lemma {:induction false} TriedIs(d: Dial, t: nat, n: nat)
    requires t <= n
    ensures var (k, ok) := Tried(d, t, n);
            && (forall i :: t <= i < k - 1 ==> !d.tries(i).accepted && !Exhausted(d, i))
            && (t < k ==> (ok <==> d.tries(k - 1).accepted))
            && (!ok && k < n ==> t < k && Exhausted(d, k - 1))
    decreases n - t
  {
    if t < n && !d.tries(t).accepted && !Exhausted(d, t) {
      TriedIs(d, t + 1, n);
    }
  }

  function HostAt(idx: nat, t: nat, n: nat): (h: nat)
    requires n > 0
    ensures h < n
  {
    (idx + 1 + t) % n
  }

  // The try that meets host h.
  function TryOf(idx: nat, h: nat, n: nat): nat
    requires idx < n && h < n
  {
    if h > idx then h - idx - 1 else h + n - idx - 1
  }

  lemma HostOf(idx: nat, t: nat, n: nat)
    requires idx < n && t < n
    ensures HostAt(idx, t, n) == if idx + 1 + t < n then idx + 1 + t else idx + 1 + t - n
  {
    WrapOnce(idx + 1 + t, n);
  }

  // A round over the hosts meets each of them once, and ends where it began.
  lemma RoundOfHosts(idx: nat, n: nat)
    requires idx < n
    ensures forall i, j :: 0 <= i < j < n ==> HostAt(idx, i, n) != HostAt(idx, j, n)
    ensures forall h :: 0 <= h < n ==> TryOf(idx, h, n) < n && HostAt(idx, TryOf(idx, h, n), n) == h
    ensures HostAt(idx, n - 1, n) == idx
  {
    hide HostAt;
    forall t | 0 <= t < n
      ensures HostAt(idx, t, n) == if idx + 1 + t < n then idx + 1 + t else idx + 1 + t - n
    {
      HostOf(idx, t, n);
    }
  }

  lemma TryBack(idx: nat, t: nat, n: nat)
    requires idx < n && t < n
    ensures TryOf(idx, HostAt(idx, t, n), n) == t
  {
    hide HostAt;
    HostOf(idx, t, n);
  }

  lemma WrapOnce(a: nat, n: nat)
    requires 0 < n && a < 2 * n
    ensures a % n == if a < n then a else a - n
  {
    var q := a / n;
    assert a == q * n + a % n && 0 <= a % n < n;
    if q >= 2 {
      assert q * n >= 2 * n by { Scaled(2, q, n); }
    } else if q <= -1 {
      assert q * n <= -1 * n by { Scaled(q, -1, n); }
    }
  }

  lemma Scaled(x: int, y: int, n: nat)
    requires x <= y
    ensures x * n <= y * n
  {
    assert (y - x) * n >= 0;
    assert (y - x) * n == y * n - x * n;
  }

  // Without a budget, and with hosts that answer the same on every try: the attempt ends with the first
  // usable host in the cyclic order behind idx; if there is none, each host was tried once and idx is back.
  lemma FirstUsableHost(d: Dial, idx: nat, n: nat, usable: nat -> bool)
    requires idx < n && d.budget == 0
    requires forall t :: 0 <= t < n ==> d.tries(t).accepted == usable(HostAt(idx, t, n))
    ensures var (k, ok) := Tried(d, 0, n);
            && 0 < k
            && (ok <==> exists h :: 0 <= h < n && usable(h))
            && (ok ==> usable(HostAt(idx, k - 1, n)) && forall t :: 0 <= t < k - 1 ==> !usable(HostAt(idx, t, n)))
            && (!ok ==> k == n && HostAt(idx, k - 1, n) == idx)
  {
    hide HostAt, TryOf, Tried, Exhausted;
    TriedIs(d, 0, n);
    RoundOfHosts(idx, n);
    var (k, ok) := Tried(d, 0, n);
    assert Exhausted(d, k - 1) == false by { NoBudget(d, k - 1); }
    if !ok {
      forall h | 0 <= h < n ensures !usable(h) {
        assert !d.tries(TryOf(idx, h, n)).accepted;
      }
    }
  }

  lemma NoBudget(d: Dial, t: int)
    requires d.budget == 0
    ensures t >= 0 ==> !Exhausted(d, t)
  {
  }

  /// The time between attempts

  // The part of the broker state that decides on attempts.
  datatype Backoff = Backoff(failures: nat, lastFailed: int)

  predicate Suppressed(b: Backoff, now: int, pid: nat) {
    b.lastFailed != 0 && now - b.lastFailed < Window(b.failures, pid)
  }

  // A call whose attempt, if one is made, fails at the time `later`.
  function Failing(b: Backoff, now: int, later: int, pid: nat): Backoff {
    if Suppressed(b, now, pid) then b else Backoff(b.failures + 1, later)
  }

  function FailingAll(b: Backoff, calls: seq<(int, int)>, pid: nat): Backoff {
    if calls == [] then b
    else
      var (now, later) := calls[|calls| - 1];
      Failing(FailingAll(b, calls[..|calls| - 1], pid), now, later, pid)
  }

  // The clock does not run backwards, and is past its epoch.
  predicate Clock(calls: seq<(int, int)>) {
    && (forall i :: 0 <= i < |calls| ==> 0 < calls[i].0 <= calls[i].1)
    && (forall i, j :: 0 <= i < j < |calls| ==> calls[i].1 <= calls[j].0)
  }

  // The least time from the first of n failed attempts to the last.
  function Span(n: nat): int {
    if n <= 1 then 0 else if n == 2 then 4 else if n == 3 then 12 else 28 + 30 * (n - 4)
  }

  // However often it is called, n failed attempts in a row take at least Span(n) seconds.
  lemma {:induction false} AttemptsAreRare(b: Backoff, calls: seq<(int, int)>, pid: nat)
    requires Clock(calls)
    ensures var c := FailingAll(b, calls, pid);
            && b.failures <= c.failures
            && (c.failures == b.failures ==> c == b)
            && (c.failures > b.failures ==>
                  calls != [] && 0 < c.lastFailed <= calls[|calls| - 1].1 &&
                  c.lastFailed - calls[0].0 >= Span(c.failures - b.failures))
  {
    hide Window;
    if calls != [] {
      var init := calls[..|calls| - 1];
      AttemptsAreRare(b, init, pid);
      var c := FailingAll(b, init, pid);
      WindowGrows(c.failures, c.failures, pid);
    }
  }
}
