/**
  The two-worker profile scheduler (`ProductionRuntime.tick` in
  monitor-v2/remote_probe/production_runtime.py). What the vault lists and enables,
  which cycles have ended, the clock, and whether starting a profile works are
  inputs of a tick.
  */
module Scheduler {
  import opened Prelude

  const WORKERS := 2
  const RETRY_SECONDS := 60

  /** Profiles with an agent, profiles with a cycle in flight, and when each profile is next due. */
  datatype State = State(agents: set<nat>, futures: set<nat>, due: map<nat, int>)

  /** `cadence` holds the profiles whose start works, with the period of each. */
  datatype Input =
    Input(now: int, done: set<nat>, keys: set<nat>, enabled: set<nat>, halted: bool, cadence: map<nat, int>)

  predicate Sensible(i: Input) {
    && i.enabled <= i.keys
    && (forall k :: k in i.cadence ==> 0 < i.cadence[k])
  }

  function Due(due: map<nat, int>, k: nat): int { if k in due then due[k] else 0 }

  // ---------------------------------------------------------------- the order of a tick

  /** Earlier due first, then the smaller key. */
  predicate Before(due: map<nat, int>, j: nat, k: nat) {
    Due(due, j) < Due(due, k) || (Due(due, j) == Due(due, k) && j < k)
  }

  predicate Ordered(order: seq<nat>, due: map<nat, int>) {
    forall i, j :: 0 <= i < j < |order| ==> Before(due, order[i], order[j])
  }

  ghost predicate IsOrder(order: seq<nat>, keys: set<nat>, due: map<nat, int>) {
    Ordered(order, due) && forall k :: k in keys <==> k in order
  }

  function Insert(order: seq<nat>, k: nat, due: map<nat, int>): seq<nat> {
    if order == [] || Before(due, k, order[0]) then [k] + order
    else [order[0]] + Insert(order[1..], k, due)
  }

  lemma {:induction false} InsertKeepsOrder(order: seq<nat>, k: nat, due: map<nat, int>)
    requires Ordered(order, due) && k !in order
    ensures Ordered(Insert(order, k, due), due)
    ensures forall x :: x in Insert(order, k, due) <==> x == k || x in order
  {
    if order == [] {
    } else if Before(due, k, order[0]) {
      assert forall j :: 1 <= j < |order| ==> Before(due, order[0], order[j]);
    } else {
      var rest := Insert(order[1..], k, due);
      assert forall i :: 0 <= i < |order| - 1 ==> order[1..][i] == order[i + 1];
      InsertKeepsOrder(order[1..], k, due);
      assert order[0] != k && Before(due, order[0], k);
      forall j | 0 <= j < |rest| ensures Before(due, order[0], rest[j]) {
        assert rest[j] in rest;
        if rest[j] != k {
          var m :| 0 <= m < |order[1..]| && order[1..][m] == rest[j];
          assert Before(due, order[0], order[m + 1]);
        }
      }
    }
  }

  /** `sorted` by due time and key. */
  method SortByDue(keys: set<nat>, due: map<nat, int>) returns (order: seq<nat>)
    ensures IsOrder(order, keys, due)
  {
    order := [];
    var rest := keys;
    while rest != {}
      invariant rest <= keys && Ordered(order, due)
      invariant forall k :: k in order <==> k in keys && k !in rest
      decreases rest
    {
      var k :| k in rest;
      InsertKeepsOrder(order, k, due);
      order := Insert(order, k, due);
      rest := rest - {k};
    }
  }

  // ---------------------------------------------------------------- one tick

  /** After the finished cycles are collected and unknown profiles forgotten. */
  function Collected(s: State, i: Input): State {
    var futures := s.futures - i.done;
    var keep := i.keys + s.agents + futures;
    State(s.agents, futures, map k | k in s.due && k in keep :: s.due[k])
  }

  /** After the agents of idle profiles that must not run are closed. */
  function Closed(s: State, i: Input): State {
    s.(agents := set k | k in s.agents && ((k in i.enabled && !i.halted) || k in s.futures))
  }

  predicate Attemptable(s: State, k: nat, now: int) { k !in s.futures && Due(s.due, k) <= now }

  function Attempt(s: State, k: nat, i: Input): State {
    if k in i.cadence then State(s.agents + {k}, s.futures + {k}, s.due[k := i.now + i.cadence[k]])
    else s.(due := s.due[k := i.now + RETRY_SECONDS])
  }

  /** The start loop: in order, until no worker is free. */
  function Launch(s: State, order: seq<nat>, i: Input): State
    decreases order
  {
    if order == [] || |s.futures| >= WORKERS then s
    else Launch(if Attemptable(s, order[0], i.now) then Attempt(s, order[0], i) else s, order[1..], i)
  }

  /** The profiles the start loop attempts, in order. */
  function Attempted(s: State, order: seq<nat>, i: Input): seq<nat>
    decreases order
  {
    if order == [] || |s.futures| >= WORKERS then []
    else if Attemptable(s, order[0], i.now) then [order[0]] + Attempted(Attempt(s, order[0], i), order[1..], i)
    else Attempted(s, order[1..], i)
  }

  /** A tick with its outcome: the order it went by, and the attempts it made. */
  datatype Tick = Tick(input: Input, order: seq<nat>, log: seq<nat>)

  ghost predicate IsTick(s: State, t: Tick, s': State) {
    var c := Closed(Collected(s, t.input), t.input);
    if t.input.halted then t.log == [] && s' == c
    else
      && IsOrder(t.order, t.input.enabled, c.due)
      && t.log == Attempted(c, t.order, t.input) && s' == Launch(c, t.order, t.input)
  }

  // What a tick does, told without its loop.

  /** Still listed by the vault, or with an agent or a cycle: its due time is remembered. */
  predicate Known(s: State, i: Input, k: nat) {
    k in i.keys || k in s.agents || k in s.futures - i.done
  }

  /** When a profile is due once what is not known is forgotten: a forgotten one has always been due. */
  function DueNow(s: State, i: Input, k: nat): int {
    if Known(s, i, k) && k in s.due then s.due[k] else 0
  }

  /** Enabled, idle and due when the tick comes. */
  predicate Waiting(s: State, i: Input, k: nat) {
    k in i.enabled && (k !in s.futures || k in i.done) && DueNow(s, i, k) <= i.now
  }

  /** Only profiles that are waiting are attempted, each once, and those due earlier first. */
  predicate Chooses(s: State, i: Input, log: seq<nat>) {
    && (forall n :: 0 <= n < |log| ==> Waiting(s, i, log[n]))
    && (forall m, n :: 0 <= m < n < |log| ==> Precedes(s, i, log[m], log[n]))
  }

  predicate Precedes(s: State, i: Input, j: nat, k: nat) {
    DueNow(s, i, j) < DueNow(s, i, k) || (DueNow(s, i, j) == DueNow(s, i, k) && j < k)
  }

  /** No waiting profile is left while a worker is free, and nothing is taken before it. */
  ghost predicate Conserves(s: State, i: Input, log: seq<nat>, s': State) {
    forall p :: Waiting(s, i, p) && p !in log ==>
      2 <= |s'.futures| && forall q :: q in log ==> Precedes(s, i, q, p)
  }

  /** A start that works takes a worker until its cycle ends, and the next is a period later; else it is a minute. */
  ghost predicate Starts(s: State, i: Input, log: seq<nat>, s': State) {
    && (forall k :: k in s'.futures <==> (k in s.futures && k !in i.done) || (k in log && k in i.cadence))
    && (forall k :: k in s'.agents <==> Stays(s, i, k) || (k in log && k in i.cadence))
    && (forall k :: k in log && k in i.cadence ==> Due(s'.due, k) == i.now + i.cadence[k])
    && (forall k :: k in log && k !in i.cadence ==> Due(s'.due, k) == i.now + 60)
    && (forall k :: k !in log ==> Due(s'.due, k) == DueNow(s, i, k))
  }

  /** An agent stays while its profile may run, or its cycle still does. */
  predicate Stays(s: State, i: Input, k: nat) {
    k in s.agents && ((k in i.enabled && !i.halted) || (k in s.futures && k !in i.done))
  }

  class Runtime {
    var agents: set<nat>
    var futures: set<nat>
    var due: map<nat, int>

    constructor ()
      ensures View() == State({}, {}, map[])
    {
      agents, futures, due := {}, {}, map[];
    }

    function View(): State
      reads this
    {
      State(agents, futures, due)
    }

    /** `tick`, and what it attempted. */
    method RunTick(i: Input) returns (t: Tick)
      modifies this
      ensures t.input == i && IsTick(old(View()), t, View())
      ensures Chooses(old(View()), i, t.log) && Starts(old(View()), i, t.log, View())
      ensures if i.halted then t.log == [] else Conserves(old(View()), i, t.log, View())
    {
      ghost var before := View();
      futures := futures - i.done;
      var keep := i.keys + agents + futures;
      due := map k | k in due && k in keep :: due[k];
      agents := set k | k in agents && ((k in i.enabled && !i.halted) || k in futures);
      if i.halted { return Tick(i, [], []); }
      var order := SortByDue(i.enabled, due);
      var log := StartDue(order, i);
      t := Tick(i, order, log);
      TickServes(before, t, View());
    }

    method StartDue(order: seq<nat>, i: Input) returns (log: seq<nat>)
      modifies this
      ensures View() == Launch(old(View()), order, i) && log == Attempted(old(View()), order, i)
    {
      log := [];
      var n := 0;
      assert order[0..] == order;
      while n < |order| && |futures| < WORKERS
        invariant 0 <= n <= |order|
        invariant Launch(View(), order[n..], i) == Launch(old(View()), order, i)
        invariant log + Attempted(View(), order[n..], i) == Attempted(old(View()), order, i)
      {
        var k := order[n];
        assert order[n..][1..] == order[n + 1..];
        var tried := StartOne(k, i);
        if tried { log := log + [k]; }
        n := n + 1;
      }
    }

    /** One turn of the start loop. */
    method StartOne(k: nat, i: Input) returns (tried: bool)
      modifies this
      ensures tried == Attemptable(old(View()), k, i.now)
      ensures View() == if tried then Attempt(old(View()), k, i) else old(View())
    {
      if k in futures || i.now < Due(due, k) { return false; }
      if k in i.cadence {
        agents, futures, due := agents + {k}, futures + {k}, due[k := i.now + i.cadence[k]];
      } else {
        due := due[k := i.now + RETRY_SECONDS];
      }
      return true;
    }
  }

  // ---------------------------------------------------------------- what a tick does

  /** The order of a start loop that has come past its first profile. */
  lemma Onward(s: State, order: seq<nat>, i: Input, due: map<nat, int>)
    requires order != [] && |s.futures| < WORKERS && Ordered(order, due)
    ensures Ordered(order[1..], due) && order[0] !in order[1..]
    ensures forall x :: x in order <==> x == order[0] || x in order[1..]
    ensures forall x :: x in order[1..] ==> Before(due, order[0], x)
    ensures var t := if Attemptable(s, order[0], i.now) then Attempt(s, order[0], i) else s;
      && Launch(s, order, i) == Launch(t, order[1..], i)
      && Attempted(s, order, i) ==
         (if Attemptable(s, order[0], i.now) then [order[0]] else []) + Attempted(t, order[1..], i)
  {
    OrderedTail(order, due);
    var t := if Attemptable(s, order[0], i.now) then Attempt(s, order[0], i) else s;
    assert [] + Attempted(t, order[1..], i) == Attempted(t, order[1..], i);
  }

  lemma OneAhead(k: nat, more: seq<nat>, due: map<nat, int>)
    requires Ordered(more, due) && forall x :: x in more ==> Before(due, k, x)
    ensures Ordered([k] + more, due)
    ensures forall x :: x in [k] + more <==> x == k || x in more
  {
  }

  /** No worker is free for a profile that has to wait, and what was taken goes before it. */
  ghost predicate Waits(log: seq<nat>, due: map<nat, int>, s': State, p: nat) {
    2 <= |s'.futures| && forall q :: q in log ==> Before(due, q, p)
  }

  /** What the start loop attempts, and what it leaves. */
  ghost predicate Picks(s: State, order: seq<nat>, i: Input, due: map<nat, int>, log: seq<nat>, s': State) {
    && Ordered(log, due) && (forall k :: k in log ==> k in order && Attemptable(s, k, i.now))
    && forall p :: p in order && Attemptable(s, p, i.now) && p !in log ==> Waits(log, due, s', p)
  }

  /** An attempt on one profile decides nothing about another. */
  lemma OthersStay(s: State, k: nat, i: Input, x: nat)
    requires x != k
    ensures Attemptable(Attempt(s, k, i), x, i.now) <==> Attemptable(s, x, i.now)
  {
  }

  lemma PicksOneMore(s: State, order: seq<nat>, i: Input, due: map<nat, int>, more: seq<nat>, s': State)
    requires order != [] && Ordered(order, due) && Attemptable(s, order[0], i.now)
    requires Picks(Attempt(s, order[0], i), order[1..], i, due, more, s')
    ensures Picks(s, order, i, due, [order[0]] + more, s')
  {
    var k := order[0];
    OrderedTail(order, due);
    assert forall x :: x in order <==> x == k || x in order[1..];
    assert forall x :: x in order[1..] ==> Before(due, k, x);
    hide Attemptable, Attempt, Ordered, Before;
    OneAhead(k, more, due);
    forall x | x in order[1..]
      ensures Attemptable(Attempt(s, k, i), x, i.now) <==> Attemptable(s, x, i.now)
    {
      OthersStay(s, k, i, x);
    }
    forall p | p in order && Attemptable(s, p, i.now) && p !in [k] + more ensures Waits([k] + more, due, s', p) {
      assert Waits(more, due, s', p);
    }
  }

  lemma PicksPassing(s: State, order: seq<nat>, i: Input, due: map<nat, int>, more: seq<nat>, s': State)
    requires order != [] && !Attemptable(s, order[0], i.now) && Picks(s, order[1..], i, due, more, s')
    ensures Picks(s, order, i, due, more, s')
  {
    hide Attemptable, Before;
    assert forall x :: x in order <==> x == order[0] || x in order[1..];
  }

  lemma {:induction false} LaunchPicks(s: State, order: seq<nat>, i: Input, due: map<nat, int>)
    requires Ordered(order, due)
    ensures Picks(s, order, i, due, Attempted(s, order, i), Launch(s, order, i))
    decreases order
  {
    if order != [] && |s.futures| < WORKERS {
      hide Launch, Attempted, Ordered, Before, Picks;
      var k, rest := order[0], order[1..];
      var t := if Attemptable(s, k, i.now) then Attempt(s, k, i) else s;
      Onward(s, order, i, due);
      LaunchPicks(t, rest, i, due);
      var more, s' := Attempted(t, rest, i), Launch(t, rest, i);
      assert [] + more == more;
      if Attemptable(s, k, i.now) {
        PicksOneMore(s, order, i, due, more, s');
      } else {
        PicksPassing(s, order, i, due, more, s');
      }
    }
  }

  /** What its attempts do. */
  ghost predicate Takes(s: State, i: Input, log: seq<nat>, s': State) {
    && (forall k :: k in s'.futures <==> k in s.futures || (k in log && k in i.cadence))
    && (forall k :: k in s'.agents <==> k in s.agents || (k in log && k in i.cadence))
    && (forall k :: k in log ==> Due(s'.due, k) == i.now + if k in i.cadence then i.cadence[k] else 60)
    && (forall k :: k !in log ==> Due(s'.due, k) == Due(s.due, k))
  }

  lemma TakesOne(s: State, k: nat, i: Input, t: State, more: seq<nat>, s': State)
    requires t == Attempt(s, k, i) && k !in more && Takes(t, i, more, s')
    ensures Takes(s, i, [k] + more, s')
  {
    assert forall x :: x in [k] + more <==> x == k || x in more;
  }

  lemma {:induction false} LaunchTakes(s: State, order: seq<nat>, i: Input, due: map<nat, int>)
    requires Ordered(order, due)
    ensures Takes(s, i, Attempted(s, order, i), Launch(s, order, i))
    ensures forall k :: k in Attempted(s, order, i) ==> k in order
    decreases order
  {
    if order != [] && |s.futures| < WORKERS {
      hide Launch, Attempted, Ordered, Before, Takes;
      var k, rest := order[0], order[1..];
      var t := if Attemptable(s, k, i.now) then Attempt(s, k, i) else s;
      Onward(s, order, i, due);
      LaunchTakes(t, rest, i, due);
      var more := Attempted(t, rest, i);
      if Attemptable(s, k, i.now) { TakesOne(s, k, i, t, more, Launch(t, rest, i)); } else { assert [] + more == more; }
    } else {
      assert Attempted(s, order, i) == [] && Launch(s, order, i) == s;
    }
  }

  /** A tick, told without its loop. */
  lemma TickServes(s: State, t: Tick, s': State)
    requires IsTick(s, t, s')
    ensures Chooses(s, t.input, t.log) && Starts(s, t.input, t.log, s')
    ensures if t.input.halted then t.log == [] else Conserves(s, t.input, t.log, s')
  {
    hide Launch, Attempted;
    var i := t.input;
    var c := Closed(Collected(s, i), i);
    assert forall k :: Due(c.due, k) == DueNow(s, i, k);
    if !i.halted {
      LaunchPicks(c, t.order, i, c.due);
      LaunchTakes(c, t.order, i, c.due);
      forall p | Waiting(s, i, p) ensures p in t.order && Attemptable(c, p, i.now) {}
      forall n | 0 <= n < |t.log| ensures Waiting(s, i, t.log[n]) { assert t.log[n] in t.log; }
    }
  }

  // ---------------------------------------------------------------- at most two cycles

  lemma {:induction false} LaunchBounded(s: State, order: seq<nat>, i: Input)
    requires |s.futures| <= WORKERS
    ensures |Launch(s, order, i).futures| <= WORKERS && s.futures <= Launch(s, order, i).futures
    decreases order
  {
    if order != [] && |s.futures| < WORKERS {
      LaunchBounded(if Attemptable(s, order[0], i.now) then Attempt(s, order[0], i) else s, order[1..], i);
    }
  }

  /** Never more than two cycles in flight. */
  lemma TickBounded(s: State, t: Tick, s': State)
    requires IsTick(s, t, s') && |s.futures| <= WORKERS
    ensures |s'.futures| <= WORKERS
  {
    SubsetSize(s.futures - t.input.done, s.futures);
    LaunchBounded(Closed(Collected(s, t.input), t.input), t.order, t.input);
  }

  /** A profile is attempted at most once in a tick, and only while it is idle, due and enabled. */
  lemma {:induction false} AttemptsAreIdle(s: State, order: seq<nat>, i: Input, n: nat)
    requires n < |Attempted(s, order, i)| && Ordered(order, s.due)
    ensures var k := Attempted(s, order, i)[n]; k in order && Attemptable(s, k, i.now)
    ensures forall m :: 0 <= m < n ==> Attempted(s, order, i)[m] != Attempted(s, order, i)[n]
  {
    AttemptsAreIdleAny(s, order, i, n, s.due);
  }

  lemma {:induction false} AttemptsAreIdleAny(s: State, order: seq<nat>, i: Input, n: nat, due: map<nat, int>)
    requires n < |Attempted(s, order, i)| && Ordered(order, due)
    ensures var k := Attempted(s, order, i)[n]; k in order && Attemptable(s, k, i.now)
    ensures forall m :: 0 <= m < n ==> Attempted(s, order, i)[m] != Attempted(s, order, i)[n]
    decreases order
  {
    var first := order[0];
    OrderedTail(order, due);
    if !Attemptable(s, first, i.now) {
      AttemptsAreIdleAny(s, order[1..], i, n, due);
    } else if n > 0 {
      var s1 := Attempt(s, first, i);
      var rest := Attempted(s1, order[1..], i);
      AttemptsAreIdleAny(s1, order[1..], i, n - 1, due);
      assert rest[n - 1] in order[1..];
      forall m | 0 <= m < n ensures Attempted(s, order, i)[m] != Attempted(s, order, i)[n] {
        if m > 0 { assert Attempted(s, order, i)[m] == rest[m - 1]; }
      }
    }
  }

  lemma OrderedTail(order: seq<nat>, due: map<nat, int>)
    requires order != [] && Ordered(order, due)
    ensures Ordered(order[1..], due) && order[0] !in order[1..]
  {
    forall j | 0 <= j < |order[1..]| ensures order[1..][j] != order[0] {
      assert Before(due, order[0], order[j + 1]);
    }
  }

  // ---------------------------------------------------------------- bounded overtaking

  /** In this sequence, `p` occurs before the first `q`. */
  predicate Ahead(log: seq<nat>, p: nat, q: nat) {
    log != [] && log[0] != q && (log[0] == p || Ahead(log[1..], p, q))
  }

  /** Within one tick, a waiting profile that comes first in the order is attempted first. */
  lemma {:induction false} EarlierIsAttemptedFirst(s: State, order: seq<nat>, i: Input, p: nat, q: nat)
    requires p != q && Ahead(order, p, q) && Attemptable(s, p, i.now) && q in Attempted(s, order, i)
    ensures Ahead(Attempted(s, order, i), p, q)
    decreases order
  {
    var first := order[0];
    if Attemptable(s, first, i.now) && first != p {
      assert Attempted(s, order, i)[1..] == Attempted(Attempt(s, first, i), order[1..], i);
      EarlierIsAttemptedFirst(Attempt(s, first, i), order[1..], i, p, q);
    } else if first != p {
      EarlierIsAttemptedFirst(s, order[1..], i, p, q);
    }
  }

  lemma {:induction false} OrderPutsAhead(order: seq<nat>, due: map<nat, int>, p: nat, q: nat)
    requires Ordered(order, due) && p in order && Before(due, p, q)
    ensures Ahead(order, p, q)
  {
    if order[0] != p {
      OrderedTail(order, due);
      assert p in order[1..];
      var j :| 0 <= j < |order| && order[j] == p;
      assert Before(due, order[0], order[j]);
      OrderPutsAhead(order[1..], due, p, q);
    }
  }

  /** How a tick moves a due time: not at all, or past its own time. */
  lemma {:induction false} LaunchDue(s: State, order: seq<nat>, i: Input, k: nat)
    requires Sensible(i)
    ensures var s' := Launch(s, order, i);
      if k in Attempted(s, order, i) then Due(s'.due, k) > i.now else Due(s'.due, k) == Due(s.due, k)
    decreases order
  {
    if order != [] && |s.futures| < WORKERS {
      var first := order[0];
      if Attemptable(s, first, i.now) {
        LaunchDue(Attempt(s, first, i), order[1..], i, k);
      } else {
        LaunchDue(s, order[1..], i, k);
      }
    }
  }

  lemma TickDue(s: State, t: Tick, s': State, k: nat)
    requires IsTick(s, t, s') && Sensible(t.input) && Known(s, t.input, k)
    ensures if k in t.log then Due(s'.due, k) > t.input.now else Due(s'.due, k) == Due(s.due, k)
  {
    if !t.input.halted { LaunchDue(Closed(Collected(s, t.input), t.input), t.order, t.input, k); }
  }

  /** A run: states between ticks, with a clock that does not go back. */
  ghost predicate IsRun(states: seq<State>, ticks: seq<Tick>) {
    && |states| == |ticks| + 1
    && (forall n :: 0 <= n < |ticks| ==> Sensible(ticks[n].input) && IsTick(states[n], ticks[n], states[n + 1]))
    && (forall m, n :: 0 <= m <= n < |ticks| ==> ticks[m].input.now <= ticks[n].input.now)
  }

  /** From the tick that passed over `p` for `q` on, `p` is due before `q`. */
  lemma {:induction false} OvertakenIsAhead(states: seq<State>, ticks: seq<Tick>, a: nat, b: nat, p: nat, q: nat)
    requires IsRun(states, ticks) && a < b < |ticks|
    requires forall n :: a <= n <= b ==> Waiting(states[n], ticks[n].input, p)
    requires forall n :: a <= n <= b ==> Known(states[n], ticks[n].input, q)
    requires forall n :: a <= n < b ==> p !in ticks[n].log
    requires q in ticks[a].log
    ensures Due(states[b].due, p) <= ticks[a].input.now < Due(states[b].due, q)
  {
    var n := b - 1;
    TickDue(states[n], ticks[n], states[n + 1], p);
    TickDue(states[n], ticks[n], states[n + 1], q);
    if n > a { OvertakenIsAhead(states, ticks, a, n, p, q); }
  }

  /** While it is remembered, a profile attempted in an earlier tick comes after one that has waited since. */
  lemma RememberedComesAfter(states: seq<State>, ticks: seq<Tick>, a: nat, b: nat, p: nat, q: nat)
    requires Overtaking(states, ticks, a, b, p, q)
    requires forall n :: a < n <= b ==> Known(states[n], ticks[n].input, q)
    ensures Ahead(ticks[b].log, p, q)
  {
    assert IsTick(states[a], ticks[a], states[a + 1]);
    AttemptedAreListed(Closed(Collected(states[a], ticks[a].input), ticks[a].input), ticks[a].order, ticks[a].input, q);
    OvertakenIsAhead(states, ticks, a, b, p, q);
    assert Due(Ready(states[b], ticks[b].input).due, q) == Due(states[b].due, q);
    DueDecides(states, ticks, b, p, q);
  }

  /**
    Throughout the ticks from `a` to `b` profile `p` waits, and is not attempted before `b`; `q` is,
    in `a` and again in `b`.
    */
  ghost predicate Overtaking(states: seq<State>, ticks: seq<Tick>, a: nat, b: nat, p: nat, q: nat) {
    && IsRun(states, ticks) && a < b < |ticks| && p != q
    && (forall n :: a <= n <= b ==> Waiting(states[n], ticks[n].input, p))
    && (forall n :: a <= n < b ==> p !in ticks[n].log)
    && q in ticks[a].log && q in ticks[b].log
  }

  /** The state the order of a tick is made from. */
  function Ready(s: State, i: Input): State { Closed(Collected(s, i), i) }

  lemma {:induction false} AttemptedAreListed(s: State, order: seq<nat>, i: Input, k: nat)
    requires k in Attempted(s, order, i)
    ensures k in order
    decreases order
  {
    if Attemptable(s, order[0], i.now) {
      if k != order[0] { AttemptedAreListed(Attempt(s, order[0], i), order[1..], i, k); }
    } else {
      AttemptedAreListed(s, order[1..], i, k);
    }
  }

  lemma {:induction false} NotBothAhead(order: seq<nat>, p: nat, q: nat)
    requires p != q && Ahead(order, q, p)
    ensures !Ahead(order, p, q)
  {
    if order[0] != q { NotBothAhead(order[1..], p, q); }
  }

  /** Within one tick, a profile that is attempted is attempted before those after it in the order. */
  lemma {:induction false} LaterIsAttemptedLater(s: State, order: seq<nat>, i: Input, p: nat, q: nat,
                                                 due: map<nat, int>)
    requires Ordered(order, due) && !Ahead(order, p, q) && q in Attempted(s, order, i)
    ensures !Ahead(Attempted(s, order, i), p, q)
    decreases order
  {
    var first := order[0];
    OrderedTail(order, due);
    if first == q {
      if !Attemptable(s, q, i.now) { AttemptedAreListed(s, order[1..], i, q); }
    } else if Attemptable(s, first, i.now) {
      assert Attempted(s, order, i)[1..] == Attempted(Attempt(s, first, i), order[1..], i);
      LaterIsAttemptedLater(Attempt(s, first, i), order[1..], i, p, q, due);
    } else {
      LaterIsAttemptedLater(s, order[1..], i, p, q, due);
    }
  }

  /** In a tick that attempts `q`, a waiting `p` is attempted first exactly if it comes before `q` in the order. */
  lemma DueDecides(states: seq<State>, ticks: seq<Tick>, b: nat, p: nat, q: nat)
    requires IsRun(states, ticks) && b < |ticks| && p != q
    requires Waiting(states[b], ticks[b].input, p) && q in ticks[b].log
    ensures var due := Ready(states[b], ticks[b].input).due;
      && Due(due, p) == Due(states[b].due, p)
      && (Ahead(ticks[b].log, p, q) <==> Before(due, p, q))
  {
    assert IsTick(states[b], ticks[b], states[b + 1]) && !ticks[b].input.halted;
    var i, order := ticks[b].input, ticks[b].order;
    var c := Ready(states[b], i);
    assert Due(c.due, p) == Due(states[b].due, p);
    AttemptedAreListed(c, order, i, q);
    if Before(c.due, p, q) {
      OrderPutsAhead(order, c.due, p, q);
      EarlierIsAttemptedFirst(c, order, i, p, q);
    } else {
      OrderPutsAhead(order, c.due, q, p);
      NotBothAhead(order, p, q);
      LaterIsAttemptedLater(c, order, i, p, q, c.due);
    }
  }

  /** Once forgotten and not attempted since, a profile counts as due since zero. */
  lemma {:induction false} ForgottenIsDueAtZero(states: seq<State>, ticks: seq<Tick>, n: nat, b: nat, q: nat)
    requires IsRun(states, ticks) && n <= b < |ticks| && !Known(states[n], ticks[n].input, q)
    requires forall k :: n <= k < b ==> q !in ticks[k].log
    ensures Due(Ready(states[b], ticks[b].input).due, q) == 0
  {
    if n < b {
      ForgottenIsDueAtZero(states, ticks, n, b - 1, q);
      var t := ticks[b - 1];
      assert IsTick(states[b - 1], t, states[b]);
      if !t.input.halted { LaunchDue(Ready(states[b - 1], t.input), t.order, t.input, q); }
    }
  }

  /**
    Bounded overtaking. A profile `p` is enabled, idle and due from tick `a` to tick `b`;
    `q` was last attempted in `a` and is attempted again in `b`. Then `p` is attempted in
    `b`, before `q`, unless the runtime forgot `q` in between, and `p` is not ahead of a
    profile due since zero: exactly then it is overtaken a second time.
    */
  lemma BoundedOvertaking(states: seq<State>, ticks: seq<Tick>, a: nat, b: nat, p: nat, q: nat)
    requires Overtaking(states, ticks, a, b, p, q) && forall n :: a < n < b ==> q !in ticks[n].log
    ensures !Ahead(ticks[b].log, p, q) <==>
      && (exists n :: a < n <= b && !Known(states[n], ticks[n].input, q))
      && (0 < Due(states[b].due, p) || (0 == Due(states[b].due, p) && q < p))
  {
    if n :| a < n <= b && !Known(states[n], ticks[n].input, q) {
      ForgottenIsDueAtZero(states, ticks, n, b, q);
      DueDecides(states, ticks, b, p, q);
    } else {
      RememberedComesAfter(states, ticks, a, b, p, q);
    }
  }

  lemma {:induction false} RunBounded(states: seq<State>, ticks: seq<Tick>, n: nat)
    requires IsRun(states, ticks) && n < |states| && |states[0].futures| <= WORKERS
    ensures |states[n].futures| <= WORKERS
  {
    if n > 0 {
      RunBounded(states, ticks, n - 1);
      TickBounded(states[n - 1], ticks[n - 1], states[n]);
    }
  }

  // ---------------------------------------------------------------- a forgotten profile

  /** What the constructor makes. */
  function Initial(): State { State({}, {}, map[]) }

  /** Profile 2 runs on, 9 is due at 60, and 1 is not known. */
  function Early(): State { State({2}, {2}, map[9 := 60, 2 := 100]) }

  /** Profile 1 has been started as well. */
  function Full(due: int): State { State({1, 2}, {1, 2}, map[9 := 60, 2 := 100, 1 := due]) }

  function Vault(now: int, done: set<nat>, keys: set<nat>, halted: bool): Input {
    Input(now, done, keys, keys, halted, map[1 := 60, 9 := 60])
  }

  /** Enabled, idle and due, and not attempted. */
  predicate PassedOver(s: State, t: Tick, p: nat) {
    Sensible(t.input) && Waiting(s, t.input, p) && p !in t.log
  }

  /** A profile without a due time goes first, and takes the free worker. */
  lemma FreshProfileGoesFirst(now: int) returns (t: Tick)
    requires 60 <= now < 100
    ensures IsTick(Early(), t, Full(now + 60)) && PassedOver(Early(), t, 9) && 1 in t.log && t.input.now == now
  {
    hide Launch, Attempted;
    t := Tick(Vault(now, {}, {1, 2, 9}, false), [1, 9, 2], [1]);
    var s, i := Early(), t.input;
    assert Collected(s, i) == s && Closed(s, i) == s;
    OneStart(now, i);
  }

  lemma OneStart(now: int, i: Input)
    requires 60 <= now < 100 && i == Vault(now, {}, {1, 2, 9}, false)
    ensures Launch(Early(), [1, 9, 2], i) == Full(now + 60) && Attempted(Early(), [1, 9, 2], i) == [1]
  {
    assert Attempt(Early(), 1, i) == Full(now + 60) && |Full(now + 60).futures| == 2;
    assert [1, 9, 2][1..] == [9, 2];
  }

  /** Two paused ticks without profile 1 in the vault: its agent goes, then its due time. */
  lemma PausedTicksForget() returns (t: Tick, between: State, t': Tick)
    ensures IsTick(Full(130), t, between) && IsTick(between, t', Early())
    ensures PassedOver(Full(130), t, 9) && PassedOver(between, t', 9) && !Known(between, t'.input, 1)
    ensures t.input.now == 71 && t'.input.now == 72
  {
    t := Tick(Vault(71, {1}, {2, 9}, true), [], []);
    t' := Tick(Vault(72, {}, {2, 9}, true), [], []);
    between := State({2}, {2}, Full(130).due);
    assert Closed(Collected(Full(130), t.input), t.input) == between;
    assert Collected(between, t'.input).due == Early().due;
  }

  /** The first tick starts profile 2; starting 9 fails, so it is to be tried again at 60. */
  lemma FirstTick() returns (t: Tick)
    ensures IsTick(Initial(), t, Early()) && Sensible(t.input) && t.input.now == 0
  {
    var i := Input(0, {}, {2, 9}, {2, 9}, false, map[2 := 100]);
    t := Tick(i, [2, 9], [2, 9]);
    assert Ready(Initial(), i) == Initial();
    var one := Attempt(Initial(), 2, i);
    assert one == State({2}, {2}, map[2 := 100]) && |one.futures| == 1;
    assert [2, 9][1..] == [9] && Attempt(one, 9, i) == Early();
    assert Attempted(one, [9], i) == [9] && Launch(one, [9], i) == Early();
  }

  /**
    From tick `a` on `q` is attempted in the first and the last tick, and `p`, due and idle in all
    of them, in none.
    */
  ghost predicate OvertakesTwice(s: seq<State>, t: seq<Tick>, a: nat, p: nat, q: nat) {
    && PassedOverRun(s, t, a, p) && a + 2 <= |t| && p != q
    && q in t[a].log && q in t[|t| - 1].log
  }

  ghost predicate PassedOverRun(s: seq<State>, t: seq<Tick>, a: nat, p: nat) {
    IsRun(s, t) && forall n :: a <= n < |t| ==> PassedOver(s[n], t[n], p)
  }

  lemma RunGrows(s: seq<State>, t: seq<Tick>, more: Tick, after: State, a: nat, p: nat)
    requires PassedOverRun(s, t, a, p) && a <= |t| && IsTick(s[|t|], more, after) && PassedOver(s[|t|], more, p)
    requires forall n :: 0 <= n < |t| ==> t[n].input.now <= more.input.now
    ensures PassedOverRun(s + [after], t + [more], a, p)
  {
    var all, ticks := s + [after], t + [more];
    forall n | 0 <= n < |ticks|
      ensures Sensible(ticks[n].input) && IsTick(all[n], ticks[n], all[n + 1])
      ensures a <= n ==> PassedOver(all[n], ticks[n], p)
    {
      if n < |t| { assert IsTick(s[n], t[n], s[n + 1]) && (a <= n ==> PassedOver(s[n], t[n], p)); }
    }
  }

  /**
    The exception is real, from the constructor's state on: a profile removed from the
    vault while the service is paused, and enrolled again, is started a second time
    while another one has been due and idle throughout.
    */
  lemma ForgottenProfileOvertakesTwice() returns (states: seq<State>, ticks: seq<Tick>)
    ensures states != [] && states[0] == Initial() && OvertakesTwice(states, ticks, 1, 9, 1)
  {
    hide IsTick, PassedOver, Sensible, Initial, Early, Full;
    var zero := FirstTick();
    var first := FreshProfileGoesFirst(70);
    var second, between, third := PausedTicksForget();
    var fourth := FreshProfileGoesFirst(73);
    states, ticks := [Initial(), Early()], [zero];
    RunGrows(states, ticks, first, Full(130), 1, 9);
    RunGrows(states + [Full(130)], ticks + [first], second, between, 1, 9);
    states, ticks := states + [Full(130)] + [between], ticks + [first] + [second];
    RunGrows(states, ticks, third, Early(), 1, 9);
    RunGrows(states + [Early()], ticks + [third], fourth, Full(133), 1, 9);
    states, ticks := states + [Early()] + [Full(133)], ticks + [third] + [fourth];
  }
}
