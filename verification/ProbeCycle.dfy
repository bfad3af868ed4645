/**
  The probe cycle engine (monitor-v2/diagnostics/network_probes.py): cycles run
  concurrently and share one table of in-flight workers, one place per slot. Every
  interleaving of the atomic steps below is a run: a step whose guard fails leaves
  the system as it was, so any sequence of steps is one.
  */
module ProbeCycle {
  import opened Prelude

  datatype Slot = Dns | Https | Udp | Egress

  datatype Code = NoError | Unavailable | TimedOut | ParseFailed | OtherError(n: nat)

  /**
    What a worker hands back: not a dictionary (also after an exception), or one with
    possibly unusable fields. An address is present if it is a public one, in canonical form.
    */
  datatype Raw = NotADict | Fields(ok: bool, code: Option<Code>, latency: Option<int>, ip: Option<nat>)

  datatype Report = Report(ok: bool, latency: Option<int>, code: Code, ip: Option<nat>)

  function FailedReport(code: Code): Report { Report(false, None, code, None) }

  // ---------------------------------------------------------------- the closed shape

  function NormalizeProbe(raw: Raw): Report {
    match raw
    case NotADict => FailedReport(Unavailable)
    case Fields(ok, given, latency, _) =>
      var code := if given.Some? then given.value else Unavailable;
      if ok && code.NoError? then Report(true, Some(Max(0, if latency.Some? then latency.value else 0)), NoError, None)
      else FailedReport(if code.NoError? then Unavailable else code)
  }

  function NormalizeEgress(raw: Raw): Report {
    var r := NormalizeProbe(raw);
    if !r.ok then r
    else if raw.Fields? && raw.ip.Some? then r.(ip := raw.ip)
    else FailedReport(ParseFailed)
  }

  /** The worker says it succeeded, without an error code, and an egress probe shows a public address. */
  predicate Usable(slot: Slot, raw: Raw) {
    raw.Fields? && raw.ok && raw.code == Some(NoError) && (slot.Egress? ==> raw.ip.Some?)
  }

  /** Closed, and no more than the worker returned: its latency and address, or its own error code. */
  function Normalize(slot: Slot, raw: Raw): (r: Report)
    ensures Closed(slot, r)
    ensures r.ok <==> Usable(slot, raw)
    ensures r.ok && raw.latency.Some? && raw.latency.value >= 0 ==> r.latency == raw.latency
    ensures r.ok && (raw.latency.Some? ==> raw.latency.value < 0) ==> r.latency == Some(0)
    ensures r.ok && slot.Egress? ==> r.ip == raw.ip
    ensures raw.Fields? && raw.code.Some? && raw.code.value != NoError ==> r.code == raw.code.value
    ensures raw.NotADict? || raw.code.None? || (raw.code.value.NoError? && !raw.ok) ==> r.code.Unavailable?
    ensures raw.Fields? && raw.ok && raw.code == Some(NoError) && !Usable(slot, raw) ==> r.code.ParseFailed?
  {
    if slot.Egress? then NormalizeEgress(raw) else NormalizeProbe(raw)
  }

  /** The only shapes a report may have, whatever the worker returned. */
  predicate Closed(slot: Slot, r: Report) {
    && (r.ok <==> r.code.NoError?)
    && (r.ok <==> r.latency.Some?)
    && (r.latency.Some? ==> 0 <= r.latency.value)
    && (r.ip.Some? <==> r.ok && slot.Egress?)
  }

  // ---------------------------------------------------------------- the system

  datatype WorkerId = WorkerId(cycle: nat, slot: Slot)

  datatype Entry = Entry(raw: Raw, completed: int)

  /** A worker thread: in the probe, done with it, out of the table, recorded, ended. */
  datatype Phase = Body | Done(e: Entry) | Released(e: Entry) | Recorded | Dead

  datatype System = System(
    now: int,
    starts: map<nat, int>,
    inflight: map<Slot, nat>,
    phases: map<WorkerId, Phase>,
    deadlines: map<WorkerId, int>,
    outcomes: map<WorkerId, Entry>,
    reports: map<WorkerId, Report>)

  const INITIAL := System(0, map[], map[], map[], map[], map[], map[])

  datatype Step =
    | Wait(time: nat)
    | Begin(cycle: nat)
    | Reserve(w: WorkerId, budget: nat, starts: bool)
    | Finish(w: WorkerId, raw: Raw)
    | Release(w: WorkerId)
    | Record(w: WorkerId)
    | Exit(w: WorkerId)
    | Adjudicate(w: WorkerId, seenAlive: bool)

  /** Is the slot held by a worker that is still alive? */
  predicate Busy(s: System, slot: Slot) {
    slot in s.inflight && Alive(s, WorkerId(s.inflight[slot], slot))
  }

  predicate Alive(s: System, w: WorkerId) {
    w in s.phases && !s.phases[w].Dead?
  }

  predicate InPhase(s: System, w: WorkerId, p: Phase) { w in s.phases && s.phases[w] == p }

  /** What the cycle decides for a slot once its join has returned. */
  function Decide(s: System, w: WorkerId, seenAlive: bool): Report
    requires w in s.deadlines
  {
    if w !in s.outcomes then
      FailedReport(if seenAlive && Alive(s, w) then TimedOut else Unavailable)
    else if s.outcomes[w].completed > s.deadlines[w] then FailedReport(TimedOut)
    else Normalize(w.slot, s.outcomes[w].raw)
  }

  /**
    One atomic step. Reservation and start are one step under the lock; a start may
    fail. An outcome gets its time when the probe returns, before the slot is
    released and before it is recorded. A join returns when the thread has ended or
    at the deadline. `budget` is the smaller of the spec's timeout and the cycle's.
    */
  function Next(s: System, step: Step): System {
    match step
    case Wait(time) => s.(now := s.now + time)
    case Begin(cycle) => if cycle in s.starts then s else s.(starts := s.starts[cycle := s.now])
    case Reserve(w, budget, starts) =>
      if w.cycle !in s.starts || w in s.phases || Busy(s, w.slot) then s
      else s.(inflight := s.inflight[w.slot := w.cycle],
              phases := s.phases[w := if starts then Body else Dead],
              deadlines := s.deadlines[w := s.starts[w.cycle] + budget])
    case Finish(w, raw) =>
      if InPhase(s, w, Body) then s.(phases := s.phases[w := Done(Entry(raw, s.now))]) else s
    case Release(w) =>
      if w in s.phases && s.phases[w].Done? then
        s.(phases := s.phases[w := Released(s.phases[w].e)],
           inflight := if w.slot in s.inflight && s.inflight[w.slot] == w.cycle
                       then s.inflight - {w.slot} else s.inflight)
      else s
    case Record(w) =>
      if w in s.phases && s.phases[w].Released? then
        s.(phases := s.phases[w := Recorded], outcomes := s.outcomes[w := s.phases[w].e])
      else s
    case Exit(w) => if w in s.phases then s.(phases := s.phases[w := Dead]) else s
    case Adjudicate(w, seenAlive) =>
      if w in s.deadlines && w !in s.reports && (!Alive(s, w) || s.deadlines[w] <= s.now)
      then s.(reports := s.reports[w := Decide(s, w, seenAlive)])
      else s
  }

  function Run(s: System, steps: seq<Step>): System {
    if steps == [] then s else Next(Run(s, steps[..|steps| - 1]), steps[|steps| - 1])
  }

  // ---------------------------------------------------------------- the invariant

  /** A worker whose probe may still be running, or has not yet been released, holds its slot. */
  predicate HoldsItsSlot(s: System, w: WorkerId)
    requires w in s.phases
  {
    s.phases[w].Body? || s.phases[w].Done? ==> w.slot in s.inflight && s.inflight[w.slot] == w.cycle
  }

  /** Only an outcome of the cycle's own worker, in time, is more than unavailable or a timeout. */
  predicate Earned(s: System, w: WorkerId)
    requires w in s.reports
  {
    s.reports[w].code.Unavailable? || s.reports[w].code.TimedOut? ||
    (w in s.outcomes && w in s.deadlines && s.outcomes[w].completed <= s.deadlines[w] &&
     s.reports[w] == Normalize(w.slot, s.outcomes[w].raw))
  }

  /** The entry a worker has made, recorded or not. */
  function EntryOf(s: System, w: WorkerId): Option<Entry> {
    if w in s.outcomes then Some(s.outcomes[w])
    else if w in s.phases && (s.phases[w].Done? || s.phases[w].Released?) then Some(s.phases[w].e)
    else None
  }

  predicate WorkersOk(s: System) {
    && (forall w :: w in s.phases ==> w in s.deadlines && HoldsItsSlot(s, w))
    && (forall w :: w in s.phases && w in s.outcomes ==> s.phases[w].Recorded? || s.phases[w].Dead?)
    && (forall w :: w in s.outcomes ==> w in s.phases)
    && (forall w :: w in s.deadlines ==> w in s.phases)
    && (forall slot :: slot in s.inflight ==> Occupant(s, slot))
  }

  /** What holds a slot is a worker that has not released it; it may have died there. */
  predicate Occupant(s: System, slot: Slot)
    requires slot in s.inflight
  {
    var w := WorkerId(s.inflight[slot], slot);
    w in s.phases && (s.phases[w].Body? || s.phases[w].Done? || s.phases[w].Dead?)
  }

  predicate ReportsOk(s: System) {
    forall w :: w in s.reports ==> w in s.deadlines && Earned(s, w) && Closed(w.slot, s.reports[w])
  }

  predicate Inv(s: System) { WorkersOk(s) && ReportsOk(s) }

  lemma ReserveKeeps(s: System, w: WorkerId, budget: nat, starts: bool)
    requires Inv(s)
    ensures Inv(Next(s, Reserve(w, budget, starts)))
  {
    var t := Next(s, Reserve(w, budget, starts));
    if t != s {
      forall v | v in t.phases ensures v in t.deadlines && HoldsItsSlot(t, v) {
        if v != w {
          assert HoldsItsSlot(s, v);
          if v.slot == w.slot && (s.phases[v].Body? || s.phases[v].Done?) {
            assert Alive(s, WorkerId(s.inflight[v.slot], v.slot));
          }
        }
      }
    }
  }

  lemma ReleaseKeeps(s: System, w: WorkerId)
    requires Inv(s)
    ensures Inv(Next(s, Release(w)))
  {
    var t := Next(s, Release(w));
    forall v | v in t.phases ensures v in t.deadlines && HoldsItsSlot(t, v) {
      if v != w {
        assert HoldsItsSlot(s, v);
      }
    }
  }

  lemma RecordKeeps(s: System, w: WorkerId)
    requires Inv(s)
    ensures Inv(Next(s, Record(w)))
  {
    var t := Next(s, Record(w));
    forall v | v in t.reports ensures Earned(t, v) { assert Earned(s, v); }
  }

  lemma DecisionIsEarned(s: System, w: WorkerId, seenAlive: bool)
    requires w in s.deadlines
    ensures var t := s.(reports := s.reports[w := Decide(s, w, seenAlive)]);
      Earned(t, w) && Closed(w.slot, t.reports[w])
  {
  }

  lemma AdjudicateKeeps(s: System, w: WorkerId, seenAlive: bool)
    requires Inv(s)
    ensures Inv(Next(s, Adjudicate(w, seenAlive)))
  {
    var t := Next(s, Adjudicate(w, seenAlive));
    if t != s {
      DecisionIsEarned(s, w, seenAlive);
      forall v | v in t.phases ensures HoldsItsSlot(t, v) { assert HoldsItsSlot(s, v); }
      forall v | v in t.reports && v != w ensures Earned(t, v) { assert Earned(s, v); }
    }
  }

  lemma NextKeeps(s: System, step: Step)
    requires Inv(s)
    ensures Inv(Next(s, step))
  {
    if step.Reserve? {
      ReserveKeeps(s, step.w, step.budget, step.starts);
    } else if step.Release? {
      ReleaseKeeps(s, step.w);
    } else if step.Record? {
      RecordKeeps(s, step.w);
    } else if step.Adjudicate? {
      AdjudicateKeeps(s, step.w, step.seenAlive);
    } else if step.Finish? {
      FinishKeeps(s, step.w, step.raw);
    } else {
      QuietKeeps(s, step);
    }
  }

  lemma FinishKeeps(s: System, w: WorkerId, raw: Raw)
    requires Inv(s)
    ensures Inv(Next(s, Finish(w, raw)))
  {
    var t := Next(s, Finish(w, raw));
    forall v | v in t.phases ensures HoldsItsSlot(t, v) { assert HoldsItsSlot(s, v); }
  }

  lemma QuietKeeps(s: System, step: Step)
    requires Inv(s) && (step.Wait? || step.Begin? || step.Exit?)
    ensures Inv(Next(s, step))
  {
  }

  lemma {:induction false} RunKeeps(steps: seq<Step>)
    ensures Inv(Run(INITIAL, steps))
  {
    if steps != [] {
      RunKeeps(steps[..|steps| - 1]);
      NextKeeps(Run(INITIAL, steps[..|steps| - 1]), steps[|steps| - 1]);
    }
  }

  // ---------------------------------------------------------------- theorems

  /** Over every interleaving, at most one worker body runs per slot. */
  lemma OneWorkerPerSlot(steps: seq<Step>, v: WorkerId, w: WorkerId)
    requires InPhase(Run(INITIAL, steps), v, Body) && InPhase(Run(INITIAL, steps), w, Body) && v.slot == w.slot
    ensures v == w
  {
    RunKeeps(steps);
    assert HoldsItsSlot(Run(INITIAL, steps), v) && HoldsItsSlot(Run(INITIAL, steps), w);
  }

  /** A step rewrites no outcome, no deadline and no decision. */
  predicate Extends(s: System, t: System) {
    && s.now <= t.now
    && (forall c :: c in s.starts ==> c in t.starts && t.starts[c] == s.starts[c])
    && (forall w :: w in s.deadlines ==> w in t.deadlines && t.deadlines[w] == s.deadlines[w])
    && (forall w :: w in s.outcomes ==> w in t.outcomes && t.outcomes[w] == s.outcomes[w])
    && (forall w :: w in s.reports ==> w in t.reports && t.reports[w] == s.reports[w])
  }

  lemma ReserveExtends(s: System, w: WorkerId, budget: nat, starts: bool)
    requires Inv(s)
    ensures Extends(s, Next(s, Reserve(w, budget, starts)))
  {
  }

  lemma RecordExtends(s: System, w: WorkerId)
    requires Inv(s)
    ensures Extends(s, Next(s, Record(w)))
  {
  }

  lemma AdjudicateExtends(s: System, w: WorkerId, seenAlive: bool)
    ensures Extends(s, Next(s, Adjudicate(w, seenAlive)))
  {
  }

  lemma NextExtends(s: System, step: Step)
    requires Inv(s)
    ensures Extends(s, Next(s, step))
  {
    if step.Reserve? {
      ReserveExtends(s, step.w, step.budget, step.starts);
    } else if step.Record? {
      RecordExtends(s, step.w);
    } else if step.Adjudicate? {
      AdjudicateExtends(s, step.w, step.seenAlive);
    } else {
      QuietExtends(s, step);
    }
  }

  lemma QuietExtends(s: System, step: Step)
    requires step.Wait? || step.Begin? || step.Finish? || step.Release? || step.Exit?
    ensures Extends(s, Next(s, step))
  {
  }

  lemma ExtendsTransitive(s: System, t: System, u: System)
    requires Extends(s, t) && Extends(t, u)
    ensures Extends(s, u)
  {
  }

  lemma RunStep(before: seq<Step>, after: seq<Step>)
    requires after != []
    ensures Run(INITIAL, before + after) == Next(Run(INITIAL, before + after[..|after| - 1]), after[|after| - 1])
  {
    assert (before + after)[..|before + after| - 1] == before + after[..|after| - 1];
  }

  /** What a cycle has decided stays decided: a late outcome never overwrites it. */
  lemma {:induction false} DecidedStays(before: seq<Step>, after: seq<Step>)
    ensures Extends(Run(INITIAL, before), Run(INITIAL, before + after))
  {
    if after == [] {
      assert before + after == before;
    } else {
      var n := |after| - 1;
      var s, t := Run(INITIAL, before), Run(INITIAL, before + after[..n]);
      DecidedStays(before, after[..n]);
      RunKeeps(before + after[..n]);
      NextExtends(t, after[n]);
      RunStep(before, after);
      ExtendsTransitive(s, t, Next(t, after[n]));
    }
  }

  /** In this run the worker's own body ended with this entry, at the time the entry says. */
  predicate FinishedIn(steps: seq<Step>, w: WorkerId, e: Entry) {
    exists k :: 0 <= k < |steps| && FinishedAt(steps, k, w, e)
  }

  predicate FinishedAt(steps: seq<Step>, k: int, w: WorkerId, e: Entry) {
    && 0 <= k < |steps| && steps[k] == Finish(w, e.raw)
    && InPhase(Run(INITIAL, steps[..k]), w, Body) && Run(INITIAL, steps[..k]).now == e.completed
  }

  lemma FinishedEarlier(steps: seq<Step>, w: WorkerId, e: Entry)
    requires steps != [] && FinishedIn(steps[..|steps| - 1], w, e)
    ensures FinishedIn(steps, w, e)
  {
    var before := steps[..|steps| - 1];
    var k :| 0 <= k < |before| && FinishedAt(before, k, w, e);
    assert steps[..k] == before[..k];
    assert FinishedAt(steps, k, w, e);
  }

  /** An entry after a step was there before it, or the step ended the worker's body. */
  lemma EntryStep(s: System, step: Step, w: WorkerId)
    requires Inv(s) && EntryOf(Next(s, step), w).Some?
    ensures EntryOf(s, w) == EntryOf(Next(s, step), w) ||
      (InPhase(s, w, Body) && step == Finish(w, EntryOf(Next(s, step), w).value.raw) &&
        EntryOf(Next(s, step), w).value.completed == s.now)
  {
    match step
    case Reserve(v, budget, starts) => EntryKept(s, step, v, w);
    case Release(v) => EntryKept(s, step, v, w);
    case Record(v) => EntryKept(s, step, v, w);
    case _ =>
  }

  lemma EntryKept(s: System, step: Step, v: WorkerId, w: WorkerId)
    requires Inv(s) && ((step.Reserve? && step.w == v) || step == Release(v) || step == Record(v))
    ensures EntryOf(s, w) == EntryOf(Next(s, step), w)
  {
  }

  /** Every entry was made by its own worker's body. */
  lemma {:induction false} EntriesAreEarned(steps: seq<Step>, w: WorkerId)
    ensures var e := EntryOf(Run(INITIAL, steps), w); e.Some? ==> FinishedIn(steps, w, e.value)
  {
    var e := EntryOf(Run(INITIAL, steps), w);
    if e.Some? && steps != [] {
      var n := |steps| - 1;
      var s := Run(INITIAL, steps[..n]);
      EntriesAreEarned(steps[..n], w);
      RunKeeps(steps[..n]);
      EntryStep(s, steps[n], w);
      if EntryOf(s, w) == e {
        FinishedEarlier(steps, w, e.value);
      } else {
        assert FinishedAt(steps, n, w, e.value);
      }
    }
  }

  /**
    A decision other than unavailable or timeout was earned: this cycle's own worker
    for this slot was running, ended no later than the deadline that was fixed when it
    started, and the decision is what it returned, in closed shape.
    */
  lemma DecisionsAreEarned(steps: seq<Step>, w: WorkerId)
    requires var s := Run(INITIAL, steps);
      w in s.reports && !s.reports[w].code.Unavailable? && !s.reports[w].code.TimedOut?
    ensures var s := Run(INITIAL, steps);
      && w in s.deadlines && w in s.outcomes && s.outcomes[w].completed <= s.deadlines[w]
      && s.reports[w] == Normalize(w.slot, s.outcomes[w].raw)
      && FinishedIn(steps, w, s.outcomes[w])
  {
    RunKeeps(steps);
    EntriesAreEarned(steps, w);
    assert Earned(Run(INITIAL, steps), w);
  }

  // ---------------------------------------------------------------- what a cycle decides, exactly

  /** The time that has passed is the time that was waited. */
  function Elapsed(steps: seq<Step>): nat {
    if steps == [] then 0
    else
      var last := steps[|steps| - 1];
      Elapsed(steps[..|steps| - 1]) + if last.Wait? then last.time else 0
  }

  /** The cycle began at step `j`, not before. */
  predicate BegunAt(steps: seq<Step>, j: int, cycle: nat) {
    0 <= j < |steps| && steps[j] == Begin(cycle) && forall i :: 0 <= i < j ==> steps[i] != Begin(cycle)
  }

  lemma StepTime(s: System, step: Step)
    ensures Next(s, step).now == s.now + if step.Wait? then step.time else 0
    ensures Next(s, step).starts ==
      if step.Begin? && step.cycle !in s.starts then s.starts[step.cycle := s.now] else s.starts
  {
    hide Busy, Alive, Decide;
  }

  lemma StepDeadline(s: System, step: Step, w: WorkerId)
    requires WorkersOk(s) && w in Next(s, step).deadlines
    ensures (w in s.deadlines && Next(s, step).deadlines[w] == s.deadlines[w]) || LetsIn(s, step, w)
    ensures w !in s.deadlines ==> Next(s, step).deadlines[w] == s.starts[w.cycle] + step.budget
  {
    hide Busy, Alive, Decide;
  }

  predicate LetsIn(s: System, step: Step, w: WorkerId) {
    step.Reserve? && step.w == w && w !in s.phases && w.cycle in s.starts
  }

  lemma {:induction false} TimePasses(steps: seq<Step>)
    ensures Run(INITIAL, steps).now == Elapsed(steps)
  {
    hide Next;
    if steps != [] {
      TimePasses(steps[..|steps| - 1]);
      StepTime(Run(INITIAL, steps[..|steps| - 1]), steps[|steps| - 1]);
    }
  }

  lemma {:induction false} StartsAreBeginnings(steps: seq<Step>, cycle: nat)
    ensures var s := Run(INITIAL, steps);
      if cycle in s.starts then exists j :: BegunAt(steps, j, cycle) && s.starts[cycle] == Elapsed(steps[..j])
      else Begin(cycle) !in steps
  {
    hide Next;
    if steps != [] {
      var n := |steps| - 1;
      var s := Run(INITIAL, steps[..n]);
      StepTime(s, steps[n]);
      StartsAreBeginnings(steps[..n], cycle);
      TimePasses(steps[..n]);
      assert steps == steps[..n] + [steps[n]];
      if cycle in s.starts {
        var j :| BegunAt(steps[..n], j, cycle) && s.starts[cycle] == Elapsed(steps[..n][..j]);
        assert steps[..n][..j] == steps[..j];
        assert BegunAt(steps, j, cycle);
      } else if steps[n] == Begin(cycle) {
        assert BegunAt(steps, n, cycle);
      }
    }
  }

  /** Step `k` let the worker in, after its cycle began at step `j`, and this deadline was fixed then. */
  predicate FixedAt(steps: seq<Step>, j: int, k: int, w: WorkerId, deadline: int) {
    && j < k && BegunAt(steps, j, w.cycle) && 0 <= k < |steps| && LetsIn(Run(INITIAL, steps[..k]), steps[k], w)
    && deadline == Elapsed(steps[..j]) + steps[k].budget
  }

  /**
    A deadline is fixed by when the cycle began, not by when the worker was let in: it is the time
    waited before the cycle's beginning and the worker's budget.
    */
  lemma {:induction false} DeadlineIsFixed(steps: seq<Step>, w: WorkerId)
    requires w in Run(INITIAL, steps).deadlines
    ensures exists j, k :: FixedAt(steps, j, k, w, Run(INITIAL, steps).deadlines[w])
  {
    hide Next;
    assert steps != [];
    var n := |steps| - 1;
    var before := steps[..n];
    var s := Run(INITIAL, before);
    RunKeeps(before);
    StepDeadline(s, steps[n], w);
    if w in s.deadlines {
      NextExtends(s, steps[n]);
      DeadlineIsFixed(before, w);
      var j, k :| FixedAt(before, j, k, w, s.deadlines[w]);
      assert before[..j] == steps[..j] && before[..k] == steps[..k];
      assert FixedAt(steps, j, k, w, s.deadlines[w]);
    } else {
      StartsAreBeginnings(before, w.cycle);
      LetInAfterBegun(steps, n, w, Run(INITIAL, steps).deadlines[w]);
    }
  }

  lemma LetInAfterBegun(steps: seq<Step>, n: nat, w: WorkerId, deadline: int)
    requires n + 1 == |steps| && LetsIn(Run(INITIAL, steps[..n]), steps[n], w)
    requires var t := steps[..n];
      exists j :: BegunAt(t, j, w.cycle) && Run(INITIAL, t).starts[w.cycle] == Elapsed(t[..j])
    requires deadline == Run(INITIAL, steps[..n]).starts[w.cycle] + steps[n].budget
    ensures exists j, k :: FixedAt(steps, j, k, w, deadline)
  {
    hide Run;
    var before := steps[..n];
    var j :| BegunAt(before, j, w.cycle) && Run(INITIAL, before).starts[w.cycle] == Elapsed(before[..j]);
    assert before[..j] == steps[..j];
    assert FixedAt(steps, j, n, w, deadline);
  }

  /** A slot is taken exactly while a worker of it is in its probe, or done and about to leave. */
  lemma BusyExactly(steps: seq<Step>, slot: Slot)
    ensures var s := Run(INITIAL, steps);
      Busy(s, slot) <==> exists w :: w in s.phases && w.slot == slot && (s.phases[w].Body? || s.phases[w].Done?)
  {
    RunKeeps(steps);
    var s := Run(INITIAL, steps);
    if slot in s.inflight { assert Occupant(s, slot); }
    forall w | w in s.phases && w.slot == slot && (s.phases[w].Body? || s.phases[w].Done?) ensures Busy(s, slot) {
      assert HoldsItsSlot(s, w);
    }
  }

  /** A cycle that has begun and has had no worker in a slot gets one there, exactly if the slot is free. */
  lemma FreeSlotIsGiven(steps: seq<Step>, w: WorkerId, budget: nat)
    requires w.cycle in Run(INITIAL, steps).starts && w !in Run(INITIAL, steps).phases
    ensures InPhase(Run(INITIAL, steps + [Reserve(w, budget, true)]), w, Body) <==> !Busy(Run(INITIAL, steps), w.slot)
  {
    RunStep(steps, [Reserve(w, budget, true)]);
    assert steps + [Reserve(w, budget, true)][..0] == steps;
  }

  /** The cycle's join has returned and the slot is still undecided. */
  predicate Due(s: System, w: WorkerId) {
    w in s.deadlines && w !in s.reports && (Alive(s, w) ==> s.deadlines[w] <= s.now)
  }

  /** What may be decided after these steps, told by how the worker ended and not by the system's tables. */
  predicate Justified(steps: seq<Step>, w: WorkerId, seenAlive: bool, r: Report) {
    var s := Run(INITIAL, steps);
    && w in s.deadlines
    && if w !in s.outcomes
       then r == Report(false, None, if seenAlive && Alive(s, w) then TimedOut else Unavailable, None)
       else FinishedIn(steps, w, s.outcomes[w]) &&
            if s.outcomes[w].completed > s.deadlines[w] then r == Report(false, None, TimedOut, None)
            else r == Normalize(w.slot, s.outcomes[w].raw)
  }

  predicate DecidedAt(steps: seq<Step>, k: int, w: WorkerId, r: Report) {
    && 0 <= k < |steps| && steps[k].Adjudicate? && steps[k].w == w
    && Due(Run(INITIAL, steps[..k]), w) && Justified(steps[..k], w, steps[k].seenAlive, r)
  }

  /** Whenever a cycle asks for a decision that is due, it gets one, and keeps it to the end of the run. */
  lemma DueIsDecided(before: seq<Step>, w: WorkerId, seenAlive: bool, after: seq<Step>)
    requires Due(Run(INITIAL, before), w)
    ensures var t := Run(INITIAL, before + [Adjudicate(w, seenAlive)] + after);
      w in t.reports && Justified(before, w, seenAlive, t.reports[w])
  {
    var step := [Adjudicate(w, seenAlive)];
    RunStep(before, step);
    assert before + step[..0] == before;
    EntriesAreEarned(before, w);
    DecidedStays(before + step, after);
  }

  /**
    Every decision was made when it was due: after the worker had ended, or at its deadline. It is a timeout if
    nothing was recorded while the thread was still seen alive, or if the probe ended past its deadline;
    unavailable if a dead worker left nothing; and otherwise what the worker returned.
    */
  lemma {:induction false} DecisionsAreExact(steps: seq<Step>, w: WorkerId)
    requires w in Run(INITIAL, steps).reports
    ensures exists k :: DecidedAt(steps, k, w, Run(INITIAL, steps).reports[w])
  {
    hide Next, Justified, Due;
    assert steps != [];
    var n := |steps| - 1;
    var before := steps[..n];
    var s, r := Run(INITIAL, before), Run(INITIAL, steps).reports[w];
    RunKeeps(before);
    if w in s.reports {
      NextExtends(s, steps[n]);
      DecisionsAreExact(before, w);
      var k :| DecidedAt(before, k, w, r);
      assert before[..k] == steps[..k];
      assert DecidedAt(steps, k, w, r);
    } else {
      StepDecides(before, steps[n], w);
      assert DecidedAt(steps, n, w, r);
    }
  }

  /** A decision is new after a step only if the step made it when it was due. */
  lemma StepDecides(before: seq<Step>, step: Step, w: WorkerId)
    requires var s := Run(INITIAL, before); w !in s.reports && w in Next(s, step).reports
    ensures step.Adjudicate? && step.w == w && Due(Run(INITIAL, before), w)
    ensures Justified(before, w, step.seenAlive, Next(Run(INITIAL, before), step).reports[w])
  {
    hide Run, Normalize, Busy;
    EntriesAreEarned(before, w);
  }

  /** A body that runs was running before, and a worker that is new was let in at a free slot. */
  lemma StepsStartBodies(s: System, step: Step, w: WorkerId, v: WorkerId)
    requires w in s.phases && InPhase(Next(s, step), w, Body) && v in Next(s, step).phases
    ensures InPhase(s, w, Body) && (v in s.phases || !Busy(s, v.slot))
  {
    hide Decide;
  }

  lemma BodyIsBusy(s: System, w: WorkerId)
    requires WorkersOk(s) && InPhase(s, w, Body)
    ensures Busy(s, w.slot)
  {
    assert HoldsItsSlot(s, w);
  }

  /**
    A hung probe keeps every other cycle out of its slot: from the moment a worker exists,
    over any number of steps of all cycles, as long as its body still runs no worker has
    been added in its slot, so whatever cycles came meanwhile went without one.
    */
  lemma {:induction false} HungWorkerKeepsOthersOut(before: seq<Step>, after: seq<Step>, w: WorkerId, v: WorkerId)
    ensures var s, t := Run(INITIAL, before), Run(INITIAL, before + after);
      w in s.phases && InPhase(t, w, Body) && v.slot == w.slot && v in t.phases ==>
        InPhase(s, w, Body) && v in s.phases
  {
    if after == [] {
      assert before + after == before;
    } else {
      var n := |after| - 1;
      var s, t := Run(INITIAL, before), Run(INITIAL, before + after[..n]);
      DecidedStays(before, after[..n]);
      RunKeeps(before);
      RunKeeps(before + after[..n]);
      RunStep(before, after);
      HungWorkerKeepsOthersOut(before, after[..n], w, v);
      if w in s.phases && InPhase(Next(t, after[n]), w, Body) && v in Next(t, after[n]).phases {
        assert w in s.deadlines && w in t.phases;
        StepsStartBodies(t, after[n], w, v);
        BodyIsBusy(t, w);
      }
    }
  }
}
