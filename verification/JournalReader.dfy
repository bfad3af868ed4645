/**
  The journal reader's durable state and its recovery table
  (monitor-v2/journal_reader/state.py). The journal is an append-only sequence of
  entries; a cursor, and a `since` anchor, is a position in it.
  */
module JournalState {
  import opened Prelude
  import opened ExchangeSchema
  import opened JournalBatch

  datatype Source = Cursor(pos: nat) | Since(pos: nat)
  datatype Committed = Committed(seqNo: nat, epoch: nat, boundary: Boundary, source: Source)
  datatype Pending = Pending(run: nat, seqNo: nat, epoch: nat, boundary: Boundary, end: nat)
  datatype File = File(lines: seq<Line>, size: nat)

  /** What survives a power loss: the two state records and the exchange directory. */
  datatype Disk = Disk(committed: Option<Committed>, pending: Option<Pending>, files: map<nat, File>)

  datatype Action = Start | FinishCommit | Repoll | FailClosed | FirstActivation

  /** `step4_committed`: the one projection that settles a batch, in the cycle and in recovery. */
  function Step4(p: Pending): Committed {
    Committed(p.seqNo, p.epoch, NoBoundary, Cursor(p.end))
  }

  predicate HeaderMatches(f: File, run: nat, seqNo: nat) {
    && f.lines != [] && f.lines[0].HeaderLine? && f.lines[0].exact && ValidHeader(f.lines[0].header)
    && f.lines[0].header.seqNo == seqNo && f.lines[0].header.run == run
  }

  predicate AnyAbove(files: map<nat, File>, seqNo: nat) {
    exists s :: s in files && s > seqNo
  }

  /** `evaluate_recovery`: the row of the startup table, and what to do about it. */
  function EvaluateRecovery(d: Disk): (nat, Action) {
    if d.committed.None? then
      if d.pending.None? && d.files == map[] then (7, FirstActivation) else (8, FailClosed)
    else
      var cs := d.committed.value.seqNo;
      if d.pending.None? then
        if cs + 1 in d.files then (6, FailClosed)
        else if AnyAbove(d.files, cs + 1) then (8, FailClosed)
        else (1, Start)
      else
        var p := d.pending.value;
        if p.seqNo <= cs then (4, Repoll)
        else if p.seqNo > cs + 1 then (5, FailClosed)
        else if AnyAbove(d.files, cs + 1) then (8, FailClosed)
        else if cs + 1 !in d.files then (3, Repoll)
        else if HeaderMatches(d.files[cs + 1], p.run, p.seqNo) then (2, FinishCommit)
        else (6, FailClosed)
  }

  /** Something above the committed number exists that only a crash inside a commit, or damage, explains. */
  predicate Unsettled(d: Disk)
    requires d.committed.Some?
  {
    var cs := d.committed.value.seqNo;
    match d.pending
    case None => exists s :: s in d.files && s > cs
    case Some(p) => p.seqNo > cs && (p.seqNo > cs + 1 || exists s :: s in d.files && s > cs)
  }

  /** The finished file of a commit that was cut before its committed record: it and no other is above. */
  predicate CutAfterFile(d: Disk)
    requires d.committed.Some? && d.pending.Some?
  {
    var next, p := d.committed.value.seqNo + 1, d.pending.value;
    && p.seqNo == next && next in d.files && (forall s :: s in d.files ==> s <= next)
    && var lines := d.files[next].lines;
       && 0 < |lines| && lines[0].HeaderLine? && lines[0].exact && ValidHeader(lines[0].header)
       && lines[0].header.seqNo == next && lines[0].header.run == p.run
  }

  /** The next file is there, though no commit of it, or another one, was under way. */
  predicate Unexplained(d: Disk) {
    && d.committed.Some? && d.committed.value.seqNo + 1 in d.files
    && (d.pending.Some? ==>
          && d.pending.value.seqNo == d.committed.value.seqNo + 1
          && forall s :: s in d.files ==> s <= d.committed.value.seqNo + 1)
  }

  /** The whole table, by what is on disk above the committed number. */
  lemma RecoveryTable(d: Disk)
    ensures var action := EvaluateRecovery(d).1;
      match d.committed
      case None => action == if d.pending.None? && d.files == map[] then FirstActivation else FailClosed
      case Some(_) =>
        && (action == Start <==> d.pending.None? && !Unsettled(d))
        && (action == Repoll <==> d.pending.Some? && !Unsettled(d))
        && (action == FinishCommit <==> d.pending.Some? && CutAfterFile(d))
        && action != FirstActivation
    ensures var (row, action) := EvaluateRecovery(d);
      && 1 <= row <= 8
      && (row == 1 <==> action == Start) && (row == 2 <==> action == FinishCommit)
      && (row == 7 <==> action == FirstActivation)
      && (row in {3, 4} <==> action == Repoll)
      && (row == 4 <==> d.committed.Some? && d.pending.Some? && d.pending.value.seqNo <= d.committed.value.seqNo)
      && (row == 5 <==> d.committed.Some? && d.pending.Some? && d.pending.value.seqNo > d.committed.value.seqNo + 1)
      && (row == 6 <==> action == FailClosed && Unexplained(d))
  {
    if d.committed.Some? {
      var next := d.committed.value.seqNo + 1;
      assert AnyAbove(d.files, next) <==> exists s :: s in d.files && s > next;
    }
  }
}

/**
  The reader as a machine that may lose power between any two durable writes
  (monitor-v2/journal_reader/reader.py).
  */
module JournalReader {
  import opened Prelude
  import opened PowerLoss
  import opened ExchangeSchema
  import opened JournalBatch
  import opened JournalState

  const RETENTION_MAX_FILES := 720
  const RETENTION_MAX_BYTES := 8 * 1024 * 1024

  /** One exchange file as it was written: its name, its header fields, and the journal segment it reports. */
  datatype Written = Written(seqNo: nat, run: nat, epoch: nat, boundary: Boundary, from: nat, to: nat, file: File)

  /**
    The durable world. `log` and `anchors` are history: every exchange file ever
    made durable, in order of writing, and the position each epoch started from.
    */
  datatype World = World(disk: Disk, journal: seq<Entry>, log: seq<Written>, anchors: seq<nat>)

  // ---------------------------------------------------------------- durable writes

  function PutPending(w: World, p: Pending): World {
    w.(disk := w.disk.(pending := Some(p)))
  }

  function DropPending(w: World): World {
    w.(disk := w.disk.(pending := None))
  }

  function PutCommitted(w: World, c: Committed): World {
    w.(disk := w.disk.(committed := Some(c)),
       anchors := if c.epoch > |w.anchors| then w.anchors + [c.source.pos] else w.anchors)
  }

  /** Renames a finished file into place, over whatever held that name. */
  function PutFile(w: World, f: Written): World {
    w.(disk := w.disk.(files := w.disk.files[f.seqNo := f.file]), log := w.log + [f])
  }

  function Unlink(w: World, s: nat): World {
    w.(disk := w.disk.(files := w.disk.files - {s}))
  }

  // ---------------------------------------------------------------- retention

  predicate IsOldest(files: map<nat, File>, s: nat) {
    s in files && forall t :: t in files ==> s <= t
  }

  lemma {:induction false} OldestExists(files: map<nat, File>)
    requires files != map[]
    ensures exists s :: IsOldest(files, s)
  {
    var s :| s in files;
    var rest := files - {s};
    assert forall t :: t in files ==> t == s || t in rest;
    if rest == map[] {
      assert IsOldest(files, s);
    } else {
      OldestExists(rest);
      var t :| IsOldest(rest, t);
      assert IsOldest(files, if s < t then s else t);
    }
  }

  function Oldest(files: map<nat, File>): (s: nat)
    requires files != map[]
    ensures IsOldest(files, s)
  {
    OldestExists(files);
    var s :| IsOldest(files, s);
    s
  }

  function TotalBytes(files: map<nat, File>): nat {
    if files == map[] then 0
    else var s := Oldest(files); files[s].size + TotalBytes(files - {s})
  }

  /** Both ceilings, 720 files and 8 MiB, hold. */
  predicate WithinCeilings(files: map<nat, File>) {
    |files| <= 720 && TotalBytes(files) <= 8_388_608
  }

  predicate OverBound(files: map<nat, File>) {
    files != map[] && (|files| > RETENTION_MAX_FILES || TotalBytes(files) > RETENTION_MAX_BYTES)
  }

  /** Retention: the oldest file goes, one unlink at a time, until both ceilings hold. */
  function Evictions(w: World): seq<World>
    decreases |w.disk.files|
  {
    if !OverBound(w.disk.files) then []
    else
      var next := Unlink(w, Oldest(w.disk.files));
      [next] + Evictions(next)
  }

  lemma OneKey(files: map<nat, File>, s: nat)
    requires s in files && |files| == 1
    ensures files.Keys == {s}
  {
    assert |files.Keys - {s}| == 0;
    assert files.Keys == {s} + (files.Keys - {s});
  }

  /** The bytes of a directory are the sum of its sizes, whichever file is counted first. */
  lemma {:induction false} TotalIsTheSum(files: map<nat, File>, s: nat)
    requires s in files
    ensures TotalBytes(files) == files[s].size + TotalBytes(files - {s})
    ensures |files| == 1 ==> TotalBytes(files) == files[s].size
    decreases |files|
  {
    var o := Oldest(files);
    if |files| == 1 {
      assert files.Keys == {s} by { OneKey(files, s); }
      assert files - {s} == map[];
    } else if s != o {
      TotalIsTheSum(files - {o}, s);
      assert Oldest(files - {s}) == o by { assert o in files - {s}; }
      assert files - {s} - {o} == files - {o} - {s};
    }
  }

  /** No file goes unless one of the two ceilings is passed at that moment, and then it is the lowest numbered one. */
  lemma {:induction false} EvictsOnlyWhenOver(w: World, i: nat)
    requires i < |Evictions(w)|
    ensures var before := if i == 0 then w else Evictions(w)[i - 1];
      && !WithinCeilings(before.disk.files)
      && exists s :: IsOldest(before.disk.files, s) && Evictions(w)[i] == Unlink(before, s)
    decreases i
  {
    var next := Unlink(w, Oldest(w.disk.files));
    assert Evictions(w) == [next] + Evictions(next);
    if i > 0 { EvictsOnlyWhenOver(next, i - 1); }
  }

  /** Where an eviction trace stands: finished, or about to unlink the oldest file. */
  lemma EvictionStep(trace: seq<World>, done: nat, w: World)
    requires done <= |trace| && trace[done..] == Evictions(w)
    ensures !OverBound(w.disk.files) <==> done == |trace|
    ensures OverBound(w.disk.files) ==>
      trace[done] == Unlink(w, Oldest(w.disk.files)) && trace[done + 1..] == Evictions(trace[done])
    ensures OverBound(w.disk.files) ==> |Unlink(w, Oldest(w.disk.files)).disk.files| < |w.disk.files|
  {
    if OverBound(w.disk.files) {
      assert trace[done] == trace[done..][0];
      assert trace[done + 1..] == trace[done..][1..];
    }
  }

  // ---------------------------------------------------------------- the three operations

  /** What a cycle decides from the poll child's outcome (`_finish_cycle`). */
  datatype Disposition = CursorInvalid | SourceUnavailable | EmptyWindow | Commit

  function Dispose(processed: nat, cursorInvalid: bool, truncated: bool, rc: int): Disposition {
    if cursorInvalid then CursorInvalid
    else if processed == 0 then if truncated || rc != 0 then SourceUnavailable else EmptyWindow
    else if rc != 0 && !truncated then SourceUnavailable
    else Commit
  }

  function NextPending(c: Committed, run: nat, processed: nat): Pending {
    Pending(run, c.seqNo + 1, c.epoch, c.boundary, c.source.pos + processed)
  }

  /** The body this reader would export for a segment of the journal. */
  function Export(journal: seq<Entry>, from: nat, p: Pending): Option<seq<Line>>
    requires from <= p.end <= |journal|
  {
    Body(Digest(journal[from..p.end]), p.seqNo, p.run, p.epoch, p.boundary)
  }

  function Rendered(from: nat, p: Pending, lines: seq<Line>, size: nat): Written {
    Written(p.seqNo, p.run, p.epoch, p.boundary, from, p.end, File(lines, size))
  }

  /** Some writes, then retention from where they end. */
  function Swept(w: World, head: seq<World>): seq<World> {
    head + Evictions(Surviving(w, head, |head|))
  }

  /** The commit protocol: pending, exchange file, committed, unlink. */
  function CommitHead(w: World, p: Pending, f: Written): seq<World> {
    var w1 := PutPending(w, p);
    var w2 := PutFile(w1, f);
    var w3 := PutCommitted(w2, Step4(p));
    [w1, w2, w3, DropPending(w3)]
  }

  /** A whole cycle's commit; a body that fails the reader's own validation stops it after pending. */
  function CommitTrace(w: World, c: Committed, run: nat, processed: nat, size: nat): seq<World>
    requires c.source.pos + processed <= |w.journal|
  {
    var p := NextPending(c, run, processed);
    match Export(w.journal, c.source.pos, p)
    case None => [PutPending(w, p)]
    case Some(lines) => Swept(w, CommitHead(w, p, Rendered(c.source.pos, p, lines, size)))
  }

  /** The writes recovery makes before it sweeps. */
  function RecoverHead(w: World, anchor: Source): seq<World> {
    match EvaluateRecovery(w.disk).1
    case FirstActivation => [PutCommitted(w, Committed(0, 1, ColdStart, anchor))]
    case FinishCommit =>
      if w.disk.pending.None? then []
      else
        var w1 := PutCommitted(w, Step4(w.disk.pending.value));
        [w1, DropPending(w1)]
    case Repoll => [DropPending(w)]
    case _ => []
  }

  function StartTrace(w: World, anchor: Source): seq<World> {
    if EvaluateRecovery(w.disk).1 == FailClosed then [] else Swept(w, RecoverHead(w, anchor))
  }

  function ResetTrace(w: World, anchor: Source): seq<World> {
    if w.disk.committed.None? then []
    else
      var c := w.disk.committed.value;
      var renewed := Committed(c.seqNo, c.epoch + 1, SourceGap, anchor);
      match EvaluateRecovery(w.disk).1
      case Repoll => [DropPending(w), PutCommitted(DropPending(w), renewed)]
      case Start => [PutCommitted(w, renewed)]
      case _ => []
  }

  /** Cut before its retention, or in it. */
  lemma SweptSurvives(w: World, head: seq<World>, power: nat)
    ensures Completes(Swept(w, head), power) <==>
      Completes(head, power) && Completes(Evictions(Surviving(w, head, |head|)), power - |head|)
    ensures Surviving(w, Swept(w, head), power) ==
      if Completes(head, power) then
        Surviving(Surviving(w, head, power), Evictions(Surviving(w, head, power)), power - |head|)
      else Surviving(w, head, power)
    ensures Completes(head, power) ==> Surviving(w, head, power) == Surviving(w, head, |head|)
  {
    hide Evictions;
    SurvivingConcat(w, head, Evictions(Surviving(w, head, |head|)), power);
  }

  lemma NoWrites(w: World, power: nat)
    ensures Surviving(w, [], power) == w && Completes<World>([], power)
  {
  }

  lemma StartIsSwept(w: World, anchor: Source)
    ensures StartTrace(w, anchor) ==
      if EvaluateRecovery(w.disk).1 == FailClosed then [] else Swept(w, RecoverHead(w, anchor))
  {
    hide Swept, RecoverHead;
  }

  lemma CommitIsSwept(w: World, c: Committed, run: nat, processed: nat, size: nat)
    requires c.source.pos + processed <= |w.journal|
    ensures var p := NextPending(c, run, processed); var body := Export(w.journal, c.source.pos, p);
      CommitTrace(w, c, run, processed, size) ==
        if body.None? then [PutPending(w, p)]
        else Swept(w, CommitHead(w, p, Rendered(c.source.pos, p, body.value, size)))
  {
    hide Swept, CommitHead, Export;
  }

  lemma OneWrite(w: World, next: World, power: nat)
    ensures Surviving(w, [next], power) == if power > 0 then next else w
    ensures Completes([next], power) <==> power > 0
  {
  }

  // ---------------------------------------------------------------- the in-place form

  /** A poll's output as journalctl prints it: up to its first garbled line, the entries that follow the position. */
  predicate Faithful(output: seq<PollLine>, following: seq<Entry>) {
    forall n :: 0 <= n <= |output| && Intact(output, n) ==> EntriesIn(output, n) <= following
  }

  datatype Outcome = Done | PowerLost | Refused | Failed(why: Disposition) | WriterFailed

  /** What a complete commit of the `n` entries after the committed position leaves, up to retention. */
  predicate Moved(w: World, last: World, run: nat, n: nat, size: nat)
    requires w.disk.committed.Some? && w.disk.committed.value.source.pos + n <= |w.journal|
  {
    var c := w.disk.committed.value;
    var from, to := c.source.pos, c.source.pos + n;
    && last.disk.pending.None?
    && last.disk.committed == Some(Committed(c.seqNo + 1, c.epoch, NoBoundary, Cursor(to)))
    && |last.log| == |w.log| + 1 && last.log[..|w.log|] == w.log && last.journal == w.journal
    && var f := last.log[|w.log|];
       && f == Written(c.seqNo + 1, run, c.epoch, c.boundary, from, to, File(f.file.lines, size))
       && Body(Digest(w.journal[from..to]), c.seqNo + 1, run, c.epoch, c.boundary) == Some(f.file.lines)
  }

  /** A commit of `n` entries: a complete one moves on by exactly them; it fails on a body its validator refuses. */
  predicate Commits(w: World, after: World, out: Outcome, run: nat, n: nat, size: nat, power: nat)
    requires w.disk.committed.Some? && w.disk.committed.value.source.pos + n <= |w.journal|
  {
    var c := w.disk.committed.value;
    var from, to := c.source.pos, c.source.pos + n;
    var body := Body(Digest(w.journal[from..to]), c.seqNo + 1, run, c.epoch, c.boundary);
    && after == Surviving(w, CommitTrace(w, c, run, n, size), power)
    && out in {Done, WriterFailed, PowerLost}
    && (out == PowerLost <==> power < |CommitTrace(w, c, run, n, size)|)
    && (out == WriterFailed ==> body.None?)
    && (out == Done ==> Moved(w, after, run, n, size))
  }

  lemma SurvivingLast(w: World, trace: seq<World>, power: nat)
    requires Completes(trace, power)
    ensures Surviving(w, trace, power) == Surviving(w, trace, |trace|)
      == if trace == [] then w else trace[|trace| - 1]
  {
  }

  /** The writes of a commit, all of them made, put the committed record past exactly the batch. */
  lemma CommitMoves(w: World, c: Committed, run: nat, n: nat, size: nat, power: nat)
    requires w.disk.committed == Some(c) && c.source.pos + n <= |w.journal|
    requires Completes(CommitTrace(w, c, run, n, size), power)
    ensures Export(w.journal, c.source.pos, NextPending(c, run, n)).Some? ==>
      Moved(w, Surviving(w, CommitTrace(w, c, run, n, size), power), run, n, size)
  {
    hide Evictions, Body, Digest, Surviving;
    var p := NextPending(c, run, n);
    var body := Export(w.journal, c.source.pos, p);
    if body.Some? {
      var head := CommitHead(w, p, Rendered(c.source.pos, p, body.value, size));
      SurvivingLast(w, head, |head|);
      EvictionsEnd(head[3]);
      SweptSurvives(w, head, power);
      SurvivingLast(head[3], Evictions(head[3]), power - 4);
    }
  }

  class Reader {
    var w: World
    var power: nat
    const run: nat

    constructor (w: World, run: nat, power: nat)
      ensures this.w == w && this.run == run && this.power == power
    {
      this.w, this.run, this.power := w, run, power;
    }

    /** One durable write, or the power loss instead of it. */
    method Durably(next: World) returns (ok: bool)
      modifies this
      ensures ok == (old(power) > 0)
      ensures ok ==> w == next && power == old(power) - 1
      ensures !ok ==> w == old(w) && power == 0
    {
      ok := power > 0;
      if ok {
        w := next;
        power := power - 1;
      }
    }

    /** `_enforce_retention`. */
    method EnforceRetention() returns (ok: bool)
      modifies this
      ensures w == Surviving(old(w), Evictions(old(w)), old(power))
      ensures ok == Completes(Evictions(old(w)), old(power))
      ensures ok ==> power == old(power) - |Evictions(old(w))|
      ensures ok ==> WithinCeilings(w.disk.files)
      ensures WithinCeilings(old(w.disk.files)) ==> w == old(w) && ok
    {
      ghost var trace := Evictions(w);
      ghost var done := 0;
      ok := true;
      while true
        invariant 0 <= done <= |trace|
        invariant power == old(power) - done
        invariant w == Surviving(old(w), trace, done)
        invariant trace[done..] == Evictions(w)
        decreases |w.disk.files|
      {
        EvictionStep(trace, done, w);
        if !OverBound(w.disk.files) { return; }
        ok := Durably(Unlink(w, Oldest(w.disk.files)));
        if !ok { return; }
        done := done + 1;
      }
    }

    /** The writes of the recovery table's row. */
    method Recover(action: Action, anchor: Source) returns (ok: bool)
      requires action == EvaluateRecovery(w.disk).1 != FailClosed
      modifies this
      ensures w == Surviving(old(w), RecoverHead(old(w), anchor), old(power))
      ensures ok == Completes(RecoverHead(old(w), anchor), old(power))
      ensures ok ==> power == old(power) - |RecoverHead(old(w), anchor)|
      ensures !ok ==> power == 0
    {
      ok := true;
      match action {
        case FirstActivation =>
          ok := Durably(PutCommitted(w, Committed(0, 1, ColdStart, anchor)));
        case FinishCommit =>
          ok := Durably(PutCommitted(w, Step4(w.disk.pending.value)));
          if ok { ok := Durably(DropPending(w)); }
        case Repoll =>
          ok := Durably(DropPending(w));
        case Start =>
      }
    }

    /** `startup`: recovery by the table, then retention. */
    method Startup(anchor: Source) returns (out: Outcome)
      modifies this
      ensures w == Surviving(old(w), StartTrace(old(w), anchor), old(power))
      ensures out == Refused <==> EvaluateRecovery(old(w.disk)).1 == FailClosed
      ensures out == Done ==> Completes(StartTrace(old(w), anchor), old(power)) && WithinCeilings(w.disk.files)
      ensures out == PowerLost ==> !Completes(StartTrace(old(w), anchor), old(power))
      ensures out in {Refused, Done, PowerLost}
    {
      hide *;
      StartIsSwept(w, anchor);
      var (row, action) := EvaluateRecovery(w.disk);
      if action == FailClosed {
        NoWrites(w, power);
        return Refused;
      }
      SweptSurvives(w, RecoverHead(w, anchor), power);
      var ok := Recover(action, anchor);
      if !ok { return PowerLost; }
      ok := EnforceRetention();
      return if ok then Done else PowerLost;
    }

    /** Steps 2 to 5 of the commit protocol. */
    method CommitWrites(p: Pending, f: Written) returns (ok: bool)
      modifies this
      ensures w == Surviving(old(w), CommitHead(old(w), p, f), old(power))
      ensures ok == (old(power) >= 4)
      ensures ok ==> power == old(power) - 4
      ensures !ok ==> power == 0
    {
      ok := Durably(PutPending(w, p));
      if !ok { return; }
      ok := Durably(PutFile(w, f));
      if !ok { return; }
      ok := Durably(PutCommitted(w, Step4(p)));
      if !ok { return; }
      ok := Durably(DropPending(w));
    }

    method CommitAndSweep(p: Pending, f: Written) returns (ok: bool)
      modifies this
      ensures w == Surviving(old(w), Swept(old(w), CommitHead(old(w), p, f)), old(power))
      ensures ok == Completes(Swept(old(w), CommitHead(old(w), p, f)), old(power))
      ensures ok ==> WithinCeilings(w.disk.files)
    {
      SweptSurvives(w, CommitHead(w, p, f), power);
      ok := CommitWrites(p, f);
      if ok { ok := EnforceRetention(); }
    }

    /** `_commit_batch`: the commit protocol for one digested batch, then retention. */
    method CommitBatch(c: Committed, batch: Summary, size: nat) returns (out: Outcome)
      requires c.source.pos + batch.processed <= |w.journal|
      requires batch == Digest(w.journal[c.source.pos..c.source.pos + batch.processed])
      modifies this
      ensures w == Surviving(old(w), CommitTrace(old(w), c, run, batch.processed, size), old(power))
      ensures out == Done ==>
        && Export(old(w.journal), c.source.pos, NextPending(c, run, batch.processed)).Some?
        && Completes(CommitTrace(old(w), c, run, batch.processed, size), old(power)) && WithinCeilings(w.disk.files)
      ensures out == WriterFailed ==> Export(old(w.journal), c.source.pos, NextPending(c, run, batch.processed)).None?
      ensures out == PowerLost <==> !Completes(CommitTrace(old(w), c, run, batch.processed, size), old(power))
      ensures out in {Done, WriterFailed, PowerLost}
    {
      hide Body, Digest, CommitTrace, Swept, CommitHead, Surviving, Completes, Evictions;
      CommitIsSwept(w, c, run, batch.processed, size);
      var p := NextPending(c, run, batch.processed);
      var body := Body(batch, p.seqNo, p.run, p.epoch, p.boundary);
      assert body == Export(w.journal, c.source.pos, p);
      if body.None? {
        OneWrite(w, PutPending(w, p), power);
        var ok := Durably(PutPending(w, p));
        return if ok then WriterFailed else PowerLost;
      }
      var ok := CommitAndSweep(p, Rendered(c.source.pos, p, body.value, size));
      return if ok then Done else PowerLost;
    }

    /** `_finish_cycle`: what becomes of a batch, by how the poll ended. */
    method FinishCycle(s: Summary, cursorInvalid: bool, truncated: bool, rc: int, size: nat) returns (out: Outcome)
      requires w.disk.committed.Some? && w.disk.committed.value.source.pos + s.processed <= |w.journal|
      requires var from := w.disk.committed.value.source.pos; s == Digest(w.journal[from..from + s.processed])
      modifies this
      ensures cursorInvalid ==> w == old(w) && out == Failed(CursorInvalid)
      ensures !cursorInvalid && s.processed == 0 ==>
        w == old(w) && out == if rc == 0 && !truncated then Done else Failed(SourceUnavailable)
      ensures !cursorInvalid && s.processed > 0 && rc != 0 && !truncated ==>
        w == old(w) && out == Failed(SourceUnavailable)
      ensures !cursorInvalid && s.processed > 0 && (rc == 0 || truncated) ==>
        Commits(old(w), w, out, run, s.processed, size, old(power))
    {
      hide CommitTrace, Surviving, Digest, Body;
      match Dispose(s.processed, cursorInvalid, truncated, rc) {
        case EmptyWindow => out := Done;
        case Commit =>
          var c := w.disk.committed.value;
          ghost var trace := CommitTrace(w, c, run, s.processed, size);
          if Completes(trace, power) { CommitMoves(w, c, run, s.processed, size, power); }
          out := CommitBatch(c, s, size);
        case CursorInvalid => out := Failed(CursorInvalid);
        case SourceUnavailable => out := Failed(SourceUnavailable);
      }
    }

    /**
      `run_cycle`: poll, digest, decide, commit. The child prints journal entries
      after the committed position, in order, until the first line it garbles. With `n`
      the entries before where reading stops, only a poll that located some and did not
      fail after them is committed, and then all of them and no more.
      */
    method RunCycle(output: seq<PollLine>, rc: int, size: nat)
      returns (out: Outcome, ghost cursorInvalid: bool, ghost truncated: bool, ghost n: nat)
      requires w.disk.committed.Some? && w.disk.committed.value.source.pos <= |w.journal|
      requires Faithful(output, w.journal[w.disk.committed.value.source.pos..])
      modifies this
      ensures exists upTo :: PollEnds(output, upTo, cursorInvalid, truncated) && n == |EntriesIn(output, upTo)|
      ensures cursorInvalid ==> w == old(w) && out == Failed(CursorInvalid)
      ensures !cursorInvalid && n == 0 ==>
        w == old(w) && out == if rc == 0 && !truncated then Done else Failed(SourceUnavailable)
      ensures !cursorInvalid && n > 0 && rc != 0 && !truncated ==> w == old(w) && out == Failed(SourceUnavailable)
      ensures old(w.disk.committed.value.source.pos) + n <= |old(w.journal)|
      ensures !cursorInvalid && n > 0 && (rc == 0 || truncated) ==>
        Commits(old(w), w, out, run, n, size, old(power))
      ensures IsStep(old(w), w, out, run, Cycle(n, cursorInvalid, truncated, rc, size, old(power)))
    {
      hide EntriesIn, Digest;
      var c := w.disk.committed.value;
      var s, upTo, invalid, capped := Poll(output);
      cursorInvalid, truncated, n := invalid, capped, s.processed;
      assert w.journal[c.source.pos..c.source.pos + s.processed] == EntriesIn(output, upTo);
      ghost var before, had := w, power;
      out := FinishCycle(s, invalid, capped, rc, size);
      CycleIsStep(before, w, out, run, Cycle(n, cursorInvalid, truncated, rc, size, had));
    }

    /** The poll's output, read and digested. */
    method Poll(output: seq<PollLine>) returns (s: Summary, upTo: nat, cursorInvalid: bool, truncated: bool)
      ensures PollEnds(output, upTo, cursorInvalid, truncated)
      ensures s == Digest(EntriesIn(output, upTo)) && s.processed == |EntriesIn(output, upTo)|
    {
      var batch := new Batch();
      upTo, truncated := batch.Consume(output);
      s, cursorInvalid := batch.View(), batch.cursorInvalid;
      DigestConserves(EntriesIn(output, upTo));
    }

    /** `reset_from_now`: the operator's epoch transition, refused while a batch is in flight. */
    method ResetFromNow(anchor: Source) returns (out: Outcome)
      modifies this
      ensures w == Surviving(old(w), ResetTrace(old(w), anchor), old(power))
      ensures out == Refused <==> old(w.disk.committed).None? || Unsettled(old(w.disk))
      ensures out == Refused ==> w == old(w)
      ensures out == Done ==> Completes(ResetTrace(old(w), anchor), old(power))
      ensures out == PowerLost ==> !Completes(ResetTrace(old(w), anchor), old(power))
      ensures out == Done ==>
        var c := old(w.disk.committed.value);
        && w.disk.committed == Some(Committed(c.seqNo, c.epoch + 1, SourceGap, anchor)) && w.disk.pending.None?
        && w.disk.files == old(w.disk.files) && w.log == old(w.log) && w.journal == old(w.journal)
      ensures out in {Refused, Done, PowerLost}
    {
      RecoveryTable(w.disk);
      if w.disk.committed.None? { return Refused; }
      var c := w.disk.committed.value;
      var (row, action) := EvaluateRecovery(w.disk);
      if action == Repoll && w.disk.pending.Some? {
        var ok := Durably(DropPending(w));
        if !ok { return PowerLost; }
        action := Start;
      }
      if action != Start || w.disk.pending.Some? { return Refused; }
      var ok := Durably(PutCommitted(w, Committed(c.seqNo, c.epoch + 1, SourceGap, anchor)));
      return if ok then Done else PowerLost;
    }
  }

  // ---------------------------------------------------------------- whole runs

  /** One event in the life of the machine; `power` is how many durable writes that process survives. */
  datatype Op =
    | Grow(more: seq<Entry>)
    | Boot(run: nat, anchor: Source, power: nat)
    | Cycle(processed: nat, cursorInvalid: bool, truncated: bool, rc: int, size: nat, power: nat)
    | Reset(anchor: Source, power: nat)
    | Die

  /** `up` is the running service's run id; a reset needs the service stopped. */
  datatype Machine = Machine(world: World, up: Option<nat>)

  function CycleStep(m: Machine, op: Op): Machine
    requires op.Cycle?
  {
    var w := m.world;
    if m.up.None? || w.disk.committed.None? then m
    else
      var c := w.disk.committed.value;
      match Dispose(op.processed, op.cursorInvalid, op.truncated, op.rc)
      case EmptyWindow => m
      case Commit =>
        if c.source.pos + op.processed > |w.journal| then m
        else
          var trace := CommitTrace(w, c, m.up.value, op.processed, op.size);
          var exported := Export(w.journal, c.source.pos, NextPending(c, m.up.value, op.processed)).Some?;
          Machine(Surviving(w, trace, op.power), if exported && Completes(trace, op.power) then m.up else None)
      case _ => m.(up := None)
  }

  /** What a cycle left and how it ended is one step of the machine. */
  predicate IsStep(w: World, after: World, out: Outcome, run: nat, op: Op)
    requires op.Cycle?
  {
    var m := CycleStep(Machine(w, Some(run)), op);
    after == m.world && (out == Done <==> m.up.Some?)
  }

  lemma CycleIsStep(w: World, after: World, out: Outcome, run: nat, op: Op)
    requires op.Cycle? && w.disk.committed.Some? && w.disk.committed.value.source.pos + op.processed <= |w.journal|
    requires op.cursorInvalid ==> after == w && out == Failed(CursorInvalid)
    requires !op.cursorInvalid && op.processed == 0 ==>
      after == w && out == if op.rc == 0 && !op.truncated then Done else Failed(SourceUnavailable)
    requires !op.cursorInvalid && op.processed > 0 && op.rc != 0 && !op.truncated ==>
      after == w && out == Failed(SourceUnavailable)
    requires !op.cursorInvalid && op.processed > 0 && (op.rc == 0 || op.truncated) ==>
      Commits(w, after, out, run, op.processed, op.size, op.power)
    ensures IsStep(w, after, out, run, op)
  {
    hide CommitTrace, Digest, Body;
  }

  /** An operation the environment cannot offer (a poll past the journal's end, a second service) changes nothing. */
  function Step(m: Machine, op: Op): Machine {
    var w := m.world;
    match op
    case Grow(more) => m.(world := w.(journal := w.journal + more))
    case Die => m.(up := None)
    case Cycle(_, _, _, _, _, _) => CycleStep(m, op)
    case Boot(run, anchor, power) =>
      if m.up.Some? || anchor.pos > |w.journal| then m
      else
        var trace := StartTrace(w, anchor);
        Machine(Surviving(w, trace, power),
                if EvaluateRecovery(w.disk).1 != FailClosed && Completes(trace, power) then Some(run) else None)
    case Reset(anchor, power) =>
      if m.up.Some? || anchor.pos > |w.journal| then m
      else m.(world := Surviving(w, ResetTrace(w, anchor), power))
  }

  const BLANK := World(Disk(None, None, map[]), [], [], [])

  function Run(ops: seq<Op>): Machine {
    if ops == [] then Machine(BLANK, None)
    else Step(Run(ops[..|ops| - 1]), ops[|ops| - 1])
  }

  // ---------------------------------------------------------------- what every durable state satisfies

  function Marker(epoch: nat): Boundary {
    if epoch == 1 then ColdStart else SourceGap
  }

  /** File `i` reports a non-empty segment that starts where its predecessor in the epoch ended, or at the anchor. */
  predicate Linked(journal: seq<Entry>, anchors: seq<nat>, log: seq<Written>, i: nat)
    requires i < |log|
  {
    var f := log[i];
    && f.seqNo == i + 1
    && 1 <= f.epoch <= |anchors|
    && f.from < f.to <= |journal|
    && Body(Digest(journal[f.from..f.to]), f.seqNo, f.run, f.epoch, f.boundary) == Some(f.file.lines)
    && (i > 0 ==> log[i - 1].epoch <= f.epoch)
    && (if i > 0 && log[i - 1].epoch == f.epoch
        then f.from == log[i - 1].to && f.boundary == NoBoundary
        else f.from == anchors[f.epoch - 1] && f.boundary == Marker(f.epoch))
  }

  predicate Chained(journal: seq<Entry>, anchors: seq<nat>, log: seq<Written>) {
    && (forall i :: 0 <= i < |log| ==> Linked(journal, anchors, log, i))
    && (forall e :: 0 <= e < |anchors| ==> anchors[e] <= |journal|)
  }

  /** The directory holds the newest files of the log, unchanged. */
  predicate Kept(files: map<nat, File>, log: seq<Written>) {
    && (forall s :: s in files ==> 1 <= s <= |log| && files[s] == log[s - 1].file)
    && (forall s :: s in files && s < |log| ==> s + 1 in files)
  }

  /** The committed record stands at the end of the last settled file of its epoch, or at the epoch's anchor. */
  predicate Stands(anchors: seq<nat>, log: seq<Written>, c: Committed) {
    && c.epoch == |anchors| >= 1
    && c.seqNo <= |log|
    && (c.seqNo > 0 ==> log[c.seqNo - 1].epoch <= c.epoch)
    && (if c.seqNo > 0 && log[c.seqNo - 1].epoch == c.epoch
        then c.source == Cursor(log[c.seqNo - 1].to) && c.boundary == NoBoundary
        else c.source.pos == anchors[c.epoch - 1] && c.boundary == Marker(c.epoch))
  }

  /** The pending record, if any, is stale or announces exactly the batch after the committed one. */
  predicate Announced(w: World, c: Committed) {
    match w.disk.pending
    case None => |w.log| == c.seqNo
    case Some(p) =>
      if p.seqNo == c.seqNo then |w.log| == c.seqNo
      else
        && p.seqNo == c.seqNo + 1 && p.epoch == c.epoch && p.boundary == c.boundary
        && c.source.pos < p.end <= |w.journal|
        && (|w.log| == c.seqNo ||
            (|w.log| == p.seqNo && p.seqNo in w.disk.files
             && var f := w.log[c.seqNo];
                f == Rendered(c.source.pos, p, f.file.lines, f.file.size)))
  }

  predicate Inv(w: World) {
    && Chained(w.journal, w.anchors, w.log)
    && Kept(w.disk.files, w.log)
    && match w.disk.committed
       case None => w.disk == BLANK.disk && w.log == [] && w.anchors == []
       case Some(c) => Stands(w.anchors, w.log, c) && Announced(w, c)
  }

  // ---------------------------------------------------------------- each durable write keeps the invariant

  lemma PutPendingKeeps(w: World, c: Committed, run: nat, n: nat)
    requires Inv(w) && w.disk.committed == Some(c) && w.disk.pending.None?
    requires 0 < n && c.source.pos + n <= |w.journal|
    ensures Inv(PutPending(w, NextPending(c, run, n)))
  {
  }

  lemma ChainedExtends(journal: seq<Entry>, anchors: seq<nat>, log: seq<Written>, f: Written)
    requires Chained(journal, anchors, log)
    requires Linked(journal, anchors, log + [f], |log|)
    ensures Chained(journal, anchors, log + [f])
  {
    forall i | 0 <= i < |log| ensures Linked(journal, anchors, log + [f], i) {
      assert Linked(journal, anchors, log, i);
    }
  }

  lemma PutFileKeeps(w: World, c: Committed, p: Pending, lines: seq<Line>, size: nat)
    requires Inv(w) && w.disk.committed == Some(c) && w.disk.pending == Some(p)
    requires p.seqNo == c.seqNo + 1 && |w.log| == c.seqNo
    requires Export(w.journal, c.source.pos, p) == Some(lines)
    ensures Inv(PutFile(w, Rendered(c.source.pos, p, lines, size)))
    ensures p.seqNo !in w.disk.files
  {
    hide Body, Digest;
    ChainedExtends(w.journal, w.anchors, w.log, Rendered(c.source.pos, p, lines, size));
  }

  lemma Step4Keeps(w: World, c: Committed, p: Pending)
    requires Inv(w) && w.disk.committed == Some(c) && w.disk.pending == Some(p)
    requires p.seqNo == c.seqNo + 1 && |w.log| == p.seqNo
    ensures Inv(PutCommitted(w, Step4(p)))
  {
  }

  lemma DropPendingKeeps(w: World, c: Committed)
    requires Inv(w) && w.disk.committed == Some(c) && |w.log| == c.seqNo
    ensures Inv(DropPending(w))
  {
  }

  /** A fresh epoch (first activation, or the operator's reset) keeps the invariant at any anchor. */
  lemma NewEpochKeeps(w: World, seqNo: nat, anchor: Source)
    requires Inv(w) && anchor.pos <= |w.journal| && w.disk.pending.None?
    requires seqNo == match w.disk.committed case None => 0 case Some(c) => c.seqNo
    ensures var epoch := |w.anchors| + 1;
      Inv(PutCommitted(w, Committed(seqNo, epoch, Marker(epoch), anchor)))
  {
    var anchors := w.anchors + [anchor.pos];
    forall i | 0 <= i < |w.log| ensures Linked(w.journal, anchors, w.log, i) {
      assert Linked(w.journal, w.anchors, w.log, i);
    }
    if w.log != [] { assert Linked(w.journal, w.anchors, w.log, |w.log| - 1); }
  }

  lemma UnlinkKeeps(w: World)
    requires Inv(w) && w.disk.pending.None? && w.disk.files != map[]
    ensures Inv(Unlink(w, Oldest(w.disk.files)))
  {
  }

  lemma GrowKeeps(w: World, more: seq<Entry>)
    requires Inv(w)
    ensures Inv(w.(journal := w.journal + more))
  {
    var journal := w.journal + more;
    forall i | 0 <= i < |w.log| ensures Linked(journal, w.anchors, w.log, i) {
      assert Linked(w.journal, w.anchors, w.log, i);
      SliceOfPrefix(w.journal, more, w.log[i].from, w.log[i].to);
    }
  }

  lemma SliceOfPrefix(a: seq<Entry>, b: seq<Entry>, from: nat, to: nat)
    requires from <= to <= |a|
    ensures (a + b)[from..to] == a[from..to]
  {
  }

  // ---------------------------------------------------------------- each operation keeps it at every write

  ghost predicate AllInv(trace: seq<World>) {
    forall i :: 0 <= i < |trace| ==> Inv(trace[i])
  }

  lemma {:induction false} EvictionsAllKeep(w: World)
    requires Inv(w) && w.disk.pending.None?
    ensures AllInv(Evictions(w))
    decreases |w.disk.files|
  {
    if OverBound(w.disk.files) {
      UnlinkKeeps(w);
      EvictionsAllKeep(Unlink(w, Oldest(w.disk.files)));
    }
  }

  lemma {:induction false} EvictionsEnd(w: World)
    ensures var last := Surviving(w, Evictions(w), |Evictions(w)|);
      && last.disk.pending == w.disk.pending && last.disk.committed == w.disk.committed
      && WithinCeilings(last.disk.files)
      && last.log == w.log && last.anchors == w.anchors && last.journal == w.journal
    decreases |w.disk.files|
  {
    if OverBound(w.disk.files) {
      var next := Unlink(w, Oldest(w.disk.files));
      EvictionsEnd(next);
      SurvivingAll(w, next, Evictions(next));
    }
  }

  lemma EvictionsKeep(w: World)
    requires Inv(w) && w.disk.pending.None?
    ensures AllInv(Evictions(w))
    ensures var last := Surviving(w, Evictions(w), |Evictions(w)|);
      && last.disk.pending.None? && last.disk.committed == w.disk.committed
      && WithinCeilings(last.disk.files)
      && last.log == w.log && last.anchors == w.anchors && last.journal == w.journal
  {
    EvictionsAllKeep(w);
    EvictionsEnd(w);
  }

  lemma SweptKeeps(w: World, head: seq<World>)
    requires Inv(w) && AllInv(head)
    requires Surviving(w, head, |head|).disk.pending.None?
    ensures AllInv(Swept(w, head))
    ensures var last := Surviving(w, Swept(w, head), |Swept(w, head)|);
      last.disk.pending.None? && last.disk.committed == Surviving(w, head, |head|).disk.committed
      && WithinCeilings(last.disk.files)
  {
    var middle := Surviving(w, head, |head|);
    EvictionsKeep(middle);
    SurvivingConcat(w, head, Evictions(middle), |Swept(w, head)|);
  }

  lemma CommitKeeps(w: World, c: Committed, run: nat, n: nat, size: nat)
    requires Inv(w) && w.disk.committed == Some(c) && w.disk.pending.None?
    requires 0 < n && c.source.pos + n <= |w.journal|
    ensures AllInv(CommitTrace(w, c, run, n, size))
    ensures Export(w.journal, c.source.pos, NextPending(c, run, n)).Some? ==>
      var last := Surviving(w, CommitTrace(w, c, run, n, size), |CommitTrace(w, c, run, n, size)|);
      last.disk.pending.None? && last.disk.committed.Some? && WithinCeilings(last.disk.files)
  {
    hide Chained, Kept, Body, Digest, Evictions, OverBound, Export;
    var p := NextPending(c, run, n);
    PutPendingKeeps(w, c, run, n);
    var w1 := PutPending(w, p);
    var body := Export(w.journal, c.source.pos, p);
    if body.Some? {
      var f := Rendered(c.source.pos, p, body.value, size);
      PutFileKeeps(w1, c, p, body.value, size);
      Step4Keeps(PutFile(w1, f), c, p);
      DropPendingKeeps(PutCommitted(PutFile(w1, f), Step4(p)), Step4(p));
      SweptKeeps(w, CommitHead(w, p, f));
    }
  }

  /** Only the rows a crash can explain are ever reached. */
  lemma RecoverableRows(w: World)
    requires Inv(w)
    ensures EvaluateRecovery(w.disk).0 in {1, 2, 3, 4, 7}
    ensures EvaluateRecovery(w.disk).1 != FailClosed
    ensures EvaluateRecovery(w.disk).1 == FirstActivation <==> w.disk.committed.None?
    ensures EvaluateRecovery(w.disk).1 == Start <==> w.disk.committed.Some? && w.disk.pending.None?
    ensures EvaluateRecovery(w.disk).1 == FinishCommit ==>
      w.disk.pending.Some? && |w.log| == w.disk.pending.value.seqNo == w.disk.committed.value.seqNo + 1
    ensures EvaluateRecovery(w.disk).1 == Repoll ==> |w.log| == w.disk.committed.value.seqNo
  {
    if w.disk.committed.Some? && w.disk.pending.Some? {
      var c, p := w.disk.committed.value, w.disk.pending.value;
      if p.seqNo == c.seqNo + 1 && p.seqNo in w.disk.files {
        assert Linked(w.journal, w.anchors, w.log, c.seqNo);
      }
    }
  }

  lemma RecoverKeeps(w: World, anchor: Source)
    requires Inv(w) && anchor.pos <= |w.journal|
    ensures AllInv(RecoverHead(w, anchor))
    ensures var last := Surviving(w, RecoverHead(w, anchor), |RecoverHead(w, anchor)|);
      last.disk.committed.Some? && last.disk.pending.None?
  {
    RecoverableRows(w);
    match EvaluateRecovery(w.disk).1 {
      case FirstActivation =>
        NewEpochKeeps(w, 0, anchor);
      case FinishCommit =>
        var p := w.disk.pending.value;
        Step4Keeps(w, w.disk.committed.value, p);
        DropPendingKeeps(PutCommitted(w, Step4(p)), Step4(p));
      case Repoll =>
        DropPendingKeeps(w, w.disk.committed.value);
      case Start =>
    }
  }

  lemma StartKeeps(w: World, anchor: Source)
    requires Inv(w) && anchor.pos <= |w.journal|
    ensures AllInv(StartTrace(w, anchor))
    ensures var last := Surviving(w, StartTrace(w, anchor), |StartTrace(w, anchor)|);
      && last.disk.committed.Some? && last.disk.pending.None?
      && WithinCeilings(last.disk.files)
  {
    RecoverableRows(w);
    RecoverKeeps(w, anchor);
    SweptKeeps(w, RecoverHead(w, anchor));
  }

  lemma ResetKeeps(w: World, anchor: Source)
    requires Inv(w) && anchor.pos <= |w.journal|
    ensures AllInv(ResetTrace(w, anchor))
  {
    RecoverableRows(w);
    if w.disk.committed.Some? {
      var c := w.disk.committed.value;
      if EvaluateRecovery(w.disk).1 == Repoll {
        DropPendingKeeps(w, c);
        NewEpochKeeps(DropPending(w), c.seqNo, anchor);
      } else if EvaluateRecovery(w.disk).1 == Start {
        NewEpochKeeps(w, c.seqNo, anchor);
      }
    }
  }

  // ---------------------------------------------------------------- theorems over whole runs

  predicate RunningInv(m: Machine) {
    && Inv(m.world)
    && (m.up.Some? ==> m.world.disk.committed.Some? && m.world.disk.pending.None?)
  }

  lemma SurvivorsAreSound(w: World, trace: seq<World>, power: nat)
    requires Inv(w) && AllInv(trace)
    ensures Inv(Surviving(w, trace, power))
    ensures Completes(trace, power) ==> Surviving(w, trace, power) == Surviving(w, trace, |trace|)
  {
  }

  lemma CycleKeeps(m: Machine, op: Op)
    requires RunningInv(m) && op.Cycle?
    ensures RunningInv(CycleStep(m, op))
  {
    if m.up.Some? && Dispose(op.processed, op.cursorInvalid, op.truncated, op.rc) == Commit {
      var w, c := m.world, m.world.disk.committed.value;
      if c.source.pos + op.processed <= |w.journal| {
        CommitKeeps(w, c, m.up.value, op.processed, op.size);
        SurvivorsAreSound(w, CommitTrace(w, c, m.up.value, op.processed, op.size), op.power);
      }
    }
  }

  lemma StepKeeps(m: Machine, op: Op)
    requires RunningInv(m)
    ensures RunningInv(Step(m, op))
  {
    var w := m.world;
    match op {
      case Grow(more) => GrowKeeps(w, more);
      case Die =>
      case Boot(run, anchor, power) =>
        if anchor.pos <= |w.journal| { StartKeeps(w, anchor); }
      case Reset(anchor, power) =>
        if anchor.pos <= |w.journal| { ResetKeeps(w, anchor); }
      case Cycle(_, _, _, _, _, _) => CycleKeeps(m, op);
    }
  }

  /** Every durable state any history can leave behind satisfies the invariant. */
  lemma {:induction false} RunKeeps(ops: seq<Op>)
    ensures RunningInv(Run(ops))
  {
    if ops != [] {
      RunKeeps(ops[..|ops| - 1]);
      StepKeeps(Run(ops[..|ops| - 1]), ops[|ops| - 1]);
    }
  }

  /** A history of crashes alone never reaches a fail-closed row. */
  lemma CrashesAreAlwaysRecoverable(ops: seq<Op>)
    ensures EvaluateRecovery(Run(ops).world.disk).0 in {1, 2, 3, 4, 7}
    ensures EvaluateRecovery(Run(ops).world.disk).1 != FailClosed
  {
    RunKeeps(ops);
    RecoverableRows(Run(ops).world);
  }

  /**
    One completed startup settles everything: no pending record, no file above the committed number,
    both ceilings met.
    */
  lemma CompletedStartupSettles(ops: seq<Op>, run: nat, anchor: Source, power: nat)
    ensures var m := Run(ops);
      m.up.None? && anchor.pos <= |m.world.journal| && Completes(StartTrace(m.world, anchor), power) ==>
      Settles(Step(m, Boot(run, anchor, power)), run)
  {
    RunKeeps(ops);
    var m := Run(ops);
    if m.up.None? && anchor.pos <= |m.world.journal| && Completes(StartTrace(m.world, anchor), power) {
      StartupSettles(m, run, anchor, power);
    }
  }

  lemma ResetFrom(m: Machine, anchor: Source, power: nat)
    requires RunningInv(m) && m.up.None? && m.world.disk.committed.Some?
    requires anchor.pos <= |m.world.journal| && 2 <= power
    ensures var c, d := m.world.disk.committed.value, m.world.disk;
      Step(m, Op.Reset(anchor, power)).world ==
        if c.seqNo + 1 in d.files then m.world
        else PutCommitted(m.world.(disk := d.(pending := None)), Committed(c.seqNo, c.epoch + 1, SourceGap, anchor))
  {
    RecoverableRows(m.world);
    RecoveryTable(m.world.disk);
  }

  /**
    After any history the operator's reset, with power for its writes, starts the next epoch at the anchor,
    unless a finished file waits to be committed; then it changes nothing.
    */
  lemma ResetStartsAnEpoch(ops: seq<Op>, anchor: Source, power: nat)
    ensures var m := Run(ops);
      m.up.None? && m.world.disk.committed.Some? && anchor.pos <= |m.world.journal| && 2 <= power ==>
      var c, d := m.world.disk.committed.value, m.world.disk;
      Step(m, Op.Reset(anchor, power)).world ==
        if c.seqNo + 1 in d.files then m.world
        else PutCommitted(m.world.(disk := d.(pending := None)), Committed(c.seqNo, c.epoch + 1, SourceGap, anchor))
  {
    hide *;
    RunKeeps(ops);
    var m := Run(ops);
    if m.up.None? && m.world.disk.committed.Some? && anchor.pos <= |m.world.journal| && 2 <= power {
      ResetFrom(m, anchor, power);
    }
  }

  predicate Settles(m: Machine, run: nat) {
    var d := m.world.disk;
    && m.up == Some(run)
    && d.committed.Some? && d.pending.None?
    && (forall s :: s in d.files ==> s <= d.committed.value.seqNo)
    && WithinCeilings(d.files)
  }

  lemma StartupSettles(m: Machine, run: nat, anchor: Source, power: nat)
    requires RunningInv(m) && m.up.None? && anchor.pos <= |m.world.journal| &&
      Completes(StartTrace(m.world, anchor), power)
    ensures Settles(Step(m, Boot(run, anchor, power)), run)
  {
    RecoverableRows(m.world);
    StartKeeps(m.world, anchor);
    StepKeeps(m, Boot(run, anchor, power));
  }

  /** The stretch of journal a file reports. */
  function Segment(journal: seq<Entry>, f: Written): seq<Entry> {
    if f.from <= f.to <= |journal| then journal[f.from..f.to] else []
  }

  /** The journal entries the first `n` files written report for one epoch, in order. */
  function Reported(w: World, epoch: nat, n: nat): seq<Entry>
    requires n <= |w.log|
  {
    if n == 0 then []
    else Reported(w, epoch, n - 1) + if w.log[n - 1].epoch == epoch then Segment(w.journal, w.log[n - 1]) else []
  }

  /** Where the first `n` files leave off in an epoch: the end of its last file, or its anchor. */
  function LeftOff(w: World, epoch: nat, n: nat): nat
    requires n <= |w.log| && 1 <= epoch <= |w.anchors|
  {
    if n == 0 then w.anchors[epoch - 1]
    else if w.log[n - 1].epoch == epoch then w.log[n - 1].to
    else LeftOff(w, epoch, n - 1)
  }

  lemma {:induction false} EpochsAscend(w: World, i: nat, j: nat)
    requires Chained(w.journal, w.anchors, w.log) && i <= j < |w.log|
    ensures w.log[i].epoch <= w.log[j].epoch
  {
    if i < j {
      EpochsAscend(w, i, j - 1);
      assert Linked(w.journal, w.anchors, w.log, j);
    }
  }

  /** An epoch with no file among the first `n` has left off at its anchor. */
  lemma {:induction false} UntouchedEpoch(w: World, epoch: nat, n: nat)
    requires n <= |w.log| && 1 <= epoch <= |w.anchors|
    requires forall i :: 0 <= i < n ==> w.log[i].epoch != epoch
    ensures LeftOff(w, epoch, n) == w.anchors[epoch - 1]
  {
    if n > 0 { UntouchedEpoch(w, epoch, n - 1); }
  }

  lemma {:induction false} ReportedIsContiguous(w: World, epoch: nat, n: nat)
    requires Chained(w.journal, w.anchors, w.log) && n <= |w.log| && 1 <= epoch <= |w.anchors|
    ensures w.anchors[epoch - 1] <= LeftOff(w, epoch, n) <= |w.journal|
    ensures Reported(w, epoch, n) == w.journal[w.anchors[epoch - 1]..LeftOff(w, epoch, n)]
  {
    hide Chained;
    if n == 0 {
      AnchorsInside(w, epoch);
    } else {
      ReportedIsContiguous(w, epoch, n - 1);
      var f := w.log[n - 1];
      if f.epoch == epoch {
        TakesUpWhereLeft(w, n - 1);
        Adjacent(w.journal, w.anchors[epoch - 1], f.from, f.to);
      }
    }
  }

  lemma LeftOffAtLast(w: World, n: nat)
    requires 0 < n <= |w.log| && 1 <= w.log[n - 1].epoch <= |w.anchors|
    ensures LeftOff(w, w.log[n - 1].epoch, n) == w.log[n - 1].to
  {
  }

  lemma AnchorsInside(w: World, epoch: nat)
    requires Chained(w.journal, w.anchors, w.log) && 1 <= epoch <= |w.anchors|
    ensures w.anchors[epoch - 1] <= |w.journal|
  {
  }

  lemma Adjacent(s: seq<Entry>, a: nat, b: nat, c: nat)
    requires a <= b <= c <= |s|
    ensures s[a..b] + s[b..c] == s[a..c]
  {
  }

  /** A file reports from where the files before it leave off in its epoch. */
  lemma TakesUpWhereLeft(w: World, n: nat)
    requires Chained(w.journal, w.anchors, w.log) && n < |w.log|
    ensures var f := w.log[n];
      1 <= f.epoch <= |w.anchors| && f.from == LeftOff(w, f.epoch, n) && f.from < f.to <= |w.journal|
  {
    hide Body, Digest, LeftOff;
    var f := w.log[n];
    assert Linked(w.journal, w.anchors, w.log, n);
    if n == 0 || w.log[n - 1].epoch != f.epoch {
      if n > 0 { EpochsUpTo(w, n - 1); }
      UntouchedEpoch(w, f.epoch, n);
    } else {
      LeftOffAtLast(w, n);
    }
  }

  /**
    Exactly-once coverage. In any history, the files an epoch's cycles wrote
    report, taken together in order, precisely the journal from the epoch's
    anchor to where it left off: every entry once, none skipped, none repeated.
    The committed source stands exactly where the settled files leave off.
    */
  lemma ExactlyOnceCoverage(ops: seq<Op>, w: World, epoch: nat)
    requires w == Run(ops).world && 1 <= epoch <= |w.anchors|
    ensures w.anchors[epoch - 1] <= LeftOff(w, epoch, |w.log|) <= |w.journal|
    ensures Reported(w, epoch, |w.log|) == w.journal[w.anchors[epoch - 1]..LeftOff(w, epoch, |w.log|)]
    ensures w.disk.committed.Some?
    ensures var c := w.disk.committed.value;
      && c.epoch == |w.anchors| && c.seqNo <= |w.log| <= c.seqNo + 1
      && c.source.pos == LeftOff(w, c.epoch, c.seqNo)
  {
    RunKeeps(ops);
    ReportedIsContiguous(w, epoch, |w.log|);
    CommittedLeavesOff(w, w.disk.committed.value);
  }

  lemma CommittedLeavesOff(w: World, c: Committed)
    requires Inv(w) && w.disk.committed == Some(c)
    ensures c.source.pos == LeftOff(w, c.epoch, c.seqNo)
  {
    if c.seqNo == 0 || w.log[c.seqNo - 1].epoch != c.epoch {
      forall i | 0 <= i < c.seqNo ensures w.log[i].epoch != c.epoch { EpochsAscend(w, i, c.seqNo - 1); }
      UntouchedEpoch(w, c.epoch, c.seqNo);
    }
  }

  /** No name is ever written twice, so a durable file is never rewritten; it is only, at most, evicted. */
  lemma FilesAreWrittenOnce(ops: seq<Op>, w: World, s: nat)
    requires w == Run(ops).world && s in w.disk.files
    ensures 1 <= s <= |w.log| && w.disk.files[s] == w.log[s - 1].file
    ensures forall i :: 0 <= i < |w.log| ==> (w.log[i].seqNo == s <==> i == s - 1)
  {
    RunKeeps(ops);
    forall i | 0 <= i < |w.log| ensures w.log[i].seqNo == i + 1 {
      assert Linked(w.journal, w.anchors, w.log, i);
    }
  }

  /**
    The boundary marker appears exactly once per epoch: on its first file, cold
    start for epoch one and a source gap for every later one; along the files
    epochs never go back.
    */
  lemma BoundaryMarkedOnce(ops: seq<Op>, w: World, i: nat)
    requires w == Run(ops).world && i < |w.log|
    ensures forall k :: 0 <= k < i ==> w.log[k].epoch <= w.log[i].epoch
    ensures w.log[i].boundary ==
      if exists k :: 0 <= k < i && w.log[k].epoch == w.log[i].epoch then NoBoundary
      else if w.log[i].epoch == 1 then ColdStart else SourceGap
  {
    hide Run;
    RunKeeps(ops);
    EpochsUpTo(w, i);
    assert Linked(w.journal, w.anchors, w.log, i);
    if i > 0 { EpochsUpTo(w, i - 1); }
  }

  lemma EpochsUpTo(w: World, i: nat)
    requires Chained(w.journal, w.anchors, w.log) && i < |w.log|
    ensures forall k :: 0 <= k <= i ==> w.log[k].epoch <= w.log[i].epoch
  {
    hide *;
    forall k | 0 <= k <= i ensures w.log[k].epoch <= w.log[i].epoch { EpochsAscend(w, k, i); }
  }

  /** Two files of one epoch report disjoint segments, in order. */
  lemma {:induction false} SegmentsAreDisjoint(w: World, i: nat, j: nat)
    requires Inv(w) && i < j < |w.log| && w.log[i].epoch == w.log[j].epoch
    ensures w.log[i].from < w.log[i].to <= w.log[j].from < w.log[j].to
    decreases j
  {
    hide Body, Digest;
    assert Linked(w.journal, w.anchors, w.log, i);
    assert Linked(w.journal, w.anchors, w.log, j);
    EpochsAscend(w, i, j - 1);
    EpochsAscend(w, j - 1, j);
    if i < j - 1 { SegmentsAreDisjoint(w, i, j - 1); }
  }
}
